/**
 What a generated schema means: which JSON values meet it, by the rules a validator follows, and
 which JSON values a Go type stands for, read off its fields. Neither side mentions the
 generator; the theorem is that they agree.
 */
module SchemaMeaning {
  import opened Prelude
  import opened OrderedMaps
  import opened TypeGraph
  import opened SchemaRecursion
  import opened SchemaSpec
  import opened SchemaFields

  // ---- Which values meet a schema ----

  /** Where a local $ref points to. */
  const COMPONENTS := "#/components/schemas/"

  predicate NameAdmits(name: string, j: Json) {
    || (name == "null" && j.Null?)
    || (name == "boolean" && j.Flag?)
    || (name == "integer" && j.Integer?)
    || (name == "number" && (j.Integer? || j.Decimal?))
    || (name == "string" && j.Text?)
    || (name == "array" && j.List?)
    || (name == "object" && j.Object?)
  }

  /** The keyword `type`: one name, or a list of names of which one must do. */
  predicate TypeAdmits(typ: Json, j: Json) {
    match typ
    case Text(name) => NameAdmits(name, j)
    case List(items) => exists i :: 0 <= i < |items| && items[i].Text? && NameAdmits(items[i].s, j)
    case _ => false
  }

  /** The keyword `required`, which concerns objects only. */
  predicate HasAll(names: Json, j: Json) {
    j.Object? ==> names.List? && forall i | 0 <= i < |names.items| ::
      names.items[i].Text? && HasKey(j.entries, names.items[i].s)
  }

  function Resolve(cs: seq<Entry>, ref: Json): Option<seq<Entry>> {
    if ref.Text? && COMPONENTS <= ref.s then
      var c := Get(cs, ref.s[|COMPONENTS|..]);
      if c.Some? && c.value.Object? then Some(c.value.entries) else None
    else None
  }

  /** The keywords that compare the value itself and its parts. */
  predicate Checks(cs: seq<Entry>, es: seq<Entry>, j: Json)
    decreases j, 1
  {
    && (Get(es, "type").Some? ==> TypeAdmits(Get(es, "type").value, j))
    && (Get(es, "enum").Some? ==> Get(es, "enum").value.List? && j in Get(es, "enum").value.items)
    && Inside(cs, es, j)
  }

  /** The keywords about the parts of an object or a list. */
  predicate Inside(cs: seq<Entry>, es: seq<Entry>, j: Json)
    decreases j, 0
  {
    var properties := Get(es, "properties");
    && (Get(es, "required").Some? ==> HasAll(Get(es, "required").value, j))
    && (properties.Some? && j.Object? ==>
          && properties.value.Object?
          && forall i | 0 <= i < |j.entries| && HasKey(properties.value.entries, j.entries[i].key) ::
               Meets(cs, Get(properties.value.entries, j.entries[i].key).value, j.entries[i].value))
    && (Get(es, "additionalProperties").Some? && j.Object? ==>
          forall i | 0 <= i < |j.entries|
                     && !(properties.Some? && properties.value.Object?
                          && HasKey(properties.value.entries, j.entries[i].key)) ::
            Meets(cs, Get(es, "additionalProperties").value, j.entries[i].value))
    && (Get(es, "items").Some? && j.List? ==>
          forall i | 0 <= i < |j.items| :: Meets(cs, Get(es, "items").value, j.items[i]))
  }

  /**
   A value meets a schema of a document with these components. A $ref stands for its component,
   which says what it demands by itself; other keywords are annotations.
   */
  predicate Meets(cs: seq<Entry>, schema: Json, j: Json)
    decreases j, 2, schema
  {
    schema.Object? &&
    var es := schema.entries;
    var any, all := IndexOf(es, "anyOf"), IndexOf(es, "allOf");
    if Get(es, "$ref").Some? then
      var body := Resolve(cs, Get(es, "$ref").value);
      body.Some? && Plain(body.value) && Checks(cs, body.value, j)
    else
      && Checks(cs, es, j)
      && (any < |es| ==> es[any].value.List? && exists i :: 0 <= i < |es[any].value.items|
                                                            && Meets(cs, es[any].value.items[i], j))
      && (all < |es| ==> es[all].value.List? && forall i | 0 <= i < |es[all].value.items| ::
                                                  Meets(cs, es[all].value.items[i], j))
  }

  /** No reference and no combination at the top. */
  predicate Plain(es: seq<Entry>) {
    Get(es, "$ref").None? && Get(es, "anyOf").None? && Get(es, "allOf").None?
  }

  // ---- Which values a type admits ----

  /** One of the two types that are written as they are. */
  predicate Special(types: Types, t: TypeId) {
    t == types.timeType || t == types.rawMessageType
  }

  predicate PointerTo(types: Types, t: TypeId, e: TypeId) {
    !Special(types, t) && t in types.nodes && types.nodes[t] == Pointer(e)
  }

  predicate NamedStruct(types: Types, t: TypeId) {
    !Special(types, t) && t in types.nodes && types.nodes[t].Struct? && types.nodes[t].name != ""
  }

  /** Behind its pointers the type has a JSON type of its own, not a component's and not any. */
  ghost predicate TypedEnd(types: Types, rank: Rank, t: TypeId)
    requires Wired(types, rank) && t in types.nodes
    decreases Height(rank, AsValue(t))
  {
    ElementLeads(types, rank, t);
    if t == types.timeType then true
    else if t == types.rawMessageType then false
    else
      match types.nodes[t]
      case Pointer(e) => TypedEnd(types, rank, e)
      case Struct(name, _, _, _) => name == ""
      case Interface => false
      case _ => true
  }

  /** A pointer to a pointer to a typed value: its list of types is nested in a list, where no type is found. */
  ghost predicate NestsTypes(types: Types, rank: Rank, e: TypeId)
    requires Wired(types, rank) && e in types.nodes
  {
    !Special(types, e) && types.nodes[e].Pointer? && TypedEnd(types, rank, e)
  }

  /** The last enum of a tag is the one that holds. */
  predicate EnumAdmits(tag: Option<seq<Directive>>, j: Json) {
    tag.Some? ==> forall i | 0 <= i < |tag.value| && tag.value[i].Enum?
                             && (forall k | i < k < |tag.value| :: !tag.value[k].Enum?) ::
      j.Text? && j.s in tag.value[i].vs
  }

  /** The names of the fields that cannot be omitted are all there. */
  ghost predicate MandatoryPresent(g: map<TypeId, Node>, t: TypeId, es: seq<Entry>) {
    forall p, f | Route(g, t, p, f) && !f.optional :: HasKey(es, JsonName(f))
  }

  /** The JSON values the contract allows for a Go type. */
  ghost predicate Admits(types: Types, rank: Rank, t: TypeId, j: Json)
    requires Wired(types, rank)
    decreases j, Height(rank, AsValue(t))
  {
    t in types.nodes && (
      ElementLeads(types, rank, t);
      if t == types.timeType then j.Text?
      else if t == types.rawMessageType then true
      else
        match types.nodes[t]
        case Pointer(e) => j.Null? || (!NestsTypes(types, rank, e) && Admits(types, rank, e, j))
        case Slice(e) =>
          if types.nodes[e].Uint8? then j.Text?
          else j.List? && forall i | 0 <= i < |j.items| :: Admits(types, rank, e, j.items[i])
        case Array(e) =>
          if types.nodes[e].Uint8? then j.Text?
          else j.List? && forall i | 0 <= i < |j.items| :: Admits(types, rank, e, j.items[i])
        case Map(_, e) => j.Object? && forall i | 0 <= i < |j.entries| :: Admits(types, rank, e, j.entries[i].value)
        case Struct(_, _, _, _) =>
          && j.Object? && MandatoryPresent(types.nodes, t, j.entries)
          && (forall p, f, i | Route(types.nodes, t, p, f) && 0 <= i < |j.entries| && j.entries[i].key == JsonName(f) ::
                Admits(types, rank, f.typ, j.entries[i].value) && EnumAdmits(f.tag, j.entries[i].value))
        case Str => j.Text?
        case Bool => j.Flag?
        case WideInt => j.Integer?
        case NarrowInt => j.Integer?
        case Uint8 => j.Integer?
        case Float => j.Integer? || j.Decimal?
        case Interface => true
        case Unsupported => false)
  }

  // ---- The components a schema relies on ----

  /** The structs that have a component name, and the keys on the list of undocumented fields. */
  datatype Visited = Visited(names: set<TypeId>, listed: set<string>)

  predicate Within(seen: Visited, more: Visited) {
    seen.names <= more.names && seen.listed <= more.listed
  }

  /** How a field of a struct is listed: package, type and field. */
  function DocKey(n: Node, f: Field): string
    requires n.Struct?
  {
    n.pkg + "." + n.name + "." + f.name
  }

  /** A field of a named struct is documented or listed. */
  predicate Noted(seen: Visited, n: Node, f: Field)
    requires n.Struct?
  {
    f.doc == "" && n.name != "" ==> DocKey(n, f) in seen.listed
  }

  /** Every named struct that the schema of t refers to has a name, and the undocumented fields in it are listed. */
  ghost predicate Known(types: Types, rank: Rank, seen: Visited, t: TypeId)
    requires Wired(types, rank) && t in types.nodes
    decreases Height(rank, AsValue(t)), 1, 0
  {
    ElementLeads(types, rank, t);
    Special(types, t) ||
    match types.nodes[t]
    case Pointer(e) => Known(types, rank, seen, e)
    case Slice(e) => types.nodes[e].Uint8? || Known(types, rank, seen, e)
    case Array(e) => types.nodes[e].Uint8? || Known(types, rank, seen, e)
    case Map(k, e) => types.nodes[k].Str? ==> Known(types, rank, seen, e)
    case Struct(name, _, _, fields) =>
      if name != "" then t in seen.names else KnownFields(types, rank, seen, t, |fields|)
    case _ => true
  }

  /** The same for the first n fields of t. */
  ghost predicate KnownFields(types: Types, rank: Rank, seen: Visited, t: TypeId, n: nat)
    requires Wired(types, rank) && t in types.nodes && types.nodes[t].Struct? && n <= |types.nodes[t].fields|
    decreases Height(rank, AsFields(t)), 0, n
  {
    n == 0 || (
      FieldLeads(types, rank, t, n - 1);
      var f := types.nodes[t].fields[n - 1];
      var e := Embedded(types.nodes, f);
      && KnownFields(types, rank, seen, t, n - 1)
      && (f.tagName == "-" || if e.Some? then KnownFields(types, rank, seen, e.value, |types.nodes[e.value].fields|)
                              else !f.exported || (Known(types, rank, seen, f.typ) && Noted(seen, types.nodes[t], f))))
  }

  lemma {:induction false} KnownGrows(types: Types, rank: Rank, seen: Visited, more: Visited, t: TypeId)
    requires Wired(types, rank) && t in types.nodes && Within(seen, more) && Known(types, rank, seen, t)
    ensures Known(types, rank, more, t)
    decreases Height(rank, AsValue(t)), 1, 0
  {
    ElementLeads(types, rank, t);
    if !Special(types, t) {
      match types.nodes[t]
      case Pointer(e) => KnownGrows(types, rank, seen, more, e);
      case Slice(e) => if !types.nodes[e].Uint8? { KnownGrows(types, rank, seen, more, e); }
      case Array(e) => if !types.nodes[e].Uint8? { KnownGrows(types, rank, seen, more, e); }
      case Map(k, e) => if types.nodes[k].Str? { KnownGrows(types, rank, seen, more, e); }
      case Struct(name, _, _, fields) => if name == "" { KnownFieldsGrow(types, rank, seen, more, t, |fields|); }
      case _ =>
    }
  }

  lemma {:induction false} KnownFieldsGrow(
    types: Types, rank: Rank, seen: Visited, more: Visited, t: TypeId, n: nat)
    requires Wired(types, rank) && t in types.nodes && types.nodes[t].Struct? && n <= |types.nodes[t].fields|
    requires Within(seen, more) && KnownFields(types, rank, seen, t, n)
    ensures KnownFields(types, rank, more, t, n)
    decreases Height(rank, AsFields(t)), 0, n
  {
    if n > 0 {
      FieldLeads(types, rank, t, n - 1);
      KnownFieldsGrow(types, rank, seen, more, t, n - 1);
      var f := types.nodes[t].fields[n - 1];
      var e := Embedded(types.nodes, f);
      if f.tagName != "-" {
        if e.Some? {
          KnownFieldsGrow(types, rank, seen, more, e.value, |types.nodes[e.value].fields|);
        } else if f.exported {
          KnownGrows(types, rank, seen, more, f.typ);
        }
      }
    }
  }

  /** What field i of t refers to. */
  ghost predicate KnownField(types: Types, rank: Rank, seen: Visited, t: TypeId, i: nat)
    requires Wired(types, rank) && t in types.nodes && types.nodes[t].Struct? && i < |types.nodes[t].fields|
  {
    FieldLeads(types, rank, t, i);
    var f := types.nodes[t].fields[i];
    var e := Embedded(types.nodes, f);
    f.tagName == "-" || if e.Some? then KnownFields(types, rank, seen, e.value, |types.nodes[e.value].fields|)
                        else !f.exported || (Known(types, rank, seen, f.typ) && Noted(seen, types.nodes[t], f))
  }

  lemma {:induction false} KnownFieldsEach(types: Types, rank: Rank, seen: Visited, t: TypeId, n: nat, i: nat)
    requires Wired(types, rank) && t in types.nodes && types.nodes[t].Struct? && i < n <= |types.nodes[t].fields|
    requires KnownFields(types, rank, seen, t, n)
    ensures KnownField(types, rank, seen, t, i)
  {
    if i < n - 1 { KnownFieldsEach(types, rank, seen, t, n - 1, i); }
  }

  lemma {:induction false} RouteKnown(
    types: Types, rank: Rank, seen: Visited, t: TypeId, p: Way, f: Field)
    requires Wired(types, rank) && t in types.nodes && types.nodes[t].Struct? && Route(types.nodes, t, p, f)
    requires KnownFields(types, rank, seen, t, |types.nodes[t].fields|)
    ensures f.typ in types.nodes && Known(types, rank, seen, f.typ)
    decreases p
  {
    FieldTyped(types, rank, t, p.i);
    KnownFieldsEach(types, rank, seen, t, |types.nodes[t].fields|, p.i);
    var e := RouteSplits(types.nodes, t, p, f);
    if e.Some? { RouteKnown(types, rank, seen, e.value, p.rest, f); }
  }

  /** The struct that declares the field at the end of a route. */
  ghost function Declarer(g: map<TypeId, Node>, t: TypeId, p: Way): TypeId
    decreases p
  {
    if p.Own? || t !in g || !g[t].Struct? || p.i >= |g[t].fields| || Embedded(g, g[t].fields[p.i]).None? then t
    else Declarer(g, Embedded(g, g[t].fields[p.i]).value, p.rest)
  }

  /** Own or promoted, a field without documentation is listed under the type that declares it. */
  lemma {:induction false} RouteListed(
    types: Types, rank: Rank, seen: Visited, t: TypeId, p: Way, f: Field)
    requires Wired(types, rank) && t in types.nodes && types.nodes[t].Struct? && Route(types.nodes, t, p, f)
    requires KnownFields(types, rank, seen, t, |types.nodes[t].fields|)
    ensures var s := Declarer(types.nodes, t, p);
            && s in types.nodes && types.nodes[s].Struct? && f in types.nodes[s].fields
            && (f.doc == "" && types.nodes[s].name != "" ==> DocKey(types.nodes[s], f) in seen.listed)
    decreases p
  {
    FieldTyped(types, rank, t, p.i);
    KnownFieldsEach(types, rank, seen, t, |types.nodes[t].fields|, p.i);
    var e := RouteSplits(types.nodes, t, p, f);
    if e.Some? { RouteListed(types, rank, seen, e.value, p.rest, f); }
  }

  /** Each struct of `seen` has its component, which refers to nothing outside. */
  ghost predicate Complete(types: Types, rank: Rank, cs: seq<Entry>, seen: Visited)
    requires Wired(types, rank)
  {
    forall u | u in seen.names :: HasComponent(types, rank, cs, seen, u)
  }

  ghost predicate HasComponent(types: Types, rank: Rank, cs: seq<Entry>, seen: Visited, u: TypeId)
    requires Wired(types, rank)
  {
    && u in types.nodes && types.nodes[u].Struct? && ObjectSchema(types, rank, u).Some?
    && Get(cs, types.nodes[u].name) == Some(Object(ObjectSchema(types, rank, u).value))
    && KnownFields(types, rank, seen, u, |types.nodes[u].fields|)
  }
}
