/**
 What the schema of a type is, as a pure function of the type graph: named structs are
 referred to by name, everything else is written in place. The recursion follows a rank.
 */
module SchemaSpec {
  import opened Prelude
  import opened OrderedMaps
  import opened TypeGraph
  import opened SchemaRecursion

  // ---- Shapes ----

  function RefText(name: string): Json {
    Text("#/components/schemas/" + name)
  }

  function RefTo(name: string): seq<Entry> {
    [Entry("$ref", RefText(name))]
  }

  function Typed(typ: string): seq<Entry> {
    [Entry("type", Text(typ))]
  }

  function Formatted(typ: string, format: string): seq<Entry> {
    [Entry("type", Text(typ)), Entry("format", Text(format))]
  }

  function Anything(): seq<Entry> {
    [Entry("description", Text("Arbitrary JSON value."))]
  }

  function Around(typ: string, key: string, inner: seq<Entry>): seq<Entry> {
    [Entry("type", Text(typ)), Entry(key, Object(inner))]
  }

  function Scalar(n: Node): seq<Entry> {
    match n
    case Str => Typed("string")
    case Bool => Typed("boolean")
    case WideInt => Formatted("integer", "int64")
    case NarrowInt => Typed("integer")
    case Uint8 => Typed("integer")
    case _ => Typed("number")
  }

  /** A $ref wrapped, a type widened, anything else as it is. */
  function Nullable(es: seq<Entry>): seq<Entry> {
    if Get(es, "$ref").Some? then [Entry("anyOf", List([Object(es), Object(Typed("null"))]))]
    else if Get(es, "type").Some? then Set(es, "type", List([Get(es, "type").value, Text("null")]))
    else es
  }

  function Without(es: seq<Entry>, k: string): seq<Entry> {
    if es == [] then []
    else
      var n := |es| - 1;
      if es[n].key == k then Without(es[..n], k) else Without(es[..n], k) + [es[n]]
  }

  /** The author's description wins; a $ref may not have siblings, so it goes inside. */
  function Documented(es: seq<Entry>, doc: string): seq<Entry> {
    if doc == "" then es
    else if Get(es, "$ref").Some? then [Entry("description", Text(doc)), Entry("allOf", List([Object(es)]))]
    else [Entry("description", Text(doc))] + Without(es, "description")
  }

  function Texts(ss: seq<string>): Json {
    List(seq(|ss|, i requires 0 <= i < |ss| => Text(ss[i])))
  }

  /** Whole numbers first, then other numbers, then booleans; everything else stays a string. */
  function ExampleValue(d: Directive): Json
    requires d.Example?
  {
    if d.asInt.Some? then Integer(d.asInt.value)
    else if d.asFloat.Some? then Decimal(d.asFloat.value)
    else if d.asBool.Some? then Flag(d.asBool.value)
    else Text(d.raw)
  }

  /** The key and value a directive sets; None for one the generator refuses. */
  function DirectiveEntry(d: Directive): (e: Option<Entry>)
    ensures e.Some? ==> e.value.key != "$ref"
  {
    match d
    case Format(v) => if v == "" then None else Some(Entry("format", Text(v)))
    case Enum(vs) => if vs == [] then None else Some(Entry("enum", Texts(vs)))
    case Example(_, _, _, _) => Some(Entry("example", ExampleValue(d)))
    case Mark(name) =>
      if name == "readOnly" || name == "writeOnly" || name == "deprecated" then Some(Entry(name, Flag(true))) else None
    case Bad => None
  }

  function Directed(es: seq<Entry>, ds: seq<Directive>): Option<seq<Entry>> {
    if ds == [] then Some(es)
    else
      var before, e := Directed(es, ds[..|ds| - 1]), DirectiveEntry(ds[|ds| - 1]);
      if before.None? || e.None? then None else Some(Set(before.value, e.value.key, e.value.value))
  }

  function Tagged(es: seq<Entry>, tag: Option<seq<Directive>>): Option<seq<Entry>> {
    if tag.None? then Some(es) else if Get(es, "$ref").Some? then None else Directed(es, tag.value)
  }

  function StructSchema(doc: string, fields: Fields): seq<Entry> {
    (if doc == "" then [] else [Entry("description", Text(doc))])
    + [Entry("type", Text("object")), Entry("properties", Object(fields.properties))]
    + (if fields.required == [] then [] else [Entry("required", Texts(fields.required))])
  }

  // ---- Types ----

  /** The properties collected so far and the names of those that are required. */
  datatype Fields = Fields(properties: seq<Entry>, required: seq<string>)

  ghost predicate Wired(types: Types, rank: Rank) {
    Closed(types.nodes) && Ranked(types.nodes, rank)
  }

  function PropertyName(f: Field): string {
    if f.tagName == "" then f.name else f.tagName
  }

  /** A further property; None if its name is taken. */
  function WithProperty(fields: Fields, f: Field, schema: seq<Entry>): Option<Fields> {
    if Get(fields.properties, PropertyName(f)).Some? then None
    else
      Some(Fields(Set(fields.properties, PropertyName(f), Object(schema)),
                  if f.optional then fields.required else fields.required + [PropertyName(f)]))
  }

  lemma ElementLeads(types: Types, rank: Rank, t: TypeId)
    requires Wired(types, rank) && t in types.nodes
    ensures match types.nodes[t]
            case Pointer(e) => e in types.nodes && Height(rank, AsValue(e)) < Height(rank, AsValue(t))
            case Slice(e) =>
              e in types.nodes && (!types.nodes[e].Uint8? ==> Height(rank, AsValue(e)) < Height(rank, AsValue(t)))
            case Array(e) =>
              e in types.nodes && (!types.nodes[e].Uint8? ==> Height(rank, AsValue(e)) < Height(rank, AsValue(t)))
            case Map(k, e) =>
              && k in types.nodes && e in types.nodes
              && (types.nodes[k].Str? ==> Height(rank, AsValue(e)) < Height(rank, AsValue(t)))
            case Struct(name, _, _, _) => name == "" ==> Height(rank, AsFields(t)) < Height(rank, AsValue(t))
            case _ => true
  {
    var g, cs := types.nodes, Children(types.nodes[t]);
    assert AllIn(cs, g.Keys);
    match g[t]
    case Pointer(e) => assert cs[0] == e && Leads(g, AsValue(t), AsValue(e));
    case Slice(e) => assert cs[0] == e && (!g[e].Uint8? ==> Leads(g, AsValue(t), AsValue(e)));
    case Array(e) => assert cs[0] == e && (!g[e].Uint8? ==> Leads(g, AsValue(t), AsValue(e)));
    case Map(k, e) => assert cs[0] == k && cs[1] == e && (g[k].Str? ==> Leads(g, AsValue(t), AsValue(e)));
    case Struct(name, _, _, _) => assert name == "" ==> Leads(g, AsValue(t), AsFields(t));
    case _ =>
  }

  lemma FieldLeads(types: Types, rank: Rank, t: TypeId, i: nat)
    requires Wired(types, rank) && t in types.nodes && types.nodes[t].Struct? && i < |types.nodes[t].fields|
    ensures var f := types.nodes[t].fields[i];
            var e := Embedded(types.nodes, f);
            && f.typ in types.nodes
            && (f.tagName != "-" && e.Some? ==> Height(rank, AsFields(e.value)) < Height(rank, AsFields(t)))
            && (f.tagName != "-" && e.None? && f.exported ==> Height(rank, AsValue(f.typ)) < Height(rank, AsFields(t)))
  {
    var g, f := types.nodes, types.nodes[t].fields[i];
    assert AllIn(Children(g[t]), g.Keys) && Children(g[t])[i] == f.typ;
    var v := FieldVisit(g, f);
    assert v.Some? ==> Leads(g, AsFields(t), v.value);
  }

  /** The schema of a type where it is used; None where the generator refuses. */
  ghost function ValueSchema(types: Types, rank: Rank, t: TypeId): Option<seq<Entry>>
    requires Wired(types, rank) && t in types.nodes
    decreases Height(rank, AsValue(t)), 1, 0
  {
    ElementLeads(types, rank, t);
    if t == types.timeType then Some(Formatted("string", "date-time"))
    else if t == types.rawMessageType then Some(Anything())
    else
      match types.nodes[t]
      case Pointer(e) =>
        var inner := ValueSchema(types, rank, e);
        if inner.None? then None else Some(Nullable(inner.value))
      case Slice(e) => ListSchema(types, rank, t, e)
      case Array(e) => ListSchema(types, rank, t, e)
      case Map(k, e) =>
        if !types.nodes[k].Str? then None
        else
          var inner := ValueSchema(types, rank, e);
          if inner.None? then None else Some(Around("object", "additionalProperties", inner.value))
      case Struct(name, _, _, _) => if name != "" then Some(RefTo(name)) else ObjectSchema(types, rank, t)
      case Interface => Some(Anything())
      case Unsupported => None
      case _ => Some(Scalar(types.nodes[t]))
  }

  ghost function ListSchema(types: Types, rank: Rank, t: TypeId, e: TypeId): Option<seq<Entry>>
    requires Wired(types, rank) && t in types.nodes && e in types.nodes
    requires types.nodes[e].Uint8? || Height(rank, AsValue(e)) < Height(rank, AsValue(t))
    decreases Height(rank, AsValue(t)), 0, 0
  {
    if types.nodes[e].Uint8? then Some(Formatted("string", "byte"))
    else
      var inner := ValueSchema(types, rank, e);
      if inner.None? then None else Some(Around("array", "items", inner.value))
  }

  /** The schema of a struct's own fields: the body of its component. */
  ghost function ObjectSchema(types: Types, rank: Rank, t: TypeId): Option<seq<Entry>>
    requires Wired(types, rank) && t in types.nodes && types.nodes[t].Struct?
    decreases Height(rank, AsFields(t)), 1, 0
  {
    var fields := Collected(types, rank, t, |types.nodes[t].fields|, Fields([], []));
    if fields.None? then None
    else Some(StructSchema(if types.nodes[t].name == "" then "" else types.nodes[t].doc, fields.value))
  }

  /** The first n fields of a struct added to what was collected before, promoted ones in place. */
  ghost function Collected(types: Types, rank: Rank, t: TypeId, n: nat, start: Fields): Option<Fields>
    requires Wired(types, rank) && t in types.nodes && types.nodes[t].Struct? && n <= |types.nodes[t].fields|
    decreases Height(rank, AsFields(t)), 0, n
  {
    if n == 0 then Some(start)
    else
      var before := Collected(types, rank, t, n - 1, start);
      FieldLeads(types, rank, t, n - 1);
      if before.None? then None
      else
        var f := types.nodes[t].fields[n - 1];
        var e := Embedded(types.nodes, f);
        if f.tagName == "-" then before
        else if e.Some? then Collected(types, rank, e.value, |types.nodes[e.value].fields|, before.value)
        else if !f.exported then before
        else
          var schema := FieldSchema(types, rank, t, n - 1);
          if schema.None? then None else WithProperty(before.value, f, schema.value)
  }

  ghost function FieldSchema(types: Types, rank: Rank, t: TypeId, i: nat): Option<seq<Entry>>
    requires Wired(types, rank) && t in types.nodes && types.nodes[t].Struct? && i < |types.nodes[t].fields|
    requires var f := types.nodes[t].fields[i];
             f.typ in types.nodes && Height(rank, AsValue(f.typ)) < Height(rank, AsFields(t))
    decreases Height(rank, AsValue(types.nodes[t].fields[i].typ)), 2, 0
  {
    var f := types.nodes[t].fields[i];
    var schema := ValueSchema(types, rank, f.typ);
    if schema.None? then None else Tagged(Documented(schema.value, f.doc), f.tag)
  }
}
