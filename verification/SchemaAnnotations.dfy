/** What a schema says beyond its demands: formats, descriptions and the directives of openapi tags. */
module SchemaAnnotations {
  import opened Prelude
  import opened OrderedMaps
  import opened TypeGraph
  import opened SchemaRecursion
  import opened SchemaSpec
  import opened SchemaFields
  import opened SchemaMeaning
  import opened SchemaShapes
  import opened SchemaTruth

  // ---- Tags ----

  /** What a directive promises to set under a key. */
  function Told(d: Directive, k: string): Option<Json> {
    match d
    case Format(v) => if k == "format" then Some(Text(v)) else None
    case Enum(vs) =>
      if k == "enum" then Some(List(seq(|vs|, i requires 0 <= i < |vs| => Text(vs[i])))) else None
    case Example(raw, asInt, asFloat, asBool) =>
      if k != "example" then None
      else
        Some(match (asInt, asFloat, asBool)
             case (Some(n), _, _) => Integer(n)
             case (None, Some(x), _) => Decimal(x)
             case (None, None, Some(b)) => Flag(b)
             case (None, None, None) => Text(raw))
    case Mark(name) => if k == name then Some(Flag(true)) else None
    case Bad => None
  }

  /** A directive the generator does not know or that lacks its value. */
  predicate Faulty(d: Directive) {
    d == Format("") || d == Enum([]) || d == Bad
    || (d.Mark? && d.name !in {"readOnly", "writeOnly", "deprecated"})
  }

  /** The last directive that sets the key wins. */
  function LastTold(ds: seq<Directive>, k: string): Option<Json> {
    if ds == [] then None
    else if Told(ds[|ds| - 1], k).Some? then Told(ds[|ds| - 1], k)
    else LastTold(ds[..|ds| - 1], k)
  }

  lemma DirectiveTells(d: Directive, k: string)
    ensures DirectiveEntry(d).None? <==> Faulty(d)
    ensures DirectiveEntry(d).Some? ==>
              Told(d, k) == if DirectiveEntry(d).value.key == k then Some(DirectiveEntry(d).value.value) else None
  {
  }

  lemma {:induction false} DirectedRefuses(es: seq<Entry>, ds: seq<Directive>)
    ensures Directed(es, ds).None? <==> exists i :: 0 <= i < |ds| && Faulty(ds[i])
  {
    if ds != [] {
      var front, last := ds[..|ds| - 1], ds[|ds| - 1];
      assert forall i | 0 <= i < |front| :: ds[i] == front[i];
      DirectedRefuses(es, front);
      DirectiveTells(last, "");
    }
  }

  lemma {:induction false} DirectedTells(es: seq<Entry>, ds: seq<Directive>, k: string)
    requires Directed(es, ds).Some?
    ensures Get(Directed(es, ds).value, k) == if LastTold(ds, k).Some? then LastTold(ds, k) else Get(es, k)
  {
    if ds != [] {
      var front, last := ds[..|ds| - 1], ds[|ds| - 1];
      DirectedTells(es, front, k);
      DirectiveTells(last, k);
      var e := DirectiveEntry(last).value;
      GetSet(Directed(es, front).value, e.key, e.value, k);
    }
  }

  /** A tag is refused exactly beside a $ref or with a faulty directive, and otherwise sets what it says. */
  lemma TagTells(es: seq<Entry>, ds: seq<Directive>, k: string)
    ensures Tagged(es, Some(ds)).None? <==> Get(es, "$ref").Some? || exists i :: 0 <= i < |ds| && Faulty(ds[i])
    ensures Tagged(es, Some(ds)).Some? ==>
              Get(Tagged(es, Some(ds)).value, k) == if LastTold(ds, k).Some? then LastTold(ds, k) else Get(es, k)
  {
    DirectedRefuses(es, ds);
    if Tagged(es, Some(ds)).Some? { DirectedTells(es, ds, k); }
  }

  // ---- Descriptions ----

  /** The author's text, if there is one, whatever the schema said before; nothing else is lost. */
  lemma DocumentedTells(es: seq<Entry>, doc: string, k: string)
    ensures Get(Documented(es, doc), "description") == if doc != "" then Some(Text(doc)) else Get(es, "description")
    ensures k != "description" && Get(es, "$ref").None? ==> Get(Documented(es, doc), k) == Get(es, k)
  {
    if doc != "" && Get(es, "$ref").None? {
      GetWithout(es, "description", k);
      GetFirst("description", Text(doc), Without(es, "description"), k);
      GetFirst("description", Text(doc), Without(es, "description"), "description");
    }
  }

  /** A component carries the doc comment of its type. */
  lemma ComponentTells(types: Types, rank: Rank, t: TypeId)
    requires Wired(types, rank) && t in types.nodes && types.nodes[t].Struct? && ObjectSchema(types, rank, t).Some?
    ensures Get(ObjectSchema(types, rank, t).value, "description") ==
            if types.nodes[t].name != "" && types.nodes[t].doc != "" then Some(Text(types.nodes[t].doc)) else None
  {
    var es := ObjectSchema(types, rank, t).value;
    var n := types.nodes[t];
    if n.name != "" && n.doc != "" {
      assert es[0] == Entry("description", Text(n.doc));
    } else {
      assert |es| <= 3 && es[0].key == "type" && es[1].key == "properties" && (|es| == 3 ==> es[2].key == "required");
    }
  }

  // ---- Formats ----

  /** The format behind the pointers of a type: instants, byte strings and the wide integers have one. */
  ghost function FormatOf(types: Types, rank: Rank, t: TypeId): Option<Json>
    requires Wired(types, rank) && t in types.nodes
    decreases Height(rank, AsValue(t))
  {
    ElementLeads(types, rank, t);
    if t == types.timeType then Some(Text("date-time"))
    else if t == types.rawMessageType then None
    else
      match types.nodes[t]
      case Pointer(e) => FormatOf(types, rank, e)
      case Slice(e) => if types.nodes[e].Uint8? then Some(Text("byte")) else None
      case Array(e) => if types.nodes[e].Uint8? then Some(Text("byte")) else None
      case WideInt => Some(Text("int64"))
      case _ => None
  }

  lemma NullableTells(es: seq<Entry>, k: string)
    requires k != "type" && k != "anyOf"
    ensures Get(Nullable(es), k) == if Get(es, "$ref").Some? then None else Get(es, k)
  {
    if Get(es, "$ref").None? && Get(es, "type").Some? {
      GetSet(es, "type", List([Get(es, "type").value, Text("null")]), k);
    }
  }

  lemma {:induction false} FormatsAreTold(types: Types, rank: Rank, t: TypeId)
    requires Wired(types, rank) && t in types.nodes && ValueSchema(types, rank, t).Some?
    ensures Get(ValueSchema(types, rank, t).value, "format") == FormatOf(types, rank, t)
    decreases Height(rank, AsValue(t))
  {
    if e :| PointerTo(types, t, e) {
      ElementLeads(types, rank, t);
      FormatsAreTold(types, rank, e);
      NullableTells(ValueSchema(types, rank, e).value, "format");
      if Get(ValueSchema(types, rank, e).value, "$ref").Some? { RefsAreNamed(types, rank, e); }
    } else {
      FormatHere(types, rank, t);
    }
  }

  /** Only a named struct is written as a bare $ref. */
  lemma RefsAreNamed(types: Types, rank: Rank, t: TypeId)
    requires Wired(types, rank) && t in types.nodes && ValueSchema(types, rank, t).Some?
    requires Get(ValueSchema(types, rank, t).value, "$ref").Some?
    ensures NamedStruct(types, t)
  {
    ValueShape(types, rank, t);
    RulesAreFound(ValueSchema(types, rank, t).value);
  }

  lemma LookupTwo(k: string, v: Json, l: string, w: Json, x: string)
    requires k != l
    ensures Get([Entry(k, v), Entry(l, w)], x) == if x == k then Some(v) else if x == l then Some(w) else None
  {
    var es := [Entry(k, v), Entry(l, w)];
    assert es[0].key == k && es[1].key == l;
  }

  lemma ScalarFormat(n: Node)
    ensures Get(Scalar(n), "format") == if n.WideInt? then Some(Text("int64")) else None
  {
    LookupTwo("type", Text("integer"), "format", Text("int64"), "format");
  }

  lemma ObjectFormat(types: Types, rank: Rank, t: TypeId)
    requires Wired(types, rank) && t in types.nodes && types.nodes[t].Struct? && ObjectSchema(types, rank, t).Some?
    requires types.nodes[t].name == ""
    ensures Get(ObjectSchema(types, rank, t).value, "format").None?
  {
    var es := ObjectSchema(types, rank, t).value;
    assert |es| <= 3 && es[0].key == "type" && es[1].key == "properties" && (|es| == 3 ==> es[2].key == "required");
  }

  lemma FormatHere(types: Types, rank: Rank, t: TypeId)
    requires Wired(types, rank) && t in types.nodes && ValueSchema(types, rank, t).Some?
    requires forall e :: !PointerTo(types, t, e)
    ensures Get(ValueSchema(types, rank, t).value, "format") == FormatOf(types, rank, t)
  {
    ElementLeads(types, rank, t);
    var n := types.nodes[t];
    if Special(types, t) {
      LookupTwo("type", Text("string"), "format", Text("date-time"), "format");
    } else {
      assert !n.Pointer? by { if n.Pointer? { assert PointerTo(types, t, n.elem); } }
      match n
      case Slice(e) => ListFormat(types, rank, t, e);
      case Array(e) => ListFormat(types, rank, t, e);
      case Map(_, e) =>
        LookupTwo("type", Text("object"), "additionalProperties", Object(ValueSchema(types, rank, e).value), "format");
      case Struct(name, _, _, _) => if name == "" { ObjectFormat(types, rank, t); }
      case Interface =>
      case _ => ScalarFormat(n);
    }
  }

  lemma ListFormat(types: Types, rank: Rank, t: TypeId, e: TypeId)
    requires Wired(types, rank) && t in types.nodes && e in types.nodes
    requires types.nodes[e].Uint8? || Height(rank, AsValue(e)) < Height(rank, AsValue(t))
    requires ListSchema(types, rank, t, e).Some?
    ensures Get(ListSchema(types, rank, t, e).value, "format") ==
            if types.nodes[e].Uint8? then Some(Text("byte")) else None
  {
    if types.nodes[e].Uint8? {
      LookupTwo("type", Text("string"), "format", Text("byte"), "format");
    } else {
      LookupTwo("type", Text("array"), "items", Object(ValueSchema(types, rank, e).value), "format");
    }
  }

  // ---- Fields ----

  lemma {:induction false} TagsLeaveDescriptions(ds: seq<Directive>)
    requires forall i | 0 <= i < |ds| :: !Faulty(ds[i])
    ensures LastTold(ds, "description").None?
  {
    if ds != [] {
      assert !Faulty(ds[|ds| - 1]);
      TagsLeaveDescriptions(ds[..|ds| - 1]);
    }
  }

  lemma DocumentedFormat(types: Types, rank: Rank, f: Field)
    requires Wired(types, rank) && f.typ in types.nodes && ValueSchema(types, rank, f.typ).Some?
    ensures Get(Documented(ValueSchema(types, rank, f.typ).value, f.doc), "format") == FormatOf(types, rank, f.typ)
  {
    var es := ValueSchema(types, rank, f.typ).value;
    FormatsAreTold(types, rank, f.typ);
    DocumentedTells(es, f.doc, "format");
    if f.doc != "" && Get(es, "$ref").Some? {
      RefsAreNamed(types, rank, f.typ);
      LookupTwo("description", Text(f.doc), "allOf", List([Object(es)]), "format");
    }
  }

  /** A property is described by its doc comment, and by its tag where the tag has something to say. */
  lemma FieldTells(types: Types, rank: Rank, f: Field, k: string)
    requires Wired(types, rank) && f.typ in types.nodes && SchemaOf(types, rank, f).Some?
    ensures var es := SchemaOf(types, rank, f).value;
            var told := if f.tag.Some? then LastTold(f.tag.value, k) else None;
            && (f.doc != "" ==> Get(es, "description") == Some(Text(f.doc)))
            && (told.Some? ==> Get(es, k) == told)
            && (told.None? && k == "format" ==> Get(es, k) == FormatOf(types, rank, f.typ))
  {
    var schema := ValueSchema(types, rank, f.typ).value;
    DocumentedTells(schema, f.doc, k);
    DocumentedFormat(types, rank, f);
    if f.tag.Some? {
      TagTells(Documented(schema, f.doc), f.tag.value, k);
      TagTells(Documented(schema, f.doc), f.tag.value, "description");
      TagsLeaveDescriptions(f.tag.value);
    }
  }
}
