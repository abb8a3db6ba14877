/** The schema of a type is met by exactly the values of the type, references resolved. */
module SchemaTruth {
  import opened Prelude
  import opened OrderedMaps
  import opened TypeGraph
  import opened SchemaRecursion
  import opened SchemaSpec
  import opened SchemaFields
  import opened SchemaMeaning
  import opened SchemaShapes

  /** What the rules at the top of a type's schema can be. */
  ghost predicate ShapedAs(types: Types, rank: Rank, t: TypeId, r: Rules)
    requires Wired(types, rank) && t in types.nodes
  {
    && Simple(r) && (r.ref.Some? <==> NamedStruct(types, t)) && (r.typ.Some? <==> TypedEnd(types, rank, t))
    && (r.typ.Some? ==> if Special(types, t) || !types.nodes[t].Pointer? then r.typ.value.Text? else r.typ.value.List?)
  }

  lemma TypedShape(types: Types, rank: Rank, t: TypeId, r: Rules, name: string)
    requires Wired(types, rank) && t in types.nodes && TypedEnd(types, rank, t) && !NamedStruct(types, t)
    requires Special(types, t) || !types.nodes[t].Pointer?
    requires r.typ == Some(Text(name)) && r.enum.None? && r.ref.None? && r.any.None? && r.all.None?
    ensures ShapedAs(types, rank, t, r)
  {
  }

  lemma UntypedShape(types: Types, rank: Rank, t: TypeId, r: Rules)
    requires Wired(types, rank) && t in types.nodes && !TypedEnd(types, rank, t) && r.typ.None? && r.enum.None?
    requires r.ref.Some? <==> NamedStruct(types, t)
    ensures ShapedAs(types, rank, t, r)
  {
  }

  lemma PointerShape(types: Types, rank: Rank, t: TypeId, e: TypeId, r: Rules, r': Rules)
    requires Wired(types, rank) && PointerTo(types, t, e) && e in types.nodes && ShapedAs(types, rank, e, r)
    requires r'.enum.None? && r'.ref.None? && (r.ref.None? ==> r'.any == r.any && r'.all == r.all)
    requires if r.ref.None? && r.typ.Some? then r'.typ.Some? && r'.typ.value.List? else r'.typ.None?
    ensures ShapedAs(types, rank, t, r')
  {
  }

  lemma {:induction false} ValueShape(types: Types, rank: Rank, t: TypeId)
    requires Wired(types, rank) && t in types.nodes && ValueSchema(types, rank, t).Some?
    ensures ShapedAs(types, rank, t, RulesOf(ValueSchema(types, rank, t).value))
    decreases Height(rank, AsValue(t))
  {
    if e :| PointerTo(types, t, e) {
      ElementLeads(types, rank, t);
      var inner := ValueSchema(types, rank, e).value;
      ValueShape(types, rank, e);
      NullableRules(inner);
      PointerShape(types, rank, t, e, RulesOf(inner), RulesOf(Nullable(inner)));
    } else if Special(types, t) || (Children(types.nodes[t]) == [] && !types.nodes[t].Struct?) {
      LeafShape(types, rank, t);
    } else if types.nodes[t].Struct? {
      StructShape(types, rank, t);
    } else {
      assert !types.nodes[t].Pointer? by {
        if types.nodes[t].Pointer? { assert PointerTo(types, t, types.nodes[t].elem); }
      }
      PartsShape(types, rank, t);
    }
  }

  lemma LeafShape(types: Types, rank: Rank, t: TypeId)
    requires Wired(types, rank) && t in types.nodes && ValueSchema(types, rank, t).Some?
    requires Special(types, t) || (Children(types.nodes[t]) == [] && !types.nodes[t].Struct?)
    ensures ShapedAs(types, rank, t, RulesOf(ValueSchema(types, rank, t).value))
  {
    if t == types.timeType {
      FormattedRules("string", "date-time");
      TypedShape(types, rank, t, RulesOf(Formatted("string", "date-time")), "string");
    } else if t == types.rawMessageType || types.nodes[t].Interface? {
      AnythingRules();
      UntypedShape(types, rank, t, RulesOf(Anything()));
    } else {
      var n := types.nodes[t];
      ScalarRules(n);
      TypedShape(types, rank, t, RulesOf(Scalar(n)), TypeName(n));
    }
  }

  lemma PartsShape(types: Types, rank: Rank, t: TypeId)
    requires Wired(types, rank) && t in types.nodes && !Special(types, t) && ValueSchema(types, rank, t).Some?
    requires types.nodes[t].Slice? || types.nodes[t].Array? || types.nodes[t].Map?
    ensures ShapedAs(types, rank, t, RulesOf(ValueSchema(types, rank, t).value))
  {
    ElementLeads(types, rank, t);
    var e := types.nodes[t].elem;
    if types.nodes[t].Map? {
      var inner := ValueSchema(types, rank, e).value;
      ValuesRules("object", inner);
      TypedShape(types, rank, t, RulesOf(Around("object", "additionalProperties", inner)), "object");
    } else if types.nodes[e].Uint8? {
      FormattedRules("string", "byte");
      TypedShape(types, rank, t, RulesOf(Formatted("string", "byte")), "string");
    } else {
      var inner := ValueSchema(types, rank, e).value;
      ItemsRules("array", inner);
      TypedShape(types, rank, t, RulesOf(Around("array", "items", inner)), "array");
    }
  }

  lemma StructShape(types: Types, rank: Rank, t: TypeId)
    requires Wired(types, rank) && t in types.nodes && types.nodes[t].Struct? && !Special(types, t)
    requires ValueSchema(types, rank, t).Some?
    ensures ShapedAs(types, rank, t, RulesOf(ValueSchema(types, rank, t).value))
  {
    var name := types.nodes[t].name;
    if name != "" {
      RefRules(name);
      UntypedShape(types, rank, t, RulesOf(RefTo(name)));
    } else {
      ElementLeads(types, rank, t);
      var fields := Collected(types, rank, t, |types.nodes[t].fields|, Fields([], [])).value;
      StructRules("", fields);
      TypedShape(types, rank, t, RulesOf(StructSchema("", fields)), "object");
    }
  }

  /** Meeting the schema of a type and being one of its values is the same. */
  ghost predicate Agree(types: Types, rank: Rank, cs: seq<Entry>, t: TypeId, j: Json)
    requires Wired(types, rank) && t in types.nodes && ValueSchema(types, rank, t).Some?
  {
    Meets(cs, Object(ValueSchema(types, rank, t).value), j) <==> Admits(types, rank, t, j)
  }

  /** Every schema means its type, at whatever depth a reference leads to it. */
  lemma {:induction false} SchemaMeans(
    types: Types, rank: Rank, cs: seq<Entry>, seen: Visited, t: TypeId, j: Json)
    requires Wired(types, rank) && t in types.nodes && ValueSchema(types, rank, t).Some?
    requires Complete(types, rank, cs, seen) && Known(types, rank, seen, t)
    ensures Meets(cs, Object(ValueSchema(types, rank, t).value), j) <==> Admits(types, rank, t, j)
    decreases j, Height(rank, AsValue(t)), 2
  {
    if t == types.timeType || t == types.rawMessageType {
      LeafMeans(types, rank, cs, t, j);
    } else {
      match types.nodes[t]
      case Pointer(e) => PointerMeans(types, rank, cs, seen, t, e, j);
      case Slice(e) => ElementsMean(types, rank, cs, seen, t, e, j);
      case Array(e) => ElementsMean(types, rank, cs, seen, t, e, j);
      case Map(k, e) => ValuesMean(types, rank, cs, seen, t, e, j);
      case Struct(_, _, _, _) => StructMeans(types, rank, cs, seen, t, j);
      case _ => LeafMeans(types, rank, cs, t, j);
    }
  }

  lemma LeafMeans(types: Types, rank: Rank, cs: seq<Entry>, t: TypeId, j: Json)
    requires Wired(types, rank) && t in types.nodes && ValueSchema(types, rank, t).Some?
    requires Special(types, t) || (Children(types.nodes[t]) == [] && !types.nodes[t].Struct?)
    ensures Agree(types, rank, cs, t, j)
  {
    if t == types.timeType {
      TextMeans(cs, "date-time", j);
    } else if t == types.rawMessageType || types.nodes[t].Interface? {
      AnythingMeans(cs, j);
    } else {
      ScalarMeans(cs, types.nodes[t], j);
    }
  }

  lemma AnythingMeans(cs: seq<Entry>, j: Json)
    ensures Meets(cs, Object(Anything()), j)
  {
    AnythingRules();
    NothingDemanded(cs, Anything(), j);
  }

  lemma TextMeans(cs: seq<Entry>, format: string, j: Json)
    ensures Meets(cs, Object(Formatted("string", format)), j) <==> j.Text?
  {
    FormattedRules("string", format);
    TypeMeans(cs, Formatted("string", format), "string", j);
    NamesMean(j);
  }

  lemma ScalarMeans(cs: seq<Entry>, n: Node, j: Json)
    ensures n.Str? ==> (Meets(cs, Object(Scalar(n)), j) <==> j.Text?)
    ensures n.Bool? ==> (Meets(cs, Object(Scalar(n)), j) <==> j.Flag?)
    ensures n.WideInt? || n.NarrowInt? || n.Uint8? ==> (Meets(cs, Object(Scalar(n)), j) <==> j.Integer?)
    ensures n.Float? ==> (Meets(cs, Object(Scalar(n)), j) <==> j.Integer? || j.Decimal?)
  {
    ScalarRules(n);
    TypeMeans(cs, Scalar(n), TypeName(n), j);
    NamesMean(j);
  }

  lemma {:induction false} PointerMeans(
    types: Types, rank: Rank, cs: seq<Entry>, seen: Visited, t: TypeId, e: TypeId, j: Json)
    requires Wired(types, rank) && PointerTo(types, t, e) && ValueSchema(types, rank, t).Some?
    requires Complete(types, rank, cs, seen) && Known(types, rank, seen, t)
    ensures Agree(types, rank, cs, t, j)
    decreases j, Height(rank, AsValue(t)), 0
  {
    ElementLeads(types, rank, t);
    ValueShape(types, rank, e);
    SchemaMeans(types, rank, cs, seen, e, j);
    NullableMeans(cs, ValueSchema(types, rank, e).value, j);
  }

  lemma {:induction false} ElementsMean(
    types: Types, rank: Rank, cs: seq<Entry>, seen: Visited, t: TypeId, e: TypeId, j: Json)
    requires Wired(types, rank) && t in types.nodes && !Special(types, t) && ValueSchema(types, rank, t).Some?
    requires types.nodes[t] == Slice(e) || types.nodes[t] == Array(e)
    requires Complete(types, rank, cs, seen) && Known(types, rank, seen, t)
    ensures Agree(types, rank, cs, t, j)
    decreases j, Height(rank, AsValue(t)), 0
  {
    ElementLeads(types, rank, t);
    if types.nodes[e].Uint8? {
      TextMeans(cs, "byte", j);
    } else {
      ListMeans(cs, ValueSchema(types, rank, e).value, j);
      if j.List? {
        forall i | 0 <= i < |j.items| ensures Agree(types, rank, cs, e, j.items[i]) {
          SchemaMeans(types, rank, cs, seen, e, j.items[i]);
        }
      }
    }
  }

  lemma {:induction false} ValuesMean(
    types: Types, rank: Rank, cs: seq<Entry>, seen: Visited, t: TypeId, e: TypeId, j: Json)
    requires Wired(types, rank) && t in types.nodes && !Special(types, t) && ValueSchema(types, rank, t).Some?
    requires types.nodes[t].Map? && types.nodes[t].elem == e
    requires Complete(types, rank, cs, seen) && Known(types, rank, seen, t)
    ensures Agree(types, rank, cs, t, j)
    decreases j, Height(rank, AsValue(t)), 0
  {
    ElementLeads(types, rank, t);
    MapMeans(cs, ValueSchema(types, rank, e).value, j);
    if j.Object? {
      forall i | 0 <= i < |j.entries| ensures Agree(types, rank, cs, e, j.entries[i].value) {
        SchemaMeans(types, rank, cs, seen, e, j.entries[i].value);
      }
    }
  }

  /** The schema of a field is its type's, and its enum. */
  lemma {:induction false} FieldMeans(
    types: Types, rank: Rank, cs: seq<Entry>, seen: Visited, f: Field, j: Json)
    requires Wired(types, rank) && f.typ in types.nodes && SchemaOf(types, rank, f).Some?
    requires Complete(types, rank, cs, seen) && Known(types, rank, seen, f.typ)
    ensures Meets(cs, Object(SchemaOf(types, rank, f).value), j) <==>
            Admits(types, rank, f.typ, j) && EnumAdmits(f.tag, j)
    decreases j, Height(rank, AsValue(f.typ)), 3
  {
    var es := ValueSchema(types, rank, f.typ).value;
    ValueShape(types, rank, f.typ);
    SchemaMeans(types, rank, cs, seen, f.typ, j);
    DocumentedRules(es, f.doc);
    DocumentedMeans(cs, es, f.doc, j);
    TaggedMeans(cs, Documented(es, f.doc), f.tag, j);
  }

  lemma {:induction false} StructMeans(
    types: Types, rank: Rank, cs: seq<Entry>, seen: Visited, t: TypeId, j: Json)
    requires Wired(types, rank) && t in types.nodes && !Special(types, t) && types.nodes[t].Struct?
    requires ValueSchema(types, rank, t).Some?
    requires Complete(types, rank, cs, seen) && Known(types, rank, seen, t)
    ensures Agree(types, rank, cs, t, j)
    decreases j, Height(rank, AsValue(t)), 1
  {
    var fields := BodyMeans(types, rank, cs, seen, t, j);
    if j.Object? {
      RequiredAreMandatory(types, rank, t, fields, j.entries);
      EntriesMean(types, rank, cs, seen, t, fields, j);
    }
  }

  /** By reference or in place, a struct's schema demands what its fields demand. */
  lemma BodyMeans(types: Types, rank: Rank, cs: seq<Entry>, seen: Visited, t: TypeId, j: Json)
    returns (fields: Fields)
    requires Wired(types, rank) && t in types.nodes && !Special(types, t) && types.nodes[t].Struct?
    requires ValueSchema(types, rank, t).Some?
    requires Complete(types, rank, cs, seen) && Known(types, rank, seen, t)
    ensures Collected(types, rank, t, |types.nodes[t].fields|, Fields([], [])) == Some(fields)
    ensures KnownFields(types, rank, seen, t, |types.nodes[t].fields|)
    ensures Meets(cs, Object(ValueSchema(types, rank, t).value), j) <==>
            && j.Object? && (forall k | k in fields.required :: HasKey(j.entries, k))
            && EntriesMeet(cs, fields.properties, j.entries)
  {
    ElementLeads(types, rank, t);
    var g, name := types.nodes, types.nodes[t].name;
    if name != "" { assert HasComponent(types, rank, cs, seen, t); }
    fields := Collected(types, rank, t, |g[t].fields|, Fields([], [])).value;
    var doc := if name == "" then "" else g[t].doc;
    var body := StructSchema(doc, fields);
    assert ObjectSchema(types, rank, t) == Some(body);
    ObjectMeans(cs, doc, fields, j);
    if name != "" { RefMeans(cs, name, body, j); } else { PlainMeets(cs, body, j); }
  }

  /** Every entry under the name of a field is a value of that field. */
  ghost predicate EntriesAdmitted(types: Types, rank: Rank, t: TypeId, es: seq<Entry>)
    requires Wired(types, rank)
  {
    forall p, f, i | Route(types.nodes, t, p, f) && 0 <= i < |es| && es[i].key == JsonName(f) ::
      Admits(types, rank, f.typ, es[i].value) && EnumAdmits(f.tag, es[i].value)
  }

  lemma {:induction false} EntriesMean(
    types: Types, rank: Rank, cs: seq<Entry>, seen: Visited, t: TypeId, fields: Fields, j: Json)
    requires Wired(types, rank) && t in types.nodes && types.nodes[t].Struct? && j.Object?
    requires Collected(types, rank, t, |types.nodes[t].fields|, Fields([], [])) == Some(fields)
    requires Complete(types, rank, cs, seen)
    requires KnownFields(types, rank, seen, t, |types.nodes[t].fields|)
    ensures EntriesMeet(cs, fields.properties, j.entries) <==> EntriesAdmitted(types, rank, t, j.entries)
    decreases j, 0, 0
  {
    var es := j.entries;
    if EntriesAdmitted(types, rank, t, es) {
      forall i | 0 <= i < |es| && HasKey(fields.properties, es[i].key)
        ensures Meets(cs, Get(fields.properties, es[i].key).value, es[i].value)
      {
        var p, f := RouteTo(types, rank, t, fields, es[i].key);
        EntryMeans(types, rank, cs, seen, t, fields, p, f, es[i].value);
      }
    }
    if EntriesMeet(cs, fields.properties, es) {
      forall p, f, i | Route(types.nodes, t, p, f) && 0 <= i < |es| && es[i].key == JsonName(f)
        ensures Admits(types, rank, f.typ, es[i].value) && EnumAdmits(f.tag, es[i].value)
      {
        EntryMeans(types, rank, cs, seen, t, fields, p, f, es[i].value);
      }
    }
  }

  lemma {:induction false} EntryMeans(
    types: Types, rank: Rank, cs: seq<Entry>, seen: Visited, t: TypeId, fields: Fields,
    p: Way, f: Field, j: Json)
    requires Wired(types, rank) && t in types.nodes && types.nodes[t].Struct?
    requires Collected(types, rank, t, |types.nodes[t].fields|, Fields([], [])) == Some(fields)
    requires Complete(types, rank, cs, seen)
    requires KnownFields(types, rank, seen, t, |types.nodes[t].fields|) && Route(types.nodes, t, p, f)
    ensures HasKey(fields.properties, JsonName(f))
    ensures Meets(cs, Get(fields.properties, JsonName(f)).value, j) <==>
            Admits(types, rank, f.typ, j) && EnumAdmits(f.tag, j)
    decreases j, Height(rank, AsValue(f.typ)), 4
  {
    var n := |types.nodes[t].fields|;
    CollectedSchemas(types, rank, t, n, Fields([], []), p, f);
    RouteKnown(types, rank, seen, t, p, f);
    FieldMeans(types, rank, cs, seen, f, j);
  }

  lemma RouteTo(types: Types, rank: Rank, t: TypeId, fields: Fields, k: string) returns (p: Way, f: Field)
    requires Wired(types, rank) && t in types.nodes && types.nodes[t].Struct?
    requires Collected(types, rank, t, |types.nodes[t].fields|, Fields([], [])) == Some(fields)
    requires HasKey(fields.properties, k)
    ensures Route(types.nodes, t, p, f) && JsonName(f) == k
  {
    var n := |types.nodes[t].fields|;
    CollectedMeans(types, rank, t, n, Fields([], []), k);
    p, f :| AddsBy(types.nodes, t, n, k, false, p, f);
  }

  lemma RequiredAreMandatory(types: Types, rank: Rank, t: TypeId, fields: Fields, es: seq<Entry>)
    requires Wired(types, rank) && t in types.nodes && types.nodes[t].Struct?
    requires Collected(types, rank, t, |types.nodes[t].fields|, Fields([], [])) == Some(fields)
    ensures (forall k | k in fields.required :: HasKey(es, k)) <==> MandatoryPresent(types.nodes, t, es)
  {
    var g, n := types.nodes, |types.nodes[t].fields|;
    forall p, f | Route(g, t, p, f) && !f.optional ensures JsonName(f) in fields.required {
      CollectedMeans(types, rank, t, n, Fields([], []), JsonName(f));
      assert AddsBy(g, t, n, JsonName(f), true, p, f);
    }
    if MandatoryPresent(g, t, es) {
      forall k | k in fields.required ensures HasKey(es, k) {
        CollectedMeans(types, rank, t, n, Fields([], []), k);
        var p, f :| AddsBy(g, t, n, k, true, p, f);
      }
    }
  }
}
