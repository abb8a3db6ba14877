/**
 What each shape of schema demands: references, pointers, lists, maps, objects, descriptions
 and tags, one at a time.
 */
module SchemaShapes {
  import opened Prelude
  import opened OrderedMaps
  import opened TypeGraph
  import opened SchemaRecursion
  import opened SchemaSpec
  import opened SchemaFields
  import opened SchemaMeaning

  // ---- Schemas as rules ----

  /** The values of the keywords that demand something. */
  datatype Rules = Rules(
    typ: Option<Json>, enum: Option<Json>, required: Option<Json>, properties: Option<Json>,
    additional: Option<Json>, items: Option<Json>, ref: Option<Json>, any: Option<Json>, all: Option<Json>)

  const NO_RULES := Rules(None, None, None, None, None, None, None, None, None)

  /** The rules of a schema; of two entries with one key the first counts. */
  function RulesOf(es: seq<Entry>): Rules {
    if es == [] then NO_RULES else Ruled(RulesOf(es[1..]), es[0].key, es[0].value)
  }

  /** With these rules and one more. */
  function Ruled(r: Rules, k: string, v: Json): Rules {
    Rules(Either(k, "type", v, r.typ), Either(k, "enum", v, r.enum), Either(k, "required", v, r.required),
          Either(k, "properties", v, r.properties), Either(k, "additionalProperties", v, r.additional),
          Either(k, "items", v, r.items), Either(k, "$ref", v, r.ref), Either(k, "anyOf", v, r.any),
          Either(k, "allOf", v, r.all))
  }

  function Either(k: string, keyword: string, v: Json, was: Option<Json>): Option<Json> {
    if k == keyword then Some(v) else was
  }

  /** The rules a lookup finds. */
  function Found(get: string -> Option<Json>): Rules {
    Rules(get("type"), get("enum"), get("required"), get("properties"), get("additionalProperties"),
          get("items"), get("$ref"), get("anyOf"), get("allOf"))
  }

  lemma FoundAfter(get: string -> Option<Json>, k: string, v: Json, after: string -> Option<Json>)
    requires forall x :: after(x) == Either(k, x, v, get(x))
    ensures Found(after) == Ruled(Found(get), k, v)
  {
  }

  lemma {:induction false} RulesAreFound(es: seq<Entry>)
    ensures RulesOf(es) == Found((x: string) => Get(es, x))
  {
    if es != [] {
      RulesAreFound(es[1..]);
      FoundFirst(es);
    }
  }

  lemma FoundFirst(es: seq<Entry>)
    requires es != []
    ensures Found((x: string) => Get(es, x)) == Ruled(Found((x: string) => Get(es[1..], x)), es[0].key, es[0].value)
  {
    var rest, e := es[1..], es[0];
    assert es == [e] + rest;
    forall x ensures Get(es, x) == Either(e.key, x, e.value, Get(rest, x)) { GetFirst(e.key, e.value, rest, x); }
    FoundAfter((x: string) => Get(rest, x), e.key, e.value, (x: string) => Get(es, x));
  }

  lemma GetFirst(k: string, v: Json, es: seq<Entry>, x: string)
    ensures Get([Entry(k, v)] + es, x) == if x == k then Some(v) else Get(es, x)
  {
    assert ([Entry(k, v)] + es)[1..] == es;
  }

  lemma RuledBySet(es: seq<Entry>, k: string, v: Json)
    ensures RulesOf(Set(es, k, v)) == Ruled(RulesOf(es), k, v)
  {
    var after := Set(es, k, v);
    RulesAreFound(es);
    RulesAreFound(after);
    forall x ensures Get(after, x) == Either(k, x, v, Get(es, x)) { GetSet(es, k, v, x); }
    FoundAfter((x: string) => Get(es, x), k, v, (x: string) => Get(after, x));
  }

  lemma RuledByFirst(k: string, v: Json, es: seq<Entry>)
    ensures RulesOf([Entry(k, v)] + es) == Ruled(RulesOf(es), k, v)
  {
    assert ([Entry(k, v)] + es)[1..] == es;
  }

  lemma RulesOfOne(k: string, v: Json)
    ensures RulesOf([Entry(k, v)]) == Ruled(NO_RULES, k, v)
  {
    assert [Entry(k, v)][1..] == [];
  }

  lemma RulesOfTwo(k: string, v: Json, l: string, w: Json)
    ensures RulesOf([Entry(k, v), Entry(l, w)]) == Ruled(Ruled(NO_RULES, l, w), k, v)
  {
    assert [Entry(k, v), Entry(l, w)][1..] == [Entry(l, w)];
    RulesOfOne(l, w);
  }

  // ---- Meeting a schema is meeting its rules ----

  predicate RulesCheck(cs: seq<Entry>, r: Rules, j: Json) {
    && (r.typ.Some? ==> TypeAdmits(r.typ.value, j))
    && (r.enum.Some? ==> r.enum.value.List? && j in r.enum.value.items)
    && (r.required.Some? ==> HasAll(r.required.value, j))
    && (r.properties.Some? && j.Object? ==>
          r.properties.value.Object? && EntriesMeet(cs, r.properties.value.entries, j.entries))
    && (r.additional.Some? && j.Object? ==> OthersMeet(cs, r.properties, r.additional.value, j.entries))
    && (r.items.Some? && j.List? ==> forall i | 0 <= i < |j.items| :: Meets(cs, r.items.value, j.items[i]))
  }

  /** Every entry with a property of its name meets the property's schema. */
  predicate EntriesMeet(cs: seq<Entry>, properties: seq<Entry>, es: seq<Entry>) {
    forall i | 0 <= i < |es| && HasKey(properties, es[i].key) ::
      Meets(cs, Get(properties, es[i].key).value, es[i].value)
  }

  /** And every other entry meets the schema for the rest. */
  predicate OthersMeet(cs: seq<Entry>, properties: Option<Json>, rest: Json, es: seq<Entry>) {
    forall i | 0 <= i < |es| && !(properties.Some? && properties.value.Object?
                                  && HasKey(properties.value.entries, es[i].key)) :: Meets(cs, rest, es[i].value)
  }

  predicate RulesMet(cs: seq<Entry>, r: Rules, j: Json) {
    if r.ref.Some? then
      var body := Resolve(cs, r.ref.value);
      body.Some? && NoCombination(RulesOf(body.value)) && RulesCheck(cs, RulesOf(body.value), j)
    else
      && RulesCheck(cs, r, j)
      && (r.any.Some? ==> r.any.value.List? && exists i :: 0 <= i < |r.any.value.items|
                                                            && Meets(cs, r.any.value.items[i], j))
      && (r.all.Some? ==> r.all.value.List? && forall i | 0 <= i < |r.all.value.items| ::
                                                  Meets(cs, r.all.value.items[i], j))
  }

  predicate NoCombination(r: Rules) {
    r.ref.None? && r.any.None? && r.all.None?
  }

  lemma ChecksAreRules(cs: seq<Entry>, es: seq<Entry>, j: Json)
    ensures Checks(cs, es, j) <==> RulesCheck(cs, RulesOf(es), j)
    ensures Plain(es) <==> NoCombination(RulesOf(es))
  {
    RulesAreFound(es);
  }

  lemma MeetsIsRulesMet(cs: seq<Entry>, es: seq<Entry>, j: Json)
    ensures Meets(cs, Object(es), j) <==> RulesMet(cs, RulesOf(es), j)
  {
    if Get(es, "$ref").Some? { ReferenceIsRulesMet(cs, es, j); } else { CombinationIsRulesMet(cs, es, j); }
  }

  lemma ReferenceIsRulesMet(cs: seq<Entry>, es: seq<Entry>, j: Json)
    requires Get(es, "$ref").Some?
    ensures Meets(cs, Object(es), j) <==> RulesMet(cs, RulesOf(es), j)
  {
    RulesAreFound(es);
    var body := Resolve(cs, Get(es, "$ref").value);
    if body.Some? { ChecksAreRules(cs, body.value, j); }
  }

  lemma CombinationIsRulesMet(cs: seq<Entry>, es: seq<Entry>, j: Json)
    requires Get(es, "$ref").None?
    ensures Meets(cs, Object(es), j) <==> RulesMet(cs, RulesOf(es), j)
  {
    ChecksAreRules(cs, es, j);
    RulesAreFound(es);
  }

  // ---- The meaning of each shape ----

  lemma TypedRules(typ: string)
    ensures RulesOf(Typed(typ)) == NO_RULES.(typ := Some(Text(typ)))
  {
    RulesOfOne("type", Text(typ));
  }

  lemma FormattedRules(typ: string, format: string)
    ensures RulesOf(Formatted(typ, format)) == NO_RULES.(typ := Some(Text(typ)))
  {
    RulesOfTwo("type", Text(typ), "format", Text(format));
  }

  lemma AnythingRules()
    ensures RulesOf(Anything()) == NO_RULES
  {
    RulesOfOne("description", Text("Arbitrary JSON value."));
  }

  lemma ItemsRules(typ: string, inner: seq<Entry>)
    ensures RulesOf(Around(typ, "items", inner)) == NO_RULES.(typ := Some(Text(typ)), items := Some(Object(inner)))
  {
    RulesOfTwo("type", Text(typ), "items", Object(inner));
  }

  lemma ValuesRules(typ: string, inner: seq<Entry>)
    ensures RulesOf(Around(typ, "additionalProperties", inner))
              == NO_RULES.(typ := Some(Text(typ)), additional := Some(Object(inner)))
  {
    RulesOfTwo("type", Text(typ), "additionalProperties", Object(inner));
  }

  lemma RefRules(name: string)
    ensures RulesOf(RefTo(name)) == NO_RULES.(ref := Some(RefText(name)))
  {
    RulesOfOne("$ref", RefText(name));
  }

  lemma NullableRules(es: seq<Entry>)
    ensures RulesOf(Nullable(es)) ==
            var r := RulesOf(es);
            if r.ref.Some? then NO_RULES.(any := Some(List([Object(es), Object(Typed("null"))])))
            else if r.typ.Some? then r.(typ := Some(List([r.typ.value, Text("null")])))
            else r
  {
    RulesAreFound(es);
    if Get(es, "$ref").Some? {
      RulesOfOne("anyOf", List([Object(es), Object(Typed("null"))]));
    } else if Get(es, "type").Some? {
      RuledBySet(es, "type", List([Get(es, "type").value, Text("null")]));
    }
  }

  /** Nothing in the schema could contradict a widened type. */
  predicate Simple(r: Rules) {
    r.enum.None? && (r.typ.Some? ==> r.ref.None? && r.any.None? && r.all.None?)
  }

  lemma OnlyNull(cs: seq<Entry>, j: Json)
    ensures Meets(cs, Object(Typed("null")), j) <==> j.Null?
  {
    TypedRules("null");
    TypeMeans(cs, Typed("null"), "null", j);
    NamesMean(j);
  }

  lemma AnyOfTwo(cs: seq<Entry>, r: Rules, a: Json, b: Json, j: Json)
    requires r == NO_RULES.(any := Some(List([a, b])))
    ensures RulesMet(cs, r, j) <==> Meets(cs, a, j) || Meets(cs, b, j)
  {
    assert r.any.value.items[0] == a && r.any.value.items[1] == b;
  }

  lemma NullableMeans(cs: seq<Entry>, es: seq<Entry>, j: Json)
    requires Simple(RulesOf(es))
    ensures var r := RulesOf(es);
            && (r.ref.Some? ==> (Meets(cs, Object(Nullable(es)), j) <==> j.Null? || Meets(cs, Object(es), j)))
            && (r.ref.None? && r.typ.None? ==> Nullable(es) == es)
            && (r.typ.Some? && r.typ.value.Text? ==>
                  (Meets(cs, Object(Nullable(es)), j) <==> j.Null? || Meets(cs, Object(es), j)))
            && (r.typ.Some? && r.typ.value.List? ==> (Meets(cs, Object(Nullable(es)), j) <==> j.Null?))
  {
    var r, r' := RulesOf(es), RulesOf(Nullable(es));
    NullableRules(es);
    MeetsIsRulesMet(cs, es, j);
    MeetsIsRulesMet(cs, Nullable(es), j);
    if r.ref.Some? {
      AnyOfTwo(cs, r', Object(es), Object(Typed("null")), j);
      OnlyNull(cs, j);
    } else if r.typ.Some? {
      WidenedMeans(cs, r, r', j);
    } else {
      RulesAreFound(es);
    }
  }

  lemma WidenedMeans(cs: seq<Entry>, r: Rules, r': Rules, j: Json)
    requires Simple(r) && r.typ.Some? && r' == r.(typ := Some(List([r.typ.value, Text("null")])))
    ensures r.typ.value.Text? ==> (RulesMet(cs, r', j) <==> j.Null? || RulesMet(cs, r, j))
    ensures r.typ.value.List? ==> (RulesMet(cs, r', j) <==> j.Null?)
  {
    var typ, names := r.typ.value, [r.typ.value, Text("null")];
    NamesMean(j);
    assert names[1] == Text("null") && names[0] == typ;
    assert TypeAdmits(List(names), j) <==> j.Null? || (typ.Text? && NameAdmits(typ.s, j));
  }

  // ---- Descriptions and tags ----

  lemma GetLast(es: seq<Entry>, e: Entry, x: string)
    ensures Get(es + [e], x) == if HasKey(es, x) then Get(es, x) else if e.key == x then Some(e.value) else None
  {
    var all := es + [e];
    var n := IndexOf(all, x);
    assert n < |es| ==> es[n].key == x;
    assert IndexOf(es, x) < |es| ==> all[IndexOf(es, x)].key == x;
    assert all[|es|] == e;
  }

  lemma {:induction false} GetWithout(es: seq<Entry>, k: string, x: string)
    ensures Get(Without(es, k), x) == if x == k then None else Get(es, x)
  {
    if es != [] {
      var n := |es| - 1;
      assert es == es[..n] + [es[n]];
      GetWithout(es[..n], k, x);
      GetLast(es[..n], es[n], x);
      GetLast(Without(es[..n], k), es[n], x);
    }
  }

  lemma DocumentedRules(es: seq<Entry>, doc: string)
    ensures RulesOf(Documented(es, doc)) == if doc != "" && RulesOf(es).ref.Some?
                                            then NO_RULES.(all := Some(List([Object(es)]))) else RulesOf(es)
  {
    RulesAreFound(es);
    if doc != "" && Get(es, "$ref").Some? {
      RulesOfTwo("description", Text(doc), "allOf", List([Object(es)]));
    } else {
      var rest := Without(es, "description");
      WithoutRules(es);
      RuledByFirst("description", Text(doc), rest);
    }
  }

  lemma WithoutRules(es: seq<Entry>)
    ensures RulesOf(Without(es, "description")) == RulesOf(es)
  {
    var rest := Without(es, "description");
    RulesAreFound(es);
    RulesAreFound(rest);
    forall x | x != "description" ensures Get(rest, x) == Get(es, x) { GetWithout(es, "description", x); }
    FoundSame((x: string) => Get(es, x), (x: string) => Get(rest, x));
  }

  lemma FoundSame(a: string -> Option<Json>, b: string -> Option<Json>)
    requires forall x | x != "description" :: a(x) == b(x)
    ensures Found(a) == Found(b)
  {
  }

  /** A description demands nothing. */
  lemma DocumentedMeans(cs: seq<Entry>, es: seq<Entry>, doc: string, j: Json)
    ensures Meets(cs, Object(Documented(es, doc)), j) <==> Meets(cs, Object(es), j)
  {
    DocumentedRules(es, doc);
    var r := RulesOf(Documented(es, doc));
    MeetsIsRulesMet(cs, es, j);
    MeetsIsRulesMet(cs, Documented(es, doc), j);
    if doc != "" && RulesOf(es).ref.Some? {
      assert r.all.value.items[0] == Object(es);
    }
  }

  /** Only an enum directive adds a demand. */
  lemma DirectiveRule(r: Rules, d: Directive)
    requires DirectiveEntry(d).Some?
    ensures var e := DirectiveEntry(d).value;
            Ruled(r, e.key, e.value) == if d.Enum? then r.(enum := Some(Texts(d.vs))) else r
  {
  }

  /** The last enum among the directives. */
  function LastEnum(ds: seq<Directive>): Option<seq<string>> {
    if ds == [] then None
    else if ds[|ds| - 1].Enum? then Some(ds[|ds| - 1].vs)
    else LastEnum(ds[..|ds| - 1])
  }

  lemma {:induction false} DirectedRules(es: seq<Entry>, ds: seq<Directive>)
    requires Directed(es, ds).Some?
    ensures RulesOf(Directed(es, ds).value) ==
            if LastEnum(ds).Some? then RulesOf(es).(enum := Some(Texts(LastEnum(ds).value))) else RulesOf(es)
  {
    if ds != [] {
      var front, last := ds[..|ds| - 1], ds[|ds| - 1];
      DirectedRules(es, front);
      var before, e := Directed(es, front).value, DirectiveEntry(last).value;
      RuledBySet(before, e.key, e.value);
      DirectiveRule(RulesOf(before), last);
    }
  }

  lemma {:induction false} LastEnumAt(ds: seq<Directive>) returns (n: int)
    ensures -1 <= n < |ds| && forall k | n < k < |ds| :: !ds[k].Enum?
    ensures n >= 0 ==> ds[n].Enum?
    ensures LastEnum(ds) == if n < 0 then None else Some(ds[n].vs)
  {
    n := |ds| - 1;
    if n >= 0 && !ds[n].Enum? {
      var front := ds[..n];
      n := LastEnumAt(front);
      assert forall k | n < k < |front| :: ds[k] == front[k];
    }
  }

  lemma LastEnumIsTheLast(ds: seq<Directive>, j: Json)
    ensures EnumAdmits(Some(ds), j) <==> (LastEnum(ds).Some? ==> j.Text? && j.s in LastEnum(ds).value)
  {
    var n := LastEnumAt(ds);
  }

  lemma TextsHold(ss: seq<string>, j: Json)
    ensures Texts(ss).List? && (j in Texts(ss).items <==> j.Text? && j.s in ss)
  {
    var items := Texts(ss).items;
    if j.Text? && j.s in ss {
      var i :| 0 <= i < |ss| && ss[i] == j.s;
      assert items[i] == j;
    }
  }

  lemma EnumMeans(cs: seq<Entry>, es: seq<Entry>, r: seq<Entry>, vs: seq<string>, j: Json)
    requires RulesOf(es).enum.None? && RulesOf(es).ref.None?
    requires RulesOf(r) == RulesOf(es).(enum := Some(Texts(vs)))
    ensures Meets(cs, Object(r), j) <==> Meets(cs, Object(es), j) && j.Text? && j.s in vs
  {
    MeetsIsRulesMet(cs, es, j);
    MeetsIsRulesMet(cs, r, j);
    TextsHold(vs, j);
  }

  lemma TaggedMeans(cs: seq<Entry>, es: seq<Entry>, tag: Option<seq<Directive>>, j: Json)
    requires RulesOf(es).enum.None? && Tagged(es, tag).Some?
    ensures Meets(cs, Object(Tagged(es, tag).value), j) <==> Meets(cs, Object(es), j) && EnumAdmits(tag, j)
  {
    if tag.Some? {
      var r, ds := Tagged(es, tag).value, tag.value;
      RulesAreFound(es);
      DirectedRules(es, ds);
      LastEnumIsTheLast(ds, j);
      if LastEnum(ds).Some? {
        EnumMeans(cs, es, r, LastEnum(ds).value, j);
      } else {
        MeetsIsRulesMet(cs, es, j);
        MeetsIsRulesMet(cs, r, j);
      }
    }
  }

  // ---- Objects ----

  lemma StructRules(doc: string, fields: Fields)
    ensures RulesOf(StructSchema(doc, fields)) ==
            NO_RULES.(typ := Some(Text("object")), properties := Some(Object(fields.properties)),
                      required := if fields.required == [] then None else Some(Texts(fields.required)))
  {
    var last := if fields.required == [] then [] else [Entry("required", Texts(fields.required))];
    if fields.required != [] { RulesOfOne("required", Texts(fields.required)); }
    BodyRules(doc, Object(fields.properties), last);
  }

  lemma BodyRules(doc: string, props: Json, last: seq<Entry>)
    ensures RulesOf((if doc == "" then [] else [Entry("description", Text(doc))])
                    + [Entry("type", Text("object")), Entry("properties", props)] + last)
              == RulesOf(last).(typ := Some(Text("object")), properties := Some(props))
  {
    var two := [Entry("properties", props)] + last;
    var three := [Entry("type", Text("object"))] + two;
    var whole := (if doc == "" then [] else [Entry("description", Text(doc))])
                 + [Entry("type", Text("object")), Entry("properties", props)] + last;
    RuledByFirst("properties", props, last);
    RuledByFirst("type", Text("object"), two);
    if doc == "" {
      assert whole == three;
    } else {
      assert whole == [Entry("description", Text(doc))] + three;
      RuledByFirst("description", Text(doc), three);
    }
  }

  lemma RequiredMeans(ss: seq<string>, es: seq<Entry>)
    ensures HasAll(Texts(ss), Object(es)) <==> forall k | k in ss :: HasKey(es, k)
  {
    var items := Texts(ss).items;
    if HasAll(Texts(ss), Object(es)) {
      forall k | k in ss ensures HasKey(es, k) {
        var i :| 0 <= i < |ss| && ss[i] == k;
        assert items[i].s == k;
      }
    }
  }

  lemma ObjectMeans(cs: seq<Entry>, doc: string, fields: Fields, j: Json)
    ensures Plain(StructSchema(doc, fields))
    ensures Checks(cs, StructSchema(doc, fields), j) <==>
            && j.Object? && (forall k | k in fields.required :: HasKey(j.entries, k))
            && EntriesMeet(cs, fields.properties, j.entries)
  {
    StructRules(doc, fields);
    ChecksAreRules(cs, StructSchema(doc, fields), j);
    if j.Object? { RequiredMeans(fields.required, j.entries); }
    NamesMean(j);
  }

  lemma PlainMeets(cs: seq<Entry>, es: seq<Entry>, j: Json)
    requires Plain(es)
    ensures Meets(cs, Object(es), j) <==> Checks(cs, es, j)
  {
  }

  // ---- Lists, maps, references and scalars ----

  function TypeName(n: Node): string {
    match n
    case Str => "string"
    case Bool => "boolean"
    case WideInt => "integer"
    case NarrowInt => "integer"
    case Uint8 => "integer"
    case _ => "number"
  }

  lemma NamesMean(j: Json)
    ensures NameAdmits("null", j) <==> j.Null?
    ensures NameAdmits("boolean", j) <==> j.Flag?
    ensures NameAdmits("integer", j) <==> j.Integer?
    ensures NameAdmits("number", j) <==> j.Integer? || j.Decimal?
    ensures NameAdmits("string", j) <==> j.Text?
    ensures NameAdmits("array", j) <==> j.List?
    ensures NameAdmits("object", j) <==> j.Object?
  {
  }

  lemma ScalarRules(n: Node)
    ensures RulesOf(Scalar(n)) == NO_RULES.(typ := Some(Text(TypeName(n))))
  {
    if n.WideInt? { FormattedRules("integer", "int64"); } else { TypedRules(TypeName(n)); }
  }

  lemma TypeMeans(cs: seq<Entry>, es: seq<Entry>, name: string, j: Json)
    requires RulesOf(es) == NO_RULES.(typ := Some(Text(name)))
    ensures Meets(cs, Object(es), j) <==> NameAdmits(name, j)
  {
    MeetsIsRulesMet(cs, es, j);
  }

  lemma NothingDemanded(cs: seq<Entry>, es: seq<Entry>, j: Json)
    requires RulesOf(es) == NO_RULES
    ensures Meets(cs, Object(es), j)
  {
    MeetsIsRulesMet(cs, es, j);
  }

  lemma ListMeans(cs: seq<Entry>, inner: seq<Entry>, j: Json)
    ensures Meets(cs, Object(Around("array", "items", inner)), j) <==>
            j.List? && forall i | 0 <= i < |j.items| :: Meets(cs, Object(inner), j.items[i])
  {
    ItemsRules("array", inner);
    MeetsIsRulesMet(cs, Around("array", "items", inner), j);
    NamesMean(j);
  }

  lemma MapMeans(cs: seq<Entry>, inner: seq<Entry>, j: Json)
    ensures Meets(cs, Object(Around("object", "additionalProperties", inner)), j) <==>
            j.Object? && forall i | 0 <= i < |j.entries| :: Meets(cs, Object(inner), j.entries[i].value)
  {
    ValuesRules("object", inner);
    MeetsIsRulesMet(cs, Around("object", "additionalProperties", inner), j);
    NamesMean(j);
  }

  lemma RefMeans(cs: seq<Entry>, name: string, body: seq<Entry>, j: Json)
    requires Get(cs, name) == Some(Object(body)) && Plain(body)
    ensures Meets(cs, Object(RefTo(name)), j) <==> Checks(cs, body, j)
  {
    RefRules(name);
    MeetsIsRulesMet(cs, RefTo(name), j);
    ChecksAreRules(cs, body, j);
    var ref := RefText(name);
    assert COMPONENTS <= ref.s && ref.s[|COMPONENTS|..] == name;
    assert Resolve(cs, ref) == Some(body);
  }
}
