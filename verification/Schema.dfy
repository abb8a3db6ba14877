/**
 The schema generator: named structs become components referred to by $ref, everything else
 is written in place. What every successful run leaves behind.
 */
module Schema {
  import opened Prelude
  import opened OrderedMaps
  import opened TypeGraph
  import opened SchemaRecursion
  import opened SchemaSpec
  import opened SchemaFields
  import opened SchemaMeaning
  import opened SchemaTruth

  // ---- Sound documents ----

  /** A text under the key "$ref" names one of `names`. */
  predicate RefOk(v: Json, names: set<string>) {
    v.Text? ==> exists n :: n in names && v == RefText(n)
  }

  /** No object has a key twice, and every $ref names one of `names`. */
  predicate Good(j: Json, names: set<string>) {
    match j
    case List(items) => forall i | 0 <= i < |items| :: Good(items[i], names)
    case Object(es) =>
      && Distinct(es)
      && (forall i | 0 <= i < |es| :: Good(es[i].value, names))
      && (forall i | 0 <= i < |es| && es[i].key == "$ref" :: RefOk(es[i].value, names))
    case _ => true
  }

  lemma {:induction false} GoodGrows(j: Json, names: set<string>, more: set<string>)
    requires Good(j, names) && names <= more
    ensures Good(j, more)
  {
    match j
    case List(items) =>
      forall i | 0 <= i < |items| ensures Good(items[i], more) { GoodGrows(items[i], names, more); }
    case Object(es) =>
      forall i | 0 <= i < |es| ensures Good(es[i].value, more) { GoodGrows(es[i].value, names, more); }
    case _ =>
  }

  lemma SetGood(es: seq<Entry>, k: string, v: Json, names: set<string>)
    requires Good(Object(es), names) && Good(v, names) && (k == "$ref" ==> RefOk(v, names))
    ensures Good(Object(Set(es, k, v)), names)
  {
    SetKeepsDistinct(es, k, v);
    var after := Set(es, k, v);
    forall i | 0 <= i < |after|
      ensures Good(after[i].value, names) && (after[i].key == "$ref" ==> RefOk(after[i].value, names))
    {
      assert after[i] == Entry(k, v) || (i < |es| && after[i] == es[i]);
    }
  }

  lemma GetGood(es: seq<Entry>, k: string, names: set<string>)
    requires Good(Object(es), names) && Get(es, k).Some?
    ensures Good(Get(es, k).value, names)
  {
  }

  // ---- Every shape is sound ----

  lemma RefToGood(name: string, names: set<string>)
    requires name in names
    ensures Good(Object(RefTo(name)), names)
  {
    assert Good(RefText(name), names);
  }

  lemma TypedGood(typ: string, names: set<string>)
    ensures Good(Object(Typed(typ)), names)
  {
    assert Good(Text(typ), names);
  }

  lemma LeavesGood(typ: string, format: string, names: set<string>)
    ensures Good(Object(Typed(typ)), names) && Good(Object(Formatted(typ, format)), names)
    ensures Good(Object(Anything()), names)
  {
    assert forall s :: Good(Text(s), names);
  }

  lemma AroundGood(typ: string, key: string, inner: seq<Entry>, names: set<string>)
    requires Good(Object(inner), names) && key != "type" && key != "$ref"
    ensures Good(Object(Around(typ, key, inner)), names)
  {
    assert Good(Text(typ), names);
  }

  lemma NullableGood(es: seq<Entry>, names: set<string>)
    requires Good(Object(es), names)
    ensures Good(Object(Nullable(es)), names)
  {
    var no := Text("null");
    assert Good(no, names);
    if Get(es, "$ref").Some? {
      TypedGood("null", names);
      assert Good(List([Object(es), Object(Typed("null"))]), names);
    } else if Get(es, "type").Some? {
      GetGood(es, "type", names);
      SetGood(es, "type", List([Get(es, "type").value, no]), names);
    }
  }

  // ---- The generator's state ----

  datatype State = State(
    schemas: seq<Entry>, names: map<TypeId, string>, byName: map<string, TypeId>,
    undocumented: seq<string>, undocSeen: set<string>)

  /** Component names and types correspond one to one. */
  ghost predicate NamesOk(g: map<TypeId, Node>, st: State) {
    && (forall t | t in st.names ::
          && t in g && g[t].Struct? && g[t].name == st.names[t] != ""
          && st.names[t] in st.byName && st.byName[st.names[t]] == t)
    && (forall n | n in st.byName :: st.byName[n] in st.names && st.names[st.byName[n]] == n)
  }

  /** Every name has its slot, empty exactly while its type is being generated. */
  ghost predicate SlotsOk(st: State, open: set<TypeId>) {
    && Distinct(st.schemas) && open <= st.names.Keys
    && (forall n :: HasKey(st.schemas, n) <==> n in st.byName)
    && (forall n {:trigger SlotOk(st, open, n)} | n in st.byName :: SlotOk(st, open, n))
  }

  predicate SlotOk(st: State, open: set<TypeId>, n: string)
    requires n in st.byName
  {
    var v := Get(st.schemas, n);
    v.Some? && (if st.byName[n] in open then v.value == Null else v.value.Object? && Good(v.value, st.byName.Keys))
  }

  ghost predicate ListOk(st: State) {
    && (forall i, j | 0 <= i < j < |st.undocumented| :: st.undocumented[i] != st.undocumented[j])
    && (forall k :: k in st.undocumented <==> k in st.undocSeen)
  }

  /** The key belongs to a serialized field without documentation, declared by a named struct. */
  ghost predicate Undocumented(g: map<TypeId, Node>, k: string) {
    exists t, i :: t in g && g[t].Struct? && g[t].name != "" && 0 <= i < |g[t].fields| && UndocumentedAt(g, t, i, k)
  }

  ghost predicate UndocumentedAt(g: map<TypeId, Node>, t: TypeId, i: nat, k: string)
    requires t in g && g[t].Struct? && i < |g[t].fields|
  {
    Direct(g, g[t].fields[i]) && g[t].fields[i].doc == "" && k == DocKey(g[t], g[t].fields[i])
  }

  function SeenBy(st: State): Visited {
    Visited(st.names.Keys, st.undocSeen)
  }

  ghost predicate Inv(g: map<TypeId, Node>, st: State, open: set<TypeId>) {
    NamesOk(g, st) && SlotsOk(st, open) && ListOk(st) && forall k | k in st.undocSeen :: Undocumented(g, k)
  }

  predicate Extends(st: State, st': State) {
    && (forall t | t in st.names :: t in st'.names && st'.names[t] == st.names[t])
    && st.byName.Keys <= st'.byName.Keys && st.undocSeen <= st'.undocSeen
  }

  function Reserve(st: State, t: TypeId, name: string): State {
    st.(names := st.names[t := name], byName := st.byName[name := t], schemas := Set(st.schemas, name, Null))
  }

  function Fill(st: State, name: string, schema: seq<Entry>): State {
    st.(schemas := Set(st.schemas, name, Object(schema)))
  }

  lemma SlotGrows(st: State, st': State, open: set<TypeId>, open': set<TypeId>, n: string)
    requires n in st.byName && n in st'.byName && SlotOk(st, open, n)
    requires st'.byName[n] == st.byName[n] && st.byName.Keys <= st'.byName.Keys
    requires Get(st'.schemas, n) == Get(st.schemas, n) && (st.byName[n] in open <==> st.byName[n] in open')
    ensures SlotOk(st', open', n)
  {
    if st.byName[n] !in open {
      GoodGrows(Get(st.schemas, n).value, st.byName.Keys, st'.byName.Keys);
    }
  }

  lemma ReserveKeepsSlots(st: State, open: set<TypeId>, t: TypeId, name: string)
    requires SlotsOk(st, open) && t !in st.names && name !in st.byName
    requires forall n | n in st.byName :: st.byName[n] in st.names
    ensures SlotsOk(Reserve(st, t, name), open + {t})
  {
    var st' := Reserve(st, t, name);
    SetKeepsDistinct(st.schemas, name, Null);
    forall n ensures HasKey(st'.schemas, n) <==> n in st'.byName { GetSet(st.schemas, name, Null, n); }
    forall n | n in st'.byName ensures SlotOk(st', open + {t}, n) {
      GetSet(st.schemas, name, Null, n);
      if n != name { SlotGrows(st, st', open, open + {t}, n); }
    }
  }

  lemma ReserveKeepsNames(g: map<TypeId, Node>, st: State, t: TypeId)
    requires NamesOk(g, st) && t in g && g[t].Struct? && g[t].name != ""
    requires t !in st.names && g[t].name !in st.byName
    ensures NamesOk(g, Reserve(st, t, g[t].name))
  {
  }

  lemma ReserveKeepsInv(g: map<TypeId, Node>, st: State, open: set<TypeId>, t: TypeId)
    requires Inv(g, st, open) && t in g && g[t].Struct? && g[t].name != ""
    requires t !in st.names && g[t].name !in st.byName
    ensures Inv(g, Reserve(st, t, g[t].name), open + {t}) && Extends(st, Reserve(st, t, g[t].name))
  {
    ReserveKeepsNames(g, st, t);
    ReserveKeepsSlots(st, open, t, g[t].name);
  }

  lemma ReserveNamesOneMore(g: map<TypeId, Node>, st: State, open: set<TypeId>, t: TypeId, name: string)
    requires SlotsOk(st, open) && t in g && t !in st.names
    ensures t !in open && |g.Keys - Reserve(st, t, name).names.Keys| < |g.Keys - st.names.Keys|
  {
    assert Reserve(st, t, name).names.Keys == st.names.Keys + {t};
    RemainingShrinks(g.Keys, st.names.Keys, st.names.Keys + {t});
  }

  lemma NamedMore(g: map<TypeId, Node>, st: State, st': State)
    requires Extends(st, st')
    ensures |g.Keys - st'.names.Keys| <= |g.Keys - st.names.Keys|
  {
    RemainingShrinks(g.Keys, st.names.Keys, st'.names.Keys);
  }

  lemma ExtendsTransitive(a: State, b: State, c: State)
    requires Extends(a, b) && Extends(b, c)
    ensures Extends(a, c)
  {
  }

  lemma FillKeepsInv(g: map<TypeId, Node>, st: State, open: set<TypeId>, t: TypeId, schema: seq<Entry>)
    requires Inv(g, st, open + {t}) && t in st.names && t !in open && Good(Object(schema), st.byName.Keys)
    ensures Inv(g, Fill(st, st.names[t], schema), open) && Extends(st, Fill(st, st.names[t], schema))
  {
    var name := st.names[t];
    var st' := Fill(st, name, schema);
    SetKeepsDistinct(st.schemas, name, Object(schema));
    forall n ensures HasKey(st'.schemas, n) <==> n in st'.byName { GetSet(st.schemas, name, Object(schema), n); }
    forall n | n in st'.byName ensures SlotOk(st', open, n) {
      GetSet(st.schemas, name, Object(schema), n);
      if n != name { SlotGrows(st, st', open + {t}, open, n); }
    }
  }

  // ---- What a finished run promises ----

  /** Nothing half done: every name is one type's, and every $ref leads to a filled component. */
  lemma FinishedRunsAreComplete(g: map<TypeId, Node>, st: State, name: string)
    requires Inv(g, st, {})
    ensures forall t, u | t in st.names && u in st.names && st.names[t] == st.names[u] :: t == u
    ensures name in st.byName <==> HasKey(st.schemas, name)
    ensures name in st.byName ==>
              && Get(st.schemas, name).value.Object?
              && Good(Get(st.schemas, name).value, st.byName.Keys)
              && g[st.byName[name]].name == name
    ensures RefOk(RefText(name), st.byName.Keys) <==> name in st.byName
  {
    if name in st.byName { assert SlotOk(st, {}, name); }
    forall n | RefText(n) == RefText(name) ensures n == name {
      var prefix := "#/components/schemas/";
      assert (prefix + n)[|prefix|..] == n && (prefix + name)[|prefix|..] == name;
    }
  }

  // ---- Descriptions and tags ----

  lemma {:induction false} WithoutKeys(es: seq<Entry>, k: string, n: nat)
    requires n < |Without(es, k)|
    ensures Without(es, k)[n] in es && Without(es, k)[n].key != k
  {
    var m := |es| - 1;
    if n < |Without(es[..m], k)| { WithoutKeys(es[..m], k, n); }
  }

  method WithDoc(es: seq<Entry>, doc: string, ghost names: set<string>) returns (r: seq<Entry>)
    requires Good(Object(es), names)
    ensures Good(Object(r), names)
    ensures r == [Entry("description", Text(doc))] + Without(es, "description")
  {
    r := [Entry("description", Text(doc))];
    assert Good(r[0].value, names);
    assert es[..0] == [];
    for i := 0 to |es|
      invariant Good(Object(r), names) && r == [Entry("description", Text(doc))] + Without(es[..i], "description")
    {
      var e := es[i];
      assert es[..i + 1][..i] == es[..i];
      if e.key != "description" {
        SetGood(r, e.key, e.value, names);
        NotYetCopied(es, i, doc);
        r := Set(r, e.key, e.value);
      }
    }
    assert es[..|es|] == es;
  }

  /** The keys of a schema are distinct, so each is new when the copy reaches it. */
  lemma NotYetCopied(es: seq<Entry>, i: nat, doc: string)
    requires Distinct(es) && i < |es| && es[i].key != "description"
    ensures !HasKey([Entry("description", Text(doc))] + Without(es[..i], "description"), es[i].key)
  {
    var r := [Entry("description", Text(doc))] + Without(es[..i], "description");
    var n := IndexOf(r, es[i].key);
    if 0 < n < |r| {
      WithoutKeys(es[..i], "description", n - 1);
    }
  }

  method Described(es: seq<Entry>, doc: string, ghost names: set<string>) returns (r: seq<Entry>)
    requires Good(Object(es), names)
    ensures r == Documented(es, doc) && Good(Object(r), names)
  {
    if doc == "" { return es; }
    if Get(es, "$ref").Some? {
      r := [Entry("description", Text(doc)), Entry("allOf", List([Object(es)]))];
      assert Good(r[0].value, names) && Good(r[1].value, names);
    } else {
      r := WithDoc(es, doc, names);
    }
  }

  lemma {:induction false} RefusedOnce(es: seq<Entry>, ds: seq<Directive>, n: nat)
    requires n <= |ds| && Directed(es, ds[..n]).None?
    ensures Directed(es, ds).None?
  {
    if n == |ds| {
      assert ds[..n] == ds;
    } else {
      assert ds[..|ds| - 1][..n] == ds[..n];
      RefusedOnce(es, ds[..|ds| - 1], n);
    }
  }

  method ApplyOpenAPITag(es: seq<Entry>, tag: Option<seq<Directive>>, ghost names: set<string>)
    returns (r: Option<seq<Entry>>)
    requires Good(Object(es), names)
    ensures r == Tagged(es, tag)
    ensures r.Some? ==> Good(Object(r.value), names)
  {
    if tag.None? { return Some(es); }
    if Get(es, "$ref").Some? { return None; }
    var schema := es;
    for i := 0 to |tag.value|
      invariant Good(Object(schema), names) && Directed(es, tag.value[..i]) == Some(schema)
    {
      var e := DirectiveEntry(tag.value[i]);
      assert tag.value[..i + 1][..i] == tag.value[..i];
      if e.None? {
        RefusedOnce(es, tag.value, i + 1);
        return None;
      }
      DirectiveGood(tag.value[i], names);
      SetGood(schema, e.value.key, e.value.value, names);
      schema := Set(schema, e.value.key, e.value.value);
    }
    assert tag.value[..|tag.value|] == tag.value;
    return Some(schema);
  }

  lemma DirectiveGood(d: Directive, names: set<string>)
    requires DirectiveEntry(d).Some?
    ensures Good(DirectiveEntry(d).value.value, names)
  {
    if d.Enum? { assert forall i | 0 <= i < |d.vs| :: Good(Text(d.vs[i]), names); }
  }

  // ---- The generator ----

  /** Sound properties, and the required names among them, each once. */
  predicate FieldsOk(fields: Fields, names: set<string>) {
    && Good(Object(fields.properties), names)
    && (forall i | 0 <= i < |fields.required| :: HasKey(fields.properties, fields.required[i]))
    && (forall i, j | 0 <= i < j < |fields.required| :: fields.required[i] != fields.required[j])
  }

  lemma SetAddsKey(es: seq<Entry>, k: string, v: Json, x: string)
    ensures HasKey(Set(es, k, v), x) <==> HasKey(es, x) || x == k
  {
    GetSet(es, k, v, x);
  }

  lemma RequiredStay(fields: Fields, name: string, v: Json, names: set<string>)
    requires FieldsOk(fields, names) && !HasKey(fields.properties, name)
    ensures var all := fields.required + [name];
            && (forall i | 0 <= i < |all| :: HasKey(Set(fields.properties, name, v), all[i]))
            && (forall i, j | 0 <= i < j < |all| :: all[i] != all[j])
  {
    var all := fields.required + [name];
    forall i | 0 <= i < |all| ensures HasKey(Set(fields.properties, name, v), all[i]) {
      SetAddsKey(fields.properties, name, v, all[i]);
    }
  }

  lemma WithPropertyOk(fields: Fields, f: Field, schema: seq<Entry>, names: set<string>)
    requires FieldsOk(fields, names) && Good(Object(schema), names) && WithProperty(fields, f, schema).Some?
    ensures FieldsOk(WithProperty(fields, f, schema).value, names)
  {
    var name := PropertyName(f);
    SetGood(fields.properties, name, Object(schema), names);
    RequiredStay(fields, name, Object(schema), names);
    var all := fields.required + [name];
    assert forall i | 0 <= i < |fields.required| :: all[i] == fields.required[i];
  }

  lemma FieldsOkGrow(fields: Fields, names: set<string>, more: set<string>)
    requires FieldsOk(fields, names) && names <= more
    ensures FieldsOk(fields, more)
  {
    GoodGrows(Object(fields.properties), names, more);
  }

  /** Every filled component is the schema of its struct, and all it refers to has a name. */
  ghost predicate Faithful(types: Types, rank: Rank, st: State, open: set<TypeId>)
    requires Wired(types, rank)
  {
    forall n {:trigger HoldsSchema(types, rank, st, n)} | n in st.byName && st.byName[n] !in open ::
      HoldsSchema(types, rank, st, n)
  }

  ghost predicate HoldsSchema(types: Types, rank: Rank, st: State, n: string)
    requires Wired(types, rank) && n in st.byName
  {
    var t := st.byName[n];
    && t in types.nodes && types.nodes[t].Struct? && ObjectSchema(types, rank, t).Some?
    && Get(st.schemas, n) == Some(Object(ObjectSchema(types, rank, t).value))
    && KnownFields(types, rank, SeenBy(st), t, |types.nodes[t].fields|)
  }

  lemma ReserveKeepsFaithful(types: Types, rank: Rank, st: State, open: set<TypeId>, t: TypeId, name: string)
    requires Wired(types, rank) && Faithful(types, rank, st, open) && name !in st.byName
    ensures Faithful(types, rank, Reserve(st, t, name), open + {t})
  {
    var st' := Reserve(st, t, name);
    forall n | n in st'.byName && st'.byName[n] !in open + {t} ensures HoldsSchema(types, rank, st', n) {
      GetSet(st.schemas, name, Null, n);
      assert HoldsSchema(types, rank, st, n);
      var u := st.byName[n];
      KnownFieldsGrow(types, rank, SeenBy(st), SeenBy(st'), u, |types.nodes[u].fields|);
    }
  }

  lemma FillKeepsFaithful(types: Types, rank: Rank, st: State, open: set<TypeId>, t: TypeId, schema: seq<Entry>)
    requires Wired(types, rank) && Faithful(types, rank, st, open + {t}) && NamesOk(types.nodes, st) && t in st.names
    requires ObjectSchema(types, rank, t) == Some(schema)
    requires KnownFields(types, rank, SeenBy(st), t, |types.nodes[t].fields|)
    ensures Faithful(types, rank, Fill(st, st.names[t], schema), open)
  {
    var name := st.names[t];
    var st' := Fill(st, name, schema);
    forall n | n in st'.byName && st'.byName[n] !in open ensures HoldsSchema(types, rank, st', n) {
      GetSet(st.schemas, name, Object(schema), n);
      if n != name { assert HoldsSchema(types, rank, st, n); }
    }
  }

  lemma StructSchemaGood(doc: string, fields: Fields, names: set<string>)
    requires Good(Object(fields.properties), names)
    ensures Good(Object(StructSchema(doc, fields)), names)
  {
    var es := StructSchema(doc, fields);
    assert Good(Texts(fields.required), names);
    forall i | 0 <= i < |es| ensures Good(es[i].value, names) {
      assert es[i].value.Text? || es[i].value == Object(fields.properties) || es[i].value == Texts(fields.required);
    }
  }

  /** Between calls, `open` being the structs whose components are still empty. */
  ghost predicate StateOk(types: Types, rank: Rank, st: State, open: set<TypeId>)
    requires Wired(types, rank)
  {
    Inv(types.nodes, st, open) && Faithful(types, rank, st, open)
  }

  lemma ReserveStep(types: Types, rank: Rank, st: State, open: set<TypeId>, t: TypeId)
    requires Wired(types, rank) && StateOk(types, rank, st, open)
    requires t in types.nodes && types.nodes[t].Struct? && types.nodes[t].name != ""
    requires t !in st.names && types.nodes[t].name !in st.byName
    ensures var st' := Reserve(st, t, types.nodes[t].name);
            && StateOk(types, rank, st', open + {t}) && Extends(st, st') && t !in open
            && |types.nodes.Keys - st'.names.Keys| < |types.nodes.Keys - st.names.Keys|
  {
    ReserveKeepsInv(types.nodes, st, open, t);
    ReserveKeepsFaithful(types, rank, st, open, t, types.nodes[t].name);
    ReserveNamesOneMore(types.nodes, st, open, t, types.nodes[t].name);
  }

  lemma FillStep(types: Types, rank: Rank, st: State, open: set<TypeId>, t: TypeId, schema: seq<Entry>)
    requires Wired(types, rank) && StateOk(types, rank, st, open + {t})
    requires t in st.names && t !in open && Good(Object(schema), st.byName.Keys)
    requires t in types.nodes && types.nodes[t].Struct? && ObjectSchema(types, rank, t) == Some(schema)
    requires KnownFields(types, rank, SeenBy(st), t, |types.nodes[t].fields|)
    ensures StateOk(types, rank, Fill(st, st.names[t], schema), open) && Extends(st, Fill(st, st.names[t], schema))
  {
    FillKeepsInv(types.nodes, st, open, t, schema);
    FillKeepsFaithful(types, rank, st, open, t, schema);
  }

  /** What has been collected from a struct after each of its fields. */
  ghost predicate Steps(types: Types, rank: Rank, t: TypeId, start: Fields, steps: seq<Option<Fields>>)
    requires Wired(types, rank) && t in types.nodes && types.nodes[t].Struct?
  {
    && |steps| == |types.nodes[t].fields| + 1
    && forall k {:trigger Collected(types, rank, t, k, start)} | 0 <= k < |steps| ::
         steps[k] == Collected(types, rank, t, k, start)
  }

  ghost function StepsOf(types: Types, rank: Rank, t: TypeId, start: Fields): (steps: seq<Option<Fields>>)
    requires Wired(types, rank) && t in types.nodes && types.nodes[t].Struct?
    ensures Steps(types, rank, t, start, steps) && steps[0] == Some(start)
    ensures steps[|types.nodes[t].fields|] == Collected(types, rank, t, |types.nodes[t].fields|, start)
    ensures forall k | 0 <= k < |steps| && steps[k].None? :: steps[|steps| - 1].None?
  {
    var n := |types.nodes[t].fields|;
    var steps := seq(n + 1, k requires 0 <= k <= n => Collected(types, rank, t, k, start));
    assert steps[0] == Collected(types, rank, t, 0, start);
    assert forall k | 0 <= k < |steps| && steps[k].None? :: steps[n].None? by {
      forall k | 0 <= k < |steps| && steps[k].None? ensures steps[n].None? { RefusedStays(types, rank, t, start, k); }
    }
    steps
  }

  /** Every type of the graph has a schema, and no two named structs share a name. */
  ghost predicate Representable(types: Types, rank: Rank)
    requires Wired(types, rank)
  {
    && (forall t | t in types.nodes :: ValueSchema(types, rank, t).Some?)
    && (forall t | t in types.nodes && types.nodes[t].Struct? :: ObjectSchema(types, rank, t).Some?)
    && (forall t, u | t in types.nodes && u in types.nodes && types.nodes[t].Struct? && types.nodes[u].Struct?
                      && types.nodes[t].name == types.nodes[u].name != "" :: t == u)
  }

  /** A name already taken when a struct is first met belongs to another struct. */
  lemma TakenNameIsAClash(types: Types, rank: Rank, st: State, t: TypeId, open: set<TypeId>)
    requires Wired(types, rank) && StateOk(types, rank, st, open)
    requires t in types.nodes && types.nodes[t].Struct? && t !in st.names
    requires types.nodes[t].name != "" && types.nodes[t].name in st.byName
    ensures !Representable(types, rank)
  {
    var u := st.byName[types.nodes[t].name];
    assert u in st.names && types.nodes[u].name == types.nodes[t].name && u != t;
  }

  lemma {:induction false} RefusedStays(types: Types, rank: Rank, t: TypeId, start: Fields, n: nat)
    requires Wired(types, rank) && t in types.nodes && types.nodes[t].Struct? && n <= |types.nodes[t].fields|
    requires Collected(types, rank, t, n, start).None?
    ensures Collected(types, rank, t, |types.nodes[t].fields|, start).None?
    decreases |types.nodes[t].fields| - n
  {
    if n < |types.nodes[t].fields| {
      assert Collected(types, rank, t, n + 1, start).None?;
      RefusedStays(types, rank, t, start, n + 1);
    }
  }

  class SchemaBuilder {
    const types: Types
    ghost const rank: Rank
    var schemas: seq<Entry>
    var names: map<TypeId, string>
    var byName: map<string, TypeId>
    var undocumented: seq<string>
    var undocSeen: set<string>

    function Contents(): State
      reads this
    {
      State(schemas, names, byName, undocumented, undocSeen)
    }

    ghost predicate Ok(open: set<TypeId>)
      requires Wired(types, rank)
      reads this
    {
      StateOk(types, rank, Contents(), open)
    }

    /** All that the schema of t refers to has its name. */
    ghost predicate Knows(t: TypeId)
      requires Wired(types, rank) && t in types.nodes
      reads this
    {
      Known(types, rank, SeenBy(Contents()), t)
    }

    ghost predicate KnowsFields(t: TypeId, n: nat)
      requires Wired(types, rank) && t in types.nodes && types.nodes[t].Struct? && n <= |types.nodes[t].fields|
      reads this
    {
      KnownFields(types, rank, SeenBy(Contents()), t, n)
    }

    function Unnamed(): nat
      reads this
    {
      |types.nodes.Keys - names.Keys|
    }

    constructor (types: Types)
      requires Closed(types.nodes) && Acyclic(types.nodes)
      ensures this.types == types && Wired(types, rank) && Ok({}) && names == map[]
    {
      RankedExactlyWhenAcyclic(types.nodes);
      this.types := types;
      ghost var r: Rank :| Ranked(types.nodes, r);
      rank := r;
      schemas, names, byName, undocumented, undocSeen := [], map[], map[], [], {};
    }

    /** What a successful call leaves: the same structs open, nothing forgotten. */
    twostate predicate Went(open: set<TypeId>)
      requires Wired(types, rank)
      reads this
    {
      Ok(open) && Extends(old(Contents()), Contents())
    }

    /** A struct met for the first time gets its name and slot before its fields are looked at, so cycles end here. */
    method RefFor(t: TypeId, ghost open: set<TypeId>) returns (r: Option<seq<Entry>>)
      requires Wired(types, rank) && Ok(open)
      requires t in types.nodes && types.nodes[t].Struct? && types.nodes[t].name != ""
      modifies this
      ensures r.Some? ==> Went(open) && t in names && Knows(t) && r.value == RefTo(types.nodes[t].name)
      ensures r.Some? ==> Good(Object(r.value), byName.Keys)
      ensures Representable(types, rank) ==> r.Some?
      decreases Unnamed(), Height(rank, AsValue(t)), 0
    {
      if t !in names {
        if types.nodes[t].name in byName {
          TakenNameIsAClash(types, rank, Contents(), t, open);
          return None;
        }
        ReserveStep(types, rank, Contents(), open, t);
        ReserveSlot(t, types.nodes[t].name);
        ghost var reserved := Contents();
        var schema := SchemaForStruct(t, open + {t});
        if schema.None? { return None; }
        ghost var done := Contents();
        FillStep(types, rank, done, open, t, schema.value);
        FillSlot(t, schema.value);
        ExtendsTransitive(old(Contents()), reserved, done);
        ExtendsTransitive(old(Contents()), done, Contents());
      }
      return Ref(t, open);
    }

    function Ref(t: TypeId, ghost open: set<TypeId>): (r: Option<seq<Entry>>)
      requires Wired(types, rank) && Ok(open) && t in names
      reads this
      ensures r == Some(RefTo(types.nodes[t].name)) && Good(Object(r.value), byName.Keys)
    {
      RefToGood(names[t], byName.Keys);
      Some(RefTo(names[t]))
    }

    method ReserveSlot(t: TypeId, name: string)
      modifies this
      ensures Contents() == Reserve(old(Contents()), t, name)
    {
      names, byName, schemas := names[t := name], byName[name := t], Set(schemas, name, Null);
    }

    method FillSlot(t: TypeId, schema: seq<Entry>)
      requires t in names
      modifies this`schemas
      ensures Contents() == Fill(old(Contents()), names[t], schema)
    {
      schemas := Set(schemas, names[t], Object(schema));
    }

    method SchemaFor(t: TypeId, ghost open: set<TypeId>) returns (r: Option<seq<Entry>>)
      requires Wired(types, rank) && Ok(open) && t in types.nodes
      modifies this
      ensures r.Some? ==> Went(open) && Knows(t) && Good(Object(r.value), byName.Keys)
      ensures r.Some? || Representable(types, rank) ==> ValueSchema(types, rank, t) == r
      decreases Unnamed(), Height(rank, AsValue(t)), 2
    {
      LeavesGood("string", "date-time", byName.Keys);
      if t == types.timeType { return Some(Formatted("string", "date-time")); }
      if t == types.rawMessageType { return Some(Anything()); }
      match types.nodes[t] {
        case Pointer(e) => r := Pointed(t, e, open);
        case Struct(_, _, _, _) => r := Structured(t, open);
        case Slice(e) => r := Listed(t, e, open);
        case Array(e) => r := Listed(t, e, open);
        case Map(k, e) => r := Mapped(t, k, e, open);
        case Interface => return Some(Anything());
        case Unsupported => return None;
        case _ =>
          ScalarGood(types.nodes[t], byName.Keys);
          r := Some(Scalar(types.nodes[t]));
      }
    }

    method Structured(t: TypeId, ghost open: set<TypeId>) returns (r: Option<seq<Entry>>)
      requires Wired(types, rank) && Ok(open) && t in types.nodes && types.nodes[t].Struct?
      modifies this
      ensures r.Some? ==> Went(open) && Knows(t) && Good(Object(r.value), byName.Keys)
      ensures r.Some? || Representable(types, rank) ==>
                var name := types.nodes[t].name;
                r == if name != "" then Some(RefTo(name)) else ObjectSchema(types, rank, t)
      decreases Unnamed(), Height(rank, AsValue(t)), 1
    {
      ElementLeads(types, rank, t);
      if types.nodes[t].name != "" {
        r := RefFor(t, open);
      } else {
        r := SchemaForStruct(t, open);
      }
    }

    method Pointed(t: TypeId, e: TypeId, ghost open: set<TypeId>) returns (r: Option<seq<Entry>>)
      requires Wired(types, rank) && Ok(open) && t in types.nodes && types.nodes[t] == Pointer(e)
      modifies this
      ensures r.Some? ==> Went(open) && Knows(t) && Good(Object(r.value), byName.Keys)
      ensures e in types.nodes
      ensures r.Some? || Representable(types, rank) ==>
                var inner := ValueSchema(types, rank, e);
                r == if inner.None? then None else Some(Nullable(inner.value))
      decreases Unnamed(), Height(rank, AsValue(t)), 0
    {
      ElementLeads(types, rank, t);
      r := SchemaFor(e, open);
      if r.Some? {
        NullableGood(r.value, byName.Keys);
        r := Some(Nullable(r.value));
      }
    }

    method Mapped(t: TypeId, k: TypeId, e: TypeId, ghost open: set<TypeId>) returns (r: Option<seq<Entry>>)
      requires Wired(types, rank) && Ok(open) && t in types.nodes && types.nodes[t] == Map(k, e)
      modifies this
      ensures r.Some? ==> Went(open) && Knows(t) && Good(Object(r.value), byName.Keys)
      ensures k in types.nodes && e in types.nodes
      ensures r.Some? || Representable(types, rank) ==>
                var inner := ValueSchema(types, rank, e);
                r == if !types.nodes[k].Str? || inner.None? then None
                     else Some(Around("object", "additionalProperties", inner.value))
      decreases Unnamed(), Height(rank, AsValue(t)), 0
    {
      ElementLeads(types, rank, t);
      if !types.nodes[k].Str? { return None; }
      r := SchemaFor(e, open);
      if r.Some? {
        AroundGood("object", "additionalProperties", r.value, byName.Keys);
        r := Some(Around("object", "additionalProperties", r.value));
      }
    }

    method Listed(t: TypeId, e: TypeId, ghost open: set<TypeId>) returns (r: Option<seq<Entry>>)
      requires Wired(types, rank) && Ok(open) && t in types.nodes
      requires types.nodes[t] == Slice(e) || types.nodes[t] == Array(e)
      modifies this
      ensures e in types.nodes && (types.nodes[e].Uint8? || Height(rank, AsValue(e)) < Height(rank, AsValue(t)))
      ensures r.Some? ==> Went(open) && Knows(t) && Good(Object(r.value), byName.Keys)
      ensures r.Some? || Representable(types, rank) ==> ListSchema(types, rank, t, e) == r
      decreases Unnamed(), Height(rank, AsValue(t)), 0
    {
      ElementLeads(types, rank, t);
      if types.nodes[e].Uint8? {
        LeavesGood("string", "byte", byName.Keys);
        return Some(Formatted("string", "byte"));
      }
      r := SchemaFor(e, open);
      if r.Some? {
        AroundGood("array", "items", r.value, byName.Keys);
        r := Some(Around("array", "items", r.value));
      }
    }

    method SchemaForStruct(t: TypeId, ghost open: set<TypeId>) returns (r: Option<seq<Entry>>)
      requires Wired(types, rank) && Ok(open) && t in types.nodes && types.nodes[t].Struct?
      modifies this
      ensures r.Some? ==> Went(open) && KnowsFields(t, |types.nodes[t].fields|) && Good(Object(r.value), byName.Keys)
      ensures r.Some? || Representable(types, rank) ==> ObjectSchema(types, rank, t) == r
      decreases Unnamed(), Height(rank, AsFields(t)), 3
    {
      var none := Fields([], []);
      assert FieldsOk(none, byName.Keys);
      var fields := CollectStructFields(t, none, open);
      if fields.None? { return None; }
      var doc := if types.nodes[t].name == "" then "" else types.nodes[t].doc;
      StructSchemaGood(doc, fields.value, byName.Keys);
      return Some(StructSchema(doc, fields.value));
    }

    method CollectStructFields(t: TypeId, start: Fields, ghost open: set<TypeId>) returns (r: Option<Fields>)
      requires Wired(types, rank) && Ok(open) && FieldsOk(start, byName.Keys)
      requires t in types.nodes && types.nodes[t].Struct?
      modifies this
      ensures r.Some? ==> Went(open) && KnowsFields(t, |types.nodes[t].fields|) && FieldsOk(r.value, byName.Keys)
      ensures r.Some? || Representable(types, rank) ==> Collected(types, rank, t, |types.nodes[t].fields|, start) == r
      decreases Unnamed(), Height(rank, AsFields(t)), 2
    {
      ghost var steps := StepsOf(types, rank, t, start);
      var fields := start;
      for i := 0 to |types.nodes[t].fields|
        invariant Went(open) && Unnamed() <= old(Unnamed())
        invariant KnowsFields(t, i) && FieldsOk(fields, byName.Keys) && steps[i] == Some(fields)
      {
        r := CollectField(t, i, start, steps, fields, old(Contents()), open);
        if r.None? { return None; }
        fields := r.value;
      }
      return Some(fields);
    }

    /** One field, after the i before it gave `fields`. */
    method CollectField(
      t: TypeId, i: nat, ghost start: Fields, ghost steps: seq<Option<Fields>>, fields: Fields,
      ghost begin: State, ghost open: set<TypeId>)
      returns (r: Option<Fields>)
      requires Wired(types, rank) && Ok(open)
      requires t in types.nodes && types.nodes[t].Struct? && i < |types.nodes[t].fields|
      requires Extends(begin, Contents())
      requires FieldsOk(fields, byName.Keys) && Steps(types, rank, t, start, steps) && steps[i] == Some(fields)
      requires KnowsFields(t, i)
      modifies this
      ensures r.Some? ==> Ok(open) && Extends(begin, Contents()) && Unnamed() <= old(Unnamed())
      ensures r.Some? ==> KnowsFields(t, i + 1) && FieldsOk(r.value, byName.Keys)
      ensures r.Some? || Representable(types, rank) ==> steps[i + 1] == r
      decreases Unnamed(), Height(rank, AsFields(t)), 1
    {
      var field := types.nodes[t].fields[i];
      FieldLeads(types, rank, t, i);
      assert steps[i] == Collected(types, rank, t, i, start) && steps[i + 1] == Collected(types, rank, t, i + 1, start);
      if field.tagName == "-" { return Some(fields); }
      var embedded := Embedded(types.nodes, field);
      if embedded.Some? {
        r := CollectStructFields(embedded.value, fields, open);
        if r.Some? {
          NamedMore(types.nodes, old(Contents()), Contents());
          KnownFieldsGrow(types, rank, SeenBy(old(Contents())), SeenBy(Contents()), t, i);
        }
        return;
      }
      if !field.exported { return Some(fields); }
      forall s ensures !Promotes(types.nodes, field, s) { EmbeddedPromotes(types.nodes, field, s); }
      var schema := SchemaOfField(t, i, open);
      if schema.None? { return None; }
      NamedMore(types.nodes, old(Contents()), Contents());
      KnownFieldsGrow(types, rank, SeenBy(old(Contents())), SeenBy(Contents()), t, i);
      FieldsOkGrow(fields, old(byName).Keys, byName.Keys);
      r := WithProperty(fields, field, schema.value);
      if r.Some? {
        WithPropertyOk(fields, field, schema.value, byName.Keys);
      }
    }

    /** The schema of one serialized field with its documentation and tag. */
    method SchemaOfField(t: TypeId, i: nat, ghost open: set<TypeId>) returns (r: Option<seq<Entry>>)
      requires Wired(types, rank) && Ok(open)
      requires t in types.nodes && types.nodes[t].Struct? && i < |types.nodes[t].fields|
      requires var f := types.nodes[t].fields[i];
               f.typ in types.nodes && Height(rank, AsValue(f.typ)) < Height(rank, AsFields(t))
      requires Direct(types.nodes, types.nodes[t].fields[i])
      modifies this
      ensures r.Some? ==> Went(open) && Knows(types.nodes[t].fields[i].typ) && Good(Object(r.value), byName.Keys)
      ensures r.Some? ==> Noted(SeenBy(Contents()), types.nodes[t], types.nodes[t].fields[i])
      ensures r.Some? || Representable(types, rank) ==> FieldSchema(types, rank, t, i) == r
      decreases Unnamed(), Height(rank, AsFields(t)), 0
    {
      var field := types.nodes[t].fields[i];
      r := SchemaFor(field.typ, open);
      if r.None? { return None; }
      if field.doc == "" && types.nodes[t].name != "" {
        ghost var before := Contents();
        assert UndocumentedAt(types.nodes, t, i, types.nodes[t].pkg + "." + types.nodes[t].name + "." + field.name);
        NoteUndocumented(types.nodes[t].pkg + "." + types.nodes[t].name + "." + field.name, open);
        KnownGrows(types, rank, SeenBy(before), SeenBy(Contents()), field.typ);
      }
      var schema := Described(r.value, field.doc, byName.Keys);
      r := ApplyOpenAPITag(schema, field.tag, byName.Keys);
    }

    /** Lists a field without documentation, once however often its struct is embedded. */
    method NoteUndocumented(key: string, ghost open: set<TypeId>)
      requires Wired(types, rank) && Ok(open) && Undocumented(types.nodes, key)
      modifies this`undocumented, this`undocSeen
      ensures Ok(open)
      ensures undocSeen == old(undocSeen) + {key}
      ensures undocumented == if key in old(undocSeen) then old(undocumented) else old(undocumented) + [key]
    {
      if key !in undocSeen {
        undocSeen := undocSeen + {key};
        undocumented := undocumented + [key];
        UndocumentedOpen(types.nodes, old(Contents()), Contents(), open);
        UndocumentedFaithful(types, rank, old(Contents()), Contents(), open);
      }
    }

    /**
     Schemas for a list of types. On success each is the one the graph prescribes, every $ref
     resolves, and exactly the values of the type meet it.
     */
    method Generate(roots: seq<TypeId>) returns (r: Option<seq<Json>>)
      requires Wired(types, rank) && Ok({}) && AllIn(roots, types.nodes.Keys)
      modifies this
      ensures Representable(types, rank) ==> r.Some?
      ensures r.Some? ==> Went({}) && AllPrescribed(types, rank, Contents(), roots, r.value)
      ensures r.Some? ==> forall i, j | 0 <= i < |roots| ::
                Meets(schemas, r.value[i], j) <==> Admits(types, rank, roots[i], j)
    {
      var out: seq<Json> := [];
      for i := 0 to |roots|
        invariant Went({}) && |out| == i && AllPrescribed(types, rank, Contents(), roots[..i], out)
      {
        ghost var before := Contents();
        var s := SchemaFor(roots[i], {});
        if s.None? { return None; }
        AllPrescribedGrow(types, rank, before, Contents(), roots[..i], out, roots[i], Object(s.value));
        assert roots[..i + 1] == roots[..i] + [roots[i]];
        out := out + [Object(s.value)];
      }
      assert roots[..|roots|] == roots;
      FinishedRunsMean(types, rank, Contents(), roots, out);
      return Some(out);
    }
  }

  /** The schema is the one the graph prescribes, and every $ref in it resolves. */
  ghost predicate Prescribed(types: Types, rank: Rank, st: State, t: TypeId, schema: Json)
    requires Wired(types, rank)
  {
    && t in types.nodes && Known(types, rank, SeenBy(st), t) && Good(schema, st.byName.Keys)
    && ValueSchema(types, rank, t).Some? && schema == Object(ValueSchema(types, rank, t).value)
  }

  ghost predicate AllPrescribed(types: Types, rank: Rank, st: State, roots: seq<TypeId>, out: seq<Json>)
    requires Wired(types, rank)
  {
    |out| == |roots| && forall i | 0 <= i < |roots| :: Prescribed(types, rank, st, roots[i], out[i])
  }

  lemma AllPrescribedGrow(
    types: Types, rank: Rank, st: State, st': State, roots: seq<TypeId>, out: seq<Json>, t: TypeId, schema: Json)
    requires Wired(types, rank) && AllPrescribed(types, rank, st, roots, out) && Extends(st, st')
    requires Prescribed(types, rank, st', t, schema)
    ensures AllPrescribed(types, rank, st', roots + [t], out + [schema])
  {
    forall i | 0 <= i < |roots| ensures Prescribed(types, rank, st', roots[i], out[i]) {
      PrescribedStays(types, rank, st, st', roots[i], out[i]);
    }
  }

  lemma PrescribedStays(types: Types, rank: Rank, st: State, st': State, t: TypeId, schema: Json)
    requires Wired(types, rank) && Prescribed(types, rank, st, t, schema) && Extends(st, st')
    ensures Prescribed(types, rank, st', t, schema)
  {
    GoodGrows(schema, st.byName.Keys, st'.byName.Keys);
    KnownGrows(types, rank, SeenBy(st), SeenBy(st'), t);
  }

  lemma ComponentsComplete(types: Types, rank: Rank, st: State)
    requires Wired(types, rank) && StateOk(types, rank, st, {})
    ensures Complete(types, rank, st.schemas, SeenBy(st))
  {
    forall u | u in st.names.Keys ensures HasComponent(types, rank, st.schemas, SeenBy(st), u) {
      assert HoldsSchema(types, rank, st, st.names[u]);
    }
  }

  /** When nothing is half done, each schema is met by exactly the values of its type. */
  lemma FinishedRunsMean(types: Types, rank: Rank, st: State, roots: seq<TypeId>, out: seq<Json>)
    requires Wired(types, rank) && StateOk(types, rank, st, {}) && AllPrescribed(types, rank, st, roots, out)
    ensures forall i, j | 0 <= i < |roots| :: Meets(st.schemas, out[i], j) <==> Admits(types, rank, roots[i], j)
  {
    ComponentsComplete(types, rank, st);
    forall i, j | 0 <= i < |roots| ensures Meets(st.schemas, out[i], j) <==> Admits(types, rank, roots[i], j) {
      SchemaMeans(types, rank, st.schemas, SeenBy(st), roots[i], j);
    }
  }

  /**
   The work list of a finished run: serialized fields of named structs without documentation and
   nothing else, each once, and of those that any component shows, own or promoted, none is missing.
   */
  lemma FinishedRunsList(types: Types, rank: Rank, st: State, u: TypeId, p: Way, f: Field)
    requires Wired(types, rank) && StateOk(types, rank, st, {})
    requires u in st.names && Route(types.nodes, u, p, f)
    ensures forall k | k in st.undocumented :: Undocumented(types.nodes, k)
    ensures forall i, j | 0 <= i < j < |st.undocumented| :: st.undocumented[i] != st.undocumented[j]
    ensures var s := Declarer(types.nodes, u, p);
            && s in types.nodes && types.nodes[s].Struct? && f in types.nodes[s].fields
            && (f.doc == "" && types.nodes[s].name != "" ==>
                  types.nodes[s].pkg + "." + types.nodes[s].name + "." + f.name in st.undocumented)
  {
    ComponentsComplete(types, rank, st);
    assert HasComponent(types, rank, st.schemas, SeenBy(st), u);
    RouteListed(types, rank, SeenBy(st), u, p, f);
  }

  lemma UndocumentedOpen(g: map<TypeId, Node>, st: State, st': State, open: set<TypeId>)
    requires Inv(g, st, open) && ListOk(st') && forall k | k in st'.undocSeen :: Undocumented(g, k)
    requires st' == st.(undocumented := st'.undocumented, undocSeen := st'.undocSeen)
    ensures Inv(g, st', open)
  {
    forall n | n in st'.byName ensures SlotOk(st', open, n) {
      assert SlotOk(st, open, n);
    }
  }

  lemma UndocumentedFaithful(types: Types, rank: Rank, st: State, st': State, open: set<TypeId>)
    requires Wired(types, rank) && Faithful(types, rank, st, open) && st.undocSeen <= st'.undocSeen
    requires st' == st.(undocumented := st'.undocumented, undocSeen := st'.undocSeen)
    ensures Faithful(types, rank, st', open)
  {
    forall n | n in st'.byName && st'.byName[n] !in open ensures HoldsSchema(types, rank, st', n) {
      assert HoldsSchema(types, rank, st, n);
      var u := st.byName[n];
      KnownFieldsGrow(types, rank, SeenBy(st), SeenBy(st'), u, |types.nodes[u].fields|);
    }
  }

  lemma ScalarGood(n: Node, names: set<string>)
    ensures Good(Object(Scalar(n)), names)
  {
    LeavesGood("string", "", names);
    LeavesGood("boolean", "", names);
    LeavesGood("integer", "int64", names);
    LeavesGood("number", "", names);
  }
}
