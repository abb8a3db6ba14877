/**
 What encoding/json writes for a value of a contract type, and exactly which values are written
 in the shape their generated schema describes.
 */
module GoEncoding {
  import opened Prelude
  import opened OrderedMaps
  import opened TypeGraph
  import opened SchemaRecursion
  import opened SchemaSpec
  import opened SchemaFields
  import opened SchemaMeaning
  import opened SchemaTruth
  import Schema

  // ---- Values and their encodings ----

  /** A Go value; a byte slice by its base64 text, a leaf by the JSON it is written as. */
  datatype GoValue =
    | Nil
    | Ref(to: GoValue)
    | Bytes(base64: string)
    | Items(items: seq<GoValue>)
    | Dict(bindings: seq<Binding>)
    | Record(fields: seq<GoValue>)
    | Leaf(json: Json)

  datatype Binding = Binding(key: string, value: GoValue)

  /** Which values omitempty or omitzero leave out of an object. */
  type Omits = (Field, GoValue) -> bool

  /** Only fields that carry the option lose their values. */
  ghost predicate OmitsOptional(omits: Omits) {
    forall f, v :: omits(f, v) ==> f.optional
  }

  ghost predicate HasType(types: Types, t: TypeId, v: GoValue)
    decreases v
  {
    t in types.nodes && (
      if t == types.timeType then v.Leaf? && v.json.Text?
      else if t == types.rawMessageType then v.Leaf?
      else
        match types.nodes[t]
        case Pointer(e) => v.Nil? || (v.Ref? && HasType(types, e, v.to))
        case Slice(e) =>
          || v.Nil?
          || (if IsByte(types.nodes, e) then v.Bytes?
              else v.Items? && forall i | 0 <= i < |v.items| :: HasType(types, e, v.items[i]))
        case Array(e) => v.Items? && forall i | 0 <= i < |v.items| :: HasType(types, e, v.items[i])
        case Map(_, e) =>
          v.Nil? || (v.Dict? && forall i | 0 <= i < |v.bindings| :: HasType(types, e, v.bindings[i].value))
        case Struct(_, _, _, fields) =>
          v.Record? && |v.fields| == |fields|
          && forall i | 0 <= i < |fields| :: HasType(types, fields[i].typ, v.fields[i])
        case Str => v.Leaf? && v.json.Text?
        case Bool => v.Leaf? && v.json.Flag?
        case WideInt => v.Leaf? && v.json.Integer?
        case NarrowInt => v.Leaf? && v.json.Integer?
        case Uint8 => v.Leaf? && v.json.Integer?
        case Float => v.Leaf? && (v.json.Integer? || v.json.Decimal?)
        case Interface => v.Leaf?
        case Unsupported => v.Nil?)
  }

  /** Nothing is promoted from the types that write themselves. */
  ghost predicate Sealed(types: Types) {
    forall f, s | Promotes(types.nodes, f, s) :: !Special(types, s) && !Special(types, f.typ)
  }

  /** The record behind an embedded field, or nothing behind a nil pointer. */
  function Promoted(w: GoValue): Option<GoValue> {
    match w
    case Nil => None
    case Ref(x) => Some(x)
    case _ => Some(w)
  }

  lemma PromotedIsRecord(types: Types, f: Field, e: TypeId, w: GoValue)
    requires Sealed(types) && HasType(types, f.typ, w) && Embedded(types.nodes, f) == Some(e)
    ensures Promotes(types.nodes, f, e)
    ensures Promoted(w).Some? ==> Promoted(w).value.Record? && HasType(types, e, Promoted(w).value)
  {
    EmbeddedPromotes(types.nodes, f, e);
    assert !Special(types, e) && !Special(types, f.typ);
  }

  /** What json.Marshal writes. */
  ghost function Encode(types: Types, omits: Omits, t: TypeId, v: GoValue): Json
    requires Sealed(types) && HasType(types, t, v)
    decreases v, 1, 0
  {
    match v
    case Nil => Null
    case Ref(w) => Encode(types, omits, types.nodes[t].elem, w)
    case Bytes(text) => Text(text)
    case Items(vs) =>
      List(seq(|vs|, i requires 0 <= i < |vs| => Encode(types, omits, types.nodes[t].elem, vs[i])))
    case Dict(bs) =>
      Object(seq(|bs|, i requires 0 <= i < |bs| =>
        Entry(bs[i].key, Encode(types, omits, types.nodes[t].elem, bs[i].value))))
    case Record(vs) => Object(Members(types, omits, t, v, |vs|))
    case Leaf(j) => j
  }

  /** The entries the first n fields of a struct give, promoted ones in place; a nil embedded pointer gives none. */
  ghost function Members(types: Types, omits: Omits, t: TypeId, v: GoValue, n: nat): seq<Entry>
    requires Sealed(types) && HasType(types, t, v) && v.Record? && n <= |v.fields|
    decreases v, 0, n
  {
    if n == 0 then [] else Members(types, omits, t, v, n - 1) + Member(types, omits, t, v, n - 1)
  }

  ghost function Member(types: Types, omits: Omits, t: TypeId, v: GoValue, i: nat): seq<Entry>
    requires Sealed(types) && HasType(types, t, v) && v.Record? && i < |v.fields|
    decreases v, 0, i
  {
    var f, w := types.nodes[t].fields[i], v.fields[i];
    var e := Embedded(types.nodes, f);
    if f.tagName == "-" then []
    else if e.Some? then
      PromotedIsRecord(types, f, e.value, w);
      var x := Promoted(w);
      if x.None? then [] else Members(types, omits, e.value, x.value, |x.value.fields|)
    else if !f.exported || omits(f, w) then []
    else [Entry(JsonName(f), Encode(types, omits, f.typ, w))]
  }

  // ---- Which values are written as their schema says ----

  /**
   The value has no nil slice or map except where a pointer makes null acceptable or an option
   leaves it out, no array of bytes, no value behind two pointers whose types are nested, no nil
   embedded pointer that hides a mandatory field, and enum values only where an enum is declared.
   */
  ghost predicate Sound(types: Types, rank: Rank, omits: Omits, t: TypeId, v: GoValue)
    requires Wired(types, rank) && Sealed(types) && HasType(types, t, v)
    decreases v, 1, 0
  {
    match v
    case Nil => types.nodes[t].Pointer?
    case Ref(w) =>
      var e := types.nodes[t].elem;
      Encode(types, omits, e, w).Null? || (!NestsTypes(types, rank, e) && Sound(types, rank, omits, e, w))
    case Items(vs) =>
      var e := types.nodes[t].elem;
      !IsByte(types.nodes, e) && forall i | 0 <= i < |vs| :: Sound(types, rank, omits, e, vs[i])
    case Dict(bs) => forall i | 0 <= i < |bs| :: Sound(types, rank, omits, types.nodes[t].elem, bs[i].value)
    case Record(vs) => SoundFields(types, rank, omits, t, v, |vs|)
    case _ => true
  }

  ghost predicate SoundFields(types: Types, rank: Rank, omits: Omits, t: TypeId, v: GoValue, n: nat)
    requires Wired(types, rank) && Sealed(types) && HasType(types, t, v) && v.Record? && n <= |v.fields|
    decreases v, 0, n
  {
    forall i | 0 <= i < n :: SoundField(types, rank, omits, t, v, i)
  }

  ghost predicate SoundField(types: Types, rank: Rank, omits: Omits, t: TypeId, v: GoValue, i: nat)
    requires Wired(types, rank) && Sealed(types) && HasType(types, t, v) && v.Record? && i < |v.fields|
    decreases v, 0, i
  {
    var f, w := types.nodes[t].fields[i], v.fields[i];
    var e := Embedded(types.nodes, f);
    if f.tagName == "-" then true
    else if e.Some? then
      PromotedIsRecord(types, f, e.value, w);
      var x := Promoted(w);
      if x.None? then forall p, m | Route(types.nodes, e.value, p, m) :: m.optional
      else SoundFields(types, rank, omits, e.value, x.value, |x.value.fields|)
    else
      || !f.exported || omits(f, w)
      || (Sound(types, rank, omits, f.typ, w) && EnumAdmits(f.tag, Encode(types, omits, f.typ, w)))
  }

  // ---- Objects ----

  /** The object has the field if it is mandatory, and under its name a value of the field. */
  ghost predicate FitsField(types: Types, rank: Rank, f: Field, es: seq<Entry>)
    requires Wired(types, rank)
  {
    && (f.optional || HasKey(es, JsonName(f)))
    && (forall k | 0 <= k < |es| && es[k].key == JsonName(f) ::
          Admits(types, rank, f.typ, es[k].value) && EnumAdmits(f.tag, es[k].value))
  }

  /** So for all fields reached through field i of t. */
  ghost predicate FitsAt(types: Types, rank: Rank, t: TypeId, i: nat, es: seq<Entry>)
    requires Wired(types, rank)
  {
    forall p, f | Route(types.nodes, t, p, f) && p.i == i :: FitsField(types, rank, f, es)
  }

  /** So for all fields reached through the first n. */
  ghost predicate Fits(types: Types, rank: Rank, t: TypeId, n: nat, es: seq<Entry>)
    requires Wired(types, rank)
  {
    forall p, f | Route(types.nodes, t, p, f) && p.i < n :: FitsField(types, rank, f, es)
  }

  lemma KeyInEither(a: seq<Entry>, b: seq<Entry>, k: string)
    ensures HasKey(a + b, k) <==> HasKey(a, k) || HasKey(b, k)
  {
    var n, x, y := IndexOf(a + b, k), IndexOf(a, k), IndexOf(b, k);
    assert x < |a| ==> (a + b)[x].key == k;
    assert y < |b| ==> (a + b)[|a| + y].key == k;
    assert n < |a| ==> a[n].key == k;
    assert |a| <= n < |a| + |b| ==> b[n - |a|].key == k;
  }

  /** No two fields of a struct that has a schema share a name. */
  lemma NamesDisjoint(types: Types, rank: Rank, t: TypeId, n: nat, start: Fields, k: string)
    requires Wired(types, rank) && t in types.nodes && types.nodes[t].Struct? && 0 < n <= |types.nodes[t].fields|
    requires Collected(types, rank, t, n, start).Some?
    ensures !(Adds(types.nodes, t, n - 1, k, false) && AddsAt(types.nodes, t, n - 1, k, false))
  {
    if AddsAt(types.nodes, t, n - 1, k, false) {
      NewName(types, rank, t, n, start, k);
      CollectedMeans(types, rank, t, n - 1, start, k);
    }
  }

  lemma NewName(types: Types, rank: Rank, t: TypeId, n: nat, start: Fields, k: string)
    requires Wired(types, rank) && t in types.nodes && types.nodes[t].Struct? && 0 < n <= |types.nodes[t].fields|
    requires Collected(types, rank, t, n, start).Some? && AddsAt(types.nodes, t, n - 1, k, false)
    ensures Collected(types, rank, t, n - 1, start).Some?
    ensures !HasKey(Collected(types, rank, t, n - 1, start).value.properties, k)
  {
    var g, f := types.nodes, types.nodes[t].fields[n - 1];
    FieldLeads(types, rank, t, n - 1);
    var before, e := Collected(types, rank, t, n - 1, start).value, Embedded(g, f);
    if e.Some? {
      var p, x := RouteNamed(g, e.value, k);
      CollectedSchemas(types, rank, e.value, |g[e.value].fields|, before, p, x);
    } else {
      WithPropertyMeans(before, f, FieldSchema(types, rank, t, n - 1).value, k);
    }
  }

  lemma RouteNamed(g: map<TypeId, Node>, t: TypeId, k: string) returns (p: Way, f: Field)
    requires t in g && g[t].Struct? && Adds(g, t, |g[t].fields|, k, false)
    ensures Route(g, t, p, f) && p.i < |g[t].fields| && JsonName(f) == k
  {
    p, f :| AddsBy(g, t, |g[t].fields|, k, false, p, f);
  }

  lemma {:induction false} MembersAreNamed(types: Types, omits: Omits, t: TypeId, v: GoValue, n: nat, k: nat)
    requires Closed(types.nodes) && Sealed(types) && HasType(types, t, v) && v.Record? && n <= |v.fields|
    requires k < |Members(types, omits, t, v, n)|
    ensures Adds(types.nodes, t, n, Members(types, omits, t, v, n)[k].key, false)
    decreases v, 1, n
  {
    var before := Members(types, omits, t, v, n - 1);
    var key := Members(types, omits, t, v, n)[k].key;
    if k < |before| {
      MembersAreNamed(types, omits, t, v, n - 1, k);
    } else {
      MemberIsNamed(types, omits, t, v, n - 1, k - |before|);
    }
    AddsStep(types.nodes, t, n, key, false);
  }

  lemma {:induction false} MemberIsNamed(types: Types, omits: Omits, t: TypeId, v: GoValue, i: nat, k: nat)
    requires Closed(types.nodes) && Sealed(types) && HasType(types, t, v) && v.Record? && i < |v.fields|
    requires k < |Member(types, omits, t, v, i)|
    ensures AddsAt(types.nodes, t, i, Member(types, omits, t, v, i)[k].key, false)
    decreases v, 0, i
  {
    var f, w := types.nodes[t].fields[i], v.fields[i];
    var e := Embedded(types.nodes, f);
    if f.tagName != "-" && e.Some? {
      PromotedIsRecord(types, f, e.value, w);
      var x := Promoted(w);
      if x.Some? { MembersAreNamed(types, omits, e.value, x.value, |x.value.fields|, k); }
    }
  }

  /** Every entry is under a name that the first n fields add. */
  ghost predicate NamedBefore(g: map<TypeId, Node>, t: TypeId, n: nat, es: seq<Entry>) {
    forall k | 0 <= k < |es| :: Adds(g, t, n, es[k].key, false)
  }

  /** Every entry is under a name that field i adds. */
  ghost predicate NamedAt(g: map<TypeId, Node>, t: TypeId, i: nat, es: seq<Entry>)
    requires t in g && g[t].Struct? && i < |g[t].fields|
  {
    forall k | 0 <= k < |es| :: AddsAt(g, t, i, es[k].key, false)
  }

  /** Field i brings in no name that is there already. */
  ghost predicate BringsNew(g: map<TypeId, Node>, t: TypeId, i: nat)
    requires t in g && g[t].Struct? && i < |g[t].fields|
  {
    forall k | AddsAt(g, t, i, k, false) :: !Adds(g, t, i, k, false)
  }

  /** Entries of earlier fields and of this one do not meddle with each other. */
  lemma FitsStep(types: Types, rank: Rank, t: TypeId, i: nat, a: seq<Entry>, b: seq<Entry>)
    requires Wired(types, rank) && t in types.nodes && types.nodes[t].Struct? && i < |types.nodes[t].fields|
    requires NamedBefore(types.nodes, t, i, a) && NamedAt(types.nodes, t, i, b) && BringsNew(types.nodes, t, i)
    ensures Fits(types, rank, t, i + 1, a + b) <==> Fits(types, rank, t, i, a) && FitsAt(types, rank, t, i, b)
  {
    if Fits(types, rank, t, i + 1, a + b) {
      forall p, f | Route(types.nodes, t, p, f) && p.i < i ensures FitsField(types, rank, f, a) {
        OwnEntries(types, rank, t, i, a, b, p, f);
      }
      forall p, f | Route(types.nodes, t, p, f) && p.i == i ensures FitsField(types, rank, f, b) {
        OwnEntries(types, rank, t, i, a, b, p, f);
      }
    }
    if Fits(types, rank, t, i, a) && FitsAt(types, rank, t, i, b) {
      forall p, f | Route(types.nodes, t, p, f) && p.i < i + 1 ensures FitsField(types, rank, f, a + b) {
        OwnEntries(types, rank, t, i, a, b, p, f);
      }
    }
  }

  lemma OwnEntries(types: Types, rank: Rank, t: TypeId, i: nat, a: seq<Entry>, b: seq<Entry>, p: Way, f: Field)
    requires Wired(types, rank) && t in types.nodes && types.nodes[t].Struct? && i < |types.nodes[t].fields|
    requires NamedBefore(types.nodes, t, i, a) && NamedAt(types.nodes, t, i, b) && BringsNew(types.nodes, t, i)
    requires Route(types.nodes, t, p, f) && p.i <= i
    ensures FitsField(types, rank, f, a + b) <==> FitsField(types, rank, f, if p.i < i then a else b)
  {
    if p.i < i { EarlierNotHere(types.nodes, t, i, b, p, f); } else { HereNotEarlier(types.nodes, t, a, p, f); }
    FitsOnOneSide(types, rank, f, a, b);
  }

  lemma EarlierNotHere(g: map<TypeId, Node>, t: TypeId, i: nat, b: seq<Entry>, p: Way, f: Field)
    requires Route(g, t, p, f) && p.i < i < |g[t].fields| && NamedAt(g, t, i, b) && BringsNew(g, t, i)
    ensures !HasKey(b, JsonName(f))
  {
    assert AddsBy(g, t, i, JsonName(f), false, p, f);
  }

  lemma HereNotEarlier(g: map<TypeId, Node>, t: TypeId, a: seq<Entry>, p: Way, f: Field)
    requires Closed(g) && Route(g, t, p, f) && NamedBefore(g, t, p.i, a) && BringsNew(g, t, p.i)
    ensures !HasKey(a, JsonName(f))
  {
    RouteAddsAt(g, t, p, f, false);
  }

  /** Entries under other names do not matter to a field. */
  lemma FitsOnOneSide(types: Types, rank: Rank, f: Field, a: seq<Entry>, b: seq<Entry>)
    requires Wired(types, rank)
    ensures !HasKey(b, JsonName(f)) ==> (FitsField(types, rank, f, a + b) <==> FitsField(types, rank, f, a))
    ensures !HasKey(a, JsonName(f)) ==> (FitsField(types, rank, f, a + b) <==> FitsField(types, rank, f, b))
  {
    KeyInEither(a, b, JsonName(f));
    assert forall k | 0 <= k < |a| :: (a + b)[k] == a[k];
    assert forall k | 0 <= k < |b| :: (a + b)[|a| + k] == b[k];
  }

  /** Through an embedded field come exactly the fields of the struct behind it. */
  lemma FitsEmbedded(types: Types, rank: Rank, t: TypeId, i: nat, e: TypeId, es: seq<Entry>)
    requires Wired(types, rank) && t in types.nodes && types.nodes[t].Struct? && i < |types.nodes[t].fields|
    requires Promotes(types.nodes, types.nodes[t].fields[i], e)
    ensures FitsAt(types, rank, t, i, es) <==> Fits(types, rank, e, |types.nodes[e].fields|, es)
  {
    var g, n := types.nodes, |types.nodes[e].fields|;
    EmbeddedPromotes(g, g[t].fields[i], e);
    if FitsAt(types, rank, t, i, es) {
      forall p, f | Route(g, e, p, f) && p.i < n ensures FitsField(types, rank, f, es) {
        RouteGrows(g, t, i, e, p, f);
        assert Via(i, p).i == i;
      }
    }
    if Fits(types, rank, e, n, es) {
      forall p, f | Route(g, t, p, f) && p.i == i ensures FitsField(types, rank, f, es) {
        var s := RouteSplits(g, t, p, f);
        assert p.rest.i < n;
      }
    }
  }

  /** A field that is not serialized asks for nothing. */
  lemma FitsSkipped(types: Types, rank: Rank, t: TypeId, i: nat, es: seq<Entry>)
    requires Wired(types, rank) && t in types.nodes && types.nodes[t].Struct? && i < |types.nodes[t].fields|
    requires var f := types.nodes[t].fields[i];
             f.tagName == "-" || (Embedded(types.nodes, f).None? && !f.exported)
    ensures FitsAt(types, rank, t, i, es)
  {
    FieldTyped(types, rank, t, i);
    forall p, f | Route(types.nodes, t, p, f) ensures p.i != i {
      if p.i == i { var e := RouteSplits(types.nodes, t, p, f); }
    }
  }

  /** A field under its own name is reached in one way only. */
  lemma FitsDirect(types: Types, rank: Rank, t: TypeId, i: nat, es: seq<Entry>)
    requires Wired(types, rank) && t in types.nodes && types.nodes[t].Struct? && i < |types.nodes[t].fields|
    requires var f := types.nodes[t].fields[i];
             f.tagName != "-" && Embedded(types.nodes, f).None? && f.exported
    ensures var f := types.nodes[t].fields[i];
            FitsAt(types, rank, t, i, es) <==> FitsField(types, rank, f, es)
  {
    var g, f := types.nodes, types.nodes[t].fields[i];
    FieldTyped(types, rank, t, i);
    forall s ensures !Promotes(g, f, s) { EmbeddedPromotes(g, f, s); }
    assert Route(g, t, Own(i), f);
    forall p, x | Route(g, t, p, x) && p.i == i ensures x == f {
      var e := RouteSplits(g, t, p, x);
    }
  }

  // ---- The theorem ----

  /** A value is written as an admitted one exactly when it is sound. */
  lemma {:induction false} EncodingIsAdmittedExactlyWhen(
    types: Types, rank: Rank, omits: Omits, cs: seq<Entry>, seen: Visited, t: TypeId, v: GoValue)
    requires Wired(types, rank) && Sealed(types) && OmitsOptional(omits) && HasType(types, t, v)
    requires ValueSchema(types, rank, t).Some? && Complete(types, rank, cs, seen) && Known(types, rank, seen, t)
    ensures Admits(types, rank, t, Encode(types, omits, t, v)) <==> Sound(types, rank, omits, t, v)
    decreases v, 2, 0
  {
    ElementLeads(types, rank, t);
    match v
    case Ref(w) => EncodingIsAdmittedExactlyWhen(types, rank, omits, cs, seen, types.nodes[t].elem, w);
    case Items(vs) => ItemsAdmitted(types, rank, omits, cs, seen, t, v);
    case Dict(bs) => ValuesAdmitted(types, rank, omits, cs, seen, t, v);
    case Record(vs) =>
      if types.nodes[t].name != "" { assert HasComponent(types, rank, cs, seen, t); }
      FieldsAdmitted(types, rank, omits, cs, seen, t, v, |vs|, Fields([], []));
      RecordAdmitted(types, rank, omits, t, v);
    case _ =>
  }

  lemma {:induction false} ItemsAdmitted(
    types: Types, rank: Rank, omits: Omits, cs: seq<Entry>, seen: Visited, t: TypeId, v: GoValue)
    requires Wired(types, rank) && Sealed(types) && OmitsOptional(omits) && HasType(types, t, v) && v.Items?
    requires ValueSchema(types, rank, t).Some? && Complete(types, rank, cs, seen) && Known(types, rank, seen, t)
    ensures Admits(types, rank, t, Encode(types, omits, t, v)) <==> Sound(types, rank, omits, t, v)
    decreases v, 1, 0
  {
    ElementLeads(types, rank, t);
    var e, j := types.nodes[t].elem, Encode(types, omits, t, v);
    if !types.nodes[e].Uint8? {
      forall i | 0 <= i < |v.items|
        ensures Admits(types, rank, e, j.items[i]) <==> Sound(types, rank, omits, e, v.items[i])
      {
        EncodingIsAdmittedExactlyWhen(types, rank, omits, cs, seen, e, v.items[i]);
      }
    }
  }

  lemma {:induction false} ValuesAdmitted(
    types: Types, rank: Rank, omits: Omits, cs: seq<Entry>, seen: Visited, t: TypeId, v: GoValue)
    requires Wired(types, rank) && Sealed(types) && OmitsOptional(omits) && HasType(types, t, v) && v.Dict?
    requires ValueSchema(types, rank, t).Some? && Complete(types, rank, cs, seen) && Known(types, rank, seen, t)
    ensures Admits(types, rank, t, Encode(types, omits, t, v)) <==> Sound(types, rank, omits, t, v)
    decreases v, 1, 0
  {
    ElementLeads(types, rank, t);
    var e, j := types.nodes[t].elem, Encode(types, omits, t, v);
    forall i | 0 <= i < |v.bindings|
      ensures Admits(types, rank, e, j.entries[i].value) <==> Sound(types, rank, omits, e, v.bindings[i].value)
    {
      EncodingIsAdmittedExactlyWhen(types, rank, omits, cs, seen, e, v.bindings[i].value);
    }
  }

  lemma RecordAdmitted(types: Types, rank: Rank, omits: Omits, t: TypeId, v: GoValue)
    requires Wired(types, rank) && Sealed(types) && HasType(types, t, v) && v.Record?
    ensures Admits(types, rank, t, Encode(types, omits, t, v)) <==>
            Fits(types, rank, t, |v.fields|, Members(types, omits, t, v, |v.fields|))
  {
  }

  lemma {:induction false} FieldsAdmitted(
    types: Types, rank: Rank, omits: Omits, cs: seq<Entry>, seen: Visited, t: TypeId, v: GoValue, n: nat,
    start: Fields)
    requires Wired(types, rank) && Sealed(types) && OmitsOptional(omits) && HasType(types, t, v)
    requires v.Record? && n <= |v.fields|
    requires Complete(types, rank, cs, seen) && KnownFields(types, rank, seen, t, n)
    requires Collected(types, rank, t, n, start).Some?
    ensures Fits(types, rank, t, n, Members(types, omits, t, v, n)) <==> SoundFields(types, rank, omits, t, v, n)
    decreases v, 1, n
  {
    if n > 0 {
      CollectedBefore(types, rank, t, n, start);
      FieldsAdmitted(types, rank, omits, cs, seen, t, v, n - 1, start);
      FieldAdmitted(types, rank, omits, cs, seen, t, v, n, start);
      MembersFit(types, rank, omits, t, v, n, start);
    }
  }

  lemma MembersFit(types: Types, rank: Rank, omits: Omits, t: TypeId, v: GoValue, n: nat, start: Fields)
    requires Wired(types, rank) && Sealed(types) && HasType(types, t, v) && v.Record? && 0 < n <= |v.fields|
    requires Collected(types, rank, t, n, start).Some?
    ensures Fits(types, rank, t, n, Members(types, omits, t, v, n)) <==>
            && Fits(types, rank, t, n - 1, Members(types, omits, t, v, n - 1))
            && FitsAt(types, rank, t, n - 1, Member(types, omits, t, v, n - 1))
  {
    var a, b := Members(types, omits, t, v, n - 1), Member(types, omits, t, v, n - 1);
    forall k | 0 <= k < |a| ensures Adds(types.nodes, t, n - 1, a[k].key, false) {
      MembersAreNamed(types, omits, t, v, n - 1, k);
    }
    forall k | 0 <= k < |b| ensures AddsAt(types.nodes, t, n - 1, b[k].key, false) {
      MemberIsNamed(types, omits, t, v, n - 1, k);
    }
    var i := n - 1;
    forall k | AddsAt(types.nodes, t, i, k, false) ensures !Adds(types.nodes, t, i, k, false) {
      NamesDisjoint(types, rank, t, n, start, k);
    }
    FitsStep(types, rank, t, i, a, b);
  }

  lemma {:induction false} FieldAdmitted(
    types: Types, rank: Rank, omits: Omits, cs: seq<Entry>, seen: Visited, t: TypeId, v: GoValue, n: nat,
    start: Fields)
    requires Wired(types, rank) && Sealed(types) && OmitsOptional(omits) && HasType(types, t, v)
    requires v.Record? && 0 < n <= |v.fields|
    requires Complete(types, rank, cs, seen) && KnownFields(types, rank, seen, t, n)
    requires Collected(types, rank, t, n, start).Some?
    ensures FitsAt(types, rank, t, n - 1, Member(types, omits, t, v, n - 1)) <==>
            SoundField(types, rank, omits, t, v, n - 1)
    decreases v, 0, n
  {
    var i, es := n - 1, Member(types, omits, t, v, n - 1);
    var f, w := types.nodes[t].fields[i], v.fields[i];
    var e := Embedded(types.nodes, f);
    FieldLeads(types, rank, t, i);
    if f.tagName == "-" || (e.None? && !f.exported) {
      FitsSkipped(types, rank, t, i, es);
    } else if e.Some? {
      PromotedIsRecord(types, f, e.value, w);
      FitsEmbedded(types, rank, t, i, e.value, es);
      var x := Promoted(w);
      if x.Some? {
        var before := Collected(types, rank, t, i, start).value;
        FieldsAdmitted(types, rank, omits, cs, seen, e.value, x.value, |x.value.fields|, before);
      }
    } else {
      FitsDirect(types, rank, t, i, es);
      if !omits(f, w) {
        EncodingIsAdmittedExactlyWhen(types, rank, omits, cs, seen, f.typ, w);
        assert es[0].key == JsonName(f);
      }
    }
  }

  /**
   The encoding of a value meets the schema of its type, references resolved, exactly when the
   value is sound.
   */
  lemma EncodingMeetsSchemaExactlyWhen(
    types: Types, rank: Rank, omits: Omits, cs: seq<Entry>, seen: Visited, t: TypeId, v: GoValue)
    requires Wired(types, rank) && Sealed(types) && OmitsOptional(omits) && HasType(types, t, v)
    requires ValueSchema(types, rank, t).Some? && Complete(types, rank, cs, seen) && Known(types, rank, seen, t)
    ensures Meets(cs, Object(ValueSchema(types, rank, t).value), Encode(types, omits, t, v)) <==>
            Sound(types, rank, omits, t, v)
  {
    SchemaMeans(types, rank, cs, seen, t, Encode(types, omits, t, v));
    EncodingIsAdmittedExactlyWhen(types, rank, omits, cs, seen, t, v);
  }

  /** So it is for every schema the generator returns, with the components it leaves behind. */
  lemma GeneratedSchemasAreMetExactlyWhen(
    types: Types, rank: Rank, omits: Omits, st: Schema.State, t: TypeId, schema: Json, v: GoValue)
    requires Wired(types, rank) && Sealed(types) && OmitsOptional(omits) && HasType(types, t, v)
    requires Schema.StateOk(types, rank, st, {}) && Schema.Prescribed(types, rank, st, t, schema)
    ensures Meets(st.schemas, schema, Encode(types, omits, t, v)) <==> Sound(types, rank, omits, t, v)
  {
    Schema.ComponentsComplete(types, rank, st);
    EncodingMeetsSchemaExactlyWhen(types, rank, omits, st.schemas, Schema.SeenBy(st), t, v);
  }

  /** Whatever a pointer points to, null meets its schema. */
  lemma NilPointersMeet(types: Types, rank: Rank, cs: seq<Entry>, seen: Visited, t: TypeId, e: TypeId)
    requires Wired(types, rank) && PointerTo(types, t, e)
    requires ValueSchema(types, rank, t).Some? && Complete(types, rank, cs, seen) && Known(types, rank, seen, t)
    ensures Meets(cs, Object(ValueSchema(types, rank, t).value), Null)
  {
    SchemaMeans(types, rank, cs, seen, t, Null);
  }

  // ---- Where the schema says something else than the encoder ----

  /** A nil slice or map is written as null, which no array, map or byte string schema allows. */
  lemma NilSlicesFail(types: Types, rank: Rank, omits: Omits, cs: seq<Entry>, seen: Visited, t: TypeId)
    requires Wired(types, rank) && Sealed(types) && OmitsOptional(omits) && t in types.nodes && !Special(types, t)
    requires types.nodes[t].Slice? || types.nodes[t].Map?
    requires ValueSchema(types, rank, t).Some? && Complete(types, rank, cs, seen) && Known(types, rank, seen, t)
    ensures HasType(types, t, Nil) && Encode(types, omits, t, Nil) == Null
    ensures !Meets(cs, Object(ValueSchema(types, rank, t).value), Null)
  {
    EncodingMeetsSchemaExactlyWhen(types, rank, omits, cs, seen, t, Nil);
  }

  /** Only byte slices are written in base64; an array of bytes is a list of numbers and never meets its schema. */
  lemma ByteArraysFail(
    types: Types, rank: Rank, omits: Omits, cs: seq<Entry>, seen: Visited, t: TypeId, e: TypeId, v: GoValue)
    requires Wired(types, rank) && Sealed(types) && OmitsOptional(omits) && HasType(types, t, v) && !Special(types, t)
    requires types.nodes[t] == Array(e) && IsByte(types.nodes, e)
    requires ValueSchema(types, rank, t).Some? && Complete(types, rank, cs, seen) && Known(types, rank, seen, t)
    ensures Encode(types, omits, t, v).List?
    ensures !Meets(cs, Object(ValueSchema(types, rank, t).value), Encode(types, omits, t, v))
  {
    EncodingMeetsSchemaExactlyWhen(types, rank, omits, cs, seen, t, v);
  }

  /** Behind two pointers only null meets the schema of a typed value. */
  lemma TwoPointersFail(
    types: Types, rank: Rank, cs: seq<Entry>, seen: Visited, t: TypeId, e: TypeId, d: TypeId, j: Json)
    requires Wired(types, rank) && PointerTo(types, t, e) && PointerTo(types, e, d) && d in types.nodes
    requires TypedEnd(types, rank, d)
    requires ValueSchema(types, rank, t).Some? && Complete(types, rank, cs, seen) && Known(types, rank, seen, t)
    ensures Meets(cs, Object(ValueSchema(types, rank, t).value), j) <==> j.Null?
  {
    SchemaMeans(types, rank, cs, seen, t, j);
  }

  /** The fields behind a nil embedded pointer are not written, though the schema may require one. */
  lemma NilEmbeddingsFail(
    types: Types, rank: Rank, omits: Omits, cs: seq<Entry>, seen: Visited, t: TypeId, v: GoValue,
    i: nat, e: TypeId, p: Way, m: Field)
    requires Wired(types, rank) && Sealed(types) && OmitsOptional(omits) && HasType(types, t, v) && v.Record?
    requires i < |v.fields| && v.fields[i].Nil? && types.nodes[t].fields[i].tagName != "-"
    requires Embedded(types.nodes, types.nodes[t].fields[i]) == Some(e)
    requires Route(types.nodes, e, p, m) && !m.optional
    requires ValueSchema(types, rank, t).Some? && Complete(types, rank, cs, seen) && Known(types, rank, seen, t)
    ensures !Meets(cs, Object(ValueSchema(types, rank, t).value), Encode(types, omits, t, v))
  {
    EncodingMeetsSchemaExactlyWhen(types, rank, omits, cs, seen, t, v);
    assert !SoundField(types, rank, omits, t, v, i);
  }

  /** struct { Tags []string } */
  function Tags(): Types {
    Types(map[0 := Struct("", "p", "", [PlainField("Tags", 1, false)]), 1 := Slice(2), 2 := Str], 7, 8)
  }

  function TagsRank(): Rank {
    map[AsValue(0) := 3, AsFields(0) := 2, AsValue(1) := 1]
  }

  lemma TagsWired()
    ensures Wired(Tags(), TagsRank()) && Sealed(Tags())
    ensures HasType(Tags(), 0, Record([Nil])) && HasType(Tags(), 0, Record([Items([])]))
  {
    TagsRanked();
    TagsTyped();
  }

  lemma TagsRanked()
    ensures Wired(Tags(), TagsRank())
  {
    var g, rank := Tags().nodes, TagsRank();
    assert Embedded(g, g[0].fields[0]).None?;
    assert FieldVisit(g, g[0].fields[0]) == Some(AsValue(1));
    forall a, b | Leads(g, a, b) ensures Height(rank, b) < Height(rank, a) {
      assert b == (if a == AsValue(0) then AsFields(0) else if a == AsFields(0) then AsValue(1) else AsValue(2));
    }
  }

  lemma TagsTyped()
    ensures Sealed(Tags())
    ensures HasType(Tags(), 0, Record([Nil])) && HasType(Tags(), 0, Record([Items([])]))
  {
    var types := Tags();
    assert HasType(types, 1, Record([Nil]).fields[0]) && HasType(types, 1, Record([Items([])]).fields[0]);
  }

  lemma TagsSchema()
    ensures Wired(Tags(), TagsRank()) && ValueSchema(Tags(), TagsRank(), 0).Some?
    ensures Known(Tags(), TagsRank(), Visited({}, {}), 0)
  {
    TagsWired();
    var types, rank, none := Tags(), TagsRank(), Visited({}, {});
    FieldLeads(types, rank, 0, 0);
    assert ValueSchema(types, rank, 2) == Some(Scalar(Str));
    var list := Around("array", "items", Scalar(Str));
    assert ValueSchema(types, rank, 1) == Some(list);
    assert FieldSchema(types, rank, 0, 0) == Some(list);
    assert Collected(types, rank, 0, 0, Fields([], [])) == Some(Fields([], []));
    assert Collected(types, rank, 0, 1, Fields([], [])).Some?;
    assert Known(types, rank, none, 1);
    assert KnownFields(types, rank, none, 0, 0) && KnownFields(types, rank, none, 0, 1);
  }

  /** A struct whose list is nil is not what its schema says; with an empty list it is. */
  lemma NilListExample(omits: Omits)
    requires OmitsOptional(omits)
    ensures Wired(Tags(), TagsRank()) && Sealed(Tags()) && ValueSchema(Tags(), TagsRank(), 0).Some?
    ensures HasType(Tags(), 0, Record([Nil])) && HasType(Tags(), 0, Record([Items([])]))
    ensures var schema := Object(ValueSchema(Tags(), TagsRank(), 0).value);
            && !Meets([], schema, Encode(Tags(), omits, 0, Record([Nil])))
            && Meets([], schema, Encode(Tags(), omits, 0, Record([Items([])])))
  {
    TagsWired();
    TagsSchema();
    TagsSound(omits);
    EncodingMeetsSchemaExactlyWhen(Tags(), TagsRank(), omits, [], Visited({}, {}), 0, Record([Nil]));
    EncodingMeetsSchemaExactlyWhen(Tags(), TagsRank(), omits, [], Visited({}, {}), 0, Record([Items([])]));
  }

  lemma TagsSound(omits: Omits)
    requires OmitsOptional(omits)
    ensures Wired(Tags(), TagsRank()) && Sealed(Tags())
    ensures HasType(Tags(), 0, Record([Nil])) && HasType(Tags(), 0, Record([Items([])]))
    ensures !Sound(Tags(), TagsRank(), omits, 0, Record([Nil]))
    ensures Sound(Tags(), TagsRank(), omits, 0, Record([Items([])]))
  {
    TagsWired();
    var types, rank, none, empty := Tags(), TagsRank(), Record([Nil]), Record([Items([])]);
    assert Sound(types, rank, omits, 1, empty.fields[0]) && !Sound(types, rank, omits, 1, none.fields[0]);
    assert SoundField(types, rank, omits, 0, empty, 0) && !SoundField(types, rank, omits, 0, none, 0);
    assert SoundFields(types, rank, omits, 0, empty, 0) && SoundFields(types, rank, omits, 0, empty, 1);
    assert !SoundFields(types, rank, omits, 0, none, 1);
  }
}
