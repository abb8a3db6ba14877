/**
 The serialized fields of a struct, read off the type graph: its own, and those promoted along a
 chain of embedded structs. What the generator collects is compared with them.
 */
module SchemaFields {
  import opened Prelude
  import opened OrderedMaps
  import opened TypeGraph
  import opened SchemaRecursion
  import opened SchemaSpec

  // ---- The serialized fields of a struct ----

  /** The field embeds struct s, by value or by pointer, without a JSON name of its own. */
  predicate Promotes(g: map<TypeId, Node>, f: Field, s: TypeId) {
    && f.anonymous && f.tagName == "" && s in g && g[s].Struct?
    && f.typ in g && (f.typ == s || g[f.typ] == Pointer(s))
  }

  /** The field stands in the JSON object under its own name. */
  ghost predicate Direct(g: map<TypeId, Node>, f: Field) {
    f.exported && f.tagName != "-" && forall s :: !Promotes(g, f, s)
  }

  /** A way to a field: the index of the field itself, or of an embedded field and a way on from there. */
  datatype Way = Own(i: nat) | Via(i: nat, rest: Way)

  /** p leads from struct t through embedded structs to the serialized field f. */
  ghost predicate Route(g: map<TypeId, Node>, t: TypeId, p: Way, f: Field)
    decreases p
  {
    && t in g && g[t].Struct? && p.i < |g[t].fields|
    && match p
       case Own(i) => g[t].fields[i] == f && Direct(g, f)
       case Via(i, rest) => exists s :: Promotes(g, g[t].fields[i], s) && Route(g, s, rest, f)
  }

  /** The name encoding/json gives the field. */
  function JsonName(f: Field): string {
    if f.tagName != "" then f.tagName else f.name
  }

  /** Among the first n fields of t is one, own or promoted, of this name; a mandatory one if asked for. */
  ghost predicate Adds(g: map<TypeId, Node>, t: TypeId, n: nat, k: string, mandatory: bool) {
    exists p, f :: AddsBy(g, t, n, k, mandatory, p, f)
  }

  ghost predicate AddsBy(
    g: map<TypeId, Node>, t: TypeId, n: nat, k: string, mandatory: bool, p: Way, f: Field)
  {
    Route(g, t, p, f) && p.i < n && JsonName(f) == k && (mandatory ==> !f.optional)
  }

  lemma EmbeddedPromotes(g: map<TypeId, Node>, f: Field, s: TypeId)
    requires f.typ in g
    ensures Embedded(g, f) == Some(s) <==> Promotes(g, f, s)
  {
  }

  /** What field i of t adds by itself. */
  ghost predicate AddsAt(g: map<TypeId, Node>, t: TypeId, i: nat, k: string, mandatory: bool)
    requires t in g && g[t].Struct? && i < |g[t].fields|
  {
    var f := g[t].fields[i];
    if f.tagName == "-" then false
    else if Embedded(g, f).Some? then
      var e := Embedded(g, f).value;
      e in g && g[e].Struct? && Adds(g, e, |g[e].fields|, k, mandatory)
    else f.exported && JsonName(f) == k && (mandatory ==> !f.optional)
  }

  lemma RouteGrows(g: map<TypeId, Node>, t: TypeId, i: nat, e: TypeId, p: Way, f: Field)
    requires t in g && g[t].Struct? && i < |g[t].fields| && Promotes(g, g[t].fields[i], e) && Route(g, e, p, f)
    ensures Route(g, t, Via(i, p), f)
  {
  }

  lemma RouteSplits(g: map<TypeId, Node>, t: TypeId, p: Way, f: Field) returns (e: Option<TypeId>)
    requires Route(g, t, p, f) && g[t].fields[p.i].typ in g
    ensures e == Embedded(g, g[t].fields[p.i])
    ensures e.None? ==> p.Own? && f == g[t].fields[p.i] && Direct(g, f)
    ensures e.Some? ==> p.Via? && Promotes(g, g[t].fields[p.i], e.value) && Route(g, e.value, p.rest, f)
  {
    var step := g[t].fields[p.i];
    e := Embedded(g, step);
    if e.Some? { EmbeddedPromotes(g, step, e.value); }
    if p.Via? {
      var s :| Promotes(g, step, s) && Route(g, s, p.rest, f);
      EmbeddedPromotes(g, step, s);
    }
  }

  /** A field on a route is added at the first index of the route. */
  lemma RouteAddsAt(g: map<TypeId, Node>, t: TypeId, p: Way, f: Field, mandatory: bool)
    requires Closed(g) && Route(g, t, p, f) && (mandatory ==> !f.optional)
    ensures AddsAt(g, t, p.i, JsonName(f), mandatory)
  {
    assert AllIn(Children(g[t]), g.Keys) && Children(g[t])[p.i] == g[t].fields[p.i].typ;
    var e := RouteSplits(g, t, p, f);
    if e.Some? {
      RouteAdds(g, e.value, p.rest, f, mandatory);
    }
  }

  lemma RouteAdds(g: map<TypeId, Node>, t: TypeId, p: Way, f: Field, mandatory: bool)
    requires Route(g, t, p, f) && (mandatory ==> !f.optional)
    ensures t in g && g[t].Struct? && Adds(g, t, |g[t].fields|, JsonName(f), mandatory)
  {
    assert AddsBy(g, t, |g[t].fields|, JsonName(f), mandatory, p, f);
  }

  lemma AddedEarlierOrHere(g: map<TypeId, Node>, t: TypeId, n: nat, k: string, mandatory: bool)
    requires Closed(g) && t in g && g[t].Struct? && 0 < n <= |g[t].fields| && Adds(g, t, n, k, mandatory)
    ensures Adds(g, t, n - 1, k, mandatory) || AddsAt(g, t, n - 1, k, mandatory)
  {
    var p, f :| AddsBy(g, t, n, k, mandatory, p, f);
    if p.i == n - 1 {
      RouteAddsAt(g, t, p, f, mandatory);
    } else {
      assert AddsBy(g, t, n - 1, k, mandatory, p, f);
    }
  }

  lemma AddedHere(g: map<TypeId, Node>, t: TypeId, i: nat, k: string, mandatory: bool)
    requires Closed(g) && t in g && g[t].Struct? && i < |g[t].fields| && AddsAt(g, t, i, k, mandatory)
    ensures Adds(g, t, i + 1, k, mandatory)
  {
    var last := g[t].fields[i];
    assert AllIn(Children(g[t]), g.Keys) && Children(g[t])[i] == last.typ;
    var e := Embedded(g, last);
    if e.Some? {
      EmbeddedPromotes(g, last, e.value);
      var p, f :| AddsBy(g, e.value, |g[e.value].fields|, k, mandatory, p, f);
      RouteGrows(g, t, i, e.value, p, f);
      assert AddsBy(g, t, i + 1, k, mandatory, Via(i, p), f);
    } else {
      forall s ensures !Promotes(g, last, s) { EmbeddedPromotes(g, last, s); }
      assert AddsBy(g, t, i + 1, k, mandatory, Own(i), last);
    }
  }

  lemma AddsStep(g: map<TypeId, Node>, t: TypeId, n: nat, k: string, mandatory: bool)
    requires Closed(g) && t in g && g[t].Struct? && 0 < n <= |g[t].fields|
    ensures Adds(g, t, n, k, mandatory) <==> Adds(g, t, n - 1, k, mandatory) || AddsAt(g, t, n - 1, k, mandatory)
  {
    if Adds(g, t, n, k, mandatory) { AddedEarlierOrHere(g, t, n, k, mandatory); }
    if AddsAt(g, t, n - 1, k, mandatory) { AddedHere(g, t, n - 1, k, mandatory); }
    if Adds(g, t, n - 1, k, mandatory) {
      var p, f :| AddsBy(g, t, n - 1, k, mandatory, p, f);
      assert AddsBy(g, t, n, k, mandatory, p, f);
    }
  }

  // ---- What the generator collects ----

  /** The schema of a field: its type's, documented and tagged. */
  ghost function SchemaOf(types: Types, rank: Rank, f: Field): Option<seq<Entry>>
    requires Wired(types, rank) && f.typ in types.nodes
  {
    var schema := ValueSchema(types, rank, f.typ);
    if schema.None? then None else Tagged(Documented(schema.value, f.doc), f.tag)
  }

  lemma FieldTyped(types: Types, rank: Rank, t: TypeId, i: nat)
    requires Wired(types, rank) && t in types.nodes && types.nodes[t].Struct? && i < |types.nodes[t].fields|
    ensures types.nodes[t].fields[i].typ in types.nodes
  {
    FieldLeads(types, rank, t, i);
  }

  lemma WithPropertyMeans(fields: Fields, f: Field, schema: seq<Entry>, k: string)
    requires WithProperty(fields, f, schema).Some?
    ensures var r := WithProperty(fields, f, schema).value;
            && !HasKey(fields.properties, JsonName(f))
            && Get(r.properties, k) == (if k == JsonName(f) then Some(Object(schema)) else Get(fields.properties, k))
            && (k in r.required <==> k in fields.required || (k == JsonName(f) && !f.optional))
  {
    GetSet(fields.properties, JsonName(f), Object(schema), k);
  }

  /** From `start` to `r` the name k came in exactly if `named`, and as a required one exactly if `mandatory`. */
  predicate Grew(start: Fields, r: Fields, k: string, named: bool, mandatory: bool) {
    && (HasKey(r.properties, k) <==> HasKey(start.properties, k) || named)
    && (k in r.required <==> k in start.required || mandatory)
    && (HasKey(start.properties, k) ==> Get(r.properties, k) == Get(start.properties, k))
  }

  /**
   The property names are exactly the JSON names of the own and promoted serialized fields, and
   the required ones exactly those of fields that cannot be omitted.
   */
  lemma {:induction false} CollectedMeans(types: Types, rank: Rank, t: TypeId, n: nat, start: Fields, k: string)
    requires Wired(types, rank) && t in types.nodes && types.nodes[t].Struct? && n <= |types.nodes[t].fields|
    requires Collected(types, rank, t, n, start).Some?
    ensures Grew(start, Collected(types, rank, t, n, start).value, k,
                 Adds(types.nodes, t, n, k, false), Adds(types.nodes, t, n, k, true))
    decreases Height(rank, AsFields(t)), n, 1
  {
    if n > 0 {
      CollectedBefore(types, rank, t, n, start);
      CollectedMeans(types, rank, t, n - 1, start, k);
      FieldBrings(types, rank, t, n, start, k);
      AddsStep(types.nodes, t, n, k, false);
      AddsStep(types.nodes, t, n, k, true);
    }
  }

  /** One field brings in its own name, or the names promoted through it. */
  lemma {:induction false} FieldBrings(types: Types, rank: Rank, t: TypeId, n: nat, start: Fields, k: string)
    requires Wired(types, rank) && t in types.nodes && types.nodes[t].Struct? && 0 < n <= |types.nodes[t].fields|
    requires Collected(types, rank, t, n - 1, start).Some? && Collected(types, rank, t, n, start).Some?
    ensures Grew(Collected(types, rank, t, n - 1, start).value, Collected(types, rank, t, n, start).value, k,
                 AddsAt(types.nodes, t, n - 1, k, false), AddsAt(types.nodes, t, n - 1, k, true))
    decreases Height(rank, AsFields(t)), n, 0
  {
    var g, f := types.nodes, types.nodes[t].fields[n - 1];
    FieldLeads(types, rank, t, n - 1);
    var before, e := Collected(types, rank, t, n - 1, start).value, Embedded(g, f);
    if f.tagName != "-" {
      if e.Some? {
        CollectedMeans(types, rank, e.value, |g[e.value].fields|, before, k);
      } else if f.exported {
        WithPropertyMeans(before, f, FieldSchema(types, rank, t, n - 1).value, k);
      }
    }
  }

  lemma CollectedBefore(types: Types, rank: Rank, t: TypeId, n: nat, start: Fields)
    requires Wired(types, rank) && t in types.nodes && types.nodes[t].Struct? && 0 < n <= |types.nodes[t].fields|
    requires Collected(types, rank, t, n, start).Some?
    ensures Collected(types, rank, t, n - 1, start).Some?
  {
  }

  /** And each property carries the schema of its field. */
  ghost predicate Carries(types: Types, rank: Rank, fields: Fields, f: Field)
    requires Wired(types, rank)
  {
    && f.typ in types.nodes && SchemaOf(types, rank, f).Some?
    && Get(fields.properties, JsonName(f)) == Some(Object(SchemaOf(types, rank, f).value))
  }

  lemma {:induction false} CollectedSchemas(
    types: Types, rank: Rank, t: TypeId, n: nat, start: Fields, p: Way, f: Field)
    requires Wired(types, rank) && t in types.nodes && types.nodes[t].Struct? && n <= |types.nodes[t].fields|
    requires Collected(types, rank, t, n, start).Some? && Route(types.nodes, t, p, f) && p.i < n
    ensures Carries(types, rank, Collected(types, rank, t, n, start).value, f)
    ensures !HasKey(start.properties, JsonName(f))
    decreases Height(rank, AsFields(t)), n, 1
  {
    if p.i == n - 1 {
      CollectedLast(types, rank, t, n, start, p, f);
    } else {
      CollectedBefore(types, rank, t, n, start);
      CollectedSchemas(types, rank, t, n - 1, start, p, f);
      CarriedOn(types, rank, t, n, start, f);
    }
  }

  lemma CarriedOn(types: Types, rank: Rank, t: TypeId, n: nat, start: Fields, f: Field)
    requires Wired(types, rank) && t in types.nodes && types.nodes[t].Struct? && 0 < n <= |types.nodes[t].fields|
    requires Collected(types, rank, t, n - 1, start).Some? && Collected(types, rank, t, n, start).Some?
    requires Carries(types, rank, Collected(types, rank, t, n - 1, start).value, f)
    ensures Carries(types, rank, Collected(types, rank, t, n, start).value, f)
  {
    FieldBrings(types, rank, t, n, start, JsonName(f));
  }

  lemma {:induction false} CollectedLast(
    types: Types, rank: Rank, t: TypeId, n: nat, start: Fields, p: Way, f: Field)
    requires Wired(types, rank) && t in types.nodes && types.nodes[t].Struct? && n <= |types.nodes[t].fields|
    requires Collected(types, rank, t, n, start).Some? && Route(types.nodes, t, p, f) && p.i == n - 1
    ensures Carries(types, rank, Collected(types, rank, t, n, start).value, f)
    ensures !HasKey(start.properties, JsonName(f))
    decreases Height(rank, AsFields(t)), n, 0
  {
    CollectedBefore(types, rank, t, n, start);
    CollectedMeans(types, rank, t, n - 1, start, JsonName(f));
    FieldTyped(types, rank, t, n - 1);
    var e := RouteSplits(types.nodes, t, p, f);
    if e.Some? {
      CollectedThrough(types, rank, t, n, start, e.value);
      var before := Collected(types, rank, t, n - 1, start).value;
      CollectedSchemas(types, rank, e.value, |types.nodes[e.value].fields|, before, p.rest, f);
    } else {
      CollectedDirectly(types, rank, t, n, start);
    }
  }

  lemma CollectedThrough(types: Types, rank: Rank, t: TypeId, n: nat, start: Fields, e: TypeId)
    requires Wired(types, rank) && t in types.nodes && types.nodes[t].Struct? && 0 < n <= |types.nodes[t].fields|
    requires Collected(types, rank, t, n - 1, start).Some? && Promotes(types.nodes, types.nodes[t].fields[n - 1], e)
    ensures Height(rank, AsFields(e)) < Height(rank, AsFields(t))
    ensures Collected(types, rank, t, n, start) ==
            Collected(types, rank, e, |types.nodes[e].fields|, Collected(types, rank, t, n - 1, start).value)
  {
    FieldLeads(types, rank, t, n - 1);
    EmbeddedPromotes(types.nodes, types.nodes[t].fields[n - 1], e);
  }

  lemma CollectedDirectly(types: Types, rank: Rank, t: TypeId, n: nat, start: Fields)
    requires Wired(types, rank) && t in types.nodes && types.nodes[t].Struct? && 0 < n <= |types.nodes[t].fields|
    requires Collected(types, rank, t, n - 1, start).Some? && Collected(types, rank, t, n, start).Some?
    requires Direct(types.nodes, types.nodes[t].fields[n - 1])
    ensures Carries(types, rank, Collected(types, rank, t, n, start).value, types.nodes[t].fields[n - 1])
    ensures !HasKey(Collected(types, rank, t, n - 1, start).value.properties, JsonName(types.nodes[t].fields[n - 1]))
  {
    var f := types.nodes[t].fields[n - 1];
    FieldLeads(types, rank, t, n - 1);
    if Embedded(types.nodes, f).Some? { EmbeddedPromotes(types.nodes, f, Embedded(types.nodes, f).value); }
    var before := Collected(types, rank, t, n - 1, start).value;
    WithPropertyMeans(before, f, FieldSchema(types, rank, t, n - 1).value, JsonName(f));
  }
}
