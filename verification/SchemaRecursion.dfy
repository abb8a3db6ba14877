/**
 When the schema generator's recursion ends. Named structs are cut off at a $ref, so only
 calls that never enter a named struct as a value can go on for ever.
 */
module SchemaRecursion {
  import opened Prelude
  import opened TypeGraph

  /** A call of the generator: the schema of a type, or the fields of a struct. */
  datatype Visit = AsValue(t: TypeId) | AsFields(t: TypeId)

  /** The struct whose fields are promoted through an untagged embedded field. */
  function Embedded(g: map<TypeId, Node>, f: Field): Option<TypeId> {
    if !(f.anonymous && f.tagName == "") || f.typ !in g then None
    else
      var e := if g[f.typ].Pointer? then g[f.typ].elem else f.typ;
      if e in g && g[e].Struct? then Some(e) else None
  }

  /** What a field makes the generator visit. */
  function FieldVisit(g: map<TypeId, Node>, f: Field): Option<Visit> {
    if f.tagName == "-" then None
    else
      var e := Embedded(g, f);
      if e.Some? then Some(AsFields(e.value)) else if f.exported then Some(AsValue(f.typ)) else None
  }

  predicate IsByte(g: map<TypeId, Node>, t: TypeId) {
    t in g && g[t].Uint8?
  }

  /** The visits a visit leads to before any further type gets its component name. */
  predicate Leads(g: map<TypeId, Node>, a: Visit, b: Visit) {
    a.t in g && b.t in g &&
    match a
    case AsValue(t) =>
      (match g[t]
       case Pointer(e) => b == AsValue(e)
       case Slice(e) => !IsByte(g, e) && b == AsValue(e)
       case Array(e) => !IsByte(g, e) && b == AsValue(e)
       case Map(k, e) => k in g && g[k].Str? && b == AsValue(e)
       case Struct(name, _, _, _) => name == "" && b == AsFields(t)
       case _ => false)
    case AsFields(t) =>
      g[t].Struct? && exists i :: 0 <= i < |g[t].fields| && FieldVisit(g, g[t].fields[i]) == Some(b)
  }

  /** A number for every visit; 0 where none is given. */
  type Rank = map<Visit, nat>

  function Height(rank: Rank, v: Visit): nat {
    if v in rank then rank[v] else 0
  }

  /** Every visit outranks those it leads to. */
  ghost predicate Ranked(g: map<TypeId, Node>, rank: Rank) {
    forall a, b {:trigger Leads(g, a, b)} | Leads(g, a, b) :: Height(rank, b) < Height(rank, a)
  }

  // ---- A rank exists exactly when there is no cycle ----

  predicate Trail(g: map<TypeId, Node>, p: seq<Visit>) {
    |p| > 0 && forall i | 0 <= i < |p| - 1 :: Leads(g, p[i], p[i + 1])
  }

  ghost predicate Acyclic(g: map<TypeId, Node>) {
    forall p | Trail(g, p) && |p| > 1 :: p[0] != p[|p| - 1]
  }

  lemma {:induction false} RanksFallAlongTrails(g: map<TypeId, Node>, rank: Rank, p: seq<Visit>)
    requires Ranked(g, rank) && Trail(g, p) && |p| > 1
    ensures Height(rank, p[|p| - 1]) < Height(rank, p[0])
  {
    if |p| == 2 {
    } else {
      RanksFallAlongTrails(g, rank, p[..|p| - 1]);
    }
    assert Leads(g, p[|p| - 2], p[|p| - 1]);
  }

  /** All visits that could ever occur. */
  ghost function Visits(g: map<TypeId, Node>): set<Visit> {
    (set t | t in g :: AsValue(t)) + (set t | t in g :: AsFields(t))
  }

  ghost predicate Later(g: map<TypeId, Node>, a: Visit, b: Visit) {
    exists p :: Trail(g, p) && |p| > 1 && p[0] == a && p[|p| - 1] == b
  }

  ghost function Laters(g: map<TypeId, Node>, a: Visit): set<Visit> {
    set b | b in Visits(g) && Later(g, a, b)
  }

  lemma LatersShrink(g: map<TypeId, Node>, a: Visit, b: Visit)
    requires Acyclic(g) && Leads(g, a, b)
    ensures |Laters(g, b)| < |Laters(g, a)|
  {
    assert Trail(g, [a, b]);
    assert b in Visits(g) && Later(g, a, b);
    assert b !in Laters(g, b);
    forall c | c in Laters(g, b) ensures c in Laters(g, a) {
      var p :| Trail(g, p) && |p| > 1 && p[0] == b && p[|p| - 1] == c;
      var q := [a] + p;
      assert forall i | 0 <= i < |q| - 1 :: Leads(g, q[i], q[i + 1]) by {
        forall i | 0 <= i < |q| - 1 ensures Leads(g, q[i], q[i + 1]) {
          if i > 0 { assert q[i] == p[i - 1] && q[i + 1] == p[i]; }
        }
      }
      assert Trail(g, q) && q[0] == a && q[|q| - 1] == c;
    }
    var x, y := Laters(g, b) + {b}, Laters(g, a);
    assert x <= y;
    assert y == x + (y - x);
  }

  /**
   The recursion has a rank exactly when no cycle of types avoids entering a named struct as
   a value, that is, through anything but promotion of its fields.
   */
  lemma RankedExactlyWhenAcyclic(g: map<TypeId, Node>)
    ensures (exists rank: Rank :: Ranked(g, rank)) <==> Acyclic(g)
  {
    if rank: Rank :| Ranked(g, rank) {
      forall p | Trail(g, p) && |p| > 1 ensures p[0] != p[|p| - 1] {
        RanksFallAlongTrails(g, rank, p);
      }
    }
    if Acyclic(g) {
      var rank: Rank := map a | a in Visits(g) :: |Laters(g, a)|;
      forall a, b | Leads(g, a, b) ensures Height(rank, b) < Height(rank, a) {
        LatersShrink(g, a, b);
      }
      assert Ranked(g, rank);
    }
  }

  // ---- Which recursions finish ----

  /** The visit and everything it leads to is over within depth n. */
  ghost predicate Finishes(g: map<TypeId, Node>, v: Visit, n: nat)
    decreases n
  {
    n > 0 && forall b | Leads(g, v, b) :: Finishes(g, b, n - 1)
  }

  lemma {:induction false} RankedFinishes(g: map<TypeId, Node>, rank: Rank, v: Visit, n: nat)
    requires Ranked(g, rank) && n > Height(rank, v)
    ensures Finishes(g, v, n)
    decreases n
  {
    forall b | Leads(g, v, b) ensures Finishes(g, b, n - 1) {
      RankedFinishes(g, rank, b, n - 1);
    }
  }

  lemma {:induction false} CyclesNeverFinish(g: map<TypeId, Node>, p: seq<Visit>, i: nat, n: nat)
    requires Trail(g, p) && |p| > 1 && p[0] == p[|p| - 1] && i < |p| - 1
    ensures !Finishes(g, p[i], n)
    decreases n
  {
    if n == 0 {
    } else {
      assert Leads(g, p[i], p[i + 1]);
      CyclesNeverFinish(g, p, if i + 1 == |p| - 1 then 0 else i + 1, n - 1);
    }
  }

  ghost predicate Ends(g: map<TypeId, Node>, v: Visit) {
    exists n: nat :: Finishes(g, v, n)
  }

  /** Every visit ends exactly when no cycle of types avoids entering a named struct as a value. */
  lemma EndsExactlyWhenAcyclic(g: map<TypeId, Node>)
    ensures (forall v :: Ends(g, v)) <==> Acyclic(g)
  {
    RankedExactlyWhenAcyclic(g);
    if Acyclic(g) {
      var rank: Rank :| Ranked(g, rank);
      forall v ensures Ends(g, v) {
        RankedFinishes(g, rank, v, Height(rank, v) + 1);
      }
    }
    if forall v :: Ends(g, v) {
      forall p | Trail(g, p) && |p| > 1 ensures p[0] != p[|p| - 1] {
        if p[0] == p[|p| - 1] {
          assert Ends(g, p[0]);
          var n: nat :| Finishes(g, p[0], n);
          CyclesNeverFinish(g, p, 0, n);
        }
      }
    }
  }

  // ---- A named struct on the cycle is not enough ----

  function PlainField(name: string, t: TypeId, anonymous: bool): Field {
    Field(name, t, "", false, anonymous, true, "", None)
  }

  /** type B struct { F *struct{ B } }: an ordinary field leads out of the named B, promotion leads back in. */
  function PromotedBack(): map<TypeId, Node> {
    map[0 := Struct("B", "p", "", [PlainField("F", 1, false)]),
        1 := Pointer(2),
        2 := Struct("", "p", "", [PlainField("B", 0, true)])]
  }

  /** type N struct { Next *N }: the cycle enters N as a value. */
  function LinkedList(): map<TypeId, Node> {
    map[0 := Struct("N", "p", "", [PlainField("Next", 1, false)]),
        1 := Pointer(0)]
  }

  /** The k-th visit on the way round: B's fields, the pointer, the unnamed struct, its fields, and again. */
  function RoundTrip(k: nat): Visit {
    if k % 4 == 0 then AsFields(0)
    else if k % 4 == 1 then AsValue(1)
    else if k % 4 == 2 then AsValue(2)
    else AsFields(2)
  }

  /** Each visit on the way leads to the next one and to no other: the generator has no choice. */
  lemma PromotedBackIsForced(k: nat, b: Visit)
    ensures Leads(PromotedBack(), RoundTrip(k), b) <==> b == RoundTrip(k + 1)
  {
    var g := PromotedBack();
    assert FieldVisit(g, g[0].fields[0]) == Some(AsValue(1));
    assert FieldVisit(g, g[2].fields[0]) == Some(AsFields(0));
    assert (k + 1) % 4 == if k % 4 == 3 then 0 else k % 4 + 1;
  }

  function RoundTrips(n: nat): (p: seq<Visit>)
    ensures |p| == n + 1 && forall k | 0 <= k <= n :: p[k] == RoundTrip(k)
  {
    seq(n + 1, k requires 0 <= k => RoundTrip(k))
  }

  lemma RoundTripsAreTrails(n: nat)
    ensures Trail(PromotedBack(), RoundTrips(n))
  {
    var p := RoundTrips(n);
    forall i | 0 <= i < |p| - 1 ensures Leads(PromotedBack(), p[i], p[i + 1]) {
      PromotedBackIsForced(i, RoundTrip(i + 1));
    }
  }

  /** The cycle runs through the named struct B, and yet the condition fails. */
  lemma PromotedBackIsCyclic()
    ensures Closed(PromotedBack()) && !Acyclic(PromotedBack())
  {
    RoundTripsAreTrails(4);
    assert RoundTrips(4)[0] == RoundTrips(4)[4];
  }

  /**
   However deep the recursion is allowed to go, generating B's fields does not finish; for
   every n it comes back to them n times on a chain of calls in which no call has an alternative.
   */
  lemma PromotedBackNeverEnds(n: nat)
    ensures !Finishes(PromotedBack(), AsFields(0), n)
    ensures Trail(PromotedBack(), RoundTrips(4 * n))
    ensures forall i | 0 <= i <= n :: RoundTrips(4 * n)[4 * i] == AsFields(0)
    ensures forall k: nat, b :: Leads(PromotedBack(), RoundTrip(k), b) ==> b == RoundTrip(k + 1)
  {
    RoundTripsNeverFinish(0, n);
    RoundTripsAreTrails(4 * n);
    forall i | 0 <= i <= n ensures RoundTrips(4 * n)[4 * i] == AsFields(0) {
      assert RoundTrips(4 * n)[4 * i] == RoundTrip(4 * i);
    }
    forall k: nat, b ensures Leads(PromotedBack(), RoundTrip(k), b) ==> b == RoundTrip(k + 1) {
      PromotedBackIsForced(k, b);
    }
  }

  lemma {:induction false} RoundTripsNeverFinish(k: nat, n: nat)
    ensures !Finishes(PromotedBack(), RoundTrip(k), n)
    decreases n
  {
    if n == 0 {
    } else {
      PromotedBackIsForced(k, RoundTrip(k + 1));
      RoundTripsNeverFinish(k + 1, n - 1);
    }
  }

  lemma LinkedListEnds()
    ensures Closed(LinkedList()) && Acyclic(LinkedList())
  {
    var g := LinkedList();
    var rank: Rank := map[AsFields(0) := 2, AsValue(1) := 1];
    assert Ranked(g, rank);
    RankedExactlyWhenAcyclic(g);
  }
}
