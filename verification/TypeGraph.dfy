/** The reflected type graph of the API contract and the walk that collects its packages. */
module TypeGraph {
  import opened Prelude

  type TypeId = nat

  /** A directive of an openapi tag; an example comes with what strconv makes of its text. */
  datatype Directive =
    | Format(v: string)
    | Enum(vs: seq<string>)
    | Example(raw: string, asInt: Option<int>, asFloat: Option<string>, asBool: Option<bool>)
    | Mark(name: string)
    | Bad

  datatype Field = Field(
    name: string, typ: TypeId, tagName: string, optional: bool,
    anonymous: bool, exported: bool, doc: string, tag: Option<seq<Directive>>)

  /** A type by its reflect.Kind; struct and element types are other nodes. */
  datatype Node =
    | Pointer(elem: TypeId)
    | Slice(elem: TypeId)
    | Array(elem: TypeId)
    | Map(key: TypeId, elem: TypeId)
    | Struct(name: string, pkg: string, doc: string, fields: seq<Field>)
    | Str
    | Bool
    | WideInt
    | NarrowInt
    | Uint8
    | Float
    | Interface
    | Unsupported

  /** All types, with the two that the generator treats specially. */
  datatype Types = Types(nodes: map<TypeId, Node>, timeType: TypeId, rawMessageType: TypeId)

  /** The types a type is made of, in the order the walk visits them. */
  function Children(n: Node): seq<TypeId> {
    match n
    case Pointer(e) => [e]
    case Slice(e) => [e]
    case Array(e) => [e]
    case Map(k, e) => [k, e]
    case Struct(_, _, _, fields) => seq(|fields|, i requires 0 <= i < |fields| => fields[i].typ)
    case _ => []
  }

  predicate AllIn(ts: seq<TypeId>, s: set<TypeId>) {
    forall i | 0 <= i < |ts| :: ts[i] in s
  }

  predicate Closed(g: map<TypeId, Node>) {
    forall t | t in g :: AllIn(Children(g[t]), g.Keys)
  }

  // ---- Reachability ----

  predicate Path(g: map<TypeId, Node>, p: seq<TypeId>) {
    |p| > 0 && (forall i | 0 <= i < |p| :: p[i] in g) && (forall i | 0 <= i < |p| - 1 :: p[i + 1] in Children(g[p[i]]))
  }

  ghost predicate Reachable(g: map<TypeId, Node>, roots: set<TypeId>, t: TypeId) {
    exists p :: Path(g, p) && p[0] in roots && p[|p| - 1] == t
  }

  ghost function Reach(g: map<TypeId, Node>, roots: set<TypeId>): set<TypeId> {
    set t | t in g && Reachable(g, roots, t)
  }

  /** A set that contains the children of its members, except perhaps of those still being walked. */
  predicate ClosedBut(g: map<TypeId, Node>, s: set<TypeId>, open: set<TypeId>) {
    s <= g.Keys && forall t | t in s && t !in open :: AllIn(Children(g[t]), s)
  }

  lemma ReachIsClosed(g: map<TypeId, Node>, roots: set<TypeId>)
    requires Closed(g) && roots <= g.Keys
    ensures ClosedBut(g, Reach(g, roots), {}) && roots <= Reach(g, roots)
  {
    forall t | t in roots ensures t in Reach(g, roots) {
      assert Path(g, [t]) && [t][0] in roots;
    }
    forall t | t in Reach(g, roots) ensures AllIn(Children(g[t]), Reach(g, roots)) {
      var p :| Path(g, p) && p[0] in roots && p[|p| - 1] == t;
      forall i | 0 <= i < |Children(g[t])| ensures Children(g[t])[i] in Reach(g, roots) {
        PathGrows(g, p, i);
      }
    }
  }

  lemma PathGrows(g: map<TypeId, Node>, p: seq<TypeId>, i: nat)
    requires Closed(g) && Path(g, p) && i < |Children(g[p[|p| - 1]])|
    ensures var c := Children(g[p[|p| - 1]])[i];
            var q := p + [c];
            Path(g, q) && q[0] == p[0] && q[|q| - 1] == c
  {
    var last := p[|p| - 1];
    var c := Children(g[last])[i];
    var q := p + [c];
    assert AllIn(Children(g[last]), g.Keys);
    forall j | 0 <= j < |q| - 1 ensures q[j + 1] in Children(g[q[j]]) {
      if j < |p| - 1 {
        assert q[j] == p[j] && q[j + 1] == p[j + 1];
      } else {
        assert q[j] == last && q[j + 1] == c;
      }
    }
  }

  lemma {:induction false} PathsStayInside(g: map<TypeId, Node>, s: set<TypeId>, p: seq<TypeId>)
    requires ClosedBut(g, s, {}) && Path(g, p) && p[0] in s
    ensures p[|p| - 1] in s
  {
    if |p| == 1 {
    } else {
      var q := p[..|p| - 1];
      assert Path(g, q);
      PathsStayInside(g, s, q);
    }
  }

  lemma ReachIsLeast(g: map<TypeId, Node>, roots: set<TypeId>, s: set<TypeId>)
    requires ClosedBut(g, s, {}) && roots <= s
    ensures Reach(g, roots) <= s
  {
    forall t | t in Reach(g, roots) ensures t in s {
      var p :| Path(g, p) && p[0] in roots && p[|p| - 1] == t;
      PathsStayInside(g, s, p);
    }
  }

  // ---- collectPackagePaths ----

  function Packages(g: map<TypeId, Node>, s: set<TypeId>): set<string> {
    set t | t in s && t in g && g[t].Struct? && g[t].pkg != "" :: g[t].pkg
  }

  lemma RemainingShrinks(all: set<TypeId>, seen: set<TypeId>, more: set<TypeId>)
    requires seen <= more
    ensures |all - more| <= |all - seen|
    ensures (exists t :: t in all && t in more && t !in seen) ==> |all - more| < |all - seen|
  {
    assert all - seen == (all - more) + (all * more - seen);
    if t :| t in all && t in more && t !in seen {
      assert t in all * more - seen;
    }
  }

  function PackageOf(n: Node): set<string> {
    if n.Struct? && n.pkg != "" then {n.pkg} else {}
  }

  /** Between calls of the walk: `open` are the types being walked, `bound` is a closed set to stay in. */
  ghost predicate Walking(
    g: map<TypeId, Node>, open: set<TypeId>, bound: set<TypeId>, seen: set<TypeId>, pkgs: set<string>)
  {
    ClosedBut(g, seen, open) && seen <= bound && pkgs == Packages(g, seen)
  }

  lemma WalkOpens(
    g: map<TypeId, Node>, open: set<TypeId>, bound: set<TypeId>, seen: set<TypeId>, pkgs: set<string>, t: TypeId)
    requires Walking(g, open, bound, seen, pkgs) && ClosedBut(g, bound, {}) && t in bound && t !in seen
    ensures Walking(g, open + {t}, bound, seen + {t}, pkgs + PackageOf(g[t]))
    ensures AllIn(Children(g[t]), bound)
    ensures |g.Keys - (seen + {t})| < |g.Keys - seen|
  {
    assert Packages(g, seen + {t}) == Packages(g, seen) + PackageOf(g[t]);
    RemainingShrinks(g.Keys, seen, seen + {t});
  }

  lemma WalkCloses(
    g: map<TypeId, Node>, open: set<TypeId>, bound: set<TypeId>, seen: set<TypeId>, pkgs: set<string>, t: TypeId)
    requires Walking(g, open + {t}, bound, seen, pkgs) && t in seen && AllIn(Children(g[t]), seen)
    ensures Walking(g, open, bound, seen, pkgs)
  {
  }

  /** The recursive closure `walk`, with its captured maps as in-out values. */
  method Walk(
    g: map<TypeId, Node>, t: TypeId, seen: set<TypeId>, pkgs: set<string>,
    ghost open: set<TypeId>, ghost bound: set<TypeId>)
    returns (seen': set<TypeId>, pkgs': set<string>)
    requires t in bound && ClosedBut(g, bound, {}) && Walking(g, open, bound, seen, pkgs)
    ensures seen + {t} <= seen' && Walking(g, open, bound, seen', pkgs')
    decreases |g.Keys - seen|, 1
  {
    if t in seen { return seen, pkgs; }
    WalkOpens(g, open, bound, seen, pkgs, t);
    seen' := seen + {t};
    pkgs' := pkgs + PackageOf(g[t]);
    seen', pkgs' := WalkAll(g, Children(g[t]), seen', pkgs', open + {t}, bound);
    WalkCloses(g, open, bound, seen', pkgs', t);
  }

  /** The calls of `walk` on the children of a type, in order. */
  method WalkAll(
    g: map<TypeId, Node>, children: seq<TypeId>, seen: set<TypeId>, pkgs: set<string>,
    ghost open: set<TypeId>, ghost bound: set<TypeId>)
    returns (seen': set<TypeId>, pkgs': set<string>)
    requires AllIn(children, bound) && ClosedBut(g, bound, {}) && Walking(g, open, bound, seen, pkgs)
    ensures seen <= seen' && AllIn(children, seen') && Walking(g, open, bound, seen', pkgs')
    decreases |g.Keys - seen|, 2
  {
    seen', pkgs' := seen, pkgs;
    for i := 0 to |children|
      invariant seen <= seen' && Walking(g, open, bound, seen', pkgs')
      invariant forall j | 0 <= j < i :: children[j] in seen'
    {
      RemainingShrinks(g.Keys, seen, seen');
      seen', pkgs' := Walk(g, children[i], seen', pkgs', open, bound);
    }
  }

  /** A nil root is skipped. */
  function Roots(roots: seq<Option<TypeId>>): seq<TypeId> {
    if roots == [] then []
    else
      var n := |roots| - 1;
      if roots[n].None? then Roots(roots[..n]) else Roots(roots[..n]) + [roots[n].value]
  }

  function AsSet(ts: seq<TypeId>): set<TypeId> {
    set t | t in ts
  }

  /** The roots that are not nil. */
  function Given(roots: seq<Option<TypeId>>): set<TypeId> {
    set i | 0 <= i < |roots| && roots[i].Some? :: roots[i].value
  }

  lemma {:induction false} RootsAreGiven(roots: seq<Option<TypeId>>)
    ensures AsSet(Roots(roots)) == Given(roots)
    ensures forall t | t in Roots(roots) :: Some(t) in roots
  {
    if roots != [] {
      var n := |roots| - 1;
      RootsAreGiven(roots[..n]);
      assert Given(roots) == Given(roots[..n]) + if roots[n].Some? then {roots[n].value} else {} by {
        assert forall i | 0 <= i < n :: roots[..n][i] == roots[i];
        forall t | t in Given(roots[..n]) ensures t in Given(roots) {
          var i :| 0 <= i < n && roots[..n][i].Some? && roots[..n][i].value == t;
          assert roots[i].value == t;
        }
      }
      assert forall t :: t in Roots(roots) <==> t in Roots(roots[..n]) || roots[n] == Some(t);
    }
  }

  /** The map's keys as a list, in whatever order the iteration yields them. */
  method ListOf(pkgs: set<string>) returns (out: seq<string>)
    ensures forall pkg :: pkg in out <==> pkg in pkgs
    ensures forall i, j | 0 <= i < j < |out| :: out[i] != out[j]
  {
    out := [];
    var todo := pkgs;
    while todo != {}
      invariant forall pkg :: pkg in pkgs <==> pkg in out || pkg in todo
      invariant forall i | 0 <= i < |out| :: out[i] !in todo
      invariant forall i, j | 0 <= i < j < |out| :: out[i] != out[j]
    {
      var pkg :| pkg in todo;
      todo := todo - {pkg};
      out := out + [pkg];
    }
  }

  /**
   Terminates on every graph, cycles included, and returns each package that declares a
   struct type reachable from the roots exactly once.
   */
  method CollectPackagePaths(g: map<TypeId, Node>, roots: seq<Option<TypeId>>) returns (out: seq<string>)
    requires Closed(g) && forall t | Some(t) in roots :: t in g
    ensures forall pkg :: pkg in out <==> pkg != "" && exists t ::
              Reachable(g, Given(roots), t) && t in g && g[t].Struct? && g[t].pkg == pkg
    ensures forall i, j | 0 <= i < j < |out| :: out[i] != out[j]
  {
    RootsAreGiven(roots);
    ghost var bound := Reach(g, AsSet(Roots(roots)));
    ReachIsClosed(g, AsSet(Roots(roots)));
    assert Packages(g, {}) == {};
    var seen, pkgs := WalkAll(g, Roots(roots), {}, {}, {}, bound);
    ReachIsLeast(g, AsSet(Roots(roots)), seen);
    assert seen == bound;
    out := ListOf(pkgs);
  }
}
