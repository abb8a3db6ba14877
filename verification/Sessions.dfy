/**
 Session macaroons: issuing them with their caveats, reading them back, and the route guard.
 Every caveat must hold; a caveat appended to a macaroon can only restrict it.
 */
module Sessions {
  import opened Prelude
  import SqliteTime

  /** A parsed caveat. */
  datatype Caveat =
    | TimeBefore(t: Time)
    | Journey(id: string)
    | User(id: string)
    | ClientApp(id: string)
    | Action(id: string)
    | Unknown

  /** A caveat as the macaroon carries it: ours, with the parser's verdict, or another service's. */
  datatype Raw = FirstParty(parsed: Option<Caveat>) | ThirdParty

  datatype Macaroon = Macaroon(authentic: bool, caveats: seq<Raw>)

  datatype Constraints = Constraints(journey: string, action: string, user: string, clientApp: string)

  datatype Verified = Verified(caveats: seq<Caveat>, expiration: Time)

  /** Go's zero time.Time, which the parser takes for "no time yet". */
  const ZERO: Time := 31_622_400_000_000_000

  // ---- Reading a macaroon ----

  function Times(cs: seq<Caveat>): seq<Time> {
    if cs == [] then []
    else
      var n := |cs| - 1;
      if cs[n].TimeBefore? then Times(cs[..n]) + [cs[n].t] else Times(cs[..n])
  }

  /** The variable `earliest` after a list of time caveats. */
  function Earliest(ts: seq<Time>): Time {
    if ts == [] then ZERO
    else
      var e, t := Earliest(ts[..|ts| - 1]), ts[|ts| - 1];
      if e == ZERO || t < e then t else e
  }

  predicate Known(raw: Raw) {
    raw.FirstParty? && raw.parsed.Some? && !raw.parsed.value.Unknown?
  }

  predicate AllKnown(raws: seq<Raw>) {
    forall i | 0 <= i < |raws| :: Known(raws[i])
  }

  function Parsed(raws: seq<Raw>): (cs: seq<Caveat>)
    requires AllKnown(raws)
    ensures |cs| == |raws|
  {
    seq(|raws|, i requires 0 <= i < |raws| => raws[i].parsed.value)
  }

  /** VerifySignature from the signature check on. */
  function Attach(m: Macaroon): Option<Verified> {
    if !m.authentic || !AllKnown(m.caveats) || Earliest(Times(Parsed(m.caveats))) == ZERO then None
    else Some(Verified(Parsed(m.caveats), Earliest(Times(Parsed(m.caveats)))))
  }

  lemma ParsedOneMore(raws: seq<Raw>, i: nat)
    requires i < |raws| && AllKnown(raws[..i]) && Known(raws[i])
    ensures AllKnown(raws[..i + 1]) && Parsed(raws[..i + 1]) == Parsed(raws[..i]) + [raws[i].parsed.value]
  {
    var more := raws[..i + 1];
    forall j | 0 <= j < |more| ensures Known(more[j]) {
      if j < i { assert more[j] == raws[..i][j]; }
    }
  }

  method ParseCaveats(raws: seq<Raw>) returns (r: Option<Verified>)
    ensures r == Attach(Macaroon(true, raws))
  {
    var parsed: seq<Caveat>, earliest := [], ZERO;
    for i := 0 to |raws|
      invariant AllKnown(raws[..i]) && parsed == Parsed(raws[..i])
      invariant earliest == Earliest(Times(parsed))
    {
      if !Known(raws[i]) { return None; }
      var caveat := raws[i].parsed.value;
      ParsedOneMore(raws, i);
      assert (parsed + [caveat])[..|parsed|] == parsed;
      if caveat.TimeBefore? {
        assert (Times(parsed) + [caveat.t])[..|Times(parsed)|] == Times(parsed);
        if earliest == ZERO || caveat.t < earliest {
          earliest := caveat.t;
        }
      }
      parsed := parsed + [caveat];
    }
    assert raws[..|raws|] == raws;
    if earliest == ZERO { return None; }
    return Some(Verified(parsed, earliest));
  }

  predicate IsMinimum(m: Time, ts: seq<Time>) {
    m in ts && forall t | t in ts :: m <= t
  }

  lemma {:induction false} EarliestIsOneOf(ts: seq<Time>)
    ensures Earliest(ts) != ZERO ==> Earliest(ts) in ts
    ensures ts != [] && ZERO !in ts ==> Earliest(ts) != ZERO
    ensures forall t | t in ts && t < ZERO :: Earliest(ts) <= t
    ensures ZERO !in ts ==> forall t | t in ts :: Earliest(ts) <= t
  {
    if ts == [] {
    } else {
      var n := |ts| - 1;
      EarliestIsOneOf(ts[..n]);
      assert forall t :: t in ts <==> t in ts[..n] || t == ts[n];
    }
  }

  /**
   The expiration read off a macaroon is its earliest time caveat exactly when that earliest
   one is not Go's zero instant.
   */
  lemma ExpirationIsTheMinimumExactlyWhen(ts: seq<Time>, m: Time)
    requires IsMinimum(m, ts)
    ensures Earliest(ts) != ZERO && Earliest(ts) == m <==> m != ZERO
  {
    EarliestIsOneOf(ts);
  }

  /** At the zero instant the loop starts over: what came before it is forgotten. */
  lemma {:induction false} ZeroForgets(before: seq<Time>, after: seq<Time>)
    requires forall i | 0 <= i < |before| :: ZERO <= before[i]
    ensures Earliest(before + [ZERO] + after) == Earliest(after)
  {
    var ts := before + [ZERO] + after;
    if after == [] {
      assert ts[..|ts| - 1] == before;
      EarliestNotBelow(before);
    } else {
      ZeroForgets(before, after[..|after| - 1]);
      assert ts[..|ts| - 1] == before + [ZERO] + after[..|after| - 1];
    }
  }

  lemma {:induction false} EarliestNotBelow(ts: seq<Time>)
    requires forall i | 0 <= i < |ts| :: ZERO <= ts[i]
    ensures ZERO <= Earliest(ts)
  {
    if ts == [] {
    } else {
      EarliestNotBelow(ts[..|ts| - 1]);
    }
  }

  // ---- Evaluating caveats ----

  predicate Evaluate(caveat: Caveat, now: Time, c: Constraints) {
    match caveat
    case TimeBefore(t) => now < t
    case Journey(id) => c.journey != "" && c.journey == id
    case User(id) => c.user != "" && c.user == id
    case ClientApp(id) => c.clientApp != "" && c.clientApp == id
    case Action(id) => c.action != "" && c.action == id
    case Unknown => false
  }

  predicate Satisfied(cs: seq<Caveat>, now: Time, c: Constraints) {
    forall i | 0 <= i < |cs| :: Evaluate(cs[i], now, c)
  }

  method CheckConstraints(verified: Verified, now: Time, c: Constraints) returns (ok: bool)
    ensures ok <==> Satisfied(verified.caveats, now, c)
  {
    for i := 0 to |verified.caveats|
      invariant Satisfied(verified.caveats[..i], now, c)
    {
      if !Evaluate(verified.caveats[i], now, c) { return false; }
    }
    return true;
  }

  /** Two caveats of one kind with different values: no request, at no time, satisfies both. */
  lemma ConflictIsUnsatisfiable(cs: seq<Caveat>, i: nat, j: nat, now: Time, c: Constraints)
    requires i < |cs| && j < |cs| && cs[i] != cs[j]
    requires || (cs[i].Journey? && cs[j].Journey?) || (cs[i].User? && cs[j].User?)
             || (cs[i].ClientApp? && cs[j].ClientApp?) || (cs[i].Action? && cs[j].Action?)
    ensures !Satisfied(cs, now, c)
  {
    assert !Evaluate(cs[i], now, c) || !Evaluate(cs[j], now, c);
  }

  /** A caveat about something the request does not say is never satisfied, not even by an empty value. */
  lemma SilenceSatisfiesNothing(cs: seq<Caveat>, i: nat, now: Time, c: Constraints)
    requires i < |cs|
    requires || (cs[i].Journey? && c.journey == "") || (cs[i].User? && c.user == "")
             || (cs[i].ClientApp? && c.clientApp == "") || (cs[i].Action? && c.action == "")
    ensures !Satisfied(cs, now, c)
  {
    assert !Evaluate(cs[i], now, c);
  }

  lemma {:induction false} TimesAre(cs: seq<Caveat>, t: Time)
    ensures t in Times(cs) <==> TimeBefore(t) in cs
  {
    if cs == [] {
    } else {
      var n := |cs| - 1;
      TimesAre(cs[..n], t);
      assert cs == cs[..n] + [cs[n]];
    }
  }

  // ---- The guard ----

  datatype Identity = Identity(user: string, clientApp: string)

  /** A protected route: its action and the journey id taken from the path. */
  datatype Route = Route(action: string, pathJourney: string)

  datatype Verdict = Pass | NoSession | BuilderFailed | Refused

  function Overlay(c: Constraints, id: Option<Identity>): Constraints {
    if id.None? then c
    else c.(user := if c.user == "" then id.value.user else c.user,
            clientApp := if c.clientApp == "" then id.value.clientApp else c.clientApp)
  }

  /** The certificate's identity fills what the route left open and overrides nothing. */
  lemma OverlayFillsGaps(c: Constraints, id: Option<Identity>)
    ensures var r := Overlay(c, id);
            && r.journey == c.journey && r.action == c.action
            && (c.user != "" ==> r.user == c.user) && (c.clientApp != "" ==> r.clientApp == c.clientApp)
            && (id.None? ==> r == c)
            && (id.Some? && c.user == "" ==> r.user == id.value.user)
            && (id.Some? && c.clientApp == "" ==> r.clientApp == id.value.clientApp)
  {
  }

  /** AttachSession, then RequireSession with SessionActionJourneyFromPath. */
  function Guard(m: Macaroon, id: Option<Identity>, route: Route, now: Time): Verdict {
    var session := Attach(m);
    if session.None? then NoSession
    else if route.pathJourney == "" then BuilderFailed
    else if Satisfied(session.value.caveats, now, Overlay(Constraints(route.pathJourney, route.action, "", ""), id))
    then Pass else Refused
  }

  /** One caveat that is not ours, does not parse or is of no known kind, and the macaroon is no session. */
  lemma ForeignCaveatsFailClosed(m: Macaroon, i: nat, id: Option<Identity>, route: Route, now: Time)
    requires i < |m.caveats|
    requires m.caveats[i] in {ThirdParty, FirstParty(None), FirstParty(Some(Unknown))}
    ensures Attach(m) == None && Guard(m, id, route, now) == NoSession
  {
    assert !Known(m.caveats[i]);
  }

  /** Attenuation: caveats added without the key. */
  function Attenuated(m: Macaroon, extra: seq<Raw>): Macaroon {
    m.(caveats := m.caveats + extra)
  }

  lemma ParsedPrefix(raws: seq<Raw>, extra: seq<Raw>)
    requires AllKnown(raws + extra)
    ensures AllKnown(raws) && AllKnown(extra) && Parsed(raws + extra) == Parsed(raws) + Parsed(extra)
  {
    assert forall i | 0 <= i < |raws| :: (raws + extra)[i] == raws[i];
    assert forall i | 0 <= i < |extra| :: (raws + extra)[|raws| + i] == extra[i];
  }

  /**
   Whatever is appended, a request that passes with the longer macaroon passes with the
   shorter one; the only exception is a macaroon that had no usable time caveat at all.
   */
  lemma AppendingOnlyRestricts(m: Macaroon, extra: seq<Raw>, id: Option<Identity>, route: Route, now: Time)
    requires Guard(Attenuated(m, extra), id, route, now) == Pass
    ensures AllKnown(m.caveats)
    ensures Guard(m, id, route, now) == Pass <==> Earliest(Times(Parsed(m.caveats))) != ZERO
  {
    ParsedPrefix(m.caveats, extra);
    var cs, all := Parsed(m.caveats), Parsed(m.caveats + extra);
    assert forall i | 0 <= i < |cs| :: all[i] == cs[i];
  }

  /** The exception: without caveats a macaroon is no session, and a single time caveat opens every route. */
  lemma AppendingCanHelpUntimed(t: Time, id: Option<Identity>, route: Route, now: Time)
    requires now < t && t != ZERO && route.pathJourney != ""
    ensures Guard(Macaroon(true, []), id, route, now) == NoSession
    ensures Guard(Attenuated(Macaroon(true, []), [FirstParty(Some(TimeBefore(t)))]), id, route, now) == Pass
  {
    var raws := [FirstParty(Some(TimeBefore(t)))];
    assert [] + raws == raws;
    var cs := Parsed(raws);
    assert cs == [TimeBefore(t)] && cs[..0] == [];
    assert Times(cs) == [t] && [t][..0] == [];
    assert Earliest([t]) == t;
  }

  lemma TimedMacaroonsAttach(cs: seq<Caveat>, t: Time)
    requires TimeBefore(t) in cs && TimeBefore(ZERO) !in cs
    ensures Earliest(Times(cs)) != ZERO && Earliest(Times(cs)) <= t
  {
    TimesAre(cs, t);
    TimesAre(cs, ZERO);
    EarliestIsOneOf(Times(cs));
  }

  /** Same caveats, in any order and any multiplicity. */
  predicate SameCaveats(a: seq<Raw>, b: seq<Raw>) {
    (forall x | x in a :: x in b) && (forall x | x in b :: x in a)
  }

  lemma SatisfiedBySet(a: seq<Caveat>, b: seq<Caveat>, now: Time, c: Constraints)
    requires forall x | x in b :: x in a
    requires Satisfied(a, now, c)
    ensures Satisfied(b, now, c)
  {
    forall i | 0 <= i < |b| ensures Evaluate(b[i], now, c) {
      assert b[i] in a;
    }
  }

  lemma ParsedSet(a: seq<Raw>, b: seq<Raw>)
    requires AllKnown(a) && forall x | x in b :: x in a
    ensures AllKnown(b) && forall x | x in Parsed(b) :: x in Parsed(a)
  {
    forall i | 0 <= i < |b| ensures Known(b[i]) && Parsed(a) != [] {
      assert b[i] in a;
    }
    forall x | x in Parsed(b) ensures x in Parsed(a) {
      var i :| 0 <= i < |b| && Parsed(b)[i] == x;
      assert b[i] in b && b[i] in a;
      var j :| 0 <= j < |a| && a[j] == b[i];
      assert Parsed(a)[j] == x;
    }
  }

  /** The caveats seen by the guard all hold; with the path journey present, only the time parsing is left. */
  predicate CaveatsHold(m: Macaroon, id: Option<Identity>, route: Route, now: Time) {
    && m.authentic && AllKnown(m.caveats) && route.pathJourney != ""
    && Satisfied(Parsed(m.caveats), now, Overlay(Constraints(route.pathJourney, route.action, "", ""), id))
  }

  function TimeRaw(t: Time): Raw {
    FirstParty(Some(TimeBefore(t)))
  }

  /** All caveats hold, and of the time caveats the earliest is the zero instant but not the only one. */
  ghost predicate OrderMatters(m: Macaroon, id: Option<Identity>, route: Route, now: Time) {
    && CaveatsHold(m, id, route, now)
    && TimeRaw(ZERO) in m.caveats
    && (forall t | TimeRaw(t) in m.caveats :: ZERO <= t)
    && (exists t :: TimeRaw(t) in m.caveats && ZERO < t)
  }

  lemma SameCaveatsHold(m: Macaroon, other: seq<Raw>, id: Option<Identity>, route: Route, now: Time)
    requires SameCaveats(m.caveats, other) && CaveatsHold(m, id, route, now)
    ensures CaveatsHold(m.(caveats := other), id, route, now)
  {
    ParsedSet(m.caveats, other);
    SatisfiedBySet(Parsed(m.caveats), Parsed(other), now,
      Overlay(Constraints(route.pathJourney, route.action, "", ""), id));
  }

  lemma TimesOfRaws(raws: seq<Raw>, t: Time)
    requires AllKnown(raws)
    ensures t in Times(Parsed(raws)) <==> TimeRaw(t) in raws
  {
    var cs := Parsed(raws);
    TimesAre(cs, t);
    assert forall i | 0 <= i < |raws| :: raws[i] == FirstParty(Some(cs[i]));
    if TimeBefore(t) in cs {
      var i :| 0 <= i < |cs| && cs[i] == TimeBefore(t);
      assert raws[i] == TimeRaw(t);
    }
    if TimeRaw(t) in raws {
      var i :| 0 <= i < |raws| && raws[i] == TimeRaw(t);
      assert cs[i] == TimeBefore(t);
    }
  }

  lemma PassMeans(m: Macaroon, id: Option<Identity>, route: Route, now: Time)
    ensures Guard(m, id, route, now) == Pass <==>
              CaveatsHold(m, id, route, now) && Earliest(Times(Parsed(m.caveats))) != ZERO
  {
  }

  lemma PassesWithSameCaveats(m: Macaroon, other: seq<Raw>, id: Option<Identity>, route: Route, now: Time)
    requires SameCaveats(m.caveats, other) && Guard(m, id, route, now) == Pass
    requires !OrderMatters(m, id, route, now)
    ensures Guard(m.(caveats := other), id, route, now) == Pass
  {
    PassMeans(m, id, route, now);
    PassMeans(m.(caveats := other), id, route, now);
    SameCaveatsHold(m, other, id, route, now);
    var ts, us := Times(Parsed(m.caveats)), Times(Parsed(other));
    forall t ensures t in ts <==> t in us {
      TimesOfRaws(m.caveats, t);
      TimesOfRaws(other, t);
    }
    forall t ensures t in ts <==> TimeRaw(t) in m.caveats { TimesOfRaws(m.caveats, t); }
    EarliestIsOneOf(ts);
    EarliestIsOneOf(us);
    var e := Earliest(ts);
    assert e in ts && e in us;
    assert ZERO in ts ==> exists t :: t in ts && t < ZERO;
  }

  lemma OrderMattersBySet(m: Macaroon, other: seq<Raw>, id: Option<Identity>, route: Route, now: Time)
    requires SameCaveats(m.caveats, other) && OrderMatters(m, id, route, now)
    ensures OrderMatters(m.(caveats := other), id, route, now)
  {
    SameCaveatsHold(m, other, id, route, now);
    var t :| TimeRaw(t) in m.caveats && ZERO < t;
    assert TimeRaw(t) in other && TimeRaw(ZERO) in other;
  }

  /** Otherwise order and repetition of caveats make no difference to the guard. */
  lemma CaveatOrderIsIrrelevant(m: Macaroon, other: seq<Raw>, id: Option<Identity>, route: Route, now: Time)
    requires SameCaveats(m.caveats, other) && !OrderMatters(m, id, route, now)
    ensures Guard(m, id, route, now) == Pass <==> Guard(m.(caveats := other), id, route, now) == Pass
  {
    if Guard(m, id, route, now) == Pass {
      PassesWithSameCaveats(m, other, id, route, now);
    }
    var m' := m.(caveats := other);
    if Guard(m', id, route, now) == Pass {
      assert m'.(caveats := m.caveats) == m;
      if OrderMatters(m', id, route, now) { OrderMattersBySet(m', m.caveats, id, route, now); }
      PassesWithSameCaveats(m', m.caveats, id, route, now);
    }
  }

  /** A caveat moved to the end. */
  lemma MovedLast(raws: seq<Raw>, t: Time) returns (front: seq<Raw>)
    requires TimeRaw(t) in raws
    ensures multiset(front + [TimeRaw(t)]) == multiset(raws) && SameCaveats(raws, front + [TimeRaw(t)])
  {
    var i :| 0 <= i < |raws| && raws[i] == TimeRaw(t);
    front := raws[..i] + raws[i + 1..];
    var other := front + [TimeRaw(t)];
    assert raws == raws[..i] + [raws[i]] + raws[i + 1..];
    assert multiset(other) == multiset(raws);
    forall x ensures x in raws <==> x in other {
      assert x in raws <==> x in multiset(raws);
      assert x in other <==> x in multiset(other);
    }
  }

  lemma LastTime(front: seq<Raw>, t: Time)
    requires AllKnown(front + [TimeRaw(t)])
    ensures AllKnown(front)
    ensures Times(Parsed(front + [TimeRaw(t)])) == Times(Parsed(front)) + [t]
  {
    var all := front + [TimeRaw(t)];
    assert forall i | 0 <= i < |front| :: all[i] == front[i];
    var cs := Parsed(all);
    assert all[|front|] == TimeRaw(t);
    assert cs == Parsed(front) + [TimeBefore(t)] && cs[..|front|] == Parsed(front);
  }

  /** With the zero instant last nobody attaches; with another time last everybody does. */
  lemma LastTimeDecides(front: seq<Raw>, t: Time)
    requires AllKnown(front + [TimeRaw(t)]) && forall x | TimeRaw(x) in front :: ZERO <= x
    requires ZERO <= t
    ensures Earliest(Times(Parsed(front + [TimeRaw(t)]))) == ZERO <==> t == ZERO
  {
    LastTime(front, t);
    var ts := Times(Parsed(front));
    forall i | 0 <= i < |ts| ensures ZERO <= ts[i] {
      TimesOfRaws(front, ts[i]);
      assert ts[i] in ts;
    }
    EarliestNotBelow(ts);
    assert (ts + [t])[..|ts|] == ts;
  }

  /**
   Exactly when the guard's verdict on a macaroon depends on the order of its caveats: they
   all hold, and the earliest time caveat is Go's zero instant while a later one is there too.
   */
  lemma CaveatOrderMattersExactlyWhen(m: Macaroon, id: Option<Identity>, route: Route, now: Time)
    ensures OrderMatters(m, id, route, now) <==>
              exists other :: multiset(other) == multiset(m.caveats)
                && (Guard(m, id, route, now) == Pass) != (Guard(m.(caveats := other), id, route, now) == Pass)
  {
    if OrderMatters(m, id, route, now) {
      PassMeans(m, id, route, now);
      var later :| TimeRaw(later) in m.caveats && ZERO < later;
      var t := if Guard(m, id, route, now) == Pass then ZERO else later;
      var front := MovedLast(m.caveats, t);
      var other := front + [TimeRaw(t)];
      SameCaveatsHold(m, other, id, route, now);
      forall x | TimeRaw(x) in front ensures ZERO <= x { assert TimeRaw(x) in other; }
      LastTimeDecides(front, t);
      PassMeans(m.(caveats := other), id, route, now);
    }
    if other :| multiset(other) == multiset(m.caveats)
                && (Guard(m, id, route, now) == Pass) != (Guard(m.(caveats := other), id, route, now) == Pass)
    {
      forall x ensures x in m.caveats <==> x in other {
        assert x in m.caveats <==> x in multiset(m.caveats);
        assert x in other <==> x in multiset(other);
      }
      if !OrderMatters(m, id, route, now) { CaveatOrderIsIrrelevant(m, other, id, route, now); }
    }
  }

  function Timed(first: Time, second: Time): Macaroon {
    Macaroon(true, [FirstParty(Some(TimeBefore(first))), FirstParty(Some(TimeBefore(second)))])
  }

  lemma TimedTimes(first: Time, second: Time)
    ensures AllKnown(Timed(first, second).caveats)
    ensures Parsed(Timed(first, second).caveats) == [TimeBefore(first), TimeBefore(second)]
    ensures Times(Parsed(Timed(first, second).caveats)) == [first, second]
  {
    var cs := [TimeBefore(first), TimeBefore(second)];
    assert Parsed(Timed(first, second).caveats) == cs;
    assert cs[..1] == [TimeBefore(first)] && cs[..1][..0] == [];
    assert Times(cs[..1]) == Times(cs[..1][..0]) + [first];
  }

  /** For a clock before year 1 and a caveat at the zero instant, order does matter. */
  lemma OrderMattersBeforeYearOne(t: Time, id: Option<Identity>, route: Route, now: Time)
    requires now < ZERO < t && route.pathJourney != ""
    ensures SqliteTime.FromFields([1, 1, 1, 0, 0, 0, 0]) == Some(ZERO)
    ensures Guard(Timed(ZERO, t), id, route, now) == Pass
    ensures Guard(Timed(t, ZERO), id, route, now) == NoSession
  {
    TimedTimes(ZERO, t);
    TimedTimes(t, ZERO);
    assert [ZERO, t][..1] == [ZERO] && [t, ZERO][..1] == [t];
    assert Earliest([ZERO]) == ZERO && Earliest([t]) == t;
    assert Earliest([ZERO, t]) == t && Earliest([t, ZERO]) == ZERO;
  }

  /** Nobody passes at or after the expiration the session reports. */
  lemma PassImpliesUnexpired(m: Macaroon, id: Option<Identity>, route: Route, now: Time)
    requires Guard(m, id, route, now) == Pass
    ensures now < Attach(m).value.expiration
  {
    var cs := Parsed(m.caveats);
    EarliestIsOneOf(Times(cs));
    TimesAre(cs, Earliest(Times(cs)));
    var i :| 0 <= i < |cs| && cs[i] == TimeBefore(Earliest(Times(cs)));
    assert Evaluate(cs[i], now, Overlay(Constraints(route.pathJourney, route.action, "", ""), id));
  }

  // ---- Issuing ----

  /** Which texts the protocol library takes for UUIDs and for actions; never the empty one. */
  datatype Vocabulary = Vocabulary(uuids: iset<string>, actions: set<string>)

  predicate Sound(voc: Vocabulary) {
    "" !in voc.uuids && "" !in voc.actions
  }

  datatype SessionParams = SessionParams(
    user: string, clientApp: string, journey: string, action: string, expiration: Time, now: Time)

  predicate RequiresJourney(action: string) {
    action == "journey.read" || action == "journey.write" || action == "telemetry.write" || action == "media.upload"
  }

  /** SessionParams.validate; a zero `now` is replaced by the clock. */
  predicate ValidParams(voc: Vocabulary, p: SessionParams, clock: Time) {
    && p.user in voc.uuids && p.clientApp in voc.uuids
    && (p.journey != "" ==> p.journey in voc.uuids)
    && p.action in voc.actions
    && (RequiresJourney(p.action) ==> p.journey != "")
    && p.expiration > if p.now == ZERO then clock else p.now
  }

  /** The caveats an issued session means to carry, as a set. */
  function Meant(p: SessionParams): set<Caveat> {
    {User(p.user), ClientApp(p.clientApp), Action(p.action), TimeBefore(p.expiration)}
    + if p.journey == "" then {} else {Journey(p.journey)}
  }

  method IssueSession(voc: Vocabulary, p: SessionParams, clock: Time) returns (m: Option<Macaroon>)
    ensures m.Some? <==> ValidParams(voc, p, clock)
    ensures m.Some? ==> Issued(p, m.value)
  {
    if !ValidParams(voc, p, clock) { return None; }
    var predicates := [User(p.user)];
    predicates := predicates + [ClientApp(p.clientApp)];
    if p.journey != "" {
      predicates := predicates + [Journey(p.journey)];
    }
    predicates := predicates + [Action(p.action)];
    predicates := predicates + [TimeBefore(p.expiration)];
    var raws := Carried(predicates);
    assert Parsed(raws) == predicates;
    assert forall i | 0 <= i < |predicates| :: raws[i] == FirstParty(Some(predicates[i]));
    return Some(Macaroon(true, raws));
  }

  function Carried(cs: seq<Caveat>): (raws: seq<Raw>)
    ensures |raws| == |cs| && forall i | 0 <= i < |cs| :: raws[i] == FirstParty(Some(cs[i]))
  {
    seq(|cs|, i requires 0 <= i < |cs| => FirstParty(Some(cs[i])))
  }

  /** An authentic macaroon that carries what was meant and nothing else. */
  ghost predicate Issued(p: SessionParams, m: Macaroon) {
    && m.authentic && AllKnown(m.caveats)
    && forall x :: x in Parsed(m.caveats) <==> x in Meant(p)
  }

  function DefaultLifetime(): Time { 15 * 60 * 1_000_000_000 }
  function MaxLifetime(): Time { 60 * 60 * 1_000_000_000 }

  function NormalizeSessionLifetime(requestedSeconds: int): (d: Time)
    ensures 0 < d <= 3_600_000_000_000
    ensures requestedSeconds <= 0 ==> d == 900_000_000_000
    ensures 0 < requestedSeconds <= 3600 ==> d == requestedSeconds * 1_000_000_000
    ensures requestedSeconds > 3600 ==> d == 3_600_000_000_000
  {
    if requestedSeconds <= 0 then DefaultLifetime()
    else if requestedSeconds >= 3600 then MaxLifetime()
    else requestedSeconds * 1_000_000_000
  }

  datatype SessionRequest = SessionRequest(
    valid: bool, actions: seq<string>, journey: Option<string>, lifetimeSeconds: int)

  function ParamsOf(id: Identity, req: SessionRequest, now: Time): SessionParams
    requires |req.actions| == 1
  {
    SessionParams(id.user, id.clientApp, if req.journey.None? then "" else req.journey.value,
                  req.actions[0], now + NormalizeSessionLifetime(req.lifetimeSeconds), now)
  }

  /** handleSessionCreate once the identity is known; None is any refusal. */
  method HandleSessionCreate(voc: Vocabulary, id: Identity, req: SessionRequest, now: Time)
    returns (m: Option<Macaroon>)
    ensures m.Some? <==>
              && req.valid && |req.actions| == 1 && id.user in voc.uuids && id.clientApp in voc.uuids
              && req.actions[0] in voc.actions
              && (req.journey.Some? && req.journey.value != "" ==> req.journey.value in voc.uuids)
              && (req.actions[0] in {"journey.read", "journey.write", "telemetry.write", "media.upload"} ==>
                    req.journey.Some? && req.journey.value != "")
    ensures m.Some? ==> Issued(ParamsOf(id, req, now), m.value)
  {
    if !req.valid || |req.actions| != 1 { return None; }
    var lifetime := NormalizeSessionLifetime(req.lifetimeSeconds);
    if id.user !in voc.uuids || id.clientApp !in voc.uuids { return None; }
    m := IssueSession(voc, ParamsOf(id, req, now), now);
  }

  lemma MeantSatisfied(p: SessionParams, cs: seq<Caveat>, now: Time, c: Constraints)
    requires forall x :: x in cs <==> x in Meant(p)
    ensures Satisfied(cs, now, c) <==> forall x | x in Meant(p) :: Evaluate(x, now, c)
  {
    if Satisfied(cs, now, c) {
      forall x | x in Meant(p) ensures Evaluate(x, now, c) {
        var i :| 0 <= i < |cs| && cs[i] == x;
      }
    }
    if forall x | x in Meant(p) :: Evaluate(x, now, c) {
      forall i | 0 <= i < |cs| ensures Evaluate(cs[i], now, c) {
        assert cs[i] in cs;
      }
    }
  }

  /**
   From issue to route: a session passes a journey route exactly when the caller is the one
   it was issued to, the action is the route's, the journey (if it was issued for one) is the
   path's, and its time has not run out.
   */
  lemma IssuedSessionPassesExactlyWhen(
    voc: Vocabulary, p: SessionParams, clock: Time, m: Macaroon, id: Option<Identity>, route: Route, now: Time)
    requires Sound(voc) && ValidParams(voc, p, clock) && Issued(p, m)
    ensures Guard(m, id, route, now) == Pass <==>
              && p.expiration != ZERO && route.pathJourney != ""
              && id.Some? && id.value.user == p.user && id.value.clientApp == p.clientApp
              && route.action == p.action
              && (p.journey == "" || route.pathJourney == p.journey)
              && now < p.expiration
    ensures Attach(m) == if p.expiration == ZERO then None else Some(Verified(Parsed(m.caveats), p.expiration))
  {
    var cs := Parsed(m.caveats);
    assert TimeBefore(p.expiration) in cs;
    if p.expiration != ZERO { TimedMacaroonsAttach(cs, p.expiration); }
    EarliestIsOneOf(Times(cs));
    TimesAre(cs, Earliest(Times(cs)));
    var c := Overlay(Constraints(route.pathJourney, route.action, "", ""), id);
    MeantSatisfied(p, cs, now, c);
    MeantHolds(p, now, c);
  }

  /** Whatever is appended to an issued session only restricts it: for those there is no exception. */
  lemma IssuedSessionsOnlyShrink(
    p: SessionParams, m: Macaroon, extra: seq<Raw>, id: Option<Identity>, route: Route, now: Time)
    requires Issued(p, m) && p.expiration != ZERO
    requires Guard(Attenuated(m, extra), id, route, now) == Pass
    ensures Guard(m, id, route, now) == Pass
  {
    AppendingOnlyRestricts(m, extra, id, route, now);
    var cs := Parsed(m.caveats);
    assert TimeBefore(p.expiration) in cs && TimeBefore(ZERO) !in cs;
    TimedMacaroonsAttach(cs, p.expiration);
  }

  lemma CreatedSessionsOnlyShrink(
    caller: Identity, req: SessionRequest, issued: Time, m: Macaroon, extra: seq<Raw>,
    id: Option<Identity>, route: Route, now: Time)
    requires |req.actions| == 1 && ZERO <= issued && Issued(ParamsOf(caller, req, issued), m)
    requires Guard(Attenuated(m, extra), id, route, now) == Pass
    ensures Guard(m, id, route, now) == Pass
  {
    IssuedSessionsOnlyShrink(ParamsOf(caller, req, issued), m, extra, id, route, now);
  }

  /** The same for a session created by request: its life is the clamped lifetime. */
  lemma CreatedSessionPassesExactlyWhen(
    voc: Vocabulary, caller: Identity, req: SessionRequest, issued: Time, m: Macaroon,
    id: Option<Identity>, route: Route, now: Time)
    requires Sound(voc) && |req.actions| == 1 && ZERO <= issued && route.pathJourney != ""
    requires ValidParams(voc, ParamsOf(caller, req, issued), issued) && Issued(ParamsOf(caller, req, issued), m)
    ensures Guard(m, id, route, now) == Pass <==>
              && id == Some(caller) && route.action == req.actions[0]
              && (req.journey == None || req.journey == Some("") || req.journey == Some(route.pathJourney))
              && now < issued + NormalizeSessionLifetime(req.lifetimeSeconds)
  {
    IssuedSessionPassesExactlyWhen(voc, ParamsOf(caller, req, issued), issued, m, id, route, now);
  }

  /** A session for one of the journey actions opens the journey it was issued for and no other. */
  lemma JourneyActionsAreBound(
    voc: Vocabulary, p: SessionParams, clock: Time, m: Macaroon, id: Option<Identity>, route: Route, now: Time)
    requires Sound(voc) && ValidParams(voc, p, clock) && Issued(p, m)
    requires route.action in {"journey.read", "journey.write", "telemetry.write", "media.upload"}
    requires Guard(m, id, route, now) == Pass
    ensures p.journey != "" && route.pathJourney == p.journey
  {
    IssuedSessionPassesExactlyWhen(voc, p, clock, m, id, route, now);
  }

  lemma MeantHolds(p: SessionParams, now: Time, c: Constraints)
    ensures (forall x | x in Meant(p) :: Evaluate(x, now, c)) <==>
              && Evaluate(User(p.user), now, c) && Evaluate(ClientApp(p.clientApp), now, c)
              && Evaluate(Action(p.action), now, c) && now < p.expiration
              && (p.journey == "" || Evaluate(Journey(p.journey), now, c))
  {
    if forall x | x in Meant(p) :: Evaluate(x, now, c) {
      assert User(p.user) in Meant(p) && ClientApp(p.clientApp) in Meant(p) && Action(p.action) in Meant(p);
      assert TimeBefore(p.expiration) in Meant(p);
      assert p.journey != "" ==> Journey(p.journey) in Meant(p);
    }
  }

  // ---- The convenience fields of a session ----

  datatype Kind = UserKind | ClientAppKind | JourneyKind | ActionKind

  predicate IsKind(c: Caveat, k: Kind) {
    match k
    case UserKind => c.User?
    case ClientAppKind => c.ClientApp?
    case JourneyKind => c.Journey?
    case ActionKind => c.Action?
  }

  function IdOf(c: Caveat): string {
    if c.TimeBefore? || c.Unknown? then "" else c.id
  }

  /** The values of one kind, in order. */
  function Values(cs: seq<Caveat>, k: Kind): seq<string> {
    if cs == [] then []
    else
      var n := |cs| - 1;
      if IsKind(cs[n], k) then Values(cs[..n], k) + [IdOf(cs[n])] else Values(cs[..n], k)
  }

  datatype Fields = Fields(user: string, clientApp: string, journey: string, action: string)

  function FieldOf(f: Fields, k: Kind): string {
    match k
    case UserKind => f.user
    case ClientAppKind => f.clientApp
    case JourneyKind => f.journey
    case ActionKind => f.action
  }

  /** The parser only yields non-empty ids. */
  predicate Named(cs: seq<Caveat>) {
    forall i | 0 <= i < |cs| && !cs[i].TimeBefore? && !cs[i].Unknown? :: IdOf(cs[i]) != ""
  }

  /** The last of an odd number of values, and nothing of an even number. */
  function OddLast(values: seq<string>): string {
    if |values| % 2 == 1 then values[|values| - 1] else ""
  }

  lemma {:induction false} ValuesAre(cs: seq<Caveat>, k: Kind, x: string)
    ensures x in Values(cs, k) <==> exists i :: 0 <= i < |cs| && IsKind(cs[i], k) && IdOf(cs[i]) == x
  {
    if cs == [] {
    } else {
      var n := |cs| - 1;
      ValuesAre(cs[..n], k, x);
      if x in Values(cs[..n], k) {
        var i :| 0 <= i < n && IsKind(cs[..n][i], k) && IdOf(cs[..n][i]) == x;
        assert cs[i] == cs[..n][i];
      }
      if i :| 0 <= i < n && IsKind(cs[i], k) && IdOf(cs[i]) == x {
        assert cs[..n][i] == cs[i];
      }
    }
  }

  lemma OddLastStep(cs: seq<Caveat>, c: Caveat, k: Kind)
    requires Named(cs + [c])
    ensures OddLast(Values(cs + [c], k)) ==
            if !IsKind(c, k) then OddLast(Values(cs, k))
            else if OddLast(Values(cs, k)) == "" then IdOf(c) else ""
  {
    assert (cs + [c])[..|cs|] == cs && (cs + [c])[|cs|] == c;
    var values := Values(cs, k);
    if |values| % 2 == 1 {
      var x := values[|values| - 1];
      assert x in values;
      ValuesAre(cs, k, x);
      var i :| 0 <= i < |cs| && IsKind(cs[i], k) && IdOf(cs[i]) == x;
      assert (cs + [c])[i] == cs[i];
      assert x != "";
    }
  }

  /** After the loop each field holds the last value of its kind if the kind occurs an odd number of times. */
  method SessionFromVerified(v: Verified) returns (f: Fields)
    requires Named(v.caveats)
    ensures forall k :: FieldOf(f, k) == OddLast(Values(v.caveats, k))
  {
    f := Fields("", "", "", "");
    for i := 0 to |v.caveats|
      invariant forall k :: FieldOf(f, k) == OddLast(Values(v.caveats[..i], k))
    {
      var c := v.caveats[i];
      assert v.caveats[..i + 1] == v.caveats[..i] + [c];
      forall k { OddLastStep(v.caveats[..i], c, k); }
      match c {
        case User(id) => f := f.(user := if f.user == "" then id else "");
        case ClientApp(id) => f := f.(clientApp := if f.clientApp == "" then id else "");
        case Journey(id) => f := f.(journey := if f.journey == "" then id else "");
        case Action(id) => f := f.(action := if f.action == "" then id else "");
        case TimeBefore(_) =>
        case Unknown =>
      }
    }
    assert v.caveats[..|v.caveats|] == v.caveats;
  }

  /**
   The documented rule, "the value of a single caveat, else empty", is what the loop computes
   exactly when the kind does not occur an odd number of times above one.
   */
  lemma SingletonRuleHoldsExactlyWhen(cs: seq<Caveat>, k: Kind)
    requires Named(cs)
    ensures var values := Values(cs, k);
            OddLast(values) == (if |values| == 1 then values[0] else "") <==> |values| % 2 == 0 || |values| == 1
  {
    var values := Values(cs, k);
    if |values| % 2 == 1 {
      var x := values[|values| - 1];
      assert x in values;
      ValuesAre(cs, k, x);
    }
  }

  /** Whatever the loop does with duplicates, a session that passes names the request's own values or none. */
  lemma PassingSessionNamesItsRequest(m: Macaroon, id: Identity, route: Route, now: Time, k: Kind)
    requires Guard(m, Some(id), route, now) == Pass
    ensures var x := OddLast(Values(Attach(m).value.caveats, k));
            x == "" || x == FieldOf(Fields(id.user, id.clientApp, route.pathJourney, route.action), k)
  {
    var cs := Attach(m).value.caveats;
    var values := Values(cs, k);
    if |values| % 2 == 1 {
      var x := OddLast(values);
      assert x in values;
      ValuesAre(cs, k, x);
      var i :| 0 <= i < |cs| && IsKind(cs[i], k) && IdOf(cs[i]) == x;
      assert Evaluate(cs[i], now, Overlay(Constraints(route.pathJourney, route.action, "", ""), Some(id)));
    }
  }
}
