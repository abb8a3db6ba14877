/**
 The structured client-certificate header of the reverse proxy: splitting it into fields,
 and the serial that a request's certificate is looked up by.
 */
module ClientCert {
  import opened Prelude
  import opened Serial

  // ---- One field ----

  /** strings.Cut at the first '='. */
  function Cut(s: string): Option<(string, string)> {
    if s == [] then None
    else if s[0] == '=' then Some(("", s[1..]))
    else
      var r := Cut(s[1..]);
      if r.None? then None else Some(([s[0]] + r.value.0, r.value.1))
  }

  function TrimQuotes(s: string): string {
    if s != [] && s[0] == '"' then TrimQuotes(s[1..])
    else if s != [] && s[|s| - 1] == '"' then TrimQuotes(s[..|s| - 1])
    else s
  }

  /** The key and value a segment contributes, if any. */
  function Field(raw: string): Option<(string, string)> {
    var cut := Cut(raw);
    if cut.None? then None
    else
      var k, v := TrimSpace(cut.value.0), TrimQuotes(TrimSpace(cut.value.1));
      if k == "" || v == "" then None else Some((k, v))
  }

  function Emit(out: map<string, string>, raw: string): map<string, string> {
    var f := Field(raw);
    if f.None? then out else out[f.value.0 := f.value.1]
  }

  // ---- Segments ----

  /** The text `a` put before the first piece. */
  function Prepend(a: string, pieces: seq<string>): (r: seq<string>)
    requires pieces != []
    ensures r != [] && r[0] == a + pieces[0] && r[1..] == pieces[1..]
  {
    [a + pieces[0]] + pieces[1..]
  }

  lemma PrependTwice(a: string, b: string, pieces: seq<string>)
    requires pieces != []
    ensures Prepend(a, Prepend(b, pieces)) == Prepend(a + b, pieces)
    ensures Prepend([], pieces) == pieces
  {
    assert a + (b + pieces[0]) == (a + b) + pieces[0];
    assert [] + pieces[0] == pieces[0];
  }

  /** The pieces between semicolons that stand outside quotes. */
  function Segments(s: string, inQuotes: bool): (r: seq<string>)
    ensures r != []
  {
    if s == [] then [[]]
    else if s[0] == ';' && !inQuotes then [[]] + Segments(s[1..], false)
    else Prepend([s[0]], Segments(s[1..], Toggle(s[0], inQuotes)))
  }

  function Toggle(c: char, inQuotes: bool): bool {
    if c == '"' then !inQuotes else inQuotes
  }

  function Collect(out: map<string, string>, segments: seq<string>): map<string, string>
    decreases |segments|
  {
    if segments == [] then out else Collect(Emit(out, segments[0]), segments[1..])
  }

  /** What is left to do when `token` has been read and `rest` is to come. */
  function Pending(out: map<string, string>, token: string, rest: string, inQuotes: bool): map<string, string> {
    Collect(out, Prepend(token, Segments(rest, inQuotes)))
  }

  lemma PendingStep(out: map<string, string>, token: string, rest: string, inQuotes: bool)
    requires rest != []
    ensures var c := rest[0];
            Pending(out, token, rest, inQuotes) ==
              if c == ';' && !inQuotes then Pending(Emit(out, token), [], rest[1..], false)
              else Pending(out, token + [c], rest[1..], Toggle(c, inQuotes))
  {
    var c := rest[0];
    var later := Segments(rest[1..], Toggle(c, inQuotes));
    if c == ';' && !inQuotes {
      PrependTwice([], [], later);
      assert token + [] == token;
      assert Prepend(token, Segments(rest, inQuotes)) == [token] + later;
    } else {
      PrependTwice(token, [c], later);
    }
  }

  method SplitInfoFields(header: string) returns (out: map<string, string>)
    ensures out == Collect(map[], Segments(header, false))
  {
    out := map[];
    var inQuotes, token, i := false, "", 0;
    assert header[0..] == header;
    PrependTwice([], [], Segments(header, false));
    while i < |header|
      invariant 0 <= i <= |header|
      invariant Pending(out, token, header[i..], inQuotes) == Collect(map[], Segments(header, false))
    {
      var c := header[i];
      PendingStep(out, token, header[i..], inQuotes);
      assert header[i..][1..] == header[i + 1..];
      if c == '"' {
        inQuotes := !inQuotes;
        token := token + [c];
      } else if c == ';' && !inQuotes {
        out := Emit(out, token);
        token := "";
      } else {
        token := token + [c];
      }
      i := i + 1;
    }
    assert header[i..] == [] && token + [] == token;
    assert Prepend(token, [[]]) == [token];
    assert Collect(out, [token]) == Collect(Emit(out, token), []);
    if |token| > 0 {
      out := Emit(out, token);
    }
  }

  // ---- A proxy's rendering is read back ----

  /** A key without syntax in it, and a value that quotes can hold. */
  predicate Plain(f: (string, string)) {
    && f.0 != "" && TrimSpace(f.0) == f.0 && '=' !in f.0 && '"' !in f.0 && ';' !in f.0
    && f.1 != "" && '"' !in f.1
  }

  function InQuotes(v: string): string {
    "\"" + (v + "\"")
  }

  function Quoted(f: (string, string)): string {
    (f.0 + "=") + InQuotes(f.1)
  }

  function Header(fields: seq<(string, string)>): string {
    if fields == [] then ""
    else if |fields| == 1 then Quoted(fields[0])
    else Quoted(fields[0]) + (";" + Header(fields[1..]))
  }

  /** The fields as a map, a later one replacing an earlier one of the same key. */
  function AsMap(out: map<string, string>, fields: seq<(string, string)>): map<string, string>
    decreases |fields|
  {
    if fields == [] then out else AsMap(out[fields[0].0 := fields[0].1], fields[1..])
  }

  lemma {:induction false} CutAt(k: string, v: string)
    requires '=' !in k
    ensures Cut(k + ("=" + v)) == Some((k, v))
  {
    var s := k + ("=" + v);
    if k == [] {
      assert s == "=" + v && s[1..] == v;
    } else {
      CutAt(k[1..], v);
      assert s[1..] == k[1..] + ("=" + v);
      assert s[0] == k[0] && k[0] in k;
      assert [k[0]] + k[1..] == k;
    }
  }

  lemma TrimQuotesPlain(v: string)
    requires '"' !in v && v != ""
    ensures TrimQuotes(InQuotes(v)) == v
  {
    var s, t := InQuotes(v), v + "\"";
    assert s[0] == '"' && s[1..] == t;
    assert v[0] in v && v[|v| - 1] in v;
    assert t[0] == v[0] && t[|t| - 1] == '"' && t[..|t| - 1] == v;
    assert TrimQuotes(v) == v;
    assert TrimQuotes(t) == v;
  }

  lemma QuotesShieldSpace(v: string)
    ensures TrimSpace(InQuotes(v)) == InQuotes(v)
  {
    var q := InQuotes(v);
    assert "" + q + "" == q;
    TrimSpaceDrops("", q, "");
  }

  lemma QuotedField(f: (string, string))
    requires Plain(f)
    ensures Field(Quoted(f)) == Some(f)
  {
    assert Quoted(f) == f.0 + ("=" + InQuotes(f.1));
    CutAt(f.0, InQuotes(f.1));
    QuotesShieldSpace(f.1);
    TrimQuotesPlain(f.1);
  }

  // ---- Exactly what a segment contributes ----

  /** Nothing to trim at either end. */
  predicate Trimmed(s: string) {
    s != "" && !IsSpace(s[0]) && !IsSpace(s[|s| - 1])
  }

  predicate AllQuotes(s: string) {
    forall i | 0 <= i < |s| :: s[i] == '"'
  }

  /** The value, not empty, between quotes that do not belong to it. */
  ghost predicate QuotedAs(text: string, v: string) {
    && v != "" && v[0] != '"' && v[|v| - 1] != '"'
    && exists m, n :: AllQuotes(m) && AllQuotes(n) && text == m + v + n
  }

  /** A key, an equals sign and a value that quotes may hold, with spaces strewn between them. */
  ghost predicate SpellsField(raw: string, k: string, v: string) {
    exists left, right :: raw == left + ("=" + right) && SpellsKey(left, k) && SpellsValue(right, v)
  }

  ghost predicate SpellsKey(left: string, k: string) {
    '=' !in left && Trimmed(k) && exists a, b :: AllSpace(a) && AllSpace(b) && left == a + k + b
  }

  ghost predicate SpellsValue(right: string, v: string) {
    exists c, text, d :: AllSpace(c) && AllSpace(d) && right == c + text + d && Trimmed(text) && QuotedAs(text, v)
  }

  lemma {:induction false} CutSplits(s: string)
    ensures Cut(s).Some? ==> s == Cut(s).value.0 + ("=" + Cut(s).value.1) && '=' !in Cut(s).value.0
  {
    if s != [] && s[0] != '=' {
      CutSplits(s[1..]);
      assert s == [s[0]] + s[1..];
    } else if s != [] {
      assert s == "" + ("=" + s[1..]);
    }
  }

  lemma {:induction false} TrimQuotesSplits(s: string) returns (m: string, n: string)
    ensures AllQuotes(m) && AllQuotes(n) && s == m + TrimQuotes(s) + n
    ensures TrimQuotes(s) != "" ==> TrimQuotes(s)[0] != '"' && TrimQuotes(s)[|TrimQuotes(s)| - 1] != '"'
    decreases |s|
  {
    m, n := "", "";
    if s != [] && s[0] == '"' {
      m, n := TrimQuotesSplits(s[1..]);
      assert s == [s[0]] + s[1..];
      m := [s[0]] + m;
    } else if s != [] && s[|s| - 1] == '"' {
      m, n := TrimQuotesSplits(s[..|s| - 1]);
      assert s == s[..|s| - 1] + [s[|s| - 1]];
      n := n + [s[|s| - 1]];
    }
  }

  lemma {:induction false} TrimQuotesDrops(m: string, v: string, n: string)
    requires AllQuotes(m) && AllQuotes(n) && v != "" && v[0] != '"' && v[|v| - 1] != '"'
    ensures TrimQuotes(m + v + n) == v
    decreases |m| + |n|
  {
    var s := m + v + n;
    if m != "" {
      assert s[0] == '"' && s[1..] == m[1..] + v + n;
      TrimQuotesDrops(m[1..], v, n);
    } else if n != "" {
      assert s[0] == v[0] && s[|s| - 1] == '"' && s[..|s| - 1] == m + v + n[..|n| - 1];
      TrimQuotesDrops(m, v, n[..|n| - 1]);
    } else {
      assert s == v;
    }
  }

  lemma TrimmedEnds(s: string)
    ensures TrimSpace(s) != "" ==> Trimmed(TrimSpace(s))
  {
    var l := TrimLeft(s);
    var r := TrimRight(l);
    assert r != [] ==> r[0] == l[0];
  }

  lemma KeyIsTrimmed(left: string, k: string)
    ensures '=' !in left ==> (SpellsKey(left, k) <==> k != "" && TrimSpace(left) == k)
  {
    if SpellsKey(left, k) {
      var a, b :| AllSpace(a) && AllSpace(b) && left == a + k + b;
      TrimSpaceDrops(a, k, b);
    }
    if k != "" && TrimSpace(left) == k {
      var a, b := TrimSpaceSplits(left);
      TrimmedEnds(left);
    }
  }

  lemma QuotesAreTrimmed(text: string, v: string)
    ensures QuotedAs(text, v) <==> v != "" && TrimQuotes(text) == v
  {
    if QuotedAs(text, v) {
      var m, n :| AllQuotes(m) && AllQuotes(n) && text == m + v + n;
      TrimQuotesDrops(m, v, n);
    }
    if v != "" && TrimQuotes(text) == v {
      var m, n := TrimQuotesSplits(text);
    }
  }

  lemma ValueIsTrimmed(right: string, v: string)
    ensures SpellsValue(right, v) <==> v != "" && TrimQuotes(TrimSpace(right)) == v
  {
    if SpellsValue(right, v) {
      var c, text, d :| AllSpace(c) && AllSpace(d) && right == c + text + d && Trimmed(text) && QuotedAs(text, v);
      TrimSpaceDrops(c, text, d);
      QuotesAreTrimmed(text, v);
    }
    if v != "" && TrimQuotes(TrimSpace(right)) == v {
      var c, d := TrimSpaceSplits(right);
      TrimmedEnds(right);
      QuotesAreTrimmed(TrimSpace(right), v);
    }
  }

  /** A segment contributes a field exactly when it spells one. */
  lemma FieldExactlyWhen(raw: string, k: string, v: string)
    ensures Field(raw) == Some((k, v)) <==> SpellsField(raw, k, v)
  {
    if SpellsField(raw, k, v) {
      var left, right :| raw == left + ("=" + right) && SpellsKey(left, k) && SpellsValue(right, v);
      CutAt(left, right);
      KeyIsTrimmed(left, k);
      ValueIsTrimmed(right, v);
    }
    if Field(raw) == Some((k, v)) {
      CutSplits(raw);
      KeyIsTrimmed(Cut(raw).value.0, k);
      ValueIsTrimmed(Cut(raw).value.1, v);
    }
  }

  /** Reading past a stretch that holds neither quote nor unquoted semicolon. */
  lemma {:induction false} SegmentsSkip(a: string, rest: string, inQuotes: bool)
    requires '"' !in a && (!inQuotes ==> ';' !in a)
    ensures Segments(a + rest, inQuotes) == Prepend(a, Segments(rest, inQuotes))
  {
    var r := Segments(rest, inQuotes);
    if a == [] {
      PrependTwice([], [], r);
      assert a + rest == rest;
    } else {
      SegmentsSkip(a[1..], rest, inQuotes);
      assert (a + rest)[1..] == a[1..] + rest;
      PrependTwice([a[0]], a[1..], r);
      assert a[0] in a && [a[0]] + a[1..] == a;
    }
  }

  lemma SegmentsQuote(rest: string, inQuotes: bool)
    ensures Segments("\"" + rest, inQuotes) == Prepend("\"", Segments(rest, !inQuotes))
  {
    assert ("\"" + rest)[1..] == rest;
  }

  lemma SegmentsPastValue(v: string, rest: string)
    requires '"' !in v
    ensures Segments(InQuotes(v) + rest, false) == Prepend(InQuotes(v), Segments(rest, false))
  {
    var r := Segments(rest, false);
    SegmentsQuote(rest, true);
    SegmentsSkip(v, "\"" + rest, true);
    SegmentsQuote(v + ("\"" + rest), false);
    PrependTwice(v, "\"", r);
    PrependTwice("\"", v + "\"", r);
    assert InQuotes(v) + rest == "\"" + (v + ("\"" + rest));
  }

  lemma SegmentsPastQuoted(f: (string, string), rest: string)
    requires Plain(f)
    ensures Segments(Quoted(f) + rest, false) == Prepend(Quoted(f), Segments(rest, false))
  {
    SegmentsPastValue(f.1, rest);
    SegmentsSkip(f.0 + "=", InQuotes(f.1) + rest, false);
    PrependTwice(f.0 + "=", InQuotes(f.1), Segments(rest, false));
    assert Quoted(f) + rest == (f.0 + "=") + (InQuotes(f.1) + rest);
  }

  lemma CollectQuoted(out: map<string, string>, f: (string, string), pieces: seq<string>)
    requires Plain(f) && pieces != [] && pieces[0] == []
    ensures Collect(out, Prepend(Quoted(f), pieces)) == Collect(out[f.0 := f.1], pieces[1..])
  {
    QuotedField(f);
    assert Quoted(f) + [] == Quoted(f);
  }

  /** Splitting undoes rendering, whatever semicolons, commas and equals signs the values hold. */
  lemma {:induction false} HeaderRoundTrip(out: map<string, string>, fields: seq<(string, string)>)
    requires forall i | 0 <= i < |fields| :: Plain(fields[i])
    ensures Collect(out, Segments(Header(fields), false)) == AsMap(out, fields)
    decreases |fields|
  {
    if fields == [] {
      assert Cut("").None?;
      assert Collect(out, [""]) == Collect(Emit(out, ""), []);
    } else {
      var f := fields[0];
      var rest := if |fields| == 1 then "" else ";" + Header(fields[1..]);
      assert Quoted(f) + "" == Quoted(f);
      assert Header(fields) == Quoted(f) + rest;
      SegmentsPastQuoted(f, rest);
      CollectQuoted(out, f, Segments(rest, false));
      if |fields| > 1 {
        assert rest[1..] == Header(fields[1..]);
        HeaderRoundTrip(out[f.0 := f.1], fields[1..]);
      }
    }
  }

  // ---- The serial of a request ----

  /** strings.ToLower for the two names: outside ASCII only the dotted capital I turns into one of their letters. */
  function LowerKey(k: string): (r: string)
    ensures |r| == |k|
  {
    seq(|k|, i requires 0 <= i < |k| => if k[i] == '\U{130}' then 'i' else LowerChar(k[i]))
  }

  predicate SerialKey(k: string) {
    LowerKey(k) == "serialnumber" || LowerKey(k) == "sn"
  }

  /** The same text but for capitals. */
  predicate SameButCase(k: string, lower: string) {
    |k| == |lower| && forall i | 0 <= i < |k| :: Capital(k[i], lower[i])
  }

  predicate Capital(c: char, lower: char) {
    c == lower || c as int + 32 == lower as int || (c as int == 0x130 && lower == 'i')
  }

  lemma SerialKeysSpelledOut(k: string)
    ensures SerialKey(k) <==> SameButCase(k, "serialnumber") || SameButCase(k, "sn")
  {
    forall lower | lower == "serialnumber" || lower == "sn" ensures LowerKey(k) == lower <==> SameButCase(k, lower) {
      LowerSpelledOut(k, lower);
    }
  }

  lemma LowerSpelledOut(k: string, lower: string)
    requires forall i | 0 <= i < |lower| :: 'a' <= lower[i] <= 'z'
    ensures LowerKey(k) == lower <==> SameButCase(k, lower)
  {
    if SameButCase(k, lower) { assert LowerKey(k) == lower; }
    if LowerKey(k) == lower {
      forall i | 0 <= i < |k| ensures Capital(k[i], lower[i]) { assert LowerKey(k)[i] == lower[i]; }
    }
  }

  /** The serial after visiting the fields in the given order, as Go's map iteration may choose it. */
  function SerialOf(fields: map<string, string>, order: seq<string>): Option<string>
    requires forall k | k in order :: k in fields
  {
    if order == [] then None
    else
      var k := order[|order| - 1];
      if SerialKey(k) && CanonicalSerial(fields[k]).Some? then CanonicalSerial(fields[k])
      else SerialOf(fields, order[..|order| - 1])
  }

  predicate Enumerates(order: seq<string>, fields: map<string, string>) {
    && (forall k | k in order :: k in fields)
    && (forall k | k in fields :: k in order)
    && (forall i, j | 0 <= i < j < |order| :: order[i] != order[j])
  }

  predicate Names(fields: map<string, string>, k: string) {
    k in fields && SerialKey(k) && CanonicalSerial(fields[k]).Some?
  }

  lemma {:induction false} SerialIsNamed(fields: map<string, string>, order: seq<string>)
    requires forall k | k in order :: k in fields
    ensures SerialOf(fields, order).Some? <==> exists k :: k in order && Names(fields, k)
    ensures SerialOf(fields, order).Some? ==>
              exists k :: k in order && Names(fields, k) && CanonicalSerial(fields[k]) == SerialOf(fields, order)
  {
    if order == [] {
    } else {
      var k := order[|order| - 1];
      SerialIsNamed(fields, order[..|order| - 1]);
      assert forall x :: x in order <==> x in order[..|order| - 1] || x == k;
      if Names(fields, k) { assert k in order; }
    }
  }

  /** The order with positions i and j exchanged. */
  lemma Exchanged(fields: map<string, string>, order: seq<string>, i: nat, j: nat)
    requires Enumerates(order, fields) && i < |order| && j < |order|
    ensures Enumerates(order[i := order[j]][j := order[i]], fields)
  {
    var other := order[i := order[j]][j := order[i]];
    forall x | x in fields ensures x in other {
      var n :| 0 <= n < |order| && order[n] == x;
      assert other[if n == i then j else if n == j then i else n] == x;
    }
    forall m, n | 0 <= m < n < |other| ensures other[m] != other[n] {
      var m' := if m == i then j else if m == j then i else m;
      var n' := if n == i then j else if n == j then i else n;
      assert other[m] == order[m'] && other[n] == order[n'] && m' != n';
    }
  }

  lemma LastDecides(fields: map<string, string>, order: seq<string>)
    requires order != [] && (forall k | k in order :: k in fields) && Names(fields, order[|order| - 1])
    ensures SerialOf(fields, order) == CanonicalSerial(fields[order[|order| - 1]])
  {
  }

  /** A key can be visited last. */
  lemma LastVisited(fields: map<string, string>, order: seq<string>, k: string) returns (other: seq<string>)
    requires Enumerates(order, fields) && Names(fields, k)
    ensures Enumerates(other, fields) && SerialOf(fields, other) == CanonicalSerial(fields[k])
  {
    var i :| 0 <= i < |order| && order[i] == k;
    var n := |order| - 1;
    other := order[i := order[n]][n := order[i]];
    Exchanged(fields, order, i, n);
    LastDecides(fields, other);
  }

  /**
   The serial does not depend on the order in which the fields are visited exactly when all
   the serial fields that are accepted agree.
   */
  lemma SerialIsDeterminedExactlyWhen(fields: map<string, string>, order: seq<string>)
    requires Enumerates(order, fields)
    ensures (forall other | Enumerates(other, fields) :: SerialOf(fields, other) == SerialOf(fields, order)) <==>
            (forall j, k | Names(fields, j) && Names(fields, k) ::
               CanonicalSerial(fields[j]) == CanonicalSerial(fields[k]))
  {
    if forall other | Enumerates(other, fields) :: SerialOf(fields, other) == SerialOf(fields, order) {
      forall j, k | Names(fields, j) && Names(fields, k)
        ensures CanonicalSerial(fields[j]) == CanonicalSerial(fields[k])
      {
        var one := LastVisited(fields, order, j);
        var two := LastVisited(fields, order, k);
      }
    }
    if forall j, k | Names(fields, j) && Names(fields, k) :: CanonicalSerial(fields[j]) == CanonicalSerial(fields[k]) {
      SerialIsNamed(fields, order);
      forall other | Enumerates(other, fields) ensures SerialOf(fields, other) == SerialOf(fields, order) {
        SerialIsNamed(fields, other);
      }
    }
  }

  lemma PairIsRead(j: string, v: string, k: string, x: string)
    requires Plain((j, v)) && Plain((k, x))
    ensures Collect(map[], Segments(Header([(j, v), (k, x)]), false)) == map[j := v][k := x]
  {
    var fields := [(j, v), (k, x)];
    HeaderRoundTrip(map[], fields);
    assert fields[1..] == [(k, x)] && fields[1..][1..] == [];
    assert AsMap(map[], fields) == AsMap(map[j := v], fields[1..]) == AsMap(map[j := v][k := x], []);
  }

  lemma PairsEnumerate(fields: map<string, string>, j: string, k: string)
    requires fields.Keys == {j, k} && j != k
    ensures Enumerates([j, k], fields)
  {
    var order := [j, k];
    assert order[0] == j && order[1] == k;
  }

  /** Visited last, a field that decorates n decides the serial. */
  lemma SecondDecides(fields: map<string, string>, j: string, k: string, n: nat)
    requires fields.Keys == {j, k} && SerialKey(k) && n > 0 && Decorates(fields[k], n)
    ensures SerialOf(fields, [j, k]) == Some(Hex(n))
  {
    DecorationsNormalize(fields[k], n);
    LastDecides(fields, [j, k]);
  }

  /** Visiting the two fields in one order gives one serial, in the other order the other. */
  predicate Disagrees(fields: map<string, string>, j: string, m: nat, k: string, n: nat) {
    && Enumerates([j, k], fields) && SerialOf(fields, [j, k]) == Some(Hex(n))
    && Enumerates([k, j], fields) && SerialOf(fields, [k, j]) == Some(Hex(m))
    && Hex(m) != Hex(n)
  }

  lemma PairsDisagree(fields: map<string, string>, j: string, m: nat, k: string, n: nat)
    requires fields.Keys == {j, k} && j != k && SerialKey(j) && SerialKey(k)
    requires m > 0 && n > 0 && m != n && Decorates(fields[j], m) && Decorates(fields[k], n)
    ensures Disagrees(fields, j, m, k, n)
  {
    PairsEnumerate(fields, j, k);
    PairsEnumerate(fields, k, j);
    SecondDecides(fields, j, k, n);
    SecondDecides(fields, k, j, m);
    HexRoundTrip(m);
    HexRoundTrip(n);
  }

  /**
   A header with two serial fields that decorate different numbers, such as SerialNumber="1"
   and SN="2", yields either number's key, as the iteration happens to go.
   */
  lemma DisagreeingSerialsDependOnOrder(j: string, v: string, m: nat, k: string, x: string, n: nat)
    requires Plain((j, v)) && Plain((k, x)) && j != k && SerialKey(j) && SerialKey(k)
    requires m > 0 && n > 0 && m != n && Decorates(v, m) && Decorates(x, n)
    ensures Disagrees(Collect(map[], Segments(Header([(j, v), (k, x)]), false)), j, m, k, n)
  {
    PairIsRead(j, v, k, x);
    PairsDisagree(map[j := v][k := x], j, m, k, n);
  }

  lemma TrimmedIsPlain(k: string, v: string)
    requires k != "" && !IsSpace(k[0]) && !IsSpace(k[|k| - 1]) && '=' !in k && '"' !in k && ';' !in k
    requires v != "" && '"' !in v
    ensures Plain((k, v))
  {
    assert "" + k + "" == k;
    TrimSpaceDrops("", k, "");
  }

  /** The fields SerialNumber="1" and SN="2", each with what the family asks of it. */
  lemma FirstField() returns (j: string, v: string)
    ensures j == "SerialNumber" && v == "1"
    ensures Plain((j, v)) && SerialKey(j) && Decorates(v, 1)
  {
    j, v := "SerialNumber", "1";
    TrimmedIsPlain(j, v);
    CapitalsDoNotMatter();
    assert Hex(1) == v;
    PlainHexDecorates(1);
  }

  lemma CapitalsDoNotMatter()
    ensures SerialKey("SerialNumber") && SerialKey("SN")
  {
    assert LowerKey("SerialNumber") == "serialnumber";
    assert LowerKey("SN") == "sn";
  }

  lemma SecondField() returns (k: string, x: string)
    ensures k == "SN" && x == "2"
    ensures Plain((k, x)) && SerialKey(k) && Decorates(x, 2)
  {
    k, x := "SN", "2";
    TrimmedIsPlain(k, x);
    CapitalsDoNotMatter();
    assert Hex(2) == x;
    PlainHexDecorates(2);
  }

  /** The header SerialNumber="1";SN="2" stands for serial 1 or serial 2. */
  lemma OneHeaderTwoSerials() returns (header: string, j: string, v: string, k: string, x: string)
    ensures j == "SerialNumber" && v == "1" && k == "SN" && x == "2" && header == Header([(j, v), (k, x)])
    ensures Disagrees(Collect(map[], Segments(header, false)), j, 1, k, 2)
  {
    j, v := FirstField();
    k, x := SecondField();
    assert |j| != |k|;
    header := HeaderOfTwo(j, v, 1, k, x, 2);
  }

  lemma HeaderOfTwo(j: string, v: string, m: nat, k: string, x: string, n: nat) returns (header: string)
    requires Plain((j, v)) && Plain((k, x)) && j != k && SerialKey(j) && SerialKey(k)
    requires m > 0 && n > 0 && m != n && Decorates(v, m) && Decorates(x, n)
    ensures header == Header([(j, v), (k, x)]) && Disagrees(Collect(map[], Segments(header, false)), j, m, k, n)
  {
    header := Header([(j, v), (k, x)]);
    DisagreeingSerialsDependOnOrder(j, v, m, k, x, n);
  }

  /**
   A proxy that names the serial n of a certificate once, however it decorates it, leads to
   the key under which the server stored that certificate.
   */
  lemma ForwardedSerialIsTheStoredKey(fields: seq<(string, string)>, order: seq<string>, n: nat)
    requires forall i | 0 <= i < |fields| :: Plain(fields[i])
    requires n > 0 && (forall k, v | AsMapHas(fields, k, v) && SerialKey(k) :: Decorates(v, n))
    requires exists k, v :: AsMapHas(fields, k, v) && SerialKey(k)
    requires Enumerates(order, Collect(map[], Segments(Header(fields), false)))
    ensures SerialOf(Collect(map[], Segments(Header(fields), false)), order) == Some(Hex(n))
  {
    HeaderRoundTrip(map[], fields);
    var m := AsMap(map[], fields);
    var k0, v0 :| AsMapHas(fields, k0, v0) && SerialKey(k0);
    DecorationsNormalize(v0, n);
    assert Names(m, k0) && k0 in order;
    SerialIsNamed(m, order);
    var k :| k in order && Names(m, k) && CanonicalSerial(m[k]) == SerialOf(m, order);
    assert AsMapHas(fields, k, m[k]);
    DecorationsNormalize(m[k], n);
  }

  predicate AsMapHas(fields: seq<(string, string)>, k: string, v: string) {
    var m := AsMap(map[], fields);
    k in m && m[k] == v
  }
}
