/**
 Certificate serials as text: hexadecimal rendering, and the normalisation that makes a
 serial from any extraction path the same lookup key.
 */
module Serial {
  import opened Prelude

  // ---- Hexadecimal ----

  predicate HexDigit(c: char) {
    '0' <= c <= '9' || 'a' <= c <= 'f' || 'A' <= c <= 'F'
  }

  predicate AllHex(s: string) {
    forall i | 0 <= i < |s| :: HexDigit(s[i])
  }

  function DigitValue(c: char): (v: nat)
    requires HexDigit(c)
    ensures v < 16
  {
    if c <= '9' then c as int - '0' as int
    else if c <= 'F' then c as int - 'A' as int + 10
    else c as int - 'a' as int + 10
  }

  function DigitChar(v: nat): (c: char)
    requires v < 16
    ensures HexDigit(c) && LowerChar(c) == c && DigitValue(c) == v
    ensures c == "0123456789abcdef"[v]
  {
    if v < 10 then ('0' as int + v) as char else ('a' as int + v - 10) as char
  }

  function HexValue(s: string): nat
    requires AllHex(s)
  {
    if s == [] then 0 else 16 * HexValue(s[..|s| - 1]) + DigitValue(s[|s| - 1])
  }

  /** big.Int's Text(16): lower case, no leading zeros. */
  function Hex(n: nat): string {
    if n < 16 then [DigitChar(n)] else Hex(n / 16) + [DigitChar(n % 16)]
  }

  function LowerChar(c: char): char {
    if 'A' <= c <= 'Z' then (c as int - 'A' as int + 'a' as int) as char else c
  }

  function Lower(s: string): (r: string)
    ensures |r| == |s|
  {
    seq(|s|, i requires 0 <= i < |s| => LowerChar(s[i]))
  }

  function Zeros(z: nat): string {
    seq(z, _ => '0')
  }

  lemma {:induction false} HexRoundTrip(n: nat)
    ensures AllHex(Hex(n)) && Hex(n) != [] && Lower(Hex(n)) == Hex(n) && HexValue(Hex(n)) == n
  {
    if n >= 16 {
      HexRoundTrip(n / 16);
      assert Hex(n)[..|Hex(n)| - 1] == Hex(n / 16);
      var h, t := Hex(n / 16), Hex(n);
      assert forall i | 0 <= i < |h| :: LowerChar(h[i]) == Lower(h)[i];
    } else {
      assert Hex(n)[..0] == [];
    }
  }

  lemma {:induction false} ValueIgnoresCase(s: string)
    requires AllHex(s)
    ensures AllHex(Lower(s)) && HexValue(Lower(s)) == HexValue(s)
  {
    if s == [] {
    } else {
      ValueIgnoresCase(s[..|s| - 1]);
      assert Lower(s)[..|s| - 1] == Lower(s[..|s| - 1]);
    }
  }

  lemma {:induction false} ValueIgnoresZeros(z: nat, s: string)
    requires AllHex(s)
    ensures AllHex(Zeros(z) + s) && HexValue(Zeros(z) + s) == HexValue(s)
  {
    var all := Zeros(z) + s;
    if s != [] {
      ValueIgnoresZeros(z, s[..|s| - 1]);
      assert all[..|all| - 1] == Zeros(z) + s[..|s| - 1];
    } else if z > 0 {
      ValueIgnoresZeros(z - 1, []);
      assert all[..|all| - 1] == Zeros(z - 1) + [];
    }
  }

  lemma {:induction false} ZeroIsAllZeros(s: string)
    requires AllHex(s) && HexValue(s) == 0
    ensures s == Zeros(|s|)
  {
    if s == [] {
    } else {
      ZeroIsAllZeros(s[..|s| - 1]);
      assert s == s[..|s| - 1] + [s[|s| - 1]];
    }
  }

  /** Digits for a positive n are the rendering of n after some zeros. */
  lemma {:induction false} DigitsArePaddedHex(s: string)
    requires AllHex(s) && Lower(s) == s && HexValue(s) > 0
    ensures |Hex(HexValue(s))| <= |s|
    ensures s == Zeros(|s| - |Hex(HexValue(s))|) + Hex(HexValue(s))
  {
    var t, c := s[..|s| - 1], s[|s| - 1];
    assert s == t + [c];
    assert c == DigitChar(DigitValue(c)) by { assert Lower(s)[|s| - 1] == LowerChar(c); }
    var n := HexValue(s);
    if HexValue(t) == 0 {
      ZeroIsAllZeros(t);
    } else {
      assert Lower(t) == t by {
        forall i | 0 <= i < |t| ensures LowerChar(t[i]) == t[i] { assert Lower(s)[i] == LowerChar(s[i]); }
      }
      DigitsArePaddedHex(t);
      assert n / 16 == HexValue(t) && n % 16 == DigitValue(c);
      var z := |t| - |Hex(HexValue(t))|;
      assert s == Zeros(z) + (Hex(HexValue(t)) + [c]);
    }
  }

  // ---- strings.TrimSpace, TrimPrefix, ReplaceAll and big.Int.SetString ----

  predicate IsSpace(c: char) {
    || '\t' <= c <= '\r' || c == ' ' || c == '\U{85}' || c == '\U{A0}' || c == '\U{1680}'
    || '\U{2000}' <= c <= '\U{200A}' || c == '\U{2028}' || c == '\U{2029}' || c == '\U{202F}'
    || c == '\U{205F}' || c == '\U{3000}'
  }

  /** The code points with the property White_Space. */
  const WHITE_SPACE: set<int> := {
    0x09, 0x0A, 0x0B, 0x0C, 0x0D, 0x20, 0x85, 0xA0, 0x1680, 0x2000, 0x2001, 0x2002, 0x2003, 0x2004, 0x2005, 0x2006,
    0x2007, 0x2008, 0x2009, 0x200A, 0x2028, 0x2029, 0x202F, 0x205F, 0x3000}

  lemma SpaceTable(c: char)
    ensures IsSpace(c) <==> c as int in WHITE_SPACE
  {
  }

  predicate AllSpace(s: string) {
    forall i | 0 <= i < |s| :: IsSpace(s[i])
  }

  function TrimLeft(s: string): (r: string)
    ensures exists w :: AllSpace(w) && s == w + r
    ensures r != [] ==> !IsSpace(r[0])
  {
    if s == [] || !IsSpace(s[0]) then assert AllSpace([]) && s == [] + s; s
    else
      var r := TrimLeft(s[1..]);
      assert exists w :: AllSpace(w) && s == w + r by {
        var w :| AllSpace(w) && s[1..] == w + r;
        assert AllSpace([s[0]] + w) && s == ([s[0]] + w) + r;
      }
      r
  }

  function TrimRight(s: string): (r: string)
    ensures exists w :: AllSpace(w) && s == r + w
    ensures r != [] ==> !IsSpace(r[|r| - 1])
    ensures r <= s
  {
    if s == [] || !IsSpace(s[|s| - 1]) then assert AllSpace([]) && s == s + []; s
    else
      var r := TrimRight(s[..|s| - 1]);
      assert exists w :: AllSpace(w) && s == r + w by {
        var w :| AllSpace(w) && s[..|s| - 1] == r + w;
        assert AllSpace(w + [s[|s| - 1]]) && s == r + (w + [s[|s| - 1]]);
      }
      r
  }

  function TrimSpace(s: string): string {
    TrimRight(TrimLeft(s))
  }

  function TrimPrefix(s: string, p: string): string {
    if p <= s then s[|p|..] else s
  }

  function Remove(s: string, c: char): string {
    if s == [] then [] else if s[0] == c then Remove(s[1..], c) else [s[0]] + Remove(s[1..], c)
  }

  /** The text without its separators. */
  function Bare(s: string): string {
    Remove(Remove(s, ':'), '-')
  }

  /** big.Int.SetString(s, 16): an optional sign and at least one digit. */
  function ParseHex(s: string): Option<int> {
    var digits := if s != [] && (s[0] == '+' || s[0] == '-') then s[1..] else s;
    if digits == [] || !AllHex(digits) then None
    else if s[0] == '-' then Some(-(HexValue(digits) as int)) else Some(HexValue(digits))
  }

  function CanonicalSerial(raw: string): Option<string> {
    var trimmed := Bare(TrimPrefix(TrimPrefix(TrimSpace(raw), "0x"), "0X"));
    if trimmed == "" then None
    else
      var n := ParseHex(trimmed);
      if n.None? || n.value <= 0 then None else Some(Hex(n.value))
  }

  // ---- What it accepts ----

  predicate Prefix(p: string) {
    p == "" || p == "0x" || p == "0X" || p == "0x0X"
  }

  /** `body` is `core` with colons and hyphens strewn in. */
  predicate Strewn(body: string, core: string) {
    if body == [] then core == []
    else if body[0] == ':' || body[0] == '-' then Strewn(body[1..], core)
    else core != [] && core[0] == body[0] && Strewn(body[1..], core[1..])
  }

  /** The digits of n in any case, after any zeros and possibly a plus sign, with separators strewn in. */
  predicate Spells(body: string, n: nat, sign: string, digits: string, z: nat) {
    (sign == "" || sign == "+") && Strewn(body, sign + digits) && Lower(digits) == Zeros(z) + Hex(n)
  }

  /** raw is n written out as some tool may write it. */
  ghost predicate Decorates(raw: string, n: nat) {
    exists left, prefix, body, right, sign, digits, z: nat ::
      && raw == left + (prefix + body) + right
      && AllSpace(left) && AllSpace(right) && Prefix(prefix) && Spells(body, n, sign, digits, z)
  }

  lemma {:induction false} RemoveKeeps(s: string, c: char, x: char)
    ensures x in Remove(s, c) <==> x in s && x != c
  {
    if s == [] {
    } else {
      RemoveKeeps(s[1..], c, x);
    }
  }

  /** Removing the separators is undoing the strewing. */
  lemma {:induction false} BareUndoesStrewing(body: string, core: string)
    ensures Strewn(body, core) <==> Bare(body) == core
  {
    if body == [] {
    } else {
      var rest := body[1..];
      if body[0] == ':' || body[0] == '-' {
        BareUndoesStrewing(rest, core);
      } else {
        assert Bare(body) == [body[0]] + Bare(rest) by {
          assert ([body[0]] + Remove(rest, ':'))[1..] == Remove(rest, ':');
        }
        if core != [] {
          BareUndoesStrewing(rest, core[1..]);
          assert core == [core[0]] + core[1..];
        }
      }
    }
  }

  lemma LowerHexOnly(s: string)
    requires AllHex(Lower(s))
    ensures AllHex(s)
  {
    forall i | 0 <= i < |s| ensures HexDigit(s[i]) { assert HexDigit(Lower(s)[i]); }
  }

  /** Digits, whatever their case and leading zeros, spell the number they denote. */
  lemma DigitsSpell(digits: string, n: nat, z: nat)
    requires n > 0
    ensures AllHex(digits) && HexValue(digits) == n ==>
              |Hex(n)| <= |digits| && Lower(digits) == Zeros(|digits| - |Hex(n)|) + Hex(n)
    ensures Lower(digits) == Zeros(z) + Hex(n) ==> digits != [] && AllHex(digits) && HexValue(digits) == n
  {
    if AllHex(digits) && HexValue(digits) == n {
      ValueIgnoresCase(digits);
      assert Lower(Lower(digits)) == Lower(digits);
      DigitsArePaddedHex(Lower(digits));
    }
    if Lower(digits) == Zeros(z) + Hex(n) {
      HexRoundTrip(n);
      ValueIgnoresZeros(z, Hex(n));
      LowerHexOnly(digits);
      ValueIgnoresCase(digits);
    }
  }

  lemma ParsedIsSpelled(body: string, n: nat)
    requires n > 0 && ParseHex(Bare(body)) == Some(n)
    ensures exists sign, digits, z: nat :: Spells(body, n, sign, digits, z)
  {
    var s := Bare(body);
    var sign := if s[0] == '+' then "+" else "";
    var digits := s[|sign|..];
    DigitsSpell(digits, n, 0);
    BareUndoesStrewing(body, sign + digits);
    assert s == sign + digits;
    assert Spells(body, n, sign, digits, |digits| - |Hex(n)|);
  }

  lemma SpelledIsParsed(body: string, n: nat, sign: string, digits: string, z: nat)
    requires n > 0 && Spells(body, n, sign, digits, z)
    ensures Bare(body) != "" && ParseHex(Bare(body)) == Some(n)
    ensures body != "" && forall c | c in body :: HexDigit(c) || c == '+' || c == ':' || c == '-'
  {
    var s := Bare(body);
    BareUndoesStrewing(body, sign + digits);
    DigitsSpell(digits, n, z);
    if sign == "+" {
      assert s[0] == '+' && s[1..] == digits;
    } else {
      assert s == digits && HexDigit(s[0]);
    }
    forall c | c in body && c != ':' && c != '-' ensures HexDigit(c) || c == '+' {
      RemoveKeeps(body, ':', c);
      RemoveKeeps(Remove(body, ':'), '-', c);
      assert c in s;
      assert s == sign + digits;
    }
  }

  // ---- Trimming ----

  lemma {:induction false} TrimLeftDrops(w: string, core: string)
    requires AllSpace(w) && core != [] && !IsSpace(core[0])
    ensures TrimLeft(w + core) == core
  {
    if w == [] {
      assert w + core == core;
    } else {
      TrimLeftDrops(w[1..], core);
      assert (w + core)[1..] == w[1..] + core;
    }
  }

  lemma {:induction false} TrimRightDrops(core: string, w: string)
    requires AllSpace(w) && core != [] && !IsSpace(core[|core| - 1])
    ensures TrimRight(core + w) == core
  {
    if w == [] {
      assert core + w == core;
    } else {
      TrimRightDrops(core, w[..|w| - 1]);
      assert (core + w)[..|core + w| - 1] == core + w[..|w| - 1];
    }
  }

  lemma TrimSpaceDrops(left: string, core: string, right: string)
    requires AllSpace(left) && AllSpace(right) && core != []
    requires !IsSpace(core[0]) && !IsSpace(core[|core| - 1])
    ensures TrimSpace(left + core + right) == core
  {
    assert left + core + right == left + (core + right);
    TrimLeftDrops(left, core + right);
    TrimRightDrops(core, right);
  }

  lemma TrimSpaceSplits(s: string) returns (left: string, right: string)
    ensures AllSpace(left) && AllSpace(right) && s == left + TrimSpace(s) + right
  {
    left :| AllSpace(left) && s == left + TrimLeft(s);
    right :| AllSpace(right) && TrimLeft(s) == TrimSpace(s) + right;
  }

  lemma PrefixesDrop(prefix: string, body: string)
    requires Prefix(prefix) && 'x' !in body && 'X' !in body
    ensures TrimPrefix(TrimPrefix(prefix + body, "0x"), "0X") == body
  {
    assert |body| > 1 ==> body[1] in body;
    assert !("0x" <= body) && !("0X" <= body);
    if prefix == "0x" || prefix == "0x0X" {
      assert (prefix + body)[2..] == prefix[2..] + body;
    }
    if prefix == "0X" {
      assert (prefix + body)[1] == 'X' && (prefix + body)[2..] == body;
    }
    if prefix == "0x0X" {
      assert prefix[2..] == "0X" && ("0X" + body)[2..] == body;
    }
    assert "" + body == body;
  }

  // ---- Main results ----

  /** Every decoration of a positive serial becomes the text the database keys on. */
  lemma DecorationsNormalize(raw: string, n: nat)
    requires n > 0 && Decorates(raw, n)
    ensures CanonicalSerial(raw) == Some(Hex(n))
  {
    var left, prefix, body, right, sign, digits, z: nat :|
      && raw == left + (prefix + body) + right
      && AllSpace(left) && AllSpace(right) && Prefix(prefix) && Spells(body, n, sign, digits, z);
    SpelledIsParsed(body, n, sign, digits, z);
    var core := prefix + body;
    assert core[|core| - 1] == body[|body| - 1] && core[|core| - 1] in body;
    assert core[0] == if prefix == "" then body[0] else '0';
    assert body[0] in body;
    TrimSpaceDrops(left, core, right);
    PrefixesDrop(prefix, body);
  }

  lemma PrefixSplits(core: string) returns (prefix: string)
    ensures Prefix(prefix) && core == prefix + TrimPrefix(TrimPrefix(core, "0x"), "0X")
  {
    var once := TrimPrefix(core, "0x");
    var first := if "0x" <= core then "0x" else "";
    var second := if "0X" <= once then "0X" else "";
    assert core == first + once && once == second + TrimPrefix(once, "0X");
    prefix := first + second;
    assert prefix == "" || prefix == "0x" || prefix == "0X" || prefix == "0x0X";
    assert core == prefix + TrimPrefix(once, "0X");
  }

  /** Nothing else is accepted. */
  lemma AcceptedAreDecorations(raw: string) returns (n: nat)
    requires CanonicalSerial(raw).Some?
    ensures n > 0 && Decorates(raw, n) && CanonicalSerial(raw) == Some(Hex(n))
  {
    var core := TrimSpace(raw);
    var left, right := TrimSpaceSplits(raw);
    var prefix := PrefixSplits(core);
    var body := TrimPrefix(TrimPrefix(core, "0x"), "0X");
    n := ParseHex(Bare(body)).value;
    ParsedIsSpelled(body, n);
    var sign, digits, z: nat :| Spells(body, n, sign, digits, z);
    assert raw == left + (prefix + body) + right;
  }

  lemma PlainHexDecorates(n: nat)
    requires n > 0
    ensures Decorates(Hex(n), n)
  {
    HexRoundTrip(n);
    BareHex(Hex(n));
    BareUndoesStrewing(Hex(n), "" + Hex(n));
    assert Spells(Hex(n), n, "", Hex(n), 0) by { assert Zeros(0) + Hex(n) == Hex(n) && "" + Hex(n) == Hex(n); }
    assert Hex(n) == "" + ("" + Hex(n)) + "";
    assert AllSpace("");
  }

  lemma {:induction false} BareHex(s: string)
    requires AllHex(s)
    ensures Remove(s, ':') == s && Bare(s) == s
  {
    if s == [] {
    } else {
      BareHex(s[1..]);
      assert s == [s[0]] + s[1..];
    }
  }

  /** An X.509 tool's spelling of 43807 and the key it leads to. */
  lemma SerialExample()
    ensures CanonicalSerial(" 0xaB:1F\t") == Some("ab1f")
  {
    ExampleHex();
    ExampleSpells();
    var raw := " " + ("0x" + "aB:1F") + "\t";
    assert raw == " 0xaB:1F\t" && AllSpace(" ") && AllSpace("\t");
    assert Decorates(raw, 43_807);
    DecorationsNormalize(raw, 43_807);
  }

  lemma ExampleHex()
    ensures Hex(43_807) == "ab1f"
  {
    assert Hex(171) == "ab";
    assert Hex(2_737) == "ab1";
  }

  lemma ExampleSpells()
    ensures Spells("aB:1F", 43_807, "", "aB1F", 0)
  {
    ExampleHex();
    ExampleStrewn();
    assert "" + "aB1F" == "aB1F";
    assert Lower("aB1F") == Zeros(0) + Hex(43_807);
  }

  lemma ExampleStrewn()
    ensures Strewn("aB:1F", "aB1F")
  {
    assert "aB:1F"[1..] == "B:1F" && "B:1F"[1..] == ":1F" && ":1F"[1..] == "1F" && "1F"[1..] == "F";
    assert "aB1F"[1..] == "B1F" && "B1F"[1..] == "1F";
    assert Strewn("F", "F");
  }

  /** Normalising twice is normalising once; the result is the serial's own rendering. */
  lemma Idempotent(raw: string)
    requires CanonicalSerial(raw).Some?
    ensures CanonicalSerial(CanonicalSerial(raw).value) == CanonicalSerial(raw)
  {
    var n := AcceptedAreDecorations(raw);
    PlainHexDecorates(n);
    DecorationsNormalize(Hex(n), n);
  }

  /** Two accepted texts share a key exactly when they decorate one number. */
  lemma KeysSeparateSerials(a: string, m: nat, b: string, n: nat)
    requires m > 0 && n > 0 && Decorates(a, m) && Decorates(b, n)
    ensures CanonicalSerial(a) == CanonicalSerial(b) <==> m == n
  {
    DecorationsNormalize(a, m);
    DecorationsNormalize(b, n);
    HexRoundTrip(m);
    HexRoundTrip(n);
  }
}
