/** Fractional order keys (src/fracdex.rs): strings read as base-62 fractions.

    A key is a `string`. Only keys made of the 62 ASCII digits are ever sliced or
    compared, and on those a character is a byte, so lengths and order agree with
    the byte lengths and the byte order of the source. */
module Fracdex {
  import opened Prelude

  const BASE := 62
  const MAX_KEY_LEN := 256

  predicate IsDigit(c: char) {
    '0' <= c <= '9' || 'A' <= c <= 'Z' || 'a' <= c <= 'z'
  }

  /** The position of a digit in the alphabet 0-9, A-Z, a-z, which is ASCII-ascending. */
  function DigitIndex(c: char): (i: nat)
    requires IsDigit(c)
    ensures i < BASE
  {
    if c <= '9' then (c - '0') as nat
    else if c <= 'Z' then (c - 'A') as nat + 10
    else (c - 'a') as nat + 36
  }

  function Digit(i: nat): (c: char)
    requires i < BASE
    ensures IsDigit(c) && DigitIndex(c) == i
  {
    if i < 10 then '0' + i as char
    else if i < 36 then 'A' + (i - 10) as char
    else 'a' + (i - 36) as char
  }

  predicate AllDigits(s: string) {
    forall i :: 0 <= i < |s| ==> IsDigit(s[i])
  }

  /** A key of any length: digits only, and not ending in the lowest one. */
  predicate Canonical(s: string) {
    s != "" && AllDigits(s) && s[|s| - 1] != '0'
  }

  predicate IsValid(key: string) {
    key != "" && |key| <= MAX_KEY_LEN && AllDigits(key) && key[|key| - 1] != '0'
  }

  /** Byte order on strings. */
  predicate Less(a: string, b: string) {
    b != "" && (a == "" || a[0] < b[0] || (a[0] == b[0] && Less(a[1..], b[1..])))
  }

  /** The length of the longest shared prefix. */
  function Common(a: string, b: string): (n: nat)
    ensures n <= |a| && n <= |b| && a[..n] == b[..n]
    ensures n < |a| && n < |b| ==> a[n] != b[n]
  {
    if a == "" || b == "" || a[0] != b[0] then 0 else 1 + Common(a[1..], b[1..])
  }

  // ---- The recursive core ------------------------------------------------

  ghost predicate Gap(a: string, b: Option<string>) {
    AllDigits(a) && (b.Some? ==> Canonical(b.value) && Less(a, b.value))
  }

  lemma {:induction false} LessDrop(a: string, b: string, n: nat)
    requires n <= |a| && n <= |b| && a[..n] == b[..n]
    ensures Less(a, b) <==> Less(a[n..], b[n..])
    decreases n
  {
    if n == 0 {
      assert a[0..] == a && b[0..] == b;
    } else {
      assert a[0] == a[..n][0] == b[..n][0] == b[0];
      assert a[1..][..n - 1] == a[..n][1..] == b[..n][1..] == b[1..][..n - 1];
      LessDrop(a[1..], b[1..], n - 1);
      assert a[1..][n - 1..] == a[n..] && b[1..][n - 1..] == b[n..];
    }
  }

  /** The leading digit of `a`; an empty `a` reads as the fraction 0. */
  function Low(a: string): (d: nat)
    requires AllDigits(a)
    ensures d < BASE
  {
    if a == "" then 0 else DigitIndex(a[0])
  }

  /** The leading digit of `b`; an absent `b` reads as the fraction 1. */
  function High(b: Option<string>): (d: nat)
    requires b.Some? ==> Canonical(b.value)
    ensures d <= BASE
  {
    if b.Some? then DigitIndex(b.value[0]) else BASE
  }

  function Tail(a: string): string {
    if a == "" then "" else a[1..]
  }

  function Midpoint(a: string, b: Option<string>): string
    requires Gap(a, b)
    decreases |a| + (if b.Some? then |b.value| else 0)
  {
    if b.Some? && Common(a, b.value) > 0 then
      var common := Common(a, b.value);
      LessDrop(a, b.value, common);
      a[..common] + Midpoint(a[common..], Some(b.value[common..]))
    else
      var da, db := Low(a), High(b);
      if db > da + 1 then [Digit((da + db) / 2)]
      else if b.Some? && |b.value| > 1 then
        [b.value[0]] + Midpoint("", Some(b.value[1..]))
      else
        [Digit(da)] + Midpoint(Tail(a), None)
  }

  lemma {:induction false} LessCons(c: char, s: string, t: string)
    ensures Less([c] + s, [c] + t) <==> Less(s, t)
  {
    assert ([c] + s)[1..] == s && ([c] + t)[1..] == t;
  }

  lemma {:induction false} LessPrefix(p: string, s: string, t: string)
    ensures Less(p + s, p + t) <==> Less(s, t)
  {
    LessDrop(p + s, p + t, |p|);
    assert (p + s)[|p|..] == s && (p + t)[|p|..] == t;
  }

  function Span(a: string, b: Option<string>): nat {
    Max(|a|, if b.Some? then |b.value| else 0)
  }

  /** What every caller wants of a fresh key: strictly inside the gap, canonical,
      and at most one digit longer than the longer bound. */
  ghost predicate Inside(a: string, b: Option<string>, m: string) {
    && Canonical(m)
    && Less(a, m)
    && (b.Some? ==> Less(m, b.value))
    && |m| <= Span(a, b) + 1
  }

  lemma InsidePrefix(p: string, a: string, b: string, m: string)
    requires AllDigits(p) && Inside(a, Some(b), m)
    ensures Inside(p + a, Some(p + b), p + m)
  {
    LessPrefix(p, a, m);
    LessPrefix(p, m, b);
  }

  lemma {:induction false} MidpointInside(a: string, b: Option<string>)
    requires Gap(a, b)
    ensures Inside(a, b, Midpoint(a, b))
    decreases |a| + (if b.Some? then |b.value| else 0)
  {
    if b.Some? && Common(a, b.value) > 0 {
      var n := Common(a, b.value);
      LessDrop(a, b.value, n);
      MidpointInside(a[n..], Some(b.value[n..]));
      assert a == a[..n] + a[n..] && b.value == a[..n] + b.value[n..];
      InsidePrefix(a[..n], a[n..], b.value[n..], Midpoint(a[n..], Some(b.value[n..])));
    } else {
      MidpointApart(a, b);
    }
  }

  /** With no shared prefix the leading digits are ordered, and the gap has room
      under a one-digit `b` even when `a` is empty. */
  lemma LeadingDigits(a: string, b: Option<string>)
    requires Gap(a, b) && (b.Some? ==> Common(a, b.value) == 0)
    ensures Low(a) <= High(b)
    ensures a != "" || b.None? || |b.value| == 1 ==> Low(a) < High(b)
  {
  }

  lemma InsideMiddle(a: string, b: Option<string>, i: nat)
    requires Gap(a, b) && Low(a) < i < High(b)
    ensures Inside(a, b, [Digit(i)])
  {
  }

  /** A key below the tail of `b`, behind the first digit of `b`. */
  lemma InsideBelow(a: string, b: string, m: string)
    requires Gap(a, Some(b)) && |b| > 1 && Common(a, b) == 0
    requires Inside("", Some(b[1..]), m)
    ensures Inside(a, Some(b), [b[0]] + m)
  {
    assert b == [b[0]] + b[1..];
    LessCons(b[0], m, b[1..]);
  }

  /** A key above the tail of `a`, behind the first digit of `a`. */
  lemma InsideAbove(a: string, b: Option<string>, m: string)
    requires Gap(a, b) && Low(a) < High(b) && (a == "" ==> b.Some?)
    requires Inside(Tail(a), None, m)
    ensures Inside(a, b, [Digit(Low(a))] + m)
  {
    if a != "" {
      assert a == [a[0]] + a[1..];
      LessCons(a[0], a[1..], m);
    }
  }

  lemma {:induction false} MidpointApart(a: string, b: Option<string>)
    requires Gap(a, b) && (b.Some? ==> Common(a, b.value) == 0)
    ensures Inside(a, b, Midpoint(a, b))
    decreases |a| + (if b.Some? then |b.value| else 0), 0
  {
    LeadingDigits(a, b);
    if High(b) > Low(a) + 1 {
      InsideMiddle(a, b, (Low(a) + High(b)) / 2);
    } else if b.Some? && |b.value| > 1 {
      MidpointInside("", Some(b.value[1..]));
      InsideBelow(a, b.value, Midpoint("", Some(b.value[1..])));
    } else {
      MidpointInside(Tail(a), None);
      InsideAbove(a, b, Midpoint(Tail(a), None));
    }
  }

  // ---- Keys from neighbours -----------------------------------------------

  /** A neighbour the source would not slice is no neighbour at all. */
  function Accepted(k: Option<string>): (r: Option<string>)
    ensures r.Some? ==> Canonical(r.value) && |r.value| <= MAX_KEY_LEN
  {
    if k.Some? && IsValid(k.value) then k else None
  }

  function Between(a: Option<string>, b: Option<string>): string {
    var a', b' := Accepted(a), Accepted(b);
    match (a', b')
    case (None, _) => Midpoint("", b')
    case (Some(lo), None) => Midpoint(lo, None)
    case (Some(lo), Some(hi)) => if Less(lo, hi) then Midpoint(lo, b') else Midpoint(lo, None)
  }

  function First(): string {
    Between(None, None)
  }

  /** The bounds `Between` aims at once rejected and out-of-order neighbours are gone. */
  function LowBound(a: Option<string>): string {
    if Accepted(a).Some? then Accepted(a).value else ""
  }

  function HighBound(a: Option<string>, b: Option<string>): Option<string> {
    var b' := Accepted(b);
    if b'.Some? && Less(LowBound(a), b'.value) then b' else None
  }

  lemma BetweenIsMidpoint(a: Option<string>, b: Option<string>)
    ensures Gap(LowBound(a), HighBound(a, b))
    ensures Between(a, b) == Midpoint(LowBound(a), HighBound(a, b))
  {
  }

  /** For every pair of neighbours, valid or not, in order or not: the new key lands
      above an accepted `a`, below an accepted `b` that was above `a`, and is a valid
      key whenever both neighbours are shorter than the cap. */
  lemma BetweenLands(a: Option<string>, b: Option<string>)
    ensures Canonical(Between(a, b))
    ensures a.Some? && IsValid(a.value) ==> Less(a.value, Between(a, b))
    ensures b.Some? && IsValid(b.value) && (a.Some? && IsValid(a.value) ==> Less(a.value, b.value))
            ==> Less(Between(a, b), b.value)
    ensures |Between(a, b)| <= MAX_KEY_LEN + 1
    ensures (a.Some? ==> |a.value| < MAX_KEY_LEN) && (b.Some? ==> |b.value| < MAX_KEY_LEN)
            ==> IsValid(Between(a, b))
  {
    BetweenIsMidpoint(a, b);
    MidpointInside(LowBound(a), HighBound(a, b));
  }

  // ---- When the cap is passed ----------------------------------------------

  /** How many leading digits of `s` are the top digit. */
  function LeadingTops(s: string): (n: nat)
    ensures n <= |s|
  {
    if s == "" || s[0] != 'z' then 0 else 1 + LeadingTops(s[1..])
  }

  /** How many leading digits of `s` are one of the two lowest. */
  function LeadingLows(s: string): (n: nat)
    ensures n <= |s|
  {
    if s == "" || (s[0] != '0' && s[0] != '1') then 0 else 1 + LeadingLows(s[1..])
  }

  lemma {:induction false} AppendLength(a: string)
    requires AllDigits(a)
    ensures |Midpoint(a, None)| == LeadingTops(a) + 1
  {
    if a != "" && a[0] == 'z' {
      AppendLength(a[1..]);
    }
  }

  lemma {:induction false} PrependLength(b: string)
    requires Canonical(b)
    ensures |Midpoint("", Some(b))| == LeadingLows(b) + 1
  {
    if (b[0] == '0' || b[0] == '1') && |b| > 1 {
      PrependLength(b[1..]);
    }
  }

  /** The length of the key minted between two bounds, read off the bounds: how far
      they agree, and how far the side that is grown runs along the edge of its digits. */
  function MintedLength(a: string, b: Option<string>): nat
    requires Gap(a, b)
  {
    if b.None? then LeadingTops(a) + 1
    else
      var n := Common(a, b.value);
      LessDrop(a, b.value, n);
      var a', b' := a[n..], b.value[n..];
      if High(Some(b')) > Low(a') + 1 then n + 1
      else if |b'| > 1 then n + 2 + LeadingLows(b'[1..])
      else n + 2 + LeadingTops(Tail(a'))
  }

  lemma {:induction false} MidpointLength(a: string, b: Option<string>)
    requires Gap(a, b)
    ensures |Midpoint(a, b)| == MintedLength(a, b)
    decreases |a|
  {
    if b.None? {
      AppendLength(a);
    } else {
      var n := Common(a, b.value);
      LessDrop(a, b.value, n);
      var a', b' := a[n..], b.value[n..];
      if n > 0 {
        MidpointLength(a', Some(b'));
        assert a'[0..] == a' && b'[0..] == b';
      } else {
        assert a' == a && b' == b.value;
        if High(b) <= Low(a) + 1 {
          if |b'| > 1 { PrependLength(b'[1..]); } else { AppendLength(Tail(a)); }
        }
      }
    }
  }

  /** Exactly when the minted key is one the module accepts back: the cap is passed
      by one digit, and only next to a neighbour that already fills it. */
  lemma BetweenValidIff(a: Option<string>, b: Option<string>)
    ensures Gap(LowBound(a), HighBound(a, b))
    ensures IsValid(Between(a, b)) <==> MintedLength(LowBound(a), HighBound(a, b)) <= MAX_KEY_LEN
    ensures !IsValid(Between(a, b)) ==>
              |Between(a, b)| == MAX_KEY_LEN + 1 &&
              (|LowBound(a)| == MAX_KEY_LEN || (HighBound(a, b).Some? && |HighBound(a, b).value| == MAX_KEY_LEN))
  {
    BetweenIsMidpoint(a, b);
    MintedValid(LowBound(a), HighBound(a, b));
  }

  lemma MintedValid(a: string, b: Option<string>)
    requires Gap(a, b) && |a| <= MAX_KEY_LEN && (b.Some? ==> |b.value| <= MAX_KEY_LEN)
    ensures IsValid(Midpoint(a, b)) <==> MintedLength(a, b) <= MAX_KEY_LEN
    ensures !IsValid(Midpoint(a, b)) ==>
              |Midpoint(a, b)| == MAX_KEY_LEN + 1 && (|a| == MAX_KEY_LEN || (b.Some? && |b.value| == MAX_KEY_LEN))
  {
    MidpointInside(a, b);
    MidpointLength(a, b);
  }

  lemma {:induction false} CommonPrefix(p: string, s: string, t: string)
    ensures Common(p + s, p + t) == |p| + Common(s, t)
  {
    if p == "" {
      assert p + s == s && p + t == t;
    } else {
      assert (p + s)[1..] == p[1..] + s && (p + t)[1..] == p[1..] + t;
      CommonPrefix(p[1..], s, t);
    }
  }

  /** Two accepted keys at the cap with no accepted key minted between them: no digit lies
      between their last digits, so the new key is one digit over. */
  lemma FullKeysMintTooLong(pad: string)
    requires pad == Repeat('z', MAX_KEY_LEN - 1)
    ensures IsValid(pad + "y") && IsValid(pad + "z") && Less(pad + "y", pad + "z")
    ensures |Between(Some(pad + "y"), Some(pad + "z"))| == MAX_KEY_LEN + 1
    ensures !IsValid(Between(Some(pad + "y"), Some(pad + "z")))
  {
    var a, b := pad + "y", pad + "z";
    LessPrefix(pad, "y", "z");
    CommonPrefix(pad, "y", "z");
    assert a[|pad|..] == "y" && b[|pad|..] == "z";
    AdjacentMinted(a, b, |pad|);
  }

  lemma AdjacentMinted(a: string, b: string, n: nat)
    requires IsValid(a) && IsValid(b) && Less(a, b) && n == Common(a, b) && a[n..] == "y" && b[n..] == "z"
    ensures |Between(Some(a), Some(b))| == n + 2
  {
    BetweenIsMidpoint(Some(a), Some(b));
    MidpointLength(a, Some(b));
    AdjacentLength(a, b, n);
  }

  lemma AdjacentLength(a: string, b: string, n: nat)
    requires Gap(a, Some(b)) && n == Common(a, b) && a[n..] == "y" && b[n..] == "z"
    ensures MintedLength(a, Some(b)) == n + 2
  {
    LessDrop(a, b, n);
    assert Tail("y") == "";
  }

  // ---- Byte order is numeric order -----------------------------------------

  /** The fraction a digit string denotes. */
  ghost function Fraction(s: string): (r: real)
    requires AllDigits(s)
    ensures 0.0 <= r < 1.0
  {
    if s == "" then 0.0 else (DigitIndex(s[0]) as real + Fraction(s[1..])) / 62.0
  }

  ghost predicate Zeros(s: string) {
    forall i :: 0 <= i < |s| ==> s[i] == '0'
  }

  lemma {:induction false} FractionZero(s: string)
    requires AllDigits(s)
    ensures Fraction(s) == 0.0 <==> Zeros(s)
  {
    if s != "" {
      FractionZero(s[1..]);
      assert s == [s[0]] + s[1..];
    }
  }

  /** On all digit strings a smaller string never denotes a larger fraction, and the
      two fractions tie exactly when the larger string only adds lowest digits. */
  lemma {:induction false} OrderAlmostNumeric(a: string, b: string)
    requires AllDigits(a) && AllDigits(b) && Less(a, b)
    ensures Fraction(a) <= Fraction(b)
    ensures Fraction(a) == Fraction(b) <==> |a| < |b| && b[..|a|] == a && Zeros(b[|a|..])
    decreases |a|
  {
    if a == "" {
      FractionZero(b);
      assert b[0..] == b;
    } else if a[0] == b[0] {
      OrderAlmostNumeric(a[1..], b[1..]);
      assert a == [a[0]] + a[1..];
      if |a| <= |b| {
        assert b[1..][|a| - 1..] == b[|a|..];
        assert b[..|a|] == [b[0]] + b[1..][..|a| - 1];
      }
    }
  }

  lemma {:induction false} LessTotal(a: string, b: string)
    ensures Less(a, b) || Less(b, a) || a == b
    ensures !(Less(a, b) && Less(b, a)) && !Less(a, a)
  {
    if a != "" && b != "" && a[0] == b[0] {
      LessTotal(a[1..], b[1..]);
      assert a == [a[0]] + a[1..] && b == [b[0]] + b[1..];
    }
    if a != "" { LessIrreflexive(a); }
  }

  lemma {:induction false} LessIrreflexive(a: string)
    ensures !Less(a, a)
  {
    if a != "" { LessIrreflexive(a[1..]); }
  }

  /** What the ban on a trailing lowest digit buys: on keys, byte order is exactly
      numeric order, and no two keys name one fraction. */
  lemma OrderIsNumeric(a: string, b: string)
    requires Canonical(a) && Canonical(b)
    ensures Less(a, b) <==> Fraction(a) < Fraction(b)
    ensures Fraction(a) == Fraction(b) ==> a == b
  {
    LessTotal(a, b);
    if Less(a, b) {
      OrderAlmostNumeric(a, b);
      assert |a| < |b| ==> b[|a|..][|b| - |a| - 1] == b[|b| - 1];
    } else if Less(b, a) {
      OrderAlmostNumeric(b, a);
      assert |b| < |a| ==> a[|b|..][|a| - |b| - 1] == a[|a| - 1];
    }
  }

  /** Without the ban a string and the same string with a zero behind it would be two
      keys for one fraction, in an order that no number explains. */
  lemma TrailingZeroTies(s: string)
    requires AllDigits(s)
    ensures Less(s, s + "0") && Fraction(s) == Fraction(s + "0")
  {
    LessPrefix(s, "", "0");
    assert s + "" == s;
    OrderAlmostNumeric(s, s + "0");
    assert (s + "0")[|s|..] == "0";
  }

  // ---- The key halves the gap -----------------------------------------------

  /** `x` times the `n`-th power of the base. */
  ghost function Scaled(n: nat, x: real): real {
    if n == 0 then x else 62.0 * Scaled(n - 1, x)
  }

  lemma {:induction false} ScaledShift(n: nat, x: real, y: real)
    requires y == x / 62.0
    ensures Scaled(n + 1, y) == Scaled(n, x)
  {
    if n > 0 {
      ScaledShift(n - 1, x, y);
    }
  }

  lemma ScaledMore(n: nat, x: real)
    ensures Scaled(n + 1, x) == 62.0 * Scaled(n, x)
  {
  }

  /** An absent upper bound is the fraction 1. */
  ghost function Upper(b: Option<string>): real
    requires b.Some? ==> AllDigits(b.value)
  {
    if b.Some? then Fraction(b.value) else 1.0
  }

  /** Twice the distance of `m` from the middle of the gap. */
  ghost function OffMiddle(a: string, b: Option<string>, m: string): real
    requires AllDigits(a) && AllDigits(m) && (b.Some? ==> AllDigits(b.value))
  {
    2.0 * Fraction(m) - Fraction(a) - Upper(b)
  }

  lemma FractionCons(c: char, s: string)
    requires IsDigit(c) && AllDigits(s)
    ensures AllDigits([c] + s) && Fraction([c] + s) == (DigitIndex(c) as real + Fraction(s)) / 62.0
  {
    assert ([c] + s)[1..] == s;
  }

  lemma OffMiddleCons(c: char, a: string, b: string, m: string)
    requires IsDigit(c) && AllDigits(a) && AllDigits(b) && AllDigits(m)
    ensures AllDigits([c] + a) && AllDigits([c] + b) && AllDigits([c] + m)
    ensures OffMiddle([c] + a, Some([c] + b), [c] + m) == OffMiddle(a, Some(b), m) / 62.0
  {
    FractionCons(c, a);
    FractionCons(c, b);
    FractionCons(c, m);
  }

  lemma Front(p: string, s: string)
    requires p != ""
    ensures p + s == [p[0]] + (p[1..] + s)
  {
  }

  /** A shared prefix only scales the gap and everything in it. */
  lemma {:induction false} OffMiddleScales(p: string, a: string, b: string, m: string)
    requires AllDigits(p) && AllDigits(a) && AllDigits(b) && AllDigits(m)
    ensures AllDigits(p + a) && AllDigits(p + b) && AllDigits(p + m)
    ensures Scaled(|p|, OffMiddle(p + a, Some(p + b), p + m)) == OffMiddle(a, Some(b), m)
  {
    if p == "" {
      assert p + a == a && p + b == b && p + m == m;
    } else {
      var q := p[1..];
      OffMiddleScales(q, a, b, m);
      Front(p, a);
      Front(p, b);
      Front(p, m);
      OffMiddleCons(p[0], q + a, q + b, q + m);
      ScaledShift(|q|, OffMiddle(q + a, Some(q + b), q + m), OffMiddle(p + a, Some(p + b), p + m));
    }
  }

  /** A fraction lies in the sixty-second of the unit its leading digit names. */
  lemma LeadingFraction(a: string)
    requires AllDigits(a)
    ensures Low(a) as real <= 62.0 * Fraction(a) < Low(a) as real + 1.0
    ensures |a| == 1 ==> 62.0 * Fraction(a) == Low(a) as real
  {
  }

  lemma LeadingUpper(b: Option<string>)
    requires b.Some? ==> Canonical(b.value)
    ensures High(b) as real <= 62.0 * Upper(b) < High(b) as real + 1.0
    ensures b.None? || |b.value| == 1 ==> 62.0 * Upper(b) == High(b) as real
  {
    if b.Some? {
      LeadingFraction(b.value);
    }
  }

  lemma FractionBelow(a: string, m: string)
    requires AllDigits(a) && Canonical(m) && Less(a, m)
    ensures Fraction(a) <= Fraction(m)
  {
    OrderAlmostNumeric(a, m);
  }

  /** Without a shared prefix the key is less than three sixty-seconds off twice the middle. */
  lemma HalvesApart(a: string, b: Option<string>)
    requires Gap(a, b) && (b.Some? ==> Common(a, b.value) == 0)
    ensures AllDigits(Midpoint(a, b)) && -3.0 < 62.0 * OffMiddle(a, b, Midpoint(a, b)) < 3.0
  {
    var m := Midpoint(a, b);
    MidpointInside(a, b);
    LeadingDigits(a, b);
    LeadingFraction(a);
    LeadingUpper(b);
    LeadingFraction(m);
    FractionBelow(a, m);
    if b.Some? {
      FractionBelow(m, b.value);
    }
    if High(b) > Low(a) + 1 {
      assert m == [Digit((Low(a) + High(b)) / 2)];
    } else if b.Some? && |b.value| > 1 {
      assert m[0] == b.value[0];
    } else {
      assert m[0] == Digit(Low(a));
    }
  }

  /** The minted key halves its gap, up to the digit it is decided in: at the scale of the
      first digit after the shared prefix, twice the key is less than three units from the
      sum of the bounds. */
  lemma MidpointHalves(a: string, b: Option<string>)
    requires Gap(a, b)
    ensures AllDigits(Midpoint(a, b))
    ensures var n := if b.Some? then Common(a, b.value) else 0;
            -3.0 < Scaled(n + 1, OffMiddle(a, b, Midpoint(a, b))) < 3.0
  {
    MidpointInside(a, b);
    if b.Some? && Common(a, b.value) > 0 {
      SharedHalves(a, b.value, Common(a, b.value), Midpoint(a, b));
    } else {
      HalvesApart(a, b);
      ScaledMore(0, OffMiddle(a, b, Midpoint(a, b)));
    }
  }

  lemma SharedHalves(a: string, b: string, n: nat, mid: string)
    requires Gap(a, Some(b)) && n == Common(a, b) && n > 0 && mid == Midpoint(a, Some(b)) && AllDigits(mid)
    ensures -3.0 < Scaled(n + 1, OffMiddle(a, Some(b), mid)) < 3.0
  {
    LessDrop(a, b, n);
    NothingShared(a, b);
    assert a == a[..n] + a[n..] && b == a[..n] + b[n..];
    HalvesPrefixed(a[..n], a[n..], b[n..], a, b, mid);
  }

  lemma HalvesPrefixed(p: string, a: string, b: string, low: string, high: string, mid: string)
    requires AllDigits(p) && Gap(a, Some(b)) && Common(a, b) == 0
    requires low == p + a && high == p + b && mid == p + Midpoint(a, Some(b))
    ensures AllDigits(low) && AllDigits(high) && AllDigits(mid)
    ensures -3.0 < Scaled(|p| + 1, OffMiddle(low, Some(high), mid)) < 3.0
  {
    HalvesApart(a, Some(b));
    OffMiddleScales(p, a, b, Midpoint(a, Some(b)));
    ScaledMore(|p|, OffMiddle(low, Some(high), mid));
  }

  lemma NothingShared(a: string, b: string)
    ensures Common(a[Common(a, b)..], b[Common(a, b)..]) == 0
  {
    var n := Common(a, b);
    if a[n..] != "" && b[n..] != "" {
      assert a[n..][0] == a[n] && b[n..][0] == b[n];
    }
  }

  /** A shared prefix is kept, and the rest halves the rest of the gap. */
  lemma MidpointPrefix(a: string, b: string)
    requires Gap(a, Some(b))
    ensures var n := Common(a, b);
            && Gap(a[n..], Some(b[n..])) && Common(a[n..], b[n..]) == 0
            && Midpoint(a, Some(b)) == a[..n] + Midpoint(a[n..], Some(b[n..]))
  {
    LessDrop(a, b, Common(a, b));
    NothingShared(a, b);
    assert a[0..] == a && b[0..] == b;
    assert a[..0] + Midpoint(a, Some(b)) == Midpoint(a, Some(b));
  }

  /** Where there is room between the first digits, the key is the lower of the middle
      digits; where there is none it keeps one bound's digit and halves what is free behind
      it: all below the rest of a longer `b`, or else all above the rest of `a`. */
  lemma MidpointDigit(a: string, b: Option<string>)
    requires Gap(a, b) && (b.Some? ==> Common(a, b.value) == 0)
    ensures var m := Midpoint(a, b);
            && m != "" && IsDigit(m[0])
            && (if Low(a) + 1 < High(b) then
                  |m| == 1 && 2 * DigitIndex(m[0]) <= Low(a) + High(b) <= 2 * DigitIndex(m[0]) + 1
                else if b.Some? && |b.value| > 1 then
                  Gap("", Some(b.value[1..])) && m == [b.value[0]] + Midpoint("", Some(b.value[1..]))
                else
                  Gap(Tail(a), None) && DigitIndex(m[0]) == Low(a) && m[1..] == Midpoint(Tail(a), None))
  {
  }

  /** A neighbour that is not accepted changes nothing, and a pair out of order is treated
      as if the upper neighbour were absent. */
  lemma AbsentNeighbours(a: Option<string>, b: Option<string>)
    ensures a.Some? && !IsValid(a.value) ==> Between(a, b) == Between(None, b)
    ensures b.Some? && !IsValid(b.value) ==> Between(a, b) == Between(a, None)
    ensures a.Some? && b.Some? && IsValid(a.value) && IsValid(b.value) && !Less(a.value, b.value)
            ==> Between(a, b) == Between(a, None)
  {
  }

  // ---- Seeding a ring -------------------------------------------------------

  /** A ring seeded in one pass: each key is appended after the one before it. */
  ghost predicate Seeded(keys: seq<string>) {
    && (keys != [] ==> keys[0] == First())
    && forall k {:trigger keys[k]} :: 0 < k < |keys| ==> keys[k] == Between(Some(keys[k - 1]), None)
  }

  method Sequence(n: nat) returns (out: seq<string>)
    ensures |out| == n && Seeded(out)
  {
    out := [];
    var prev: Option<string> := None;
    for i := 0 to n
      invariant |out| == i && Seeded(out)
      invariant prev == if i == 0 then None else Some(out[i - 1])
    {
      var next := Between(prev, None);
      prev := Some(next);
      out := out + [next];
    }
  }

  function Repeat(c: char, n: nat): (s: string)
    ensures |s| == n && forall i :: 0 <= i < n ==> s[i] == c
  {
    if n == 0 then "" else [c] + Repeat(c, n - 1)
  }

  lemma RepeatSnoc(c: char, n: nat)
    ensures Repeat(c, n) + [c] == Repeat(c, n + 1)
  {
  }

  /** Appending is bounded: the last key of a round is one digit past the cap. */
  const SEED_PERIOD := 1537

  function SeedStep(i: nat): char
    requires i < 6
  {
    match i case 0 => 'V' case 1 => 'k' case 2 => 's' case 3 => 'w' case 4 => 'y' case 5 => 'z'
  }

  function SeededClosed(k: nat): (s: string)
    ensures Canonical(s) && |s| == k / 6 + 1
  {
    Repeat('z', k / 6) + [SeedStep(k % 6)]
  }

  lemma AppendPastTop(s: string, s': string)
    requires AllDigits(s) && s' == ['z'] + s
    ensures Midpoint(s', None) == ['z'] + Midpoint(s, None)
  {
    assert s'[1..] == s;
  }

  lemma {:induction false} AppendPastTops(n: nat, t: string, m: string)
    requires AllDigits(t) && m == Midpoint(t, None)
    ensures Midpoint(Repeat('z', n) + t, None) == Repeat('z', n) + m
  {
    if n == 0 {
      assert "" + t == t && "" + m == m;
    } else {
      var pad := Repeat('z', n - 1);
      assert Repeat('z', n) + t == ['z'] + (pad + t) && Repeat('z', n) + m == ['z'] + (pad + m);
      AppendPastTops(n - 1, t, m);
      AppendPastTop(pad + t, ['z'] + (pad + t));
    }
  }

  lemma FirstKeys()
    ensures First() == "V" && Between(Some("V"), None) == "k"
  {
    assert Midpoint("", None) == "V";
  }

  lemma AppendSteps()
    ensures Midpoint("V", None) == "k" && Midpoint("k", None) == "s" && Midpoint("s", None) == "w"
    ensures Midpoint("w", None) == "y" && Midpoint("y", None) == "z" && Midpoint("z", None) == "zV"
  {
    assert Midpoint("", None) == "V";
    assert "z"[1..] == "";
  }

  lemma SeededStep(z: nat, i: nat)
    requires i < 6
    ensures Midpoint(Repeat('z', z) + [SeedStep(i)], None) ==
            if i == 5 then Repeat('z', z + 1) + "V" else Repeat('z', z) + [SeedStep(i + 1)]
  {
    AppendSteps();
    AppendPastTops(z, [SeedStep(i)], Midpoint([SeedStep(i)], None));
    if i == 5 {
      RepeatSnoc('z', z);
      assert Repeat('z', z) + "zV" == Repeat('z', z) + "z" + "V";
    }
  }

  lemma SeededClosedStep(k: nat)
    ensures Midpoint(SeededClosed(k), None) == SeededClosed(k + 1)
  {
    SeededStep(k / 6, k % 6);
    assert k + 1 == 6 * (k / 6) + (k % 6 + 1);
  }

  lemma BetweenAppend(a: string)
    ensures Between(Some(a), None) == if IsValid(a) then Midpoint(a, None) else First()
  {
  }

  lemma SeededNext(k: nat)
    ensures Between(Some(SeededClosed(k)), None) == SeededClosed(if k < SEED_PERIOD - 1 then k + 1 else 0)
  {
    FirstKeys();
    SeededClosedStep(k);
    BetweenAppend(SeededClosed(k));
  }

  /** Every seeded key in closed form: the keys count up to one that no longer fits,
      and then, in every later round q, start again at the first key. */
  lemma {:induction false} SeededKey(keys: seq<string>, n: nat, q: nat, k: nat)
    requires Seeded(keys) && n < |keys|
    requires n == q * SEED_PERIOD + k && k < SEED_PERIOD
    ensures keys[n] == SeededClosed(k)
    ensures IsValid(keys[n]) <==> k < SEED_PERIOD - 1
    decreases n
  {
    FirstKeys();
    if n > 0 {
      var j := if k > 0 then k - 1 else SEED_PERIOD - 1;
      SeededKey(keys, n - 1, if k > 0 then q else q - 1, j);
      SeededNext(j);
    }
  }

  lemma {:induction false} LessTransitive(a: string, b: string, c: string)
    requires Less(a, b) && Less(b, c)
    ensures Less(a, c)
  {
    if a != "" && a[0] == b[0] == c[0] {
      LessTransitive(a[1..], b[1..], c[1..]);
    }
  }

  lemma AppendAscends(a: string)
    requires IsValid(a)
    ensures Less(a, Between(Some(a), None))
  {
    BetweenLands(Some(a), None);
  }

  lemma {:induction false} SeededAscends(keys: seq<string>, i: nat, j: nat)
    requires Seeded(keys) && i < j < |keys| && j < SEED_PERIOD
    ensures Less(keys[i], keys[j])
    decreases j
  {
    SeededKey(keys, j - 1, 0, j - 1);
    AppendAscends(keys[j - 1]);
    if i < j - 1 {
      SeededAscends(keys, i, j - 1);
      LessTransitive(keys[i], keys[j - 1], keys[j]);
    }
  }

  ghost predicate Ascending(keys: seq<string>) {
    forall i, j :: 0 <= i < j < |keys| ==> Less(keys[i], keys[j])
  }

  /** A seeded ring is all valid keys exactly up to 1536 of them, and strictly
      ascending exactly up to 1537. */
  lemma SeededRing(keys: seq<string>)
    requires Seeded(keys)
    ensures (forall k :: 0 <= k < |keys| ==> IsValid(keys[k])) <==> |keys| < SEED_PERIOD
    ensures Ascending(keys) <==> |keys| <= SEED_PERIOD
  {
    forall k | 0 <= k < |keys| && k < SEED_PERIOD
      ensures IsValid(keys[k]) <==> k < SEED_PERIOD - 1
    {
      SeededKey(keys, k, 0, k);
    }
    if |keys| >= SEED_PERIOD {
      assert !IsValid(keys[SEED_PERIOD - 1]);
    }
    if |keys| <= SEED_PERIOD {
      forall i, j | 0 <= i < j < |keys|
        ensures Less(keys[i], keys[j])
      {
        SeededAscends(keys, i, j);
      }
    } else {
      SeededKey(keys, 0, 0, 0);
      SeededKey(keys, SEED_PERIOD, 1, 0);
      LessIrreflexive(keys[0]);
      assert !Less(keys[0], keys[SEED_PERIOD]);
    }
  }

  // ---- Splitting one gap over and over ---------------------------------------

  /** Upper bounds of the gap above "V", split on its low side over and over. */
  ghost predicate LowSplits(his: seq<string>) {
    && (his != [] ==> his[0] == Between(Some(First()), None))
    && forall n {:trigger his[n]} :: 0 < n < |his| ==> his[n] == Between(Some(First()), Some(his[n - 1]))
  }

  const SPLIT_PERIOD := 1280

  function SplitStep(i: nat): char
    requires i < 5
  {
    match i case 0 => 'V' case 1 => 'F' case 2 => '7' case 3 => '3' case 4 => '1'
  }

  function SplitClosed(n: nat): (s: string)
    ensures Canonical(s) && |s| == if n < 4 then 1 else 2 + (n - 4) / 5
  {
    match n
    case 0 => "k"
    case 1 => "c"
    case 2 => "Y"
    case 3 => "W"
    case _ => ['V'] + Repeat('0', (n - 4) / 5) + [SplitStep((n - 4) % 5)]
  }

  lemma {:induction false} PrependPastZeros(n: nat, t: string)
    requires Canonical(t)
    ensures Canonical(Repeat('0', n) + t)
    ensures Midpoint("", Some(Repeat('0', n) + t)) == Repeat('0', n) + Midpoint("", Some(t))
  {
    if n == 0 {
      assert Repeat('0', 0) + t == t;
      assert Repeat('0', 0) + Midpoint("", Some(t)) == Midpoint("", Some(t));
    } else {
      PrependPastZeros(n - 1, t);
      PrependZero(Repeat('0', n - 1) + t);
      assert Repeat('0', n) + t == ['0'] + (Repeat('0', n - 1) + t);
      assert Repeat('0', n) + Midpoint("", Some(t)) == ['0'] + (Repeat('0', n - 1) + Midpoint("", Some(t)));
    }
  }

  lemma PrependZero(u: string)
    requires Canonical(u)
    ensures Canonical(['0'] + u)
    ensures Midpoint("", Some(['0'] + u)) == ['0'] + Midpoint("", Some(u))
  {
    var s := ['0'] + u;
    assert s[0] == '0' && s[1..] == u;
  }

  lemma PrependSteps(i: nat)
    requires i < 5
    ensures Midpoint("", Some([SplitStep(i)])) == if i == 4 then "0V" else [SplitStep(i + 1)]
  {
    assert Midpoint("", None) == "V";
  }

  lemma SplitHeadSteps()
    ensures Midpoint("V", Some("k")) == "c" && Midpoint("V", Some("c")) == "Y"
    ensures Midpoint("V", Some("Y")) == "W" && Midpoint("V", Some("W")) == "VV"
  {
    assert Midpoint("", None) == "V";
    assert "V"[1..] == "";
  }

  /** Below a key that starts with "V" a split of ("V", key) only looks at the rest. */
  lemma SplitPastV(t: string)
    requires Canonical(t)
    ensures Less("V", ['V'] + t) && Canonical(['V'] + t)
    ensures Midpoint("V", Some(['V'] + t)) == ['V'] + Midpoint("", Some(t))
  {
    var b := ['V'] + t;
    assert b[1..] == t && "V"[1..] == "";
    assert Common("V", b) == 1;
    assert "V"[..1] == ['V'];
  }

  /** One split of the closed form whose zeros and last digit are given. */
  lemma SplitTailStep(z: nat, i: nat, b: string)
    requires i < 5 && b == ['V'] + Repeat('0', z) + [SplitStep(i)]
    ensures Canonical(b) && Less("V", b)
    ensures Midpoint("V", Some(b)) ==
            if i == 4 then ['V'] + Repeat('0', z + 1) + ['V'] else ['V'] + Repeat('0', z) + [SplitStep(i + 1)]
  {
    var t, pad := [SplitStep(i)], Repeat('0', z);
    PrependSteps(i);
    PrependPastZeros(z, t);
    SplitPastV(pad + t);
    assert b == ['V'] + (pad + t);
    PaddedTail(z, Midpoint("", Some(t)));
  }

  lemma PaddedTail(z: nat, m: string)
    ensures ['V'] + (Repeat('0', z) + m) == ['V'] + Repeat('0', z) + m
    ensures m == "0V" ==> ['V'] + (Repeat('0', z) + m) == ['V'] + Repeat('0', z + 1) + ['V']
  {
    RepeatSnoc('0', z);
    if m == "0V" {
      assert ['V'] + (Repeat('0', z) + m) == ['V'] + (Repeat('0', z) + ['0']) + ['V'];
    }
  }

  lemma NextSplit(n: nat, z: nat, i: nat)
    requires n == 4 + 5 * z + i && i < 5
    ensures SplitClosed(n) == ['V'] + Repeat('0', z) + [SplitStep(i)]
    ensures SplitClosed(n + 1) ==
            if i == 4 then ['V'] + Repeat('0', z + 1) + ['V'] else ['V'] + Repeat('0', z) + [SplitStep(i + 1)]
  {
    assert (n - 4) / 5 == z && (n - 4) % 5 == i;
    if i == 4 {
      assert (n + 1 - 4) / 5 == z + 1 && (n + 1 - 4) % 5 == 0;
    } else {
      assert (n + 1 - 4) / 5 == z && (n + 1 - 4) % 5 == i + 1;
    }
  }

  lemma SplitClosedStep(n: nat)
    ensures Less("V", SplitClosed(n))
    ensures Midpoint("V", Some(SplitClosed(n))) == SplitClosed(n + 1)
  {
    if n < 4 {
      SplitHeadSteps();
      assert ['V'] + Repeat('0', 0) + ['V'] == "VV";
    } else {
      var z, i := (n - 4) / 5, (n - 4) % 5;
      NextSplit(n, z, i);
      SplitTailStep(z, i, SplitClosed(n));
    }
  }

  lemma SplitNext(n: nat)
    ensures Between(Some("V"), Some(SplitClosed(n))) == SplitClosed(if n < SPLIT_PERIOD - 1 then n + 1 else 0)
  {
    FirstKeys();
    SplitClosedStep(n);
  }

  /** Every low-side split in closed form, and with it the length: one digit more every
      five splits, until the split that no longer fits sends the next one back to the
      upper bound everything started from, in every round q. */
  lemma {:induction false} SplitKey(his: seq<string>, n: nat, q: nat, k: nat)
    requires LowSplits(his) && n < |his|
    requires n == q * SPLIT_PERIOD + k && k < SPLIT_PERIOD
    ensures his[n] == SplitClosed(k)
    ensures |his[n]| == if k < 4 then 1 else 2 + (k - 4) / 5
    ensures IsValid(his[n]) <==> k < SPLIT_PERIOD - 1
    decreases n
  {
    FirstKeys();
    if n > 0 {
      var j := if k > 0 then k - 1 else SPLIT_PERIOD - 1;
      SplitKey(his, n - 1, if k > 0 then q else q - 1, j);
      SplitNext(j);
    }
  }
}
