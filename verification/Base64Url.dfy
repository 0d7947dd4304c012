/** The unpadded base64url encoding of src/ids.rs, inverted by a reader for section 5 of
    RFC 4648. Shifts and masks are products, quotients and remainders here: the bits that
    are or-ed into the accumulator never overlap. */
module Base64Url {
  import opened Prelude

  type Byte = x: int | 0 <= x < 256
  type Sextet = x: int | 0 <= x < 64

  const UPPER := "ABCDEFGHIJKLMNOPQRSTUVWXYZ"
  const LOWER := "abcdefghijklmnopqrstuvwxyz"
  const DIGITS := "0123456789"
  const ALPHABET := UPPER + LOWER + DIGITS + "-_"

  // ---- The format -------------------------------------------------------------------

  /** The value a character stands for, by its range in the alphabet of section 5. */
  function ValueOf(c: char): Option<Sextet> {
    if 'A' <= c <= 'Z' then Some(c as int - 'A' as int)
    else if 'a' <= c <= 'z' then Some(26 + (c as int - 'a' as int))
    else if '0' <= c <= '9' then Some(52 + (c as int - '0' as int))
    else if c == '-' then Some(62)
    else if c == '_' then Some(63)
    else None
  }

  function CharOf(x: Sextet): (c: char)
    ensures ValueOf(c) == Some(x)
  {
    if x < 26 then ('A' as int + x) as char
    else if x < 52 then ('a' as int + (x - 26)) as char
    else if x < 62 then ('0' as int + (x - 52)) as char
    else if x == 62 then '-'
    else '_'
  }

  lemma CharOfValue(c: char)
    ensures ValueOf(c).Some? ==> CharOf(ValueOf(c).value) == c
  {}

  lemma AlphabetOrdered(x: Sextet)
    ensures |ALPHABET| == 64 && ALPHABET[x] == CharOf(x)
  {
    if x < 26 {
      assert ALPHABET[x] == UPPER[x];
    } else if x < 52 {
      assert ALPHABET[x] == LOWER[x - 26];
    } else if x < 62 {
      assert ALPHABET[x] == DIGITS[x - 52];
    } else {
      assert ALPHABET[x] == "-_"[x - 62];
    }
  }

  /** A byte of a chunk, zero past its end. */
  function At(chunk: seq<Byte>, i: nat): int {
    if i < |chunk| then chunk[i] else 0
  }

  /** The four six-bit groups of three bytes. */
  function Four(a: Byte, b: Byte, c: Byte): (xs: seq<Sextet>)
    ensures |xs| == 4
  {
    [a / 4, (a % 4) * 16 + b / 16, (b % 16) * 4 + c / 64, c % 64]
  }

  /** The six-bit groups of one to three bytes, missing bits as zeros. */
  function Sextets(chunk: seq<Byte>): (xs: seq<Sextet>)
    requires 1 <= |chunk| <= 3
    ensures |xs| == |chunk| + 1
  {
    Four(At(chunk, 0), At(chunk, 1), At(chunk, 2))[..|chunk| + 1]
  }

  function Spell(xs: seq<Sextet>): (s: string)
    ensures |s| == |xs|
  {
    seq(|xs|, i requires 0 <= i < |xs| => CharOf(xs[i]))
  }

  function AtMost(n: nat, limit: nat): nat {
    if n < limit then n else limit
  }

  function Encode(bytes: seq<Byte>): string {
    if bytes == [] then ""
    else
      var n := AtMost(|bytes|, 3);
      Spell(Sextets(bytes[..n])) + Encode(bytes[n..])
  }

  /** Strictly decodes a group of up to four characters: a single one, a foreign character
      and a left-over bit that is not zero are errors. */
  function DecodeGroup(q: string): Option<seq<Byte>>
    requires 1 <= |q| <= 4
  {
    if |q| == 1 || ValueOf(q[0]).None? || ValueOf(q[1]).None? then None
    else
      var a, b := ValueOf(q[0]).value, ValueOf(q[1]).value;
      if |q| == 2 then if b % 16 == 0 then Some([a * 4 + b / 16]) else None
      else if ValueOf(q[2]).None? then None
      else
        var c := ValueOf(q[2]).value;
        if |q| == 3 then if c % 4 == 0 then Some([a * 4 + b / 16, (b % 16) * 16 + c / 4]) else None
        else if ValueOf(q[3]).None? then None
        else Some([a * 4 + b / 16, (b % 16) * 16 + c / 4, (c % 4) * 64 + ValueOf(q[3]).value])
  }

  function Decode(s: string): Option<seq<Byte>> {
    if s == "" then Some([])
    else
      var n := AtMost(|s|, 4);
      match DecodeGroup(s[..n])
      case None => None
      case Some(chunk) =>
        match Decode(s[n..])
        case None => None
        case Some(rest) => Some(chunk + rest)
  }

  // ---- Reading undoes writing, and nothing else reads ----------------------------------------

  lemma FourForth(a: Byte, b: Byte, c: Byte)
    ensures var xs: seq<int> := Four(a, b, c);
            && xs[0] * 4 + xs[1] / 16 == a && (xs[1] % 16) * 16 + xs[2] / 4 == b && (xs[2] % 4) * 64 + xs[3] == c
            && (b == 0 ==> xs[1] % 16 == 0) && (c == 0 ==> xs[2] % 4 == 0)
  {}

  lemma FourBack(w: Sextet, x: Sextet, y: Sextet, z: Sextet)
    ensures Four(w * 4 + x / 16, (x % 16) * 16 + y / 4, (y % 4) * 64 + z) == [w, x, y, z]
  {
    var a, b, c := w * 4 + x / 16, (x % 16) * 16 + y / 4, (y % 4) * 64 + z;
    assert a / 4 == w && (a % 4) * 16 + b / 16 == x && (b % 16) * 4 + c / 64 == y && c % 64 == z;
  }

  lemma GroupEncoded(chunk: seq<Byte>)
    requires 1 <= |chunk| <= 3
    ensures DecodeGroup(Spell(Sextets(chunk))) == Some(chunk)
  {
    var q, xs := Spell(Sextets(chunk)), Four(At(chunk, 0), At(chunk, 1), At(chunk, 2));
    FourForth(At(chunk, 0), At(chunk, 1), At(chunk, 2));
    assert forall i :: 0 <= i < |q| ==> ValueOf(q[i]) == Some(xs[i]);
    if |chunk| == 1 {
      assert chunk == [chunk[0]];
    } else if |chunk| == 2 {
      assert chunk == [chunk[0], chunk[1]];
    } else {
      assert chunk == [chunk[0], chunk[1], chunk[2]];
    }
  }

  /** A character's value, zero past the end of a group. */
  function ValueAt(q: string, i: nat): Sextet {
    if i < |q| && ValueOf(q[i]).Some? then ValueOf(q[i]).value else 0
  }

  lemma DecodedBytes(q: string)
    requires 1 <= |q| <= 4 && DecodeGroup(q).Some?
    ensures var chunk, w, x, y, z := DecodeGroup(q).value, ValueAt(q, 0), ValueAt(q, 1), ValueAt(q, 2), ValueAt(q, 3);
            && |chunk| + 1 == |q|
            && At(chunk, 0) == w * 4 + x / 16 && At(chunk, 1) == (x % 16) * 16 + y / 4 && At(chunk, 2) == (y % 4) * 64 + z
    ensures forall i :: 0 <= i < |q| ==> CharOf(ValueAt(q, i)) == q[i]
  {
    forall i | 0 <= i < |q| ensures CharOf(ValueAt(q, i)) == q[i] {
      CharOfValue(q[i]);
    }
  }

  lemma DecodedSextets(q: string)
    requires 1 <= |q| <= 4 && DecodeGroup(q).Some?
    ensures |DecodeGroup(q).value| + 1 == |q|
    ensures Sextets(DecodeGroup(q).value) == [ValueAt(q, 0), ValueAt(q, 1), ValueAt(q, 2), ValueAt(q, 3)][..|q|]
  {
    DecodedBytes(q);
    FourBack(ValueAt(q, 0), ValueAt(q, 1), ValueAt(q, 2), ValueAt(q, 3));
  }

  lemma GroupDecoded(q: string)
    requires 1 <= |q| <= 4 && DecodeGroup(q).Some?
    ensures |DecodeGroup(q).value| + 1 == |q|
    ensures Spell(Sextets(DecodeGroup(q).value)) == q
  {
    DecodedSextets(q);
    DecodedBytes(q);
    var xs := Sextets(DecodeGroup(q).value);
    forall i | 0 <= i < |q| ensures Spell(xs)[i] == q[i] {
      assert xs[i] == ValueAt(q, i);
    }
  }

  lemma {:induction false} RoundTrip(bytes: seq<Byte>)
    ensures Decode(Encode(bytes)) == Some(bytes)
  {
    if bytes != [] {
      var n := AtMost(|bytes|, 3);
      var group := Spell(Sextets(bytes[..n]));
      var s := Encode(bytes);
      GroupEncoded(bytes[..n]);
      RoundTrip(bytes[n..]);
      assert bytes[..n] + bytes[n..] == bytes;
      if |bytes| <= 3 {
        assert bytes[n..] == [] && Encode(bytes[n..]) == "" && s == group;
      }
      assert s[..AtMost(|s|, 4)] == group && s[AtMost(|s|, 4)..] == Encode(bytes[n..]);
    }
  }

  lemma {:induction false} OnlyEncodings(s: string)
    requires Decode(s).Some?
    ensures Encode(Decode(s).value) == s
  {
    if s != "" {
      var n := AtMost(|s|, 4);
      GroupDecoded(s[..n]);
      OnlyEncodings(s[n..]);
      var chunk, rest := DecodeGroup(s[..n]).value, Decode(s[n..]).value;
      if |chunk| < 3 {
        assert s[n..] == "" && rest == [];
      }
      assert (chunk + rest)[..|chunk|] == chunk && (chunk + rest)[|chunk|..] == rest;
      assert s[..n] + s[n..] == s;
    }
  }

  /** A strict reader for the unpadded format accepts exactly the encodings, and reads each
      as the bytes it was made from: no two byte strings share an encoding. */
  lemma DecodesExactly(s: string, bytes: seq<Byte>)
    ensures Decode(s) == Some(bytes) <==> s == Encode(bytes)
  {
    RoundTrip(bytes);
    if Decode(s).Some? {
      OnlyEncodings(s);
    }
  }

  /** The length is 4n/3 rounded up: 43 characters for a 32-byte digest. */
  lemma {:induction false} EncodedLength(bytes: seq<Byte>)
    ensures |Encode(bytes)| == (4 * |bytes| + 2) / 3
    ensures forall i :: 0 <= i < |Encode(bytes)| ==> ValueOf(Encode(bytes)[i]).Some?
  {
    if bytes != [] {
      EncodedLength(bytes[AtMost(|bytes|, 3)..]);
    }
  }

  // ---- The method the source runs ---------------------------------------------------------------

  /** 2 to the power `16 - 8 * i`. */
  function ByteShift(i: nat): nat
    requires i < 3
  {
    if i == 0 then 0x1_0000 else if i == 1 then 0x100 else 1
  }

  /** 2 to the power `18 - 6 * i`. */
  function SextetShift(i: nat): nat
    requires i < 4
  {
    if i == 0 then 0x4_0000 else if i == 1 then 0x1000 else if i == 2 then 0x40 else 1
  }

  function Packed(chunk: seq<Byte>): nat
    requires |chunk| <= 3
  {
    if chunk == [] then 0
    else Packed(chunk[..|chunk| - 1]) + chunk[|chunk| - 1] * ByteShift(|chunk| - 1)
  }

  lemma PackedBytes(chunk: seq<Byte>)
    requires |chunk| <= 3
    ensures Packed(chunk) == At(chunk, 0) * 0x1_0000 + At(chunk, 1) * 0x100 + At(chunk, 2)
  {
    if chunk != [] {
      var init := chunk[..|chunk| - 1];
      PackedBytes(init);
      assert At(chunk, |chunk| - 1) == chunk[|chunk| - 1];
    }
  }

  lemma Regroup(a: Byte, b: Byte, c: Byte)
    ensures var xs: seq<int> := Four(a, b, c);
            a * 0x1_0000 + b * 0x100 + c == xs[0] * 0x4_0000 + xs[1] * 0x1000 + xs[2] * 0x40 + xs[3]
  {
    assert a == 4 * (a / 4) + a % 4 && b == 16 * (b / 16) + b % 16 && c == 64 * (c / 64) + c % 64;
  }

  lemma SixAtATime(w: Sextet, x: Sextet, y: Sextet, z: Sextet, acc: nat)
    requires acc == w * 0x4_0000 + x * 0x1000 + y * 0x40 + z
    ensures acc / 0x4_0000 % 64 == w && acc / 0x1000 % 64 == x && acc / 0x40 % 64 == y && acc / 1 % 64 == z
  {
    assert acc / 0x40 == w * 0x1000 + x * 0x40 + y;
    assert acc / 0x1000 == w * 0x40 + x;
    assert acc / 0x4_0000 == w;
  }

  /** Taking six bits at a time out of the accumulator gives the groups of the format. */
  lemma Unpacked(chunk: seq<Byte>, i: nat)
    requires 1 <= |chunk| <= 3 && i <= |chunk|
    ensures Packed(chunk) / SextetShift(i) % 64 == Sextets(chunk)[i]
  {
    PackedBytes(chunk);
    Regroup(At(chunk, 0), At(chunk, 1), At(chunk, 2));
    var xs := Four(At(chunk, 0), At(chunk, 1), At(chunk, 2));
    SixAtATime(xs[0], xs[1], xs[2], xs[3], Packed(chunk));
  }

  method EncodeChunk(chunk: seq<Byte>) returns (out: string)
    requires 1 <= |chunk| <= 3
    ensures out == Spell(Sextets(chunk))
  {
    var acc := 0;
    for i := 0 to |chunk|
      invariant acc == Packed(chunk[..i])
    {
      assert chunk[..i + 1][..i] == chunk[..i];
      acc := acc + chunk[i] * ByteShift(i);
    }
    assert chunk[..|chunk|] == chunk;
    out := "";
    for i := 0 to |chunk| + 1
      invariant out == Spell(Sextets(chunk))[..i]
    {
      Unpacked(chunk, i);
      var index := acc / SextetShift(i) % 64;
      AlphabetOrdered(index);
      out := out + [ALPHABET[index]];
    }
  }

  lemma EncodeFrom(bytes: seq<Byte>, at: nat, n: nat, group: string)
    requires at < |bytes| && n == AtMost(|bytes| - at, 3) && group == Spell(Sextets(bytes[at..at + n]))
    ensures Encode(bytes[at..]) == group + Encode(bytes[at + n..])
  {
    assert bytes[at..][..n] == bytes[at..at + n] && bytes[at..][n..] == bytes[at + n..];
  }

  /** `base64url_nopad`: the encoding of any byte string, read back to those bytes. */
  method EncodeBytes(bytes: seq<Byte>) returns (out: string)
    ensures out == Encode(bytes)
    ensures Decode(out) == Some(bytes)
  {
    out := "";
    var at := 0;
    while at < |bytes|
      invariant at <= |bytes|
      invariant out + Encode(bytes[at..]) == Encode(bytes)
    {
      var n := AtMost(|bytes| - at, 3);
      var group := EncodeChunk(bytes[at..at + n]);
      EncodeFrom(bytes, at, n, group);
      assert out + (group + Encode(bytes[at + n..])) == out + group + Encode(bytes[at + n..]);
      out := out + group;
      at := at + n;
    }
    RoundTrip(bytes);
  }
}
