/** Hex and base64 of src/modules/buffer/BufferModule.cpp (encodeStringHelper and
    decodeStringHelper), over bytes as integers: x >> n is x / 2^n, x & (2^n - 1) is x % 2^n, and
    an or of disjoint bits is a sum. */
module Codecs {
  import opened Common

  // ---------------------------------------------------------------- hex

  function HexDigit(d: int): char
    requires 0 <= d < 16
  {
    "0123456789abcdef"[d]
  }

  /** The value of a hexadecimal digit of either case; None otherwise. */
  function HexValue(c: char): Option<int> {
    if '0' <= c <= '9' then Some(c as int - '0' as int)
    else if 'a' <= c <= 'f' then Some(c as int - 'a' as int + 10)
    else if 'A' <= c <= 'F' then Some(c as int - 'A' as int + 10)
    else None
  }

  /** strtoul of two characters in base 16, cut to a byte: leading space or sign is skipped, a
      minus negates, and anything that is not a number counts as zero. */
  function Strtoul(c0: char, c1: char): Byte {
    match (HexValue(c0), HexValue(c1))
    case (Some(h), Some(l)) => 16 * h + l
    case (Some(h), None) => h
    case (None, Some(l)) => if IsSpace(c0) || c0 == '+' then l else if c0 == '-' then (256 - l) % 256 else 0
    case (None, None) => 0
  }

  function HexEncode(data: seq<Byte>): string {
    if data == [] then "" else [HexDigit(data[0] / 16), HexDigit(data[0] % 16)] + HexEncode(data[1..])
  }

  function HexDecode(s: string): seq<Byte> {
    if |s| < 2 then [] else [Strtoul(s[0], s[1])] + HexDecode(s[2..])
  }

  lemma HexStep(oss: string, data: seq<Byte>, i: nat)
    requires i < |data|
    ensures oss + HexEncode(data[i..]) == (oss + [HexDigit(data[i] / 16), HexDigit(data[i] % 16)]) + HexEncode(data[i + 1..])
  {
    var digits := [HexDigit(data[i] / 16), HexDigit(data[i] % 16)];
    assert data[i..][1..] == data[i + 1..];
    assert oss + (digits + HexEncode(data[i + 1..])) == (oss + digits) + HexEncode(data[i + 1..]);
  }

  method EncodeHex(data: seq<Byte>) returns (oss: string)
    ensures oss == HexEncode(data)
  {
    oss := "";
    for i := 0 to |data|
      invariant oss + HexEncode(data[i..]) == HexEncode(data)
    {
      var digits := [HexDigit(data[i] / 16), HexDigit(data[i] % 16)];
      HexStep(oss, data, i);
      oss := oss + digits;
    }
    assert oss + "" == oss;
  }

  method DecodeHex(str: string) returns (result: seq<Byte>)
    ensures result == HexDecode(str)
  {
    result := [];
    var i := 0;
    while i < |str|
      invariant 0 <= i <= |str| + 1
      invariant result + (if i <= |str| then HexDecode(str[i..]) else []) == HexDecode(str)
    {
      if i + 1 < |str| {
        var b := Strtoul(str[i], str[i + 1]);
        assert str[i..][2..] == str[i + 2..];
        assert result + ([b] + HexDecode(str[i + 2..])) == (result + [b]) + HexDecode(str[i + 2..]);
        result := result + [b];
      }
      i := i + 2;
    }
    assert result + [] == result;
  }

  lemma HexDigitBack(d: int)
    requires 0 <= d < 16
    ensures HexValue(HexDigit(d)) == Some(d)
  {
  }

  lemma HexByteBack(b: Byte)
    ensures Strtoul(HexDigit(b / 16), HexDigit(b % 16)) == b
  {
    HexDigitBack(b / 16);
    HexDigitBack(b % 16);
  }

  lemma HexDecodeCons(c0: char, c1: char, rest: string)
    ensures HexDecode([c0, c1] + rest) == [Strtoul(c0, c1)] + HexDecode(rest)
  {
    assert ([c0, c1] + rest)[2..] == rest;
  }

  /** Hex decoding undoes hex encoding on every byte sequence (RFC 4648, section 8). */
  lemma {:induction false} HexRoundTrip(data: seq<Byte>)
    ensures HexDecode(HexEncode(data)) == data
  {
    if data != [] {
      HexByteBack(data[0]);
      HexDecodeCons(HexDigit(data[0] / 16), HexDigit(data[0] % 16), HexEncode(data[1..]));
      HexRoundTrip(data[1..]);
      assert data == [data[0]] + data[1..];
    }
  }

  /** Lower-case digits, the upper half of each byte first. */
  function LowerDigit(v: int): char
    requires 0 <= v < 16
  {
    if v < 10 then ('0' as int + v) as char else ('a' as int + (v - 10)) as char
  }

  lemma DigitIs(d: int)
    requires 0 <= d < 16
    ensures HexDigit(d) == LowerDigit(d)
  {
  }

  lemma {:induction false} HexDigitsAt(data: seq<Byte>, i: nat)
    requires i < |data|
    ensures |HexEncode(data)| == 2 * |data|
    ensures HexEncode(data)[2 * i] == LowerDigit(data[i] / 16) && HexEncode(data)[2 * i + 1] == LowerDigit(data[i] % 16)
  {
    DigitIs(data[i] / 16);
    DigitIs(data[i] % 16);
    if i > 0 {
      HexDigitsAt(data[1..], i - 1);
    } else if |data| > 1 {
      HexDigitsAt(data[1..], 0);
    }
  }

  function UpperDigit(c: char): char {
    if 'a' <= c <= 'f' then (c as int - 'a' as int + 'A' as int) as char else c
  }

  function Upper(s: string): string {
    seq(|s|, i requires 0 <= i < |s| => UpperDigit(s[i]))
  }

  /** Decoding does not tell upper-case digits from lower-case ones, whatever else is in the text. */
  lemma {:induction false} HexIgnoresCase(s: string)
    ensures HexDecode(Upper(s)) == HexDecode(s)
    decreases |s|
  {
    if |s| >= 2 {
      assert Upper(s)[2..] == Upper(s[2..]);
      SameByte(s[0], s[1]);
      HexIgnoresCase(s[2..]);
    }
  }

  lemma SameByte(a: char, b: char)
    ensures Strtoul(UpperDigit(a), UpperDigit(b)) == Strtoul(a, b)
  {
  }

  /** What strtoul makes of two characters that are not two digits. */
  lemma OddPairs()
    ensures Strtoul('1', 'g') == 1 && Strtoul('g', '1') == 0
    ensures Strtoul(' ', 'a') == 10 && Strtoul('+', 'F') == 15 && Strtoul('-', '1') == 255
  {
  }

  // ---------------------------------------------------------------- base64

  /** base64_chars[k]. */
  function Char64(k: int): char
    requires 0 <= k < 64
  {
    if k < 26 then ('A' as int + k) as char
    else if k < 52 then ('a' as int + (k - 26)) as char
    else if k < 62 then ('0' as int + (k - 52)) as char
    else if k == 62 then '+' else '/'
  }

  /** strchr(base64_chars, c) - base64_chars: the terminator matches a NUL, at 64. */
  function Index64(c: char): Option<int> {
    if 'A' <= c <= 'Z' then Some(c as int - 'A' as int)
    else if 'a' <= c <= 'z' then Some(c as int - 'a' as int + 26)
    else if '0' <= c <= '9' then Some(c as int - '0' as int + 52)
    else if c == '+' then Some(62)
    else if c == '/' then Some(63)
    else if c == '\0' then Some(64)
    else None
  }

  lemma Index64Back(k: int)
    requires 0 <= k < 64
    ensures Index64(Char64(k)) == Some(k) && Char64(k) != '='
  {
  }

  function Min(a: int, b: int): int { if a < b then a else b }

  function EncodeGroup(d: seq<Byte>): string
    requires 1 <= |d| <= 3
  {
    var val: nat := d[0] as int * 65536 + (if |d| > 1 then d[1] as int * 256 else 0) + (if |d| > 2 then d[2] as int else 0);
    [Char64(val / 262144), Char64(val / 4096 % 64),
     if |d| > 1 then Char64(val / 64 % 64) else '=', if |d| > 2 then Char64(val % 64) else '=']
  }

  function Encode64(data: seq<Byte>): string {
    if data == [] then ""
    else
      var n := Min(3, |data|);
      EncodeGroup(data[..n]) + Encode64(data[n..])
  }

  /** One turn of the decoder's inner loop: (val << 6) | index, where only the index 64 can overlap. */
  function Accumulate(val: nat, c: char): nat {
    match Index64(c)
    case None => val
    case Some(k) => if k < 64 then val * 64 + k else val * 64 + (if val % 2 == 1 then 0 else 64)
  }

  function AccumulateAll(val: nat, s: string): nat
    decreases |s|
  {
    if s == "" then val else AccumulateAll(Accumulate(val, s[0]), s[1..])
  }

  function Bytes(val: nat, s: string): seq<Byte>
    requires 1 <= |s| <= 4
  {
    [val / 65536 % 256]
    + (if |s| > 2 && s[2] != '=' then [val / 256 % 256] else [])
    + (if |s| > 3 && s[3] != '=' then [val % 256] else [])
  }

  function DecodeGroup(s: string): seq<Byte>
    requires 1 <= |s| <= 4
  {
    Bytes(AccumulateAll(0, s), s)
  }

  function Decode64(s: string): seq<Byte> {
    if s == "" then []
    else
      var n := Min(4, |s|);
      DecodeGroup(s[..n]) + Decode64(s[n..])
  }

  lemma EncodeStep(data: seq<Byte>, i: nat)
    requires i < |data|
    ensures Encode64(data[i..]) == EncodeGroup(data[i..i + Min(3, |data| - i)]) + Encode64(data[Min(i + 3, |data|)..])
  {
    var n := Min(3, |data| - i);
    assert data[i..][..n] == data[i..i + n] && data[i..][n..] == data[i + n..];
  }

  lemma DecodeStep(str: string, i: nat)
    requires i < |str|
    ensures Decode64(str[i..]) == DecodeGroup(str[i..i + Min(4, |str| - i)]) + Decode64(str[Min(i + 4, |str|)..])
  {
    var n := Min(4, |str| - i);
    assert str[i..][..n] == str[i..i + n] && str[i..][n..] == str[i + n..];
  }

  method EncodeBase64(data: seq<Byte>) returns (result: string)
    ensures result == Encode64(data)
  {
    result := "";
    var len := |data|;
    var i := 0;
    while i < len
      invariant 0 <= i
      invariant result + Encode64(data[Min(i, len)..]) == Encode64(data)
    {
      var group := EncodeAt(data, i);
      EncodeStep(data, i);
      Assoc(result, group, Encode64(data[Min(i + 3, len)..]));
      result := result + group;
      i := i + 3;
    }
    assert result + "" == result;
  }

  /** The four characters that one turn of the encoder appends. */
  method EncodeAt(data: seq<Byte>, i: nat) returns (result: string)
    requires i < |data|
    ensures result == EncodeGroup(data[i..i + Min(3, |data| - i)])
  {
    var len := |data|;
    var val: nat := data[i] as int * 65536;
    if i + 1 < len { val := val + data[i + 1] as int * 256; }
    if i + 2 < len { val := val + data[i + 2] as int; }
    result := [Char64(val / 262144), Char64(val / 4096 % 64)];
    result := result + [if i + 1 < len then Char64(val / 64 % 64) else '='];
    result := result + [if i + 2 < len then Char64(val % 64) else '='];
  }

  method DecodeBase64(str: string) returns (result: seq<Byte>)
    ensures result == Decode64(str)
  {
    result := [];
    var len := |str|;
    var i := 0;
    while i < len
      invariant 0 <= i
      invariant result + Decode64(str[Min(i, len)..]) == Decode64(str)
    {
      var group := DecodeAt(str, i);
      DecodeStep(str, i);
      Assoc(result, group, Decode64(str[Min(i + 4, len)..]));
      result := result + group;
      i := i + 4;
    }
    assert result + [] == result;
  }

  /** The bytes that one turn of the decoder pushes. */
  method DecodeAt(str: string, i: nat) returns (result: seq<Byte>)
    requires i < |str|
    ensures result == DecodeGroup(str[i..i + Min(4, |str| - i)])
  {
    ghost var group := str[i..i + Min(4, |str| - i)];
    var len := |str|;
    var val: nat := 0;
    var j := 0;
    while j < 4 && i + j < len
      invariant 0 <= j <= |group|
      invariant AccumulateAll(val, group[j..]) == AccumulateAll(0, group)
    {
      var pos := Index64(str[i + j]);
      assert group[j..][0] == str[i + j] && group[j..][1..] == group[j + 1..];
      if pos.Some? {
        val := if pos.value < 64 then val * 64 + pos.value else val * 64 + (if val % 2 == 1 then 0 else 64);
      }
      j := j + 1;
    }
    assert val == AccumulateAll(0, group);
    result := [val / 65536 % 256];
    if i + 2 < len && str[i + 2] != '=' {
      result := result + [val / 256 % 256];
    }
    if i + 3 < len && str[i + 3] != '=' {
      result := result + [val % 256];
    }
  }

  /** The alphabet: the letters, small and capital, the digits, plus and slash, each at one place. */
  lemma AlphabetIs(k: int, c: char)
    requires 0 <= k < 64
    ensures Char64(k) == c <==> Index64(c) == Some(k)
    ensures k < 26 ==> Char64(k) as int == 'A' as int + k
    ensures 26 <= k < 52 ==> Char64(k) as int == 'a' as int + k - 26
    ensures 52 <= k < 62 ==> Char64(k) as int == '0' as int + k - 52
    ensures Char64(62) == '+' && Char64(63) == '/'
  {
  }

  /** A character outside the alphabet (and not NUL) adds no bits. */
  lemma StrangersAddNothing(val: nat, c: char, s: string)
    requires c != '\0' && forall k :: 0 <= k < 64 ==> Char64(k) != c
    ensures AccumulateAll(val, [c] + s) == AccumulateAll(val, s)
  {
    assert ([c] + s)[1..] == s;
    if Index64(c).Some? {
      AlphabetIs(Index64(c).value, c);
      assert false;
    }
  }

  /** Test vectors of section 10 of RFC 4648: f, fo and foo. */
  lemma Vectors()
    ensures EncodeGroup([102]) == ['Z', 'g', '=', '=']
    ensures EncodeGroup([102, 111]) == ['Z', 'm', '8', '=']
    ensures EncodeGroup([102, 111, 111]) == ['Z', 'm', '9', 'v']
  {
  }

  // ---------------------------------------------------------------- base64, there and back

  lemma FourChars(c0: char, c1: char, c2: char, c3: char)
    ensures AccumulateAll(0, [c0, c1, c2, c3])
         == Accumulate(Accumulate(Accumulate(Accumulate(0, c0), c1), c2), c3)
  {
    var s := [c0, c1, c2, c3];
    var v1 := Accumulate(0, c0);
    var v2 := Accumulate(v1, c1);
    var v3 := Accumulate(v2, c2);
    assert s[1..] == [c1, c2, c3] && [c1, c2, c3][1..] == [c2, c3] && [c2, c3][1..] == [c3] && [c3][1..] == [];
    assert AccumulateAll(0, s) == AccumulateAll(v1, [c1, c2, c3]);
    assert AccumulateAll(v1, [c1, c2, c3]) == AccumulateAll(v2, [c2, c3]);
    assert AccumulateAll(v2, [c2, c3]) == AccumulateAll(v3, [c3]);
    assert AccumulateAll(v3, [c3]) == AccumulateAll(Accumulate(v3, c3), []);
  }

  /** A 24-bit value is what its sextets make. */
  lemma Sextets(val: nat)
    ensures val / 262144 * 64 + val / 4096 % 64 == val / 4096
    ensures val / 4096 * 64 + val / 64 % 64 == val / 64
    ensures val / 64 * 64 + val % 64 == val
  {
    assert val / 4096 == val / 64 / 64;
    assert val / 262144 == val / 4096 / 64;
  }

  /** The three bytes of a 24-bit value. */
  lemma Octets(a: Byte, b: Byte, c: Byte)
    ensures var val: nat := a as int * 65536 + b as int * 256 + c as int;
      val / 262144 < 64 && val / 65536 % 256 == a && val / 256 % 256 == b && val % 256 == c
  {
    var val: nat := a as int * 65536 + b as int * 256 + c as int;
    assert val / 65536 == a;
    assert val / 256 == a as int * 256 + b as int;
  }

  /** A complete group comes back. */
  lemma GroupBack(d: seq<Byte>)
    requires |d| == 3
    ensures DecodeGroup(EncodeGroup(d)) == d
  {
    var val: nat := d[0] as int * 65536 + d[1] as int * 256 + d[2] as int;
    Octets(d[0], d[1], d[2]);
    FromSextets(val);
    assert EncodeGroup(d) == [Char64(val / 262144), Char64(val / 4096 % 64), Char64(val / 64 % 64), Char64(val % 64)];
  }

  lemma FromSextets(val: nat)
    requires val / 262144 < 64
    ensures AccumulateAll(0, [Char64(val / 262144), Char64(val / 4096 % 64), Char64(val / 64 % 64), Char64(val % 64)]) == val
    ensures Char64(val / 64 % 64) != '=' && Char64(val % 64) != '='
  {
    var k0, k1, k2, k3 := val / 262144, val / 4096 % 64, val / 64 % 64, val % 64;
    Index64Back(k0);
    Index64Back(k1);
    Index64Back(k2);
    Index64Back(k3);
    FourChars(Char64(k0), Char64(k1), Char64(k2), Char64(k3));
    Sextets(val);
  }

  /** A padded group keeps its length but, as '=' adds no bits, its bytes end up shifted: it comes
      back if and only if they are all zero. */
  lemma TailBack(d: seq<Byte>)
    requires 1 <= |d| <= 2
    ensures |DecodeGroup(EncodeGroup(d))| == |d|
    ensures DecodeGroup(EncodeGroup(d)) == d <==> AllZero(d)
  {
    assert d == if |d| == 1 then [d[0]] else [d[0], d[1]];
    if |d| == 1 {
      OneByteTail(d[0], EncodeGroup(d));
    } else {
      TwoByteTail(d[0], d[1], EncodeGroup(d));
    }
  }

  lemma OneByteTail(a: Byte, s: string)
    requires s == EncodeGroup([a])
    ensures DecodeGroup(s) == [0]
  {
    var val: nat := a as int * 65536;
    Sextets(val);
    Index64Back(val / 262144);
    Index64Back(val / 4096 % 64);
    FourChars(s[0], s[1], s[2], s[3]);
    assert AccumulateAll(0, s) == val / 4096 == a as int * 16;
  }

  lemma TwoByteTail(a: Byte, b: Byte, s: string)
    requires s == EncodeGroup([a, b])
    ensures |DecodeGroup(s)| == 2 && (DecodeGroup(s) == [a, b] <==> a == 0 && b == 0)
  {
    var val: nat := a as int * 65536 + b as int * 256;
    Sextets(val);
    Index64Back(val / 262144);
    Index64Back(val / 4096 % 64);
    Index64Back(val / 64 % 64);
    FourChars(s[0], s[1], s[2], s[3]);
    var w: nat := a as int * 1024 + b as int * 4;
    TwoByteValue(a, b);
    assert AccumulateAll(0, s) == w;
    assert DecodeGroup(s) == [w / 65536 % 256, w / 256 % 256];
    Shifted(a, b);
  }

  lemma TwoByteValue(a: Byte, b: Byte)
    ensures (a as int * 65536 + b as int * 256) / 64 == a as int * 1024 + b as int * 4
  {
  }

  lemma Shifted(a: Byte, b: Byte)
    ensures var w: nat := a as int * 1024 + b as int * 4;
      (w / 65536 % 256 == a && w / 256 % 256 == b) <==> (a == 0 && b == 0)
  {
    var w: nat := a as int * 1024 + b as int * 4;
    assert w / 65536 < 4;
    if w / 65536 == a {
      assert a == 0;
      assert w / 256 < 4;
    }
  }

  /** The length of the complete groups. */
  function Whole(data: seq<Byte>): nat { |data| - |data| % 3 }

  ghost predicate AllZero(d: seq<Byte>) {
    forall i :: 0 <= i < |d| ==> d[i] == 0
  }

  function TailDecoded(tail: seq<Byte>): seq<Byte>
    requires |tail| < 3
  {
    if tail == [] then [] else DecodeGroup(EncodeGroup(tail))
  }

  /** Decoding an encoding: the complete groups, then what becomes of the rest. */
  lemma {:induction false} GroupsBack(data: seq<Byte>)
    ensures Decode64(Encode64(data)) == data[..Whole(data)] + TailDecoded(data[Whole(data)..])
    decreases |data|
  {
    if |data| >= 3 {
      DecodeFirst(data);
      GroupBack(data[..3]);
      GroupsBack(data[3..]);
      Regroup(data, TailDecoded(data[3..][Whole(data[3..])..]));
    } else if data != [] {
      DecodeFirst(data);
      assert Whole(data) == 0 && data[..|data|] == data && data[|data|..] == [];
    }
  }

  lemma Regroup(data: seq<Byte>, t: seq<Byte>)
    requires |data| >= 3
    ensures data[..3] + (data[3..][..Whole(data[3..])] + t) == data[..Whole(data)] + t
    ensures data[3..][Whole(data[3..])..] == data[Whole(data)..]
  {
  }

  /** Decoding an encoding starts with its first group. */
  lemma DecodeFirst(data: seq<Byte>)
    requires data != []
    ensures var n := Min(3, |data|);
      Decode64(Encode64(data)) == DecodeGroup(EncodeGroup(data[..n])) + Decode64(Encode64(data[n..]))
  {
    var n := Min(3, |data|);
    DecodeCons(EncodeGroup(data[..n]), Encode64(data[n..]));
  }

  lemma DecodeCons(group: string, rest: string)
    requires |group| == 4
    ensures Decode64(group + rest) == DecodeGroup(group) + Decode64(rest)
  {
    assert (group + rest)[..4] == group && (group + rest)[4..] == rest;
  }

  lemma TailIsZero(tail: seq<Byte>)
    requires |tail| < 3
    ensures |TailDecoded(tail)| == |tail| && (TailDecoded(tail) == tail <==> AllZero(tail))
  {
    if tail != [] { TailBack(tail); }
  }

  lemma WithTail(data: seq<Byte>, back: seq<Byte>, t: seq<Byte>)
    requires back == data[..Whole(data)] + t && |t| == |data| - Whole(data)
    ensures |back| == |data| && back[..Whole(data)] == data[..Whole(data)]
    ensures back == data <==> t == data[Whole(data)..]
  {
    assert data == data[..Whole(data)] + data[Whole(data)..];
    SameTail(data[..Whole(data)], t, data[Whole(data)..]);
  }

  /** Decoding an encoding always has the original length and agrees with the original on every
      complete group; it is the original if and only if the bytes beyond those are all zeros. */
  lemma Base64RoundTrip(data: seq<Byte>)
    ensures var back := Decode64(Encode64(data));
      && |back| == |data|
      && back[..Whole(data)] == data[..Whole(data)]
      && (back == data <==> AllZero(data[Whole(data)..]))
  {
    var tail := data[Whole(data)..];
    GroupsBack(data);
    TailIsZero(tail);
    WithTail(data, Decode64(Encode64(data)), TailDecoded(tail));
  }

  lemma SameTail(a: seq<Byte>, t: seq<Byte>, u: seq<Byte>)
    ensures a + t == a + u <==> t == u
    ensures (a + t)[..|a|] == a
  {
    assert (a + t)[|a|..] == t && (a + u)[|a|..] == u;
  }

  /** A byte alone in its group is decoded as zero, so 1 is lost. */
  lemma LoneByteIsLost()
    ensures Decode64(Encode64([1])) == [0]
  {
    var d: seq<Byte> := [1];
    GroupsBack(d);
    assert Whole(d) == 0 && d[..0] == [] && d[0..] == d;
    OneByteTail(1, EncodeGroup(d));
  }
}
