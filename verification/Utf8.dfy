/** The UTF-8 encoder loop inside TypeBridge::toJS (src/TypeBridge.cpp), over the code points as
    unsigned ints, and the layout of section 3 of RFC 3629. */
module Utf8 {
  import opened Common

  type Octet = bv8
  type CodePoint = bv32

  const MAX: CodePoint := 0x10FFFF

  /** static_cast<char> of an unsigned int. */
  function Low(u: bv32): Octet {
    (u & 0xFF) as Octet
  }

  function EncodeOne(u: CodePoint): seq<Octet> {
    if u < 0x80 then [Low(u)]
    else if u < 0x800 then [Low(0xC0 | (u >> 6)), Low(0x80 | (u & 0x3F))]
    else if u < 0x10000 then [Low(0xE0 | (u >> 12)), Low(0x80 | ((u >> 6) & 0x3F)), Low(0x80 | (u & 0x3F))]
    else [Low(0xF0 | (u >> 18)), Low(0x80 | ((u >> 12) & 0x3F)), Low(0x80 | ((u >> 6) & 0x3F)), Low(0x80 | (u & 0x3F))]
  }

  function Encode(us: seq<CodePoint>): seq<Octet> {
    if us == [] then [] else EncodeOne(us[0]) + Encode(us[1..])
  }

  method EncodeLoop(charList: seq<CodePoint>) returns (result: seq<Octet>)
    ensures result == Encode(charList)
  {
    result := [];
    for i := 0 to |charList|
      invariant result + Encode(charList[i..]) == Encode(charList)
    {
      var unicodeChar := charList[i];
      ghost var rest := Encode(charList[i + 1..]);
      assert charList[i..][1..] == charList[i + 1..];
      assert Encode(charList[i..]) == EncodeOne(unicodeChar) + rest;
      result := AppendChar(result, unicodeChar, rest);
    }
    assert result + [] == result;
  }

  /** The loop's body. */
  method AppendChar(before: seq<Octet>, unicodeChar: CodePoint, ghost rest: seq<Octet>) returns (result: seq<Octet>)
    ensures result + rest == before + (EncodeOne(unicodeChar) + rest)
  {
    result := before;
    if unicodeChar < 0x80 {
      result := result + [Low(unicodeChar)];
    } else if unicodeChar < 0x800 {
      result := result + [Low(0xC0 | (unicodeChar >> 6))];
      result := result + [Low(0x80 | (unicodeChar & 0x3F))];
    } else if unicodeChar < 0x10000 {
      result := result + [Low(0xE0 | (unicodeChar >> 12))];
      result := result + [Low(0x80 | ((unicodeChar >> 6) & 0x3F))];
      result := result + [Low(0x80 | (unicodeChar & 0x3F))];
    } else {
      result := result + [Low(0xF0 | (unicodeChar >> 18))];
      result := result + [Low(0x80 | ((unicodeChar >> 12) & 0x3F))];
      result := result + [Low(0x80 | ((unicodeChar >> 6) & 0x3F))];
      result := result + [Low(0x80 | (unicodeChar & 0x3F))];
    }
    assert result == before + EncodeOne(unicodeChar);
  }

  // ---------------------------------------------------------------- the layout of RFC 3629

  predicate Tail(b: Octet) { b & 0xC0 == 0x80 }

  function Bits(b: Octet): bv32 { (b & 0x3F) as bv32 }

  /** The number of bytes that a first byte announces, 0 if it announces none. */
  function Announced(b: Octet): nat {
    if b & 0x80 == 0 then 1
    else if b & 0xE0 == 0xC0 then 2
    else if b & 0xF0 == 0xE0 then 3
    else if b & 0xF8 == 0xF0 then 4
    else 0
  }

  function Join2(b0: Octet, b1: Octet): bv32 {
    (((b0 & 0x1F) as bv32) << 6) | Bits(b1)
  }

  function Join3(b0: Octet, b1: Octet, b2: Octet): bv32 {
    (((b0 & 0x0F) as bv32) << 12) | (Bits(b1) << 6) | Bits(b2)
  }

  function Join4(b0: Octet, b1: Octet, b2: Octet, b3: Octet): bv32 {
    (((b0 & 0x07) as bv32) << 18) | (Bits(b1) << 12) | (Bits(b2) << 6) | Bits(b3)
  }

  /** The code point laid out at the start of bs and the bytes it takes. Overlong forms and
      values above 10FFFF are refused, as section 3 demands. */
  function DecodeOne(bs: seq<Octet>): Option<(CodePoint, nat)> {
    if bs == [] then None
    else
      var n := Announced(bs[0]);
      if n == 1 then Some((bs[0] as bv32, 1))
      else if n == 2 && |bs| >= 2 && Tail(bs[1]) then
        var u := Join2(bs[0], bs[1]);
        if u >= 0x80 then Some((u, 2)) else None
      else if n == 3 && |bs| >= 3 && Tail(bs[1]) && Tail(bs[2]) then
        var u := Join3(bs[0], bs[1], bs[2]);
        if u >= 0x800 then Some((u, 3)) else None
      else if n == 4 && |bs| >= 4 && Tail(bs[1]) && Tail(bs[2]) && Tail(bs[3]) then
        var u := Join4(bs[0], bs[1], bs[2], bs[3]);
        if 0x10000 <= u <= MAX then Some((u, 4)) else None
      else None
  }

  function Decode(bs: seq<Octet>): Option<seq<CodePoint>> {
    if bs == [] then Some([])
    else
      match DecodeOne(bs)
      case None => None
      case Some((u, n)) =>
        if n == 0 || n > |bs| then None
        else
          match Decode(bs[n..])
          case None => None
          case Some(us) => Some([u] + us)
  }

  /** One code point: its bytes follow the layout and carry exactly its bits. */
  lemma OneBack(u: CodePoint, rest: seq<Octet>)
    requires u <= MAX
    ensures DecodeOne(EncodeOne(u) + rest) == Some((u, |EncodeOne(u)|)) && EncodeOne(u) != []
  {
    var bs := EncodeOne(u) + rest;
    if u < 0x80 {
      OneByteBack(u);
    } else if u < 0x800 {
      TwoBack(u);
      ReadTwo(bs, u);
    } else if u < 0x10000 {
      ThreeBack(u);
      ReadThree(bs, u);
    } else {
      FourBack(u);
      ReadFour(bs, u);
    }
  }

  lemma ReadTwo(bs: seq<Octet>, u: CodePoint)
    requires |bs| >= 2 && Announced(bs[0]) == 2 && Tail(bs[1]) && Join2(bs[0], bs[1]) == u && u >= 0x80
    ensures DecodeOne(bs) == Some((u, 2))
  {
  }

  lemma ReadThree(bs: seq<Octet>, u: CodePoint)
    requires |bs| >= 3 && Announced(bs[0]) == 3 && Tail(bs[1]) && Tail(bs[2])
    requires Join3(bs[0], bs[1], bs[2]) == u && u >= 0x800
    ensures DecodeOne(bs) == Some((u, 3))
  {
  }

  lemma ReadFour(bs: seq<Octet>, u: CodePoint)
    requires |bs| >= 4 && Announced(bs[0]) == 4 && Tail(bs[1]) && Tail(bs[2]) && Tail(bs[3])
    requires Join4(bs[0], bs[1], bs[2], bs[3]) == u && 0x10000 <= u <= MAX
    ensures DecodeOne(bs) == Some((u, 4))
  {
  }

  lemma OneByteBack(u: CodePoint)
    requires u < 0x80
    ensures Announced(Low(u)) == 1 && Low(u) as bv32 == u
  {
  }

  lemma TwoBack(u: CodePoint)
    requires 0x80 <= u < 0x800
    ensures var b0, b1 := Low(0xC0 | (u >> 6)), Low(0x80 | (u & 0x3F));
      Announced(b0) == 2 && Tail(b1) && Join2(b0, b1) == u
  {
  }

  lemma ThreeBack(u: CodePoint)
    requires 0x800 <= u < 0x10000
    ensures var b0, b1, b2 := Low(0xE0 | (u >> 12)), Low(0x80 | ((u >> 6) & 0x3F)), Low(0x80 | (u & 0x3F));
      Announced(b0) == 3 && Tail(b1) && Tail(b2) && Join3(b0, b1, b2) == u
  {
  }

  lemma FourBack(u: CodePoint)
    requires 0x10000 <= u <= MAX
    ensures var b0, b1, b2, b3 := Low(0xF0 | (u >> 18)), Low(0x80 | ((u >> 12) & 0x3F)), Low(0x80 | ((u >> 6) & 0x3F)), Low(0x80 | (u & 0x3F));
      Announced(b0) == 4 && Tail(b1) && Tail(b2) && Tail(b3) && Join4(b0, b1, b2, b3) == u
  {
  }

  predicate InRange(us: seq<CodePoint>) {
    forall i :: 0 <= i < |us| ==> us[i] <= MAX
  }

  /** A decoder that reads the layout recovers exactly the sequence. */
  lemma {:induction false} DecodeEncode(us: seq<CodePoint>)
    requires InRange(us)
    ensures Decode(Encode(us)) == Some(us)
  {
    if us != [] {
      OneBack(us[0], Encode(us[1..]));
      assert Encode(us)[|EncodeOne(us[0])|..] == Encode(us[1..]);
      DecodeEncode(us[1..]);
      assert us == [us[0]] + us[1..];
    }
  }

  lemma EncodeInjective(a: seq<CodePoint>, b: seq<CodePoint>)
    requires InRange(a) && InRange(b) && Encode(a) == Encode(b)
    ensures a == b
  {
    DecodeEncode(a);
    DecodeEncode(b);
  }

  lemma {:induction false} EncodeConcat(a: seq<CodePoint>, b: seq<CodePoint>)
    ensures Encode(a + b) == Encode(a) + Encode(b)
  {
    if a == [] {
      assert a + b == b;
    } else {
      assert (a + b)[1..] == a[1..] + b;
      EncodeConcat(a[1..], b);
      Assoc(EncodeOne(a[0]), Encode(a[1..]), Encode(b));
    }
  }

  /** A prefix of an encoded text that is itself an encoded text ends at a code point boundary:
      the text splits in exactly one way. */
  lemma {:induction false} SplitsAtBoundary(us: seq<CodePoint>, a: seq<CodePoint>, rest: seq<Octet>)
    requires InRange(us) && InRange(a) && Encode(us) == Encode(a) + rest
    ensures a <= us && rest == Encode(us[|a|..])
    decreases a
  {
    if a != [] {
      Assoc(EncodeOne(a[0]), Encode(a[1..]), rest);
      OneBack(a[0], Encode(a[1..]) + rest);
      assert us != [];
      SplitHead(us, a[0], Encode(a[1..]) + rest);
      SplitsAtBoundary(us[1..], a[1..], rest);
      assert us == [us[0]] + us[1..] && a == [a[0]] + a[1..];
    }
  }

  lemma SplitHead(us: seq<CodePoint>, c: CodePoint, more: seq<Octet>)
    requires us != [] && InRange(us) && c <= MAX && Encode(us) == EncodeOne(c) + more
    ensures us[0] == c && Encode(us[1..]) == more
  {
    OneBack(c, more);
    OneBack(us[0], Encode(us[1..]));
    var n := |EncodeOne(c)|;
    assert Encode(us)[n..] == Encode(us[1..]);
    assert (EncodeOne(c) + more)[n..] == more;
  }

  lemma EncodeCons(u: CodePoint, us: seq<CodePoint>)
    ensures Encode([u] + us) == EncodeOne(u) + Encode(us)
    ensures u <= MAX && InRange(us) ==> InRange([u] + us)
  {
    assert ([u] + us)[1..] == us;
  }

  lemma DecodeFirst(bs: seq<Octet>) returns (u: CodePoint, n: nat)
    requires bs != [] && Decode(bs).Some?
    ensures n <= |bs| && n > 0 && u <= MAX && EncodeOne(u) == bs[..n]
    ensures Decode(bs[n..]).Some? && Decode(bs).value == [u] + Decode(bs[n..]).value
  {
    OneForth(bs);
    u, n := DecodeOne(bs).value.0, DecodeOne(bs).value.1;
  }

  lemma Cut(bs: seq<Octet>, n: nat)
    requires n <= |bs|
    ensures bs[..n] + bs[n..] == bs
  {
  }

  /** Conversely every byte sequence the layout accepts is produced by the encoder. */
  lemma {:induction false} EncodeDecode(bs: seq<Octet>)
    requires Decode(bs).Some?
    ensures InRange(Decode(bs).value) && Encode(Decode(bs).value) == bs
    decreases |bs|
  {
    if bs != [] {
      var u, n := DecodeFirst(bs);
      EncodeDecode(bs[n..]);
      EncodeCons(u, Decode(bs[n..]).value);
      Cut(bs, n);
    }
  }

  predicate Produced(bs: seq<Octet>, r: (CodePoint, nat)) {
    r.0 <= MAX && 0 < r.1 <= |bs| && EncodeOne(r.0) == bs[..r.1]
  }

  lemma OneForth(bs: seq<Octet>)
    requires DecodeOne(bs).Some?
    ensures Produced(bs, DecodeOne(bs).value)
  {
    var n := Announced(bs[0]);
    if n == 1 {
      OneByteForth(bs[0]);
      assert bs[..1] == [bs[0]];
    } else if n == 2 {
      ReadsTwo(bs);
    } else if n == 3 {
      ReadsThree(bs);
    } else {
      ReadsFour(bs);
    }
  }

  lemma ReadsTwo(bs: seq<Octet>)
    requires DecodeOne(bs).Some? && Announced(bs[0]) == 2
    ensures Produced(bs, DecodeOne(bs).value)
  {
    TwoForth(bs[0], bs[1]);
    assert bs[..2] == [bs[0], bs[1]];
  }

  lemma ReadsThree(bs: seq<Octet>)
    requires DecodeOne(bs).Some? && Announced(bs[0]) == 3
    ensures Produced(bs, DecodeOne(bs).value)
  {
    ThreeForth(bs[0], bs[1], bs[2]);
    assert bs[..3] == [bs[0], bs[1], bs[2]];
  }

  lemma ReadsFour(bs: seq<Octet>)
    requires DecodeOne(bs).Some? && Announced(bs[0]) == 4
    ensures Produced(bs, DecodeOne(bs).value)
  {
    FourRead(bs);
    var e := EncodeOne(DecodeOne(bs).value.0);
    FourForth(bs[0], bs[1], bs[2], bs[3]);
    FirstFour(bs, e);
  }

  lemma FourRead(bs: seq<Octet>)
    requires DecodeOne(bs).Some? && Announced(bs[0]) == 4
    ensures |bs| >= 4 && Tail(bs[1]) && Tail(bs[2]) && Tail(bs[3])
    ensures DecodeOne(bs).value == (Join4(bs[0], bs[1], bs[2], bs[3]), 4)
    ensures 0x10000 <= DecodeOne(bs).value.0 <= MAX
  {
  }

  lemma FirstFour(bs: seq<Octet>, e: seq<Octet>)
    requires |bs| >= 4 && e == [bs[0], bs[1], bs[2], bs[3]]
    ensures e == bs[..4]
  {
  }

  lemma OneByteForth(b: Octet)
    requires Announced(b) == 1
    ensures b as bv32 < 0x80 && EncodeOne(b as bv32) == [b]
  {
  }

  lemma TwoForth(b0: Octet, b1: Octet)
    requires Announced(b0) == 2 && Tail(b1) && Join2(b0, b1) >= 0x80
    ensures Join2(b0, b1) < 0x800 && EncodeOne(Join2(b0, b1)) == [b0, b1]
  {
  }

  lemma ThreeForth(b0: Octet, b1: Octet, b2: Octet)
    requires Announced(b0) == 3 && Tail(b1) && Tail(b2) && Join3(b0, b1, b2) >= 0x800
    ensures EncodeOne(Join3(b0, b1, b2)) == [b0, b1, b2]
  {
    ThreeBits(b0, b1, b2);
  }

  lemma ThreeBits(b0: Octet, b1: Octet, b2: Octet)
    requires b0 & 0xF0 == 0xE0 && Tail(b1) && Tail(b2)
    ensures var u := Join3(b0, b1, b2);
      u < 0x10000 && Low(0xE0 | (u >> 12)) == b0 && Low(0x80 | ((u >> 6) & 0x3F)) == b1 && Low(0x80 | (u & 0x3F)) == b2
  {
  }

  lemma FourForth(b0: Octet, b1: Octet, b2: Octet, b3: Octet)
    requires Announced(b0) == 4 && Tail(b1) && Tail(b2) && Tail(b3) && Join4(b0, b1, b2, b3) >= 0x10000
    ensures EncodeOne(Join4(b0, b1, b2, b3)) == [b0, b1, b2, b3]
  {
    FourBits(b0, b1, b2, b3);
  }

  lemma FourBits(b0: Octet, b1: Octet, b2: Octet, b3: Octet)
    requires b0 & 0xF8 == 0xF0 && Tail(b1) && Tail(b2) && Tail(b3)
    ensures var u := Join4(b0, b1, b2, b3);
      Low(0xF0 | (u >> 18)) == b0 && Low(0x80 | ((u >> 12) & 0x3F)) == b1
      && Low(0x80 | ((u >> 6) & 0x3F)) == b2 && Low(0x80 | (u & 0x3F)) == b3
  {
  }

  /** The encoder also writes surrogates, which section 3 forbids: its output is valid UTF-8 if and
      only if the input has none. */
  predicate Surrogate(u: CodePoint) { 0xD800 <= u <= 0xDFFF }

  predicate ValidUtf8(bs: seq<Octet>) {
    Decode(bs).Some? && forall i :: 0 <= i < |Decode(bs).value| ==> !Surrogate(Decode(bs).value[i])
  }

  lemma ValidIffNoSurrogate(us: seq<CodePoint>)
    requires InRange(us)
    ensures ValidUtf8(Encode(us)) <==> forall i :: 0 <= i < |us| ==> !Surrogate(us[i])
  {
    DecodeEncode(us);
  }
}
