/** UTF-8 encoding, and the decoder of `Utf8` measured against it. */
module Encoding {
  import opened Utf8

  /** The bytes of a character: RFC 3629, section 3. */
  function Encode(c: char): (bs: seq<Byte>)
    ensures |bs| == EncodedLength(c)
  {
    var n := c as int;
    if n < 0x80 then [n]
    else if n < 0x800 then [0xC0 + n / 0x40, 0x80 + n % 0x40]
    else if n < 0x1_0000 then [0xE0 + n / 0x1000, 0x80 + n / 0x40 % 0x40, 0x80 + n % 0x40]
    else [0xF0 + n / 0x4_0000, 0x80 + n / 0x1000 % 0x40, 0x80 + n / 0x40 % 0x40, 0x80 + n % 0x40]
  }

  function EncodeAll(s: string): seq<Byte> {
    if s == "" then [] else Encode(s[0]) + EncodeAll(s[1..])
  }

  lemma TwoDigits(n: nat)
    ensures n == n / 0x40 * 0x40 + n % 0x40
  {
  }

  lemma ThreeDigits(n: nat)
    ensures n == n / 0x1000 * 0x1000 + n / 0x40 % 0x40 * 0x40 + n % 0x40
  {
    assert n / 0x1000 == n / 0x40 / 0x40;
  }

  lemma FourDigits(n: nat)
    ensures n == n / 0x4_0000 * 0x4_0000 + n / 0x1000 % 0x40 * 0x1000 + n / 0x40 % 0x40 * 0x40 + n % 0x40
  {
    ThreeDigits(n);
    assert n / 0x4_0000 == n / 0x1000 / 0x40;
  }

  /** The encoding of a character is read as that character, whatever follows. */
  lemma ScanOfEncoding(c: char, rest: seq<Byte>)
    ensures ScanFirst(Encode(c) + rest) == Scalar(c, |Encode(c)|)
  {
    var n := c as int;
    TwoDigits(n);
    ThreeDigits(n);
    FourDigits(n);
  }

  lemma OneMoreDigit(a: nat, d: nat)
    requires d < 0x40
    ensures (a * 0x40 + d) / 0x40 == a && (a * 0x40 + d) % 0x40 == d
  {
  }

  lemma DigitsOfThree(a: nat, b: nat, d: nat, n: nat)
    requires b < 0x40 && d < 0x40 && n == a * 0x1000 + b * 0x40 + d
    ensures n / 0x1000 == a && n / 0x40 % 0x40 == b && n % 0x40 == d && n / 0x40 == a * 0x40 + b
  {
    assert n == (a * 0x40 + b) * 0x40 + d;
    OneMoreDigit(a * 0x40 + b, d);
    OneMoreDigit(a, b);
    assert n / 0x1000 == n / 0x40 / 0x40;
  }

  lemma DigitsOfFour(a: nat, b: nat, c: nat, d: nat, n: nat)
    requires b < 0x40 && c < 0x40 && d < 0x40 && n == a * 0x4_0000 + b * 0x1000 + c * 0x40 + d
    ensures n / 0x4_0000 == a && n / 0x1000 % 0x40 == b && n / 0x40 % 0x40 == c && n % 0x40 == d
  {
    DigitsOfThree(a * 0x40 + b, c, d, n);
    OneMoreDigit(a, b);
    assert n / 0x4_0000 == n / 0x1000 / 0x40;
  }

  lemma EncodingOfTwo(bs: seq<Byte>, c: char)
    requires bs != [] && ScanFirst(bs) == Scalar(c, 2)
    ensures Encode(c) == [bs[0], bs[1]]
  {
    OneMoreDigit(Payload(bs[0], 0xC0), Payload(bs[1], 0x80));
  }

  lemma EncodingOfThree(bs: seq<Byte>, c: char)
    requires bs != [] && ScanFirst(bs) == Scalar(c, 3)
    ensures Encode(c) == [bs[0], bs[1], bs[2]]
  {
    DigitsOfThree(Payload(bs[0], 0xE0), Payload(bs[1], 0x80), Payload(bs[2], 0x80), c as int);
  }

  lemma EncodingOfFour(bs: seq<Byte>, c: char)
    requires bs != [] && ScanFirst(bs) == Scalar(c, 4)
    ensures Encode(c) == [bs[0], bs[1], bs[2], bs[3]]
  {
    DigitsOfFour(Payload(bs[0], 0xF0), Payload(bs[1], 0x80), Payload(bs[2], 0x80), Payload(bs[3], 0x80), c as int);
  }

  /** A character is only read from its encoding. */
  lemma EncodingOfScan(bs: seq<Byte>)
    requires bs != [] && ScanFirst(bs).Scalar?
    ensures Encode(ScanFirst(bs).c) == bs[..ScanFirst(bs).length]
  {
    var s := ScanFirst(bs);
    if s.length == 2 {
      EncodingOfTwo(bs, s.c);
    } else if s.length == 3 {
      EncodingOfThree(bs, s.c);
    } else if s.length == 4 {
      EncodingOfFour(bs, s.c);
    }
  }

  /** Decoding undoes encoding. */
  lemma {:induction false} DecodeOfEncode(s: string)
    ensures Decode(EncodeAll(s)) == s && WellFormed(EncodeAll(s)) && |EncodeAll(s)| == ByteLength(s)
  {
    if s != "" {
      var rest := EncodeAll(s[1..]);
      ScanOfEncoding(s[0], rest);
      assert (Encode(s[0]) + rest)[|Encode(s[0])|..] == rest;
      DecodeOfEncode(s[1..]);
    }
  }

  lemma EncodeAllOfCons(c: char, s: string)
    ensures EncodeAll([c] + s) == Encode(c) + EncodeAll(s)
  {
  }

  lemma FirstScalar(bs: seq<Byte>) returns (c: char, rest: seq<Byte>)
    requires bs != [] && WellFormed(bs)
    ensures bs == Encode(c) + rest && Decode(bs) == [c] + Decode(rest) && WellFormed(rest)
  {
    var s := ScanFirst(bs);
    c, rest := s.c, bs[s.length..];
    EncodingOfScan(bs);
  }

  lemma {:induction false} EncodeOfDecode(bs: seq<Byte>)
    requires WellFormed(bs)
    ensures EncodeAll(Decode(bs)) == bs
    decreases |bs|
  {
    if bs != [] {
      var c, rest := FirstScalar(bs);
      EncodeOfDecode(rest);
      EncodeAllOfCons(c, Decode(rest));
    }
  }

  /** Bytes come back from decoding and encoding exactly when they are well formed. */
  lemma BytesRoundTripIff(bs: seq<Byte>)
    ensures EncodeAll(Decode(bs)) == bs <==> WellFormed(bs)
  {
    DecodeOfEncode(Decode(bs));
    if WellFormed(bs) {
      EncodeOfDecode(bs);
    }
  }

  // ---- malformed bytes -----------------------------------------------------------

  /** Some character starts with these bytes. */
  ghost predicate StartsSome(bs: seq<Byte>) {
    exists c: char :: bs <= Encode(c)
  }

  lemma IncompleteStartsSome(bs: seq<Byte>)
    requires bs != [] && ScanFirst(bs).Incomplete?
    ensures StartsSome(bs)
  {
    var whole := bs + Completion(bs);
    assert ScanFirst(whole).Scalar? && ScanFirst(whole).length == |whole|;
    EncodingOfScan(whole);
    assert bs <= Encode(ScanFirst(whole).c);
  }

  /** What shows that bytes are malformed. */
  function Offending(bs: seq<Byte>, n: nat): seq<Byte> {
    if n < |bs| then bs[..n + 1] else bs
  }

  lemma StaysMalformed(bs: seq<Byte>, n: nat, more: seq<Byte>)
    requires bs != [] && ScanFirst(bs) == Malformed(n)
    ensures ScanFirst(Offending(bs, n) + more) == Malformed(n)
  {
  }

  lemma OffendingStartsNone(bs: seq<Byte>, n: nat)
    requires bs != [] && ScanFirst(bs) == Malformed(n)
    ensures !StartsSome(Offending(bs, n))
  {
    var o := Offending(bs, n);
    forall c: char
      ensures !(o <= Encode(c))
    {
      if o <= Encode(c) {
        assert o + Encode(c)[|o|..] == Encode(c) && Encode(c) + [] == Encode(c);
        StaysMalformed(bs, n, Encode(c)[|o|..]);
        ScanOfEncoding(c, []);
      }
    }
  }

  lemma StretchStartsSome(bs: seq<Byte>, n: nat)
    requires bs != [] && ScanFirst(bs) == Malformed(n) && n > 1
    ensures StartsSome(bs[..n])
  {
    assert ScanFirst(bs[..n]).Incomplete?;
    IncompleteStartsSome(bs[..n]);
  }

  /**
   What stands at the beginning of any bytes: a whole character; or the beginning of one,
   cut off by the end; or a stretch that begins a character as far as it goes, and with
   one more byte begins none.
   */
  lemma ScanExact(bs: seq<Byte>)
    requires bs != []
    ensures match ScanFirst(bs)
            case Scalar(c, n) => n <= |bs| && Encode(c) == bs[..n]
            case Incomplete => StartsSome(bs) && forall c: char :: !(Encode(c) <= bs)
            case Malformed(n) =>
              0 < n <= |bs| && (n == 1 || StartsSome(bs[..n])) && !StartsSome(Offending(bs, n))
  {
    match ScanFirst(bs)
    case Scalar(c, n) =>
      EncodingOfScan(bs);
    case Malformed(n) =>
      OffendingStartsNone(bs, n);
      if n > 1 {
        StretchStartsSome(bs, n);
      }
    case Incomplete =>
      IncompleteStartsSome(bs);
      forall c: char
        ensures !(Encode(c) <= bs)
      {
        if Encode(c) <= bs {
          assert Encode(c) + bs[|Encode(c)|..] == bs;
          ScanOfEncoding(c, bs[|Encode(c)|..]);
        }
      }
  }
}
