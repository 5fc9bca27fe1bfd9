/**
 `String::from_utf8_lossy`: UTF-8 decoding in which every malformed stretch of
 bytes becomes one replacement character.
 */
module Utf8 {

  type Byte = x: int | 0 <= x < 256

  const REPLACEMENT: char := '\U{FFFD}'
  const LINE_FEED: Byte := 0x0A

  predicate IsContinuation(b: Byte) {
    0x80 <= b <= 0xBF
  }

  /** Bytes that an encoding starting with `b` has; 0 when none starts with it. */
  function SequenceLength(b: Byte): nat {
    if b < 0x80 then 1
    else if 0xC2 <= b <= 0xDF then 2
    else if 0xE0 <= b <= 0xEF then 3
    else if 0xF0 <= b <= 0xF4 then 4
    else 0
  }

  /** Which second bytes are allowed: no overlong forms, no surrogates, nothing above U+10FFFF. */
  predicate IsSecond(first: Byte, b: Byte) {
    IsContinuation(b)
    && (first == 0xE0 ==> b >= 0xA0) && (first == 0xED ==> b <= 0x9F)
    && (first == 0xF0 ==> b >= 0x90) && (first == 0xF4 ==> b <= 0x8F)
  }

  /** The bits that a byte adds to a code point, given its marker bits. */
  function Payload(b: Byte, marker: int): int {
    b - marker
  }

  datatype Scan =
    | Scalar(c: char, length: nat)
    | Malformed(length: nat)
    | Incomplete

  /** The first character of the bytes, a malformed stretch, or an encoding that the input cuts off. */
  function ScanFirst(bs: seq<Byte>): (s: Scan)
    requires bs != []
    ensures !s.Incomplete? ==> 0 < s.length <= |bs|
  {
    var n := SequenceLength(bs[0]);
    if n == 0 then Malformed(1)
    else if n == 1 then Scalar(bs[0] as char, 1)
    else if |bs| < 2 then Incomplete
    else if !IsSecond(bs[0], bs[1]) then Malformed(1)
    else if n == 2 then Scalar((Payload(bs[0], 0xC0) * 0x40 + Payload(bs[1], 0x80)) as char, 2)
    else if |bs| < 3 then Incomplete
    else if !IsContinuation(bs[2]) then Malformed(2)
    else if n == 3 then
      Scalar((Payload(bs[0], 0xE0) * 0x1000 + Payload(bs[1], 0x80) * 0x40 + Payload(bs[2], 0x80)) as char, 3)
    else if |bs| < 4 then Incomplete
    else if !IsContinuation(bs[3]) then Malformed(3)
    else
      Scalar((Payload(bs[0], 0xF0) * 0x4_0000 + Payload(bs[1], 0x80) * 0x1000
              + Payload(bs[2], 0x80) * 0x40 + Payload(bs[3], 0x80)) as char, 4)
  }

  function Decode(bs: seq<Byte>): string
    decreases |bs|
  {
    if bs == [] then ""
    else match ScanFirst(bs)
      case Scalar(c, n) => [c] + Decode(bs[n..])
      case Malformed(n) => [REPLACEMENT] + Decode(bs[n..])
      case Incomplete => [REPLACEMENT]
  }

  /** The bytes do not end inside an encoding. */
  predicate Complete(bs: seq<Byte>)
    decreases |bs|
  {
    bs == [] || (!ScanFirst(bs).Incomplete? && Complete(bs[ScanFirst(bs).length..]))
  }

  /** `char::len_utf8`. */
  function EncodedLength(c: char): nat {
    if c as int < 0x80 then 1 else if c as int < 0x800 then 2 else if c as int < 0x1_0000 then 3 else 4
  }

  /** `str::len`. */
  function ByteLength(s: string): nat {
    if s == "" then 0 else EncodedLength(s[0]) + ByteLength(s[1..])
  }

  // ---- splitting the input -----------------------------------------------------

  lemma ScanOfPrefix(bs: seq<Byte>, more: seq<Byte>)
    requires bs != [] && !ScanFirst(bs).Incomplete?
    ensures ScanFirst(bs + more) == ScanFirst(bs)
  {
  }

  /** Decoding piece by piece agrees with decoding the whole when the cut is not inside an encoding. */
  lemma {:induction false} DecodeOfConcat(a: seq<Byte>, b: seq<Byte>)
    requires Complete(a)
    ensures Decode(a + b) == Decode(a) + Decode(b)
    ensures Complete(a + b) <==> Complete(b)
    decreases |a|
  {
    if a == [] {
      assert a + b == b;
    } else {
      ScanOfPrefix(a, b);
      var n := ScanFirst(a).length;
      assert (a + b)[n..] == a[n..] + b;
      DecodeOfConcat(a[n..], b);
    }
  }

  /** Bytes that complete a cut-off encoding. */
  function Completion(bs: seq<Byte>): (more: seq<Byte>)
    requires bs != [] && ScanFirst(bs).Incomplete?
    ensures more != []
  {
    var second := if bs[0] == 0xE0 then 0xA0 else if bs[0] == 0xF0 then 0x90 else 0x80;
    var n := SequenceLength(bs[0]);
    if |bs| == 1 then
      if n == 2 then [second] else if n == 3 then [second, 0x80] else [second, 0x80, 0x80]
    else if |bs| == 2 then
      if n == 3 then [0x80] else [0x80, 0x80]
    else [0x80]
  }

  lemma CompletionCompletes(bs: seq<Byte>)
    requires bs != [] && ScanFirst(bs).Incomplete?
    ensures |Decode(bs + Completion(bs))| == 1
    ensures |Decode(bs) + Decode(Completion(bs))| >= 2
  {
    var whole := bs + Completion(bs);
    assert forall i :: 0 <= i < |bs| ==> whole[i] == bs[i];
    assert ScanFirst(whole).Scalar? && ScanFirst(whole).length == |whole|;
    assert whole[|whole|..] == [];
  }

  /** Bytes after which decoding goes wrong. */
  function BadContinuation(a: seq<Byte>): seq<Byte>
    requires !Complete(a)
    decreases |a|
  {
    if ScanFirst(a).Incomplete? then Completion(a) else BadContinuation(a[ScanFirst(a).length..])
  }

  lemma {:induction false} BadContinuationIsBad(a: seq<Byte>)
    requires !Complete(a)
    ensures |Decode(a + BadContinuation(a))| < |Decode(a) + Decode(BadContinuation(a))|
    decreases |a|
  {
    if ScanFirst(a).Incomplete? {
      CompletionCompletes(a);
    } else {
      BadContinuationIsBad(a[ScanFirst(a).length..]);
      DecodeLengthOfConcat(a, BadContinuation(a));
    }
  }

  lemma DecodeLengthOfConcat(a: seq<Byte>, b: seq<Byte>)
    requires a != [] && !ScanFirst(a).Incomplete?
    ensures |Decode(a + b)| == 1 + |Decode(a[ScanFirst(a).length..] + b)|
    ensures |Decode(a)| == 1 + |Decode(a[ScanFirst(a).length..])|
  {
    ScanOfPrefix(a, b);
    assert (a + b)[ScanFirst(a).length..] == a[ScanFirst(a).length..] + b;
  }

  /** The cuts at which decoding piece by piece is right for every continuation are exactly the complete ones. */
  lemma SplitIffComplete(a: seq<Byte>)
    ensures Complete(a) <==> forall b: seq<Byte> :: Decode(a + b) == Decode(a) + Decode(b)
  {
    if Complete(a) {
      forall b: seq<Byte>
        ensures Decode(a + b) == Decode(a) + Decode(b)
      {
        DecodeOfConcat(a, b);
      }
    } else {
      BadContinuationIsBad(a);
      assert Decode(a + BadContinuation(a)) != Decode(a) + Decode(BadContinuation(a));
    }
  }

  // ---- line feeds --------------------------------------------------------------

  lemma ScanOfLineFeed(bs: seq<Byte>)
    requires bs != []
    ensures bs[0] == LINE_FEED ==> ScanFirst(bs) == Scalar('\n', 1)
    ensures bs[0] != LINE_FEED ==>
              match ScanFirst(bs)
              case Scalar(c, n) => c != '\n' && LINE_FEED !in bs[..n]
              case Malformed(n) => LINE_FEED !in bs[..n]
              case Incomplete => LINE_FEED !in bs
  {
  }

  /** A line feed byte is always decoded on its own. */
  lemma {:induction false} CompleteAfterLineFeed(bs: seq<Byte>)
    requires bs != [] && bs[|bs| - 1] == LINE_FEED
    ensures Complete(bs)
    ensures Decode(bs) != "" && Decode(bs)[|Decode(bs)| - 1] == '\n'
    decreases |bs|
  {
    ScanOfLineFeed(bs);
    var s := ScanFirst(bs);
    assert !s.Incomplete?;
    if s.length < |bs| {
      CompleteAfterLineFeed(bs[s.length..]);
    } else {
      assert bs[..s.length] == bs && bs[s.length..] == [];
    }
  }

  lemma {:induction false} DecodeWithoutLineFeed(bs: seq<Byte>)
    requires LINE_FEED !in bs
    ensures '\n' !in Decode(bs)
    decreases |bs|
  {
    if bs != [] {
      ScanOfLineFeed(bs);
      if !ScanFirst(bs).Incomplete? {
        DecodeWithoutLineFeed(bs[ScanFirst(bs).length..]);
      }
    }
  }

  function LineFeeds(bs: seq<Byte>): nat {
    multiset(bs)[LINE_FEED]
  }

  lemma LineFeedsSplit(bs: seq<Byte>, n: nat)
    requires n <= |bs|
    ensures LineFeeds(bs) == LineFeeds(bs[..n]) + LineFeeds(bs[n..])
  {
    assert bs == bs[..n] + bs[n..];
  }

  /** Decoding neither makes nor swallows a line feed, however malformed or cut off the bytes are. */
  lemma {:induction false} DecodeKeepsLineFeeds(bs: seq<Byte>)
    ensures multiset(Decode(bs))['\n'] == LineFeeds(bs)
    decreases |bs|
  {
    if bs != [] {
      ScanOfLineFeed(bs);
      if !ScanFirst(bs).Incomplete? {
        var n := ScanFirst(bs).length;
        DecodeKeepsLineFeeds(bs[n..]);
        LineFeedsSplit(bs, n);
        if bs[0] == LINE_FEED {
          assert bs[..n] == [LINE_FEED];
        }
      }
    }
  }

  // ---- lengths -----------------------------------------------------------------

  /** Well-formed UTF-8. */
  predicate WellFormed(bs: seq<Byte>)
    decreases |bs|
  {
    bs == [] || (ScanFirst(bs).Scalar? && WellFormed(bs[ScanFirst(bs).length..]))
  }

  lemma ScalarLength(bs: seq<Byte>)
    requires bs != [] && ScanFirst(bs).Scalar?
    ensures EncodedLength(ScanFirst(bs).c) == ScanFirst(bs).length
  {
  }

  /** A decoded string is as long as its bytes when these are well formed, and never shorter. */
  lemma {:induction false} DecodedLength(bs: seq<Byte>)
    ensures ByteLength(Decode(bs)) >= |bs|
    ensures WellFormed(bs) ==> ByteLength(Decode(bs)) == |bs|
    decreases |bs|
  {
    if bs != [] {
      var s := ScanFirst(bs);
      if s.Scalar? {
        ScalarLength(bs);
      }
      if !s.Incomplete? {
        DecodedLength(bs[s.length..]);
      } else {
        assert ByteLength([REPLACEMENT]) == 3;
      }
    }
  }
}
