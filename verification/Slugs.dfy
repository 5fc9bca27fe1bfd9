/** Names of phase runs, piece by piece: the words of a slug, and the digits of a run number. */
module Slugs {
  import opened Common
  import opened Text
  import opened Decimal
  import opened PhaseRuns

  // ---- dashes at the ends --------------------------------------------------------

  function DashIf(b: bool): string {
    if b then "-" else ""
  }

  predicate NoOuterDash(s: string) {
    s != "" && s[0] != '-' && s[|s| - 1] != '-'
  }

  lemma TrimNothing(s: string)
    requires NoOuterDash(s)
    ensures TrimDashes(s) == s
  {
  }

  lemma TrimBefore(s: string)
    ensures TrimDashes("-" + s) == TrimDashes(s)
  {
    assert ("-" + s)[1..] == s;
  }

  lemma {:induction false} TrimAfter(s: string)
    ensures TrimDashes(s + "-") == TrimDashes(s)
  {
    if s == "" {
      TrimBefore(s);
      assert s + "-" == "-" + s;
    } else if s[0] == '-' {
      assert (s + "-")[1..] == s[1..] + "-";
      TrimAfter(s[1..]);
    } else {
      assert (s + "-")[..|s|] == s;
    }
  }

  lemma TrimAround(l: bool, s: string, r: bool)
    ensures TrimDashes(DashIf(l) + s + DashIf(r)) == TrimDashes(s)
  {
    assert "" + s == s && s + "" == s && DashIf(l) + s + DashIf(r) == DashIf(l) + (s + DashIf(r));
    TrimBefore(s + DashIf(r));
    TrimAfter(s);
  }

  /** A string without two neighbouring dashes is its trimmed part with at most one dash at each end. */
  lemma TrimmedPart(s: string) returns (l: bool, r: bool)
    requires SingleDashes(s)
    ensures TrimDashes(s) != "" ==> NoOuterDash(TrimDashes(s)) && s == DashIf(l) + TrimDashes(s) + DashIf(r)
    ensures TrimDashes(s) == "" ==> s == "" || s == "-"
    ensures s != "" && s[0] != '-' ==> !l
    ensures s != "" && s[|s| - 1] != '-' ==> !r
  {
    l := s != "" && s[0] == '-';
    var t := if l then s[1..] else s;
    r := t != "" && t[|t| - 1] == '-';
    var u := if r then t[..|t| - 1] else t;
    assert s == DashIf(l) + u + DashIf(r);
    TrimAround(l, u, r);
    assert u != "" ==> NoOuterDash(u);
    if u != "" {
      TrimNothing(u);
    }
  }

  // ---- the words of a phase name -------------------------------------------------

  /** In lower case, a character that a slug may have, and no dash. */
  predicate IsKept(c: char) {
    IsSlugChar(ToAsciiLower(c)) && c != '-'
  }

  lemma KeptIffAlphanumeric(c: char)
    ensures IsKept(c) <==> IsAsciiAlphanumeric(c)
  {
  }

  predicate HasAlphanumeric(s: string) {
    exists i :: 0 <= i < |s| && IsKept(s[i])
  }

  predicate IsAlphanumeric(s: string) {
    forall i :: 0 <= i < |s| ==> IsKept(s[i])
  }

  lemma {:induction false} DashedOfWord(s: string, lastDash: bool)
    requires IsAlphanumeric(s)
    ensures Dashed(s, lastDash) == ToAsciiLowercase(s)
  {
    if s != "" {
      DashedOfWord(s[1..], false);
    }
  }

  /** Whether a dash would follow a dash, after `s`. */
  function DashAfter(s: string, lastDash: bool): bool {
    if s == "" then lastDash else !IsAsciiAlphanumeric(s[|s| - 1])
  }

  lemma {:induction false} DashedOfConcat(a: string, b: string, lastDash: bool)
    ensures Dashed(a + b, lastDash) == Dashed(a, lastDash) + Dashed(b, DashAfter(a, lastDash))
  {
    if a == "" {
      assert a + b == b;
    } else {
      assert (a + b)[1..] == a[1..] + b && (a + b)[0] == a[0];
      DashedOfConcat(a[1..], b, !IsAsciiAlphanumeric(a[0]));
    }
  }

  lemma {:induction false} DashedEnds(s: string, lastDash: bool)
    ensures Dashed(s, lastDash) == "" <==> s == "" || (lastDash && !HasAlphanumeric(s))
    ensures Dashed(s, lastDash) != "" && s != "" ==>
              (Dashed(s, lastDash)[|Dashed(s, lastDash)| - 1] == '-' <==> !IsAsciiAlphanumeric(s[|s| - 1]))
    ensures !HasAlphanumeric(s) ==> Dashed(s, lastDash) == DashIf(s != "" && !lastDash)
  {
    if s != "" {
      var rest := s[1..];
      assert forall i :: 0 < i < |s| ==> s[i] == rest[i - 1];
      DashedEnds(rest, !IsAsciiAlphanumeric(s[0]));
      assert HasAlphanumeric(s) <==> IsAsciiAlphanumeric(s[0]) || HasAlphanumeric(rest);
    }
  }

  /** The slug before an empty one is replaced. */
  function Core(s: string): string {
    TrimDashes(Dashed(s, false))
  }

  lemma CoreEmptyIff(s: string)
    ensures Core(s) == "" <==> !HasAlphanumeric(s)
    ensures Core(s) == TrimDashes(Dashed(s, true))
  {
    DashedHasSingleDashes(s, false);
    DashedEnds(s, false);
    DashedEnds(s, true);
    var l, r := TrimmedPart(Dashed(s, false));
    AfterADash(s);
    if HasAlphanumeric(s) && Core(s) == "" {
      AlphanumericRemains(s, false);
    }
  }

  lemma {:induction false} AlphanumericRemains(s: string, lastDash: bool)
    requires HasAlphanumeric(s)
    ensures exists i :: 0 <= i < |Dashed(s, lastDash)| && Dashed(s, lastDash)[i] != '-'
  {
    var rest := s[1..];
    assert forall i :: 0 < i < |s| ==> s[i] == rest[i - 1];
    if IsAsciiAlphanumeric(s[0]) {
      assert Dashed(s, lastDash)[0] != '-';
    } else {
      AlphanumericRemains(rest, true);
      var i :| 0 <= i < |Dashed(rest, true)| && Dashed(rest, true)[i] != '-';
      assert Dashed(s, lastDash)[if lastDash then i else i + 1] != '-';
    }
  }

  /** A dash before the string only matters for a dash at its beginning. */
  lemma AfterADash(s: string)
    ensures TrimDashes(Dashed(s, true)) == TrimDashes(Dashed(s, false))
  {
    if s != "" && !IsAsciiAlphanumeric(s[0]) {
      TrimBefore(Dashed(s[1..], true));
    }
  }

  /** A word becomes itself in lower case. */
  lemma SanitizedWord(s: string)
    requires s != "" && IsAlphanumeric(s)
    ensures Sanitized(s) == ToAsciiLowercase(s)
  {
    DashedOfWord(s, false);
    assert IsAsciiAlphanumeric(s[0]) && IsAsciiAlphanumeric(s[|s| - 1]);
    TrimNothing(ToAsciiLowercase(s));
  }

  lemma SanitizedNothing(s: string)
    requires !HasAlphanumeric(s)
    ensures Sanitized(s) == "phase"
  {
    CoreEmptyIff(s);
  }

  lemma DashedAtSeparator(a: string, c: char, b: string) returns (p: string)
    requires !IsAsciiAlphanumeric(c)
    ensures Dashed(a + [c] + b, false) == p + "-" + Dashed(b, true)
    ensures SingleDashes(p) && TrimDashes(p) == Core(a)
    ensures p != "" ==> p[|p| - 1] != '-'
  {
    var x := Dashed(a, false);
    DashedHasSingleDashes(a, false);
    DashedEnds(a, false);
    DashedOfConcat(a, [c] + b, false);
    assert a + [c] + b == a + ([c] + b) && ([c] + b)[1..] == b;
    if DashAfter(a, false) {
      p := x[..|x| - 1];
      assert x == p + "-";
      TrimAfter(p);
    } else {
      p := x;
      assert Dashed([c] + b, false) == "-" + Dashed(b, true);
      assert x + ("-" + Dashed(b, true)) == x + "-" + Dashed(b, true);
    }
  }

  lemma Regroup(a: string, u: string, d: string, v: string, b: string)
    ensures (a + u) + d + (v + b) == a + (u + d + v) + b
  {
  }

  lemma TrimJoined(p: string, q: string, l: bool, u: string, v: string, r: bool)
    requires NoOuterDash(u) && NoOuterDash(v)
    requires p == DashIf(l) + u && q == v + DashIf(r)
    ensures TrimDashes(p + "-" + q) == u + "-" + v
  {
    var m := u + "-" + v;
    Regroup(DashIf(l), u, "-", v, DashIf(r));
    assert NoOuterDash(m);
    TrimAround(l, m, r);
    TrimNothing(m);
  }

  /** The part before the dash ends without one, the part behind it starts without one. */
  predicate Meets(p: string, q: string) {
    && SingleDashes(p) && SingleDashes(q)
    && (p != "" ==> p[|p| - 1] != '-') && (q != "" ==> q[0] != '-')
  }

  lemma PartsOf(p: string, q: string) returns (l: bool, r: bool)
    requires Meets(p, q)
    ensures TrimDashes(p) != "" ==> NoOuterDash(TrimDashes(p)) && p == DashIf(l) + TrimDashes(p)
    ensures TrimDashes(q) != "" ==> NoOuterDash(TrimDashes(q)) && q == TrimDashes(q) + DashIf(r)
    ensures TrimDashes(p) == "" ==> p == ""
    ensures TrimDashes(q) == "" ==> q == ""
  {
    var none;
    l, none := TrimmedPart(p);
    none, r := TrimmedPart(q);
  }

  lemma TrimTwoParts(p: string, q: string)
    requires Meets(p, q)
    ensures TrimDashes(p + "-" + q) == if TrimDashes(p) == "" then TrimDashes(q)
                                       else if TrimDashes(q) == "" then TrimDashes(p)
                                       else TrimDashes(p) + "-" + TrimDashes(q)
  {
    var l, r := PartsOf(p, q);
    if TrimDashes(p) == "" {
      TrimBefore(q);
      assert p + "-" + q == "-" + q;
    } else if TrimDashes(q) == "" {
      TrimAfter(p);
      assert p + "-" + q == p + "-";
    } else {
      TrimJoined(p, q, l, TrimDashes(p), TrimDashes(q), r);
    }
  }

  /**
   What stands on the two sides of any other character becomes a slug on its own, with one
   dash between them when both sides have something to keep.  With the slugs of words and
   of nothing, this determines every slug.
   */
  lemma SanitizedAtSeparator(a: string, c: char, b: string)
    requires !IsKept(c)
    ensures Sanitized(a + [c] + b) ==
              if HasAlphanumeric(a) && HasAlphanumeric(b) then Sanitized(a) + "-" + Sanitized(b)
              else if HasAlphanumeric(a) then Sanitized(a)
              else if HasAlphanumeric(b) then Sanitized(b)
              else "phase"
  {
    var p := DashedAtSeparator(a, c, b);
    CoreEmptyIff(a);
    CoreEmptyIff(b);
    DashedHasSingleDashes(b, true);
    TrimTwoParts(p, Dashed(b, true));
  }

  // ---- run numbers -----------------------------------------------------------------

  function Zeros(k: nat): string {
    if k == 0 then "" else "0" + Zeros(k - 1)
  }

  lemma {:induction false} OneMoreZero(k: nat)
    ensures Zeros(k) + "0" == Zeros(k + 1)
  {
    if k > 0 {
      OneMoreZero(k - 1);
      assert Zeros(k) + "0" == "0" + (Zeros(k - 1) + "0");
    }
  }

  function Padded(k: nat, n: nat): string {
    Zeros(k) + Print(n)
  }

  lemma {:induction false} ZerosDoNotCount(k: nat, s: string)
    requires AllDigits(s)
    ensures AllDigits(Zeros(k) + s) && Value(Zeros(k) + s) == Value(s)
  {
    if k == 0 {
      assert Zeros(k) + s == s;
    } else {
      ZerosDoNotCount(k - 1, s);
      var rest := Zeros(k - 1) + s;
      LeadingZero(rest);
      ConcatAssociative("0", Zeros(k - 1), s);
      assert Zeros(k) + s == "0" + rest;
    }
  }

  lemma PrintOfDigit(d: nat)
    requires d < 10
    ensures Print(d) == [Digit(d)]
  {
  }

  lemma PrintOfMore(v: nat, d: nat)
    requires v > 0 && d < 10
    ensures Print(10 * v + d) == Print(v) + [Digit(d)]
  {
  }

  /** One more digit behind a padded number. */
  lemma OneMoreDigit(k: nat, v: nat, d: nat) returns (k': nat)
    requires d < 10
    ensures Padded(k, v) + [Digit(d)] == Padded(k', 10 * v + d)
  {
    if v == 0 {
      k' := k + 1;
      OneMoreZero(k);
      PrintOfDigit(0);
      PrintOfDigit(d);
    } else {
      k' := k;
      PrintOfMore(v, d);
      ConcatAssociative(Zeros(k), Print(v), [Digit(d)]);
    }
  }

  lemma ValueOfSnoc(t: string, d: nat)
    requires AllDigits(t) && d < 10
    ensures AllDigits(t + [Digit(d)]) && Value(t + [Digit(d)]) == 10 * Value(t) + d
  {
    assert (t + [Digit(d)])[..|t|] == t;
  }

  /** Digits are the printed number behind zeros. */
  lemma {:induction false} DigitsArePadded(s: string) returns (k: nat)
    requires s != "" && AllDigits(s)
    ensures s == Padded(k, Value(s))
  {
    var t, d := s[..|s| - 1], DigitValue(s[|s| - 1]);
    assert s == t + [Digit(d)];
    ValueOfSnoc(t, d);
    if t == "" {
      k := 0;
      PrintOfDigit(d);
    } else {
      k := DigitsArePadded(t);
      k := OneMoreDigit(k, Value(t), d);
    }
  }

  /** A run number is read exactly where a number is printed behind the prefix, filled up to three digits or more. */
  lemma ParsedRunIff(name: string, prefix: string, n: nat)
    ensures ParseRunNumber(name, prefix) == Some(n)
            <==> n < U32_LIMIT && exists k: nat :: |Padded(k, n)| >= 3 && name == prefix + Padded(k, n)
  {
    if ParseRunNumber(name, prefix) == Some(n) {
      var suffix := name[|prefix|..];
      var k := DigitsArePadded(suffix);
      assert name == prefix + suffix;
    }
    forall k: nat | |Padded(k, n)| >= 3 && name == prefix + Padded(k, n)
      ensures n < U32_LIMIT ==> ParseRunNumber(name, prefix) == Some(n)
    {
      assert name[|prefix|..] == Padded(k, n);
      ZerosDoNotCount(k, Print(n));
      ValueOfPrint(n);
    }
  }
}
