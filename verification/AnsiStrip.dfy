/** Removal of ANSI escape sequences from terminal output. */
module AnsiStrip {

  const ESC: char := '\U{1B}'
  const BEL: char := '\U{7}'

  predicate IsCsiParameter(c: char) {
    '0' <= c <= '9' || c == ';' || c == '?'
  }

  predicate IsCsiFinal(c: char) {
    'A' <= c <= 'Z' || 'a' <= c <= 'z'
  }

  /** A character of the title of an OSC sequence. */
  predicate IsOscBody(c: char) {
    c != BEL && c != ESC
  }

  // ---- the language of the regular expression ------------------------------------

  /** ESC [ parameters final. */
  predicate IsCsi(s: string) {
    |s| >= 3 && s[0] == ESC && s[1] == '[' && IsCsiFinal(s[|s| - 1])
    && forall i :: 2 <= i < |s| - 1 ==> IsCsiParameter(s[i])
  }

  predicate EndsWithBell(s: string)
    requires |s| >= 3
  {
    s[|s| - 1] == BEL && forall i :: 2 <= i < |s| - 1 ==> IsOscBody(s[i])
  }

  predicate EndsWithTerminator(s: string) {
    |s| >= 4 && s[|s| - 2] == ESC && s[|s| - 1] == '\\' && forall i :: 2 <= i < |s| - 2 ==> IsOscBody(s[i])
  }

  /** ESC ] title, ended by BEL or by ESC backslash. */
  predicate IsOsc(s: string) {
    |s| >= 3 && s[0] == ESC && s[1] == ']' && (EndsWithBell(s) || EndsWithTerminator(s))
  }

  predicate IsTwoByte(s: string) {
    |s| == 2 && s[0] == ESC && s[1] != '[' && s[1] != ']'
  }

  predicate IsEscape(s: string) {
    IsCsi(s) || IsOsc(s) || IsTwoByte(s)
  }

  // ---- the scanner ---------------------------------------------------------------

  /** Length of the run of parameters at the start. */
  function ParameterRun(s: string): (n: nat)
    ensures n <= |s| && (n < |s| ==> !IsCsiParameter(s[n]))
    ensures forall i :: 0 <= i < n ==> IsCsiParameter(s[i])
  {
    if s == "" || !IsCsiParameter(s[0]) then 0 else 1 + ParameterRun(s[1..])
  }

  function TitleRun(s: string): (n: nat)
    ensures n <= |s| && (n < |s| ==> !IsOscBody(s[n]))
    ensures forall i :: 0 <= i < n ==> IsOscBody(s[i])
  {
    if s == "" || !IsOscBody(s[0]) then 0 else 1 + TitleRun(s[1..])
  }

  /** Length of the escape sequence at the start, 0 when there is none. */
  function MatchLength(s: string): (n: nat)
    ensures n <= |s|
  {
    if |s| < 2 || s[0] != ESC then 0
    else if s[1] == '[' then
      var n := 2 + ParameterRun(s[2..]);
      if n < |s| && IsCsiFinal(s[n]) then n + 1 else 0
    else if s[1] == ']' then
      var n := 2 + TitleRun(s[2..]);
      if n < |s| && s[n] == BEL then n + 1
      else if n + 1 < |s| && s[n] == ESC && s[n + 1] == '\\' then n + 2
      else 0
    else 2
  }

  /** `replace_all(input, "")`: leftmost matches, from left to right. */
  function StripAnsi(s: string): string
    decreases |s|
  {
    if s == "" then ""
    else
      var n := MatchLength(s);
      if n > 0 then StripAnsi(s[n..]) else [s[0]] + StripAnsi(s[1..])
  }

  /** The scanner finds exactly the prefix that the expression matches; there is never a choice between two. */
  lemma MatchLengthExact(s: string, n: nat)
    requires 0 < n <= |s|
    ensures MatchLength(s) == n <==> IsEscape(s[..n])
  {
    if MatchLength(s) == n {
      MatchIsEscape(s);
    }
    if IsEscape(s[..n]) {
      EscapeIsMatched(s[..n], s[n..]);
      assert s == s[..n] + s[n..];
    }
  }

  lemma MatchIsEscape(s: string)
    requires MatchLength(s) > 0
    ensures IsEscape(s[..MatchLength(s)])
  {
  }

  lemma ParameterRunIs(s: string, n: nat)
    requires n < |s| && !IsCsiParameter(s[n]) && forall i :: 0 <= i < n ==> IsCsiParameter(s[i])
    ensures ParameterRun(s) == n
  {
  }

  lemma TitleRunIs(s: string, n: nat)
    requires n < |s| && !IsOscBody(s[n]) && forall i :: 0 <= i < n ==> IsOscBody(s[i])
    ensures TitleRun(s) == n
  {
  }

  lemma EscapeIsMatched(escape: string, rest: string)
    requires IsEscape(escape)
    ensures MatchLength(escape + rest) == |escape|
  {
    var s := escape + rest;
    if IsCsi(escape) {
      ParameterRunIs(s[2..], |escape| - 3);
    } else if IsOsc(escape) {
      TitleRunIs(s[2..], if escape[|escape| - 1] == BEL then |escape| - 3 else |escape| - 4);
    }
  }

  // ---- well-formed output ----------------------------------------------------------

  datatype Segment =
    | Plain(text: string)
    | Csi(parameters: string, final: char)
    | Osc(title: string, bell: bool)
    | TwoByte(c: char)

  predicate ValidSegment(g: Segment) {
    match g
    case Plain(text) => ESC !in text
    case Csi(parameters, final) =>
      IsCsiFinal(final) && forall i :: 0 <= i < |parameters| ==> IsCsiParameter(parameters[i])
    case Osc(title, _) => forall i :: 0 <= i < |title| ==> IsOscBody(title[i])
    case TwoByte(c) => c != '[' && c != ']'
  }

  function Render(g: Segment): string {
    match g
    case Plain(text) => text
    case Csi(parameters, final) => [ESC, '['] + parameters + [final]
    case Osc(title, bell) => [ESC, ']'] + title + if bell then [BEL] else [ESC, '\\']
    case TwoByte(c) => [ESC, c]
  }

  function RenderAll(gs: seq<Segment>): string {
    if gs == [] then "" else Render(gs[0]) + RenderAll(gs[1..])
  }

  function PlainText(gs: seq<Segment>): string {
    if gs == [] then "" else (if gs[0].Plain? then gs[0].text else "") + PlainText(gs[1..])
  }

  lemma RenderedEscape(g: Segment)
    requires ValidSegment(g) && !g.Plain?
    ensures IsEscape(Render(g))
  {
  }

  lemma {:induction false} StripKeepsPlainPrefix(text: string, rest: string)
    requires ESC !in text
    ensures StripAnsi(text + rest) == text + StripAnsi(rest)
  {
    if text == "" {
      assert text + rest == rest;
    } else {
      assert (text + rest)[1..] == text[1..] + rest;
      StripKeepsPlainPrefix(text[1..], rest);
    }
  }

  /** Stripping a sequence of text and escape sequences leaves exactly the text. */
  lemma {:induction false} StripRecoversText(gs: seq<Segment>)
    requires forall g :: g in gs ==> ValidSegment(g)
    ensures StripAnsi(RenderAll(gs)) == PlainText(gs)
  {
    if gs != [] {
      StripRecoversText(gs[1..]);
      StripFirstSegment(gs[0], RenderAll(gs[1..]));
    }
  }

  lemma StripFirstSegment(g: Segment, rest: string)
    requires ValidSegment(g)
    ensures StripAnsi(Render(g) + rest) == (if g.Plain? then g.text else "") + StripAnsi(rest)
  {
    var first := Render(g);
    if g.Plain? {
      StripKeepsPlainPrefix(first, rest);
    } else {
      RenderedEscape(g);
      EscapeIsMatched(first, rest);
      assert (first + rest)[|first|..] == rest;
      assert "" + StripAnsi(rest) == StripAnsi(rest);
    }
  }

  /** Stripping can put a new escape sequence together, so doing it twice may remove more. */
  lemma StripIsNotIdempotent()
    ensures var s := [ESC, '[', ESC, '7', 'm'];
            StripAnsi(s) == [ESC, '[', 'm'] && StripAnsi(StripAnsi(s)) == ""
  {
    var s := [ESC, '[', ESC, '7', 'm'];
    assert s[2..] == [ESC, '7', 'm'] && s[1..] == ['[', ESC, '7', 'm'];
    assert s[1..][1..] == [ESC, '7', 'm'] && [ESC, '7', 'm'][2..] == ['m'] && ['m'][1..] == "";
    assert StripAnsi(['m']) == ['m'];
    assert StripAnsi(s[1..]) == ['[', 'm'];
    var t := [ESC, '[', 'm'];
    assert t[2..] == ['m'] && t[3..] == "";
  }
}
