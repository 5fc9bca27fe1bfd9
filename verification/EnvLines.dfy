/** What an update leaves of the lines of a `.env` file, and what a rendered value looks like. */
module EnvLines {
  import opened Common
  import opened Text
  import opened EnvFile

  // ---- the other lines -------------------------------------------------------------

  lemma {:induction false} UnlinesOfConcat(a: seq<string>, b: seq<string>)
    ensures Unlines(a + b) == Unlines(a) + Unlines(b)
  {
    if a == [] {
      assert a + b == b;
    } else {
      assert (a + b)[1..] == a[1..] + b;
      UnlinesOfConcat(a[1..], b);
      ConcatAssociative(a[0] + "\n", Unlines(a[1..]), Unlines(b));
    }
  }

  lemma UnlinesOfOne(line: string)
    ensures Unlines([line]) == line + "\n"
  {
    assert [line][1..] == [];
  }

  /** Everything before and behind the first assignment of the key stays as it is. */
  lemma UpsertInPlace(file: Option<string>, key: string, value: string, n: nat)
    requires n < |FileLines(file)| && AssignsAt(FileLines(file), n, key)
    requires forall i :: 0 <= i < n ==> !AssignsAt(FileLines(file), i, key)
    ensures var lines := FileLines(file);
            Upserted(file, key, value)
            == Unlines(lines[..n]) + (RenderedLine(key, value) + "\n") + Unlines(lines[n + 1..])
  {
    var lines := FileLines(file);
    KeyIndexUnique(lines, key, n);
    var rendered := RenderedLine(key, value);
    assert lines[n := rendered] == lines[..n] + [rendered] + lines[n + 1..];
    UnlinesOfConcat(lines[..n] + [rendered], lines[n + 1..]);
    UnlinesOfConcat(lines[..n], [rendered]);
    UnlinesOfOne(rendered);
  }

  /** Without assignment of the key the whole file stays, and the new line follows, set off from a line of text. */
  lemma UpsertAppends(file: Option<string>, key: string, value: string)
    requires forall i :: 0 <= i < |FileLines(file)| ==> !AssignsAt(FileLines(file), i, key)
    ensures var lines := FileLines(file);
            var gap := if lines == [] || lines[|lines| - 1] == "" then "" else "\n";
            Upserted(file, key, value) == Unlines(lines) + (gap + (RenderedLine(key, value) + "\n"))
  {
    var lines := FileLines(file);
    KeyIndexUnique(lines, key, |lines|);
    var rendered := RenderedLine(key, value);
    UnlinesOfOne(rendered);
    UnlinesOfConcat(lines, [rendered]);
    if lines != [] && lines[|lines| - 1] != "" {
      UnlinesOfConcat(lines, ["", rendered]);
      UnlinesOfGap(rendered);
    } else {
      assert "" + (rendered + "\n") == rendered + "\n";
    }
  }

  lemma UnlinesOfGap(line: string)
    ensures Unlines(["", line]) == "\n" + (line + "\n")
  {
    assert ["", line][1..] == [line];
    UnlinesOfOne(line);
    assert "" + "\n" + Unlines([line]) == "\n" + Unlines([line]);
  }

  // ---- rendered values ----------------------------------------------------------------

  /** What a reader that undoes the escapes would make of the text between the quotes. */
  function Unescape(s: string): string
    decreases |s|
  {
    if |s| >= 2 && s[0] == '\\' then [s[1]] + Unescape(s[2..])
    else if s == "" then ""
    else [s[0]] + Unescape(s[1..])
  }

  lemma UnescapeEscaped(c: char, rest: string)
    ensures Unescape("\\" + [c] + rest) == [c] + Unescape(rest)
  {
    var s := "\\" + [c] + rest;
    assert s[1] == c && s[2..] == rest;
  }

  lemma UnescapePlain(c: char, rest: string)
    requires c != '\\'
    ensures Unescape([c] + rest) == [c] + Unescape(rest)
  {
    assert ([c] + rest)[1..] == rest;
  }

  /** Nothing is lost by escaping. */
  lemma {:induction false} UnescapeOfEscape(value: string)
    ensures Unescape(Escape(value)) == value
  {
    if value != "" {
      var c, rest := value[0], Escape(value[1..]);
      UnescapeOfEscape(value[1..]);
      if c == '\\' || c == '"' {
        UnescapeEscaped(c, rest);
        assert Escape(value) == "\\" + [c] + rest;
      } else {
        UnescapePlain(c, rest);
        assert Escape(value) == [c] + rest;
      }
    }
  }

  /** Every quote and every backslash costs one more character, and nothing else does. */
  lemma {:induction false} EscapedLength(value: string)
    ensures |Escape(value)| == |value| + multiset(value)['\\'] + multiset(value)['"']
  {
    if value != "" {
      EscapedLength(value[1..]);
      assert value == [value[0]] + value[1..];
    }
  }

  /** The value stands as it is, or escaped between double quotes exactly when it has whitespace or a `#`. */
  lemma RenderedValueIff(value: string)
    ensures RenderValue(value) == value <==> forall i :: 0 <= i < |value| ==> !IsWhitespace(value[i]) && value[i] != '#'
    ensures RenderValue(value) != value ==>
              exists inner :: RenderValue(value) == "\"" + inner + "\"" && Unescape(inner) == value
                              && |inner| == |value| + multiset(value)['\\'] + multiset(value)['"']
  {
    UnescapeOfEscape(value);
    EscapedLength(value);
    if NeedsQuotes(value) {
      assert RenderValue(value) == "\"" + Escape(value) + "\"";
      assert |RenderValue(value)| > |value|;
    }
  }

  // ---- what a line assigns --------------------------------------------------------------

  /** A comment or a blank line assigns nothing. */
  lemma CommentAssignsNothing(before: string, text: string)
    requires forall i :: 0 <= i < |before| ==> IsWhitespace(before[i])
    ensures ParseAssignment(before) == None && EnvKey(before) == None
    ensures ParseAssignment(before + "#" + text) == None && EnvKey(before + "#" + text) == None
  {
    TrimStartOfBlank(before, "");
    assert before + "" == before;
    TrimStartOfBlank(before, "#" + text);
    assert before + ("#" + text) == before + "#" + text;
    TrimEndFacts("#" + text);
    assert !IsWhitespace('#');
  }

  lemma {:induction false} TrimStartOfBlank(before: string, rest: string)
    requires forall i :: 0 <= i < |before| ==> IsWhitespace(before[i])
    requires rest == "" || !IsWhitespace(rest[0])
    ensures TrimStart(before + rest) == rest
  {
    if before == "" {
      assert before + rest == rest;
    } else {
      assert (before + rest)[1..] == before[1..] + rest;
      TrimStartOfBlank(before[1..], rest);
    }
  }

  lemma AssignmentOfBody(line: string, key: string, text: string)
    requires SafeKey(key) && Trimmed(text)
    requires line != "" && Trimmed(line) && line[0] != '#' && StripExport(line) == key + "=" + text
    ensures ParseAssignment(line) == Some((key, Unquote(text)))
  {
    var body := key + "=" + text;
    TrimFacts(line);
    TrimFacts(text);
    TrimFacts(key);
    FindInConcat(key, '=', text);
    assert body == key + ['='] + text;
    assert body[..|key|] == key && body[|key| + 1..] == text;
  }

  /** The text after the key is its value, without one pair of quotes around it; `export` in front does not matter. */
  lemma PlainAssignment(key: string, text: string)
    requires SafeKey(key) && Trimmed(text)
    ensures ParseAssignment(key + "=" + text) == Some((key, Unquote(text)))
    ensures ParseAssignment("export " + (key + "=" + text)) == Some((key, Unquote(text)))
  {
    var body := key + "=" + text;
    var line := "export " + body;
    assert body[|body| - 1] == if text == "" then '=' else text[|text| - 1];
    assert line[|line| - 1] == body[|body| - 1];
    ExportPrefix(key, text);
    AssignmentOfBody(body, key, text);
    assert "export " <= line && line[7..] == body;
    AssignmentOfBody(line, key, text);
  }

  lemma QuotesAreDropped(quote: char, text: string)
    requires quote in {'"', '\''}
    ensures Unquote([quote] + text + [quote]) == text
  {
  }
}
