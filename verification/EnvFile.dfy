/** Reading and updating `.env` files. */
module EnvFile {
  import opened Common
  import opened Text

  // ---- one line ----------------------------------------------------------------

  function StripExport(s: string): string {
    if "export " <= s then s[7..] else s
  }

  /** The key that a line assigns, if it is an assignment. */
  function EnvKey(line: string): Option<string> {
    var trimmed := Trim(line);
    if trimmed == "" || trimmed[0] == '#' then None
    else
      var body := StripExport(trimmed);
      var eq := Find(body, '=');
      if eq == |body| then None
      else
        var key := Trim(body[..eq]);
        if key == "" then None else Some(key)
  }

  /** Inside a pair of quotes of the same kind. */
  predicate Quoted(value: string) {
    |value| >= 2 && (value[0] == value[|value| - 1] == '"' || value[0] == value[|value| - 1] == '\'')
  }

  function Unquote(value: string): string {
    if Quoted(value) then value[1..|value| - 1] else value
  }

  function ParseAssignment(line: string): Option<(string, string)> {
    var trimmed := Trim(line);
    if trimmed == "" || trimmed[0] == '#' then None
    else
      var body := StripExport(trimmed);
      var eq := Find(body, '=');
      if eq == |body| then None
      else
        var key := Trim(body[..eq]);
        if key == "" then None else Some((key, Unquote(Trim(body[eq + 1..]))))
  }

  predicate NeedsQuotes(value: string) {
    HasWhitespace(value) || '#' in value
  }

  function Escape(value: string): string {
    if value == "" then ""
    else (if value[0] == '\\' then "\\\\" else if value[0] == '"' then "\\\"" else [value[0]]) + Escape(value[1..])
  }

  function RenderValue(value: string): string {
    if NeedsQuotes(value) then "\"" + Escape(value) + "\"" else value
  }

  function RenderedLine(key: string, value: string): string {
    key + "=" + RenderValue(value)
  }

  // ---- the file ----------------------------------------------------------------

  function FileLines(file: Option<string>): seq<string> {
    match file
    case None => []
    case Some(content) => Lines(content)
  }

  /** Index of the first line that assigns the key, or the number of lines. */
  function KeyIndex(lines: seq<string>, key: string): (n: nat)
    ensures n <= |lines|
  {
    if lines == [] || EnvKey(lines[0]) == Some(key) then 0 else 1 + KeyIndex(lines[1..], key)
  }

  predicate AssignsAt(lines: seq<string>, i: nat, key: string)
    requires i < |lines|
  {
    EnvKey(lines[i]) == Some(key)
  }

  lemma AssignsInTail(lines: seq<string>, i: nat, key: string)
    requires 0 < i < |lines|
    ensures AssignsAt(lines, i, key) == AssignsAt(lines[1..], i - 1, key)
  {
    assert lines[1..][i - 1] == lines[i];
  }

  lemma {:induction false} KeyIndexIsFirst(lines: seq<string>, key: string)
    ensures var n := KeyIndex(lines, key);
            && (n < |lines| ==> AssignsAt(lines, n, key))
            && forall i :: 0 <= i < n ==> !AssignsAt(lines, i, key)
  {
    if lines != [] && EnvKey(lines[0]) != Some(key) {
      KeyIndexIsFirst(lines[1..], key);
      forall i | 0 < i < |lines|
        ensures AssignsAt(lines, i, key) == AssignsAt(lines[1..], i - 1, key)
      {
        AssignsInTail(lines, i, key);
      }
    }
  }

  lemma KeyIndexUnique(lines: seq<string>, key: string, n: nat)
    requires n <= |lines| && (n < |lines| ==> AssignsAt(lines, n, key))
    requires forall i :: 0 <= i < n ==> !AssignsAt(lines, i, key)
    ensures KeyIndex(lines, key) == n
  {
    KeyIndexIsFirst(lines, key);
  }

  function UpsertLines(lines: seq<string>, key: string, rendered: string): seq<string> {
    var n := KeyIndex(lines, key);
    if n < |lines| then lines[n := rendered]
    else if lines == [] || lines[|lines| - 1] == "" then lines + [rendered]
    else lines + ["", rendered]
  }

  function Upserted(file: Option<string>, key: string, value: string): string {
    Unlines(UpsertLines(FileLines(file), key, RenderedLine(key, value)))
  }

  /** The value that a first-wins reader finds for a key. */
  function FirstValue(lines: seq<string>, key: string): Option<string> {
    if lines == [] then None
    else
      match ParseAssignment(lines[0])
      case Some((k, v)) => if k == key then Some(v) else FirstValue(lines[1..], key)
      case None => FirstValue(lines[1..], key)
  }

  class DotEnv {
    /** Content of the file, if it exists. */
    var file: Option<string>

    constructor (file: Option<string>)
      ensures this.file == file
    {
      this.file := file;
    }

    method UpsertEnvVar(key: string, value: string)
      modifies this
      ensures file == Some(Upserted(old(file), key, value))
    {
      var lines := FileLines(file);
      ghost var original := lines;
      var rendered := RenderedLine(key, value);
      var replaced := false;
      var i := 0;
      while i < |lines|
        invariant i <= |lines| && !replaced && lines == original
        invariant KeyIndex(original, key) == i + KeyIndex(original[i..], key)
      {
        assert original[i..][0] == original[i] && original[i..][1..] == original[i + 1..];
        if EnvKey(lines[i]) == Some(key) {
          lines := lines[i := rendered];
          replaced := true;
          break;
        }
        i := i + 1;
      }
      assert i == KeyIndex(original, key);
      if !replaced {
        if |lines| > 0 && lines[|lines| - 1] != "" {
          lines := lines + [""];
        }
        lines := lines + [rendered];
      }
      assert lines == UpsertLines(original, key, rendered);
      file := Some(Unlines(lines));
    }

    /** Sets every variable of the file that the environment does not have yet; `set_var` panics on a NUL. */
    method LoadEnvFile(environment: map<string, string>) returns (r: Result<map<string, string>, LoadError>)
      ensures r.Err? <==> exists k :: SetsNul(FileLines(file), environment, k)
      ensures r.Ok? ==> forall k :: k in environment ==> k in r.value && r.value[k] == environment[k]
      ensures r.Ok? ==> forall k :: k !in environment ==>
                match FirstValue(FileLines(file), k)
                case Some(v) => k in r.value && r.value[k] == v
                case None => k !in r.value
    {
      var loaded := environment;
      var lines := FileLines(file);
      NothingLoaded(environment);
      for i := 0 to |lines|
        invariant IsLoaded(loaded, environment, Reader(lines[..i]))
      {
        var assignment := ParseAssignment(lines[i]);
        OneMoreLine(lines, i);
        LoadStep(loaded, environment, Reader(lines[..i]), assignment, Reader(lines[..i + 1]));
        if assignment.Some? && IsUnset(loaded, assignment.value.0) {
          var (key, value) := assignment.value;
          if !Settable(key, value) {
            NulIsMet(lines, i, environment, key, value);
            return Err(NulInVariable(key));
          }
          loaded := loaded[key := value];
        }
      }
      assert lines[..|lines|] == lines;
      LoadedAll(loaded, environment, lines);
      return Ok(loaded);
    }
  }

  // ---- loading into an environment ---------------------------------------------------

  datatype LoadError = NulInVariable(key: string)

  /** `var_os` finds nothing: no variable has a name with a NUL in it. */
  predicate IsUnset(environment: map<string, string>, key: string) {
    key !in environment || '\0' in key
  }

  predicate Settable(key: string, value: string) {
    '\0' !in key && '\0' !in value
  }

  /** Loading comes to set this key, and there is a NUL in the key or in its value. */
  predicate SetsNul(lines: seq<string>, environment: map<string, string>, key: string) {
    && IsUnset(environment, key)
    && FirstValue(lines, key).Some? && !Settable(key, FirstValue(lines, key).value)
  }

  function Reader(lines: seq<string>): string -> Option<string> {
    (key: string) => FirstValue(lines, key)
  }

  /** The environment with the variables that `first` finds and it did not have; none of them has a NUL. */
  ghost predicate IsLoaded(loaded: map<string, string>, environment: map<string, string>,
                           first: string -> Option<string>)
  {
    && (forall k :: k in environment ==> k in loaded && loaded[k] == environment[k])
    && (forall k :: k !in environment ==> if first(k).Some? then k in loaded && loaded[k] == first(k).value
                                          else k !in loaded)
    && forall k :: IsUnset(environment, k) && first(k).Some? ==> Settable(k, first(k).value)
  }

  lemma NothingLoaded(environment: map<string, string>)
    ensures IsLoaded(environment, environment, Reader([]))
  {
  }

  lemma LoadedAll(loaded: map<string, string>, environment: map<string, string>, lines: seq<string>)
    requires IsLoaded(loaded, environment, Reader(lines))
    ensures forall k :: !SetsNul(lines, environment, k)
    ensures forall k :: k in environment ==> k in loaded && loaded[k] == environment[k]
    ensures forall k :: k !in environment ==>
              match FirstValue(lines, k)
              case Some(v) => k in loaded && loaded[k] == v
              case None => k !in loaded
  {
    forall k
      ensures !SetsNul(lines, environment, k)
      ensures k !in environment ==>
                match FirstValue(lines, k)
                case Some(v) => k in loaded && loaded[k] == v
                case None => k !in loaded
    {
      assert Reader(lines)(k) == FirstValue(lines, k);
    }
  }

  lemma LoadStep(loaded: map<string, string>, environment: map<string, string>, first: string -> Option<string>,
                 assignment: Option<(string, string)>, next: string -> Option<string>)
    requires IsLoaded(loaded, environment, first)
    requires forall k :: next(k) == OrElse(first(k), ValueFor(assignment, k))
    ensures assignment.None? || !IsUnset(loaded, assignment.value.0) ==> IsLoaded(loaded, environment, next)
    ensures assignment.Some? && IsUnset(loaded, assignment.value.0) ==>
              var (key, value) := assignment.value;
              && IsUnset(environment, key) && first(key) == None
              && (Settable(key, value) ==> IsLoaded(loaded[key := value], environment, next))
  {
  }

  lemma OneMoreLine(lines: seq<string>, i: nat)
    requires i < |lines|
    ensures forall k :: Reader(lines[..i + 1])(k)
                        == OrElse(Reader(lines[..i])(k), ValueFor(ParseAssignment(lines[i]), k))
  {
    assert lines[..i + 1] == lines[..i] + [lines[i]];
    forall k
      ensures FirstValue(lines[..i + 1], k)
              == OrElse(FirstValue(lines[..i], k), ValueFor(ParseAssignment(lines[i]), k))
    {
      FirstValueOfConcat(lines[..i], [lines[i]], k);
      assert [lines[i]][1..] == [];
    }
  }

  lemma NulIsMet(lines: seq<string>, i: nat, environment: map<string, string>, key: string, value: string)
    requires i < |lines| && ParseAssignment(lines[i]) == Some((key, value)) && !Settable(key, value)
    requires IsUnset(environment, key) && Reader(lines[..i])(key) == None
    ensures SetsNul(lines, environment, key)
  {
    assert lines == lines[..i] + lines[i..];
    FirstValueOfConcat(lines[..i], lines[i..], key);
  }

  /** What a variable is after loading: `None` when it is not set, or when loading panics. */
  ghost function LoadedValue(lines: seq<string>, environment: map<string, string>, key: string): Option<string> {
    if exists k :: SetsNul(lines, environment, k) then None
    else if key in environment then Some(environment[key])
    else FirstValue(lines, key)
  }

  // ---- reading -----------------------------------------------------------------

  function OrElse(a: Option<string>, b: Option<string>): Option<string> {
    if a.Some? then a else b
  }

  /** The value of an assignment, if it is one for this key. */
  function ValueFor(assignment: Option<(string, string)>, key: string): Option<string> {
    if assignment.Some? && assignment.value.0 == key then Some(assignment.value.1) else None
  }

  lemma {:induction false} FirstValueOfConcat(a: seq<string>, b: seq<string>, key: string)
    ensures FirstValue(a + b, key) == OrElse(FirstValue(a, key), FirstValue(b, key))
  {
    if a == [] {
      assert a + b == b;
    } else {
      assert (a + b)[1..] == a[1..] + b;
      FirstValueOfConcat(a[1..], b, key);
    }
  }

  /** A carriage return left at the end of a line changes nothing. */
  lemma CarriageReturnIgnored(line: string)
    ensures ParseAssignment(DropCarriageReturn(line)) == ParseAssignment(line)
    ensures EnvKey(DropCarriageReturn(line)) == EnvKey(line)
  {
    if line != "" && line[|line| - 1] == '\r' {
      assert line == line[..|line| - 1] + ['\r'];
      TrimDropsTrailing(line[..|line| - 1], '\r');
    }
  }

  lemma {:induction false} CarriageReturnsIgnored(a: seq<string>, b: seq<string>, key: string)
    requires |a| == |b| && forall i :: 0 <= i < |a| ==> a[i] == DropCarriageReturn(b[i])
    ensures FirstValue(a, key) == FirstValue(b, key)
    ensures KeyIndex(a, key) == KeyIndex(b, key)
  {
    if a != [] {
      CarriageReturnIgnored(b[0]);
      CarriageReturnsIgnored(a[1..], b[1..], key);
    }
  }

  /** The loader and the updater agree on which lines assign which key. */
  lemma KeyOfAssignment(line: string)
    ensures EnvKey(line) == match ParseAssignment(line) case Some((k, _)) => Some(k) case None => None
  {
  }

  lemma {:induction false} FirstValueAtKeyIndex(lines: seq<string>, key: string)
    ensures var n := KeyIndex(lines, key);
            FirstValue(lines, key) ==
              if n < |lines| then match ParseAssignment(lines[n]) case Some((_, v)) => Some(v) case None => None
              else None
  {
    if lines != [] && EnvKey(lines[0]) != Some(key) {
      FirstValueAtKeyIndex(lines[1..], key);
    }
  }

  lemma {:induction false} OtherKeysUnchanged(lines: seq<string>, n: nat, line: string, other: string)
    requires n < |lines| && EnvKey(lines[n]) != Some(other) && EnvKey(line) != Some(other)
    ensures FirstValue(lines[n := line], other) == FirstValue(lines, other)
  {
    if n > 0 {
      assert lines[n := line][1..] == lines[1..][n - 1 := line];
      OtherKeysUnchanged(lines[1..], n - 1, line, other);
    } else {
      assert lines[n := line][1..] == lines[1..];
    }
  }

  // ---- the domain of the printer -----------------------------------------------

  /** A key that a printed line is read back with. */
  predicate SafeKey(key: string) {
    && key != "" && Trimmed(key) && key[0] != '#'
    && '=' !in key && '\n' !in key && !("export " <= key)
  }

  /** A value that a printed line is read back with: the escapes are never undone, and bare quotes are stripped. */
  predicate SafeValue(value: string) {
    && '\n' !in value
    && if NeedsQuotes(value) then '"' !in value && '\\' !in value else !Quoted(value)
  }

  lemma {:induction false} EscapeGrows(value: string)
    ensures |Escape(value)| >= |value|
    ensures Escape(value) == value <==> '"' !in value && '\\' !in value
  {
    if value != "" {
      EscapeGrows(value[1..]);
    }
  }

  lemma RenderedValueTrimmed(value: string)
    ensures Trim(RenderValue(value)) == RenderValue(value)
  {
  }

  /** What is printed for a value is read back as that value exactly on the safe domain (line feeds apart). */
  lemma RenderedValueReadsBackIff(value: string)
    ensures Unquote(RenderValue(value)) == value
            <==> if NeedsQuotes(value) then '"' !in value && '\\' !in value else !Quoted(value)
  {
    if NeedsQuotes(value) {
      EscapeGrows(value);
      assert Unquote(RenderValue(value)) == Escape(value);
    }
  }

  lemma ExportPrefix(key: string, rest: string)
    ensures "export " <= key + "=" + rest <==> "export " <= key
  {
    var line := key + "=" + rest;
    assert forall i :: 0 <= i < 7 ==> "export "[i] != '=';
    assert |key| < 7 ==> line[|key|] == '=';
    assert |key| >= 7 ==> line[..7] == key[..7];
  }

  /** With a safe key the printed line is an assignment of that key. */
  lemma RenderedLineParses(key: string, value: string)
    requires SafeKey(key)
    ensures ParseAssignment(RenderedLine(key, value)) == Some((key, Unquote(RenderValue(value))))
    ensures EnvKey(RenderedLine(key, value)) == Some(key)
    ensures DropCarriageReturn(RenderedLine(key, value)) == RenderedLine(key, value)
  {
    var line, rv := RenderedLine(key, value), RenderValue(value);
    RenderedValueTrimmed(value);
    TrimFacts(rv);
    assert line[|line| - 1] == if rv == "" then '=' else rv[|rv| - 1];
    TrimFacts(line);
    TrimFacts(key);
    ExportPrefix(key, rv);
    FindInConcat(key, '=', rv);
    assert line == key + ['='] + rv;
    assert line[..|key|] == key && line[|key| + 1..] == rv;
  }

  // ---- update and load ---------------------------------------------------------

  /** The lines that a second read sees are those written, up to carriage returns. */
  lemma UpsertReadBack(file: Option<string>, key: string, value: string)
    requires '\n' !in RenderedLine(key, value)
    ensures var written := UpsertLines(FileLines(file), key, RenderedLine(key, value));
            var read := Lines(Upserted(file, key, value));
            |read| == |written| && forall i :: 0 <= i < |read| ==> read[i] == DropCarriageReturn(written[i])
  {
    if file.Some? {
      LinesHaveNoLineFeed(file.value);
    }
    var lines := FileLines(file);
    var written := UpsertLines(lines, key, RenderedLine(key, value));
    forall line | line in written
      ensures '\n' !in line
    {
      assert line in lines || line == "" || line == RenderedLine(key, value);
    }
    LinesOfUnlines(written);
  }

  lemma {:induction false} EscapeAddsNoLineFeed(value: string)
    ensures '\n' in Escape(value) <==> '\n' in value
  {
    if value != "" {
      EscapeAddsNoLineFeed(value[1..]);
      assert value == [value[0]] + value[1..];
    }
  }

  /** The printed line is one line exactly when neither key nor value has a line feed. */
  lemma RenderedLineIsOneLine(key: string, value: string)
    ensures '\n' in RenderedLine(key, value) <==> '\n' in key || '\n' in value
  {
    EscapeAddsNoLineFeed(value);
  }

  /** Where the updater puts its line. */
  function UpsertIndex(lines: seq<string>, key: string): nat {
    var n := KeyIndex(lines, key);
    if n < |lines| || lines == [] || lines[n - 1] == "" then n else n + 1
  }

  lemma UpsertLinesShape(lines: seq<string>, key: string, rendered: string)
    ensures var written, n := UpsertLines(lines, key, rendered), UpsertIndex(lines, key);
            && n < |written| && written[n] == rendered
            && |lines| <= |written|
            && forall i :: 0 <= i < |written| && i != n ==> written[i] == if i < |lines| then lines[i] else ""
  {
  }

  lemma UpsertedKeyIndex(lines: seq<string>, key: string, rendered: string)
    requires EnvKey(rendered) == Some(key)
    ensures KeyIndex(UpsertLines(lines, key, rendered), key) == UpsertIndex(lines, key)
  {
    var written, n := UpsertLines(lines, key, rendered), UpsertIndex(lines, key);
    UpsertLinesShape(lines, key, rendered);
    KeyIndexIsFirst(lines, key);
    forall i | 0 <= i < n
      ensures !AssignsAt(written, i, key)
    {
      if i < |lines| {
        assert !AssignsAt(lines, i, key);
      } else {
        assert EnvKey("") == None;
      }
    }
    KeyIndexUnique(written, key, n);
  }

  lemma UpsertKeepsOtherKeys(lines: seq<string>, key: string, rendered: string, other: string)
    requires EnvKey(rendered) == Some(key) && other != key
    ensures FirstValue(UpsertLines(lines, key, rendered), other) == FirstValue(lines, other)
  {
    var n := KeyIndex(lines, key);
    KeyIndexIsFirst(lines, key);
    if n < |lines| {
      assert AssignsAt(lines, n, key);
      OtherKeysUnchanged(lines, n, rendered, other);
    } else {
      FirstValueOfConcat(lines, [rendered], other);
      FirstValueOfConcat(lines, ["", rendered], other);
      assert FirstValue(["", rendered], other) == FirstValue([rendered], other) by {
        assert EnvKey("") == None;
        assert ["", rendered][1..] == [rendered];
      }
    }
  }

  /**
   After an upsert with a safe key, a first-wins load finds for every other key
   what it found before, and for the key exactly the value when the value is safe.
   */
  lemma UpsertThenLoad(file: Option<string>, key: string, value: string)
    requires SafeKey(key) && '\n' !in value
    ensures FirstValue(Lines(Upserted(file, key, value)), key) == Some(value) <==> SafeValue(value)
    ensures forall other :: other != key ==>
              FirstValue(Lines(Upserted(file, key, value)), other) == FirstValue(FileLines(file), other)
  {
    var lines, rendered := FileLines(file), RenderedLine(key, value);
    var written, read := UpsertLines(lines, key, rendered), Lines(Upserted(file, key, value));
    RenderedLineIsOneLine(key, value);
    RenderedLineParses(key, value);
    UpsertReadBack(file, key, value);
    CarriageReturnsIgnored(read, written, key);
    UpsertLinesShape(lines, key, rendered);
    UpsertedKeyIndex(lines, key, rendered);
    FirstValueAtKeyIndex(written, key);
    RenderedValueReadsBackIff(value);
    forall other | other != key
      ensures FirstValue(read, other) == FirstValue(lines, other)
    {
      CarriageReturnsIgnored(read, written, other);
      UpsertKeepsOtherKeys(lines, key, rendered, other);
    }
  }

  lemma AssignmentHasNoLineFeed(line: string)
    requires '\n' !in line && ParseAssignment(line).Some?
    ensures '\n' !in ParseAssignment(line).value.0 && '\n' !in ParseAssignment(line).value.1
  {
    TrimKeepsOut(line, '\n');
    var body := StripExport(Trim(line));
    var eq := Find(body, '=');
    TrimKeepsOut(body[..eq], '\n');
    TrimKeepsOut(body[eq + 1..], '\n');
  }

  lemma TrimKeepsOut(s: string, c: char)
    requires c !in s
    ensures c !in Trim(s)
  {
    TrimFacts(s);
  }

  lemma {:induction false} FirstValueHasNoLineFeed(lines: seq<string>, key: string)
    requires forall line :: line in lines ==> '\n' !in line
    requires FirstValue(lines, key).Some?
    ensures '\n' !in key && '\n' !in FirstValue(lines, key).value
  {
    var parsed := ParseAssignment(lines[0]);
    if parsed.Some? {
      AssignmentHasNoLineFeed(lines[0]);
    }
    if parsed.None? || parsed.value.0 != key {
      FirstValueHasNoLineFeed(lines[1..], key);
    }
  }

  lemma AssignedKeyShape(line: string)
    requires EnvKey(line).Some?
    ensures var key := EnvKey(line).value;
            key != "" && Trimmed(key) && '=' !in key && |key| <= Find(StripExport(Trim(line)), '=')
  {
    var body := StripExport(Trim(line));
    FindFacts(body, '=');
    TrimFacts(body[..Find(body, '=')]);
  }

  /** A printed line that assigns its own key has a safe key. */
  lemma AssignedKeyIsSafe(key: string, value: string)
    requires '\n' !in key && EnvKey(RenderedLine(key, value)) == Some(key)
    ensures SafeKey(key)
  {
    var line := RenderedLine(key, value);
    AssignedKeyShape(line);
    RenderedLineTrimmed(key, value);
    assert line[0] == key[0];
    if "export " <= key {
      ExportedKeyIsShorter(key, RenderValue(value));
    }
  }

  lemma RenderedLineTrimmed(key: string, value: string)
    requires key != "" && Trimmed(key)
    ensures Trim(RenderedLine(key, value)) == RenderedLine(key, value)
  {
    var line, rv := RenderedLine(key, value), RenderValue(value);
    RenderedValueTrimmed(value);
    TrimFacts(rv);
    assert line[0] == key[0];
    assert line[|line| - 1] == if rv == "" then '=' else rv[|rv| - 1];
    TrimFacts(line);
  }

  lemma ExportedKeyIsShorter(key: string, rv: string)
    requires "export " <= key && '=' !in key
    ensures Find(StripExport(key + "=" + rv), '=') == |key| - 7
  {
    var line := key + "=" + rv;
    assert line[7..] == key[7..] + ['='] + rv;
    assert "export " <= line;
    FindInConcat(key[7..], '=', rv);
  }

  /** A new file holds one line. */
  lemma NewFileLine(key: string, value: string)
    requires '\n' !in RenderedLine(key, value)
    ensures FirstValue(Lines(Upserted(None, key, value)), key)
            == ValueFor(ParseAssignment(RenderedLine(key, value)), key)
  {
    var rendered := RenderedLine(key, value);
    assert UpsertLines([], key, rendered) == [rendered];
    UpsertReadBack(None, key, value);
    CarriageReturnIgnored(rendered);
    assert Lines(Upserted(None, key, value)) == [DropCarriageReturn(rendered)];
  }

  /**
   After an upsert into any file the key is loaded with the value exactly when neither
   has a NUL and no other variable of the file that is to be set has one.
   */
  lemma UpsertThenLoadEnvironment(file: Option<string>, environment: map<string, string>, key: string, value: string)
    requires SafeKey(key) && SafeValue(value) && key !in environment
    ensures LoadedValue(Lines(Upserted(file, key, value)), environment, key) == Some(value)
            <==> Settable(key, value) && forall other :: other != key ==> !SetsNul(FileLines(file), environment, other)
  {
    var lines := Lines(Upserted(file, key, value));
    UpsertThenLoad(file, key, value);
    forall other | other != key
      ensures SetsNul(lines, environment, other) <==> SetsNul(FileLines(file), environment, other)
    {
      assert FirstValue(lines, other) == FirstValue(FileLines(file), other);
    }
    assert SetsNul(lines, environment, key) <==> !Settable(key, value);
  }

  /** Writing to a new file and loading it sets the value exactly for safe keys and safe values without a NUL. */
  lemma NewFileLoadsIff(environment: map<string, string>, key: string, value: string)
    requires key !in environment
    ensures LoadedValue(Lines(Upserted(None, key, value)), environment, key) == Some(value)
            <==> SafeKey(key) && SafeValue(value) && Settable(key, value)
  {
    NewFileRoundTripIff(key, value);
    if SafeKey(key) && SafeValue(value) {
      UpsertThenLoadEnvironment(None, environment, key, value);
    }
  }

  /** Writing to a new file and reading it gives the value back exactly for safe keys and safe values. */
  lemma NewFileRoundTripIff(key: string, value: string)
    ensures FirstValue(Lines(Upserted(None, key, value)), key) == Some(value) <==> SafeKey(key) && SafeValue(value)
  {
    var content := Upserted(None, key, value);
    if FirstValue(Lines(content), key) == Some(value) {
      LinesHaveNoLineFeed(content);
      FirstValueHasNoLineFeed(Lines(content), key);
      RenderedLineIsOneLine(key, value);
      NewFileLine(key, value);
      KeyOfAssignment(RenderedLine(key, value));
      AssignedKeyIsSafe(key, value);
    }
    if SafeKey(key) && '\n' !in value {
      UpsertThenLoad(None, key, value);
    }
  }

  // ---- a second update ---------------------------------------------------------

  /** Lines other than the replaced one do not end in a carriage return. */
  predicate KeptLinesClean(lines: seq<string>, key: string) {
    forall i :: 0 <= i < |lines| && i != KeyIndex(lines, key) ==> DropCarriageReturn(lines[i]) == lines[i]
  }

  lemma {:induction false} UnlinesShorter(a: seq<string>, b: seq<string>)
    requires |a| == |b| && forall i :: 0 <= i < |a| ==> |a[i]| <= |b[i]|
    ensures |Unlines(a)| <= |Unlines(b)|
    ensures |Unlines(a)| == |Unlines(b)| ==> forall i :: 0 <= i < |a| ==> |a[i]| == |b[i]|
  {
    if a != [] {
      UnlinesShorter(a[1..], b[1..]);
      forall i | 0 <= i < |a| && |Unlines(a)| == |Unlines(b)|
        ensures |a[i]| == |b[i]|
      {
        if i > 0 {
          assert a[i] == a[1..][i - 1] && b[i] == b[1..][i - 1];
        }
      }
    }
  }

  lemma SecondUpsertLines(file: Option<string>, key: string, first: string, second: string)
    requires SafeKey(key) && '\n' !in first
    ensures var lines, n := FileLines(file), UpsertIndex(FileLines(file), key);
            var once := UpsertLines(lines, key, RenderedLine(key, second));
            var twice := UpsertLines(Lines(Upserted(file, key, first)), key, RenderedLine(key, second));
            && |twice| == |once| && n < |once| && twice[n] == once[n]
            && forall i :: 0 <= i < |once| && i != n ==> twice[i] == DropCarriageReturn(once[i])
  {
    var lines, r1, r2 := FileLines(file), RenderedLine(key, first), RenderedLine(key, second);
    var written, read := UpsertLines(lines, key, r1), Lines(Upserted(file, key, first));
    RenderedLineIsOneLine(key, first);
    RenderedLineParses(key, first);
    UpsertReadBack(file, key, first);
    CarriageReturnsIgnored(read, written, key);
    UpsertedKeyIndex(lines, key, r1);
    UpsertLinesShape(lines, key, r1);
    UpsertLinesShape(lines, key, r2);
  }

  lemma UnlinesEqualIff(twice: seq<string>, once: seq<string>, n: nat)
    requires |twice| == |once| && n < |once| && twice[n] == once[n]
    requires forall i :: 0 <= i < |once| && i != n ==> twice[i] == DropCarriageReturn(once[i])
    ensures Unlines(twice) == Unlines(once)
            <==> forall i :: 0 <= i < |once| && i != n ==> DropCarriageReturn(once[i]) == once[i]
  {
    UnlinesShorter(twice, once);
    if forall i :: 0 <= i < |once| && i != n ==> DropCarriageReturn(once[i]) == once[i] {
      assert forall i :: 0 <= i < |once| ==> twice[i] == once[i];
      assert twice == once;
    }
  }

  /**
   Updating a key twice writes the same bytes as updating it once with the second
   value, exactly when no line that is kept ends in a stray carriage return.
   */
  lemma SecondUpsertIff(file: Option<string>, key: string, first: string, second: string)
    requires SafeKey(key) && '\n' !in first
    ensures Upserted(Some(Upserted(file, key, first)), key, second) == Upserted(file, key, second)
            <==> KeptLinesClean(FileLines(file), key)
  {
    var lines, n := FileLines(file), UpsertIndex(FileLines(file), key);
    var once := UpsertLines(lines, key, RenderedLine(key, second));
    var twice := UpsertLines(Lines(Upserted(file, key, first)), key, RenderedLine(key, second));
    SecondUpsertLines(file, key, first, second);
    UnlinesEqualIff(twice, once, n);
    KeptLinesCleanIff(lines, key, RenderedLine(key, second));
  }

  lemma KeptLinesCleanIff(lines: seq<string>, key: string, rendered: string)
    ensures var once, n := UpsertLines(lines, key, rendered), UpsertIndex(lines, key);
            KeptLinesClean(lines, key)
            <==> forall i :: 0 <= i < |once| && i != n ==> DropCarriageReturn(once[i]) == once[i]
  {
    var once, n := UpsertLines(lines, key, rendered), UpsertIndex(lines, key);
    UpsertLinesShape(lines, key, rendered);
    assert forall i :: 0 <= i < |lines| && i != n ==> once[i] == lines[i];
    assert n < |lines| ==> n == KeyIndex(lines, key);
    assert DropCarriageReturn("") == "";
  }
}
