/**
 * The Prism language-dependency table of the web preview
 * (WebViewPreview.initPrismLangDependencies and trimDelim): a process-wide
 * map from a language to the one language it needs loaded first, filled
 * lazily from the lines of prism/lang_dependencies.txt.
 *
 * Only lines starting with '{' are read. Bracketed lists are rewritten to
 * "[not supported]" so that their commas do not split entries, the braces
 * are stripped, the line is split at ',' and each entry at ':'. An entry
 * whose (untrimmed) value starts with '[' is skipped; otherwise the quoted
 * key and value are put into the map, later keys overwriting earlier ones.
 * Only IOException is caught in the source, so a malformed line (missing
 * delimiters, an entry without ':') ends the load with a failure that
 * propagates to the caller, leaving in the map what was put before it.
 */
module PrismDependencies {
  import opened Wrappers
  import opened JavaText

  /** The unchecked exceptions the loader can raise. */
  datatype Failure =
    | IllegalArgument(text: string)   // trimDelim: delimiters missing
    | IndexOutOfBounds                // parts[1] of an entry without ':', or a substring too short

  const NotSupported: string := "[not supported]"

  /**
   * trimDelim(str, leading, trailing): trim whitespace, demand the two
   * delimiters, return the text between them.
   */
  function TrimDelim(str: string, leading: string, trailing: string): (r: Result<string, Failure>)
    ensures r.Ok? ==> |r.value| <= |str|
  {
    StripDelim(Trim(str), leading, trailing)
  }

  /** The delimiter checks of trimDelim, on the trimmed text `t`. */
  function StripDelim(t: string, leading: string, trailing: string): (r: Result<string, Failure>)
    ensures r.Ok? ==> |r.value| <= |t|
  {
    if !StartsWith(t, leading) || !EndsWith(t, trailing) then Err(IllegalArgument(t))
    else if |t| < |leading| + |trailing| then Err(IndexOutOfBounds)
    else Ok(t[|leading|..|t| - |trailing|])
  }

  /** trimDelim succeeds exactly on the strings that trim to leading + inner + trailing. */
  lemma TrimDelimOk(str: string, leading: string, trailing: string, inner: string)
    ensures TrimDelim(str, leading, trailing) == Ok(inner) <==> Trim(str) == leading + inner + trailing
  {
    Delimited(Trim(str), leading, trailing, inner);
  }

  /** StripDelim gives `inner` exactly when the text is `inner` between the two delimiters. */
  lemma Delimited(t: string, leading: string, trailing: string, inner: string)
    ensures StripDelim(t, leading, trailing) == Ok(inner) <==> t == leading + inner + trailing
  {
    if t == leading + inner + trailing {
      assert t[..|leading|] == leading;
      assert t[|t| - |trailing|..] == trailing;
      assert t[|leading|..|t| - |trailing|] == inner;
    }
    if StripDelim(t, leading, trailing) == Ok(inner) {
      assert t == t[..|leading|] + t[|leading|..|t| - |trailing|] + t[|t| - |trailing|..];
    }
  }

  /**
   * line.replaceAll("\\[([^\\]]+)\\]", "[not supported]"): every '[' that
   * is followed by at least one character other than ']' and then a ']' is
   * replaced, together with that text and the ']', by "[not supported]";
   * the scan continues after the ']'.
   */
  function ReplaceBrackets(s: string): string
    decreases |s|
  {
    if s == [] then []
    else if s[0] == '[' && ']' in s[1..] && IndexOf(s[1..], ']') > 0 then
      NotSupported + ReplaceBrackets(s[2 + IndexOf(s[1..], ']')..])
    else [s[0]] + ReplaceBrackets(s[1..])
  }

  lemma {:induction false} ReplaceBracketsPlain(a: string, b: string)
    requires '[' !in a
    ensures ReplaceBrackets(a + b) == a + ReplaceBrackets(b)
    decreases |a|
  {
    if a == [] {
      assert a + b == b;
    } else {
      var s := a + b;
      assert s[0] == a[0] && s[1..] == a[1..] + b;
      ReplaceBracketsPlain(a[1..], b);
      assert ReplaceBrackets(s) == [a[0]] + (a[1..] + ReplaceBrackets(b));
      assert [a[0]] + a[1..] == a;
    }
  }

  /** A bracketed list "[x]" is replaced whole, whatever commas or quotes x holds. */
  lemma ReplaceBracketsList(x: string, rest: string)
    requires x != [] && ']' !in x
    ensures ReplaceBrackets("[" + x + "]" + rest) == NotSupported + ReplaceBrackets(rest)
  {
    var s := "[" + x + "]" + rest;
    assert s[1..] == x + "]" + rest;
    assert s[1..][|x|] == ']';
    assert IndexOf(s[1..], ']') == |x| by {
      assert forall k :: 0 <= k < |x| ==> s[1..][k] == x[k];
    }
    assert s[2 + |x|..] == rest;
  }

  /** One entry "key":value of a line, or None when the value is a list. */
  function ParseEntry(str: string): Result<Option<(string, string)>, Failure> {
    var parts := Split(str, ':');
    if |parts| < 2 then Err(IndexOutOfBounds)
    else if StartsWith(parts[1], "[") then Ok(None)
    else
      match TrimDelim(parts[0], "\"", "\"")
      case Err(e) => Err(e)
      case Ok(key) =>
        match TrimDelim(parts[1], "\"", "\"")
        case Err(e) => Err(e)
        case Ok(value) => Ok(Some((key, value)))
  }

  /** The map so far and, if the load stopped on an exception, that exception. */
  datatype Loaded = Loaded(deps: map<string, string>, failure: Option<Failure>)

  function ApplyEntries(deps: map<string, string>, entries: seq<string>): Loaded
    decreases |entries|
  {
    if entries == [] then Loaded(deps, None)
    else
      match ParseEntry(entries[0])
      case Err(e) => Loaded(deps, Some(e))
      case Ok(None) => ApplyEntries(deps, entries[1..])
      case Ok(Some(kv)) => ApplyEntries(deps[kv.0 := kv.1], entries[1..])
  }

  /** One line that starts with '{'. */
  function ApplyLine(deps: map<string, string>, line: string): Loaded {
    match TrimDelim(ReplaceBrackets(line), "{", "}")
    case Err(e) => Loaded(deps, Some(e))
    case Ok(body) => ApplyEntries(deps, Split(body, ','))
  }

  /** The whole read loop, stopping at the first exception. */
  function LoadLines(deps: map<string, string>, lines: seq<string>): Loaded
    decreases |lines|
  {
    if lines == [] then Loaded(deps, None)
    else if !StartsWith(lines[0], "{") then LoadLines(deps, lines[1..])
    else
      var r := ApplyLine(deps, lines[0]);
      if r.failure.Some? then r else LoadLines(r.deps, lines[1..])
  }

  /**
   * What initPrismLangDependencies leaves: the table unchanged once it holds
   * anything, otherwise the result of reading the lines into an empty one.
   */
  function InitResult(deps: map<string, string>, lines: seq<string>): Loaded {
    if deps == map[] then LoadLines(map[], lines) else Loaded(deps, None)
  }

  function BraceLines(lines: seq<string>): (r: seq<string>)
    ensures forall k :: 0 <= k < |r| ==> StartsWith(r[k], "{")
  {
    if lines == [] then []
    else if StartsWith(lines[0], "{") then [lines[0]] + BraceLines(lines[1..])
    else BraceLines(lines[1..])
  }

  /** Lines not starting with '{' have no effect at all. */
  lemma {:induction false} LoadLinesOnlyBraceLines(deps: map<string, string>, lines: seq<string>)
    ensures LoadLines(deps, lines) == LoadLines(deps, BraceLines(lines))
    decreases |lines|
  {
    if lines != [] {
      if StartsWith(lines[0], "{") {
        var r := ApplyLine(deps, lines[0]);
        assert BraceLines(lines)[0] == lines[0] && BraceLines(lines)[1..] == BraceLines(lines[1..]);
        LoadLinesOnlyBraceLines(r.deps, lines[1..]);
      } else {
        LoadLinesOnlyBraceLines(deps, lines[1..]);
      }
    }
  }

  /** Of several entries for one key, the last one decides its value. */
  lemma {:induction false} ApplyEntriesLastWins(deps: map<string, string>, entries: seq<string>, key: string, value: string)
    requires entries != [] && ParseEntry(entries[|entries| - 1]) == Ok(Some((key, value)))
    requires ApplyEntries(deps, entries).failure == None
    ensures key in ApplyEntries(deps, entries).deps && ApplyEntries(deps, entries).deps[key] == value
    decreases |entries|
  {
    if |entries| > 1 {
      var rest := entries[1..];
      assert rest[|rest| - 1] == entries[|entries| - 1];
      match ParseEntry(entries[0])
      case Ok(None) => ApplyEntriesLastWins(deps, rest, key, value);
      case Ok(Some(kv)) => ApplyEntriesLastWins(deps[kv.0 := kv.1], rest, key, value);
    }
  }

  lemma SplitAtColon(k: string, v: string)
    requires ':' !in k && ':' !in v && v != []
    ensures Split(k + ":" + v, ':') == [k, v]
  {
    var body := k + ":" + v;
    assert body[|k|] == ':' && body[..|k|] == k;
    assert IndexOf(body, ':') == |k|;
    assert body[|k| + 1..] == v;
    assert SplitAll(body, ':') == [k] + SplitAll(v, ':') == [k, v];
  }

  /** A quoted text "x" is unchanged by trim and unquoted by trimDelim. */
  lemma TrimDelimQuoted(x: string)
    ensures TrimDelim(Quote(x), "\"", "\"") == Ok(x)
  {
    var q := Quote(x);
    assert Trim(q) == q;
    TrimDelimOk(q, "\"", "\"", x);
  }

  predicate PlainText(s: string) {
    ',' !in s && ':' !in s && '[' !in s
  }

  /** A braced line whose brackets have already been rewritten is split at ','. */
  lemma ApplyBracedLine(deps: map<string, string>, line: string, body: string)
    requires ReplaceBrackets(line) == "{" + body + "}"
    ensures ApplyLine(deps, line) == ApplyEntries(deps, Split(body, ','))
  {
    var braced := "{" + body + "}";
    assert braced[0] == '{' && braced[|braced| - 1] == '}';
    assert Trim(braced) == braced;
    TrimDelimOk(braced, "{", "}", body);
  }

  lemma ApplySingleEntry(deps: map<string, string>, body: string)
    requires ',' !in body && ParseEntry(body).Ok?
    ensures ApplyEntries(deps, Split(body, ',')) == match ParseEntry(body).value
      case None => Loaded(deps, None)
      case Some(kv) => Loaded(deps[kv.0 := kv.1], None)
  {
    assert Split(body, ',') == [body];
  }

  /** A line holding one braced entry is loaded as that entry alone. */
  lemma LoadSingleEntryLine(deps: map<string, string>, line: string, body: string)
    requires line != [] && line[0] == '{'
    requires ReplaceBrackets(line) == "{" + body + "}"
    requires ',' !in body && ParseEntry(body).Ok?
    ensures LoadLines(deps, [line]) == match ParseEntry(body).value
      case None => Loaded(deps, None)
      case Some(kv) => Loaded(deps[kv.0 := kv.1], None)
  {
    assert StartsWith(line, "{");
    ApplyBracedLine(deps, line, body);
    ApplySingleEntry(deps, body);
    assert [line][1..] == [];
  }

  /** A JSON-style quoted text. */
  function Quote(x: string): (r: string)
    ensures PlainText(x) ==> PlainText(r)
  {
    "\"" + x + "\""
  }

  lemma EntryLineBrackets(key: string, value: string)
    requires PlainText(key) && PlainText(value)
    ensures ReplaceBrackets("{" + Quote(key) + ":" + Quote(value) + "}") == "{" + (Quote(key) + ":" + Quote(value)) + "}"
  {
    var line := "{" + Quote(key) + ":" + Quote(value) + "}";
    assert line == "{" + (Quote(key) + ":" + Quote(value)) + "}";
    assert '[' !in line;
    ReplaceBracketsPlain(line, []);
    assert line + [] == line;
  }

  lemma ParseQuotedEntry(key: string, value: string)
    requires PlainText(key) && PlainText(value)
    ensures ParseEntry(Quote(key) + ":" + Quote(value)) == Ok(Some((key, value)))
  {
    var k := Quote(key);
    var v := Quote(value);
    assert ':' !in k && ':' !in v;
    SplitAtColon(k, v);
    assert !StartsWith(v, "[") by {
      assert v[..1] == "\"";
    }
    TrimDelimQuoted(key);
    TrimDelimQuoted(value);
  }

  /** The table's usual line {"key":"value"} puts exactly key -> value. */
  lemma LoadEntryLine(deps: map<string, string>, key: string, value: string)
    requires PlainText(key) && PlainText(value)
    ensures LoadLines(deps, ["{" + Quote(key) + ":" + Quote(value) + "}"]) == Loaded(deps[key := value], None)
  {
    var body := Quote(key) + ":" + Quote(value);
    var line := "{" + Quote(key) + ":" + Quote(value) + "}";
    EntryLineBrackets(key, value);
    ParseQuotedEntry(key, value);
    assert ',' !in body;
    assert line[0] == '{';
    LoadSingleEntryLine(deps, line, body);
  }

  lemma ListLineBrackets(key: string, list: string)
    requires PlainText(key) && list != [] && ']' !in list
    ensures ReplaceBrackets("{" + Quote(key) + ":[" + list + "]}") == "{" + (Quote(key) + ":" + NotSupported) + "}"
  {
    var head := "{" + Quote(key) + ":";
    assert "{" + Quote(key) + ":[" + list + "]}" == head + ("[" + list + "]" + "}");
    assert '[' !in head;
    ReplaceBracketsPlain(head, "[" + list + "]" + "}");
    ReplaceBracketsList(list, "}");
    ReplaceBracketsPlain("}", []);
    assert "}" + [] == "}";
  }

  /** The replacement text holds no separator and reads as a list value. */
  lemma NotSupportedText()
    ensures ',' !in NotSupported && ':' !in NotSupported && StartsWith(NotSupported, "[")
  {
    forall k | 0 <= k < |NotSupported|
      ensures NotSupported[k] != ',' && NotSupported[k] != ':'
    {
    }
    assert NotSupported[..1] == "[";
  }

  /** An entry whose value starts with '[' is skipped. */
  lemma ParseListEntry(k: string)
    requires ':' !in k
    ensures ParseEntry(k + ":" + NotSupported) == Ok(None)
  {
    NotSupportedText();
    SplitAtColon(k, NotSupported);
  }

  /** A line {"key":[list]} is read without error and adds nothing. */
  lemma LoadListLine(deps: map<string, string>, key: string, list: string)
    requires PlainText(key) && list != [] && ']' !in list
    ensures LoadLines(deps, ["{" + Quote(key) + ":[" + list + "]}"]) == Loaded(deps, None)
  {
    var k := Quote(key);
    var line := "{" + k + ":[" + list + "]}";
    var body := k + ":" + NotSupported;
    ListLineBrackets(key, list);
    ParseListEntry(k);
    NotSupportedText();
    assert ',' !in body;
    assert line[0] == '{';
    LoadSingleEntryLine(deps, line, body);
  }

  /** The static prismLangDependenciesMap. */
  class LangDependencies {
    var deps: map<string, string>

    constructor ()
      ensures deps == map[]
    {
      deps := map[];
    }

    /**
     * initPrismLangDependencies: a no-op once the map holds anything;
     * otherwise reads `lines` (the resource's lines up to its end or to an
     * I/O error, which is swallowed) and stops at the first exception.
     */
    method Init(lines: seq<string>) returns (failure: Option<Failure>)
      modifies this
      ensures Loaded(deps, failure) == InitResult(old(deps), lines)
    {
      if deps != map[] {
        return None;
      }
      var i := 0;
      while i < |lines|
        invariant 0 <= i <= |lines|
        invariant LoadLines(map[], lines) == LoadLines(deps, lines[i..])
      {
        assert lines[i..][0] == lines[i] && lines[i..][1..] == lines[i + 1..];
        var line := lines[i];
        if StartsWith(line, "{") {
          line := ReplaceBrackets(line);
          var body := TrimDelim(line, "{", "}");
          if body.Err? {
            return Some(body.error);
          }
          failure := PutEntries(Split(body.value, ','));
          if failure.Some? {
            return;
          }
        }
        i := i + 1;
      }
      failure := None;
    }

    /** The loop over the entries of one line: `put` each, stop at an exception. */
    method PutEntries(entries: seq<string>) returns (failure: Option<Failure>)
      modifies this
      ensures Loaded(deps, failure) == ApplyEntries(old(deps), entries)
    {
      var j := 0;
      while j < |entries|
        invariant 0 <= j <= |entries|
        invariant ApplyEntries(old(deps), entries) == ApplyEntries(deps, entries[j..])
      {
        assert entries[j..][0] == entries[j] && entries[j..][1..] == entries[j + 1..];
        var entry := ParseEntry(entries[j]);
        if entry.Err? {
          return Some(entry.error);
        }
        if entry.value.Some? {
          var (key, value) := entry.value.value;
          deps := deps[key := value];
        }
        j := j + 1;
      }
      failure := None;
    }
  }
}
