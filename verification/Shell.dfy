/** The copyable command of cmd/lsctl/internal/ui/model.go, read back as a POSIX shell
    would: quoting by sections 2.2.1 and 2.2.2 of the Shell Command Language. */
module Shell {
  import opened Basics
  import opened Schema

  datatype Words = Words(list: seq<string>) | NotPlainWords

  /** Characters that stand for themselves outside quotes, wherever they occur in a word. */
  predicate IsPlain(c: char) { IsKeyChar(c) }

  /** The word being read, if one has begun. */
  function Begun(word: Option<string>): string { if word.Some? then word.value else "" }

  function Finish(word: Option<string>, done: seq<string>): seq<string> {
    if word.Some? then done + [word.value] else done
  }

  /** Splits a command into words outside quotes: blanks separate them, a backslash takes
      the next character literally, single quotes take everything up to the next one.
      Anything else with a meaning to the shell ends the attempt. */
  function Scan(s: string, word: Option<string>, done: seq<string>): Words
    decreases |s|
  {
    if s == "" then Words(Finish(word, done))
    else if s[0] == ' ' || s[0] == '\t' then Scan(s[1..], None, Finish(word, done))
    else if s[0] == '\\' then
      if |s| == 1 then NotPlainWords
      else if s[1] == '\n' then Scan(s[2..], word, done)
      else Scan(s[2..], Some(Begun(word) + [s[1]]), done)
    else if s[0] == '\'' then ScanQuoted(s[1..], Begun(word), done)
    else if IsPlain(s[0]) then Scan(s[1..], Some(Begun(word) + [s[0]]), done)
    else NotPlainWords
  }

  /** Inside single quotes every character stands for itself. */
  function ScanQuoted(s: string, word: string, done: seq<string>): Words
    decreases |s|
  {
    if s == "" then NotPlainWords
    else if s[0] == '\'' then Scan(s[1..], Some(word), done)
    else ScanQuoted(s[1..], word + [s[0]], done)
  }

  function Tokenize(s: string): Words { Scan(s, None, []) }

  // ---------------------------------------------------------------- quoting

  /** Every quote closes the quotes, adds an escaped quote and reopens them. */
  function EscapeQuotes(s: string): string {
    if s == "" then "" else (if s[0] == '\'' then "'\\''" else [s[0]]) + EscapeQuotes(s[1..])
  }

  function ShellQuote(s: string): string { "'" + EscapeQuotes(s) + "'" }

  function EquivSet(key: string, value: string, format: string): string {
    "lsctl set " + key + " " + ShellQuote(value) + " --format " + format
  }

  /** Closing the quotes, an escaped quote and reopening them adds one quote. */
  lemma Reopened(more: string, word: string, done: seq<string>)
    ensures ScanQuoted("'\\''" + more, word, done) == ScanQuoted(more, word + "'", done)
  {
    var s1, s2, s3 := "'\\''" + more, "\\''" + more, "'" + more;
    assert s1[0] == '\'' && s1[1..] == s2;
    assert s2[0] == '\\' && s2[1] == '\'' && s2[2..] == s3;
    assert s3[0] == '\'' && s3[1..] == more;
    assert Scan(s3, Some(word + "'"), done) == ScanQuoted(more, word + "'", done);
  }

  lemma {:induction false} QuotedRest(v: string, rest: string, word: string, done: seq<string>)
    ensures ScanQuoted(EscapeQuotes(v) + "'" + rest, word, done) == Scan(rest, Some(word + v), done)
    decreases |v|
  {
    if v == "" {
      assert EscapeQuotes(v) + "'" + rest == "'" + rest;
      assert ("'" + rest)[1..] == rest && word + v == word;
    } else {
      var more := EscapeQuotes(v[1..]) + "'" + rest;
      QuotedRest(v[1..], rest, word + [v[0]], done);
      assert word + [v[0]] + v[1..] == word + v;
      if v[0] == '\'' {
        assert EscapeQuotes(v) + "'" + rest == "'\\''" + more;
        Reopened(more, word, done);
      } else {
        assert EscapeQuotes(v) + "'" + rest == [v[0]] + more;
        assert ([v[0]] + more)[1..] == more;
      }
    }
  }

  /** A quoted value is read back byte for byte, also if it is empty. */
  lemma QuoteRoundTrip(v: string, rest: string, done: seq<string>)
    ensures Scan(ShellQuote(v) + rest, None, done) == Scan(rest, Some(v), done)
  {
    assert ShellQuote(v) + rest == "'" + (EscapeQuotes(v) + "'" + rest);
    assert ("'" + (EscapeQuotes(v) + "'" + rest))[1..] == EscapeQuotes(v) + "'" + rest;
    QuotedRest(v, rest, "", done);
    assert "" + v == v;
  }

  lemma {:induction false} PlainRest(w: string, rest: string, word: Option<string>, done: seq<string>)
    requires w != "" && forall i :: 0 <= i < |w| ==> IsPlain(w[i])
    ensures Scan(w + rest, word, done) == Scan(rest, Some(Begun(word) + w), done)
    decreases |w|
  {
    assert (w + rest)[1..] == w[1..] + rest && (w + rest)[0] == w[0];
    var begun := Begun(word) + [w[0]];
    if |w| == 1 {
      assert w[1..] + rest == rest && begun == Begun(word) + w;
    } else {
      PlainRest(w[1..], rest, Some(begun), done);
      assert begun + w[1..] == Begun(word) + w;
    }
  }

  lemma PlainWord(w: string, rest: string, done: seq<string>)
    requires w != "" && forall i :: 0 <= i < |w| ==> IsPlain(w[i])
    ensures Scan(w + " " + rest, None, done) == Scan(rest, None, done + [w])
  {
    PlainRest(w, " " + rest, None, done);
    assert w + " " + rest == w + (" " + rest) && "" + w == w;
    assert (" " + rest)[1..] == rest;
  }

  /** For every value and every valid key the printed command has exactly six words, the
      value among them unchanged. */
  lemma EquivSetRoundTrip(key: string, value: string, format: string)
    requires ValidKey(key) && format in {"raw", "json", "yaml"}
    ensures Tokenize(EquivSet(key, value, format)) == Words(["lsctl", "set", key, value, "--format", format])
  {
    hide Scan, ShellQuote;
    var afterValue := " --format " + format;
    var afterKey := ShellQuote(value) + afterValue;
    var afterSet := key + " " + afterKey;
    assert EquivSet(key, value, format) == "lsctl" + " " + ("set" + " " + afterSet);
    PlainWord("lsctl", "set" + " " + afterSet, []);
    PlainWord("set", afterSet, ["lsctl"]);
    PlainWord(key, afterKey, ["lsctl", "set"]);
    QuoteRoundTrip(value, afterValue, ["lsctl", "set", key]);
    FormatArgument(format, value, ["lsctl", "set", key]);
    assert [] + ["lsctl"] == ["lsctl"] && ["lsctl"] + ["set"] == ["lsctl", "set"];
    assert ["lsctl", "set"] + [key] == ["lsctl", "set", key];
    assert ["lsctl", "set", key] + [value, "--format", format] == ["lsctl", "set", key, value, "--format", format];
  }

  lemma FormatArgument(format: string, value: string, done: seq<string>)
    requires format in {"raw", "json", "yaml"}
    ensures Scan(" --format " + format, Some(value), done) == Words(done + [value, "--format", format])
  {
    var s := " --format " + format;
    assert s[1..] == "--format" + " " + format;
    PlainWord("--format", format, done + [value]);
    PlainRest(format, "", None, done + [value] + ["--format"]);
    assert format + "" == format && "" + format == format;
    assert done + [value] + ["--format"] + [format] == done + [value, "--format", format];
  }
}
