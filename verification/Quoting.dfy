/** The two quoting functions of `ferrvault get`, and the readers that undo them. */
module Quoting {
  import opened Wrappers

  /** Rust's `str::replace` for a one-character pattern. */
  function Replace(s: string, c: char, to: string): string {
    if s == "" then "" else (if s[0] == c then to else [s[0]]) + Replace(s[1..], c, to)
  }

  function ShellQuote(v: string): string {
    "'" + Replace(v, '\'', "'\\''") + "'"
  }

  function DotenvQuote(v: string): string {
    if '\n' in v || '"' in v || '\\' in v then
      "\"" + Replace(Replace(v, '\\', "\\\\"), '"', "\\\"") + "\""
    else
      "\"" + v + "\""
  }

  // ---------- the shell's reading ----------

  /** Where the reader of a shell word stands: outside quotes, or inside single quotes. */
  datatype Mode = Bare | Quoted

  /** Characters that need quoting outside quotes (section 2.2 of the POSIX Shell Command Language). */
  predicate Special(c: char) {
    c in "|&;<>()$`\"*?[#~=% \t\n"
  }

  /** Read one shell word to its end by sections 2.2.1 (a backslash keeps the next character, and a
      backslash before a newline joins lines) and 2.2.2 (single quotes keep everything up to the next
      single quote). `None` when a quote stays open or an unquoted special character turns up. */
  function ReadWord(s: string, mode: Mode): Option<string> {
    if s == "" then (if mode.Bare? then Some("") else None)
    else if mode.Quoted? then
      if s[0] == '\'' then ReadWord(s[1..], Bare) else Prepend(s[0], ReadWord(s[1..], Quoted))
    else if s[0] == '\'' then ReadWord(s[1..], Quoted)
    else if s[0] == '\\' then
      if |s| == 1 then None
      else if s[1] == '\n' then ReadWord(s[2..], Bare)
      else Prepend(s[1], ReadWord(s[2..], Bare))
    else if Special(s[0]) then None
    else Prepend(s[0], ReadWord(s[1..], Bare))
  }

  function Prepend(c: char, rest: Option<string>): Option<string> {
    match rest
    case None => None
    case Some(r) => Some([c] + r)
  }

  lemma {:induction false} QuotedTailReads(v: string)
    ensures ReadWord(Replace(v, '\'', "'\\''") + "'", Quoted) == Some(v)
  {
    var s := Replace(v, '\'', "'\\''") + "'";
    if v == "" {
      assert s[1..] == "";
    } else {
      var rest := Replace(v[1..], '\'', "'\\''") + "'";
      QuotedTailReads(v[1..]);
      assert v == [v[0]] + v[1..];
      if v[0] == '\'' {
        assert s == "'\\''" + rest;
        EscapedQuoteReads(rest);
      } else {
        assert s == [v[0]] + rest;
      }
    }
  }

  lemma EscapedQuoteReads(rest: string)
    ensures ReadWord("'\\''" + rest, Quoted) == Prepend('\'', ReadWord(rest, Quoted))
  {
    var s := "'\\''" + rest;
    var bare, quoted := s[1..], s[1..][2..];
    assert bare == "\\''" + rest && bare[0] == '\\' && bare[1] == '\'';
    assert quoted == "'" + rest && quoted[1..] == rest;
    assert ReadWord(s, Quoted) == ReadWord(bare, Bare);
    assert ReadWord(bare, Bare) == Prepend('\'', ReadWord(quoted, Bare));
  }

  /** The shell reads back one word, equal to the value, whatever the value is. */
  lemma ShellQuoteRoundTrips(v: string)
    ensures ReadWord(ShellQuote(v), Bare) == Some(v)
  {
    QuotedTailReads(v);
    assert ShellQuote(v)[1..] == Replace(v, '\'', "'\\''") + "'";
  }

  // ---------- dotenv ----------

  predicate NeedsEscape(c: char) {
    c == '\\' || c == '"'
  }

  /** One backslash in front of every backslash and double quote, in one go. */
  function Escape(v: string): string {
    if v == "" then "" else (if NeedsEscape(v[0]) then ['\\', v[0]] else [v[0]]) + Escape(v[1..])
  }

  lemma {:induction false} ReplaceAppend(a: string, b: string, c: char, to: string)
    ensures Replace(a + b, c, to) == Replace(a, c, to) + Replace(b, c, to)
  {
    if a == "" {
      assert a + b == b;
    } else {
      assert (a + b)[1..] == a[1..] + b;
      ReplaceAppend(a[1..], b, c, to);
    }
  }

  /** The two replacements in a row touch no character twice: they are the one-pass escape. */
  lemma {:induction false} TwoReplacesAreOnePass(v: string)
    ensures Replace(Replace(v, '\\', "\\\\"), '"', "\\\"") == Escape(v)
  {
    if v != "" {
      var head := if v[0] == '\\' then "\\\\" else [v[0]];
      TwoReplacesAreOnePass(v[1..]);
      assert Replace(v, '\\', "\\\\") == head + Replace(v[1..], '\\', "\\\\");
      ReplaceAppend(head, Replace(v[1..], '\\', "\\\\"), '"', "\\\"");
      ReplaceHead(v[0]);
    }
  }

  lemma ReplaceHead(c: char)
    ensures Replace(if c == '\\' then "\\\\" else [c], '"', "\\\"") == if NeedsEscape(c) then ['\\', c] else [c]
  {
    if c == '\\' {
      assert "\\\\"[1..] == "\\" && "\\\\"[1..][1..] == "";
    } else {
      assert [c][1..] == "";
    }
  }

  lemma {:induction false} NothingToEscape(v: string)
    requires forall c | c in v :: !NeedsEscape(c)
    ensures Escape(v) == v
  {
    if v != "" {
      NothingToEscape(v[1..]);
    }
  }

  /** Both branches of `dotenv_quote` produce the escaped value in double quotes. */
  lemma BranchesAgree(v: string)
    ensures DotenvQuote(v) == "\"" + Escape(v) + "\""
  {
    TwoReplacesAreOnePass(v);
    if '"' !in v && '\\' !in v {
      NothingToEscape(v);
    }
  }

  /** Read a double-quoted value: a backslash keeps the next character, and the first bare double quote
      ends the value. Returns the value and what follows the closing quote. */
  function Unescape(s: string): Option<(string, string)> {
    if s == "" then None
    else if s[0] == '"' then Some(("", s[1..]))
    else if s[0] == '\\' then
      if |s| == 1 then None else PrependTo(s[1], Unescape(s[2..]))
    else PrependTo(s[0], Unescape(s[1..]))
  }

  function PrependTo(c: char, rest: Option<(string, string)>): Option<(string, string)> {
    match rest
    case None => None
    case Some((r, tail)) => Some(([c] + r, tail))
  }

  lemma {:induction false} EscapedReads(v: string, tail: string)
    ensures Unescape(Escape(v) + "\"" + tail) == Some((v, tail))
  {
    var s := Escape(v) + "\"" + tail;
    if v == "" {
      assert s[1..] == tail;
    } else {
      var rest := Escape(v[1..]) + "\"" + tail;
      EscapedReads(v[1..], tail);
      assert v == [v[0]] + v[1..];
      if NeedsEscape(v[0]) {
        assert s == ['\\', v[0]] + rest;
      } else {
        assert s == [v[0]] + rest;
      }
    }
  }

  /** A quoted value in a dotenv file reads back as the value, and ends exactly at its closing quote,
      whatever line follows. */
  lemma DotenvQuoteRoundTrips(v: string, tail: string)
    ensures DotenvQuote(v) + tail != "" && (DotenvQuote(v) + tail)[0] == '"'
    ensures Unescape((DotenvQuote(v) + tail)[1..]) == Some((v, tail))
  {
    BranchesAgree(v);
    assert (DotenvQuote(v) + tail)[1..] == Escape(v) + "\"" + tail;
    EscapedReads(v, tail);
  }
}
