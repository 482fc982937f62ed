/** Text literals: the quoting that `sql_escape_text` does and how PostgreSQL
    reads a string constant back (section 4.1.2.1 of its documentation, with
    standard_conforming_strings on). */
module SqlText {
  import opened Wrappers

  /** `s.replace('\'', "''")`. */
  function Escape(s: string): string {
    if s == "" then ""
    else (if s[0] == '\'' then "''" else [s[0]]) + Escape(s[1..])
  }

  function Quote(s: string): string {
    "'" + Escape(s) + "'"
  }

  /** The body of a string constant, read after its opening quote: the value and
      the text that follows the closing quote. */
  function LexBody(t: string): Option<(string, string)> {
    if t == "" then None
    else if t[0] != '\'' then
      match LexBody(t[1..])
      case None => None
      case Some(r) => Some(([t[0]] + r.0, r.1))
    else if |t| >= 2 && t[1] == '\'' then
      match LexBody(t[2..])
      case None => None
      case Some(r) => Some(("'" + r.0, r.1))
    else Some(("", t[1..]))
  }

  function LexString(t: string): Option<(string, string)> {
    if t != "" && t[0] == '\'' then LexBody(t[1..]) else None
  }

  /** Before any text that does not go on with a quote, the constant ends where the
      quoting ended and its value is the original string. */
  lemma QuotedTextLexesBack(s: string, rest: string)
    requires rest == "" || rest[0] != '\''
    ensures LexString(Quote(s) + rest) == Some((s, rest))
  {
    LexEscaped(s, rest);
    assert (Quote(s) + rest)[1..] == Escape(s) + "'" + rest;
  }

  lemma {:induction false} LexEscaped(s: string, rest: string)
    requires rest == "" || rest[0] != '\''
    ensures LexBody(Escape(s) + "'" + rest) == Some((s, rest))
  {
    var t := Escape(s) + "'" + rest;
    if s == "" {
      assert t == "'" + rest;
    } else {
      LexEscaped(s[1..], rest);
      var tail := Escape(s[1..]) + "'" + rest;
      if s[0] == '\'' {
        assert t == "''" + tail;
        assert t[2..] == tail;
      } else {
        assert t == [s[0]] + tail;
        assert t[1..] == tail;
      }
      assert [s[0]] + s[1..] == s;
    }
  }

  /** Quoting doubles each quote of a text and changes nothing else in it. */
  lemma QuotesAreDoubled(before: string, rest: string)
    requires '\'' !in before
    ensures Escape(before + "'" + rest) == before + "''" + Escape(rest)
    ensures Quote(before) == "'" + before + "'"
  {
    PlainTextStays(before, "'" + rest);
    PlainTextStays(before, "");
    assert before + "'" + rest == before + ("'" + rest);
    assert ("'" + rest)[1..] == rest;
    assert before + "" == before;
  }

  lemma {:induction false} PlainTextStays(before: string, rest: string)
    requires '\'' !in before
    ensures Escape(before + rest) == before + Escape(rest)
  {
    if before == "" {
      assert before + rest == rest;
    } else {
      PlainTextStays(before[1..], rest);
      assert (before + rest)[1..] == before[1..] + rest;
    }
  }
}
