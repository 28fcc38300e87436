/**
 * How bash reads one word of a command line, restricted to what the
 * provisioning commands use: single-quoted stretches, backslash escapes
 * outside quotes, and characters that stand for themselves inside a word.
 * The reading is `Literal(text)` when every unquoted character is one of
 * those, `OpenQuote` when a single quote is left open (bash then refuses the
 * whole line), and `Code` when an unquoted character is shell syntax or
 * starts an expansion (an operator, `$`, a backquote, a double quote, a
 * glob or brace character, a blank): what the line then does is not a
 * matter of reading one word.
 *
 * `create_or_update_remote_user` (api/app.py:125) wraps the chpasswd line
 * as `'{username}:{password}'`. The password alphabet contains `'`, so that
 * wrapping does not survive the shell; `QuoteArg` is the quoting that does.
 */
module Shell {
  import Text

  datatype Reading = Literal(text: string) | OpenQuote | Code

  /** Characters that stand for themselves outside quotes once a word has started, in a
      non-interactive bash (no history expansion): letters, digits and `_-.,:/@%+=!#^~]}`. */
  predicate IsLiteralChar(c: char) {
    Text.IsAsciiLetter(c) || Text.IsAsciiDigit(c)
    || c == '_' || c == '-' || c == '.' || c == ',' || c == ':' || c == '/' || c == '@' || c == '%' || c == '+' || c == '='
    || c == '!' || c == '#' || c == '^' || c == '~' || c == ']' || c == '}'
  }

  function Prepend(prefix: string, r: Reading): Reading {
    match r
    case Literal(t) => Literal(prefix + t)
    case _ => r
  }

  /** Quote removal inside one shell word; `inQuotes` says whether a single quote is open. */
  function Unquote(s: string, inQuotes: bool): Reading
    decreases |s|
  {
    if s == [] then (if inQuotes then OpenQuote else Literal([]))
    else if inQuotes then
      if s[0] == '\'' then Unquote(s[1..], false) else Prepend([s[0]], Unquote(s[1..], true))
    else if s[0] == '\'' then Unquote(s[1..], true)
    else if s[0] == '\\' then
      if |s| == 1 || s[1] == '\n' then Code else Prepend([s[1]], Unquote(s[2..], false))
    else if IsLiteralChar(s[0]) then Prepend([s[0]], Unquote(s[1..], false))
    else Code
  }

  /** The text bash passes on for the word `s`. A `#` or `~` that starts a word is a comment or a
      tilde expansion, not text. */
  function ShellWord(s: string): Reading {
    if s != [] && (s[0] == '#' || s[0] == '~') then Code else Unquote(s, false)
  }

  /** Within single quotes every character is literal except `'`, written `'\''`. */
  function EscapeQuotes(s: string): (r: string)
    ensures |r| >= |s|
  {
    if s == [] then []
    else (if s[0] == '\'' then "'\\''" else [s[0]]) + EscapeQuotes(s[1..])
  }

  /** Single-quote `s` so that the shell reads it back as exactly `s`. */
  function QuoteArg(s: string): string {
    "'" + EscapeQuotes(s) + "'"
  }

  /** The wrapping written at api/app.py:125: the text is put between single quotes as it is. */
  function QuoteArgAsWritten(s: string): string {
    "'" + s + "'"
  }

  lemma PrependAssoc(a: string, b: string, o: Reading)
    ensures Prepend(a, Prepend(b, o)) == Prepend(a + b, o)
  {
    if o.Literal? {
      assert a + (b + o.text) == (a + b) + o.text;
    }
  }

  /** Inside quotes, a quote-free stretch is taken literally. */
  lemma {:induction false} QuotedRun(p: string, rest: string)
    requires '\'' !in p
    ensures Unquote(p + rest, true) == Prepend(p, Unquote(rest, true))
  {
    if p == [] {
      assert p + rest == rest;
      if Unquote(rest, true).Literal? { assert p + Unquote(rest, true).text == Unquote(rest, true).text; }
    } else {
      assert p[0] in p;
      assert forall c :: c in p[1..] ==> c in p;
      var x := p + rest;
      assert x[0] == p[0] && x[1..] == p[1..] + rest;
      QuotedRun(p[1..], rest);
      PrependAssoc([p[0]], p[1..], Unquote(rest, true));
      assert [p[0]] + p[1..] == p;
    }
  }

  /** Outside quotes, a stretch of plain characters is taken literally. */
  lemma {:induction false} PlainRun(p: string, rest: string)
    requires forall i :: 0 <= i < |p| ==> IsLiteralChar(p[i])
    ensures Unquote(p + rest, false) == Prepend(p, Unquote(rest, false))
  {
    if p == [] {
      assert p + rest == rest;
      if Unquote(rest, false).Literal? { assert p + Unquote(rest, false).text == Unquote(rest, false).text; }
    } else {
      var x := p + rest;
      assert x[0] == p[0] && x[1..] == p[1..] + rest;
      assert IsLiteralChar(p[0]);
      PlainRun(p[1..], rest);
      PrependAssoc([p[0]], p[1..], Unquote(rest, false));
      assert [p[0]] + p[1..] == p;
    }
  }

  /** Inside quotes, `'\''` closes the quote, yields one literal `'` and reopens the quote. */
  lemma UnquoteEscapedQuote(tail: string)
    ensures Unquote("'\\''" + tail, true) == Prepend("'", Unquote(tail, true))
  {
    var x := "'\\''" + tail;
    assert x[0] == '\'' && x[1..] == "\\''" + tail;
    var y := "\\''" + tail;
    assert y[0] == '\\' && y[1] == '\'' && y[2..] == "'" + tail;
    var z := "'" + tail;
    assert z[0] == '\'' && z[1..] == tail;
    assert Unquote(z, false) == Unquote(tail, true);
    assert [y[1]] == "'";
    assert Unquote(y, false) == Prepend("'", Unquote(z, false));
    assert Unquote(x, true) == Unquote(y, false);
  }

  lemma UnquoteQuotedChar(c: char, tail: string)
    requires c != '\''
    ensures Unquote([c] + tail, true) == Prepend([c], Unquote(tail, true))
  {
    var x := [c] + tail;
    assert x[0] == c && x[1..] == tail;
  }

  lemma {:induction false} UnquoteEscaped(s: string, rest: string)
    ensures Unquote(EscapeQuotes(s) + "'" + rest, true) == Prepend(s, Unquote(rest, false))
  {
    if s == [] {
      var x := EscapeQuotes(s) + "'" + rest;
      assert x == "'" + rest;
      assert x[1..] == rest;
      assert Unquote(x, true) == Unquote(rest, false);
      if Unquote(rest, false).Literal? { assert s + Unquote(rest, false).text == Unquote(rest, false).text; }
    } else {
      var tail := EscapeQuotes(s[1..]) + "'" + rest;
      UnquoteEscaped(s[1..], rest);
      PrependAssoc([s[0]], s[1..], Unquote(rest, false));
      assert [s[0]] + s[1..] == s;
      var head := if s[0] == '\'' then "'\\''" else [s[0]];
      assert EscapeQuotes(s) == head + EscapeQuotes(s[1..]);
      assert EscapeQuotes(s) + "'" + rest == head + tail;
      if s[0] == '\'' {
        UnquoteEscapedQuote(tail);
      } else {
        UnquoteQuotedChar(s[0], tail);
      }
    }
  }

  /** Round trip: the shell reads a `QuoteArg`-quoted word back as the original text, whatever it holds. */
  lemma QuoteArgRoundTrip(s: string)
    ensures ShellWord(QuoteArg(s)) == Literal(s)
  {
    assert QuoteArg(s) == "'" + (EscapeQuotes(s) + "'" + []);
    assert QuoteArg(s)[1..] == EscapeQuotes(s) + "'" + [];
    UnquoteEscaped(s, []);
    assert s + [] == s;
  }

  /** As written, a quote-free text also survives the shell, so the defect only shows with `'`. */
  lemma {:induction false} AsWrittenQuoteFree(s: string)
    requires '\'' !in s
    ensures ShellWord(QuoteArgAsWritten(s)) == Literal(s)
  {
    EscapeQuotesQuoteFree(s);
    QuoteArgRoundTrip(s);
  }

  lemma {:induction false} EscapeQuotesQuoteFree(s: string)
    requires '\'' !in s
    ensures EscapeQuotes(s) == s
  {
    if s != [] {
      assert s[0] in s;
      assert forall c :: c in s[1..] ==> c in s;
      EscapeQuotesQuoteFree(s[1..]);
    }
  }

  /** What the shell passes on for `pw` in the as-written wrapping once everything before it was
      quote-free: `pw` is read inside the opening quote, and the closing `'` follows it. */
  function AsWrittenRead(pw: string): Reading {
    Unquote(pw + "'", true)
  }

  /** As written, a quote-free prefix is passed on as it is, followed by the reading of the rest. */
  lemma AsWrittenWord(p: string, pw: string)
    requires '\'' !in p
    ensures ShellWord(QuoteArgAsWritten(p + pw)) == Prepend(p, AsWrittenRead(pw))
  {
    var w := QuoteArgAsWritten(p + pw);
    assert w[0] == '\'' && w[1..] == p + (pw + "'");
    QuotedRun(p, pw + "'");
  }

  /** Quote removal drops every `'`, never adds a character, and yields only characters of its input. */
  lemma {:induction false} UnquoteShrinks(s: string, inQuotes: bool)
    requires Unquote(s, inQuotes).Literal?
    ensures |Unquote(s, inQuotes).text| + multiset(s)['\''] <= |s|
    ensures forall c :: c in Unquote(s, inQuotes).text ==> c in s
    decreases |s|
  {
    if s != [] {
      assert s == [s[0]] + s[1..];
      if (inQuotes && s[0] == '\'') || (!inQuotes && s[0] == '\'') {
        UnquoteShrinks(s[1..], !inQuotes);
      } else if !inQuotes && s[0] == '\\' {
        assert s[1..] == [s[1]] + s[2..];
        UnquoteShrinks(s[2..], false);
      } else {
        UnquoteShrinks(s[1..], inQuotes);
      }
    }
  }

  /** The as-written reading gives back the password exactly iff the password holds no `'`; the
      reading never introduces a line break. */
  lemma AsWrittenReadExact(pw: string)
    ensures AsWrittenRead(pw) == Literal(pw) <==> '\'' !in pw
    ensures '\n' !in pw && AsWrittenRead(pw).Literal? ==> '\n' !in AsWrittenRead(pw).text
  {
    if '\'' !in pw {
      QuotedRun(pw, "'");
      assert Unquote("'", true) == Literal([]) by { assert "'"[1..] == []; }
      assert pw + [] == pw;
    }
    if AsWrittenRead(pw).Literal? {
      UnquoteShrinks(pw + "'", true);
      assert multiset(pw + "'") == multiset(pw) + multiset{'\''};
      if '\n' in AsWrittenRead(pw).text {
        assert '\n' in pw + "'";
        assert '\n' in pw;
      }
    }
  }

  /** As written, a text with one `'` followed only by literal characters leaves a quote open: bash
      refuses the command line. */
  lemma AsWrittenOddQuote(a: string, b: string)
    requires '\'' !in a
    requires forall i :: 0 <= i < |b| ==> IsLiteralChar(b[i])
    ensures ShellWord(QuoteArgAsWritten(a + "'" + b)) == OpenQuote
  {
    var w := QuoteArgAsWritten(a + "'" + b);
    assert w[0] == '\'' && w[1..] == a + ("'" + (b + "'"));
    QuotedRun(a, "'" + (b + "'"));
    var r1 := "'" + (b + "'");
    assert r1[0] == '\'' && r1[1..] == b + "'";
    PlainRun(b, "'");
    assert Unquote("'", false) == Unquote([], true) by { assert "'"[1..] == []; }
  }

  /** As written, a text with two `'` around literal characters loses them to the shell: the line
      that reaches chpasswd differs from the intended one. */
  lemma AsWrittenEvenQuotes(a: string, b: string, c: string)
    requires '\'' !in a && '\'' !in c
    requires forall i :: 0 <= i < |b| ==> IsLiteralChar(b[i])
    ensures ShellWord(QuoteArgAsWritten(a + "'" + b + "'" + c)) == Literal(a + b + c)
  {
    var w := QuoteArgAsWritten(a + "'" + b + "'" + c);
    var r1 := "'" + (b + ("'" + (c + "'")));
    assert w[0] == '\'' && w[1..] == a + r1;
    QuotedRun(a, r1);
    assert r1[0] == '\'' && r1[1..] == b + ("'" + (c + "'"));
    PlainRun(b, "'" + (c + "'"));
    var r2 := "'" + (c + "'");
    assert r2[0] == '\'' && r2[1..] == c + "'";
    QuotedRun(c, "'");
    assert Unquote("'", true) == Literal([]) by { assert "'"[1..] == []; }
    assert c + [] == c;
    PrependAssoc(b, c, Literal([]));
    PrependAssoc(a, b + c, Literal([]));
    assert a + (b + c) == a + b + c;
  }

  /** As written, a character that is neither literal nor a quote nor a backslash, reached after an
      odd `'` of the password (a `;`, `|`, `&`, `$`, `*`, `(`, ...), is shell syntax or an expansion:
      the line holds shell code beyond the one word. */
  lemma AsWrittenShellCode(a: string, b: string, c: char, d: string)
    requires '\'' !in a
    requires forall i :: 0 <= i < |b| ==> IsLiteralChar(b[i])
    requires !IsLiteralChar(c) && c != '\'' && c != '\\'
    ensures AsWrittenRead(a + "'" + b + [c] + d) == Code
  {
    var r := "'" + (b + ([c] + (d + "'")));
    assert a + "'" + b + [c] + d + "'" == a + r;
    QuotedRun(a, r);
    assert r[0] == '\'' && r[1..] == b + ([c] + (d + "'"));
    PlainRun(b, [c] + (d + "'"));
    var t := [c] + (d + "'");
    assert t[0] == c;
  }
}
