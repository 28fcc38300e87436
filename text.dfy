/**
 * String helpers that the API applies to user input and to command output:
 * the username sanitiser `re.sub(r'[^a-zA-Z0-9_]', '', s)`, Python's
 * whitespace `str.split()`, and the PEM-text normalisation
 * `s.replace('\\n', '\n').replace('\\', '')`.
 */
module Text {

  predicate IsAsciiLetter(c: char) {
    ('a' <= c <= 'z') || ('A' <= c <= 'Z')
  }

  predicate IsAsciiDigit(c: char) {
    '0' <= c <= '9'
  }

  /** The characters the pattern `[^a-zA-Z0-9_]` does NOT match, i.e. the ones the sanitiser keeps. */
  predicate IsWordChar(c: char) {
    IsAsciiLetter(c) || IsAsciiDigit(c) || c == '_'
  }

  /** The characters Python's `str.isspace()` accepts, which `str.split()` separates on. */
  predicate IsSpace(c: char) {
    ('\t' <= c <= '\r') || ('\U{1C}' <= c <= ' ') || c == '\U{85}' || c == '\U{A0}'
    || c == '\U{1680}' || ('\U{2000}' <= c <= '\U{200A}') || c == '\U{2028}' || c == '\U{2029}'
    || c == '\U{202F}' || c == '\U{205F}' || c == '\U{3000}'
  }

  predicate AllWordChars(s: string) {
    forall i :: 0 <= i < |s| ==> IsWordChar(s[i])
  }

  // ---------------------------------------------------------------------------
  // Username sanitising (api/app.py:459)

  /** `re.sub(r'[^a-zA-Z0-9_]', '', s)`: keeps, in order, exactly the word characters of `s`. */
  function Sanitize(s: string): (r: string)
    ensures |r| <= |s|
    ensures AllWordChars(r)
  {
    if s == [] then []
    else (if IsWordChar(s[0]) then [s[0]] else []) + Sanitize(s[1..])
  }

  /** Sanitising distributes over concatenation: it acts on each character independently. */
  lemma {:induction false} SanitizeAppend(a: string, b: string)
    ensures Sanitize(a + b) == Sanitize(a) + Sanitize(b)
  {
    if a == [] {
      assert a + b == b;
    } else {
      var head := if IsWordChar(a[0]) then [a[0]] else [];
      assert (a + b)[0] == a[0];
      assert (a + b)[1..] == a[1..] + b;
      SanitizeAppend(a[1..], b);
      calc {
        Sanitize(a + b);
        head + Sanitize(a[1..] + b);
        head + (Sanitize(a[1..]) + Sanitize(b));
        (head + Sanitize(a[1..])) + Sanitize(b);
      }
    }
  }

  /** A string made of word characters only is left unchanged, and only such a string is. */
  lemma {:induction false} SanitizeFixpoint(s: string)
    ensures Sanitize(s) == s <==> AllWordChars(s)
  {
    if s != [] {
      SanitizeFixpoint(s[1..]);
      if !IsWordChar(s[0]) {
        assert |Sanitize(s)| < |s| by { assert Sanitize(s) == Sanitize(s[1..]); }
      }
    }
  }

  /** Sanitising leaves nothing exactly when the input holds no word character. */
  lemma {:induction false} SanitizeEmpty(s: string)
    ensures Sanitize(s) == [] <==> forall i :: 0 <= i < |s| ==> !IsWordChar(s[i])
  {
    if s != [] {
      SanitizeEmpty(s[1..]);
      if !IsWordChar(s[0]) {
        assert Sanitize(s) == Sanitize(s[1..]);
        assert forall i :: 1 <= i < |s| ==> s[i] == s[1..][i - 1];
      }
    }
  }

  /** Sanitising twice is sanitising once. */
  lemma SanitizeIdempotent(s: string)
    ensures Sanitize(Sanitize(s)) == Sanitize(s)
  {
    SanitizeFixpoint(Sanitize(s));
  }

  /** The sanitised string keeps every word character of the input, as often as it occurs there. */
  lemma {:induction false} SanitizeKeepsWordChars(s: string, c: char)
    requires IsWordChar(c)
    ensures multiset(Sanitize(s))[c] == multiset(s)[c]
  {
    if s != [] {
      SanitizeKeepsWordChars(s[1..], c);
      assert s == [s[0]] + s[1..];
    }
  }

  /** The position of the first occurrence of `c` in `s`. */
  function FirstIndex(s: string, c: char): (k: nat)
    requires c in s
    ensures k < |s| && s[k] == c
    ensures c !in s[..k]
  {
    if s[0] == c then 0 else 1 + FirstIndex(s[1..], c)
  }

  lemma {:induction false} FirstIndexAfter(a: string, c: char, b: string)
    requires c !in a
    ensures c in a + [c] + b
    ensures FirstIndex(a + [c] + b, c) == |a|
  {
    var x := a + [c] + b;
    assert x[|a|] == c;
    if a != [] {
      assert a[0] in a;
      assert forall d :: d in a[1..] ==> d in a;
      assert x[0] == a[0] && x[1..] == a[1..] + [c] + b;
      FirstIndexAfter(a[1..], c, b);
    }
  }

  // ---------------------------------------------------------------------------
  // Whitespace splitting (api/app.py:355-356)

  /** A token of `str.split()`: non-empty and free of whitespace. */
  predicate IsToken(w: string) {
    w != [] && forall i :: 0 <= i < |w| ==> !IsSpace(w[i])
  }

  /** Length of the run of non-space characters that starts `s`. */
  function TokenLength(s: string): (n: nat)
    ensures n <= |s|
    ensures forall i :: 0 <= i < n ==> !IsSpace(s[i])
    ensures n == |s| || IsSpace(s[n])
  {
    if s == [] || IsSpace(s[0]) then 0 else 1 + TokenLength(s[1..])
  }

  /** Python's `s.split()` with no separator: the maximal runs of non-space characters, in order. */
  function Words(s: string): (ws: seq<string>)
    ensures forall i :: 0 <= i < |ws| ==> IsToken(ws[i])
    decreases |s|
  {
    if s == [] then []
    else if IsSpace(s[0]) then Words(s[1..])
    else
      var n := TokenLength(s);
      [s[..n]] + Words(s[n..])
  }

  /** `' '.join(ws)`. */
  function JoinSpaced(ws: seq<string>): string {
    if ws == [] then []
    else if |ws| == 1 then ws[0]
    else ws[0] + " " + JoinSpaced(ws[1..])
  }

  lemma {:induction false} TokenLengthOfToken(w: string, rest: string)
    requires IsToken(w)
    requires rest == [] || IsSpace(rest[0])
    ensures TokenLength(w + rest) == |w|
    decreases |w|
  {
    var s := w + rest;
    assert s[0] == w[0];
    if |w| > 1 {
      assert s[1..] == w[1..] + rest;
      TokenLengthOfToken(w[1..], rest);
    } else {
      assert s[1..] == rest;
    }
  }

  /** Splitting a space-joined list of tokens gives the list back. */
  lemma {:induction false} WordsOfJoin(ws: seq<string>)
    requires forall i :: 0 <= i < |ws| ==> IsToken(ws[i])
    ensures Words(JoinSpaced(ws)) == ws
  {
    if ws == [] {
    } else if |ws| == 1 {
      var w := ws[0];
      TokenLengthOfToken(w, []);
      assert w + [] == w;
      assert w[..|w|] == w;
      assert w[|w|..] == [];
    } else {
      var w, rest := ws[0], JoinSpaced(ws[1..]);
      var s := w + " " + rest;
      assert s == w + (" " + rest);
      TokenLengthOfToken(w, " " + rest);
      assert s[..|w|] == w;
      assert s[|w|..] == " " + rest;
      assert (" " + rest)[1..] == rest;
      WordsOfJoin(ws[1..]);
      assert Words(" " + rest) == Words(rest);
    }
  }

  lemma {:induction false} TokenLengthAppendSpace(s: string, c: char)
    requires IsSpace(c)
    ensures TokenLength(s + [c]) == TokenLength(s)
  {
    if s == [] {
      assert s + [c] == [c];
    } else {
      assert (s + [c])[0] == s[0];
      assert (s + [c])[1..] == s[1..] + [c];
      TokenLengthAppendSpace(s[1..], c);
    }
  }

  /** Trailing whitespace (the newline that ends a command's output) does not change the words. */
  lemma {:induction false} WordsAppendSpace(s: string, c: char)
    requires IsSpace(c)
    ensures Words(s + [c]) == Words(s)
    decreases |s|
  {
    var x := s + [c];
    if s == [] {
      assert x == [c] && x[1..] == [];
    } else if IsSpace(s[0]) {
      assert x[0] == s[0] && x[1..] == s[1..] + [c];
      WordsAppendSpace(s[1..], c);
    } else {
      var n := TokenLength(s);
      assert x[0] == s[0];
      TokenLengthAppendSpace(s, c);
      assert x[..n] == s[..n];
      assert x[n..] == s[n..] + [c];
      WordsAppendSpace(s[n..], c);
    }
  }

  /** The membership test of `is_user_in_remote_group`: a name is one of the listed groups iff it
      is a token of their space-joined rendering. */
  lemma TokenMembership(ws: seq<string>, g: string)
    requires forall i :: 0 <= i < |ws| ==> IsToken(ws[i])
    ensures g in Words(JoinSpaced(ws)) <==> g in ws
  {
    WordsOfJoin(ws);
  }

  // ---------------------------------------------------------------------------
  // PEM text normalisation (api/app.py:78)

  /** `s.replace('\\n', '\n')`: each backslash-n pair, scanned left to right, becomes a newline. */
  function UnescapeNewlines(s: string): (r: string)
    ensures |r| <= |s|
  {
    if |s| >= 2 && s[0] == '\\' && s[1] == 'n' then "\n" + UnescapeNewlines(s[2..])
    else if s == [] then []
    else [s[0]] + UnescapeNewlines(s[1..])
  }

  /** `s.replace('\\', '')`: every backslash is removed. */
  function DropBackslashes(s: string): (r: string)
    ensures |r| <= |s|
    ensures '\\' !in r
  {
    if s == [] then []
    else (if s[0] == '\\' then [] else [s[0]]) + DropBackslashes(s[1..])
  }

  function NormalisePem(s: string): (r: string)
    ensures |r| <= |s|
    ensures '\\' !in r
  {
    DropBackslashes(UnescapeNewlines(s))
  }

  lemma {:induction false} UnescapeNewlinesIdentity(s: string)
    requires '\\' !in s
    ensures UnescapeNewlines(s) == s
  {
    if s != [] {
      assert s[0] in s;
      assert forall c :: c in s[1..] ==> c in s;
      UnescapeNewlinesIdentity(s[1..]);
    }
  }

  lemma {:induction false} DropBackslashesIdentity(s: string)
    requires '\\' !in s
    ensures DropBackslashes(s) == s
  {
    if s != [] {
      assert s[0] in s;
      assert forall c :: c in s[1..] ==> c in s;
      DropBackslashesIdentity(s[1..]);
    }
  }

  /** Text without backslashes is already normal, so normalising is idempotent. */
  lemma NormalisePemIdempotent(s: string)
    ensures '\\' !in s ==> NormalisePem(s) == s
    ensures NormalisePem(NormalisePem(s)) == NormalisePem(s)
  {
    if '\\' !in s {
      UnescapeNewlinesIdentity(s);
      DropBackslashesIdentity(s);
    }
    var t := NormalisePem(s);
    UnescapeNewlinesIdentity(t);
    DropBackslashesIdentity(t);
  }

  lemma {:induction false} UnescapeNewlinesAppend(a: string, b: string)
    requires '\\' !in a
    ensures UnescapeNewlines(a + b) == a + UnescapeNewlines(b)
  {
    if a != [] {
      assert a[0] in a;
      assert '\\' !in a[1..] by {
        assert forall c :: c in a[1..] ==> c in a;
      }
      var ab := a + b;
      assert ab[0] == a[0] != '\\';
      assert ab[1..] == a[1..] + b;
      calc {
        UnescapeNewlines(ab);
        [a[0]] + UnescapeNewlines(a[1..] + b);
        { UnescapeNewlinesAppend(a[1..], b); }
        [a[0]] + (a[1..] + UnescapeNewlines(b));
        { assert [a[0]] + a[1..] == a; }
        a + UnescapeNewlines(b);
      }
    } else {
      assert a + b == b;
    }
  }

  lemma {:induction false} DropBackslashesAppend(a: string, b: string)
    ensures DropBackslashes(a + b) == DropBackslashes(a) + DropBackslashes(b)
  {
    if a == [] {
      assert a + b == b;
    } else {
      var head: string := if a[0] == '\\' then [] else [a[0]];
      assert (a + b)[0] == a[0];
      assert (a + b)[1..] == a[1..] + b;
      assert DropBackslashes(a + b) == head + DropBackslashes(a[1..] + b);
      DropBackslashesAppend(a[1..], b);
      assert DropBackslashes(a) == head + DropBackslashes(a[1..]);
    }
  }

  /** A key stored with escaped line breaks (`line\nline`, a backslash then `n`) is restored to
      real line breaks. */
  lemma EscapedLineBreakRestored(a: string, b: string)
    requires '\\' !in a && '\\' !in b
    ensures NormalisePem(a + "\\n" + b) == a + "\n" + b
  {
    assert a + "\\n" + b == a + ("\\n" + b);
    UnescapeNewlinesAppend(a, "\\n" + b);
    assert ("\\n" + b)[2..] == b;
    UnescapeNewlinesIdentity(b);
    assert UnescapeNewlines(a + "\\n" + b) == a + "\n" + b;
    assert a + "\n" + b == a + ("\n" + b);
    DropBackslashesAppend(a, "\n" + b);
    DropBackslashesAppend("\n", b);
    DropBackslashesIdentity(a);
    DropBackslashesIdentity(b);
  }
}
