/** The lexer of the language (internal/parser/lexer.go).

    Go reads runes one at a time from a `bufio.Reader`, keeping a line/column
    position beside it. The model holds the whole input as a `string`; every
    scanning function takes the input and the index of the read head and
    returns the index where it stops, so "backing up" is simply not moving
    past a rune. `Lex` alone builds positions.

    Go's `read` panics at the end of input. Every token that needs one rune
    of lookahead then fails when it ends the input (`abc`, `123`, `+`),
    although the package's own tests expect them to lex. The authors evidently
    meant the end to read as NUL, which is what `lexComment` tests for, and the
    model reads it so: `At` gives NUL past the end, and reading there consumes
    nothing. The one read that cannot be answered that way is inside a string
    literal, where the model reports `UnterminatedString`. */
module Lexer {
  import opened Wrappers
  import opened Tokens

  const NUL: char := '\0'

  /** The rune the assignment switches look for after an operator. */
  const EQ: char := '='

  /** Letters and digits of the ASCII range; Go's `unicode` classes also
      accept other scripts. */
  predicate IsLetter(c: char) {
    'a' <= c <= 'z' || 'A' <= c <= 'Z'
  }

  predicate IsDigit(c: char) {
    '0' <= c <= '9'
  }

  /** `unicode.IsSpace` on the Latin-1 range. */
  predicate IsSpace(c: char) {
    c == ' ' || c == '\t' || c == '\n' || c == '\U{000B}' || c == '\U{000C}' || c == '\r'
    || c == '\U{0085}' || c == '\U{00A0}'
  }

  predicate IsIdentChar(c: char) {
    IsLetter(c) || IsDigit(c) || c == '_'
  }

  predicate IsDigitOrUnderscore(c: char) {
    IsDigit(c) || c == '_'
  }

  /** The whitespace `Lex` skips between tokens: every space but newline. */
  predicate IsBlank(c: char) {
    IsSpace(c) && c != '\n'
  }

  predicate AllDigits(s: string) {
    forall c <- s :: IsDigit(c)
  }

  /** The rune under the read head at `i`; past the end it reads as NUL. */
  function At(s: string, i: nat): char {
    if i < |s| then s[i] else NUL
  }

  /** The read head after reading one rune at `i`: reading at the end of
      input consumes nothing. */
  function Step(s: string, i: nat): nat {
    if i < |s| then i + 1 else i
  }

  /* ---------------------------------------------------------------------
     Runs of runes: digits, identifiers, numbers
     --------------------------------------------------------------------- */

  /** The end of the longest run of runes from `i` that satisfy `p`. */
  function Span(s: string, i: nat, p: char -> bool): (j: nat)
    requires i <= |s|
    ensures i <= j <= |s|
    ensures forall k | i <= k < j :: p(s[k])
    ensures j == |s| || !p(s[j])
    decreases |s| - i
  {
    if i < |s| && p(s[i]) then Span(s, i + 1, p) else i
  }

  /** `s` with every `x` removed. */
  function Strip(s: string, x: char): (r: string)
    ensures forall c :: c in r <==> c in s && c != x
    ensures |r| <= |s|
  {
    if s == [] then ""
    else (if s[0] == x then "" else [s[0]]) + Strip(s[1..], x)
  }

  lemma {:induction false} StripAppend(a: string, b: string, x: char)
    ensures Strip(a + b, x) == Strip(a, x) + Strip(b, x)
    decreases |a|
  {
    if a != [] {
      assert (a + b)[0] == a[0] && (a + b)[1..] == a[1..] + b;
      calc {
        Strip(a + b, x);
        (if a[0] == x then "" else [a[0]]) + Strip(a[1..] + b, x);
        { StripAppend(a[1..], b, x); }
        (if a[0] == x then "" else [a[0]]) + (Strip(a[1..], x) + Strip(b, x));
      }
    } else {
      assert a + b == b;
    }
  }

  /** Stripping underscores from a text split around a `.` at `k`. */
  lemma StripAroundDot(s: string, i: nat, k: nat, j: nat)
    requires i <= k < j <= |s| && s[k] == '.'
    ensures Strip(s[i..j], '_') == Strip(s[i..k], '_') + "." + Strip(s[k + 1..j], '_')
  {
    assert s[i..j] == s[i..k] + "." + s[k + 1..j];
    assert Strip(".", '_') == ".";
    StripAppend(s[i..k] + ".", s[k + 1..j], '_');
    StripAppend(s[i..k], ".", '_');
  }

  /** `digits`: the run of digits and underscores at `i`, and its digits
      with the underscores skipped. */
  function Digits(s: string, i: nat): (r: (string, nat))
    requires i <= |s|
    ensures i <= r.1 <= |s|
    ensures r.0 == Strip(s[i..r.1], '_')
    ensures AllDigits(r.0)
    ensures forall k | i <= k < r.1 :: IsDigitOrUnderscore(s[k])
    ensures !IsDigitOrUnderscore(At(s, r.1))
  {
    var j := Span(s, i, IsDigitOrUnderscore);
    assert forall c <- s[i..j] :: IsDigitOrUnderscore(c);
    (Strip(s[i..j], '_'), j)
  }

  /** `lexIdent`: the run of letters, digits and underscores at `i`. */
  function LexIdent(s: string, i: nat): (r: (string, nat))
    requires i <= |s|
    ensures i <= r.1 <= |s| && r.0 == s[i..r.1]
    ensures forall c <- r.0 :: IsIdentChar(c)
    ensures !IsIdentChar(At(s, r.1))
  {
    var j := Span(s, i, IsIdentChar);
    (s[i..j], j)
  }

  /** `lexIdent` as written: `read` panics at the end of input instead of
      returning a rune that stops the loop, so a word that runs to the end
      of input is never returned. `None` stands for the panic. */
  function LexIdentAsWritten(s: string, i: nat): (r: Option<(string, nat)>)
    requires i <= |s|
    ensures r.None? <==> forall k | i <= k < |s| :: IsIdentChar(s[k])
    ensures r.Some? ==> i <= r.value.1 < |s| && !IsIdentChar(s[r.value.1]) && r.value.0 == s[i..r.value.1]
  {
    var j := Span(s, i, IsIdentChar);
    if j == |s| then None else Some((s[i..j], j))
  }

  /** A word that ends the input, such as `abc` on its own: the code as
      written panics, while the corrected reader returns the whole word. */
  lemma IdentAtEndFinding(w: string)
    requires forall c <- w :: IsIdentChar(c)
    ensures LexIdentAsWritten(w, 0).None?
    ensures LexIdent(w, 0) == (w, |w|)
  {
    SpanExact(w, 0, |w|, IsIdentChar);
    assert w[0..|w|] == w;
  }

  /** A FLOAT literal: digits, one `.`, digits. */
  predicate IsFloatLiteral(lit: string) {
    exists k :: 0 <= k < |lit| && lit[k] == '.' && AllDigits(lit[..k]) && AllDigits(lit[k + 1..])
  }

  lemma DotJoin(whole: string, fraction: string)
    requires AllDigits(whole) && AllDigits(fraction)
    ensures IsFloatLiteral(whole + "." + fraction) && '.' in whole + "." + fraction
  {
    var lit := whole + "." + fraction;
    assert lit[|whole|] == '.' && lit[..|whole|] == whole && lit[|whole| + 1..] == fraction;
  }

  /** `lexNumber`: an integer part, then optionally a `.` and a fraction; a
      leading `.` makes a FLOAT of the fraction alone. The literal is the
      text read with its underscores dropped, and the scan stops at the first
      rune that cannot continue it, a second `.` included. */
  function LexNumber(s: string, i: nat): (r: (Token, string, nat))
    requires i <= |s|
    ensures i <= r.2 <= |s|
    ensures r.0 in {INT, FLOAT}
    ensures r.1 == Strip(s[i..r.2], '_')
    ensures r.0 == INT ==> AllDigits(r.1) && '.' !in r.1 && At(s, r.2) != '.'
    ensures r.0 == FLOAT ==> IsFloatLiteral(r.1) && '.' in r.1
    ensures !IsDigitOrUnderscore(At(s, r.2))
  {
    if At(s, i) == '.' then
      var (fraction, j) := Digits(s, i + 1);
      StripAroundDot(s, i, i, j);
      DotJoin("", fraction);
      assert "" + "." + fraction == "." + fraction;
      (FLOAT, "." + fraction, j)
    else
      var (whole, k) := Digits(s, i);
      if At(s, k) == '.' then
        var (fraction, j) := Digits(s, k + 1);
        StripAroundDot(s, i, k, j);
        DotJoin(whole, fraction);
        (FLOAT, whole + "." + fraction, j)
      else
        (INT, whole, k)
  }

  /* ---------------------------------------------------------------------
     String literals
     --------------------------------------------------------------------- */

  predicate IsQuote(c: char) {
    c == '"' || c == '\''
  }

  /** The rune an escape letter stands for: `\n`, `\t` and `\r` are control
      runes, and every other escaped rune (`\\`, `\'`, `\"` among them) stands
      for itself. */
  function Unescape(c: char): char {
    if c == 'n' then '\n' else if c == 't' then '\t' else if c == 'r' then '\r' else c
  }

  /** `lexEscaped`, entered on the rune after a backslash. `\x` keeps its
      digits undecoded, backslash included. */
  function LexEscaped(s: string, i: nat): (r: (string, nat))
    requires i < |s|
    ensures i < r.1 <= |s|
    ensures s[i] != 'x' ==> r.0 == [Unescape(s[i])] && r.1 == i + 1
    ensures s[i] == 'x' ==> |r.0| >= 2 && r.0[..2] == "\\x" && AllDigits(r.0[2..])
  {
    if s[i] == 'x' then
      var (d, j) := Digits(s, i + 1);
      assert ("\\x" + d)[..2] == "\\x" && ("\\x" + d)[2..] == d;
      ("\\x" + d, j)
    else
      ([Unescape(s[i])], i + 1)
  }

  /** The body of a string literal quoted by `q`, read from `i` up to and
      including the closing quote: the decoded text and the index after the
      quote, or `None` when the input ends first. */
  function StringBody(s: string, i: nat, q: char): (r: Option<(string, nat)>)
    requires i <= |s|
    ensures r.Some? ==> i < r.value.1 <= |s| && s[r.value.1 - 1] == q
    decreases |s| - i
  {
    if i == |s| then None
    else if s[i] == '\\' then
      if i + 1 == |s| then None
      else
        var (e, j) := LexEscaped(s, i + 1);
        var (t, k) :- StringBody(s, j, q);
        Some((e + t, k))
    else if s[i] == q then Some(("", i + 1))
    else
      var (t, k) :- StringBody(s, i + 1, q);
      Some(([s[i]] + t, k))
  }

  /** `lexString`: a literal quoted by `"` or `'`, escapes decoded. A rune
      other than a quote starts no string, and nothing is read. */
  function LexString(s: string, i: nat): (r: Option<(string, nat)>)
    requires i <= |s|
    ensures !IsQuote(At(s, i)) ==> r == Some(("", i))
    ensures IsQuote(At(s, i)) && r.Some? ==> i + 2 <= r.value.1 <= |s| && s[r.value.1 - 1] == s[i]
  {
    if !IsQuote(At(s, i)) then Some(("", i))
    else StringBody(s, i + 1, s[i])
  }

  /** The runes a writer must escape inside a string literal: the
      backslash, both quotes and the three control runes `Unescape` yields. */
  predicate NeedsEscape(c: char) {
    c == '\\' || c == '"' || c == '\'' || c == '\n' || c == '\t' || c == '\r'
  }

  /** The letter written after the backslash for a rune that needs an
      escape. */
  function EscapeLetter(c: char): char {
    if c == '\n' then 'n' else if c == '\t' then 't' else if c == '\r' then 'r' else c
  }

  /** How a writer escapes one rune so that `lexString` reads it back. */
  function EscapeRune(c: char): string {
    if NeedsEscape(c) then ['\\', EscapeLetter(c)] else [c]
  }

  function Escape(s: string): string {
    if s == [] then "" else EscapeRune(s[0]) + Escape(s[1..])
  }

  /** `EscapeRune` writes a rune either as itself (when it is neither a
      backslash nor a quote) or as a backslash and a letter that `Unescape`
      maps back to it; the letter is never `x`. */
  lemma EscapeRuneShape(c: char)
    ensures var e := EscapeRune(c);
      (e == [c] && c != '\\' && !IsQuote(c)) ||
      (|e| == 2 && e[0] == '\\' && e[1] != 'x' && Unescape(e[1]) == c)
  {
  }

  /** `w` occurs in `s` at index `i`. */
  predicate OccursAt(s: string, i: nat, w: string) {
    i + |w| <= |s| && s[i..i + |w|] == w
  }

  lemma OccursAtAppend(s: string, i: nat, a: string, b: string)
    requires OccursAt(s, i, a + b)
    ensures OccursAt(s, i, a) && OccursAt(s, i + |a|, b)
  {
    assert s[i..i + |a|] == (a + b)[..|a|];
    assert s[i + |a|..i + |a| + |b|] == (a + b)[|a|..];
  }

  /** How a string body quoted by `q` may write the rune `c`: as the rune
      itself, or as a backslash and a letter other than `x` that unescapes
      to it. */
  predicate WritesRune(e: string, c: char, q: char) {
    (e == [c] && c != '\\' && c != q) || (|e| == 2 && e[0] == '\\' && e[1] != 'x' && Unescape(e[1]) == c)
  }

  /** One rune `c` of a string body, written as `e`, then the rest. */
  lemma StringBodyStep(s: string, i: nat, q: char, c: char, e: string, t: string, k: nat)
    requires OccursAt(s, i, e) && WritesRune(e, c, q)
    requires StringBody(s, i + |e|, q) == Some((t, k))
    ensures StringBody(s, i, q) == Some(([c] + t, k))
  {
    assert s[i] == e[0];
    if |e| == 2 {
      assert s[i + 1] == e[1];
    }
  }

  /** An escaped text followed by the closing quote reads back as the text,
      and the read head ends just after the quote. */
  lemma {:induction false} StringBodyRoundTrip(s: string, i: nat, q: char, t: string)
    requires IsQuote(q) && OccursAt(s, i, Escape(t) + [q])
    ensures StringBody(s, i, q) == Some((t, i + |Escape(t)| + 1))
    decreases |t|
  {
    if |t| == 0 {
      RoundTripBase(s, i, q, t);
    } else {
      OccursTail(s, i, q, t);
      StringBodyRoundTrip(s, i + |EscapeRune(t[0])|, q, t[1..]);
      StringBodyCons(s, i, q, t, i + |Escape(t)| + 1);
    }
  }

  /** The base case of `StringBodyRoundTrip`: the empty text escapes to
      nothing, so the read head is on the closing quote. */
  lemma RoundTripBase(s: string, i: nat, q: char, t: string)
    requires |t| == 0 && IsQuote(q) && OccursAt(s, i, Escape(t) + [q])
    ensures StringBody(s, i, q) == Some((t, i + |Escape(t)| + 1))
  {
    assert s[i] == q by {
      assert Escape(t) + [q] == [q];
      assert s[i] == (Escape(t) + [q])[0];
    }
    StringBodyClose(s, i, q);
  }

  /** The closing quote ends the body, and the text read so far is empty. */
  lemma StringBodyClose(s: string, i: nat, q: char)
    requires IsQuote(q) && i < |s| && s[i] == q
    ensures StringBody(s, i, q) == Some(("", i + 1))
  {
  }

  /** An escaped text starts with the escape of its first rune and goes on
      with the escape of the rest. */
  lemma OccursTail(s: string, i: nat, q: char, t: string)
    requires t != [] && OccursAt(s, i, Escape(t) + [q])
    ensures OccursAt(s, i, EscapeRune(t[0]))
    ensures OccursAt(s, i + |EscapeRune(t[0])|, Escape(t[1..]) + [q])
    ensures |EscapeRune(t[0])| + |Escape(t[1..])| == |Escape(t)|
  {
    EscapeFirst(t, q);
    OccursAtAppend(s, i, EscapeRune(t[0]), Escape(t[1..]) + [q]);
  }

  /** The step of `StringBodyRoundTrip`: the escape of the first rune, then
      a body that reads back as the rest of the text. */
  lemma StringBodyCons(s: string, i: nat, q: char, t: string, k: nat)
    requires t != [] && IsQuote(q) && OccursAt(s, i, EscapeRune(t[0]))
    requires StringBody(s, i + |EscapeRune(t[0])|, q) == Some((t[1..], k))
    ensures StringBody(s, i, q) == Some((t, k))
  {
    EscapedRune(t[0], q);
    assert [t[0]] + t[1..] == t;
    StringBodyStep(s, i, q, t[0], EscapeRune(t[0]), t[1..], k);
  }

  /** An escaped text is the escape of its first rune, then the rest. */
  lemma EscapeFirst(t: string, q: char)
    requires t != []
    ensures Escape(t) + [q] == EscapeRune(t[0]) + (Escape(t[1..]) + [q])
  {
  }


  /** `EscapeRuneShape`, in the form a string body quoted by `q` reads. */
  lemma EscapedRune(c: char, q: char)
    requires IsQuote(q)
    ensures WritesRune(EscapeRune(c), c, q)
  {
    EscapeRuneShape(c);
  }

  /** A literal written with `Escape` between two equal quotes lexes back to
      the original text, whatever follows it. */
  lemma StringRoundTrip(q: char, t: string, rest: string)
    requires IsQuote(q)
    ensures LexString([q] + Escape(t) + [q] + rest, 0) == Some((t, |Escape(t)| + 2))
  {
    var s := [q] + Escape(t) + [q] + rest;
    assert s[1..1 + |Escape(t) + [q]|] == Escape(t) + [q];
    StringBodyRoundTrip(s, 1, q, t);
  }

  /** `lexString` as written: on a backslash it backs up before calling
      `lexEscaped`, which then reads the backslash itself and yields a
      backslash. No escape is ever decoded, and `\"` ends a `"` literal. */
  function StringBodyAsWritten(s: string, i: nat, q: char): (r: Option<(string, nat)>)
    requires i <= |s|
    ensures r.Some? ==> i < r.value.1 <= |s| && s[r.value.1 - 1] == q
    ensures r.Some? ==> r.value.0 == s[i..r.value.1 - 1]
    decreases |s| - i
  {
    if i == |s| then None
    else if s[i] == '\\' then
      var (t, k) :- StringBodyAsWritten(s, i + 1, q);
      Some(("\\" + t, k))
    else if s[i] == q then Some(("", i + 1))
    else
      var (t, k) :- StringBodyAsWritten(s, i + 1, q);
      Some(([s[i]] + t, k))
  }

  /** The escape test of the lexer's test suite: `"a\"\\b"` should read as
      `a"\b`. As written the literal stops at the escaped quote and keeps the
      backslash; the corrected body decodes both escapes. */
  lemma StringEscapeFinding()
    ensures StringBodyAsWritten("\"a\\\"\\\\b\"", 1, '"') == Some(("a\\", 4))
    ensures StringBody("\"a\\\"\\\\b\"", 1, '"') == Some(("a\"\\b", 8))
  {
    var s := "\"a\\\"\\\\b\"";
    assert s[1..3] == "a\\";
    assert Escape("a\"\\b") == "a\\\"\\\\b";
    StringRoundTrip('"', "a\"\\b", "");
    assert s == "\"" + Escape("a\"\\b") + "\"" + "";
  }

  /* ---------------------------------------------------------------------
     Comments
     --------------------------------------------------------------------- */

  /** `lexComment`, entered just after the `/` that `Lex` read: a second `/`
      starts a line comment and `*` a block comment; any other rune is read
      and gives an empty literal. */
  function LexComment(s: string, i: nat): (r: (string, nat))
    requires i <= |s|
    ensures Step(s, i) <= r.1 <= |s|
    decreases |s| - i
  {
    if i == |s| then ("", i)
    else if s[i] == '/' then LineComment(s, i + 1)
    else if s[i] == '*' then BlockComment(s, i + 1)
    else ("", i + 1)
  }

  /** The line-comment loop: runes up to a newline, a NUL or the end of
      input. The newline is read, and the comment may continue on the next
      line. */
  function LineComment(s: string, i: nat): (r: (string, nat))
    requires i <= |s|
    ensures i <= r.1 <= |s|
    decreases |s| - i
  {
    if i == |s| then ("", i)
    else if s[i] == '\n' then CommentContinuation(s, i + 1)
    else if s[i] == NUL then ("", i + 1)
    else
      var (t, j) := LineComment(s, i + 1);
      ([s[i]] + t, j)
  }

  /** After the newline that ends a line comment: spaces are skipped, and a
      `/` makes the next comment part of this one, joined by an escaped
      newline `\\n`. A second newline or any other rune ends the comment
      without being read. */
  function CommentContinuation(s: string, i: nat): (r: (string, nat))
    requires i <= |s|
    ensures i <= r.1 <= |s|
    decreases |s| - i
  {
    if i == |s| || s[i] == '\n' then ("", i)
    else if IsSpace(s[i]) then CommentContinuation(s, i + 1)
    else if s[i] == '/' then
      var (t, j) := LexComment(s, i + 1);
      ("\\n" + t, j)
    else ("", i)
  }

  /** The block-comment loop: runes up to `*` `/`, a NUL or the end of input.
      Newlines are kept; a `*` that does not close the comment is dropped. */
  function BlockComment(s: string, i: nat): (r: (string, nat))
    requires i <= |s|
    ensures i <= r.1 <= |s|
    ensures '*' !in r.0
    decreases |s| - i
  {
    if i == |s| then ("", i)
    else if s[i] == '*' then
      if At(s, i + 1) == '/' then ("", i + 2) else BlockComment(s, i + 1)
    else if s[i] == NUL then ("", i + 1)
    else
      var (t, j) := BlockComment(s, i + 1);
      ([s[i]] + t, j)
  }

  /** A line comment with no newline and no NUL reads to the end of input,
      and its literal is the text itself. */
  lemma {:induction false} LineCommentToEnd(s: string, i: nat)
    requires i <= |s|
    requires forall k | i <= k < |s| :: s[k] != '\n' && s[k] != NUL
    ensures LineComment(s, i) == (s[i..], |s|)
    decreases |s| - i
  {
    if i < |s| {
      LineCommentToEnd(s, i + 1);
      assert s[i..] == [s[i]] + s[i + 1..];
    }
  }

  /** A block comment whose text has no `*` and no NUL reads back as that
      text, and the read head ends after the closing `*` `/`. */
  lemma {:induction false} BlockCommentClosed(s: string, i: nat, t: string)
    requires OccursAt(s, i, t + "*/")
    requires forall k | 0 <= k < |t| :: t[k] != '*' && t[k] != NUL
    ensures BlockComment(s, i) == (t, i + |t| + 2)
    decreases |t|
  {
    if t == [] {
      assert s[i] == (t + "*/")[0] && s[i + 1] == (t + "*/")[1];
    } else {
      assert t + "*/" == [t[0]] + (t[1..] + "*/");
      OccursAtAppend(s, i, [t[0]], t[1..] + "*/");
      BlockCommentClosed(s, i + 1, t[1..]);
      assert s[i] == t[0];
      assert [t[0]] + t[1..] == t;
    }
  }

  /** A run of line comments as written, from just after the first `/`:
      each line after the first starts with `//` on the next line. */
  function CommentRun(ts: seq<string>): string
    requires ts != []
  {
    if |ts| == 1 then "/" + ts[0] else "/" + ts[0] + "\n/" + CommentRun(ts[1..])
  }

  /** The lines of a comment joined by the escaped newline `\\n`. */
  function JoinEscaped(ts: seq<string>): string
    requires ts != []
  {
    if |ts| == 1 then ts[0] else ts[0] + ("\\n" + JoinEscaped(ts[1..]))
  }

  /** The text of a comment line: no newline and no NUL. */
  predicate CommentText(t: string) {
    forall k | 0 <= k < |t| :: t[k] != '\n' && t[k] != NUL
  }

  /** A line comment whose text `t` ends at a newline reads `t` and goes on
      with the continuation after the newline. */
  lemma {:induction false} LineCommentToNewline(s: string, i: nat, t: string)
    requires OccursAt(s, i, t + "\n") && CommentText(t)
    ensures LineComment(s, i).0 == t + CommentContinuation(s, i + |t| + 1).0
    ensures LineComment(s, i).1 == CommentContinuation(s, i + |t| + 1).1
    decreases |t|
  {
    if t == [] {
      assert s[i] == (t + "\n")[0];
    } else {
      assert t + "\n" == [t[0]] + (t[1..] + "\n");
      OccursAtAppend(s, i, [t[0]], t[1..] + "\n");
      LineCommentToNewline(s, i + 1, t[1..]);
      assert s[i] == t[0];
      assert [t[0]] + t[1..] == t;
    }
  }

  /** Reading `a` off the front of `s[i..]` leaves `b`. */
  lemma SuffixSplit(s: string, i: nat, a: string, b: string)
    requires i <= |s| && s[i..] == a + b
    ensures OccursAt(s, i, a) && s[i + |a|..] == b
  {
    assert s[i..i + |a|] == (a + b)[..|a|];
    assert s[i + |a|..] == (a + b)[|a|..];
  }

  /** A line comment whose text is the rest of the input reads all of it. */
  lemma LineCommentIsText(s: string, i: nat, t: string)
    requires i <= |s| && s[i..] == t && CommentText(t)
    ensures LineComment(s, i) == (t, |s|)
  {
    forall k | i <= k < |s|
      ensures s[k] != '\n' && s[k] != NUL
    {
      assert s[k] == t[k - i];
    }
    LineCommentToEnd(s, i);
  }

  /** The runes of one line of a run: its `/`, its text, the newline and
      the first `/` of the next line. */
  lemma CommentLineLayout(s: string, i: nat, t: string)
    requires OccursAt(s, i, "/" + t + "\n/")
    ensures s[i] == '/' && OccursAt(s, i + 1, t + "\n") && s[i + |t| + 2] == '/'
  {
    var w := "/" + t + "\n/";
    assert s[i] == w[0];
    forall k | 0 <= k < |t| + 1
      ensures s[i + 1 + k] == (t + "\n")[k]
    {
      assert s[i + 1 + k] == s[i..i + |w|][1 + k];
    }
    assert s[i + 1..i + |t| + 2] == t + "\n";
    assert s[i + |t| + 2] == w[|t| + 2];
  }

  /** Blanks at the start of the line after a line comment are skipped: the
      comment continues, or ends, as if they were not there. */
  lemma {:induction false} ContinuationSkipsBlanks(s: string, j: nat, b: string)
    requires OccursAt(s, j, b) && forall k | 0 <= k < |b| :: IsBlank(b[k])
    ensures CommentContinuation(s, j) == CommentContinuation(s, j + |b|)
    decreases |b|
  {
    if b != [] {
      assert s[j] == s[j..j + |b|][0] == b[0];
      assert OccursAt(s, j + 1, b[1..]) by {
        assert s[j + 1..j + |b|] == s[j..j + |b|][1..];
      }
      ContinuationSkipsBlanks(s, j + 1, b[1..]);
    }
  }

  /** Consecutive line comments, each `//` on the line after the last, read
      as one literal whose lines are joined by the escaped newline `\\n`,
      and the whole input is read. */
  lemma {:induction false} LineCommentsJoined(s: string, i: nat, ts: seq<string>)
    requires ts != [] && forall n | 0 <= n < |ts| :: CommentText(ts[n])
    requires i <= |s| && s[i..] == CommentRun(ts)
    ensures LexComment(s, i) == (JoinEscaped(ts), |s|)
    decreases |ts|
  {
    var t := ts[0];
    assert CommentText(t);
    if |ts| == 1 {
      SuffixSplit(s, i, "/", t);
      assert s[i] == s[i..i + 1][0];
      LineCommentIsText(s, i + 1, t);
    } else {
      SuffixSplit(s, i, "/" + t + "\n/", CommentRun(ts[1..]));
      CommentLineLayout(s, i, t);
      LineCommentToNewline(s, i + 1, t);
      LineCommentsJoined(s, i + |t| + 3, ts[1..]);
    }
  }

  /** The lexer test's run of three line comments, entered after the first
      `/`. */
  lemma ThreeLineComments()
    ensures LexComment("/abc\n/" + "/def\n/" + "/ghi", 0) == ("abc\\ndef\\nghi", 16)
  {
    var ts := ["abc", "def", "ghi"];
    assert CommentRun(ts) == "/abc\n/" + "/def\n/" + "/ghi";
    assert JoinEscaped(ts) == "abc\\ndef\\nghi";
    assert forall n | 0 <= n < |ts| :: CommentText(ts[n]);
    LineCommentsJoined("/abc\n/" + "/def\n/" + "/ghi", 0, ts);
  }

  /* ---------------------------------------------------------------------
     Operators and delimiters
     --------------------------------------------------------------------- */

  /** The tokens spelled with punctuation: every operator and delimiter
      between `operator_beg` and `keyword_beg` except the range markers. */
  predicate IsPunctuation(t: Token) {
    OperatorBeg < t < KeywordBeg && t !in {OperatorEnd, ComparatorBeg, ComparatorEnd, AssignBeg, AssignEnd}
  }

  /** `assignSwitch`, entered after the first rune: `tok1` if an `=` follows
      (and is read), `tok0` otherwise. */
  function AssignSwitch(tok0: Token, tok1: Token, s: string, k: nat): (r: (Token, nat))
    requires k <= |s|
    ensures r.1 == k || r.1 == k + 1
    ensures r.1 == k + 1 <==> At(s, k) == EQ
    ensures r.1 <= |s|
    ensures r.0 == (if r.1 == k + 1 then tok1 else tok0)
  {
    if At(s, k) == EQ then (tok1, k + 1) else (tok0, k)
  }

  /** `assignDupeSingleSwitch`: `tok1` for a following `=`, `tok2` for a
      doubled first rune, `tok0` otherwise. */
  function AssignDupeSingleSwitch(tok0: Token, tok1: Token, ch2: char, tok2: Token, s: string, k: nat): (r: (Token, nat))
    requires k <= |s| && ch2 != NUL
    ensures r.1 == k || r.1 == k + 1
    ensures r.1 == k + 1 <==> At(s, k) == EQ || At(s, k) == ch2
    ensures r.1 <= |s|
    ensures r.0 == (if r.1 == k then tok0 else if s[k] == EQ then tok1 else tok2)
  {
    if At(s, k) == EQ then (tok1, k + 1)
    else if At(s, k) == ch2 then (tok2, k + 1)
    else (tok0, k)
  }

  /** `assignDupeSwitch`: as `assignDupeSingleSwitch`, and a doubled rune
      followed by `=` gives `tok3`. */
  function AssignDupeSwitch(tok0: Token, tok1: Token, ch2: char, tok2: Token, tok3: Token, s: string, k: nat): (r: (Token, nat))
    requires k <= |s| && ch2 != NUL
    ensures k <= r.1 <= k + 2 && r.1 <= |s|
    ensures r.1 > k <==> At(s, k) == EQ || At(s, k) == ch2
    ensures r.1 == k + 2 <==> At(s, k) != EQ && At(s, k) == ch2 && At(s, k + 1) == EQ
    ensures r.0 == (if r.1 == k then tok0 else if s[k] == EQ then tok1 else if r.1 == k + 2 then tok3 else tok2)
  {
    if At(s, k) == EQ then (tok1, k + 1)
    else if At(s, k) == ch2 then
      if At(s, k + 1) == EQ then (tok3, k + 2) else (tok2, k + 1)
    else (tok0, k)
  }

  /** The operator and delimiter cases of `Lex`'s switch, from the rune at
      `i`. The text read is the token's spelling, except that `...` reads
      its third rune without looking at it; any other rune is ILLEGAL. */
  function LexOperator(s: string, i: nat): (r: (Token, nat))
    requires i < |s|
    ensures i < r.1 <= |s|
    ensures r.0 == ILLEGAL || IsPunctuation(r.0)
    ensures r.0 == ILLEGAL ==> r.1 == i + 1
    ensures r.0 == ELLIPSIS ==> i + 2 <= |s| && s[i] == s[i + 1] == '.' && r.1 == Step(s, i + 2)
  {
    var k := i + 1;
    match s[i]
    case '&' => if At(s, k) == '&' then (AND, k + 1) else (ILLEGAL, k)
    case '|' => if At(s, k) == '|' then (OR, k + 1) else (ILLEGAL, k)
    case '+' => AssignDupeSingleSwitch(ADD, ADD_ASSIGN, '+', INC, s, k)
    case '-' => AssignDupeSingleSwitch(SUB, SUB_ASSIGN, '-', DEC, s, k)
    case '*' => AssignDupeSwitch(MUL, MUL_ASSIGN, '*', PWR, PWR_ASSIGN, s, k)
    case '/' => AssignSwitch(QUO, QUO_ASSIGN, s, k)
    case '%' => AssignSwitch(REM, REM_ASSIGN, s, k)
    case '=' => AssignSwitch(ASSIGN, EQUALS, s, k)
    case '<' => AssignSwitch(LESS, LESS_EQUAL, s, k)
    case '>' => AssignSwitch(GREATER, GREATER_EQUAL, s, k)
    case '!' => AssignSwitch(NOT, NOT_EQUALS, s, k)
    case '.' => if At(s, k) == '.' then (ELLIPSIS, Step(s, k + 1)) else (PERIOD, k)
    case ',' => (COMMA, k)
    case ';' => (SEMICOLON, k)
    case ':' => AssignSwitch(COLON, DEFINE, s, k)
    case '?' => (QUESTION, k)
    case '{' => (LCURLY, k)
    case '}' => (RCURLY, k)
    case '[' => (LSQUARE, k)
    case ']' => (RSQUARE, k)
    case '(' => (LPAREN, k)
    case ')' => (RPAREN, k)
    case '`' => (BACKTICK, k)
    case _ => (ILLEGAL, k)
  }

  /** What the three switches read: the rune alone, followed by `=`,
      doubled, or doubled then followed by `=`, with the matching token. */
  lemma SwitchReadsAssign(s: string, i: nat, tok0: Token, tok1: Token)
    requires i < |s|
    ensures var r := AssignSwitch(tok0, tok1, s, i + 1);
      (r.0 == tok0 && s[i..r.1] == [s[i]]) || (r.0 == tok1 && s[i..r.1] == [s[i]] + [EQ])
  {
  }

  lemma SwitchReadsDupeSingle(s: string, i: nat, tok0: Token, tok1: Token, tok2: Token)
    requires i < |s| && s[i] != NUL
    ensures var r := AssignDupeSingleSwitch(tok0, tok1, s[i], tok2, s, i + 1);
      (r.0 == tok0 && s[i..r.1] == [s[i]]) || (r.0 == tok1 && s[i..r.1] == [s[i]] + [EQ])
      || (r.0 == tok2 && s[i..r.1] == [s[i]] + [s[i]])
  {
  }

  lemma SwitchReadsDupe(s: string, i: nat, tok0: Token, tok1: Token, tok2: Token, tok3: Token)
    requires i < |s| && s[i] != NUL
    ensures var r := AssignDupeSwitch(tok0, tok1, s[i], tok2, tok3, s, i + 1);
      (r.0 == tok0 && s[i..r.1] == [s[i]]) || (r.0 == tok1 && s[i..r.1] == [s[i]] + [EQ])
      || (r.0 == tok2 && s[i..r.1] == [s[i]] + [s[i]]) || (r.0 == tok3 && s[i..r.1] == [s[i]] + [s[i]] + [EQ])
  {
  }

  /** What `LexOperator` reads is the spelling of the token it returns, for
      every token but ILLEGAL and `...`. */
  lemma LexOperatorSpelling(s: string, i: nat)
    requires i < |s|
    ensures var (t, j) := LexOperator(s, i); t != ILLEGAL && t != ELLIPSIS ==> s[i..j] == Spelling(t)
  {
    var c := s[i];
    if c == '+' || c == '-' || c == '*' {
      DupeSpelling(s, i);
    } else if c == '/' || c == '%' || c == ':' {
      AssignSpelling(s, i);
    } else if c == '=' || c == '<' || c == '>' || c == '!' {
      ComparisonSpelling(s, i);
    } else if c == '&' || c == '|' || c == '.' {
      PairSpelling(s, i);
    } else {
      DelimiterSpelling(s, i);
    }
  }

  lemma DupeSpelling(s: string, i: nat)
    requires i < |s| && (s[i] == '+' || s[i] == '-' || s[i] == '*')
    ensures var (t, j) := LexOperator(s, i); s[i..j] == Spelling(t)
  {
    if s[i] == '+' {
      SwitchReadsDupeSingle(s, i, ADD, ADD_ASSIGN, INC);
    } else if s[i] == '-' {
      SwitchReadsDupeSingle(s, i, SUB, SUB_ASSIGN, DEC);
    } else {
      SwitchReadsDupe(s, i, MUL, MUL_ASSIGN, PWR, PWR_ASSIGN);
    }
  }

  lemma AssignSpelling(s: string, i: nat)
    requires i < |s| && (s[i] == '/' || s[i] == '%' || s[i] == ':')
    ensures var (t, j) := LexOperator(s, i); s[i..j] == Spelling(t)
  {
    if s[i] == '/' {
      SwitchReadsAssign(s, i, QUO, QUO_ASSIGN);
    } else if s[i] == '%' {
      SwitchReadsAssign(s, i, REM, REM_ASSIGN);
    } else {
      SwitchReadsAssign(s, i, COLON, DEFINE);
    }
  }

  lemma ComparisonSpelling(s: string, i: nat)
    requires i < |s| && (s[i] == '=' || s[i] == '<' || s[i] == '>' || s[i] == '!')
    ensures var (t, j) := LexOperator(s, i); s[i..j] == Spelling(t)
  {
    if s[i] == '=' {
      SwitchReadsAssign(s, i, ASSIGN, EQUALS);
    } else if s[i] == '<' {
      SwitchReadsAssign(s, i, LESS, LESS_EQUAL);
    } else if s[i] == '>' {
      SwitchReadsAssign(s, i, GREATER, GREATER_EQUAL);
    } else {
      SwitchReadsAssign(s, i, NOT, NOT_EQUALS);
    }
  }

  lemma PairSpelling(s: string, i: nat)
    requires i < |s| && (s[i] == '&' || s[i] == '|' || s[i] == '.')
    ensures var (t, j) := LexOperator(s, i); t != ILLEGAL && t != ELLIPSIS ==> s[i..j] == Spelling(t)
  {
    if s[i] == '&' && At(s, i + 1) == '&' {
      assert s[i + 1] == '&';
      assert s[i..i + 2] == "&&";
    } else if s[i] == '|' && At(s, i + 1) == '|' {
      assert s[i + 1] == '|';
      assert s[i..i + 2] == "||";
    } else if s[i] == '.' {
      assert s[i..i + 1] == ".";
    }
  }

  lemma DelimiterSpelling(s: string, i: nat)
    requires i < |s| && s[i] != '+' && s[i] != '-' && s[i] != '*' && s[i] != '/' && s[i] != '%'
    requires s[i] != '=' && s[i] != '<' && s[i] != '>' && s[i] != '!' && s[i] != ':'
    requires s[i] != '&' && s[i] != '|' && s[i] != '.'
    ensures var (t, j) := LexOperator(s, i); t != ILLEGAL ==> s[i..j] == Spelling(t)
  {
    assert s[i..i + 1] == [s[i]];
  }

  /* ---------------------------------------------------------------------
     Lex
     --------------------------------------------------------------------- */

  /** The lexer state: the whole input, the read head, and the line/column
      position Go keeps beside its reader. */
  datatype Lexer = Lexer(input: string, offset: nat, pos: Position) {
    predicate Valid() {
      offset <= |input|
    }
  }

  /** A fresh lexer: nothing read, at line 1, column 0. */
  function NewLexer(input: string): Lexer {
    Lexer(input, 0, Position(1, 0))
  }

  /** One token as `Lex` returns it: where it starts, what it is, its literal. */
  datatype Lexeme = Lexeme(pos: Position, tok: Token, lit: string)

  /** A string literal still open at the end of input, with the position the
      reader had reached. */
  datatype LexError = UnterminatedString(pos: Position)

  /** `p` moved `n` columns right, as `read` moves it for every rune. */
  function Columns(p: Position, n: nat): Position {
    p.(column := p.column + n)
  }

  /** Where the position ends up after reading `s` from `p` with newlines
      counted: a newline moves to column 0 of the next line, every other
      rune one column right. */
  function Track(p: Position, s: string): Position
    decreases |s|
  {
    if s == [] then p
    else Track(if s[0] == '\n' then Position(p.line + 1, 0) else Columns(p, 1), s[1..])
  }

  /** `Lex`: skips blanks, moving one column for each, then reads one token. */
  function Lex(l: Lexer): (r: Result<(Lexeme, Lexer), LexError>)
    requires l.Valid()
    ensures r.Ok? ==> r.value.1.Valid() && r.value.1.input == l.input && l.offset <= r.value.1.offset
    ensures r.Ok? && r.value.0.tok != EOF ==> l.offset < r.value.1.offset
    ensures (r.Ok? && r.value.0.tok == EOF) <==> forall k | l.offset <= k < |l.input| :: IsBlank(l.input[k])
  {
    var i := Span(l.input, l.offset, IsBlank);
    LexAt(l.input, i, Columns(l.pos, i - l.offset))
  }

  /** The body of `Lex` once the blanks are skipped: the token at `i`, where
      `p` is the position reached. The token's position is the column of its
      first rune; the new position counts every rune read, and only the
      newline token and comments move to a new line. */
  function LexAt(s: string, i: nat, p: Position): (r: Result<(Lexeme, Lexer), LexError>)
    requires i <= |s|
    ensures r.Ok? ==> r.value.1.input == s && i <= r.value.1.offset <= |s|
    ensures r.Ok? && r.value.0.tok != EOF ==> i < r.value.1.offset
    ensures r.Ok? && r.value.0.tok == EOF <==> i == |s|
  {
    if i == |s| then Ok((Lexeme(p, EOF, ""), Lexer(s, i, p)))
    else
      var c := s[i];
      var start := Columns(p, 1);
      if IsLetter(c) then
        var (w, j) := LexIdent(s, i);
        Ok((Lexeme(start, Lookup(w), w), Lexer(s, j, Columns(p, j - i))))
      else if IsDigit(c) || (c == '.' && IsDigit(At(s, i + 1))) then
        var (tok, lit, j) := LexNumber(s, i);
        Ok((Lexeme(start, tok, lit), Lexer(s, j, Columns(p, j - i))))
      else if c == '\n' then
        Ok((Lexeme(start, NEWLINE, "\\n"), Lexer(s, i + 1, Position(p.line + 1, 0))))
      else if IsQuote(c) then
        match LexString(s, i)
        case None => Err(UnterminatedString(Columns(p, |s| - i)))
        case Some((lit, j)) => Ok((Lexeme(start, STRING, lit), Lexer(s, j, Columns(p, j - i))))
      else if c == '/' && (At(s, i + 1) == '/' || At(s, i + 1) == '*') then
        var (lit, j) := LexComment(s, i + 1);
        Ok((Lexeme(start, COMMENT, lit), Lexer(s, j, Track(p, s[i..j]))))
      else
        var (tok, j) := LexOperator(s, i);
        Ok((Lexeme(start, tok, if tok == ILLEGAL then [c] else Spelling(tok)), Lexer(s, j, Columns(p, j - i))))
  }

  /** Lexes the whole input: every lexeme up to and including the first EOF. */
  function Tokenize(l: Lexer): (r: Result<seq<Lexeme>, LexError>)
    requires l.Valid()
    ensures r.Ok? ==> |r.value| > 0 && r.value[|r.value| - 1].tok == EOF
    ensures r.Ok? ==> forall k | 0 <= k < |r.value| - 1 :: r.value[k].tok != EOF
    decreases |l.input| - l.offset
  {
    var (x, next) :- Lex(l);
    if x.tok == EOF then Ok([x])
    else
      var rest :- Tokenize(next);
      Ok([x] + rest)
  }

  /* ---------------------------------------------------------------------
     What Lex reads
     --------------------------------------------------------------------- */

  /** `Span` stops exactly at the first rune that fails `p`. */
  lemma {:induction false} SpanExact(s: string, i: nat, j: nat, p: char -> bool)
    requires i <= j <= |s|
    requires forall k | i <= k < j :: p(s[k])
    requires j == |s| || !p(s[j])
    ensures Span(s, i, p) == j
    decreases j - i
  {
    if i < j {
      SpanExact(s, i + 1, j, p);
    }
  }

  /** A word starting with a letter, and not followed by an identifier rune,
      lexes as the keyword it spells or else as an identifier. */
  lemma LexIdentifier(w: string, rest: string, p: Position)
    requires |w| > 0 && IsLetter(w[0]) && forall c <- w :: IsIdentChar(c)
    requires rest == [] || !IsIdentChar(rest[0])
    ensures var s := w + rest; var r := Lex(Lexer(s, 0, p));
      r.Ok? && r.value.0 == Lexeme(Columns(p, 1), Lookup(w), w) && r.value.1 == Lexer(s, |w|, Columns(p, |w|))
  {
    var s := w + rest;
    SpanExact(s, 0, 0, IsBlank);
    assert forall k | 0 <= k < |w| :: IsIdentChar(s[k]) by {
      forall k | 0 <= k < |w| ensures IsIdentChar(s[k]) {
        assert s[k] == w[k];
      }
    }
    SpanExact(s, 0, |w|, IsIdentChar);
    assert s[0..|w|] == w;
  }

  /** A run of digits not followed by a digit, `_` or `.` lexes as an INT. */
  lemma LexInteger(d: string, rest: string, p: Position)
    requires |d| > 0 && AllDigits(d)
    requires rest == [] || (!IsDigitOrUnderscore(rest[0]) && rest[0] != '.')
    ensures var s := d + rest; var r := Lex(Lexer(s, 0, p));
      r.Ok? && r.value.0 == Lexeme(Columns(p, 1), INT, d) && r.value.1 == Lexer(s, |d|, Columns(p, |d|))
  {
    var s := d + rest;
    assert s[0] == d[0] && d[0] in d;
    SpanExact(s, 0, 0, IsBlank);
    assert LexNumber(s, 0) == (INT, d, |d|) by {
      assert OccursAt(s, 0, d);
      DigitsRun(s, 0, d);
    }
  }

  lemma {:induction false} StripNone(s: string, x: char)
    requires x !in s
    ensures Strip(s, x) == s
    decreases |s|
  {
    if s != [] {
      assert x !in s[1..] by {
        forall c | c in s[1..] ensures c != x {
          assert c in s;
        }
      }
      StripNone(s[1..], x);
      assert [s[0]] + s[1..] == s;
    }
  }

  /** A quoted literal written with `Escape` lexes as a STRING holding the
      original text. The reader does not count lines inside a literal, so
      the position moves one column per rune read. */
  lemma LexStringLiteral(q: char, t: string, rest: string, p: Position)
    requires IsQuote(q)
    ensures var s := [q] + Escape(t) + [q] + rest; var n := |Escape(t)| + 2; var r := Lex(Lexer(s, 0, p));
      r.Ok? && r.value.0 == Lexeme(Columns(p, 1), STRING, t) && r.value.1 == Lexer(s, n, Columns(p, n))
  {
    var s := [q] + Escape(t) + [q] + rest;
    SpanExact(s, 0, 0, IsBlank);
    assert s[0] == q && !IsBlank(q);
    StringRoundTrip(q, t, rest);
  }

  /** A newline lexes as NEWLINE with literal `\\n`, and the position moves
      to column 0 of the next line. */
  lemma LexNewline(rest: string, p: Position)
    ensures var s := "\n" + rest; var r := Lex(Lexer(s, 0, p));
      r.Ok? && r.value.0 == Lexeme(Columns(p, 1), NEWLINE, "\\n") && r.value.1 == Lexer(s, 1, Position(p.line + 1, 0))
  {
    SpanExact("\n" + rest, 0, 0, IsBlank);
  }

  /** Blanks before a token are skipped: lexing from before them is lexing
      from after them with the position moved over them. */
  lemma LexSkipsBlanks(l: Lexer, n: nat)
    requires l.offset + n <= |l.input|
    requires forall k | l.offset <= k < l.offset + n :: IsBlank(l.input[k])
    ensures Lex(l) == Lex(Lexer(l.input, l.offset + n, Columns(l.pos, n)))
  {
    var s := l.input;
    var j := Span(s, l.offset + n, IsBlank);
    SpanExact(s, l.offset, j, IsBlank);
    var p := Columns(l.pos, j - l.offset);
    assert Columns(Columns(l.pos, n), j - (l.offset + n)) == p;
    LexFrom(l, j, p);
    LexFrom(Lexer(s, l.offset + n, Columns(l.pos, n)), j, p);
  }

  /** `Lex` from a lexer whose blanks end at `j`, reaching position `p`. */
  lemma LexFrom(l: Lexer, j: nat, p: Position)
    requires l.Valid() && Span(l.input, l.offset, IsBlank) == j
    requires Columns(l.pos, j - l.offset) == p
    ensures Lex(l) == LexAt(l.input, j, p)
  {
  }

  /** Followed by a space or by nothing, every punctuation token's spelling
      lexes back to that token: the operators are read with maximal munch. */
  lemma LexPunctuation(t: Token, rest: string, p: Position)
    requires IsPunctuation(t) && (rest == [] || IsSpace(rest[0]))
    ensures var s := Spelling(t) + rest; var n := |Spelling(t)|; var r := Lex(Lexer(s, 0, p));
      r.Ok? && r.value.0 == Lexeme(Columns(p, 1), t, Spelling(t)) && r.value.1 == Lexer(s, n, Columns(p, n))
  {
    if t in {ADD, ADD_ASSIGN, INC, SUB, SUB_ASSIGN, DEC} {
      ReadsAdditive(t, rest, p);
    } else if t in {MUL, MUL_ASSIGN, PWR, PWR_ASSIGN} {
      ReadsMultiplicative(t, rest, p);
    } else if t in {QUO, QUO_ASSIGN, REM, REM_ASSIGN, COLON, DEFINE} {
      ReadsAssign(t, rest, p);
    } else if t in {ASSIGN, EQUALS, LESS, LESS_EQUAL, GREATER, GREATER_EQUAL, NOT, NOT_EQUALS} {
      ReadsComparison(t, rest, p);
    } else if t in {AND, OR, ELLIPSIS, PERIOD} {
      ReadsPair(t, rest, p);
    } else {
      ReadsDelimiter(t, rest, p);
    }
  }

  /** `Lex` hands a rune that starts no word, number, newline, string or
      comment to `LexOperator`. */
  lemma LexAtOperator(s: string, p: Position)
    requires s != [] && !IsLetter(s[0]) && !IsDigit(s[0]) && !IsSpace(s[0]) && !IsQuote(s[0])
    requires !(s[0] == '/' && (At(s, 1) == '/' || At(s, 1) == '*'))
    requires !(s[0] == '.' && IsDigit(At(s, 1)))
    ensures var (t, j) := LexOperator(s, 0); var r := Lex(Lexer(s, 0, p));
      r.Ok? && r.value.0 == Lexeme(Columns(p, 1), t, if t == ILLEGAL then [s[0]] else Spelling(t))
      && r.value.1 == Lexer(s, j, Columns(p, j))
  {
    SpanExact(s, 0, 0, IsBlank);
  }

  lemma ReadsAdditive(t: Token, rest: string, p: Position)
    requires t in {ADD, ADD_ASSIGN, INC, SUB, SUB_ASSIGN, DEC} && (rest == [] || IsSpace(rest[0]))
    ensures var s := Spelling(t) + rest; var n := |Spelling(t)|; var r := Lex(Lexer(s, 0, p));
      r.Ok? && r.value.0 == Lexeme(Columns(p, 1), t, Spelling(t)) && r.value.1 == Lexer(s, n, Columns(p, n))
  {
    var s := Spelling(t) + rest;
    assert LexOperator(s, 0) == (t, |Spelling(t)|);
    LexAtOperator(s, p);
  }

  lemma ReadsMultiplicative(t: Token, rest: string, p: Position)
    requires t in {MUL, MUL_ASSIGN, PWR, PWR_ASSIGN} && (rest == [] || IsSpace(rest[0]))
    ensures var s := Spelling(t) + rest; var n := |Spelling(t)|; var r := Lex(Lexer(s, 0, p));
      r.Ok? && r.value.0 == Lexeme(Columns(p, 1), t, Spelling(t)) && r.value.1 == Lexer(s, n, Columns(p, n))
  {
    var s := Spelling(t) + rest;
    assert LexOperator(s, 0) == (t, |Spelling(t)|);
    LexAtOperator(s, p);
  }

  lemma ReadsAssign(t: Token, rest: string, p: Position)
    requires t in {QUO, QUO_ASSIGN, REM, REM_ASSIGN, COLON, DEFINE} && (rest == [] || IsSpace(rest[0]))
    ensures var s := Spelling(t) + rest; var n := |Spelling(t)|; var r := Lex(Lexer(s, 0, p));
      r.Ok? && r.value.0 == Lexeme(Columns(p, 1), t, Spelling(t)) && r.value.1 == Lexer(s, n, Columns(p, n))
  {
    var s := Spelling(t) + rest;
    assert LexOperator(s, 0) == (t, |Spelling(t)|);
    LexAtOperator(s, p);
  }

  lemma ReadsComparison(t: Token, rest: string, p: Position)
    requires t in {ASSIGN, EQUALS, LESS, LESS_EQUAL, GREATER, GREATER_EQUAL, NOT, NOT_EQUALS} && (rest == [] || IsSpace(rest[0]))
    ensures var s := Spelling(t) + rest; var n := |Spelling(t)|; var r := Lex(Lexer(s, 0, p));
      r.Ok? && r.value.0 == Lexeme(Columns(p, 1), t, Spelling(t)) && r.value.1 == Lexer(s, n, Columns(p, n))
  {
    var s := Spelling(t) + rest;
    assert LexOperator(s, 0) == (t, |Spelling(t)|);
    LexAtOperator(s, p);
  }

  lemma ReadsPair(t: Token, rest: string, p: Position)
    requires t in {AND, OR, ELLIPSIS, PERIOD} && (rest == [] || IsSpace(rest[0]))
    ensures var s := Spelling(t) + rest; var n := |Spelling(t)|; var r := Lex(Lexer(s, 0, p));
      r.Ok? && r.value.0 == Lexeme(Columns(p, 1), t, Spelling(t)) && r.value.1 == Lexer(s, n, Columns(p, n))
  {
    var s := Spelling(t) + rest;
    assert LexOperator(s, 0) == (t, |Spelling(t)|);
    LexAtOperator(s, p);
  }

  lemma ReadsDelimiter(t: Token, rest: string, p: Position)
    requires t in {COMMA, SEMICOLON, QUESTION, BACKTICK, LCURLY, RCURLY, LSQUARE, RSQUARE, LPAREN, RPAREN} && (rest == [] || IsSpace(rest[0]))
    ensures var s := Spelling(t) + rest; var n := |Spelling(t)|; var r := Lex(Lexer(s, 0, p));
      r.Ok? && r.value.0 == Lexeme(Columns(p, 1), t, Spelling(t)) && r.value.1 == Lexer(s, n, Columns(p, n))
  {
    var s := Spelling(t) + rest;
    assert LexOperator(s, 0) == (t, |Spelling(t)|);
    LexAtOperator(s, p);
  }

  /** Any rune that starts no token lexes as ILLEGAL, with that rune as its
      literal. */
  lemma LexIllegal(c: char, rest: string, p: Position)
    requires !IsLetter(c) && !IsDigit(c) && !IsSpace(c) && !IsQuote(c)
    requires c !in "&|+-*/%=<>!.,;:?{}[]()`"
    ensures var s := [c] + rest; var r := Lex(Lexer(s, 0, p));
      r.Ok? && r.value.0 == Lexeme(Columns(p, 1), ILLEGAL, [c]) && r.value.1 == Lexer(s, 1, Columns(p, 1))
  {
    var s := [c] + rest;
    assert LexOperator(s, 0) == (ILLEGAL, 1);
    LexAtOperator(s, p);
  }

  /** A single `&` or `|` is not an operator: it lexes as ILLEGAL. */
  lemma LexLoneConjunction(c: char, rest: string, p: Position)
    requires c == '&' || c == '|'
    requires rest == [] || rest[0] != c
    ensures var s := [c] + rest; var r := Lex(Lexer(s, 0, p));
      r.Ok? && r.value.0 == Lexeme(Columns(p, 1), ILLEGAL, [c]) && r.value.1 == Lexer(s, 1, Columns(p, 1))
  {
    var s := [c] + rest;
    assert LexOperator(s, 0) == (ILLEGAL, 1);
    LexAtOperator(s, p);
  }

  /** The run of digits of `d` at `i`, ended by a rune that is not a digit
      or `_`, is read whole. */
  lemma DigitsRun(s: string, i: nat, d: string)
    requires OccursAt(s, i, d) && AllDigits(d)
    requires !IsDigitOrUnderscore(At(s, i + |d|))
    ensures Digits(s, i) == (d, i + |d|)
  {
    assert forall k | i <= k < i + |d| :: IsDigitOrUnderscore(s[k]) by {
      forall k | i <= k < i + |d| ensures IsDigitOrUnderscore(s[k]) {
        assert s[k] == d[k - i];
      }
    }
    SpanExact(s, i, i + |d|, IsDigitOrUnderscore);
    assert s[i..i + |d|] == d;
    assert '_' !in d;
    StripNone(d, '_');
  }

  /** Digits, a `.` and digits lex as one FLOAT whatever follows, as long as
      it does not continue the fraction: a second `.` is left unread. With
      no integer part this is the leading-`.` form. */
  lemma LexFloat(whole: string, fraction: string, rest: string)
    requires AllDigits(whole) && AllDigits(fraction)
    requires rest == [] || !IsDigitOrUnderscore(rest[0])
    ensures var s := whole + "." + fraction + rest; var r := LexNumber(s, 0);
      r.0 == FLOAT && r.1 == whole + "." + fraction && r.2 == |whole| + 1 + |fraction|
  {
    var s := whole + "." + fraction + rest;
    var n := |whole|;
    assert s[n] == '.' && OccursAt(s, n + 1, fraction);
    assert Digits(s, n + 1) == (fraction, n + 1 + |fraction|) by {
      DigitsRun(s, n + 1, fraction);
    }
    if whole == [] {
      assert "" + "." + fraction == "." + fraction;
    } else {
      WholePart(s, whole);
    }
  }

  /** A non-empty integer part at the start is read whole, up to the `.`. */
  lemma WholePart(s: string, whole: string)
    requires whole != [] && AllDigits(whole)
    requires OccursAt(s, 0, whole) && At(s, |whole|) == '.'
    ensures At(s, 0) != '.' && Digits(s, 0) == (whole, |whole|)
  {
    DigitsRun(s, 0, whole);
    assert s[0] == whole[0];
  }
}
