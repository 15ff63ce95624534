/** The expression sub-parsers of language/nodes/expression.go that read
    a fixed shape of tokens: type expressions, selectors, index
    expressions, assignments and call arguments.

    Every parser reads through the token buffer, skipping newlines and
    comments (`ScanIgnore(NEWLINE, COMMENT)`), and returns the parsed node
    together with the parser state after it. The general expression parser
    `ParseExpression` is a parameter `expr` of the parsers that call it;
    positions are kept only where an error reports one. */
module Expressions {
  import opened Wrappers
  import opened Tokens
  import opened Lexer
  import opened TokenBuffer

  /** The tokens every sub-parser steps over. */
  const Skip: set<Token> := {NEWLINE, COMMENT}

  /** `ExpectedError(pos, expected, lit)`, or a failure of the buffer. */
  datatype ParseError = Expected(pos: Position, expected: Token, lit: string) | Unreadable(cause: ScanError)

  type Parsed<T> = Result<(T, Parser), ParseError>

  /** `ScanIgnore(NEWLINE, COMMENT)`: the next significant token. */
  function Next(p: Parser): (r: Parsed<Lexeme>)
    ensures r.Ok? ==> r.value.0.tok !in Skip && r.value.1.source == p.source && Index(r.value.1) > Index(p)
    ensures r.Ok? ==> Remaining(r.value.1) <= Remaining(p)
    ensures r.Ok? && r.value.0 != p.source.eof ==> Remaining(r.value.1) < Remaining(p)
  {
    match ScanIgnore(p, Skip)
    case Err(e) => Err(Unreadable(e))
    case Ok(v) => Ok(v)
  }

  /* ---------------------------------------------------------------------
     Token text ahead of the cursor
     --------------------------------------------------------------------- */

  /** A token kind with the literal that matters for it: the name of an
      identifier; other kinds are compared by kind alone. */
  type Tok = (Token, string)

  function Punct(t: Token): Tok {
    (t, "")
  }

  /** The lexeme `x` is the token `t`. */
  predicate Fits(x: Lexeme, t: Tok) {
    x.tok == t.0 && (t.0 == IDENT ==> x.lit == t.1)
  }

  /** The stream, from its `from`-th lexeme on, starts with `toks`. */
  predicate Matches(st: Stream, from: nat, toks: seq<Tok>) {
    forall i {:trigger toks[i]} | 0 <= i < |toks| :: Fits(st.Nth(from + i), toks[i])
  }

  lemma MatchesCons(st: Stream, from: nat, t: Tok, more: seq<Tok>)
    ensures Matches(st, from, [t] + more) <==> Fits(st.Nth(from), t) && Matches(st, from + 1, more)
  {
    var toks := [t] + more;
    if Fits(st.Nth(from), t) && Matches(st, from + 1, more) {
      forall i | 0 <= i < |toks| ensures Fits(st.Nth(from + i), toks[i]) {
        if i > 0 {
          assert toks[i] == more[i - 1] && from + i == from + 1 + (i - 1);
        }
      }
    }
    if Matches(st, from, toks) {
      assert Fits(st.Nth(from), toks[0]);
      forall i | 0 <= i < |more| ensures Fits(st.Nth(from + 1 + i), more[i]) {
        assert toks[i + 1] == more[i];
      }
    }
  }

  /** The parser is in step with its buffer and the stream after the cursor
      starts with `toks`. */
  predicate Ahead(p: Parser, toks: seq<Tok>) {
    p.Valid() && p.InSync() && Matches(p.source, p.n + 1, toks)
  }

  /** Reading a significant token from text that starts with it: the token
      is returned and the text after it is ahead; stepping back restores the
      text. */
  lemma NextAhead(p: Parser, t: Tok, more: seq<Tok>)
    requires Ahead(p, [t] + more) && t.0 !in Skip
    ensures var r := Next(p);
      r.Ok? && Fits(r.value.0, t) && Index(r.value.1) == Index(p) + 1
      && Ahead(r.value.1, more) && Ahead(Unscan(r.value.1), [t] + more)
  {
    MatchesCons(p.source, p.n + 1, t, more);
    ScanIgnoreSignificant(p, Skip);
  }

  /** The same, seen from the parser after the token: stepping back from
      it puts the cursor where it was, before the same text. */
  lemma NextBack(p: Parser, t: Tok, more: seq<Tok>) returns (q: Parser)
    requires Ahead(p, [t] + more) && t.0 !in Skip
    ensures Next(p).Ok? && Next(p).value.1 == q && Next(p).value.0.tok == t.0
    ensures Unscan(q).source == p.source && Unscan(q).n == p.n && Ahead(Unscan(q), [t] + more)
  {
    NextAhead(p, t, more);
    q := Next(p).value.1;
  }

  /** The lexeme `Next` returns there is the stream's next one. */
  lemma NextLexeme(p: Parser, t: Tok, more: seq<Tok>)
    requires Ahead(p, [t] + more) && t.0 !in Skip
    ensures Next(p).Ok? && Next(p).value.0 == p.source.Nth(p.n + 1)
  {
    MatchesCons(p.source, p.n + 1, t, more);
    ScanIgnoreSignificant(p, Skip);
  }

  /* ---------------------------------------------------------------------
     Selector
     --------------------------------------------------------------------- */

  /** `Selector`: a dotted name such as `a.b.c`. */
  datatype Selector = Selector(members: seq<string>)

  /** `ParseSelector`: identifiers separated by periods. It never fails on
      what it reads: it stops, unreading the token, at the first token that
      cannot continue the name, so an empty selector is possible. */
  function ParseSelector(p: Parser): (r: Parsed<Selector>)
    ensures r.Ok? ==> r.value.1.source == p.source
  {
    SelectorMembers(p, [])
  }

  function SelectorMembers(p: Parser, members: seq<string>): (r: Parsed<Selector>)
    ensures r.Ok? ==> r.value.1.source == p.source && members <= r.value.0.members
    decreases Remaining(p)
  {
    var (x, q) :- Next(p);
    if x.tok != IDENT then Ok((Selector(members), Unscan(q)))
    else
      var (y, q') :- Next(q);
      if y.tok != PERIOD then Ok((Selector(members + [x.lit]), Unscan(q')))
      else SelectorMembers(q', members + [x.lit])
  }

  /** The tokens of a dotted name. */
  function SelectorText(members: seq<string>): (toks: seq<Tok>)
    ensures members != [] ==> |toks| == 2 * |members| - 1 && toks[0] == (IDENT, members[0])
    decreases |members|
  {
    if members == [] then []
    else if |members| == 1 then [(IDENT, members[0])]
    else [(IDENT, members[0]), Punct(PERIOD)] + SelectorText(members[1..])
  }

  /** One identifier followed by a token that cannot continue the name:
      the name ends there, and the token is unread. */
  lemma SelectorLast(p: Parser, acc: seq<string>, m: string, rest: seq<Tok>)
    requires Ahead(p, [(IDENT, m)] + rest)
    requires rest != [] && rest[0].0 !in Skip && rest[0].0 != PERIOD
    ensures var r := SelectorMembers(p, acc);
      r.Ok? && r.value.0 == Selector(acc + [m]) && Ahead(r.value.1, rest) && Index(r.value.1) == Index(p) + 1
  {
    NextAhead(p, (IDENT, m), rest);
    var q := Next(p).value.1;
    assert [rest[0]] + rest[1..] == rest;
    NextAhead(q, rest[0], rest[1..]);
  }

  /** An identifier and a period: the name goes on after them. */
  lemma SelectorStep(p: Parser, acc: seq<string>, m: string, tail: seq<Tok>) returns (q': Parser)
    requires Ahead(p, [(IDENT, m), Punct(PERIOD)] + tail)
    ensures SelectorMembers(p, acc) == SelectorMembers(q', acc + [m])
    ensures Ahead(q', tail) && Index(q') == Index(p) + 2
  {
    assert [(IDENT, m), Punct(PERIOD)] + tail == [(IDENT, m)] + ([Punct(PERIOD)] + tail);
    NextAhead(p, (IDENT, m), [Punct(PERIOD)] + tail);
    var q := Next(p).value.1;
    NextAhead(q, Punct(PERIOD), tail);
    q' := Next(q).value.1;
  }

  /** A written name followed by a token that cannot continue it parses
      back to its members, and that token is left unread. */
  lemma {:induction false} SelectorRoundTrip(p: Parser, acc: seq<string>, members: seq<string>, rest: seq<Tok>)
    requires members != [] && Ahead(p, SelectorText(members) + rest)
    requires rest != [] && rest[0].0 !in Skip && rest[0].0 != PERIOD
    ensures var r := SelectorMembers(p, acc);
      r.Ok? && r.value.0 == Selector(acc + members) && Ahead(r.value.1, rest)
      && Index(r.value.1) == Index(p) + |SelectorText(members)|
    decreases |members|, 1
  {
    if |members| == 1 {
      assert members == [members[0]];
      SelectorLast(p, acc, members[0], rest);
    } else {
      SelectorMore(p, acc, members, rest);
    }
  }

  /** The inductive step of `SelectorRoundTrip`: a name of two or more
      members is its first member, a period, and a shorter name. */
  lemma {:induction false} SelectorMore(p: Parser, acc: seq<string>, members: seq<string>, rest: seq<Tok>)
    requires |members| >= 2 && Ahead(p, SelectorText(members) + rest)
    requires rest != [] && rest[0].0 !in Skip && rest[0].0 != PERIOD
    ensures var r := SelectorMembers(p, acc);
      r.Ok? && r.value.0 == Selector(acc + members) && Ahead(r.value.1, rest)
      && Index(r.value.1) == Index(p) + |SelectorText(members)|
    decreases |members|, 0
  {
    var m := members[0];
    var tail := SelectorText(members[1..]) + rest;
    assert Ahead(p, [(IDENT, m), Punct(PERIOD)] + tail) by {
      assert SelectorText(members) + rest == [(IDENT, m), Punct(PERIOD)] + tail;
    }
    var q' := SelectorStep(p, acc, m, tail);
    SelectorRoundTrip(q', acc + [m], members[1..], rest);
    AppendFirst(acc, members);
  }

  lemma Uncons<T>(xs: seq<T>)
    requires xs != []
    ensures xs == [xs[0]] + xs[1..]
  {
  }

  lemma AppendFirst<T>(acc: seq<T>, xs: seq<T>)
    requires xs != []
    ensures acc + [xs[0]] + xs[1..] == acc + xs
  {
    assert [xs[0]] + xs[1..] == xs;
  }

  /* ---------------------------------------------------------------------
     TypeExpression
     --------------------------------------------------------------------- */

  /** `TypeExpression`: `[]`? then a name or `Partial<name>`, then `?`? */
  datatype TypeExpr = TypeExpr(isArray: bool, isPartial: bool, isOptional: bool, selector: Selector)

  /** `ParseTypeExpression`, in the stages below. Every error reports the
      position of the first token read. */
  function ParseTypeExpression(p: Parser): (r: Parsed<TypeExpr>)
    ensures r.Ok? ==> r.value.1.source == p.source
  {
    var (first, q0) :- Next(p);
    var (isArray, q1) :- ArrayMark(first, q0, first.pos);
    TypeAfterArray(q1, isArray, first.pos)
  }

  /** The `[` `]` prefix: `first` was already read; anything but `[` is
      unread again, and `[` must be followed by `]`. */
  function ArrayMark(first: Lexeme, q: Parser, pos: Position): (r: Parsed<bool>)
    ensures r.Ok? ==> r.value.1.source == q.source
    ensures r.Ok? ==> r.value.0 == (first.tok == LSQUARE)
    ensures first.tok != LSQUARE ==> r == Ok((false, Unscan(q)))
  {
    if first.tok == LSQUARE then
      var (x, q') :- Next(q);
      if x.tok != RSQUARE then Err(Expected(pos, RSQUARE, "")) else Ok((true, q'))
    else Ok((false, Unscan(q)))
  }

  /** After the array prefix: the `Partial<` mark, then the name. */
  function TypeAfterArray(q1: Parser, isArray: bool, pos: Position): (r: Parsed<TypeExpr>)
    ensures r.Ok? ==> r.value.1.source == q1.source && r.value.0.isArray == isArray
  {
    var (isPartial, q3) :- PartialMark(q1, pos);
    TypeName(q3, isArray, isPartial, pos)
  }

  /** The `Partial` `<` opening: `Partial` must be followed by `<`; any
      other token is stepped back over by rolling back one index. */
  function PartialMark(q1: Parser, pos: Position): (r: Parsed<bool>)
    ensures r.Ok? ==> r.value.1.source == q1.source
    ensures r.Ok? ==> Next(q1).Ok? && r.value.0 == (Next(q1).value.0.tok == PARTIAL)
    ensures Next(q1).Ok? && Next(q1).value.0.tok != PARTIAL ==> r == Ok((false, Unscan(Next(q1).value.1)))
    ensures Next(q1).Ok? && Next(q1).value.0.tok == PARTIAL && Next(Next(q1).value.1).Ok? ==>
      var y := Next(Next(q1).value.1).value.0;
      (r.Ok? <==> y.tok == LESS) && (r.Err? ==> r.error == Expected(pos, LESS, y.lit))
  {
    var (x, q2) :- Next(q1);
    if x.tok == PARTIAL then
      var (y, q3) :- Next(q2);
      if y.tok != LESS then Err(Expected(pos, LESS, y.lit)) else Ok((true, q3))
    else Ok((false, Rollback(q2, Index(q2) - 1)))
  }

  /** The name, and the `>` closing a `Partial<`. */
  function TypeName(q3: Parser, isArray: bool, isPartial: bool, pos: Position): (r: Parsed<TypeExpr>)
    ensures r.Ok? ==> r.value.1.source == q3.source
    ensures r.Ok? ==> r.value.0.isArray == isArray && r.value.0.isPartial == isPartial
  {
    var (sel, q4) :- ParseSelector(q3);
    if isPartial then
      var (z, q5) :- Next(q4);
      if z.tok != GREATER then Err(Expected(pos, GREATER, z.lit))
      else TypeOptional(q5, TypeExpr(isArray, isPartial, false, sel))
    else TypeOptional(q4, TypeExpr(isArray, isPartial, false, sel))
  }

  /** The trailing `?`; any other token is unread. */
  function TypeOptional(q5: Parser, te: TypeExpr): (r: Parsed<TypeExpr>)
    ensures r.Ok? ==> r.value.1.source == q5.source
    ensures r.Ok? ==> r.value.0 == te.(isOptional := r.value.0.isOptional)
  {
    var (y, q6) :- Next(q5);
    if y.tok == QUESTION then Ok((te.(isOptional := true), q6))
    else Ok((te, Unscan(q6)))
  }

  /** The tokens of a type expression. */
  function TypeText(te: TypeExpr): seq<Tok> {
    (if te.isArray then [Punct(LSQUARE), Punct(RSQUARE)] else [])
    + PartialText(te)
  }

  /** The tokens from the `Partial` keyword or the name on. */
  function PartialText(te: TypeExpr): seq<Tok> {
    (if te.isPartial then [Punct(PARTIAL), Punct(LESS)] else [])
    + NameText(te)
  }

  /** The tokens from the name on. */
  function NameText(te: TypeExpr): seq<Tok> {
    SelectorText(te.selector.members)
    + (if te.isPartial then [Punct(GREATER)] else [])
    + OptionalText(te)
  }

  function OptionalText(te: TypeExpr): seq<Tok> {
    if te.isOptional then [Punct(QUESTION)] else []
  }

  /** Every type expression with a non-empty name, written out and followed
      by a token that continues neither the name nor the type, parses back
      to itself: `IsArray` exactly when `[]` leads, `IsPartial` exactly for
      `Partial<...>`, `IsOptional` exactly when `?` trails. */
  lemma TypeRoundTrip(p: Parser, te: TypeExpr, rest: seq<Tok>)
    requires te.selector.members != [] && Ahead(p, TypeText(te) + rest)
    requires rest != [] && rest[0].0 !in Skip && rest[0].0 != PERIOD && rest[0].0 != QUESTION
    ensures var r := ParseTypeExpression(p);
      r.Ok? && r.value.0 == te && Ahead(r.value.1, rest) && Index(r.value.1) == Index(p) + |TypeText(te)|
  {
    var after := PartialText(te) + rest;
    assert TypeText(te) + rest == (if te.isArray then [Punct(LSQUARE), Punct(RSQUARE)] else []) + after;
    var q1 := ArrayStep(p, te.isArray, after);
    PartialStep(q1, te, rest, Next(p).value.0.pos);
  }

  /** The array prefix read from its text. */
  lemma ArrayStep(p: Parser, isArray: bool, after: seq<Tok>) returns (q1: Parser)
    requires after != [] && after[0].0 !in Skip && after[0].0 != LSQUARE
    requires Ahead(p, (if isArray then [Punct(LSQUARE), Punct(RSQUARE)] else []) + after)
    ensures Next(p).Ok? && ArrayMark(Next(p).value.0, Next(p).value.1, Next(p).value.0.pos) == Ok((isArray, q1))
    ensures Ahead(q1, after) && Index(q1) == Index(p) + (if isArray then 2 else 0)
  {
    if isArray {
      q1 := ArrayPrefix(p, after);
    } else {
      assert [] + after == after;
      Uncons(after);
      var q := NextBack(p, after[0], after[1..]);
      q1 := Unscan(q);
    }
  }

  /** `[` `]` read from their text. */
  lemma ArrayPrefix(p: Parser, after: seq<Tok>) returns (q1: Parser)
    requires Ahead(p, [Punct(LSQUARE), Punct(RSQUARE)] + after)
    ensures Next(p).Ok? && ArrayMark(Next(p).value.0, Next(p).value.1, Next(p).value.0.pos) == Ok((true, q1))
    ensures Ahead(q1, after) && Index(q1) == Index(p) + 2
  {
    assert [Punct(LSQUARE), Punct(RSQUARE)] + after == [Punct(LSQUARE)] + ([Punct(RSQUARE)] + after);
    NextAhead(p, Punct(LSQUARE), [Punct(RSQUARE)] + after);
    var q := Next(p).value.1;
    NextAhead(q, Punct(RSQUARE), after);
    q1 := Next(q).value.1;
  }

  /** The `Partial<` opening read from its text. */
  lemma PartialStep(q1: Parser, te: TypeExpr, rest: seq<Tok>, pos: Position)
    requires te.selector.members != [] && Ahead(q1, PartialText(te) + rest)
    requires rest != [] && rest[0].0 !in Skip && rest[0].0 != PERIOD && rest[0].0 != QUESTION
    ensures var r := TypeAfterArray(q1, te.isArray, pos);
      r.Ok? && r.value.0 == te && Ahead(r.value.1, rest) && Index(r.value.1) == Index(q1) + |PartialText(te)|
  {
    var after := NameText(te) + rest;
    if te.isPartial {
      assert PartialText(te) + rest == [Punct(PARTIAL)] + ([Punct(LESS)] + after);
      NextAhead(q1, Punct(PARTIAL), [Punct(LESS)] + after);
      var q2 := Next(q1).value.1;
      NextAhead(q2, Punct(LESS), after);
      NameStep(Next(q2).value.1, te, rest, pos);
    } else {
      assert PartialText(te) == NameText(te);
      PlainStep(q1, te, rest, pos);
    }
  }

  /** A name without `Partial<`: its first token is read and unread again. */
  lemma PlainStep(q1: Parser, te: TypeExpr, rest: seq<Tok>, pos: Position)
    requires !te.isPartial && te.selector.members != [] && Ahead(q1, NameText(te) + rest)
    requires rest != [] && rest[0].0 !in Skip && rest[0].0 != PERIOD && rest[0].0 != QUESTION
    ensures var r := TypeAfterArray(q1, te.isArray, pos);
      r.Ok? && r.value.0 == te && Ahead(r.value.1, rest) && Index(r.value.1) == Index(q1) + |NameText(te)|
  {
    var after := NameText(te) + rest;
    assert after == [(IDENT, te.selector.members[0])] + after[1..];
    var q2 := IdentUnread(q1, te.selector.members[0], after[1..]);
    NameStep(q2, te, rest, pos);
  }

  /** An identifier read and unread: the parser is back before it. */
  lemma IdentUnread(q1: Parser, m: string, more: seq<Tok>) returns (q2: Parser)
    requires Ahead(q1, [(IDENT, m)] + more)
    ensures Next(q1).Ok? && Next(q1).value.0.tok == IDENT
    ensures q2 == Unscan(Next(q1).value.1) && Ahead(q2, [(IDENT, m)] + more) && Index(q2) == Index(q1)
  {
    NextAhead(q1, (IDENT, m), more);
    q2 := Unscan(Next(q1).value.1);
  }

  /** The name and the closing `>` read from their text. */
  lemma NameStep(q3: Parser, te: TypeExpr, rest: seq<Tok>, pos: Position)
    requires te.selector.members != [] && Ahead(q3, NameText(te) + rest)
    requires rest != [] && rest[0].0 !in Skip && rest[0].0 != PERIOD && rest[0].0 != QUESTION
    ensures var r := TypeName(q3, te.isArray, te.isPartial, pos);
      r.Ok? && r.value.0 == te && Ahead(r.value.1, rest) && Index(r.value.1) == Index(q3) + |NameText(te)|
  {
    var ms := te.selector.members;
    var close := if te.isPartial then [Punct(GREATER)] else [];
    var after := OptionalText(te) + rest;
    assert NameText(te) + rest == SelectorText(ms) + (close + after);
    SelectorRoundTrip(q3, [], ms, close + after);
    assert [] + ms == ms;
    var q4 := ParseSelector(q3).value.1;
    if te.isPartial {
      assert close + after == [Punct(GREATER)] + after;
      NextAhead(q4, Punct(GREATER), after);
      OptionalStep(Next(q4).value.1, te, rest);
    } else {
      assert close + after == after;
      OptionalStep(q4, te, rest);
    }
  }

  /** The trailing `?` read from its text. */
  lemma OptionalStep(q5: Parser, te: TypeExpr, rest: seq<Tok>)
    requires Ahead(q5, OptionalText(te) + rest)
    requires rest != [] && rest[0].0 !in Skip && rest[0].0 != QUESTION
    ensures var r := TypeOptional(q5, te.(isOptional := false));
      r.Ok? && r.value.0 == te && Ahead(r.value.1, rest) && Index(r.value.1) == Index(q5) + |OptionalText(te)|
  {
    if te.isOptional {
      assert OptionalText(te) + rest == [Punct(QUESTION)] + rest;
      NextAhead(q5, Punct(QUESTION), rest);
    } else {
      assert OptionalText(te) + rest == [rest[0]] + rest[1..];
      NextAhead(q5, rest[0], rest[1..]);
    }
  }

  /* ---------------------------------------------------------------------
     Operands
     --------------------------------------------------------------------- */

  /** The general expression parser, as the sub-parsers that call it see
      it. */
  type ExprParser<E> = Parser -> Parsed<E>

  /** Over a lexer that ends with an `EOF` token, every expression the
      parser accepts takes at least one token, and the parser reads on from
      the same lexer. `ParseExpression` has this shape: each of its branches
      reads a token other than `EOF` and rejects `EOF` itself. */
  ghost predicate Consumes<E>(expr: ExprParser<E>) {
    forall q: Parser :: Advances(expr, q)
  }

  /** `expr` started at `q` reads on from the same lexer and moves on. */
  ghost predicate Advances<E>(expr: ExprParser<E>, q: Parser) {
    q.source.eof.tok == EOF && expr(q).Ok? ==>
      expr(q).value.1.source == q.source && Remaining(expr(q).value.1) < Remaining(q)
  }

  /** The tokens that make a one-token expression: a name or a literal. */
  predicate IsOperandTok(t: Tok) {
    t.0 == IDENT || t.0 == INT || t.0 == FLOAT || t.0 == STRING
  }

  lemma OperandNotSkipped(t: Tok)
    requires IsOperandTok(t)
    ensures t.0 !in Skip && t.0 != RPAREN && t.0 != COMMA
  {
  }

  /** A one-token expression, standing in for `ParseExpression` where a
      call argument or an index is a single name or literal. A token that
      cannot start one is refused with the error `ParseExpression` gives. */
  function Operand(p: Parser): (r: Parsed<Lexeme>)
    ensures r.Ok? ==> IsOperandTok((r.value.0.tok, r.value.0.lit)) && r.value.1.source == p.source
    ensures Next(p).Ok? && !IsOperandTok((Next(p).value.0.tok, "")) ==>
      r == Err(Expected(Next(p).value.0.pos, IDENT, Next(p).value.0.lit))
  {
    var (x, q) :- Next(p);
    if IsOperandTok((x.tok, x.lit)) then Ok((x, q)) else Err(Expected(x.pos, IDENT, x.lit))
  }

  lemma OperandConsumes()
    ensures Consumes(Operand)
  {
    forall q: Parser ensures Advances(Operand, q) {
      if q.source.eof.tok == EOF && Operand(q).Ok? {
        assert Operand(q).value.0 != q.source.eof;
      }
    }
  }

  /** An operand read from its text. */
  lemma OperandAhead(p: Parser, t: Tok, more: seq<Tok>)
    requires Ahead(p, [t] + more) && IsOperandTok(t)
    ensures var r := Operand(p);
      r.Ok? && Fits(r.value.0, t) && Ahead(r.value.1, more) && Index(r.value.1) == Index(p) + 1
  {
    NextAhead(p, t, more);
  }

  function OptionText(t: Option<Tok>): seq<Tok> {
    if t.Some? then [t.value] else []
  }

  /** A parsed optional operand is the written one. */
  predicate OptionFits(x: Option<Lexeme>, t: Option<Tok>) {
    x.Some? == t.Some? && (x.Some? ==> Fits(x.value, t.value))
  }

  /* ---------------------------------------------------------------------
     IndexExpression
     --------------------------------------------------------------------- */

  /** `IndexExpression`: `[a]`, or a range `[a:b]` with either bound
      optional. */
  datatype IndexExpr<E> = IndexExpr(left: Option<E>, isRange: bool, right: Option<E>)

  /** `ParseIndexExpression` as written. After the colon of a range it peeks
      at the next token and unreads it; when that token is `]`, nothing
      reads it afterwards, so `[a:]` and `[:]` leave their `]` unread. */
  function ParseIndexAsWritten<E>(p: Parser, expr: ExprParser<E>): (r: Parsed<IndexExpr<E>>)
  {
    IndexWith(p, expr, false)
  }

  /** `ParseIndexExpression` with the `]` of an open range read, as it is
      for every other index form. */
  function ParseIndexExpression<E>(p: Parser, expr: ExprParser<E>): (r: Parsed<IndexExpr<E>>)
  {
    IndexWith(p, expr, true)
  }

  /** Both versions: `readsClose` says whether an open range reads its `]`.
      Every error but those of `expr` reports the `[` token, and an index
      that is followed by neither `]` nor `:` is accepted with that token
      consumed. */
  function IndexWith<E>(p: Parser, expr: ExprParser<E>, readsClose: bool): (r: Parsed<IndexExpr<E>>)
    ensures r.Ok? ==> r.value.0.right.Some? ==> r.value.0.isRange
  {
    var (open, q) :- Next(p);
    if open.tok != LSQUARE then Err(Expected(open.pos, LSQUARE, open.lit))
    else
      var (left, q2) :- IndexLeft(q, expr);
      IndexAfterLeft(q2, left, open, expr, readsClose)
  }

  /** The lower bound, present unless the next token is `:`. */
  function IndexLeft<E>(q: Parser, expr: ExprParser<E>): (r: Parsed<Option<E>>)
  {
    var (y, q1) :- Next(q);
    if y.tok != COLON then
      var (e, q') :- expr(Unscan(q1));
      Ok((Some(e), q'))
    else Ok((None, Unscan(q1)))
  }

  /** After the lower bound: `:` opens a range; any other token ends the
      index. */
  function IndexAfterLeft<E>(q2: Parser, left: Option<E>, open: Lexeme, expr: ExprParser<E>, readsClose: bool)
    : (r: Parsed<IndexExpr<E>>)
    ensures r.Ok? ==> r.value.0.left == left
  {
    var (z, q3) :- Next(q2);
    if z.tok == COLON then IndexRange(q3, left, open, expr, readsClose)
    else Ok((IndexExpr(left, false, None), q3))
  }

  /** After the colon: `]`, or an upper bound and `]`. */
  function IndexRange<E>(q3: Parser, left: Option<E>, open: Lexeme, expr: ExprParser<E>, readsClose: bool)
    : (r: Parsed<IndexExpr<E>>)
    ensures r.Ok? ==> r.value.0.isRange && r.value.0.left == left
  {
    var (w, q4) :- Next(q3);
    if w.tok == RSQUARE then Ok((IndexExpr(left, true, None), if readsClose then q4 else Unscan(q4)))
    else
      var (e, q5) :- expr(Unscan(q4));
      var (v, q6) :- Next(q5);
      if v.tok != RSQUARE then Err(Expected(open.pos, RSQUARE, open.lit))
      else Ok((IndexExpr(left, true, Some(e)), q6))
  }

  /** The tokens of an index. */
  function IndexText(ix: IndexExpr<Tok>): seq<Tok> {
    [Punct(LSQUARE)] + OptionText(ix.left)
    + (if ix.isRange then [Punct(COLON)] + OptionText(ix.right) else [])
    + [Punct(RSQUARE)]
  }

  /** An index the grammar allows with one-token bounds: `[]` is not one,
      and only a range has an upper bound. */
  predicate IndexWritable(ix: IndexExpr<Tok>) {
    (ix.left.Some? ==> IsOperandTok(ix.left.value))
    && (ix.right.Some? ==> IsOperandTok(ix.right.value))
    && (!ix.isRange ==> ix.left.Some? && ix.right.None?)
  }

  predicate IndexFits(x: IndexExpr<Lexeme>, ix: IndexExpr<Tok>) {
    x.isRange == ix.isRange && OptionFits(x.left, ix.left) && OptionFits(x.right, ix.right)
  }

  /** Every writable index parses back to itself. With `readsClose` the
      text after the `]` is left; without it, an open range leaves its `]`
      unread. */
  lemma IndexWithRoundTrip(p: Parser, ix: IndexExpr<Tok>, rest: seq<Tok>, readsClose: bool)
    requires IndexWritable(ix) && Ahead(p, IndexText(ix) + rest)
    ensures var r := IndexWith(p, Operand, readsClose);
      r.Ok? && IndexFits(r.value.0, ix)
      && Ahead(r.value.1, if ix.isRange && ix.right.None? && !readsClose then [Punct(RSQUARE)] + rest else rest)
  {
    var after := IndexTail(ix) + rest;
    assert IndexText(ix) + rest == [Punct(LSQUARE)] + (OptionText(ix.left) + after);
    NextAhead(p, Punct(LSQUARE), OptionText(ix.left) + after);
    var q := Next(p).value.1;
    var q2 := IndexLeftStep(q, ix.left, after);
    IndexAfterLeftStep(q2, ix, rest, Next(p).value.0, readsClose);
  }

  /** The rest of an index read from its text, after the lower bound. */
  lemma IndexAfterLeftStep(q2: Parser, ix: IndexExpr<Tok>, rest: seq<Tok>, open: Lexeme, readsClose: bool)
    requires IndexWritable(ix) && Ahead(q2, IndexTail(ix) + rest)
    ensures forall left: Option<Lexeme> ::
      var r := IndexAfterLeft(q2, left, open, Operand, readsClose);
      r.Ok? && r.value.0.left == left && r.value.0.isRange == ix.isRange && OptionFits(r.value.0.right, ix.right)
      && Ahead(r.value.1, if ix.isRange && ix.right.None? && !readsClose then [Punct(RSQUARE)] + rest else rest)
  {
    if ix.isRange {
      var afterColon := OptionText(ix.right) + [Punct(RSQUARE)] + rest;
      assert IndexTail(ix) + rest == [Punct(COLON)] + afterColon;
      NextAhead(q2, Punct(COLON), afterColon);
      IndexRangeStep(Next(q2).value.1, ix, rest, open, readsClose);
    } else {
      assert IndexTail(ix) + rest == [Punct(RSQUARE)] + rest;
      NextAhead(q2, Punct(RSQUARE), rest);
    }
  }

  /** The tokens after the lower bound. */
  function IndexTail(ix: IndexExpr<Tok>): seq<Tok> {
    (if ix.isRange then [Punct(COLON)] + OptionText(ix.right) else []) + [Punct(RSQUARE)]
  }

  /** The lower bound read from its text. */
  lemma IndexLeftStep(q: Parser, left: Option<Tok>, after: seq<Tok>) returns (q2: Parser)
    requires left.Some? ==> IsOperandTok(left.value)
    requires left.None? ==> after != [] && after[0].0 == COLON
    requires Ahead(q, OptionText(left) + after)
    ensures IndexLeft(q, Operand).Ok? && IndexLeft(q, Operand).value.1 == q2
    ensures OptionFits(IndexLeft(q, Operand).value.0, left) && Ahead(q2, after)
  {
    if left.Some? {
      q2 := LowerBoundStep(q, left.value, after);
    } else {
      assert OptionText(left) + after == [after[0]] + after[1..];
      NextAhead(q, after[0], after[1..]);
      q2 := Unscan(Next(q).value.1);
    }
  }

  /** A lower bound read from its text: the operand is peeked at, unread
      and parsed. */
  lemma LowerBoundStep(q: Parser, t: Tok, after: seq<Tok>) returns (q2: Parser)
    requires IsOperandTok(t) && Ahead(q, [t] + after)
    ensures IndexLeft(q, Operand).Ok? && IndexLeft(q, Operand).value.1 == q2
    ensures OptionFits(IndexLeft(q, Operand).value.0, Some(t)) && Ahead(q2, after)
  {
    NextAhead(q, t, after);
    q2 := OperandStep(Unscan(Next(q).value.1), t, after);
  }

  /** The part of a range after its colon read from its text. */
  lemma IndexRangeStep(q3: Parser, ix: IndexExpr<Tok>, rest: seq<Tok>, open: Lexeme, readsClose: bool)
    requires ix.isRange && (ix.right.Some? ==> IsOperandTok(ix.right.value))
    requires Ahead(q3, OptionText(ix.right) + [Punct(RSQUARE)] + rest)
    ensures forall left: Option<Lexeme> ::
      var r := IndexRange(q3, left, open, Operand, readsClose);
      r.Ok? && r.value.0.left == left && OptionFits(r.value.0.right, ix.right)
      && Ahead(r.value.1, if ix.right.None? && !readsClose then [Punct(RSQUARE)] + rest else rest)
  {
    if ix.right.Some? {
      var t := ix.right.value;
      assert OptionText(ix.right) + [Punct(RSQUARE)] + rest == [t] + ([Punct(RSQUARE)] + rest);
      NextAhead(q3, t, [Punct(RSQUARE)] + rest);
      var q5 := OperandStep(Unscan(Next(q3).value.1), t, [Punct(RSQUARE)] + rest);
      NextAhead(q5, Punct(RSQUARE), rest);
    } else {
      assert OptionText(ix.right) + [Punct(RSQUARE)] + rest == [Punct(RSQUARE)] + rest;
      NextAhead(q3, Punct(RSQUARE), rest);
    }
  }

  /** `OperandAhead`, naming the parser after the operand. */
  lemma OperandStep(p: Parser, t: Tok, more: seq<Tok>) returns (q: Parser)
    requires Ahead(p, [t] + more) && IsOperandTok(t)
    ensures Operand(p).Ok? && Operand(p).value.1 == q && Fits(Operand(p).value.0, t) && Ahead(q, more)
    ensures q.source == p.source && Index(q) == Index(p) + 1
  {
    OperandAhead(p, t, more);
    q := Operand(p).value.1;
  }

  /** Every writable index parses back to itself, its `]` read. */
  lemma IndexRoundTrip(p: Parser, ix: IndexExpr<Tok>, rest: seq<Tok>)
    requires IndexWritable(ix) && Ahead(p, IndexText(ix) + rest)
    ensures var r := ParseIndexExpression(p, Operand);
      r.Ok? && IndexFits(r.value.0, ix) && Ahead(r.value.1, rest)
  {
    IndexWithRoundTrip(p, ix, rest, true);
  }

  /** As written, an open range `[a:]` or `[:]` is parsed but its `]` is
      still ahead, where the caller meets it as the next token. */
  lemma IndexOpenRangeAsWritten(p: Parser, left: Option<Tok>, rest: seq<Tok>)
    requires left.Some? ==> IsOperandTok(left.value)
    requires Ahead(p, IndexText(IndexExpr(left, true, None)) + rest)
    ensures var r := ParseIndexAsWritten(p, Operand);
      r.Ok? && r.value.0.isRange && r.value.0.right.None? && OptionFits(r.value.0.left, left)
      && Ahead(r.value.1, [Punct(RSQUARE)] + rest)
  {
    IndexWithRoundTrip(p, IndexExpr(left, true, None), rest, false);
  }

  /** `[]` is not an index: the lower bound is parsed from `]`, which
      `ParseExpression` refuses. */
  lemma EmptyIndexRefused(p: Parser, rest: seq<Tok>)
    requires Ahead(p, [Punct(LSQUARE), Punct(RSQUARE)] + rest)
    ensures var x := p.source.Nth(p.n + 2);
      ParseIndexExpression(p, Operand) == Err(Expected(x.pos, IDENT, x.lit))
  {
    assert [Punct(LSQUARE), Punct(RSQUARE)] + rest == [Punct(LSQUARE)] + ([Punct(RSQUARE)] + rest);
    NextAhead(p, Punct(LSQUARE), [Punct(RSQUARE)] + rest);
    var q := Next(p).value.1;
    LowerBoundRefused(q, rest, p.source.Nth(p.n + 2));
  }

  /** A `]` where the lower bound should be. */
  lemma LowerBoundRefused(q: Parser, rest: seq<Tok>, x: Lexeme)
    requires Ahead(q, [Punct(RSQUARE)] + rest) && x == q.source.Nth(q.n + 1)
    ensures IndexLeft(q, Operand) == Err(Expected(x.pos, IDENT, x.lit))
  {
    NextAhead(q, Punct(RSQUARE), rest);
    var q1 := Unscan(Next(q).value.1);
    NextLexeme(q1, Punct(RSQUARE), rest);
    NextLexeme(q, Punct(RSQUARE), rest);
  }

  /* ---------------------------------------------------------------------
     CallExpression
     --------------------------------------------------------------------- */

  /** `ParseCallExpression`: `(`, then arguments separated by commas, a
      trailing comma allowed, then `)`. The lexer is one that ends with
      `EOF`, as every lexer does, so that the argument loop moves on. */
  function ParseCallExpression<E>(p: Parser, expr: ExprParser<E>): (r: Parsed<seq<E>>)
    requires p.source.eof.tok == EOF && Consumes(expr)
    ensures r.Ok? ==> r.value.1.source == p.source
  {
    var (open, q) :- Next(p);
    if open.tok != LPAREN then Err(Expected(open.pos, LPAREN, open.lit))
    else CallArguments(q, expr)
  }

  /** The argument loop: a `)` ends it; otherwise the token is unread and
      an argument follows. */
  function CallArguments<E>(q: Parser, expr: ExprParser<E>): (r: Parsed<seq<E>>)
    requires q.source.eof.tok == EOF && Consumes(expr)
    ensures r.Ok? ==> r.value.1.source == q.source
    decreases Remaining(q) + 1, 1
  {
    var (y, q1) :- Next(q);
    if y.tok == RPAREN then Ok(([], q1))
    else CallArgument(q1, expr)
  }

  /** One argument, then `)` to end the loop or a comma to go on; the
      token `q1` last read is unread first. */
  function CallArgument<E>(q1: Parser, expr: ExprParser<E>): (r: Parsed<seq<E>>)
    requires q1.source.eof.tok == EOF && Consumes(expr)
    ensures r.Ok? ==> r.value.1.source == q1.source
    decreases Remaining(q1) + 1, 0
  {
    assert Advances(expr, Unscan(q1));
    var (a, q2) :- expr(Unscan(q1));
    var (z, q3) :- Next(q2);
    if z.tok == RPAREN then Ok(([a], q3))
    else if z.tok != COMMA then Err(Expected(z.pos, COMMA, z.lit))
    else
      var (more, q4) :- CallArguments(q3, expr);
      Ok(([a] + more, q4))
  }

  /** The tokens of the arguments and the closing parenthesis. */
  function ArgumentsText(args: seq<Tok>): (toks: seq<Tok>)
    ensures |toks| > 0
    decreases |args|
  {
    if args == [] then [Punct(RPAREN)]
    else if |args| == 1 then [args[0], Punct(RPAREN)]
    else [args[0], Punct(COMMA)] + ArgumentsText(args[1..])
  }

  function CallText(args: seq<Tok>): seq<Tok> {
    [Punct(LPAREN)] + ArgumentsText(args)
  }

  /** The parsed arguments are the written ones, one for one. */
  predicate AllFit(xs: seq<Lexeme>, ts: seq<Tok>) {
    |xs| == |ts| && forall i | 0 <= i < |ts| :: Fits(xs[i], ts[i])
  }

  predicate AllOperands(ts: seq<Tok>) {
    forall i | 0 <= i < |ts| :: IsOperandTok(ts[i])
  }

  /** A call with one-token arguments parses back to its arguments, its
      `)` read. */
  lemma CallRoundTrip(p: Parser, args: seq<Tok>, rest: seq<Tok>)
    requires p.source.eof.tok == EOF && AllOperands(args) && Ahead(p, CallText(args) + rest)
    ensures (OperandConsumes(); var r := ParseCallExpression(p, Operand);
      r.Ok? && AllFit(r.value.0, args) && Ahead(r.value.1, rest))
  {
    OperandConsumes();
    var after := ArgumentsText(args) + rest;
    assert Next(p).Ok? && Next(p).value.0.tok == LPAREN && Ahead(Next(p).value.1, after) by {
      assert CallText(args) + rest == [Punct(LPAREN)] + after;
      NextAhead(p, Punct(LPAREN), after);
    }
    CallOpen(p, Operand);
    ArgumentsRoundTrip(Next(p).value.1, args, rest);
  }


  /** `ParseCallExpression` after its `(`. */
  lemma CallOpen<E>(p: Parser, expr: ExprParser<E>)
    requires p.source.eof.tok == EOF && Consumes(expr)
    requires Next(p).Ok? && Next(p).value.0.tok == LPAREN
    ensures ParseCallExpression(p, expr) == CallArguments(Next(p).value.1, expr)
  {
  }

  /** The arguments and `)` read from their text. */
  lemma {:induction false} ArgumentsRoundTrip(q: Parser, args: seq<Tok>, rest: seq<Tok>)
    requires q.source.eof.tok == EOF && AllOperands(args) && Ahead(q, ArgumentsText(args) + rest)
    ensures (OperandConsumes(); var r := CallArguments(q, Operand);
      r.Ok? && AllFit(r.value.0, args) && Ahead(r.value.1, rest))
    decreases |args|, 2
  {
    OperandConsumes();
    var after := ArgumentsText(args) + rest;
    Uncons(after);
    NextAhead(q, after[0], after[1..]);
    if args != [] {
      assert after[0] == args[0];
      ArgumentRoundTrip(Next(q).value.1, args, rest);
    }
  }

  /** One argument and what follows it read from their text. */
  lemma {:induction false} ArgumentRoundTrip(q1: Parser, args: seq<Tok>, rest: seq<Tok>)
    requires args != [] && q1.source.eof.tok == EOF && AllOperands(args)
    requires Ahead(Unscan(q1), ArgumentsText(args) + rest)
    ensures (OperandConsumes(); var r := CallArgument(q1, Operand);
      r.Ok? && AllFit(r.value.0, args) && Ahead(r.value.1, rest))
    decreases |args|, 1
  {
    if |args| == 1 {
      LastArgument(q1, args[0], rest);
    } else {
      ArgumentsAfterComma(q1, args, rest);
    }
  }

  /** The inductive step of `ArgumentRoundTrip`: an argument, a comma and
      the remaining arguments. */
  lemma {:induction false} ArgumentsAfterComma(q1: Parser, args: seq<Tok>, rest: seq<Tok>)
    requires |args| > 1 && q1.source.eof.tok == EOF && AllOperands(args)
    requires Ahead(Unscan(q1), ArgumentsText(args) + rest)
    ensures (OperandConsumes(); var r := CallArgument(q1, Operand);
      r.Ok? && AllFit(r.value.0, args) && Ahead(r.value.1, rest))
    decreases |args|, 0
  {
    OperandConsumes();
    var more := ArgumentsText(args[1..]) + rest;
    ArgumentStep(Unscan(q1), args, rest, Punct(COMMA), more);
    var q2 := Operand(Unscan(q1)).value.1;
    ArgumentsRoundTrip(Next(q2).value.1, args[1..], rest);
    NextArgument(q1, args, rest);
  }

  /** The last argument and `)` read from their text. */
  lemma LastArgument(q1: Parser, arg: Tok, rest: seq<Tok>)
    requires q1.source.eof.tok == EOF && IsOperandTok(arg)
    requires Ahead(Unscan(q1), ArgumentsText([arg]) + rest)
    ensures (OperandConsumes(); var r := CallArgument(q1, Operand);
      r.Ok? && AllFit(r.value.0, [arg]) && Ahead(r.value.1, rest))
  {
    OperandConsumes();
    var q0 := Unscan(q1);
    assert Operand(q0).Ok? && Fits(Operand(q0).value.0, arg)
      && Next(Operand(q0).value.1).Ok? && Next(Operand(q0).value.1).value.0.tok == RPAREN
      && Ahead(Next(Operand(q0).value.1).value.1, rest) by {
      ArgumentStep(q0, [arg], rest, Punct(RPAREN), rest);
    }
    ArgumentEnds(q1, Operand);
    AllFitOne(Operand(q0).value.0, arg);
  }

  lemma AllFitOne(x: Lexeme, t: Tok)
    requires Fits(x, t)
    ensures AllFit([x], [t])
  {
  }

  /** An argument and a comma, when the arguments after them parse. */
  lemma NextArgument(q1: Parser, args: seq<Tok>, rest: seq<Tok>)
    requires |args| > 1 && q1.source.eof.tok == EOF && AllOperands(args)
    requires Ahead(Unscan(q1), ArgumentsText(args) + rest)
    requires Operand(Unscan(q1)).Ok?
    requires (OperandConsumes(); var q2 := Operand(Unscan(q1)).value.1;
      Next(q2).Ok? && Next(q2).value.0.tok == COMMA
      && var r := CallArguments(Next(q2).value.1, Operand);
      r.Ok? && AllFit(r.value.0, args[1..]) && Ahead(r.value.1, rest))
    ensures (OperandConsumes(); var r := CallArgument(q1, Operand);
      r.Ok? && AllFit(r.value.0, args) && Ahead(r.value.1, rest))
  {
    OperandConsumes();
    var more := ArgumentsText(args[1..]) + rest;
    ArgumentStep(Unscan(q1), args, rest, Punct(COMMA), more);
    var q2 := Operand(Unscan(q1)).value.1;
    ArgumentGoesOn(q1, Operand);
    var q3 := Next(q2).value.1;
    AllFitCons(Operand(Unscan(q1)).value.0, args[0], CallArguments(q3, Operand).value.0, args[1..]);
    Uncons(args);
  }

  /** `CallArgument` when its argument is followed by `)`. */
  lemma ArgumentEnds<E>(q1: Parser, expr: ExprParser<E>)
    requires q1.source.eof.tok == EOF && Consumes(expr)
    requires expr(Unscan(q1)).Ok? && Next(expr(Unscan(q1)).value.1).Ok?
    requires Next(expr(Unscan(q1)).value.1).value.0.tok == RPAREN
    ensures CallArgument(q1, expr) == Ok(([expr(Unscan(q1)).value.0], Next(expr(Unscan(q1)).value.1).value.1))
  {
  }

  /** `CallArgument` when its argument is followed by a comma and more
      arguments. */
  lemma ArgumentGoesOn<E>(q1: Parser, expr: ExprParser<E>)
    requires q1.source.eof.tok == EOF && Consumes(expr)
    requires expr(Unscan(q1)).Ok? && Next(expr(Unscan(q1)).value.1).Ok?
    requires Next(expr(Unscan(q1)).value.1).value.0.tok == COMMA
    ensures var q3 := Next(expr(Unscan(q1)).value.1).value.1;
      q3.source.eof.tok == EOF && Remaining(q3) < Remaining(q1)
    ensures var q3 := Next(expr(Unscan(q1)).value.1).value.1;
      CallArguments(q3, expr).Ok? ==>
        CallArgument(q1, expr)
        == Ok(([expr(Unscan(q1)).value.0] + CallArguments(q3, expr).value.0, CallArguments(q3, expr).value.1))
  {
    assert Advances(expr, Unscan(q1));
  }

  /** An argument and the token after it read from their text. */
  lemma {:induction false} ArgumentStep(q: Parser, args: seq<Tok>, rest: seq<Tok>, sep: Tok, more: seq<Tok>)
    requires args != [] && AllOperands(args) && Ahead(q, ArgumentsText(args) + rest)
    requires sep == (if |args| == 1 then Punct(RPAREN) else Punct(COMMA))
    requires more == (if |args| == 1 then rest else ArgumentsText(args[1..]) + rest)
    ensures Operand(q).Ok? && Fits(Operand(q).value.0, args[0])
    ensures Next(Operand(q).value.1).Ok? && Next(Operand(q).value.1).value.0.tok == sep.0
    ensures Ahead(Next(Operand(q).value.1).value.1, more)
  {
    ArgumentsTextHead(args, rest, sep, more);
    var q2 := OperandStep(q, args[0], [sep] + more);
    NextAhead(q2, sep, more);
  }

  /** The text of the arguments: the first, then its separator. */
  lemma ArgumentsTextHead(args: seq<Tok>, rest: seq<Tok>, sep: Tok, more: seq<Tok>)
    requires args != []
    requires sep == (if |args| == 1 then Punct(RPAREN) else Punct(COMMA))
    requires more == (if |args| == 1 then rest else ArgumentsText(args[1..]) + rest)
    ensures ArgumentsText(args) + rest == [args[0]] + ([sep] + more)
  {
    if |args| == 1 {
      assert ArgumentsText(args) == [args[0], sep];
      PairThen(args[0], sep, [], rest);
    } else {
      var t := ArgumentsText(args[1..]);
      assert ArgumentsText(args) == [args[0], sep] + t;
      PairThen(args[0], sep, t, rest);
    }
  }

  lemma PairThen<T>(a: T, c: T, t: seq<T>, rest: seq<T>)
    ensures [a, c] + t + rest == [a] + ([c] + (t + rest))
  {
  }

  lemma AllFitCons(x: Lexeme, t: Tok, xs: seq<Lexeme>, ts: seq<Tok>)
    requires Fits(x, t) && AllFit(xs, ts)
    ensures AllFit([x] + xs, [t] + ts)
  {
    assert forall i | 0 < i < |ts| + 1 :: ([x] + xs)[i] == xs[i - 1] && ([t] + ts)[i] == ts[i - 1];
  }

  /** A call whose second argument follows the first without a comma, as
      in `fn(1 2)`: the error names the comma and the token found
      instead. */
  lemma CallMissingComma(p: Parser, a: Tok, b: Tok, rest: seq<Tok>)
    requires p.source.eof.tok == EOF && IsOperandTok(a) && IsOperandTok(b)
    requires Ahead(p, [Punct(LPAREN), a, b] + rest)
    ensures (OperandConsumes(); var z := p.source.Nth(p.n + 3);
      ParseCallExpression(p, Operand) == Err(Expected(z.pos, COMMA, z.lit)))
  {
    OperandConsumes();
    assert [Punct(LPAREN), a, b] + rest == [Punct(LPAREN)] + ([a] + ([b] + rest));
    var q := CallOpenStep(p, [a] + ([b] + rest));
    ArgumentsMissingComma(q, a, b, rest, p.source.Nth(p.n + 3));
  }

  /** The `(` of a call read from its text. */
  lemma CallOpenStep(p: Parser, more: seq<Tok>) returns (q: Parser)
    requires p.source.eof.tok == EOF && Ahead(p, [Punct(LPAREN)] + more)
    ensures Ahead(q, more) && q.source == p.source && q.n == p.n + 1
    ensures (OperandConsumes(); ParseCallExpression(p, Operand) == CallArguments(q, Operand))
  {
    OperandConsumes();
    NextAhead(p, Punct(LPAREN), more);
    CallOpen(p, Operand);
    q := Next(p).value.1;
  }

  /** The arguments of such a call, after its `(`. */
  lemma ArgumentsMissingComma(q: Parser, a: Tok, b: Tok, rest: seq<Tok>, z: Lexeme)
    requires q.source.eof.tok == EOF && IsOperandTok(a) && IsOperandTok(b)
    requires Ahead(q, [a] + ([b] + rest)) && z == q.source.Nth(q.n + 2)
    ensures (OperandConsumes(); CallArguments(q, Operand) == Err(Expected(z.pos, COMMA, z.lit)))
  {
    var q1 := NextBack(q, a, [b] + rest);
    ArgumentsUnseparated(q, q1, a, b, rest, z);
  }

  /** The same, with the parser after the first argument's token named. */
  lemma ArgumentsUnseparated(q: Parser, q1: Parser, a: Tok, b: Tok, rest: seq<Tok>, z: Lexeme)
    requires q.source.eof.tok == EOF && IsOperandTok(a) && IsOperandTok(b)
    requires Next(q).Ok? && Next(q).value.1 == q1 && Next(q).value.0.tok == a.0
    requires Ahead(Unscan(q1), [a] + ([b] + rest)) && z == Unscan(q1).source.Nth(Unscan(q1).n + 2)
    ensures (OperandConsumes(); CallArguments(q, Operand) == Err(Expected(z.pos, COMMA, z.lit)))
  {
    OperandConsumes();
    OperandNotSkipped(a);
    ArgumentsGoOn(q, Operand);
    MissingComma(q1, a, b, rest, z);
  }

  /** `CallArguments` when the next token does not close the call. */
  lemma ArgumentsGoOn<E>(q: Parser, expr: ExprParser<E>)
    requires q.source.eof.tok == EOF && Consumes(expr)
    requires Next(q).Ok? && Next(q).value.0.tok != RPAREN
    ensures CallArguments(q, expr) == CallArgument(Next(q).value.1, expr)
  {
  }

  /** An argument followed by another without a comma between them. */
  lemma MissingComma(q1: Parser, a: Tok, b: Tok, rest: seq<Tok>, z: Lexeme)
    requires q1.source.eof.tok == EOF && IsOperandTok(a) && IsOperandTok(b)
    requires Ahead(Unscan(q1), [a] + ([b] + rest))
    requires z == Unscan(q1).source.Nth(Unscan(q1).n + 2)
    ensures (OperandConsumes(); CallArgument(q1, Operand) == Err(Expected(z.pos, COMMA, z.lit)))
  {
    OperandConsumes();
    var q2 := OperandThen(Unscan(q1), a, b, rest);
    ArgumentUnseparated(q1, Operand, Operand(Unscan(q1)).value.0, q2, z);
  }

  /** An operand read from its text, and the token after it. */
  lemma OperandThen(q: Parser, a: Tok, b: Tok, rest: seq<Tok>) returns (q2: Parser)
    requires IsOperandTok(a) && IsOperandTok(b) && Ahead(q, [a] + ([b] + rest))
    ensures Operand(q).Ok? && Operand(q).value.1 == q2 && Next(q2).Ok?
    ensures Next(q2).value.0 == q.source.Nth(q.n + 2) && Next(q2).value.0.tok == b.0
  {
    q2 := OperandStep(q, a, [b] + rest);
    OperandNotSkipped(b);
    NextAhead(q2, b, rest);
    NextLexeme(q2, b, rest);
  }

  /** `CallArgument` when its argument is followed by neither `)` nor a
      comma. */
  lemma ArgumentUnseparated<E>(q1: Parser, expr: ExprParser<E>, a: E, q2: Parser, z: Lexeme)
    requires q1.source.eof.tok == EOF && Consumes(expr)
    requires expr(Unscan(q1)) == Ok((a, q2)) && Next(q2).Ok? && Next(q2).value.0 == z
    requires z.tok != RPAREN && z.tok != COMMA
    ensures CallArgument(q1, expr) == Err(Expected(z.pos, COMMA, z.lit))
  {
  }

  /* ---------------------------------------------------------------------
     AssignmentExpression
     --------------------------------------------------------------------- */

  /** The value assigned: the literal `1` that `++` and `--` add or
      subtract, or a parsed expression. */
  datatype AssignInit<E> = One | Value(e: E)

  /** `AssignmentExpression`: a name, an operator and a value. */
  datatype Assignment<E> = Assignment(name: Selector, op: Token, init: AssignInit<E>)

  /** `ParseAssignmentExpression`: a name, then `++` or `--`, which become
      `+` or `-` with the value 1, or an assignment operator followed by an
      expression. Any other operator is refused with `ILLEGAL` as the
      expected token. */
  function ParseAssignmentExpression<E>(p: Parser, expr: ExprParser<E>): (r: Parsed<Assignment<E>>)
    ensures r.Ok? ==> (r.value.0.init.One? <==> !IsAssignmentOperator(r.value.0.op))
    ensures r.Ok? && r.value.0.init.One? ==> r.value.0.op == ADD || r.value.0.op == SUB
    ensures r.Ok? && r.value.0.init.Value? ==> r.value.0.op != INC && r.value.0.op != DEC
  {
    var (name, q) :- ParseSelector(p);
    AssignOperator(q, name, expr)
  }

  /** The operator and the value after the name. */
  function AssignOperator<E>(q: Parser, name: Selector, expr: ExprParser<E>): (r: Parsed<Assignment<E>>)
    ensures r.Ok? ==> r.value.0.name == name
  {
    var (x, q1) :- Next(q);
    if x.tok == INC || x.tok == DEC then
      Ok((Assignment(name, if x.tok == INC then ADD else SUB, One), q1))
    else if IsAssignmentOperator(x.tok) then
      var (e, q2) :- expr(q1);
      Ok((Assignment(name, x.tok, Value(e)), q2))
    else Err(Expected(x.pos, ILLEGAL, x.lit))
  }

  /** The operator an assignment written with `op` carries: the one `++`
      and `--` apply, any other operator as written. */
  function AssignedOperator(op: Token): Token {
    if op == INC || op == DEC then GetEffectOperator(op) else op
  }

  /** An assignment, written as a name, an assignment operator and a
      one-token value (none after `++` and `--`), parses back to its name,
      operator and value. */
  lemma AssignRoundTrip(p: Parser, members: seq<string>, op: Token, value: Option<Tok>, rest: seq<Tok>)
    requires members != [] && IsAssignmentOperator(op)
    requires (op == INC || op == DEC) <==> value.None?
    requires value.Some? ==> IsOperandTok(value.value)
    requires Ahead(p, SelectorText(members) + ([Punct(op)] + (OptionText(value) + rest)))
    ensures var r := ParseAssignmentExpression(p, Operand);
      r.Ok? && r.value.0.name == Selector(members) && r.value.0.op == AssignedOperator(op)
      && (value.None? ==> r.value.0.init == One)
      && (value.Some? ==> r.value.0.init.Value? && Fits(r.value.0.init.e, value.value))
      && Ahead(r.value.1, rest)
  {
    SelectorRoundTrip(p, [], members, [Punct(op)] + (OptionText(value) + rest));
    assert [] + members == members;
    AssignOperatorStep(ParseSelector(p).value.1, Selector(members), op, value, rest);
  }

  /** The operator and the value read from their text. */
  lemma AssignOperatorStep(q: Parser, name: Selector, op: Token, value: Option<Tok>, rest: seq<Tok>)
    requires IsAssignmentOperator(op)
    requires (op == INC || op == DEC) <==> value.None?
    requires value.Some? ==> IsOperandTok(value.value)
    requires Ahead(q, [Punct(op)] + (OptionText(value) + rest))
    ensures var r := AssignOperator(q, name, Operand);
      r.Ok? && r.value.0.name == name && r.value.0.op == AssignedOperator(op)
      && (value.None? ==> r.value.0.init == One)
      && (value.Some? ==> r.value.0.init.Value? && Fits(r.value.0.init.e, value.value))
      && Ahead(r.value.1, rest)
  {
    NextAhead(q, Punct(op), OptionText(value) + rest);
    if value.Some? {
      assert OptionText(value) + rest == [value.value] + rest;
      var q2 := OperandStep(Next(q).value.1, value.value, rest);
    } else {
      assert OptionText(value) + rest == rest;
    }
  }

  /** A name followed by an operator that assigns nothing, as in
      `abc != 1`, is refused; the error carries the operator's position and
      text. */
  lemma AssignRefused<E>(p: Parser, expr: ExprParser<E>, members: seq<string>, t: Token, rest: seq<Tok>)
    requires members != [] && !IsAssignmentOperator(t) && t !in Skip && t != PERIOD
    requires Ahead(p, SelectorText(members) + ([Punct(t)] + rest))
    ensures var x := p.source.Nth(p.n + 1 + |SelectorText(members)|);
      ParseAssignmentExpression(p, expr) == Err(Expected(x.pos, ILLEGAL, x.lit))
  {
    SelectorRoundTrip(p, [], members, [Punct(t)] + rest);
    var q := ParseSelector(p).value.1;
    assert q.source == p.source && q.n == p.n + |SelectorText(members)|;
    var x := q.source.Nth(q.n + 1);
    OperatorRefused(q, ParseSelector(p).value.0, expr, t, rest, x);
    AssignAfterName(p, expr);
  }

  /** After its name, an assignment is what `AssignOperator` reads. */
  lemma AssignAfterName<E>(p: Parser, expr: ExprParser<E>)
    requires ParseSelector(p).Ok?
    ensures var (name, q) := ParseSelector(p).value;
      ParseAssignmentExpression(p, expr) == AssignOperator(q, name, expr)
  {
  }

  /** `AssignOperator` on a token that is not an assignment operator. */
  lemma OperatorRefused<E>(q: Parser, name: Selector, expr: ExprParser<E>, t: Token, rest: seq<Tok>, x: Lexeme)
    requires !IsAssignmentOperator(t) && t !in Skip
    requires Ahead(q, [Punct(t)] + rest) && x == q.source.Nth(q.n + 1)
    ensures AssignOperator(q, name, expr) == Err(Expected(x.pos, ILLEGAL, x.lit))
  {
    NextAhead(q, Punct(t), rest);
    NextLexeme(q, Punct(t), rest);
  }
}
