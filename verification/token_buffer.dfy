/** The parser's token buffer (src/hyper/parser/parser.go).

    The parser pulls tokens from its lexer one at a time and keeps every
    token it has pulled, so that it can step back (`Unscan`) or jump back to
    a saved index (`Rollback`) and read the same tokens again. The lexer is
    a side-effecting reader in Go; here it is the sequence of lexemes it
    produces, followed by its end-of-input lexeme forever, and the k-th call
    to `Lex` returns the k-th element of that stream. */
module TokenBuffer {
  import opened Wrappers
  import opened Tokens
  import opened Lexer

  /** What the lexer produces: `items`, then `eof` on every later call. */
  datatype Stream = Stream(items: seq<Lexeme>, eof: Lexeme) {
    /** The lexeme returned by the k-th call to `Lex` (counting from 0). */
    function Nth(k: nat): Lexeme {
      if k < |items| then items[k] else eof
    }
  }

  /** The stream a fully tokenized input gives: its lexemes, then its final
      EOF lexeme again on every call after the last. */
  function StreamOf(lexemes: seq<Lexeme>): (st: Stream)
    requires |lexemes| > 0
    ensures forall k: nat :: k < |lexemes| ==> st.Nth(k) == lexemes[k]
    ensures forall k: nat :: k >= |lexemes| ==> st.Nth(k) == lexemes[|lexemes| - 1]
  {
    Stream(lexemes, lexemes[|lexemes| - 1])
  }

  /** `Parser`: the lexer, the tokens pulled from it so far and the cursor
      `n`, the index of the token last returned. The lexer has been called
      once per buffered token, so the next call yields `source.Nth(|tokens|)`. */
  datatype Parser = Parser(source: Stream, tokens: seq<Lexeme>, n: int) {
    /** The buffer holds exactly the tokens the lexer produced, in order. */
    predicate Valid() {
      forall j | 0 <= j < |tokens| :: tokens[j] == source.Nth(j)
    }

    /** The cursor points into the buffer or just before its start, as it
        does when only `Scan` and balanced `Unscan`s have moved it. */
    predicate InSync() {
      -1 <= n < |tokens|
    }
  }

  /** Go indexes the buffer with a negative cursor after too many `Unscan`s
      or a negative `Rollback`, which panics. */
  datatype ScanError = IndexOutOfRange(index: int) | Hangs

  /** `NewParser`: an empty buffer and the cursor at -1. */
  function NewParser(source: Stream): (p: Parser)
    ensures p.Valid() && p.InSync()
    ensures Index(p) == -1 && p.tokens == []
  {
    Parser(source, [], -1)
  }

  /** How much the parser can still read before it only sees the end of
      input again: the stream items not yet pulled, plus the buffered
      tokens ahead of the cursor. Every scan that returns something other
      than the end-of-input lexeme lowers it. */
  function Remaining(p: Parser): nat {
    (if |p.tokens| <= |p.source.items| then |p.source.items| - |p.tokens| else 0)
    + (if p.n < |p.tokens| then |p.tokens| - p.n else 0)
  }

  /** `Index`: the cursor. */
  function Index(p: Parser): int {
    p.n
  }

  /** `Scan`: moves the cursor one on; a token already in the buffer is
      returned from it, otherwise the lexer is called and its token is
      appended. The buffer is only ever extended, and a cursor that was in
      step with the buffer yields the next token of the stream. */
  function Scan(p: Parser): (r: Result<(Lexeme, Parser), ScanError>)
    ensures r.Err? <==> p.n + 1 < 0
    ensures r.Ok? ==> var (x, q) := r.value;
      (p.Valid() ==> q.Valid()) && q.source == p.source && Index(q) == Index(p) + 1
      && p.tokens <= q.tokens && |q.tokens| <= |p.tokens| + 1
    ensures r.Ok? && p.n + 1 < |p.tokens| ==> r.value.0 == p.tokens[p.n + 1] && r.value.1.tokens == p.tokens
    ensures r.Ok? && p.n + 1 >= |p.tokens| ==> r.value.0 == p.source.Nth(|p.tokens|)
    ensures p.InSync() ==> r.Ok? && r.value.1.InSync()
    ensures p.Valid() && p.InSync() ==> r.Ok? && r.value.0 == p.source.Nth(p.n + 1)
    ensures r.Ok? ==> Remaining(r.value.1) <= Remaining(p)
    ensures r.Ok? && r.value.0 != p.source.eof ==> Remaining(r.value.1) < Remaining(p)
  {
    var m := p.n + 1;
    if m < |p.tokens| then
      if m < 0 then Err(IndexOutOfRange(m))
      else Ok((p.tokens[m], p.(n := m)))
    else
      var x := p.source.Nth(|p.tokens|);
      Ok((x, p.(tokens := p.tokens + [x], n := m)))
  }

  /** `Unscan`: moves the cursor one back, without any check. */
  function Unscan(p: Parser): (q: Parser)
    ensures Index(q) == Index(p) - 1
    ensures q.tokens == p.tokens && q.source == p.source
    ensures Remaining(q) <= Remaining(p) + 1
  {
    p.(n := p.n - 1)
  }

  /** `Rollback`: puts the cursor at `k`, without any check. */
  function Rollback(p: Parser, k: int): (q: Parser)
    ensures Index(q) == k
    ensures q.tokens == p.tokens && q.source == p.source
  {
    p.(n := k)
  }

  /** A scan that is undone and repeated returns the same token and leaves
      the parser as the first scan did (unless a rollback had moved the
      cursor past the buffer, when every scan calls the lexer afresh). */
  lemma UnscanRescan(p: Parser)
    requires 0 <= p.n + 1 <= |p.tokens|
    ensures var (x, q) := Scan(p).value; Scan(Unscan(q)) == Ok((x, q))
  {
  }

  /** After a rollback to a point inside the buffer, scanning re-reads the
      buffered token after it, without calling the lexer. */
  lemma RollbackRescan(p: Parser, k: int)
    requires -1 <= k < |p.tokens| - 1
    ensures var q := Rollback(p, k);
      Scan(q).Ok? && Scan(q).value.0 == p.tokens[k + 1] && Scan(q).value.1.tokens == p.tokens
  {
  }

  /** Scanning from a cursor in step with the buffer reads the stream in
      order, whatever mix of fresh and buffered tokens that takes: the i-th
      of `count` scans returns token `n + 1 + i` of the stream. */
  function ScanMany(p: Parser, count: nat): (r: Result<(seq<Lexeme>, Parser), ScanError>)
    ensures p.Valid() && p.InSync() ==>
              r.Ok? && r.value.1.Valid() && r.value.1.InSync()
              && Index(r.value.1) == p.n + count && |r.value.0| == count
              && forall i | 0 <= i < count :: r.value.0[i] == p.source.Nth(p.n + 1 + i)
    decreases count
  {
    if count == 0 then Ok(([], p))
    else
      var (x, q) :- Scan(p);
      var (xs, q') :- ScanMany(q, count - 1);
      Ok(([x] + xs, q'))
  }

  /** `ScanIgnore`: scans until a token whose kind is not in `ignore`, and
      returns it. When every token from the cursor on is ignored, end of
      input included, the Go loop never returns; that is `Hangs` here. */
  function ScanIgnore(p: Parser, ignore: set<Token>): (r: Result<(Lexeme, Parser), ScanError>)
    ensures r.Ok? ==> var (x, q) := r.value;
      (p.Valid() ==> q.Valid()) && q.source == p.source
      && x.tok !in ignore && Index(q) > Index(p) && p.tokens <= q.tokens
    ensures r.Ok? && p.InSync() ==> r.value.1.InSync()
    ensures r == Err(Hangs) && p.Valid() ==> p.source.eof.tok in ignore
    ensures r.Ok? ==> Remaining(r.value.1) <= Remaining(p)
    ensures r.Ok? && r.value.0 != p.source.eof ==> Remaining(r.value.1) < Remaining(p)
    decreases if |p.tokens| <= |p.source.items| then |p.source.items| - |p.tokens| else 0, |p.tokens| - p.n
  {
    var (x, q) :- Scan(p);
    if x.tok !in ignore then Ok((x, q))
    else if p.n + 1 >= |p.tokens| >= |p.source.items| then Err(Hangs)
    else ScanIgnore(q, ignore)
  }

  /** From a cursor in step with the buffer, `ScanIgnore` returns the first
      token of the stream after the cursor that is not ignored, and every
      token it stepped over is ignored. */
  lemma {:induction false} ScanIgnoreSkips(p: Parser, ignore: set<Token>)
    requires p.Valid() && p.InSync() && ScanIgnore(p, ignore).Ok?
    ensures var (x, q) := ScanIgnore(p, ignore).value;
      q.InSync() && x == p.source.Nth(q.n)
      && forall k | p.n + 1 <= k < q.n :: p.source.Nth(k).tok in ignore
    decreases if |p.tokens| <= |p.source.items| then |p.source.items| - |p.tokens| else 0, |p.tokens| - p.n
  {
    var (x, q) := Scan(p).value;
    if x.tok in ignore {
      ScanIgnoreSkips(q, ignore);
    }
  }

  /** From a cursor in step with the buffer, when the next token of the
      stream is not ignored, `ScanIgnore` is a single `Scan`. */
  lemma ScanIgnoreSignificant(p: Parser, ignore: set<Token>)
    requires p.Valid() && p.InSync() && p.source.Nth(p.n + 1).tok !in ignore
    ensures ScanIgnore(p, ignore) == Scan(p)
  {
  }
}
