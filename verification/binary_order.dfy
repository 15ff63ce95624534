/** Operator-precedence ordering of binary expressions
    (`orderBinaryExpression`, language/nodes/expression.go).

    `ParseExpression` reads an operand, and when an operator follows it
    parses the whole rest of the expression as the right operand, so a
    chain `a o1 b o2 c` first comes out nested to the right:
    `a o1 (b o2 c)`. `orderBinaryExpression` then rotates the tree to the
    left wherever the right child's operator binds no tighter than the
    parent's. Operands other than binary expressions are opaque here: the
    type parameter `A` stands for literals, values, calls, parenthesised
    expressions and the rest. */
module BinaryOrder {
  import opened Tokens

  datatype Expr<A> = Leaf(a: A) | Binary(left: Expr<A>, op: Token, right: Expr<A>)

  /** The number of nodes, which the rotation keeps and which bounds the
      recursion. */
  function Size<A>(e: Expr<A>): (n: nat)
    ensures n >= 1
  {
    match e
    case Leaf(_) => 1
    case Binary(l, _, r) => Size(l) + 1 + Size(r)
  }

  /** One element of the source text an expression stands for. */
  datatype Item<A> = Term(a: A) | Op(op: Token)

  /** The operands and operators of `e` in reading order. */
  function Items<A>(e: Expr<A>): seq<Item<A>> {
    match e
    case Leaf(a) => [Term(a)]
    case Binary(l, op, r) => Items(l) + [Op(op)] + Items(r)
  }

  /** `orderBinaryExpression`. Only a binary expression whose right child is
      a binary expression of lower or equal precedence is rewritten:
      `l op (rl rop rr)` becomes `(l op rl) rop rr`, and the new left child
      is ordered in turn. The text the tree stands for is unchanged, and
      the root operator is the old root's or its right child's. */
  function Order<A>(e: Expr<A>): (r: Expr<A>)
    ensures Items(r) == Items(e)
    ensures Size(r) == Size(e)
    ensures !(e.Binary? && e.right.Binary? && Precedence(e.right.op) <= Precedence(e.op)) ==> r == e
    ensures e.Binary? ==> r.Binary? && (r.op == e.op || (e.right.Binary? && r.op == e.right.op))
    decreases Size(e)
  {
    match e
    case Binary(l, op, Binary(rl, rop, rr)) =>
      if Precedence(rop) <= Precedence(op) then
        assert Size(e) == Size(l) + 1 + Size(rl) + 1 + Size(rr);
        var left := Order(Binary(l, op, rl));
        assert Items(e) == Items(l) + [Op(op)] + Items(rl) + [Op(rop)] + Items(rr);
        Binary(left, rop, rr)
      else e
    case _ => e
  }

  /** The shape precedence parsing gives with every operator
      left-associative: a binary left child binds at least as tightly as its
      parent, a binary right child strictly more tightly. */
  predicate WellOrdered<A>(e: Expr<A>) {
    match e
    case Leaf(_) => true
    case Binary(l, op, r) =>
      (l.Binary? ==> Precedence(l.op) >= Precedence(op))
      && (r.Binary? ==> Precedence(r.op) > Precedence(op))
      && WellOrdered(l) && WellOrdered(r)
  }

  /** The step `ParseExpression` takes: an operand that is not binary, an
      operator, and an already ordered right operand are ordered as a
      whole. */
  lemma {:induction false} OrderWellOrdered<A>(l: Expr<A>, op: Token, r: Expr<A>)
    requires !l.Binary? && WellOrdered(r)
    ensures WellOrdered(Order(Binary(l, op, r)))
    decreases Size(r)
  {
    match r
    case Binary(rl, rop, rr) =>
      if Precedence(rop) <= Precedence(op) {
        OrderWellOrdered(l, op, rl);
      }
    case Leaf(_) =>
  }

  /** The expression `ParseExpression` builds from the operand `first` and
      the operator/operand pairs after it: the rest is parsed first, then
      the step ordered. */
  function Chain<A>(first: A, rest: seq<(Token, A)>): Expr<A>
    decreases |rest|
  {
    if rest == [] then Leaf(first)
    else Order(Binary(Leaf(first), rest[0].0, Chain(rest[0].1, rest[1..])))
  }

  /** The operands and operators of a chain, in reading order. */
  function ChainItems<A>(first: A, rest: seq<(Token, A)>): seq<Item<A>>
    decreases |rest|
  {
    if rest == [] then [Term(first)]
    else [Term(first), Op(rest[0].0)] + ChainItems(rest[0].1, rest[1..])
  }

  /** Whatever its operators, a parsed chain reads as its source text and
      has the precedence shape. */
  lemma {:induction false} ChainParsed<A>(first: A, rest: seq<(Token, A)>)
    ensures Items(Chain(first, rest)) == ChainItems(first, rest)
    ensures WellOrdered(Chain(first, rest))
    decreases |rest|
  {
    if rest != [] {
      ChainParsed(rest[0].1, rest[1..]);
      OrderWellOrdered(Leaf(first), rest[0].0, Chain(rest[0].1, rest[1..]));
      var b := Binary(Leaf(first), rest[0].0, Chain(rest[0].1, rest[1..]));
      assert Chain(first, rest) == Order(b);
      assert Items(Order(b)) == Items(b);
    }
  }

  /** `t` extended on the right by each pair of `rest` in turn: the
      left-associative reading of `t o1 a1 o2 a2 ...`. */
  function LeftNest<A>(t: Expr<A>, rest: seq<(Token, A)>): Expr<A>
    decreases |rest|
  {
    if rest == [] then t
    else LeftNest(Binary(t, rest[0].0, Leaf(rest[0].1)), rest[1..])
  }

  lemma {:induction false} LeftNestSnoc<A>(t: Expr<A>, rest: seq<(Token, A)>, x: (Token, A))
    ensures LeftNest(t, rest + [x]) == Binary(LeftNest(t, rest), x.0, Leaf(x.1))
    decreases |rest|
  {
    if rest == [] {
      assert rest + [x] == [x];
    } else {
      assert (rest + [x])[1..] == rest[1..] + [x];
      LeftNestSnoc(Binary(t, rest[0].0, Leaf(rest[0].1)), rest[1..], x);
    }
  }

  /** Every operator of `rest` has precedence `p`. */
  predicate SamePrecedence<A>(rest: seq<(Token, A)>, p: int) {
    forall k | 0 <= k < |rest| :: Precedence(rest[k].0) == p
  }

  /** Ordering `t op (a o1 a1 ...)`, the right part already left-nested and
      all of the same precedence as `op`, nests the whole to the left. */
  lemma {:induction false} OrderLeftNest<A>(t: Expr<A>, op: Token, a: A, rest: seq<(Token, A)>)
    requires SamePrecedence(rest, Precedence(op))
    ensures Order(Binary(t, op, LeftNest(Leaf(a), rest))) == LeftNest(Binary(t, op, Leaf(a)), rest)
    decreases |rest|
  {
    if rest != [] {
      var init, x := rest[..|rest| - 1], rest[|rest| - 1];
      assert rest == init + [x];
      LeftNestSnoc(Leaf(a), init, x);
      LeftNestSnoc(Binary(t, op, Leaf(a)), init, x);
      OrderLeftNest(t, op, a, init);
    }
  }

  /** Operators of equal precedence associate to the left:
      `a - b - c` is `(a - b) - c`. */
  lemma {:induction false} ChainLeftAssociative<A>(first: A, rest: seq<(Token, A)>, p: int)
    requires SamePrecedence(rest, p)
    ensures Chain(first, rest) == LeftNest(Leaf(first), rest)
    decreases |rest|
  {
    if rest != [] {
      ChainLeftAssociative(rest[0].1, rest[1..], p);
      OrderLeftNest(Leaf(first), rest[0].0, rest[0].1, rest[1..]);
    }
  }
}
