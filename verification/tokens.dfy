/** The token classes of the language (src/hyper/tokens/token.go).

    Go declares `Token` as an `int` and its values with `iota`, delimiting the
    operator, comparator, assignment and keyword groups by unexported marker
    constants (`operator_beg`, `operator_end`, ...). The model keeps exactly
    that representation: a `Token` is one of the 76 declared integers, the
    markers are constants like every other token, and every classifier is the
    same range test as in Go. The contracts then say which tokens each range
    holds, so the reader never has to count `iota` lines. */
module Tokens {

  /** The declared token values, `EOF` (0) through `keyword_end` (75). */
  newtype Token = x: int | 0 <= x <= 75

  const EOF: Token := 0
  const ILLEGAL: Token := 1
  const COMMENT: Token := 2
  const NEWLINE: Token := 3
  const IDENT: Token := 4
  const INT: Token := 5
  const FLOAT: Token := 6
  const STRING: Token := 7

  const OperatorBeg: Token := 8
  const ADD: Token := 9
  const SUB: Token := 10
  const MUL: Token := 11
  const PWR: Token := 12
  const QUO: Token := 13
  const REM: Token := 14
  const OperatorEnd: Token := 15

  const ComparatorBeg: Token := 16
  const AND: Token := 17
  const OR: Token := 18
  const EQUALS: Token := 19
  const LESS: Token := 20
  const GREATER: Token := 21
  const NOT: Token := 22
  const NOT_EQUALS: Token := 23
  const LESS_EQUAL: Token := 24
  const GREATER_EQUAL: Token := 25
  const ComparatorEnd: Token := 26

  const AssignBeg: Token := 27
  const ASSIGN: Token := 28
  const ADD_ASSIGN: Token := 29
  const SUB_ASSIGN: Token := 30
  const MUL_ASSIGN: Token := 31
  const PWR_ASSIGN: Token := 32
  const QUO_ASSIGN: Token := 33
  const REM_ASSIGN: Token := 34
  const INC: Token := 35
  const DEC: Token := 36
  const AssignEnd: Token := 37

  const DEFINE: Token := 38
  const ELLIPSIS: Token := 39
  const PERIOD: Token := 40
  const COMMA: Token := 41
  const SEMICOLON: Token := 42
  const COLON: Token := 43
  const QUESTION: Token := 44
  const BACKTICK: Token := 45
  const LCURLY: Token := 46
  const RCURLY: Token := 47
  const LSQUARE: Token := 48
  const RSQUARE: Token := 49
  const LPAREN: Token := 50
  const RPAREN: Token := 51

  const KeywordBeg: Token := 52
  const IMPORT: Token := 53
  const CONTEXT: Token := 54
  const USE: Token := 55
  const PRIVATE: Token := 56
  const EXTENDS: Token := 57
  const FUNC: Token := 58
  const VAR: Token := 59
  const IF: Token := 60
  const ELSE: Token := 61
  const WHILE: Token := 62
  const FOR: Token := 63
  const IN: Token := 64
  const CONTINUE: Token := 65
  const BREAK: Token := 66
  const SWITCH: Token := 67
  const CASE: Token := 68
  const DEFAULT: Token := 69
  const GUARD: Token := 70
  const RETURN: Token := 71
  const THROW: Token := 72
  const TRY: Token := 73
  const PARTIAL: Token := 74
  const KeywordEnd: Token := 75

  /** A source position: line (from 1) and column of the lexer. */
  datatype Position = Position(line: int, column: int)

  /** The zero value of `Token`, returned by `GetEffectOperator` for no effect. */
  const ZeroToken: Token := EOF

  /** The lowest precedence, given to every token that is not a binary operator. */
  const LowestPrec := 0
  /** The precedence of unary operators, above every binary operator. */
  const UnaryPrec := 7

  /** Arithmetic operators: strictly between `operator_beg` and `operator_end`. */
  predicate IsOperator(t: Token) {
    OperatorBeg < t < OperatorEnd
  }

  /** Logical and comparison operators, the unary `!` included. */
  predicate IsComparableOperator(t: Token) {
    ComparatorBeg < t < ComparatorEnd
  }

  /** Plain, compound and increment/decrement assignment operators. */
  predicate IsAssignmentOperator(t: Token) {
    AssignBeg < t < AssignEnd
  }

  /** Keywords, from `import` to `Partial`. */
  predicate IsKeyword(t: Token) {
    KeywordBeg < t < KeywordEnd
  }

  /** The token table: the literal spelling of each token. The range markers
      have no entry and read as the empty string. */
  function Spelling(t: Token): string {
    if IsKeyword(t) then KeywordSpelling(t)
    else if t == EOF then "EOF" else if t == ILLEGAL then "ILLEGAL"
    else if t == COMMENT then "COMMENT" else if t == NEWLINE then "NEWLINE"
    else if t == IDENT then "identifier" else if t == INT then "INT"
    else if t == FLOAT then "FLOAT" else if t == STRING then "STRING"
    else if t == ADD then "+" else if t == SUB then "-" else if t == MUL then "*"
    else if t == PWR then "**" else if t == QUO then "/" else if t == REM then "%"
    else if t == AND then "&&" else if t == OR then "||"
    else if t == EQUALS then "==" else if t == LESS then "<" else if t == GREATER then ">"
    else if t == NOT then "!" else if t == NOT_EQUALS then "!="
    else if t == LESS_EQUAL then "<=" else if t == GREATER_EQUAL then ">="
    else if t == ASSIGN then "=" else if t == ADD_ASSIGN then "+=" else if t == SUB_ASSIGN then "-="
    else if t == MUL_ASSIGN then "*=" else if t == PWR_ASSIGN then "**="
    else if t == QUO_ASSIGN then "/=" else if t == REM_ASSIGN then "%="
    else if t == INC then "++" else if t == DEC then "--"
    else if t == DEFINE then ":=" else if t == ELLIPSIS then "..."
    else if t == PERIOD then "." else if t == COMMA then "," else if t == SEMICOLON then ";"
    else if t == COLON then ":" else if t == QUESTION then "?" else if t == BACKTICK then "`"
    else if t == LCURLY then "{" else if t == RCURLY then "}"
    else if t == LSQUARE then "[" else if t == RSQUARE then "]"
    else if t == LPAREN then "(" else if t == RPAREN then ")"
    else ""
  }

  /** The keyword part of the token table. */
  function KeywordSpelling(t: Token): string
    requires IsKeyword(t)
  {
    if t == IMPORT then "import" else if t == CONTEXT then "context"
    else if t == USE then "use" else if t == PRIVATE then "private"
    else if t == EXTENDS then "extends" else if t == FUNC then "func"
    else if t == VAR then "var" else if t == IF then "if" else if t == ELSE then "else"
    else if t == WHILE then "while" else if t == FOR then "for" else if t == IN then "in"
    else if t == CONTINUE then "continue" else if t == BREAK then "break"
    else if t == SWITCH then "switch" else if t == CASE then "case"
    else if t == DEFAULT then "default" else if t == GUARD then "guard"
    else if t == RETURN then "return" else if t == THROW then "throw"
    else if t == TRY then "try" else "Partial"
  }

  /** The tokens that combine two operands in a binary expression. */
  predicate IsBinaryOperator(t: Token) {
    (IsOperator(t) || IsComparableOperator(t)) && t != NOT
  }

  /** Binding strength of a binary operator: `||` 1, `&&` 2, comparisons 3,
      additive 4, multiplicative 5, `**` 6; every other token binds at 0. */
  function Precedence(op: Token): (r: int)
    ensures r > LowestPrec <==> IsBinaryOperator(op)
    ensures LowestPrec <= r < UnaryPrec
    ensures r == 3 <==> op in {EQUALS, NOT_EQUALS, LESS, LESS_EQUAL, GREATER, GREATER_EQUAL}
  {
    if op == OR then 1
    else if op == AND then 2
    else if op in {EQUALS, NOT_EQUALS, LESS, LESS_EQUAL, GREATER, GREATER_EQUAL} then 3
    else if op in {ADD, SUB} then 4
    else if op in {MUL, QUO, REM} then 5
    else if op == PWR then 6
    else LowestPrec
  }

  /** The arithmetic operator a compound assignment applies: `x op= y` and
      `x++`/`x--` update `x` with `op`. Plain `=`, and every token that is not
      an assignment, has no effect operator and yields the zero token. */
  function GetEffectOperator(t: Token): (r: Token)
    ensures IsAssignmentOperator(t) && t != ASSIGN ==> IsOperator(r)
    ensures !IsAssignmentOperator(t) || t == ASSIGN ==> r == ZeroToken
    ensures t in {ADD_ASSIGN, SUB_ASSIGN, MUL_ASSIGN, PWR_ASSIGN, QUO_ASSIGN, REM_ASSIGN} ==>
      Spelling(t) == Spelling(r) + "="
    ensures t in {INC, DEC} ==> Spelling(t) == Spelling(r) + Spelling(r)
  {
    if t in {ADD_ASSIGN, INC} then ADD
    else if t in {SUB_ASSIGN, DEC} then SUB
    else if t == MUL_ASSIGN then MUL
    else if t == PWR_ASSIGN then PWR
    else if t == QUO_ASSIGN then QUO
    else if t == REM_ASSIGN then REM
    else ZeroToken
  }

  /** Classifies an identifier through the keyword map, which is keyed by the
      spelling of every keyword: a keyword spelling (compared exactly, so
      `partial` is not `Partial`) yields its keyword, anything else `IDENT`. */
  function Lookup(ident: string): (r: Token)
    ensures r == IDENT || (IsKeyword(r) && Spelling(r) == ident)
  {
    match ident
    case "import" => IMPORT
    case "context" => CONTEXT
    case "use" => USE
    case "private" => PRIVATE
    case "extends" => EXTENDS
    case "func" => FUNC
    case "var" => VAR
    case "if" => IF
    case "else" => ELSE
    case "while" => WHILE
    case "for" => FOR
    case "in" => IN
    case "continue" => CONTINUE
    case "break" => BREAK
    case "switch" => SWITCH
    case "case" => CASE
    case "default" => DEFAULT
    case "guard" => GUARD
    case "return" => RETURN
    case "throw" => THROW
    case "try" => TRY
    case "Partial" => PARTIAL
    case _ => IDENT
  }

  /** The keyword map is keyed by the token table over the keyword range: every
      keyword's own spelling looks it up. */
  lemma LookupKeyword(k: Token)
    requires IsKeyword(k)
    ensures Lookup(Spelling(k)) == k
  {
  }

  /** `Lookup` answers `IDENT` exactly for the strings no keyword is spelled as. */
  lemma LookupIdent(ident: string)
    ensures Lookup(ident) == IDENT <==> forall k :: IsKeyword(k) ==> Spelling(k) != ident
  {
    if Lookup(ident) == IDENT {
      forall k | IsKeyword(k)
        ensures Spelling(k) != ident
      {
        LookupKeyword(k);
      }
    }
  }

  /** No two keywords share a spelling, so building the keyword map loses no entry. */
  lemma KeywordSpellingsDistinct(k: Token, k': Token)
    requires IsKeyword(k) && IsKeyword(k') && Spelling(k) == Spelling(k')
    ensures k == k'
  {
    LookupKeyword(k);
    LookupKeyword(k');
  }

  /** The members of each range, as the token table lists them. */
  lemma TokenClasses(t: Token)
    ensures IsOperator(t) <==> t in {ADD, SUB, MUL, PWR, QUO, REM}
    ensures IsComparableOperator(t) <==>
      t in {AND, OR, EQUALS, LESS, GREATER, NOT, NOT_EQUALS, LESS_EQUAL, GREATER_EQUAL}
    ensures IsAssignmentOperator(t) <==>
      t in {ASSIGN, ADD_ASSIGN, SUB_ASSIGN, MUL_ASSIGN, PWR_ASSIGN, QUO_ASSIGN, REM_ASSIGN, INC, DEC}
    ensures IsKeyword(t) <==> t in {
      IMPORT, CONTEXT, USE, PRIVATE, EXTENDS, FUNC, VAR, IF, ELSE, WHILE, FOR,
      IN, CONTINUE, BREAK, SWITCH, CASE, DEFAULT, GUARD, RETURN, THROW, TRY, PARTIAL}
  {
  }

  /** The four classified ranges never overlap. */
  lemma OperatorRangesDisjoint(t: Token)
    ensures !(IsOperator(t) && IsComparableOperator(t))
    ensures !(IsOperator(t) && IsAssignmentOperator(t))
    ensures !(IsComparableOperator(t) && IsAssignmentOperator(t))
    ensures IsKeyword(t) ==> !IsOperator(t) && !IsComparableOperator(t) && !IsAssignmentOperator(t)
  {
  }

  /** Operators bind in the documented order, and `**` binds tightest. */
  lemma PrecedenceOrder()
    ensures Precedence(OR) < Precedence(AND) < Precedence(EQUALS)
    ensures Precedence(EQUALS) < Precedence(ADD) == Precedence(SUB)
    ensures Precedence(SUB) < Precedence(MUL) == Precedence(QUO) == Precedence(REM)
    ensures Precedence(REM) < Precedence(PWR)
    ensures forall t :: Precedence(t) <= Precedence(PWR)
  {
  }
}
