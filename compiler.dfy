/**
 * The single-pass Pratt compiler of compiler.c: it reads a token stream and
 * appends bytecode to a chunk, with no syntax tree in between.
 *
 * The correctness of precedence climbing is stated against `Expr`, a syntax
 * tree that exists only in the specification: for every well-formed tree, the
 * parser fed the tree's tokens emits the tree's postfix code (operands first,
 * then the operator), which is what precedence and left associativity mean.
 */
module Compiler {
  import opened Values
  import opened Chunks

  /**
   * The token types of the scanner (scanner.h, which is not part of this
   * model, declares the enum), numbered in the order of the rows of rules[].
   */
  newtype TokenType = k: int | 0 <= k < 40

  const TokenLeftParen: TokenType := 0
  const TokenRightParen: TokenType := 1
  const TokenLeftBrace: TokenType := 2
  const TokenRightBrace: TokenType := 3
  const TokenComma: TokenType := 4
  const TokenDot: TokenType := 5
  const TokenMinus: TokenType := 6
  const TokenPlus: TokenType := 7
  const TokenSemicolon: TokenType := 8
  const TokenSlash: TokenType := 9
  const TokenStar: TokenType := 10
  const TokenBang: TokenType := 11
  const TokenBangEqual: TokenType := 12
  const TokenEqual: TokenType := 13
  const TokenEqualEqual: TokenType := 14
  const TokenGreater: TokenType := 15
  const TokenGreaterEqual: TokenType := 16
  const TokenLess: TokenType := 17
  const TokenLessEqual: TokenType := 18
  const TokenIdentifier: TokenType := 19
  const TokenString: TokenType := 20
  const TokenNumber: TokenType := 21
  const TokenAnd: TokenType := 22
  const TokenClass: TokenType := 23
  const TokenElse: TokenType := 24
  const TokenFalse: TokenType := 25
  const TokenFor: TokenType := 26
  const TokenFun: TokenType := 27
  const TokenIf: TokenType := 28
  const TokenNil: TokenType := 29
  const TokenOr: TokenType := 30
  const TokenPrint: TokenType := 31
  const TokenReturn: TokenType := 32
  const TokenSuper: TokenType := 33
  const TokenThis: TokenType := 34
  const TokenTrue: TokenType := 35
  const TokenVar: TokenType := 36
  const TokenWhile: TokenType := 37
  const TokenError: TokenType := 38
  const TokenEof: TokenType := 39

  /** token_t: its type, its 1-based source line and its lexeme. */
  datatype Token = Token(kind: TokenType, line: int, lexeme: seq<char>)

  // Precedence levels, lowest first (the Precedence enum).
  const PrecNone: nat := 0
  const PrecAssignment: nat := 1
  const PrecOr: nat := 2
  const PrecAnd: nat := 3
  const PrecEquality: nat := 4
  const PrecComparison: nat := 5
  const PrecTerm: nat := 6
  const PrecFactor: nat := 7
  const PrecUnary: nat := 8
  const PrecCall: nat := 9
  const PrecPrimary: nat := 10

  /** The parse actions a rule can name; NoFn is the table's NULL. */
  datatype ParseFn = NoFn | GroupingFn | UnaryFn | BinaryFn | NumberFn | LiteralFn

  datatype ParseRule = ParseRule(prefix: ParseFn, infix: ParseFn, precedence: nat)

  /**
   * _get_rule: the row of rules[] for a token type. Every row not listed
   * explicitly is {NULL, NULL, PREC_NONE}.
   */
  function GetRule(kind: TokenType): (r: ParseRule)
    ensures r.precedence != PrecNone <==> r.infix == BinaryFn
    ensures r.infix == BinaryFn <==> kind in {TokenMinus, TokenPlus, TokenSlash, TokenStar, TokenBangEqual,
                                              TokenEqualEqual, TokenGreater, TokenGreaterEqual, TokenLess, TokenLessEqual}
    ensures r.precedence <= PrecFactor
    ensures r.prefix == GroupingFn <==> kind == TokenLeftParen
    ensures r.prefix == UnaryFn <==> kind in {TokenMinus, TokenBang}
    ensures r.prefix == NumberFn <==> kind == TokenNumber
    ensures r.prefix == LiteralFn <==> kind in {TokenFalse, TokenNil, TokenTrue}
    ensures r.prefix != BinaryFn && r.infix in {NoFn, BinaryFn}
  {
    if kind == TokenLeftParen then ParseRule(GroupingFn, NoFn, PrecNone)
    else if kind == TokenMinus then ParseRule(UnaryFn, BinaryFn, PrecTerm)
    else if kind == TokenPlus then ParseRule(NoFn, BinaryFn, PrecTerm)
    else if kind == TokenSlash then ParseRule(NoFn, BinaryFn, PrecFactor)
    else if kind == TokenStar then ParseRule(NoFn, BinaryFn, PrecFactor)
    else if kind == TokenBang then ParseRule(UnaryFn, NoFn, PrecNone)
    else if kind == TokenBangEqual then ParseRule(NoFn, BinaryFn, PrecEquality)
    else if kind == TokenEqualEqual then ParseRule(NoFn, BinaryFn, PrecEquality)
    else if kind == TokenGreater then ParseRule(NoFn, BinaryFn, PrecComparison)
    else if kind == TokenGreaterEqual then ParseRule(NoFn, BinaryFn, PrecComparison)
    else if kind == TokenLess then ParseRule(NoFn, BinaryFn, PrecComparison)
    else if kind == TokenLessEqual then ParseRule(NoFn, BinaryFn, PrecComparison)
    else if kind == TokenNumber then ParseRule(NumberFn, NoFn, PrecNone)
    else if kind == TokenFalse then ParseRule(LiteralFn, NoFn, PrecNone)
    else if kind == TokenNil then ParseRule(LiteralFn, NoFn, PrecNone)
    else if kind == TokenTrue then ParseRule(LiteralFn, NoFn, PrecNone)
    else ParseRule(NoFn, NoFn, PrecNone)
  }

  /** The bytes _binary emits for each operator; the composite ones negate the opposite test. */
  function BinaryBytes(kind: TokenType): seq<Byte> {
    if kind == TokenBangEqual then [Encode(OpEqual), Encode(OpNot)]
    else if kind == TokenEqualEqual then [Encode(OpEqual)]
    else if kind == TokenGreater then [Encode(OpGreater)]
    else if kind == TokenGreaterEqual then [Encode(OpLess), Encode(OpNot)]
    else if kind == TokenLess then [Encode(OpLess)]
    else if kind == TokenLessEqual then [Encode(OpGreater), Encode(OpNot)]
    else if kind == TokenPlus then [Encode(OpAdd)]
    else if kind == TokenMinus then [Encode(OpSubtract)]
    else if kind == TokenStar then [Encode(OpMultiply)]
    else if kind == TokenSlash then [Encode(OpDivide)]
    else []
  }

  /** The byte _unary emits for each prefix operator. */
  function UnaryBytes(kind: TokenType): seq<Byte> {
    if kind == TokenBang then [Encode(OpNot)]
    else if kind == TokenMinus then [Encode(OpNegate)]
    else []
  }

  /** The byte _literal emits for each keyword literal. */
  function LiteralBytes(kind: TokenType): seq<Byte> {
    if kind == TokenFalse then [Encode(OpFalse)]
    else if kind == TokenNil then [Encode(OpNil)]
    else if kind == TokenTrue then [Encode(OpTrue)]
    else []
  }

  /** The operand _make_constant yields for pool index k: k itself, or 0 once it no longer fits a byte. */
  function ConstantOperand(k: nat): (b: Byte)
    ensures k <= UINT8_MAX ==> b == k
    ensures k > UINT8_MAX ==> b == 0
  {
    if k <= UINT8_MAX then k else 0
  }

  // ---------------------------------------------------------------------
  // The specification: expression trees, their tokens and their code.
  // ---------------------------------------------------------------------

  datatype Expr =
    | LiteralExpr(token: Token)
    | GroupingExpr(open: Token, inner: Expr, close: Token)
    | UnaryExpr(op: Token, operand: Expr)
    | BinaryExpr(op: Token, left: Expr, right: Expr)

  /** How tightly an expression binds: the lowest precedence at which it can stand unparenthesised. */
  function Level(e: Expr): nat {
    match e
    case LiteralExpr(_) => PrecPrimary
    case GroupingExpr(_, _, _) => PrecPrimary
    case UnaryExpr(_, _) => PrecUnary
    case BinaryExpr(op, _, _) => GetRule(op.kind).precedence
  }

  /**
   * A tree the grammar accepts: literals are numbers or keyword literals, a
   * unary operand binds at least as tightly as a unary operator, a left
   * operand at least as tightly as its operator, and a right operand strictly
   * more tightly (left associativity). Any tree can be brought into this form
   * by wrapping subtrees in GroupingExpr, which does not change its code.
   */
  ghost predicate WellFormed(e: Expr) {
    match e
    case LiteralExpr(t) => t.kind in {TokenNumber, TokenFalse, TokenNil, TokenTrue}
    case GroupingExpr(o, g, c) =>
      o.kind == TokenLeftParen && c.kind == TokenRightParen && WellFormed(g)
    case UnaryExpr(op, u) =>
      op.kind in {TokenBang, TokenMinus} && WellFormed(u) && Level(u) >= PrecUnary
    case BinaryExpr(op, l, r) =>
      GetRule(op.kind).infix == BinaryFn && WellFormed(l) && WellFormed(r)
      && Level(l) >= GetRule(op.kind).precedence && Level(r) > GetRule(op.kind).precedence
  }

  /** The tokens of an expression, in source order. */
  function Tokens(e: Expr): (ts: seq<Token>)
    ensures |ts| >= 1
  {
    match e
    case LiteralExpr(t) => [t]
    case GroupingExpr(o, g, c) => [o] + Tokens(g) + [c]
    case UnaryExpr(op, u) => [op] + Tokens(u)
    case BinaryExpr(op, l, r) => Tokens(l) + [op] + Tokens(r)
  }

  /** The number of number literals, i.e. of constants the expression adds to the pool. */
  function NumCount(e: Expr): nat {
    match e
    case LiteralExpr(t) => if t.kind == TokenNumber then 1 else 0
    case GroupingExpr(_, g, _) => NumCount(g)
    case UnaryExpr(_, u) => NumCount(u)
    case BinaryExpr(_, l, r) => NumCount(l) + NumCount(r)
  }

  /** The constants an expression adds to the pool, left to right. */
  function Constants(e: Expr, ops: NumberOps): seq<Value> {
    match e
    case LiteralExpr(t) => if t.kind == TokenNumber then [Num(ops.parse(t.lexeme))] else []
    case GroupingExpr(_, g, _) => Constants(g, ops)
    case UnaryExpr(_, u) => Constants(u, ops)
    case BinaryExpr(_, l, r) => Constants(l, ops) + Constants(r, ops)
  }

  /**
   * Postfix code of an expression whose first constant lands at pool index k:
   * operands before their operator, left operand before right operand.
   */
  function Code(e: Expr, k: nat): seq<Byte> {
    match e
    case LiteralExpr(t) =>
      if t.kind == TokenNumber then [Encode(OpConstant), ConstantOperand(k)] else LiteralBytes(t.kind)
    case GroupingExpr(_, g, _) => Code(g, k)
    case UnaryExpr(op, u) => Code(u, k) + UnaryBytes(op.kind)
    case BinaryExpr(op, l, r) => Code(l, k) + Code(r, k + NumCount(l)) + BinaryBytes(op.kind)
  }

  lemma {:induction false} ConstantsCount(e: Expr, ops: NumberOps)
    ensures |Constants(e, ops)| == NumCount(e)
  {
    match e
    case LiteralExpr(_) =>
    case GroupingExpr(_, g, _) => ConstantsCount(g, ops);
    case UnaryExpr(_, u) => ConstantsCount(u, ops);
    case BinaryExpr(_, l, r) => ConstantsCount(l, ops); ConstantsCount(r, ops);
  }

  /** No token of a well-formed expression is an error or end-of-input token. */
  lemma {:induction false} TokensAreOrdinary(e: Expr)
    requires WellFormed(e)
    ensures forall i :: 0 <= i < |Tokens(e)| ==> Tokens(e)[i].kind !in {TokenError, TokenEof}
  {
    match e
    case LiteralExpr(_) =>
    case GroupingExpr(_, g, _) => TokensAreOrdinary(g);
    case UnaryExpr(_, u) => TokensAreOrdinary(u);
    case BinaryExpr(_, l, r) => TokensAreOrdinary(l); TokensAreOrdinary(r);
  }

  /** A well-formed expression binds at least at equality level. */
  lemma LevelAtLeastEquality(e: Expr)
    requires WellFormed(e)
    ensures Level(e) >= PrecEquality
  {
  }

  /**
   * The left spine of an expression: its leftmost operand that is not a binary
   * expression, then each binary node above it, ending with e itself. The
   * parser's infix loop builds exactly these nodes, one per iteration.
   */
  function Spine(e: Expr): (s: seq<Expr>)
    ensures |s| >= 1 && s[|s| - 1] == e && !s[0].BinaryExpr?
  {
    if e.BinaryExpr? then Spine(e.left) + [e] else [e]
  }

  /** The size of a tree, the measure of the induction over it. */
  function Size(e: Expr): (n: nat)
    ensures n >= 1
  {
    match e
    case LiteralExpr(_) => 1
    case GroupingExpr(_, g, _) => 1 + Size(g)
    case UnaryExpr(_, u) => 1 + Size(u)
    case BinaryExpr(_, l, r) => 1 + Size(l) + Size(r)
  }

  /**
   * Each node of the spine is well formed, binds at least as tightly as e,
   * and holds no more constants and no more nodes than e.
   */
  lemma {:induction false} SpineNode(e: Expr, i: nat)
    requires WellFormed(e) && i < |Spine(e)|
    ensures WellFormed(Spine(e)[i]) && Level(Spine(e)[i]) >= Level(e)
    ensures NumCount(Spine(e)[i]) <= NumCount(e) && Size(Spine(e)[i]) <= Size(e)
  {
    var s := Spine(e);
    if i < |s| - 1 {
      assert s == Spine(e.left) + [e];
      SpineNode(e.left, i);
      assert s[i] == Spine(e.left)[i];
    }
  }

  /** Each node of the spine after the first is a binary node over the one before it. */
  lemma {:induction false} SpineLink(e: Expr, i: nat)
    requires i + 1 < |Spine(e)|
    ensures Spine(e)[i + 1].BinaryExpr? && Spine(e)[i + 1].left == Spine(e)[i]
  {
    var s := Spine(e);
    assert s == Spine(e.left) + [e];
    if i + 1 < |s| - 1 {
      SpineLink(e.left, i);
      assert s[i] == Spine(e.left)[i] && s[i + 1] == Spine(e.left)[i + 1];
    } else {
      assert s[i] == Spine(e.left)[i];
    }
  }

  // ---------------------------------------------------------------------
  // Matching a tree against a token sequence, by position.
  // ---------------------------------------------------------------------

  /**
   * Where the tokens of e end when they are read from T starting at index i,
   * or None when T does not hold them there.
   */
  ghost function End(e: Expr, T: seq<Token>, i: nat): Option<nat> {
    match e
    case LiteralExpr(t) => if i < |T| && T[i] == t then Some(i + 1) else None
    case GroupingExpr(o, g, c) =>
      if i < |T| && T[i] == o then
        (match End(g, T, i + 1)
         case Some(k) => if k < |T| && T[k] == c then Some(k + 1) else None
         case None => None)
      else None
    case UnaryExpr(op, u) => if i < |T| && T[i] == op then End(u, T, i + 1) else None
    case BinaryExpr(op, l, r) =>
      (match End(l, T, i)
       case Some(k) => if k < |T| && T[k] == op then End(r, T, k + 1) else None
       case None => None)
  }

  /** A match consumes at least one token and stays within T. */
  lemma {:induction false} EndAdvances(e: Expr, T: seq<Token>, i: nat)
    requires End(e, T, i).Some?
    ensures i < End(e, T, i).value <= |T|
  {
    match e
    case LiteralExpr(_) =>
    case GroupingExpr(_, g, _) => EndAdvances(g, T, i + 1);
    case UnaryExpr(_, u) => EndAdvances(u, T, i + 1);
    case BinaryExpr(_, l, r) =>
      EndAdvances(l, T, i);
      EndAdvances(r, T, End(l, T, i).value + 1);
  }

  /** T holds the token sequence ts from index i on. */
  ghost predicate Occurs(T: seq<Token>, i: nat, ts: seq<Token>) {
    i + |ts| <= |T| && forall m :: 0 <= m < |ts| ==> T[i + m] == ts[m]
  }

  /** Where T holds a + b, it holds a, and b right after it. */
  lemma OccursSplit(T: seq<Token>, i: nat, a: seq<Token>, b: seq<Token>)
    requires Occurs(T, i, a + b)
    ensures Occurs(T, i, a) && Occurs(T, i + |a|, b)
  {
    forall m | 0 <= m < |a| ensures T[i + m] == a[m] {
      assert (a + b)[m] == a[m];
    }
    forall m | 0 <= m < |b| ensures T[i + |a| + m] == b[m] {
      assert T[i + (|a| + m)] == (a + b)[|a| + m];
    }
  }

  /** Wherever T holds the tokens of e, e matches there and ends right after them. */
  lemma {:induction false} EndOfTokens(e: Expr, T: seq<Token>, i: nat)
    requires Occurs(T, i, Tokens(e))
    ensures End(e, T, i) == Some(i + |Tokens(e)|)
  {
    match e
    case LiteralExpr(t) =>
      assert T[i + 0] == Tokens(e)[0];
    case GroupingExpr(o, g, c) =>
      OccursSplit(T, i, [o] + Tokens(g), [c]);
      OccursSplit(T, i, [o], Tokens(g));
      assert T[i + 0] == [o][0];
      EndOfTokens(g, T, i + 1);
      assert T[i + 1 + |Tokens(g)| + 0] == [c][0];
    case UnaryExpr(op, u) =>
      OccursSplit(T, i, [op], Tokens(u));
      assert T[i + 0] == [op][0];
      EndOfTokens(u, T, i + 1);
    case BinaryExpr(op, l, r) =>
      OccursSplit(T, i, Tokens(l) + [op], Tokens(r));
      OccursSplit(T, i, Tokens(l), [op]);
      EndOfTokens(l, T, i);
      assert T[i + |Tokens(l)| + 0] == [op][0];
      EndOfTokens(r, T, i + |Tokens(l)| + 1);
  }

  /** A match of e covers a match of each node of its spine, from the same start. */
  lemma {:induction false} SpineEnd(e: Expr, i: nat, T: seq<Token>, j: nat)
    requires i < |Spine(e)| && End(e, T, j).Some?
    ensures End(Spine(e)[i], T, j).Some?
  {
    var s := Spine(e);
    if i < |s| - 1 {
      assert s == Spine(e.left) + [e];
      SpineEnd(e.left, i, T, j);
      assert s[i] == Spine(e.left)[i];
    }
  }

  ghost predicate NoErrorTokens(T: seq<Token>) {
    forall m :: 0 <= m < |T| ==> T[m].kind != TokenError
  }

  // ---------------------------------------------------------------------
  // The parser's state and the effect of each of its functions on it.
  // ---------------------------------------------------------------------

  /**
   * The fields of _parser_t, the scanner's position in its input and the
   * contents of the chunk being compiled, together.
   */
  datatype ParserState = ParserState(
    pos: nat, current: Token, previous: Token,
    hadError: bool, panicMode: bool, diagnostics: nat,
    code: seq<Byte>, lines: seq<int>, constants: seq<Value>)

  /**
   * What every function of the parser keeps: the scanner stays within its
   * input, each byte has its line, and since panic mode is never left an
   * error sets both flags together and at most one diagnostic is written.
   */
  ghost predicate Consistent(T: seq<Token>, st: ParserState) {
    st.pos <= |T| && |st.lines| == |st.code|
    && st.hadError == st.panicMode && st.diagnostics == (if st.panicMode then 1 else 0)
  }

  /** A measure every advance past a token other than end-of-input decreases. */
  function Pending(T: seq<Token>, st: ParserState): nat {
    (if st.pos <= |T| then |T| - st.pos else 0) + (if st.current.kind == TokenEof then 0 else 1)
  }

  /** The token the scanner yields once the input is used up. */
  function EndOfInput(T: seq<Token>): (t: Token)
    ensures t.kind == TokenEof
  {
    Token(TokenEof, if |T| == 0 then 1 else T[|T| - 1].line, [])
  }

  /** l_scan_token into `current`: the next token of the input, then end-of-input forever. */
  function AfterScan(T: seq<Token>, st: ParserState): ParserState {
    if st.pos < |T| then st.(current := T[st.pos], pos := st.pos + 1)
    else st.(current := EndOfInput(T))
  }

  /**
   * _error_at: in panic mode nothing happens; otherwise one diagnostic is
   * written (its text is not modelled) and both flags are set.
   */
  function AfterError(st: ParserState): (r: ParserState)
    ensures r.panicMode && (st.hadError || !st.panicMode ==> r.hadError)
    ensures r.diagnostics == if st.panicMode then st.diagnostics else st.diagnostics + 1
    ensures r == st.(panicMode := r.panicMode, hadError := r.hadError, diagnostics := r.diagnostics)
  {
    if st.panicMode then st
    else st.(panicMode := true, hadError := true, diagnostics := st.diagnostics + 1)
  }

  /**
   * The loop of _advance once `previous` is set: scan, and report and skip
   * error tokens until another token arrives.
   */
  function AdvanceLoop(T: seq<Token>, st: ParserState): (r: ParserState)
    requires Consistent(T, st)
    ensures Consistent(T, r) && r.current.kind != TokenError && r.previous == st.previous
    ensures r.code == st.code && r.lines == st.lines && r.constants == st.constants
    ensures st.panicMode ==> r.panicMode
    ensures Pending(T, r) <= Pending(T, st) && (st.current.kind != TokenEof ==> Pending(T, r) < Pending(T, st))
    decreases |T| - st.pos
  {
    var s := AfterScan(T, st);
    if s.current.kind != TokenError then s else AdvanceLoop(T, AfterError(s))
  }

  /**
   * _advance: the current token becomes the previous one and the next token
   * other than an error token becomes current, each skipped error token
   * being reported.
   */
  function AfterAdvance(T: seq<Token>, st: ParserState): (r: ParserState)
    requires Consistent(T, st)
    ensures Consistent(T, r) && r.previous == st.current && r.current.kind != TokenError
    ensures r.code == st.code && r.lines == st.lines && r.constants == st.constants
    ensures st.panicMode ==> r.panicMode
    ensures st.pos < |T| && T[st.pos].kind != TokenError ==>
      r == st.(previous := st.current, current := T[st.pos], pos := st.pos + 1)
    ensures st.pos >= |T| ==> r == st.(previous := st.current, current := EndOfInput(T))
    ensures Pending(T, r) <= Pending(T, st) && (st.current.kind != TokenEof ==> Pending(T, r) < Pending(T, st))
  {
    AdvanceLoop(T, st.(previous := st.current))
  }

  /** _consume: advance over a token of the expected type; otherwise report an error at it. */
  function AfterConsume(T: seq<Token>, st: ParserState, kind: TokenType): (r: ParserState)
    requires Consistent(T, st)
    ensures Consistent(T, r) && Pending(T, r) <= Pending(T, st)
    ensures st.current.kind == kind ==> r == AfterAdvance(T, st)
    ensures st.current.kind != kind ==> r == AfterError(st)
  {
    if st.current.kind == kind then AfterAdvance(T, st) else AfterError(st)
  }

  /** _emit_byte, once per byte: the bytes are appended, each tagged with the previous token's line. */
  function AfterEmit(st: ParserState, bytes: seq<Byte>): (r: ParserState)
    ensures r.code == st.code + bytes && |r.lines| == |st.lines| + |bytes|
    ensures r.lines[..|st.lines|] == st.lines
    ensures forall i :: |st.lines| <= i < |r.lines| ==> r.lines[i] == st.previous.line
    ensures r == st.(code := r.code, lines := r.lines)
  {
    st.(code := st.code + bytes, lines := st.lines + seq(|bytes|, _ => st.previous.line))
  }

  /**
   * _emit_constant: the value joins the pool (l_add_constant appends), and
   * OP_CONSTANT is emitted with its index; an index above UINT8_MAX is
   * reported and replaced by 0.
   */
  function AfterConstant(st: ParserState, value: Value): (r: ParserState)
    ensures r.constants == st.constants + [value]
    ensures r.code == st.code + [Encode(OpConstant), ConstantOperand(|st.constants|)]
    ensures |st.constants| <= UINT8_MAX ==> r.panicMode == st.panicMode && r.diagnostics == st.diagnostics
    ensures |st.constants| > UINT8_MAX ==> r.panicMode
  {
    var index := |st.constants|;
    var s := st.(constants := st.constants + [value]);
    var s' := if index > UINT8_MAX then AfterError(s) else s;
    AfterEmit(s', [Encode(OpConstant), ConstantOperand(index)])
  }

  /** _number: the literal's value, read by the host's strtod, becomes a constant. */
  function AfterNumber(ops: NumberOps, st: ParserState): ParserState {
    AfterConstant(st, Num(ops.parse(st.previous.lexeme)))
  }

  /** _literal: the keyword just consumed becomes its opcode. */
  function AfterLiteral(st: ParserState): ParserState {
    AfterEmit(st, LiteralBytes(st.previous.kind))
  }

  /**
   * _parse_precedence: the prefix rule of the token just advanced over
   * compiles the left operand ("Expect expression." when it has none); then
   * the infix loop runs.
   */
  function AfterParse(T: seq<Token>, ops: NumberOps, p: nat, st: ParserState): (r: ParserState)
    requires Consistent(T, st) && p >= PrecAssignment
    ensures Consistent(T, r) && Pending(T, r) <= Pending(T, st)
    ensures GetRule(st.current.kind).prefix == NoFn ==> r == AfterError(AfterAdvance(T, st))
    decreases Pending(T, st), 0
  {
    var s := AfterAdvance(T, st);
    var rule := GetRule(s.previous.kind).prefix;
    if rule == NoFn then AfterError(s)
    else AfterInfix(T, ops, p, AfterPrefix(T, ops, rule, s))
  }

  /**
   * The loop of _parse_precedence: while the current token is an operator
   * binding at least at p, advance over it and run its infix rule, which is
   * always _binary.
   */
  function AfterInfix(T: seq<Token>, ops: NumberOps, p: nat, st: ParserState): (r: ParserState)
    requires Consistent(T, st) && p >= PrecAssignment
    ensures Consistent(T, r) && Pending(T, r) <= Pending(T, st)
    decreases Pending(T, st), 4
  {
    if p <= GetRule(st.current.kind).precedence then
      AfterInfix(T, ops, p, AfterBinary(T, ops, AfterAdvance(T, st)))
    else st
  }

  /** The call through the prefix rule's function pointer. */
  function AfterPrefix(T: seq<Token>, ops: NumberOps, rule: ParseFn, st: ParserState): (r: ParserState)
    requires Consistent(T, st)
    ensures Consistent(T, r) && Pending(T, r) <= Pending(T, st)
    decreases Pending(T, st), 3
  {
    match rule
    case GroupingFn => AfterGrouping(T, ops, st)
    case UnaryFn => AfterUnary(T, ops, st)
    case NumberFn => AfterNumber(ops, st)
    case LiteralFn => AfterLiteral(st)
    case _ => st
  }

  /** _grouping: a full expression, then the closing parenthesis. */
  function AfterGrouping(T: seq<Token>, ops: NumberOps, st: ParserState): (r: ParserState)
    requires Consistent(T, st)
    ensures Consistent(T, r) && Pending(T, r) <= Pending(T, st)
    decreases Pending(T, st), 2
  {
    AfterConsume(T, AfterExpression(T, ops, st), TokenRightParen)
  }

  /** _expression: parsing at the lowest precedence, assignment. */
  function AfterExpression(T: seq<Token>, ops: NumberOps, st: ParserState): (r: ParserState)
    requires Consistent(T, st)
    ensures Consistent(T, r) && Pending(T, r) <= Pending(T, st)
    decreases Pending(T, st), 1
  {
    AfterParse(T, ops, PrecAssignment, st)
  }

  /** _unary: the operand at unary precedence, then the operator's byte. */
  function AfterUnary(T: seq<Token>, ops: NumberOps, st: ParserState): (r: ParserState)
    requires Consistent(T, st)
    ensures Consistent(T, r) && Pending(T, r) <= Pending(T, st)
    decreases Pending(T, st), 1
  {
    AfterEmit(AfterParse(T, ops, PrecUnary, st), UnaryBytes(st.previous.kind))
  }

  /**
   * _binary: the right operand one level above the operator's precedence,
   * so that an operator of the same level ends it, then the operator's bytes.
   */
  function AfterBinary(T: seq<Token>, ops: NumberOps, st: ParserState): (r: ParserState)
    requires Consistent(T, st)
    ensures Consistent(T, r) && Pending(T, r) <= Pending(T, st)
    decreases Pending(T, st), 1
  {
    var kind := st.previous.kind;
    AfterEmit(AfterParse(T, ops, GetRule(kind).precedence + 1, st), BinaryBytes(kind))
  }

  /** l_compile's reset: nothing scanned, no error, an empty chunk. */
  function Initial(): (st: ParserState)
    ensures st.pos == 0 && !st.panicMode && st.code == [] && st.constants == []
  {
    ParserState(0, Token(TokenEof, 0, []), Token(TokenEof, 0, []), false, false, 0, [], [], [])
  }

  /**
   * l_compile: prime the parser, one expression, end-of-input, then
   * _end_compiler's OP_RETURN.
   */
  function Compiled(T: seq<Token>, ops: NumberOps): (r: ParserState)
    ensures Consistent(T, r) && |r.code| >= 1 && r.code[|r.code| - 1] == Encode(OpReturn)
  {
    var s := AfterConsume(T, AfterExpression(T, ops, AfterAdvance(T, Initial())), TokenEof);
    AfterEmit(s, [Encode(OpReturn)])
  }

  // ---------------------------------------------------------------------
  // Correctness of precedence climbing.
  // ---------------------------------------------------------------------

  /** The parser sits at index j of T: it is T[j] that is current, and no error was reported. */
  ghost predicate At(T: seq<Token>, st: ParserState, j: nat) {
    j < |T| && st.current == T[j] && st.pos == j + 1 && !st.panicMode
  }

  /**
   * The tokens of e are read from T at index j and end at k, where a token
   * follows that stops a parse at p; T holds no error token; e is well
   * formed, binds at least at p, and its constants fit a pool holding `used`.
   */
  ghost predicate Expects(e: Expr, p: nat, T: seq<Token>, j: nat, used: nat, k: nat) {
    WellFormed(e) && Level(e) >= p && used + NumCount(e) <= UINT8_MAX + 1
    && NoErrorTokens(T) && End(e, T, j) == Some(k)
    && k < |T| && GetRule(T[k].kind).precedence < p
  }

  /** From st to r exactly the code and the constants of e were added. */
  ghost predicate Emitted(e: Expr, ops: NumberOps, st: ParserState, r: ParserState) {
    r.code == st.code + Code(e, |st.constants|) && r.constants == st.constants + Constants(e, ops)
  }

  /**
   * One step up the spine of e: the (i+1)-th node is a binary node over the
   * i-th, its operator binds at least at p, and its right operand is a
   * well-formed tree that binds more tightly than the operator.
   */
  lemma SpineShape(e: Expr, p: nat, i: nat)
    requires WellFormed(e) && Level(e) >= p && i + 1 < |Spine(e)|
    ensures Spine(e)[i + 1].BinaryExpr? && Spine(e)[i + 1].left == Spine(e)[i]
    ensures var op, right := Spine(e)[i + 1].op, Spine(e)[i + 1].right;
      p <= GetRule(op.kind).precedence && WellFormed(right) && Level(right) > GetRule(op.kind).precedence
      && NumCount(Spine(e)[i + 1]) <= NumCount(e) && Size(right) < Size(e)
  {
    SpineLink(e, i);
    SpineNode(e, i + 1);
  }

  /**
   * The same step in the tokens: after the i-th node comes the operator of
   * the (i+1)-th, then its right operand, which is followed by a token that
   * binds no more tightly than that operator.
   */
  lemma SpineTokens(e: Expr, p: nat, T: seq<Token>, j: nat, k: nat, i: nat)
    requires WellFormed(e) && End(e, T, j) == Some(k)
    requires k < |T| && GetRule(T[k].kind).precedence < p && i + 1 < |Spine(e)|
    requires Spine(e)[i + 1].BinaryExpr? && Spine(e)[i + 1].left == Spine(e)[i]
    requires p <= GetRule(Spine(e)[i + 1].op.kind).precedence
    ensures End(Spine(e)[i], T, j).Some? && End(Spine(e)[i + 1], T, j).Some?
    ensures var op, right := Spine(e)[i + 1].op, Spine(e)[i + 1].right;
      var ki, k1 := End(Spine(e)[i], T, j).value, End(Spine(e)[i + 1], T, j).value;
      ki + 1 < k1 < |T| && T[ki] == op && End(right, T, ki + 1) == Some(k1)
      && GetRule(T[k1].kind).precedence <= GetRule(op.kind).precedence
  {
    var s := Spine(e);
    SpineEnd(e, i + 1, T, j);
    var next := s[i + 1];
    var ki := End(s[i], T, j).value;
    var k1 := End(next, T, j).value;
    EndAdvances(next.right, T, ki + 1);
    if i + 2 < |s| {
      SpineLink(e, i + 1);
      SpineEnd(e, i + 2, T, j);
      SpineNode(e, i + 2);
      assert T[k1] == s[i + 2].op;
    }
  }

  /**
   * _parse_precedence is correct: at the first token of any expression that
   * binds at least at p and is followed by a token that stops such a parse,
   * it consumes exactly the expression's tokens, reports nothing, and emits
   * the expression's postfix code and constants.
   */
  lemma {:induction false} ParseCorrect(T: seq<Token>, ops: NumberOps, p: nat, st: ParserState,
                                        e: Expr, j: nat, k: nat)
    requires Consistent(T, st) && p >= PrecAssignment && At(T, st, j)
    requires Expects(e, p, T, j, |st.constants|, k)
    ensures At(T, AfterParse(T, ops, p, st), k) && Emitted(e, ops, st, AfterParse(T, ops, p, st))
    decreases Size(e), 1, 0
  {
    var head := Spine(e)[0];
    SpineNode(e, 0);
    SpineEnd(e, 0, T, j);
    var k0 := End(head, T, j).value;
    EndAdvances(head, T, j);
    if 1 < |Spine(e)| {
      SpineShape(e, p, 0);
      SpineTokens(e, p, T, j, k, 0);
    }
    var s := AfterAdvance(T, st);
    PrefixCorrect(T, ops, s, head, j, k0);
    InfixCorrect(T, ops, p, st, e, j, k, 0, AfterPrefix(T, ops, GetRule(T[j].kind).prefix, s));
  }

  /**
   * The prefix rules are correct: once the first token of a tree that is not
   * a binary one has been advanced over, its rule consumes the rest of the
   * tree's tokens and emits its code and constants.
   */
  lemma {:induction false} PrefixCorrect(T: seq<Token>, ops: NumberOps, st: ParserState,
                                         head: Expr, j: nat, k: nat)
    requires Consistent(T, st) && At(T, st, j + 1) && st.previous == T[j]
    requires !head.BinaryExpr? && WellFormed(head) && |st.constants| + NumCount(head) <= UINT8_MAX + 1
    requires NoErrorTokens(T) && End(head, T, j) == Some(k) && k < |T|
    ensures GetRule(T[j].kind).prefix != NoFn
    ensures At(T, AfterPrefix(T, ops, GetRule(T[j].kind).prefix, st), k)
    ensures Emitted(head, ops, st, AfterPrefix(T, ops, GetRule(T[j].kind).prefix, st))
    decreases Size(head), 0, 0
  {
    match head
    case LiteralExpr(t) =>
    case GroupingExpr(o, g, c) =>
      var m := End(g, T, j + 1).value;
      assert T[m] == c;
      LevelAtLeastEquality(g);
      ParseCorrect(T, ops, PrecAssignment, st, g, j + 1, m);
      var s1 := AfterParse(T, ops, PrecAssignment, st);
      assert GetRule(T[j].kind).prefix == GroupingFn;
      assert AfterGrouping(T, ops, st) == AfterConsume(T, s1, TokenRightParen);
    case UnaryExpr(op, u) =>
      ParseCorrect(T, ops, PrecUnary, st, u, j + 1, k);
  }

  /**
   * The infix loop is correct: with the i-th node of e's spine compiled, the
   * loop compiles the remaining nodes, each binary operator with its right
   * operand, and stops after e's last token.
   */
  lemma {:induction false} InfixCorrect(T: seq<Token>, ops: NumberOps, p: nat, st0: ParserState,
                                        e: Expr, j: nat, k: nat, i: nat, st: ParserState)
    requires Consistent(T, st) && p >= PrecAssignment
    requires Expects(e, p, T, j, |st0.constants|, k)
    requires i < |Spine(e)| && End(Spine(e)[i], T, j).Some?
    requires At(T, st, End(Spine(e)[i], T, j).value) && Emitted(Spine(e)[i], ops, st0, st)
    ensures At(T, AfterInfix(T, ops, p, st), k) && Emitted(e, ops, st0, AfterInfix(T, ops, p, st))
    decreases Size(e), 0, |Spine(e)| - i
  {
    if i + 1 < |Spine(e)| {
      var st' := InfixStep(T, ops, p, st0, e, j, k, i, st);
      InfixCorrect(T, ops, p, st0, e, j, k, i + 1, st');
    }
  }

  /**
   * One pass of the infix loop: the operator after the i-th spine node binds
   * at least at p, so the loop goes on, and advancing over it and running
   * _binary compiles the (i+1)-th node.
   */
  lemma InfixStep(T: seq<Token>, ops: NumberOps, p: nat, st0: ParserState,
                  e: Expr, j: nat, k: nat, i: nat, st: ParserState)
    returns (st': ParserState)
    requires Consistent(T, st) && p >= PrecAssignment
    requires Expects(e, p, T, j, |st0.constants|, k)
    requires i + 1 < |Spine(e)| && End(Spine(e)[i], T, j).Some?
    requires At(T, st, End(Spine(e)[i], T, j).value) && Emitted(Spine(e)[i], ops, st0, st)
    ensures Consistent(T, st') && End(Spine(e)[i + 1], T, j).Some?
    ensures At(T, st', End(Spine(e)[i + 1], T, j).value) && Emitted(Spine(e)[i + 1], ops, st0, st')
    ensures AfterInfix(T, ops, p, st) == AfterInfix(T, ops, p, st')
    decreases Size(e), 0, |Spine(e)| - i - 1
  {
    SpineShape(e, p, i);
    SpineTokens(e, p, T, j, k, i);
    var next := Spine(e)[i + 1];
    BinaryCorrect(T, ops, st0, Spine(e)[i], next.op, next.right,
                  End(Spine(e)[i], T, j).value, End(next, T, j).value, st);
    st' := AfterBinary(T, ops, AfterAdvance(T, st));
  }

  /**
   * Advancing over the operator after a compiled left operand and running
   * _binary compiles the right operand and then the operator, which
   * completes the binary node.
   */
  lemma {:induction false} BinaryCorrect(T: seq<Token>, ops: NumberOps, st0: ParserState,
                                         left: Expr, op: Token, right: Expr, ki: nat, k1: nat, st: ParserState)
    requires Consistent(T, st) && NoErrorTokens(T) && At(T, st, ki) && T[ki] == op && ki + 1 < k1 < |T|
    requires WellFormed(right) && Level(right) > GetRule(op.kind).precedence
    requires End(right, T, ki + 1) == Some(k1) && GetRule(T[k1].kind).precedence <= GetRule(op.kind).precedence
    requires Emitted(left, ops, st0, st) && |st0.constants| + NumCount(left) + NumCount(right) <= UINT8_MAX + 1
    ensures At(T, AfterBinary(T, ops, AfterAdvance(T, st)), k1)
    ensures Emitted(BinaryExpr(op, left, right), ops, st0, AfterBinary(T, ops, AfterAdvance(T, st)))
    decreases Size(right), 2, 0
  {
    ConstantsCount(left, ops);
    var st1 := AfterAdvance(T, st);
    ParseCorrect(T, ops, GetRule(op.kind).precedence + 1, st1, right, ki + 1, k1);
    var st2 := AfterParse(T, ops, GetRule(op.kind).precedence + 1, st1);
    EmittedBinary(op, left, right, ops, st0, st1, st2, AfterEmit(st2, BinaryBytes(op.kind)));
  }

  /** The code of a binary node: its left operand's, its right operand's, then the operator's bytes. */
  lemma EmittedBinary(op: Token, left: Expr, right: Expr, ops: NumberOps,
                      st0: ParserState, st1: ParserState, st2: ParserState, st3: ParserState)
    requires Emitted(left, ops, st0, st1) && Emitted(right, ops, st1, st2)
    requires st3.code == st2.code + BinaryBytes(op.kind) && st3.constants == st2.constants
    ensures Emitted(BinaryExpr(op, left, right), ops, st0, st3)
  {
    ConstantsCount(left, ops);
    var c0 := |st0.constants|;
    var l, r, b := Code(left, c0), Code(right, c0 + NumCount(left)), BinaryBytes(op.kind);
    assert st0.code + l + r + b == st0.code + (l + r + b);
    assert st0.constants + Constants(left, ops) + Constants(right, ops)
        == st0.constants + (Constants(left, ops) + Constants(right, ops));
  }

  /**
   * The tokens of a well-formed expression followed by end-of-input hold no
   * error token, and the expression matches them up to that last token.
   */
  lemma InputOf(T: seq<Token>, e: Expr)
    requires WellFormed(e) && |T| == |Tokens(e)| + 1 && T[..|Tokens(e)|] == Tokens(e)
    requires T[|Tokens(e)|].kind == TokenEof
    ensures NoErrorTokens(T) && End(e, T, 0) == Some(|Tokens(e)|)
  {
    var n := |Tokens(e)|;
    TokensAreOrdinary(e);
    assert Occurs(T, 0, Tokens(e)) by {
      forall m | 0 <= m < n ensures T[0 + m] == Tokens(e)[m] {
        assert T[..n][m] == T[m];
      }
    }
    EndOfTokens(e, T, 0);
    forall m | 0 <= m < |T| ensures T[m].kind != TokenError {
      if m < n {
        assert T[m] == T[..n][m];
      }
    }
  }

  /**
   * l_compile is correct: on the tokens of a well-formed expression whose
   * constants fit one pool, followed by end-of-input, it reports nothing and
   * emits the expression's postfix code, then OP_RETURN.
   */
  lemma CompiledCorrect(T: seq<Token>, ops: NumberOps, e: Expr)
    requires WellFormed(e) && NumCount(e) <= UINT8_MAX + 1
    requires |T| == |Tokens(e)| + 1 && T[..|Tokens(e)|] == Tokens(e) && T[|Tokens(e)|].kind == TokenEof
    ensures !Compiled(T, ops).panicMode
    ensures Compiled(T, ops).code == Code(e, 0) + [Encode(OpReturn)]
    ensures Compiled(T, ops).constants == Constants(e, ops)
  {
    var n := |Tokens(e)|;
    InputOf(T, e);
    LevelAtLeastEquality(e);
    var s := AfterAdvance(T, Initial());
    ParseCorrect(T, ops, PrecAssignment, s, e, 0, n);
  }

  /**
   * l_compile rejects an input that does not start with an expression: when
   * the first token is one no expression can start with, or there is none,
   * "Expect expression." is reported and the result is false.
   */
  lemma CompiledRejectsMissingExpression(T: seq<Token>, ops: NumberOps)
    requires |T| == 0 || (T[0].kind != TokenError && GetRule(T[0].kind).prefix == NoFn)
    ensures Compiled(T, ops).hadError && Compiled(T, ops).diagnostics == 1
  {
    var s0 := AfterAdvance(T, Initial());
    assert GetRule(s0.current.kind).prefix == NoFn;
    var s1 := AfterExpression(T, ops, s0);
    assert s1 == AfterError(AfterAdvance(T, s0));
    var s2 := AfterConsume(T, s1, TokenEof);
    assert s2.panicMode;
  }

  /**
   * l_compile rejects an expression followed by anything but end-of-input:
   * once the expression is parsed, a token that cannot continue it is left
   * over, and the closing consume reports "Expect end of expression.".
   */
  lemma CompiledRejectsTrailingToken(T: seq<Token>, ops: NumberOps, e: Expr, k: nat)
    requires WellFormed(e) && NumCount(e) <= UINT8_MAX + 1 && NoErrorTokens(T)
    requires End(e, T, 0) == Some(k) && k < |T|
    requires T[k].kind != TokenEof && GetRule(T[k].kind).precedence < PrecAssignment
    ensures Compiled(T, ops).hadError && Compiled(T, ops).diagnostics == 1
  {
    LevelAtLeastEquality(e);
    var s0 := AfterAdvance(T, Initial());
    ParseCorrect(T, ops, PrecAssignment, s0, e, 0, k);
    var s1 := AfterExpression(T, ops, s0);
    assert s1.current == T[k];
    var s2 := AfterConsume(T, s1, TokenEof);
    assert s2.panicMode;
  }

  // ---------------------------------------------------------------------
  // The parser object.
  // ---------------------------------------------------------------------

  /**
   * The parser (_parser_t) together with the scanner position and the chunk
   * being compiled (_compiling_chunk). The scanner is not part of this model:
   * it is the sequence of tokens it yields, followed by end-of-input.
   */
  class Parser {
    const tokens: seq<Token>
    const ops: NumberOps
    var pos: nat
    var current: Token
    var previous: Token
    var hadError: bool
    var panicMode: bool
    /** How many diagnostics have been written to stderr. */
    var diagnostics: nat
    var code: seq<Byte>
    var lines: seq<int>
    var constants: seq<Value>

    ghost function State(): ParserState
      reads this
    {
      ParserState(pos, current, previous, hadError, panicMode, diagnostics, code, lines, constants)
    }

    ghost predicate Valid()
      reads this
    {
      Consistent(tokens, State())
    }

    /** l_compile's reset of the parser and the empty chunk it compiles into. */
    constructor (tokens: seq<Token>, ops: NumberOps)
      ensures this.tokens == tokens && this.ops == ops && State() == Initial() && Valid()
    {
      this.tokens := tokens;
      this.ops := ops;
      pos := 0;
      // Not yet scanned: the first _advance overwrites both.
      current := Token(TokenEof, 0, []);
      previous := Token(TokenEof, 0, []);
      hadError := false;
      panicMode := false;
      diagnostics := 0;
      code := [];
      lines := [];
      constants := [];
    }

    /** l_scan_token: the next token of the input, then end-of-input forever. */
    method ScanToken() returns (t: Token)
      modifies this`pos
      ensures State().(current := t) == AfterScan(tokens, old(State()))
    {
      if pos < |tokens| {
        t := tokens[pos];
        pos := pos + 1;
      } else {
        t := EndOfInput(tokens);
      }
    }

    /** _error_at (the token only supplies the diagnostic's text). */
    method ErrorAt(token: Token)
      modifies this`panicMode, this`hadError, this`diagnostics
      ensures State() == AfterError(old(State()))
    {
      if panicMode {
        return;
      }
      panicMode := true;
      diagnostics := diagnostics + 1;
      hadError := true;
    }

    /** _error: an error at the previous token. */
    method Error()
      modifies this`panicMode, this`hadError, this`diagnostics
      ensures State() == AfterError(old(State()))
    {
      ErrorAt(previous);
    }

    /** _error_at_current: an error at the current token. */
    method ErrorAtCurrent()
      modifies this`panicMode, this`hadError, this`diagnostics
      ensures State() == AfterError(old(State()))
    {
      ErrorAt(current);
    }

    /** _advance */
    method Advance()
      requires Valid()
      modifies this`pos, this`current, this`previous, this`panicMode, this`hadError, this`diagnostics
      ensures State() == AfterAdvance(tokens, old(State()))
    {
      previous := current;
      while true
        invariant Valid()
        invariant AdvanceLoop(tokens, State()) == AfterAdvance(tokens, old(State()))
        decreases |tokens| - pos
      {
        current := ScanToken();
        if current.kind != TokenError {
          break;
        }
        ErrorAtCurrent();
      }
    }

    /** _consume */
    method Consume(kind: TokenType)
      requires Valid()
      modifies this`pos, this`current, this`previous, this`panicMode, this`hadError, this`diagnostics
      ensures State() == AfterConsume(tokens, old(State()), kind)
    {
      if current.kind == kind {
        Advance();
        return;
      }
      ErrorAtCurrent();
    }

    /** _emit_byte: append a byte, tagged with the line of the previous token. */
    method EmitByte(b: Byte)
      modifies this`code, this`lines
      ensures State() == AfterEmit(old(State()), [b])
    {
      code := code + [b];
      lines := lines + [previous.line];
    }

    /** _emit_bytes */
    method EmitBytes(b1: Byte, b2: Byte)
      modifies this`code, this`lines
      ensures State() == AfterEmit(old(State()), [b1, b2])
    {
      EmitByte(b1);
      EmitByte(b2);
    }

    /** _emit_return */
    method EmitReturn()
      modifies this`code, this`lines
      ensures State() == AfterEmit(old(State()), [Encode(OpReturn)])
    {
      EmitByte(Encode(OpReturn));
    }

    /**
     * _make_constant: add the value to the pool (l_add_constant, from chunk.c,
     * which is not part of this model, appends and returns the new index).
     * An index above UINT8_MAX is reported and replaced by 0.
     */
    method MakeConstant(value: Value) returns (index: Byte)
      modifies this`constants, this`panicMode, this`hadError, this`diagnostics
      ensures index == ConstantOperand(|old(constants)|)
      ensures var s := old(State()).(constants := old(constants) + [value]);
        State() == if |old(constants)| > UINT8_MAX then AfterError(s) else s
    {
      constants := constants + [value];
      var constant := |constants| - 1;
      if constant > UINT8_MAX {
        Error();  // "Too many constants in one chunk."
        return 0;
      }
      return constant;
    }

    /** _emit_constant */
    method EmitConstant(value: Value)
      modifies this`constants, this`panicMode, this`hadError, this`diagnostics, this`code, this`lines
      ensures State() == AfterConstant(old(State()), value)
    {
      var index := MakeConstant(value);
      EmitBytes(Encode(OpConstant), index);
    }

    /** _end_compiler */
    method EndCompiler()
      modifies this`code, this`lines
      ensures State() == AfterEmit(old(State()), [Encode(OpReturn)])
    {
      EmitReturn();
    }

    /** _binary: the operator has just been consumed. */
    method Binary()
      requires Valid()
      modifies this
      ensures State() == AfterBinary(tokens, ops, old(State()))
      decreases Pending(tokens, State()), 1
    {
      var operatorType := previous.kind;
      var rule := GetRule(operatorType);
      ParsePrecedence(rule.precedence + 1);
      if operatorType == TokenBangEqual {
        EmitBytes(Encode(OpEqual), Encode(OpNot));
      } else if operatorType == TokenEqualEqual {
        EmitByte(Encode(OpEqual));
      } else if operatorType == TokenGreater {
        EmitByte(Encode(OpGreater));
      } else if operatorType == TokenGreaterEqual {
        EmitBytes(Encode(OpLess), Encode(OpNot));
      } else if operatorType == TokenLess {
        EmitByte(Encode(OpLess));
      } else if operatorType == TokenLessEqual {
        EmitBytes(Encode(OpGreater), Encode(OpNot));
      } else if operatorType == TokenPlus {
        EmitByte(Encode(OpAdd));
      } else if operatorType == TokenMinus {
        EmitByte(Encode(OpSubtract));
      } else if operatorType == TokenStar {
        EmitByte(Encode(OpMultiply));
      } else if operatorType == TokenSlash {
        EmitByte(Encode(OpDivide));
      } else {
        assert BinaryBytes(operatorType) == [];
      }
    }

    /** _literal */
    method Literal()
      modifies this`code, this`lines
      ensures State() == AfterLiteral(old(State()))
    {
      if previous.kind == TokenFalse {
        EmitByte(Encode(OpFalse));
      } else if previous.kind == TokenNil {
        EmitByte(Encode(OpNil));
      } else if previous.kind == TokenTrue {
        EmitByte(Encode(OpTrue));
      } else {
        assert LiteralBytes(previous.kind) == [];
      }
    }

    /** _number */
    method NumberLiteral()
      modifies this`constants, this`panicMode, this`hadError, this`diagnostics, this`code, this`lines
      ensures State() == AfterNumber(ops, old(State()))
    {
      var number := ops.parse(previous.lexeme);
      EmitConstant(Num(number));
    }

    /** _unary */
    method Unary()
      requires Valid()
      modifies this
      ensures State() == AfterUnary(tokens, ops, old(State()))
      decreases Pending(tokens, State()), 1
    {
      var operatorType := previous.kind;
      ParsePrecedence(PrecUnary);
      if operatorType == TokenBang {
        EmitByte(Encode(OpNot));
      } else if operatorType == TokenMinus {
        EmitByte(Encode(OpNegate));
      } else {
        assert UnaryBytes(operatorType) == [];
      }
    }

    /** _grouping */
    method Grouping()
      requires Valid()
      modifies this
      ensures State() == AfterGrouping(tokens, ops, old(State()))
      decreases Pending(tokens, State()), 2
    {
      Expression();
      Consume(TokenRightParen);
    }

    /** _parse_precedence */
    method ParsePrecedence(precedence: nat)
      requires Valid() && precedence >= PrecAssignment
      modifies this
      ensures State() == AfterParse(tokens, ops, precedence, old(State()))
      decreases Pending(tokens, State()), 0
    {
      Advance();
      var prefixRule := GetRule(previous.kind).prefix;
      if prefixRule == NoFn {
        Error();  // "Expect expression."
        return;
      }
      Prefix(prefixRule);
      while precedence <= GetRule(current.kind).precedence
        invariant Valid()
        invariant AfterInfix(tokens, ops, precedence, State()) == AfterParse(tokens, ops, precedence, old(State()))
        invariant Pending(tokens, State()) < Pending(tokens, old(State()))
        decreases Pending(tokens, State())
      {
        assert current.kind != TokenEof;
        Advance();
        var infixRule := GetRule(previous.kind).infix;
        assert infixRule == BinaryFn;
        Binary();
      }
    }

    /**
     * The call of a prefix rule through its function pointer: dispatch on the
     * rule chosen for the token just consumed.
     */
    method Prefix(rule: ParseFn)
      requires Valid()
      modifies this
      ensures State() == AfterPrefix(tokens, ops, rule, old(State()))
      decreases Pending(tokens, State()), 3
    {
      match rule {
        case GroupingFn => Grouping();
        case UnaryFn => Unary();
        case NumberFn => NumberLiteral();
        case LiteralFn => Literal();
        case _ =>
      }
    }

    /** _expression */
    method Expression()
      requires Valid()
      modifies this
      ensures State() == AfterExpression(tokens, ops, old(State()))
      decreases Pending(tokens, State()), 1
    {
      ParsePrecedence(PrecAssignment);
    }
  }

  /**
   * The tokens of e followed by end-of-input, with the constants of e fitting
   * one chunk's pool: the inputs on which the compiler must succeed.
   */
  ghost predicate CompilesFrom(tokens: seq<Token>, e: Expr) {
    WellFormed(e) && NumCount(e) <= UINT8_MAX + 1
    && |tokens| == |Tokens(e)| + 1 && tokens[..|Tokens(e)|] == Tokens(e)
    && tokens[|Tokens(e)|].kind == TokenEof
  }

  /**
   * l_compile: one expression followed by end-of-input, compiled into a fresh
   * chunk closed by OP_RETURN. It reports success exactly when no diagnostic
   * was written, writes at most one, and on the token sequence of any
   * well-formed expression succeeds with that expression's postfix code.
   */
  method Compile(tokens: seq<Token>, ops: NumberOps, ghost source: Expr)
    returns (ok: bool, chunk: Chunk, diagnostics: nat)
    ensures |chunk.lines| == |chunk.code| && |chunk.code| >= 1
    ensures chunk.code[|chunk.code| - 1] == Encode(OpReturn)
    ensures diagnostics <= 1 && (ok <==> diagnostics == 0)
    ensures ok == !Compiled(tokens, ops).hadError && diagnostics == Compiled(tokens, ops).diagnostics
    ensures chunk == Chunk(Compiled(tokens, ops).code, Compiled(tokens, ops).lines, Compiled(tokens, ops).constants)
    ensures CompilesFrom(tokens, source) ==>
      ok && chunk.code == Code(source, 0) + [Encode(OpReturn)] && chunk.constants == Constants(source, ops)
  {
    var parser := new Parser(tokens, ops);
    parser.Advance();
    parser.Expression();
    parser.Consume(TokenEof);
    parser.EndCompiler();
    assert parser.State() == Compiled(tokens, ops);
    if CompilesFrom(tokens, source) {
      CompiledCorrect(tokens, ops, source);
    }
    ok := !parser.hadError;
    chunk := Chunk(parser.code, parser.lines, parser.constants);
    diagnostics := parser.diagnostics;
  }
}
