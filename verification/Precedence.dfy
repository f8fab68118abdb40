/** Operator precedence (subexpr, lparser.c): the parser finds exactly the tree that the manual prescribes. */
module Precedence {
  import opened Limits
  import opened Wrappers

  const UNARY_PRIORITY: nat := 8

  datatype BinOpr =
    | OPR_ADD | OPR_SUB | OPR_MUL | OPR_DIV | OPR_MOD | OPR_POW | OPR_CONCAT
    | OPR_NE | OPR_EQ | OPR_LT | OPR_LE | OPR_GT | OPR_GE | OPR_AND | OPR_OR

  datatype UnOpr = OPR_MINUS | OPR_NOT | OPR_LEN

  datatype Token =
    | NAME(id: nat) | LPAREN | RPAREN | TK_NOT | HASH
    | PLUS | MINUS | STAR | SLASH | PERCENT | CARET | TK_CONCAT
    | TK_NE | TK_EQ | LT | TK_LE | GT | TK_GE | TK_AND | TK_OR | OTHER

  /** A tree with the parentheses of the source. */
  datatype Tree = Atom(id: nat) | Paren(e: Tree) | Un(u: UnOpr, e: Tree) | Bin(op: BinOpr, l: Tree, r: Tree)

  datatype SyntaxError = UnexpectedSymbol | ParenExpected | TooManyLevels

  datatype Parse = Parsed(tree: Tree, rest: seq<Token>) | Error(error: SyntaxError)

  // ----- operators and tokens -----

  function GetUnOpr(t: Token): Option<UnOpr> {
    match t
    case TK_NOT => Some(OPR_NOT)
    case MINUS => Some(OPR_MINUS)
    case HASH => Some(OPR_LEN)
    case _ => None
  }

  function GetBinOpr(t: Token): Option<BinOpr> {
    match t
    case PLUS => Some(OPR_ADD)
    case MINUS => Some(OPR_SUB)
    case STAR => Some(OPR_MUL)
    case SLASH => Some(OPR_DIV)
    case PERCENT => Some(OPR_MOD)
    case CARET => Some(OPR_POW)
    case TK_CONCAT => Some(OPR_CONCAT)
    case TK_NE => Some(OPR_NE)
    case TK_EQ => Some(OPR_EQ)
    case LT => Some(OPR_LT)
    case TK_LE => Some(OPR_LE)
    case GT => Some(OPR_GT)
    case TK_GE => Some(OPR_GE)
    case TK_AND => Some(OPR_AND)
    case TK_OR => Some(OPR_OR)
    case _ => None
  }

  /** How a binary operator is written. */
  function Spelling(op: BinOpr): string {
    match op
    case OPR_ADD => "+"
    case OPR_SUB => "-"
    case OPR_MUL => "*"
    case OPR_DIV => "/"
    case OPR_MOD => "%"
    case OPR_POW => "^"
    case OPR_CONCAT => ".."
    case OPR_NE => "~="
    case OPR_EQ => "=="
    case OPR_LT => "<"
    case OPR_LE => "<="
    case OPR_GT => ">"
    case OPR_GE => ">="
    case OPR_AND => "and"
    case OPR_OR => "or"
  }

  /** The text of a token that is no name. */
  function Lexeme(t: Token): string
    requires !t.NAME?
  {
    match t
    case PLUS => "+"
    case MINUS => "-"
    case STAR => "*"
    case SLASH => "/"
    case PERCENT => "%"
    case CARET => "^"
    case TK_CONCAT => ".."
    case TK_NE => "~="
    case TK_EQ => "=="
    case LT => "<"
    case TK_LE => "<="
    case GT => ">"
    case TK_GE => ">="
    case TK_AND => "and"
    case TK_OR => "or"
    case TK_NOT => "not"
    case HASH => "#"
    case LPAREN => "("
    case RPAREN => ")"
    case OTHER => ""
  }

  /** Each operator is read from its own text. */
  lemma OperatorText(op: BinOpr, u: UnOpr)
    ensures !BinToken(op).NAME? && Lexeme(BinToken(op)) == Spelling(op)
    ensures !UnToken(u).NAME? && Lexeme(UnToken(u)) == match u
      case OPR_MINUS => "-" case OPR_NOT => "not" case OPR_LEN => "#"
  {
  }

  /** The table `priority`. */
  function Left(op: BinOpr): (p: nat)
    ensures 1 <= p <= 10
  {
    match op
    case OPR_ADD => 6
    case OPR_SUB => 6
    case OPR_MUL => 7
    case OPR_DIV => 7
    case OPR_MOD => 7
    case OPR_POW => 10
    case OPR_CONCAT => 5
    case OPR_AND => 2
    case OPR_OR => 1
    case _ => 3
  }

  function Right(op: BinOpr): nat {
    match op
    case OPR_POW => 9
    case OPR_CONCAT => 4
    case _ => Left(op)
  }

  /** The left priority of the operator that follows, 0 if none does. */
  function NextPriority(ts: seq<Token>): nat {
    if ts != [] && GetBinOpr(ts[0]).Some? then Left(GetBinOpr(ts[0]).value) else 0
  }

  function BinToken(op: BinOpr): (t: Token)
    ensures GetBinOpr(t) == Some(op)
  {
    match op
    case OPR_ADD => PLUS
    case OPR_SUB => MINUS
    case OPR_MUL => STAR
    case OPR_DIV => SLASH
    case OPR_MOD => PERCENT
    case OPR_POW => CARET
    case OPR_CONCAT => TK_CONCAT
    case OPR_NE => TK_NE
    case OPR_EQ => TK_EQ
    case OPR_LT => LT
    case OPR_LE => TK_LE
    case OPR_GT => GT
    case OPR_GE => TK_GE
    case OPR_AND => TK_AND
    case OPR_OR => TK_OR
  }

  function UnToken(u: UnOpr): (t: Token)
    ensures GetUnOpr(t) == Some(u)
  {
    match u
    case OPR_NOT => TK_NOT
    case OPR_MINUS => MINUS
    case OPR_LEN => HASH
  }

  lemma TokensOfOperators(t: Token)
    ensures GetBinOpr(t).Some? ==> BinToken(GetBinOpr(t).value) == t
    ensures GetUnOpr(t).Some? ==> UnToken(GetUnOpr(t).value) == t
    ensures t.NAME? || t == LPAREN || t == RPAREN ==> GetUnOpr(t).None? && GetBinOpr(t).None?
  {
  }

  function Tokens(t: Tree): (ts: seq<Token>)
    ensures ts != []
  {
    match t
    case Atom(id) => [NAME(id)]
    case Paren(e) => [LPAREN] + Tokens(e) + [RPAREN]
    case Un(u, e) => [UnToken(u)] + Tokens(e)
    case Bin(op, l, r) => Tokens(l) + [BinToken(op)] + Tokens(r)
  }

  // ----- what the manual says (section 2.5.6) -----

  datatype Operator = Binary(op: BinOpr) | Unary(u: UnOpr)

  /** From lower to higher precedence. */
  function Rank(o: Operator): nat {
    match o
    case Binary(OPR_OR) => 1
    case Binary(OPR_AND) => 2
    case Binary(OPR_CONCAT) => 4
    case Binary(OPR_ADD) => 5
    case Binary(OPR_SUB) => 5
    case Binary(OPR_MUL) => 6
    case Binary(OPR_DIV) => 6
    case Binary(OPR_MOD) => 6
    case Unary(_) => 7
    case Binary(OPR_POW) => 8
    case Binary(_) => 3
  }

  /** Concatenation and exponentiation are right associative. */
  predicate RightAssociative(op: BinOpr) {
    op == OPR_CONCAT || op == OPR_POW
  }

  /** Does the operand between operator o, on its left, and op, on its right, belong to op? */
  predicate TakesRight(o: Operator, op: BinOpr) {
    Rank(Binary(op)) > Rank(o) || (Rank(Binary(op)) == Rank(o) && RightAssociative(op))
  }

  /** The binary operators that compete for the first operand of the tree. */
  function LeftSpine(t: Tree): set<BinOpr> {
    if t.Bin? then {t.op} + LeftSpine(t.l) else {}
  }

  /** The operators that compete for its last operand. */
  function RightSpine(t: Tree): set<Operator> {
    match t
    case Bin(op, _, r) => {Binary(op)} + RightSpine(r)
    case Un(u, e) => {Unary(u)} + RightSpine(e)
    case _ => {}
  }

  /** Every operand belongs to the operator that it should belong to. */
  ghost predicate Conforms(t: Tree) {
    match t
    case Atom(_) => true
    case Paren(e) => Conforms(e)
    case Un(u, e) => Conforms(e) && forall o :: o in LeftSpine(e) ==> TakesRight(Unary(u), o)
    case Bin(op, l, r) =>
      && Conforms(l) && Conforms(r)
      && (forall o :: o in RightSpine(l) ==> !TakesRight(o, op))
      && forall o :: o in LeftSpine(r) ==> TakesRight(Binary(op), o)
  }

  /** How many calls of subexpr are active at a time, at most. */
  function Levels(t: Tree): (n: nat)
    ensures n >= 1
  {
    match t
    case Atom(_) => 1
    case Paren(e) => 1 + Levels(e)
    case Un(_, e) => 1 + Levels(e)
    case Bin(_, l, r) => if Levels(l) > 1 + Levels(r) then Levels(l) else 1 + Levels(r)
  }

  // ----- the parser as a function -----

  /** subexpr; calls is the number of calls that are active. */
  function SubExpr(ts: seq<Token>, limit: nat, calls: nat): (p: Parse)
    ensures p.Parsed? ==> |p.rest| < |ts|
    decreases |ts|, 2
  {
    if calls + 1 > LUAI_MAXCCALLS then Error(TooManyLevels)
    else
      var p := Operand(ts, calls + 1);
      if p.Error? then p else Expand(p.tree, p.rest, limit, calls + 1)
  }

  function Operand(ts: seq<Token>, calls: nat): (p: Parse)
    ensures p.Parsed? ==> |p.rest| < |ts|
    decreases |ts|, 1
  {
    if ts == [] then Error(UnexpectedSymbol)
    else if GetUnOpr(ts[0]).Some? then
      var p := SubExpr(ts[1..], UNARY_PRIORITY, calls);
      if p.Error? then p else Parsed(Un(GetUnOpr(ts[0]).value, p.tree), p.rest)
    else SimpleExp(ts, calls)
  }

  /** simpleexp: names and parentheses */
  function SimpleExp(ts: seq<Token>, calls: nat): (p: Parse)
    requires ts != []
    ensures p.Parsed? ==> |p.rest| < |ts|
    decreases |ts|, 0
  {
    match ts[0]
    case NAME(id) => Parsed(Atom(id), ts[1..])
    case LPAREN =>
      var p := SubExpr(ts[1..], 0, calls);
      if p.Error? then p
      else if p.rest == [] || p.rest[0] != RPAREN then Error(ParenExpected)
      else Parsed(Paren(p.tree), p.rest[1..])
    case _ => Error(UnexpectedSymbol)
  }

  /** The loop of subexpr: v is the left operand of whatever operator still binds tighter than limit. */
  function Expand(v: Tree, ts: seq<Token>, limit: nat, calls: nat): (p: Parse)
    ensures p.Parsed? ==> |p.rest| <= |ts|
    decreases |ts|, 3
  {
    if NextPriority(ts) <= limit then Parsed(v, ts)
    else
      var op := GetBinOpr(ts[0]).value;
      var p := SubExpr(ts[1..], Right(op), calls);
      if p.Error? then p else Expand(Bin(op, v, p.tree), p.rest, limit, calls)
  }

  // ----- the parser meets the manual -----

  /** The tree fits at a place with this limit, where an operator with this left priority follows. */
  ghost predicate Fits(t: Tree, limit: nat, next: nat) {
    match t
    case Atom(_) => true
    case Paren(e) => Fits(e, 0, 0)
    case Un(_, e) => Fits(e, UNARY_PRIORITY, next) && next <= UNARY_PRIORITY
    case Bin(op, l, r) => Left(op) > limit && next <= Right(op) && Fits(l, limit, Left(op)) && Fits(r, Right(op), next)
  }

  function RightPriority(o: Operator): nat {
    if o.Unary? then UNARY_PRIORITY else Right(o.op)
  }

  /** The table of priorities says what the manual says. */
  lemma Priorities(o: Operator, op: BinOpr)
    ensures TakesRight(o, op) <==> Left(op) > RightPriority(o)
  {
  }

  lemma {:induction false} FitsConforms(t: Tree, limit: nat, next: nat)
    ensures Fits(t, limit, next) <==>
            && Conforms(t) && (forall o :: o in LeftSpine(t) ==> Left(o) > limit)
            && forall o :: o in RightSpine(t) ==> next <= RightPriority(o)
  {
    match t
    case Atom(_) =>
    case Paren(e) => FitsConforms(e, 0, 0);
    case Un(u, e) =>
      FitsConforms(e, UNARY_PRIORITY, next);
      forall o | o in LeftSpine(e) ensures TakesRight(Unary(u), o) <==> Left(o) > UNARY_PRIORITY {
        Priorities(Unary(u), o);
      }
    case Bin(op, l, r) =>
      FitsConforms(l, limit, Left(op));
      FitsConforms(r, Right(op), next);
      forall o | o in LeftSpine(r) ensures TakesRight(Binary(op), o) <==> Left(o) > Right(op) {
        Priorities(Binary(op), o);
      }
      forall o | o in RightSpine(l) ensures !TakesRight(o, op) <==> Left(op) <= RightPriority(o) { Priorities(o, op); }
  }

  /** What the parser returns for the tokens of a tree, when `rest` follows. */
  function Rebuild(t: Tree, rest: seq<Token>, limit: nat, calls: nat): Parse {
    if calls + Levels(t) > LUAI_MAXCCALLS then Error(TooManyLevels) else Expand(t, rest, limit, calls + 1)
  }

  /** A tree that fits is rebuilt from its tokens, and the parser goes on with what follows. */
  lemma {:induction false} Rebuilt(t: Tree, rest: seq<Token>, limit: nat, calls: nat)
    requires Fits(t, limit, NextPriority(rest))
    ensures SubExpr(Tokens(t) + rest, limit, calls) == Rebuild(t, rest, limit, calls)
    decreases t, 1
  {
    if t.Bin? { RebuiltBin(t, rest, limit, calls); } else { RebuiltOperand(t, rest, limit, calls); }
  }

  lemma {:induction false} RebuiltOperand(t: Tree, rest: seq<Token>, limit: nat, calls: nat)
    requires Fits(t, limit, NextPriority(rest)) && !t.Bin?
    ensures SubExpr(Tokens(t) + rest, limit, calls) == Rebuild(t, rest, limit, calls)
    decreases t, 0
  {
    hide GetUnOpr, GetBinOpr, BinToken, UnToken, Left, Right;
    var ts := Tokens(t) + rest;
    TokensOfOperators(ts[0]);
    TokensOfOperators(RPAREN);
    match t
    case Atom(id) =>
      assert ts[1..] == rest && ts[0] == NAME(id) && Operand(ts, calls + 1) == SimpleExp(ts, calls + 1);
    case Paren(e) =>
      var more := [RPAREN] + rest;
      assert ts[1..] == Tokens(e) + more;
      Rebuilt(e, more, 0, calls + 1);
      assert more[1..] == rest;
      assert ts[0] == LPAREN && Operand(ts, calls + 1) == SimpleExp(ts, calls + 1);
    case Un(u, e) =>
      assert ts[1..] == Tokens(e) + rest;
      Rebuilt(e, rest, UNARY_PRIORITY, calls + 1);
  }

  lemma {:induction false} RebuiltBin(t: Tree, rest: seq<Token>, limit: nat, calls: nat)
    requires Fits(t, limit, NextPriority(rest)) && t.Bin?
    ensures SubExpr(Tokens(t) + rest, limit, calls) == Rebuild(t, rest, limit, calls)
    decreases t, 0
  {
    hide GetUnOpr, GetBinOpr, BinToken, UnToken, Left, Right, SubExpr;
    var more := [BinToken(t.op)] + (Tokens(t.r) + rest);
    assert Tokens(t) + rest == Tokens(t.l) + more;
    assert more[1..] == Tokens(t.r) + rest;
    Rebuilt(t.l, more, limit, calls);
    Rebuilt(t.r, rest, Right(t.op), calls + 1);
  }

  /** Whatever the parser accepts consists of the tokens of its tree, which fits. */
  lemma {:induction false} Sound(ts: seq<Token>, limit: nat, calls: nat)
    requires SubExpr(ts, limit, calls).Parsed?
    ensures var p := SubExpr(ts, limit, calls);
            && Tokens(p.tree) + p.rest == ts && Fits(p.tree, limit, NextPriority(p.rest))
            && NextPriority(p.rest) <= limit
            && calls + Levels(p.tree) <= LUAI_MAXCCALLS
    decreases |ts|, 2
  {
    hide GetUnOpr, GetBinOpr, BinToken, UnToken, Left, Right, Operand;
    SoundOperand(ts, limit, calls + 1);
    var p := Operand(ts, calls + 1);
    SoundExpand(p.tree, p.rest, limit, calls + 1, Tokens(p.tree));
  }

  lemma {:induction false} SoundOperand(ts: seq<Token>, limit: nat, calls: nat)
    requires Operand(ts, calls).Parsed? && calls <= LUAI_MAXCCALLS
    ensures var p := Operand(ts, calls);
            && Tokens(p.tree) + p.rest == ts && Fits(p.tree, limit, NextPriority(p.rest))
            && calls + Levels(p.tree) <= LUAI_MAXCCALLS + 1
    decreases |ts|, 1
  {
    hide GetUnOpr, GetBinOpr, BinToken, UnToken, Left, Right, SubExpr;
    TokensOfOperators(ts[0]);
    TokensOfOperators(RPAREN);
    var p := Operand(ts, calls);
    if GetUnOpr(ts[0]).Some? {
      Sound(ts[1..], UNARY_PRIORITY, calls);
      var e := SubExpr(ts[1..], UNARY_PRIORITY, calls);
      assert Tokens(p.tree) + p.rest == [ts[0]] + (Tokens(e.tree) + e.rest);
    } else if ts[0] == LPAREN {
      assert p == SimpleExp(ts, calls);
      Sound(ts[1..], 0, calls);
      var e := SubExpr(ts[1..], 0, calls);
      assert e.rest == [RPAREN] + e.rest[1..];
      assert Tokens(p.tree) + p.rest == [ts[0]] + (Tokens(e.tree) + e.rest);
    } else {
      assert p == SimpleExp(ts, calls);
    }
  }

  lemma {:induction false} SoundExpand(v: Tree, ts: seq<Token>, limit: nat, calls: nat, before: seq<Token>)
    requires Expand(v, ts, limit, calls).Parsed? && Fits(v, limit, NextPriority(ts)) && before == Tokens(v)
    requires calls + Levels(v) <= LUAI_MAXCCALLS + 1
    ensures var p := Expand(v, ts, limit, calls);
            && Tokens(p.tree) + p.rest == before + ts && Fits(p.tree, limit, NextPriority(p.rest))
            && NextPriority(p.rest) <= limit
            && calls + Levels(p.tree) <= LUAI_MAXCCALLS + 1
    decreases |ts|, 0
  {
    hide GetUnOpr, GetBinOpr, BinToken, UnToken, Left, Right, SubExpr;
    if NextPriority(ts) > limit {
      var op := GetBinOpr(ts[0]).value;
      var p := SubExpr(ts[1..], Right(op), calls);
      Sound(ts[1..], Right(op), calls);
      var w := Bin(op, v, p.tree);
      TokensOfOperators(ts[0]);
      assert Tokens(w) + p.rest == before + ([ts[0]] + (Tokens(p.tree) + p.rest));
      SoundExpand(w, p.rest, limit, calls, Tokens(w));
    }
  }

  /** expr: exactly the trees in which operators bind as the manual says are found, from their own tokens, as long as
      they are not nested too deep and no operator follows. */
  lemma ParserMeetsManual(ts: seq<Token>, calls: nat, t: Tree, rest: seq<Token>)
    ensures SubExpr(ts, 0, calls) == Parsed(t, rest) <==>
            ts == Tokens(t) + rest && Conforms(t) && NextPriority(rest) == 0 && calls + Levels(t) <= LUAI_MAXCCALLS
  {
    FitsConforms(t, 0, 0);
    if SubExpr(ts, 0, calls) == Parsed(t, rest) { Sound(ts, 0, calls); }
    if ts == Tokens(t) + rest && Conforms(t) && NextPriority(rest) == 0 { Rebuilt(t, rest, 0, calls); }
  }

  /** So no text can be read in two ways. */
  lemma Unambiguous(t: Tree, t': Tree)
    requires Conforms(t) && Conforms(t') && Tokens(t) == Tokens(t') && Levels(t) <= LUAI_MAXCCALLS
    requires Levels(t') <= LUAI_MAXCCALLS
    ensures t == t'
  {
    assert Tokens(t) + [] == Tokens(t);
    ParserMeetsManual(Tokens(t), 0, t, []);
    ParserMeetsManual(Tokens(t), 0, t', []);
  }

  // ----- printing -----

  function Strip(t: Tree): Tree {
    match t
    case Atom(_) => t
    case Paren(e) => Strip(e)
    case Un(u, e) => Un(u, Strip(e))
    case Bin(op, l, r) => Bin(op, Strip(l), Strip(r))
  }

  /** The tree with parentheses where they are needed. */
  function WithParens(t: Tree, limit: nat, next: nat): Tree
    requires Strip(t) == t
    decreases t, 1
  {
    if (t.Un? && next > UNARY_PRIORITY) || (t.Bin? && (Left(t.op) <= limit || next > Right(t.op)))
    then Paren(Inside(t, 0, 0))
    else Inside(t, limit, next)
  }

  function Inside(t: Tree, limit: nat, next: nat): Tree
    requires Strip(t) == t
    decreases t, 0
  {
    match t
    case Atom(_) => t
    case Paren(_) => t
    case Un(u, e) => Un(u, WithParens(e, UNARY_PRIORITY, next))
    case Bin(op, l, r) => Bin(op, WithParens(l, limit, Left(op)), WithParens(r, Right(op), next))
  }

  /** Printed with these parentheses a tree conforms, and is the same without them; none are added to one that
      conforms already. */
  lemma {:induction false} PrintedFits(t: Tree, limit: nat, next: nat)
    requires Strip(t) == t
    ensures var p := WithParens(t, limit, next);
            Fits(p, limit, next) && Strip(p) == t && (Fits(t, limit, next) ==> p == t)
    decreases t, 1
  {
    if (t.Un? && next > UNARY_PRIORITY) || (t.Bin? && (Left(t.op) <= limit || next > Right(t.op))) {
      InsideFits(t, 0, 0);
    } else {
      InsideFits(t, limit, next);
    }
  }

  lemma {:induction false} InsideFits(t: Tree, limit: nat, next: nat)
    requires Strip(t) == t && (t.Un? ==> next <= UNARY_PRIORITY)
    requires t.Bin? ==> Left(t.op) > limit && next <= Right(t.op)
    ensures var p := Inside(t, limit, next);
            Fits(p, limit, next) && Strip(p) == t && (Fits(t, limit, next) ==> p == t)
    decreases t, 0
  {
    match t
    case Atom(_) =>
    case Paren(e) => StripSmaller(e);
    case Un(_, e) => PrintedFits(e, UNARY_PRIORITY, next);
    case Bin(op, l, r) =>
      PrintedFits(l, limit, Left(op));
      PrintedFits(r, Right(op), next);
  }

  function Size(t: Tree): nat {
    match t
    case Atom(_) => 1
    case Paren(e) => 1 + Size(e)
    case Un(_, e) => 1 + Size(e)
    case Bin(_, l, r) => 1 + Size(l) + Size(r)
  }

  /** So a tree without parentheses has none. */
  lemma {:induction false} StripSmaller(t: Tree)
    ensures Size(Strip(t)) <= Size(t) && Strip(t) != Paren(t)
  {
    match t
    case Atom(_) =>
    case Paren(e) => StripSmaller(e);
    case Un(_, e) => StripSmaller(e);
    case Bin(_, l, r) =>
      StripSmaller(l);
      StripSmaller(r);
  }

  /** Parsing undoes printing, as long as the tree is not nested too deep. */
  lemma PrintedIsRead(t: Tree, calls: nat)
    requires Strip(t) == t
    ensures var p := WithParens(t, 0, 0);
            && Strip(p) == t
            && SubExpr(Tokens(p), 0, calls)
            == if calls + Levels(p) <= LUAI_MAXCCALLS then Parsed(p, []) else Error(TooManyLevels)
  {
    hide Tokens, SubExpr;
    PrintedFits(t, 0, 0);
    var p := WithParens(t, 0, 0);
    assert Tokens(p) + [] == Tokens(p);
    Rebuilt(p, [], 0, calls);
  }

  // ----- the parser as it works -----

  class LexState {
    var ts: seq<Token>   // the current token, and those after it
    var nCcalls: nat     // depth of the recursion

    method Next()
      modifies this`ts
      ensures ts == if old(ts) == [] then [] else old(ts)[1..]
    {
      ts := if ts == [] then [] else ts[1..];
    }

    function Current(): Token
      reads `ts
    {
      if ts == [] then OTHER else ts[0]
    }

    /** subexpr: returns the first untreated operator. */
    method SubExpression(limit: nat) returns (v: Parse, op: Option<BinOpr>)
      modifies this
      ensures v == SubExpr(old(ts), limit, old(nCcalls))
      ensures v.Parsed? ==> ts == v.rest && nCcalls == old(nCcalls)
      ensures v.Parsed? ==> op == GetBinOpr(Current()) && (op.Some? ==> Left(op.value) <= limit)
      decreases |ts|, 2
    {
      op := None;
      nCcalls := nCcalls + 1;
      if nCcalls > LUAI_MAXCCALLS { return Error(TooManyLevels), None; }
      v := ReadOperand();
      if v.Error? { return; }
      ghost var v0 := v;
      op := GetBinOpr(Current());
      while op.Some? && Left(op.value) > limit
        invariant v.Parsed? && ts == v.rest && |ts| < |old(ts)| && nCcalls == old(nCcalls) + 1
        invariant op == GetBinOpr(Current())
        invariant Expand(v0.tree, v0.rest, limit, nCcalls) == Expand(v.tree, ts, limit, nCcalls)
        decreases |ts|
      {
        Next();
        var v2, nextop := SubExpression(Right(op.value));
        if v2.Error? { return v2, None; }
        v := Parsed(Bin(op.value, v.tree, v2.tree), v2.rest);
        op := nextop;
      }
      nCcalls := nCcalls - 1;
    }

    /** The first operand of subexpr. */
    method ReadOperand() returns (v: Parse)
      modifies this
      ensures v == Operand(old(ts), old(nCcalls))
      ensures v.Parsed? ==> ts == v.rest && nCcalls == old(nCcalls)
      decreases |ts|, 1
    {
      var uop := GetUnOpr(Current());
      if uop.Some? {
        Next();
        var op;
        v, op := SubExpression(UNARY_PRIORITY);
        if v.Parsed? { v := Parsed(Un(uop.value, v.tree), v.rest); }
      } else {
        v := ReadSimple();
      }
    }

    /** simpleexp */
    method ReadSimple() returns (v: Parse)
      requires GetUnOpr(Current()).None?
      modifies this
      ensures v == Operand(old(ts), old(nCcalls))
      ensures v.Parsed? ==> ts == v.rest && nCcalls == old(nCcalls)
      decreases |ts|, 0
    {
      match Current() {
        case NAME(id) =>
          Next();
          v := Parsed(Atom(id), ts);
        case LPAREN =>
          Next();
          var op;
          v, op := SubExpression(0);
          if v.Parsed? {
            if Current() != RPAREN { return Error(ParenExpected); }
            Next();
            v := Parsed(Paren(v.tree), ts);
          }
        case _ => v := Error(UnexpectedSymbol);
      }
    }
  }
}
