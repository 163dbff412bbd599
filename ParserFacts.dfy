/** When the recursive-descent parser of src/command/roll/parser.rs stops.

    `consume` does not move past the last token. A token list that ends in
    a number, a die or a closing parenthesis is parsed within a budget
    linear in the token count. A parse whose cursor reaches a trailing
    `+ - * /` or `(` never finishes, because the `while` loops of `term`
    and `factor` go on without advancing, or `primary` recurses into
    `expr` on the same token until the program's stack overflows. A list
    ending in such a token can still be parsed to an answer when the parse
    stops before its cursor gets there, as `2(+` does. More budget never changes an answer once there is one. */
module ParserFacts {
  import opened Int64
  import opened Lexer
  import opened Parser

  function Last(tokens: seq<Token>): Token
    requires |tokens| > 0
  {
    tokens[|tokens| - 1]
  }

  /** The last token is one the parser can stop on. */
  predicate EndsCleanly(tokens: seq<Token>) {
    |tokens| > 0 && (Last(tokens).Const? || Last(tokens).Die? || (Last(tokens).Group? && Last(tokens).text != "("))
  }

  /** The last token is an operator or an opening parenthesis. */
  predicate EndsOpen(tokens: seq<Token>) {
    |tokens| > 0 && (Last(tokens).Term? || Last(tokens).Factor? || (Last(tokens).Group? && Last(tokens).text == "("))
  }

  /** Four recursion levels per remaining token. */
  function Budget(tokens: seq<Token>, s: PState): nat
    requires Inv(tokens, s)
  {
    4 * (|tokens| - 1 - s.cursor)
  }

  lemma {:induction false} ExprStops(tokens: seq<Token>, s: PState, fuel: nat)
    requires Inv(tokens, s) && EndsCleanly(tokens) && fuel >= Budget(tokens, s) + 4
    ensures !ParseExpr(tokens, s, fuel).Diverged?
    decreases fuel
  {
    TermStops(tokens, s, fuel - 1);
  }

  lemma {:induction false} TermStops(tokens: seq<Token>, s: PState, fuel: nat)
    requires Inv(tokens, s) && EndsCleanly(tokens) && fuel >= Budget(tokens, s) + 3
    ensures !ParseTerm(tokens, s, fuel).Diverged?
    decreases fuel
  {
    FactorStops(tokens, s, fuel - 1);
    var f := ParseFactor(tokens, s, fuel - 1);
    if f.Done? {
      TermTailStops(tokens, f.ast, f.state, fuel - 1);
    }
  }

  lemma {:induction false} TermTailStops(tokens: seq<Token>, lhs: Ast, s: PState, fuel: nat)
    requires Inv(tokens, s) && EndsCleanly(tokens) && fuel >= Budget(tokens, s) + 2
    ensures !TermTail(tokens, lhs, s, fuel).Diverged?
    decreases fuel
  {
    if Check(tokens, s, Term("")) {
      var (op, s1) := ConsumeAt(tokens, s);
      FactorStops(tokens, s1, fuel - 1);
      var f := ParseFactor(tokens, s1, fuel - 1);
      if f.Done? {
        TermTailStops(tokens, AstOp(lhs, f.ast, op), f.state, fuel - 1);
      }
    }
  }

  lemma {:induction false} FactorStops(tokens: seq<Token>, s: PState, fuel: nat)
    requires Inv(tokens, s) && EndsCleanly(tokens) && fuel >= Budget(tokens, s) + 2
    ensures !ParseFactor(tokens, s, fuel).Diverged?
    decreases fuel
  {
    PrimaryStops(tokens, s, fuel - 1);
    var p := ParsePrimary(tokens, s, fuel - 1);
    if p.Done? {
      FactorTailStops(tokens, p.ast, p.state, fuel - 1);
    }
  }

  lemma {:induction false} FactorTailStops(tokens: seq<Token>, lhs: Ast, s: PState, fuel: nat)
    requires Inv(tokens, s) && EndsCleanly(tokens) && fuel >= Budget(tokens, s) + 1
    ensures !FactorTail(tokens, lhs, s, fuel).Diverged?
    decreases fuel
  {
    if Check(tokens, s, Factor("")) {
      var (op, s1) := ConsumeAt(tokens, s);
      PrimaryStops(tokens, s1, fuel - 1);
      var p := ParsePrimary(tokens, s1, fuel - 1);
      if p.Done? {
        FactorTailStops(tokens, AstOp(lhs, p.ast, op), p.state, fuel - 1);
      }
    }
  }

  lemma {:induction false} PrimaryStops(tokens: seq<Token>, s: PState, fuel: nat)
    requires Inv(tokens, s) && EndsCleanly(tokens) && fuel >= Budget(tokens, s) + 1
    ensures !ParsePrimary(tokens, s, fuel).Diverged?
    decreases fuel
  {
    if !Check(tokens, s, Const("")) && !Check(tokens, s, Die(""))
      && Check(tokens, s, Group("")) && Peek(tokens, s).Value() == "("
    {
      var (_, s1) := ConsumeAt(tokens, s);
      ExprStops(tokens, s1, fuel - 1);
    }
  }

  /** Parsing a token list that ends in a number, a die or `)` from the
      start finishes (with a tree or a panic) within `4 * |tokens|` levels. */
  lemma ParseStops(tokens: seq<Token>, fuel: nat)
    requires EndsCleanly(tokens) && fuel >= 4 * |tokens|
    ensures !ParseExpr(tokens, PState(0, []), fuel).Diverged?
  {
    ExprStops(tokens, PState(0, []), fuel);
  }

  /* More fuel never changes an answer. A production that finishes (with a
     tree or a panic) on some budget gives the same answer on every larger
     one. A budget on which the parse diverges therefore either is too
     small or, when every budget diverges, shows a parse that never
     finishes; `ParseStops` and `ExprAtEnd` give the two cases. */

  lemma {:induction false} ExprMonotone(tokens: seq<Token>, s: PState, fuel: nat, more: nat)
    requires Inv(tokens, s) && fuel <= more && !ParseExpr(tokens, s, fuel).Diverged?
    ensures ParseExpr(tokens, s, more) == ParseExpr(tokens, s, fuel)
    decreases fuel
  {
    TermMonotone(tokens, s, fuel - 1, more - 1);
  }

  lemma {:induction false} TermMonotone(tokens: seq<Token>, s: PState, fuel: nat, more: nat)
    requires Inv(tokens, s) && fuel <= more && !ParseTerm(tokens, s, fuel).Diverged?
    ensures ParseTerm(tokens, s, more) == ParseTerm(tokens, s, fuel)
    decreases fuel
  {
    FactorMonotone(tokens, s, fuel - 1, more - 1);
    var f := ParseFactor(tokens, s, fuel - 1);
    if f.Done? {
      TermTailMonotone(tokens, f.ast, f.state, fuel - 1, more - 1);
    }
  }

  lemma {:induction false} TermTailMonotone(tokens: seq<Token>, lhs: Ast, s: PState, fuel: nat, more: nat)
    requires Inv(tokens, s) && fuel <= more && !TermTail(tokens, lhs, s, fuel).Diverged?
    ensures TermTail(tokens, lhs, s, more) == TermTail(tokens, lhs, s, fuel)
    decreases fuel
  {
    if Check(tokens, s, Term("")) {
      var (op, s1) := ConsumeAt(tokens, s);
      FactorMonotone(tokens, s1, fuel - 1, more - 1);
      var f := ParseFactor(tokens, s1, fuel - 1);
      if f.Done? {
        TermTailMonotone(tokens, AstOp(lhs, f.ast, op), f.state, fuel - 1, more - 1);
      }
    }
  }

  lemma {:induction false} FactorMonotone(tokens: seq<Token>, s: PState, fuel: nat, more: nat)
    requires Inv(tokens, s) && fuel <= more && !ParseFactor(tokens, s, fuel).Diverged?
    ensures ParseFactor(tokens, s, more) == ParseFactor(tokens, s, fuel)
    decreases fuel, 1
  {
    PrimaryMonotone(tokens, s, fuel - 1, more - 1);
    FactorMonotoneAfterPrimary(tokens, s, fuel, more);
  }

  /** The loop of `factor` after a primary that both budgets agree on. */
  lemma {:induction false} FactorMonotoneAfterPrimary(tokens: seq<Token>, s: PState, fuel: nat, more: nat)
    requires Inv(tokens, s) && 0 < fuel <= more && !ParseFactor(tokens, s, fuel).Diverged?
    requires ParsePrimary(tokens, s, more - 1) == ParsePrimary(tokens, s, fuel - 1)
    ensures ParseFactor(tokens, s, more) == ParseFactor(tokens, s, fuel)
    decreases fuel, 0
  {
    var p := ParsePrimary(tokens, s, fuel - 1);
    if p.Done? {
      FactorTailMonotone(tokens, p.ast, p.state, fuel - 1, more - 1);
    }
  }

  lemma {:induction false} FactorTailMonotone(tokens: seq<Token>, lhs: Ast, s: PState, fuel: nat, more: nat)
    requires Inv(tokens, s) && fuel <= more && !FactorTail(tokens, lhs, s, fuel).Diverged?
    ensures FactorTail(tokens, lhs, s, more) == FactorTail(tokens, lhs, s, fuel)
    decreases fuel
  {
    if Check(tokens, s, Factor("")) {
      var (op, s1) := ConsumeAt(tokens, s);
      PrimaryMonotone(tokens, s1, fuel - 1, more - 1);
      var p := ParsePrimary(tokens, s1, fuel - 1);
      if p.Done? {
        FactorTailMonotone(tokens, AstOp(lhs, p.ast, op), p.state, fuel - 1, more - 1);
      }
    }
  }

  lemma {:induction false} PrimaryMonotone(tokens: seq<Token>, s: PState, fuel: nat, more: nat)
    requires Inv(tokens, s) && fuel <= more && !ParsePrimary(tokens, s, fuel).Diverged?
    ensures ParsePrimary(tokens, s, more) == ParsePrimary(tokens, s, fuel)
    decreases fuel
  {
    if Check(tokens, s, Group("")) && Peek(tokens, s).Value() == "(" {
      var (_, s1) := ConsumeAt(tokens, s);
      ExprMonotone(tokens, s1, fuel - 1, more - 1);
    }
  }

  /** Any two budgets on which the whole parse finishes give one answer. */
  lemma ParseAnswerIsUnique(tokens: seq<Token>, f1: nat, f2: nat)
    requires |tokens| > 0
    requires !ParseExpr(tokens, PState(0, []), f1).Diverged? && !ParseExpr(tokens, PState(0, []), f2).Diverged?
    ensures ParseExpr(tokens, PState(0, []), f1) == ParseExpr(tokens, PState(0, []), f2)
  {
    if f1 <= f2 {
      ExprMonotone(tokens, PState(0, []), f1, f2);
    } else {
      ExprMonotone(tokens, PState(0, []), f2, f1);
    }
  }

  /** The cursor is on the last token. */
  predicate AtEnd(tokens: seq<Token>, s: PState) {
    |tokens| > 0 && s.cursor == |tokens| - 1
  }

  /** Once the cursor reaches a trailing operator or `(`, the parse never
      finishes, whatever the budget. */
  lemma {:induction false} ExprAtEnd(tokens: seq<Token>, s: PState, fuel: nat)
    requires AtEnd(tokens, s) && EndsOpen(tokens)
    ensures ParseExpr(tokens, s, fuel) == Diverged
    decreases fuel
  {
    if fuel > 0 {
      TermAtEnd(tokens, s, fuel - 1);
    }
  }

  lemma {:induction false} TermAtEnd(tokens: seq<Token>, s: PState, fuel: nat)
    requires AtEnd(tokens, s) && EndsOpen(tokens)
    ensures ParseTerm(tokens, s, fuel) == Diverged
    decreases fuel
  {
    if fuel > 0 {
      FactorAtEnd(tokens, s, fuel - 1);
      var f := ParseFactor(tokens, s, fuel - 1);
      if f.Done? {
        TermTailAtEnd(tokens, f.ast, f.state, fuel - 1);
      }
    }
  }

  /** On a trailing `+`/`-` the loop of `term` never ends; on anything else
      it does not start. */
  lemma {:induction false} TermTailAtEnd(tokens: seq<Token>, lhs: Ast, s: PState, fuel: nat)
    requires AtEnd(tokens, s) && EndsOpen(tokens)
    ensures Last(tokens).Term? ==> TermTail(tokens, lhs, s, fuel) == Diverged
    ensures !Last(tokens).Term? ==> TermTail(tokens, lhs, s, fuel) == Done(lhs, s)
    decreases fuel
  {
    if Last(tokens).Term? && fuel > 0 {
      var (op, s1) := ConsumeAt(tokens, s);
      FactorAtEnd(tokens, s1, fuel - 1);
      var f := ParseFactor(tokens, s1, fuel - 1);
      if f.Done? {
        TermTailAtEnd(tokens, AstOp(lhs, f.ast, op), f.state, fuel - 1);
      }
    }
  }

  /** On a trailing `+`/`-` a factor is the error constant, with "Could not
      parse input" recorded and the cursor left in place; on a trailing
      `*`, `/` or `(` it never finishes. */
  lemma {:induction false} FactorAtEnd(tokens: seq<Token>, s: PState, fuel: nat)
    requires AtEnd(tokens, s) && EndsOpen(tokens)
    ensures Last(tokens).Term? && fuel >= 2 ==>
      ParseFactor(tokens, s, fuel) == Done(AstConst(0), s.(errors := s.errors + [CouldNotParse]))
    ensures !Last(tokens).Term? ==> ParseFactor(tokens, s, fuel) == Diverged
    decreases fuel
  {
    if fuel > 0 {
      PrimaryAtEnd(tokens, s, fuel - 1);
      var p := ParsePrimary(tokens, s, fuel - 1);
      if p.Done? {
        FactorTailAtEnd(tokens, p.ast, p.state, fuel - 1);
      }
    }
  }

  lemma {:induction false} FactorTailAtEnd(tokens: seq<Token>, lhs: Ast, s: PState, fuel: nat)
    requires AtEnd(tokens, s) && EndsOpen(tokens)
    ensures Last(tokens).Factor? ==> FactorTail(tokens, lhs, s, fuel) == Diverged
    ensures !Last(tokens).Factor? ==> FactorTail(tokens, lhs, s, fuel) == Done(lhs, s)
    decreases fuel
  {
    if Last(tokens).Factor? && fuel > 0 {
      var (op, s1) := ConsumeAt(tokens, s);
      PrimaryAtEnd(tokens, s1, fuel - 1);
      var p := ParsePrimary(tokens, s1, fuel - 1);
      if p.Done? {
        FactorTailAtEnd(tokens, AstOp(lhs, p.ast, op), p.state, fuel - 1);
      }
    }
  }

  /** On a trailing `(` a primary recurses into `expr` without end (in the
      program, until the stack overflows); on a trailing operator it
      records "Could not parse input" and stays. */
  lemma {:induction false} PrimaryAtEnd(tokens: seq<Token>, s: PState, fuel: nat)
    requires AtEnd(tokens, s) && EndsOpen(tokens)
    ensures Last(tokens).Group? ==> ParsePrimary(tokens, s, fuel) == Diverged
    ensures !Last(tokens).Group? && fuel > 0 ==>
      ParsePrimary(tokens, s, fuel) == Done(AstConst(0), s.(errors := s.errors + [CouldNotParse]))
    decreases fuel
  {
    if Last(tokens).Group? && fuel > 0 {
      ExprAtEnd(tokens, s, fuel - 1);
    }
  }

  /** A primary standing on `+`, `-`, `*`, `/` or `)`, at any cursor,
      consumes nothing, records "Could not parse input" and yields the
      constant 0. */
  lemma PrimaryUnrecognised(tokens: seq<Token>, s: PState, fuel: nat)
    requires Inv(tokens, s) && fuel > 0
    requires var t := tokens[s.cursor]; t.Term? || t.Factor? || t == Group(")")
    ensures ParsePrimary(tokens, s, fuel) == Done(AstConst(0), s.(errors := s.errors + [CouldNotParse]))
  {
  }

  /* Associativity and precedence. A product is a number followed by
     `* /` links, a sum a product followed by `+ -` links; on the tokens of
     a sum the parser builds the tree that folds every chain to the left,
     products first. */

  /** A decimal constant token the parser accepts. */
  predicate Number(text: string) {
    text != [] && AllAsciiDigits(text) && ParseI64(text).Some?
  }

  function NumberValue(text: string): int
    requires Number(text)
  {
    ParseI64(text).value
  }

  datatype Product = Product(head: string, tail: seq<(Token, string)>)
  datatype Sum = Sum(head: Product, tail: seq<(Token, Product)>)

  predicate ValidProduct(p: Product) {
    Number(p.head) && forall k :: 0 <= k < |p.tail| ==> p.tail[k].0.Factor? && Number(p.tail[k].1)
  }

  predicate ValidSum(s: Sum) {
    ValidProduct(s.head) && forall k :: 0 <= k < |s.tail| ==> s.tail[k].0.Term? && ValidProduct(s.tail[k].1)
  }

  function FactorLinks(t: seq<(Token, string)>): seq<Token> {
    if t == [] then [] else [t[0].0, Const(t[0].1)] + FactorLinks(t[1..])
  }

  function ProductTokens(p: Product): seq<Token> {
    [Const(p.head)] + FactorLinks(p.tail)
  }

  function TermLinks(t: seq<(Token, Product)>): seq<Token> {
    if t == [] then [] else [t[0].0] + ProductTokens(t[0].1) + TermLinks(t[1..])
  }

  function SumTokens(s: Sum): seq<Token> {
    ProductTokens(s.head) + TermLinks(s.tail)
  }

  /** `a op b op c ...` as `Op(Op(a, b), c) ...`. */
  function FoldFactors(acc: Ast, t: seq<(Token, string)>): Ast
    requires forall k :: 0 <= k < |t| ==> Number(t[k].1)
    decreases |t|
  {
    if t == [] then acc else FoldFactors(AstOp(acc, AstConst(NumberValue(t[0].1)), t[0].0), t[1..])
  }

  function ProductTree(p: Product): Ast
    requires ValidProduct(p)
  {
    FoldFactors(AstConst(NumberValue(p.head)), p.tail)
  }

  function FoldTerms(acc: Ast, t: seq<(Token, Product)>): Ast
    requires forall k :: 0 <= k < |t| ==> ValidProduct(t[k].1)
    decreases |t|
  {
    if t == [] then acc else FoldTerms(AstOp(acc, ProductTree(t[0].1), t[0].0), t[1..])
  }

  function SumTree(s: Sum): Ast
    requires ValidSum(s)
  {
    FoldTerms(ProductTree(s.head), s.tail)
  }

  /** `xs` stands in `tokens` from index `i` on. */
  predicate IsAt(tokens: seq<Token>, i: nat, xs: seq<Token>) {
    i + |xs| <= |tokens| && forall k :: 0 <= k < |xs| ==> tokens[i + k] == xs[k]
  }

  lemma {:induction false} IsAtSplit(tokens: seq<Token>, i: nat, a: seq<Token>, b: seq<Token>)
    requires IsAt(tokens, i, a + b)
    ensures IsAt(tokens, i, a) && IsAt(tokens, i + |a|, b)
  {
    forall k | 0 <= k < |b|
      ensures tokens[i + |a| + k] == b[k]
    {
      assert (a + b)[|a| + k] == b[k];
    }
    forall k | 0 <= k < |a|
      ensures tokens[i + k] == a[k]
    {
      assert (a + b)[k] == a[k];
    }
  }

  lemma {:induction false} IsAtHead(tokens: seq<Token>, i: nat, xs: seq<Token>)
    requires IsAt(tokens, i, xs) && xs != []
    ensures i < |tokens| && tokens[i] == xs[0]
  {
    assert tokens[i + 0] == xs[0];
  }

  /** The first link of a chain of `* /` links, and the links after it. */
  lemma {:induction false} FactorLinksAt(tokens: seq<Token>, i: nat, t: seq<(Token, string)>)
    requires IsAt(tokens, i, FactorLinks(t)) && t != []
    ensures IsAt(tokens, i, [t[0].0, Const(t[0].1)])
    ensures IsAt(tokens, i + 2, FactorLinks(t[1..]))
  {
    assert FactorLinks(t) == [t[0].0, Const(t[0].1)] + FactorLinks(t[1..]);
    IsAtSplit(tokens, i, [t[0].0, Const(t[0].1)], FactorLinks(t[1..]));
  }

  lemma {:induction false} PairAt(tokens: seq<Token>, i: nat, a: Token, b: Token)
    requires IsAt(tokens, i, [a, b])
    ensures i + 1 < |tokens| && tokens[i] == a && tokens[i + 1] == b
  {
    assert tokens[i + 0] == [a, b][0];
    assert tokens[i + 1] == [a, b][1];
  }

  /** The first link of a chain of `+ -` links, and the links after it. */
  lemma {:induction false} TermLinksAt(tokens: seq<Token>, i: nat, t: seq<(Token, Product)>)
    requires IsAt(tokens, i, TermLinks(t)) && t != []
    ensures IsAt(tokens, i, [t[0].0])
    ensures IsAt(tokens, i + 1, ProductTokens(t[0].1))
    ensures IsAt(tokens, i + 1 + |ProductTokens(t[0].1)|, TermLinks(t[1..]))
  {
    var p := t[0].1;
    assert TermLinks(t) == [t[0].0] + ProductTokens(p) + TermLinks(t[1..]);
    IsAtSplit(tokens, i, [t[0].0] + ProductTokens(p), TermLinks(t[1..]));
    IsAtSplit(tokens, i, [t[0].0], ProductTokens(p));
  }

  lemma {:induction false} TermLinksUnfold(t: seq<(Token, Product)>)
    requires t != []
    ensures |TermLinks(t)| == 1 + |ProductTokens(t[0].1)| + |TermLinks(t[1..])|
    ensures t[1..] != [] ==> TermLinks(t[1..])[0] == t[1].0
  {
  }

  /** One turn of the loop of `term` on a Term token followed by a factor. */
  lemma {:induction false} TermTailStep(tokens: seq<Token>, acc: Ast, i: nat, e: seq<string>, fuel: nat, b: Ast, st: PState)
    requires i + 1 < |tokens| && tokens[i].Term? && fuel >= 1
    requires ParseFactor(tokens, PState(i + 1, e), fuel - 1) == Done(b, st)
    ensures TermTail(tokens, acc, PState(i, e), fuel) == TermTail(tokens, AstOp(acc, b, tokens[i]), st, fuel - 1)
  {
    assert ConsumeAt(tokens, PState(i, e)) == (tokens[i], PState(i + 1, e));
  }

  /** One turn of the loop of `factor` on a Factor token followed by a primary. */
  lemma {:induction false} FactorTailStep(tokens: seq<Token>, acc: Ast, i: nat, e: seq<string>, fuel: nat, b: Ast, st: PState)
    requires i + 1 < |tokens| && tokens[i].Factor? && fuel >= 1
    requires ParsePrimary(tokens, PState(i + 1, e), fuel - 1) == Done(b, st)
    ensures FactorTail(tokens, acc, PState(i, e), fuel) == FactorTail(tokens, AstOp(acc, b, tokens[i]), st, fuel - 1)
  {
    assert ConsumeAt(tokens, PState(i, e)) == (tokens[i], PState(i + 1, e));
  }

  /** Where the cursor stands after the tokens before index `j` were
      consumed: `consume` never moves past the last token. */
  function Pos(tokens: seq<Token>, j: nat): nat
    requires |tokens| > 0
  {
    if j < |tokens| then j else |tokens| - 1
  }

  lemma {:induction false} FactorLinksLength(t: seq<(Token, string)>)
    ensures |FactorLinks(t)| == 2 * |t|
    decreases |t|
  {
    if t != [] {
      FactorLinksLength(t[1..]);
    }
  }

  lemma {:induction false} TermLinksLength(t: seq<(Token, Product)>)
    ensures |TermLinks(t)| >= 2 * |t|
    decreases |t|
  {
    if t != [] {
      TermLinksLength(t[1..]);
    }
  }

  lemma {:induction false} PrimaryNumber(tokens: seq<Token>, j: nat, e: seq<string>, fuel: nat)
    requires j < |tokens| && tokens[j].Const? && Number(tokens[j].text) && fuel >= 1
    ensures ParsePrimary(tokens, PState(j, e), fuel)
      == Done(AstConst(NumberValue(tokens[j].text)), PState(Pos(tokens, j + 1), e))
  {
  }

  /** One turn of the loop of `factor` over a `* /` token followed by a number. */
  lemma {:induction false} FactorLinkTurn(tokens: seq<Token>, i: nat, op: Token, x: string, acc: Ast, e: seq<string>, fuel: nat)
    requires i + 1 < |tokens| && tokens[i] == op && op.Factor? && tokens[i + 1] == Const(x) && Number(x)
    requires fuel >= 2
    ensures FactorTail(tokens, acc, PState(Pos(tokens, i), e), fuel)
      == FactorTail(tokens, AstOp(acc, AstConst(NumberValue(x)), op), PState(Pos(tokens, i + 2), e), fuel - 1)
  {
    PrimaryNumber(tokens, i + 1, e, fuel - 1);
    FactorTailStep(tokens, acc, i, e, fuel, AstConst(NumberValue(x)), PState(Pos(tokens, i + 2), e));
  }

  /** The loop of `factor` stops at once on a token that is not `* /`. */
  lemma {:induction false} FactorTailNoLink(tokens: seq<Token>, i: nat, acc: Ast, e: seq<string>, fuel: nat)
    requires 0 < i <= |tokens| && tokens[i - 1].Const?
    requires i < |tokens| ==> !tokens[i].Factor?
    ensures FactorTail(tokens, acc, PState(Pos(tokens, i), e), fuel) == Done(acc, PState(Pos(tokens, i), e))
  {
    assert !tokens[Pos(tokens, i)].Factor?;
  }

  /** A chain of `* /` links, each to a number, standing at index `i` just
      after a number and not followed by another `* /`. */
  predicate FactorChain(tokens: seq<Token>, i: nat, t: seq<(Token, string)>) {
    && 0 < i && IsAt(tokens, i, FactorLinks(t)) && tokens[i - 1].Const?
    && (forall k :: 0 <= k < |t| ==> t[k].0.Factor? && Number(t[k].1))
    && (i + 2 * |t| < |tokens| ==> !tokens[i + 2 * |t|].Factor?)
  }

  /** After the first link of a chain, the rest of the chain follows. */
  lemma {:induction false} FactorChainNext(tokens: seq<Token>, i: nat, t: seq<(Token, string)>)
    requires FactorChain(tokens, i, t) && t != []
    ensures i + 1 < |tokens| && tokens[i] == t[0].0 && tokens[i + 1] == Const(t[0].1)
    ensures FactorChain(tokens, i + 2, t[1..])
  {
    FactorLinksLength(t);
    FactorLinksAt(tokens, i, t);
    PairAt(tokens, i, t[0].0, Const(t[0].1));
    assert i + 2 + 2 * |t[1..]| == i + 2 * |t|;
  }

  /** The loop of `factor` entered just after a number folds a chain of
      `* /` links to the left, and stops after the chain's last number. */
  lemma {:induction false} FactorTailFolds(tokens: seq<Token>, i: nat, t: seq<(Token, string)>, acc: Ast, e: seq<string>, fuel: nat)
    requires FactorChain(tokens, i, t)
    requires fuel >= |t| + 1
    ensures FactorTail(tokens, acc, PState(Pos(tokens, i), e), fuel)
      == Done(FoldFactors(acc, t), PState(Pos(tokens, i + 2 * |t|), e))
    ensures i + 2 * |t| <= |tokens| && tokens[i + 2 * |t| - 1].Const?
    decreases |t|
  {
    FactorLinksLength(t);
    if t == [] {
      FactorTailNoLink(tokens, i, acc, e, fuel);
    } else {
      var acc' := AstOp(acc, AstConst(NumberValue(t[0].1)), t[0].0);
      FactorChainNext(tokens, i, t);
      FactorTailFolds(tokens, i + 2, t[1..], acc', e, fuel - 1);
      FactorLinkTurn(tokens, i, t[0].0, t[0].1, acc, e, fuel);
      assert i + 2 + 2 * |t[1..]| == i + 2 * |t|;
    }
  }

  /** `factor` on the tokens of a product of numbers builds its left fold
      and stops after the product's last number. */
  lemma {:induction false} ProductParses(tokens: seq<Token>, i: nat, p: Product, e: seq<string>, fuel: nat)
    requires IsAt(tokens, i, ProductTokens(p)) && ValidProduct(p)
    requires i + |ProductTokens(p)| < |tokens| ==> !tokens[i + |ProductTokens(p)|].Factor?
    requires fuel >= |p.tail| + 2
    ensures ParseFactor(tokens, PState(i, e), fuel)
      == Done(ProductTree(p), PState(Pos(tokens, i + |ProductTokens(p)|), e))
    ensures tokens[i + |ProductTokens(p)| - 1].Const?
  {
    FactorLinksLength(p.tail);
    IsAtSplit(tokens, i, [Const(p.head)], FactorLinks(p.tail));
    IsAtHead(tokens, i, [Const(p.head)]);
    PrimaryNumber(tokens, i, e, fuel - 1);
    assert FactorChain(tokens, i + 1, p.tail);
    FactorTailFolds(tokens, i + 1, p.tail, AstConst(NumberValue(p.head)), e, fuel - 1);
  }

  /** The token that ends a sum: neither `+ -` nor `* /`. */
  predicate EndsSum(tokens: seq<Token>, j: nat) {
    j < |tokens| ==> !tokens[j].Term? && !tokens[j].Factor?
  }

  /** The facts about the first link of a chain of `+ -` links that one
      turn of the loop of `term` needs. */
  lemma {:induction false} TermLinkFacts(tokens: seq<Token>, i: nat, t: seq<(Token, Product)>)
    requires IsAt(tokens, i, TermLinks(t)) && t != []
    requires forall k :: 0 <= k < |t| ==> t[k].0.Term? && ValidProduct(t[k].1)
    requires EndsSum(tokens, i + |TermLinks(t)|)
    ensures i + 1 < |tokens| && tokens[i] == t[0].0 && tokens[i].Term?
    ensures IsAt(tokens, i + 1, ProductTokens(t[0].1))
    ensures IsAt(tokens, i + 1 + |ProductTokens(t[0].1)|, TermLinks(t[1..]))
    ensures i + |TermLinks(t)| == i + 1 + |ProductTokens(t[0].1)| + |TermLinks(t[1..])|
    ensures i + 1 + |ProductTokens(t[0].1)| < |tokens| ==> !tokens[i + 1 + |ProductTokens(t[0].1)|].Factor?
    ensures |t[0].1.tail| < |tokens|
  {
    var p := t[0].1;
    var j := i + 1 + |ProductTokens(p)|;
    TermLinksAt(tokens, i, t);
    TermLinksUnfold(t);
    IsAtHead(tokens, i, [t[0].0]);
    FactorLinksLength(p.tail);
    if t[1..] != [] {
      IsAtHead(tokens, j, TermLinks(t[1..]));
      assert t[1..][0].0.Term?;
    }
  }

  /** One turn of the loop of `term` over a `+ -` token followed by a product. */
  lemma {:induction false} TermLinkTurn(tokens: seq<Token>, i: nat, op: Token, p: Product, acc: Ast, e: seq<string>, fuel: nat)
    requires i + 1 < |tokens| && tokens[i] == op && op.Term?
    requires IsAt(tokens, i + 1, ProductTokens(p)) && ValidProduct(p)
    requires i + 1 + |ProductTokens(p)| < |tokens| ==> !tokens[i + 1 + |ProductTokens(p)|].Factor?
    requires fuel >= |p.tail| + 3
    ensures tokens[i + |ProductTokens(p)|].Const?
    ensures TermTail(tokens, acc, PState(Pos(tokens, i), e), fuel)
      == TermTail(tokens, AstOp(acc, ProductTree(p), op), PState(Pos(tokens, i + 1 + |ProductTokens(p)|), e), fuel - 1)
  {
    ProductParses(tokens, i + 1, p, e, fuel - 1);
    TermTailStep(tokens, acc, i, e, fuel, ProductTree(p), PState(Pos(tokens, i + 1 + |ProductTokens(p)|), e));
  }

  /** The loop of `term` stops at once on a token that is neither `+ -` nor `* /`. */
  lemma {:induction false} TermTailNoLink(tokens: seq<Token>, i: nat, acc: Ast, e: seq<string>, fuel: nat)
    requires 0 < i <= |tokens| && tokens[i - 1].Const? && EndsSum(tokens, i)
    ensures TermTail(tokens, acc, PState(Pos(tokens, i), e), fuel) == Done(acc, PState(Pos(tokens, i), e))
  {
    assert !tokens[Pos(tokens, i)].Term?;
  }

  /** A chain of `+ -` links, each to a product of numbers, standing at
      index `i` just after a number and followed by the end of the list or
      a token that is neither `+ -` nor `* /`. */
  predicate TermChain(tokens: seq<Token>, i: nat, t: seq<(Token, Product)>) {
    && 0 < i && IsAt(tokens, i, TermLinks(t)) && tokens[i - 1].Const?
    && (forall k :: 0 <= k < |t| ==> t[k].0.Term? && ValidProduct(t[k].1))
    && EndsSum(tokens, i + |TermLinks(t)|)
  }

  /** After the first link of a chain, the rest of the chain follows. */
  lemma {:induction false} TermChainNext(tokens: seq<Token>, i: nat, t: seq<(Token, Product)>)
    requires TermChain(tokens, i, t) && t != []
    ensures TermChain(tokens, i + 1 + |ProductTokens(t[0].1)|, t[1..])
    ensures i + 1 + |ProductTokens(t[0].1)| + |TermLinks(t[1..])| == i + |TermLinks(t)|
  {
    TermLinkFacts(tokens, i, t);
    ProductEndsInNumber(tokens, i + 1, t[0].1);
  }

  lemma {:induction false} FactorLinksEndInNumber(t: seq<(Token, string)>)
    ensures t != [] ==> |FactorLinks(t)| >= 2 && FactorLinks(t)[|FactorLinks(t)| - 1].Const?
    decreases |t|
  {
    if t != [] {
      FactorLinksEndInNumber(t[1..]);
    }
  }

  /** The tokens of a product end in a number. */
  lemma {:induction false} ProductEndsInNumber(tokens: seq<Token>, i: nat, p: Product)
    requires IsAt(tokens, i, ProductTokens(p))
    ensures 0 < i + |ProductTokens(p)| <= |tokens| && tokens[i + |ProductTokens(p)| - 1].Const?
  {
    var pt := ProductTokens(p);
    FactorLinksEndInNumber(p.tail);
    assert pt[|pt| - 1].Const?;
  }

  /** The loop of `term` entered just after a number folds a chain of
      `+ -` links, each followed by a product, to the left. */
  lemma {:induction false} TermTailFolds(tokens: seq<Token>, i: nat, t: seq<(Token, Product)>, acc: Ast, e: seq<string>, fuel: nat)
    requires TermChain(tokens, i, t)
    requires fuel >= |t| + |tokens| + 3
    ensures TermTail(tokens, acc, PState(Pos(tokens, i), e), fuel)
      == Done(FoldTerms(acc, t), PState(Pos(tokens, i + |TermLinks(t)|), e))
    decreases |t|
  {
    if t == [] {
      TermTailNoLink(tokens, i, acc, e, fuel);
    } else {
      var p := t[0].1;
      var j := i + 1 + |ProductTokens(p)|;
      var acc' := AstOp(acc, ProductTree(p), t[0].0);
      TermChainNext(tokens, i, t);
      TermTailFolds(tokens, j, t[1..], acc', e, fuel - 1);
      TermLinkFolds(tokens, i, t, acc, e, fuel);
    }
  }

  /** One turn of the loop of `term`, given that the turns after it fold the
      rest of the chain. */
  lemma {:induction false} TermLinkFolds(tokens: seq<Token>, i: nat, t: seq<(Token, Product)>, acc: Ast, e: seq<string>, fuel: nat)
    requires TermChain(tokens, i, t) && t != []
    requires fuel >= |t| + |tokens| + 3
    requires var j := i + 1 + |ProductTokens(t[0].1)|;
      TermTail(tokens, AstOp(acc, ProductTree(t[0].1), t[0].0), PState(Pos(tokens, j), e), fuel - 1)
        == Done(FoldTerms(AstOp(acc, ProductTree(t[0].1), t[0].0), t[1..]), PState(Pos(tokens, i + |TermLinks(t)|), e))
    ensures TermTail(tokens, acc, PState(Pos(tokens, i), e), fuel)
      == Done(FoldTerms(acc, t), PState(Pos(tokens, i + |TermLinks(t)|), e))
  {
    TermLinkFacts(tokens, i, t);
    TermLinkTurn(tokens, i, t[0].0, t[0].1, acc, e, fuel);
  }

  /** Where the first product and the links after it stand in a sum's
      tokens, found at index `i` of a token list. */
  lemma {:induction false} SumLayout(tokens: seq<Token>, i: nat, s: Sum)
    requires ValidSum(s) && IsAt(tokens, i, SumTokens(s))
    ensures IsAt(tokens, i, ProductTokens(s.head))
    ensures IsAt(tokens, i + |ProductTokens(s.head)|, TermLinks(s.tail))
    ensures |ProductTokens(s.head)| + |TermLinks(s.tail)| == |SumTokens(s)|
    ensures s.tail != [] ==> i + |ProductTokens(s.head)| < |tokens| && tokens[i + |ProductTokens(s.head)|].Term?
    ensures |s.head.tail| + |s.tail| < |SumTokens(s)|
  {
    var n := |ProductTokens(s.head)|;
    IsAtSplit(tokens, i, ProductTokens(s.head), TermLinks(s.tail));
    FactorLinksLength(s.head.tail);
    TermLinksLength(s.tail);
    if s.tail != [] {
      assert TermLinks(s.tail)[0] == s.tail[0].0;
      IsAtHead(tokens, i + n, TermLinks(s.tail));
    }
  }

  /** On the tokens of a sum of products of numbers, standing at index `i`
      and followed by nothing or by a token that is neither `+ -` nor
      `* /`, `expr` builds the left-folded tree with `* /` grouped before
      `+ -`, records no error and stops just after the sum. */
  lemma {:induction false} SumParsesAt(tokens: seq<Token>, i: nat, s: Sum, e: seq<string>, fuel: nat)
    requires ValidSum(s) && IsAt(tokens, i, SumTokens(s)) && EndsSum(tokens, i + |SumTokens(s)|)
    requires fuel >= 2 * |tokens| + 4
    ensures ParseExpr(tokens, PState(i, e), fuel)
      == Done(SumTree(s), PState(Pos(tokens, i + |SumTokens(s)|), e))
  {
    SumLayout(tokens, i, s);
    SumHeadParses(tokens, i, s, e, fuel);
    SumTailFolds(tokens, i, s, e, fuel - 2);
  }

  /** The first product of a sum is the factor `term` starts with. */
  lemma {:induction false} SumHeadParses(tokens: seq<Token>, i: nat, s: Sum, e: seq<string>, fuel: nat)
    requires ValidSum(s) && IsAt(tokens, i, SumTokens(s)) && EndsSum(tokens, i + |SumTokens(s)|)
    requires fuel >= 2 * |tokens| + 4
    ensures ParseExpr(tokens, PState(i, e), fuel)
      == TermTail(tokens, ProductTree(s.head), PState(Pos(tokens, i + |ProductTokens(s.head)|), e), fuel - 2)
  {
    var n := |ProductTokens(s.head)|;
    SumLayout(tokens, i, s);
    if s.tail == [] {
      assert TermLinks(s.tail) == [];
    }
    ProductParses(tokens, i, s.head, e, fuel - 2);
    ExprOfFactor(tokens, PState(i, e), fuel, ProductTree(s.head), PState(Pos(tokens, i + n), e));
  }

  /** `expr` is `term`, which is a factor followed by the loop of `term`. */
  lemma {:induction false} ExprOfFactor(tokens: seq<Token>, s: PState, fuel: nat, a: Ast, t: PState)
    requires Inv(tokens, s) && fuel >= 2 && ParseFactor(tokens, s, fuel - 2) == Done(a, t)
    ensures Inv(tokens, t) && ParseExpr(tokens, s, fuel) == TermTail(tokens, a, t, fuel - 2)
  {
  }

  /** The links of a sum fold onto its first product. */
  lemma {:induction false} SumTailFolds(tokens: seq<Token>, i: nat, s: Sum, e: seq<string>, fuel: nat)
    requires ValidSum(s) && IsAt(tokens, i, SumTokens(s)) && EndsSum(tokens, i + |SumTokens(s)|)
    requires fuel >= 2 * |tokens| + 2
    ensures TermTail(tokens, ProductTree(s.head), PState(Pos(tokens, i + |ProductTokens(s.head)|), e), fuel)
      == Done(SumTree(s), PState(Pos(tokens, i + |SumTokens(s)|), e))
  {
    var n := |ProductTokens(s.head)|;
    SumLayout(tokens, i, s);
    ProductEndsInNumber(tokens, i, s.head);
    assert TermChain(tokens, i + n, s.tail);
    TermTailFolds(tokens, i + n, s.tail, ProductTree(s.head), e, fuel);
  }

  /** The whole token list of a sum parses from the start to its tree and
      stops on the last token. */
  lemma {:induction false} SumParses(s: Sum, fuel: nat)
    requires ValidSum(s) && fuel >= 2 * |SumTokens(s)| + 4
    ensures ParseExpr(SumTokens(s), PState(0, []), fuel)
      == Done(SumTree(s), PState(|SumTokens(s)| - 1, []))
  {
    assert IsAt(SumTokens(s), 0, SumTokens(s));
    SumParsesAt(SumTokens(s), 0, s, [], fuel);
  }

  /* Groups. */

  /** `(` followed by an expression that finishes and then `)`: the group
      is the inner tree, and the cursor moves past the `)`. */
  lemma GroupMatched(tokens: seq<Token>, s: PState, fuel: nat, inner: Ast, t: PState)
    requires Inv(tokens, s) && !IsAtEnd(tokens, s) && fuel >= 1
    requires Peek(tokens, s) == Group("(")
    requires ParseExpr(tokens, s.(cursor := s.cursor + 1), fuel - 1) == Done(inner, t)
    requires Inv(tokens, t) && Peek(tokens, t) == Group(")")
    ensures ParsePrimary(tokens, s, fuel) == Done(inner, ConsumeAt(tokens, t).1)
  {
  }

  /** `(` followed by an expression that finishes on anything but `)`: the
      group is the constant 0, with one "Unmatched parenthesis" added to
      the errors the inner expression left, and the cursor stays where the
      inner expression stopped. */
  lemma GroupUnmatched(tokens: seq<Token>, s: PState, fuel: nat, inner: Ast, t: PState)
    requires Inv(tokens, s) && !IsAtEnd(tokens, s) && fuel >= 1
    requires Peek(tokens, s) == Group("(")
    requires ParseExpr(tokens, s.(cursor := s.cursor + 1), fuel - 1) == Done(inner, t)
    requires Inv(tokens, t) && Peek(tokens, t) != Group(")")
    ensures ParsePrimary(tokens, s, fuel) == Done(AstConst(0), t.(errors := t.errors + [UnmatchedParen]))
  {
    assert !(Check(tokens, t, Group("")) && Peek(tokens, t).Value() == ")");
  }
}
