/** Worked inputs of the `roll` command, each followed from the raw text
    through the lexer, the parser and the evaluator to what the user is
    shown (or to the handler never answering). */
module Scenarios {
  import opened Wrappers
  import opened Int64
  import opened Lexer
  import opened Parser
  import opened ParserFacts
  import opened Evaluator
  import opened Roll

  lemma {:induction false} ScanPlain(ts: seq<Token>, p: string, c: string)
    requires Plain(c)
    ensures Scan(Lexing(ts, p), c) == Lexing(ts, p + c)
    decreases |c|
  {
    if c == [] {
      assert p + c == p;
    } else {
      assert Step(Lexing(ts, p), c[0]) == Lexing(ts, p + [c[0]]);
      ScanPlain(ts, p + [c[0]], c[1..]);
      assert p + [c[0]] + c[1..] == p + c;
    }
  }

  /** A chunk ended by an operator yields its token and the operator's. */
  lemma ScanChunkOp(ts: seq<Token>, c: string, op: char, rest: string)
    requires Plain(c) && c != [] && LexToken(c).Some? && IsOperator(op)
    ensures Scan(Lexing(ts, ""), c + [op] + rest)
      == Scan(Lexing(ts + [LexToken(c).value, OpToken(op)], ""), rest)
  {
    ScanPlain(ts, "", c);
    assert "" + c == c;
    ScanAppend(Lexing(ts, ""), c, [op] + rest);
    assert c + [op] + rest == c + ([op] + rest);
    ScanOpAfterChunk(ts, c, op, rest);
  }

  /** An operator ends the pending chunk: its token and the operator's are
      pushed. */
  lemma ScanOpAfterChunk(ts: seq<Token>, c: string, op: char, rest: string)
    requires c != [] && LexToken(c).Some? && IsOperator(op)
    ensures Scan(Lexing(ts, c), [op] + rest) == Scan(Lexing(ts + [LexToken(c).value, OpToken(op)], ""), rest)
  {
    assert ([op] + rest)[0] == op && ([op] + rest)[1..] == rest;
  }

  /** An operator after an operator yields only its own token. */
  lemma ScanOp(ts: seq<Token>, op: char, rest: string)
    requires IsOperator(op)
    ensures Scan(Lexing(ts, ""), [op] + rest) == Scan(Lexing(ts + [OpToken(op)], ""), rest)
  {
    assert ([op] + rest)[1..] == rest;
  }

  /** A chunk at the end of the input is flushed into the last token. */
  lemma TokenizeLastChunk(ts: seq<Token>, c: string)
    requires Plain(c) && c != []
    ensures Scan(Lexing(ts, ""), c) == Lexing(ts, c)
  {
    ScanPlain(ts, "", c);
    assert "" + c == c;
  }

  lemma TokenizeFromScan(raw: string, ts: seq<Token>, c: string, t: Token)
    requires Scan(Start, raw) == Lexing(ts, c) && c != [] && LexToken(c) == Some(t)
    ensures Tokenize(raw) == Success(ts + [t])
  {
  }

  lemma ScanSubtractionFirst()
    ensures Scan(Start, "5-3-1") == Scan(Lexing([Const("5"), Term("-")], ""), "3-1")
  {
    assert LexToken("5") == Some(Const("5")) && Plain("5");
    assert IsOperator('-') && OpToken('-') == Term("-");
    var none: seq<Token> := [];
    ScanChunkOp(none, "5", '-', "3-1");
    assert "5-3-1" == "5" + ['-'] + "3-1";
    assert none + [Const("5"), Term("-")] == [Const("5"), Term("-")];
  }

  lemma ScanSubtractionSecond()
    ensures Scan(Lexing([Const("5"), Term("-")], ""), "3-1") == Lexing([Const("5"), Term("-"), Const("3"), Term("-")], "1")
  {
    assert LexToken("3") == Some(Const("3")) && Plain("3") && Plain("1");
    assert IsOperator('-') && OpToken('-') == Term("-");
    var t1: seq<Token> := [Const("5"), Term("-")];
    var t2: seq<Token> := [Const("5"), Term("-"), Const("3"), Term("-")];
    ScanChunkOp(t1, "3", '-', "1");
    assert "3-1" == "3" + ['-'] + "1";
    assert t1 + [Const("3"), Term("-")] == t2;
    TokenizeLastChunk(t2, "1");
  }

  lemma ScanSubtraction()
    ensures Scan(Start, "5-3-1") == Lexing([Const("5"), Term("-"), Const("3"), Term("-")], "1")
  {
    ScanSubtractionFirst();
    ScanSubtractionSecond();
  }

  lemma TokenizeSubtraction()
    ensures Tokenize("5-3-1") == Success(SubtractionTokens())
  {
    ScanSubtraction();
    assert LexToken("1") == Some(Const("1"));
    TokenizeFromScan("5-3-1", [Const("5"), Term("-"), Const("3"), Term("-")], "1", Const("1"));
    assert [Const("5"), Term("-"), Const("3"), Term("-")] + [Const("1")]
      == [Const("5"), Term("-"), Const("3"), Term("-"), Const("1")];
  }

  function SubtractionTokens(): seq<Token> {
    [Const("5"), Term("-"), Const("3"), Term("-"), Const("1")]
  }

  lemma SubtractionHead()
    ensures ParseFactor(SubtractionTokens(), PState(0, []), 18) == Done(AstConst(5), PState(1, []))
  {
    var ts := SubtractionTokens();
    assert ParseI64("5") == Some(5) && Number("5") && NumberValue("5") == 5;
    PrimaryNumber(ts, 0, [], 17);
    FactorTailNoLink(ts, 1, AstConst(5), [], 17);
  }

  lemma SubtractionFirstLink()
    ensures TermTail(SubtractionTokens(), AstConst(5), PState(1, []), 18)
      == TermTail(SubtractionTokens(), AstOp(AstConst(5), AstConst(3), Term("-")), PState(3, []), 17)
  {
    var ts := SubtractionTokens();
    assert ParseI64("3") == Some(3) && Number("3") && NumberValue("3") == 3;
    var none: seq<(Token, string)> := [];
    assert ValidProduct(Product("3", none));
    assert ProductTokens(Product("3", none)) == [Const("3")] && ProductTree(Product("3", none)) == AstConst(3);
    TermLinkTurn(ts, 1, Term("-"), Product("3", none), AstConst(5), [], 18);
    assert Pos(ts, 1) == 1 && Pos(ts, 3) == 3;
  }

  lemma SubtractionLastLink()
    ensures TermTail(SubtractionTokens(), AstOp(AstConst(5), AstConst(3), Term("-")), PState(3, []), 17)
      == Done(AstOp(AstOp(AstConst(5), AstConst(3), Term("-")), AstConst(1), Term("-")), PState(4, []))
  {
    var ts := SubtractionTokens();
    var five_three := AstOp(AstConst(5), AstConst(3), Term("-"));
    assert ParseI64("1") == Some(1) && Number("1") && NumberValue("1") == 1;
    var none: seq<(Token, string)> := [];
    assert ValidProduct(Product("1", none));
    assert ProductTokens(Product("1", none)) == [Const("1")] && ProductTree(Product("1", none)) == AstConst(1);
    TermLinkTurn(ts, 3, Term("-"), Product("1", none), five_three, [], 17);
    assert Pos(ts, 3) == 3 && Pos(ts, 5) == 4;
    TermTailNoLink(ts, 5, AstOp(five_three, AstConst(1), Term("-")), [], 16);
  }

  lemma ParseSubtraction()
    ensures ParseExpr(SubtractionTokens(), PState(0, []), 20)
      == Done(AstOp(AstOp(AstConst(5), AstConst(3), Term("-")), AstConst(1), Term("-")), PState(4, []))
  {
    SubtractionHead();
    SubtractionFirstLink();
    SubtractionLastLink();
  }

  /** An operator over two trees that draw no rolls draws none either;
      its value and trace come from those of its operands. */
  lemma EvalOpNoRolls(l: Ast, r: Ast, op: Token)
    requires WellFormedAst(AstOp(l, r, op)) && Fits(l, []) && Fits(r, [])
    ensures Fits(AstOp(l, r, op), [])
    ensures Eval(AstOp(l, r, op), []) == Apply(op, Eval(l, []), Eval(r, []))
  {
    var none: seq<int> := [];
    assert none[..0] == none && none[0..] == none;
    assert Draws(l) == 0 && Draws(r) == 0 by {
      NoRollsNoDraws(l);
      NoRollsNoDraws(r);
    }
  }

  lemma NoRollsNoDraws(a: Ast)
    requires Fits(a, [])
    ensures Draws(a) == 0
  {
    match a
    case AstConst(_) =>
    case AstDie(_, _) =>
    case AstOp(_, _, _) =>
  }

  lemma EmptyInputCrashes(fuel: nat, supply: seq<int>)
    ensures Supplied("", fuel, supply)
    ensures Respond("", fuel, supply) == Crashes(IndexPanic)
  {
  }

  /** A lone `(` never gets an answer, whatever the budget: `primary` calls
      back into `expr` on the same token, a recursion that in the program
      overflows the stack. */
  lemma LoneParenHangs(fuel: nat, supply: seq<int>)
    ensures Supplied("(", fuel, supply)
    ensures Respond("(", fuel, supply) == Hangs
  {
    var ts: seq<Token> := [Group("(")];
    assert OpToken('(') == Group("(");
    ScanOp([], '(', "");
    assert "(" == ['('] + "";
    var none: seq<Token> := [];
    assert none + [Group("(")] == ts;
    assert Scan(Start, "(") == Lexing(ts, "");
    assert Tokenize("(") == Success(ts);
    ExprAtEnd(ts, PState(0, []), fuel);
  }

  lemma EvalSubtraction()
    ensures WellFormedAst(AstOp(AstOp(AstConst(5), AstConst(3), Term("-")), AstConst(1), Term("-")))
    ensures Fits(AstOp(AstOp(AstConst(5), AstConst(3), Term("-")), AstConst(1), Term("-")), [])
    ensures Eval(AstOp(AstOp(AstConst(5), AstConst(3), Term("-")), AstConst(1), Term("-")), []) == (1, "5 - 3 - 1")
  {
    var inner := AstOp(AstConst(5), AstConst(3), Term("-"));
    assert IntToString(5) == "5" && IntToString(3) == "3" && IntToString(1) == "1";
    assert SaturatingSub(5, 3) == 2 && SaturatingSub(2, 1) == 1;
    assert Eval(AstConst(5), []) == (5, "5") && Eval(AstConst(3), []) == (3, "3") && Eval(AstConst(1), []) == (1, "1");
    EvalOpNoRolls(AstConst(5), AstConst(3), Term("-"));
    assert "5" + " " + "-" + " " + "3" == "5 - 3";
    assert Eval(inner, []) == (2, "5 - 3");
    EvalOpNoRolls(inner, AstConst(1), Term("-"));
    assert "5 - 3" + " " + "-" + " " + "1" == "5 - 3 - 1";
  }

  /** Operators of one precedence fold to the left: `5-3-1` is 1, not 3. */
  lemma SubtractionFoldsLeft()
    ensures Supplied("5-3-1", 20, [])
    ensures Respond("5-3-1", 20, []) == Rolled(1, "5 - 3 - 1")
  {
    var ts := SubtractionTokens();
    var ast := AstOp(AstOp(AstConst(5), AstConst(3), Term("-")), AstConst(1), Term("-"));
    TokenizeSubtraction();
    ParseSubtraction();
    EvalSubtraction();
    RespondFromParse("5-3-1", 20, [], ts, ast, PState(4, []));
  }

  /** The first factor of `2+` is the number, and the cursor then rests on
      the trailing `+`. */
  lemma FactorOfTwoPlus(fuel: nat)
    ensures ParseFactor([Const("2"), Term("+")], PState(0, []), fuel)
      == if fuel < 2 then Diverged else Done(AstConst(2), PState(1, []))
  {
    var ts := [Const("2"), Term("+")];
    if fuel >= 2 {
      assert ParseI64("2") == Some(2);
      assert Number("2") && NumberValue("2") == 2;
      PrimaryNumber(ts, 0, [], fuel - 1);
      FactorTailNoLink(ts, 1, AstConst(2), [], fuel - 1);
    }
  }

  /** In `2+` the parse's cursor reaches the trailing `+`, so the input never
      gets an answer, whatever the budget. */
  lemma TrailingPlusHangs(fuel: nat, supply: seq<int>)
    ensures Supplied("2+", fuel, supply)
    ensures Respond("2+", fuel, supply) == Hangs
  {
    var ts := [Const("2"), Term("+")];
    assert LexToken("2") == Some(Const("2"));
    assert Plain("2") && OpToken('+') == Term("+");
    ScanChunkOp([], "2", '+', "");
    assert "2+" == "2" + ['+'] + "";
    var none: seq<Token> := [];
    assert none + [Const("2"), Term("+")] == ts;
    assert Scan(Start, "2+") == Lexing(ts, "");
    assert Tokenize("2+") == Success(ts);
    TwoPlusDiverges(fuel);
  }

  lemma TwoPlusDiverges(fuel: nat)
    ensures ParseExpr([Const("2"), Term("+")], PState(0, []), fuel) == Diverged
  {
    var ts := [Const("2"), Term("+")];
    if fuel >= 2 {
      FactorOfTwoPlus(fuel - 2);
      if fuel >= 4 {
        TermTailAtEnd(ts, AstConst(2), PState(1, []), fuel - 2);
      }
    }
  }

  lemma ScanPrecedenceFirst()
    ensures Scan(Start, "2+3*4") == Scan(Lexing([Const("2"), Term("+")], ""), "3*4")
  {
    assert LexToken("2") == Some(Const("2")) && Plain("2") && OpToken('+') == Term("+");
    var none: seq<Token> := [];
    ScanChunkOp(none, "2", '+', "3*4");
    assert "2+3*4" == "2" + ['+'] + "3*4";
    assert none + [Const("2"), Term("+")] == [Const("2"), Term("+")];
  }

  lemma ScanPrecedenceSecond()
    ensures Scan(Lexing([Const("2"), Term("+")], ""), "3*4") == Lexing([Const("2"), Term("+"), Const("3"), Factor("*")], "4")
  {
    assert LexToken("3") == Some(Const("3")) && Plain("3") && Plain("4") && OpToken('*') == Factor("*");
    var t1: seq<Token> := [Const("2"), Term("+")];
    var t2: seq<Token> := [Const("2"), Term("+"), Const("3"), Factor("*")];
    ScanChunkOp(t1, "3", '*', "4");
    assert "3*4" == "3" + ['*'] + "4";
    assert t1 + [Const("3"), Factor("*")] == t2;
    TokenizeLastChunk(t2, "4");
  }

  lemma ScanPrecedence()
    ensures Scan(Start, "2+3*4") == Lexing([Const("2"), Term("+"), Const("3"), Factor("*")], "4")
  {
    ScanPrecedenceFirst();
    ScanPrecedenceSecond();
  }

  lemma TokenizePrecedence()
    ensures Tokenize("2+3*4") == Success([Const("2"), Term("+"), Const("3"), Factor("*"), Const("4")])
  {
    var t2: seq<Token> := [Const("2"), Term("+"), Const("3"), Factor("*")];
    ScanPrecedence();
    assert LexToken("4") == Some(Const("4"));
    TokenizeFromScan("2+3*4", t2, "4", Const("4"));
    assert t2 + [Const("4")] == [Const("2"), Term("+"), Const("3"), Factor("*"), Const("4")];
  }

  /** `2+3*4` as a sum of products, with the tree the parser builds for it. */
  lemma ParsePrecedence()
    ensures ParseExpr([Const("2"), Term("+"), Const("3"), Factor("*"), Const("4")], PState(0, []), 20)
      == Done(AstOp(AstConst(2), AstOp(AstConst(3), AstConst(4), Factor("*")), Term("+")), PState(4, []))
  {
    var three := Product("3", [(Factor("*"), "4")]);
    var s := Sum(Product("2", []), [(Term("+"), three)]);
    assert ParseI64("2") == Some(2) && ParseI64("3") == Some(3) && ParseI64("4") == Some(4);
    assert Number("2") && Number("3") && Number("4");
    assert ValidProduct(three);
    assert ValidSum(s);
    var none: seq<(Token, string)> := [];
    assert FactorLinks(none) == [];
    assert FactorLinks([(Factor("*"), "4")]) == [Factor("*"), Const("4")];
    assert ProductTokens(three) == [Const("3"), Factor("*"), Const("4")];
    assert ProductTokens(Product("2", [])) == [Const("2")];
    assert TermLinks([(Term("+"), three)]) == [Term("+"), Const("3"), Factor("*"), Const("4")];
    assert SumTokens(s) == [Const("2"), Term("+"), Const("3"), Factor("*"), Const("4")];
    assert NumberValue("2") == 2 && NumberValue("3") == 3 && NumberValue("4") == 4;
    var links := [(Factor("*"), "4")];
    assert links[1..] == none;
    assert ProductTree(Product("2", [])) == AstConst(2);
    assert ProductTree(three) == FoldFactors(AstOp(AstConst(3), AstConst(4), Factor("*")), none);
    assert ProductTree(three) == AstOp(AstConst(3), AstConst(4), Factor("*"));
    var sums: seq<(Token, Product)> := [(Term("+"), three)];
    assert sums[1..] == [];
    assert SumTree(s) == FoldTerms(AstOp(AstConst(2), ProductTree(three), Term("+")), []);
    assert SumTree(s) == AstOp(AstConst(2), AstOp(AstConst(3), AstConst(4), Factor("*")), Term("+"));
    SumParses(s, 20);
  }

  lemma EvalPrecedence()
    ensures WellFormedAst(AstOp(AstConst(2), AstOp(AstConst(3), AstConst(4), Factor("*")), Term("+")))
    ensures Fits(AstOp(AstConst(2), AstOp(AstConst(3), AstConst(4), Factor("*")), Term("+")), [])
    ensures Eval(AstOp(AstConst(2), AstOp(AstConst(3), AstConst(4), Factor("*")), Term("+")), []) == (14, "2 + 3 * 4")
  {
    var product := AstOp(AstConst(3), AstConst(4), Factor("*"));
    assert IntToString(2) == "2" && IntToString(3) == "3" && IntToString(4) == "4";
    assert SaturatingMul(3, 4) == 12 && SaturatingAdd(2, 12) == 14;
    assert Eval(AstConst(2), []) == (2, "2") && Eval(AstConst(3), []) == (3, "3") && Eval(AstConst(4), []) == (4, "4");
    EvalOpNoRolls(AstConst(3), AstConst(4), Factor("*"));
    assert "3" + " " + "*" + " " + "4" == "3 * 4";
    assert Eval(product, []) == (12, "3 * 4");
    EvalOpNoRolls(AstConst(2), product, Term("+"));
    assert "2" + " " + "+" + " " + "3 * 4" == "2 + 3 * 4";
  }

  /** `*` binds tighter than `+`: `2+3*4` is 14, not 20. */
  lemma ProductsBindFirst()
    ensures Supplied("2+3*4", 20, [])
    ensures Respond("2+3*4", 20, []) == Rolled(14, "2 + 3 * 4")
  {
    var ts := [Const("2"), Term("+"), Const("3"), Factor("*"), Const("4")];
    var ast := AstOp(AstConst(2), AstOp(AstConst(3), AstConst(4), Factor("*")), Term("+"));
    TokenizePrecedence();
    ParsePrecedence();
    EvalPrecedence();
    RespondFromParse("2+3*4", 20, [], ts, ast, PState(4, []));
  }

  lemma TokenizeDivision()
    ensures Tokenize("4/0") == Success([Const("4"), Factor("/"), Const("0")])
  {
    assert LexToken("4") == Some(Const("4")) && LexToken("0") == Some(Const("0"));
    assert Plain("4") && Plain("0") && OpToken('/') == Factor("/");
    var none: seq<Token> := [];
    var t1: seq<Token> := [Const("4"), Factor("/")];
    ScanChunkOp(none, "4", '/', "0");
    assert "4/0" == "4" + ['/'] + "0";
    assert none + [Const("4"), Factor("/")] == t1;
    TokenizeLastChunk(t1, "0");
    TokenizeFromScan("4/0", t1, "0", Const("0"));
    assert t1 + [Const("0")] == [Const("4"), Factor("/"), Const("0")];
  }

  lemma ParseDivision()
    ensures ParseExpr([Const("4"), Factor("/"), Const("0")], PState(0, []), 20)
      == Done(AstOp(AstConst(4), AstConst(0), Factor("/")), PState(2, []))
  {
    var links := [(Factor("/"), "0")];
    var s := Sum(Product("4", links), []);
    assert ParseI64("4") == Some(4) && ParseI64("0") == Some(0);
    assert Number("4") && Number("0") && NumberValue("4") == 4 && NumberValue("0") == 0;
    assert ValidSum(s);
    var none: seq<(Token, string)> := [];
    assert links[1..] == none;
    assert FactorLinks(links) == [Factor("/"), Const("0")];
    assert SumTokens(s) == [Const("4"), Factor("/"), Const("0")];
    assert ProductTree(Product("4", links)) == FoldFactors(AstOp(AstConst(4), AstConst(0), Factor("/")), none);
    assert SumTree(s) == AstOp(AstConst(4), AstConst(0), Factor("/"));
    SumParses(s, 20);
  }

  /** Division by a zero value replaces the whole trace by an error marker. */
  lemma DivisionByZeroMarked()
    ensures Supplied("4/0", 20, [])
    ensures Respond("4/0", 20, []) == Rolled(0, DivideByZero)
  {
    var ast := AstOp(AstConst(4), AstConst(0), Factor("/"));
    TokenizeDivision();
    ParseDivision();
    assert Eval(AstConst(0), []) == (0, "0");
    EvalOpNoRolls(AstConst(4), AstConst(0), Factor("/"));
    RespondFromParse("4/0", 20, [], [Const("4"), Factor("/"), Const("0")], ast, PState(2, []));
  }

  lemma TokenizeUnclosed()
    ensures Tokenize("(2") == Success([Group("("), Const("2")])
  {
    assert LexToken("2") == Some(Const("2"));
    assert Plain("2") && OpToken('(') == Group("(");
    var none: seq<Token> := [];
    ScanOp(none, '(', "2");
    assert "(2" == ['('] + "2";
    assert none + [Group("(")] == [Group("(")];
    TokenizeLastChunk([Group("(")], "2");
    TokenizeFromScan("(2", [Group("(")], "2", Const("2"));
    assert [Group("(")] + [Const("2")] == [Group("("), Const("2")];
  }

  /** Inside the group, `expr` reads the number and stops on it. */
  lemma InsideUnclosed(fuel: nat)
    requires fuel >= 4
    ensures ParseExpr([Group("("), Const("2")], PState(1, []), fuel) == Done(AstConst(2), PState(1, []))
  {
    var ts := [Group("("), Const("2")];
    assert ParseI64("2") == Some(2);
    assert Number("2") && NumberValue("2") == 2;
    assert Pos(ts, 2) == 1;
    PrimaryNumber(ts, 1, [], fuel - 3);
    FactorTailNoLink(ts, 2, AstConst(2), [], fuel - 3);
    assert ParseFactor(ts, PState(1, []), fuel - 2) == Done(AstConst(2), PState(1, []));
    TermTailNoLink(ts, 2, AstConst(2), [], fuel - 2);
    assert ParseTerm(ts, PState(1, []), fuel - 1) == Done(AstConst(2), PState(1, []));
  }

  lemma ParseUnclosed()
    ensures ParseExpr([Group("("), Const("2")], PState(0, []), 20) == Done(AstConst(0), PState(1, [UnmatchedParen]))
  {
    var ts := [Group("("), Const("2")];
    InsideUnclosed(16);
    assert ParsePrimary(ts, PState(0, []), 17) == Done(AstConst(0), PState(1, [UnmatchedParen]));
    FactorTailNoLink(ts, 2, AstConst(0), [UnmatchedParen], 17);
    TermTailNoLink(ts, 2, AstConst(0), [UnmatchedParen], 18);
  }

  /** An unclosed group records "Unmatched parenthesis" and drops what it held. */
  lemma UnclosedGroupReported()
    ensures Supplied("(2", 20, [])
    ensures Respond("(2", 20, []) == ParseFailed(UnmatchedParen)
  {
    TokenizeUnclosed();
    ParseUnclosed();
    RespondFromParse("(2", 20, [], [Group("("), Const("2")], AstConst(0), PState(1, [UnmatchedParen]));
  }

  lemma TokenizeStray()
    ensures Tokenize("2+@") == Failure(UnrecognizedMessage("@", 2))
  {
    var t1: seq<Token> := [Const("2"), Term("+")];
    assert LexToken("2") == Some(Const("2"));
    assert Plain("2") && Plain("@") && OpToken('+') == Term("+");
    var none: seq<Token> := [];
    ScanChunkOp(none, "2", '+', "@");
    assert "2+@" == "2" + ['+'] + "@";
    assert none + [Const("2"), Term("+")] == t1;
    TokenizeLastChunk(t1, "@");
    assert !AllAsciiDigits("@") && !MatchesDie("@");
    assert LexToken("@") == None;
  }

  /** A character outside numbers, dice and operators at the end of the
      input fails the lexer with code 2. */
  lemma StrayCharacterRejected()
    ensures Supplied("2+@", 20, [])
    ensures Respond("2+@", 20, []) == LexFailed(UnrecognizedMessage("@", 2))
  {
    TokenizeStray();
  }

  lemma TokenizeBareDie()
    ensures Tokenize("d6") == Success([Die("1d6")])
  {
    assert Plain("d6");
    assert !AllAsciiDigits("d6") by { assert !IsAsciiDigit("d6"[0]); }
    assert IndexOf("d6", 'd') == 0 && "d6"[1..] == "6";
    assert MatchesDie("d6");
    assert "1" + "d6" == "1d6";
    assert LexToken("d6") == Some(Die("1d6"));
    var none: seq<Token> := [];
    TokenizeLastChunk(none, "d6");
    TokenizeFromScan("d6", none, "d6", Die("1d6"));
    assert none + [Die("1d6")] == [Die("1d6")];
  }

  lemma ParseBareDie()
    ensures ParseExpr([Die("1d6")], PState(0, []), 20) == Done(AstDie(1, 6), PState(0, []))
  {
    DieOfDigits("1", "6");
    assert "1" + "d" + "6" == "1d6";
    assert DecimalValue("1") == 1 && DecimalValue("6") == 6;
    assert DieFromText("1d6") == (AstDie(1, 6), []);
    var ts := [Die("1d6")];
    var p0 := PState(0, []);
    assert ParsePrimary(ts, p0, 17) == Done(AstDie(1, 6), p0);
    assert ParseFactor(ts, p0, 18) == Done(AstDie(1, 6), p0);
  }

  lemma EvalBareDie()
    ensures WellFormedAst(AstDie(1, 6)) && Fits(AstDie(1, 6), [4])
    ensures Eval(AstDie(1, 6), [4]) == (4, "[4]")
  {
    assert JoinRolls([4]) == "4";
    assert Evaluator.Sum([4]) == 4;
    assert "[" + "4" + "]" == "[4]";
  }

  /** A die without a count rolls once: `d6` with a roll of 4 shows 4 and
      the trace `[4]`. */
  lemma BareDieRollsOnce()
    ensures Supplied("d6", 20, [4])
    ensures Respond("d6", 20, [4]) == Rolled(4, "[4]")
  {
    TokenizeBareDie();
    ParseBareDie();
    EvalBareDie();
    RespondFromParse("d6", 20, [4], [Die("1d6")], AstDie(1, 6), PState(0, []));
  }
  /** The tokens of `(2+3)*4`. */
  function GroupedTokens(): seq<Token> {
    [Group("("), Const("2"), Term("+"), Const("3"), Group(")"), Factor("*"), Const("4")]
  }

  lemma ScanGroupedParen()
    ensures Scan(Start, "(2+3)*4") == Scan(Lexing([Group("(")], ""), "2+3)*4")
  {
    assert OpToken('(') == Group("(");
    var none: seq<Token> := [];
    ScanOp(none, '(', "2+3)*4");
    assert "(2+3)*4" == ['('] + "2+3)*4";
    assert none + [Group("(")] == [Group("(")];
  }

  lemma ScanGroupedPlus()
    ensures Scan(Lexing([Group("(")], ""), "2+3)*4") == Scan(Lexing([Group("("), Const("2"), Term("+")], ""), "3)*4")
  {
    assert LexToken("2") == Some(Const("2")) && Plain("2") && OpToken('+') == Term("+");
    var t1: seq<Token> := [Group("(")];
    ScanChunkOp(t1, "2", '+', "3)*4");
    assert "2+3)*4" == "2" + ['+'] + "3)*4";
    assert t1 + [Const("2"), Term("+")] == [Group("("), Const("2"), Term("+")];
  }

  lemma ScanGroupedOpen()
    ensures Scan(Start, "(2+3)*4") == Scan(Lexing([Group("("), Const("2"), Term("+")], ""), "3)*4")
  {
    ScanGroupedParen();
    ScanGroupedPlus();
  }

  lemma ScanGroupedClose()
    ensures Scan(Lexing([Group("("), Const("2"), Term("+")], ""), "3)*4")
      == Lexing([Group("("), Const("2"), Term("+"), Const("3"), Group(")"), Factor("*")], "4")
  {
    assert LexToken("3") == Some(Const("3")) && Plain("3") && Plain("4");
    assert OpToken(')') == Group(")") && OpToken('*') == Factor("*");
    var t2: seq<Token> := [Group("("), Const("2"), Term("+")];
    var t3: seq<Token> := t2 + [Const("3"), Group(")")];
    ScanChunkOp(t2, "3", ')', "*4");
    assert "3)*4" == "3" + [')'] + "*4";
    ScanOp(t3, '*', "4");
    assert "*4" == ['*'] + "4";
    assert t3 + [Factor("*")] == [Group("("), Const("2"), Term("+"), Const("3"), Group(")"), Factor("*")];
    TokenizeLastChunk(t3 + [Factor("*")], "4");
  }

  lemma TokenizeGrouped()
    ensures Tokenize("(2+3)*4") == Success(GroupedTokens())
  {
    var t4: seq<Token> := [Group("("), Const("2"), Term("+"), Const("3"), Group(")"), Factor("*")];
    ScanGroupedOpen();
    ScanGroupedClose();
    assert LexToken("4") == Some(Const("4"));
    TokenizeFromScan("(2+3)*4", t4, "4", Const("4"));
    assert t4 + [Const("4")] == GroupedTokens();
  }

  /** Inside the parentheses, `expr` parses the sum `2+3` and stops on `)`. */
  lemma InsideGroup()
    ensures ParseExpr(GroupedTokens(), PState(1, []), 26) == Done(AstOp(AstConst(2), AstConst(3), Term("+")), PState(4, []))
  {
    var ts := GroupedTokens();
    var sum := Sum(Product("2", []), [(Term("+"), Product("3", []))]);
    assert ParseI64("2") == Some(2) && ParseI64("3") == Some(3);
    assert Number("2") && Number("3") && NumberValue("2") == 2 && NumberValue("3") == 3;
    assert ValidSum(sum);
    var none: seq<(Token, string)> := [];
    assert FactorLinks(none) == [];
    var links: seq<(Token, Product)> := [(Term("+"), Product("3", []))];
    assert links[1..] == [];
    assert TermLinks(links) == [Term("+"), Const("3")];
    assert SumTokens(sum) == [Const("2"), Term("+"), Const("3")];
    assert ProductTree(Product("2", [])) == AstConst(2) && ProductTree(Product("3", [])) == AstConst(3);
    assert SumTree(sum) == FoldTerms(AstOp(AstConst(2), AstConst(3), Term("+")), []);
    assert IsAt(ts, 1, SumTokens(sum));
    SumParsesAt(ts, 1, sum, [], 26);
    assert Pos(ts, 4) == 4;
  }

  /** The group is the inner sum, and the cursor moves past the `)`. */
  lemma GroupedPrimary()
    ensures ParsePrimary(GroupedTokens(), PState(0, []), 27) == Done(AstOp(AstConst(2), AstConst(3), Term("+")), PState(5, []))
  {
    var ts := GroupedTokens();
    var inner := AstOp(AstConst(2), AstConst(3), Term("+"));
    assert |ts| == 7 && ts[0] == Group("(") && ts[4] == Group(")");
    assert PState(0, []).(cursor := 1) == PState(1, []);
    InsideGroup();
    GroupMatched(ts, PState(0, []), 27, inner, PState(4, []));
    assert ConsumeAt(ts, PState(4, [])).1 == PState(5, []);
  }

  /** The loop of `factor` then multiplies the group by 4. */
  lemma GroupedTail(inner: Ast)
    ensures FactorTail(GroupedTokens(), inner, PState(5, []), 27) == Done(AstOp(inner, AstConst(4), Factor("*")), PState(6, []))
  {
    var ts := GroupedTokens();
    assert ParseI64("4") == Some(4);
    assert Number("4") && NumberValue("4") == 4;
    FactorLinkTurn(ts, 5, Factor("*"), "4", inner, [], 27);
    FactorTailNoLink(ts, 7, AstOp(inner, AstConst(4), Factor("*")), [], 26);
    assert Pos(ts, 5) == 5 && Pos(ts, 7) == 6;
  }

  lemma GroupedFactor()
    ensures ParseFactor(GroupedTokens(), PState(0, []), 28)
      == Done(AstOp(AstOp(AstConst(2), AstConst(3), Term("+")), AstConst(4), Factor("*")), PState(6, []))
  {
    GroupedPrimary();
    GroupedTail(AstOp(AstConst(2), AstConst(3), Term("+")));
  }

  lemma ParseGrouped()
    ensures ParseExpr(GroupedTokens(), PState(0, []), 30)
      == Done(AstOp(AstOp(AstConst(2), AstConst(3), Term("+")), AstConst(4), Factor("*")), PState(6, []))
  {
    var product := AstOp(AstOp(AstConst(2), AstConst(3), Term("+")), AstConst(4), Factor("*"));
    GroupedFactor();
    TermTailNoLink(GroupedTokens(), 7, product, [], 28);
    assert Pos(GroupedTokens(), 7) == 6;
  }

  lemma EvalGrouped()
    ensures WellFormedAst(AstOp(AstOp(AstConst(2), AstConst(3), Term("+")), AstConst(4), Factor("*")))
    ensures Fits(AstOp(AstOp(AstConst(2), AstConst(3), Term("+")), AstConst(4), Factor("*")), [])
    ensures Eval(AstOp(AstOp(AstConst(2), AstConst(3), Term("+")), AstConst(4), Factor("*")), []) == (20, "2 + 3 * 4")
  {
    var inner := AstOp(AstConst(2), AstConst(3), Term("+"));
    assert IntToString(2) == "2" && IntToString(3) == "3" && IntToString(4) == "4";
    assert SaturatingAdd(2, 3) == 5 && SaturatingMul(5, 4) == 20;
    assert Eval(AstConst(2), []) == (2, "2") && Eval(AstConst(3), []) == (3, "3") && Eval(AstConst(4), []) == (4, "4");
    EvalOpNoRolls(AstConst(2), AstConst(3), Term("+"));
    assert "2" + " " + "+" + " " + "3" == "2 + 3";
    assert Eval(inner, []) == (5, "2 + 3");
    EvalOpNoRolls(inner, AstConst(4), Factor("*"));
    assert "2 + 3" + " " + "*" + " " + "4" == "2 + 3 * 4";
  }

  /** Parentheses group a sum before it is multiplied: `(2+3)*4` is 20. The
      trace carries no parentheses, so it reads like the trace of `2+3*4`,
      which is 14. */
  lemma GroupBindsFirst()
    ensures Supplied("(2+3)*4", 30, [])
    ensures Respond("(2+3)*4", 30, []) == Rolled(20, "2 + 3 * 4")
  {
    var ast := AstOp(AstOp(AstConst(2), AstConst(3), Term("+")), AstConst(4), Factor("*"));
    TokenizeGrouped();
    ParseGrouped();
    EvalGrouped();
    RespondFromParse("(2+3)*4", 30, [], GroupedTokens(), ast, PState(6, []));
  }

  lemma TokenizeParenPlus()
    ensures Tokenize("2(+") == Success([Const("2"), Group("("), Term("+")])
  {
    var t1: seq<Token> := [Const("2"), Group("(")];
    assert LexToken("2") == Some(Const("2"));
    assert Plain("2") && OpToken('(') == Group("(") && OpToken('+') == Term("+");
    var none: seq<Token> := [];
    ScanChunkOp(none, "2", '(', "+");
    assert "2(+" == "2" + ['('] + "+";
    assert none + [Const("2"), Group("(")] == t1;
    ScanOp(t1, '+', "");
    assert "+" == ['+'] + "";
    assert t1 + [Term("+")] == [Const("2"), Group("("), Term("+")];
  }

  /** Neither loop takes a `(`, so the parse of `2(+` stops on it. */
  lemma ParseParenPlus()
    ensures ParseExpr([Const("2"), Group("("), Term("+")], PState(0, []), 20) == Done(AstConst(2), PState(1, []))
  {
    var ts := [Const("2"), Group("("), Term("+")];
    assert ParseI64("2") == Some(2);
    assert Number("2") && NumberValue("2") == 2;
    PrimaryNumber(ts, 0, [], 17);
    FactorTailNoLink(ts, 1, AstConst(2), [], 17);
    TermTailNoLink(ts, 1, AstConst(2), [], 18);
  }

  /** An input ending in an operator is answered when the parse stops before
      its cursor reaches that operator: `2(+` shows 2. */
  lemma StopsBeforeTrailingOperator()
    ensures Supplied("2(+", 20, [])
    ensures Respond("2(+", 20, []) == Rolled(2, "2")
  {
    TokenizeParenPlus();
    ParseParenPlus();
    assert IntToString(2) == "2";
    assert Eval(AstConst(2), []) == (2, "2");
    RespondFromParse("2(+", 20, [], [Const("2"), Group("("), Term("+")], AstConst(2), PState(1, []));
  }

  /** The tokens of `2+)3`. */
  function StrayCloseTokens(): seq<Token> {
    [Const("2"), Term("+"), Group(")"), Const("3")]
  }

  lemma ScanStrayCloseNumber()
    ensures Scan(Start, "2+)3") == Scan(Lexing([Const("2"), Term("+")], ""), ")3")
  {
    assert LexToken("2") == Some(Const("2")) && Plain("2") && OpToken('+') == Term("+");
    var none: seq<Token> := [];
    ScanChunkOp(none, "2", '+', ")3");
    assert "2+)3" == "2" + ['+'] + ")3";
    assert none + [Const("2"), Term("+")] == [Const("2"), Term("+")];
  }

  lemma ScanStrayCloseParen()
    ensures Scan(Lexing([Const("2"), Term("+")], ""), ")3") == Lexing([Const("2"), Term("+"), Group(")")], "3")
  {
    var t1: seq<Token> := [Const("2"), Term("+")];
    assert Plain("3") && OpToken(')') == Group(")");
    ScanOp(t1, ')', "3");
    assert ")3" == [')'] + "3";
    assert t1 + [Group(")")] == [Const("2"), Term("+"), Group(")")];
    TokenizeLastChunk([Const("2"), Term("+"), Group(")")], "3");
  }

  lemma TokenizeStrayClose()
    ensures Tokenize("2+)3") == Success(StrayCloseTokens())
  {
    var t2: seq<Token> := [Const("2"), Term("+"), Group(")")];
    ScanStrayCloseNumber();
    ScanStrayCloseParen();
    assert LexToken("3") == Some(Const("3"));
    TokenizeFromScan("2+)3", t2, "3", Const("3"));
    assert t2 + [Const("3")] == StrayCloseTokens();
  }

  /** After `2+` the factor finds `)`, which no primary takes: it records
      "Could not parse input", and both loops then stop on the `)`. */
  lemma ParseStrayClose()
    ensures ParseExpr(StrayCloseTokens(), PState(0, []), 20)
      == Done(AstOp(AstConst(2), AstConst(0), Term("+")), PState(2, [CouldNotParse]))
  {
    var ts := StrayCloseTokens();
    var e := [CouldNotParse];
    assert ParseI64("2") == Some(2);
    assert Number("2") && NumberValue("2") == 2;
    PrimaryNumber(ts, 0, [], 17);
    FactorTailNoLink(ts, 1, AstConst(2), [], 17);
    assert ParseFactor(ts, PState(0, []), 18) == Done(AstConst(2), PState(1, []));
    PrimaryUnrecognised(ts, PState(2, []), 16);
    assert FactorTail(ts, AstConst(0), PState(2, e), 16) == Done(AstConst(0), PState(2, e));
    assert ParseFactor(ts, PState(2, []), 17) == Done(AstConst(0), PState(2, e));
    assert TermTail(ts, AstOp(AstConst(2), AstConst(0), Term("+")), PState(2, e), 17)
      == Done(AstOp(AstConst(2), AstConst(0), Term("+")), PState(2, e));
    assert TermTail(ts, AstConst(2), PState(1, []), 18)
      == Done(AstOp(AstConst(2), AstConst(0), Term("+")), PState(2, e));
  }

  lemma StrayCloseFits()
    ensures WellFormedAst(AstOp(AstConst(2), AstConst(0), Term("+")))
    ensures Fits(AstOp(AstConst(2), AstConst(0), Term("+")), [])
  {
    EvalOpNoRolls(AstConst(2), AstConst(0), Term("+"));
  }

  /** A closing parenthesis where an operand belongs is reported as
      "Could not parse input", at any cursor, not only at the end. */
  lemma StrayCloseReported()
    ensures Supplied("2+)3", 20, [])
    ensures Respond("2+)3", 20, []) == ParseFailed(CouldNotParse)
  {
    var ast := AstOp(AstConst(2), AstConst(0), Term("+"));
    TokenizeStrayClose();
    ParseStrayClose();
    StrayCloseFits();
    RespondFromParse("2+)3", 20, [], StrayCloseTokens(), ast, PState(2, [CouldNotParse]));
  }
}
