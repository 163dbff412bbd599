/** The recursive-descent parser of the dice engine (`DiceParser` in
    src/command/roll/parser.rs):

      Expr    => Term
      Term    => Factor (('+' | '-') Factor)*
      Factor  => Primary (('*' | '/') Primary)*
      Primary => '(' Expr ')' | DIE | NUMBER

    The grammar is given twice: as functions over an explicit parser state
    (the specification), and as the `DiceParser` class whose methods move a
    cursor and push onto an error list, proved equal to the functions.

    The source parser does not always terminate (at the last token `consume`
    stands still), so every production takes a `fuel` bound; running out of
    fuel is the outcome `Diverged`. A panic of the source is the outcome
    `Panicked`. */
module Parser {
  import opened Wrappers
  import opened Int64
  import opened Lexer

  /** The syntax tree: `AstConst`, `AstDie` and `AstOp` of the source. */
  datatype Ast =
    | AstConst(value: int)
    | AstDie(count: int, sides: int)
    | AstOp(left: Ast, right: Ast, op: Token)

  /** The mutable part of a `DiceParser`: the cursor `current` and the
      list of error messages. */
  datatype PState = PState(cursor: nat, errors: seq<string>)

  /** What a production yields: a tree and the state after it, or the
      source's non-termination, or one of its panics. */
  datatype Parsed = Done(ast: Ast, state: PState) | Diverged | Panicked(reason: string)

  const UnmatchedParen: string := "Unmatched parenthesis"
  const CouldNotParse: string := "Could not parse input"
  const UnwrapPanic: string := "called `Result::unwrap()` on an `Err` value"

  function Code3Message(text: string): string {
    "\"" + text + "\" was not recognized as a valid number or dice expression (Code: 3)"
  }

  function NotNumericMessage(text: string): string {
    "\"" + text + "\" NUMBER in dice expression was not purely numeric"
  }

  /** The cursor stands on a token. */
  predicate Inv(tokens: seq<Token>, s: PState) {
    s.cursor < |tokens|
  }

  /** `is_at_end`: the cursor is on the last token. */
  function IsAtEnd(tokens: seq<Token>, s: PState): bool
    requires Inv(tokens, s)
  {
    s.cursor == |tokens| - 1
  }

  /** `peek`: the token under the cursor. */
  function Peek(tokens: seq<Token>, s: PState): Token
    requires Inv(tokens, s)
  {
    tokens[s.cursor]
  }

  /** `check`: the token under the cursor is of the same variant as `typ`. */
  function Check(tokens: seq<Token>, s: PState, typ: Token): bool
    requires Inv(tokens, s)
  {
    Peek(tokens, s).Id() == typ.Id()
  }

  /** `consume`: return the token under the cursor and move past it, except
      on the last token, where the cursor stays. */
  function ConsumeAt(tokens: seq<Token>, s: PState): (r: (Token, PState))
    requires Inv(tokens, s)
    ensures Inv(tokens, r.1) && r.0 == Peek(tokens, s) && r.1.errors == s.errors
    ensures r.1.cursor == if IsAtEnd(tokens, s) then s.cursor else s.cursor + 1
  {
    if !IsAtEnd(tokens, s) then (tokens[s.cursor], s.(cursor := s.cursor + 1))
    else (tokens[s.cursor], s)
  }

  /** The pieces joined back together with `sep` between them. */
  function JoinWith(parts: seq<string>, sep: char): string
    requires |parts| >= 1
  {
    if |parts| == 1 then parts[0] else parts[0] + [sep] + JoinWith(parts[1..], sep)
  }

  /** `str::split`: the pieces of `s` between occurrences of `sep`. */
  function Split(s: string, sep: char): (r: seq<string>)
    ensures |r| >= 1
  {
    if s == [] then [""]
    else
      var rest := Split(s[1..], sep);
      if s[0] == sep then [""] + rest else [[s[0]] + rest[0]] + rest[1..]
  }

  /** The pieces contain no `sep` and join back, with `sep` between them,
      into `s`. */
  lemma {:induction false} SplitJoinsBack(s: string, sep: char)
    ensures JoinWith(Split(s, sep), sep) == s
    ensures forall i :: 0 <= i < |Split(s, sep)| ==> Lacks(Split(s, sep)[i], sep)
    decreases |s|
  {
    if s != [] {
      SplitJoinsBack(s[1..], sep);
      var rest := Split(s[1..], sep);
      if s[0] == sep {
        assert s == [] + [sep] + s[1..];
      } else {
        var r := Split(s, sep);
        assert |rest| > 1 ==> r[1..] == rest[1..];
        assert JoinWith(r, sep) == [s[0]] + JoinWith(rest, sep);
      }
    }
  }

  /** The Die branch of `primary`: the tree for a Die token's text and the
      error messages it adds. */
  function DieFromText(text: string): (Ast, seq<string>) {
    var parts := Split(text, 'd');
    if |parts| != 2 || !AllAsciiDigits(parts[1]) then (AstConst(0), [Code3Message(text)])
    else
      var first := if parts[0] == "" then "1" else parts[0];
      var (left, e1) := match ParseI64(first)
                        case Some(n) => (n, [])
                        case None => (0, [NotNumericMessage(text)]);
      var (right, e2) := match ParseI64(parts[1])
                         case Some(n) => (n, [])
                         case None => (0, [NotNumericMessage(text)]);
      (AstDie(left, right), e1 + e2)
  }

  /** The operators an `AstOp` can carry. */
  predicate IsArithmeticOp(op: Token) {
    (op.Term? && (op.text == "+" || op.text == "-")) || (op.Factor? && (op.text == "*" || op.text == "/"))
  }

  /** A tree whose evaluation reaches none of the source's `unreachable!`
      panics: every operator is one of `+ - * /`, every constant is an
      `i64`, and die counts and sides are non-negative `i64`s. */
  predicate WellFormedAst(a: Ast) {
    match a
    case AstConst(n) => InRange(n)
    case AstDie(c, s) => 0 <= c <= MAX && 0 <= s <= MAX
    case AstOp(l, r, op) => IsArithmeticOp(op) && WellFormedAst(l) && WellFormedAst(r)
  }

  /** A production kept the cursor on a token, never moved it back, and only
      appended to the error list. */
  predicate Advanced(tokens: seq<Token>, s: PState, r: Parsed) {
    r.Done? ==> Inv(tokens, r.state) && s.cursor <= r.state.cursor && s.errors <= r.state.errors
  }

  /** On tokens the lexer can produce, a production builds a well-formed tree. */
  ghost predicate BuildsWellFormed(tokens: seq<Token>, r: Parsed) {
    GoodTokens(tokens) && r.Done? ==> WellFormedAst(r.ast)
  }

  /** `expr`. */
  function ParseExpr(tokens: seq<Token>, s: PState, fuel: nat): (r: Parsed)
    requires Inv(tokens, s)
    ensures Advanced(tokens, s, r) && BuildsWellFormed(tokens, r)
    decreases fuel
  {
    if fuel == 0 then Diverged else ParseTerm(tokens, s, fuel - 1)
  }

  /** `term`: a Factor, then the loop of `TermTail`. */
  function ParseTerm(tokens: seq<Token>, s: PState, fuel: nat): (r: Parsed)
    requires Inv(tokens, s)
    ensures Advanced(tokens, s, r) && BuildsWellFormed(tokens, r)
    decreases fuel
  {
    if fuel == 0 then Diverged
    else
      var f := ParseFactor(tokens, s, fuel - 1);
      if f.Done? then TermTail(tokens, f.ast, f.state, fuel - 1) else f
  }

  /** The `while` loop of `term` with `lhs` built so far: while the current
      token is a Term, consume it, parse a Factor and fold it in on the right. */
  function TermTail(tokens: seq<Token>, lhs: Ast, s: PState, fuel: nat): (r: Parsed)
    requires Inv(tokens, s)
    ensures Advanced(tokens, s, r)
    ensures WellFormedAst(lhs) ==> BuildsWellFormed(tokens, r)
    decreases fuel
  {
    if !Check(tokens, s, Term("")) then Done(lhs, s)
    else if fuel == 0 then Diverged
    else
      var (op, s1) := ConsumeAt(tokens, s);
      var f := ParseFactor(tokens, s1, fuel - 1);
      if f.Done? then TermTail(tokens, AstOp(lhs, f.ast, op), f.state, fuel - 1) else f
  }

  /** `factor`: a Primary, then the loop of `FactorTail`. */
  function ParseFactor(tokens: seq<Token>, s: PState, fuel: nat): (r: Parsed)
    requires Inv(tokens, s)
    ensures Advanced(tokens, s, r) && BuildsWellFormed(tokens, r)
    decreases fuel
  {
    if fuel == 0 then Diverged
    else
      var p := ParsePrimary(tokens, s, fuel - 1);
      if p.Done? then FactorTail(tokens, p.ast, p.state, fuel - 1) else p
  }

  /** The `while` loop of `factor`. */
  function FactorTail(tokens: seq<Token>, lhs: Ast, s: PState, fuel: nat): (r: Parsed)
    requires Inv(tokens, s)
    ensures Advanced(tokens, s, r)
    ensures WellFormedAst(lhs) ==> BuildsWellFormed(tokens, r)
    decreases fuel
  {
    if !Check(tokens, s, Factor("")) then Done(lhs, s)
    else if fuel == 0 then Diverged
    else
      var (op, s1) := ConsumeAt(tokens, s);
      var p := ParsePrimary(tokens, s1, fuel - 1);
      if p.Done? then FactorTail(tokens, AstOp(lhs, p.ast, op), p.state, fuel - 1) else p
  }

  /** `primary`: a constant, a die, a parenthesized expression, or an error
      that yields `AstConst(0)`. */
  function ParsePrimary(tokens: seq<Token>, s: PState, fuel: nat): (r: Parsed)
    requires Inv(tokens, s)
    ensures Advanced(tokens, s, r) && BuildsWellFormed(tokens, r)
    decreases fuel
  {
    if fuel == 0 then Diverged
    else if Check(tokens, s, Const("")) then
      var (t, s1) := ConsumeAt(tokens, s);
      match ParseI64(t.Value())
      case None => Panicked(UnwrapPanic)
      case Some(n) => Done(AstConst(n), s1)
    else if Check(tokens, s, Die("")) then
      var (t, s1) := ConsumeAt(tokens, s);
      var (ast, errs) := DieFromText(t.Value());
      DieFromTextWellFormed(t);
      Done(ast, s1.(errors := s1.errors + errs))
    else if Check(tokens, s, Group("")) && Peek(tokens, s).Value() == "(" then
      var (_, s1) := ConsumeAt(tokens, s);
      var e := ParseExpr(tokens, s1, fuel - 1);
      if !e.Done? then e
      else if Check(tokens, e.state, Group("")) && Peek(tokens, e.state).Value() == ")" then
        Done(e.ast, ConsumeAt(tokens, e.state).1)
      else Done(AstConst(0), e.state.(errors := e.state.errors + [UnmatchedParen]))
    else Done(AstConst(0), s.(errors := s.errors + [CouldNotParse]))
  }

  /** One turn of the loop of `factor` whose primary finishes. */
  lemma FactorTailTurn(tokens: seq<Token>, lhs: Ast, s: PState, fuel: nat, rhs: Ast, t: PState)
    requires Inv(tokens, s) && Check(tokens, s, Factor("")) && fuel > 0
    requires ParsePrimary(tokens, ConsumeAt(tokens, s).1, fuel - 1) == Done(rhs, t)
    ensures FactorTail(tokens, lhs, s, fuel) == FactorTail(tokens, AstOp(lhs, rhs, ConsumeAt(tokens, s).0), t, fuel - 1)
  {
  }

  /** A sign is never a `\d`, so text of regex digits that `parse::<i64>`
      accepts is a non-negative number. */
  lemma ParseRegexDigits(s: string)
    requires AllRegexDigits(s) && ParseI64(s).Some?
    ensures 0 <= ParseI64(s).value
  {
    assert IsRegexDigit(s[0]);
  }

  lemma DieFromTextWellFormed(t: Token)
    ensures t.Die? && WellFormedToken(t) ==> WellFormedAst(DieFromText(t.text).0)
  {
    if t.Die? && WellFormedToken(t) {
      var text := t.text;
      var k :| DieSplitAt(text, k);
      var parts := Split(text, 'd');
      if |parts| == 2 && AllAsciiDigits(parts[1]) {
        SplitAtOnlySeparator(text, k);
        assert parts[0] == text[..k];
        if parts[0] != "" && ParseI64(parts[0]).Some? {
          ParseRegexDigits(parts[0]);
        }
      }
    }
  }

  predicate Lacks(s: string, c: char) {
    forall i :: 0 <= i < |s| ==> s[i] != c
  }

  lemma {:induction false} SplitOfLacking(s: string, sep: char)
    requires Lacks(s, sep)
    ensures Split(s, sep) == [s]
  {
    if s != [] {
      SplitOfLacking(s[1..], sep);
      assert [s[0]] + s[1..] == s;
    }
  }

  /** Text with exactly one separator splits into the two sides of it. */
  lemma {:induction false} SplitAtOnlySeparator(s: string, k: int)
    requires 0 <= k < |s| && s[k] == 'd' && Lacks(s[..k], 'd') && Lacks(s[k + 1..], 'd')
    ensures Split(s, 'd') == [s[..k], s[k + 1..]]
    decreases k
  {
    if k == 0 {
      SplitOfLacking(s[1..], 'd');
    } else {
      assert s[1..][..k - 1] == s[1..k] && s[1..][k..] == s[k + 1..];
      SplitAtOnlySeparator(s[1..], k - 1);
      assert [s[0]] + s[1..k] == s[..k];
    }
  }

  lemma DieSplitSidesLackD(s: string, k: int)
    requires DieSplitAt(s, k)
    ensures Lacks(s[..k], 'd') && Lacks(s[k + 1..], 'd')
  {
  }

  /** A die written with ASCII digits, `<count>d<sides>`, becomes the die it
      names, with 0 for a number too large for an `i64`; the only messages
      are "not purely numeric" ones, one for each such number. Code 3
      therefore needs a non-ASCII `\d` digit after the `d`. */
  lemma DieOfDigits(count: string, sides: string)
    requires |count| > 0 && AllAsciiDigits(count) && |sides| > 0 && AllAsciiDigits(sides)
    ensures var (a, e) := DieFromText(count + "d" + sides);
      && a == AstDie(if DecimalValue(count) <= MAX then DecimalValue(count) else 0,
                     if DecimalValue(sides) <= MAX then DecimalValue(sides) else 0)
      && |e| == (if DecimalValue(count) > MAX then 1 else 0) + (if DecimalValue(sides) > MAX then 1 else 0)
      && (forall i :: 0 <= i < |e| ==> e[i] == NotNumericMessage(count + "d" + sides))
  {
    var text := count + "d" + sides;
    SplitDigitsDie(count, sides);
    var parts := Split(text, 'd');
    assert |parts| == 2 && parts[0] == count && parts[1] == sides;
    assert DieFromText(text) == DieParts(text, count, sides);
    DiePartsOfDigits(text, count, sides);
  }

  /** A count of Arabic-Indic digits passes the lexer's `\d` but not
      `parse::<i64>`: `٣d6` is a die whose count becomes 0, with one
      "not purely numeric" message. */
  lemma NonAsciiCount()
    ensures LexToken("\U{0663}d6") == Some(Die("\U{0663}d6"))
    ensures DieFromText("\U{0663}d6") == (AstDie(0, 6), [NotNumericMessage("\U{0663}d6")])
  {
    var text := "\U{0663}d6";
    assert DieSplitAt(text, 1);
    assert !AllAsciiDigits(text) by {
      assert !IsAsciiDigit(text[0]);
    }
    assert Split(text, 'd') == [text[..1], text[2..]] by {
      SplitAtOnlySeparator(text, 1);
    }
    assert ParseI64(text[..1]) == None by {
      assert !IsAsciiDigit(text[0]);
    }
    assert text[2..] == "6" && AllAsciiDigits("6");
    assert ParseI64("6") == Some(6) by {
      UnsignedDigitsParse("6");
    }
    assert DieFromText(text) == DieParts(text, text[..1], "6");
    assert [NotNumericMessage(text)] + [] == [NotNumericMessage(text)];
  }

  /** Arabic-Indic sides pass the lexer's `\d` but fail the ASCII check of
      `primary`: `6d٣` is the constant 0, with the Code 3 message. */
  lemma NonAsciiSides()
    ensures LexToken("6d\U{0663}") == Some(Die("6d\U{0663}"))
    ensures DieFromText("6d\U{0663}") == (AstConst(0), [Code3Message("6d\U{0663}")])
  {
    var text := "6d\U{0663}";
    assert DieSplitAt(text, 1);
    assert !AllAsciiDigits(text) by {
      assert !IsAsciiDigit(text[2]);
    }
    assert Split(text, 'd') == [text[..1], text[2..]] by {
      SplitAtOnlySeparator(text, 1);
    }
    assert !AllAsciiDigits(text[2..]) by {
      assert !IsAsciiDigit(text[2..][0]);
    }
  }

  /** A die the lexer produced is answered with the constant 0 and the one
      Code 3 message exactly when its side count, the text after the `d`,
      holds a character other than an ASCII digit. */
  lemma DieCode3(text: string, k: int)
    requires DieSplitAt(text, k)
    ensures !AllAsciiDigits(text[k + 1..]) <==> DieFromText(text) == (AstConst(0), [Code3Message(text)])
  {
    DieSplitSidesLackD(text, k);
    SplitAtOnlySeparator(text, k);
  }

  lemma DiePartsOfDigits(text: string, count: string, sides: string)
    requires |count| > 0 && AllAsciiDigits(count) && |sides| > 0 && AllAsciiDigits(sides)
    ensures var (a, e) := DieParts(text, count, sides);
      && a == AstDie(if DecimalValue(count) <= MAX then DecimalValue(count) else 0,
                     if DecimalValue(sides) <= MAX then DecimalValue(sides) else 0)
      && |e| == (if DecimalValue(count) > MAX then 1 else 0) + (if DecimalValue(sides) > MAX then 1 else 0)
      && (forall i :: 0 <= i < |e| ==> e[i] == NotNumericMessage(text))
  {
    UnsignedDigitsParse(count);
    UnsignedDigitsParse(sides);
  }

  /** `DieFromText` once the split has given a non-empty count and the sides. */
  function DieParts(text: string, count: string, sides: string): (Ast, seq<string>) {
    var (left, e1) := match ParseI64(count)
                      case Some(n) => (n, [])
                      case None => (0, [NotNumericMessage(text)]);
    var (right, e2) := match ParseI64(sides)
                       case Some(n) => (n, [])
                       case None => (0, [NotNumericMessage(text)]);
    (AstDie(left, right), e1 + e2)
  }

  lemma SplitDigitsDie(count: string, sides: string)
    requires AllAsciiDigits(count) && AllAsciiDigits(sides)
    ensures Split(count + "d" + sides, 'd') == [count, sides]
  {
    var text := count + "d" + sides;
    var k := |count|;
    assert text[..k] == count && text[k + 1..] == sides;
    assert Lacks(count, 'd') by {
      forall i | 0 <= i < |count| ensures count[i] != 'd' {
        assert IsAsciiDigit(count[i]);
      }
    }
    assert Lacks(sides, 'd') by {
      forall i | 0 <= i < |sides| ensures sides[i] != 'd' {
        assert IsAsciiDigit(sides[i]);
      }
    }
    SplitAtOnlySeparator(text, k);
  }

  /** Why a parser method stopped without a tree. */
  datatype Halt = OutOfFuel | Panic(reason: string)

  /** A method's result and final state are those the function gives. */
  predicate Agrees(p: Parsed, r: Result<Ast, Halt>, st: PState) {
    match p
    case Done(a, s) => r == Success(a) && st == s
    case Diverged => r == Failure(OutOfFuel)
    case Panicked(m) => r == Failure(Panic(m))
  }

  /** `DiceParser`: the token list, the cursor `current` and the error list. */
  class DiceParser {
    var tokens: seq<Token>
    var current: nat
    var errors: seq<string>

    /** `from_tokens`. */
    constructor FromTokens(toks: seq<Token>)
      ensures tokens == toks && current == 0 && errors == []
    {
      tokens := toks;
      current := 0;
      errors := [];
    }

    /** `DiceParser::new`: tokenize, or fail with the lexer's message. */
    static method New(raw: string) returns (r: Result<DiceParser, string>)
      ensures r.Failure? ==> Tokenize(raw) == Failure(r.error)
      ensures r.Success? ==> Tokenize(raw) == Success(r.value.tokens) && fresh(r.value)
      ensures r.Success? ==> r.value.current == 0 && r.value.errors == []
    {
      var lexed := TokenizeExpr(raw);
      if lexed.Failure? {
        return Failure(lexed.error);
      }
      var p := new DiceParser.FromTokens(lexed.value);
      return Success(p);
    }

    /** `errors`. */
    function Errors(): seq<string>
      reads this
    {
      errors
    }

    /** The cursor is on a token; this needs a non-empty token list. */
    predicate Valid()
      reads this
    {
      current < |tokens|
    }

    function State(): PState
      reads this
    {
      PState(current, errors)
    }

    /** `consume`. */
    method Consume() returns (t: Token)
      requires Valid()
      modifies this`current
      ensures Valid()
      ensures (t, State()) == ConsumeAt(tokens, old(State()))
    {
      if !IsAtEnd(tokens, State()) {
        current := current + 1;
        return tokens[current - 1];
      }
      return tokens[current];
    }

    /** `expr`. */
    method Expr(fuel: nat) returns (r: Result<Ast, Halt>)
      requires Valid()
      modifies this`current, this`errors
      ensures Valid() && Agrees(ParseExpr(tokens, old(State()), fuel), r, State())
      decreases fuel
    {
      if fuel == 0 {
        return Failure(OutOfFuel);
      }
      r := Term(fuel - 1);
    }

    /** `term`. */
    method Term(fuel: nat) returns (r: Result<Ast, Halt>)
      requires Valid()
      modifies this`current, this`errors
      ensures Valid() && Agrees(ParseTerm(tokens, old(State()), fuel), r, State())
      decreases fuel
    {
      if fuel == 0 {
        return Failure(OutOfFuel);
      }
      var left := Factor(fuel - 1);
      if left.Failure? {
        return left;
      }
      var expr := left.value;
      var f: nat := fuel - 1;
      while Check(tokens, State(), Token.Term(""))
        invariant Valid() && f < fuel
        invariant ParseTerm(tokens, old(State()), fuel) == TermTail(tokens, expr, State(), f)
        decreases f
      {
        if f == 0 {
          return Failure(OutOfFuel);
        }
        var op := Consume();
        var right := Factor(f - 1);
        if right.Failure? {
          return right;
        }
        expr := AstOp(expr, right.value, op);
        f := f - 1;
      }
      return Success(expr);
    }

    /** `factor`. */
    method Factor(fuel: nat) returns (r: Result<Ast, Halt>)
      requires Valid()
      modifies this`current, this`errors
      ensures Valid() && Agrees(ParseFactor(tokens, old(State()), fuel), r, State())
      decreases fuel
    {
      if fuel == 0 {
        return Failure(OutOfFuel);
      }
      var left := Primary(fuel - 1);
      if left.Failure? {
        return left;
      }
      var expr := left.value;
      var f: nat := fuel - 1;
      while Check(tokens, State(), Token.Factor(""))
        invariant Valid() && f < fuel
        invariant ParseFactor(tokens, old(State()), fuel) == FactorTail(tokens, expr, State(), f)
        decreases f
      {
        if f == 0 {
          return Failure(OutOfFuel);
        }
        ghost var before := State();
        var op := Consume();
        var right := Primary(f - 1);
        if right.Failure? {
          return right;
        }
        FactorTailTurn(tokens, expr, before, f, right.value, State());
        expr := AstOp(expr, right.value, op);
        f := f - 1;
      }
      return Success(expr);
    }

    /** The Die branch of `primary`: split the text at `d`, default an empty
        count to 1, and record a message for each part that is not a number. */
    method DieNode(text: string) returns (a: Ast)
      modifies this`errors
      ensures a == DieFromText(text).0 && errors == old(errors) + DieFromText(text).1
    {
      var split := Split(text, 'd');
      if |split| != 2 || !AllAsciiDigits(split[1]) {
        errors := errors + [Code3Message(text)];
        return AstConst(0);
      }
      if split[0] == "" {
        split := split[0 := "1"];
      }
      var left := 0;
      match ParseI64(split[0]) {
        case Some(n) =>
          left := n;
        case None =>
          errors := errors + [NotNumericMessage(text)];
      }
      var right := 0;
      match ParseI64(split[1]) {
        case Some(n) =>
          right := n;
        case None =>
          errors := errors + [NotNumericMessage(text)];
      }
      return AstDie(left, right);
    }

    /** `primary`. */
    method Primary(fuel: nat) returns (r: Result<Ast, Halt>)
      requires Valid()
      modifies this`current, this`errors
      ensures Valid() && Agrees(ParsePrimary(tokens, old(State()), fuel), r, State())
      decreases fuel
    {
      if fuel == 0 {
        return Failure(OutOfFuel);
      }
      if Check(tokens, State(), Const("")) {
        var t := Consume();
        match ParseI64(t.Value()) {
          case None =>
            return Failure(Panic(UnwrapPanic));
          case Some(n) =>
            return Success(AstConst(n));
        }
      }
      if Check(tokens, State(), Die("")) {
        var t := Consume();
        var die := DieNode(t.Value());
        DieFromTextWellFormed(t);
        return Success(die);
      }
      if Check(tokens, State(), Group("")) && Peek(tokens, State()).Value() == "(" {
        var open := Consume();
        var inner := Expr(fuel - 1);
        if inner.Failure? {
          return inner;
        }
        if Check(tokens, State(), Group("")) && Peek(tokens, State()).Value() == ")" {
          var close := Consume();
          return inner;
        }
        errors := errors + [UnmatchedParen];
        return Success(AstConst(0));
      }
      errors := errors + [CouldNotParse];
      return Success(AstConst(0));
    }
  }
}
