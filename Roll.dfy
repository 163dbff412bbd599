/** The `roll` command (`roll_handler` in src/command/roll/mod.rs) reduced
    to what it computes: tokenize, parse an expression, evaluate it, and
    report either the first parse error or the value and the roll trace. */
module Roll {
  import opened Wrappers
  import opened Int64
  import opened Lexer
  import opened Parser
  import opened ParserFacts
  import opened Evaluator

  /** What the user is shown, or that the handler never answers. */
  datatype Response =
    | LexFailed(message: string)
    | ParseFailed(message: string)
    | Rolled(result: int, rolls: string)
    | Hangs
    | Crashes(reason: string)

  /** The panic of `peek` on an empty token list. */
  const IndexPanic: string := "index out of bounds"

  /** `supply` is a possible sequence of rolls for the tree `raw` parses to. */
  predicate Supplied(raw: string, fuel: nat, supply: seq<int>) {
    match Tokenize(raw)
    case Failure(_) => true
    case Success(tokens) =>
      tokens == [] ||
      var p := ParseExpr(tokens, PState(0, []), fuel);
      p.Done? ==> Fits(p.ast, supply)
  }

  /** The answer of the handler. `eval` runs before the error list is
      looked at, and only the first error is shown. */
  function Respond(raw: string, fuel: nat, supply: seq<int>): Response
    requires Supplied(raw, fuel, supply)
  {
    match Tokenize(raw)
    case Failure(m) => LexFailed(m)
    case Success(tokens) =>
      if tokens == [] then Crashes(IndexPanic)
      else
        match ParseExpr(tokens, PState(0, []), fuel)
        case Diverged => Hangs
        case Panicked(m) => Crashes(m)
        case Done(ast, st) =>
          TokensWellFormed(raw);
          var (value, work) := Eval(ast, supply);
          if st.errors != [] then ParseFailed(st.errors[0]) else Rolled(value, work)
  }

  /** `roll_handler`, driving a `DiceParser` object. */
  method RollHandler(raw: string, fuel: nat, supply: seq<int>) returns (resp: Response)
    requires Supplied(raw, fuel, supply)
    ensures resp == Respond(raw, fuel, supply)
  {
    var made := DiceParser.New(raw);
    if made.Failure? {
      return LexFailed(made.error);
    }
    var parser := made.value;
    if parser.tokens == [] {
      return Crashes(IndexPanic);
    }
    var expr := parser.Expr(fuel);
    if expr.Failure? {
      if expr.error.OutOfFuel? {
        return Hangs;
      }
      return Crashes(expr.error.reason);
    }
    TokensWellFormed(raw);
    var (result, work) := Eval(expr.value, supply);
    if parser.Errors() != [] {
      return ParseFailed(parser.Errors()[0]);
    }
    return Rolled(result, work);
  }

  lemma RespondFromParse(raw: string, fuel: nat, supply: seq<int>, ts: seq<Token>, ast: Ast, st: PState)
    requires Tokenize(raw) == Success(ts) && ts != []
    requires ParseExpr(ts, PState(0, []), fuel) == Done(ast, st)
    requires WellFormedAst(ast) && Fits(ast, supply)
    ensures Supplied(raw, fuel, supply)
    ensures Respond(raw, fuel, supply)
      == if st.errors != [] then ParseFailed(st.errors[0]) else Rolled(Eval(ast, supply).0, Eval(ast, supply).1)
  {
  }
}
