/** Evaluation of the syntax tree (`eval` of `AstConst`, `AstDie` and
    `AstOp` in src/command/roll/parser.rs): a value and a trace string.

    The random number generator is replaced by an explicit supply of rolls:
    evaluating a tree takes its die rolls from the front of the supply, left
    subtree before right subtree, and every roll of a die with `s` sides
    lies in `[1, s]`. */
module Evaluator {
  import opened Wrappers
  import opened Int64
  import opened Lexer
  import opened Parser

  const DivideByZero: string := "ERROR: DIVIDE BY ZERO"

  /** How many rolls evaluating `a` draws (`for i in 0..left` per die). */
  function Draws(a: Ast): nat {
    match a
    case AstConst(_) => 0
    case AstDie(c, _) => if c > 0 then c else 0
    case AstOp(l, r, _) => Draws(l) + Draws(r)
  }

  /** `rolls` is a possible sequence of draws for `a`, in the order the
      evaluation makes them: one roll in `[1, sides]` per die roll. No supply
      fits a die with a positive count and no sides, on which `gen_range`
      panics. */
  predicate Fits(a: Ast, rolls: seq<int>) {
    match a
    case AstConst(_) => rolls == []
    case AstDie(c, s) => |rolls| == Draws(a) && forall i :: 0 <= i < |rolls| ==> 1 <= rolls[i] <= s
    case AstOp(l, r, _) =>
      |rolls| == Draws(a) && Fits(l, rolls[..Draws(l)]) && Fits(r, rolls[Draws(l)..])
  }

  function Sum(xs: seq<int>): int {
    if xs == [] then 0 else xs[0] + Sum(xs[1..])
  }

  /** The rolls written in decimal and joined by ", ". */
  function JoinRolls(xs: seq<int>): string {
    if xs == [] then ""
    else if |xs| == 1 then IntToString(xs[0])
    else IntToString(xs[0]) + ", " + JoinRolls(xs[1..])
  }

  /** The trace of a die: `[r1, r2, ...]`. */
  function RollTrace(xs: seq<int>): string {
    "[" + JoinRolls(xs) + "]"
  }

  /** `eval` of the three node kinds. A die's value is the sum of its rolls,
      which `Iterator::sum` computes with wrap-around in a release build.
      An operator evaluates left before right; `+ - *` saturate; `/` by zero
      gives 0 and replaces the whole trace by the error marker. */
  function Eval(a: Ast, rolls: seq<int>): (r: (int, string))
    requires WellFormedAst(a) && Fits(a, rolls)
    ensures InRange(r.0)
  {
    match a
    case AstConst(n) => (n, IntToString(n))
    case AstDie(_, _) => (Wrap(Sum(rolls)), RollTrace(rolls))
    case AstOp(l, rr, op) => Apply(op, Eval(l, rolls[..Draws(l)]), Eval(rr, rolls[Draws(l)..]))
  }

  /** The body of `AstOp::eval` once both operands are evaluated: `+ - *`
      give the exact result clamped to the `i64` range, `/` the quotient
      rounded toward zero (see `TruncDivIsTruncating`; only `MIN / -1` is
      clamped), and the trace joins both traces around the operator, except
      that a division by zero shows 0 and the error marker alone. */
  function Apply(op: Token, left: (int, string), right: (int, string)): (r: (int, string))
    requires IsArithmeticOp(op) && InRange(left.0) && InRange(right.0)
    ensures InRange(r.0)
    ensures op.text != "/" || right.0 != 0 ==> r.1 == left.1 + " " + op.text + " " + right.1
    ensures op.text == "+" ==> r.0 == Clamp(left.0 + right.0)
    ensures op.text == "-" ==> r.0 == Clamp(left.0 - right.0)
    ensures op.text == "*" ==> r.0 == Clamp(left.0 * right.0)
    ensures op.text == "/" && right.0 == 0 ==> r == (0, DivideByZero)
    ensures op.text == "/" && right.0 != 0 ==>
      r.0 == if left.0 == MIN && right.0 == -1 then MAX else TruncDiv(left.0, right.0)
  {
    var (lv, lt) := left;
    var (rv, rt) := right;
    var steps := lt + " " + op.Value() + " " + rt;
    if op.Term? then
      if op.text == "+" then (SaturatingAdd(lv, rv), steps) else (SaturatingSub(lv, rv), steps)
    else if op.text == "*" then (SaturatingMul(lv, rv), steps)
    else if rv == 0 then (0, DivideByZero)
    else
      SaturatingDivOnlyClampsMinByMinusOne(lv, rv);
      (SaturatingDiv(lv, rv), steps)
  }

  lemma {:induction false} JoinRollsSnoc(xs: seq<int>, x: int)
    ensures JoinRolls(xs + [x]) == if xs == [] then IntToString(x) else JoinRolls(xs) + ", " + IntToString(x)
    decreases |xs|
  {
    if |xs| == 1 {
      assert xs + [x] == [xs[0], x];
      assert (xs + [x])[1..] == [x];
    } else if |xs| > 1 {
      assert (xs + [x])[1..] == xs[1..] + [x];
      JoinRollsSnoc(xs[1..], x);
    }
  }

  /** The trace buffer after `i` of `count` rolls have been written. */
  function PartialTrace(rolls: seq<int>, i: int, count: int): string {
    "[" + JoinRolls(rolls) + (if 0 < i < count then ", " else "")
  }

  lemma TraceStep(rolls: seq<int>, roll: int, i: int, count: int)
    requires 0 <= i < count && |rolls| == i
    ensures PartialTrace(rolls, i, count) + IntToString(roll) + (if i != count - 1 then ", " else "")
      == PartialTrace(rolls + [roll], i + 1, count)
  {
    JoinRollsSnoc(rolls, roll);
  }

  /** `AstDie::eval`: the loop that draws `count` rolls, writes each into the
      trace buffer followed by ", " unless it is the last, and sums them. */
  method RollDie(count: int, sides: int, draws: seq<int>) returns (value: int, trace: string)
    requires 0 <= count <= MAX && 0 <= sides <= MAX && Fits(AstDie(count, sides), draws)
    ensures (value, trace) == Eval(AstDie(count, sides), draws)
  {
    var sb := "[";
    var rolls: seq<int> := [];
    assert |draws| == count;
    for i := 0 to count
      invariant rolls == draws[..i]
      invariant sb == PartialTrace(rolls, i, count)
    {
      var roll := draws[i];
      TraceStep(rolls, roll, i, count);
      sb := sb + IntToString(roll);
      if i != count - 1 {
        sb := sb + ", ";
      }
      rolls := rolls + [roll];
      assert draws[..i + 1] == draws[..i] + [roll];
    }
    assert rolls == draws;
    assert sb == "[" + JoinRolls(rolls);
    sb := sb + "]";
    return Wrap(Sum(rolls)), sb;
  }

  /** Decimal text never contains a comma. */
  lemma IntToStringLacksComma(n: int)
    ensures Lacks(IntToString(n), ',')
  {
  }

  /** Read a list written by `JoinRolls` back. */
  function DecodeList(s: string): Option<seq<int>>
    decreases |s|
  {
    var k := IndexOf(s, ',');
    match ParseI64(s[..k])
    case None => None
    case Some(v) =>
      if k == |s| then Some([v])
      else if k + 1 < |s| && s[k + 1] == ' ' then
        match DecodeList(s[k + 2..])
        case None => None
        case Some(vs) => Some([v] + vs)
      else None
  }

  /** Read a trace written by `RollTrace` back into its rolls. */
  function DecodeRollTrace(t: string): Option<seq<int>> {
    if |t| >= 2 && t[0] == '[' && t[|t| - 1] == ']' then
      var inner := t[1..|t| - 1];
      if inner == "" then Some([]) else DecodeList(inner)
    else None
  }

  lemma IndexOfLacking(a: string, b: string, c: char)
    requires Lacks(a, c)
    ensures IndexOf(a + b, c) == |a| + IndexOf(b, c)
    decreases |a|
  {
    if a == [] {
      assert a + b == b;
    } else {
      assert (a + b)[1..] == a[1..] + b;
      IndexOfLacking(a[1..], b, c);
    }
  }

  lemma DecodeLast(h: string, v: int)
    requires Lacks(h, ',') && ParseI64(h) == Some(v)
    ensures DecodeList(h) == Some([v])
  {
    IndexOfLacking(h, "", ',');
    assert h + "" == h;
    assert h[..|h|] == h;
  }

  lemma DecodeCons(h: string, tail: string, v: int)
    requires Lacks(h, ',') && ParseI64(h) == Some(v)
    ensures DecodeList(h + ", " + tail)
      == match DecodeList(tail) case None => None case Some(vs) => Some([v] + vs)
  {
    var s := h + ", " + tail;
    assert s == h + (", " + tail);
    IndexOfLacking(h, ", " + tail, ',');
    assert s[..|h|] == h && s[|h| + 2..] == tail;
  }

  lemma {:induction false} DecodeJoinRolls(xs: seq<int>)
    requires |xs| > 0 && forall i :: 0 <= i < |xs| ==> InRange(xs[i])
    ensures DecodeList(JoinRolls(xs)) == Some(xs)
    decreases |xs|
  {
    IntToStringLacksComma(xs[0]);
    ParseI64OfIntToString(xs[0]);
    if |xs| == 1 {
      DecodeLast(IntToString(xs[0]), xs[0]);
      assert xs == [xs[0]];
    } else {
      DecodeJoinRolls(xs[1..]);
      DecodeCons(IntToString(xs[0]), JoinRolls(xs[1..]), xs[0]);
      assert [xs[0]] + xs[1..] == xs;
    }
  }

  lemma {:induction false} SumBounds(xs: seq<int>, s: int)
    requires forall i :: 0 <= i < |xs| ==> 1 <= xs[i] <= s
    ensures |xs| <= Sum(xs) <= |xs| * s
    decreases |xs|
  {
    if xs != [] {
      SumBounds(xs[1..], s);
      assert |xs| * s == (|xs| - 1) * s + s;
    }
  }

  /** A die of `count` rolls of `sides` sides: the trace reads back as
      exactly the rolls, in draw order, each in `[1, sides]`; when the total
      cannot overflow the value is their sum, between `count` and
      `count * sides`. With count 0 the result is `(0, "[]")`. */
  lemma DieTraceListsRolls(count: int, sides: int, rolls: seq<int>)
    requires 0 <= count <= MAX && 0 <= sides <= MAX && Fits(AstDie(count, sides), rolls)
    ensures var (v, t) := Eval(AstDie(count, sides), rolls);
      && |rolls| == count
      && (forall i :: 0 <= i < count ==> 1 <= rolls[i] <= sides)
      && DecodeRollTrace(t) == Some(rolls)
      && (count * sides <= MAX ==> v == Sum(rolls) && count <= v <= count * sides)
      && (count == 0 ==> v == 0 && t == "[]")
  {
    var t := RollTrace(rolls);
    assert t[1..|t| - 1] == JoinRolls(rolls);
    SumBounds(rolls, sides);
    if rolls != [] {
      DecodeJoinRolls(rolls);
    }
    if count * sides <= MAX {
      assert 0 <= Sum(rolls) <= MAX;
    }
  }

  /** The trees no supply fits are exactly those with a die that has a
      positive count and no sides. */
  predicate HasEmptyDie(a: Ast) {
    match a
    case AstConst(_) => false
    case AstDie(c, s) => c > 0 && s < 1
    case AstOp(l, r, _) => HasEmptyDie(l) || HasEmptyDie(r)
  }

  function Ones(n: nat): (r: seq<int>)
    ensures |r| == n && forall i :: 0 <= i < n ==> r[i] == 1
  {
    seq(n, _ => 1)
  }

  lemma {:induction false} SomeSupplyFits(a: Ast)
    ensures !HasEmptyDie(a) <==> (exists rolls :: Fits(a, rolls))
  {
    match a
    case AstConst(_) =>
      assert Fits(a, []);
    case AstDie(c, s) =>
      if exists rolls :: Fits(a, rolls) {
        var rolls :| Fits(a, rolls);
        if c > 0 {
          assert 1 <= rolls[0] <= s;
        }
      }
      if !HasEmptyDie(a) {
        assert Fits(a, Ones(Draws(a)));
      }
    case AstOp(l, r, _) =>
      SomeSupplyFits(l);
      SomeSupplyFits(r);
      if exists rolls :: Fits(a, rolls) {
        var rolls :| Fits(a, rolls);
        var left, right := rolls[..Draws(l)], rolls[Draws(l)..];
        assert Fits(l, left) && Fits(r, right);
        assert exists q :: Fits(l, q);
        assert exists q :: Fits(r, q);
        assert !HasEmptyDie(l) && !HasEmptyDie(r);
      }
      assert (exists rolls :: Fits(a, rolls)) ==> !HasEmptyDie(a);
      if !HasEmptyDie(a) {
        var rl :| Fits(l, rl);
        var rr :| Fits(r, rr);
        FitsLength(l, rl);
        FitsLength(r, rr);
        var both := rl + rr;
        assert both[..Draws(l)] == rl && both[Draws(l)..] == rr;
        assert Fits(a, both);
        assert exists rolls :: Fits(a, rolls);
      }
  }

  lemma FitsLength(a: Ast, rolls: seq<int>)
    requires Fits(a, rolls)
    ensures |rolls| == Draws(a)
  {
  }
}
