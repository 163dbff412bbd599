/** The lexer of the dice engine (`tokenize_expr` and `lex_token` in
    src/command/roll/parser.rs): a raw expression string becomes a flat
    sequence of Const, Die, Term, Factor and Group tokens, or fails naming
    the chunk of text it could not classify. */
module Lexer {
  import opened Wrappers
  import opened Int64

  /** A lexical token; the text is what the lexer stored for it. */
  datatype Token =
    | Const(text: string)
    | Die(text: string)
    | Term(text: string)
    | Factor(text: string)
    | Group(text: string)
  {
    /** `Token::id`: the number of the variant, so that two tokens can be
        compared by kind whatever their text. */
    function Id(): (r: int)
      ensures 0 <= r < 5
    {
      match this
      case Const(_) => 0
      case Die(_) => 1
      case Term(_) => 2
      case Factor(_) => 3
      case Group(_) => 4
    }

    /** `Token::value`: the token's text. */
    function Value(): string {
      text
    }
  }

  /** Two tokens have the same `Id` exactly when they are the same variant. */
  lemma IdComparesVariantOnly(a: Token, b: Token)
    ensures a.Id() == b.Id() <==>
      (a.Const? && b.Const?) || (a.Die? && b.Die?) || (a.Term? && b.Term?) ||
      (a.Factor? && b.Factor?) || (a.Group? && b.Group?)
  {
  }

  /** The characters the lexer skips: tab, LF, CR, space, NEL, NBSP. */
  predicate IsWhitespace(c: char) {
    c == '\t' || c == '\n' || c == '\r' || c == ' ' || c == '\U{0085}' || c == '\U{00A0}'
  }

  predicate IsOperator(c: char) {
    c == '+' || c == '-' || c == '*' || c == '/' || c == '(' || c == ')'
  }

  predicate NoWhitespace(s: string) {
    forall i :: 0 <= i < |s| ==> !IsWhitespace(s[i])
  }

  /** The one-character token an operator character becomes. */
  function OpToken(c: char): (t: Token)
    requires IsOperator(c)
    ensures t.text == [c]
    ensures t.Group? <==> c == '(' || c == ')'
    ensures t.Factor? <==> c == '*' || c == '/'
    ensures t.Term? <==> c == '+' || c == '-'
  {
    if c == '(' || c == ')' then Group([c])
    else if c == '*' || c == '/' then Factor([c])
    else Term([c])
  }

  /** A character that `\d` matches. Rust's `regex` crate matches every
      Unicode decimal digit; the model lists ASCII digits and four other
      blocks of decimal digits (Arabic-Indic, Extended Arabic-Indic,
      Devanagari, Fullwidth). */
  predicate IsRegexDigit(c: char) {
    IsAsciiDigit(c) ||
    ('\U{0660}' <= c <= '\U{0669}') || ('\U{06F0}' <= c <= '\U{06F9}') ||
    ('\U{0966}' <= c <= '\U{096F}') || ('\U{FF10}' <= c <= '\U{FF19}')
  }

  predicate AllRegexDigits(s: string) {
    forall i :: 0 <= i < |s| ==> IsRegexDigit(s[i])
  }

  /** `s` matches `^\d*d\d+$` with its one `d` at index `k`. */
  predicate DieSplitAt(s: string, k: int) {
    0 <= k < |s| && s[k] == 'd' && AllRegexDigits(s[..k]) && k + 1 < |s| && AllRegexDigits(s[k + 1..])
  }

  /** The regular expression `^\d*d\d+$`, stated as a property of the text. */
  ghost predicate DiePattern(s: string) {
    exists k :: DieSplitAt(s, k)
  }

  /** The index of the first `c` in `s`, or `|s|` if there is none. */
  function IndexOf(s: string, c: char): (k: nat)
    ensures k <= |s|
    ensures k < |s| ==> s[k] == c
    ensures forall j :: 0 <= j < k ==> s[j] != c
  {
    if s == [] then 0 else if s[0] == c then 0 else 1 + IndexOf(s[1..], c)
  }

  /** A hand-written matcher for `^\d*d\d+$`: as `\d` never matches `d`,
      the only candidate split is at the first `d`. */
  function MatchesDie(s: string): bool {
    var k := IndexOf(s, 'd');
    k < |s| && AllRegexDigits(s[..k]) && k + 1 < |s| && AllRegexDigits(s[k + 1..])
  }

  lemma MatchesDieIsDiePattern(s: string)
    ensures MatchesDie(s) <==> DiePattern(s)
  {
    var k := IndexOf(s, 'd');
    if MatchesDie(s) {
      assert DieSplitAt(s, k);
    }
    if DiePattern(s) {
      var j :| DieSplitAt(s, j);
      DieSplitIsFirstD(s, j);
    }
  }

  /** In a die text the `d` stands where the matcher looks for it. */
  lemma DieSplitIsFirstD(s: string, k: int)
    requires DieSplitAt(s, k)
    ensures IndexOf(s, 'd') == k
  {
  }

  /** `lex_token`: all ASCII digits give a Const; otherwise text matching
      `^\d*d\d+$` gives a Die whose missing count is written as `1`;
      anything else is not a token. */
  function LexToken(chunk: string): (r: Option<Token>)
    ensures r.Some? <==> AllAsciiDigits(chunk) || DiePattern(chunk)
    ensures AllAsciiDigits(chunk) ==> r == Some(Const(chunk))
    ensures !AllAsciiDigits(chunk) && DiePattern(chunk) ==>
              r == Some(Die(if chunk[0] == 'd' then "1" + chunk else chunk))
  {
    MatchesDieIsDiePattern(chunk);
    if AllAsciiDigits(chunk) then Some(Const(chunk))
    else if MatchesDie(chunk) then Some(Die(if chunk[0] == 'd' then "1" + chunk else chunk))
    else None
  }

  /** The message of a failed tokenization: code 1 when the chunk was ended
      by an operator, code 2 when it ran to the end of the input. */
  function UnrecognizedMessage(chunk: string, code: int): string {
    chunk + " was not recognized as a valid number or dice expression (Code: " + IntToString(code) + ")"
  }

  /** The state of `tokenize_expr`'s loop: the tokens pushed so far and the
      pending buffer `sb`, or the error it bailed out with. */
  datatype LexState = Lexing(tokens: seq<Token>, pending: string) | Failed(message: string)

  const Start: LexState := Lexing([], "")

  /** One turn of the loop, on character `ch`. */
  function Step(st: LexState, ch: char): LexState {
    match st
    case Failed(_) => st
    case Lexing(tokens, sb) =>
      if IsWhitespace(ch) then st
      else if IsOperator(ch) then
        if |sb| != 0 then
          match LexToken(sb)
          case None => Failed(UnrecognizedMessage(sb, 1))
          case Some(t) => Lexing(tokens + [t, OpToken(ch)], "")
        else Lexing(tokens + [OpToken(ch)], "")
      else Lexing(tokens, sb + [ch])
  }

  /** The loop run over the characters of `rest`. */
  function Scan(st: LexState, rest: string): LexState
    decreases |rest|
  {
    if rest == [] then st else Scan(Step(st, rest[0]), rest[1..])
  }

  /** What `tokenize_expr` returns once the loop is over: the error it
      bailed out with, or the tokens with the pending chunk flushed. */
  function Flush(st: LexState): Result<seq<Token>, string> {
    match st
    case Failed(m) => Failure(m)
    case Lexing(tokens, sb) =>
      if |sb| != 0 then
        match LexToken(sb)
        case None => Failure(UnrecognizedMessage(sb, 2))
        case Some(t) => Success(tokens + [t])
      else Success(tokens)
  }

  /** `tokenize_expr`, as a function: scan, then flush what is pending. */
  function Tokenize(raw: string): Result<seq<Token>, string> {
    Flush(Scan(Start, raw))
  }

  lemma {:induction false} ScanFailedStays(m: string, rest: string)
    ensures Scan(Failed(m), rest) == Failed(m)
    decreases |rest|
  {
    if rest != [] {
      ScanFailedStays(m, rest[1..]);
    }
  }

  /** `tokenize_expr` itself: the character loop with its buffer. */
  method TokenizeExpr(raw: string) returns (r: Result<seq<Token>, string>)
    ensures r == Tokenize(raw)
  {
    var tokens: seq<Token> := [];
    var sb: string := "";
    var i := 0;
    while i < |raw|
      invariant 0 <= i <= |raw|
      invariant Scan(Lexing(tokens, sb), raw[i..]) == Scan(Start, raw)
    {
      var ch := raw[i];
      assert raw[i..][0] == ch && raw[i..][1..] == raw[i + 1..];
      assert Scan(Lexing(tokens, sb), raw[i..]) == Scan(Step(Lexing(tokens, sb), ch), raw[i + 1..]);
      if IsWhitespace(ch) {
        i := i + 1;
        continue;
      }
      if IsOperator(ch) {
        ghost var old_tokens := tokens;
        if |sb| != 0 {
          match LexToken(sb)
          case None =>
            ScanFailedStays(UnrecognizedMessage(sb, 1), raw[i + 1..]);
            return Failure(UnrecognizedMessage(sb, 1));
          case Some(tok) =>
            tokens := tokens + [tok];
            assert tokens + [OpToken(ch)] == old_tokens + [tok, OpToken(ch)];
        }
        tokens := tokens + [OpToken(ch)];
        sb := "";
        i := i + 1;
        continue;
      }
      sb := sb + [ch];
      i := i + 1;
    }
    if |sb| != 0 {
      match LexToken(sb)
      case None =>
        return Failure(UnrecognizedMessage(sb, 2));
      case Some(tok) =>
        tokens := tokens + [tok];
    }
    return Success(tokens);
  }

  // ---------------------------------------------------------------------
  // What tokenizing guarantees

  /** The shape of every token the lexer emits. */
  ghost predicate WellFormedToken(t: Token) {
    match t
    case Const(s) => |s| > 0 && AllAsciiDigits(s)
    case Die(s) => DiePattern(s) && s[0] != 'd'
    case Term(s) => s == "+" || s == "-"
    case Factor(s) => s == "*" || s == "/"
    case Group(s) => s == "(" || s == ")"
  }

  ghost predicate GoodTokens(tokens: seq<Token>) {
    forall i :: 0 <= i < |tokens| ==> WellFormedToken(tokens[i]) && NoWhitespace(tokens[i].text)
  }

  ghost predicate GoodState(st: LexState) {
    st.Lexing? ==> GoodTokens(st.tokens) && NoWhitespace(st.pending)
  }

  lemma LexTokenGood(chunk: string)
    requires |chunk| > 0 && NoWhitespace(chunk) && LexToken(chunk).Some?
    ensures WellFormedToken(LexToken(chunk).value) && NoWhitespace(LexToken(chunk).value.text)
  {
    if !AllAsciiDigits(chunk) {
      var k :| DieSplitAt(chunk, k);
      if chunk[0] == 'd' {
        var t := "1" + chunk;
        assert t[..1] == "1" && t[2..] == chunk[1..];
        assert DieSplitAt(t, 1);
      }
    }
  }

  lemma StepGood(st: LexState, ch: char)
    requires GoodState(st)
    ensures GoodState(Step(st, ch))
  {
    if st.Lexing? && !IsWhitespace(ch) && IsOperator(ch) && |st.pending| != 0 && LexToken(st.pending).Some? {
      LexTokenGood(st.pending);
    }
  }

  lemma {:induction false} ScanGood(st: LexState, rest: string)
    requires GoodState(st)
    ensures GoodState(Scan(st, rest))
    decreases |rest|
  {
    if rest != [] {
      StepGood(st, rest[0]);
      ScanGood(Step(st, rest[0]), rest[1..]);
    }
  }

  /** Every token of a successful tokenization is well formed (digit-only
      Consts, `^\d*d\d+$` Dice with an explicit count, one-character
      operators and parentheses) and contains no whitespace character. */
  lemma TokensWellFormed(raw: string)
    ensures Tokenize(raw).Success? ==>
      forall i :: 0 <= i < |Tokenize(raw).value| ==>
        WellFormedToken(Tokenize(raw).value[i]) && NoWhitespace(Tokenize(raw).value[i].text)
  {
    ScanGood(Start, raw);
    var st := Scan(Start, raw);
    if st.Lexing? && |st.pending| != 0 && LexToken(st.pending).Some? {
      LexTokenGood(st.pending);
    }
  }

  /** The operator and parenthesis tokens of a sequence, in order. */
  function OperatorTokens(tokens: seq<Token>): seq<Token> {
    if tokens == [] then []
    else (if tokens[0].Const? || tokens[0].Die? then [] else [tokens[0]]) + OperatorTokens(tokens[1..])
  }

  /** The tokens the operator characters of a text stand for, in order. */
  function OperatorsOf(s: string): seq<Token> {
    if s == [] then []
    else (if IsOperator(s[0]) then [OpToken(s[0])] else []) + OperatorsOf(s[1..])
  }

  lemma {:induction false} OperatorTokensAppend(a: seq<Token>, b: seq<Token>)
    ensures OperatorTokens(a + b) == OperatorTokens(a) + OperatorTokens(b)
    decreases |a|
  {
    if a == [] {
      assert a + b == b;
    } else {
      assert (a + b)[1..] == a[1..] + b;
      OperatorTokensAppend(a[1..], b);
    }
  }

  lemma {:induction false} ScanOperators(st: LexState, rest: string)
    requires st.Lexing? && Scan(st, rest).Lexing?
    ensures OperatorTokens(Scan(st, rest).tokens) == OperatorTokens(st.tokens) + OperatorsOf(rest)
    decreases |rest|
  {
    if rest != [] {
      var ch := rest[0];
      var next := Step(st, ch);
      if next.Failed? {
        ScanFailedStays(next.message, rest[1..]);
      }
      ScanOperators(next, rest[1..]);
      StepOperators(st, ch);
    }
  }

  /** One turn of the loop adds the token of an operator character and no
      other operator token. */
  lemma StepOperators(st: LexState, ch: char)
    requires st.Lexing? && Step(st, ch).Lexing?
    ensures OperatorTokens(Step(st, ch).tokens)
      == OperatorTokens(st.tokens) + (if IsOperator(ch) then [OpToken(ch)] else [])
  {
    if !IsWhitespace(ch) && IsOperator(ch) {
      var op := OpToken(ch);
      assert !op.Const? && !op.Die?;
      assert OperatorTokens([op]) == [op];
      if |st.pending| != 0 {
        var t := LexToken(st.pending).value;
        assert t.Const? || t.Die?;
        assert Step(st, ch).tokens == st.tokens + [t, op];
        assert [t, op][1..] == [op];
        assert OperatorTokens([t, op]) == [op];
        OperatorTokensAppend(st.tokens, [t, op]);
      } else {
        assert Step(st, ch).tokens == st.tokens + [op];
        OperatorTokensAppend(st.tokens, [op]);
      }
    } else {
      assert Step(st, ch).tokens == st.tokens;
      assert OperatorTokens(st.tokens) + [] == OperatorTokens(st.tokens);
    }
  }

  /** Each of `+ - * / ( )` becomes its own token, classified as Term, Factor
      or Group, and these tokens come out in the order of the input. */
  lemma OperatorsInInputOrder(raw: string)
    ensures Tokenize(raw).Success? ==> OperatorTokens(Tokenize(raw).value) == OperatorsOf(raw)
  {
    var st := Scan(Start, raw);
    if st.Lexing? {
      ScanOperators(Start, raw);
      if |st.pending| != 0 && LexToken(st.pending).Some? {
        OperatorTokensAppend(st.tokens, [LexToken(st.pending).value]);
      }
    }
  }

  /** The non-whitespace characters after the last operator of `s`: the
      chunk of text still waiting to be classified. */
  function TrailingChunk(s: string): string {
    if s == [] then []
    else
      var c := s[|s| - 1];
      if IsWhitespace(c) then TrailingChunk(s[..|s| - 1])
      else if IsOperator(c) then []
      else TrailingChunk(s[..|s| - 1]) + [c]
  }

  lemma {:induction false} ScanAppend(st: LexState, a: string, b: string)
    ensures Scan(st, a + b) == Scan(Scan(st, a), b)
    decreases |a|
  {
    if a == [] {
      assert a + b == b;
    } else {
      assert (a + b)[0] == a[0] && (a + b)[1..] == a[1..] + b;
      ScanAppend(Step(st, a[0]), a[1..], b);
    }
  }

  /** Scanning one more character is one more step. */
  lemma ScanSnoc(s: string)
    requires |s| > 0
    ensures Scan(Start, s) == Step(Scan(Start, s[..|s| - 1]), s[|s| - 1])
  {
    ScanAppend(Start, s[..|s| - 1], [s[|s| - 1]]);
    assert s[..|s| - 1] + [s[|s| - 1]] == s;
  }

  lemma {:induction false} PendingIsTrailingChunk(s: string)
    requires Scan(Start, s).Lexing?
    ensures Scan(Start, s).pending == TrailingChunk(s)
    decreases |s|
  {
    if s != [] {
      ScanSnoc(s);
      var before := Scan(Start, s[..|s| - 1]);
      if before.Failed? {
        assert false;
      }
      PendingIsTrailingChunk(s[..|s| - 1]);
    }
  }

  /** The first character at which the scan fails. */
  lemma {:induction false} FirstFailure(s: string) returns (i: nat)
    requires Scan(Start, s).Failed?
    ensures i < |s| && Scan(Start, s[..i]).Lexing?
    ensures Scan(Start, s) == Step(Scan(Start, s[..i]), s[i])
    decreases |s|
  {
    ScanSnoc(s);
    var init := s[..|s| - 1];
    if Scan(Start, init).Failed? {
      i := FirstFailure(init);
      assert init[..i] == s[..i] && init[i] == s[i];
    } else {
      i := |s| - 1;
    }
  }

  /** The offending chunk ended at operator `i` and is no token. */
  predicate BadChunkBefore(raw: string, i: int)
    requires 0 <= i <= |raw|
  {
    TrailingChunk(raw[..i]) != [] && LexToken(TrailingChunk(raw[..i])).None?
  }

  /** A failed tokenization names the chunk that failed: with code 1 a
      chunk ended by an operator, with code 2 the chunk left at the end of
      the input. */
  lemma FailureNamesChunk(raw: string)
    ensures Tokenize(raw).Failure? ==>
      (BadChunkBefore(raw, |raw|) &&
       Tokenize(raw).error == UnrecognizedMessage(TrailingChunk(raw), 2)) ||
      (exists i :: 0 <= i < |raw| && IsOperator(raw[i]) && BadChunkBefore(raw, i) &&
         Tokenize(raw).error == UnrecognizedMessage(TrailingChunk(raw[..i]), 1))
  {
    assert raw[..|raw|] == raw;
    if Scan(Start, raw).Lexing? {
      PendingIsTrailingChunk(raw);
    } else {
      var i := FirstFailure(raw);
      PendingIsTrailingChunk(raw[..i]);
      assert IsOperator(raw[i]) && BadChunkBefore(raw, i);
    }
  }

  // ---------------------------------------------------------------------
  // Tokenizing, chunk by chunk

  /** Text that goes into the pending buffer whole: no whitespace and no
      operator. */
  predicate Plain(c: string) {
    forall i :: 0 <= i < |c| ==> !IsWhitespace(c[i]) && !IsOperator(c[i])
  }

  /** `s` without its whitespace. */
  function Strip(s: string): string {
    if s == [] then [] else (if IsWhitespace(s[0]) then [] else [s[0]]) + Strip(s[1..])
  }

  /** The chunks of `s`: the pieces of text before, between and after its
      operator characters, one more than there are operators. */
  function Chunks(s: string): (r: seq<string>)
    ensures |r| == |OperatorsOf(s)| + 1
  {
    if s == [] then [""]
    else
      var rest := Chunks(s[1..]);
      if IsOperator(s[0]) then [""] + rest else [[s[0]] + rest[0]] + rest[1..]
  }

  /** A chunk the lexer accepts: an empty one, or one `lex_token` classifies. */
  predicate Lexes(chunk: string) {
    chunk == [] || LexToken(chunk).Some?
  }

  /** The token of an accepted chunk; an empty chunk gives none. */
  function ChunkTokens(chunk: string): seq<Token>
    requires Lexes(chunk)
  {
    if chunk == [] then [] else [LexToken(chunk).value]
  }

  /** The tokens of the chunks, each chunk's followed by the operator that
      ended it. */
  function Interleave(chunks: seq<string>, ops: seq<Token>): seq<Token>
    requires |chunks| == |ops| + 1 && forall i :: 0 <= i < |chunks| ==> Lexes(chunks[i])
    decreases |ops|
  {
    ChunkTokens(chunks[0]) + if ops == [] then [] else [ops[0]] + Interleave(chunks[1..], ops[1..])
  }

  /** Lexing chunk after chunk, stopping at the first that is no token:
      code 1 when an operator ended that chunk, code 2 when it is the last. */
  function LexChunks(chunks: seq<string>, ops: seq<Token>): Result<seq<Token>, string>
    requires |chunks| == |ops| + 1
    decreases |ops|
  {
    if !Lexes(chunks[0]) then Failure(UnrecognizedMessage(chunks[0], if ops == [] then 2 else 1))
    else if ops == [] then Success(ChunkTokens(chunks[0]))
    else
      match LexChunks(chunks[1..], ops[1..])
      case Failure(m) => Failure(m)
      case Success(rest) => Success(ChunkTokens(chunks[0]) + [ops[0]] + rest)
  }

  /** `ts` put before the tokens of a success. */
  function Prepend(ts: seq<Token>, r: Result<seq<Token>, string>): Result<seq<Token>, string> {
    match r
    case Success(v) => Success(ts + v)
    case Failure(m) => Failure(m)
  }

  lemma {:induction false} ChunksOfPlain(p: string)
    requires Plain(p)
    ensures Chunks(p) == [p] && OperatorsOf(p) == []
    decreases |p|
  {
    if p != [] {
      ChunksOfPlain(p[1..]);
      assert [p[0]] + p[1..] == p;
    }
  }

  /** Plain text followed by an operator is the first chunk. */
  lemma {:induction false} ChunksAfterPlain(p: string, c: char, r: string)
    requires Plain(p) && IsOperator(c)
    ensures Chunks(p + [c] + r) == [p] + Chunks(r)
    ensures OperatorsOf(p + [c] + r) == [OpToken(c)] + OperatorsOf(r)
    decreases |p|
  {
    var s := p + [c] + r;
    if p == [] {
      assert s == [c] + r && s[1..] == r;
    } else {
      assert s[0] == p[0] && s[1..] == p[1..] + [c] + r;
      ChunksAfterPlain(p[1..], c, r);
      assert [p[0]] + p[1..] == p;
    }
  }

  lemma {:induction false} OperatorsOfStrip(s: string)
    ensures OperatorsOf(Strip(s)) == OperatorsOf(s)
    decreases |s|
  {
    if s != [] {
      OperatorsOfStrip(s[1..]);
      var head := if IsWhitespace(s[0]) then [] else [s[0]];
      assert Strip(s) == head + Strip(s[1..]);
      OperatorsOfAppend(head, Strip(s[1..]));
    }
  }

  lemma {:induction false} OperatorsOfAppend(a: string, b: string)
    ensures OperatorsOf(a + b) == OperatorsOf(a) + OperatorsOf(b)
    decreases |a|
  {
    if a == [] {
      assert a + b == b;
    } else {
      assert (a + b)[0] == a[0] && (a + b)[1..] == a[1..] + b;
      var h := if IsOperator(a[0]) then [OpToken(a[0])] else [];
      assert OperatorsOf(a + b) == h + OperatorsOf(a[1..] + b);
      OperatorsOfAppend(a[1..], b);
      assert h + (OperatorsOf(a[1..]) + OperatorsOf(b)) == (h + OperatorsOf(a[1..])) + OperatorsOf(b);
    }
  }

  /** The flushed scan from `Lexing(ts, p)` lexes the chunks of `p`
      followed by `s` with its whitespace removed. */
  predicate ScansByChunks(ts: seq<Token>, p: string, s: string) {
    Flush(Scan(Lexing(ts, p), s)) == Prepend(ts, LexChunks(Chunks(p + Strip(s)), OperatorsOf(p + Strip(s))))
  }

  /** At the end of the input the pending text is the one chunk left. */
  lemma EndByChunks(ts: seq<Token>, p: string)
    requires Plain(p)
    ensures ScansByChunks(ts, p, "")
  {
    assert Scan(Lexing(ts, p), "") == Lexing(ts, p);
    assert p + Strip("") == p;
    ChunksOfPlain(p);
    assert LexChunks([p], []) == if Lexes(p) then Success(ChunkTokens(p)) else Failure(UnrecognizedMessage(p, 2));
    assert ts + [] == ts;
  }

  /** An operator after a chunk that is no token stops the scan. */
  lemma BadChunkByChunks(ts: seq<Token>, p: string, s: string)
    requires Plain(p) && s != [] && IsOperator(s[0]) && !Lexes(p)
    ensures ScansByChunks(ts, p, s)
  {
    var c, r := s[0], Strip(s[1..]);
    assert Scan(Lexing(ts, p), s) == Scan(Step(Lexing(ts, p), c), s[1..]);
    ScanFailedStays(UnrecognizedMessage(p, 1), s[1..]);
    assert Strip(s) == [c] + r;
    assert p + Strip(s) == p + [c] + r;
    ChunksAfterPlain(p, c, r);
  }

  /** An operator after an accepted chunk emits the chunk's token and its
      own, leaving nothing pending. */
  lemma GoodChunkStep(ts: seq<Token>, p: string, c: char)
    requires IsOperator(c) && Lexes(p)
    ensures Step(Lexing(ts, p), c) == Lexing(ts + ChunkTokens(p) + [OpToken(c)], "")
  {
    assert !IsWhitespace(c);
    if p != [] {
      assert ts + [LexToken(p).value, OpToken(c)] == ts + ChunkTokens(p) + [OpToken(c)];
    } else {
      assert ts + [OpToken(c)] == ts + ChunkTokens(p) + [OpToken(c)];
    }
  }

  /** Lexing an accepted first chunk and its operator, then the rest. */
  lemma GoodChunkFirst(p: string, c: char, r: string)
    requires Plain(p) && IsOperator(c) && Lexes(p)
    ensures LexChunks(Chunks(p + [c] + r), OperatorsOf(p + [c] + r))
      == Prepend(ChunkTokens(p) + [OpToken(c)], LexChunks(Chunks(r), OperatorsOf(r)))
  {
    ChunksAfterPlain(p, c, r);
    assert ([p] + Chunks(r))[1..] == Chunks(r);
    assert ([OpToken(c)] + OperatorsOf(r))[1..] == OperatorsOf(r);
  }

  lemma PrependTwice(a: seq<Token>, b: seq<Token>, r: Result<seq<Token>, string>)
    ensures Prepend(a, Prepend(b, r)) == Prepend(a + b, r)
  {
    if r.Success? {
      assert a + (b + r.value) == a + b + r.value;
    }
  }

  /** An operator after an accepted chunk: the scan goes on with nothing
      pending. */
  lemma GoodChunkByChunks(ts: seq<Token>, p: string, s: string)
    requires Plain(p) && s != [] && IsOperator(s[0]) && Lexes(p)
    requires ScansByChunks(ts + ChunkTokens(p) + [OpToken(s[0])], "", s[1..])
    ensures ScansByChunks(ts, p, s)
  {
    var c, r := s[0], Strip(s[1..]);
    var u := ChunkTokens(p) + [OpToken(c)];
    GoodChunkStep(ts, p, c);
    assert ts + ChunkTokens(p) + [OpToken(c)] == ts + u;
    assert Scan(Lexing(ts, p), s) == Scan(Lexing(ts + u, ""), s[1..]);
    assert Strip(s) == [c] + r;
    assert p + Strip(s) == p + [c] + r;
    assert "" + r == r;
    GoodChunkFirst(p, c, r);
    PrependTwice(ts, u, LexChunks(Chunks(r), OperatorsOf(r)));
  }

  /** The scan from a state with tokens `ts` and plain pending text `p`,
      once flushed, lexes the chunks of `p` followed by the rest of the
      input with its whitespace removed. */
  lemma {:induction false} ScanByChunks(ts: seq<Token>, p: string, s: string)
    requires Plain(p)
    ensures ScansByChunks(ts, p, s)
    decreases |s|
  {
    if s == [] {
      EndByChunks(ts, p);
    } else if IsWhitespace(s[0]) {
      assert Scan(Lexing(ts, p), s) == Scan(Lexing(ts, p), s[1..]);
      assert Strip(s) == Strip(s[1..]);
      ScanByChunks(ts, p, s[1..]);
    } else if IsOperator(s[0]) {
      if !Lexes(p) {
        BadChunkByChunks(ts, p, s);
      } else {
        ScanByChunks(ts + ChunkTokens(p) + [OpToken(s[0])], "", s[1..]);
        GoodChunkByChunks(ts, p, s);
      }
    } else {
      var c, r := s[0], Strip(s[1..]);
      assert Scan(Lexing(ts, p), s) == Scan(Lexing(ts, p + [c]), s[1..]);
      assert Strip(s) == [c] + r;
      assert p + Strip(s) == (p + [c]) + r;
      assert Plain(p + [c]);
      ScanByChunks(ts, p + [c], s[1..]);
    }
  }

  /** `tokenize_expr` lexes the chunks of its input between the operators,
      whitespace removed, in order. */
  lemma TokenizeByChunks(raw: string)
    ensures Tokenize(raw) == LexChunks(Chunks(Strip(raw)), OperatorsOf(Strip(raw)))
  {
    ScanByChunks([], "", raw);
    assert "" + Strip(raw) == Strip(raw);
    var r := LexChunks(Chunks(Strip(raw)), OperatorsOf(Strip(raw)));
    if r.Success? {
      assert [] + r.value == r.value;
    }
  }

  /** Lexing the chunks succeeds exactly when each is accepted, with the
      chunks' tokens interleaved with the operators. */
  lemma {:induction false} LexChunksSuccess(chunks: seq<string>, ops: seq<Token>)
    requires |chunks| == |ops| + 1
    ensures LexChunks(chunks, ops).Success? <==> forall i :: 0 <= i < |chunks| ==> Lexes(chunks[i])
    ensures LexChunks(chunks, ops).Success? ==> LexChunks(chunks, ops).value == Interleave(chunks, ops)
    decreases |ops|
  {
    if Lexes(chunks[0]) && ops != [] {
      var tail := chunks[1..];
      LexChunksSuccess(tail, ops[1..]);
      assert forall i :: 1 <= i < |chunks| ==> chunks[i] == tail[i - 1];
    }
  }

  /** A failure names the first chunk that is not accepted. */
  lemma {:induction false} LexChunksFailure(chunks: seq<string>, ops: seq<Token>)
    requires |chunks| == |ops| + 1 && LexChunks(chunks, ops).Failure?
    ensures exists i ::
      && 0 <= i < |chunks| && !Lexes(chunks[i]) && (forall j :: 0 <= j < i ==> Lexes(chunks[j]))
      && LexChunks(chunks, ops).error == UnrecognizedMessage(chunks[i], if i == |ops| then 2 else 1)
    decreases |ops|
  {
    if Lexes(chunks[0]) {
      var tail := chunks[1..];
      LexChunksFailure(tail, ops[1..]);
      var i :| 0 <= i < |tail| && !Lexes(tail[i]) && (forall j :: 0 <= j < i ==> Lexes(tail[j]))
        && LexChunks(tail, ops[1..]).error == UnrecognizedMessage(tail[i], if i == |ops[1..]| then 2 else 1);
      assert chunks[i + 1] == tail[i];
      assert forall j :: 1 <= j < i + 1 ==> chunks[j] == tail[j - 1];
    }
  }

  /** `tokenize_expr` succeeds exactly when every chunk of the input (the
      text between operators, whitespace removed) is empty or a token; the
      tokens are then those of the chunks, each followed by the token of
      the operator that ended it. Otherwise it fails on the first chunk that
      is no token, with code 2 when that chunk is the last and code 1 when
      an operator ended it. */
  lemma ChunksDecideTokenizing(raw: string)
    ensures var chunks, ops := Chunks(Strip(raw)), OperatorsOf(Strip(raw));
      && OperatorsOf(Strip(raw)) == OperatorsOf(raw)
      && (Tokenize(raw).Success? <==> forall i :: 0 <= i < |chunks| ==> Lexes(chunks[i]))
      && (Tokenize(raw).Success? ==> Tokenize(raw).value == Interleave(chunks, ops))
      && (Tokenize(raw).Failure? ==>
            exists i :: 0 <= i < |chunks| && !Lexes(chunks[i]) && (forall j :: 0 <= j < i ==> Lexes(chunks[j]))
              && Tokenize(raw).error == UnrecognizedMessage(chunks[i], if i == |ops| then 2 else 1))
  {
    OperatorsOfStrip(raw);
    TokenizeByChunks(raw);
    LexChunksSuccess(Chunks(Strip(raw)), OperatorsOf(Strip(raw)));
    if Tokenize(raw).Failure? {
      LexChunksFailure(Chunks(Strip(raw)), OperatorsOf(Strip(raw)));
    }
  }
}
