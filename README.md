# archmage-rs dice engine and campaign XP table, in Dafny

This project models two pieces of the archmage Discord bot.

**The `roll` expression engine** (src/command/roll/parser.rs):

- **Lexer.** `tokenize_expr` and `lex_token` turn a string into `Const`, `Die`, `Term`, `Factor` and `Group` tokens.
- **Parser.** `DiceParser` is a recursive-descent parser over a token list. It holds a cursor and an error list that only grows. Its grammar is:

  ```
  Expr    => Term
  Term    => Factor (('+'|'-') Factor)*
  Factor  => Primary (('*'|'/') Primary)*
  Primary => '(' Expr ')' | DIE | NUMBER
  ```
- **Evaluator.** It evaluates `AstConst`, `AstDie` and `AstOp` to an `i64` value and a trace string.
- **Handler.** A one-function account of how the `roll` command handler (src/command/roll/mod.rs) puts these stages together.

**The XP threshold table `CampaignLevels`** (src/model/campaign.rs): a map from level to the XP needed to reach that level. Its rule is that the XP strictly increases with the level.

## Modules

| file | module | contents |
|---|---|---|
| Wrappers.dfy | `Wrappers` | `Option` and `Result` |
| Int64.dfy | `Int64` | the range of `i64`, saturating arithmetic, truncating division, two's-complement wrap-around, `format!("{}")` and `parse::<i64>` |
| Lexer.dfy | `Lexer` | `Token` and `lex_token`; `tokenize_expr` as a function (`Tokenize`) and as a loop (`TokenizeExpr`); properties of its output; an independent account of tokenizing as lexing the chunks between operators |
| Parser.dfy | `Parser` | the grammar as functions over an explicit state `PState(cursor, errors)`; the `DiceParser` class, whose methods move `current` and push onto `errors`, each proved equal to its function |
| ParserFacts.dfy | `ParserFacts` | when parsing terminates and when it never does; left folding and operator precedence |
| Evaluator.dfy | `Evaluator` | `eval`, with the random generator replaced by a supply of rolls; the `AstDie::eval` loop; traces and bounds |
| Campaign.dfy | `Campaign` | `CampaignLevels` as a class over `map<u64, u64>`, and the table's rule |
| Roll.dfy | `Roll` | the `roll` handler: tokenize, parse, evaluate, report |
| Scenarios.dfy | `Scenarios` | worked inputs, followed from the raw text to what the user sees |

## Outcomes that the source does not signal as errors

Each behaviour below follows the code as written.

- **Non-termination.**
  - At the last token, `consume` returns that token without moving.
  - A parse whose cursor reaches a trailing `+`, `-`, `*`, `/` or `(` therefore never returns an answer.
  - On `"2+"` the loop of `term` turns forever, and each turn pushes one more "Could not parse input" and builds one more `AstOp`, so memory grows without bound.
  - On `"("` the recursion `primary` → `expr` → `term` → `factor` → `primary` is not a tail call, so it overflows the thread's stack and the process aborts.
  - An input that ends in such a token but whose parse stops before the cursor gets there is answered: `"2(+"` gives 2 (`Scenarios.StopsBeforeTrailingOperator`).
  - Each grammar function takes a `fuel` bound, and running out of it is the outcome `Diverged`.
  - `ParserFacts.ExprAtEnd` proves that a parse from a trailing operator or `(` diverges for every fuel.
  - `ParserFacts.ParseStops` proves that a token list ending in a number, a die or `)` always finishes.
  - `ParserFacts.ExprMonotone` proves that more fuel never changes an answer once there is one.
- **Empty input.** An empty or all-whitespace input yields no tokens, and `peek` then indexes out of bounds. This is the outcome `Crashes(IndexPanic)`.
- **Overlong constant.** A constant too large for `i64` makes `unwrap` panic. This is the outcome `Panicked(UnwrapPanic)`.
- **Unchecked die sum.** The sum of a die's rolls is unchecked. A release build wraps it (`Int64.Wrap`); a debug build would panic instead.
- **Die error branches.**
  - The "Code 3" branch of `primary` needs a non-ASCII `\d` digit after the `d`. On ASCII digits it cannot be reached (`Parser.DieOfDigits`).
  - The "not purely numeric" branch is reached by a count or side count too large for `i64`, and by a count written with non-ASCII `\d` digits, such as `"٣d6"` (`Parser.NonAsciiCount`).
- **Unchecked trailing tokens.** Text after a complete expression is not checked: parsing stops where the grammar stops.
- **Empty rejection message.** A rejected `add_level` can carry an empty message, when the conflicting levels are not the adjacent ones (`Campaign.SilentRejection`).

Where the comments in the code and the code itself differ, the model follows the code. The comments at src/command/roll/parser.rs:223-224 and :248-249 say that parsing a constant or a die's numbers never fails, because the tokenizer checks that the text is numeric. In the code, `parse::<i64>().unwrap()` panics on a constant too large for `i64`. The die branch records "not purely numeric" for a part that is too large or that is written with non-ASCII `\d` digits.

## Model

| member | source | states |
|---|---|---|
| Int64.Clamp | src/command/roll/parser.rs:389-394 | the result is an `i64`; it is the exact value when that fits, and otherwise the nearest bound (the saturation of `saturating_add`, `_sub`, `_mul`) |
| Int64.Wrap | src/command/roll/parser.rs:366 | the result is an `i64` congruent to the exact sum modulo 2^64, and it equals the sum when the sum fits (release-build `Iterator::sum`) |
| Int64.TruncDivIsTruncating | src/command/roll/parser.rs:399 | the quotient leaves a remainder smaller than the divisor with the sign of the dividend (Rust's division toward zero) |
| Int64.SaturatingDivOnlyClampsMinByMinusOne | src/command/roll/parser.rs:399 | on `i64` operands, `saturating_div` equals truncating division except `MIN / -1`, which gives `MAX` |
| Int64.ParseI64OfIntToString | src/command/roll/parser.rs:357 | parsing the decimal text of any `i64` gives the value back |
| Int64.ParseI64 | src/command/roll/parser.rs:225 | `parse::<i64>` gives, when it succeeds, a value of the type |
| Int64.ParseI64Accepts | src/command/roll/parser.rs:250-261 | a text parses to `v` exactly when `v` fits `i64` and the text is a sign that agrees with `v` (none or `+` for `v >= 0`, `-` for `v <= 0`), any number of leading zeros, and the decimal digits of the magnitude of `v` |
| Int64.ParsedIsForm | src/command/roll/parser.rs:250-261 | a text that parses is its sign, then zeros, then the decimal digits of the magnitude of the value it parses to |
| Int64.FormIsParsed | src/command/roll/parser.rs:250-261 | a sign that agrees with an `i64` value, any zeros and the digits of its magnitude parse to that value |
| Lexer.Token.Id | src/command/roll/parser.rs:38-47 | the variant number is one of 0..4 |
| Lexer.IdComparesVariantOnly | src/command/roll/parser.rs:35-47 | two tokens have equal `id` exactly when they are the same variant, whatever their text |
| Lexer.OpToken | src/command/roll/parser.rs:85-90 | an operator character becomes a one-character token: Group for parentheses, Factor for `* /`, Term for `+ -` |
| Lexer.MatchesDieIsDiePattern | src/command/roll/parser.rs:126-129 | the hand-written matcher accepts exactly the texts that match `^\d*d\d+$` |
| Lexer.LexToken | src/command/roll/parser.rs:118-140 | a chunk is a token exactly when it is all ASCII digits (Const) or matches the die pattern (Die, with a leading `d` written as `1d`) |
| Lexer.ScanFailedStays | src/command/roll/parser.rs:73-80 | once a chunk fails, the rest of the input cannot change the error |
| Lexer.TokenizeExpr | src/command/roll/parser.rs:61-114 | the character loop with its buffer returns exactly what `Tokenize` specifies |
| Lexer.TokensWellFormed | src/command/roll/parser.rs:65-111 | every token of a successful tokenization is well formed (digit Consts, die-pattern Dice with an explicit count, one-character operators) and contains none of the six skipped whitespace characters |
| Lexer.OperatorsInInputOrder | src/command/roll/parser.rs:71-94 | the operator and parenthesis tokens are exactly the operator characters of the input, as tokens, in input order |
| Lexer.PendingIsTrailingChunk | src/command/roll/parser.rs:65-99 | the pending buffer holds the non-whitespace characters after the last operator |
| Lexer.FailureNamesChunk | src/command/roll/parser.rs:73-110 | a failed tokenization names the chunk that failed: Code 1 for a chunk ended by an operator, Code 2 for the chunk at the end of the input |
| Lexer.TokenizeByChunks | src/command/roll/parser.rs:61-114 | the character loop emits, for each run of non-operator characters, the token of that chunk before the operator that ends it, and fails on the first chunk that does not lex |
| Lexer.LexChunksSuccess | src/command/roll/parser.rs:73-110 | the chunks tokenize exactly when every non-empty chunk lexes, and the tokens are then the chunk tokens interleaved with the operator tokens |
| Lexer.LexChunksFailure | src/command/roll/parser.rs:73-110 | a failure names the first chunk that does not lex, with Code 2 when it is the last chunk and Code 1 otherwise |
| Lexer.ChunksDecideTokenizing | src/command/roll/parser.rs:61-114 | `tokenize_expr` succeeds exactly when every non-empty whitespace-free chunk between operators lexes; its tokens are those chunks' tokens interleaved with the operators' tokens; a failure names the first chunk that does not lex |
| Parser.ConsumeAt | src/command/roll/parser.rs:296-320 | `consume` returns the token under the cursor and advances by exactly one, except on the last token, where the cursor stays; the errors are untouched |
| Parser.ParseExpr | src/command/roll/parser.rs:179-181 | the cursor stays on a token and never moves back, the error list only grows, and on lexer output the tree is well formed |
| Parser.ParseTerm | src/command/roll/parser.rs:184-198 | the same, for `term` |
| Parser.TermTail | src/command/roll/parser.rs:187-195 | the same, for the loop of `term`, given a well-formed left operand |
| Parser.ParseFactor | src/command/roll/parser.rs:201-215 | the same, for `factor` |
| Parser.FactorTail | src/command/roll/parser.rs:204-212 | the same, for the loop of `factor` |
| Parser.ParsePrimary | src/command/roll/parser.rs:218-292 | the same, for `primary` |
| Parser.DieFromTextWellFormed | src/command/roll/parser.rs:228-272 | a Die token from the lexer gives a tree with a non-negative count and side count |
| Parser.DieOfDigits | src/command/roll/parser.rs:231-272 | `<count>d<sides>` in ASCII digits gives the die it names, with 0 for each number too large for `i64`; there is exactly one "not purely numeric" message per such number and no other message |
| Parser.NonAsciiCount | src/command/roll/parser.rs:248-258 | `"٣d6"` lexes as a die, and its count, not parsable by `parse::<i64>`, gives count 0 and one "not purely numeric" message |
| Parser.NonAsciiSides | src/command/roll/parser.rs:231-240 | `"6d٣"` lexes as a die, and its non-ASCII side count gives the constant 0 and the Code 3 message |
| Parser.DieCode3 | src/command/roll/parser.rs:233-240 | a die the lexer produced yields `AstConst(0)` and exactly one Code 3 message if and only if its side count holds a character that is not an ASCII digit |
| Parser.Split | src/command/roll/parser.rs:231 | `split('d')` gives at least one piece |
| Parser.SplitJoinsBack | src/command/roll/parser.rs:231 | the pieces contain no `d` and join back, with `d` between them, into the text |
| Parser.DiceParser.FromTokens | src/command/roll/parser.rs:166-172 | a parser starts at cursor 0 with no errors |
| Parser.DiceParser.New | src/command/roll/parser.rs:162-164 | the parser holds the tokens of the input, or the lexer's error is returned |
| Parser.DiceParser.Consume | src/command/roll/parser.rs:296-304 | the method moves `current` as `ConsumeAt` does, and returns the same token |
| Parser.DiceParser.Expr | src/command/roll/parser.rs:179-181 | the result and the new cursor and error list are those of `ParseExpr` |
| Parser.DiceParser.Term | src/command/roll/parser.rs:184-198 | the `while` loop gives the result and state of `ParseTerm` |
| Parser.DiceParser.Factor | src/command/roll/parser.rs:201-215 | the `while` loop gives the result and state of `ParseFactor` |
| Parser.DiceParser.DieNode | src/command/roll/parser.rs:228-272 | the die branch appends to `errors` exactly the messages `DieFromText` gives, and returns its tree |
| Parser.DiceParser.Primary | src/command/roll/parser.rs:218-292 | the result and state are those of `ParsePrimary` |
| ParserFacts.ParseStops | src/command/roll/parser.rs:179-320 | on tokens ending in a number, a die or `)`, parsing from the start finishes within four levels of fuel per token |
| ParserFacts.ExprStops | src/command/roll/parser.rs:179-292 | on tokens ending in a number, a die or `)`, from any cursor position, `expr` finishes given fuel proportional to the tokens that remain |
| ParserFacts.ExprAtEnd | src/command/roll/parser.rs:296-304 | a parse whose cursor reaches a trailing operator or `(` never finishes, whatever the fuel |
| ParserFacts.TermTailAtEnd | src/command/roll/parser.rs:187-189 | on a trailing `+`/`-` the loop of `term` never ends; on anything else it does not start |
| ParserFacts.FactorAtEnd | src/command/roll/parser.rs:201-215 | on a trailing `+`/`-` a factor yields `AstConst(0)` with the cursor in place and "Could not parse input" appended to the errors; on a trailing `*`, `/` or `(` it never finishes |
| ParserFacts.PrimaryAtEnd | src/command/roll/parser.rs:275-291 | on a trailing `(` `primary` recurses without end; on a trailing operator it records "Could not parse input" and yields 0 |
| ParserFacts.PrimaryUnrecognised | src/command/roll/parser.rs:289-291 | at any cursor, a primary on `+`, `-`, `*`, `/` or `)` consumes nothing, appends one "Could not parse input" and yields `AstConst(0)` |
| ParserFacts.ExprMonotone | src/command/roll/parser.rs:179-181 | once `expr` gives an answer on some fuel, every larger fuel gives the same answer |
| ParserFacts.TermMonotone | src/command/roll/parser.rs:184-198 | the same, for `term` |
| ParserFacts.TermTailMonotone | src/command/roll/parser.rs:187-195 | the same, for the loop of `term` |
| ParserFacts.FactorMonotone | src/command/roll/parser.rs:201-215 | the same, for `factor` |
| ParserFacts.FactorTailMonotone | src/command/roll/parser.rs:204-212 | the same, for the loop of `factor` |
| ParserFacts.PrimaryMonotone | src/command/roll/parser.rs:218-292 | the same, for `primary` |
| ParserFacts.ParseAnswerIsUnique | src/command/roll/parser.rs:179-181 | any two budgets that both give an answer for a token list give the same answer |
| ParserFacts.GroupMatched | src/command/roll/parser.rs:274-283 | a `(` whose inner expression is followed by `)` yields the inner tree, with the `)` consumed and no error of its own |
| ParserFacts.GroupUnmatched | src/command/roll/parser.rs:274-287 | a `(` whose inner expression is not followed by `)` yields `AstConst(0)` and appends exactly one "Unmatched parenthesis" |
| ParserFacts.FactorTailFolds | src/command/roll/parser.rs:204-212 | a run of `* /` links folds into the tree to the left, and the cursor ends after the last number |
| ParserFacts.ProductParses | src/command/roll/parser.rs:201-215 | the tokens of a product parse, as a factor, into its left-folded tree |
| ParserFacts.TermTailFolds | src/command/roll/parser.rs:187-195 | a run of `+ -` links, each to a product, folds into the tree to the left |
| ParserFacts.SumParses | src/command/roll/parser.rs:148-215 | the tokens of any sum of products of numbers parse into the tree that folds each chain to the left with products grouped first, with no errors |
| ParserFacts.SumParsesAt | src/command/roll/parser.rs:148-215 | the same, for a sum starting at any cursor and followed by the end of the list or by a token that is not an operator, keeping the errors already recorded |
| Evaluator.Eval | src/command/roll/parser.rs:333-406 | the value of a well-formed tree is an `i64` |
| Evaluator.RollDie | src/command/roll/parser.rs:347-367 | the loop over the rolls builds the value and trace `Eval` gives a die |
| Evaluator.DieTraceListsRolls | src/command/roll/parser.rs:347-367 | a die draws exactly `count` rolls, each in `[1, sides]`, and its trace reads back as those rolls in draw order; when the total cannot overflow, the value is their sum, between `count` and `count * sides`; count 0 gives `(0, "[]")` |
| Evaluator.DecodeJoinRolls | src/command/roll/parser.rs:357-360 | the `", "`-joined list of rolls reads back as the rolls |
| Evaluator.Apply | src/command/roll/parser.rs:379-406 | `+ - *` give the exact result clamped to `i64`; `/` truncates toward zero, with `MIN / -1` clamped; the trace is `"<l> <op> <r>"`, except that division by zero gives `(0, "ERROR: DIVIDE BY ZERO")` |
| Evaluator.SomeSupplyFits | src/command/roll/parser.rs:354-355 | some supply of rolls fits a tree exactly when the tree has no die with a positive count and no sides |
| Campaign.CampaignLevels.New | src/model/campaign.rs:56-82 | the table holds the twenty 3.5e thresholds, and it satisfies the table's rule (`Valid`) |
| Campaign.CampaignLevels.Empty | src/model/campaign.rs:84-86 | the table is empty, and so satisfies the rule |
| Campaign.CampaignLevels.AddLevel | src/model/campaign.rs:93-141 | Ok exactly when every level below needs less XP and every level above needs more; on Ok the entry is set, on Err the table is unchanged and the message is the neighbour hint; a table that satisfies the rule still does |
| Campaign.CampaignLevels.RemoveLevel | src/model/campaign.rs:144-149 | a present level is removed and its pair returned; otherwise Err and nothing changes; the rule is kept |
| Campaign.CampaignLevels.XpFromLevel | src/model/campaign.rs:153-155 | None exactly when the level is absent, otherwise its threshold |
| Campaign.CampaignLevels.LevelFromXp | src/model/campaign.rs:159-176 | None exactly on an empty table; otherwise the level the ascending walk stops at: the greatest level reached without passing a higher threshold, or 1; on a table that satisfies the rule, the greatest level whose threshold is at most `xp`, or 1 |
| Campaign.FitsAtIffStaysIncreasing | src/model/campaign.rs:88-108 | on an increasing table, the check of `add_level` accepts exactly the entries that keep it increasing |
| Campaign.UpdatesKeepIncreasing | src/model/campaign.rs:93-149 | `add_level`, accepted or rejected, and `remove_level` keep the table increasing |
| Campaign.LevelForIncreasing | src/model/campaign.rs:157-176 | on an increasing table, `level_from_xp` answers the greatest level whose threshold is at most `xp`, or 1 |
| Campaign.LevelForUnique | src/model/campaign.rs:159-176 | `level_from_xp` has exactly one answer |
| Campaign.ThresholdLeadsBack | src/model/campaign.rs:151-176 | on an increasing table, `level_from_xp(xp_from_level(l)) == l` for every level present |
| Campaign.StandardRoundTrip | src/model/campaign.rs:214-258 | the round trip holds for levels 1 to 20 of the standard table |
| Campaign.SilentRejection | src/model/campaign.rs:110-136 | rejecting XP 50 at level 5 of `{1: 0, 3: 100}` gives an empty message |
| Campaign.RejectionMessage | src/model/campaign.rs:110-136 | the rejection message is empty exactly when neither `level - 1` nor `level + 1` is in the table |
| Campaign.EditLevelChecks | src/model/campaign.rs:183-212 | the accept/reject decisions of `test_campaign_levels_edit_level` |
| Campaign.EditLevels | src/model/campaign.rs:183-212 | the seven edits of `test_campaign_levels_edit_level`, run on one table, are accepted, accepted, refused, accepted, refused, accepted, accepted, and leave `{1: 25}` |
| Campaign.XpConversion | src/model/campaign.rs:214-258 | on the standard table, each level 1 to 20 has its threshold, and `level_from_xp` of that threshold gives the level back |
| Roll.RollHandler | src/command/roll/mod.rs:71-134 | the handler answers the lexer's error, the first parse error, or the value and trace, as `Respond` specifies |
| Scenarios.SubtractionFoldsLeft | src/command/roll/parser.rs:184-198 | `5-3-1` shows 1: subtraction folds to the left |
| Scenarios.ProductsBindFirst | src/command/roll/parser.rs:148-215 | `2+3*4` shows 14 with trace `2 + 3 * 4` |
| Scenarios.GroupBindsFirst | src/command/roll/parser.rs:274-283 | `(2+3)*4` shows 20; the trace, `2 + 3 * 4`, has no parentheses |
| Scenarios.StopsBeforeTrailingOperator | src/command/roll/parser.rs:187-212 | `2(+` shows 2: the parse stops before the cursor reaches the trailing `+` |
| Scenarios.StrayCloseReported | src/command/roll/parser.rs:289-291 | `2+)3` is answered with "Could not parse input", raised by a `)` that is not the last token |
| Scenarios.DivisionByZeroMarked | src/command/roll/parser.rs:395-398 | `4/0` shows 0 with the divide-by-zero marker as its trace |
| Scenarios.UnclosedGroupReported | src/command/roll/parser.rs:281-287 | `(2` is answered with "Unmatched parenthesis" |
| Scenarios.StrayCharacterRejected | src/command/roll/parser.rs:103-110 | `2+@` fails in the lexer with the Code 2 message naming `@` |
| Scenarios.TrailingPlusHangs | src/command/roll/parser.rs:187-189 | `2+` is never answered, whatever the fuel |
| Scenarios.LoneParenHangs | src/command/roll/parser.rs:275-279 | `(` is never answered, whatever the fuel |
| Scenarios.EmptyInputCrashes | src/command/roll/parser.rs:312-314 | the empty input crashes on the out-of-bounds `peek` |
| Scenarios.BareDieRollsOnce | src/command/roll/parser.rs:131-137 | `d6` is rolled as `1d6`: a roll of 4 shows 4 with trace `[4]` |

## Left out

- Randomness: `rand::thread_rng` and `gen_range` are replaced by a supply of rolls. Each roll lies in `[1, sides]`, and the rolls are taken left before right (`Evaluator.Fits`).
- Roll.RollHandler: requires a roll supply that fits the parsed tree. A die with a positive count and no sides (`1d0`) makes `gen_range(1..=0)` panic, and that panic is not an outcome of the model. `Evaluator.SomeSupplyFits` characterises the trees it excludes.
- Evaluator.Eval: requires a well-formed tree, which rules out the `unreachable!` panics on unknown operators. `Lexer.TokensWellFormed` and the `BuildsWellFormed` ensures of the grammar functions show that trees parsed from lexer output are well formed.
- Parser.DiceParser.Expr: requires a non-empty token list, and so do `Term`, `Factor`, `Primary` and `Consume`. The out-of-bounds panic of `peek` on an empty list is modelled in `Roll.Respond` as `Crashes(IndexPanic)`.
- Non-termination is bounded by fuel. A parse that needs more fuel than it is given ends in `Diverged`, the same outcome as a parse that never ends. `Diverged`, and `Hangs` in `Roll.Respond`, stand for two different failures of the program: an endless loop whose memory grows with every turn (`"2+"`), and a stack overflow that aborts the whole process (`"("`). The model does not tell them apart, and it models neither memory nor stack depth. `ParserFacts.ExprMonotone` shows that an answer on one budget is the answer on every larger one; `ParserFacts.ExprAtEnd` shows divergence on every budget once the cursor is on a trailing operator or `(`; `ParserFacts.ParseStops` gives a budget that suffices for lists ending in a number, a die or `)`. Between these, a `Diverged` on one budget does not by itself say whether a larger budget would give an answer.
- Unicode digits: the regex `\d` matches every Unicode decimal digit. The model lists ASCII and four other digit blocks (Arabic-Indic, Extended Arabic-Indic, Devanagari, Fullwidth).
- Debug builds: the model uses release-build arithmetic. An overflowing die sum wraps instead of panicking, and `level - 1` / `level + 1` in the `add_level` message wrap on `u64`.
- `Vec::with_capacity` in `AstDie::eval` only reserves memory and does not affect the result. Memory exhaustion for huge counts is not modelled.
- Panic messages are modelled as fixed strings.
- The `Display` impl of `Token` is modelled as the token's text (`Token.Value`).
- The `Campaign` record, its constructor and the serde derives carry no logic.
- Discord rendering in src/command/roll/mod.rs (embeds, colours, timestamps, the title with the user name) is not part of this model. Only the order of its checks is kept.
- `check`, `peek` and `is_at_end` are modelled as plain functions (`Parser.Check`, `Parser.Peek`, `Parser.IsAtEnd`) with no contracts of their own. Their behaviour is stated through `Parser.ConsumeAt` and the grammar.
- ParserFacts.SumParses: the left-fold and precedence result covers chains whose operands are numbers. A chain with a die operand is not covered by a general lemma. A parenthesised operand is covered only through the group lemmas (`ParserFacts.GroupMatched`, `ParserFacts.GroupUnmatched`) and the `Scenarios.GroupBindsFirst` scenario.

