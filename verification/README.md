# rustfuck in Dafny

A model of the Brainfuck interpreter `rustfuck` (one Rust file, `src/main.rs`):
its strict lexer (`Parser`) and its interpreter loop (`Runtime::run`), with
proofs about both.

- `tokens.dfy` (module `Tokens`) — the eight instructions (`Token`) and the
  fixed mapping between them and the characters `+ - > < [ ] , .`.
- `lexer.dfy` (module `Lexer`) — `Parser::new` deletes every space and newline;
  `Parser::parse` walks the cleaned text and maps each character to a token,
  panicking on the first character that is not a symbol. The panic is the
  `Failed(InvalidInput(ch, position))` result, and the position is an index
  into the cleaned text. `Lex` is the functional definition and `Parse` the
  loop as written; the two are proved equal.
- `runtime.dfy` (module `Runtime`) — the fields of `Runtime` as an immutable
  `State`; one iteration of the `while self.has_next()` loop as `Step`, which
  returns the next state or a `Fault`; and `Run`, which iterates `Step` under a
  fuel bound. Each debug-build panic of the source is a fault:
  - a cell leaving the `i32` range on `+` or `-`;
  - `mem_ptr -= 1` at 0;
  - `loop_depth -= 1` or `loop_depth - 1` at 0;
  - indexing `loop_index` past its end;
  - the `todo!()` for `,`.

  `print!` becomes appending the cell's value to an output sequence.
- `programs.dfy` (module `Programs`) — concrete runs. The main one is the
  regression fixture `>+++++++++[<++++++++>-]<.`, the opening of the program in
  `main`, which prints 72 and halts. There are also edge cases: a lone `]`, a
  lone `<`, `+++++[-]`, and `[-]` on a zero cell.

The model follows the code where the code departs from textbook Brainfuck:

- `[` never tests the cell. It always pushes its own position and deepens the
  loop count.
- A nonzero `]` sets the program counter to the stored position of the `[`.
  The increment at the end of the loop body then moves past it, so the body
  resumes after the `[` and the push is not repeated.
- As a consequence, a loop whose cell is zero on entry is not skipped.
  `[-]` on a zero cell counts down without ever halting, until the cell
  would leave the `i32` range and `-` faults with `CellOverflow`.

Other Brainfuck dialects use a lenient lexer that drops unknown characters,
comment lines and all whitespace; a `[` that skips the loop on a zero cell;
and re-entry *at* the `[`. This code does none of these, and the model
follows the code. Only spaces and newlines are
deleted, so a tab or carriage return is rejected like any other foreign
character. There is no comment syntax. `[` and `]` behave as above.

## Model

| member | source | states |
|---|---|---|
| Tokens.Symbol | src/main.rs:29-38 | a character stands for a token exactly when it is one of `+-><[],.`; every other character has no token |
| Tokens.Glyph | src/main.rs:30-37 | every token has a character that maps back to it |
| Tokens.GlyphOfSymbol | src/main.rs:30-37 | the mapping is injective: the character a token was read from is recovered from the token |
| Tokens.Render | src/main.rs:30-37 | rendering tokens gives one character per token, each mapping back to its token |
| Lexer.RemoveAll | src/main.rs:23 | `replace(c, "")` leaves no `c`, keeps exactly the other characters and never lengthens the text |
| Lexer.RemoveAllCounts | src/main.rs:23 | `replace(c, "")` keeps every other character with its multiplicity and drops every `c` |
| Lexer.Clean | src/main.rs:23 | the cleaned text holds exactly the characters of the source that are not a space or a newline |
| Lexer.CleanCounts | src/main.rs:23 | cleaning preserves the count of every non-blank character and removes every space and newline |
| Lexer.Scan | src/main.rs:28-41 | scanning from index `i` succeeds iff every later character is a symbol; on success token `k` is the symbol of character `i + k`; on failure it reports the first non-symbol character and its index |
| Lexer.Lex | src/main.rs:20-42 | `Parser::new(source).parse()`: success iff every cleaned character is a symbol, with as many tokens as cleaned characters in order; failure reports the first non-symbol of the cleaned text, a character of the source that is not blank |
| Lexer.Parse | src/main.rs:26-52 | the index loop with `has_next`/`next` computes exactly `Lex` |
| Lexer.LexFailsAtFirstForeign | src/main.rs:38 | lexing fails with the character and index of the first non-symbol of the cleaned text |
| Lexer.LexSucceedsIff | src/main.rs:23-38 | lexing succeeds iff every character of the raw source is a space, a newline or a symbol |
| Lexer.RemoveAllCons | src/main.rs:23 | removing `c` from a head and a tail removes it from each |
| Lexer.RemoveAllAppend | src/main.rs:23 | `replace(c, "")` distributes over concatenation |
| Lexer.RemoveAllAbsent | src/main.rs:23 | `replace(c, "")` leaves a text without `c` unchanged |
| Lexer.CleanAppend | src/main.rs:23 | cleaning distributes over concatenation |
| Lexer.BlankIsInvisible | src/main.rs:23 | inserting a space or newline anywhere changes neither the tokens nor the error |
| Lexer.BlankSourceLexesEmpty | src/main.rs:23-48 | a source of only spaces and newlines lexes to no tokens |
| Lexer.LexRender | src/main.rs:29-37 | lexing the rendering of a token sequence gives it back |
| Lexer.RenderLex | src/main.rs:23-42 | on success, rendering the tokens gives back the cleaned source |
| Runtime.Grow | src/main.rs:67-69 | the tape is extended with zero cells until it covers the pointer; existing cells are unchanged |
| Runtime.Pop | src/main.rs:82 | `Vec::pop` removes the last position, and leaves an empty stack empty |
| Runtime.Step | src/main.rs:66-93 | one iteration of the loop: the tape only grows and covers the pointer, no other cell than the current one changes, output is only appended, and `pc` advances by one except for the backward jump of a nonzero `]` to just after the stored `[` |
| Runtime.Run | src/main.rs:65-102 | the loop stops exactly when `pc` reaches the end of the program; a run that runs out of fuel is still inside the program; nothing printed is taken back |
| Runtime.GrowKeepsTape | src/main.rs:67-69 | growing changes no cell as the program reads it |
| Runtime.StepArith | src/main.rs:71-72 | `+`/`-` change only the current cell, by one, and fault iff the result leaves the `i32` range |
| Runtime.StepMove | src/main.rs:73-74 | `>`/`<` move only the pointer by one; `<` faults iff the pointer is 0 |
| Runtime.StepBeginLoop | src/main.rs:75-78 | `[` never faults and never looks at the cell: it pushes its position and deepens the count |
| Runtime.StepEndLoop | src/main.rs:79-87 | `]` faults iff the stack is empty; on a zero cell it pops and continues at pc+1; otherwise it keeps the stack and continues just after the innermost `[` |
| Runtime.StepOutput | src/main.rs:89 | `.` appends the current cell to the output and changes nothing else |
| Runtime.StepInput | src/main.rs:88 | `,` always faults |
| Runtime.InitInv | src/main.rs:111-117 | the initial state satisfies the invariant |
| Runtime.StepKeepsInv | src/main.rs:75-87 | each step keeps the stack length equal to `loop_depth`, every stacked position a `[`, `pc` within bounds and every cell an `i32`; under it the stack is never indexed out of bounds, and a jump lands just after a `[` |
| Runtime.RunKeepsInv | src/main.rs:65-95 | a whole run keeps the invariant and never faults on the loop stack index |
| Runtime.RunCompose | src/main.rs:65-94 | `a + b` iterations are `a` iterations followed by `b` more from where they stopped |
| Runtime.RunMoreFuel | src/main.rs:96-102 | a run that ended (halted or faulted) ends the same way with more fuel |
| Programs.StepThen | src/main.rs:66-93 | a step followed by a run is a run with one more unit of fuel |
| Programs.Chain | src/main.rs:65-94 | two runs that stop for fuel chain into one |
| Programs.EnoughFuel | src/main.rs:96-102 | a run that ended within `n` steps ends the same way with any fuel from `n` on |
| Programs.RunPluses | src/main.rs:71 | `k` consecutive `+` raise the current cell by `k` |
| Programs.RoundSteps | src/main.rs:73-93 | the `<`, `>`, `-` and `]` steps of the fixture's loop body |
| Programs.RoundTail | src/main.rs:72-73 | `>-` at the end of the fixture's loop body |
| Programs.RoundBody | src/main.rs:71-74 | the fixture's loop body adds 8 to cell 0 and decrements the counter |
| Programs.RoundAgain | src/main.rs:79-93 | a round that leaves the counter nonzero resumes just after `[` |
| Programs.RoundLast | src/main.rs:79-93 | the round that zeroes the counter pops the loop and falls through |
| Programs.IterateRounds | src/main.rs:79-93 | rounds of `k` steps, each adding 8, compose to `k * (b - 1)` steps adding `8 * (b - 1)` |
| Programs.RoundsThenHalt | src/main.rs:65-94 | the rounds followed by a halting stretch halt in its final state |
| Programs.HelloPrefixRounds | src/main.rs:108 | every round of the fixture's loop with the counter at least 2 |
| Programs.HelloPrefixText | src/main.rs:108 | the fixture's tokens are written `>+++++++++[<++++++++>-]<.` |
| Programs.HelloPrefixLexes | src/main.rs:108 | the fixture's source text lexes to the fixture's tokens |
| Programs.HelloPrefixSteps | src/main.rs:71-78 | the fixture's `>`, first `+` and `[` steps |
| Programs.HelloPrefixSetup | src/main.rs:108 | `>+++++++++[` sets cell 1 to 9 and enters the loop |
| Programs.HelloPrefixFinish | src/main.rs:74-89 | `<.` after the loop prints cell 0 and the program ends |
| Programs.HelloPrefixLastRound | src/main.rs:79-93 | the last round followed by `<.` prints what the round leaves in cell 0 |
| Programs.HelloPrefixFromLoop | src/main.rs:108 | from the loop top with cell 0 at `a` and counter `b`, the run prints `a + 8 * b` and halts |
| Programs.HelloPrefixRun | src/main.rs:108 | with 121 steps of fuel the fixture halts, having printed exactly `[72]` |
| Programs.HelloPrefixPrints72 | src/main.rs:108 | with any fuel from 121 on, `>+++++++++[<++++++++>-]<.` prints exactly 72 and halts |
| Programs.ThreePlusesPrint3 | src/main.rs:71-89 | `+++.` prints 3 |
| Programs.DrainSteps | src/main.rs:72-87 | the `-` and `]` steps inside `+++++[-]` |
| Programs.DrainRounds | src/main.rs:79-93 | inside `[-]`, a counter `c` drains to zero in `2 * c` steps and the loop exits |
| Programs.DrainLoopEndsAtZero | src/main.rs:71-93 | `+++++[-]` halts with the current cell 0 |
| Programs.LoneEndLoopFaults | src/main.rs:79-81 | `]` alone faults on the depth counter before printing anything |
| Programs.LoneLeftFaults | src/main.rs:74 | `<` alone faults on the pointer |
| Programs.ClearOnZeroNeverHalts | src/main.rs:75-87 | because `[` never tests the cell, `[-]` on a zero cell never halts, whatever the fuel: the run either runs out of fuel or faults with `CellOverflow` at the `-`, having printed nothing |
| Programs.InLoopNeverHalts | src/main.rs:79-93 | inside `[-]` with an `i32` cell at or below zero, a run only runs out of fuel or faults with `CellOverflow` at the `-`; no other fault and no halt |

## Left out

- `main` (src/main.rs:107-121) is left out. The model does not cover building the hard-coded program, the `eprintln!` of the parsed tokens, or the program after its first line's opening `>+++++++++[<++++++++>-]<.`. That opening is the regression fixture.
- `print!("{} ", …)` is not modelled as I/O or text formatting. Each printed value is appended to `output` as an integer.
- Input is not modelled. `,` is only the fault `InputUnimplemented`, because the source's `todo!()` never reads anything.
- Cells are unbounded integers that fault when they leave the `i32` range, as a debug build panics. The wrap-around of a release build is not modelled.
- Overflow of `usize` on `mem_ptr += 1`, `index += 1` and `loop_depth += 1` is not modelled. These counters are unbounded `nat`s, because reaching 2^64 would take more steps than any run can make.
- Run: non-termination is represented by the fuel bound. A run that needs more steps than its fuel ends in `OutOfFuel` with the state reached.
- The `.unwrap()` calls at src/main.rs:29 and src/main.rs:70 never fail behind their `has_next` guards. `Step` requires `pc < |prog|` instead, and `Run` only steps under that condition.
- The `_ => unreachable!()` arm at src/main.rs:90 has no counterpart, because the match on `Token` is exhaustive.
- Positions are indices into `seq<char>`, which matches the source's `chars().nth(index)`. The model does no Unicode processing beyond that.
