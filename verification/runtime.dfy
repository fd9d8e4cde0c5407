/** The interpreter (src/main.rs, struct Runtime and Runtime::run) as an
    explicit state machine: one `Step` is one iteration of the body of the
    `while self.has_next()` loop, and `Run` iterates it under a fuel bound.
    Every debug-mode panic of the source is a `Fault`. */
module Runtime {
  import opened Tokens

  /** Bounds of the source's `i32` cells. */
  const I32_MIN: int := -0x8000_0000
  const I32_MAX: int := 0x7FFF_FFFF

  predicate InI32(x: int) {
    I32_MIN <= x <= I32_MAX
  }

  /** The panics of `Runtime::run`, each with the program counter of the
      instruction that raised it. */
  datatype Fault =
    | CellOverflow(at: nat)         // `memory[mem_ptr] += 1` or `-= 1` leaves the `i32` range
    | PointerUnderflow(at: nat)     // `mem_ptr -= 1` with `mem_ptr == 0`
    | DepthUnderflow(at: nat)       // `loop_depth -= 1` or `loop_depth - 1` with `loop_depth == 0`
    | LoopIndexOutOfBounds(at: nat) // `loop_index[loop_depth - 1]` past the end of `loop_index`
    | InputUnimplemented(at: nat)   // the `todo!()` for `,`

  /** The fields of `Runtime` other than the program, plus the values
      printed so far. `pc` is the source's `index`. */
  datatype State = State(
    memory: seq<int>,
    memPtr: nat,
    pc: nat,
    loopIndex: seq<nat>,
    loopDepth: nat,
    output: seq<int>)

  datatype StepResult = Stepped(next: State) | Crashed(fault: Fault)

  /** How a bounded run ends: the loop guard failed, a panic (keeping what
      was printed before it), or the fuel ran out first. */
  datatype Outcome =
    | Halted(final: State)
    | Faulted(fault: Fault, printed: seq<int>)
    | OutOfFuel(state: State)

  /** The state `main` builds: empty tape, empty loop stack, everything 0. */
  const Init: State := State([], 0, 0, [], 0, [])

  /** The tape as the program sees it: cells not yet allocated read as 0. */
  function Cell(memory: seq<int>, i: nat): int {
    if i < |memory| then memory[i] else 0
  }

  /** `while self.memory.len() <= self.mem_ptr { self.memory.push(0) }`. */
  function Grow(memory: seq<int>, ptr: nat): (r: seq<int>)
    ensures |r| == if ptr < |memory| then |memory| else ptr + 1
    ensures forall i :: 0 <= i < |memory| ==> r[i] == memory[i]
    ensures forall i :: |memory| <= i < |r| ==> r[i] == 0
    decreases ptr + 1 - |memory|
  {
    if ptr < |memory| then memory else Grow(memory + [0], ptr)
  }

  /** `Vec::pop`, which leaves an empty vector as it is. */
  function Pop(stack: seq<nat>): (r: seq<nat>)
    ensures |stack| > 0 ==> r + [stack[|stack| - 1]] == stack
    ensures |stack| == 0 ==> r == []
  {
    if |stack| == 0 then stack else stack[..|stack| - 1]
  }

  /** One iteration of the loop of `Runtime::run`: grow the tape, execute
      the instruction at `pc`, advance `pc`. */
  function Step(prog: seq<Token>, s: State): (r: StepResult)
    requires s.pc < |prog|
    // the tape only grows, covers the pointer, and keeps every cell but the current one
    ensures r.Stepped? ==> |r.next.memory| >= |s.memory| && |r.next.memory| > s.memPtr
    ensures r.Stepped? ==> forall i :: 0 <= i < |s.memory| && i != s.memPtr ==> r.next.memory[i] == s.memory[i]
    // output is append-only
    ensures r.Stepped? ==> s.output <= r.next.output
    // pc advances by one, except for the backward jump of a `]` on a nonzero cell
    ensures r.Stepped? ==>
      || r.next.pc == s.pc + 1
      || (&& prog[s.pc] == EndLoop && Cell(s.memory, s.memPtr) != 0
          && 0 < s.loopDepth <= |s.loopIndex|
          && r.next.pc == s.loopIndex[s.loopDepth - 1] + 1)
  {
    var mem := Grow(s.memory, s.memPtr);
    var cell := mem[s.memPtr];
    var t := s.(memory := mem, pc := s.pc + 1);
    match prog[s.pc]
    case Plus =>
      if !InI32(cell + 1) then Crashed(CellOverflow(s.pc))
      else Stepped(t.(memory := mem[s.memPtr := cell + 1]))
    case Minus =>
      if !InI32(cell - 1) then Crashed(CellOverflow(s.pc))
      else Stepped(t.(memory := mem[s.memPtr := cell - 1]))
    case Right =>
      Stepped(t.(memPtr := s.memPtr + 1))
    case Left =>
      if s.memPtr == 0 then Crashed(PointerUnderflow(s.pc))
      else Stepped(t.(memPtr := s.memPtr - 1))
    case BeginLoop =>
      Stepped(t.(loopIndex := s.loopIndex + [s.pc], loopDepth := s.loopDepth + 1))
    case EndLoop =>
      if cell == 0 then
        if s.loopDepth == 0 then Crashed(DepthUnderflow(s.pc))
        else Stepped(t.(loopDepth := s.loopDepth - 1, loopIndex := Pop(s.loopIndex)))
      else if s.loopDepth == 0 then Crashed(DepthUnderflow(s.pc))
      else if s.loopDepth - 1 >= |s.loopIndex| then Crashed(LoopIndexOutOfBounds(s.pc))
      else Stepped(t.(pc := s.loopIndex[s.loopDepth - 1] + 1))
    case Input =>
      Crashed(InputUnimplemented(s.pc))
    case Output =>
      Stepped(t.(output := s.output + [cell]))
  }

  /** `Runtime::run` with at most `fuel` iterations of its loop. */
  function Run(prog: seq<Token>, s: State, fuel: nat): (r: Outcome)
    // the loop stops exactly when `has_next` is false
    ensures s.pc >= |prog| ==> r == Halted(s)
    ensures r.Halted? ==> r.final.pc >= |prog|
    ensures r.OutOfFuel? ==> r.state.pc < |prog|
    // nothing printed is ever taken back
    ensures r.Halted? ==> s.output <= r.final.output
    ensures r.Faulted? ==> s.output <= r.printed
    ensures r.OutOfFuel? ==> s.output <= r.state.output
    decreases fuel
  {
    if s.pc >= |prog| then Halted(s)
    else if fuel == 0 then OutOfFuel(s)
    else
      match Step(prog, s)
      case Crashed(f) => Faulted(f, s.output)
      case Stepped(t) => Run(prog, t, fuel - 1)
  }

  // ---------------------------------------------------------------------
  // What each instruction does, stated against the tape as the program
  // sees it (`Cell`), with everything else held fixed.
  // ---------------------------------------------------------------------

  /** Growing the tape changes no cell the program can observe. */
  lemma GrowKeepsTape(memory: seq<int>, ptr: nat, i: nat)
    ensures Cell(Grow(memory, ptr), i) == Cell(memory, i)
  {
  }

  /** `+` and `-` change only the current cell, by one, and fault exactly
      when the new value leaves the `i32` range. */
  lemma StepArith(prog: seq<Token>, s: State)
    requires s.pc < |prog| && (prog[s.pc] == Plus || prog[s.pc] == Minus)
    ensures var v := Cell(s.memory, s.memPtr) + (if prog[s.pc] == Plus then 1 else -1);
      && (Step(prog, s).Crashed? <==> !InI32(v))
      && (Step(prog, s).Crashed? ==> Step(prog, s).fault == CellOverflow(s.pc))
      && (Step(prog, s).Stepped? ==>
            var t := Step(prog, s).next;
            && Cell(t.memory, s.memPtr) == v
            && (forall i: nat :: i != s.memPtr ==> Cell(t.memory, i) == Cell(s.memory, i))
            && t.memPtr == s.memPtr && t.pc == s.pc + 1
            && t.loopIndex == s.loopIndex && t.loopDepth == s.loopDepth && t.output == s.output)
  {
  }

  /** `>` and `<` move the pointer by one and touch nothing else; `<` at
      cell 0 is a fault. */
  lemma StepMove(prog: seq<Token>, s: State)
    requires s.pc < |prog| && (prog[s.pc] == Right || prog[s.pc] == Left)
    ensures Step(prog, s).Crashed? <==> prog[s.pc] == Left && s.memPtr == 0
    ensures Step(prog, s).Crashed? ==> Step(prog, s).fault == PointerUnderflow(s.pc)
    ensures Step(prog, s).Stepped? ==>
      var t := Step(prog, s).next;
      && t.memPtr == (if prog[s.pc] == Right then s.memPtr + 1 else s.memPtr - 1)
      && (forall i: nat :: Cell(t.memory, i) == Cell(s.memory, i))
      && t.pc == s.pc + 1
      && t.loopIndex == s.loopIndex && t.loopDepth == s.loopDepth && t.output == s.output
  {
  }

  /** `[` never looks at the cell: it always pushes its own position and
      deepens the loop count. */
  lemma StepBeginLoop(prog: seq<Token>, s: State)
    requires s.pc < |prog| && prog[s.pc] == BeginLoop
    ensures Step(prog, s).Stepped?
    ensures var t := Step(prog, s).next;
      && t.loopIndex == s.loopIndex + [s.pc] && t.loopDepth == s.loopDepth + 1
      && (forall i: nat :: Cell(t.memory, i) == Cell(s.memory, i))
      && t.memPtr == s.memPtr && t.pc == s.pc + 1 && t.output == s.output
  {
  }

  /** The three outcomes of `]` when the loop stack and the depth agree:
      an empty stack faults; a zero cell pops and falls through; a nonzero
      cell keeps the stack and resumes just after the innermost open `[`. */
  lemma StepEndLoop(prog: seq<Token>, s: State)
    requires s.pc < |prog| && prog[s.pc] == EndLoop
    requires |s.loopIndex| == s.loopDepth
    ensures Step(prog, s).Crashed? <==> s.loopIndex == []
    ensures Step(prog, s).Crashed? ==> Step(prog, s).fault == DepthUnderflow(s.pc)
    ensures Step(prog, s).Stepped? ==>
      var t := Step(prog, s).next;
      && (forall i: nat :: Cell(t.memory, i) == Cell(s.memory, i))
      && t.memPtr == s.memPtr && t.output == s.output
      && if Cell(s.memory, s.memPtr) == 0 then
           && t.loopIndex + [s.loopIndex[|s.loopIndex| - 1]] == s.loopIndex
           && t.loopDepth == s.loopDepth - 1
           && t.pc == s.pc + 1
         else
           && t.loopIndex == s.loopIndex && t.loopDepth == s.loopDepth
           && t.pc == s.loopIndex[|s.loopIndex| - 1] + 1
  {
  }

  /** `.` appends the current cell to the output and changes nothing else. */
  lemma StepOutput(prog: seq<Token>, s: State)
    requires s.pc < |prog| && prog[s.pc] == Output
    ensures Step(prog, s).Stepped?
    ensures var t := Step(prog, s).next;
      && t.output == s.output + [Cell(s.memory, s.memPtr)]
      && (forall i: nat :: Cell(t.memory, i) == Cell(s.memory, i))
      && t.memPtr == s.memPtr && t.pc == s.pc + 1
      && t.loopIndex == s.loopIndex && t.loopDepth == s.loopDepth
  {
  }

  /** `,` always faults. */
  lemma StepInput(prog: seq<Token>, s: State)
    requires s.pc < |prog| && prog[s.pc] == Input
    ensures Step(prog, s) == Crashed(InputUnimplemented(s.pc))
  {
  }

  // ---------------------------------------------------------------------
  // The invariant every reachable state keeps.
  // ---------------------------------------------------------------------

  /** The loop stack and the depth counter agree, every stacked position is
      a `[` of the program, `pc` is at most one past the end, and every cell
      is an `i32`. */
  predicate Inv(prog: seq<Token>, s: State) {
    && |s.loopIndex| == s.loopDepth
    && s.pc <= |prog|
    && (forall k :: 0 <= k < |s.loopIndex| ==> s.loopIndex[k] < |prog| && prog[s.loopIndex[k]] == BeginLoop)
    && (forall i :: 0 <= i < |s.memory| ==> InI32(s.memory[i]))
  }

  lemma InitInv(prog: seq<Token>)
    ensures Inv(prog, Init)
  {
  }

  /** Every step keeps the invariant; under it the loop stack can never be
      indexed out of bounds, and a backward jump lands just after a `[`. */
  lemma StepKeepsInv(prog: seq<Token>, s: State)
    requires s.pc < |prog| && Inv(prog, s)
    ensures Step(prog, s).Crashed? ==> !Step(prog, s).fault.LoopIndexOutOfBounds?
    ensures Step(prog, s).Stepped? ==> Inv(prog, Step(prog, s).next)
    ensures Step(prog, s).Stepped? && Step(prog, s).next.pc != s.pc + 1 ==>
      prog[Step(prog, s).next.pc - 1] == BeginLoop
  {
    var r := Step(prog, s);
    if r.Stepped? {
      var t := r.next;
      var mem := Grow(s.memory, s.memPtr);
      assert forall i :: 0 <= i < |mem| ==> InI32(mem[i]) by {
        forall i | 0 <= i < |mem| ensures InI32(mem[i]) {
          if i < |s.memory| {
            assert mem[i] == s.memory[i];
          }
        }
      }
      if prog[s.pc] == EndLoop && Cell(s.memory, s.memPtr) == 0 {
        assert t.loopIndex + [s.loopIndex[|s.loopIndex| - 1]] == s.loopIndex;
        forall k | 0 <= k < |t.loopIndex|
          ensures t.loopIndex[k] < |prog| && prog[t.loopIndex[k]] == BeginLoop
        {
          assert t.loopIndex[k] == s.loopIndex[k];
        }
      }
    }
  }

  /** A run from an invariant state ends in an invariant state. */
  lemma {:induction false} RunKeepsInv(prog: seq<Token>, s: State, fuel: nat)
    requires Inv(prog, s)
    ensures Run(prog, s, fuel).Halted? ==> Inv(prog, Run(prog, s, fuel).final)
    ensures Run(prog, s, fuel).OutOfFuel? ==> Inv(prog, Run(prog, s, fuel).state)
    ensures Run(prog, s, fuel).Faulted? ==> !Run(prog, s, fuel).fault.LoopIndexOutOfBounds?
    decreases fuel
  {
    if s.pc < |prog| && fuel > 0 {
      StepKeepsInv(prog, s);
      if Step(prog, s).Stepped? {
        RunKeepsInv(prog, Step(prog, s).next, fuel - 1);
      }
    }
  }

  /** Running for `a + b` steps is running for `a` steps and, if that
      did not finish, `b` more from where it stopped. */
  lemma {:induction false} RunCompose(prog: seq<Token>, s: State, a: nat, b: nat)
    ensures Run(prog, s, a + b) ==
      match Run(prog, s, a)
      case OutOfFuel(t) => Run(prog, t, b)
      case done => done
    decreases a
  {
    if s.pc < |prog| && a > 0 && Step(prog, s).Stepped? {
      RunCompose(prog, Step(prog, s).next, a - 1, b);
    }
  }

  /** A run that finished with some fuel finishes the same way with more. */
  lemma RunMoreFuel(prog: seq<Token>, s: State, fuel: nat, extra: nat)
    requires !Run(prog, s, fuel).OutOfFuel?
    ensures Run(prog, s, fuel + extra) == Run(prog, s, fuel)
  {
    RunCompose(prog, s, fuel, extra);
  }
}
