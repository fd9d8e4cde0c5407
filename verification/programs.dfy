/** Concrete programs run through the model: the opening of the program
    hard-coded in `main` (src/main.rs:108), whose first printed value is 72,
    and the small edge cases of the interpreter. */
module Programs {
  import opened Tokens
  import opened Lexer
  import opened Runtime

  /** One step that neither halts nor faults, followed by a run. */
  lemma {:induction false} StepThen(prog: seq<Token>, s: State, t: State, n: nat, m: nat, x: Outcome)
    requires s.pc < |prog| && Step(prog, s) == Stepped(t)
    requires Run(prog, t, n) == x && m == n + 1
    ensures Run(prog, s, m) == x
  {
  }

  /** Two runs that stop for lack of fuel, one after the other. */
  lemma {:induction false} Chain(prog: seq<Token>, s: State, t: State, n1: nat, n2: nat, n: nat, x: Outcome)
    requires Run(prog, s, n1) == OutOfFuel(t)
    requires Run(prog, t, n2) == x
    requires n == n1 + n2
    ensures Run(prog, s, n) == x
  {
    RunCompose(prog, s, n1, n2);
  }

  /** A run that ends within `n` steps ends the same way with any more fuel. */
  lemma EnoughFuel(prog: seq<Token>, s: State, n: nat, fuel: nat, x: Outcome)
    requires Run(prog, s, n) == x && !x.OutOfFuel? && n <= fuel
    ensures Run(prog, s, fuel) == x
  {
    RunMoreFuel(prog, s, n, fuel - n);
  }

  /** `k` consecutive `+` starting at `pc` raise the current cell to `c`,
      `k` above its value. */
  lemma {:induction false} RunPluses(prog: seq<Token>, s: State, k: nat, c: int)
    requires s.pc + k < |prog|
    requires forall i :: s.pc <= i < s.pc + k ==> prog[i] == Plus
    requires s.memPtr < |s.memory| && InI32(s.memory[s.memPtr]) && InI32(c)
    requires c == s.memory[s.memPtr] + k
    ensures Run(prog, s, k) == OutOfFuel(s.(memory := s.memory[s.memPtr := c], pc := s.pc + k))
    decreases k
  {
    var u := s.(memory := s.memory[s.memPtr := c], pc := s.pc + k);
    if k == 0 {
      assert s.memory[s.memPtr := c] == s.memory;
    } else {
      var t := s.(memory := s.memory[s.memPtr := s.memory[s.memPtr] + 1], pc := s.pc + 1);
      assert Step(prog, s) == Stepped(t);
      RunPluses(prog, t, k - 1, c);
      assert t.(memory := t.memory[t.memPtr := c], pc := t.pc + (k - 1)) == u;
      StepThen(prog, s, t, k - 1, k, OutOfFuel(u));
    }
  }

  /** `>+++++++++[<++++++++>-]<.`: cell 1 counts down from 9 while cell 0
      gains 8 per round, then cell 0 is printed. */
  const HelloPrefix: seq<Token> := seq(25, HelloAt)

  /** The token at index `i` of `HelloPrefix`, as a table rather than a
      sequence display so that indexing it stays cheap for the verifier. */
  function HelloAt(i: int): Token {
    if i == 0 then Right
    else if 1 <= i <= 9 then Plus
    else if i == 10 then BeginLoop
    else if i == 11 then Left
    else if 12 <= i <= 19 then Plus
    else if i == 20 then Right
    else if i == 21 then Minus
    else if i == 22 then EndLoop
    else if i == 23 then Left
    else Output
  }

  /** The state at the top of the loop body with cell 0 holding `a` and
      the counter in cell 1 holding `b`. */
  function LoopTop(a: int, b: int): State {
    State([a, b], 1, 11, [10], 1, [])
  }

  /** The state just after the loop, with cell 0 holding `a`. */
  function LoopExit(a: int): State {
    State([a, 0], 1, 23, [], 0, [])
  }

  /** The single steps of one round that are not `+`: `<`, `>`, `-`, `]`. */
  lemma {:induction false} RoundSteps(a: int, b: int)
    requires 0 <= a && a + 8 <= I32_MAX && 1 <= b <= I32_MAX
    ensures Step(HelloPrefix, LoopTop(a, b)) == Stepped(State([a, b], 0, 12, [10], 1, []))
    ensures Step(HelloPrefix, State([a + 8, b], 0, 20, [10], 1, [])) == Stepped(State([a + 8, b], 1, 21, [10], 1, []))
    ensures Step(HelloPrefix, State([a + 8, b], 1, 21, [10], 1, [])) == Stepped(State([a + 8, b - 1], 1, 22, [10], 1, []))
    ensures b >= 2 ==> Step(HelloPrefix, State([a + 8, b - 1], 1, 22, [10], 1, [])) == Stepped(LoopTop(a + 8, b - 1))
    ensures b == 1 ==> Step(HelloPrefix, State([a + 8, b - 1], 1, 22, [10], 1, [])) == Stepped(LoopExit(a + 8))
  {
  }

  // The lemmas below take their step counts as parameters rather than as
  // numerals: a numeral fuel over the fully known program invites the
  // verifier to unfold `Run` far more than the proofs need.

  /** `>-` at the end of a round body. */
  lemma {:induction false} RoundTail(a: int, b: int, n: nat)
    requires 0 <= a && a + 8 <= I32_MAX && 1 <= b <= I32_MAX && n == 2
    ensures Run(HelloPrefix, State([a + 8, b], 0, 20, [10], 1, []), n)
         == OutOfFuel(State([a + 8, b - 1], 1, 22, [10], 1, []))
  {
    var s9 := State([a + 8, b], 0, 20, [10], 1, []);
    var s10 := State([a + 8, b], 1, 21, [10], 1, []);
    var s11 := State([a + 8, b - 1], 1, 22, [10], 1, []);
    RoundSteps(a, b);
    StepThen(HelloPrefix, s10, s11, n - 2, n - 1, OutOfFuel(s11));
    StepThen(HelloPrefix, s9, s10, n - 1, n, OutOfFuel(s11));
  }

  /** The first eleven instructions of a round, `<++++++++>-`, up to `]`. */
  lemma {:induction false} RoundBody(a: int, b: int, n: nat)
    requires 0 <= a && a + 8 <= I32_MAX && 1 <= b <= I32_MAX && n == 11
    ensures Run(HelloPrefix, LoopTop(a, b), n) == OutOfFuel(State([a + 8, b - 1], 1, 22, [10], 1, []))
  {
    var s1 := State([a, b], 0, 12, [10], 1, []);
    var s9 := State([a + 8, b], 0, 20, [10], 1, []);
    var s11 := State([a + 8, b - 1], 1, 22, [10], 1, []);
    RoundSteps(a, b);
    RoundTail(a, b, n - 9);
    RunPluses(HelloPrefix, s1, n - 3, a + 8);
    assert s1.(memory := s1.memory[0 := a + 8], pc := s1.pc + (n - 3)) == s9;
    Chain(HelloPrefix, s1, s9, n - 3, n - 9, n - 1, OutOfFuel(s11));
    StepThen(HelloPrefix, LoopTop(a, b), s1, n - 1, n, OutOfFuel(s11));
  }

  /** A round that leaves the counter nonzero jumps back to just after `[`. */
  lemma {:induction false} RoundAgain(a: int, b: int, n: nat)
    requires 0 <= a && a + 8 <= I32_MAX && 2 <= b <= I32_MAX && n == 12
    ensures Run(HelloPrefix, LoopTop(a, b), n) == OutOfFuel(LoopTop(a + 8, b - 1))
  {
    var s11 := State([a + 8, b - 1], 1, 22, [10], 1, []);
    var t := LoopTop(a + 8, b - 1);
    RoundSteps(a, b);
    RoundBody(a, b, n - 1);
    StepThen(HelloPrefix, s11, t, n - 12, n - 11, OutOfFuel(t));
    Chain(HelloPrefix, LoopTop(a, b), s11, n - 1, n - 11, n, OutOfFuel(t));
  }

  /** The round that brings the counter to zero pops the loop and falls
      through. */
  lemma {:induction false} RoundLast(a: int, n: nat)
    requires 0 <= a && a + 8 <= I32_MAX && n == 12
    ensures Run(HelloPrefix, LoopTop(a, 1), n) == OutOfFuel(LoopExit(a + 8))
  {
    var s11 := State([a + 8, 0], 1, 22, [10], 1, []);
    var t := LoopExit(a + 8);
    RoundSteps(a, 1);
    RoundBody(a, 1, n - 1);
    StepThen(HelloPrefix, s11, t, n - 12, n - 11, OutOfFuel(t));
    Chain(HelloPrefix, LoopTop(a, 1), s11, n - 1, n - 11, n, OutOfFuel(t));
  }

  /** Rounds that each take `k` steps and add 8 to cell 0 while the
      counter stays at 2 or more compose: from counter `b` they reach the
      top of the loop with the counter at 1 after `k * (b - 1)` steps. The
      program is left abstract, so only the hypothesis about single rounds
      is used. */
  lemma {:induction false} IterateRounds(prog: seq<Token>, a: int, b: nat, c: int, k: nat, n: nat)
    requires 11 < |prog|
    requires forall x, y {:trigger Run(prog, LoopTop(x, y), k)} | 0 <= x && x + 8 <= c && 2 <= y <= b ::
      Run(prog, LoopTop(x, y), k) == OutOfFuel(LoopTop(x + 8, y - 1))
    requires 0 <= a && 1 <= b && c == a + 8 * (b - 1) && n == k * (b - 1)
    ensures Run(prog, LoopTop(a, b), n) == OutOfFuel(LoopTop(c, 1))
    decreases b
  {
    if b > 1 {
      assert n - k == k * (b - 2);
      IterateRounds(prog, a + 8, b - 1, c, k, n - k);
      Chain(prog, LoopTop(a, b), LoopTop(a + 8, b - 1), k, n - k, n, OutOfFuel(LoopTop(c, 1)));
    }
  }

  /** The rounds followed by a final stretch that halts: the run from the
      top of the loop halts in the final stretch's state. */
  lemma {:induction false} RoundsThenHalt(prog: seq<Token>, a: int, b: nat, c: int, k: nat, m: nat, n: nat, f: State)
    requires 11 < |prog|
    requires forall x, y {:trigger Run(prog, LoopTop(x, y), k)} | 0 <= x && x + 8 <= c && 2 <= y <= b ::
      Run(prog, LoopTop(x, y), k) == OutOfFuel(LoopTop(x + 8, y - 1))
    requires Run(prog, LoopTop(c, 1), m) == Halted(f)
    requires 0 <= a && 1 <= b && c == a + 8 * (b - 1) && k == 12 && n == 12 * (b - 1) + m
    ensures Run(prog, LoopTop(a, b), n) == Halted(f)
  {
    IterateRounds(prog, a, b, c, k, n - m);
    Chain(prog, LoopTop(a, b), LoopTop(c, 1), n - m, m, n, Halted(f));
  }

  /** Every round of the fixture's loop that leaves the counter nonzero,
      for cell 0 up to `c` and the counter up to `b`. */
  lemma {:induction false} HelloPrefixRounds(b: int, c: int, k: nat)
    requires b <= I32_MAX && c <= I32_MAX && k == 12
    ensures forall x, y {:trigger Run(HelloPrefix, LoopTop(x, y), k)} | 0 <= x && x + 8 <= c && 2 <= y <= b ::
      Run(HelloPrefix, LoopTop(x, y), k) == OutOfFuel(LoopTop(x + 8, y - 1))
  {
    forall x, y | 0 <= x && x + 8 <= c && 2 <= y <= b
      ensures Run(HelloPrefix, LoopTop(x, y), k) == OutOfFuel(LoopTop(x + 8, y - 1))
    {
      RoundAgain(x, y, k);
    }
  }

  /** `HelloPrefix` is written `>+++++++++[<++++++++>-]<.`. */
  lemma {:induction false} HelloPrefixText()
    ensures Render(HelloPrefix) == ">+++++++++[<++++++++>-]<."
  {
    assert Render(HelloPrefix) == ">+++++++++[<++++++++>-]<.";
  }

  /** The source text of the fixture lexes to `HelloPrefix`. */
  lemma {:induction false} HelloPrefixLexes()
    ensures Lex(">+++++++++[<++++++++>-]<.") == Lexed(HelloPrefix)
  {
    LexRender(HelloPrefix);
    HelloPrefixText();
  }

  /** The single steps of the fixture outside the pluses and the loop. */
  lemma {:induction false} HelloPrefixSteps()
    ensures Step(HelloPrefix, Init) == Stepped(State([0], 1, 1, [], 0, []))
    ensures Step(HelloPrefix, State([0], 1, 1, [], 0, [])) == Stepped(State([0, 1], 1, 2, [], 0, []))
    ensures Step(HelloPrefix, State([0, 9], 1, 10, [], 0, [])) == Stepped(LoopTop(0, 9))
  {
  }

  /** From the initial state, `>+++++++++[` sets cell 1 to 9 and enters
      the loop. */
  lemma {:induction false} HelloPrefixSetup(n: nat)
    requires n == 11
    ensures Run(HelloPrefix, Init, n) == OutOfFuel(LoopTop(0, 9))
  {
    var P := HelloPrefix;
    var s1 := State([0], 1, 1, [], 0, []);
    var s2 := State([0, 1], 1, 2, [], 0, []);
    var s10 := State([0, 9], 1, 10, [], 0, []);
    var t := LoopTop(0, 9);
    HelloPrefixSteps();
    StepThen(P, s10, t, n - 11, n - 10, OutOfFuel(t));
    RunPluses(P, s2, n - 3, 9);
    assert s2.(memory := s2.memory[1 := 9], pc := s2.pc + (n - 3)) == s10;
    Chain(P, s2, s10, n - 3, n - 10, n - 2, OutOfFuel(t));
    StepThen(P, s1, s2, n - 2, n - 1, OutOfFuel(t));
    StepThen(P, Init, s1, n - 1, n, OutOfFuel(t));
  }

  /** After the loop, `<.` prints cell 0 and the program ends. */
  lemma {:induction false} HelloPrefixFinish(d: int, n: nat)
    requires n == 2
    ensures Run(HelloPrefix, LoopExit(d), n) == Halted(State([d, 0], 0, 25, [], 0, [d]))
  {
    var e1 := State([d, 0], 0, 24, [], 0, []);
    var f := State([d, 0], 0, 25, [], 0, [d]);
    assert Step(HelloPrefix, LoopExit(d)) == Stepped(e1);
    assert Step(HelloPrefix, e1) == Stepped(f);
    StepThen(HelloPrefix, e1, f, n - 2, n - 1, Halted(f));
    StepThen(HelloPrefix, LoopExit(d), e1, n - 1, n, Halted(f));
  }

  /** The last round of the loop followed by `<.`: the value `d` that the
      round leaves in cell 0 is printed. */
  lemma {:induction false} HelloPrefixLastRound(d: int, k: nat, n: nat)
    requires 8 <= d <= I32_MAX && k == 12 && n == 14
    ensures Run(HelloPrefix, LoopTop(d - 8, 1), n) == Halted(State([d, 0], 0, 25, [], 0, [d]))
  {
    RoundLast(d - 8, k);
    HelloPrefixFinish(d, n - k);
    Chain(HelloPrefix, LoopTop(d - 8, 1), LoopExit(d), k, n - k, n, Halted(State([d, 0], 0, 25, [], 0, [d])));
  }

  /** The whole run of the fixture from the top of the loop body: the loop
      leaves `a + 8 * b` in cell 0, which `.` prints. */
  lemma {:induction false} HelloPrefixFromLoop(a: int, b: nat, c: int, k: nat, n: nat)
    requires 0 <= a && 1 <= b <= I32_MAX && c == a + 8 * b && c <= I32_MAX
    requires k == 12 && n == 12 * b + 2
    ensures Run(HelloPrefix, LoopTop(a, b), n) == Halted(State([c, 0], 0, 25, [], 0, [c]))
  {
    var f := State([c, 0], 0, 25, [], 0, [c]);
    assert Run(HelloPrefix, LoopTop(c - 8, 1), k + 2) == Halted(f) by {
      HelloPrefixLastRound(c, k, k + 2);
    }
    HelloPrefixRounds(b, c - 8, k);
    RoundsThenHalt(HelloPrefix, a, b, c - 8, k, k + 2, n, f);
  }

  /** The fixture from the initial state: 121 steps print 72 and halt. */
  lemma {:induction false} HelloPrefixRun(k: nat, n: nat)
    requires k == 12 && n == 10 * k + 1
    ensures Run(HelloPrefix, Init, n) == Halted(State([72, 0], 0, 25, [], 0, [72]))
  {
    HelloPrefixSetup(k - 1);
    HelloPrefixFromLoop(0, 9, 72, k, n - k + 1);
    Chain(HelloPrefix, Init, LoopTop(0, 9), k - 1, n - k + 1, n, Halted(State([72, 0], 0, 25, [], 0, [72])));
  }

  /** The regression fixture: running `HelloPrefix` (the lexed source
      text, by `HelloPrefixLexes`) from the initial state with enough fuel
      prints exactly 72 and halts. */
  lemma {:induction false} HelloPrefixPrints72(fuel: nat)
    requires fuel >= 121
    ensures Run(HelloPrefix, Init, fuel) == Halted(State([72, 0], 0, 25, [], 0, [72]))
  {
    var k: nat := 12;
    HelloPrefixRun(k, 10 * k + 1);
    EnoughFuel(HelloPrefix, Init, 10 * k + 1, fuel, Halted(State([72, 0], 0, 25, [], 0, [72])));
  }

  /** `+++.` prints 3. */
  lemma {:induction false} ThreePlusesPrint3()
    ensures Run([Plus, Plus, Plus, Output], Init, 4) == Halted(State([3], 0, 4, [], 0, [3]))
  {
  }

  /** `+++++[-]`. */
  const Drain: seq<Token> := seq(8, DrainAt)

  function DrainAt(i: int): Token {
    if i < 5 then Plus else if i == 5 then BeginLoop else if i == 6 then Minus else EndLoop
  }

  /** The single steps of `Drain` inside its loop, with the counter at `c`. */
  lemma {:induction false} DrainSteps(c: int)
    requires 1 <= c <= I32_MAX
    ensures Step(Drain, State([c], 0, 6, [5], 1, [])) == Stepped(State([c - 1], 0, 7, [5], 1, []))
    ensures c == 1 ==> Step(Drain, State([c - 1], 0, 7, [5], 1, [])) == Stepped(State([0], 0, 8, [], 0, []))
    ensures c >= 2 ==> Step(Drain, State([c - 1], 0, 7, [5], 1, [])) == Stepped(State([c - 1], 0, 6, [5], 1, []))
  {
  }

  /** Inside the loop of `Drain` with the counter at `c`, the remaining
      `n` steps count it down to zero and leave the loop at the end of the
      program. */
  lemma {:induction false} DrainRounds(c: int, n: nat)
    requires 1 <= c <= I32_MAX && n == 2 * c
    ensures Run(Drain, State([c], 0, 6, [5], 1, []), n) == Halted(State([0], 0, 8, [], 0, []))
    decreases c
  {
    var s := State([c], 0, 6, [5], 1, []);
    var t := State([c - 1], 0, 7, [5], 1, []);
    var done := State([0], 0, 8, [], 0, []);
    DrainSteps(c);
    if c == 1 {
      StepThen(Drain, t, done, 0, 1, Halted(done));
    } else {
      var u := State([c - 1], 0, 6, [5], 1, []);
      DrainRounds(c - 1, n - 2);
      StepThen(Drain, t, u, n - 2, n - 1, Halted(done));
    }
    StepThen(Drain, s, t, n - 1, n, Halted(done));
  }

  /** `+++++[-]` drains the counter: it halts with the current cell 0. */
  lemma {:induction false} DrainLoopEndsAtZero()
    ensures Run(Drain, Init, 16) == Halted(State([0], 0, 8, [], 0, []))
  {
    var done := State([0], 0, 8, [], 0, []);
    var s1 := State([1], 0, 1, [], 0, []);
    var s5 := State([5], 0, 5, [], 0, []);
    var s6 := State([5], 0, 6, [5], 1, []);
    assert Step(Drain, Init) == Stepped(s1);
    assert Step(Drain, s5) == Stepped(s6);
    DrainRounds(5, 10);
    StepThen(Drain, s5, s6, 10, 11, Halted(done));
    RunPluses(Drain, s1, 4, 5);
    assert s1.(memory := s1.memory[0 := 5], pc := 5) == s5;
    Chain(Drain, s1, s5, 4, 11, 15, Halted(done));
    StepThen(Drain, Init, s1, 15, 16, Halted(done));
  }

  /** A lone `]` faults on the depth counter before printing anything. */
  lemma {:induction false} LoneEndLoopFaults()
    ensures Run([EndLoop], Init, 1) == Faulted(DepthUnderflow(0), [])
  {
  }

  /** A lone `<` faults on the pointer. */
  lemma {:induction false} LoneLeftFaults()
    ensures Run([Left], Init, 1) == Faulted(PointerUnderflow(0), [])
  {
  }

  /** `[-]`. */
  const Clear: seq<Token> := [BeginLoop, Minus, EndLoop]

  /** Because `[` never tests the cell, `[-]` on a zero cell does not skip
      the loop: it drives the cell below zero and never halts, whatever the
      fuel; the only way it stops is the `-` that leaves the `i32` range. */
  lemma {:induction false} ClearOnZeroNeverHalts(fuel: nat)
    ensures var r := Run(Clear, Init, fuel);
      r.OutOfFuel? || r == Faulted(CellOverflow(1), [])
  {
    if fuel > 0 {
      var s := State([0], 0, 1, [0], 1, []);
      assert Step(Clear, Init) == Stepped(s);
      InLoopNeverHalts(0, fuel - 1);
      StepThen(Clear, Init, s, fuel - 1, fuel, Run(Clear, s, fuel - 1));
    }
  }

  /** Inside `[-]` with an `i32` cell at or below zero, the loop can only
      run out of fuel or overflow the cell at the `-`. */
  lemma {:induction false} InLoopNeverHalts(c: int, fuel: nat)
    requires I32_MIN <= c <= 0
    ensures var r := Run(Clear, State([c], 0, 1, [0], 1, []), fuel);
      r.OutOfFuel? || r == Faulted(CellOverflow(1), [])
    decreases fuel
  {
    var s := State([c], 0, 1, [0], 1, []);
    if fuel > 0 {
      if !InI32(c - 1) {
        assert Step(Clear, s) == Crashed(CellOverflow(1));
      } else {
        var t := State([c - 1], 0, 2, [0], 1, []);
        assert Step(Clear, s) == Stepped(t);
        if fuel >= 2 {
          var u := State([c - 1], 0, 1, [0], 1, []);
          assert Step(Clear, t) == Stepped(u);
          InLoopNeverHalts(c - 1, fuel - 2);
          StepThen(Clear, t, u, fuel - 2, fuel - 1, Run(Clear, u, fuel - 2));
        }
        StepThen(Clear, s, t, fuel - 1, fuel, Run(Clear, t, fuel - 1));
      }
    }
  }
}
