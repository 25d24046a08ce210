/**
  Worked programs: small assembled programs and what a run of the VM leaves in the registers.
  Addresses are the code's widths: HLT 1 word, MOV/ADD/SUB 3, CMP 5, jumps 2.
*/
module Scenarios {
  import opened Wrappers
  import opened VmDefs
  import opened Text
  import opened Isa
  import opened Vm
  import opened Parser
  import opened Pipeline

  /** `MOV AX, 5` / `HLT` */
  function MoveThenHalt(): seq<Instr>
  {
    [Arith(Move, AX, Imm(5)), Halt]
  }

  /** The program occupies four words: opcode, register and value of the MOV, then HLT. */
  lemma MoveThenHaltWords()
    ensures Flatten(MoveThenHalt()) == [1, 0, 5, 0]
  {
    var prog := MoveThenHalt();
    FlattenSnoc([], prog[0]);
    FlattenSnoc([prog[0]], prog[1]);
    assert [prog[0]] + [prog[1]] == prog;
  }

  /** The program halts on its second iteration with AX = 5 and IP on the HLT at address 3. */
  lemma MoveThenHaltRuns(fuel: nat)
    requires fuel >= 2
    ensures Flatten(MoveThenHalt()) == [1, 0, 5, 0]
    ensures Run(Started(Flatten(MoveThenHalt())), fuel).status == Halted
    ensures Run(Started(Flatten(MoveThenHalt())), fuel).m.regs[Id(AX)] == 5
    ensures Run(Started(Flatten(MoveThenHalt())), fuel).m.regs[Id(IP)] == 3
  {
    var prog := MoveThenHalt();
    MoveThenHaltWords();
    var m := Started(Flatten(prog));
    HaltsAfter(m, prog, 1, fuel);
    assert ExecAll(prog[..1], m.regs) == Exec(prog[0], m.regs) by {
      assert prog[..1] == [prog[0]];
    }
  }

  /** The words of a one-instruction-longer prefix. */
  lemma FlattenStep(prog: seq<Instr>, k: nat)
    requires k < |prog|
    ensures Flatten(prog[..k + 1]) == Flatten(prog[..k]) + Encode(prog[k])
    ensures Offset(prog, k + 1) == Offset(prog, k) + Width(prog[k])
  {
    assert prog[..k + 1][..k] == prog[..k];
  }

  /** The registers after a one-instruction-longer prefix. */
  lemma ExecAllStep(prog: seq<Instr>, k: nat, regs: seq<Word>)
    requires k < |prog| && |regs| == NumRegisters
    ensures ExecAll(prog[..k + 1], regs) == Exec(prog[k], ExecAll(prog[..k], regs))
  {
    assert prog[..k + 1][..k] == prog[..k];
  }

  /** `MOV AX, 5` / `MOV BX, 3` / `ADD AX, BX` / `HLT` */
  function AddRegisters(): seq<Instr>
  {
    [Arith(Move, AX, Imm(5)), Arith(Move, BX, Imm(3)), Arith(Add, AX, Reg(BX)), Halt]
  }

  /** The program occupies ten words. */
  lemma AddRegistersWords()
    ensures |Flatten(AddRegisters())| == 10
  {
    var prog := AddRegisters();
    assert prog[..0] == [];
    FlattenStep(prog, 0);
    FlattenStep(prog, 1);
    FlattenStep(prog, 2);
    FlattenStep(prog, 3);
    assert prog[..4] == prog;
  }

  /** The program halts on its fourth iteration with AX = 8, BX = 3 and IP on the HLT at 9. */
  lemma AddRegistersRuns(fuel: nat)
    requires fuel >= 4
    ensures |Flatten(AddRegisters())| == 10
    ensures Run(Started(Flatten(AddRegisters())), fuel).status == Halted
    ensures Run(Started(Flatten(AddRegisters())), fuel).m.regs[Id(AX)] == 8
    ensures Run(Started(Flatten(AddRegisters())), fuel).m.regs[Id(BX)] == 3
    ensures Run(Started(Flatten(AddRegisters())), fuel).m.regs[Id(IP)] == 9
  {
    var prog := AddRegisters();
    AddRegistersWords();
    assert prog[..0] == [];
    FlattenStep(prog, 0);
    FlattenStep(prog, 1);
    FlattenStep(prog, 2);
    FlattenStep(prog, 3);
    var m := Started(Flatten(prog));
    HaltsAfter(m, prog, 3, fuel);
    ExecAllStep(prog, 0, m.regs);
    ExecAllStep(prog, 1, m.regs);
    ExecAllStep(prog, 2, m.regs);
  }

  /** `MOV AX, a` / `CMP AX, b` / `<jump> target` / `MOV BX, 99` / `HLT`: the MOV to BX
      occupies words 10-12 and the HLT word 13. */
  function Guarded(c: JumpCond, a: Word, b: Word, target: Word): seq<Instr>
  {
    [Arith(Move, AX, Imm(a)), Compare(Reg(AX), Imm(b)), Jump(c, target), Arith(Move, BX, Imm(99)), Halt]
  }

  /** The FLAGS value the comparison leaves. */
  function Flag(a: Word, b: Word): Word
  {
    if a == b then 1 else 0
  }

  /** Where the instructions of `Guarded` start. */
  lemma GuardedLayout(c: JumpCond, a: Word, b: Word, target: Word)
    ensures |Flatten(Guarded(c, a, b, target))| == 14
    ensures Offset(Guarded(c, a, b, target), 0) == 0
    ensures Offset(Guarded(c, a, b, target), 1) == 3
    ensures Offset(Guarded(c, a, b, target), 2) == 8
    ensures Offset(Guarded(c, a, b, target), 3) == 10
    ensures Offset(Guarded(c, a, b, target), 4) == 13
  {
    var prog := Guarded(c, a, b, target);
    assert prog[..0] == [];
    FlattenStep(prog, 0);
    FlattenStep(prog, 1);
    FlattenStep(prog, 2);
    FlattenStep(prog, 3);
    FlattenStep(prog, 4);
    assert prog[..5] == prog;
  }

  /** A fresh machine with `Guarded` loaded. */
  function GuardedStart(c: JumpCond, a: Word, b: Word, target: Word): (m: Machine)
    ensures Holds(m, Guarded(c, a, b, target))
    ensures m.regs == Zeros(NumRegisters)
  {
    GuardedLayout(c, a, b, target);
    Started(Flatten(Guarded(c, a, b, target)))
  }

  /** From zeroed registers, the MOV leaves IP at the CMP, and the CMP leaves AX = a, BX = 0,
      the comparison's FLAGS and IP at the jump. */
  lemma GuardedCompared(m: Machine, c: JumpCond, a: Word, b: Word, target: Word)
    requires Holds(m, Guarded(c, a, b, target)) && m.regs == Zeros(NumRegisters)
    ensures var prog := Guarded(c, a, b, target);
            var r1 := Exec(prog[0], m.regs);
            var r2 := Exec(prog[1], r1);
            && r1[Id(IP)] == 3
            && r2[Id(AX)] == a && r2[Id(BX)] == 0 && r2[Id(FLAGS)] == Flag(a, b) && r2[Id(IP)] == 8
  {
    var prog := Guarded(c, a, b, target);
    var r1 := Exec(prog[0], m.regs);
    assert r1[Id(AX)] == a && r1[Id(BX)] == 0 && r1[Id(IP)] == 3 by {
      assert prog[0] == Arith(Move, AX, Imm(a));
    }
    assert prog[1] == Compare(Reg(AX), Imm(b));
  }

  /** A jump to the HLT at 13 that is taken skips the MOV to BX: from zeroed registers the run
      follows the MOV, the CMP and the jump, and halts on its fourth iteration with BX still 0. */
  lemma GuardedSkips(m: Machine, c: JumpCond, a: Word, b: Word, fuel: nat)
    requires Holds(m, Guarded(c, a, b, 13)) && m.regs == Zeros(NumRegisters)
    requires Taken(c, Flag(a, b)) && fuel >= 4
    ensures Run(m, fuel).status == Halted
    ensures var regs := Run(m, fuel).m.regs;
            regs[Id(AX)] == a && regs[Id(BX)] == 0 && regs[Id(FLAGS)] == Flag(a, b) && regs[Id(IP)] == 13
  {
    var prog := Guarded(c, a, b, 13);
    GuardedLayout(c, a, b, 13);
    GuardedCompared(m, c, a, b, 13);
    var m1 := m.(regs := Exec(prog[0], m.regs));
    var m2 := m1.(regs := Exec(prog[1], m1.regs));
    var m3 := m2.(regs := Exec(prog[2], m2.regs));
    assert m3.regs[Id(AX)] == a && m3.regs[Id(BX)] == 0 && m3.regs[Id(FLAGS)] == Flag(a, b)
           && m3.regs[Id(IP)] == 13 by {
      assert prog[2] == Jump(c, 13);
    }
    var p3: seq<nat> := [];
    FollowsCons(m2, prog, 2, p3);
    var p2 := [2] + p3;
    FollowsCons(m1, prog, 1, p2);
    var p1 := [1] + p2;
    FollowsCons(m, prog, 0, p1);
    var p0 := [0] + p1;
    PathHalts(m, prog, p0, 4, fuel);
  }

  /** A jump to the HLT that is not taken falls through to the MOV to BX: from zeroed
      registers the run follows all four instructions before the HLT and halts on its fifth
      iteration with BX = 99. */
  lemma GuardedFallsThrough(m: Machine, c: JumpCond, a: Word, b: Word, fuel: nat)
    requires Holds(m, Guarded(c, a, b, 13)) && m.regs == Zeros(NumRegisters)
    requires !Taken(c, Flag(a, b)) && fuel >= 5
    ensures Run(m, fuel).status == Halted
    ensures var regs := Run(m, fuel).m.regs;
            regs[Id(AX)] == a && regs[Id(BX)] == 99 && regs[Id(FLAGS)] == Flag(a, b) && regs[Id(IP)] == 13
  {
    var prog := Guarded(c, a, b, 13);
    GuardedLayout(c, a, b, 13);
    GuardedCompared(m, c, a, b, 13);
    var m1 := m.(regs := Exec(prog[0], m.regs));
    var m2 := m1.(regs := Exec(prog[1], m1.regs));
    var m3 := m2.(regs := Exec(prog[2], m2.regs));
    assert m3.regs[Id(AX)] == a && m3.regs[Id(BX)] == 0 && m3.regs[Id(FLAGS)] == Flag(a, b)
           && m3.regs[Id(IP)] == 10 by {
      assert prog[2] == Jump(c, 13);
    }
    var m4 := m3.(regs := Exec(prog[3], m3.regs));
    assert m4.regs[Id(AX)] == a && m4.regs[Id(BX)] == 99 && m4.regs[Id(FLAGS)] == Flag(a, b)
           && m4.regs[Id(IP)] == 13 by {
      assert prog[3] == Arith(Move, BX, Imm(99));
    }
    var p4: seq<nat> := [];
    FollowsCons(m3, prog, 3, p4);
    var p3 := [3] + p4;
    FollowsCons(m2, prog, 2, p3);
    var p2 := [2] + p3;
    FollowsCons(m1, prog, 1, p2);
    var p1 := [1] + p2;
    FollowsCons(m, prog, 0, p1);
    var p0 := [0] + p1;
    PathHalts(m, prog, p0, 4, fuel);
  }

  /** With at least the two iterations of the MOV and the CMP, a taken jump to address 8 lands
      on the jump itself, and the run spins there for the rest of its budget. */
  lemma GuardedAtEightLoops(m: Machine, c: JumpCond, a: Word, b: Word, fuel: nat)
    requires Holds(m, Guarded(c, a, b, 8)) && m.regs == Zeros(NumRegisters)
    requires Taken(c, Flag(a, b)) && fuel >= 2
    ensures Run(m, fuel).status == OutOfFuel
  {
    var prog := Guarded(c, a, b, 8);
    GuardedLayout(c, a, b, 8);
    GuardedCompared(m, c, a, b, 8);
    var m1 := m.(regs := Exec(prog[0], m.regs));
    var m2 := m1.(regs := Exec(prog[1], m1.regs));
    var p2: seq<nat> := [];
    FollowsCons(m1, prog, 1, p2);
    var p1 := [1] + p2;
    FollowsCons(m, prog, 0, p1);
    var p0 := [0] + p1;
    assert Step(m2) == Running(m2) by {
      assert prog[2] == Jump(c, 8);
      JumpToItself(m2, prog, 2);
    }
    PathSpins(m, prog, p0, fuel);
  }

  /** A taken jump to address 8 never lets the run halt, whatever the budget: a run that ended
      within a budget would end the same way under a budget two larger. */
  lemma GuardedAtEightSpins(m: Machine, c: JumpCond, a: Word, b: Word, fuel: nat)
    requires Holds(m, Guarded(c, a, b, 8)) && m.regs == Zeros(NumRegisters)
    requires Taken(c, Flag(a, b))
    ensures Run(m, fuel).status == OutOfFuel
  {
    if Run(m, fuel).status != OutOfFuel {
      RunMoreFuel(m, fuel, 2);
      GuardedAtEightLoops(m, c, a, b, fuel + 2);
    }
  }

  /** Two comparison-and-jump programs, `MOV AX, 4` / `CMP AX, 4` / `JE t` and `MOV AX, 1` /
      `CMP AX, 2` / `JNE t`, each followed by `MOV BX, 99` / `HLT`. With the jump aimed at the
      HLT (t = 13) both skip the MOV to BX. With t = 8, the jump's own address, both jumps
      return to themselves forever. */
  lemma GuardedJumps(fuel: nat)
    requires fuel >= 4
    ensures Run(GuardedStart(IfEqual, 4, 4, 13), fuel).m.regs[Id(BX)] == 0
    ensures Run(GuardedStart(IfEqual, 4, 4, 13), fuel).m.regs[Id(FLAGS)] == 1
    ensures Run(GuardedStart(IfNotEqual, 1, 2, 13), fuel).m.regs[Id(BX)] == 0
    ensures Run(GuardedStart(IfNotEqual, 1, 2, 13), fuel).m.regs[Id(FLAGS)] == 0
    ensures Run(GuardedStart(IfEqual, 4, 4, 8), fuel).status == OutOfFuel
    ensures Run(GuardedStart(IfNotEqual, 1, 2, 8), fuel).status == OutOfFuel
  {
    GuardedSkips(GuardedStart(IfEqual, 4, 4, 13), IfEqual, 4, 4, fuel);
    GuardedSkips(GuardedStart(IfNotEqual, 1, 2, 13), IfNotEqual, 1, 2, fuel);
    GuardedAtEightSpins(GuardedStart(IfEqual, 4, 4, 8), IfEqual, 4, 4, fuel);
    GuardedAtEightSpins(GuardedStart(IfNotEqual, 1, 2, 8), IfNotEqual, 1, 2, fuel);
  }

  /** `MOV AX, 0` written `n` times. */
  function ClearAX(n: nat): seq<Instr>
  {
    seq(n, _ => Arith(Move, AX, Imm(0)))
  }

  /** The moves take three words each. */
  lemma {:induction false} ClearAXWords(n: nat)
    ensures |Flatten(ClearAX(n))| == 3 * n
  {
    if n > 0 {
      assert ClearAX(n)[..n - 1] == ClearAX(n - 1);
      ClearAXWords(n - 1);
    }
  }

  /** A program that fills all of memory: 21845 moves of 0 into AX, then HLT, 65536 words. */
  function FillMemory(): seq<Instr>
  {
    ClearAX(21845) + [Halt]
  }

  /** The full-memory program runs: its 21845 moves execute and it halts on the HLT in the
      last word, 65535, with AX = 0. */
  lemma FillMemoryHalts(fuel: nat)
    requires fuel > 21845
    ensures |Flatten(FillMemory())| == MemSize
    ensures Run(Started(Flatten(FillMemory())), fuel).status == Halted
    ensures Run(Started(Flatten(FillMemory())), fuel).m.regs[Id(IP)] == 65535
    ensures Run(Started(Flatten(FillMemory())), fuel).m.regs[Id(AX)] == 0
  {
    var k := 21845;
    var prog := FillMemory();
    ClearAXWords(k);
    FlattenSnoc(ClearAX(k), Halt);
    assert prog[..k] == ClearAX(k);
    var m := Started(Flatten(prog));
    assert Holds(m, prog);
    HaltsAfter(m, prog, k, fuel);
    StraightOffsets(m, prog, k);
  }

  /** The words of the example lines. */
  lemma Words()
    ensures Token("FOO") && Token("MOV") && Token("ADD") && Token("HLT")
    ensures Token("AX") && Token("BX") && Token("BZ") && Token("1") && Token("3") && Token("5")
  {
  }

  /** The example mnemonics are already upper case. */
  lemma Names()
    ensures Upper("MOV") == "MOV" && Upper("ADD") == "ADD" && Upper("HLT") == "HLT" && Upper("FOO") == "FOO"
  {
  }

  /** AX and BX name registers; BZ does not. */
  lemma Registers()
    ensures GetRegId("AX") == Some(AX) && GetRegId("BX") == Some(BX) && GetRegId("BZ") == None
  {
    assert GetRegId("AX") == Some(AX) by {
      assert Upper("AX") == RegName(AX);
      GetRegIdSpec("AX");
    }
    assert GetRegId("BX") == Some(BX) by {
      assert Upper("BX") == RegName(BX);
      GetRegIdSpec("BX");
    }
    assert GetRegId("BZ") == None by {
      assert Upper("BZ") == "BZ";
      GetRegIdSpec("BZ");
    }
  }

  /** The example operands that are numbers, and their values. */
  lemma Numbers()
    ensures IsNumber("5") && Atoi("5") == 5 && IsNumber("3") && Atoi("3") == 3
    ensures !IsNumber("BZ") && !IsNumber("BX")
  {
  }

  /** A line written `NAME A1, A2` with an arithmetic mnemonic assembles as that mnemonic's
      operands. */
  lemma ArithSource(op: ArithOp, name: string, a1: string, a2: string)
    requires Token(name) && Token(a1) && Token(a2) && Upper(name) == ArithName(op)
    ensures ParseLine(name + " " + a1 + ", " + a2) == ArithOperands(op, a1, a2)
  {
    var f := Fields(3, name, a1, a2);
    assert ParseLine(name + " " + a1 + ", " + a2) == Parser.Instruction(ArithName(op), f)
           && Trim(a1) == a1 && Trim(a2) == a2 by {
      CanonicalLine(name, a1, a2);
    }
    ArithSelection(op, f);
  }

  /** `FOO AX, 1` is refused as an unknown instruction. */
  lemma UnknownMnemonicRefused()
    ensures ParseLine("FOO AX, 1") == Reject(UnknownInstruction("FOO"), [])
  {
    var f := Fields(3, "FOO", "AX", "1");
    assert ParseLine("FOO AX, 1") == Parser.Instruction(Upper("FOO"), f) by {
      Words();
      assert "FOO AX, 1" == "FOO" + " " + "AX" + ", " + "1";
      CanonicalLine("FOO", "AX", "1");
    }
    Names();
    MnemonicSelection("FOO", f);
  }

  /** `MOV AX, BZ` is refused: BZ is neither a number nor a register. */
  lemma UnknownOperandRefused()
    ensures ParseLine("MOV AX, BZ") == Reject(InvalidArgument("MOV", "BZ"), [])
  {
    assert ParseLine("MOV AX, BZ") == ArithOperands(Move, "AX", "BZ") by {
      Words();
      Names();
      assert "MOV AX, BZ" == "MOV" + " " + "AX" + ", " + "BZ";
      ArithSource(Move, "MOV", "AX", "BZ");
    }
    Registers();
    Numbers();
  }

  /** `HLT` alone assembles to the halt instruction. */
  lemma HaltLine()
    ensures ParseLine("HLT") == Emit(Halt)
  {
    assert ParseLine("HLT") == Parser.Instruction(Upper("HLT"), Fields(1, "HLT", "", "")) by {
      Words();
      BareLine("HLT");
    }
    Names();
    MnemonicSelection("HLT", Fields(1, "HLT", "", ""));
  }

  /** `MOV AX, 5` assembles to an immediate move. */
  lemma MoveFiveLine()
    ensures ParseLine("MOV AX, 5") == Emit(Arith(Move, AX, Imm(5)))
  {
    assert ParseLine("MOV AX, 5") == ArithOperands(Move, "AX", "5") by {
      Words();
      Names();
      assert "MOV AX, 5" == "MOV" + " " + "AX" + ", " + "5";
      ArithSource(Move, "MOV", "AX", "5");
    }
    Registers();
    Numbers();
  }

  /** `MOV BX, 3` assembles to an immediate move. */
  lemma MoveThreeLine()
    ensures ParseLine("MOV BX, 3") == Emit(Arith(Move, BX, Imm(3)))
  {
    assert ParseLine("MOV BX, 3") == ArithOperands(Move, "BX", "3") by {
      Words();
      Names();
      assert "MOV BX, 3" == "MOV" + " " + "BX" + ", " + "3";
      ArithSource(Move, "MOV", "BX", "3");
    }
    Registers();
    Numbers();
  }

  /** `ADD AX, BX` assembles to the register-register add. */
  lemma AddLine()
    ensures ParseLine("ADD AX, BX") == Emit(Arith(Add, AX, Reg(BX)))
  {
    assert ParseLine("ADD AX, BX") == ArithOperands(Add, "AX", "BX") by {
      Words();
      Names();
      assert "ADD AX, BX" == "ADD" + " " + "AX" + ", " + "BX";
      ArithSource(Add, "ADD", "AX", "BX");
    }
    Registers();
    Numbers();
  }

  /** Four lines, each taken by `f` to the instruction beside it, as one quantified fact.

      This lemma and the three after it reach `ParseLine` through a function value `f` with
      `f == ParseLine`. A call through a function value is not unfolded into `ParseLine`'s
      definition, so the solver sees these literal lines only through the facts the per-line
      lemmas proved; naming `ParseLine` directly makes it unfold every literal line again and
      costs far more. */
  lemma EmitsOfFour(f: string -> LineResult, lines: seq<string>, prog: seq<Instr>)
    requires |lines| == 4 && |prog| == 4
    requires f(lines[0]) == Emit(prog[0]) && f(lines[1]) == Emit(prog[1])
    requires f(lines[2]) == Emit(prog[2]) && f(lines[3]) == Emit(prog[3])
    ensures forall k :: 0 <= k < 4 ==> f(lines[k]) == Emit(prog[k])
  {
    forall k | 0 <= k < 4 ensures f(lines[k]) == Emit(prog[k]) {
      if k == 0 {} else if k == 1 {} else if k == 2 {} else {}
    }
  }

  /** Two lines, each taken by `f` to the instruction beside it, as one quantified fact. */
  lemma EmitsOfTwo(f: string -> LineResult, lines: seq<string>, prog: seq<Instr>)
    requires |lines| == 2 && |prog| == 2
    requires f(lines[0]) == Emit(prog[0]) && f(lines[1]) == Emit(prog[1])
    ensures forall k :: 0 <= k < 2 ==> f(lines[k]) == Emit(prog[k])
  {
    forall k | 0 <= k < 2 ensures f(lines[k]) == Emit(prog[k]) {
      if k == 0 {} else {}
    }
  }

  /** Two lines that each assemble to one instruction assemble to a two-instruction program. */
  lemma SourceOfTwo(f: string -> LineResult, l0: string, l1: string, i0: Instr, i1: Instr)
    requires f == ParseLine && f(l0) == Emit(i0) && f(l1) == Emit(i1)
    requires |Flatten([i0, i1])| <= MemSize
    ensures Parse([l0, l1]) == Success(Flatten([i0, i1]))
  {
    EmitsOfTwo(f, [l0, l1], [i0, i1]);
    ParseEmitsVia([l0, l1], [i0, i1], f);
  }

  /** Four lines that each assemble to one instruction assemble to a four-instruction program. */
  lemma SourceOfFour(f: string -> LineResult, l0: string, l1: string, l2: string, l3: string, prog: seq<Instr>)
    requires f == ParseLine && |prog| == 4 && |Flatten(prog)| <= MemSize
    requires f(l0) == Emit(prog[0]) && f(l1) == Emit(prog[1])
    requires f(l2) == Emit(prog[2]) && f(l3) == Emit(prog[3])
    ensures Parse([l0, l1, l2, l3]) == Success(Flatten(prog))
  {
    EmitsOfFour(f, [l0, l1, l2, l3], prog);
    ParseEmitsVia([l0, l1, l2, l3], prog, f);
  }

  /** The source `MOV AX, 5` / `HLT` assembles to the words of `MoveThenHalt`. */
  lemma MoveThenHaltSource()
    ensures Parse(["MOV AX, 5", "HLT"]) == Success(Flatten(MoveThenHalt()))
  {
    MoveFiveLine();
    HaltLine();
    MoveThenHaltWords();
    SourceOfTwo(ParseLine, "MOV AX, 5", "HLT", Arith(Move, AX, Imm(5)), Halt);
  }

  /** The `assembler` command drops what it assembles: `MOV AX, 5` / `HLT` assembles to its
      four words, which leave AX = 5 when loaded and run, but the command's run halts with
      AX = 0. */
  lemma AssemblerDropsProgram(fuel: nat)
    requires fuel >= 2
    ensures Parse(["MOV AX, 5", "HLT"]) == Success([1, 0, 5, 0])
    ensures Run(Started([1, 0, 5, 0]), fuel).m.regs[Id(AX)] == 5
    ensures Run(AssemblerStart([1, 0, 5, 0]), fuel).m.regs[Id(AX)] == 0
  {
    MoveThenHaltSource();
    MoveThenHaltRuns(fuel);
    AssemblerHaltsAtOnce([1, 0, 5, 0], fuel);
  }

  /** The source `MOV AX, 5` / `MOV BX, 3` / `ADD AX, BX` / `HLT` assembles to the words of
      `AddRegisters`. */
  lemma AddRegistersSource()
    ensures Parse(["MOV AX, 5", "MOV BX, 3", "ADD AX, BX", "HLT"]) == Success(Flatten(AddRegisters()))
  {
    var prog := AddRegisters();
    AddRegistersLines(ParseLine);
    AddRegistersWords();
    assert prog[0] == Arith(Move, AX, Imm(5)) && prog[1] == Arith(Move, BX, Imm(3));
    assert prog[2] == Arith(Add, AX, Reg(BX)) && prog[3] == Halt;
    SourceOfFour(ParseLine, "MOV AX, 5", "MOV BX, 3", "ADD AX, BX", "HLT", prog);
  }

  /** Each line of the add program's source emits its instruction. */
  lemma AddRegistersLines(f: string -> LineResult)
    requires f == ParseLine
    ensures f("MOV AX, 5") == Emit(Arith(Move, AX, Imm(5))) && f("MOV BX, 3") == Emit(Arith(Move, BX, Imm(3)))
    ensures f("ADD AX, BX") == Emit(Arith(Add, AX, Reg(BX))) && f("HLT") == Emit(Halt)
  {
    MoveFiveLine();
    MoveThreeLine();
    AddLine();
    HaltLine();
  }
}
