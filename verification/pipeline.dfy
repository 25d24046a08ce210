/**
  Assembler and virtual machine together: the widths the assembler gives each instruction are
  exactly the distances by which `run_vm` advances IP, so assembled straight-line code runs one
  source instruction per iteration of the VM loop.
*/
module Pipeline {
  import opened VmDefs
  import opened Isa
  import opened Vm
  import opened Parser

  /** An instruction after which execution continues with the next one: arithmetic on a
      register other than IP, or a comparison. */
  predicate Straight(i: Instr)
  {
    (i.Arith? && i.dst != IP) || i.Compare?
  }

  /** The register file after executing `prog` in order. */
  function ExecAll(prog: seq<Instr>, regs: seq<Word>): (r: seq<Word>)
    requires |regs| == NumRegisters
    ensures |r| == NumRegisters
    decreases |prog|
  {
    if |prog| == 0 then regs else Exec(prog[|prog| - 1], ExecAll(prog[..|prog| - 1], regs))
  }

  /** The machine's memory starts with the words of `prog`, which fit in it. */
  predicate Holds(m: Machine, prog: seq<Instr>)
  {
    && Valid(m)
    && |Flatten(prog)| <= MemSize
    && m.mem[..|Flatten(prog)|] == Flatten(prog)
  }

  /** Instruction `k` of a loaded program decodes, at its offset, to itself. */
  lemma DecodesAt(m: Machine, prog: seq<Instr>, k: nat)
    requires Holds(m, prog) && k < |prog|
    ensures Offset(prog, k) + Width(prog[k]) <= |Flatten(prog)|
    ensures Decode(m.mem, Offset(prog, k)) == Instruction(prog[k])
  {
    FlattenAt(prog, k);
    var a, b := Offset(prog, k), Offset(prog, k + 1);
    assert m.mem[a..b] == Flatten(prog)[a..b] by {
      assert m.mem[..|Flatten(prog)|][a..b] == m.mem[a..b];
    }
    DecodeEncode(prog[k], m.mem, a);
  }

  /** With IP at any instruction of a loaded program other than HLT, one step executes it. */
  lemma StepAt(m: Machine, prog: seq<Instr>, j: nat)
    requires Holds(m, prog) && j < |prog| && prog[j] != Halt
    requires m.regs[Id(IP)] == Offset(prog, j)
    ensures Step(m) == Running(m.(regs := Exec(prog[j], m.regs)))
  {
    DecodesAt(m, prog, j);
    StepDecodes(m);
  }

  /** With IP at a straight instruction of a loaded program that does not end at the last
      word of memory, one step executes it and moves IP to the next instruction. (One that
      ends there moves IP to 65536, which wraps to 0.) */
  lemma StepStraight(m: Machine, prog: seq<Instr>, j: nat)
    requires Holds(m, prog) && j < |prog| && Straight(prog[j])
    requires m.regs[Id(IP)] == Offset(prog, j) && Offset(prog, j + 1) < MemSize
    ensures Step(m) == Running(m.(regs := Exec(prog[j], m.regs)))
    ensures Exec(prog[j], m.regs)[Id(IP)] == Offset(prog, j + 1)
  {
    StepAt(m, prog, j);
    FlattenAt(prog, j);
    var w := Offset(prog, j) + Width(prog[j]);
    assert Exec(prog[j], m.regs)[Id(IP)] == Wrap(w);
  }

  /** Later instructions start no earlier. */
  lemma OffsetMonotone(prog: seq<Instr>, i: nat, j: nat)
    requires i <= j <= |prog|
    ensures Offset(prog, i) <= Offset(prog, j)
  {
    FlattenPrefix(prog[..j], i);
    assert prog[..j][..i] == prog[..i];
  }

  /** With IP at a HLT of a loaded program, the step stops the machine. */
  lemma StepHalt(m: Machine, prog: seq<Instr>, j: nat)
    requires Holds(m, prog) && j < |prog| && prog[j] == Halt
    requires m.regs[Id(IP)] == Offset(prog, j)
    ensures Step(m) == Stopped(m, Halted)
  {
    DecodesAt(m, prog, j);
    StepDecodes(m);
  }

  /** With IP at an instruction of a loaded program other than HLT, the run spends one
      iteration executing it. */
  lemma RunAt(m: Machine, prog: seq<Instr>, j: nat, fuel: nat)
    requires Holds(m, prog) && j < |prog| && prog[j] != Halt
    requires m.regs[Id(IP)] == Offset(prog, j) && fuel > 0
    ensures Run(m, fuel) == Run(m.(regs := Exec(prog[j], m.regs)), fuel - 1)
  {
    StepAt(m, prog, j);
    RunStep(m, fuel);
  }

  /** With IP at a HLT of a loaded program, the run stops there with status Halted. */
  lemma RunHalt(m: Machine, prog: seq<Instr>, j: nat, fuel: nat)
    requires Holds(m, prog) && j < |prog| && prog[j] == Halt
    requires m.regs[Id(IP)] == Offset(prog, j) && fuel > 0
    ensures Run(m, fuel) == RunResult(m, Halted)
  {
    StepHalt(m, prog, j);
    RunStep(m, fuel);
  }

  /** A taken jump to its own offset leaves the machine exactly as it was. */
  lemma JumpToItself(m: Machine, prog: seq<Instr>, j: nat)
    requires Holds(m, prog) && j < |prog| && prog[j].Jump? && prog[j].target == Offset(prog, j)
    requires m.regs[Id(IP)] == Offset(prog, j) && Taken(prog[j].cond, m.regs[Id(FLAGS)])
    ensures Step(m) == Running(m)
  {
    StepAt(m, prog, j);
    assert Exec(prog[j], m.regs) == m.regs;
  }

  /** The machine after the first `j` instructions of `prog` have been executed in order. */
  function After(m: Machine, prog: seq<Instr>, j: nat): (r: Machine)
    requires Valid(m) && j <= |prog|
    ensures Valid(r) && r.mem == m.mem
  {
    m.(regs := ExecAll(prog[..j], m.regs))
  }

  /** Started at IP 0 on a loaded program, the machine after `j` straight instructions has IP
      at instruction `j`. */
  lemma {:induction false} StraightOffsets(m: Machine, prog: seq<Instr>, j: nat)
    requires Holds(m, prog) && m.regs[Id(IP)] == 0
    requires j <= |prog| && forall i :: 0 <= i < j ==> Straight(prog[i])
    requires Offset(prog, j) < MemSize
    ensures After(m, prog, j).regs[Id(IP)] == Offset(prog, j)
    decreases j
  {
    if j == 0 {
      assert prog[..0] == [];
    } else {
      OffsetMonotone(prog, j - 1, j);
      StraightOffsets(m, prog, j - 1);
      var mi := After(m, prog, j - 1);
      assert After(m, prog, j) == mi.(regs := Exec(prog[j - 1], mi.regs)) by {
        assert prog[..j][..j - 1] == prog[..j - 1];
      }
      assert Exec(prog[j - 1], mi.regs)[Id(IP)] == Offset(prog, j) by {
        StepStraight(mi, prog, j - 1);
      }
    }
  }

  /** With IP at instruction `j`, a straight instruction, one step moves to the machine after
      `j + 1` instructions. */
  lemma StraightStep(m: Machine, prog: seq<Instr>, j: nat)
    requires Holds(m, prog) && j < |prog| && Straight(prog[j])
    requires After(m, prog, j).regs[Id(IP)] == Offset(prog, j) && Offset(prog, j + 1) < MemSize
    ensures Step(After(m, prog, j)) == Running(After(m, prog, j + 1))
  {
    var mj := After(m, prog, j);
    assert After(m, prog, j + 1) == mj.(regs := Exec(prog[j], mj.regs)) by {
      assert prog[..j + 1][..j] == prog[..j];
    }
    StepStraight(mj, prog, j);
  }

  /** Started at IP 0, instruction `j` of a straight prefix of `k` instructions that ends
      within memory takes the state after `j` instructions to the state after `j + 1`. */
  lemma StraightLink(m: Machine, prog: seq<Instr>, j: nat, k: nat)
    requires Holds(m, prog) && m.regs[Id(IP)] == 0
    requires j < k <= |prog|
    requires forall i :: 0 <= i < k ==> Straight(prog[i])
    requires Offset(prog, k) < MemSize
    ensures Step(After(m, prog, j)) == Running(After(m, prog, j + 1))
  {
    OffsetMonotone(prog, j, j + 1);
    OffsetMonotone(prog, j + 1, k);
    StraightOffsets(m, prog, j);
    StraightStep(m, prog, j);
  }

  /** Executing no instructions leaves the machine as it is. */
  lemma AfterNone(m: Machine, prog: seq<Instr>)
    requires Valid(m)
    ensures After(m, prog, 0) == m
  {
    assert prog[..0] == [];
  }

  /** A run whose every iteration leads from the state after `j` instructions to the state
      after `j + 1` reaches the state after the first `k`, with `k` iterations spent. */
  lemma {:induction false} AfterChain(m: Machine, prog: seq<Instr>, k: nat, fuel: nat)
    requires Valid(m) && k <= |prog| && k <= fuel
    requires forall j :: 0 <= j < k ==>
               Run(After(m, prog, j), fuel - j) == Run(After(m, prog, j + 1), fuel - j - 1)
    ensures Run(m, fuel) == Run(After(m, prog, k), fuel - k)
  {
    if k == 0 {
      AfterNone(m, prog);
    } else {
      AfterChain(m, prog, k - 1, fuel);
    }
  }


  /** Started at IP 0 on a loaded program whose first `k` instructions are straight, the first
      `k` iterations of the VM loop execute exactly those instructions, whatever the budget
      beyond them, and leave IP at instruction `k`. */
  lemma StraightPrefix(m: Machine, prog: seq<Instr>, k: nat, fuel: nat)
    requires Holds(m, prog) && m.regs[Id(IP)] == 0
    requires k <= |prog| && k <= fuel
    requires forall j :: 0 <= j < k ==> Straight(prog[j])
    requires Offset(prog, k) < MemSize
    ensures Run(m, fuel) == Run(After(m, prog, k), fuel - k)
    ensures After(m, prog, k).regs[Id(IP)] == Offset(prog, k)
  {
    forall j | 0 <= j < k
      ensures Run(After(m, prog, j), fuel - j) == Run(After(m, prog, j + 1), fuel - j - 1)
    {
      StraightLink(m, prog, j, k);
      RunStep(After(m, prog, j), fuel - j);
    }
    AfterChain(m, prog, k, fuel);
    StraightOffsets(m, prog, k);
  }



  /** Started at IP 0 on a loaded program whose first `k` instructions are straight, `k`
      iterations of the VM loop execute exactly those instructions, and IP is then at the
      offset of instruction `k`. */
  lemma StraightLineRun(m: Machine, prog: seq<Instr>, k: nat)
    requires Holds(m, prog) && m.regs[Id(IP)] == 0
    requires k <= |prog|
    requires forall j :: 0 <= j < k ==> Straight(prog[j])
    requires Offset(prog, k) < MemSize
    ensures Run(m, k) == RunResult(m.(regs := ExecAll(prog[..k], m.regs)), OutOfFuel)
    ensures ExecAll(prog[..k], m.regs)[Id(IP)] == Offset(prog, k)
  {
    StraightPrefix(m, prog, k, k);
    RunNone(After(m, prog, k));
  }

  /** When the straight-line code is followed by HLT, the run halts after one more iteration,
      and under every larger budget, with the registers the straight-line code left. */
  lemma HaltsAfter(m: Machine, prog: seq<Instr>, k: nat, fuel: nat)
    requires Holds(m, prog) && m.regs[Id(IP)] == 0
    requires k < |prog| && prog[k] == Halt
    requires forall j :: 0 <= j < k ==> Straight(prog[j])
    requires fuel > k
    ensures Run(m, fuel) == RunResult(m.(regs := ExecAll(prog[..k], m.regs)), Halted)
  {
    FlattenAt(prog, k);
    StraightPrefix(m, prog, k, fuel);
    StepHalt(After(m, prog, k), prog, k);
    RunReaches(m, fuel, After(m, prog, k), fuel - k);
  }

  /** `m` executes, one loop iteration each, the instructions of `prog` at the indices of
      `path`: none of them is HLT, and before each one IP is at its offset. */
  predicate Follows(m: Machine, prog: seq<Instr>, path: seq<nat>)
    requires Valid(m)
    decreases |path|
  {
    || |path| == 0
    || (&& path[0] < |prog| && prog[path[0]] != Halt
        && m.regs[Id(IP)] == Offset(prog, path[0])
        && Follows(m.(regs := Exec(prog[path[0]], m.regs)), prog, path[1..]))
  }

  /** The machine after the instructions of a path. */
  function Through(m: Machine, prog: seq<Instr>, path: seq<nat>): (r: Machine)
    requires Valid(m) && Follows(m, prog, path)
    ensures Valid(r) && r.mem == m.mem
    decreases |path|
  {
    if |path| == 0 then m
    else Through(m.(regs := Exec(prog[path[0]], m.regs)), prog, path[1..])
  }

  /** A path one instruction longer at the front. */
  lemma FollowsCons(m: Machine, prog: seq<Instr>, j: nat, rest: seq<nat>)
    requires Valid(m) && j < |prog| && prog[j] != Halt && m.regs[Id(IP)] == Offset(prog, j)
    requires Follows(m.(regs := Exec(prog[j], m.regs)), prog, rest)
    ensures Follows(m, prog, [j] + rest)
    ensures Through(m, prog, [j] + rest) == Through(m.(regs := Exec(prog[j], m.regs)), prog, rest)
  {
    assert ([j] + rest)[1..] == rest;
  }

  /** The machines a path goes through, first to last. */
  function Trail(m: Machine, prog: seq<Instr>, path: seq<nat>): (ms: seq<Machine>)
    requires Valid(m) && Follows(m, prog, path)
    ensures |ms| == |path| + 1 && ms[0] == m && ms[|path|] == Through(m, prog, path)
    ensures forall j :: 0 <= j < |ms| ==> Valid(ms[j]) && ms[j].mem == m.mem
    decreases |path|
  {
    if |path| == 0 then [m]
    else [m] + Trail(m.(regs := Exec(prog[path[0]], m.regs)), prog, path[1..])
  }

  /** Each machine of a path's trail steps to the next. */
  lemma {:induction false} TrailSteps(m: Machine, prog: seq<Instr>, path: seq<nat>)
    requires Holds(m, prog) && Follows(m, prog, path)
    ensures forall j :: 0 <= j < |path| ==> Step(Trail(m, prog, path)[j]) == Running(Trail(m, prog, path)[j + 1])
    decreases |path|
  {
    if |path| > 0 {
      var next := m.(regs := Exec(prog[path[0]], m.regs));
      var ms := Trail(m, prog, path);
      var rest := Trail(next, prog, path[1..]);
      assert ms == [m] + rest;
      TrailSteps(next, prog, path[1..]);
      StepAt(m, prog, path[0]);
      forall j | 0 <= j < |path| ensures Step(ms[j]) == Running(ms[j + 1]) {
        if j > 0 {
          assert ms[j] == rest[j - 1] && ms[j + 1] == rest[j];
        }
      }
    }
  }

  /** Whatever the jumps in it, a path the machine follows is run one instruction per loop
      iteration: after `|path|` iterations the machine is the one after the path, with
      `left` of the budget `fuel` still to go. */
  lemma RunFollows(m: Machine, prog: seq<Instr>, path: seq<nat>, fuel: nat, left: nat)
    requires Holds(m, prog) && Follows(m, prog, path) && fuel == |path| + left
    ensures Run(m, fuel) == Run(Through(m, prog, path), left)
  {
    var ms := Trail(m, prog, path);
    TrailSteps(m, prog, path);
    RunTrace(ms, |path|, fuel, left);
  }

  /** A path that ends with IP at a HLT halts the run on the next iteration, with the
      registers the path left. */
  lemma PathHalts(m: Machine, prog: seq<Instr>, path: seq<nat>, h: nat, fuel: nat)
    requires Holds(m, prog) && Follows(m, prog, path)
    requires h < |prog| && prog[h] == Halt && Through(m, prog, path).regs[Id(IP)] == Offset(prog, h)
    requires fuel > |path|
    ensures Run(m, fuel) == RunResult(Through(m, prog, path), Halted)
  {
    var last := Through(m, prog, path);
    var left := fuel - |path|;
    assert Run(m, fuel) == Run(last, left) by {
      RunFollows(m, prog, path, fuel, left);
    }
    assert Run(last, left) == RunResult(last, Halted) by {
      RunHalt(last, prog, h, left);
    }
  }

  /** A path that ends on a machine one step leaves unchanged (a jump to itself) spins: the
      run never stops, whatever the budget beyond the path. */
  lemma PathSpins(m: Machine, prog: seq<Instr>, path: seq<nat>, fuel: nat)
    requires Holds(m, prog) && Follows(m, prog, path)
    requires Step(Through(m, prog, path)) == Running(Through(m, prog, path))
    requires fuel >= |path|
    ensures Run(m, fuel) == RunResult(Through(m, prog, path), OutOfFuel)
  {
    var last := Through(m, prog, path);
    var left := fuel - |path|;
    assert Run(m, fuel) == Run(last, left) by {
      RunFollows(m, prog, path, fuel, left);
    }
    assert Run(last, left) == RunResult(last, OutOfFuel) by {
      SpinsForever(last, left);
    }
  }

  /** The machine the editor's `run` starts (editor.c:243-264): registers and memory zeroed,
      the assembled words parsed into the virtual machine's own memory, then `run_vm`. It is
      also what the `assembler` command evidently means to run (`AssemblerStart`). */
  function Started(words: seq<Word>): (m: Machine)
    requires |words| <= MemSize
    ensures Valid(m) && m.regs[Id(IP)] == 0
    ensures m.mem[..|words|] == words
  {
    Boot(Load(Zeros(MemSize), words))
  }

  /** The machine the `assembler` command runs as written (assembler.c:21-40): it assembles
      into memory of its own and passes that to `run_vm`, but `run_vm` takes no argument and
      runs the virtual machine's own `memory` (vm.c:10-16), which nothing has written. Every
      word and register is zero, whatever was assembled. */
  function AssemblerStart(words: seq<Word>): (m: Machine)
    ensures Valid(m) && m.regs == Zeros(NumRegisters)
    ensures forall i :: 0 <= i < |m.mem| ==> m.mem[i] == 0
  {
    Boot(Zeros(MemSize))
  }

  /** So the `assembler` command halts on its first instruction, at address 0, with every
      register zero, whatever it assembled. */
  lemma AssemblerHaltsAtOnce(words: seq<Word>, fuel: nat)
    requires fuel > 0
    ensures Run(AssemblerStart(words), fuel) == RunResult(AssemblerStart(words), Halted)
    ensures Run(AssemblerStart(words), fuel).m.regs == Zeros(NumRegisters)
  {
    RunStep(AssemblerStart(words), fuel);
  }

  /** End to end: when every line of a source assembles, the program the lines spell runs
      instruction by instruction from a fresh machine, halting at the first HLT that only
      straight-line code precedes; this holds even when the words fill all of memory. */
  lemma {:induction false} AssembledRuns(lines: seq<string>, k: nat, fuel: nat)
    requires Parse(lines).Success?
    requires k < |Instructions(Results(lines))| && Instructions(Results(lines))[k] == Halt
    requires forall j :: 0 <= j < k ==> Straight(Instructions(Results(lines))[j])
    requires fuel > k
    ensures Run(Started(Parse(lines).value), fuel).status == Halted
    ensures Run(Started(Parse(lines).value), fuel).m.regs
            == ExecAll(Instructions(Results(lines))[..k], Zeros(NumRegisters))
  {
    ParseSucceeds(lines);
    var prog := Instructions(Results(lines));
    var m := Started(Parse(lines).value);
    assert Holds(m, prog);
    HaltsAfter(m, prog, k, fuel);
  }
}
