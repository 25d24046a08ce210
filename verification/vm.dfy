/** The virtual machine (vm.c): a fetch-decode-execute loop over a 65536-word memory and a
    seven-entry register file. The register file and memory are an explicit machine value
    instead of the C globals, and the unbounded loop becomes a step function plus a run with a
    step budget. */
module Vm {
  import opened Wrappers
  import opened VmDefs
  import opened Isa

  /** Registers indexed by register id, and memory indexed by address. */
  datatype Machine = Machine(regs: seq<Word>, mem: seq<Word>)

  /** A register file of NUM_REGISTERS words and a memory of 65536 words. */
  predicate Valid(m: Machine)
  {
    |m.regs| == NumRegisters && |m.mem| == MemSize
  }

  /** The fresh machine of a run: every register zero (so IP is 0) and the given memory. */
  function Boot(mem: seq<Word>): (m: Machine)
    requires |mem| == MemSize
    ensures Valid(m)
    ensures forall r: Register :: m.regs[Id(r)] == 0
  {
    Machine(Zeros(NumRegisters), mem)
  }

  /** Why a run ended. `Undefined` stands for the C code indexing out of bounds: an operand
      read past address 65535, or a register id of 7 or more. */
  datatype Status = Halted | UnknownOpcode | Undefined | OutOfFuel

  datatype Outcome = Running(m: Machine) | Stopped(m: Machine, status: Status)

  /** The state after the `switch` of one loop iteration: the register file, the `running`
      flag and the `ip_incremented` flag; `Fault` when the C code would index out of bounds. */
  datatype Dispatch = Dispatch(regs: seq<Word>, running: bool, ipIncremented: bool) | Fault

  /** `registers[IP] += n` on 16-bit registers. */
  function Advance(regs: seq<Word>, n: nat): seq<Word>
    requires |regs| == NumRegisters
  {
    regs[Id(IP) := Wrap(regs[Id(IP)] + n)]
  }

  /** A CMP operand's value: `registers[val]` for tag 0, the value itself for any other tag. */
  function Resolve(regs: seq<Word>, tag: Word, val: Word): Option<Word>
  {
    if tag != 0 then Some(val)
    else if val < |regs| then Some(regs[val])
    else None
  }

  /** The arithmetic cases of the switch (vm.c:34-81): the destination is written first, then
      IP advances by 3. */
  function SwitchArith(regs: seq<Word>, mem: seq<Word>, op: Opcode): Dispatch
    requires |regs| == NumRegisters && |mem| == MemSize
    requires regs[Id(IP)] + 2 < MemSize
  {
    var ip := regs[Id(IP)];
    var reg := mem[ip + 1];
    var val := mem[ip + 2];
    if reg >= NumRegisters then Fault
    else if op in {MOV, ADD, SUB} then
      var v :=
        if op == MOV then val
        else if op == ADD then Wrap(regs[reg] as int + val)
        else Wrap(regs[reg] as int - val);
      Dispatch(Advance(regs[reg := v], 3), true, true)
    else if val >= NumRegisters then Fault
    else
      var v :=
        if op == MOV_REG_REG then regs[val]
        else if op == ADD_REG_REG then Wrap(regs[reg] as int + regs[val])
        else Wrap(regs[reg] as int - regs[val]);
      Dispatch(Advance(regs[reg := v], 3), true, true)
  }

  /** The CMP case of the switch (vm.c:88-110): FLAGS becomes 1 on equality and 0 otherwise,
      then IP advances by 5. */
  function SwitchCmp(regs: seq<Word>, mem: seq<Word>): Dispatch
    requires |regs| == NumRegisters && |mem| == MemSize
    requires regs[Id(IP)] + 4 < MemSize
  {
    var ip := regs[Id(IP)];
    match (Resolve(regs, mem[ip + 1], mem[ip + 2]), Resolve(regs, mem[ip + 3], mem[ip + 4]))
    case (Some(val1), Some(val2)) =>
      Dispatch(Advance(regs[Id(FLAGS) := if val1 == val2 then 1 else 0], 5), true, true)
    case _ => Fault
  }

  /** The jump cases of the switch (vm.c:82-87, 111-130): a taken jump sets IP to the address
      word, a jump not taken skips it. */
  function SwitchJump(regs: seq<Word>, mem: seq<Word>, op: Opcode): Dispatch
    requires |regs| == NumRegisters && |mem| == MemSize
    requires regs[Id(IP)] + 1 < MemSize
  {
    var ip := regs[Id(IP)];
    var taken :=
      if op == JMP then true
      else if op == JE then regs[Id(FLAGS)] == 1
      else regs[Id(FLAGS)] == 0;
    if taken then Dispatch(regs[Id(IP) := mem[ip + 1]], true, true)
    else Dispatch(Advance(regs, 2), true, true)
  }

  /** The `switch` of `run_vm` on the opcode at IP (vm.c:29-135). Every case that keeps the
      machine running advances IP itself, so the fallback `IP++` (vm.c:137-140) never fires;
      HLT and unknown opcodes stop with the registers untouched. */
  function Switch(regs: seq<Word>, mem: seq<Word>): (d: Dispatch)
    requires |regs| == NumRegisters && |mem| == MemSize
    ensures d.Dispatch? ==> |d.regs| == NumRegisters
    ensures d.Dispatch? && d.running ==> d.ipIncremented
    ensures d.Dispatch? && !d.running ==> d.regs == regs
    ensures (d.Dispatch? && !d.running) <==> (mem[regs[Id(IP)]] == Code(HLT) || mem[regs[Id(IP)]] > 10)
  {
    var ip := regs[Id(IP)];
    match OpcodeOf(mem[ip])
    case None => Dispatch(regs, false, false)
    case Some(op) =>
      if op == HLT then Dispatch(regs, false, false)
      else if ip + OperandWords(op) >= MemSize then Fault
      else if op in {JMP, JE, JNE} then SwitchJump(regs, mem, op)
      else if op == CMP then SwitchCmp(regs, mem)
      else SwitchArith(regs, mem, op)
  }

  /** One iteration of the loop in `run_vm` (vm.c:21-141). The interpreter never writes memory,
      and a stop leaves every register as it was. The fallback `IP++` is left out because
      `Switch` never reports a running machine whose IP was not advanced. */
  function Step(m: Machine): (o: Outcome)
    requires Valid(m)
    ensures Valid(o.m) && o.m.mem == m.mem
    ensures o.Stopped? ==> o.m == m && o.status != OutOfFuel
    ensures o.Stopped? && o.status == Halted <==> m.mem[m.regs[Id(IP)]] == Code(HLT)
    ensures o.Stopped? && o.status == UnknownOpcode <==> m.mem[m.regs[Id(IP)]] > 10
  {
    match Switch(m.regs, m.mem)
    case Fault => Stopped(m, Undefined)
    case Dispatch(regs, running, _) =>
      if running then Running(m.(regs := regs))
      else if m.mem[m.regs[Id(IP)]] == Code(HLT) then Stopped(m, Halted)
      else Stopped(m, UnknownOpcode)
  }

  /** The value an operand denotes in a register file. */
  function Value(o: Operand, regs: seq<Word>): Word
    requires |regs| == NumRegisters
  {
    match o
    case Reg(r) => regs[Id(r)]
    case Imm(v) => v
  }

  /** The new value of an arithmetic instruction's destination, on 16-bit words. */
  function Combine(op: ArithOp, prev: Word, v: Word): Word
  {
    match op
    case Move => v
    case Add => Wrap(prev + v)
    case Sub => Wrap(prev - v)
  }

  /** Whether a jump is taken for a given FLAGS value. */
  predicate Taken(c: JumpCond, flags: Word)
  {
    match c
    case Always => true
    case IfEqual => flags == 1
    case IfNotEqual => flags == 0
  }

  /** The meaning of one instruction on the register file. The destination is written first and
      IP advanced afterwards, so an instruction writing IP has the advance added on top. */
  function Exec(i: Instr, regs: seq<Word>): (r: seq<Word>)
    requires |regs| == NumRegisters
    ensures |r| == NumRegisters
    ensures forall x: Register :: x != IP && Dest(i) != Some(x) ==> r[Id(x)] == regs[Id(x)]
    ensures i.Halt? ==> r == regs
    ensures i.Arith? && i.dst != IP ==>
              && r[Id(i.dst)] == Combine(i.op, regs[Id(i.dst)], Value(i.src, regs))
              && r[Id(IP)] == Wrap(regs[Id(IP)] + Width(i))
    ensures i.Arith? && i.dst == IP ==>
              r[Id(IP)] == Wrap(Combine(i.op, regs[Id(IP)], Value(i.src, regs)) + Width(i))
    ensures i.Compare? ==>
              && (r[Id(FLAGS)] == 1 <==> Value(i.lhs, regs) == Value(i.rhs, regs))
              && (r[Id(FLAGS)] == 0 <==> Value(i.lhs, regs) != Value(i.rhs, regs))
              && r[Id(IP)] == Wrap(regs[Id(IP)] + Width(i))
    ensures i.Jump? ==>
              r[Id(IP)] == if Taken(i.cond, regs[Id(FLAGS)]) then i.target else Wrap(regs[Id(IP)] + Width(i))
  {
    match i
    case Halt => regs
    case Arith(op, d, src) =>
      Advance(regs[Id(d) := Combine(op, regs[Id(d)], Value(src, regs))], 3)
    case Compare(a, b) =>
      Advance(regs[Id(FLAGS) := if Value(a, regs) == Value(b, regs) then 1 else 0], 5)
    case Jump(c, t) =>
      if Taken(c, regs[Id(FLAGS)]) then regs[Id(IP) := t] else Advance(regs, 2)
  }

  /** The arithmetic cases of the switch execute the instruction `Decode` reads at IP, or fault
      when a register id operand is out of range. */
  lemma ArithAgrees(regs: seq<Word>, mem: seq<Word>, op: Opcode)
    requires |regs| == NumRegisters && |mem| == MemSize
    requires regs[Id(IP)] + 2 < MemSize
    requires op in {MOV, ADD, SUB, MOV_REG_REG, ADD_REG_REG, SUB_REG_REG}
    requires OpcodeOf(mem[regs[Id(IP)]]) == Some(op)
    ensures Decode(mem, regs[Id(IP)]).BadOperand? ==> SwitchArith(regs, mem, op) == Fault
    ensures Decode(mem, regs[Id(IP)]).Instruction? ==>
              SwitchArith(regs, mem, op) == Dispatch(Exec(Decode(mem, regs[Id(IP)]).instr, regs), true, true)
  {
    if op in {MOV, ADD, SUB} {
      ArithImmediateAgrees(regs, mem, op);
    } else {
      ArithRegisterAgrees(regs, mem, op);
    }
  }

  /** `ArithAgrees` for MOV, ADD and SUB with an immediate. */
  lemma ArithImmediateAgrees(regs: seq<Word>, mem: seq<Word>, op: Opcode)
    requires |regs| == NumRegisters && |mem| == MemSize
    requires regs[Id(IP)] + 2 < MemSize
    requires op in {MOV, ADD, SUB}
    requires OpcodeOf(mem[regs[Id(IP)]]) == Some(op)
    ensures Decode(mem, regs[Id(IP)]).BadOperand? ==> SwitchArith(regs, mem, op) == Fault
    ensures Decode(mem, regs[Id(IP)]).Instruction? ==>
              SwitchArith(regs, mem, op) == Dispatch(Exec(Decode(mem, regs[Id(IP)]).instr, regs), true, true)
  {
    var ip := regs[Id(IP)];
    if RegisterOf(mem[ip + 1]).Some? {
      assert Decode(mem, ip).instr.dst == RegisterOf(mem[ip + 1]).value;
    }
  }

  /** `ArithAgrees` for the register-register variants. */
  lemma ArithRegisterAgrees(regs: seq<Word>, mem: seq<Word>, op: Opcode)
    requires |regs| == NumRegisters && |mem| == MemSize
    requires regs[Id(IP)] + 2 < MemSize
    requires op in {MOV_REG_REG, ADD_REG_REG, SUB_REG_REG}
    requires OpcodeOf(mem[regs[Id(IP)]]) == Some(op)
    ensures Decode(mem, regs[Id(IP)]).BadOperand? ==> SwitchArith(regs, mem, op) == Fault
    ensures Decode(mem, regs[Id(IP)]).Instruction? ==>
              SwitchArith(regs, mem, op) == Dispatch(Exec(Decode(mem, regs[Id(IP)]).instr, regs), true, true)
  {
    var ip := regs[Id(IP)];
    if RegisterOf(mem[ip + 1]).Some? && RegisterOf(mem[ip + 2]).Some? {
      assert Decode(mem, ip).instr.dst == RegisterOf(mem[ip + 1]).value;
      assert Decode(mem, ip).instr.src == Reg(RegisterOf(mem[ip + 2]).value);
    }
  }

  /** The CMP case of the switch executes the comparison `Decode` reads at IP, or faults. */
  lemma CmpAgrees(regs: seq<Word>, mem: seq<Word>)
    requires |regs| == NumRegisters && |mem| == MemSize
    requires regs[Id(IP)] + 4 < MemSize
    requires OpcodeOf(mem[regs[Id(IP)]]) == Some(CMP)
    ensures Decode(mem, regs[Id(IP)]).BadOperand? ==> SwitchCmp(regs, mem) == Fault
    ensures Decode(mem, regs[Id(IP)]).Instruction? ==>
              SwitchCmp(regs, mem) == Dispatch(Exec(Decode(mem, regs[Id(IP)]).instr, regs), true, true)
  {
    var ip := regs[Id(IP)];
    forall tag: Word, v: Word
      ensures OperandOf(tag, v).Some? <==> Resolve(regs, tag, v).Some?
      ensures OperandOf(tag, v).Some? ==> Value(OperandOf(tag, v).value, regs) == Resolve(regs, tag, v).value
    {
    }
  }

  /** The jump cases of the switch execute the jump `Decode` reads at IP. */
  lemma JumpAgrees(regs: seq<Word>, mem: seq<Word>, op: Opcode)
    requires |regs| == NumRegisters && |mem| == MemSize
    requires regs[Id(IP)] + 1 < MemSize
    requires op in {JMP, JE, JNE}
    requires OpcodeOf(mem[regs[Id(IP)]]) == Some(op)
    ensures Decode(mem, regs[Id(IP)]).Instruction?
    ensures SwitchJump(regs, mem, op) == Dispatch(Exec(Decode(mem, regs[Id(IP)]).instr, regs), true, true)
  {
  }

  /** The interpreter's switch agrees with decoding the instruction at IP and executing it:
      an unknown opcode and HLT stop, an out-of-bounds access is undefined, and every other
      instruction runs to completion. */
  lemma StepDecodes(m: Machine)
    requires Valid(m)
    ensures Decode(m.mem, m.regs[Id(IP)]).NotAnOpcode? ==> Step(m) == Stopped(m, UnknownOpcode)
    ensures Decode(m.mem, m.regs[Id(IP)]).BadOperand? ==> Step(m) == Stopped(m, Undefined)
    ensures Decode(m.mem, m.regs[Id(IP)]) == Instruction(Halt) ==> Step(m) == Stopped(m, Halted)
    ensures Decode(m.mem, m.regs[Id(IP)]).Instruction? && Decode(m.mem, m.regs[Id(IP)]).instr != Halt ==>
              Step(m) == Running(m.(regs := Exec(Decode(m.mem, m.regs[Id(IP)]).instr, m.regs)))
  {
    var ip := m.regs[Id(IP)];
    match OpcodeOf(m.mem[ip])
    case None =>
    case Some(op) =>
      if op == HLT {
      } else if ip + OperandWords(op) >= MemSize {
      } else if op in {JMP, JE, JNE} {
        JumpAgrees(m.regs, m.mem, op);
      } else if op == CMP {
        CmpAgrees(m.regs, m.mem);
      } else {
        ArithAgrees(m.regs, m.mem, op);
      }
  }

  /** Result of a bounded run: the final machine and why it ended. */
  datatype RunResult = RunResult(m: Machine, status: Status)

  /** What the run loop needs of a step function: defined on every valid machine, keeping it
      valid with its memory unwritten, and stopping for a reason other than the budget. `Step`
      is one (`StepBehaves`); the fuel lemmas below hold for any. */
  ghost predicate Behaves(step: Machine --> Outcome)
  {
    forall m {:trigger step.requires(m)} :: Valid(m) ==>
      && step.requires(m) && Valid(step(m).m) && step(m).m.mem == m.mem
      && (step(m).Stopped? ==> step(m).status != OutOfFuel)
  }

  /** `Step` is a step function the run loop can iterate. */
  lemma StepBehaves()
    ensures Behaves(Step)
  {
    forall m | Valid(m)
      ensures Step.requires(m) && Valid(Step(m).m) && Step(m).m.mem == m.mem
      ensures Step(m).Stopped? ==> Step(m).status != OutOfFuel
    {
    }
  }

  /** At most `fuel` iterations of the loop around `step`. */
  function Iterate(step: Machine --> Outcome, m: Machine, fuel: nat): (r: RunResult)
    requires Behaves(step) && Valid(m)
    ensures Valid(r.m) && r.m.mem == m.mem
    decreases fuel
  {
    if fuel == 0 then RunResult(m, OutOfFuel)
    else match step(m)
      case Running(m') => Iterate(step, m', fuel - 1)
      case Stopped(m', status) => RunResult(m', status)
  }

  /** `run_vm` (vm.c:16-141) with at most `fuel` iterations of its loop. Memory is never
      written. */
  function Run(m: Machine, fuel: nat): (r: RunResult)
    requires Valid(m)
    ensures Valid(r.m) && r.m.mem == m.mem
  {
    StepBehaves();
    Iterate(Step, m, fuel)
  }

  /** A run that ends before its budget does ends exactly where a step stops, for the reason
      that step gives. */
  lemma {:induction false} RunEndsStopped(m: Machine, fuel: nat)
    requires Valid(m)
    ensures Run(m, fuel).status != OutOfFuel ==> Step(Run(m, fuel).m) == Stopped(Run(m, fuel).m, Run(m, fuel).status)
    decreases fuel
  {
    if fuel > 0 && Step(m).Running? {
      RunEndsStopped(Step(m).m, fuel - 1);
    }
  }

  /** One iteration of a run with budget left: a running machine goes on with one step less,
      a stopped one ends the run. */
  lemma RunStep(m: Machine, fuel: nat)
    requires Valid(m) && fuel > 0
    ensures Step(m).Running? ==> Run(m, fuel) == Run(Step(m).m, fuel - 1)
    ensures Step(m).Stopped? ==> Run(m, fuel) == RunResult(m, Step(m).status)
  {
  }

  /** A run that comes, with budget left, to a machine whose step stops ends there. */
  lemma RunReaches(m: Machine, fuel: nat, mk: Machine, left: nat)
    requires Valid(m) && Valid(mk) && left > 0
    requires Run(m, fuel) == Run(mk, left) && Step(mk).Stopped?
    ensures Run(m, fuel) == RunResult(mk, Step(mk).status)
  {
    RunStep(mk, left);
  }

  /** A budget of zero runs nothing. */
  lemma RunNone(m: Machine)
    requires Valid(m)
    ensures Run(m, 0) == RunResult(m, OutOfFuel)
  {
  }

  /** A loop that stopped within its budget is not changed by a larger one. */
  lemma {:induction false} IterateMoreFuel(step: Machine --> Outcome, m: Machine, fuel: nat, extra: nat)
    requires Behaves(step) && Valid(m)
    requires Iterate(step, m, fuel).status != OutOfFuel
    ensures Iterate(step, m, fuel + extra) == Iterate(step, m, fuel)
    decreases fuel
  {
    if step(m).Running? {
      var m' := step(m).m;
      assert Iterate(step, m, fuel) == Iterate(step, m', fuel - 1);
      assert Iterate(step, m, fuel + extra) == Iterate(step, m', fuel - 1 + extra);
      IterateMoreFuel(step, m', fuel - 1, extra);
    }
  }

  /** A budget of `a + b` that outlasts `a` is `a` iterations followed by `b` more. */
  lemma {:induction false} IterateSplit(step: Machine --> Outcome, m: Machine, a: nat, b: nat)
    requires Behaves(step) && Valid(m)
    requires Iterate(step, m, a).status == OutOfFuel
    ensures Iterate(step, m, a + b) == Iterate(step, Iterate(step, m, a).m, b)
    decreases a
  {
    if a == 0 {
      assert Iterate(step, m, a) == RunResult(m, OutOfFuel);
    } else {
      var m' := step(m).m;
      assert Iterate(step, m, a) == Iterate(step, m', a - 1);
      assert Iterate(step, m, a + b) == Iterate(step, m', a - 1 + b);
      IterateSplit(step, m', a - 1, b);
    }
  }

  /** A machine the step leaves unchanged uses up any budget. */
  lemma {:induction false} IterateSpins(step: Machine --> Outcome, m: Machine, fuel: nat)
    requires Behaves(step) && Valid(m) && step(m) == Running(m)
    ensures Iterate(step, m, fuel) == RunResult(m, OutOfFuel)
    decreases fuel
  {
    if fuel > 0 {
      IterateSpins(step, m, fuel - 1);
    }
  }

  /** Iterating through a chain of running steps skips to its `k`-th machine. */
  lemma {:induction false} IterateTrace(step: Machine --> Outcome, ms: seq<Machine>, k: nat, fuel: nat)
    requires Behaves(step) && k < |ms| && k <= fuel
    requires forall j :: 0 <= j <= k ==> Valid(ms[j])
    requires forall j :: 0 <= j < k ==> step(ms[j]) == Running(ms[j + 1])
    ensures Iterate(step, ms[0], fuel) == Iterate(step, ms[k], fuel - k)
    decreases k
  {
    if k > 0 {
      var rest := ms[1..];
      assert rest[0] == ms[1] && rest[k - 1] == ms[k];
      assert forall j :: 0 <= j < k - 1 ==> step(rest[j]) == Running(rest[j + 1]) by {
        forall j | 0 <= j < k - 1 ensures step(rest[j]) == Running(rest[j + 1]) {
          assert rest[j] == ms[j + 1] && rest[j + 1] == ms[j + 2];
        }
      }
      IterateTrace(step, rest, k - 1, fuel - 1);
      assert Iterate(step, ms[0], fuel) == Iterate(step, ms[1], fuel - 1);
    }
  }

  /** A run that goes through the machines `ms[0]`, ..., `ms[k]` one step at a time is, after
      those `k` iterations, a run from `ms[k]` with the `left` remaining iterations. */
  lemma RunTrace(ms: seq<Machine>, k: nat, fuel: nat, left: nat)
    requires k < |ms| && fuel == k + left
    requires forall j :: 0 <= j <= k ==> Valid(ms[j])
    requires forall j :: 0 <= j < k ==> Step(ms[j]) == Running(ms[j + 1])
    ensures Run(ms[0], fuel) == Run(ms[k], left)
  {
    StepBehaves();
    IterateTrace(Step, ms, k, fuel);
  }

  /** A run that stopped within its budget gives the same result under any larger budget. */
  lemma RunMoreFuel(m: Machine, fuel: nat, extra: nat)
    requires Valid(m)
    requires Run(m, fuel).status != OutOfFuel
    ensures Run(m, fuel + extra) == Run(m, fuel)
  {
    StepBehaves();
    IterateMoreFuel(Step, m, fuel, extra);
  }

  /** Running for `a + b` steps is running for `a` steps and then, if the machine is still
      going, for `b` more. */
  lemma RunSplit(m: Machine, a: nat, b: nat)
    requires Valid(m)
    ensures Run(m, a).status == OutOfFuel ==> Run(m, a + b) == Run(Run(m, a).m, b)
    ensures Run(m, a).status != OutOfFuel ==> Run(m, a + b) == Run(m, a)
  {
    StepBehaves();
    if Run(m, a).status == OutOfFuel {
      IterateSplit(Step, m, a, b);
    } else {
      IterateMoreFuel(Step, m, a, b);
    }
  }

  /** A run that stopped within `n` iterations gives the same result under any budget of at
      least `n`. */
  lemma RunStopped(m: Machine, n: nat, fuel: nat)
    requires Valid(m) && n <= fuel
    requires Run(m, n).status != OutOfFuel
    ensures Run(m, fuel) == Run(m, n)
  {
    var extra := fuel - n;
    RunMoreFuel(m, n, extra);
    assert n + extra == fuel;
  }

  /** A machine that one step leaves exactly as it was never stops. */
  lemma SpinsForever(m: Machine, fuel: nat)
    requires Valid(m) && Step(m) == Running(m)
    ensures Run(m, fuel) == RunResult(m, OutOfFuel)
  {
    StepBehaves();
    IterateSpins(Step, m, fuel);
  }
}
