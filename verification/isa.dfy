/** The instruction format the assembler emits (parser.c:100-220) and the virtual machine reads
    (vm.c:29-135): an opcode word followed by a fixed number of operand words. */
module Isa {
  import opened Wrappers
  import opened VmDefs

  /** An instruction operand: a register or a 16-bit immediate. */
  datatype Operand = Reg(r: Register) | Imm(v: Word)

  /** The three arithmetic instructions; each has an immediate and a register-register opcode. */
  datatype ArithOp = Move | Add | Sub

  /** The three jumps: JMP, JE (FLAGS == 1) and JNE (FLAGS == 0). */
  datatype JumpCond = Always | IfEqual | IfNotEqual

  /** One instruction of the surface language. */
  datatype Instr =
    | Halt
    | Arith(op: ArithOp, dst: Register, src: Operand)
    | Jump(cond: JumpCond, target: Word)
    | Compare(lhs: Operand, rhs: Operand)

  /** The opcode word an instruction is encoded with; the operand kind of an arithmetic
      instruction selects between its two opcodes. */
  function Lead(i: Instr): Opcode
  {
    match i
    case Halt => HLT
    case Arith(Move, _, Imm(_)) => MOV
    case Arith(Add, _, Imm(_)) => ADD
    case Arith(Sub, _, Imm(_)) => SUB
    case Arith(Move, _, Reg(_)) => MOV_REG_REG
    case Arith(Add, _, Reg(_)) => ADD_REG_REG
    case Arith(Sub, _, Reg(_)) => SUB_REG_REG
    case Jump(Always, _) => JMP
    case Jump(IfEqual, _) => JE
    case Jump(IfNotEqual, _) => JNE
    case Compare(_, _) => CMP
  }

  /** Number of words an instruction occupies: its opcode word and the opcode's operand words. */
  function Width(i: Instr): (n: nat)
    ensures n == 1 + OperandWords(Lead(i))
    ensures i.Halt? ==> n == 1
    ensures i.Arith? ==> n == 3
    ensures i.Jump? ==> n == 2
    ensures i.Compare? ==> n == 5
  {
    1 + OperandWords(Lead(i))
  }

  /** A CMP operand as a type tag (0 register, 1 immediate) followed by its value. */
  function Tagged(o: Operand): seq<Word>
  {
    match o
    case Reg(r) => [0, Id(r)]
    case Imm(v) => [1, v]
  }

  /** The words the assembler emits for one instruction. */
  function Encode(i: Instr): (ws: seq<Word>)
    ensures |ws| == Width(i)
    ensures ws[0] == Code(Lead(i))
  {
    match i
    case Halt => [Code(HLT)]
    case Arith(_, d, Imm(v)) => [Code(Lead(i)), Id(d), v]
    case Arith(_, d, Reg(s)) => [Code(Lead(i)), Id(d), Id(s)]
    case Jump(_, t) => [Code(Lead(i)), t]
    case Compare(a, b) => [Code(CMP)] + Tagged(a) + Tagged(b)
  }

  /** The words of a program: its instructions' encodings laid end to end from offset 0. */
  function Flatten(prog: seq<Instr>): (ws: seq<Word>)
    decreases |prog|
  {
    if |prog| == 0 then [] else Flatten(prog[..|prog| - 1]) + Encode(prog[|prog| - 1])
  }

  /** Offset of instruction `k`: the total width of the instructions before it. */
  function Offset(prog: seq<Instr>, k: nat): nat
    requires k <= |prog|
  {
    |Flatten(prog[..k])|
  }

  /** The words of a prefix of a program are a prefix of the program's words. */
  lemma {:induction false} FlattenPrefix(prog: seq<Instr>, k: nat)
    requires k <= |prog|
    ensures Flatten(prog[..k]) <= Flatten(prog)
    decreases |prog|
  {
    if k < |prog| {
      var init := prog[..|prog| - 1];
      FlattenPrefix(init, k);
      assert init[..k] == prog[..k];
    } else {
      assert prog[..k] == prog;
    }
  }

  /** Instruction `k` of a program occupies the words from its offset on, and the next
      instruction starts `Width(prog[k])` words later. */
  lemma FlattenAt(prog: seq<Instr>, k: nat)
    requires k < |prog|
    ensures Offset(prog, k + 1) == Offset(prog, k) + Width(prog[k])
    ensures Offset(prog, k + 1) <= |Flatten(prog)|
    ensures Flatten(prog)[Offset(prog, k)..Offset(prog, k + 1)] == Encode(prog[k])
  {
    var p, e := Flatten(prog[..k]), Encode(prog[k]);
    assert Flatten(prog[..k + 1]) == p + e by {
      assert prog[..k + 1][..k] == prog[..k];
    }
    FlattenPrefix(prog, k + 1);
    SliceOfPrefix(Flatten(prog), p, e);
  }

  /** A piece of a prefix sits at its place in the whole sequence. */
  lemma SliceOfPrefix(f: seq<Word>, p: seq<Word>, e: seq<Word>)
    requires p + e <= f
    ensures f[|p|..|p| + |e|] == e
  {
    assert f[..|p| + |e|] == p + e;
    assert (p + e)[|p|..] == e;
  }

  /** Result of decoding the instruction at an address. */
  datatype Decoded =
    | Instruction(instr: Instr)
    | NotAnOpcode
      /** The opcode is known but an operand word lies past the end of memory, or names a
          register id of 7 or more: the C code indexes out of bounds. */
    | BadOperand

  /** A CMP operand from its tag and value: tag 0 names a register, any other tag a literal. */
  function OperandOf(tag: Word, v: Word): Option<Operand>
  {
    if tag != 0 then Some(Imm(v))
    else match RegisterOf(v)
      case Some(r) => Some(Reg(r))
      case None => None
  }

  /** An arithmetic instruction from its destination word and decoded source operand. */
  function DecodeArith(op: ArithOp, dst: Word, src: Option<Operand>): Decoded
  {
    match (RegisterOf(dst), src)
    case (Some(d), Some(s)) => Instruction(Arith(op, d, s))
    case _ => BadOperand
  }

  /** A register operand from a register id word. */
  function RegOperand(w: Word): Option<Operand>
  {
    match RegisterOf(w)
    case Some(r) => Some(Reg(r))
    case None => None
  }

  /** The instruction the machine finds at address `at`, read the way vm.c reads it. */
  function Decode(mem: seq<Word>, at: nat): (d: Decoded)
    requires at < |mem|
    ensures d.NotAnOpcode? <==> mem[at] > 10
    ensures d.Instruction? ==> at + Width(d.instr) <= |mem| && Code(Lead(d.instr)) == mem[at]
  {
    match OpcodeOf(mem[at])
    case None => NotAnOpcode
    case Some(op) =>
      if at + 1 + OperandWords(op) > |mem| then BadOperand
      else match op
        case HLT => Instruction(Halt)
        case MOV => DecodeArith(Move, mem[at + 1], Some(Imm(mem[at + 2])))
        case ADD => DecodeArith(Add, mem[at + 1], Some(Imm(mem[at + 2])))
        case SUB => DecodeArith(Sub, mem[at + 1], Some(Imm(mem[at + 2])))
        case MOV_REG_REG => DecodeArith(Move, mem[at + 1], RegOperand(mem[at + 2]))
        case ADD_REG_REG => DecodeArith(Add, mem[at + 1], RegOperand(mem[at + 2]))
        case SUB_REG_REG => DecodeArith(Sub, mem[at + 1], RegOperand(mem[at + 2]))
        case JMP => Instruction(Jump(Always, mem[at + 1]))
        case JE => Instruction(Jump(IfEqual, mem[at + 1]))
        case JNE => Instruction(Jump(IfNotEqual, mem[at + 1]))
        case CMP =>
          match (OperandOf(mem[at + 1], mem[at + 2]), OperandOf(mem[at + 3], mem[at + 4]))
          case (Some(a), Some(b)) => Instruction(Compare(a, b))
          case _ => BadOperand
  }

  /** Decoding the words the assembler emitted for an instruction gives that instruction back. */
  lemma DecodeEncode(i: Instr, mem: seq<Word>, at: nat)
    requires at + Width(i) <= |mem|
    requires mem[at..at + Width(i)] == Encode(i)
    ensures Decode(mem, at) == Instruction(i)
  {
    assert OpcodeOf(mem[at]) == Some(Lead(i)) by {
      assert mem[at] == Encode(i)[0];
      OpcodesDistinct();
    }
    match i
    case Halt =>
    case Arith(_, _, _) =>
      DecodeEncodeArith(i, mem, at);
    case Jump(_, _) =>
      assert mem[at + 1] == Encode(i)[1];
    case Compare(_, _) =>
      DecodeEncodeCompare(i, mem, at);
  }

  /** `DecodeEncode` for MOV, ADD and SUB. */
  lemma DecodeEncodeArith(i: Instr, mem: seq<Word>, at: nat)
    requires i.Arith?
    requires at + Width(i) <= |mem|
    requires mem[at..at + Width(i)] == Encode(i)
    requires OpcodeOf(mem[at]) == Some(Lead(i))
    ensures Decode(mem, at) == Instruction(i)
  {
    var ws := Encode(i);
    assert mem[at + 1] == ws[1] && mem[at + 2] == ws[2];
    assert RegisterOf(mem[at + 1]) == Some(i.dst) by {
      RegisterIdsConsecutive();
    }
    if i.src.Reg? {
      assert RegOperand(mem[at + 2]) == Some(i.src) by {
        RegisterIdsConsecutive();
      }
    }
  }

  /** `DecodeEncode` for CMP. */
  lemma DecodeEncodeCompare(i: Instr, mem: seq<Word>, at: nat)
    requires i.Compare?
    requires at + Width(i) <= |mem|
    requires mem[at..at + Width(i)] == Encode(i)
    requires OpcodeOf(mem[at]) == Some(Lead(i))
    ensures Decode(mem, at) == Instruction(i)
  {
    var ws := Encode(i);
    assert mem[at + 1] == ws[1] && mem[at + 2] == ws[2];
    assert mem[at + 3] == ws[3] && mem[at + 4] == ws[4];
    assert OperandOf(ws[1], ws[2]) == Some(i.lhs) && OperandOf(ws[3], ws[4]) == Some(i.rhs) by {
      RegisterIdsConsecutive();
    }
  }

  /** The register an instruction writes besides IP: the destination of an arithmetic
      instruction, FLAGS for CMP, none for HLT and the jumps. */
  function Dest(i: Instr): Option<Register>
  {
    match i
    case Arith(_, d, _) => Some(d)
    case Compare(_, _) => Some(FLAGS)
    case _ => None
  }
}
