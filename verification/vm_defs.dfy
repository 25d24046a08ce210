/** The tables shared by the assembler and the virtual machine (vm_defs.h), together with the
    16-bit word type and the memory image both sides agree on. */
module VmDefs {
  import opened Wrappers

  /** Number of words in the machine's memory. */
  const MemSize: nat := 65536

  /** An unsigned 16-bit word, the C `unsigned short`. */
  type Word = x: int | 0 <= x < 65536

  /** Conversion of an `int` to `unsigned short`: reduction modulo 2^16 (never negative). */
  function Wrap(x: int): (w: Word)
    ensures (w - x) % 65536 == 0
    ensures 0 <= x < 65536 ==> w == x
  {
    x % 65536
  }

  /** A negative value converts to its 16-bit two's complement. */
  lemma WrapNegative(n: nat)
    ensures Wrap(-(n as int)) == if n % 65536 == 0 then 0 else 65536 - n % 65536
  {
    var q, r := n / 65536, n % 65536;
    assert -(n as int) == 65536 * -q - r;
  }

  /** The register file, in the order of the register enum. */
  datatype Register = AX | BX | CX | DX | SP | IP | FLAGS

  /** `NUM_REGISTERS`: the enum's terminating member. */
  const NumRegisters: nat := 7

  /** The enum value of a register, which is also its index in the register array. */
  function Id(r: Register): (id: nat)
    ensures id < NumRegisters
  {
    match r
    case AX => 0
    case BX => 1
    case CX => 2
    case DX => 3
    case SP => 4
    case IP => 5
    case FLAGS => 6
  }

  /** The register whose enum value is `id`, if any. */
  function RegisterOf(id: int): (r: Option<Register>)
    ensures r.Some? <==> 0 <= id < NumRegisters
    ensures r.Some? ==> Id(r.value) == id
  {
    if id == 0 then Some(AX)
    else if id == 1 then Some(BX)
    else if id == 2 then Some(CX)
    else if id == 3 then Some(DX)
    else if id == 4 then Some(SP)
    else if id == 5 then Some(IP)
    else if id == 6 then Some(FLAGS)
    else None
  }

  /** Register ids are the consecutive values 0 .. 6: every id below NUM_REGISTERS names exactly one register. */
  lemma RegisterIdsConsecutive()
    ensures forall r: Register :: RegisterOf(Id(r)) == Some(r)
    ensures forall id :: 0 <= id < NumRegisters ==> RegisterOf(id).Some?
    ensures forall r1: Register, r2: Register :: Id(r1) == Id(r2) ==> r1 == r2
    ensures Id(AX) == 0 && Id(IP) == 5 && Id(FLAGS) == 6 && NumRegisters == 7
  {
    forall r: Register ensures RegisterOf(Id(r)) == Some(r) {
      match r
      case AX =>
      case BX =>
      case CX =>
      case DX =>
      case SP =>
      case IP =>
      case FLAGS =>
    }
  }

  /** The opcodes of the instruction set, in the order of the instruction enum. */
  datatype Opcode =
    | HLT | MOV | ADD | SUB | MOV_REG_REG | ADD_REG_REG | SUB_REG_REG | JMP | CMP | JE | JNE

  /** The number of the opcode, as stored in memory. */
  function Code(op: Opcode): (c: Word)
    ensures c <= 10
  {
    match op
    case HLT => 0
    case MOV => 1
    case ADD => 2
    case SUB => 3
    case MOV_REG_REG => 4
    case ADD_REG_REG => 5
    case SUB_REG_REG => 6
    case JMP => 7
    case CMP => 8
    case JE => 9
    case JNE => 10
  }

  /** The opcode a memory word denotes, or None for a word outside the instruction set. */
  function OpcodeOf(w: int): (r: Option<Opcode>)
    ensures r.Some? <==> 0 <= w <= 10
    ensures r.Some? ==> Code(r.value) == w
  {
    if w == 0 then Some(HLT)
    else if w == 1 then Some(MOV)
    else if w == 2 then Some(ADD)
    else if w == 3 then Some(SUB)
    else if w == 4 then Some(MOV_REG_REG)
    else if w == 5 then Some(ADD_REG_REG)
    else if w == 6 then Some(SUB_REG_REG)
    else if w == 7 then Some(JMP)
    else if w == 8 then Some(CMP)
    else if w == 9 then Some(JE)
    else if w == 10 then Some(JNE)
    else None
  }

  /** Opcodes are distinct values that decode back to themselves. */
  lemma OpcodesDistinct()
    ensures forall op: Opcode :: OpcodeOf(Code(op)) == Some(op)
    ensures forall a: Opcode, b: Opcode :: Code(a) == Code(b) ==> a == b
  {
    forall op: Opcode ensures OpcodeOf(Code(op)) == Some(op) {
      match op
      case HLT =>
      case MOV =>
      case ADD =>
      case SUB =>
      case MOV_REG_REG =>
      case ADD_REG_REG =>
      case SUB_REG_REG =>
      case JMP =>
      case CMP =>
      case JE =>
      case JNE =>
    }
  }

  /** The register-register variant of each arithmetic opcode is its immediate variant plus 3,
      and the jump family sits around CMP. */
  lemma OpcodeLayout()
    ensures Code(MOV_REG_REG) == Code(MOV) + 3
    ensures Code(ADD_REG_REG) == Code(ADD) + 3
    ensures Code(SUB_REG_REG) == Code(SUB) + 3
    ensures Code(JMP) == 7 && Code(CMP) == 8 && Code(JE) == 9 && Code(JNE) == 10
  {
  }

  /** Number of operand words that follow each opcode in memory. */
  function OperandWords(op: Opcode): nat
  {
    match op
    case HLT => 0
    case MOV | ADD | SUB | MOV_REG_REG | ADD_REG_REG | SUB_REG_REG => 2
    case JMP | JE | JNE => 1
    case CMP => 4
  }

  /** A zero-initialised sequence of words. */
  function Zeros(n: nat): (z: seq<Word>)
    ensures |z| == n
    ensures forall k :: 0 <= k < n ==> z[k] == 0
  {
    seq(n, k => 0)
  }

  /** `out` is `mem` with `words` written from index 0 on and every later word left untouched. */
  predicate Loaded(out: seq<Word>, mem: seq<Word>, words: seq<Word>)
  {
    && |words| <= |mem|
    && |out| == |mem|
    && out[..|words|] == words
    && out[|words|..] == mem[|words|..]
  }

  /** Writes `words` into `mem` from index 0 on. */
  function Load(mem: seq<Word>, words: seq<Word>): (out: seq<Word>)
    requires |words| <= |mem|
    ensures Loaded(out, mem, words)
  {
    words + mem[|words|..]
  }
}
