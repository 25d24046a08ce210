/** The assembler's encoder (parser.c:10-227): lines of text become a word image, or the
    first failing line's number and reason. */
module Parser {
  import opened Wrappers
  import opened VmDefs
  import opened Text
  import opened Isa

  /** The register names `get_reg_id` recognises. */
  function RegName(r: Register): string
  {
    match r
    case AX => "AX"
    case BX => "BX"
    case CX => "CX"
    case DX => "DX"
    case SP => "SP"
    case IP => "IP"
    case FLAGS => "FLAGS"
  }

  /** `get_reg_id`: the register named by the token, upper-cased and cut to nine characters. */
  function GetRegId(s: string): Option<Register>
  {
    var u := Upper(s[..if |s| < 9 then |s| else 9]);
    if u == "AX" then Some(AX)
    else if u == "BX" then Some(BX)
    else if u == "CX" then Some(CX)
    else if u == "DX" then Some(DX)
    else if u == "SP" then Some(SP)
    else if u == "IP" then Some(IP)
    else if u == "FLAGS" then Some(FLAGS)
    else None
  }

  /** `get_reg_id` recognises a token exactly when its upper-cased form is a register name.
      Upper-casing only the first nine characters never creates a match, because every
      register name is shorter. */
  lemma GetRegIdSpec(s: string)
    ensures forall x: Register :: GetRegId(s) == Some(x) <==> Upper(s) == RegName(x)
  {
    var n := if |s| < 9 then |s| else 9;
    assert |s| <= 9 ==> s[..n] == s;
    assert |Upper(s[..n])| == n;
  }

  /** What `sscanf(line, "%s %31[^,],%s", ...)` extracts: the number of fields converted, the
      mnemonic, the first operand (everything up to the first comma) and the second operand
      (the first word after the comma). Fields that were not converted are empty. */
  datatype Fields = Fields(count: nat, mnemonic: string, arg1: string, arg2: string)

  /** No character of `s` is white space. */
  predicate NoSpace(s: string)
  {
    forall k :: 0 <= k < |s| ==> !IsSpace(s[k])
  }

  /** No character of `s` is a comma. */
  predicate NoComma(s: string)
  {
    forall k :: 0 <= k < |s| ==> s[k] != ','
  }

  /** The end of the longest run of characters satisfying `p` that starts at index `i`. */
  function SpanFrom(t: string, i: nat, p: char -> bool): (j: nat)
    requires i <= |t|
    ensures i <= j <= |t|
    ensures forall k :: i <= k < j ==> p(t[k])
    ensures j < |t| ==> !p(t[j])
    decreases |t| - i
  {
    if i == |t| || !p(t[i]) then i else SpanFrom(t, i + 1, p)
  }

  /** Every character of `t` from `i` up to `j` satisfies `p`, and the one at `j`, if any,
      does not. */
  predicate RunTo(t: string, i: nat, j: nat, p: char -> bool)
  {
    i <= j <= |t| && (forall k :: i <= k < j ==> p(t[k])) && (j < |t| ==> !p(t[j]))
  }

  /** How `sscanf` sees a line, by its characters: white space up to `a`, the first word up
      to `b`, white space up to `c`, a run of non-commas up to `d`; when the line goes on
      past `d` a comma stands there, then white space up to `e` and a word up to `g`. */
  predicate Layout(t: string, a: nat, b: nat, c: nat, d: nat, e: nat, g: nat)
  {
    && RunTo(t, 0, a, IsSpace) && RunTo(t, a, b, NotSpace)
    && RunTo(t, b, c, IsSpace) && RunTo(t, c, d, NotComma)
    && (d < |t| ==> RunTo(t, d + 1, e, IsSpace) && RunTo(t, e, g, NotSpace))
  }

  /** Every line has its layout. */
  lemma LayoutExists(t: string)
    ensures exists a: nat, b: nat, c: nat, d: nat, e: nat, g: nat :: Layout(t, a, b, c, d, e, g)
  {
    var a := SpanFrom(t, 0, IsSpace);
    var b := SpanFrom(t, a, NotSpace);
    var c := SpanFrom(t, b, IsSpace);
    var d := SpanFrom(t, c, NotComma);
    if d < |t| {
      var e := SpanFrom(t, d + 1, IsSpace);
      var g := SpanFrom(t, e, NotSpace);
      assert Layout(t, a, b, c, d, e, g);
    } else {
      assert Layout(t, a, b, c, d, d, d);
    }
  }

  /** A layout's positions are where the scans of the line stop. */
  lemma LayoutSpans(t: string)
    ensures forall a: nat, b: nat, c: nat, d: nat, e: nat, g: nat :: Layout(t, a, b, c, d, e, g) ==>
              && a == SpanFrom(t, 0, IsSpace) && b == SpanFrom(t, a, NotSpace)
              && c == SpanFrom(t, b, IsSpace) && d == SpanFrom(t, c, NotComma)
              && (d < |t| ==> e == SpanFrom(t, d + 1, IsSpace) && g == SpanFrom(t, e, NotSpace))
  {
    forall a: nat, b: nat, c: nat, d: nat, e: nat, g: nat | Layout(t, a, b, c, d, e, g)
      ensures && a == SpanFrom(t, 0, IsSpace) && b == SpanFrom(t, a, NotSpace)
              && c == SpanFrom(t, b, IsSpace) && d == SpanFrom(t, c, NotComma)
              && (d < |t| ==> e == SpanFrom(t, d + 1, IsSpace) && g == SpanFrom(t, e, NotSpace))
    {
      SpanFromExact(t, 0, a, IsSpace);
      SpanFromExact(t, a, b, NotSpace);
      SpanFromExact(t, b, c, IsSpace);
      SpanFromExact(t, c, d, NotComma);
      if d < |t| {
        SpanFromExact(t, d + 1, e, IsSpace);
        SpanFromExact(t, e, g, NotSpace);
      }
    }
  }

  /** Fields `f` match the layout with positions `a`..`g`: the mnemonic is the first word, a
      first argument exists exactly when a non-comma follows the white space after it and
      runs to the first comma or the end, and a second exists exactly when a comma ends the
      first and a word follows, and is that word. */
  predicate Fits(t: string, f: Fields, a: nat, b: nat, c: nat, d: nat, e: nat, g: nat)
    requires Layout(t, a, b, c, d, e, g)
  {
    && (f.count >= 1 <==> a < b)
    && (f.count >= 1 ==> f.mnemonic == t[a..b])
    && (f.count >= 2 <==> a < b && c < d)
    && (f.count >= 2 ==> f.arg1 == t[c..d])
    && (f.count == 3 <==> a < b && c < d && d < |t| && e < g)
    && (f.count == 3 ==> f.arg2 == t[e..g])
  }

  /** Fields that match one layout of a line match all of them: the positions that matter
      are fixed by the line. */
  lemma {:induction false} FitsEveryLayout(t: string, f: Fields, a: nat, b: nat, c: nat, d: nat, e: nat, g: nat)
    requires Layout(t, a, b, c, d, e, g) && Fits(t, f, a, b, c, d, e, g)
    ensures forall a': nat, b': nat, c': nat, d': nat, e': nat, g': nat :: Layout(t, a', b', c', d', e', g') ==>
              Fits(t, f, a', b', c', d', e', g')
  {
    LayoutSpans(t);
  }

  /** The split of a trimmed line into fields: `%s` skips white space and reads a word, the
      blank skips white space, `%[^,]` reads a non-empty run of non-commas, `,` must match, and
      the final `%s` skips white space and reads a word. `TokenizeLayout` states the fields
      by the line's layout. */
  function Tokenize(t: string): (f: Fields)
    ensures f.count <= 3
    ensures |t| > 0 && !IsSpace(t[0]) ==> f.count >= 1
    ensures f.count >= 1 ==> |f.mnemonic| > 0 && NoSpace(f.mnemonic)
    ensures f.count >= 2 ==> |f.arg1| > 0 && !IsSpace(f.arg1[0]) && NoComma(f.arg1)
    ensures f.count == 3 ==> |f.arg2| > 0 && NoSpace(f.arg2)
  {
    var a := SpanFrom(t, 0, IsSpace);
    var b := SpanFrom(t, a, NotSpace);
    if b == a then Fields(0, "", "", "") else Operands(t, t[a..b], b)
  }

  /** The fields of every line match its layout: the mnemonic is its first word; a first
      argument exists exactly when a non-comma follows the white space after the mnemonic,
      and runs to the first comma or the end; a second exists exactly when a comma ends the
      first and a word follows the white space after it, and is that word. */
  lemma {:induction false} TokenizeLayout(t: string)
    ensures forall a: nat, b: nat, c: nat, d: nat, e: nat, g: nat :: Layout(t, a, b, c, d, e, g) ==>
              Fits(t, Tokenize(t), a, b, c, d, e, g)
  {
    var a := SpanFrom(t, 0, IsSpace);
    var b := SpanFrom(t, a, NotSpace);
    var c := SpanFrom(t, b, IsSpace);
    var d := SpanFrom(t, c, NotComma);
    var e := if d < |t| then SpanFrom(t, d + 1, IsSpace) else d;
    var g := if d < |t| then SpanFrom(t, e, NotSpace) else d;
    assert Layout(t, a, b, c, d, e, g);
    if a == b {
      assert c == |t|;
    } else {
      OperandsLayout(t, t[a..b], b, c, d, e, g);
      assert Tokenize(t) == Operands(t, t[a..b], b);
    }
    FitsEveryLayout(t, Tokenize(t), a, b, c, d, e, g);
  }

  /** The operands found after the mnemonic are the runs the scans delimit. */
  lemma OperandsLayout(t: string, name: string, b: nat, c: nat, d: nat, e: nat, g: nat)
    requires b <= |t| && c == SpanFrom(t, b, IsSpace) && d == SpanFrom(t, c, NotComma)
    requires e == (if d < |t| then SpanFrom(t, d + 1, IsSpace) else d)
    requires g == (if d < |t| then SpanFrom(t, e, NotSpace) else d)
    ensures c <= d <= |t| && e <= g <= |t|
    ensures (Operands(t, name, b).count >= 2 <==> c < d)
    ensures Operands(t, name, b).count >= 2 ==> Operands(t, name, b).arg1 == t[c..d]
    ensures (Operands(t, name, b).count == 3 <==> c < d && d < |t| && e < g)
    ensures Operands(t, name, b).count == 3 ==> Operands(t, name, b).arg2 == t[e..g]
  {
  }

  /** The fields after a mnemonic `name` that ends at index `b`. */
  function Operands(t: string, name: string, b: nat): (f: Fields)
    requires b <= |t|
    ensures f.mnemonic == name && 1 <= f.count <= 3
    ensures f.count >= 2 ==> |f.arg1| > 0 && !IsSpace(f.arg1[0]) && NoComma(f.arg1)
    ensures f.count == 3 ==> |f.arg2| > 0 && NoSpace(f.arg2)
  {
    var c := SpanFrom(t, b, IsSpace);
    var d := SpanFrom(t, c, NotComma);
    if d == c then Fields(1, name, "", "")
    else if d == |t| then Fields(2, name, t[c..d], "")
    else
      var e := SpanFrom(t, d + 1, IsSpace);
      var g := SpanFrom(t, e, NotSpace);
      if g == e then Fields(2, name, t[c..d], "")
      else Fields(3, name, t[c..d], t[e..g])
  }

  /** The mnemonic of an arithmetic operation. */
  function ArithName(op: ArithOp): string
  {
    match op
    case Move => "MOV"
    case Add => "ADD"
    case Sub => "SUB"
  }

  /** The mnemonic of a jump. */
  function JumpName(c: JumpCond): string
  {
    match c
    case Always => "JMP"
    case IfEqual => "JE"
    case IfNotEqual => "JNE"
  }

  /** The mnemonic an instruction is written with. */
  function Mnemonic(i: Instr): string
  {
    match i
    case Halt => "HLT"
    case Arith(op, _, _) => ArithName(op)
    case Jump(c, _) => JumpName(c)
    case Compare(_, _) => "CMP"
  }

  /** Why a line was refused. `MemoryExhausted` is this model's defined failure for a program
      that no longer fits in the 65536-word memory; the C code writes past the array. */
  datatype ErrorKind =
    | SyntaxError
    | MissingArguments(mnemonic: string)
    | InvalidRegister(mnemonic: string, text: string)
    | InvalidArgument(mnemonic: string, text: string)
    | BadAddress(mnemonic: string)
    | UnknownInstruction(text: string)
    | MemoryExhausted

  /** What one line contributes: nothing, an instruction, or an error together with the words
      already written for the line before the error was detected. */
  datatype LineResult =
    | Blank
    | Emit(instr: Instr)
    | Reject(kind: ErrorKind, partial: seq<Word>)

  /** The only refusal that leaves words behind is CMP's bad second operand, after exactly the
      opcode, the tag 0 and the register (parser.c:186-206). */
  predicate PartialIsCmp(r: LineResult)
  {
    r.Reject? && r.partial != [] ==>
      r.kind.InvalidArgument? && r.kind.mnemonic == "CMP"
      && |r.partial| == 3 && r.partial[0] == Code(CMP) && r.partial[1] == 0
  }

  /** An immediate operand: the `atoi` value stored into an unsigned short. */
  function Immediate(s: string): Word
    requires IsNumber(s)
  {
    Wrap(Atoi(s))
  }

  /** A negative immediate is stored as its 16-bit two's complement: `-1` is 65535, and a
      multiple of 65536 is 0. */
  lemma ImmediateNegative(n: nat)
    ensures IsNumber("-" + Decimal(n))
    ensures Immediate("-" + Decimal(n)) == if n % 65536 == 0 then 0 else 65536 - n % 65536
  {
    AtoiNegative(n);
    WrapNegative(n);
  }

  /** MOV, ADD and SUB (parser.c:102-173). */
  function ArithLine(op: ArithOp, f: Fields): (r: LineResult)
    ensures r.Emit? ==> r.instr.Arith? && r.instr.op == op
    ensures r.Reject? ==> r.partial == [] && (r.kind.MissingArguments? || r.kind.InvalidRegister? || r.kind.InvalidArgument?)
    ensures !r.Blank?
  {
    if f.count < 3 then Reject(MissingArguments(ArithName(op)), [])
    else ArithOperands(op, Trim(f.arg1), Trim(f.arg2))
  }

  /** The trimmed operands of MOV, ADD or SUB. */
  function ArithOperands(op: ArithOp, a1: string, a2: string): (r: LineResult)
    ensures r.Emit? ==> r.instr.Arith? && r.instr.op == op
    ensures r.Reject? ==> r.partial == [] && (r.kind.InvalidRegister? || r.kind.InvalidArgument?)
    ensures !r.Blank?
  {
    var name := ArithName(op);
    match GetRegId(a1)
    case None => Reject(InvalidRegister(name, a1), [])
    case Some(d) =>
      if IsNumber(a2) then Emit(Arith(op, d, Imm(Immediate(a2))))
      else match GetRegId(a2)
        case None => Reject(InvalidArgument(name, a2), [])
        case Some(s) => Emit(Arith(op, d, Reg(s)))
  }

  /** JMP, JE and JNE (parser.c:174-180, 207-220): the operand must be a number. */
  function JumpLine(c: JumpCond, f: Fields): (r: LineResult)
    ensures r.Emit? ==> r.instr.Jump? && r.instr.cond == c
    ensures r.Reject? ==> r.partial == [] && r.kind == BadAddress(JumpName(c))
    ensures !r.Blank?
  {
    if f.count < 2 || !IsNumber(Trim(f.arg1)) then Reject(BadAddress(JumpName(c)), [])
    else Emit(Jump(c, Immediate(Trim(f.arg1))))
  }

  /** CMP (parser.c:181-206): the first operand must be a register; the opcode, its tag and the
      register id are written before the second operand is examined. */
  function CmpLine(f: Fields): (r: LineResult)
    ensures r.Emit? ==> r.instr.Compare? && r.instr.lhs.Reg?
    ensures r.Reject? ==> r.kind.MissingArguments? || r.kind.InvalidRegister? || r.kind.InvalidArgument?
    ensures PartialIsCmp(r)
    ensures !r.Blank?
  {
    if f.count < 3 then Reject(MissingArguments("CMP"), [])
    else CmpOperands(Trim(f.arg1), Trim(f.arg2))
  }

  /** The trimmed operands of CMP. */
  function CmpOperands(a1: string, a2: string): (r: LineResult)
    ensures r.Emit? ==> r.instr.Compare? && r.instr.lhs.Reg?
    ensures r.Reject? ==> r.kind.InvalidRegister? || r.kind.InvalidArgument?
    ensures PartialIsCmp(r)
    ensures !r.Blank?
  {
    match GetRegId(a1)
    case None => Reject(InvalidRegister("CMP", a1), [])
    case Some(r1) =>
      if IsNumber(a2) then Emit(Compare(Reg(r1), Imm(Immediate(a2))))
      else match GetRegId(a2)
        case None => Reject(InvalidArgument("CMP", a2), [Code(CMP), 0, Id(r1)])
        case Some(r2) => Emit(Compare(Reg(r1), Reg(r2)))
  }

  /** What `parse` works on of a physical line: the C string up to its first NUL byte, with
      the comment and the surrounding white space gone. */
  function Visible(raw: string): (r: string)
    ensures forall k :: 0 <= k < |r| ==> r[k] != '\0'
    ensures |r| > 0 ==> !IsSpace(r[0]) && !IsSpace(r[|r| - 1])
  {
    var c := StripComment(CString(raw));
    assert forall k :: 0 <= k < |c| ==> c[k] != '\0';
    Trim(c)
  }

  /** The fields of a physical line. */
  function FieldsOf(raw: string): Fields
  {
    Tokenize(Visible(raw))
  }

  /** The instruction selected by the upper-cased mnemonic (parser.c:100-224). */
  function Instruction(name: string, f: Fields): (r: LineResult)
    ensures !r.Blank?
    ensures r.Emit? ==> name == Mnemonic(r.instr)
    ensures r.Emit? && r.instr.Compare? ==> r.instr.lhs.Reg?
    ensures r.Reject? ==> r.kind != SyntaxError && r.kind != MemoryExhausted
    ensures PartialIsCmp(r)
  {
    if name == "HLT" then Emit(Halt) else ArithInstruction(name, f)
  }

  /** From MOV on (parser.c:102-224). */
  function ArithInstruction(name: string, f: Fields): (r: LineResult)
    ensures !r.Blank?
    ensures r.Emit? ==> name == Mnemonic(r.instr)
    ensures r.Emit? && r.instr.Compare? ==> r.instr.lhs.Reg?
    ensures r.Reject? ==> r.kind != SyntaxError && r.kind != MemoryExhausted
    ensures PartialIsCmp(r)
  {
    match ArithNamed(name)
    case Some(op) => ArithLine(op, f)
    case None => ControlInstruction(name, f)
  }

  /** The operation `name` spells, if it is MOV, ADD or SUB. */
  function ArithNamed(name: string): (r: Option<ArithOp>)
    ensures r.Some? <==> name == "MOV" || name == "ADD" || name == "SUB"
    ensures r.Some? ==> ArithName(r.value) == name
  {
    if name == "MOV" then Some(Move)
    else if name == "ADD" then Some(Add)
    else if name == "SUB" then Some(Sub)
    else None
  }

  /** The rest of the chain in `parse` (parser.c:174-224): the jumps, CMP and an unknown
      mnemonic. */
  function ControlInstruction(name: string, f: Fields): (r: LineResult)
    ensures !r.Blank?
    ensures r.Emit? ==> name == Mnemonic(r.instr)
    ensures r.Emit? && r.instr.Compare? ==> r.instr.lhs.Reg?
    ensures r.Reject? ==> r.kind != SyntaxError && r.kind != MemoryExhausted
    ensures PartialIsCmp(r)
  {
    if name == "JMP" then JumpLine(Always, f) else CompareInstruction(name, f)
  }

  /** From CMP on (parser.c:181-224). */
  function CompareInstruction(name: string, f: Fields): (r: LineResult)
    ensures !r.Blank?
    ensures r.Emit? ==> name == Mnemonic(r.instr)
    ensures r.Emit? && r.instr.Compare? ==> r.instr.lhs.Reg?
    ensures r.Reject? ==> r.kind != SyntaxError && r.kind != MemoryExhausted
    ensures PartialIsCmp(r)
  {
    if name == "CMP" then CmpLine(f) else ConditionalInstruction(name, f)
  }

  /** The end of the chain (parser.c:207-224): the conditional jumps and an unknown mnemonic. */
  function ConditionalInstruction(name: string, f: Fields): (r: LineResult)
    ensures !r.Blank?
    ensures r.Emit? ==> r.instr.Jump? && name == Mnemonic(r.instr)
    ensures r.Reject? ==> r.partial == [] && (r.kind.BadAddress? || r.kind.UnknownInstruction?)
  {
    if name == "JE" then JumpLine(IfEqual, f)
    else if name == "JNE" then JumpLine(IfNotEqual, f)
    else Reject(UnknownInstruction(name), [])
  }

  /** One iteration of the loop in `parse` (parser.c:64-224): the C string functions stop at
      a NUL byte, the comment is cut, white space trimmed, an empty line skipped, and
      otherwise the line's mnemonic selects the encoding. The `num_parsed < 1` branch cannot
      be taken, since a trimmed non-empty line starts with a word. */
  function ParseLine(raw: string): (r: LineResult)
    ensures r.Blank? <==> |Visible(raw)| == 0
    ensures r.Reject? ==> r.kind != SyntaxError && r.kind != MemoryExhausted
    ensures PartialIsCmp(r)
    ensures r.Emit? ==> Upper(FieldsOf(raw).mnemonic) == Mnemonic(r.instr)
    ensures r.Emit? && r.instr.Compare? ==> r.instr.lhs.Reg?
  {
    var t := Visible(raw);
    if |t| == 0 then Blank
    else
      var f := Tokenize(t);
      if f.count < 1 then Reject(SyntaxError, [])
      else Instruction(Upper(f.mnemonic), f)
  }

  /** The immediate opcode of an arithmetic instruction; its register-register opcode is
      three higher. */
  function ImmediateOpcode(op: ArithOp): Opcode
  {
    match op
    case Move => MOV
    case Add => ADD
    case Sub => SUB
  }

  /** Operand handling of MOV, ADD and SUB (with `a1`, `a2` the trimmed operands): a first
      operand that is not a register is refused; a numeric second operand selects the immediate
      opcode followed by the register id and the value modulo 65536, a register selects the
      opcode three higher followed by both register ids, anything else is refused. Fewer than
      three fields are refused before the operands are looked at. */
  lemma ArithEncoding(op: ArithOp, a1: string, a2: string)
    ensures forall f: Fields :: f.count < 3 ==> ArithLine(op, f) == Reject(MissingArguments(ArithName(op)), [])
    ensures forall f: Fields :: f.count == 3 ==> ArithLine(op, f) == ArithOperands(op, Trim(f.arg1), Trim(f.arg2))
    ensures GetRegId(a1).None? ==> ArithOperands(op, a1, a2) == Reject(InvalidRegister(ArithName(op), a1), [])
    ensures GetRegId(a1).Some? && IsNumber(a2) ==>
              && ArithOperands(op, a1, a2).Emit?
              && Encode(ArithOperands(op, a1, a2).instr)
                 == [Code(ImmediateOpcode(op)), Id(GetRegId(a1).value), Wrap(Atoi(a2))]
    ensures GetRegId(a1).Some? && !IsNumber(a2) && GetRegId(a2).Some? ==>
              && ArithOperands(op, a1, a2).Emit?
              && Encode(ArithOperands(op, a1, a2).instr)
                 == [Code(ImmediateOpcode(op)) + 3, Id(GetRegId(a1).value), Id(GetRegId(a2).value)]
    ensures GetRegId(a1).Some? && !IsNumber(a2) && GetRegId(a2).None? ==>
              ArithOperands(op, a1, a2) == Reject(InvalidArgument(ArithName(op), a2), [])
  {
  }

  /** CMP needs three fields and then looks at its operands trimmed. */
  lemma CmpFields(f: Fields)
    ensures f.count < 3 ==> CmpLine(f) == Reject(MissingArguments("CMP"), [])
    ensures f.count == 3 ==> CmpLine(f) == CmpOperands(Trim(f.arg1), Trim(f.arg2))
  {
  }

  /** Operand handling of CMP (with `a1`, `a2` the trimmed operands): the words are CMP, tag 0
      and the first register, then tag 1 and the value for a numeric second operand or tag 0
      and the register id for a register; for any other second operand the first three words
      are already written when it is refused. */
  lemma CmpEncoding(a1: string, a2: string)
    ensures GetRegId(a1).None? ==> CmpOperands(a1, a2) == Reject(InvalidRegister("CMP", a1), [])
    ensures GetRegId(a1).Some? && IsNumber(a2) ==>
              && CmpOperands(a1, a2).Emit?
              && Encode(CmpOperands(a1, a2).instr) == [8, 0, Id(GetRegId(a1).value), 1, Wrap(Atoi(a2))]
    ensures GetRegId(a1).Some? && !IsNumber(a2) && GetRegId(a2).Some? ==>
              && CmpOperands(a1, a2).Emit?
              && Encode(CmpOperands(a1, a2).instr) == [8, 0, Id(GetRegId(a1).value), 0, Id(GetRegId(a2).value)]
    ensures GetRegId(a1).Some? && !IsNumber(a2) && GetRegId(a2).None? ==>
              CmpOperands(a1, a2) == Reject(InvalidArgument("CMP", a2), [8, 0, Id(GetRegId(a1).value)])
  {
  }

  /** JMP, JE and JNE need a numeric first operand and emit their opcode and the address. */
  lemma JumpEncoding(c: JumpCond, f: Fields)
    ensures JumpLine(c, f).Emit? <==> f.count >= 2 && IsNumber(Trim(f.arg1))
    ensures JumpLine(c, f).Emit? ==>
              Encode(JumpLine(c, f).instr)
              == [if c == Always then 7 else if c == IfEqual then 9 else 10, Wrap(Atoi(Trim(f.arg1)))]
  {
  }

  /** HLT ignores its operands; a mnemonic outside the instruction set is refused by name. */
  lemma MnemonicSelection(name: string, f: Fields)
    ensures name == "HLT" ==> Instruction(name, f) == Emit(Halt)
    ensures name !in {"HLT", "MOV", "ADD", "SUB", "JMP", "CMP", "JE", "JNE"} ==>
              Instruction(name, f) == Reject(UnknownInstruction(name), [])
  {
  }

  /** MOV, ADD and SUB each select their own arithmetic encoding. */
  lemma ArithSelection(op: ArithOp, f: Fields)
    ensures Instruction(ArithName(op), f) == ArithLine(op, f)
  {
    var name := ArithName(op);
    assert name != "HLT" by { assert name[0] != "HLT"[0]; }
    match op
    case Move =>
    case Add =>
      assert name != "MOV" by { assert name[0] != "MOV"[0]; }
    case Sub =>
      assert name != "MOV" by { assert name[0] != "MOV"[0]; }
      assert name != "ADD" by { assert name[0] != "ADD"[0]; }
  }

  /** A failed assembly: the 1-based physical line, the reason, and the words written to memory
      from address 0 before `parse` returned. */
  datatype ParseError = ParseError(line: nat, kind: ErrorKind, written: seq<Word>)

  /** Appends one line's contribution at the write cursor `|words|`. */
  function Feed(words: seq<Word>, lineNo: nat, res: LineResult): Result<seq<Word>, ParseError>
  {
    match res
    case Blank => Success(words)
    case Emit(i) =>
      if |words| + Width(i) <= MemSize then Success(words + Encode(i))
      else Failure(ParseError(lineNo, MemoryExhausted, words))
    case Reject(kind, partial) =>
      if |words| + |partial| <= MemSize then Failure(ParseError(lineNo, kind, words + partial))
      else Failure(ParseError(lineNo, MemoryExhausted, words))
  }

  /** The loop of `parse` over the lines' results, in order, each at the line number of its
      position; the first failing line ends the assembly. */
  function Fold(rs: seq<LineResult>): (r: Result<seq<Word>, ParseError>)
    ensures r.Success? ==> |r.value| <= MemSize
    ensures r.Failure? ==> 1 <= r.error.line <= |rs| && |r.error.written| <= MemSize
    decreases |rs|
  {
    if |rs| == 0 then Success([])
    else match Fold(rs[..|rs| - 1])
      case Failure(e) => Failure(e)
      case Success(words) => Feed(words, |rs|, rs[|rs| - 1])
  }

  /** What each physical line contributes. */
  function Results(lines: seq<string>): (rs: seq<LineResult>)
    ensures |rs| == |lines|
    ensures forall k :: 0 <= k < |lines| ==> rs[k] == ParseLine(lines[k])
  {
    seq(|lines|, k requires 0 <= k < |lines| => ParseLine(lines[k]))
  }

  /** `parse` (parser.c:55-227): a program that fits in memory, or the number of a line of
      the source with its reason. */
  function Parse(lines: seq<string>): (r: Result<seq<Word>, ParseError>)
    ensures r.Success? ==> |r.value| <= MemSize
    ensures r.Failure? ==> 1 <= r.error.line <= |lines|
  {
    Fold(Results(lines))
  }

  /** The instructions of the lines that assemble to one, in order. */
  function Instructions(rs: seq<LineResult>): seq<Instr>
    decreases |rs|
  {
    if |rs| == 0 then []
    else
      var init := Instructions(rs[..|rs| - 1]);
      match rs[|rs| - 1]
      case Emit(i) => init + [i]
      case _ => init
  }

  /** No line is refused on its own. */
  predicate Accepted(rs: seq<LineResult>)
  {
    forall k :: 0 <= k < |rs| ==> !rs[k].Reject?
  }

  /** One more instruction appends its encoding to the words. */
  lemma FlattenSnoc(prog: seq<Instr>, i: Instr)
    ensures Flatten(prog + [i]) == Flatten(prog) + Encode(i)
  {
    assert (prog + [i])[..|prog|] == prog;
  }

  /** Assembly succeeds exactly when no line is refused and the program fits in memory; the
      image is then the instructions' encodings laid end to end from address 0. */
  predicate FoldSpec(rs: seq<LineResult>)
  {
    && (Fold(rs).Success? <==> Accepted(rs) && |Flatten(Instructions(rs))| <= MemSize)
    && (Fold(rs).Success? ==> Fold(rs).value == Flatten(Instructions(rs)))
  }

  /** Acceptance of results, one result at a time from the end. */
  lemma AcceptedSnoc(rs: seq<LineResult>)
    requires |rs| > 0
    ensures Accepted(rs) <==> Accepted(rs[..|rs| - 1]) && !rs[|rs| - 1].Reject?
  {
    var init := rs[..|rs| - 1];
    assert forall k :: 0 <= k < |init| ==> init[k] == rs[k];
  }

  /** `FoldSpec` extends from a prefix to one more result. */
  lemma FoldSpecStep(rs: seq<LineResult>)
    requires |rs| > 0
    requires FoldSpec(rs[..|rs| - 1])
    ensures FoldSpec(rs)
  {
    var init := rs[..|rs| - 1];
    var last := rs[|rs| - 1];
    AcceptedSnoc(rs);
    var prog := Instructions(init);
    if last.Emit? {
      assert Instructions(rs) == prog + [last.instr];
      FlattenSnoc(prog, last.instr);
    } else {
      assert Instructions(rs) == prog;
    }
  }

  /** Assembly succeeds exactly when no line is refused and the program fits in memory; the
      image is then the instructions' encodings laid end to end from address 0, so the write
      cursor advanced by exactly the width of each instruction and not at all for blank lines. */
  lemma {:induction false} FoldSucceeds(rs: seq<LineResult>)
    ensures Fold(rs).Success? <==> Accepted(rs) && |Flatten(Instructions(rs))| <= MemSize
    ensures Fold(rs).Success? ==> Fold(rs).value == Flatten(Instructions(rs))
    decreases |rs|
  {
    if |rs| > 0 {
      FoldSucceeds(rs[..|rs| - 1]);
      FoldSpecStep(rs);
    }
  }

  /** The same, for the lines of a source text. */
  lemma ParseSucceeds(lines: seq<string>)
    ensures Parse(lines).Success? <==>
              (forall k :: 0 <= k < |lines| ==> !ParseLine(lines[k]).Reject?)
              && |Flatten(Instructions(Results(lines)))| <= MemSize
    ensures Parse(lines).Success? ==> Parse(lines).value == Flatten(Instructions(Results(lines)))
  {
    FoldSucceeds(Results(lines));
  }

  /** The first failing line ends the assembly: the lines after it are never looked at. */
  lemma {:induction false} FirstErrorWins(rs: seq<LineResult>, more: seq<LineResult>)
    requires Fold(rs).Failure?
    ensures Fold(rs + more) == Fold(rs)
    decreases |more|
  {
    if |more| > 0 {
      var init := more[..|more| - 1];
      FirstErrorWins(rs, init);
      assert (rs + more)[..|rs + more| - 1] == rs + init;
    } else {
      assert rs + more == rs;
    }
  }

  /** Where a failed assembly stopped: the error's line is the first line whose assembly fails,
      counting every physical line from 1, and it is not a blank line. */
  lemma {:induction false} ErrorLine(rs: seq<LineResult>)
    requires Fold(rs).Failure?
    ensures Fold(rs[..Fold(rs).error.line - 1]).Success?
    ensures Fold(rs[..Fold(rs).error.line]) == Fold(rs)
    ensures !rs[Fold(rs).error.line - 1].Blank?
    decreases |rs|
  {
    var init := rs[..|rs| - 1];
    if Fold(init).Failure? {
      ErrorLine(init);
      var n := Fold(init).error.line;
      assert init[..n - 1] == rs[..n - 1];
      assert init[..n] == rs[..n];
    } else {
      assert rs[..|rs|] == rs;
    }
  }

  /** The result of assembling with every error line number moved down by `n`. */
  function ShiftLines(r: Result<seq<Word>, ParseError>, n: nat): Result<seq<Word>, ParseError>
  {
    match r
    case Success(w) => Success(w)
    case Failure(e) => Failure(e.(line := e.line + n))
  }

  /** A blank or comment-only line emits nothing but still counts as a physical line: putting
      one in front of a program leaves its image unchanged and moves every error one line down. */
  lemma {:induction false} BlankLineCounts(rs: seq<LineResult>)
    ensures Fold([Blank] + rs) == ShiftLines(Fold(rs), 1)
    decreases |rs|
  {
    if |rs| == 0 {
      assert ([Blank] + rs)[..0] == [];
    } else {
      var init := rs[..|rs| - 1];
      BlankLineCounts(init);
      assert ([Blank] + rs)[..|rs|] == [Blank] + init;
      assert ([Blank] + rs)[|rs|] == rs[|rs| - 1];
      if Fold(init).Success? {
        FeedShift(Fold(init).value, |rs|, rs[|rs| - 1]);
      }
    }
  }

  /** Feeding a result at the next line number moves the error line, if any, by one. */
  lemma FeedShift(words: seq<Word>, n: nat, res: LineResult)
    ensures Feed(words, n + 1, res) == ShiftLines(Feed(words, n, res), 1)
  {
  }

  /** The same, for a physical line that is empty once its comment and white space are gone. */
  lemma BlankLineShiftsErrors(blank: string, lines: seq<string>)
    requires |Visible(blank)| == 0
    ensures Parse([blank] + lines) == ShiftLines(Parse(lines), 1)
  {
    ResultsCons(blank, lines);
    BlankLineCounts(Results(lines));
  }

  /** A line in front of a source puts its result in front of the results. */
  lemma ResultsCons(line: string, lines: seq<string>)
    ensures Results([line] + lines) == [ParseLine(line)] + Results(lines)
  {
    var rs := Results([line] + lines);
    assert rs[0] == ParseLine(line) by {
      assert ([line] + lines)[0] == line;
    }
    ResultsTail(line, lines);
    HeadTail(rs);
  }

  /** Dropping the first line drops its result. */
  lemma ResultsTail(line: string, lines: seq<string>)
    ensures Results([line] + lines)[1..] == Results(lines)
  {
    var rs := Results([line] + lines)[1..];
    forall k | 0 <= k < |rs| ensures rs[k] == Results(lines)[k] {
      ResultsShift(line, lines, k);
    }
    Pointwise(rs, Results(lines));
  }

  /** One more line at the end adds its own result at the end. */
  lemma ResultsSnoc(lines: seq<string>, line: string)
    ensures Results(lines + [line]) == Results(lines) + [ParseLine(line)]
  {
    var rs := Results(lines + [line]);
    assert rs[|lines|] == ParseLine(line) by {
      assert (lines + [line])[|lines|] == line;
    }
    forall k | 0 <= k < |lines| ensures rs[..|lines|][k] == Results(lines)[k] {
      ResultsKeep(lines, line, k);
    }
    Pointwise(rs[..|lines|], Results(lines));
    InitLast(rs);
  }

  /** A line at the end leaves the results of the lines before it alone. */
  lemma ResultsKeep(lines: seq<string>, line: string, k: nat)
    requires k < |lines|
    ensures Results(lines + [line])[k] == Results(lines)[k]
  {
    assert (lines + [line])[k] == lines[k];
  }

  /** A non-empty sequence is its front followed by its last element. */
  lemma InitLast<T>(a: seq<T>)
    requires |a| > 0
    ensures a == a[..|a| - 1] + [a[|a| - 1]]
  {
  }

  /** A source that assembles to a program, followed by one more line that assembles to one
      instruction which still fits, assembles to the program with that instruction appended. */
  lemma ParseSnoc(lines: seq<string>, line: string, prog: seq<Instr>, i: Instr)
    requires Parse(lines) == Success(Flatten(prog))
    requires ParseLine(line) == Emit(i)
    requires |Flatten(prog)| + Width(i) <= MemSize
    ensures Parse(lines + [line]) == Success(Flatten(prog + [i]))
  {
    var rs := Results(lines + [line]);
    ResultsSnoc(lines, line);
    assert rs[..|rs| - 1] == Results(lines);
    FlattenSnoc(prog, i);
  }

  /** A line in front moves every later result one place on. */
  lemma ResultsShift(line: string, lines: seq<string>, k: nat)
    requires k < |lines|
    ensures Results([line] + lines)[k + 1] == Results(lines)[k]
  {
    assert ([line] + lines)[k + 1] == lines[k];
  }

  /** A non-empty sequence is its first element followed by the rest. */
  lemma HeadTail<T>(a: seq<T>)
    requires |a| > 0
    ensures a == [a[0]] + a[1..]
  {
  }

  /** Sequences that agree at every index are equal. */
  lemma Pointwise<T>(a: seq<T>, b: seq<T>)
    requires |a| == |b| && forall k :: 0 <= k < |a| ==> a[k] == b[k]
    ensures a == b
  {
  }

  /** `memory[mem_ptr++] = w` for each word of `ws`, starting at address `at`. */
  method WriteWords(mem: seq<Word>, at: nat, ws: seq<Word>) returns (out: seq<Word>)
    requires at + |ws| <= |mem|
    ensures |out| == |mem|
    ensures forall j :: 0 <= j < at ==> out[j] == mem[j]
    ensures forall j :: 0 <= j < |ws| ==> out[at + j] == ws[j]
    ensures forall j :: at + |ws| <= j < |mem| ==> out[j] == mem[j]
  {
    out := mem;
    var k := 0;
    while k < |ws|
      invariant 0 <= k <= |ws|
      invariant |out| == |mem|
      invariant forall j :: 0 <= j < at ==> out[j] == mem[j]
      invariant forall j :: 0 <= j < k ==> out[at + j] == ws[j]
      invariant forall j :: at + k <= j < |mem| ==> out[j] == mem[j]
    {
      out := out[at + k := ws[k]];
      k := k + 1;
    }
  }

  /** The assembly of one more line of a prefix that succeeded, and a failure there is final. */
  lemma FoldPrefix(rs: seq<LineResult>, i: nat)
    requires i < |rs|
    requires Fold(rs[..i]).Success?
    ensures Fold(rs[..i + 1]) == Feed(Fold(rs[..i]).value, i + 1, rs[i])
    ensures Fold(rs[..i + 1]).Failure? ==> Fold(rs) == Fold(rs[..i + 1])
  {
    var p := rs[..i + 1];
    assert p[..|p| - 1] == rs[..i];
    assert p[|p| - 1] == rs[i];
    if Fold(p).Failure? {
      PrefixFailure(rs, i + 1);
    }
  }

  /** A failure of a prefix is the failure of the whole. */
  lemma PrefixFailure(rs: seq<LineResult>, n: nat)
    requires n <= |rs|
    requires Fold(rs[..n]).Failure?
    ensures Fold(rs) == Fold(rs[..n])
  {
    FirstErrorWins(rs[..n], rs[n..]);
    assert rs[..n] + rs[n..] == rs;
  }

  /** One line's writes at the cursor (parser.c:100-223): the words of the line go to
      `memory[cursor..]`, including the words CMP writes before refusing its second operand. */
  method FeedLine(out: seq<Word>, ghost mem: seq<Word>, ghost words: seq<Word>, cursor: nat, lineNo: nat, res: LineResult)
    returns (r: Result<nat, ParseError>, out': seq<Word>)
    requires |mem| == MemSize
    requires Loaded(out, mem, words) && cursor == |words|
    ensures r.Success? <==> Feed(words, lineNo, res).Success?
    ensures r.Success? ==> r.value == |Feed(words, lineNo, res).value| && Loaded(out', mem, Feed(words, lineNo, res).value)
    ensures r.Failure? ==> r.error == Feed(words, lineNo, res).error && Loaded(out', mem, r.error.written)
  {
    var emitted := match res
      case Blank => []
      case Emit(ins) => Encode(ins)
      case Reject(_, partial) => partial;
    if cursor + |emitted| > MemSize {
      r := Failure(ParseError(lineNo, MemoryExhausted, out[..cursor]));
      out' := out;
      return;
    }
    out' := WriteWords(out, cursor, emitted);
    assert out'[..cursor + |emitted|] == words + emitted;
    assert out'[cursor + |emitted|..] == mem[cursor + |emitted|..];
    if res.Reject? {
      r := Failure(ParseError(lineNo, res.kind, out'[..cursor + |emitted|]));
    } else {
      r := Success(cursor + |emitted|);
    }
  }

  /** `parse` writing into a memory image through a write cursor that starts at 0. On success
      the result is the final cursor, the image holds the program from address 0, and every word
      at and beyond the cursor is untouched; on failure the words already written stay written. */
  method Assemble(lines: seq<string>, mem: seq<Word>) returns (r: Result<nat, ParseError>, out: seq<Word>)
    requires |mem| == MemSize
    ensures r.Success? <==> Parse(lines).Success?
    ensures r.Success? ==> r.value == |Parse(lines).value| && Loaded(out, mem, Parse(lines).value)
    ensures r.Failure? ==> r.error == Parse(lines).error && Loaded(out, mem, r.error.written)
  {
    ghost var rs := Results(lines);
    out := mem;
    var cursor := 0;
    var i := 0;
    while i < |lines|
      invariant 0 <= i <= |lines|
      invariant Fold(rs[..i]).Success?
      invariant cursor == |Fold(rs[..i]).value|
      invariant Loaded(out, mem, Fold(rs[..i]).value)
    {
      ghost var words := Fold(rs[..i]).value;
      var res := ParseLine(lines[i]);
      FoldPrefix(rs, i);
      var step;
      step, out := FeedLine(out, mem, words, cursor, i + 1, res);
      if step.Failure? {
        r := step;
        return;
      }
      cursor := step.value;
      i := i + 1;
    }
    assert rs[..i] == rs;
    r := Success(cursor);
  }

  /** A run that ends at `j` is the run `SpanFrom` finds. */
  lemma SpanFromExact(t: string, i: nat, j: nat, p: char -> bool)
    requires i <= j <= |t|
    requires forall k :: i <= k < j ==> p(t[k])
    requires j < |t| ==> !p(t[j])
    ensures SpanFrom(t, i, p) == j
  {
  }

  /** No character of `s` is a slash or a NUL byte: no comment starts in it and C reads all
      of it. */
  predicate NoSlash(s: string)
  {
    forall k :: 0 <= k < |s| ==> s[k] != '/' && s[k] != '\0'
  }

  /** A word that could be written on its own in a line: no white space, comma, slash or NUL
      byte. */
  predicate Token(s: string)
  {
    |s| > 0 && NoSpace(s) && NoComma(s) && NoSlash(s)
  }

  /** A line holding nothing but its text, with no comment and no white space around it. */
  lemma {:induction false} PlainLine(t: string)
    requires |t| > 0 && NoSlash(t) && !IsSpace(t[0]) && !IsSpace(t[|t| - 1])
    ensures CString(t) == t && StripComment(t) == t && Trim(t) == t && Visible(t) == t
    ensures FieldsOf(t) == Tokenize(t)
  {
    CStringWhole(t);
    assert forall j :: 0 <= j < |t| ==> !CommentAt(t, j);
    assert t[..|t|] == t;
    assert Span(t, IsSpace) == 0;
    assert t[0..] == t;
    assert TrailingStart(t) == |t|;
  }

  /** A line written `NAME` assembles as the instruction `NAME` selects with no operands. */
  lemma {:induction false} BareLine(name: string)
    requires Token(name)
    ensures ParseLine(name) == Instruction(Upper(name), Fields(1, name, "", ""))
  {
    PlainLine(name);
    SpanFromExact(name, 0, 0, IsSpace);
    SpanFromExact(name, 0, |name|, NotSpace);
    SpanFromExact(name, |name|, |name|, IsSpace);
    SpanFromExact(name, |name|, |name|, NotComma);
    assert name[0..|name|] == name;
    assert Tokenize(name) == Fields(1, name, "", "");
  }

  /** The text of a line written `NAME A1, A2`, character by character. */
  lemma CanonicalChars(name: string, a1: string, a2: string)
    ensures var t := name + " " + a1 + ", " + a2;
            && |t| == |name| + |a1| + |a2| + 3
            && (forall k :: 0 <= k < |name| ==> t[k] == name[k])
            && t[|name|] == ' '
            && (forall k :: 0 <= k < |a1| ==> t[|name| + 1 + k] == a1[k])
            && t[|name| + 1 + |a1|] == ',' && t[|name| + 2 + |a1|] == ' '
            && (forall k :: 0 <= k < |a2| ==> t[|name| + 3 + |a1| + k] == a2[k])
  {
  }

  /** The split of a line whose runs end where given. */
  lemma TokenizeThree(t: string, b: nat, d: nat)
    requires 0 < b && b + 1 < d && d + 2 < |t|
    requires SpanFrom(t, 0, IsSpace) == 0 && SpanFrom(t, 0, NotSpace) == b
    requires SpanFrom(t, b, IsSpace) == b + 1 && SpanFrom(t, b + 1, NotComma) == d
    requires SpanFrom(t, d + 1, IsSpace) == d + 2 && SpanFrom(t, d + 2, NotSpace) == |t|
    ensures Tokenize(t) == Fields(3, t[0..b], t[b + 1..d], t[d + 2..|t|])
  {
  }

  /** `sscanf` splits a line written `NAME A1, A2` into exactly those three fields. */
  lemma CanonicalTokens(name: string, a1: string, a2: string)
    requires Token(name) && Token(a1) && Token(a2)
    ensures Tokenize(name + " " + a1 + ", " + a2) == Fields(3, name, a1, a2)
  {
    CanonicalSplit(name, a1, a2);
    CanonicalPieces(name, a1, a2);
  }

  /** The fields of a line written `NAME A1, A2`, as slices of the line. */
  lemma CanonicalSplit(name: string, a1: string, a2: string)
    requires Token(name) && Token(a1) && Token(a2)
    ensures var t := name + " " + a1 + ", " + a2;
            var b, d := |name|, |name| + 1 + |a1|;
            Tokenize(t) == Fields(3, t[0..b], t[b + 1..d], t[d + 2..|t|])
  {
    var t := name + " " + a1 + ", " + a2;
    var b := |name|;
    var d := b + 1 + |a1|;
    CanonicalSpans(name, a1, a2);
    TokenizeThree(t, b, d);
  }

  /** Where the runs `sscanf` looks for end in a line written `NAME A1, A2`. */
  lemma CanonicalSpans(name: string, a1: string, a2: string)
    requires Token(name) && Token(a1) && Token(a2)
    ensures var t := name + " " + a1 + ", " + a2;
            var b, d := |name|, |name| + 1 + |a1|;
            && SpanFrom(t, 0, IsSpace) == 0 && SpanFrom(t, 0, NotSpace) == b
            && SpanFrom(t, b, IsSpace) == b + 1 && SpanFrom(t, b + 1, NotComma) == d
            && SpanFrom(t, d + 1, IsSpace) == d + 2 && SpanFrom(t, d + 2, NotSpace) == |t|
  {
    CanonicalNameSpans(name, a1, a2);
    CanonicalArgumentSpans(name, a1, a2);
  }

  /** The runs of `NAME A1, A2` up to the end of the mnemonic and the space after it. */
  lemma CanonicalNameSpans(name: string, a1: string, a2: string)
    requires Token(name) && Token(a1) && Token(a2)
    ensures var t := name + " " + a1 + ", " + a2;
            var b := |name|;
            && SpanFrom(t, 0, IsSpace) == 0 && SpanFrom(t, 0, NotSpace) == b
            && SpanFrom(t, b, IsSpace) == b + 1
  {
    var t := name + " " + a1 + ", " + a2;
    var b := |name|;
    CanonicalChars(name, a1, a2);
    SpanFromExact(t, 0, 0, IsSpace);
    SpanFromExact(t, 0, b, NotSpace);
    SpanFromExact(t, b, b + 1, IsSpace);
  }

  /** The runs of `NAME A1, A2` from the first operand on. */
  lemma CanonicalArgumentSpans(name: string, a1: string, a2: string)
    requires Token(name) && Token(a1) && Token(a2)
    ensures var t := name + " " + a1 + ", " + a2;
            var b, d := |name|, |name| + 1 + |a1|;
            && SpanFrom(t, b + 1, NotComma) == d
            && SpanFrom(t, d + 1, IsSpace) == d + 2 && SpanFrom(t, d + 2, NotSpace) == |t|
  {
    var t := name + " " + a1 + ", " + a2;
    var b := |name|;
    var d := b + 1 + |a1|;
    CanonicalChars(name, a1, a2);
    assert SpanFrom(t, b + 1, NotComma) == d by {
      CanonicalFirstArgument(t, name, a1, a2);
    }
    SpanFromExact(t, d + 1, d + 2, IsSpace);
    assert SpanFrom(t, d + 2, NotSpace) == |t| by {
      CanonicalSecondArgument(t, name, a1, a2);
    }
  }

  /** The first operand of `NAME A1, A2` runs up to the comma. */
  lemma CanonicalFirstArgument(t: string, name: string, a1: string, a2: string)
    requires Token(a1) && t == name + " " + a1 + ", " + a2
    ensures SpanFrom(t, |name| + 1, NotComma) == |name| + 1 + |a1|
  {
    var b := |name|;
    var d := b + 1 + |a1|;
    CanonicalChars(name, a1, a2);
    forall k | b + 1 <= k < d ensures NotComma(t[k]) {
      assert t[b + 1 + (k - b - 1)] == a1[k - b - 1];
    }
    SpanFromExact(t, b + 1, d, NotComma);
  }

  /** The second operand of `NAME A1, A2` runs to the end of the line. */
  lemma CanonicalSecondArgument(t: string, name: string, a1: string, a2: string)
    requires Token(a2) && t == name + " " + a1 + ", " + a2
    ensures SpanFrom(t, |name| + 3 + |a1|, NotSpace) == |t|
  {
    var d := |name| + 1 + |a1|;
    CanonicalChars(name, a1, a2);
    forall k | d + 2 <= k < |t| ensures NotSpace(t[k]) {
      assert t[|name| + 3 + |a1| + (k - d - 2)] == a2[k - d - 2];
    }
    SpanFromExact(t, d + 2, |t|, NotSpace);
  }

  /** The three words of a line written `NAME A1, A2`, as slices of the line. */
  lemma CanonicalPieces(name: string, a1: string, a2: string)
    ensures var t := name + " " + a1 + ", " + a2;
            var b, d := |name|, |name| + 1 + |a1|;
            t[0..b] == name && t[b + 1..d] == a1 && t[d + 2..|t|] == a2
  {
    var t := name + " " + a1 + ", " + a2;
    var b, d := |name|, |name| + 1 + |a1|;
    assert t[0..b] == name by {
      CanonicalChars(name, a1, a2);
      SliceAt(t, name, 0);
    }
    assert t[b + 1..d] == a1 by {
      CanonicalChars(name, a1, a2);
      SliceAt(t, a1, b + 1);
    }
    assert t[d + 2..|t|] == a2 by {
      CanonicalChars(name, a1, a2);
      SliceAt(t, a2, d + 2);
    }
  }

  /** A slice that agrees with `s` index by index is `s`. */
  lemma SliceAt(t: string, s: string, off: nat)
    requires off + |s| <= |t|
    requires forall k :: 0 <= k < |s| ==> t[off + k] == s[k]
    ensures t[off..off + |s|] == s
  {
  }

  /** A line written `NAME A1, A2` has no comment and no white space around it. */
  lemma CanonicalPlain(name: string, a1: string, a2: string)
    requires Token(name) && Token(a1) && Token(a2)
    ensures var t := name + " " + a1 + ", " + a2;
            NoSlash(t) && !IsSpace(t[0]) && !IsSpace(t[|t| - 1])
  {
    var t := name + " " + a1 + ", " + a2;
    CanonicalChars(name, a1, a2);
    forall k | 0 <= k < |t| ensures t[k] != '/' && t[k] != '\0' {
      if k < |name| {
      } else if k == |name| {
      } else if k < |name| + 1 + |a1| {
        assert t[|name| + 1 + (k - |name| - 1)] == a1[k - |name| - 1];
      } else if k < |name| + 3 + |a1| {
      } else {
        assert t[|name| + 3 + |a1| + (k - |name| - 3 - |a1|)] == a2[k - |name| - 3 - |a1|];
      }
    }
    assert t[|t| - 1] == a2[|a2| - 1];
  }

  /** A line written `NAME A1, A2` assembles as the instruction `NAME` selects with those
      operands, which are their own trimmed forms. */
  lemma {:induction false} CanonicalLine(name: string, a1: string, a2: string)
    requires Token(name) && Token(a1) && Token(a2)
    ensures Trim(a1) == a1 && Trim(a2) == a2
    ensures ParseLine(name + " " + a1 + ", " + a2) == Instruction(Upper(name), Fields(3, name, a1, a2))
  {
    PlainLine(a1);
    PlainLine(a2);
    var t := name + " " + a1 + ", " + a2;
    assert Visible(t) == t && Tokenize(t) == Fields(3, name, a1, a2) by {
      CanonicalPlain(name, a1, a2);
      PlainLine(t);
      CanonicalTokens(name, a1, a2);
    }
  }

  /** The instructions of results that all assemble are those instructions, in order. */
  lemma {:induction false} InstructionsOfEmits(rs: seq<LineResult>, prog: seq<Instr>)
    requires |rs| == |prog|
    requires forall k :: 0 <= k < |rs| ==> rs[k] == Emit(prog[k])
    ensures Instructions(rs) == prog
    decreases |rs|
  {
    if |rs| > 0 {
      var n := |rs| - 1;
      InstructionsOfEmits(rs[..n], prog[..n]);
      assert prog[..n] + [prog[n]] == prog;
    }
  }

  /** Results that are all instructions, fitting in memory, assemble to the words of those
      instructions laid end to end. */
  lemma FoldEmits(rs: seq<LineResult>, prog: seq<Instr>)
    requires |rs| == |prog| && |Flatten(prog)| <= MemSize
    requires forall k :: 0 <= k < |rs| ==> rs[k] == Emit(prog[k])
    ensures Fold(rs) == Success(Flatten(prog))
  {
    InstructionsOfEmits(rs, prog);
    FoldSucceeds(rs);
  }

  /** Lines that each assemble to one instruction, and fit in memory, assemble to the words of
      those instructions laid end to end. */
  lemma ParseEmits(lines: seq<string>, prog: seq<Instr>)
    requires |lines| == |prog| && |Flatten(prog)| <= MemSize
    requires forall k :: 0 <= k < |lines| ==> ParseLine(lines[k]) == Emit(prog[k])
    ensures Parse(lines) == Success(Flatten(prog))
  {
    InstructionsOfEmits(Results(lines), prog);
    ParseSucceeds(lines);
  }

  /** `ParseEmits` with the line-by-line premise stated through a function value `f` equal to
      `ParseLine`, which a caller's facts about literal lines can meet without unfolding
      `ParseLine` on them. */
  lemma ParseEmitsVia(lines: seq<string>, prog: seq<Instr>, f: string -> LineResult)
    requires f == ParseLine
    requires |lines| == |prog| && |Flatten(prog)| <= MemSize
    requires forall k :: 0 <= k < |lines| ==> f(lines[k]) == Emit(prog[k])
    ensures Parse(lines) == Success(Flatten(prog))
  {
    ParseEmits(lines, prog);
  }

  /** The reason printed after the line number (parser.c:96-222). */
  function Reason(k: ErrorKind): (r: string)
    ensures |r| > 0 && r[|r| - 1] == '.'
  {
    match k
    case SyntaxError => "Syntax error or empty line after trimming."
    case MissingArguments(m) => m + " requires two arguments: " + m + " <reg>, <val/reg>."
    case InvalidRegister(m, t) =>
      if m == "CMP" then "Invalid register '" + t + "' for first argument of CMP."
      else "Invalid register '" + t + "' for " + m + "."
    case InvalidArgument(m, t) =>
      if m == "CMP" then "Invalid argument '" + t + "' for second argument of CMP."
      else "Invalid argument '" + t + "' for " + m + " (not a number or register)."
    case BadAddress(m) => m + " requires a numeric address."
    case UnknownInstruction(t) => "Unknown instruction '" + t + "'."
    case MemoryExhausted => "Program does not fit in memory."
  }

  /** The error message `Line N: <reason>`, with the line number spelled as `%d` prints it:
      digits only, no leading zero, reading back as the failing line. */
  function Message(e: ParseError): (msg: string)
    ensures exists n: string ::
              && |n| > 0 && AllDigits(n) && (|n| > 1 ==> n[0] != '0')
              && IsNumber(n) && Atoi(n) == e.line
              && msg == "Line " + n + ": " + Reason(e.kind)
  {
    DecimalRoundTrip(e.line);
    "Line " + Decimal(e.line) + ": " + Reason(e.kind)
  }

  /** The number in a message can only be the `%d` spelling of the failing line: a digit
      string without a leading zero that reads back as the line is that spelling. */
  lemma MessageSpelling(e: ParseError, n: string)
    requires |n| > 0 && AllDigits(n) && (|n| > 1 ==> n[0] != '0')
    requires IsNumber(n) && Atoi(n) == e.line
    ensures n == Decimal(e.line)
  {
    AtoiDecimal(n);
  }
}
