/**
 * The part of the Mono.Cecil object model and of the DotNetUtils helpers that
 * the DeepSea resource resolver consumes: opcodes, operands, instructions,
 * fields with their initial-value blobs, method references and definitions,
 * and the opcode-family predicates (isLdarg, isLdcI4, getLdcI4Value,
 * getArgIndex, isMethod).
 */
module Cil {
  import opened Basics

  /** The opcodes the resolver distinguishes; every other opcode is Other. */
  datatype OpCode =
    | Nop | Ret | Add | Sub | Shr | Ldstr | Ldtoken | Call | Tail
    | Ldarg_0 | Ldarg_1 | Ldarg_2 | Ldarg_3 | Ldarg_S | Ldarg
    | Ldc_I4_M1 | Ldc_I4_0 | Ldc_I4_1 | Ldc_I4_2 | Ldc_I4_3 | Ldc_I4_4
    | Ldc_I4_5 | Ldc_I4_6 | Ldc_I4_7 | Ldc_I4_8 | Ldc_I4_S | Ldc_I4
    | Other

  /** A field's metadata token: the key of the module's field table. */
  type FieldToken = int

  /** A method as a call or ldtoken names it: its token and signature strings. */
  datatype MethodRef = MethodRef(token: int, returnType: string, parameters: string)

  /** The operand union of an instruction. */
  datatype Operand =
    | NoOperand
    | IntOperand(value: Int32)
    | StringOperand(text: string)
    | FieldOperand(field: FieldToken)
    | MethodOperand(target: MethodRef)
    | ArgOperand(sequence: nat)
    | TypeOperand(typeName: string)

  datatype Instruction = Instruction(code: OpCode, operand: Operand)

  /**
   * What Cecil's decoder guarantees about operands: ldc.i4 carries an int,
   * ldc.i4.s an sbyte, ldarg and ldarg.s a parameter.
   */
  predicate OperandFits(code: OpCode, operand: Operand) {
    match code
    case Ldc_I4 => operand.IntOperand?
    case Ldc_I4_S => operand.IntOperand? && -0x80 <= operand.value < 0x80
    case Ldarg => operand.ArgOperand?
    case Ldarg_S => operand.ArgOperand?
    case _ => true
  }

  /** A decoded instruction. */
  type Instr = i: Instruction | OperandFits(i.code, i.operand) witness Instruction(Nop, NoOperand)

  /** The declared type of a field; the resolver only ever assigns System.Byte. */
  datatype TypeSig = ByteType | NamedType(fullName: string)

  /** A field definition: its RVA, its initial-value blob (null if none) and its type. */
  datatype FieldDef = FieldDef(rva: int, initialValue: Option<seq<Byte>>, fieldType: TypeSig)

  /** A method definition: its instruction list and the full names of its local types. */
  datatype MethodDef = MethodDef(body: seq<Instr>, localTypes: seq<string>)

  /** DotNetUtils.isLdarg: any of the six load-argument opcodes. */
  predicate IsLdarg(instr: Instr) {
    match instr.code
    case Ldarg_0 | Ldarg_1 | Ldarg_2 | Ldarg_3 | Ldarg_S | Ldarg => true
    case _ => false
  }

  /** DotNetUtils.isLdcI4: any of the twelve load-int32-constant opcodes. */
  predicate IsLdcI4(instr: Instr) {
    match instr.code
    case Ldc_I4_M1 | Ldc_I4_0 | Ldc_I4_1 | Ldc_I4_2 | Ldc_I4_3 | Ldc_I4_4
       | Ldc_I4_5 | Ldc_I4_6 | Ldc_I4_7 | Ldc_I4_8 | Ldc_I4_S | Ldc_I4 => true
    case _ => false
  }

  /** DotNetUtils.getLdcI4Value: the constant an ldc.i4 instruction pushes. */
  function LdcI4Value(instr: Instr): (v: Int32)
    requires IsLdcI4(instr)
    ensures instr.code == Ldc_I4_S ==> -0x80 <= v < 0x80
    ensures instr.code != Ldc_I4_S && instr.code != Ldc_I4 ==> -1 <= v <= 8
  {
    match instr.code
    case Ldc_I4_M1 => -1
    case Ldc_I4_0 => 0
    case Ldc_I4_1 => 1
    case Ldc_I4_2 => 2
    case Ldc_I4_3 => 3
    case Ldc_I4_4 => 4
    case Ldc_I4_5 => 5
    case Ldc_I4_6 => 6
    case Ldc_I4_7 => 7
    case Ldc_I4_8 => 8
    case Ldc_I4_S => instr.operand.value
    case Ldc_I4 => instr.operand.value
  }

  /**
   * DotNetUtils.getArgIndex: the argument slot a load-argument instruction
   * reads, -1 for any other instruction.
   */
  function ArgIndex(instr: Instr): (r: int)
    ensures r >= 0 <==> IsLdarg(instr)
    ensures r < 0 ==> r == -1
  {
    match instr.code
    case Ldarg_0 => 0
    case Ldarg_1 => 1
    case Ldarg_2 => 2
    case Ldarg_3 => 3
    case Ldarg_S => instr.operand.sequence
    case Ldarg => instr.operand.sequence
    case _ => -1
  }

  /** DotNetUtils.isMethod: a non-null method with this return type and parameter list. */
  predicate IsMethod(m: Option<MethodRef>, returnType: string, parameters: string) {
    m.Some? && m.value.returnType == returnType && m.value.parameters == parameters
  }

  /** `operand as MethodReference`. */
  function AsMethodReference(operand: Operand): Option<MethodRef> {
    if operand.MethodOperand? then Some(operand.target) else None
  }

  /** `operand as MethodDefinition`: a method defined in this module. */
  function AsMethodDefinition(operand: Operand, methods: map<int, MethodDef>): (r: Option<MethodRef>)
    ensures r.Some? ==> r.value.token in methods && operand == MethodOperand(r.value)
  {
    if operand.MethodOperand? && operand.target.token in methods then Some(operand.target) else None
  }

  /** `operand as FieldDefinition`: a field defined in this module. */
  function AsFieldDefinition(operand: Operand, fields: map<FieldToken, FieldDef>): (r: Option<FieldToken>)
    ensures r.Some? ==> r.value in fields && operand == FieldOperand(r.value)
  {
    if operand.FieldOperand? && operand.field in fields then Some(operand.field) else None
  }

  /** A field whose initial value is non-null and non-empty: a ciphertext candidate. */
  predicate HasInitialValue(fields: map<FieldToken, FieldDef>, field: FieldToken) {
    field in fields && fields[field].initialValue.Some? && |fields[field].initialValue.value| > 0
  }
}
