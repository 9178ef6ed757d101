/**
 * Bytecode chunks (chunk.h): the opcodes the compiler emits and the VM
 * dispatches on, their byte encoding, and the chunk itself.
 */
module Chunks {
  import opened Values

  /** One byte of bytecode (uint8_t). */
  type Byte = b: int | 0 <= b < 256

  /** The largest constant-pool index an OP_CONSTANT operand can hold (UINT8_MAX). */
  const UINT8_MAX: int := 255

  datatype OpCode =
    | OpConstant | OpNegate | OpAdd | OpSubtract | OpMultiply | OpDivide | OpReturn
    | OpNil | OpTrue | OpFalse | OpEqual | OpGreater | OpLess | OpNot

  /**
   * Byte value of each opcode. The first seven follow the order of the OpCode
   * enum in chunk.h; that header does not yet list the opcodes vm.c and
   * compiler.c also use, so those take the next free numbers.
   */
  function Encode(op: OpCode): Byte {
    match op
    case OpConstant => 0
    case OpNegate => 1
    case OpAdd => 2
    case OpSubtract => 3
    case OpMultiply => 4
    case OpDivide => 5
    case OpReturn => 6
    case OpNil => 7
    case OpTrue => 8
    case OpFalse => 9
    case OpEqual => 10
    case OpGreater => 11
    case OpLess => 12
    case OpNot => 13
  }

  /** The opcode a byte stands for, if any: the dispatch of the VM's switch. */
  function Decode(b: Byte): (r: Option<OpCode>)
    ensures r.Some? <==> b < 14
  {
    if b == 0 then Some(OpConstant)
    else if b == 1 then Some(OpNegate)
    else if b == 2 then Some(OpAdd)
    else if b == 3 then Some(OpSubtract)
    else if b == 4 then Some(OpMultiply)
    else if b == 5 then Some(OpDivide)
    else if b == 6 then Some(OpReturn)
    else if b == 7 then Some(OpNil)
    else if b == 8 then Some(OpTrue)
    else if b == 9 then Some(OpFalse)
    else if b == 10 then Some(OpEqual)
    else if b == 11 then Some(OpGreater)
    else if b == 12 then Some(OpLess)
    else if b == 13 then Some(OpNot)
    else None
  }

  /** Every opcode's byte decodes back to it, so distinct opcodes have distinct bytes. */
  lemma EncodeDecode(op: OpCode)
    ensures Decode(Encode(op)) == Some(op)
  {
  }

  /** Decoding is the inverse of encoding on every byte that names an opcode. */
  lemma DecodeEncode(b: Byte)
    requires Decode(b).Some?
    ensures Encode(Decode(b).value) == b
  {
  }

  /**
   * chunk_t: the instruction bytes, the source line of each byte, and the
   * constant pool.
   */
  datatype Chunk = Chunk(code: seq<Byte>, lines: seq<int>, constants: seq<Value>)
}
