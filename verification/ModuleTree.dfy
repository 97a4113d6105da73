/** The module tree the extractor writes, and which of its functions it writes. */
module ModuleTrees {
  import opened Wrappers
  import opened Msgpack

  /** An operand as printed, with the operand under it when it is a cast. */
  datatype Operand = Operand(text: Bytes, typeName: Bytes, castOf: Option<Operand>)

  datatype Callee = Direct(name: Bytes) | Indirect(text: Bytes)

  /** Per index after the base pointer the type it selects, if any. */
  datatype Gep = Gep(sourceType: Bytes, inBounds: bool, fieldTypes: seq<Option<Bytes>>)

  datatype Instruction = Instruction(
    opcode: Bytes,
    resultType: Bytes,
    operands: seq<Operand>,
    isPointerCast: bool,
    gep: Option<Gep>,
    call: Option<Callee>,
    invoke: Option<Callee>,
    debugLoc: Option<Bytes>,
    raw: Bytes)

  datatype Block = Block(name: Bytes, instructions: seq<Instruction>, successors: seq<Bytes>)

  datatype Function = Function(
    name: Bytes,
    demangled: Bytes,
    isDeclaration: bool,
    returnType: Bytes,
    paramTypes: seq<Bytes>,
    callingConvention: Bytes,
    blocks: seq<Block>)

  datatype Struct = Struct(name: Option<Bytes>, isOpaque: bool, fields: seq<Bytes>)

  datatype Global = Global(name: Bytes, typeName: Bytes, isConstant: bool)

  datatype Module = Module(
    targetTriple: Bytes,
    dataLayout: Bytes,
    functions: seq<Function>,
    structs: seq<Struct>,
    globals: seq<Global>)

  /** What LLVM guarantees: casts have an operand, and an element pointer has a base operand
      and one selected type per further operand. */
  predicate WellFormed(i: Instruction) {
    && (i.isPointerCast ==> |i.operands| > 0)
    && (i.gep.Some? ==> |i.operands| > 0 && |i.gep.value.fieldTypes| == |i.operands| - 1)
  }

  predicate WellFormedBlock(b: Block) {
    forall i :: i in b.instructions ==> WellFormed(i)
  }

  predicate WellFormedFunction(f: Function) {
    forall b :: b in f.blocks ==> WellFormedBlock(b)
  }

  predicate WellFormedModule(m: Module) {
    forall f, b, i :: f in m.functions && b in f.blocks && i in b.instructions ==> WellFormed(i)
  }

  /** Which functions and declarations are written: all of them, or a slice. The skip list
      applies either way. */
  datatype Selection = Selection(skipped: Bytes -> bool, sliced: bool, functions: set<Bytes>, declarations: set<Bytes>)
}
