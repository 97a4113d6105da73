/** Reads a module back out of a decoded document by field names. */
module DocumentReaders {
  import opened Wrappers
  import opened Msgpack
  import opened ModuleTrees

  datatype Reading<+T> = Malformed | Read(value: T) {
    predicate IsFailure() {
      Malformed?
    }

    function PropagateFailure<U>(): Reading<U>
      requires IsFailure()
    {
      Malformed
    }

    function Extract(): T
      requires !IsFailure()
    {
      value
    }
  }

  // ----- What a document says -----

  datatype IndexDoc = IndexDoc(value: Bytes, fieldType: Bytes)

  datatype GepDoc = GepDoc(sourceType: Bytes, inBounds: bool, indices: seq<IndexDoc>)

  datatype InstructionDoc = InstructionDoc(
    id: int,
    opcode: Bytes,
    resultType: Bytes,
    operands: seq<Bytes>,
    operandTypes: seq<Bytes>,
    sourceType: Option<Bytes>,
    gep: Option<GepDoc>,
    callees: seq<Bytes>,
    indirect: seq<bool>,
    debugLoc: Option<Bytes>,
    raw: Option<Bytes>)

  datatype BlockDoc = BlockDoc(label_: Bytes, instructions: seq<InstructionDoc>, successors: seq<Bytes>)

  datatype FunctionDoc = FunctionDoc(
    name: Bytes,
    demangled: Bytes,
    isDeclaration: bool,
    returnType: Bytes,
    paramTypes: seq<Bytes>,
    callingConvention: Bytes,
    blocks: Option<seq<BlockDoc>>)

  datatype DeclarationDoc = DeclarationDoc(name: Bytes, demangled: Bytes, returnType: Bytes, paramTypes: seq<Bytes>)

  datatype StructDoc = StructDoc(name: Bytes, fields: seq<Bytes>)

  datatype GlobalDoc = GlobalDoc(name: Bytes, typeName: Bytes, isConstant: bool)

  datatype ModuleDoc = ModuleDoc(
    targetTriple: Bytes,
    dataLayout: Bytes,
    functions: seq<FunctionDoc>,
    declarations: seq<DeclarationDoc>,
    structs: seq<StructDoc>,
    globals: seq<GlobalDoc>)

  // ----- The reader -----

  /** The key is this name, one byte per character. */
  predicate Spells(key: Value, name: string) {
    key.Str? && |key.s| == |name| && forall i :: 0 <= i < |name| ==> key.s[i] as int == name[i] as int
  }

  /** The values of all fields with this name. */
  function Under(fields: seq<Entry>, name: string): seq<Value> {
    if fields == [] then []
    else (if Spells(fields[0].key, name) then [fields[0].value] else []) + Under(fields[1..], name)
  }

  function ReadAll<S, T>(items: seq<S>, read: S -> Reading<T>): Reading<seq<T>> {
    if items == [] then Read([])
    else
      var first :- read(items[0]);
      var others :- ReadAll(items[1..], read);
      Read([first] + others)
  }

  function AsStr(v: Value): Reading<Bytes> {
    if v.Str? then Read(v.s) else Malformed
  }

  function AsBool(v: Value): Reading<bool> {
    if v.Bool? then Read(v.b) else Malformed
  }

  function AsInt(v: Value): Reading<int> {
    if v.Int? then Read(v.i) else Malformed
  }

  function ReadArray<T>(v: Value, read: Value -> Reading<T>): Reading<seq<T>> {
    if v.Arr? then ReadAll(v.items, read) else Malformed
  }

  function AsStrs(v: Value): Reading<seq<Bytes>> {
    ReadArray(v, AsStr)
  }

  /** A field that occurs exactly once. */
  function Field<T>(fields: seq<Entry>, name: string, read: Value -> Reading<T>): Reading<T> {
    var all := Under(fields, name);
    if |all| == 1 then read(all[0]) else Malformed
  }

  /** A field that occurs at most once. */
  function OptionalField<T>(fields: seq<Entry>, name: string, read: Value -> Reading<T>): Reading<Option<T>> {
    var all := Under(fields, name);
    if |all| == 0 then Read(None)
    else if |all| == 1 then
      var value :- read(all[0]);
      Read(Some(value))
    else Malformed
  }

  /** All fields with this name, in order. */
  function RepeatedField<T>(fields: seq<Entry>, name: string, read: Value -> Reading<T>): Reading<seq<T>> {
    ReadAll(Under(fields, name), read)
  }

  function FieldsOf(v: Value): Reading<seq<Entry>> {
    if v.Map? then Read(v.entries) else Malformed
  }

  function ReadIndex(v: Value): Reading<IndexDoc> {
    var fields :- FieldsOf(v);
    var value :- Field(fields, "value", AsStr);
    var fieldType :- Field(fields, "field_type", AsStr);
    Read(IndexDoc(value, fieldType))
  }

  function ReadIndices(v: Value): Reading<seq<IndexDoc>> {
    ReadArray(v, ReadIndex)
  }

  function ReadGep(v: Value): Reading<GepDoc> {
    var fields :- FieldsOf(v);
    var sourceType :- Field(fields, "source_type", AsStr);
    var inBounds :- Field(fields, "in_bounds", AsBool);
    var indices :- Field(fields, "indices", ReadIndices);
    Read(GepDoc(sourceType, inBounds, indices))
  }

  function ReadInstruction(v: Value): Reading<InstructionDoc> {
    var fields :- FieldsOf(v);
    var id :- Field(fields, "id", AsInt);
    var opcode :- Field(fields, "opcode", AsStr);
    var resultType :- Field(fields, "result_type", AsStr);
    var operands :- Field(fields, "operands", AsStrs);
    var operandTypes :- Field(fields, "operand_types", AsStrs);
    var sourceType :- OptionalField(fields, "source_type", AsStr);
    var gep :- OptionalField(fields, "gep_details", ReadGep);
    var callees :- RepeatedField(fields, "callee", AsStr);
    var indirect :- RepeatedField(fields, "is_indirect", AsBool);
    var debugLoc :- OptionalField(fields, "debug_loc", AsStr);
    var raw :- OptionalField(fields, "raw", AsStr);
    Read(InstructionDoc(id, opcode, resultType, operands, operandTypes, sourceType, gep, callees, indirect, debugLoc, raw))
  }

  function ReadInstructions(v: Value): Reading<seq<InstructionDoc>> {
    ReadArray(v, ReadInstruction)
  }

  function ReadBlock(v: Value): Reading<BlockDoc> {
    var fields :- FieldsOf(v);
    var label_ :- Field(fields, "label", AsStr);
    var instructions :- Field(fields, "instructions", ReadInstructions);
    var successors :- Field(fields, "successors", AsStrs);
    Read(BlockDoc(label_, instructions, successors))
  }

  function ReadBlocks(v: Value): Reading<seq<BlockDoc>> {
    ReadArray(v, ReadBlock)
  }

  function ReadFunction(v: Value): Reading<FunctionDoc> {
    var fields :- FieldsOf(v);
    var name :- Field(fields, "name", AsStr);
    var demangled :- Field(fields, "demangled", AsStr);
    var isDeclaration :- Field(fields, "is_declaration", AsBool);
    var returnType :- Field(fields, "return_type", AsStr);
    var paramTypes :- Field(fields, "param_types", AsStrs);
    var callingConvention :- Field(fields, "calling_convention", AsStr);
    var blocks :- OptionalField(fields, "blocks", ReadBlocks);
    Read(FunctionDoc(name, demangled, isDeclaration, returnType, paramTypes, callingConvention, blocks))
  }

  function ReadFunctions(v: Value): Reading<seq<FunctionDoc>> {
    ReadArray(v, ReadFunction)
  }

  function ReadDeclaration(v: Value): Reading<DeclarationDoc> {
    var fields :- FieldsOf(v);
    var name :- Field(fields, "name", AsStr);
    var demangled :- Field(fields, "demangled", AsStr);
    var returnType :- Field(fields, "return_type", AsStr);
    var paramTypes :- Field(fields, "param_types", AsStrs);
    Read(DeclarationDoc(name, demangled, returnType, paramTypes))
  }

  function ReadDeclarations(v: Value): Reading<seq<DeclarationDoc>> {
    ReadArray(v, ReadDeclaration)
  }

  /** A struct is a field named after it. */
  function ReadStruct(e: Entry): Reading<StructDoc> {
    var name :- AsStr(e.key);
    var fields :- AsStrs(e.value);
    Read(StructDoc(name, fields))
  }

  function ReadStructs(v: Value): Reading<seq<StructDoc>> {
    var fields :- FieldsOf(v);
    ReadAll(fields, ReadStruct)
  }

  function ReadGlobal(v: Value): Reading<GlobalDoc> {
    var fields :- FieldsOf(v);
    var name :- Field(fields, "name", AsStr);
    var typeName :- Field(fields, "type", AsStr);
    var isConstant :- Field(fields, "is_constant", AsBool);
    Read(GlobalDoc(name, typeName, isConstant))
  }

  function ReadGlobals(v: Value): Reading<seq<GlobalDoc>> {
    ReadArray(v, ReadGlobal)
  }

  function ReadModule(v: Value): Reading<ModuleDoc> {
    var fields :- FieldsOf(v);
    var targetTriple :- Field(fields, "target_triple", AsStr);
    var dataLayout :- Field(fields, "data_layout", AsStr);
    var functions :- Field(fields, "functions", ReadFunctions);
    var declarations :- Field(fields, "declarations", ReadDeclarations);
    var structs :- Field(fields, "named_struct_types", ReadStructs);
    var globals :- Field(fields, "global_variables", ReadGlobals);
    Read(ModuleDoc(targetTriple, dataLayout, functions, declarations, structs, globals))
  }

  /** Decodes a document and reads it, if no byte is left over. */
  function ReadDocument(document: Bytes): Reading<ModuleDoc> {
    match Decode(document)
    case None => Malformed
    case Some((v, rest)) => if rest == [] then ReadModule(v) else Malformed
  }

  // ----- When a document says what the module tree holds -----

  /** From an operand down its casts to one that is none, which has this type. */
  ghost predicate IsRootType(o: Operand, t: Bytes) {
    exists chain: seq<Operand> :: IsCastChain(chain) && chain[0] == o && chain[|chain| - 1].typeName == t
  }

  ghost predicate IsCastChain(chain: seq<Operand>) {
    && |chain| > 0 && chain[|chain| - 1].castOf.None?
    && forall k :: 0 <= k < |chain| - 1 ==> chain[k].castOf == Some(chain[k + 1])
  }

  predicate DescribesIndex(d: IndexDoc, o: Operand, fieldType: Option<Bytes>) {
    d.value == o.text && if fieldType.Some? then d.fieldType == fieldType.value else Spells(Str(d.fieldType), "unknown")
  }

  predicate DescribesGep(d: GepDoc, i: Instruction)
    requires WellFormed(i) && i.gep.Some?
  {
    && d.sourceType == i.gep.value.sourceType && d.inBounds == i.gep.value.inBounds
    && |d.indices| == |i.operands| - 1
    && forall k :: 0 <= k < |d.indices| ==> DescribesIndex(d.indices[k], i.operands[k + 1], i.gep.value.fieldTypes[k])
  }

  predicate DescribesOperands(d: InstructionDoc, i: Instruction) {
    && |d.operands| == |d.operandTypes| == |i.operands|
    && forall k :: 0 <= k < |i.operands| ==> d.operands[k] == i.operands[k].text && d.operandTypes[k] == i.operands[k].typeName
  }

  /** The callee of a call before that of an invoke, each marked direct or indirect. */
  predicate DescribesCallees(d: InstructionDoc, i: Instruction) {
    var count := if i.call.Some? then 1 else 0;
    && |d.callees| == |d.indirect| == count + (if i.invoke.Some? then 1 else 0)
    && (i.call.Some? ==> DescribesCallee(d.callees[0], d.indirect[0], i.call.value))
    && (i.invoke.Some? ==> DescribesCallee(d.callees[count], d.indirect[count], i.invoke.value))
  }

  predicate DescribesCallee(callee: Bytes, isIndirect: bool, c: Callee) {
    match c
    case Direct(name) => callee == name && !isIndirect
    case Indirect(text) => callee == text && isIndirect
  }

  ghost predicate DescribesInstruction(d: InstructionDoc, i: Instruction, id: nat, includeRaw: bool)
    requires WellFormed(i)
  {
    && d.id == id && d.opcode == i.opcode && d.resultType == i.resultType
    && DescribesOperands(d, i)
    && (if i.isPointerCast then d.sourceType.Some? && IsRootType(i.operands[0], d.sourceType.value) else d.sourceType.None?)
    && (if i.gep.Some? then d.gep.Some? && DescribesGep(d.gep.value, i) else d.gep.None?)
    && DescribesCallees(d, i)
    && d.debugLoc == i.debugLoc
    && d.raw == if includeRaw then Some(i.raw) else None
  }

  ghost predicate DescribesBlock(d: BlockDoc, b: Block, includeRaw: bool)
    requires WellFormedBlock(b)
  {
    && d.label_ == b.name && d.successors == b.successors
    && |d.instructions| == |b.instructions|
    && forall k :: 0 <= k < |b.instructions| ==> DescribesInstruction(d.instructions[k], b.instructions[k], k, includeRaw)
  }

  ghost predicate DescribesBlocks(ds: seq<BlockDoc>, blocks: seq<Block>, includeRaw: bool)
    requires forall b :: b in blocks ==> WellFormedBlock(b)
  {
    |ds| == |blocks| && forall k :: 0 <= k < |blocks| ==> DescribesBlock(ds[k], blocks[k], includeRaw)
  }

  /** Only definitions have blocks. */
  ghost predicate DescribesFunction(d: FunctionDoc, f: Function, includeRaw: bool)
    requires WellFormedFunction(f)
  {
    && d.name == f.name && d.demangled == f.demangled && d.isDeclaration == f.isDeclaration
    && d.returnType == f.returnType && d.paramTypes == f.paramTypes && d.callingConvention == f.callingConvention
    && (if f.isDeclaration then d.blocks.None? else d.blocks.Some? && DescribesBlocks(d.blocks.value, f.blocks, includeRaw))
  }

  predicate DescribesDeclaration(d: DeclarationDoc, f: Function) {
    d.name == f.name && d.demangled == f.demangled && d.returnType == f.returnType && d.paramTypes == f.paramTypes
  }

  predicate DescribesStruct(d: StructDoc, s: Struct) {
    s.name == Some(d.name) && d.fields == s.fields
  }

  predicate DescribesGlobal(d: GlobalDoc, g: Global) {
    d.name == g.name && d.typeName == g.typeName && d.isConstant == g.isConstant
  }

  ghost predicate Ascending(at: seq<nat>) {
    forall i, j :: 0 <= i < j < |at| ==> at[i] < at[j]
  }

  /** The ascending positions of exactly the items that are to be chosen. */
  ghost predicate Picks<T>(items: seq<T>, isChosen: T -> bool, at: seq<nat>) {
    && Ascending(at)
    && (forall k :: 0 <= k < |at| ==> at[k] < |items| && isChosen(items[at[k]]))
    && (forall p: nat :: p < |items| && isChosen(items[p]) ==> p in at)
  }

  /** Definitions that are not skipped and, in a slice, belong to it. */
  function IsSelectedFunction(sel: Selection): Function -> bool {
    (f: Function) => !sel.skipped(f.name) && !f.isDeclaration && (sel.sliced ==> f.name in sel.functions)
  }

  function IsSelectedDeclaration(sel: Selection): Function -> bool {
    (f: Function) => !sel.skipped(f.name) && f.isDeclaration && (sel.sliced ==> f.name in sel.declarations)
  }

  /** Structs that have a name and known fields. */
  function IsNamedStruct(): Struct -> bool {
    (s: Struct) => s.name.Some? && !s.isOpaque
  }

  ghost predicate DescribesFunctions(ds: seq<FunctionDoc>, functions: seq<Function>, sel: Selection, includeRaw: bool)
    requires forall f :: f in functions ==> WellFormedFunction(f)
  {
    exists at: seq<nat> :: Picks(functions, IsSelectedFunction(sel), at) && |ds| == |at|
      && forall k :: 0 <= k < |at| ==> DescribesFunction(ds[k], functions[at[k]], includeRaw)
  }

  ghost predicate DescribesDeclarations(ds: seq<DeclarationDoc>, functions: seq<Function>, sel: Selection) {
    exists at: seq<nat> :: Picks(functions, IsSelectedDeclaration(sel), at) && |ds| == |at|
      && forall k :: 0 <= k < |at| ==> DescribesDeclaration(ds[k], functions[at[k]])
  }

  ghost predicate DescribesStructs(ds: seq<StructDoc>, structs: seq<Struct>) {
    exists at: seq<nat> :: Picks(structs, IsNamedStruct(), at) && |ds| == |at|
      && forall k :: 0 <= k < |at| ==> DescribesStruct(ds[k], structs[at[k]])
  }

  ghost predicate DescribesGlobals(ds: seq<GlobalDoc>, globals: seq<Global>) {
    |ds| == |globals| && forall k :: 0 <= k < |globals| ==> DescribesGlobal(ds[k], globals[k])
  }

  ghost predicate DescribesModule(d: ModuleDoc, m: Module, sel: Selection, includeRaw: bool)
    requires WellFormedModule(m)
  {
    && d.targetTriple == m.targetTriple && d.dataLayout == m.dataLayout
    && DescribesFunctions(d.functions, m.functions, sel, includeRaw)
    && DescribesDeclarations(d.declarations, m.functions, sel)
    && DescribesStructs(d.structs, m.structs)
    && DescribesGlobals(d.globals, m.globals)
  }

  // ----- When a document fits the format -----

  predicate Short(s: Bytes) {
    |s| < TWO_TO_32
  }

  predicate AllShort(ss: seq<Bytes>) {
    |ss| < TWO_TO_32 && forall k :: 0 <= k < |ss| ==> Short(ss[k])
  }

  predicate OptionShort(s: Option<Bytes>) {
    s.Some? ==> Short(s.value)
  }

  predicate IndexFits(d: IndexDoc) {
    Short(d.value) && Short(d.fieldType)
  }

  predicate GepFits(d: GepDoc) {
    Short(d.sourceType) && |d.indices| < TWO_TO_32 && forall k :: 0 <= k < |d.indices| ==> IndexFits(d.indices[k])
  }

  predicate InstructionFits(d: InstructionDoc) {
    && -0x8000_0000_0000_0000 <= d.id < 0x1_0000_0000_0000_0000
    && Short(d.opcode) && Short(d.resultType)
    && AllShort(d.operands) && AllShort(d.operandTypes)
    && OptionShort(d.sourceType) && (d.gep.Some? ==> GepFits(d.gep.value))
    && AllShort(d.callees) && OptionShort(d.debugLoc) && OptionShort(d.raw)
  }

  predicate BlockFits(d: BlockDoc) {
    && Short(d.label_) && AllShort(d.successors)
    && |d.instructions| < TWO_TO_32 && forall k :: 0 <= k < |d.instructions| ==> InstructionFits(d.instructions[k])
  }

  predicate BlocksFit(ds: seq<BlockDoc>) {
    |ds| < TWO_TO_32 && forall k :: 0 <= k < |ds| ==> BlockFits(ds[k])
  }

  predicate FunctionFits(d: FunctionDoc) {
    && Short(d.name) && Short(d.demangled) && Short(d.returnType) && AllShort(d.paramTypes) && Short(d.callingConvention)
    && (d.blocks.Some? ==> BlocksFit(d.blocks.value))
  }

  predicate DeclarationFits(d: DeclarationDoc) {
    Short(d.name) && Short(d.demangled) && Short(d.returnType) && AllShort(d.paramTypes)
  }

  predicate StructFits(d: StructDoc) {
    Short(d.name) && AllShort(d.fields)
  }

  predicate GlobalFits(d: GlobalDoc) {
    Short(d.name) && Short(d.typeName)
  }

  /** Every string and every list has fewer than 2^32 elements, and every number has 64 bits. */
  predicate ModuleFits(d: ModuleDoc) {
    && Short(d.targetTriple) && Short(d.dataLayout)
    && |d.functions| < TWO_TO_32 && (forall k :: 0 <= k < |d.functions| ==> FunctionFits(d.functions[k]))
    && |d.declarations| < TWO_TO_32 && (forall k :: 0 <= k < |d.declarations| ==> DeclarationFits(d.declarations[k]))
    && |d.structs| < TWO_TO_32 && (forall k :: 0 <= k < |d.structs| ==> StructFits(d.structs[k]))
    && |d.globals| < TWO_TO_32 && forall k :: 0 <= k < |d.globals| ==> GlobalFits(d.globals[k])
  }
}
