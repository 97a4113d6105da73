/** The MessagePack document of a module: the values it consists of, and the extractor's
    writers with their separately counted map and array headers. */
module ModuleDocuments {
  import opened Sequences
  import opened Wrappers
  import opened Msgpack
  import opened ModuleTrees

  /** A field name as bytes. */
  function Key(name: string): Bytes {
    seq(|name|, i requires 0 <= i < |name| => name[i] as int % 256)
  }

  // ----- The document as a value -----

  function StrValues(items: seq<Bytes>): (values: seq<Value>)
    ensures |values| == |items|
  {
    if items == [] then [] else StrValues(items[..|items| - 1]) + [Str(items[|items| - 1])]
  }

  function StrArray(items: seq<Bytes>): Value {
    Arr(StrValues(items))
  }

  function StrField(name: string, s: Bytes): Entry { Entry(Str(Key(name)), Str(s)) }
  function BoolField(name: string, b: bool): Entry { Entry(Str(Key(name)), Bool(b)) }
  function ArrayField(name: string, items: seq<Bytes>): Entry { Entry(Str(Key(name)), StrArray(items)) }

  function Texts(operands: seq<Operand>): seq<Bytes> {
    seq(|operands|, k requires 0 <= k < |operands| => operands[k].text)
  }

  function Types(operands: seq<Operand>): seq<Bytes> {
    seq(|operands|, k requires 0 <= k < |operands| => operands[k].typeName)
  }

  /** The type under all the casts an operand is wrapped in. */
  function RootType(o: Operand): Bytes {
    if o.castOf.Some? then RootType(o.castOf.value) else o.typeName
  }

  function GepIndex(text: Bytes, fieldType: Option<Bytes>): Value {
    Map([StrField("value", text),
         StrField("field_type", if fieldType.Some? then fieldType.value else Key("unknown"))])
  }

  function GepIndices(operands: seq<Operand>, fieldTypes: seq<Option<Bytes>>): (values: seq<Value>)
    requires |fieldTypes| <= |operands|
    ensures |values| == |fieldTypes|
  {
    if fieldTypes == [] then []
    else
      var n := |fieldTypes| - 1;
      GepIndices(operands, fieldTypes[..n]) + [GepIndex(operands[n].text, fieldTypes[n])]
  }

  function GepValue(i: Instruction): Value
    requires WellFormed(i) && i.gep.Some?
  {
    Map(GepValueFields(i))
  }

  function GepValueFields(i: Instruction): seq<Entry>
    requires WellFormed(i) && i.gep.Some?
  {
    [StrField("source_type", i.gep.value.sourceType),
     BoolField("in_bounds", i.gep.value.inBounds),
     Entry(Str(Key("indices")), Arr(GepIndices(i.operands[1..], i.gep.value.fieldTypes)))]
  }

  function CalleeFields(callee: Option<Callee>): seq<Entry> {
    match callee
    case None => []
    case Some(Direct(name)) => [StrField("callee", name), BoolField("is_indirect", false)]
    case Some(Indirect(text)) => [StrField("callee", text), BoolField("is_indirect", true)]
  }

  function RequiredFields(i: Instruction, id: nat): seq<Entry> {
    [Entry(Str(Key("id")), Int(id)),
     StrField("opcode", i.opcode),
     StrField("result_type", i.resultType),
     ArrayField("operands", Texts(i.operands)),
     ArrayField("operand_types", Types(i.operands))]
  }

  function CastFields(i: Instruction): seq<Entry>
    requires WellFormed(i)
  {
    if i.isPointerCast then [StrField("source_type", RootType(i.operands[0]))] else []
  }

  function GepFields(i: Instruction): seq<Entry>
    requires WellFormed(i)
  {
    if i.gep.Some? then [Entry(Str(Key("gep_details")), GepValue(i))] else []
  }

  function DebugFields(i: Instruction): seq<Entry> {
    if i.debugLoc.Some? then [StrField("debug_loc", i.debugLoc.value)] else []
  }

  function RawFields(i: Instruction, includeRaw: bool): seq<Entry> {
    if includeRaw then [StrField("raw", i.raw)] else []
  }

  function InstructionFields(i: Instruction, id: nat, includeRaw: bool): seq<Entry>
    requires WellFormed(i)
  {
    RequiredFields(i, id) + CastFields(i) + GepFields(i) + CalleeFields(i.call) + CalleeFields(i.invoke)
      + DebugFields(i) + RawFields(i, includeRaw)
  }

  function InstructionValues(instructions: seq<Instruction>, includeRaw: bool): (values: seq<Value>)
    requires forall i :: i in instructions ==> WellFormed(i)
    ensures |values| == |instructions|
  {
    if instructions == [] then []
    else
      var n := |instructions| - 1;
      InstructionValues(instructions[..n], includeRaw) + [Map(InstructionFields(instructions[n], n, includeRaw))]
  }

  function BlockValue(b: Block, includeRaw: bool): Value
    requires WellFormedBlock(b)
  {
    Map(BlockFields(b, includeRaw))
  }

  function BlockFields(b: Block, includeRaw: bool): seq<Entry>
    requires WellFormedBlock(b)
  {
    [StrField("label", b.name),
     Entry(Str(Key("instructions")), Arr(InstructionValues(b.instructions, includeRaw))),
     ArrayField("successors", b.successors)]
  }

  function BlockValues(blocks: seq<Block>, includeRaw: bool): (values: seq<Value>)
    requires forall b :: b in blocks ==> WellFormedBlock(b)
    ensures |values| == |blocks|
  {
    if blocks == [] then []
    else
      var n := |blocks| - 1;
      BlockValues(blocks[..n], includeRaw) + [BlockValue(blocks[n], includeRaw)]
  }

  function FunctionValue(f: Function, includeRaw: bool): Value
    requires WellFormedFunction(f)
  {
    Map(HeadFields(f) + BodyFields(f, includeRaw))
  }

  function HeadFields(f: Function): seq<Entry> {
    [StrField("name", f.name),
     StrField("demangled", f.demangled),
     BoolField("is_declaration", f.isDeclaration),
     StrField("return_type", f.returnType),
     ArrayField("param_types", f.paramTypes),
     StrField("calling_convention", f.callingConvention)]
  }

  /** Only definitions have blocks. */
  function BodyFields(f: Function, includeRaw: bool): seq<Entry>
    requires WellFormedFunction(f)
  {
    if f.isDeclaration then [] else [Entry(Str(Key("blocks")), Arr(BlockValues(f.blocks, includeRaw)))]
  }

  function DeclarationValue(f: Function): Value {
    Map([StrField("name", f.name),
         StrField("demangled", f.demangled),
         StrField("return_type", f.returnType),
         ArrayField("param_types", f.paramTypes)])
  }

  predicate WritesFunction(sel: Selection, f: Function) {
    !sel.skipped(f.name) && !f.isDeclaration && (!sel.sliced || f.name in sel.functions)
  }

  predicate WritesDeclaration(sel: Selection, f: Function) {
    !sel.skipped(f.name) && f.isDeclaration && (!sel.sliced || f.name in sel.declarations)
  }

  function FunctionValues(sel: Selection, functions: seq<Function>, includeRaw: bool): seq<Value>
    requires forall f :: f in functions ==> WellFormedFunction(f)
  {
    if functions == [] then []
    else
      var last := functions[|functions| - 1];
      FunctionValues(sel, functions[..|functions| - 1], includeRaw)
        + (if WritesFunction(sel, last) then [FunctionValue(last, includeRaw)] else [])
  }

  function DeclarationValues(sel: Selection, functions: seq<Function>): seq<Value> {
    if functions == [] then []
    else
      var last := functions[|functions| - 1];
      DeclarationValues(sel, functions[..|functions| - 1])
        + (if WritesDeclaration(sel, last) then [DeclarationValue(last)] else [])
  }

  predicate WritesStruct(s: Struct) {
    s.name.Some? && !s.isOpaque
  }

  function StructEntries(structs: seq<Struct>): seq<Entry> {
    if structs == [] then []
    else
      var last := structs[|structs| - 1];
      StructEntries(structs[..|structs| - 1])
        + (if WritesStruct(last) then [Entry(Str(last.name.value), StrArray(last.fields))] else [])
  }

  function GlobalValue(g: Global): Value {
    Map([StrField("name", g.name), StrField("type", g.typeName), BoolField("is_constant", g.isConstant)])
  }

  function GlobalValues(globals: seq<Global>): (values: seq<Value>)
    ensures |values| == |globals|
  {
    if globals == [] then [] else GlobalValues(globals[..|globals| - 1]) + [GlobalValue(globals[|globals| - 1])]
  }

  function ModuleValue(m: Module, sel: Selection, includeRaw: bool): Value
    requires WellFormedModule(m)
  {
    Map(ModuleFields(m, sel, includeRaw))
  }

  function ModuleFields(m: Module, sel: Selection, includeRaw: bool): seq<Entry>
    requires WellFormedModule(m)
  {
    [StrField("target_triple", m.targetTriple),
     StrField("data_layout", m.dataLayout),
     Entry(Str(Key("functions")), Arr(FunctionValues(sel, m.functions, includeRaw))),
     Entry(Str(Key("declarations")), Arr(DeclarationValues(sel, m.functions))),
     Entry(Str(Key("named_struct_types")), Map(StructEntries(m.structs))),
     Entry(Str(Key("global_variables")), Arr(GlobalValues(m.globals)))]
  }

  // ----- Appending to an encoding -----

  lemma {:induction false} EncItemsConcat(a: seq<Value>, b: seq<Value>)
    ensures EncItems(a + b) == EncItems(a) + EncItems(b)
  {
    if a == [] {
      assert a + b == b;
    } else {
      EncItemsConcat(a[1..], b);
      assert (a + b)[1..] == a[1..] + b && (a + b)[0] == a[0];
      ConcatAssociates(Enc(a[0]), EncItems(a[1..]), EncItems(b));
    }
  }

  lemma {:induction false} EncEntriesConcat(a: seq<Entry>, b: seq<Entry>)
    ensures EncEntries(a + b) == EncEntries(a) + EncEntries(b)
  {
    if a == [] {
      assert a + b == b;
    } else {
      EncEntriesConcat(a[1..], b);
      assert (a + b)[1..] == a[1..] + b && (a + b)[0] == a[0];
      ConcatAssociates(EncEntry(a[0]), EncEntries(a[1..]), EncEntries(b));
    }
  }

  lemma EncOneItem(v: Value)
    ensures EncItems([v]) == Enc(v)
  {
    assert [v][1..] == [];
  }

  lemma EncOneEntry(e: Entry)
    ensures EncEntries([e]) == EncEntry(e)
  {
    assert [e][1..] == [];
  }

  /** Finishing a field: what was written before it, its key and its value. */
  lemma FieldAppended(base: Bytes, fields: seq<Entry>, e: Entry)
    ensures base + EncEntries(fields) + Enc(e.key) + Enc(e.value) == base + EncEntries(fields + [e])
  {
    EncEntriesConcat(fields, [e]);
    EncOneEntry(e);
    ConcatAssociates(base + EncEntries(fields), Enc(e.key), Enc(e.value));
    ConcatAssociates(base, EncEntries(fields), EncEntry(e));
  }

  lemma ItemAppended(base: Bytes, items: seq<Value>, v: Value)
    ensures base + EncItems(items) + Enc(v) == base + EncItems(items + [v])
  {
    EncItemsConcat(items, [v]);
    EncOneItem(v);
    ConcatAssociates(base, EncItems(items), Enc(v));
  }

  // ----- The writers -----

  /** Writes a string field after the `fields` already written behind `base`. */
  method WriteStrField(w: MsgpackWriter, name: string, s: Bytes, ghost base: Bytes, ghost fields: seq<Entry>)
    requires w.out == base + EncEntries(fields)
    modifies w
    ensures w.out == base + EncEntries(fields + [StrField(name, s)])
  {
    w.WriteStr(Key(name));
    w.WriteStr(s);
    FieldAppended(base, fields, StrField(name, s));
  }

  method WriteBoolField(w: MsgpackWriter, name: string, b: bool, ghost base: Bytes, ghost fields: seq<Entry>)
    requires w.out == base + EncEntries(fields)
    modifies w
    ensures w.out == base + EncEntries(fields + [BoolField(name, b)])
  {
    w.WriteStr(Key(name));
    w.WriteBool(b);
    FieldAppended(base, fields, BoolField(name, b));
  }

  lemma StrValuesStep(items: seq<Bytes>, k: nat)
    requires k < |items|
    ensures StrValues(items[..k + 1]) == StrValues(items[..k]) + [Str(items[k])]
  {
    assert items[..k + 1][..k] == items[..k];
  }

  /** Writes an array of strings: a header counted up front, then one string per element. */
  method WriteStrArray(w: MsgpackWriter, items: seq<Bytes>)
    modifies w
    ensures w.out == old(w.out) + Enc(StrArray(items))
  {
    ghost var before := w.out;
    w.WriteArrayHeader(|items|);
    ghost var base := w.out;
    for k := 0 to |items|
      invariant w.out == base + EncItems(StrValues(items[..k]))
    {
      w.WriteStr(items[k]);
      StrValuesStep(items, k);
      ItemAppended(base, StrValues(items[..k]), Str(items[k]));
    }
    assert items[..|items|] == items;
    ArrayFinished(before, StrValues(items));
  }

  method WriteArrayField(w: MsgpackWriter, name: string, items: seq<Bytes>, ghost base: Bytes, ghost fields: seq<Entry>)
    requires w.out == base + EncEntries(fields)
    modifies w
    ensures w.out == base + EncEntries(fields + [ArrayField(name, items)])
  {
    w.WriteStr(Key(name));
    WriteStrArray(w, items);
    FieldAppended(base, fields, ArrayField(name, items));
  }

  /** Walks down a chain of casts. */
  method FindRootType(o: Operand) returns (t: Bytes)
    ensures t == RootType(o)
  {
    var src := o;
    while src.castOf.Some?
      invariant RootType(src) == RootType(o)
      decreases src
    {
      src := src.castOf.value;
    }
    t := src.typeName;
  }

  lemma MapFinished(before: Bytes, fields: seq<Entry>)
    ensures before + MapHeader(|fields|) + EncEntries(fields) == before + Enc(Map(fields))
  {
    ConcatAssociates(before, MapHeader(|fields|), EncEntries(fields));
  }

  lemma ArrayFinished(before: Bytes, items: seq<Value>)
    ensures before + ArrayHeader(|items|) + EncItems(items) == before + Enc(Arr(items))
  {
    ConcatAssociates(before, ArrayHeader(|items|), EncItems(items));
  }

  /** Right after its header a map has no fields yet. */
  lemma NoFieldsYet(base: Bytes)
    ensures base + EncEntries([]) == base
  {
  }

  method WriteGepIndex(w: MsgpackWriter, text: Bytes, fieldType: Option<Bytes>)
    modifies w
    ensures w.out == old(w.out) + Enc(GepIndex(text, fieldType))
  {
    ghost var before := w.out;
    w.WriteMapHeader(2);
    ghost var base := w.out;
    NoFieldsYet(base);
    WriteStrField(w, "value", text, base, []);
    ghost var fields := [] + [StrField("value", text)];
    var typeName := if fieldType.Some? then fieldType.value else Key("unknown");
    WriteStrField(w, "field_type", typeName, base, fields);
    fields := fields + [StrField("field_type", typeName)];
    MapFinished(before, fields);
    assert Map(fields) == GepIndex(text, fieldType);
  }

  method WriteGepIndices(w: MsgpackWriter, operands: seq<Operand>, fieldTypes: seq<Option<Bytes>>)
    requires |fieldTypes| == |operands|
    modifies w
    ensures w.out == old(w.out) + Enc(Arr(GepIndices(operands, fieldTypes)))
  {
    ghost var before := w.out;
    w.WriteArrayHeader(|operands|);
    ghost var base := w.out;
    for k := 0 to |operands|
      invariant w.out == base + EncItems(GepIndices(operands, fieldTypes[..k]))
    {
      WriteGepIndex(w, operands[k].text, fieldTypes[k]);
      assert fieldTypes[..k + 1][..k] == fieldTypes[..k];
      ItemAppended(base, GepIndices(operands, fieldTypes[..k]), GepIndex(operands[k].text, fieldTypes[k]));
    }
    assert fieldTypes[..|fieldTypes|] == fieldTypes;
    ArrayFinished(before, GepIndices(operands, fieldTypes));
  }

  method WriteGep(w: MsgpackWriter, i: Instruction)
    requires WellFormed(i) && i.gep.Some?
    modifies w
    ensures w.out == old(w.out) + Enc(GepValue(i))
  {
    var gep := i.gep.value;
    ghost var before := w.out;
    w.WriteMapHeader(3);
    ghost var base := w.out;
    NoFieldsYet(base);
    WriteStrField(w, "source_type", gep.sourceType, base, []);
    ghost var fields := [] + [StrField("source_type", gep.sourceType)];
    WriteBoolField(w, "in_bounds", gep.inBounds, base, fields);
    fields := fields + [BoolField("in_bounds", gep.inBounds)];
    w.WriteStr(Key("indices"));
    WriteGepIndices(w, i.operands[1..], gep.fieldTypes);
    ghost var indices := Entry(Str(Key("indices")), Arr(GepIndices(i.operands[1..], gep.fieldTypes)));
    FieldAppended(base, fields, indices);
    fields := fields + [indices];
    assert fields == GepValueFields(i);
    MapFinished(before, GepValueFields(i));
  }

  method WriteCallee(w: MsgpackWriter, callee: Callee, ghost base: Bytes, ghost fields: seq<Entry>)
    requires w.out == base + EncEntries(fields)
    modifies w
    ensures w.out == base + EncEntries(fields + CalleeFields(Some(callee)))
  {
    if callee.Direct? {
      WriteStrField(w, "callee", callee.name, base, fields);
      WriteBoolField(w, "is_indirect", false, base, fields + [StrField("callee", callee.name)]);
      assert fields + [StrField("callee", callee.name)] + [BoolField("is_indirect", false)]
          == fields + CalleeFields(Some(callee));
    } else {
      WriteStrField(w, "callee", callee.text, base, fields);
      WriteBoolField(w, "is_indirect", true, base, fields + [StrField("callee", callee.text)]);
      assert fields + [StrField("callee", callee.text)] + [BoolField("is_indirect", true)]
          == fields + CalleeFields(Some(callee));
    }
  }

  lemma FieldTally(i: Instruction, id: nat, includeRaw: bool)
    requires WellFormed(i)
    ensures |InstructionFields(i, id, includeRaw)|
         == 5 + |CastFields(i)| + |GepFields(i)| + |CalleeFields(i.call)| + |CalleeFields(i.invoke)|
            + |DebugFields(i)| + |RawFields(i, includeRaw)|
  {
  }

  /** The field count the writer announces before it writes the fields. */
  method CountFields(i: Instruction, includeRaw: bool) returns (n: nat)
    requires WellFormed(i)
    ensures forall id: nat :: n == |InstructionFields(i, id, includeRaw)|
  {
    n := 5;
    if i.isPointerCast {
      n := n + 1;
    }
    if i.gep.Some? {
      n := n + 1;
    }
    assert n == 5 + |CastFields(i)| + |GepFields(i)|;
    ghost var others := n;
    if i.call.Some? {
      n := n + 2;
    }
    if i.invoke.Some? {
      n := n + 2;
    }
    assert n == others + |CalleeFields(i.call)| + |CalleeFields(i.invoke)|;
    others := n;
    if i.debugLoc.Some? {
      n := n + 1;
    }
    if includeRaw {
      n := n + 1;
    }
    assert n == others + |DebugFields(i)| + |RawFields(i, includeRaw)|;
    forall id: nat ensures n == |InstructionFields(i, id, includeRaw)| {
      FieldTally(i, id, includeRaw);
    }
  }

  method WriteRequiredFields(w: MsgpackWriter, i: Instruction, id: nat)
    modifies w
    ensures w.out == old(w.out) + EncEntries(RequiredFields(i, id))
  {
    ghost var base := w.out;
    NoFieldsYet(base);
    w.WriteStr(Key("id"));
    w.WriteUint(id);
    ghost var idField := Entry(Str(Key("id")), Int(id));
    FieldAppended(base, [], idField);
    ghost var fields := [] + [idField];
    WriteStrField(w, "opcode", i.opcode, base, fields);
    fields := fields + [StrField("opcode", i.opcode)];
    WriteStrField(w, "result_type", i.resultType, base, fields);
    fields := fields + [StrField("result_type", i.resultType)];
    WriteArrayField(w, "operands", Texts(i.operands), base, fields);
    fields := fields + [ArrayField("operands", Texts(i.operands))];
    WriteArrayField(w, "operand_types", Types(i.operands), base, fields);
    fields := fields + [ArrayField("operand_types", Types(i.operands))];
    assert fields == RequiredFields(i, id);
  }

  /** The optional fields that are present, in their fixed order. */
  method WriteOptionalFields(w: MsgpackWriter, i: Instruction, id: nat, includeRaw: bool, ghost base: Bytes)
    requires WellFormed(i) && w.out == base + EncEntries(RequiredFields(i, id))
    modifies w
    ensures w.out == base + EncEntries(InstructionFields(i, id, includeRaw))
  {
    ghost var fields := RequiredFields(i, id);
    assert fields + [] == fields;
    if i.isPointerCast {
      var t := FindRootType(i.operands[0]);
      WriteStrField(w, "source_type", t, base, fields);
    }
    fields := fields + CastFields(i);
    assert fields + [] == fields;
    if i.gep.Some? {
      w.WriteStr(Key("gep_details"));
      WriteGep(w, i);
      FieldAppended(base, fields, Entry(Str(Key("gep_details")), GepValue(i)));
    }
    fields := fields + GepFields(i);
    assert fields + [] == fields;
    if i.call.Some? {
      WriteCallee(w, i.call.value, base, fields);
    }
    fields := fields + CalleeFields(i.call);
    assert fields + [] == fields;
    if i.invoke.Some? {
      WriteCallee(w, i.invoke.value, base, fields);
    }
    fields := fields + CalleeFields(i.invoke);
    assert fields + [] == fields;
    if i.debugLoc.Some? {
      WriteStrField(w, "debug_loc", i.debugLoc.value, base, fields);
    }
    fields := fields + DebugFields(i);
    assert fields + [] == fields;
    if includeRaw {
      WriteStrField(w, "raw", i.raw, base, fields);
    }
  }

  method WriteInstruction(w: MsgpackWriter, i: Instruction, id: nat, includeRaw: bool)
    requires WellFormed(i)
    modifies w
    ensures w.out == old(w.out) + Enc(Map(InstructionFields(i, id, includeRaw)))
  {
    ghost var before := w.out;
    var n := CountFields(i, includeRaw);
    w.WriteMapHeader(n);
    ghost var base := w.out;
    WriteRequiredFields(w, i, id);
    WriteOptionalFields(w, i, id, includeRaw, base);
    MapFinished(before, InstructionFields(i, id, includeRaw));
  }

  method WriteBlock(w: MsgpackWriter, b: Block, includeRaw: bool)
    requires WellFormedBlock(b)
    modifies w
    ensures w.out == old(w.out) + Enc(BlockValue(b, includeRaw))
  {
    ghost var before := w.out;
    w.WriteMapHeader(3);
    ghost var base := w.out;
    NoFieldsYet(base);
    WriteStrField(w, "label", b.name, base, []);
    ghost var fields := [] + [StrField("label", b.name)];
    w.WriteStr(Key("instructions"));
    WriteInstructions(w, b.instructions, includeRaw);
    ghost var instructions := Entry(Str(Key("instructions")), Arr(InstructionValues(b.instructions, includeRaw)));
    FieldAppended(base, fields, instructions);
    fields := fields + [instructions];
    WriteArrayField(w, "successors", b.successors, base, fields);
    fields := fields + [ArrayField("successors", b.successors)];
    assert fields == BlockFields(b, includeRaw);
    MapFinished(before, BlockFields(b, includeRaw));
  }

  method WriteInstructions(w: MsgpackWriter, instructions: seq<Instruction>, includeRaw: bool)
    requires forall i :: i in instructions ==> WellFormed(i)
    modifies w
    ensures w.out == old(w.out) + Enc(Arr(InstructionValues(instructions, includeRaw)))
  {
    ghost var before := w.out;
    w.WriteArrayHeader(|instructions|);
    ghost var base := w.out;
    for k := 0 to |instructions|
      invariant w.out == base + EncItems(InstructionValues(instructions[..k], includeRaw))
    {
      WriteInstruction(w, instructions[k], k, includeRaw);
      assert instructions[..k + 1][..k] == instructions[..k];
      ItemAppended(base, InstructionValues(instructions[..k], includeRaw), Map(InstructionFields(instructions[k], k, includeRaw)));
    }
    assert instructions[..|instructions|] == instructions;
    ArrayFinished(before, InstructionValues(instructions, includeRaw));
  }

  method WriteBlocks(w: MsgpackWriter, blocks: seq<Block>, includeRaw: bool)
    requires forall b :: b in blocks ==> WellFormedBlock(b)
    modifies w
    ensures w.out == old(w.out) + Enc(Arr(BlockValues(blocks, includeRaw)))
  {
    ghost var before := w.out;
    w.WriteArrayHeader(|blocks|);
    ghost var base := w.out;
    for k := 0 to |blocks|
      invariant w.out == base + EncItems(BlockValues(blocks[..k], includeRaw))
    {
      WriteBlock(w, blocks[k], includeRaw);
      assert blocks[..k + 1][..k] == blocks[..k];
      ItemAppended(base, BlockValues(blocks[..k], includeRaw), BlockValue(blocks[k], includeRaw));
    }
    assert blocks[..|blocks|] == blocks;
    ArrayFinished(before, BlockValues(blocks, includeRaw));
  }

  method WriteFunction(w: MsgpackWriter, f: Function, includeRaw: bool)
    requires WellFormedFunction(f)
    modifies w
    ensures w.out == old(w.out) + Enc(FunctionValue(f, includeRaw))
  {
    ghost var before := w.out;
    var n := 5;
    if !f.isDeclaration {
      n := n + 1;
    }
    n := n + 1;
    w.WriteMapHeader(n);
    ghost var base := w.out;
    WriteHeadFields(w, f);
    if f.isDeclaration {
      assert HeadFields(f) + BodyFields(f, includeRaw) == HeadFields(f);
    } else {
      w.WriteStr(Key("blocks"));
      WriteBlocks(w, f.blocks, includeRaw);
      FieldAppended(base, HeadFields(f), Entry(Str(Key("blocks")), Arr(BlockValues(f.blocks, includeRaw))));
    }
    MapFinished(before, HeadFields(f) + BodyFields(f, includeRaw));
  }

  method WriteHeadFields(w: MsgpackWriter, f: Function)
    modifies w
    ensures w.out == old(w.out) + EncEntries(HeadFields(f))
  {
    ghost var base := w.out;
    NoFieldsYet(base);
    WriteStrField(w, "name", f.name, base, []);
    ghost var fields := [] + [StrField("name", f.name)];
    WriteStrField(w, "demangled", f.demangled, base, fields);
    fields := fields + [StrField("demangled", f.demangled)];
    WriteBoolField(w, "is_declaration", f.isDeclaration, base, fields);
    fields := fields + [BoolField("is_declaration", f.isDeclaration)];
    WriteStrField(w, "return_type", f.returnType, base, fields);
    fields := fields + [StrField("return_type", f.returnType)];
    WriteArrayField(w, "param_types", f.paramTypes, base, fields);
    fields := fields + [ArrayField("param_types", f.paramTypes)];
    WriteStrField(w, "calling_convention", f.callingConvention, base, fields);
    fields := fields + [StrField("calling_convention", f.callingConvention)];
    assert fields == HeadFields(f);
  }

  method WriteDeclaration(w: MsgpackWriter, f: Function)
    modifies w
    ensures w.out == old(w.out) + Enc(DeclarationValue(f))
  {
    ghost var before := w.out;
    w.WriteMapHeader(4);
    ghost var base := w.out;
    NoFieldsYet(base);
    WriteStrField(w, "name", f.name, base, []);
    ghost var fields := [] + [StrField("name", f.name)];
    WriteStrField(w, "demangled", f.demangled, base, fields);
    fields := fields + [StrField("demangled", f.demangled)];
    WriteStrField(w, "return_type", f.returnType, base, fields);
    fields := fields + [StrField("return_type", f.returnType)];
    WriteArrayField(w, "param_types", f.paramTypes, base, fields);
    fields := fields + [ArrayField("param_types", f.paramTypes)];
    MapFinished(before, fields);
    assert Map(fields) == DeclarationValue(f);
  }

  lemma StructEntriesStep(structs: seq<Struct>, k: nat)
    requires k < |structs|
    ensures StructEntries(structs[..k + 1]) == StructEntries(structs[..k])
      + if WritesStruct(structs[k]) then [Entry(Str(structs[k].name.value), StrArray(structs[k].fields))] else []
  {
    assert structs[..k + 1][..k] == structs[..k];
  }

  method CountStructs(structs: seq<Struct>) returns (n: nat)
    ensures n == |StructEntries(structs)|
  {
    n := 0;
    for k := 0 to |structs|
      invariant n == |StructEntries(structs[..k])|
    {
      StructEntriesStep(structs, k);
      if WritesStruct(structs[k]) {
        n := n + 1;
      }
    }
    assert structs[..|structs|] == structs;
  }

  /** Counts the structs to be written in one loop and writes them in a second one. */
  method WriteNamedStructs(w: MsgpackWriter, structs: seq<Struct>)
    modifies w
    ensures w.out == old(w.out) + Enc(Map(StructEntries(structs)))
  {
    ghost var before := w.out;
    var n := CountStructs(structs);
    w.WriteMapHeader(n);
    WriteStructs(w, structs);
    MapFinished(before, StructEntries(structs));
  }

  method WriteStructs(w: MsgpackWriter, structs: seq<Struct>)
    modifies w
    ensures w.out == old(w.out) + EncEntries(StructEntries(structs))
  {
    ghost var base := w.out;
    NoFieldsYet(base);
    for k := 0 to |structs|
      invariant w.out == base + EncEntries(StructEntries(structs[..k]))
    {
      StructEntriesStep(structs, k);
      ghost var entries := StructEntries(structs[..k]);
      if WritesStruct(structs[k]) {
        w.WriteStr(structs[k].name.value);
        WriteStrArray(w, structs[k].fields);
        FieldAppended(base, entries, Entry(Str(structs[k].name.value), StrArray(structs[k].fields)));
      } else {
        assert entries + [] == entries;
      }
    }
    assert structs[..|structs|] == structs;
  }

  method WriteGlobal(w: MsgpackWriter, g: Global)
    modifies w
    ensures w.out == old(w.out) + Enc(GlobalValue(g))
  {
    ghost var before := w.out;
    w.WriteMapHeader(3);
    ghost var base := w.out;
    NoFieldsYet(base);
    WriteStrField(w, "name", g.name, base, []);
    ghost var fields := [] + [StrField("name", g.name)];
    WriteStrField(w, "type", g.typeName, base, fields);
    fields := fields + [StrField("type", g.typeName)];
    WriteBoolField(w, "is_constant", g.isConstant, base, fields);
    fields := fields + [BoolField("is_constant", g.isConstant)];
    MapFinished(before, fields);
    assert Map(fields) == GlobalValue(g);
  }

  method WriteGlobals(w: MsgpackWriter, globals: seq<Global>)
    modifies w
    ensures w.out == old(w.out) + Enc(Arr(GlobalValues(globals)))
  {
    ghost var before := w.out;
    w.WriteArrayHeader(|globals|);
    ghost var base := w.out;
    for k := 0 to |globals|
      invariant w.out == base + EncItems(GlobalValues(globals[..k]))
    {
      WriteGlobal(w, globals[k]);
      assert globals[..k + 1][..k] == globals[..k];
      ItemAppended(base, GlobalValues(globals[..k]), GlobalValue(globals[k]));
    }
    assert globals[..|globals|] == globals;
    ArrayFinished(before, GlobalValues(globals));
  }

  /** Counts both kinds in one loop over all functions. */
  method CountSelected(functions: seq<Function>, sel: Selection, ghost includeRaw: bool)
    returns (numFunctions: nat, numDeclarations: nat)
    requires forall f :: f in functions ==> WellFormedFunction(f)
    ensures numFunctions == |FunctionValues(sel, functions, includeRaw)|
    ensures numDeclarations == |DeclarationValues(sel, functions)|
  {
    numFunctions, numDeclarations := 0, 0;
    for k := 0 to |functions|
      invariant numFunctions == |FunctionValues(sel, functions[..k], includeRaw)|
      invariant numDeclarations == |DeclarationValues(sel, functions[..k])|
    {
      assert functions[..k + 1][..k] == functions[..k];
      var f := functions[k];
      if !sel.skipped(f.name) {
        if f.isDeclaration {
          if !sel.sliced || f.name in sel.declarations {
            numDeclarations := numDeclarations + 1;
          }
        } else {
          if !sel.sliced || f.name in sel.functions {
            numFunctions := numFunctions + 1;
          }
        }
      }
    }
    assert functions[..|functions|] == functions;
  }

  method WriteFunctions(w: MsgpackWriter, functions: seq<Function>, sel: Selection, includeRaw: bool, ghost base: Bytes)
    requires forall f :: f in functions ==> WellFormedFunction(f)
    requires w.out == base
    modifies w
    ensures w.out == base + EncItems(FunctionValues(sel, functions, includeRaw))
  {
    for k := 0 to |functions|
      invariant w.out == base + EncItems(FunctionValues(sel, functions[..k], includeRaw))
    {
      assert functions[..k + 1][..k] == functions[..k];
      ghost var values := FunctionValues(sel, functions[..k], includeRaw);
      var f := functions[k];
      if !sel.skipped(f.name) && !f.isDeclaration && (!sel.sliced || f.name in sel.functions) {
        WriteFunction(w, f, includeRaw);
        ItemAppended(base, values, FunctionValue(f, includeRaw));
      } else {
        assert values + [] == values;
      }
    }
    assert functions[..|functions|] == functions;
  }

  method WriteDeclarations(w: MsgpackWriter, functions: seq<Function>, sel: Selection, ghost base: Bytes)
    requires w.out == base
    modifies w
    ensures w.out == base + EncItems(DeclarationValues(sel, functions))
  {
    for k := 0 to |functions|
      invariant w.out == base + EncItems(DeclarationValues(sel, functions[..k]))
    {
      assert functions[..k + 1][..k] == functions[..k];
      ghost var values := DeclarationValues(sel, functions[..k]);
      var f := functions[k];
      if !sel.skipped(f.name) && f.isDeclaration && (!sel.sliced || f.name in sel.declarations) {
        WriteDeclaration(w, f);
        ItemAppended(base, values, DeclarationValue(f));
      } else {
        assert values + [] == values;
      }
    }
    assert functions[..|functions|] == functions;
  }

  /** The whole document: counts first, then a map of six fields. */
  method WriteModule(w: MsgpackWriter, m: Module, sel: Selection, includeRaw: bool)
    requires WellFormedModule(m)
    modifies w
    ensures w.out == old(w.out) + Enc(ModuleValue(m, sel, includeRaw))
  {
    assert forall f :: f in m.functions ==> WellFormedFunction(f);
    var numFunctions, numDeclarations := CountSelected(m.functions, sel, includeRaw);
    ghost var before := w.out;
    w.WriteMapHeader(6);
    ghost var base := w.out;
    NoFieldsYet(base);
    WriteStrField(w, "target_triple", m.targetTriple, base, []);
    ghost var fields := [] + [StrField("target_triple", m.targetTriple)];
    WriteStrField(w, "data_layout", m.dataLayout, base, fields);
    fields := fields + [StrField("data_layout", m.dataLayout)];
    fields := WriteFunctionsField(w, m, sel, includeRaw, numFunctions, base, fields);
    fields := WriteDeclarationsField(w, m, sel, numDeclarations, base, fields);
    fields := WriteStructsAndGlobals(w, m, base, fields);
    assert fields == ModuleFields(m, sel, includeRaw);
    MapFinished(before, ModuleFields(m, sel, includeRaw));
  }

  method WriteStructsAndGlobals(w: MsgpackWriter, m: Module, ghost base: Bytes, ghost fields: seq<Entry>)
    returns (ghost extended: seq<Entry>)
    requires w.out == base + EncEntries(fields)
    modifies w
    ensures extended == fields
      + [Entry(Str(Key("named_struct_types")), Map(StructEntries(m.structs)))]
      + [Entry(Str(Key("global_variables")), Arr(GlobalValues(m.globals)))]
    ensures w.out == base + EncEntries(extended)
  {
    w.WriteStr(Key("named_struct_types"));
    WriteNamedStructs(w, m.structs);
    ghost var structs := Entry(Str(Key("named_struct_types")), Map(StructEntries(m.structs)));
    FieldAppended(base, fields, structs);
    w.WriteStr(Key("global_variables"));
    WriteGlobals(w, m.globals);
    ghost var globals := Entry(Str(Key("global_variables")), Arr(GlobalValues(m.globals)));
    FieldAppended(base, fields + [structs], globals);
    extended := fields + [structs] + [globals];
  }

  method WriteFunctionsField(w: MsgpackWriter, m: Module, sel: Selection, includeRaw: bool, count: nat, ghost base: Bytes, ghost fields: seq<Entry>)
    returns (ghost extended: seq<Entry>)
    requires forall f :: f in m.functions ==> WellFormedFunction(f)
    requires w.out == base + EncEntries(fields) && count == |FunctionValues(sel, m.functions, includeRaw)|
    modifies w
    ensures extended == fields + [Entry(Str(Key("functions")), Arr(FunctionValues(sel, m.functions, includeRaw)))]
    ensures w.out == base + EncEntries(extended)
  {
    w.WriteStr(Key("functions"));
    ghost var before := w.out;
    w.WriteArrayHeader(count);
    WriteFunctions(w, m.functions, sel, includeRaw, w.out);
    ghost var values := FunctionValues(sel, m.functions, includeRaw);
    ArrayFinished(before, values);
    FieldAppended(base, fields, Entry(Str(Key("functions")), Arr(values)));
    extended := fields + [Entry(Str(Key("functions")), Arr(values))];
  }

  method WriteDeclarationsField(w: MsgpackWriter, m: Module, sel: Selection, count: nat, ghost base: Bytes, ghost fields: seq<Entry>)
    returns (ghost extended: seq<Entry>)
    requires w.out == base + EncEntries(fields) && count == |DeclarationValues(sel, m.functions)|
    modifies w
    ensures extended == fields + [Entry(Str(Key("declarations")), Arr(DeclarationValues(sel, m.functions)))]
    ensures w.out == base + EncEntries(extended)
  {
    w.WriteStr(Key("declarations"));
    ghost var before := w.out;
    w.WriteArrayHeader(count);
    WriteDeclarations(w, m.functions, sel, w.out);
    ghost var values := DeclarationValues(sel, m.functions);
    ArrayFinished(before, values);
    FieldAppended(base, fields, Entry(Str(Key("declarations")), Arr(values)));
    extended := fields + [Entry(Str(Key("declarations")), Arr(values))];
  }
}
