/** The document written for a module reads back as that module. */
module Documents {
  import opened Sequences
  import opened Wrappers
  import opened Msgpack
  import opened ModuleTrees
  import opened ModuleDocuments
  import opened DocumentReaders

  // ----- Finding fields by name -----

  predicate Plain(name: string) {
    forall i :: 0 <= i < |name| ==> name[i] as int < 256
  }

  lemma KeySpells(written: string, name: string)
    requires Plain(written)
    ensures Spells(Str(Key(written)), name) <==> written == name
  {
    if Spells(Str(Key(written)), name) {
      forall i | 0 <= i < |name| ensures written[i] == name[i] {
        assert Key(written)[i] as int == written[i] as int;
      }
    }
  }

  lemma {:induction false} UnderConcat(a: seq<Entry>, b: seq<Entry>, name: string)
    ensures Under(a + b, name) == Under(a, name) + Under(b, name)
  {
    if a == [] {
      assert a + b == b;
    } else {
      var first := if Spells(a[0].key, name) then [a[0].value] else [];
      assert (a + b)[1..] == a[1..] + b && (a + b)[0] == a[0];
      UnderConcat(a[1..], b, name);
      ConcatAssociates(first, Under(a[1..], name), Under(b, name));
    }
  }

  lemma UnderOne(written: string, v: Value, name: string)
    requires Plain(written)
    ensures Under([Entry(Str(Key(written)), v)], name) == if written == name then [v] else []
  {
    var fields := [Entry(Str(Key(written)), v)];
    KeySpells(written, name);
    assert fields[1..] == [];
  }

  /** The fields carry these names, which are all different. */
  ghost predicate Named(fields: seq<Entry>, names: seq<string>) {
    && |fields| == |names| && Distinct(names) && AllPlain(names)
    && forall k :: 0 <= k < |names| ==> fields[k].key == Str(Key(names[k]))
  }

  predicate AllPlain(names: seq<string>) {
    forall k :: 0 <= k < |names| ==> Plain(names[k])
  }

  lemma {:induction false} NotUnder(fields: seq<Entry>, names: seq<string>, name: string)
    requires Named(fields, names) && name !in names
    ensures Under(fields, name) == []
  {
    if fields != [] {
      KeySpells(names[0], name);
      NotUnder(fields[1..], names[1..], name);
    }
  }

  lemma {:induction false} UnderNamed(fields: seq<Entry>, names: seq<string>, k: nat)
    requires Named(fields, names) && k < |names|
    ensures Under(fields, names[k]) == [fields[k].value]
  {
    KeySpells(names[0], names[k]);
    if k == 0 {
      NotUnder(fields[1..], names[1..], names[0]);
    } else {
      UnderNamed(fields[1..], names[1..], k - 1);
    }
  }

  lemma AllUnderNamed(fields: seq<Entry>, names: seq<string>)
    requires Named(fields, names)
    ensures forall k :: 0 <= k < |names| ==> Under(fields, names[k]) == [fields[k].value]
    ensures forall name :: name !in names ==> Under(fields, name) == []
  {
    forall k | 0 <= k < |names| ensures Under(fields, names[k]) == [fields[k].value] {
      UnderNamed(fields, names, k);
    }
    forall name | name !in names ensures Under(fields, name) == [] {
      NotUnder(fields, names, name);
    }
  }

  // ----- Lists -----

  /** A list is read exactly when each of its items is, and then item by item. */
  lemma {:induction false} AllReadIffEach<S, T>(items: seq<S>, read: S -> Reading<T>)
    ensures ReadAll(items, read).Read? <==> forall k :: 0 <= k < |items| ==> read(items[k]).Read?
    ensures ReadAll(items, read).Read? ==>
      var all := ReadAll(items, read).value;
      |all| == |items| && forall k :: 0 <= k < |items| ==> read(items[k]) == Read(all[k])
  {
    if items != [] {
      var rest := items[1..];
      AllReadIffEach(rest, read);
      if forall k :: 0 <= k < |items| ==> read(items[k]).Read? {
        assert forall k :: 0 <= k < |rest| ==> rest[k] == items[k + 1];
      }
      if ReadAll(items, read).Read? {
        assert forall k :: 0 < k < |items| ==> items[k] == rest[k - 1];
      }
    }
  }

  lemma {:induction false} StrValuesAt(items: seq<Bytes>, k: nat)
    requires k < |items|
    ensures StrValues(items)[k] == Str(items[k])
  {
    if k < |items| - 1 {
      StrValuesAt(items[..|items| - 1], k);
    }
  }

  lemma StrArrayReads(items: seq<Bytes>)
    ensures AsStrs(StrArray(items)) == Read(items)
  {
    var values := StrValues(items);
    forall k | 0 <= k < |items| ensures values[k] == Str(items[k]) {
      StrValuesAt(items, k);
    }
    AllReadIffEach(values, AsStr);
    assert ReadAll(values, AsStr).value == items;
  }

  // ----- Every part of the document reads back -----

  lemma IndexReads(o: Operand, fieldType: Option<Bytes>)
    ensures var r := ReadIndex(GepIndex(o.text, fieldType)); r.Read? && DescribesIndex(r.value, o, fieldType)
  {
    var names := ["value", "field_type"];
    AllUnderNamed(GepIndex(o.text, fieldType).entries, names);
    assert names[0] == "value" && names[1] == "field_type";
    KeySpells("unknown", "unknown");
  }

  lemma {:induction false} GepIndicesAt(operands: seq<Operand>, fieldTypes: seq<Option<Bytes>>, k: nat)
    requires k < |fieldTypes| <= |operands|
    ensures GepIndices(operands, fieldTypes)[k] == GepIndex(operands[k].text, fieldTypes[k])
  {
    if k < |fieldTypes| - 1 {
      GepIndicesAt(operands, fieldTypes[..|fieldTypes| - 1], k);
    }
  }

  lemma IndicesRead(operands: seq<Operand>, fieldTypes: seq<Option<Bytes>>)
    requires |fieldTypes| == |operands|
    ensures var r := ReadIndices(Arr(GepIndices(operands, fieldTypes)));
      && r.Read? && |r.value| == |operands|
      && forall k :: 0 <= k < |operands| ==> DescribesIndex(r.value[k], operands[k], fieldTypes[k])
  {
    var values := GepIndices(operands, fieldTypes);
    forall k | 0 <= k < |operands|
      ensures ReadIndex(values[k]).Read? && DescribesIndex(ReadIndex(values[k]).value, operands[k], fieldTypes[k])
    {
      GepIndicesAt(operands, fieldTypes, k);
      IndexReads(operands[k], fieldTypes[k]);
    }
    AllReadIffEach(values, ReadIndex);
  }

  function GepNames(): seq<string> {
    ["source_type", "in_bounds", "indices"]
  }

  lemma GepNamesArePlain()
    ensures AllPlain(GepNames())
  {
  }

  lemma GepNamed(i: Instruction)
    requires WellFormed(i) && i.gep.Some?
    ensures Named(GepValueFields(i), GepNames())
  {
    GepNamesArePlain();
  }

  lemma GepUnder(i: Instruction)
    requires WellFormed(i) && i.gep.Some?
    ensures var fields := GepValueFields(i);
      && Under(fields, "source_type") == [Str(i.gep.value.sourceType)] && Under(fields, "in_bounds") == [Bool(i.gep.value.inBounds)]
      && Under(fields, "indices") == [Arr(GepIndices(i.operands[1..], i.gep.value.fieldTypes))]
  {
    var fields, names := GepValueFields(i), GepNames();
    GepNamed(i);
    UnderNamed(fields, names, 0);
    UnderNamed(fields, names, 1);
    UnderNamed(fields, names, 2);
  }

  lemma GepReads(i: Instruction)
    requires WellFormed(i) && i.gep.Some?
    ensures var r := ReadGep(GepValue(i)); r.Read? && DescribesGep(r.value, i)
  {
    GepUnder(i);
    IndicesRead(i.operands[1..], i.gep.value.fieldTypes);
  }

  lemma {:induction false} RootTypeIsRoot(o: Operand)
    ensures IsRootType(o, RootType(o))
  {
    if o.castOf.Some? {
      RootTypeIsRoot(o.castOf.value);
      var chain: seq<Operand> :| IsCastChain(chain) && chain[0] == o.castOf.value && chain[|chain| - 1].typeName == RootType(o);
      var longer := [o] + chain;
      assert IsCastChain(longer) && longer[|longer| - 1] == chain[|chain| - 1];
    } else {
      assert IsCastChain([o]);
    }
  }

  function RequiredNames(): seq<string> {
    ["id", "opcode", "result_type", "operands", "operand_types"]
  }

  lemma RequiredNamesArePlain()
    ensures AllPlain(RequiredNames())
  {
  }

  lemma RequiredNamed(i: Instruction, id: nat)
    ensures Named(RequiredFields(i, id), RequiredNames())
  {
    RequiredNamesArePlain();
  }

  lemma RequiredUnder(i: Instruction, id: nat)
    ensures var fields := RequiredFields(i, id);
      && Under(fields, "id") == [Int(id)] && Under(fields, "opcode") == [Str(i.opcode)]
      && Under(fields, "result_type") == [Str(i.resultType)]
      && Under(fields, "operands") == [StrArray(Texts(i.operands))]
      && Under(fields, "operand_types") == [StrArray(Types(i.operands))]
  {
    var fields, names := RequiredFields(i, id), RequiredNames();
    RequiredNamed(i, id);
    UnderNamed(fields, names, 0);
    UnderNamed(fields, names, 1);
    UnderNamed(fields, names, 2);
    UnderNamed(fields, names, 3);
    UnderNamed(fields, names, 4);
  }

  lemma NotRequired(i: Instruction, id: nat, name: string)
    requires name !in RequiredNames()
    ensures Under(RequiredFields(i, id), name) == []
  {
    RequiredNamed(i, id);
    NotUnder(RequiredFields(i, id), RequiredNames(), name);
  }

  function CalleeText(callee: Callee): Bytes {
    if callee.Direct? then callee.name else callee.text
  }

  function CalleeTexts(callee: Option<Callee>): seq<Bytes> {
    if callee.None? then [] else [CalleeText(callee.value)]
  }

  function CalleeMarks(callee: Option<Callee>): seq<bool> {
    if callee.None? then [] else [callee.value.Indirect?]
  }

  function StrsOf(texts: seq<Bytes>): (values: seq<Value>)
    ensures |values| == |texts| && forall k :: 0 <= k < |texts| ==> values[k] == Str(texts[k])
  {
    seq(|texts|, k requires 0 <= k < |texts| => Str(texts[k]))
  }

  function BoolsOf(marks: seq<bool>): (values: seq<Value>)
    ensures |values| == |marks| && forall k :: 0 <= k < |marks| ==> values[k] == Bool(marks[k])
  {
    seq(|marks|, k requires 0 <= k < |marks| => Bool(marks[k]))
  }

  lemma StrsRead(texts: seq<Bytes>)
    ensures ReadAll(StrsOf(texts), AsStr) == Read(texts)
  {
    AllReadIffEach(StrsOf(texts), AsStr);
    assert ReadAll(StrsOf(texts), AsStr).value == texts;
  }

  lemma BoolsRead(marks: seq<bool>)
    ensures ReadAll(BoolsOf(marks), AsBool) == Read(marks)
  {
    AllReadIffEach(BoolsOf(marks), AsBool);
    assert ReadAll(BoolsOf(marks), AsBool).value == marks;
  }

  lemma CalleeNamed(callee: Callee)
    ensures Named(CalleeFields(Some(callee)), ["callee", "is_indirect"])
  {
    assert AllPlain(["callee", "is_indirect"]);
  }

  lemma CalleeUnder(callee: Option<Callee>, name: string)
    ensures name == "callee" ==> Under(CalleeFields(callee), name) == StrsOf(CalleeTexts(callee))
    ensures name == "is_indirect" ==> Under(CalleeFields(callee), name) == BoolsOf(CalleeMarks(callee))
    ensures name != "callee" && name != "is_indirect" ==> Under(CalleeFields(callee), name) == []
  {
    if callee.Some? {
      var fields, names := CalleeFields(callee), ["callee", "is_indirect"];
      CalleeNamed(callee.value);
      if name == "callee" {
        UnderNamed(fields, names, 0);
      } else if name == "is_indirect" {
        UnderNamed(fields, names, 1);
      } else {
        NotUnder(fields, names, name);
      }
    }
  }

  lemma CastUnder(i: Instruction, name: string)
    requires WellFormed(i)
    ensures Under(CastFields(i), name) == if name == "source_type" && i.isPointerCast then [Str(RootType(i.operands[0]))] else []
  {
    if i.isPointerCast {
      UnderOne("source_type", Str(RootType(i.operands[0])), name);
    }
  }

  lemma GepFieldUnder(i: Instruction, name: string)
    requires WellFormed(i)
    ensures Under(GepFields(i), name) == if name == "gep_details" && i.gep.Some? then [GepValue(i)] else []
  {
    if i.gep.Some? {
      UnderOne("gep_details", GepValue(i), name);
    }
  }

  lemma DebugUnder(i: Instruction, name: string)
    ensures Under(DebugFields(i), name) == if name == "debug_loc" && i.debugLoc.Some? then [Str(i.debugLoc.value)] else []
  {
    if i.debugLoc.Some? {
      UnderOne("debug_loc", Str(i.debugLoc.value), name);
    }
  }

  lemma RawUnder(i: Instruction, includeRaw: bool, name: string)
    ensures Under(RawFields(i, includeRaw), name) == if name == "raw" && includeRaw then [Str(i.raw)] else []
  {
    if includeRaw {
      UnderOne("raw", Str(i.raw), name);
    }
  }

  lemma UnderFront(a: seq<Entry>, b: seq<Entry>, name: string)
    requires Under(b, name) == []
    ensures Under(a + b, name) == Under(a, name)
  {
    UnderConcat(a, b, name);
  }

  lemma UnderBack(a: seq<Entry>, b: seq<Entry>, name: string)
    requires Under(a, name) == []
    ensures Under(a + b, name) == Under(b, name)
  {
    UnderConcat(a, b, name);
  }

  /** The fields in front of the callee, and those up to it. */
  function FrontFields(i: Instruction, id: nat): seq<Entry>
    requires WellFormed(i)
  {
    RequiredFields(i, id) + CastFields(i) + GepFields(i)
  }

  function MiddleFields(i: Instruction, id: nat): seq<Entry>
    requires WellFormed(i)
  {
    FrontFields(i, id) + CalleeFields(i.call) + CalleeFields(i.invoke)
  }

  lemma FrontUnder(i: Instruction, id: nat, includeRaw: bool, name: string)
    requires WellFormed(i) && name != "callee" && name != "is_indirect" && name != "debug_loc" && name != "raw"
    ensures Under(InstructionFields(i, id, includeRaw), name) == Under(FrontFields(i, id), name)
  {
    CalleeUnder(i.call, name);
    CalleeUnder(i.invoke, name);
    UnderFront(FrontFields(i, id), CalleeFields(i.call), name);
    UnderFront(FrontFields(i, id) + CalleeFields(i.call), CalleeFields(i.invoke), name);
    MiddleUnder(i, id, includeRaw, name);
  }

  lemma MiddleUnder(i: Instruction, id: nat, includeRaw: bool, name: string)
    requires WellFormed(i) && name != "debug_loc" && name != "raw"
    ensures Under(InstructionFields(i, id, includeRaw), name) == Under(MiddleFields(i, id), name)
  {
    DebugUnder(i, name);
    RawUnder(i, includeRaw, name);
    UnderFront(MiddleFields(i, id), DebugFields(i), name);
    UnderFront(MiddleFields(i, id) + DebugFields(i), RawFields(i, includeRaw), name);
  }

  lemma NothingInFront(i: Instruction, id: nat, name: string)
    requires WellFormed(i) && name !in RequiredNames() && name != "source_type" && name != "gep_details"
    ensures Under(FrontFields(i, id), name) == []
  {
    NotRequired(i, id, name);
    CastUnder(i, name);
    GepFieldUnder(i, name);
    UnderFront(RequiredFields(i, id), CastFields(i), name);
    UnderFront(RequiredFields(i, id) + CastFields(i), GepFields(i), name);
  }

  lemma RequiredOnly(i: Instruction, id: nat, includeRaw: bool, name: string)
    requires WellFormed(i) && name != "source_type" && name != "gep_details"
    requires name != "callee" && name != "is_indirect" && name != "debug_loc" && name != "raw"
    ensures Under(InstructionFields(i, id, includeRaw), name) == Under(RequiredFields(i, id), name)
  {
    FrontUnder(i, id, includeRaw, name);
    CastUnder(i, name);
    GepFieldUnder(i, name);
    UnderFront(RequiredFields(i, id), CastFields(i), name);
    UnderFront(RequiredFields(i, id) + CastFields(i), GepFields(i), name);
  }

  lemma CalleesOnly(i: Instruction, id: nat, includeRaw: bool, name: string)
    requires WellFormed(i) && name !in RequiredNames() && name != "source_type" && name != "gep_details"
    requires name != "debug_loc" && name != "raw"
    ensures Under(InstructionFields(i, id, includeRaw), name)
         == Under(CalleeFields(i.call), name) + Under(CalleeFields(i.invoke), name)
  {
    MiddleUnder(i, id, includeRaw, name);
    NothingInFront(i, id, name);
    UnderBack(FrontFields(i, id), CalleeFields(i.call), name);
    UnderConcat(FrontFields(i, id) + CalleeFields(i.call), CalleeFields(i.invoke), name);
  }

  lemma TailOnly(i: Instruction, id: nat, includeRaw: bool, name: string)
    requires WellFormed(i) && name !in RequiredNames() && name != "source_type" && name != "gep_details"
    requires name != "callee" && name != "is_indirect"
    ensures Under(InstructionFields(i, id, includeRaw), name)
         == Under(DebugFields(i), name) + Under(RawFields(i, includeRaw), name)
  {
    NothingInFront(i, id, name);
    CalleeUnder(i.call, name);
    CalleeUnder(i.invoke, name);
    UnderBack(FrontFields(i, id), CalleeFields(i.call), name);
    UnderBack(FrontFields(i, id) + CalleeFields(i.call), CalleeFields(i.invoke), name);
    UnderBack(MiddleFields(i, id), DebugFields(i), name);
    UnderConcat(MiddleFields(i, id) + DebugFields(i), RawFields(i, includeRaw), name);
  }

  /** Names of the same length that start differently. */
  lemma NamesDiffer()
    ensures "opcode" != "callee"
    ensures "result_type" != "source_type" && "result_type" != "gep_details" && "result_type" != "is_indirect"
    ensures "source_type" != "gep_details" && "source_type" != "is_indirect" && "gep_details" != "is_indirect"
  {
    assert "opcode"[0] == 'o' && "callee"[0] == 'c';
    assert "result_type"[0] == 'r' && "source_type"[0] == 's' && "gep_details"[0] == 'g' && "is_indirect"[0] == 'i';
  }

  lemma OptionalIsNotRequired(name: string)
    requires name == "source_type" || name == "gep_details" || name == "callee" || name == "is_indirect"
      || name == "debug_loc" || name == "raw"
    ensures name !in RequiredNames()
  {
    NamesDiffer();
    forall k | 0 <= k < |RequiredNames()| ensures RequiredNames()[k] != name {
    }
  }

  lemma ScalarsRead(i: Instruction, id: nat, includeRaw: bool)
    requires WellFormed(i)
    ensures var fields := InstructionFields(i, id, includeRaw);
      && Field(fields, "id", AsInt) == Read(id as int)
      && Field(fields, "opcode", AsStr) == Read(i.opcode)
      && Field(fields, "result_type", AsStr) == Read(i.resultType)
  {
    NamesDiffer();
    RequiredUnder(i, id);
    RequiredOnly(i, id, includeRaw, "id");
    RequiredOnly(i, id, includeRaw, "opcode");
    RequiredOnly(i, id, includeRaw, "result_type");
  }

  lemma OperandsRead(i: Instruction, id: nat, includeRaw: bool)
    requires WellFormed(i)
    ensures var fields := InstructionFields(i, id, includeRaw);
      && Field(fields, "operands", AsStrs) == Read(Texts(i.operands))
      && Field(fields, "operand_types", AsStrs) == Read(Types(i.operands))
  {
    RequiredUnder(i, id);
    StrArrayReads(Texts(i.operands));
    StrArrayReads(Types(i.operands));
    RequiredOnly(i, id, includeRaw, "operands");
    RequiredOnly(i, id, includeRaw, "operand_types");
  }

  lemma CastRead(i: Instruction, id: nat, includeRaw: bool)
    requires WellFormed(i)
    ensures OptionalField(InstructionFields(i, id, includeRaw), "source_type", AsStr)
         == Read(if i.isPointerCast then Some(RootType(i.operands[0])) else None)
  {
    NamesDiffer();
    OptionalIsNotRequired("source_type");
    FrontUnder(i, id, includeRaw, "source_type");
    NotRequired(i, id, "source_type");
    CastUnder(i, "source_type");
    GepFieldUnder(i, "source_type");
    UnderBack(RequiredFields(i, id), CastFields(i), "source_type");
    UnderFront(RequiredFields(i, id) + CastFields(i), GepFields(i), "source_type");
  }

  lemma GepFieldRead(i: Instruction, id: nat, includeRaw: bool)
    requires WellFormed(i)
    ensures OptionalField(InstructionFields(i, id, includeRaw), "gep_details", ReadGep)
         == if i.gep.Some? then (var gep :- ReadGep(GepValue(i)); Read(Some(gep))) else Read(None)
  {
    NamesDiffer();
    OptionalIsNotRequired("gep_details");
    FrontUnder(i, id, includeRaw, "gep_details");
    NotRequired(i, id, "gep_details");
    CastUnder(i, "gep_details");
    GepFieldUnder(i, "gep_details");
    UnderBack(RequiredFields(i, id), CastFields(i), "gep_details");
    UnderBack(RequiredFields(i, id) + CastFields(i), GepFields(i), "gep_details");
  }

  lemma CalleeTextsRead(i: Instruction, id: nat, includeRaw: bool)
    requires WellFormed(i)
    ensures RepeatedField(InstructionFields(i, id, includeRaw), "callee", AsStr)
         == Read(CalleeTexts(i.call) + CalleeTexts(i.invoke))
  {
    NamesDiffer();
    OptionalIsNotRequired("callee");
    CalleesOnly(i, id, includeRaw, "callee");
    CalleeUnder(i.call, "callee");
    CalleeUnder(i.invoke, "callee");
    StrsConcat(CalleeTexts(i.call), CalleeTexts(i.invoke));
    StrsRead(CalleeTexts(i.call) + CalleeTexts(i.invoke));
  }

  lemma StrsConcat(a: seq<Bytes>, b: seq<Bytes>)
    ensures StrsOf(a) + StrsOf(b) == StrsOf(a + b)
  {
  }

  lemma BoolsConcat(a: seq<bool>, b: seq<bool>)
    ensures BoolsOf(a) + BoolsOf(b) == BoolsOf(a + b)
  {
  }

  lemma CalleeMarksRead(i: Instruction, id: nat, includeRaw: bool)
    requires WellFormed(i)
    ensures RepeatedField(InstructionFields(i, id, includeRaw), "is_indirect", AsBool)
         == Read(CalleeMarks(i.call) + CalleeMarks(i.invoke))
  {
    NamesDiffer();
    OptionalIsNotRequired("is_indirect");
    CalleesOnly(i, id, includeRaw, "is_indirect");
    CalleeUnder(i.call, "is_indirect");
    CalleeUnder(i.invoke, "is_indirect");
    BoolsConcat(CalleeMarks(i.call), CalleeMarks(i.invoke));
    BoolsRead(CalleeMarks(i.call) + CalleeMarks(i.invoke));
  }

  lemma TailRead(i: Instruction, id: nat, includeRaw: bool)
    requires WellFormed(i)
    ensures var fields := InstructionFields(i, id, includeRaw);
      && OptionalField(fields, "debug_loc", AsStr) == Read(i.debugLoc)
      && OptionalField(fields, "raw", AsStr) == Read(if includeRaw then Some(i.raw) else None)
  {
    OptionalIsNotRequired("debug_loc");
    TailOnly(i, id, includeRaw, "debug_loc");
    DebugUnder(i, "debug_loc");
    RawUnder(i, includeRaw, "debug_loc");
    OptionalIsNotRequired("raw");
    TailOnly(i, id, includeRaw, "raw");
    DebugUnder(i, "raw");
    RawUnder(i, includeRaw, "raw");
  }

  lemma InstructionReadAs(fields: seq<Entry>, d: InstructionDoc)
    requires Field(fields, "id", AsInt) == Read(d.id)
    requires Field(fields, "opcode", AsStr) == Read(d.opcode)
    requires Field(fields, "result_type", AsStr) == Read(d.resultType)
    requires Field(fields, "operands", AsStrs) == Read(d.operands)
    requires Field(fields, "operand_types", AsStrs) == Read(d.operandTypes)
    requires OptionalField(fields, "source_type", AsStr) == Read(d.sourceType)
    requires OptionalField(fields, "gep_details", ReadGep) == Read(d.gep)
    requires RepeatedField(fields, "callee", AsStr) == Read(d.callees)
    requires RepeatedField(fields, "is_indirect", AsBool) == Read(d.indirect)
    requires OptionalField(fields, "debug_loc", AsStr) == Read(d.debugLoc)
    requires OptionalField(fields, "raw", AsStr) == Read(d.raw)
    ensures ReadInstruction(Map(fields)) == Read(d)
  {
  }

  function DocOf(i: Instruction, id: nat, includeRaw: bool, gep: Option<GepDoc>): InstructionDoc
    requires WellFormed(i)
  {
    InstructionDoc(id, i.opcode, i.resultType, Texts(i.operands), Types(i.operands),
                   if i.isPointerCast then Some(RootType(i.operands[0])) else None, gep,
                   CalleeTexts(i.call) + CalleeTexts(i.invoke), CalleeMarks(i.call) + CalleeMarks(i.invoke),
                   i.debugLoc, if includeRaw then Some(i.raw) else None)
  }

  lemma DocDescribes(i: Instruction, id: nat, includeRaw: bool, gep: Option<GepDoc>)
    requires WellFormed(i) && if i.gep.Some? then gep.Some? && DescribesGep(gep.value, i) else gep.None?
    ensures DescribesInstruction(DocOf(i, id, includeRaw, gep), i, id, includeRaw)
  {
    if i.isPointerCast {
      RootTypeIsRoot(i.operands[0]);
    }
  }

  lemma DocIsRead(i: Instruction, id: nat, includeRaw: bool, gep: Option<GepDoc>)
    requires WellFormed(i) && if i.gep.Some? then gep.Some? && ReadGep(GepValue(i)) == Read(gep.value) else gep.None?
    ensures ReadInstruction(Map(InstructionFields(i, id, includeRaw))) == Read(DocOf(i, id, includeRaw, gep))
  {
    ScalarsRead(i, id, includeRaw);
    OperandsRead(i, id, includeRaw);
    CastRead(i, id, includeRaw);
    GepFieldRead(i, id, includeRaw);
    CalleeTextsRead(i, id, includeRaw);
    CalleeMarksRead(i, id, includeRaw);
    TailRead(i, id, includeRaw);
    InstructionReadAs(InstructionFields(i, id, includeRaw), DocOf(i, id, includeRaw, gep));
  }

  /** Every field of an instruction reads back. */
  lemma InstructionReads(i: Instruction, id: nat, includeRaw: bool)
    requires WellFormed(i)
    ensures var r := ReadInstruction(Map(InstructionFields(i, id, includeRaw)));
      r.Read? && DescribesInstruction(r.value, i, id, includeRaw)
  {
    var gep := None;
    if i.gep.Some? {
      GepReads(i);
      gep := Some(ReadGep(GepValue(i)).value);
    }
    DocDescribes(i, id, includeRaw, gep);
    DocIsRead(i, id, includeRaw, gep);
  }

  lemma {:induction false} InstructionValuesAt(instructions: seq<Instruction>, includeRaw: bool, k: nat)
    requires (forall i :: i in instructions ==> WellFormed(i)) && k < |instructions|
    ensures InstructionValues(instructions, includeRaw)[k] == Map(InstructionFields(instructions[k], k, includeRaw))
  {
    if k < |instructions| - 1 {
      InstructionValuesAt(instructions[..|instructions| - 1], includeRaw, k);
    }
  }

  lemma InstructionsRead(b: Block, includeRaw: bool)
    requires WellFormedBlock(b)
    ensures var r := ReadInstructions(Arr(InstructionValues(b.instructions, includeRaw)));
      && r.Read? && |r.value| == |b.instructions|
      && forall k :: 0 <= k < |b.instructions| ==> DescribesInstruction(r.value[k], b.instructions[k], k, includeRaw)
  {
    var values := InstructionValues(b.instructions, includeRaw);
    forall k | 0 <= k < |values|
      ensures ReadInstruction(values[k]).Read?
           && DescribesInstruction(ReadInstruction(values[k]).value, b.instructions[k], k, includeRaw)
    {
      InstructionValuesAt(b.instructions, includeRaw, k);
      InstructionReads(b.instructions[k], k, includeRaw);
    }
    AllReadIffEach(values, ReadInstruction);
  }

  lemma BlockUnder(b: Block, includeRaw: bool)
    requires WellFormedBlock(b)
    ensures var fields := BlockFields(b, includeRaw);
      && Under(fields, "label") == [Str(b.name)]
      && Under(fields, "instructions") == [Arr(InstructionValues(b.instructions, includeRaw))]
      && Under(fields, "successors") == [StrArray(b.successors)]
  {
    var names := ["label", "instructions", "successors"];
    AllUnderNamed(BlockFields(b, includeRaw), names);
    assert names[0] == "label" && names[1] == "instructions" && names[2] == "successors";
  }

  lemma BlockReads(b: Block, includeRaw: bool)
    requires WellFormedBlock(b)
    ensures var r := ReadBlock(BlockValue(b, includeRaw)); r.Read? && DescribesBlock(r.value, b, includeRaw)
  {
    BlockUnder(b, includeRaw);
    InstructionsRead(b, includeRaw);
    StrArrayReads(b.successors);
  }

  lemma {:induction false} BlockValuesAt(blocks: seq<Block>, includeRaw: bool, k: nat)
    requires (forall b :: b in blocks ==> WellFormedBlock(b)) && k < |blocks|
    ensures BlockValues(blocks, includeRaw)[k] == BlockValue(blocks[k], includeRaw)
  {
    if k < |blocks| - 1 {
      BlockValuesAt(blocks[..|blocks| - 1], includeRaw, k);
    }
  }

  lemma BlocksRead(blocks: seq<Block>, includeRaw: bool)
    requires forall b :: b in blocks ==> WellFormedBlock(b)
    ensures var r := ReadBlocks(Arr(BlockValues(blocks, includeRaw))); r.Read? && DescribesBlocks(r.value, blocks, includeRaw)
  {
    var values := BlockValues(blocks, includeRaw);
    forall k | 0 <= k < |values|
      ensures ReadBlock(values[k]).Read? && DescribesBlock(ReadBlock(values[k]).value, blocks[k], includeRaw)
    {
      BlockValuesAt(blocks, includeRaw, k);
      BlockReads(blocks[k], includeRaw);
    }
    AllReadIffEach(values, ReadBlock);
  }

  function HeadNames(): seq<string> {
    ["name", "demangled", "is_declaration", "return_type", "param_types", "calling_convention"]
  }

  lemma LongNamesArePlain()
    ensures Plain("is_declaration") && Plain("calling_convention")
  {
  }

  lemma HeadNamesArePlain()
    ensures AllPlain(HeadNames())
  {
    LongNamesArePlain();
  }

  lemma HeadNamed(f: Function)
    ensures Named(HeadFields(f), HeadNames())
  {
    HeadNamesArePlain();
    assert "return_type"[0] == 'r' && "param_types"[0] == 'p';
  }

  lemma BlocksAreNoHead()
    ensures "blocks" !in HeadNames()
  {
    forall k | 0 <= k < |HeadNames()| ensures |HeadNames()[k]| != |"blocks"| {
    }
  }

  lemma HeadUnder(f: Function)
    ensures var fields := HeadFields(f);
      && Under(fields, "name") == [Str(f.name)] && Under(fields, "demangled") == [Str(f.demangled)]
      && Under(fields, "is_declaration") == [Bool(f.isDeclaration)] && Under(fields, "return_type") == [Str(f.returnType)]
      && Under(fields, "param_types") == [StrArray(f.paramTypes)]
      && Under(fields, "calling_convention") == [Str(f.callingConvention)]
      && Under(fields, "blocks") == []
  {
    var fields, names := HeadFields(f), HeadNames();
    HeadNamed(f);
    UnderNamed(fields, names, 0);
    UnderNamed(fields, names, 1);
    UnderNamed(fields, names, 2);
    UnderNamed(fields, names, 3);
    UnderNamed(fields, names, 4);
    UnderNamed(fields, names, 5);
    BlocksAreNoHead();
    NotUnder(fields, names, "blocks");
  }

  lemma FunctionUnder(f: Function, includeRaw: bool, name: string)
    requires WellFormedFunction(f)
    ensures Under(HeadFields(f) + BodyFields(f, includeRaw), name)
         == Under(HeadFields(f), name)
            + if name == "blocks" && !f.isDeclaration then [Arr(BlockValues(f.blocks, includeRaw))] else []
  {
    UnderConcat(HeadFields(f), BodyFields(f, includeRaw), name);
    if !f.isDeclaration {
      UnderOne("blocks", Arr(BlockValues(f.blocks, includeRaw)), name);
    }
  }

  lemma HeadRead(f: Function, includeRaw: bool)
    requires WellFormedFunction(f)
    ensures var fields := HeadFields(f) + BodyFields(f, includeRaw);
      && Field(fields, "name", AsStr) == Read(f.name) && Field(fields, "demangled", AsStr) == Read(f.demangled)
      && Field(fields, "is_declaration", AsBool) == Read(f.isDeclaration)
      && Field(fields, "return_type", AsStr) == Read(f.returnType)
      && Field(fields, "param_types", AsStrs) == Read(f.paramTypes)
      && Field(fields, "calling_convention", AsStr) == Read(f.callingConvention)
  {
    HeadUnder(f);
    StrArrayReads(f.paramTypes);
    FunctionUnder(f, includeRaw, "name");
    FunctionUnder(f, includeRaw, "demangled");
    FunctionUnder(f, includeRaw, "is_declaration");
    FunctionUnder(f, includeRaw, "return_type");
    FunctionUnder(f, includeRaw, "param_types");
    FunctionUnder(f, includeRaw, "calling_convention");
  }

  lemma FunctionReads(f: Function, includeRaw: bool)
    requires WellFormedFunction(f)
    ensures var r := ReadFunction(FunctionValue(f, includeRaw)); r.Read? && DescribesFunction(r.value, f, includeRaw)
  {
    HeadRead(f, includeRaw);
    HeadUnder(f);
    FunctionUnder(f, includeRaw, "blocks");
    if !f.isDeclaration {
      BlocksRead(f.blocks, includeRaw);
    }
  }

  function DeclarationNames(): seq<string> {
    ["name", "demangled", "return_type", "param_types"]
  }

  lemma DeclarationNamed(f: Function)
    ensures Named(DeclarationValue(f).entries, DeclarationNames())
  {
    assert "return_type"[0] == 'r' && "param_types"[0] == 'p';
    assert AllPlain(DeclarationNames());
  }

  lemma DeclarationReads(f: Function)
    ensures var r := ReadDeclaration(DeclarationValue(f)); r.Read? && DescribesDeclaration(r.value, f)
  {
    var fields, names := DeclarationValue(f).entries, DeclarationNames();
    DeclarationNamed(f);
    UnderNamed(fields, names, 0);
    UnderNamed(fields, names, 1);
    UnderNamed(fields, names, 2);
    UnderNamed(fields, names, 3);
    StrArrayReads(f.paramTypes);
  }

  lemma GlobalReads(g: Global)
    ensures var r := ReadGlobal(GlobalValue(g)); r.Read? && DescribesGlobal(r.value, g)
  {
    var names := ["name", "type", "is_constant"];
    assert "name"[0] == 'n' && "type"[0] == 't';
    AllUnderNamed(GlobalValue(g).entries, names);
    assert names[0] == "name" && names[1] == "type" && names[2] == "is_constant";
  }

  lemma {:induction false} GlobalValuesAt(globals: seq<Global>, k: nat)
    requires k < |globals|
    ensures GlobalValues(globals)[k] == GlobalValue(globals[k])
  {
    if k < |globals| - 1 {
      GlobalValuesAt(globals[..|globals| - 1], k);
    }
  }

  lemma GlobalsRead(globals: seq<Global>)
    ensures var r := ReadGlobals(Arr(GlobalValues(globals))); r.Read? && DescribesGlobals(r.value, globals)
  {
    var values := GlobalValues(globals);
    forall k | 0 <= k < |values|
      ensures ReadGlobal(values[k]).Read? && DescribesGlobal(ReadGlobal(values[k]).value, globals[k])
    {
      GlobalValuesAt(globals, k);
      GlobalReads(globals[k]);
    }
    AllReadIffEach(values, ReadGlobal);
  }

  // ----- Selected items -----

  lemma NothingPicked<T>(isChosen: T -> bool)
    ensures Picks([], isChosen, [])
  {
  }

  lemma SkipLast<T>(items: seq<T>, isChosen: T -> bool, at: seq<nat>)
    requires items != [] && Picks(items[..|items| - 1], isChosen, at) && !isChosen(items[|items| - 1])
    ensures Picks(items, isChosen, at)
  {
    var front := items[..|items| - 1];
    forall k | 0 <= k < |at| ensures isChosen(items[at[k]]) {
      assert front[at[k]] == items[at[k]];
    }
    forall p: nat | p < |items| && isChosen(items[p]) ensures p in at {
      assert front[p] == items[p];
    }
  }

  lemma PickLast<T>(items: seq<T>, isChosen: T -> bool, at: seq<nat>)
    requires items != [] && Picks(items[..|items| - 1], isChosen, at) && isChosen(items[|items| - 1])
    ensures Picks(items, isChosen, at + [|items| - 1])
  {
    var front := items[..|items| - 1];
    var longer := at + [|items| - 1];
    forall k | 0 <= k < |longer| ensures longer[k] < |items| && isChosen(items[longer[k]]) {
      assert k < |at| ==> front[at[k]] == items[at[k]];
    }
    forall p: nat | p < |items| && isChosen(items[p]) ensures p in longer {
      if p < |front| {
        assert front[p] == items[p];
        assert p in at;
      } else {
        assert longer[|at|] == p;
      }
    }
  }

  ghost predicate FunctionsAt(values: seq<Value>, functions: seq<Function>, includeRaw: bool, at: seq<nat>)
    requires forall f :: f in functions ==> WellFormedFunction(f)
  {
    && |at| == |values|
    && forall k :: 0 <= k < |at| ==> at[k] < |functions| && values[k] == FunctionValue(functions[at[k]], includeRaw)
  }

  lemma NextFunctionAt(values: seq<Value>, functions: seq<Function>, includeRaw: bool, at: seq<nat>)
    requires functions != [] && forall f :: f in functions ==> WellFormedFunction(f)
    requires FunctionsAt(values, functions[..|functions| - 1], includeRaw, at)
    ensures FunctionsAt(values, functions, includeRaw, at)
    ensures FunctionsAt(values + [FunctionValue(functions[|functions| - 1], includeRaw)], functions, includeRaw,
                        at + [|functions| - 1])
  {
    var front := functions[..|functions| - 1];
    assert forall k :: 0 <= k < |at| ==> front[at[k]] == functions[at[k]];
  }

  lemma NextFunctionPicked(sel: Selection, functions: seq<Function>, includeRaw: bool, at: seq<nat>) returns (longer: seq<nat>)
    requires functions != [] && forall f :: f in functions ==> WellFormedFunction(f)
    requires var front := functions[..|functions| - 1];
      Picks(front, IsSelectedFunction(sel), at) && FunctionsAt(FunctionValues(sel, front, includeRaw), front, includeRaw, at)
    ensures Picks(functions, IsSelectedFunction(sel), longer)
    ensures FunctionsAt(FunctionValues(sel, functions, includeRaw), functions, includeRaw, longer)
  {
    var n := |functions| - 1;
    var values := FunctionValues(sel, functions[..n], includeRaw);
    NextFunctionAt(values, functions, includeRaw, at);
    if IsSelectedFunction(sel)(functions[n]) {
      longer := at + [n];
      PickLast(functions, IsSelectedFunction(sel), at);
      assert FunctionValues(sel, functions, includeRaw) == values + [FunctionValue(functions[n], includeRaw)];
    } else {
      longer := at;
      SkipLast(functions, IsSelectedFunction(sel), at);
      assert FunctionValues(sel, functions, includeRaw) == values;
    }
  }

  /** The written definitions are the selected ones, in order. */
  lemma {:induction false} FunctionsPicked(sel: Selection, functions: seq<Function>, includeRaw: bool) returns (at: seq<nat>)
    requires forall f :: f in functions ==> WellFormedFunction(f)
    ensures Picks(functions, IsSelectedFunction(sel), at)
    ensures FunctionsAt(FunctionValues(sel, functions, includeRaw), functions, includeRaw, at)
  {
    if functions == [] {
      at := [];
      NothingPicked(IsSelectedFunction(sel));
    } else {
      var before := FunctionsPicked(sel, functions[..|functions| - 1], includeRaw);
      at := NextFunctionPicked(sel, functions, includeRaw, before);
    }
  }

  ghost predicate DeclarationsAt(values: seq<Value>, functions: seq<Function>, at: seq<nat>) {
    && |at| == |values|
    && forall k :: 0 <= k < |at| ==> at[k] < |functions| && values[k] == DeclarationValue(functions[at[k]])
  }

  lemma NextDeclarationAt(values: seq<Value>, functions: seq<Function>, at: seq<nat>)
    requires functions != [] && DeclarationsAt(values, functions[..|functions| - 1], at)
    ensures DeclarationsAt(values, functions, at)
    ensures DeclarationsAt(values + [DeclarationValue(functions[|functions| - 1])], functions, at + [|functions| - 1])
  {
    var front := functions[..|functions| - 1];
    assert forall k :: 0 <= k < |at| ==> front[at[k]] == functions[at[k]];
  }

  lemma NextDeclarationPicked(sel: Selection, functions: seq<Function>, at: seq<nat>) returns (longer: seq<nat>)
    requires functions != [] && var front := functions[..|functions| - 1];
      Picks(front, IsSelectedDeclaration(sel), at) && DeclarationsAt(DeclarationValues(sel, front), front, at)
    ensures Picks(functions, IsSelectedDeclaration(sel), longer)
    ensures DeclarationsAt(DeclarationValues(sel, functions), functions, longer)
  {
    var n := |functions| - 1;
    var values := DeclarationValues(sel, functions[..n]);
    NextDeclarationAt(values, functions, at);
    if IsSelectedDeclaration(sel)(functions[n]) {
      longer := at + [n];
      PickLast(functions, IsSelectedDeclaration(sel), at);
      assert DeclarationValues(sel, functions) == values + [DeclarationValue(functions[n])];
    } else {
      longer := at;
      SkipLast(functions, IsSelectedDeclaration(sel), at);
      assert DeclarationValues(sel, functions) == values;
    }
  }

  lemma {:induction false} DeclarationsPicked(sel: Selection, functions: seq<Function>) returns (at: seq<nat>)
    ensures Picks(functions, IsSelectedDeclaration(sel), at)
    ensures DeclarationsAt(DeclarationValues(sel, functions), functions, at)
  {
    if functions == [] {
      at := [];
      NothingPicked(IsSelectedDeclaration(sel));
    } else {
      var before := DeclarationsPicked(sel, functions[..|functions| - 1]);
      at := NextDeclarationPicked(sel, functions, before);
    }
  }

  ghost predicate StructsAt(entries: seq<Entry>, structs: seq<Struct>, at: seq<nat>) {
    && |at| == |entries|
    && forall k :: 0 <= k < |at| ==> at[k] < |structs| && IsEntryOf(entries[k], structs[at[k]])
  }

  predicate IsEntryOf(e: Entry, s: Struct) {
    s.name.Some? && e == Entry(Str(s.name.value), StrArray(s.fields))
  }

  lemma NextStructAt(entries: seq<Entry>, structs: seq<Struct>, at: seq<nat>)
    requires structs != [] && StructsAt(entries, structs[..|structs| - 1], at)
    ensures StructsAt(entries, structs, at)
  {
    var front := structs[..|structs| - 1];
    assert forall k :: 0 <= k < |at| ==> front[at[k]] == structs[at[k]];
  }

  lemma NextStructPicked(structs: seq<Struct>, at: seq<nat>) returns (longer: seq<nat>)
    requires structs != [] && var front := structs[..|structs| - 1];
      Picks(front, IsNamedStruct(), at) && StructsAt(StructEntries(front), front, at)
    ensures Picks(structs, IsNamedStruct(), longer) && StructsAt(StructEntries(structs), structs, longer)
  {
    var n := |structs| - 1;
    var entries := StructEntries(structs[..n]);
    NextStructAt(entries, structs, at);
    if IsNamedStruct()(structs[n]) {
      longer := at + [n];
      PickLast(structs, IsNamedStruct(), at);
      assert StructEntries(structs) == entries + [Entry(Str(structs[n].name.value), StrArray(structs[n].fields))];
    } else {
      longer := at;
      SkipLast(structs, IsNamedStruct(), at);
      assert StructEntries(structs) == entries;
    }
  }

  lemma {:induction false} StructsPicked(structs: seq<Struct>) returns (at: seq<nat>)
    ensures Picks(structs, IsNamedStruct(), at) && StructsAt(StructEntries(structs), structs, at)
  {
    if structs == [] {
      at := [];
      NothingPicked(IsNamedStruct());
    } else {
      var before := StructsPicked(structs[..|structs| - 1]);
      at := NextStructPicked(structs, before);
    }
  }

  lemma FunctionsAtRead(values: seq<Value>, functions: seq<Function>, includeRaw: bool, at: seq<nat>)
    requires (forall f :: f in functions ==> WellFormedFunction(f)) && FunctionsAt(values, functions, includeRaw, at)
    ensures var r := ReadFunctions(Arr(values));
      && r.Read? && |r.value| == |at|
      && forall k :: 0 <= k < |at| ==> DescribesFunction(r.value[k], functions[at[k]], includeRaw)
  {
    forall k | 0 <= k < |values|
      ensures ReadFunction(values[k]).Read? && DescribesFunction(ReadFunction(values[k]).value, functions[at[k]], includeRaw)
    {
      FunctionReads(functions[at[k]], includeRaw);
    }
    AllReadIffEach(values, ReadFunction);
  }

  lemma FunctionsRead(sel: Selection, functions: seq<Function>, includeRaw: bool)
    requires forall f :: f in functions ==> WellFormedFunction(f)
    ensures var r := ReadFunctions(Arr(FunctionValues(sel, functions, includeRaw)));
      r.Read? && DescribesFunctions(r.value, functions, sel, includeRaw)
  {
    var at := FunctionsPicked(sel, functions, includeRaw);
    FunctionsAtRead(FunctionValues(sel, functions, includeRaw), functions, includeRaw, at);
  }

  lemma DeclarationsRead(sel: Selection, functions: seq<Function>)
    ensures var r := ReadDeclarations(Arr(DeclarationValues(sel, functions)));
      r.Read? && DescribesDeclarations(r.value, functions, sel)
  {
    var values := DeclarationValues(sel, functions);
    var at := DeclarationsPicked(sel, functions);
    forall k | 0 <= k < |values|
      ensures ReadDeclaration(values[k]).Read? && DescribesDeclaration(ReadDeclaration(values[k]).value, functions[at[k]])
    {
      DeclarationReads(functions[at[k]]);
    }
    AllReadIffEach(values, ReadDeclaration);
  }

  lemma StructsRead(structs: seq<Struct>)
    ensures var r := ReadStructs(Map(StructEntries(structs))); r.Read? && DescribesStructs(r.value, structs)
  {
    var entries := StructEntries(structs);
    var at := StructsPicked(structs);
    forall k | 0 <= k < |entries|
      ensures ReadStruct(entries[k]).Read? && DescribesStruct(ReadStruct(entries[k]).value, structs[at[k]])
    {
      StrArrayReads(structs[at[k]].fields);
    }
    AllReadIffEach(entries, ReadStruct);
  }

  function ModuleNames(): seq<string> {
    ["target_triple", "data_layout", "functions", "declarations", "named_struct_types", "global_variables"]
  }

  lemma LongModuleNamesArePlain()
    ensures Plain("target_triple") && Plain("named_struct_types") && Plain("global_variables")
  {
  }

  lemma ModuleNamesArePlain()
    ensures AllPlain(ModuleNames())
  {
    LongModuleNamesArePlain();
  }

  lemma ModuleNamed(m: Module, sel: Selection, includeRaw: bool)
    requires WellFormedModule(m)
    ensures Named(ModuleFields(m, sel, includeRaw), ModuleNames())
  {
    ModuleNamesArePlain();
  }

  lemma ModuleUnder(m: Module, sel: Selection, includeRaw: bool)
    requires WellFormedModule(m)
    ensures var fields := ModuleFields(m, sel, includeRaw);
      && Under(fields, "target_triple") == [Str(m.targetTriple)] && Under(fields, "data_layout") == [Str(m.dataLayout)]
      && Under(fields, "functions") == [Arr(FunctionValues(sel, m.functions, includeRaw))]
      && Under(fields, "declarations") == [Arr(DeclarationValues(sel, m.functions))]
      && Under(fields, "named_struct_types") == [Map(StructEntries(m.structs))]
      && Under(fields, "global_variables") == [Arr(GlobalValues(m.globals))]
  {
    var fields, names := ModuleFields(m, sel, includeRaw), ModuleNames();
    ModuleNamed(m, sel, includeRaw);
    UnderNamed(fields, names, 0);
    UnderNamed(fields, names, 1);
    UnderNamed(fields, names, 2);
    UnderNamed(fields, names, 3);
    UnderNamed(fields, names, 4);
    UnderNamed(fields, names, 5);
  }

  lemma ModuleReadAs(fields: seq<Entry>, d: ModuleDoc)
    requires Field(fields, "target_triple", AsStr) == Read(d.targetTriple)
    requires Field(fields, "data_layout", AsStr) == Read(d.dataLayout)
    requires Field(fields, "functions", ReadFunctions) == Read(d.functions)
    requires Field(fields, "declarations", ReadDeclarations) == Read(d.declarations)
    requires Field(fields, "named_struct_types", ReadStructs) == Read(d.structs)
    requires Field(fields, "global_variables", ReadGlobals) == Read(d.globals)
    ensures ReadModule(Map(fields)) == Read(d)
  {
  }

  /** Reading a module's value gives back the module, restricted to the selection. */
  lemma ModuleReads(m: Module, sel: Selection, includeRaw: bool)
    requires WellFormedModule(m)
    ensures var r := ReadModule(ModuleValue(m, sel, includeRaw)); r.Read? && DescribesModule(r.value, m, sel, includeRaw)
  {
    FunctionsRead(sel, m.functions, includeRaw);
    DeclarationsRead(sel, m.functions);
    StructsRead(m.structs);
    GlobalsRead(m.globals);
    var d := ModuleDoc(m.targetTriple, m.dataLayout,
                       ReadFunctions(Arr(FunctionValues(sel, m.functions, includeRaw))).value,
                       ReadDeclarations(Arr(DeclarationValues(sel, m.functions))).value,
                       ReadStructs(Map(StructEntries(m.structs))).value,
                       ReadGlobals(Arr(GlobalValues(m.globals))).value);
    assert DescribesModule(d, m, sel, includeRaw);
    ModuleUnder(m, sel, includeRaw);
    ModuleReadAs(ModuleFields(m, sel, includeRaw), d);
  }

  // ----- What is read from a value that fits the format, fits it -----

  lemma {:induction false} ItemsFitEach(items: seq<Value>)
    ensures ItemsFit(items) <==> forall k :: 0 <= k < |items| ==> Fits(items[k])
  {
    if items != [] {
      ItemsFitEach(items[1..]);
      if forall k :: 0 <= k < |items| ==> Fits(items[k]) {
        assert forall k :: 0 <= k < |items[1..]| ==> items[1..][k] == items[k + 1];
      }
      if ItemsFit(items) {
        assert forall k :: 0 < k < |items| ==> items[k] == items[1..][k - 1];
      }
    }
  }

  lemma {:induction false} EntriesFitEach(entries: seq<Entry>)
    ensures EntriesFit(entries) <==> forall k :: 0 <= k < |entries| ==> EntryFits(entries[k])
  {
    if entries != [] {
      EntriesFitEach(entries[1..]);
      if forall k :: 0 <= k < |entries| ==> EntryFits(entries[k]) {
        assert forall k :: 0 <= k < |entries[1..]| ==> entries[1..][k] == entries[k + 1];
      }
      if EntriesFit(entries) {
        assert forall k :: 0 < k < |entries| ==> entries[k] == entries[1..][k - 1];
      }
    }
  }

  lemma {:induction false} UnderFits(fields: seq<Entry>, name: string)
    requires EntriesFit(fields)
    ensures |Under(fields, name)| <= |fields|
    ensures forall k :: 0 <= k < |Under(fields, name)| ==> Fits(Under(fields, name)[k])
  {
    if fields != [] {
      UnderFits(fields[1..], name);
    }
  }

  lemma FieldFits<T>(fields: seq<Entry>, name: string, read: Value -> Reading<T>, x: T) returns (v: Value)
    requires EntriesFit(fields) && Field(fields, name, read) == Read(x)
    ensures Fits(v) && read(v) == Read(x)
  {
    UnderFits(fields, name);
    v := Under(fields, name)[0];
  }

  lemma OptionalFieldFits<T>(fields: seq<Entry>, name: string, read: Value -> Reading<T>, x: T) returns (v: Value)
    requires EntriesFit(fields) && OptionalField(fields, name, read) == Read(Some(x))
    ensures Fits(v) && read(v) == Read(x)
  {
    UnderFits(fields, name);
    v := Under(fields, name)[0];
  }

  lemma StrFieldFits(fields: seq<Entry>, name: string)
    requires EntriesFit(fields) && Field(fields, name, AsStr).Read?
    ensures Short(Field(fields, name, AsStr).value)
  {
    var v := FieldFits(fields, name, AsStr, Field(fields, name, AsStr).value);
  }

  lemma OptionalStrFits(fields: seq<Entry>, name: string)
    requires EntriesFit(fields) && OptionalField(fields, name, AsStr).Read?
    ensures OptionShort(OptionalField(fields, name, AsStr).value)
  {
    var s := OptionalField(fields, name, AsStr).value;
    if s.Some? {
      var v := OptionalFieldFits(fields, name, AsStr, s.value);
    }
  }

  lemma ArrayFits<T>(v: Value, read: Value -> Reading<T>, xs: seq<T>)
    requires Fits(v) && ReadArray(v, read) == Read(xs)
    ensures |xs| == |v.items| < TWO_TO_32
    ensures forall k :: 0 <= k < |xs| ==> Fits(v.items[k]) && read(v.items[k]) == Read(xs[k])
  {
    AllReadIffEach(v.items, read);
    ItemsFitEach(v.items);
  }

  lemma StrsFit(v: Value)
    requires Fits(v) && AsStrs(v).Read?
    ensures AllShort(AsStrs(v).value)
  {
    var texts := AsStrs(v).value;
    ArrayFits(v, AsStr, texts);
    forall k | 0 <= k < |texts| ensures Short(texts[k]) {
      assert Fits(v.items[k]) && AsStr(v.items[k]) == Read(texts[k]);
    }
  }

  lemma StrsFieldFits(fields: seq<Entry>, name: string)
    requires EntriesFit(fields) && Field(fields, name, AsStrs).Read?
    ensures AllShort(Field(fields, name, AsStrs).value)
  {
    var v := FieldFits(fields, name, AsStrs, Field(fields, name, AsStrs).value);
    StrsFit(v);
  }

  lemma RepeatedStrFits(fields: seq<Entry>, name: string)
    requires EntriesFit(fields) && |fields| < TWO_TO_32 && RepeatedField(fields, name, AsStr).Read?
    ensures AllShort(RepeatedField(fields, name, AsStr).value)
  {
    UnderFits(fields, name);
    AllReadIffEach(Under(fields, name), AsStr);
  }

  lemma ReadIndexFits(v: Value)
    requires Fits(v) && ReadIndex(v).Read?
    ensures IndexFits(ReadIndex(v).value)
  {
    StrFieldFits(v.entries, "value");
    StrFieldFits(v.entries, "field_type");
  }

  lemma ReadGepFits(v: Value)
    requires Fits(v) && ReadGep(v).Read?
    ensures GepFits(ReadGep(v).value)
  {
    var d := ReadGep(v).value;
    StrFieldFits(v.entries, "source_type");
    var list := FieldFits(v.entries, "indices", ReadIndices, d.indices);
    ArrayFits(list, ReadIndex, d.indices);
    forall k | 0 <= k < |d.indices| ensures IndexFits(d.indices[k]) {
      ReadIndexFits(list.items[k]);
    }
  }

  lemma ReadScalarsFit(v: Value)
    requires Fits(v) && ReadInstruction(v).Read?
    ensures var d := ReadInstruction(v).value;
      && -0x8000_0000_0000_0000 <= d.id < 0x1_0000_0000_0000_0000
      && Short(d.opcode) && Short(d.resultType) && AllShort(d.operands) && AllShort(d.operandTypes)
  {
    var n := FieldFits(v.entries, "id", AsInt, ReadInstruction(v).value.id);
    StrFieldFits(v.entries, "opcode");
    StrFieldFits(v.entries, "result_type");
    StrsFieldFits(v.entries, "operands");
    StrsFieldFits(v.entries, "operand_types");
  }

  lemma ReadInstructionFits(v: Value)
    requires Fits(v) && ReadInstruction(v).Read?
    ensures InstructionFits(ReadInstruction(v).value)
  {
    var d := ReadInstruction(v).value;
    ReadScalarsFit(v);
    OptionalStrFits(v.entries, "source_type");
    if d.gep.Some? {
      var g := OptionalFieldFits(v.entries, "gep_details", ReadGep, d.gep.value);
      ReadGepFits(g);
    }
    RepeatedStrFits(v.entries, "callee");
    OptionalStrFits(v.entries, "debug_loc");
    OptionalStrFits(v.entries, "raw");
  }

  lemma ReadBlockFits(v: Value)
    requires Fits(v) && ReadBlock(v).Read?
    ensures BlockFits(ReadBlock(v).value)
  {
    var d := ReadBlock(v).value;
    StrFieldFits(v.entries, "label");
    StrsFieldFits(v.entries, "successors");
    var list := FieldFits(v.entries, "instructions", ReadInstructions, d.instructions);
    ArrayFits(list, ReadInstruction, d.instructions);
    forall k | 0 <= k < |d.instructions| ensures InstructionFits(d.instructions[k]) {
      ReadInstructionFits(list.items[k]);
    }
  }

  lemma ReadBlocksFit(v: Value)
    requires Fits(v) && ReadBlocks(v).Read?
    ensures BlocksFit(ReadBlocks(v).value)
  {
    var ds := ReadBlocks(v).value;
    ArrayFits(v, ReadBlock, ds);
    forall k | 0 <= k < |ds| ensures BlockFits(ds[k]) {
      ReadBlockFits(v.items[k]);
    }
  }

  lemma ReadFunctionFits(v: Value)
    requires Fits(v) && ReadFunction(v).Read?
    ensures FunctionFits(ReadFunction(v).value)
  {
    var d := ReadFunction(v).value;
    StrFieldFits(v.entries, "name");
    StrFieldFits(v.entries, "demangled");
    StrFieldFits(v.entries, "return_type");
    StrsFieldFits(v.entries, "param_types");
    StrFieldFits(v.entries, "calling_convention");
    if d.blocks.Some? {
      var list := OptionalFieldFits(v.entries, "blocks", ReadBlocks, d.blocks.value);
      ReadBlocksFit(list);
    }
  }

  lemma ReadDeclarationFits(v: Value)
    requires Fits(v) && ReadDeclaration(v).Read?
    ensures DeclarationFits(ReadDeclaration(v).value)
  {
    StrFieldFits(v.entries, "name");
    StrFieldFits(v.entries, "demangled");
    StrFieldFits(v.entries, "return_type");
    StrsFieldFits(v.entries, "param_types");
  }

  lemma ReadStructFits(e: Entry)
    requires EntryFits(e) && ReadStruct(e).Read?
    ensures StructFits(ReadStruct(e).value)
  {
    StrsFit(e.value);
  }

  lemma ReadGlobalFits(v: Value)
    requires Fits(v) && ReadGlobal(v).Read?
    ensures GlobalFits(ReadGlobal(v).value)
  {
    StrFieldFits(v.entries, "name");
    StrFieldFits(v.entries, "type");
  }

  lemma ReadFunctionsFit(v: Value)
    requires Fits(v) && ReadModule(v).Read?
    ensures var ds := ReadModule(v).value.functions;
      |ds| < TWO_TO_32 && forall k :: 0 <= k < |ds| ==> FunctionFits(ds[k])
  {
    var ds := ReadModule(v).value.functions;
    var list := FieldFits(v.entries, "functions", ReadFunctions, ds);
    ArrayFits(list, ReadFunction, ds);
    forall k | 0 <= k < |ds| ensures FunctionFits(ds[k]) {
      ReadFunctionFits(list.items[k]);
    }
  }

  lemma ReadDeclarationsFit(v: Value)
    requires Fits(v) && ReadModule(v).Read?
    ensures var ds := ReadModule(v).value.declarations;
      |ds| < TWO_TO_32 && forall k :: 0 <= k < |ds| ==> DeclarationFits(ds[k])
  {
    var ds := ReadModule(v).value.declarations;
    var list := FieldFits(v.entries, "declarations", ReadDeclarations, ds);
    ArrayFits(list, ReadDeclaration, ds);
    forall k | 0 <= k < |ds| ensures DeclarationFits(ds[k]) {
      ReadDeclarationFits(list.items[k]);
    }
  }

  lemma ReadStructsFit(v: Value)
    requires Fits(v) && ReadModule(v).Read?
    ensures var ds := ReadModule(v).value.structs;
      |ds| < TWO_TO_32 && forall k :: 0 <= k < |ds| ==> StructFits(ds[k])
  {
    var ds := ReadModule(v).value.structs;
    var list := FieldFits(v.entries, "named_struct_types", ReadStructs, ds);
    AllReadIffEach(list.entries, ReadStruct);
    EntriesFitEach(list.entries);
    forall k | 0 <= k < |ds| ensures StructFits(ds[k]) {
      ReadStructFits(list.entries[k]);
    }
  }

  lemma ReadGlobalsFit(v: Value)
    requires Fits(v) && ReadModule(v).Read?
    ensures var ds := ReadModule(v).value.globals;
      |ds| < TWO_TO_32 && forall k :: 0 <= k < |ds| ==> GlobalFits(ds[k])
  {
    var ds := ReadModule(v).value.globals;
    var list := FieldFits(v.entries, "global_variables", ReadGlobals, ds);
    ArrayFits(list, ReadGlobal, ds);
    forall k | 0 <= k < |ds| ensures GlobalFits(ds[k]) {
      ReadGlobalFits(list.items[k]);
    }
  }

  /** Whatever is read from a decoded document is within the limits of the format. */
  lemma ReadModuleFits(v: Value)
    requires Fits(v) && ReadModule(v).Read?
    ensures ModuleFits(ReadModule(v).value)
  {
    StrFieldFits(v.entries, "target_triple");
    StrFieldFits(v.entries, "data_layout");
    ReadFunctionsFit(v);
    ReadDeclarationsFit(v);
    ReadStructsFit(v);
    ReadGlobalsFit(v);
  }

  // ----- A value fits the format if what is read from it does -----

  lemma StrArrayFits(items: seq<Bytes>)
    requires AllShort(items)
    ensures Fits(StrArray(items))
  {
    var values := StrValues(items);
    forall k | 0 <= k < |values| ensures Fits(values[k]) {
      StrValuesAt(items, k);
    }
    ItemsFitEach(values);
  }

  lemma EntryWithNameFits(name: string, v: Value)
    requires |name| < TWO_TO_32 && Fits(v)
    ensures EntryFits(Entry(Str(Key(name)), v))
  {
  }

  lemma EntriesFitConcat(a: seq<Entry>, b: seq<Entry>)
    requires EntriesFit(a) && EntriesFit(b)
    ensures EntriesFit(a + b)
  {
    EntriesFitEach(a);
    EntriesFitEach(b);
    EntriesFitEach(a + b);
  }

  lemma IndexValueFits(o: Operand, fieldType: Option<Bytes>, d: IndexDoc)
    requires DescribesIndex(d, o, fieldType) && IndexFits(d)
    ensures Fits(GepIndex(o.text, fieldType))
  {
    EntriesFitEach(GepIndex(o.text, fieldType).entries);
  }

  lemma GepValueFits(i: Instruction, d: GepDoc)
    requires WellFormed(i) && i.gep.Some? && DescribesGep(d, i) && GepFits(d)
    ensures Fits(GepValue(i))
  {
    var operands, fieldTypes := i.operands[1..], i.gep.value.fieldTypes;
    var values := GepIndices(operands, fieldTypes);
    forall k | 0 <= k < |values| ensures Fits(values[k]) {
      GepIndicesAt(operands, fieldTypes, k);
      IndexValueFits(operands[k], fieldTypes[k], d.indices[k]);
    }
    ItemsFitEach(values);
    EntriesFitEach(GepValueFields(i));
  }

  lemma RequiredFit(i: Instruction, id: nat, d: InstructionDoc)
    requires DescribesOperands(d, i) && d.id == id && d.opcode == i.opcode && d.resultType == i.resultType && InstructionFits(d)
    ensures EntriesFit(RequiredFields(i, id))
  {
    assert Texts(i.operands) == d.operands && Types(i.operands) == d.operandTypes;
    StrArrayFits(Texts(i.operands));
    StrArrayFits(Types(i.operands));
    EntriesFitEach(RequiredFields(i, id));
  }

  lemma {:induction false} RootTypeIsUnique(o: Operand, t: Bytes)
    requires IsRootType(o, t)
    ensures t == RootType(o)
  {
    var chain: seq<Operand> :| IsCastChain(chain) && chain[0] == o && chain[|chain| - 1].typeName == t;
    assert |chain| > 1 ==> chain[0].castOf == Some(chain[1]);
    if o.castOf.Some? {
      var rest := chain[1..];
      assert IsCastChain(rest) && rest[0] == o.castOf.value && rest[|rest| - 1].typeName == t;
      RootTypeIsUnique(o.castOf.value, t);
    }
  }

  lemma OneEntryFits(name: string, v: Value)
    requires |name| < TWO_TO_32 && Fits(v)
    ensures EntriesFit([Entry(Str(Key(name)), v)])
  {
    EntriesFitEach([Entry(Str(Key(name)), v)]);
  }

  lemma OptionalFit(i: Instruction, id: nat, includeRaw: bool, d: InstructionDoc)
    requires WellFormed(i) && DescribesInstruction(d, i, id, includeRaw) && InstructionFits(d)
    ensures EntriesFit(CastFields(i)) && EntriesFit(GepFields(i))
    ensures EntriesFit(DebugFields(i)) && EntriesFit(RawFields(i, includeRaw))
  {
    if i.isPointerCast {
      RootTypeIsUnique(i.operands[0], d.sourceType.value);
      OneEntryFits("source_type", Str(RootType(i.operands[0])));
    }
    if i.gep.Some? {
      GepValueFits(i, d.gep.value);
      OneEntryFits("gep_details", GepValue(i));
    }
    if i.debugLoc.Some? {
      OneEntryFits("debug_loc", Str(i.debugLoc.value));
    }
    if includeRaw {
      OneEntryFits("raw", Str(i.raw));
    }
  }

  lemma CalleeFits(callee: Callee)
    requires Short(CalleeText(callee))
    ensures EntriesFit(CalleeFields(Some(callee)))
  {
    EntriesFitEach(CalleeFields(Some(callee)));
  }

  lemma CalleesFit(i: Instruction, d: InstructionDoc)
    requires DescribesCallees(d, i) && AllShort(d.callees)
    ensures EntriesFit(CalleeFields(i.call)) && EntriesFit(CalleeFields(i.invoke))
  {
    var count := if i.call.Some? then 1 else 0;
    if i.call.Some? {
      assert CalleeText(i.call.value) == d.callees[0];
      CalleeFits(i.call.value);
    }
    if i.invoke.Some? {
      assert CalleeText(i.invoke.value) == d.callees[count];
      CalleeFits(i.invoke.value);
    }
  }

  lemma FrontFits(i: Instruction, id: nat)
    requires WellFormed(i) && EntriesFit(RequiredFields(i, id)) && EntriesFit(CastFields(i)) && EntriesFit(GepFields(i))
    ensures EntriesFit(FrontFields(i, id))
  {
    EntriesFitConcat(RequiredFields(i, id), CastFields(i));
    EntriesFitConcat(RequiredFields(i, id) + CastFields(i), GepFields(i));
  }

  lemma MiddleFits(i: Instruction, id: nat)
    requires WellFormed(i) && EntriesFit(FrontFields(i, id))
    requires EntriesFit(CalleeFields(i.call)) && EntriesFit(CalleeFields(i.invoke))
    ensures EntriesFit(MiddleFields(i, id))
  {
    EntriesFitConcat(FrontFields(i, id), CalleeFields(i.call));
    EntriesFitConcat(FrontFields(i, id) + CalleeFields(i.call), CalleeFields(i.invoke));
  }

  lemma InstructionFieldsFit(i: Instruction, id: nat, includeRaw: bool, d: InstructionDoc)
    requires WellFormed(i) && DescribesInstruction(d, i, id, includeRaw) && InstructionFits(d)
    ensures EntriesFit(InstructionFields(i, id, includeRaw))
  {
    RequiredFit(i, id, d);
    OptionalFit(i, id, includeRaw, d);
    CalleesFit(i, d);
    FrontFits(i, id);
    MiddleFits(i, id);
    EntriesFitConcat(MiddleFields(i, id), DebugFields(i));
    EntriesFitConcat(MiddleFields(i, id) + DebugFields(i), RawFields(i, includeRaw));
  }

  lemma InstructionValueFits(i: Instruction, id: nat, includeRaw: bool, d: InstructionDoc)
    requires WellFormed(i) && DescribesInstruction(d, i, id, includeRaw) && InstructionFits(d)
    ensures Fits(Map(InstructionFields(i, id, includeRaw)))
  {
    InstructionFieldsFit(i, id, includeRaw, d);
    FieldTally(i, id, includeRaw);
  }

  lemma InstructionValuesFit(b: Block, includeRaw: bool, d: BlockDoc)
    requires WellFormedBlock(b) && DescribesBlock(d, b, includeRaw) && BlockFits(d)
    ensures Fits(Arr(InstructionValues(b.instructions, includeRaw)))
  {
    var values := InstructionValues(b.instructions, includeRaw);
    forall k | 0 <= k < |values| ensures Fits(values[k]) {
      InstructionValuesAt(b.instructions, includeRaw, k);
      InstructionValueFits(b.instructions[k], k, includeRaw, d.instructions[k]);
    }
    ItemsFitEach(values);
  }

  lemma BlockValueFits(b: Block, includeRaw: bool, d: BlockDoc)
    requires WellFormedBlock(b) && DescribesBlock(d, b, includeRaw) && BlockFits(d)
    ensures Fits(BlockValue(b, includeRaw))
  {
    InstructionValuesFit(b, includeRaw, d);
    StrArrayFits(b.successors);
    EntriesFitEach(BlockFields(b, includeRaw));
  }

  lemma BlockValuesFit(blocks: seq<Block>, includeRaw: bool, ds: seq<BlockDoc>)
    requires (forall b :: b in blocks ==> WellFormedBlock(b)) && DescribesBlocks(ds, blocks, includeRaw) && BlocksFit(ds)
    ensures Fits(Arr(BlockValues(blocks, includeRaw)))
  {
    var values := BlockValues(blocks, includeRaw);
    forall k | 0 <= k < |values| ensures Fits(values[k]) {
      BlockValuesAt(blocks, includeRaw, k);
      BlockValueFits(blocks[k], includeRaw, ds[k]);
    }
    ItemsFitEach(values);
  }

  lemma HeadFits(f: Function)
    requires Short(f.name) && Short(f.demangled) && Short(f.returnType) && AllShort(f.paramTypes) && Short(f.callingConvention)
    ensures EntriesFit(HeadFields(f))
  {
    StrArrayFits(f.paramTypes);
    EntryWithNameFits("name", Str(f.name));
    EntryWithNameFits("demangled", Str(f.demangled));
    EntryWithNameFits("is_declaration", Bool(f.isDeclaration));
    EntryWithNameFits("return_type", Str(f.returnType));
    EntryWithNameFits("param_types", StrArray(f.paramTypes));
    EntryWithNameFits("calling_convention", Str(f.callingConvention));
    EntriesFitEach(HeadFields(f));
  }

  lemma BodyFits(f: Function, includeRaw: bool, d: FunctionDoc)
    requires WellFormedFunction(f) && DescribesFunction(d, f, includeRaw) && FunctionFits(d)
    ensures EntriesFit(BodyFields(f, includeRaw))
  {
    if !f.isDeclaration {
      BlockValuesFit(f.blocks, includeRaw, d.blocks.value);
      OneEntryFits("blocks", Arr(BlockValues(f.blocks, includeRaw)));
    }
  }

  lemma FunctionValueFits(f: Function, includeRaw: bool, d: FunctionDoc)
    requires WellFormedFunction(f) && DescribesFunction(d, f, includeRaw) && FunctionFits(d)
    ensures Fits(FunctionValue(f, includeRaw))
  {
    HeadFits(f);
    BodyFits(f, includeRaw, d);
    EntriesFitConcat(HeadFields(f), BodyFields(f, includeRaw));
  }

  lemma DeclarationValueFits(f: Function, d: DeclarationDoc)
    requires DescribesDeclaration(d, f) && DeclarationFits(d)
    ensures Fits(DeclarationValue(f))
  {
    StrArrayFits(f.paramTypes);
    EntriesFitEach(DeclarationValue(f).entries);
  }

  lemma GlobalValueFits(g: Global, d: GlobalDoc)
    requires DescribesGlobal(d, g) && GlobalFits(d)
    ensures Fits(GlobalValue(g))
  {
    EntriesFitEach(GlobalValue(g).entries);
  }

  lemma FunctionValuesFit(sel: Selection, functions: seq<Function>, includeRaw: bool, ds: seq<FunctionDoc>)
    requires forall f :: f in functions ==> WellFormedFunction(f)
    requires ReadFunctions(Arr(FunctionValues(sel, functions, includeRaw))) == Read(ds)
    requires |ds| < TWO_TO_32 && forall k :: 0 <= k < |ds| ==> FunctionFits(ds[k])
    ensures Fits(Arr(FunctionValues(sel, functions, includeRaw)))
  {
    var values := FunctionValues(sel, functions, includeRaw);
    var at := FunctionsPicked(sel, functions, includeRaw);
    AllReadIffEach(values, ReadFunction);
    forall k | 0 <= k < |values| ensures Fits(values[k]) {
      FunctionReads(functions[at[k]], includeRaw);
      FunctionValueFits(functions[at[k]], includeRaw, ds[k]);
    }
    ItemsFitEach(values);
  }

  lemma DeclarationValuesFit(sel: Selection, functions: seq<Function>, ds: seq<DeclarationDoc>)
    requires ReadDeclarations(Arr(DeclarationValues(sel, functions))) == Read(ds)
    requires |ds| < TWO_TO_32 && forall k :: 0 <= k < |ds| ==> DeclarationFits(ds[k])
    ensures Fits(Arr(DeclarationValues(sel, functions)))
  {
    var values := DeclarationValues(sel, functions);
    var at := DeclarationsPicked(sel, functions);
    AllReadIffEach(values, ReadDeclaration);
    forall k | 0 <= k < |values| ensures Fits(values[k]) {
      DeclarationReads(functions[at[k]]);
      DeclarationValueFits(functions[at[k]], ds[k]);
    }
    ItemsFitEach(values);
  }

  lemma StructEntriesFit(structs: seq<Struct>, ds: seq<StructDoc>)
    requires ReadStructs(Map(StructEntries(structs))) == Read(ds)
    requires |ds| < TWO_TO_32 && forall k :: 0 <= k < |ds| ==> StructFits(ds[k])
    ensures Fits(Map(StructEntries(structs)))
  {
    var entries := StructEntries(structs);
    var at := StructsPicked(structs);
    AllReadIffEach(entries, ReadStruct);
    forall k | 0 <= k < |entries| ensures EntryFits(entries[k]) {
      StrArrayReads(structs[at[k]].fields);
      StrArrayFits(structs[at[k]].fields);
    }
    EntriesFitEach(entries);
  }

  lemma GlobalValuesFit(globals: seq<Global>, ds: seq<GlobalDoc>)
    requires DescribesGlobals(ds, globals)
    requires |ds| < TWO_TO_32 && forall k :: 0 <= k < |ds| ==> GlobalFits(ds[k])
    ensures Fits(Arr(GlobalValues(globals)))
  {
    var values := GlobalValues(globals);
    forall k | 0 <= k < |values| ensures Fits(values[k]) {
      GlobalValuesAt(globals, k);
      GlobalValueFits(globals[k], ds[k]);
    }
    ItemsFitEach(values);
  }

  lemma ModulePartsRead(m: Module, sel: Selection, includeRaw: bool, d: ModuleDoc)
    requires WellFormedModule(m) && ReadModule(ModuleValue(m, sel, includeRaw)) == Read(d)
    ensures d.targetTriple == m.targetTriple && d.dataLayout == m.dataLayout
    ensures ReadFunctions(Arr(FunctionValues(sel, m.functions, includeRaw))) == Read(d.functions)
    ensures ReadDeclarations(Arr(DeclarationValues(sel, m.functions))) == Read(d.declarations)
    ensures ReadStructs(Map(StructEntries(m.structs))) == Read(d.structs)
    ensures ReadGlobals(Arr(GlobalValues(m.globals))) == Read(d.globals)
  {
    ModuleUnder(m, sel, includeRaw);
  }

  lemma ModuleFieldsFit(m: Module, sel: Selection, includeRaw: bool)
    requires WellFormedModule(m) && Short(m.targetTriple) && Short(m.dataLayout)
    requires Fits(Arr(FunctionValues(sel, m.functions, includeRaw)))
    requires Fits(Arr(DeclarationValues(sel, m.functions)))
    requires Fits(Map(StructEntries(m.structs)))
    requires Fits(Arr(GlobalValues(m.globals)))
    ensures Fits(ModuleValue(m, sel, includeRaw))
  {
    EntriesFitEach(ModuleFields(m, sel, includeRaw));
  }

  lemma ModuleValueFits(m: Module, sel: Selection, includeRaw: bool, d: ModuleDoc)
    requires WellFormedModule(m) && ReadModule(ModuleValue(m, sel, includeRaw)) == Read(d) && ModuleFits(d)
    ensures Fits(ModuleValue(m, sel, includeRaw))
  {
    ModulePartsRead(m, sel, includeRaw, d);
    FunctionValuesFit(sel, m.functions, includeRaw, d.functions);
    DeclarationValuesFit(sel, m.functions, d.declarations);
    StructEntriesFit(m.structs, d.structs);
    GlobalsRead(m.globals);
    GlobalValuesFit(m.globals, d.globals);
    ModuleFieldsFit(m, sel, includeRaw);
  }

  // ----- The document -----

  /** The document holds the module, restricted to the selection: there is a reading that says
      what the module tree holds, and it is what the document reads as, exactly when it fits
      the format. */
  ghost predicate HoldsModule(document: Bytes, m: Module, sel: Selection, includeRaw: bool)
    requires WellFormedModule(m)
  {
    exists d :: DescribesModule(d, m, sel, includeRaw) && (ReadDocument(document) == Read(d) <==> ModuleFits(d))
  }

  /** A reading that a document gives fits the format. */
  lemma ReadDocumentFits(document: Bytes)
    requires ReadDocument(document).Read?
    ensures ModuleFits(ReadDocument(document).value)
  {
    DecodedFits(document);
    ReadModuleFits(Decode(document).value.0);
  }

  lemma EncodedValueDecodes(v: Value, document: Bytes)
    requires document == Enc(v)
    ensures Decode(document) == Some((v, [])) <==> Fits(v)
  {
    RoundTrip(v, []);
    assert Enc(v) + [] == document;
  }

  lemma DocumentHoldsModule(document: Bytes, m: Module, sel: Selection, includeRaw: bool)
    requires WellFormedModule(m) && document == Enc(ModuleValue(m, sel, includeRaw))
    ensures HoldsModule(document, m, sel, includeRaw)
  {
    var v := ModuleValue(m, sel, includeRaw);
    ModuleReads(m, sel, includeRaw);
    var d := ReadModule(v).value;
    if ModuleFits(d) {
      ModuleValueFits(m, sel, includeRaw, d);
      EncodedValueDecodes(v, document);
    }
    if ReadDocument(document) == Read(d) {
      ReadDocumentFits(document);
    }
  }

  /** A written document decodes, by the MessagePack specification, to the module's value with
      no byte left over, and reads back as the module, exactly when the module's strings and
      counts fit the format. */
  method WriteDocument(m: Module, sel: Selection, includeRaw: bool) returns (document: Bytes)
    requires WellFormedModule(m)
    ensures Decode(document) == Some((ModuleValue(m, sel, includeRaw), [])) <==> Fits(ModuleValue(m, sel, includeRaw))
    ensures HoldsModule(document, m, sel, includeRaw)
  {
    var w := new MsgpackWriter();
    WriteModule(w, m, sel, includeRaw);
    document := w.out;
    assert [] + Enc(ModuleValue(m, sel, includeRaw)) == document;
    EncodedValueDecodes(ModuleValue(m, sel, includeRaw), document);
    DocumentHoldsModule(document, m, sel, includeRaw);
  }
}
