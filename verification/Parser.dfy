/** The line-by-line parser of textual LLVM IR, against a specification that first splits the
    lines into function regions. How one line is read is left to a classifier. */
module IRParsers {
  import opened Wrappers

  datatype Function = Function(name: string, signature: string)

  datatype InstructionKind = DirectCall | IndirectCall | OtherKind

  datatype Instruction = Instruction(kind: InstructionKind, callee: Option<string>, raw: string)

  datatype Call = Call(callee: string, caller: string, isExternal: bool)

  /** The readers of a single line, whose text-level detail is not modelled. */
  datatype Classifier = Classifier(
    parseDeclaration: string -> Option<Function>,
    parseDefinition: string -> Option<Function>,
    parseInstruction: string -> Option<Instruction>,
    parseCall: string -> Option<string>,
    isLabel: string -> bool)

  datatype Line =
    | Metadata(call: Option<string>, mentionsCall: bool)
    | Declare(declared: Option<Function>)
    | Define(defined: Option<Function>)
    | Close
    | Blank
    | Text(skip: bool, instruction: Option<Instruction>, call: Option<string>, mentionsCall: bool)

  predicate StartsWith(s: string, prefix: string) {
    prefix <= s
  }

  predicate Contains(s: string, part: string) {
    exists i :: 0 <= i <= |s| && StartsWith(s[i..], part)
  }

  predicate MentionsCall(line: string) {
    Contains(line, " call ") || StartsWith(line, "call ") || Contains(line, "\tcall ")
  }

  /** The branches of the parser's loop, taken on a trimmed line. */
  function Classify(line: string, c: Classifier): Line {
    if StartsWith(line, "!") then Metadata(c.parseCall(line), MentionsCall(line))
    else if StartsWith(line, "declare") then Declare(c.parseDeclaration(line))
    else if StartsWith(line, "define") then Define(c.parseDefinition(line))
    else if line == "}" then Close
    else if line == "" then Blank
    else Text(StartsWith(line, ";") || c.isLabel(line), c.parseInstruction(line), c.parseCall(line), MentionsCall(line))
  }

  function ClassifyAll(text: seq<string>, c: Classifier): (lines: seq<Line>)
    ensures |lines| == |text| && forall i :: 0 <= i < |text| ==> lines[i] == Classify(text[i], c)
  {
    seq(|text|, i requires 0 <= i < |text| => Classify(text[i], c))
  }

  /** Which reader decides a line, by how the line begins. */
  ghost predicate ReadAs(line: Line, text: string, c: Classifier) {
    && ("!" <= text ==> line == Metadata(c.parseCall(text), MentionsCall(text)))
    && ("declare" <= text ==> line == Declare(c.parseDeclaration(text)))
    && ("define" <= text ==> line == Define(c.parseDefinition(text)))
    && (text == "}" ==> line == Close)
    && (text == "" ==> line == Blank)
    && (!("!" <= text) && !("declare" <= text) && !("define" <= text) && text != "}" && text != "" ==>
          line == Text(";" <= text || c.isLabel(text), c.parseInstruction(text), c.parseCall(text), MentionsCall(text)))
  }

  /** No line begins in two of these ways. */
  lemma BeginningsDiffer(text: string)
    ensures "!" <= text ==> !("declare" <= text) && !("define" <= text) && text != "}"
    ensures "declare" <= text ==> !("define" <= text) && text != "}"
    ensures "define" <= text ==> text != "}"
  {
    if "declare" <= text {
      assert text[2] == "declare"[2] == 'c' && text[0] == "declare"[0] == 'd';
    }
    if "define" <= text {
      assert text[2] == "define"[2] == 'f' && text[0] == "define"[0] == 'd';
    }
    if "!" <= text {
      assert text[0] == "!"[0] == '!';
    }
    assert "}"[0] == '}';
  }

  lemma ClassifyReads(text: string, c: Classifier)
    ensures ReadAs(Classify(text, c), text, c)
  {
    BeginningsDiffer(text);
  }

  // ----- Regions -----

  /** A parsed definition and a closing brace end whatever function was open. */
  predicate IsBoundary(line: Line) {
    line.Close? || (line.Define? && line.defined.Some?)
  }

  /** A region starts at a parsed definition with a name. */
  predicate Starts(lines: seq<Line>, a: nat) {
    a < |lines| && lines[a].Define? && lines[a].defined.Some? && lines[a].defined.value.name != ""
  }

  function NameAt(lines: seq<Line>, a: nat): string
    requires Starts(lines, a)
  {
    lines[a].defined.value.name
  }

  /** The region starting at `a` is still open before line `i`. */
  predicate OpenAt(lines: seq<Line>, a: nat, i: nat) {
    a < i <= |lines| && Starts(lines, a) && forall k :: a < k < i ==> !IsBoundary(lines[k])
  }

  /** A region extends to the next boundary or to the end of a truncated input. */
  predicate IsRegion(lines: seq<Line>, a: nat, e: nat) {
    OpenAt(lines, a, e) && (e == |lines| || IsBoundary(lines[e]))
  }

  function InstructionOf(line: Line): seq<Instruction> {
    if line.Text? && !line.skip && line.instruction.Some? then [line.instruction.value] else []
  }

  function Instructions(lines: seq<Line>): seq<Instruction> {
    if lines == [] then [] else Instructions(lines[..|lines| - 1]) + InstructionOf(lines[|lines| - 1])
  }

  /** The instructions between the definition at `a` and line `e`. */
  function BodyOf(lines: seq<Line>, a: nat, e: nat): seq<Instruction>
    requires a < e <= |lines|
  {
    Instructions(lines[a + 1..e])
  }

  /** A region of this name that ends before `limit` and holds an instruction. */
  ghost predicate IsBody(lines: seq<Line>, name: string, limit: nat, a: nat, e: nat) {
    IsRegion(lines, a, e) && e < limit && NameAt(lines, a) == name && BodyOf(lines, a, e) != []
  }

  ghost predicate IsLastBody(lines: seq<Line>, name: string, limit: nat, a: nat, e: nat) {
    IsBody(lines, name, limit, a, e) && forall a': nat, e': nat :: IsBody(lines, name, limit, a', e') ==> a' <= a
  }

  type Bodies = map<string, seq<Instruction>>

  ghost predicate BodyOk(lines: seq<Line>, bodies: Bodies, limit: nat, name: string) {
    if name in bodies then
      exists a: nat, e: nat :: IsLastBody(lines, name, limit, a, e) && bodies[name] == BodyOf(lines, a, e)
    else
      forall a: nat, e: nat :: !IsBody(lines, name, limit, a, e)
  }

  /** A function's body is the instructions of its last non-empty region that ends before
      `limit`; without such a region it has none. */
  ghost predicate BodiesOk(lines: seq<Line>, bodies: Bodies, limit: nat) {
    forall name :: BodyOk(lines, bodies, limit, name)
  }

  lemma OpenIsUnique(lines: seq<Line>, a: nat, b: nat, i: nat)
    requires OpenAt(lines, a, i) && OpenAt(lines, b, i)
    ensures a == b
  {
  }

  /** If no region ends at line `i`, the bodies so far stay right. */
  lemma NothingEndsHere(lines: seq<Line>, bodies: Bodies, i: nat)
    requires BodiesOk(lines, bodies, i)
    requires forall a: nat :: !IsRegion(lines, a, i)
    ensures BodiesOk(lines, bodies, i + 1)
  {
    var limit := i + 1;
    forall name ensures BodyOk(lines, bodies, limit, name) {
      assert BodyOk(lines, bodies, i, name);
      forall a: nat, e: nat ensures IsBody(lines, name, limit, a, e) <==> IsBody(lines, name, i, a, e) {
        assert !IsRegion(lines, a, i);
      }
      if name in bodies {
        var a: nat, e: nat :| IsLastBody(lines, name, i, a, e) && bodies[name] == BodyOf(lines, a, e);
        assert IsLastBody(lines, name, limit, a, e);
      }
    }
  }

  /** The map after the open function has been saved, if it has instructions. */
  function Saved(bodies: Bodies, name: string, instructions: seq<Instruction>): Bodies {
    if name != "" && instructions != [] then bodies[name := instructions] else bodies
  }

  /** A boundary ends the open region and no other, and that region started last. */
  lemma BoundaryEndsOpenRegion(lines: seq<Line>, bodies: Bodies, start: nat, i: nat)
    requires i <= |lines| && (i == |lines| || IsBoundary(lines[i])) && BodiesOk(lines, bodies, i)
    requires OpenAt(lines, start, i)
    ensures BodiesOk(lines, Saved(bodies, NameAt(lines, start), BodyOf(lines, start, i)), i + 1)
  {
    var limit := i + 1;
    var saved := Saved(bodies, NameAt(lines, start), BodyOf(lines, start, i));
    forall name ensures BodyOk(lines, saved, limit, name) {
      assert BodyOk(lines, bodies, i, name);
      forall a: nat, e: nat ensures IsBody(lines, name, limit, a, e) <==>
                                    IsBody(lines, name, i, a, e) || (a == start && e == i && IsBody(lines, name, limit, a, e))
      {
        if IsBody(lines, name, limit, a, e) && e == i { OpenIsUnique(lines, a, start, i); }
      }
      if IsBody(lines, name, limit, start, i) {
        forall a: nat, e: nat | IsBody(lines, name, limit, a, e) ensures a <= start {
          if a > start { assert IsBoundary(lines[a]); }
        }
        assert IsLastBody(lines, name, limit, start, i);
      } else if name in bodies {
        var a: nat, e: nat :| IsLastBody(lines, name, i, a, e) && bodies[name] == BodyOf(lines, a, e);
        assert IsLastBody(lines, name, limit, a, e);
      }
    }
  }

  // ----- Calls -----

  const TOP_LEVEL := "<top-level>"

  /** The calls a line records when it stands inside the function `owner`, or outside of all. */
  function CallsOf(line: Line, owner: string): seq<Call> {
    if owner != "" then
      if line.Text? && !line.skip && line.instruction.Some? then
        match line.instruction.value.kind
        case DirectCall => if line.call.Some? then [Call(line.call.value, owner, false)] else []
        case IndirectCall =>
          [Call(if line.instruction.value.callee.Some? then line.instruction.value.callee.value else "indirect", owner, false)]
        case OtherKind => []
      else []
    else if (line.Text? || line.Metadata?) && line.mentionsCall && line.call.Some? then
      [Call(line.call.value, TOP_LEVEL, false)]
    else []
  }

  /** The function whose region line `i` belongs to, or "". */
  ghost function OwnerAt(lines: seq<Line>, i: nat): string {
    if a :| OpenAt(lines, a, i) then NameAt(lines, a) else ""
  }

  ghost function CallsBefore(lines: seq<Line>, i: nat): seq<Call>
    requires i <= |lines|
  {
    if i == 0 then [] else CallsBefore(lines, i - 1) + CallsOf(lines[i - 1], OwnerAt(lines, i - 1))
  }

  lemma OwnerOf(lines: seq<Line>, start: nat, i: nat)
    requires OpenAt(lines, start, i)
    ensures OwnerAt(lines, i) == NameAt(lines, start)
  {
    var a :| OpenAt(lines, a, i);
    forall b: nat | OpenAt(lines, b, i) ensures b == start {
      OpenIsUnique(lines, b, start, i);
    }
  }

  // ----- Which calls are recorded, from the lines alone -----

  /** The line, inside a function, is an instruction that calls `callee`. */
  ghost predicate CallsInside(line: Line, callee: string) {
    && line.Text? && !line.skip && line.instruction.Some?
    && ((line.instruction.value.kind == DirectCall && line.call == Some(callee))
        || (line.instruction.value.kind == IndirectCall && line.instruction.value.callee == Some(callee))
        || (line.instruction.value.kind == IndirectCall && line.instruction.value.callee == None && callee == "indirect"))
  }

  /** The line, outside of all functions, mentions a call of `callee`. */
  ghost predicate CallsOutside(line: Line, callee: string) {
    (line.Text? || line.Metadata?) && line.mentionsCall && line.call == Some(callee)
  }

  /** Line `p` records a call of `callee` from `caller`. */
  ghost predicate RecordsCall(lines: seq<Line>, p: nat, callee: string, caller: string)
    requires p < |lines|
  {
    || (exists a: nat :: OpenAt(lines, a, p) && caller == NameAt(lines, a) && CallsInside(lines[p], callee))
    || ((forall a: nat :: !OpenAt(lines, a, p)) && caller == "<top-level>" && CallsOutside(lines[p], callee))
  }

  ghost predicate Ascending(at: seq<nat>) {
    forall i, j :: 0 <= i < j < |at| ==> at[i] < at[j]
  }

  /** Among the first `n` lines, call `k` is recorded by line `at[k]`, and no other line records one. */
  ghost predicate ListsCalls(lines: seq<Line>, n: nat, calls: seq<Call>, at: seq<nat>) {
    && n <= |lines| && |at| == |calls| && Ascending(at)
    && (forall k :: 0 <= k < |at| ==> at[k] < n && RecordsCall(lines, at[k], calls[k].callee, calls[k].caller))
    && (forall p: nat, callee, caller :: p < n && RecordsCall(lines, p, callee, caller) ==> p in at)
  }

  lemma CallsOfInside(line: Line, owner: string, callee: string)
    requires owner != ""
    ensures |CallsOf(line, owner)| <= 1
    ensures CallsInside(line, callee) <==> CallsOf(line, owner) == [Call(callee, owner, false)]
    ensures CallsOf(line, owner) != [] ==> CallsInside(line, CallsOf(line, owner)[0].callee)
  {
  }

  lemma CallsOfOutside(line: Line, callee: string)
    ensures |CallsOf(line, "")| <= 1
    ensures CallsOutside(line, callee) <==> CallsOf(line, "") == [Call(callee, TOP_LEVEL, false)]
    ensures CallsOf(line, "") != [] ==> CallsOutside(line, CallsOf(line, "")[0].callee)
  {
  }

  /** A line records exactly what the parser takes from it. */
  lemma RecordsWhatIsTaken(lines: seq<Line>, p: nat, callee: string, caller: string)
    requires p < |lines|
    ensures RecordsCall(lines, p, callee, caller) <==> CallsOf(lines[p], OwnerAt(lines, p)) == [Call(callee, caller, false)]
  {
    if a: nat :| OpenAt(lines, a, p) {
      OwnerOf(lines, a, p);
      CallsOfInside(lines[p], NameAt(lines, a), callee);
      forall b: nat | OpenAt(lines, b, p) ensures b == a {
        OpenIsUnique(lines, b, a, p);
      }
    } else {
      CallsOfOutside(lines[p], callee);
    }
  }

  lemma AtMostOneTaken(lines: seq<Line>, p: nat)
    requires p < |lines|
    ensures var taken := CallsOf(lines[p], OwnerAt(lines, p));
      |taken| <= 1 && (|taken| == 1 ==> taken == [Call(taken[0].callee, taken[0].caller, false)])
  {
    if a: nat :| OpenAt(lines, a, p) {
      OwnerOf(lines, a, p);
      CallsOfInside(lines[p], NameAt(lines, a), "");
    } else {
      CallsOfOutside(lines[p], "");
    }
  }

  ghost predicate RecordsNone(lines: seq<Line>, n: nat)
    requires n < |lines|
  {
    forall callee, caller :: !RecordsCall(lines, n, callee, caller)
  }

  lemma SilentLineListed(lines: seq<Line>, n: nat, calls: seq<Call>, at: seq<nat>)
    requires n < |lines| && ListsCalls(lines, n, calls, at) && RecordsNone(lines, n)
    ensures ListsCalls(lines, n + 1, calls, at)
  {
    forall p: nat, callee, caller | p < n + 1 && RecordsCall(lines, p, callee, caller) ensures p in at {
      assert p != n;
    }
  }

  lemma CallingLineListed(lines: seq<Line>, n: nat, calls: seq<Call>, at: seq<nat>, call: Call)
    requires n < |lines| && ListsCalls(lines, n, calls, at) && RecordsCall(lines, n, call.callee, call.caller)
    ensures ListsCalls(lines, n + 1, calls + [call], at + [n])
  {
    var longer := at + [n];
    forall p: nat, callee, caller | p < n + 1 && RecordsCall(lines, p, callee, caller) ensures p in longer {
      if p < n {
        assert p in at;
      } else {
        assert longer[|at|] == p;
      }
    }
  }

  /** The next line adds its call, if it records one. */
  lemma NextLineListed(lines: seq<Line>, next: nat, at: seq<nat>) returns (longer: seq<nat>)
    requires 0 < next <= |lines| && ListsCalls(lines, next - 1, CallsBefore(lines, next - 1), at)
    ensures ListsCalls(lines, next, CallsBefore(lines, next), longer)
  {
    var n := next - 1;
    var calls := CallsBefore(lines, n);
    var taken := CallsOf(lines[n], OwnerAt(lines, n));
    AtMostOneTaken(lines, n);
    if taken == [] {
      forall callee, caller ensures !RecordsCall(lines, n, callee, caller) {
        RecordsWhatIsTaken(lines, n, callee, caller);
      }
      SilentLineListed(lines, n, calls, at);
      assert calls + taken == calls;
      longer := at;
    } else {
      RecordsWhatIsTaken(lines, n, taken[0].callee, taken[0].caller);
      CallingLineListed(lines, n, calls, at, taken[0]);
      longer := at + [n];
    }
  }

  lemma NothingListed(lines: seq<Line>)
    ensures ListsCalls(lines, 0, CallsBefore(lines, 0), [])
  {
  }

  /** The recorded calls are those of the lines that record one, in line order. */
  lemma {:induction false} CallsAreListed(lines: seq<Line>, n: nat) returns (at: seq<nat>)
    requires n <= |lines|
    ensures ListsCalls(lines, n, CallsBefore(lines, n), at)
  {
    if n == 0 {
      at := [];
      NothingListed(lines);
    } else {
      var before := CallsAreListed(lines, n - 1);
      at := NextLineListed(lines, n, before);
    }
  }

  /** The calls of the module, in line order, external exactly if some line declares the callee. */
  ghost predicate HoldsCalls(lines: seq<Line>, calls: seq<Call>) {
    && (exists at :: ListsCalls(lines, |lines|, calls, at))
    && forall k :: 0 <= k < |calls| ==> (calls[k].isExternal <==> exists j: nat :: DeclaresAt(lines, j, calls[k].callee))
  }

  ghost predicate DeclaresAt(lines: seq<Line>, j: nat, name: string) {
    j < |lines| && lines[j].Declare? && lines[j].declared.Some? && lines[j].declared.value.name == name
  }

  ghost predicate DefinesAt(lines: seq<Line>, j: nat, name: string) {
    j < |lines| && lines[j].Define? && lines[j].defined.Some? && lines[j].defined.value.name == name
  }

  lemma MarkedAreListed(lines: seq<Line>, n: nat, calls: seq<Call>, at: seq<nat>, declarations: map<string, Function>)
    requires ListsCalls(lines, n, calls, at)
    ensures ListsCalls(lines, n, Marked(calls, declarations), at)
  {
  }

  lemma DeclaredIffDeclares(lines: seq<Line>, name: string)
    ensures name in Declared(lines) <==> exists j: nat :: DeclaresAt(lines, j, name)
  {
    DeclaredIffDeclare(lines, name);
    if j: nat :| DeclaresAt(lines, j, name) {
      assert lines[j].Declare?;
    }
    if name in Declared(lines) {
      var j :| 0 <= j < |lines| && lines[j].Declare? && lines[j].declared.Some? && lines[j].declared.value.name == name;
      assert DeclaresAt(lines, j, name);
    }
  }

  lemma CallsAreHeld(lines: seq<Line>)
    ensures HoldsCalls(lines, Marked(CallsBefore(lines, |lines|), Declared(lines)))
  {
    var calls := CallsBefore(lines, |lines|);
    var marked := Marked(calls, Declared(lines));
    var at := CallsAreListed(lines, |lines|);
    MarkedAreListed(lines, |lines|, calls, at, Declared(lines));
    forall k | 0 <= k < |calls| ensures marked[k].isExternal <==> exists j: nat :: DeclaresAt(lines, j, marked[k].callee) {
      DeclaredIffDeclares(lines, calls[k].callee);
    }
  }

  // ----- Definitions, declarations and bodies, from the lines alone -----

  /** Exactly the defined names, each with its last definition. */
  ghost predicate HoldsDefinitions(lines: seq<Line>, functions: map<string, Function>) {
    && (forall j: nat, name :: DefinesAt(lines, j, name) ==> name in functions)
    && forall name :: name in functions ==>
         exists j: nat :: DefinesAt(lines, j, name) && functions[name] == lines[j].defined.value
                          && forall k: nat :: DefinesAt(lines, k, name) ==> k <= j
  }

  /** Exactly the declared names, each with its last declaration. */
  ghost predicate HoldsDeclarations(lines: seq<Line>, declarations: map<string, Function>) {
    && (forall j: nat, name :: DeclaresAt(lines, j, name) ==> name in declarations)
    && forall name :: name in declarations ==>
         exists j: nat :: DeclaresAt(lines, j, name) && declarations[name] == lines[j].declared.value
                          && forall k: nat :: DeclaresAt(lines, k, name) ==> k <= j
  }

  lemma {:induction false} DefinitionsAreHeld(lines: seq<Line>)
    ensures HoldsDefinitions(lines, Defined(lines))
  {
    if lines != [] {
      var n := |lines| - 1;
      var front := lines[..n];
      DefinitionsAreHeld(front);
      assert forall j: nat, name :: DefinesAt(front, j, name) <==> j < n && DefinesAt(lines, j, name);
      forall name | name in Defined(lines)
        ensures exists j: nat :: DefinesAt(lines, j, name) && Defined(lines)[name] == lines[j].defined.value
                                 && forall k: nat :: DefinesAt(lines, k, name) ==> k <= j
      {
        if DefinesAt(lines, n, name) {
          assert Defined(lines)[name] == lines[n].defined.value;
        } else {
          var j: nat :| DefinesAt(front, j, name) && Defined(front)[name] == front[j].defined.value
                        && forall k: nat :: DefinesAt(front, k, name) ==> k <= j;
          assert DefinesAt(lines, j, name);
        }
      }
    }
  }

  lemma {:induction false} DeclarationsAreHeld(lines: seq<Line>)
    ensures HoldsDeclarations(lines, Declared(lines))
  {
    if lines != [] {
      var n := |lines| - 1;
      var front := lines[..n];
      DeclarationsAreHeld(front);
      assert forall j: nat, name :: DeclaresAt(front, j, name) <==> j < n && DeclaresAt(lines, j, name);
      forall name | name in Declared(lines)
        ensures exists j: nat :: DeclaresAt(lines, j, name) && Declared(lines)[name] == lines[j].declared.value
                                 && forall k: nat :: DeclaresAt(lines, k, name) ==> k <= j
      {
        if DeclaresAt(lines, n, name) {
          assert Declared(lines)[name] == lines[n].declared.value;
        } else {
          var j: nat :| DeclaresAt(front, j, name) && Declared(front)[name] == front[j].declared.value
                        && forall k: nat :: DeclaresAt(front, k, name) ==> k <= j;
          assert DeclaresAt(lines, j, name);
        }
      }
    }
  }

  ghost predicate HasInstruction(line: Line) {
    line.Text? && !line.skip && line.instruction.Some?
  }

  /** The instructions of the lines after `a` and before `e`, in line order. */
  ghost predicate ListsInstructions(lines: seq<Line>, a: nat, e: nat, body: seq<Instruction>, at: seq<nat>) {
    && e <= |lines| && |at| == |body| && Ascending(at)
    && (forall k :: 0 <= k < |at| ==> a < at[k] < e && HasInstruction(lines[at[k]]) && lines[at[k]].instruction.value == body[k])
    && (forall p: nat :: a < p < e && HasInstruction(lines[p]) ==> p in at)
  }

  lemma SilentLineInBody(lines: seq<Line>, a: nat, e: nat, body: seq<Instruction>, at: seq<nat>)
    requires 0 < e <= |lines| && ListsInstructions(lines, a, e - 1, body, at) && !HasInstruction(lines[e - 1])
    ensures ListsInstructions(lines, a, e, body, at)
  {
  }

  lemma InstructionInBody(lines: seq<Line>, a: nat, e: nat, body: seq<Instruction>, at: seq<nat>)
    requires a + 1 < e <= |lines| && ListsInstructions(lines, a, e - 1, body, at) && HasInstruction(lines[e - 1])
    ensures ListsInstructions(lines, a, e, body + [lines[e - 1].instruction.value], at + [e - 1])
  {
    var longer := at + [e - 1];
    forall p: nat | a < p < e && HasInstruction(lines[p]) ensures p in longer {
      if p < e - 1 {
        assert p in at;
      } else {
        assert longer[|at|] == p;
      }
    }
  }

  lemma BodyOfNext(lines: seq<Line>, a: nat, e: nat)
    requires a + 1 < e <= |lines|
    ensures BodyOf(lines, a, e)
         == if HasInstruction(lines[e - 1]) then BodyOf(lines, a, e - 1) + [lines[e - 1].instruction.value]
            else BodyOf(lines, a, e - 1)
  {
    BodyGrows(lines, a, e - 1);
  }

  lemma NextInBody(lines: seq<Line>, a: nat, e: nat, at: seq<nat>) returns (longer: seq<nat>)
    requires a + 1 < e <= |lines| && ListsInstructions(lines, a, e - 1, BodyOf(lines, a, e - 1), at)
    ensures ListsInstructions(lines, a, e, BodyOf(lines, a, e), longer)
  {
    BodyOfNext(lines, a, e);
    if HasInstruction(lines[e - 1]) {
      InstructionInBody(lines, a, e, BodyOf(lines, a, e - 1), at);
      longer := at + [e - 1];
    } else {
      SilentLineInBody(lines, a, e, BodyOf(lines, a, e - 1), at);
      longer := at;
    }
  }

  lemma EmptyBodyListed(lines: seq<Line>, a: nat)
    requires a < |lines|
    ensures ListsInstructions(lines, a, a + 1, BodyOf(lines, a, a + 1), [])
  {
  }

  lemma {:induction false} BodyIsListed(lines: seq<Line>, a: nat, e: nat) returns (at: seq<nat>)
    requires a < e <= |lines|
    ensures ListsInstructions(lines, a, e, BodyOf(lines, a, e), at)
    decreases e
  {
    if e == a + 1 {
      at := [];
      EmptyBodyListed(lines, a);
    } else {
      var before := BodyIsListed(lines, a, e - 1);
      at := NextInBody(lines, a, e, before);
    }
  }

  /** A region of this name with an instruction. */
  ghost predicate FilledRegion(lines: seq<Line>, name: string, a: nat, e: nat) {
    IsRegion(lines, a, e) && NameAt(lines, a) == name && exists p: nat :: a < p < e && HasInstruction(lines[p])
  }

  ghost predicate HoldsBody(lines: seq<Line>, name: string, body: seq<Instruction>, a: nat, e: nat, at: seq<nat>) {
    && FilledRegion(lines, name, a, e) && ListsInstructions(lines, a, e, body, at)
    && forall a': nat, e': nat :: FilledRegion(lines, name, a', e') ==> a' <= a
  }

  /** Exactly the functions with an instruction have a body: the instructions of their last
      region that has one, in line order. */
  ghost predicate HoldsBodies(lines: seq<Line>, bodies: Bodies) {
    && (forall name, a: nat, e: nat :: FilledRegion(lines, name, a, e) ==> name in bodies)
    && (forall name :: name in bodies ==> exists a: nat, e: nat, at :: HoldsBody(lines, name, bodies[name], a, e, at))
  }

  lemma FilledIsBody(lines: seq<Line>, name: string, a: nat, e: nat)
    ensures FilledRegion(lines, name, a, e) <==> IsBody(lines, name, |lines| + 1, a, e)
  {
    if IsRegion(lines, a, e) {
      var at := BodyIsListed(lines, a, e);
      if BodyOf(lines, a, e) != [] {
        assert a < at[0] < e && HasInstruction(lines[at[0]]);
      }
    }
  }

  lemma BodiesAreHeld(lines: seq<Line>, bodies: Bodies)
    requires BodiesOk(lines, bodies, |lines| + 1)
    ensures HoldsBodies(lines, bodies)
  {
    forall name, a: nat, e: nat ensures FilledRegion(lines, name, a, e) <==> IsBody(lines, name, |lines| + 1, a, e) {
      FilledIsBody(lines, name, a, e);
    }
    forall name, a: nat, e: nat | FilledRegion(lines, name, a, e) ensures name in bodies {
      assert BodyOk(lines, bodies, |lines| + 1, name);
    }
    forall name | name in bodies ensures exists a: nat, e: nat, at :: HoldsBody(lines, name, bodies[name], a, e, at) {
      assert BodyOk(lines, bodies, |lines| + 1, name);
      var a: nat, e: nat :| IsLastBody(lines, name, |lines| + 1, a, e) && bodies[name] == BodyOf(lines, a, e);
      var at := BodyIsListed(lines, a, e);
      assert HoldsBody(lines, name, bodies[name], a, e, at);
    }
  }

  // ----- The parser -----

  datatype Module = Module(
    functions: map<string, Function>,
    declarations: map<string, Function>,
    bodies: Bodies,
    calls: seq<Call>)

  /** The last parsed definition, or declaration, of each name wins. */
  function Defined(lines: seq<Line>): map<string, Function> {
    if lines == [] then map[]
    else
      var before, line := Defined(lines[..|lines| - 1]), lines[|lines| - 1];
      if line.Define? && line.defined.Some? then before[line.defined.value.name := line.defined.value] else before
  }

  function Declared(lines: seq<Line>): map<string, Function> {
    if lines == [] then map[]
    else
      var before, line := Declared(lines[..|lines| - 1]), lines[|lines| - 1];
      if line.Declare? && line.declared.Some? then before[line.declared.value.name := line.declared.value] else before
  }

  lemma {:induction false} DefinedIffDefine(lines: seq<Line>, name: string)
    ensures name in Defined(lines)
            <==> exists k :: 0 <= k < |lines| && lines[k].Define? && lines[k].defined.Some? && lines[k].defined.value.name == name
  {
    if lines != [] {
      var n := |lines| - 1;
      DefinedIffDefine(lines[..n], name);
      if k :| 0 <= k < n && lines[..n][k].Define? && lines[..n][k].defined.Some? && lines[..n][k].defined.value.name == name {
        assert lines[k].Define?;
      }
      if k :| 0 <= k < |lines| && lines[k].Define? && lines[k].defined.Some? && lines[k].defined.value.name == name {
        assert k < n ==> lines[..n][k] == lines[k];
      }
    }
  }

  lemma {:induction false} DeclaredIffDeclare(lines: seq<Line>, name: string)
    ensures name in Declared(lines)
            <==> exists k :: 0 <= k < |lines| && lines[k].Declare? && lines[k].declared.Some? && lines[k].declared.value.name == name
  {
    if lines != [] {
      var n := |lines| - 1;
      DeclaredIffDeclare(lines[..n], name);
      if k :| 0 <= k < n && lines[..n][k].Declare? && lines[..n][k].declared.Some? && lines[..n][k].declared.value.name == name {
        assert lines[k].Declare?;
      }
      if k :| 0 <= k < |lines| && lines[k].Declare? && lines[k].declared.Some? && lines[k].declared.value.name == name {
        assert k < n ==> lines[..n][k] == lines[k];
      }
    }
  }

  /** What the loop variables hold before line `i`: the instructions and the name of the region
      that is open, or nothing if none is. */
  ghost predicate CursorOk(lines: seq<Line>, i: nat, name: string, instructions: seq<Instruction>) {
    if name != "" then
      exists a: nat :: OpenAt(lines, a, i) && NameAt(lines, a) == name && instructions == BodyOf(lines, a, i)
    else
      instructions == [] && forall a: nat :: !OpenAt(lines, a, i)
  }

  lemma CursorOwns(lines: seq<Line>, i: nat, name: string, instructions: seq<Instruction>)
    requires CursorOk(lines, i, name, instructions)
    ensures OwnerAt(lines, i) == name
  {
    if name != "" {
      var a: nat :| OpenAt(lines, a, i) && NameAt(lines, a) == name && instructions == BodyOf(lines, a, i);
      OwnerOf(lines, a, i);
    }
  }

  lemma BodyGrows(lines: seq<Line>, a: nat, i: nat)
    requires a < i < |lines|
    ensures BodyOf(lines, a, i + 1) == BodyOf(lines, a, i) + InstructionOf(lines[i])
  {
    var longer := lines[a + 1..i + 1];
    assert longer[..|longer| - 1] == lines[a + 1..i];
  }

  /** Any line but a boundary leaves the region open and adds its instruction. */
  lemma CursorMoves(lines: seq<Line>, i: nat, name: string, instructions: seq<Instruction>)
    requires CursorOk(lines, i, name, instructions) && i < |lines| && !IsBoundary(lines[i])
    ensures CursorOk(lines, i + 1, name, if name == "" then [] else instructions + InstructionOf(lines[i]))
  {
    var next := i + 1;
    if name != "" {
      var a: nat :| OpenAt(lines, a, i) && NameAt(lines, a) == name && instructions == BodyOf(lines, a, i);
      BodyGrows(lines, a, i);
      assert OpenAt(lines, a, next);
    } else {
      forall a: nat ensures !OpenAt(lines, a, next) {
        assert !OpenAt(lines, a, i);
      }
    }
  }

  /** After a boundary the region it starts is open and empty. */
  lemma CursorRestarts(lines: seq<Line>, i: nat)
    requires i < |lines| && IsBoundary(lines[i])
    ensures CursorOk(lines, i + 1, if lines[i].Define? then lines[i].defined.value.name else "", [])
  {
    if lines[i].Define? && lines[i].defined.value.name != "" {
      assert OpenAt(lines, i, i + 1) && BodyOf(lines, i, i + 1) == [];
    }
  }

  /** Saving at a boundary, or at the end of the input, keeps the bodies right. */
  lemma SavingIsRight(lines: seq<Line>, bodies: Bodies, i: nat, name: string, instructions: seq<Instruction>)
    requires CursorOk(lines, i, name, instructions) && BodiesOk(lines, bodies, i)
    requires i <= |lines| && (i == |lines| || IsBoundary(lines[i]))
    ensures BodiesOk(lines, Saved(bodies, name, instructions), i + 1)
  {
    if name != "" {
      var a: nat :| OpenAt(lines, a, i) && NameAt(lines, a) == name && instructions == BodyOf(lines, a, i);
      BoundaryEndsOpenRegion(lines, bodies, a, i);
    } else {
      NothingEndsHere(lines, bodies, i);
    }
  }

  /** Marks the calls of declared functions as external. */
  function Marked(calls: seq<Call>, declarations: map<string, Function>): (marked: seq<Call>)
    ensures |marked| == |calls|
    ensures forall i :: 0 <= i < |calls| ==> marked[i] == calls[i].(isExternal := calls[i].callee in declarations)
  {
    seq(|calls|, i requires 0 <= i < |calls| => calls[i].(isExternal := calls[i].callee in declarations))
  }

  /** The loop variables before line `i`. */
  ghost predicate ParsedTo(lines: seq<Line>, i: nat, m: Module, current: string, instructions: seq<Instruction>) {
    && i <= |lines|
    && m.functions == Defined(lines[..i]) && m.declarations == Declared(lines[..i])
    && BodiesOk(lines, m.bodies, i)
    && m.calls == CallsBefore(lines, i)
    && CursorOk(lines, i, current, instructions)
  }

  function WithDeclaration(declarations: map<string, Function>, line: Line): map<string, Function> {
    if line.Declare? && line.declared.Some? then declarations[line.declared.value.name := line.declared.value]
    else declarations
  }

  lemma BoundaryIsParsed(lines: seq<Line>, i: nat, m: Module, current: string, instructions: seq<Instruction>)
    requires ParsedTo(lines, i, m, current, instructions) && i < |lines| && IsBoundary(lines[i])
    ensures var saved := m.(bodies := Saved(m.bodies, current, instructions));
            if lines[i].Define? then
              var f := lines[i].defined.value;
              ParsedTo(lines, i + 1, saved.(functions := m.functions[f.name := f]), f.name, [])
            else
              ParsedTo(lines, i + 1, saved, "", [])
  {
    assert lines[..i + 1][..i] == lines[..i];
    CursorOwns(lines, i, current, instructions);
    SavingIsRight(lines, m.bodies, i, current, instructions);
    CursorRestarts(lines, i);
  }

  lemma MapsMove(lines: seq<Line>, i: nat)
    requires i < |lines| && !IsBoundary(lines[i])
    ensures Defined(lines[..i + 1]) == Defined(lines[..i])
    ensures Declared(lines[..i + 1]) == WithDeclaration(Declared(lines[..i]), lines[i])
  {
    assert lines[..i + 1][..i] == lines[..i];
  }

  lemma CallsMove(lines: seq<Line>, i: nat, name: string, instructions: seq<Instruction>)
    requires CursorOk(lines, i, name, instructions) && i < |lines|
    ensures CallsBefore(lines, i + 1) == CallsBefore(lines, i) + CallsOf(lines[i], name)
  {
    CursorOwns(lines, i, name, instructions);
  }

  lemma InnerLineIsParsed(lines: seq<Line>, i: nat, m: Module, current: string, instructions: seq<Instruction>)
    requires ParsedTo(lines, i, m, current, instructions) && i < |lines| && !IsBoundary(lines[i])
    ensures ParsedTo(lines, i + 1, m.(declarations := WithDeclaration(m.declarations, lines[i]),
                                      calls := m.calls + CallsOf(lines[i], current)),
                     current, if current == "" then [] else instructions + InstructionOf(lines[i]))
  {
    MapsMove(lines, i);
    CallsMove(lines, i, current, instructions);
    CursorMoves(lines, i, current, instructions);
    NothingEndsHere(lines, m.bodies, i);
  }

  /** One round of the loop. */
  method ParseLine(line: Line, m: Module, current: string, instructions: seq<Instruction>, ghost lines: seq<Line>, ghost i: nat)
    returns (m': Module, current': string, instructions': seq<Instruction>)
    requires ParsedTo(lines, i, m, current, instructions) && i < |lines| && lines[i] == line
    ensures ParsedTo(lines, i + 1, m', current', instructions')
  {
    m', current', instructions' := m, current, instructions;
    if IsBoundary(line) {
      BoundaryIsParsed(lines, i, m, current, instructions);
    } else {
      InnerLineIsParsed(lines, i, m, current, instructions);
    }
    match line {
      case Declare(declared) =>
        if declared.Some? {
          m' := m.(declarations := m.declarations[declared.value.name := declared.value]);
        }
      case Define(defined) =>
        if defined.Some? {
          m' := m.(bodies := Saved(m.bodies, current, instructions), functions := m.functions[defined.value.name := defined.value]);
          current', instructions' := defined.value.name, [];
        }
      case Close =>
        m' := m.(bodies := Saved(m.bodies, current, instructions));
        current', instructions' := "", [];
      case Text(skip, instruction, call, mentionsCall) =>
        if current != "" {
          if !skip && instruction.Some? {
            match instruction.value.kind {
              case DirectCall =>
                if call.Some? {
                  m' := m.(calls := m.calls + [Call(call.value, current, false)]);
                }
              case IndirectCall =>
                var callee := if instruction.value.callee.Some? then instruction.value.callee.value else "indirect";
                m' := m.(calls := m.calls + [Call(callee, current, false)]);
              case OtherKind =>
            }
            instructions' := instructions + [instruction.value];
          }
        } else if mentionsCall && call.Some? {
          m' := m.(calls := m.calls + [Call(call.value, TOP_LEVEL, false)]);
        }
      case Metadata(call, mentionsCall) =>
        if current == "" && mentionsCall && call.Some? {
          m' := m.(calls := m.calls + [Call(call.value, TOP_LEVEL, false)]);
        }
      case Blank =>
    }
  }

  /** What the lines say, in terms of single lines and open regions. */
  ghost predicate Holds(m: Module, lines: seq<Line>) {
    && HoldsDefinitions(lines, m.functions) && HoldsDeclarations(lines, m.declarations)
    && HoldsBodies(lines, m.bodies) && HoldsCalls(lines, m.calls)
  }

  lemma ModuleHoldsLines(m: Module, lines: seq<Line>)
    requires m.functions == Defined(lines) && m.declarations == Declared(lines) && BodiesOk(lines, m.bodies, |lines| + 1)
    requires m.calls == Marked(CallsBefore(lines, |lines|), m.declarations)
    ensures Holds(m, lines)
  {
    DefinitionsAreHeld(lines);
    DeclarationsAreHeld(lines);
    BodiesAreHeld(lines, m.bodies);
    CallsAreHeld(lines);
  }

  ghost predicate AreReadAs(lines: seq<Line>, text: seq<string>, c: Classifier) {
    |lines| == |text| && forall i :: 0 <= i < |text| ==> ReadAs(lines[i], text[i], c)
  }

  /** The module is what the lines say, each read by the reader its beginning calls for. */
  ghost predicate IsReadFrom(m: Module, text: seq<string>, c: Classifier) {
    exists lines :: AreReadAs(lines, text, c) && Holds(m, lines)
  }

  lemma LinesAreRead(m: Module, text: seq<string>, c: Classifier)
    requires var lines := ClassifyAll(text, c);
      && m.functions == Defined(lines) && m.declarations == Declared(lines) && BodiesOk(lines, m.bodies, |lines| + 1)
      && m.calls == Marked(CallsBefore(lines, |lines|), m.declarations)
    ensures IsReadFrom(m, text, c)
  {
    var lines := ClassifyAll(text, c);
    ModuleHoldsLines(m, lines);
    forall i | 0 <= i < |text| ensures ReadAs(lines[i], text[i], c) {
      ClassifyReads(text[i], c);
    }
    assert AreReadAs(lines, text, c);
  }

  /** The one-pass parser: definitions, declarations, bodies and calls of the whole text. */
  method ParseFromText(text: seq<string>, c: Classifier) returns (m: Module)
    ensures var lines := ClassifyAll(text, c);
            && m.functions == Defined(lines) && m.declarations == Declared(lines)
            && BodiesOk(lines, m.bodies, |lines| + 1)
            && m.calls == Marked(CallsBefore(lines, |lines|), m.declarations)
    ensures IsReadFrom(m, text, c)
  {
    ghost var lines := ClassifyAll(text, c);
    m := Module(map[], map[], map[], []);
    var current, instructions := "", [];
    for i := 0 to |text|
      invariant ParsedTo(lines, i, m, current, instructions)
    {
      m, current, instructions := ParseLine(Classify(text[i], c), m, current, instructions, lines, i);
    }
    assert lines[..|text|] == lines;
    SavingIsRight(lines, m.bodies, |lines|, current, instructions);
    m := m.(bodies := Saved(m.bodies, current, instructions), calls := Marked(m.calls, m.declarations));
    LinesAreRead(m, text, c);
  }

  // ----- What the region form gives -----

  /** Every function with a body has been defined. */
  lemma BodyKeysAreDefined(lines: seq<Line>, bodies: Bodies)
    requires BodiesOk(lines, bodies, |lines| + 1)
    ensures bodies.Keys <= Defined(lines).Keys
  {
    forall name | name in bodies ensures name in Defined(lines) {
      assert BodyOk(lines, bodies, |lines| + 1, name);
      var a: nat, e: nat :| IsLastBody(lines, name, |lines| + 1, a, e);
      DefinedIffDefine(lines, name);
    }
  }

  /** The region form determines the bodies. */
  lemma BodiesAreUnique(lines: seq<Line>, b1: Bodies, b2: Bodies, limit: nat)
    requires BodiesOk(lines, b1, limit) && BodiesOk(lines, b2, limit)
    ensures b1 == b2
  {
    forall name ensures name in b1 <==> name in b2
                ensures name in b1 && name in b2 ==> b1[name] == b2[name]
    {
      assert BodyOk(lines, b1, limit, name) && BodyOk(lines, b2, limit, name);
      if name in b1 && name in b2 {
        var a1: nat, e1: nat :| IsLastBody(lines, name, limit, a1, e1) && b1[name] == BodyOf(lines, a1, e1);
        var a2: nat, e2: nat :| IsLastBody(lines, name, limit, a2, e2) && b2[name] == BodyOf(lines, a2, e2);
        assert a1 == a2;
        assert e1 == e2;
      }
    }
  }

  lemma OwnerIsDefined(lines: seq<Line>, i: nat)
    requires i <= |lines|
    ensures OwnerAt(lines, i) == "" || OwnerAt(lines, i) in Defined(lines)
  {
    if a: nat :| OpenAt(lines, a, i) {
      OwnerOf(lines, a, i);
      DefinedIffDefine(lines, NameAt(lines, a));
    }
  }

  ghost predicate HasKnownCaller(call: Call, lines: seq<Line>) {
    call.caller == TOP_LEVEL || call.caller in Defined(lines)
  }

  /** Every caller is a defined function, or the call stands outside of every function. */
  lemma {:induction false} CallersAreDefined(lines: seq<Line>, i: nat)
    requires i <= |lines|
    ensures forall k :: 0 <= k < |CallsBefore(lines, i)| ==> HasKnownCaller(CallsBefore(lines, i)[k], lines)
  {
    if i > 0 {
      CallersAreDefined(lines, i - 1);
      OwnerIsDefined(lines, i - 1);
    }
  }

  /** A call is external exactly when its callee is declared on some line, before or after it. */
  lemma ExternalIffDeclared(lines: seq<Line>, k: nat)
    requires k < |CallsBefore(lines, |lines|)|
    ensures var call := Marked(CallsBefore(lines, |lines|), Declared(lines))[k];
            call.isExternal <==> exists j :: 0 <= j < |lines| && lines[j].Declare? && lines[j].declared.Some?
                                             && lines[j].declared.value.name == call.callee
  {
    DeclaredIffDeclare(lines, CallsBefore(lines, |lines|)[k].callee);
  }

  /** A definition without a name closes the open function like a brace does. */
  lemma NamelessDefinitionOpensNothing(lines: seq<Line>, i: nat, a: nat)
    requires i < |lines| && lines[i].Define? && lines[i].defined.Some? && lines[i].defined.value.name == ""
    ensures !OpenAt(lines, a, i + 1) && OwnerAt(lines, i + 1) == ""
  {
    var next := i + 1;
    forall b: nat ensures !OpenAt(lines, b, next) {
      assert b < i ==> IsBoundary(lines[i]);
    }
  }
}
