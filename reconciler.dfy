/**
 * What updateDisplay_ computes, step by step, as functions of the block's
 * inputs: disconnectOldBlocks_, removeAllInputs_, createAllInputs_ with the
 * per-role populateArgument_ strategies, and deleteShadows_. The block
 * methods in blocks.dfy are proved equal to these functions; the lemmas
 * here state what the rebuilt inputs look like.
 */
module Reconciler {
  import opened Signature

  type BlockId = nat

  /** A block attached to an input (a placeholder shadow, an argument
      reporter or editor, or any block the user dropped there), identified
      by its block id. `fields` maps field names to their values. */
  datatype Child = Child(id: BlockId, btype: string, shadow: bool, fields: map<string, string>)

  /** A field on a dummy input: a label, or a text input when `editable`. */
  datatype Field = Field(name: string, value: string, editable: bool)

  datatype InputKind = DummyInput | ValueInput | StatementInput

  /** A block input. Value and statement inputs have a connection, holding
      the attached block (`target`) and the shadow DOM to respawn. */
  datatype Input = Input(
    name: string,
    kind: InputKind,
    check: Option<string>,
    fieldRow: seq<Field>,
    target: Option<Child>,
    shadowDom: Option<Node>)

  /** What disconnectOldBlocks_ saves for one input. */
  datatype SaveInfo = SaveInfo(shadow: Option<Node>, block: Option<Child>)

  /** The connection map: input name to saved info, or to null once the
      entry has been consumed. */
  type ConnectionMap = map<string, Option<SaveInfo>>

  /** The three function blocks; each fills an argument input its own way. */
  datatype Role = Declaration | Definition | Caller

  const STACK: string := "STACK"

  predicate HasStack(inputs: seq<Input>) {
    exists i :: 0 <= i < |inputs| && inputs[i].name == STACK
  }

  /** STACK is only ever created by appendStatementInput. */
  predicate StackIsStatement(inputs: seq<Input>) {
    forall i :: 0 <= i < |inputs| && inputs[i].name == STACK ==> inputs[i].kind == StatementInput
  }

  // ---------------------------------------------------------------------
  // disconnectOldBlocks_

  /** An input whose attached block is saved: not STACK, and with a connection. */
  predicate Saved(inp: Input) {
    inp.name != STACK && inp.kind != DummyInput
  }

  function Disconnected(inp: Input): Input {
    if Saved(inp) then inp.(target := None, shadowDom := None) else inp
  }

  function DisconnectAll(inputs: seq<Input>): (r: seq<Input>)
    ensures |r| == |inputs|
  {
    seq(|inputs|, i requires 0 <= i < |inputs| => Disconnected(inputs[i]))
  }

  /** disconnectOldBlocks_ keeps every input in place; a saved one loses its
      attached block and shadow DOM, any other is untouched. */
  lemma DisconnectAllSpec(inputs: seq<Input>)
    ensures var r := DisconnectAll(inputs);
      |r| == |inputs| &&
      forall i :: 0 <= i < |r| ==>
        r[i].name == inputs[i].name && r[i].kind == inputs[i].kind && r[i].fieldRow == inputs[i].fieldRow &&
        (Saved(inputs[i]) ==> r[i].target.None? && r[i].shadowDom.None?) &&
        (!Saved(inputs[i]) ==> r[i] == inputs[i])
  { }

  function SavedConnections(inputs: seq<Input>): ConnectionMap
    decreases |inputs|
  {
    if inputs == [] then map[]
    else
      var m := SavedConnections(inputs[..|inputs| - 1]);
      var inp := inputs[|inputs| - 1];
      if Saved(inp) then m[inp.name := Some(SaveInfo(inp.shadowDom, inp.target))] else m
  }

  /** disconnectOldBlocks_ records exactly the saved inputs, keyed by input
      name; for a name used twice the later input's entry wins. Every entry
      is non-null. */
  lemma {:induction false} SavedConnectionsSpec(inputs: seq<Input>)
    ensures forall k :: k in SavedConnections(inputs) <==>
      exists i :: 0 <= i < |inputs| && Saved(inputs[i]) && inputs[i].name == k
    ensures forall i :: (0 <= i < |inputs| && Saved(inputs[i]) &&
      (forall j :: i < j < |inputs| ==> inputs[j].name != inputs[i].name)) ==>
        SavedConnections(inputs)[inputs[i].name] == Some(SaveInfo(inputs[i].shadowDom, inputs[i].target))
    ensures forall k :: k in SavedConnections(inputs) ==> SavedConnections(inputs)[k].Some?
    decreases |inputs|
  {
    if inputs != [] {
      var n := |inputs| - 1;
      var pre := inputs[..n];
      SavedConnectionsSpec(pre);
      forall k
        ensures k in SavedConnections(inputs) <==>
          exists i :: 0 <= i < |inputs| && Saved(inputs[i]) && inputs[i].name == k
      {
        if k in SavedConnections(pre) {
          var i :| 0 <= i < |pre| && Saved(pre[i]) && pre[i].name == k;
          assert inputs[i] == pre[i];
        }
        if exists i :: 0 <= i < |inputs| && Saved(inputs[i]) && inputs[i].name == k {
          var i :| 0 <= i < |inputs| && Saved(inputs[i]) && inputs[i].name == k;
          if i < n {
            assert pre[i] == inputs[i];
          }
        }
      }
      forall i | 0 <= i < |inputs| && Saved(inputs[i]) &&
        (forall j :: i < j < |inputs| ==> inputs[j].name != inputs[i].name)
        ensures SavedConnections(inputs)[inputs[i].name] == Some(SaveInfo(inputs[i].shadowDom, inputs[i].target))
      {
        if i < n {
          assert pre[i] == inputs[i];
          forall j | i < j < |pre| ensures pre[j].name != pre[i].name {
            assert pre[j] == inputs[j];
          }
        }
      }
    }
  }

  // ---------------------------------------------------------------------
  // removeAllInputs_

  /** The last input named STACK, the one removeAllInputs_ keeps. */
  function LastStack(inputs: seq<Input>): Option<Input>
    decreases |inputs|
  {
    if inputs == [] then None
    else if inputs[|inputs| - 1].name == STACK then Some(inputs[|inputs| - 1])
    else LastStack(inputs[..|inputs| - 1])
  }

  function KeepStack(inputs: seq<Input>): seq<Input> {
    match LastStack(inputs)
    case None => []
    case Some(s) => [s]
  }

  /** removeAllInputs_ leaves `[STACK]` when a STACK input existed (the last
      one, if several) and the empty list otherwise. */
  lemma {:induction false} KeepStackSpec(inputs: seq<Input>)
    ensures KeepStack(inputs) == [] <==> !HasStack(inputs)
    ensures HasStack(inputs) ==>
      exists k :: 0 <= k < |inputs| && inputs[k].name == STACK &&
        (forall j :: k < j < |inputs| ==> inputs[j].name != STACK) &&
        KeepStack(inputs) == [inputs[k]]
    decreases |inputs|
  {
    if inputs != [] {
      var n := |inputs| - 1;
      var pre := inputs[..n];
      KeepStackSpec(pre);
      if inputs[n].name != STACK {
        if HasStack(inputs) {
          var i :| 0 <= i < |inputs| && inputs[i].name == STACK;
          assert pre[i] == inputs[i];
          var k :| 0 <= k < |pre| && pre[k].name == STACK &&
            (forall j :: k < j < |pre| ==> pre[j].name != STACK) && KeepStack(pre) == [pre[k]];
          assert inputs[k] == pre[k];
          forall j | k < j < |inputs| ensures inputs[j].name != STACK {
            if j < n { assert inputs[j] == pre[j]; }
          }
        }
        if HasStack(pre) {
          var i :| 0 <= i < |pre| && pre[i].name == STACK;
          assert inputs[i] == pre[i];
        }
      }
    }
  }

  /** Disconnecting never touches a STACK input, so it does not change what
      removeAllInputs_ keeps. */
  lemma {:induction false} KeepStackDisconnected(inputs: seq<Input>)
    ensures KeepStack(DisconnectAll(inputs)) == KeepStack(inputs)
    decreases |inputs|
  {
    if inputs != [] {
      var n := |inputs| - 1;
      assert DisconnectAll(inputs)[..n] == DisconnectAll(inputs[..n]);
      KeepStackDisconnected(inputs[..n]);
    }
  }

  lemma {:induction false} LastStackAppend(x: seq<Input>, y: seq<Input>)
    requires !HasStack(y)
    ensures LastStack(x + y) == LastStack(x)
    decreases |y|
  {
    if y != [] {
      var n := |y| - 1;
      assert (x + y)[..|x + y| - 1] == x + y[..n];
      assert y[n].name != STACK;
      LastStackAppend(x, y[..n]);
    } else {
      assert x + y == x;
    }
  }

  // ---------------------------------------------------------------------
  // createAllInputs_ and the populateArgument_ strategies

  /** The title label: FUNCTIONS_CALL_TITLE on a caller, PROCEDURES_DEFNORETURN_TITLE
      on a definition or declaration (the message keys stand for their text). */
  function TitleText(role: Role): string {
    match role
    case Caller => "FUNCTIONS_CALL_TITLE"
    case _ => "PROCEDURES_DEFNORETURN_TITLE"
  }

  function TitleInput(role: Role): Input {
    Input("", DummyInput, None, [Field("function_title", TitleText(role), false)], None, None)
  }

  /** addFunctionLabel_: a text editor on the declaration (addLabelEditor_),
      a plain label on the other two (addLabelField_). */
  function LabelInput(role: Role, name: string): Input {
    Input("function_name", DummyInput, None, [Field("function_name", name, role == Declaration)], None, None)
  }

  function NewValueInput(a: Arg): Input {
    Input(InputName(a), ValueInput, Check(a.typ), [], None, None)
  }

  /** appendStatementInput('STACK'). */
  function StackInput(): Input {
    Input(STACK, StatementInput, None, [], None, None)
  }

  /** The shadow block attachShadow_ creates, with a fresh id. */
  function NewShadow(t: string, defaultVariableId: string, id: BlockId): Child {
    var info := ShadowInfo(t, defaultVariableId);
    Child(id, info.0, true, map[info.1 := info.2])
  }

  /** attachShadow_ and buildShadowDom_ describe the same placeholder, both
      read from getShadowBlockInfoFromType_: the DOM's type is the shadow
      block's type, and its single field is the block's single field. A
      primitive type's placeholder does not depend on the workspace; any
      other type gets a variable getter on the default variable. */
  lemma PlaceholderAgreement(t: string, v: string, id: BlockId)
    ensures var c := NewShadow(t, v, id);
      c.id == id && c.shadow && |c.fields| == 1 &&
      forall f :: f in c.fields ==>
        BuildShadowDom(t, v) == Element("shadow", map["type" := c.btype], [Element("field", map["name" := f], [Text(c.fields[f])])])
    ensures IsPrimitive(t) ==> forall w :: NewShadow(t, v, id) == NewShadow(t, w, id)
    ensures !IsPrimitive(t) ==> NewShadow(t, v, id) == Child(id, "variables_get", true, map["VAR" := v])
  {
  }

  /** createArgumentReporter_. */
  function NewReporter(a: Arg, id: BlockId): Child {
    Child(id, ReporterType(a.typ), true, map["VALUE" := a.name])
  }

  /** createArgumentEditor_. */
  function NewEditor(a: Arg, id: BlockId): Child {
    Child(id, EditorType(a.typ), true, map["TEXT" := a.name])
  }

  function SetField(c: Child, fieldName: string, value: string): Child {
    c.(fields := c.fields[fieldName := value])
  }

  /** The entry the strategies read: `connectionMap[arg.id]`, looked up by
      the argument's id although the map is keyed by input name. */
  function OldInfo(cm: ConnectionMap, key: string): SaveInfo {
    if key in cm && cm[key].Some? then cm[key].value else SaveInfo(None, None)
  }

  /** The caller and definition strategies null the entry of the new input
      when they reuse an old block; the declaration strategy never does. */
  function CmStep(role: Role, a: Arg, cm: ConnectionMap): ConnectionMap {
    if role != Declaration && OldInfo(cm, a.id).block.Some? then cm[InputName(a) := None] else cm
  }

  datatype Step = Step(input: Input, cm: ConnectionMap, nextId: BlockId)

  /** One argument: create its input, then populate it by role.
      `nextId` is the id the workspace gives the next new block. */
  function Populate(role: Role, a: Arg, cm: ConnectionMap, nextId: BlockId, defaultVariableId: string): Step {
    var inp := NewValueInput(a);
    var prev := OldInfo(cm, a.id);
    match role
    case Caller =>
      if prev.block.Some? then
        var shadow := if prev.shadow.Some? then prev.shadow.value else BuildShadowDom(a.typ, defaultVariableId);
        Step(inp.(target := prev.block, shadowDom := Some(shadow)), CmStep(role, a, cm), nextId)
      else
        Step(inp.(target := Some(NewShadow(a.typ, defaultVariableId, nextId))), CmStep(role, a, cm), nextId + 1)
    case Definition =>
      if prev.block.Some? then
        Step(inp.(target := Some(SetField(prev.block.value, "VALUE", a.name))), CmStep(role, a, cm), nextId)
      else
        Step(inp.(target := Some(NewReporter(a, nextId))), CmStep(role, a, cm), nextId + 1)
    case Declaration =>
      Step(inp.(target := Some(NewEditor(a, nextId))), CmStep(role, a, cm), nextId + 1)
  }

  datatype Built = Built(inputs: seq<Input>, cm: ConnectionMap, nextId: BlockId)

  /** The argument inputs, in argument order, threading the map and the
      block-id counter through the strategy calls. */
  function PopulateAll(role: Role, args: seq<Arg>, cm: ConnectionMap, nextId: BlockId, defaultVariableId: string): (b: Built)
    ensures |b.inputs| == |args| && b.nextId >= nextId
    decreases |args|
  {
    if args == [] then Built([], cm, nextId)
    else
      var s := Populate(role, args[0], cm, nextId, defaultVariableId);
      var rest := PopulateAll(role, args[1..], s.cm, s.nextId, defaultVariableId);
      Built([s.input] + rest.inputs, rest.cm, rest.nextId)
  }

  /** The JavaScript reads `connectionMap[arg.id]['block']`, which throws on
      an entry an earlier argument has nulled. This holds when no lookup
      meets such an entry. */
  predicate LookupsSafe(role: Role, args: seq<Arg>, cm: ConnectionMap)
    decreases |args|
  {
    args == [] ||
    ((args[0].id in cm ==> cm[args[0].id].Some?) &&
     LookupsSafe(role, args[1..], CmStep(role, args[0], cm)))
  }

  /** No argument's id is the input name of an earlier argument, so no
      lookup sees an entry written while populating earlier arguments. */
  predicate ClashFree(args: seq<Arg>) {
    forall i, j :: 0 <= j < i < |args| ==> InputName(args[j]) != args[i].id
  }

  /** Argument keys as the display reconciler needs them: distinct input
      names, none of them STACK, and no id equal to another argument's input
      name (unique ids, as a signature's are). */
  predicate WellKeyed(args: seq<Arg>) {
    (forall i, j :: 0 <= i < j < |args| ==> InputName(args[i]) != InputName(args[j])) &&
    (forall i, j :: 0 <= i < |args| && 0 <= j < |args| && i != j ==> InputName(args[j]) != args[i].id) &&
    (forall i :: 0 <= i < |args| ==> InputName(args[i]) != STACK)
  }

  lemma {:induction false} ClashFreeTail(args: seq<Arg>)
    requires ClashFree(args) && args != []
    ensures ClashFree(args[1..])
  {
    forall i, j | 0 <= j < i < |args[1..]|
      ensures InputName(args[1..][j]) != args[1..][i].id
    {
      assert args[1..][j] == args[j + 1] && args[1..][i] == args[i + 1];
    }
  }

  /** A step leaves every entry alone except the new input's. */
  lemma CmStepOnly(role: Role, a: Arg, cm: ConnectionMap, k: string)
    requires k != InputName(a)
    ensures (k in CmStep(role, a, cm) <==> k in cm) && (k in cm ==> CmStep(role, a, cm)[k] == cm[k])
    ensures OldInfo(CmStep(role, a, cm), k) == OldInfo(cm, k)
  {
  }

  /** The lookups are safe when the map holds no null entry at an argument's
      id and the arguments are clash-free. */
  lemma {:induction false} ClashFreeLookupsSafe(role: Role, args: seq<Arg>, cm: ConnectionMap)
    requires ClashFree(args)
    requires forall i :: 0 <= i < |args| && args[i].id in cm ==> cm[args[i].id].Some?
    ensures LookupsSafe(role, args, cm)
    decreases |args|
  {
    if args != [] {
      var cm' := CmStep(role, args[0], cm);
      ClashFreeTail(args);
      forall i | 0 <= i < |args[1..]| && args[1..][i].id in cm'
        ensures cm'[args[1..][i].id].Some?
      {
        assert args[1..][i] == args[i + 1];
        CmStepOnly(role, args[0], cm, args[i + 1].id);
      }
      ClashFreeLookupsSafe(role, args[1..], cm');
    }
  }

  lemma WellKeyedClashFree(args: seq<Arg>)
    requires WellKeyed(args)
    ensures ClashFree(args)
  {
  }

  /** The argument inputs come out one per argument, in argument order,
      each named by InputName, with the type's check and a block attached;
      fresh blocks take ids from the counter. */
  lemma {:induction false} PopulateAllShape(role: Role, args: seq<Arg>, cm: ConnectionMap, nextId: BlockId, v: string)
    ensures var b := PopulateAll(role, args, cm, nextId, v);
      |b.inputs| == |args| && b.nextId >= nextId &&
      forall i :: 0 <= i < |args| ==>
        b.inputs[i].name == InputName(args[i]) && b.inputs[i].kind == ValueInput &&
        b.inputs[i].check == Check(args[i].typ) && b.inputs[i].fieldRow == [] &&
        b.inputs[i].target.Some?
    decreases |args|
  {
    if args != [] {
      var s := Populate(role, args[0], cm, nextId, v);
      PopulateShape(role, args[0], cm, nextId, v);
      var rest := PopulateAll(role, args[1..], s.cm, s.nextId, v);
      PopulateAllShape(role, args[1..], s.cm, s.nextId, v);
      var b := PopulateAll(role, args, cm, nextId, v);
      assert b.inputs == [s.input] + rest.inputs && b.nextId == rest.nextId;
      forall i | 0 <= i < |args|
        ensures b.inputs[i].name == InputName(args[i]) && b.inputs[i].kind == ValueInput &&
          b.inputs[i].check == Check(args[i].typ) && b.inputs[i].fieldRow == [] &&
          b.inputs[i].target.Some?
      {
        if i > 0 {
          assert b.inputs[i] == rest.inputs[i - 1];
          assert args[1..][i - 1] == args[i];
        }
      }
    }
  }

  /** One strategy call builds the argument's value input and attaches a block. */
  lemma PopulateShape(role: Role, a: Arg, cm: ConnectionMap, nextId: BlockId, v: string)
    ensures var s := Populate(role, a, cm, nextId, v);
      s.input.name == InputName(a) && s.input.kind == ValueInput &&
      s.input.check == Check(a.typ) && s.input.fieldRow == [] &&
      s.input.target.Some? && s.nextId >= nextId
  {
  }

  /** Argument i's input is filled from the entry saved under its id in the
      ORIGINAL map (no earlier argument can have consumed it):
      - caller: the saved block is reattached with the saved shadow DOM, or a
        freshly built one; with none saved, a new placeholder shadow;
      - definition: the saved reporter is reused with VALUE set to the
        argument's name; otherwise a new reporter;
      - declaration: always a new editor showing the name. */
  lemma {:induction false} PopulateAllArg(role: Role, args: seq<Arg>, cm: ConnectionMap, nextId: BlockId, v: string, i: nat)
    requires i < |args|
    requires forall j :: 0 <= j < i ==> InputName(args[j]) != args[i].id
    ensures var b := PopulateAll(role, args, cm, nextId, v);
      var inp := b.inputs[i];
      var prev := OldInfo(cm, args[i].id);
      |b.inputs| == |args| && inp.target.Some? &&
      (role == Caller && prev.block.Some? ==>
        inp.target == prev.block &&
        inp.shadowDom == Some(if prev.shadow.Some? then prev.shadow.value else BuildShadowDom(args[i].typ, v))) &&
      (role == Caller && prev.block.None? ==>
        inp.target.value == NewShadow(args[i].typ, v, inp.target.value.id) && inp.shadowDom == None &&
        nextId <= inp.target.value.id < b.nextId) &&
      (role == Definition && prev.block.Some? ==>
        inp.target == Some(SetField(prev.block.value, "VALUE", args[i].name))) &&
      (role == Definition && prev.block.None? ==>
        inp.target.value == NewReporter(args[i], inp.target.value.id) &&
        nextId <= inp.target.value.id < b.nextId) &&
      (role == Declaration ==>
        inp.target.value == NewEditor(args[i], inp.target.value.id) &&
        nextId <= inp.target.value.id < b.nextId)
    decreases |args|
  {
    var s := Populate(role, args[0], cm, nextId, v);
    var rest := PopulateAll(role, args[1..], s.cm, s.nextId, v);
    assert PopulateAll(role, args, cm, nextId, v) == Built([s.input] + rest.inputs, rest.cm, rest.nextId);
    if i == 0 {
      assert ([s.input] + rest.inputs)[0] == s.input;
    } else {
      assert ([s.input] + rest.inputs)[i] == rest.inputs[i - 1];
      assert args[1..][i - 1] == args[i];
      forall j | 0 <= j < i - 1 ensures InputName(args[1..][j]) != args[1..][i - 1].id {
        assert args[1..][j] == args[j + 1];
      }
      CmStepOnly(role, args[0], cm, args[i].id);
      PopulateAllArg(role, args[1..], s.cm, s.nextId, v, i - 1);
    }
  }

  /** An entry is left as it was when every argument whose input has that
      name found no block under its own id. */
  lemma {:induction false} PopulateAllKeepsEntry(role: Role, args: seq<Arg>, cm: ConnectionMap, nextId: BlockId, v: string, k: string)
    requires ClashFree(args)
    requires forall j :: 0 <= j < |args| && InputName(args[j]) == k ==> OldInfo(cm, args[j].id).block.None?
    ensures var c := PopulateAll(role, args, cm, nextId, v).cm;
      (k in c <==> k in cm) && (k in cm ==> c[k] == cm[k])
    decreases |args|
  {
    if args != [] {
      var s := Populate(role, args[0], cm, nextId, v);
      ClashFreeTail(args);
      forall j | 0 <= j < |args[1..]| && InputName(args[1..][j]) == k
        ensures OldInfo(s.cm, args[1..][j].id).block.None?
      {
        assert args[1..][j] == args[j + 1];
        CmStepOnly(role, args[0], cm, args[j + 1].id);
      }
      PopulateAllKeepsEntry(role, args[1..], s.cm, s.nextId, v, k);
    }
  }

  /** A caller or definition that reuses the block saved under argument i's
      id consumes the entry of argument i's input: it ends up null. */
  lemma {:induction false} PopulateAllConsumes(role: Role, args: seq<Arg>, cm: ConnectionMap, nextId: BlockId, v: string, i: nat)
    requires ClashFree(args) && i < |args| && role != Declaration
    requires forall j :: 0 <= j < |args| && j != i ==> InputName(args[j]) != InputName(args[i])
    requires OldInfo(cm, args[i].id).block.Some?
    ensures var c := PopulateAll(role, args, cm, nextId, v).cm;
      InputName(args[i]) in c && c[InputName(args[i])] == None
    decreases |args|
  {
    var s := Populate(role, args[0], cm, nextId, v);
    ClashFreeTail(args);
    if i == 0 {
      assert InputName(args[0]) in s.cm && s.cm[InputName(args[0])] == None;
      var k := InputName(args[0]);
      forall j | 0 <= j < |args[1..]|
        ensures InputName(args[1..][j]) != k
      {
        assert args[1..][j] == args[j + 1];
      }
      PopulateAllKeepsEntry(role, args[1..], s.cm, s.nextId, v, k);
    } else {
      assert args[1..][i - 1] == args[i];
      CmStepOnly(role, args[0], cm, args[i].id);
      forall j | 0 <= j < |args[1..]| && j != i - 1
        ensures InputName(args[1..][j]) != InputName(args[1..][i - 1])
      {
        assert args[1..][j] == args[j + 1];
      }
      PopulateAllConsumes(role, args[1..], s.cm, s.nextId, v, i - 1);
    }
  }

  /** moveInputBefore(name, null): the first input with that name goes last. */
  function FirstIndex(inputs: seq<Input>, name: string): (k: nat)
    ensures k <= |inputs|
    ensures k < |inputs| ==> inputs[k].name == name
    ensures forall j :: 0 <= j < k ==> inputs[j].name != name
    decreases |inputs|
  {
    if inputs == [] then 0
    else if inputs[0].name == name then 0
    else 1 + FirstIndex(inputs[1..], name)
  }

  function MoveToEnd(inputs: seq<Input>, name: string): seq<Input> {
    var k := FirstIndex(inputs, name);
    if k == |inputs| then inputs else inputs[..k] + inputs[k + 1..] + [inputs[k]]
  }

  /** createAllInputs_: the title, the function label, the argument inputs,
      then STACK moved back to the end when the block has statements. */
  function CreateAll(role: Role, name: string, args: seq<Arg>, hasStatements: bool,
                     base: seq<Input>, cm: ConnectionMap, nextId: BlockId, v: string): Built
  {
    var b := PopulateAll(role, args, cm, nextId, v);
    var inputs := base + [TitleInput(role), LabelInput(role, name)] + b.inputs;
    Built(if hasStatements then MoveToEnd(inputs, STACK) else inputs, b.cm, b.nextId)
  }

  /** moveInputBefore and removeInput look for the first input with the
      name: the position is found when nothing earlier has it. */
  lemma {:induction false} FirstIndexAt(inputs: seq<Input>, name: string, k: nat)
    requires k < |inputs| && inputs[k].name == name
    requires forall m :: 0 <= m < k ==> inputs[m].name != name
    ensures FirstIndex(inputs, name) == k
    decreases k
  {
    if k > 0 {
      assert inputs[1..][k - 1] == inputs[k];
      forall m | 0 <= m < k - 1 ensures inputs[1..][m].name != name {
        assert inputs[1..][m] == inputs[m + 1];
      }
      FirstIndexAt(inputs[1..], name, k - 1);
    }
  }

  /** moveInputBefore(name, null) puts the input it finds last. */
  lemma MoveToEndLast(inputs: seq<Input>, name: string)
    requires exists i :: 0 <= i < |inputs| && inputs[i].name == name
    ensures |MoveToEnd(inputs, name)| == |inputs|
    ensures MoveToEnd(inputs, name)[|inputs| - 1].name == name
  {
    var i :| 0 <= i < |inputs| && inputs[i].name == name;
    assert FirstIndex(inputs, name) <= i;
  }

  // ---------------------------------------------------------------------
  // deleteShadows_

  predicate ShadowEntry(e: Option<SaveInfo>) {
    e.Some? && e.value.block.Some? && e.value.block.value.shadow
  }

  function DeleteShadows(cm: ConnectionMap): ConnectionMap {
    map k | k in cm :: if ShadowEntry(cm[k]) then None else cm[k]
  }

  function ShadowIds(cm: ConnectionMap): set<BlockId> {
    set k | k in cm && ShadowEntry(cm[k]) :: cm[k].value.block.value.id
  }

  // ---------------------------------------------------------------------
  // updateDisplay_

  datatype Outcome = Outcome(inputs: seq<Input>, cm: ConnectionMap, nextId: BlockId, disposed: set<BlockId>)

  /** The four steps of updateDisplay_ in order. */
  function Reconcile(role: Role, name: string, args: seq<Arg>, hasStatements: bool,
                     inputs: seq<Input>, nextId: BlockId, v: string): Outcome
  {
    var saved := SavedConnections(inputs);
    var b := CreateAll(role, name, args, hasStatements, KeepStack(DisconnectAll(inputs)), saved, nextId, v);
    Outcome(b.inputs, DeleteShadows(b.cm), b.nextId, ShadowIds(b.cm))
  }

  /** Position of argument i's input after updateDisplay_. */
  function ArgSlot(hasStatements: bool, inputs: seq<Input>, i: nat): nat {
    (if hasStatements then 0 else |KeepStack(inputs)|) + 2 + i
  }

  lemma FirstIndexAbsent(inputs: seq<Input>, name: string)
    requires forall j :: 0 <= j < |inputs| ==> inputs[j].name != name
    ensures FirstIndex(inputs, name) == |inputs|
  {
  }

  /** The title, the label and the argument inputs are never named STACK. */
  lemma NoStackInRebuilt(role: Role, name: string, P: seq<Input>)
    requires forall j :: 0 <= j < |P| ==> P[j].name != STACK
    ensures forall j :: 0 <= j < |[TitleInput(role), LabelInput(role, name)] + P| ==>
      ([TitleInput(role), LabelInput(role, name)] + P)[j].name != STACK
  {
    var TL := [TitleInput(role), LabelInput(role, name)];
    forall j | 0 <= j < |TL + P| ensures (TL + P)[j].name != STACK {
      if j >= 2 { assert (TL + P)[j] == P[j - 2]; }
    }
  }

  lemma MoveKeptStack(role: Role, name: string, args: seq<Arg>, base: seq<Input>,
                       cm: ConnectionMap, nextId: BlockId, v: string)
    requires |base| == 1 && base[0].name == STACK
    ensures CreateAll(role, name, args, true, base, cm, nextId, v).inputs ==
      [TitleInput(role), LabelInput(role, name)] + PopulateAll(role, args, cm, nextId, v).inputs + base
  {
    var P := PopulateAll(role, args, cm, nextId, v).inputs;
    var TL := [TitleInput(role), LabelInput(role, name)];
    var all := base + TL + P;
    assert all[0] == base[0];
    assert FirstIndex(all, STACK) == 0;
    assert all[1..] == TL + P;
    assert MoveToEnd(all, STACK) == all[..0] + all[1..] + [all[0]];
    assert all[..0] + all[1..] + [all[0]] == TL + P + base;
  }

  lemma MoveNoStack(role: Role, name: string, args: seq<Arg>, cm: ConnectionMap, nextId: BlockId, v: string)
    requires forall j :: 0 <= j < |args| ==> InputName(args[j]) != STACK
    ensures CreateAll(role, name, args, true, [], cm, nextId, v).inputs ==
      [TitleInput(role), LabelInput(role, name)] + PopulateAll(role, args, cm, nextId, v).inputs
  {
    var P := PopulateAll(role, args, cm, nextId, v).inputs;
    PopulateAllShape(role, args, cm, nextId, v);
    var TL := [TitleInput(role), LabelInput(role, name)];
    NoStackInRebuilt(role, name, P);
    assert [] + TL + P == TL + P;
    FirstIndexAbsent(TL + P, STACK);
  }

  /** createAllInputs_ on the list removeAllInputs_ left: the STACK input,
      if any, ends up after the argument inputs when the block has
      statements. */
  lemma CreateAllLayout(role: Role, name: string, args: seq<Arg>, hasStatements: bool,
                        base: seq<Input>, cm: ConnectionMap, nextId: BlockId, v: string)
    requires |base| <= 1 && (base != [] ==> base[0].name == STACK)
    requires forall j :: 0 <= j < |args| ==> InputName(args[j]) != STACK
    ensures var P := PopulateAll(role, args, cm, nextId, v).inputs;
      var TL := [TitleInput(role), LabelInput(role, name)];
      CreateAll(role, name, args, hasStatements, base, cm, nextId, v).inputs ==
        if hasStatements then TL + P + base else base + TL + P
  {
    if hasStatements {
      if base == [] {
        MoveNoStack(role, name, args, cm, nextId, v);
        assert [TitleInput(role), LabelInput(role, name)] + PopulateAll(role, args, cm, nextId, v).inputs + base ==
          [TitleInput(role), LabelInput(role, name)] + PopulateAll(role, args, cm, nextId, v).inputs;
      } else {
        MoveKeptStack(role, name, args, base, cm, nextId, v);
      }
    }
  }

  /** The order createAllInputs_ leaves: title, function label, the
      argument inputs P, and the kept STACK input K last when the block has
      statements (first otherwise). */
  function Layout(role: Role, name: string, P: seq<Input>, K: seq<Input>, hasStatements: bool): seq<Input> {
    var TL := [TitleInput(role), LabelInput(role, name)];
    if hasStatements then TL + P + K else K + TL + P
  }

  lemma LayoutSlots(role: Role, name: string, P: seq<Input>, K: seq<Input>, hasStatements: bool)
    ensures var L := Layout(role, name, P, K, hasStatements);
      |L| == |K| + 2 + |P| &&
      forall i :: 0 <= i < |P| ==> L[(if hasStatements then 0 else |K|) + 2 + i] == P[i]
  {
    var TL := [TitleInput(role), LabelInput(role, name)];
    assert Layout(role, name, P, K, hasStatements) == if hasStatements then TL + P + K else K + TL + P;
    SlotsOf(TL, P, K, hasStatements);
  }

  lemma SlotsOf(TL: seq<Input>, P: seq<Input>, K: seq<Input>, hasStatements: bool)
    requires |TL| == 2
    ensures var L := if hasStatements then TL + P + K else K + TL + P;
      |L| == |K| + 2 + |P| &&
      forall i :: 0 <= i < |P| ==> L[(if hasStatements then 0 else |K|) + 2 + i] == P[i]
  {
    if hasStatements {
      forall i | 0 <= i < |P| ensures (TL + P + K)[2 + i] == P[i] { }
    } else {
      forall i | 0 <= i < |P| ensures (K + TL + P)[|K| + 2 + i] == P[i] { }
    }
  }

  /** updateDisplay_ rebuilds the inputs in the order Layout gives, from the
      argument inputs populated against the saved connections and the STACK
      input removeAllInputs_ kept. */
  lemma ReconcileLayout(role: Role, name: string, args: seq<Arg>, hasStatements: bool,
                        inputs: seq<Input>, nextId: BlockId, v: string)
    requires forall j :: 0 <= j < |args| ==> InputName(args[j]) != STACK
    ensures var o := Reconcile(role, name, args, hasStatements, inputs, nextId, v);
      var K := KeepStack(inputs);
      o.inputs == Layout(role, name, PopulateAll(role, args, SavedConnections(inputs), nextId, v).inputs, K, hasStatements) &&
      |K| <= 1 && (K != [] ==> K[0].name == STACK) &&
      (K != [] <==> HasStack(inputs))
  {
    var saved := SavedConnections(inputs);
    KeepStackDisconnected(inputs);
    KeepStackSpec(inputs);
    CreateAllLayout(role, name, args, hasStatements, KeepStack(inputs), saved, nextId, v);
  }

  /** Argument i's input sits at ArgSlot(i), named by InputName, with the
      type's check and a block attached. */
  lemma ReconcileArgSlots(role: Role, name: string, args: seq<Arg>, hasStatements: bool,
                          inputs: seq<Input>, nextId: BlockId, v: string)
    requires forall j :: 0 <= j < |args| ==> InputName(args[j]) != STACK
    ensures var o := Reconcile(role, name, args, hasStatements, inputs, nextId, v);
      var P := PopulateAll(role, args, SavedConnections(inputs), nextId, v).inputs;
      |o.inputs| == |KeepStack(inputs)| + 2 + |args| &&
      forall i :: 0 <= i < |args| ==>
        o.inputs[ArgSlot(hasStatements, inputs, i)] == P[i] &&
        P[i].name == InputName(args[i]) && P[i].kind == ValueInput &&
        P[i].check == Check(args[i].typ) && P[i].target.Some?
  {
    var saved := SavedConnections(inputs);
    var P := PopulateAll(role, args, saved, nextId, v).inputs;
    var K := KeepStack(inputs);
    ReconcileLayout(role, name, args, hasStatements, inputs, nextId, v);
    PopulateAllShape(role, args, saved, nextId, v);
    ArgSlotsOfLayout(role, name, args, P, K, hasStatements);
  }

  /** ReconcileArgSlots on the layout alone. */
  lemma ArgSlotsOfLayout(role: Role, name: string, args: seq<Arg>, P: seq<Input>, K: seq<Input>, hasStatements: bool)
    requires |P| == |args|
    requires forall i :: 0 <= i < |args| ==>
      P[i].name == InputName(args[i]) && P[i].kind == ValueInput &&
      P[i].check == Check(args[i].typ) && P[i].target.Some?
    ensures var L := Layout(role, name, P, K, hasStatements);
      |L| == |K| + 2 + |args| &&
      forall i :: 0 <= i < |args| ==>
        L[(if hasStatements then 0 else |K|) + 2 + i] == P[i] &&
        P[i].name == InputName(args[i]) && P[i].kind == ValueInput &&
        P[i].check == Check(args[i].typ) && P[i].target.Some?
  {
    LayoutSlots(role, name, P, K, hasStatements);
  }

  /** When the block has statements and a STACK input, STACK is the last
      input after updateDisplay_. */
  lemma StackLast(role: Role, name: string, args: seq<Arg>, inputs: seq<Input>, nextId: BlockId, v: string)
    requires forall j :: 0 <= j < |args| ==> InputName(args[j]) != STACK
    requires HasStack(inputs)
    ensures var o := Reconcile(role, name, args, true, inputs, nextId, v);
      |o.inputs| > 0 && o.inputs[|o.inputs| - 1].name == STACK
  {
    ReconcileLayout(role, name, args, true, inputs, nextId, v);
    var P := PopulateAll(role, args, SavedConnections(inputs), nextId, v).inputs;
    var K := KeepStack(inputs);
    assert Layout(role, name, P, K, true)[|K| + 2 + |P| - 1] == K[0];
  }

  // ---------------------------------------------------------------------
  // Re-running updateDisplay_ with an unchanged signature

  /** Inputs with no saved connection add nothing to the map, wherever they sit. */
  lemma {:induction false} SavedAppendUnsaved(x: seq<Input>, y: seq<Input>)
    requires forall j :: 0 <= j < |y| ==> !Saved(y[j])
    ensures SavedConnections(x + y) == SavedConnections(x)
    decreases |y|
  {
    if y == [] {
      assert x + y == x;
    } else {
      var n := |y| - 1;
      assert (x + y)[..|x + y| - 1] == x + y[..n];
      SavedAppendUnsaved(x, y[..n]);
    }
  }

  lemma {:induction false} SavedPrependUnsaved(x: seq<Input>, y: seq<Input>)
    requires forall j :: 0 <= j < |x| ==> !Saved(x[j])
    ensures SavedConnections(x + y) == SavedConnections(y)
    decreases |y|
  {
    if y == [] {
      assert x + y == [] + x;
      SavedAppendUnsaved([], x);
    } else {
      var n := |y| - 1;
      assert (x + y)[..|x + y| - 1] == x + y[..n];
      assert y[..n] == y[..|y| - 1];
      SavedPrependUnsaved(x, y[..n]);
    }
  }

  /** The map saved from the argument inputs alone: one entry per argument,
      under its input name, holding that input's block and shadow. */
  lemma ArgInputsSaved(role: Role, args: seq<Arg>, cm: ConnectionMap, nextId: BlockId, v: string)
    requires WellKeyed(args)
    ensures var P := PopulateAll(role, args, cm, nextId, v).inputs;
      var saved := SavedConnections(P);
      (forall k :: k in saved <==> exists j :: 0 <= j < |args| && InputName(args[j]) == k) &&
      forall j :: 0 <= j < |args| ==>
        saved[InputName(args[j])] == Some(SaveInfo(P[j].shadowDom, P[j].target))
  {
    var P := PopulateAll(role, args, cm, nextId, v).inputs;
    PopulateAllShape(role, args, cm, nextId, v);
    SavedConnectionsSpec(P);
    var saved := SavedConnections(P);
    forall j | 0 <= j < |args|
      ensures saved[InputName(args[j])] == Some(SaveInfo(P[j].shadowDom, P[j].target))
    {
      assert Saved(P[j]) && P[j].name == InputName(args[j]);
      forall q | j < q < |P| ensures P[q].name != P[j].name {
        assert P[q].name == InputName(args[q]);
      }
    }
    forall k ensures k in saved <==> exists j :: 0 <= j < |args| && InputName(args[j]) == k {
      if k in saved {
        var i :| 0 <= i < |P| && Saved(P[i]) && P[i].name == k;
        assert InputName(args[i]) == k;
      }
      if exists j :: 0 <= j < |args| && InputName(args[j]) == k {
        var j :| 0 <= j < |args| && InputName(args[j]) == k;
        assert Saved(P[j]) && P[j].name == k;
      }
    }
  }

  /** The saved connections of a rebuilt layout are those of its argument
      inputs: title, label and STACK save nothing. */
  lemma SavedOfLayout(role: Role, name: string, args: seq<Arg>, hasStatements: bool,
                      inputs: seq<Input>, nextId: BlockId, v: string)
    requires WellKeyed(args)
    ensures var o := Reconcile(role, name, args, hasStatements, inputs, nextId, v);
      SavedConnections(o.inputs) ==
        SavedConnections(PopulateAll(role, args, SavedConnections(inputs), nextId, v).inputs)
  {
    ReconcileLayout(role, name, args, hasStatements, inputs, nextId, v);
    var P := PopulateAll(role, args, SavedConnections(inputs), nextId, v).inputs;
    SavedOfRebuilt(role, name, P, KeepStack(inputs), hasStatements);
  }

  lemma SavedOfRebuilt(role: Role, name: string, P: seq<Input>, K: seq<Input>, hasStatements: bool)
    requires |K| <= 1 && (K != [] ==> K[0].name == STACK)
    ensures SavedConnections(Layout(role, name, P, K, hasStatements)) == SavedConnections(P)
  {
    var TL := [TitleInput(role), LabelInput(role, name)];
    assert forall j :: 0 <= j < |TL| ==> !Saved(TL[j]);
    assert forall j :: 0 <= j < |K| ==> !Saved(K[j]);
    if hasStatements {
      assert Layout(role, name, P, K, hasStatements) == (TL + P) + K;
      SavedAppendUnsaved(TL + P, K);
      SavedPrependUnsaved(TL, P);
    } else {
      assert Layout(role, name, P, K, hasStatements) == (K + TL) + P;
      forall j | 0 <= j < |K + TL| ensures !Saved((K + TL)[j]) {
        if j < |K| { assert (K + TL)[j] == K[j]; } else { assert (K + TL)[j] == TL[j - |K|]; }
      }
      SavedPrependUnsaved(K + TL, P);
    }
  }

  /** removeAllInputs_ on a rebuilt list keeps its STACK input. */
  lemma KeepStackOfLayout(front: seq<Input>, K: seq<Input>, hasStatements: bool)
    requires !HasStack(front)
    requires |K| <= 1 && (K != [] ==> K[0].name == STACK)
    ensures KeepStack(if hasStatements then front + K else K + front) == K
  {
    if hasStatements {
      if K == [] {
        assert front + K == front;
        KeepStackSpec(front);
      } else {
        LastStackConcat(front, K);
      }
    } else {
      LastStackAppend(K, front);
      if K != [] {
        assert LastStack(K) == Some(K[0]);
      }
    }
  }

  /** updateDisplay_ keeps the STACK input it found: running
      removeAllInputs_ again on the rebuilt list keeps the same one. */
  lemma RebuiltKeepStack(role: Role, name: string, args: seq<Arg>, hasStatements: bool,
                         inputs: seq<Input>, nextId: BlockId, v: string)
    requires forall j :: 0 <= j < |args| ==> InputName(args[j]) != STACK
    ensures KeepStack(Reconcile(role, name, args, hasStatements, inputs, nextId, v).inputs) == KeepStack(inputs)
  {
    ReconcileLayout(role, name, args, hasStatements, inputs, nextId, v);
    var P := PopulateAll(role, args, SavedConnections(inputs), nextId, v).inputs;
    PopulateAllShape(role, args, SavedConnections(inputs), nextId, v);
    KeepStackOfRebuilt(role, name, P, KeepStack(inputs), hasStatements);
  }

  lemma KeepStackOfRebuilt(role: Role, name: string, P: seq<Input>, K: seq<Input>, hasStatements: bool)
    requires forall j :: 0 <= j < |P| ==> P[j].name != STACK
    requires |K| <= 1 && (K != [] ==> K[0].name == STACK)
    ensures KeepStack(Layout(role, name, P, K, hasStatements)) == K
  {
    var TL := [TitleInput(role), LabelInput(role, name)];
    NoStackInRebuilt(role, name, P);
    assert !HasStack(TL + P);
    assert TL + P + K == (TL + P) + K;
    assert K + TL + P == K + (TL + P);
    KeepStackOfLayout(TL + P, K, hasStatements);
  }

  /** Argument i's entry in the map saved from a rebuilt block. */
  lemma RebuiltEntry(role: Role, name: string, args: seq<Arg>, hasStatements: bool,
                     inputs: seq<Input>, nextId: BlockId, v: string, i: nat)
    requires WellKeyed(args) && i < |args|
    ensures var o1 := Reconcile(role, name, args, hasStatements, inputs, nextId, v);
      var saved := SavedConnections(o1.inputs);
      var slot := ArgSlot(hasStatements, inputs, i);
      slot < |o1.inputs| && o1.inputs[slot].target.Some? &&
      InputName(args[i]) in saved &&
      saved[InputName(args[i])] == Some(SaveInfo(o1.inputs[slot].shadowDom, o1.inputs[slot].target)) &&
      OldInfo(saved, args[i].id) ==
        (if IsPrimitive(args[i].typ) then SaveInfo(o1.inputs[slot].shadowDom, o1.inputs[slot].target)
         else SaveInfo(None, None))
  {
    ReconcileArgSlot(role, name, args, hasStatements, inputs, nextId, v, i);
    PopulateAllShape(role, args, SavedConnections(inputs), nextId, v);
    SavedOfLayout(role, name, args, hasStatements, inputs, nextId, v);
    ArgInputsSaved(role, args, SavedConnections(inputs), nextId, v);
    var o1 := Reconcile(role, name, args, hasStatements, inputs, nextId, v);
    var saved := SavedConnections(o1.inputs);
    assert InputName(args[i]) in saved;
    if !IsPrimitive(args[i].typ) {
      assert |InputName(args[i])| > |args[i].id|;
      assert forall j :: 0 <= j < |args| ==> InputName(args[j]) != args[i].id;
    }
  }

  /** Facts shared by the re-run lemmas: the layout repeats, and argument
      i's lookup reads the input built for it by the first run. */
  lemma RerunCommon(role: Role, name: string, args: seq<Arg>, hasStatements: bool,
                    inputs: seq<Input>, nextId: BlockId, v: string, i: nat)
    requires WellKeyed(args) && i < |args|
    ensures var o1 := Reconcile(role, name, args, hasStatements, inputs, nextId, v);
      var o2 := Reconcile(role, name, args, hasStatements, o1.inputs, o1.nextId, v);
      var saved := SavedConnections(o1.inputs);
      var slot := ArgSlot(hasStatements, inputs, i);
      ArgSlot(hasStatements, o1.inputs, i) == slot &&
      slot < |o1.inputs| && slot < |o2.inputs| &&
      o2.inputs[slot] == PopulateAll(role, args, saved, o1.nextId, v).inputs[i]
  {
    var o1 := Reconcile(role, name, args, hasStatements, inputs, nextId, v);
    var slot := ArgSlot(hasStatements, inputs, i);
    RebuiltKeepStack(role, name, args, hasStatements, inputs, nextId, v);
    assert ArgSlot(hasStatements, o1.inputs, i) == slot;
    ReconcileArgSlot(role, name, args, hasStatements, inputs, nextId, v, i);
    ReconcileArgSlot(role, name, args, hasStatements, o1.inputs, o1.nextId, v, i);
  }

  /** ReconcileArgSlots for one argument. */
  lemma ReconcileArgSlot(role: Role, name: string, args: seq<Arg>, hasStatements: bool,
                         inputs: seq<Input>, nextId: BlockId, v: string, i: nat)
    requires forall j :: 0 <= j < |args| ==> InputName(args[j]) != STACK
    requires i < |args|
    ensures var o := Reconcile(role, name, args, hasStatements, inputs, nextId, v);
      var slot := ArgSlot(hasStatements, inputs, i);
      slot < |o.inputs| &&
      o.inputs[slot] == PopulateAll(role, args, SavedConnections(inputs), nextId, v).inputs[i]
  {
    ReconcileArgSlots(role, name, args, hasStatements, inputs, nextId, v);
  }

  /** Re-running the caller's reconciler with an unchanged signature keeps
      the block attached to every boolean, string or number argument, and
      keeps its shadow DOM (building one if the input had none). */
  lemma CallerRerunKeepsPrimitive(name: string, args: seq<Arg>, hasStatements: bool,
                                  inputs: seq<Input>, nextId: BlockId, v: string, i: nat)
    requires WellKeyed(args) && i < |args| && IsPrimitive(args[i].typ)
    ensures var o1 := Reconcile(Caller, name, args, hasStatements, inputs, nextId, v);
      var o2 := Reconcile(Caller, name, args, hasStatements, o1.inputs, o1.nextId, v);
      var slot := ArgSlot(hasStatements, inputs, i);
      ArgSlot(hasStatements, o1.inputs, i) == slot &&
      slot < |o1.inputs| && slot < |o2.inputs| &&
      o2.inputs[slot].target == o1.inputs[slot].target && o1.inputs[slot].target.Some? &&
      o2.inputs[slot].shadowDom ==
        Some(if o1.inputs[slot].shadowDom.Some? then o1.inputs[slot].shadowDom.value
             else BuildShadowDom(args[i].typ, v)) &&
      InputName(args[i]) in o2.cm && o2.cm[InputName(args[i])] == None
  {
    var o1 := Reconcile(Caller, name, args, hasStatements, inputs, nextId, v);
    RerunCommon(Caller, name, args, hasStatements, inputs, nextId, v, i);
    RebuiltEntry(Caller, name, args, hasStatements, inputs, nextId, v, i);
    var saved := SavedConnections(o1.inputs);
    PopulateAllArg(Caller, args, saved, o1.nextId, v, i);
    PopulateAllConsumes(Caller, args, saved, o1.nextId, v, i);
  }

  /** deleteShadows_ disposes exactly the shadow blocks still in the map
      and nulls their entries; every other entry is left as it was. */
  lemma DeleteShadowsSpec(cm: ConnectionMap)
    ensures forall k :: k in DeleteShadows(cm) <==> k in cm
    ensures forall k :: k in cm && ShadowEntry(cm[k]) ==>
      DeleteShadows(cm)[k] == None && cm[k].value.block.value.id in ShadowIds(cm)
    ensures forall k :: k in cm && !ShadowEntry(cm[k]) ==> DeleteShadows(cm)[k] == cm[k]
    ensures forall id :: id in ShadowIds(cm) <==>
      exists k :: k in cm && ShadowEntry(cm[k]) && cm[k].value.block.value.id == id
  {
  }

  /** The declaration strategy never writes to the map. */
  lemma {:induction false} DeclarationKeepsMap(args: seq<Arg>, cm: ConnectionMap, nextId: BlockId, v: string)
    ensures PopulateAll(Declaration, args, cm, nextId, v).cm == cm
    decreases |args|
  {
    if args != [] {
      var s := Populate(Declaration, args[0], cm, nextId, v);
      DeclarationKeepsMap(args[1..], s.cm, s.nextId, v);
    }
  }

  /** Re-running the caller's reconciler with an unchanged signature does not
      find the block of a custom-typed argument: the lookup uses the id,
      the map key is id_type. A fresh placeholder shadow is attached; the
      old block is disposed if it was a shadow and is otherwise left
      disconnected, still in the map. */
  lemma CallerRerunReplacesCustom(name: string, args: seq<Arg>, hasStatements: bool,
                                  inputs: seq<Input>, nextId: BlockId, v: string, i: nat)
    requires WellKeyed(args) && i < |args| && !IsPrimitive(args[i].typ)
    ensures var o1 := Reconcile(Caller, name, args, hasStatements, inputs, nextId, v);
      var o2 := Reconcile(Caller, name, args, hasStatements, o1.inputs, o1.nextId, v);
      var slot := ArgSlot(hasStatements, inputs, i);
      var k := InputName(args[i]);
      ArgSlot(hasStatements, o1.inputs, i) == slot &&
      slot < |o1.inputs| && slot < |o2.inputs| &&
      o1.inputs[slot].target.Some? && o2.inputs[slot].target.Some? &&
      o2.inputs[slot].target.value == NewShadow(args[i].typ, v, o2.inputs[slot].target.value.id) &&
      o1.nextId <= o2.inputs[slot].target.value.id < o2.nextId &&
      k in o2.cm &&
      (o1.inputs[slot].target.value.shadow ==>
        o2.cm[k] == None && o1.inputs[slot].target.value.id in o2.disposed) &&
      (!o1.inputs[slot].target.value.shadow ==>
        o2.cm[k] == Some(SaveInfo(o1.inputs[slot].shadowDom, o1.inputs[slot].target)))
  {
    var o1 := Reconcile(Caller, name, args, hasStatements, inputs, nextId, v);
    RerunCommon(Caller, name, args, hasStatements, inputs, nextId, v, i);
    RebuiltEntry(Caller, name, args, hasStatements, inputs, nextId, v, i);
    var saved := SavedConnections(o1.inputs);
    var k := InputName(args[i]);
    PopulateAllArg(Caller, args, saved, o1.nextId, v, i);
    WellKeyedClashFree(args);
    PopulateAllKeepsEntry(Caller, args, saved, o1.nextId, v, k);
    DeleteShadowsSpec(PopulateAll(Caller, args, saved, o1.nextId, v).cm);
  }

  /** An argument that keeps its id while its type changes from a primitive
      to a custom one: the caller and the definition look the old block up
      by the id, which is still the key of the old primitive input, so the
      old block is attached to the new `id_type` input. The entry they null
      is the new input's name, so the old entry survives, and deleteShadows_
      disposes the block, although it is now attached, when it is a shadow. */
  lemma RetypedArgumentKeepsDisposedBlock(role: Role, name: string, id: string, argName: string,
                                          oldType: string, newType: string, prior: Child,
                                          shadowDom: Option<Node>, nextId: BlockId, v: string)
    requires role != Declaration && IsPrimitive(oldType) && !IsPrimitive(newType) && id != STACK
    ensures var inputs := [TitleInput(role), LabelInput(role, name),
                           Input(id, ValueInput, Check(oldType), [], Some(prior), shadowDom)];
      var a := Arg(id, argName, newType);
      var o := Reconcile(role, name, [a], false, inputs, nextId, v);
      |o.inputs| == 3 && o.inputs[2].name == id + "_" + newType && o.nextId == nextId &&
      o.inputs[2].target.Some? && o.inputs[2].target.value.id == prior.id &&
      (role == Caller ==> o.inputs[2].target == Some(prior)) &&
      (prior.shadow <==> prior.id in o.disposed)
  {
    var inputs := [TitleInput(role), LabelInput(role, name),
                   Input(id, ValueInput, Check(oldType), [], Some(prior), shadowDom)];
    var a := Arg(id, argName, newType);
    var saved := SavedConnections(inputs);
    assert saved == map[id := Some(SaveInfo(shadowDom, Some(prior)))] by {
      assert inputs[..2] == [TitleInput(role), LabelInput(role, name)];
      assert inputs[..2][..1] == [TitleInput(role)];
      assert [TitleInput(role)][..0] == [];
      assert SavedConnections([TitleInput(role)]) == map[];
      assert SavedConnections(inputs[..2]) == map[];
    }
    assert InputName(a) == id + "_" + newType != id;
    assert OldInfo(saved, id) == SaveInfo(shadowDom, Some(prior));
    var s := Populate(role, a, saved, nextId, v);
    assert s.cm == saved[id + "_" + newType := None] && s.nextId == nextId;
    assert s.input.target.value.id == prior.id;
    var b := PopulateAll(role, [a], saved, nextId, v);
    assert [a][0] == a && [a][1..] == [];
    assert PopulateAll(role, [], s.cm, s.nextId, v) == Built([], s.cm, s.nextId);
    assert [s.input] + [] == [s.input];
    assert b == Built([s.input], s.cm, s.nextId);
    KeepStackSpec(DisconnectAll(inputs));
    DisconnectAllSpec(inputs);
    assert KeepStack(DisconnectAll(inputs)) == [];
    assert b.cm[id] == saved[id];
    assert ShadowIds(b.cm) == if prior.shadow then {prior.id} else {};
  }

  /** After the definition's reconciler runs, every argument input holds a
      reporter whose VALUE field shows the argument's name. */
  lemma DefinitionShowsNames(name: string, args: seq<Arg>, hasStatements: bool,
                             inputs: seq<Input>, nextId: BlockId, v: string, i: nat)
    requires WellKeyed(args) && i < |args|
    ensures var o := Reconcile(Definition, name, args, hasStatements, inputs, nextId, v);
      var slot := ArgSlot(hasStatements, inputs, i);
      slot < |o.inputs| && o.inputs[slot].target.Some? &&
      "VALUE" in o.inputs[slot].target.value.fields &&
      o.inputs[slot].target.value.fields["VALUE"] == args[i].name
  {
    ReconcileArgSlot(Definition, name, args, hasStatements, inputs, nextId, v, i);
    PopulateAllArg(Definition, args, SavedConnections(inputs), nextId, v, i);
  }

  /** Re-running the definition's reconciler with an unchanged signature
      keeps the argument reporter of every boolean, string or number
      argument as it is, and consumes its map entry. */
  lemma DefinitionRerunKeepsPrimitive(name: string, args: seq<Arg>, hasStatements: bool,
                                      inputs: seq<Input>, nextId: BlockId, v: string, i: nat)
    requires WellKeyed(args) && i < |args| && IsPrimitive(args[i].typ)
    ensures var o1 := Reconcile(Definition, name, args, hasStatements, inputs, nextId, v);
      var o2 := Reconcile(Definition, name, args, hasStatements, o1.inputs, o1.nextId, v);
      var slot := ArgSlot(hasStatements, inputs, i);
      ArgSlot(hasStatements, o1.inputs, i) == slot &&
      slot < |o1.inputs| && slot < |o2.inputs| &&
      o1.inputs[slot].target.Some? && o2.inputs[slot].target == o1.inputs[slot].target &&
      InputName(args[i]) in o2.cm && o2.cm[InputName(args[i])] == None
  {
    var o1 := Reconcile(Definition, name, args, hasStatements, inputs, nextId, v);
    DefinitionShowsNames(name, args, hasStatements, inputs, nextId, v, i);
    RerunCommon(Definition, name, args, hasStatements, inputs, nextId, v, i);
    RebuiltEntry(Definition, name, args, hasStatements, inputs, nextId, v, i);
    var saved := SavedConnections(o1.inputs);
    PopulateAllArg(Definition, args, saved, o1.nextId, v, i);
    WellKeyedClashFree(args);
    PopulateAllConsumes(Definition, args, saved, o1.nextId, v, i);
    var t := o1.inputs[ArgSlot(hasStatements, inputs, i)].target.value;
    assert t.fields["VALUE" := args[i].name] == t.fields;
  }

  /** Re-running the declaration's reconciler always builds a new editor
      showing the argument's name, and disposes the editor the first run
      attached (it is a shadow and the declaration never claims it). */
  lemma DeclarationRerunReplacesEditors(name: string, args: seq<Arg>, hasStatements: bool,
                                        inputs: seq<Input>, nextId: BlockId, v: string, i: nat)
    requires WellKeyed(args) && i < |args|
    ensures var o1 := Reconcile(Declaration, name, args, hasStatements, inputs, nextId, v);
      var o2 := Reconcile(Declaration, name, args, hasStatements, o1.inputs, o1.nextId, v);
      var slot := ArgSlot(hasStatements, inputs, i);
      ArgSlot(hasStatements, o1.inputs, i) == slot &&
      slot < |o1.inputs| && slot < |o2.inputs| &&
      o1.inputs[slot].target.Some? && o2.inputs[slot].target.Some? &&
      o2.inputs[slot].target.value == NewEditor(args[i], o2.inputs[slot].target.value.id) &&
      o1.nextId <= o2.inputs[slot].target.value.id < o2.nextId &&
      o1.inputs[slot].target.value.id in o2.disposed
  {
    var o1 := Reconcile(Declaration, name, args, hasStatements, inputs, nextId, v);
    var saved0 := SavedConnections(inputs);
    ReconcileArgSlots(Declaration, name, args, hasStatements, inputs, nextId, v);
    PopulateAllArg(Declaration, args, saved0, nextId, v, i);
    RerunCommon(Declaration, name, args, hasStatements, inputs, nextId, v, i);
    RebuiltEntry(Declaration, name, args, hasStatements, inputs, nextId, v, i);
    var saved := SavedConnections(o1.inputs);
    PopulateAllArg(Declaration, args, saved, o1.nextId, v, i);
    DeclarationKeepsMap(args, saved, o1.nextId, v);
    DeleteShadowsSpec(saved);
    assert ShadowEntry(saved[InputName(args[i])]);
  }

  /** When the last input is STACK, it is the one removeAllInputs_ keeps. */
  lemma LastStackConcat(x: seq<Input>, y: seq<Input>)
    requires |y| == 1 && y[0].name == STACK
    ensures LastStack(x + y) == Some(y[0])
  {
    assert (x + y)[|x + y| - 1] == y[0];
  }

}
