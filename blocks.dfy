/**
 * The three function blocks as objects: a FunctionBlock keeps `name_`,
 * `functionId_`, `arguments_`, `inputList` and `hasStatements_` and updates
 * them in place; its Workspace hands out block ids and disposes blocks.
 * Every method is proved equal to the function of Reconciler or
 * Declaration that states what it computes.
 */
module Blocks {
  import opened Signature
  import opened Reconciler
  import opened Declaration

  /** The parts of a Blockly workspace the function blocks use. */
  class Workspace {
    /** The id workspace.newBlock gives the next block. */
    var nextId: BlockId
    /** The ids of the blocks disposed so far. */
    var disposed: set<BlockId>
    /** The id of the default variable, read by a custom-typed placeholder. */
    const defaultVariableId: string

    constructor(defaultVariableId: string)
      ensures nextId == 0 && disposed == {} && this.defaultVariableId == defaultVariableId
    {
      nextId := 0;
      disposed := {};
      this.defaultVariableId := defaultVariableId;
    }

    /** workspace.newBlock: a block with a fresh id. */
    method NewBlock() returns (id: BlockId)
      modifies this
      ensures id == old(nextId) && nextId == old(nextId) + 1 && disposed == old(disposed)
    {
      id := nextId;
      nextId := nextId + 1;
    }

    /** block.dispose(). */
    method Dispose(id: BlockId)
      modifies this
      ensures disposed == old(disposed) + {id} && nextId == old(nextId)
    {
      disposed := disposed + {id};
    }
  }

  /** `connectionMap[arg.id]['block']`, `['shadow']`: the JavaScript throws on
      a nulled entry, so a present entry must be non-null. */
  predicate CanLookUp(cm: ConnectionMap, id: string) {
    id in cm ==> cm[id].Some?
  }

  /** Prepend the arguments read so far to what the rest of the children
      decode to. */
  function Prepend(acc: seq<Arg>, r: Result<seq<Arg>>): Result<seq<Arg>> {
    match r
    case Err(e) => Err(e)
    case Ok(rest) => Ok(acc + rest)
  }

  /** A function_declaration, function_definition or function_call block. */
  class FunctionBlock {
    const role: Role
    const workspace: Workspace
    var name: string
    var functionId: string
    var arguments: seq<Arg>
    var inputList: seq<Input>
    var hasStatements: bool

    function Mutation(): Signature.Mutation
      reads this
    {
      Signature.Mutation(name, functionId, arguments)
    }

    /** A block with statements has a STACK input, which updateDisplay_
        moves to the end. */
    predicate Valid()
      reads this
    {
      hasStatements ==> HasStack(inputList)
    }

    /** init: empty name, id and arguments. The declaration and the
        definition build their title and label, then get a STACK input;
        the caller starts with no inputs and no statements. */
    constructor(role: Role, workspace: Workspace)
      modifies workspace
      ensures this.role == role && this.workspace == workspace
      ensures name == "" && functionId == "" && arguments == []
      ensures role == Caller ==> inputList == [] && !hasStatements
      ensures role != Caller ==>
        inputList == [TitleInput(role), LabelInput(role, ""), StackInput()] && hasStatements
      ensures workspace.nextId == old(workspace.nextId) && workspace.disposed == old(workspace.disposed)
      ensures Valid()
    {
      this.role := role;
      this.workspace := workspace;
      name := "";
      arguments := [];
      functionId := "";
      inputList := [];
      hasStatements := false;
      new;
      if role != Caller {
        var _ := CreateAllInputs(map[]);
        SetStatements(true);
      }
    }

    // -------------------------------------------------------------------
    // getters and hasArgument

    /** hasArgument: a search through `arguments_`. */
    method HasArgument(argName: string, reporterType: string) returns (r: bool)
      ensures r == Signature.HasArgument(arguments, argName, reporterType)
    {
      var i := 0;
      while i < |arguments|
        invariant 0 <= i <= |arguments|
        invariant forall j :: 0 <= j < i ==>
          !(arguments[j].name == argName && IsReporterOfType(arguments[j].typ, reporterType))
      {
        if arguments[i].name == argName && IsReporterOfType(arguments[i].typ, reporterType) {
          return true;
        }
        i := i + 1;
      }
      return false;
    }

    // -------------------------------------------------------------------
    // setStatements_

    /** Blockly's removeInput (not part of this model's sources): the first
        input with the name goes; its block is disposed if a shadow. */
    method RemoveInputNamed(inputName: string)
      modifies this, workspace
      ensures var rm := RemoveInput(old(inputList), inputName);
        inputList == rm.inputs && workspace.disposed == old(workspace.disposed) + rm.disposed
      ensures name == old(name) && functionId == old(functionId) && arguments == old(arguments)
      ensures hasStatements == old(hasStatements) && workspace.nextId == old(workspace.nextId)
    {
      var k := 0;
      while k < |inputList| && inputList[k].name != inputName
        invariant 0 <= k <= |inputList|
        invariant forall m :: 0 <= m < k ==> inputList[m].name != inputName
      {
        k := k + 1;
      }
      if k < |inputList| {
        FirstIndexAt(inputList, inputName, k);
        var t := inputList[k].target;
        if t.Some? && t.value.shadow {
          workspace.Dispose(t.value.id);
        }
        inputList := inputList[..k] + inputList[k + 1..];
      } else {
        FirstIndexAbsent(inputList, inputName);
      }
    }

    /** setStatements_: nothing when the flag is unchanged; otherwise
        append a STACK statement input, or remove the STACK input. */
    method SetStatements(hs: bool)
      requires Valid()
      modifies this, workspace
      ensures hasStatements == hs
      ensures old(hasStatements) == hs ==> inputList == old(inputList) && workspace.disposed == old(workspace.disposed)
      ensures old(hasStatements) != hs && hs ==>
        inputList == old(inputList) + [StackInput()] && workspace.disposed == old(workspace.disposed)
      ensures old(hasStatements) != hs && !hs ==>
        var rm := RemoveInput(old(inputList), STACK);
        inputList == rm.inputs && workspace.disposed == old(workspace.disposed) + rm.disposed
      ensures name == old(name) && functionId == old(functionId) && arguments == old(arguments)
      ensures workspace.nextId == old(workspace.nextId)
      ensures Valid()
    {
      if hasStatements == hs {
        return;
      }
      if hs {
        inputList := inputList + [StackInput()];
        assert inputList[|inputList| - 1].name == STACK;
      } else {
        RemoveInputNamed(STACK);
      }
      hasStatements := hs;
    }

    // -------------------------------------------------------------------
    // updateDisplay_ and its four steps

    /** disconnectOldBlocks_: save every non-STACK connected input's block
        and shadow DOM under its name, and clear the input. */
    method DisconnectOldBlocks() returns (cm: ConnectionMap)
      modifies this
      ensures cm == SavedConnections(old(inputList)) && inputList == DisconnectAll(old(inputList))
      ensures name == old(name) && functionId == old(functionId) && arguments == old(arguments)
      ensures hasStatements == old(hasStatements)
    {
      ghost var inputs := inputList;
      cm := map[];
      var i := 0;
      while i < |inputList|
        invariant 0 <= i <= |inputList| && |inputList| == |inputs|
        invariant forall j :: 0 <= j < i ==> inputList[j] == Disconnected(inputs[j])
        invariant forall j :: i <= j < |inputs| ==> inputList[j] == inputs[j]
        invariant cm == SavedConnections(inputs[..i])
        invariant name == old(name) && functionId == old(functionId) && arguments == old(arguments)
        invariant hasStatements == old(hasStatements)
      {
        var input := inputList[i];
        assert inputs[..i + 1][..i] == inputs[..i];
        if input.name != STACK && input.kind != DummyInput {
          cm := cm[input.name := Some(SaveInfo(input.shadowDom, input.target))];
          inputList := inputList[i := input.(target := None, shadowDom := None)];
        }
        i := i + 1;
      }
      assert inputs[..i] == inputs;
    }

    /** removeAllInputs_: keep only the (last) STACK input. */
    method RemoveAllInputs()
      modifies this
      ensures inputList == KeepStack(old(inputList))
      ensures name == old(name) && functionId == old(functionId) && arguments == old(arguments)
      ensures hasStatements == old(hasStatements)
    {
      var stackInput: Option<Input> := None;
      var i := 0;
      while i < |inputList|
        invariant 0 <= i <= |inputList|
        invariant stackInput == LastStack(inputList[..i])
      {
        assert inputList[..i + 1][..i] == inputList[..i];
        if inputList[i].name == STACK {
          stackInput := Some(inputList[i]);
        }
        i := i + 1;
      }
      assert inputList[..i] == inputList;
      inputList := if stackInput.Some? then [stackInput.value] else [];
    }

    /** moveInputBefore(inputName, null) (not part of this model's sources):
        the first input with the name is moved to the end. Blockly throws
        when there is none. */
    method MoveInputToEnd(inputName: string)
      requires exists i :: 0 <= i < |inputList| && inputList[i].name == inputName
      modifies this
      ensures inputList == MoveToEnd(old(inputList), inputName)
      ensures name == old(name) && functionId == old(functionId) && arguments == old(arguments)
      ensures hasStatements == old(hasStatements)
    {
      var k := 0;
      while inputList[k].name != inputName
        invariant 0 <= k < |inputList|
        invariant forall m :: 0 <= m < k ==> inputList[m].name != inputName
        invariant exists i :: k <= i < |inputList| && inputList[i].name == inputName
        decreases |inputList| - k
      {
        k := k + 1;
      }
      FirstIndexAt(inputList, inputName, k);
      var input := inputList[k];
      inputList := inputList[..k] + inputList[k + 1..] + [input];
    }

    /** populateArgumentOnCaller_. */
    method PopulateOnCaller(a: Arg, cm: ConnectionMap, input: Input) returns (r: Input, cm': ConnectionMap)
      requires CanLookUp(cm, a.id)
      modifies workspace
      ensures var s := Populate(Caller, a, cm, old(workspace.nextId), workspace.defaultVariableId);
        input == NewValueInput(a) ==> r == s.input
      ensures cm' == CmStep(Caller, a, cm)
      ensures workspace.nextId == Populate(Caller, a, cm, old(workspace.nextId), workspace.defaultVariableId).nextId
      ensures workspace.disposed == old(workspace.disposed)
    {
      var oldBlock: Option<Child> := None;
      var oldShadow: Option<Node> := None;
      if a.id in cm {
        var saveInfo := cm[a.id].value;
        oldBlock := saveInfo.block;
        oldShadow := saveInfo.shadow;
      }
      cm' := cm;
      if oldBlock.Some? {
        cm' := cm'[InputName(a) := None];
        var shadowDom := if oldShadow.Some? then oldShadow.value else BuildShadowDom(a.typ, workspace.defaultVariableId);
        r := input.(target := oldBlock, shadowDom := Some(shadowDom));
      } else {
        var id := workspace.NewBlock();
        r := input.(target := Some(NewShadow(a.typ, workspace.defaultVariableId, id)));
      }
    }

    /** populateArgumentOnDefinition_. */
    method PopulateOnDefinition(a: Arg, cm: ConnectionMap, input: Input) returns (r: Input, cm': ConnectionMap)
      requires CanLookUp(cm, a.id)
      modifies workspace
      ensures var s := Populate(Definition, a, cm, old(workspace.nextId), workspace.defaultVariableId);
        input == NewValueInput(a) ==> r == s.input
      ensures cm' == CmStep(Definition, a, cm)
      ensures workspace.nextId == Populate(Definition, a, cm, old(workspace.nextId), workspace.defaultVariableId).nextId
      ensures workspace.disposed == old(workspace.disposed)
    {
      var oldBlock: Option<Child> := None;
      if a.id in cm {
        oldBlock := cm[a.id].value.block;
      }
      cm' := cm;
      var reporter: Child;
      if oldBlock.Some? {
        reporter := SetField(oldBlock.value, "VALUE", a.name);
        cm' := cm'[InputName(a) := None];
      } else {
        var id := workspace.NewBlock();
        reporter := NewReporter(a, id);
      }
      r := input.(target := Some(reporter));
    }

    /** populateArgumentOnDeclaration_: the saved block is read and not used. */
    method PopulateOnDeclaration(a: Arg, cm: ConnectionMap, input: Input) returns (r: Input, cm': ConnectionMap)
      requires CanLookUp(cm, a.id)
      modifies workspace
      ensures var s := Populate(Declaration, a, cm, old(workspace.nextId), workspace.defaultVariableId);
        input == NewValueInput(a) ==> r == s.input
      ensures cm' == CmStep(Declaration, a, cm)
      ensures workspace.nextId == Populate(Declaration, a, cm, old(workspace.nextId), workspace.defaultVariableId).nextId
      ensures workspace.disposed == old(workspace.disposed)
    {
      var id := workspace.NewBlock();
      r := input.(target := Some(NewEditor(a, id)));
      cm' := cm;
    }

    /** populateArgument_: each block type installs its own strategy. */
    method PopulateArgument(a: Arg, cm: ConnectionMap, input: Input) returns (r: Input, cm': ConnectionMap)
      requires CanLookUp(cm, a.id) && input == NewValueInput(a)
      modifies workspace
      ensures Step(r, cm', workspace.nextId) == Populate(role, a, cm, old(workspace.nextId), workspace.defaultVariableId)
      ensures workspace.disposed == old(workspace.disposed)
    {
      match role
      case Caller => r, cm' := PopulateOnCaller(a, cm, input);
      case Definition => r, cm' := PopulateOnDefinition(a, cm, input);
      case Declaration => r, cm' := PopulateOnDeclaration(a, cm, input);
    }

    /** The `arguments_.forEach` loop of createAllInputs_: one value input
        per argument, in order, each filled by the block's strategy. */
    method AppendArgumentInputs(cm: ConnectionMap) returns (cm': ConnectionMap)
      requires LookupsSafe(role, arguments, cm)
      modifies this, workspace
      ensures var b := PopulateAll(role, arguments, cm, old(workspace.nextId), workspace.defaultVariableId);
        inputList == old(inputList) + b.inputs && cm' == b.cm && workspace.nextId == b.nextId
      ensures workspace.disposed == old(workspace.disposed)
      ensures name == old(name) && functionId == old(functionId) && arguments == old(arguments)
      ensures hasStatements == old(hasStatements)
    {
      ghost var v := workspace.defaultVariableId;
      ghost var total := PopulateAll(role, arguments, cm, workspace.nextId, v);
      ghost var done: seq<Input> := [];
      cm' := cm;
      var i := 0;
      while i < |arguments|
        invariant 0 <= i <= |arguments|
        invariant inputList == old(inputList) + done
        invariant LookupsSafe(role, arguments[i..], cm')
        invariant var rest := PopulateAll(role, arguments[i..], cm', workspace.nextId, v);
          total == Built(done + rest.inputs, rest.cm, rest.nextId)
        invariant workspace.disposed == old(workspace.disposed)
        invariant name == old(name) && functionId == old(functionId) && arguments == old(arguments)
        invariant hasStatements == old(hasStatements)
      {
        var a := arguments[i];
        assert arguments[i..][0] == a && arguments[i..][1..] == arguments[i + 1..];
        ghost var s := Populate(role, a, cm', workspace.nextId, v);
        ghost var rest := PopulateAll(role, arguments[i + 1..], s.cm, s.nextId, v);
        assert PopulateAll(role, arguments[i..], cm', workspace.nextId, v) ==
          Built([s.input] + rest.inputs, rest.cm, rest.nextId);
        var r;
        r, cm' := PopulateArgument(a, cm', NewValueInput(a));
        inputList := inputList + [r];
        assert done + ([r] + rest.inputs) == (done + [r]) + rest.inputs;
        done := done + [r];
        i := i + 1;
      }
      assert arguments[i..] == [];
      assert done + [] == done;
    }

    /** createAllInputs_: title, function label, one populated value input
        per argument, then STACK moved to the end when the block has
        statements. */
    method CreateAllInputs(cm: ConnectionMap) returns (cm': ConnectionMap)
      requires LookupsSafe(role, arguments, cm)
      requires Valid()
      modifies this, workspace
      ensures var b := CreateAll(role, name, arguments, hasStatements, old(inputList), cm,
                                 old(workspace.nextId), workspace.defaultVariableId);
        inputList == b.inputs && cm' == b.cm && workspace.nextId == b.nextId
      ensures workspace.disposed == old(workspace.disposed)
      ensures name == old(name) && functionId == old(functionId) && arguments == old(arguments)
      ensures hasStatements == old(hasStatements) && Valid()
    {
      ghost var b := PopulateAll(role, arguments, cm, workspace.nextId, workspace.defaultVariableId);
      inputList := inputList + [TitleInput(role)];
      inputList := inputList + [LabelInput(role, name)];
      assert inputList == old(inputList) + [TitleInput(role), LabelInput(role, name)];
      cm' := AppendArgumentInputs(cm);
      assert inputList == old(inputList) + [TitleInput(role), LabelInput(role, name)] + b.inputs;
      assert cm' == b.cm && workspace.nextId == b.nextId;
      if hasStatements {
        ghost var k :| 0 <= k < |old(inputList)| && old(inputList)[k].name == STACK;
        assert inputList[k] == old(inputList)[k];
        ghost var before := inputList;
        MoveInputToEnd(STACK);
        MoveToEndLast(before, STACK);
      }
    }

    /** deleteShadows_: dispose every shadow block left in the map and null
        its entry. */
    method DeleteShadows(cm: ConnectionMap) returns (cm': ConnectionMap)
      modifies workspace
      ensures cm' == Reconciler.DeleteShadows(cm)
      ensures workspace.disposed == old(workspace.disposed) + ShadowIds(cm)
      ensures workspace.nextId == old(workspace.nextId)
    {
      cm' := cm;
      var keys := cm.Keys;
      while keys != {}
        invariant keys <= cm.Keys && cm'.Keys == cm.Keys
        invariant forall k :: k in keys ==> cm'[k] == cm[k]
        invariant forall k :: k in cm && k !in keys ==> cm'[k] == Reconciler.DeleteShadows(cm)[k]
        invariant workspace.disposed == old(workspace.disposed) +
          set k | k in cm && k !in keys && ShadowEntry(cm[k]) :: cm[k].value.block.value.id
        invariant workspace.nextId == old(workspace.nextId)
        decreases keys
      {
        var id :| id in keys;
        var saveInfo := cm'[id];
        if saveInfo.Some? {
          var block := saveInfo.value.block;
          if block.Some? && block.value.shadow {
            workspace.Dispose(block.value.id);
            cm' := cm'[id := None];
          }
        }
        keys := keys - {id};
      }
    }

    /** updateDisplay_: the four steps in order. */
    method UpdateDisplay()
      requires LookupsSafe(role, arguments, SavedConnections(inputList))
      requires Valid()
      modifies this, workspace
      ensures var o := Reconcile(role, name, arguments, hasStatements, old(inputList),
                                 old(workspace.nextId), workspace.defaultVariableId);
        inputList == o.inputs && workspace.nextId == o.nextId &&
        workspace.disposed == old(workspace.disposed) + o.disposed
      ensures Valid() && (hasStatements ==> inputList[|inputList| - 1].name == STACK)
      ensures name == old(name) && functionId == old(functionId) && arguments == old(arguments)
      ensures hasStatements == old(hasStatements)
    {
      ghost var inputs := inputList;
      var cm := DisconnectOldBlocks();
      RemoveAllInputs();
      KeepStackDisconnected(inputs);
      KeepStackSpec(inputs);
      if hasStatements {
        ghost var k :| 0 <= k < |inputs| && inputs[k].name == STACK &&
          (forall j :: k < j < |inputs| ==> inputs[j].name != STACK) && KeepStack(inputs) == [inputs[k]];
        assert inputList[0].name == STACK;
      }
      ghost var all := inputList + [TitleInput(role), LabelInput(role, name)] +
        PopulateAll(role, arguments, cm, workspace.nextId, workspace.defaultVariableId).inputs;
      cm := CreateAllInputs(cm);
      if hasStatements {
        assert all[0].name == STACK;
        MoveToEndLast(all, STACK);
      }
      cm := DeleteShadows(cm);
    }

    // -------------------------------------------------------------------
    // domToMutation

    /** domToMutation: read every child as an argument, then the name and
        the function id, store them and rebuild the display. Reading a
        text node, or a missing attribute, is an error that leaves the
        block as it was. */
    method DomToMutation(xml: Node) returns (res: Result<Signature.Mutation>)
      requires Valid()
      requires Signature.DomToMutation(xml).Ok? ==>
        LookupsSafe(role, Signature.DomToMutation(xml).value.args, SavedConnections(inputList))
      modifies this, workspace
      ensures res == Signature.DomToMutation(xml) && Valid()
      ensures xml.Text? ==>
        arguments == [] && name == old(name) && functionId == old(functionId) &&
        inputList == old(inputList) && hasStatements == old(hasStatements) && unchanged(workspace)
      ensures xml.Element? && res.Err? ==> unchanged(this) && unchanged(workspace)
      ensures res.Ok? ==>
        Mutation() == res.value &&
        var o := Reconcile(role, res.value.name, res.value.args, hasStatements, old(inputList),
                           old(workspace.nextId), workspace.defaultVariableId);
        inputList == o.inputs && workspace.nextId == o.nextId &&
        workspace.disposed == old(workspace.disposed) + o.disposed
    {
      if xml.Text? {
        arguments := [];
        return Err(NotAnElement);
      }
      var children := xml.children;
      var args: seq<Arg> := [];
      var i := 0;
      assert children[0..] == children;
      match DecodeArgs(children) {
        case Ok(all) => assert [] + all == all;
        case Err(_) =>
      }
      while i < |children|
        invariant 0 <= i <= |children|
        invariant DecodeArgs(children) == Prepend(args, DecodeArgs(children[i..]))
      {
        assert children[i..][1..] == children[i + 1..];
        var a := DecodeArg(children[i]);
        if a.Err? {
          return Err(a.error);
        }
        assert forall rest :: [a.value] + rest == [a.value] + rest;
        match DecodeArgs(children[i + 1..]) {
          case Ok(rest) => assert args + [a.value] + rest == args + ([a.value] + rest);
          case Err(_) =>
        }
        args := args + [a.value];
        i := i + 1;
      }
      assert children[i..] == [];
      assert args + [] == args;
      var n := GetAttribute(xml, "name");
      if n.Err? {
        return Err(n.error);
      }
      var fid := GetAttribute(xml, "functionid");
      if fid.Err? {
        return Err(fid.error);
      }
      arguments := args;
      name := n.value;
      functionId := fid.value;
      UpdateDisplay();
      res := Ok(Signature.Mutation(n.value, fid.value, args));
    }

    // -------------------------------------------------------------------
    // Declaration editing

    /** updateDeclarationMutation_: read the name and the arguments back
        from the inputs after the title. */
    method UpdateDeclarationMutation()
      requires |inputList| <= 1 || Readable(inputList[1..])
      modifies this
      ensures (name, arguments) == DeclarationSignature(old(inputList), old(name))
      ensures inputList == old(inputList) && functionId == old(functionId) && hasStatements == old(hasStatements)
    {
      arguments := [];
      var i := 1;
      while i < |inputList|
        invariant 1 <= i
        invariant |inputList| <= 1 ==> name == old(name) && arguments == []
        invariant |inputList| > 1 ==>
          i <= |inputList| && Readable(inputList[1..]) && Readable(inputList[i..]) &&
          ReadInputs(inputList[i..], name, arguments) == ReadInputs(inputList[1..], old(name), [])
        invariant inputList == old(inputList) && functionId == old(functionId) && hasStatements == old(hasStatements)
      {
        var input := inputList[i];
        assert inputList[i..][0] == input && inputList[i..][1..] == inputList[i + 1..];
        match input.kind {
          case StatementInput =>
          case DummyInput =>
            name := input.fieldRow[0].value;
          case ValueInput =>
            var target := input.target.value;
            var idType := TypeOfEditor(target.btype, input.name);
            arguments := arguments + [Arg(idType.0, EditorText(target), idType.1)];
        }
        i := i + 1;
      }
      if |inputList| > 1 {
        assert inputList[i..] == [];
      }
    }

    /** addParam_: append an argument with the generated id `uid`, the given
        type and a name unused by the other arguments, then rebuild. */
    method AddParam(typ: string, defaultName: string, uid: string)
      requires Valid()
      requires LookupsSafe(role, Declaration.AddParam(arguments, typ, defaultName, uid), SavedConnections(inputList))
      modifies this, workspace
      ensures arguments == Declaration.AddParam(old(arguments), typ, defaultName, uid)
      ensures var o := Reconcile(role, name, arguments, hasStatements, old(inputList),
                                 old(workspace.nextId), workspace.defaultVariableId);
        inputList == o.inputs && workspace.nextId == o.nextId &&
        workspace.disposed == old(workspace.disposed) + o.disposed
      ensures name == old(name) && functionId == old(functionId) && hasStatements == old(hasStatements)
      ensures Valid()
    {
      var argName := UniqueParamName(defaultName, ArgNames(arguments));
      arguments := arguments + [Arg(uid, argName, typ)];
      UpdateDisplay();
    }

    /** The search loop of removeFieldCallback: the name of the input the
        field belongs to, or null. */
    method FindInputToRemove(f: FieldRef) returns (found: Option<string>)
      ensures found == FindInput(inputList, f, None)
    {
      found := None;
      var n := 0;
      while n < |inputList|
        invariant 0 <= n <= |inputList|
        invariant FindInput(inputList[n..], f, found) == FindInput(inputList, f, None)
      {
        if found.Some? && found.value != "" {
          break;
        }
        var input := inputList[n];
        assert inputList[n..][0] == input && inputList[n..][1..] == inputList[n + 1..];
        ghost var before := found;
        if input.kind != DummyInput {
          var target := input.target;
          if target.None? {
            n := n + 1;
            continue;
          }
          if f.owner == OnBlock(target.value.id) && f.name in target.value.fields {
            found := Some(input.name);
          }
        } else {
          var j := 0;
          while j < |input.fieldRow|
            invariant 0 <= j <= |input.fieldRow|
            invariant found == if f.owner == OnInput(input.name) &&
              exists m :: 0 <= m < j && input.fieldRow[m].name == f.name then Some(input.name) else before
          {
            if f.owner == OnInput(input.name) && input.fieldRow[j].name == f.name {
              found := Some(input.name);
            }
            j := j + 1;
          }
        }
        assert found == if Holds(input, f) then Some(input.name) else before;
        n := n + 1;
      }
    }

    /** removeFieldCallback, on the declaration: find the input the field
        belongs to; if its name is truthy, remove that input, read the
        signature back from what is left and rebuild the display. */
    method RemoveFieldCallback(f: FieldRef)
      requires role == Declaration && Valid()
      requires var found := FindInput(inputList, f, None);
        Truthy(found) ==>
          var rest := RemoveInput(inputList, found.value).inputs;
          (|rest| <= 1 || Readable(rest[1..])) &&
          (hasStatements ==> HasStack(rest)) &&
          LookupsSafe(role, DeclarationSignature(rest, name).1, SavedConnections(rest))
      modifies this, workspace
      ensures var found := FindInput(old(inputList), f, None);
        !Truthy(found) ==> unchanged(this) && unchanged(workspace)
      ensures var found := FindInput(old(inputList), f, None);
        Truthy(found) ==>
          var rm := RemoveInput(old(inputList), found.value);
          var sig := DeclarationSignature(rm.inputs, old(name));
          var o := Reconcile(role, sig.0, sig.1, hasStatements, rm.inputs,
                             old(workspace.nextId), workspace.defaultVariableId);
          name == sig.0 && arguments == sig.1 && inputList == o.inputs &&
          workspace.nextId == o.nextId &&
          workspace.disposed == old(workspace.disposed) + rm.disposed + o.disposed
      ensures functionId == old(functionId) && hasStatements == old(hasStatements) && Valid()
    {
      var found := FindInputToRemove(f);
      if found.Some? && found.value != "" {
        RemoveInputNamed(found.value);
        UpdateDeclarationMutation();
        UpdateDisplay();
      }
    }
  }
}
