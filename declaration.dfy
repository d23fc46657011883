/**
 * Editing a function declaration: reading the signature back from the
 * declaration block's inputs (updateDeclarationMutation_), choosing a new
 * parameter (addParam_), and finding and removing the input a deleted
 * field belongs to (removeFieldCallback). The block methods in blocks.dfy
 * are proved equal to these functions.
 */
module Declaration {
  import opened Signature
  import opened Reconciler

  // ---------------------------------------------------------------------
  // updateDeclarationMutation_

  /** getFieldValue('TEXT') on an argument editor; a block without that
      field yields null, written here as the empty string. */
  function EditorText(c: Child): string {
    if "TEXT" in c.fields then c.fields["TEXT"] else ""
  }

  /** The argument an editor input stands for: the editor's block type
      gives the type, the input name the id (split for a custom type), and
      the editor's TEXT field the name. */
  function EditorArg(inp: Input): Arg
    requires inp.target.Some?
  {
    var t := inp.target.value;
    var idType := TypeOfEditor(t.btype, inp.name);
    Arg(idType.0, EditorText(t), idType.1)
  }

  /** Every input the loop reads can be read: a dummy input has a field
      (`fieldRow[0].getValue()`), a value input has a block attached
      (`target.type`). Otherwise the JavaScript throws. */
  predicate Readable(inputs: seq<Input>) {
    forall i :: 0 <= i < |inputs| ==>
      (inputs[i].kind == DummyInput ==> |inputs[i].fieldRow| > 0) &&
      (inputs[i].kind == ValueInput ==> inputs[i].target.Some?)
  }

  /** One pass of the loop: a statement input is skipped, a dummy input
      sets the name from its first field, a value input pushes the
      argument its editor stands for. */
  function ReadInputs(inputs: seq<Input>, name: string, args: seq<Arg>): (r: (string, seq<Arg>))
    requires Readable(inputs)
    decreases |inputs|
  {
    if inputs == [] then (name, args)
    else
      var inp := inputs[0];
      match inp.kind
      case StatementInput => ReadInputs(inputs[1..], name, args)
      case DummyInput => ReadInputs(inputs[1..], inp.fieldRow[0].value, args)
      case ValueInput => ReadInputs(inputs[1..], name, args + [EditorArg(inp)])
  }

  /** updateDeclarationMutation_: the loop starts at index 1, past the
      title. The name is kept when no dummy input follows it. */
  function DeclarationSignature(inputs: seq<Input>, name: string): (string, seq<Arg>)
    requires |inputs| <= 1 || Readable(inputs[1..])
  {
    if |inputs| <= 1 then (name, []) else ReadInputs(inputs[1..], name, [])
  }

  lemma {:induction false} ReadInputsAppend(a: seq<Input>, b: seq<Input>, name: string, args: seq<Arg>)
    requires Readable(a) && Readable(b)
    ensures Readable(a + b)
    ensures var ra := ReadInputs(a, name, args);
      ReadInputs(a + b, name, args) == ReadInputs(b, ra.0, ra.1)
    decreases |a|
  {
    if a != [] {
      assert (a + b)[1..] == a[1..] + b;
      var n' := if a[0].kind == DummyInput then a[0].fieldRow[0].value else name;
      var args' := if a[0].kind == ValueInput then args + [EditorArg(a[0])] else args;
      ReadInputsAppend(a[1..], b, n', args');
    } else {
      assert a + b == b;
    }
  }

  /** The inputs a declaration attaches its editors to. */
  predicate EditorsFor(P: seq<Input>, args: seq<Arg>) {
    |P| == |args| &&
    forall i :: 0 <= i < |P| ==>
      P[i].name == InputName(args[i]) && P[i].kind == ValueInput && P[i].target.Some? &&
      P[i].target.value == NewEditor(args[i], P[i].target.value.id)
  }

  /** A custom-typed argument's id has the 20 characters the decoder assumes. */
  predicate DecodableIds(args: seq<Arg>) {
    forall i :: 0 <= i < |args| ==> IsPrimitive(args[i].typ) || |args[i].id| == 20
  }

  /** Editor inputs can be read. */
  lemma EditorsReadable(P: seq<Input>, args: seq<Arg>)
    requires EditorsFor(P, args)
    ensures Readable(P)
  {
  }

  /** The first editor stands for the first argument; the rest are editors
      for the rest. */
  lemma EditorsTail(P: seq<Input>, args: seq<Arg>)
    requires EditorsFor(P, args) && DecodableIds(args) && P != []
    ensures P[0].kind == ValueInput && P[0].target.Some? && EditorArg(P[0]) == args[0]
    ensures EditorsFor(P[1..], args[1..]) && DecodableIds(args[1..])
  {
    EditorDecoding(args[0]);
    forall i | 0 <= i < |P[1..]|
      ensures P[1..][i].name == InputName(args[1..][i]) && P[1..][i].kind == ValueInput &&
        P[1..][i].target.Some? &&
        P[1..][i].target.value == NewEditor(args[1..][i], P[1..][i].target.value.id) &&
        (IsPrimitive(args[1..][i].typ) || |args[1..][i].id| == 20)
    {
      assert P[1..][i] == P[i + 1] && args[1..][i] == args[i + 1];
    }
  }

  /** Reading a run of argument editors pushes back exactly their arguments. */
  lemma {:induction false} ReadEditors(P: seq<Input>, args: seq<Arg>, name: string, acc: seq<Arg>)
    requires EditorsFor(P, args) && DecodableIds(args)
    ensures Readable(P)
    ensures ReadInputs(P, name, acc) == (name, acc + args)
    decreases |P|
  {
    EditorsReadable(P, args);
    if P != [] {
      EditorsTail(P, args);
      ReadEditors(P[1..], args[1..], name, acc + [args[0]]);
      assert ReadInputs(P, name, acc) == ReadInputs(P[1..], name, acc + [args[0]]);
      assert acc + [args[0]] + args[1..] == acc + args;
    } else {
      assert acc + args == acc;
    }
  }

  /** The declaration's argument inputs are editors for its arguments. */
  lemma DeclarationEditors(args: seq<Arg>, cm: ConnectionMap, nextId: BlockId, v: string)
    ensures EditorsFor(PopulateAll(Declaration, args, cm, nextId, v).inputs, args)
  {
    var P := PopulateAll(Declaration, args, cm, nextId, v).inputs;
    PopulateAllShape(Declaration, args, cm, nextId, v);
    forall i | 0 <= i < |args|
      ensures P[i].target.value == NewEditor(args[i], P[i].target.value.id)
    {
      DeclarationFreshEditors(args, cm, nextId, v);
    }
  }

  /** Editors get consecutive fresh ids, one per argument. */
  lemma {:induction false} DeclarationFreshEditors(args: seq<Arg>, cm: ConnectionMap, nextId: BlockId, v: string)
    ensures var b := PopulateAll(Declaration, args, cm, nextId, v);
      b.nextId == nextId + |args| &&
      forall i :: 0 <= i < |args| ==> b.inputs[i].target == Some(NewEditor(args[i], nextId + i))
    decreases |args|
  {
    if args != [] {
      var s := Populate(Declaration, args[0], cm, nextId, v);
      assert s.nextId == nextId + 1 && s.input.target == Some(NewEditor(args[0], nextId));
      var rest := PopulateAll(Declaration, args[1..], s.cm, s.nextId, v);
      DeclarationFreshEditors(args[1..], s.cm, s.nextId, v);
      var b := PopulateAll(Declaration, args, cm, nextId, v);
      assert b.inputs == [s.input] + rest.inputs && b.nextId == rest.nextId;
      forall i | 0 < i < |args| ensures b.inputs[i].target == Some(NewEditor(args[i], nextId + i)) {
        assert b.inputs[i] == rest.inputs[i - 1];
        assert args[1..][i - 1] == args[i];
      }
    }
  }

  /** The inputs of a rebuilt declaration: title, label, one editor per
      argument with consecutive fresh ids from `firstId`, then the STACK
      statement input, if one was kept. */
  predicate DeclarationLayout(inputs: seq<Input>, name: string, P: seq<Input>, K: seq<Input>,
                              args: seq<Arg>, firstId: BlockId) {
    inputs == [TitleInput(Declaration), LabelInput(Declaration, name)] + P + K &&
    EditorsFor(P, args) &&
    (forall i :: 0 <= i < |P| ==> P[i].target.value.id == firstId + i) &&
    |K| <= 1 && (K != [] ==> K[0].name == STACK && K[0].kind == StatementInput)
  }

  lemma RebuiltDeclarationLayout(name: string, args: seq<Arg>, inputs: seq<Input>, nextId: BlockId, v: string)
    requires WellKeyed(args) && StackIsStatement(inputs)
    ensures DeclarationLayout(Reconcile(Declaration, name, args, true, inputs, nextId, v).inputs, name,
      PopulateAll(Declaration, args, SavedConnections(inputs), nextId, v).inputs, KeepStack(inputs), args, nextId)
  {
    var cm := SavedConnections(inputs);
    ReconcileLayout(Declaration, name, args, true, inputs, nextId, v);
    KeepStackSpec(inputs);
    DeclarationFreshEditors(args, cm, nextId, v);
    DeclarationEditors(args, cm, nextId, v);
  }

  /** Reading the signature back from a rebuilt declaration (which has
      statements, as every declaration does) gives the name and the
      arguments it was built from, provided every custom-typed argument's
      id has 20 characters. */
  lemma DeclarationRoundTrip(name: string, args: seq<Arg>, inputs: seq<Input>, nextId: BlockId, v: string,
                             oldName: string)
    requires WellKeyed(args) && DecodableIds(args) && StackIsStatement(inputs)
    ensures var o := Reconcile(Declaration, name, args, true, inputs, nextId, v);
      Readable(o.inputs[1..]) && DeclarationSignature(o.inputs, oldName) == (name, args)
  {
    RebuiltDeclarationLayout(name, args, inputs, nextId, v);
    ReadEditorsOnly(Reconcile(Declaration, name, args, true, inputs, nextId, v).inputs, name,
      PopulateAll(Declaration, args, SavedConnections(inputs), nextId, v).inputs, KeepStack(inputs), args, oldName);
  }

  // ---------------------------------------------------------------------
  // addParam_

  /** findUniqueParamName (not part of this model's sources): the default
      name when no argument has it, otherwise the default extended by
      underscores until it is unused. */
  function UniqueParamName(defaultName: string, names: set<string>): (r: string)
    ensures r !in names
    ensures defaultName !in names ==> r == defaultName
    ensures |r| >= |defaultName| && r[..|defaultName|] == defaultName
    decreases names
  {
    if defaultName !in names then defaultName
    else
      var r := UniqueParamName(defaultName + "_", names - {defaultName});
      assert r[..|defaultName|] == (defaultName + "_")[..|defaultName|];
      r
  }

  function ArgNames(args: seq<Arg>): set<string> {
    set i | 0 <= i < |args| :: args[i].name
  }

  /** addParam_'s change to `arguments_`: one argument appended, with the
      generated id, a name no existing argument has, and the given type. */
  function AddParam(args: seq<Arg>, typ: string, defaultName: string, uid: string): (r: seq<Arg>)
    ensures |r| == |args| + 1 && r[..|args|] == args
    ensures r[|args|].id == uid && r[|args|].typ == typ
    ensures forall i :: 0 <= i < |args| ==> r[|args|].name != args[i].name
  {
    args + [Arg(uid, UniqueParamName(defaultName, ArgNames(args)), typ)]
  }

  /** A fresh id keeps the signature's keys well formed. */
  lemma AddParamWellKeyed(args: seq<Arg>, typ: string, defaultName: string, uid: string)
    requires WellKeyed(args)
    requires forall i :: 0 <= i < |args| ==>
      args[i].id != uid && args[i].id != InputName(Arg(uid, "", typ)) && InputName(args[i]) != uid &&
      InputName(args[i]) != InputName(Arg(uid, "", typ))
    requires InputName(Arg(uid, "", typ)) != STACK
    ensures WellKeyed(AddParam(args, typ, defaultName, uid))
  {
    var r := AddParam(args, typ, defaultName, uid);
    assert forall i :: 0 <= i < |args| ==> r[i] == args[i];
    assert InputName(r[|args|]) == InputName(Arg(uid, "", typ));
  }

  /** After addParam_'s updateDisplay_, reading the declaration back gives
      the old arguments followed by the new one. */
  lemma AddParamReadsBack(name: string, args: seq<Arg>, typ: string, defaultName: string, uid: string,
                          inputs: seq<Input>, nextId: BlockId, v: string)
    requires WellKeyed(AddParam(args, typ, defaultName, uid)) && DecodableIds(args) && |uid| == 20
    requires StackIsStatement(inputs)
    ensures var r := AddParam(args, typ, defaultName, uid);
      var o := Reconcile(Declaration, name, r, true, inputs, nextId, v);
      Readable(o.inputs[1..]) && DeclarationSignature(o.inputs, name) == (name, r)
  {
    var r := AddParam(args, typ, defaultName, uid);
    assert forall i :: 0 <= i < |args| ==> r[i] == args[i];
    DeclarationRoundTrip(name, r, inputs, nextId, v, name);
  }

  // ---------------------------------------------------------------------
  // removeFieldCallback

  /** Which object a field lives on: an attached block, or a dummy input of
      the declaration itself (identified by the input's name). */
  datatype FieldOwner = OnBlock(id: BlockId) | OnInput(inputName: string)

  /** A field object, identified by its owner and its name. */
  datatype FieldRef = FieldRef(owner: FieldOwner, name: string)

  /** The test the search applies to one input: for an input with a
      connection, the attached block's field of that name is the field;
      for a dummy input, one of its own fields is. */
  predicate Holds(inp: Input, f: FieldRef) {
    if inp.kind != DummyInput then
      inp.target.Some? && f.owner == OnBlock(inp.target.value.id) && f.name in inp.target.value.fields
    else
      f.owner == OnInput(inp.name) && exists j :: 0 <= j < |inp.fieldRow| && inp.fieldRow[j].name == f.name
  }

  /** A JavaScript truthy input name: non-null and non-empty. */
  predicate Truthy(r: Option<string>) {
    r.Some? && r.value != ""
  }

  /** The search loop: stop once a truthy name has been found; a matching
      input overwrites the name found so far. */
  function FindInput(inputs: seq<Input>, f: FieldRef, found: Option<string>): Option<string>
    decreases |inputs|
  {
    if inputs == [] || Truthy(found) then found
    else FindInput(inputs[1..], f, if Holds(inputs[0], f) then Some(inputs[0].name) else found)
  }

  /** An input that ends the search: it holds the field and its name is truthy. */
  predicate Stops(inp: Input, f: FieldRef) {
    Holds(inp, f) && inp.name != ""
  }

  /** The search finds a truthy name exactly when some input with a
      non-empty name holds the field, and then it is the first such input's
      name; a holding input named "" does not stop the search. */
  lemma FindInputSpec(inputs: seq<Input>, f: FieldRef, found: Option<string>)
    requires !Truthy(found)
    ensures Truthy(FindInput(inputs, f, found)) <==> exists n :: 0 <= n < |inputs| && Stops(inputs[n], f)
    ensures forall n :: (0 <= n < |inputs| && Stops(inputs[n], f) &&
      (forall m :: 0 <= m < n ==> !Stops(inputs[m], f))) ==>
        FindInput(inputs, f, found) == Some(inputs[n].name)
  {
    if exists n :: 0 <= n < |inputs| && Stops(inputs[n], f) {
      FindInputSome(inputs, f, found);
    } else {
      FindInputNone(inputs, f, found);
    }
    forall n | 0 <= n < |inputs| && Stops(inputs[n], f) && (forall m :: 0 <= m < n ==> !Stops(inputs[m], f))
      ensures FindInput(inputs, f, found) == Some(inputs[n].name)
    {
      FindInputFirst(inputs, f, found, n);
    }
  }

  lemma {:induction false} FindInputSome(inputs: seq<Input>, f: FieldRef, found: Option<string>)
    requires !Truthy(found)
    requires exists n :: 0 <= n < |inputs| && Stops(inputs[n], f)
    ensures Truthy(FindInput(inputs, f, found))
    decreases |inputs|
  {
    var next := if Holds(inputs[0], f) then Some(inputs[0].name) else found;
    if !Stops(inputs[0], f) {
      var n :| 0 <= n < |inputs| && Stops(inputs[n], f);
      assert inputs[1..][n - 1] == inputs[n];
      FindInputSome(inputs[1..], f, next);
    }
  }

  lemma {:induction false} FindInputNone(inputs: seq<Input>, f: FieldRef, found: Option<string>)
    requires !Truthy(found)
    requires forall n :: 0 <= n < |inputs| ==> !Stops(inputs[n], f)
    ensures !Truthy(FindInput(inputs, f, found))
    decreases |inputs|
  {
    if inputs != [] {
      var next := if Holds(inputs[0], f) then Some(inputs[0].name) else found;
      forall m | 0 <= m < |inputs[1..]| ensures !Stops(inputs[1..][m], f) {
        assert inputs[1..][m] == inputs[m + 1];
      }
      FindInputNone(inputs[1..], f, next);
    }
  }

  lemma {:induction false} FindInputFirst(inputs: seq<Input>, f: FieldRef, found: Option<string>, n: nat)
    requires !Truthy(found) && n < |inputs| && Stops(inputs[n], f)
    requires forall m :: 0 <= m < n ==> !Stops(inputs[m], f)
    ensures FindInput(inputs, f, found) == Some(inputs[n].name)
    decreases n
  {
    var next := if Holds(inputs[0], f) then Some(inputs[0].name) else found;
    if n > 0 {
      assert !Stops(inputs[0], f);
      forall m | 0 <= m < n - 1 ensures !Stops(inputs[1..][m], f) {
        assert inputs[1..][m] == inputs[m + 1];
      }
      assert inputs[1..][n - 1] == inputs[n];
      FindInputFirst(inputs[1..], f, next, n - 1);
    }
  }

  /** Blockly's removeInput (not part of this model's sources) on a name
      that exists: the first input with that name goes, and the block
      attached to it is disposed if it is a shadow (otherwise unplugged). */
  datatype Removal = Removal(inputs: seq<Input>, disposed: set<BlockId>)

  function RemoveInput(inputs: seq<Input>, name: string): (r: Removal)
    ensures |r.inputs| == |inputs| || |r.inputs| == |inputs| - 1
  {
    var k := FirstIndex(inputs, name);
    if k == |inputs| then Removal(inputs, {})
    else
      var t := inputs[k].target;
      Removal(inputs[..k] + inputs[k + 1..], if t.Some? && t.value.shadow then {t.value.id} else {})
  }

  /** On that layout, the search for argument k's editor field finds
      argument k's input. */
  lemma FindEditorInput(inputs: seq<Input>, name: string, P: seq<Input>, K: seq<Input>,
                        args: seq<Arg>, firstId: BlockId, k: nat)
    requires DeclarationLayout(inputs, name, P, K, args, firstId) && k < |args|
    requires InputName(args[k]) != ""
    ensures FindInput(inputs, FieldRef(OnBlock(firstId + k), "TEXT"), None) == Some(InputName(args[k]))
  {
    var f := FieldRef(OnBlock(firstId + k), "TEXT");
    assert inputs[2 + k] == P[k];
    assert Holds(inputs[2 + k], f);
    forall m | 0 <= m < 2 + k ensures !Stops(inputs[m], f) {
      if m >= 2 {
        assert inputs[m] == P[m - 2];
      }
    }
    FindInputSpec(inputs, f, None);
  }

  /** removeInput when the first input with the name is at position k. */
  lemma RemoveInputAt(inputs: seq<Input>, name: string, k: nat)
    requires k < |inputs| && inputs[k].name == name
    requires forall m :: 0 <= m < k ==> inputs[m].name != name
    ensures var t := inputs[k].target;
      RemoveInput(inputs, name) ==
        Removal(inputs[..k] + inputs[k + 1..], if t.Some? && t.value.shadow then {t.value.id} else {})
  {
    FirstIndexAt(inputs, name, k);
  }

  /** Dropping one editor input keeps the others editors for the other
      arguments, in order. */
  lemma EditorsWithout(P: seq<Input>, args: seq<Arg>, k: nat)
    requires EditorsFor(P, args) && DecodableIds(args) && k < |args|
    ensures EditorsFor(P[..k] + P[k + 1..], args[..k] + args[k + 1..])
    ensures DecodableIds(args[..k] + args[k + 1..])
  {
    var args' := args[..k] + args[k + 1..];
    var P' := P[..k] + P[k + 1..];
    forall i | 0 <= i < |P'|
      ensures P'[i].name == InputName(args'[i]) && P'[i].kind == ValueInput && P'[i].target.Some? &&
        P'[i].target.value == NewEditor(args'[i], P'[i].target.value.id) &&
        (IsPrimitive(args'[i].typ) || |args'[i].id| == 20)
    {
      var j := if i < k then i else i + 1;
      assert P'[i] == P[j] && args'[i] == args[j];
    }
  }

  /** Dropping position 2 + k of title, label, P, K drops P[k]. */
  lemma LayoutWithout(TL: seq<Input>, P: seq<Input>, K: seq<Input>, k: nat)
    requires |TL| == 2 && k < |P|
    ensures var inputs := TL + P + K;
      inputs[..2 + k] + inputs[3 + k..] == TL + (P[..k] + P[k + 1..]) + K
  {
    var inputs := TL + P + K;
    assert inputs[..2 + k] == TL + P[..k];
    assert inputs[3 + k..] == P[k + 1..] + K;
  }

  /** Removing argument k's editor from a declaration layout: the search
      finds argument k's input, removeInput disposes the editor, and
      reading the signature back gives the arguments without argument k. */
  lemma RemoveFromLayout(inputs: seq<Input>, name: string, P: seq<Input>, K: seq<Input>,
                         args: seq<Arg>, firstId: BlockId, k: nat)
    requires DeclarationLayout(inputs, name, P, K, args, firstId) && k < |args|
    requires WellKeyed(args) && DecodableIds(args)
    requires InputName(args[k]) != "" && InputName(args[k]) != "function_name"
    ensures FindInput(inputs, FieldRef(OnBlock(firstId + k), "TEXT"), None) == Some(InputName(args[k]))
    ensures var rm := RemoveInput(inputs, InputName(args[k]));
      rm.disposed == {firstId + k} && Readable(rm.inputs[1..]) &&
      DeclarationSignature(rm.inputs, name) == (name, args[..k] + args[k + 1..])
  {
    FindEditorInput(inputs, name, P, K, args, firstId, k);
    forall m | 0 <= m < 2 + k ensures inputs[m].name != InputName(args[k]) {
      if m >= 2 {
        assert inputs[m] == P[m - 2];
      }
    }
    assert inputs[2 + k] == P[k];
    RemoveInputAt(inputs, InputName(args[k]), 2 + k);
    var TL := [TitleInput(Declaration), LabelInput(Declaration, name)];
    LayoutWithout(TL, P, K, k);
    EditorsWithout(P, args, k);
    var rest := inputs[..2 + k] + inputs[3 + k..];
    ReadEditorsOnly(rest, name, P[..k] + P[k + 1..], K, args[..k] + args[k + 1..], name);
    assert inputs[2 + k].target.value.shadow;
    assert RemoveInput(inputs, InputName(args[k])) == Removal(rest, {firstId + k});
  }

  /** The same on a declaration rebuilt by updateDisplay_: argument k's
      editor is the block with id nextId + k. */
  lemma RemoveArgumentEditor(name: string, args: seq<Arg>, inputs: seq<Input>, nextId: BlockId, v: string, k: nat)
    requires WellKeyed(args) && DecodableIds(args) && StackIsStatement(inputs) && k < |args|
    requires InputName(args[k]) != "" && InputName(args[k]) != "function_name"
    ensures var o := Reconcile(Declaration, name, args, true, inputs, nextId, v);
      var slot := ArgSlot(true, inputs, k);
      slot < |o.inputs| && o.inputs[slot].target.Some? && o.inputs[slot].target.value.id == nextId + k &&
      FindInput(o.inputs, FieldRef(OnBlock(nextId + k), "TEXT"), None) == Some(InputName(args[k])) &&
      var rm := RemoveInput(o.inputs, InputName(args[k]));
      rm.disposed == {nextId + k} && Readable(rm.inputs[1..]) &&
      DeclarationSignature(rm.inputs, name) == (name, args[..k] + args[k + 1..])
  {
    var o := Reconcile(Declaration, name, args, true, inputs, nextId, v);
    var P := PopulateAll(Declaration, args, SavedConnections(inputs), nextId, v).inputs;
    var K := KeepStack(inputs);
    RebuiltDeclarationLayout(name, args, inputs, nextId, v);
    assert o.inputs[2 + k] == P[k];
    RemoveFromLayout(o.inputs, name, P, K, args, nextId, k);
  }

  /** Reading back title, label, editors and an optional STACK gives the
      label's name and the editors' arguments. */
  lemma ReadEditorsOnly(inputs: seq<Input>, name: string, P: seq<Input>, K: seq<Input>, args: seq<Arg>,
                         oldName: string)
    requires inputs == [TitleInput(Declaration), LabelInput(Declaration, name)] + P + K
    requires EditorsFor(P, args) && DecodableIds(args)
    requires |K| <= 1 && (K != [] ==> K[0].kind == StatementInput)
    ensures Readable(inputs[1..]) && DeclarationSignature(inputs, oldName) == (name, args)
  {
    ReadEditors(P, args, name, []);
    assert [] + args == args;
    ReadLayoutBack(inputs, name, P, K, args, oldName);
  }

  lemma ReadLayoutBack(inputs: seq<Input>, name: string, P: seq<Input>, K: seq<Input>, args: seq<Arg>,
                       oldName: string)
    requires inputs == [TitleInput(Declaration), LabelInput(Declaration, name)] + P + K
    requires Readable(P) && ReadInputs(P, name, []) == (name, args)
    requires |K| <= 1 && (K != [] ==> K[0].kind == StatementInput)
    ensures Readable(inputs[1..]) && DeclarationSignature(inputs, oldName) == (name, args)
  {
    ReadEditorsThenStack(P, K, name, args);
    var rest := P + K;
    DropTitle(TitleInput(Declaration), LabelInput(Declaration, name), P, K);
    ReadLabelThen(name, oldName, rest);
    assert |inputs| > 1;
  }

  lemma DropTitle(t: Input, l: Input, P: seq<Input>, K: seq<Input>)
    ensures ([t, l] + P + K)[1..] == [l] + (P + K)
  {
    assert [t, l] + P + K == [t] + ([l] + (P + K));
  }

  lemma ReadEditorsThenStack(P: seq<Input>, K: seq<Input>, name: string, args: seq<Arg>)
    requires Readable(P) && ReadInputs(P, name, []) == (name, args)
    requires |K| <= 1 && (K != [] ==> K[0].kind == StatementInput)
    ensures Readable(P + K) && ReadInputs(P + K, name, []) == (name, args)
  {
    ReadStatementTail(K, name, args);
    ReadInputsAppend(P, K, name, []);
  }

  /** The function label sets the name and the reading goes on with the rest. */
  lemma ReadLabelThen(name: string, oldName: string, rest: seq<Input>)
    requires Readable(rest)
    ensures Readable([LabelInput(Declaration, name)] + rest)
    ensures ReadInputs([LabelInput(Declaration, name)] + rest, oldName, []) == ReadInputs(rest, name, [])
  {
    var all := [LabelInput(Declaration, name)] + rest;
    assert all[1..] == rest;
    forall i | 0 <= i < |all|
      ensures (all[i].kind == DummyInput ==> |all[i].fieldRow| > 0) &&
              (all[i].kind == ValueInput ==> all[i].target.Some?)
    {
      if i > 0 { assert all[i] == rest[i - 1]; }
    }
  }

  /** The optional STACK input at the end is skipped. */
  lemma ReadStatementTail(K: seq<Input>, name: string, args: seq<Arg>)
    requires |K| <= 1 && (K != [] ==> K[0].kind == StatementInput)
    ensures Readable(K) && ReadInputs(K, name, args) == (name, args)
  {
    if K != [] {
      assert K[1..] == [];
    }
  }
}
