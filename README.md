# Function signatures of pxt-blockly, modelled in Dafny

This project models the function-signature logic of pxt-blockly's
`blocks/functions.js`. It covers the three blocks that stand for one user
function:

- the declaration (`function_declaration`, the editable preview);
- the definition (`function_definition`, the body);
- the caller (`function_call`).

Each of these blocks keeps `name_`, `functionId_`, `arguments_`, its
`inputList` and a `hasStatements_` flag. It rebuilds its inputs from the
signature with `updateDisplay_`. The caller and argument-reporter event
handlers keep the blocks consistent with each other.

The model has five modules:

- `Signature` (`signature.dfy`): the argument and mutation records, and a
  small DOM tree.
  - `mutationToDom` and `domToMutation` as an encoder and decoder, with the
    round trip.
  - The input-name encoding of custom types (`id_type`) and its decoding
    with `substr(0, 20)` / `substr(21)`.
  - The type switches of `createArgumentReporter_`, `createArgumentEditor_`
    and `getShadowBlockInfoFromType_`.
- `Reconciler` (`reconciler.dfy`): the four steps of `updateDisplay_` as
  functions on the input list.
  - `disconnectOldBlocks_`, `removeAllInputs_`, `createAllInputs_` and
    `deleteShadows_`.
  - The three `populateArgument_` strategies, dispatched on a `Role`.
  - Their composition `Reconcile`, with lemmas on the layout it produces
    and on what a second run with the same signature keeps or replaces.
- `Declaration` (`declaration.dfy`): editing the declaration.
  - Reading the signature back from the inputs (`updateDeclarationMutation_`).
  - Choosing the new parameter (`addParam_`).
  - The search and removal of `removeFieldCallback`.
- `Blocks` (`blocks.dfy`): the block as a class (`FunctionBlock`) whose
  methods update its fields in place with the loops of the JavaScript.
  - Each method is proved equal to the function above that specifies it.
  - A `Workspace` class hands out block ids (`newBlock`) and records
    disposed blocks.
- `Consistency` (`consistency.dfy`): `onCallerChange` and
  `onReporterChange` as decision functions over an abstract workspace. It
  also holds the name sort that the signature comparison uses.

Child blocks (shadows, reporters, editors, user blocks) are values
`Child(id, type, shadow, fields)`. A block's identity is its id. Creating
a block takes the workspace's next id, and disposing one adds its id to the
workspace's disposed set.

The model follows what the code does, including these behaviours that
its comments or its callers might lead one to expect otherwise:

- The definition is looked up by name (`getDefinition(name)`), not by
  function id.
- The caller compares name-sorted lists of whole `{id, name, type}`
  records, so ids count. Signatures are not compared as sets of
  (name, type) pairs.
- A delete event only disposes callers. Reporters inside the deleted body
  are not handled here.
- The connection map is keyed by input name, but the caller and
  definition strategies look entries up by `arg.id`. So re-running the
  caller's reconciler with an unchanged signature does not get back the
  block of a custom-typed argument (`CallerRerunReplacesCustom`): a fresh
  placeholder is attached instead, and the old block is disposed when it
  is a shadow.
- The same keying mismatch acts when an argument keeps its id while its
  type changes from a primitive to a custom one
  (`RetypedArgumentKeepsDisposedBlock`). The caller and the definition find
  the old block under the id and attach it to the new `id_type` input. They
  then null the entry of the new name, so the old entry stays, and
  `deleteShadows_` disposes the block although it is attached, when it is a
  shadow.

One difference goes the other way: `domToMutation` stores `null` for a
missing `name`, `functionid`, or argument `id`, `name` or `type`
attribute. The model reads each of these as an error and does not change
the block (see "## Left out").

## Model

| member | source | states |
|---|---|---|
| Signature.RoundTrip | blocks/functions.js:57-92 | domToMutation of what mutationToDom wrote gives back the same name, function id and argument list (each id, name, type, in order) |
| Signature.ReencodeIsIdentity | blocks/functions.js:57-92 | serialise, read back, serialise again yields the same mutation element |
| Signature.DecodeArgNodes | blocks/functions.js:60-66 | reading the `<arg>` children mutationToDom writes gives back exactly the argument list |
| Signature.DecodeArgsSpec | blocks/functions.js:78-86 | the child loop succeeds iff every child is an element with id, name and type, and then yields one argument per child in document order with those attribute values |
| Signature.DomToMutationSpec | blocks/functions.js:78-92 | domToMutation succeeds iff the node is an element with name and functionid and all children are readable; the result carries those attributes and the children's arguments |
| Signature.InputEncoding | blocks/functions.js:267-282 | a boolean/string/number argument's input is named by its id and gets the matching check; any other type gets `id_type` and no check |
| Signature.CustomInputNameDecoding | blocks/functions.js:267-270 | `substr(0,20)` and `substr(21)` of `id_type` give back the id and the type iff the id has exactly 20 characters |
| Signature.EditorDecoding | blocks/functions.js:607-623 | the editor type and input name built for an argument decode back to its (id, type) iff the type is primitive or the id has 20 characters |
| Signature.TypeSwitchesAgree | blocks/functions.js:427-441 | the reporter built for a type is one of the argument-reporter block types; the reporter, editor and check switches all single out the same three primitive types |
| Reconciler.PlaceholderAgreement | blocks/functions.js:346-417 | attachShadow_'s block and buildShadowDom_'s DOM describe the same placeholder (type and single field); primitive placeholders do not depend on the workspace; any other type gets `variables_get` on the default variable |
| Reconciler.SavedConnectionsSpec | blocks/functions.js:192-214 | disconnectOldBlocks_ records exactly the non-STACK inputs with a connection, keyed by input name, holding their shadow DOM and block (the later input wins on a repeated name); no entry is null |
| Reconciler.DisconnectAllSpec | blocks/functions.js:192-214 | every input is kept in place, with the saved ones cleared of target and shadow DOM |
| Reconciler.KeepStackSpec | blocks/functions.js:222-234 | removeAllInputs_ leaves `[STACK]` (the last STACK input) when one exists and the empty list otherwise |
| Reconciler.KeepStackDisconnected | blocks/functions.js:192-234 | disconnecting does not change which STACK input removeAllInputs_ keeps |
| Reconciler.PopulateAll | blocks/functions.js:263-284 | one argument input per argument; the block counter never decreases |
| Reconciler.PopulateAllShape | blocks/functions.js:263-284 | argument inputs come out in argument order, each named by its input name, with its type's check and a block attached |
| Reconciler.PopulateAllArg | blocks/functions.js:467-540 | per role: the caller reattaches the block saved under `arg.id` with the old or a freshly built shadow DOM, else attaches a new placeholder shadow; the definition reuses the saved reporter with VALUE set to the name, else creates a reporter; the declaration always creates a fresh editor; fresh blocks take new ids |
| Reconciler.PopulateAllConsumes | blocks/functions.js:476-478 | a caller or definition that reuses a saved block nulls its input's entry in the map |
| Reconciler.PopulateAllKeepsEntry | blocks/functions.js:467-540 | an entry no strategy reuses is left as it was |
| Reconciler.DeclarationKeepsMap | blocks/functions.js:529-540 | the declaration strategy never writes to the map |
| Reconciler.ClashFreeLookupsSafe | blocks/functions.js:470-472 | the lookups `connectionMap[arg.id]['block']` never meet a nulled entry when no argument id equals an earlier argument's input name |
| Reconciler.FirstIndex | blocks/functions.js:286-289 | the position moveInputBefore and removeInput act on: the first input with that name, or the end |
| Reconciler.MoveToEndLast | blocks/functions.js:286-289 | moving STACK with moveInputBefore(STACK, null) keeps the length and puts STACK last |
| Reconciler.CreateAllLayout | blocks/functions.js:244-290 | createAllInputs_ yields title, function label, the argument inputs, and the kept STACK last when the block has statements (first otherwise) |
| Reconciler.DeleteShadowsSpec | blocks/functions.js:300-316 | deleteShadows_ disposes and nulls exactly the entries whose saved block is a shadow and leaves every other entry untouched |
| Reconciler.ReconcileLayout | blocks/functions.js:165-180 | updateDisplay_ rebuilds title, label, arguments and STACK in that order, from the argument inputs populated against the saved connections |
| Reconciler.ReconcileArgSlots | blocks/functions.js:165-180 | argument i's input sits at a fixed slot, named by its input name, with its check and a block attached |
| Reconciler.StackLast | blocks/functions.js:286-289 | with statements and a STACK input, STACK is the last input after updateDisplay_ |
| Reconciler.RebuiltKeepStack | blocks/functions.js:222-234 | a rebuilt block keeps the same STACK input on the next run |
| Reconciler.SavedOfLayout | blocks/functions.js:192-214 | the map saved from a rebuilt block holds only the argument inputs' entries |
| Reconciler.RebuiltEntry | blocks/functions.js:467-472 | in the map saved from a rebuilt block, the lookup by `arg.id` finds argument i's block iff its type is primitive |
| Reconciler.CallerRerunKeepsPrimitive | blocks/functions.js:467-485 | re-running the caller with an unchanged signature keeps the block and shadow DOM of every primitive-typed argument |
| Reconciler.RetypedArgumentKeepsDisposedBlock | blocks/functions.js:467-517 | on a caller or definition, an argument keeping its id but changing from a primitive to a custom type gets the old block (the same block on a caller) under its new `id_type` input, and that block is disposed exactly when it is a shadow |
| Reconciler.CallerRerunReplacesCustom | blocks/functions.js:467-485 | re-running the caller with an unchanged signature attaches a new placeholder to a custom-typed argument; the old block is disposed if a shadow and otherwise left disconnected |
| Reconciler.DefinitionShowsNames | blocks/functions.js:497-517 | after the definition is rebuilt, each argument's reporter shows the argument's name |
| Reconciler.DefinitionRerunKeepsPrimitive | blocks/functions.js:497-517 | re-running the definition keeps each primitive-typed argument's reporter |
| Reconciler.DeclarationRerunReplacesEditors | blocks/functions.js:529-540 | re-running the declaration builds a new editor for each argument and disposes the old one |
| Declaration.ReadInputsAppend | blocks/functions.js:587-635 | reading inputs back is a left fold: reading a + b continues from where reading a stopped |
| Declaration.ReadEditors | blocks/functions.js:601-630 | reading a run of argument editors pushes back exactly their arguments when custom ids have 20 characters |
| Declaration.DeclarationFreshEditors | blocks/functions.js:529-581 | the declaration's editors take consecutive fresh ids, one per argument |
| Declaration.DeclarationRoundTrip | blocks/functions.js:587-635 | updateDeclarationMutation_ on a rebuilt declaration gives back the name and arguments it was built from, when custom ids have 20 characters |
| Declaration.UniqueParamName | blocks/functions.js:665 | the chosen parameter name is not among the existing names, and is the default when that is free |
| Declaration.AddParam | blocks/functions.js:663-673 | addParam_ appends one argument at the end with the generated id, the given type and a name no existing argument has; earlier arguments unchanged |
| Declaration.AddParamWellKeyed | blocks/functions.js:663-673 | with a fresh id, the new signature's input names stay distinct |
| Declaration.AddParamReadsBack | blocks/functions.js:663-673 | after addParam_ rebuilds the declaration, reading it back gives the old arguments followed by the new one |
| Declaration.FindInputSpec | blocks/functions.js:719-740 | the search finds a truthy name iff some input with a non-empty name holds the field, and then it is the first such input's name |
| Declaration.RemoveInput | blocks/functions.js:742 | removeInput drops at most one input |
| Declaration.RemoveFromLayout | blocks/functions.js:718-747 | removing argument k's editor field finds argument k's input, disposes that editor, and the signature read back is the arguments without argument k |
| Declaration.RemoveArgumentEditor | blocks/functions.js:718-747 | the same on a declaration rebuilt by updateDisplay_, where argument k's editor has id nextId + k |
| Blocks.Workspace.NewBlock | blocks/functions.js:403 | a new block takes the next id |
| Blocks.Workspace.Dispose | blocks/functions.js:307 | disposing records the block's id |
| Blocks.FunctionBlock.constructor | blocks/functions.js:846-987 | a declaration or definition starts as title, empty label and STACK with statements; a caller starts empty |
| Blocks.FunctionBlock.HasArgument | blocks/functions.js:132-140 | the loop returns true iff some argument has the name and a type the reporter type stands for |
| Blocks.FunctionBlock.RemoveInputNamed | blocks/functions.js:742 | the input list and disposals are those of RemoveInput |
| Blocks.FunctionBlock.SetStatements | blocks/functions.js:147-157 | nothing changes when the flag is unchanged; otherwise STACK is appended or removed and the flag set |
| Blocks.FunctionBlock.DisconnectOldBlocks | blocks/functions.js:192-214 | returns SavedConnections of the old inputs and leaves DisconnectAll of them |
| Blocks.FunctionBlock.RemoveAllInputs | blocks/functions.js:222-234 | the input list becomes KeepStack of the old one |
| Blocks.FunctionBlock.MoveInputToEnd | blocks/functions.js:288 | the input list becomes MoveToEnd of the old one |
| Blocks.FunctionBlock.PopulateOnCaller | blocks/functions.js:467-485 | the input and map are those Populate gives for a caller |
| Blocks.FunctionBlock.PopulateOnDefinition | blocks/functions.js:497-517 | the input and map are those Populate gives for a definition |
| Blocks.FunctionBlock.PopulateOnDeclaration | blocks/functions.js:529-540 | the input and map are those Populate gives for a declaration |
| Blocks.FunctionBlock.PopulateArgument | blocks/functions.js:846-987 | the role dispatch: each block runs its own strategy |
| Blocks.FunctionBlock.AppendArgumentInputs | blocks/functions.js:263-284 | the loop appends PopulateAll's inputs and threads the map and block counter |
| Blocks.FunctionBlock.CreateAllInputs | blocks/functions.js:244-290 | the input list, map and counter become those of CreateAll |
| Blocks.FunctionBlock.DeleteShadows | blocks/functions.js:300-316 | the map becomes DeleteShadows of the old one and exactly its shadow blocks are disposed |
| Blocks.FunctionBlock.UpdateDisplay | blocks/functions.js:165-180 | the inputs, counter and disposals become those of Reconcile; with statements, STACK is last |
| Blocks.FunctionBlock.DomToMutation | blocks/functions.js:78-92 | on a readable element the block takes the decoded name, id and arguments and is rebuilt; a text node empties the arguments and then fails; any other error changes nothing; a block with statements keeps its STACK input |
| Blocks.FunctionBlock.UpdateDeclarationMutation | blocks/functions.js:587-635 | name and arguments become DeclarationSignature of the inputs; the inputs are untouched |
| Blocks.FunctionBlock.AddParam | blocks/functions.js:663-673 | arguments become AddParam of the old ones and the block is rebuilt |
| Blocks.FunctionBlock.FindInputToRemove | blocks/functions.js:719-740 | the loop returns FindInput of the input list |
| Blocks.FunctionBlock.RemoveFieldCallback | blocks/functions.js:718-747 | with a truthy input name: the input is removed, the signature read back and the block rebuilt; otherwise nothing changes |
| Consistency.FindBlock | blocks/functions.js:833 | the root lookup finds a block with that id iff one exists |
| Consistency.GetDefinitionSpec | blocks/functions.js:773-774 | the definition is found iff a definition with that name exists, by name only |
| Consistency.NameLeTotal | blocks/functions.js:778-780 | the name order is total |
| Consistency.NameLeTrans | blocks/functions.js:778-780 | the name order is transitive |
| Consistency.NameLeAntisym | blocks/functions.js:778-780 | the name order is antisymmetric |
| Consistency.SortByNameSpec | blocks/functions.js:777-780 | the sort orders by name and is a permutation |
| Consistency.SortedUnique | blocks/functions.js:777-781 | two name-sorted permutations of the same arguments with distinct names are equal |
| Consistency.SignaturesDifferSpec | blocks/functions.js:777-781 | different argument records always trigger propagation; the same records with distinct names never do, whatever the order |
| Consistency.IdsCount | blocks/functions.js:777-781 | in any argument list, giving one argument another id (name and type unchanged) makes the caller see a different signature |
| Consistency.CallerIgnores | blocks/functions.js:766-804 | a deleted or flyout block does nothing; only its own create event or a delete event makes a caller act |
| Consistency.CallerCreatesDefinition | blocks/functions.js:786-801 | without a same-name definition, a created caller creates one at (x ± SNAP_RADIUS, y + 2·SNAP_RADIUS) whose mutation reads back as the caller's signature |
| Consistency.CallerChecksSignature | blocks/functions.js:772-785 | with a same-name definition, the caller propagates the definition's mutation iff the sorted argument lists differ |
| Consistency.CallerDisposedWithoutDefinition | blocks/functions.js:804-813 | on a delete event the caller is disposed iff no definition with its name remains |
| Consistency.ReporterIgnores | blocks/functions.js:823-831 | a deleted reporter or one in a flyout is kept, and a reporter is only ever disposed on its own creation or on a drag that carried it |
| Consistency.DeclaredReporterIsKept | blocks/functions.js:830-838 | a created or dragged reporter whose root (ids being unique) is a shadow argument reporter, or a definition with an argument of the reporter's VALUE name and matching reporter type, is kept |
| Consistency.KeptReporterIsDeclared | blocks/functions.js:832-841 | a kept reporter under a non-shadow root names an argument of that definition with the matching reporter type |

## Left out

- Rendering and UI: `initSvg`, `render` and the `rendered` flag juggling, `WidgetDiv.hide`, `focusLastEditor_`, colours, tooltips, comments. None of them affects the signature or the inputs.
- `Blockly.Events.disable/enable/setGroup`: event grouping and suppression belong to the undo infrastructure.
- Calls into code that is not part of this model's sources are stand-ins, each with only the contract its call site relies on:
  - `genUid` is a parameter (`uid`).
  - `findUniqueParamName` appends underscores until the name is unused.
  - `getOrCreateVariablePackage(...).getId()` is the workspace's `defaultVariableId`.
  - `getDefinition` is the first same-name definition.
  - `isShadowArgumentReporter` is a shadow block of an argument-reporter type.
  - `isReporterOfType` means the reporter type createArgumentReporter_ builds.
  - `removeInput` and `moveInputBefore` act on the first input with the name.
  - `Xml.domToWorkspace` and `mutateCallersAndDefinition` are returned as actions (`CreateDefinition`, `Propagate`), not performed.
- `localeCompare` is modelled as lexicographic order on character codes. Locale collation is not modelled.
- Coordinates are integers. `getRelativeToSurfaceXY` and `SNAP_RADIUS` are floats in the JavaScript. `SNAP_RADIUS` is a parameter.
- JavaScript exceptions are preconditions of the methods:
  - `connectionMap[arg.id]['block']` on a nulled entry (`LookupsSafe`).
  - `moveInputBefore('STACK')` with no STACK input (`hasStatements ==> HasStack`).
  - `fieldRow[0]` or `target.type` on an unreadable declaration input (`Readable`).
- Signature.DecodeArgsSpec: a child without an `id`, `name` or `type` attribute is a decode error. The JavaScript pushes an argument with a `null` field and carries on. Strings in this model cannot be `null`, and a `null` id or name would flow into every later step.
- Signature.DomToMutationSpec: an element without `name` or `functionid` is a decode error. The JavaScript stores `null` in the field and rebuilds the block, for the same reason as above.
- Blocks.FunctionBlock.DomToMutation: a missing attribute, on the element or on a child, is an error that leaves the block unchanged. The JavaScript stores `null` and rebuilds, as in the two lines above. A text node as the element is modelled as in the JavaScript: `arguments_` is emptied, then reading its attributes fails.
- Reconciler.RetypedArgumentKeepsDisposedBlock: a block disposed while attached stays the input's target in the model. Blockly's `dispose` would unplug it. Block disposal is only recorded as the set of disposed ids.
- Declaration.EditorText: an editor without a TEXT field is read as the empty string. The JavaScript reads `null`.
- The getters `getName`, `getFunctionId` and `getArguments` are the fields `name`, `functionId` and `arguments` of `FunctionBlock`. `FunctionBlock.Mutation()` reads all three together.
- Child blocks are values identified by id. Their own connections, parents and rendering are not modelled. Block identity in `removeFieldCallback` (`getField(name) === field`) is modelled as the field's owner (block id or input name) plus its name.
- The block JSON definitions of the argument editors and reporters (colours, field kinds, message strings) are static configuration.
- `core/renderers/pxt/constants.js` and `core/renderers/pxt/drawer.js` are not part of this model. They are rendering constants and SVG path assembly.
