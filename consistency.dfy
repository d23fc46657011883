/**
 * The consistency rules between callers, definitions and argument
 * reporters (onCallerChange, onReporterChange), as decision functions
 * over an abstract workspace: what a block does in answer to an event.
 */
module Consistency {
  import opened Signature

  const FUNCTION_DEFINITION: string := "function_definition"

  /** A block as the rules see it: its type, its signature (meaningful on
      callers and definitions), its fields, the id of its root block, its
      shadow flag and its position. */
  datatype WsBlock = WsBlock(
    id: nat,
    btype: string,
    mutation: Mutation,
    fields: map<string, string>,
    root: nat,
    shadow: bool,
    x: int,
    y: int)

  datatype Workspace = Workspace(isFlyout: bool, rtl: bool, blocks: seq<WsBlock>)

  /** The events the rules look at; `ids` is `event.ids` of a create
      event, `allNestedIds` is that of an end-of-drag event. */
  datatype Event =
    | Create(ids: seq<nat>)
    | Delete
    | EndDrag(allNestedIds: seq<nat>)
    | OtherEvent

  // ---------------------------------------------------------------------
  // Lookups on the workspace

  /** The first block with the id. */
  function FindBlock(blocks: seq<WsBlock>, id: nat): (r: Option<WsBlock>)
    ensures r.Some? ==> r.value in blocks && r.value.id == id
    ensures r.None? <==> forall i :: 0 <= i < |blocks| ==> blocks[i].id != id
  {
    if blocks == [] then None
    else if blocks[0].id == id then Some(blocks[0])
    else FindBlock(blocks[1..], id)
  }

  predicate IsDefinitionNamed(b: WsBlock, name: string) {
    b.btype == FUNCTION_DEFINITION && b.mutation.name == name
  }

  /** Blockly.Functions.getDefinition (not part of this model's sources):
      the first definition block with that name. */
  function GetDefinition(name: string, blocks: seq<WsBlock>): Option<WsBlock>
  {
    if blocks == [] then None
    else if IsDefinitionNamed(blocks[0], name) then Some(blocks[0])
    else GetDefinition(name, blocks[1..])
  }

  /** The definition is looked up by name only: it is found exactly when
      some definition with that name exists, it is one of the workspace's
      blocks, and the function id plays no part. */
  lemma {:induction false} GetDefinitionSpec(name: string, blocks: seq<WsBlock>)
    ensures GetDefinition(name, blocks).Some? <==>
      exists i :: 0 <= i < |blocks| && IsDefinitionNamed(blocks[i], name)
    ensures GetDefinition(name, blocks).Some? ==>
      GetDefinition(name, blocks).value in blocks && IsDefinitionNamed(GetDefinition(name, blocks).value, name)
    decreases |blocks|
  {
    if blocks != [] && !IsDefinitionNamed(blocks[0], name) {
      GetDefinitionSpec(name, blocks[1..]);
      if exists i :: 0 <= i < |blocks| && IsDefinitionNamed(blocks[i], name) {
        var i :| 0 <= i < |blocks| && IsDefinitionNamed(blocks[i], name);
        assert blocks[1..][i - 1] == blocks[i];
      }
    }
  }

  // ---------------------------------------------------------------------
  // Sorting arguments by name

  /** The order `localeCompare` stands for here: lexicographic on
      character codes. */
  predicate NameLe(a: string, b: string)
    decreases |a|
  {
    a == [] || (b != [] && (a[0] < b[0] || (a[0] == b[0] && NameLe(a[1..], b[1..]))))
  }

  lemma {:induction false} NameLeRefl(a: string)
    ensures NameLe(a, a)
    decreases |a|
  {
    if a != [] {
      NameLeRefl(a[1..]);
    }
  }

  lemma {:induction false} NameLeTotal(a: string, b: string)
    ensures NameLe(a, b) || NameLe(b, a)
    decreases |a|
  {
    if a != [] && b != [] && a[0] == b[0] {
      NameLeTotal(a[1..], b[1..]);
    }
  }

  lemma {:induction false} NameLeTrans(a: string, b: string, c: string)
    requires NameLe(a, b) && NameLe(b, c)
    ensures NameLe(a, c)
    decreases |a|
  {
    if a != [] && a[0] == b[0] && b[0] == c[0] {
      NameLeTrans(a[1..], b[1..], c[1..]);
    }
  }

  lemma {:induction false} NameLeAntisym(a: string, b: string)
    requires NameLe(a, b) && NameLe(b, a)
    ensures a == b
    decreases |a|
  {
    if a != [] {
      NameLeAntisym(a[1..], b[1..]);
      assert a == [a[0]] + a[1..] && b == [b[0]] + b[1..];
    }
  }

  predicate SortedByName(s: seq<Arg>) {
    forall i, j :: 0 <= i < j < |s| ==> NameLe(s[i].name, s[j].name)
  }

  /** Insert before the first argument whose name is not smaller, so that
      an argument goes before the equal names that came after it. */
  function InsertByName(a: Arg, s: seq<Arg>): seq<Arg>
    decreases |s|
  {
    if s == [] || NameLe(a.name, s[0].name) then [a] + s
    else [s[0]] + InsertByName(a, s[1..])
  }

  /** `slice().sort((a, b) => a.name.localeCompare(b.name))`: a stable sort
      by name. */
  function SortByName(args: seq<Arg>): seq<Arg>
    decreases |args|
  {
    if args == [] then [] else InsertByName(args[0], SortByName(args[1..]))
  }

  lemma {:induction false} InsertByNameSpec(a: Arg, s: seq<Arg>)
    requires SortedByName(s)
    ensures SortedByName(InsertByName(a, s))
    ensures multiset(InsertByName(a, s)) == multiset(s) + multiset{a}
    ensures |InsertByName(a, s)| == |s| + 1
    ensures InsertByName(a, s)[0] == a || InsertByName(a, s)[0] == s[0]
    decreases |s|
  {
    if s != [] && !NameLe(a.name, s[0].name) {
      var rest := InsertByName(a, s[1..]);
      SortedTail(s);
      InsertByNameSpec(a, s[1..]);
      NameLeTotal(a.name, s[0].name);
      assert NameLe(s[0].name, rest[0].name) by {
        if rest[0] != a {
          assert rest[0] == s[1];
        }
      }
      SortedCons(s[0], rest);
      assert InsertByName(a, s) == [s[0]] + rest;
      assert s == [s[0]] + s[1..];
    } else {
      SortedCons(a, s);
    }
  }

  /** An argument whose name is at most the first name can go in front. */
  lemma SortedCons(x: Arg, rest: seq<Arg>)
    requires SortedByName(rest)
    requires rest != [] ==> NameLe(x.name, rest[0].name)
    ensures SortedByName([x] + rest)
  {
    var r := [x] + rest;
    forall i, j | 0 <= i < j < |r| ensures NameLe(r[i].name, r[j].name) {
      if i == 0 {
        assert r[j] == rest[j - 1];
        if j > 1 {
          NameLeTrans(x.name, rest[0].name, rest[j - 1].name);
        }
      } else {
        assert r[i] == rest[i - 1] && r[j] == rest[j - 1];
      }
    }
  }

  /** The sort orders by name and keeps exactly the arguments it was given. */
  lemma {:induction false} SortByNameSpec(args: seq<Arg>)
    ensures SortedByName(SortByName(args))
    ensures multiset(SortByName(args)) == multiset(args)
    decreases |args|
  {
    if args != [] {
      SortByNameSpec(args[1..]);
      InsertByNameSpec(args[0], SortByName(args[1..]));
      assert args == [args[0]] + args[1..];
    }
  }

  predicate DistinctNames(s: seq<Arg>) {
    forall i, j :: 0 <= i < j < |s| ==> s[i].name != s[j].name
  }

  lemma SortedTail(s: seq<Arg>)
    requires s != [] && SortedByName(s)
    ensures SortedByName(s[1..])
  {
    forall a, b | 0 <= a < b < |s| - 1 ensures NameLe(s[1..][a].name, s[1..][b].name) {
      assert s[1..][a] == s[a + 1] && s[1..][b] == s[b + 1];
    }
  }

  lemma DistinctTail(s: seq<Arg>)
    requires s != [] && DistinctNames(s)
    ensures DistinctNames(s[1..])
  {
    forall a, b | 0 <= a < b < |s| - 1 ensures s[1..][a].name != s[1..][b].name {
      assert s[1..][a] == s[a + 1] && s[1..][b] == s[b + 1];
    }
  }

  /** Sorted lists holding the same arguments, with distinct names, start
      with the same argument: the one with the smallest name. */
  lemma SortedSameHead(s: seq<Arg>, t: seq<Arg>)
    requires SortedByName(s) && SortedByName(t) && DistinctNames(s)
    requires multiset(s) == multiset(t) && s != []
    ensures t != [] && s[0] == t[0]
  {
    assert s[0] in multiset(t);
    assert t != [] && t[0] in multiset(s);
    var j :| 0 <= j < |t| && t[j] == s[0];
    var i :| 0 <= i < |s| && s[i] == t[0];
    NameLeRefl(s[0].name);
    assert NameLe(t[0].name, s[0].name) by { if j > 0 { assert NameLe(t[0].name, t[j].name); } }
    assert NameLe(s[0].name, t[0].name) by { if i > 0 { assert NameLe(s[0].name, s[i].name); } }
    NameLeAntisym(s[0].name, t[0].name);
    assert i == 0;
  }

  /** Two name-sorted lists holding the same arguments, with no name used
      twice, are the same list. */
  lemma {:induction false} SortedUnique(s: seq<Arg>, t: seq<Arg>)
    requires SortedByName(s) && SortedByName(t) && DistinctNames(s)
    requires multiset(s) == multiset(t)
    ensures s == t
    decreases |s|
  {
    if s != [] {
      SortedSameHead(s, t);
      assert s == [s[0]] + s[1..] && t == [t[0]] + t[1..];
      assert multiset(s) == multiset{s[0]} + multiset(s[1..]);
      assert multiset(t) == multiset{s[0]} + multiset(t[1..]);
      assert multiset(s[1..]) == multiset(s) - multiset{s[0]};
      assert multiset(t[1..]) == multiset(t) - multiset{s[0]};
      SortedTail(s);
      SortedTail(t);
      DistinctTail(s);
      SortedUnique(s[1..], t[1..]);
    } else {
      assert |t| == |multiset(t)| == 0;
    }
  }

  /** The comparison onCallerChange makes: the two name-sorted argument
      lists differ, whole records compared (so ids count). */
  predicate SignaturesDiffer(callerArgs: seq<Arg>, defArgs: seq<Arg>) {
    SortByName(callerArgs) != SortByName(defArgs)
  }

  /** Lists that differ as collections of {id, name, type} records always
      differ after sorting; lists holding the same records with distinct
      names never do, whatever their order. */
  lemma SignaturesDifferSpec(callerArgs: seq<Arg>, defArgs: seq<Arg>)
    ensures multiset(callerArgs) != multiset(defArgs) ==> SignaturesDiffer(callerArgs, defArgs)
    ensures multiset(callerArgs) == multiset(defArgs) && DistinctNames(callerArgs) ==>
      !SignaturesDiffer(callerArgs, defArgs)
  {
    SortByNameSpec(callerArgs);
    SortByNameSpec(defArgs);
    if multiset(callerArgs) == multiset(defArgs) && DistinctNames(callerArgs) {
      var s := SortByName(callerArgs);
      assert DistinctNames(s) by {
        forall i, j | 0 <= i < j < |s| ensures s[i].name != s[j].name {
          assert s[i] in multiset(callerArgs) && s[j] in multiset(callerArgs);
          var a :| 0 <= a < |callerArgs| && callerArgs[a] == s[i];
          var b :| 0 <= b < |callerArgs| && callerArgs[b] == s[j];
          if a == b {
            SortedDistinctPositions(s, callerArgs, i, j);
          }
        }
      }
      SortedUnique(s, SortByName(defArgs));
    }
  }

  /** In a permutation of a list with distinct names, two positions never
      hold the same argument. */
  lemma SortedDistinctPositions(s: seq<Arg>, args: seq<Arg>, i: nat, j: nat)
    requires multiset(s) == multiset(args) && DistinctNames(args)
    requires i < j < |s|
    ensures s[i] != s[j]
  {
    var x := s[i];
    assert s == s[..i] + [s[i]] + s[i + 1..j] + [s[j]] + s[j + 1..];
    assert multiset(s) == multiset(s[..i]) + multiset{x} + multiset(s[i + 1..j]) + multiset{s[j]} + multiset(s[j + 1..]);
    DistinctOnce(args, x);
    assert multiset(s)[x] <= 1;
  }

  /** With distinct names, no argument occurs twice. */
  lemma {:induction false} DistinctOnce(args: seq<Arg>, x: Arg)
    requires DistinctNames(args)
    ensures multiset(args)[x] <= 1
    decreases |args|
  {
    if args != [] {
      assert args == [args[0]] + args[1..];
      assert DistinctNames(args[1..]) by {
        forall a, b | 0 <= a < b < |args| - 1 ensures args[1..][a].name != args[1..][b].name {
          assert args[1..][a] == args[a + 1] && args[1..][b] == args[b + 1];
        }
      }
      DistinctOnce(args[1..], x);
      if x == args[0] {
        forall k | 0 <= k < |args[1..]| ensures args[1..][k] != x {
          assert args[1..][k] == args[k + 1];
        }
        assert x !in args[1..];
      }
    }
  }

  /** Changing one argument's id, names and types left alone, always
      counts as a different signature, whatever the list. */
  lemma IdsCount(args: seq<Arg>, k: nat, otherId: string)
    requires k < |args| && otherId != args[k].id
    ensures SignaturesDiffer(args, args[k := args[k].(id := otherId)])
  {
    var a := args[k];
    var b := a.(id := otherId);
    var changed := args[k := b];
    assert args == args[..k] + [a] + args[k + 1..];
    assert changed == args[..k] + [b] + args[k + 1..];
    assert multiset(changed)[a] + 1 == multiset(args)[a];
    SignaturesDifferSpec(args, changed);
  }

  // ---------------------------------------------------------------------
  // onCallerChange

  /** What a caller does in answer to an event. `Propagate` stands for
      mutateCallersAndDefinition(definition name, workspace, definition
      mutation); `CreateDefinition` for domToWorkspace of a
      function_definition block at (x, y) carrying the mutation. */
  datatype CallerAction =
    | Ignore
    | Propagate(defName: string, mutation: Node)
    | CreateDefinition(x: int, y: int, mutation: Node)
    | DisposeCaller

  /** onCallerChange. `ws` is None once the block has been deleted;
      Blockly.SNAP_RADIUS (not part of this model's sources) is a parameter. */
  function OnCallerChange(caller: WsBlock, ws: Option<Workspace>, e: Event, snapRadius: int): CallerAction {
    if ws.None? || ws.value.isFlyout then Ignore
    else
      match e
      case Create(ids) =>
        if caller.id !in ids then Ignore
        else
          (match GetDefinition(caller.mutation.name, ws.value.blocks)
           case Some(def) =>
             if SignaturesDiffer(caller.mutation.args, def.mutation.args) then
               Propagate(def.mutation.name, MutationToDom(def.mutation))
             else Ignore
           case None =>
             CreateDefinition(caller.x + snapRadius * (if ws.value.rtl then -1 else 1),
                              caller.y + snapRadius * 2, MutationToDom(caller.mutation)))
      case Delete =>
        if GetDefinition(caller.mutation.name, ws.value.blocks).None? then DisposeCaller else Ignore
      case _ => Ignore
  }

  /** A deleted block and a block in a flyout do nothing, and a caller
      only ever reacts to its own creation or to a deletion. */
  lemma CallerIgnores(caller: WsBlock, ws: Option<Workspace>, e: Event, snapRadius: int)
    ensures ws.None? || ws.value.isFlyout ==> OnCallerChange(caller, ws, e, snapRadius) == Ignore
    ensures e.EndDrag? || e.OtherEvent? || (e.Create? && caller.id !in e.ids) ==>
      OnCallerChange(caller, ws, e, snapRadius) == Ignore
    ensures OnCallerChange(caller, ws, e, snapRadius).DisposeCaller? ==> e.Delete?
    ensures (OnCallerChange(caller, ws, e, snapRadius).CreateDefinition? ||
             OnCallerChange(caller, ws, e, snapRadius).Propagate?) ==> e.Create? && caller.id in e.ids
  {
  }

  /** On a create event a caller without a same-name definition creates
      one: beside it (left in right-to-left mode), two snap radii lower,
      with a mutation that reads back as the caller's own signature. */
  lemma CallerCreatesDefinition(caller: WsBlock, ws: Workspace, ids: seq<nat>, snapRadius: int)
    requires caller.id in ids && !ws.isFlyout
    requires forall i :: 0 <= i < |ws.blocks| ==> !IsDefinitionNamed(ws.blocks[i], caller.mutation.name)
    ensures var r := OnCallerChange(caller, Some(ws), Create(ids), snapRadius);
      r.CreateDefinition? &&
      r.x == (if ws.rtl then caller.x - snapRadius else caller.x + snapRadius) &&
      r.y == caller.y + 2 * snapRadius &&
      DomToMutation(r.mutation) == Ok(caller.mutation)
  {
    GetDefinitionSpec(caller.mutation.name, ws.blocks);
    RoundTrip(caller.mutation);
  }

  /** On a create event a caller with a same-name definition propagates
      the definition's signature exactly when the name-sorted argument
      lists differ; the definition found has the caller's name. */
  lemma CallerChecksSignature(caller: WsBlock, ws: Workspace, ids: seq<nat>, snapRadius: int, k: nat)
    requires caller.id in ids && !ws.isFlyout
    requires k < |ws.blocks| && IsDefinitionNamed(ws.blocks[k], caller.mutation.name)
    ensures GetDefinition(caller.mutation.name, ws.blocks).Some?
    ensures var r := OnCallerChange(caller, Some(ws), Create(ids), snapRadius);
      var def := GetDefinition(caller.mutation.name, ws.blocks).value;
      def in ws.blocks && def.btype == FUNCTION_DEFINITION && def.mutation.name == caller.mutation.name &&
      (r.Propagate? <==> SignaturesDiffer(caller.mutation.args, def.mutation.args)) &&
      (r.Propagate? ==> r.defName == caller.mutation.name && DomToMutation(r.mutation) == Ok(def.mutation)) &&
      (!r.Propagate? ==> r == Ignore)
  {
    GetDefinitionSpec(caller.mutation.name, ws.blocks);
    RoundTrip(GetDefinition(caller.mutation.name, ws.blocks).value.mutation);
  }

  /** On a delete event a caller is disposed exactly when no definition
      with its name is left; a definition sharing only its function id
      does not keep it. */
  lemma CallerDisposedWithoutDefinition(caller: WsBlock, ws: Workspace, snapRadius: int)
    requires !ws.isFlyout
    ensures OnCallerChange(caller, Some(ws), Delete, snapRadius) == DisposeCaller <==>
      forall i :: 0 <= i < |ws.blocks| ==> !IsDefinitionNamed(ws.blocks[i], caller.mutation.name)
    ensures OnCallerChange(caller, Some(ws), Delete, snapRadius) != DisposeCaller ==>
      OnCallerChange(caller, Some(ws), Delete, snapRadius) == Ignore
  {
    GetDefinitionSpec(caller.mutation.name, ws.blocks);
  }

  // ---------------------------------------------------------------------
  // onReporterChange

  datatype ReporterAction = Keep | DisposeReporter

  /** The event concerns this reporter: it was created, or it was inside
      a dragged stack. */
  predicate Triggered(e: Event, id: nat) {
    (e.Create? && id in e.ids) || (e.EndDrag? && id in e.allNestedIds)
  }

  /** Blockly.Functions.isShadowArgumentReporter (not part of this model's
      sources): a shadow argument reporter, the placeholder a definition
      carries for each argument. */
  predicate IsShadowArgumentReporter(b: WsBlock) {
    b.shadow && IsArgumentReporterType(b.btype)
  }

  /** The definition root declares the reporter: `getFieldValue('VALUE')`
      (null when the field is missing, which matches no argument name)
      names an argument whose type the reporter's block type stands for. */
  predicate RootDeclares(root: WsBlock, reporter: WsBlock) {
    root.btype == FUNCTION_DEFINITION && "VALUE" in reporter.fields &&
    HasArgument(root.mutation.args, reporter.fields["VALUE"], reporter.btype)
  }

  /** getRootBlock always finds a block: the reporter's root is in the
      workspace. */
  predicate RootPresent(reporter: WsBlock, ws: Workspace) {
    FindBlock(ws.blocks, reporter.root).Some?
  }

  /** onReporterChange. */
  function OnReporterChange(reporter: WsBlock, ws: Option<Workspace>, e: Event): ReporterAction
    requires ws.Some? && !ws.value.isFlyout && Triggered(e, reporter.id) ==> RootPresent(reporter, ws.value)
  {
    if ws.None? || ws.value.isFlyout then Keep
    else if !Triggered(e, reporter.id) then Keep
    else
      var root := FindBlock(ws.value.blocks, reporter.root).value;
      if !IsShadowArgumentReporter(root) && !RootDeclares(root, reporter) then DisposeReporter
      else Keep
  }

  /** A deleted reporter and a reporter in a flyout do nothing, and a
      reporter only reacts to its own creation or to a drag that carried
      it. */
  lemma ReporterIgnores(reporter: WsBlock, ws: Option<Workspace>, e: Event)
    requires ws.Some? && !ws.value.isFlyout && Triggered(e, reporter.id) ==> RootPresent(reporter, ws.value)
    ensures ws.None? || ws.value.isFlyout ==> OnReporterChange(reporter, ws, e) == Keep
    ensures e.Delete? || e.OtherEvent? ==> OnReporterChange(reporter, ws, e) == Keep
    ensures OnReporterChange(reporter, ws, e) == DisposeReporter ==>
      (e.Create? && reporter.id in e.ids) || (e.EndDrag? && reporter.id in e.allNestedIds)
  {
  }

  /** Block ids are unique within a workspace. */
  predicate UniqueIds(blocks: seq<WsBlock>) {
    forall i, j :: 0 <= i < j < |blocks| ==> blocks[i].id != blocks[j].id
  }

  /** A reporter created or dragged into a stack whose root is a
      definition declaring an argument of the reporter's VALUE name, with
      the type the reporter's block type stands for, is always kept; so is
      one whose root is a shadow argument reporter. */
  lemma DeclaredReporterIsKept(reporter: WsBlock, ws: Workspace, e: Event, j: nat)
    requires !ws.isFlyout && Triggered(e, reporter.id) && UniqueIds(ws.blocks)
    requires j < |ws.blocks| && ws.blocks[j].id == reporter.root
    requires IsShadowArgumentReporter(ws.blocks[j]) ||
      (ws.blocks[j].btype == FUNCTION_DEFINITION && "VALUE" in reporter.fields &&
       exists i :: 0 <= i < |ws.blocks[j].mutation.args| &&
         ws.blocks[j].mutation.args[i].name == reporter.fields["VALUE"] &&
         reporter.btype == ReporterType(ws.blocks[j].mutation.args[i].typ))
    ensures RootPresent(reporter, ws)
    ensures OnReporterChange(reporter, Some(ws), e) == Keep
  {
  }

  /** Reference validity: a reporter kept after being created or dragged
      under a definition that is not a placeholder names one of that
      definition's arguments, with the matching reporter type. */
  lemma KeptReporterIsDeclared(reporter: WsBlock, ws: Workspace, e: Event)
    requires !ws.isFlyout && Triggered(e, reporter.id) && RootPresent(reporter, ws)
    requires OnReporterChange(reporter, Some(ws), e) == Keep
    requires !FindBlock(ws.blocks, reporter.root).value.shadow
    ensures var root := FindBlock(ws.blocks, reporter.root).value;
      root.btype == FUNCTION_DEFINITION && "VALUE" in reporter.fields &&
      exists i :: 0 <= i < |root.mutation.args| && root.mutation.args[i].name == reporter.fields["VALUE"] &&
        IsReporterOfType(root.mutation.args[i].typ, reporter.btype)
  {
  }
}
