/**
 * The signature of a user-defined function (its name, its function id and
 * its ordered arguments), the `<mutation>` XML element that stores it, and
 * the per-type switches that blocks/functions.js uses to turn an argument
 * type into an input name, an input check and a block type.
 */
module Signature {

  datatype Option<+T> = None | Some(value: T)

  /** One function parameter: a stable id, a display name and a type
      ("boolean", "string", "number" or the name of a custom type). */
  datatype Arg = Arg(id: string, name: string, typ: string)

  /** The three fields every function block keeps: `name_`, `functionId_`
      and `arguments_`. */
  datatype Mutation = Mutation(name: string, functionId: string, args: seq<Arg>)

  /** A DOM node: an element with attributes and ordered children, or text. */
  datatype Node =
    | Element(tag: string, attrs: map<string, string>, children: seq<Node>)
    | Text(text: string)

  datatype DecodeError =
    | NotAnElement            // getAttribute called on a text node
    | MissingAttribute(attr: string)

  datatype Result<+T> = Ok(value: T) | Err(error: DecodeError)

  // ---------------------------------------------------------------------
  // Argument types

  predicate IsPrimitive(t: string) {
    t == "boolean" || t == "string" || t == "number"
  }

  // ---------------------------------------------------------------------
  // mutationToDom / domToMutation

  function ArgNode(a: Arg): Node {
    Element("arg", map["name" := a.name, "id" := a.id, "type" := a.typ], [])
  }

  function ArgNodes(args: seq<Arg>): seq<Node> {
    if args == [] then [] else [ArgNode(args[0])] + ArgNodes(args[1..])
  }

  /** mutationToDom: `<mutation name functionid>` with one `<arg>` per argument. */
  function MutationToDom(m: Mutation): Node {
    Element("mutation", map["name" := m.name, "functionid" := m.functionId], ArgNodes(m.args))
  }

  /** getAttribute: a text node has none (calling it throws). */
  function GetAttribute(n: Node, attr: string): Result<string> {
    match n
    case Text(_) => Err(NotAnElement)
    case Element(_, attrs, _) =>
      if attr in attrs then Ok(attrs[attr]) else Err(MissingAttribute(attr))
  }

  /** One child of the mutation element, read as an argument; the tag is not looked at. */
  function DecodeArg(c: Node): Result<Arg> {
    match GetAttribute(c, "id")
    case Err(e) => Err(e)
    case Ok(id) =>
      match GetAttribute(c, "name")
      case Err(e) => Err(e)
      case Ok(name) =>
        match GetAttribute(c, "type")
        case Err(e) => Err(e)
        case Ok(typ) => Ok(Arg(id, name, typ))
  }

  /** Every child node becomes an argument, in document order. */
  function DecodeArgs(children: seq<Node>): Result<seq<Arg>> {
    if children == [] then Ok([])
    else
      match DecodeArg(children[0])
      case Err(e) => Err(e)
      case Ok(a) =>
        match DecodeArgs(children[1..])
        case Err(e) => Err(e)
        case Ok(rest) => Ok([a] + rest)
  }

  /** domToMutation, as a decoder: the arguments are read first, then the
      `name` and `functionid` attributes of the element itself. */
  function DomToMutation(n: Node): Result<Mutation> {
    match n
    case Text(_) => Err(NotAnElement)
    case Element(_, _, children) =>
      match DecodeArgs(children)
      case Err(e) => Err(e)
      case Ok(args) =>
        match GetAttribute(n, "name")
        case Err(e) => Err(e)
        case Ok(name) =>
          match GetAttribute(n, "functionid")
          case Err(e) => Err(e)
          case Ok(fid) => Ok(Mutation(name, fid, args))
  }

  lemma {:induction false} DecodeArgNodes(args: seq<Arg>)
    ensures DecodeArgs(ArgNodes(args)) == Ok(args)
  {
    if args != [] {
      DecodeArgNodes(args[1..]);
      assert [args[0]] + args[1..] == args;
    }
  }

  /** Reading back what mutationToDom wrote restores the name, the function
      id and every argument (id, name, type) in the same order. */
  lemma RoundTrip(m: Mutation)
    ensures DomToMutation(MutationToDom(m)) == Ok(m)
  {
    DecodeArgNodes(m.args);
  }

  /** Serialise, read back, serialise again: the same element. */
  lemma ReencodeIsIdentity(m: Mutation)
    ensures DomToMutation(MutationToDom(m)).Ok?
    ensures MutationToDom(DomToMutation(MutationToDom(m)).value) == MutationToDom(m)
  {
    RoundTrip(m);
  }

  /** A child node that domToMutation can read as an argument. */
  predicate ArgReadable(c: Node) {
    c.Element? && "id" in c.attrs && "name" in c.attrs && "type" in c.attrs
  }

  lemma {:induction false} DecodeArgsSpec(children: seq<Node>)
    ensures DecodeArgs(children).Ok? <==> forall i :: 0 <= i < |children| ==> ArgReadable(children[i])
    ensures DecodeArgs(children).Ok? ==>
      |DecodeArgs(children).value| == |children| &&
      forall i :: 0 <= i < |children| ==>
        DecodeArgs(children).value[i] ==
          Arg(children[i].attrs["id"], children[i].attrs["name"], children[i].attrs["type"])
  {
    if children != [] {
      DecodeArgsSpec(children[1..]);
      if DecodeArgs(children).Ok? {
        var rest := DecodeArgs(children[1..]).value;
        assert DecodeArgs(children).value == [DecodeArg(children[0]).value] + rest;
        forall i | 0 < i < |children|
          ensures ArgReadable(children[i])
        {
          assert children[i] == children[1..][i - 1];
        }
      } else if DecodeArg(children[0]).Ok? {
        assert !DecodeArgs(children[1..]).Ok?;
        var i :| 0 <= i < |children[1..]| && !ArgReadable(children[1..][i]);
        assert !ArgReadable(children[i + 1]);
      }
    }
  }

  /** domToMutation succeeds exactly when the node is an element with
      `name` and `functionid` and every child carries `id`, `name` and
      `type`; it then yields those attribute values, child by child. */
  lemma DomToMutationSpec(n: Node)
    ensures DomToMutation(n).Ok? <==>
      n.Element? && "name" in n.attrs && "functionid" in n.attrs &&
      forall i :: 0 <= i < |n.children| ==> ArgReadable(n.children[i])
    ensures DomToMutation(n).Ok? ==>
      var m := DomToMutation(n).value;
      m.name == n.attrs["name"] && m.functionId == n.attrs["functionid"] &&
      |m.args| == |n.children| &&
      forall i :: 0 <= i < |n.children| ==>
        m.args[i] == Arg(n.children[i].attrs["id"], n.children[i].attrs["name"], n.children[i].attrs["type"])
  {
    if n.Element? {
      DecodeArgsSpec(n.children);
    }
  }

  // ---------------------------------------------------------------------
  // Input names and checks (createAllInputs_)

  /** The value input of an argument is named by its id; for a custom type
      the type is appended after an underscore. */
  function InputName(a: Arg): string {
    if IsPrimitive(a.typ) then a.id else a.id + "_" + a.typ
  }

  /** The connection check set on the argument's input. */
  function Check(t: string): Option<string> {
    match t
    case "boolean" => Some("Boolean")
    case "string" => Some("String")
    case "number" => Some("Number")
    case _ => None
  }

  lemma InputEncoding(a: Arg)
    ensures IsPrimitive(a.typ) ==> InputName(a) == a.id && Check(a.typ).Some?
    ensures !IsPrimitive(a.typ) ==> InputName(a) == a.id + "_" + a.typ && Check(a.typ) == None
    ensures a.typ == "boolean" <==> Check(a.typ) == Some("Boolean")
    ensures a.typ == "string" <==> Check(a.typ) == Some("String")
    ensures a.typ == "number" <==> Check(a.typ) == Some("Number")
  {
  }

  /** String.prototype.substr(start, length) for non-negative arguments. */
  function Substr(s: string, start: nat, length: nat): (r: string)
    ensures |r| <= length
  {
    var b := if start < |s| then start else |s|;
    var e := if b + length < |s| then b + length else |s|;
    s[b..e]
  }

  /** String.prototype.substr(start) for a non-negative start. */
  function SubstrFrom(s: string, start: nat): string {
    s[(if start < |s| then start else |s|)..]
  }

  /** updateDeclarationMutation_ reads an argument editor back: the editor's
      block type gives the argument type, and for a custom editor the input
      name is split into a 20-character id and the type after position 21.
      An unknown editor type yields the input name and the empty type. */
  function TypeOfEditor(editorType: string, inputName: string): (r: (string, string))
  {
    match editorType
    case "argument_editor_boolean" => (inputName, "boolean")
    case "argument_editor_string" => (inputName, "string")
    case "argument_editor_number" => (inputName, "number")
    case "argument_editor_custom" => (Substr(inputName, 0, 20), SubstrFrom(inputName, 21))
    case _ => (inputName, "")
  }

  /** createArgumentEditor_'s switch. */
  function EditorType(t: string): string {
    match t
    case "boolean" => "argument_editor_boolean"
    case "string" => "argument_editor_string"
    case "number" => "argument_editor_number"
    case _ => "argument_editor_custom"
  }

  /** createArgumentReporter_'s switch. */
  function ReporterType(t: string): string {
    match t
    case "boolean" => "argument_reporter_boolean"
    case "number" => "argument_reporter_number"
    case "string" => "argument_reporter_string"
    case _ => "argument_reporter_custom"
  }

  predicate IsArgumentReporterType(btype: string) {
    btype == "argument_reporter_boolean" || btype == "argument_reporter_number" ||
    btype == "argument_reporter_string" || btype == "argument_reporter_custom"
  }

  /** Blockly.Functions.isReporterOfType (not part of this model's sources):
      taken to hold when the reporter block type is the one
      createArgumentReporter_ builds for that argument type. */
  predicate IsReporterOfType(argType: string, reporterType: string) {
    reporterType == ReporterType(argType)
  }

  /** What hasArgument looks for: an argument with that name whose type
      the reporter type stands for. */
  predicate HasArgument(args: seq<Arg>, argName: string, reporterType: string) {
    exists i :: 0 <= i < |args| && args[i].name == argName && IsReporterOfType(args[i].typ, reporterType)
  }

  /** Splitting a custom input name gives back the id and the type exactly
      when the id has 20 characters, the length the decoder assumes. */
  lemma CustomInputNameDecoding(id: string, t: string)
    ensures Substr(id + "_" + t, 0, 20) == id && SubstrFrom(id + "_" + t, 21) == t <==> |id| == 20
  {
    var s := id + "_" + t;
    if |id| == 20 {
      assert s[0..20] == id;
      assert s[21..] == t;
    }
  }

  /** The editor a declaration builds for an argument decodes back to that
      argument's id and type exactly when the type is primitive or the id
      has 20 characters. */
  lemma EditorDecoding(a: Arg)
    ensures TypeOfEditor(EditorType(a.typ), InputName(a)) == (a.id, a.typ) <==>
      IsPrimitive(a.typ) || |a.id| == 20
  {
    if !IsPrimitive(a.typ) {
      CustomInputNameDecoding(a.id, a.typ);
    }
  }

  /** The editor, reporter and check switches classify a type the same
      way, and the reporter built for a type is an argument reporter. */
  lemma TypeSwitchesAgree(t: string)
    ensures IsArgumentReporterType(ReporterType(t))
    ensures ReporterType(t) == "argument_reporter_custom" <==> !IsPrimitive(t)
    ensures EditorType(t) == "argument_editor_custom" <==> !IsPrimitive(t)
    ensures Check(t).None? <==> !IsPrimitive(t)
  {
  }

  /** getShadowBlockInfoFromType_: block type, field name and field value of
      the placeholder for an argument type; a custom type gets a variable
      getter on the workspace's default variable, whose id is a parameter. */
  function ShadowInfo(t: string, defaultVariableId: string): (string, string, string) {
    match t
    case "boolean" => ("logic_boolean", "BOOL", "TRUE")
    case "number" => ("math_number", "NUM", "1")
    case "string" => ("text", "TEXT", "abc")
    case _ => ("variables_get", "VAR", defaultVariableId)
  }

  /** buildShadowDom_: `<shadow type><field name>value</field></shadow>`. */
  function BuildShadowDom(t: string, defaultVariableId: string): Node {
    var info := ShadowInfo(t, defaultVariableId);
    Element("shadow", map["type" := info.0],
            [Element("field", map["name" := info.1], [Text(info.2)])])
  }
}
