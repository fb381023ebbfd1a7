/** The older xsbug client of src/xs/XsbugConnection.ts: the class
    `XsbugMessage`, whose constructor assigns one field per child of the
    document (a later child of the same kind overwriting an earlier one),
    and the class `XsbugConnection`, whose `onmessage` hands the message to
    exactly one hook.  Its node parsers read `attributes.value.value`
    without a guard, so frames and properties need a value attribute here;
    they are the parsers of xsbug_parser.dfy with `strict` set. */
module XsbugConnectionModel {
  import opened Wrappers
  import opened JsText
  import opened XsbugParser
  import XsbugCommands

  datatype Login = Login(name: string, value: string)
  datatype BreakInfo = BreakInfo(path: string, line: JsNumber, message: string)
  /** The `local` field: the frame of the node with its `properties`. */
  datatype LocalFrame = LocalFrame(frame: Frame, properties: seq<Property>)

  /** The fields of an `XsbugMessage`, `None` while unassigned. The source
      names `breakInfo` `break` and `moduleList` `module`. */
  datatype MessageFields = MessageFields(
    login: Option<Login>,
    samples: Option<seq<JsNumber>>,
    frames: Option<seq<Frame>>,
    local: Option<LocalFrame>,
    global: Option<seq<Property>>,
    moduleList: Option<seq<Property>>,
    breakInfo: Option<BreakInfo>,
    log: Option<string>,
    instruments: Option<seq<InstrumentDef>>)

  const NoFields := MessageFields(None, None, None, None, None, None, None, None, None)

  /** The value one static node parser assigns, tagged with its field. */
  datatype FieldValue =
    | LoginValue(login: Login)
    | SamplesValue(samples: seq<JsNumber>)
    | FramesValue(frames: seq<Frame>)
    | LocalValue(local: LocalFrame)
    | GlobalValue(global: seq<Property>)
    | ModuleValue(moduleList: seq<Property>)
    | BreakValue(breakInfo: BreakInfo)
    | LogValue(log: string)
    | InstrumentsValue(instruments: seq<InstrumentDef>)

  /** The node name whose parser assigns the value's field. */
  function Kind(v: FieldValue): string {
    match v
    case LoginValue(_) => "login"
    case SamplesValue(_) => "samples"
    case FramesValue(_) => "frames"
    case LocalValue(_) => "local"
    case GlobalValue(_) => "global"
    case ModuleValue(_) => "grammar"
    case BreakValue(_) => "break"
    case LogValue(_) => "log"
    case InstrumentsValue(_) => "instruments"
  }

  /** The field a node kind assigns, read from `f`; `None` while unassigned
      and for names that have no parser. */
  function FieldOf(f: MessageFields, kind: string): Option<FieldValue> {
    match kind
    case "login" => if f.login.Some? then Some(LoginValue(f.login.value)) else None
    case "samples" => if f.samples.Some? then Some(SamplesValue(f.samples.value)) else None
    case "frames" => if f.frames.Some? then Some(FramesValue(f.frames.value)) else None
    case "local" => if f.local.Some? then Some(LocalValue(f.local.value)) else None
    case "global" => if f.global.Some? then Some(GlobalValue(f.global.value)) else None
    case "grammar" => if f.moduleList.Some? then Some(ModuleValue(f.moduleList.value)) else None
    case "break" => if f.breakInfo.Some? then Some(BreakValue(f.breakInfo.value)) else None
    case "log" => if f.log.Some? then Some(LogValue(f.log.value)) else None
    case "instruments" => if f.instruments.Some? then Some(InstrumentsValue(f.instruments.value)) else None
    case _ => None
  }

  /** The nine kinds read every field: two messages that agree on all of
      them are the same message. */
  lemma FieldsDetermine(a: MessageFields, b: MessageFields)
    requires forall k :: FieldOf(a, k) == FieldOf(b, k)
    ensures a == b
  {
    assert FieldOf(a, "login") == FieldOf(b, "login");
    assert FieldOf(a, "samples") == FieldOf(b, "samples");
    assert FieldOf(a, "frames") == FieldOf(b, "frames");
    assert FieldOf(a, "local") == FieldOf(b, "local");
    assert FieldOf(a, "global") == FieldOf(b, "global");
    assert FieldOf(a, "grammar") == FieldOf(b, "grammar");
    assert FieldOf(a, "break") == FieldOf(b, "break");
    assert FieldOf(a, "log") == FieldOf(b, "log");
    assert FieldOf(a, "instruments") == FieldOf(b, "instruments");
  }

  /** `message.<field> = value`. */
  function Store(f: MessageFields, v: FieldValue): (r: MessageFields)
    ensures FieldOf(r, Kind(v)) == Some(v)
    ensures forall k :: k != Kind(v) ==> FieldOf(r, k) == FieldOf(f, k)
  {
    match v
    case LoginValue(x) => f.(login := Some(x))
    case SamplesValue(x) => f.(samples := Some(x))
    case FramesValue(x) => f.(frames := Some(x))
    case LocalValue(x) => f.(local := Some(x))
    case GlobalValue(x) => f.(global := Some(x))
    case ModuleValue(x) => f.(moduleList := Some(x))
    case BreakValue(x) => f.(breakInfo := Some(x))
    case LogValue(x) => f.(log := Some(x))
    case InstrumentsValue(x) => f.(instruments := Some(x))
  }

  /** What the static parser `XsbugMessage[node.nodeName]` computes for a
      child: `local` keeps its properties in document order, `global` and
      `grammar` sort theirs by name; a name without a parser throws. */
  function ChildValue(n: Node): (r: Result<FieldValue, ParseError>)
    ensures !HasParser(NodeName(n)) ==> r == Err(NoParser(NodeName(n)))
    ensures NodeName(n) == "login" ==>
      (r.Ok? <==> "name" in n.attrs && "value" in n.attrs)
      && (r.Ok? ==> r.value == LoginValue(Login(n.attrs["name"], n.attrs["value"])))
    ensures NodeName(n) == "samples" ==> r == Ok(SamplesValue(ParseSamples(TextContent(n))))
    ensures NodeName(n) == "frames" ==>
      (r.Ok? <==> ParseFrames(n.children, true).Ok?)
      && (r.Ok? ==> r.value == FramesValue(ParseFrames(n.children, true).value))
    ensures NodeName(n) == "local" ==>
      (r.Ok? <==> ParseFrame(n, true).Ok? && PropertyNodesOk(n.children, true))
      && (r.Ok? ==> r.value == LocalValue(LocalFrame(ParseFrame(n, true).value, ParseProperties(n.children, true).value)))
    ensures NodeName(n) == "global" ==>
      (r.Ok? <==> PropertyNodesOk(n.children, true))
      && (r.Ok? ==> r.value.GlobalValue? && SortedParse(r.value.global, n.children, true) && Sorting.SortedBy(r.value.global, NameLe))
    ensures NodeName(n) == "grammar" ==>
      (r.Ok? <==> PropertyNodesOk(n.children, true))
      && (r.Ok? ==> r.value.ModuleValue? && SortedParse(r.value.moduleList, n.children, true) && Sorting.SortedBy(r.value.moduleList, NameLe))
    ensures NodeName(n) == "break" ==>
      (r.Ok? <==> "path" in n.attrs && "line" in n.attrs)
      && (r.Ok? ==> r.value == BreakValue(BreakInfo(n.attrs["path"], ParseInt(n.attrs["line"]), TextContent(n))))
    ensures NodeName(n) == "log" ==> r == Ok(LogValue(TextContent(n)))
    ensures NodeName(n) == "instruments" ==>
      (r.Ok? <==> ParseInstruments(n.children).Ok?)
      && (r.Ok? ==> r.value == InstrumentsValue(ParseInstruments(n.children).value))
  {
    match NodeName(n)
    case "login" =>
      var name :- Attr(n, "name");
      var value :- Attr(n, "value");
      Ok(LoginValue(Login(name, value)))
    case "samples" =>
      Ok(SamplesValue(ParseSamples(TextContent(n))))
    case "frames" =>
      var frames :- ParseFrames(n.children, true);
      Ok(FramesValue(frames))
    case "local" =>
      var frame :- ParseFrame(n, true);
      var properties :- ParseProperties(n.children, true);
      Ok(LocalValue(LocalFrame(frame, properties)))
    case "global" =>
      var global :- ParseProperties(n.children, true);
      Ok(GlobalValue(SortByName(global)))
    case "grammar" =>
      var moduleList :- ParseProperties(n.children, true);
      Ok(ModuleValue(SortByName(moduleList)))
    case "break" =>
      var path :- Attr(n, "path");
      var line :- Attr(n, "line");
      Ok(BreakValue(BreakInfo(path, ParseInt(line), TextContent(n))))
    case "log" =>
      Ok(LogValue(TextContent(n)))
    case "instruments" =>
      var instruments :- ParseInstruments(n.children);
      Ok(InstrumentsValue(instruments))
    case _ =>
      Err(NoParser(NodeName(n)))
  }

  /** A child's value is for the field of the child's own kind. */
  /** A parsed child's value is of the child's own kind. One lemma per kind
      keeps each proof to a single case of the parser table. */
  lemma ChildValueKind(n: Node)
    requires ChildValue(n).Ok?
    ensures Kind(ChildValue(n).value) == NodeName(n)
  {
    var name := NodeName(n);
    assert HasParser(name);
    if name == "login" {
      LoginKind(n);
    } else if name == "samples" {
      SamplesKind(n);
    } else if name == "frames" {
      FramesKind(n);
    } else if name == "local" {
      LocalKind(n);
    } else if name == "global" {
      GlobalKind(n);
    } else if name == "grammar" {
      GrammarKind(n);
    } else if name == "break" {
      BreakKind(n);
    } else if name == "log" {
      LogKind(n);
    } else if name == "instruments" {
      InstrumentsKind(n);
    }
  }

  lemma LoginKind(n: Node)
    requires NodeName(n) == "login" && ChildValue(n).Ok?
    ensures Kind(ChildValue(n).value) == "login"
  {
  }

  lemma SamplesKind(n: Node)
    requires NodeName(n) == "samples" && ChildValue(n).Ok?
    ensures Kind(ChildValue(n).value) == "samples"
  {
  }

  lemma FramesKind(n: Node)
    requires NodeName(n) == "frames" && ChildValue(n).Ok?
    ensures Kind(ChildValue(n).value) == "frames"
  {
  }

  lemma LocalKind(n: Node)
    requires NodeName(n) == "local" && ChildValue(n).Ok?
    ensures Kind(ChildValue(n).value) == "local"
  {
  }

  lemma GlobalKind(n: Node)
    requires NodeName(n) == "global" && ChildValue(n).Ok?
    ensures Kind(ChildValue(n).value) == "global"
  {
    assert ChildValue(n).value.GlobalValue?;
  }

  lemma GrammarKind(n: Node)
    requires NodeName(n) == "grammar" && ChildValue(n).Ok?
    ensures Kind(ChildValue(n).value) == "grammar"
  {
    assert ChildValue(n).value.ModuleValue?;
  }

  lemma BreakKind(n: Node)
    requires NodeName(n) == "break" && ChildValue(n).Ok?
    ensures Kind(ChildValue(n).value) == "break"
  {
  }

  lemma LogKind(n: Node)
    requires NodeName(n) == "log" && ChildValue(n).Ok?
    ensures Kind(ChildValue(n).value) == "log"
  {
  }

  lemma InstrumentsKind(n: Node)
    requires NodeName(n) == "instruments" && ChildValue(n).Ok?
    ensures Kind(ChildValue(n).value) == "instruments"
  {
  }

  /** `XsbugMessage[node.nodeName](this, node)`: the child's parser assigns
      the field of its kind and no other. */
  function Apply(f: MessageFields, n: Node): (r: Result<MessageFields, ParseError>)
    ensures r.Ok? <==> ChildValue(n).Ok?
    ensures !HasParser(NodeName(n)) ==> r == Err(NoParser(NodeName(n)))
    ensures r.Ok? ==> FieldOf(r.value, NodeName(n)) == Some(ChildValue(n).value)
    ensures r.Ok? ==> forall k :: k != NodeName(n) ==> FieldOf(r.value, k) == FieldOf(f, k)
  {
    var v :- ChildValue(n);
    ChildValueKind(n);
    Ok(Store(f, v))
  }

  /** The children applied in document order; the first failure ends it. */
  function ApplyAll(f: MessageFields, cs: seq<Node>): Result<MessageFields, ParseError> {
    if cs == [] then Ok(f)
    else
      var g :- ApplyAll(f, cs[..|cs| - 1]);
      Apply(g, cs[|cs| - 1])
  }

  /** The last child of the given kind. */
  function LastNamed(cs: seq<Node>, name: string): (r: Option<Node>)
    ensures r.Some? ==> r.value in cs && NodeName(r.value) == name
    ensures r.None? <==> forall i :: 0 <= i < |cs| ==> NodeName(cs[i]) != name
  {
    if cs == [] then None
    else if NodeName(cs[|cs| - 1]) == name then Some(cs[|cs| - 1])
    else LastNamed(cs[..|cs| - 1], name)
  }

  /** A later child overwrites an earlier one: every field holds what the
      LAST child of its kind assigns, and is unchanged when there is none. */
  lemma {:induction false} LaterChildWins(f: MessageFields, cs: seq<Node>)
    requires ApplyAll(f, cs).Ok?
    ensures forall k :: LastNamed(cs, k).None? ==> FieldOf(ApplyAll(f, cs).value, k) == FieldOf(f, k)
    ensures forall k :: LastNamed(cs, k).Some? ==>
      ChildValue(LastNamed(cs, k).value).Ok?
      && FieldOf(ApplyAll(f, cs).value, k) == Some(ChildValue(LastNamed(cs, k).value).value)
  {
    if cs != [] {
      var init := cs[..|cs| - 1];
      var last := cs[|cs| - 1];
      assert ApplyAll(f, cs) == Apply(ApplyAll(f, init).value, last);
      LaterChildWins(f, init);
      forall k ensures LastNamed(cs, k) == if NodeName(last) == k then Some(last) else LastNamed(init, k) {
      }
    }
  }

  /** `new XsbugMessage(xml)`. */
  class XsbugMessage {
    var fields: MessageFields

    constructor ()
      ensures fields == NoFields
    {
      fields := NoFields;
    }

    /** The body of the source's constructor: the root must be `xsbug`, then
        each child assigns its field in turn. */
    method Load(root: Node) returns (r: Result<(), ParseError>)
      modifies this
      ensures NodeName(root) != "xsbug" ==> r == Err(NotXsbug)
      ensures NodeName(root) == "xsbug" ==>
        (r.Ok? <==> ApplyAll(old(fields), root.children).Ok?)
        && (r.Ok? ==> fields == ApplyAll(old(fields), root.children).value)
    {
      if NodeName(root) != "xsbug" {
        return Err(NotXsbug);
      }
      var cs := root.children;
      var i := 0;
      while i < |cs|
        invariant 0 <= i <= |cs|
        invariant ApplyAll(old(fields), cs[..i]) == Ok(fields)
      {
        assert cs[..i + 1][..i] == cs[..i];
        var next := Apply(fields, cs[i]);
        if next.Err? {
          assert ApplyAll(old(fields), cs[..i + 1]).Err?;
          ApplyAllErrExtends(old(fields), cs, i + 1);
          return Err(next.error);
        }
        fields := next.value;
        i := i + 1;
      }
      assert cs[..i] == cs;
      r := Ok(());
    }
  }

  lemma {:induction false} ApplyAllErrExtends(f: MessageFields, cs: seq<Node>, i: nat)
    requires i <= |cs| && ApplyAll(f, cs[..i]).Err?
    ensures ApplyAll(f, cs).Err?
    decreases |cs| - i
  {
    if i < |cs| {
      assert cs[..i + 1][..i] == cs[..i];
      ApplyAllErrExtends(f, cs, i + 1);
    } else {
      assert cs[..i] == cs;
    }
  }

  // ------------------------------------------------------------ dispatch

  datatype Handler = OnBreak | OnLogin | OnInstrumentationConfigure | OnLocal | OnLog
                   | OnInstrumentationSamples | Unhandled

  /** The position of each hook in the `if … else if` chain of `onmessage`. */
  function Priority(h: Handler): nat {
    match h
    case OnBreak => 0
    case OnLogin => 1
    case OnInstrumentationConfigure => 2
    case OnLocal => 3
    case OnLog => 4
    case OnInstrumentationSamples => 5
    case Unhandled => 6
  }

  /** The hooks whose field is truthy: objects and arrays always are, the
      log string only when it is not empty. */
  function Applicable(f: MessageFields): set<Handler> {
    (if f.breakInfo.Some? then {OnBreak} else {})
    + (if f.login.Some? then {OnLogin} else {})
    + (if f.instruments.Some? then {OnInstrumentationConfigure} else {})
    + (if f.local.Some? then {OnLocal} else {})
    + (if f.log.Some? && f.log.value != "" then {OnLog} else {})
    + (if f.samples.Some? then {OnInstrumentationSamples} else {})
  }

  /** `onmessage`: exactly one hook, the first applicable one in the order
      break, login, instruments, local, log, samples; none applicable is
      the unhandled case. */
  function Dispatch(f: MessageFields): (h: Handler)
    ensures h == Unhandled <==> Applicable(f) == {}
    ensures h != Unhandled ==> h in Applicable(f)
    ensures forall g :: g in Applicable(f) ==> Priority(h) <= Priority(g)
  {
    if f.breakInfo.Some? then OnBreak
    else if f.login.Some? then OnLogin
    else if f.instruments.Some? then OnInstrumentationConfigure
    else if f.local.Some? then OnLocal
    else if f.log.Some? && f.log.value != "" then OnLog
    else if f.samples.Some? then OnInstrumentationSamples
    else Unhandled
  }

  /** The socket wrapper: what it sent and which hooks it called. */
  class XsbugConnection {
    var sent: seq<string>
    var calls: seq<(Handler, MessageFields)>

    constructor ()
      ensures sent == [] && calls == []
    {
      sent := [];
      calls := [];
    }

    /** `sendCommand`: the text framed by CRLF. */
    method SendCommand(msg: string)
      modifies this
      ensures sent == old(sent) + [XsbugCommands.Framed(msg)] && calls == old(calls)
    {
      sent := sent + [XsbugCommands.Framed(msg)];
    }

    /** The `do*` commands: the same templates as the newer connection. */
    method DoCommand(c: XsbugCommands.Command)
      modifies this
      ensures sent == old(sent) + [XsbugCommands.Framed(XsbugCommands.Text(c))] && calls == old(calls)
    {
      SendCommand(XsbugCommands.Text(c));
    }

    /** `onmessage`: build the message, then call the one hook `Dispatch`
        picks (nothing for the unhandled case). A document that does not
        parse throws before any hook. */
    method OnMessage(root: Node) returns (r: Result<Handler, ParseError>)
      modifies this
      ensures sent == old(sent)
      ensures r.Err? ==> calls == old(calls)
      ensures r.Ok? <==> NodeName(root) == "xsbug" && ApplyAll(NoFields, root.children).Ok?
      ensures r.Ok? ==>
        var f := ApplyAll(NoFields, root.children).value;
        r.value == Dispatch(f)
        && calls == old(calls) + if r.value == Unhandled then [] else [(r.value, f)]
    {
      var msg := new XsbugMessage();
      var loaded := msg.Load(root);
      if loaded.Err? {
        return Err(loaded.error);
      }
      var h := Dispatch(msg.fields);
      if h != Unhandled {
        calls := calls + [(h, msg.fields)];
      }
      r := Ok(h);
    }
  }
}
