/** The xsbug message parsers of src/xs/DeviceConnection.ts (`XsbugParseFrame`,
    `XsbugParseProperty`, `XsbugTypeParser`, `XsbugMessageParser`), over an
    abstract DOM tree.  Where the source reads a missing attribute's `.value`,
    or an element's attribute on a text node, it throws a TypeError; here
    that is an `Err`. */
module XsbugParser {
  import opened Wrappers
  import opened JsText
  import Sorting

  /** A DOM node as the browser's parser builds it: an element, or text. */
  datatype Node =
    | Element(name: string, attrs: map<string, string>, children: seq<Node>)
    | Text(content: string)

  datatype ParseError =
    | NotXsbug                    // the root element is not `xsbug`
    | NoParser(nodeName: string)  // `XsbugTypeParser[node.nodeName]` is undefined
    | MissingAttribute(attr: string)
    | NotAnElement                // `node.attributes` of a text node

  function NodeName(n: Node): string {
    match n
    case Element(name, _, _) => name
    case Text(_) => "#text"
  }

  /** `node.textContent`: the text of all descendant text nodes, in order. */
  function TextContent(n: Node): string
    decreases n, 1
  {
    match n
    case Text(t) => t
    case Element(_, _, children) => TextContents(children)
  }

  function TextContents(cs: seq<Node>): string
    decreases cs, 0
  {
    if cs == [] then "" else TextContent(cs[0]) + TextContents(cs[1..])
  }

  /** `node.attributes[key].value`, which throws when the attribute is absent. */
  function Attr(n: Node, key: string): (r: Result<string, ParseError>)
    ensures r.Ok? <==> n.Element? && key in n.attrs
    ensures r.Ok? ==> r.value == n.attrs[key]
    ensures r.Err? ==> !r.error.NotXsbug?
  {
    match n
    case Text(_) => Err(NotAnElement)
    case Element(_, attrs, _) =>
      if key in attrs then Ok(attrs[key]) else Err(MissingAttribute(key))
  }

  /** `node.attributes[key] && node.attributes[key].value`, which is
      `undefined` when the attribute is absent; with `strict`, the form
      `node.attributes[key].value` of the older parser, which throws then. */
  function OptAttr(n: Node, key: string, strict: bool): (r: Result<Option<string>, ParseError>)
    ensures r.Ok? <==> n.Element? && (strict ==> key in n.attrs)
    ensures r.Ok? ==> (r.value.Some? <==> key in n.attrs)
    ensures r.Ok? && key in n.attrs ==> r.value == Some(n.attrs[key])
    ensures r.Err? ==> !r.error.NotXsbug?
  {
    match n
    case Text(_) => Err(NotAnElement)
    case Element(_, attrs, _) =>
      if key in attrs then Ok(Some(attrs[key]))
      else if strict then Err(MissingAttribute(key))
      else Ok(None)
  }

  // ---------------------------------------------------------------- frames

  datatype Frame = Frame(name: string, value: Option<string>, path: Option<string>, line: Option<JsNumber>)

  /** `XsbugParseFrame` (`strict` = false) and the older `oneFrame` (`strict`
      = true, where the value attribute must be present). */
  function ParseFrame(n: Node, strict: bool): (r: Result<Frame, ParseError>)
    ensures r.Ok? <==>
      n.Element? && "name" in n.attrs && (strict ==> "value" in n.attrs)
      && ("path" in n.attrs ==> "line" in n.attrs)
    ensures r.Ok? ==>
      && r.value.name == n.attrs["name"]
      && (r.value.value.Some? <==> "value" in n.attrs)
      && ("value" in n.attrs ==> r.value.value == Some(n.attrs["value"]))
      && (r.value.path.Some? <==> "path" in n.attrs)
      && (r.value.line.Some? <==> "path" in n.attrs)
      && ("path" in n.attrs ==>
            r.value.path == Some(n.attrs["path"]) && r.value.line == Some(ParseInt(n.attrs["line"])))
    ensures r.Err? ==> !r.error.NotXsbug?
  {
    var name :- Attr(n, "name");
    var value :- OptAttr(n, "value", strict);
    if n.Element? && "path" in n.attrs then
      var line :- Attr(n, "line");
      Ok(Frame(name, value, Some(n.attrs["path"]), Some(ParseInt(line))))
    else
      Ok(Frame(name, value, None, None))
  }

  // ------------------------------------------------------------ properties

  /** The capabilities of a property. The wire `flags` string names what is
      NOT granted: `C` clears delete, `E` clears enumerable, `W` clears
      `set` (here `writable`, `set` being a Dafny keyword). */
  datatype Flags = Flags(value: string, delete: bool, enumerable: bool, writable: bool)

  function ParseFlags(f: string): (r: Flags)
    ensures r.value == f
    ensures r.delete <==> 'C' !in f
    ensures r.enumerable <==> 'E' !in f
    ensures r.writable <==> 'W' !in f
  {
    Flags(f, IndexOf(f, 'C') < 0, IndexOf(f, 'E') < 0, IndexOf(f, 'W') < 0)
  }

  /** The optional `property` list of a property: `Absent` when its node has
      no children. */
  datatype PropertyList = Absent | Present(items: seq<Property>)

  datatype Property = Property(name: string, value: Option<string>, flags: Flags, property: PropertyList)

  /** The comparator `(a, b) => a.name.localeCompare(b.name)`. */
  predicate NameLe(a: Property, b: Property) {
    StrLe(a.name, b.name)
  }

  lemma NameLeTotalPreorder()
    ensures Sorting.TotalPreorder(NameLe)
  {
    forall a: Property, b: Property ensures NameLe(a, b) || NameLe(b, a) {
      StrLeTotal(a.name, b.name);
    }
    forall a: Property, b: Property, c: Property | NameLe(a, b) && NameLe(b, c) ensures NameLe(a, c) {
      StrLeTransitive(a.name, b.name, c.name);
    }
  }

  /** `list.sort((a, b) => a.name.localeCompare(b.name))`. */
  function SortByName(ps: seq<Property>): (r: seq<Property>)
    ensures multiset(r) == multiset(ps) && |r| == |ps|
    ensures Sorting.SortedBy(r, NameLe)
  {
    NameLeTotalPreorder();
    Sorting.SortBySorted(ps, NameLe);
    Sorting.SortBy(ps, NameLe)
  }

  /** Among properties with distinct names the sorted list does not depend
      on the order the children arrived in. */
  lemma SortByNameCanonical(a: seq<Property>, b: seq<Property>)
    requires multiset(a) == multiset(b)
    requires forall i, j :: 0 <= i < |a| && 0 <= j < |a| && i != j ==> a[i].name != a[j].name
    ensures SortByName(a) == SortByName(b)
  {
    var ra, rb := SortByName(a), SortByName(b);
    forall x, y | x in ra && y in ra && NameLe(x, y) && NameLe(y, x) ensures x == y {
      StrLeAntisymmetric(x.name, y.name);
      assert x in multiset(a) && y in multiset(a);
      var i :| 0 <= i < |a| && a[i] == x;
      var j :| 0 <= j < |a| && a[j] == y;
    }
    Sorting.SortedUnique(ra, rb, NameLe);
  }

  /** When a property node parses: it is an element with `flags` and `name`
      attributes (and `value` for the older parser), and so are all its
      descendants. */
  ghost predicate PropertyNodeOk(n: Node, strict: bool)
    decreases n, 1
  {
    && n.Element? && "flags" in n.attrs && "name" in n.attrs
    && (strict ==> "value" in n.attrs)
    && PropertyNodesOk(n.children, strict)
  }

  ghost predicate PropertyNodesOk(cs: seq<Node>, strict: bool)
    decreases cs, 0
  {
    cs == [] || (PropertyNodeOk(cs[0], strict) && PropertyNodesOk(cs[1..], strict))
  }

  /** Every nested property list is sorted by name, at every level. */
  ghost predicate SortedTree(p: Property)
    decreases p, 1
  {
    p.property.Present? ==> Sorting.SortedBy(p.property.items, NameLe) && SortedForest(p.property.items)
  }

  ghost predicate SortedForest(ps: seq<Property>)
    decreases ps, 0
  {
    forall i :: 0 <= i < |ps| ==> SortedTree(ps[i])
  }

  /** `items` holds the parsed children `cs`, each once, sorted by name. */
  ghost predicate SortedParse(items: seq<Property>, cs: seq<Node>, strict: bool)
    decreases cs, 2
  {
    && ParseProperties(cs, strict).Ok?
    && multiset(items) == multiset(ParseProperties(cs, strict).value)
    && items == SortByName(ParseProperties(cs, strict).value)
  }

  /** `XsbugParseProperty` (`strict` = false) and the older `oneProperty`
      (`strict` = true). A node with children gets a `property` list with one
      entry per child, sorted by name; the tree is sorted at every level. */
  function ParseProperty(n: Node, strict: bool): (r: Result<Property, ParseError>)
    decreases n, 1
    ensures r.Ok? <==> PropertyNodeOk(n, strict)
    ensures r.Ok? ==>
      && r.value.name == n.attrs["name"]
      && r.value.flags == ParseFlags(n.attrs["flags"])
      && (r.value.value.Some? <==> "value" in n.attrs)
      && ("value" in n.attrs ==> r.value.value == Some(n.attrs["value"]))
      && (r.value.property.Present? <==> n.children != [])
      && (r.value.property.Present? ==> |r.value.property.items| == |n.children|)
      && (r.value.property.Present? ==> SortedParse(r.value.property.items, n.children, strict))
      && SortedTree(r.value)
    ensures r.Err? ==> !r.error.NotXsbug?
  {
    var flags :- Attr(n, "flags");
    var name :- Attr(n, "name");
    var value :- OptAttr(n, "value", strict);
    var property := Property(name, value, ParseFlags(flags), Absent);
    if n.children == [] then
      Ok(property)
    else
      var children :- ParseProperties(n.children, strict);
      SortByNameForest(children);
      Ok(property.(property := Present(SortByName(children))))
  }

  /** The sibling loop that parses each child property in document order. */
  function ParseProperties(cs: seq<Node>, strict: bool): (r: Result<seq<Property>, ParseError>)
    decreases cs, 0
    ensures r.Ok? <==> PropertyNodesOk(cs, strict)
    ensures r.Ok? ==> |r.value| == |cs| && SortedForest(r.value)
    ensures r.Ok? ==> forall i :: 0 <= i < |cs| ==> ParseProperty(cs[i], strict) == Ok(r.value[i])
    ensures r.Err? ==> !r.error.NotXsbug?
  {
    if cs == [] then Ok([])
    else
      var p :- ParseProperty(cs[0], strict);
      var ps :- ParseProperties(cs[1..], strict);
      assert forall i :: 1 <= i < |cs| ==> cs[i] == cs[1..][i - 1];
      ForestCons(p, ps);
      Ok([p] + ps)
  }

  lemma ForestCons(p: Property, ps: seq<Property>)
    requires SortedTree(p) && SortedForest(ps)
    ensures SortedForest([p] + ps)
  {
    assert forall i :: 1 <= i < |[p] + ps| ==> ([p] + ps)[i] == ps[i - 1];
  }

  lemma SortByNameForest(ps: seq<Property>)
    requires SortedForest(ps)
    ensures SortedForest(SortByName(ps))
  {
    var r := SortByName(ps);
    forall i | 0 <= i < |r| ensures SortedTree(r[i]) {
      assert r[i] in multiset(ps);
      var k :| 0 <= k < |ps| && ps[k] == r[i];
    }
  }

  // -------------------------------------------------------------- messages

  datatype InstrumentDef = InstrumentDef(name: string, value: string)

  datatype XsbugMessage =
    | LoginMessage(name: string, value: string)
    | FramesMessage(frames: seq<Frame>)
    | LocalMessage(frame: Frame, properties: seq<Property>)
    | GlobalMessage(global: seq<Property>)
    | GrammerMessage(grammer: seq<Property>)
    | BreakMessage(path: string, line: JsNumber, message: string)
    | LogMessage(log: string)
    | InstrumentSampleMessage(samples: seq<JsNumber>)
    | InstrumentMessage(instruments: seq<InstrumentDef>)

  /** The node name each message kind is parsed from. */
  function SourceName(m: XsbugMessage): string {
    match m
    case LoginMessage(_, _) => "login"
    case FramesMessage(_) => "frames"
    case LocalMessage(_, _) => "local"
    case GlobalMessage(_) => "global"
    case GrammerMessage(_) => "grammar"
    case BreakMessage(_, _, _) => "break"
    case LogMessage(_) => "log"
    case InstrumentSampleMessage(_) => "samples"
    case InstrumentMessage(_) => "instruments"
  }

  predicate HasParser(name: string) {
    name in {"login", "samples", "frames", "local", "global", "grammar", "break", "log", "instruments"}
  }

  /** `text.split(',').map(value => parseInt(value))`. */
  function ParseSamples(text: string): (r: seq<JsNumber>)
    ensures |r| == Count(text, ',') + 1 == |Split(text, ',')|
    ensures forall i :: 0 <= i < |r| ==> r[i] == ParseInt(Split(text, ',')[i])
  {
    var fields := Split(text, ',');
    SplitPieces(text, ',');
    seq(|fields|, i requires 0 <= i < |fields| => ParseInt(fields[i]))
  }

  function ParseFrames(cs: seq<Node>, strict: bool): (r: Result<seq<Frame>, ParseError>)
    ensures r.Ok? <==> forall i :: 0 <= i < |cs| ==> ParseFrame(cs[i], strict).Ok?
    ensures r.Ok? ==> |r.value| == |cs| && forall i :: 0 <= i < |cs| ==> ParseFrame(cs[i], strict) == Ok(r.value[i])
    ensures r.Err? ==> !r.error.NotXsbug?
  {
    if cs == [] then Ok([])
    else
      var f :- ParseFrame(cs[0], strict);
      var fs :- ParseFrames(cs[1..], strict);
      assert forall i :: 1 <= i < |cs| ==> cs[i] == cs[1..][i - 1];
      Ok([f] + fs)
  }

  function ParseInstrument(n: Node): (r: Result<InstrumentDef, ParseError>)
    ensures r.Ok? <==> n.Element? && "name" in n.attrs && "value" in n.attrs
    ensures r.Ok? ==> r.value == InstrumentDef(n.attrs["name"], n.attrs["value"])
    ensures r.Err? ==> !r.error.NotXsbug?
  {
    var name :- Attr(n, "name");
    var value :- Attr(n, "value");
    Ok(InstrumentDef(name, value))
  }

  function ParseInstruments(cs: seq<Node>): (r: Result<seq<InstrumentDef>, ParseError>)
    ensures r.Ok? <==> forall i :: 0 <= i < |cs| ==> ParseInstrument(cs[i]).Ok?
    ensures r.Ok? ==> |r.value| == |cs| && forall i :: 0 <= i < |cs| ==> ParseInstrument(cs[i]) == Ok(r.value[i])
    ensures r.Err? ==> !r.error.NotXsbug?
  {
    if cs == [] then Ok([])
    else
      var d :- ParseInstrument(cs[0]);
      var ds :- ParseInstruments(cs[1..]);
      assert forall i :: 1 <= i < |cs| ==> cs[i] == cs[1..][i - 1];
      Ok([d] + ds)
  }

  /** `XsbugTypeParser[node.nodeName](node)`. */
  function ParseMessage(n: Node): (r: Result<XsbugMessage, ParseError>)
    ensures !HasParser(NodeName(n)) ==> r == Err(NoParser(NodeName(n)))
    ensures r.Ok? ==> SourceName(r.value) == NodeName(n)
    ensures NodeName(n) == "login" ==> (r.Ok? <==> "name" in n.attrs && "value" in n.attrs)
    ensures NodeName(n) == "samples" ==> r == Ok(InstrumentSampleMessage(ParseSamples(TextContent(n))))
    ensures NodeName(n) == "frames" ==> (r.Ok? <==> forall i :: 0 <= i < |n.children| ==> ParseFrame(n.children[i], false).Ok?)
    ensures NodeName(n) == "local" ==> (r.Ok? <==> ParseFrame(n, false).Ok? && PropertyNodesOk(n.children, false))
    ensures NodeName(n) == "global" || NodeName(n) == "grammar" ==> (r.Ok? <==> PropertyNodesOk(n.children, false))
    ensures NodeName(n) == "break" ==> (r.Ok? <==> "path" in n.attrs && "line" in n.attrs)
    ensures NodeName(n) == "log" ==> r == Ok(LogMessage(TextContent(n)))
    ensures NodeName(n) == "instruments" ==> (r.Ok? <==> forall i :: 0 <= i < |n.children| ==> ParseInstrument(n.children[i]).Ok?)
    ensures r.Ok? && r.value.LoginMessage? ==> r.value == LoginMessage(n.attrs["name"], n.attrs["value"])
    ensures r.Ok? && r.value.FramesMessage? ==>
      |r.value.frames| == |n.children|
      && forall i :: 0 <= i < |n.children| ==> ParseFrame(n.children[i], false) == Ok(r.value.frames[i])
    ensures r.Ok? && r.value.LocalMessage? ==>
      ParseFrame(n, false) == Ok(r.value.frame)
      && |r.value.properties| == |n.children| && Sorting.SortedBy(r.value.properties, NameLe)
      && SortedForest(r.value.properties) && SortedParse(r.value.properties, n.children, false)
    ensures r.Ok? && r.value.GlobalMessage? ==>
      |r.value.global| == |n.children| && Sorting.SortedBy(r.value.global, NameLe) && SortedForest(r.value.global)
      && SortedParse(r.value.global, n.children, false)
    ensures r.Ok? && r.value.GrammerMessage? ==>
      |r.value.grammer| == |n.children| && Sorting.SortedBy(r.value.grammer, NameLe) && SortedForest(r.value.grammer)
      && SortedParse(r.value.grammer, n.children, false)
    ensures r.Ok? && r.value.BreakMessage? ==>
      "path" in n.attrs && "line" in n.attrs
      && r.value == BreakMessage(n.attrs["path"], ParseInt(n.attrs["line"]), TextContent(n))
    ensures r.Ok? && r.value.InstrumentMessage? ==>
      |r.value.instruments| == |n.children|
      && forall i :: 0 <= i < |n.children| ==> ParseInstrument(n.children[i]) == Ok(r.value.instruments[i])
    ensures r.Err? ==> !r.error.NotXsbug?
  {
    match NodeName(n)
    case "login" =>
      var name :- Attr(n, "name");
      var value :- Attr(n, "value");
      Ok(LoginMessage(name, value))
    case "samples" =>
      Ok(InstrumentSampleMessage(ParseSamples(TextContent(n))))
    case "frames" =>
      var frames :- ParseFrames(n.children, false);
      Ok(FramesMessage(frames))
    case "local" =>
      var frame :- ParseFrame(n, false);
      var properties :- ParseProperties(n.children, false);
      SortByNameForest(properties);
      Ok(LocalMessage(frame, SortByName(properties)))
    case "global" =>
      var global :- ParseProperties(n.children, false);
      SortByNameForest(global);
      Ok(GlobalMessage(SortByName(global)))
    case "grammar" =>
      var grammer :- ParseProperties(n.children, false);
      SortByNameForest(grammer);
      Ok(GrammerMessage(SortByName(grammer)))
    case "break" =>
      var path :- Attr(n, "path");
      var line :- Attr(n, "line");
      Ok(BreakMessage(path, ParseInt(line), TextContent(n)))
    case "log" =>
      Ok(LogMessage(TextContent(n)))
    case "instruments" =>
      var instruments :- ParseInstruments(n.children);
      Ok(InstrumentMessage(instruments))
    case _ =>
      Err(NoParser(NodeName(n)))
  }

  function ParseMessages(cs: seq<Node>): (r: Result<seq<XsbugMessage>, ParseError>)
    ensures r.Ok? <==> forall i :: 0 <= i < |cs| ==> ParseMessage(cs[i]).Ok?
    ensures r.Ok? ==> |r.value| == |cs| && forall i :: 0 <= i < |cs| ==> ParseMessage(cs[i]) == Ok(r.value[i])
    ensures r.Err? ==> !r.error.NotXsbug?
  {
    if cs == [] then Ok([])
    else
      var m :- ParseMessage(cs[0]);
      var ms :- ParseMessages(cs[1..]);
      assert forall i :: 1 <= i < |cs| ==> cs[i] == cs[1..][i - 1];
      Ok([m] + ms)
  }

  /** `XsbugMessageParser`: fails unless the root is `xsbug`; otherwise one
      message per child, in document order. */
  function ParseDocument(root: Node): (r: Result<seq<XsbugMessage>, ParseError>)
    ensures NodeName(root) != "xsbug" <==> r == Err(NotXsbug)
    ensures NodeName(root) == "xsbug" ==>
      (r.Ok? <==> forall i :: 0 <= i < |root.children| ==> ParseMessage(root.children[i]).Ok?)
    ensures r.Ok? ==>
      |r.value| == |root.children|
      && forall i :: 0 <= i < |root.children| ==>
           ParseMessage(root.children[i]) == Ok(r.value[i]) && SourceName(r.value[i]) == NodeName(root.children[i])
  {
    if NodeName(root) != "xsbug" then Err(NotXsbug)
    else
      match ParseMessages(root.children)
      case Ok(ms) => Ok(ms)
      case Err(e) => Err(e)
  }

  // ------------------------------------------------------------ properties of the parsers

  /** The text of a samples message as the device writes it: the decimal
      values joined by commas. */
  function SamplesText(values: seq<int>): string {
    Join(seq(|values|, i requires 0 <= i < |values| => IntToString(values[i])), ",")
  }

  /** Parsing the text of a samples message gives back every value, in order. */
  lemma SamplesRoundTrip(values: seq<int>)
    requires |values| >= 1
    ensures ParseSamples(SamplesText(values)) == seq(|values|, i requires 0 <= i < |values| => Num(values[i]))
  {
    var fields := seq(|values|, i requires 0 <= i < |values| => IntToString(values[i]));
    forall i | 0 <= i < |fields| ensures ',' !in fields[i] {
      IntToStringHasNoComma(values[i]);
    }
    SplitJoin(fields, ',');
    forall i | 0 <= i < |values| ensures ParseInt(fields[i]) == Num(values[i]) {
      ParseIntOfIntToString(values[i]);
    }
  }

  lemma IntToStringHasNoComma(n: int)
    ensures ',' !in IntToString(n)
  {
    var digits := NatToString(if n < 0 then -n else n);
    assert forall i :: 0 <= i < |digits| ==> digits[i] != ',';
    if n < 0 {
      assert IntToString(n) == "-" + digits;
    }
  }

  /** A break element with both attributes parses to its path, the number
      its line attribute reads as, and its text. */
  lemma ParseMessageBreak(n: Node)
    requires n.Element? && n.name == "break" && "path" in n.attrs && "line" in n.attrs
    ensures ParseMessage(n) == Ok(BreakMessage(n.attrs["path"], ParseInt(n.attrs["line"]), TextContent(n)))
  {
    assert NodeName(n) == "break";
  }

  /** A break report whose line attribute is the decimal form of a line
      number parses to that path, line and message. */
  lemma BreakRoundTrip(path: string, line: int, message: string)
    ensures ParseMessage(Element("break", map["path" := path, "line" := IntToString(line)], [Text(message)]))
         == Ok(BreakMessage(path, Num(line), message))
  {
    var n := Element("break", map["path" := path, "line" := IntToString(line)], [Text(message)]);
    assert "path" in n.attrs && n.attrs["path"] == path;
    assert "line" in n.attrs && n.attrs["line"] == IntToString(line);
    ParseMessageBreak(n);
    assert ParseInt(IntToString(line)) == Num(line) by {
      ParseIntOfIntToString(line);
    }
    assert TextContent(n) == message by {
      assert TextContents([Text(message)]) == message + TextContents([]);
    }
  }
}
