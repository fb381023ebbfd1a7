/** The text commands the debugger sends to an xsbug target: the `do*`
    templates shared by src/xs/DeviceConnection.ts and
    src/xs/XsbugConnection.ts, and the CRLF framing of `sendCommand`. */
module XsbugCommands {
  import opened JsText

  const CRLF: string := "\r\n"

  /** `sendCommand(msg)`: the message framed by CRLF on both sides. */
  function Framed(msg: string): string {
    CRLF + msg + CRLF
  }

  /** A breakpoint as the editor hands it to `doSetAllBreakpoints`. */
  datatype Breakpoint = Breakpoint(path: string, line: int)

  /** The commands of the `do*` methods; `ids` and `values` are passed
      through as text. */
  datatype Command =
    | ClearBreakpoint(path: string, line: int)
    | Go
    | SetBreakpoint(path: string, line: int)
    | Select(id: string)
    | SetAllBreakpoints(breakpoints: seq<Breakpoint>, exceptions: bool, start: bool)
    | Step
    | StepInside
    | StepOutside
    | Toggle(id: string)

  /** `<breakpoint path="…" line="…"/>` for one entry. */
  function BreakpointElement(b: Breakpoint): string {
    "<breakpoint path=\"" + PathLine(b.path, b.line)
  }

  const StartEntry: string := "<breakpoint path=\"start\" line=\"0\"/>"
  const ExceptionsEntry: string := "<breakpoint path=\"exceptions\" line=\"0\"/>"

  /** The entry list of `doSetAllBreakpoints`: the user breakpoints mapped to
      elements, then the exceptions entry unshifted, then the start entry
      unshifted in front of it. */
  function BreakpointEntries(bps: seq<Breakpoint>, exceptions: bool, start: bool): (r: seq<string>)
    ensures |r| == |bps| + (if exceptions then 1 else 0) + (if start then 1 else 0)
    ensures start ==> r[0] == StartEntry
    ensures exceptions ==> r[if start then 1 else 0] == ExceptionsEntry
    ensures r[|r| - |bps|..] == UserEntries(bps)
  {
    var user := UserEntries(bps);
    var withExceptions := if exceptions then [ExceptionsEntry] + user else user;
    if start then [StartEntry] + withExceptions else withExceptions
  }

  /** The part `…" line="…"/>` shared by the breakpoint templates. */
  function PathLine(path: string, line: int): string {
    path + "\" line=\"" + IntToString(line) + "\"/>"
  }

  /** The template of each command. */
  function Text(c: Command): string {
    match c
    case ClearBreakpoint(path, line) => "<clear-breakpoint path=\"" + PathLine(path, line)
    case Go => "<go/>"
    case SetBreakpoint(path, line) => "<set-breakpoint path=\"" + PathLine(path, line)
    case Select(id) => "<select id=\"" + id + "\"/>"
    case SetAllBreakpoints(bps, exceptions, start) =>
      "<set-all-breakpoints>" + Concat(BreakpointEntries(bps, exceptions, start)) + "</set-all-breakpoints>"
    case Step => "<step/>"
    case StepInside => "<step-inside/>"
    case StepOutside => "<step-outside/>"
    case Toggle(id) => "<toggle id=\"" + id + "\"/>"
  }

  /** The start and exceptions entries are ordinary breakpoint elements at line 0. */
  lemma StartEntryIsElement()
    ensures StartEntry == BreakpointElement(Breakpoint("start", 0))
  {
    assert IntToString(0) == "0";
  }

  lemma ExceptionsEntryIsElement()
    ensures ExceptionsEntry == BreakpointElement(Breakpoint("exceptions", 0))
  {
    assert IntToString(0) == "0";
  }

  lemma ConcatCons(x: string, xs: seq<string>)
    ensures Concat([x] + xs) == x + Concat(xs)
  {
    if xs != [] {
      assert ([x] + xs)[1..] == xs;
    }
  }

  /** The user breakpoints as elements, in input order. */
  function UserEntries(bps: seq<Breakpoint>): (r: seq<string>)
    ensures |r| == |bps| && forall i :: 0 <= i < |bps| ==> r[i] == BreakpointElement(bps[i])
  {
    seq(|bps|, i requires 0 <= i < |bps| => BreakpointElement(bps[i]))
  }

  /** The entries of `doSetAllBreakpoints` concatenate to the start entry if
      asked, the exceptions entry if asked, then the user breakpoints. */
  lemma EntriesText(bps: seq<Breakpoint>, exceptions: bool, start: bool)
    ensures Concat(BreakpointEntries(bps, exceptions, start))
         == (if start then StartEntry else "") + (if exceptions then ExceptionsEntry else "") + Concat(UserEntries(bps))
  {
    var user := UserEntries(bps);
    var withExceptions := if exceptions then [ExceptionsEntry] + user else user;
    assert BreakpointEntries(bps, exceptions, start) == if start then [StartEntry] + withExceptions else withExceptions;
    Unshifted(StartEntry, ExceptionsEntry, user, exceptions, start);
  }

  /** Unshifting up to two entries in front of a list prefixes its text. */
  lemma Unshifted(first: string, second: string, rest: seq<string>, withSecond: bool, withFirst: bool)
    ensures var tail := if withSecond then [second] + rest else rest;
      Concat(if withFirst then [first] + tail else tail)
        == (if withFirst then first else "") + (if withSecond then second else "") + Concat(rest)
  {
    var tail := if withSecond then [second] + rest else rest;
    if withSecond {
      ConcatCons(second, rest);
    }
    if withFirst {
      ConcatCons(first, tail);
    }
  }

  /** What goes on the wire for `doSetAllBreakpoints`: CRLF, the opening tag,
      the start entry if asked, the exceptions entry if asked, the user
      breakpoints in input order, the closing tag and CRLF. */
  lemma SetAllBreakpointsWire(bps: seq<Breakpoint>, exceptions: bool, start: bool)
    ensures Framed(Text(SetAllBreakpoints(bps, exceptions, start)))
         == CRLF + "<set-all-breakpoints>"
            + (if start then StartEntry else "")
            + (if exceptions then ExceptionsEntry else "")
            + Concat(UserEntries(bps))
            + "</set-all-breakpoints>" + CRLF
  {
    EntriesText(bps, exceptions, start);
    var open, close := "<set-all-breakpoints>", "</set-all-breakpoints>";
    var first := if start then StartEntry else "";
    var second := if exceptions then ExceptionsEntry else "";
    var user := Concat(UserEntries(bps));
    var text := Text(SetAllBreakpoints(bps, exceptions, start));
    assert text == open + (first + second + user) + close;
    Reassociate(open, first, second, user, close, CRLF);
  }

  lemma Reassociate(a: string, b: string, c: string, d: string, e: string, f: string)
    ensures f + (a + (b + c + d) + e) + f == f + a + b + c + d + e + f
  {
  }

  // -------------------------------------------------- reading a template back

  /** Text with no double quote can be read back from between quotes. */
  predicate Unquoted(s: string) {
    '"' !in s
  }

  lemma QuoteSplit(a: string, b: string, c: string, d: string)
    requires Unquoted(a) && Unquoted(c)
    requires a + "\"" + b == c + "\"" + d
    ensures a == c && b == d
  {
    var s := a + "\"" + b;
    FirstQuote(a, b);
    FirstQuote(c, d);
    assert a == s[..|a|] && c == s[..|c|];
    assert b == s[|a| + 1..] && d == s[|c| + 1..];
  }

  /** The first quote of `a + "\"" + b` is the one after `a`. */
  lemma {:induction false} FirstQuote(a: string, b: string)
    requires Unquoted(a)
    ensures IndexOf(a + "\"" + b, '"') == |a|
  {
    if a != [] {
      FirstQuote(a[1..], b);
      assert (a + "\"" + b)[1..] == a[1..] + "\"" + b;
    }
  }

  lemma DropPrefix(p: string, x: string, y: string)
    requires p + x == p + y
    ensures x == y
  {
    assert x == (p + x)[|p|..] && y == (p + y)[|p|..];
  }

  lemma IntToStringUnquoted(n: int)
    ensures Unquoted(IntToString(n))
  {
    var digits := NatToString(if n < 0 then -n else n);
    assert forall i :: 0 <= i < |digits| ==> digits[i] != '"';
    if n < 0 {
      assert IntToString(n) == "-" + digits;
    }
  }

  /** The path-and-line part never renders two different breakpoints
      alike, provided paths contain no double quote. */
  lemma PathLineInjective(p1: string, l1: int, p2: string, l2: int)
    requires Unquoted(p1) && Unquoted(p2)
    requires PathLine(p1, l1) == PathLine(p2, l2)
    ensures p1 == p2 && l1 == l2
  {
    var t1, t2 := IntToString(l1), IntToString(l2);
    var mid, close := " line=\"", "/>";
    assert "\" line=\"" == "\"" + mid && "\"/>" == "\"" + close;
    assert PathLine(p1, l1) == p1 + "\"" + (mid + t1 + "\"" + close);
    assert PathLine(p2, l2) == p2 + "\"" + (mid + t2 + "\"" + close);
    QuoteSplit(p1, mid + t1 + "\"" + close, p2, mid + t2 + "\"" + close);
    assert mid + t1 + "\"" + close == mid + (t1 + "\"" + close);
    assert mid + t2 + "\"" + close == mid + (t2 + "\"" + close);
    DropPrefix(mid, t1 + "\"" + close, t2 + "\"" + close);
    IntToStringUnquoted(l1);
    IntToStringUnquoted(l2);
    QuoteSplit(t1, close, t2, close);
    ParseIntOfIntToString(l1);
    ParseIntOfIntToString(l2);
  }

  /** Different set-breakpoint, clear-breakpoint and per-entry texts name
      different breakpoints. */
  lemma BreakpointTextsInjective(p1: string, l1: int, p2: string, l2: int)
    requires Unquoted(p1) && Unquoted(p2)
    ensures Text(SetBreakpoint(p1, l1)) == Text(SetBreakpoint(p2, l2)) ==> p1 == p2 && l1 == l2
    ensures Text(ClearBreakpoint(p1, l1)) == Text(ClearBreakpoint(p2, l2)) ==> p1 == p2 && l1 == l2
    ensures BreakpointElement(Breakpoint(p1, l1)) == BreakpointElement(Breakpoint(p2, l2)) ==> p1 == p2 && l1 == l2
  {
    if Text(SetBreakpoint(p1, l1)) == Text(SetBreakpoint(p2, l2)) {
      DropPrefix("<set-breakpoint path=\"", PathLine(p1, l1), PathLine(p2, l2));
      PathLineInjective(p1, l1, p2, l2);
    }
    if Text(ClearBreakpoint(p1, l1)) == Text(ClearBreakpoint(p2, l2)) {
      DropPrefix("<clear-breakpoint path=\"", PathLine(p1, l1), PathLine(p2, l2));
      PathLineInjective(p1, l1, p2, l2);
    }
    if BreakpointElement(Breakpoint(p1, l1)) == BreakpointElement(Breakpoint(p2, l2)) {
      DropPrefix("<breakpoint path=\"", PathLine(p1, l1), PathLine(p2, l2));
      PathLineInjective(p1, l1, p2, l2);
    }
  }
}
