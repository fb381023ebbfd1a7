/** The debug operators of src/overmind/Device/operators.ts that update the
    debugger state `state.Device.debug` when xsbug messages arrive, and the
    two that push state outwards: the breakpoint sync and the switch to the
    debug sidebar. Log and editor actions the operators call are recorded
    as `ActionCall`s rather than performed. */
module DeviceOperators {
  import opened Wrappers
  import opened JsText
  import Instruments
  import XsbugParser
  import XsbugCommands
  import StorageUtils
  import Sidebar
  import DeviceConnectionModel
  import EditorActions

  /** Samples kept per series. */
  const Window: nat := 100

  /** `activeBreak`: where the program stopped, as recorded by `debugBreak`. */
  datatype ActiveBreak = ActiveBreak(path: string, fileId: string, line: JsNumber, message: string)

  /** Calls the operators make into other action namespaces. */
  datatype ActionCall =
    | AddErrorMessage(text: string)
    | AddBreakpoint(fileId: string, line: JsNumber, message: string)
    | OpenFile(fileId: string)

  /** Whether an operator ran to its end or threw a TypeError part way. */
  datatype Outcome = Done | Threw

  // ------------------------------------------------------------- samples

  /** `series.splice(0, count)`: a negative count removes nothing, a count
      past the end removes everything. */
  function SpliceFront<T>(xs: seq<T>, count: int): (r: seq<T>)
    ensures count <= 0 ==> r == xs
    ensures 0 <= count <= |xs| ==> r == xs[count..]
    ensures count > |xs| ==> r == []
  {
    if count <= 0 then xs else if count >= |xs| then [] else xs[count..]
  }

  /** One series after the new sample: pushed, then cut back to the window. */
  function Slide(series: seq<JsNumber>, sample: JsNumber): seq<JsNumber> {
    var pushed := series + [sample];
    SpliceFront(pushed, |pushed| - Window)
  }

  /** The series after a samples message: series `i` takes sample `i`; series
      the message has no sample for stay as they were. */
  function SlideAll(series: seq<seq<JsNumber>>, samples: seq<JsNumber>): (r: seq<seq<JsNumber>>)
    ensures |r| == |series|
    ensures forall i :: 0 <= i < |series| && i < |samples| ==> r[i] == Slide(series[i], samples[i])
    ensures forall i :: |samples| <= i < |series| ==> r[i] == series[i]
  {
    seq(|series|, i requires 0 <= i < |series| => if i < |samples| then Slide(series[i], samples[i]) else series[i])
  }

  /** The series the first samples message creates: one per sample. */
  function Singletons(samples: seq<JsNumber>): (r: seq<seq<JsNumber>>)
    ensures |r| == |samples| && forall i :: 0 <= i < |samples| ==> r[i] == [samples[i]]
  {
    seq(|samples|, i requires 0 <= i < |samples| => [samples[i]])
  }

  function Min(a: int, b: int): int {
    if a < b then a else b
  }

  /** A slid series is the last min(length + 1, 100) values of the old
      series followed by the sample; so it ends in the sample and never
      holds more than 100 values. */
  lemma SlideKeepsLast(series: seq<JsNumber>, sample: JsNumber)
    ensures var pushed := series + [sample];
      Slide(series, sample) == pushed[|pushed| - Min(|pushed|, Window)..]
    ensures |Slide(series, sample)| == Min(|series| + 1, Window)
    ensures Slide(series, sample)[|Slide(series, sample)| - 1] == sample
  {
  }

  /** Series of at most 100 values stay so under any samples message. */
  lemma SlideAllBounded(series: seq<seq<JsNumber>>, samples: seq<JsNumber>)
    requires forall i :: 0 <= i < |series| ==> |series[i]| <= Window
    ensures forall i :: 0 <= i < |series| ==> |SlideAll(series, samples)[i]| <= Window
  {
    forall i | 0 <= i < |series| && i < |samples| {
      SlideKeepsLast(series[i], samples[i]);
    }
  }

  /** The debugger state `state.Device.debug`, restricted to what the
      modelled operators touch. */
  class DeviceDebug {
    var instruments: Option<seq<Instruments.Group>>
    var samples: Option<seq<seq<JsNumber>>>
    var activeBreak: Option<ActiveBreak>

    /** The initial state: no instruments, no samples, no break. */
    constructor ()
      ensures instruments == None && samples == None && activeBreak == None
    {
      instruments := None;
      samples := None;
      activeBreak := None;
    }

    /** `debugInstrument`: the grouped instruments replace the old ones. */
    method DebugInstrument(defs: seq<XsbugParser.InstrumentDef>)
      modifies this
      ensures instruments == Some(Instruments.Grouped(defs))
      ensures samples == old(samples) && activeBreak == old(activeBreak)
    {
      var groups := Instruments.CleanInstrumentData(defs);
      instruments := Some(groups);
    }

    /** `debugInstrumentSample`. The first message creates the series; later
      ones push into series `index` and splice it back to the window. A
      message with more samples than there are series throws on the first
      missing one, after the earlier series were updated. */
    method DebugInstrumentSample(msg: seq<JsNumber>) returns (outcome: Outcome)
      modifies this
      ensures old(samples).None? ==> samples == Some(Singletons(msg)) && outcome == Done
      ensures old(samples).Some? ==> samples == Some(SlideAll(old(samples).value, msg))
      ensures old(samples).Some? ==> (outcome == Done <==> |msg| <= |old(samples).value|)
      ensures instruments == old(instruments) && activeBreak == old(activeBreak)
    {
      if samples.None? {
        samples := Some(Singletons(msg));
        return Done;
      }
      ghost var start := samples.value;
      var index := 0;
      while index < |msg|
        invariant 0 <= index <= |msg|
        invariant samples.Some? && |samples.value| == |start|
        invariant index <= |start|
        invariant samples.value == SlideAll(start, msg[..index])
        invariant instruments == old(instruments) && activeBreak == old(activeBreak)
      {
        var series := samples.value;
        if index >= |series| {
          assert SlideAll(start, msg[..index]) == SlideAll(start, msg);
          return Threw;
        }
        var pushed := series[index] + [msg[index]];
        var kept := SpliceFront(pushed, |pushed| - Window);
        samples := Some(series[index := kept]);
        index := index + 1;
      }
      assert msg[..index] == msg;
      return Done;
    }

    /** `debugBreak`: logs the break, looks the path up in the project tree
      (the lookup throws where a component is missing), adds a breakpoint
      and opens the file when an id was found, records the break and shows
      the debug sidebar. */
    method DebugBreak(path: string, line: JsNumber, message: string,
                      dirs: seq<StorageUtils.Directory>, files: seq<StorageUtils.XFile>,
                      root: Sidebar.RootState)
      returns (calls: seq<ActionCall>, outcome: Outcome)
      modifies this, root
      ensures var p := StripCompiledPrefix(path);
        match StorageUtils.GetIdByPath(dirs, files, DropFirst(p))
        case Err(_) =>
          outcome == Threw && calls == [AddErrorMessage(BreakText(p, line, message))]
          && activeBreak == old(activeBreak) && root.selectedSidebarView == old(root.selectedSidebarView)
        case Ok(id) =>
          outcome == Done
          && calls == [AddErrorMessage(BreakText(p, line, message))]
                      + (if id != "" then [AddBreakpoint(id, line, message), OpenFile(id)] else [])
          && activeBreak == Some(ActiveBreak(p, id, line, message))
          && root.selectedSidebarView == Sidebar.Debug
      ensures instruments == old(instruments) && samples == old(samples)
    {
      var p := StripCompiledPrefix(path);
      calls := [AddErrorMessage(BreakText(p, line, message))];
      var found := StorageUtils.GetIdByPath(dirs, files, DropFirst(p));
      if found.Err? {
        return calls, Threw;
      }
      var fileId := found.value;
      if fileId != "" {
        calls := calls + [AddBreakpoint(fileId, line, message), OpenFile(fileId)];
      }
      activeBreak := Some(ActiveBreak(p, fileId, line, message));
      SetActiveSidebarToDebug(root);
      outcome := Done;
    }
  }

  /** Where the device compiled the program: paths of breaks start with it. */
  const CompiledPrefix: string := "/mc"

  /** The `/mc` strip of `debugBreak`, only for a non-empty path. */
  function StripCompiledPrefix(path: string): (r: string)
    ensures StartsWith(path, CompiledPrefix) ==> CompiledPrefix + r == path
    ensures !StartsWith(path, CompiledPrefix) ==> r == path
  {
    if path != "" && StartsWith(path, CompiledPrefix) then path[3..] else path
  }

  /** `s.substring(1)`. */
  function DropFirst(s: string): string {
    if s == [] then [] else s[1..]
  }

  /** The text of a JavaScript number. */
  function NumberText(n: JsNumber): string {
    match n
    case Num(v) => IntToString(v)
    case NaN => "NaN"
  }

  /** The log line `Break <path>:<line>: <message>`. */
  function BreakText(path: string, line: JsNumber, message: string): string {
    "Break " + path + ":" + NumberText(line) + ": " + message
  }

  /** Only the leading `/mc` goes: a prefixed path loses exactly those three
      characters, and a path that is already stripped keeps them. */
  lemma StripCompiledPrefixExact(p: string)
    ensures StripCompiledPrefix(CompiledPrefix + p) == p
    ensures !StartsWith(p, CompiledPrefix) ==> StripCompiledPrefix(p) == p
  {
    assert StartsWith(CompiledPrefix + p, CompiledPrefix);
    assert (CompiledPrefix + p)[3..] == p;
  }

  // ---------------------------------------------------------- breakpoints

  /** The device breakpoints `syncBreakpoints` sends: one per editor
      breakpoint, in order, at its device path and with its line. */
  function DeviceBreakpoints(bps: seq<EditorActions.EditorBreakpoint>, devicePath: string -> string): (r: seq<XsbugCommands.Breakpoint>)
    ensures |r| == |bps|
    ensures forall i :: 0 <= i < |bps| ==> r[i].line == bps[i].line && r[i].path == devicePath(bps[i].fileId)
  {
    seq(|bps|, i requires 0 <= i < |bps| => XsbugCommands.Breakpoint(devicePath(bps[i].fileId), bps[i].line))
  }

  /** `syncBreakpoints`: with a connection, send every editor breakpoint by
      `doSetAllBreakpoints` and its defaults (exceptions on, start off);
      without one, do nothing. A connection that has no socket yet throws. */
  method SyncBreakpoints(conn: DeviceConnectionModel.DeviceConnection?, bps: seq<EditorActions.EditorBreakpoint>,
                         devicePath: string -> string)
    returns (outcome: DeviceConnectionModel.Outcome)
    modifies conn
    ensures conn == null ==> outcome == DeviceConnectionModel.Done
    ensures conn != null && !old(conn.hasSocket) ==>
      outcome == DeviceConnectionModel.Threw(DeviceConnectionModel.NoSocket) && conn.State() == old(conn.State())
    ensures conn != null && old(conn.hasSocket) ==>
      outcome == DeviceConnectionModel.Done
      && conn.State() == old(conn.State()).(sent := old(conn.sent) + [
           DeviceConnectionModel.TextOut(XsbugCommands.Framed(XsbugCommands.Text(
             XsbugCommands.SetAllBreakpoints(DeviceBreakpoints(bps, devicePath), true, false))))])
  {
    outcome := DeviceConnectionModel.Done;
    if conn != null {
      outcome := conn.DoCommand(XsbugCommands.SetAllBreakpoints(DeviceBreakpoints(bps, devicePath), true, false));
    }
  }

  // -------------------------------------------------------------- sidebar

  /** `setActiveSidebarToDebug`: toggle only when Debug is not shown, so the
      sidebar always ends on Debug. */
  method SetActiveSidebarToDebug(root: Sidebar.RootState)
    modifies root
    ensures root.selectedSidebarView == Sidebar.Debug
  {
    if root.selectedSidebarView != Sidebar.Debug {
      root.SetActiveSidebarView(Sidebar.Debug);
    }
  }
}
