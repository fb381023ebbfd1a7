/** The order of the breakpoint list of the debug sidebar
    (src/components/SidebarDebug/BreakpointPanel.tsx): each breakpoint is
    annotated with the name of its file, the list is sorted by line and
    then, stably, by file name. The rows themselves are not modelled. */
module BreakpointPanel {
  import opened JsText
  import Sorting
  import EditorActions

  /** `{ fileName: getFileName(breakpoint.fileId), ...breakpoint }`. */
  datatype Entry = Entry(fileName: string, fileId: string, line: int, disabled: bool)

  function Annotate(bp: EditorActions.EditorBreakpoint, getFileName: string -> string): Entry {
    Entry(getFileName(bp.fileId), bp.fileId, bp.line, bp.disabled)
  }

  /** The comparator `(a, b) => a.line - b.line`. */
  predicate LineLe(a: Entry, b: Entry) {
    a.line - b.line <= 0
  }

  /** The comparator `(a, b) => a.fileName.localeCompare(b.fileName)`. */
  predicate FileNameLe(a: Entry, b: Entry) {
    StrLe(a.fileName, b.fileName)
  }

  lemma FileNameLeTotalPreorder()
    ensures Sorting.TotalPreorder(FileNameLe)
  {
    forall a: Entry, b: Entry ensures FileNameLe(a, b) || FileNameLe(b, a) {
      StrLeTotal(a.fileName, b.fileName);
    }
    forall a: Entry, b: Entry, c: Entry | FileNameLe(a, b) && FileNameLe(b, c) ensures FileNameLe(a, c) {
      StrLeTransitive(a.fileName, b.fileName, c.fileName);
    }
  }

  lemma LineLeTotalPreorder()
    ensures Sorting.TotalPreorder(LineLe)
  {
  }

  /** The listing: map, sort by line, sort by file name. */
  function Listed(bps: seq<EditorActions.EditorBreakpoint>, getFileName: string -> string): (r: seq<Entry>)
    ensures |r| == |bps|
    ensures multiset(r) == multiset(seq(|bps|, i requires 0 <= i < |bps| => Annotate(bps[i], getFileName)))
    ensures Sorting.SortedLex(r, FileNameLe, LineLe)
  {
    var entries := seq(|bps|, i requires 0 <= i < |bps| => Annotate(bps[i], getFileName));
    var byLine := Sorting.SortBy(entries, LineLe);
    LineLeTotalPreorder();
    Sorting.SortBySorted(entries, LineLe);
    FileNameLeTotalPreorder();
    Sorting.SortByAfterSorted(byLine, FileNameLe, LineLe);
    Sorting.SortBy(byLine, FileNameLe)
  }

  /** Every entry of the listing is one of the breakpoints, with the name of
      its own file. */
  lemma ListedEntries(bps: seq<EditorActions.EditorBreakpoint>, getFileName: string -> string)
    ensures forall e :: e in Listed(bps, getFileName) ==>
      (e.fileName == getFileName(e.fileId) && EditorActions.EditorBreakpoint(e.fileId, e.line, e.disabled) in bps)
  {
    var r := Listed(bps, getFileName);
    var entries := seq(|bps|, i requires 0 <= i < |bps| => Annotate(bps[i], getFileName));
    forall e | e in r
      ensures e.fileName == getFileName(e.fileId) && EditorActions.EditorBreakpoint(e.fileId, e.line, e.disabled) in bps
    {
      assert e in multiset(r);
      assert e in multiset(entries);
      var k :| 0 <= k < |entries| && entries[k] == e;
      assert bps[k] == EditorActions.EditorBreakpoint(e.fileId, e.line, e.disabled);
    }
  }

  /** File names ascend, and lines ascend among the entries of one file. */
  lemma ListedOrder(bps: seq<EditorActions.EditorBreakpoint>, getFileName: string -> string)
    ensures var r := Listed(bps, getFileName);
      forall i, j :: 0 <= i < j < |r| ==>
        (StrLe(r[i].fileName, r[j].fileName) && (r[i].fileName == r[j].fileName ==> r[i].line <= r[j].line))
  {
    var r := Listed(bps, getFileName);
    forall i, j | 0 <= i < j < |r|
      ensures StrLe(r[i].fileName, r[j].fileName) && (r[i].fileName == r[j].fileName ==> r[i].line <= r[j].line)
    {
      assert Sorting.LexLe(FileNameLe, LineLe, r[i], r[j]);
    }
  }
}
