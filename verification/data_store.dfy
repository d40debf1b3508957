/**
  The selection store shared by the socket process and the tool process: one file
  holding the current selection and a newest-first history of at most 20 selections.

  The file is a value (`StoreFile`); reading it is `ReadData`, and each mutating
  operation returns the file as it is afterwards. A failed write is logged and
  swallowed by the source; what it leaves behind depends on when it fails
  (`WriteOutcome`).
 */
module DataStore {
  import opened Options
  import opened NodeModel

  /** `SelectionRecord` */
  datatype SelectionRecord = SelectionRecord(
    data: NodeData,
    assets: seq<AssetExport>,
    timestamp: string,
    receivedAt: string)

  /** `StoredData` */
  datatype StoredData = StoredData(current: Option<SelectionRecord>, history: seq<SelectionRecord>)

  /** The selection file: absent, present but unparsable, or holding stored data. */
  datatype StoreFile = Missing | Corrupt | Stored(data: StoredData)

  const MaxHistorySize: nat := 20

  const EmptyData: StoredData := StoredData(None, [])

  /** `readData`: a missing or unparsable file reads as the empty state, never as an error. */
  function ReadData(f: StoreFile): (d: StoredData)
    ensures f.Stored? ==> d == f.data
    ensures !f.Stored? ==> d.current.None? && d.history == []
  {
    match f
    case Stored(d) => d
    case _ => EmptyData
  }

  /** How one `writeData` call ends. `writeFileSync` opens the file with flag `'w'`,
      which truncates it: a failure before the open (creating the data directory, or
      the open itself) leaves the old file, while a failure after it leaves an empty or
      partial text. */
  datatype WriteOutcome = Written | FailedBeforeOpen | FailedAfterOpen

  /** `writeData`: errors are swallowed. A partial text is a strict prefix of the
      serialised object, which lacks its closing brace and never parses. */
  function WriteData(f: StoreFile, d: StoredData, w: WriteOutcome): (f': StoreFile)
    ensures w.Written? ==> ReadData(f') == d
    ensures w.FailedBeforeOpen? ==> f' == f
    ensures w.FailedAfterOpen? ==> f'.Corrupt? && ReadData(f') == EmptyData
  {
    match w
    case Written => Stored(d)
    case FailedBeforeOpen => f
    case FailedAfterOpen => Corrupt
  }

  /** The record `setSelection` builds; `receivedAt` is the clock reading. */
  function RecordOf(m: SelectionMessage, receivedAt: string): SelectionRecord {
    SelectionRecord(m.data, m.assets, m.timestamp, receivedAt)
  }

  function Min(a: nat, b: nat): nat {
    if a <= b then a else b
  }

  /** `setSelection`: the new record becomes current and is put at the head of the
      history, which keeps at most the 19 newest older entries. */
  function SetSelection(f: StoreFile, m: SelectionMessage, receivedAt: string, w: WriteOutcome): (f': StoreFile)
    ensures w.Written? ==> ReadData(f').current == Some(RecordOf(m, receivedAt))
    ensures w.Written? ==>
      ReadData(f').history == [RecordOf(m, receivedAt)] + ReadData(f).history[..Min(|ReadData(f).history|, MaxHistorySize - 1)]
    ensures w.Written? ==> |ReadData(f').history| <= MaxHistorySize
    ensures w.Written? ==> ReadData(f').history[0] == RecordOf(m, receivedAt)
    ensures w.FailedBeforeOpen? ==> f' == f
    ensures w.FailedAfterOpen? ==> ReadData(f').current.None? && ReadData(f').history == []
  {
    var rec := RecordOf(m, receivedAt);
    var stored := ReadData(f);
    var history := [rec] + stored.history;
    var history' := if |history| > MaxHistorySize then history[..MaxHistorySize] else history;
    WriteData(f, StoredData(Some(rec), history'), w)
  }

  /** `getSelection`: the stored current record; nothing when the file is missing or corrupt. */
  function GetSelection(f: StoreFile): (r: Option<SelectionRecord>)
    ensures f.Stored? ==> r == f.data.current
    ensures !f.Stored? ==> r.None?
  {
    ReadData(f).current
  }

  /** `getHistory`: the stored history; empty when the file is missing or corrupt. */
  function GetHistory(f: StoreFile): (r: seq<SelectionRecord>)
    ensures f.Stored? ==> r == f.data.history
    ensures !f.Stored? ==> r == []
  {
    ReadData(f).history
  }

  /** `clear`: a write failing after the open empties the store as well. */
  function Clear(f: StoreFile, w: WriteOutcome): (f': StoreFile)
    ensures !w.FailedBeforeOpen? ==> GetSelection(f').None? && GetHistory(f') == []
    ensures w.FailedBeforeOpen? ==> f' == f
  {
    WriteData(f, EmptyData, w)
  }

  /** `hasSelection`: `currentSelection !== null`. */
  function HasSelection(f: StoreFile): (b: bool)
    ensures b <==> GetSelection(f).Some?
    ensures b ==> f.Stored?
  {
    ReadData(f).current.Some?
  }

  /** The result of `getStats`; `lastUpdate` is `None` for `null`. */
  datatype Stats = Stats(hasSelection: bool, historyCount: nat, lastUpdate: Option<string>)

  /** `getStats`: `lastUpdate` is the current timestamp, or `null` when there is no
      current selection or its timestamp is empty. */
  function GetStats(f: StoreFile): (r: Stats)
    ensures r.hasSelection <==> HasSelection(f)
    ensures r.hasSelection <==> GetSelection(f).Some?
    ensures r.historyCount == |GetHistory(f)|
    ensures r.lastUpdate.Some? <==> GetSelection(f).Some? && GetSelection(f).value.timestamp != ""
    ensures r.lastUpdate.Some? ==> r.lastUpdate.value == GetSelection(f).value.timestamp
  {
    var stored := ReadData(f);
    Stats(
      stored.current.Some?,
      |stored.history|,
      if stored.current.Some? && stored.current.value.timestamp != "" then Some(stored.current.value.timestamp) else None)
  }

  // ---------------------------------------------------------------------------
  // Sequences of operations
  // ---------------------------------------------------------------------------

  /** One mutating call on the store. */
  datatype Op =
    | Select(message: SelectionMessage, receivedAt: string, outcome: WriteOutcome)
    | ClearAll(outcome: WriteOutcome)

  function Apply(f: StoreFile, op: Op): StoreFile {
    match op
    case Select(m, at, w) => SetSelection(f, m, at, w)
    case ClearAll(w) => Clear(f, w)
  }

  /** The file after `ops`, applied oldest first. */
  function Run(f: StoreFile, ops: seq<Op>): StoreFile
    decreases |ops|
  {
    if |ops| == 0 then f else Apply(Run(f, ops[..|ops| - 1]), ops[|ops| - 1])
  }

  /** The store's invariant: a bounded history whose head is the current selection. */
  predicate WellFormed(d: StoredData) {
    && |d.history| <= MaxHistorySize
    && (d.current.Some? ==> |d.history| > 0 && d.history[0] == d.current.value)
  }

  /** Whatever sequence of selections and clears runs, and whichever writes fail, the
      store stays well formed. */
  lemma {:induction false} RunKeepsWellFormed(f: StoreFile, ops: seq<Op>)
    requires WellFormed(ReadData(f))
    ensures WellFormed(ReadData(Run(f, ops)))
    decreases |ops|
  {
    if |ops| > 0 {
      RunKeepsWellFormed(f, ops[..|ops| - 1]);
    }
  }

  function Reverse<T>(s: seq<T>): (r: seq<T>)
    ensures |r| == |s|
    decreases |s|
  {
    if |s| == 0 then [] else [s[|s| - 1]] + Reverse(s[..|s| - 1])
  }

  /** The records a run of successful selections creates, oldest first. */
  function Records(ops: seq<Op>): (r: seq<SelectionRecord>)
    requires forall i :: 0 <= i < |ops| ==> ops[i].Select?
    ensures |r| == |ops|
    decreases |ops|
  {
    if |ops| == 0 then []
    else Records(ops[..|ops| - 1]) + [RecordOf(ops[|ops| - 1].message, ops[|ops| - 1].receivedAt)]
  }

  lemma {:induction false} ReverseSnoc<T>(s: seq<T>, x: T)
    ensures Reverse(s + [x]) == [x] + Reverse(s)
  {
    assert (s + [x])[..|s + [x]| - 1] == s;
  }

  /** Putting `x` in front of a window of the newest 20 and keeping 19 of the old window
      gives the window of the newest 20 of `[x] + r`. */
  lemma WindowStep<T>(x: T, r: seq<T>, h: seq<T>)
    requires h == r[..Min(|r|, MaxHistorySize)]
    ensures [x] + h[..Min(|h|, MaxHistorySize - 1)] == ([x] + r)[..Min(|r| + 1, MaxHistorySize)]
  {
    var n := Min(|r|, MaxHistorySize - 1);
    assert Min(|h|, MaxHistorySize - 1) == n;
    assert h[..n] == r[..n];
    assert Min(|r| + 1, MaxHistorySize) == n + 1;
    assert ([x] + r)[..n + 1] == [x] + r[..n];
  }

  /** One more successful selection extends the newest-first window by its record. */
  lemma {:induction false} HistoryStep(before: StoreFile, m: SelectionMessage, at: string, rs: seq<SelectionRecord>)
    requires GetHistory(before) == Reverse(rs)[..Min(|rs|, MaxHistorySize)]
    ensures GetHistory(SetSelection(before, m, at, Written)) == Reverse(rs + [RecordOf(m, at)])[..Min(|rs| + 1, MaxHistorySize)]
  {
    var rec := RecordOf(m, at);
    ReverseSnoc(rs, rec);
    WindowStep(rec, Reverse(rs), GetHistory(before));
  }

  /** Starting from an empty store, successful selections leave the history holding the
      newest 20 records, newest first, and the newest one current. */
  lemma {:induction false} HistoryIsNewestFirst(f: StoreFile, ops: seq<Op>)
    requires ReadData(f) == EmptyData
    requires forall i :: 0 <= i < |ops| ==> ops[i].Select? && ops[i].outcome.Written?
    ensures GetHistory(Run(f, ops)) == Reverse(Records(ops))[..Min(|ops|, MaxHistorySize)]
    ensures |ops| > 0 ==> GetSelection(Run(f, ops)) == Some(Records(ops)[|ops| - 1])
    decreases |ops|
  {
    if |ops| > 0 {
      var prefix := ops[..|ops| - 1];
      var op := ops[|ops| - 1];
      assert forall i :: 0 <= i < |prefix| ==> prefix[i] == ops[i];
      HistoryIsNewestFirst(f, prefix);
      var rs := Records(prefix);
      assert Records(ops) == rs + [RecordOf(op.message, op.receivedAt)];
      assert Run(f, ops) == SetSelection(Run(f, prefix), op.message, op.receivedAt, Written);
      HistoryStep(Run(f, prefix), op.message, op.receivedAt, rs);
    }
  }
}
