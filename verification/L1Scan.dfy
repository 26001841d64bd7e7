/** The backward scan for the latest certificate event when the service starts. */
module L1Scan {
  import opened Common
  import opened Messages

  datatype CertificateVerified = CertificateVerified(hotshotBlock: U64, delayedMessageRead: U64, messageCount: U64)

  /** A log of the inbox contract; `event` is `None` when it does not decode. */
  datatype Log = Log(block: nat, event: Option<CertificateVerified>)

  datatype CasCheckpoint = CasCheckpoint(cursor: BatchCursor, hotshotHeight: U64)

  datatype ScanError = Unavailable | BadLog | CheckpointNotFound(limit: U64)

  /** The logs of an inclusive range of blocks, or `None` when the request fails. */
  type Scanner = (nat, nat) -> Option<seq<Log>>

  function SaturatingSub(a: nat, b: nat): nat {
    if a >= b then a - b else 0
  }

  function EarliestAllowed(latest: U64, limit: U64): nat {
    if limit > 0 then SaturatingSub(latest, limit - 1) else 0
  }

  /** With a limit that many blocks up to the head are scanned, or all if there are fewer; without one, all. */
  lemma SpanIs(latest: U64, limit: U64)
    ensures EarliestAllowed(latest, limit) <= latest
    ensures latest - EarliestAllowed(latest, limit) + 1 == if limit == 0 then latest + 1 else Min(limit, latest + 1)
  {
  }

  function FromBlock(to: nat, step: nat, earliest: nat): nat {
    Max(SaturatingSub(to, step), earliest)
  }

  function Read(log: Log): Result<CasCheckpoint, ScanError> {
    match log.event
    case None => Err(BadLog)
    case Some(e) => Ok(CasCheckpoint(BatchCursor(e.delayedMessageRead, e.messageCount), e.hotshotBlock))
  }

  function NothingFound(limit: U64): Result<CasCheckpoint, ScanError> {
    if limit > 0 then Err(CheckpointNotFound(limit)) else Ok(CasCheckpoint(DEFAULT_CURSOR, 0))
  }

  // ---- the logs of a chain ----

  /** Logs are listed block by block. */
  predicate Ordered(ledger: seq<Log>) {
    forall i, j :: 0 <= i <= j < |ledger| ==> ledger[i].block <= ledger[j].block
  }

  predicate In(log: Log, from: nat, to: nat) {
    from <= log.block <= to
  }

  function InRange(ledger: seq<Log>, from: nat, to: nat): seq<Log> {
    if ledger == [] then []
    else
      var last := ledger[|ledger| - 1];
      InRange(ledger[..|ledger| - 1], from, to) + (if In(last, from, to) then [last] else [])
  }

  /** The scanner answers, and with the logs of this ledger. */
  ghost predicate Serves(scanner: Scanner, ledger: seq<Log>) {
    Ordered(ledger) && forall from: nat, to: nat :: scanner(from, to) == Some(InRange(ledger, from, to))
  }

  predicate NoneIn(ledger: seq<Log>, from: nat, to: nat) {
    forall i :: 0 <= i < |ledger| ==> !In(ledger[i], from, to)
  }

  /** Log `i` is the last one of the range. */
  predicate LatestIn(ledger: seq<Log>, from: nat, to: nat, i: nat) {
    i < |ledger| && In(ledger[i], from, to) && forall j :: i < j < |ledger| ==> !In(ledger[j], from, to)
  }

  lemma {:induction false} LastInRange(ledger: seq<Log>, from: nat, to: nat) returns (i: nat)
    ensures InRange(ledger, from, to) == [] <==> NoneIn(ledger, from, to)
    ensures var logs := InRange(ledger, from, to);
            logs != [] ==> LatestIn(ledger, from, to, i) && logs[|logs| - 1] == ledger[i]
  {
    i := 0;
    if ledger != [] {
      var n := |ledger| - 1;
      i := LastInRange(ledger[..n], from, to);
      assert forall k :: 0 <= k < n ==> ledger[..n][k] == ledger[k];
      if In(ledger[n], from, to) {
        i := n;
      }
    }
  }

  /** What the scan has to return. */
  ghost predicate Correct(ledger: seq<Log>, earliest: nat, latest: nat, limit: U64, r: Result<CasCheckpoint, ScanError>) {
    if NoneIn(ledger, earliest, latest) then
      r == if limit == 0 then Ok(CasCheckpoint(BatchCursor(1, 1), 0)) else Err(CheckpointNotFound(limit))
    else exists i: nat :: LatestIn(ledger, earliest, latest, i) && Reports(ledger[i], r)
  }

  /** The next batch starts behind the counted messages, with the delayed messages read so far. */
  predicate Reports(log: Log, r: Result<CasCheckpoint, ScanError>) {
    match log.event
    case None => r == Err(BadLog)
    case Some(e) =>
      && r.Ok? && r.value.hotshotHeight == e.hotshotBlock
      && r.value.cursor.nextBatchStartPos == e.messageCount
      && r.value.cursor.lastBatchDelayedMessagesRead == e.delayedMessageRead
  }

  // ---- the windows ----

  datatype Window = Window(from: nat, to: nat)

  /** Windows that descend from `top` without gap or overlap, the last one starting at `bottom`. */
  predicate Descends(ws: seq<Window>, top: nat, bottom: nat) {
    && (ws == [] ==> top + 1 == bottom)
    && (ws != [] ==> ws[0].to == top && ws[|ws| - 1].from == bottom)
    && (forall i :: 0 <= i < |ws| ==> ws[i].from <= ws[i].to)
    && (forall i :: 0 <= i < |ws| - 1 ==> ws[i + 1].to + 1 == ws[i].from)
  }

  lemma DescendsSnoc(ws: seq<Window>, top: nat, from: nat, to: nat)
    requires Descends(ws, top, to + 1) && from <= to <= top
    ensures Descends(ws + [Window(from, to)], top, from)
  {
    var all := ws + [Window(from, to)];
    assert forall i :: 0 <= i < |ws| ==> all[i] == ws[i];
  }

  predicate Empty(scanner: Scanner, ws: seq<Window>) {
    forall i :: 0 <= i < |ws| ==> scanner(ws[i].from, ws[i].to) == Some([])
  }

  /** Whatever the scanner answers: all windows but the last were empty, and the last one decides. */
  predicate Outcome(scanner: Scanner, ws: seq<Window>, earliest: nat, limit: U64, r: Result<CasCheckpoint, ScanError>)
    requires ws != []
  {
    var last := ws[|ws| - 1];
    && Empty(scanner, ws[..|ws| - 1])
    && match scanner(last.from, last.to)
       case None => r == Err(Unavailable)
       case Some(logs) =>
         if logs != [] then r == Read(logs[|logs| - 1]) else last.from == earliest && r == NothingFound(limit)
  }

  lemma LastOf(scanner: Scanner, before: seq<Window>, last: Window)
    requires Empty(scanner, before)
    ensures Empty(scanner, (before + [last])[..|before + [last]| - 1])
    ensures scanner(last.from, last.to) == Some([]) ==> Empty(scanner, before + [last])
  {
    assert (before + [last])[..|before|] == before;
  }

  /** As many blocks as the step allows, except where the earliest block cuts the window short. */
  predicate Stepped(w: Window, step: nat, earliest: nat) {
    w.from <= w.to && w.to - w.from <= step && (w.from == earliest || w.to - w.from == step)
  }

  /** These are windows the loop may have asked for: from the head down, above the earliest block, in full steps. */
  predicate Visits(ws: seq<Window>, latest: nat, step: nat, earliest: nat) {
    && ws != [] && Descends(ws, latest, ws[|ws| - 1].from) && earliest <= ws[|ws| - 1].from
    && forall i :: 0 <= i < |ws| ==> Stepped(ws[i], step, earliest)
  }

  /** The result comes from such windows. */
  ghost predicate Scanned(scanner: Scanner, latest: U64, step: U64, limit: U64, r: Result<CasCheckpoint, ScanError>) {
    exists ws: seq<Window> ::
      && Visits(ws, latest, step, EarliestAllowed(latest, limit))
      && Outcome(scanner, ws, EarliestAllowed(latest, limit), limit, r)
  }

  /**
   * The loop ends for every step, including 0. The windows it asks for descend from the head without gap or overlap,
   * stay above the earliest allowed block and are as large as the step allows; the last one decides.
   */
  method ScanForLatestCheckpoint(scanner: Scanner, latest: U64, step: U64, limit: U64) returns (r: Result<CasCheckpoint, ScanError>)
    ensures Scanned(scanner, latest, step, limit, r)
  {
    var upper: nat := latest;
    var earliest := EarliestAllowed(latest, limit);
    ghost var windows: seq<Window> := [];
    while true
      invariant Scanning(scanner, windows, latest, upper, step, earliest)
      decreases upper
    {
      var from := FromBlock(upper, step, earliest);
      OneMore(scanner, windows, latest, upper, step, earliest);
      windows := windows + [Window(from, upper)];
      var logs := scanner(from, upper);
      if logs.None? {
        r := Err(Unavailable);
        assert Outcome(scanner, windows, earliest, limit, r);
        return;
      }
      if logs.value != [] {
        r := Read(logs.value[|logs.value| - 1]);
        assert Outcome(scanner, windows, earliest, limit, r);
        return;
      }
      if from == earliest {
        r := NothingFound(limit);
        assert Outcome(scanner, windows, earliest, limit, r);
        return;
      }
      upper := SaturatingSub(from, 1);
    }
  }

  /** The windows asked for so far were empty, and reach down to the block above `upper`. */
  ghost predicate Scanning(scanner: Scanner, ws: seq<Window>, latest: nat, upper: nat, step: nat, earliest: nat) {
    && earliest <= upper <= latest
    && Descends(ws, latest, upper + 1) && Empty(scanner, ws)
    && forall i :: 0 <= i < |ws| ==> Stepped(ws[i], step, earliest)
  }

  lemma OneMore(scanner: Scanner, ws: seq<Window>, latest: nat, upper: nat, step: nat, earliest: nat)
    requires Scanning(scanner, ws, latest, upper, step, earliest)
    ensures var from := FromBlock(upper, step, earliest);
      var all := ws + [Window(from, upper)];
      && Visits(all, latest, step, earliest) && all[|all| - 1] == Window(from, upper)
      && Empty(scanner, all[..|all| - 1])
      && (from > earliest && scanner(from, upper) == Some([]) ==> Scanning(scanner, all, latest, from - 1, step, earliest))
  {
    var w := Window(FromBlock(upper, step, earliest), upper);
    DescendsSnoc(ws, latest, w.from, upper);
    LastOf(scanner, ws, w);
  }

  /** Windows that came back empty leave nothing between them. */
  lemma {:induction false} EmptyWindows(scanner: Scanner, ledger: seq<Log>, ws: seq<Window>, top: nat, bottom: nat)
    requires Serves(scanner, ledger) && Descends(ws, top, bottom) && Empty(scanner, ws)
    ensures NoneIn(ledger, bottom, top)
  {
    if ws != [] {
      var n := |ws| - 1;
      var init, last := ws[..n], ws[n];
      assert Descends(init, top, last.to + 1);
      EmptyWindows(scanner, ledger, init, top, last.to + 1);
      assert InRange(ledger, last.from, last.to) == [];
      var _ := LastInRange(ledger, last.from, last.to);
    }
  }

  lemma FoundIsLatest(ledger: seq<Log>, earliest: nat, from: nat, to: nat, latest: nat) returns (i: nat)
    requires Ordered(ledger) && earliest <= from && to <= latest && NoneIn(ledger, to + 1, latest)
    requires InRange(ledger, from, to) != []
    ensures var logs := InRange(ledger, from, to); LatestIn(ledger, earliest, latest, i) && ledger[i] == logs[|logs| - 1]
  {
    i := LastInRange(ledger, from, to);
  }

  lemma LatestDecides(ledger: seq<Log>, earliest: nat, latest: nat, limit: U64, i: nat)
    requires LatestIn(ledger, earliest, latest, i)
    ensures Correct(ledger, earliest, latest, limit, Read(ledger[i]))
  {
    assert Reports(ledger[i], Read(ledger[i]));
  }

  /**
   * When the scanner serves a ledger, the scan returns the latest event between the earliest allowed block and the
   * head, or the not-found outcome exactly when there is none.
   */
  lemma ScanIsCorrect(scanner: Scanner, ledger: seq<Log>, latest: U64, step: U64, limit: U64, r: Result<CasCheckpoint, ScanError>)
    requires Serves(scanner, ledger) && Scanned(scanner, latest, step, limit, r)
    ensures Correct(ledger, EarliestAllowed(latest, limit), latest, limit, r)
  {
    var earliest := EarliestAllowed(latest, limit);
    var ws: seq<Window> :| Visits(ws, latest, step, earliest) && Outcome(scanner, ws, earliest, limit, r);
    var last := ws[|ws| - 1];
    NothingAbove(scanner, ledger, ws, latest);
    LastDecides(ledger, earliest, last.from, last.to, latest, limit, r);
  }

  lemma NothingAbove(scanner: Scanner, ledger: seq<Log>, ws: seq<Window>, latest: nat)
    requires Serves(scanner, ledger) && ws != [] && Descends(ws, latest, ws[|ws| - 1].from)
    requires Empty(scanner, ws[..|ws| - 1])
    ensures var to := ws[|ws| - 1].to; to <= latest && NoneIn(ledger, to + 1, latest)
  {
    var init := ws[..|ws| - 1];
    WindowsBelowTop(ws, latest);
    assert Descends(init, latest, ws[|ws| - 1].to + 1);
    EmptyWindows(scanner, ledger, init, latest, ws[|ws| - 1].to + 1);
  }

  lemma LastDecides(
    ledger: seq<Log>, earliest: nat, from: nat, to: nat, latest: nat, limit: U64, r: Result<CasCheckpoint, ScanError>)
    requires Ordered(ledger) && earliest <= from && to <= latest && NoneIn(ledger, to + 1, latest)
    requires var logs := InRange(ledger, from, to);
      if logs != [] then r == Read(logs[|logs| - 1]) else from == earliest && r == NothingFound(limit)
    ensures Correct(ledger, earliest, latest, limit, r)
  {
    if InRange(ledger, from, to) == [] {
      var _ := LastInRange(ledger, from, to);
    } else {
      var i := FoundIsLatest(ledger, earliest, from, to, latest);
      LatestDecides(ledger, earliest, latest, limit, i);
    }
  }

  lemma {:induction false} WindowsBelowTop(ws: seq<Window>, top: nat)
    requires ws != [] && Descends(ws, top, ws[|ws| - 1].from)
    ensures ws[|ws| - 1].to <= top
  {
    if |ws| > 1 {
      var init := ws[..|ws| - 1];
      assert Descends(init, top, init[|init| - 1].from);
      WindowsBelowTop(init, top);
    }
  }
}
