/**
 * The broadcaster and one joining client as an interleaved transition system. The broadcaster confirms, appends and
 * sends under separate locks; the client subscribes, takes a snapshot of the backlog and then receives. Any client step
 * may fall between any two broadcaster steps. A client that lags is disconnected, so the channel never drops here.
 */
module FeedProtocol {
  import opened Common
  import opened Messages
  import opened Feed

  /** Where the broadcaster is inside `broadcast`. */
  datatype Phase = Idle | AfterConfirm(bm: BroadcastMessage) | AfterAppend(bm: BroadcastMessage)

  /** What was true when the client took its snapshot; only the proofs look at it. */
  datatype Joined = Joined(
    fromBacklog: bool,   // the snapshot had something for this client
    lo: nat,             // index in `appended` of the first message it receives
    mark: nat,           // number of messages appended by then
    markAt: nat,         // number of broadcasts appended by then
    confirmed: int)      // highest confirmation by then

  datatype Client =
    | Absent
    | Subscribed(at: nat)
    | Live(at: nat, next: nat, lastSent: Option<U64>, delivered: seq<FeedMessage>, joined: Joined)

  datatype Server = Server(
    backlog: seq<FeedMessage>,
    phase: Phase,
    channel: seq<BroadcastMessage>,
    client: Client,
    appended: seq<FeedMessage>,
    confirmed: int,
    frames: seq<BroadcastMessage>)   // what the client was sent from the channel

  datatype Action = Begin(bm: BroadcastMessage) | Append | SendToAll | Subscribe | Snapshot | Receive

  const START := Server([], Idle, [], Absent, [], -1, [])

  /** A broadcast that confirms carries no messages, as the two ways of building one ensure. */
  predicate Pure(bm: BroadcastMessage) {
    bm.confirmed.Some? ==> bm.messages == []
  }

  predicate Enabled(s: Server, a: Action) {
    match a
    case Begin(bm) => s.phase.Idle? && Pure(bm)
    case Append => s.phase.AfterConfirm?
    case SendToAll => s.phase.AfterAppend?
    case Subscribe => s.client.Absent?
    case Snapshot => s.client.Subscribed?
    case Receive => s.client.Live? && s.client.next < |s.channel|
  }

  /** Broadcasts whose messages are in the backlog's history: those sent, and the one appended but not yet sent. */
  function Logged(s: Server): seq<BroadcastMessage> {
    if s.phase.AfterAppend? then s.channel + [s.phase.bm] else s.channel
  }

  function Join(s: Server, requested: U64): Client
    requires s.client.Subscribed?
  {
    var snapshot := Since(s.backlog, requested);
    var joined := Joined(
      snapshot != [],
      if 0 < |snapshot| <= |s.appended| then |s.appended| - |snapshot| else CountOf(s.channel, s.client.at),
      |s.appended|, |Logged(s)|, s.confirmed);
    Live(s.client.at, s.client.at,
         if snapshot == [] then None else Some(snapshot[|snapshot| - 1].sequenceNumber), snapshot, joined)
  }

  function Deliver(c: Client, bm: BroadcastMessage): Client
    requires c.Live?
  {
    if ShouldSend(bm, c.lastSent)
    then c.(next := c.next + 1, lastSent := LastSent(bm.messages, c.lastSent), delivered := c.delivered + Flat(bm.messages))
    else c.(next := c.next + 1)
  }

  function Next(s: Server, a: Action, requested: U64): Server
    requires Enabled(s, a)
  {
    match a
    case Begin(bm) =>
      if bm.confirmed.Some?
      then s.(backlog := After(s.backlog, bm.confirmed.value), phase := AfterConfirm(bm),
              confirmed := Max(s.confirmed, bm.confirmed.value))
      else s.(phase := AfterConfirm(bm))
    case Append =>
      var ms := Flat(s.phase.bm.messages);
      s.(backlog := Appended(s.backlog, ms), appended := s.appended + ms, phase := AfterAppend(s.phase.bm))
    case SendToAll => s.(channel := s.channel + [s.phase.bm], phase := Idle)
    case Subscribe => s.(client := Subscribed(|s.channel|))
    case Snapshot => s.(client := Join(s, requested))
    case Receive =>
      var bm := s.channel[s.client.next];
      s.(client := Deliver(s.client, bm), frames := if ShouldSend(bm, s.client.lastSent) then s.frames + [bm] else s.frames)
  }

  /** The three broadcaster steps without interruption do what one broadcast of the server object does. */
  lemma StepsAreBroadcast(s: Server, bm: BroadcastMessage, requested: U64)
    requires Enabled(s, Begin(bm))
    ensures var t := Next(Next(Next(s, Begin(bm), requested), Append, requested), SendToAll, requested);
            && t.backlog == Appended(Confirmed(s.backlog, bm), Flat(bm.messages))
            && t.channel == s.channel + [bm] && t.phase == Idle && t.client == s.client
  {
  }

  // ---- counting messages in broadcasts ----

  function FlatAll(bms: seq<BroadcastMessage>): seq<FeedMessage> {
    if bms == [] then [] else FlatAll(bms[..|bms| - 1]) + Flat(bms[|bms| - 1].messages)
  }

  /** Number of messages in the first `k` broadcasts. */
  function CountOf(bms: seq<BroadcastMessage>, k: nat): nat {
    if k <= |bms| then |FlatAll(bms[..k])| else |FlatAll(bms)|
  }

  lemma {:induction false} FlatAllConcat(a: seq<BroadcastMessage>, b: seq<BroadcastMessage>)
    ensures FlatAll(a + b) == FlatAll(a) + FlatAll(b)
  {
    if b == [] {
      assert a + b == a;
    } else {
      assert (a + b)[..|a + b| - 1] == a + b[..|b| - 1];
      FlatAllConcat(a, b[..|b| - 1]);
    }
  }

  lemma FlatAllOne(bm: BroadcastMessage)
    ensures FlatAll([bm]) == Flat(bm.messages)
  {
    assert [bm][..0] == [];
    assert FlatAll([]) == [];
  }

  /** The messages of broadcast `k` sit between two counts. */
  lemma BroadcastAt(bms: seq<BroadcastMessage>, k: nat)
    requires k < |bms|
    ensures CountOf(bms, k + 1) == CountOf(bms, k) + |Flat(bms[k].messages)|
    ensures CountOf(bms, k + 1) <= |FlatAll(bms)|
    ensures FlatAll(bms)[CountOf(bms, k)..CountOf(bms, k + 1)] == Flat(bms[k].messages)
  {
    var a, b := bms[..k + 1], bms[k + 1..];
    assert bms == a + b;
    assert a[..k] == bms[..k];
    FlatAllConcat(a, b);
  }

  lemma CountMonotone(bms: seq<BroadcastMessage>, j: nat, k: nat)
    requires j <= k <= |bms|
    ensures CountOf(bms, j) <= CountOf(bms, k) <= |FlatAll(bms)|
  {
    assert bms[..k] == bms[..j] + bms[j..k];
    FlatAllConcat(bms[..j], bms[j..k]);
    assert bms == bms[..k] + bms[k..];
    FlatAllConcat(bms[..k], bms[k..]);
  }

  lemma CountPrefix(bms: seq<BroadcastMessage>, more: seq<BroadcastMessage>, k: nat)
    requires k <= |bms|
    ensures CountOf(bms + more, k) == CountOf(bms, k)
  {
    assert (bms + more)[..k] == bms[..k];
  }

  // ---- invariants ----

  predicate SuffixOf(a: seq<FeedMessage>, b: seq<FeedMessage>) {
    |a| <= |b| && a == b[|b| - |a|..]
  }

  /** The broadcaster's side: the backlog is a suffix of everything appended, and what fell off was confirmed. */
  ghost predicate ServerInv(s: Server) {
    && Increasing(s.appended)
    && SuffixOf(s.backlog, s.appended)
    && FlatAll(Logged(s)) == s.appended
    && (forall i :: 0 <= i < |Logged(s)| ==> Pure(Logged(s)[i]))
    && (s.phase.AfterConfirm? ==> Pure(s.phase.bm) && Increasing(s.appended + Flat(s.phase.bm.messages)))
    && (forall i :: 0 <= i < |s.appended| - |s.backlog| ==> s.appended[i].sequenceNumber <= s.confirmed)
  }

  ghost function LastNumber(ms: seq<FeedMessage>): Option<U64> {
    if ms == [] then None else Some(ms[|ms| - 1].sequenceNumber)
  }

  /** How far into the stream a client has been served, given the broadcasts appended so far. */
  ghost function Served(log: seq<BroadcastMessage>, c: Client): nat
    requires c.Live?
  {
    if c.joined.fromBacklog then Max(c.joined.mark, CountOf(log, c.next)) else CountOf(log, c.next)
  }

  /** Where the client stands relative to its snapshot. */
  ghost predicate Placed(log: seq<BroadcastMessage>, c: Client)
    requires c.Live?
  {
    var j := c.joined;
    && c.at <= j.markAt <= |log| && c.at <= c.next <= |log|
    && j.mark == CountOf(log, j.markAt)
    && (if j.fromBacklog then j.lo < j.mark else j.lo == CountOf(log, c.at) <= j.mark)
  }

  /** What it received is one stretch of the stream, from `lo` to how far it has been served. */
  ghost predicate Stretch(appended: seq<FeedMessage>, c: Client, hi: nat)
    requires c.Live?
  {
    && c.joined.lo <= hi <= |appended|
    && c.delivered == appended[c.joined.lo..hi]
    && c.lastSent == LastNumber(c.delivered)
  }

  /** Anything before the stretch was confirmed before the snapshot or lies below the requested number. */
  ghost predicate NothingOwed(appended: seq<FeedMessage>, j: Joined, requested: U64) {
    && j.lo <= |appended|
    && forall i :: 0 <= i < j.lo && j.confirmed < appended[i].sequenceNumber ==> appended[i].sequenceNumber < requested
  }

  ghost predicate ClientInv(s: Server, requested: U64) {
    match s.client
    case Absent => true
    case Subscribed(at) => at <= |s.channel|
    case Live(_, next, _, _, joined) =>
      && next <= |s.channel|
      && Placed(Logged(s), s.client)
      && Stretch(s.appended, s.client, Served(Logged(s), s.client))
      && NothingOwed(s.appended, joined, requested)
  }

  // ---- the backlog in a sorted stream ----

  lemma SuffixOfSuffix(a: seq<FeedMessage>, b: seq<FeedMessage>, c: seq<FeedMessage>)
    requires SuffixOf(a, b) && SuffixOf(b, c)
    ensures SuffixOf(a, c)
  {
  }

  lemma SuffixAppend(a: seq<FeedMessage>, b: seq<FeedMessage>, ms: seq<FeedMessage>)
    requires SuffixOf(a, b)
    ensures SuffixOf(a + ms, b + ms)
  {
  }

  lemma SuffixIncreasing(a: seq<FeedMessage>, b: seq<FeedMessage>)
    requires SuffixOf(a, b) && Increasing(b)
    ensures Increasing(a)
  {
    assert forall i :: 0 <= i < |a| ==> a[i] == b[|b| - |a| + i];
  }

  /** Confirming cuts a sorted backlog in two. */
  lemma {:induction false} AfterCut(backlog: seq<FeedMessage>, c: U64) returns (k: nat)
    requires Increasing(backlog)
    ensures k <= |backlog| && After(backlog, c) == backlog[k..]
    ensures forall i :: 0 <= i < k ==> backlog[i].sequenceNumber <= c
  {
    if backlog == [] {
      return 0;
    }
    var init, last := backlog[..|backlog| - 1], backlog[|backlog| - 1];
    if last.sequenceNumber <= c {
      assert forall i :: 0 <= i < |init| ==> backlog[i].sequenceNumber < last.sequenceNumber;
      NoneAfter(backlog, c);
      return |backlog|;
    }
    k := AfterCut(init, c);
    assert After(backlog, c) == After(init, c) + [last];
    assert init[k..] + [last] == backlog[k..];
    assert forall i :: 0 <= i < k ==> init[i] == backlog[i];
  }

  lemma {:induction false} NoneAfter(backlog: seq<FeedMessage>, c: U64)
    requires forall i :: 0 <= i < |backlog| ==> backlog[i].sequenceNumber <= c
    ensures After(backlog, c) == []
  {
    if backlog != [] {
      NoneAfter(backlog[..|backlog| - 1], c);
    }
  }

  /** So does the snapshot for a requested number. */
  lemma {:induction false} SinceCut(backlog: seq<FeedMessage>, from: U64) returns (k: nat)
    requires Increasing(backlog)
    ensures k <= |backlog| && Since(backlog, from) == backlog[k..]
    ensures forall i :: 0 <= i < k ==> backlog[i].sequenceNumber < from
  {
    if backlog == [] {
      return 0;
    }
    var init, last := backlog[..|backlog| - 1], backlog[|backlog| - 1];
    if last.sequenceNumber < from {
      assert forall i :: 0 <= i < |init| ==> backlog[i].sequenceNumber < last.sequenceNumber;
      NoneSince(backlog, from);
      return |backlog|;
    }
    k := SinceCut(init, from);
    assert Since(backlog, from) == Since(init, from) + [last];
    assert init[k..] + [last] == backlog[k..];
    assert forall i :: 0 <= i < k ==> init[i] == backlog[i];
  }

  lemma {:induction false} NoneSince(backlog: seq<FeedMessage>, from: U64)
    requires forall i :: 0 <= i < |backlog| ==> backlog[i].sequenceNumber < from
    ensures Since(backlog, from) == []
  {
    if backlog != [] {
      NoneSince(backlog[..|backlog| - 1], from);
    }
  }

  lemma {:induction false} AppendedAll(backlog: seq<FeedMessage>, ms: seq<FeedMessage>)
    requires Increasing(backlog + ms)
    ensures Appended(backlog, ms) == backlog + ms
  {
    if ms == [] {
      assert backlog + ms == backlog;
    } else {
      var init, m := ms[..|ms| - 1], ms[|ms| - 1];
      assert backlog + ms == backlog + init + [m];
      IncreasingPrefix(backlog + init, m);
      AppendedAll(backlog, init);
    }
  }

  lemma IncreasingPrefix(ms: seq<FeedMessage>, m: FeedMessage)
    requires Increasing(ms + [m])
    ensures Increasing(ms)
    ensures ms != [] ==> ms[|ms| - 1].sequenceNumber < m.sequenceNumber
  {
    assert forall i :: 0 <= i < |ms| ==> (ms + [m])[i] == ms[i];
    assert (ms + [m])[|ms|] == m;
  }

  // ---- delivery of one broadcast ----

  lemma {:induction false} LastSentIs(messages: seq<Option<FeedMessage>>, lastSent: Option<U64>)
    requires Increasing(Flat(messages))
    requires lastSent.Some? && Flat(messages) != [] ==> lastSent.value < Flat(messages)[0].sequenceNumber
    ensures LastSent(messages, lastSent) == if Flat(messages) == [] then lastSent else LastNumber(Flat(messages))
  {
    if messages != [] {
      var init, last := messages[..|messages| - 1], messages[|messages| - 1];
      if last.Some? {
        IncreasingPrefix(Flat(init), last.value);
      }
      LastSentIs(init, lastSent);
    }
  }

  lemma {:induction false} FlatMembers(messages: seq<Option<FeedMessage>>, m: FeedMessage)
    ensures m in Flat(messages) <==> Some(m) in messages
  {
    if messages != [] {
      var init, last := messages[..|messages| - 1], messages[|messages| - 1];
      assert messages == init + [last];
      FlatMembers(init, m);
    }
  }

  /** A broadcast above everything delivered is delivered in full. */
  lemma DeliversNew(c: Client, bm: BroadcastMessage)
    requires c.Live? && Pure(bm) && Increasing(Flat(bm.messages))
    requires c.lastSent.Some? && Flat(bm.messages) != [] ==> c.lastSent.value < Flat(bm.messages)[0].sequenceNumber
    ensures var ms := Flat(bm.messages);
      Deliver(c, bm) == c.(next := c.next + 1, delivered := c.delivered + ms,
                           lastSent := if ms == [] then c.lastSent else LastNumber(ms))
  {
    var ms := Flat(bm.messages);
    LastSentIs(bm.messages, c.lastSent);
    if ms == [] {
      assert c.delivered + ms == c.delivered;
    } else if c.lastSent.Some? {
      FlatMembers(bm.messages, ms[0]);
      assert ms[0] in ms;
    }
  }

  /** A broadcast at or below what was delivered is skipped. */
  lemma SkipsOld(c: Client, bm: BroadcastMessage)
    requires c.Live? && Pure(bm) && c.lastSent.Some?
    requires forall i :: 0 <= i < |Flat(bm.messages)| ==> Flat(bm.messages)[i].sequenceNumber <= c.lastSent.value
    ensures Deliver(c, bm) == c.(next := c.next + 1)
  {
    if bm.confirmed.Some? {
      assert c.delivered + [] == c.delivered;
    } else {
      forall m | m in bm.messages && m.Some? ensures m.value.sequenceNumber <= c.lastSent.value {
        FlatMembers(bm.messages, m.value);
      }
    }
  }

  // ---- every step keeps the invariants ----

  lemma ConfirmKeeps(s: Server, bm: BroadcastMessage, requested: U64)
    requires ServerInv(s) && Enabled(s, Begin(bm)) && Increasing(s.appended + Flat(bm.messages))
    ensures ServerInv(Next(s, Begin(bm), requested))
  {
    if bm.confirmed.Some? {
      KeepUnconfirmed(s.appended, s.backlog, s.confirmed, bm.confirmed.value);
      ConfirmedState(s, After(s.backlog, bm.confirmed.value), Max(s.confirmed, bm.confirmed.value), bm);
    } else {
      ConfirmedState(s, s.backlog, s.confirmed, bm);
    }
  }

  lemma ConfirmedState(s: Server, backlog: seq<FeedMessage>, confirmed: int, bm: BroadcastMessage)
    requires ServerInv(s) && s.phase.Idle? && Pure(bm) && Increasing(s.appended + Flat(bm.messages))
    requires SuffixOf(backlog, s.appended)
    requires forall i :: 0 <= i < |s.appended| - |backlog| ==> s.appended[i].sequenceNumber <= confirmed
    ensures ServerInv(s.(backlog := backlog, phase := AfterConfirm(bm), confirmed := confirmed))
  {
    assert Logged(s.(backlog := backlog, phase := AfterConfirm(bm), confirmed := confirmed)) == Logged(s);
  }

  /** Pruning confirmed messages leaves a suffix, and what is gone was confirmed. */
  lemma KeepUnconfirmed(appended: seq<FeedMessage>, backlog: seq<FeedMessage>, confirmed: int, c: U64)
    requires Increasing(appended) && SuffixOf(backlog, appended)
    requires forall i :: 0 <= i < |appended| - |backlog| ==> appended[i].sequenceNumber <= confirmed
    ensures SuffixOf(After(backlog, c), appended)
    ensures forall i :: 0 <= i < |appended| - |After(backlog, c)| ==> appended[i].sequenceNumber <= Max(confirmed, c)
  {
    SuffixIncreasing(backlog, appended);
    var k := AfterCut(backlog, c);
    SuffixOfSuffix(After(backlog, c), backlog, appended);
    var gone := |appended| - |backlog|;
    forall i | 0 <= i < gone + k ensures appended[i].sequenceNumber <= Max(confirmed, c) {
      if i >= gone {
        assert appended[i] == backlog[i - gone];
      }
    }
  }

  lemma AppendKeeps(s: Server, requested: U64)
    requires ServerInv(s) && Enabled(s, Append)
    ensures ServerInv(Next(s, Append, requested))
    ensures Logged(Next(s, Append, requested)) == Logged(s) + [s.phase.bm]
  {
    var bm, ms := s.phase.bm, Flat(s.phase.bm.messages);
    SuffixAppend(s.backlog, s.appended, ms);
    assert Increasing(s.backlog + ms) by { SuffixIncreasing(s.backlog + ms, s.appended + ms); }
    AppendedAll(s.backlog, ms);
    FlatAllConcat(s.channel, [bm]);
    FlatAllOne(bm);
    var gone := |s.appended| - |s.backlog|;
    assert forall i :: 0 <= i < gone ==> (s.appended + ms)[i] == s.appended[i];
  }

  lemma ServerStep(s: Server, a: Action, requested: U64)
    requires ServerInv(s) && Enabled(s, a) && (a.Begin? ==> Increasing(s.appended + Flat(a.bm.messages)))
    ensures ServerInv(Next(s, a, requested))
  {
    match a {
      case Begin(bm) => ConfirmKeeps(s, bm, requested);
      case Append => AppendKeeps(s, requested);
      case SendToAll =>
        assert Logged(Next(s, a, requested)) == Logged(s);
      case Subscribe =>
      case Snapshot =>
      case Receive =>
    }
  }

  // ---- the client ----

  /** A broadcaster step leaves what the client was promised alone. */
  lemma BeginLeavesClient(s: Server, bm: BroadcastMessage, requested: U64)
    requires ClientInv(s, requested) && Enabled(s, Begin(bm))
    ensures ClientInv(Next(s, Begin(bm), requested), requested)
  {
    var t := Next(s, Begin(bm), requested);
    assert Logged(t) == Logged(s);
    SameForClient(s, t, requested);
  }

  lemma SendLeavesClient(s: Server, requested: U64)
    requires ClientInv(s, requested) && Enabled(s, SendToAll)
    ensures ClientInv(Next(s, SendToAll, requested), requested)
  {
    var t := Next(s, SendToAll, requested);
    assert Logged(t) == Logged(s);
    SameForClient(s, t, requested);
  }

  lemma SameForClient(s: Server, t: Server, requested: U64)
    requires ClientInv(s, requested) && t.client == s.client && t.appended == s.appended
    requires Logged(t) == Logged(s) && |s.channel| <= |t.channel|
    ensures ClientInv(t, requested)
  {
  }

  lemma AppendLeavesClient(s: Server, requested: U64)
    requires ServerInv(s) && ClientInv(s, requested) && Enabled(s, Append)
    ensures ClientInv(Next(s, Append, requested), requested)
  {
    if s.client.Live? {
      AppendKeeps(s, requested);
      LogGrows(Logged(s), s.phase.bm, s.client);
      StreamGrows(s.appended, Flat(s.phase.bm.messages), s.client, Served(Logged(s), s.client), requested);
    }
  }

  lemma StreamGrows(appended: seq<FeedMessage>, ms: seq<FeedMessage>, c: Client, hi: nat, requested: U64)
    requires c.Live? && Stretch(appended, c, hi) && NothingOwed(appended, c.joined, requested)
    ensures Stretch(appended + ms, c, hi) && NothingOwed(appended + ms, c.joined, requested)
  {
    assert (appended + ms)[c.joined.lo..hi] == appended[c.joined.lo..hi];
  }

  lemma LogGrows(log: seq<BroadcastMessage>, bm: BroadcastMessage, c: Client)
    requires c.Live? && Placed(log, c)
    ensures Placed(log + [bm], c) && Served(log + [bm], c) == Served(log, c)
  {
    CountPrefix(log, [bm], c.joined.markAt);
    CountPrefix(log, [bm], c.next);
    CountPrefix(log, [bm], c.at);
  }

  lemma SnapshotCounts(s: Server, at: nat)
    requires ServerInv(s) && at <= |s.channel|
    ensures CountOf(Logged(s), |Logged(s)|) == |s.appended|
    ensures CountOf(s.channel, at) == CountOf(Logged(s), at) <= |s.appended|
  {
    var log := Logged(s);
    assert log[..|log|] == log;
    CountMonotone(log, at, |log|);
    if s.phase.AfterAppend? {
      CountPrefix(s.channel, [s.phase.bm], at);
    }
  }

  /** A snapshot that is the end of the stream puts the client in place. */
  lemma JoinPlaced(appended: seq<FeedMessage>, log: seq<BroadcastMessage>, c: Client, snapshot: seq<FeedMessage>)
    requires c.Live? && c.at == c.next <= |log| && c.delivered == snapshot && c.lastSent == LastNumber(snapshot)
    requires SuffixOf(snapshot, appended)
    requires CountOf(log, |log|) == |appended| && CountOf(log, c.at) <= |appended|
    requires c.joined.fromBacklog == (snapshot != []) && c.joined.mark == |appended| && c.joined.markAt == |log|
    requires c.joined.lo == if snapshot != [] then |appended| - |snapshot| else CountOf(log, c.at)
    ensures Placed(log, c) && Stretch(appended, c, Served(log, c))
  {
  }

  lemma SnapshotStep(s: Server, requested: U64)
    requires ServerInv(s) && ClientInv(s, requested) && Enabled(s, Snapshot)
    ensures ClientInv(Next(s, Snapshot, requested), requested)
  {
    var snapshot, k := SnapshotIs(s, requested);
    var c := Join(s, requested);
    SnapshotCounts(s, s.client.at);
    JoinPlaced(s.appended, Logged(s), c, snapshot);
    SnapshotOwesNothing(s, k, c.joined, requested);
    assert Logged(s.(client := c)) == Logged(s);
  }

  /** The snapshot is the end of the stream, and what it leaves out of the backlog lies below the requested number. */
  lemma SnapshotIs(s: Server, requested: U64) returns (snapshot: seq<FeedMessage>, k: nat)
    requires ServerInv(s)
    ensures snapshot == Since(s.backlog, requested) && SuffixOf(snapshot, s.appended)
    ensures k <= |s.backlog| && |snapshot| == |s.backlog| - k
    ensures forall i :: 0 <= i < k ==> s.backlog[i].sequenceNumber < requested
  {
    snapshot := Since(s.backlog, requested);
    SuffixIncreasing(s.backlog, s.appended);
    k := SinceCut(s.backlog, requested);
    SuffixOfSuffix(snapshot, s.backlog, s.appended);
  }

  lemma SnapshotOwesNothing(s: Server, k: nat, j: Joined, requested: U64)
    requires ServerInv(s) && k <= |s.backlog| && j.confirmed == s.confirmed
    requires j.lo <= |s.appended| - |s.backlog| + k || (k == |s.backlog| && j.lo <= |s.appended|)
    requires forall i :: 0 <= i < k ==> s.backlog[i].sequenceNumber < requested
    ensures NothingOwed(s.appended, j, requested)
  {
    var gone := |s.appended| - |s.backlog|;
    forall i | 0 <= i < j.lo && s.confirmed < s.appended[i].sequenceNumber ensures s.appended[i].sequenceNumber < requested {
      assert gone <= i;
      assert s.appended[i] == s.backlog[i - gone];
    }
  }

  /** Until the client has caught up with its snapshot, broadcasts from the channel are old news. */
  lemma OldNews(appended: seq<FeedMessage>, log: seq<BroadcastMessage>, c: Client)
    requires Increasing(appended) && FlatAll(log) == appended
    requires c.Live? && c.next < |log| && Placed(log, c) && Stretch(appended, c, Served(log, c))
    requires c.joined.fromBacklog && c.next < c.joined.markAt
    ensures var r := c.(next := c.next + 1); Placed(log, r) && Stretch(appended, r, Served(log, r))
    ensures c.lastSent.Some?
    ensures var ms := Flat(log[c.next].messages);
      forall i :: 0 <= i < |ms| ==> ms[i].sequenceNumber <= c.lastSent.value
  {
    var j, k := c.joined, c.next;
    BroadcastAt(log, k);
    CountMonotone(log, k + 1, j.markAt);
    assert c.delivered == appended[j.lo..j.mark];
    SegmentsOrdered(appended, CountOf(log, k), CountOf(log, k + 1), j.lo, j.mark);
  }

  lemma SegmentsOrdered(a: seq<FeedMessage>, lo: nat, hi: nat, lo': nat, hi': nat)
    requires Increasing(a) && lo <= hi <= hi' <= |a| && lo' < hi'
    ensures LastNumber(a[lo'..hi']).Some?
    ensures forall i :: 0 <= i < |a[lo..hi]| ==> a[lo..hi][i].sequenceNumber <= LastNumber(a[lo'..hi']).value
  {
  }

  /** From then on every broadcast continues the stretch. */
  lemma Continues(appended: seq<FeedMessage>, log: seq<BroadcastMessage>, c: Client)
    requires Increasing(appended) && FlatAll(log) == appended
    requires c.Live? && c.next < |log| && Placed(log, c) && Stretch(appended, c, Served(log, c))
    requires c.joined.fromBacklog ==> c.joined.markAt <= c.next
    ensures var ms := Flat(log[c.next].messages);
      var r := c.(next := c.next + 1, delivered := c.delivered + ms,
                  lastSent := if ms == [] then c.lastSent else LastNumber(ms));
      && Placed(log, r) && Stretch(appended, r, Served(log, r))
      && Increasing(ms)
      && (c.lastSent.Some? && ms != [] ==> c.lastSent.value < ms[0].sequenceNumber)
  {
    var lo, hi, ms := CountOf(log, c.next), CountOf(log, c.next + 1), Flat(log[c.next].messages);
    ServedNext(log, c);
    var r := c.(next := c.next + 1, delivered := c.delivered + ms, lastSent := if ms == [] then c.lastSent else LastNumber(ms));
    StretchExtends(appended, c, r, lo, hi);
    SegmentIncreasing(appended, c.joined.lo, lo, hi);
  }

  /** A client past its snapshot has been served as many messages as the broadcasts it has read hold. */
  lemma ServedNext(log: seq<BroadcastMessage>, c: Client)
    requires c.Live? && c.next < |log| && Placed(log, c) && (c.joined.fromBacklog ==> c.joined.markAt <= c.next)
    ensures Served(log, c) == CountOf(log, c.next)
    ensures CountOf(log, c.next) <= Served(log, c.(next := c.next + 1)) == CountOf(log, c.next + 1) <= |FlatAll(log)|
    ensures Flat(log[c.next].messages) == FlatAll(log)[CountOf(log, c.next)..CountOf(log, c.next + 1)]
  {
    BroadcastAt(log, c.next);
    if c.joined.fromBacklog {
      CountMonotone(log, c.joined.markAt, c.next);
    }
  }

  lemma StretchExtends(appended: seq<FeedMessage>, c: Client, r: Client, lo: nat, hi: nat)
    requires c.Live? && r.Live? && r.joined == c.joined && lo <= hi <= |appended| && Stretch(appended, c, lo)
    requires r.delivered == c.delivered + appended[lo..hi]
    requires r.lastSent == if lo == hi then c.lastSent else LastNumber(appended[lo..hi])
    ensures Stretch(appended, r, hi)
  {
    JoinSegments(appended, c.joined.lo, lo, hi);
  }

  lemma SegmentIncreasing(a: seq<FeedMessage>, lo: nat, mid: nat, hi: nat)
    requires Increasing(a) && lo <= mid <= hi <= |a|
    ensures Increasing(a[mid..hi])
    ensures lo < mid < hi ==> LastNumber(a[lo..mid]).value < a[mid..hi][0].sequenceNumber
  {
  }

  lemma JoinSegments(a: seq<FeedMessage>, lo: nat, mid: nat, hi: nat)
    requires lo <= mid <= hi <= |a|
    ensures a[lo..mid] + a[mid..hi] == a[lo..hi]
    ensures mid < hi ==> LastNumber(a[lo..hi]) == LastNumber(a[mid..hi])
  {
  }

  // ---- whole runs ----

  /** The state after the actions, if each was enabled in its turn. */
  function Exec(actions: seq<Action>, requested: U64): Option<Server> {
    if actions == [] then Some(START)
    else
      var a := actions[|actions| - 1];
      match Exec(actions[..|actions| - 1], requested)
      case None => None
      case Some(s) => if Enabled(s, a) then Some(Next(s, a, requested)) else None
  }

  /** The messages of all broadcasts begun. */
  function Input(actions: seq<Action>): seq<FeedMessage> {
    if actions == [] then []
    else
      var before, a := Input(actions[..|actions| - 1]), actions[|actions| - 1];
      if a.Begin? then before + Flat(a.bm.messages) else before
  }

  /** What a broadcast that has only confirmed so far is still going to append. */
  function Underway(s: Server): seq<FeedMessage> {
    if s.phase.AfterConfirm? then Flat(s.phase.bm.messages) else []
  }

  /** Nothing is lost on the way into the stream. */
  lemma {:induction false} InputIsAppended(actions: seq<Action>, requested: U64, s: Server)
    requires Exec(actions, requested) == Some(s)
    ensures Input(actions) == s.appended + Underway(s)
  {
    if actions != [] {
      var init := actions[..|actions| - 1];
      InputIsAppended(init, requested, Exec(init, requested).value);
    }
  }

  /** The input is strictly increasing; the broadcaster would drop a message that is not above the tail. */
  lemma {:induction false} RunKeeps(actions: seq<Action>, requested: U64, s: Server)
    requires Exec(actions, requested) == Some(s) && Increasing(Input(actions))
    ensures ServerInv(s) && ClientInv(s, requested)
  {
    if actions != [] {
      var init, a := actions[..|actions| - 1], actions[|actions| - 1];
      var before := Exec(init, requested).value;
      InputIsAppended(init, requested, before);
      InputGrows(actions);
      RunKeeps(init, requested, before);
      if a.Begin? {
        assert before.appended + [] == before.appended;
      }
      StepKeeps(before, a, requested);
    }
  }

  lemma StepKeeps(s: Server, a: Action, requested: U64)
    requires ServerInv(s) && ClientInv(s, requested)
    requires Enabled(s, a) && (a.Begin? ==> Increasing(s.appended + Flat(a.bm.messages)))
    ensures ServerInv(Next(s, a, requested)) && ClientInv(Next(s, a, requested), requested)
  {
    ServerStep(s, a, requested);
    match a {
      case Begin(bm) => BeginLeavesClient(s, bm, requested);
      case Append => AppendLeavesClient(s, requested);
      case SendToAll => SendLeavesClient(s, requested);
      case Subscribe =>
      case Snapshot => SnapshotStep(s, requested);
      case Receive => ReceiveStep(s, requested);
    }
  }

  lemma InputGrows(actions: seq<Action>)
    requires actions != [] && Increasing(Input(actions))
    ensures Increasing(Input(actions[..|actions| - 1]))
  {
    var before := Input(actions[..|actions| - 1]);
    assert forall i :: 0 <= i < |before| ==> Input(actions)[i] == before[i];
  }

  lemma ReceiveStep(s: Server, requested: U64)
    requires ServerInv(s) && ClientInv(s, requested) && Enabled(s, Receive)
    ensures ClientInv(Next(s, Receive, requested), requested)
  {
    var c, log := s.client, Logged(s);
    assert log[c.next] == s.channel[c.next];
    if c.joined.fromBacklog && c.next < c.joined.markAt {
      OldNews(s.appended, log, c);
      SkipsOld(c, log[c.next]);
    } else {
      Continues(s.appended, log, c);
      DeliversNew(c, log[c.next]);
    }
  }

  /**
   * For every interleaving: what a connected client has received is one uninterrupted stretch of the stream, so each
   * message at most once and in increasing order; and a message at or above the requested number that was not confirmed
   * before the snapshot is never before that stretch.
   */
  lemma FeedDelivery(actions: seq<Action>, requested: U64, s: Server)
    requires Exec(actions, requested) == Some(s) && Increasing(Input(actions)) && s.client.Live?
    ensures Increasing(s.client.delivered)
    ensures Stretch(s.appended, s.client, Served(Logged(s), s.client))
    ensures forall i :: s.client.joined.confirmed < i && requested <= i ==> OnceServedDelivered(s, i)
  {
    RunKeeps(actions, requested, s);
    var lo, hi := s.client.joined.lo, Served(Logged(s), s.client);
    SegmentIncreasing(s.appended, lo, lo, hi);
    forall i | s.client.joined.confirmed < i && requested <= i ensures OnceServedDelivered(s, i) {
      forall k | 0 <= k < hi && s.appended[k].sequenceNumber == i ensures s.appended[k] in s.client.delivered {
        InStretch(s.appended, s.client, hi, requested, k);
      }
    }
  }

  lemma InStretch(appended: seq<FeedMessage>, c: Client, hi: nat, requested: U64, k: nat)
    requires c.Live? && Stretch(appended, c, hi) && NothingOwed(appended, c.joined, requested) && k < hi
    requires c.joined.confirmed < appended[k].sequenceNumber && requested <= appended[k].sequenceNumber
    ensures appended[k] in c.delivered
  {
    assert c.delivered[k - c.joined.lo] == appended[k];
  }

  /** The message numbered `i`, if the client has been served that far, is among those delivered. */
  ghost predicate OnceServedDelivered(s: Server, i: int)
    requires s.client.Live?
  {
    forall k :: 0 <= k < Served(Logged(s), s.client) && k < |s.appended| && s.appended[k].sequenceNumber == i ==>
      s.appended[k] in s.client.delivered
  }

  /** A client that has received everything in the channel has been served the whole stream. */
  lemma DrainedClientHasAll(actions: seq<Action>, requested: U64, s: Server, m: FeedMessage)
    requires Exec(actions, requested) == Some(s) && Increasing(Input(actions)) && s.client.Live?
    requires s.client.next == |s.channel| && s.phase.Idle?
    requires m in s.appended && requested <= m.sequenceNumber && s.client.joined.confirmed < m.sequenceNumber
    ensures m in s.client.delivered
  {
    RunKeeps(actions, requested, s);
    FeedDelivery(actions, requested, s);
    assert Logged(s)[..s.client.next] == Logged(s);
    assert Served(Logged(s), s.client) == |s.appended|;
    assert OnceServedDelivered(s, m.sequenceNumber);
    var i :| 0 <= i < |s.appended| && s.appended[i] == m;
  }

  // ---- confirmations ----

  /** The numbers that these broadcasts confirm, in order. */
  function Confirmations(bms: seq<BroadcastMessage>): seq<U64> {
    if bms == [] then []
    else
      var before, bm := Confirmations(bms[..|bms| - 1]), bms[|bms| - 1];
      if bm.confirmed.Some? then before + [bm.confirmed.value] else before
  }

  lemma ConfirmationsSnoc(bms: seq<BroadcastMessage>, bm: BroadcastMessage)
    ensures Confirmations(bms + [bm])
         == if bm.confirmed.Some? then Confirmations(bms) + [bm.confirmed.value] else Confirmations(bms)
  {
    assert (bms + [bm])[..|bms|] == bms;
  }

  /** Before joining the client has no frames; afterwards they hold every confirmation it has read off the channel. */
  ghost predicate FramesInv(s: Server) {
    match s.client
    case Absent => s.frames == []
    case Subscribed(at) => s.frames == [] && at <= |s.channel|
    case Live(at, next, _, _, _) =>
      at <= next <= |s.channel| && Confirmations(s.frames) == Confirmations(s.channel[at..next])
  }

  lemma FramesStep(s: Server, a: Action, requested: U64)
    requires FramesInv(s) && Enabled(s, a)
    ensures FramesInv(Next(s, a, requested))
  {
    match a {
      case Receive => ReceiveFrames(s, requested);
      case SendToAll =>
        if s.client.Live? {
          var at, next := s.client.at, s.client.next;
          assert (s.channel + [s.phase.bm])[at..next] == s.channel[at..next];
        }
      case Snapshot => assert s.channel[s.client.at..s.client.at] == [];
      case Begin(_) =>
      case Append =>
      case Subscribe =>
    }
  }

  lemma ReceiveFrames(s: Server, requested: U64)
    requires FramesInv(s) && Enabled(s, Receive)
    ensures FramesInv(Next(s, Receive, requested))
  {
    FramesGrow(s.frames, s.channel, s.client.at, s.client.next, s.client.lastSent);
  }

  lemma FramesGrow(
    frames: seq<BroadcastMessage>, channel: seq<BroadcastMessage>, at: nat, next: nat, lastSent: Option<U64>)
    requires at <= next < |channel| && Confirmations(frames) == Confirmations(channel[at..next])
    ensures var bm := channel[next];
      Confirmations(if ShouldSend(bm, lastSent) then frames + [bm] else frames) == Confirmations(channel[at..next + 1])
  {
    var bm := channel[next];
    assert channel[at..next + 1] == channel[at..next] + [bm];
    ConfirmationsSnoc(channel[at..next], bm);
    ConfirmationsSnoc(frames, bm);
  }

  /** For every interleaving: every confirmation sent since the client subscribed reaches it, once and in order. */
  lemma {:induction false} ConfirmationsForwarded(actions: seq<Action>, requested: U64, s: Server)
    requires Exec(actions, requested) == Some(s)
    ensures FramesInv(s)
  {
    if actions != [] {
      var init := actions[..|actions| - 1];
      var before := Exec(init, requested).value;
      ConfirmationsForwarded(init, requested, before);
      FramesStep(before, actions[|actions| - 1], requested);
    }
  }
}
