/** The feed server: a backlog shared by all clients, and per-client delivery. */
module Feed {
  import opened Common
  import opened Messages

  /** One broadcast; entries of the message list may be null. */
  datatype BroadcastMessage = BroadcastMessage(messages: seq<Option<FeedMessage>>, confirmed: Option<U64>)

  /** The non-null messages. */
  function Flat(messages: seq<Option<FeedMessage>>): seq<FeedMessage> {
    if messages == [] then []
    else
      var init, last := Flat(messages[..|messages| - 1]), messages[|messages| - 1];
      if last.Some? then init + [last.value] else init
  }

  predicate Increasing(ms: seq<FeedMessage>) {
    forall i, j :: 0 <= i < j < |ms| ==> ms[i].sequenceNumber < ms[j].sequenceNumber
  }

  // ---- backlog ----

  /** Appends one message unless it is at or below the tail. */
  function Push(backlog: seq<FeedMessage>, m: FeedMessage): seq<FeedMessage> {
    if backlog != [] && m.sequenceNumber <= backlog[|backlog| - 1].sequenceNumber then backlog else backlog + [m]
  }

  function Appended(backlog: seq<FeedMessage>, ms: seq<FeedMessage>): seq<FeedMessage> {
    if ms == [] then backlog else Push(Appended(backlog, ms[..|ms| - 1]), ms[|ms| - 1])
  }

  lemma AppendedSnoc(backlog: seq<FeedMessage>, ms: seq<FeedMessage>, m: FeedMessage)
    ensures Appended(backlog, ms + [m]) == Push(Appended(backlog, ms), m)
  {
    assert (ms + [m])[..|ms|] == ms;
  }

  function After(backlog: seq<FeedMessage>, confirmed: U64): seq<FeedMessage> {
    if backlog == [] then []
    else
      var init, last := After(backlog[..|backlog| - 1], confirmed), backlog[|backlog| - 1];
      if last.sequenceNumber > confirmed then init + [last] else init
  }

  function Since(backlog: seq<FeedMessage>, from: U64): seq<FeedMessage> {
    if backlog == [] then []
    else
      var init, last := Since(backlog[..|backlog| - 1], from), backlog[|backlog| - 1];
      if last.sequenceNumber >= from then init + [last] else init
  }

  /**
   * `r` is a sorted backlog that keeps what was there; what is added is out of these messages, and none of them is
   * above the new tail.
   */
  ghost predicate Extends(backlog: seq<FeedMessage>, ms: seq<FeedMessage>, r: seq<FeedMessage>) {
    && Increasing(r) && backlog <= r
    && (forall i :: |backlog| <= i < |r| ==> r[i] in ms)
    && (forall m :: m in ms ==> r != [] && m.sequenceNumber <= r[|r| - 1].sequenceNumber)
  }

  lemma PushExtends(backlog: seq<FeedMessage>, ms: seq<FeedMessage>, r: seq<FeedMessage>, m: FeedMessage)
    requires Extends(backlog, ms, r)
    ensures Extends(backlog, ms + [m], Push(r, m))
  {
    assert m in ms + [m];
    if Push(r, m) != r {
      assert forall i :: 0 <= i < |r| - 1 ==> r[i].sequenceNumber < r[|r| - 1].sequenceNumber;
    }
  }

  /** Whatever is appended to a sorted backlog. */
  lemma {:induction false} AppendedExtends(backlog: seq<FeedMessage>, ms: seq<FeedMessage>)
    requires Increasing(backlog)
    ensures Extends(backlog, ms, Appended(backlog, ms))
  {
    if ms != [] {
      var init, m := ms[..|ms| - 1], ms[|ms| - 1];
      AppendedExtends(backlog, init);
      PushExtends(backlog, init, Appended(backlog, init), m);
      assert ms == init + [m];
    }
  }

  /** A confirmation keeps exactly the messages above it. */
  lemma {:induction false} AfterMember(backlog: seq<FeedMessage>, confirmed: U64, m: FeedMessage)
    ensures m in After(backlog, confirmed) <==> m in backlog && m.sequenceNumber > confirmed
  {
    if backlog != [] {
      var n := |backlog| - 1;
      AfterMember(backlog[..n], confirmed, m);
      assert backlog == backlog[..n] + [backlog[n]];
    }
  }

  /** A snapshot holds exactly the messages from the requested number on. */
  lemma {:induction false} SinceMember(backlog: seq<FeedMessage>, from: U64, m: FeedMessage)
    ensures m in Since(backlog, from) <==> m in backlog && m.sequenceNumber >= from
  {
    if backlog != [] {
      var n := |backlog| - 1;
      SinceMember(backlog[..n], from, m);
      assert backlog == backlog[..n] + [backlog[n]];
    }
  }

  class Backlog {
    var messages: seq<FeedMessage>

    constructor ()
      ensures messages == []
    {
      messages := [];
    }

    /** Appends messages, skipping those at or below the tail. */
    method Append(bm: BroadcastMessage)
      modifies this
      ensures messages == Appended(old(messages), Flat(bm.messages))
    {
      for i := 0 to |bm.messages|
        invariant messages == Appended(old(messages), Flat(bm.messages[..i]))
      {
        assert bm.messages[..i + 1][..i] == bm.messages[..i];
        if bm.messages[i].Some? {
          var m := bm.messages[i].value;
          AppendedSnoc(old(messages), Flat(bm.messages[..i]), m);
          if |messages| > 0 && m.sequenceNumber <= messages[|messages| - 1].sequenceNumber {
            continue;
          }
          messages := messages + [m];
        }
      }
      assert bm.messages[..|bm.messages|] == bm.messages;
    }

    method Confirm(confirmed: U64)
      modifies this
      ensures messages == After(old(messages), confirmed)
    {
      var kept: seq<FeedMessage> := [];
      for i := 0 to |messages|
        invariant messages == old(messages)
        invariant kept == After(messages[..i], confirmed)
      {
        assert messages[..i + 1][..i] == messages[..i];
        if messages[i].sequenceNumber > confirmed {
          kept := kept + [messages[i]];
        }
      }
      assert messages[..|messages|] == messages;
      messages := kept;
    }

    method GetSince(from: U64) returns (r: seq<FeedMessage>)
      ensures r == Since(messages, from)
    {
      r := [];
      for i := 0 to |messages|
        invariant r == Since(messages[..i], from)
      {
        assert messages[..i + 1][..i] == messages[..i];
        if messages[i].sequenceNumber >= from {
          r := r + [messages[i]];
        }
      }
      assert messages[..|messages|] == messages;
    }
  }

  // ---- per-client delivery ----

  predicate ShouldSend(bm: BroadcastMessage, lastSent: Option<U64>) {
    bm.confirmed.Some? ||
    match lastSent
    case None => bm.messages != []
    case Some(last) => exists m :: m in bm.messages && m.Some? && m.value.sequenceNumber > last
  }

  function LastSent(messages: seq<Option<FeedMessage>>, lastSent: Option<U64>): Option<U64> {
    if messages == [] then lastSent
    else
      var before, m := LastSent(messages[..|messages| - 1], lastSent), messages[|messages| - 1];
      var current := if before.Some? then before.value else 0;
      if m.Some? && m.value.sequenceNumber >= current then Some(m.value.sequenceNumber) else before
  }

  method UpdateLastSent(bm: BroadcastMessage, lastSent: Option<U64>) returns (r: Option<U64>)
    ensures r == LastSent(bm.messages, lastSent)
  {
    r := lastSent;
    for i := 0 to |bm.messages|
      invariant r == LastSent(bm.messages[..i], lastSent)
    {
      assert bm.messages[..i + 1][..i] == bm.messages[..i];
      if bm.messages[i].Some? {
        var msg := bm.messages[i].value;
        var current := if r.Some? then r.value else 0;
        if msg.sequenceNumber >= current {
          r := Some(msg.sequenceNumber);
        }
      }
    }
    assert bm.messages[..|bm.messages|] == bm.messages;
  }

  // ---- server and client session ----

  function Confirmed(backlog: seq<FeedMessage>, bm: BroadcastMessage): seq<FeedMessage> {
    if bm.confirmed.Some? then After(backlog, bm.confirmed.value) else backlog
  }

  class FeedServer {
    const backlog: Backlog
    var channel: seq<BroadcastMessage>

    constructor ()
      ensures fresh(backlog) && backlog.messages == [] && channel == []
    {
      backlog := new Backlog();
      channel := [];
    }

    /** Confirms, then appends, then sends. */
    method Broadcast(bm: BroadcastMessage)
      modifies this, backlog
      ensures backlog.messages == Appended(Confirmed(old(backlog.messages), bm), Flat(bm.messages))
      ensures channel == old(channel) + [bm]
    {
      if bm.confirmed.Some? {
        backlog.Confirm(bm.confirmed.value);
      }
      backlog.Append(bm);
      channel := channel + [bm];
    }
  }

  class ClientSession {
    var lastSent: Option<U64>
    var sent: seq<FeedMessage>
    var frames: seq<BroadcastMessage>

    /** Opens with what the backlog holds from the requested number on. */
    constructor (backlog: Backlog, requested: U64)
      ensures sent == Since(backlog.messages, requested)
      ensures lastSent == (if sent == [] then None else Some(sent[|sent| - 1].sequenceNumber))
      ensures frames == []
    {
      var snapshot := backlog.GetSince(requested);
      sent, frames := snapshot, [];
      lastSent := if snapshot == [] then None else Some(snapshot[|snapshot| - 1].sequenceNumber);
    }

    method Forward(bm: BroadcastMessage)
      modifies this
      ensures ShouldSend(bm, old(lastSent)) ==>
                && sent == old(sent) + Flat(bm.messages) && lastSent == LastSent(bm.messages, old(lastSent))
                && frames == old(frames) + [bm]
      ensures !ShouldSend(bm, old(lastSent)) ==> sent == old(sent) && lastSent == old(lastSent) && frames == old(frames)
    {
      if ShouldSend(bm, lastSent) {
        sent, frames := sent + Flat(bm.messages), frames + [bm];
        var last := UpdateLastSent(bm, lastSent);
        lastSent := last;
      }
    }
  }
}
