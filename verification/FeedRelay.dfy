/** From the streamer to a client of the feed: the relay broadcasts what the streamer sent, in the same order. */
module FeedRelay {
  import opened Common
  import opened Messages
  import opened Feed
  import opened FeedProtocol
  import StreamerModel
  import StreamerRuns
  import StreamerBroadcast

  /**
   * The relay drains the channel that the streamer writes to and broadcasts what it finds, in any portions; L1
   * confirmations may stand between them. So the messages broadcast are an initial part of those sent.
   */
  ghost predicate Relays(actions: seq<Action>, sent: seq<Entry>) {
    Input(actions) <= FeedOf(sent)
  }

  lemma SentIncreases(cfg: StreamerModel.Config, idx: U64, events: seq<StreamerRuns.Event>)
    ensures Increasing(FeedOf(StreamerRuns.Run(cfg, idx, events).sent))
  {
    StreamerBroadcast.BroadcastSafety(cfg, idx, events);
  }

  lemma RelayedIncreases(actions: seq<Action>, sent: seq<Entry>)
    requires Relays(actions, sent) && Increasing(FeedOf(sent))
    ensures Increasing(Input(actions))
  {
    assert forall i :: 0 <= i < |Input(actions)| ==> Input(actions)[i] == FeedOf(sent)[i];
  }

  /** `ms` is one uninterrupted stretch of `stream`. */
  ghost predicate StretchOf(ms: seq<FeedMessage>, stream: seq<FeedMessage>) {
    exists lo, hi :: 0 <= lo <= hi <= |stream| && ms == stream[lo..hi]
  }

  /**
   * For every run of the streamer and every interleaving of the feed that relays it: what a client has received is one
   * uninterrupted stretch of what the streamer sent, each message once and in increasing order.
   */
  lemma ClientReceivesStretch(
    cfg: StreamerModel.Config, idx: U64, events: seq<StreamerRuns.Event>, actions: seq<Action>, requested: U64, s: Server)
    requires Exec(actions, requested) == Some(s) && s.client.Live?
    requires Relays(actions, StreamerRuns.Run(cfg, idx, events).sent)
    ensures Increasing(s.client.delivered)
    ensures StretchOf(s.client.delivered, FeedOf(StreamerRuns.Run(cfg, idx, events).sent))
  {
    var stream := FeedOf(StreamerRuns.Run(cfg, idx, events).sent);
    SentIncreases(cfg, idx, events);
    RelayedIncreases(actions, StreamerRuns.Run(cfg, idx, events).sent);
    FeedDelivery(actions, requested, s);
    InputIsAppended(actions, requested, s);
    var lo, hi := s.client.joined.lo, Served(Logged(s), s.client);
    assert stream[lo..hi] == s.appended[lo..hi];
  }

  /**
   * Once everything sent has been broadcast and the client has received all broadcasts: it has every number from the
   * requested one up to the streamer's last broadcast position, except those at or below the L1 index that the streamer
   * was told or that the feed had confirmed when the client joined.
   */
  lemma DrainedClientIsUpToDate(
    cfg: StreamerModel.Config, idx: U64, events: seq<StreamerRuns.Event>, actions: seq<Action>, requested: U64, s: Server,
    n: U64)
    requires Exec(actions, requested) == Some(s) && s.client.Live?
    requires s.client.next == |s.channel| && s.phase.Idle?
    requires Input(actions) == FeedOf(StreamerRuns.Run(cfg, idx, events).sent)
    requires var sys := StreamerRuns.Run(cfg, idx, events);
      0 < n <= sys.st.lastBroadcastPosition && sys.observed < n && requested <= n && s.client.joined.confirmed < n
    ensures exists m :: m in s.client.delivered && m.sequenceNumber == n
  {
    var sys := StreamerRuns.Run(cfg, idx, events);
    SentIncreases(cfg, idx, events);
    InputIsAppended(actions, requested, s);
    StreamerBroadcast.BroadcastSafety(cfg, idx, events);
    assert StreamerBroadcast.Sent(sys, n);
    var i :| 0 <= i < |sys.sent| && sys.sent[i].Seq() == n;
    var m := FeedOf(sys.sent)[i];
    assert m in s.appended;
    DrainedClientHasAll(actions, requested, s, m);
  }
}
