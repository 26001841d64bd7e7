/** From the submitter to what a streamer knows. */
module FeedToStreamer {
  import opened Common
  import opened Messages
  import opened HotShot
  import StreamerModel
  import StreamerKnown
  import StreamerRuns
  import StreamerChain
  import Restart
  import Submitter
  import Payload
  import FeedSubmission
  import opened FeedOnChain

  /**
   * A streamer that has read the blocks in which the submitter's transactions stand, whatever else is in them, knows
   * the number of every message sent that is at or above its start and above the finalized index, at the lowest of the
   * blocks it read that carries the number.
   */
  lemma FeedIsKnown(
    maxInFlight: nat, maxPolls: nat, c: Payload.Codec, legacy: Legacy, actions: seq<Submitter.Action<FeedMessage>>,
    cfg: StreamerModel.Config, idx: U64, chain: seq<Block>, events: seq<StreamerRuns.Event>, start: nat, end: nat, m: FeedMessage)
    requires start <= end <= |chain| && Restart.InOrder(chain, events, start, end) && cfg.parse == Parser(c, legacy)
    requires var s := Submitter.Run(Submitter.Config(maxInFlight, maxPolls, FeedSubmission.Pack(c)), actions);
      s.phase.Stopped? && FeedSubmission.Deliverable(c, s.sent) && Includes(chain[start..end], s.started) && m in s.sent
    requires cfg.startingPos <= m.sequenceNumber
    requires StreamerRuns.Run(cfg, idx, events).st.finalizedIdx < m.sequenceNumber
    ensures var known := StreamerKnown.Known(StreamerRuns.Run(cfg, idx, events).st);
      && m.sequenceNumber in known
      && Restart.Lowest(cfg, chain, m.sequenceNumber, start, end, known[m.sequenceNumber])
  {
    FeedReachesStreamer(maxInFlight, maxPolls, c, legacy, actions, chain[start..end], start, m);
    var e :| e in Entries(cfg.parse, chain[start..end], start) && e.feedMessage == m;
    StreamerChain.RangeInChain(cfg, chain, start, end, e);
    ReadIsKnown(cfg, idx, chain, events, start, end, e);
  }

  lemma ReadIsKnown(
    cfg: StreamerModel.Config, idx: U64, chain: seq<Block>, events: seq<StreamerRuns.Event>, start: nat, end: nat, e: Entry)
    requires start <= end <= |chain| && Restart.InOrder(chain, events, start, end)
    requires StreamerChain.InChain(cfg, chain, e) && start <= e.hotshotHeight < end && cfg.startingPos <= e.Seq()
    requires StreamerRuns.Run(cfg, idx, events).st.finalizedIdx < e.Seq()
    ensures var known := StreamerKnown.Known(StreamerRuns.Run(cfg, idx, events).st);
      e.Seq() in known && Restart.Lowest(cfg, chain, e.Seq(), start, end, known[e.Seq()])
  {
    var bound: nat := e.Seq() as nat - 1;
    var known, seen := StreamerKnown.Known(StreamerRuns.Run(cfg, idx, events).st), Restart.FirstSeen(cfg, chain, start, end);
    Restart.KnowsWhatItRead(cfg, idx, chain, events, start, end, bound);
    Restart.FirstSeenIsLowest(cfg, chain, start, end);
    assert StreamerChain.Witnessed(cfg, chain, e.Seq(), e.hotshotHeight);
    assert e.Seq() in StreamerKnown.Above(seen, bound);
    assert e.Seq() in StreamerKnown.Above(known, bound);
  }
}
