/** The loop that turns queued messages into transactions, and the tasks that see each transaction finalized. */
module Submitter {
  import opened Common

  /** A spawned task: about to submit, or polling after `attempts` polls without a result. */
  datatype Task = Submitting | Polling(attempts: nat)

  /** Where the loop stands: at its top, emptying the channel, waiting for a permit, or returned. */
  datatype Phase = Top | Draining | Holding | Stopped

  datatype Config<!M, !T> = Config(maxInFlight: nat, maxPolls: nat, build: seq<M> -> seq<T>)

  datatype State<M, T> = State(
    sent: seq<M>,
    channel: seq<M>,
    closed: bool,
    phase: Phase,
    pending: seq<M>,
    batches: seq<seq<M>>,
    queue: seq<T>,
    held: seq<T>,
    permits: nat,
    started: seq<T>,
    tasks: map<nat, Task>,
    submitted: set<nat>,
    finalized: set<nat>)

  function Init<M, T>(cfg: Config<M, T>): State<M, T> {
    State([], [], false, Top, [], [], [], [], cfg.maxInFlight, [], map[], {}, {})
  }

  // ---- the loop ----

  /** The channel is found empty: build transactions from what was received, and take the first one off the queue. */
  function Build<M, T>(cfg: Config<M, T>, s: State<M, T>): State<M, T> {
    var queue := if s.pending == [] then s.queue else s.queue + cfg.build(s.pending);
    var batches := if s.pending == [] then s.batches else s.batches + [s.pending];
    if queue == [] then s.(phase := Top, pending := [], batches := batches, queue := [])
    else s.(phase := Holding, pending := [], batches := batches, queue := queue[1..], held := [queue[0]])
  }

  /** A permit is free: the held transaction gets a task of its own. */
  function Start<M, T>(s: State<M, T>): State<M, T>
    requires s.permits > 0
  {
    s.(phase := Top, held := [], permits := s.permits - 1,
       started := s.started + s.held, tasks := s.tasks[|s.started| := Submitting])
  }

  function Receive<M, T>(s: State<M, T>): State<M, T>
    requires s.channel != []
  {
    s.(phase := Draining, pending := s.pending + [s.channel[0]], channel := s.channel[1..])
  }

  /** One step of the loop; a step that has to wait changes nothing. */
  function Advance<M, T>(cfg: Config<M, T>, s: State<M, T>): State<M, T> {
    match s.phase
    case Top =>
      if s.queue != [] then s.(phase := Draining)
      else if s.channel != [] then Receive(s)
      else if s.closed then s.(phase := Stopped)
      else s
    case Draining => if s.channel != [] then Receive(s) else Build(cfg, s)
    case Holding => if s.permits > 0 then Start(s) else s
    case Stopped => s
  }

  // ---- the tasks ----

  /** Task `id` submits; a failure is retried. */
  function Submit<M, T>(s: State<M, T>, id: nat, ok: bool): State<M, T> {
    if id in s.tasks && s.tasks[id] == Submitting && ok
    then s.(tasks := s.tasks[id := Polling(0)], submitted := s.submitted + {id})
    else s
  }

  /** Task `id` polls; after enough polls without a result it submits again. */
  function Poll<M, T>(cfg: Config<M, T>, s: State<M, T>, id: nat, found: bool): State<M, T> {
    if id !in s.tasks || s.tasks[id] == Submitting then s
    else if found then s.(tasks := s.tasks - {id}, finalized := s.finalized + {id}, permits := s.permits + 1)
    else
      var attempts := s.tasks[id].attempts + 1;
      s.(tasks := s.tasks[id := if attempts >= cfg.maxPolls then Submitting else Polling(attempts)])
  }

  // ---- runs ----

  datatype Action<M> = Send(m: M) | Close | Loop | Submits(id: nat, ok: bool) | Polls(id: nat, found: bool)

  function Next<M, T>(cfg: Config<M, T>, s: State<M, T>, a: Action<M>): State<M, T> {
    match a
    case Send(m) => if s.closed then s else s.(sent := s.sent + [m], channel := s.channel + [m])
    case Close => s.(closed := true)
    case Loop => Advance(cfg, s)
    case Submits(id, ok) => Submit(s, id, ok)
    case Polls(id, found) => Poll(cfg, s, id, found)
  }

  function Run<M, T>(cfg: Config<M, T>, actions: seq<Action<M>>): State<M, T> {
    if actions == [] then Init(cfg) else Next(cfg, Run(cfg, actions[..|actions| - 1]), actions[|actions| - 1])
  }

  // ---- invariants ----

  function Built<M, T>(build: seq<M> -> seq<T>, batches: seq<seq<M>>): seq<T> {
    if batches == [] then [] else Built(build, batches[..|batches| - 1]) + build(batches[|batches| - 1])
  }

  /** Messages: everything sent was put into a batch, or is pending, or is still in the channel, in this order. */
  ghost predicate MessagesKept<M, T>(s: State<M, T>) {
    && s.sent == Flatten(s.batches) + s.pending + s.channel
    && (s.phase != Draining ==> s.pending == [])
    && (s.phase == Stopped ==> s.channel == [] && s.queue == [] && s.closed)
  }

  /** Transactions: everything built has started, or is held, or is queued, in this order. */
  ghost predicate TransactionsKept<M, T>(cfg: Config<M, T>, s: State<M, T>) {
    && Built(cfg.build, s.batches) == s.started + s.held + s.queue
    && |s.held| == (if s.phase == Holding then 1 else 0)
  }

  /** Tasks: each started transaction is in flight or finalized, never both, and holds a permit while in flight. */
  ghost predicate TasksKept<M, T>(cfg: Config<M, T>, s: State<M, T>) {
    && s.permits + |s.tasks| == cfg.maxInFlight
    && s.tasks.Keys !! s.finalized
    && (forall id: nat :: id in s.tasks.Keys || id in s.finalized <==> id < |s.started|)
    && (forall id: nat :: id in s.finalized || (id in s.tasks && s.tasks[id].Polling?) ==> id in s.submitted)
    && (forall id: nat :: id in s.tasks && s.tasks[id].Polling? ==> s.tasks[id].attempts < Max(1, cfg.maxPolls))
  }

  lemma BuiltSnoc<M, T>(build: seq<M> -> seq<T>, batches: seq<seq<M>>, last: seq<M>)
    ensures Built(build, batches + [last]) == Built(build, batches) + build(last)
  {
    assert (batches + [last])[..|batches|] == batches;
  }

  lemma SendKeepsMessages<M, T>(s: State<M, T>, m: M)
    requires MessagesKept(s) && !s.closed
    ensures MessagesKept(s.(sent := s.sent + [m], channel := s.channel + [m]))
  {
    var front := Flatten(s.batches) + s.pending;
    assert front + s.channel + [m] == front + (s.channel + [m]);
  }

  lemma ReceiveKeepsMessages<M, T>(s: State<M, T>)
    requires MessagesKept(s) && s.channel != [] && (s.phase == Top || s.phase == Draining)
    ensures MessagesKept(Receive(s))
  {
    var front, first, rest := Flatten(s.batches) + s.pending, [s.channel[0]], s.channel[1..];
    assert front + (first + rest) == front + first + rest;
    assert first + rest == s.channel;
  }

  lemma BuildKeepsMessages<M, T>(cfg: Config<M, T>, s: State<M, T>)
    requires MessagesKept(s) && s.phase == Draining && s.channel == []
    ensures MessagesKept(Build(cfg, s))
  {
    var t := Build(cfg, s);
    FlattenSnoc(s.batches, s.pending);
    assert Flatten(t.batches) == Flatten(s.batches) + s.pending;
    assert s.sent == Flatten(t.batches) + [] + [];
  }

  lemma LoopKeepsMessages<M, T>(cfg: Config<M, T>, s: State<M, T>)
    requires MessagesKept(s)
    ensures MessagesKept(Advance(cfg, s))
  {
    if s.channel != [] && (s.phase == Top || s.phase == Draining) {
      ReceiveKeepsMessages(s);
    } else if s.phase == Draining {
      BuildKeepsMessages(cfg, s);
    }
  }

  lemma LoopKeepsTransactions<M, T>(cfg: Config<M, T>, s: State<M, T>)
    requires TransactionsKept(cfg, s)
    ensures TransactionsKept(cfg, Advance(cfg, s))
  {
    if s.phase == Draining && s.channel == [] {
      BuildKeepsTransactions(cfg, s);
    } else if s.phase == Holding && s.permits > 0 {
      assert s.started + s.held + s.queue == s.started + s.held + [] + s.queue;
    }
  }

  lemma BuildKeepsTransactions<M, T>(cfg: Config<M, T>, s: State<M, T>)
    requires TransactionsKept(cfg, s) && s.phase == Draining
    ensures TransactionsKept(cfg, Build(cfg, s))
  {
    BuiltSnoc(cfg.build, s.batches, s.pending);
    var queue := if s.pending == [] then s.queue else s.queue + cfg.build(s.pending);
    assert s.held == [];
    assert s.started + s.held + s.queue == s.started + s.queue;
    assert s.started + (s.queue + cfg.build(s.pending)) == s.started + s.queue + cfg.build(s.pending);
    TakeFirst(s.started, queue);
  }

  lemma TakeFirst<T>(started: seq<T>, queue: seq<T>)
    ensures started + [] + [] == started
    ensures queue != [] ==> started + [queue[0]] + queue[1..] == started + queue
  {
  }

  lemma StartKeepsTasks<M, T>(cfg: Config<M, T>, s: State<M, T>)
    requires TasksKept(cfg, s) && s.permits > 0 && |s.held| == 1
    ensures TasksKept(cfg, Start(s))
  {
    var id := |s.started|;
    assert id !in s.tasks;
    assert Start(s).tasks.Keys == s.tasks.Keys + {id};
  }

  lemma LoopKeepsTasks<M, T>(cfg: Config<M, T>, s: State<M, T>)
    requires TransactionsKept(cfg, s) && TasksKept(cfg, s)
    ensures TasksKept(cfg, Advance(cfg, s))
  {
    if s.phase == Holding && s.permits > 0 {
      StartKeepsTasks(cfg, s);
    }
  }

  lemma SubmitKeepsTasks<M, T>(cfg: Config<M, T>, s: State<M, T>, id: nat, ok: bool)
    requires TasksKept(cfg, s)
    ensures TasksKept(cfg, Submit(s, id, ok))
  {
    if id in s.tasks {
      assert s.tasks[id := Polling(0)].Keys == s.tasks.Keys;
    }
  }

  lemma PollKeepsTasks<M, T>(cfg: Config<M, T>, s: State<M, T>, id: nat, found: bool)
    requires TasksKept(cfg, s)
    ensures TasksKept(cfg, Poll(cfg, s, id, found))
  {
    if id in s.tasks && s.tasks[id].Polling? {
      var t := Poll(cfg, s, id, found);
      if found {
        assert t.tasks.Keys == s.tasks.Keys - {id};
        assert s.tasks == t.tasks[id := s.tasks[id]];
      } else {
        assert t.tasks.Keys == s.tasks.Keys;
      }
    }
  }

  ghost predicate Inv<M, T>(cfg: Config<M, T>, s: State<M, T>) {
    MessagesKept(s) && TransactionsKept(cfg, s) && TasksKept(cfg, s)
  }

  lemma NextKeeps<M, T>(cfg: Config<M, T>, s: State<M, T>, a: Action<M>)
    requires Inv(cfg, s)
    ensures Inv(cfg, Next(cfg, s, a))
  {
    match a
    case Send(m) =>
      if !s.closed {
        SendKeepsMessages(s, m);
      }
    case Close =>
    case Loop =>
      LoopKeepsMessages(cfg, s);
      LoopKeepsTransactions(cfg, s);
      LoopKeepsTasks(cfg, s);
    case Submits(id, ok) => SubmitKeepsTasks(cfg, s, id, ok);
    case Polls(id, found) => PollKeepsTasks(cfg, s, id, found);
  }

  lemma {:induction false} RunKeeps<M, T>(cfg: Config<M, T>, actions: seq<Action<M>>)
    ensures Inv(cfg, Run(cfg, actions))
  {
    if actions != [] {
      RunKeeps(cfg, actions[..|actions| - 1]);
      NextKeeps(cfg, Run(cfg, actions[..|actions| - 1]), actions[|actions| - 1]);
    }
  }

  // ---- conservation ----

  /** The messages carried by a list of transactions. */
  function Carried<M, T>(carried: T -> seq<M>, txs: seq<T>): seq<M> {
    if txs == [] then [] else Carried(carried, txs[..|txs| - 1]) + carried(txs[|txs| - 1])
  }

  lemma {:induction false} CarriedConcat<M, T>(carried: T -> seq<M>, a: seq<T>, b: seq<T>)
    ensures Carried(carried, a + b) == Carried(carried, a) + Carried(carried, b)
  {
    if b == [] {
      assert a + b == a;
    } else {
      var init, last := b[..|b| - 1], b[|b| - 1];
      CarriedConcat(carried, a, init);
      assert (a + b)[..|a + b| - 1] == a + init;
      Regroup(Carried(carried, a), Carried(carried, init), carried(last));
    }
  }

  /** The transactions built from any stretch of `sent` carry exactly that stretch. */
  ghost predicate Places<M, T>(build: seq<M> -> seq<T>, carried: T -> seq<M>, sent: seq<M>) {
    forall i, j :: 0 <= i <= j <= |sent| ==> Carried(carried, build(sent[i..j])) == sent[i..j]
  }

  lemma {:induction false} BuiltCarries<M, T>(build: seq<M> -> seq<T>, carried: T -> seq<M>, batches: seq<seq<M>>, sent: seq<M>)
    requires Places(build, carried, sent) && Flatten(batches) <= sent
    ensures Carried(carried, Built(build, batches)) == Flatten(batches)
  {
    if batches != [] {
      var init, last := batches[..|batches| - 1], batches[|batches| - 1];
      var i := |Flatten(init)|;
      assert Flatten(init) == Flatten(batches)[..i];
      BuiltCarries(build, carried, init, sent);
      assert last == sent[i..i + |last|];
      CarriedConcat(carried, Built(build, init), build(last));
    }
  }

  /**
   * In every run, if the constructor places every message: what was sent is carried, in order and once, by the started,
   * held and queued transactions, followed by what is still pending and in the channel.
   */
  lemma MessagesConserved<M, T>(cfg: Config<M, T>, carried: T -> seq<M>, actions: seq<Action<M>>)
    requires Places(cfg.build, carried, Run(cfg, actions).sent)
    ensures var s := Run(cfg, actions);
            s.sent == Carried(carried, s.started) + Carried(carried, s.held) + Carried(carried, s.queue) + s.pending + s.channel
  {
    var s := Run(cfg, actions);
    RunKeeps(cfg, actions);
    BuiltCarries(cfg.build, carried, s.batches, s.sent);
    CarriedConcat(carried, s.started + s.held, s.queue);
    CarriedConcat(carried, s.started, s.held);
  }

  /** When the loop has returned, everything sent is carried by transactions with a task, finalized or in flight. */
  lemma StoppedHasAll<M, T>(cfg: Config<M, T>, carried: T -> seq<M>, actions: seq<Action<M>>)
    requires Run(cfg, actions).phase == Stopped && Places(cfg.build, carried, Run(cfg, actions).sent)
    ensures Carried(carried, Run(cfg, actions).started) == Run(cfg, actions).sent
  {
    RunKeeps(cfg, actions);
    MessagesConserved(cfg, carried, actions);
  }

  lemma StartedAreBuilt<M, T>(cfg: Config<M, T>, actions: seq<Action<M>>)
    ensures Run(cfg, actions).started <= Built(cfg.build, Run(cfg, actions).batches)
  {
    RunKeeps(cfg, actions);
  }

  lemma NextGrows<M, T>(cfg: Config<M, T>, s: State<M, T>, a: Action<M>)
    ensures s.started <= Next(cfg, s, a).started && s.finalized <= Next(cfg, s, a).finalized
  {
  }

  /** Transactions start in the order they were built, and a started one is in flight or finalized for good. */
  lemma {:induction false} StartsInOrder<M, T>(cfg: Config<M, T>, actions: seq<Action<M>>, n: nat)
    requires n <= |actions|
    ensures Run(cfg, actions[..n]).started <= Run(cfg, actions).started <= Built(cfg.build, Run(cfg, actions).batches)
    ensures Run(cfg, actions[..n]).finalized <= Run(cfg, actions).finalized
    decreases |actions| - n
  {
    StartedAreBuilt(cfg, actions);
    if n == |actions| {
      assert actions[..n] == actions;
    } else {
      var init := actions[..|actions| - 1];
      StartsInOrder(cfg, init, n);
      assert init[..n] == actions[..n];
      NextGrows(cfg, Run(cfg, init), actions[|actions| - 1]);
    }
  }

  // ---- one pass of the loop, as the object performs it ----

  class MessageLoop<M, T> {
    var unsubmittedMsgs: seq<M>
    var unsubmittedTxs: seq<T>

    constructor (channel: seq<M>)
      ensures unsubmittedMsgs == channel && unsubmittedTxs == []
    {
      unsubmittedMsgs, unsubmittedTxs := channel, [];
    }

    /** From the top of the loop, when it need not wait for a message, to the transaction that will wait for a permit. */
    method Gather(build: seq<M> -> seq<T>) returns (tx: Option<T>)
      requires unsubmittedTxs != [] || unsubmittedMsgs != []
      modifies this
      ensures unsubmittedMsgs == []
      ensures var built := if old(unsubmittedMsgs) == [] then [] else build(old(unsubmittedMsgs));
              old(unsubmittedTxs) + built == (if tx.Some? then [tx.value] else []) + unsubmittedTxs
      ensures tx.None? ==> unsubmittedTxs == []
    {
      var pending := [];
      if unsubmittedTxs == [] {
        pending := pending + [unsubmittedMsgs[0]];
        unsubmittedMsgs := unsubmittedMsgs[1..];
      }
      while unsubmittedMsgs != []
        invariant pending + unsubmittedMsgs == old(unsubmittedMsgs)
        invariant unsubmittedTxs == old(unsubmittedTxs)
        decreases |unsubmittedMsgs|
      {
        pending := pending + [unsubmittedMsgs[0]];
        unsubmittedMsgs := unsubmittedMsgs[1..];
      }
      assert pending == old(unsubmittedMsgs);
      if pending != [] {
        unsubmittedTxs := unsubmittedTxs + build(pending);
      }
      if unsubmittedTxs == [] {
        return None;
      }
      ghost var all := unsubmittedTxs;
      assert all == old(unsubmittedTxs) + (if old(unsubmittedMsgs) == [] then [] else build(old(unsubmittedMsgs)));
      tx := Some(unsubmittedTxs[0]);
      unsubmittedTxs := unsubmittedTxs[1..];
      assert [tx.value] + unsubmittedTxs == all;
    }
  }

  /** `n` steps of the loop with nothing else happening in between. */
  function Loops<M, T>(cfg: Config<M, T>, s: State<M, T>, n: nat): State<M, T>
    decreases n
  {
    if n == 0 then s else Loops(cfg, Advance(cfg, s), n - 1)
  }

  lemma {:induction false} DrainedBuild<M, T>(cfg: Config<M, T>, s: State<M, T>)
    requires s.phase == Draining
    ensures Loops(cfg, s, |s.channel| + 1) == Build(cfg, s.(pending := s.pending + s.channel, channel := []))
    decreases |s.channel|
  {
    if s.channel == [] {
      assert s.pending + s.channel == s.pending;
      assert Loops(cfg, Advance(cfg, s), 0) == Advance(cfg, s);
    } else {
      var t := Receive(s);
      DrainedBuild(cfg, t);
      assert t.pending + t.channel == s.pending + s.channel;
    }
  }

  lemma BuildTakes<M, T>(cfg: Config<M, T>, s: State<M, T>)
    requires s.held == []
    ensures s.queue + (if s.pending == [] then [] else cfg.build(s.pending)) == Build(cfg, s).held + Build(cfg, s).queue
    ensures Build(cfg, s).held == [] ==> Build(cfg, s).queue == []
  {
    if s.pending == [] {
      assert s.queue + [] == s.queue;
    }
  }

  /** The steps of the state machine and the pass of the object take the same messages and give the same transactions. */
  lemma PassIsGather<M, T>(cfg: Config<M, T>, s: State<M, T>) returns (n: nat)
    requires MessagesKept(s) && TransactionsKept(cfg, s) && s.phase == Top && (s.queue != [] || s.channel != [])
    ensures var t := Loops(cfg, s, n);
            && t.channel == [] && t.pending == []
            && s.queue + (if s.channel == [] then [] else cfg.build(s.channel)) == t.held + t.queue
            && (t.held == [] ==> t.queue == [])
  {
    var t := Advance(cfg, s);
    assert t.pending + t.channel == s.channel;
    DrainedBuild(cfg, t);
    n := |t.channel| + 2;
    BuildTakes(cfg, t.(pending := t.pending + t.channel, channel := []));
  }

  // ---- giving up on a submission ----

  /** Task `id` polls `n` times without a result. */
  function FailedPolls<M, T>(cfg: Config<M, T>, s: State<M, T>, id: nat, n: nat): State<M, T> {
    if n == 0 then s else Poll(cfg, FailedPolls(cfg, s, id, n - 1), id, false)
  }

  /** After a submission exactly `maxPolls` polls without a result, but at least one, lead to the next one. */
  lemma {:induction false} PollsExhaust<M, T>(cfg: Config<M, T>, s: State<M, T>, id: nat, n: nat)
    requires id in s.tasks && s.tasks[id] == Polling(0) && n <= Max(1, cfg.maxPolls)
    ensures FailedPolls(cfg, s, id, n)
         == s.(tasks := s.tasks[id := if n < Max(1, cfg.maxPolls) then Polling(n) else Submitting])
  {
    if n > 0 {
      PollsExhaust(cfg, s, id, n - 1);
    } else {
      assert s.tasks[id := Polling(0)] == s.tasks;
    }
  }

  /** Whatever is done meanwhile by the loop and by other tasks, this task counts only its own polls. */
  lemma OthersLeaveTask<M, T>(cfg: Config<M, T>, s: State<M, T>, a: Action<M>, id: nat)
    requires TasksKept(cfg, s) && id in s.tasks
    requires !(a.Submits? && a.id == id) && !(a.Polls? && a.id == id)
    ensures id in Next(cfg, s, a).tasks && Next(cfg, s, a).tasks[id] == s.tasks[id]
  {
    assert id < |s.started|;
  }
}
