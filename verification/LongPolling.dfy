/** The event queue behind get_updates, as critical sections and as steps of a protocol. */
module LongPolling {
  import opened GoTypes

  type Event = string

  /** What is left after dropping from the front while a bounded queue is too long; 0 means no bound. */
  function Trimmed(queue: seq<Event>, maxSize: nat): seq<Event> {
    if maxSize == 0 || |queue| <= maxSize then queue else queue[|queue| - maxSize..]
  }

  /** How many events a poll takes; a limit that is not positive means all. */
  function BatchSize(queue: seq<Event>, limit: int): nat {
    if limit <= 0 || |queue| < limit then |queue| else limit
  }

  class EventQueue {
    const maxSize: nat
    var queue: seq<Event>

    constructor (maxSize: nat)
      ensures this.maxSize == maxSize && queue == []
    {
      this.maxSize := maxSize;
      queue := [];
    }

    method PushBack(e: Event)
      modifies this
      ensures queue == Trimmed(old(queue) + [e], maxSize)
    {
      queue := queue + [e];
      while maxSize != 0 && |queue| > maxSize
        invariant |queue| <= |old(queue)| + 1
        invariant queue == (old(queue) + [e])[|old(queue)| + 1 - |queue|..]
        invariant |queue| == |old(queue)| + 1 || (maxSize != 0 && |queue| >= maxSize)
      {
        queue := queue[1..];
      }
      ghost var all := old(queue) + [e];
      assert all[|all| - |queue|..] == queue && all[0..] == all;
    }

    /** The worker's section behind the wait; the batch leaves the queue only if the parent receives it. */
    method TakeBatch(requested: int, received: bool) returns (ret: seq<Event>)
      requires queue != []
      modifies this
      ensures ret == old(queue)[..BatchSize(old(queue), requested)]
      ensures queue == if received then old(queue)[|ret|..] else old(queue)
    {
      var limit := requested;
      if limit <= 0 || |queue| < limit {
        limit := |queue|;
      }
      ret := [];
      for i := 0 to limit
        invariant ret == queue[..i] && queue == old(queue)
      {
        ret := ret + [queue[i]];
      }
      if received {
        for i := 0 to limit
          invariant i <= |old(queue)| && queue == old(queue)[i..]
        {
          queue := queue[1..];
        }
      }
    }
  }

  // The protocol. Every critical section is one step.

  /** The request: on its way to the receive, at it, gone, or answered. */
  datatype Parent = Starting | Listening | TimedOut | Replied(batch: seq<Event>)

  /** The goroutine: about to take the lock, waiting for a signal, or done. */
  datatype Worker = Ready | Parked | Finished

  datatype Poll = Poll(parent: Parent, worker: Worker, limit: int, timeout: int)

  datatype Fate = Delivered(poll: nat) | Dropped

  datatype Removal = Removal(event: Event, fate: Fate)

  /** The shared state, and the history of events pushed and removed. */
  datatype State = State(
    maxSize: nat, queue: seq<Event>, polls: map<nat, Poll>,
    pushed: seq<Event>, removed: seq<Removal>)

  datatype Action =
    | Push(event: Event, woken: Option<nat>)
    | Open(poll: nat, limit: int, timeout: int)
    | Listen(poll: nat)
    | Expire(poll: nat)
    | Work(poll: nat)

  function Init(maxSize: nat): State {
    State(maxSize, [], map[], [], [])
  }

  function Removals(events: seq<Event>, fate: Fate): seq<Removal> {
    seq(|events|, i requires 0 <= i < |events| => Removal(events[i], fate))
  }

  predicate Waiting(s: State, p: nat) {
    p in s.polls && s.polls[p].worker == Parked
  }

  predicate Enabled(s: State, a: Action) {
    match a
    case Push(_, woken) =>
      // Signal wakes one of the waiting workers, if there is one
      if woken.Some? then Waiting(s, woken.value) else forall p <- s.polls :: !Waiting(s, p)
    case Open(p, _, _) => p !in s.polls
    case Listen(p) => p in s.polls && s.polls[p].parent == Starting
    case Expire(p) => p in s.polls && s.polls[p].parent == Listening && s.polls[p].timeout != 0
    case Work(p) => p in s.polls && s.polls[p].worker == Ready
  }

  function Step(s: State, a: Action): State
    requires Enabled(s, a)
  {
    match a
    case Push(e, woken) =>
      var queue := s.queue + [e];
      var kept := Trimmed(queue, s.maxSize);
      var polls := if woken.Some? then s.polls[woken.value := s.polls[woken.value].(worker := Ready)] else s.polls;
      s.(queue := kept, polls := polls, pushed := s.pushed + [e],
         removed := s.removed + Removals(queue[..|queue| - |kept|], Dropped))
    case Open(p, limit, timeout) => s.(polls := s.polls[p := Poll(Starting, Ready, limit, timeout)])
    case Listen(p) => s.(polls := s.polls[p := s.polls[p].(parent := Listening)])
    case Expire(p) => s.(polls := s.polls[p := s.polls[p].(parent := TimedOut)])
    case Work(p) =>
      var poll := s.polls[p];
      if s.queue == [] then s.(polls := s.polls[p := poll.(worker := Parked)])
      else
        var n := BatchSize(s.queue, poll.limit);
        if poll.parent == Listening then
          s.(queue := s.queue[n..],
             polls := s.polls[p := poll.(worker := Finished, parent := Replied(s.queue[..n]))],
             removed := s.removed + Removals(s.queue[..n], Delivered(p)))
        else s.(polls := s.polls[p := poll.(worker := Finished)])
  }

  /** The state after a run of actions; None if one of them was not possible. */
  function Run(maxSize: nat, actions: seq<Action>): Option<State> {
    if actions == [] then Some(Init(maxSize))
    else
      match Run(maxSize, actions[..|actions| - 1])
      case None => None
      case Some(s) =>
        if Enabled(s, actions[|actions| - 1]) then Some(Step(s, actions[|actions| - 1])) else None
  }

  function Events(removed: seq<Removal>): seq<Event> {
    seq(|removed|, i requires 0 <= i < |removed| => removed[i].event)
  }

  function DeliveredTo(removed: seq<Removal>, p: nat): seq<Event> {
    if removed == [] then []
    else
      var r := removed[|removed| - 1];
      DeliveredTo(removed[..|removed| - 1], p) + if r.fate == Delivered(p) then [r.event] else []
  }

  /** Nothing is lost, invented or reordered. */
  ghost predicate Conserved(s: State) {
    s.pushed == Events(s.removed) + s.queue
  }

  ghost predicate Bounded(s: State) {
    s.maxSize > 0 ==> |s.queue| <= s.maxSize
  }

  /** A poll got exactly the events removed for it: a nonempty batch within its limit, or none. */
  ghost predicate PollOk(s: State, p: nat) {
    if p in s.polls && s.polls[p].parent.Replied? then
      var poll := s.polls[p];
      && poll.worker == Finished
      && poll.parent.batch == DeliveredTo(s.removed, p) != []
      && (poll.limit > 0 ==> |poll.parent.batch| <= poll.limit)
    else DeliveredTo(s.removed, p) == []
  }

  ghost predicate Inv(s: State) {
    Conserved(s) && Bounded(s) && forall p: nat :: PollOk(s, p)
  }

  lemma {:induction false} DeliveredConcat(a: seq<Removal>, b: seq<Removal>, p: nat)
    ensures DeliveredTo(a + b, p) == DeliveredTo(a, p) + DeliveredTo(b, p)
  {
    if b == [] {
      assert a + b == a;
    } else {
      assert (a + b)[..|a + b| - 1] == a + b[..|b| - 1];
      DeliveredConcat(a, b[..|b| - 1], p);
    }
  }

  lemma {:induction false} DeliveredAll(events: seq<Event>, fate: Fate, p: nat)
    ensures DeliveredTo(Removals(events, fate), p) == if fate == Delivered(p) then events else []
  {
    if events != [] {
      var r, n := Removals(events, fate), |events| - 1;
      assert r[..n] == Removals(events[..n], fate) && r[n] == Removal(events[n], fate);
      DeliveredAll(events[..n], fate, p);
      hide Removals;
      assert DeliveredTo(r, p) == DeliveredTo(r[..n], p) + if fate == Delivered(p) then [events[n]] else [];
      hide DeliveredTo;
      assert events[..n] + [events[n]] == events;
    }
  }

  lemma {:induction false} EventsConcat(a: seq<Removal>, events: seq<Event>, fate: Fate)
    ensures Events(a + Removals(events, fate)) == Events(a) + events
  {
  }

  /** A full queue gives up exactly its oldest event, any other queue gives up nothing. */
  lemma {:induction false} PushDropsOldest(s: State, e: Event, woken: Option<nat>)
    requires Bounded(s) && Enabled(s, Push(e, woken))
    ensures
      var t := Step(s, Push(e, woken));
      if s.maxSize > 0 && |s.queue| == s.maxSize then
        t.queue == s.queue[1..] + [e] && t.removed == s.removed + [Removal(s.queue[0], Dropped)]
      else t.queue == s.queue + [e] && t.removed == s.removed
  {
    var queue := s.queue + [e];
    var t := Step(s, Push(e, woken));
    if s.maxSize > 0 && |s.queue| == s.maxSize {
      assert queue[..|queue| - |t.queue|] == [s.queue[0]];
      assert Removals([s.queue[0]], Dropped) == [Removal(s.queue[0], Dropped)];
    } else {
      assert queue[..|queue| - |t.queue|] == [];
      assert s.removed + Removals([], Dropped) == s.removed;
    }
  }

  lemma {:induction false} StepConserves(s: State, a: Action)
    requires Conserved(s) && Bounded(s) && Enabled(s, a)
    ensures Conserved(Step(s, a)) && Bounded(Step(s, a))
  {
    match a
    case Push(e, woken) =>
      PushDropsOldest(s, e, woken);
      PushConserves(s, e, woken);
    case Work(p) =>
      WorkConserves(s, p);
    case _ =>
  }

  lemma {:induction false} PushConserves(s: State, e: Event, woken: Option<nat>)
    requires Conserved(s) && Bounded(s) && Enabled(s, Push(e, woken))
    ensures Conserved(Step(s, Push(e, woken)))
  {
    var t := Step(s, Push(e, woken));
    PushDropsOldest(s, e, woken);
    assert t.pushed == s.pushed + [e];
    hide Step, Enabled, Removals;
    if s.maxSize > 0 && |s.queue| == s.maxSize {
      EventsConcatOne(s.removed, s.queue[0], Dropped);
      hide Events;
      assert [s.queue[0]] + (s.queue[1..] + [e]) == s.queue + [e];
    }
  }

  lemma {:induction false} EventsConcatOne(a: seq<Removal>, event: Event, fate: Fate)
    ensures Events(a + [Removal(event, fate)]) == Events(a) + [event]
  {
  }

  lemma {:induction false} WorkConserves(s: State, p: nat)
    requires Conserved(s) && Bounded(s) && Enabled(s, Work(p))
    ensures Conserved(Step(s, Work(p))) && Bounded(Step(s, Work(p)))
  {
    var n := BatchSize(s.queue, s.polls[p].limit);
    hide BatchSize;
    EventsConcat(s.removed, s.queue[..n], Delivered(p));
    assert s.queue[..n] + s.queue[n..] == s.queue;
    hide Events, Removals;
    assert Events(s.removed) + s.queue[..n] + s.queue[n..] == Events(s.removed) + (s.queue[..n] + s.queue[n..]);
  }

  lemma {:induction false} PushKeepsPoll(s: State, e: Event, woken: Option<nat>, p: nat)
    requires PollOk(s, p) && Enabled(s, Push(e, woken))
    ensures PollOk(Step(s, Push(e, woken)), p)
  {
    var queue := s.queue + [e];
    var dropped := queue[..|queue| - |Trimmed(queue, s.maxSize)|];
    DeliveredConcat(s.removed, Removals(dropped, Dropped), p);
    DeliveredAll(dropped, Dropped, p);
    hide Trimmed, Removals, DeliveredTo;
    assert DeliveredTo(s.removed, p) + [] == DeliveredTo(s.removed, p);
  }

  lemma {:induction false} WorkKeepsPoll(s: State, q: nat, p: nat)
    requires PollOk(s, p) && Enabled(s, Work(q))
    ensures PollOk(Step(s, Work(q)), p)
  {
    hide DeliveredTo, Removals;
    var poll := s.polls[q];
    var t := Step(s, Work(q));
    if s.queue == [] || poll.parent != Listening {
      assert t.removed == s.removed && t.polls == s.polls[q := t.polls[q]];
      assert t.polls[q].parent == poll.parent && t.polls[q].limit == poll.limit;
    } else {
      var batch := s.queue[..BatchSize(s.queue, poll.limit)];
      assert batch != [] && (poll.limit > 0 ==> |batch| <= poll.limit);
      assert t.removed == s.removed + Removals(batch, Delivered(q));
      assert t.polls == s.polls[q := poll.(worker := Finished, parent := Replied(batch))];
      hide Step, BatchSize;
      DeliveredConcat(s.removed, Removals(batch, Delivered(q)), p);
      DeliveredAll(batch, Delivered(q), p);
      assert [] + batch == batch;
      assert DeliveredTo(s.removed, p) + [] == DeliveredTo(s.removed, p);
    }
  }

  lemma {:induction false} StepKeepsPoll(s: State, a: Action, p: nat)
    requires PollOk(s, p) && Enabled(s, a)
    ensures PollOk(Step(s, a), p)
  {
    hide DeliveredTo, Removals, Trimmed;
    match a
    case Push(e, woken) => PushKeepsPoll(s, e, woken, p);
    case Work(q) => WorkKeepsPoll(s, q, p);
    case _ =>
  }

  /** Whatever the interleaving of pushes, requests, timeouts and workers. */
  lemma {:induction false} EveryRunIsSafe(maxSize: nat, actions: seq<Action>)
    ensures Run(maxSize, actions).Some? ==> Inv(Run(maxSize, actions).value)
  {
    hide Conserved, Bounded, PollOk, Step, Enabled;
    if actions == [] {
      InitIsSafe(maxSize);
    } else {
      var front, a := actions[..|actions| - 1], actions[|actions| - 1];
      EveryRunIsSafe(maxSize, front);
      if Run(maxSize, actions).Some? {
        var s := Run(maxSize, front).value;
        StepConserves(s, a);
        forall p: nat ensures PollOk(Step(s, a), p) {
          StepKeepsPoll(s, a, p);
        }
      }
    }
  }

  lemma {:induction false} InitIsSafe(maxSize: nat)
    ensures Inv(Init(maxSize))
  {
  }

  /** In no run does a request that timed out take anything from the queue. */
  lemma {:induction false} TimedOutTookNothing(maxSize: nat, actions: seq<Action>, p: nat)
    requires Run(maxSize, actions).Some?
    ensures
      var s := Run(maxSize, actions).value;
      p in s.polls && s.polls[p].parent == TimedOut ==>
        forall i :: 0 <= i < |s.removed| ==> s.removed[i].fate != Delivered(p)
  {
    EveryRunIsSafe(maxSize, actions);
    var s := Run(maxSize, actions).value;
    if p in s.polls && s.polls[p].parent == TimedOut {
      assert PollOk(s, p);
      NothingDelivered(s.removed, p);
    }
  }

  lemma {:induction false} NothingDelivered(removed: seq<Removal>, p: nat)
    requires DeliveredTo(removed, p) == []
    ensures forall i :: 0 <= i < |removed| ==> removed[i].fate != Delivered(p)
  {
    if removed != [] {
      NothingDelivered(removed[..|removed| - 1], p);
    }
  }

  /** The worker of p finds events and a listener; the batch is what was asked for, or all there is. */
  predicate Answers(s: State, a: Action, p: nat, batch: seq<Event>) {
    && a == Work(p) && p in s.polls && s.polls[p].parent == Listening && s.queue != []
    && batch == if 0 < s.polls[p].limit < |s.queue| then s.queue[..s.polls[p].limit] else s.queue
  }

  predicate AnswersAt(maxSize: nat, run: seq<Action>, i: nat, p: nat, batch: seq<Event>) {
    i < |run| && Run(maxSize, run[..i]).Some? && Answers(Run(maxSize, run[..i]).value, run[i], p, batch)
  }

  predicate Has(s: State, p: nat, batch: seq<Event>) {
    p in s.polls && s.polls[p].parent == Replied(batch)
  }

  lemma {:induction false} AnswerStep(s: State, a: Action, p: nat, batch: seq<Event>)
    requires PollOk(s, p) && Enabled(s, a)
    ensures Has(Step(s, a), p, batch) <==> Has(s, p, batch) || Answers(s, a, p, batch)
    ensures Answers(s, a, p, batch) ==> Step(s, a).queue == s.queue[|batch|..]
  {
    hide Trimmed, Removals;
    assert s.queue[..|s.queue|] == s.queue;
  }

  /** In every run, a request has got a batch exactly if its worker found it listening and took this from the queue. */
  lemma {:induction false} AnsweredExactly(maxSize: nat, run: seq<Action>, p: nat, batch: seq<Event>)
    requires Run(maxSize, run).Some?
    ensures Has(Run(maxSize, run).value, p, batch) <==> exists i: nat :: AnswersAt(maxSize, run, i, p, batch)
  {
    hide Step, Enabled, Has, Answers, PollOk;
    if run == [] {
      NothingAnswered(maxSize, p, batch);
    } else {
      var n := |run| - 1;
      var front, a := run[..n], run[n];
      AnsweredExactly(maxSize, front, p, batch);
      EveryRunIsSafe(maxSize, front);
      AnswerStep(Run(maxSize, front).value, a, p, batch);
      assert AnswersAt(maxSize, run, n, p, batch) <==> Answers(Run(maxSize, front).value, a, p, batch);
      forall i: nat | i < n ensures AnswersAt(maxSize, run, i, p, batch) <==> AnswersAt(maxSize, front, i, p, batch) {
        assert front[..i] == run[..i];
      }
    }
  }

  lemma {:induction false} NothingAnswered(maxSize: nat, p: nat, batch: seq<Event>)
    ensures !Has(Init(maxSize), p, batch)
  {
  }

  /** A request keeps the limit and the timeout it was opened with, and without timeout it does not time out. */
  lemma {:induction false} PollsAsOpened(maxSize: nat, run: seq<Action>, p: nat)
    requires Run(maxSize, run).Some? && p in Run(maxSize, run).value.polls
    ensures
      var poll := Run(maxSize, run).value.polls[p];
      Open(p, poll.limit, poll.timeout) in run && (poll.parent == TimedOut ==> poll.timeout != 0)
  {
    hide Trimmed, Removals;
    var front, a := run[..|run| - 1], run[|run| - 1];
    assert run == front + [a];
    if p in Run(maxSize, front).value.polls {
      PollsAsOpened(maxSize, front, p);
    }
  }

  // Answers are not guaranteed: the worker may try to send before the request listens.

  /** One more step of a run. */
  lemma {:induction false} ExtendRun(maxSize: nat, run: seq<Action>, a: Action)
    requires Run(maxSize, run).Some? && Enabled(Run(maxSize, run).value, a)
    ensures Run(maxSize, run + [a]) == Some(Step(Run(maxSize, run).value, a))
  {
    assert (run + [a])[..|run|] == run;
  }

  /** The worker is done, and its request has no events from it. */
  predicate Unheard(s: State, p: nat) {
    p in s.polls && s.polls[p].worker == Finished && !s.polls[p].parent.Replied?
  }

  /** The request still waits for an answer that its worker has thrown away. */
  predicate Stuck(s: State, p: nat) {
    Unheard(s, p) && s.polls[p].parent != TimedOut
  }

  /** In state s the worker of p finds events, but nobody at the other end. */
  predicate SendsInVain(s: State, a: Action, p: nat) {
    a == Work(p) && s.queue != [] && p in s.polls && s.polls[p].parent != Listening
  }

  /** That happens at action i of the run. */
  predicate VainAt(maxSize: nat, run: seq<Action>, i: nat, p: nat) {
    i < |run| && Run(maxSize, run[..i]).Some? && SendsInVain(Run(maxSize, run[..i]).value, run[i], p)
  }

  ghost predicate SentInVain(maxSize: nat, run: seq<Action>, p: nat) {
    exists i: nat :: VainAt(maxSize, run, i, p)
  }

  lemma {:induction false} UnheardStep(s: State, a: Action, p: nat)
    requires PollOk(s, p) && Enabled(s, a)
    ensures Unheard(Step(s, a), p) <==> Unheard(s, p) || SendsInVain(s, a, p)
    ensures Expired(Step(s, a), p) <==> Expired(s, p) || a == Expire(p)
  {
    hide Trimmed, Removals;
  }

  predicate Expired(s: State, p: nat) {
    p in s.polls && s.polls[p].parent == TimedOut
  }

  /** A worker goes unheard exactly if it sends before the request listens or after it has left. */
  lemma {:induction false} UnheardExactly(maxSize: nat, run: seq<Action>, p: nat)
    requires Run(maxSize, run).Some?
    ensures Unheard(Run(maxSize, run).value, p) <==> SentInVain(maxSize, run, p)
    ensures Expired(Run(maxSize, run).value, p) <==> Expire(p) in run
  {
    hide Step, Enabled, Unheard, SendsInVain, PollOk, SentInVain;
    if run != [] {
      var n := |run| - 1;
      var front, a := run[..n], run[n];
      UnheardExactly(maxSize, front, p);
      EveryRunIsSafe(maxSize, front);
      UnheardStep(Run(maxSize, front).value, a, p);
      assert run == front + [a];
      VainBefore(maxSize, front, a, p);
    } else {
      NothingInVain(maxSize, p);
    }
  }

  lemma {:induction false} NothingInVain(maxSize: nat, p: nat)
    ensures !SentInVain(maxSize, [], p) && !Unheard(Init(maxSize), p)
  {
  }

  lemma {:induction false} VainBefore(maxSize: nat, front: seq<Action>, a: Action, p: nat)
    requires Run(maxSize, front).Some?
    ensures SentInVain(maxSize, front + [a], p) <==>
            SentInVain(maxSize, front, p) || SendsInVain(Run(maxSize, front).value, a, p)
  {
    hide Run, SendsInVain;
    var run := front + [a];
    assert run[..|front|] == front;
    assert VainAt(maxSize, run, |front|, p) <==> SendsInVain(Run(maxSize, front).value, a, p);
    forall i: nat | i < |front| ensures VainAt(maxSize, run, i, p) <==> VainAt(maxSize, front, i, p) {
      assert front[..i] == run[..i];
    }
  }

  /** A request gets stuck exactly by a send in vain; only its timeout ends that. */
  lemma {:induction false} StuckExactly(maxSize: nat, run: seq<Action>, p: nat)
    requires Run(maxSize, run).Some?
    ensures Stuck(Run(maxSize, run).value, p) <==> SentInVain(maxSize, run, p) && Expire(p) !in run
  {
    hide Run, SentInVain;
    UnheardExactly(maxSize, run, p);
  }

  lemma {:induction false} VainStays(maxSize: nat, run: seq<Action>, more: seq<Action>, p: nat)
    ensures SentInVain(maxSize, run, p) ==> SentInVain(maxSize, run + more, p)
  {
    hide Run, SendsInVain;
    if i: nat :| VainAt(maxSize, run, i, p) {
      assert (run + more)[..i] == run[..i];
      assert VainAt(maxSize, run + more, i, p);
    }
  }

  /** However a run goes on, a stuck request gets no events, and without a timeout no answer at all. */
  lemma {:induction false} StuckForever(maxSize: nat, run: seq<Action>, more: seq<Action>, p: nat)
    requires Run(maxSize, run).Some? && Stuck(Run(maxSize, run).value, p)
    requires Run(maxSize, run + more).Some?
    ensures Unheard(Run(maxSize, run + more).value, p)
    ensures Stuck(Run(maxSize, run + more).value, p) <==> Expire(p) !in more
  {
    hide Run, Unheard, SentInVain;
    StuckExactly(maxSize, run, p);
    StuckExactly(maxSize, run + more, p);
    UnheardExactly(maxSize, run + more, p);
    VainStays(maxSize, run, more, p);
  }

  /** Some continuation of the run answers request p with events. */
  ghost predicate Answerable(maxSize: nat, run: seq<Action>, p: nat) {
    exists more :: AnsweredBy(maxSize, run + more, p)
  }

  predicate AnsweredBy(maxSize: nat, run: seq<Action>, p: nat) {
    var r := Run(maxSize, run);
    r.Some? && p in r.value.polls && r.value.polls[p].parent.Replied?
  }

  /** A request can still be answered exactly if it has not timed out and its worker did not go unheard. */
  lemma {:induction false} AnswerableExactly(maxSize: nat, run: seq<Action>, p: nat)
    requires Run(maxSize, run).Some? && p in Run(maxSize, run).value.polls
    ensures Answerable(maxSize, run, p) <==>
            !Unheard(Run(maxSize, run).value, p) && !Expired(Run(maxSize, run).value, p)
  {
    hide Run, Step, Enabled;
    var s := Run(maxSize, run).value;
    if Unheard(s, p) || Expired(s, p) {
      forall more ensures !AnsweredBy(maxSize, run + more, p) {
        if Run(maxSize, run + more).Some? {
          StaysUnanswered(maxSize, run, more, p);
        }
      }
    } else if s.polls[p].parent.Replied? {
      assert run + [] == run;
      assert AnsweredBy(maxSize, run + [], p);
    } else {
      Rescue(maxSize, run, p);
    }
  }

  lemma {:induction false} StaysUnanswered(maxSize: nat, run: seq<Action>, more: seq<Action>, p: nat)
    requires Run(maxSize, run).Some? && Run(maxSize, run + more).Some?
    requires Unheard(Run(maxSize, run).value, p) || Expired(Run(maxSize, run).value, p)
    ensures !AnsweredBy(maxSize, run + more, p)
  {
    hide Run, SentInVain;
    UnheardExactly(maxSize, run, p);
    UnheardExactly(maxSize, run + more, p);
    VainStays(maxSize, run, more, p);
  }

  /** Listening, one more event and one more turn of the worker are enough. */
  lemma {:induction false} Rescue(maxSize: nat, run: seq<Action>, p: nat)
    requires Run(maxSize, run).Some? && p in Run(maxSize, run).value.polls
    requires var poll := Run(maxSize, run).value.polls[p];
             (poll.parent == Starting || poll.parent == Listening) && poll.worker != Finished
    ensures Answerable(maxSize, run, p)
  {
    hide Run, Step, Enabled;
    var s := Run(maxSize, run).value;
    var more := if s.polls[p].parent == Starting then [Listen(p)] else [];
    if s.polls[p].parent == Starting {
      ListenStep(s, p);
      ExtendRun(maxSize, run, Listen(p));
    } else {
      assert run + more == run;
    }
    var s1 := Run(maxSize, run + more).value;
    var woken := PushStep(s1, p);
    ExtendRun(maxSize, run + more, Push("", woken));
    assert run + more + [Push("", woken)] == run + (more + [Push("", woken)]);
    more := more + [Push("", woken)];
    ExtendRun(maxSize, run + more, Work(p));
    assert run + more + [Work(p)] == run + (more + [Work(p)]);
    assert AnsweredBy(maxSize, run + (more + [Work(p)]), p);
  }

  lemma {:induction false} ListenStep(s: State, p: nat)
    requires p in s.polls && s.polls[p].parent == Starting
    ensures Enabled(s, Listen(p)) && p in Step(s, Listen(p)).polls
    ensures Step(s, Listen(p)).polls[p] == s.polls[p].(parent := Listening)
  {
  }

  /** A push, after which the worker of p answers it. */
  lemma {:induction false} PushStep(s: State, p: nat) returns (woken: Option<nat>)
    requires p in s.polls && s.polls[p].parent == Listening && s.polls[p].worker != Finished
    ensures Enabled(s, Push("", woken)) && Enabled(Step(s, Push("", woken)), Work(p))
    ensures var t := Step(Step(s, Push("", woken)), Work(p));
            p in t.polls && t.polls[p].parent.Replied?
  {
    hide Removals;
    if Waiting(s, p) {
      woken := Some(p);
    } else if q :| q in s.polls && Waiting(s, q) {
      woken := Some(q);
    } else {
      woken := None;
    }
  }

  // Wake-ups are lost with the answers: a signal wakes one worker, and that worker may have nobody to answer to.

  /** The workers that are about to take the lock. */
  function Readies(s: State): set<nat> {
    set q | q in s.polls && s.polls[q].worker == Ready
  }

  /** The worker of p sleeps, there are events, and nobody is on the way to take them. */
  predicate Stranded(s: State, p: nat) {
    Waiting(s, p) && s.queue != [] && Readies(s) == {}
  }

  /** How many workers have found events but no listener while the worker of p slept. */
  function Swallowed(maxSize: nat, run: seq<Action>, p: nat): nat {
    if run == [] then 0
    else
      var front, a := run[..|run| - 1], run[|run| - 1];
      match Run(maxSize, front)
      case None => 0
      case Some(s) =>
        if a == Work(p) then 0
        else Swallowed(maxSize, front, p) + if Waiting(s, p) && a.Work? && SendsInVain(s, a, a.poll) then 1 else 0
  }

  lemma {:induction false} SleeperStep(s: State, a: Action, p: nat, swallowed: nat)
    requires Enabled(s, a)
    requires Waiting(s, p) ==> |s.queue| <= |Readies(s)| + swallowed
    ensures
      var swallowed' := if a == Work(p) then 0
        else swallowed + if Waiting(s, p) && a.Work? && SendsInVain(s, a, a.poll) then 1 else 0;
      Waiting(Step(s, a), p) ==> |Step(s, a).queue| <= |Readies(Step(s, a))| + swallowed'
  {
    hide Removals, Trimmed, BatchSize;
    match a
    case Push(e, woken) =>
      if Waiting(Step(s, a), p) {
        PushBesideSleeper(s, e, woken, p);
      }
    case Open(q, _, _) =>
      assert Readies(Step(s, a)) == Readies(s) + {q};
    case Work(q) =>
      if Waiting(Step(s, a), p) {
        WorkBesideSleeper(s, q, p);
      }
    case _ =>
      assert Readies(Step(s, a)) == Readies(s);
  }

  lemma {:induction false} PushBesideSleeper(s: State, e: Event, woken: Option<nat>, p: nat)
    requires Enabled(s, Push(e, woken)) && Waiting(Step(s, Push(e, woken)), p)
    ensures
      var t := Step(s, Push(e, woken));
      Waiting(s, p) && |Readies(t)| == |Readies(s)| + 1 && |t.queue| <= |s.queue| + 1
  {
    hide Removals, Trimmed;
    var t := Step(s, Push(e, woken));
    TrimmedLength(s.queue + [e], s.maxSize);
    assert Readies(t) == Readies(s) + {woken.value};
  }

  lemma {:induction false} WorkBesideSleeper(s: State, q: nat, p: nat)
    requires Enabled(s, Work(q)) && Waiting(Step(s, Work(q)), p)
    ensures
      var t := Step(s, Work(q));
      && |Readies(t)| == |Readies(s)| - 1
      && (p == q ==> t.queue == [])
      && (p != q ==> Waiting(s, p))
      && |t.queue| <= if SendsInVain(s, Work(q), q) || s.queue == [] then |s.queue| else |s.queue| - 1
  {
    hide Removals, BatchSize;
    BatchBounds(s.queue, s.polls[q].limit);
    assert Readies(Step(s, Work(q))) == Readies(s) - {q};
  }

  lemma {:induction false} TrimmedLength(queue: seq<Event>, maxSize: nat)
    ensures |Trimmed(queue, maxSize)| <= |queue|
  {
  }

  lemma {:induction false} BatchBounds(queue: seq<Event>, limit: int)
    ensures BatchSize(queue, limit) <= |queue|
    ensures queue != [] ==> BatchSize(queue, limit) >= 1
  {
  }

  /** While a worker sleeps, every queued event has a worker on its way or a wake-up that was swallowed. */
  lemma {:induction false} EveryEventHasItsWakeUp(maxSize: nat, run: seq<Action>, p: nat)
    requires Run(maxSize, run).Some?
    ensures
      var s := Run(maxSize, run).value;
      Waiting(s, p) ==> |s.queue| <= |Readies(s)| + Swallowed(maxSize, run, p)
  {
    hide Step, Enabled, Waiting, Readies, SendsInVain, Bounded;
    if run == [] {
      NobodyWaits(maxSize, p);
    } else {
      var front, a := run[..|run| - 1], run[|run| - 1];
      EveryEventHasItsWakeUp(maxSize, front, p);
      SleeperStep(Run(maxSize, front).value, a, p, Swallowed(maxSize, front, p));
    }
  }

  lemma {:induction false} NobodyWaits(maxSize: nat, p: nat)
    ensures !Waiting(Init(maxSize), p)
  {
  }

  lemma {:induction false} SwallowedHappened(maxSize: nat, run: seq<Action>, p: nat)
    requires Run(maxSize, run).Some? && Swallowed(maxSize, run, p) > 0
    ensures exists i: nat, q: nat :: VainAt(maxSize, run, i, q) && Waiting(Run(maxSize, run[..i]).value, p)
  {
    hide Step, Enabled, Waiting, SendsInVain;
    var n := |run| - 1;
    var front, a := run[..n], run[n];
    if Waiting(Run(maxSize, front).value, p) && a.Work? && SendsInVain(Run(maxSize, front).value, a, a.poll) {
      assert VainAt(maxSize, run, n, a.poll);
    } else {
      SwallowedHappened(maxSize, front, p);
      var i: nat, q: nat :| VainAt(maxSize, front, i, q) && Waiting(Run(maxSize, front[..i]).value, p);
      assert front[..i] == run[..i];
      assert VainAt(maxSize, run, i, q);
    }
  }

  /** A worker is left asleep beside events only after another one has gone unheard meanwhile. */
  lemma {:induction false} StrandedOnlyAfterUnheard(maxSize: nat, run: seq<Action>, p: nat)
    requires Run(maxSize, run).Some? && Stranded(Run(maxSize, run).value, p)
    ensures exists i: nat, q: nat :: VainAt(maxSize, run, i, q) && Waiting(Run(maxSize, run[..i]).value, p)
  {
    hide Run, VainAt, Waiting;
    EveryEventHasItsWakeUp(maxSize, run, p);
    SwallowedHappened(maxSize, run, p);
  }

  /** The last worker on its way leaves events behind, unheard or because of its limit. */
  predicate Strands(s: State, a: Action, p: nat) {
    && a.Work? && a.poll in s.polls && Waiting(s, p) && Readies(s) == {a.poll}
    && if s.polls[a.poll].parent == Listening then 0 < s.polls[a.poll].limit < |s.queue| else s.queue != []
  }

  predicate StrandsAt(maxSize: nat, run: seq<Action>, i: nat, p: nat) {
    i < |run| && Run(maxSize, run[..i]).Some? && Strands(Run(maxSize, run[..i]).value, run[i], p)
  }

  /** What requests do without their workers. */
  predicate Idle(a: Action) {
    a.Listen? || a.Expire?
  }

  lemma {:induction false} StrandedStep(s: State, a: Action, p: nat)
    requires Enabled(s, a)
    ensures Stranded(Step(s, a), p) <==> Strands(s, a, p) || (Stranded(s, p) && Idle(a))
  {
    hide Removals, Trimmed;
    var t := Step(s, a);
    match a
    case Push(e, woken) =>
      if woken.Some? {
        assert woken.value in Readies(t);
      }
    case Open(q, _, _) =>
      assert q in Readies(t);
    case Work(q) =>
      assert q in Readies(s) && Readies(t) == Readies(s) - {q};
      if Readies(t) == {} {
        assert Readies(s) == {q};
      }
    case _ =>
      assert Readies(t) == Readies(s);
  }

  /** A worker is stranded exactly from such a step on, until there is another event or another request. */
  lemma {:induction false} StrandedExactly(maxSize: nat, run: seq<Action>, p: nat)
    requires Run(maxSize, run).Some?
    ensures Stranded(Run(maxSize, run).value, p) <==>
            exists i: nat :: StrandsAt(maxSize, run, i, p) && forall j :: i < j < |run| ==> Idle(run[j])
  {
    hide Step, Enabled, Stranded, Strands;
    if run == [] {
      NobodyWaits(maxSize, p);
      NotStranded(Init(maxSize), p);
    } else {
      var n := |run| - 1;
      var front, a := run[..n], run[n];
      StrandedExactly(maxSize, front, p);
      StrandedStep(Run(maxSize, front).value, a, p);
      assert StrandsAt(maxSize, run, n, p) <==> Strands(Run(maxSize, front).value, a, p);
      forall i: nat | i < n ensures StrandsAt(maxSize, run, i, p) <==> StrandsAt(maxSize, front, i, p) {
        assert front[..i] == run[..i];
      }
      assert forall j :: 0 <= j < n ==> run[j] == front[j];
    }
  }

  lemma {:induction false} NotStranded(s: State, p: nat)
    requires !Waiting(s, p)
    ensures !Stranded(s, p)
  {
  }

  /**
   * Two requests wait, and the worker of the one that times out swallows the only wake-up: the other one,
   * which listens without timeout, sleeps on beside the event.
   */
  lemma {:induction false} WakeUpCanBeLost(e: Event)
    ensures
      var r := Run(0, LosingRun(e));
      && r.Some? && r.value.queue == [e] && Stranded(r.value, 1) && !Unheard(r.value, 1)
      && r.value.polls[1].parent == Listening && r.value.polls[1].timeout == 0
  {
    hide Run, Step, Enabled, Stranded, Unheard, LosingRun;
    LosingActions(e);
    var a := LosingRun(e);
    var s7 := Quiet(map[0 := Poll(TimedOut, Parked, 0, 1), 1 := Poll(Listening, Parked, 0, 0)]);
    FirstTimesOut(e);
    SwallowingSteps(s7, e);
    RunStep(0, a, 7, s7);
    RunStep(0, a, 8, Step(s7, a[7]));
    assert a[..9] == a;
  }

  lemma {:induction false} LosingActions(e: Event)
    ensures
      var a := LosingRun(e);
      && |a| == 9 && a[0] == Open(0, 0, 1) && a[1] == Open(1, 0, 0) && a[2] == Listen(0) && a[3] == Listen(1)
      && a[4] == Work(0) && a[5] == Work(1) && a[6] == Expire(0) && a[7] == Push(e, Some(0)) && a[8] == Work(0)
  {
  }

  lemma {:induction false} FirstTimesOut(e: Event)
    ensures
      var s := Quiet(map[0 := Poll(TimedOut, Parked, 0, 1), 1 := Poll(Listening, Parked, 0, 0)]);
      Run(0, LosingRun(e)[..7]) == Some(s)
  {
    hide Run, LosingRun;
    LosingActions(e);
    var a := LosingRun(e);
    var polls := map[0 := Poll(Listening, Parked, 0, 1), 1 := Poll(Listening, Parked, 0, 0)];
    BothWait(e);
    QuietStep(polls, a[6], Quiet(map[0 := Poll(TimedOut, Parked, 0, 1), 1 := Poll(Listening, Parked, 0, 0)]));
    hide Step;
    RunStep(0, a, 6, Quiet(polls));
  }

  lemma {:induction false} SwallowingSteps(s: State, e: Event)
    requires s == Quiet(map[0 := Poll(TimedOut, Parked, 0, 1), 1 := Poll(Listening, Parked, 0, 0)])
    ensures Enabled(s, Push(e, Some(0)))
    ensures
      var s1 := Step(s, Push(e, Some(0)));
      && Enabled(s1, Work(0))
      && var s2 := Step(s1, Work(0));
      && s2.queue == [e] && Stranded(s2, 1) && !Unheard(s2, 1)
      && s2.polls[1].parent == Listening && s2.polls[1].timeout == 0
  {
    PushDropsOldest(s, e, Some(0));
    assert Readies(Step(Step(s, Push(e, Some(0))), Work(0))) == {};
  }

  function LosingRun(e: Event): seq<Action> {
    [Open(0, 0, 1), Open(1, 0, 0), Listen(0), Listen(1), Work(0), Work(1), Expire(0), Push(e, Some(0)), Work(0)]
  }

  lemma {:induction false} BothListen(e: Event)
    ensures
      var s := Quiet(map[0 := Poll(Listening, Ready, 0, 1), 1 := Poll(Listening, Ready, 0, 0)]);
      Run(0, LosingRun(e)[..4]) == Some(s)
  {
    assert Run(0, LosingRun(e)[..0]) == Some(Init(0));
    hide Run, LosingRun;
    LosingActions(e);
    var a := LosingRun(e);
    var first, second := Poll(Starting, Ready, 0, 1), Poll(Starting, Ready, 0, 0);
    var polls := map[0 := first, 1 := second];
    QuietStep(map[], a[0], Quiet(map[0 := first]));
    QuietStep(map[0 := first], a[1], Quiet(polls));
    QuietStep(polls, a[2], Quiet(polls[0 := first.(parent := Listening)]));
    QuietStep(polls[0 := first.(parent := Listening)], a[3],
              Quiet(map[0 := first.(parent := Listening), 1 := second.(parent := Listening)]));
    hide Step;
    RunStep(0, a, 0, Init(0));
    RunStep(0, a, 1, Quiet(map[0 := first]));
    RunStep(0, a, 2, Quiet(polls));
    RunStep(0, a, 3, Quiet(polls[0 := first.(parent := Listening)]));
  }

  lemma {:induction false} BothWait(e: Event)
    ensures
      var s := Quiet(map[0 := Poll(Listening, Parked, 0, 1), 1 := Poll(Listening, Parked, 0, 0)]);
      Run(0, LosingRun(e)[..6]) == Some(s)
  {
    hide Run, LosingRun;
    LosingActions(e);
    var a := LosingRun(e);
    var polls := map[0 := Poll(Listening, Ready, 0, 1), 1 := Poll(Listening, Ready, 0, 0)];
    var polls' := polls[0 := Poll(Listening, Parked, 0, 1)];
    BothListen(e);
    QuietStep(polls, a[4], Quiet(polls'));
    QuietStep(polls', a[5], Quiet(map[0 := Poll(Listening, Parked, 0, 1), 1 := Poll(Listening, Parked, 0, 0)]));
    hide Step;
    RunStep(0, a, 4, Quiet(polls));
    RunStep(0, a, 5, Quiet(polls'));
  }

  /** A state in which nothing has been pushed. */
  function Quiet(polls: map<nat, Poll>): State {
    State(0, [], polls, [], [])
  }

  lemma {:induction false} QuietStep(polls: map<nat, Poll>, a: Action, t: State)
    requires !a.Push? && Enabled(Quiet(polls), a)
    requires
      t == Quiet(match a
                 case Open(p, limit, timeout) => polls[p := Poll(Starting, Ready, limit, timeout)]
                 case Listen(p) => polls[p := polls[p].(parent := Listening)]
                 case Expire(p) => polls[p := polls[p].(parent := TimedOut)]
                 case Work(p) => polls[p := polls[p].(worker := Parked)]
                 case Push(_, _) => polls)
    ensures Step(Quiet(polls), a) == t
  {
  }

  /** A request without timeout can wait for ever while its event stays in the queue. */
  lemma {:induction false} AnswerCanBeLost(e: Event)
    ensures
      var r := Run(0, [Push(e, None), Open(0, 0, 0), Work(0), Listen(0)]);
      && r.Some? && r.value.queue == [e] && Stuck(r.value, 0)
      && r.value.polls[0].parent == Listening && r.value.polls[0].timeout == 0
  {
    var a := [Push(e, None), Open(0, 0, 0), Work(0), Listen(0)];
    PushDropsOldest(Init(0), e, None);
    var s1 := Step(Init(0), Push(e, None));
    assert s1.queue == [e] && s1.polls == map[];
    assert Run(0, a[..0]) == Some(Init(0)) && a[..4] == a;
    assert Enabled(Init(0), a[0]);
    hide Run, Step, Enabled, Stuck;
    LostSteps(s1, e);
    RunStep(0, a, 0, Init(0));
    RunStep(0, a, 1, s1);
    RunStep(0, a, 2, Step(s1, a[1]));
    RunStep(0, a, 3, Step(Step(s1, a[1]), a[2]));
  }

  lemma {:induction false} LostSteps(s: State, e: Event)
    requires s.queue == [e] && s.polls == map[]
    ensures Enabled(s, Open(0, 0, 0))
    ensures
      var s2 := Step(s, Open(0, 0, 0));
      && Enabled(s2, Work(0))
      && var s3 := Step(s2, Work(0));
      && Enabled(s3, Listen(0))
      && var s4 := Step(s3, Listen(0));
      && s4.queue == [e] && Stuck(s4, 0) && s4.polls[0].parent == Listening && s4.polls[0].timeout == 0
  {
  }

  lemma {:induction false} RunStep(maxSize: nat, actions: seq<Action>, i: nat, s: State)
    requires i < |actions| && Run(maxSize, actions[..i]) == Some(s) && Enabled(s, actions[i])
    ensures Run(maxSize, actions[..i + 1]) == Some(Step(s, actions[i]))
  {
    assert actions[..i + 1][..i] == actions[..i];
  }
}
