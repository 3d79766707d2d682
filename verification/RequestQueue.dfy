/** A chat peer's backend requests: key requests wait in a queue while another request is
    pending, and every finished task starts the next one.  Submitting and finishing are atomic
    steps; tasks finish in any order. */
module RequestQueue {

  datatype Kind =
    | SetChannelUserKeys | GetChannelUserKeys | SetUserKeys | GetUserKeys
    | SetChannelKeys | GetChannelKeys | Other

  datatype Request = Request(id: nat, kind: Kind)

  /** The requests whose order matters. */
  predicate IsKeyRequest(r: Request) {
    !r.kind.Other?
  }

  /** The peer's queue and flag, the tasks running in the pool, and the history: key requests
      submitted and started so far, in order, and how many tasks of any kind were submitted and
      finished. */
  datatype State = State(queue: seq<Request>, pending: bool, running: multiset<Request>,
                         submitted: seq<Request>, started: seq<Request>, total: nat, finished: nat)

  const Idle: State := State([], false, multiset{}, [], [], 0, 0)

  datatype Step = Submit(r: Request) | Finish(r: Request)

  function KeyOnly(r: Request): seq<Request> {
    if IsKeyRequest(r) then [r] else []
  }

  /** Hand a request to the worker pool. */
  function Start(s: State, r: Request): State {
    s.(running := s.running + multiset{r}, started := s.started + KeyOnly(r))
  }

  function AfterSubmit(s: State, r: Request): State {
    var t := s.(submitted := s.submitted + KeyOnly(r), total := s.total + 1);
    if IsKeyRequest(r) then
      if s.pending then t.(queue := s.queue + [r]) else Start(t, r)
    else Start(t.(pending := true), r)
  }

  /** Start the request at the head of the queue, if there is one. */
  function TakeNext(s: State): State {
    if s.queue != [] then Start(s.(queue := s.queue[1..]), s.queue[0]) else s.(pending := false)
  }

  function AfterFinish(s: State, r: Request): State
    requires r in s.running
  {
    TakeNext(s.(running := s.running - multiset{r}, finished := s.finished + 1))
  }

  predicate CanTake(s: State, e: Step) {
    e.Finish? ==> e.r in s.running
  }

  function After(s: State, e: Step): State
    requires CanTake(s, e)
  {
    match e
    case Submit(r) => AfterSubmit(s, r)
    case Finish(r) => AfterFinish(s, r)
  }

  /** What every reachable state satisfies: key requests have started in submission order and the
      rest of them is the queue; a pending request, and so any queued one, means that some task
      is still running; and every request is finished, running or queued. */
  ghost predicate Invariant(s: State) {
    && s.started + s.queue == s.submitted
    && (forall i :: 0 <= i < |s.queue| ==> IsKeyRequest(s.queue[i]))
    && (s.queue != [] ==> s.pending)
    && (s.pending ==> |s.running| >= 1)
    && s.finished + |s.running| + |s.queue| == s.total
  }

  lemma SubmitKeepsInvariant(s: State, r: Request)
    requires Invariant(s)
    ensures Invariant(AfterSubmit(s, r))
  {
    var t := AfterSubmit(s, r);
    if IsKeyRequest(r) && s.pending {
      assert t.started + t.queue == s.started + s.queue + [r];
    } else if IsKeyRequest(r) {
      assert s.queue == [] && s.started + [] == s.started;
      assert t.started + t.queue == t.started;
    } else {
      assert s.started + [] == s.started && s.submitted + [] == s.submitted;
    }
  }

  lemma FinishKeepsInvariant(s: State, r: Request)
    requires Invariant(s) && r in s.running
    ensures Invariant(AfterFinish(s, r))
  {
    if s.queue != [] {
      var q := s.queue[0];
      assert s.queue == [q] + s.queue[1..];
      assert s.started + [q] + s.queue[1..] == s.started + ([q] + s.queue[1..]);
    }
  }

  // ---- whole runs ----

  predicate IsRun(s: State, steps: seq<Step>)
    decreases |steps|
  {
    steps == [] || (CanTake(s, steps[0]) && IsRun(After(s, steps[0]), steps[1..]))
  }

  function Final(s: State, steps: seq<Step>): State
    requires IsRun(s, steps)
    decreases |steps|
  {
    if steps == [] then s else Final(After(s, steps[0]), steps[1..])
  }

  lemma {:induction false} RunKeepsInvariant(s: State, steps: seq<Step>)
    requires Invariant(s) && IsRun(s, steps)
    ensures Invariant(Final(s, steps))
    decreases |steps|
  {
    if steps != [] {
      match steps[0]
      case Submit(r) =>
        SubmitKeepsInvariant(s, r);
        RunKeepsInvariant(AfterSubmit(s, r), steps[1..]);
      case Finish(r) =>
        FinishKeepsInvariant(s, r);
        RunKeepsInvariant(AfterFinish(s, r), steps[1..]);
    }
  }

  function SubmittedKeys(steps: seq<Step>): seq<Request> {
    if steps == [] then []
    else StepKey(steps[0]) + SubmittedKeys(steps[1..])
  }

  lemma StepRecords(s: State, e: Step)
    requires CanTake(s, e)
    ensures After(s, e).submitted == s.submitted + StepKey(e)
  {
    assert s.submitted + [] == s.submitted;
  }

  function StepKey(e: Step): seq<Request> {
    if e.Submit? then KeyOnly(e.r) else []
  }

  lemma {:induction false} RunRecordsSubmissions(s: State, steps: seq<Step>)
    requires IsRun(s, steps)
    ensures Final(s, steps).submitted == s.submitted + SubmittedKeys(steps)
    decreases |steps|
  {
    hide After, StepKey;
    if steps == [] {
      assert s.submitted + [] == s.submitted;
    } else {
      var e, rest := steps[0], steps[1..];
      StepRecords(s, e);
      RunRecordsSubmissions(After(s, e), rest);
      hide Final, IsRun;
      assert s.submitted + StepKey(e) + SubmittedKeys(rest) == s.submitted + (StepKey(e) + SubmittedKeys(rest));
    }
  }

  /** In every run the key requests start in the order of their submission, each exactly once:
      the started ones are a prefix of the submitted ones and the queue is the rest. */
  lemma StartsInOrder(steps: seq<Step>)
    requires IsRun(Idle, steps)
    ensures var s := Final(Idle, steps); s.started + s.queue == SubmittedKeys(steps)
  {
    RunKeepsInvariant(Idle, steps);
    RunRecordsSubmissions(Idle, steps);
    assert [] + SubmittedKeys(steps) == SubmittedKeys(steps);
  }

  /** Nothing is left queued when all tasks have finished: then every key request has started. */
  lemma NothingLeftBehind(steps: seq<Step>)
    requires IsRun(Idle, steps) && Final(Idle, steps).running == multiset{}
    ensures var s := Final(Idle, steps);
            s.queue == [] && s.started == SubmittedKeys(steps) && s.finished == s.total && !s.pending
  {
    RunKeepsInvariant(Idle, steps);
    StartsInOrder(steps);
    var s := Final(Idle, steps);
    assert s.started + [] == s.started;
  }

  /** Finishing tasks, in any order, always comes to an end, after exactly as many steps as there
      are unfinished requests; until then some task is running and can finish. */
  lemma {:induction false} FinishingDrains(s: State, steps: seq<Step>)
    requires Invariant(s) && IsRun(s, steps)
    requires forall i :: 0 <= i < |steps| ==> steps[i].Finish?
    ensures |steps| <= |s.running| + |s.queue|
    ensures var t := Final(s, steps);
            && |t.running| + |t.queue| == |s.running| + |s.queue| - |steps|
            && (|steps| < |s.running| + |s.queue| ==> t.running != multiset{})
    decreases |steps|
  {
    if steps == [] {
      if s.running == multiset{} {
        assert |s.running| == 0;
      }
    } else {
      FinishKeepsInvariant(s, steps[0].r);
      FinishingDrains(After(s, steps[0]), steps[1..]);
    }
  }

  // ---- the peer ----

  class Peer {
    var requestQueue: seq<Request>
    var pendingRequest: bool
    ghost var running: multiset<Request>
    ghost var submitted: seq<Request>
    ghost var started: seq<Request>
    ghost var total: nat
    ghost var finished: nat

    constructor ()
      ensures View() == Idle
    {
      requestQueue, pendingRequest := [], false;
      running, submitted, started, total, finished := multiset{}, [], [], 0, 0;
    }

    ghost function View(): State
      reads this
    {
      State(requestQueue, pendingRequest, running, submitted, started, total, finished)
    }

    /** AddPeerchatTaskRequest: queue the request to the worker pool. */
    method StartTask(r: Request)
      modifies this`running, this`started
      ensures View() == Start(old(View()), r)
    {
      running := running + multiset{r};
      started := started + KeyOnly(r);
    }

    method AddTaskRequest(request: Request)
      modifies this
      ensures View() == AfterSubmit(old(View()), request)
      ensures old(Invariant(View())) ==> Invariant(View())
    {
      SubmitKeepsInvariantIf(View(), request);
      submitted, total := submitted + KeyOnly(request), total + 1;
      var queueEvent: bool;
      match request.kind {
        case SetChannelUserKeys => queueEvent := true;
        case GetChannelUserKeys => queueEvent := true;
        case SetUserKeys => queueEvent := true;
        case GetUserKeys => queueEvent := true;
        case SetChannelKeys => queueEvent := true;
        case GetChannelKeys => queueEvent := true;
        case Other => queueEvent := false;
      }
      if queueEvent {
        if pendingRequest {
          requestQueue := requestQueue + [request];
        } else {
          StartTask(request);
        }
      } else {
        pendingRequest := true;
        StartTask(request);
      }
    }

    method ProcessNextTask()
      modifies this`requestQueue, this`pendingRequest, this`running, this`started
      ensures View() == TakeNext(old(View()))
    {
      if requestQueue != [] {
        var req := requestQueue[0];
        requestQueue := requestQueue[1..];
        StartTask(req);
      } else {
        pendingRequest := false;
      }
    }

    /** The end of PerformUVWorkRequest for a running task. */
    method CompleteTask(ghost r: Request)
      requires r in running
      modifies this
      ensures View() == AfterFinish(old(View()), r)
      ensures old(Invariant(View())) ==> Invariant(View())
    {
      hide Invariant, TakeNext;
      ghost var before := View();
      running, finished := running - multiset{r}, finished + 1;
      ghost var between := before.(running := before.running - multiset{r}, finished := before.finished + 1);
      assert View() == between;
      ProcessNextTask();
      assert View() == TakeNext(between);
      FinishKeepsInvariantIf(before, r);
    }
  }

  lemma SubmitKeepsInvariantIf(s: State, r: Request)
    ensures Invariant(s) ==> Invariant(AfterSubmit(s, r))
  {
    if Invariant(s) {
      SubmitKeepsInvariant(s, r);
    }
  }

  lemma FinishKeepsInvariantIf(s: State, r: Request)
    requires r in s.running
    ensures Invariant(s) ==> Invariant(AfterFinish(s, r))
  {
    if Invariant(s) {
      FinishKeepsInvariant(s, r);
    }
  }
}
