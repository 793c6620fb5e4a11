/**
 The register / step / release protocol of the batch scheduler, one shared access at a time. Each
 registered request has a registry entry (an `Arc` with a strong count), a session record, a caller
 and at most one outstanding step, which a scheduler task runs. Any number of requests interleave
 freely; a caller may also abandon a step by dropping its future.
 */
module RequestRegistry {
  import opened Machine
  import opened Options

  /** A model operation, identified by its token and position; the KV cache is the list of operations
      applied to it. */
  datatype Operation = Operation(token: nat, pos: nat)

  type Kv = seq<Operation>

  /** Where the caller stands. `clean` records whether a release started with no step outstanding. */
  datatype Caller =
    | IdTaken                                             // `fetch_add` done
    | EntryInserted                                       // in the registry
    | Counted                                             // `registrations_total` incremented
    | Ready                                               // registered, last reply received
    | Waiting                                             // a step is outstanding
    | Abandoned                                           // gave up on the outstanding step
    | Removed(had: bool, clean: bool)                     // `table.remove` done
    | Unwrapped(kv: Option<Kv>, clean: bool)              // `Arc::try_unwrap` done
    | SessionGone(kv: Option<Kv>, clean: bool, was: bool) // `sessions.remove` done
    | Released(kv: Option<Kv>, clean: bool)               // `release` returned

  /** Where the scheduler's task for the outstanding step stands. */
  datatype Task =
    | NoTask
    | Queued(op: Operation)    // submitted, entry not looked up yet
    | Holding(op: Operation)   // holds a clone of the entry
    | Running(op: Operation)   // holds the entry's lock
    | Finished                 // lock released, clone still held
    | Dropped                  // clone dropped, reply not sent yet

  /** One request: its caller and task, and its registry entry and session. `detached` is the helper that a
      release spawns when it finds the entry still shared. */
  datatype Request = Request(
    id: nat, caller: Caller, task: Task, inTable: bool, strong: nat, detached: bool, kv: Kv, inSession: bool,
    submitted: Kv)

  /** `next` is the 64-bit id counter. */
  datatype State = State(requests: seq<Request>, next: nat, registrations: nat, releases: nat)

  datatype Action =
    | Register                            // a new call to `register_with_class`
    | Continue(r: nat)                    // the caller's next access inside `register` or `release`
    | Submit(r: nat, op: Operation)       // `step_registered` or `forward_registered`
    | Abandon(r: nat)                     // the caller's future is dropped
    | Release(r: nat)                     // `release`: `table.remove`
    | RunTask(r: nat)                     // the spawned step's next access
    | RunDetached(r: nat)                 // the detached helper gets the lock and drops the entry

  // ----- One request's moves

  function Lookup(q: Request): Request
    requires q.task.Queued?
  {
    if q.inTable then q.(task := Holding(q.task.op), strong := q.strong + 1) else Reply(q)
  }

  /** `resp.send`: a caller still waiting is served, a dropped receiver is ignored. */
  function Reply(q: Request): Request {
    q.(task := NoTask, caller := if q.caller.Waiting? then Ready else q.caller)
  }

  function Decrement(n: nat): nat { if n == 0 then 0 else n - 1 }

  function TaskMove(q: Request): Request {
    match q.task
    case NoTask => q
    case Queued(_) => Lookup(q)
    case Holding(op) => q.(task := Running(op))
    case Running(op) => q.(task := Finished, kv := q.kv + [op])
    case Finished => q.(task := Dropped, strong := Decrement(q.strong))   // dropped *before* the reply
    case Dropped => Reply(q)
  }

  /** `Arc::try_unwrap`: succeeds when this is the only handle, otherwise a helper keeps the entry until it
      gets the lock. */
  function TryUnwrap(q: Request, had: bool, clean: bool): Request {
    if !had then q.(caller := Unwrapped(None, clean))
    else if q.strong == 1 then q.(caller := Unwrapped(Some(q.kv), clean), strong := 0)
    else q.(caller := Unwrapped(None, clean), detached := true)
  }

  function CallerMove(q: Request): Request {
    match q.caller
    case IdTaken => q.(caller := EntryInserted, inTable := true, strong := 1)
    case EntryInserted => q.(caller := Counted)
    case Counted => q.(caller := Ready, inSession := true)
    case Removed(had, clean) => TryUnwrap(q, had, clean)
    case Unwrapped(kv, clean) => q.(caller := SessionGone(kv, clean, q.inSession), inSession := false)
    case SessionGone(kv, clean, _) => q.(caller := Released(kv, clean))
    case _ => q
  }

  /** A release can begin when nothing is outstanding, after an abandoned step, or a second time. */
  predicate CanRelease(q: Request) { q.caller.Ready? || q.caller.Abandoned? || q.caller.Released? }

  function Move(q: Request, a: Action): Request {
    match a
    case Register => q
    case Continue(_) => CallerMove(q)
    case Submit(_, op) =>
      if q.caller.Ready? then q.(caller := Waiting, task := Queued(op), submitted := q.submitted + [op]) else q
    case Abandon(_) => if q.caller.Waiting? then q.(caller := Abandoned) else q
    case Release(_) =>
      if CanRelease(q) then q.(caller := Removed(q.inTable, q.caller.Ready?), inTable := false) else q
    case RunTask(_) => TaskMove(q)
    case RunDetached(_) =>
      if q.detached && !q.task.Running? then q.(detached := false, strong := Decrement(q.strong)) else q
  }

  function Fresh(id: nat): Request { Request(id, IdTaken, NoTask, false, 0, false, [], false, []) }

  /** A registration takes the counter's value, which `fetch_add` moves on and wraps; `registrations_total` and `releases_total` move with the caller. */
  function Step(s: State, a: Action): State {
    if a.Register? then s.(requests := s.requests + [Fresh(s.next)], next := (s.next + 1) % U64_SPAN)
    else if a.r >= |s.requests| then s
    else
      var q := s.requests[a.r];
      State(s.requests[a.r := Move(q, a)], s.next,
            s.registrations + (if a.Continue? && q.caller.EntryInserted? then 1 else 0),
            s.releases + (if a.Continue? && q.caller.SessionGone? && q.caller.was then 1 else 0))
  }

  function Run(s: State, schedule: seq<Action>): State
    decreases |schedule|
  {
    if schedule == [] then s else Run(Step(s, schedule[0]), schedule[1..])
  }

  const Start: State := State([], 0, 0, 0)

  // ----- Invariants

  predicate TaskHolds(t: Task) { t.Holding? || t.Running? || t.Finished? }

  /** The operations submitted but not yet in the KV cache. */
  function Outstanding(t: Task): Kv {
    if t.Queued? || t.Holding? || t.Running? then [t.op] else []
  }

  predicate Registered(q: Request) { q.inTable && !q.detached && q.submitted == q.kv + Outstanding(q.task) }

  ghost predicate RequestInvariant(q: Request) {
    // the strong count is exact
    && q.strong == (if q.inTable || (q.caller.Removed? && q.caller.had) then 1 else 0)
                   + (if TaskHolds(q.task) then 1 else 0) + (if q.detached then 1 else 0)
    && match q.caller
       case IdTaken => q == Fresh(q.id)
       case EntryInserted => Registered(q) && q.task.NoTask? && !q.inSession
       case Counted => Registered(q) && q.task.NoTask? && !q.inSession
       case Ready => Registered(q) && q.task.NoTask? && q.inSession
       case Waiting => Registered(q) && !q.task.NoTask? && q.inSession
       case Abandoned => Registered(q) && q.inSession
       case Removed(had, clean) =>
         && !q.inTable && (had ==> !q.detached) && (clean ==> had && q.task.NoTask? && q.kv == q.submitted)
       case Unwrapped(kv, clean) => !q.inTable && (clean ==> kv == Some(q.submitted))
       case SessionGone(kv, clean, _) => !q.inTable && !q.inSession && (clean ==> kv == Some(q.submitted))
       case Released(kv, clean) => !q.inTable && !q.inSession && (clean ==> kv == Some(q.submitted))
  }

  /** What a request contributes to `registrations - releases`. */
  function Weight(q: Request): nat {
    (if q.inSession then 1 else 0)
      + (if q.caller.Counted? then 1 else 0)
      + (if q.caller.SessionGone? && q.caller.was then 1 else 0)
  }

  function TotalWeight(qs: seq<Request>): nat {
    if qs == [] then 0 else TotalWeight(qs[..|qs| - 1]) + Weight(qs[|qs| - 1])
  }

  ghost predicate Invariant(s: State) {
    && (forall r :: 0 <= r < |s.requests| ==> RequestInvariant(s.requests[r]))
    && s.registrations == s.releases + TotalWeight(s.requests)
  }

  lemma TaskMoveKeeps(q: Request)
    requires RequestInvariant(q)
    ensures RequestInvariant(TaskMove(q)) && Weight(TaskMove(q)) == Weight(q)
  {
  }

  lemma CallerMoveKeeps(q: Request)
    requires RequestInvariant(q)
    ensures RequestInvariant(CallerMove(q))
    ensures Weight(CallerMove(q)) + (if q.caller.SessionGone? && q.caller.was then 1 else 0)
         == Weight(q) + (if q.caller.EntryInserted? then 1 else 0)
  {
  }

  lemma MoveKeeps(q: Request, a: Action)
    requires RequestInvariant(q)
    ensures RequestInvariant(Move(q, a))
    ensures Weight(Move(q, a)) + (if a.Continue? && q.caller.SessionGone? && q.caller.was then 1 else 0)
         == Weight(q) + (if a.Continue? && q.caller.EntryInserted? then 1 else 0)
  {
    if a.RunTask? {
      TaskMoveKeeps(q);
    } else if a.Continue? {
      CallerMoveKeeps(q);
    }
  }

  lemma {:induction false} WeightAfterUpdate(qs: seq<Request>, r: nat, q: Request)
    requires r < |qs|
    ensures TotalWeight(qs[r := q]) + Weight(qs[r]) == TotalWeight(qs) + Weight(q)
  {
    var n := |qs| - 1;
    if r == n {
      assert qs[r := q][..n] == qs[..n];
    } else {
      assert qs[r := q][..n] == qs[..n][r := q];
      WeightAfterUpdate(qs[..n], r, q);
    }
  }

  lemma RegisterKeeps(s: State)
    requires Invariant(s)
    ensures Invariant(Step(s, Register))
  {
    FreshIsValid(s.next);
    hide RequestInvariant, Weight;
    assert (s.requests + [Fresh(s.next)])[..|s.requests|] == s.requests;
  }

  lemma StepKeeps(s: State, a: Action)
    requires Invariant(s)
    ensures Invariant(Step(s, a))
  {
    hide RequestInvariant, Weight, Move, TotalWeight;
    if a.Register? {
      RegisterKeeps(s);
    } else if a.r < |s.requests| {
      MoveKeeps(s.requests[a.r], a);
      WeightAfterUpdate(s.requests, a.r, Move(s.requests[a.r], a));
    }
  }

  lemma FreshIsValid(id: nat)
    ensures RequestInvariant(Fresh(id)) && Weight(Fresh(id)) == 0
  {
  }

  lemma {:induction false} RunKeeps(s: State, schedule: seq<Action>)
    requires Invariant(s)
    ensures Invariant(Run(s, schedule))
    decreases |schedule|
  {
    hide Invariant, Step;
    if schedule != [] {
      StepKeeps(s, schedule[0]);
      RunKeeps(Step(s, schedule[0]), schedule[1..]);
    }
  }

  /** Every request of every reachable state satisfies its invariant. */
  lemma Reachable(schedule: seq<Action>, r: nat)
    requires r < |Run(Start, schedule).requests|
    ensures RequestInvariant(Run(Start, schedule).requests[r])
  {
    hide Run, RequestInvariant;
    RunKeeps(Start, schedule);
  }

  // ----- Main results

  /** Reply-then-release: in every interleaving, a release that started after the caller had received its
      last reply returns the KV cache with exactly the submitted operations applied, in order. */
  lemma ReleaseAfterReplyReturnsKv(schedule: seq<Action>, r: nat)
    requires r < |Run(Start, schedule).requests|
    ensures var q := Run(Start, schedule).requests[r];
      q.caller.Released? && q.caller.clean ==> q.caller.kv == Some(q.submitted)
  {
    hide Run;
    Reachable(schedule, r);
  }

  // ----- One request inside a schedule

  lemma {:induction false} RunConcat(s: State, a: seq<Action>, b: seq<Action>)
    ensures Run(s, a + b) == Run(Run(s, a), b)
    decreases |a|
  {
    if a == [] {
      assert a + b == b;
    } else {
      assert (a + b)[1..] == a[1..] + b;
      RunConcat(Step(s, a[0]), a[1..], b);
    }
  }

  /** The schedule starts no further release of request `r`. */
  predicate NoRelease(schedule: seq<Action>, r: nat) {
    forall i :: 0 <= i < |schedule| ==> schedule[i] != Release(r)
  }

  /** How often the caller of request `r` moves on. */
  function Continues(schedule: seq<Action>, r: nat): nat {
    if schedule == [] then 0 else (if schedule[0] == Continue(r) then 1 else 0) + Continues(schedule[1..], r)
  }

  /** How many accesses of a release are still to come. */
  function ToCome(c: Caller): nat {
    match c case Removed(_, _) => 3 case Unwrapped(_, _) => 2 case SessionGone(_, _, _) => 1 case _ => 0
  }

  predicate Releasing(c: Caller) { c.Removed? || c.Unwrapped? || c.SessionGone? || c.Released? }

  predicate IsClean(c: Caller)
    requires Releasing(c)
  {
    c.clean
  }

  lemma ReleasingStep(q: Request, a: Action)
    requires Releasing(q.caller) && !a.Release?
    ensures var q' := Move(q, a);
      && Releasing(q'.caller) && IsClean(q'.caller) == IsClean(q.caller) && q'.submitted == q.submitted
      && ToCome(q'.caller) == if a.Continue? then Decrement(ToCome(q.caller)) else ToCome(q.caller)
  {
  }

  /** A release in progress stays in progress whatever happens, moves on with its own accesses only, and
      changes nothing of what was submitted. */
  lemma {:induction false} ReleasingRun(s: State, schedule: seq<Action>, r: nat)
    requires r < |s.requests| && Releasing(s.requests[r].caller) && NoRelease(schedule, r)
    ensures r < |Run(s, schedule).requests|
    ensures var q, q' := s.requests[r], Run(s, schedule).requests[r];
      && Releasing(q'.caller) && IsClean(q'.caller) == IsClean(q.caller) && q'.submitted == q.submitted
      && ToCome(q'.caller) == if Continues(schedule, r) < ToCome(q.caller) then ToCome(q.caller) - Continues(schedule, r) else 0
    decreases |schedule|
  {
    hide Move, Releasing, IsClean, ToCome;
    if schedule != [] {
      var a := schedule[0];
      if !a.Register? && a.r == r {
        ReleasingStep(s.requests[r], a);
      }
      ReleasingRun(Step(s, a), schedule[1..], r);
    }
  }

  /** A caller that holds its reply gets the cache back: once its release has begun, three accesses of its own
      complete it with exactly the submitted operations, whatever happens before, between and after them. */
  lemma ReadyCanRelease(schedule: seq<Action>, r: nat, more: seq<Action>)
    requires r < |Run(Start, schedule).requests| && Run(Start, schedule).requests[r].caller.Ready?
    requires NoRelease(more, r) && Continues(more, r) >= 3
    ensures var s := Run(Start, schedule + [Release(r)] + more);
      && r < |s.requests|
      && s.requests[r].caller == Released(Some(Run(Start, schedule).requests[r].submitted), true)
  {
    hide Run;
    var s := Run(Start, schedule);
    var s1 := ReleaseBegins(s, schedule, r);
    RunConcat(Start, schedule + [Release(r)], more);
    ReleasingRun(s1, more, r);
    ReleaseAfterReplyReturnsKv(schedule + [Release(r)] + more, r);
  }

  lemma ReleaseBegins(s: State, schedule: seq<Action>, r: nat) returns (s1: State)
    requires s == Run(Start, schedule) && r < |s.requests| && CanRelease(s.requests[r])
    ensures s1 == Run(Start, schedule + [Release(r)]) == Step(s, Release(r)) && |s1.requests| == |s.requests|
    ensures s1.requests[r] == Move(s.requests[r], Release(r))
  {
    RunConcat(Start, schedule, [Release(r)]);
    s1 := Step(s, Release(r));
    assert [Release(r)][1..] == [];
    assert Run(s1, []) == s1;
  }

  // ----- A submitted step is run and answered

  /** The caller of request `r` only waits: it neither gives up nor submits or releases anything. */
  predicate OnlyWaits(schedule: seq<Action>, r: nat) {
    forall i :: 0 <= i < |schedule| && (schedule[i].Submit? || schedule[i].Abandon? || schedule[i].Release?) ==>
      schedule[i].r != r
  }

  /** How often request `r`'s task moves on. */
  function TaskMoves(schedule: seq<Action>, r: nat): nat {
    if schedule == [] then 0 else (if schedule[0] == RunTask(r) then 1 else 0) + TaskMoves(schedule[1..], r)
  }

  /** How many accesses of a task are still to come. */
  function TaskToCome(t: Task): nat {
    match t
    case Queued(_) => 5 case Holding(_) => 4 case Running(_) => 3 case Finished => 2 case Dropped => 1 case NoTask => 0
  }

  ghost predicate Answering(q: Request) {
    q.inTable && !q.detached && q.caller == if q.task.NoTask? then Ready else Waiting
  }

  lemma AnsweringStep(q: Request, a: Action)
    requires Answering(q) && !a.Submit? && !a.Abandon? && !a.Release?
    ensures var q' := Move(q, a);
      && Answering(q') && q'.kv + Outstanding(q'.task) == q.kv + Outstanding(q.task) && q'.submitted == q.submitted
      && TaskToCome(q'.task) == if a.RunTask? then Decrement(TaskToCome(q.task)) else TaskToCome(q.task)
  {
  }

  lemma {:induction false} AnsweringRun(s: State, schedule: seq<Action>, r: nat)
    requires r < |s.requests| && Answering(s.requests[r]) && OnlyWaits(schedule, r)
    ensures r < |Run(s, schedule).requests|
    ensures var q, q' := s.requests[r], Run(s, schedule).requests[r];
      && Answering(q') && q'.kv + Outstanding(q'.task) == q.kv + Outstanding(q.task) && q'.submitted == q.submitted
      && TaskToCome(q'.task) ==
           if TaskMoves(schedule, r) < TaskToCome(q.task) then TaskToCome(q.task) - TaskMoves(schedule, r) else 0
    decreases |schedule|
  {
    hide Move, Answering, Outstanding, TaskToCome;
    if schedule != [] {
      var a := schedule[0];
      if !a.Register? && a.r == r {
        AnsweringStep(s.requests[r], a);
      }
      AnsweringRun(Step(s, a), schedule[1..], r);
    }
  }

  /** Progress: five accesses of its task run a submitted operation exactly once on the cache and answer the
      caller, whatever the rest of the system does meanwhile. */
  lemma StepIsAnswered(schedule: seq<Action>, r: nat, op: Operation, more: seq<Action>)
    requires r < |Run(Start, schedule).requests| && Run(Start, schedule).requests[r].caller.Ready?
    requires OnlyWaits(more, r) && TaskMoves(more, r) >= 5
    ensures var q, s := Run(Start, schedule).requests[r], Run(Step(Run(Start, schedule), Submit(r, op)), more);
      && r < |s.requests| && s.requests[r].caller.Ready? && s.requests[r].task.NoTask?
      && s.requests[r].kv == q.kv + [op] && s.requests[r].submitted == q.submitted + [op]
  {
    hide Run, OnlyWaits, TaskMoves;
    Reachable(schedule, r);
    AnsweringRun(Step(Run(Start, schedule), Submit(r, op)), more, r);
  }

  /** From every reachable state a released request's task and helper can run to their end, and then
      nothing refers to its entry. */
  lemma LeftoversFinish(schedule: seq<Action>, r: nat) returns (more: seq<Action>)
    requires r < |Run(Start, schedule).requests| && Run(Start, schedule).requests[r].caller.Released?
    ensures forall i :: 0 <= i < |more| ==> more[i] == RunTask(r) || more[i] == RunDetached(r)
    ensures var s := Run(Start, schedule + more);
      && r < |s.requests| && s.requests[r].task.NoTask? && !s.requests[r].detached && s.requests[r].strong == 0
  {
    hide Run;
    var s := Run(Start, schedule);
    more := TaskFinishes(s, r);
    RunConcat(Start, schedule, more);
    var s1, path := Run(s, more), schedule + more;
    more := more + [RunDetached(r)];
    assert schedule + more == path + [RunDetached(r)];
    RunConcat(Start, path, [RunDetached(r)]);
    RunOne(s1, RunDetached(r));
    NothingLeaks(path + [RunDetached(r)], r);
  }

  lemma {:induction false} TaskFinishes(s: State, r: nat) returns (more: seq<Action>)
    requires r < |s.requests| && s.requests[r].caller.Released?
    ensures forall i :: 0 <= i < |more| ==> more[i] == RunTask(r)
    ensures r < |Run(s, more).requests| && Run(s, more).requests[r].task.NoTask?
    ensures Run(s, more).requests[r].caller == s.requests[r].caller
    decreases TaskToCome(s.requests[r].task)
  {
    more := [];
    if !s.requests[r].task.NoTask? {
      var rest := TaskFinishes(Step(s, RunTask(r)), r);
      more := [RunTask(r)] + rest;
      assert more[1..] == rest;
    }
  }

  /** No leak: once a released request has no task and no helper, nothing refers to its entry. */
  lemma NothingLeaks(schedule: seq<Action>, r: nat)
    requires r < |Run(Start, schedule).requests|
    ensures var q := Run(Start, schedule).requests[r];
      q.caller.Released? && q.task.NoTask? && !q.detached ==> q.strong == 0
  {
    hide Run;
    Reachable(schedule, r);
  }

  /** From every reachable state in which a caller holds its reply, and for every operation: submitting it,
      giving up while the step holds the entry and releasing at once returns nothing. */
  lemma AbandonedReleaseMayFail(schedule: seq<Action>, r: nat, op: Operation) returns (before: seq<Action>, after: seq<Action>)
    requires r < |Run(Start, schedule).requests| && Run(Start, schedule).requests[r].caller.Ready?
    ensures var s := Run(Step(Run(Start, schedule), Submit(r, op)), before);
      && r < |s.requests| && s.requests[r].caller.Abandoned? && NoRelease(after, r)
      && var s' := Run(Step(s, Release(r)), after);
         r < |s'.requests| && s'.requests[r].caller == Released(None, false)
  {
    hide Run;
    Reachable(schedule, r);
    before, after := [RunTask(r), Abandon(r)], [Continue(r), Continue(r), Continue(r)];
    var s := Step(Run(Start, schedule), Submit(r, op));
    RunTwo(s, before);
    var given := Run(s, before);
    assert given.requests[r].strong == 2 && given.requests[r].caller.Abandoned?;
    RunThree(Step(given, Release(r)), after);
  }

  lemma RunTwo(s: State, schedule: seq<Action>)
    requires |schedule| == 2
    ensures Run(s, schedule) == Step(Step(s, schedule[0]), schedule[1])
  {
    hide Step;
    var s1 := Step(s, schedule[0]);
    var s2 := Step(s1, schedule[1]);
    assert schedule[1..][0] == schedule[1];
    assert Run(s2, schedule[1..][1..]) == s2;
    assert Run(s1, schedule[1..]) == s2;
  }

  lemma RunThree(s: State, schedule: seq<Action>)
    requires |schedule| == 3
    ensures Run(s, schedule) == Step(Step(Step(s, schedule[0]), schedule[1]), schedule[2])
  {
    hide Step;
    RunTwo(Step(s, schedule[0]), schedule[1..]);
  }

  /** A caller that has submitted its last operation does something else for a while (`before`), ends up with
      the reply (`replied`) or having given up, and then releases: whatever happens `after`, a release that
      completes returns everything submitted. */
  ghost predicate GetsAll(s: State, r: nat, replied: bool, before: seq<Action>, after: seq<Action>) {
    var s1 := Run(s, before);
    (r < |s1.requests| && s1.requests[r].caller == (if replied then Ready else Abandoned) && NoRelease(after, r)) ==>
      var s2 := Run(Step(s1, Release(r)), after);
      r < |s2.requests| && (s2.requests[r].caller.Released? ==> s2.requests[r].caller.kv == Some(s2.requests[r].submitted))
  }

  /** For every reachable request and every operation: the release returns everything submitted in every
      interleaving exactly when the caller waited for the reply. */
  lemma ReleaseReturnsAllIffReplied(schedule: seq<Action>, r: nat, op: Operation, replied: bool)
    requires r < |Run(Start, schedule).requests| && Run(Start, schedule).requests[r].caller.Ready?
    ensures (forall before, after :: GetsAll(Step(Run(Start, schedule), Submit(r, op)), r, replied, before, after)) <==> replied
  {
    hide Run, Releasing, IsClean;
    var s := Step(Run(Start, schedule), Submit(r, op));
    if replied {
      forall before, after
        ensures GetsAll(s, r, true, before, after)
      {
        RepliedGetsAll(schedule, r, op, before, after);
      }
    } else {
      var before, after := AbandonedReleaseMayFail(schedule, r, op);
      assert !GetsAll(s, r, false, before, after);
    }
  }

  lemma RepliedGetsAll(schedule: seq<Action>, r: nat, op: Operation, before: seq<Action>, after: seq<Action>)
    ensures GetsAll(Step(Run(Start, schedule), Submit(r, op)), r, true, before, after)
  {
    hide Run;
    var submit: seq<Action> := [Submit(r, op)];
    var path := schedule + submit + before;
    RunConcat(Start, schedule, submit);
    RunOne(Run(Start, schedule), submit[0]);
    RunConcat(Start, schedule + submit, before);
    var s1 := Run(Start, path);
    if r < |s1.requests| && s1.requests[r].caller.Ready? && NoRelease(after, r) {
      var s2 := ReleaseBegins(s1, path, r);
      RunConcat(Start, path + [Release(r)], after);
      ReleasingRun(s2, after, r);
      ReleaseAfterReplyReturnsKv(path + [Release(r)] + after, r);
    }
  }

  lemma RunOne(s: State, a: Action)
    ensures Run(s, [a]) == Step(s, a)
  {
    assert [a][1..] == [];
    assert Run(Step(s, a), []) == Step(s, a);
  }

  ghost function LiveSessions(qs: seq<Request>): nat {
    if qs == [] then 0 else LiveSessions(qs[..|qs| - 1]) + if qs[|qs| - 1].inSession then 1 else 0
  }

  /** No caller is between the two updates of `register` or of `release` that move a counter. */
  ghost predicate BetweenCalls(qs: seq<Request>) {
    forall r :: 0 <= r < |qs| ==> !qs[r].caller.Counted? && !qs[r].caller.SessionGone?
  }

  lemma {:induction false} QuietWeight(qs: seq<Request>)
    requires BetweenCalls(qs)
    ensures TotalWeight(qs) == LiveSessions(qs)
  {
    if qs != [] {
      QuietWeight(qs[..|qs| - 1]);
    }
  }

  lemma StartIsValid()
    ensures Invariant(Start)
  {
  }

  lemma BalanceAt(s: State)
    requires Invariant(s) && BetweenCalls(s.requests)
    ensures s.registrations == s.releases + LiveSessions(s.requests)
  {
    QuietWeight(s.requests);
  }

  /** Between calls, registrations equal releases plus live sessions. */
  lemma CountersBalance(schedule: seq<Action>)
    requires BetweenCalls(Run(Start, schedule).requests)
    ensures Run(Start, schedule).registrations
         == Run(Start, schedule).releases + LiveSessions(Run(Start, schedule).requests)
  {
    hide Run, Invariant, BetweenCalls, LiveSessions;
    StartIsValid();
    RunKeeps(Start, schedule);
    BalanceAt(Run(Start, schedule));
  }

  /** The request's `register` has passed the increment of `registrations_total`. */
  predicate Enrolled(q: Request) { !q.caller.IdTaken? && !q.caller.EntryInserted? }

  function EnrolledCount(qs: seq<Request>): nat {
    if qs == [] then 0 else EnrolledCount(qs[..|qs| - 1]) + if Enrolled(qs[|qs| - 1]) then 1 else 0
  }

  lemma {:induction false} EnrolledAfterUpdate(qs: seq<Request>, r: nat, q: Request)
    requires r < |qs|
    ensures EnrolledCount(qs[r := q]) + (if Enrolled(qs[r]) then 1 else 0) == EnrolledCount(qs) + if Enrolled(q) then 1 else 0
  {
    var n := |qs| - 1;
    if r == n {
      assert qs[r := q][..n] == qs[..n];
    } else {
      assert qs[r := q][..n] == qs[..n][r := q];
      EnrolledAfterUpdate(qs[..n], r, q);
    }
  }

  lemma MoveEnrols(q: Request, a: Action)
    ensures (if Enrolled(Move(q, a)) then 1 else 0)
         == (if Enrolled(q) then 1 else 0) + if a.Continue? && q.caller.EntryInserted? then 1 else 0
  {
    if a.RunTask? {
      assert Enrolled(TaskMove(q)) == Enrolled(q);
    }
  }

  lemma {:induction false} RunEnrols(s: State, schedule: seq<Action>)
    requires s.registrations == EnrolledCount(s.requests)
    ensures Run(s, schedule).registrations == EnrolledCount(Run(s, schedule).requests)
    decreases |schedule|
  {
    hide Move, Enrolled;
    if schedule != [] {
      var a := schedule[0];
      if a.Register? {
        FreshIsNotEnrolled(s.next);
        assert (s.requests + [Fresh(s.next)])[..|s.requests|] == s.requests;
      } else if a.r < |s.requests| {
        MoveEnrols(s.requests[a.r], a);
        EnrolledAfterUpdate(s.requests, a.r, Move(s.requests[a.r], a));
      }
      RunEnrols(Step(s, a), schedule[1..]);
    }
  }

  lemma FreshIsNotEnrolled(id: nat)
    ensures !Enrolled(Fresh(id))
  {
  }

  /** The registration counter counts the requests that have registered, each once, and a request has a session
      from its registration until its release. */
  lemma RegistrationsAreCounted(schedule: seq<Action>)
    ensures var s := Run(Start, schedule);
      && s.registrations == EnrolledCount(s.requests)
      && forall r :: 0 <= r < |s.requests| ==> ListedWhileHeld(s.requests[r])
  {
    hide Run, EnrolledCount, ListedWhileHeld, RequestInvariant;
    NobodyEnrolled();
    RunEnrols(Start, schedule);
    var s := Run(Start, schedule);
    forall r | 0 <= r < |s.requests|
      ensures ListedWhileHeld(s.requests[r])
    {
      Reachable(schedule, r);
      InvariantLists(s.requests[r]);
    }
  }

  /** A registered request is in the table and has a session; before and after it is in neither. */
  predicate ListedWhileHeld(q: Request) {
    && (q.caller.Ready? || q.caller.Waiting? || q.caller.Abandoned? ==> q.inSession && q.inTable)
    && (q.caller.IdTaken? || q.caller.Released? ==> !q.inSession && !q.inTable)
  }

  lemma InvariantLists(q: Request)
    requires RequestInvariant(q)
    ensures ListedWhileHeld(q)
  {
  }

  lemma NobodyEnrolled()
    ensures Start.registrations == EnrolledCount(Start.requests)
  {
  }

  /** Every registration has the counter's value at its `fetch_add`, and keeps it. */
  ghost predicate Numbered(s: State) {
    && s.next == |s.requests| % U64_SPAN
    && forall r :: 0 <= r < |s.requests| ==> s.requests[r].id == r % U64_SPAN
  }

  lemma NumberedStep(s: State, a: Action)
    requires Numbered(s)
    ensures Numbered(Step(s, a))
  {
    hide CallerMove, TaskMove;
    if a.Continue? && a.r < |s.requests| {
      SameId(s.requests[a.r]);
    } else if a.RunTask? && a.r < |s.requests| {
      SameId(s.requests[a.r]);
    }
  }

  lemma SameId(q: Request)
    ensures CallerMove(q).id == q.id && TaskMove(q).id == q.id
  {
  }

  lemma {:induction false} RunNumbers(s: State, schedule: seq<Action>)
    requires Numbered(s)
    ensures Numbered(Run(s, schedule))
    decreases |schedule|
  {
    hide Numbered, Step;
    if schedule != [] {
      NumberedStep(s, schedule[0]);
      RunNumbers(Step(s, schedule[0]), schedule[1..]);
    }
  }

  /** In every interleaving the registrations have pairwise different ids exactly as long as there are at most
      2^64 of them. */
  lemma IdsAreNeverReused(schedule: seq<Action>)
    ensures var qs := Run(Start, schedule).requests;
      (forall a, b :: 0 <= a < b < |qs| ==> qs[a].id != qs[b].id) <==> |qs| <= U64_SPAN
  {
    hide Run;
    RunNumbers(Start, schedule);
    var qs := Run(Start, schedule).requests;
    if |qs| > U64_SPAN {
      assert qs[0].id == qs[U64_SPAN].id;
    }
  }
}
