/**
 The wait protocol of `BufferPool::acquire` on one list and its `Notify`, as documented: it stores at
 most one permit, `notify_one` wakes the longest parked waiter or else stores the permit, and a
 `notified()` future takes no part in it before its first poll. Any number of acquiring tasks,
 other holders of buffers and droppers run in any interleaving. A future can be dropped only where it is
 suspended: from taking the permit to the next `try_acquire` the code does not yield.
 */
module BufferWakeup {
  import opened Sequences

  /** Where an acquiring task stands. */
  datatype Task =
    | Idle
    | FirstTry       // top of the loop, before `try_acquire`
    | SecondTry      // `notified()` created, before the re-check
    | BeforePoll     // re-check failed, before the first poll of `notified`
    | Parked         // polled without a permit, waiting
    | Woken          // notified, not yet resumed
    | Holding

  /** `free` buffers on the list, `held` by callers outside these tasks, `shadow` buffers of the shadow half
      that promotion may still bring here, `dropping` droppers between their push and their `notify_one`;
      `queue` lists the parked tasks, oldest first. */
  datatype State = State(
    tasks: seq<Task>, free: nat, held: nat, shadow: nat, dropping: nat, permit: bool, queue: seq<nat>)

  datatype Action =
    | Call(t: nat)      // a task calls `acquire`
    | Go(t: nat)        // a task's next step
    | Cancel(t: nat)    // a suspended `acquire` future is dropped
    | Push(t: nat)      // a task drops its buffer: back on the list, notification still to come
    | TakeOther         // someone else succeeds in `try_acquire`
    | PushOther         // someone else drops a buffer
    | Promote           // someone else's shadow guard becomes a primary one
    | NotifyOne         // a dropper reaches `notify_one`

  function Set(s: State, t: nat, task: Task): State
    requires t < |s.tasks|
  {
    s.(tasks := s.tasks[t := task])
  }

  function Without(queue: seq<nat>, t: nat): seq<nat> {
    if queue == [] then [] else (if queue[0] == t then [] else [queue[0]]) + Without(queue[1..], t)
  }

  /** `notify_one` on the shared `Notify`. */
  function Notify(s: State): State {
    if s.queue != [] && s.queue[0] < |s.tasks| then Set(s, s.queue[0], Woken).(queue := s.queue[1..])
    else s.(permit := true)
  }

  function GoStep(s: State, t: nat): State
    requires t < |s.tasks|
  {
    match s.tasks[t]
    case Idle => s
    case FirstTry => if s.free > 0 then Set(s, t, Holding).(free := s.free - 1) else Set(s, t, SecondTry)
    case SecondTry => if s.free > 0 then Set(s, t, Holding).(free := s.free - 1) else Set(s, t, BeforePoll)
    case BeforePoll =>
      if s.permit then Set(s, t, FirstTry).(permit := false) else Set(s, t, Parked).(queue := s.queue + [t])
    case Parked => s
    case Woken => Set(s, t, FirstTry)
    case Holding => s
  }

  function Step(s: State, a: Action): State {
    match a
    case Call(t) => if t < |s.tasks| && s.tasks[t].Idle? then Set(s, t, FirstTry) else s
    case Go(t) => if t < |s.tasks| then GoStep(s, t) else s
    case Cancel(t) =>
      if t < |s.tasks| && s.tasks[t].Woken? then Notify(Set(s, t, Idle))   // an unused wakeup is passed on
      else if t < |s.tasks| && s.tasks[t].Parked? then Set(s, t, Idle).(queue := Without(s.queue, t))
      else s
    case Push(t) =>
      if t < |s.tasks| && s.tasks[t].Holding? then
        Set(s, t, Idle).(free := s.free + 1, dropping := s.dropping + 1)
      else s
    case TakeOther => if s.free > 0 then s.(free := s.free - 1, held := s.held + 1) else s
    case PushOther =>
      if s.held > 0 then s.(held := s.held - 1, free := s.free + 1, dropping := s.dropping + 1) else s
    case Promote => if s.shadow > 0 then s.(shadow := s.shadow - 1, held := s.held + 1) else s
    case NotifyOne => if s.dropping > 0 then Notify(s.(dropping := s.dropping - 1)) else s
  }

  /** `slots` buffers on the list and `shadow` in the shadow half. */
  function Start(tasks: nat, slots: nat, shadow: nat): State {
    State(seq(tasks, _ => Idle), slots, 0, shadow, 0, false, [])
  }

  function Run(s: State, schedule: seq<Action>): State
    decreases |schedule|
  {
    if schedule == [] then s else Run(Step(s, schedule[0]), schedule[1..])
  }

  /** A parked, un-notified waiter next to a free buffer means a dropper has yet to notify. */
  ghost predicate DropperIsComing(s: State) {
    (exists t :: 0 <= t < |s.tasks| && s.tasks[t].Parked?) && s.free > 0 ==> s.dropping > 0
  }

  /** A task is parked next to a free buffer and nothing in flight will wake it: no dropper has yet to notify,
      and every other task is idle, parked or holds a buffer. */
  ghost predicate Stuck(s: State, t: nat) {
    && t < |s.tasks| && s.tasks[t].Parked? && s.free > 0 && s.dropping == 0
    && (forall i :: 0 <= i < |s.tasks| ==> s.tasks[i].Idle? || s.tasks[i].Parked? || s.tasks[i].Holding?)
  }

  // ----- The queue and the buffers

  /** The queue lists exactly the parked tasks, each once, and a stored permit means nobody is parked. */
  ghost predicate QueueFits(s: State) {
    && Distinct(s.queue)
    && (forall i :: 0 <= i < |s.queue| ==> s.queue[i] < |s.tasks| && s.tasks[s.queue[i]].Parked?)
    && (forall t :: 0 <= t < |s.tasks| && s.tasks[t].Parked? ==> t in s.queue)
    && (s.permit ==> s.queue == [])
  }

  function Holders(tasks: seq<Task>): nat {
    if tasks == [] then 0 else Holders(tasks[..|tasks| - 1]) + if tasks[|tasks| - 1].Holding? then 1 else 0
  }

  lemma {:induction false} HoldersAfter(tasks: seq<Task>, t: nat, task: Task)
    requires t < |tasks|
    ensures Holders(tasks[t := task]) + (if tasks[t].Holding? then 1 else 0) == Holders(tasks) + if task.Holding? then 1 else 0
  {
    var n := |tasks| - 1;
    if t == n {
      assert tasks[t := task][..n] == tasks[..n];
    } else {
      assert tasks[t := task][..n] == tasks[..n][t := task];
      HoldersAfter(tasks[..n], t, task);
    }
  }

  lemma {:induction false} WithoutIs(queue: seq<nat>, t: nat)
    requires Distinct(queue)
    ensures Distinct(Without(queue, t)) && forall x :: x in Without(queue, t) <==> x in queue && x != t
  {
    if queue != [] {
      assert queue == [queue[0]] + queue[1..];
      WithoutIs(queue[1..], t);
      assert queue[0] !in queue[1..];
    }
  }

  /** The buffers of the list and of the shadow half: free, with other holders, with a task or shadow. */
  function Buffers(s: State): nat { s.free + s.held + s.shadow + Holders(s.tasks) }

  /** Buffers are never created or lost. */
  ghost predicate Conserves(s: State, s': State) { |s'.tasks| == |s.tasks| && Buffers(s') == Buffers(s) }

  lemma NotifyFits(s: State)
    requires QueueFits(s)
    ensures QueueFits(Notify(s)) && Conserves(s, Notify(s))
  {
    if s.queue != [] {
      HoldersAfter(s.tasks, s.queue[0], Woken);
      var s' := Notify(s);
      assert s.queue == [s.queue[0]] + s.queue[1..];
      forall t | 0 <= t < |s'.tasks| && s'.tasks[t].Parked?
        ensures t in s'.queue
      {
        assert t in s.queue;
      }
    }
  }

  /** A task other than a parked one changes its state. */
  lemma SetFits(s: State, t: nat, task: Task)
    requires QueueFits(s) && t < |s.tasks| && !s.tasks[t].Parked? && !task.Parked?
    ensures QueueFits(Set(s, t, task))
  {
  }

  lemma ParkFits(s: State, t: nat)
    requires QueueFits(s) && t < |s.tasks| && !s.tasks[t].Parked? && !s.permit
    ensures QueueFits(Set(s, t, Parked).(queue := s.queue + [t]))
  {
    assert t !in s.queue;
  }

  lemma CancelFits(s: State, t: nat)
    requires QueueFits(s) && t < |s.tasks| && s.tasks[t].Parked?
    ensures QueueFits(Set(s, t, Idle).(queue := Without(s.queue, t)))
  {
    WithoutIs(s.queue, t);
    var s' := Set(s, t, Idle).(queue := Without(s.queue, t));
    forall i | 0 <= i < |s'.queue|
      ensures s'.queue[i] < |s'.tasks| && s'.tasks[s'.queue[i]].Parked?
    {
      assert s'.queue[i] in s'.queue;
    }
  }

  lemma StepFits(s: State, a: Action)
    requires QueueFits(s)
    ensures QueueFits(Step(s, a)) && Conserves(s, Step(s, a))
  {
    hide QueueFits, Holders, Without, Notify;
    match a
    case Call(t) =>
      if t < |s.tasks| && s.tasks[t].Idle? {
        SetFits(s, t, FirstTry);
        HoldersAfter(s.tasks, t, FirstTry);
      }
    case Go(t) =>
      if t < |s.tasks| {
        GoFits(s, t);
      }
    case Cancel(t) =>
      if t < |s.tasks| && s.tasks[t].Woken? {
        SetFits(s, t, Idle);
        HoldersAfter(s.tasks, t, Idle);
        NotifyFits(Set(s, t, Idle));
      } else if t < |s.tasks| && s.tasks[t].Parked? {
        CancelFits(s, t);
        HoldersAfter(s.tasks, t, Idle);
      }
    case Push(t) =>
      if t < |s.tasks| && s.tasks[t].Holding? {
        SetFits(s, t, Idle);
        HoldersAfter(s.tasks, t, Idle);
        SameQueue(Set(s, t, Idle), Step(s, a));
      }
    case TakeOther => SameQueue(s, Step(s, a));
    case PushOther => SameQueue(s, Step(s, a));
    case Promote => SameQueue(s, Step(s, a));
    case NotifyOne =>
      if s.dropping > 0 {
        SameQueue(s, s.(dropping := s.dropping - 1));
        NotifyFits(s.(dropping := s.dropping - 1));
      }
  }

  lemma SameQueue(s: State, s': State)
    requires QueueFits(s) && s'.tasks == s.tasks && s'.queue == s.queue && (s'.permit ==> s.permit)
    ensures QueueFits(s')
  {
  }

  lemma GoFits(s: State, t: nat)
    requires QueueFits(s) && t < |s.tasks|
    ensures QueueFits(GoStep(s, t)) && Conserves(s, GoStep(s, t))
  {
    hide QueueFits, Holders;
    var s' := GoStep(s, t);
    if s'.tasks != s.tasks {
      HoldersAfter(s.tasks, t, s'.tasks[t]);
      if s.tasks[t].BeforePoll? && !s.permit {
        ParkFits(s, t);
      } else {
        assert !s.tasks[t].Parked?;
        SetFits(s, t, s'.tasks[t]);
        SameQueue(Set(s, t, s'.tasks[t]), s');
      }
    }
  }

  // ----- Who will wake a waiter

  /** The task is between two polls and will look at the list again. */
  predicate Active(task: Task) { task.FirstTry? || task.SecondTry? || task.Woken? }

  predicate Waits(task: Task) { task.BeforePoll? || task.Parked? }

  /** Whoever waits next to a free buffer will be seen to: by a dropper, a stored permit or an active task. */
  ghost predicate Attended(s: State) {
    (s.free > 0 && exists t :: 0 <= t < |s.tasks| && Waits(s.tasks[t])) ==>
      (s.dropping > 0 || s.permit || exists t :: 0 <= t < |s.tasks| && Active(s.tasks[t]))
  }

  /** One buffer, or one task: the taker of a buffer leaves none behind, or nobody waiting. */
  predicate Small(s: State) { |s.tasks| <= 1 || Buffers(s) <= 1 }

  lemma NotifyAttends(s: State)
    requires QueueFits(s)
    ensures Attended(Notify(s))
  {
    var s' := Notify(s);
    if s.queue != [] {
      assert Active(s'.tasks[s.queue[0]]);
    }
  }

  lemma OthersStay(s: State, t: nat, task: Task)
    requires t < |s.tasks| && Attended(s)
    requires Active(task) || (!Active(s.tasks[t]) && (Waits(task) ==> Waits(s.tasks[t])))
    ensures Attended(Set(s, t, task))
  {
    var s' := Set(s, t, task);
    if Active(task) {
      assert Active(s'.tasks[t]);
    } else if s'.free > 0 && exists i :: 0 <= i < |s'.tasks| && Waits(s'.tasks[i]) {
      var i :| 0 <= i < |s'.tasks| && Waits(s'.tasks[i]);
      assert Waits(s.tasks[i]);
      if !(s.dropping > 0 || s.permit) {
        var j :| 0 <= j < |s.tasks| && Active(s.tasks[j]);
        assert Active(s'.tasks[j]);
      }
    }
  }

  lemma GoAttends(s: State, t: nat)
    requires QueueFits(s) && Attended(s) && Small(s) && t < |s.tasks|
    ensures Attended(GoStep(s, t))
  {
    var s' := GoStep(s, t);
    match s.tasks[t]
    case FirstTry =>
      if s.free == 0 {
        assert Active(s'.tasks[t]);
      }
    case SecondTry =>
    case BeforePoll =>
      if s.permit {
        assert Active(s'.tasks[t]);
      } else {
        OthersStay(s, t, Parked);
        var parked := Set(s, t, Parked);
        assert s'.tasks == parked.tasks && s'.free == parked.free && s'.dropping == parked.dropping;
      }
    case Woken => assert Active(s'.tasks[t]);
    case _ =>
  }

  lemma StepAttends(s: State, a: Action)
    requires QueueFits(s) && Attended(s) && Small(s)
    ensures Attended(Step(s, a))
  {
    hide Holders, QueueFits;
    match a
    case Call(t) =>
      if t < |s.tasks| && s.tasks[t].Idle? {
        assert Active(Step(s, a).tasks[t]);
      }
    case Go(t) =>
      if t < |s.tasks| {
        GoAttends(s, t);
      }
    case Cancel(t) =>
      if t < |s.tasks| && s.tasks[t].Woken? {
        SetFits(s, t, Idle);
        NotifyAttends(Set(s, t, Idle));
      } else if t < |s.tasks| && s.tasks[t].Parked? {
        OthersStay(s, t, Idle);
        var s', idle := Step(s, a), Set(s, t, Idle);
        assert s'.tasks == idle.tasks && s'.free == idle.free && s'.dropping == idle.dropping && s'.permit == idle.permit;
      }
    case Push(t) =>
    case TakeOther =>
    case PushOther =>
    case Promote =>
    case NotifyOne =>
      if s.dropping > 0 {
        SameQueue(s, s.(dropping := s.dropping - 1));
        NotifyAttends(s.(dropping := s.dropping - 1));
      }
  }

  lemma {:induction false} RunAttends(s: State, schedule: seq<Action>)
    requires QueueFits(s) && Attended(s) && Small(s)
    ensures QueueFits(Run(s, schedule)) && Attended(Run(s, schedule)) && |Run(s, schedule).tasks| == |s.tasks|
    decreases |schedule|
  {
    hide QueueFits, Attended, Step, Holders;
    if schedule != [] {
      StepFits(s, schedule[0]);
      StepAttends(s, schedule[0]);
      RunAttends(Step(s, schedule[0]), schedule[1..]);
    }
  }

  /** A waiter that is attended to is not stuck. */
  lemma AttendedIsNotStuck(s: State, t: nat)
    requires QueueFits(s) && Attended(s)
    ensures !Stuck(s, t)
  {
    if Stuck(s, t) {
      assert Waits(s.tasks[t]);
    }
  }

  lemma StartIsAttended(tasks: nat, slots: nat, shadow: nat)
    ensures var s := Start(tasks, slots, shadow); QueueFits(s) && Attended(s) && Buffers(s) == slots + shadow
  {
    NoHolders(Start(tasks, slots, shadow).tasks);
  }

  lemma {:induction false} NoHolders(tasks: seq<Task>)
    requires forall t :: 0 <= t < |tasks| ==> tasks[t].Idle?
    ensures Holders(tasks) == 0
  {
    if tasks != [] {
      NoHolders(tasks[..|tasks| - 1]);
    }
  }

  /** With one task nobody else can take the wakeup: a free buffer beside the parked task means that a dropper
      stands between its push and its `notify_one`. */
  lemma OneTaskIsNotified(tasks: nat, slots: nat, shadow: nat, schedule: seq<Action>)
    requires tasks <= 1
    ensures DropperIsComing(Run(Start(tasks, slots, shadow), schedule))
  {
    hide Run, Holders;
    StartIsAttended(tasks, slots, shadow);
    RunAttends(Start(tasks, slots, shadow), schedule);
    var s := Run(Start(tasks, slots, shadow), schedule);
    if t :| 0 <= t < |s.tasks| && s.tasks[t].Parked? {
      assert Waits(s.tasks[t]);
      assert forall i :: 0 <= i < |s.tasks| ==> !Active(s.tasks[i]);
    }
  }

  // ----- Two acquiring tasks and two buffers

  function Repeat(a: Action, n: nat): seq<Action> {
    if n == 0 then [] else [a] + Repeat(a, n - 1)
  }

  lemma {:induction false} RunConcat(s: State, a: seq<Action>, b: seq<Action>)
    ensures Run(s, a + b) == Run(Run(s, a), b)
    decreases |a|
  {
    if a == [] {
      assert a + b == b;
    } else {
      assert (a + b)[1..] == a[1..] + b;
      RunConcat(Step(s, a[0]), a[1..], b);
    }
  }

  lemma {:induction false} Drain(s: State)
    ensures Run(s, Repeat(TakeOther, s.free)) == s.(free := 0, held := s.held + s.free)
    decreases s.free
  {
    if s.free > 0 {
      assert Repeat(TakeOther, s.free)[1..] == Repeat(TakeOther, s.free - 1);
      Drain(Step(s, TakeOther));
    }
  }

  lemma {:induction false} PromoteAll(s: State)
    ensures Run(s, Repeat(Promote, s.shadow)) == s.(shadow := 0, held := s.held + s.shadow)
    decreases s.shadow
  {
    if s.shadow > 0 {
      assert Repeat(Promote, s.shadow)[1..] == Repeat(Promote, s.shadow - 1);
      PromoteAll(Step(s, Promote));
    }
  }

  /** Tasks 0 and 1 both find the list empty twice and stop before their first poll. */
  const BothWait: seq<Action> := [Call(0), Go(0), Go(0), Call(1), Go(1), Go(1)]

  /** Two buffers are returned; both notifications find nobody parked and leave a single permit. */
  const TwoReturns: seq<Action> := [PushOther, PushOther, NotifyOne, NotifyOne]

  /** Task 0 uses the permit and takes one buffer; task 1 parks next to the other. */
  const OneParks: seq<Action> := [Go(0), Go(0), Go(1)]

  lemma RunBothWait(s: State)
    requires |s.tasks| >= 2 && s.free == 0 && s.tasks[0].Idle? && s.tasks[1].Idle?
    ensures Run(s, BothWait) == s.(tasks := s.tasks[0 := BeforePoll][1 := BeforePoll])
  {
    var r := BothWait;
    var s1 := Step(s, r[0]);
    var s2 := Step(s1, r[1]);
    var s3 := Step(s2, r[2]);
    assert s3 == s.(tasks := s.tasks[0 := BeforePoll]);
    var s4 := Step(s3, r[3]);
    var s5 := Step(s4, r[4]);
    var s6 := Step(s5, r[5]);
    assert s6 == s3.(tasks := s3.tasks[1 := BeforePoll]);
    assert Run(s6, r[1..][1..][1..][1..][1..][1..]) == s6;
    assert Run(s5, r[1..][1..][1..][1..][1..]) == s6;
    assert Run(s4, r[1..][1..][1..][1..]) == s6;
    assert Run(s3, r[1..][1..][1..]) == s6;
    assert Run(s2, r[1..][1..]) == s6;
    assert Run(s1, r[1..]) == s6;
  }

  lemma RunTwoReturns(s: State)
    requires s.free == 0 && s.held >= 2 && s.dropping == 0 && s.queue == []
    ensures Run(s, TwoReturns) == s.(free := 2, held := s.held - 2, permit := true)
  {
    var r := TwoReturns;
    var s1 := Step(s, r[0]);
    var s2 := Step(s1, r[1]);
    var s3 := Step(s2, r[2]);
    var s4 := Step(s3, r[3]);
    assert Run(s4, r[1..][1..][1..][1..]) == s4;
    assert Run(s3, r[1..][1..][1..]) == s4;
    assert Run(s2, r[1..][1..]) == s4;
    assert Run(s1, r[1..]) == s4;
  }

  lemma RunOneParks(s: State)
    requires |s.tasks| >= 2 && s.permit && s.queue == [] && s.free == 2
    requires s.tasks[0].BeforePoll? && s.tasks[1].BeforePoll?
    ensures Run(s, OneParks) == s.(tasks := s.tasks[0 := Holding][1 := Parked], free := 1, permit := false, queue := [1])
  {
    var r := OneParks;
    var s1 := Step(s, r[0]);
    var s2 := Step(s1, r[1]);
    assert s2 == s.(tasks := s.tasks[0 := Holding], free := 1, permit := false);
    var s3 := Step(s2, r[2]);
    assert Run(s3, r[1..][1..][1..]) == s3;
    assert Run(s2, r[1..][1..]) == s3;
    assert Run(s1, r[1..]) == s3;
  }

  /** Every shadow buffer is promoted and the list is emptied. */
  lemma AllTaken(s: State) returns (schedule: seq<Action>)
    ensures Run(s, schedule) == s.(free := 0, held := s.held + s.shadow + s.free, shadow := 0)
  {
    var promote, take := Repeat(Promote, s.shadow), Repeat(TakeOther, s.free);
    schedule := promote + take;
    PromoteAll(s);
    Drain(s.(shadow := 0, held := s.held + s.shadow));
    RunConcat(s, promote, take);
  }

  lemma StrandedAfter(s: State) returns (schedule: seq<Action>)
    requires |s.tasks| >= 2 && (forall t :: 0 <= t < |s.tasks| ==> s.tasks[t].Idle?)
    requires s.free == 0 && s.held >= 2 && s.dropping == 0 && s.queue == []
    ensures Stuck(Run(s, schedule), 1)
  {
    hide Run, Step;
    schedule := BothWait + TwoReturns + OneParks;
    RunConcat(s, BothWait, TwoReturns);
    RunConcat(s, BothWait + TwoReturns, OneParks);
    RunBothWait(s);
    var waiting := s.(tasks := s.tasks[0 := BeforePoll][1 := BeforePoll]);
    RunTwoReturns(waiting);
    RunOneParks(waiting.(free := 2, held := s.held - 2, permit := true));
  }

  /** Two tasks and two buffers can strand a task next to a free buffer, in a pool of any size, even if it
      takes promotions to bring the second buffer to the list. */
  lemma TwoTasksCanStrand(tasks: nat, slots: nat, shadow: nat) returns (schedule: seq<Action>)
    requires tasks >= 2 && slots + shadow >= 2
    ensures Stuck(Run(Start(tasks, slots, shadow), schedule), 1)
  {
    hide Run, Stuck;
    var s := Start(tasks, slots, shadow);
    var take := AllTaken(s);
    var strand := StrandedAfter(Run(s, take));
    schedule := take + strand;
    RunConcat(s, take, strand);
  }

  /** Main theorem: no schedule strands a waiter exactly when at most one task acquires on the `Notify` or at
      most one buffer can ever be on its list. */
  lemma StrandsExactlyWithTwoOfEach(tasks: nat, slots: nat, shadow: nat)
    ensures (forall schedule, t :: !Stuck(Run(Start(tasks, slots, shadow), schedule), t))
       <==> tasks <= 1 || slots + shadow <= 1
  {
    hide Run;
    var s := Start(tasks, slots, shadow);
    if tasks <= 1 || slots + shadow <= 1 {
      forall schedule, t
        ensures !Stuck(Run(s, schedule), t)
      {
        StartIsAttended(tasks, slots, shadow);
        RunAttends(s, schedule);
        AttendedIsNotStuck(Run(s, schedule), t);
      }
    } else {
      var schedule := TwoTasksCanStrand(tasks, slots, shadow);
      assert Stuck(Run(s, schedule), 1);
    }
  }
}
