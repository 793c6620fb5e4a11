/**
 Class-aware admission: how the scheduler loop assembles one batch from the Interactive and the Audit
 channel. A channel is a queue into which requests may keep arriving between any two polls.
 */
module WrrAdmission {
  import opened Arithmetic
  import opened Options

  datatype Class = Interactive | Audit

  datatype Request = Request(class_: Class, id: nat)

  function Weight(c: Class): nat { if c.Interactive? then 4 else 1 }

  /** The requests of one class, in order. */
  function Only(c: Class, rs: seq<Request>): seq<Request> {
    if rs == [] then []
    else Only(c, rs[..|rs| - 1]) + (if rs[|rs| - 1].class_ == c then [rs[|rs| - 1]] else [])
  }

  /** What senders add before the polls `from..to`. */
  function Arrived(arrive: nat -> seq<Request>, from: nat, to: nat): seq<Request>
    requires from <= to
  {
    if from == to then [] else Arrived(arrive, from, to - 1) + arrive(to - 1)
  }

  /** A channel at one moment: what waits, what has been received, how often it was polled and how often
      it was found empty. */
  datatype Mark = Mark(queue: seq<Request>, received: seq<Request>, polls: nat, misses: nat)

  /** One `try_recv`. */
  ghost function Poll(arrive: nat -> seq<Request>, m: Mark): Mark {
    var q := m.queue + arrive(m.polls);
    if q == [] then m.(polls := m.polls + 1, misses := m.misses + 1)
    else Mark(q[1..], m.received + [q[0]], m.polls + 1, m.misses)
  }

  ghost function Polls(arrive: nat -> seq<Request>, m: Mark, n: nat): (r: Mark)
    ensures r.polls == m.polls + n
  {
    if n == 0 then m else Poll(arrive, Polls(arrive, m, n - 1))
  }

  /** The later moment is the earlier one after so many polls, and nothing else has touched the channel. */
  ghost predicate Polled(arrive: nat -> seq<Request>, m: Mark, m': Mark) {
    m.polls <= m'.polls && m' == Polls(arrive, m, m'.polls - m.polls)
  }

  lemma {:induction false} PollsAdd(arrive: nat -> seq<Request>, m: Mark, n: nat, k: nat)
    ensures Polls(arrive, m, n + k) == Polls(arrive, Polls(arrive, m, n), k)
  {
    if k > 0 {
      PollsAdd(arrive, m, n, k - 1);
    }
  }

  lemma PollOnce(arrive: nat -> seq<Request>, m: Mark)
    ensures Polled(arrive, m, Poll(arrive, m)) && Polled(arrive, m, m)
  {
    assert Polls(arrive, m, 1) == Poll(arrive, Polls(arrive, m, 0));
  }

  lemma PolledOn(arrive: nat -> seq<Request>, a: Mark, b: Mark, c: Mark)
    requires Polled(arrive, a, b) && Polled(arrive, b, c)
    ensures Polled(arrive, a, c)
  {
    PollsAdd(arrive, a, b.polls - a.polls, c.polls - b.polls);
  }

  /** First in, first out, nothing lost or invented: what waited and what arrived since is what was received
      since and what waits now, in this order. */
  ghost predicate Flows(arrive: nat -> seq<Request>, m: Mark, m': Mark) {
    && m.received <= m'.received && m.polls <= m'.polls && m.misses <= m'.misses
    && m.queue + Arrived(arrive, m.polls, m'.polls) == m'.received[|m.received|..] + m'.queue
  }

  lemma FlowStep(arrive: nat -> seq<Request>, m: Mark, b: Mark)
    requires Flows(arrive, m, b)
    ensures Flows(arrive, m, Poll(arrive, b))
  {
    var x, y := Arrived(arrive, m.polls, b.polls), arrive(b.polls);
    assert Arrived(arrive, m.polls, b.polls + 1) == x + y;
    hide Arrived;
    var r, q := b.received[|m.received|..], b.queue + y;
    assert m.queue + (x + y) == (m.queue + x) + y == (r + b.queue) + y == r + q;
    if q != [] {
      assert q == [q[0]] + q[1..];
      assert (b.received + [q[0]])[|m.received|..] == r + [q[0]];
      assert r + ([q[0]] + q[1..]) == (r + [q[0]]) + q[1..];
    }
  }

  lemma {:induction false} PollsFlow(arrive: nat -> seq<Request>, m: Mark, n: nat)
    ensures Flows(arrive, m, Polls(arrive, m, n))
  {
    hide Poll;
    if n > 0 {
      PollsFlow(arrive, m, n - 1);
      FlowStep(arrive, m, Polls(arrive, m, n - 1));
    }
  }

  /** However a channel is polled and whatever arrives meanwhile, it is first in, first out, and the backlog
      and the received requests together never shrink. */
  lemma PollingIsFifo(arrive: nat -> seq<Request>, m: Mark, m': Mark)
    requires Polled(arrive, m, m')
    ensures Flows(arrive, m, m') && |m'.queue| + |m'.received| >= |m.queue| + |m.received|
  {
    PollsFlow(arrive, m, m'.polls - m.polls);
    assert |m.queue + Arrived(arrive, m.polls, m'.polls)| == |m'.received[|m.received|..] + m'.queue|;
  }

  /** The receiving end of one class's channel. `arrive(n)` is what senders add before poll `n`. */
  class Channel {
    const class_: Class
    const arrive: nat -> seq<Request>
    var queue: seq<Request>
    var polls: nat
    ghost var received: seq<Request>
    ghost var misses: nat

    /** Only requests of the channel's class are in it. */
    ghost predicate Valid()
      reads this
    {
      && (forall i :: 0 <= i < |queue| ==> queue[i].class_ == class_)
      && (forall n, i :: 0 <= i < |arrive(n)| ==> arrive(n)[i].class_ == class_)
    }

    ghost function Now(): Mark
      reads this
    {
      Mark(queue, received, polls, misses)
    }

    constructor (class_: Class, arrive: nat -> seq<Request>, backlog: seq<Request>)
      requires forall i :: 0 <= i < |backlog| ==> backlog[i].class_ == class_
      requires forall n, i :: 0 <= i < |arrive(n)| ==> arrive(n)[i].class_ == class_
      ensures Valid() && Now() == Mark(backlog, [], 0, 0)
      ensures this.class_ == class_ && this.arrive == arrive
    {
      this.class_, this.arrive := class_, arrive;
      queue, polls := backlog, 0;
      received, misses := [], 0;
    }

    method TryRecv() returns (r: Option<Request>)
      requires Valid()
      modifies this
      ensures Valid() && Now() == Poll(arrive, old(Now()))
      ensures r == if old(queue) + arrive(old(polls)) == [] then None else Some((old(queue) + arrive(old(polls)))[0])
      ensures r.Some? ==> r.value.class_ == class_ && received == old(received) + [r.value] && misses == old(misses)
      ensures r.None? ==> received == old(received) && queue == [] && misses == old(misses) + 1
    {
      queue := queue + arrive(polls);
      polls := polls + 1;
      if queue == [] {
        misses := misses + 1;
        return None;
      }
      r := Some(queue[0]);
      received := received + [r.value];
      queue := queue[1..];
    }
  }

  /** What a drain from `batch0` to `batch` took: `i` more Interactive and `a` more Audit requests, each
      class in channel order and nothing else. */
  ghost predicate Took(batch0: seq<Request>, batch: seq<Request>, i: seq<Request>, a: seq<Request>) {
    && |batch| == |batch0| + |i| + |a|
    && Only(Interactive, batch) == Only(Interactive, batch0) + i
    && Only(Audit, batch) == Only(Audit, batch0) + a
  }

  lemma TookOne(batch0: seq<Request>, batch: seq<Request>, i: seq<Request>, a: seq<Request>, r: Request)
    requires Took(batch0, batch, i, a)
    ensures r.class_.Interactive? ==> Took(batch0, batch + [r], i + [r], a)
    ensures r.class_.Audit? ==> Took(batch0, batch + [r], i, a + [r])
  {
    assert (batch + [r])[..|batch|] == batch;
  }

  /** One class's turn within a cycle: up to `weight` requests, ending early when the batch is full or the
      channel is empty. */
  method Turn(batch0: seq<Request>, max: nat, ch: Channel) returns (batch: seq<Request>, progress: bool)
    requires ch.Valid()
    modifies ch
    ensures ch.Valid() && Polled(ch.arrive, old(ch.Now()), ch.Now()) && old(ch.received) <= ch.received
    ensures var taken := ch.received[|old(ch.received)|..];
      && Took(batch0, batch, if ch.class_.Interactive? then taken else [], if ch.class_.Audit? then taken else [])
      && |taken| <= Weight(ch.class_) && progress == (taken != [])
    ensures |batch| <= Max(|batch0|, max) && ch.misses <= old(ch.misses) + 1
    ensures |batch| < max && ch.misses == old(ch.misses) ==> |batch| == |batch0| + Weight(ch.class_)
    ensures |batch0| >= max ==> batch == batch0
    ensures ch.misses > old(ch.misses) ==> ch.queue == [] && |batch| < max
    ensures ch.misses >= old(ch.misses) && (!progress && ch.misses == old(ch.misses) ==> |batch| >= max)
  {
    hide Polled, Poll, Took, Only;
    batch, progress := batch0, false;
    TookNothing(batch0);
    assert ch.received[|old(ch.received)|..] == [];
    PollOnce(ch.arrive, ch.Now());
    for n := 0 to Weight(ch.class_)
      invariant ch.Valid() && Polled(ch.arrive, old(ch.Now()), ch.Now()) && old(ch.received) <= ch.received && ch.misses == old(ch.misses)
      invariant var taken := ch.received[|old(ch.received)|..];
        && Took(batch0, batch, if ch.class_.Interactive? then taken else [], if ch.class_.Audit? then taken else [])
        && |taken| == n && |batch| == |batch0| + n && progress == (taken != [])
      invariant |batch| <= Max(|batch0|, max)
      invariant |batch0| >= max ==> batch == batch0
    {
      if |batch| >= max {
        break;
      }
      ghost var before := ch.Now();
      ghost var taken := before.received[|old(ch.received)|..];
      var r := ch.TryRecv();
      PollOnce(ch.arrive, before);
      PolledOn(ch.arrive, old(ch.Now()), before, ch.Now());
      if r.None? {
        break;
      }
      TookOne(batch0, batch, if ch.class_.Interactive? then taken else [], if ch.class_.Audit? then taken else [], r.value);
      assert ch.received[|old(ch.received)|..] == taken + [r.value];
      batch := batch + [r.value];
      progress := true;
    }
  }

  /** What building part of a batch did: from the marks `i` and `a` to `i'` and `a'` both channels were only
      polled, so they stayed first in, first out, and the batch grew by exactly what was received. */
  ghost predicate Admitted(batch0: seq<Request>, batch: seq<Request>,
                           ai: nat -> seq<Request>, i: Mark, i': Mark, aa: nat -> seq<Request>, a: Mark, a': Mark)
  {
    && Polled(ai, i, i') && Polled(aa, a, a')
    && Flows(ai, i, i') && Flows(aa, a, a')
    && Took(batch0, batch, i'.received[|i.received|..], a'.received[|a.received|..])
  }

  /** The sizes that follow. */
  lemma AdmittedSizes(batch0: seq<Request>, batch: seq<Request>,
                      ai: nat -> seq<Request>, i: Mark, i': Mark, aa: nat -> seq<Request>, a: Mark, a': Mark)
    requires Admitted(batch0, batch, ai, i, i', aa, a, a')
    ensures i.received <= i'.received && a.received <= a'.received
    ensures |batch| == |batch0| + (|i'.received| - |i.received|) + (|a'.received| - |a.received|)
    ensures |i'.queue| + |i'.received| >= |i.queue| + |i.received|
    ensures |a'.queue| + |a'.received| >= |a.queue| + |a.received|
    ensures i.misses <= i'.misses && a.misses <= a'.misses
  {
    PollingIsFifo(ai, i, i');
    PollingIsFifo(aa, a, a');
  }

  lemma AdmittedNothing(batch: seq<Request>, ai: nat -> seq<Request>, i: Mark, aa: nat -> seq<Request>, a: Mark)
    ensures Admitted(batch, batch, ai, i, i, aa, a, a)
  {
    PollOnce(ai, i);
    PollOnce(aa, a);
    PollingIsFifo(ai, i, i);
    PollingIsFifo(aa, a, a);
    assert i.received[|i.received|..] == [] && a.received[|a.received|..] == [];
  }

  lemma AdmittedOn(batch0: seq<Request>, batch1: seq<Request>, batch: seq<Request>,
                   ai: nat -> seq<Request>, i0: Mark, i1: Mark, i2: Mark,
                   aa: nat -> seq<Request>, a0: Mark, a1: Mark, a2: Mark)
    requires Admitted(batch0, batch1, ai, i0, i1, aa, a0, a1) && Admitted(batch1, batch, ai, i1, i2, aa, a1, a2)
    ensures Admitted(batch0, batch, ai, i0, i2, aa, a0, a2)
  {
    hide Took, Only, Polls, Arrived;
    PolledOn(ai, i0, i1, i2);
    PolledOn(aa, a0, a1, a2);
    PollingIsFifo(ai, i0, i2);
    PollingIsFifo(aa, a0, a2);
    TookBoth(batch0, batch1, i1.received[|i0.received|..], a1.received[|a0.received|..],
             batch, i2.received[|i1.received|..], a2.received[|a1.received|..]);
    assert i1.received[|i0.received|..] + i2.received[|i1.received|..] == i2.received[|i0.received|..];
    assert a1.received[|a0.received|..] + a2.received[|a1.received|..] == a2.received[|a0.received|..];
  }

  lemma TookNothing(batch: seq<Request>)
    ensures Took(batch, batch, [], [])
  {
  }

  lemma TookBoth(batch0: seq<Request>, batch1: seq<Request>, i: seq<Request>, a: seq<Request>,
                 batch: seq<Request>, i': seq<Request>, a': seq<Request>)
    requires Took(batch0, batch1, i, a) && Took(batch1, batch, i', a')
    ensures Took(batch0, batch, i + i', a + a')
  {
    var x, y := Only(Interactive, batch0), Only(Audit, batch0);
    assert (x + i) + i' == x + (i + i') && (y + a) + a' == y + (a + a');
  }

  /** What the drain keeps: `i` and `a` requests taken, `mi` and `ma` times a channel was found empty. */
  ghost predicate Shares(i: int, a: int, mi: int, ma: int, room: bool) {
    && i >= 0 && a >= 0 && mi >= 0 && ma >= 0
    && 4 * a <= i + 4 * mi
    && (mi == 0 && ma == 0 ==> 4 * a <= i <= 4 * a + 4 && (room ==> i == 4 * a))
  }

  /** One cycle of the drain: Interactive's turn, then Audit's. */
  method Cycle(batch0: seq<Request>, max: nat, qi: Channel, qa: Channel) returns (batch: seq<Request>, progress: bool)
    requires qi != qa && qi.Valid() && qa.Valid() && qi.class_.Interactive? && qa.class_.Audit? && |batch0| < max
    modifies qi, qa
    ensures qi.Valid() && qa.Valid()
    ensures Admitted(batch0, batch, qi.arrive, old(qi.Now()), qi.Now(), qa.arrive, old(qa.Now()), qa.Now())
    ensures |batch| <= max && (progress <==> |batch| > |batch0|)
    ensures Shares(|qi.received| - |old(qi.received)|, |qa.received| - |old(qa.received)|,
                   qi.misses - old(qi.misses), qa.misses - old(qa.misses), |batch| < max)
    ensures qi.misses > old(qi.misses) ==> |old(qi.queue)| + |batch0| < max
    ensures qa.misses > old(qa.misses) ==> |old(qa.queue)| + |batch0| < max
    ensures !progress ==> qi.misses > old(qi.misses) && qa.misses > old(qa.misses) && qi.queue == [] && qa.queue == []
  {
    hide Polled, Only;
    var batch1, progressI := Turn(batch0, max, qi);
    var progressA;
    batch, progressA := Turn(batch1, max, qa);
    PollingIsFifo(qi.arrive, old(qi.Now()), qi.Now());
    PollingIsFifo(qa.arrive, old(qa.Now()), qa.Now());
    TookBoth(batch0, batch1, qi.received[|old(qi.received)|..], [], batch, [], qa.received[|old(qa.received)|..]);
    progress := progressI || progressA;
  }

  /** The weighted round robin drain. Whatever arrives meanwhile: each class keeps its order and nothing is
      lost or duplicated; the batch does not outgrow `max` and is left short only when both channels are
      empty; Audit gets at most a quarter of what Interactive gets, plus one for every time the Interactive
      channel was found empty. Without any miss the `n` free slots hold exactly `n / 5` Audit requests. */
  method Drain(batch0: seq<Request>, max: nat, qi: Channel, qa: Channel) returns (batch: seq<Request>)
    requires qi != qa && qi.Valid() && qa.Valid() && qi.class_.Interactive? && qa.class_.Audit?
    modifies qi, qa
    ensures qi.Valid() && qa.Valid()
    ensures Admitted(batch0, batch, qi.arrive, old(qi.Now()), qi.Now(), qa.arrive, old(qa.Now()), qa.Now())
    ensures |batch| <= Max(|batch0|, max)
    ensures var i, a := |qi.received| - |old(qi.received)|, |qa.received| - |old(qa.received)|;
      && 4 * a <= i + 4 * (qi.misses - old(qi.misses))
      && (qi.misses == old(qi.misses) && qa.misses == old(qa.misses) && |batch0| <= max ==>
            |batch| == max && a == (max - |batch0|) / 5)
    ensures |old(qi.queue)| + |batch0| >= max ==> qi.misses == old(qi.misses)
    ensures |old(qa.queue)| + |batch0| >= max ==> qa.misses == old(qa.misses)
    ensures |batch| < max ==> qi.queue == [] && qa.queue == []
  {
    hide Admitted, Polls;
    batch := batch0;
    ghost var i0, a0 := qi.Now(), qa.Now();
    AdmittedNothing(batch, qi.arrive, i0, qa.arrive, a0);
    while |batch| < max
      invariant qi.Valid() && qa.Valid()
      invariant Admitted(batch0, batch, qi.arrive, i0, qi.Now(), qa.arrive, a0, qa.Now())
      invariant |batch| <= Max(|batch0|, max)
      invariant Shares(|qi.received| - |i0.received|, |qa.received| - |a0.received|,
                       qi.misses - i0.misses, qa.misses - a0.misses, |batch| < max)
      invariant qi.misses > i0.misses ==> |i0.queue| + |batch0| < max
      invariant qa.misses > a0.misses ==> |a0.queue| + |batch0| < max
      decreases max - |batch|
    {
      ghost var batch1, i1, a1 := batch, qi.Now(), qa.Now();
      AdmittedSizes(batch0, batch, qi.arrive, i0, i1, qa.arrive, a0, a1);
      var progress;
      batch, progress := Cycle(batch, max, qi, qa);
      AdmittedOn(batch0, batch1, batch, qi.arrive, i0, i1, qi.Now(), qa.arrive, a0, a1, qa.Now());
      if !progress {
        break;
      }
    }
    AdmittedSizes(batch0, batch, qi.arrive, i0, qi.Now(), qa.arrive, a0, qa.Now());
  }

  /** One receive on either channel, Interactive preferred (`biased`). */
  method RecvEither(batch0: seq<Request>, qi: Channel, qa: Channel) returns (batch: seq<Request>, got: bool)
    requires qi != qa && qi.Valid() && qa.Valid() && qi.class_.Interactive? && qa.class_.Audit?
    modifies qi, qa
    ensures qi.Valid() && qa.Valid()
    ensures Admitted(batch0, batch, qi.arrive, old(qi.Now()), qi.Now(), qa.arrive, old(qa.Now()), qa.Now())
    ensures |batch| == |batch0| + if got then 1 else 0
    ensures old(qi.queue) != [] || qi.misses == old(qi.misses) ==> got && qa.Now() == old(qa.Now())
    ensures old(qi.queue) != [] ==> qi.misses == old(qi.misses)
    ensures old(qa.queue) != [] ==> got
    ensures |qa.received| - |old(qa.received)| <= qi.misses - old(qi.misses)
    ensures !got ==> qi.queue == [] && qa.queue == []
  {
    hide Polled, Only;
    batch := batch0;
    TookNothing(batch0);
    PollOnce(qi.arrive, qi.Now());
    PollOnce(qa.arrive, qa.Now());
    var r := qi.TryRecv();
    if r.None? {
      r := qa.TryRecv();
    }
    got := r.Some?;
    if got {
      TookOne(batch0, batch0, [], [], r.value);
      batch := batch0 + [r.value];
    }
    PollingIsFifo(qi.arrive, old(qi.Now()), qi.Now());
    PollingIsFifo(qa.arrive, old(qa.Now()), qa.Now());
  }

  /** One poll of the timed `select!`. An arm that finds its channel empty looks whether the deadline has
      passed or the channel is closed, and goes on only for the first `patience` looks. After that the first
      empty arm ends the wait: if it is Interactive's, Audit's is not polled. `stop` says that the wait is over. */
  method RecvInTime(batch0: seq<Request>, patience: nat, looks0: nat, qi: Channel, qa: Channel)
    returns (batch: seq<Request>, looks: nat, stop: bool)
    requires qi != qa && qi.Valid() && qa.Valid() && qi.class_.Interactive? && qa.class_.Audit?
    requires looks0 <= patience
    modifies qi, qa
    ensures qi.Valid() && qa.Valid()
    ensures Admitted(batch0, batch, qi.arrive, old(qi.Now()), qi.Now(), qa.arrive, old(qa.Now()), qa.Now())
    ensures |batch| <= |batch0| + 1 && looks0 <= looks <= patience
    ensures (qi.misses - old(qi.misses)) + (qa.misses - old(qa.misses)) == looks - looks0 + if stop then 1 else 0
    ensures |qa.received| - |old(qa.received)| <= qi.misses - old(qi.misses)
    ensures !stop ==> |batch| > |batch0| || looks > looks0
    ensures stop ==> batch == batch0 && qi.queue == [] && looks == patience && qi.misses > old(qi.misses)
    ensures stop && looks0 < patience ==> qa.queue == []
    ensures looks0 == patience ==> qa.Now() == old(qa.Now()) && (stop <==> qi.misses > old(qi.misses))
  {
    hide Polled, Only;
    batch, looks, stop := batch0, looks0, false;
    TookNothing(batch0);
    PollOnce(qi.arrive, qi.Now());
    PollOnce(qa.arrive, qa.Now());
    var r := qi.TryRecv();
    if r.None? {
      if looks == patience {
        stop := true;
      } else {
        looks := looks + 1;
        r := qa.TryRecv();
        if r.None? {
          if looks == patience {
            stop := true;
          } else {
            looks := looks + 1;
          }
        }
      }
    }
    if r.Some? {
      TookOne(batch0, batch0, [], [], r.value);
      batch := batch0 + [r.value];
    }
    PollingIsFifo(qi.arrive, old(qi.Now()), qi.Now());
    PollingIsFifo(qa.arrive, old(qa.Now()), qa.Now());
  }

  /** One batch: a first request, the drain, then late arrivals until the batch is full or the deadline
      passes (`waits` is whether there is a timeout at all, `patience` when it ends). A batch is empty only
      when both channels are; a short one leaves no Interactive request behind, and Audit requests only if
      the wait for late arrivals was cut. With a timeout a short batch has waited until the deadline: every
      one of the `patience` looks that found time left was used. */
  method BuildBatch(max: nat, waits: bool, patience: nat, qi: Channel, qa: Channel)
    returns (batch: seq<Request>, looks: nat)
    requires qi != qa && qi.Valid() && qa.Valid() && qi.class_.Interactive? && qa.class_.Audit?
    modifies qi, qa
    ensures qi.Valid() && qa.Valid()
    ensures Admitted([], batch, qi.arrive, old(qi.Now()), qi.Now(), qa.arrive, old(qa.Now()), qa.Now())
    ensures |batch| <= Max(1, max) && (looks > 0 ==> waits)
    ensures var i, a := |qi.received| - |old(qi.received)|, |qa.received| - |old(qa.received)|;
      && 4 * a <= i + 4 * (qi.misses - old(qi.misses))
      && (qi.misses == old(qi.misses) && qa.misses == old(qa.misses) ==>
            |batch| == Max(1, max) && a == (Max(1, max) - 1) / 5)
    ensures max >= 1 && |old(qi.queue)| >= max && |old(qa.queue)| >= max ==>
      qi.misses == old(qi.misses) && qa.misses == old(qa.misses)
    ensures old(qi.queue) != [] || old(qa.queue) != [] ==> |batch| >= 1
    ensures batch == [] ==> qi.queue == [] && qa.queue == []
    ensures |batch| < max ==> qi.queue == [] && (qa.queue == [] || (waits && looks == patience))
    ensures waits && batch != [] && |batch| < max ==>
      looks == patience && (qi.misses - old(qi.misses)) + (qa.misses - old(qa.misses)) > patience
  {
    hide Admitted, Polls, Channel.Valid;
    looks := 0;
    ghost var i0, a0 := qi.Now(), qa.Now();
    var got;
    batch, got := RecvEither([], qi, qa);
    ghost var i1, a1, first := qi.Now(), qa.Now(), batch;
    AdmittedSizes([], first, qi.arrive, i0, i1, qa.arrive, a0, a1);
    if !got {
      return;
    }
    batch := Drain(batch, max, qi, qa);
    AdmittedSizes(first, batch, qi.arrive, i1, qi.Now(), qa.arrive, a1, qa.Now());
    AdmittedOn([], first, batch, qi.arrive, i0, i1, qi.Now(), qa.arrive, a0, a1, qa.Now());
    if waits && |batch| < max {
      var stop := false;
      ghost var drained := qi.misses + qa.misses;
      while !stop && |batch| < max
        invariant qi.Valid() && qa.Valid()
        invariant Admitted([], batch, qi.arrive, i0, qi.Now(), qa.arrive, a0, qa.Now())
        invariant 1 <= |batch| <= max && looks <= patience
        invariant 4 * (|qa.received| - |a0.received|) <= |qi.received| - |i0.received| + 4 * (qi.misses - i0.misses)
        invariant qi.misses >= i0.misses && qa.misses >= a0.misses
        invariant drained > i0.misses + a0.misses
        invariant qi.misses + qa.misses == drained + looks + if stop then 1 else 0
        invariant stop ==> qi.queue == [] && looks == patience
        decreases max - |batch|, patience - looks, !stop
      {
        ghost var batch1, i2, a2 := batch, qi.Now(), qa.Now();
        batch, looks, stop := RecvInTime(batch, patience, looks, qi, qa);
        AdmittedSizes(batch1, batch, qi.arrive, i2, qi.Now(), qa.arrive, a2, qa.Now());
        AdmittedOn([], batch1, batch, qi.arrive, i0, i2, qi.Now(), qa.arrive, a0, a2, qa.Now());
      }
    }
  }

  /** A backlog for `n` full batches in both channels. */
  ghost predicate Backlog(n: nat, max: nat, i: Mark, a: Mark) {
    max >= 1 && |i.queue| >= n * max && |a.queue| >= n * max
  }

  /** What `n` batches did to the Interactive channel, from `i` to `i'`, and to the Audit channel. */
  ghost predicate Served(n: nat, max: nat, i: Mark, i': Mark, a: Mark, a': Mark) {
    && i.misses <= i'.misses && a.misses <= a'.misses
    && |i'.queue| + |i'.received| >= |i.queue| + |i.received|
    && |a'.queue| + |a'.received| >= |a.queue| + |a.received|
    && 4 * (|a'.received| - |a.received|) <= |i'.received| - |i.received| + 4 * (i'.misses - i.misses)
    && (i'.misses == i.misses && a'.misses == a.misses ==>
          && |a'.received| - |a.received| == n * ((Max(1, max) - 1) / 5)
          && |i'.received| - |i.received| == n * (Max(1, max) - (Max(1, max) - 1) / 5))
    && (Backlog(n, max, i, a) ==> i'.misses == i.misses && a'.misses == a.misses)
  }

  lemma ServedNothing(max: nat, i: Mark, a: Mark)
    ensures Served(0, max, i, i, a, a)
  {
  }

  lemma BacklogLasts(n: nat, max: nat, i: Mark, i': Mark, a: Mark, a': Mark)
    requires Served(n, max, i, i', a, a') && Backlog(n + 1, max, i, a)
    ensures Backlog(n, max, i, a) && Backlog(1, max, i', a')
  {
    var share := (max - 1) / 5;
    assert (n + 1) * max == n * max + max && n * max == n * share + n * (max - share);
    MulMonotone(0, n, share);
    MulMonotone(0, n, max - share);
  }

  lemma ServedOneMore(n: nat, max: nat, i: Mark, i': Mark, i'': Mark, a: Mark, a': Mark, a'': Mark)
    requires Served(n, max, i, i', a, a') && Served(1, max, i', i'', a', a'')
    ensures Served(n + 1, max, i, i'', a, a'')
  {
    hide Backlog;
    var size := Max(1, max);
    var share := (size - 1) / 5;
    assert (n + 1) * share == n * share + share && (n + 1) * (size - share) == n * (size - share) + (size - share);
    if Backlog(n + 1, max, i, a) {
      BacklogLasts(n, max, i, i', a, a');
    }
  }

  /** One batch. */
  lemma BatchServed(max: nat, batch: seq<Request>, ai: nat -> seq<Request>, i: Mark, i': Mark,
                    aa: nat -> seq<Request>, a: Mark, a': Mark)
    requires Admitted([], batch, ai, i, i', aa, a, a')
    requires 4 * (|a'.received| - |a.received|) <= |i'.received| - |i.received| + 4 * (i'.misses - i.misses)
    requires i'.misses == i.misses && a'.misses == a.misses ==>
      |batch| == Max(1, max) && |a'.received| - |a.received| == (Max(1, max) - 1) / 5
    requires Backlog(1, max, i, a) ==> i'.misses == i.misses && a'.misses == a.misses
    ensures Polled(ai, i, i') && Polled(aa, a, a') && Served(1, max, i, i', a, a')
  {
    hide Took, Flows, Polled;
    AdmittedSizes([], batch, ai, i, i', aa, a, a');
  }

  lemma ServedMeans(n: nat, max: nat, i: Mark, i': Mark, a: Mark, a': Mark)
    requires Served(n, max, i, i', a, a')
    ensures 4 * (|a'.received| - |a.received|) <= |i'.received| - |i.received| + 4 * (i'.misses - i.misses)
    ensures i'.misses == i.misses && a'.misses == a.misses ==>
      && |a'.received| - |a.received| == n * ((Max(1, max) - 1) / 5)
      && |i'.received| - |i.received| == n * (Max(1, max) - (Max(1, max) - 1) / 5)
      && (n > 0 ==> (|a'.received| == |a.received| <==> max <= 5))
    ensures max >= 1 && |i.queue| >= n * max && |a.queue| >= n * max ==> i'.misses == i.misses && a'.misses == a.misses
  {
    if n > 0 && max > 5 {
      MulMonotone(1, n, (max - 1) / 5);
    }
  }

  /** Over any `n` batches Audit gets at most a quarter of what Interactive gets, plus one for every time the
      Interactive channel was found empty. As long as neither channel is ever found empty, each batch serves
      exactly `(max - 1) / 5` Audit requests: none at all, however long it waits, exactly when the batch
      size is at most 5. A backlog of `n` full batches in each channel is enough for that. */
  method ServeBatches(n: nat, max: nat, waits: bool, patience: nat -> nat, qi: Channel, qa: Channel)
    requires qi != qa && qi.Valid() && qa.Valid() && qi.class_.Interactive? && qa.class_.Audit?
    modifies qi, qa
    ensures qi.Valid() && Polled(qi.arrive, old(qi.Now()), qi.Now())
    ensures qa.Valid() && Polled(qa.arrive, old(qa.Now()), qa.Now())
    ensures var i, a, size := |qi.received| - |old(qi.received)|, |qa.received| - |old(qa.received)|, Max(1, max);
      && 4 * a <= i + 4 * (qi.misses - old(qi.misses))
      && (qi.misses == old(qi.misses) && qa.misses == old(qa.misses) ==>
            && a == n * ((size - 1) / 5) && i == n * (size - (size - 1) / 5)
            && (n > 0 ==> (a == 0 <==> max <= 5)))
    ensures max >= 1 && |old(qi.queue)| >= n * max && |old(qa.queue)| >= n * max ==>
      qi.misses == old(qi.misses) && qa.misses == old(qa.misses)
  {
    hide Polled, Served, Admitted, Channel.Valid;
    ghost var i0, a0 := qi.Now(), qa.Now();
    PollOnce(qi.arrive, i0);
    PollOnce(qa.arrive, a0);
    ServedNothing(max, i0, a0);
    for k := 0 to n
      invariant qi.Valid() && Polled(qi.arrive, i0, qi.Now())
      invariant qa.Valid() && Polled(qa.arrive, a0, qa.Now())
      invariant Served(k, max, i0, qi.Now(), a0, qa.Now())
    {
      ghost var mi, ma := qi.Now(), qa.Now();
      var batch, looks := BuildBatch(max, waits, patience(k), qi, qa);
      BatchServed(max, batch, qi.arrive, mi, qi.Now(), qa.arrive, ma, qa.Now());
      ServedOneMore(k, max, i0, mi, qi.Now(), a0, ma, qa.Now());
      PolledOn(qi.arrive, i0, mi, qi.Now());
      PolledOn(qa.arrive, a0, ma, qa.Now());
    }
    ServedMeans(n, max, i0, qi.Now(), a0, qa.Now());
  }

  /** The requests that can be there by poll `k` after `m`: the backlog and the arrivals so far. */
  function Supply(arrive: nat -> seq<Request>, m: Mark, k: nat): nat {
    |m.queue| + |Arrived(arrive, m.polls, m.polls + k + 1)|
  }

  lemma SupplyIs(arrive: nat -> seq<Request>, m: Mark, k: nat)
    ensures var b := Polls(arrive, m, k);
      |b.received| - |m.received| + |b.queue + arrive(b.polls)| == Supply(arrive, m, k)
  {
    var b := Polls(arrive, m, k);
    PollsFlow(arrive, m, k);
    hide Polls;
    assert |m.queue + Arrived(arrive, m.polls, b.polls)| == |b.received[|m.received|..] + b.queue|;
  }

  /** A channel is never found empty exactly when at every poll the supply outnumbers the polls before it. */
  lemma {:induction false} NeverEmptyExactlyWhen(arrive: nat -> seq<Request>, m: Mark, n: nat)
    ensures Polls(arrive, m, n).misses == m.misses <==> forall k: nat :: k < n ==> Supply(arrive, m, k) > k
    ensures Polls(arrive, m, n).misses == m.misses ==> |Polls(arrive, m, n).received| == |m.received| + n
    ensures Polls(arrive, m, n).misses >= m.misses
  {
    if n > 0 {
      NeverEmptyExactlyWhen(arrive, m, n - 1);
      SupplyIs(arrive, m, n - 1);
    }
  }
}
