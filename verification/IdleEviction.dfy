/**
 Sessions and idle eviction: under memory pressure the scheduler drops the block managers of sessions
 that have been idle for long enough. The pool and its managers are a `World`; attaching a manager to
 a session is an operation of its own.
 */
module IdleEviction {
  import opened Machine
  import opened Sequences
  import opened Options
  import opened PagedPool
  import opened PagedProtocol
  import opened PagedRefinement
  import opened PagedKv
  import opened WrrAdmission

  /** A session: its class, its last activity in microseconds, and the manager it owns, if any. */
  datatype Session = Session(class_: Class, lastActivity: nat, manager: Option<nat>)

  function IdleFor(s: Session, now: nat): nat { SaturatingSub(now, s.lastActivity) }

  /** `threshold.as_micros() as u64`. */
  function ThresholdUs(threshold: nat): nat { threshold % U64_SPAN }

  predicate IsCandidate(s: Session, thresholdUs: nat, now: nat) {
    IdleFor(s, now) >= thresholdUs && s.manager.Some?
  }

  datatype Candidate = Candidate(id: nat, class_: Class, idle: nat)

  /** Audit before Interactive, then the longest idle first. */
  predicate Before(a: Candidate, b: Candidate) {
    (a.class_.Audit? && b.class_.Interactive?) || (a.class_ == b.class_ && a.idle > b.idle)
  }

  function InsertStable(s: seq<Candidate>, c: Candidate): (r: seq<Candidate>)
    ensures |r| == |s| + 1 && multiset(r) == multiset(s) + multiset{c}
  {
    if s != [] && Before(c, s[|s| - 1]) then
      assert s == s[..|s| - 1] + [s[|s| - 1]];
      InsertStable(s[..|s| - 1], c) + [s[|s| - 1]]
    else s + [c]
  }

  /** `candidates.sort_by`. */
  function SortCandidates(cs: seq<Candidate>): (r: seq<Candidate>)
    ensures |r| == |cs| && multiset(r) == multiset(cs)
  {
    if cs == [] then []
    else
      assert cs == cs[..|cs| - 1] + [cs[|cs| - 1]];
      InsertStable(SortCandidates(cs[..|cs| - 1]), cs[|cs| - 1])
  }

  /** Audit before Interactive, and the longest idle of each class first. */
  ghost predicate InEvictionOrder(s: seq<Candidate>) {
    forall i, j :: 0 <= i < j < |s| ==>
      (s[j].class_.Audit? ==> s[i].class_.Audit?) && (s[i].class_ == s[j].class_ ==> s[i].idle >= s[j].idle)
  }

  lemma {:induction false} InsertKeepsOrder(s: seq<Candidate>, c: Candidate)
    requires InEvictionOrder(s)
    ensures InEvictionOrder(InsertStable(s, c))
  {
    if s != [] && Before(c, s[|s| - 1]) {
      var front, last := s[..|s| - 1], s[|s| - 1];
      InsertKeepsOrder(front, c);
      var r := InsertStable(front, c);
      forall i | 0 <= i < |r|
        ensures last.class_.Audit? ==> r[i].class_.Audit?
        ensures r[i].class_ == last.class_ ==> r[i].idle >= last.idle
      {
        assert r[i] in multiset(front) + multiset{c};
        assert r[i] in front || r[i] == c;
      }
    }
  }

  /** Sessions are evicted Audit first and, within a class, longest idle first. */
  lemma {:induction false} EvictionOrder(cs: seq<Candidate>)
    ensures InEvictionOrder(SortCandidates(cs))
  {
    if cs != [] {
      EvictionOrder(cs[..|cs| - 1]);
      InsertKeepsOrder(SortCandidates(cs[..|cs| - 1]), cs[|cs| - 1]);
    }
  }

  class SessionTable {
    var sessions: map<nat, Session>
    var world: World

    ghost predicate Valid()
      reads this
    {
      && Sound(world) && Seq.AllIdle(world)
      && (forall id :: id in sessions && sessions[id].manager.Some? ==> sessions[id].manager.value < |world.managers|)
      && (forall id, id' :: id in sessions && id' in sessions && id != id' && sessions[id].manager.Some?
            ==> sessions[id].manager != sessions[id'].manager)
    }

    /** Hand a manager to a session that has none. */
    method Attach(id: nat, m: nat)
      requires Valid() && id in sessions && sessions[id].manager.None? && m < |world.managers|
      requires forall other :: other in sessions ==> sessions[other].manager != Some(m)
      modifies this`sessions
      ensures Valid() && sessions == old(sessions)[id := old(sessions)[id].(manager := Some(m))]
    {
      sessions := sessions[id := sessions[id].(manager := Some(m))];
    }

    /** `touch`: a step of the session is about to run. */
    method Touch(id: nat, now: nat)
      requires Valid()
      modifies this`sessions
      ensures Valid()
      ensures sessions == if id in old(sessions) then old(sessions)[id := old(sessions)[id].(lastActivity := now)] else old(sessions)
    {
      if id in sessions {
        sessions := sessions[id := sessions[id].(lastActivity := now)];
      }
    }

    /** Take a session's manager and drop it: every block goes back to the pool. */
    method TakeManager(id: nat)
      requires Valid() && id in sessions && sessions[id].manager.Some?
      modifies this
      ensures Valid() && sessions == old(sessions)[id := old(sessions)[id].(manager := None)]
      ensures Evicted(old(world), world, {old(sessions)[id].manager.value})
    {
      hide Sound, Shape, Ledger, View;
      var m := sessions[id].manager.value;
      Seq.ReleaseRefines(world, m);
      ReleaseEachKeeps(world.pool, world.managers[m].table);
      world := Put(world, Seq.ReleaseEach(world.pool, world.managers[m].table), m, Manager([], 0, Idle));
      sessions := sessions[id := sessions[id].(manager := None)];
    }

    /** The candidate list, collected in the order `scan` in which the map is iterated, then sorted. */
    method Candidates(scan: seq<nat>, thresholdUs: nat, now: nat) returns (cs: seq<Candidate>)
      requires ScanOf(scan, sessions)
      ensures cs == SortCandidates(Eligible(sessions, scan, thresholdUs, now))
    {
      var found: seq<Candidate> := [];
      for i := 0 to |scan|
        invariant found == Eligible(sessions, scan[..i], thresholdUs, now)
      {
        assert scan[..i + 1][..i] == scan[..i];
        var s := sessions[scan[i]];
        if IsCandidate(s, thresholdUs, now) {
          found := found + [CandidateOf(scan[i], s, now)];
        }
      }
      assert scan[..|scan|] == scan;
      cs := SortCandidates(found);
    }

    /** `run_idle_eviction`: exactly the sessions idle for the threshold lose their manager, its blocks
        are back in the pool, and no other session or manager is touched. */
    method RunIdleEviction(scan: seq<nat>, threshold: nat, now: nat) returns (reclaimed: nat)
      requires Valid() && ScanOf(scan, sessions)
      modifies this
      ensures Valid() && sessions == WithoutManagers(old(sessions), EvictedSessions(old(sessions), ThresholdUs(threshold), now))
      ensures Evicted(old(world), world, ManagersOf(old(sessions), EvictedSessions(old(sessions), ThresholdUs(threshold), now)))
      ensures reclaimed == |EvictedSessions(old(sessions), ThresholdUs(threshold), now)|
      ensures OnlyTheDueLose(old(sessions), sessions, threshold % U64_SPAN, now)
    {
      NothingEvicted(world);
      hide *;
      ghost var thresholdUs := ThresholdUs(threshold);
      var cs := Candidates(scan, ThresholdUs(threshold), now);
      SortedEligible(sessions, scan, thresholdUs, now);
      reclaimed := 0;
      NoneWithout(sessions);
      for i := 0 to |cs|
        invariant Valid() && reclaimed == i
        invariant sessions == WithoutManagers(old(sessions), IdsOf(cs[..i]))
        invariant Evicted(old(world), world, ManagersOf(old(sessions), IdsOf(cs[..i])))
      {
        ghost var before := world;
        OneMoreWithout(old(sessions), cs, i);
        TakeManager(cs[i].id);
        EvictedOneMore(old(world), before, world, ManagersOf(old(sessions), IdsOf(cs[..i])), old(sessions)[cs[i].id].manager.value);
        reclaimed := reclaimed + 1;
      }
      assert cs[..|cs|] == cs;
      EvictedExactlyWhen(old(sessions), threshold, now);
    }
  }

  /** The session has a manager and its last activity lies at least `thresholdUs` microseconds back. */
  predicate Due(s: Session, thresholdUs: nat, now: nat) {
    s.manager.Some? && (thresholdUs == 0 || s.lastActivity + thresholdUs <= now)
  }

  /** The due sessions lose their manager, and nothing else happens to any session. */
  ghost predicate OnlyTheDueLose(sessions: map<nat, Session>, sessions': map<nat, Session>, thresholdUs: nat, now: nat) {
    && sessions'.Keys == sessions.Keys
    && forall id :: id in sessions ==>
         sessions'[id] == if Due(sessions[id], thresholdUs, now) then sessions[id].(manager := None) else sessions[id]
  }

  /** A session loses its manager exactly when it is due for the threshold cut to 64 bits. */
  lemma EvictedExactlyWhen(sessions: map<nat, Session>, threshold: nat, now: nat)
    ensures var ids := EvictedSessions(sessions, ThresholdUs(threshold), now);
      && (forall id :: id in ids <==> id in sessions && Due(sessions[id], threshold % U64_SPAN, now))
      && OnlyTheDueLose(sessions, WithoutManagers(sessions, ids), threshold % U64_SPAN, now)
  {
  }

  /** A session touched at `t` keeps its manager at an eviction exactly when the threshold is not zero and the
      clock has not reached `t` plus the threshold. */
  lemma TouchProtects(sessions: map<nat, Session>, id: nat, t: nat, threshold: nat, now: nat)
    requires id in sessions && sessions[id].manager.Some?
    ensures var touched := sessions[id := sessions[id].(lastActivity := t)];
      var after := WithoutManagers(touched, EvictedSessions(touched, ThresholdUs(threshold), now));
      after[id].manager.Some? <==> threshold % U64_SPAN != 0 && now < t + threshold % U64_SPAN
  {
    EvictedExactlyWhen(sessions[id := sessions[id].(lastActivity := t)], threshold, now);
  }

  /** `scan` lists the sessions, each once: the iteration order of the map. */
  ghost predicate ScanOf(scan: seq<nat>, sessions: map<nat, Session>) {
    (forall id :: id in scan <==> id in sessions) && (forall i, j :: 0 <= i < j < |scan| ==> scan[i] != scan[j])
  }

  function CandidateOf(id: nat, s: Session, now: nat): Candidate { Candidate(id, s.class_, IdleFor(s, now)) }

  /** The candidates among the sessions listed by `scan`, in that order. */
  function Eligible(sessions: map<nat, Session>, scan: seq<nat>, thresholdUs: nat, now: nat): seq<Candidate>
    requires forall id :: id in scan ==> id in sessions
  {
    if scan == [] then []
    else
      var front, id := scan[..|scan| - 1], scan[|scan| - 1];
      Eligible(sessions, front, thresholdUs, now)
      + if IsCandidate(sessions[id], thresholdUs, now) then [CandidateOf(id, sessions[id], now)] else []
  }

  ghost function IdsOf(cs: seq<Candidate>): set<nat> { set c | c in cs :: c.id }

  ghost predicate OnePerSession(cs: seq<Candidate>) {
    forall i, j :: 0 <= i < j < |cs| ==> cs[i].id != cs[j].id
  }

  lemma {:induction false} EligibleIs(sessions: map<nat, Session>, scan: seq<nat>, thresholdUs: nat, now: nat)
    requires forall id :: id in scan ==> id in sessions
    requires forall i, j :: 0 <= i < j < |scan| ==> scan[i] != scan[j]
    ensures var cs := Eligible(sessions, scan, thresholdUs, now);
      OnePerSession(cs) && forall c :: c in cs <==>
        c.id in scan && IsCandidate(sessions[c.id], thresholdUs, now) && c == CandidateOf(c.id, sessions[c.id], now)
  {
    hide IsCandidate;
    if scan != [] {
      var front, id := scan[..|scan| - 1], scan[|scan| - 1];
      assert scan == front + [id];
      EligibleIs(sessions, front, thresholdUs, now);
      var cs := Eligible(sessions, front, thresholdUs, now);
      forall i | 0 <= i < |cs|
        ensures cs[i].id != id
      {
        assert cs[i] in cs;
      }
    }
  }

  /** The sorted list names exactly the sessions to evict, each once and each with its manager. */
  lemma SortedEligible(sessions: map<nat, Session>, scan: seq<nat>, thresholdUs: nat, now: nat)
    requires ScanOf(scan, sessions)
    ensures var cs := SortCandidates(Eligible(sessions, scan, thresholdUs, now));
      && OnePerSession(cs) && InEvictionOrder(cs)
      && (forall c :: c in cs ==> c.id in sessions && sessions[c.id].manager.Some?)
      && LeastRecentFirst(cs, sessions, now)
      && IdsOf(cs) == EvictedSessions(sessions, thresholdUs, now) && |IdsOf(cs)| == |cs|
  {
    var found := Eligible(sessions, scan, thresholdUs, now);
    var cs := SortCandidates(found);
    EligibleIs(sessions, scan, thresholdUs, now);
    EvictionOrder(found);
    SortedIds(found, cs);
    forall c
      ensures c in cs <==> c in found
    {
      assert c in cs <==> c in multiset(found);
    }
    forall id | id in EvictedSessions(sessions, thresholdUs, now)
      ensures id in IdsOf(cs)
    {
      assert CandidateOf(id, sessions[id], now) in found;
    }
    CountSessions(cs);
    OrderedByActivity(cs, sessions, now);
  }

  /** Audit sessions come first, and within a class the one that was active earlier; sessions whose last activity
      is not before the clock reading are equally idle. */
  ghost predicate LeastRecentFirst(cs: seq<Candidate>, sessions: map<nat, Session>, now: nat)
    requires forall c :: c in cs ==> c.id in sessions
  {
    forall i, j :: 0 <= i < j < |cs| ==>
      var s, t := sessions[cs[i].id], sessions[cs[j].id];
      && (t.class_.Audit? ==> s.class_.Audit?)
      && (s.class_ == t.class_ ==> s.lastActivity <= t.lastActivity || now <= t.lastActivity)
  }

  lemma OrderedByActivity(cs: seq<Candidate>, sessions: map<nat, Session>, now: nat)
    requires InEvictionOrder(cs)
    requires forall c :: c in cs ==> c.id in sessions && c == CandidateOf(c.id, sessions[c.id], now)
    ensures LeastRecentFirst(cs, sessions, now)
  {
    forall i, j | 0 <= i < j < |cs|
      ensures var s, t := sessions[cs[i].id], sessions[cs[j].id];
        && (t.class_.Audit? ==> s.class_.Audit?)
        && (s.class_ == t.class_ ==> s.lastActivity <= t.lastActivity || now <= t.lastActivity)
    {
      assert cs[i] in cs && cs[j] in cs;
    }
  }

  lemma {:induction false} CountSessions(cs: seq<Candidate>)
    requires OnePerSession(cs)
    ensures |IdsOf(cs)| == |cs|
  {
    if cs != [] {
      var front, last := cs[..|cs| - 1], cs[|cs| - 1];
      CountSessions(front);
      assert cs == front + [last];
      assert IdsOf(cs) == IdsOf(front) + {last.id};
      assert last.id !in IdsOf(front);
    }
  }

  /** The session map after the sessions in `ids` lost their managers. */
  ghost function WithoutManagers(sessions: map<nat, Session>, ids: set<nat>): map<nat, Session> {
    map id | id in sessions :: if id in ids then sessions[id].(manager := None) else sessions[id]
  }

  lemma NoneWithout(sessions: map<nat, Session>)
    ensures sessions == WithoutManagers(sessions, IdsOf([])) && ManagersOf(sessions, IdsOf([])) == {}
  {
  }

  lemma OneMoreWithout(sessions: map<nat, Session>, cs: seq<Candidate>, i: nat)
    requires i < |cs| && OnePerSession(cs)
    requires forall c :: c in cs ==> c.id in sessions && sessions[c.id].manager.Some?
    ensures cs[i] in cs && cs[i].id in sessions
    ensures var now := WithoutManagers(sessions, IdsOf(cs[..i]));
      && cs[i].id in now && now[cs[i].id] == sessions[cs[i].id] && now[cs[i].id].manager.Some?
      && now[cs[i].id := now[cs[i].id].(manager := None)] == WithoutManagers(sessions, IdsOf(cs[..i + 1]))
    ensures ManagersOf(sessions, IdsOf(cs[..i])) + {sessions[cs[i].id].manager.value} == ManagersOf(sessions, IdsOf(cs[..i + 1]))
  {
    assert cs[..i + 1] == cs[..i] + [cs[i]];
    assert IdsOf(cs[..i + 1]) == IdsOf(cs[..i]) + {cs[i].id};
  }

  lemma {:induction false} CountOnce(cs: seq<Candidate>, c: Candidate)
    requires OnePerSession(cs)
    ensures multiset(cs)[c] <= 1
  {
    if cs != [] {
      CountOnce(cs[1..], c);
      assert cs == [cs[0]] + cs[1..];
      if cs[0] == c {
        assert c !in cs[1..];
      }
    }
  }

  /** A permutation of candidates with distinct ids has distinct ids. */
  lemma SortedIds(cs: seq<Candidate>, sorted: seq<Candidate>)
    requires multiset(sorted) == multiset(cs)
    requires OnePerSession(cs)
    ensures OnePerSession(sorted)
  {
    forall j, k | 0 <= j < k < |sorted|
      ensures sorted[j].id != sorted[k].id
    {
      assert sorted[j] in multiset(cs) && sorted[k] in multiset(cs);
      var x :| 0 <= x < |cs| && cs[x] == sorted[j];
      var y :| 0 <= y < |cs| && cs[y] == sorted[k];
      if sorted[j].id == sorted[k].id {
        assert x == y;
        OccursTwice(sorted, j, k);
        CountOnce(cs, sorted[j]);
      }
    }
  }

  ghost function EvictedSessions(sessions: map<nat, Session>, thresholdUs: nat, now: nat): set<nat> {
    set id | id in sessions && IsCandidate(sessions[id], thresholdUs, now)
  }

  ghost function ManagersOf(sessions: map<nat, Session>, ids: set<nat>): set<nat> {
    set id | id in ids && id in sessions && sessions[id].manager.Some? :: sessions[id].manager.value
  }

  /** The managers in `gone` are empty and unreadable, every other manager is as it was, and the pool's
      capacity is what it was. */
  ghost predicate Evicted(w: World, w': World, gone: set<nat>) {
    && Sound(w) && Sound(w') && |w'.managers| == |w.managers| && w'.pool.capacity == w.pool.capacity
    && (forall m :: 0 <= m < |w.managers| && m in gone ==> w'.managers[m] == Manager([], 0, Idle) && View(w', m) == [])
    && (forall m :: 0 <= m < |w.managers| && m !in gone ==> w'.managers[m] == w.managers[m] && View(w', m) == View(w, m))
  }

  lemma NothingEvicted(w: World)
    requires Sound(w)
    ensures Evicted(w, w, {})
  {
  }

  lemma EvictedOneMore(w0: World, w1: World, w2: World, gone: set<nat>, m: nat)
    requires Evicted(w0, w1, gone) && Evicted(w1, w2, {m})
    ensures Evicted(w0, w2, gone + {m})
  {
    hide Sound, View;
  }

  lemma {:induction false} ReleaseEachKeeps(p: Pool, ids: seq<BlockId>)
    ensures Seq.ReleaseEach(p, ids).capacity == p.capacity
    decreases |ids|
  {
    if ids != [] {
      ReleaseEachKeeps(ReleaseOne(p, ids[0]), ids[1..]);
    }
  }

  // ----- What eviction does to memory pressure

  lemma {:induction false} FewerTokensFewerBlocks(ms: seq<Manager>, ms': seq<Manager>)
    requires |ms| == |ms'| && forall m :: 0 <= m < |ms| ==> ms'[m].len <= ms[m].len
    ensures BlocksOf(ms') <= BlocksOf(ms)
  {
    if ms != [] {
      FewerTokensFewerBlocks(ms[..|ms| - 1], ms'[..|ms| - 1]);
    }
  }

  /** Used blocks after an eviction are exactly those of the managers that are left, and the pressure level
      does not rise. */
  lemma EvictionRelievesPressure(w: World, w': World, gone: set<nat>, t: PressureThresholds)
    requires Evicted(w, w', gone) && Seq.AllIdle(w) && Seq.AllIdle(w') && w.pool.capacity > 0
    ensures UsedBlocks(w'.pool) == w.pool.capacity - Slots(w.pool) + BlocksOf(w'.managers)
    ensures Severity(PressureOf(UsedBlocks(w'.pool), w.pool.capacity, t))
         <= Severity(PressureOf(UsedBlocks(w.pool), w.pool.capacity, t))
  {
    hide Shape, Ledger, View, PressureOf;
    UsedIsHeld(w);
    UsedIsHeld(w');
    FewerTokensFewerBlocks(w.managers, w'.managers);
    PressureIsMonotone(UsedBlocks(w'.pool), UsedBlocks(w.pool), w.pool.capacity, t);
  }

  /** Every session is judged by the configured threshold. */
  ghost predicate HonouredFor(threshold: nat, s: Session, now: nat) {
    IsCandidate(s, ThresholdUs(threshold), now) <==> Due(s, threshold, now)
  }

  /** The configured threshold is honoured for every session and clock reading of 64 bits exactly when it
      fits in 64 bits of microseconds; beyond that the truncation makes the scheduler evict too early. */
  lemma ThresholdIsHonoured(threshold: nat)
    ensures threshold < U64_SPAN <==>
      forall s: Session, now: nat :: now < U64_SPAN ==> HonouredFor(threshold, s, now)
  {
    if threshold >= U64_SPAN {
      assert !HonouredFor(threshold, Session(Audit, 0, Some(0)), U64_SPAN - 1);
    }
  }

  /** A threshold of exactly 2^64 microseconds evicts a session that was active this very instant. */
  lemma HugeThresholdEvictsActive(s: Session, now: nat)
    requires s.lastActivity == now && s.manager.Some?
    ensures IsCandidate(s, ThresholdUs(U64_SPAN), now)
  {
  }

  // ----- The speculation half of the ladder

  /** One batch's effect on the suspension flag. */
  function Ladder(suspended: bool, level: PressureLevel): bool {
    match level case Critical => true case High => suspended case Normal => false
  }

  function LadderAfter(suspended: bool, levels: seq<PressureLevel>): bool {
    if levels == [] then suspended else Ladder(LadderAfter(suspended, levels[..|levels| - 1]), levels[|levels| - 1])
  }

  /** Level `i` is Critical and no level after it is Normal. */
  predicate CriticalSince(levels: seq<PressureLevel>, i: nat) {
    i < |levels| && levels[i] == Critical && forall j :: i < j < |levels| ==> levels[j] != Normal
  }

  /** Speculation is suspended exactly when a Critical level has been seen and no Normal one since. */
  lemma {:induction false} SuspendedSinceCritical(levels: seq<PressureLevel>)
    ensures LadderAfter(false, levels) <==> exists i :: CriticalSince(levels, i)
  {
    if levels != [] {
      var n := |levels| - 1;
      var front := levels[..n];
      SuspendedSinceCritical(front);
      if levels[n] == Critical {
        assert CriticalSince(levels, n);
      } else if levels[n] == High && LadderAfter(false, front) {
        var i :| CriticalSince(front, i);
        assert CriticalSince(levels, i);
      } else if i: nat :| CriticalSince(levels, i) {
        assert i < n ==> CriticalSince(front, i);
      }
    }
  }
}
