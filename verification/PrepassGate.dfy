/**
 The profitability gate of the routing pre-pass: an exponential moving average decides whether the gate
 is open, and a closed gate lets one probe through every 32 batches. Arithmetic is exact.
 */
module PrepassGate {
  const EST_AVOIDED_MISS_NS := 200_000.0
  const ALPHA := 0.25
  const PROBE_INTERVAL: nat := 32

  /** What happens to the gate: a batch asks, or an executed pre-pass reports. */
  datatype Event = Ask | Report(usefulFetches: nat, prepassNs: nat)

  datatype State = State(emaNetNs: real, batchesSinceProbe: nat)

  function Net(e: Event): real
    requires e.Report?
  {
    e.usefulFetches as real * EST_AVOIDED_MISS_NS - e.prepassNs as real
  }

  predicate Open(s: State) { s.emaNetNs >= 0.0 }

  predicate Allows(s: State) { Open(s) || s.batchesSinceProbe + 1 >= PROBE_INTERVAL }

  function Next(s: State, e: Event): State {
    match e
    case Ask =>
      if Open(s) then s
      else s.(batchesSinceProbe := if s.batchesSinceProbe + 1 >= PROBE_INTERVAL then 0 else s.batchesSinceProbe + 1)
    case Report(_, _) => s.(emaNetNs := ALPHA * Net(e) + (1.0 - ALPHA) * s.emaNetNs)
  }

  const FRESH := State(0.0, 0)

  function After(events: seq<Event>): State {
    if events == [] then FRESH else Next(After(events[..|events| - 1]), events[|events| - 1])
  }

  class Gate {
    var emaNetNs: real
    var batchesSinceProbe: nat

    function Value(): State
      reads this
    {
      State(emaNetNs, batchesSinceProbe)
    }

    constructor ()
      ensures Value() == FRESH
    {
      emaNetNs, batchesSinceProbe := 0.0, 0;
    }

    /** `should_run`. */
    method ShouldRun() returns (run: bool)
      modifies this
      ensures run == Allows(old(Value())) && Value() == Next(old(Value()), Ask)
    {
      if emaNetNs >= 0.0 {
        return true;
      }
      batchesSinceProbe := batchesSinceProbe + 1;
      if batchesSinceProbe >= PROBE_INTERVAL {
        batchesSinceProbe := 0;
        return true;
      }
      run := false;
    }

    /** `record`. */
    method Record(usefulFetches: nat, prepassNs: nat)
      modifies this
      ensures Value() == Next(old(Value()), Report(usefulFetches, prepassNs))
    {
      var net := usefulFetches as real * EST_AVOIDED_MISS_NS - prepassNs as real;
      emaNetNs := ALPHA * net + (1.0 - ALPHA) * emaNetNs;
    }
  }

  /** Batches that asked while the gate was closed, and those of them that were let through. */
  function ClosedAsks(events: seq<Event>): nat {
    if events == [] then 0
    else
      var front := events[..|events| - 1];
      ClosedAsks(front) + if events[|events| - 1].Ask? && !Open(After(front)) then 1 else 0
  }

  function Probes(events: seq<Event>): nat {
    if events == [] then 0
    else
      var front := events[..|events| - 1];
      Probes(front) + if events[|events| - 1].Ask? && !Open(After(front)) && Allows(After(front)) then 1 else 0
  }

  /** Whatever is reported in between, and however often the gate reopens, exactly every 32nd batch that finds
      it closed is let through: reopening does not restart the count. */
  lemma {:induction false} OneProbeIn32(events: seq<Event>)
    ensures Probes(events) == ClosedAsks(events) / PROBE_INTERVAL
    ensures After(events).batchesSinceProbe == ClosedAsks(events) % PROBE_INTERVAL
  {
    if events != [] {
      OneProbeIn32(events[..|events| - 1]);
    }
  }

  /** The reports of a run weighed by age: each older report counts three quarters of the next one. */
  function Weighed(events: seq<Event>): real {
    if events == [] then 0.0
    else
      var front, last := Weighed(events[..|events| - 1]), events[|events| - 1];
      if last.Report? then Net(last) + 0.75 * front else front
  }

  /** The gate is open exactly while the age-weighed net benefit of all reports is not negative; at exactly zero
      it is open, although the documentation closes it there. */
  lemma {:induction false} OpenIffProfitable(events: seq<Event>)
    ensures After(events).emaNetNs == 0.25 * Weighed(events)
    ensures Open(After(events)) <==> Weighed(events) >= 0.0
  {
    if events != [] {
      OpenIffProfitable(events[..|events| - 1]);
    }
  }

  /** The opening condition in what was reported: 200 microseconds for every useful fetch, less the nanoseconds
      the pre-pass took, each older report weighed three quarters of the next. */
  lemma OneReportOpensExactlyWhen(events: seq<Event>, usefulFetches: nat, prepassNs: nat)
    ensures var after := After(events + [Report(usefulFetches, prepassNs)]);
      && (Open(after) <==> usefulFetches as real * 200_000.0 + 0.75 * Weighed(events) >= prepassNs as real)
      && (events == [] ==> (Open(after) <==> usefulFetches * 200_000 >= prepassNs))
  {
    var e := Report(usefulFetches, prepassNs);
    assert (events + [e])[..|events|] == events;
    OpenIffProfitable(events + [e]);
  }

  /** One report reopens a closed gate exactly when its net benefit is at least three times the deficit. */
  lemma ReopensExactlyWhen(s: State, e: Event)
    requires !Open(s) && e.Report?
    ensures Open(Next(s, e)) <==> Net(e) >= -3.0 * s.emaNetNs
  {
  }
}
