/**
 Speculative decoding. The verifier's greedy `step` is any deterministic function of the token, the
 position and the KV state; it may fail, leaving some state behind. The draft model is arbitrary.
 Warming the expert cache has no effect on results and is left out.
 */
module Speculative {
  import opened Options

  datatype StepOutcome<Kv> = Next(token: nat, kv: Kv) | Failed(error: string, kv: Kv)

  type Verifier<!Kv> = (nat, nat, Kv) -> StepOutcome<Kv>

  /** The `&mut [KvCache]` the caller lends to a call. */
  class KvSlot<Kv> {
    var state: Kv
    constructor (state: Kv)
      ensures this.state == state
    {
      this.state := state;
    }
  }

  datatype GreedyRun<Kv> = GreedyRun(tokens: seq<nat>, kv: Kv, error: Option<string>)

  /** The plain loop: up to `n` steps, each fed the token before it, stopping at a failure. */
  function Greedy<Kv>(step: Verifier<Kv>, cur: nat, pos: nat, kv: Kv, n: nat): (r: GreedyRun<Kv>)
    ensures |r.tokens| <= n && (r.error.None? ==> |r.tokens| == n) && (r.error.Some? ==> |r.tokens| < n)
    decreases n
  {
    if n == 0 then GreedyRun([], kv, None)
    else
      match step(cur, pos, kv)
      case Failed(e, kv') => GreedyRun([], kv', Some(e))
      case Next(token, kv') =>
        var rest := Greedy(step, token, pos + 1, kv', n - 1);
        GreedyRun([token] + rest.tokens, rest.kv, rest.error)
  }

  /** Length of the longest common prefix. */
  function CommonPrefix(a: seq<nat>, b: seq<nat>): (n: nat)
    ensures n <= |a| && n <= |b| && a[..n] == b[..n]
    ensures n < |a| && n < |b| ==> a[n] != b[n]
  {
    if a == [] || b == [] || a[0] != b[0] then 0
    else
      var n := 1 + CommonPrefix(a[1..], b[1..]);
      assert a[..n] == [a[0]] + a[1..][..n - 1] && b[..n] == [b[0]] + b[1..][..n - 1];
      n
  }

  /** How many drafted tokens the greedy run confirms. */
  function Confirmed<Kv>(step: Verifier<Kv>, drafts: seq<nat>, seed: nat, pos: nat, kv: Kv): (n: nat)
    ensures n <= |drafts|
  {
    CommonPrefix(drafts, Greedy(step, seed, pos, kv, |drafts|).tokens)
  }

  /** How many verifier steps the call runs: one past the confirmed drafts, but no more than there are
      drafts, and at least one. */
  function StepsRun(drafts: seq<nat>, confirmed: nat): nat
    requires confirmed <= |drafts|
  {
    if drafts == [] then 1 else if confirmed == |drafts| then confirmed else confirmed + 1
  }

  datatype SpeculativeResult =
    | Accepted(accepted: seq<nat>, acceptedLen: nat)
    | Error(error: string)

  /** `step_speculative`: exactly the plain loop cut after `StepsRun` steps, in the tokens it returns, in
      the KV state it leaves and in the error it reports; `accepted_len` counts the confirmed drafts. */
  method StepSpeculative<Kv>(step: Verifier<Kv>, draft: (nat, nat) -> seq<nat>, seed: nat, pos: nat,
                             kv: KvSlot<Kv>, k: nat)
    returns (r: SpeculativeResult)
    modifies kv
    ensures var drafts := draft(seed, k);
      var confirmed := Confirmed(step, drafts, seed, pos, old(kv.state));
      var run := Greedy(step, seed, pos, old(kv.state), StepsRun(drafts, confirmed));
      && kv.state == run.kv
      && r == (if run.error.Some? then Error(run.error.value) else Accepted(run.tokens, confirmed))
  {
    var drafts := draft(seed, k);
    ghost var start := kv.state;
    GreedyOfZero(step, seed, pos, start);
    hide Greedy, Confirmed;
    var accepted, cur, acceptedLen := [], seed, 0;
    var i := 0;
    while i < |drafts|
      invariant i <= |drafts| && acceptedLen == i && accepted == drafts[..i]
      invariant Greedy(step, seed, pos, start, i) == GreedyRun(accepted, kv.state, None)
      invariant cur == if i == 0 then seed else drafts[i - 1]
    {
      VerifyOne(step, drafts, seed, pos, start, kv.state, i);
      match step(cur, pos + i, kv.state) {
        case Failed(e, kv') =>
          kv.state := kv';
          return Error(e);
        case Next(next, kv') =>
          kv.state := kv';
          accepted := accepted + [next];
          if next != drafts[i] {
            return Accepted(accepted, acceptedLen);
          }
          acceptedLen := acceptedLen + 1;
          cur := next;
      }
      i := i + 1;
    }
    AllConfirmed(step, drafts, seed, pos, start, kv.state);
    if accepted == [] {
      GreedyOneMore(step, seed, pos, start, 0);
      match step(seed, pos, kv.state) {
        case Failed(e, kv') =>
          kv.state := kv';
          return Error(e);
        case Next(next, kv') =>
          kv.state := kv';
          accepted := accepted + [next];
      }
    }
    return Accepted(accepted, acceptedLen);
  }

  /** What one verification step decides, after `i` confirmed drafts. */
  lemma VerifyOne<Kv>(step: Verifier<Kv>, drafts: seq<nat>, seed: nat, pos: nat, start: Kv, now: Kv, i: nat)
    requires i < |drafts| && Greedy(step, seed, pos, start, i) == GreedyRun(drafts[..i], now, None)
    ensures var o := step(if i == 0 then seed else drafts[i - 1], pos + i, now);
      match o
      case Failed(e, kv') =>
        && Confirmed(step, drafts, seed, pos, start) == i
        && Greedy(step, seed, pos, start, i + 1) == GreedyRun(drafts[..i], kv', Some(e))
      case Next(token, kv') =>
        && Greedy(step, seed, pos, start, i + 1) == GreedyRun(drafts[..i] + [token], kv', None)
        && (token != drafts[i] ==> Confirmed(step, drafts, seed, pos, start) == i)
        && (token == drafts[i] ==> drafts[..i] + [token] == drafts[..i + 1])
  {
    hide Greedy;
    GreedyOneMore(step, seed, pos, start, i);
    LongRunStartsWith(step, seed, pos, start, i + 1, |drafts|);
    var full := Greedy(step, seed, pos, start, |drafts|).tokens;
    var next := Greedy(step, seed, pos, start, i + 1);
    assert drafts[..i] <= next.tokens;
    assert full[..i] == drafts[..i];
    if next.error.Some? {
      PrefixEndsAt(drafts, full, i);
    } else if next.tokens[i] != drafts[i] {
      assert full[i] == next.tokens[i];
      PrefixEndsAt(drafts, full, i);
    }
  }

  lemma AllConfirmed<Kv>(step: Verifier<Kv>, drafts: seq<nat>, seed: nat, pos: nat, start: Kv, now: Kv)
    requires Greedy(step, seed, pos, start, |drafts|) == GreedyRun(drafts[..|drafts|], now, None)
    ensures Confirmed(step, drafts, seed, pos, start) == |drafts|
  {
    PrefixEndsAt(drafts, drafts[..|drafts|], |drafts|);
  }

  lemma {:induction false} PrefixEndsAt(a: seq<nat>, b: seq<nat>, n: nat)
    requires n <= |a| && n <= |b| && a[..n] == b[..n]
    requires n < |a| && n < |b| ==> a[n] != b[n]
    ensures CommonPrefix(a, b) == n
  {
    if n > 0 {
      assert a[..n][0] == a[0] && b[..n][0] == b[0];
      assert a[1..][..n - 1] == a[..n][1..] && b[1..][..n - 1] == b[..n][1..];
      PrefixEndsAt(a[1..], b[1..], n - 1);
    }
  }

  // ----- The plain loop, extended step by step

  /** The token and the state a run leaves to its successor. */
  function LastToken<Kv>(run: GreedyRun<Kv>, seed: nat): nat {
    if run.tokens == [] then seed else run.tokens[|run.tokens| - 1]
  }

  /** Two greedy runs one after the other are one greedy run. */
  lemma {:induction false} GreedyComposes<Kv>(step: Verifier<Kv>, seed: nat, pos: nat, kv: Kv, n: nat, m: nat)
    requires Greedy(step, seed, pos, kv, n).error.None?
    ensures var first := Greedy(step, seed, pos, kv, n);
      var second := Greedy(step, LastToken(first, seed), pos + n, first.kv, m);
      Greedy(step, seed, pos, kv, n + m) == GreedyRun(first.tokens + second.tokens, second.kv, second.error)
    decreases n
  {
    if n > 0 {
      var o := step(seed, pos, kv);
      GreedyComposes(step, o.token, pos + 1, o.kv, n - 1, m);
      var first := Greedy(step, seed, pos, kv, n);
      var tail := Greedy(step, o.token, pos + 1, o.kv, n - 1);
      assert first.tokens == [o.token] + tail.tokens;
      assert LastToken(first, seed) == LastToken(tail, o.token);
      var second := Greedy(step, LastToken(first, seed), pos + n, first.kv, m);
      assert [o.token] + (tail.tokens + second.tokens) == first.tokens + second.tokens;
    }
  }

  lemma GreedyOneMore<Kv>(step: Verifier<Kv>, seed: nat, pos: nat, kv: Kv, n: nat)
    requires Greedy(step, seed, pos, kv, n).error.None?
    ensures var run := Greedy(step, seed, pos, kv, n);
      Greedy(step, seed, pos, kv, n + 1) ==
        match step(LastToken(run, seed), pos + n, run.kv)
        case Failed(e, kv') => GreedyRun(run.tokens, kv', Some(e))
        case Next(token, kv') => GreedyRun(run.tokens + [token], kv', None)
  {
    GreedyComposes(step, seed, pos, kv, n, 1);
    var run := Greedy(step, seed, pos, kv, n);
    assert run.tokens + [] == run.tokens;
    var o := step(LastToken(run, seed), pos + n, run.kv);
    assert Greedy(step, LastToken(run, seed), pos + n, run.kv, 1)
        == if o.Failed? then GreedyRun([], o.kv, Some(o.error)) else GreedyRun([o.token] + [], o.kv, None);
  }

  /** A longer run starts with the shorter one. */
  lemma {:induction false} LongRunStartsWith<Kv>(step: Verifier<Kv>, seed: nat, pos: nat, kv: Kv, n: nat, m: nat)
    requires n <= m
    ensures Greedy(step, seed, pos, kv, n).tokens <= Greedy(step, seed, pos, kv, m).tokens
    ensures Greedy(step, seed, pos, kv, n).error.Some? ==>
      Greedy(step, seed, pos, kv, m) == Greedy(step, seed, pos, kv, n)
    decreases n
  {
    if n > 0 {
      var o := step(seed, pos, kv);
      if o.Next? {
        LongRunStartsWith(step, o.token, pos + 1, o.kv, n - 1, m - 1);
      }
    }
  }

  /** Step `i` of a run: fed the token before it, at the next position, from the state the step before left. */
  predicate IsStep<Kv(==)>(step: Verifier<Kv>, seed: nat, pos: nat, tokens: seq<nat>, states: seq<Kv>, i: nat)
    requires i < |tokens| && |states| == |tokens| + 1
  {
    step(if i == 0 then seed else tokens[i - 1], pos + i, states[i]) == Next(tokens[i], states[i + 1])
  }

  /** What the plain loop does, step by step: a chain of states in which every token comes from one step; it ends
      after `n` steps, or with the first failure, whose error and state are the run's. */
  lemma {:induction false} GreedySteps<Kv>(step: Verifier<Kv>, seed: nat, pos: nat, kv: Kv, n: nat) returns (states: seq<Kv>)
    ensures var run := Greedy(step, seed, pos, kv, n);
      && |states| == |run.tokens| + 1 && states[0] == kv
      && (forall i :: 0 <= i < |run.tokens| ==> IsStep(step, seed, pos, run.tokens, states, i))
      && match run.error
         case None => |run.tokens| == n && run.kv == states[n]
         case Some(e) =>
           && |run.tokens| < n
           && step(LastToken(run, seed), pos + |run.tokens|, states[|run.tokens|]) == Failed(e, run.kv)
    decreases n
  {
    states := [kv];
    if n > 0 {
      var o := step(seed, pos, kv);
      if o.Next? {
        var rest := GreedySteps(step, o.token, pos + 1, o.kv, n - 1);
        var run, tail := Greedy(step, seed, pos, kv, n), Greedy(step, o.token, pos + 1, o.kv, n - 1);
        states := [kv] + rest;
        forall i | 0 <= i < |run.tokens|
          ensures IsStep(step, seed, pos, run.tokens, states, i)
        {
          assert i > 0 ==> IsStep(step, o.token, pos + 1, tail.tokens, rest, i - 1);
        }
      }
    }
  }

  lemma GreedyOfZero<Kv>(step: Verifier<Kv>, seed: nat, pos: nat, kv: Kv)
    ensures Greedy(step, seed, pos, kv, 0) == GreedyRun([], kv, None)
  {
  }

  // ----- Chains of speculative calls

  /** One speculative call, as `StepSpeculative` specifies it. */
  function SpecCall<Kv>(step: Verifier<Kv>, drafts: seq<nat>, seed: nat, pos: nat, kv: Kv): GreedyRun<Kv> {
    Greedy(step, seed, pos, kv, StepsRun(drafts, Confirmed(step, drafts, seed, pos, kv)))
  }

  /** Calls in a row, each continuing from the last token, position and state of the one before; call `i`
      drafts with `calls[i]`, whatever that model is. */
  function SpecChain<Kv>(step: Verifier<Kv>, calls: seq<nat -> seq<nat>>, seed: nat, pos: nat, kv: Kv): GreedyRun<Kv>
    decreases |calls|
  {
    if calls == [] then GreedyRun([], kv, None)
    else
      var run := SpecCall(step, calls[0](seed), seed, pos, kv);
      if run.error.Some? then run
      else
        var rest := SpecChain(step, calls[1..], LastToken(run, seed), pos + |run.tokens|, run.kv);
        GreedyRun(run.tokens + rest.tokens, rest.kv, rest.error)
  }

  /** Main theorem: a chain of speculative calls, with any drafts, generates exactly what the plain greedy
      loop generates in some number of steps: the same tokens, final KV state and error; every call
      that does not fail adds at least one token. */
  lemma {:induction false} ChainIsGreedy<Kv>(step: Verifier<Kv>, calls: seq<nat -> seq<nat>>, seed: nat, pos: nat, kv: Kv)
    returns (n: nat)
    ensures SpecChain(step, calls, seed, pos, kv) == Greedy(step, seed, pos, kv, n)
    ensures n >= |SpecChain(step, calls, seed, pos, kv).tokens|
    ensures SpecChain(step, calls, seed, pos, kv).error.None? ==> n >= |calls|
    decreases |calls|
  {
    hide Greedy, Confirmed;
    if calls == [] {
      n := 0;
      GreedyOfZero(step, seed, pos, kv);
    } else {
      var drafts := calls[0](seed);
      var m := StepsRun(drafts, Confirmed(step, drafts, seed, pos, kv));
      var run := SpecCall(step, drafts, seed, pos, kv);
      if run.error.Some? {
        n := m;
      } else {
        var rest := ChainIsGreedy(step, calls[1..], LastToken(run, seed), pos + |run.tokens|, run.kv);
        GreedyComposes(step, seed, pos, kv, m, rest);
        n := m + rest;
      }
    }
  }

  /** How many tokens a call that does not fail returns: always at least one, never more than drafted
      (one when nothing was drafted), and one more than `accepted_len` except when every draft of a
      non-empty list was confirmed. */
  lemma AcceptedCounts<Kv>(step: Verifier<Kv>, drafts: seq<nat>, seed: nat, pos: nat, kv: Kv)
    requires SpecCall(step, drafts, seed, pos, kv).error.None?
    ensures var tokens, confirmed := SpecCall(step, drafts, seed, pos, kv).tokens, Confirmed(step, drafts, seed, pos, kv);
      && |tokens| >= 1 && (drafts != [] ==> |tokens| <= |drafts|)
      && |tokens| == (if drafts != [] && confirmed == |drafts| then confirmed else confirmed + 1)
      && confirmed == CommonPrefix(drafts, tokens)
  {
    var tokens := SpecCall(step, drafts, seed, pos, kv).tokens;
    if drafts != [] {
      LongRunStartsWith(step, seed, pos, kv, |tokens|, |drafts|);
      var full := Greedy(step, seed, pos, kv, |drafts|).tokens;
      var confirmed := Confirmed(step, drafts, seed, pos, kv);
      assert tokens == full[..|tokens|];
      assert drafts[..confirmed] == full[..confirmed] == tokens[..confirmed];
      PrefixEndsAt(drafts, tokens, confirmed);
    }
  }
}
