/** The simulator's batched transaction begin: buffered threads are tried round-robin, and a thread
    that failed five times takes the single global lock. The hardware is an arbitrary oracle.
 */
module BatchedBegin {

  const MAX_ROUNDS: nat := 5

  datatype Costs = Costs(xbegin: nat, xabort: nat, sgl: nat)

  // One call of try_begin.
  datatype Try = Try(tid: nat, ok: bool)

  function Count(log: seq<Try>, x: Try): nat {
    if log == [] then 0 else Count(log[..|log| - 1], x) + if log[|log| - 1] == x then 1 else 0
  }

  lemma {:induction false} CountAppend(log: seq<Try>, y: Try, x: Try)
    ensures Count(log + [y], x) == Count(log, x) + if x == y then 1 else 0
  {
    assert (log + [y])[..|log|] == log;
  }

  function Fails(log: seq<Try>, t: nat): nat {
    Count(log, Try(t, false))
  }

  function Oks(log: seq<Try>, t: nat): nat {
    Count(log, Try(t, true))
  }

  function Failures(log: seq<Try>): nat {
    if log == [] then 0 else Failures(log[..|log| - 1]) + if log[|log| - 1].ok then 0 else 1
  }

  predicate NoDup(s: seq<nat>) {
    forall i, j :: 0 <= i < j < |s| ==> s[i] != s[j]
  }

  // The cycles charged for a batch.
  function Charge(c: Costs, tries: nat, failures: nat, forced: nat): nat {
    tries * c.xbegin + failures * c.xabort + forced * c.sgl
  }

  // A thread's part of a batch: it enters at its first success or at its fifth failure.
  ghost predicate Consistent(log: seq<Try>, t: nat, tries: nat, entered: bool, forced: bool) {
    && tries == Fails(log, t) + Oks(log, t)
    && Oks(log, t) <= 1 && Fails(log, t) + Oks(log, t) <= MAX_ROUNDS
    && (forced <==> Fails(log, t) == MAX_ROUNDS)
    && (entered <==> forced || Oks(log, t) == 1)
  }

  function TriesOf(attempts: map<nat, nat>, t: nat): nat {
    if t in attempts then attempts[t] else 0
  }

  // What a batch has done: the locals of the flush, the try_begin calls, and whom it forced and began.
  datatype Batch = Batch(attempts: map<nat, nat>, entered: set<nat>, log: seq<Try>, forced: seq<nat>, begun: seq<nat>)

  // One try of a thread that has not entered.
  function Attempt(b: Batch, t: nat, ok: bool): Batch {
    var tries := TriesOf(b.attempts, t) + 1;
    var c := b.(attempts := b.attempts[t := tries], log := b.log + [Try(t, ok)]);
    if ok then c.(entered := b.entered + {t}, begun := b.begun + [t])
    else if tries >= MAX_ROUNDS then c.(entered := b.entered + {t}, begun := b.begun + [t], forced := b.forced + [t])
    else c
  }

  // Every distinct thread that has entered was begun exactly once, within five tries.
  ghost predicate Inv(b: Batch, queue: seq<nat>) {
    && NoDup(b.begun) && NoDup(b.forced)
    && (forall t :: t in b.begun <==> t in b.entered)
    && (forall t :: t in b.entered ==> t in queue)
    && (forall t: nat :: Consistent(b.log, t, TriesOf(b.attempts, t), t in b.entered, t in b.forced))
  }

  lemma {:induction false} ConsistentStep(b: Batch, t: nat, ok: bool, u: nat)
    requires Consistent(b.log, u, TriesOf(b.attempts, u), u in b.entered, u in b.forced) && t !in b.entered
    ensures var c := Attempt(b, t, ok);
            Consistent(c.log, u, TriesOf(c.attempts, u), u in c.entered, u in c.forced)
  {
    CountAppend(b.log, Try(t, ok), Try(u, false));
    CountAppend(b.log, Try(t, ok), Try(u, true));
  }

  lemma {:induction false} AttemptKeeps(b: Batch, queue: seq<nat>, t: nat, ok: bool)
    requires Inv(b, queue) && t in queue && t !in b.entered
    ensures Inv(Attempt(b, t, ok), queue)
  {
    var c := Attempt(b, t, ok);
    forall u: nat ensures Consistent(c.log, u, TriesOf(c.attempts, u), u in c.entered, u in c.forced) {
      assert Consistent(b.log, u, TriesOf(b.attempts, u), u in b.entered, u in b.forced);
      ConsistentStep(b, t, ok, u);
    }
    assert t !in b.begun && t !in b.forced by {
      assert Consistent(b.log, t, TriesOf(b.attempts, t), t in b.entered, t in b.forced);
    }
  }

  lemma {:induction false} ChargeStep(c: Costs, tries: nat, failures: nat, forced: nat)
    ensures Charge(c, tries + 1, failures, forced) == Charge(c, tries, failures, forced) + c.xbegin
    ensures Charge(c, tries, failures + 1, forced) == Charge(c, tries, failures, forced) + c.xabort
    ensures Charge(c, tries, failures, forced + 1) == Charge(c, tries, failures, forced) + c.sgl
  {
  }

  // m0 with the given threads set to v.
  ghost predicate Marked<V>(m: map<nat, V>, m0: map<nat, V>, ts: seq<nat>, v: V) {
    && (forall t :: t in m <==> t in m0 || t in ts)
    && (forall t :: t in m ==> if t in ts then m[t] == v else t in m0 && m[t] == m0[t])
  }

  lemma {:induction false} FailuresAppend(log: seq<Try>, y: Try)
    ensures Failures(log + [y]) == Failures(log) + if y.ok then 0 else 1
  {
    assert (log + [y])[..|log|] == log;
  }

  lemma {:induction false} ChargeAttempt(c: Costs, b: Batch, t: nat, ok: bool)
    ensures var d := Attempt(b, t, ok);
            Charge(c, |d.log|, Failures(d.log), |d.forced|) ==
              Charge(c, |b.log|, Failures(b.log), |b.forced|) + c.xbegin
              + (if ok then 0 else c.xabort) + (if |d.forced| > |b.forced| then c.sgl else 0)
  {
    var n, f, k := |b.log|, Failures(b.log), |b.forced|;
    FailuresAppend(b.log, Try(t, ok));
    ChargeStep(c, n, f, k);
    ChargeStep(c, n + 1, f, k);
    ChargeStep(c, n + 1, f + 1, k);
  }

  lemma {:induction false} MarkedStep<V>(m: map<nat, V>, m0: map<nat, V>, ts: seq<nat>, v: V, t: nat)
    requires Marked(m, m0, ts, v)
    ensures Marked(m[t := v], m0, ts + [t], v)
  {
  }

  datatype State = State(cycles: nat, begun: seq<nat>, inTx: map<nat, bool>, aborted: map<nat, bool>,
                         writeSet: map<nat, seq<nat>>, sglMode: map<nat, bool>)

  function Entered(s: State, t: nat): State {
    s.(begun := s.begun + [t], inTx := s.inTx[t := true], aborted := s.aborted[t := false],
       writeSet := s.writeSet[t := []])
  }

  // One turn of a thread that has made so many tries, the last with the answer ok.
  function Turn(c: Costs, s: State, t: nat, tries: nat, ok: bool): State {
    if ok then Entered(s.(cycles := s.cycles + c.xbegin), t)
    else if tries >= MAX_ROUNDS then
      Entered(s.(cycles := s.cycles + c.xbegin + c.xabort + c.sgl, sglMode := s.sglMode[t := true]), t)
    else s.(cycles := s.cycles + c.xbegin + c.xabort)
  }

  // The engine that was in state s0 before the batch b.
  ghost predicate After(c: Costs, s: State, s0: State, b: Batch) {
    && s.cycles == s0.cycles + Charge(c, |b.log|, Failures(b.log), |b.forced|)
    && s.begun == s0.begun + b.begun
    && Marked(s.inTx, s0.inTx, b.begun, true) && Marked(s.aborted, s0.aborted, b.begun, false)
    && Marked(s.writeSet, s0.writeSet, b.begun, []) && Marked(s.sglMode, s0.sglMode, b.forced, true)
  }

  lemma {:induction false} TurnAfter(c: Costs, s: State, s0: State, b: Batch, t: nat, ok: bool)
    requires After(c, s, s0, b)
    ensures After(c, Turn(c, s, t, TriesOf(b.attempts, t) + 1, ok), s0, Attempt(b, t, ok))
  {
    ChargeAttempt(c, b, t, ok);
    MarkedStep(s.inTx, s0.inTx, b.begun, true, t);
    MarkedStep(s.aborted, s0.aborted, b.begun, false, t);
    MarkedStep(s.writeSet, s0.writeSet, b.begun, [], t);
    MarkedStep(s.sglMode, s0.sglMode, b.forced, true, t);
    assert s0.begun + b.begun + [t] == s0.begun + (b.begun + [t]);
  }

  // The k-th call of try_begin got the oracle's k-th answer.
  ghost predicate Answers(log: seq<Try>, oracle: nat -> bool) {
    forall k :: 0 <= k < |log| ==> log[k].ok == oracle(k)
  }

  /* ----- the order of the tries ----- */

  const NOTHING: Batch := Batch(map[], {}, [], [], [])

  // A turn in a round: a thread that has entered is passed over, another gets the next answer.
  function TurnOf(b: Batch, t: nat, oracle: nat -> bool): Batch {
    if t in b.entered then b else Attempt(b, t, oracle(|b.log|))
  }

  function Sweep(b: Batch, ts: seq<nat>, oracle: nat -> bool): Batch {
    if ts == [] then b else TurnOf(Sweep(b, ts[..|ts| - 1], oracle), ts[|ts| - 1], oracle)
  }

  function Outside(ts: seq<nat>, entered: set<nat>): (r: seq<nat>)
    ensures forall t :: t in r <==> t in ts && t !in entered
  {
    if ts == [] then []
    else Outside(ts[..|ts| - 1], entered) + if ts[|ts| - 1] in entered then [] else [ts[|ts| - 1]]
  }

  // Up to n rounds over those who are still outside.
  function Rounds(b: Batch, ts: seq<nat>, oracle: nat -> bool, n: nat): Batch
    decreases n
  {
    if n == 0 || ts == [] then b
    else
      var c := Sweep(b, ts, oracle);
      Rounds(c, Outside(ts, c.entered), oracle, n - 1)
  }

  function Tids(log: seq<Try>): seq<nat> {
    seq(|log|, k requires 0 <= k < |log| => log[k].tid)
  }

  // A round tries everybody who is outside once, in the order of the queue.
  lemma {:induction false} SweepOrder(b: Batch, ts: seq<nat>, oracle: nat -> bool)
    requires NoDup(ts)
    ensures Tids(Sweep(b, ts, oracle).log) == Tids(b.log) + Outside(ts, b.entered)
    ensures forall t :: t in Sweep(b, ts, oracle).entered ==> t in b.entered || t in ts
    ensures b.entered <= Sweep(b, ts, oracle).entered
    decreases |ts|
  {
    if ts == [] {
    } else {
      var init, t := ts[..|ts| - 1], ts[|ts| - 1];
      SweepOrder(b, init, oracle);
      var c := Sweep(b, init, oracle);
      assert t !in init;
      if t !in c.entered {
        TidsAppend(c.log, Try(t, oracle(|c.log|)));
        AppendAssoc(Tids(b.log), Outside(init, b.entered), [t]);
      }
    }
  }

  lemma {:induction false} TidsAppend(log: seq<Try>, y: Try)
    ensures Tids(log + [y]) == Tids(log) + [y.tid]
  {
  }

  lemma {:induction false} AppendAssoc(x: seq<nat>, y: seq<nat>, z: seq<nat>)
    ensures x + y + z == x + (y + z)
  {
  }

  // The thread has entered, or has made at least so many tries.
  predicate Tried(b: Batch, t: nat, n: nat) {
    t in b.entered || TriesOf(b.attempts, t) >= n
  }

  predicate AllTried(b: Batch, ts: seq<nat>, n: nat) {
    forall j :: 0 <= j < |ts| ==> Tried(b, ts[j], n)
  }

  // The locals of the flush agree with the batch.
  predicate Locals(b: Batch, calls: nat, attempts: map<nat, nat>, entered: set<nat>) {
    calls == |b.log| && attempts == b.attempts && entered == b.entered
  }

  lemma {:induction false} LocalsStep(b: Batch, t: nat, ok: bool,
                                      calls: nat, attempts: map<nat, nat>, entered: set<nat>,
                                      attempts': map<nat, nat>, entered': set<nat>)
    requires Locals(b, calls, attempts, entered) && attempts' == attempts[t := TriesOf(attempts, t) + 1]
    requires entered' == if ok || TriesOf(attempts, t) + 1 >= MAX_ROUNDS then entered + {t} else entered
    ensures Locals(Attempt(b, t, ok), calls + 1, attempts', entered')
  {
  }

  lemma {:induction false} TriedStep(b: Batch, b': Batch, pending: seq<nat>, i: nat, n: nat, ok: bool)
    requires i < |pending| && AllTried(b, pending, n) && AllTried(b, pending[..i], n + 1)
    requires b' == if pending[i] in b.entered then b else Attempt(b, pending[i], ok)
    ensures AllTried(b', pending, n) && AllTried(b', pending[..i + 1], n + 1) && b.entered <= b'.entered
  {
    forall u: nat, k: nat | Tried(b, u, k) ensures Tried(b', u, k) {
    }
    assert Tried(b, pending[i], n);
    assert forall j :: 0 <= j < i ==> pending[..i + 1][j] == pending[..i][j];
  }

  // A round after its first i turns.
  ghost predicate Partway(b: Batch, b': Batch, pending: seq<nat>, i: nat, n: nat, oracle: nat -> bool)
    requires i <= |pending|
  {
    && AllTried(b', pending, n) && AllTried(b', pending[..i], n + 1) && b.entered <= b'.entered
    && b' == Sweep(b, pending[..i], oracle)
  }

  lemma {:induction false} PartwayStep(b: Batch, b': Batch, pending: seq<nat>, i: nat, n: nat, oracle: nat -> bool)
    requires i < |pending| && Partway(b, b', pending, i, n, oracle)
    ensures Partway(b, TurnOf(b', pending[i], oracle), pending, i + 1, n, oracle)
  {
    TriedStep(b', TurnOf(b', pending[i], oracle), pending, i, n, oracle(|b'.log|));
    assert pending[..i + 1][..i] == pending[..i];
  }

  lemma {:induction false} RoundsNext(b: Batch, ts: seq<nat>, oracle: nat -> bool, n: nat)
    requires n > 0 && ts != []
    ensures Rounds(b, ts, oracle, n) ==
            Rounds(Sweep(b, ts, oracle), Outside(ts, Sweep(b, ts, oracle).entered), oracle, n - 1)
  {
  }

  // Before round n: who is pending, and what the rounds that are left will come to.
  ghost predicate Ahead(b: Batch, pending: seq<nat>, queue: seq<nat>, n: nat, oracle: nat -> bool, goal: Batch) {
    && n <= MAX_ROUNDS && AllTried(b, pending, n)
    && (forall t :: t in pending ==> t in queue && t !in b.entered)
    && (forall t :: t in queue ==> t in b.entered || t in pending)
    && Rounds(b, pending, oracle, MAX_ROUNDS - n) == goal
  }

  lemma {:induction false} AheadStep(b: Batch, pending: seq<nat>, queue: seq<nat>, n: nat, oracle: nat -> bool,
                                     goal: Batch)
    requires n < MAX_ROUNDS && pending != [] && Ahead(b, pending, queue, n, oracle, goal)
    ensures var c := Sweep(b, pending, oracle);
            b.entered <= c.entered && AllTried(c, pending, n + 1) ==>
              Ahead(c, Outside(pending, c.entered), queue, n + 1, oracle, goal)
  {
    RoundsNext(b, pending, oracle, MAX_ROUNDS - n);
    var c := Sweep(b, pending, oracle);
    var left := Outside(pending, c.entered);
    if AllTried(c, pending, n + 1) {
      forall j | 0 <= j < |left| ensures Tried(c, left[j], n + 1) {
        assert left[j] in pending;
        var i :| 0 <= i < |pending| && pending[i] == left[j];
      }
    }
  }

  // Everybody is inside after at most five tries, and was forced exactly if all five failed.
  lemma {:induction false} FiveTries(b: Batch, queue: seq<nat>)
    requires Inv(b, queue)
    ensures forall t :: t in queue ==> Fails(b.log, t) <= 5 && (t in b.forced <==> Fails(b.log, t) == 5)
  {
    forall t | t in queue ensures Fails(b.log, t) <= 5 && (t in b.forced <==> Fails(b.log, t) == 5) {
      assert Consistent(b.log, t, TriesOf(b.attempts, t), t in b.entered, t in b.forced);
    }
  }

  ghost predicate Running(c: Costs, s: State, s0: State, b: Batch, queue: seq<nat>, oracle: nat -> bool) {
    Inv(b, queue) && After(c, s, s0, b) && Answers(b.log, oracle)
  }

  lemma {:induction false} RunningStep(c: Costs, s: State, s0: State, b: Batch, queue: seq<nat>, oracle: nat -> bool,
                                       t: nat, ok: bool)
    requires Running(c, s, s0, b, queue, oracle) && t in queue && t !in b.entered && ok == oracle(|b.log|)
    ensures Running(c, Turn(c, s, t, TriesOf(b.attempts, t) + 1, ok), s0, Attempt(b, t, ok), queue, oracle)
  {
    AttemptKeeps(b, queue, t, ok);
    TurnAfter(c, s, s0, b, t, ok);
  }

  lemma {:induction false} NothingYet(c: Costs, s: State, queue: seq<nat>, oracle: nat -> bool)
    ensures Running(c, s, s, NOTHING, queue, oracle)
    ensures Ahead(NOTHING, queue, queue, 0, oracle, Rounds(NOTHING, queue, oracle, 5))
    ensures Locals(NOTHING, 0, map[], {})
  {
  }

  class Engine {
    var cycles: nat
    var begun: seq<nat>            // the verifier's tx_begin calls
    var inTx: map<nat, bool>
    var aborted: map<nat, bool>
    var writeSet: map<nat, seq<nat>>
    var sglMode: map<nat, bool>
    const costs: Costs

    function Abs(): State
      reads this
    {
      State(cycles, begun, inTx, aborted, writeSet, sglMode)
    }

    constructor (c: Costs)
      ensures Abs() == State(0, [], map[], map[], map[], map[]) && costs == c
    {
      cycles, begun, inTx, aborted, writeSet, sglMode, costs := 0, [], map[], map[], map[], map[], c;
    }

    // What follows a begin that succeeded or was forced.
    method Enter(t: nat)
      modifies this
      ensures Abs() == Entered(old(Abs()), t)
    {
      begun := begun + [t];
      inTx := inTx[t := true];
      aborted := aborted[t := false];
      writeSet := writeSet[t := []];
    }

    // Any other backend: one begin for each buffered entry, duplicates included, and no charge.
    method FlushPlain(pending: seq<nat>)
      modifies this
      ensures begun == old(begun) + pending && cycles == old(cycles) && sglMode == old(sglMode)
      ensures Marked(inTx, old(inTx), pending, true) && Marked(aborted, old(aborted), pending, false)
      ensures Marked(writeSet, old(writeSet), pending, [])
    {
      for i := 0 to |pending|
        invariant begun == old(begun) + pending[..i] && cycles == old(cycles) && sglMode == old(sglMode)
        invariant Marked(inTx, old(inTx), pending[..i], true) && Marked(aborted, old(aborted), pending[..i], false)
        invariant Marked(writeSet, old(writeSet), pending[..i], [])
      {
        Enter(pending[i]);
        assert pending[..i + 1] == pending[..i] + [pending[i]];
      }
      assert pending[..|pending|] == pending;
    }

    // One turn of one thread; ok is the answer of try_begin.
    method TryThread(t: nat, ok: bool, attempts: map<nat, nat>, entered: set<nat>)
      returns (attempts': map<nat, nat>, entered': set<nat>)
      modifies this
      ensures var tries := TriesOf(attempts, t) + 1;
              && attempts' == attempts[t := tries]
              && entered' == (if ok || tries >= MAX_ROUNDS then entered + {t} else entered)
              && Abs() == Turn(costs, old(Abs()), t, tries, ok)
    {
      var a := TriesOf(attempts, t) + 1;
      attempts', entered' := attempts[t := a], entered;
      cycles := cycles + costs.xbegin;
      if !ok {
        cycles := cycles + costs.xabort;
      }
      if ok {
        entered' := entered + {t};
        Enter(t);
      } else if a >= MAX_ROUNDS {
        cycles := cycles + costs.sgl;
        sglMode := sglMode[t := true];
        entered' := entered + {t};
        Enter(t);
      }
    }

    // One turn in a batch: a thread that has entered is skipped, another gets the oracle's next answer.
    method Step(t: nat, oracle: nat -> bool, calls: nat, attempts: map<nat, nat>, entered: set<nat>,
                ghost queue: seq<nat>, ghost s0: State, ghost b: Batch)
      returns (calls': nat, attempts': map<nat, nat>, entered': set<nat>, ghost b': Batch)
      requires Running(costs, Abs(), s0, b, queue, oracle) && t in queue && Locals(b, calls, attempts, entered)
      modifies this
      ensures Running(costs, Abs(), s0, b', queue, oracle) && Locals(b', calls', attempts', entered')
      ensures b' == TurnOf(b, t, oracle)
    {
      calls', attempts', entered', b' := calls, attempts, entered, b;
      if t !in entered {
        var ok := oracle(calls);
        ghost var s1 := Turn(costs, Abs(), t, TriesOf(attempts, t) + 1, ok);
        RunningStep(costs, Abs(), s0, b, queue, oracle, t, ok);
        attempts', entered' := TryThread(t, ok, attempts, entered);
        calls' := calls + 1;
        b' := Attempt(b, t, ok);
        assert Abs() == s1;
        LocalsStep(b, t, ok, calls, attempts, entered, attempts', entered');
      }
    }

    // One round over the queue of those still outside; the k-th call of try_begin gets the answer oracle(k).
    method Round(pending: seq<nat>, oracle: nat -> bool, calls: nat, attempts: map<nat, nat>, entered: set<nat>,
                 ghost queue: seq<nat>, ghost s0: State, ghost b: Batch, ghost round: nat)
      returns (calls': nat, attempts': map<nat, nat>, entered': set<nat>, ghost b': Batch)
      requires Running(costs, Abs(), s0, b, queue, oracle) && Locals(b, calls, attempts, entered)
      requires (forall t :: t in pending ==> t in queue) && AllTried(b, pending, round)
      modifies this
      ensures Running(costs, Abs(), s0, b', queue, oracle) && Locals(b', calls', attempts', entered')
      ensures b.entered <= b'.entered && AllTried(b', pending, round + 1) && b' == Sweep(b, pending, oracle)
    {
      calls', attempts', entered', b' := calls, attempts, entered, b;
      for i := 0 to |pending|
        invariant Running(costs, Abs(), s0, b', queue, oracle) && Locals(b', calls', attempts', entered')
        invariant Partway(b, b', pending, i, round, oracle)
      {
        PartwayStep(b, b', pending, i, round, oracle);
        calls', attempts', entered', b' := Step(pending[i], oracle, calls', attempts', entered', queue, s0, b');
      }
      assert pending[..|pending|] == pending;
    }

    // A round, and whoever is left.
    method NextRound(pending: seq<nat>, oracle: nat -> bool, calls: nat, attempts: map<nat, nat>, entered: set<nat>,
                     ghost queue: seq<nat>, ghost s0: State, ghost b: Batch, ghost round: nat, ghost goal: Batch)
      returns (calls': nat, attempts': map<nat, nat>, entered': set<nat>, left: seq<nat>, ghost b': Batch)
      requires Running(costs, Abs(), s0, b, queue, oracle) && Locals(b, calls, attempts, entered)
      requires round < MAX_ROUNDS && pending != [] && Ahead(b, pending, queue, round, oracle, goal)
      modifies this
      ensures Running(costs, Abs(), s0, b', queue, oracle) && Locals(b', calls', attempts', entered')
      ensures Ahead(b', left, queue, round + 1, oracle, goal)
    {
      AheadStep(b, pending, queue, round, oracle, goal);
      calls', attempts', entered', b' := Round(pending, oracle, calls, attempts, entered, queue, s0, b, round);
      left := Retain(pending, entered');
    }

    // Forces whoever is left; after five rounds that is nobody.
    method Stragglers(pending: seq<nat>, entered: set<nat>)
      modifies this
      ensures pending == [] ==> Abs() == old(Abs())
    {
      for i := 0 to |pending|
        invariant pending == [] ==> Abs() == old(Abs())
      {
        if pending[i] !in entered {
          cycles := cycles + costs.sgl;
          sglMode := sglMode[pending[i] := true];
          Enter(pending[i]);
        }
      }
    }

    // The tsx-sim branch. Every distinct thread is begun exactly once, within five tries; it is forced iff
    // all five fail; and the cycles are those of the tries, the failures and the forced threads.
    method FlushTsx(queue: seq<nat>, oracle: nat -> bool) returns (ghost b: Batch)
      modifies this
      ensures Inv(b, queue) && Answers(b.log, oracle) && After(costs, Abs(), old(Abs()), b)
      ensures forall t :: t in queue <==> t in b.begun
      ensures b == Rounds(NOTHING, queue, oracle, 5)
      ensures forall t :: t in queue ==> Fails(b.log, t) <= 5 && (t in b.forced <==> Fails(b.log, t) == 5)
    {
      var entered, pending;
      ghost var n;
      entered, pending, b, n := AllRounds(queue, oracle);
      FlushEnds(b, pending, queue, n, oracle);
      Stragglers(pending, entered);
    }

    method AllRounds(queue: seq<nat>, oracle: nat -> bool)
      returns (entered: set<nat>, pending: seq<nat>, ghost b: Batch, ghost n: nat)
      modifies this
      ensures Running(costs, Abs(), old(Abs()), b, queue, oracle)
      ensures Ahead(b, pending, queue, n, oracle, Rounds(NOTHING, queue, oracle, 5))
      ensures pending == [] || n == MAX_ROUNDS
    {
      ghost var s0, goal := Abs(), Rounds(NOTHING, queue, oracle, 5);
      b, n := NOTHING, 0;
      NothingYet(costs, Abs(), queue, oracle);
      var calls, attempts := 0, map[];
      entered, pending := {}, queue;
      for round := 0 to MAX_ROUNDS
        invariant Running(costs, Abs(), s0, b, queue, oracle) && Locals(b, calls, attempts, entered)
        invariant n == round && Ahead(b, pending, queue, n, oracle, goal)
      {
        if pending == [] {
          break;
        }
        calls, attempts, entered, pending, b :=
          NextRound(pending, oracle, calls, attempts, entered, queue, s0, b, round, goal);
        n := n + 1;
      }
    }
  }

  method Retain(pending: seq<nat>, entered: set<nat>) returns (left: seq<nat>)
    ensures left == Outside(pending, entered)
  {
    left := [];
    for i := 0 to |pending|
      invariant left == Outside(pending[..i], entered)
    {
      if pending[i] !in entered {
        left := left + [pending[i]];
      }
      assert pending[..i + 1][..i] == pending[..i];
    }
    assert pending[..|pending|] == pending;
  }

  lemma {:induction false} NobodyLeft(b: Batch, queue: seq<nat>, pending: seq<nat>)
    requires Inv(b, queue)
    requires pending == [] || AllTried(b, pending, MAX_ROUNDS)
    requires forall t :: t in pending ==> t !in b.entered
    ensures pending == []
  {
    if pending != [] { NotDoneAtLimit(b, queue, pending[0]); }
  }

  lemma {:induction false} FlushEnds(b: Batch, pending: seq<nat>, queue: seq<nat>, n: nat, oracle: nat -> bool)
    requires Inv(b, queue) && Ahead(b, pending, queue, n, oracle, Rounds(NOTHING, queue, oracle, 5))
    requires pending == [] || n == MAX_ROUNDS
    ensures pending == [] && b == Rounds(NOTHING, queue, oracle, 5)
    ensures forall t :: t in queue <==> t in b.begun
    ensures forall t :: t in queue ==> Fails(b.log, t) <= 5 && (t in b.forced <==> Fails(b.log, t) == 5)
  {
    NobodyLeft(b, queue, pending);
    FiveTries(b, queue);
  }

  lemma {:induction false} NotDoneAtLimit(b: Batch, queue: seq<nat>, t: nat)
    requires Inv(b, queue) && Tried(b, t, MAX_ROUNDS)
    ensures t in b.entered
  {
    assert Consistent(b.log, t, TriesOf(b.attempts, t), t in b.entered, t in b.forced);
  }
}
