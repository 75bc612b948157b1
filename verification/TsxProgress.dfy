/** The fenced fallback protocol never gets stuck: every reachable state has a run to the end. */
module TsxProgress {
  import opened TsxSgl

  predicate HoldsMutex(pc: Pc) {
    pc.Locked? || pc.Owned? || pc.Fenced? || pc.Loaded? || pc.Bumped? || pc.Cleared? || pc.Unlocking?
  }

  // A taken mutex has a holder that still has something to do, and no thread runs past its end.
  predicate Live(total: nat, w: World) {
    && (w.mem.mtx != 0 ==> w.mem.mtx <= |w.ts| && Critical(w.ts[w.mem.mtx - 1]))
    && forall j :: 0 <= j < |w.ts| ==> Bounded(total, w.ts[j])
  }

  predicate Bounded(total: nat, th: Thread) {
    th.iter <= total && th.tries <= MAX_TRIES && (th.pc != Top ==> th.iter < total)
  }

  // A step that changes thread t, dooms others or not, and does not give the mutex away.
  lemma {:induction false} StepKeepsLive(total: nat, w: World, t: nat, w': World)
    requires Live(total, w) && t < |w.ts| == |w'.ts| && Bounded(total, w'.ts[t])
    requires forall j :: 0 <= j < |w.ts| && j != t ==> w'.ts[j] == w.ts[j] || w'.ts[j] == w.ts[j].(doomed := true)
    requires w'.mem.mtx == w.mem.mtx || w'.mem.mtx == t + 1
    requires w'.mem.mtx == t + 1 ==> Critical(w'.ts[t])
    ensures Live(total, w')
  {
    forall j | 0 <= j < |w'.ts| ensures Bounded(total, w'.ts[j]) { assert Bounded(total, w.ts[j]); }
  }

  lemma {:induction false} NextKeepsLive(total: nat, w: World, a: Action, w': World)
    requires Inv(w) && Live(total, w) && Next(1, total, w, a, w')
    ensures Live(total, w')
  {
    var t, th := a.t, w.ts[a.t];
    assert ThreadOk(w.mem, w.ts, t) && Bounded(total, th);
    if a.Drain? {
      DrainKeepsLive(total, w, t, w');
    } else {
      assert w.mem.mtx == t + 1 ==> Critical(th);
      StepKeepsLive(total, w, t, w');
    }
  }

  lemma {:induction false} DrainKeepsLive(total: nat, w: World, t: nat, w': World)
    requires Inv(w) && Live(total, w) && t < |w.ts| && w.ts[t].buf != []
    requires w' == World(Put(w.mem, w.ts[t].buf[0]),
                         Doom(w.ts, t, w.ts[t].buf[0].loc)[t := w.ts[t].(buf := w.ts[t].buf[1..])])
    ensures Live(total, w')
  {
    assert ThreadOk(w.mem, w.ts, t);
    DrainOwn(w.mem, w.ts[t], t);
    forall j | 0 <= j < |w'.ts| ensures Bounded(total, w'.ts[j]) { assert Bounded(total, w.ts[j]); }
    assert w'.mem.mtx == 0 || (w'.mem.mtx == t + 1 && Critical(w'.ts[t])) by { MutexStoreLast(w.mem, w.ts[t]); }
  }

  // The store that frees the mutex is the last one of its buffer.
  lemma {:induction false} MutexStoreLast(mem: Mem, th: Thread)
    requires th.buf != [] && CriticalOk(mem, th)
    ensures th.buf[0].loc == Mtx ==> th.buf[0].val == 0
    ensures th.buf[0].loc != Mtx ==> Critical(th.(buf := th.buf[1..]))
  {
  }

  // w is reached by n threads.
  ghost predicate Visits(n: nat, total: nat, w: World) {
    exists k: nat :: Reached(1, n, total, w, k)
  }

  lemma {:induction false} VisitsNext(n: nat, total: nat, w: World, a: Action, w': World)
    requires Visits(n, total, w) && Next(1, total, w, a, w')
    ensures Visits(n, total, w')
  {
    var k: nat :| Reached(1, n, total, w, k);
    assert Reached(1, n, total, w', k + 1);
  }

  // w is reached by n threads within so many steps.
  ghost predicate VisitsIn(n: nat, total: nat, w: World, bound: nat) {
    exists k: nat :: k <= bound && Reached(1, n, total, w, k)
  }

  lemma {:induction false} LastStep(n: nat, total: nat, w: World, k: nat) returns (w0: World, a: Action)
    requires Reached(1, n, total, w, k) && k > 0
    ensures VisitsIn(n, total, w0, k - 1) && Inv(w0) && Next(1, total, w0, a, w)
  {
    w0, a :| Reached(1, n, total, w0, k - 1) && Next(1, total, w0, a, w);
    ReachedKeepsInv(n, total, w0, k - 1);
  }

  lemma {:induction false} ReachedLive(n: nat, total: nat, w: World, bound: nat)
    requires VisitsIn(n, total, w, bound)
    ensures Live(total, w)
    decreases bound
  {
    var k: nat :| k <= bound && Reached(1, n, total, w, k);
    if k == 0 {
      assert Initial(n, w);
    } else {
      var w0, a := LastStep(n, total, w, k);
      ReachedLive(n, total, w0, k - 1);
      NextKeepsLive(total, w0, a, w);
    }
  }

  lemma {:induction false} VisitsLive(n: nat, total: nat, w: World)
    requires Visits(n, total, w)
    ensures Inv(w) && Live(total, w)
  {
    var k: nat :| Reached(1, n, total, w, k);
    ReachedKeepsInv(n, total, w, k);
    ReachedLive(n, total, w, k);
  }

  /* ----- the work that is left ----- */

  const LAP: nat := 30

  // Steps of the current increment if every transaction fails, with room for the stores it buffers.
  function Stage(th: Thread): nat {
    match th.pc
    case Locked => 14
    case Owned => 12
    case Fenced => 11
    case Loaded(_) => 10
    case Bumped => 8
    case Cleared => 6
    case Unlocking => 5
    case Top => if th.tries <= MAX_TRIES then 15 + MAX_TRIES - th.tries else 15
    case _ => if th.tries <= MAX_TRIES then 16 + MAX_TRIES - th.tries else 16
  }

  function Left(total: nat, th: Thread): nat {
    (if th.iter <= total then (total - th.iter) * LAP else 0) + Stage(th) + |th.buf|
  }

  function AllLeft(total: nat, ts: seq<Thread>): nat {
    if ts == [] then 0 else Left(total, ts[0]) + AllLeft(total, ts[1..])
  }

  lemma {:induction false} AllLeftUpdate(total: nat, ts: seq<Thread>, t: nat, th: Thread)
    requires t < |ts|
    ensures AllLeft(total, ts[t := th]) == AllLeft(total, ts) - Left(total, ts[t]) + Left(total, th)
  {
    if t == 0 {
      assert ts[t := th][1..] == ts[1..];
    } else {
      AllLeftUpdate(total, ts[1..], t - 1, th);
      assert ts[t := th][1..] == ts[1..][t - 1 := th];
    }
  }

  // Dooming takes no work away and adds none.
  lemma {:induction false} AllLeftSame(total: nat, xs: seq<Thread>, ys: seq<Thread>)
    requires |xs| == |ys| && forall j :: 0 <= j < |xs| ==> Left(total, xs[j]) == Left(total, ys[j])
    ensures AllLeft(total, xs) == AllLeft(total, ys)
  {
    if xs == [] {
    } else {
      AllLeftSame(total, xs[1..], ys[1..]);
    }
  }

  /* ----- some thread can always go on ----- */

  lemma {:induction false} SglStepWorks(total: nat, mem: Mem, th: Thread)
    requires HoldsMutex(th.pc) && th.buf == [] && Bounded(total, th)
    ensures Left(total, SglNext(mem, th)) < Left(total, th)
  {
    assert (total - th.iter) * LAP == (total - th.iter - 1) * LAP + LAP;
  }

  // A thread that is not at its end has a step that lowers what it has left.
  lemma {:induction false} ThreadMoves(total: nat, w: World, t: nat) returns (a: Action, th': Thread)
    requires t < |w.ts| && Bounded(total, w.ts[t]) && w.ts[t].buf == []
    requires w.ts[t].pc != Top || w.ts[t].iter < total
    requires w.mem.mtx == 0 || w.ts[t].pc != Top || w.ts[t].tries < MAX_TRIES
    ensures a.t == t && Left(total, th') < Left(total, w.ts[t])
    ensures Next(1, total, w, a, With(w, t, th'))
            || (a.Lock? && Next(1, total, w, a, With(w, t, th').(mem := w.mem.(mtx := t + 1))))
  {
    var th := w.ts[t];
    if InTx(th.pc) {
      a, th' := TxAbort(t), th.(pc := Top);
    } else if HoldsMutex(th.pc) {
      SglStepWorks(total, w.mem, th);
      a, th' := SglStep(t), SglNext(w.mem, th);
    } else if th.tries < MAX_TRIES {
      a, th' := BeginFails(t), th.(tries := th.tries + 1);
    } else {
      a, th' := Lock(t), th.(pc := Locked);
    }
  }

  lemma {:induction false} Drains(total: nat, w: World, t: nat) returns (w': World)
    requires t < |w.ts| && w.ts[t].buf != []
    ensures Next(1, total, w, Drain(t), w') && AllLeft(total, w'.ts) < AllLeft(total, w.ts)
  {
    var th := w.ts[t];
    var doomed := Doom(w.ts, t, th.buf[0].loc);
    w' := World(Put(w.mem, th.buf[0]), doomed[t := th.(buf := th.buf[1..])]);
    AllLeftSame(total, w.ts, doomed);
    AllLeftUpdate(total, doomed, t, th.(buf := th.buf[1..]));
  }

  // Whom to run: a thread with buffered stores, else one that is inside, else one that is outside.
  lemma {:induction false} Pick(total: nat, w: World) returns (t: nat)
    requires Inv(w) && Live(total, w) && !Finished(total, w) && forall j :: 0 <= j < |w.ts| ==> w.ts[j].buf == []
    ensures t < |w.ts| && (w.ts[t].pc != Top || (w.ts[t].iter < total && w.mem.mtx == 0))
  {
    if j :| 0 <= j < |w.ts| && w.ts[j].pc != Top {
      t := j;
    } else {
      t :| 0 <= t < |w.ts| && !(w.ts[t].pc == Top && w.ts[t].iter == total && w.ts[t].buf == []);
      assert Bounded(total, w.ts[t]);
    }
  }

  lemma {:induction false} CanMove(total: nat, w: World) returns (a: Action, w': World)
    requires Inv(w) && Live(total, w) && !Finished(total, w)
    ensures Next(1, total, w, a, w') && AllLeft(total, w'.ts) < AllLeft(total, w.ts)
  {
    if j :| 0 <= j < |w.ts| && w.ts[j].buf != [] {
      a := Drain(j);
      w' := Drains(total, w, j);
    } else {
      var t := Pick(total, w);
      var th';
      assert Bounded(total, w.ts[t]);
      a, th' := ThreadMoves(total, w, t);
      AllLeftUpdate(total, w.ts, t, th');
      w' := With(w, t, th');
      if !Next(1, total, w, a, w') { w' := w'.(mem := w.mem.(mtx := t + 1)); }
    }
  }

  // w' is reached from w by exactly k more steps.
  ghost predicate Leads(total: nat, w: World, w': World, k: nat)
    decreases k
  {
    if k == 0 then w' == w else exists a, w1 :: Next(1, total, w, a, w1) && Leads(total, w1, w', k - 1)
  }

  lemma {:induction false} RunsToEnd(total: nat, w: World) returns (w': World, k: nat)
    requires Inv(w) && Live(total, w)
    ensures Leads(total, w, w', k) && Finished(total, w')
    decreases AllLeft(total, w.ts)
  {
    if Finished(total, w) {
      w', k := w, 0;
    } else {
      var a, w1 := CanMove(total, w);
      NextKeeps(total, w, a, w1);
      NextKeepsLive(total, w, a, w1);
      w', k := RunsToEnd(total, w1);
      k := k + 1;
    }
  }

  // w' is reached from w within so many steps.
  ghost predicate LeadsIn(total: nat, w: World, w': World, bound: nat) {
    exists k: nat :: k <= bound && Leads(total, w, w', k)
  }

  lemma {:induction false} FirstStep(n: nat, total: nat, w: World, w': World, k: nat) returns (w1: World)
    requires Visits(n, total, w) && Leads(total, w, w', k) && k > 0
    ensures Visits(n, total, w1) && LeadsIn(total, w1, w', k - 1)
  {
    var a;
    a, w1 :| Next(1, total, w, a, w1) && Leads(total, w1, w', k - 1);
    VisitsNext(n, total, w, a, w1);
  }

  lemma {:induction false} LeadsVisits(n: nat, total: nat, w: World, w': World, bound: nat)
    requires Visits(n, total, w) && LeadsIn(total, w, w', bound)
    ensures Visits(n, total, w')
    decreases bound
  {
    var k: nat :| k <= bound && Leads(total, w, w', k);
    if k == 0 {
      assert w' == w;
    } else {
      var w1 := FirstStep(n, total, w, w', k);
      LeadsVisits(n, total, w1, w', k - 1);
    }
  }

  // From every reachable state of the fenced program, for any number of threads and increments, there is
  // a run to the end, and it counts every increment.
  lemma {:induction false} FencedCanFinish(n: nat, total: nat, w: World) returns (w': World, k: nat)
    requires Visits(n, total, w)
    ensures Leads(total, w, w', k) && Visits(n, total, w')
    ensures Finished(total, w') && w'.mem.ctr == n * total
  {
    VisitsLive(n, total, w);
    w', k := RunsToEnd(total, w);
    LeadsVisits(n, total, w, w', k);
    var i: nat :| Reached(1, n, total, w', i);
    FencedLosesNothing(n, total, w', i);
  }

  // So some run ends, whatever the number of threads and increments.
  lemma {:induction false} FencedHasRun(n: nat, total: nat)
    ensures exists w, k: nat :: Reached(1, n, total, w, k) && Finished(total, w) && w.mem.ctr == n * total
  {
    var w := World(Mem(0, 0, 0), seq(n, _ => FRESH));
    assert Reached(1, n, total, w, 0);
    var w', k := FencedCanFinish(n, total, w);
  }
}
