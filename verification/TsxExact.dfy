/** For which modes, numbers of threads and numbers of increments the final count is right in every run. */
module TsxExact {
  import opened TsxSgl

  ghost predicate Got(m: int, n: nat, total: nat, w: World) {
    exists k: nat :: Reached(m, n, total, w, k)
  }

  lemma {:induction false} GotNext(m: int, n: nat, total: nat, w: World, a: Action, w': World)
    requires Got(m, n, total, w) && Next(m, total, w, a, w')
    ensures Got(m, n, total, w')
  {
    var k: nat :| Reached(m, n, total, w, k);
    assert Reached(m, n, total, w', k + 1);
  }

  // w is reached within so many steps.
  ghost predicate GotIn(m: int, n: nat, total: nat, w: World, bound: nat) {
    exists k: nat :: k <= bound && Reached(m, n, total, w, k)
  }

  lemma {:induction false} LastStep(m: int, n: nat, total: nat, w: World, k: nat) returns (w0: World, a: Action)
    requires Reached(m, n, total, w, k) && k > 0
    ensures GotIn(m, n, total, w0, k - 1) && Next(m, total, w0, a, w)
  {
    w0, a :| Reached(m, n, total, w0, k - 1) && Next(m, total, w0, a, w);
  }

  /* ----- one thread: it always sees its own stores ----- */

  predicate Alone(w: World) {
    && |w.ts| == 1
    && var th := w.ts[0];
       && Load(w.mem, th.buf, Ctr) == Made(th)
       && (ReadCtr(th.pc) || th.pc.Loaded? ==> th.pc.v == th.iter)
  }

  lemma {:induction false} NextKeepsAlone(m: int, total: nat, w: World, a: Action, w': World)
    requires Alone(w) && Next(m, total, w, a, w')
    ensures Alone(w')
  {
    var th := w.ts[0];
    if a.Drain? {
      LoadDrain(w.mem, th.buf, Ctr);
    } else if a.SglStep? {
      SglKeepsAlone(w.mem, th);
    } else if a.TxStep? {
      TxKeepsAlone(w.mem, th);
    } else {
      assert w'.ts[0].buf == th.buf;
    }
  }

  lemma {:induction false} TxKeepsAlone(mem: Mem, th: Thread)
    requires th.pc.TxBegun? || th.pc.TxChecked? || th.pc.TxLoaded? || th.pc.TxStored?
    requires Load(mem, th.buf, Ctr) == Made(th) && (ReadCtr(th.pc) ==> th.pc.v == th.iter)
    ensures var pc := TxNext(mem, th);
            && Made(th.(pc := pc)) == Made(th) && !pc.Loaded?
            && (ReadCtr(pc) ==> pc.v == th.iter)
  {
  }

  lemma {:induction false} SglKeepsAlone(mem: Mem, th: Thread)
    requires Load(mem, th.buf, Ctr) == Made(th) && (th.pc.Loaded? ==> th.pc.v == th.iter)
    requires th.pc.Locked? || th.pc.Owned? || th.pc.Fenced? || th.pc.Loaded? || th.pc.Bumped? || th.pc.Cleared?
             || th.pc.Unlocking?
    ensures var th' := SglNext(mem, th);
            Load(mem, th'.buf, Ctr) == Made(th') && (th'.pc.Loaded? ==> th'.pc.v == th'.iter)
  {
    match th.pc {
      case Locked => Stored(mem, th.buf, SglNext(mem, th).buf, Store(Sgl, 1));
      case Loaded(v) => Stored(mem, th.buf, SglNext(mem, th).buf, Store(Ctr, v + 1));
      case Bumped => Stored(mem, th.buf, SglNext(mem, th).buf, Store(Sgl, 0));
      case Unlocking => Stored(mem, th.buf, SglNext(mem, th).buf, Store(Mtx, 0));
      case _ =>
    }
  }

  lemma {:induction false} Stored(mem: Mem, buf: seq<Store>, buf': seq<Store>, s: Store)
    requires buf' == buf + [s]
    ensures Load(mem, buf', Ctr) == if s.loc == Ctr then s.val else Load(mem, buf, Ctr)
  {
    LoadSnoc(mem, buf, s, Ctr);
  }

  lemma {:induction false} ReachedAlone(m: int, total: nat, w: World, bound: nat)
    requires GotIn(m, 1, total, w, bound)
    ensures Alone(w)
    decreases bound
  {
    var k: nat :| k <= bound && Reached(m, 1, total, w, k);
    if k == 0 {
      assert Initial(1, w);
    } else {
      var w0, a := LastStep(m, 1, total, w, k);
      ReachedAlone(m, total, w0, k - 1);
      NextKeepsAlone(m, total, w0, a, w);
    }
  }

  /* ----- nobody, or nothing to do ----- */

  lemma {:induction false} NothingHappens(m: int, n: nat, total: nat, w: World, bound: nat)
    requires GotIn(m, n, total, w, bound) && (n == 0 || total == 0)
    ensures Initial(n, w)
    decreases bound
  {
    var k: nat :| k <= bound && Reached(m, n, total, w, k);
    if k == 0 {
    } else {
      var w0, a := LastStep(m, n, total, w, k);
      NothingHappens(m, n, total, w0, k - 1);
    }
  }

  /* ----- a calm world can go on to the end, adding what is owed ----- */

  predicate Resting(total: nat, th: Thread) {
    th.pc == Top && th.tries == 0 && th.buf == [] && th.iter <= total
  }

  predicate Calm(total: nat, w: World) {
    w.mem.sgl == 0 && w.mem.mtx == 0 && forall j :: 0 <= j < |w.ts| ==> Resting(total, w.ts[j])
  }

  function Owed(total: nat, ts: seq<Thread>): nat {
    if ts == [] then 0 else (if ts[0].iter <= total then total - ts[0].iter else 0) + Owed(total, ts[1..])
  }

  lemma {:induction false} OwedLess(total: nat, ts: seq<Thread>, t: nat, th: Thread)
    requires t < |ts| && ts[t].iter < total && th.iter == ts[t].iter + 1
    ensures Owed(total, ts[t := th]) < Owed(total, ts)
  {
    if t == 0 {
      assert ts[t := th][1..] == ts[1..];
    } else {
      OwedLess(total, ts[1..], t - 1, th);
      assert ts[t := th][1..] == ts[1..][t - 1 := th];
    }
  }

  // A step of thread t that touches nothing else.
  lemma {:induction false} LocalGo(m: int, n: nat, total: nat, w: World, t: nat, th: Thread, a: Action, th': Thread)
    requires t < |w.ts| && Got(m, n, total, With(w, t, th))
    requires Next(m, total, With(w, t, th), a, With(With(w, t, th), t, th'))
    ensures Got(m, n, total, With(w, t, th'))
  {
    GotNext(m, n, total, With(w, t, th), a, With(With(w, t, th), t, th'));
    assert With(With(w, t, th), t, th') == With(w, t, th');
  }

  // In a calm world a transaction of thread t runs through.
  lemma {:induction false} TxRuns(m: int, n: nat, total: nat, w: World, t: nat) returns (th: Thread)
    requires Got(m, n, total, w) && Calm(total, w) && t < |w.ts| && w.ts[t].iter < total
    ensures Got(m, n, total, With(w, t, th)) && th.pc == TxRechecked(w.mem.ctr) && !th.doomed && th.buf == []
    ensures th.iter == w.ts[t].iter
  {
    var th0, c := w.ts[t], w.mem.ctr;
    assert Resting(total, th0) && With(w, t, th0) == w;
    var b := th0.(pc := TxBegun, tries := 1, doomed := false);
    LocalGo(m, n, total, w, t, th0, Begin(t), b);
    LocalGo(m, n, total, w, t, b, TxStep(t), b.(pc := TxChecked));
    LocalGo(m, n, total, w, t, b.(pc := TxChecked), TxStep(t), b.(pc := TxLoaded(c)));
    LocalGo(m, n, total, w, t, b.(pc := TxLoaded(c)), TxStep(t), b.(pc := TxStored(c)));
    LocalGo(m, n, total, w, t, b.(pc := TxStored(c)), TxStep(t), b.(pc := TxRechecked(c)));
    th := b.(pc := TxRechecked(c));
  }

  // One more increment in a calm world.
  lemma {:induction false} CalmIncrement(m: int, n: nat, total: nat, w: World, t: nat) returns (w': World)
    requires Got(m, n, total, w) && Calm(total, w) && t < |w.ts| && w.ts[t].iter < total
    ensures Got(m, n, total, w') && Calm(total, w') && |w'.ts| == |w.ts|
    ensures w'.mem.ctr - Landed(w'.ts) == w.mem.ctr - Landed(w.ts) && Owed(total, w'.ts) < Owed(total, w.ts)
  {
    var th := TxRuns(m, n, total, w, t);
    var done := th.(pc := Top, iter := th.iter + 1, tries := 0);
    w' := World(w.mem.(ctr := w.mem.ctr + 1), w.ts[t := done]);
    CalmCommit(m, n, total, w, t, th, w');
    forall j | 0 <= j < |w'.ts| ensures Resting(total, w'.ts[j]) { assert Resting(total, w.ts[j]); }
    assert Resting(total, w.ts[t]);
    LandedUpdate(w.ts, t, done);
    OwedLess(total, w.ts, t, done);
  }

  lemma {:induction false} CalmCommit(m: int, n: nat, total: nat, w: World, t: nat, th: Thread, w': World)
    requires Calm(total, w) && t < |w.ts| && Got(m, n, total, With(w, t, th))
    requires th.pc == TxRechecked(w.mem.ctr) && !th.doomed && th.buf == []
    requires w' == World(w.mem.(ctr := w.mem.ctr + 1), w.ts[t := th.(pc := Top, iter := th.iter + 1, tries := 0)])
    ensures Got(m, n, total, w')
  {
    var v := With(w, t, th);
    forall j | 0 <= j < |v.ts| && j != t ensures !HasRead(v.ts[j].pc, Ctr) { assert Resting(total, w.ts[j]); }
    assert w'.ts == Doom(v.ts, t, Ctr)[t := w'.ts[t]];
    GotNext(m, n, total, v, TxEnd(t), w');
  }

  lemma {:induction false} CalmFinishes(m: int, n: nat, total: nat, w: World) returns (w': World)
    requires Got(m, n, total, w) && Calm(total, w)
    ensures Got(m, n, total, w') && Finished(total, w') && |w'.ts| == |w.ts|
    ensures w'.mem.ctr - Landed(w'.ts) == w.mem.ctr - Landed(w.ts)
    decreases Owed(total, w.ts)
  {
    if t :| 0 <= t < |w.ts| && w.ts[t].iter < total {
      var next := CalmIncrement(m, n, total, w, t);
      w' := CalmFinishes(m, n, total, next);
    } else {
      forall j | 0 <= j < |w.ts| ensures w.ts[j].pc == Top && w.ts[j].iter == total && w.ts[j].buf == [] {
        assert Resting(total, w.ts[j]);
      }
      w' := w;
    }
  }

  /* ----- the losing run: a mutex holder and another thread, while the rest wait ----- */

  function Rest(n: nat): (r: seq<Thread>)
    requires n >= 2
    ensures |r| == n - 2 && forall j :: 0 <= j < |r| ==> r[j] == FRESH
  {
    seq(n - 2, _ => FRESH)
  }

  function Two(n: nat, mem: Mem, h: Thread, o: Thread): (w: World)
    requires n >= 2
    ensures |w.ts| == n && w.ts[0] == h && w.ts[1] == o && forall j :: 2 <= j < n ==> w.ts[j] == FRESH
  {
    World(mem, [h, o] + Rest(n))
  }

  ghost predicate Ran(m: int, n: nat, total: nat, mem: Mem, h: Thread, o: Thread)
    requires n >= 2
  {
    Got(m, n, total, Two(n, mem, h, o))
  }

  lemma {:induction false} SetHolder(n: nat, mem: Mem, h: Thread, o: Thread, h': Thread)
    requires n >= 2
    ensures With(Two(n, mem, h, o), 0, h') == Two(n, mem, h', o)
  {
    assert ([h, o] + Rest(n))[0 := h'] == [h', o] + Rest(n);
  }

  lemma {:induction false} SetOther(n: nat, mem: Mem, h: Thread, o: Thread, o': Thread)
    requires n >= 2
    ensures With(Two(n, mem, h, o), 1, o') == Two(n, mem, h, o')
  {
    assert ([h, o] + Rest(n))[1 := o'] == [h, o'] + Rest(n);
  }

  lemma {:induction false} HolderGoes(m: int, n: nat, total: nat, mem: Mem, h: Thread, o: Thread, a: Action, h': Thread)
    requires n >= 2 && Ran(m, n, total, mem, h, o)
    requires Next(m, total, Two(n, mem, h, o), a, With(Two(n, mem, h, o), 0, h'))
    ensures Ran(m, n, total, mem, h', o)
  {
    GotNext(m, n, total, Two(n, mem, h, o), a, With(Two(n, mem, h, o), 0, h'));
    SetHolder(n, mem, h, o, h');
  }

  lemma {:induction false} OtherGoes(m: int, n: nat, total: nat, mem: Mem, h: Thread, o: Thread, a: Action, o': Thread)
    requires n >= 2 && Ran(m, n, total, mem, h, o)
    requires Next(m, total, Two(n, mem, h, o), a, With(Two(n, mem, h, o), 1, o'))
    ensures Ran(m, n, total, mem, h, o')
  {
    GotNext(m, n, total, Two(n, mem, h, o), a, With(Two(n, mem, h, o), 1, o'));
    SetOther(n, mem, h, o, o');
  }

  lemma {:induction false} HolderStep(m: int, n: nat, total: nat, mem: Mem, h: Thread, o: Thread)
    requires n >= 2 && Ran(m, n, total, mem, h, o) && m != 1 && (h.pc.Cleared? ==> h.buf == [])
    requires h.pc.Locked? || h.pc.Owned? || h.pc.Fenced? || h.pc.Loaded? || h.pc.Bumped? || h.pc.Cleared?
             || h.pc.Unlocking?
    ensures Ran(m, n, total, mem, SglNext(mem, h), o)
  {
    HolderGoes(m, n, total, mem, h, o, SglStep(0), SglNext(mem, h));
  }

  lemma {:induction false} HolderDrains(m: int, n: nat, total: nat, mem: Mem, h: Thread, o: Thread)
    requires n >= 2 && Ran(m, n, total, mem, h, o) && h.buf != [] && !InTx(o.pc)
    ensures Ran(m, n, total, Put(mem, h.buf[0]), h.(buf := h.buf[1..]), o)
  {
    var w, s, h' := Two(n, mem, h, o), h.buf[0], h.(buf := h.buf[1..]);
    var w' := Two(n, Put(mem, s), h', o);
    assert w'.ts == Doom(w.ts, 0, s.loc)[0 := h'];
    GotNext(m, n, total, w, Drain(0), w');
  }

  lemma {:induction false} OtherSteps(m: int, n: nat, total: nat, mem: Mem, h: Thread, o: Thread)
    requires n >= 2 && Ran(m, n, total, mem, h, o)
    requires o.pc.TxBegun? || o.pc.TxChecked? || o.pc.TxLoaded? || o.pc.TxStored?
    ensures Ran(m, n, total, mem, h, o.(pc := TxNext(mem, o)))
  {
    OtherGoes(m, n, total, mem, h, o, TxStep(1), o.(pc := TxNext(mem, o)));
  }

  lemma {:induction false} OtherEnds(m: int, n: nat, total: nat, mem: Mem, h: Thread, o: Thread)
    requires n >= 2 && Ran(m, n, total, mem, h, o)
    requires o.pc.TxRechecked? && !o.doomed && o.buf == [] && !InTx(h.pc)
    ensures Ran(m, n, total, mem.(ctr := o.pc.v + 1), h, o.(pc := Top, iter := o.iter + 1, tries := 0))
  {
    var o' := o.(pc := Top, iter := o.iter + 1, tries := 0);
    var w, w' := Two(n, mem, h, o), Two(n, mem.(ctr := o.pc.v + 1), h, o');
    assert w'.ts == Doom(w.ts, 1, Ctr)[1 := o'];
    GotNext(m, n, total, w, TxEnd(1), w');
  }

  lemma {:induction false} HolderLocks(m: int, n: nat, total: nat)
    requires n >= 2 && total >= 1
    ensures Ran(m, n, total, Mem(0, 0, 1), Thread(Locked, 0, 5, [], false), FRESH)
  {
    var mem := Mem(0, 0, 0);
    assert Reached(m, n, total, Two(n, mem, FRESH, FRESH), 0);
    for k := 0 to 5
      invariant Ran(m, n, total, mem, FRESH.(tries := k), FRESH)
    {
      HolderGoes(m, n, total, mem, FRESH.(tries := k), FRESH, BeginFails(0), FRESH.(tries := k + 1));
    }
    var h := FRESH.(tries := 5);
    var w, w' := Two(n, mem, h, FRESH), Two(n, Mem(0, 0, 1), h.(pc := Locked), FRESH);
    SetHolder(n, mem, h, FRESH, h.(pc := Locked));
    GotNext(m, n, total, w, Lock(0), w');
  }

  // The mutex holder gets as far as loading the counter, with sgl_owner = 1 still in its buffer.
  lemma {:induction false} HolderLoads(m: int, n: nat, total: nat)
    requires m != 1 && n >= 2 && total >= 1
    ensures Ran(m, n, total, Mem(0, 0, 1), Thread(Loaded(0), 0, 5, [Store(Sgl, 1)], false), FRESH)
  {
    var mem, s := Mem(0, 0, 1), [Store(Sgl, 1)];
    HolderLocks(m, n, total);
    assert [] + s == s;
    HolderStep(m, n, total, mem, Thread(Locked, 0, 5, [], false), FRESH);
    HolderStep(m, n, total, mem, Thread(Owned, 0, 5, s, false), FRESH);
    LoadSnoc(mem, [], Store(Sgl, 1), Ctr);
    HolderStep(m, n, total, mem, Thread(Fenced, 0, 5, s, false), FRESH);
  }

  // The other thread commits a transaction: it sees sgl_owner = 0 and the same counter.
  lemma {:induction false} OtherCommits(m: int, n: nat, total: nat, h: Thread)
    requires n >= 2 && total >= 1 && Ran(m, n, total, Mem(0, 0, 1), h, FRESH) && !InTx(h.pc)
    ensures Ran(m, n, total, Mem(1, 0, 1), h, Thread(Top, 1, 0, [], false))
  {
    var mem, o := Mem(0, 0, 1), Thread(TxBegun, 0, 1, [], false);
    OtherGoes(m, n, total, mem, h, FRESH, Begin(1), o);
    OtherSteps(m, n, total, mem, h, o);
    OtherSteps(m, n, total, mem, h, o.(pc := TxChecked));
    OtherSteps(m, n, total, mem, h, o.(pc := TxLoaded(0)));
    OtherSteps(m, n, total, mem, h, o.(pc := TxStored(0)));
    OtherEnds(m, n, total, mem, h, o.(pc := TxRechecked(0)));
  }

  // The mutex holder stores the increment of what it had loaded, and everything drains.
  lemma {:induction false} HolderFinishes(m: int, n: nat, total: nat, o: Thread)
    requires m != 1 && n >= 2 && !InTx(o.pc)
    requires Ran(m, n, total, Mem(1, 0, 1), Thread(Loaded(0), 0, 5, [Store(Sgl, 1)], false), o)
    ensures Ran(m, n, total, Mem(1, 0, 0), Thread(Top, 1, 0, [], false), o)
  {
    var s, c, e := Store(Sgl, 1), Store(Ctr, 1), Store(Sgl, 0);
    HolderStep(m, n, total, Mem(1, 0, 1), Thread(Loaded(0), 0, 5, [s], false), o);
    assert [s] + [c] == [s, c];
    HolderStep(m, n, total, Mem(1, 0, 1), Thread(Bumped, 0, 5, [s, c], false), o);
    assert [s, c] + [e] == [s, c, e] && [s, c, e][1..] == [c, e] && [c, e][1..] == [e] && [e][1..] == [];
    HolderDrains(m, n, total, Mem(1, 0, 1), Thread(Cleared, 0, 5, [s, c, e], false), o);
    HolderDrains(m, n, total, Mem(1, 1, 1), Thread(Cleared, 0, 5, [c, e], false), o);
    HolderDrains(m, n, total, Mem(1, 1, 1), Thread(Cleared, 0, 5, [e], false), o);
    HolderUnlocks(m, n, total, o);
  }

  lemma {:induction false} HolderUnlocks(m: int, n: nat, total: nat, o: Thread)
    requires m != 1 && n >= 2 && !InTx(o.pc)
    requires Ran(m, n, total, Mem(1, 0, 1), Thread(Cleared, 0, 5, [], false), o)
    ensures Ran(m, n, total, Mem(1, 0, 0), Thread(Top, 1, 0, [], false), o)
  {
    HolderStep(m, n, total, Mem(1, 0, 1), Thread(Cleared, 0, 5, [], false), o);
    HolderStep(m, n, total, Mem(1, 0, 1), Thread(Unlocking, 0, 5, [], false), o);
    assert [] + [Store(Mtx, 0)] == [Store(Mtx, 0)] && [Store(Mtx, 0)][1..] == [];
    HolderDrains(m, n, total, Mem(1, 0, 1), Thread(Top, 1, 0, [Store(Mtx, 0)], false), o);
  }

  // Two increments made, one landed, and everybody at rest.
  lemma {:induction false} OneLost(n: nat, total: nat, w: World)
    requires n >= 2 && total >= 1
    requires w == Two(n, Mem(1, 0, 0), Thread(Top, 1, 0, [], false), Thread(Top, 1, 0, [], false))
    ensures Calm(total, w) && Landed(w.ts) == 2
  {
    var d := Thread(Top, 1, 0, [], false);
    assert w.ts[1..] == [d] + Rest(n) && w.ts[1..][1..] == Rest(n);
    LandedFinished(Rest(n), 0);
  }

  // Without the fence, two or more threads with something to do can lose an increment.
  lemma {:induction false} UnfencedLoses(m: int, n: nat, total: nat) returns (w: World)
    requires m != 1 && n >= 2 && total >= 1
    ensures Got(m, n, total, w) && Finished(total, w) && w.mem.ctr == n * total - 1
  {
    var d := Thread(Top, 1, 0, [], false);
    HolderLoads(m, n, total);
    OtherCommits(m, n, total, Thread(Loaded(0), 0, 5, [Store(Sgl, 1)], false));
    HolderFinishes(m, n, total, d);
    var w0 := Two(n, Mem(1, 0, 0), d, d);
    OneLost(n, total, w0);
    w := CalmFinishes(m, n, total, w0);
    LandedFinished(w.ts, total);
  }

  /* ----- the theorems ----- */

  // The counter is right at the end of every run of n threads that make `total` increments each.
  ghost predicate Exact(m: int, n: nat, total: nat) {
    forall w, k: nat :: Reached(m, n, total, w, k) && Finished(total, w) ==> w.mem.ctr == n * total
  }

  lemma {:induction false} ExactForIff(m: int, n: nat, total: nat)
    ensures Exact(m, n, total) <==> m == 1 || n <= 1 || total == 0
  {
    if m == 1 || n <= 1 || total == 0 {
      forall w, k: nat | Reached(m, n, total, w, k) && Finished(total, w) ensures w.mem.ctr == n * total {
        FinishedExact(m, n, total, w, k);
      }
    } else {
      var w := UnfencedLoses(m, n, total);
      var k: nat :| Reached(m, n, total, w, k);
    }
  }

  lemma {:induction false} FinishedExact(m: int, n: nat, total: nat, w: World, k: nat)
    requires Reached(m, n, total, w, k) && Finished(total, w) && (m == 1 || n <= 1 || total == 0)
    ensures w.mem.ctr == n * total
  {
    if m == 1 {
      FencedLosesNothing(n, total, w, k);
    } else if n == 1 {
      ReachedAlone(m, total, w, k);
    } else {
      NothingHappens(m, n, total, w, k);
    }
  }

  // The fence after sgl_owner = 1 is exactly what makes the count right for all numbers of threads.
  lemma {:induction false} ExactIffFenced(m: int)
    ensures (forall n: nat, total: nat :: Exact(m, n, total)) <==> m == 1
  {
    forall n: nat, total: nat ensures m == 1 ==> Exact(m, n, total) { ExactForIff(m, n, total); }
    ExactForIff(m, 2, 1);
  }

  /* ----- the late fence ----- */

  predicate Lowered(w: World) {
    forall j :: 0 <= j < |w.ts| && w.ts[j].pc.Unlocking? ==> w.ts[j].buf == []
  }

  // In mode 2 nobody unlocks with a store still on its way, and still an update is lost.
  lemma {:induction false} LateFence(n: nat, total: nat, w: World, bound: nat)
    requires GotIn(2, n, total, w, bound)
    ensures Lowered(w)
    decreases bound
  {
    var k: nat :| k <= bound && Reached(2, n, total, w, k);
    if k == 0 {
    } else {
      var w0, a := LastStep(2, n, total, w, k);
      LateFence(n, total, w0, k - 1);
    }
  }
}
