/** TSX with a single-global-lock fallback, on x86-TSO.

    Any number of threads each increment one shared counter a number of times.  An increment
    tries a hardware transaction up to five times and then takes the mutex, raises sgl_owner,
    increments, lowers sgl_owner and unlocks.  Plain stores go through a FIFO store buffer and
    reach memory one by one.  A transaction that has read a line is doomed when another thread's
    store reaches memory on that line; a doomed transaction never commits, and any transaction
    may abort at any time.  Lock acquisition and transaction commit need an empty own buffer.
    The unlock is a plain buffered store: a full barrier there is the special case in which the
    buffer drains at once.

    The mode m says where the fence is: 1 after raising sgl_owner, 2 after lowering it, else none.
 */
module TsxSgl {

  datatype Loc = Ctr | Sgl | Mtx

  datatype Store = Store(loc: Loc, val: nat)

  datatype Mem = Mem(ctr: nat, sgl: nat, mtx: nat)

  datatype Pc =
    | Top
    | TxBegun | TxChecked | TxLoaded(v: nat) | TxStored(v: nat) | TxRechecked(v: nat)
    | Locked | Owned | Fenced | Loaded(v: nat) | Bumped | Cleared | Unlocking

  datatype Thread = Thread(pc: Pc, iter: nat, tries: nat, buf: seq<Store>, doomed: bool)

  datatype World = World(mem: Mem, ts: seq<Thread>)

  const MAX_TRIES: nat := 5

  function Get(m: Mem, loc: Loc): nat {
    match loc case Ctr => m.ctr case Sgl => m.sgl case Mtx => m.mtx
  }

  function Put(m: Mem, s: Store): Mem {
    match s.loc
    case Ctr => m.(ctr := s.val)
    case Sgl => m.(sgl := s.val)
    case Mtx => m.(mtx := s.val)
  }

  // A load sees the youngest own buffered store, else memory.
  function Load(m: Mem, buf: seq<Store>, loc: Loc): nat {
    if buf == [] then Get(m, loc)
    else if buf[|buf| - 1].loc == loc then buf[|buf| - 1].val
    else Load(m, buf[..|buf| - 1], loc)
  }

  predicate ReadCtr(pc: Pc) { pc.TxLoaded? || pc.TxStored? || pc.TxRechecked? }

  predicate ReadSgl(pc: Pc) { pc.TxChecked? || ReadCtr(pc) }

  predicate InTx(pc: Pc) { pc.TxBegun? || ReadSgl(pc) }

  predicate HasRead(pc: Pc, loc: Loc) {
    match loc case Ctr => ReadCtr(pc) case Sgl => ReadSgl(pc) case Mtx => false
  }

  // Thread t's store to loc reaches memory: every other transaction that has read it is doomed.
  function Doom(ts: seq<Thread>, t: nat, loc: Loc): (r: seq<Thread>)
    ensures |r| == |ts|
    ensures forall j :: 0 <= j < |ts| ==>
              r[j] == if j != t && HasRead(ts[j].pc, loc) then ts[j].(doomed := true) else ts[j]
  {
    seq(|ts|, j requires 0 <= j < |ts| =>
      if j != t && HasRead(ts[j].pc, loc) then ts[j].(doomed := true) else ts[j])
  }

  datatype Action =
    | Begin(t: nat) | BeginFails(t: nat) | TxAbort(t: nat) | TxStep(t: nat) | TxEnd(t: nat)
    | Lock(t: nat) | SglStep(t: nat) | Drain(t: nat)

  function With(w: World, t: nat, th: Thread): World
    requires t < |w.ts|
  {
    w.(ts := w.ts[t := th])
  }

  // One step of thread a.t; total is the number of increments per thread.
  predicate Next(m: int, total: nat, w: World, a: Action, w': World) {
    && a.t < |w.ts|
    && var t, th := a.t, w.ts[a.t];
       match a
       case Begin(_) =>
         && th.pc == Top && th.iter < total && th.tries < MAX_TRIES
         && w' == With(w, t, th.(pc := TxBegun, tries := th.tries + 1, doomed := false))
       case BeginFails(_) =>
         && th.pc == Top && th.iter < total && th.tries < MAX_TRIES
         && w' == With(w, t, th.(tries := th.tries + 1))
       case TxAbort(_) =>
         InTx(th.pc) && w' == With(w, t, th.(pc := Top))
       case TxStep(_) =>
         && (th.pc.TxBegun? || th.pc.TxChecked? || th.pc.TxLoaded? || th.pc.TxStored?)
         && w' == With(w, t, th.(pc := TxNext(w.mem, th)))
       case TxEnd(_) =>
         && th.pc.TxRechecked? && !th.doomed && th.buf == []
         && w' == World(w.mem.(ctr := th.pc.v + 1),
                        Doom(w.ts, t, Ctr)[t := th.(pc := Top, iter := th.iter + 1, tries := 0)])
       case Lock(_) =>
         && th.pc == Top && th.iter < total && th.tries == MAX_TRIES && th.buf == [] && w.mem.mtx == 0
         && w' == With(w, t, th.(pc := Locked)).(mem := w.mem.(mtx := t + 1))
       case SglStep(_) =>
         && (th.pc.Owned? && m == 1 ==> th.buf == []) && (th.pc.Cleared? && m == 2 ==> th.buf == [])
         && (th.pc.Locked? || th.pc.Owned? || th.pc.Fenced? || th.pc.Loaded? || th.pc.Bumped? || th.pc.Cleared?
             || th.pc.Unlocking?)
         && w' == With(w, t, SglNext(w.mem, th))
       case Drain(_) =>
         && th.buf != []
         && w' == World(Put(w.mem, th.buf[0]), Doom(w.ts, t, th.buf[0].loc)[t := th.(buf := th.buf[1..])])
  }

  // The body of the transaction; a raised sgl_owner aborts it.
  function TxNext(mem: Mem, th: Thread): Pc
    requires th.pc.TxBegun? || th.pc.TxChecked? || th.pc.TxLoaded? || th.pc.TxStored?
  {
    match th.pc
    case TxBegun => if Load(mem, th.buf, Sgl) != 0 then Top else TxChecked
    case TxChecked => TxLoaded(Load(mem, th.buf, Ctr))
    case TxLoaded(v) => TxStored(v)
    case TxStored(v) => if Load(mem, th.buf, Sgl) != 0 then Top else TxRechecked(v)
  }

  // The fallback under the mutex, up to and including the unlock.
  function SglNext(mem: Mem, th: Thread): Thread
    requires th.pc.Locked? || th.pc.Owned? || th.pc.Fenced? || th.pc.Loaded? || th.pc.Bumped? || th.pc.Cleared?
             || th.pc.Unlocking?
  {
    match th.pc
    case Locked => th.(pc := Owned, buf := th.buf + [Store(Sgl, 1)])
    case Owned => th.(pc := Fenced)
    case Fenced => th.(pc := Loaded(Load(mem, th.buf, Ctr)))
    case Loaded(v) => th.(pc := Bumped, buf := th.buf + [Store(Ctr, v + 1)])
    case Bumped => th.(pc := Cleared, buf := th.buf + [Store(Sgl, 0)])
    case Cleared => th.(pc := Unlocking)
    case Unlocking => th.(pc := Top, iter := th.iter + 1, tries := 0, buf := th.buf + [Store(Mtx, 0)])
  }

  const FRESH: Thread := Thread(Top, 0, 0, [], false)

  predicate Initial(n: nat, w: World) {
    w.mem == Mem(0, 0, 0) && |w.ts| == n && forall j :: 0 <= j < n ==> w.ts[j] == FRESH
  }

  // w is reached by n threads after exactly k steps.
  ghost predicate Reached(m: int, n: nat, total: nat, w: World, k: nat)
    decreases k
  {
    if k == 0 then Initial(n, w)
    else exists w0, a :: Reached(m, n, total, w0, k - 1) && Next(m, total, w0, a, w)
  }

  predicate Finished(total: nat, w: World) {
    forall j :: 0 <= j < |w.ts| ==> w.ts[j].pc == Top && w.ts[j].iter == total && w.ts[j].buf == []
  }

  /* ----- accounting ----- */

  function Pending(buf: seq<Store>): nat {
    if buf == [] then 0 else (if buf[0].loc == Ctr then 1 else 0) + Pending(buf[1..])
  }

  // Increments a thread has made: finished iterations, and the one stored under the mutex.
  function Made(th: Thread): nat {
    th.iter + if th.pc.Bumped? || th.pc.Cleared? || th.pc.Unlocking? then 1 else 0
  }

  function Landed(ts: seq<Thread>): int {
    if ts == [] then 0 else Made(ts[0]) - Pending(ts[0].buf) + Landed(ts[1..])
  }

  lemma {:induction false} LandedUpdate(ts: seq<Thread>, t: nat, th: Thread)
    requires t < |ts|
    ensures Landed(ts[t := th]) ==
            Landed(ts) - Made(ts[t]) + Pending(ts[t].buf) + Made(th) - Pending(th.buf)
  {
    if t == 0 {
      assert ts[t := th][1..] == ts[1..];
    } else {
      LandedUpdate(ts[1..], t - 1, th);
      assert ts[t := th][1..] == ts[1..][t - 1 := th];
    }
  }

  lemma {:induction false} LandedSame(xs: seq<Thread>, ys: seq<Thread>)
    requires |xs| == |ys|
    requires forall j :: 0 <= j < |xs| ==> Made(xs[j]) == Made(ys[j]) && xs[j].buf == ys[j].buf
    ensures Landed(xs) == Landed(ys)
  {
    if xs == [] {
    } else {
      LandedSame(xs[1..], ys[1..]);
    }
  }

  lemma {:induction false} LandedFinished(ts: seq<Thread>, total: nat)
    requires forall j :: 0 <= j < |ts| ==> ts[j].pc == Top && ts[j].iter == total && ts[j].buf == []
    ensures Landed(ts) == |ts| * total
  {
    if ts == [] {
    } else {
      LandedFinished(ts[1..], total);
    }
  }

  /* ----- the invariant of the fenced form ----- */

  predicate Critical(th: Thread) {
    || th.buf != [] || th.pc.Locked? || th.pc.Owned? || th.pc.Fenced? || th.pc.Loaded? || th.pc.Bumped?
    || th.pc.Cleared? || th.pc.Unlocking?
  }

  predicate CriticalOk(mem: Mem, th: Thread) {
    match th.pc
    case Locked => th.buf == [] && mem.sgl == 0
    case Owned => (th.buf == [Store(Sgl, 1)] && mem.sgl == 0) || (th.buf == [] && mem.sgl == 1)
    case Fenced => th.buf == [] && mem.sgl == 1
    case Loaded(v) => th.buf == [] && mem.sgl == 1 && v == mem.ctr
    case Bumped => (th.buf == [Store(Ctr, mem.ctr + 1)] || th.buf == []) && mem.sgl == 1
    case Cleared => ClearedBuf(mem, th.buf, [])
    case Unlocking => ClearedBuf(mem, th.buf, [])
    case _ => ClearedBuf(mem, th.buf, [Store(Mtx, 0)])
  }

  predicate ClearedBuf(mem: Mem, buf: seq<Store>, end: seq<Store>) {
    || (buf == [Store(Ctr, mem.ctr + 1), Store(Sgl, 0)] + end && mem.sgl == 1)
    || (buf == [Store(Sgl, 0)] + end && mem.sgl == 1)
    || (buf == end && mem.sgl == 0)
  }

  // A transaction that is not doomed has seen the present: nobody else has sgl_owner raised in
  // memory, and the counter is still the one it read.
  predicate TxOk(mem: Mem, th: Thread) {
    && (ReadSgl(th.pc) && !th.doomed ==> mem.sgl == 0 || th.buf != [])
    && (ReadCtr(th.pc) && !th.doomed ==> th.pc.v == Load(mem, th.buf, Ctr))
  }

  predicate ThreadOk(mem: Mem, ts: seq<Thread>, j: nat)
    requires j < |ts|
  {
    && (Critical(ts[j]) ==> mem.mtx == j + 1 && CriticalOk(mem, ts[j]))
    && TxOk(mem, ts[j])
  }

  predicate Inv(w: World) {
    && (forall j :: 0 <= j < |w.ts| ==> ThreadOk(w.mem, w.ts, j))
    && (w.mem.sgl != 0 ==> exists j :: 0 <= j < |w.ts| && Critical(w.ts[j]))
    && w.mem.ctr == Landed(w.ts)
  }

  // A step that changes only thread t and leaves memory alone.
  lemma {:induction false} LocalStep(w: World, t: nat, th: Thread)
    requires Inv(w) && t < |w.ts|
    requires (Critical(th) ==> w.mem.mtx == t + 1 && CriticalOk(w.mem, th)) && TxOk(w.mem, th)
    requires Critical(w.ts[t]) ==> Critical(th)
    requires Made(th) - Pending(th.buf) == Made(w.ts[t]) - Pending(w.ts[t].buf)
    ensures Inv(With(w, t, th))
  {
    var w' := With(w, t, th);
    forall j | 0 <= j < |w'.ts| ensures ThreadOk(w'.mem, w'.ts, j) { assert ThreadOk(w.mem, w.ts, j); }
    if w.mem.sgl != 0 {
      var j :| 0 <= j < |w.ts| && Critical(w.ts[j]);
      assert Critical(w'.ts[j]);
    }
    LandedUpdate(w.ts, t, th);
  }

  lemma {:induction false} LoadSnoc(m: Mem, buf: seq<Store>, s: Store, loc: Loc)
    ensures Load(m, buf + [s], loc) == if s.loc == loc then s.val else Load(m, buf, loc)
  {
    assert (buf + [s])[..|buf|] == buf;
  }

  lemma {:induction false} PendingSnoc(buf: seq<Store>, s: Store)
    ensures Pending(buf + [s]) == Pending(buf) + if s.loc == Ctr then 1 else 0
  {
    if buf != [] {
      PendingSnoc(buf[1..], s);
      assert (buf + [s])[1..] == buf[1..] + [s];
    } else {
      assert ([] + [s])[1..] == [];
    }
  }

  lemma {:induction false} TxStepKeeps(w: World, t: nat)
    requires Inv(w) && t < |w.ts|
    requires w.ts[t].pc.TxBegun? || w.ts[t].pc.TxChecked? || w.ts[t].pc.TxLoaded? || w.ts[t].pc.TxStored?
    ensures Inv(With(w, t, w.ts[t].(pc := TxNext(w.mem, w.ts[t]))))
  {
    var th := w.ts[t];
    assert ThreadOk(w.mem, w.ts, t);
    LocalStep(w, t, th.(pc := TxNext(w.mem, th)));
  }

  lemma {:induction false} SglStepKeeps(w: World, t: nat)
    requires Inv(w) && t < |w.ts|
    requires w.ts[t].pc.Owned? ==> w.ts[t].buf == []
    requires w.ts[t].pc.Locked? || w.ts[t].pc.Owned? || w.ts[t].pc.Fenced? || w.ts[t].pc.Loaded?
             || w.ts[t].pc.Bumped? || w.ts[t].pc.Cleared? || w.ts[t].pc.Unlocking?
    ensures Inv(With(w, t, SglNext(w.mem, w.ts[t])))
  {
    assert ThreadOk(w.mem, w.ts, t);
    SglOwn(w.mem, w.ts[t]);
    LocalStep(w, t, SglNext(w.mem, w.ts[t]));
  }

  // What a step under the mutex does to the holder itself.
  lemma {:induction false} SglOwn(mem: Mem, th: Thread)
    requires CriticalOk(mem, th) && (th.pc.Owned? ==> th.buf == [])
    requires th.pc.Locked? || th.pc.Owned? || th.pc.Fenced? || th.pc.Loaded? || th.pc.Bumped? || th.pc.Cleared?
             || th.pc.Unlocking?
    ensures var th' := SglNext(mem, th);
            && Critical(th') && CriticalOk(mem, th') && TxOk(mem, th')
            && Made(th') - Pending(th'.buf) == Made(th) - Pending(th.buf)
  {
    match th.pc {
      case Locked => PendingSnoc(th.buf, Store(Sgl, 1));
      case Loaded(v) => PendingSnoc(th.buf, Store(Ctr, v + 1));
      case Bumped => PendingSnoc(th.buf, Store(Sgl, 0));
      case Unlocking => PendingSnoc(th.buf, Store(Mtx, 0));
      case _ =>
    }
  }

  lemma {:induction false} LockKeeps(w: World, t: nat, w': World)
    requires Inv(w) && t < |w.ts| && w.ts[t].pc == Top && w.ts[t].buf == [] && w.mem.mtx == 0
    requires w' == With(w, t, w.ts[t].(pc := Locked)).(mem := w.mem.(mtx := t + 1))
    ensures Inv(w')
  {
    forall j | 0 <= j < |w.ts| ensures !Critical(w.ts[j]) { assert ThreadOk(w.mem, w.ts, j); }
    forall j | 0 <= j < |w'.ts| ensures ThreadOk(w'.mem, w'.ts, j) { assert ThreadOk(w.mem, w.ts, j); }
    LandedUpdate(w.ts, t, w.ts[t].(pc := Locked));
  }

  // The commit of a transaction: no store of another thread is in the way.
  lemma {:induction false} TxEndKeeps(w: World, t: nat, w': World)
    requires Inv(w) && t < |w.ts| && w.ts[t].pc.TxRechecked? && !w.ts[t].doomed && w.ts[t].buf == []
    requires w' == World(w.mem.(ctr := w.ts[t].pc.v + 1),
                         Doom(w.ts, t, Ctr)[t := w.ts[t].(pc := Top, iter := w.ts[t].iter + 1, tries := 0)])
    ensures Inv(w')
  {
    var th := w.ts[t];
    assert ThreadOk(w.mem, w.ts, t);
    assert w.mem.sgl == 0 && th.pc.v == w.mem.ctr;
    forall j | 0 <= j < |w'.ts| ensures ThreadOk(w'.mem, w'.ts, j) {
      assert ThreadOk(w.mem, w.ts, j);
    }
    LandedSame(w.ts, Doom(w.ts, t, Ctr));
    LandedUpdate(Doom(w.ts, t, Ctr), t, w'.ts[t]);
  }

  // A store of the mutex holder reaches memory.
  lemma {:induction false} DrainKeeps(w: World, t: nat, w': World)
    requires Inv(w) && t < |w.ts| && w.ts[t].buf != []
    requires w' == World(Put(w.mem, w.ts[t].buf[0]),
                         Doom(w.ts, t, w.ts[t].buf[0].loc)[t := w.ts[t].(buf := w.ts[t].buf[1..])])
    ensures Inv(w')
  {
    var th, s := w.ts[t], w.ts[t].buf[0];
    assert ThreadOk(w.mem, w.ts, t);
    DrainOwn(w.mem, th, t);
    forall j | 0 <= j < |w'.ts| ensures ThreadOk(w'.mem, w'.ts, j) {
      assert ThreadOk(w.mem, w.ts, j);
      if j != t {
        assert !Critical(w.ts[j]);
        assert ReadSgl(w.ts[j].pc) && !w.ts[j].doomed ==> w.mem.sgl == 0;
      }
    }
    if w'.mem.sgl != 0 { assert Critical(w'.ts[t]); }
    LandedSame(w.ts, Doom(w.ts, t, s.loc));
    LandedUpdate(Doom(w.ts, t, s.loc), t, w'.ts[t]);
  }

  // What draining does to the holder itself.
  lemma {:induction false} DrainOwn(mem: Mem, th: Thread, t: nat)
    requires th.buf != [] && CriticalOk(mem, th) && TxOk(mem, th) && mem.mtx == t + 1
    ensures var s, th', mem' := th.buf[0], th.(buf := th.buf[1..]), Put(mem, th.buf[0]);
            && (Critical(th') ==> mem'.mtx == t + 1 && CriticalOk(mem', th'))
            && (mem'.sgl != 0 ==> Critical(th'))
            && TxOk(mem', th')
            && (s.loc == Ctr ==> mem'.ctr == mem.ctr + 1)
            && Pending(th.buf) == Pending(th'.buf) + (if s.loc == Ctr then 1 else 0)
            && (s.loc == Ctr ==> mem.sgl == 1)
  {
    LoadDrain(mem, th.buf, Ctr);
  }

  // Forwarding hides the draining of own stores.
  lemma {:induction false} LoadDrain(mem: Mem, buf: seq<Store>, loc: Loc)
    requires buf != []
    ensures Load(Put(mem, buf[0]), buf[1..], loc) == Load(mem, buf, loc)
  {
    var n := |buf| - 1;
    if n > 0 {
      LoadDrain(mem, buf[..n], loc);
      assert buf[1..][..n - 1] == buf[..n][1..];
    } else {
      assert buf[..0] == [];
    }
  }

  lemma {:induction false} NextKeeps(total: nat, w: World, a: Action, w': World)
    requires Inv(w) && Next(1, total, w, a, w')
    ensures Inv(w')
  {
    var t, th := a.t, w.ts[a.t];
    assert ThreadOk(w.mem, w.ts, t);
    match a
    case Begin(_) => LocalStep(w, t, th.(pc := TxBegun, tries := th.tries + 1, doomed := false));
    case BeginFails(_) => LocalStep(w, t, th.(tries := th.tries + 1));
    case TxAbort(_) => LocalStep(w, t, th.(pc := Top));
    case TxStep(_) => TxStepKeeps(w, t);
    case TxEnd(_) => TxEndKeeps(w, t, w');
    case Lock(_) => LockKeeps(w, t, w');
    case SglStep(_) => SglStepKeeps(w, t);
    case Drain(_) => DrainKeeps(w, t, w');
  }

  lemma {:induction false} ReachedKeepsInv(n: nat, total: nat, w: World, k: nat)
    requires Reached(1, n, total, w, k)
    ensures Inv(w) && |w.ts| == n
    decreases k
  {
    if k == 0 {
      LandedFinished(w.ts, 0);
    } else {
      var w0, a :| Reached(1, n, total, w0, k - 1) && Next(1, total, w0, a, w);
      ReachedKeepsInv(n, total, w0, k - 1);
      NextKeeps(total, w0, a, w);
    }
  }

  /* ----- the theorems ----- */

  // With the fence after sgl_owner = 1, no interleaving of any number of threads loses an
  // increment: memory and buffers always account for all that were made, and when all threads
  // are done the counter is the number of threads times the number of increments of each.
  lemma {:induction false} FencedLosesNothing(n: nat, total: nat, w: World, k: nat)
    requires Reached(1, n, total, w, k)
    ensures w.mem.ctr == Landed(w.ts)
    ensures Finished(total, w) ==> w.mem.ctr == n * total
  {
    ReachedKeepsInv(n, total, w, k);
    if Finished(total, w) { LandedFinished(w.ts, total); }
  }
}
