/** What every call answers, read off the history of the run: which transactions committed, what they wrote,
    and what the caller itself has done since its begin.  Lock words, versions, read sets and write sets do not
    occur in these statements.
 */
module TmHistory {
  import opened LockWord
  import opened Options
  import opened TmSpec
  import opened TmSerial

  /* ----- the history ----- */

  // The value of the last write to addr.
  function LastWrite(ops: seq<Op>, addr: nat): Option<nat> {
    if ops == [] then None
    else
      var last := ops[|ops| - 1];
      if last.WriteOp? && last.addr == addr then Some(last.val) else LastWrite(ops[..|ops| - 1], addr)
  }

  // The place in the order of the last transaction that wrote stripe k, or 0.
  function LastPoint(order: seq<Rec>, k: nat): nat {
    if order == [] then 0
    else if Touches(order[|order| - 1].ops, k) then order[|order| - 1].point
    else LastPoint(order[..|order| - 1], k)
  }

  datatype Access = Access(addr: nat, time: nat)

  // What a thread has done since its begin: whether it has not ended, the accesses that succeeded, the clock when
  // it began or when an access last met a stripe written after that, and whether it called tm_write at all.
  datatype History = History(open: bool, accesses: set<Access>, horizon: nat, wrote: bool)

  function Answer(w: World, a: Action): Outcome
    requires Quiet(w.s)
  {
    match a
    case ABegin(_) => Done
    case ARead(tid, addr) => Read(w.s, tid, addr).1
    case AWrite(tid, addr, val) => Write(w.s, tid, addr, val).1
    case ACommit(tid) => Commit(w.s, tid).1
    case AAbort(_) => Done
    case AEnd(tid) => End(w.s, tid).1
  }

  function Accessed(h: History, w: World, tid: Tid, addr: nat): History {
    var late := LastWrite(OpsOf(w, tid), addr).None? && LastPoint(w.order, Stripe(addr)) > h.horizon;
    h.(accesses := h.accesses + {Access(addr, w.now)}, horizon := if late then w.s.clock else h.horizon)
  }

  function Update(h: History, w: World, tid: Tid, a: Action): History
    requires Quiet(w.s)
  {
    if a.tid != tid then h
    else match a
      case ABegin(_) => History(true, {}, w.s.clock, false)
      case ARead(_, addr) => if Answer(w, a).Fail? then h else Accessed(h, w, tid, addr)
      case AWrite(_, addr, _) => (if Answer(w, a).Fail? then h else Accessed(h, w, tid, addr)).(wrote := true)
      case _ => h.(open := false)
  }

  function HistoryOf(ws: seq<World>, actions: seq<Action>, tid: Tid): History
    requires IsRun(ws, actions)
    decreases |actions|
  {
    if actions == [] then History(false, {}, 0, false)
    else
      var n := |actions| - 1;
      Update(HistoryOf(ws[..n + 1], actions[..n], tid), ws[n], tid, actions[n])
  }

  // Somebody has committed a write to the stripe of x since.
  predicate Overtaken(order: seq<Rec>, x: Access) {
    exists r :: r in order && x.time < r.ended && Touches(r.ops, Stripe(x.addr))
  }

  predicate Conflicted(w: World, h: History) {
    exists x :: x in h.accesses && Overtaken(w.order, x)
  }

  // Different addresses written lie in different stripes.
  predicate StripesApart(ops: seq<Op>) {
    forall i, j :: 0 <= i < |ops| && 0 <= j < |ops| ==>
                     ops[i].WriteOp? && ops[j].WriteOp? && Stripe(ops[i].addr) == Stripe(ops[j].addr) ==>
                       ops[i].addr == ops[j].addr
  }

  predicate Active(w: World, tid: Tid) {
    tid in w.s.txs && w.s.txs[tid].active
  }

  /* ----- lock versions are places in the order ----- */

  predicate Stamped(w: World)
    requires Quiet(w.s)
  {
    forall k :: 0 <= k < STRIPES ==> w.s.locks[k].version == LastPoint(w.order, k)
  }

  lemma {:induction false} LastPointIs(order: seq<Rec>, k: nat, v: nat)
    requires Sorted(order)
    ensures LastPoint(order, k) <= v <==> forall r :: r in order && r.point > v ==> !Touches(r.ops, k)
  {
    if order == [] {
    } else {
      var init, last := order[..|order| - 1], order[|order| - 1];
      LastPointIs(init, k, v);
      assert last in order;
      if Touches(last.ops, k) {
        forall r | r in order ensures r.point <= last.point {
          var i :| 0 <= i < |order| && order[i] == r;
          assert i < |order| - 1 ==> Before(order[i], last);
        }
      } else {
        assert forall r :: r in order ==> r in init || r == last;
      }
    }
  }

  lemma {:induction false} PlaceSilent(order: seq<Rec>, r: Rec, k: nat)
    requires NoWrites(r.ops)
    ensures LastPoint(Place(order, r), k) == LastPoint(order, k)
  {
    if order == [] || order[|order| - 1].point <= r.point {
      assert (order + [r])[..|order|] == order;
    } else {
      var init, last := order[..|order| - 1], order[|order| - 1];
      PlaceSilent(init, r, k);
      assert (Place(init, r) + [last])[..|Place(init, r)|] == Place(init, r);
    }
  }

  lemma {:induction false} TouchedIfStamped(ws: seq<WriteEntry>, ops: seq<Op>, k: nat)
    requires Distinct(ws) && Mirrors(ws, ops) && WritesStripe(ws, k)
    ensures Touches(ops, k)
  {
    var i :| 0 <= i < |ws| && Stripe(ws[i].addr) == k;
    WriteBackAt(ws, ws[i].addr);
    ExecKeys(ops, ws[i].addr);
  }

  lemma {:induction false} UpdaterStamped(w: World, w': World, tid: Tid, r: Rec)
    requires Inv(w) && Stamped(w) && Commits(w, w', tid, r) && Quiet(w'.s)
    requires r.point == w'.s.clock == w.s.clock + 1
    requires w'.s.locks == Stamp(w.s.locks, w.s.txs[tid].writeSet, w'.s.clock)
    ensures Stamped(w')
  {
    assert TxOk(w, tid);
    forall x | x in w.order ensures x.point <= r.point { assert RecOk(w, x); }
    PlaceLast(w.order, r);
    assert (w.order + [r])[..|w.order|] == w.order;
    forall k | 0 <= k < STRIPES ensures w'.s.locks[k].version == LastPoint(w'.order, k) {
      if Touches(r.ops, k) {
        StampedIfTouched(w.s.txs[tid].writeSet, r.ops, k);
      } else if WritesStripe(w.s.txs[tid].writeSet, k) {
        TouchedIfStamped(w.s.txs[tid].writeSet, r.ops, k);
      }
    }
  }

  lemma {:induction false} CommitStamped(w: World, w': World, tid: Tid)
    requires Inv(w) && Stamped(w) && w' == CommitWorld(w, tid, Commit(w.s, tid).0, Commit(w.s, tid).1)
    requires Commit(w.s, tid).0.clock < VERSIONS
    ensures Quiet(w'.s) && Stamped(w')
  {
    CommitKeepsQuiet(w.s, tid);
    if Commit(w.s, tid).1 == Done {
      assert TxOk(w, tid);
      var r := RecordOf(w, tid, w'.s.clock);
      CommitShape(w, w', tid);
      if w.s.txs[tid].readOnly {
        forall k | 0 <= k < STRIPES ensures LastPoint(w'.order, k) == LastPoint(w.order, k) {
          PlaceSilent(w.order, r, k);
        }
      } else {
        UpdaterStamped(w, w', tid, r);
      }
    } else {
      FailedCommitShape(w, w', tid);
    }
  }

  lemma {:induction false} EndStamped(w: World, tid: Tid)
    requires Inv(w) && Stamped(w) && Next(w, AEnd(tid)).s.clock < VERSIONS
    ensures Quiet(Next(w, AEnd(tid)).s) && Stamped(Next(w, AEnd(tid)))
  {
    if Validates(w.s, tid) {
      CommitStamped(w, Next(w, AEnd(tid)), tid);
    } else {
      AbortShape(w, tid);
    }
  }

  lemma {:induction false} NextStamped(w: World, a: Action)
    requires Inv(w) && Stamped(w) && Next(w, a).s.clock < VERSIONS
    ensures Quiet(Next(w, a).s) && Stamped(Next(w, a))
  {
    match a
    case ABegin(tid) => BeginShape(w, tid);
    case ARead(tid, addr) => ReadShape(w, tid, addr);
    case AWrite(tid, addr, val) => WriteShape(w, tid, addr, val);
    case ACommit(tid) => CommitStamped(w, Next(w, a), tid);
    case AAbort(tid) => AbortShape(w, tid);
    case AEnd(tid) => EndStamped(w, tid);
  }

  lemma {:induction false} StartStamped()
    ensures Stamped(Start())
  {
  }

  lemma {:induction false} RunsStamped(ws: seq<World>, actions: seq<Action>)
    requires IsRun(ws, actions)
    ensures |ws| == |actions| + 1 && Inv(ws[|actions|]) && Stamped(ws[|actions|])
    decreases |actions|
  {
    RunsKeepInv(ws, actions);
    if actions == [] {
      StartStamped();
    } else {
      var n := |actions| - 1;
      RunsStamped(ws[..n + 1], actions[..n]);
      NextStamped(ws[n], actions[n]);
    }
  }

  // Nobody has committed to the stripe of e above the version observed.
  predicate Fresh(order: seq<Rec>, e: ReadEntry) {
    forall r :: r in order && r.point > e.observed ==> !Touches(r.ops, Stripe(e.addr))
  }

  lemma {:induction false} ValidatesIff(w: World, tid: Tid)
    requires Inv(w) && Stamped(w) && Active(w, tid)
    ensures Validates(w.s, tid) <==>
            forall i :: 0 <= i < |w.s.txs[tid].readSet| ==> Fresh(w.order, w.s.txs[tid].readSet[i])
  {
    var es := w.s.txs[tid].readSet;
    forall i | 0 <= i < |es| ensures EntryValid(w.s.locks, tid, es[i]) <==> Fresh(w.order, es[i]) {
      LastPointIs(w.order, Stripe(es[i].addr), es[i].observed);
    }
  }

  /* ----- the read set says what was accessed and when ----- */

  // Commits to the stripe since x are above the version observed in e.
  predicate Above(order: seq<Rec>, x: Access, e: ReadEntry) {
    forall r :: r in order && x.time < r.ended && Touches(r.ops, Stripe(e.addr)) ==> r.point > e.observed
  }

  // Commits to the stripe above the version observed in e came after x.
  predicate Later(order: seq<Rec>, x: Access, e: ReadEntry) {
    forall r :: r in order && r.point > e.observed && Touches(r.ops, Stripe(e.addr)) ==> x.time < r.ended
  }

  predicate Held(order: seq<Rec>, es: seq<ReadEntry>, x: Access) {
    exists e :: e in es && e.addr == x.addr && Above(order, x, e)
  }

  predicate Backed(order: seq<Rec>, xs: set<Access>, e: ReadEntry) {
    exists x :: x in xs && x.addr == e.addr && Later(order, x, e)
  }

  predicate AllHeld(order: seq<Rec>, es: seq<ReadEntry>, xs: set<Access>) {
    forall x {:trigger Held(order, es, x)} :: x in xs ==> Held(order, es, x)
  }

  predicate AllBacked(order: seq<Rec>, es: seq<ReadEntry>, xs: set<Access>) {
    forall e {:trigger Backed(order, xs, e)} :: e in es ==> Backed(order, xs, e)
  }

  predicate Since(w: World, tid: Tid, xs: set<Access>) {
    tid in w.began && forall x :: x in xs ==> w.began[tid] < x.time < w.now
  }

  predicate Tracks(w: World, h: History, tid: Tid)
    requires tid in w.s.txs
  {
    var tx := w.s.txs[tid];
    && tx.end == h.horizon && tx.readOnly == !h.wrote
    && Since(w, tid, h.accesses)
    && AllHeld(w.order, tx.readSet, h.accesses) && AllBacked(w.order, tx.readSet, h.accesses)
  }

  lemma {:induction false} OvertakenStale(order: seq<Rec>, es: seq<ReadEntry>, x: Access) returns (e: ReadEntry)
    requires Held(order, es, x) && Overtaken(order, x)
    ensures e in es && !Fresh(order, e)
  {
    e :| e in es && e.addr == x.addr && Above(order, x, e);
  }

  lemma {:induction false} StaleOvertaken(order: seq<Rec>, xs: set<Access>, e: ReadEntry) returns (x: Access)
    requires Backed(order, xs, e) && !Fresh(order, e)
    ensures x in xs && Overtaken(order, x)
  {
    x :| x in xs && x.addr == e.addr && Later(order, x, e);
  }

  lemma {:induction false} ConflictFails(w: World, h: History, tid: Tid)
    requires Inv(w) && Stamped(w) && Active(w, tid) && AllHeld(w.order, w.s.txs[tid].readSet, h.accesses)
    requires Conflicted(w, h)
    ensures !Validates(w.s, tid)
  {
    var x :| x in h.accesses && Overtaken(w.order, x);
    assert Held(w.order, w.s.txs[tid].readSet, x);
    var e := OvertakenStale(w.order, w.s.txs[tid].readSet, x);
    ValidatesIff(w, tid);
  }

  lemma {:induction false} FailureConflicts(w: World, h: History, tid: Tid)
    requires Inv(w) && Stamped(w) && Active(w, tid) && AllBacked(w.order, w.s.txs[tid].readSet, h.accesses)
    requires !Validates(w.s, tid)
    ensures Conflicted(w, h)
  {
    var es := w.s.txs[tid].readSet;
    ValidatesIff(w, tid);
    var i :| 0 <= i < |es| && !Fresh(w.order, es[i]);
    assert es[i] in es && Backed(w.order, h.accesses, es[i]);
    var x := StaleOvertaken(w.order, h.accesses, es[i]);
  }

  lemma {:induction false} ConflictIff(w: World, h: History, tid: Tid)
    requires Inv(w) && Stamped(w) && Active(w, tid) && Tracks(w, h, tid)
    ensures Validates(w.s, tid) <==> !Conflicted(w, h)
  {
    if Conflicted(w, h) { ConflictFails(w, h, tid); }
    if !Validates(w.s, tid) { FailureConflicts(w, h, tid); }
  }

  // A further commit is later than every access and above every version observed.
  lemma {:induction false} HeldPlace(order: seq<Rec>, r: Rec, es: seq<ReadEntry>, xs: set<Access>)
    requires AllHeld(order, es, xs) && (NoWrites(r.ops) || forall e :: e in es ==> e.observed < r.point)
    ensures AllHeld(Place(order, r), es, xs)
  {
    PlaceElements(order, r);
    forall x | x in xs ensures Held(Place(order, r), es, x) {
      assert Held(order, es, x);
      var e :| e in es && e.addr == x.addr && Above(order, x, e);
      assert Above(Place(order, r), x, e);
    }
  }

  lemma {:induction false} BackedPlace(order: seq<Rec>, r: Rec, es: seq<ReadEntry>, xs: set<Access>)
    requires AllBacked(order, es, xs) && forall x :: x in xs ==> x.time < r.ended
    ensures AllBacked(Place(order, r), es, xs)
  {
    PlaceElements(order, r);
    forall e | e in es ensures Backed(Place(order, r), xs, e) {
      assert Backed(order, xs, e);
      var x :| x in xs && x.addr == e.addr && Later(order, x, e);
      assert Later(Place(order, r), x, e);
    }
  }

  // A new access, with an entry of its own or covered by an earlier one.
  lemma {:induction false} HeldAccess(order: seq<Rec>, es: seq<ReadEntry>, es': seq<ReadEntry>, xs: set<Access>,
                                      x: Access, e: ReadEntry)
    requires AllHeld(order, es, xs) && es <= es' && e in es' && e.addr == x.addr
    requires forall r :: r in order ==> r.ended < x.time
    ensures AllHeld(order, es', xs + {x})
  {
    assert Held(order, es', x) by { assert Above(order, x, e); }
    forall y | y in xs ensures Held(order, es', y) {
      assert Held(order, es, y);
      var d :| d in es && d.addr == y.addr && Above(order, y, d);
      assert d in es';
    }
  }

  lemma {:induction false} BackedAccess(order: seq<Rec>, es: seq<ReadEntry>, es': seq<ReadEntry>, xs: set<Access>,
                                        x: Access, e: ReadEntry)
    requires AllBacked(order, es, xs) && e.addr == x.addr
    requires es' == es || (es' == es + [e] && Fresh(order, e))
    ensures AllBacked(order, es', xs + {x})
  {
    forall d | d in es' ensures Backed(order, xs + {x}, d) {
      if d in es {
        assert Backed(order, xs, d);
        var y :| y in xs && y.addr == d.addr && Later(order, y, d);
        assert y in xs + {x};
      } else {
        assert x in xs + {x} && Later(order, x, d);
      }
    }
  }

  lemma {:induction false} LastWriteIs(ops: seq<Op>, addr: nat)
    ensures LastWrite(ops, addr) == Lookup(Exec(map[], ops), addr)
  {
    if ops == [] {
    } else {
      LastWriteIs(ops[..|ops| - 1], addr);
    }
  }

  // The write set answers with the last write of the transaction.
  lemma {:induction false} OwnWriteIs(w: World, tid: Tid, addr: nat)
    requires Inv(w) && Active(w, tid)
    ensures FindWrite(w.s.txs[tid].writeSet, addr) == LastWrite(OpsOf(w, tid), addr)
  {
    assert TxOk(w, tid);
    WriteBackAt(w.s.txs[tid].writeSet, addr);
    LastWriteIs(w.trace[tid], addr);
  }

  // A written address has an entry in the read set.
  lemma {:induction false} OwnWriteCovered(w: World, tid: Tid, addr: nat) returns (e: ReadEntry)
    requires Inv(w) && Active(w, tid) && LastWrite(OpsOf(w, tid), addr).Some?
    ensures e in w.s.txs[tid].readSet && e.addr == addr
  {
    assert TxOk(w, tid);
    var ops, es := w.trace[tid], w.s.txs[tid].readSet;
    LastWriteIs(ops, addr);
    ExecKeys(ops, addr);
    var i :| 0 <= i < |ops| && ops[i].WriteOp? && ops[i].addr == addr;
    var j :| 0 <= j < |es| && es[j].addr == ops[i].addr;
    e := es[j];
  }

  lemma {:induction false} CurrentEntryFresh(w: World, addr: nat)
    requires Inv(w) && Stamped(w)
    ensures Fresh(w.order, ReadEntry(addr, w.s.locks[Stripe(addr)].version))
  {
    LastPointIs(w.order, Stripe(addr), w.s.locks[Stripe(addr)].version);
  }

  // An access that succeeds: of an own write, or of a stripe that is recorded as it is now.
  lemma {:induction false} AccessTracks(w: World, w': World, h: History, tid: Tid, addr: nat)
    requires Inv(w) && Stamped(w) && Active(w, tid) && Tracks(w, h, tid)
    requires w'.order == w.order && w'.now == w.now + 1 && w'.began == w.began && tid in w'.s.txs
    requires var tx, tx', ver := w.s.txs[tid], w'.s.txs[tid], w.s.locks[Stripe(addr)].version;
             if LastWrite(OpsOf(w, tid), addr).Some? then tx'.end == tx.end && tx'.readSet == tx.readSet
             else tx'.end == Extended(w.s, tx, ver) && tx'.readSet == tx.readSet + [ReadEntry(addr, ver)]
    ensures var h', tx' := Accessed(h, w, tid, addr), w'.s.txs[tid];
            && tx'.end == h'.horizon && Since(w', tid, h'.accesses)
            && AllHeld(w'.order, tx'.readSet, h'.accesses) && AllBacked(w'.order, tx'.readSet, h'.accesses)
  {
    assert TxOk(w, tid);
    var x, e := Access(addr, w.now), ReadEntry(addr, w.s.locks[Stripe(addr)].version);
    if LastWrite(OpsOf(w, tid), addr).Some? {
      e := OwnWriteCovered(w, tid, addr);
    } else {
      CurrentEntryFresh(w, addr);
    }
    forall r | r in w.order ensures r.ended < x.time { assert RecOk(w, r); }
    HeldAccess(w.order, w.s.txs[tid].readSet, w'.s.txs[tid].readSet, h.accesses, x, e);
    BackedAccess(w.order, w.s.txs[tid].readSet, w'.s.txs[tid].readSet, h.accesses, x, e);
  }

  lemma {:induction false} ReadTracks(w: World, h: History, tid: Tid, addr: nat)
    requires Inv(w) && Stamped(w) && Active(w, tid) && Tracks(w, h, tid)
    ensures Active(ReadWorld(w, tid, addr), tid)
    ensures Tracks(ReadWorld(w, tid, addr), Update(h, w, tid, ARead(tid, addr)), tid)
  {
    var w' := ReadWorld(w, tid, addr);
    OwnWriteIs(w, tid, addr);
    if Read(w.s, tid, addr).1.Fail? {
    } else {
      AccessTracks(w, w', h, tid, addr);
    }
  }

  lemma {:induction false} WriteTracks(w: World, h: History, tid: Tid, addr: nat, val: nat)
    requires Inv(w) && Stamped(w) && Active(w, tid) && Tracks(w, h, tid)
    ensures Active(WriteWorld(w, tid, addr, val), tid)
    ensures Tracks(WriteWorld(w, tid, addr, val), Update(h, w, tid, AWrite(tid, addr, val)), tid)
  {
    var w' := WriteWorld(w, tid, addr, val);
    OwnWriteIs(w, tid, addr);
    if Write(w.s, tid, addr, val).1.Fail? {
    } else {
      AccessTracks(w, w', h, tid, addr);
    }
  }

  lemma {:induction false} FrameTracks(w: World, w': World, h: History, tid: Tid)
    requires Inv(w) && Active(w, tid) && Tracks(w, h, tid) && SameTx(w, w', tid) && Grows(w, w')
    ensures Tracks(w', h, tid)
  {
    var tx := w.s.txs[tid];
    assert TxOk(w, tid);
    if w'.order != w.order {
      var r :| w'.order == Place(w.order, r) && r.ended == w.now && (w.s.clock < r.point || NoWrites(r.ops));
      forall e | e in tx.readSet ensures e.observed <= w.s.clock {
        var i :| 0 <= i < |tx.readSet| && tx.readSet[i] == e;
        assert EntryOk(w.order, tx.end, tx.readSet[i]);
      }
      HeldPlace(w.order, r, tx.readSet, h.accesses);
      BackedPlace(w.order, r, tx.readSet, h.accesses);
    }
  }

  lemma {:induction false} BeginTracks(w: World, h: History, tid: Tid)
    requires Quiet(w.s)
    ensures Tracks(BeginWorld(w, tid), Update(h, w, tid, ABegin(tid)), tid)
  {
  }

  // tm_commit leaves its own transaction inactive, and another one as it was.
  lemma {:induction false} CommitOthers(w: World, w': World, t: Tid, tid: Tid)
    requires Inv(w) && w' == CommitWorld(w, t, Commit(w.s, t).0, Commit(w.s, t).1)
    requires Commit(w.s, t).0.clock < VERSIONS && Active(w', tid)
    ensures t != tid && Active(w, tid) && SameTx(w, w', tid) && Grows(w, w')
  {
    if Commit(w.s, t).1 == Done {
      assert TxOk(w, t);
      CommitShape(w, w', t);
      var r := RecordOf(w, t, w'.s.clock);
      assert w.s.clock < r.point || NoWrites(r.ops);
    } else {
      FailedCommitShape(w, w', t);
    }
    assert TxOk(w, tid);
  }

  lemma {:induction false} OnlyOther(w: World, w': World, t: Tid, tid: Tid)
    requires Inv(w) && OnlyTid(w, w', t) && t != tid && Active(w', tid)
    ensures Active(w, tid) && SameTx(w, w', tid) && Grows(w, w')
  {
    assert TxOk(w, tid);
  }

  lemma {:induction false} EndOthers(w: World, t: Tid, tid: Tid)
    requires Inv(w) && Next(w, AEnd(t)).s.clock < VERSIONS && Active(Next(w, AEnd(t)), tid)
    ensures t != tid && Active(w, tid) && SameTx(w, Next(w, AEnd(t)), tid) && Grows(w, Next(w, AEnd(t)))
  {
    if Validates(w.s, t) {
      CommitOthers(w, Next(w, AEnd(t)), t, tid);
    } else {
      AbortShape(w, t);
      OnlyOther(w, Next(w, AEnd(t)), t, tid);
    }
  }

  lemma {:induction false} OtherStep(w: World, a: Action, tid: Tid)
    requires Inv(w) && Next(w, a).s.clock < VERSIONS && Active(Next(w, a), tid) && a.tid != tid
    ensures Active(w, tid) && SameTx(w, Next(w, a), tid) && Grows(w, Next(w, a))
  {
    match a
    case ABegin(t) =>
      BeginShape(w, t);
      OnlyOther(w, Next(w, a), t, tid);
    case ARead(t, addr) =>
      ReadShape(w, t, addr);
      OnlyOther(w, Next(w, a), t, tid);
    case AWrite(t, addr, val) =>
      WriteShape(w, t, addr, val);
      OnlyOther(w, Next(w, a), t, tid);
    case ACommit(t) =>
      CommitOthers(w, Next(w, a), t, tid);
    case AAbort(t) =>
      AbortShape(w, t);
      OnlyOther(w, Next(w, a), t, tid);
    case AEnd(t) =>
      EndOthers(w, t, tid);
  }

  // Only a begin activates a transaction, and commit, abort and end leave it inactive.
  lemma {:induction false} OwnStep(w: World, a: Action)
    requires Inv(w) && Next(w, a).s.clock < VERSIONS && Active(Next(w, a), a.tid) && !a.ABegin?
    ensures Active(w, a.tid) && (a.ARead? || a.AWrite?)
  {
    match a
    case ARead(t, addr) =>
    case AWrite(t, addr, val) =>
    case ACommit(t) => CommitOthers(w, Next(w, a), t, t);
    case AAbort(t) =>
    case AEnd(t) => EndOthers(w, t, t);
  }

  lemma {:induction false} NextTracks(w: World, a: Action, h: History, tid: Tid)
    requires Inv(w) && Stamped(w) && Next(w, a).s.clock < VERSIONS
    requires Active(w, tid) ==> Tracks(w, h, tid)
    ensures Active(Next(w, a), tid) ==> Tracks(Next(w, a), Update(h, w, tid, a), tid)
  {
    if !Active(Next(w, a), tid) {
    } else if a.tid != tid {
      OtherStep(w, a, tid);
      FrameTracks(w, Next(w, a), h, tid);
    } else if a.ABegin? {
      BeginTracks(w, h, tid);
    } else {
      OwnStep(w, a);
      if a.ARead? { ReadTracks(w, h, tid, a.addr); } else { WriteTracks(w, h, tid, a.addr, a.val); }
    }
  }

  lemma {:induction false} RunsTrack(ws: seq<World>, actions: seq<Action>, tid: Tid)
    requires IsRun(ws, actions)
    ensures |ws| == |actions| + 1 && Inv(ws[|actions|]) && Stamped(ws[|actions|])
    ensures Active(ws[|actions|], tid) ==> Tracks(ws[|actions|], HistoryOf(ws, actions, tid), tid)
    decreases |actions|
  {
    RunsStamped(ws, actions);
    if actions == [] {
    } else {
      var n := |actions| - 1;
      RunsTrack(ws[..n + 1], actions[..n], tid);
      NextTracks(ws[n], actions[n], HistoryOf(ws[..n + 1], actions[..n], tid), tid);
    }
  }

  lemma {:induction false} ApartIff(ws: seq<WriteEntry>, ops: seq<Op>)
    requires Distinct(ws) && Mirrors(ws, ops)
    ensures DistinctStripes(ws) <==> StripesApart(ops)
  {
    if DistinctStripes(ws) {
      forall i, j | 0 <= i < |ops| && 0 <= j < |ops| && ops[i].WriteOp? && ops[j].WriteOp? &&
                    Stripe(ops[i].addr) == Stripe(ops[j].addr)
        ensures ops[i].addr == ops[j].addr
      {
        var p := WriteFound(ws, ops, i);
        var q := WriteFound(ws, ops, j);
      }
    }
    if StripesApart(ops) {
      forall p, q | 0 <= p < q < |ws| ensures Stripe(ws[p].addr) != Stripe(ws[q].addr) {
        var i := EntryWritten(ws, ops, p);
        var j := EntryWritten(ws, ops, q);
      }
    }
  }

  lemma {:induction false} WriteFound(ws: seq<WriteEntry>, ops: seq<Op>, i: nat) returns (p: nat)
    requires Distinct(ws) && Mirrors(ws, ops) && i < |ops| && ops[i].WriteOp?
    ensures p < |ws| && ws[p].addr == ops[i].addr
  {
    ExecWrites(ops, i);
    WriteBackAt(ws, ops[i].addr);
    p := Find(ws, ops[i].addr);
  }

  lemma {:induction false} EntryWritten(ws: seq<WriteEntry>, ops: seq<Op>, p: nat) returns (i: nat)
    requires Distinct(ws) && Mirrors(ws, ops) && p < |ws|
    ensures i < |ops| && ops[i].WriteOp? && ops[i].addr == ws[p].addr
  {
    WriteBackAt(ws, ws[p].addr);
    ExecKeys(ops, ws[p].addr);
    i :| 0 <= i < |ops| && ops[i].WriteOp? && ops[i].addr == ws[p].addr;
  }

  // An inactive transaction has neither a read set nor a write set left.
  predicate IdleEmpty(s: State) {
    forall t :: t in s.txs && !s.txs[t].active ==> s.txs[t].readSet == [] && s.txs[t].writeSet == []
  }

  lemma {:induction false} AccessIdle(s: State, tid: Tid, addr: nat, val: nat)
    requires Quiet(s) && IdleEmpty(s)
    ensures IdleEmpty(Read(s, tid, addr).0) && IdleEmpty(Write(s, tid, addr, val).0)
  {
    var tx := TxOf(s, tid);
    assert !tx.active ==> tx.readSet == [] && tx.writeSet == [];
  }

  lemma {:induction false} EndingIdle(s: State, tid: Tid)
    requires Quiet(s) && IdleEmpty(s)
    ensures IdleEmpty(Abort(s, tid)) && IdleEmpty(Commit(s, tid).0) && IdleEmpty(End(s, tid).0)
  {
  }

  // The state that a call leaves, apart from the history.
  function After(s: State, a: Action): State
    requires Quiet(s)
  {
    match a
    case ABegin(tid) => Begin(s, tid)
    case ARead(tid, addr) => Read(s, tid, addr).0
    case AWrite(tid, addr, val) => Write(s, tid, addr, val).0
    case ACommit(tid) => Commit(s, tid).0
    case AAbort(tid) => Abort(s, tid)
    case AEnd(tid) => End(s, tid).0
  }

  lemma {:induction false} NextState(w: World, a: Action)
    requires Quiet(w.s)
    ensures Next(w, a).s == After(w.s, a)
  {
  }

  lemma {:induction false} NextIdle(w: World, a: Action)
    requires Quiet(w.s) && IdleEmpty(w.s)
    ensures IdleEmpty(Next(w, a).s)
  {
    match a
    case ABegin(t) =>
    case ARead(t, addr) => AccessIdle(w.s, t, addr, 0);
    case AWrite(t, addr, val) => AccessIdle(w.s, t, addr, val);
    case ACommit(t) => EndingIdle(w.s, t);
    case AAbort(t) => EndingIdle(w.s, t);
    case AEnd(t) => EndingIdle(w.s, t);
  }

  lemma {:induction false} RunsIdle(ws: seq<World>, actions: seq<Action>)
    requires IsRun(ws, actions)
    ensures |ws| == |actions| + 1 && IdleEmpty(ws[|actions|].s)
    decreases |actions|
  {
    if actions == [] {
    } else {
      var n := |actions| - 1;
      RunsIdle(ws[..n + 1], actions[..n]);
      NextIdle(ws[n], actions[n]);
    }
  }

  lemma {:induction false} AccessOpen(s: State, tid: Tid, addr: nat, val: nat, t: Tid)
    requires Quiet(s)
    ensures TxOf(Read(s, tid, addr).0, t).active == TxOf(s, t).active
    ensures TxOf(Write(s, tid, addr, val).0, t).active == TxOf(s, t).active
  {
  }

  lemma {:induction false} EndingOpen(s: State, tid: Tid, t: Tid)
    requires Quiet(s)
    ensures TxOf(Abort(s, tid), t).active == (t != tid && TxOf(s, t).active)
    ensures TxOf(Commit(s, tid).0, t).active == (t != tid && TxOf(s, t).active)
    ensures TxOf(End(s, tid).0, t).active == (t != tid && TxOf(s, t).active)
  {
  }

  lemma {:induction false} UpdateOpen(h: History, w: World, tid: Tid, a: Action)
    requires Quiet(w.s)
    ensures Update(h, w, tid, a).open ==
            if a.tid != tid then h.open else a.ABegin? || ((a.ARead? || a.AWrite?) && h.open)
  {
  }

  lemma {:induction false} NextOpen(w: World, a: Action, h: History, tid: Tid)
    requires Quiet(w.s) && (Active(w, tid) <==> h.open)
    ensures Active(Next(w, a), tid) <==> Update(h, w, tid, a).open
  {
    NextState(w, a);
    UpdateOpen(h, w, tid, a);
    match a
    case ABegin(t) =>
    case ARead(t, addr) => AccessOpen(w.s, t, addr, 0, tid);
    case AWrite(t, addr, val) => AccessOpen(w.s, t, addr, val, tid);
    case ACommit(t) => EndingOpen(w.s, t, tid);
    case AAbort(t) => EndingOpen(w.s, t, tid);
    case AEnd(t) => EndingOpen(w.s, t, tid);
  }

  // A transaction is active exactly from its begin to its commit, abort or end, whatever these answer.
  lemma {:induction false} RunsOpen(ws: seq<World>, actions: seq<Action>, tid: Tid)
    requires IsRun(ws, actions)
    ensures |ws| == |actions| + 1 && (Active(ws[|actions|], tid) <==> HistoryOf(ws, actions, tid).open)
    decreases |actions|
  {
    if actions == [] {
    } else {
      var n := |actions| - 1;
      RunsOpen(ws[..n + 1], actions[..n], tid);
      NextOpen(ws[n], actions[n], HistoryOf(ws[..n + 1], actions[..n], tid), tid);
    }
  }

  /* ----- what each call has to answer ----- */

  function ReadExpected(w: World, h: History, tid: Tid, addr: nat): Outcome {
    var last := LastPoint(w.order, Stripe(addr));
    if !h.open then Fail(OutsideTx)
    else match LastWrite(OpsOf(w, tid), addr)
      case Some(v) => Value(v)
      case None => if last > h.horizon && Conflicted(w, h) then Fail(ReadValidate) else Value(last)
  }

  function WriteExpected(w: World, h: History, tid: Tid, addr: nat): Outcome {
    if !h.open then Fail(OutsideTx)
    else if LastWrite(OpsOf(w, tid), addr).None? && LastPoint(w.order, Stripe(addr)) > h.horizon && Conflicted(w, h)
    then Fail(WriteExtension)
    else Done
  }

  function CommitExpected(w: World, h: History, tid: Tid): Outcome {
    if !h.open then Fail(NoActiveTx)
    else if !h.wrote then Done
    else if StripesApart(OpsOf(w, tid)) then if Conflicted(w, h) then Fail(CommitValidate) else Done
    else if Conflicted(w, h) then Fail(LockAbort) else Fail(LockTimeout)
  }

  function EndExpected(w: World, h: History, tid: Tid): Outcome {
    if !h.open then Fail(NoActiveTx)
    else if Conflicted(w, h) then Fail(Conflict)
    else if StripesApart(OpsOf(w, tid)) then Done
    else Fail(LockTimeout)
  }

  lemma {:induction false} AccessesAnswer(w: World, h: History, tid: Tid, addr: nat, val: nat)
    requires Inv(w) && Stamped(w) && (Active(w, tid) <==> h.open) && (h.open ==> Tracks(w, h, tid))
    ensures Answer(w, ARead(tid, addr)) == ReadExpected(w, h, tid, addr)
    ensures Answer(w, AWrite(tid, addr, val)) == WriteExpected(w, h, tid, addr)
  {
    if Active(w, tid) {
      OwnWriteIs(w, tid, addr);
      ConflictIff(w, h, tid);
    }
  }

  lemma {:induction false} EndingsAnswer(w: World, h: History, tid: Tid)
    requires Inv(w) && Stamped(w) && IdleEmpty(w.s) && (Active(w, tid) <==> h.open) && (h.open ==> Tracks(w, h, tid))
    ensures Answer(w, ACommit(tid)) == CommitExpected(w, h, tid)
    ensures Answer(w, AEnd(tid)) == EndExpected(w, h, tid)
  {
    if Active(w, tid) {
      assert TxOk(w, tid);
      ApartIff(w.s.txs[tid].writeSet, w.trace[tid]);
      ConflictIff(w, h, tid);
      if w.s.txs[tid].readOnly { assert StripesApart(w.trace[tid]); }
    }
  }

  /* ----- the theorems ----- */

  // A read answers with the last own write; else with the place of the last commit to the stripe.  It fails
  // exactly when that commit is past the horizon and an earlier access has been overtaken.  A write fails in
  // the same case.
  lemma {:induction false} ReadAnswers(ws: seq<World>, actions: seq<Action>, tid: Tid, addr: nat)
    requires IsRun(ws, actions)
    ensures var w := ws[|actions|];
            Quiet(w.s) && Answer(w, ARead(tid, addr)) == ReadExpected(w, HistoryOf(ws, actions, tid), tid, addr)
  {
    RunsTrack(ws, actions, tid);
    RunsOpen(ws, actions, tid);
    AccessesAnswer(ws[|actions|], HistoryOf(ws, actions, tid), tid, addr, 0);
  }

  lemma {:induction false} WriteAnswers(ws: seq<World>, actions: seq<Action>, tid: Tid, addr: nat, val: nat)
    requires IsRun(ws, actions)
    ensures var w := ws[|actions|];
            Quiet(w.s) && Answer(w, AWrite(tid, addr, val)) == WriteExpected(w, HistoryOf(ws, actions, tid), tid, addr)
  {
    RunsTrack(ws, actions, tid);
    RunsOpen(ws, actions, tid);
    AccessesAnswer(ws[|actions|], HistoryOf(ws, actions, tid), tid, addr, val);
  }

  // tm_end succeeds exactly when no access has been overtaken and the written addresses lie in different
  // stripes.  tm_commit alone does not look at the accesses of a transaction that never called tm_write.
  lemma {:induction false} EndAnswers(ws: seq<World>, actions: seq<Action>, tid: Tid)
    requires IsRun(ws, actions)
    ensures var w := ws[|actions|];
            Quiet(w.s) && Answer(w, AEnd(tid)) == EndExpected(w, HistoryOf(ws, actions, tid), tid)
  {
    RunsTrack(ws, actions, tid);
    RunsOpen(ws, actions, tid);
    RunsIdle(ws, actions);
    EndingsAnswer(ws[|actions|], HistoryOf(ws, actions, tid), tid);
  }

  lemma {:induction false} CommitAnswers(ws: seq<World>, actions: seq<Action>, tid: Tid)
    requires IsRun(ws, actions)
    ensures var w := ws[|actions|];
            Quiet(w.s) && Answer(w, ACommit(tid)) == CommitExpected(w, HistoryOf(ws, actions, tid), tid)
  {
    RunsTrack(ws, actions, tid);
    RunsOpen(ws, actions, tid);
    RunsIdle(ws, actions);
    EndingsAnswer(ws[|actions|], HistoryOf(ws, actions, tid), tid);
  }

  // If nobody has committed since its begin, every access succeeds, and the end does if the stripes allow it.
  lemma {:induction false} UndisturbedSucceeds(ws: seq<World>, actions: seq<Action>, tid: Tid)
    requires IsRun(ws, actions) && HistoryOf(ws, actions, tid).open && tid in ws[|actions|].began
    requires forall r :: r in ws[|actions|].order ==> r.ended < ws[|actions|].began[tid]
    ensures var w := ws[|actions|];
            && Quiet(w.s)
            && (forall addr :: Answer(w, ARead(tid, addr)).Value?)
            && (forall addr, val :: Answer(w, AWrite(tid, addr, val)) == Done)
            && (Answer(w, AEnd(tid)) == Done <==> StripesApart(OpsOf(w, tid)))
  {
    var w, h := ws[|actions|], HistoryOf(ws, actions, tid);
    RunsTrack(ws, actions, tid);
    RunsOpen(ws, actions, tid);
    assert !Conflicted(w, h);
    EndAnswers(ws, actions, tid);
    forall addr ensures Answer(w, ARead(tid, addr)).Value? { ReadAnswers(ws, actions, tid, addr); }
    forall addr, val ensures Answer(w, AWrite(tid, addr, val)) == Done { WriteAnswers(ws, actions, tid, addr, val); }
  }

  /* ----- the counters ----- */

  datatype Tally = Tally(commits: nat, aborts: nat, clock: nat)

  // What an ending adds: a commit or an abort, and a tick of the clock when a writer got to its last validation.
  function Ended(t: Tally, wrote: bool, out: Outcome): Tally {
    if out == Fail(NoActiveTx) then t
    else if out == Done then t.(commits := t.commits + 1, clock := if wrote then t.clock + 1 else t.clock)
    else t.(aborts := t.aborts + 1, clock := if out == Fail(CommitValidate) then t.clock + 1 else t.clock)
  }

  function Counted(t: Tally, w: World, h: History, a: Action): Tally
    requires Quiet(w.s)
  {
    if a.AAbort? then t.(aborts := t.aborts + 1)
    else if a.ACommit? || a.AEnd? then Ended(t, h.wrote, Answer(w, a))
    else t
  }

  function TallyOf(ws: seq<World>, actions: seq<Action>): Tally
    requires IsRun(ws, actions)
    decreases |actions|
  {
    if actions == [] then Tally(0, 0, 1)
    else
      var n := |actions| - 1;
      var before := HistoryOf(ws[..n + 1], actions[..n], actions[n].tid);
      Counted(TallyOf(ws[..n + 1], actions[..n]), ws[n], before, actions[n])
  }

  function Counters(s: State): Tally {
    Tally(s.commits, s.aborts, s.clock)
  }

  lemma {:induction false} EndingCounted(s: State, tid: Tid, wrote: bool)
    requires Quiet(s) && IdleEmpty(s)
    requires tid in s.txs && s.txs[tid].active ==> s.txs[tid].readOnly == !wrote
    ensures Counters(Commit(s, tid).0) == Ended(Counters(s), wrote, Commit(s, tid).1)
    ensures Counters(End(s, tid).0) == Ended(Counters(s), wrote, End(s, tid).1)
  {
  }

  lemma {:induction false} NextCounted(w: World, h: History, a: Action)
    requires Inv(w) && IdleEmpty(w.s) && (Active(w, a.tid) ==> w.s.txs[a.tid].readOnly == !h.wrote)
    ensures Counters(Next(w, a).s) == Counted(Counters(w.s), w, h, a)
  {
    NextState(w, a);
    match a
    case ABegin(t) =>
    case ARead(t, addr) =>
    case AWrite(t, addr, val) =>
    case ACommit(t) => EndingCounted(w.s, t, h.wrote);
    case AAbort(t) =>
    case AEnd(t) => EndingCounted(w.s, t, h.wrote);
  }

  // Commits, aborts and the clock count what the calls of the run answered.
  lemma {:induction false} CountersCount(ws: seq<World>, actions: seq<Action>)
    requires IsRun(ws, actions)
    ensures |ws| == |actions| + 1 && Counters(ws[|actions|].s) == TallyOf(ws, actions)
    decreases |actions|
  {
    if actions == [] {
    } else {
      var n := |actions| - 1;
      CountersCount(ws[..n + 1], actions[..n]);
      RunsTrack(ws[..n + 1], actions[..n], actions[n].tid);
      RunsIdle(ws[..n + 1], actions[..n]);
      NextCounted(ws[n], HistoryOf(ws[..n + 1], actions[..n], actions[n].tid), actions[n]);
    }
  }

  // Which calls abort a transaction that the model knows.
  predicate Aborts(w: World, tid: Tid, a: Action)
    requires Quiet(w.s)
  {
    && a.tid == tid && tid in w.s.txs
    && (a.AAbort? || ((a.ACommit? || a.AEnd?) && Answer(w, a) != Done && Answer(w, a) != Fail(NoActiveTx)))
  }

  function AbortsOf(ws: seq<World>, actions: seq<Action>, tid: Tid): nat
    requires IsRun(ws, actions)
    decreases |actions|
  {
    if actions == [] then 0
    else
      var n := |actions| - 1;
      AbortsOf(ws[..n + 1], actions[..n], tid) + if Aborts(ws[n], tid, actions[n]) then 1 else 0
  }

  lemma {:induction false} AccessRetries(s: State, tid: Tid, addr: nat, val: nat, t: Tid)
    requires Quiet(s)
    ensures TxOf(Read(s, tid, addr).0, t).retries == TxOf(s, t).retries
    ensures TxOf(Write(s, tid, addr, val).0, t).retries == TxOf(s, t).retries
  {
  }

  lemma {:induction false} CommitRetries(w: World, tid: Tid, t: Tid)
    requires Quiet(w.s)
    ensures TxOf(Commit(w.s, tid).0, t).retries == TxOf(w.s, t).retries + if Aborts(w, t, ACommit(tid)) then 1 else 0
  {
  }

  lemma {:induction false} EndRetries(w: World, tid: Tid, t: Tid)
    requires Quiet(w.s) && IdleEmpty(w.s)
    ensures TxOf(End(w.s, tid).0, t).retries == TxOf(w.s, t).retries + if Aborts(w, t, AEnd(tid)) then 1 else 0
  {
    if Validates(w.s, tid) { CommitRetries(w, tid, t); }
  }

  lemma {:induction false} NextRetries(w: World, a: Action, t: Tid)
    requires Quiet(w.s) && IdleEmpty(w.s)
    ensures TxOf(Next(w, a).s, t).retries == TxOf(w.s, t).retries + if Aborts(w, t, a) then 1 else 0
  {
    NextState(w, a);
    match a
    case ABegin(tid) =>
    case ARead(tid, addr) => AccessRetries(w.s, tid, addr, 0, t);
    case AWrite(tid, addr, val) => AccessRetries(w.s, tid, addr, val, t);
    case ACommit(tid) => CommitRetries(w, tid, t);
    case AAbort(tid) =>
    case AEnd(tid) => EndRetries(w, tid, t);
  }

  // The retry counter of a thread counts its aborts over the whole run.
  lemma {:induction false} RetriesCount(ws: seq<World>, actions: seq<Action>, tid: Tid)
    requires IsRun(ws, actions)
    ensures |ws| == |actions| + 1 && TxOf(ws[|actions|].s, tid).retries == AbortsOf(ws, actions, tid)
    decreases |actions|
  {
    if actions == [] {
    } else {
      var n := |actions| - 1;
      RetriesCount(ws[..n + 1], actions[..n], tid);
      RunsIdle(ws[..n + 1], actions[..n]);
      NextRetries(ws[n], actions[n], tid);
    }
  }
}
