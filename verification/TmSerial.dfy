/** Opacity and strict serializability of the WBCTL model, over every interleaving of calls.

    The model never reads values back (tm_read answers with the stripe version), so the
    history below records, for each transaction, the value that the committed store held at
    the moment of each read.  The reference is plain serial execution: transactions run one
    after the other, each operation against the current store.
 */
module TmSerial {
  import opened LockWord
  import opened Options
  import opened TmSpec

  type Store = map<nat, nat>

  datatype Op = ReadOp(addr: nat, seen: Option<nat>) | WriteOp(addr: nat, val: nat)

  /* ----- the reference: serial execution ----- */

  function Lookup(store: Store, addr: nat): Option<nat> {
    if addr in store then Some(store[addr]) else None
  }

  function Exec(store: Store, ops: seq<Op>): Store {
    if ops == [] then store
    else
      var before := Exec(store, ops[..|ops| - 1]);
      match ops[|ops| - 1]
      case ReadOp(_, _) => before
      case WriteOp(a, v) => before[a := v]
  }

  // Running ops alone from store, every read sees what the store then holds.
  predicate Legal(store: Store, ops: seq<Op>) {
    ops == [] ||
    (Legal(store, ops[..|ops| - 1]) &&
     match ops[|ops| - 1]
     case ReadOp(a, seen) => seen == Lookup(Exec(store, ops[..|ops| - 1]), a)
     case WriteOp(_, _) => true)
  }

  // A committed transaction: its operations, the snapshot it began with, its place in the
  // serial order, and the moments of its begin and of its commit.
  datatype Rec = Rec(tid: Tid, ops: seq<Op>, start: nat, point: nat, updater: bool, began: nat, ended: nat)

  function Replay(order: seq<Rec>): Store {
    if order == [] then map[] else Exec(Replay(order[..|order| - 1]), order[|order| - 1].ops)
  }

  predicate LegalOrder(order: seq<Rec>) {
    order == [] ||
    (LegalOrder(order[..|order| - 1]) && Legal(Replay(order[..|order| - 1]), order[|order| - 1].ops))
  }

  // No transaction is placed before one that had committed before it began.
  predicate RealTime(order: seq<Rec>) {
    forall i, j :: 0 <= i < j < |order| ==> order[i].began <= order[j].ended
  }

  // The store as it was at clock value v.
  function StoreAt(order: seq<Rec>, v: nat): Store {
    if order == [] then map[]
    else
      var before := StoreAt(order[..|order| - 1], v);
      if order[|order| - 1].point <= v then Exec(before, order[|order| - 1].ops) else before
  }

  /* ----- runs ----- */

  datatype World = World(s: State, trace: map<Tid, seq<Op>>, began: map<Tid, nat>,
                         order: seq<Rec>, done: seq<Rec>, now: nat)

  function Start(): World {
    World(Initial(), map[], map[], [], [], 0)
  }

  // A committed transaction goes after all those of the same or an earlier point.
  function Place(order: seq<Rec>, r: Rec): seq<Rec> {
    if order == [] || order[|order| - 1].point <= r.point then order + [r]
    else Place(order[..|order| - 1], r) + [order[|order| - 1]]
  }

  // The value a read of addr stands for: the own pending write, else the committed value.
  function Seen(s: State, tid: Tid, addr: nat): Option<nat>
    requires tid in s.txs
  {
    var own := FindWrite(s.txs[tid].writeSet, addr);
    if own.Some? then own else Lookup(s.committed, addr)
  }

  function OpsOf(w: World, tid: Tid): seq<Op> {
    if tid in w.trace then w.trace[tid] else []
  }

  // The record of a transaction that commits in state w.s and leaves the clock at clock.
  function RecordOf(w: World, tid: Tid, clock: nat): Rec
    requires tid in w.s.txs
  {
    var tx := w.s.txs[tid];
    Rec(tid, OpsOf(w, tid), tx.start, if tx.readOnly then tx.end else clock, !tx.readOnly,
        if tid in w.began then w.began[tid] else 0, w.now)
  }

  function Tick(w: World, s': State): World {
    w.(s := s', now := w.now + 1)
  }

  function BeginWorld(w: World, tid: Tid): World {
    Tick(w, Begin(w.s, tid)).(trace := w.trace[tid := []], began := w.began[tid := w.now])
  }

  function ReadWorld(w: World, tid: Tid, addr: nat): World
    requires Quiet(w.s)
  {
    var (s', out) := Read(w.s, tid, addr);
    if out.Value? && tid in w.s.txs
    then Tick(w, s').(trace := w.trace[tid := OpsOf(w, tid) + [ReadOp(addr, Seen(w.s, tid, addr))]])
    else Tick(w, s')
  }

  function WriteWorld(w: World, tid: Tid, addr: nat, val: nat): World
    requires Quiet(w.s)
  {
    var (s', out) := Write(w.s, tid, addr, val);
    if out == Done then Tick(w, s').(trace := w.trace[tid := OpsOf(w, tid) + [WriteOp(addr, val)]])
    else Tick(w, s')
  }

  function CommitWorld(w: World, tid: Tid, s': State, out: Outcome): World {
    if out == Done && tid in w.s.txs then
      var r := RecordOf(w, tid, s'.clock);
      Tick(w, s').(order := Place(w.order, r), done := w.done + [r])
    else Tick(w, s')
  }

  datatype Action =
    | ABegin(tid: Tid)
    | ARead(tid: Tid, addr: nat)
    | AWrite(tid: Tid, addr: nat, val: nat)
    | ACommit(tid: Tid)
    | AAbort(tid: Tid)
    | AEnd(tid: Tid)

  function Next(w: World, a: Action): World
    requires Quiet(w.s)
  {
    match a
    case ABegin(tid) => BeginWorld(w, tid)
    case ARead(tid, addr) => ReadWorld(w, tid, addr)
    case AWrite(tid, addr, val) => WriteWorld(w, tid, addr, val)
    case ACommit(tid) => CommitWorld(w, tid, Commit(w.s, tid).0, Commit(w.s, tid).1)
    case AAbort(tid) => Tick(w, Abort(w.s, tid))
    case AEnd(tid) => CommitWorld(w, tid, End(w.s, tid).0, End(w.s, tid).1)
  }

  // A run: from the start, each world the successor of the one before under the next call, with
  // the clock still within the version field.
  predicate IsRun(ws: seq<World>, actions: seq<Action>)
    decreases |actions|
  {
    if actions == [] then ws == [Start()]
    else
      var n := |actions| - 1;
      && |ws| == n + 2
      && IsRun(ws[..n + 1], actions[..n])
      && Quiet(ws[n].s) && ws[n + 1] == Next(ws[n], actions[n])
      && ws[n + 1].s.clock < VERSIONS
  }

  /* ----- the invariant ----- */

  predicate Touches(ops: seq<Op>, k: nat) {
    exists i :: 0 <= i < |ops| && ops[i].WriteOp? && Stripe(ops[i].addr) == k
  }

  predicate NoWrites(ops: seq<Op>) {
    forall i :: 0 <= i < |ops| ==> ops[i].ReadOp?
  }

  predicate Before(x: Rec, y: Rec) {
    x.point < y.point || (x.point == y.point && !y.updater && x.ended < y.ended)
  }

  predicate Sorted(order: seq<Rec>) {
    forall i, j :: 0 <= i < j < |order| ==> Before(order[i], order[j])
  }

  predicate RecOk(w: World, r: Rec)
    requires Quiet(w.s)
  {
    && r.point <= w.s.clock && r.began <= r.ended < w.now
    && (if r.updater then r.start < r.point else (r.start <= r.point && NoWrites(r.ops)))
    && (forall k :: 0 <= k < STRIPES && Touches(r.ops, k) ==> r.point <= w.s.locks[k].version)
  }

  predicate OrderOk(w: World)
    requires Quiet(w.s)
  {
    && Sorted(w.order)
    && (forall r :: r in w.order ==> RecOk(w, r))
    && (forall x, y :: x in w.order && y in w.order && y.ended < x.began ==> y.point <= x.start)
    && LegalOrder(w.order)
    && w.s.committed == Replay(w.order)
    && multiset(w.order) == multiset(w.done)
    && |w.done| == w.s.commits
  }

  // The stripe of a read entry was not written between the version observed and the snapshot.
  predicate EntryOk(order: seq<Rec>, end: nat, e: ReadEntry) {
    && e.observed <= end
    && forall r :: r in order && e.observed < r.point <= end ==> !Touches(r.ops, Stripe(e.addr))
  }

  predicate Covered(ops: seq<Op>, entries: seq<ReadEntry>) {
    forall i :: 0 <= i < |ops| ==> exists j :: 0 <= j < |entries| && entries[j].addr == ops[i].addr
  }

  // The write set says what the operations wrote last.
  predicate Mirrors(ws: seq<WriteEntry>, ops: seq<Op>) {
    Exec(map[], ops) == WriteBack(map[], ws)
  }

  predicate TxOk(w: World, tid: Tid)
    requires tid in w.s.txs
  {
    var tx := w.s.txs[tid];
    && tid in w.trace && tid in w.began
    && w.began[tid] < w.now
    && tx.start <= tx.end <= w.s.clock
    && (forall i :: 0 <= i < |tx.readSet| ==> EntryOk(w.order, tx.end, tx.readSet[i]))
    && Covered(w.trace[tid], tx.readSet)
    && Distinct(tx.writeSet) && Mirrors(tx.writeSet, w.trace[tid])
    && (tx.readOnly ==> NoWrites(w.trace[tid]) && tx.writeSet == [])
    && Legal(StoreAt(w.order, tx.end), w.trace[tid])
    && (forall r :: r in w.order && r.ended < w.began[tid] ==> r.point <= tx.start)
  }

  ghost predicate Inv(w: World) {
    && Quiet(w.s) && w.s.clock < VERSIONS
    && OrderOk(w)
    && (forall tid :: tid in w.s.txs && w.s.txs[tid].active ==> TxOk(w, tid))
  }

  /* ----- serial execution: facts ----- */

  lemma {:induction false} ExecOverlay(store: Store, ops: seq<Op>)
    ensures Exec(store, ops) == store + Exec(map[], ops)
  {
    if ops == [] {
    } else {
      ExecOverlay(store, ops[..|ops| - 1]);
    }
  }

  lemma {:induction false} WriteBackOverlay(store: Store, ws: seq<WriteEntry>)
    ensures WriteBack(store, ws) == store + WriteBack(map[], ws)
  {
    if ws == [] {
    } else {
      WriteBackOverlay(store, ws[..|ws| - 1]);
    }
  }

  lemma {:induction false} ExecKeys(ops: seq<Op>, addr: nat)
    requires addr in Exec(map[], ops)
    ensures exists i :: 0 <= i < |ops| && ops[i].WriteOp? && ops[i].addr == addr
  {
    var last := ops[|ops| - 1];
    if last.WriteOp? && last.addr == addr {
    } else {
      ExecKeys(ops[..|ops| - 1], addr);
      var i :| 0 <= i < |ops| - 1 && ops[..|ops| - 1][i].WriteOp? && ops[..|ops| - 1][i].addr == addr;
      assert ops[i].WriteOp? && ops[i].addr == addr;
    }
  }

  lemma {:induction false} ExecWrites(ops: seq<Op>, i: nat)
    requires i < |ops| && ops[i].WriteOp?
    ensures ops[i].addr in Exec(map[], ops)
  {
    if i < |ops| - 1 { ExecWrites(ops[..|ops| - 1], i); }
  }

  lemma {:induction false} WriteBackAt(ws: seq<WriteEntry>, addr: nat)
    requires Distinct(ws)
    ensures Lookup(WriteBack(map[], ws), addr) == FindWrite(ws, addr)
  {
    if ws == [] {
    } else {
      var n := |ws| - 1;
      WriteBackAt(ws[..n], addr);
      var i, j := Find(ws, addr), Find(ws[..n], addr);
      assert j < n ==> ws[j].addr == addr;
      assert forall k :: 0 <= k < j ==> ws[..n][k] == ws[k];
    }
  }

  lemma {:induction false} WriteBackUpdate(ws: seq<WriteEntry>, i: nat, val: nat)
    requires Distinct(ws) && i < |ws|
    ensures WriteBack(map[], ws[i := WriteEntry(ws[i].addr, val)]) == WriteBack(map[], ws)[ws[i].addr := val]
  {
    var n := |ws| - 1;
    var us := ws[i := WriteEntry(ws[i].addr, val)];
    if i < n {
      WriteBackUpdate(ws[..n], i, val);
      assert us[..n] == ws[..n][i := WriteEntry(ws[i].addr, val)];
    } else {
      assert us[..n] == ws[..n];
    }
  }

  lemma {:induction false} ExecUntouched(store: Store, ops: seq<Op>, addr: nat)
    requires !Touches(ops, Stripe(addr))
    ensures Lookup(Exec(store, ops), addr) == Lookup(store, addr)
  {
    if ops == [] {
    } else {
      assert !Touches(ops[..|ops| - 1], Stripe(addr));
      ExecUntouched(store, ops[..|ops| - 1], addr);
    }
  }

  lemma {:induction false} ExecNoWrites(store: Store, ops: seq<Op>)
    requires NoWrites(ops)
    ensures Exec(store, ops) == store
  {
    if ops == [] {
    } else {
      ExecNoWrites(store, ops[..|ops| - 1]);
    }
  }

  // Legality depends only on the addresses used.
  lemma {:induction false} LegalAgrees(x: Store, y: Store, ops: seq<Op>)
    requires Legal(x, ops)
    requires forall i :: 0 <= i < |ops| ==> Lookup(x, ops[i].addr) == Lookup(y, ops[i].addr)
    ensures Legal(y, ops)
  {
    if ops == [] {
    } else {
      var init := ops[..|ops| - 1];
      LegalAgrees(x, y, init);
      ExecOverlay(x, init);
      ExecOverlay(y, init);
      assert Lookup(x, ops[|ops| - 1].addr) == Lookup(y, ops[|ops| - 1].addr);
    }
  }

  // An address whose stripe no transaction between u and v wrote has one value from u to v.
  lemma {:induction false} StoreAtAgrees(order: seq<Rec>, u: nat, v: nat, addr: nat)
    requires u <= v
    requires forall r :: r in order && u < r.point <= v ==> !Touches(r.ops, Stripe(addr))
    ensures Lookup(StoreAt(order, u), addr) == Lookup(StoreAt(order, v), addr)
  {
    if order == [] {
    } else {
      var init, last := order[..|order| - 1], order[|order| - 1];
      StoreAtAgrees(init, u, v, addr);
      if last.point <= u {
        ExecOverlay(StoreAt(init, u), last.ops);
        ExecOverlay(StoreAt(init, v), last.ops);
      } else if last.point <= v {
        assert last in order;
        ExecUntouched(StoreAt(init, v), last.ops, addr);
      }
    }
  }

  lemma {:induction false} StoreAtAll(order: seq<Rec>, v: nat)
    requires forall r :: r in order ==> r.point <= v
    ensures StoreAt(order, v) == Replay(order)
  {
    if order == [] {
    } else {
      assert order[|order| - 1] in order;
      StoreAtAll(order[..|order| - 1], v);
    }
  }

  /* ----- placing a record ----- */

  lemma {:induction false} PlaceElements(order: seq<Rec>, r: Rec)
    ensures multiset(Place(order, r)) == multiset(order) + multiset{r}
    ensures forall x :: x in Place(order, r) <==> x in order || x == r
  {
    if order == [] || order[|order| - 1].point <= r.point {
    } else {
      PlaceElements(order[..|order| - 1], r);
      assert order == order[..|order| - 1] + [order[|order| - 1]];
    }
  }

  lemma {:induction false} PlaceSorted(order: seq<Rec>, r: Rec)
    requires Sorted(order)
    requires forall x :: x in order ==> x.ended < r.ended && (r.updater ==> x.point < r.point)
    ensures Sorted(Place(order, r))
  {
    if order == [] || order[|order| - 1].point <= r.point {
      forall i | 0 <= i < |order| ensures Before(order[i], r) {
        assert order[i] in order && order[|order| - 1] in order;
        assert i < |order| - 1 ==> Before(order[i], order[|order| - 1]);
      }
    } else {
      var init, last := order[..|order| - 1], order[|order| - 1];
      assert last in order;
      PlaceSorted(init, r);
      PlaceElements(init, r);
      forall x | x in Place(init, r) ensures Before(x, last) {
        if x != r { var i :| 0 <= i < |init| && init[i] == x; assert Before(order[i], order[|order| - 1]); }
      }
    }
  }

  // The record changes no earlier store: it is later, or it writes nothing.
  lemma {:induction false} PlaceStoreAt(order: seq<Rec>, r: Rec, v: nat)
    requires v < r.point || NoWrites(r.ops)
    ensures StoreAt(Place(order, r), v) == StoreAt(order, v)
  {
    if order == [] || order[|order| - 1].point <= r.point {
      assert (order + [r])[..|order|] == order;
      if r.point <= v { ExecNoWrites(StoreAt(order, v), r.ops); }
    } else {
      var init, last := order[..|order| - 1], order[|order| - 1];
      PlaceStoreAt(init, r, v);
      assert (Place(init, r) + [last])[..|Place(init, r)|] == Place(init, r);
    }
  }

  lemma {:induction false} PlaceLegal(order: seq<Rec>, r: Rec)
    requires Sorted(order) && LegalOrder(order) && NoWrites(r.ops)
    requires Legal(StoreAt(order, r.point), r.ops)
    ensures LegalOrder(Place(order, r)) && Replay(Place(order, r)) == Replay(order)
  {
    if order == [] || order[|order| - 1].point <= r.point {
      forall x | x in order ensures x.point <= r.point {
        var i :| 0 <= i < |order| && order[i] == x;
        assert i < |order| - 1 ==> Before(order[i], order[|order| - 1]);
      }
      StoreAtAll(order, r.point);
      ExecNoWrites(Replay(order), r.ops);
      assert (order + [r])[..|order|] == order;
    } else {
      var init, last := order[..|order| - 1], order[|order| - 1];
      PlaceLegal(init, r);
      assert (Place(init, r) + [last])[..|Place(init, r)|] == Place(init, r);
    }
  }

  lemma PlaceLast(order: seq<Rec>, r: Rec)
    requires forall x :: x in order ==> x.point <= r.point
    ensures Place(order, r) == order + [r]
  {
    if order != [] { assert order[|order| - 1] in order; }
  }

  /* ----- every call keeps the invariant ----- */

  // What a step leaves alone: an unchanged transaction stays fine if the order is unchanged or
  // gets a record that is later than every snapshot or writes nothing.
  ghost predicate Grows(w: World, w': World) {
    && w.now < w'.now && w.s.clock <= w'.s.clock
    && (w'.order == w.order ||
        exists r :: w'.order == Place(w.order, r) && r.ended == w.now && (w.s.clock < r.point || NoWrites(r.ops)))
  }

  predicate SameTx(w: World, w': World, tid: Tid) {
    && tid in w.s.txs && tid in w'.s.txs && w'.s.txs[tid] == w.s.txs[tid]
    && tid in w.trace && tid in w'.trace && w'.trace[tid] == w.trace[tid]
    && tid in w.began && tid in w'.began && w'.began[tid] == w.began[tid]
  }

  lemma TxFrame(w: World, w': World, tid: Tid)
    requires SameTx(w, w', tid) && TxOk(w, tid) && Grows(w, w')
    ensures TxOk(w', tid)
  {
    if w'.order != w.order {
      var r :| w'.order == Place(w.order, r) && r.ended == w.now && (w.s.clock < r.point || NoWrites(r.ops));
      PlaceElements(w.order, r);
      PlaceStoreAt(w.order, r, w.s.txs[tid].end);
    }
  }

  lemma OrderFrame(w: World, w': World)
    requires Quiet(w.s) && OrderOk(w) && Quiet(w'.s)
    requires w'.order == w.order && w'.done == w.done && w'.s.locks == w.s.locks
    requires w'.s.committed == w.s.committed && w'.s.commits == w.s.commits
    requires w.now <= w'.now && w.s.clock <= w'.s.clock
    ensures OrderOk(w')
  {
    forall r | r in w'.order ensures RecOk(w', r) { assert RecOk(w, r); }
  }

  // A validated read set still describes the present: the operations are legal right now.
  lemma ValidatedIsCurrent(w: World, tid: Tid)
    requires Inv(w) && tid in w.s.txs && w.s.txs[tid].active && Validates(w.s, tid)
    ensures Legal(w.s.committed, w.trace[tid])
    ensures Legal(StoreAt(w.order, w.s.clock), w.trace[tid])
    ensures forall i :: 0 <= i < |w.s.txs[tid].readSet| ==>
              EntryOk(w.order, w.s.clock, w.s.txs[tid].readSet[i])
  {
    var tx, ops := w.s.txs[tid], w.trace[tid];
    assert TxOk(w, tid);
    forall i, r | 0 <= i < |tx.readSet| && r in w.order && tx.readSet[i].observed < r.point
      ensures !Touches(r.ops, Stripe(tx.readSet[i].addr))
    {
      assert EntryValid(w.s.locks, tid, tx.readSet[i]);
      assert RecOk(w, r);
    }
    forall i | 0 <= i < |ops|
      ensures Lookup(StoreAt(w.order, tx.end), ops[i].addr) == Lookup(StoreAt(w.order, w.s.clock), ops[i].addr)
    {
      var j :| 0 <= j < |tx.readSet| && tx.readSet[j].addr == ops[i].addr;
      StoreAtAgrees(w.order, tx.end, w.s.clock, ops[i].addr);
    }
    LegalAgrees(StoreAt(w.order, tx.end), StoreAt(w.order, w.s.clock), ops);
    PresentStore(w);
  }

  lemma PresentStore(w: World)
    requires Quiet(w.s) && OrderOk(w)
    ensures StoreAt(w.order, w.s.clock) == w.s.committed
  {
    forall r | r in w.order ensures r.point <= w.s.clock { assert RecOk(w, r); }
    StoreAtAll(w.order, w.s.clock);
  }

  // The snapshot a read or write ends up with: still consistent, and recent enough for the stripe.
  lemma ExtendedOk(w: World, tid: Tid, ver: nat)
    requires Inv(w) && tid in w.s.txs && w.s.txs[tid].active
    requires ver <= w.s.clock && (ver > w.s.txs[tid].end ==> Validates(w.s, tid))
    ensures var tx, end := w.s.txs[tid], Extended(w.s, w.s.txs[tid], ver);
            && ver <= end <= w.s.clock && tx.start <= end
            && Legal(StoreAt(w.order, end), w.trace[tid])
            && forall i :: 0 <= i < |tx.readSet| ==> EntryOk(w.order, end, tx.readSet[i])
  {
    assert TxOk(w, tid);
    if ver > w.s.txs[tid].end { ValidatedIsCurrent(w, tid); }
  }

  // What the committed store says about an address is what any recent enough snapshot says.
  lemma SnapshotValue(w: World, addr: nat, end: nat)
    requires Inv(w) && w.s.locks[Stripe(addr)].version <= end <= w.s.clock
    ensures EntryOk(w.order, end, ReadEntry(addr, w.s.locks[Stripe(addr)].version))
    ensures Lookup(StoreAt(w.order, end), addr) == Lookup(w.s.committed, addr)
  {
    forall r | r in w.order && w.s.locks[Stripe(addr)].version < r.point
      ensures !Touches(r.ops, Stripe(addr))
    {
      assert RecOk(w, r);
    }
    StoreAtAgrees(w.order, end, w.s.clock, addr);
    PresentStore(w);
  }

  // A step that commits nothing and touches only tid.
  predicate OnlyTid(w: World, w': World, tid: Tid) {
    && w'.order == w.order && w'.done == w.done && w'.now == w.now + 1
    && w'.s.locks == w.s.locks && w'.s.committed == w.s.committed && w'.s.commits == w.s.commits
    && w.s.clock <= w'.s.clock < VERSIONS
    && SameBut(w.s.txs, w'.s.txs, tid) && SameBut(w.trace, w'.trace, tid) && SameBut(w.began, w'.began, tid)
  }

  predicate SameBut<T(==)>(m: map<Tid, T>, m': map<Tid, T>, tid: Tid) {
    && (forall t :: t in m && t != tid ==> t in m' && m'[t] == m[t])
    && (forall t :: t in m' && t != tid ==> t in m)
  }

  lemma OnlyTidKeeps(w: World, w': World, tid: Tid)
    requires Inv(w) && OnlyTid(w, w', tid) && Quiet(w'.s)
    requires tid in w'.s.txs && w'.s.txs[tid].active ==> TxOk(w', tid)
    ensures Inv(w')
  {
    OrderFrame(w, w');
    forall t | t != tid && t in w'.s.txs && w'.s.txs[t].active ensures TxOk(w', t) {
      assert TxOk(w, t);
      TxFrame(w, w', t);
    }
  }

  lemma BeginKeeps(w: World, w': World, tid: Tid)
    requires Inv(w) && OnlyTid(w, w', tid) && Quiet(w'.s)
    requires tid in w'.s.txs && w'.s.txs[tid].readSet == [] && w'.s.txs[tid].writeSet == []
    requires w'.s.txs[tid].start == w'.s.txs[tid].end == w.s.clock
    requires tid in w'.trace && w'.trace[tid] == [] && tid in w'.began && w'.began[tid] == w.now
    ensures Inv(w')
  {
    forall r | r in w.order ensures r.point <= w.s.clock { assert RecOk(w, r); }
    OnlyTidKeeps(w, w', tid);
  }

  lemma AbortKeeps(w: World, w': World, tid: Tid)
    requires Inv(w) && OnlyTid(w, w', tid) && Quiet(w'.s)
    requires w'.s.txs == Abort(w.s, tid).txs
    ensures Inv(w')
  {
    OnlyTidKeeps(w, w', tid);
  }

  lemma LegalSnoc(store: Store, ops: seq<Op>, op: Op)
    requires Legal(store, ops)
    requires op.ReadOp? ==> op.seen == Lookup(Exec(store, ops), op.addr)
    ensures Legal(store, ops + [op])
  {
    assert (ops + [op])[..|ops|] == ops;
  }

  lemma ExecSnoc(store: Store, ops: seq<Op>, op: Op)
    ensures Exec(store, ops + [op]) ==
            if op.WriteOp? then Exec(store, ops)[op.addr := op.val] else Exec(store, ops)
  {
    assert (ops + [op])[..|ops|] == ops;
  }

  lemma CoveredSnoc(ops: seq<Op>, es: seq<ReadEntry>, op: Op, es': seq<ReadEntry>)
    requires Covered(ops, es) && es <= es'
    requires (exists i :: 0 <= i < |ops| && ops[i].addr == op.addr) ||
             (exists j :: 0 <= j < |es'| && es'[j].addr == op.addr)
    ensures Covered(ops + [op], es')
  {
    forall i | 0 <= i < |ops| ensures exists j :: 0 <= j < |es'| && es'[j].addr == ops[i].addr {
      var j :| 0 <= j < |es| && es[j].addr == ops[i].addr;
      assert es'[j].addr == ops[i].addr;
    }
  }

  // One more operation on a consistent transaction: the ways a read or a write can go.
  lemma OwnReadOk(w: World, w': World, tid: Tid, addr: nat)
    requires Inv(w) && OnlyTid(w, w', tid) && tid in w.s.txs && w.s.txs[tid].active
    requires FindWrite(w.s.txs[tid].writeSet, addr).Some?
    requires tid in w'.s.txs && w'.s.txs[tid] == w.s.txs[tid] && w'.began == w.began
    requires tid in w'.trace && w'.trace[tid] == OpsOf(w, tid) + [ReadOp(addr, FindWrite(w.s.txs[tid].writeSet, addr))]
    ensures TxOk(w', tid)
  {
    var tx, ops := w.s.txs[tid], w.trace[tid];
    var op := ReadOp(addr, FindWrite(tx.writeSet, addr));
    assert TxOk(w, tid);
    ExecOverlay(StoreAt(w.order, tx.end), ops);
    WriteBackAt(tx.writeSet, addr);
    ExecKeys(ops, addr);
    CoveredSnoc(ops, tx.readSet, op, tx.readSet);
    LegalSnoc(StoreAt(w.order, tx.end), ops, op);
    ExecSnoc(map[], ops, op);
  }

  lemma FreshOpLegal(w: World, tid: Tid, op: Op, ver: nat, end: nat)
    requires Inv(w) && tid in w.s.txs && w.s.txs[tid].active
    requires FindWrite(w.s.txs[tid].writeSet, op.addr).None? && ver == w.s.locks[Stripe(op.addr)].version
    requires ver > w.s.txs[tid].end ==> Validates(w.s, tid)
    requires end == Extended(w.s, w.s.txs[tid], ver)
    requires op.ReadOp? ==> op.seen == Lookup(w.s.committed, op.addr)
    ensures w.s.txs[tid].start <= end <= w.s.clock
    ensures Legal(StoreAt(w.order, end), OpsOf(w, tid) + [op])
    ensures forall e :: e in w.s.txs[tid].readSet + [ReadEntry(op.addr, ver)] ==> EntryOk(w.order, end, e)
  {
    var ops := w.trace[tid];
    assert TxOk(w, tid);
    ExtendedOk(w, tid, ver);
    SnapshotValue(w, op.addr, end);
    ExecOverlay(StoreAt(w.order, end), ops);
    WriteBackAt(w.s.txs[tid].writeSet, op.addr);
    LegalSnoc(StoreAt(w.order, end), ops, op);
  }

  // The read side of an operation on an address that the transaction has not written.
  lemma FreshEntries(w: World, tid: Tid, op: Op, tx: Tx, tx': Tx, ver: nat)
    requires Inv(w) && tid in w.s.txs && w.s.txs[tid] == tx && tx.active && tid in w.trace
    requires FindWrite(tx.writeSet, op.addr).None? && ver == w.s.locks[Stripe(op.addr)].version
    requires ver > tx.end ==> Validates(w.s, tid)
    requires op.ReadOp? ==> op.seen == Lookup(w.s.committed, op.addr)
    requires tx'.end == Extended(w.s, tx, ver) && tx'.readSet == tx.readSet + [ReadEntry(op.addr, ver)]
    ensures tx.start <= tx'.end <= w.s.clock && Legal(StoreAt(w.order, tx'.end), w.trace[tid] + [op])
    ensures Covered(w.trace[tid] + [op], tx'.readSet)
    ensures forall i :: 0 <= i < |tx'.readSet| ==> EntryOk(w.order, tx'.end, tx'.readSet[i])
  {
    assert TxOk(w, tid);
    FreshOpLegal(w, tid, op, ver, tx'.end);
    assert Covered(w.trace[tid] + [op], tx'.readSet) by {
      assert tx'.readSet[|tx.readSet|].addr == op.addr;
      CoveredSnoc(w.trace[tid], tx.readSet, op, tx'.readSet);
    }
    forall i | 0 <= i < |tx'.readSet| ensures EntryOk(w.order, tx'.end, tx'.readSet[i]) {
      assert tx'.readSet[i] in tx.readSet + [ReadEntry(op.addr, ver)];
    }
  }

  lemma FreshReadOk(w: World, w': World, tid: Tid, op: Op, tx: Tx, tx': Tx, ver: nat)
    requires Inv(w) && OnlyTid(w, w', tid) && tid in w.s.txs && w.s.txs[tid] == tx && tx.active
    requires FindWrite(tx.writeSet, op.addr).None? && ver == w.s.locks[Stripe(op.addr)].version
    requires ver > tx.end ==> Validates(w.s, tid)
    requires op.ReadOp? && op.seen == Lookup(w.s.committed, op.addr)
    requires tid in w'.s.txs && w'.s.txs[tid] == tx' && w'.began == w.began
    requires tx' == tx.(end := Extended(w.s, tx, ver), readSet := tx.readSet + [ReadEntry(op.addr, ver)])
    requires tid in w'.trace && w'.trace[tid] == OpsOf(w, tid) + [op]
    ensures TxOk(w', tid)
  {
    assert TxOk(w, tid);
    FreshEntries(w, tid, op, tx, tx', ver);
    assert Mirrors(tx'.writeSet, w.trace[tid] + [op]) by { ExecSnoc(map[], w.trace[tid], op); }
  }

  lemma FreshWriteOk(w: World, w': World, tid: Tid, op: Op, tx: Tx, tx': Tx, ver: nat)
    requires Inv(w) && OnlyTid(w, w', tid) && tid in w.s.txs && w.s.txs[tid] == tx && tx.active
    requires FindWrite(tx.writeSet, op.addr).None? && ver == w.s.locks[Stripe(op.addr)].version
    requires ver > tx.end ==> Validates(w.s, tid)
    requires op.WriteOp?
    requires tid in w'.s.txs && w'.s.txs[tid] == tx' && w'.began == w.began
    requires tx' == tx.(readOnly := false, end := Extended(w.s, tx, ver),
                        writeSet := tx.writeSet + [WriteEntry(op.addr, op.val)],
                        readSet := tx.readSet + [ReadEntry(op.addr, ver)])
    requires tid in w'.trace && w'.trace[tid] == OpsOf(w, tid) + [op]
    ensures TxOk(w', tid)
  {
    assert TxOk(w, tid);
    FreshEntries(w, tid, op, tx, tx', ver);
    assert Mirrors(tx'.writeSet, w.trace[tid] + [op]) by {
      ExecSnoc(map[], w.trace[tid], op);
      assert tx'.writeSet[..|tx.writeSet|] == tx.writeSet;
    }
  }

  lemma OverwriteOk(w: World, w': World, tid: Tid, addr: nat, val: nat, i: nat)
    requires Inv(w) && OnlyTid(w, w', tid) && tid in w.s.txs && w.s.txs[tid].active
    requires i == Find(w.s.txs[tid].writeSet, addr) < |w.s.txs[tid].writeSet|
    requires tid in w'.s.txs && w'.began == w.began
    requires w'.s.txs[tid] == w.s.txs[tid].(readOnly := false,
                                            writeSet := w.s.txs[tid].writeSet[i := WriteEntry(addr, val)])
    requires tid in w'.trace && w'.trace[tid] == OpsOf(w, tid) + [WriteOp(addr, val)]
    ensures TxOk(w', tid)
  {
    var tx, ops := w.s.txs[tid], w.trace[tid];
    var op := WriteOp(addr, val);
    assert TxOk(w, tid);
    WriteBackAt(tx.writeSet, addr);
    ExecKeys(ops, addr);
    CoveredSnoc(ops, tx.readSet, op, tx.readSet);
    LegalSnoc(StoreAt(w.order, tx.end), ops, op);
    ExecSnoc(map[], ops, op);
    WriteBackUpdate(tx.writeSet, i, val);
  }

  // Which fields each of these calls can change.
  lemma BeginShape(w: World, tid: Tid)
    requires Quiet(w.s) && w.s.clock < VERSIONS
    ensures OnlyTid(w, BeginWorld(w, tid), tid) && Quiet(BeginWorld(w, tid).s)
  {
  }

  lemma AbortShape(w: World, tid: Tid)
    requires Quiet(w.s) && w.s.clock < VERSIONS
    ensures OnlyTid(w, Tick(w, Abort(w.s, tid)), tid) && Quiet(Abort(w.s, tid))
  {
  }

  lemma ReadShape(w: World, tid: Tid, addr: nat)
    requires Quiet(w.s) && w.s.clock < VERSIONS
    ensures OnlyTid(w, ReadWorld(w, tid, addr), tid) && Quiet(ReadWorld(w, tid, addr).s)
    ensures ReadWorld(w, tid, addr).began == w.began
  {
    ReadKeepsQuiet(w.s, tid, addr);
  }

  lemma WriteShape(w: World, tid: Tid, addr: nat, val: nat)
    requires Quiet(w.s) && w.s.clock < VERSIONS
    ensures OnlyTid(w, WriteWorld(w, tid, addr, val), tid) && Quiet(WriteWorld(w, tid, addr, val).s)
    ensures WriteWorld(w, tid, addr, val).began == w.began
  {
    WriteKeepsQuiet(w.s, tid, addr, val);
  }

  lemma ReadTxOk(w: World, w': World, tid: Tid, addr: nat)
    requires Inv(w) && OnlyTid(w, w', tid) && w' == ReadWorld(w, tid, addr)
    requires tid in w.s.txs && w.s.txs[tid].active
    ensures TxOk(w', tid)
  {
    var tx := w.s.txs[tid];
    assert TxOk(w, tid);
    var ver := w.s.locks[Stripe(addr)].version;
    if FindWrite(tx.writeSet, addr).Some? {
      OwnReadOk(w, w', tid, addr);
    } else if ver > tx.end && !Validates(w.s, tid) {
      TxFrame(w, w', tid);
    } else {
      FreshReadOk(w, w', tid, ReadOp(addr, Lookup(w.s.committed, addr)), tx, w'.s.txs[tid], ver);
    }
  }

  lemma WriteTxOk(w: World, w': World, tid: Tid, addr: nat, val: nat)
    requires Inv(w) && OnlyTid(w, w', tid) && w' == WriteWorld(w, tid, addr, val)
    requires tid in w.s.txs && w.s.txs[tid].active
    ensures TxOk(w', tid)
  {
    var tx := w.s.txs[tid];
    assert TxOk(w, tid);
    var ver, i := w.s.locks[Stripe(addr)].version, Find(tx.writeSet, addr);
    if i < |tx.writeSet| {
      OverwriteOk(w, w', tid, addr, val, i);
    } else if ver > tx.end && !Validates(w.s, tid) {
      FailedWriteOk(w, w', tid);
    } else {
      FreshWriteOk(w, w', tid, WriteOp(addr, val), tx, w'.s.txs[tid], ver);
    }
  }

  lemma FailedWriteOk(w: World, w': World, tid: Tid)
    requires Inv(w) && OnlyTid(w, w', tid) && tid in w.s.txs && w.s.txs[tid].active
    requires w'.trace == w.trace && w'.began == w.began
    requires tid in w'.s.txs && w'.s.txs[tid] == w.s.txs[tid].(readOnly := false)
    ensures TxOk(w', tid)
  {
    assert TxOk(w, tid);
  }

  lemma ReadKeeps(w: World, tid: Tid, addr: nat)
    requires Inv(w)
    ensures Inv(ReadWorld(w, tid, addr))
  {
    var w' := ReadWorld(w, tid, addr);
    ReadShape(w, tid, addr);
    if tid in w.s.txs && w.s.txs[tid].active { ReadTxOk(w, w', tid, addr); }
    OnlyTidKeeps(w, w', tid);
  }

  lemma WriteKeeps(w: World, tid: Tid, addr: nat, val: nat)
    requires Inv(w)
    ensures Inv(WriteWorld(w, tid, addr, val))
  {
    var w' := WriteWorld(w, tid, addr, val);
    WriteShape(w, tid, addr, val);
    if tid in w.s.txs && w.s.txs[tid].active { WriteTxOk(w, w', tid, addr, val); }
    OnlyTidKeeps(w, w', tid);
  }

  // A step that commits r for tid: the order, the tally and the other transactions.
  predicate Commits(w: World, w': World, tid: Tid, r: Rec) {
    && tid in w.s.txs && w.s.txs[tid].active
    && w'.order == Place(w.order, r) && w'.done == w.done + [r] && w'.now == w.now + 1
    && w'.s.commits == w.s.commits + 1
    && w.s.clock <= w'.s.clock < VERSIONS
    && r.tid == tid && r.ops == OpsOf(w, tid) && r.ended == w.now
    && r.start == w.s.txs[tid].start && tid in w.began && r.began == w.began[tid]
    && SameBut(w.s.txs, w'.s.txs, tid) && w'.trace == w.trace && w'.began == w.began
    && (tid in w'.s.txs ==> !w'.s.txs[tid].active)
  }

  lemma CommitsKeeps(w: World, w': World, tid: Tid, r: Rec)
    requires Inv(w) && Commits(w, w', tid, r) && Quiet(w'.s) && OrderOk(w')
    requires w.s.clock < r.point || NoWrites(r.ops)
    ensures Inv(w')
  {
    forall t | t in w'.s.txs && w'.s.txs[t].active ensures TxOk(w', t) {
      assert t != tid && TxOk(w, t);
      TxFrame(w, w', t);
    }
  }

  // The tally and the real-time bookkeeping, common to both kinds of commit.
  lemma CommitsTally(w: World, w': World, tid: Tid, r: Rec)
    requires Inv(w) && Commits(w, w', tid, r)
    ensures multiset(w'.order) == multiset(w'.done) && |w'.done| == w'.s.commits
    ensures forall x :: x in w'.order <==> x in w.order || x == r
    ensures forall x, y :: x in w'.order && y in w'.order && y.ended < x.began ==> y.point <= x.start
    ensures r.began <= r.ended
  {
    PlaceElements(w.order, r);
    assert TxOk(w, tid);
    forall x | x in w.order ensures x.began <= w.now { assert RecOk(w, x); }
  }

  predicate RecsOk(w: World)
    requires Quiet(w.s)
  {
    forall r :: r in w.order ==> RecOk(w, r)
  }

  lemma ReadOnlyRecsOk(w: World, w': World, tid: Tid, r: Rec)
    requires Inv(w) && Commits(w, w', tid, r) && Quiet(w'.s)
    requires w.s.txs[tid].readOnly && r.point == w.s.txs[tid].end && !r.updater
    requires w'.s.locks == w.s.locks
    ensures RecsOk(w')
  {
    assert TxOk(w, tid);
    PlaceElements(w.order, r);
    forall x | x in w.order ensures RecOk(w', x) { assert RecOk(w, x); }
  }

  lemma ReadOnlyOrderOk(w: World, w': World, tid: Tid, r: Rec)
    requires Inv(w) && Commits(w, w', tid, r) && Quiet(w'.s) && RecsOk(w')
    requires w.s.txs[tid].readOnly && r.point == w.s.txs[tid].end && !r.updater
    requires w'.s.committed == w.s.committed
    ensures OrderOk(w')
  {
    assert TxOk(w, tid);
    CommitsTally(w, w', tid, r);
    forall x | x in w.order ensures x.ended < r.ended { assert RecOk(w, x); }
    PlaceSorted(w.order, r);
    PlaceLegal(w.order, r);
  }

  lemma UpdaterRecsOk(w: World, w': World, tid: Tid, r: Rec)
    requires Inv(w) && Commits(w, w', tid, r) && Quiet(w'.s)
    requires r.point == w'.s.clock == w.s.clock + 1 && r.updater
    requires w'.s.locks == Stamp(w.s.locks, w.s.txs[tid].writeSet, w'.s.clock)
    ensures RecsOk(w')
  {
    PlaceElements(w.order, r);
    StampGrows(w.s, w.s.txs[tid].writeSet, w'.s.clock);
    forall x | x in w.order ensures RecOk(w', x) {
      assert RecOk(w, x);
      RecStays(w, w', x);
    }
    UpdaterRecOk(w, w', tid, r);
  }

  lemma UpdaterRecOk(w: World, w': World, tid: Tid, r: Rec)
    requires Inv(w) && Commits(w, w', tid, r) && Quiet(w'.s)
    requires r.point == w'.s.clock == w.s.clock + 1 && r.updater
    requires w'.s.locks == Stamp(w.s.locks, w.s.txs[tid].writeSet, w'.s.clock)
    ensures RecOk(w', r)
  {
    assert TxOk(w, tid);
    forall k | 0 <= k < STRIPES && Touches(r.ops, k) ensures r.point <= w'.s.locks[k].version {
      StampedIfTouched(w.s.txs[tid].writeSet, r.ops, k);
    }
  }

  lemma StampGrows(s: State, ws: seq<WriteEntry>, version: nat)
    requires Quiet(s) && s.clock <= version < VERSIONS
    ensures forall k :: 0 <= k < STRIPES ==> s.locks[k].version <= Stamp(s.locks, ws, version)[k].version
  {
  }

  lemma RecStays(w: World, w': World, x: Rec)
    requires Quiet(w.s) && Quiet(w'.s) && RecOk(w, x) && w.s.clock <= w'.s.clock && w.now <= w'.now
    requires forall k :: 0 <= k < STRIPES ==> w.s.locks[k].version <= w'.s.locks[k].version
    ensures RecOk(w', x)
  {
  }

  lemma UpdaterOrderOk(w: World, w': World, tid: Tid, r: Rec)
    requires Inv(w) && Commits(w, w', tid, r) && Quiet(w'.s) && RecsOk(w') && Validates(w.s, tid)
    requires r.point == w.s.clock + 1 && r.updater
    requires w'.s.committed == WriteBack(w.s.committed, w.s.txs[tid].writeSet)
    ensures OrderOk(w')
  {
    var ws := w.s.txs[tid].writeSet;
    assert TxOk(w, tid);
    CommitsTally(w, w', tid, r);
    forall x | x in w.order ensures x.ended < r.ended && x.point < r.point { assert RecOk(w, x); }
    PlaceSorted(w.order, r);
    PlaceLast(w.order, r);
    assert (w.order + [r])[..|w.order|] == w.order;
    ValidatedIsCurrent(w, tid);
    ExecOverlay(w.s.committed, r.ops);
    WriteBackOverlay(w.s.committed, ws);
  }

  lemma StampedIfTouched(ws: seq<WriteEntry>, ops: seq<Op>, k: nat)
    requires Distinct(ws) && Mirrors(ws, ops) && Touches(ops, k)
    ensures WritesStripe(ws, k)
  {
    var i :| 0 <= i < |ops| && ops[i].WriteOp? && Stripe(ops[i].addr) == k;
    ExecWrites(ops, i);
    WriteBackAt(ws, ops[i].addr);
    assert Stripe(ws[Find(ws, ops[i].addr)].addr) == k;
  }

  lemma CommitShape(w: World, w': World, tid: Tid)
    requires Quiet(w.s) && tid in w.s.txs && w.s.txs[tid].active && tid in w.began
    requires Commit(w.s, tid).1 == Done && Commit(w.s, tid).0.clock < VERSIONS
    requires w' == CommitWorld(w, tid, Commit(w.s, tid).0, Done)
    ensures Commits(w, w', tid, RecordOf(w, tid, w'.s.clock)) && Quiet(w'.s)
  {
    CommitKeepsQuiet(w.s, tid);
  }

  lemma FailedCommitShape(w: World, w': World, tid: Tid)
    requires Quiet(w.s) && Commit(w.s, tid).1 != Done && Commit(w.s, tid).0.clock < VERSIONS
    requires w' == CommitWorld(w, tid, Commit(w.s, tid).0, Commit(w.s, tid).1)
    ensures OnlyTid(w, w', tid) && Quiet(w'.s)
    ensures tid in w'.s.txs ==> !w'.s.txs[tid].active
  {
    CommitKeepsQuiet(w.s, tid);
  }

  lemma CommitKeeps(w: World, w': World, tid: Tid)
    requires Inv(w) && w' == CommitWorld(w, tid, Commit(w.s, tid).0, Commit(w.s, tid).1)
    requires Commit(w.s, tid).0.clock < VERSIONS
    ensures Inv(w')
  {
    if Commit(w.s, tid).1 == Done {
      assert TxOk(w, tid);
      var r := RecordOf(w, tid, w'.s.clock);
      CommitShape(w, w', tid);
      if w.s.txs[tid].readOnly {
        ReadOnlyRecsOk(w, w', tid, r);
        ReadOnlyOrderOk(w, w', tid, r);
      } else {
        UpdaterRecsOk(w, w', tid, r);
        UpdaterOrderOk(w, w', tid, r);
      }
      CommitsKeeps(w, w', tid, r);
    } else {
      FailedCommitShape(w, w', tid);
      OnlyTidKeeps(w, w', tid);
    }
  }

  lemma NextKeeps(w: World, a: Action)
    requires Inv(w) && Next(w, a).s.clock < VERSIONS
    ensures Inv(Next(w, a))
  {
    var w' := Next(w, a);
    match a
    case ABegin(tid) =>
      BeginShape(w, tid);
      BeginKeeps(w, w', tid);
    case ARead(tid, addr) =>
      ReadKeeps(w, tid, addr);
    case AWrite(tid, addr, val) =>
      WriteKeeps(w, tid, addr, val);
    case ACommit(tid) =>
      CommitKeeps(w, w', tid);
    case AAbort(tid) =>
      AbortShape(w, tid);
      AbortKeeps(w, w', tid);
    case AEnd(tid) =>
      EndKeeps(w, tid);
  }

  lemma EndKeeps(w: World, tid: Tid)
    requires Inv(w) && Next(w, AEnd(tid)).s.clock < VERSIONS
    ensures Inv(Next(w, AEnd(tid)))
  {
    var w' := Next(w, AEnd(tid));
    if Validates(w.s, tid) {
      CommitKeeps(w, w', tid);
    } else {
      AbortShape(w, tid);
      AbortKeeps(w, w', tid);
    }
  }

  /* ----- the theorems ----- */

  lemma {:induction false} RunsKeepInv(ws: seq<World>, actions: seq<Action>)
    requires IsRun(ws, actions)
    ensures |ws| == |actions| + 1 && Inv(ws[|actions|])
    decreases |actions|
  {
    if actions == [] {
    } else {
      var n := |actions| - 1;
      RunsKeepInv(ws[..n + 1], actions[..n]);
      NextKeeps(ws[n], actions[n]);
    }
  }

  // Between any two calls of any run every lock word is free and no version is ahead of the clock, so the
  // run can go on with any call of any thread.
  lemma {:induction false} LocksFreeBetweenCalls(ws: seq<World>, actions: seq<Action>, a: Action)
    requires IsRun(ws, actions)
    ensures |ws| == |actions| + 1 && Quiet(ws[|actions|].s)
    ensures Next(ws[|actions|], a).s.clock < VERSIONS ==> IsRun(ws + [Next(ws[|actions|], a)], actions + [a])
  {
    RunsKeepInv(ws, actions);
    var n, w' := |actions|, Next(ws[|actions|], a);
    assert (ws + [w'])[..n + 1] == ws && (actions + [a])[..n] == actions;
  }

  // Opacity: after any run, all the operations of every active transaction - it may yet abort -
  // are those of a serial execution from one snapshot.  The snapshot lies between the
  // transaction's begin and now, and holds every transaction that committed before that begin.
  lemma Opacity(ws: seq<World>, actions: seq<Action>, tid: Tid)
    requires IsRun(ws, actions)
    requires tid in ws[|actions|].s.txs && ws[|actions|].s.txs[tid].active
    ensures var w := ws[|actions|];
            var tx := w.s.txs[tid];
            && tx.start <= tx.end <= w.s.clock
            && tid in w.trace && Legal(StoreAt(w.order, tx.end), w.trace[tid])
            && tid in w.began
            && forall r :: r in w.order && r.ended < w.began[tid] ==> r.point <= tx.end
    ensures var w := ws[|actions|];
            forall i :: 0 <= i < |w.s.txs[tid].readSet| ==>
                          EntryOk(w.order, w.s.txs[tid].end, w.s.txs[tid].readSet[i])
  {
    RunsKeepInv(ws, actions);
    SnapshotOf(ws[|actions|], tid);
  }

  lemma {:induction false} SnapshotOf(w: World, tid: Tid)
    requires Inv(w) && tid in w.s.txs && w.s.txs[tid].active
    ensures var tx := w.s.txs[tid];
            && tx.start <= tx.end <= w.s.clock
            && tid in w.trace && Legal(StoreAt(w.order, tx.end), w.trace[tid])
            && tid in w.began
            && forall r :: r in w.order && r.ended < w.began[tid] ==> r.point <= tx.end
    ensures forall i :: 0 <= i < |w.s.txs[tid].readSet| ==>
                          EntryOk(w.order, w.s.txs[tid].end, w.s.txs[tid].readSet[i])
  {
    assert TxOk(w, tid);
  }

  // Strict serializability: after any run, the committed transactions have a serial order in
  // which each sees exactly what it saw, that ends in the committed store, and that never puts
  // a transaction before one that committed before it began.
  lemma StrictSerializability(ws: seq<World>, actions: seq<Action>)
    requires IsRun(ws, actions)
    ensures var w := ws[|actions|];
            && LegalOrder(w.order) && Sorted(w.order)
            && Replay(w.order) == w.s.committed
            && RealTime(w.order)
            && multiset(w.order) == multiset(w.done) && |w.done| == w.s.commits
  {
    RunsKeepInv(ws, actions);
    RealTimeOrder(ws[|actions|]);
  }

  lemma {:induction false} RealTimeOrder(w: World)
    requires Inv(w)
    ensures RealTime(w.order)
  {
    forall i, j | 0 <= i < j < |w.order| ensures w.order[i].began <= w.order[j].ended {
      var x, y := w.order[i], w.order[j];
      assert x in w.order && y in w.order && Before(x, y);
      assert RecOk(w, x) && RecOk(w, y);
    }
  }
}
