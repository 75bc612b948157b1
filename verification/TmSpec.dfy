/** The WBCTL transaction model as a state machine: one function per tm_* call.

    A call is one atomic step.  The class in TmModel.dfy carries out each call with the
    loops of the source and is proved to compute exactly these functions.
 */
module TmSpec {
  import opened LockWord
  import opened Options

  const STRIPES: nat := 16384

  type Tid = t: nat | t < THREADS

  datatype ReadEntry = ReadEntry(addr: nat, observed: nat)

  datatype WriteEntry = WriteEntry(addr: nat, val: nat)

  datatype Tx = Tx(active: bool, readOnly: bool, start: nat, end: nat,
                   readSet: seq<ReadEntry>, writeSet: seq<WriteEntry>, locksHeld: seq<nat>, retries: nat)

  datatype State = State(clock: nat, locks: seq<Word>, txs: map<Tid, Tx>,
                         committed: map<nat, nat>, aborts: nat, commits: nat)

  datatype Reason =
    | OutsideTx | ReadValidate | WriteExtension | WriteLockValidate | SpinTimeout
    | NoActiveTx | LockAbort | LockTimeout | CommitValidate | Conflict

  datatype Outcome = Value(val: nat) | Done | Fail(reason: Reason)

  const FRESH: Tx := Tx(false, true, 0, 0, [], [], [], 0)

  function Stripe(addr: nat): (i: nat)
    ensures i < STRIPES
  {
    (addr / 8) % STRIPES
  }

  // Two addresses share a lock iff their 8-byte words are a multiple of the table size apart.
  lemma {:induction false} SharedStripe(a: nat, b: nat)
    ensures Stripe(a) == Stripe(b) <==> exists k: int :: a / 8 == b / 8 + k * 16384
  {
    var x, y := a / 8, b / 8;
    assert x == 16384 * (x / 16384) + x % 16384 && y == 16384 * (y / 16384) + y % 16384;
    if Stripe(a) == Stripe(b) { assert x == y + (x / 16384 - y / 16384) * 16384; }
    if k: int :| x == y + k * 16384 { SameRemainder(x, y, k); }
  }

  lemma {:induction false} SameRemainder(x: nat, y: nat, k: int)
    requires x == y + k * 16384
    ensures x % 16384 == y % 16384
  {
    assert x - y % 16384 == (y / 16384 + k) * 16384;
  }

  predicate Distinct(ws: seq<WriteEntry>) {
    forall i, j :: 0 <= i < j < |ws| ==> ws[i].addr != ws[j].addr
  }

  // What holds between any two calls: every lock word is free and carries a version that the
  // clock has reached, no transaction holds locks, and no write set names an address twice.
  predicate Quiet(s: State) {
    && |s.locks| == STRIPES
    && (forall i :: 0 <= i < STRIPES ==> s.locks[i].Free() && s.locks[i].version <= s.clock)
    && (forall t :: t in s.txs ==> s.txs[t].locksHeld == [] && Distinct(s.txs[t].writeSet))
  }

  function Initial(): State {
    State(1, seq(STRIPES, _ => Word(0, 0, 0, 0)), map[], map[], 0, 0)
  }

  // Every lock starts as the 64-bit word of version 0.
  lemma InitialWords(k: nat)
    requires k < STRIPES
    ensures Initial().locks[k] == Fields(New(0))
  {
  }

  // The first entry for addr, or the length if there is none.
  function Find(ws: seq<WriteEntry>, addr: nat): (i: nat)
    ensures i <= |ws|
    ensures i < |ws| ==> ws[i].addr == addr
    ensures forall j :: 0 <= j < i ==> ws[j].addr != addr
  {
    if ws == [] || ws[0].addr == addr then 0 else 1 + Find(ws[1..], addr)
  }

  function FindWrite(ws: seq<WriteEntry>, addr: nat): Option<nat> {
    var i := Find(ws, addr);
    if i < |ws| then Some(ws[i].val) else None
  }

  // One read entry still holds: no foreign lock, and no version newer than the one observed.
  predicate EntryValid(locks: seq<Word>, tid: nat, r: ReadEntry)
    requires |locks| == STRIPES
  {
    var l := locks[Stripe(r.addr)];
    !(l.WriteLocked() && l.owner != tid) && l.version <= r.observed
  }

  predicate Validates(s: State, tid: Tid)
    requires |s.locks| == STRIPES
  {
    tid in s.txs ==> forall i :: 0 <= i < |s.txs[tid].readSet| ==> EntryValid(s.locks, tid, s.txs[tid].readSet[i])
  }

  // get_or_create_tx
  function TxOf(s: State, tid: Tid): Tx {
    if tid in s.txs then s.txs[tid] else FRESH
  }

  function Put(s: State, tid: Tid, tx: Tx): State {
    s.(txs := s.txs[tid := tx])
  }

  function Begin(s: State, tid: Tid): State {
    Put(s, tid, TxOf(s, tid).(active := true, readOnly := true, start := s.clock, end := s.clock,
                              readSet := [], writeSet := [], locksHeld := []))
  }

  // The end of the snapshot after looking at a stripe of version ver: now, if it was too old.
  function Extended(s: State, tx: Tx, ver: nat): nat {
    if ver > tx.end then s.clock else tx.end
  }

  function ReadTx(s: State, tid: Tid, addr: nat): (Tx, Outcome)
    requires |s.locks| == STRIPES
  {
    var tx, ver := TxOf(s, tid), s.locks[Stripe(addr)].version;
    if !tx.active then (tx, Fail(OutsideTx))
    else if FindWrite(tx.writeSet, addr).Some? then (tx, Value(FindWrite(tx.writeSet, addr).value))
    else if s.locks[Stripe(addr)].WriteLocked() then (tx, Fail(SpinTimeout))
    else if ver > tx.end && !Validates(s, tid) then (tx, Fail(ReadValidate))
    else
      (tx.(end := Extended(s, tx, ver), readSet := tx.readSet + [ReadEntry(addr, ver)]), Value(ver))
  }

  function WriteTx(s: State, tid: Tid, addr: nat, val: nat): (Tx, Outcome)
    requires |s.locks| == STRIPES
  {
    var tx, ver := TxOf(s, tid), s.locks[Stripe(addr)].version;
    var i := Find(tx.writeSet, addr);
    if !tx.active then (tx, Fail(OutsideTx))
    else if i < |tx.writeSet| then
      (tx.(readOnly := false, writeSet := tx.writeSet[i := WriteEntry(addr, val)]), Done)
    else if s.locks[Stripe(addr)].WriteLocked() && s.locks[Stripe(addr)].owner != tid then
      (tx.(readOnly := false), Fail(if Validates(s, tid) then SpinTimeout else WriteLockValidate))
    else if ver > tx.end && !Validates(s, tid) then (tx.(readOnly := false), Fail(WriteExtension))
    else
      (tx.(readOnly := false, end := Extended(s, tx, ver),
           writeSet := tx.writeSet + [WriteEntry(addr, val)],
           readSet := tx.readSet + [ReadEntry(addr, ver)]), Done)
  }

  function Read(s: State, tid: Tid, addr: nat): (State, Outcome)
    requires |s.locks| == STRIPES
  {
    (Put(s, tid, ReadTx(s, tid, addr).0), ReadTx(s, tid, addr).1)
  }

  function Write(s: State, tid: Tid, addr: nat, val: nat): (State, Outcome)
    requires |s.locks| == STRIPES
  {
    (Put(s, tid, WriteTx(s, tid, addr, val).0), WriteTx(s, tid, addr, val).1)
  }

  // unlock_owner on each index of held, in order.
  function Release(locks: seq<Word>, held: seq<nat>, tid: nat): (r: seq<Word>)
    requires forall i :: 0 <= i < |held| ==> held[i] < |locks|
    ensures |r| == |locks|
    decreases |held|
  {
    if held == [] then locks
    else Release(locks[held[0] := locks[held[0]].Unlock(tid)], held[1..], tid)
  }

  predicate HeldInRange(s: State, tid: Tid) {
    tid in s.txs ==> forall i :: 0 <= i < |s.txs[tid].locksHeld| ==> s.txs[tid].locksHeld[i] < |s.locks|
  }

  function Abort(s: State, tid: Tid): State
    requires HeldInRange(s, tid)
  {
    if tid in s.txs then
      var tx := s.txs[tid];
      s.(locks := Release(s.locks, tx.locksHeld, tid),
         txs := s.txs[tid := tx.(readSet := [], writeSet := [], locksHeld := [], active := false,
                                 retries := tx.retries + 1)],
         aborts := s.aborts + 1)
    else s.(aborts := s.aborts + 1)
  }

  predicate DistinctStripes(ws: seq<WriteEntry>) {
    forall i, j :: 0 <= i < j < |ws| ==> Stripe(ws[i].addr) != Stripe(ws[j].addr)
  }

  predicate WritesStripe(ws: seq<WriteEntry>, k: nat) {
    exists i :: 0 <= i < |ws| && Stripe(ws[i].addr) == k
  }

  // Every written stripe gets the commit version.
  function Stamp(locks: seq<Word>, ws: seq<WriteEntry>, version: nat): (r: seq<Word>)
    ensures |r| == |locks|
    ensures forall k :: 0 <= k < |locks| ==>
              r[k] == if WritesStripe(ws, k) then locks[k].WithVersion(version) else locks[k]
  {
    seq(|locks|, k requires 0 <= k < |locks| =>
      if WritesStripe(ws, k) then locks[k].WithVersion(version) else locks[k])
  }

  function WriteBack(store: map<nat, nat>, ws: seq<WriteEntry>): map<nat, nat> {
    if ws == [] then store
    else WriteBack(store, ws[..|ws| - 1])[ws[|ws| - 1].addr := ws[|ws| - 1].val]
  }

  function Finish(s: State, tid: Tid): State
    requires tid in s.txs
  {
    s.(txs := s.txs[tid := s.txs[tid].(active := false, readSet := [], writeSet := [], locksHeld := [])],
       commits := s.commits + 1)
  }

  function Commit(s: State, tid: Tid): (State, Outcome)
    requires Quiet(s)
  {
    if tid !in s.txs || !s.txs[tid].active then (s, Fail(NoActiveTx))
    else
      var tx := s.txs[tid];
      if tx.readOnly then (Finish(s, tid), Done)
      else if !DistinctStripes(tx.writeSet) then
        (Abort(s, tid), Fail(if Validates(s, tid) then LockTimeout else LockAbort))
      else
        var s1 := s.(clock := s.clock + 1);
        if !Validates(s, tid) then (Abort(s1, tid), Fail(CommitValidate))
        else
          (Finish(s1.(committed := WriteBack(s.committed, tx.writeSet),
                      locks := Stamp(s.locks, tx.writeSet, s1.clock)), tid), Done)
  }

  function End(s: State, tid: Tid): (State, Outcome)
    requires Quiet(s)
  {
    if !Validates(s, tid) then (Abort(s, tid), Fail(Conflict))
    else Commit(s, tid)
  }

  // Reads, writes and commits leave the lock table free again and never turn the clock back, as long
  // as the clock fits the version field.
  lemma ReadKeepsQuiet(s: State, tid: Tid, addr: nat)
    requires Quiet(s)
    ensures Quiet(Read(s, tid, addr).0)
  {
  }

  lemma WriteKeepsQuiet(s: State, tid: Tid, addr: nat, val: nat)
    requires Quiet(s)
    ensures Quiet(Write(s, tid, addr, val).0)
  {
  }

  lemma CommitKeepsQuiet(s: State, tid: Tid)
    requires Quiet(s)
    ensures s.clock <= Commit(s, tid).0.clock
    ensures Commit(s, tid).0.clock < VERSIONS ==> Quiet(Commit(s, tid).0)
  {
  }

  // tm_end on an active transaction succeeds exactly when its read set validates and, if it
  // wrote, its write addresses lie in distinct stripes; a failure changes neither a lock word
  // nor a committed value.
  lemma EndSucceedsIff(s: State, tid: Tid)
    requires Quiet(s) && tid in s.txs && s.txs[tid].active
    ensures End(s, tid).1 == Done <==>
            Validates(s, tid) && (s.txs[tid].readOnly || DistinctStripes(s.txs[tid].writeSet))
    ensures End(s, tid).1 != Done ==>
              End(s, tid).0.locks == s.locks && End(s, tid).0.committed == s.committed
    ensures !End(s, tid).0.txs[tid].active
  {
  }
}
