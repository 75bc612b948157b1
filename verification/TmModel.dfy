/** The WBCTL model as the source runs it: one object, updated in place by the spin, lock,
    validation and write-back loops of each call, and proved to compute TmSpec's step.
 */
module TmModel {
  import opened LockWord
  import opened TmSpec

  const SPIN_ITERATIONS: nat := 5000

  /* ----- sort and dedup of the written addresses ----- */

  function InsertAddr(s: seq<nat>, a: nat): seq<nat> {
    if s == [] || a < s[0] then [a] + s
    else if a == s[0] then s
    else [s[0]] + InsertAddr(s[1..], a)
  }

  function SortDedup(ws: seq<WriteEntry>): seq<nat> {
    if ws == [] then [] else InsertAddr(SortDedup(ws[..|ws| - 1]), ws[|ws| - 1].addr)
  }

  predicate Increasing(s: seq<nat>) {
    forall i, j :: 0 <= i < j < |s| ==> s[i] < s[j]
  }

  lemma {:induction false} InsertAddrSorted(s: seq<nat>, a: nat)
    requires Increasing(s)
    ensures Increasing(InsertAddr(s, a))
    ensures forall x :: x in InsertAddr(s, a) <==> x in s || x == a
  {
    if s == [] || a <= s[0] {
    } else {
      var r := InsertAddr(s[1..], a);
      InsertAddrSorted(s[1..], a);
      assert s == [s[0]] + s[1..];
      forall j | 0 <= j < |r| ensures s[0] < r[j] {
        assert r[j] in r;
      }
    }
  }

  lemma {:induction false} SortDedupSorted(ws: seq<WriteEntry>)
    ensures Increasing(SortDedup(ws))
    ensures forall x :: x in SortDedup(ws) <==> exists i :: 0 <= i < |ws| && ws[i].addr == x
  {
    if ws == [] {
    } else {
      var n := |ws| - 1;
      SortDedupSorted(ws[..n]);
      InsertAddrSorted(SortDedup(ws[..n]), ws[n].addr);
      forall x ensures x in SortDedup(ws) <==> exists i :: 0 <= i < |ws| && ws[i].addr == x {
        if i :| 0 <= i < |ws| && ws[i].addr == x && i < n { assert ws[..n][i].addr == x; }
        if x in SortDedup(ws[..n]) { var i :| 0 <= i < n && ws[..n][i].addr == x; assert ws[i].addr == x; }
      }
    }
  }

  /* ----- the lock table while a commit holds stripes ----- */

  function Stripes(addrs: seq<nat>): (r: seq<nat>)
    ensures |r| == |addrs| && forall i :: 0 <= i < |r| ==> r[i] == Stripe(addrs[i])
  {
    seq(|addrs|, i requires 0 <= i < |addrs| => Stripe(addrs[i]))
  }

  predicate NoDup(s: seq<nat>) {
    forall i, j :: 0 <= i < j < |s| ==> s[i] != s[j]
  }

  // now is base with the stripes of held locked by tid.
  predicate HeldBy(base: seq<Word>, now: seq<Word>, held: seq<nat>, tid: nat) {
    |now| == |base| &&
    forall k :: 0 <= k < |base| ==> now[k] == if k in held then base[k].Lock(tid) else base[k]
  }

  lemma HeldKeepsValidation(s: State, now: seq<Word>, held: seq<nat>, tid: Tid)
    requires Quiet(s) && HeldBy(s.locks, now, held, tid)
    ensures Validates(s.(locks := now), tid) == Validates(s, tid)
  {
    if tid in s.txs {
      forall i | 0 <= i < |s.txs[tid].readSet|
        ensures EntryValid(now, tid, s.txs[tid].readSet[i]) == EntryValid(s.locks, tid, s.txs[tid].readSet[i])
      {
      }
    }
  }

  // Releasing what is held gives the free table back; releasing twice changes nothing.
  lemma {:induction false} ReleaseRestores(base: seq<Word>, now: seq<Word>, held: seq<nat>, tid: nat)
    requires HeldBy(base, now, held, tid) && NoDup(held)
    requires forall i :: 0 <= i < |held| ==> held[i] < |base|
    requires forall k :: 0 <= k < |base| ==> base[k].Free()
    ensures Release(now, held, tid) == base
    decreases |held|
  {
    if held == [] {
    } else {
      var k := held[0];
      var next := now[k := now[k].Unlock(tid)];
      assert k !in held[1..];
      assert HeldBy(base, next, held[1..], tid);
      ReleaseRestores(base, next, held[1..], tid);
    }
  }

  lemma {:induction false} ReleaseFree(base: seq<Word>, held: seq<nat>, tid: nat)
    requires forall i :: 0 <= i < |held| ==> held[i] < |base|
    requires forall k :: 0 <= k < |base| ==> base[k].Free()
    ensures Release(base, held, tid) == base
    decreases |held|
  {
    if held == [] {
    } else {
      assert base[held[0] := base[held[0]].Unlock(tid)] == base;
      ReleaseFree(base, held[1..], tid);
    }
  }

  // A write set without repeated addresses lies in distinct stripes exactly when the sorted
  // addresses do, and then exactly their stripes are the written ones.
  lemma DistinctStripesSorted(ws: seq<WriteEntry>, sorted: seq<nat>)
    requires Distinct(ws) && sorted == SortDedup(ws)
    ensures DistinctStripes(ws) <==> NoDup(Stripes(sorted))
    ensures forall k :: k in Stripes(sorted) <==> WritesStripe(ws, k)
  {
    SortDedupSorted(ws);
    forall k ensures k in Stripes(sorted) <==> WritesStripe(ws, k) {
      if k in Stripes(sorted) {
        var i :| 0 <= i < |sorted| && Stripes(sorted)[i] == k;
        assert sorted[i] in sorted;
      }
      if WritesStripe(ws, k) {
        var i :| 0 <= i < |ws| && Stripe(ws[i].addr) == k;
        assert ws[i].addr in sorted;
        var j :| 0 <= j < |sorted| && sorted[j] == ws[i].addr;
        assert Stripes(sorted)[j] == k;
      }
    }
    if DistinctStripes(ws) {
      forall i, j | 0 <= i < j < |sorted| ensures Stripe(sorted[i]) != Stripe(sorted[j]) {
        assert sorted[i] in sorted && sorted[j] in sorted;
        var x :| 0 <= x < |ws| && ws[x].addr == sorted[i];
        var y :| 0 <= y < |ws| && ws[y].addr == sorted[j];
        assert x != y;
      }
    } else {
      var x, y :| 0 <= x < y < |ws| && Stripe(ws[x].addr) == Stripe(ws[y].addr);
      assert ws[x].addr in sorted && ws[y].addr in sorted;
      var i :| 0 <= i < |sorted| && sorted[i] == ws[x].addr;
      var j :| 0 <= j < |sorted| && sorted[j] == ws[y].addr;
      assert i != j && Stripes(sorted)[i] == Stripes(sorted)[j];
    }
  }

  class Model {
    var clock: nat
    const locks: array<Word>
    var txs: map<Tid, Tx>
    var committed: map<nat, nat>
    var aborts: nat
    var commits: nat

    ghost function Abs(): State
      reads this, locks
    {
      State(clock, locks[..], txs, committed, aborts, commits)
    }

    ghost predicate Shape()
      reads this, locks
    {
      locks.Length == STRIPES && forall i :: 0 <= i < STRIPES ==> locks[i].version <= clock
    }

    // What holds between calls.
    ghost predicate Valid()
      reads this, locks
    {
      Quiet(Abs())
    }

    constructor ()
      ensures Valid() && fresh(locks) && Abs() == Initial()
    {
      clock := 1;
      locks := new Word[STRIPES](_ => Word(0, 0, 0, 0));
      txs, committed, aborts, commits := map[], map[], 0, 0;
      new;
      assert locks[..] == Initial().locks;
    }

    method ValidateReadSet(tid: Tid) returns (ok: bool)
      requires locks.Length == STRIPES
      ensures ok == Validates(Abs(), tid)
    {
      if tid !in txs { return true; }
      var tx := txs[tid];
      for i := 0 to |tx.readSet|
        invariant forall j :: 0 <= j < i ==> EntryValid(locks[..], tid, tx.readSet[j])
      {
        var r := tx.readSet[i];
        var l := locks[Stripe(r.addr)];
        if (l.WriteLocked() && l.owner != tid) || l.version > r.observed {
          assert !EntryValid(locks[..], tid, tx.readSet[i]);
          return false;
        }
      }
      return true;
    }

    method TmBegin(tid: Tid)
      modifies this`txs
      ensures Abs() == Begin(old(Abs()), tid)
      ensures old(Valid()) ==> Valid()
    {
      var tx := if tid in txs then txs[tid] else FRESH;
      txs := txs[tid := tx.(active := true, readOnly := true, start := clock, end := clock,
                            readSet := [], writeSet := [], locksHeld := [])];
    }

    method FindEntry(ws: seq<WriteEntry>, addr: nat) returns (i: nat)
      ensures i == Find(ws, addr)
    {
      i := 0;
      while i < |ws| && ws[i].addr != addr
        invariant i <= |ws|
        invariant forall j :: 0 <= j < i ==> ws[j].addr != addr
      {
        i := i + 1;
      }
    }

    method TmRead(tid: Tid, addr: nat) returns (out: Outcome)
      requires Shape()
      modifies this`txs
      ensures (Abs(), out) == Read(old(Abs()), tid, addr)
      ensures old(Valid()) ==> Valid()
    {
      var li := Stripe(addr);
      ghost var was := old(Abs());
      if Quiet(was) { ReadKeepsQuiet(was, tid, addr); }
      if tid !in txs { txs := txs[tid := FRESH]; }
      var tx := txs[tid];
      assert txs == old(txs)[tid := tx];
      if !tx.active { return Fail(OutsideTx); }
      var i := FindEntry(tx.writeSet, addr);
      if i < |tx.writeSet| { return Value(tx.writeSet[i].val); }

      for spin := 0 to SPIN_ITERATIONS
        invariant tid in txs && txs == was.txs[tid := txs[tid]]
        invariant spin == 0 || locks[li].WriteLocked() ==> txs[tid] == tx
        invariant spin > 1 ==> locks[li].WriteLocked()
        invariant spin == 1 && !locks[li].WriteLocked() ==>
                    locks[li].version > tx.end && Validates(was, tid) && txs[tid] == tx.(end := clock)
      {
        var l := locks[li];
        if l.WriteLocked() { continue; }
        var version := l.version;
        if l != locks[li] { continue; }
        if version > txs[tid].end {
          var ok := ValidateReadSet(tid);
          assert ok == Validates(was, tid);
          if !ok { return Fail(ReadValidate); }
          txs := txs[tid := txs[tid].(end := clock)];
          continue;
        }
        txs := txs[tid := txs[tid].(readSet := txs[tid].readSet + [ReadEntry(addr, version)])];
        assert txs == was.txs[tid := txs[tid]];
        return Value(version);
      }
      return Fail(SpinTimeout);
    }

    // The spin of a write to an address that is not in the write set yet.
    method SpinWrite(tid: Tid, addr: nat, val: nat, tx: Tx, ghost was: State) returns (out: Outcome)
      requires Shape() && Abs() == was.(txs := was.txs[tid := tx])
      requires tx == TxOf(was, tid).(readOnly := false) && tx.active && Find(tx.writeSet, addr) == |tx.writeSet|
      modifies this`txs
      ensures (Abs(), out) == Write(was, tid, addr, val)
    {
      var li := Stripe(addr);
      for spin := 0 to SPIN_ITERATIONS
        invariant tid in txs && txs == was.txs[tid := txs[tid]]
        invariant spin == 0 || ForeignLock(locks[li], tid) ==> txs[tid] == tx
        invariant spin > 0 && ForeignLock(locks[li], tid) ==> Validates(was, tid)
        invariant spin > 1 ==> ForeignLock(locks[li], tid)
        invariant spin == 1 && !ForeignLock(locks[li], tid) ==>
                    locks[li].version > tx.end && Validates(was, tid) && txs[tid] == tx.(end := clock)
      {
        var l := locks[li];
        if ForeignLock(l, tid) {
          var ok := ValidateReadSet(tid);
          assert ok == Validates(was, tid);
          if !ok { return Fail(WriteLockValidate); }
          continue;
        }
        if l != locks[li] { continue; }
        var version := l.version;
        if version > txs[tid].end {
          var ok := ValidateReadSet(tid);
          assert ok == Validates(was, tid);
          if !ok { return Fail(WriteExtension); }
          txs := txs[tid := txs[tid].(end := clock)];
          continue;
        }
        txs := txs[tid := txs[tid].(writeSet := txs[tid].writeSet + [WriteEntry(addr, val)],
                                    readSet := txs[tid].readSet + [ReadEntry(addr, version)])];
        assert txs == was.txs[tid := txs[tid]];
        return Done;
      }
      return Fail(SpinTimeout);
    }

    method TmWrite(tid: Tid, addr: nat, val: nat) returns (out: Outcome)
      requires Shape()
      modifies this`txs
      ensures (Abs(), out) == Write(old(Abs()), tid, addr, val)
      ensures old(Valid()) ==> Valid()
    {
      ghost var was := old(Abs());
      if Quiet(was) { WriteKeepsQuiet(was, tid, addr, val); }
      if tid !in txs { txs := txs[tid := FRESH]; }
      assert txs == was.txs[tid := txs[tid]];
      if !txs[tid].active { return Fail(OutsideTx); }
      txs := txs[tid := txs[tid].(readOnly := false)];
      var tx := txs[tid];
      assert txs == was.txs[tid := tx];
      var i := FindEntry(tx.writeSet, addr);
      if i < |tx.writeSet| {
        txs := txs[tid := tx.(writeSet := tx.writeSet[i := WriteEntry(addr, val)])];
        assert txs == was.txs[tid := txs[tid]];
        return Done;
      }
      out := SpinWrite(tid, addr, val, tx, was);
    }

    method UnlockAll(held: seq<nat>, tid: nat)
      requires forall i :: 0 <= i < |held| ==> held[i] < locks.Length
      modifies locks
      ensures locks[..] == Release(old(locks[..]), held, tid)
    {
      ghost var was := locks[..];
      for i := 0 to |held|
        invariant Release(locks[..], held[i..], tid) == Release(was, held, tid)
      {
        ghost var now := locks[..];
        locks[held[i]] := locks[held[i]].Unlock(tid);
        assert locks[..] == now[held[i] := now[held[i]].Unlock(tid)];
        assert held[i..][1..] == held[i + 1..];
      }
    }

    method TmAbort(tid: Tid)
      requires HeldInRange(Abs(), tid)
      modifies this, locks
      ensures Abs() == Abort(old(Abs()), tid)
      ensures old(Valid()) ==> Valid()
    {
      if tid in txs {
        var tx := txs[tid];
        UnlockAll(tx.locksHeld, tid);
        txs := txs[tid := tx.(readSet := [], writeSet := [], locksHeld := [], active := false,
                              retries := tx.retries + 1)];
      }
      aborts := aborts + 1;
    }

    // Phase 1: take the stripes in address order.  Within one call the only holder that can be
    // met is the transaction itself, and a stripe met twice is never acquired.
    method AcquireAll(tid: Tid, sorted: seq<nat>) returns (held: seq<nat>, out: Outcome)
      requires Valid()
      modifies locks
      ensures NoDup(Stripes(sorted)) ==>
                out == Done && held == Stripes(sorted) && HeldBy(old(locks[..]), locks[..], held, tid)
      ensures !NoDup(Stripes(sorted)) ==>
                out == Fail(if Validates(old(Abs()), tid) then LockTimeout else LockAbort)
                && locks[..] == old(locks[..])
    {
      ghost var s := Abs();
      held := [];
      for n := 0 to |sorted|
        invariant held == Stripes(sorted)[..n] && NoDup(held)
        invariant HeldBy(s.locks, locks[..], held, tid)
      {
        var li := Stripe(sorted[n]);
        assert li == Stripes(sorted)[n];
        HeldKeepsValidation(s, locks[..], held, tid);
        var acquired := false;
        for spin := 0 to SPIN_ITERATIONS
          invariant !acquired && HeldBy(s.locks, locks[..], held, tid)
          invariant spin > 0 ==> li in held && Validates(s, tid)
        {
          if !locks[li].Locked() {
            locks[li] := locks[li].Lock(tid);
            acquired := true;
            break;
          }
          HeldKeepsValidation(s, locks[..], held, tid);
          var ok := ValidateReadSet(tid);
          assert Abs() == s.(locks := locks[..]);
          if !ok {
            ReleaseRestores(s.locks, locks[..], held, tid);
            UnlockAll(held, tid);
            return held, Fail(LockAbort);
          }
        }
        if !acquired {
          ReleaseRestores(s.locks, locks[..], held, tid);
          UnlockAll(held, tid);
          return held, Fail(LockTimeout);
        }
        held := held + [li];
      }
      assert Stripes(sorted)[..|sorted|] == Stripes(sorted);
      out := Done;
    }

    // Phase 4: unlock every held stripe with the commit version.
    method PublishAll(ghost base: seq<Word>, held: seq<nat>, tid: Tid, version: nat)
      requires HeldBy(base, locks[..], held, tid) && NoDup(held)
      requires forall i :: 0 <= i < |held| ==> held[i] < locks.Length
      requires forall k :: 0 <= k < |base| ==> base[k].Free()
      modifies locks
      ensures forall k :: 0 <= k < |base| ==>
                locks[k] == if k in held then base[k].WithVersion(version) else base[k]
    {
      for i := 0 to |held|
        invariant forall k :: 0 <= k < |base| ==>
                    locks[k] == if k in held[..i] then base[k].WithVersion(version)
                                else if k in held then base[k].Lock(tid) else base[k]
      {
        assert held[i] !in held[..i];
        locks[held[i]] := locks[held[i]].WithVersion(version).Unlock(tid);
        assert held[..i + 1] == held[..i] + [held[i]];
      }
      assert held[..|held|] == held;
    }

    method WriteBackAll(ws: seq<WriteEntry>)
      modifies this`committed
      ensures committed == WriteBack(old(committed), ws)
    {
      for i := 0 to |ws|
        invariant committed == WriteBack(old(committed), ws[..i])
      {
        assert ws[..i + 1][..i] == ws[..i];
        committed := committed[ws[i].addr := ws[i].val];
      }
      assert ws[..|ws|] == ws;
    }

    // A commit that fails its final validation: every stripe is given back unchanged.
    method RollBack(ghost base: seq<Word>, tid: Tid, tx: Tx, held: seq<nat>)
      requires tid in txs && txs[tid] == tx.(locksHeld := held)
      requires HeldBy(base, locks[..], held, tid) && NoDup(held)
      requires forall i :: 0 <= i < |held| ==> held[i] < locks.Length
      requires forall k :: 0 <= k < |base| ==> base[k].Free()
      modifies this, locks
      ensures Abs() == old(Abs()).(
                locks := base,
                txs := old(txs)[tid := tx.(readSet := [], writeSet := [], locksHeld := [], active := false,
                                           retries := tx.retries + 1)],
                aborts := old(aborts) + 1)
    {
      ReleaseRestores(base, locks[..], held, tid);
      UnlockAll(held, tid);
      ReleaseFree(base, held, tid);
      TmAbort(tid);
    }

    // Phases 2 to 4, with every written stripe held: bump the clock, validate, write back.
    method FinishUpdate(ghost was: State, tid: Tid, tx: Tx, held: seq<nat>) returns (ok: bool)
      requires Quiet(was) && tid in txs && tx == txs[tid] && Abs() == was.(locks := locks[..])
      requires HeldBy(was.locks, locks[..], held, tid) && NoDup(held)
      requires forall i :: 0 <= i < |held| ==> held[i] < locks.Length
      requires forall k :: k in held <==> WritesStripe(tx.writeSet, k)
      modifies this, locks
      ensures ok == Validates(was, tid)
      ensures !ok ==> Abs() == Abort(was.(clock := was.clock + 1), tid)
      ensures ok ==> Abs() == was.(clock := was.clock + 1,
                                   txs := was.txs[tid := tx.(locksHeld := held)],
                                   committed := WriteBack(was.committed, tx.writeSet),
                                   locks := Stamp(was.locks, tx.writeSet, was.clock + 1))
    {
      txs := txs[tid := tx.(locksHeld := held)];
      clock := clock + 1;
      HeldKeepsValidation(was, locks[..], held, tid);
      ok := ValidateReadSet(tid);
      if ok {
        WriteBackAll(tx.writeSet);
        PublishStamps(was.locks, tx.writeSet, held, tid, clock);
      } else {
        RollBack(was.locks, tid, tx, held);
        assert txs == Abort(was, tid).txs;
      }
    }

    method PublishStamps(ghost base: seq<Word>, ghost ws: seq<WriteEntry>, held: seq<nat>, tid: Tid, version: nat)
      requires HeldBy(base, locks[..], held, tid) && NoDup(held) && |base| == locks.Length
      requires forall i :: 0 <= i < |held| ==> held[i] < locks.Length
      requires forall k :: 0 <= k < |base| ==> base[k].Free()
      requires forall k :: k in held <==> WritesStripe(ws, k)
      modifies locks
      ensures locks[..] == Stamp(base, ws, version)
    {
      PublishAll(base, held, tid, version);
    }

    method TmCommit(tid: Tid) returns (out: Outcome)
      requires Valid()
      modifies this, locks
      ensures (Abs(), out) == Commit(old(Abs()), tid)
      ensures clock < VERSIONS ==> Valid()
    {
      ghost var was := Abs();
      CommitKeepsQuiet(was, tid);
      if tid !in txs || !txs[tid].active { return Fail(NoActiveTx); }
      var tx := txs[tid];
      if !tx.readOnly {
        var sorted := SortDedup(tx.writeSet);
        DistinctStripesSorted(tx.writeSet, sorted);
        var held;
        held, out := AcquireAll(tid, sorted);
        if out != Done {
          assert Abs() == was;
          TmAbort(tid);
          return;
        }
        var ok := FinishUpdate(was, tid, tx, held);
        if !ok { return Fail(CommitValidate); }
      }
      txs := txs[tid := tx.(active := false, readSet := [], writeSet := [], locksHeld := [])];
      commits := commits + 1;
      assert txs == was.txs[tid := txs[tid]];
      out := Done;
    }

    method TmEnd(tid: Tid) returns (out: Outcome)
      requires Valid()
      modifies this, locks
      ensures (Abs(), out) == End(old(Abs()), tid)
      ensures clock < VERSIONS ==> Valid()
      ensures old(tid in txs && txs[tid].active) ==>
                (out == Done <==> Validates(old(Abs()), tid) &&
                                  (old(txs)[tid].readOnly || DistinctStripes(old(txs)[tid].writeSet)))
      ensures old(tid in txs && txs[tid].active) && out != Done ==>
                locks[..] == old(locks[..]) && committed == old(committed)
    {
      if tid in txs && txs[tid].active { EndSucceedsIff(Abs(), tid); }
      var ok := ValidateReadSet(tid);
      if !ok {
        TmAbort(tid);
        return Fail(Conflict);
      }
      out := TmCommit(tid);
    }
  }

  predicate ForeignLock(l: Word, tid: nat) {
    l.WriteLocked() && l.owner != tid
  }
}
