/** All replicas of the bank together, as threads that interleave at the finest grain: one
    commit, one delivered log record, one compensation at a time.
 */
module EcSystem {
  import opened EcBank

  // A commit sits in the log of the replica named by the low byte of its id.
  predicate CommitIn(reps: seq<Rep>, o: Op) {
    o.id < COMP && o.parent == 0 && o.id % 256 < |reps| && o in reps[o.id % 256].log
  }

  ghost predicate UndoesCommit(reps: seq<Rep>, o: Op) {
    exists c :: CommitIn(reps, c) && o == CompOf(c)
  }

  // Where operations come from: commits from their replica, compensations from commits.
  ghost predicate Genuine(book: Book, reps: seq<Rep>, o: Op) {
    WellFormed(book, o) && if o.id < COMP then CommitIn(reps, o) else UndoesCommit(reps, o)
  }

  predicate InSomeLog(reps: seq<Rep>, o: Op) {
    exists p :: 0 <= p < |reps| && o in reps[p].log
  }

  predicate Rising(log: seq<Op>) {
    forall j, k :: 0 <= j < k < |log| && log[j].id < COMP && log[k].id < COMP ==> log[j].id < log[k].id
  }

  ghost predicate LogOk(book: Book, reps: seq<Rep>, i: nat)
    requires i < |reps|
  {
    && (forall o :: o in reps[i].log ==> Genuine(book, reps, o))
    && (forall o :: o in reps[i].log && o.id < COMP ==> o.id % 256 == i && o.id <= CommitId(reps[i].seqno, i))
    && Rising(reps[i].log)
  }

  // Every record before the cursor has been applied.
  predicate CursorOk(r: Rep, p: nat, log: seq<Op>) {
    && p < |r.cursor| && r.cursor[p] <= |log|
    && forall k :: 0 <= k < r.cursor[p] ==> log[k].id in r.ids
  }

  ghost predicate AppliedOk(book: Book, reps: seq<Rep>, r: Rep) {
    forall o :: o in r.applied ==> Genuine(book, reps, o) && InSomeLog(reps, o)
  }

  predicate CursorsOk(reps: seq<Rep>, r: Rep) {
    forall p :: 0 <= p < |reps| ==> CursorOk(r, p, reps[p].log)
  }

  ghost predicate RepOk(book: Book, reps: seq<Rep>, i: nat)
    requires i < |reps|
  {
    && ViewOk(book, reps[i]) && Conserved(book, reps[i])
    && LogOk(book, reps, i)
    && AppliedOk(book, reps, reps[i])
    && CursorsOk(reps, reps[i])
  }

  ghost predicate SysOk(book: Book, reps: seq<Rep>) {
    |reps| <= MAX_REPLICAS && forall i :: 0 <= i < |reps| ==> RepOk(book, reps, i)
  }

  /* ----- equal ids mean equal operations, system-wide ----- */

  lemma {:induction false} SameCommit(book: Book, reps: seq<Rep>, x: Op, y: Op)
    requires SysOk(book, reps) && CommitIn(reps, x) && CommitIn(reps, y) && x.id == y.id
    ensures x == y
  {
    var log := reps[x.id % 256].log;
    assert RepOk(book, reps, x.id % 256);
    var j :| 0 <= j < |log| && log[j] == x;
    var k :| 0 <= k < |log| && log[k] == y;
    assert Rising(log);
  }

  lemma {:induction false} EqualIdsEqualOps(book: Book, reps: seq<Rep>, x: Op, y: Op)
    requires SysOk(book, reps) && Genuine(book, reps, x) && Genuine(book, reps, y) && x.id == y.id
    ensures x == y
  {
    if x.id < COMP {
      SameCommit(book, reps, x, y);
    } else {
      var c :| CommitIn(reps, c) && x == CompOf(c);
      var d :| CommitIn(reps, d) && y == CompOf(d);
      SameCommit(book, reps, c, d);
    }
  }

  // Two replicas that have applied the same ids have applied the same operations and hold the
  // same balances, whatever the order of arrival.
  lemma {:induction false} EqualIdsEqualViews(book: Book, reps: seq<Rep>, i: nat, j: nat)
    requires SysOk(book, reps) && i < |reps| && j < |reps| && reps[i].ids == reps[j].ids
    ensures Ops(reps[i]) == Ops(reps[j])
    ensures reps[i].balance == reps[j].balance && reps[i].parents == reps[j].parents
    ensures reps[i].debits == reps[j].debits
  {
    assert Ops(reps[i]) == Ops(reps[j]) by {
      RepFacts(book, reps, i);
      RepFacts(book, reps, j);
      OpsWithin(book, reps, reps[i], reps[j]);
      OpsWithin(book, reps, reps[j], reps[i]);
    }
    assert RepOk(book, reps, i) && RepOk(book, reps, j);
    SameBalance(book, reps[i], reps[j]);
    SameParents(book, reps[i], reps[j]);
    SameDebits(book, reps[i], reps[j]);
  }

  lemma {:induction false} RepFacts(book: Book, reps: seq<Rep>, i: nat)
    requires SysOk(book, reps) && i < |reps|
    ensures AppliedOk(book, reps, reps[i]) && IdsOk(reps[i])
  {
    assert RepOk(book, reps, i);
  }

  lemma {:induction false} SameBalance(book: Book, r: Rep, t: Rep)
    requires ViewOk(book, r) && ViewOk(book, t) && Ops(r) == Ops(t)
    ensures r.balance == t.balance
  {
  }

  lemma {:induction false} SameDebits(book: Book, r: Rep, t: Rep)
    requires ViewOk(book, r) && ViewOk(book, t) && Ops(r) == Ops(t)
    ensures r.debits == t.debits
  {
    forall x ensures x in r.applied <==> x in t.applied { assert x in Ops(r) <==> x in Ops(t); }
    forall a | 0 <= a < |r.debits| ensures r.debits[a] == t.debits[a] {
      forall id ensures id in r.debits[a] <==> id in t.debits[a] {
        if id in r.debits[a] { assert r.byId[id] in t.applied; }
        if id in t.debits[a] { assert t.byId[id] in r.applied; }
      }
    }
  }

  lemma {:induction false} SameParents(book: Book, r: Rep, t: Rep)
    requires ViewOk(book, r) && ViewOk(book, t) && r.ids == t.ids
    ensures r.parents == t.parents
  {
    forall q: nat ensures q in r.parents <==> q in t.parents {
      CompAppliedIffRepaired(book, r, q);
      CompAppliedIffRepaired(book, t, q);
    }
  }

  lemma {:induction false} OpsWithin(book: Book, reps: seq<Rep>, r: Rep, t: Rep)
    requires SysOk(book, reps) && r.ids <= t.ids && IdsOk(r) && IdsOk(t)
    requires AppliedOk(book, reps, r) && AppliedOk(book, reps, t)
    ensures Ops(r) <= Ops(t)
  {
    forall o | o in r.applied ensures o in t.applied {
      assert Holds(t, o.id);
      var x :| x in t.applied && x.id == o.id;
      EqualIdsEqualOps(book, reps, o, x);
    }
  }

  /* ----- logs only grow: what is genuine stays genuine ----- */

  predicate Extends(reps: seq<Rep>, reps': seq<Rep>) {
    |reps'| == |reps| && forall i :: 0 <= i < |reps| ==> reps[i].log <= reps'[i].log
  }

  lemma {:induction false} GenuineStays(book: Book, reps: seq<Rep>, reps': seq<Rep>, o: Op)
    requires Extends(reps, reps')
    ensures Genuine(book, reps, o) ==> Genuine(book, reps', o)
    ensures InSomeLog(reps, o) ==> InSomeLog(reps', o)
  {
    if InSomeLog(reps, o) {
      var p :| 0 <= p < |reps| && o in reps[p].log;
      assert reps[p].log <= reps'[p].log;
      assert o in reps'[p].log;
    }
    if Genuine(book, reps, o) && o.id >= COMP {
      var c :| CommitIn(reps, c) && o == CompOf(c);
      assert reps[c.id % 256].log <= reps'[c.id % 256].log;
      assert CommitIn(reps', c);
    } else if Genuine(book, reps, o) {
      assert reps[o.id % 256].log <= reps'[o.id % 256].log;
    }
  }

  lemma {:induction false} GenuineKept(book: Book, reps: seq<Rep>, reps': seq<Rep>)
    requires Extends(reps, reps')
    ensures forall o :: Genuine(book, reps, o) ==> Genuine(book, reps', o)
    ensures forall o :: InSomeLog(reps, o) ==> InSomeLog(reps', o)
  {
    forall o ensures Genuine(book, reps, o) ==> Genuine(book, reps', o) { GenuineStays(book, reps, reps', o); }
    forall o ensures InSomeLog(reps, o) ==> InSomeLog(reps', o) { GenuineStays(book, reps, reps', o); }
  }

  lemma {:induction false} CursorsKept(reps: seq<Rep>, reps': seq<Rep>, r: Rep)
    requires Extends(reps, reps') && CursorsOk(reps, r)
    ensures CursorsOk(reps', r)
  {
    forall p | 0 <= p < |reps'| ensures CursorOk(r, p, reps'[p].log) {
      assert CursorOk(r, p, reps[p].log) && reps[p].log <= reps'[p].log;
    }
  }

  lemma {:induction false} AppliedKept(book: Book, reps: seq<Rep>, reps': seq<Rep>, r: Rep, r': Rep, o: Op)
    requires Extends(reps, reps') && AppliedOk(book, reps, r)
    requires Genuine(book, reps', o) && InSomeLog(reps', o)
    requires forall x :: x in r'.applied ==> x in r.applied || x == o
    ensures AppliedOk(book, reps', r')
  {
    GenuineKept(book, reps, reps');
  }

  // The log of replica i, extended by at most one operation.
  lemma {:induction false} LogKept(book: Book, reps: seq<Rep>, reps': seq<Rep>, i: nat, o: Op)
    requires Extends(reps, reps') && i < |reps| && LogOk(book, reps, i)
    requires reps'[i].log == reps[i].log || reps'[i].log == reps[i].log + [o]
    requires reps[i].seqno <= reps'[i].seqno
    requires reps'[i].log != reps[i].log ==> Genuine(book, reps', o)
    requires reps'[i].log != reps[i].log && o.id < COMP ==>
               o.id % 256 == i && CommitId(reps[i].seqno, i) < o.id <= CommitId(reps'[i].seqno, i)
    ensures LogOk(book, reps', i)
  {
    GenuineKept(book, reps, reps');
    forall k | 0 <= k < |reps[i].log| && reps[i].log[k].id < COMP
      ensures reps[i].log[k].id <= CommitId(reps[i].seqno, i)
    {
      assert reps[i].log[k] in reps[i].log;
    }
  }

  // A replica that a step leaves alone stays in order.
  lemma {:induction false} OtherKept(book: Book, reps: seq<Rep>, reps': seq<Rep>, j: nat)
    requires Extends(reps, reps') && j < |reps| && RepOk(book, reps, j)
    requires reps'[j] == reps[j]
    ensures RepOk(book, reps', j)
  {
    assert CursorsOk(reps', reps[j]) by { CursorsKept(reps, reps', reps[j]); }
    assert LogOk(book, reps', j) by { GenuineKept(book, reps, reps'); }
    assert AppliedOk(book, reps', reps[j]) by { GenuineKept(book, reps, reps'); }
  }

  lemma {:induction false} OneChanged(book: Book, reps: seq<Rep>, reps': seq<Rep>, i: nat)
    requires SysOk(book, reps) && i < |reps| && |reps'| == |reps| && reps' == reps[i := reps'[i]]
    requires reps[i].log <= reps'[i].log && RepOk(book, reps', i)
    ensures SysOk(book, reps')
  {
    assert Extends(reps, reps');
    forall j | 0 <= j < |reps'| ensures RepOk(book, reps', j) {
      if j != i {
        assert RepOk(book, reps, j);
        OtherKept(book, reps, reps', j);
      }
    }
  }

  /* ----- the three steps ----- */

  function Appended(r: Rep, rid: nat, src: nat, dst: nat): Rep {
    var o := Op(CommitId(r.seqno + 1, rid), 0, src, dst, 1);
    r.(log := r.log + [o], published := |r.log| + 1, seqno := r.seqno + 1)
  }

  function CommitStep(reps: seq<Rep>, i: nat, src: nat, dst: nat): seq<Rep>
    requires i < |reps|
  {
    reps[i := Appended(reps[i], i, src, dst)]
  }

  lemma {:induction false} CommitKeeps(book: Book, reps: seq<Rep>, i: nat, src: nat, dst: nat)
    requires SysOk(book, reps) && i < |reps| && src < book.accounts && dst < book.accounts
    requires CommitId(reps[i].seqno + 1, i) < COMP
    ensures SysOk(book, CommitStep(reps, i, src, dst))
  {
    var reps' := CommitStep(reps, i, src, dst);
    CommittedRepOk(book, reps, reps', i, Op(CommitId(reps[i].seqno + 1, i), 0, src, dst, 1));
    OneChanged(book, reps, reps', i);
  }

  lemma {:induction false} CommittedRepOk(book: Book, reps: seq<Rep>, reps': seq<Rep>, i: nat, o: Op)
    requires SysOk(book, reps) && i < |reps|
    requires |reps'| == |reps| && reps' == reps[i := reps'[i]]
    requires reps'[i] == reps[i].(log := reps[i].log + [o], published := |reps[i].log| + 1, seqno := reps[i].seqno + 1)
    requires o.id == CommitId(reps[i].seqno + 1, i) < COMP && o.parent == 0 && WellFormed(book, o)
    ensures RepOk(book, reps', i)
  {
    var r, r' := reps[i], reps'[i];
    assert Extends(reps, reps');
    assert o in r'.log && CommitIn(reps', o);
    CommittedParts(book, reps, reps', i, o);
    assert CursorsOk(reps', r') by {
      OwnCursors(book, reps, i);
      CursorsKept(reps, reps', r);
    }
    assert ViewOk(book, r') && Conserved(book, r') by {
      assert RepOk(book, reps, i);
      ViewIgnoresLog(book, r, r');
    }
  }

  lemma {:induction false} CommittedParts(book: Book, reps: seq<Rep>, reps': seq<Rep>, i: nat, o: Op)
    requires SysOk(book, reps) && i < |reps| && Extends(reps, reps')
    requires reps'[i].log == reps[i].log + [o] && reps'[i].seqno == reps[i].seqno + 1
    requires reps'[i].applied == reps[i].applied
    requires o.id == CommitId(reps[i].seqno + 1, i) < COMP && WellFormed(book, o) && CommitIn(reps', o)
    ensures LogOk(book, reps', i) && AppliedOk(book, reps', reps'[i])
  {
    assert RepOk(book, reps, i);
    assert LogOk(book, reps', i) by { LogKept(book, reps, reps', i, o); }
    assert o in reps'[i].log;
    AppliedKept(book, reps, reps', reps[i], reps'[i], o);
  }

  // The view of a replica does not look at its log.
  lemma {:induction false} ViewIgnoresLog(book: Book, r: Rep, r': Rep)
    requires ViewOk(book, r) && r'.published == |r'.log| && |r'.cursor| == MAX_REPLICAS
    requires r' == r.(log := r'.log, published := r'.published, seqno := r'.seqno, cursor := r'.cursor)
    ensures ViewOk(book, r')
  {
    assert Ops(r') == Ops(r);
    assert IdsOk(r') by { SameIds(r, r'); }
  }

  lemma {:induction false} SameIds(r: Rep, r': Rep)
    requires IdsOk(r) && r'.applied == r.applied && r'.ids == r.ids
    ensures IdsOk(r')
  {
    forall id | id in r'.ids ensures Holds(r', id) {
      assert Holds(r, id);
    }
  }

  function MergeStep(reps: seq<Rep>, i: nat, p: nat): seq<Rep>
    requires i < |reps| && p < |reps| && p < |reps[i].cursor| && reps[i].cursor[p] < |reps[p].log|
    requires InBook(reps[i], reps[p].log[reps[i].cursor[p]])
  {
    reps[i := MergeOne(reps[i], p, reps[p].log)]
  }

  predicate CanMerge(reps: seq<Rep>, i: nat, p: nat) {
    && i < |reps| && p < |reps| && p < |reps[i].cursor| && reps[i].cursor[p] < |reps[p].log|
  }

  lemma {:induction false} NextRecord(book: Book, reps: seq<Rep>, i: nat, p: nat)
    requires SysOk(book, reps) && CanMerge(reps, i, p)
    ensures var o := reps[p].log[reps[i].cursor[p]];
            Genuine(book, reps, o) && InSomeLog(reps, o) && InBook(reps[i], o)
  {
    assert RepOk(book, reps, i) && RepOk(book, reps, p);
    assert reps[p].log[reps[i].cursor[p]] in reps[p].log;
  }

  // What delivery of o does to a view, without saying how.
  ghost predicate Delivered(book: Book, r: Rep, d: Rep, o: Op) {
    && ViewOk(book, d) && Conserved(book, d)
    && d.ids == r.ids + {o.id} && d.log == r.log && d.seqno == r.seqno && d.cursor == r.cursor
    && d.published == r.published
    && forall x :: x in d.applied ==> x in r.applied || x == o
  }

  lemma {:induction false} DeliverDelivers(book: Book, r: Rep, o: Op)
    requires ViewOk(book, r) && Conserved(book, r) && WellFormed(book, o)
    ensures Delivered(book, r, Deliver(r, o), o)
  {
    DeliverKeepsView(book, r, o);
    DeliverConserves(book, r, o);
  }

  // reps' is reps with replica i changed to r', which holds o on top of what it held.
  ghost predicate Took(book: Book, reps: seq<Rep>, reps': seq<Rep>, i: nat, o: Op) {
    && i < |reps| && |reps'| == |reps| && reps' == reps[i := reps'[i]]
    && reps[i].log <= reps'[i].log && reps'[i].seqno == reps[i].seqno
    && (reps'[i].log == reps[i].log || reps'[i].log == reps[i].log + [o])
    && reps'[i].ids == reps[i].ids + {o.id}
    && (forall x :: x in reps'[i].applied ==> x in reps[i].applied || x == o)
    && Genuine(book, reps', o) && InSomeLog(reps', o)
    && (reps'[i].log != reps[i].log ==> o.id >= COMP)
  }

  lemma {:induction false} TookLog(book: Book, reps: seq<Rep>, reps': seq<Rep>, i: nat, o: Op)
    requires Took(book, reps, reps', i, o) && LogOk(book, reps, i)
    ensures LogOk(book, reps', i)
  {
    assert Extends(reps, reps');
    LogKept(book, reps, reps', i, o);
  }

  lemma {:induction false} TookApplied(book: Book, reps: seq<Rep>, reps': seq<Rep>, i: nat, o: Op)
    requires Took(book, reps, reps', i, o) && AppliedOk(book, reps, reps[i])
    ensures AppliedOk(book, reps', reps'[i])
  {
    assert Extends(reps, reps');
    AppliedKept(book, reps, reps', reps[i], reps'[i], o);
  }

  lemma {:induction false} TookKeeps(book: Book, reps: seq<Rep>, reps': seq<Rep>, i: nat, o: Op)
    requires SysOk(book, reps) && Took(book, reps, reps', i, o)
    requires ViewOk(book, reps'[i]) && Conserved(book, reps'[i]) && CursorsOk(reps', reps'[i])
    ensures SysOk(book, reps')
  {
    assert LogOk(book, reps', i) by {
      assert RepOk(book, reps, i);
      TookLog(book, reps, reps', i, o);
    }
    assert AppliedOk(book, reps', reps'[i]) by {
      assert RepOk(book, reps, i);
      TookApplied(book, reps, reps', i, o);
    }
    OneChanged(book, reps, reps', i);
  }

  lemma {:induction false} MergeKeeps(book: Book, reps: seq<Rep>, i: nat, p: nat)
    requires SysOk(book, reps) && CanMerge(reps, i, p) && InBook(reps[i], reps[p].log[reps[i].cursor[p]])
    ensures SysOk(book, MergeStep(reps, i, p))
    ensures MergeStep(reps, i, p)[i].ids == reps[i].ids + {reps[p].log[reps[i].cursor[p]].id}
  {
    MergeView(book, reps, i, p);
    MergeFields(reps, i, p);
    MergedKeeps(book, reps, MergeStep(reps, i, p), i, p, reps[p].log[reps[i].cursor[p]]);
  }

  lemma {:induction false} MergeFields(reps: seq<Rep>, i: nat, p: nat)
    requires CanMerge(reps, i, p) && InBook(reps[i], reps[p].log[reps[i].cursor[p]])
    ensures var r' := MergeStep(reps, i, p)[i];
            && r'.log == reps[i].log && r'.seqno == reps[i].seqno
            && r'.cursor == reps[i].cursor[p := reps[i].cursor[p] + 1]
  {
  }

  lemma {:induction false} MergedKeeps(book: Book, reps: seq<Rep>, reps': seq<Rep>, i: nat, p: nat, o: Op)
    requires SysOk(book, reps) && CanMerge(reps, i, p) && o == reps[p].log[reps[i].cursor[p]]
    requires |reps'| == |reps| && reps' == reps[i := reps'[i]]
    requires ViewOk(book, reps'[i]) && Conserved(book, reps'[i])
    requires reps'[i].log == reps[i].log && reps'[i].seqno == reps[i].seqno
    requires reps'[i].ids == reps[i].ids + {o.id}
    requires forall x :: x in reps'[i].applied ==> x in reps[i].applied || x == o
    requires reps'[i].cursor == reps[i].cursor[p := reps[i].cursor[p] + 1]
    ensures SysOk(book, reps')
  {
    MergeTook(book, reps, reps', i, p, o);
    MergedCursors(book, reps, reps', i, p, o);
    TookKeeps(book, reps, reps', i, o);
  }

  lemma {:induction false} MergedCursors(book: Book, reps: seq<Rep>, reps': seq<Rep>, i: nat, p: nat, o: Op)
    requires SysOk(book, reps) && CanMerge(reps, i, p) && o == reps[p].log[reps[i].cursor[p]]
    requires Extends(reps, reps') && reps'[i].ids == reps[i].ids + {o.id}
    requires reps'[i].cursor == reps[i].cursor[p := reps[i].cursor[p] + 1]
    ensures CursorsOk(reps', reps'[i])
  {
    OwnCursors(book, reps, i);
    CursorsAdvance(reps, reps', reps[i], reps'[i], p, o);
  }

  lemma {:induction false} OwnCursors(book: Book, reps: seq<Rep>, i: nat)
    requires SysOk(book, reps) && i < |reps|
    ensures CursorsOk(reps, reps[i])
  {
    assert RepOk(book, reps, i);
  }

  lemma {:induction false} MergeView(book: Book, reps: seq<Rep>, i: nat, p: nat)
    requires SysOk(book, reps) && CanMerge(reps, i, p) && InBook(reps[i], reps[p].log[reps[i].cursor[p]])
    ensures var r' := MergeStep(reps, i, p)[i];
            && ViewOk(book, r') && Conserved(book, r')
            && r'.ids == reps[i].ids + {reps[p].log[reps[i].cursor[p]].id}
            && forall x :: x in r'.applied ==> x in reps[i].applied || x == reps[p].log[reps[i].cursor[p]]
  {
    var o := reps[p].log[reps[i].cursor[p]];
    NextRecord(book, reps, i, p);
    assert RepOk(book, reps, i);
    var d := Deliver(reps[i], o);
    DeliverDelivers(book, reps[i], o);
    ViewIgnoresLog(book, d, MergeOne(reps[i], p, reps[p].log));
  }

  lemma {:induction false} MergeTook(book: Book, reps: seq<Rep>, reps': seq<Rep>, i: nat, p: nat, o: Op)
    requires SysOk(book, reps) && CanMerge(reps, i, p) && o == reps[p].log[reps[i].cursor[p]]
    requires |reps'| == |reps| && reps' == reps[i := reps'[i]]
    requires reps'[i].log == reps[i].log && reps'[i].seqno == reps[i].seqno
    requires reps'[i].ids == reps[i].ids + {o.id}
    requires forall x :: x in reps'[i].applied ==> x in reps[i].applied || x == o
    ensures Took(book, reps, reps', i, o) && Extends(reps, reps')
  {
    NextRecord(book, reps, i, p);
    GenuineStays(book, reps, reps', o);
  }

  lemma {:induction false} CursorsAdvance(reps: seq<Rep>, reps': seq<Rep>, r: Rep, r': Rep, p: nat, o: Op)
    requires Extends(reps, reps') && CursorsOk(reps, r) && p < |reps| && p < |r.cursor| && r.cursor[p] < |reps[p].log|
    requires o == reps[p].log[r.cursor[p]] && r'.ids == r.ids + {o.id}
    requires r'.cursor == r.cursor[p := r.cursor[p] + 1]
    ensures CursorsOk(reps', r')
  {
    forall q | 0 <= q < |reps'| ensures CursorOk(r', q, reps'[q].log) {
      assert CursorOk(r, q, reps[q].log) && reps[q].log <= reps'[q].log;
    }
  }

  function RepairStep(reps: seq<Rep>, i: nat, culprit: nat): seq<Rep>
    requires i < |reps| && culprit in reps[i].byId && InBook(reps[i], reps[i].byId[culprit]) && i < |reps[i].cursor|
  {
    reps[i := Compensate(reps[i], i, culprit)]
  }

  // Repair picks an open debit of an account, with the own log fully applied.
  predicate CanRepair(reps: seq<Rep>, i: nat, a: nat, culprit: nat) {
    && i < |reps| && a < |reps[i].debits| && culprit in Open(reps[i], a)
    && i < |reps[i].cursor| && reps[i].cursor[i] == |reps[i].log|
  }

  lemma {:induction false} CulpritKnown(book: Book, reps: seq<Rep>, i: nat, a: nat, culprit: nat)
    requires SysOk(book, reps) && CanRepair(reps, i, a, culprit)
    ensures culprit in reps[i].byId && InBook(reps[i], reps[i].byId[culprit])
    ensures reps[i].byId[culprit].id == culprit < COMP && CommitIn(reps, reps[i].byId[culprit])
    ensures reps[i].byId[culprit].amt > 0
    ensures culprit + COMP !in reps[i].ids
  {
    var r := reps[i];
    assert culprit in r.debits[a] && DebitsOk(r) && AppliedOk(book, reps, r) && ViewOk(book, r) by {
      assert RepOk(book, reps, i);
    }
    assert r.byId[culprit] in r.applied;
    CompAppliedIffRepaired(book, r, culprit);
  }

  // A compensation is appended to the own log, applied there and then, and closes one debit.
  lemma {:induction false} RepairKeeps(book: Book, reps: seq<Rep>, i: nat, a: nat, culprit: nat)
    requires SysOk(book, reps) && CanRepair(reps, i, a, culprit)
    requires culprit in reps[i].byId && InBook(reps[i], reps[i].byId[culprit])
    ensures SysOk(book, RepairStep(reps, i, culprit))
  {
    CulpritKnown(book, reps, i, a, culprit);
    RepairEffect(reps, i, culprit);
    RepairView(book, reps, i, culprit);
    RepairedKeeps(book, reps, RepairStep(reps, i, culprit), i, reps[i].byId[culprit]);
  }

  lemma {:induction false} RepairedKeeps(book: Book, reps: seq<Rep>, reps': seq<Rep>, i: nat, d: Op)
    requires SysOk(book, reps) && i < |reps| && i < |reps[i].cursor| && reps[i].cursor[i] == |reps[i].log|
    requires |reps'| == |reps| && reps' == reps[i := reps'[i]]
    requires CommitIn(reps, d) && WellFormed(book, CompOf(d))
    requires ViewOk(book, reps'[i]) && Conserved(book, reps'[i])
    requires reps'[i].log == reps[i].log + [CompOf(d)] && reps'[i].seqno == reps[i].seqno
    requires reps'[i].ids == reps[i].ids + {CompOf(d).id}
    requires reps'[i].applied == reps[i].applied + [CompOf(d)]
    requires reps'[i].cursor == reps[i].cursor[i := |reps'[i].log|]
    ensures SysOk(book, reps')
  {
    RepairTook(book, reps, reps', i, d);
    OwnCursors(book, reps, i);
    CursorJump(reps, reps', reps[i], reps'[i], i, CompOf(d));
    TookKeeps(book, reps, reps', i, CompOf(d));
  }

  lemma {:induction false} RepairEffect(reps: seq<Rep>, i: nat, culprit: nat)
    requires i < |reps| && culprit in reps[i].byId && InBook(reps[i], reps[i].byId[culprit]) && i < |reps[i].cursor|
    requires reps[i].byId[culprit].id == culprit < COMP && reps[i].byId[culprit].amt > 0
    requires culprit + COMP !in reps[i].ids
    ensures var c, r' := CompOf(reps[i].byId[culprit]), RepairStep(reps, i, culprit)[i];
            && r'.ids == reps[i].ids + {culprit + COMP}
            && r'.debits == reps[i].debits && r'.parents == reps[i].parents + {culprit}
            && r'.log == reps[i].log + [c] && r'.seqno == reps[i].seqno
            && r'.applied == reps[i].applied + [c]
            && r'.cursor == reps[i].cursor[i := |r'.log|]
  {
  }

  lemma {:induction false} RepairView(book: Book, reps: seq<Rep>, i: nat, culprit: nat)
    requires SysOk(book, reps) && i < |reps| && culprit in reps[i].byId && InBook(reps[i], reps[i].byId[culprit])
    requires i < |reps[i].cursor| && reps[i].byId[culprit].id == culprit < COMP && reps[i].byId[culprit].amt > 0
    ensures ViewOk(book, RepairStep(reps, i, culprit)[i]) && Conserved(book, RepairStep(reps, i, culprit)[i])
  {
    var r, c := reps[i], CompOf(reps[i].byId[culprit]);
    var r1 := r.(log := r.log + [c], published := |r.log| + 1);
    assert ViewOk(book, r1) && Conserved(book, r1) && WellFormed(book, c) by {
      assert RepOk(book, reps, i);
      ViewIgnoresLog(book, r, r1);
    }
    DeliverDelivers(book, r1, c);
    ViewIgnoresLog(book, Deliver(r1, c), Compensate(r, i, culprit));
  }

  lemma {:induction false} RepairTook(book: Book, reps: seq<Rep>, reps': seq<Rep>, i: nat, d: Op)
    requires i < |reps| && |reps'| == |reps| && reps' == reps[i := reps'[i]]
    requires CommitIn(reps, d) && WellFormed(book, CompOf(d))
    requires reps'[i].log == reps[i].log + [CompOf(d)] && reps'[i].seqno == reps[i].seqno
    requires reps'[i].ids == reps[i].ids + {CompOf(d).id}
    requires reps'[i].applied == reps[i].applied + [CompOf(d)]
    ensures Took(book, reps, reps', i, CompOf(d)) && Extends(reps, reps')
  {
    assert Extends(reps, reps');
    assert reps[d.id % 256].log <= reps'[d.id % 256].log;
    assert CommitIn(reps', d);
    assert CompOf(d) in reps'[i].log;
  }

  // The jump to the end of the own log skips nothing: what was there is applied, and so is c.
  lemma {:induction false} CursorJump(reps: seq<Rep>, reps': seq<Rep>, r: Rep, r': Rep, i: nat, c: Op)
    requires Extends(reps, reps') && CursorsOk(reps, r) && i < |reps| && reps[i] == r && reps'[i] == r'
    requires i < |r.cursor| && r.cursor[i] == |r.log| && r'.log == r.log + [c]
    requires r'.ids == r.ids + {c.id} && r'.cursor == r.cursor[i := |r'.log|]
    ensures CursorsOk(reps', r')
  {
    forall q | 0 <= q < |reps'| ensures CursorOk(r', q, reps'[q].log) {
      assert CursorOk(r, q, reps[q].log) && reps[q].log <= reps'[q].log;
    }
  }
}
