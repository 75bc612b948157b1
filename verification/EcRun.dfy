/** Every interleaving of the worker threads, and what holds once gossip has settled. */
module EcRun {
  import opened EcBank
  import opened EcSystem

  // Where a worker is: between operations, reading producer p's log up to the length n it
  // loaded, or checking account a.
  datatype Pc = Idle | Merging(p: nat, n: nat) | Repairing(a: nat)

  datatype World = World(reps: seq<Rep>, pcs: seq<Pc>)

  datatype Action =
    | Commit(i: nat, src: nat, dst: nat)
    | StartMerge(i: nat)
    | Take(i: nat)
    | NextLog(i: nat)
    | Repair(i: nat, culprit: nat)
    | NextAccount(i: nat)
    | Finish(i: nat)

  function At(w: World, i: nat, pc: Pc): World
    requires i < |w.pcs|
  {
    w.(pcs := w.pcs[i := pc])
  }

  predicate Next(book: Book, w: World, a: Action, w': World) {
    && a.i < |w.reps| == |w.pcs|
    && var r, pc := w.reps[a.i], w.pcs[a.i];
       match a
       case Commit(i, src, dst) =>
         && pc == Idle && src < book.accounts && dst < book.accounts && CommitId(r.seqno + 1, i) < COMP
         && w' == w.(reps := CommitStep(w.reps, i, src, dst))
       case StartMerge(i) =>
         pc == Idle && w' == At(w, i, Merging(0, w.reps[0].published))
       case Take(i) =>
         && pc.Merging? && CanMerge(w.reps, i, pc.p) && r.cursor[pc.p] < pc.n
         && InBook(r, w.reps[pc.p].log[r.cursor[pc.p]])
         && w' == w.(reps := MergeStep(w.reps, i, pc.p))
       case NextLog(i) =>
         && pc.Merging? && pc.p < |r.cursor| && r.cursor[pc.p] >= pc.n
         && w' == At(w, i, if pc.p + 1 < |w.reps| then Merging(pc.p + 1, w.reps[pc.p + 1].published) else Repairing(0))
       case Repair(i, culprit) =>
         && pc.Repairing? && pc.a < |r.balance| == |r.debits| && r.balance[pc.a] < 0
         && IsMax(Open(r, pc.a), culprit)
         && culprit in r.byId && InBook(r, r.byId[culprit]) && i < |r.cursor|
         && w' == w.(reps := RepairStep(w.reps, i, culprit))
       case NextAccount(i) =>
         && pc.Repairing? && pc.a < |r.balance| == |r.debits| && (r.balance[pc.a] >= 0 || Open(r, pc.a) == {})
         && w' == At(w, i, Repairing(pc.a + 1))
       case Finish(i) =>
         pc.Repairing? && pc.a == |r.balance| && w' == At(w, i, Idle)
  }

  predicate Initial(book: Book, w: World) {
    && |w.reps| == |w.pcs| <= MAX_REPLICAS
    && forall i :: 0 <= i < |w.reps| ==> w.reps[i] == InitialRep(book.accounts, book.initial) && w.pcs[i] == Idle
  }

  predicate IsRun(book: Book, ws: seq<World>, actions: seq<Action>)
    decreases |actions|
  {
    var n := |actions|;
    && |ws| == n + 1
    && (if n == 0 then Initial(book, ws[0])
        else IsRun(book, ws[..n], actions[..n - 1]) && Next(book, ws[n - 1], actions[n - 1], ws[n]))
  }

  // A worker reads no further than the length it loaded, and repairs only with its own log fully applied.
  predicate PcOk(w: World, i: nat)
    requires i < |w.reps| == |w.pcs| && i < |w.reps[i].cursor|
  {
    var r := w.reps[i];
    match w.pcs[i]
    case Idle => true
    case Merging(p, n) =>
      && p < |w.reps| && p < |r.cursor| && r.cursor[p] <= n <= |w.reps[p].log|
      && (p == i ==> n == |r.log|) && (p > i ==> r.cursor[i] == |r.log|)
    case Repairing(a) => r.cursor[i] == |r.log| && a <= |r.balance|
  }

  ghost predicate Inv(book: Book, w: World) {
    && |w.reps| == |w.pcs|
    && SysOk(book, w.reps)
    && (forall i :: 0 <= i < |w.reps| ==> |w.reps[i].cursor| == MAX_REPLICAS)
    && (forall i :: 0 <= i < |w.reps| ==> PcOk(w, i))
  }

  lemma {:induction false} InitialInv(book: Book, w: World)
    requires Initial(book, w)
    ensures Inv(book, w)
  {
    InitialViewOk(book);
    forall i | 0 <= i < |w.reps| ensures RepOk(book, w.reps, i) {
      assert LogOk(book, w.reps, i);
    }
  }

  // Other workers see a step of worker i only as a longer log.
  lemma {:induction false} PcsKept(w: World, w': World, i: nat)
    requires |w.reps| == |w.pcs| == |w'.reps| == |w'.pcs| && i < |w.reps|
    requires forall j :: 0 <= j < |w.reps| ==> |w.reps[j].cursor| == MAX_REPLICAS && |w'.reps[j].cursor| == MAX_REPLICAS
    requires |w.reps| <= MAX_REPLICAS
    requires forall j :: 0 <= j < |w.reps| ==> PcOk(w, j)
    requires w'.reps == w.reps[i := w'.reps[i]] && w'.pcs == w.pcs[i := w'.pcs[i]]
    requires w.reps[i].log <= w'.reps[i].log
    requires PcOk(w', i)
    ensures forall j :: 0 <= j < |w'.reps| ==> PcOk(w', j)
  {
    forall j | 0 <= j < |w'.reps| && j != i ensures PcOk(w', j) {
      assert PcOk(w, j);
    }
  }

  lemma {:induction false} StepReps(book: Book, w: World, a: Action, w': World)
    requires Inv(book, w) && Next(book, w, a, w')
    ensures SysOk(book, w'.reps)
  {
    match a
    case Commit(i, src, dst) => CommitKeeps(book, w.reps, i, src, dst);
    case StartMerge(_) =>
    case Take(i) => MergeKeeps(book, w.reps, i, w.pcs[i].p);
    case NextLog(_) =>
    case Repair(i, culprit) =>
      assert PcOk(w, i);
      RepairKeeps(book, w.reps, i, w.pcs[i].a, culprit);
    case NextAccount(_) =>
    case Finish(_) =>
  }

  // What a step changes: one replica, whose log can only grow, and that worker's place.
  lemma {:induction false} StepShape(book: Book, w: World, a: Action, w': World)
    requires |w.reps| == |w.pcs| <= MAX_REPLICAS && Next(book, w, a, w')
    requires forall j :: 0 <= j < |w.reps| ==> |w.reps[j].cursor| == MAX_REPLICAS
    ensures |w'.reps| == |w'.pcs| == |w.reps|
    ensures w'.reps == w.reps[a.i := w'.reps[a.i]] && w'.pcs == w.pcs[a.i := w'.pcs[a.i]]
    ensures w.reps[a.i].log <= w'.reps[a.i].log
    ensures |w'.reps[a.i].cursor| == MAX_REPLICAS
  {
  }

  lemma {:induction false} StepPc(book: Book, w: World, a: Action, w': World)
    requires |w.reps| == |w.pcs| <= MAX_REPLICAS && Next(book, w, a, w')
    requires |w'.reps| == |w'.pcs| == |w.reps| && |w.reps[a.i].cursor| == |w'.reps[a.i].cursor| == MAX_REPLICAS
    requires PcOk(w, a.i) && CursorsOk(w.reps, w.reps[a.i])
    requires forall p :: 0 <= p < |w.reps| ==> w.reps[p].published == |w.reps[p].log|
    ensures PcOk(w', a.i)
  {
  }

  lemma {:induction false} StepInv(book: Book, w: World, a: Action, w': World)
    requires Inv(book, w) && Next(book, w, a, w')
    ensures Inv(book, w')
  {
    StepReps(book, w, a, w');
    StepShape(book, w, a, w');
    OwnCursors(book, w.reps, a.i);
    forall p | 0 <= p < |w.reps| ensures w.reps[p].published == |w.reps[p].log| { assert RepOk(book, w.reps, p); }
    assert PcOk(w, a.i);
    StepPc(book, w, a, w');
    PcsKept(w, w', a.i);
  }

  lemma {:induction false} RunsKeepInv(book: Book, ws: seq<World>, actions: seq<Action>)
    requires IsRun(book, ws, actions)
    ensures Inv(book, ws[|actions|])
    decreases |actions|
  {
    var n := |actions|;
    if n == 0 {
      InitialInv(book, ws[0]);
    } else {
      RunsKeepInv(book, ws[..n], actions[..n - 1]);
      StepInv(book, ws[n - 1], actions[n - 1], ws[n]);
    }
  }

  /* ----- no worker is ever stuck ----- */

  lemma {:induction false} RepairGoesOn(book: Book, w: World, i: nat, a: nat) returns (act: Action, w': World)
    requires Inv(book, w) && i < |w.reps| && w.pcs[i] == Repairing(a)
    ensures act.i == i && Next(book, w, act, w')
  {
    var r := w.reps[i];
    assert RepOk(book, w.reps, i) && PcOk(w, i);
    if a == |r.balance| {
      act, w' := Finish(i), At(w, i, Idle);
    } else if r.balance[a] >= 0 || Open(r, a) == {} {
      act, w' := NextAccount(i), At(w, i, Repairing(a + 1));
    } else {
      MaxExists(Open(r, a));
      var culprit: nat :| IsMax(Open(r, a), culprit);
      CulpritKnown(book, w.reps, i, a, culprit);
      act, w' := Repair(i, culprit), w.(reps := RepairStep(w.reps, i, culprit));
    }
  }

  lemma {:induction false} MergeGoesOn(book: Book, w: World, i: nat) returns (act: Action, w': World)
    requires Inv(book, w) && i < |w.reps| && w.pcs[i].Merging?
    ensures act.i == i && Next(book, w, act, w')
  {
    var r, pc := w.reps[i], w.pcs[i];
    assert RepOk(book, w.reps, i) && PcOk(w, i);
    if r.cursor[pc.p] < pc.n {
      NextRecord(book, w.reps, i, pc.p);
      act, w' := Take(i), w.(reps := MergeStep(w.reps, i, pc.p));
    } else {
      var next := if pc.p + 1 < |w.reps| then Merging(pc.p + 1, w.reps[pc.p + 1].published) else Repairing(0);
      act, w' := NextLog(i), At(w, i, next);
    }
  }

  // In every state of every run each worker has a step of its own, whatever the others do.
  lemma {:induction false} WorkerGoesOn(book: Book, ws: seq<World>, actions: seq<Action>, i: nat)
    returns (act: Action, w': World)
    requires IsRun(book, ws, actions) && i < |ws[|actions|].reps|
    ensures act.i == i && Next(book, ws[|actions|], act, w')
  {
    RunsKeepInv(book, ws, actions);
    var w := ws[|actions|];
    match w.pcs[i]
    case Idle => act, w' := StartMerge(i), At(w, i, Merging(0, w.reps[0].published));
    case Merging(_, _) => act, w' := MergeGoesOn(book, w, i);
    case Repairing(a) => act, w' := RepairGoesOn(book, w, i, a);
  }

  /* ----- every state of every run ----- */

  // Each view is the order-independent fold of the set it has applied, money is conserved,
  // no operation is applied twice, and a culprit is marked exactly if its compensation is in.
  lemma {:induction false} ViewInEveryRun(book: Book, ws: seq<World>, actions: seq<Action>, i: nat)
    requires IsRun(book, ws, actions) && i < |ws[|actions|].reps|
    ensures var r := ws[|actions|].reps[i];
            && |r.balance| == book.accounts
            && (forall a :: 0 <= a < book.accounts ==> r.balance[a] == book.initial + Fold(Ops(r), a))
            && Total(r.balance) == book.accounts * book.initial
            && DistinctIds(r.applied)
            && (forall q: nat :: q + COMP in r.ids <==> q in r.parents)
  {
    RunsKeepInv(book, ws, actions);
    var r := ws[|actions|].reps[i];
    assert RepOk(book, ws[|actions|].reps, i);
    forall q: nat ensures q + COMP in r.ids <==> q in r.parents { CompAppliedIffRepaired(book, r, q); }
  }

  // System-wide an id names one operation, and replicas with the same ids have the same view,
  // down to the debits from which the next culprit is picked.
  lemma {:induction false} AgreementInEveryRun(book: Book, ws: seq<World>, actions: seq<Action>, i: nat, j: nat)
    requires IsRun(book, ws, actions) && i < |ws[|actions|].reps| && j < |ws[|actions|].reps|
    ensures var r, t := ws[|actions|].reps[i], ws[|actions|].reps[j];
            && (forall x, y :: x in r.applied + r.log && y in t.applied + t.log && x.id == y.id ==> x == y)
            && (r.ids == t.ids ==>
                  Ops(r) == Ops(t) && r.balance == t.balance && r.parents == t.parents && r.debits == t.debits)
  {
    RunsKeepInv(book, ws, actions);
    var reps := ws[|actions|].reps;
    AllGenuine(book, reps, i);
    AllGenuine(book, reps, j);
    forall x, y | x in reps[i].applied + reps[i].log && y in reps[j].applied + reps[j].log && x.id == y.id
      ensures x == y
    {
      EqualIdsEqualOps(book, reps, x, y);
    }
    if reps[i].ids == reps[j].ids { EqualIdsEqualViews(book, reps, i, j); }
  }

  lemma {:induction false} AllGenuine(book: Book, reps: seq<Rep>, i: nat)
    requires SysOk(book, reps) && i < |reps|
    ensures forall x :: x in reps[i].applied + reps[i].log ==> Genuine(book, reps, x)
  {
    assert RepOk(book, reps, i);
  }

  /* ----- once gossip has settled ----- */

  // Replica i has read every log to the end.
  predicate CaughtUp(reps: seq<Rep>, i: nat)
    requires i < |reps|
  {
    |reps| <= |reps[i].cursor| && forall p :: 0 <= p < |reps| ==> reps[i].cursor[p] == |reps[p].log|
  }

  lemma {:induction false} CaughtUpHasAll(book: Book, reps: seq<Rep>, i: nat, o: Op)
    requires SysOk(book, reps) && i < |reps| && CaughtUp(reps, i)
    requires InSomeLog(reps, o) && Genuine(book, reps, o)
    ensures o in reps[i].applied && o.id in reps[i].ids
  {
    var p :| 0 <= p < |reps| && o in reps[p].log;
    var k :| 0 <= k < |reps[p].log| && reps[p].log[k] == o;
    OwnCursors(book, reps, i);
    assert CursorOk(reps[i], p, reps[p].log);
    assert o.id in reps[i].ids;
    RepFacts(book, reps, i);
    assert Holds(reps[i], o.id);
    var x :| x in reps[i].applied && x.id == o.id;
    EqualIdsEqualOps(book, reps, x, o);
  }

  // Strong eventual consistency: replicas that have read every log hold the same view.
  lemma {:induction false} CaughtUpAgree(book: Book, reps: seq<Rep>, i: nat, j: nat)
    requires SysOk(book, reps) && i < |reps| && j < |reps| && CaughtUp(reps, i) && CaughtUp(reps, j)
    ensures reps[i].ids == reps[j].ids && Ops(reps[i]) == Ops(reps[j]) && reps[i].balance == reps[j].balance
  {
    CaughtUpWithin(book, reps, i, j);
    CaughtUpWithin(book, reps, j, i);
    EqualIdsEqualViews(book, reps, i, j);
  }

  lemma {:induction false} CaughtUpWithin(book: Book, reps: seq<Rep>, i: nat, j: nat)
    requires SysOk(book, reps) && i < |reps| && j < |reps| && CaughtUp(reps, j)
    ensures reps[i].ids <= reps[j].ids
  {
    RepFacts(book, reps, i);
    forall id | id in reps[i].ids ensures id in reps[j].ids {
      assert Holds(reps[i], id);
      var o :| o in reps[i].applied && o.id == id;
      CaughtUpHasAll(book, reps, j, o);
    }
  }

  // A replica that has read every log holds the commit of every compensation it holds.
  lemma {:induction false} CaughtUpClosed(book: Book, reps: seq<Rep>, i: nat)
    requires SysOk(book, reps) && i < |reps| && CaughtUp(reps, i)
    ensures Closed(Ops(reps[i]))
  {
    var s := Ops(reps[i]);
    RepFacts(book, reps, i);
    forall x, y | x in s && y in s && x.id == y.id ensures x == y { EqualIdsEqualOps(book, reps, x, y); }
    forall o | o in s && o.id >= COMP ensures HasCommit(s, o) {
      var c :| CommitIn(reps, c) && o == CompOf(c);
      CommitGenuine(book, reps, c);
      CaughtUpHasAll(book, reps, i, c);
    }
  }

  lemma {:induction false} CommitGenuine(book: Book, reps: seq<Rep>, c: Op)
    requires SysOk(book, reps) && CommitIn(reps, c)
    ensures Genuine(book, reps, c) && InSomeLog(reps, c)
  {
    assert RepOk(book, reps, c.id % 256);
  }

  lemma {:induction false} NoOpenDebits(book: Book, reps: seq<Rep>, i: nat, a: nat)
    requires SysOk(book, reps) && i < |reps| && a < |reps[i].debits| && Open(reps[i], a) == {}
    ensures Repaired(Ops(reps[i]), a)
  {
    var r := reps[i];
    assert RepOk(book, reps, i);
    forall c | c in r.applied && c.id < COMP && c.src == a ensures CompOf(c) in r.applied {
      assert c.id in r.debits[a] && c.id !in Open(r, a);
      assert Holds(r, c.id + COMP);
      var x :| x in r.applied && x.id == c.id + COMP;
      var d :| CommitIn(reps, d) && x == CompOf(d);
      SameCommit(book, reps, c, d);
    }
  }

  // With every log read and nothing left to repair on an account, it is not negative.
  lemma {:induction false} SettledNonNegative(book: Book, reps: seq<Rep>, i: nat, a: nat)
    requires SysOk(book, reps) && i < |reps| && CaughtUp(reps, i) && book.initial >= 0 && a < book.accounts
    requires a < |reps[i].debits| && Open(reps[i], a) == {} && a < |reps[i].balance|
    ensures reps[i].balance[a] >= 0
  {
    CaughtUpClosed(book, reps, i);
    NoOpenDebits(book, reps, i, a);
    RepairedIsNonNegative(Ops(reps[i]), a);
    assert RepOk(book, reps, i);
  }
}
