/** The ledger as a set of operations: what the logs hold together, and what repair has to make of it.

    Logs, cursors, debit sets and repair marks do not occur here.  A repair pass over a set goes through the
    accounts in order and undoes the greatest commit out of a negative account until none is left; quiescing
    repeats such passes until one changes nothing.
 */
module EcLedger {
  import opened EcBank
  import opened EcSystem
  import opened EcRun

  // Everything in some log.
  function AllOps(reps: seq<Rep>): set<Op> {
    set p, o | 0 <= p < |reps| && o in reps[p].log :: o
  }

  /* ----- repair of a set of operations ----- */

  predicate Undoable(s: set<Op>, a: nat, c: Op) {
    c in s && c.id < COMP && c.src == a && CompOf(c) !in s
  }

  // The commit that has to go first.
  ghost predicate Culprit(s: set<Op>, a: nat, c: Op) {
    Undoable(s, a, c) && forall d :: Undoable(s, a, d) ==> d.id <= c.id
  }

  function Unrepaired(s: set<Op>): set<Op> {
    set c | c in s && c.id < COMP && CompOf(c) !in s
  }

  lemma {:induction false} UndoingShrinks(s: set<Op>, a: nat, c: Op)
    requires Undoable(s, a, c)
    ensures Unrepaired(s + {CompOf(c)}) < Unrepaired(s)
  {
    assert c in Unrepaired(s) && c !in Unrepaired(s + {CompOf(c)});
  }

  // One pass from account a on.
  ghost function Fix(book: Book, s: set<Op>, a: nat): set<Op>
    decreases Unrepaired(s), book.accounts - a
  {
    if a >= book.accounts then s
    else if book.initial + Fold(s, a) >= 0 || !exists c :: Culprit(s, a, c) then Fix(book, s, a + 1)
    else
      var c :| Culprit(s, a, c);
      UndoingShrinks(s, a, c);
      Fix(book, s + {CompOf(c)}, a)
  }

  lemma {:induction false} FixGrows(book: Book, s: set<Op>, a: nat)
    ensures Fix(book, s, a) == s || Unrepaired(Fix(book, s, a)) < Unrepaired(s)
    decreases Unrepaired(s), book.accounts - a
  {
    if a >= book.accounts {
    } else if book.initial + Fold(s, a) >= 0 || !exists c :: Culprit(s, a, c) {
      FixGrows(book, s, a + 1);
    } else {
      var c :| Culprit(s, a, c) && Fix(book, s, a) == Fix(book, s + {CompOf(c)}, a);
      UndoingShrinks(s, a, c);
      FixGrows(book, s + {CompOf(c)}, a);
    }
  }

  // A pass drops nothing, and what it adds undoes a commit of the set.
  lemma {:induction false} FixAdds(book: Book, s: set<Op>, a: nat)
    ensures s <= Fix(book, s, a)
    ensures forall o :: o in Fix(book, s, a) ==> o in s || HasCommit(s, o)
    decreases Unrepaired(s), book.accounts - a
  {
    if a >= book.accounts {
    } else if book.initial + Fold(s, a) >= 0 || !exists c :: Culprit(s, a, c) {
      FixAdds(book, s, a + 1);
    } else {
      var c :| Culprit(s, a, c) && Fix(book, s, a) == Fix(book, s + {CompOf(c)}, a);
      UndoingShrinks(s, a, c);
      FixAdds(book, s + {CompOf(c)}, a);
      forall o | o in Fix(book, s, a) && o !in s ensures HasCommit(s, o) {
        if o != CompOf(c) {
          var d :| d in s + {CompOf(c)} && d.id < COMP && o == CompOf(d);
          assert d in s;
        }
      }
    }
  }

  // Passes until nothing changes.
  ghost function Final(book: Book, s: set<Op>): set<Op>
    decreases Unrepaired(s)
  {
    FixGrows(book, s, 0);
    if Fix(book, s, 0) == s then s else Final(book, Fix(book, s, 0))
  }

  // Nothing is undone while no account is negative.
  lemma {:induction false} SolventUnchanged(book: Book, s: set<Op>, a: nat)
    requires forall b :: a <= b < book.accounts ==> book.initial + Fold(s, b) >= 0
    ensures Fix(book, s, a) == s
    decreases book.accounts - a
  {
    if a >= book.accounts {
    } else {
      SolventUnchanged(book, s, a + 1);
    }
  }

  /* ----- a replica's indices against the set ----- */

  lemma {:induction false} OpenIs(book: Book, reps: seq<Rep>, i: nat, a: nat, id: nat)
    requires SysOk(book, reps) && i < |reps| && a < |reps[i].debits|
    ensures id in Open(reps[i], a) <==>
            id in reps[i].byId && reps[i].byId[id].id == id && Undoable(Ops(reps[i]), a, reps[i].byId[id])
  {
    var r := reps[i];
    assert RepOk(book, reps, i);
    if id in r.byId && r.byId[id].id == id && Undoable(Ops(r), a, r.byId[id]) {
      assert Indexed(r, r.byId[id]);
      CompAppliedIffRepaired(book, r, id);
      if id in r.parents { CompThere(book, reps, i, r.byId[id]); }
    }
    if id in Open(r, a) {
      assert DebitOf(r, a, id);
      CompAppliedIffRepaired(book, r, id);
    }
  }

  lemma {:induction false} CompThere(book: Book, reps: seq<Rep>, i: nat, c: Op)
    requires SysOk(book, reps) && i < |reps| && c in reps[i].applied && c.id < COMP && c.id + COMP in reps[i].ids
    ensures CompOf(c) in reps[i].applied
  {
    var r := reps[i];
    assert RepOk(book, reps, i);
    assert Holds(r, c.id + COMP);
    var x :| x in r.applied && x.id == c.id + COMP;
    var d :| CommitIn(reps, d) && x == CompOf(d);
    SameCommit(book, reps, c, d);
  }

  // The greatest open debit is the culprit, and there is no other.
  lemma {:induction false} CulpritIs(book: Book, reps: seq<Rep>, i: nat, a: nat, id: nat)
    requires SysOk(book, reps) && i < |reps| && a < |reps[i].debits| && IsMax(Open(reps[i], a), id)
    ensures id in reps[i].byId && Culprit(Ops(reps[i]), a, reps[i].byId[id])
    ensures forall c :: Culprit(Ops(reps[i]), a, c) ==> c == reps[i].byId[id]
  {
    var r := reps[i];
    OpenIs(book, reps, i, a, id);
    forall d | Undoable(Ops(r), a, d) ensures d.id <= id && (d.id == id ==> d == r.byId[id]) {
      OpenHas(book, reps, i, a, d);
    }
  }

  lemma {:induction false} OpenHas(book: Book, reps: seq<Rep>, i: nat, a: nat, d: Op)
    requires SysOk(book, reps) && i < |reps| && a < |reps[i].debits| && Undoable(Ops(reps[i]), a, d)
    ensures d.id in Open(reps[i], a) && d.id in reps[i].byId && reps[i].byId[d.id] == d
  {
    assert RepOk(book, reps, i);
    assert Indexed(reps[i], d);
    OpenIs(book, reps, i, a, d.id);
  }

  // A compensation is one step of the pass.
  lemma {:induction false} FixStep(book: Book, reps: seq<Rep>, i: nat, a: nat, id: nat)
    requires SysOk(book, reps) && i < |reps| && a < |reps[i].debits| && a < |reps[i].balance|
    requires reps[i].balance[a] < 0 && IsMax(Open(reps[i], a), id)
    ensures id in reps[i].byId
    ensures Fix(book, Ops(reps[i]), a) == Fix(book, Ops(reps[i]) + {CompOf(reps[i].byId[id])}, a)
  {
    CulpritIs(book, reps, i, a, id);
    assert RepOk(book, reps, i);
  }

  // An account that is not negative or has no open debit is passed over.
  lemma {:induction false} FixSkip(book: Book, reps: seq<Rep>, i: nat, a: nat)
    requires SysOk(book, reps) && i < |reps| && a < |reps[i].debits| && a < |reps[i].balance|
    requires reps[i].balance[a] >= 0 || Open(reps[i], a) == {}
    ensures Fix(book, Ops(reps[i]), a) == Fix(book, Ops(reps[i]), a + 1)
  {
    assert RepOk(book, reps, i);
    if c :| Culprit(Ops(reps[i]), a, c) { OpenHas(book, reps, i, a, c); }
  }

  lemma {:induction false} CaughtUpOps(book: Book, reps: seq<Rep>, i: nat)
    requires SysOk(book, reps) && i < |reps| && CaughtUp(reps, i)
    ensures Ops(reps[i]) == AllOps(reps)
  {
    RepFacts(book, reps, i);
    forall o | o in AllOps(reps) ensures o in Ops(reps[i]) {
      var p :| 0 <= p < |reps| && o in reps[p].log;
      assert InSomeLog(reps, o);
      assert RepOk(book, reps, p);
      CaughtUpHasAll(book, reps, i, o);
    }
  }

  // Every replica has applied its own log.
  predicate OwnApplied(reps: seq<Rep>) {
    forall j :: 0 <= j < |reps| ==> j < |reps[j].cursor| && reps[j].cursor[j] == |reps[j].log|
  }

  lemma {:induction false} OwnLogApplied(book: Book, reps: seq<Rep>, p: nat, o: Op)
    requires SysOk(book, reps) && OwnApplied(reps) && p < |reps| && o in reps[p].log
    ensures o in reps[p].applied
  {
    var r := reps[p];
    OwnCursors(book, reps, p);
    assert CursorOk(r, p, r.log) && RepOk(book, reps, p);
    var k :| 0 <= k < |r.log| && r.log[k] == o;
    assert Holds(r, o.id);
    var x :| x in r.applied && x.id == o.id;
    EqualIdsEqualOps(book, reps, x, o);
  }

  // Replicas with equal sets that have applied their own logs have applied all there is.
  lemma {:induction false} AllOpsAre(book: Book, reps: seq<Rep>, s: set<Op>)
    requires SysOk(book, reps) && OwnApplied(reps) && reps != []
    requires forall j :: 0 <= j < |reps| ==> Ops(reps[j]) == s
    ensures AllOps(reps) == s
  {
    forall o | o in AllOps(reps) ensures o in s {
      var p :| 0 <= p < |reps| && o in reps[p].log;
      OwnLogApplied(book, reps, p, o);
      assert o in Ops(reps[p]);
    }
    forall o | o in s ensures o in AllOps(reps) {
      assert o in Ops(reps[0]);
      RepFacts(book, reps, 0);
      assert InSomeLog(reps, o);
    }
  }

  lemma {:induction false} FinalFix(book: Book, s: set<Op>)
    ensures Final(book, Fix(book, s, 0)) == Final(book, s)
  {
  }

  // If the commits so far overdraw no account and nothing has been undone, nothing will be.
  lemma {:induction false} SolventIsFinal(book: Book, s: set<Op>)
    requires forall a :: 0 <= a < book.accounts ==> book.initial + Fold(s, a) >= 0
    ensures Final(book, s) == s
  {
    SolventUnchanged(book, s, 0);
  }

  /* ----- what a commit does ----- */

  // The change that a transfer of one unit makes to account a.
  function Shift(src: nat, dst: nat, a: nat): int {
    (if a == dst then 1 else 0) - (if a == src then 1 else 0)
  }

  lemma {:induction false} NextIdFresh(book: Book, reps: seq<Rep>, i: nat, o: Op)
    requires SysOk(book, reps) && i < |reps| && Genuine(book, reps, o)
    ensures o.id != CommitId(reps[i].seqno + 1, i) || CommitId(reps[i].seqno + 1, i) >= COMP
  {
    assert RepOk(book, reps, i);
    assert CommitId(reps[i].seqno + 1, i) % 256 == i;
  }

  lemma {:induction false} NextIdNew(book: Book, reps: seq<Rep>, i: nat, j: nat)
    requires SysOk(book, reps) && i < |reps| && j < |reps| && CommitId(reps[i].seqno + 1, i) < COMP
    ensures CommitId(reps[i].seqno + 1, i) !in reps[j].ids
  {
    RepFacts(book, reps, j);
    if CommitId(reps[i].seqno + 1, i) in reps[j].ids {
      assert Holds(reps[j], CommitId(reps[i].seqno + 1, i));
      var o :| o in reps[j].applied && o.id == CommitId(reps[i].seqno + 1, i);
      NextIdFresh(book, reps, i, o);
    }
  }

  // A commit reaches a replica that had read everything with the next record it takes from that log: one unit
  // goes from src to dst, and no other account changes.
  lemma {:induction false} CommitMoves(book: Book, reps: seq<Rep>, i: nat, src: nat, dst: nat, j: nat)
    requires SysOk(book, reps) && i < |reps| && j < |reps| && CaughtUp(reps, j)
    requires src < book.accounts && dst < book.accounts && CommitId(reps[i].seqno + 1, i) < COMP
    ensures var now := CommitStep(reps, i, src, dst);
            && CanMerge(now, j, i) && InBook(now[j], now[i].log[now[j].cursor[i]])
            && var r := MergeStep(now, j, i)[j];
               && |r.balance| == |reps[j].balance| == book.accounts
               && forall a :: 0 <= a < book.accounts ==> r.balance[a] == reps[j].balance[a] + Shift(src, dst, a)
  {
    assert RepOk(book, reps, j);
    NextIdNew(book, reps, i, j);
    var now := CommitStep(reps, i, src, dst);
    var o := now[i].log[now[j].cursor[i]];
    forall a | 0 <= a < book.accounts ensures Moved(reps[j].balance, o)[a] == reps[j].balance[a] + Shift(src, dst, a) {
      MovedAt(reps[j].balance, o, a);
    }
  }

  function Commits(s: set<Op>): set<Op> {
    set o | o in s && o.id < COMP
  }

  // What the commits of a run have done to account a.
  function Net(actions: seq<Action>, a: nat): int {
    if actions == [] then 0
    else
      var last := actions[|actions| - 1];
      Net(actions[..|actions| - 1], a) + if last.Commit? then Shift(last.src, last.dst, a) else 0
  }

  lemma {:induction false} LogGrows(reps: seq<Rep>, reps': seq<Rep>, i: nat, o: Op)
    requires i < |reps| == |reps'| && reps' == reps[i := reps'[i]] && reps'[i].log == reps[i].log + [o]
    ensures AllOps(reps') == AllOps(reps) + {o}
  {
    assert o in reps'[i].log;
    forall x | x in AllOps(reps) ensures x in AllOps(reps') {
      var p :| 0 <= p < |reps| && x in reps[p].log;
      assert x in reps'[p].log;
    }
    forall x | x in AllOps(reps') ensures x in AllOps(reps) + {o} {
      var p :| 0 <= p < |reps| && x in reps'[p].log;
      assert x in reps[p].log || x == o;
    }
  }

  lemma {:induction false} LogSame(reps: seq<Rep>, reps': seq<Rep>, i: nat)
    requires i < |reps| == |reps'| && reps' == reps[i := reps'[i]] && reps'[i].log == reps[i].log
    ensures AllOps(reps') == AllOps(reps)
  {
    assert forall p :: 0 <= p < |reps| ==> reps'[p].log == reps[p].log;
  }

  lemma {:induction false} CommitAdds(book: Book, reps: seq<Rep>, i: nat, src: nat, dst: nat, a: nat)
    requires SysOk(book, reps) && i < |reps| && CommitId(reps[i].seqno + 1, i) < COMP
    ensures Fold(Commits(AllOps(CommitStep(reps, i, src, dst))), a) ==
            Fold(Commits(AllOps(reps)), a) + Shift(src, dst, a)
  {
    var now := CommitStep(reps, i, src, dst);
    var o := now[i].log[|reps[i].log|];
    LogGrows(reps, now, i, o);
    if o in AllOps(reps) {
      var p :| 0 <= p < |reps| && o in reps[p].log;
      assert RepOk(book, reps, p);
      NextIdFresh(book, reps, i, o);
    }
    assert Commits(AllOps(now)) - {o} == Commits(AllOps(reps));
    FoldSplit(Commits(AllOps(now)), o, a);
  }

  lemma {:induction false} RepairAdds(book: Book, reps: seq<Rep>, i: nat, culprit: nat)
    requires i < |reps| && culprit in reps[i].byId && InBook(reps[i], reps[i].byId[culprit]) && i < |reps[i].cursor|
    ensures Commits(AllOps(RepairStep(reps, i, culprit))) == Commits(AllOps(reps))
  {
    LogGrows(reps, RepairStep(reps, i, culprit), i, CompOf(reps[i].byId[culprit]));
  }

  lemma {:induction false} StepNet(book: Book, w: World, act: Action, w': World, a: nat)
    requires Inv(book, w) && Next(book, w, act, w')
    ensures Fold(Commits(AllOps(w'.reps)), a) ==
            Fold(Commits(AllOps(w.reps)), a) + if act.Commit? then Shift(act.src, act.dst, a) else 0
  {
    match act
    case Commit(i, src, dst) => CommitAdds(book, w.reps, i, src, dst, a);
    case StartMerge(_) =>
    case Take(i) => LogSame(w.reps, w'.reps, i);
    case NextLog(_) =>
    case Repair(i, culprit) => RepairAdds(book, w.reps, i, culprit);
    case NextAccount(_) =>
    case Finish(_) =>
  }

  // In every run the logs hold exactly the transfers that were committed, each once.
  lemma {:induction false} CommitsAreLogged(book: Book, ws: seq<World>, actions: seq<Action>, a: nat)
    requires IsRun(book, ws, actions)
    ensures Fold(Commits(AllOps(ws[|actions|].reps)), a) == Net(actions, a)
    decreases |actions|
  {
    var n := |actions|;
    if n == 0 {
      assert AllOps(ws[0].reps) == {};
    } else {
      CommitsAreLogged(book, ws[..n], actions[..n - 1], a);
      RunsKeepInv(book, ws[..n], actions[..n - 1]);
      StepNet(book, ws[n - 1], actions[n - 1], ws[n], a);
    }
  }

  // A worker undoes a commit only while an account is negative in its view, and then the greatest one out of that
  // account; what it adds to its view is the compensation of that commit.
  lemma {:induction false} RepairsAreNeeded(book: Book, ws: seq<World>, actions: seq<Action>, i: nat, culprit: nat)
    returns (a: nat, c: Op)
    requires IsRun(book, ws, actions) && actions != [] && actions[|actions| - 1] == Repair(i, culprit)
    ensures var w, w' := ws[|actions| - 1], ws[|actions|];
            && i < |w.reps| == |w'.reps| && a < book.accounts
            && book.initial + Fold(Ops(w.reps[i]), a) < 0 && Culprit(Ops(w.reps[i]), a, c)
            && Ops(w'.reps[i]) == Ops(w.reps[i]) + {CompOf(c)}
  {
    var n := |actions|;
    var w := ws[n - 1];
    RunsKeepInv(book, ws[..n], actions[..n - 1]);
    assert Next(book, w, actions[n - 1], ws[n]) && PcOk(w, i);
    a := w.pcs[i].a;
    c := w.reps[i].byId[culprit];
    CulpritIs(book, w.reps, i, a, culprit);
    RepairedOps(book, w.reps, i, a, culprit);
  }

  lemma {:induction false} RepairedOps(book: Book, reps: seq<Rep>, i: nat, a: nat, culprit: nat)
    requires SysOk(book, reps) && CanRepair(reps, i, a, culprit)
    requires culprit in reps[i].byId && InBook(reps[i], reps[i].byId[culprit])
    requires a < |reps[i].balance|
    ensures Ops(RepairStep(reps, i, culprit)[i]) == Ops(reps[i]) + {CompOf(reps[i].byId[culprit])}
    ensures reps[i].balance[a] == book.initial + Fold(Ops(reps[i]), a) && a < book.accounts
  {
    CulpritKnown(book, reps, i, a, culprit);
    RepairEffect(reps, i, culprit);
    assert RepOk(book, reps, i);
  }

  // The number of commits of replica i.
  function CommitCount(actions: seq<Action>, i: nat): nat {
    if actions == [] then 0
    else
      var last := actions[|actions| - 1];
      CommitCount(actions[..|actions| - 1], i) + if last.Commit? && last.i == i then 1 else 0
  }

  // In every run the sequence number of a replica counts its commits, from which their ids are made.
  lemma {:induction false} SeqnoCounts(book: Book, ws: seq<World>, actions: seq<Action>, i: nat)
    requires IsRun(book, ws, actions)
    ensures i < |ws[|actions|].reps| ==> ws[|actions|].reps[i].seqno == CommitCount(actions, i)
    decreases |actions|
  {
    var n := |actions|;
    if n == 0 {
    } else {
      SeqnoCounts(book, ws[..n], actions[..n - 1], i);
      assert Next(book, ws[n - 1], actions[n - 1], ws[n]);
    }
  }
}
