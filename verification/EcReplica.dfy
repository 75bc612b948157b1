/** The bank's replicas as objects, with the loops that merge, repair and settle them. */
module EcReplica {
  import opened EcBank
  import opened EcSystem
  import opened EcRun
  import opened EcLedger

  class Replica {
    var log: seq<Op>
    var published: nat
    var applied: seq<Op>
    var ids: set<nat>
    var parents: set<nat>
    var debits: seq<set<nat>>
    var byId: map<nat, Op>
    var cursor: seq<nat>
    var balance: seq<int>
    var seqno: nat

    ghost function View(): Rep
      reads this
    {
      Rep(log, published, applied, ids, parents, debits, byId, cursor, balance, seqno)
    }

    constructor (accounts: nat, initial: int)
      ensures View() == InitialRep(accounts, initial)
    {
      log, published, applied, ids, parents := [], 0, [], {}, {};
      debits := seq(accounts, _ => {});
      byId := map[];
      cursor := seq(MAX_REPLICAS, _ => 0);
      balance := seq(accounts, _ => initial);
      seqno := 0;
    }

    // The commit of a worker: append and publish, nothing else.
    method Append(rid: nat, src: nat, dst: nat)
      modifies this
      ensures View() == Appended(old(View()), rid, src, dst)
    {
      seqno := seqno + 1;
      log := log + [Op(CommitId(seqno, rid), 0, src, dst, 1)];
      published := |log|;
    }

    method Apply(o: Op)
      requires InBook(View(), o)
      modifies this
      ensures View() == ApplyOp(old(View()), o)
    {
      balance := balance[o.src := balance[o.src] - o.amt];
      balance := balance[o.dst := balance[o.dst] + o.amt];
      if o.amt > 0 {
        debits := debits[o.src := debits[o.src] + {o.id}];
        byId := byId[o.id := o];
      } else {
        parents := parents + {o.parent};
      }
    }

    // Insert by id: true exactly if the operation was new.
    method Insert(o: Op) returns (isNew: bool)
      requires InBook(View(), o)
      modifies this
      ensures View() == Deliver(old(View()), o)
      ensures isNew == (o.id !in old(ids))
    {
      isNew := o.id !in ids;
      if isNew {
        ids := ids + {o.id};
        applied := applied + [o];
        Apply(o);
      }
    }

    // The greatest debit of account a that is not repaired, found by walking the ordered set
    // from its greatest element down.
    method FindCulprit(a: nat) returns (found: bool, culprit: nat)
      requires a < |debits|
      ensures found == (Open(View(), a) != {})
      ensures found ==> IsMax(Open(View(), a), culprit)
    {
      var rest := debits[a];
      culprit := 0;
      while rest != {}
        invariant rest <= debits[a]
        invariant forall x :: x in debits[a] ==> x in rest || x in parents
        decreases rest
      {
        var m := Greatest(rest);
        if m !in parents {
          assert m in Open(View(), a);
          return true, m;
        }
        rest := rest - {m};
      }
      found := false;
    }

    method Compensation(rid: nat, culprit: nat)
      requires culprit in byId && InBook(View(), byId[culprit]) && rid < |cursor|
      modifies this
      ensures View() == Compensate(old(View()), rid, culprit)
    {
      var c := CompOf(byId[culprit]);
      log := log + [c];
      published := |log|;
      var _ := Insert(c);
      cursor := cursor[rid := |log|];
    }
  }

  method Greatest(s: set<nat>) returns (m: nat)
    requires s != {}
    ensures IsMax(s, m)
  {
    m :| m in s;
    var rest := s - {m};
    while rest != {}
      invariant rest <= s && m in s
      invariant forall x :: x in s ==> x in rest || x <= m
      decreases rest
    {
      var x :| x in rest;
      if x > m { m := x; }
      rest := rest - {x};
    }
  }

  ghost function Views(all: seq<Replica>): (v: seq<Rep>)
    reads all
    ensures |v| == |all| && forall k :: 0 <= k < |all| ==> v[k] == all[k].View()
  {
    seq(|all|, k requires 0 <= k < |all| reads all => all[k].View())
  }

  predicate Separate(all: seq<Replica>) {
    forall j, k :: 0 <= j < k < |all| ==> all[j] != all[k]
  }

  predicate IdInLogs(reps: seq<Rep>, id: nat) {
    exists p, k :: 0 <= p < |reps| && 0 <= k < |reps[p].log| && reps[p].log[k].id == id
  }

  // now is was after replica i has merged some records; grew says whether any was new.
  predicate Merged(was: seq<Rep>, now: seq<Rep>, i: nat, grew: bool) {
    && i < |was| == |now| && now == was[i := now[i]]
    && now[i].log == was[i].log && now[i].seqno == was[i].seqno
    && was[i].ids <= now[i].ids && (grew <==> now[i].ids != was[i].ids)
    && (!grew ==> now[i] == was[i].(cursor := now[i].cursor))
    && (forall id :: id in now[i].ids ==> id in was[i].ids || IdInLogs(was, id))
  }

  lemma {:induction false} MergedMore(was: seq<Rep>, now: seq<Rep>, i: nat, p: nat, grew: bool)
    requires Merged(was, now, i, grew) && CanMerge(now, i, p) && InBook(now[i], now[p].log[now[i].cursor[p]])
    ensures Merged(was, MergeStep(now, i, p), i, grew || now[p].log[now[i].cursor[p]].id !in now[i].ids)
  {
    assert was[p].log[now[i].cursor[p]] == now[p].log[now[i].cursor[p]];
  }

  // merge_round: afterwards the replica has read every published log to its end, holds the ids
  // it held and those in the logs, and says whether that is more than before.
  method MergeRound(ghost book: Book, all: seq<Replica>, i: nat) returns (grew: bool)
    requires Separate(all) && i < |all| && SysOk(book, Views(all))
    modifies all[i]
    ensures SysOk(book, Views(all)) && CaughtUp(Views(all), i)
    ensures Merged(old(Views(all)), Views(all), i, grew)
  {
    grew := false;
    ghost var was := Views(all);
    SysShape(book, was, i, i);
    for p := 0 to |all|
      invariant SysOk(book, Views(all)) && Merged(was, Views(all), i, grew)
      invariant |all[i].cursor| == MAX_REPLICAS
      invariant forall q :: 0 <= q < p ==> all[i].cursor[q] == |all[q].log|
    {
      grew := MergeLog(book, all, i, p, was, grew);
    }
  }

  // The inner loop: the published part of producer p's log.
  method MergeLog(ghost book: Book, all: seq<Replica>, i: nat, p: nat, ghost was: seq<Rep>, grew0: bool)
    returns (grew: bool)
    requires Separate(all) && SysOk(book, Views(all)) && p < |all| && Merged(was, Views(all), i, grew0)
    requires |all[i].cursor| == MAX_REPLICAS && p < MAX_REPLICAS
    modifies all[i]
    ensures SysOk(book, Views(all)) && Merged(was, Views(all), i, grew)
    ensures all[i].cursor == old(all[i].cursor)[p := |all[p].log|]
  {
    grew := grew0;
    var r, n := all[i], all[p].published;
    SysShape(book, Views(all), i, p);
    while r.cursor[p] < n
      invariant SysOk(book, Views(all)) && Merged(was, Views(all), i, grew)
      invariant |r.cursor| == MAX_REPLICAS && r.cursor[p] <= n == |all[p].log|
      invariant r.cursor == old(r.cursor)[p := r.cursor[p]]
    {
      grew := MergeNext(book, all, i, p, was, grew);
    }
  }

  method MergeNext(ghost book: Book, all: seq<Replica>, i: nat, p: nat, ghost was: seq<Rep>, grew0: bool)
    returns (grew: bool)
    requires Separate(all) && SysOk(book, Views(all)) && CanMerge(Views(all), i, p)
    requires Merged(was, Views(all), i, grew0)
    modifies all[i]
    ensures SysOk(book, Views(all)) && Merged(was, Views(all), i, grew)
    ensures all[i].cursor == old(all[i].cursor)[p := old(all[i].cursor)[p] + 1] && all[i].log == old(all[i].log)
  {
    ghost var before := Views(all);
    NextRecord(book, before, i, p);
    MergeKeeps(book, before, i, p);
    MergedMore(was, before, i, p, grew0);
    var isNew := TakeRecord(all, i, p);
    grew := grew0 || isNew;
  }

  method TakeRecord(all: seq<Replica>, i: nat, p: nat) returns (isNew: bool)
    requires Separate(all) && CanMerge(Views(all), i, p) && InBook(Views(all)[i], all[p].log[all[i].cursor[p]])
    modifies all[i]
    ensures Views(all) == MergeStep(old(Views(all)), i, p)
    ensures isNew == (old(all[p].log[all[i].cursor[p]].id) !in old(all[i].ids))
    ensures all[i].cursor == old(all[i].cursor)[p := old(all[i].cursor)[p] + 1] && all[i].log == old(all[i].log)
  {
    var r := all[i];
    var o := all[p].log[r.cursor[p]];
    isNew := r.Insert(o);
    r.cursor := r.cursor[p := r.cursor[p] + 1];
  }

  lemma {:induction false} SysShape(book: Book, reps: seq<Rep>, i: nat, p: nat)
    requires SysOk(book, reps) && i < |reps| && p < |reps|
    ensures |reps[i].cursor| == MAX_REPLICAS && reps[i].cursor[p] <= |reps[p].log|
    ensures |reps[i].balance| == |reps[i].debits| == book.accounts
    ensures reps[p].published == |reps[p].log| && |reps| <= MAX_REPLICAS
  {
    assert RepOk(book, reps, i) && RepOk(book, reps, p);
    assert CursorOk(reps[i], p, reps[p].log);
  }

  // now is was after replica i has run repairs: its log and its ids have grown by the same
  // compensations, or nothing happened.
  predicate RanRepairs(was: seq<Rep>, now: seq<Rep>, i: nat, did: bool) {
    && i < |was| == |now| && now == was[i := now[i]]
    && was[i].log <= now[i].log && was[i].ids <= now[i].ids
    && (forall o :: o in now[i].log ==> o in was[i].log || o.id >= COMP)
    && (did <==> now[i].ids != was[i].ids) && (!did ==> now[i] == was[i])
    && i < |now[i].cursor| && now[i].cursor[i] == |now[i].log|
  }

  lemma {:induction false} RepairedMore(book: Book, was: seq<Rep>, now: seq<Rep>, i: nat, a: nat, culprit: nat,
                                        did: bool)
    requires SysOk(book, now) && RanRepairs(was, now, i, did) && CanRepair(now, i, a, culprit)
    requires culprit in now[i].byId && InBook(now[i], now[i].byId[culprit])
    ensures RanRepairs(was, RepairStep(now, i, culprit), i, true)
    ensures SysOk(book, RepairStep(now, i, culprit))
    ensures RepairStep(now, i, culprit)[i].debits == now[i].debits
    ensures RepairStep(now, i, culprit)[i].parents == now[i].parents + {culprit}
    ensures Ops(RepairStep(now, i, culprit)[i]) == Ops(now[i]) + {CompOf(now[i].byId[culprit])}
  {
    CulpritKnown(book, now, i, a, culprit);
    RepairEffect(now, i, culprit);
    RepairKeeps(book, now, i, a, culprit);
  }

  // repair_pass: what is applied afterwards is what one pass makes of the set applied before.  With nothing
  // done, every account is non-negative or has no open debit.
  method RepairPass(ghost book: Book, all: seq<Replica>, i: nat) returns (did: bool)
    requires Separate(all) && i < |all| && SysOk(book, Views(all))
    requires i < |all[i].cursor| && all[i].cursor[i] == |all[i].log|
    modifies all[i]
    ensures SysOk(book, Views(all)) && RanRepairs(old(Views(all)), Views(all), i, did)
    ensures Ops(all[i].View()) == Fix(book, old(Ops(all[i].View())), 0)
    ensures !did ==> forall a :: 0 <= a < |all[i].balance| == |all[i].debits| ==>
                       all[i].balance[a] >= 0 || Open(Views(all)[i], a) == {}
  {
    did := false;
    ghost var was := Views(all);
    ghost var goal := Fix(book, Ops(was[i]), 0);
    SysShape(book, was, i, i);
    for a := 0 to |all[i].balance|
      invariant SysOk(book, Views(all)) && RanRepairs(was, Views(all), i, did)
      invariant |all[i].balance| == |all[i].debits| == book.accounts
      invariant Fix(book, Ops(all[i].View()), a) == goal
      invariant !did ==> forall b :: 0 <= b < a ==> was[i].balance[b] >= 0 || Open(was[i], b) == {}
    {
      did := RepairAccount(book, all, i, a, was, did, goal);
    }
  }

  method CompensateIn(all: seq<Replica>, i: nat, culprit: nat)
    requires Separate(all) && i < |all| && culprit in all[i].byId
    requires InBook(Views(all)[i], all[i].byId[culprit]) && i < |all[i].cursor|
    modifies all[i]
    ensures Views(all) == RepairStep(old(Views(all)), i, culprit)
  {
    all[i].Compensation(i, culprit);
  }

  // The inner loop: compensate while the account is negative and has an open debit.
  method RepairAccount(ghost book: Book, all: seq<Replica>, i: nat, a: nat, ghost was: seq<Rep>, did0: bool,
                       ghost goal: set<Op>)
    returns (did: bool)
    requires Separate(all) && SysOk(book, Views(all)) && RanRepairs(was, Views(all), i, did0)
    requires a < |all[i].balance| == |all[i].debits| == book.accounts
    requires Fix(book, Ops(all[i].View()), a) == goal
    modifies all[i]
    ensures SysOk(book, Views(all)) && RanRepairs(was, Views(all), i, did)
    ensures |all[i].balance| == |all[i].debits| == book.accounts
    ensures all[i].balance[a] >= 0 || Open(all[i].View(), a) == {}
    ensures Fix(book, Ops(all[i].View()), a + 1) == goal
    ensures did0 ==> did
  {
    did := did0;
    var r := all[i];
    while r.balance[a] < 0
      invariant SysOk(book, Views(all)) && RanRepairs(was, Views(all), i, did) && (did0 ==> did)
      invariant |r.balance| == |r.debits| == book.accounts
      invariant Fix(book, Ops(r.View()), a) == goal
      decreases |Open(r.View(), a)|
    {
      var found, culprit := r.FindCulprit(a);
      if !found { break; }
      RepairOnce(book, all, i, a, culprit, was, did);
      did := true;
    }
    FixSkip(book, Views(all), i, a);
  }

  // One compensation: it closes one open debit, so the loop above ends.
  method RepairOnce(ghost book: Book, all: seq<Replica>, i: nat, a: nat, culprit: nat,
                    ghost was: seq<Rep>, ghost did: bool)
    requires Separate(all) && SysOk(book, Views(all)) && RanRepairs(was, Views(all), i, did)
    requires a < |all[i].debits| == |all[i].balance| && all[i].balance[a] < 0
    requires IsMax(Open(all[i].View(), a), culprit)
    modifies all[i]
    ensures SysOk(book, Views(all)) && RanRepairs(was, Views(all), i, true)
    ensures |all[i].balance| == |all[i].debits| == book.accounts
    ensures a < |all[i].debits| && Open(all[i].View(), a) == old(Open(all[i].View(), a)) - {culprit}
    ensures Fix(book, Ops(all[i].View()), a) == old(Fix(book, Ops(all[i].View()), a))
  {
    ghost var before := Views(all);
    CulpritKnown(book, before, i, a, culprit);
    RepairedMore(book, was, before, i, a, culprit, did);
    FixStep(book, before, i, a, culprit);
    CompensateIn(all, i, culprit);
    SysShape(book, Views(all), i, i);
  }

  /* ----- quiesce ----- */

  // Same logs, no id lost; grew says whether some replica gained one.
  predicate AllMerged(was: seq<Rep>, now: seq<Rep>, grew: bool) {
    && |now| == |was|
    && (forall j :: 0 <= j < |was| ==> now[j].log == was[j].log && was[j].ids <= now[j].ids)
    && (grew <==> exists j :: 0 <= j < |was| && now[j].ids != was[j].ids)
  }

  method MergeAll(ghost book: Book, all: seq<Replica>) returns (grew: bool)
    requires Separate(all) && SysOk(book, Views(all))
    modifies all
    ensures SysOk(book, Views(all)) && AllMerged(old(Views(all)), Views(all), grew)
    ensures forall i :: 0 <= i < |all| ==> CaughtUp(Views(all), i)
  {
    grew := false;
    ghost var was := Views(all);
    for k := 0 to |all|
      invariant SysOk(book, Views(all)) && AllMerged(was, Views(all), grew)
      invariant forall j :: k <= j < |all| ==> all[j].View() == was[j]
      invariant forall j :: 0 <= j < k ==> CaughtUp(Views(all), j)
    {
      ghost var before := Views(all);
      var g := MergeRound(book, all, k);
      MergedAll(was, before, Views(all), k, grew, g);
      forall j | 0 <= j < k ensures CaughtUp(Views(all), j) { CaughtUpKept(before, Views(all), k, j, g); }
      grew := grew || g;
    }
  }

  lemma {:induction false} CaughtUpKept(was: seq<Rep>, now: seq<Rep>, k: nat, j: nat, g: bool)
    requires Merged(was, now, k, g) && j < |was| && j != k && CaughtUp(was, j)
    ensures CaughtUp(now, j)
  {
    assert now[j] == was[j];
    forall p | 0 <= p < |now| ensures now[j].cursor[p] == |now[p].log| {
      assert now[p].log == was[p].log;
    }
  }

  lemma {:induction false} MergedAll(was: seq<Rep>, mid: seq<Rep>, now: seq<Rep>, k: nat, grew: bool, g: bool)
    requires AllMerged(was, mid, grew) && Merged(mid, now, k, g) && mid[k] == was[k]
    ensures AllMerged(was, now, grew || g)
  {
    forall j | 0 <= j < |was|
      ensures now[j].log == was[j].log && was[j].ids <= now[j].ids
      ensures !grew && !g ==> now[j].ids == was[j].ids
    {
      assert j != k ==> now[j] == mid[j];
    }
    if grew {
      var j :| 0 <= j < |was| && mid[j].ids != was[j].ids;
      assert now[j].ids != was[j].ids;
    } else if g {
      assert now[k].ids != was[k].ids;
    }
  }

  // Logs have grown by compensations at most, no id lost; did says whether some replica repaired.
  predicate AllRepaired(was: seq<Rep>, now: seq<Rep>, did: bool) {
    && |now| == |was|
    && (forall j :: 0 <= j < |was| ==> was[j].log <= now[j].log && was[j].ids <= now[j].ids)
    && (forall j, o :: 0 <= j < |was| && o in now[j].log ==> o in was[j].log || o.id >= COMP)
    && (did <==> exists j :: 0 <= j < |was| && now[j].ids != was[j].ids)
    && (!did ==> now == was)
  }

  // No account of r is negative with a debit left to undo.
  predicate NothingToRepair(r: Rep) {
    |r.balance| == |r.debits| && forall a :: 0 <= a < |r.balance| ==> r.balance[a] >= 0 || Open(r, a) == {}
  }

  // The first k replicas have made one pass, and each has applied its own log.
  ghost predicate FixedUpTo(book: Book, was: seq<Rep>, now: seq<Rep>, k: nat) {
    && |now| == |was| && k <= |was| && OwnApplied(now)
    && forall j :: 0 <= j < k ==> Ops(now[j]) == Fix(book, Ops(was[j]), 0)
  }

  method RepairAll(ghost book: Book, all: seq<Replica>) returns (did: bool)
    requires Separate(all) && SysOk(book, Views(all))
    requires forall i :: 0 <= i < |all| ==> CaughtUp(Views(all), i)
    modifies all
    ensures SysOk(book, Views(all)) && AllRepaired(old(Views(all)), Views(all), did)
    ensures FixedUpTo(book, old(Views(all)), Views(all), |all|)
    ensures !did ==> forall i :: 0 <= i < |all| ==> NothingToRepair(Views(all)[i])
  {
    did := false;
    ghost var was := Views(all);
    FixedNone(book, was);
    for k := 0 to |all|
      invariant RepairsDone(book, was, Views(all), k, did)
    {
      did := RepairNth(book, all, k, was, did);
    }
  }

  // The passes of the first k replicas.
  ghost predicate RepairsDone(book: Book, was: seq<Rep>, now: seq<Rep>, k: nat, did: bool) {
    && SysOk(book, now) && AllRepaired(was, now, did) && FixedUpTo(book, was, now, k)
    && (forall j :: k <= j < |now| ==> now[j] == was[j])
    && (!did ==> forall j :: 0 <= j < k ==> NothingToRepair(was[j]))
  }

  method RepairNth(ghost book: Book, all: seq<Replica>, k: nat, ghost was: seq<Rep>, did0: bool) returns (did: bool)
    requires Separate(all) && k < |all| && RepairsDone(book, was, Views(all), k, did0)
    modifies all[k]
    ensures RepairsDone(book, was, Views(all), k + 1, did)
  {
    ghost var before := Views(all);
    SysShape(book, before, k, k);
    var d := RepairPass(book, all, k);
    RepairedAll(was, before, Views(all), k, did0, d);
    FixedMore(book, was, before, Views(all), k, d);
    did := did0 || d;
  }

  lemma {:induction false} FixedNone(book: Book, reps: seq<Rep>)
    requires SysOk(book, reps) && forall i :: 0 <= i < |reps| ==> CaughtUp(reps, i)
    ensures FixedUpTo(book, reps, reps, 0)
  {
    forall j | 0 <= j < |reps| ensures j < |reps[j].cursor| && reps[j].cursor[j] == |reps[j].log| {
      assert CaughtUp(reps, j);
    }
  }

  lemma {:induction false} FixedMore(book: Book, was: seq<Rep>, mid: seq<Rep>, now: seq<Rep>, k: nat, d: bool)
    requires FixedUpTo(book, was, mid, k) && RanRepairs(mid, now, k, d) && mid[k] == was[k]
    requires Ops(now[k]) == Fix(book, Ops(mid[k]), 0)
    ensures FixedUpTo(book, was, now, k + 1)
  {
  }

  lemma {:induction false} RepairedAll(was: seq<Rep>, mid: seq<Rep>, now: seq<Rep>, k: nat, did: bool, d: bool)
    requires AllRepaired(was, mid, did) && RanRepairs(mid, now, k, d) && mid[k] == was[k]
    ensures AllRepaired(was, now, did || d)
  {
    forall j | 0 <= j < |was|
      ensures was[j].log <= now[j].log && was[j].ids <= now[j].ids
      ensures !did && !d ==> now[j] == was[j]
    {
      assert j != k ==> now[j] == mid[j];
    }
    if did {
      var j :| 0 <= j < |was| && mid[j].ids != was[j].ids;
      assert now[j].ids != was[j].ids;
    } else if d {
      assert now[k].ids != was[k].ids;
    }
  }

  // Ids that replicas still lack, out of all those there can be: the commits and their
  // compensations.
  ghost function Missing(universe: set<nat>, reps: seq<Rep>): nat {
    if reps == [] then 0 else |universe - reps[0].ids| + Missing(universe, reps[1..])
  }

  ghost function Universe(commits: set<nat>): set<nat> {
    commits + set c | c in commits :: c + COMP
  }

  predicate CommitsWithin(reps: seq<Rep>, commits: set<nat>) {
    forall p, o :: 0 <= p < |reps| && o in reps[p].log && o.id < COMP ==> o.id in commits
  }

  lemma {:induction false} IdsWithin(book: Book, reps: seq<Rep>, commits: set<nat>, j: nat)
    requires SysOk(book, reps) && CommitsWithin(reps, commits) && j < |reps|
    ensures reps[j].ids <= Universe(commits)
  {
    RepFacts(book, reps, j);
    forall id | id in reps[j].ids ensures id in Universe(commits) {
      assert Holds(reps[j], id);
      var o :| o in reps[j].applied && o.id == id;
      if id >= COMP {
        var c :| CommitIn(reps, c) && o == CompOf(c);
        assert c.id in commits;
      } else {
        assert CommitIn(reps, o);
      }
    }
  }

  lemma {:induction false} MissingShrinks(universe: set<nat>, was: seq<Rep>, now: seq<Rep>)
    requires |was| == |now|
    requires forall j :: 0 <= j < |was| ==> was[j].ids <= now[j].ids <= universe
    ensures Missing(universe, now) <= Missing(universe, was)
    ensures (exists j :: 0 <= j < |was| && now[j].ids != was[j].ids) ==>
              Missing(universe, now) < Missing(universe, was)
  {
    if was == [] {
    } else {
      MissingShrinks(universe, was[1..], now[1..]);
      var x, y := universe - now[0].ids, universe - was[0].ids;
      SubsetSize(x, y);
      if j :| 0 <= j < |was| && now[j].ids != was[j].ids {
        if j == 0 {
          assert x != y by { var id :| id in now[0].ids && id !in was[0].ids; assert id in y && id !in x; }
        } else {
          assert now[1..][j - 1].ids != was[1..][j - 1].ids;
        }
      }
    }
  }

  lemma {:induction false} SubsetSize(x: set<nat>, y: set<nat>)
    requires x <= y
    ensures |x| <= |y| && (x != y ==> |x| < |y|)
  {
    assert y == x + (y - x);
    if x != y { var e :| e in y - x; assert |y - x| > 0; }
  }

  // Every commit is still there, and only compensations have been added.
  predicate Later(was: seq<Rep>, now: seq<Rep>) {
    && |now| == |was|
    && (forall i :: 0 <= i < |was| ==> was[i].log <= now[i].log)
    && (forall i, o :: 0 <= i < |was| && o in now[i].log ==> o in was[i].log || o.id >= COMP)
  }

  predicate AtRest(reps: seq<Rep>) {
    forall i :: 0 <= i < |reps| ==> CaughtUp(reps, i) && NothingToRepair(reps[i])
  }

  // All replicas have applied the same operations and hold the same balances, and the money is all there.
  ghost predicate Settled(book: Book, reps: seq<Rep>) {
    && (forall i, j :: 0 <= i < |reps| && 0 <= j < |reps| ==>
          Ops(reps[i]) == Ops(reps[j]) && reps[i].balance == reps[j].balance)
    && (forall i :: 0 <= i < |reps| ==> Total(reps[i].balance) == book.accounts * book.initial)
  }

  predicate Solvent(reps: seq<Rep>) {
    forall i, a :: 0 <= i < |reps| && 0 <= a < |reps[i].balance| ==> reps[i].balance[a] >= 0
  }

  // quiesce: gossip and repair until a round changes nothing.  It ends, and the system is then
  // settled; no commit is lost on the way and none is added.  No account is negative, unless the
  // accounts were opened so.
  method Quiesce(ghost book: Book, all: seq<Replica>)
    requires Separate(all) && SysOk(book, Views(all))
    modifies all
    ensures SysOk(book, Views(all)) && AtRest(Views(all))
    ensures Settled(book, Views(all))
    ensures forall i :: 0 <= i < |all| ==> Ops(Views(all)[i]) == Final(book, AllOps(old(Views(all))))
    ensures Solvent(Views(all)) <==> book.initial >= 0 || book.accounts == 0 || all == []
    ensures Later(old(Views(all)), Views(all))
  {
    ghost var first := Views(all);
    ghost var commits := set p, k | 0 <= p < |first| && 0 <= k < |first[p].log| :: first[p].log[k].id;
    while true
      invariant SysOk(book, Views(all)) && CommitsWithin(Views(all), commits) && Later(first, Views(all))
      invariant Final(book, AllOps(Views(all))) == Final(book, AllOps(first))
      decreases Missing(Universe(commits), Views(all))
    {
      ghost var start := Views(all);
      var changed := Round(book, all, commits);
      LaterTransitive(first, start, Views(all));
      FinalFix(book, AllOps(start));
      if !changed { break; }
    }
    RestIsSettled(book, Views(all));
    RestIsSolventIff(book, Views(all));
    forall i | 0 <= i < |all| ensures Ops(Views(all)[i]) == AllOps(Views(all)) { CaughtUpOps(book, Views(all), i); }
  }

  lemma {:induction false} LaterTransitive(x: seq<Rep>, y: seq<Rep>, z: seq<Rep>)
    requires Later(x, y) && Later(y, z)
    ensures Later(x, z)
  {
  }

  method Round(ghost book: Book, all: seq<Replica>, ghost commits: set<nat>) returns (changed: bool)
    requires Separate(all) && SysOk(book, Views(all)) && CommitsWithin(Views(all), commits)
    modifies all
    ensures SysOk(book, Views(all)) && CommitsWithin(Views(all), commits) && Later(old(Views(all)), Views(all))
    ensures AllOps(Views(all)) == Fix(book, AllOps(old(Views(all))), 0)
    ensures !changed ==> AllOps(Views(all)) == AllOps(old(Views(all)))
    ensures changed ==> Missing(Universe(commits), Views(all)) < Missing(Universe(commits), old(Views(all)))
    ensures !changed ==> AtRest(Views(all))
  {
    ghost var start := Views(all);
    var grew := MergeAll(book, all);
    ghost var mid := Views(all);
    var repaired := RepairAll(book, all);
    changed := grew || repaired;
    RoundShrinks(book, commits, start, mid, Views(all), grew, repaired);
    RoundFixes(book, start, mid, Views(all), grew, repaired);
  }

  lemma {:induction false} RoundFixes(book: Book, start: seq<Rep>, mid: seq<Rep>, now: seq<Rep>,
                                      grew: bool, repaired: bool)
    requires AllMerged(start, mid, grew) && AllRepaired(mid, now, repaired) && FixedUpTo(book, mid, now, |mid|)
    requires SysOk(book, mid) && SysOk(book, now) && forall i :: 0 <= i < |mid| ==> CaughtUp(mid, i)
    ensures AllOps(now) == Fix(book, AllOps(start), 0)
    ensures !repaired ==> AllOps(now) == AllOps(start)
  {
    assert AllOps(mid) == AllOps(start);
    forall j | 0 <= j < |now| ensures Ops(now[j]) == Fix(book, AllOps(start), 0) { CaughtUpOps(book, mid, j); }
    if now == [] {
      FixAdds(book, {}, 0);
    } else {
      AllOpsAre(book, now, Fix(book, AllOps(start), 0));
    }
  }

  lemma {:induction false} RoundShrinks(book: Book, commits: set<nat>, start: seq<Rep>, mid: seq<Rep>, now: seq<Rep>,
                                        grew: bool, repaired: bool)
    requires AllMerged(start, mid, grew) && AllRepaired(mid, now, repaired)
    requires SysOk(book, now) && CommitsWithin(start, commits)
    ensures CommitsWithin(now, commits) && Later(start, now)
    ensures grew || repaired ==> Missing(Universe(commits), now) < Missing(Universe(commits), start)
  {
    forall j | 0 <= j < |now| ensures start[j].ids <= now[j].ids <= Universe(commits) {
      IdsWithin(book, now, commits, j);
    }
    MissingShrinks(Universe(commits), start, now);
    if grew {
      var j :| 0 <= j < |start| && mid[j].ids != start[j].ids;
      assert now[j].ids != start[j].ids;
    } else if repaired {
      var j :| 0 <= j < |start| && now[j].ids != mid[j].ids;
      assert now[j].ids != start[j].ids;
    }
  }

  lemma {:induction false} RestIsSettled(book: Book, reps: seq<Rep>)
    requires SysOk(book, reps) && AtRest(reps)
    ensures Settled(book, reps)
  {
    forall i, j | 0 <= i < |reps| && 0 <= j < |reps|
      ensures Ops(reps[i]) == Ops(reps[j]) && reps[i].balance == reps[j].balance
    {
      CaughtUpAgree(book, reps, i, j);
    }
    forall i | 0 <= i < |reps| ensures Total(reps[i].balance) == book.accounts * book.initial {
      assert RepOk(book, reps, i);
    }
  }

  lemma {:induction false} TotalNonNegative(b: seq<int>)
    requires forall a :: 0 <= a < |b| ==> b[a] >= 0
    ensures Total(b) >= 0
  {
    if b == [] {
    } else {
      TotalNonNegative(b[1..]);
    }
  }

  // At rest no account is negative iff the accounts were not opened in debt.
  lemma {:induction false} RestIsSolventIff(book: Book, reps: seq<Rep>)
    requires SysOk(book, reps) && AtRest(reps)
    ensures Solvent(reps) <==> book.initial >= 0 || book.accounts == 0 || reps == []
  {
    if book.initial >= 0 {
      forall i, a | 0 <= i < |reps| && 0 <= a < |reps[i].balance| ensures reps[i].balance[a] >= 0 {
        SysShape(book, reps, i, i);
        assert NothingToRepair(reps[i]);
        if Open(reps[i], a) == {} { SettledNonNegative(book, reps, i, a); }
      }
    } else if book.accounts == 0 {
      forall i | 0 <= i < |reps| ensures reps[i].balance == [] { SysShape(book, reps, i, i); }
    } else if reps != [] {
      assert RepOk(book, reps, 0);
      SysShape(book, reps, 0, 0);
      DebtShows(book, reps[0].balance);
    }
  }

  lemma {:induction false} DebtShows(book: Book, b: seq<int>)
    requires book.initial < 0 < book.accounts == |b| && Total(b) == book.accounts * book.initial
    ensures exists a :: 0 <= a < |b| && b[a] < 0
  {
    assert book.accounts * book.initial < 0;
    if forall a :: 0 <= a < |b| ==> b[a] >= 0 { TotalNonNegative(b); }
  }
}
