/** The eventually consistent bank: a grow-only log per replica, gossip by union of ids, an
    incrementally maintained fold, and deterministic compensations.

    This file holds the data, the two ways an operation reaches a view (Deliver and
    Compensate), and the facts about a single view.
 */
module EcBank {

  // Bit 63 marks the id of a compensation.
  const COMP: nat := 0x8000_0000_0000_0000

  const MAX_REPLICAS: nat := 64

  datatype Op = Op(id: nat, parent: nat, src: nat, dst: nat, amt: int)

  datatype Rep = Rep(log: seq<Op>, published: nat, applied: seq<Op>, ids: set<nat>, parents: set<nat>,
                     debits: seq<set<nat>>, byId: map<nat, Op>, cursor: seq<nat>, balance: seq<int>,
                     seqno: nat)

  function InitialRep(accounts: nat, initial: int): Rep {
    Rep([], 0, [], {}, {}, seq(accounts, _ => {}), map[], seq(MAX_REPLICAS, _ => 0),
        seq(accounts, _ => initial), 0)
  }

  // (seq << 8) | rid
  function CommitId(seqno: nat, rid: nat): nat {
    seqno * 256 + rid
  }

  // The operation that undoes c; its id is c's id with bit 63 set.
  function CompOf(c: Op): Op {
    Op(if c.id < COMP then c.id + COMP else c.id, c.id, c.src, c.dst, -c.amt)
  }

  function Moved(balance: seq<int>, o: Op): (b: seq<int>)
    requires o.src < |balance| && o.dst < |balance|
    ensures |b| == |balance|
  {
    var b := balance[o.src := balance[o.src] - o.amt];
    b[o.dst := b[o.dst] + o.amt]
  }

  predicate InBook(r: Rep, o: Op) {
    |r.balance| == |r.debits| && o.src < |r.balance| && o.dst < |r.balance|
  }

  // Applying an operation: a transfer becomes a debit that may be compensated, a compensation marks its parent.
  function ApplyOp(r: Rep, o: Op): Rep
    requires InBook(r, o)
  {
    var r1 := r.(balance := Moved(r.balance, o));
    if o.amt > 0
    then r1.(debits := r.debits[o.src := r.debits[o.src] + {o.id}], byId := r.byId[o.id := o])
    else r1.(parents := r.parents + {o.parent})
  }

  // Union by id: an operation already there changes nothing.
  function Deliver(r: Rep, o: Op): Rep
    requires InBook(r, o)
  {
    if o.id in r.ids then r
    else ApplyOp(r.(applied := r.applied + [o], ids := r.ids + {o.id}), o)
  }

  // Take the next record of producer p's log.
  function MergeOne(r: Rep, p: nat, log: seq<Op>): Rep
    requires p < |r.cursor| && r.cursor[p] < |log| && InBook(r, log[r.cursor[p]])
  {
    Deliver(r, log[r.cursor[p]]).(cursor := r.cursor[p := r.cursor[p] + 1])
  }

  // Append the compensation of culprit to the own log, publish it, apply it, and move the own
  // cursor to the end of the log.
  function Compensate(r: Rep, rid: nat, culprit: nat): Rep
    requires culprit in r.byId && InBook(r, r.byId[culprit]) && rid < |r.cursor|
  {
    var c := CompOf(r.byId[culprit]);
    var r1 := Deliver(r.(log := r.log + [c], published := |r.log| + 1), c);
    r1.(cursor := r1.cursor[rid := |r1.log|])
  }

  // The debits of account a that no applied compensation has undone.
  function Open(r: Rep, a: nat): set<nat>
    requires a < |r.debits|
  {
    r.debits[a] - r.parents
  }

  predicate IsMax(s: set<nat>, m: nat) {
    m in s && forall x :: x in s ==> x <= m
  }

  lemma {:induction false} MaxExists(s: set<nat>)
    requires s != {}
    ensures exists m :: IsMax(s, m)
  {
    var x :| x in s;
    if s != {x} {
      MaxExists(s - {x});
      var m :| IsMax(s - {x}, m);
      var k := if x < m then m else x;
      forall y | y in s ensures y <= k { assert y == x || y in s - {x}; }
      assert IsMax(s, k);
    } else {
      assert IsMax(s, x);
    }
  }

  /* ----- the reference: a fold over the set of operations ----- */

  function Delta(o: Op, a: nat): int {
    (if o.dst == a then o.amt else 0) - (if o.src == a then o.amt else 0)
  }

  ghost function Fold(s: set<Op>, a: nat): int {
    if s == {} then 0 else var x :| x in s; Delta(x, a) + Fold(s - {x}, a)
  }

  lemma {:induction false} FoldSplit(s: set<Op>, x: Op, a: nat)
    requires x in s
    ensures Fold(s, a) == Delta(x, a) + Fold(s - {x}, a)
    decreases |s|
  {
    var y :| y in s && Fold(s, a) == Delta(y, a) + Fold(s - {y}, a);
    if y != x {
      FoldSplit(s - {y}, x, a);
      FoldSplit(s - {x}, y, a);
      assert s - {y} - {x} == s - {x} - {y};
    }
  }

  function Ops(r: Rep): set<Op> {
    set o | o in r.applied
  }

  function Total(balance: seq<int>): int {
    if balance == [] then 0 else balance[0] + Total(balance[1..])
  }

  lemma {:induction false} TotalUpdate(b: seq<int>, i: nat, v: int)
    requires i < |b|
    ensures Total(b[i := v]) == Total(b) - b[i] + v
  {
    if i > 0 {
      TotalUpdate(b[1..], i - 1, v);
      assert b[i := v][1..] == b[1..][i - 1 := v];
    } else {
      assert b[i := v][1..] == b[1..];
    }
  }

  lemma {:induction false} MovedConserves(b: seq<int>, o: Op)
    requires o.src < |b| && o.dst < |b|
    ensures Total(Moved(b, o)) == Total(b)
  {
    var c := b[o.src := b[o.src] - o.amt];
    assert Total(c) == Total(b) - o.amt by { TotalUpdate(b, o.src, b[o.src] - o.amt); }
    assert Total(c[o.dst := c[o.dst] + o.amt]) == Total(c) + o.amt by { TotalUpdate(c, o.dst, c[o.dst] + o.amt); }
  }

  lemma {:induction false} MovedAt(b: seq<int>, o: Op, a: nat)
    requires o.src < |b| && o.dst < |b| && a < |b|
    ensures Moved(b, o)[a] == b[a] + Delta(o, a)
  {
  }

  /* ----- one view ----- */

  datatype Book = Book(accounts: nat, initial: int)

  // Commits take money from src; their ids leave bit 63 clear.  Compensations carry it.
  predicate WellFormed(book: Book, o: Op) {
    && o.src < book.accounts && o.dst < book.accounts
    && (if o.id < COMP then o.amt > 0 else (o.amt < 0 && o.id == o.parent + COMP))
  }

  predicate DistinctIds(ops: seq<Op>) {
    forall j, k :: 0 <= j < k < |ops| ==> ops[j].id != ops[k].id
  }

  // The index structures say what the applied operations say.
  predicate Holds(r: Rep, id: nat) {
    exists o :: o in r.applied && o.id == id
  }

  predicate IdsOk(r: Rep) {
    && (forall o :: o in r.applied ==> o.id in r.ids)
    && (forall id {:trigger Holds(r, id)} :: id in r.ids ==> Holds(r, id))
  }

  predicate ParentsOk(r: Rep) {
    && (forall q :: q in r.parents ==> q + COMP in r.ids)
    && (forall o :: o in r.applied && o.id >= COMP ==> o.parent in r.parents)
  }

  // An applied commit is in the debit set of its source account and can be looked up.
  predicate Indexed(r: Rep, o: Op) {
    o.src < |r.debits| && o.id in r.debits[o.src] && o.id in r.byId && r.byId[o.id] == o
  }

  // A debit of account a is the id of an applied commit from there.
  predicate DebitOf(r: Rep, a: nat, id: nat) {
    id in r.byId && r.byId[id] in r.applied && r.byId[id].id == id && r.byId[id].src == a && id < COMP
  }

  predicate DebitsOk(r: Rep) {
    && (forall o :: o in r.applied && o.id < COMP ==> Indexed(r, o))
    && (forall a, id :: 0 <= a < |r.debits| && id in r.debits[a] ==> DebitOf(r, a, id))
  }

  ghost predicate ViewOk(book: Book, r: Rep) {
    && |r.balance| == book.accounts && |r.debits| == book.accounts && |r.cursor| == MAX_REPLICAS
    && r.published == |r.log|
    && DistinctIds(r.applied)
    && (forall o :: o in r.applied ==> WellFormed(book, o))
    && IdsOk(r) && ParentsOk(r) && DebitsOk(r)
    && (forall a :: 0 <= a < book.accounts ==> r.balance[a] == book.initial + Fold(Ops(r), a))
  }

  predicate Conserved(book: Book, r: Rep) {
    Total(r.balance) == book.accounts * book.initial
  }

  lemma {:induction false} TotalConstant(n: nat, v: int)
    ensures Total(seq(n, _ => v)) == n * v
  {
    if n == 0 {
    } else {
      TotalConstant(n - 1, v);
      assert seq(n, _ => v)[1..] == seq(n - 1, _ => v);
    }
  }

  lemma {:induction false} InitialViewOk(book: Book)
    ensures ViewOk(book, InitialRep(book.accounts, book.initial))
    ensures Conserved(book, InitialRep(book.accounts, book.initial))
  {
    TotalConstant(book.accounts, book.initial);
    assert Ops(InitialRep(book.accounts, book.initial)) == {};
  }

  // A view stays the fold of its operations whatever arrives, in whatever order.
  lemma {:induction false} DeliverKeepsView(book: Book, r: Rep, o: Op)
    requires ViewOk(book, r) && WellFormed(book, o)
    ensures ViewOk(book, Deliver(r, o))
    ensures Ops(Deliver(r, o)) == if o.id in r.ids then Ops(r) else Ops(r) + {o}
    ensures Deliver(r, o).ids == r.ids + {o.id}
  {
    if o.id !in r.ids {
      NewOpKeepsView(book, r, Deliver(r, o), o);
    } else {
      assert r.ids + {o.id} == r.ids;
    }
  }

  lemma {:induction false} DeliverConserves(book: Book, r: Rep, o: Op)
    requires InBook(r, o)
    ensures Total(Deliver(r, o).balance) == Total(r.balance)
  {
    if o.id !in r.ids { MovedConserves(r.balance, o); }
  }

  // d is r after o, field by field.
  predicate Added(r: Rep, d: Rep, o: Op) {
    && InBook(r, o)
    && d.applied == r.applied + [o] && d.ids == r.ids + {o.id} && d.balance == Moved(r.balance, o)
    && d.log == r.log && d.published == r.published && d.cursor == r.cursor
    && d.parents == (if o.amt > 0 then r.parents else r.parents + {o.parent})
    && (if o.amt > 0
        then d.debits == r.debits[o.src := r.debits[o.src] + {o.id}] && d.byId == r.byId[o.id := o]
        else d.debits == r.debits && d.byId == r.byId)
  }

  lemma {:induction false} NewOpKeepsView(book: Book, r: Rep, d: Rep, o: Op)
    requires ViewOk(book, r) && WellFormed(book, o) && o.id !in r.ids && Added(r, d, o)
    ensures ViewOk(book, d) && Ops(d) == Ops(r) + {o}
  {
    assert IdsOk(d) by { DeliverKeepsIds(r, d, o); }
    assert ParentsOk(d) by { DeliverKeepsParents(book, r, d, o); }
    assert DebitsOk(d) by { DeliverKeepsDebits(book, r, d, o); }
    DeliverKeepsApplied(book, r, d, o);
    DeliverFolds(book, r, d, o);
  }

  lemma {:induction false} DeliverFolds(book: Book, r: Rep, d: Rep, o: Op)
    requires |r.balance| == book.accounts && WellFormed(book, o) && o !in r.applied
    requires forall a :: 0 <= a < book.accounts ==> r.balance[a] == book.initial + Fold(Ops(r), a)
    requires d.applied == r.applied + [o] && d.balance == Moved(r.balance, o)
    ensures forall a :: 0 <= a < book.accounts ==> d.balance[a] == book.initial + Fold(Ops(d), a)
  {
    forall a | 0 <= a < book.accounts ensures d.balance[a] == book.initial + Fold(Ops(d), a) {
      MovedAt(r.balance, o, a);
      FoldSplit(Ops(d), o, a);
      assert Ops(d) - {o} == Ops(r);
    }
  }

  lemma {:induction false} DeliverKeepsApplied(book: Book, r: Rep, d: Rep, o: Op)
    requires IdsOk(r) && DistinctIds(r.applied) && o.id !in r.ids && d.applied == r.applied + [o]
    requires WellFormed(book, o) && forall x :: x in r.applied ==> WellFormed(book, x)
    ensures DistinctIds(d.applied) && Ops(d) == Ops(r) + {o}
    ensures forall x :: x in d.applied ==> WellFormed(book, x)
  {
    forall j | 0 <= j < |r.applied| ensures r.applied[j].id != o.id { assert r.applied[j] in r.applied; }
  }

  lemma {:induction false} DeliverKeepsIds(r: Rep, d: Rep, o: Op)
    requires IdsOk(r) && d.applied == r.applied + [o] && d.ids == r.ids + {o.id}
    ensures IdsOk(d)
  {
    forall id | id in d.ids ensures Holds(d, id) {
      if id == o.id {
        assert o in d.applied;
      } else {
        assert Holds(r, id);
        var x :| x in r.applied && x.id == id;
        assert x in d.applied;
      }
    }
  }

  lemma {:induction false} DeliverKeepsParents(book: Book, r: Rep, d: Rep, o: Op)
    requires ParentsOk(r) && WellFormed(book, o)
    requires d.applied == r.applied + [o] && d.ids == r.ids + {o.id}
    requires d.parents == if o.amt > 0 then r.parents else r.parents + {o.parent}
    ensures ParentsOk(d)
  {
  }

  lemma {:induction false} DeliverKeepsDebits(book: Book, r: Rep, d: Rep, o: Op)
    requires IdsOk(r) && DebitsOk(r) && WellFormed(book, o) && |r.debits| == book.accounts && o.id !in r.ids
    requires Added(r, d, o)
    ensures DebitsOk(d)
  {
    forall x | x in d.applied && x.id < COMP ensures Indexed(d, x) {
      if x in r.applied { assert Indexed(r, x) && x.id in r.ids; }
    }
    forall a, id | 0 <= a < |d.debits| && id in d.debits[a] ensures DebitOf(d, a, id) {
      if id in r.debits[a] {
        assert DebitOf(r, a, id) && r.byId[id] in r.applied && id in r.ids;
        assert r.byId[id] in d.applied;
      } else {
        assert o in d.applied;
      }
    }
  }

  // A compensation is applied exactly when its culprit is marked as repaired.
  lemma {:induction false} CompAppliedIffRepaired(book: Book, r: Rep, q: nat)
    requires ViewOk(book, r)
    ensures q + COMP in r.ids <==> q in r.parents
  {
    if q + COMP in r.ids {
      assert Holds(r, q + COMP);
      var o :| o in r.applied && o.id == q + COMP;
    }
  }

  /* ----- no account of a closed view is in deficit once its debits are repaired ----- */

  predicate HasCommit(s: set<Op>, o: Op) {
    exists c :: c in s && c.id < COMP && o == CompOf(c)
  }

  // Equal ids mean equal operations, and every compensation is next to the commit it undoes.
  predicate Closed(s: set<Op>) {
    && (forall x, y :: x in s && y in s && x.id == y.id ==> x == y)
    && (forall o :: o in s && o.id < COMP ==> o.amt > 0)
    && (forall o :: o in s && o.id >= COMP ==> HasCommit(s, o))
  }

  predicate Repaired(s: set<Op>, a: nat) {
    forall c :: c in s && c.id < COMP && c.src == a ==> CompOf(c) in s
  }

  lemma {:induction false} FoldNonNegative(s: set<Op>, a: nat)
    requires forall o :: o in s ==> Delta(o, a) >= 0
    ensures Fold(s, a) >= 0
    decreases |s|
  {
    if s == {} {
    } else {
      var x :| x in s;
      FoldSplit(s, x, a);
      FoldNonNegative(s - {x}, a);
    }
  }

  lemma {:induction false} DropPair(s: set<Op>, rest: set<Op>, o: Op, c: Op, a: nat)
    requires Closed(s) && Repaired(s, a)
    requires o in s && c in s && c.id < COMP && o == CompOf(c) && rest == s - {o} - {c}
    ensures Closed(rest) && Repaired(rest, a)
  {
    forall x | x in rest && x.id >= COMP ensures HasCommit(rest, x) {
      assert HasCommit(s, x);
      var y :| y in s && y.id < COMP && x == CompOf(y);
      assert y in rest;
    }
    forall x | x in rest && x.id < COMP && x.src == a ensures CompOf(x) in rest {
      assert CompOf(x) in s;
      assert x.id != c.id;
    }
  }

  lemma {:induction false} PairCancels(s: set<Op>, o: Op, c: Op, a: nat)
    requires o in s && c in s && c.id < COMP && o == CompOf(c)
    ensures Fold(s - {o} - {c}, a) == Fold(s, a)
  {
    FoldSplit(s, o, a);
    FoldSplit(s - {o}, c, a);
  }

  lemma {:induction false} RepairedIsNonNegative(s: set<Op>, a: nat)
    requires Closed(s) && Repaired(s, a)
    ensures Fold(s, a) >= 0
    decreases |s|
  {
    if o :| o in s && o.id >= COMP {
      assert HasCommit(s, o);
      var c :| c in s && c.id < COMP && o == CompOf(c);
      var rest := s - {o} - {c};
      DropPair(s, rest, o, c, a);
      PairCancels(s, o, c, a);
      assert rest < s;
      RepairedIsNonNegative(rest, a);
    } else {
      NoCompensations(s, a);
    }
  }

  lemma {:induction false} NoCompensations(s: set<Op>, a: nat)
    requires Closed(s) && Repaired(s, a) && forall o :: o in s ==> o.id < COMP
    ensures Fold(s, a) >= 0
  {
    forall x | x in s ensures Delta(x, a) >= 0 {
      assert x.src == a ==> CompOf(x) in s;
      assert CompOf(x).id >= COMP;
    }
    FoldNonNegative(s, a);
  }
}
