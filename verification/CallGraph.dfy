/** Modules of functions with direct calls, what running them means, and the collection of the
    functions reachable from a transaction.
 */
module CallGraph {
  import opened Options

  // A function is named by the program, or is the clone of one so named.
  datatype Name = Name(id: nat, clone: bool)

  // Straight-line operations, two-way branches and direct calls, each from a numbered call site.
  datatype Code =
    | Ret
    | Op(k: nat, next: Code)
    | Branch(k: nat, yes: Code, no: Code)
    | Call(callee: Name, site: nat, next: Code)

  // decl: no body. runtime: named tm_*. tx: annotated shared. outside: a thread entry or main.
  // ptrArg, traced: some argument is a pointer, some argument was traced to transactional data.
  datatype Attr = Attr(decl: bool, runtime: bool, tx: bool, outside: bool, ptrArg: bool, traced: bool)

  datatype Func = Func(attr: Attr, body: Code)

  type Mod = map<Name, Func>

  function Callees(c: Code): set<Name> {
    match c
    case Ret => {}
    case Op(_, next) => Callees(next)
    case Branch(_, yes, no) => Callees(yes) + Callees(no)
    case Call(g, _, next) => {g} + Callees(next)
  }

  predicate Defined(m: Mod, f: Name) {
    f in m && !m[f].attr.decl
  }

  // Every callee is at least declared, and declarations have no body.
  predicate WellFormed(m: Mod) {
    forall f :: f in m ==> Callees(m[f].body) <= m.Keys && (m[f].attr.decl ==> m[f].body == Ret)
  }

  predicate Edge(m: Mod, f: Name, g: Name) {
    Defined(m, f) && Defined(m, g) && g in Callees(m[f].body)
  }

  ghost predicate ReachesIn(m: Mod, f: Name, g: Name, n: nat)
    decreases n
  {
    if n == 0 then f == g else exists h: Name :: ReachesIn(m, f, h, n - 1) && Edge(m, h, g)
  }

  ghost predicate Reaches(m: Mod, f: Name, g: Name) {
    exists n: nat :: ReachesIn(m, f, g, n)
  }

  lemma {:induction false} ReachesNext(m: Mod, f: Name, h: Name, g: Name)
    requires Reaches(m, f, h) && Edge(m, h, g)
    ensures Reaches(m, f, g)
  {
    var n: nat :| ReachesIn(m, f, h, n);
    assert ReachesIn(m, f, g, n + 1);
  }

  // A set that holds f and is closed under calls holds all that f reaches.
  lemma {:induction false} ClosedHoldsReach(m: Mod, s: set<Name>, f: Name, g: Name, n: nat)
    requires f in s && (forall h, k | h in s && k in m && Edge(m, h, k) :: k in s) && ReachesIn(m, f, g, n)
    ensures g in s
    decreases n
  {
    if n == 0 {
    } else {
      var h: Name :| ReachesIn(m, f, h, n - 1) && Edge(m, h, g);
      ClosedHoldsReach(m, s, f, h, n - 1);
    }
  }

  // Called from inside `from`, defined, and not yet seen: never.
  ghost predicate Followed(m: Mod, from: set<Name>, seen: set<Name>) {
    forall h, k | h in from && k in m && Edge(m, h, k) :: k in seen
  }

  /* ----- collection ----- */

  // The calls of a body in instruction order.
  function Calls(c: Code): (r: seq<Name>)
    ensures forall g :: g in r <==> g in Callees(c)
  {
    match c
    case Ret => []
    case Op(_, next) => Calls(next)
    case Branch(_, yes, no) => Calls(yes) + Calls(no)
    case Call(g, _, next) => [g] + Calls(next)
  }

  class Collector {
    var visited: set<Name>
    var reachable: set<Name>

    constructor ()
      ensures visited == {} && reachable == {}
    {
      visited, reachable := {}, {};
    }

    method Build(m: Mod, f: Name, ghost root: Name)
      requires Defined(m, f) && Reaches(m, root, f) && visited <= m.Keys
      modifies this
      ensures old(visited) + {f} <= visited <= m.Keys
      ensures reachable == old(reachable) + (visited - old(visited))
      ensures forall g :: g in visited - old(visited) ==> Reaches(m, root, g)
      ensures Followed(m, visited - old(visited), visited)
      decreases m.Keys - visited
    {
      if f in visited {
        return;
      }
      ghost var seen, had := visited, reachable;
      visited := visited + {f};
      reachable := reachable + {f};
      ghost var entered := visited;
      var calls := Calls(m[f].body);
      for i := 0 to |calls|
        invariant entered <= visited <= m.Keys && reachable == had + (visited - seen)
        invariant forall g :: g in visited - seen ==> Reaches(m, root, g)
        invariant forall j :: 0 <= j < i && Defined(m, calls[j]) ==> calls[j] in visited
        invariant Followed(m, visited - entered, visited)
      {
        var g := calls[i];
        if Defined(m, g) {
          ghost var before := visited;
          ReachesNext(m, root, f, g);
          Build(m, g, root);
          FollowedGrows(m, entered, before, visited);
        }
      }
      FollowedCurrent(m, seen, f, visited);
    }

    // A fresh visited set for each root.
    method Collect(m: Mod, tx: Name)
      requires Defined(m, tx)
      modifies this
      ensures forall g :: g in reachable <==> g in old(reachable) || Reaches(m, tx, g)
    {
      visited := {};
      assert ReachesIn(m, tx, tx, 0);
      Build(m, tx, tx);
      forall g | Reaches(m, tx, g) ensures g in visited {
        var n: nat :| ReachesIn(m, tx, g, n);
        ClosedHoldsReach(m, visited, tx, g, n);
      }
    }
  }

  lemma {:induction false} FollowedGrows(m: Mod, a: set<Name>, b: set<Name>, c: set<Name>)
    requires a <= b <= c && Followed(m, b - a, b) && Followed(m, c - b, c)
    ensures Followed(m, c - a, c)
  {
    forall h, k | h in c - a && k in m && Edge(m, h, k) ensures k in c {
      if h in b { assert h in b - a; } else { assert h in c - b; }
    }
  }

  lemma {:induction false} FollowedCurrent(m: Mod, seen: set<Name>, f: Name, visited: set<Name>)
    requires Defined(m, f) && Followed(m, visited - (seen + {f}), visited)
    requires forall j :: 0 <= j < |Calls(m[f].body)| && Defined(m, Calls(m[f].body)[j]) ==>
               Calls(m[f].body)[j] in visited
    ensures Followed(m, visited - seen, visited)
  {
    forall h, k | h in visited - seen && k in m && Edge(m, h, k) ensures k in visited {
      if h == f {
        assert k in Calls(m[f].body);
      } else {
        assert h in visited - (seen + {f});
      }
    }
  }

  predicate IsTx(m: Mod, f: Name) {
    Defined(m, f) && m[f].attr.tx
  }

  // Reachable from some transaction.
  ghost predicate TxReaches(m: Mod, g: Name) {
    exists tx :: IsTx(m, tx) && Reaches(m, tx, g)
  }

  method CollectAll(m: Mod) returns (reach: set<Name>)
    ensures forall g :: g in reach <==> TxReaches(m, g)
  {
    var c := new Collector();
    var todo := m.Keys;
    while todo != {}
      invariant todo <= m.Keys
      invariant forall g :: g in c.reachable <==> exists tx :: tx !in todo && IsTx(m, tx) && Reaches(m, tx, g)
      decreases todo
    {
      var f :| f in todo;
      ghost var left, before := todo, c.reachable;
      todo := todo - {f};
      if IsTx(m, f) {
        c.Collect(m, f);
      }
      forall g ensures g in c.reachable <==> exists tx :: tx !in todo && IsTx(m, tx) && Reaches(m, tx, g) {
        if g in before { var tx :| tx !in left && IsTx(m, tx) && Reaches(m, tx, g); assert tx !in todo; }
      }
    }
    reach := c.reachable;
  }

  /* ----- meaning ----- */

  // What operations, branches and declared-only functions do to the state.
  datatype Sem = Sem(step: (nat, nat) -> nat, test: (nat, nat) -> bool, extern: (Name, nat) -> nat)

  // Runs a body with at most fuel nested calls; None when they do not suffice.
  function Eval(sem: Sem, m: Mod, fuel: nat, c: Code, w: nat): Option<nat>
    decreases fuel, c
  {
    match c
    case Ret => Some(w)
    case Op(k, next) => Eval(sem, m, fuel, next, sem.step(k, w))
    case Branch(k, yes, no) => if sem.test(k, w) then Eval(sem, m, fuel, yes, w) else Eval(sem, m, fuel, no, w)
    case Call(g, _, next) =>
      if !Defined(m, g) then Eval(sem, m, fuel, next, sem.extern(g, w))
      else if fuel == 0 then None
      else match Eval(sem, m, fuel - 1, m[g].body, w)
        case None => None
        case Some(v) => Eval(sem, m, fuel, next, v)
  }
}
