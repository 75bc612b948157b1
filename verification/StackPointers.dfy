/** Two analyses that decide whether a pointer is a stack address, so that the access stays
    uninstrumented: a depth-bounded trace, and a memoised search that cuts cycles.
 */
module StackPointers {

  // A pointer value inside a function: a stack slot, an offset or cast of another value, a parameter,
  // or anything else (a load, a global, a heap block).
  datatype Val = Alloca | Gep(base: Val) | Cast(base: Val) | Param(no: nat) | Other

  datatype Site = Site(caller: nat, callee: nat, actuals: seq<Val>)

  // entries: functions entered from outside the module.
  datatype Prog = Prog(arity: map<nat, nat>, sites: seq<Site>, entries: set<nat>)

  datatype Arg = Arg(fn: nat, no: nat)

  function Base(v: Val): (r: Val)
    ensures !r.Gep? && !r.Cast?
  {
    match v
    case Gep(b) => Base(b)
    case Cast(b) => Base(b)
    case _ => v
  }

  ghost predicate WellFormed(p: Prog) {
    forall s :: s in p.sites ==>
      && s.caller in p.arity && s.callee in p.arity && |s.actuals| == p.arity[s.callee]
      && forall v :: v in s.actuals && Base(v).Param? ==> Base(v).no < p.arity[s.caller]
  }

  /* ----- executions ----- */

  // A chain of direct calls that starts at an entry function.
  datatype Frame = Entry(fn: nat) | Called(site: Site, parent: Frame)

  function Fn(fr: Frame): nat {
    match fr
    case Entry(f) => f
    case Called(s, _) => s.callee
  }

  predicate Executes(p: Prog, fr: Frame) {
    match fr
    case Entry(f) => f in p.entries && f in p.arity
    case Called(s, parent) => s in p.sites && s.caller == Fn(parent) && Executes(p, parent)
  }

  // Whether the value is an address of some frame's stack; what comes from outside is not.
  predicate IsStack(fr: Frame, v: Val) {
    match v
    case Alloca => true
    case Gep(b) => IsStack(fr, b)
    case Cast(b) => IsStack(fr, b)
    case Other => false
    case Param(i) =>
      match fr
      case Entry(_) => false
      case Called(s, parent) => i < |s.actuals| && IsStack(parent, s.actuals[i])
  }

  lemma {:induction false} BaseIsStack(fr: Frame, v: Val)
    ensures IsStack(fr, v) == IsStack(fr, Base(v))
  {
    match v
    case Gep(b) => BaseIsStack(fr, b);
    case Cast(b) => BaseIsStack(fr, b);
    case _ =>
  }

  // The value names only parameters that the function has.
  predicate InScope(p: Prog, f: nat, v: Val) {
    f in p.arity && (Base(v).Param? ==> Base(v).no < p.arity[f])
  }

  function Args(p: Prog): set<Arg> {
    set f, i | f in p.arity && 0 <= i < p.arity[f] :: Arg(f, i)
  }

  ghost predicate EntriesTakeNothing(p: Prog) {
    forall f :: f in p.entries && f in p.arity ==> p.arity[f] == 0
  }

  // Entry functions are not also called directly.
  ghost predicate EntriesUncalled(p: Prog) {
    forall s :: s in p.sites ==> s.callee !in p.entries
  }

  /* ----- the depth-bounded trace ----- */

  const DEPTH_LIMIT: nat := 10

  function StripCasts(v: Val): (r: Val)
    ensures !r.Cast?
  {
    if v.Cast? then StripCasts(v.base) else v
  }

  lemma {:induction false} StripIsStack(fr: Frame, v: Val)
    ensures IsStack(fr, v) == IsStack(fr, StripCasts(v))
  {
    if !v.Cast? {
    } else {
      StripIsStack(fr, v.base);
    }
  }

  predicate CallsInto(p: Prog, f: nat) {
    exists s :: s in p.sites && s.callee == f
  }

  predicate TracesFromAlloca(p: Prog, f: nat, v: Val, depth: nat)
    decreases DEPTH_LIMIT + 1 - depth
  {
    if depth > DEPTH_LIMIT then false
    else match StripCasts(v)
      case Alloca => true
      case Gep(b) => TracesFromAlloca(p, f, b, depth + 1)
      case Param(i) =>
        && CallsInto(p, f)
        && forall s | s in p.sites && s.callee == f ::
             i >= |s.actuals| || TracesFromAlloca(p, s.caller, s.actuals[i], depth + 1)
      case _ => false
  }

  // A trace that starts closer to the limit accepts less.
  lemma {:induction false} TraceShallower(p: Prog, f: nat, v: Val, depth: nat, less: nat)
    requires TracesFromAlloca(p, f, v, depth) && less <= depth
    ensures TracesFromAlloca(p, f, v, less)
    decreases DEPTH_LIMIT + 1 - depth
  {
    match StripCasts(v)
    case Gep(b) => TraceShallower(p, f, b, depth + 1, less + 1);
    case Param(i) =>
      forall s | s in p.sites && s.callee == f && i < |s.actuals|
        ensures TracesFromAlloca(p, s.caller, s.actuals[i], less + 1)
      {
        TraceShallower(p, s.caller, s.actuals[i], depth + 1, less + 1);
      }
    case _ =>
  }

  // The trace answers false for every parameter of an entry function.
  ghost predicate EntriesUntraced(p: Prog) {
    forall f, i :: f in p.entries && Arg(f, i) in Args(p) ==> !TracesFromAlloca(p, f, Param(i), 0)
  }

  // Then a true answer means a stack address in every execution.
  lemma {:induction false} TraceSound(p: Prog, fr: Frame, v: Val, depth: nat)
    requires WellFormed(p) && EntriesUntraced(p) && Executes(p, fr) && TracesFromAlloca(p, Fn(fr), v, depth)
    requires InScope(p, Fn(fr), v)
    ensures IsStack(fr, v)
    decreases DEPTH_LIMIT + 1 - depth
  {
    StripIsStack(fr, v);
    StripBase(v);
    match StripCasts(v)
    case Alloca =>
    case Gep(b) => TraceSound(p, fr, b, depth + 1);
    case Param(i) =>
      match fr {
        case Entry(f) =>
          assert Arg(f, i) in Args(p);
          TraceShallower(p, f, Param(i), depth, 0);
        case Called(s, parent) =>
          assert Executes(p, parent) && s.actuals[i] in s.actuals;
          TraceSound(p, parent, s.actuals[i], depth + 1);
      }
    case Other =>
  }

  ghost predicate TracesSound(p: Prog) {
    forall fr, v :: Executes(p, fr) && InScope(p, Fn(fr), v) && TracesFromAlloca(p, Fn(fr), v, 0) ==> IsStack(fr, v)
  }

  // The trace is right for every value and every execution iff it answers false for the parameters of
  // entry functions.
  lemma {:induction false} TraceSoundIff(p: Prog)
    requires WellFormed(p)
    ensures TracesSound(p) <==> EntriesUntraced(p)
  {
    if EntriesUntraced(p) {
      forall fr, v | Executes(p, fr) && InScope(p, Fn(fr), v) && TracesFromAlloca(p, Fn(fr), v, 0)
        ensures IsStack(fr, v)
      {
        TraceSound(p, fr, v, 0);
      }
    } else {
      var f, i :| f in p.entries && Arg(f, i) in Args(p) && TracesFromAlloca(p, f, Param(i), 0);
      var fr, v := Entry(f), Param(i);
      assert Executes(p, fr) && InScope(p, Fn(fr), v) && Fn(fr) == f && !IsStack(fr, v);
    }
  }

  // In particular it is right when nobody calls an entry function, or when these have no parameters.
  lemma {:induction false} UncalledEntriesUntraced(p: Prog)
    requires EntriesUncalled(p) || EntriesTakeNothing(p)
    ensures EntriesUntraced(p)
  {
    forall f, i | f in p.entries && Arg(f, i) in Args(p) ensures !TracesFromAlloca(p, f, Param(i), 0) {
      assert p.arity[f] > 0;
      assert EntriesUncalled(p) ==> !CallsInto(p, f);
    }
  }

  lemma {:induction false} StripBase(v: Val)
    ensures Base(StripCasts(v)) == Base(v)
  {
    if !v.Cast? {
    } else {
      StripBase(v.base);
    }
  }

  /* ----- the memoised search ----- */

  method GetBaseObjectNoLoad(v: Val) returns (r: Val)
    ensures r == Base(v)
  {
    r := v;
    while r.Gep? || r.Cast?
      invariant Base(r) == Base(v)
      decreases r
    {
      r := r.base;
    }
  }

  // The call site passes a stack slot of the caller, or a parameter of it of height below n.
  ghost predicate SiteDerived(p: Prog, s: Site, no: nat, n: nat)
    decreases n, 0
  {
    && no < |s.actuals|
    && var b := Base(s.actuals[no]);
       b.Alloca? || (b.Param? && n > 0 && Derived(p, Arg(s.caller, b.no), n - 1))
  }

  // Every call site passes a stack address, by a derivation of height at most n.
  ghost predicate Derived(p: Prog, a: Arg, n: nat)
    decreases n, 1
  {
    forall s | s in p.sites && s.callee == a.fn :: SiteDerived(p, s, a.no, n)
  }

  ghost predicate Derivable(p: Prog, a: Arg) {
    exists n: nat :: Derived(p, a, n)
  }

  lemma {:induction false} DerivedGrows(p: Prog, a: Arg, n: nat, k: nat)
    requires Derived(p, a, n) && n <= k
    ensures Derived(p, a, k)
    decreases n
  {
    forall s | s in p.sites && s.callee == a.fn ensures SiteDerived(p, s, a.no, k) {
      SiteGrows(p, s, a.no, n, k);
    }
  }

  lemma {:induction false} SiteGrows(p: Prog, s: Site, no: nat, n: nat, k: nat)
    requires SiteDerived(p, s, no, n) && n <= k
    ensures SiteDerived(p, s, no, k)
    decreases n, 0
  {
    var b := Base(s.actuals[no]);
    if b.Param? { DerivedGrows(p, Arg(s.caller, b.no), n - 1, k - 1); }
  }

  predicate Passes(s: Site, a: Arg, b: Arg) {
    s.callee == a.fn && a.no < |s.actuals| && Base(s.actuals[a.no]) == Param(b.no) && s.caller == b.fn
  }

  // At some call site, a receives the parameter b of the caller.
  ghost predicate DependsOn(p: Prog, a: Arg, b: Arg) {
    exists s :: s in p.sites && Passes(s, a, b)
  }

  lemma {:induction false} DependencyLower(p: Prog, a: Arg, b: Arg, n: nat)
    requires DependsOn(p, a, b) && Derived(p, a, n)
    ensures n > 0 && Derived(p, b, n - 1)
  {
    var s :| s in p.sites && Passes(s, a, b);
    assert SiteDerived(p, s, a.no, n);
  }

  ghost predicate Chain(p: Prog, c: seq<Arg>) {
    forall i, j :: 0 <= i < j < |c| && j == i + 1 ==> DependsOn(p, c[i], c[j])
  }

  lemma {:induction false} ChainLower(p: Prog, c: seq<Arg>, n: nat)
    requires Chain(p, c) && c != [] && Derived(p, c[0], n)
    ensures n >= |c| - 1 && Derived(p, c[|c| - 1], n - (|c| - 1))
    decreases |c|
  {
    if |c| <= 1 {
    } else {
      DependencyLower(p, c[0], c[1], n);
      ChainLower(p, c[1..], n - 1);
    }
  }

  lemma {:induction false} NoCycle(p: Prog, c: seq<Arg>, n: nat)
    requires Chain(p, c) && |c| > 1 && c[0] == c[|c| - 1]
    ensures !Derived(p, c[0], n)
    decreases n
  {
    if Derived(p, c[0], n) {
      ChainLower(p, c, n);
      NoCycle(p, c, n - (|c| - 1));
    }
  }

  // An argument that is met again on the chain of pending queries has no derivation.
  lemma {:induction false} PendingNotDerivable(p: Prog, pending: seq<Arg>, a: Arg)
    requires Chain(p, pending + [a]) && a in pending
    ensures !Derivable(p, a)
  {
    var k :| 0 <= k < |pending| && pending[k] == a;
    var c := (pending + [a])[k..];
    forall n: nat ensures !Derived(p, a, n) {
      NoCycle(p, c, n);
    }
  }

  function Elements(c: seq<Arg>): set<Arg> {
    set a | a in c
  }

  class Analysis {
    var cache: map<Arg, bool>
    var visited: set<Arg>

    constructor ()
      ensures cache == map[] && visited == {}
    {
      cache, visited := map[], {};
    }

    // The memo is exact, and only pending queries are visited without an answer.
    ghost predicate Valid(p: Prog, pending: seq<Arg>)
      reads this
    {
      && (forall a :: a in cache ==> (cache[a] <==> Derivable(p, a)))
      && visited == cache.Keys + Elements(pending)
      && (forall a :: a in pending ==> a !in cache)
    }

    method ArgIsAllocaDest(p: Prog, a: Arg, ghost pending: seq<Arg>) returns (all: bool)
      requires WellFormed(p) && a in Args(p) && Valid(p, pending) && Chain(p, pending + [a])
      modifies this
      ensures Valid(p, pending) && old(visited) <= visited
      ensures all <==> Derivable(p, a)
      decreases Args(p) - visited, 0
    {
      if a in cache {
        return cache[a];
      }
      if a in visited {
        PendingNotDerivable(p, pending, a);
        return false;
      }
      visited := visited + {a};
      ghost var inner := pending + [a];
      assert Elements(inner) == Elements(pending) + {a};
      ghost var height: nat := 0;
      all := true;
      var i := 0;
      while i < |p.sites| && all
        invariant 0 <= i <= |p.sites| && Valid(p, inner) && old(visited) + {a} <= visited
        invariant all ==> forall j :: 0 <= j < i && p.sites[j].callee == a.fn ==>
                            SiteDerived(p, p.sites[j], a.no, height)
        invariant !all ==> !Derivable(p, a)
      {
        ghost var before := height;
        all, height := SiteIsAllocaDest(p, a, p.sites[i], inner, height);
        forall j | 0 <= j < i && p.sites[j].callee == a.fn ensures SiteDerived(p, p.sites[j], a.no, height) {
          SiteGrows(p, p.sites[j], a.no, before, height);
        }
        i := i + 1;
      }
      assert all ==> Derived(p, a, height);
      cache := cache[a := all];
    }

    // One call site: false ends the search.
    method SiteIsAllocaDest(p: Prog, a: Arg, s: Site, ghost inner: seq<Arg>, ghost height: nat)
      returns (ok: bool, ghost height': nat)
      requires WellFormed(p) && a in Args(p) && Valid(p, inner) && Chain(p, inner)
      requires inner != [] && inner[|inner| - 1] == a && s in p.sites
      modifies this
      ensures Valid(p, inner) && old(visited) <= visited && height <= height'
      ensures ok && s.callee == a.fn ==> SiteDerived(p, s, a.no, height')
      ensures !ok ==> !Derivable(p, a)
      decreases Args(p) - visited, 1
    {
      ok, height' := true, height;
      if s.callee != a.fn {
        return;
      }
      if a.no >= |s.actuals| {
        SiteFails(p, a, s);
        ok := false;
        return;
      }
      var b := GetBaseObjectNoLoad(s.actuals[a.no]);
      if b.Alloca? {
        return;
      }
      if b.Param? {
        var x := Arg(s.caller, b.no);
        assert Passes(s, a, x);
        ok := ArgIsAllocaDest(p, x, inner);
        if ok {
          ghost var n: nat :| Derived(p, x, n);
          height' := if n + 1 > height then n + 1 else height;
          DerivedGrows(p, x, n, height' - 1);
        } else {
          forall n: nat ensures !Derived(p, a, n) {
            if Derived(p, a, n) { DependencyLower(p, a, x, n); }
          }
        }
        return;
      }
      SiteFails(p, a, s);
      ok := false;
    }
  }

  lemma {:induction false} SiteFails(p: Prog, a: Arg, s: Site)
    requires s in p.sites && s.callee == a.fn && (a.no >= |s.actuals| || Base(s.actuals[a.no]).Other?)
    ensures !Derivable(p, a)
  {
    forall n: nat ensures !Derived(p, a, n) {
      assert !SiteDerived(p, s, a.no, n);
    }
  }

  /* ----- the two analyses compared ----- */

  // What the trace accepts, the search derives.
  lemma {:induction false} TraceDerives(p: Prog, f: nat, v: Val, depth: nat)
    requires WellFormed(p) && InScope(p, f, v)
    requires TracesFromAlloca(p, f, v, depth)
    ensures Base(v).Alloca? || (Base(v).Param? && Derived(p, Arg(f, Base(v).no), DEPTH_LIMIT + 1 - depth))
    decreases DEPTH_LIMIT + 1 - depth
  {
    StripBase(v);
    match StripCasts(v)
    case Gep(b) =>
      TraceDerives(p, f, b, depth + 1);
      if Base(b).Param? { DerivedGrows(p, Arg(f, Base(b).no), DEPTH_LIMIT - depth, DEPTH_LIMIT + 1 - depth); }
    case Param(i) =>
      forall s | s in p.sites && s.callee == f ensures SiteDerived(p, s, i, DEPTH_LIMIT + 1 - depth) {
        TraceDerives(p, s.caller, s.actuals[i], depth + 1);
      }
    case _ =>
  }

  // Offsets on the way to the base.
  function Offsets(v: Val): nat {
    match v
    case Gep(b) => 1 + Offsets(b)
    case Cast(b) => Offsets(b)
    case _ => 0
  }

  lemma {:induction false} StripOffsets(v: Val)
    ensures Offsets(StripCasts(v)) == Offsets(v)
  {
    if !v.Cast? {
    } else {
      StripOffsets(v.base);
    }
  }

  // Steps through n levels of callers and their own stack slots, each with at most g offsets.
  function Hops(n: nat, g: nat): (r: nat)
    ensures r >= g + 1
  {
    g + 1 + if n == 0 then 0 else Hops(n - 1, g)
  }

  // Steps that the trace takes from v.
  function Reach(v: Val, n: nat, g: nat): nat {
    Offsets(v) + if Base(v).Param? then Hops(n, g) else 0
  }

  // One level of callers uses up one unit of height.
  lemma {:induction false} OneLevel(p: Prog, s: Site, i: nat, n: nat, below: nat, g: nat)
    requires WellFormed(p) && s in p.sites && SiteDerived(p, s, i, n) && below == if n > 0 then n - 1 else 0
    requires forall a :: a in s.actuals ==> Offsets(a) <= g
    ensures var a := s.actuals[i];
            && InScope(p, s.caller, a)
            && (Base(a).Alloca? || (Base(a).Param? && Derived(p, Arg(s.caller, Base(a).no), below)))
            && Reach(a, below, g) + 1 <= Hops(n, g)
  {
    var a := s.actuals[i];
    assert a in s.actuals;
  }

  // Conversely the trace accepts what the search derives, as long as the depth limit is not met
  // and every function with parameters is called.
  lemma {:induction false} TraceFinds(p: Prog, f: nat, v: Val, depth: nat, n: nat, g: nat)
    requires WellFormed(p) && InScope(p, f, v)
    requires forall h :: h in p.arity && p.arity[h] > 0 ==> CallsInto(p, h)
    requires forall s, a :: s in p.sites && a in s.actuals ==> Offsets(a) <= g
    requires Base(v).Alloca? || (Base(v).Param? && Derived(p, Arg(f, Base(v).no), n))
    requires depth + Reach(v, n, g) <= DEPTH_LIMIT
    ensures TracesFromAlloca(p, f, v, depth)
    decreases DEPTH_LIMIT + 1 - depth
  {
    StripBase(v);
    StripOffsets(v);
    match StripCasts(v)
    case Gep(b) => TraceFinds(p, f, b, depth + 1, n, g);
    case Param(i) =>
      var below := if n > 0 then n - 1 else 0;
      forall s | s in p.sites && s.callee == f ensures TracesFromAlloca(p, s.caller, s.actuals[i], depth + 1) {
        assert SiteDerived(p, s, i, n);
        OneLevel(p, s, i, n, below, g);
        TraceFinds(p, s.caller, s.actuals[i], depth + 1, below, g);
      }
    case _ =>
  }

  /* ----- when the answers are false, by call sites alone ----- */

  // A value inside a function, and one that the trace looks at after it.
  datatype Node = Node(fn: nat, val: Val)

  ghost predicate Follows(p: Prog, x: Node, y: Node) {
    match StripCasts(x.val)
    case Gep(b) => y == Node(x.fn, b)
    case Param(i) =>
      exists s :: s in p.sites && s.callee == x.fn && i < |s.actuals| && y == Node(s.caller, s.actuals[i])
    case _ => false
  }

  // Neither a stack slot nor anything to follow.
  predicate DeadEnd(p: Prog, x: Node) {
    StripCasts(x.val).Other? || (StripCasts(x.val).Param? && !CallsInto(p, x.fn))
  }

  // A way back from x that ends at such a value, or is longer than the trace may go.
  ghost predicate BadTrail(p: Prog, x: Node, t: seq<Node>, depth: nat) {
    && t != [] && t[0] == x && (forall i, j :: 0 <= i < j < |t| && j == i + 1 ==> Follows(p, t[i], t[j]))
    && (DeadEnd(p, t[|t| - 1]) || depth + |t| > DEPTH_LIMIT + 1)
  }

  lemma {:induction false} BadTrailFails(p: Prog, x: Node, t: seq<Node>, depth: nat)
    requires BadTrail(p, x, t, depth)
    ensures !TracesFromAlloca(p, x.fn, x.val, depth)
    decreases |t|
  {
    if |t| == 1 {
    } else {
      assert Follows(p, t[0], t[1]);
      BadTrailFails(p, t[1], t[1..], depth + 1);
    }
  }

  lemma {:induction false} ConsTrail(p: Prog, x: Node, y: Node, t: seq<Node>, depth: nat)
    requires Follows(p, x, y) && BadTrail(p, y, t, depth + 1)
    ensures BadTrail(p, x, [x] + t, depth)
  {
  }

  lemma {:induction false} FindBadTrail(p: Prog, x: Node, depth: nat) returns (t: seq<Node>)
    requires !TracesFromAlloca(p, x.fn, x.val, depth)
    ensures BadTrail(p, x, t, depth)
    decreases DEPTH_LIMIT + 1 - depth
  {
    if depth > DEPTH_LIMIT || DeadEnd(p, x) {
      t := [x];
    } else {
      var y := NextFalse(p, x, depth);
      var rest := FindBadTrail(p, y, depth + 1);
      ConsTrail(p, x, y, rest, depth);
      t := [x] + rest;
    }
  }

  lemma {:induction false} NextFalse(p: Prog, x: Node, depth: nat) returns (y: Node)
    requires !TracesFromAlloca(p, x.fn, x.val, depth) && depth <= DEPTH_LIMIT && !DeadEnd(p, x)
    ensures Follows(p, x, y) && !TracesFromAlloca(p, y.fn, y.val, depth + 1)
  {
    match StripCasts(x.val)
    case Gep(b) => y := Node(x.fn, b);
    case Param(i) =>
      var s :| s in p.sites && s.callee == x.fn && i < |s.actuals|
               && !TracesFromAlloca(p, s.caller, s.actuals[i], depth + 1);
      y := Node(s.caller, s.actuals[i]);
  }

  // The trace answers false iff some way back ends at a value that is no stack slot, or is too long.
  lemma {:induction false} TraceFalseIff(p: Prog, x: Node, depth: nat)
    ensures !TracesFromAlloca(p, x.fn, x.val, depth) <==> exists t :: BadTrail(p, x, t, depth)
  {
    if t :| BadTrail(p, x, t, depth) { BadTrailFails(p, x, t, depth); }
    if !TracesFromAlloca(p, x.fn, x.val, depth) { var t := FindBadTrail(p, x, depth); }
  }

  // Some call site passes neither a stack slot nor a parameter of the caller.
  ghost predicate BadSite(p: Prog, a: Arg) {
    exists s :: s in p.sites && s.callee == a.fn && (a.no >= |s.actuals| || Base(s.actuals[a.no]).Other?)
  }

  // The chain ends at such an argument, or comes back to an argument that is already on it.
  ghost predicate EndsBadly(p: Prog, c: seq<Arg>)
    requires c != []
  {
    BadSite(p, c[|c| - 1]) || c[|c| - 1] in c[..|c| - 1]
  }

  ghost predicate BadChain(p: Prog, a: Arg, c: seq<Arg>) {
    c != [] && c[0] == a && Chain(p, c) && EndsBadly(p, c)
  }

  lemma {:induction false} BadChainFails(p: Prog, a: Arg, c: seq<Arg>)
    requires BadChain(p, a, c)
    ensures !Derivable(p, a)
  {
    var last := c[|c| - 1];
    if BadSite(p, last) {
      var s :| s in p.sites && s.callee == last.fn && (last.no >= |s.actuals| || Base(s.actuals[last.no]).Other?);
      SiteFails(p, last, s);
    } else {
      var most := c[..|c| - 1];
      assert most + [last] == c;
      PendingNotDerivable(p, most, last);
    }
    forall n: nat ensures !Derived(p, a, n) {
      if Derived(p, a, n) { ChainLower(p, c, n); }
    }
  }

  // Going back from a along the pending chain: either every way ends at stack slots, or one ends badly.
  lemma {:induction false} Decide(p: Prog, pending: seq<Arg>, a: Arg) returns (c: seq<Arg>)
    requires WellFormed(p) && a in Args(p) && Chain(p, pending + [a]) && a !in pending
    ensures Derivable(p, a) || (pending + [a] <= c && Chain(p, c) && EndsBadly(p, c))
    decreases Args(p) - Elements(pending), 0
  {
    var path := pending + [a];
    assert Elements(path) == Elements(pending) + {a};
    var height: nat := 0;
    c := path;
    for i := 0 to |p.sites|
      invariant forall j :: 0 <= j < i && p.sites[j].callee == a.fn ==> SiteDerived(p, p.sites[j], a.no, height)
    {
      var s, before := p.sites[i], height;
      if s.callee == a.fn {
        var ok;
        ok, c, height := DecideSite(p, path, a, s, height);
        if !ok { return; }
        forall j | 0 <= j < i && p.sites[j].callee == a.fn ensures SiteDerived(p, p.sites[j], a.no, height) {
          SiteGrows(p, p.sites[j], a.no, before, height);
        }
      }
    }
    assert Derived(p, a, height);
  }

  lemma {:induction false} DecideSite(p: Prog, path: seq<Arg>, a: Arg, s: Site, height: nat)
    returns (ok: bool, c: seq<Arg>, height': nat)
    requires WellFormed(p) && a in Args(p) && Chain(p, path) && path != [] && path[|path| - 1] == a
    requires s in p.sites && s.callee == a.fn
    ensures height <= height' && (ok ==> SiteDerived(p, s, a.no, height'))
    ensures !ok ==> path <= c && Chain(p, c) && EndsBadly(p, c)
    decreases Args(p) - Elements(path), 1
  {
    ok, c, height' := true, path, height;
    if a.no >= |s.actuals| || Base(s.actuals[a.no]).Other? {
      assert BadSite(p, a);
      ok := false;
    } else if Base(s.actuals[a.no]).Param? {
      var x := Arg(s.caller, Base(s.actuals[a.no]).no);
      assert Passes(s, a, x) && s.actuals[a.no] in s.actuals;
      if x in path {
        ok, c := false, path + [x];
        assert c[..|c| - 1] == path;
      } else {
        c := Decide(p, path, x);
        if Derivable(p, x) {
          var n: nat :| Derived(p, x, n);
          height' := if n + 1 > height then n + 1 else height;
          DerivedGrows(p, x, n, height' - 1);
        } else {
          ok := false;
        }
      }
    }
  }

  // The search answers false iff a chain of call sites that pass parameters on ends at a value that is
  // neither a stack slot nor a parameter, or comes back to itself.
  lemma {:induction false} DerivableIff(p: Prog, a: Arg)
    requires WellFormed(p) && a in Args(p)
    ensures !Derivable(p, a) <==> exists c :: BadChain(p, a, c)
  {
    if c :| BadChain(p, a, c) { BadChainFails(p, a, c); }
    if !Derivable(p, a) {
      assert [] + [a] == [a];
      var c := Decide(p, [], a);
      assert BadChain(p, a, c);
    }
  }

  /* ----- what the answer means ----- */

  // The search answers false for every parameter of an entry function.
  ghost predicate EntriesUnderived(p: Prog) {
    forall f, i :: f in p.entries && Arg(f, i) in Args(p) ==> !Derivable(p, Arg(f, i))
  }

  lemma {:induction false} DerivedSound(p: Prog, fr: Frame, a: Arg, n: nat)
    requires WellFormed(p) && EntriesUnderived(p)
    requires Derived(p, a, n) && Executes(p, fr) && Fn(fr) == a.fn && a in Args(p)
    ensures IsStack(fr, Param(a.no))
    decreases n
  {
    match fr
    case Entry(_) => assert Derivable(p, a);
    case Called(s, parent) =>
      assert SiteDerived(p, s, a.no, n);
      var v := s.actuals[a.no];
      BaseIsStack(parent, v);
      if Base(v).Param? {
        DerivedSound(p, parent, Arg(s.caller, Base(v).no), n - 1);
      }
  }

  ghost predicate AnswersSound(p: Prog) {
    forall a, fr :: a in Args(p) && Derivable(p, a) && Executes(p, fr) && Fn(fr) == a.fn ==> IsStack(fr, Param(a.no))
  }

  // The search is right for every argument and every execution iff it answers false for the parameters of
  // entry functions.
  lemma {:induction false} AnswerSoundIff(p: Prog)
    requires WellFormed(p)
    ensures AnswersSound(p) <==> EntriesUnderived(p)
  {
    if EntriesUnderived(p) {
      forall a, fr | a in Args(p) && Derivable(p, a) && Executes(p, fr) && Fn(fr) == a.fn
        ensures IsStack(fr, Param(a.no))
      {
        var n: nat :| Derived(p, a, n);
        DerivedSound(p, fr, a, n);
      }
    } else {
      var f, i :| f in p.entries && Arg(f, i) in Args(p) && Derivable(p, Arg(f, i));
      var a, fr := Arg(f, i), Entry(f);
      assert a in Args(p) && Executes(p, fr) && Fn(fr) == a.fn && !IsStack(fr, Param(a.no));
    }
  }

  // The trace by call sites alone: from every parameter of an entry function some way back ends badly.
  lemma {:induction false} TraceSoundIffTrails(p: Prog)
    requires WellFormed(p)
    ensures TracesSound(p) <==>
            forall f, i :: f in p.entries && Arg(f, i) in Args(p) ==> exists t :: BadTrail(p, Node(f, Param(i)), t, 0)
  {
    TraceSoundIff(p);
    forall f, i | f in p.entries && Arg(f, i) in Args(p)
      ensures !TracesFromAlloca(p, f, Param(i), 0) <==> exists t :: BadTrail(p, Node(f, Param(i)), t, 0)
    {
      TraceFalseIff(p, Node(f, Param(i)), 0);
    }
  }

  // The same by call sites alone: from every parameter of an entry function a chain of call sites ends badly.
  lemma {:induction false} AnswerSoundIffChains(p: Prog)
    requires WellFormed(p)
    ensures AnswersSound(p) <==>
            forall f, i :: f in p.entries && Arg(f, i) in Args(p) ==> exists c :: BadChain(p, Arg(f, i), c)
  {
    AnswerSoundIff(p);
    forall f, i | f in p.entries && Arg(f, i) in Args(p)
      ensures !Derivable(p, Arg(f, i)) <==> exists c :: BadChain(p, Arg(f, i), c)
    {
      DerivableIff(p, Arg(f, i));
    }
  }

  // Entry functions without parameters are enough, and if nobody calls entry functions they are also needed:
  // a function without call sites is answered true.
  lemma {:induction false} ParameterlessEntries(p: Prog)
    requires WellFormed(p)
    ensures EntriesTakeNothing(p) ==> AnswersSound(p)
    ensures EntriesUncalled(p) && AnswersSound(p) ==> EntriesTakeNothing(p)
  {
    AnswerSoundIff(p);
    if EntriesUncalled(p) && EntriesUnderived(p) {
      forall f | f in p.entries && f in p.arity ensures p.arity[f] == 0 {
        assert Arg(f, 0) in Args(p) <==> p.arity[f] > 0;
        assert Derived(p, Arg(f, 0), 0);
      }
    }
  }

  // A thread routine that nobody calls: the search takes its argument for a stack address, and it is not one.
  lemma {:induction false} EntryParameterMisjudged(p: Prog, fr: Frame)
    requires p == Prog(map[0 := 1], [], {0}) && fr == Entry(0)
    ensures WellFormed(p) && Executes(p, fr)
    ensures Arg(0, 0) in Args(p) && Derivable(p, Arg(0, 0)) && !IsStack(fr, Param(0))
  {
    assert Derived(p, Arg(0, 0), 0);
  }

  // A thread routine that is also called directly, with a stack slot: both analyses are wrong about it.
  lemma {:induction false} CalledEntryMisjudged(p: Prog, fr: Frame)
    requires p == Prog(map[0 := 1, 1 := 0], [Site(1, 0, [Alloca])], {0, 1}) && fr == Entry(0)
    ensures WellFormed(p) && Executes(p, fr) && Arg(0, 0) in Args(p)
    ensures TracesFromAlloca(p, 0, Param(0), 0) && Derivable(p, Arg(0, 0)) && !IsStack(fr, Param(0))
  {
    var s := p.sites[0];
    assert s in p.sites && s.callee == 0;
    assert TracesFromAlloca(p, 1, Alloca, 1);
    assert Derived(p, Arg(0, 0), 0);
  }
}
