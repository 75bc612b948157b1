/** Cloning the functions that transactions reach and redirecting calls to the clones. */
module Cloning {
  import opened CallGraph

  // CloneOnly stands for AlwaysInline as well: both clone and redirect without looking at arguments.
  datatype Mode = Instrument | CloneOnly

  // Functions that are left as they are on purpose.
  predicate Uncloned(a: Attr) {
    a.decl || a.runtime || a.tx || a.outside
  }

  predicate Clonable(a: Attr, mode: Mode) {
    !Uncloned(a) && (mode == CloneOnly || !a.ptrArg || a.traced)
  }

  // The functions whose calls are redirected: always, or only at traced call sites.
  datatype Targets = Targets(always: set<Name>, ifTraced: set<Name>)

  function TargetsOf(m: Mod, reach: set<Name>, cloned: set<Name>, mode: Mode): Targets {
    var ok := set g | g in cloned && g in reach && Defined(m, g) && !m[g].attr.runtime;
    Targets((set g | g in ok && (mode == CloneOnly || m[g].attr.traced)), ok)
  }

  // The call sites of a function at which an argument is traced to transactional data. The answer may
  // change with the module, and so from round to round.
  type Tracer = (Mod, Name) -> set<nat>

  function CloneOf(f: Name): Name {
    f.(clone := true)
  }

  function Origin(f: Name): Name {
    f.(clone := false)
  }

  function Target(tg: Targets, g: Name, traced: bool): Name {
    if g in tg.always || (traced && g in tg.ifTraced) then CloneOf(g) else g
  }

  function Redirect(tg: Targets, traced: set<nat>, c: Code): Code {
    match c
    case Ret => Ret
    case Op(k, next) => Op(k, Redirect(tg, traced, next))
    case Branch(k, yes, no) => Branch(k, Redirect(tg, traced, yes), Redirect(tg, traced, no))
    case Call(g, site, next) => Call(Target(tg, g, site in traced), site, Redirect(tg, traced, next))
  }

  /* ----- what the passes keep ----- */

  // The original functions and the clones of `cloned`, each with the attributes of its original.
  ghost predicate Twins(orig: Mod, m: Mod, cloned: set<Name>) {
    && cloned <= orig.Keys
    && (forall f :: f in orig ==> !f.clone)
    && (forall f :: f in cloned ==> !Uncloned(orig[f].attr))
    && (forall f :: f in m <==> if f.clone then Origin(f) in cloned else f in orig)
    && (forall f :: f in m ==> m[f].attr == orig[Origin(f)].attr)
  }

  // The functions redirected so far, each with all call sites that were traced in some round.
  type Sites = map<Name, set<nat>>

  ghost predicate Bodies(orig: Mod, m: Mod, tg: Targets, sites: Sites) {
    forall f :: f in m ==> Origin(f) in orig && m[f].body == Body(orig[Origin(f)].body, tg, sites, f)
  }

  function Body(c: Code, tg: Targets, sites: Sites, f: Name): Code {
    if f in sites then Redirect(tg, sites[f], c) else c
  }

  function Add(sites: Sites, f: Name, traced: set<nat>): Sites {
    sites[f := (if f in sites then sites[f] else {}) + traced]
  }

  // A site counts only if some round could trace it, and surely if every round would.
  ghost predicate SitesOk(sites: Sites, trace: Tracer) {
    forall f :: f in sites ==> Sometimes(sites[f], trace, f) && Always(sites[f], trace, f)
  }

  ghost predicate Sometimes(traced: set<nat>, trace: Tracer, f: Name) {
    forall s :: s in traced ==> exists m: Mod :: s in trace(m, f)
  }

  ghost predicate Always(traced: set<nat>, trace: Tracer, f: Name) {
    forall s: nat :: (forall m: Mod :: s in trace(m, f)) ==> s in traced
  }

  lemma {:induction false} AddOk(sites: Sites, trace: Tracer, f: Name, m: Mod)
    requires SitesOk(sites, trace)
    ensures SitesOk(Add(sites, f, trace(m, f)), trace)
  {
    var traced := (if f in sites then sites[f] else {}) + trace(m, f);
    forall s | s in traced ensures exists x: Mod :: s in trace(x, f) {
      if f in sites && s in sites[f] {
        assert Sometimes(sites[f], trace, f);
      } else {
        assert s in trace(m, f);
      }
    }
    assert Always(traced, trace, f);
  }

  // The calls in a body, each with its site.
  function Calls(c: Code): set<(Name, nat)> {
    match c
    case Ret => {}
    case Op(_, next) => Calls(next)
    case Branch(_, yes, no) => Calls(yes) + Calls(no)
    case Call(g, site, next) => {(g, site)} + Calls(next)
  }

  lemma {:induction false} CallRedirected(tg: Targets, traced: set<nat>, c: Code, g: Name, site: nat)
    requires (g, site) in Calls(c)
    ensures (Target(tg, g, site in traced), site) in Calls(Redirect(tg, traced, c))
  {
    match c
    case Ret =>
    case Op(_, next) => CallRedirected(tg, traced, next, g, site);
    case Branch(_, yes, no) =>
      if (g, site) in Calls(yes) { CallRedirected(tg, traced, yes, g, site); }
      else { CallRedirected(tg, traced, no, g, site); }
    case Call(_, _, next) =>
      if (g, site) in Calls(next) { CallRedirected(tg, traced, next, g, site); }
  }

  lemma {:induction false} CallComesFrom(tg: Targets, traced: set<nat>, c: Code, h: Name, site: nat) returns (g: Name)
    requires (h, site) in Calls(Redirect(tg, traced, c))
    ensures (g, site) in Calls(c) && h == Target(tg, g, site in traced)
  {
    match c
    case Ret => g := h;
    case Op(_, next) => g := CallComesFrom(tg, traced, next, h, site);
    case Branch(_, yes, no) =>
      if (h, site) in Calls(Redirect(tg, traced, yes)) { g := CallComesFrom(tg, traced, yes, h, site); }
      else { g := CallComesFrom(tg, traced, no, h, site); }
    case Call(callee, k, next) =>
      if (h, site) in Calls(Redirect(tg, traced, next)) { g := CallComesFrom(tg, traced, next, h, site); }
      else { g := callee; }
  }

  // Which calls of a redirected function go to clones: those of cloned functions, unless arguments matter and
  // neither the callee nor the site has a traced one.  A function that is not redirected calls what it called.
  predicate GoesToClone(m: Mod, cloned: set<Name>, mode: Mode, sites: Sites, f: Name, g: Name, site: nat) {
    g in cloned && g in m && f in sites && (mode == CloneOnly || m[g].attr.traced || site in sites[f])
  }

  lemma {:induction false} CallsAfter(m: Mod, out: Mod, cloned: set<Name>, mode: Mode, tg: Targets, sites: Sites,
                                      f: Name, h: Name, site: nat)
    requires cloned <= m.Keys && f in out && Bodies(m, out, tg, sites)
    requires tg == Targets((set g | g in cloned && (mode == CloneOnly || m[g].attr.traced)), cloned)
    ensures Origin(f) in m
    ensures (h, site) in Calls(out[f].body) <==>
            exists g :: (g, site) in Calls(m[Origin(f)].body) &&
                        h == if GoesToClone(m, cloned, mode, sites, f, g, site) then CloneOf(g) else g
  {
    var c := m[Origin(f)].body;
    if f in sites {
      if (h, site) in Calls(out[f].body) {
        var g := CallComesFrom(tg, sites[f], c, h, site);
      }
      forall g | (g, site) in Calls(c) ensures (Target(tg, g, site in sites[f]), site) in Calls(out[f].body) {
        CallRedirected(tg, sites[f], c, g, site);
      }
    }
  }

  // Only functions that have a clone are redirected.
  predicate ToClones(tg: Targets, cloned: set<Name>) {
    tg.always <= cloned && tg.ifTraced <= cloned
  }

  // Two rounds redirect what either would; so a round that traces nothing new changes nothing.
  lemma {:induction false} RedirectTwice(tg: Targets, first: set<nat>, second: set<nat>, c: Code)
    requires forall g :: g in tg.always || g in tg.ifTraced ==> !g.clone
    ensures Redirect(tg, second, Redirect(tg, first, c)) == Redirect(tg, first + second, c)
    ensures second <= first ==> Redirect(tg, second, Redirect(tg, first, c)) == Redirect(tg, first, c)
  {
    match c
    case Ret =>
    case Op(_, next) => RedirectTwice(tg, first, second, next);
    case Branch(_, yes, no) => RedirectTwice(tg, first, second, yes); RedirectTwice(tg, first, second, no);
    case Call(_, _, next) => RedirectTwice(tg, first, second, next);
  }

  /* ----- meaning ----- */

  // The same code up to calling a clone for its original.
  predicate Similar(c: Code, c0: Code, m: Mod) {
    match c
    case Ret => c0 == Ret
    case Op(k, next) => c0.Op? && c0.k == k && Similar(next, c0.next, m)
    case Branch(k, yes, no) => c0.Branch? && c0.k == k && Similar(yes, c0.yes, m) && Similar(no, c0.no, m)
    case Call(g, _, next) => c0.Call? && g in m && Origin(g) == c0.callee && Similar(next, c0.next, m)
  }

  // Every body is its original's, with any of its calls going to clones.
  ghost predicate AllSimilar(orig: Mod, m: Mod) {
    forall f :: f in m ==> Origin(f) in orig && Similar(m[f].body, orig[Origin(f)].body, m)
  }

  lemma {:induction false} SimilarRuns(sem: Sem, orig: Mod, m: Mod, cloned: set<Name>, fuel: nat, c: Code, c0: Code,
                                       w: nat)
    requires Twins(orig, m, cloned) && AllSimilar(orig, m) && Similar(c, c0, m)
    ensures Eval(sem, m, fuel, c, w) == Eval(sem, orig, fuel, c0, w)
    decreases fuel, c
  {
    match c
    case Ret =>
    case Op(k, next) => SimilarRuns(sem, orig, m, cloned, fuel, next, c0.next, sem.step(k, w));
    case Branch(k, yes, no) =>
      if sem.test(k, w) {
        SimilarRuns(sem, orig, m, cloned, fuel, yes, c0.yes, w);
      } else {
        SimilarRuns(sem, orig, m, cloned, fuel, no, c0.no, w);
      }
    case Call(g, _, next) =>
      var g0 := Origin(g);
      assert g0 in orig && m[g].attr == orig[g0].attr;
      if !Defined(m, g) {
        assert g == g0;
        SimilarRuns(sem, orig, m, cloned, fuel, next, c0.next, sem.extern(g, w));
      } else if fuel > 0 {
        SimilarRuns(sem, orig, m, cloned, fuel - 1, m[g].body, orig[g0].body, w);
        var r := Eval(sem, m, fuel - 1, m[g].body, w);
        if r.Some? {
          SimilarRuns(sem, orig, m, cloned, fuel, next, c0.next, r.value);
        }
      }
  }

  // Whichever calls have been redirected, every function and every clone does what the original does.
  lemma {:induction false} MeaningKept(sem: Sem, orig: Mod, m: Mod, cloned: set<Name>, fuel: nat, f: Name, w: nat)
    requires Twins(orig, m, cloned) && AllSimilar(orig, m) && f in m
    ensures Origin(f) in orig && Eval(sem, m, fuel, m[f].body, w) == Eval(sem, orig, fuel, orig[Origin(f)].body, w)
  {
    SimilarRuns(sem, orig, m, cloned, fuel, m[f].body, orig[Origin(f)].body, w);
  }

  lemma {:induction false} RedirectSimilar(orig: Mod, m: Mod, cloned: set<Name>, tg: Targets, traced: set<nat>, c: Code)
    requires Twins(orig, m, cloned) && ToClones(tg, cloned) && Callees(c) <= orig.Keys
    ensures Similar(c, c, m) && Similar(Redirect(tg, traced, c), c, m)
  {
    match c
    case Ret =>
    case Op(_, next) => RedirectSimilar(orig, m, cloned, tg, traced, next);
    case Branch(_, yes, no) =>
      RedirectSimilar(orig, m, cloned, tg, traced, yes);
      RedirectSimilar(orig, m, cloned, tg, traced, no);
    case Call(g, _, next) =>
      RedirectSimilar(orig, m, cloned, tg, traced, next);
      assert g in orig && Origin(CloneOf(g)) == g == Origin(g);
  }

  // At every point of the passes the bodies are of that kind, whatever was traced in any round.
  lemma {:induction false} BodiesSimilar(orig: Mod, m: Mod, cloned: set<Name>, tg: Targets, sites: Sites)
    requires WellFormed(orig) && Twins(orig, m, cloned) && ToClones(tg, cloned) && Bodies(orig, m, tg, sites)
    ensures AllSimilar(orig, m)
  {
    forall f | f in m ensures Origin(f) in orig && Similar(m[f].body, orig[Origin(f)].body, m) {
      RedirectSimilar(orig, m, cloned, tg, if f in sites then sites[f] else {}, orig[Origin(f)].body);
    }
  }

  /* ----- the passes ----- */

  lemma {:induction false} CloneStep(orig: Mod, m: Mod, cloned: set<Name>, tg: Targets, f: Name, m': Mod)
    requires Twins(orig, m, cloned) && Bodies(orig, m, tg, map[]) && f in orig && !Uncloned(orig[f].attr)
    requires m' == m[CloneOf(f) := m[f]]
    ensures Twins(orig, m', cloned + {f}) && Bodies(orig, m', tg, map[])
  {
    assert Origin(CloneOf(f)) == f == Origin(f);
  }

  // Redirecting one body leaves names and attributes, and so the targets, alone.
  lemma {:induction false} RedirectStep(orig: Mod, m: Mod, cloned: set<Name>, tg: Targets, sites: Sites,
                                        f: Name, traced: set<nat>, m': Mod)
    requires Twins(orig, m, cloned) && Bodies(orig, m, tg, sites) && ToClones(tg, cloned) && f in m
    requires m' == m[f := m[f].(body := Redirect(tg, traced, m[f].body))]
    ensures Twins(orig, m', cloned) && Bodies(orig, m', tg, Add(sites, f, traced))
  {
    var c := orig[Origin(f)].body;
    assert m'[f].body == Body(c, tg, Add(sites, f, traced), f) by { BodyStep(c, tg, sites, f, traced); }
    assert Twins(orig, m', cloned);
  }

  lemma {:induction false} BodyStep(c: Code, tg: Targets, sites: Sites, f: Name, traced: set<nat>)
    requires forall g :: g in tg.always || g in tg.ifTraced ==> !g.clone
    ensures Redirect(tg, traced, Body(c, tg, sites, f)) == Body(c, tg, Add(sites, f, traced), f)
  {
    if f in sites {
      RedirectTwice(tg, sites[f], traced, c);
    } else {
      assert {} + traced == traced;
    }
  }

  lemma {:induction false} TargetsSame(m: Mod, m': Mod, reach: set<Name>, cloned: set<Name>, mode: Mode)
    requires forall g :: g in cloned ==> g in m && g in m' && m[g].attr == m'[g].attr
    ensures TargetsOf(m, reach, cloned, mode) == TargetsOf(m', reach, cloned, mode)
  {
    var a, b := TargetsOf(m, reach, cloned, mode), TargetsOf(m', reach, cloned, mode);
    assert a.ifTraced == b.ifTraced;
    assert a.always == b.always;
  }

  method ComputeClonable(m: Mod, reach: set<Name>, mode: Mode) returns (r: set<Name>)
    ensures forall f :: f in r <==> f in reach && f in m && Clonable(m[f].attr, mode)
  {
    r := {};
    var todo := reach;
    while todo != {}
      invariant todo <= reach
      invariant forall f :: f in r <==> f in reach - todo && f in m && Clonable(m[f].attr, mode)
      decreases todo
    {
      var f :| f in todo;
      todo := todo - {f};
      if f in m && !Uncloned(m[f].attr) {
        if mode == CloneOnly || !m[f].attr.ptrArg || m[f].attr.traced {
          r := r + {f};
        }
      }
    }
  }

  function Clones(cloned: set<Name>): set<Name> {
    set f | f in cloned :: CloneOf(f)
  }

  function Txs(m: Mod): set<Name> {
    set f | f in m && IsTx(m, f)
  }

  lemma {:induction false} TxsSame(orig: Mod, m: Mod, cloned: set<Name>)
    requires Twins(orig, m, cloned)
    ensures Txs(m) == Txs(orig)
  {
    forall f ensures f in Txs(m) <==> f in Txs(orig) {
      if f in orig { assert f in m && Origin(f) == f; }
      if f in m && f.clone { assert !Uncloned(orig[Origin(f)].attr); }
    }
  }

  // What each redirection round starts from and leaves: the module, its clones and its targets in step.
  ghost predicate InStep(orig: Mod, m: Mod, reach: set<Name>, cloned: set<Name>, mode: Mode, tg: Targets,
                         sites: Sites) {
    Twins(orig, m, cloned) && Bodies(orig, m, tg, sites) && tg == TargetsOf(m, reach, cloned, mode)
  }

  lemma {:induction false} ClonesPresent(orig: Mod, m: Mod, cloned: set<Name>)
    requires Twins(orig, m, cloned)
    ensures Clones(cloned) <= m.Keys && Txs(m) <= m.Keys
  {
    forall f | f in Clones(cloned) ensures f in m {
      var o :| o in cloned && f == CloneOf(o);
      assert Origin(f) == o;
    }
  }

  // All of `todo` is redirected or still left.
  predicate Covers(now: Sites, left: set<Name>, sites: Sites, todo: set<Name>) {
    now.Keys + left == sites.Keys + todo && left <= todo
  }

  lemma {:induction false} CoversStep(now: Sites, left: set<Name>, sites: Sites, todo: set<Name>, f: Name,
                                      traced: set<nat>)
    requires Covers(now, left, sites, todo) && f in left
    ensures Covers(Add(now, f, traced), left - {f}, sites, todo)
  {
    assert Add(now, f, traced).Keys == now.Keys + {f};
  }

  class Pass {
    var funcs: Mod
    var cloned: set<Name>
    ghost const orig: Mod

    constructor (m: Mod)
      requires forall f :: f in m ==> !f.clone
      ensures orig == m && funcs == m && cloned == {} && Twins(orig, funcs, cloned)
      ensures forall tg :: Bodies(orig, funcs, tg, map[])
    {
      funcs, cloned, orig := m, {}, m;
    }

    method CloneMethod(f: Name, ghost tg: Targets)
      requires Twins(orig, funcs, cloned) && Bodies(orig, funcs, tg, map[]) && f in orig && !Uncloned(orig[f].attr)
      modifies this
      ensures Twins(orig, funcs, cloned) && Bodies(orig, funcs, tg, map[]) && cloned == old(cloned) + {f}
    {
      ghost var m, cs := funcs, cloned;
      funcs := funcs[CloneOf(f) := funcs[f]];
      cloned := cloned + {f};
      CloneStep(orig, m, cs, tg, f, funcs);
    }

    // Pass 1: every clonable function gets one clone.
    method CloneAll(toClone: set<Name>, ghost tg: Targets)
      requires Twins(orig, funcs, cloned) && Bodies(orig, funcs, tg, map[]) && cloned == {}
      requires toClone <= orig.Keys && forall f :: f in toClone ==> !Uncloned(orig[f].attr)
      modifies this
      ensures Twins(orig, funcs, cloned) && Bodies(orig, funcs, tg, map[]) && cloned == toClone
    {
      var todo := toClone;
      while todo != {}
        invariant Twins(orig, funcs, cloned) && Bodies(orig, funcs, tg, map[])
        invariant cloned + todo == toClone
        decreases todo
      {
        var f :| f in todo;
        if f !in cloned {
          CloneMethod(f, tg);
        }
        todo := todo - {f};
      }
    }

    method RedirectCalls(f: Name, reach: set<Name>, mode: Mode, trace: Tracer, ghost tg: Targets, ghost sites: Sites)
      requires InStep(orig, funcs, reach, cloned, mode, tg, sites) && f in funcs
      modifies this`funcs
      ensures InStep(orig, funcs, reach, cloned, mode, tg, Add(sites, f, trace(old(funcs), f)))
      ensures funcs.Keys == old(funcs.Keys)
    {
      ghost var m := funcs;
      var body := Redirect(TargetsOf(funcs, reach, cloned, mode), trace(funcs, f), funcs[f].body);
      funcs := funcs[f := funcs[f].(body := body)];
      RedirectStep(orig, m, cloned, tg, sites, f, trace(m, f), funcs);
      TargetsSame(m, funcs, reach, cloned, mode);
    }

    method RedirectSet(todo: set<Name>, reach: set<Name>, mode: Mode, trace: Tracer, ghost tg: Targets,
                       ghost sites: Sites)
      returns (ghost sites': Sites)
      requires InStep(orig, funcs, reach, cloned, mode, tg, sites) && todo <= funcs.Keys && SitesOk(sites, trace)
      modifies this`funcs
      ensures InStep(orig, funcs, reach, cloned, mode, tg, sites') && SitesOk(sites', trace)
      ensures sites'.Keys == sites.Keys + todo && funcs.Keys == old(funcs.Keys)
    {
      var left := todo;
      sites' := sites;
      while left != {}
        invariant InStep(orig, funcs, reach, cloned, mode, tg, sites') && SitesOk(sites', trace)
        invariant Covers(sites', left, sites, todo) && funcs.Keys == old(funcs.Keys)
        decreases left
      {
        var f :| f in left;
        ghost var m := funcs;
        RedirectCalls(f, reach, mode, trace, tg, sites');
        CoversStep(sites', left, sites, todo, f, trace(m, f));
        AddOk(sites', trace, f, m);
        left, sites' := left - {f}, Add(sites', f, trace(m, f));
      }
    }

    // The transactions once, then three more rounds over the clones, which were redirected before.
    method RedirectTx(reach: set<Name>, mode: Mode, trace: Tracer, ghost tg: Targets, ghost sites: Sites)
      returns (ghost sites': Sites)
      requires InStep(orig, funcs, reach, cloned, mode, tg, sites) && sites.Keys == Clones(cloned)
      requires SitesOk(sites, trace)
      modifies this`funcs
      ensures InStep(orig, funcs, reach, cloned, mode, tg, sites') && sites'.Keys == Clones(cloned) + Txs(orig)
      ensures SitesOk(sites', trace)
    {
      var txs := Txs(funcs);
      assert txs == Txs(orig) by { TxsSame(orig, funcs, cloned); }
      ClonesPresent(orig, funcs, cloned);
      sites' := RedirectSet(txs, reach, mode, trace, tg, sites);
      for round := 0 to 3
        invariant InStep(orig, funcs, reach, cloned, mode, tg, sites') && sites'.Keys == Clones(cloned) + txs
        invariant Clones(cloned) <= funcs.Keys && SitesOk(sites', trace)
      {
        sites' := RedirectSet(Clones(cloned), reach, mode, trace, tg, sites');
      }
    }

    // Pass 2 over the clones, then the transactions.
    method RedirectAll(reach: set<Name>, mode: Mode, trace: Tracer, ghost tg: Targets) returns (ghost sites: Sites)
      requires Twins(orig, funcs, cloned) && Bodies(orig, funcs, tg, map[])
      requires tg == TargetsOf(orig, reach, cloned, mode)
      modifies this`funcs
      ensures Twins(orig, funcs, cloned) && Bodies(orig, funcs, tg, sites) && sites.Keys == Clones(cloned) + Txs(orig)
      ensures SitesOk(sites, trace)
    {
      assert forall g :: g in cloned ==> g in orig && g in funcs && Origin(g) == g;
      TargetsSame(orig, funcs, reach, cloned, mode);
      ClonesPresent(orig, funcs, cloned);
      sites := RedirectSet(Clones(cloned), reach, mode, trace, tg, map[]);
      sites := RedirectTx(reach, mode, trace, tg, sites);
    }
  }

  // Which reached functions are cloned: those with a body that are neither part of the runtime nor transactions
  // nor thread entries nor main and, when instrumenting, have no pointer argument or a traced one.
  predicate HasClone(m: Mod, f: Name, mode: Mode) {
    && f in m && !m[f].attr.decl && !m[f].attr.runtime && !m[f].attr.tx && !m[f].attr.outside
    && (mode == CloneOnly || !m[f].attr.ptrArg || m[f].attr.traced)
  }

  // The whole transformation: collect, clone, redirect the clones, redirect the transactions.
  method Transform(m: Mod, mode: Mode, trace: Tracer)
    returns (out: Mod, reach: set<Name>, cloned: set<Name>, ghost tg: Targets, ghost sites: Sites)
    requires WellFormed(m) && forall f :: f in m ==> !f.clone
    ensures Twins(m, out, cloned) && ToClones(tg, cloned) && AllSimilar(m, out)
    ensures Bodies(m, out, tg, sites) && sites.Keys == Clones(cloned) + Txs(m)
    ensures forall f :: f in reach <==> TxReaches(m, f)
    ensures forall f :: f in cloned <==> TxReaches(m, f) && HasClone(m, f, mode)
    ensures tg == Targets((set g | g in cloned && (mode == CloneOnly || m[g].attr.traced)), cloned)
    ensures SitesOk(sites, trace)
  {
    reach := CollectAll(m);
    var toClone := ComputeClonable(m, reach, mode);
    var p := new Pass(m);
    tg := TargetsOf(m, reach, toClone, mode);
    p.CloneAll(toClone, tg);
    sites := p.RedirectAll(reach, mode, trace, tg);
    out, cloned := p.funcs, p.cloned;
    AllTargets(m, reach, cloned, mode);
    BodiesSimilar(m, out, cloned, tg, sites);
  }

  // Every cloned function is a target, those with a traced argument at every site.
  lemma {:induction false} AllTargets(m: Mod, reach: set<Name>, cloned: set<Name>, mode: Mode)
    requires forall f :: f in cloned ==> f in reach && f in m && !Uncloned(m[f].attr)
    ensures ToClones(TargetsOf(m, reach, cloned, mode), cloned)
    ensures TargetsOf(m, reach, cloned, mode) ==
            Targets((set g | g in cloned && (mode == CloneOnly || m[g].attr.traced)), cloned)
  {
    var tg := TargetsOf(m, reach, cloned, mode);
    assert tg.ifTraced == cloned;
  }
}
