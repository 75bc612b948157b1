/** Which functions a transaction can still reach after cloning and redirection. */
module CloneClosure {
  import opened CallGraph
  import opened Cloning

  // The bodies of clones and transactions are redirected, and no others.
  ghost predicate RedirectedBodies(orig: Mod, m: Mod, cloned: set<Name>) {
    forall f :: f in m ==> Origin(f) in orig && m[f].body == FinalBody(orig, cloned, f, orig[Origin(f)].body)
  }

  function FinalBody(orig: Mod, cloned: set<Name>, f: Name, c: Code): Code {
    if Rewritten(orig, f) then Redirect(Targets(cloned, cloned), {}, c) else c
  }

  // A module as the transformation leaves it when every call is redirected.
  ghost predicate Redirected(orig: Mod, m: Mod, reach: set<Name>, cloned: set<Name>) {
    && WellFormed(orig) && Twins(orig, m, cloned)
    && RedirectedBodies(orig, m, cloned)
    && (forall f :: f in cloned <==> f in reach && f in orig && !Uncloned(orig[f].attr))
    && (forall tx :: IsTx(orig, tx) ==> tx in reach)
    && (forall f, g :: f in reach && Edge(orig, f, g) ==> g in reach)
  }

  // Everything a transaction reaches is a transaction, a clone, or left uncloned on purpose.
  ghost predicate Closed(orig: Mod, m: Mod) {
    forall tx, g :: IsTx(orig, tx) && Reaches(m, tx, g) ==> Settled(orig, g)
  }

  predicate Settled(orig: Mod, g: Name) {
    g.clone || (g in orig && Uncloned(orig[g].attr))
  }

  // A runtime function, a thread entry or main: its body is never redirected.
  predicate Outside(orig: Mod, e: Name) {
    e in orig && Uncloned(orig[e].attr) && !orig[e].attr.tx
  }

  // No such function that a transaction reaches calls a function that gets cloned.
  ghost predicate OutsideCallsOutside(orig: Mod, reach: set<Name>) {
    forall e, g :: e in reach && Outside(orig, e) && Edge(orig, e, g) ==> Uncloned(orig[g].attr)
  }

  /* ----- edges before and after ----- */

  lemma {:induction false} RedirectedCallees(cloned: set<Name>, c: Code, g: Name)
    ensures g in Callees(Redirect(Targets(cloned, cloned), {}, c)) <==>
            exists g0 :: g0 in Callees(c) && g == Target(Targets(cloned, cloned), g0, false)
  {
    match c
    case Ret =>
    case Op(_, next) => RedirectedCallees(cloned, next, g);
    case Branch(_, yes, no) =>
      RedirectedCallees(cloned, yes, g);
      RedirectedCallees(cloned, no, g);
    case Call(k, _, next) =>
      RedirectedCallees(cloned, next, g);
      assert k in Callees(c);
  }

  // The name that stands for an original where calls are redirected.
  function Image(cloned: set<Name>, g: Name): Name {
    Target(Targets(cloned, cloned), g, false)
  }

  predicate Rewritten(orig: Mod, f: Name) {
    f.clone || IsTx(orig, f)
  }

  lemma {:induction false} EdgeAfter(orig: Mod, m: Mod, reach: set<Name>, cloned: set<Name>, f: Name, g: Name)
    requires Redirected(orig, m, reach, cloned) && f in m && Edge(orig, Origin(f), g)
    ensures Edge(m, f, if Rewritten(orig, f) then Image(cloned, g) else g)
  {
    var c := orig[Origin(f)].body;
    var k := if Rewritten(orig, f) then Image(cloned, g) else g;
    RedirectedCallees(cloned, c, k);
    assert k in m && Origin(k) == g;
  }

  lemma {:induction false} EdgeBefore(orig: Mod, m: Mod, reach: set<Name>, cloned: set<Name>, f: Name, g: Name)
    requires Redirected(orig, m, reach, cloned) && Edge(m, f, g)
    ensures Edge(orig, Origin(f), Origin(g))
    ensures g == if Rewritten(orig, f) then Image(cloned, Origin(g)) else Origin(g)
  {
    var c := orig[Origin(f)].body;
    if Rewritten(orig, f) {
      RedirectedCallees(cloned, c, g);
      var g0 :| g0 in Callees(c) && g == Image(cloned, g0);
      assert Callees(c) <= orig.Keys && g0 in orig && !g0.clone;
    } else {
      assert g in orig;
    }
  }

  /* ----- the exact condition ----- */

  lemma {:induction false} SettledStep(orig: Mod, m: Mod, reach: set<Name>, cloned: set<Name>, h: Name, g: Name)
    requires Redirected(orig, m, reach, cloned) && OutsideCallsOutside(orig, reach)
    requires Settled(orig, h) && Origin(h) in reach && Edge(m, h, g)
    ensures Settled(orig, g) && Origin(g) in reach
  {
    EdgeBefore(orig, m, reach, cloned, h, g);
    if !Rewritten(orig, h) {
      assert Origin(h) == h && Origin(g) == g && Outside(orig, h) && Edge(orig, h, g);
    }
  }

  lemma {:induction false} StaysSettled(orig: Mod, m: Mod, reach: set<Name>, cloned: set<Name>, tx: Name, g: Name)
    requires Redirected(orig, m, reach, cloned) && OutsideCallsOutside(orig, reach)
    requires IsTx(orig, tx) && Reaches(m, tx, g)
    ensures Settled(orig, g)
  {
    var s := set f | f in m && Settled(orig, f) && Origin(f) in reach;
    forall h, k | h in s && k in m && Edge(m, h, k) ensures k in s {
      SettledStep(orig, m, reach, cloned, h, k);
    }
    assert tx in s by { assert tx in orig && Origin(tx) == tx; }
    ClosedHolds(m, s, tx, g);
  }

  lemma {:induction false} ClosedHolds(m: Mod, s: set<Name>, f: Name, g: Name)
    requires f in s && (forall h, k | h in s && k in m && Edge(m, h, k) :: k in s) && Reaches(m, f, g)
    ensures g in s
  {
    var n: nat :| ReachesIn(m, f, g, n);
    ClosedHoldsReach(m, s, f, g, n);
  }

  lemma {:induction false} ImageStep(orig: Mod, m: Mod, reach: set<Name>, cloned: set<Name>, tx: Name, h: Name, g: Name)
    requires Redirected(orig, m, reach, cloned) && Closed(orig, m) && IsTx(orig, tx)
    requires Reaches(m, tx, Image(cloned, h)) && h in reach && Edge(orig, h, g)
    ensures Reaches(m, tx, Image(cloned, g))
  {
    var f := Image(cloned, h);
    assert Origin(f) == h && f in m;
    EdgeAfter(orig, m, reach, cloned, f, g);
    var k := if Rewritten(orig, f) then Image(cloned, g) else g;
    ReachesNext(m, tx, f, k);
    if !Rewritten(orig, f) { assert Settled(orig, g); }
  }

  // What a transaction reached before, it reaches now, by its clone if it has one.
  lemma {:induction false} ImageReached(orig: Mod, m: Mod, reach: set<Name>, cloned: set<Name>, tx: Name, g: Name)
    requires Redirected(orig, m, reach, cloned) && Closed(orig, m) && IsTx(orig, tx) && Reaches(orig, tx, g)
    ensures Reaches(m, tx, Image(cloned, g))
  {
    var s := set x | x in orig && x in reach && Reaches(m, tx, Image(cloned, x));
    forall h, k | h in s && k in orig && Edge(orig, h, k) ensures k in s {
      ImageStep(orig, m, reach, cloned, tx, h, k);
    }
    assert tx in s by { assert ReachesIn(m, tx, tx, 0); }
    ClosedHolds(orig, s, tx, g);
  }

  // The redirected module is closed iff no function outside the transactions, reached by one of them,
  // calls a function that gets cloned.
  lemma {:induction false} ClosedIff(orig: Mod, m: Mod, reach: set<Name>, cloned: set<Name>)
    requires Redirected(orig, m, reach, cloned) && forall f :: f in reach ==> TxReaches(orig, f)
    ensures Closed(orig, m) <==> OutsideCallsOutside(orig, reach)
  {
    if OutsideCallsOutside(orig, reach) {
      forall tx, g | IsTx(orig, tx) && Reaches(m, tx, g) ensures Settled(orig, g) {
        StaysSettled(orig, m, reach, cloned, tx, g);
      }
    }
    if Closed(orig, m) {
      forall e, g | e in reach && Outside(orig, e) && Edge(orig, e, g) ensures Uncloned(orig[g].attr) {
        OutsideCallSettled(orig, m, reach, cloned, e, g);
      }
    }
  }

  lemma {:induction false} OutsideCallSettled(orig: Mod, m: Mod, reach: set<Name>, cloned: set<Name>, e: Name, g: Name)
    requires Redirected(orig, m, reach, cloned) && Closed(orig, m)
    requires TxReaches(orig, e) && Outside(orig, e) && Edge(orig, e, g)
    ensures Uncloned(orig[g].attr)
  {
    var tx :| IsTx(orig, tx) && Reaches(orig, tx, e);
    ImageReached(orig, m, reach, cloned, tx, e);
    EdgeAfter(orig, m, reach, cloned, e, g);
    ReachesNext(m, tx, e, g);
    assert Settled(orig, g);
  }

  // Where every call goes to a clone, tracing makes no difference.
  lemma {:induction false} TraceIrrelevant(cloned: set<Name>, traced: set<nat>, c: Code)
    ensures Redirect(Targets(cloned, cloned), traced, c) == Redirect(Targets(cloned, cloned), {}, c)
  {
    match c
    case Ret =>
    case Op(_, next) => TraceIrrelevant(cloned, traced, next);
    case Branch(_, yes, no) => TraceIrrelevant(cloned, traced, yes); TraceIrrelevant(cloned, traced, no);
    case Call(_, _, next) => TraceIrrelevant(cloned, traced, next);
  }

  lemma {:induction false} BodiesRedirected(orig: Mod, m: Mod, cloned: set<Name>, sites: Sites)
    requires Twins(orig, m, cloned) && sites.Keys == Clones(cloned) + Txs(orig)
    requires Bodies(orig, m, Targets(cloned, cloned), sites)
    ensures RedirectedBodies(orig, m, cloned)
  {
    forall f | f in m ensures Origin(f) in orig && m[f].body == FinalBody(orig, cloned, f, orig[Origin(f)].body) {
      if f.clone { assert CloneOf(Origin(f)) == f; }
      assert f in sites <==> Rewritten(orig, f);
      if f in sites { TraceIrrelevant(cloned, sites[f], orig[Origin(f)].body); }
    }
  }

  // What the transformation promises when it clones and redirects everything is what the theorem asks.
  lemma {:induction false} TransformIsRedirected(orig: Mod, m: Mod, reach: set<Name>, cloned: set<Name>, sites: Sites)
    requires WellFormed(orig) && Twins(orig, m, cloned)
    requires Bodies(orig, m, Targets(cloned, cloned), sites) && sites.Keys == Clones(cloned) + Txs(orig)
    requires forall f :: f in reach <==> TxReaches(orig, f)
    requires forall f :: f in cloned <==> TxReaches(orig, f) && HasClone(orig, f, CloneOnly)
    ensures Redirected(orig, m, reach, cloned)
  {
    BodiesRedirected(orig, m, cloned, sites);
    forall tx | IsTx(orig, tx) ensures tx in reach {
      assert ReachesIn(orig, tx, tx, 0) && Reaches(orig, tx, tx);
    }
    forall f, g | f in reach && Edge(orig, f, g) ensures g in reach {
      var tx :| IsTx(orig, tx) && Reaches(orig, tx, f);
      ReachesNext(orig, tx, f, g);
    }
  }

  /* ----- a module that is not closed ----- */

  const PLAIN := Attr(false, false, false, false, false, false)

  // A transaction calls a thread entry, which calls a helper.
  function ThreadBetween(): Mod {
    map[Name(0, false) := Func(PLAIN.(tx := true), Call(Name(1, false), 0, Ret)),
        Name(1, false) := Func(PLAIN.(outside := true), Call(Name(2, false), 0, Ret)),
        Name(2, false) := Func(PLAIN, Ret)]
  }

  // What the transformation makes of it: the helper is cloned, and nobody calls the clone.
  function ThreadBetweenAfter(): Mod {
    ThreadBetween()[Name(2, true) := Func(PLAIN, Ret)]
  }

  lemma {:induction false} ThreadBetweenRedirected()
    ensures Redirected(ThreadBetween(), ThreadBetweenAfter(),
                       {Name(0, false), Name(1, false), Name(2, false)}, {Name(2, false)})
  {
    var o, m, tx, e, g := ThreadBetween(), ThreadBetweenAfter(), Name(0, false), Name(1, false), Name(2, false);
    assert Callees(o[tx].body) == {e} && Callees(o[e].body) == {g} && Callees(o[g].body) == {};
    assert RedirectedBodies(o, m, {g}) by {
      var tg := Targets({g}, {g});
      assert Redirect(tg, {}, o[tx].body) == o[tx].body && Redirect(tg, {}, o[g].body) == Ret;
    }
    assert Twins(o, m, {g}) by { assert Origin(CloneOf(g)) == g; }
    assert WellFormed(o);
  }

  lemma {:induction false} ThreadBetweenEscapes()
    ensures !Closed(ThreadBetween(), ThreadBetweenAfter())
  {
    var o, m, tx, e, g := ThreadBetween(), ThreadBetweenAfter(), Name(0, false), Name(1, false), Name(2, false);
    assert Callees(m[tx].body) == {e} && Callees(m[e].body) == {g};
    assert ReachesIn(m, tx, tx, 0);
    ReachesNext(m, tx, tx, e);
    ReachesNext(m, tx, e, g);
    assert IsTx(o, tx) && !Settled(o, g);
  }
}
