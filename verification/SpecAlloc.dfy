/** The runtime's speculative allocations and deferred frees: memory operations inside a
    transaction are undone when it begins again after an abort, and take effect when it ends.
 */
module SpecAlloc {

  const NULL: nat := 0

  /* ----- the heap ----- */

  // Calls of the allocator.
  datatype Ev = Alloc(p: nat) | Release(p: nat)

  function Live(log: seq<Ev>): set<nat> {
    if log == [] then {}
    else match log[|log| - 1]
      case Alloc(p) => Live(log[..|log| - 1]) + {p}
      case Release(p) => Live(log[..|log| - 1]) - {p}
  }

  // Nothing is handed out while it is live, and nothing is freed unless it is live.
  predicate Sane(log: seq<Ev>) {
    log == [] || (
      && Sane(log[..|log| - 1])
      && match log[|log| - 1]
         case Alloc(p) => p !in Live(log[..|log| - 1])
         case Release(p) => p in Live(log[..|log| - 1]))
  }

  lemma {:induction false} LogStep(log: seq<Ev>, e: Ev)
    ensures Live(log + [e]) == match e case Alloc(p) => Live(log) + {p} case Release(p) => Live(log) - {p}
    ensures Sane(log + [e]) <==> Sane(log) && match e case Alloc(p) => p !in Live(log) case Release(p) => p in Live(log)
  {
    assert (log + [e])[..|log|] == log;
  }

  // free() of each pointer in turn; freeing null does nothing.
  function ReleaseAll(log: seq<Ev>, ps: seq<nat>): seq<Ev>
    decreases |ps|
  {
    if ps == [] then log else ReleaseAll(if ps[0] == NULL then log else log + [Release(ps[0])], ps[1..])
  }

  // No pointer but null occurs twice.
  predicate Once(ps: seq<nat>) {
    forall i, j :: 0 <= i < j < |ps| && ps[i] != NULL ==> ps[i] != ps[j]
  }

  function Blocks(ps: seq<nat>): set<nat> {
    set p | p in ps && p != NULL
  }

  lemma {:induction false} ReleaseAllSane(log: seq<Ev>, ps: seq<nat>)
    requires Sane(log) && Once(ps) && Blocks(ps) <= Live(log)
    ensures Sane(ReleaseAll(log, ps)) && Live(ReleaseAll(log, ps)) == Live(log) - Blocks(ps)
    decreases |ps|
  {
    if ps == [] {
    } else {
      var rest := ps[1..];
      var next := if ps[0] == NULL then log else log + [Release(ps[0])];
      LogStep(log, Release(ps[0]));
      assert ps == [ps[0]] + rest;
      assert Blocks(ps) == Blocks(rest) + if ps[0] == NULL then {} else {ps[0]};
      assert Once(rest) && (ps[0] != NULL ==> ps[0] !in rest);
      ReleaseAllSane(next, rest);
    }
  }

  /* ----- the runtime as a state machine ----- */

  datatype State = State(log: seq<Ev>, spec: seq<nat>, deferred: seq<nat>, inTx: bool)

  // The argument of Begin and End is the nesting counter; that of Malloc (and calloc) what the allocator returned.
  datatype Op = Begin(depth: int) | End(depth: int) | Malloc(p: nat) | Free(p: nat)

  function Next(s: State, op: Op): State {
    match op
    case Begin(d) => if d == 1 then State(ReleaseAll(s.log, s.spec), [], [], true) else s
    case End(d) => if d == 1 then State(ReleaseAll(s.log, s.deferred), [], [], false) else s
    case Malloc(p) =>
      if p == NULL then s
      else s.(log := s.log + [Alloc(p)], spec := if s.inTx then [p] + s.spec else s.spec)
    case Free(p) =>
      if s.inTx then s.(deferred := [p] + s.deferred)
      else if p == NULL then s
      else s.(log := s.log + [Release(p)])
  }

  // The allocator hands out only free memory; the client ends what it began and frees only live blocks
  // it has not already freed.
  predicate Legal(s: State, op: Op) {
    match op
    case Begin(_) => true
    case End(d) => d == 1 ==> s.inTx
    case Malloc(p) => p == NULL || p !in Live(s.log)
    case Free(p) => p == NULL || (p in Live(s.log) && p !in s.deferred)
  }

  ghost predicate Inv(s: State) {
    && Sane(s.log) && Once(s.spec) && NULL !in s.spec && Once(s.deferred)
    && Blocks(s.spec) <= Live(s.log) && Blocks(s.deferred) <= Live(s.log)
    && (!s.inTx ==> s.spec == [] && s.deferred == [])
  }

  lemma {:induction false} OncePush(ps: seq<nat>, p: nat)
    requires Once(ps) && (p == NULL || p !in ps)
    ensures Once([p] + ps) && Blocks([p] + ps) == Blocks(ps) + if p == NULL then {} else {p}
  {
  }

  lemma {:induction false} NextKeeps(s: State, op: Op)
    requires Inv(s) && Legal(s, op)
    ensures Inv(Next(s, op))
  {
    match op
    case Begin(d) => ReleaseAllSane(s.log, s.spec);
    case End(d) => ReleaseAllSane(s.log, s.deferred);
    case Malloc(p) =>
      LogStep(s.log, Alloc(p));
      if p != NULL {
        assert forall q :: q in s.spec ==> q in Blocks(s.spec);
        OncePush(s.spec, p);
      }
    case Free(p) =>
      LogStep(s.log, Release(p));
      OncePush(s.deferred, p);
  }

  /* ----- runs ----- */

  function Run(s: State, ops: seq<Op>): State {
    if ops == [] then s else Next(Run(s, ops[..|ops| - 1]), ops[|ops| - 1])
  }

  predicate LegalRun(s: State, ops: seq<Op>) {
    ops == [] || (LegalRun(s, ops[..|ops| - 1]) && Legal(Run(s, ops[..|ops| - 1]), ops[|ops| - 1]))
  }

  // In every run no block is freed twice.
  lemma {:induction false} RunKeepsInv(s: State, ops: seq<Op>)
    requires Inv(s) && LegalRun(s, ops)
    ensures Inv(Run(s, ops))
    decreases |ops|
  {
    if ops == [] {
    } else {
      RunKeepsInv(s, ops[..|ops| - 1]);
      NextKeeps(Run(s, ops[..|ops| - 1]), ops[|ops| - 1]);
    }
  }

  // Operations inside one attempt: allocation, free, and nested begin and end.
  predicate Inside(ops: seq<Op>) {
    forall i :: 0 <= i < |ops| ==> !(ops[i].Begin? && ops[i].depth == 1) && !(ops[i].End? && ops[i].depth == 1)
  }

  function Allocated(ops: seq<Op>): set<nat> {
    if ops == [] then {} else Allocated(ops[..|ops| - 1]) + MallocOf(ops[|ops| - 1])
  }

  function MallocOf(op: Op): set<nat> {
    if op.Malloc? && op.p != NULL then {op.p} else {}
  }

  function Freed(ops: seq<Op>): set<nat> {
    if ops == [] then {} else Freed(ops[..|ops| - 1]) + FreeOf(ops[|ops| - 1])
  }

  function FreeOf(op: Op): set<nat> {
    if op.Free? && op.p != NULL then {op.p} else {}
  }

  // What an attempt has done so far.
  ghost predicate Attempted(s: State, s': State, ops: seq<Op>) {
    && s'.inTx && Live(s'.log) == Live(s.log) + Allocated(ops) && Live(s.log) !! Allocated(ops)
    && Blocks(s'.spec) == Allocated(ops) && Blocks(s'.deferred) == Freed(ops)
  }

  lemma {:induction false} AttemptStep(s: State, s': State, ops: seq<Op>, op: Op)
    requires Attempted(s, s', ops) && Inv(s') && Legal(s', op) && Inside(ops + [op])
    ensures Attempted(s, Next(s', op), ops + [op])
  {
    assert (ops + [op])[..|ops|] == ops && (ops + [op])[|ops|] == op;
    match op
    case Begin(_) =>
    case End(_) =>
    case Malloc(p) =>
      LogStep(s'.log, Alloc(p));
      if p != NULL {
        assert forall q :: q in s'.spec ==> q in Blocks(s'.spec);
        OncePush(s'.spec, p);
      }
    case Free(p) => OncePush(s'.deferred, p);
  }

  lemma {:induction false} AttemptRuns(s: State, ops: seq<Op>)
    requires Inv(s) && s.inTx && s.spec == [] && s.deferred == [] && LegalRun(s, ops) && Inside(ops)
    ensures Attempted(s, Run(s, ops), ops) && Inv(Run(s, ops))
    decreases |ops|
  {
    RunKeepsInv(s, ops);
    if ops == [] {
    } else {
      var most, op := ops[..|ops| - 1], ops[|ops| - 1];
      AttemptRuns(s, most);
      assert most + [op] == ops;
      AttemptStep(s, Run(s, most), most, op);
    }
  }

  // Beginning again after an abort restores the blocks that were live at the begin.
  lemma {:induction false} AbortRestores(s: State, ops: seq<Op>)
    requires Inv(s) && s.inTx && s.spec == [] && s.deferred == [] && LegalRun(s, ops) && Inside(ops)
    ensures var t := Next(Run(s, ops), Begin(1));
            Inv(t) && t.inTx && t.spec == [] && t.deferred == [] && Live(t.log) == Live(s.log)
  {
    AttemptRuns(s, ops);
    NextKeeps(Run(s, ops), Begin(1));
    ReleaseAllSane(Run(s, ops).log, Run(s, ops).spec);
  }

  // Ending adds what the attempt allocated and removes what it freed.
  lemma {:induction false} CommitApplies(s: State, ops: seq<Op>)
    requires Inv(s) && s.inTx && s.spec == [] && s.deferred == [] && LegalRun(s, ops) && Inside(ops)
    ensures var t := Next(Run(s, ops), End(1));
            Inv(t) && !t.inTx && Live(t.log) == Live(s.log) + Allocated(ops) - Freed(ops)
  {
    AttemptRuns(s, ops);
    NextKeeps(Run(s, ops), End(1));
    ReleaseAllSane(Run(s, ops).log, Run(s, ops).deferred);
  }

  // A transaction: some attempts that abort and begin again, and one that ends.
  function AfterAborts(s: State, tries: seq<seq<Op>>): State {
    if tries == [] then Next(s, Begin(1))
    else Next(Run(AfterAborts(s, tries[..|tries| - 1]), tries[|tries| - 1]), Begin(1))
  }

  predicate LegalTries(s: State, tries: seq<seq<Op>>) {
    tries == [] || (
      && LegalTries(s, tries[..|tries| - 1])
      && LegalRun(AfterAborts(s, tries[..|tries| - 1]), tries[|tries| - 1]) && Inside(tries[|tries| - 1]))
  }

  lemma {:induction false} AbortsLeaveNothing(s: State, tries: seq<seq<Op>>)
    requires Inv(s) && !s.inTx && LegalTries(s, tries)
    ensures var t := AfterAborts(s, tries);
            Inv(t) && t.inTx && t.spec == [] && t.deferred == [] && Live(t.log) == Live(s.log)
    decreases |tries|
  {
    if tries == [] {
      NextKeeps(s, Begin(1));
    } else {
      var n := |tries| - 1;
      AbortsLeaveNothing(s, tries[..n]);
      AbortRestores(AfterAborts(s, tries[..n]), tries[n]);
    }
  }

  // However often it aborts, a transaction has the effect of its last attempt alone.
  lemma {:induction false} TransactionEffect(s: State, tries: seq<seq<Op>>, last: seq<Op>)
    requires Inv(s) && !s.inTx && LegalTries(s, tries) && LegalRun(AfterAborts(s, tries), last) && Inside(last)
    ensures var t := Next(Run(AfterAborts(s, tries), last), End(1));
            Inv(t) && !t.inTx && Live(t.log) == Live(s.log) + Allocated(last) - Freed(last)
  {
    AbortsLeaveNothing(s, tries);
    CommitApplies(AfterAborts(s, tries), last);
  }

  // Outside a transaction an allocation counts at once, and a free takes the block away at once.
  lemma {:induction false} OutsideAtOnce(s: State, op: Op)
    requires Inv(s) && !s.inTx && Legal(s, op) && (op.Malloc? || op.Free?)
    ensures var t := Next(s, op);
            && Inv(t) && !t.inTx
            && Live(t.log) == if op.p == NULL then Live(s.log)
                              else if op.Malloc? then Live(s.log) + {op.p} else Live(s.log) - {op.p}
  {
    NextKeeps(s, op);
    LogStep(s.log, Alloc(op.p));
    LogStep(s.log, Release(op.p));
  }

  /* ----- whole programs ----- */

  // What a thread does: one operation outside any transaction, or a transaction with its aborted attempts.
  datatype Section = Plain(op: Op) | Tx(tries: seq<seq<Op>>, last: seq<Op>)

  function RunSection(s: State, x: Section): State {
    match x
    case Plain(op) => Next(s, op)
    case Tx(tries, last) => Next(Run(AfterAborts(s, tries), last), End(1))
  }

  predicate LegalSection(s: State, x: Section) {
    match x
    case Plain(op) => Legal(s, op) && (op.Malloc? || op.Free?)
    case Tx(tries, last) => LegalTries(s, tries) && LegalRun(AfterAborts(s, tries), last) && Inside(last)
  }

  function RunProgram(s: State, xs: seq<Section>): State {
    if xs == [] then s else RunSection(RunProgram(s, xs[..|xs| - 1]), xs[|xs| - 1])
  }

  predicate LegalProgram(s: State, xs: seq<Section>) {
    xs == [] || (LegalProgram(s, xs[..|xs| - 1]) && LegalSection(RunProgram(s, xs[..|xs| - 1]), xs[|xs| - 1]))
  }

  // The blocks the program means to hold: every operation counts at once, and aborted attempts not at all.
  function Held(live: set<nat>, xs: seq<Section>): set<nat> {
    if xs == [] then live
    else
      var before := Held(live, xs[..|xs| - 1]);
      match xs[|xs| - 1]
      case Plain(op) => before + MallocOf(op) - FreeOf(op)
      case Tx(_, last) => before + Allocated(last) - Freed(last)
  }

  lemma {:induction false} ProgramEffect(s: State, xs: seq<Section>)
    requires Inv(s) && !s.inTx && LegalProgram(s, xs)
    ensures var t := RunProgram(s, xs); Inv(t) && !t.inTx && Live(t.log) == Held(Live(s.log), xs)
    decreases |xs|
  {
    if xs == [] {
    } else {
      var n := |xs| - 1;
      ProgramEffect(s, xs[..n]);
      match xs[n]
      case Plain(op) => OutsideAtOnce(RunProgram(s, xs[..n]), op);
      case Tx(tries, last) => TransactionEffect(RunProgram(s, xs[..n]), tries, last);
    }
  }

  /* ----- the runtime ----- */

  class Runtime {
    var log: seq<Ev>
    var specAllocs: seq<nat>
    var deferredFrees: seq<nat>
    var inTx: bool

    ghost function Abs(): State
      reads this
    {
      State(log, specAllocs, deferredFrees, inTx)
    }

    constructor ()
      ensures Abs() == State([], [], [], false) && Inv(Abs())
    {
      log, specAllocs, deferredFrees, inTx := [], [], [], false;
    }

    method HeapFree(p: nat)
      modifies this`log
      ensures log == if p == NULL then old(log) else old(log) + [Release(p)]
    {
      if p != NULL {
        log := log + [Release(p)];
      }
    }

    method TrackSpecAlloc(p: nat)
      modifies this`specAllocs
      ensures specAllocs == if inTx && p != NULL then [p] + old(specAllocs) else old(specAllocs)
    {
      if inTx && p != NULL {
        specAllocs := [p] + specAllocs;
      }
    }

    method ClearSpecAllocs()
      modifies this`log, this`specAllocs
      ensures log == ReleaseAll(old(log), old(specAllocs)) && specAllocs == []
    {
      var node := specAllocs;
      while node != []
        invariant ReleaseAll(log, node) == ReleaseAll(old(log), old(specAllocs))
        decreases |node|
      {
        HeapFree(node[0]);
        node := node[1..];
      }
      specAllocs := [];
    }

    method FlushDeferredFrees()
      modifies this`log, this`deferredFrees
      ensures log == ReleaseAll(old(log), old(deferredFrees)) && deferredFrees == []
    {
      var node := deferredFrees;
      while node != []
        invariant ReleaseAll(log, node) == ReleaseAll(old(log), old(deferredFrees))
        decreases |node|
      {
        HeapFree(node[0]);
        node := node[1..];
      }
      deferredFrees := [];
    }

    method StubBegin(counter: int)
      requires Inv(Abs())
      modifies this
      ensures Abs() == Next(old(Abs()), Begin(counter)) && Inv(Abs())
    {
      NextKeeps(Abs(), Begin(counter));
      if counter == 1 {
        inTx := true;
        ClearSpecAllocs();
        deferredFrees := [];
      }
    }

    method StubEnd(counter: int)
      requires Inv(Abs()) && Legal(Abs(), End(counter))
      modifies this
      ensures Abs() == Next(old(Abs()), End(counter)) && Inv(Abs())
    {
      NextKeeps(Abs(), End(counter));
      if counter == 1 {
        specAllocs := [];
        FlushDeferredFrees();
        inTx := false;
      }
    }

    // p is what the allocator returns.
    method StubMalloc(p: nat)
      requires Inv(Abs()) && Legal(Abs(), Malloc(p))
      modifies this
      ensures Abs() == Next(old(Abs()), Malloc(p)) && Inv(Abs())
    {
      NextKeeps(Abs(), Malloc(p));
      if p != NULL {
        log := log + [Alloc(p)];
      }
      TrackSpecAlloc(p);
    }

    method StubFree(p: nat)
      requires Inv(Abs()) && Legal(Abs(), Free(p))
      modifies this
      ensures Abs() == Next(old(Abs()), Free(p)) && Inv(Abs())
    {
      NextKeeps(Abs(), Free(p));
      if inTx {
        deferredFrees := [p] + deferredFrees;
      } else {
        HeapFree(p);
      }
    }
  }
}
