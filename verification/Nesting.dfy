/** The control flow injected around every transactional function: a per-thread nesting counter,
    a retry through sigsetjmp and siglongjmp, and the optional retry budget.
 */
module Nesting {

  datatype Event = Begin | End

  // A run of a function body: it returns, it aborts, or it calls a transactional function first.
  datatype Act = Done | Abort | Call(tries: Tries, rest: Act)

  // The bodies of a call, one for each time it is entered again after an abort.
  datatype Tries = Last(body: Act) | Then(body: Act, more: Tries)

  // A call returns, jumps to the enclosing sigsetjmp, or is still retrying when its tries are used up.
  datatype Outcome = Return | LongJmp | Unfinished

  datatype State = State(counter: int, retries: nat, trace: seq<Event>)

  datatype Result = Result(state: State, outcome: Outcome)

  /* ----- the emitted code as a function of the state ----- */

  // tx_ret_check, tx_outer_end or tx_nested_end, tx_cleanup. End stands for an end hook that returned: one
  // that fails its validation jumps back from inside, which is a body with Abort as its last act.
  function Leave(s: State): State {
    if s.counter == 1 then s.(counter := 0, trace := s.trace + [End]) else s.(counter := s.counter - 1)
  }

  function RunBody(max: nat, s: State, a: Act): Result
    decreases a, 0
  {
    match a
    case Done => Result(s, Return)
    case Abort => Result(s, LongJmp)
    case Call(tries, rest) =>
      var r := RunCall(max, s, tries);
      if r.outcome == Return then RunBody(max, r.state, rest) else r
  }

  function RunCall(max: nat, s: State, ts: Tries): Result
    decreases ts, 2
  {
    if s.counter == 0 then
      Try(max, if max > 0 then s.(retries := 0) else s, ts)
    else
      var r := RunBody(max, s.(counter := s.counter + 1), ts.body);
      if r.outcome == Return then r.(state := Leave(r.state)) else r
  }

  // tx_outer_go and what follows, until the call returns; max == 0 means no budget.
  function Try(max: nat, s: State, ts: Tries): Result
    decreases ts, 1
  {
    var r := RunBody(max, s.(counter := 1, trace := s.trace + [Begin]), ts.body);
    match r.outcome
    case Return => r.(state := Leave(r.state))
    case Unfinished => r
    case LongJmp => Again(max, r.state, ts)
  }

  // After the body of the first try jumped back: tx_retry_try, tx_giveup.
  function Again(max: nat, s: State, ts: Tries): Result
    decreases ts, 0
  {
    var t := if max > 0 then s.(retries := s.retries + 1) else s;
    if max > 0 && t.retries >= max then Result(Leave(t.(counter := 0, retries := 0)), Return)
    else match ts
      case Last(_) => Result(t, Unfinished)
      case Then(_, more) => Try(max, t, more)
  }

  /* ----- the emitted code step by step ----- */

  class Thread {
    var counter: int
    var jmpRet: int
    var retryCount: nat
    var trace: seq<Event>

    function Abs(): State
      reads this
    {
      State(counter, retryCount, trace)
    }

    predicate Valid()
      reads this
    {
      jmpRet == 0
    }

    constructor ()
      ensures Valid() && Abs() == State(0, 0, [])
    {
      counter, jmpRet, retryCount, trace := 0, 0, 0, [];
    }

    method Exit()
      requires Valid()
      modifies this
      ensures Valid() && Abs() == Leave(old(Abs()))
    {
      if counter == 1 {
        trace := trace + [End];
        jmpRet := 0;
      }
      counter := counter - 1;
    }

    method Body(max: nat, a: Act) returns (o: Outcome)
      requires Valid()
      modifies this
      ensures Valid() && Result(Abs(), o) == RunBody(max, old(Abs()), a)
      decreases a
    {
      match a
      case Done => o := Return;
      case Abort => o := LongJmp;
      case Call(tries, rest) =>
        o := Enter(max, tries);
        if o == Return {
          o := Body(max, rest);
        }
    }

    method Enter(max: nat, ts: Tries) returns (o: Outcome)
      requires Valid()
      modifies this
      ensures Valid() && Result(Abs(), o) == RunCall(max, old(Abs()), ts)
      decreases ts, 1
    {
      if counter == 0 || jmpRet != 0 {
        o := Outer(max, ts);
      } else {
        counter := counter + 1;
        o := Body(max, ts.body);
        if o == Return {
          Exit();
        }
      }
    }

    // sigsetjmp returns 0 the first time and 1 after every long jump.
    method Outer(max: nat, tries: Tries) returns (o: Outcome)
      requires Valid()
      modifies this
      ensures Valid() && Result(Abs(), o) == Try(max, if max > 0 then old(Abs()).(retries := 0) else old(Abs()), tries)
      decreases tries, 0
    {
      ghost var want := Try(max, if max > 0 then Abs().(retries := 0) else Abs(), tries);
      var ts, sigsetjmp := tries, 0;
      while true
        invariant Valid() && (sigsetjmp == 0 || sigsetjmp == 1)
        invariant ts == tries || ts < tries
        invariant sigsetjmp == 0 ==>
                    ts == tries && want == Try(max, if max > 0 then Abs().(retries := 0) else Abs(), ts)
        invariant sigsetjmp == 1 ==> want == Again(max, Abs(), ts)
        decreases ts, sigsetjmp == 0
      {
        jmpRet := sigsetjmp;
        jmpRet := 0;
        if max > 0 {
          if sigsetjmp != 0 {
            retryCount := retryCount + 1;
            if retryCount >= max {
              counter, jmpRet, retryCount := 0, 0, 0;
              Exit();
              return Return;
            }
          } else {
            retryCount := 0;
          }
        }
        if sigsetjmp != 0 {
          if ts.Last? {
            return Unfinished;
          }
          ts := ts.more;
        }
        counter := 1;
        trace := trace + [Begin];
        o := Body(max, ts.body);
        if o == Return {
          Exit();
          return;
        }
        if o == Unfinished {
          return;
        }
        sigsetjmp := 1;
      }
    }
  }

  /* ----- nested calls ----- */

  // Whether a run inside a transaction ends in an abort, at whatever depth.
  predicate Aborts(a: Act) {
    match a
    case Done => false
    case Abort => true
    case Call(tries, rest) => Aborts(tries.body) || Aborts(rest)
  }

  // Inside a transaction nothing is emitted, and the counter comes back unless the run jumps.
  lemma {:induction false} NestedSilent(max: nat, s: State, a: Act)
    requires s.counter >= 1
    ensures var r := RunBody(max, s, a);
            && r.outcome == (if Aborts(a) then LongJmp else Return)
            && r.state.trace == s.trace && r.state.retries == s.retries
            && r.state.counter >= s.counter && (r.outcome == Return ==> r.state == s)
    decreases a
  {
    match a
    case Done =>
    case Abort =>
    case Call(tries, rest) =>
      NestedSilent(max, s.(counter := s.counter + 1), tries.body);
      if !Aborts(tries.body) { NestedSilent(max, s, rest); }
  }

  /* ----- outermost calls ----- */

  // Aborts before the first try that gets through, and whether one does.
  function Fails(ts: Tries): nat {
    if !Aborts(ts.body) then 0
    else match ts case Last(_) => 1 case Then(_, more) => 1 + Fails(more)
  }

  predicate Succeeds(ts: Tries) {
    !Aborts(ts.body) || (ts.Then? && Succeeds(ts.more))
  }

  function Begins(n: nat): seq<Event> {
    if n == 0 then [] else [Begin] + Begins(n - 1)
  }

  lemma {:induction false} OneMoreBegin(trace: seq<Event>, n: nat)
    ensures trace + [Begin] + Begins(n) == trace + Begins(n + 1)
  {
  }

  // A try that aborts adds one begin and goes back to the sigsetjmp.
  lemma {:induction false} TryAborts(max: nat, s: State, ts: Tries) returns (r: State)
    requires Aborts(ts.body)
    ensures Try(max, s, ts) == Again(max, r, ts) && r.trace == s.trace + [Begin] && r.retries == s.retries
  {
    var t := s.(counter := 1, trace := s.trace + [Begin]);
    NestedSilent(max, t, ts.body);
    r := RunBody(max, t, ts.body).state;
  }

  // k aborts and then success: k + 1 begins, one end, counter back at 0.
  lemma {:induction false} TrySucceeds(max: nat, s: State, ts: Tries)
    requires Succeeds(ts) && (max == 0 || s.retries + Fails(ts) < max)
    ensures Try(max, s, ts) == Result(
      State(0, if max == 0 then s.retries else s.retries + Fails(ts), s.trace + Begins(Fails(ts) + 1) + [End]), Return)
    decreases ts
  {
    if Aborts(ts.body) {
      var r := TryAborts(max, s, ts);
      TrySucceeds(max, if max > 0 then r.(retries := r.retries + 1) else r, ts.more);
      OneMoreBegin(s.trace, Fails(ts));
    } else {
      NestedSilent(max, s.(counter := 1, trace := s.trace + [Begin]), ts.body);
      assert Begins(1) == [Begin];
    }
  }

  // A budget of max: after that many begins the call gives up, with no end and the counter at -1.
  lemma {:induction false} TryGivesUp(max: nat, s: State, ts: Tries)
    requires s.retries < max <= s.retries + Fails(ts)
    ensures Try(max, s, ts) == Result(State(-1, 0, s.trace + Begins(max - s.retries)), Return)
    decreases ts
  {
    var r := TryAborts(max, s, ts);
    if s.retries + 1 < max {
      TryGivesUp(max, r.(retries := r.retries + 1), ts.more);
      OneMoreBegin(s.trace, max - s.retries - 1);
    } else {
      assert Begins(1) == [Begin];
    }
  }

  // Tries that all abort, within the budget: the call is still retrying.
  lemma {:induction false} TryUnfinished(max: nat, s: State, ts: Tries)
    requires !Succeeds(ts) && (max == 0 || s.retries + Fails(ts) < max)
    ensures Try(max, s, ts).outcome == Unfinished
    ensures Try(max, s, ts).state.trace == s.trace + Begins(Fails(ts))
    decreases ts
  {
    var r := TryAborts(max, s, ts);
    if ts.Then? {
      TryUnfinished(max, if max > 0 then r.(retries := r.retries + 1) else r, ts.more);
      OneMoreBegin(s.trace, Fails(ts.more));
    } else {
      assert Begins(1) == [Begin];
    }
  }

  // An outermost call returns iff a try gets through or the budget runs out, and then the counter is
  // balanced iff it aborted fewer times than the budget allows.
  lemma {:induction false} OutermostCall(max: nat, s: State, ts: Tries)
    requires s.counter == 0
    ensures var r := RunCall(max, s, ts);
            && (r.outcome == Return <==> Succeeds(ts) || 0 < max <= Fails(ts)) && r.outcome != LongJmp
            && (r.outcome == Return ==> r.state.counter == if max == 0 || Fails(ts) < max then 0 else -1)
  {
    var t := if max > 0 then s.(retries := 0) else s;
    if 0 < max <= Fails(ts) {
      TryGivesUp(max, t, ts);
    } else if Succeeds(ts) {
      TrySucceeds(max, t, ts);
    } else {
      TryUnfinished(max, t, ts);
    }
  }

  // The body of an outermost call runs once per begin, and at most max times.
  lemma {:induction false} AttemptsBounded(max: nat, s: State, ts: Tries)
    requires s.counter == 0 && max > 0
    ensures exists n: nat :: n <= max && (RunCall(max, s, ts).state.trace == s.trace + Begins(n)
                                  || RunCall(max, s, ts).state.trace == s.trace + Begins(n) + [End])
  {
    var t := s.(retries := 0);
    if max <= Fails(ts) {
      TryGivesUp(max, t, ts);
    } else if Succeeds(ts) {
      TrySucceeds(max, t, ts);
      assert RunCall(max, s, ts).state.trace == s.trace + Begins(Fails(ts) + 1) + [End];
    } else {
      TryUnfinished(max, t, ts);
    }
  }

  /* ----- whole threads ----- */

  // Top-level code: calls, each of which gets through in the end.
  predicate Completes(a: Act) {
    match a
    case Done => true
    case Abort => false
    case Call(tries, rest) => Succeeds(tries) && Completes(rest)
  }

  function Expected(a: Act): seq<Event> {
    match a
    case Done => []
    case Abort => []
    case Call(tries, rest) => Begins(Fails(tries) + 1) + [End] + Expected(rest)
  }

  predicate WithinBudget(max: nat, a: Act) {
    match a
    case Done => true
    case Abort => true
    case Call(tries, rest) => (max == 0 || Fails(tries) < max) && WithinBudget(max, rest)
  }

  // Within the budget every top-level call is one block of begins and one end, and the counter is 0 after.
  lemma {:induction false} ThreadTrace(max: nat, s: State, a: Act)
    requires s.counter == 0 && Completes(a) && WithinBudget(max, a)
    ensures var r := RunBody(max, s, a);
            r.outcome == Return && r.state.counter == 0 && r.state.trace == s.trace + Expected(a)
    decreases a
  {
    match a
    case Done => assert s.trace + [] == s.trace;
    case Abort =>
    case Call(tries, rest) =>
      CallTrace(max, s, tries);
      ThreadTrace(max, RunCall(max, s, tries).state, rest);
      Append3(s.trace, Begins(Fails(tries) + 1), [End], Expected(rest));
  }

  lemma {:induction false} CallTrace(max: nat, s: State, ts: Tries)
    requires s.counter == 0 && Succeeds(ts) && (max == 0 || Fails(ts) < max)
    ensures var r := RunCall(max, s, ts);
            && r.outcome == Return && r.state.counter == 0
            && r.state.trace == s.trace + Begins(Fails(ts) + 1) + [End]
  {
    TrySucceeds(max, if max > 0 then s.(retries := 0) else s, ts);
  }

  lemma {:induction false} Append3(x: seq<Event>, y: seq<Event>, z: seq<Event>, rest: seq<Event>)
    ensures x + y + z + rest == x + (y + z + rest)
  {
  }

  // Calls of functions whose own transactional calls get through within the budget.
  predicate Splits(max: nat, a: Act) {
    match a
    case Done => true
    case Abort => false
    case Call(tries, rest) => Completes(tries.body) && WithinBudget(max, tries.body) && Splits(max, rest)
  }

  function SplitTrace(a: Act): seq<Event> {
    match a
    case Done => []
    case Abort => []
    case Call(tries, rest) => Expected(tries.body) + SplitTrace(rest)
  }

  // Once a call has given up, a function that is called does not begin a transaction of its own: each
  // transactional call that it makes is one, so what was atomic falls into pieces.
  lemma {:induction false} GiveUpSplits(max: nat, s: State, a: Act)
    requires s.counter == -1 && Splits(max, a)
    ensures var r := RunBody(max, s, a);
            r.outcome == Return && r.state.counter == -1 && r.state.trace == s.trace + SplitTrace(a)
    decreases a
  {
    match a
    case Done => assert s.trace + [] == s.trace;
    case Abort =>
    case Call(tries, rest) =>
      ThreadTrace(max, s.(counter := 0), tries.body);
      var t := RunCall(max, s, tries).state;
      GiveUpSplits(max, t, rest);
      assert s.trace + Expected(tries.body) + SplitTrace(rest) == s.trace + (Expected(tries.body) + SplitTrace(rest));
  }

  // Calls of functions that make no transactional calls of their own.
  predicate LeafCalls(a: Act) {
    match a
    case Done => true
    case Abort => false
    case Call(tries, rest) => tries.body == Done && LeafCalls(rest)
  }

  // Once a call has given up, no such call begins a transaction again.
  lemma {:induction false} GiveUpDisables(max: nat, s: State, a: Act)
    requires s.counter == -1 && LeafCalls(a)
    ensures RunBody(max, s, a) == Result(s, Return)
    decreases a
  {
    match a
    case Done =>
    case Abort =>
    case Call(tries, rest) =>
      assert RunBody(max, s.(counter := 0), tries.body) == Result(s.(counter := 0), Return);
      GiveUpDisables(max, s, rest);
  }

  // A counter that is not positive never rises again, whatever is called.
  lemma {:induction false} NeverRecovers(max: nat, s: State, a: Act)
    requires s.counter <= 0
    ensures var r := RunBody(max, s, a); r.outcome == Return ==> r.state.counter <= s.counter
    decreases a
  {
    match a
    case Done =>
    case Abort =>
    case Call(tries, rest) =>
      if s.counter == 0 {
        OutermostCall(max, s, tries);
      } else {
        NeverRecovers(max, s.(counter := s.counter + 1), tries.body);
      }
      var r := RunCall(max, s, tries);
      if r.outcome == Return { NeverRecovers(max, r.state, rest); }
  }

  // A thread ends with a balanced counter iff none of its top-level calls used up the budget.
  lemma {:induction false} ThreadBalancedIff(max: nat, s: State, a: Act)
    requires s.counter == 0 && RunBody(max, s, a).outcome == Return
    ensures RunBody(max, s, a).state.counter == 0 <==> WithinBudget(max, a)
    decreases a
  {
    match a
    case Done =>
    case Call(tries, rest) =>
      OutermostCall(max, s, tries);
      var t := RunCall(max, s, tries).state;
      if t.counter == 0 { ThreadBalancedIff(max, t, rest); } else { NeverRecovers(max, t, rest); }
  }
}
