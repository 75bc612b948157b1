/** The livelock detector: threads that keep aborting are searched for a cycle of write
    conflicts, by depth-first search over hash sets whose iteration order is arbitrary.
 */
module Deadlock {
  import opened Options

  type WriteSets = map<nat, seq<nat>>

  // Write sets of the last aborted, and of the last committed, attempt of each thread.
  datatype Conflict = Conflict(aborted: WriteSets, committed: WriteSets)

  datatype Report = Report(cycle: seq<nat>, addrs: set<nat>, retries: nat)

  /* ----- the conflict graph ----- */

  ghost predicate Shares(xs: seq<nat>, ys: seq<nat>) {
    exists a :: a in xs && a in ys
  }

  // u last aborted with an address that v wrote.
  ghost predicate Edge(g: Conflict, u: nat, v: nat) {
    && u in g.aborted && v != u
    && (|| (v in g.aborted && Shares(g.aborted[v], g.aborted[u]))
        || (v in g.committed && Shares(g.committed[v], g.aborted[u])))
  }

  function Threads(g: Conflict): set<nat> {
    g.aborted.Keys + g.committed.Keys
  }

  ghost predicate Walk(g: Conflict, p: seq<nat>) {
    forall i, j :: 0 <= i < j < |p| && j == i + 1 ==> Edge(g, p[i], p[j])
  }

  ghost predicate WalkTo(g: Conflict, t: nat, p: seq<nat>, u: nat) {
    p != [] && p[0] == t && p[|p| - 1] == u && Walk(g, p)
  }

  ghost predicate Reaches(g: Conflict, t: nat, u: nat) {
    exists p :: WalkTo(g, t, p, u)
  }

  // Some other thread that t reaches has a conflict edge back to t.
  ghost predicate OnCycle(g: Conflict, t: nat) {
    exists u :: u != t && Reaches(g, t, u) && Edge(g, u, t)
  }

  ghost predicate Distinct(p: seq<nat>) {
    forall i, j :: 0 <= i < j < |p| ==> p[i] != p[j]
  }

  // A closed walk through t that visits no thread twice.
  ghost predicate IsCycle(g: Conflict, t: nat, p: seq<nat>) {
    |p| >= 3 && p[0] == t && p[|p| - 1] == t && Walk(g, p) && Distinct(p[..|p| - 1])
  }

  lemma {:induction false} CycleIsOnCycle(g: Conflict, t: nat, p: seq<nat>)
    requires IsCycle(g, t, p)
    ensures OnCycle(g, t)
  {
    var n := |p| - 1;
    var q := p[..n];
    assert q[0] != q[n - 1];
    assert WalkTo(g, t, q, p[n - 1]);
    assert Edge(g, p[n - 1], p[n]);
  }

  // Every edge out of `from` stays in `seen` and misses the target.
  ghost predicate Explored(g: Conflict, from: set<nat>, seen: set<nat>, target: nat) {
    forall u, v | u in from && v in Threads(g) && Edge(g, u, v) :: v in seen && v != target
  }

  lemma {:induction false} ReachesStayInside(g: Conflict, seen: set<nat>, t: nat, p: seq<nat>, u: nat)
    requires Explored(g, seen, seen, t) && t in seen && WalkTo(g, t, p, u)
    ensures u in seen
    decreases |p|
  {
    if |p| <= 1 {
    } else {
      var q := p[..|p| - 1];
      ReachesStayInside(g, seen, t, q, q[|q| - 1]);
      assert Edge(g, p[|p| - 2], p[|p| - 1]);
    }
  }

  lemma {:induction false} ExploredHasNoCycle(g: Conflict, seen: set<nat>, t: nat)
    requires Explored(g, seen, seen, t) && t in seen
    ensures !OnCycle(g, t)
  {
    forall u | u != t && Reaches(g, t, u) ensures !Edge(g, u, t) {
      var p :| WalkTo(g, t, p, u);
      ReachesStayInside(g, seen, t, p, u);
    }
  }

  // A thread whose last attempt committed waits for nobody.
  lemma {:induction false} CommitEndsWaiting(g: Conflict, t: nat)
    requires t !in g.aborted
    ensures !OnCycle(g, t)
  {
    ExploredHasNoCycle(g, {t}, t);
  }

  // Two threads that aborted over a common address block each other.
  lemma {:induction false} MutualAbortsCycle(g: Conflict, t: nat, u: nat)
    requires t != u && t in g.aborted && u in g.aborted && Shares(g.aborted[t], g.aborted[u])
    ensures OnCycle(g, t) && OnCycle(g, u)
  {
    assert Edge(g, t, u) && Edge(g, u, t);
    assert WalkTo(g, t, [t, u], u) && WalkTo(g, u, [u, t], t);
  }

  /* ----- the search ----- */

  class Search {
    var visited: set<nat>
    var stack: seq<nat>
    var path: seq<nat>

    constructor ()
      ensures visited == {} && stack == [] && path == []
    {
      visited, stack, path := {}, [], [];
    }
  }

  // The path from the target to the thread about to be entered.
  ghost predicate Entering(g: Conflict, current: nat, target: nat, visited: set<nat>, path: seq<nat>) {
    && Walk(g, path) && Distinct(path) && (forall x :: x in path ==> x in visited)
    && visited <= Threads(g) + {target}
    && (path == [] ==> current == target)
    && (path != [] ==> path[0] == target && Edge(g, path[|path| - 1], current))
  }

  lemma {:induction false} EnterNext(g: Conflict, current: nat, target: nat, visited: set<nat>, path: seq<nat>,
                                     seen: set<nat>, next: nat)
    requires Entering(g, current, target, visited, path) && current !in visited
    requires visited + {current} <= seen <= Threads(g) + {target} && Edge(g, current, next)
    ensures Entering(g, next, target, seen, path + [current])
  {
  }

  lemma {:induction false} CloseCycle(g: Conflict, current: nat, target: nat, visited: set<nat>, path: seq<nat>)
    requires Entering(g, current, target, visited, path) && current !in visited
    requires path != [] && Edge(g, current, target)
    ensures IsCycle(g, target, path + [current] + [target])
  {
    var p := path + [current] + [target];
    assert p[..|p| - 1] == path + [current];
  }

  lemma {:induction false} ExploredGrows(g: Conflict, a: set<nat>, b: set<nat>, c: set<nat>, target: nat)
    requires a <= b <= c && Explored(g, b - a, b, target) && Explored(g, c - b, c, target)
    ensures Explored(g, c - a, c, target)
  {
    forall u, v | u in c - a && v in Threads(g) && Edge(g, u, v) ensures v in c && v != target {
      if u in b { assert u in b - a; } else { assert u in c - b; }
    }
  }

  lemma {:induction false} ExploredCurrent(g: Conflict, seen: set<nat>, current: nat, conflicts: set<nat>,
                                           visited: set<nat>, target: nat)
    requires Explored(g, visited - (seen + {current}), visited, target)
    requires forall v :: v in conflicts <==> Edge(g, current, v)
    requires conflicts <= visited && target !in conflicts
    ensures Explored(g, visited - seen, visited, target)
  {
    forall u, v | u in visited - seen && v in Threads(g) && Edge(g, u, v) ensures v in visited && v != target {
      if u == current {
        assert v in conflicts;
      } else {
        assert u in visited - (seen + {current});
      }
    }
  }

  // The first place of t, or 0 if it has none.
  method Position(p: seq<nat>, t: nat) returns (i: nat)
    ensures t in p ==> i < |p| && p[i] == t && t !in p[..i]
    ensures t !in p ==> i == 0
  {
    i := 0;
    while i < |p| && p[i] != t
      invariant i <= |p| && t !in p[..i]
    {
      i := i + 1;
    }
    if i == |p| {
      i := 0;
    }
  }

  // All that the threads of p wrote, in aborted or committed attempts.
  ghost predicate WroteAddr(g: Conflict, p: seq<nat>, a: nat) {
    exists t :: t in p && ((t in g.aborted && a in g.aborted[t]) || (t in g.committed && a in g.committed[t]))
  }

  // Exactly one report for each stuck thread on a conflict cycle, and no other report.
  ghost predicate Reported(g: Conflict, retries: map<nat, nat>, max: nat, done: set<nat>, rs: seq<Report>) {
    && (forall i :: 0 <= i < |rs| ==> rs[i].cycle != [] && rs[i].cycle[0] in done)
    && (forall i :: 0 <= i < |rs| ==> IsReport(g, retries, max, rs[i]))
    && (forall i, j :: 0 <= i < j < |rs| ==> rs[i].cycle[0] != rs[j].cycle[0])
    && (forall t :: t in done && t in retries && retries[t] >= max && OnCycle(g, t) ==>
          exists i :: 0 <= i < |rs| && rs[i].cycle[0] == t)
  }

  ghost predicate IsReport(g: Conflict, retries: map<nat, nat>, max: nat, r: Report) {
    && r.cycle != [] && IsCycle(g, r.cycle[0], r.cycle)
    && r.cycle[0] in retries && max <= retries[r.cycle[0]] == r.retries
    && (forall a :: a in r.addrs <==> WroteAddr(g, r.cycle, a))
  }

  /* ----- what is remembered ----- */

  datatype Event = Aborted(tid: nat, ws: seq<nat>) | Committed(tid: nat, ws: seq<nat>)

  datatype Memory = Memory(retries: map<nat, nat>, committed: WriteSets, aborted: WriteSets)

  function Record(m: Memory, e: Event): Memory {
    match e
    case Aborted(t, ws) =>
      m.(retries := m.retries[t := if t in m.retries then m.retries[t] + 1 else 1], aborted := m.aborted[t := ws])
    case Committed(t, ws) =>
      Memory(m.retries - {t}, m.committed[t := ws], m.aborted - {t})
  }

  function Remembered(events: seq<Event>): Memory {
    if events == [] then Memory(map[], map[], map[])
    else Record(Remembered(events[..|events| - 1]), events[|events| - 1])
  }

  // The write sets with which t has aborted since it last committed.
  function Attempts(events: seq<Event>, t: nat): seq<seq<nat>> {
    if events == [] then []
    else
      var before, e := Attempts(events[..|events| - 1], t), events[|events| - 1];
      if e.tid != t then before else if e.Aborted? then before + [e.ws] else []
  }

  // The write set with which t last committed.
  function LastCommit(events: seq<Event>, t: nat): Option<seq<nat>> {
    if events == [] then None
    else
      var e := events[|events| - 1];
      if e == Committed(t, e.ws) then Some(e.ws) else LastCommit(events[..|events| - 1], t)
  }

  // In every history the retries of a thread are its aborts since its last commit, and the conflict graph is
  // built from the last of these and from that commit.
  lemma {:induction false} RememberedIs(events: seq<Event>, t: nat)
    ensures var m, tries := Remembered(events), Attempts(events, t);
            && (t in m.retries <==> tries != []) && (t in m.retries ==> m.retries[t] == |tries|)
            && (t in m.aborted <==> tries != []) && (t in m.aborted ==> m.aborted[t] == tries[|tries| - 1])
            && LastCommit(events, t) == if t in m.committed then Some(m.committed[t]) else None
    decreases |events|
  {
    if events == [] {
    } else {
      RememberedIs(events[..|events| - 1], t);
    }
  }

  // What t wrote in its last attempt, if that aborted, and in its last commit.
  function LastAttempt(events: seq<Event>, t: nat): seq<nat> {
    var tries := Attempts(events, t);
    if tries == [] then [] else tries[|tries| - 1]
  }

  function LastCommitted(events: seq<Event>, t: nat): seq<nat> {
    match LastCommit(events, t) case None => [] case Some(ws) => ws
  }

  ghost function GraphOf(events: seq<Event>): Conflict {
    Conflict(Remembered(events).aborted, Remembered(events).committed)
  }

  // In every history u waits for another thread v iff v wrote, in its last attempt or its last commit, an address
  // of the last attempt of u; and the addresses reported with a cycle are all those that its threads wrote.
  lemma {:induction false} ConflictsAre(events: seq<Event>, u: nat, v: nat)
    ensures Edge(GraphOf(events), u, v) <==>
            u != v && exists a :: a in LastAttempt(events, u) &&
                                  (a in LastAttempt(events, v) || a in LastCommitted(events, v))
  {
    RememberedIs(events, u);
    RememberedIs(events, v);
    var g := GraphOf(events);
    if Edge(g, u, v) {
      if v in g.aborted && Shares(g.aborted[v], g.aborted[u]) {
        var a :| a in g.aborted[v] && a in g.aborted[u];
        assert a in LastAttempt(events, u) && a in LastAttempt(events, v);
      } else {
        var a :| a in g.committed[v] && a in g.aborted[u];
        assert a in LastAttempt(events, u) && a in LastCommitted(events, v);
      }
    }
    if u != v {
      if a :| a in LastAttempt(events, u) && a in LastAttempt(events, v) {
        assert Shares(g.aborted[v], g.aborted[u]);
      }
      if a :| a in LastAttempt(events, u) && a in LastCommitted(events, v) {
        assert Shares(g.committed[v], g.aborted[u]);
      }
    }
  }

  lemma {:induction false} AddressesAre(events: seq<Event>, p: seq<nat>, a: nat)
    ensures WroteAddr(GraphOf(events), p, a) <==>
            exists t :: t in p && (a in LastAttempt(events, t) || a in LastCommitted(events, t))
  {
    forall t | t in p ensures
      ((t in Remembered(events).aborted && a in Remembered(events).aborted[t]) ||
       (t in Remembered(events).committed && a in Remembered(events).committed[t])) <==>
      a in LastAttempt(events, t) || a in LastCommitted(events, t)
    {
      RememberedIs(events, t);
    }
  }

  class Detector {
    var retries: map<nat, nat>
    var committed: WriteSets
    var aborted: WriteSets
    var maxRetries: nat
    var reports: seq<Report>

    ghost function Graph(): Conflict
      reads this
    {
      Conflict(aborted, committed)
    }

    constructor (max: nat)
      ensures retries == map[] && committed == map[] && aborted == map[] && maxRetries == max && reports == []
    {
      retries, committed, aborted, maxRetries, reports := map[], map[], map[], max, [];
    }

    ghost function Abs(): Memory
      reads this
    {
      Memory(retries, committed, aborted)
    }

    // A commit takes the thread out of every conflict cycle.
    method RecordCommit(tid: nat, ws: seq<nat>)
      modifies this
      ensures Abs() == Record(old(Abs()), Committed(tid, ws))
      ensures maxRetries == old(maxRetries) && reports == old(reports)
      ensures !OnCycle(Graph(), tid)
    {
      retries := retries - {tid};
      committed := committed[tid := ws];
      aborted := aborted - {tid};
      CommitEndsWaiting(Graph(), tid);
    }

    method RecordAbort(tid: nat, ws: seq<nat>)
      modifies this
      ensures Abs() == Record(old(Abs()), Aborted(tid, ws))
      ensures maxRetries == old(maxRetries) && reports == old(reports)
    {
      retries := retries[tid := if tid in retries then retries[tid] + 1 else 1];
      aborted := aborted[tid := ws];
    }

    // The threads of `sets` other than tid that wrote one of `mine`.
    method Overlapping(tid: nat, mine: set<nat>, sets: WriteSets) returns (r: set<nat>)
      ensures forall o :: o in r <==> o != tid && o in sets && exists a :: a in sets[o] && a in mine
    {
      r := {};
      var todo := sets.Keys;
      while todo != {}
        invariant todo <= sets.Keys
        invariant forall o :: o in r <==> o != tid && o in sets.Keys - todo && exists a :: a in sets[o] && a in mine
        decreases todo
      {
        var other :| other in todo;
        todo := todo - {other};
        if other != tid && exists a :: a in sets[other] && a in mine {
          r := r + {other};
        }
      }
    }

    method ConflictSet(tid: nat) returns (r: set<nat>)
      ensures forall v :: v in r <==> Edge(Graph(), tid, v)
    {
      var mine := if tid in aborted then set a | a in aborted[tid] else {};
      if mine == {} {
        assert tid in aborted ==> forall a :: a in aborted[tid] ==> a in mine;
        return {};
      }
      var fromAborts := Overlapping(tid, mine, aborted);
      var fromCommits := Overlapping(tid, mine, committed);
      r := fromAborts + fromCommits;
    }

    method Dfs(current: nat, target: nat, s: Search) returns (found: bool)
      requires Entering(Graph(), current, target, s.visited, s.path) && s.stack == s.path
      modifies s
      ensures found ==> IsCycle(Graph(), target, s.path)
      ensures !found ==> s.path == old(s.path) && s.stack == old(s.stack)
      ensures !found ==> old(s.visited) + {current} <= s.visited <= Threads(Graph()) + {target}
      ensures !found ==> Explored(Graph(), s.visited - old(s.visited), s.visited, target)
      decreases Threads(Graph()) + {target} - s.visited
    {
      if current in s.visited {
        return false;
      }
      ghost var g, seen, path := Graph(), s.visited, s.path;
      s.visited := s.visited + {current};
      s.stack := s.stack + [current];
      s.path := s.path + [current];
      var conflicts := ConflictSet(current);
      assert path == [] ==> target !in conflicts;
      ghost var entered, done := s.visited, {};
      assert Explored(g, s.visited - entered, s.visited, target);
      var todo := conflicts;
      while todo != {}
        invariant g == Graph() && s.path == s.stack == path + [current]
        invariant done + todo == conflicts && done <= s.visited && target !in done
        invariant entered <= s.visited <= Threads(g) + {target}
        invariant Explored(g, s.visited - entered, s.visited, target)
        decreases todo
      {
        var next :| next in todo;
        if next == target && |s.stack| >= 2 {
          s.path := s.path + [next];
          CloseCycle(g, current, target, seen, path);
          return true;
        }
        ghost var before := s.visited;
        EnterNext(g, current, target, seen, path, before, next);
        found := Dfs(next, target, s);
        if found {
          return true;
        }
        assert next != target;
        ExploredGrows(g, entered, before, s.visited, target);
        todo, done := todo - {next}, done + {next};
      }
      s.stack := s.stack[..|s.stack| - 1];
      s.path := s.path[..|s.path| - 1];
      found := false;
      ExploredCurrent(g, seen, current, conflicts, s.visited, target);
    }

    method DetectCycle(start: nat) returns (r: Option<seq<nat>>)
      ensures r.Some? <==> OnCycle(Graph(), start)
      ensures r.Some? ==> IsCycle(Graph(), start, r.value)
    {
      var s := new Search();
      var found := Dfs(start, start, s);
      if found {
        CycleIsOnCycle(Graph(), start, s.path);
        var i := Position(s.path, start);
        var cycle := s.path[i..];
        if |cycle| >= 2 {
          return Some(cycle);
        }
      } else {
        assert s.visited - {} == s.visited;
        ExploredHasNoCycle(Graph(), s.visited, start);
      }
      return None;
    }

    method AddrsInCycle(cycle: seq<nat>) returns (addrs: set<nat>)
      ensures forall a :: a in addrs <==> WroteAddr(Graph(), cycle, a)
    {
      addrs := {};
      for i := 0 to |cycle|
        invariant forall a :: a in addrs <==> WroteAddr(Graph(), cycle[..i], a)
      {
        ghost var before := addrs;
        var t := cycle[i];
        if t in aborted {
          addrs := addrs + set a | a in aborted[t];
        }
        if t in committed {
          addrs := addrs + set a | a in committed[t];
        }
        forall a ensures a in addrs <==> WroteAddr(Graph(), cycle[..i + 1], a) {
          assert cycle[..i + 1] == cycle[..i] + [t];
          assert a in before <==> WroteAddr(Graph(), cycle[..i], a);
          assert t in cycle[..i + 1];
        }
      }
      assert cycle[..|cycle|] == cycle;
    }

    method CheckThread(tid: nat) returns (r: Option<Report>)
      requires tid in retries
      ensures r.Some? <==> retries[tid] >= maxRetries && OnCycle(Graph(), tid)
      ensures r.Some? ==> IsReport(Graph(), retries, maxRetries, r.value) && r.value.cycle[0] == tid
    {
      if retries[tid] < maxRetries {
        return None;
      }
      var cycle := DetectCycle(tid);
      match cycle
      case None => r := None;
      case Some(p) =>
        var addrs := AddrsInCycle(p);
        r := Some(Report(p, addrs, retries[tid]));
    }

    // The report of one more thread, if it has one.
    method CheckNext(tid: nat, found: seq<Report>, ghost done: set<nat>) returns (more: seq<Report>)
      requires tid in retries && tid !in done && Reported(Graph(), retries, maxRetries, done, found)
      ensures Reported(Graph(), retries, maxRetries, done + {tid}, more)
    {
      more := found;
      var report := CheckThread(tid);
      if report.Some? {
        more := found + [report.value];
      }
      ReportedGrows(Graph(), retries, maxRetries, done, found, tid, more);
    }

    method Check() returns (found: seq<Report>)
      modifies this`reports
      ensures Reported(Graph(), retries, maxRetries, retries.Keys, found)
      ensures reports == old(reports) + found
    {
      found := [];
      ghost var done := {};
      var todo := retries.Keys;
      while todo != {}
        invariant reports == old(reports)
        invariant done !! todo && done + todo == retries.Keys
        invariant Reported(Graph(), retries, maxRetries, done, found)
        decreases todo
      {
        var tid :| tid in todo;
        found := CheckNext(tid, found, done);
        todo, done := todo - {tid}, done + {tid};
      }
      assert done == retries.Keys;
      reports := reports + found;
    }
  }

  lemma {:induction false} ReportedGrows(g: Conflict, retries: map<nat, nat>, max: nat, done: set<nat>, rs: seq<Report>,
                                         t: nat, rs': seq<Report>)
    requires Reported(g, retries, max, done, rs) && t !in done && t in retries
    requires (rs' == rs && !(retries[t] >= max && OnCycle(g, t)))
          || (|rs'| == |rs| + 1 && rs'[..|rs|] == rs && IsReport(g, retries, max, rs'[|rs|]) && rs'[|rs|].cycle[0] == t)
    ensures Reported(g, retries, max, done + {t}, rs')
  {
    var n := |rs|;
    assert forall i :: 0 <= i < n ==> rs'[i] == rs[i] by {
      if rs' != rs { assert forall i :: 0 <= i < n ==> rs'[..n][i] == rs'[i]; }
    }
    forall i, j | 0 <= i < j < |rs'| ensures rs'[i].cycle[0] != rs'[j].cycle[0] {
      assert rs[i].cycle[0] in done;
    }
    forall u | u in done + {t} && u in retries && retries[u] >= max && OnCycle(g, u)
      ensures exists i :: 0 <= i < |rs'| && rs'[i].cycle[0] == u
    {
      if u == t {
        assert rs'[|rs|].cycle[0] == u;
      } else {
        var i :| 0 <= i < |rs| && rs[i].cycle[0] == u;
        assert rs'[i].cycle[0] == u;
      }
    }
  }
}
