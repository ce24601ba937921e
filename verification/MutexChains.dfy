/** What exact inheritance means along chains of blocked threads. */
module MutexChains {
  import opened Basics
  import opened WaitList
  import opened MutexModel
  import opened MutexWalk
  import opened MutexSteps
  import opened MutexKeeps
  import opened MutexRuns

  // path[i] waits for a mutex that path[i + 1] owns.
  ghost predicate Chain(s: Sys, path: seq<nat>) {
    && path != []
    && (forall i :: 0 <= i < |path| ==> path[i] < |s.thread|)
    && (forall i :: 0 <= i < |path| - 1 ==> BlockedBehind(s, path[i], path[i + 1]))
  }

  ghost predicate BlockedBehind(s: Sys, w: nat, o: nat) {
    exists m :: 0 <= m < |s.mutex| && WaitsFor(s, w, m) && Owns(s, o, m)
  }

  lemma OwnerNotLessUrgent(s: Sys, w: nat, o: nat)
    requires Safe(s) && w < |s.curr| && o < |s.curr| && BlockedBehind(s, w, o)
    ensures s.curr[o] <= s.curr[w]
  {
    var m :| 0 <= m < |s.mutex| && WaitsFor(s, w, m) && Owns(s, o, m);
    assert MutexShape(s, m) && Queued(s, m) && Bounded(s, o);
    assert w in s.waiters[m];
  }

  // Along any blocking chain the last owner is at least as urgent as the first thread is and as it
  // was created: no unbounded priority inversion.
  lemma {:induction false} ChainNotInverted(s: Sys, path: seq<nat>)
    requires Safe(s) && Chain(s, path)
    ensures s.curr[path[|path| - 1]] <= s.curr[path[0]] <= s.init[path[0]]
  {
    assert Bounded(s, path[0]);
    if |path| > 1 {
      assert BlockedBehind(s, path[0], path[1]);
      var rest := path[1..];
      forall i | 0 <= i < |rest| - 1 ensures BlockedBehind(s, rest[i], rest[i + 1]) {
        assert BlockedBehind(s, path[i + 1], path[i + 1 + 1]);
      }
      ChainNotInverted(s, rest);
      OwnerNotLessUrgent(s, path[0], path[1]);
    }
  }

  lemma NoInversionInAnyRun(s: Sys, steps: seq<Step>, path: seq<nat>)
    requires Safe(s) && Chain(Run(s, steps), path)
    ensures var r := Run(s, steps);
      |r.curr| == |r.init| == |r.thread| && r.curr[path[|path| - 1]] <= r.curr[path[0]] <= r.init[path[0]]
  {
    EveryRunSafe(s, steps);
    ChainNotInverted(Run(s, steps), path);
  }

  /* ---------- where a boost comes from ---------- */

  // Some thread was created with the priority of `t` and is blocked behind it, or is `t` itself.
  ghost predicate HasSource(s: Sys, t: nat)
    requires t < |s.curr| == |s.init| == |s.thread|
  {
    exists path :: SourceOf(s, path, t, s.curr[t])
  }

  ghost predicate SourceOf(s: Sys, path: seq<nat>, t: nat, p: nat)
    requires |s.init| == |s.thread|
  {
    Chain(s, path) && path[|path| - 1] == t && s.init[path[0]] == p
  }

  // Threads that run at `p` although none of them was created with it, and that nobody outside lends it.
  ghost predicate SelfBoosted(s: Sys, c: set<nat>, p: nat) {
    && |s.curr| == |s.init| == |s.thread|
    && (forall x :: x in c ==> x < |s.curr| && s.curr[x] == p != s.init[x])
    && (forall x, w :: x in c && 0 <= w < |s.curr| && BlockedBehind(s, w, x) && s.curr[w] == p ==> w in c)
  }

  // A chain into such a set never leaves it backwards.
  lemma {:induction false} NoSourceInside(s: Sys, c: set<nat>, p: nat, path: seq<nat>)
    requires Safe(s) && SelfBoosted(s, c, p) && Chain(s, path) && path[|path| - 1] in c
    ensures s.init[path[0]] != p
    decreases |path|
  {
    if s.init[path[0]] == p {
      ChainNotInverted(s, path);
      Backwards(s, c, p, path, 0);
    }
  }

  lemma {:induction false} Backwards(s: Sys, c: set<nat>, p: nat, path: seq<nat>, i: nat)
    requires Safe(s) && SelfBoosted(s, c, p) && Chain(s, path) && path[|path| - 1] in c && i < |path|
    requires s.init[path[0]] == p
    ensures path[i] in c
    decreases |path| - i
  {
    if i + 1 < |path| {
      Backwards(s, c, p, path, i + 1);
      assert BlockedBehind(s, path[i], path[i + 1]);
      OwnerNotLessUrgent(s, path[i], path[i + 1]);
      var front := path[..i + 1];
      forall j | 0 <= j < |front| - 1 ensures BlockedBehind(s, front[j], front[j + 1]) {
        assert BlockedBehind(s, path[j], path[j + 1]);
      }
      ChainNotInverted(s, front);
    }
  }

  lemma ExtendSource(s: Sys, path: seq<nat>, w: nat, x: nat, p: nat)
    requires |s.init| == |s.thread| && SourceOf(s, path, w, p) && x < |s.thread| && BlockedBehind(s, w, x)
    ensures SourceOf(s, path + [x], x, p)
  {
    var longer := path + [x];
    forall i | 0 <= i < |longer| - 1 ensures BlockedBehind(s, longer[i], longer[i + 1]) {
      if i < |path| - 1 { assert BlockedBehind(s, path[i], path[i + 1]); }
    }
  }

  // The threads at the priority of `t` without a source boost each other.
  lemma SourcelessIsSelfBoosted(s: Sys, p: nat)
    requires Safe(s)
    ensures SelfBoosted(s, (set x | 0 <= x < |s.curr| && s.curr[x] == p && !HasSource(s, x)), p)
  {
    var c := set x | 0 <= x < |s.curr| && s.curr[x] == p && !HasSource(s, x);
    forall x | x in c ensures s.init[x] != p {
      if s.init[x] == p { assert SourceOf(s, [x], x, p); }
    }
    forall x, w | x in c && 0 <= w < |s.curr| && BlockedBehind(s, w, x) && s.curr[w] == p ensures w in c {
      if HasSource(s, w) {
        var path :| SourceOf(s, path, w, p);
        ExtendSource(s, path, w, x, p);
      }
    }
  }

  /** A thread's priority is the initial priority of a thread blocked behind it, or its own, if and only
    * if it belongs to no set of threads that only boost each other. */
  lemma BoostHasASourceIff(s: Sys, t: nat)
    requires Safe(s) && t < |s.thread|
    ensures HasSource(s, t) <==> !exists c: set<nat> :: t in c && SelfBoosted(s, c, s.curr[t])
  {
    if HasSource(s, t) {
      var path :| SourceOf(s, path, t, s.curr[t]);
      forall c: set<nat> | t in c && SelfBoosted(s, c, s.curr[t]) ensures false {
        NoSourceInside(s, c, s.curr[t], path);
      }
    } else {
      SourcelessIsSelfBoosted(s, s.curr[t]);
    }
  }

  // `p` is the most urgent initial priority at the start of any chain that ends in `t`.
  ghost predicate MostUrgentBehind(s: Sys, t: nat, p: nat)
    requires |s.init| == |s.thread|
  {
    && (exists path :: SourceOf(s, path, t, p))
    && (forall path :: Chain(s, path) && path[|path| - 1] == t ==> p <= s.init[path[0]])
  }

  lemma AtLeastAsUrgent(s: Sys, t: nat)
    requires Safe(s) && t < |s.thread|
    ensures forall path :: Chain(s, path) && path[|path| - 1] == t ==> s.curr[t] <= s.init[path[0]]
  {
    forall path | Chain(s, path) && path[|path| - 1] == t ensures s.curr[t] <= s.init[path[0]] {
      ChainNotInverted(s, path);
    }
  }

  /** The current priority of a thread is exactly the most urgent initial priority found at the start of
    * any chain ending in it, if and only if the thread is in no set that only boosts itself. */
  lemma PriorityIsMostUrgentBehindIff(s: Sys, t: nat)
    requires Safe(s) && t < |s.thread|
    ensures MostUrgentBehind(s, t, s.curr[t]) <==> !exists c: set<nat> :: t in c && SelfBoosted(s, c, s.curr[t])
  {
    BoostHasASourceIff(s, t);
    AtLeastAsUrgent(s, t);
  }

  /** Where the equations hold, such a set is a deadlock: each of its threads has another one of them
    * blocked behind it. */
  lemma SelfBoostedIsDeadlock(s: Sys, c: set<nat>, p: nat, x: nat) returns (w: nat)
    requires Exact(s) && SelfBoosted(s, c, p) && x in c
    ensures w in c && BlockedBehind(s, w, x)
  {
    assert Inherits(s, x);
    var m :| 0 <= m < |s.mutex| && Owns(s, x, m) && s.curr[x] == s.mprio[m];
    assert MutexShape(s, m) && Current(s, m, {});
    w := s.waiters[m][0];
    assert w in s.waiters[m];
    assert BlockedBehind(s, w, x);
  }

  // There is no deadlock: threads can be ranked so that owners rank above those they block.
  ghost predicate Ranked(s: Sys, rank: seq<nat>) {
    && |rank| == |s.thread|
    && forall w, o :: 0 <= w < |rank| && 0 <= o < |rank| && BlockedBehind(s, w, o) ==> rank[w] < rank[o]
  }

  lemma {:induction false} RankedHasNone(s: Sys, rank: seq<nat>, c: set<nat>, p: nat, x: nat)
    requires Exact(s) && Ranked(s, rank) && x in c
    ensures !SelfBoosted(s, c, p)
    decreases if x < |rank| then rank[x] else 0
  {
    if SelfBoosted(s, c, p) {
      var w := SelfBoostedIsDeadlock(s, c, p, x);
      RankedHasNone(s, rank, c, p, w);
    }
  }

  // So without deadlock every priority is the most urgent initial priority behind its thread.
  lemma PriorityIsMostUrgentBehind(s: Sys, rank: seq<nat>, t: nat)
    requires Exact(s) && Ranked(s, rank) && t < |s.thread|
    ensures MostUrgentBehind(s, t, s.curr[t])
  {
    ExactIsSafe(s);
    PriorityIsMostUrgentBehindIff(s, t);
    forall c: set<nat> | t in c ensures !SelfBoosted(s, c, s.curr[t]) {
      RankedHasNone(s, rank, c, s.curr[t], t);
    }
  }
}
