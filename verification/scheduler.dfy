/** The ECS system scheduler (`ECS::run`, identical in ECS.h and ECS.cpp).
    A system is a function of the ECS returning whether it wants to run again
    on the next tick. Here a system is an opaque value `S`, the rest of the
    ECS a world state `W`, and calling a system is the oracle `invoke`, which
    returns the system's verdict and the world it leaves behind. */
module Scheduler {

  /** Reference filter: the members of `xs` whose verdict is true, in order. */
  function Select<S>(xs: seq<S>, keep: seq<bool>): seq<S>
    requires |keep| == |xs|
    decreases |xs|
  {
    if |xs| == 0 then []
    else (if keep[0] then [xs[0]] else []) + Select(xs[1..], keep[1..])
  }

  /** Positions at or after `from` whose verdict is true, ascending. */
  function Positions(keep: seq<bool>, from: nat): (ps: seq<nat>)
    requires from <= |keep|
    ensures forall j | 0 <= j < |ps| :: from <= ps[j] < |keep| && keep[ps[j]]
    ensures forall j, l | 0 <= j < l < |ps| :: ps[j] < ps[l]
    decreases |keep| - from
  {
    if from == |keep| then []
    else (if keep[from] then [from] else []) + Positions(keep, from + 1)
  }

  /** Every true position at or after `from` is listed. */
  lemma {:induction false} PositionsComplete(keep: seq<bool>, from: nat, i: nat)
    requires from <= i < |keep| && keep[i]
    ensures i in Positions(keep, from)
    decreases |keep| - from
  {
    if from < i {
      PositionsComplete(keep, from + 1, i);
    }
  }

  /** `Select` keeps exactly the members at true positions, in their original
      relative order: member j of the result is `xs[Positions(keep, 0)[j]]`. */
  lemma SelectIsOrderedSubsequence<S>(xs: seq<S>, keep: seq<bool>)
    requires |keep| == |xs|
    ensures |Select(xs, keep)| == |Positions(keep, 0)|
    ensures forall j | 0 <= j < |Positions(keep, 0)| :: Select(xs, keep)[j] == xs[Positions(keep, 0)[j]]
  {
    SelectFrom(xs, keep, 0);
    assert xs[0..] == xs && keep[0..] == keep;
  }

  lemma {:induction false} SelectFrom<S>(xs: seq<S>, keep: seq<bool>, from: nat)
    requires |keep| == |xs| && from <= |xs|
    ensures |Select(xs[from..], keep[from..])| == |Positions(keep, from)|
    ensures forall j | 0 <= j < |Positions(keep, from)| ::
              Select(xs[from..], keep[from..])[j] == xs[Positions(keep, from)[j]]
    decreases |xs| - from
  {
    if from < |xs| {
      SelectFrom(xs, keep, from + 1);
      assert xs[from..][1..] == xs[from + 1..] && keep[from..][1..] == keep[from + 1..];
    }
  }

  /** Membership in `Select`: some position holding `x` said true. */
  lemma {:induction false} SelectMembership<S>(xs: seq<S>, keep: seq<bool>, x: S)
    requires |keep| == |xs|
    ensures x in Select(xs, keep) <==> exists i | 0 <= i < |xs| :: xs[i] == x && keep[i]
    decreases |xs|
  {
    if |xs| > 0 {
      SelectMembership(xs[1..], keep[1..], x);
      assert Select(xs, keep) == (if keep[0] then [xs[0]] else []) + Select(xs[1..], keep[1..]);
      if exists i | 0 <= i < |xs| :: xs[i] == x && keep[i] {
        var i :| 0 <= i < |xs| && xs[i] == x && keep[i];
        if i > 0 {
          assert xs[1..][i - 1] == x && keep[1..][i - 1];
        }
      }
      if exists i | 0 <= i < |xs[1..]| :: xs[1..][i] == x && keep[1..][i] {
        var i :| 0 <= i < |xs[1..]| && xs[1..][i] == x && keep[1..][i];
        assert xs[i + 1] == x && keep[i + 1];
      }
    }
  }

  /** In a list without repetitions, a member whose verdict is false is not
      in the filtered list. */
  lemma SelectDropsFalse<S>(xs: seq<S>, keep: seq<bool>, i: nat)
    requires |keep| == |xs|
    requires forall a, b | 0 <= a < b < |xs| :: xs[a] != xs[b]
    requires i < |xs| && !keep[i]
    ensures xs[i] !in Select(xs, keep)
  {
    SelectMembership(xs, keep, xs[i]);
    forall j | 0 <= j < |xs| && xs[j] == xs[i]
      ensures !keep[j]
    {
      assert j == i;
    }
  }

  /** A list without repetitions stays without repetitions when filtered. */
  lemma {:induction false} SelectDistinct<S>(xs: seq<S>, keep: seq<bool>)
    requires |keep| == |xs|
    requires forall i, j | 0 <= i < j < |xs| :: xs[i] != xs[j]
    ensures forall i, j | 0 <= i < j < |Select(xs, keep)| :: Select(xs, keep)[i] != Select(xs, keep)[j]
  {
    SelectIsOrderedSubsequence(xs, keep);
  }

  /** Record of one tick: the list that ran, each system's verdict, the world
      each system was called with, the world after the tick and the list for
      the next tick. */
  datatype Tick<S, W> = Tick(ran: seq<S>, verdicts: seq<bool>, before: seq<W>, world: W, kept: seq<S>)

  /** `ECS::run`: call every system once, in list order, threading the world
      through the calls; the next list holds the systems that said true, in
      their original order. */
  function Run<S, W>(systems: seq<S>, w: W, invoke: (S, W) -> (bool, W)): (t: Tick<S, W>)
    ensures t.ran == systems
    ensures |t.verdicts| == |systems| && |t.before| == |systems|
    ensures |systems| > 0 ==> t.before[0] == w
    ensures forall i | 0 <= i < |systems| :: t.verdicts[i] == invoke(systems[i], t.before[i]).0
    ensures |systems| == 0 ==> t.world == w
    ensures |systems| > 0 ==> t.world == invoke(systems[|systems| - 1], t.before[|systems| - 1]).1
    ensures t.kept == Select(systems, t.verdicts)
    decreases |systems|
  {
    if |systems| == 0 then Tick([], [], [], w, [])
    else
      var first := invoke(systems[0], w);
      var rest := Run(systems[1..], first.1, invoke);
      var t := Tick(systems, [first.0] + rest.verdicts, [w] + rest.before, rest.world,
                    (if first.0 then [systems[0]] else []) + rest.kept);
      RunCons(systems, w, invoke, rest, t);
      t
  }

  /** What `Run` promises of its record `t`, in one place. */
  ghost predicate Threads<S, W>(t: Tick<S, W>, systems: seq<S>, w: W, invoke: (S, W) -> (bool, W)) {
    t.ran == systems && |t.verdicts| == |systems| && |t.before| == |systems|
    && (|systems| > 0 ==> t.before[0] == w)
    && (forall i | 0 <= i < |systems| :: t.verdicts[i] == invoke(systems[i], t.before[i]).0)
    && (|systems| == 0 ==> t.world == w)
    && (|systems| > 0 ==> t.world == invoke(systems[|systems| - 1], t.before[|systems| - 1]).1)
    && t.kept == Select(systems, t.verdicts)
  }

  /** The first call followed by a record of the rest is a record of the
      whole list. */
  lemma RunCons<S, W>(systems: seq<S>, w: W, invoke: (S, W) -> (bool, W), rest: Tick<S, W>, t: Tick<S, W>)
    requires |systems| > 0
    requires Threads(rest, systems[1..], invoke(systems[0], w).1, invoke)
    requires var first := invoke(systems[0], w);
             t == Tick(systems, [first.0] + rest.verdicts, [w] + rest.before, rest.world,
                       (if first.0 then [systems[0]] else []) + rest.kept)
    ensures Threads(t, systems, w, invoke)
  {
    var first := invoke(systems[0], w);
    assert t.kept == Select(systems, t.verdicts) by {
      assert t.verdicts[0] == first.0 && t.verdicts[1..] == rest.verdicts;
    }
    forall i | 1 <= i < |systems|
      ensures t.verdicts[i] == invoke(systems[i], t.before[i]).0
    {
      assert t.verdicts[i] == rest.verdicts[i - 1] && t.before[i] == rest.before[i - 1] && systems[i] == systems[1..][i - 1];
    }
    if |systems| > 1 {
      assert t.before[|systems| - 1] == rest.before[|systems| - 2] && systems[|systems| - 1] == systems[1..][|systems| - 2];
    }
  }

  /** Each system after the first is called with the world its predecessor
      left behind. */
  lemma {:induction false} RunThreadsWorld<S, W>(systems: seq<S>, w: W, invoke: (S, W) -> (bool, W), i: nat)
    requires i + 1 < |systems|
    ensures Run(systems, w, invoke).before[i + 1] == invoke(systems[i], Run(systems, w, invoke).before[i]).1
    decreases |systems|
  {
    var w1 := invoke(systems[0], w).1;
    var rest := Run(systems[1..], w1, invoke);
    if i > 0 {
      RunThreadsWorld(systems[1..], w1, invoke, i - 1);
    }
  }

  /** The list and world after `k` ticks. */
  function Ticks<S, W>(systems: seq<S>, w: W, invoke: (S, W) -> (bool, W), k: nat): (seq<S>, W)
    decreases k
  {
    if k == 0 then (systems, w)
    else
      var t := Run(systems, w, invoke);
      Ticks(t.kept, t.world, invoke, k - 1)
  }

  /** The records of the first `k` ticks. */
  function History<S, W>(systems: seq<S>, w: W, invoke: (S, W) -> (bool, W), k: nat): (h: seq<Tick<S, W>>)
    ensures |h| == k
    decreases k
  {
    if k == 0 then []
    else
      var t := Run(systems, w, invoke);
      [t] + History(t.kept, t.world, invoke, k - 1)
  }

  /** Some occurrence of `x` in the tick's list returned true. */
  predicate SaidTrue<S(==), W>(t: Tick<S, W>, x: S) {
    exists i | 0 <= i < |t.ran| && i < |t.verdicts| :: t.ran[i] == x && t.verdicts[i]
  }

  /** Filtering with all-true verdicts keeps the whole list. */
  lemma {:induction false} SelectAllTrue<S>(xs: seq<S>, keep: seq<bool>)
    requires |keep| == |xs|
    requires forall i | 0 <= i < |keep| :: keep[i]
    ensures Select(xs, keep) == xs
    decreases |xs|
  {
    if |xs| > 0 {
      assert keep[0];
      SelectAllTrue(xs[1..], keep[1..]);
    }
  }

  /** When every verdict of a tick is true, the list is unchanged. */
  lemma AllTrueKeepsList<S, W>(systems: seq<S>, w: W, invoke: (S, W) -> (bool, W))
    requires forall i | 0 <= i < |systems| :: Run(systems, w, invoke).verdicts[i]
    ensures Run(systems, w, invoke).kept == systems
  {
    var t := Run(systems, w, invoke);
    SelectAllTrue(systems, t.verdicts);
  }

  /** Instance of an oracle that always says true. */
  lemma SaysTrue<S, W>(invoke: (S, W) -> (bool, W), s: S, v: W)
    requires forall s', v' :: invoke(s', v').0
    ensures invoke(s, v).0
  {
  }

  /** A tick of systems that always say true keeps the whole list. */
  lemma AlwaysTrueRun<S, W>(systems: seq<S>, w: W, invoke: (S, W) -> (bool, W))
    requires forall s, v :: invoke(s, v).0
    ensures Run(systems, w, invoke).kept == systems
  {
    var t := Run(systems, w, invoke);
    forall i | 0 <= i < |systems|
      ensures t.verdicts[i]
    {
      SaysTrue(invoke, systems[i], t.before[i]);
    }
    AllTrueKeepsList(systems, w, invoke);
  }

  /** The list one tick from world `v` leaves. */
  function KeptFrom<S, W>(systems: seq<S>, v: W, invoke: (S, W) -> (bool, W)): seq<S>
  {
    Run(systems, v, invoke).kept
  }

  /** A list that every single tick keeps, whatever the world, is the list
      after any number of ticks. */
  lemma {:induction false} KeptIsStable<S, W>(systems: seq<S>, w: W, invoke: (S, W) -> (bool, W), k: nat)
    requires forall v :: KeptFrom(systems, v, invoke) == systems
    ensures Ticks(systems, w, invoke, k).0 == systems
    decreases k
  {
    if k > 0 {
      var next := TicksStep(systems, w, invoke, k);
      KeptIsStable(systems, next, invoke, k - 1);
    }
  }

  /** One tick peeled off the front of `Ticks`: a tick that keeps the list
      hands the remaining ticks the same list and the world `next`. */
  lemma TicksStep<S, W>(systems: seq<S>, w: W, invoke: (S, W) -> (bool, W), k: nat) returns (next: W)
    requires k > 0 && KeptFrom(systems, w, invoke) == systems
    ensures Ticks(systems, w, invoke, k) == Ticks(systems, next, invoke, k - 1)
  {
    next := Run(systems, w, invoke).world;
  }

  /** Systems that always say true are never removed: the list is the same
      after any number of ticks. */
  lemma AlwaysTrueIsStable<S, W>(systems: seq<S>, w: W, invoke: (S, W) -> (bool, W), k: nat)
    requires forall s, v :: invoke(s, v).0
    ensures Ticks(systems, w, invoke, k).0 == systems
  {
    forall v
      ensures KeptFrom(systems, v, invoke) == systems
    {
      AlwaysTrueRun(systems, v, invoke);
    }
    KeptIsStable(systems, w, invoke, k);
  }

  /** A system absent from a list is absent from every later list, hence
      never called again. */
  lemma {:induction false} AbsentStaysAbsent<S, W>(systems: seq<S>, w: W, invoke: (S, W) -> (bool, W), x: S, k: nat)
    requires x !in systems
    ensures x !in Ticks(systems, w, invoke, k).0
    decreases k
  {
    if k > 0 {
      var t := Run(systems, w, invoke);
      SelectMembership(systems, t.verdicts, x);
      AbsentStaysAbsent(t.kept, t.world, invoke, x, k - 1);
    }
  }

  /** In a list without repetitions, a system that says false on a tick is
      absent from the list of every later tick and so never runs again. */
  lemma DroppedForever<S, W>(systems: seq<S>, w: W, invoke: (S, W) -> (bool, W), i: nat, k: nat)
    requires forall a, b | 0 <= a < b < |systems| :: systems[a] != systems[b]
    requires i < |systems| && !Run(systems, w, invoke).verdicts[i]
    requires k >= 1
    ensures systems[i] !in Ticks(systems, w, invoke, k).0
  {
    var t := Run(systems, w, invoke);
    assert Ticks(systems, w, invoke, k) == Ticks(t.kept, t.world, invoke, k - 1);
    SelectDropsFalse(systems, t.verdicts, i);
    AbsentStaysAbsent(t.kept, t.world, invoke, systems[i], k - 1);
  }

  /** A system is kept by a tick exactly when it said true on it. */
  lemma KeptIffSaidTrue<S, W>(systems: seq<S>, w: W, invoke: (S, W) -> (bool, W), x: S)
    ensures x in Run(systems, w, invoke).kept <==> SaidTrue(Run(systems, w, invoke), x)
    ensures SaidTrue(Run(systems, w, invoke), x) ==> x in systems
  {
    var t := Run(systems, w, invoke);
    SelectMembership(systems, t.verdicts, x);
    if SaidTrue(t, x) {
      var i :| 0 <= i < |t.ran| && i < |t.verdicts| && t.ran[i] == x && t.verdicts[i];
      assert systems[i] == x;
    }
  }

  /** `x` said true on every tick of the record `h`. */
  predicate SaidTrueThroughout<S(==), W>(h: seq<Tick<S, W>>, x: S) {
    forall t | 0 <= t < |h| :: SaidTrue(h[t], x)
  }

  /** A history said true throughout exactly when its first tick did and the
      rest of it did. */
  lemma ThroughoutCons<S, W>(t0: Tick<S, W>, rest: seq<Tick<S, W>>, x: S)
    ensures SaidTrueThroughout([t0] + rest, x) <==> SaidTrue(t0, x) && SaidTrueThroughout(rest, x)
  {
    var h := [t0] + rest;
    if SaidTrueThroughout(h, x) {
      assert SaidTrue(h[0], x);
      forall t | 0 <= t < |rest|
        ensures SaidTrue(rest[t], x)
      {
        assert h[t + 1] == rest[t];
      }
    }
    if SaidTrue(t0, x) && SaidTrueThroughout(rest, x) {
      forall t | 0 <= t < |h|
        ensures SaidTrue(h[t], x)
      {
        if t > 0 {
          assert h[t] == rest[t - 1];
        }
      }
    }
  }

  /** After `k` ticks the list holds exactly the systems that said true on
      every one of those ticks. */
  lemma {:induction false} SurvivorsSaidTrueEveryTick<S, W>(systems: seq<S>, w: W, invoke: (S, W) -> (bool, W), k: nat, x: S)
    ensures x in Ticks(systems, w, invoke, k).0 <==>
              x in systems && SaidTrueThroughout(History(systems, w, invoke, k), x)
    decreases k
  {
    if k > 0 {
      var t0 := Run(systems, w, invoke);
      var h := History(systems, w, invoke, k);
      var rest := History(t0.kept, t0.world, invoke, k - 1);
      assert h == [t0] + rest;
      SurvivorsSaidTrueEveryTick(t0.kept, t0.world, invoke, k - 1, x);
      KeptIffSaidTrue(systems, w, invoke, x);
      ThroughoutCons(t0, rest, x);
      assert Ticks(systems, w, invoke, k) == Ticks(t0.kept, t0.world, invoke, k - 1);
    }
  }
}
