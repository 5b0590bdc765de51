/**
  What a caller can decide beforehand: which lists of calls a pool of `n` workers answers right,
  whatever the workers' timing and wherever between the answers the calls are made.
*/
module PoolCalls {
  import opened Pool
  import opened PoolProofs
  import opened PoolSafety

  /** The worker that the `i`th call goes to. */
  function Turn(i: nat, n: nat): nat
    requires n > 0
  {
    i % n
  }

  ghost predicate SameVerdict(calls: seq<Request>, id: Id, c: bool) {
    forall i :: 0 <= i < |calls| && calls[i].id == id ==> Verdict(calls[i].payload) == c
  }

  ghost predicate SameWorker(calls: seq<Request>, id: Id, n: nat, w: nat)
    requires n > 0
  {
    forall i :: 0 <= i < |calls| && calls[i].id == id ==> Turn(i, n) == w
  }

  /** All calls under `id` have the same verdict, or their numbers are congruent modulo `n`. */
  ghost predicate Unambiguous(calls: seq<Request>, id: Id, n: nat)
    requires n > 0
  {
    (exists c :: SameVerdict(calls, id, c)) || (exists w: nat :: SameWorker(calls, id, n, w))
  }

  ghost predicate AllUnambiguous(calls: seq<Request>, n: nat)
    requires n > 0
  {
    forall id: Id :: Unambiguous(calls, id, n)
  }

  /** Every crash-free run with these calls settles every promise with the verdict on its own payload. */
  ghost predicate AlwaysRight(calls: seq<Request>, n: nat)
    requires n > 0
  {
    forall acts: seq<Action> :: CanRun(Init(n), acts) && NoCrash(acts) && Calls(acts) == calls ==>
      RightFrom(Run(Init(n), acts).settled, 0)
  }

  /** No worker in `dead` does anything any more, nor does one that crashes on the way. */
  ghost predicate StayDead(acts: seq<Action>, dead: set<nat>) {
    acts == [] ||
    (&& (acts[0].Compute? || acts[0].Deliver? ==> acts[0].w !in dead)
     && StayDead(acts[1..], Buried(acts[0], dead)))
  }

  ghost function Buried(a: Action, dead: set<nat>): set<nat> {
    if a.Crash? then dead + {a.w} else dead
  }

  /** The same for runs in which workers may crash and are then never heard of again. */
  ghost predicate AlwaysRightDespiteDeaths(calls: seq<Request>, n: nat)
    requires n > 0
  {
    forall acts: seq<Action> :: CanRun(Init(n), acts) && StayDead(acts, {}) && Calls(acts) == calls ==>
      RightFrom(Run(Init(n), acts).settled, 0)
  }

  // ---------------------------------------------------------------------------------------
  // Sufficient: an invariant for each id
  // ---------------------------------------------------------------------------------------

  /** Worker `w` alone has answers under the id, and all that is due unless it is dead. */
  ghost predicate Solo(q: seq<bool>, ff: seq<seq<bool>>, w: nat, dead: set<nat>) {
    forall v :: 0 <= v < |ff| ==> if v == w then w in dead || ff[v] == q else ff[v] == []
  }

  /** How the calls under `id` that are under way relate to the whole list of calls. */
  ghost predicate Fits(calls: seq<Request>, id: Id, n: nat, q: seq<bool>, ff: seq<seq<bool>>, dead: set<nat>)
    requires n > 0
  {
    || (exists c :: SameVerdict(calls, id, c) && AllAre(q, c) && FeedsAre(ff, c))
    || (exists w: nat :: SameWorker(calls, id, n, w) && Solo(q, ff, w, dead))
  }

  lemma FitsPop(calls: seq<Request>, id: Id, n: nat, q: seq<bool>, ff: seq<seq<bool>>, dead: set<nat>, w: nat)
    requires n > 0 && Fits(calls, id, n, q, ff, dead) && w < |ff| && w !in dead && ff[w] != [] && q != []
    ensures ff[w][0] == q[0] && Fits(calls, id, n, q[1..], ff[w := ff[w][1..]], dead)
  {
    if c :| SameVerdict(calls, id, c) && AllAre(q, c) && FeedsAre(ff, c) {
      AllAreTail(q, c);
      FeedsArePop(ff, c, w);
      assert AllAre(ff[w], c);
    } else {
      var v: nat :| SameWorker(calls, id, n, v) && Solo(q, ff, v, dead);
      assert Solo(q[1..], ff[w := ff[w][1..]], v, dead);
    }
  }

  lemma FitsMore(calls: seq<Request>, id: Id, n: nat, q: seq<bool>, ff: seq<seq<bool>>, dead: set<nat>, i: nat)
    requires n > 0 && Fits(calls, id, n, q, ff, dead) && |ff| == n
    requires i < |calls| && calls[i].id == id
    ensures var x, w := Verdict(calls[i].payload), Turn(i, n);
            Fits(calls, id, n, q + [x], ff[w := ff[w] + [x]], dead)
  {
    hide Verdict;
    var x, w := Verdict(calls[i].payload), Turn(i, n);
    if c :| SameVerdict(calls, id, c) && AllAre(q, c) && FeedsAre(ff, c) {
      AllAreMore(q, c);
      FeedsAreMore(ff, c, w);
    } else {
      var v: nat :| SameWorker(calls, id, n, v) && Solo(q, ff, v, dead);
      assert Solo(q + [x], ff[w := ff[w] + [x]], v, dead);
    }
  }

  lemma FitsCrash(calls: seq<Request>, id: Id, n: nat, q: seq<bool>, ff: seq<seq<bool>>, dead: set<nat>, w: nat)
    requires n > 0 && Fits(calls, id, n, q, ff, dead) && w < |ff|
    ensures Fits(calls, id, n, q, ff[w := []], dead + {w})
  {
    if c :| SameVerdict(calls, id, c) && AllAre(q, c) && FeedsAre(ff, c) {
      FeedsAreUpdate(ff, c, w, []);
    } else {
      var v: nat :| SameWorker(calls, id, n, v) && Solo(q, ff, v, dead);
      assert Solo(q, ff[w := []], v, dead + {w});
    }
  }

  ghost predicate FitsIn(calls: seq<Request>, id: Id, n: nat, s: State, dead: set<nat>)
    requires n > 0 && s.Valid()
  {
    Fits(calls, id, n, Due(s.queue, id), Feeds(Pipes(s), id), dead)
  }

  /** The next call of the list, if the step makes one. */
  ghost predicate OnList(calls: seq<Request>, n: nat, s: State, a: Action)
    requires n > 0
  {
    && |s.inbox| == n && s.roundRobin == Turn(s.calls, n)
    && (a.Submit? ==> s.calls < |calls| && calls[s.calls] == Request(a.id, a.payload))
  }

  lemma StepFits(calls: seq<Request>, id: Id, n: nat, s: State, dead: set<nat>, a: Action)
    requires n > 0 && s.Valid() && Enabled(s, a) && InFlight(s) <= Pending(s)
    requires OnList(calls, n, s, a) && FitsIn(calls, id, n, s, dead) && (a.Deliver? ==> a.w !in dead)
    ensures FitsIn(calls, id, n, Next(s, a), Buried(a, dead))
  {
    hide Due, Feeds, InFlight, Pending, FindIndex, Settle, Pipes, Next, Verdict, Fits, Turn;
    StepConserves(s, a);
    FeedCount(s, id);
    var q, ff := Due(s.queue, id), Feeds(Pipes(s), id);
    match a
    case Submit(id', payload) =>
      SubmitAppends(s, id', payload, id);
      if id' == id {
        FitsMore(calls, id, n, q, ff, dead, s.calls);
      } else {
        var w := s.roundRobin;
        assert ff[w] + [] == ff[w] && ff[w := ff[w]] == ff && q + [] == q;
      }
    case Compute(w) =>
      ComputeStutters(s, w);
      ComputeKeepsQueue(s, w);
    case Deliver(w) =>
      DeliverPops(s, w, id);
      if s.outbox[w][0].id == id {
        FitsPop(calls, id, n, q, ff, dead, w);
      }
    case Crash(w) =>
      CrashMoves(s, w);
      FeedsUpdate(Pipes(s), w, [], id);
      CrashKeepsQueue(s, w);
      FitsCrash(calls, id, n, q, ff, dead, w);
  }

  lemma FitsSettlesRight(calls: seq<Request>, n: nat, s: State, dead: set<nat>, a: Action)
    requires n > 0 && s.Valid() && Enabled(s, a) && InFlight(s) <= Pending(s) && RightFrom(s.settled, 0)
    requires a.Deliver? ==> a.w !in dead && FitsIn(calls, s.outbox[a.w][0].id, n, s, dead)
    ensures RightFrom(Next(s, a).settled, 0)
  {
    hide Due, Feeds, InFlight, Pending, FindIndex, Settle, Pipes, Next, Verdict, Fits;
    if a.Deliver? {
      var w, id := a.w, s.outbox[a.w][0].id;
      StepConserves(s, a);
      DeliverPops(s, w, id);
      FeedCount(s, id);
      FitsPop(calls, id, n, Due(s.queue, id), Feeds(Pipes(s), id), dead, w);
      DeliverSettlesRight(s, w, 0);
    } else {
      OthersSettleNothing(s, a);
    }
  }

  lemma StepTurns(n: nat, s: State, a: Action)
    requires n > 0 && s.Valid() && Enabled(s, a) && |s.inbox| == n && s.roundRobin == Turn(s.calls, n)
    ensures Next(s, a).roundRobin == Turn(Next(s, a).calls, n)
  {
    TurnNext(s.calls, n);
  }

  lemma {:induction false} ListedRunsSettleRight(calls: seq<Request>, n: nat, s: State, dead: set<nat>, acts: seq<Action>)
    requires n > 0 && s.Valid() && CanRun(s, acts) && StayDead(acts, dead) && InFlight(s) <= Pending(s)
    requires |s.inbox| == n && s.roundRobin == Turn(s.calls, n)
    requires s.calls <= |calls| && calls[s.calls..] == Calls(acts)
    requires RightFrom(s.settled, 0) && forall id: Id :: FitsIn(calls, id, n, s, dead)
    ensures RightFrom(Run(s, acts).settled, 0)
    decreases |acts|
  {
    if acts != [] {
      hide InFlight, Pending, FitsIn, RightFrom, Next, Turn;
      var a, rest := acts[0], Calls(acts[1..]);
      assert calls[s.calls..] == CallOf(a) + rest;
      assert a.Submit? ==> calls[s.calls] == calls[s.calls..][0];
      StepConserves(s, a);
      StepCounts(s, a);
      StepTurns(n, s, a);
      FitsSettlesRight(calls, n, s, dead, a);
      forall id: Id ensures FitsIn(calls, id, n, Next(s, a), Buried(a, dead)) {
        StepFits(calls, id, n, s, dead, a);
      }
      assert calls[s.calls + |CallOf(a)|..] == calls[s.calls..][|CallOf(a)|..] == rest;
      ListedRunsSettleRight(calls, n, Next(s, a), Buried(a, dead), acts[1..]);
    }
  }

  lemma NothingFits(calls: seq<Request>, id: Id, n: nat)
    requires n > 0 && Unambiguous(calls, id, n)
    ensures FitsIn(calls, id, n, Init(n), {})
  {
    var s := Init(n);
    assert forall w :: 0 <= w < n ==> Pipes(s)[w] == [];
    var q, ff := Due(s.queue, id), Feeds(Pipes(s), id);
    if c :| SameVerdict(calls, id, c) {
      assert AllAre(q, c) && FeedsAre(ff, c);
    } else {
      var w: nat :| SameWorker(calls, id, n, w);
      assert Solo(q, ff, w, {});
    }
  }

  lemma UnambiguousIsRight(calls: seq<Request>, n: nat)
    requires n > 0 && AllUnambiguous(calls, n)
    ensures AlwaysRightDespiteDeaths(calls, n)
  {
    hide Run, CanRun, InFlight, Pending, RightFrom, Unambiguous, FitsIn, StayDead;
    InitConserves(n);
    assert RightFrom(Init(n).settled, 0) by { NoneSettled(n); }
    Quotient(0, n, 0, 0);
    forall id: Id ensures FitsIn(calls, id, n, Init(n), {}) {
      NothingFits(calls, id, n);
    }
    forall acts: seq<Action> | CanRun(Init(n), acts) && StayDead(acts, {}) && Calls(acts) == calls
      ensures RightFrom(Run(Init(n), acts).settled, 0)
    {
      assert calls[0..] == calls;
      ListedRunsSettleRight(calls, n, Init(n), {}, acts);
    }
  }

  lemma NoneSettled(n: nat)
    requires n > 0
    ensures RightFrom(Init(n).settled, 0)
  {
  }

  // ---------------------------------------------------------------------------------------
  // Necessary: all calls first, then any order of answers
  // ---------------------------------------------------------------------------------------

  function SubmitAll(calls: seq<Request>): (acts: seq<Action>)
    ensures |acts| == |calls| && forall i :: 0 <= i < |acts| ==> acts[i] == Submit(calls[i].id, calls[i].payload)
  {
    seq(|calls|, i requires 0 <= i < |calls| => Submit(calls[i].id, calls[i].payload))
  }

  lemma {:induction false} SubmitsCanRun(s: State, calls: seq<Request>)
    requires s.Valid()
    ensures CanRun(s, SubmitAll(calls)) && Calls(SubmitAll(calls)) == calls
    decreases |calls|
  {
    hide Next;
    if calls != [] {
      var a := Submit(calls[0].id, calls[0].payload);
      assert SubmitAll(calls)[0] == a && SubmitAll(calls)[1..] == SubmitAll(calls[1..]);
      SubmitsCanRun(Next(s, a), calls[1..]);
      assert calls == [calls[0]] + calls[1..];
    }
  }

  /** The last of the submissions. */
  lemma SubmitLast(n: nat, calls: seq<Request>)
    requires n > 0 && calls != []
    ensures var k := |calls| - 1; var a := Submit(calls[k].id, calls[k].payload);
            && CanRun(Init(n), SubmitAll(calls[..k])) && CanRun(Init(n), SubmitAll(calls))
            && Run(Init(n), SubmitAll(calls)) == Next(Run(Init(n), SubmitAll(calls[..k])), a)
  {
    hide Next, Init;
    var k := |calls| - 1;
    var a := Submit(calls[k].id, calls[k].payload);
    var before := SubmitAll(calls[..k]);
    assert SubmitAll(calls) == before + [a];
    SubmitsCanRun(Init(n), calls[..k]);
    var s := Run(Init(n), before);
    RunCons(s, a, []);
    assert [a] + [] == [a];
    RunConcat(Init(n), before, [a]);
  }

  /** With all calls submitted, each one's verdict is on its way from the worker whose turn it was. */
  lemma {:induction false} VerdictsAreComing(n: nat, calls: seq<Request>, i: nat)
    requires n > 0 && i < |calls|
    ensures CanRun(Init(n), SubmitAll(calls))
    ensures var s := Run(Init(n), SubmitAll(calls));
            Turn(i, n) < n == |s.inbox| && Verdict(calls[i].payload) in Feeds(Pipes(s), calls[i].id)[Turn(i, n)]
    decreases |calls|
  {
    hide Next, Init, Run, CanRun, Feeds, Pipes, Verdict, Due, SubmitAll;
    var k := |calls| - 1;
    var last, id := calls[k], calls[i].id;
    SubmitLast(n, calls);
    var s := Run(Init(n), SubmitAll(calls[..k]));
    MadeInTurn(n, calls[..k]);
    SubmitAppends(s, last.id, last.payload, id);
    FeedCount(Next(s, Submit(last.id, last.payload)), id);
    if i < k {
      VerdictsAreComing(n, calls[..k], i);
    }
  }

  lemma MadeInTurn(n: nat, calls: seq<Request>)
    requires n > 0
    ensures CanRun(Init(n), SubmitAll(calls))
    ensures var s := Run(Init(n), SubmitAll(calls)); |s.inbox| == n && s.roundRobin == Turn(|calls|, n) < n
  {
    hide Run, CanRun, SubmitAll, Share;
    SubmitsCanRun(Init(n), calls);
    PoolIsFair(n, SubmitAll(calls));
  }

  lemma AlignedIsUnambiguous(n: nat, calls: seq<Request>, id: Id, s: State)
    requires n > 0 && CanRun(Init(n), SubmitAll(calls)) && s == Run(Init(n), SubmitAll(calls)) && AlignedFor(s, id)
    ensures Unambiguous(calls, id, n)
  {
    hide Run, CanRun, Init, Feeds, Pipes, Verdict, Due, Turn, SubmitAll;
    var q, ff := Due(s.queue, id), Feeds(Pipes(s), id);
    FeedCount(s, id);
    if w: nat :| Single(q, ff, w) {
      forall i | 0 <= i < |calls| && calls[i].id == id
        ensures Turn(i, n) == w
      {
        VerdictsAreComing(n, calls, i);
      }
      assert SameWorker(calls, id, n, w);
    } else {
      var c :| Constant(q, ff, c);
      forall i | 0 <= i < |calls| && calls[i].id == id
        ensures Verdict(calls[i].payload) == c
      {
        VerdictsAreComing(n, calls, i);
        assert AllAre(ff[Turn(i, n)], c);
      }
      assert SameVerdict(calls, id, c);
    }
  }

  lemma RightIsSafe(n: nat, calls: seq<Request>)
    requires n > 0 && AlwaysRight(calls, n)
    ensures CanRun(Init(n), SubmitAll(calls)) && Safe(Run(Init(n), SubmitAll(calls)))
  {
    hide Next, Init;
    var before := SubmitAll(calls);
    SubmitsCanRun(Init(n), calls);
    var s := Run(Init(n), before);
    forall acts: seq<Action> | NoSubmit(acts) && NoCrash(acts) && CanRun(s, acts)
      ensures RightFrom(Run(s, acts).settled, |s.settled|)
    {
      RunConcat(Init(n), before, acts);
      CallsConcat(before, acts);
      NoCalls(acts);
      assert calls + [] == calls;
      assert NoCrash(before + acts);
      assert RightFrom(Run(Init(n), before + acts).settled, 0);
      RightLater(Run(s, acts).settled, 0, |s.settled|);
    }
  }

  lemma {:induction false} NoCalls(acts: seq<Action>)
    requires NoSubmit(acts)
    ensures Calls(acts) == []
    decreases |acts|
  {
    if acts != [] {
      NoCalls(acts[1..]);
    }
  }

  lemma RightIsUnambiguous(calls: seq<Request>, n: nat)
    requires n > 0 && AlwaysRight(calls, n)
    ensures AllUnambiguous(calls, n)
  {
    hide Run, CanRun, Safe, AlignedFor, Unambiguous, AlwaysRight;
    RightIsSafe(n, calls);
    SafeIff(n, SubmitAll(calls));
    var s := Run(Init(n), SubmitAll(calls));
    assert AllAligned(s);
    forall id: Id ensures Unambiguous(calls, id, n) {
      AlignedIsUnambiguous(n, calls, id, s);
    }
  }

  lemma {:induction false} NobodyDied(acts: seq<Action>)
    requires NoCrash(acts)
    ensures StayDead(acts, {})
    decreases |acts|
  {
    if acts != [] {
      NobodyDied(acts[1..]);
    }
  }

  lemma DeathsOnlyAdd(calls: seq<Request>, n: nat)
    requires n > 0 && AlwaysRightDespiteDeaths(calls, n)
    ensures AlwaysRight(calls, n)
  {
    hide Run, CanRun, RightFrom, StayDead;
    forall acts: seq<Action> | CanRun(Init(n), acts) && NoCrash(acts) && Calls(acts) == calls
      ensures RightFrom(Run(Init(n), acts).settled, 0)
    {
      NobodyDied(acts);
    }
  }

  /** A list of calls is answered right by `n` workers in every interleaving if and only if for each id
      all calls under it have the same verdict, or all go to the same worker.  Workers that die on the
      way, and are sent further calls all the same, make no difference. */
  lemma CallsRightIffUnambiguous(calls: seq<Request>, n: nat)
    requires n > 0
    ensures AlwaysRight(calls, n) <==> AllUnambiguous(calls, n)
    ensures AlwaysRightDespiteDeaths(calls, n) <==> AllUnambiguous(calls, n)
  {
    hide AlwaysRight, AlwaysRightDespiteDeaths, AllUnambiguous;
    if AlwaysRight(calls, n) {
      RightIsUnambiguous(calls, n);
    }
    if AllUnambiguous(calls, n) {
      UnambiguousIsRight(calls, n);
    }
    if AlwaysRightDespiteDeaths(calls, n) {
      DeathsOnlyAdd(calls, n);
    }
  }

  /** So a pool of one answers every list of calls right, dead or alive. */
  lemma OneWorkerIsUnambiguous(calls: seq<Request>)
    ensures AlwaysRightDespiteDeaths(calls, 1)
  {
    hide AlwaysRightDespiteDeaths;
    forall id: Id ensures Unambiguous(calls, id, 1) {
      assert SameWorker(calls, id, 1, 0);
    }
    CallsRightIffUnambiguous(calls, 1);
  }
}
