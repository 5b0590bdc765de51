/**
  Replies are matched to pending calls by id alone.  This file says exactly when that settles every
  promise with the verdict on its own payload, whatever the order in which workers answer.
*/
module PoolSafety {
  import opened Pool
  import opened PoolProofs

  // ---------------------------------------------------------------------------------------
  // One id at a time
  // ---------------------------------------------------------------------------------------

  /** The verdicts the pending calls under `id` should get, the longest waiting first. */
  function Due(queue: seq<Task>, id: Id): seq<bool> {
    if queue == [] then [] else DueTo(queue[0], id) + Due(queue[1..], id)
  }

  function DueTo(t: Task, id: Id): seq<bool> {
    if t.id == id then [Verdict(t.payload)] else []
  }

  /** The verdicts that arrive under `id`. */
  function Verdicts(rs: seq<Reply>, id: Id): seq<bool> {
    if rs == [] then [] else VerdictOf(rs[0], id) + Verdicts(rs[1..], id)
  }

  function VerdictOf(r: Reply, id: Id): seq<bool> {
    if r.id == id then [r.isValid] else []
  }

  /** The verdicts that each worker will deliver under `id`. */
  function Feeds(pp: seq<seq<Reply>>, id: Id): (r: seq<seq<bool>>)
    ensures |r| == |pp| && forall w :: 0 <= w < |pp| ==> r[w] == Verdicts(pp[w], id)
  {
    seq(|pp|, w requires 0 <= w < |pp| => Verdicts(pp[w], id))
  }

  ghost predicate AllAre(s: seq<bool>, c: bool) { forall i :: 0 <= i < |s| ==> s[i] == c }

  ghost function Size<T>(ff: seq<seq<T>>): nat {
    if ff == [] then 0 else |ff[0]| + Size(ff[1..])
  }

  /** Only worker `w` answers, and it answers in the order of the queue. */
  ghost predicate Single(q: seq<bool>, ff: seq<seq<bool>>, w: nat) {
    w < |ff| && ff[w] <= q && forall v :: 0 <= v < |ff| && v != w ==> ff[v] == []
  }

  /** Every verdict that will arrive is `c`, and so is every one they can be matched with. */
  ghost predicate Constant(q: seq<bool>, ff: seq<seq<bool>>, c: bool) {
    && Size(ff) <= |q| && AllAre(q[..Size(ff)], c)
    && forall w :: 0 <= w < |ff| ==> AllAre(ff[w], c)
  }

  /** The condition on the verdicts due and on their way under one id. */
  ghost predicate Aligned(q: seq<bool>, ff: seq<seq<bool>>) {
    (exists w: nat :: Single(q, ff, w)) || (exists c :: Constant(q, ff, c))
  }

  /** The same said as a game: whoever delivers next, the verdict is the one due, and so on. */
  ghost predicate Agree(q: seq<bool>, ff: seq<seq<bool>>)
    decreases |q|
  {
    forall w :: 0 <= w < |ff| && ff[w] != [] ==>
      q != [] && ff[w][0] == q[0] && Agree(q[1..], ff[w := ff[w][1..]])
  }

  lemma {:induction false} SizeUpdate<T>(ff: seq<seq<T>>, w: nat, p: seq<T>)
    requires w < |ff|
    ensures Size(ff[w := p]) + |ff[w]| == Size(ff) + |p|
    decreases |ff|
  {
    var gg := ff[w := p];
    if w == 0 {
      assert gg[1..] == ff[1..];
    } else {
      assert gg[1..] == ff[1..][w - 1 := p] && gg[0] == ff[0];
      SizeUpdate(ff[1..], w - 1, p);
    }
  }

  lemma {:induction false} SizeOfEmpty<T>(ff: seq<seq<T>>)
    requires forall w :: 0 <= w < |ff| ==> ff[w] == []
    ensures Size(ff) == 0
    decreases |ff|
  {
    if ff != [] {
      assert ff[0] == [];
      SizeOfEmpty(ff[1..]);
    }
  }

  /** With only worker `w` non-empty. */
  lemma SizeOfSingle<T>(ff: seq<seq<T>>, w: nat)
    requires w < |ff| && forall v :: 0 <= v < |ff| && v != w ==> ff[v] == []
    ensures Size(ff) == |ff[w]|
  {
    SizeUpdate(ff, w, []);
    SizeOfEmpty(ff[w := []]);
  }

  /** Whoever delivers next from an aligned position, the verdict is the one due, and the position
      that is left is aligned. */
  lemma AlignedPop(q: seq<bool>, ff: seq<seq<bool>>, w: nat)
    requires Aligned(q, ff) && w < |ff| && ff[w] != []
    ensures q != [] && ff[w][0] == q[0] && Aligned(q[1..], ff[w := ff[w][1..]])
  {
    var gg := ff[w := ff[w][1..]];
    SizeUpdate(ff, w, ff[w][1..]);
    if v: nat :| Single(q, ff, v) {
      assert v == w;
      assert Single(q[1..], gg, w);
    } else {
      var c :| Constant(q, ff, c);
      assert q[..Size(ff)][0] == q[0];
      assert q[1..][..Size(gg)] == q[..Size(ff)][1..];
      assert Constant(q[1..], gg, c);
    }
  }

  /** A worker that crashes only takes verdicts away. */
  lemma AlignedCrash(q: seq<bool>, ff: seq<seq<bool>>, w: nat)
    requires Aligned(q, ff) && w < |ff|
    ensures Aligned(q, ff[w := []])
  {
    var gg := ff[w := []];
    SizeUpdate(ff, w, []);
    if v: nat :| Single(q, ff, v) {
      assert Single(q, gg, v);
    } else {
      var c :| Constant(q, ff, c);
      assert q[..Size(gg)] == q[..Size(ff)][..Size(gg)];
      assert Constant(q, gg, c);
    }
  }

  /** The condition is also necessary. */
  lemma {:induction false} AgreeIsAligned(q: seq<bool>, ff: seq<seq<bool>>)
    requires Agree(q, ff) && ff != []
    ensures Aligned(q, ff)
    decreases |q|
  {
    if forall w :: 0 <= w < |ff| ==> ff[w] == [] {
      assert Single(q, ff, 0);
    } else {
      var a :| 0 <= a < |ff| && ff[a] != [];
      var fa := ff[a := ff[a][1..]];
      AgreeIsAligned(q[1..], fa);
      if b :| 0 <= b < |ff| && b != a && ff[b] != [] {
        var fb := ff[b := ff[b][1..]];
        AgreeIsAligned(q[1..], fb);
        TwoWorkers(q, ff, a, fa, b, fb);
      } else {
        OneWorker(q, ff, a);
      }
    }
  }

  lemma OneWorker(q: seq<bool>, ff: seq<seq<bool>>, a: nat)
    requires a < |ff| && forall v :: 0 <= v < |ff| && v != a ==> ff[v] == []
    requires q != [] && ff[a] != [] && ff[a][0] == q[0] && Aligned(q[1..], ff[a := ff[a][1..]])
    ensures Aligned(q, ff)
  {
    var gg := ff[a := ff[a][1..]];
    SizeOfSingle(gg, a);
    if v: nat :| Single(q[1..], gg, v) {
      assert gg[a] <= q[1..];
    } else {
      var c :| Constant(q[1..], gg, c);
      assert gg[a] == q[1..][..Size(gg)];
    }
    assert ff[a] == [q[0]] + gg[a];
    assert Single(q, ff, a);
  }

  /** `ga` is what is left of `ff` after worker `a` delivered the verdict that was due. */
  ghost predicate Popped(q: seq<bool>, ff: seq<seq<bool>>, a: nat, fa: seq<seq<bool>>) {
    a < |ff| && q != [] && ff[a] != [] && ff[a][0] == q[0] && fa == ff[a := ff[a][1..]]
  }

  lemma TwoWorkers(q: seq<bool>, ff: seq<seq<bool>>, a: nat, fa: seq<seq<bool>>, b: nat, fb: seq<seq<bool>>)
    requires a != b && Popped(q, ff, a, fa) && Popped(q, ff, b, fb)
    requires Aligned(q[1..], fa) && Aligned(q[1..], fb)
    ensures Aligned(q, ff)
  {
    if c :| Constant(q[1..], fa, c) {
      ConstantBefore(q, ff, a, fa, b, c);
    } else if c :| Constant(q[1..], fb, c) {
      ConstantBefore(q, ff, b, fb, a, c);
    } else {
      OneEach(q, ff, a, fa, b, fb);
    }
  }

  lemma ConstantBefore(q: seq<bool>, ff: seq<seq<bool>>, a: nat, fa: seq<seq<bool>>, b: nat, c: bool)
    requires a != b && Popped(q, ff, a, fa) && b < |ff| && ff[b] != [] && ff[b][0] == q[0]
    requires Constant(q[1..], fa, c)
    ensures Constant(q, ff, c)
  {
    SizeUpdate(ff, a, ff[a][1..]);
    assert fa[b] == ff[b];
    assert q[0] == c;
    assert q[..Size(ff)] == [q[0]] + q[1..][..Size(fa)];
    assert ff[a] == [q[0]] + fa[a];
    forall w | 0 <= w < |ff|
      ensures AllAre(ff[w], c)
    {
      assert AllAre(fa[w], c);
    }
  }

  lemma OneEach(q: seq<bool>, ff: seq<seq<bool>>, a: nat, fa: seq<seq<bool>>, b: nat, fb: seq<seq<bool>>)
    requires a != b && Popped(q, ff, a, fa) && Popped(q, ff, b, fb)
    requires exists v: nat :: Single(q[1..], fa, v)
    requires exists v: nat :: Single(q[1..], fb, v)
    ensures Constant(q, ff, q[0])
  {
    var v: nat :| Single(q[1..], fa, v);
    assert fa[b] == ff[b];
    assert v == b;
    var u: nat :| Single(q[1..], fb, u);
    assert fb[a] == ff[a];
    assert u == a;
    assert fa[a] == [] && fb[b] == [];
    assert ff[a] == [q[0]] && ff[b] == [q[0]];
    forall w | 0 <= w < |ff|
      ensures AllAre(ff[w], q[0])
    {
      if w != a && w != b {
        assert fa[w] == ff[w];
      }
    }
    SizeUpdate(ff, a, ff[a][1..]);
    SizeOfSingle(fa, b);
    assert q[..2] == [q[0], q[0]];
  }

  // ---------------------------------------------------------------------------------------
  // Steps of the pool, seen from one id
  // ---------------------------------------------------------------------------------------

  ghost predicate AlignedFor(s: State, id: Id)
    requires s.Valid()
  {
    Aligned(Due(s.queue, id), Feeds(Pipes(s), id))
  }

  lemma FeedsUpdate(pp: seq<seq<Reply>>, w: nat, p: seq<Reply>, id: Id)
    requires w < |pp|
    ensures Feeds(pp[w := p], id) == Feeds(pp, id)[w := Verdicts(p, id)]
  {
  }

  lemma Assoc<T>(a: seq<T>, b: seq<T>, c: seq<T>)
    ensures (a + b) + c == a + (b + c)
  {
  }

  lemma {:induction false} DueConcat(a: seq<Task>, b: seq<Task>, id: Id)
    ensures Due(a + b, id) == Due(a, id) + Due(b, id)
    decreases |a|
  {
    hide DueTo;
    if a == [] {
      assert a + b == b;
    } else {
      DueConcat(a[1..], b, id);
      assert (a + b)[0] == a[0] && (a + b)[1..] == a[1..] + b;
      Assoc(DueTo(a[0], id), Due(a[1..], id), Due(b, id));
    }
  }

  lemma {:induction false} DueNone(a: seq<Task>, id: Id)
    requires forall k :: 0 <= k < |a| ==> a[k].id != id
    ensures Due(a, id) == []
    decreases |a|
  {
    if a != [] {
      DueNone(a[1..], id);
    }
  }

  /** Taking the longest waiting task of `id` out of the queue. */
  lemma TakeTask(queue: seq<Task>, id: Id, id': Id)
    requires FindIndex(queue, id) >= 0
    ensures var i := FindIndex(queue, id); var rest := queue[..i] + queue[i + 1..];
            if id' == id then Due(queue, id') == [Verdict(queue[i].payload)] + Due(rest, id')
            else Due(rest, id') == Due(queue, id')
  {
    hide Due, Verdict;
    var i := FindIndex(queue, id);
    var a, t, b := queue[..i], queue[i], queue[i + 1..];
    assert queue == a + ([t] + b);
    DueSplit(a, t, b, id');
    DueConcat(a, b, id');
    if id' == id {
      DueNone(a, id);
    }
  }

  lemma DueSplit(a: seq<Task>, t: Task, b: seq<Task>, id: Id)
    ensures Due(a + ([t] + b), id) == Due(a, id) + (DueTo(t, id) + Due(b, id))
  {
    DueConcat(a, [t] + b, id);
    DueConcat([t], b, id);
    DueOfOne(t, id);
  }

  lemma DeliverPopsFeed(s: State, w: nat, id: Id)
    requires s.Valid() && Enabled(s, Deliver(w))
    ensures var r := s.outbox[w][0]; var ff := Feeds(Pipes(s), id); var gg := Feeds(Pipes(Next(s, Deliver(w))), id);
            if r.id == id then ff[w] != [] && r.isValid == ff[w][0] && gg == ff[w := ff[w][1..]]
            else gg == ff
  {
    DeliverMoves(s, w);
    hide Next, Pipes;
    var p := Pipes(s)[w];
    FeedsUpdate(Pipes(s), w, p[1..], id);
    assert p[0] == s.outbox[w][0];
    var ff := Feeds(Pipes(s), id);
    if p[0].id == id {
      assert ff[w] == [p[0].isValid] + Verdicts(p[1..], id);
    } else {
      assert ff[w] == Verdicts(p[1..], id);
    }
  }

  lemma DeliverPopsQueue(s: State, w: nat, id: Id)
    requires s.Valid() && Enabled(s, Deliver(w)) && FindIndex(s.queue, s.outbox[w][0].id) >= 0
    ensures var q := Due(s.queue, id); var rest := Due(Next(s, Deliver(w)).queue, id);
            if s.outbox[w][0].id == id then q != [] && rest == q[1..] else rest == q
  {
    var i := FindIndex(s.queue, s.outbox[w][0].id);
    assert Next(s, Deliver(w)).queue == s.queue[..i] + s.queue[i + 1..];
    TakeTask(s.queue, s.outbox[w][0].id, id);
  }

  /** A delivery pops the verdict at the head of the worker's feed and the call that waited longest,
      and leaves the other ids alone. */
  lemma DeliverPops(s: State, w: nat, id: Id)
    requires s.Valid() && Enabled(s, Deliver(w)) && FindIndex(s.queue, s.outbox[w][0].id) >= 0
    ensures var s' := Next(s, Deliver(w)); var r := s.outbox[w][0];
            var q, ff := Due(s.queue, id), Feeds(Pipes(s), id);
            if r.id == id then
              && q != [] && ff[w] != [] && r.isValid == ff[w][0]
              && Due(s'.queue, id) == q[1..] && Feeds(Pipes(s'), id) == ff[w := ff[w][1..]]
            else Due(s'.queue, id) == q && Feeds(Pipes(s'), id) == ff
  {
    hide Next, Due, Feeds, Pipes, FindIndex;
    DeliverPopsFeed(s, w, id);
    DeliverPopsQueue(s, w, id);
  }

  /** What a delivery adds to the settled promises. */
  lemma DeliverSettles(s: State, w: nat)
    requires s.Valid() && Enabled(s, Deliver(w)) && FindIndex(s.queue, s.outbox[w][0].id) >= 0
    ensures var s' := Next(s, Deliver(w)); var r := s.outbox[w][0]; var q := Due(s.queue, r.id);
            && |s'.settled| == |s.settled| + 1 && s'.settled[..|s.settled|] == s.settled
            && q != [] && var last := s'.settled[|s.settled|];
            last.verdict == r.isValid && Verdict(last.task.payload) == q[0]
  {
    TakeTask(s.queue, s.outbox[w][0].id, s.outbox[w][0].id);
  }

  // ---------------------------------------------------------------------------------------
  // Exactly when every promise gets its own verdict
  // ---------------------------------------------------------------------------------------

  ghost predicate RightFrom(log: seq<Settled>, k: nat) {
    forall i :: k <= i < |log| ==> log[i].verdict == Verdict(log[i].task.payload)
  }

  ghost predicate NoSubmit(acts: seq<Action>) { forall i :: 0 <= i < |acts| ==> !acts[i].Submit? }

  ghost predicate NoCrash(acts: seq<Action>) { forall i :: 0 <= i < |acts| ==> !acts[i].Crash? }

  /** Whatever the workers do from here, each promise they settle gets the verdict on its own payload. */
  ghost predicate Safe(s: State)
    requires s.Valid()
  {
    forall acts: seq<Action> :: NoSubmit(acts) && NoCrash(acts) && CanRun(s, acts) ==>
      RightFrom(Run(s, acts).settled, |s.settled|)
  }

  /** The same if workers may also crash. */
  ghost predicate SafeDespiteCrashes(s: State)
    requires s.Valid()
  {
    forall acts: seq<Action> :: NoSubmit(acts) && CanRun(s, acts) ==> RightFrom(Run(s, acts).settled, |s.settled|)
  }

  ghost predicate AllAligned(s: State)
    requires s.Valid()
  {
    forall id: Id :: AlignedFor(s, id)
  }

  lemma StepStaysAligned(s: State, a: Action, id: Id)
    requires s.Valid() && Enabled(s, a) && !a.Submit? && InFlight(s) <= Pending(s) && AlignedFor(s, id)
    ensures AlignedFor(Next(s, a), id)
  {
    hide Aligned, Due, Feeds, InFlight, Pending, FindIndex, Settle, Pipes;
    StepConserves(s, a);
    match a
    case Compute(w) => ComputeStutters(s, w);
    case Deliver(w) =>
      DeliverPops(s, w, id);
      if s.outbox[w][0].id == id {
        AlignedPop(Due(s.queue, id), Feeds(Pipes(s), id), w);
      }
    case Crash(w) =>
      CrashMoves(s, w);
      FeedsUpdate(Pipes(s), w, [], id);
      AlignedCrash(Due(s.queue, id), Feeds(Pipes(s), id), w);
  }

  /** A delivery is right when the reply carries the verdict due to the longest waiting task. */
  lemma DeliverSettlesRight(s: State, w: nat, k: nat)
    requires s.Valid() && Enabled(s, Deliver(w)) && FindIndex(s.queue, s.outbox[w][0].id) >= 0
    requires var q := Due(s.queue, s.outbox[w][0].id); q != [] ==> s.outbox[w][0].isValid == q[0]
    requires RightFrom(s.settled, k)
    ensures RightFrom(Next(s, Deliver(w)).settled, k)
  {
    hide Due, FindIndex, Settle, Next, Verdict;
    DeliverSettles(s, w);
    RightMore(s.settled, Next(s, Deliver(w)).settled, k);
  }

  lemma OthersSettleNothing(s: State, a: Action)
    requires s.Valid() && Enabled(s, a) && !a.Deliver?
    ensures Next(s, a).settled == s.settled
  {
  }

  /** What one step settles is right when the position is aligned. */
  lemma StepSettlesRight(s: State, a: Action, k: nat)
    requires s.Valid() && Enabled(s, a) && InFlight(s) <= Pending(s)
    requires a.Deliver? ==> AlignedFor(s, s.outbox[a.w][0].id)
    requires RightFrom(s.settled, k)
    ensures RightFrom(Next(s, a).settled, k)
  {
    hide Aligned, Due, Feeds, InFlight, Pending, FindIndex, Settle, Pipes, Next, Verdict;
    if a.Deliver? {
      var w, id := a.w, s.outbox[a.w][0].id;
      StepConserves(s, a);
      DeliverPops(s, w, id);
      AlignedPop(Due(s.queue, id), Feeds(Pipes(s), id), w);
      DeliverSettlesRight(s, w, k);
    } else {
      OthersSettleNothing(s, a);
    }
  }

  lemma RightMore(log: seq<Settled>, log': seq<Settled>, k: nat)
    requires RightFrom(log, k) && |log'| == |log| + 1 && log'[..|log|] == log
    requires log'[|log|].verdict == Verdict(log'[|log|].task.payload)
    ensures RightFrom(log', k)
  {
    forall i | k <= i < |log'|
      ensures log'[i].verdict == Verdict(log'[i].task.payload)
    {
      if i < |log| {
        assert log'[i] == log[i];
      }
    }
  }

  lemma {:induction false} AlignedRunsRight(s: State, acts: seq<Action>, k: nat)
    requires s.Valid() && CanRun(s, acts) && NoSubmit(acts) && InFlight(s) <= Pending(s)
    requires AllAligned(s) && RightFrom(s.settled, k)
    ensures RightFrom(Run(s, acts).settled, k)
    decreases |acts|
  {
    if acts != [] {
      hide InFlight, Pending, AlignedFor, RightFrom, Next;
      var a := acts[0];
      StepConserves(s, a);
      StepSettlesRight(s, a, k);
      forall id: Id ensures AlignedFor(Next(s, a), id) {
        StepStaysAligned(s, a, id);
      }
      AlignedRunsRight(Next(s, a), acts[1..], k);
    }
  }

  lemma SafeStep(s: State, a: Action)
    requires s.Valid() && Safe(s) && Enabled(s, a) && !a.Submit? && !a.Crash?
    ensures Safe(Next(s, a)) && RightFrom(Next(s, a).settled, |s.settled|)
  {
    hide RightFrom, Next;
    var s' := Next(s, a);
    assert Run(s, [a]) == s' by {
      assert CanRun(s', []);
      assert [a][1..] == [];
    }
    LogGrows(s, a);
    forall acts: seq<Action> | NoSubmit(acts) && NoCrash(acts) && CanRun(s', acts)
      ensures RightFrom(Run(s', acts).settled, |s'.settled|)
    {
      assert ([a] + acts)[1..] == acts;
      assert CanRun(s, [a] + acts) && NoSubmit([a] + acts) && NoCrash([a] + acts);
      RightLater(Run(s', acts).settled, |s.settled|, |s'.settled|);
    }
  }

  lemma LogGrows(s: State, a: Action)
    requires s.Valid() && Enabled(s, a)
    ensures |s.settled| <= |Next(s, a).settled|
  {
  }

  lemma RightLater(log: seq<Settled>, k: nat, k': nat)
    requires RightFrom(log, k) && k <= k'
    ensures RightFrom(log, k')
  {
  }

  /** Steps the workers can still make. */
  ghost function Work(s: State): nat { 2 * Size(s.inbox) + Size(s.outbox) }

  lemma StepWorks(s: State, a: Action)
    requires s.Valid() && Enabled(s, a) && (a.Compute? || a.Deliver?)
    ensures Work(Next(s, a)) + 1 == Work(s)
  {
    hide FindIndex, Size;
    var s' := Next(s, a);
    if a.Compute? {
      SizeUpdate(s.inbox, a.w, s'.inbox[a.w]);
      SizeUpdate(s.outbox, a.w, s'.outbox[a.w]);
    } else {
      SizeUpdate(s.outbox, a.w, s'.outbox[a.w]);
    }
  }

  /** Delivering worker `w`'s mailbox until its first reply under `id` comes out. */
  lemma {:induction false} SafeFeed(s: State, id: Id, w: nat)
    requires s.Valid() && Safe(s) && InFlight(s) <= Pending(s)
    requires w < |s.inbox| && Feeds(Pipes(s), id)[w] != []
    ensures var q, ff := Due(s.queue, id), Feeds(Pipes(s), id);
            q != [] && ff[w][0] == q[0] && Agree(q[1..], ff[w := ff[w][1..]])
    decreases Work(s), 0
  {
    hide Safe, InFlight, Pending, Due, Feeds, Next, Agree, Pipes, Work, FindIndex;
    FeedHasHead(s, id, w);
    if s.outbox[w] == [] {
      var a := Compute(w);
      SafeStep(s, a);
      StepConserves(s, a);
      StepWorks(s, a);
      ComputeStutters(s, w);
      ComputeKeepsQueue(s, w);
      SafeFeed(Next(s, a), id, w);
    } else {
      var a := Deliver(w);
      SafeStep(s, a);
      StepConserves(s, a);
      StepWorks(s, a);
      DeliverPops(s, w, id);
      if s.outbox[w][0].id == id {
        DeliverSettles(s, w);
        SafeAgrees(Next(s, a), id);
      } else {
        SafeFeed(Next(s, a), id, w);
      }
    }
  }

  lemma ComputeKeepsQueue(s: State, w: nat)
    requires s.Valid() && Enabled(s, Compute(w))
    ensures Next(s, Compute(w)).queue == s.queue
  {
  }

  lemma FeedHasHead(s: State, id: Id, w: nat)
    requires s.Valid() && w < |s.inbox| && Feeds(Pipes(s), id)[w] != []
    ensures s.outbox[w] != [] || s.inbox[w] != []
  {
    assert Pipes(s)[w] != [];
  }

  lemma {:induction false} SafeAgrees(s: State, id: Id)
    requires s.Valid() && Safe(s) && InFlight(s) <= Pending(s)
    ensures Agree(Due(s.queue, id), Feeds(Pipes(s), id))
    decreases Work(s), 1
  {
    hide Safe, InFlight, Pending, Due, Feeds, Pipes, Work;
    var q, ff := Due(s.queue, id), Feeds(Pipes(s), id);
    forall w | 0 <= w < |ff| && ff[w] != []
      ensures q != [] && ff[w][0] == q[0] && Agree(q[1..], ff[w := ff[w][1..]])
    {
      assert |ff| == |s.inbox| by { FeedCount(s, id); }
      SafeFeed(s, id, w);
    }
  }

  lemma FeedCount(s: State, id: Id)
    requires s.Valid()
    ensures |Feeds(Pipes(s), id)| == |s.inbox|
  {
  }

  /** For a state that can be reached, with or without crashes: the workers' answers settle every
      promise with the verdict on its own payload, in every order, if and only if for each id either
      one worker alone answers, in the order of the queue, or all verdicts involved are the same.
      Crashes still to come make no difference. */
  lemma SafeIff(n: nat, run: seq<Action>)
    requires n > 0 && CanRun(Init(n), run)
    ensures Safe(Run(Init(n), run)) <==> AllAligned(Run(Init(n), run))
    ensures SafeDespiteCrashes(Run(Init(n), run)) <==> AllAligned(Run(Init(n), run))
  {
    InitConserves(n);
    Conservation(Init(n), run);
    var s := Run(Init(n), run);
    CrashesOnlyAdd(s);
    hide Run, CanRun, InFlight, Pending, AlignedFor, RightFrom, Safe, SafeDespiteCrashes, AllAligned;
    if Safe(s) {
      SafeIsAligned(s);
    }
    if AllAligned(s) {
      AlignedIsSafe(s);
    }
  }

  lemma CrashesOnlyAdd(s: State)
    requires s.Valid()
    ensures SafeDespiteCrashes(s) ==> Safe(s)
  {
    hide Run, CanRun, RightFrom;
  }

  lemma SafeIsAligned(s: State)
    requires s.Valid() && Safe(s) && InFlight(s) <= Pending(s)
    ensures AllAligned(s)
  {
    hide Safe, InFlight, Pending, Due, Feeds, Aligned, Agree, Pipes;
    forall id: Id ensures AlignedFor(s, id) {
      SafeAgrees(s, id);
      FeedCount(s, id);
      AgreeIsAligned(Due(s.queue, id), Feeds(Pipes(s), id));
    }
  }

  lemma AlignedIsSafe(s: State)
    requires s.Valid() && AllAligned(s) && InFlight(s) <= Pending(s)
    ensures SafeDespiteCrashes(s)
  {
    hide InFlight, Pending, AlignedFor;
    forall acts: seq<Action> | NoSubmit(acts) && CanRun(s, acts)
      ensures RightFrom(Run(s, acts).settled, |s.settled|)
    {
      AlignedRunsRight(s, acts, |s.settled|);
    }
  }

  // ---------------------------------------------------------------------------------------
  // Callers that keep the pool safe
  // ---------------------------------------------------------------------------------------

  /** Every task pending under `id` has the verdict `c`. */
  ghost predicate PendingAre(queue: seq<Task>, id: Id, c: bool) {
    forall i :: 0 <= i < |queue| && queue[i].id == id ==> Verdict(queue[i].payload) == c
  }

  /** A run whose callers reuse the id of a pending task only for a payload with the same verdict, in
      particular for the same payload. */
  ghost predicate Guarded(s: State, acts: seq<Action>)
    requires s.Valid() && CanRun(s, acts)
    decreases |acts|
  {
    acts == [] ||
    (&& (acts[0].Submit? ==> PendingAre(s.queue, acts[0].id, Verdict(acts[0].payload)))
     && Guarded(Next(s, acts[0]), acts[1..]))
  }

  ghost predicate FeedsAre(ff: seq<seq<bool>>, c: bool) { forall w :: 0 <= w < |ff| ==> AllAre(ff[w], c) }

  ghost predicate Uniform(s: State, id: Id)
    requires s.Valid()
  {
    exists c :: AllAre(Due(s.queue, id), c) && FeedsAre(Feeds(Pipes(s), id), c)
  }

  ghost predicate AllUniform(s: State)
    requires s.Valid()
  {
    forall id: Id :: Uniform(s, id)
  }

  lemma {:induction false} DueAre(queue: seq<Task>, id: Id, c: bool)
    requires PendingAre(queue, id, c)
    ensures AllAre(Due(queue, id), c)
    decreases |queue|
  {
    if queue != [] {
      DueAre(queue[1..], id, c);
    }
  }

  lemma {:induction false} DueSome(queue: seq<Task>, id: Id)
    requires id in multiset(QueueIds(queue))
    ensures Due(queue, id) != []
    decreases |queue|
  {
    if queue[0].id != id {
      var k :| 0 <= k < |queue| && QueueIds(queue)[k] == id;
      assert QueueIds(queue[1..])[k - 1] == id;
      DueSome(queue[1..], id);
    }
  }

  lemma {:induction false} VerdictsSome(rs: seq<Reply>, id: Id)
    requires Verdicts(rs, id) != []
    ensures id in Ids(rs)
    decreases |rs|
  {
    if rs[0].id != id {
      VerdictsSome(rs[1..], id);
      var k :| 0 <= k < |rs| - 1 && Ids(rs[1..])[k] == id;
      assert Ids(rs)[k + 1] == id;
    } else {
      assert Ids(rs)[0] == id;
    }
  }

  lemma {:induction false} VerdictsConcat(a: seq<Reply>, b: seq<Reply>, id: Id)
    ensures Verdicts(a + b, id) == Verdicts(a, id) + Verdicts(b, id)
    decreases |a|
  {
    hide VerdictOf;
    if a == [] {
      assert a + b == b;
    } else {
      VerdictsConcat(a[1..], b, id);
      assert (a + b)[0] == a[0] && (a + b)[1..] == a[1..] + b;
      Assoc(VerdictOf(a[0], id), Verdicts(a[1..], id), Verdicts(b, id));
    }
  }

  /** Nothing is on its way under an id that is not pending. */
  lemma NothingDueNothingComes(s: State, id: Id)
    requires s.Valid() && InFlight(s) <= Pending(s) && Due(s.queue, id) == []
    ensures forall w :: 0 <= w < |s.inbox| ==> Feeds(Pipes(s), id)[w] == []
  {
    hide Due, Verdicts, Total, Pipes;
    forall w | 0 <= w < |s.inbox|
      ensures Feeds(Pipes(s), id)[w] == []
    {
      FeedCount(s, id);
      if Feeds(Pipes(s), id)[w] != [] {
        VerdictsSome(Pipes(s)[w], id);
        TotalContains(IdPipes(Pipes(s)), w);
        assert id in multiset(IdPipes(Pipes(s))[w]);
        assert id in Pending(s);
        DueSome(s.queue, id);
      }
    }
  }

  /** A submission appends its verdict to what is due and to the feed of the worker whose turn it is. */
  lemma SubmitAppends(s: State, id: Id, payload: Payload, id': Id)
    requires s.Valid()
    ensures var s', w := Next(s, Submit(id, payload)), s.roundRobin;
            var x := if id == id' then [Verdict(payload)] else [];
            var ff := Feeds(Pipes(s), id');
            && |ff| == |s.inbox|
            && Due(s'.queue, id') == Due(s.queue, id') + x
            && Feeds(Pipes(s'), id') == ff[w := ff[w] + x]
  {
    var s', w := Next(s, Submit(id, payload)), s.roundRobin;
    var t, r := Task(id, payload, s.calls), Reply(id, Verdict(payload));
    SubmitMoves(s, id, payload);
    assert s'.queue == s.queue + [t];
    hide Next, Pipes, Verdict;
    FeedCount(s, id');
    DueConcat(s.queue, [t], id');
    FeedsUpdate(Pipes(s), w, Pipes(s)[w] + [r], id');
    VerdictsConcat(Pipes(s)[w], [r], id');
    VerdictsOfOne(r, id');
    DueOfOne(t, id');
  }

  lemma VerdictsOfOne(r: Reply, id: Id)
    ensures Verdicts([r], id) == VerdictOf(r, id)
  {
    assert [r][1..] == [];
  }

  lemma DueOfOne(t: Task, id: Id)
    ensures Due([t], id) == DueTo(t, id)
  {
    assert [t][1..] == [];
  }

  lemma UniformSubmit(s: State, id: Id, payload: Payload, id': Id)
    requires s.Valid() && InFlight(s) <= Pending(s) && Uniform(s, id') && PendingAre(s.queue, id, Verdict(payload))
    ensures Uniform(Next(s, Submit(id, payload)), id')
  {
    hide Next, Due, Feeds, InFlight, Pending, Verdict, Pipes, PendingAre, AllAre, FeedsAre;
    SubmitAppends(s, id, payload, id');
    var c :| AllAre(Due(s.queue, id'), c) && FeedsAre(Feeds(Pipes(s), id'), c);
    var s' := Next(s, Submit(id, payload));
    var ff, w := Feeds(Pipes(s), id'), s.roundRobin;
    if id == id' {
      UniformIsPending(s, id, Verdict(payload), c);
      AllAreMore(Due(s.queue, id), Verdict(payload));
      FeedsAreMore(ff, Verdict(payload), w);
      UniformWith(s', id, Verdict(payload));
    } else {
      assert ff[w] + [] == ff[w] && ff[w := ff[w]] == ff;
      assert Due(s'.queue, id') == Due(s.queue, id');
      UniformWith(s', id', c);
    }
  }

  lemma AllAreMore(q: seq<bool>, c: bool)
    requires AllAre(q, c)
    ensures AllAre(q + [c], c)
  {
  }

  lemma FeedsAreMore(ff: seq<seq<bool>>, c: bool, w: nat)
    requires w < |ff| && FeedsAre(ff, c)
    ensures FeedsAre(ff[w := ff[w] + [c]], c)
  {
    assert AllAre(ff[w], c);
    FeedsAreUpdate(ff, c, w, ff[w] + [c]);
  }

  /** If all pending under `id` have the verdict `c`, so does all that is on its way. */
  lemma UniformIsPending(s: State, id: Id, c: bool, d: bool)
    requires s.Valid() && InFlight(s) <= Pending(s) && PendingAre(s.queue, id, c)
    requires AllAre(Due(s.queue, id), d) && FeedsAre(Feeds(Pipes(s), id), d)
    ensures AllAre(Due(s.queue, id), c) && FeedsAre(Feeds(Pipes(s), id), c)
  {
    hide Due, Feeds, InFlight, Pending, Pipes;
    DueAre(s.queue, id, c);
    FeedCount(s, id);
    if Due(s.queue, id) == [] {
      NothingDueNothingComes(s, id);
    } else {
      assert d == Due(s.queue, id)[0] == c;
    }
  }

  lemma UniformWith(s: State, id: Id, c: bool)
    requires s.Valid() && AllAre(Due(s.queue, id), c) && FeedsAre(Feeds(Pipes(s), id), c)
    ensures Uniform(s, id)
  {
  }

  lemma AllAreTail(q: seq<bool>, c: bool)
    requires q != [] && AllAre(q, c)
    ensures AllAre(q[1..], c)
  {
  }

  lemma FeedsArePop(ff: seq<seq<bool>>, c: bool, w: nat)
    requires w < |ff| && ff[w] != [] && FeedsAre(ff, c)
    ensures FeedsAre(ff[w := ff[w][1..]], c)
  {
    assert AllAre(ff[w], c);
    FeedsAreUpdate(ff, c, w, ff[w][1..]);
  }

  lemma FeedsAreUpdate(ff: seq<seq<bool>>, c: bool, w: nat, p: seq<bool>)
    requires w < |ff| && FeedsAre(ff, c) && AllAre(p, c)
    ensures FeedsAre(ff[w := p], c)
  {
  }

  lemma UniformStep(s: State, a: Action, id: Id)
    requires s.Valid() && Enabled(s, a) && InFlight(s) <= Pending(s) && Uniform(s, id)
    requires a.Submit? ==> PendingAre(s.queue, a.id, Verdict(a.payload))
    ensures Uniform(Next(s, a), id)
  {
    hide Due, Feeds, InFlight, Pending, FindIndex, Settle, Pipes, Uniform, Verdict, Next, PendingAre;
    var c :| AllAre(Due(s.queue, id), c) && FeedsAre(Feeds(Pipes(s), id), c) by { UniformUnfold(s, id); }
    StepConserves(s, a);
    var s' := Next(s, a);
    match a
    case Submit(id', payload) => UniformSubmit(s, id', payload, id);
    case Compute(w) =>
      ComputeStutters(s, w);
      ComputeKeepsQueue(s, w);
      UniformWith(s', id, c);
    case Deliver(w) =>
      DeliverPops(s, w, id);
      if s.outbox[w][0].id == id {
        AllAreTail(Due(s.queue, id), c);
        FeedCount(s, id);
        FeedsArePop(Feeds(Pipes(s), id), c, w);
      }
      UniformWith(s', id, c);
    case Crash(w) =>
      CrashMoves(s, w);
      FeedsUpdate(Pipes(s), w, [], id);
      FeedCount(s, id);
      FeedsAreUpdate(Feeds(Pipes(s), id), c, w, []);
      CrashKeepsQueue(s, w);
      UniformWith(s', id, c);
  }

  lemma UniformUnfold(s: State, id: Id)
    requires s.Valid() && Uniform(s, id)
    ensures exists c :: AllAre(Due(s.queue, id), c) && FeedsAre(Feeds(Pipes(s), id), c)
  {
  }

  lemma CrashKeepsQueue(s: State, w: nat)
    requires s.Valid() && Enabled(s, Crash(w))
    ensures Next(s, Crash(w)).queue == s.queue
  {
  }

  lemma UniformSettlesRight(s: State, a: Action)
    requires s.Valid() && Enabled(s, a) && InFlight(s) <= Pending(s) && RightFrom(s.settled, 0)
    requires a.Deliver? ==> Uniform(s, s.outbox[a.w][0].id)
    ensures RightFrom(Next(s, a).settled, 0)
  {
    hide Due, Feeds, InFlight, Pending, FindIndex, Settle, Pipes, Next, Verdict;
    if a.Deliver? {
      StepConserves(s, a);
      DeliverPops(s, a.w, s.outbox[a.w][0].id);
      DeliverSettlesRight(s, a.w, 0);
    } else {
      OthersSettleNothing(s, a);
    }
  }

  /** With such callers every promise that is settled in the run, crashes included, is settled with the
      verdict on its own payload. */
  lemma {:induction false} GuardedRunsSettleRight(s: State, acts: seq<Action>)
    requires s.Valid() && CanRun(s, acts) && Guarded(s, acts)
    requires InFlight(s) <= Pending(s) && AllUniform(s) && RightFrom(s.settled, 0)
    ensures RightFrom(Run(s, acts).settled, 0)
    decreases |acts|
  {
    if acts != [] {
      hide InFlight, Pending, Uniform, RightFrom, Next, PendingAre;
      var a := acts[0];
      StepConserves(s, a);
      UniformSettlesRight(s, a);
      forall id: Id ensures Uniform(Next(s, a), id) {
        UniformStep(s, a, id);
      }
      GuardedRunsSettleRight(Next(s, a), acts[1..]);
    }
  }

  lemma InitUniform(n: nat)
    requires n > 0
    ensures AllUniform(Init(n))
  {
    forall id: Id ensures Uniform(Init(n), id) {
      assert forall w :: 0 <= w < n ==> Pipes(Init(n))[w] == [];
      UniformWith(Init(n), id, true);
    }
  }

  /** The theorem for the pool as it is created. */
  lemma GuardedPoolSettlesRight(n: nat, acts: seq<Action>)
    requires n > 0 && CanRun(Init(n), acts) && Guarded(Init(n), acts)
    ensures RightFrom(Run(Init(n), acts).settled, 0)
  {
    InitConserves(n);
    InitUniform(n);
    GuardedRunsSettleRight(Init(n), acts);
  }

  // ---------------------------------------------------------------------------------------
  // A pool of one
  // ---------------------------------------------------------------------------------------

  ghost predicate InOrder(s: State)
    requires s.Valid()
  {
    |s.inbox| == 1 && forall id: Id :: Feeds(Pipes(s), id)[0] == Due(s.queue, id)
  }

  lemma InOrderStep(s: State, a: Action)
    requires s.Valid() && Enabled(s, a) && !a.Crash? && InFlight(s) <= Pending(s)
    requires InOrder(s) && RightFrom(s.settled, 0)
    ensures InOrder(Next(s, a)) && RightFrom(Next(s, a).settled, 0)
  {
    hide Due, InFlight, Pending, FindIndex, Settle, Pipes, Next, Verdict, Verdicts;
    var s' := Next(s, a);
    StepConserves(s, a);
    forall id: Id ensures Feeds(Pipes(s'), id)[0] == Due(s'.queue, id) {
      match a
      case Submit(id', payload) => SubmitAppends(s, id', payload, id);
      case Compute(w) =>
        ComputeStutters(s, w);
        ComputeKeepsQueue(s, w);
      case Deliver(w) => DeliverPops(s, w, id);
    }
    if a.Deliver? {
      DeliverPops(s, a.w, s.outbox[a.w][0].id);
      DeliverSettlesRight(s, a.w, 0);
    } else {
      OthersSettleNothing(s, a);
    }
  }

  lemma {:induction false} InOrderRun(s: State, acts: seq<Action>)
    requires s.Valid() && CanRun(s, acts) && NoCrash(acts) && InFlight(s) <= Pending(s)
    requires InOrder(s) && RightFrom(s.settled, 0)
    ensures RightFrom(Run(s, acts).settled, 0)
    decreases |acts|
  {
    if acts != [] {
      hide InFlight, Pending, InOrder, RightFrom, Next;
      StepConserves(s, acts[0]);
      InOrderStep(s, acts[0]);
      InOrderRun(Next(s, acts[0]), acts[1..]);
    }
  }

  /** A single worker that never crashes settles every promise right, whatever ids callers use. */
  lemma OneWorkerSettlesRight(acts: seq<Action>)
    requires CanRun(Init(1), acts) && NoCrash(acts)
    ensures RightFrom(Run(Init(1), acts).settled, 0)
  {
    InitConserves(1);
    assert Pipes(Init(1))[0] == [];
    InOrderRun(Init(1), acts);
  }

  lemma RunCons(s: State, a: Action, acts: seq<Action>)
    requires s.Valid() && Enabled(s, a) && CanRun(Next(s, a), acts)
    ensures CanRun(s, [a] + acts) && Run(s, [a] + acts) == Run(Next(s, a), acts)
  {
    assert ([a] + acts)[1..] == acts;
  }

  lemma SameState(s: State, t: State)
    requires s.queue == t.queue && s.roundRobin == t.roundRobin && s.inbox == t.inbox && s.outbox == t.outbox
    requires s.settled == t.settled && s.calls == t.calls && s.posted == t.posted
    ensures s == t
  {
  }

  /** Two workers, after two calls under one id: both requests wait, with different verdicts. */
  function TwoCalls(id: Id): State {
    State([Task(id, [0], 0), Task(id, [1], 1)], 0,
          [[Request(id, [0])], [Request(id, [1])]], [[], []], [], 2, [1, 1])
  }

  lemma TwoCallsMade(id: Id)
    ensures Next(Next(Init(2), Submit(id, [0])), Submit(id, [1])) == TwoCalls(id)
  {
    var s := Init(2);
    var t0, t1, r0, r1 := Task(id, [0], 0), Task(id, [1], 1), Request(id, [0]), Request(id, [1]);
    assert s.inbox[0] + [r0] == [r0];
    var s1 := State([t0], 1, [[r0], []], [[], []], [], 1, [1, 0]);
    SameState(Next(s, Submit(id, [0])), s1);
    assert s1.inbox[1] + [r1] == [r1];
    SameState(Next(s1, Submit(id, [1])), TwoCalls(id));
  }

  lemma SecondAnswersFirst(id: Id)
    ensures Enabled(TwoCalls(id), Compute(1)) && Enabled(Next(TwoCalls(id), Compute(1)), Deliver(1))
    ensures Next(Next(TwoCalls(id), Compute(1)), Deliver(1)).settled == [Settled(Task(id, [0], 0), false)]
  {
    var s, t0, t1, r := TwoCalls(id), Task(id, [0], 0), Task(id, [1], 1), Reply(id, false);
    OneByteVerdicts();
    hide Verdict;
    assert s.inbox[1][1..] == [] && s.outbox[1] + [r] == [r];
    SameState(Next(s, Compute(1)), s.(inbox := [s.inbox[0], []], outbox := [[], [r]]));
    assert FindIndex([t0, t1], id) == 0;
  }

  /** Two workers, one id, two payloads: the second worker answers first and settles the wrong promise. */
  lemma SameIdGoesWrong(id: Id)
    ensures var acts := [Submit(id, [0]), Submit(id, [1]), Compute(1), Deliver(1)];
            CanRun(Init(2), acts) && !RightFrom(Run(Init(2), acts).settled, 0)
  {
    TwoCallsMade(id);
    SecondAnswersFirst(id);
    OneByteVerdicts();
    hide Next, Verdict, Init;
    var s := Init(2);
    var s1, s2 := Next(s, Submit(id, [0])), TwoCalls(id);
    var s3 := Next(s2, Compute(1));
    RunCons(s3, Deliver(1), []);
    RunCons(s2, Compute(1), [Deliver(1)]);
    RunCons(s1, Submit(id, [1]), [Compute(1), Deliver(1)]);
    RunCons(s, Submit(id, [0]), [Submit(id, [1]), Compute(1), Deliver(1)]);
    var log := Run(s, [Submit(id, [0])] + [Submit(id, [1]), Compute(1), Deliver(1)]).settled;
    assert log == [Settled(Task(id, [0], 0), false)];
    assert log[0].verdict != Verdict(log[0].task.payload);
  }

  lemma OneByteVerdicts()
    ensures Verdict([0]) && !Verdict([1])
  {
    var zero: Payload, one: Payload := [0], [1];
    assert zero[..0] == [] && one[..0] == [];
    assert Sum(zero) == 0 && Sum(one) == 1;
    VerdictIsParityOfSum([0]);
    VerdictIsParityOfSum([1]);
  }

  // ---------------------------------------------------------------------------------------
  // Every call is answered
  // ---------------------------------------------------------------------------------------

  /** Without crashes and new calls a run is at most as long as the work in the mailboxes, and can go
      on as long as any is left. */
  lemma {:induction false} RunsAreFinite(s: State, acts: seq<Action>)
    requires s.Valid() && CanRun(s, acts) && NoSubmit(acts) && NoCrash(acts)
    ensures Work(Run(s, acts)) + |acts| == Work(s)
    decreases |acts|
  {
    if acts != [] {
      hide Next, Work;
      StepWorks(s, acts[0]);
      RunsAreFinite(Next(s, acts[0]), acts[1..]);
    }
  }

  lemma {:induction false} SizeZero<T>(ff: seq<seq<T>>)
    requires Size(ff) == 0
    ensures forall w :: 0 <= w < |ff| ==> ff[w] == []
    decreases |ff|
  {
    if ff != [] {
      SizeZero(ff[1..]);
      assert ff == [ff[0]] + ff[1..];
    }
  }

  /** A worker can make a step unless all mailboxes are empty. */
  lemma CanGoOn(s: State)
    requires s.Valid()
    ensures Work(s) > 0 <==> exists w: nat :: Enabled(s, Compute(w)) || Enabled(s, Deliver(w))
  {
    if Work(s) == 0 {
      SizeZero(s.inbox);
      SizeZero(s.outbox);
    } else if forall w: nat :: !Enabled(s, Compute(w)) && !Enabled(s, Deliver(w)) {
      assert forall w :: 0 <= w < |s.inbox| ==> s.inbox[w] == [] by {
        forall w | 0 <= w < |s.inbox| ensures s.inbox[w] == [] { assert !Enabled(s, Compute(w)); }
      }
      assert forall w :: 0 <= w < |s.outbox| ==> s.outbox[w] == [] by {
        forall w | 0 <= w < |s.outbox| ensures s.outbox[w] == [] { assert !Enabled(s, Deliver(w)); }
      }
      SizeOfEmpty(s.inbox);
      SizeOfEmpty(s.outbox);
    }
  }

  /** So in a crash-free pool every promise is settled, exactly once, by the time no worker can make a
      step, whatever order they took. */
  lemma EveryCallIsAnswered(n: nat, acts: seq<Action>)
    requires n > 0 && CanRun(Init(n), acts) && NoCrash(acts)
    ensures var s := Run(Init(n), acts);
            (forall w: nat :: !Enabled(s, Compute(w)) && !Enabled(s, Deliver(w))) ==>
              s.queue == [] && multiset(SettledTickets(s.settled)) == multiset(UpTo(s.calls))
  {
    var s := Run(Init(n), acts);
    assert forall a <- acts :: !a.Crash?;
    PromisesAccounted(Init(n), acts);
    DrainedMeansSettled(n, acts);
    hide Run, CanRun;
    if forall w: nat :: !Enabled(s, Compute(w)) && !Enabled(s, Deliver(w)) {
      CanGoOn(s);
      SizeZero(s.inbox);
      SizeZero(s.outbox);
      assert Tickets(s.queue) == [];
    }
  }
}
