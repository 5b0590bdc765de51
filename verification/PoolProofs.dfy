/**
  What holds of every run of the worker pool, under every interleaving: no promise is lost or settled
  twice, the work is spread evenly, and exactly which states can only settle promises correctly.
*/
module PoolProofs {
  import opened Pool

  // ---------------------------------------------------------------------------------------
  // Bags spread over several sequences
  // ---------------------------------------------------------------------------------------

  ghost function Total<T>(ss: seq<seq<T>>): multiset<T> {
    if ss == [] then multiset{} else multiset(ss[0]) + Total(ss[1..])
  }

  lemma SwapInSum<T>(h: multiset<T>, a: multiset<T>, b: multiset<T>, c: multiset<T>, d: multiset<T>)
    requires a + b == c + d
    ensures h + a + b == h + c + d
  {
    assert h + a + b == h + (a + b) && h + c + d == h + (c + d);
  }

  /** Exchanging one sequence exchanges its elements. */
  lemma {:induction false} TotalUpdate<T>(ss: seq<seq<T>>, w: nat, p: seq<T>)
    requires w < |ss|
    ensures Total(ss[w := p]) + multiset(ss[w]) == Total(ss) + multiset(p)
    decreases |ss|
  {
    var tt := ss[w := p];
    if w == 0 {
      assert tt[1..] == ss[1..];
      assert Total(tt) == multiset(p) + Total(ss[1..]);
    } else {
      assert tt[1..] == ss[1..][w - 1 := p] && tt[0] == ss[0];
      TotalUpdate(ss[1..], w - 1, p);
      SwapInSum(multiset(ss[0]), Total(tt[1..]), multiset(ss[w]), Total(ss[1..]), multiset(p));
    }
  }

  lemma {:induction false} TotalContains<T>(ss: seq<seq<T>>, w: nat)
    requires w < |ss|
    ensures multiset(ss[w]) <= Total(ss)
  {
    if w > 0 {
      TotalContains(ss[1..], w - 1);
    }
  }

  lemma {:induction false} TotalEmpty<T>(ss: seq<seq<T>>)
    requires forall w :: 0 <= w < |ss| ==> ss[w] == []
    ensures Total(ss) == multiset{}
    decreases |ss|
  {
    if ss != [] {
      assert ss[0] == [];
      TotalEmpty(ss[1..]);
    }
  }

  lemma RemoveAt<T>(s: seq<T>, i: nat)
    requires i < |s|
    ensures multiset(s[..i] + s[i + 1..]) + multiset{s[i]} == multiset(s)
  {
    assert s == s[..i] + [s[i]] + s[i + 1..];
  }

  lemma TakeFirst<T>(s: seq<T>)
    requires s != []
    ensures multiset(s[1..]) + multiset{s[0]} == multiset(s)
  {
    assert s == [s[0]] + s[1..];
  }

  // ---------------------------------------------------------------------------------------
  // Runs
  // ---------------------------------------------------------------------------------------

  /** The calls made in a run, in their order. */
  function Calls(acts: seq<Action>): seq<Request> {
    if acts == [] then [] else CallOf(acts[0]) + Calls(acts[1..])
  }

  function CallOf(a: Action): seq<Request> {
    if a.Submit? then [Request(a.id, a.payload)] else []
  }

  lemma {:induction false} CallsConcat(a: seq<Action>, b: seq<Action>)
    ensures Calls(a + b) == Calls(a) + Calls(b)
    decreases |a|
  {
    if a == [] {
      assert a + b == b;
    } else {
      assert (a + b)[1..] == a[1..] + b;
      CallsConcat(a[1..], b);
    }
  }

  /** One run behind another. */
  lemma {:induction false} RunConcat(s: State, a: seq<Action>, b: seq<Action>)
    requires s.Valid() && CanRun(s, a) && CanRun(Run(s, a), b)
    ensures CanRun(s, a + b) && Run(s, a + b) == Run(Run(s, a), b)
    decreases |a|
  {
    hide Next;
    if a == [] {
      assert a + b == b;
    } else {
      assert (a + b)[0] == a[0] && (a + b)[1..] == a[1..] + b;
      RunConcat(Next(s, a[0]), a[1..], b);
    }
  }

  lemma StepCounts(s: State, a: Action)
    requires s.Valid() && Enabled(s, a)
    ensures Next(s, a).calls == s.calls + |CallOf(a)|
  {
  }

  /** The model's counter is the number of calls in the run. */
  lemma {:induction false} CallsCounted(s: State, acts: seq<Action>)
    requires s.Valid() && CanRun(s, acts)
    ensures Run(s, acts).calls == s.calls + |Calls(acts)|
    decreases |acts|
  {
    hide Next, CallOf;
    if acts != [] {
      StepCounts(s, acts[0]);
      CallsCounted(Next(s, acts[0]), acts[1..]);
    }
  }

  // ---------------------------------------------------------------------------------------
  // What is on its way
  // ---------------------------------------------------------------------------------------

  function Answer(tx: Request): Reply { Reply(tx.id, Verdict(tx.payload)) }

  function Answers(txs: seq<Request>): (r: seq<Reply>)
    ensures |r| == |txs| && forall i :: 0 <= i < |txs| ==> r[i] == Answer(txs[i])
  {
    seq(|txs|, i requires 0 <= i < |txs| => Answer(txs[i]))
  }

  /** The replies that will come out of worker `w`, the computed ones first. */
  function Pipe(s: State, w: nat): seq<Reply>
    requires w < |s.inbox| && w < |s.outbox|
  {
    s.outbox[w] + Answers(s.inbox[w])
  }

  function Pipes(s: State): (r: seq<seq<Reply>>)
    requires |s.inbox| == |s.outbox|
    ensures |r| == |s.inbox| && forall w :: 0 <= w < |r| ==> r[w] == Pipe(s, w)
  {
    seq(|s.inbox|, w requires 0 <= w < |s.inbox| => Pipe(s, w))
  }

  /** A step that touches the mailboxes of one worker only. */
  lemma PipesUpdate(s: State, s': State, w: nat)
    requires s.Valid() && s'.Valid() && |s.inbox| == |s'.inbox| && w < |s.inbox|
    requires s'.inbox == s.inbox[w := s'.inbox[w]] && s'.outbox == s.outbox[w := s'.outbox[w]]
    ensures Pipes(s') == Pipes(s)[w := Pipe(s', w)]
  {
    hide Answers;
    forall v | 0 <= v < |s.inbox|
      ensures Pipes(s')[v] == Pipes(s)[w := Pipe(s', w)][v]
    {
      if v != w {
        assert s'.inbox[v] == s.inbox[v] && s'.outbox[v] == s.outbox[v];
      }
    }
  }

  lemma PipeGets(out: seq<Reply>, txs: seq<Request>, tx: Request)
    ensures out + Answers(txs + [tx]) == (out + Answers(txs)) + [Answer(tx)]
  {
  }

  lemma PipeKeeps(out: seq<Reply>, txs: seq<Request>)
    requires txs != []
    ensures (out + [Answer(txs[0])]) + Answers(txs[1..]) == out + Answers(txs)
  {
  }

  lemma SubmitMoves(s: State, id: Id, payload: Payload)
    requires s.Valid()
    ensures Pipes(Next(s, Submit(id, payload))) ==
            Pipes(s)[s.roundRobin := Pipes(s)[s.roundRobin] + [Reply(id, Verdict(payload))]]
  {
    hide Verdict, Answers;
    var s', w := Next(s, Submit(id, payload)), s.roundRobin;
    PipeGets(s.outbox[w], s.inbox[w], Request(id, payload));
    PipesUpdate(s, s', w);
  }

  lemma ComputeStutters(s: State, w: nat)
    requires s.Valid() && Enabled(s, Compute(w))
    ensures Pipes(Next(s, Compute(w))) == Pipes(s)
  {
    hide Verdict, Answers;
    PipeKeeps(s.outbox[w], s.inbox[w]);
    PipesUpdate(s, Next(s, Compute(w)), w);
  }

  lemma DeliverMoves(s: State, w: nat)
    requires s.Valid() && Enabled(s, Deliver(w))
    ensures Pipes(s)[w] != [] && s.outbox[w][0] == Pipes(s)[w][0]
    ensures Pipes(Next(s, Deliver(w))) == Pipes(s)[w := Pipes(s)[w][1..]]
  {
    hide Settle, FindIndex, Answers;
    var s' := Next(s, Deliver(w));
    assert Pipe(s', w) == Pipe(s, w)[1..];
    PipesUpdate(s, s', w);
  }

  lemma CrashMoves(s: State, w: nat)
    requires s.Valid() && Enabled(s, Crash(w))
    ensures Pipes(Next(s, Crash(w))) == Pipes(s)[w := []]
  {
    PipesUpdate(s, Next(s, Crash(w)), w);
  }

  // ---------------------------------------------------------------------------------------
  // Conservation
  // ---------------------------------------------------------------------------------------

  function Ids(rs: seq<Reply>): (r: seq<Id>)
    ensures |r| == |rs| && forall i :: 0 <= i < |rs| ==> r[i] == rs[i].id
  {
    seq(|rs|, i requires 0 <= i < |rs| => rs[i].id)
  }

  function IdPipes(pp: seq<seq<Reply>>): (r: seq<seq<Id>>)
    ensures |r| == |pp| && forall w :: 0 <= w < |pp| ==> r[w] == Ids(pp[w])
  {
    seq(|pp|, w requires 0 <= w < |pp| => Ids(pp[w]))
  }

  function QueueIds(queue: seq<Task>): (r: seq<Id>)
    ensures |r| == |queue| && forall i :: 0 <= i < |queue| ==> r[i] == queue[i].id
  {
    seq(|queue|, i requires 0 <= i < |queue| => queue[i].id)
  }

  /** Requests and replies in flight, by id. */
  ghost function InFlight(s: State): multiset<Id>
    requires |s.inbox| == |s.outbox|
  {
    Total(IdPipes(Pipes(s)))
  }

  ghost function Pending(s: State): multiset<Id> { multiset(QueueIds(s.queue)) }

  lemma InFlightUpdate(s: State, s': State, w: nat, p: seq<Reply>)
    requires |s.inbox| == |s.outbox| && |s'.inbox| == |s'.outbox| && w < |s.inbox|
    requires Pipes(s') == Pipes(s)[w := p]
    ensures InFlight(s') + multiset(Ids(Pipes(s)[w])) == InFlight(s) + multiset(Ids(p))
  {
    assert IdPipes(Pipes(s')) == IdPipes(Pipes(s))[w := Ids(p)];
    TotalUpdate(IdPipes(Pipes(s)), w, Ids(p));
  }

  lemma PendingIsFound(queue: seq<Task>, id: Id)
    requires id in multiset(QueueIds(queue))
    ensures FindIndex(queue, id) >= 0
  {
    var k :| 0 <= k < |queue| && QueueIds(queue)[k] == id;
    assert queue[k].id == id;
  }

  /** A reply that is delivered while its id is pending takes exactly that one task. */
  lemma SettleTakesOne(s: State, r: Reply)
    requires r.id in Pending(s)
    ensures FindIndex(s.queue, r.id) >= 0
    ensures Pending(Settle(s, r)) + multiset{r.id} == Pending(s)
    ensures |Settle(s, r).settled| == |s.settled| + 1
  {
    PendingIsFound(s.queue, r.id);
    var i := FindIndex(s.queue, r.id);
    IdsWithout(s.queue, i);
    RemoveAt(QueueIds(s.queue), i);
  }

  lemma IdsWithout(queue: seq<Task>, i: nat)
    requires i < |queue|
    ensures QueueIds(queue[..i] + queue[i + 1..]) == QueueIds(queue)[..i] + QueueIds(queue)[i + 1..]
  {
  }

  /** One step keeps "what is in flight is pending", and without crashes the converse. */
  lemma StepConserves(s: State, a: Action)
    requires s.Valid() && Enabled(s, a) && InFlight(s) <= Pending(s)
    ensures InFlight(Next(s, a)) <= Pending(Next(s, a))
    ensures InFlight(s) == Pending(s) && !a.Crash? ==> InFlight(Next(s, a)) == Pending(Next(s, a))
    ensures a.Deliver? ==> FindIndex(s.queue, s.outbox[a.w][0].id) >= 0
  {
    hide Next, InFlight, Pending, FindIndex;
    match a
    case Submit(id, payload) => SubmitConserves(s, id, payload);
    case Compute(w) => ComputeConserves(s, w);
    case Deliver(w) =>
      DeliverConserves(s, w);
      var s' := Next(s, a);
      Cancel(Pending(s'), InFlight(s'), s.outbox[w][0].id);
    case Crash(w) => CrashConserves(s, w);
  }

  lemma Cancel<T>(a: multiset<T>, b: multiset<T>, x: T)
    ensures b + multiset{x} <= a + multiset{x} ==> b <= a
    ensures b + multiset{x} == a + multiset{x} ==> b == a
  {
    if b + multiset{x} <= a + multiset{x} {
      forall y ensures b[y] <= a[y] {
        assert (b + multiset{x})[y] <= (a + multiset{x})[y];
      }
    }
    assert b + multiset{x} - multiset{x} == b && a + multiset{x} - multiset{x} == a;
  }

  lemma CrashConserves(s: State, w: nat)
    requires s.Valid() && Enabled(s, Crash(w))
    ensures Pending(Next(s, Crash(w))) == Pending(s) && InFlight(Next(s, Crash(w))) <= InFlight(s)
  {
    var s' := Next(s, Crash(w));
    SameQueue(s', s);
    CrashMoves(s, w);
    hide Next, InFlight, Pending;
    InFlightUpdate(s, s', w, []);
    assert Ids([]) == [];
    assert InFlight(s') + multiset(Ids(Pipes(s)[w])) == InFlight(s);
    assert InFlight(s') <= InFlight(s') + multiset(Ids(Pipes(s)[w]));
  }

  lemma ComputeConserves(s: State, w: nat)
    requires s.Valid() && Enabled(s, Compute(w))
    ensures Pending(Next(s, Compute(w))) == Pending(s) && InFlight(Next(s, Compute(w))) == InFlight(s)
  {
    ComputeStutters(s, w);
  }

  lemma SubmitConserves(s: State, id: Id, payload: Payload)
    requires s.Valid()
    ensures Pending(Next(s, Submit(id, payload))) == Pending(s) + multiset{id}
    ensures InFlight(Next(s, Submit(id, payload))) == InFlight(s) + multiset{id}
  {
    var s', w := Next(s, Submit(id, payload)), s.roundRobin;
    var p := Pipes(s)[w] + [Reply(id, Verdict(payload))];
    assert Pending(s') == Pending(s) + multiset{id} by {
      assert QueueIds(s'.queue) == QueueIds(s.queue) + [id];
    }
    SubmitMoves(s, id, payload);
    hide Next, InFlight;
    InFlightUpdate(s, s', w, p);
    assert Ids(p) == Ids(Pipes(s)[w]) + [id];
    MoveIn(InFlight(s'), InFlight(s), multiset(Ids(Pipes(s)[w])), id);
  }

  lemma MoveIn<T>(a: multiset<T>, b: multiset<T>, c: multiset<T>, x: T)
    requires a + c == b + (c + multiset{x})
    ensures a == b + multiset{x}
  {
    assert a + c - c == a && b + multiset{x} + c - c == b + multiset{x};
    assert b + (c + multiset{x}) == b + multiset{x} + c;
  }

  lemma DeliverConserves(s: State, w: nat)
    requires s.Valid() && Enabled(s, Deliver(w)) && InFlight(s) <= Pending(s)
    ensures Pending(Next(s, Deliver(w))) + multiset{s.outbox[w][0].id} == Pending(s)
    ensures InFlight(Next(s, Deliver(w))) + multiset{s.outbox[w][0].id} == InFlight(s)
    ensures FindIndex(s.queue, s.outbox[w][0].id) >= 0
  {
    hide FindIndex, Settle, Pending, InFlight;
    DeliverTakesIn(s, w);
    var r := s.outbox[w][0];
    assert r.id in InFlight(s);
    SettleTakesOne(s, r);
    assert Pending(Next(s, Deliver(w))) == Pending(Settle(s, r)) by {
      assert Next(s, Deliver(w)).queue == Settle(s, r).queue;
      SameQueue(Next(s, Deliver(w)), Settle(s, r));
    }
  }

  lemma SameQueue(s: State, t: State)
    requires s.queue == t.queue
    ensures Pending(s) == Pending(t)
  {
  }

  lemma DeliverTakesIn(s: State, w: nat)
    requires s.Valid() && Enabled(s, Deliver(w))
    ensures InFlight(Next(s, Deliver(w))) + multiset{s.outbox[w][0].id} == InFlight(s)
  {
    DeliverMoves(s, w);
    hide Next, InFlight, Pipes;
    var s', p := Next(s, Deliver(w)), Pipes(s)[w];
    InFlightUpdate(s, s', w, p[1..]);
    assert Ids(p)[1..] == Ids(p[1..]) && Ids(p)[0] == s.outbox[w][0].id;
    TakeFirst(Ids(p));
    MoveIn(InFlight(s), InFlight(s'), multiset(Ids(p[1..])), s.outbox[w][0].id);
  }

  /** Under every interleaving, crashes included, a reply always finds a pending task of its id; and
      as long as no worker crashes, requests and replies in flight match the pending tasks exactly. */
  lemma {:induction false} Conservation(s: State, acts: seq<Action>)
    requires s.Valid() && CanRun(s, acts) && InFlight(s) <= Pending(s)
    ensures InFlight(Run(s, acts)) <= Pending(Run(s, acts))
    ensures InFlight(s) == Pending(s) && (forall a <- acts :: !a.Crash?) ==> InFlight(Run(s, acts)) == Pending(Run(s, acts))
    decreases |acts|
  {
    hide Next, InFlight, Pending;
    if acts != [] {
      StepConserves(s, acts[0]);
      Conservation(Next(s, acts[0]), acts[1..]);
    }
  }

  lemma InitConserves(n: nat)
    requires n > 0
    ensures InFlight(Init(n)) == Pending(Init(n)) == multiset{}
  {
    assert forall w :: 0 <= w < n ==> Pipe(Init(n), w) == [];
    TotalEmpty(IdPipes(Pipes(Init(n))));
  }

  /** The same for every run of a pool from its creation. */
  lemma PoolConserves(n: nat, acts: seq<Action>)
    requires n > 0 && CanRun(Init(n), acts)
    ensures var s := Run(Init(n), acts);
            && InFlight(s) <= Pending(s)
            && ((forall a <- acts :: !a.Crash?) ==> InFlight(s) == Pending(s))
            && forall w :: 0 <= w < n && s.outbox[w] != [] ==> FindIndex(s.queue, s.outbox[w][0].id) >= 0
  {
    InitConserves(n);
    Conservation(Init(n), acts);
    hide Run, CanRun, InFlight, Pending, FindIndex, Next;
    var s := Run(Init(n), acts);
    forall w | 0 <= w < n && s.outbox[w] != []
      ensures FindIndex(s.queue, s.outbox[w][0].id) >= 0
    {
      StepConserves(s, Deliver(w));
    }
  }

  /** So when all mailboxes have drained without a crash, no call is left waiting. */
  lemma DrainedMeansSettled(n: nat, acts: seq<Action>)
    requires n > 0 && CanRun(Init(n), acts) && forall a <- acts :: !a.Crash?
    ensures var s := Run(Init(n), acts);
            (forall w :: 0 <= w < n ==> s.inbox[w] == [] && s.outbox[w] == []) ==> s.queue == []
  {
    InitConserves(n);
    Conservation(Init(n), acts);
    var s := Run(Init(n), acts);
    if forall w :: 0 <= w < n ==> s.inbox[w] == [] && s.outbox[w] == [] {
      assert forall w :: 0 <= w < n ==> Pipe(s, w) == [];
      TotalEmpty(IdPipes(Pipes(s)));
      assert |QueueIds(s.queue)| == |multiset(QueueIds(s.queue))|;
    }
  }

  // ---------------------------------------------------------------------------------------
  // Every promise is settled at most once and never forgotten
  // ---------------------------------------------------------------------------------------

  function Tickets(queue: seq<Task>): (r: seq<nat>)
    ensures |r| == |queue| && forall i :: 0 <= i < |queue| ==> r[i] == queue[i].ticket
  {
    seq(|queue|, i requires 0 <= i < |queue| => queue[i].ticket)
  }

  function SettledTickets(log: seq<Settled>): (r: seq<nat>)
    ensures |r| == |log| && forall i :: 0 <= i < |log| ==> r[i] == log[i].task.ticket
  {
    seq(|log|, i requires 0 <= i < |log| => log[i].task.ticket)
  }

  function UpTo(n: nat): (r: seq<nat>)
    ensures |r| == n && forall i :: 0 <= i < n ==> r[i] == i
  {
    seq(n, i => i)
  }

  /** The calls made so far are the pending ones and the settled ones, each counted once. */
  ghost predicate Accounted(s: State) {
    multiset(Tickets(s.queue)) + multiset(SettledTickets(s.settled)) == multiset(UpTo(s.calls))
  }

  lemma SettleAccounts(s: State, r: Reply)
    requires Accounted(s)
    ensures Accounted(Settle(s, r))
  {
    var i := FindIndex(s.queue, r.id);
    if i != -1 {
      var s' := Settle(s, r);
      assert Tickets(s'.queue) == Tickets(s.queue)[..i] + Tickets(s.queue)[i + 1..];
      RemoveAt(Tickets(s.queue), i);
      assert SettledTickets(s'.settled) == SettledTickets(s.settled) + [s.queue[i].ticket];
    }
  }

  lemma StepAccounts(s: State, a: Action)
    requires s.Valid() && Enabled(s, a) && Accounted(s)
    ensures Accounted(Next(s, a))
  {
    match a
    case Submit(id, payload) =>
      var s' := Next(s, a);
      assert Tickets(s'.queue) == Tickets(s.queue) + [s.calls];
      assert UpTo(s.calls + 1) == UpTo(s.calls) + [s.calls];
    case Deliver(w) => SettleAccounts(s, s.outbox[w][0]);
    case _ =>
  }

  /** In every run, crashes included, each call's promise is pending or settled, never both, never
      twice, never neither. */
  lemma {:induction false} PromisesAccounted(s: State, acts: seq<Action>)
    requires s.Valid() && CanRun(s, acts) && Accounted(s)
    ensures Accounted(Run(s, acts))
    decreases |acts|
  {
    hide Next, Accounted;
    if acts != [] {
      StepAccounts(s, acts[0]);
      PromisesAccounted(Next(s, acts[0]), acts[1..]);
    }
  }

  /** Of the calls of a run from the pool's creation, each one's promise is pending or settled. */
  lemma PoolAccounts(n: nat, acts: seq<Action>)
    requires n > 0 && CanRun(Init(n), acts)
    ensures var s := Run(Init(n), acts);
            multiset(Tickets(s.queue)) + multiset(SettledTickets(s.settled)) == multiset(UpTo(|Calls(acts)|))
  {
    PromisesAccounted(Init(n), acts);
    CallsCounted(Init(n), acts);
  }

  // ---------------------------------------------------------------------------------------
  // Round robin
  // ---------------------------------------------------------------------------------------

  /** How many of the first `k` tasks go to worker `w` when `n` workers take turns. */
  function Share(k: nat, n: nat, w: nat): nat
    requires n > 0
  {
    k / n + if w < k % n then 1 else 0
  }

  /** Every worker was posted its share of the calls made so far. */
  ghost predicate Even(s: State) {
    && |s.posted| > 0 && |s.inbox| == |s.posted|
    && s.roundRobin == s.calls % |s.posted|
    && forall w :: 0 <= w < |s.posted| ==> s.posted[w] == Share(s.calls, |s.posted|, w)
  }

  lemma DivideNext(k: nat, n: nat)
    requires n > 0
    ensures if k % n == n - 1 then (k + 1) / n == k / n + 1 && (k + 1) % n == 0
            else (k + 1) / n == k / n && (k + 1) % n == k % n + 1
  {
    var q, r := k / n, k % n;
    assert k == q * n + r;
    if r == n - 1 {
      assert k + 1 == (q + 1) * n;
      Quotient(k + 1, n, q + 1, 0);
    } else {
      Quotient(k + 1, n, q, r + 1);
    }
  }

  lemma Quotient(k: nat, n: nat, q: nat, r: nat)
    requires n > 0 && r < n && k == q * n + r
    ensures k / n == q && k % n == r
  {
    var d := k / n - q;
    assert k == (k / n) * n + k % n;
    assert d * n == r - k % n;
    Multiples(d, n);
  }

  lemma Multiples(d: int, n: int)
    requires -n < d * n < n
    ensures d == 0
  {
  }

  lemma ShareNext(k: nat, n: nat, w: nat)
    requires n > 0 && w < n
    ensures Share(k + 1, n, w) == Share(k, n, w) + if w == k % n then 1 else 0
  {
    DivideNext(k, n);
  }

  lemma PostEven(posted: seq<nat>, posted': seq<nat>, k: nat, w: nat)
    requires w < |posted| && w == k % |posted| && posted' == posted[w := posted[w] + 1]
    requires forall v :: 0 <= v < |posted| ==> posted[v] == Share(k, |posted|, v)
    ensures forall v :: 0 <= v < |posted| ==> posted'[v] == Share(k + 1, |posted|, v)
  {
    hide Share;
    forall v | 0 <= v < |posted|
      ensures posted'[v] == Share(k + 1, |posted|, v)
    {
      ShareNext(k, |posted|, v);
    }
  }

  lemma TurnNext(k: nat, n: nat)
    requires n > 0
    ensures (k % n + 1) % n == (k + 1) % n
  {
    DivideNext(k, n);
    if k % n == n - 1 {
      Quotient(n, n, 1, 0);
    } else {
      Quotient(k % n + 1, n, 0, k % n + 1);
    }
  }

  lemma StepEven(s: State, a: Action)
    requires s.Valid() && Enabled(s, a) && Even(s)
    ensures Even(Next(s, a))
  {
    hide Share;
    if a.Submit? {
      PostEven(s.posted, Next(s, a).posted, s.calls, s.roundRobin);
      TurnNext(s.calls, |s.posted|);
    }
  }

  /** However the run goes, any two workers were posted numbers of tasks that differ by at most one,
      and the next one is the number of calls modulo the number of workers. */
  lemma {:induction false} RoundRobinIsFair(s: State, acts: seq<Action>)
    requires s.Valid() && CanRun(s, acts) && Even(s)
    ensures Even(Run(s, acts))
    ensures forall v, w :: 0 <= v < |s.inbox| && 0 <= w < |s.inbox| ==>
              Run(s, acts).posted[v] <= Run(s, acts).posted[w] + 1
    decreases |acts|
  {
    hide Next;
    if acts != [] {
      StepEven(s, acts[0]);
      RoundRobinIsFair(Next(s, acts[0]), acts[1..]);
    }
  }

  /** After a run with `k` calls to a new pool of `n` workers the turn is with worker `k` modulo `n`,
      every worker was posted its share, and no two shares differ by more than one. */
  lemma PoolIsFair(n: nat, acts: seq<Action>)
    requires n > 0 && CanRun(Init(n), acts)
    ensures var s, k := Run(Init(n), acts), |Calls(acts)|;
            && s.roundRobin == k % n
            && (forall w :: 0 <= w < n ==> s.posted[w] == Share(k, n, w))
            && forall v, w :: 0 <= v < n && 0 <= w < n ==> s.posted[v] <= s.posted[w] + 1
  {
    assert Even(Init(n)) by { NothingPosted(n); }
    RoundRobinIsFair(Init(n), acts);
    CallsCounted(Init(n), acts);
  }

  lemma NothingPosted(n: nat)
    requires n > 0
    ensures 0 % n == 0 && forall w :: 0 <= w < n ==> Share(0, n, w) == 0
  {
    Quotient(0, n, 0, 0);
  }
}
