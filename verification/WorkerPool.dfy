/**
  benchmark/WorkerPool.ts and benchmark/SignatureWorker.ts as a state machine.  Every worker has a
  mailbox of requests and a mailbox of replies, both first in first out; which worker computes next
  and whose reply is delivered next is left open.
*/
module Pool {
  type Id = string
  type Octet = x: nat | x < 256
  type Payload = seq<Octet>

  /** A pending call: `ticket` tells its promise from those of other calls under the same id. */
  datatype Task = Task(id: Id, payload: Payload, ticket: nat)
  datatype Request = Request(id: Id, payload: Payload)
  datatype Reply = Reply(id: Id, isValid: bool)

  /** A promise that was resolved, and with what. */
  datatype Settled = Settled(task: Task, verdict: bool)

  datatype State = State(
    queue: seq<Task>, roundRobin: nat, inbox: seq<seq<Request>>, outbox: seq<seq<Reply>>,
    settled: seq<Settled>, calls: nat, posted: seq<nat>)
  {
    ghost predicate Valid() {
      |inbox| > 0 && |outbox| == |inbox| && |posted| == |inbox| && roundRobin < |inbox|
    }
  }

  /** What the worker answers: whether the bytes xor to an even number. */
  function Xor(a: nat, b: nat): nat {
    if a == 0 && b == 0 then 0 else (a + b) % 2 + 2 * Xor(a / 2, b / 2)
  }

  function XorAll(data: Payload): nat {
    if data == [] then 0 else Xor(XorAll(data[..|data| - 1]), data[|data| - 1])
  }

  function Sum(data: Payload): nat {
    if data == [] then 0 else Sum(data[..|data| - 1]) + data[|data| - 1]
  }

  predicate Verdict(data: Payload) { XorAll(data) % 2 == 0 }

  /** The verdict is the parity of the arithmetic sum of the bytes. */
  lemma {:induction false} VerdictIsParityOfSum(data: Payload)
    ensures Verdict(data) <==> Sum(data) % 2 == 0
  {
    if data != [] {
      hide Xor;
      VerdictIsParityOfSum(data[..|data| - 1]);
      XorParity(XorAll(data[..|data| - 1]), data[|data| - 1]);
      SameParity(XorAll(data[..|data| - 1]), Sum(data[..|data| - 1]), data[|data| - 1]);
    }
  }

  lemma SameParity(a: nat, b: nat, c: nat)
    requires a % 2 == 0 <==> b % 2 == 0
    ensures (a + c) % 2 == 0 <==> (b + c) % 2 == 0
  {
  }

  lemma XorParity(a: nat, b: nat)
    ensures Xor(a, b) % 2 == (a + b) % 2
  {
  }

  /** `fakeVerifySignature`. */
  method FakeVerifySignature(data: Payload) returns (isValid: bool)
    ensures isValid <==> Verdict(data)
    ensures isValid <==> Sum(data) % 2 == 0
  {
    VerdictIsParityOfSum(data);
    var sum := 0;
    for i := 0 to |data|
      invariant sum == XorAll(data[..i])
    {
      assert data[..i + 1][..i] == data[..i];
      sum := Xor(sum, data[i]);
    }
    assert data[..|data|] == data;
    return sum % 2 == 0;
  }

  // ---------------------------------------------------------------------------------------
  // Steps
  // ---------------------------------------------------------------------------------------

  datatype Action =
    | Submit(id: Id, payload: Payload)
    | Compute(w: nat)
    | Deliver(w: nat)
    | Crash(w: nat)

  function Init(n: nat): (s: State)
    requires n > 0
    ensures s.Valid()
  {
    State([], 0, seq(n, _ => []), seq(n, _ => []), [], 0, seq(n, _ => 0))
  }

  /** `queue.findIndex(t => t.id === id)`. */
  function FindIndex(queue: seq<Task>, id: Id): (i: int)
    ensures -1 <= i < |queue|
    ensures i >= 0 ==> queue[i].id == id && forall k :: 0 <= k < i ==> queue[k].id != id
    ensures i == -1 ==> forall k :: 0 <= k < |queue| ==> queue[k].id != id
  {
    if queue == [] then -1
    else if queue[0].id == id then 0
    else
      var i := FindIndex(queue[1..], id);
      if i == -1 then -1 else i + 1
  }

  /** The handler of a worker's message: the first pending task under the id is taken out of the
      queue and its promise resolved. */
  function Settle(s: State, r: Reply): (s': State)
    ensures s' == s.(queue := s'.queue, settled := s'.settled)
  {
    var i := FindIndex(s.queue, r.id);
    if i == -1 then s
    else s.(queue := s.queue[..i] + s.queue[i + 1..], settled := s.settled + [Settled(s.queue[i], r.isValid)])
  }

  predicate Enabled(s: State, a: Action) {
    match a
    case Submit(_, _) => true
    case Compute(w) => w < |s.inbox| && s.inbox[w] != []
    case Deliver(w) => w < |s.outbox| && s.outbox[w] != []
    case Crash(w) => w < |s.inbox|
  }

  function Next(s: State, a: Action): (s': State)
    requires s.Valid() && Enabled(s, a)
    ensures s'.Valid() && |s'.inbox| == |s.inbox|
  {
    match a
    case Submit(id, payload) =>
      var w := s.roundRobin;
      s.(queue := s.queue + [Task(id, payload, s.calls)],
         inbox := s.inbox[w := s.inbox[w] + [Request(id, payload)]],
         roundRobin := (w + 1) % |s.inbox|,
         calls := s.calls + 1,
         posted := s.posted[w := s.posted[w] + 1])
    case Compute(w) =>
      var tx := s.inbox[w][0];
      s.(inbox := s.inbox[w := s.inbox[w][1..]],
         outbox := s.outbox[w := s.outbox[w] + [Reply(tx.id, Verdict(tx.payload))]])
    case Deliver(w) =>
      Settle(s, s.outbox[w][0]).(outbox := s.outbox[w := s.outbox[w][1..]])
    case Crash(w) =>
      s.(inbox := s.inbox[w := []], outbox := s.outbox[w := []])
  }

  ghost predicate CanRun(s: State, acts: seq<Action>)
    requires s.Valid()
    decreases |acts|
  {
    acts == [] || (Enabled(s, acts[0]) && CanRun(Next(s, acts[0]), acts[1..]))
  }

  ghost function Run(s: State, acts: seq<Action>): (s': State)
    requires s.Valid() && CanRun(s, acts)
    ensures s'.Valid() && |s'.inbox| == |s.inbox|
    decreases |acts|
  {
    if acts == [] then s else Run(Next(s, acts[0]), acts[1..])
  }

  // ---------------------------------------------------------------------------------------
  // The pool as a class
  // ---------------------------------------------------------------------------------------

  class WorkerPool {
    var queue: seq<Task>
    var roundRobin: nat
    var inbox: seq<seq<Request>>
    var outbox: seq<seq<Reply>>
    var settled: seq<Settled>
    var calls: nat
    var posted: seq<nat>

    ghost function Value(): State
      reads this
    {
      State(queue, roundRobin, inbox, outbox, settled, calls, posted)
    }

    constructor (size: nat)
      requires size > 0
      ensures Value() == Init(size)
    {
      queue, roundRobin, settled, calls := [], 0, [], 0;
      inbox, outbox, posted := seq(size, _ => []), seq(size, _ => []), seq(size, _ => 0);
    }

    /** `verifySignature`. */
    method VerifySignature(id: Id, payload: Payload) returns (ticket: nat)
      requires Value().Valid()
      modifies this
      ensures Value() == Next(old(Value()), Submit(id, payload))
      ensures ticket == old(calls)
    {
      ticket := calls;
      calls := calls + 1;
      queue := queue + [Task(id, payload, ticket)];
      var worker := roundRobin;
      roundRobin := (roundRobin + 1) % |inbox|;
      inbox := inbox[worker := inbox[worker] + [Request(id, payload)]];
      posted := posted[worker := posted[worker] + 1];
    }

    /** The worker's own handler: verify and post the reply. */
    method WorkerStep(w: nat)
      requires Value().Valid() && Enabled(Value(), Compute(w))
      modifies this
      ensures Value() == Next(old(Value()), Compute(w))
    {
      var tx := inbox[w][0];
      inbox := inbox[w := inbox[w][1..]];
      var isValid := FakeVerifySignature(tx.payload);
      outbox := outbox[w := outbox[w] + [Reply(tx.id, isValid)]];
    }

    /** `w.on("message", …)`. */
    method OnMessage(w: nat)
      requires Value().Valid() && Enabled(Value(), Deliver(w))
      modifies this
      ensures Value() == Next(old(Value()), Deliver(w))
    {
      var msg := outbox[w][0];
      outbox := outbox[w := outbox[w][1..]];
      var taskIndex := FindIndex(queue, msg.id);
      if taskIndex != -1 {
        var task := queue[taskIndex];
        queue := queue[..taskIndex] + queue[taskIndex + 1..];
        settled := settled + [Settled(task, msg.isValid)];
      }
    }
  }
}
