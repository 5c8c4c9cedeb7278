/** The HTTP work queue and the threads around it: one acceptor, a pool of workers and the caller that starts
and stops them, interleaved in every possible way. Connections are numbered in the order they are accepted. */
module WorkQueue {
  const CAPACITY: nat := 128

  datatype Taken<T> = Blocked | Closed | Item(value: T)

  /** The queue itself; each method runs under the queue's mutex. */
  class HttpWorkQueue<T> {
    var items: seq<T>
    const maxDepth: nat
    var shut: bool

    ghost predicate Valid()
      reads this
    {
      |items| <= maxDepth
    }

    constructor (maxDepth: nat)
      ensures Valid() && items == [] && !shut && this.maxDepth == maxDepth
    {
      this.maxDepth := maxDepth;
      items, shut := [], false;
    }

    method Enqueue(item: T) returns (ok: bool)
      requires Valid()
      modifies this
      ensures Valid() && shut == old(shut)
      ensures ok <==> !old(shut) && |old(items)| < maxDepth
      ensures items == if ok then old(items) + [item] else old(items)
    {
      if shut || |items| >= maxDepth { return false; }
      items := items + [item];
      ok := true;
    }

    /** Takes the oldest item; on an empty queue the caller blocks while it is open and gives up once it is shut. */
    method Dequeue() returns (r: Taken<T>)
      requires Valid()
      modifies this
      ensures Valid() && shut == old(shut)
      ensures r.Blocked? <==> old(items) == [] && !old(shut)
      ensures r.Closed? <==> old(items) == [] && old(shut)
      ensures old(items) == (if r.Item? then [r.value] else []) + items
    {
      if items == [] { return if shut then Closed else Blocked; }
      r := Item(items[0]);
      items := items[1..];
    }

    method Shutdown()
      requires Valid()
      modifies this
      ensures Valid() && shut && items == old(items)
    {
      shut := true;
    }
  }

  // ---- The threads ----

  type Socket = nat

  datatype Acceptor = Checking | Accepting | Holding(client: Socket) | Refusing(refused: Socket) | Gone
  datatype Worker = Looping | Waiting | Handling(client: Socket) | Exited
  datatype Control = Idle | Serving | FlagDown | QueueShut | SocketClosed

  datatype State = State(
    control: Control, running: bool, listening: bool, shut: bool, queue: seq<Socket>,
    acceptor: Acceptor, workers: seq<Worker>,
    next: Socket, enqueued: seq<Socket>, dequeued: seq<Socket>, closed: seq<Socket>)

  datatype Event =
    | Start(threads: nat) | LowerFlag | ShutQueue | CloseSocket | Join
    | CheckRunning | Accept | AcceptFails | Enqueue | Refuse
    | WorkerChecks(w: nat) | Dequeue(w: nat) | Finish(w: nat)

  function Init(): State {
    State(Idle, false, false, false, [], Gone, [], 0, [], [], [])
  }

  predicate Enabled(s: State, e: Event) {
    match e
    case Start(_) => s.control == Idle
    case LowerFlag => s.control == Serving
    case ShutQueue => s.control == FlagDown
    case CloseSocket => s.control == QueueShut
    case Join =>
      s.control == SocketClosed && s.acceptor == Gone && forall i | 0 <= i < |s.workers| :: s.workers[i] == Exited
    case CheckRunning => s.acceptor == Checking
    case Accept => s.acceptor == Accepting && s.listening
    case AcceptFails => s.acceptor == Accepting
    case Enqueue => s.acceptor.Holding?
    case Refuse => s.acceptor.Refusing?
    case WorkerChecks(w) => w < |s.workers| && s.workers[w] == Looping
    case Dequeue(w) => w < |s.workers| && s.workers[w] == Waiting && (s.queue != [] || s.shut)
    case Finish(w) => w < |s.workers| && s.workers[w].Handling?
  }

  function Apply(s: State, e: Event): State
    requires Enabled(s, e)
  {
    match e
    case Start(n) =>
      s.(control := Serving, running := true, listening := true, acceptor := Checking, workers := seq(n, _ => Looping))
    case LowerFlag => s.(control := FlagDown, running := false)
    case ShutQueue => s.(control := QueueShut, shut := true)
    case CloseSocket => s.(control := SocketClosed, listening := false)
    case Join => s.(control := Idle, workers := [])
    case CheckRunning => s.(acceptor := if s.running then Accepting else Gone)
    case Accept => s.(acceptor := Holding(s.next), next := s.next + 1)
    case AcceptFails => s.(acceptor := Checking)
    case Enqueue =>
      var c := s.acceptor.client;
      if s.shut || |s.queue| >= CAPACITY then s.(acceptor := Refusing(c))
      else s.(acceptor := Checking, queue := s.queue + [c], enqueued := s.enqueued + [c])
    case Refuse => s.(acceptor := Checking, closed := s.closed + [s.acceptor.refused])
    case WorkerChecks(w) => s.(workers := s.workers[w := if s.running then Waiting else Exited])
    case Dequeue(w) =>
      if s.queue == [] then s.(workers := s.workers[w := Exited])
      else s.(workers := s.workers[w := Handling(s.queue[0])],
              queue := s.queue[1..], dequeued := s.dequeued + [s.queue[0]])
    case Finish(w) => s.(workers := s.workers[w := Looping], closed := s.closed + [s.workers[w].client])
  }

  ghost predicate IsRun(s: State, es: seq<Event>)
    decreases |es|, 0
  {
    es != [] ==> IsRun(s, es[..|es| - 1]) && Enabled(Exec(s, es[..|es| - 1]), es[|es| - 1])
  }

  ghost function Exec(s: State, es: seq<Event>): State
    requires IsRun(s, es)
    decreases |es|, 1
  {
    if es == [] then s else Apply(Exec(s, es[..|es| - 1]), es[|es| - 1])
  }

  // ---- Where every connection is ----

  function One(x: Socket, y: Socket): nat {
    if x == y then 1 else 0
  }

  function Copies(x: Socket, q: seq<Socket>): nat {
    if q == [] then 0 else Copies(x, q[..|q| - 1]) + One(x, q[|q| - 1])
  }

  function Held(x: Socket, a: Acceptor): nat {
    match a
    case Holding(c) => One(x, c)
    case Refusing(c) => One(x, c)
    case _ => 0
  }

  function Load(x: Socket, w: Worker): nat {
    if w.Handling? then One(x, w.client) else 0
  }

  function Handled(x: Socket, workers: seq<Worker>): nat {
    if workers == [] then 0 else Handled(x, workers[..|workers| - 1]) + Load(x, workers[|workers| - 1])
  }

  /** In how many places connection `x` is. */
  function Places(x: Socket, s: State): nat {
    Held(x, s.acceptor) + Copies(x, s.queue) + Handled(x, s.workers) + Copies(x, s.closed)
  }

  lemma CopiesSnoc(x: Socket, q: seq<Socket>, c: Socket)
    ensures Copies(x, q + [c]) == Copies(x, q) + One(x, c)
  {
    assert (q + [c])[..|q|] == q;
  }

  lemma {:induction false} CopiesHead(x: Socket, q: seq<Socket>)
    requires q != []
    ensures Copies(x, q) == One(x, q[0]) + Copies(x, q[1..])
    decreases |q|
  {
    var n := |q| - 1;
    if n > 0 {
      CopiesHead(x, q[..n]);
      assert q[..n][1..] == q[1..][..n - 1];
    }
  }

  lemma {:induction false} CopiesIn(x: Socket, q: seq<Socket>)
    ensures Copies(x, q) > 0 <==> x in q
  {
    if q != [] {
      CopiesIn(x, q[..|q| - 1]);
      assert q == q[..|q| - 1] + [q[|q| - 1]];
    }
  }

  lemma {:induction false} HandledUpdate(x: Socket, workers: seq<Worker>, i: nat, w: Worker)
    requires i < |workers|
    ensures Handled(x, workers[i := w]) + Load(x, workers[i]) == Handled(x, workers) + Load(x, w)
    decreases |workers|
  {
    var n := |workers| - 1;
    if i < n {
      HandledUpdate(x, workers[..n], i, w);
      assert workers[i := w][..n] == workers[..n][i := w];
    } else {
      assert workers[i := w][..n] == workers[..n];
    }
  }

  lemma {:induction false} NoneHandled(x: Socket, workers: seq<Worker>)
    requires forall i | 0 <= i < |workers| :: !workers[i].Handling?
    ensures Handled(x, workers) == 0
  {
    if workers != [] {
      NoneHandled(x, workers[..|workers| - 1]);
    }
  }

  /** Every accepted connection is in exactly one place, exactly once. */
  ghost predicate Accounted(s: State) {
    forall x: Socket :: Places(x, s) == if x < s.next then 1 else 0
  }

  ghost predicate Ascending(q: seq<Socket>, bound: nat) {
    && (forall i, j | 0 <= i < j < |q| :: q[i] < q[j])
    && forall i | 0 <= i < |q| :: q[i] < bound
  }

  /** First in, first out, in the order of acceptance, within the capacity. */
  ghost predicate Fifo(s: State) {
    && s.enqueued == s.dequeued + s.queue && |s.queue| <= CAPACITY
    && Ascending(s.enqueued, s.next)
    && (s.acceptor.Holding? ==> s.acceptor.client == s.next - 1 && Ascending(s.enqueued, s.next - 1))
  }

  /** The threads exist only between a start and the end of a stop. */
  ghost predicate Lifecycle(s: State) {
    && (s.running <==> s.control == Serving)
    && (s.control == Idle ==> s.acceptor == Gone && s.workers == [])
    && (s.control in {QueueShut, SocketClosed} ==> s.shut)
  }

  ghost predicate Inv(s: State) {
    Accounted(s) && Fifo(s) && Lifecycle(s)
  }

  lemma WorkerStepMoves(x: Socket, s: State, e: Event)
    requires Enabled(s, e) && (e.WorkerChecks? || e.Dequeue? || e.Finish?)
    ensures Places(x, Apply(s, e)) == Places(x, s)
  {
    HandledUpdate(x, s.workers, e.w, Apply(s, e).workers[e.w]);
    if e.Dequeue? && s.queue != [] {
      CopiesHead(x, s.queue);
    }
    if e.Finish? {
      CopiesSnoc(x, s.closed, s.workers[e.w].client);
    }
  }

  /** No step loses or duplicates a connection. */
  lemma StepMoves(x: Socket, s: State, e: Event)
    requires Enabled(s, e) && Lifecycle(s)
    ensures Places(x, Apply(s, e)) == Places(x, s) + if e.Accept? then One(x, s.next) else 0
  {
    match e
    case Start(n) => NoneHandled(x, Apply(s, e).workers);
    case Join => NoneHandled(x, s.workers);
    case Enqueue => CopiesSnoc(x, s.queue, s.acceptor.client);
    case Refuse => CopiesSnoc(x, s.closed, s.acceptor.refused);
    case WorkerChecks(_) => WorkerStepMoves(x, s, e);
    case Dequeue(_) => WorkerStepMoves(x, s, e);
    case Finish(_) => WorkerStepMoves(x, s, e);
    case _ =>
  }

  lemma StepKeepsAccounted(s: State, e: Event)
    requires Enabled(s, e) && Lifecycle(s) && Accounted(s)
    ensures Accounted(Apply(s, e))
  {
    forall x: Socket ensures Places(x, Apply(s, e)) == if x < Apply(s, e).next then 1 else 0 {
      StepMoves(x, s, e);
    }
  }

  lemma StepKeepsFifo(s: State, e: Event)
    requires Enabled(s, e) && Fifo(s)
    ensures Fifo(Apply(s, e))
  {
    if e.Dequeue? && s.queue != [] {
      assert s.dequeued + s.queue == s.dequeued + [s.queue[0]] + s.queue[1..];
    } else if e.Enqueue? {
      assert s.dequeued + (s.queue + [s.acceptor.client]) == s.enqueued + [s.acceptor.client];
    }
  }

  lemma StepKeepsLifecycle(s: State, e: Event)
    requires Enabled(s, e) && Lifecycle(s)
    ensures Lifecycle(Apply(s, e))
  {
  }

  lemma StepKeepsInv(s: State, e: Event)
    requires Enabled(s, e) && Inv(s)
    ensures Inv(Apply(s, e))
  {
    StepKeepsAccounted(s, e);
    StepKeepsFifo(s, e);
    StepKeepsLifecycle(s, e);
  }

  lemma {:induction false} RunKeepsInv(s: State, es: seq<Event>)
    requires Inv(s) && IsRun(s, es)
    ensures Inv(Exec(s, es))
    decreases |es|
  {
    if es != [] {
      RunKeepsInv(s, es[..|es| - 1]);
      StepKeepsInv(Exec(s, es[..|es| - 1]), es[|es| - 1]);
    }
  }

  /** In every run every accepted connection is held once, queued once, being handled once or closed once,
      and the queue is bounded and hands connections out in the order they came. */
  lemma QueueSafety(es: seq<Event>)
    requires IsRun(Init(), es)
    ensures Inv(Exec(Init(), es))
  {
    RunKeepsInv(Init(), es);
  }

  /** The shutdown is final: from then on nothing is queued again, even after a later start. */
  lemma {:induction false} ShutIsFinal(s: State, es: seq<Event>)
    requires IsRun(s, es) && s.shut
    ensures Exec(s, es).shut && Exec(s, es).enqueued == s.enqueued && |Exec(s, es).queue| <= |s.queue|
    decreases |es|
  {
    if es != [] {
      ShutIsFinal(s, es[..|es| - 1]);
    }
  }

  // ---- What a stop leaves open ----

  /** The workers that have passed the flag check and wait for the queue. */
  function Waiters(workers: seq<Worker>): nat {
    if workers == [] then 0
    else Waiters(workers[..|workers| - 1]) + if workers[|workers| - 1] == Waiting then 1 else 0
  }

  lemma {:induction false} WaitersUpdate(workers: seq<Worker>, i: nat, w: Worker)
    requires i < |workers|
    ensures Waiters(workers[i := w]) + (if workers[i] == Waiting then 1 else 0)
         == Waiters(workers) + (if w == Waiting then 1 else 0)
    decreases |workers|
  {
    var n := |workers| - 1;
    if i < n {
      WaitersUpdate(workers[..n], i, w);
      assert workers[i := w][..n] == workers[..n][i := w];
    } else {
      assert workers[i := w][..n] == workers[..n];
    }
  }

  lemma {:induction false} NoWaiters(workers: seq<Worker>)
    requires forall i | 0 <= i < |workers| :: workers[i] == Exited
    ensures Waiters(workers) == 0
  {
    if workers != [] {
      NoWaiters(workers[..|workers| - 1]);
    }
  }

  /** The queue is shut and the flag is down, as between the second step of a stop and the next start. */
  ghost predicate Stopping(s: State) {
    s.shut && !s.running && Lifecycle(s)
  }

  /** What the waiting workers cannot take: each takes at most one connection before it sees the flag. */
  function Leftover(s: State): nat {
    if |s.queue| <= Waiters(s.workers) then 0 else |s.queue| - Waiters(s.workers)
  }

  lemma StepKeepsLeftover(s: State, e: Event)
    requires Stopping(s) && Enabled(s, e) && !e.Start?
    ensures Stopping(Apply(s, e)) && Leftover(Apply(s, e)) == Leftover(s)
  {
    var s' := Apply(s, e);
    if e.WorkerChecks? || e.Dequeue? || e.Finish? {
      WaitersUpdate(s.workers, e.w, s'.workers[e.w]);
      if e.Dequeue? && s.queue == [] {
        assert Leftover(s') == 0;
      }
    } else if e.Join? {
      NoWaiters(s.workers);
    }
  }

  /** Whatever the threads do, the number of connections a stop leaves queued is fixed when the queue is shut. */
  lemma {:induction false} StopLeaves(s: State, es: seq<Event>)
    requires Stopping(s) && IsRun(s, es) && forall e | e in es :: !e.Start?
    ensures Stopping(Exec(s, es)) && Leftover(Exec(s, es)) == Leftover(s)
    ensures Exec(s, es).control == Idle ==> |Exec(s, es).queue| == Leftover(s)
    decreases |es|
  {
    if es != [] {
      StopLeaves(s, es[..|es| - 1]);
      assert es[|es| - 1] in es;
      StepKeepsLeftover(Exec(s, es[..|es| - 1]), es[|es| - 1]);
    }
  }

  /** With no thread left, a connection is closed or queued, never both. */
  lemma IdleSplits(s: State)
    requires Inv(s) && s.control == Idle
    ensures forall x: Socket | x < s.next :: x in s.closed <==> x !in s.queue
    ensures (forall x: Socket | x < s.next :: x in s.closed) <==> s.queue == []
  {
    forall x: Socket ensures x in s.closed || x in s.queue ==> x < s.next
      ensures x < s.next ==> (x in s.closed <==> x !in s.queue)
    {
      assert Places(x, s) == if x < s.next then 1 else 0;
      CopiesIn(x, s.queue);
      CopiesIn(x, s.closed);
    }
    if s.queue != [] {
      var x := s.queue[0];
      assert x in s.queue;
    }
  }

  /** A stop closes every connection exactly when, at the moment the queue is shut, no more connections are
      queued than workers wait for them; otherwise it leaves the excess open. */
  lemma StoppedExact(es: seq<Event>, more: seq<Event>)
    requires IsRun(Init(), es) && Exec(Init(), es).shut && !Exec(Init(), es).running
    requires IsRun(Exec(Init(), es), more) && (forall e | e in more :: !e.Start?)
    requires Exec(Exec(Init(), es), more).control == Idle
    ensures var s, done := Exec(Init(), es), Exec(Exec(Init(), es), more);
            && |done.queue| == Leftover(s)
            && (forall x: Socket | x < done.next :: x in done.closed <==> x !in done.queue)
            && ((forall x: Socket | x < done.next :: x in done.closed) <==> |s.queue| <= Waiters(s.workers))
  {
    var s := Exec(Init(), es);
    QueueSafety(es);
    StopLeaves(s, more);
    RunKeepsInv(s, more);
    IdleSplits(Exec(s, more));
  }

  lemma Extend(s0: State, es: seq<Event>, s: State, e: Event)
    requires IsRun(s0, es) && Exec(s0, es) == s && Enabled(s, e)
    ensures IsRun(s0, es + [e]) && Exec(s0, es + [e]) == Apply(s, e)
  {
    assert (es + [e])[..|es|] == es;
  }

  lemma OneHeld() returns (es: seq<Event>)
    ensures IsRun(Init(), es)
    ensures Exec(Init(), es) == State(Serving, true, true, false, [], Holding(0), [Looping], 1, [], [], [])
  {
    var s1 := Apply(Init(), Start(1));
    assert s1.workers == [Looping];
    Extend(Init(), [], Init(), Start(1));
    Extend(Init(), [] + [Start(1)], s1, CheckRunning);
    Extend(Init(), [] + [Start(1)] + [CheckRunning], Apply(s1, CheckRunning), Accept);
    es := [] + [Start(1)] + [CheckRunning] + [Accept];
  }

  lemma OneQueued() returns (es: seq<Event>)
    ensures IsRun(Init(), es)
    ensures Exec(Init(), es) == State(FlagDown, false, true, false, [0], Gone, [Looping], 1, [0], [], [])
  {
    var start := OneHeld();
    var s := Exec(Init(), start);
    Extend(Init(), start, s, Event.Enqueue);
    var s1 := Apply(s, Event.Enqueue);
    assert s1.queue == [0] && s1.enqueued == [0];
    Extend(Init(), start + [Event.Enqueue], s1, LowerFlag);
    Extend(Init(), start + [Event.Enqueue] + [LowerFlag], Apply(s1, LowerFlag), CheckRunning);
    es := start + [Event.Enqueue] + [LowerFlag] + [CheckRunning];
  }

  lemma AllExited() returns (es: seq<Event>)
    ensures IsRun(Init(), es)
    ensures Exec(Init(), es) == State(SocketClosed, false, false, true, [0], Gone, [Exited], 1, [0], [], [])
  {
    var start := OneQueued();
    var s := Exec(Init(), start);
    Extend(Init(), start, s, ShutQueue);
    Extend(Init(), start + [ShutQueue], Apply(s, ShutQueue), CloseSocket);
    var s2 := Apply(Apply(s, ShutQueue), CloseSocket);
    Extend(Init(), start + [ShutQueue] + [CloseSocket], s2, WorkerChecks(0));
    assert Apply(s2, WorkerChecks(0)).workers == [Exited];
    es := start + [ShutQueue] + [CloseSocket] + [WorkerChecks(0)];
  }

  /** A stop with a connection still queued: the only worker sees the flag first and leaves it open. */
  lemma LeftOpen() returns (es: seq<Event>)
    ensures IsRun(Init(), es)
    ensures Exec(Init(), es) == State(Idle, false, false, true, [0], Gone, [], 1, [0], [], [])
  {
    var start := AllExited();
    Extend(Init(), start, Exec(Init(), start), Join);
    es := start + [Join];
  }

  // ---- The server object ----

  /** The server's shared fields; each method is the code of one thread between two of its blocking calls. */
  class HttpServer {
    const workQueue: HttpWorkQueue<Socket>
    var running: bool
    var closed: seq<Socket>

    constructor ()
      ensures Shows(Init()) && fresh(workQueue)
    {
      workQueue := new HttpWorkQueue<Socket>(CAPACITY);
      running, closed := false, [];
    }

    ghost predicate Shows(s: State)
      reads this, workQueue
    {
      && workQueue.Valid() && workQueue.maxDepth == CAPACITY
      && workQueue.items == s.queue && workQueue.shut == s.shut && running == s.running && closed == s.closed
    }

    /** The accept thread with a connection in hand. */
    method QueueOrRefuse(client: Socket, ghost s: State) returns (ghost es: seq<Event>)
      requires Shows(s) && s.acceptor == Holding(client)
      modifies this, workQueue
      ensures IsRun(s, es) && Shows(Exec(s, es)) && Exec(s, es).acceptor == Checking
    {
      Extend(s, [], s, Event.Enqueue);
      es := [] + [Event.Enqueue];
      var ok := workQueue.Enqueue(client);
      if !ok {
        Extend(s, es, Exec(s, es), Refuse);
        es := es + [Refuse];
        closed := closed + [client];
      }
    }

    /** One turn of a worker: the flag, the queue, the request. A blocked worker stays waiting. */
    method WorkerTurn(w: nat, ghost s: State) returns (taken: Taken<Socket>, ghost es: seq<Event>)
      requires Shows(s) && w < |s.workers| && s.workers[w] == Looping
      modifies this, workQueue
      ensures IsRun(s, es) && Shows(Exec(s, es)) && |Exec(s, es).workers| == |s.workers|
      ensures Exec(s, es).workers[w] ==
              match taken case Blocked => Waiting case Closed => Exited case Item(_) => Looping
    {
      Extend(s, [], s, WorkerChecks(w));
      es := [] + [WorkerChecks(w)];
      if !running { return Closed, es; }
      taken := workQueue.Dequeue();
      if taken.Blocked? { return; }
      Extend(s, es, Exec(s, es), Event.Dequeue(w));
      es := es + [Event.Dequeue(w)];
      if taken.Item? {
        Extend(s, es, Exec(s, es), Finish(w));
        es := es + [Finish(w)];
        closed := closed + [taken.value];
      }
    }

    /** The first two steps of a stop; nothing happens unless the server runs. */
    method BeginStop(ghost s: State) returns (ghost es: seq<Event>)
      requires Shows(s) && Lifecycle(s)
      modifies this, workQueue
      ensures IsRun(s, es) && Shows(Exec(s, es))
      ensures old(running) ==> Stopping(Exec(s, es)) && Leftover(Exec(s, es)) == Leftover(s)
    {
      es := [];
      if !running { return; }
      Extend(s, es, s, LowerFlag);
      es := es + [LowerFlag];
      running := false;
      Extend(s, es, Exec(s, es), ShutQueue);
      es := es + [ShutQueue];
      workQueue.Shutdown();
    }
  }
}
