/** The token protocol of src/core/worker.c: one master and n workers share a pipe of tokens
    and a socketpair of connections. A run is any interleaving of their steps. */
module Prefork {

  const FDPASS_MAX_N: nat := 64

  /** Where a worker is in its loop: waiting for a connection, in `handle_client`, or about to
      write its token back. */
  datatype Worker = Idle | Serving(fd: int) | Releasing

  /** Where the master is in `drain_slow_queue`. */
  datatype Master = Free | Holding(fd: int)

  /** The last three fields record the connections sent, taken up and finished so far. */
  datatype Pool = Pool(tokens: nat, master: Master, queue: seq<int>, workers: seq<Worker>,
                       sent: seq<int>, started: seq<int>, finished: seq<int>)

  datatype Step = Claim(fd: int) | Send | SendFails | Take(i: nat) | Finish(i: nat) | Release(i: nat)

  function Clamp(n: int): nat {
    if n < 1 then 1 else if n > FDPASS_MAX_N then FDPASS_MAX_N else n
  }

  function Init(n: nat): Pool {
    Pool(n, Free, [], seq(n, _ => Idle), [], [], [])
  }

  /** `start_worker_pool`: the pipe is filled with one token per worker. */
  method StartPool(n: int) returns (p: Pool)
    ensures p == Init(Clamp(n)) && 1 <= |p.workers| <= FDPASS_MAX_N
    ensures 1 <= n <= FDPASS_MAX_N ==> |p.workers| == n
    ensures p.tokens == |p.workers| && p.master.Free? && p.queue == []
    ensures forall i :: 0 <= i < |p.workers| ==> p.workers[i].Idle?
  {
    var m := Clamp(n);
    var tokens, workers := 0, [];
    while tokens < m
      invariant 0 <= tokens <= m && workers == seq(tokens, _ => Idle)
    {
      tokens, workers := tokens + 1, workers + [Idle];
    }
    p := Pool(tokens, Free, [], workers, [], [], []);
  }

  predicate Enabled(p: Pool, s: Step) {
    match s
    case Claim(_) => p.master.Free? && p.tokens > 0
    case Send => p.master.Holding?
    case SendFails => p.master.Holding?
    case Take(i) => i < |p.workers| && p.workers[i].Idle? && p.queue != []
    case Finish(i) => i < |p.workers| && p.workers[i].Serving?
    case Release(i) => i < |p.workers| && p.workers[i].Releasing?
  }

  function Apply(p: Pool, s: Step): Pool
    requires Enabled(p, s)
  {
    match s
    case Claim(fd) => p.(tokens := p.tokens - 1, master := Holding(fd))
    case Send => p.(master := Free, queue := p.queue + [p.master.fd], sent := p.sent + [p.master.fd])
    case SendFails => p.(master := Free, tokens := p.tokens + 1)
    case Take(i) => p.(queue := p.queue[1..], workers := p.workers[i := Serving(p.queue[0])],
                       started := p.started + [p.queue[0]])
    case Finish(i) => p.(workers := p.workers[i := Releasing], finished := p.finished + [p.workers[i].fd])
    case Release(i) => p.(workers := p.workers[i := Idle], tokens := p.tokens + 1)
  }

  /** Every step of the run could be taken when its turn came. */
  predicate Runs(p: Pool, steps: seq<Step>)
    decreases |steps|
  {
    steps == [] || (Enabled(p, steps[0]) && Runs(Apply(p, steps[0]), steps[1..]))
  }

  function After(p: Pool, steps: seq<Step>): Pool
    requires Runs(p, steps)
    decreases |steps|
  {
    if steps == [] then p else After(Apply(p, steps[0]), steps[1..])
  }

  // ---- what every run keeps --------------------------------------------

  function Held(m: Master): nat {
    if m.Holding? then 1 else 0
  }

  function Busy(ws: seq<Worker>): nat {
    if ws == [] then 0 else Taken(ws[0]) + Busy(ws[1..])
  }

  function Taken(w: Worker): nat {
    if w.Idle? then 0 else 1
  }

  function Serves(w: Worker, fd: int): nat {
    if w == Serving(fd) then 1 else 0
  }

  /** How many workers are serving `fd`, and how many are serving at all. */
  function HowManyServe(ws: seq<Worker>, fd: int): nat {
    if ws == [] then 0 else Serves(ws[0], fd) + HowManyServe(ws[1..], fd)
  }

  function InService(ws: seq<Worker>): nat {
    if ws == [] then 0 else (if ws[0].Serving? then 1 else 0) + InService(ws[1..])
  }

  /** How often `fd` occurs. */
  function Times(s: seq<int>, fd: int): nat {
    if s == [] then 0 else Times(s[..|s| - 1], fd) + (if s[|s| - 1] == fd then 1 else 0)
  }

  /** Each time a connection was taken up it is finished or being served. */
  ghost predicate Conserved(started: seq<int>, finished: seq<int>, ws: seq<Worker>) {
    forall fd :: Times(started, fd) == Times(finished, fd) + HowManyServe(ws, fd)
  }

  /** A token is in the pipe, in the master's hand, with a queued connection or with a worker;
      connections are taken up in the order they were sent, each once. */
  ghost predicate Inv(p: Pool) {
    p.tokens + Held(p.master) + |p.queue| + Busy(p.workers) == |p.workers|
    && p.sent == p.started + p.queue
    && Conserved(p.started, p.finished, p.workers)
  }

  lemma {:induction false} WorkerChanges(ws: seq<Worker>, i: nat, w: Worker, fd: int)
    requires i < |ws|
    ensures Busy(ws[i := w]) + Taken(ws[i]) == Busy(ws) + Taken(w)
    ensures HowManyServe(ws[i := w], fd) + Serves(ws[i], fd) == HowManyServe(ws, fd) + Serves(w, fd)
  {
    var changed := ws[i := w];
    if i == 0 {
      assert changed[0] == w && changed[1..] == ws[1..];
    } else {
      assert changed[0] == ws[0] && changed[1..] == ws[1..][i - 1 := w];
      WorkerChanges(ws[1..], i - 1, w, fd);
    }
  }

  lemma {:induction false} InitHolds(n: nat, fd: int)
    ensures Busy(seq(n, _ => Idle)) == 0 && HowManyServe(seq(n, _ => Idle), fd) == 0
  {
    if n > 0 {
      InitHolds(n - 1, fd);
      assert seq(n, _ => Idle)[1..] == seq(n - 1, _ => Idle);
    }
  }

  lemma TimesSnoc(s: seq<int>, x: int, fd: int)
    ensures Times(s + [x], fd) == Times(s, fd) + if x == fd then 1 else 0
  {
    assert (s + [x])[..|s|] == s;
  }

  lemma {:induction false} TimesAppend(a: seq<int>, b: seq<int>, fd: int)
    ensures Times(a + b, fd) == Times(a, fd) + Times(b, fd)
  {
    if b == [] {
      assert a + b == a;
    } else {
      var init := b[..|b| - 1];
      TimesAppend(a, init, fd);
      assert a + b == a + init + [b[|b| - 1]];
      TimesSnoc(a + init, b[|b| - 1], fd);
    }
  }

  lemma TakeKeeps(p: Pool, i: nat)
    requires Inv(p) && Enabled(p, Take(i))
    ensures Inv(Apply(p, Take(i)))
  {
    var x := p.queue[0];
    WorkerChanges(p.workers, i, Serving(x), x);
    assert p.started + [x] + p.queue[1..] == p.started + p.queue;
    forall fd
      ensures Times(p.started + [x], fd) == Times(p.finished, fd) + HowManyServe(p.workers[i := Serving(x)], fd)
    {
      WorkerChanges(p.workers, i, Serving(x), fd);
      TimesSnoc(p.started, x, fd);
    }
  }

  lemma FinishKeeps(p: Pool, i: nat)
    requires Inv(p) && Enabled(p, Finish(i))
    ensures Inv(Apply(p, Finish(i)))
  {
    var x := p.workers[i].fd;
    WorkerChanges(p.workers, i, Releasing, x);
    forall fd
      ensures Times(p.started, fd) == Times(p.finished + [x], fd) + HowManyServe(p.workers[i := Releasing], fd)
    {
      WorkerChanges(p.workers, i, Releasing, fd);
      TimesSnoc(p.finished, x, fd);
    }
  }

  lemma ReleaseKeeps(p: Pool, i: nat)
    requires Inv(p) && Enabled(p, Release(i))
    ensures Inv(Apply(p, Release(i)))
  {
    WorkerChanges(p.workers, i, Idle, 0);
    forall fd
      ensures HowManyServe(p.workers[i := Idle], fd) == HowManyServe(p.workers, fd)
    {
      WorkerChanges(p.workers, i, Idle, fd);
    }
  }

  lemma StepKeeps(p: Pool, s: Step)
    requires Inv(p) && Enabled(p, s)
    ensures Inv(Apply(p, s)) && |Apply(p, s).workers| == |p.workers|
  {
    match s
    case Claim(_) =>
    case Send =>
      assert p.started + p.queue + [p.master.fd] == p.started + (p.queue + [p.master.fd]);
    case SendFails =>
    case Take(i) =>
      TakeKeeps(p, i);
    case Finish(i) =>
      FinishKeeps(p, i);
    case Release(i) =>
      ReleaseKeeps(p, i);
  }

  lemma {:induction false} RunKeeps(p: Pool, steps: seq<Step>)
    requires Inv(p) && Runs(p, steps)
    ensures Inv(After(p, steps)) && |After(p, steps).workers| == |p.workers|
    decreases |steps|
  {
    if steps != [] {
      StepKeeps(p, steps[0]);
      RunKeeps(Apply(p, steps[0]), steps[1..]);
    }
  }

  lemma {:induction false} IdleExists(ws: seq<Worker>)
    requires Busy(ws) < |ws|
    ensures exists i :: 0 <= i < |ws| && ws[i].Idle?
  {
    if !ws[0].Idle? {
      IdleExists(ws[1..]);
      var i :| 0 <= i < |ws[1..]| && ws[1..][i].Idle?;
      assert ws[i + 1].Idle?;
    }
  }

  lemma {:induction false} InServiceAtMostBusy(ws: seq<Worker>)
    ensures InService(ws) <= Busy(ws)
  {
    if ws != [] {
      InServiceAtMostBusy(ws[1..]);
    }
  }

  lemma StartHolds(n: nat)
    ensures Inv(Init(n))
  {
    forall fd
      ensures HowManyServe(Init(n).workers, fd) == 0
    {
      InitHolds(n, fd);
    }
    InitHolds(n, 0);
  }

  /** In every interleaving: tokens are conserved; at most n connections are in service; each
      queued connection has an idle worker of its own, so a non-empty queue never waits for a
      busy one; and connections are taken up in sending order, each time one was sent it is
      finished, being served or still queued. */
  lemma EveryRun(n: nat, steps: seq<Step>)
    requires Runs(Init(n), steps)
    ensures var p := After(Init(n), steps);
            p.tokens + Held(p.master) + |p.queue| + Busy(p.workers) == n
            && InService(p.workers) <= n
            && |p.queue| <= |p.workers| - Busy(p.workers)
            && (p.queue != [] ==> exists i: nat :: Enabled(p, Take(i)))
            && p.sent == p.started + p.queue
            && forall fd :: Times(p.sent, fd) == Times(p.finished, fd) + HowManyServe(p.workers, fd) + Times(p.queue, fd)
  {
    StartHolds(n);
    RunKeeps(Init(n), steps);
    var p := After(Init(n), steps);
    InServiceAtMostBusy(p.workers);
    forall fd
      ensures Times(p.sent, fd) == Times(p.finished, fd) + HowManyServe(p.workers, fd) + Times(p.queue, fd)
    {
      TimesAppend(p.started, p.queue, fd);
    }
    if p.queue != [] {
      IdleExists(p.workers);
      var i :| 0 <= i < |p.workers| && p.workers[i].Idle?;
      assert Enabled(p, Take(i));
    }
  }

  /** When the pipe is empty and the master holds no token, every worker is taken: serving,
      releasing, or about to take a queued connection. */
  lemma NoTokenMeansFull(n: nat, steps: seq<Step>)
    requires Runs(Init(n), steps)
    requires var p := After(Init(n), steps); p.tokens == 0 && p.master.Free?
    ensures var p := After(Init(n), steps); |p.queue| + Busy(p.workers) == n
  {
    EveryRun(n, steps);
  }

  // ---- what is sent ----------------------------------------------------

  /** The descriptors a run sends: each time the one claimed last. */
  function SentBy(held: int, steps: seq<Step>): seq<int>
    decreases |steps|
  {
    if steps == [] then [] else
    match steps[0]
    case Claim(fd) => SentBy(fd, steps[1..])
    case Send => [held] + SentBy(held, steps[1..])
    case _ => SentBy(held, steps[1..])
  }

  /** Every descriptor sent is the one claimed for it, in that order, and nothing else is sent. */
  lemma {:induction false} SentIsClaimed(p: Pool, held: int, steps: seq<Step>)
    requires Runs(p, steps) && (p.master.Holding? ==> p.master.fd == held)
    ensures After(p, steps).sent == p.sent + SentBy(held, steps)
    decreases |steps|
  {
    if steps == [] {
      assert p.sent + [] == p.sent;
    } else {
      var s, q := steps[0], Apply(p, steps[0]);
      SentIsClaimed(q, if s.Claim? then s.fd else held, steps[1..]);
      if s.Send? {
        assert p.sent + [held] + SentBy(held, steps[1..]) == p.sent + ([held] + SentBy(held, steps[1..]));
      }
    }
  }

  // ---- the pool never gets stuck ---------------------------------------

  /** A connection that finds a token is served to its end, and the token comes back. */
  lemma ServesOne(p: Pool, fd: int) returns (i: nat)
    requires Inv(p) && p.master.Free? && p.tokens > 0 && p.queue == []
    ensures var steps := [Claim(fd), Send, Take(i), Finish(i), Release(i)];
            Runs(p, steps)
            && After(p, steps) == p.(sent := p.sent + [fd], started := p.started + [fd], finished := p.finished + [fd])
  {
    IdleExists(p.workers);
    i :| 0 <= i < |p.workers| && p.workers[i].Idle?;
    var a := Apply(p, Claim(fd));
    var b := Apply(a, Send);
    assert b.queue == [fd];
    var c := Apply(b, Take(i));
    var d := Apply(c, Finish(i));
    var e := Apply(d, Release(i));
    assert e.workers == p.workers && e.queue == p.queue;
    Chain5(p, Claim(fd), Send, Take(i), Finish(i), Release(i), a, b, c, d);
  }

  lemma Chain5(p: Pool, s1: Step, s2: Step, s3: Step, s4: Step, s5: Step, a: Pool, b: Pool, c: Pool, d: Pool)
    requires Enabled(p, s1) && a == Apply(p, s1) && Enabled(a, s2) && b == Apply(a, s2) && Enabled(b, s3)
    requires c == Apply(b, s3) && Enabled(c, s4) && d == Apply(c, s4) && Enabled(d, s5)
    ensures Runs(p, [s1, s2, s3, s4, s5]) && After(p, [s1, s2, s3, s4, s5]) == Apply(d, s5)
  {
    Chain(d, s5, []);
    assert [s5] + [] == [s5];
    Chain(c, s4, [s5]);
    assert [s4] + [s5] == [s4, s5];
    Chain(b, s3, [s4, s5]);
    assert [s3] + [s4, s5] == [s3, s4, s5];
    Chain(a, s2, [s3, s4, s5]);
    assert [s2] + [s3, s4, s5] == [s2, s3, s4, s5];
    Chain(p, s1, [s2, s3, s4, s5]);
    assert [s1] + [s2, s3, s4, s5] == [s1, s2, s3, s4, s5];
  }

  lemma Chain(p: Pool, s: Step, rest: seq<Step>)
    requires Enabled(p, s) && Runs(Apply(p, s), rest)
    ensures Runs(p, [s] + rest) && After(p, [s] + rest) == After(Apply(p, s), rest)
  {
    assert ([s] + rest)[1..] == rest;
  }

  /** How much is left to do for a worker. */
  function Work(ws: seq<Worker>): nat {
    if ws == [] then 0 else (if ws[0].Serving? then 2 else Taken(ws[0])) + Work(ws[1..])
  }

  lemma {:induction false} WorkChanges(ws: seq<Worker>, i: nat, w: Worker)
    requires i < |ws|
    ensures Work(ws[i := w]) + Work([ws[i]]) == Work(ws) + Work([w])
  {
    var changed := ws[i := w];
    if i == 0 {
      assert changed[1..] == ws[1..];
    } else {
      assert changed[0] == ws[0] && changed[1..] == ws[1..][i - 1 := w] && ws[1..][i - 1] == ws[i];
      WorkChanges(ws[1..], i - 1, w);
    }
  }

  lemma {:induction false} BusyExists(ws: seq<Worker>)
    requires Busy(ws) > 0
    ensures exists i :: 0 <= i < |ws| && !ws[i].Idle?
  {
    if ws[0].Idle? {
      BusyExists(ws[1..]);
      var i :| 0 <= i < |ws[1..]| && !ws[1..][i].Idle?;
      assert !ws[i + 1].Idle?;
    }
  }

  function Left(p: Pool): nat {
    4 * Held(p.master) + 3 * |p.queue| + Work(p.workers)
  }

  /** In every reachable state in which something is under way, some step is possible that brings it
      closer to its end. */
  lemma Progress(p: Pool) returns (s: Step)
    requires Inv(p) && (p.master.Holding? || p.queue != [] || Busy(p.workers) > 0)
    ensures Enabled(p, s) && Left(Apply(p, s)) < Left(p)
  {
    if p.master.Holding? {
      s := Send;
    } else if p.queue != [] {
      IdleExists(p.workers);
      var i :| 0 <= i < |p.workers| && p.workers[i].Idle?;
      s := Take(i);
      WorkChanges(p.workers, i, Serving(p.queue[0]));
    } else {
      BusyExists(p.workers);
      var i :| 0 <= i < |p.workers| && !p.workers[i].Idle?;
      if p.workers[i].Serving? {
        s := Finish(i);
        WorkChanges(p.workers, i, Releasing);
      } else {
        s := Release(i);
        WorkChanges(p.workers, i, Idle);
      }
    }
  }

  /** From every reachable state the pool can come to rest, with every token back in the pipe and
      every connection sent also finished. */
  lemma {:induction false} ComesToRest(p: Pool) returns (steps: seq<Step>)
    requires Inv(p)
    ensures Runs(p, steps)
    ensures var q := After(p, steps);
            Inv(q) && q.tokens == |p.workers| && q.master.Free? && q.queue == [] && Busy(q.workers) == 0
            && forall fd :: Times(q.sent, fd) == Times(q.finished, fd)
    decreases Left(p)
  {
    if p.master.Holding? || p.queue != [] || Busy(p.workers) > 0 {
      var s := Progress(p);
      StepKeeps(p, s);
      var rest := ComesToRest(Apply(p, s));
      Chain(p, s, rest);
      steps := [s] + rest;
    } else {
      steps := [];
      assert p.started + [] == p.started;
      forall fd
        ensures HowManyServe(p.workers, fd) == 0
      {
        NoneServe(p.workers, fd);
      }
    }
  }

  lemma {:induction false} NoneServe(ws: seq<Worker>, fd: int)
    requires Busy(ws) == 0
    ensures HowManyServe(ws, fd) == 0
  {
    if ws != [] {
      NoneServe(ws[1..], fd);
    }
  }
}
