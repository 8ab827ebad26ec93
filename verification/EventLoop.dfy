/** The connection table and slow-queue ring of src/core/event.c. */
module EventLoop {

  const EVENT_MAX_CONN: nat := 1024

  /** A table slot; `registered` says that the kernel reports its readability. */
  datatype Conn = Conn(fd: int, slow: bool, deadline: int, inUse: bool, registered: bool)

  const NO_CONN := Conn(-1, false, 0, false, false)

  predicate Expired(c: Conn, now: int) {
    c.inUse && c.deadline != 0 && now >= c.deadline
  }

  function Freed(c: Conn): Conn {
    c.(fd := -1, inUse := false, registered := false)
  }

  // ---- the table as a state machine ------------------------------------

  /** The table; the slots in the ring, oldest first, with their descriptors; every descriptor
      parked so far and every one that left the ring, in order. */
  datatype State = State(conns: seq<Conn>, parked: seq<nat>, fds: seq<int>, parkLog: seq<int>, leftLog: seq<int>)

  const START := State(seq(EVENT_MAX_CONN, _ => NO_CONN), [], [], [], [])

  predicate Shape(s: State) {
    |s.conns| == EVENT_MAX_CONN && |s.fds| == |s.parked|
    && forall k :: 0 <= k < |s.parked| ==> s.parked[k] < EVENT_MAX_CONN
  }

  /** In use means registered for reading or parked, never both; the ring has at most 1023
      entries, no slot twice, and connections left it in the order they joined. */
  predicate Inv(s: State) {
    Shape(s) && |s.parked| < EVENT_MAX_CONN && s.parkLog == s.leftLog + s.fds
    && (forall k :: 0 <= k < |s.parked| ==> s.conns[s.parked[k]].fd == s.fds[k])
    && (forall j, k :: 0 <= j < k < |s.parked| ==> s.parked[j] != s.parked[k])
    && (forall i :: 0 <= i < EVENT_MAX_CONN ==> Settled(s.conns[i], i in s.parked))
  }

  predicate Settled(c: Conn, parked: bool) {
    (c.inUse <==> c.registered || parked) && !(c.registered && parked) && (c.inUse ==> (c.slow <==> parked))
  }

  /** What can happen: a connection is accepted, found slow, closed by its peer, or kept alive after
      a fast request; the loop comes round; the idle sweep runs. `claims` is how often claiming a
      worker succeeds; a token returned after a failed dispatch can be claimed again. */
  datatype Input =
    | Connect(fd: int, deadline: int)
    | Slow(i: nat, claims: nat)
    | Hangup(i: nat)
    | Again(i: nat, deadline: int)
    | Tick(claims: nat)
    | Sweep(now: int)

  function FirstFree(conns: seq<Conn>): (i: nat)
    ensures i <= |conns| && (i < |conns| ==> !conns[i].inUse) && forall j :: 0 <= j < i ==> conns[j].inUse
  {
    if conns == [] || !conns[0].inUse then 0 else 1 + FirstFree(conns[1..])
  }

  function Accepted(s: State, fd: int, deadline: int): State
    requires Shape(s)
  {
    var i := FirstFree(s.conns);
    if i == EVENT_MAX_CONN then s else s.(conns := s.conns[i := Conn(fd, false, deadline, true, true)])
  }

  /** Joining the ring, or being closed when it is full. */
  function Joined(s: State, i: nat): State
    requires Shape(s) && i < EVENT_MAX_CONN
  {
    var c := s.conns[i].(registered := false, slow := true);
    if |s.parked| >= EVENT_MAX_CONN - 1 then s.(conns := s.conns[i := Freed(c)])
    else State(s.conns[i := c], s.parked + [i], s.fds + [c.fd], s.parkLog + [c.fd], s.leftLog)
  }

  /** The oldest entry leaves the ring and its slot is free. */
  function Gone(s: State): State
    requires Shape(s) && s.parked != []
  {
    var c := s.parked[0];
    State(s.conns[c := Freed(s.conns[c])], s.parked[1..], s.fds[1..], s.parkLog, s.leftLog + [s.conns[c].fd])
  }

  function Drained(s: State, claims: nat): (t: State)
    requires Shape(s)
    ensures Shape(t)
    decreases claims
  {
    if claims == 0 || s.parked == [] then s else Drained(Gone(s), claims - 1)
  }

  function Swept(s: State, now: int): State {
    s.(conns := seq(|s.conns|, i requires 0 <= i < |s.conns| =>
                      if Expired(s.conns[i], now) then Freed(s.conns[i]) else s.conns[i]))
  }

  predicate Reads(s: State, i: nat) {
    i < |s.conns| && s.conns[i].registered
  }

  /** Events for slots that are not registered do nothing. */
  function Step(s: State, input: Input): (t: State)
    requires Shape(s)
    ensures Shape(t)
  {
    match input
    case Connect(fd, deadline) => Accepted(s, fd, deadline)
    case Slow(i, claims) => if Reads(s, i) then Drained(Joined(s, i), claims) else s
    case Hangup(i) => if Reads(s, i) then s.(conns := s.conns[i := Freed(s.conns[i])]) else s
    case Again(i, deadline) => if Reads(s, i) then s.(conns := s.conns[i := s.conns[i].(deadline := deadline)]) else s
    case Tick(claims) => Drained(s, claims)
    case Sweep(now) => Swept(s, now)
  }

  function After(s: State, inputs: seq<Input>): (t: State)
    requires Shape(s)
    ensures Shape(t)
    decreases |inputs|
  {
    if inputs == [] then s else After(Step(s, inputs[0]), inputs[1..])
  }

  predicate NoneStale(s: State, now: int)
    requires Shape(s)
  {
    forall k :: 0 <= k < |s.parked| ==> !Expired(s.conns[s.parked[k]], now)
  }

  predicate CleanStep(s: State, input: Input)
    requires Shape(s)
  {
    input.Sweep? ==> NoneStale(s, input.now)
  }

  /** No sweep of the run meets an expired parked connection. */
  predicate Clean(s: State, inputs: seq<Input>)
    requires Shape(s)
    decreases |inputs|
  {
    inputs == [] || (CleanStep(s, inputs[0]) && Clean(Step(s, inputs[0]), inputs[1..]))
  }

  // ---- what runs keep --------------------------------------------------

  lemma SlotChanges(s: State, i: nat, c: Conn)
    requires Inv(s) && i < EVENT_MAX_CONN && Settled(c, i in s.parked) && i !in s.parked
    ensures Inv(s.(conns := s.conns[i := c]))
  {
  }

  lemma JoinKeeps(s: State, i: nat)
    requires Inv(s) && Reads(s, i)
    ensures Inv(Joined(s, i))
  {
    assert i !in s.parked;
    if |s.parked| < EVENT_MAX_CONN - 1 {
      var t := Joined(s, i);
      assert forall j :: 0 <= j < EVENT_MAX_CONN ==> (j in t.parked <==> j == i || j in s.parked);
      assert s.leftLog + s.fds + [s.conns[i].fd] == s.leftLog + (s.fds + [s.conns[i].fd]);
    }
  }

  lemma WithoutFirst(ks: seq<nat>, j: nat)
    requires ks != [] && forall a, b :: 0 <= a < b < |ks| ==> ks[a] != ks[b]
    ensures j in ks[1..] <==> j in ks && j != ks[0]
  {
    if j in ks && j != ks[0] {
      var k :| 0 <= k < |ks| && ks[k] == j;
      assert ks[1..][k - 1] == j;
    }
  }

  lemma LogsShift(left: seq<int>, fds: seq<int>)
    requires fds != []
    ensures left + fds == left + [fds[0]] + fds[1..]
  {
  }

  lemma GoneKeeps(s: State)
    requires Inv(s) && s.parked != []
    ensures Inv(Gone(s))
  {
    var t, c := Gone(s), s.parked[0];
    LogsShift(s.leftLog, s.fds);
    forall j | 0 <= j < EVENT_MAX_CONN
      ensures Settled(t.conns[j], j in t.parked)
    {
      WithoutFirst(s.parked, j);
      assert Settled(s.conns[j], j in s.parked);
    }
    forall k | 0 <= k < |t.parked|
      ensures t.conns[t.parked[k]].fd == t.fds[k]
    {
      assert t.parked[k] == s.parked[k + 1] && t.fds[k] == s.fds[k + 1];
    }
  }

  lemma {:induction false} DrainKeeps(s: State, claims: nat)
    requires Inv(s)
    ensures Inv(Drained(s, claims))
    decreases claims
  {
    if claims > 0 && s.parked != [] {
      GoneKeeps(s);
      DrainKeeps(Gone(s), claims - 1);
    }
  }

  /** A sweep keeps the table and the ring in agreement if and only if no parked connection has
      expired. */
  lemma SweepKeeps(s: State, now: int)
    requires Inv(s)
    ensures Inv(Swept(s, now)) <==> NoneStale(s, now)
  {
    var t := Swept(s, now);
    if !NoneStale(s, now) {
      var k :| 0 <= k < |s.parked| && Expired(s.conns[s.parked[k]], now);
      assert !Settled(t.conns[s.parked[k]], s.parked[k] in s.parked);
    } else {
      assert forall i :: 0 <= i < EVENT_MAX_CONN && Expired(s.conns[i], now) ==> i !in s.parked;
    }
  }

  lemma StepKeeps(s: State, input: Input)
    requires Inv(s)
    ensures Inv(Step(s, input)) <==> CleanStep(s, input)
  {
    match input
    case Connect(fd, deadline) =>
      var i := FirstFree(s.conns);
      if i < EVENT_MAX_CONN {
        assert Settled(s.conns[i], i in s.parked);
        SlotChanges(s, i, Conn(fd, false, deadline, true, true));
      }
    case Slow(i, claims) =>
      if Reads(s, i) {
        JoinKeeps(s, i);
        DrainKeeps(Joined(s, i), claims);
      }
    case Hangup(i) =>
      if Reads(s, i) {
        assert Settled(s.conns[i], i in s.parked);
        SlotChanges(s, i, Freed(s.conns[i]));
      }
    case Again(i, deadline) =>
      if Reads(s, i) {
        assert Settled(s.conns[i], i in s.parked);
        SlotChanges(s, i, s.conns[i].(deadline := deadline));
      }
    case Tick(claims) =>
      DrainKeeps(s, claims);
    case Sweep(now) =>
      SweepKeeps(s, now);
  }

  /** The invariant holds after every step of a run if and only if none of its sweeps meets an
      expired parked connection. */
  lemma {:induction false} RunKeeps(s: State, inputs: seq<Input>)
    requires Inv(s)
    ensures Clean(s, inputs) <==> forall k :: 0 <= k <= |inputs| ==> Inv(After(s, inputs[..k]))
    decreases |inputs|
  {
    if inputs == [] {
      assert inputs[..0] == [];
    } else {
      var t, rest := Step(s, inputs[0]), inputs[1..];
      StepKeeps(s, inputs[0]);
      assert inputs[..0] == [];
      forall k | 0 <= k <= |rest|
        ensures After(s, inputs[..k + 1]) == After(t, rest[..k])
      {
        assert inputs[..k + 1][1..] == rest[..k];
      }
      if Inv(t) {
        RunKeeps(t, rest);
        if Clean(s, inputs) {
          forall k | 0 <= k <= |inputs|
            ensures Inv(After(s, inputs[..k]))
          {
            if k > 0 {
              assert After(s, inputs[..k]) == After(t, rest[..k - 1]);
            }
          }
        }
        if forall k :: 0 <= k <= |inputs| ==> Inv(After(s, inputs[..k])) {
          forall k | 0 <= k <= |rest|
            ensures Inv(After(t, rest[..k]))
          {
            assert Inv(After(s, inputs[..k + 1]));
          }
        }
      } else {
        assert rest[..0] == [] && After(s, inputs[..1]) == t;
      }
    }
  }

  /** From an empty table, in every clean run: each in-use connection is registered for reading or
      in the ring exactly once, the ring has at most 1023 entries, and connections have left it in
      the order they were parked. */
  lemma EveryRun(inputs: seq<Input>)
    requires Clean(START, inputs)
    ensures var s := After(START, inputs);
            |s.parked| <= 1023 && s.leftLog <= s.parkLog
            && (forall i :: 0 <= i < EVENT_MAX_CONN && s.conns[i].inUse ==>
                  s.conns[i].registered == (i !in s.parked) && multiset(s.parked)[i] <= 1)
  {
    assert Inv(START);
    RunKeeps(START, inputs);
    assert inputs[..|inputs|] == inputs;
    var s := After(START, inputs);
    assert Inv(s);
    forall i | 0 <= i < EVENT_MAX_CONN
      ensures multiset(s.parked)[i] <= 1
    {
      AtMostOnce(s.parked, i);
    }
  }

  lemma {:induction false} AtMostOnce(ks: seq<nat>, i: nat)
    requires forall j, k :: 0 <= j < k < |ks| ==> ks[j] != ks[k]
    ensures multiset(ks)[i] <= 1
  {
    if ks != [] {
      var rest := ks[1..];
      assert forall j, k :: 0 <= j < k < |rest| ==> rest[j] != rest[k];
      AtMostOnce(rest, i);
      assert ks == [ks[0]] + rest;
      assert ks[0] !in rest;
    }
  }

  /** A parked connection that expires leaves its ring entry behind. */
  lemma StaleEntry()
    ensures var inputs := [Connect(7, 10), Slow(0, 0), Sweep(10)];
            var s := After(START, inputs);
            !Clean(START, inputs) && !Inv(s) && s.parked == [0] && !s.conns[0].inUse
  {
    var a := Step(START, Connect(7, 10));
    assert FirstFree(START.conns) == 0;
    var b := Step(a, Slow(0, 0));
    assert b.parked == [0] && Expired(b.conns[0], 10);
    var c := Step(b, Sweep(10));
    assert 0 in c.parked && !Settled(c.conns[0], true);
    var inputs := [Connect(7, 10), Slow(0, 0), Sweep(10)];
    assert inputs[1..] == [Slow(0, 0), Sweep(10)] && inputs[1..][1..] == [Sweep(10)] && inputs[1..][1..][1..] == [];
  }

  // ---- what each event does --------------------------------------------

  function Least(a: nat, b: nat): nat {
    if a <= b then a else b
  }

  /** Only the slots in `changed` differ. */
  predicate OnlyAt(s: State, t: State, changed: seq<nat>) {
    |t.conns| == |s.conns|
    && forall i :: 0 <= i < |s.conns| && i !in changed ==> t.conns[i] == s.conns[i]
  }

  /** One connection leaves the ring for each claimed worker, oldest first, as long as there are any;
      their slots are free for new connections and all others stay. */
  predicate Dispatches(s: State, t: State, claims: nat) {
    var n := Least(claims, |s.parked|);
    |s.fds| == |s.parked|
    && t.parked == s.parked[n..] && t.leftLog == s.leftLog + s.fds[..n] && t.parkLog == s.parkLog
    && OnlyAt(s, t, s.parked[..n])
    && forall k :: 0 <= k < n ==> s.parked[k] < |t.conns| && !t.conns[s.parked[k]].inUse
  }

  lemma {:induction false} DrainDispatches(s: State, claims: nat)
    requires Inv(s)
    ensures Dispatches(s, Drained(s, claims), claims)
    decreases claims
  {
    if claims > 0 && s.parked != [] {
      GoneKeeps(s);
      DrainDispatches(Gone(s), claims - 1);
      OneMore(s, Gone(s), Drained(s, claims), claims);
    } else {
      assert s.leftLog + s.fds[..0] == s.leftLog && s.parked[0..] == s.parked;
    }
  }

  lemma OneMore(s: State, g: State, t: State, claims: nat)
    requires Inv(s) && s.parked != [] && claims > 0 && g == Gone(s) && Dispatches(g, t, claims - 1)
    ensures Dispatches(s, t, claims)
  {
    var n := Least(claims, |s.parked|);
    LogsGrow(s.leftLog, s.fds, n);
    assert s.parked[n..] == g.parked[n - 1..];
    forall i: nat
      ensures i in s.parked[..n] <==> i == s.parked[0] || i in g.parked[..n - 1]
    {
      FrontMember(s.parked, n, i);
    }
    WithoutFirst(s.parked, s.parked[0]);
    forall k | 0 <= k < n
      ensures !t.conns[s.parked[k]].inUse
    {
      assert k > 0 ==> s.parked[k] == g.parked[k - 1];
    }
  }

  lemma FrontMember(ks: seq<nat>, n: nat, i: nat)
    requires 0 < n <= |ks|
    ensures i in ks[..n] <==> i == ks[0] || i in ks[1..][..n - 1]
  {
    assert ks[..n] == [ks[0]] + ks[1..][..n - 1];
  }

  lemma LogsGrow(left: seq<int>, fds: seq<int>, n: nat)
    requires 0 < n <= |fds|
    ensures left + [fds[0]] + fds[1..][..n - 1] == left + fds[..n]
  {
    assert fds[..n] == [fds[0]] + fds[1..][..n - 1];
  }

  /** The connection in slot `i` joins the end of the ring, no longer registered, or is closed when
      1023 are waiting. */
  predicate Joins(s: State, t: State, i: nat) {
    i < |s.conns| && OnlyAt(s, t, [i]) && t.leftLog == s.leftLog
    && if |s.parked| < 1023
       then t.parked == s.parked + [i] && t.parkLog == s.parkLog + [s.conns[i].fd]
            && t.conns[i].inUse && !t.conns[i].registered && t.conns[i].fd == s.conns[i].fd
            && t.conns[i].deadline == s.conns[i].deadline
       else t.parked == s.parked && t.parkLog == s.parkLog && !t.conns[i].inUse
  }

  /** What the rest of the server sees of an event. */
  ghost predicate Meaning(s: State, input: Input, t: State) {
    match input
    case Connect(fd, deadline) =>
      t.parked == s.parked && t.parkLog == s.parkLog && t.leftLog == s.leftLog
      && if forall i :: 0 <= i < |s.conns| ==> s.conns[i].inUse then t.conns == s.conns
         else exists i: nat ::
                i < |s.conns| && !s.conns[i].inUse && (forall j :: 0 <= j < i ==> s.conns[j].inUse)
                && OnlyAt(s, t, [i]) && t.conns[i] == Conn(fd, false, deadline, true, true)
    case Slow(i, claims) =>
      if i < |s.conns| && s.conns[i].registered then exists m :: Joins(s, m, i) && Dispatches(m, t, claims) else t == s
    case Hangup(i) =>
      if i < |s.conns| && s.conns[i].registered
      then OnlyAt(s, t, [i]) && !t.conns[i].inUse && t.parked == s.parked
           && t.parkLog == s.parkLog && t.leftLog == s.leftLog
      else t == s
    case Again(i, deadline) =>
      if i < |s.conns| && s.conns[i].registered
      then OnlyAt(s, t, [i]) && t.conns[i] == s.conns[i].(deadline := deadline) && t.parked == s.parked
           && t.parkLog == s.parkLog && t.leftLog == s.leftLog
      else t == s
    case Tick(claims) => Dispatches(s, t, claims)
    case Sweep(now) =>
      t.parked == s.parked && t.parkLog == s.parkLog && t.leftLog == s.leftLog && |t.conns| == |s.conns|
      && forall i :: 0 <= i < |s.conns| ==>
           if s.conns[i].inUse && s.conns[i].deadline != 0 && s.conns[i].deadline <= now then !t.conns[i].inUse
           else t.conns[i] == s.conns[i]
  }

  lemma StepMeans(s: State, input: Input)
    requires Inv(s)
    ensures Meaning(s, input, Step(s, input))
  {
    var t := Step(s, input);
    match input
    case Connect(fd, deadline) =>
      var i := FirstFree(s.conns);
      if i < EVENT_MAX_CONN {
        assert !s.conns[i].inUse && OnlyAt(s, t, [i]) && t.conns[i] == Conn(fd, false, deadline, true, true);
      }
    case Slow(i, claims) =>
      if Reads(s, i) {
        var m := Joined(s, i);
        JoinKeeps(s, i);
        assert Joins(s, m, i) by {
          assert Settled(s.conns[i], i in s.parked);
        }
        DrainDispatches(m, claims);
      }
    case Hangup(i) =>
    case Again(i, deadline) =>
    case Tick(claims) =>
      DrainDispatches(s, claims);
    case Sweep(now) =>
  }

  /** A slow connection that finds the ring empty and a worker free is dispatched at once. */
  lemma DispatchedAtOnce(s: State, i: nat, claims: nat)
    requires Inv(s) && Reads(s, i) && s.parked == [] && claims > 0
    ensures var t := Step(s, Slow(i, claims));
            t.leftLog == s.leftLog + [s.conns[i].fd] && t.parked == [] && !t.conns[i].inUse
  {
    StepMeans(s, Slow(i, claims));
    JoinKeeps(s, i);
    DrainDispatches(Joined(s, i), claims);
  }

  // ---- the table and the ring in memory --------------------------------

  /** The ring index `k` places behind `x`. */
  function Slot(x: nat, k: nat): (r: nat)
    requires x < EVENT_MAX_CONN && k <= EVENT_MAX_CONN
    ensures r < EVENT_MAX_CONN
  {
    if x + k < EVENT_MAX_CONN then x + k else x + k - EVENT_MAX_CONN
  }

  /** Every method takes the state machine's step, whether or not its invariant holds. */
  class Loop {
    const conns: array<Conn>
    const ring: array<nat>
    var head: nat
    var tail: nat
    ghost var parked: seq<nat>
    ghost var fds: seq<int>
    ghost var parkLog: seq<int>
    ghost var leftLog: seq<int>

    ghost function View(): State
      reads this, conns
    {
      State(conns[..], parked, fds, parkLog, leftLog)
    }

    /** The ring holds the parked slots between head and tail, never more than 1023. */
    ghost predicate RingHolds()
      reads this, ring
    {
      ring.Length == EVENT_MAX_CONN && head < EVENT_MAX_CONN && |parked| < EVENT_MAX_CONN
      && tail == Slot(head, |parked|)
      && forall k :: 0 <= k < |parked| ==> ring[Slot(head, k)] == parked[k]
    }

    ghost predicate Valid()
      reads this, conns, ring
    {
      RingHolds() && Shape(View())
    }

    constructor ()
      ensures Valid() && fresh(conns) && fresh(ring) && View() == START
    {
      conns := new Conn[EVENT_MAX_CONN](_ => NO_CONN);
      ring := new nat[EVENT_MAX_CONN](_ => 0);
      head, tail := 0, 0;
      parked, fds, parkLog, leftLog := [], [], [], [];
      new;
      assert conns[..] == START.conns;
    }

    method SetConn(i: nat, c: Conn)
      requires Valid() && i < EVENT_MAX_CONN
      modifies conns
      ensures Valid() && View() == old(View()).(conns := old(conns[..])[i := c])
    {
      conns[i] := c;
      assert conns[..] == old(conns[..])[i := c];
    }

    /** One accepted descriptor: the first free slot, or closed when there is none. */
    method Accept(fd: int, deadline: int)
      requires Valid()
      modifies conns
      ensures Valid() && View() == Accepted(old(View()), fd, deadline)
    {
      var slot := 0;
      while slot < EVENT_MAX_CONN && conns[slot].inUse
        invariant slot <= EVENT_MAX_CONN
        invariant forall i :: 0 <= i < slot ==> conns[i].inUse
        modifies {}
      {
        slot := slot + 1;
      }
      assert FirstFree(conns[..]) == slot;
      if slot < EVENT_MAX_CONN {
        SetConn(slot, Conn(fd, false, deadline, true, true));
      }
    }

    /** The first half of `go_slow`. */
    method Park(i: nat)
      requires Valid() && i < EVENT_MAX_CONN
      modifies this, conns, ring
      ensures Valid() && View() == Joined(old(View()), i)
    {
      var c := conns[i].(registered := false, slow := true);
      SetConn(i, c);
      if (tail + 1) % EVENT_MAX_CONN == head {
        assert |parked| == EVENT_MAX_CONN - 1;
        SetConn(i, Freed(c));
        return;
      }
      PushRing(i);
      fds, parkLog := fds + [c.fd], parkLog + [c.fd];
    }

    method PushRing(i: nat)
      requires RingHolds() && |parked| < EVENT_MAX_CONN - 1
      modifies this`tail, this`parked, ring
      ensures RingHolds() && parked == old(parked) + [i]
    {
      ring[tail] := i;
      tail := (tail + 1) % EVENT_MAX_CONN;
      parked := parked + [i];
    }

    method PopRing()
      requires RingHolds() && parked != []
      modifies this`head, this`parked
      ensures RingHolds() && parked == old(parked)[1..]
    {
      assert forall k :: 0 <= k < |parked| - 1 ==> Slot(Slot(head, 1), k) == Slot(head, k + 1);
      head := (head + 1) % EVENT_MAX_CONN;
      parked := parked[1..];
    }

    method LeaveRing()
      requires Valid() && head != tail
      modifies this, conns
      ensures Valid() && old(parked) != [] && View() == Gone(old(View()))
    {
      var c := ring[head];
      assert c == parked[0] == ring[Slot(head, 0)];
      leftLog := leftLog + [conns[c].fd];
      SetConn(c, Freed(conns[c]));
      PopRing();
      fds := fds[1..];
    }

    /** `drain_slow_queue`; whether a dispatch succeeds only decides where its token goes. */
    method Drain(claims: nat)
      requires Valid()
      modifies this, conns
      ensures Valid() && View() == Drained(old(View()), claims)
    {
      var left := claims;
      while head != tail && left > 0
        invariant Valid() && Drained(View(), left) == Drained(old(View()), claims)
        decreases left
      {
        LeaveRing();
        left := left - 1;
      }
    }

    method SweepIdle(now: int)
      requires Valid()
      modifies conns
      ensures Valid() && View() == Swept(old(View()), now)
    {
      var i := 0;
      while i < EVENT_MAX_CONN
        invariant 0 <= i <= EVENT_MAX_CONN
        invariant forall j :: 0 <= j < i ==>
                    conns[j] == if old(Expired(conns[j], now)) then Freed(old(conns[j])) else old(conns[j])
        invariant forall j :: i <= j < EVENT_MAX_CONN ==> conns[j] == old(conns[j])
      {
        if Expired(conns[i], now) {
          conns[i] := Freed(conns[i]);
        }
        i := i + 1;
      }
      assert conns[..] == Swept(old(View()), now).conns;
    }

    /** One event. */
    method Take(input: Input)
      requires Valid()
      modifies this, conns, ring
      ensures Valid() && View() == Step(old(View()), input)
    {
      match input {
        case Connect(fd, deadline) =>
          Accept(fd, deadline);
        case Slow(i, claims) =>
          if i < EVENT_MAX_CONN && conns[i].registered {
            Park(i);
            Drain(claims);
          }
        case Hangup(i) =>
          if i < EVENT_MAX_CONN && conns[i].registered {
            SetConn(i, Freed(conns[i]));
          }
        case Again(i, deadline) =>
          if i < EVENT_MAX_CONN && conns[i].registered {
            SetConn(i, conns[i].(deadline := deadline));
          }
        case Tick(claims) =>
          Drain(claims);
        case Sweep(now) =>
          SweepIdle(now);
      }
    }

    /** Any run of the loop is the state machine's run. */
    method Run(inputs: seq<Input>)
      requires Valid()
      modifies this, conns, ring
      ensures Valid() && View() == After(old(View()), inputs)
    {
      var n := 0;
      assert inputs[0..] == inputs;
      while n < |inputs|
        invariant 0 <= n <= |inputs| && Valid()
        invariant After(View(), inputs[n..]) == After(old(View()), inputs)
      {
        assert inputs[n..][0] == inputs[n] && inputs[n..][1..] == inputs[n + 1..];
        Take(inputs[n]);
        n := n + 1;
      }
      assert inputs[n..] == [];
    }
  }
}
