/** The master event loop of src/core/event.c on one connection: peek, serve fast requests,
    park the rest for a worker. */
module Handoff {
  import opened CText
  import opened RequestStream
  import opened Framing

  const PEEK_SIZE: nat := 65536
  const SCRATCH_SIZE: nat := 1024

  /** What one readiness event does to a connection. */
  datatype Event = Waiting | Served(request: Request) | Rejected | Parked | Closed

  /** What the master decides by: the rules of the connection, whether a request is fast, and whether
      its response needs streaming. */
  datatype Policy = Policy(rules: Rules, fast: string -> bool, streams: string -> bool)

  /** Fast requests carry no body. */
  ghost predicate FastHasNoBody(p: Policy) {
    forall h :: p.fast(h) && p.rules.plan(h).Serve? ==> p.rules.plan(h).length == 0
  }

  predicate OnMaster(p: Policy, header: string) {
    p.fast(header) && !p.streams(header)
  }

  method FindHeaderEnd(buf: string) returns (h: Option<nat>)
    ensures h == HeaderLen(buf)
  {
    var i := 0;
    while i + 3 < |buf|
      invariant 0 <= i
      invariant forall j :: j < i + 4 ==> !Ends(buf, j)
    {
      if buf[i] == '\r' && buf[i + 1] == '\n' && buf[i + 2] == '\r' && buf[i + 3] == '\n' {
        HeaderIs(buf, i + 4);
        return Some(i + 4);
      }
      i := i + 1;
    }
    return None;
  }

  /** `recv_consume`: take `n` bytes off the socket through a small scratch buffer. */
  method RecvConsume(c: Connection, n: nat)
    modifies c`pending
    ensures c.pending == if n <= |old(c.pending)| then old(c.pending)[n..] else ""
  {
    var left := n;
    while left > 0
      invariant 0 <= left <= n && n - left <= |old(c.pending)|
      invariant c.pending == old(c.pending)[n - left..]
    {
      var got := c.Recv(Min(left, SCRATCH_SIZE));
      if got == "" {
        break;
      }
      left := left - |got|;
    }
  }

  /** The stream is over, starts with a block the master refuses, or has no end of headers in its
      first PEEK_SIZE bytes. */
  ghost predicate MayClose(plan: string -> Verdict, s: string) {
    s == ""
    || (HeaderLen(s).Some? && plan(s[..HeaderLen(s).value]).Refuse?)
    || (|s| >= PEEK_SIZE && HeaderLen(s[..PEEK_SIZE]).None?)
  }

  /** A readiness event that saw the first `seen` bytes of `s` left `rest` of it. The cases exclude one
      another: an event is decided by what has arrived, the deadline and the policy. */
  ghost predicate EventOf(p: Policy, late: bool, s: string, seen: nat, ev: Event, rest: string)
    requires seen <= |s|
  {
    var h := HeaderLen(s[..seen]);
    match ev
    case Waiting => rest == s && 0 < seen < PEEK_SIZE && h.None?
    case Parked =>
      rest == s && h.Some? && !late && p.rules.plan(s[..h.value]).Serve? && !OnMaster(p, s[..h.value])
    case Served(r) =>
      h == Some(|r.header|) && !late && FirstOf(p.rules.plan, s, r, rest) && r.body == "" && OnMaster(p, r.header)
    case Rejected => h.Some? && !late && p.rules.plan(s[..h.value]).Malformed? && rest == s[h.value..]
    case Closed =>
      s == "" || (h.None? && seen == PEEK_SIZE)
      || (h.Some? && (late || p.rules.plan(s[..h.value]).Refuse?))
  }

  /** Two accounts of the same event agree, so nothing else could have happened. */
  lemma EventIsDecided(p: Policy, late: bool, s: string, seen: nat, a: Event, b: Event, ra: string, rb: string)
    requires seen <= |s| && (seen == 0 ==> s == "")
    requires EventOf(p, late, s, seen, a, ra) && EventOf(p, late, s, seen, b, rb)
    ensures a == b && (!a.Closed? ==> ra == rb)
  {
    if a.Served? && b.Served? {
      var h := |a.request.header|;
      assert a.request.header == s[..h] == b.request.header;
    }
  }

  /** A header block among the bytes seen is the first of the stream. */
  lemma SeenInStream(s: string, seen: nat)
    requires seen <= |s| && HeaderLen(s[..seen]).Some?
    ensures HeaderLen(s) == HeaderLen(s[..seen]) && s[..seen][..HeaderLen(s).value] == s[..HeaderLen(s).value]
  {
    HeaderGrows(s[..seen], s);
  }

  /** What an event says about the whole stream, and not only about the bytes seen. */
  lemma EventMeans(p: Policy, late: bool, s: string, seen: nat, ev: Event, rest: string)
    requires seen <= |s| && EventOf(p, late, s, seen, ev, rest)
    ensures ev.Waiting? && seen == Min(PEEK_SIZE, |s|) ==> HeaderLen(s).None?
    ensures HeaderLen(s).None? ==> ev.Waiting? || ev.Closed?
    ensures ev.Waiting? || ev.Parked? ==> rest == s
    ensures ev.Parked? ==> StartsSlow(p, s)
    ensures ev.Closed? ==> MayClose(p.rules.plan, s) || (late && HeaderLen(s).Some?)
    ensures ev.Rejected? ==> Skips(p.rules.plan, s, rest, true)
    ensures ev.Served? ==> FirstOf(p.rules.plan, s, ev.request, rest) && Bodiless(p, ev.request)
  {
    if HeaderLen(s[..seen]).Some? {
      SeenInStream(s, seen);
    }
    assert seen == |s| ==> s[..seen] == s;
  }

  /** `conn_readable`; `late` says that the header deadline has passed. */
  method ConnReadable(c: Connection, p: Policy, late: bool) returns (ev: Event, ghost seen: nat)
    requires FastHasNoBody(p)
    modifies c`pending
    ensures seen <= |old(c.pending)| && (seen == 0 ==> old(c.pending) == "")
    ensures c.whole ==> seen == Min(PEEK_SIZE, |old(c.pending)|)
    ensures EventOf(p, late, old(c.pending), seen, ev, c.pending)
  {
    var n: nat :| n <= |c.pending| && n <= PEEK_SIZE && (n == 0 <==> c.pending == "")
                  && (c.whole ==> n == Min(PEEK_SIZE, |c.pending|));
    seen := n;
    if n == 0 {
      return Closed, seen;
    }
    var tmp := c.pending[..n];
    var h := FindHeaderEnd(tmp);
    if h.None? {
      if n >= PEEK_SIZE {
        RecvConsume(c, n);
        return Closed, seen;
      }
      return Waiting, seen;
    }
    SeenInStream(c.pending, n);
    var header := tmp[..h.value];
    assert header == c.pending[..h.value];
    if late {
      RecvConsume(c, h.value);
      return Closed, seen;
    }
    var v := p.rules.plan(header);
    if v.Serve? && (!p.fast(header) || p.streams(header)) {
      return Parked, seen;
    }
    RecvConsume(c, h.value);
    ev := if v.Malformed? then Rejected else if v.Refuse? then Closed else Served(Request(header, ""));
  }

  /** How the master was done with a connection: handed to a worker, closed after a request it was
      not kept open for, closed for another reason, or still open. */
  datatype MasterEnd = HandedOver | Finished | Dropped | Open

  /** Any number of readiness events on one connection; `late` says of each whether it came after
      the deadline. A malformed block after which the connection stays open is answered and taken
      off the socket, and a new stretch begins right behind it. When everything sent has arrived, each
      event answers a block as long as there is one. */
  method MasterServe(c: Connection, p: Policy, late: nat -> bool, events: nat)
    returns (served: seq<Request>, end: MasterEnd, ghost passed: History, ghost last: Stretch)
    requires FastHasNoBody(p)
    modifies c`pending
    ensures AllBodiless(p, served)
    ensures MasterDone(p, AnyLate(late, events), old(c.pending), passed, last, end, served, c.pending)
    ensures c.whole && end == Open ==>
              Exchanges(passed) + |last.served| == events || HeaderLen(c.pending).None?
  {
    ghost var stream, anyLate := c.pending, AnyLate(late, events);
    served, passed, last := [], Fresh, Stretch(stream, [], stream);
    GoingStarts(p.rules, stream, true);
    var k, count := 0, 0;
    while k < events
      invariant 0 <= k <= events
      invariant AllBodiless(p, served)
      invariant Going(p.rules, stream, passed, last, count, served, true) && last.left == c.pending
      invariant c.whole ==> count == k || HeaderLen(c.pending).None?
      decreases events - k
    {
      assert late(k) ==> anyLate;
      var stop;
      served, count, stop, passed, last :=
        MasterTurn(c, p, late(k), count, served, stream, passed, last, anyLate);
      if stop.Some? {
        end := stop.value;
        return;
      }
      k := k + 1;
    }
    end := Open;
    StillOpen(p, anyLate, stream, passed, last, count, served, Open);
  }

  ghost predicate AnyLate(late: nat -> bool, events: nat) {
    exists k: nat :: k < events && late(k)
  }

  method MasterTurn(c: Connection, p: Policy, late: bool, count: nat, served: seq<Request>, ghost stream: string,
                    ghost passed: History, ghost last: Stretch, ghost anyLate: bool)
    returns (served': seq<Request>, count': nat, stop: Option<MasterEnd>, ghost passed': History, ghost last': Stretch)
    requires FastHasNoBody(p) && Going(p.rules, stream, passed, last, count, served, true) && last.left == c.pending
    requires late ==> anyLate
    modifies c`pending
    ensures AllBodiless(p, served) ==> AllBodiless(p, served')
    ensures stop.None? ==> Going(p.rules, stream, passed', last', count', served', true) && last'.left == c.pending
    ensures stop.Some? ==> stop.value != Open
                           && MasterDone(p, anyLate, stream, passed', last', stop.value, served', c.pending)
    ensures stop.None? ==> count' == count + 1 || (count' == count && (c.whole ==> HeaderLen(c.pending).None?))
    ensures stop.None? && HeaderLen(old(c.pending)).None? ==> c.pending == old(c.pending)
  {
    var ev;
    ghost var seen;
    ev, seen := ConnReadable(c, p, late);
    EventMeans(p, late, last.left, seen, ev, c.pending);
    served', count', stop, passed', last' :=
      TakeEvent(p, ev, count, served, stream, passed, last, anyLate, c.pending);
  }

  /** What an event that left `rest` on the socket means for the connection. */
  method TakeEvent(p: Policy, ev: Event, count: nat, served: seq<Request>, ghost stream: string, ghost passed: History,
                   ghost last: Stretch, ghost late: bool, ghost rest: string)
    returns (served': seq<Request>, count': nat, stop: Option<MasterEnd>, ghost passed': History, ghost last': Stretch)
    requires Going(p.rules, stream, passed, last, count, served, true)
    requires ev.Waiting? || ev.Parked? ==> rest == last.left
    requires ev.Parked? ==> StartsSlow(p, last.left)
    requires ev.Closed? ==> MayClose(p.rules.plan, last.left) || (late && HeaderLen(last.left).Some?)
    requires ev.Rejected? ==> Skips(p.rules.plan, last.left, rest, true)
    requires ev.Served? ==> FirstOf(p.rules.plan, last.left, ev.request, rest) && Bodiless(p, ev.request)
    ensures AllBodiless(p, served) ==> AllBodiless(p, served')
    ensures stop.None? ==> Going(p.rules, stream, passed', last', count', served', true) && last'.left == rest
    ensures stop.Some? ==> stop.value != Open
                           && MasterDone(p, late, stream, passed', last', stop.value, served', rest)
    ensures ev.Closed? || ev.Parked? ==> stop.Some?
    ensures stop.None? ==> count' == if ev.Waiting? then count else count + 1
  {
    served', count', stop, passed', last' := served, count, None, passed, last;
    match ev {
      case Waiting =>
      case Parked =>
        StillOpen(p, late, stream, passed, last, count, served, HandedOver);
        stop := Some(HandedOver);
      case Closed =>
        DroppedNow(p, late, stream, passed, last, count, served, rest);
        stop := Some(Dropped);
      case Rejected =>
        if !p.rules.keepBad(count) || count + 1 >= MAX_KEEPALIVE {
          DroppedNow(p, late, stream, passed, last, count, served, rest);
          stop := Some(Dropped);
        } else {
          GoingPasses(p.rules, stream, passed, last, count, served, rest, true);
          passed', last' := Then(passed, last), Stretch(rest, [], rest);
          count' := count + 1;
        }
      case Served(r) =>
        last' := Stretch(last.stream, last.served + [r], rest);
        served', count' := served + [r], count + 1;
        if !p.rules.keep(count, r) || count' >= MAX_KEEPALIVE {
          GoingCloses(p.rules, stream, passed, last, count, served, r, rest, true);
          FinishedNow(p, late, stream, passed, last', served');
          stop := Some(Finished);
        } else {
          GoingTakes(p.rules, stream, passed, last, count, served, r, rest, true);
        }
    }
  }

  /** Why the master drops a connection as its n-th exchange with the bytes `left` unread. */
  ghost predicate Drops(p: Policy, late: bool, n: nat, left: string) {
    var h := HeaderLen(left);
    MayClose(p.rules.plan, left) || (late && h.Some?)
    || (h.Some? && p.rules.plan(left[..h.value]).Malformed? && !KeptAfterBad(p.rules, n))
  }

  /** What holds when the master is done with a connection: the stretches it passed, each begun right
      behind the malformed block of the one before, and how the last one ended. */
  ghost predicate MasterDone(p: Policy, late: bool, stream: string, passed: History, last: Stretch, end: MasterEnd,
                             served: seq<Request>, pending: string) {
    var n := Exchanges(passed) + |last.served|;
    Passed(p.rules, stream, passed, last.stream, true) && served == AllServed(passed) + last.served
    && Accounted(p.rules.plan, last.stream, last.served, last.left) && n <= MAX_KEEPALIVE
    && KeptOpen(p.rules, Exchanges(passed), last.served)
    && (end == Finished <==> ServerCloses(p.rules, Exchanges(passed), last.served))
    && (end == Dropped ==> Drops(p, late, n, last.left))
    && (end != Dropped ==> last.left == pending)
    && (end == HandedOver ==> StartsSlow(p, pending))
  }

  lemma StillOpen(p: Policy, late: bool, stream: string, passed: History, last: Stretch, count: nat,
                  served: seq<Request>, end: MasterEnd)
    requires Going(p.rules, stream, passed, last, count, served, true)
    requires end == Open || (end == HandedOver && StartsSlow(p, last.left))
    ensures MasterDone(p, late, stream, passed, last, end, served, last.left)
  {
  }

  lemma DroppedNow(p: Policy, late: bool, stream: string, passed: History, last: Stretch, count: nat,
                   served: seq<Request>, pending: string)
    requires Going(p.rules, stream, passed, last, count, served, true) && Drops(p, late, count, last.left)
    ensures MasterDone(p, late, stream, passed, last, Dropped, served, pending)
  {
  }

  lemma FinishedNow(p: Policy, late: bool, stream: string, passed: History, last: Stretch, served: seq<Request>)
    requires Ended(p.rules, stream, passed, last, ServerClosed, served, true)
    ensures MasterDone(p, late, stream, passed, last, Finished, served, last.left)
  {
  }

  /** With well-sized headers and no missed deadline, the master drops a connection only where the
      split of it ends. */
  lemma DroppedAtEnd(p: Policy, n: nat, s: Stretch)
    requires Accounted(p.rules.plan, s.stream, s.served, s.left) && Drops(p, false, n, s.left)
    requires HeadersFit(p.rules.plan, s.stream)
    ensures s.served == Split(p.rules.plan, s.stream)
  {
    Behind(p.rules.plan, s.stream, s.served, s.left);
    DropIsEnd(p, n, s.left);
    assert s.served + [] == s.served;
  }

  lemma DropIsEnd(p: Policy, n: nat, left: string)
    requires Drops(p, false, n, left) && HeadersFit(p.rules.plan, left)
    ensures Split(p.rules.plan, left) == []
  {
    if |left| >= PEEK_SIZE && HeaderLen(left[..PEEK_SIZE]).None? {
      var h := HeaderLen(left).value;
      HeaderOfItself(left, h);
      HeaderGrows(left[..h], left[..PEEK_SIZE]);
    }
  }

  /** A connection that is still open without a further header block has been served its whole split. */
  lemma CaughtUp(p: Policy, s: Stretch)
    requires Accounted(p.rules.plan, s.stream, s.served, s.left) && HeaderLen(s.left).None?
    ensures s.served == Split(p.rules.plan, s.stream)
  {
    assert s.served + [] == s.served;
  }

  /** The bytes the master has taken with the stretches it passed. */
  ghost function Taken(passed: History): string {
    if passed.Fresh? then "" else
    var s := passed.stretch;
    var h := HeaderLen(s.left);
    Taken(passed.before) + (Wire(s.served) + if h.Some? then s.left[..h.value] else "")
  }

  /** Nothing is lost on the master: what it passed and what follows is the stream. */
  lemma {:induction false} TakenAndNext(rules: Rules, stream: string, passed: History, next: string)
    requires Passed(rules, stream, passed, next, true)
    ensures stream == Taken(passed) + next
  {
    if passed.Then? {
      var s := passed.stretch;
      var h := HeaderLen(s.left).value;
      TakenAndNext(rules, stream, passed.before, s.stream);
      assert s.left == s.left[..h] + next;
      Cat4(Taken(passed.before), Wire(s.served), s.left[..h], next);
      Cat3(Wire(s.served), s.left[..h], next);
      Cat3(Taken(passed.before), Wire(s.served) + s.left[..h], next);
    }
  }

  predicate AllBodiless(p: Policy, rs: seq<Request>) {
    forall i :: 0 <= i < |rs| ==> Bodiless(p, rs[i])
  }

  predicate Bodiless(p: Policy, r: Request) {
    r.body == "" && OnMaster(p, r.header)
  }

  /** The next block is one the master leaves to a worker. */
  ghost predicate StartsSlow(p: Policy, s: string) {
    HeaderLen(s).Some? && !OnMaster(p, s[..HeaderLen(s).value])
  }

  lemma {:induction false} WireAppend(a: seq<Request>, b: seq<Request>)
    ensures Wire(a + b) == Wire(a) + Wire(b)
  {
    if a == [] {
      assert a + b == b;
    } else {
      assert (a + b)[0] == a[0] && (a + b)[1..] == a[1..] + b;
      WireAppend(a[1..], b);
      Cat3(Bytes(a[0]), Wire(a[1..]), Wire(b));
    }
  }

  /** Two parties taking turns account for the stream as one would. */
  lemma AccountedThen(plan: string -> Verdict, stream: string, a: seq<Request>, middle: string, b: seq<Request>,
                      left: string)
    requires Accounted(plan, stream, a, middle) && Accounted(plan, middle, b, left)
    ensures Accounted(plan, stream, a + b, left)
  {
    WireAppend(a, b);
    Cat3(Wire(a), Wire(b), left);
    Regroup(a, b, Split(plan, left));
  }

  lemma Regroup(a: seq<Request>, b: seq<Request>, c: seq<Request>)
    ensures a + b + c == a + (b + c)
  {
  }

  /** The headers of requests without bodies, one after the other. */
  function Headers(rs: seq<Request>): string {
    if rs == [] then "" else rs[0].header + Headers(rs[1..])
  }

  lemma {:induction false} BodilessWire(rs: seq<Request>)
    requires forall i :: 0 <= i < |rs| ==> rs[i].body == ""
    ensures Wire(rs) == Headers(rs)
  {
    if rs != [] {
      assert forall i :: 0 <= i < |rs[1..]| ==> rs[1..][i] == rs[i + 1];
      BodilessWire(rs[1..]);
    }
  }

  /** A connection from accept to its last request. The bytes of the stream are the blocks the master
      took, malformed ones included, and then what the worker receives. If neither passes a malformed
      block, they dispatch together what one direct split of the stream would; the worker passes one
      exactly when `Passes` holds of what it was handed. */
  method ServeConnection(stream: string, whole: bool, p: Policy, late: nat -> bool, events: nat, rules: Rules)
    returns (master: seq<Request>, worker: seq<Request>, masterEnd: MasterEnd, end: End,
             ghost handed: string, ghost onMaster: (History, Stretch), ghost onWorker: (History, Stretch))
    requires FastHasNoBody(p) && rules.plan == p.rules.plan
    ensures MasterDone(p, AnyLate(late, events), stream, onMaster.0, onMaster.1, masterEnd, master, handed)
    ensures stream == Taken(onMaster.0) + (Wire(onMaster.1.served) + onMaster.1.left)
    ensures masterEnd == HandedOver ==>
              Ended(rules, handed, onWorker.0, onWorker.1, end, worker, false)
              && (HeadersFit(rules.plan, handed) ==> (onWorker.0.Then? <==> Passes(rules, handed)))
    ensures onMaster.0.Fresh? && onWorker.0.Fresh? ==>
              Shared(p, rules, AnyLate(late, events), stream, master, worker, masterEnd, end, handed, onWorker.1.left)
    ensures Parseable(rules.plan, stream) ==> onMaster.0.Fresh? && onWorker.0.Fresh?
  {
    var c := new Connection(stream, whole);
    ghost var passed, last;
    master, masterEnd, passed, last := MasterServe(c, p, late, events);
    worker, end, handed, onMaster := [], ServerClosed, c.pending, (passed, last);
    onWorker := (Fresh, Stretch(handed, [], handed));
    TakenAndNext(p.rules, stream, passed, last.stream);
    if masterEnd == HandedOver {
      ghost var passed', last';
      worker, end, passed', last' := c.HandleClient(rules);
      onWorker := (passed', last');
    }
    Together(p, rules, AnyLate(late, events), stream, onMaster, masterEnd, master, handed, onWorker, end, worker);
  }

  lemma Together(p: Policy, rules: Rules, late: bool, stream: string, onMaster: (History, Stretch),
                 masterEnd: MasterEnd, master: seq<Request>, handed: string, onWorker: (History, Stretch), end: End,
                 worker: seq<Request>)
    requires rules.plan == p.rules.plan
    requires MasterDone(p, late, stream, onMaster.0, onMaster.1, masterEnd, master, handed)
    requires AllBodiless(p, master)
    requires if masterEnd == HandedOver
             then Ended(rules, handed, onWorker.0, onWorker.1, end, worker, false)
             else worker == [] && onWorker.0.Fresh?
    ensures onMaster.0.Fresh? && onWorker.0.Fresh? ==>
              Shared(p, rules, late, stream, master, worker, masterEnd, end, handed, onWorker.1.left)
    ensures Parseable(rules.plan, stream) ==> onMaster.0.Fresh? && onWorker.0.Fresh?
  {
    var passed, last := onMaster.0, onMaster.1;
    if passed.Then? {
      PassedPasses(p.rules, stream, passed, last.stream, true);
    } else {
      Behind(rules.plan, stream, last.served, last.left);
      BodilessWire(master);
      assert [] + last.served == last.served && master + [] == master;
      if masterEnd == HandedOver {
        if onWorker.0.Then? {
          PassedPasses(rules, handed, onWorker.0, onWorker.1.stream, false);
        } else {
          assert [] + onWorker.1.served == onWorker.1.served;
          AccountedThen(rules.plan, stream, master, handed, worker, onWorker.1.left);
        }
      } else if masterEnd == Dropped && !late && HeadersFit(rules.plan, stream) {
        DroppedAtEnd(p, |last.served|, last);
      }
    }
  }

  /** How a master and a worker shared a stream when neither passed a malformed block. */
  ghost predicate Shared(p: Policy, rules: Rules, late: bool, stream: string, master: seq<Request>,
                         worker: seq<Request>, masterEnd: MasterEnd, end: End, handed: string, left: string) {
    master + worker <= Split(p.rules.plan, stream)
    && (masterEnd != Dropped ==> stream == Headers(master) + handed)
    && (masterEnd != HandedOver ==> worker == [])
    && (masterEnd == Dropped && !late && HeadersFit(rules.plan, stream) ==> master == Split(rules.plan, stream))
    && (masterEnd == HandedOver ==>
          Handled(rules, 0, Stretch(handed, worker, left), end)
          && Accounted(rules.plan, stream, master + worker, left)
          && (HeadersFit(rules.plan, stream) && end != ServerClosed ==> master + worker == Split(rules.plan, stream)))
  }
}
