/** The keep-alive loop of src/http/http.c over one connection and one fixed buffer. */
module Framing {
  import opened CText
  import opened RequestStream

  const BUFFER_SIZE: nat := 65536
  const MAX_KEEPALIVE: nat := 100

  /** Why the connection was closed. */
  datatype End = ClientClosed | HeadersTooLarge | Refused | BadRequest | BodyCutShort | ServerClosed

  // ---- what strstr sees of a buffer ------------------------------------

  /** A block found before the first NUL is the first block of the stream. */
  lemma SeenIsFirst(text: string, pending: string)
    requires HeaderLen(CStr(text)).Some?
    ensures HeaderLen(text + pending) == HeaderLen(CStr(text)) && HeaderLen(CStr(text)).value <= |text|
  {
    CStrReaches(text, 0);
    HeaderGrows(CStr(text), text + pending);
  }

  /** A NUL-free block that has arrived is seen. */
  lemma ArrivedIsSeen(text: string, pending: string, h: nat)
    requires HeaderLen(text + pending) == Some(h) && h <= |text| && NulFree((text + pending)[..h])
    ensures HeaderLen(CStr(text)) == Some(h)
  {
    var s := text + pending;
    assert forall j :: 0 <= j < h ==> s[..h][j] == text[j];
    assert forall j :: j <= h ==> Ends(text, j) == Ends(s, j);
    FirstSeen(text, h);
  }

  /** Header blocks, the unfinished one at the end included, are NUL-free and fit the buffer. */
  ghost predicate HeadersFit(plan: string -> Verdict, s: string)
    decreases |s|
  {
    match HeaderLen(s)
    case None => NulFree(s) && |s| < BUFFER_SIZE - 1
    case Some(h) =>
      h <= BUFFER_SIZE - 1 && NulFree(s[..h])
      && var v := plan(s[..h]);
         (v.Serve? && h + v.length <= |s| ==> HeadersFit(plan, s[h + v.length..]))
  }

  /** No block that can be reached is malformed. */
  ghost predicate Parseable(plan: string -> Verdict, s: string)
    decreases |s|
  {
    match HeaderLen(s)
    case None => true
    case Some(h) =>
      var v := plan(s[..h]);
      !v.Malformed? && (v.Serve? && h + v.length <= |s| ==> Parseable(plan, s[h + v.length..]))
  }

  /** Nothing seen, and the buffer is full or the stream over: then the stream holds no further
      request, and the buffer is not full. */
  lemma LastBlock(plan: string -> Verdict, text: string, pending: string)
    requires HeadersFit(plan, text + pending) && HeaderLen(CStr(text)).None?
    requires |text| == BUFFER_SIZE - 1 || pending == ""
    ensures |text| < BUFFER_SIZE - 1 && Split(plan, text + pending) == []
  {
    var h := HeaderLen(text + pending);
    if h.Some? {
      ArrivedIsSeen(text, pending, h.value);
    }
  }

  /** What a connection is handled by: the verdict on a header block, and whether the connection
      stays open after the i-th exchange when that was a request or a malformed block. */
  datatype Rules = Rules(plan: string -> Verdict, keep: (nat, Request) -> bool, keepBad: nat -> bool)

  class Connection {
    /** Bytes the client has sent or will send that have not been received. */
    var pending: string
    /** All that was sent arrives as soon as there is room for it. */
    const whole: bool
    const buffer: array<char>
    var total: nat
    var carry: nat
    var prevConsumed: nat

    ghost predicate Valid()
      reads this
    {
      buffer.Length == BUFFER_SIZE && total < BUFFER_SIZE && prevConsumed + carry < BUFFER_SIZE
    }

    ghost function Text(): string
      requires Valid()
      reads this, buffer
    {
      buffer[..total]
    }

    /** The bytes of the next pipelined request. */
    ghost function Carried(): string
      requires Valid()
      reads this, buffer
    {
      buffer[prevConsumed..prevConsumed + carry]
    }

    constructor (stream: string, whole: bool)
      ensures this.whole == whole && Valid() && fresh(buffer) && pending == stream && carry == 0
    {
      pending, total, carry, prevConsumed := stream, 0, 0, 0;
      this.whole := whole;
      buffer := new char[BUFFER_SIZE](_ => '\0');
    }

    /** However the network cuts the stream: some prefix, empty only at its end. */
    method Recv(max: nat) returns (got: string)
      requires max > 0
      modifies this`pending
      ensures old(pending) == got + pending && |got| <= max
      ensures got == "" <==> old(pending) == ""
      ensures whole ==> |got| == Min(max, |old(pending)|)
    {
      if pending == "" {
        return "";
      }
      var n: nat :| 1 <= n <= max && n <= |pending| && (whole ==> n == Min(max, |pending|));
      got := pending[..n];
      pending := pending[n..];
    }

    /** recv behind what the buffer holds. */
    method Fill() returns (n: nat)
      requires Valid() && total < BUFFER_SIZE - 1
      modifies this`pending, this`total, buffer
      ensures Valid() && total == old(total) + n && old(Text()) <= Text()
      ensures Text() + pending == old(Text() + pending)
      ensures n == 0 <==> old(pending) == ""
      ensures |pending| == |old(pending)| - n
      ensures whole ==> n == Min(BUFFER_SIZE - 1 - old(total), |old(pending)|)
    {
      var got := Recv(BUFFER_SIZE - 1 - total);
      n := |got|;
      forall i | 0 <= i < n {
        buffer[total + i] := got[i];
      }
      total := total + n;
      assert Text() == old(Text()) + got;
    }

    /** Carry over the next pipelined request, or start with an empty buffer. */
    method StartRequest()
      requires Valid()
      modifies this`total, this`carry, buffer
      ensures Valid() && carry == 0 && Text() == old(Carried()) && buffer[total] == '\0'
    {
      var keep := buffer[prevConsumed..prevConsumed + carry];
      forall i | 0 <= i < BUFFER_SIZE {
        buffer[i] := if i < |keep| then keep[i] else '\0';
      }
      total, carry := carry, 0;
    }

    /** `strstr(buffer, "\r\n\r\n")`, past the match. */
    method FindHeaderEnd() returns (h: Option<nat>)
      requires Valid() && buffer[total] == '\0'
      ensures h == HeaderLen(CStr(Text()))
    {
      var i := 0;
      while buffer[i] != '\0'
        invariant 0 <= i <= total
        invariant forall j :: 0 <= j < i ==> buffer[j] != '\0'
        invariant forall j :: j < i + 4 ==> !Ends(Text(), j)
        decreases total - i
      {
        if buffer[i] == '\r' && buffer[i + 1] == '\n' && buffer[i + 2] == '\r' && buffer[i + 3] == '\n' {
          assert Ends(Text(), i + 4);
          FirstSeen(Text(), i + 4);
          return Some(i + 4);
        }
        i := i + 1;
      }
      NoneSeen(Text(), i);
      return None;
    }

    /** Read until a header block is complete, the buffer is full or the client closes. */
    method ReadHeader() returns (h: Option<nat>)
      requires Valid() && buffer[total] == '\0'
      modifies this`pending, this`total, buffer
      ensures Valid() && Text() + pending == old(Text() + pending)
      ensures h == HeaderLen(CStr(Text()))
      ensures h.None? ==> total == BUFFER_SIZE - 1 || pending == ""
      ensures |pending| <= |old(pending)|
      ensures whole && old(total) == 0 && |old(pending)| < BUFFER_SIZE ==> pending == ""
    {
      while true
        invariant Valid() && buffer[total] == '\0'
        invariant Text() + pending == old(Text() + pending) && |pending| <= |old(pending)|
        invariant whole && old(total) == 0 && |old(pending)| < BUFFER_SIZE ==> total == 0 || pending == ""
        decreases |pending|
      {
        h := FindHeaderEnd();
        if h.Some? || total >= BUFFER_SIZE - 1 {
          return;
        }
        ghost var text := Text();
        var n := Fill();
        if n == 0 {
          assert Text() == text;
          return;
        }
        TerminateAt(total);
      }
    }

    method TerminateAt(i: nat)
      requires Valid() && i == total
      modifies buffer
      ensures buffer[total] == '\0' && Text() == old(Text())
    {
      buffer[i] := '\0';
    }

    /** Receive the rest of a body that fits behind what the buffer holds. */
    method FillBody(start: nat, length: nat)
      requires Valid() && start <= total && start + length < BUFFER_SIZE
      modifies this`pending, this`total, buffer
      ensures Valid() && old(Text()) <= Text() && Text() + pending == old(Text() + pending)
      ensures total - start >= length || pending == ""
    {
      while total - start < length
        invariant Valid() && old(Text()) <= Text() && Text() + pending == old(Text() + pending)
        decreases |pending|
      {
        var n := Fill();
        if n == 0 {
          break;
        }
      }
    }

    /** Stream a body to a file: what is buffered first, then exactly the rest; None when the
        client closes before it is complete. */
    method Spool(start: nat, length: nat) returns (file: Option<string>)
      requires Valid() && start <= total && total - start < length
      modifies this`pending
      ensures file.Some? ==> |file.value| == length && Text()[start..] + old(pending) == file.value + pending
      ensures file.None? ==> pending == "" && total - start + |old(pending)| < length
    {
      var written := buffer[start..total];
      assert written == Text()[start..];
      var left := length - (total - start);
      while left > 0
        invariant 0 <= left && |written| == length - left
        invariant Text()[start..] + old(pending) == written + pending
        decreases left
      {
        ghost var before := pending;
        var got := Recv(Min(left, BUFFER_SIZE));
        if got == "" {
          return None;
        }
        Cat3(written, got, pending);
        written := written + got;
        left := left - |got|;
      }
      return Some(written);
    }

    /** Receive the body of the request whose header block ends at `h`, by whichever way its
        length calls for, and mark what the buffer holds beyond it. */
    method ReadBody(h: nat, length: nat) returns (body: Option<string>)
      requires Valid() && carry == 0 && h <= total
      modifies this, buffer
      ensures Valid() && BodyOf(old(Text() + pending), h, length, body, Carried() + pending)
      ensures body.None? ==> pending == ""
      ensures |pending| <= |old(pending)|
    {
      var have := total - h;
      if length > BUFFER_SIZE || (have < length && length - have > BUFFER_SIZE - 1 - total) {
        ghost var text, rest := Text(), pending;
        body := Spool(h, length);
        SpooledBody(text, rest, h, length, body, pending);
        assert Carried() + pending == pending;
        return;
      }
      if have < length {
        FillBody(h, length);
      }
      body := TakeBody(h, length);
    }

    method TakeBody(h: nat, length: nat) returns (body: Option<string>)
      requires Valid() && h <= total && (total - h >= length || pending == "")
      modifies this`prevConsumed, this`carry
      ensures Valid() && BodyOf(Text() + pending, h, length, body, Carried() + pending)
      ensures body.None? ==> pending == ""
    {
      if total - h < length {
        return None;
      }
      body := Some(buffer[h..h + length]);
      prevConsumed := h + length;
      carry := total - prevConsumed;
      SliceOf(buffer, total, h, h + length);
      SliceOf(buffer, total, h + length, total);
      BufferedBody(Text(), pending, h, length);
    }

    /** One turn of the loop: the first request of what is left, or why there is none. */
    method NextRequest(plan: string -> Verdict) returns (step: Step)
      requires Valid()
      modifies this, buffer
      ensures Valid() && StepOf(plan, old(Carried() + pending), step, Carried() + pending, pending)
      ensures old(AllIn()) ==> pending == ""
    {
      StartRequest();
      var h := ReadHeader();
      if h.None? {
        StopAtHeader(plan, Text(), pending);
        return Stop(if total >= BUFFER_SIZE - 1 then HeadersTooLarge else ClientClosed);
      }
      SeenIsFirst(Text(), pending);
      step := TakeBlock(plan, h.value);
    }

    /** Nothing is left to receive, or it is received at once. */
    ghost predicate AllIn()
      reads this
    {
      pending == "" || (whole && carry == 0 && |pending| < BUFFER_SIZE)
    }

    /** What a complete header block of `h` bytes leads to. */
    method TakeBlock(plan: string -> Verdict, h: nat) returns (step: Step)
      requires Valid() && carry == 0 && h <= total && HeaderLen(Text() + pending) == Some(h)
      modifies this, buffer
      ensures Valid() && StepOf(plan, old(Text() + pending), step, Carried() + pending, pending)
      ensures |pending| <= |old(pending)|
    {
      ghost var left := Text() + pending;
      var header := buffer[..h];
      assert header == left[..h] by {
        TakeOf(Text(), pending, h);
      }
      var v := plan(header);
      if !v.Serve? {
        StopAtVerdict(plan, Text(), pending, h);
        assert Carried() + pending == pending;
        return Stop(if v.Refuse? then Refused else BadRequest);
      }
      var body := ReadBody(h, v.length);
      if body.None? {
        StopAtBody(plan, left, h);
        return Stop(BodyCutShort);
      }
      GotRequest(plan, left, h, body.value, Carried() + pending);
      return Got(Request(header, body.value));
    }

    /** Serve requests back to back. A malformed block after which the connection stays open is
        answered and then forgotten together with everything received behind it: a new stretch of
        the stream begins at the first byte not yet received. `passed` are the stretches that ended
        so, `last` is the one the connection ended in.

        In every stretch, what is dispatched is the front of the stretch split directly, and what is
        left is exactly the bytes behind it. The server closes only after a request it does not keep
        the connection for, and stops otherwise only for the reason it gives.

        A malformed block is passed exactly when there is one, every request before it keeps the
        connection open and so does the answer to it; all these requests are dispatched. When the
        whole stream was received at once, nothing behind the block is. */
    method HandleClient(rules: Rules)
      returns (served: seq<Request>, end: End, ghost passed: History, ghost last: Stretch)
      requires Valid() && carry == 0
      modifies this, buffer
      ensures Ended(rules, old(pending), passed, last, end, served, false) && Suffix(pending, last.left)
      ensures passed.Then? ==> Passes(rules, old(pending)) && Split(rules.plan, old(pending)) <= served
      ensures HeadersFit(rules.plan, old(pending)) ==> (passed.Then? <==> Passes(rules, old(pending)))
      ensures whole && |old(pending)| < BUFFER_SIZE && passed.Then? ==> served == Split(rules.plan, old(pending))
    {
      ghost var stream := pending;
      served, passed, last := [], Fresh, Stretch(pending, [], pending);
      var count := 0;
      GoingStarts(rules, stream, false);
      assert Carried() + pending == pending;
      while true
        invariant Valid() && Going(rules, stream, passed, last, count, served, false)
        invariant last.left == Carried() + pending
        invariant whole && |stream| < BUFFER_SIZE ==> AllIn() && AtMostOne(passed, last)
        decreases MAX_KEEPALIVE - count
      {
        ghost var passed0, last0 := passed, last;
        var stop;
        served, stop, passed, last := Turn(rules, count, served, stream, passed, last);
        StillOne(rules.plan, passed0, last0, passed, last, pending);
        if stop.Some? {
          end := stop.value;
          Summary(rules, stream, passed, last, end, served, false);
          return;
        }
        count := count + 1;
      }
    }

    method Turn(rules: Rules, count: nat,
                served: seq<Request>, ghost stream: string, ghost passed: History, ghost last: Stretch)
      returns (served': seq<Request>, stop: Option<End>, ghost passed': History, ghost last': Stretch)
      requires Valid() && last.left == Carried() + pending
      requires Going(rules, stream, passed, last, count, served, false)
      modifies this, buffer
      ensures Valid() && (old(AllIn()) ==> pending == "")
      ensures Moves(rules.plan, passed, last, passed', last', pending)
      ensures stop.None? ==> last'.left == Carried() + pending
                             && Going(rules, stream, passed', last', count + 1, served', false)
      ensures stop.Some? ==> Ended(rules, stream, passed', last', stop.value, served', false)
                             && Suffix(pending, last'.left)
    {
      var step := NextRequest(rules.plan);
      match step {
        case Stop(end) =>
          if end == BadRequest && rules.keepBad(count) && count + 1 < MAX_KEEPALIVE {
            GoingPasses(rules, stream, passed, last, count, served, pending, false);
            return served, None, Then(passed, last), Stretch(pending, [], pending);
          }
          GoingEnds(rules, stream, passed, last, count, served, end, false);
          return served, Some(end), passed, last;
        case Got(r) =>
          last' := Stretch(last.stream, last.served + [r], Carried() + pending);
          EndOf(Carried(), pending);
          if rules.keep(count, r) && count + 1 < MAX_KEEPALIVE {
            GoingTakes(rules, stream, passed, last, count, served, r, last'.left, false);
            return served + [r], None, passed, last';
          }
          GoingCloses(rules, stream, passed, last, count, served, r, last'.left, false);
          return served + [r], Some(ServerClosed), passed, last';
      }
    }
  }

  // ---- stretches between malformed blocks ------------------------------

  /** Part of a stream handled without passing a malformed block: where it starts, what was
      dispatched from it, and what was left when it ended. */
  datatype Stretch = Stretch(stream: string, served: seq<Request>, left: string)

  /** The stretches before the current one, oldest first. */
  datatype History = Fresh | Then(before: History, stretch: Stretch)

  /** How many exchanges `passed` took, each stretch with its malformed block. */
  function Exchanges(passed: History): nat {
    if passed.Fresh? then 0 else Exchanges(passed.before) + |passed.stretch.served| + 1
  }

  function AllServed(passed: History): seq<Request> {
    if passed.Fresh? then [] else AllServed(passed.before) + passed.stretch.served
  }

  /** What is left starts with a malformed block, and `next` is an end or, if `exact`, all of what
      follows it. */
  ghost predicate Skips(plan: string -> Verdict, left: string, next: string, exact: bool) {
    var h := HeaderLen(left);
    h.Some? && plan(left[..h.value]).Malformed?
    && if exact then next == left[h.value..] else Suffix(next, left[h.value..])
  }

  ghost predicate KeptAll(rules: Rules, from: nat, served: seq<Request>) {
    forall i :: 0 <= i < |served| ==> rules.keep(from + i, served[i])
  }

  /** The stretch `s` began after `from` exchanges and has left the connection open so far. */
  ghost predicate Running(rules: Rules, from: nat, s: Stretch) {
    Accounted(rules.plan, s.stream, s.served, s.left) && KeptAll(rules, from, s.served)
    && from + |s.served| < MAX_KEEPALIVE
  }

  /** The answer to a malformed block as the n-th exchange leaves the connection open. */
  ghost predicate KeptAfterBad(rules: Rules, n: nat) {
    rules.keepBad(n) && n + 1 < MAX_KEEPALIVE
  }

  /** The stretches lead from `stream` to `next`, each up to a malformed block whose answer left the
      connection open. */
  ghost predicate Passed(rules: Rules, stream: string,
                         passed: History, next: string, exact: bool)
    decreases passed
  {
    if passed.Fresh? then next == stream else
    var s, from := passed.stretch, Exchanges(passed.before);
    Passed(rules, stream, passed.before, s.stream, exact)
    && Running(rules, from, s) && KeptAfterBad(rules, from + |s.served|) && Skips(rules.plan, s.left, next, exact)
  }

  ghost predicate Going(rules: Rules, stream: string,
                        passed: History, last: Stretch, count: nat, served: seq<Request>, exact: bool) {
    Passed(rules, stream, passed, last.stream, exact)
    && Running(rules, Exchanges(passed), last) && Counted(passed, last, count, served)
  }

  /** `count` exchanges and the requests `served` so far. */
  ghost predicate Counted(passed: History, last: Stretch, count: nat, served: seq<Request>) {
    count == Exchanges(passed) + |last.served| && served == AllServed(passed) + last.served
  }

  lemma CountedMore(passed: History, last: Stretch, count: nat, served: seq<Request>, r: Request, rest: string)
    requires Counted(passed, last, count, served)
    ensures Counted(passed, Stretch(last.stream, last.served + [r], rest), count + 1, served + [r])
  {
    ServedMore(AllServed(passed), last.served, r);
  }

  /** The connection ended: the stretches passed, how the last one ended, and all that was dispatched. */
  ghost predicate Ended(rules: Rules, stream: string,
                        passed: History, last: Stretch, end: End, served: seq<Request>, exact: bool) {
    Passed(rules, stream, passed, last.stream, exact)
    && Handled(rules, Exchanges(passed), last, end)
    && served == AllServed(passed) + last.served
  }

  lemma GoingStarts(rules: Rules, stream: string, exact: bool)
    ensures Going(rules, stream, Fresh, Stretch(stream, [], stream), 0, [], exact)
  {
    StretchStarts(rules, 0, stream);
  }

  /** One turn stays in its stretch or begins the next one at what is not yet received. */
  ghost predicate Moves(plan: string -> Verdict, passed: History, last: Stretch, passed': History,
                        last': Stretch, pending: string) {
    (passed' == passed && last'.stream == last.stream)
    || (passed' == Then(passed, last) && last'.stream == pending && Skips(plan, last.left, pending, false))
  }

  lemma GoingPasses(rules: Rules, stream: string,
                    passed: History, last: Stretch, count: nat, served: seq<Request>, next: string, exact: bool)
    requires Going(rules, stream, passed, last, count, served, exact) && KeptAfterBad(rules, count)
    requires Skips(rules.plan, last.left, next, exact)
    ensures Going(rules, stream, Then(passed, last), Stretch(next, [], next), count + 1, served, exact)
    ensures !exact ==> Moves(rules.plan, passed, last, Then(passed, last), Stretch(next, [], next), next)
  {
    PassBlock(rules, stream, passed, last, next, exact);
    StretchStarts(rules, count + 1, next);
    NothingMore(AllServed(Then(passed, last)));
  }

  lemma NothingMore(a: seq<Request>)
    ensures a + [] == a
  {
  }

  lemma GoingEnds(rules: Rules, stream: string,
                  passed: History, last: Stretch, count: nat, served: seq<Request>, end: End, exact: bool)
    requires Going(rules, stream, passed, last, count, served, exact) && Reason(rules.plan, last.left, end)
    requires end == BadRequest ==> !KeptAfterBad(rules, count)
    ensures Ended(rules, stream, passed, last, end, served, exact)
  {
    StretchEnds(rules, Exchanges(passed), last, end);
  }

  lemma GoingTakes(rules: Rules, stream: string, passed: History, last: Stretch, count: nat, served: seq<Request>,
                   r: Request, rest: string, exact: bool)
    requires Going(rules, stream, passed, last, count, served, exact) && FirstOf(rules.plan, last.left, r, rest)
    requires rules.keep(count, r) && count + 1 < MAX_KEEPALIVE
    ensures Going(rules, stream, passed, Stretch(last.stream, last.served + [r], rest), count + 1, served + [r], exact)
  {
    StretchGrows(rules, Exchanges(passed), last, r, rest);
    CountedMore(passed, last, count, served, r, rest);
    GoesOn(rules, stream, passed, Stretch(last.stream, last.served + [r], rest), count + 1, served + [r], exact);
  }

  lemma GoesOn(rules: Rules, stream: string, passed: History, last: Stretch, count: nat, served: seq<Request>, exact: bool)
    requires Passed(rules, stream, passed, last.stream, exact)
    requires Running(rules, Exchanges(passed), last) && Counted(passed, last, count, served)
    ensures Going(rules, stream, passed, last, count, served, exact)
  {
  }

  lemma GoingCloses(rules: Rules, stream: string, passed: History, last: Stretch, count: nat, served: seq<Request>,
                    r: Request, rest: string, exact: bool)
    requires Going(rules, stream, passed, last, count, served, exact) && FirstOf(rules.plan, last.left, r, rest)
    requires !rules.keep(count, r) || count + 1 >= MAX_KEEPALIVE
    ensures Ended(rules, stream, passed, Stretch(last.stream, last.served + [r], rest), ServerClosed, served + [r], exact)
  {
    StretchGrows(rules, Exchanges(passed), last, r, rest);
    CountedMore(passed, last, count, served, r, rest);
  }

  lemma PassBlock(rules: Rules, stream: string, passed: History, last: Stretch, next: string, exact: bool)
    requires Passed(rules, stream, passed, last.stream, exact)
    requires Running(rules, Exchanges(passed), last) && Skips(rules.plan, last.left, next, exact)
    requires KeptAfterBad(rules, Exchanges(passed) + |last.served|)
    ensures Passed(rules, stream, Then(passed, last), next, exact)
  {
  }

  lemma StretchStarts(rules: Rules, from: nat, next: string)
    requires from < MAX_KEEPALIVE
    ensures Running(rules, from, Stretch(next, [], next))
  {
    AccountedAtStart(rules.plan, next, next);
  }

  lemma StretchGrows(rules: Rules, from: nat,
                     s: Stretch, r: Request, rest: string)
    requires Running(rules, from, s) && FirstOf(rules.plan, s.left, r, rest)
    ensures var t, count := Stretch(s.stream, s.served + [r], rest), from + |s.served|;
            if rules.keep(count, r) && count + 1 < MAX_KEEPALIVE then Running(rules, from, t)
            else Handled(rules, from, t, ServerClosed)
  {
    TakeFirst(rules.plan, s.stream, s.served, s.left, r, rest);
    KeptMore(rules, from, s.served, r);
  }

  lemma KeptMore(rules: Rules, from: nat, served: seq<Request>, r: Request)
    requires KeptAll(rules, from, served)
    ensures KeptOpen(rules, from, served + [r]) && (rules.keep(from + |served|, r) ==> KeptAll(rules, from, served + [r]))
  {
  }

  lemma ServedMore(a: seq<Request>, b: seq<Request>, r: Request)
    ensures a + b + [r] == a + (b + [r])
  {
  }

  /** How a stretch ended that began after `from` exchanges. */
  ghost predicate Handled(rules: Rules, from: nat,
                          s: Stretch, end: End) {
    Accounted(rules.plan, s.stream, s.served, s.left) && from + |s.served| <= MAX_KEEPALIVE
    && KeptOpen(rules, from, s.served) && (end == ServerClosed <==> ServerCloses(rules, from, s.served))
    && (end != ServerClosed ==> Reason(rules.plan, s.left, end))
    && (end == BadRequest ==> !KeptAfterBad(rules, from + |s.served|))
    && (HeadersFit(rules.plan, s.stream) ==>
          end != HeadersTooLarge && (end != ServerClosed ==> s.served == Split(rules.plan, s.stream)))
  }

  /** Every request but the last left the connection open. */
  ghost predicate KeptOpen(rules: Rules, from: nat, served: seq<Request>) {
    forall i :: 0 <= i < |served| - 1 ==> rules.keep(from + i, served[i])
  }

  /** The last request is one the server closes after. */
  ghost predicate ServerCloses(rules: Rules, from: nat, served: seq<Request>) {
    var n := from + |served|;
    served != [] && (!rules.keep(n - 1, served[|served| - 1]) || n == MAX_KEEPALIVE)
  }

  lemma StretchEnds(rules: Rules, from: nat, s: Stretch,
                    end: End)
    requires Running(rules, from, s) && Reason(rules.plan, s.left, end)
    requires end == BadRequest ==> !KeptAfterBad(rules, from + |s.served|)
    ensures Handled(rules, from, s, end)
  {
    Behind(rules.plan, s.stream, s.served, s.left);
    if HeadersFit(rules.plan, s.stream) {
      ReasonIsEnd(rules.plan, s.left, end);
      assert s.served + [] == s.served;
    }
  }

  /** Well-sized headers and malformed blocks of a stream are those of what is left of it. */
  lemma {:induction false} Behind(plan: string -> Verdict, stream: string, served: seq<Request>, left: string)
    requires Accounted(plan, stream, served, left)
    ensures HeadersFit(plan, stream) ==> HeadersFit(plan, left)
    ensures Parseable(plan, stream) <==> Parseable(plan, left)
    decreases |served|
  {
    if served == [] {
      assert Wire(served) + left == left;
    } else {
      var r, rest := served[0], Wire(served[1..]) + left;
      Cat3(Bytes(r), Wire(served[1..]), left);
      FirstOfSplit(plan, stream, r, rest);
      AccountedTail(plan, stream, served, left, rest);
      FitsBehind(plan, stream, r, rest);
      Behind(plan, rest, served[1..], left);
    }
  }

  lemma AccountedTail(plan: string -> Verdict, stream: string, served: seq<Request>, left: string, rest: string)
    requires Accounted(plan, stream, served, left) && served != []
    requires rest == Wire(served[1..]) + left && Split(plan, stream)[1..] == Split(plan, rest)
    ensures Accounted(plan, rest, served[1..], left)
  {
    WithoutFirst(served, Split(plan, left));
  }

  lemma WithoutFirst(a: seq<Request>, b: seq<Request>)
    requires a != []
    ensures (a + b)[1..] == a[1..] + b
  {
  }

  lemma FirstOfSplit(plan: string -> Verdict, stream: string, r: Request, rest: string)
    requires Split(plan, stream) != [] && Split(plan, stream)[0] == r && stream == Bytes(r) + rest
    ensures FirstOf(plan, stream, r, rest) && Split(plan, stream)[1..] == Split(plan, rest)
  {
    assert stream[|r.header| + |r.body|..] == rest;
  }

  // ---- when a malformed block is passed --------------------------------

  /** The stream has a malformed block, every request before it leaves the connection open, and so
      does the answer to it. */
  ghost predicate Passes(rules: Rules, stream: string) {
    var all := Split(rules.plan, stream);
    !Parseable(rules.plan, stream) && KeptAll(rules, 0, all) && KeptAfterBad(rules, |all|)
  }

  lemma SkipsIsLast(plan: string -> Verdict, left: string, next: string, exact: bool)
    requires Skips(plan, left, next, exact)
    ensures Split(plan, left) == [] && !Parseable(plan, left)
  {
  }

  lemma {:induction false} PassedPasses(rules: Rules,
                                        stream: string, passed: History, next: string, exact: bool)
    requires Passed(rules, stream, passed, next, exact) && passed.Then?
    ensures Passes(rules, stream) && Split(rules.plan, stream) <= AllServed(passed)
    ensures passed.before.Fresh? ==> AllServed(passed) == Split(rules.plan, stream)
    decreases passed
  {
    var s := passed.stretch;
    if passed.before.Then? {
      PassedPasses(rules, stream, passed.before, s.stream, exact);
    } else {
      Behind(rules.plan, s.stream, s.served, s.left);
      SkipsIsLast(rules.plan, s.left, next, exact);
      assert s.served + [] == s.served && [] + s.served == s.served;
    }
  }

  /** A malformed block that is left and seen is the reason to stop. */
  lemma MalformedIsReason(plan: string -> Verdict, left: string, end: End)
    requires Reason(plan, left, end) && HeadersFit(plan, left) && !Parseable(plan, left)
    ensures end == BadRequest
  {
    ReasonIsEnd(plan, left, end);
    var h := HeaderLen(left);
    assert plan(left[..h.value]).Malformed?;
    if end == ClientClosed {
      assert left + "" == left;
      ArrivedIsSeen(left, "", h.value);
    }
  }

  lemma KeptFront(rules: Rules, served: seq<Request>, all: seq<Request>)
    requires served <= all && KeptAll(rules, 0, all) && |all| < MAX_KEEPALIVE
    ensures !ServerCloses(rules, 0, served)
  {
    assert served != [] ==> served[|served| - 1] == all[|served| - 1];
  }

  /** A stream that has a block to pass does not end in its first stretch. */
  lemma FirstStretchPasses(rules: Rules, s: Stretch,
                           end: End)
    requires Handled(rules, 0, s, end) && HeadersFit(rules.plan, s.stream)
    ensures !Passes(rules, s.stream)
  {
    if Passes(rules, s.stream) {
      Behind(rules.plan, s.stream, s.served, s.left);
      if end == ServerClosed {
        KeptFront(rules, s.served, Split(rules.plan, s.stream));
      } else {
        MalformedIsReason(rules.plan, s.left, end);
      }
    }
  }

  /** At most one block was passed, and nothing was left behind it. */
  ghost predicate AtMostOne(passed: History, last: Stretch) {
    passed.Fresh? || (passed.before.Fresh? && last.stream == "")
  }

  /** Behind a passed block that took everything with it nothing more is found. */
  lemma OnePassed(plan: string -> Verdict, passed: History, last: Stretch)
    requires AtMostOne(passed, last) && passed.Then? && Accounted(plan, last.stream, last.served, last.left)
    ensures last.served == [] && last.left == ""
  {
    assert Split(plan, "") == [];
  }

  lemma StillOne(plan: string -> Verdict, passed: History, last: Stretch, passed': History, last': Stretch,
                 pending: string)
    requires Moves(plan, passed, last, passed', last', pending) && Accounted(plan, last.stream, last.served, last.left)
    ensures AtMostOne(passed, last) && pending == "" ==> AtMostOne(passed', last')
  {
    if passed.Then? && AtMostOne(passed, last) {
      OnePassed(plan, passed, last);
    }
  }

  lemma Summary(rules: Rules, stream: string,
                passed: History, last: Stretch, end: End, served: seq<Request>, exact: bool)
    requires Ended(rules, stream, passed, last, end, served, exact)
    ensures passed.Then? ==> Passes(rules, stream) && Split(rules.plan, stream) <= served
    ensures HeadersFit(rules.plan, stream) ==> (passed.Then? <==> Passes(rules, stream))
    ensures AtMostOne(passed, last) && passed.Then? ==> served == Split(rules.plan, stream)
  {
    if passed.Fresh? {
      if HeadersFit(rules.plan, stream) {
        FirstStretchPasses(rules, last, end);
      }
    } else {
      PassedPasses(rules, stream, passed, last.stream, exact);
      if AtMostOne(passed, last) {
        OnePassed(rules.plan, passed, last);
      }
    }
  }

  datatype Step = Got(request: Request) | Stop(end: End)

  /** `r` is the first request of `left`, and `rest` is what follows it. */
  ghost predicate FirstOf(plan: string -> Verdict, left: string, r: Request, rest: string) {
    var h, n := |r.header|, |r.body|;
    HeaderLen(left) == Some(h) && h + n <= |left| && left[..h] == r.header && left[h..h + n] == r.body
    && plan(r.header) == Serve(n) && rest == left[h + n..]
  }

  /** What is true of the bytes left when the server stops without having closed by choice. */
  ghost predicate Reason(plan: string -> Verdict, left: string, end: End) {
    var h := HeaderLen(left);
    match end
    case ClientClosed => |left| < BUFFER_SIZE - 1 && HeaderLen(CStr(left)).None?
    case HeadersTooLarge => |left| >= BUFFER_SIZE - 1 && HeaderLen(CStr(left[..BUFFER_SIZE - 1])).None?
    case Refused => h.Some? && plan(left[..h.value]).Refuse?
    case BadRequest => h.Some? && plan(left[..h.value]).Malformed?
    case BodyCutShort => h.Some? && plan(left[..h.value]).Serve? && |left| < h.value + plan(left[..h.value]).length
    case ServerClosed => false
  }

  ghost predicate StepOf(plan: string -> Verdict, left: string, step: Step, rest: string, pending: string) {
    match step
    case Got(r) => FirstOf(plan, left, r, rest)
    case Stop(end) =>
      Reason(plan, left, end) && Suffix(pending, left)
      && (end == BadRequest ==> rest == pending && Skips(plan, left, pending, false))
  }

  lemma StopAtHeader(plan: string -> Verdict, text: string, pending: string)
    requires HeaderLen(CStr(text)).None? && (|text| == BUFFER_SIZE - 1 || pending == "") && |text| < BUFFER_SIZE
    ensures Reason(plan, text + pending, if |text| >= BUFFER_SIZE - 1 then HeadersTooLarge else ClientClosed)
    ensures Suffix(pending, text + pending)
  {
    if |text| == BUFFER_SIZE - 1 {
      TakeOf(text, pending, |text|);
      assert text[..|text|] == text;
    } else {
      assert text + pending == text;
    }
  }

  lemma StopAtVerdict(plan: string -> Verdict, text: string, pending: string, h: nat)
    requires HeaderLen(text + pending) == Some(h) && h <= |text| && !plan((text + pending)[..h]).Serve?
    ensures var end := if plan((text + pending)[..h]).Refuse? then Refused else BadRequest;
            StepOf(plan, text + pending, Stop(end), pending, pending)
  {
    var left := text + pending;
    assert left[h..] == text[h..] + pending;
  }

  lemma StopAtBody(plan: string -> Verdict, left: string, h: nat)
    requires HeaderLen(left) == Some(h) && plan(left[..h]).Serve? && |left| < h + plan(left[..h]).length
    ensures Reason(plan, left, BodyCutShort) && Suffix("", left)
  {
  }

  /** With well-sized headers the server stops only where the split ends. */
  lemma ReasonIsEnd(plan: string -> Verdict, left: string, end: End)
    requires Reason(plan, left, end) && HeadersFit(plan, left)
    ensures end != HeadersTooLarge && Split(plan, left) == []
  {
    if end == HeadersTooLarge {
      var text, pending := left[..BUFFER_SIZE - 1], left[BUFFER_SIZE - 1..];
      assert left == text + pending;
      LastBlock(plan, text, pending);
    } else if end == ClientClosed {
      assert left + "" == left;
      LastBlock(plan, left, "");
    }
  }

  lemma GotRequest(plan: string -> Verdict, left: string, h: nat, body: string, rest: string)
    requires HeaderLen(left) == Some(h) && plan(left[..h]) == Serve(|body|)
    requires BodyOf(left, h, |body|, Some(body), rest)
    ensures FirstOf(plan, left, Request(left[..h], body), rest)
  {
  }

  lemma AccountedAtStart(plan: string -> Verdict, stream: string, left: string)
    requires left == stream
    ensures Accounted(plan, stream, [], left)
  {
    assert Wire([]) + left == left;
    assert [] + Split(plan, left) == Split(plan, left);
  }

  lemma TakeFirst(plan: string -> Verdict, stream: string, served: seq<Request>, left: string, r: Request,
                  rest: string)
    requires Accounted(plan, stream, served, left) && FirstOf(plan, left, r, rest)
    ensures Accounted(plan, stream, served + [r], rest)
  {
    var h, n := |r.header|, |r.body|;
    assert r == Request(left[..h], left[h..h + n]);
    TakeOne(plan, stream, served, left, h, n);
  }

  lemma FitsBehind(plan: string -> Verdict, left: string, r: Request, rest: string)
    requires FirstOf(plan, left, r, rest)
    ensures HeadersFit(plan, left) ==> HeadersFit(plan, rest)
    ensures Parseable(plan, left) <==> Parseable(plan, rest)
  {
  }

  lemma FirstSeen(text: string, h: nat)
    requires Ends(text, h) && forall j :: j < h ==> !Ends(text, j)
    requires forall j :: 0 <= j < h ==> text[j] != '\0'
    ensures HeaderLen(CStr(text)) == Some(h)
  {
    CStrReaches(text, h);
    assert forall j :: j <= h ==> Ends(CStr(text), j) == Ends(text, j);
    HeaderIs(CStr(text), h);
  }

  lemma NoneSeen(text: string, k: nat)
    requires k <= |text| && (forall j :: 0 <= j < k ==> text[j] != '\0') && (k == |text| || text[k] == '\0')
    requires forall j :: j < k + 4 ==> !Ends(text, j)
    ensures HeaderLen(CStr(text)).None?
  {
    CStrReaches(text, k);
    assert forall j :: j <= k ==> Ends(CStr(text), j) == Ends(text, j);
  }

  /** `body` is the `length` bytes behind `h`, or None when they are not all there. */
  ghost predicate BodyOf(left: string, h: nat, length: nat, body: Option<string>, rest: string) {
    match body
    case None => |left| < h + length
    case Some(b) => h + length <= |left| && b == left[h..h + length] && rest == left[h + length..]
  }

  lemma SpooledBody(text: string, before: string, h: nat, length: nat, body: Option<string>, rest: string)
    requires h <= |text|
    requires body.Some? ==> |body.value| == length && text[h..] + before == body.value + rest
    requires body.None? ==> |text| - h + |before| < length
    ensures BodyOf(text + before, h, length, body, rest)
  {
    if body.Some? {
      var left := text + before;
      assert left[h..] == text[h..] + before;
      assert left[h..h + length] == left[h..][..length];
      assert left[h + length..] == left[h..][length..];
    }
  }

  lemma SliceOf(a: array<char>, n: nat, i: nat, j: nat)
    requires i <= j <= n <= a.Length
    ensures a[i..j] == a[..n][i..j]
  {
    assert |a[i..j]| == |a[..n][i..j]|;
    assert forall k :: 0 <= k < j - i ==> a[i..j][k] == a[..n][i..j][k];
  }

  lemma BufferedBody(text: string, pending: string, h: nat, length: nat)
    requires h + length <= |text|
    ensures BodyOf(text + pending, h, length, Some(text[h..h + length]), text[h + length..] + pending)
  {
  }

  lemma EndOf(a: string, b: string)
    ensures Suffix(b, a + b)
  {
  }

  lemma TakeOf(a: string, b: string, i: nat)
    requires i <= |a|
    ensures (a + b)[..i] == a[..i]
  {
  }

  // ---- a request that is lost ------------------------------------------

  /** A request line ended by a bare newline: refused by the parser, which has by then read that
      the client speaks HTTP/1.1. */
  const BAD_BLOCK := "GET / HTTP/1.1\n\r\n\r\n"

  lemma BadBlockFirst(good: string)
    ensures HeaderLen(BAD_BLOCK + good) == Some(|BAD_BLOCK|) && (BAD_BLOCK + good)[..|BAD_BLOCK|] == BAD_BLOCK
  {
    HeaderIs(BAD_BLOCK, |BAD_BLOCK|);
    HeaderGrows(BAD_BLOCK, BAD_BLOCK + good);
    TakeOf(BAD_BLOCK, good, |BAD_BLOCK|);
  }

  /** Whatever follows such a block, it is passed when the answer keeps the connection open. */
  lemma BadBlockPasses(rules: Rules, good: string)
    requires rules.plan(BAD_BLOCK).Malformed? && rules.keepBad(0)
    ensures Passes(rules, BAD_BLOCK + good) && HeadersFit(rules.plan, BAD_BLOCK + good)
    ensures Split(rules.plan, BAD_BLOCK + good) == []
  {
    BadBlockFirst(good);
  }

  /** A well-formed request pipelined behind the block is never dispatched when both arrive
      together. */
  method LostRequest(rules: Rules, good: Request)
    returns (served: seq<Request>)
    requires rules.plan(BAD_BLOCK).Malformed? && rules.keepBad(0) && Framed(rules.plan, good)
    requires |BAD_BLOCK| + |Bytes(good)| < BUFFER_SIZE
    ensures served == [] && Split(rules.plan, Bytes(good)) == [good]
  {
    var c := new Connection(BAD_BLOCK + Bytes(good), true);
    BadBlockPasses(rules, Bytes(good));
    var end;
    ghost var passed, last;
    served, end, passed, last := c.HandleClient(rules);
    SplitCons(rules.plan, good, "");
    assert Bytes(good) + "" == Bytes(good) && Split(rules.plan, "") == [];
  }
}
