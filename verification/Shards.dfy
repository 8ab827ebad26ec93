/** Tool calls arriving in shards: `tc_process_element`, `round_call` and the array loop of
    `handle_upstream_line` in src/agent/agent.c. */
module Shards {
  import opened CText
  import opened MiniJson
  import opened JsonTree
  import opened Decimal

  const AGENT_ARGS_MAX: nat := 32768
  const AGENT_TOOL_CALLS_MAX: nat := 8
  const NAME_BUFFER: nat := 128

  /** What one element of a `tool_calls` array says. */
  datatype Shard = Shard(index: nat, id: Option<string>, name: Option<string>, args: Option<string>)

  datatype Call = Call(id: Option<string>, name: Option<string>, args: string)

  datatype Round = Round(calls: seq<Call>, n: nat)

  const NO_CALL := Call(None, None, "")

  function Fresh(): Round {
    Round(seq(AGENT_TOOL_CALLS_MAX, _ => NO_CALL), 0)
  }

  // ---- reading an element ----------------------------------------------

  /** strtol on text that starts with a digit. */
  function Number(p: string, acc: nat): nat {
    if p != "" && Digit(p[0]) then Number(p[1..], acc * 10 + (p[0] as int - '0' as int)) else acc
  }

  /** The string member `key` of an object, decoded. */
  function StringMember(obj: string, key: string): Option<string> {
    var v := FindValue(obj, key);
    if v.None? || ReadString(v.value).None? then None else Some(ReadString(v.value).value.0)
  }

  /** The same, read into a NAME_BUFFER. */
  function ShortMember(obj: string, key: string): Option<string> {
    var v := StringMember(obj, key);
    if v.None? then None else Some(Seen(v.value, NAME_BUFFER))
  }

  function ArgsMember(fn: string): Option<string> {
    var args := StringMember(fn, "arguments");
    if args.None? then None else Some(CStr(args.value))
  }

  function IndexOf(elem: string): nat {
    var v := FindValue(elem, "index");
    if v.Some? && Digit(At(v.value, 0)) then Number(v.value, 0) else 0
  }

  function ShardOf(elem: string): Shard {
    var fn := FindValue(elem, "function");
    if fn.None? || At(fn.value, 0) != '{' then Shard(IndexOf(elem), ShortMember(elem, "id"), None, None)
    else
      Shard(IndexOf(elem), ShortMember(elem, "id"), ShortMember(fn.value, "name"), ArgsMember(fn.value))
  }

  /** The elements of the array that starts behind its bracket. */
  function Elements(q: string): seq<Shard>
    decreases |q|
  {
    if At(q, 0) != '{' then [] else
    var next := SkipValue(q);
    if next.None? then [ShardOf(q)] else
    var r := Ws(next.value);
    if At(r, 0) == ',' then [ShardOf(q)] + Elements(Ws(r[1..])) else [ShardOf(q)]
  }

  // ---- accumulating ----------------------------------------------------

  function Or(old_: Option<string>, new_: Option<string>): Option<string> {
    if old_.Some? then old_ else new_
  }

  function Extended(c: Call, s: Shard): Call {
    Call(Or(c.id, s.id), Or(c.name, s.name),
         if s.args.None? then c.args else Take(c.args + s.args.value, AGENT_ARGS_MAX))
  }

  function Apply(r: Round, s: Shard): (t: Round)
    requires |r.calls| == AGENT_TOOL_CALLS_MAX
    ensures |t.calls| == AGENT_TOOL_CALLS_MAX
  {
    if s.index >= AGENT_TOOL_CALLS_MAX then r
    else Round(r.calls[s.index := Extended(r.calls[s.index], s)], if s.index + 1 > r.n then s.index + 1 else r.n)
  }

  function ApplyAll(r: Round, ss: seq<Shard>): (t: Round)
    requires |r.calls| == AGENT_TOOL_CALLS_MAX
    ensures |t.calls| == AGENT_TOOL_CALLS_MAX
    decreases |ss|
  {
    if ss == [] then r else ApplyAll(Apply(r, ss[0]), ss[1..])
  }

  class RoundState {
    const calls: array<Call>
    var nCalls: nat

    ghost predicate Valid()
      reads this, calls
    {
      calls.Length == AGENT_TOOL_CALLS_MAX
      && forall i :: 0 <= i < AGENT_TOOL_CALLS_MAX ==> |calls[i].args| <= AGENT_ARGS_MAX
    }

    ghost function View(): Round
      reads this, calls
    {
      Round(calls[..], nCalls)
    }

    constructor ()
      ensures Valid() && fresh(calls) && View() == Fresh()
    {
      calls := new Call[AGENT_TOOL_CALLS_MAX](_ => NO_CALL);
      nCalls := 0;
    }

    /** `tc_process_element`. */
    method Process(elem: string)
      requires Valid()
      modifies this, calls
      ensures Valid() && View() == Apply(old(View()), ShardOf(elem))
    {
      var index := IndexOf(elem);
      if index >= AGENT_TOOL_CALLS_MAX {
        return;
      }
      if index + 1 > nCalls {
        nCalls := index + 1;
      }
      var rc := ExtendCall(calls[index], elem);
      calls[index] := rc;
      assert calls[..] == old(calls[..])[index := rc];
    }

    /** The loop over a `tool_calls` array. */
    method ProcessArray(tcs: string)
      requires Valid() && At(tcs, 0) == '['
      modifies this, calls
      ensures Valid() && View() == ApplyAll(old(View()), Elements(Ws(tcs[1..])))
    {
      var q := Jws(tcs[1..]);
      ghost var goal := ApplyAll(View(), Elements(q));
      while At(q, 0) != '\0' && q[0] != ']'
        invariant Valid() && goal == ApplyAll(View(), Elements(q))
        decreases |q|
      {
        if q[0] != '{' {
          return;
        }
        AppliedFirst(View(), q);
        Process(q);
        var ok, rest := JskipValue(q);
        if !ok {
          return;
        }
        var r := Jws(rest);
        if At(r, 0) != ',' {
          return;
        }
        q := Jws(r[1..]);
      }
    }
  }

  /** The shard's id, if the call has none yet, then its function part. */
  method ExtendCall(call: Call, elem: string) returns (rc: Call)
    requires |call.args| <= AGENT_ARGS_MAX
    ensures rc == Extended(call, ShardOf(elem)) && |rc.args| <= AGENT_ARGS_MAX
  {
    rc := call;
    if rc.id.None? {
      var id := ReadShort(elem, "id");
      rc := rc.(id := id);
    }
    var fn := JfindValue(elem, "function");
    if fn.Some? && At(fn.value, 0) == '{' {
      rc := ExtendFunction(rc, fn.value);
    }
  }

  method ExtendFunction(call: Call, fn: string) returns (rc: Call)
    requires |call.args| <= AGENT_ARGS_MAX
    ensures rc.id == call.id && rc.name == Or(call.name, ShortMember(fn, "name")) && |rc.args| <= AGENT_ARGS_MAX
    ensures var frag := ArgsMember(fn);
            rc.args == if frag.None? then call.args else Take(call.args + frag.value, AGENT_ARGS_MAX)
  {
    rc := call;
    if rc.name.None? {
      var name := ReadShort(fn, "name");
      rc := rc.(name := name);
    }
    var frag := ReadFragment(fn);
    if frag.Some? {
      var room := AGENT_ARGS_MAX - |rc.args|;
      var fl := if |frag.value| > room then room else |frag.value|;
      TakeRoom(rc.args, frag.value);
      rc := rc.(args := rc.args + frag.value[..fl]);
    }
  }

  lemma TakeRoom(args: string, frag: string)
    requires |args| <= AGENT_ARGS_MAX
    ensures var room := AGENT_ARGS_MAX - |args|;
            Take(args + frag, AGENT_ARGS_MAX) == args + frag[..if |frag| > room then room else |frag|]
  {
  }

  lemma AppliedFirst(r: Round, q: string)
    requires |r.calls| == AGENT_TOOL_CALLS_MAX && At(q, 0) == '{'
    ensures var rest := Elements(q)[1..];
            Elements(q) != [] && Elements(q)[0] == ShardOf(q)
            && ApplyAll(r, Elements(q)) == ApplyAll(Apply(r, ShardOf(q)), rest)
  {
  }

  method ReadShort(obj: string, key: string) returns (r: Option<string>)
    ensures r == ShortMember(obj, key)
  {
    var v := JfindValue(obj, key);
    if v.None? || At(v.value, 0) != '"' {
      return None;
    }
    var ok, out, _ := JreadString(v.value, NAME_BUFFER);
    return if ok then Some(CStr(out)) else None;
  }

  method ReadFragment(fn: string) returns (r: Option<string>)
    ensures r == ArgsMember(fn)
  {
    var v := JfindValue(fn, "arguments");
    if v.None? || At(v.value, 0) != '"' {
      return None;
    }
    var ok, out, _ := JreadString(v.value, |v.value| + 1);
    if ok {
      DecodedFits(v.value);
      return Some(CStr(out));
    }
    return None;
  }

  // ---- a scratch buffer as long as the text is always long enough -------

  lemma UnitFits(p: string)
    requires p != "" && ReadUnit(p).Some?
    ensures |ReadUnit(p).value.0| + |ReadUnit(p).value.1| <= |p|
  {
  }

  lemma {:induction false} BodyFits(p: string)
    requires ReadBody(p).Some?
    ensures |ReadBody(p).value.0| + |ReadBody(p).value.1| < |p|
    decreases |p|
  {
    if p[0] != '"' {
      UnitFits(p);
      BodyFits(ReadUnit(p).value.1);
    }
  }

  lemma DecodedFits(p: string)
    requires ReadString(p).Some?
    ensures |ReadString(p).value.0| <= |p| && Take(ReadString(p).value.0, |p|) == ReadString(p).value.0
  {
    BodyFits(p[1..]);
  }

  // ---- what the accumulators hold --------------------------------------

  /** The shards of one call, in arrival order. */
  function Own(ss: seq<Shard>, i: nat): seq<Shard> {
    if ss == [] then [] else (if ss[0].index == i then [ss[0]] else []) + Own(ss[1..], i)
  }

  function FirstId(ss: seq<Shard>): Option<string> {
    if ss == [] then None else Or(ss[0].id, FirstId(ss[1..]))
  }

  function FirstName(ss: seq<Shard>): Option<string> {
    if ss == [] then None else Or(ss[0].name, FirstName(ss[1..]))
  }

  function Fragments(ss: seq<Shard>): string {
    if ss == [] then "" else (if ss[0].args.Some? then ss[0].args.value else "") + Fragments(ss[1..])
  }

  /** One more than the largest index in range. */
  function Span(ss: seq<Shard>): nat {
    if ss == [] then 0 else
    var rest := Span(ss[1..]);
    if ss[0].index < AGENT_TOOL_CALLS_MAX && ss[0].index + 1 > rest then ss[0].index + 1 else rest
  }

  function Summary(c: Call, own: seq<Shard>): Call {
    Call(Or(c.id, FirstId(own)), Or(c.name, FirstName(own)), Take(c.args + Fragments(own), AGENT_ARGS_MAX))
  }

  lemma SummaryStep(c: Call, s: Shard, own: seq<Shard>)
    requires |c.args| <= AGENT_ARGS_MAX
    ensures Summary(c, [s] + own) == Summary(Extended(c, s), own)
  {
    var frag := if s.args.Some? then s.args.value else "";
    assert ([s] + own)[1..] == own;
    TakeAppend(c.args + frag, Fragments(own), AGENT_ARGS_MAX);
    Cat3(c.args, frag, Fragments(own));
    assert s.args.None? ==> c.args + frag == c.args;
  }

  lemma {:induction false} Accumulates(r: Round, ss: seq<Shard>, i: nat)
    requires |r.calls| == AGENT_TOOL_CALLS_MAX && i < AGENT_TOOL_CALLS_MAX
    requires forall j :: 0 <= j < AGENT_TOOL_CALLS_MAX ==> |r.calls[j].args| <= AGENT_ARGS_MAX
    ensures ApplyAll(r, ss).calls[i] == Summary(r.calls[i], Own(ss, i))
    ensures ApplyAll(r, ss).n == if Span(ss) > r.n then Span(ss) else r.n
    decreases |ss|
  {
    if ss == [] {
      assert r.calls[i].args + "" == r.calls[i].args;
    } else {
      var s, rest := ss[0], Own(ss[1..], i);
      Accumulates(Apply(r, s), ss[1..], i);
      if s.index == i {
        SummaryStep(r.calls[i], s, rest);
      } else {
        assert [] + rest == rest;
      }
    }
  }

  /** Whatever order shards of different calls arrive in: each call has the first id and name
      seen for it and the first AGENT_ARGS_MAX bytes of its own fragments in arrival order, and
      the count is one more than the largest index. */
  lemma RoundIsPerCall(ss: seq<Shard>, i: nat)
    requires i < AGENT_TOOL_CALLS_MAX
    ensures ApplyAll(Fresh(), ss).calls[i]
            == Call(FirstId(Own(ss, i)), FirstName(Own(ss, i)), Take(Fragments(Own(ss, i)), AGENT_ARGS_MAX))
    ensures ApplyAll(Fresh(), ss).n == Span(ss)
  {
    Accumulates(Fresh(), ss, i);
    assert "" + Fragments(Own(ss, i)) == Fragments(Own(ss, i));
  }

  lemma {:induction false} SpanBounds(ss: seq<Shard>, i: nat)
    requires i < AGENT_TOOL_CALLS_MAX
    ensures Own(ss, i) != [] ==> i < Span(ss)
    ensures Span(ss) == i + 1 ==> Own(ss, i) != []
    ensures Span(ss) <= AGENT_TOOL_CALLS_MAX
  {
    if ss != [] {
      SpanBounds(ss[1..], i);
    }
  }

  lemma SpanNotLess(a: seq<Shard>, b: seq<Shard>)
    requires forall i :: 0 <= i < AGENT_TOOL_CALLS_MAX ==> Own(a, i) == Own(b, i)
    ensures Span(a) <= Span(b)
  {
    SpanBounds(a, 0);
    if Span(a) > 0 {
      SpanBounds(a, Span(a) - 1);
      SpanBounds(b, Span(a) - 1);
    }
  }

  /** Two arrival orders that agree on each call give the same round. */
  lemma OrderAcrossCallsDoesNotMatter(a: seq<Shard>, b: seq<Shard>)
    requires forall i :: 0 <= i < AGENT_TOOL_CALLS_MAX ==> Own(a, i) == Own(b, i)
    ensures ApplyAll(Fresh(), a) == ApplyAll(Fresh(), b)
  {
    var x, y := ApplyAll(Fresh(), a), ApplyAll(Fresh(), b);
    forall i | 0 <= i < AGENT_TOOL_CALLS_MAX
      ensures x.calls[i] == y.calls[i]
    {
      RoundIsPerCall(a, i);
      RoundIsPerCall(b, i);
    }
    SpanNotLess(a, b);
    SpanNotLess(b, a);
    RoundIsPerCall(a, 0);
    RoundIsPerCall(b, 0);
    assert x.calls == y.calls;
  }

  // ---- shards as JSON trees --------------------------------------------

  function TreeMember(ms: seq<Member>, key: string): Option<Json> {
    var i := FirstHit(ms, key);
    if i.None? then None else Some(ms[i.value].val)
  }

  function TreeString(ms: seq<Member>, key: string): Option<string> {
    var v := TreeMember(ms, key);
    if v.Some? && v.value.Str? then Some(CStr(v.value.s)) else None
  }

  function TreeShort(ms: seq<Member>, key: string): Option<string> {
    var v := TreeString(ms, key);
    if v.None? then None else Some(Seen(v.value, NAME_BUFFER))
  }

  function TreeIndex(ms: seq<Member>): nat {
    var v := TreeMember(ms, "index");
    if v.Some? && v.value.Num? && Digit(At(v.value.text, 0)) then Number(v.value.text, 0) else 0
  }

  /** What an element says, read off its tree. */
  function TreeShard(ms: seq<Member>): Shard {
    var fn := TreeMember(ms, "function");
    if fn.None? || !fn.value.Obj? then Shard(TreeIndex(ms), TreeShort(ms, "id"), None, None)
    else
      var args := TreeString(fn.value.members, "arguments");
      Shard(TreeIndex(ms), TreeShort(ms, "id"), TreeShort(fn.value.members, "name"),
            if args.None? then None else Some(CStr(args.value)))
  }

  /** Where a member's value starts in printed text, and that a delimiter follows it. */
  lemma MemberText(ms: seq<Member>, key: string, rest: string) returns (tail: string)
    requires Ok(Obj(ms))
    ensures TreeMember(ms, key).None? ==> FindValue(Print(Obj(ms)) + rest, key) == None
    ensures TreeMember(ms, key).Some? ==>
              Ok(TreeMember(ms, key).value) && tail != "" && !Digit(tail[0])
              && FindValue(Print(Obj(ms)) + rest, key) == Some(Print(TreeMember(ms, key).value) + tail)
  {
    FindPrinted(ms, key, rest);
    tail := "";
    if FirstHit(ms, key).Some? {
      var i := FirstHit(ms, key).value;
      var more := if i + 1 < |ms| then "," + PrintMembers(ms[i + 1..]) else "";
      tail := more + "}" + rest;
      Cat4(Print(ms[i].val), more, "}", rest);
      Cat3(more, "}", rest);
    }
  }

  lemma StringAt(v: Json, tail: string)
    requires Ok(v)
    ensures ReadString(Print(v) + tail) == if v.Str? then Some((CStr(v.s), tail)) else None
    ensures At(Print(v) + tail, 0) == '{' <==> v.Obj?
  {
    match v {
      case Str(s) =>
        StringRoundTrip(s, tail);
      case Arr(items) =>
        HeadOf("[", PrintItems(items), "]", tail);
      case Obj(ms) =>
        HeadOf("{", PrintMembers(ms), "}", tail);
      case _ =>
    }
  }

  lemma HeadOf(l: string, body: string, r: string, tail: string)
    requires l != ""
    ensures At(l + body + r + tail, 0) == l[0]
  {
  }

  lemma StringOfTree(ms: seq<Member>, key: string, rest: string)
    requires Ok(Obj(ms))
    ensures StringMember(Print(Obj(ms)) + rest, key) == TreeString(ms, key)
    ensures ShortMember(Print(Obj(ms)) + rest, key) == TreeShort(ms, key)
  {
    var tail := MemberText(ms, key, rest);
    if TreeMember(ms, key).Some? {
      StringAt(TreeMember(ms, key).value, tail);
    }
  }

  lemma {:induction false} NumberEnds(t: string, tail: string, acc: nat)
    requires tail == "" || !Digit(tail[0])
    ensures Number(t + tail, acc) == Number(t, acc)
    decreases |t|
  {
    if t == "" {
      assert t + tail == tail;
    } else if Digit(t[0]) {
      assert (t + tail)[0] == t[0] && (t + tail)[1..] == t[1..] + tail;
      NumberEnds(t[1..], tail, acc * 10 + (t[0] as int - '0' as int));
    }
  }

  lemma DigitAt(v: Json, tail: string)
    requires Ok(v)
    ensures Digit(At(Print(v) + tail, 0)) <==> v.Num? && Digit(At(v.text, 0))
  {
    match v {
      case Str(s) =>
        HeadOf("\"", Escape(s), "\"", tail);
      case Arr(items) =>
        HeadOf("[", PrintItems(items), "]", tail);
      case Obj(ms) =>
        HeadOf("{", PrintMembers(ms), "}", tail);
      case _ =>
    }
  }

  lemma IndexOfTree(ms: seq<Member>, rest: string)
    requires Ok(Obj(ms))
    ensures IndexOf(Print(Obj(ms)) + rest) == TreeIndex(ms)
  {
    var tail := MemberText(ms, "index", rest);
    var v := TreeMember(ms, "index");
    if v.Some? {
      DigitAt(v.value, tail);
      if v.value.Num? {
        NumberEnds(v.value.text, tail, 0);
      }
    }
  }

  /** Reading a printed element without building a tree finds what its tree says. */
  lemma ShardOfTree(ms: seq<Member>, rest: string)
    requires Ok(Obj(ms))
    ensures ShardOf(Print(Obj(ms)) + rest) == TreeShard(ms)
  {
    IndexOfTree(ms, rest);
    StringOfTree(ms, "id", rest);
    var tail := MemberText(ms, "function", rest);
    var fn := TreeMember(ms, "function");
    if fn.Some? {
      StringAt(fn.value, tail);
      if fn.value.Obj? {
        StringOfTree(fn.value.members, "name", tail);
        StringOfTree(fn.value.members, "arguments", tail);
      }
    }
  }

  function TreeShards(items: seq<Json>): seq<Shard>
    requires forall i :: 0 <= i < |items| ==> items[i].Obj?
  {
    if items == [] then [] else [TreeShard(items[0].members)] + TreeShards(items[1..])
  }

  lemma {:induction false} ElementsOfTree(items: seq<Json>, rest: string)
    requires forall i :: 0 <= i < |items| ==> items[i].Obj? && Ok(items[i])
    ensures Elements(PrintItems(items) + "]" + rest) == TreeShards(items)
    ensures Ws(PrintItems(items) + "]" + rest) == PrintItems(items) + "]" + rest
    decreases |items|
  {
    if items == [] {
      assert PrintItems(items) + "]" + rest == "]" + rest;
    } else {
      var after := if |items| == 1 then "]" + rest else "," + (PrintItems(items[1..]) + "]" + rest);
      ItemsSplit(items, rest);
      StringAt(items[0], after);
      ElementOfTree(items[0].members, after);
      if |items| > 1 {
        ElementsOfTree(items[1..], rest);
        assert after[1..] == PrintItems(items[1..]) + "]" + rest;
      }
    }
  }

  /** The first element of a printed array. */
  lemma ElementOfTree(ms: seq<Member>, after: string)
    requires Ok(Obj(ms)) && At(after, 0) in ",]"
    ensures Elements(Print(Obj(ms)) + after)
            == [TreeShard(ms)] + (if after[0] == ',' then Elements(Ws(after[1..])) else [])
  {
    StringAt(Obj(ms), after);
    ShardOfTree(ms, after);
    SkipPrinted(Obj(ms), after);
  }

  lemma ItemsSplit(items: seq<Json>, rest: string)
    requires items != []
    ensures PrintItems(items) + "]" + rest
            == Print(items[0])
               + (if |items| == 1 then "]" + rest else "," + (PrintItems(items[1..]) + "]" + rest))
  {
    if |items| == 1 {
      Cat3(Print(items[0]), "]", rest);
    } else {
      Regroup5(Print(items[0]), ",", PrintItems(items[1..]), "]", rest);
    }
  }

  lemma Regroup5(a: string, b: string, c: string, d: string, e: string)
    ensures a + b + c + d + e == a + (b + (c + d + e))
  {
  }

  /** Feeding a printed `tool_calls` array adds the shards of its trees, in order. */
  lemma ArrayOfTrees(items: seq<Json>, rest: string)
    requires forall i :: 0 <= i < |items| ==> items[i].Obj? && Ok(items[i])
    ensures var tcs := Print(Arr(items)) + rest;
            At(tcs, 0) == '[' && Elements(Ws(tcs[1..])) == TreeShards(items)
  {
    ElementsOfTree(items, rest);
    var body := PrintItems(items) + "]" + rest;
    Unbracket(PrintItems(items), rest);
  }

  lemma Unbracket(body: string, rest: string)
    ensures At("[" + body + "]" + rest, 0) == '[' && ("[" + body + "]" + rest)[1..] == body + "]" + rest
  {
  }

  // ---- what an index is ------------------------------------------------

  lemma {:induction false} NumberSnoc(s: string, c: char, acc: nat)
    requires Digits(s) && Digit(c)
    ensures Number(s + [c], acc) == Number(s, acc) * 10 + (c as int - '0' as int)
    decreases |s|
  {
    var t := s + [c];
    if s == "" {
      assert t == [c] && t[1..] == "";
    } else {
      assert t[0] == s[0] && t[1..] == s[1..] + [c];
      NumberSnoc(s[1..], c, acc * 10 + (s[0] as int - '0' as int));
    }
  }

  lemma {:induction false} NumberIsValue(s: string)
    requires Digits(s)
    ensures Number(s, 0) == Value(s)
    decreases |s|
  {
    if s != "" {
      var n := |s| - 1;
      NumberIsValue(s[..n]);
      assert s == s[..n] + [s[n]];
      NumberSnoc(s[..n], s[n], 0);
    }
  }

  /** An element whose index member is the numeral of `n` belongs to call `n`. */
  lemma IndexReads(ms: seq<Member>, n: nat, rest: string)
    requires Ok(Obj(ms)) && TreeMember(ms, "index") == Some(Num(Dec(n)))
    ensures ShardOf(Print(Obj(ms)) + rest).index == n
  {
    ShardOfTree(ms, rest);
    NumberIsValue(Dec(n));
    DecReads(n);
  }

  /** The first id and name are those of the first shard that has one. */
  lemma {:induction false} FirstIdIsFirst(ss: seq<Shard>, k: nat)
    requires k <= |ss| && forall j :: 0 <= j < k ==> ss[j].id.None?
    ensures k < |ss| && ss[k].id.Some? ==> FirstId(ss) == ss[k].id
    ensures k == |ss| ==> FirstId(ss).None?
    decreases k
  {
    if k > 0 {
      assert forall j :: 0 <= j < k - 1 ==> ss[1..][j] == ss[j + 1];
      FirstIdIsFirst(ss[1..], k - 1);
    }
  }

  lemma {:induction false} FirstNameIsFirst(ss: seq<Shard>, k: nat)
    requires k <= |ss| && forall j :: 0 <= j < k ==> ss[j].name.None?
    ensures k < |ss| && ss[k].name.Some? ==> FirstName(ss) == ss[k].name
    ensures k == |ss| ==> FirstName(ss).None?
    decreases k
  {
    if k > 0 {
      assert forall j :: 0 <= j < k - 1 ==> ss[1..][j] == ss[j + 1];
      FirstNameIsFirst(ss[1..], k - 1);
    }
  }

  /** A call's own shards are exactly those with its index, in arrival order. */
  lemma {:induction false} OwnAppend(a: seq<Shard>, b: seq<Shard>, i: nat)
    ensures Own(a + b, i) == Own(a, i) + Own(b, i)
  {
    if a == [] {
      assert a + b == b;
    } else {
      assert (a + b)[0] == a[0] && (a + b)[1..] == a[1..] + b;
      OwnAppend(a[1..], b, i);
    }
  }

  lemma OwnOne(s: Shard, i: nat)
    ensures Own([s], i) == if s.index == i then [s] else []
  {
    assert [s][1..] == [];
  }
}
