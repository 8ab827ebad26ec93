/** What the upstream reads in the bodies that `agent_run_inner` of src/agent/agent.c sends. */
module AgentBodies {
  import opened CText
  import opened Decimal
  import opened MiniJson
  import opened JsonTree
  import opened SessionStore
  import opened MessageLog
  import opened AgentRounds
  import Shards

  // ---- where the messages are ------------------------------------------

  /** How many messages the first `r` rounds take. */
  function Messages(rounds: seq<seq<Done>>, r: nat): nat
    requires r <= |rounds|
  {
    if r == 0 then 0 else Messages(rounds, r - 1) + 1 + |rounds[r - 1]|
  }

  /** The place of the assistant message of round `r`. */
  function Place(c: Chat, rounds: seq<seq<Done>>, r: nat): nat
    requires r <= |rounds|
  {
    2 + |c.history| + Messages(rounds, r)
  }

  lemma {:induction false} MsgTreesAt(ts: seq<Msg>, i: nat)
    requires i < |ts|
    ensures |MsgTrees(ts)| == |ts| && MsgTrees(ts)[i] == MsgTree(ts[i])
  {
    if i > 0 {
      MsgTreesAt(ts[1..], i - 1);
    } else if |ts| > 1 {
      MsgTreesAt(ts[1..], 0);
    }
  }

  lemma {:induction false} ToolTreesAt(ds: seq<Done>, i: nat)
    requires i < |ds|
    ensures |ToolTrees(ds)| == |ds| && ToolTrees(ds)[i] == ToolTree(ds[i])
    ensures |CallTrees(ds)| == |ds| && CallTrees(ds)[i] == CallTree(ds[i])
  {
    CallTreesLength(ds);
    if i > 0 {
      ToolTreesAt(ds[1..], i - 1);
    }
  }

  lemma OpenedAt(c: Chat)
    ensures |Opened(c)| == 2 + |c.history|
    ensures Opened(c)[0] == SystemTree(c.prompt, c.extra)
    ensures forall i :: 0 <= i < |c.history| ==> Opened(c)[1 + i] == MsgTree(c.history[i])
    ensures Opened(c)[1 + |c.history|] == MsgTree(Msg("user", c.message))
  {
    if c.history != [] {
      MsgTreesAt(c.history, 0);
    }
    forall i | 0 <= i < |c.history|
      ensures Opened(c)[1 + i] == MsgTree(c.history[i])
    {
      MsgTreesAt(c.history, i);
    }
  }

  /** The messages of the first `m` rounds, and that those of round `m` follow. */
  lemma {:induction false} FirstRounds(rounds: seq<seq<Done>>, m: nat)
    requires m <= |rounds|
    ensures |AllRounds(rounds[..m])| == Messages(rounds, m)
    ensures m < |rounds| ==> AllRounds(rounds[..m + 1]) == AllRounds(rounds[..m]) + RoundTrees(rounds[m])
    decreases m
  {
    if m < |rounds| {
      assert rounds[..m + 1] == rounds[..m] + [rounds[m]];
      AllRoundsSnoc(rounds[..m], rounds[m]);
    }
    if m > 0 {
      FirstRounds(rounds, m - 1);
      CallTreesLength(rounds[m - 1]);
    }
  }

  lemma {:induction false} RoundsPrefix(rounds: seq<seq<Done>>, m: nat)
    requires m <= |rounds|
    ensures AllRounds(rounds[..m]) <= AllRounds(rounds)
    decreases |rounds| - m
  {
    if m == |rounds| {
      assert rounds[..m] == rounds;
    } else {
      FirstRounds(rounds, m);
      RoundsPrefix(rounds, m + 1);
    }
  }

  lemma RoundsCounted(rounds: seq<seq<Done>>)
    ensures |AllRounds(rounds)| == Messages(rounds, |rounds|)
  {
    FirstRounds(rounds, |rounds|);
    assert rounds[..|rounds|] == rounds;
  }

  /** Message `k` of round `r` among those of all rounds. */
  lemma RoundsAt(rounds: seq<seq<Done>>, r: nat, k: nat)
    requires r < |rounds| && k < |RoundTrees(rounds[r])|
    ensures Messages(rounds, r) + k < |AllRounds(rounds)|
    ensures AllRounds(rounds)[Messages(rounds, r) + k] == RoundTrees(rounds[r])[k]
  {
    FirstRounds(rounds, r);
    RoundsPrefix(rounds, r + 1);
    InPrefix(AllRounds(rounds[..r]), RoundTrees(rounds[r]), AllRounds(rounds), k);
  }

  lemma InPrefix(a: seq<Json>, b: seq<Json>, all: seq<Json>, k: nat)
    requires a + b <= all && k < |b|
    ensures all[|a| + k] == b[k]
  {
    assert all[..|a + b|] == a + b;
  }

  lemma {:induction false} MessagesOf(a: seq<seq<Done>>, b: seq<seq<Done>>, r: nat)
    requires r <= |a| <= |b| && a == b[..|a|]
    ensures Messages(a, r) == Messages(b, r)
  {
    if r > 0 {
      MessagesOf(a, b, r - 1);
      assert a[r - 1] == b[r - 1];
    }
  }

  /** The transcript, message by message. */
  lemma TranscriptAt(c: Chat, rounds: seq<seq<Done>>, r: nat, i: nat)
    requires r < |rounds| && i < |rounds[r]|
    ensures var msgs, p := Transcript(c, rounds), Place(c, rounds, r);
            p + 1 + i < |msgs| && msgs[p] == AssistantTree(rounds[r]) && msgs[p + 1 + i] == ToolTree(rounds[r][i])
  {
    OpenedAt(c);
    ToolTreesAt(rounds[r], i);
    var ts := RoundTrees(rounds[r]);
    assert ts[0] == AssistantTree(rounds[r]) && ts[1 + i] == ToolTree(rounds[r][i]);
    RoundsAt(rounds, r, 0);
    RoundsAt(rounds, r, 1 + i);
  }

  // ---- reading messages ------------------------------------------------

  /** The text at element `k` of an array whose elements start at `p`. */
  function Element(p: string, k: nat): Option<string>
    decreases k
  {
    if k == 0 then Some(p) else
    var next := SkipValue(p);
    if next.None? || At(Ws(next.value), 0) != ',' then None else Element(Ws(Ws(next.value)[1..]), k - 1)
  }

  predicate AllObjects(items: seq<Json>) {
    forall i :: 0 <= i < |items| ==> items[i].Obj? && Ok(items[i])
  }

  /** In a printed array the cursor comes to the printed element. */
  lemma {:induction false} ElementPrinted(items: seq<Json>, k: nat, rest: string) returns (tail: string)
    requires k < |items| && AllObjects(items)
    ensures Element(PrintItems(items) + "]" + rest, k) == Some(Print(items[k]) + tail)
    decreases k
  {
    Shards.ItemsSplit(items, rest);
    if k == 0 {
      tail := if |items| == 1 then "]" + rest else "," + (PrintItems(items[1..]) + "]" + rest);
    } else {
      var more := PrintItems(items[1..]) + "]" + rest;
      SkipPrinted(items[0], "," + more);
      FirstNotBlank(items[1..], rest);
      CommaThen(more);
      tail := ElementPrinted(items[1..], k - 1, rest);
      assert items[1..][k - 1] == items[k];
    }
  }

  lemma CommaThen(more: string)
    ensures Ws("," + more) == "," + more && ("," + more)[1..] == more
  {
  }

  lemma FirstNotBlank(items: seq<Json>, rest: string)
    requires items != [] && items[0].Obj?
    ensures Ws(PrintItems(items) + "]" + rest) == PrintItems(items) + "]" + rest
  {
    Shards.ItemsSplit(items, rest);
    Shards.HeadOf("{", PrintMembers(items[0].members), "}",
                  if |items| == 1 then "]" + rest else "," + (PrintItems(items[1..]) + "]" + rest));
  }

  /** Keys that the reader's key buffer holds. */
  predicate ShortKeys(ms: seq<Member>) {
    forall i :: 0 <= i < |ms| ==> NulFree(ms[i].key) && |ms[i].key| < KEY_BUFFER
  }

  lemma {:induction false} GetIsFound(ms: seq<Member>, key: string)
    requires ShortKeys(ms)
    ensures Shards.TreeMember(ms, key) == Get(ms, key)
    decreases |ms|
  {
    if ms != [] {
      CStrNulFree(ms[0].key);
      assert Hit(ms[0], key) <==> ms[0].key == key;
      if ms[0].key != key {
        assert ShortKeys(ms[1..]);
        GetIsFound(ms[1..], key);
      }
    }
  }

  /** A string member of a printed object, read by the cursor. */
  lemma ReadsString(ms: seq<Member>, key: string, s: string, rest: string)
    requires ShortKeys(ms) && Ok(Obj(ms)) && Get(ms, key) == Some(Str(s))
    ensures Shards.StringMember(Print(Obj(ms)) + rest, key) == Some(CStr(s))
  {
    GetIsFound(ms, key);
    Shards.StringOfTree(ms, key, rest);
  }

  /** Any member of a printed object, found by the cursor. */
  lemma FindsValue(ms: seq<Member>, key: string, v: Json, rest: string) returns (tail: string)
    requires ShortKeys(ms) && Ok(Obj(ms)) && Get(ms, key) == Some(v)
    ensures FindValue(Print(Obj(ms)) + rest, key) == Some(Print(v) + tail)
  {
    GetIsFound(ms, key);
    tail := Shards.MemberText(ms, key, rest);
  }

  lemma Get2(a: Member, b: Member, key: string)
    ensures Get([a, b], key) == if a.key == key then Some(a.val) else if b.key == key then Some(b.val) else None
  {
    assert [a, b][1..] == [b] && [b][1..] == [];
    assert Get([b], key) == if b.key == key then Some(b.val) else Get([], key);
  }

  lemma Get3(a: Member, b: Member, c: Member, key: string)
    ensures Get([a, b, c], key)
            == if a.key == key then Some(a.val) else if b.key == key then Some(b.val)
               else if c.key == key then Some(c.val) else None
  {
    assert [a, b, c][1..] == [b, c];
    Get2(b, c, key);
  }

  // ---- what the messages of a round say --------------------------------

  lemma ToolReads(d: Done)
    ensures var ms := ToolTree(d).members;
            ShortKeys(ms) && Ok(Obj(ms)) && Get(ms, "role") == Some(Str("tool"))
            && Get(ms, "tool_call_id") == Some(Str(d.id)) && Get(ms, "content") == Some(Str(d.result))
  {
    var a, b, c := Member("role", Str("tool")), Member("tool_call_id", Str(d.id)), Member("content", Str(d.result));
    Get3(a, b, c, "role");
    Get3(a, b, c, "tool_call_id");
    Get3(a, b, c, "content");
  }

  lemma {:induction false} CallsOk(ds: seq<Done>)
    ensures AllObjects(CallTrees(ds)) && AllObjects(ToolTrees(ds))
  {
    if ds != [] {
      CallsOk(ds[1..]);
      ToolReads(ds[0]);
      CallReads(ds[0]);
      ConsObjects(CallTree(ds[0]), CallTrees(ds[1..]));
      ConsObjects(ToolTree(ds[0]), ToolTrees(ds[1..]));
    }
  }

  lemma ConsObjects(v: Json, vs: seq<Json>)
    requires v.Obj? && Ok(v) && AllObjects(vs)
    ensures AllObjects([v] + vs)
  {
  }

  lemma AssistantReads(ds: seq<Done>)
    ensures var ms := AssistantTree(ds).members;
            ShortKeys(ms) && Ok(Obj(ms)) && Get(ms, "role") == Some(Str("assistant"))
            && Get(ms, "tool_calls") == Some(Arr(CallTrees(ds)))
  {
    CallsOk(ds);
    var a, b, c := Member("role", Str("assistant")), Member("content", Null), Member("tool_calls", Arr(CallTrees(ds)));
    Get3(a, b, c, "role");
    Get3(a, b, c, "tool_calls");
    assert Ok(c.val);
  }

  function FunctionTree(d: Done): Json {
    Obj([Member("name", Str(d.name)), Member("arguments", Str(d.args))])
  }

  lemma FunctionReads(d: Done)
    ensures var ms := FunctionTree(d).members;
            ShortKeys(ms) && Ok(Obj(ms)) && Get(ms, "name") == Some(Str(d.name))
            && Get(ms, "arguments") == Some(Str(d.args))
  {
    var a, b := Member("name", Str(d.name)), Member("arguments", Str(d.args));
    Get2(a, b, "name");
    Get2(a, b, "arguments");
  }

  lemma CallReads(d: Done)
    ensures CallTree(d).Obj?
    ensures var ms := CallTree(d).members;
            ShortKeys(ms) && Ok(Obj(ms)) && Get(ms, "id") == Some(Str(d.id))
            && Get(ms, "type") == Some(Str("function")) && Get(ms, "function") == Some(FunctionTree(d))
  {
    FunctionReads(d);
    var a, b, c := Member("id", Str(d.id)), Member("type", Str("function")), Member("function", FunctionTree(d));
    Get3(a, b, c, "id");
    Get3(a, b, c, "type");
    Get3(a, b, c, "function");
  }

  lemma TextReads(t: Msg)
    ensures var ms := MsgTree(t).members;
            ShortKeys(ms) && Ok(Obj(ms)) && Get(ms, "role") == Some(Str(t.role))
            && Get(ms, "content") == Some(Str(t.content))
  {
    var a, b := Member("role", Str(t.role)), Member("content", Str(t.content));
    Get2(a, b, "role");
    Get2(a, b, "content");
  }

  lemma {:induction false} TextsOk(ts: seq<Msg>)
    ensures AllObjects(MsgTrees(ts))
  {
    if ts != [] {
      TextsOk(ts[1..]);
      TextReads(ts[0]);
      ConsObjects(MsgTree(ts[0]), MsgTrees(ts[1..]));
    }
  }

  lemma AppendObjects(a: seq<Json>, b: seq<Json>)
    requires AllObjects(a) && AllObjects(b)
    ensures AllObjects(a + b)
  {
  }

  lemma {:induction false} RoundsOk(rounds: seq<seq<Done>>)
    ensures AllObjects(AllRounds(rounds))
  {
    if rounds != [] {
      RoundsOk(rounds[1..]);
      CallsOk(rounds[0]);
      AssistantReads(rounds[0]);
      ConsObjects(AssistantTree(rounds[0]), ToolTrees(rounds[0]));
      AppendObjects(RoundTrees(rounds[0]), AllRounds(rounds[1..]));
    }
  }

  lemma TranscriptOk(c: Chat, rounds: seq<seq<Done>>)
    ensures AllObjects(Transcript(c, rounds))
  {
    TextsOk(c.history);
    TextReads(Msg("user", c.message));
    TextReads(Msg("system", if c.extra == "" then c.prompt else c.prompt + "\n\n" + c.extra));
    AppendObjects([SystemTree(c.prompt, c.extra)], MsgTrees(c.history));
    AppendObjects([SystemTree(c.prompt, c.extra)] + MsgTrees(c.history), [MsgTree(Msg("user", c.message))]);
    RoundsOk(rounds);
    AppendObjects(Opened(c), AllRounds(rounds));
  }

  // ---- what the upstream reads -----------------------------------------

  /** Message `k` of a body. */
  function Message(body: string, k: nat): Option<string> {
    if body == "" then None else Element(body[1..], k)
  }

  lemma MessagePrinted(msgs: seq<Json>, k: nat) returns (tail: string)
    requires k < |msgs| && AllObjects(msgs)
    ensures Message(Print(Arr(msgs)), k) == Some(Print(msgs[k]) + tail)
  {
    Shards.Unbracket(PrintItems(msgs), "");
    assert Print(Arr(msgs)) + "" == Print(Arr(msgs)) && PrintItems(msgs) + "]" + "" == PrintItems(msgs) + "]";
    tail := ElementPrinted(msgs, k, "");
  }

  lemma {:induction false} ElementPast(items: seq<Json>, k: nat, rest: string)
    requires items != [] && AllObjects(items) && k >= |items|
    ensures Element(PrintItems(items) + "]" + rest, k).None?
    decreases |items|
  {
    Shards.ItemsSplit(items, rest);
    if |items| == 1 {
      SkipPrinted(items[0], "]" + rest);
      assert At(Ws("]" + rest), 0) == ']';
    } else {
      var more := PrintItems(items[1..]) + "]" + rest;
      SkipPrinted(items[0], "," + more);
      FirstNotBlank(items[1..], rest);
      CommaThen(more);
      ElementPast(items[1..], k - 1, rest);
    }
  }

  /** How many messages a body holds. */
  lemma BodyCount(c: Chat, done: seq<Turn>, k: nat)
    requires AllComplete(done)
    ensures Message(BodyAfter(c, done), k).Some? <==> k < Place(c, RoundsOf(done), |done|)
  {
    var rounds := RoundsOf(done);
    var msgs := Transcript(c, rounds);
    OpenedAt(c);
    RoundsCounted(rounds);
    TranscriptOk(c, rounds);
    if k < |msgs| {
      var tail := MessagePrinted(msgs, k);
    } else {
      Shards.Unbracket(PrintItems(msgs), "");
      assert Print(Arr(msgs)) + "" == Print(Arr(msgs));
      ElementPast(msgs, k, "");
    }
  }

  /** The text at `p` is a tool message with this id and content. */
  predicate SaysTool(p: string, id: string, content: string) {
    Shards.StringMember(p, "role") == Some("tool") && Shards.StringMember(p, "tool_call_id") == Some(id)
    && Shards.StringMember(p, "content") == Some(content)
  }

  /** The text at `p` is a call with this id, name and arguments. */
  predicate SaysOne(p: string, id: string, name: string, args: string) {
    Shards.StringMember(p, "id") == Some(id) && Shards.StringMember(p, "type") == Some("function")
    && var fn := FindValue(p, "function");
       fn.Some? && Shards.StringMember(fn.value, "name") == Some(name)
       && Shards.StringMember(fn.value, "arguments") == Some(args)
  }

  /** The text at `p` is an assistant message whose call `i` has this id, name and arguments. */
  predicate SaysCall(p: string, i: nat, id: string, name: string, args: string) {
    Shards.StringMember(p, "role") == Some("assistant")
    && var calls := FindValue(p, "tool_calls");
       calls.Some? && ListsCall(calls.value, i, id, name, args)
  }

  /** The text at `p` is an array whose element `i` is a call with this id, name and arguments. */
  predicate ListsCall(p: string, i: nat, id: string, name: string, args: string) {
    At(p, 0) == '['
    && var call := Element(p[1..], i);
       call.Some? && SaysOne(call.value, id, name, args)
  }

  lemma ToolSays(d: Done, tail: string)
    ensures SaysTool(Print(ToolTree(d)) + tail, CStr(d.id), CStr(d.result))
  {
    var ms := ToolTree(d).members;
    ToolReads(d);
    ReadsPlain(ms, "role", "tool", tail);
    ReadsString(ms, "tool_call_id", d.id, tail);
    ReadsString(ms, "content", d.result, tail);
  }

  lemma CallSays(d: Done, tail: string)
    ensures SaysOne(Print(CallTree(d)) + tail, CStr(d.id), CStr(d.name), CStr(d.args))
  {
    CallReads(d);
    MembersSayCall(CallTree(d).members, d, tail);
  }

  lemma MembersSayCall(ms: seq<Member>, d: Done, tail: string)
    requires ShortKeys(ms) && Ok(Obj(ms)) && Get(ms, "id") == Some(Str(d.id))
    requires Get(ms, "type") == Some(Str("function")) && Get(ms, "function") == Some(FunctionTree(d))
    ensures SaysOne(Print(Obj(ms)) + tail, CStr(d.id), CStr(d.name), CStr(d.args))
  {
    ReadsString(ms, "id", d.id, tail);
    ReadsPlain(ms, "type", "function", tail);
    var rest := FindsValue(ms, "function", FunctionTree(d), tail);
    FunctionSays(d, rest);
  }

  lemma FunctionSays(d: Done, rest: string)
    ensures Shards.StringMember(Print(FunctionTree(d)) + rest, "name") == Some(CStr(d.name))
    ensures Shards.StringMember(Print(FunctionTree(d)) + rest, "arguments") == Some(CStr(d.args))
  {
    FunctionReads(d);
    ReadsString(FunctionTree(d).members, "name", d.name, rest);
    ReadsString(FunctionTree(d).members, "arguments", d.args, rest);
  }

  lemma AssistantSays(ds: seq<Done>, i: nat, tail: string)
    requires i < |ds|
    ensures SaysCall(Print(AssistantTree(ds)) + tail, i, CStr(ds[i].id), CStr(ds[i].name), CStr(ds[i].args))
  {
    AssistantReads(ds);
    MembersSayCalls(AssistantTree(ds).members, ds, i, tail);
  }

  lemma MembersSayCalls(ms: seq<Member>, ds: seq<Done>, i: nat, tail: string)
    requires ShortKeys(ms) && Ok(Obj(ms)) && i < |ds|
    requires Get(ms, "role") == Some(Str("assistant")) && Get(ms, "tool_calls") == Some(Arr(CallTrees(ds)))
    ensures SaysCall(Print(Obj(ms)) + tail, i, CStr(ds[i].id), CStr(ds[i].name), CStr(ds[i].args))
  {
    ReadsPlain(ms, "role", "assistant", tail);
    MembersList(ms, "tool_calls", ds, i, tail);
  }

  lemma ReadsPlain(ms: seq<Member>, key: string, s: string, rest: string)
    requires ShortKeys(ms) && Ok(Obj(ms)) && Get(ms, key) == Some(Str(s)) && NulFree(s)
    ensures Shards.StringMember(Print(Obj(ms)) + rest, key) == Some(s)
  {
    ReadsString(ms, key, s, rest);
    CStrNulFree(s);
  }

  lemma MembersList(ms: seq<Member>, key: string, ds: seq<Done>, i: nat, tail: string)
    requires ShortKeys(ms) && Ok(Obj(ms)) && i < |ds| && Get(ms, key) == Some(Arr(CallTrees(ds)))
    ensures var calls := FindValue(Print(Obj(ms)) + tail, key);
            calls.Some? && ListsCall(calls.value, i, CStr(ds[i].id), CStr(ds[i].name), CStr(ds[i].args))
  {
    var rest := FindsValue(ms, key, Arr(CallTrees(ds)), tail);
    ListSays(ds, i, rest);
  }

  lemma ListSays(ds: seq<Done>, i: nat, rest: string)
    requires i < |ds|
    ensures ListsCall(Print(Arr(CallTrees(ds))) + rest, i, CStr(ds[i].id), CStr(ds[i].name), CStr(ds[i].args))
  {
    Shards.Unbracket(PrintItems(CallTrees(ds)), rest);
    CallsOk(ds);
    ToolTreesAt(ds, i);
    var after := ElementPrinted(CallTrees(ds), i, rest);
    CallSays(ds[i], after);
  }

  /** The id of a call: the one received, or one made up from its place. */
  function CallId(c: Shards.Call, i: nat): string {
    if c.id.Some? then CStr(c.id.value) else "call_" + Dec(i)
  }

  /** Message `p` of the body is an assistant message whose call `i` has this id, name and arguments,
      and message `p + 1 + i` answers that id with this content. */
  predicate Tells(body: string, p: nat, i: nat, id: string, name: string, args: string, content: string) {
    var assistant, tool := Message(body, p), Message(body, p + 1 + i);
    assistant.Some? && tool.Some? && SaysCall(assistant.value, i, id, name, args) && SaysTool(tool.value, id, content)
  }

  lemma RoundTells(c: Chat, rounds: seq<seq<Done>>, r: nat, i: nat)
    requires r < |rounds| && i < |rounds[r]|
    ensures var d := rounds[r][i];
            Tells(Print(Arr(Transcript(c, rounds))), Place(c, rounds, r), i,
                  CStr(d.id), CStr(d.name), CStr(d.args), CStr(d.result))
  {
    TranscriptAt(c, rounds, r, i);
    TranscriptOk(c, rounds);
    MessagesTell(Transcript(c, rounds), Place(c, rounds, r), rounds[r], i);
  }

  lemma MessagesTell(msgs: seq<Json>, p: nat, ds: seq<Done>, i: nat)
    requires AllObjects(msgs) && i < |ds| && p + 1 + i < |msgs|
    requires msgs[p] == AssistantTree(ds) && msgs[p + 1 + i] == ToolTree(ds[i])
    ensures Tells(Print(Arr(msgs)), p, i, CStr(ds[i].id), CStr(ds[i].name), CStr(ds[i].args), CStr(ds[i].result))
  {
    var a := MessagePrinted(msgs, p);
    AssistantSays(ds, i, a);
    var b := MessagePrinted(msgs, p + 1 + i);
    ToolSays(ds[i], b);
  }

  /** The body tells at message `p` that this call, the `i`th of its reply, was received and gave `result`:
      the id, name and arguments as they came, and the result, or that there was no output exactly when
      it was empty. */
  predicate TellsCall(body: string, p: nat, i: nat, call: Shards.Call, result: string) {
    Tells(body, p, i, CallId(call, i), if call.name.Some? then CStr(call.name.value) else "?",
          if call.args == "" then "{}" else CStr(call.args),
          if CStr(result) == "" then "(no output)" else CStr(result))
  }

  /** Every body sent after `done` tells all the calls of its rounds. */
  lemma BodyTells(c: Chat, done: seq<Turn>, r: nat, i: nat)
    requires AllComplete(done) && r < |done| && i < |done[r].results|
    ensures TellsCall(BodyAfter(c, done), Place(c, RoundsOf(done), r), i, Final(done[r]).calls[i], done[r].results[i])
  {
    RoundTells(c, RoundsOf(done), r, i);
    AnsweredReads(Final(done[r]).calls[i], i, done[r].results[i]);
  }

  lemma AnsweredReads(call: Shards.Call, i: nat, result: string)
    ensures var d := Answered(call, i, result);
            CStr(d.id) == CallId(call, i)
            && CStr(d.name) == (if call.name.Some? then CStr(call.name.value) else "?")
            && CStr(d.args) == (if call.args == "" then "{}" else CStr(call.args))
            && CStr(d.result) == if CStr(result) == "" then "(no output)" else CStr(result)
  {
    assert NulFree("call_" + Dec(i));
    CStrNulFree("call_" + Dec(i));
    CStrNulFree("?");
    CStrNulFree("{}");
    CStrNulFree("(no output)");
  }

  /** Before the rounds come the system prompt with its addition, the history in order, and the
      message of the user. */
  lemma BodyOpens(c: Chat, done: seq<Turn>, k: nat)
    requires AllComplete(done) && k < 2 + |c.history|
    ensures var m := Message(BodyAfter(c, done), k);
            var t := if k == 0 then Msg("system", if c.extra == "" then c.prompt else c.prompt + "\n\n" + c.extra)
                     else if k <= |c.history| then c.history[k - 1] else Msg("user", c.message);
            m.Some? && Shards.StringMember(m.value, "role") == Some(CStr(t.role))
            && Shards.StringMember(m.value, "content") == Some(CStr(t.content))
  {
    var rounds := RoundsOf(done);
    var msgs := Transcript(c, rounds);
    var t := if k == 0 then Msg("system", if c.extra == "" then c.prompt else c.prompt + "\n\n" + c.extra)
             else if k <= |c.history| then c.history[k - 1] else Msg("user", c.message);
    OpenedAt(c);
    TranscriptOk(c, rounds);
    assert msgs[k] == Opened(c)[k];
    assert 1 <= k <= |c.history| ==> Opened(c)[1 + (k - 1)] == MsgTree(c.history[k - 1]);
    assert msgs[k] == MsgTree(t);
    var tail := MessagePrinted(msgs, k);
    TextReads(t);
    ReadsString(MsgTree(t).members, "role", t.role, tail);
    ReadsString(MsgTree(t).members, "content", t.content, tail);
  }

  /** Every exchange of a run sent the body that belongs to the rounds completed before it. */
  lemma {:induction false} ExchangeIsRound(c: Chat, done: seq<Turn>, k: nat) returns (m: nat)
    requires AllComplete(done) && k < |ExchangesOf(c, done)|
    ensures m < |done| && ExchangesOf(c, done)[k].body == BodyAfter(c, done[..m])
    ensures ExchangesOf(c, done)[k].reply in done[m].replies
    decreases |done|
  {
    var n := |done| - 1;
    var before := ExchangesOf(c, done[..n]);
    if k < |before| {
      m := ExchangeIsRound(c, done[..n], k);
      assert done[..n][..m] == done[..m];
    } else {
      m := n;
      assert Sent(BodyAfter(c, done[..n]), done[n].replies)[k - |before|]
             == Exchange(BodyAfter(c, done[..n]), done[n].replies[k - |before|]);
    }
  }

  // ---- over a whole run ------------------------------------------------

  /** How many calls the first `r` rounds ran. */
  function CallsIn(done: seq<Turn>, r: nat): nat
    requires r <= |done|
  {
    if r == 0 then 0 else CallsIn(done, r - 1) + |done[r - 1].results|
  }

  lemma {:induction false} CallsInPrefix(done: seq<Turn>, n: nat, r: nat)
    requires r <= n <= |done|
    ensures CallsIn(done[..n], r) == CallsIn(done, r)
  {
    if r > 0 {
      CallsInPrefix(done, n, r - 1);
    }
  }

  /** Run `i` of round `r` in the list of everything that was run. */
  lemma {:induction false} RunsAt(done: seq<Turn>, r: nat, i: nat)
    requires AllComplete(done) && r < |done| && i < |done[r].results|
    ensures |RunsOf(done)| == CallsIn(done, |done|) && CallsIn(done, r) + i < |RunsOf(done)|
    ensures var call := Final(done[r]).calls[i];
            RunsOf(done)[CallsIn(done, r) + i]
            == ToolRun(if call.name.Some? then call.name.value else "?", call.args, done[r].results[i])
    decreases |done|
  {
    var n := |done| - 1;
    RunsCount(done);
    RunsCount(done[..n]);
    CallsInPrefix(done, n, n);
    var before, ran := RunsOf(done[..n]), Ran(Final(done[n]).calls, done[n].results);
    if r < n {
      RunsAt(done[..n], r, i);
      CallsInPrefix(done, n, r);
      Joint(before, ran, CallsIn(done, r) + i);
    } else {
      LastRuns(Final(done[n]).calls, done[n].results, i);
      Joint(before, ran, |before| + i);
    }
  }

  lemma Joint(a: seq<ToolRun>, b: seq<ToolRun>, i: nat)
    requires i < |a + b|
    ensures (a + b)[i] == if i < |a| then a[i] else b[i - |a|]
  {
  }

  lemma LastRuns(calls: seq<Shards.Call>, results: seq<string>, i: nat)
    requires i < |results| <= |calls|
    ensures Ran(calls, results)[i]
            == ToolRun(if calls[i].name.Some? then calls[i].name.value else "?", calls[i].args, results[i])
  {
  }

  lemma {:induction false} RunsCount(done: seq<Turn>)
    requires AllComplete(done)
    ensures |RunsOf(done)| == CallsIn(done, |done|)
    decreases |done|
  {
    if done != [] {
      var n := |done| - 1;
      RunsCount(done[..n]);
      CallsInPrefix(done, n, n);
    }
  }

  /** The body tells call `i` of round `r` with the result of its run. */
  ghost predicate TellsRun(c: Chat, body: string, done: seq<Turn>, runs: seq<ToolRun>, r: nat, i: nat)
    requires AllComplete(done) && r < |done| && i < |done[r].results|
  {
    var j := CallsIn(done, r) + i;
    j < |runs| && TellsCall(body, Place(c, RoundsOf(done), r), i, Final(done[r]).calls[i], runs[j].result)
  }

  /** Every exchange of a conversation sent the body that belongs to the rounds before it, and that
      body tells each call of each of those rounds with the result its run gave. */
  lemma ExchangeTells(c: Chat, maxRounds: nat, gateway: bool, done: seq<Turn>, last: Option<Turn>,
                      exchanges: seq<Exchange>, runs: seq<ToolRun>, gone: bool, k: nat)
    returns (m: nat)
    requires Conversation(c, maxRounds, gateway, done, last, exchanges, runs, gone, false) && k < |exchanges|
    ensures m <= |done| && exchanges[k].body == BodyAfter(c, done[..m])
    ensures if m < |done| then exchanges[k].reply in done[m].replies
            else last.Some? && exchanges[k].reply in last.value.replies
    ensures forall r, i :: 0 <= r < m && 0 <= i < |done[r].results| ==>
              TellsRun(c, exchanges[k].body, done, runs, r, i)
  {
    m := ExchangePlace(c, maxRounds, gateway, done, last, exchanges, runs, gone, k);
    forall r, i | 0 <= r < m && 0 <= i < |done[r].results|
      ensures TellsRun(c, exchanges[k].body, done, runs, r, i)
    {
      PrefixTells(c, done, m, runs, r, i);
    }
  }

  lemma ExchangePlace(c: Chat, maxRounds: nat, gateway: bool, done: seq<Turn>, last: Option<Turn>,
                      exchanges: seq<Exchange>, runs: seq<ToolRun>, gone: bool, k: nat)
    returns (m: nat)
    requires Conversation(c, maxRounds, gateway, done, last, exchanges, runs, gone, false) && k < |exchanges|
    ensures RunsOf(done) <= runs
    ensures m <= |done| && exchanges[k].body == BodyAfter(c, done[..m])
    ensures if m < |done| then exchanges[k].reply in done[m].replies
            else last.Some? && exchanges[k].reply in last.value.replies
  {
    if k < |ExchangesOf(c, done)| {
      m := ExchangeIsRound(c, done, k);
    } else {
      m := |done|;
      assert done[..m] == done;
      var t := last.value;
      assert exchanges[k] == Sent(BodyAfter(c, done), t.replies)[k - |ExchangesOf(c, done)|];
    }
  }

  lemma PrefixTells(c: Chat, done: seq<Turn>, m: nat, runs: seq<ToolRun>, r: nat, i: nat)
    requires AllComplete(done) && RunsOf(done) <= runs
    requires r < m <= |done| && i < |done[r].results|
    ensures TellsRun(c, BodyAfter(c, done[..m]), done, runs, r, i)
  {
    BodyTells(c, done[..m], r, i);
    RunsAt(done, r, i);
    PlaceInPrefix(c, done, m, r);
  }

  lemma PlaceInPrefix(c: Chat, done: seq<Turn>, m: nat, r: nat)
    requires AllComplete(done) && r < m <= |done|
    ensures AllComplete(done[..m]) && Place(c, RoundsOf(done[..m]), r) == Place(c, RoundsOf(done), r)
  {
    assert RoundsOf(done[..m]) == RoundsOf(done)[..m];
    MessagesOf(RoundsOf(done[..m]), RoundsOf(done), r);
  }

  /** Two calls without ids never get the same one. */
  lemma MadeUpIdsDiffer(a: Shards.Call, b: Shards.Call, i: nat, j: nat)
    requires a.id.None? && b.id.None? && i != j
    ensures CallId(a, i) != CallId(b, j)
  {
    if CallId(a, i) == CallId(b, j) {
      assert ("call_" + Dec(i))[5..] == Dec(i) && ("call_" + Dec(j))[5..] == Dec(j);
      DecDiffers(i, j);
    }
  }

  // ---- which calls count as repeats ------------------------------------

  /** The name of a tool, without the bracket that ends it in a signature, and short enough to show. */
  predicate ToolName(name: string) {
    '(' !in name && |name| < EXEC_SIG_LEN - 1
  }

  /** Two calls look the same exactly when their names agree and so does what the buffer holds of
      their arguments. */
  lemma SameSignature(n1: string, a1: string, n2: string, a2: string)
    requires ToolName(n1) && ToolName(n2)
    ensures Signature(n1, a1) == Signature(n2, a2)
            <==> n1 == n2 && Take(a1 + ")", EXEC_SIG_LEN - 2 - |n1|) == Take(a2 + ")", EXEC_SIG_LEN - 2 - |n1|)
  {
    SignatureParts(n1, a1);
    SignatureParts(n2, a2);
    var s1, s2 := Signature(n1, a1), Signature(n2, a2);
    if s1 == s2 {
      BracketAfterName(n1, s1[|n1|..]);
      BracketAfterName(n2, s2[|n2|..]);
      assert s1 == n1 + s1[|n1|..] && s2 == n2 + s2[|n2|..];
      assert s1[..|n1|] == n1 && s2[..|n2|] == n2;
      assert s1[|n1| + 1..] == s2[|n1| + 1..];
    }
  }

  function UntilBracket(s: string): nat {
    if s == "" || s[0] == '(' then 0 else 1 + UntilBracket(s[1..])
  }

  lemma {:induction false} BracketAfterName(name: string, rest: string)
    requires '(' !in name && At(rest, 0) == '('
    ensures UntilBracket(name + rest) == |name|
  {
    if name == "" {
      assert name + rest == rest;
    } else {
      assert (name + rest)[1..] == name[1..] + rest;
      BracketAfterName(name[1..], rest);
    }
  }

  lemma SignatureParts(name: string, args: string)
    requires ToolName(name)
    ensures var t := Take(args + ")", EXEC_SIG_LEN - 2 - |name|);
            var s := Signature(name, args);
            s == name + "(" + t && s[..|name|] == name && s[|name|] == '(' && s[|name| + 1..] == t
  {
    assert name + "(" + args + ")" == name + "(" + (args + ")");
  }

  /** Calls that fit look the same only when they are the same. */
  lemma FittingCallsDiffer(n1: string, a1: string, n2: string, a2: string)
    requires ToolName(n1) && ToolName(n2)
    requires |n1| + |a1| + 2 < EXEC_SIG_LEN && |n2| + |a2| + 2 < EXEC_SIG_LEN
    ensures Signature(n1, a1) == Signature(n2, a2) <==> n1 == n2 && a1 == a2
  {
    SameSignature(n1, a1, n2, a2);
    if n1 == n2 && a1 + ")" == a2 + ")" {
      assert (a1 + ")")[..|a1 + ")"| - 1] == a1 && (a2 + ")")[..|a2 + ")"| - 1] == a2;
    }
  }

  /** Longer calls that differ past the buffer are taken for one another. */
  lemma LongCallsCollide(name: string, args: string, a: string, b: string)
    requires |name| + 1 + |args| >= EXEC_SIG_LEN - 1
    ensures Signature(name, args + a) == Signature(name, args + b)
  {
    var p := name + "(" + args;
    assert name + "(" + (args + a) + ")" == p + (a + ")");
    assert name + "(" + (args + b) + ")" == p + (b + ")");
  }

  predicate Fits(name: string, args: string) {
    ToolName(name) && |name| + |args| + 2 < EXEC_SIG_LEN
  }

  /** The call was run before, and is remembered. */
  predicate RanBefore(call: Shards.Call, runs: seq<ToolRun>) {
    exists j :: 0 <= j < |runs| && j < EXEC_SIG_MAX && runs[j].args == call.args
                && runs[j].name == if call.name.Some? then call.name.value else "?"
  }

  /** A reply counts as a repeat exactly when it brought text and each of its calls is, in name and
      arguments, one of the first EXEC_SIG_MAX calls that were run. */
  lemma RepeatMeans(r: Reply, runs: seq<ToolRun>)
    requires forall i :: 0 <= i < |r.calls| ==> Fits(NameOf(r.calls[i]), r.calls[i].args)
    requires forall j :: 0 <= j < |runs| ==> Fits(runs[j].name, runs[j].args)
    ensures Repeats(r, Remembered(runs))
            <==> r.sawContent && r.calls != [] && forall i :: 0 <= i < |r.calls| ==> RanBefore(r.calls[i], runs)
  {
    forall i | 0 <= i < |r.calls|
      ensures Signature(NameOf(r.calls[i]), r.calls[i].args) in Remembered(runs) <==> RanBefore(r.calls[i], runs)
    {
      SeenMeans(r.calls[i], runs);
    }
  }

  lemma SeenMeans(call: Shards.Call, runs: seq<ToolRun>)
    requires Fits(NameOf(call), call.args)
    requires forall j :: 0 <= j < |runs| ==> Fits(runs[j].name, runs[j].args)
    ensures Signature(NameOf(call), call.args) in Remembered(runs) <==> RanBefore(call, runs)
  {
    forall j | 0 <= j < |runs|
      ensures Signature(runs[j].name, runs[j].args) == Signature(NameOf(call), call.args)
              <==> runs[j].name == NameOf(call) && runs[j].args == call.args
    {
      FittingCallsDiffer(runs[j].name, runs[j].args, NameOf(call), call.args);
    }
    assert forall j :: 0 <= j < |Remembered(runs)| ==> Remembered(runs)[j] == Signature(runs[j].name, runs[j].args);
  }
}
