/** The message log of src/agent/agent.c: open JSON text that grows by whole messages. */
module MessageLog {
  import opened CText
  import opened MiniJson
  import opened JsonTree
  import opened StringBuffer
  import opened SessionStore

  /** A completed tool call: `name` and `args` as received, `id` received or made up. */
  datatype Done = Done(id: string, name: string, args: string, result: string)

  // ---- messages as JSON values -----------------------------------------

  function CallTree(d: Done): Json {
    Obj([Member("id", Str(d.id)), Member("type", Str("function")),
         Member("function", Obj([Member("name", Str(d.name)), Member("arguments", Str(d.args))]))])
  }

  function CallTrees(ds: seq<Done>): seq<Json> {
    if ds == [] then [] else [CallTree(ds[0])] + CallTrees(ds[1..])
  }

  function AssistantTree(ds: seq<Done>): Json {
    Obj([Member("role", Str("assistant")), Member("content", Null), Member("tool_calls", Arr(CallTrees(ds)))])
  }

  function ToolTree(d: Done): Json {
    Obj([Member("role", Str("tool")), Member("tool_call_id", Str(d.id)), Member("content", Str(d.result))])
  }

  function ToolTrees(ds: seq<Done>): seq<Json> {
    if ds == [] then [] else [ToolTree(ds[0])] + ToolTrees(ds[1..])
  }

  /** One round: an assistant message with its calls, then a tool message for each of them. */
  function RoundTrees(ds: seq<Done>): seq<Json> {
    [AssistantTree(ds)] + ToolTrees(ds)
  }

  function AllRounds(rounds: seq<seq<Done>>): seq<Json> {
    if rounds == [] then [] else RoundTrees(rounds[0]) + AllRounds(rounds[1..])
  }

  // ---- their text ------------------------------------------------------

  lemma ToolText(d: Done)
    ensures Print(ToolTree(d))
            == Opening("{", "role") + JsonStr("tool") + Opening(",", "tool_call_id") + JsonStr(d.id)
               + Opening(",", "content") + JsonStr(d.result) + "}"
  {
    ObjText3("role", Str("tool"), "tool_call_id", Str(d.id), "content", Str(d.result));
  }

  lemma AssistantText(ds: seq<Done>)
    ensures Print(AssistantTree(ds))
            == Opening("{", "role") + JsonStr("assistant") + Opening(",", "content") + "null"
               + Opening(",", "tool_calls") + ("[" + PrintItems(CallTrees(ds)) + "]") + "}"
  {
    ObjText3("role", Str("assistant"), "content", Null, "tool_calls", Arr(CallTrees(ds)));
  }

  function FunctionText(d: Done): string {
    Opening("{", "name") + JsonStr(d.name) + Opening(",", "arguments") + JsonStr(d.args) + "}"
  }

  lemma CallText(d: Done)
    ensures Print(CallTree(d))
            == Opening("{", "id") + JsonStr(d.id) + Opening(",", "type") + JsonStr("function")
               + Opening(",", "function") + FunctionText(d) + "}"
  {
    var fn := Obj([Member("name", Str(d.name)), Member("arguments", Str(d.args))]);
    ObjText2("name", Str(d.name), "arguments", Str(d.args));
    ObjText3("id", Str(d.id), "type", Str("function"), "function", fn);
  }

  // ---- appending -------------------------------------------------------

  /** `msgs_sep`. */
  method Sep(m: Sbuf)
    requires m.Valid()
    modifies m
    ensures m.Valid() && (old(m.oom) ==> m.oom)
    ensures !m.oom ==> m.all == old(m.all) + (if old(m.all) == "" then "" else ",")
    ensures |m.all| <= |old(m.all)| + 1
  {
    if |m.text| > 0 {
      m.Chr(',');
    }
  }

  /** `{"role":"` role `","content":` text `}`. */
  method AppendText(m: Sbuf, t: Msg)
    requires m.Valid() && PlainKey(t.role)
    modifies m
    ensures m.Valid() && (old(m.oom) ==> m.oom) && m.all == old(m.all) + Print(MsgTree(t))
  {
    m.Mem(Opening("{", "role") + "\"");
    m.Mem(t.role);
    m.Mem("\"" + Opening(",", "content"));
    m.AppendJson(t.content);
    m.Mem("}");
    EscapePlain(t.role);
    MsgText(t);
    Quoted(old(m.all), Opening("{", "role"), "\"", t.role, Opening(",", "content"), JsonStr(t.content), "}");
  }

  lemma Quoted(st: string, a: string, q: string, r: string, b: string, c: string, e: string)
    ensures st + (a + q) + r + (q + b) + c + e == st + (a + (q + r + q) + b + c + e)
  {
  }

  method AppendFunction(m: Sbuf, d: Done)
    requires m.Valid()
    modifies m
    ensures m.Valid() && (old(m.oom) ==> m.oom) && m.all == old(m.all) + FunctionText(d)
  {
    m.Mem(Opening("{", "name"));
    m.AppendJson(d.name);
    m.Mem(Opening(",", "arguments"));
    m.AppendJson(d.args);
    m.Mem("}");
    Cat6(old(m.all), Opening("{", "name"), JsonStr(d.name), Opening(",", "arguments"), JsonStr(d.args), "}");
  }

  /** One call of the assistant message. */
  method AppendCall(m: Sbuf, d: Done)
    requires m.Valid()
    modifies m
    ensures m.Valid() && (old(m.oom) ==> m.oom) && m.all == old(m.all) + Print(CallTree(d))
  {
    m.Mem(Opening("{", "id"));
    m.AppendJson(d.id);
    m.Mem(Opening(",", "type") + JsonStr("function") + Opening(",", "function"));
    AppendFunction(m, d);
    m.Mem("}");
    CallText(d);
    CallPieces(old(m.all), Opening("{", "id"), JsonStr(d.id), Opening(",", "type"), JsonStr("function"),
               Opening(",", "function"), FunctionText(d), "}");
  }

  lemma CallPieces(st: string, a: string, b: string, c: string, d: string, e: string, f: string, z: string)
    ensures st + a + b + (c + d + e) + f + z == st + (a + b + c + d + e + f + z)
  {
  }

  lemma {:induction false} CallTreesSnoc(ds: seq<Done>, d: Done)
    ensures CallTrees(ds + [d]) == CallTrees(ds) + [CallTree(d)] && ToolTrees(ds + [d]) == ToolTrees(ds) + [ToolTree(d)]
  {
    if ds == [] {
      assert ds + [d] == [d];
    } else {
      assert (ds + [d])[0] == ds[0] && (ds + [d])[1..] == ds[1..] + [d];
      CallTreesSnoc(ds[1..], d);
    }
  }

  lemma NextCall(st: string, ds: seq<Done>, i: nat)
    requires i < |ds|
    ensures st + PrintItems(CallTrees(ds[..i])) + (if i == 0 then "" else ",") + Print(CallTree(ds[i]))
            == st + PrintItems(CallTrees(ds[..i + 1]))
  {
    assert ds[..i + 1] == ds[..i] + [ds[i]];
    CallTreesSnoc(ds[..i], ds[i]);
    CallTreesLength(ds[..i]);
    ItemsSnoc(CallTrees(ds[..i]), CallTree(ds[i]));
    Cat4(st, PrintItems(CallTrees(ds[..i])), if i == 0 then "" else ",", Print(CallTree(ds[i])));
    Cat3(PrintItems(CallTrees(ds[..i])), if i == 0 then "" else ",", Print(CallTree(ds[i])));
  }

  lemma {:induction false} CallTreesLength(ds: seq<Done>)
    ensures |CallTrees(ds)| == |ds| && |ToolTrees(ds)| == |ds|
  {
    if ds != [] {
      CallTreesLength(ds[1..]);
    }
  }

  method AppendCalls(m: Sbuf, ds: seq<Done>)
    requires m.Valid()
    modifies m
    ensures m.Valid() && (old(m.oom) ==> m.oom) && m.all == old(m.all) + PrintItems(CallTrees(ds))
  {
    var i := 0;
    assert old(m.all) + PrintItems(CallTrees(ds[..0])) == old(m.all);
    while i < |ds|
      invariant 0 <= i <= |ds| && m.Valid() && (old(m.oom) ==> m.oom)
      invariant m.all == old(m.all) + PrintItems(CallTrees(ds[..i]))
    {
      NextCall(old(m.all), ds, i);
      if i > 0 {
        m.Chr(',');
      }
      AppendCall(m, ds[i]);
      i := i + 1;
    }
    assert ds[..i] == ds;
  }

  /** The text of an array that has not been closed yet. */
  function OpenText(msgs: seq<Json>): string {
    "[" + PrintItems(msgs)
  }

  lemma Closed(msgs: seq<Json>)
    ensures OpenText(msgs) + "]" == Print(Arr(msgs))
  {
  }

  lemma Grown(msgs: seq<Json>, v: Json)
    requires msgs != []
    ensures OpenText(msgs + [v]) == OpenText(msgs) + "," + Print(v)
  {
    ItemsSnoc(msgs, v);
    Cat4("[", PrintItems(msgs), ",", Print(v));
    Cat3(PrintItems(msgs), ",", Print(v));
  }

  /** The buffer holds the open text of `msgs`, unless an allocation has failed. */
  ghost predicate Logs(m: Sbuf, msgs: seq<Json>)
    reads m
  {
    m.Valid() && msgs != [] && |m.all| <= |OpenText(msgs)| && (!m.oom ==> m.all == OpenText(msgs))
  }

  /** An allocation has failed exactly when the log would not fit. */
  lemma LogFits(m: Sbuf, msgs: seq<Json>)
    requires Logs(m, msgs)
    ensures m.oom <==> !m.Fits(|OpenText(msgs)|)
  {
    if m.oom {
      DoubledMonotone(FIRST_CAP, |m.all| + 1, |OpenText(msgs)| + 1);
    } else {
      DoubledMonotone(FIRST_CAP, |m.text| + 1, m.cap);
    }
  }

  /** `msgs_system`. */
  method MsgsSystem(m: Sbuf, prompt: string, extra: string)
    requires m.Valid() && m.all == ""
    modifies m
    ensures Logs(m, [SystemTree(prompt, extra)])
  {
    var sys := prompt;
    if extra != "" {
      sys := sys + "\n\n" + extra;
    }
    m.Chr('[');
    AppendText(m, Msg("system", sys));
  }

  function SystemTree(prompt: string, extra: string): Json {
    MsgTree(Msg("system", if extra == "" then prompt else prompt + "\n\n" + extra))
  }

  /** `msgs_role_text`. */
  method MsgsRoleText(m: Sbuf, t: Msg, ghost msgs: seq<Json>)
    requires Logs(m, msgs) && PlainKey(t.role)
    modifies m
    ensures Logs(m, msgs + [MsgTree(t)])
  {
    Grown(msgs, MsgTree(t));
    Sep(m);
    AppendText(m, t);
  }

  method AppendAssistant(m: Sbuf, ds: seq<Done>)
    requires m.Valid()
    modifies m
    ensures m.Valid() && (old(m.oom) ==> m.oom) && m.all == old(m.all) + Print(AssistantTree(ds))
  {
    m.Mem(Opening("{", "role") + JsonStr("assistant") + Opening(",", "content") + "null"
          + Opening(",", "tool_calls") + "[");
    AppendCalls(m, ds);
    m.Mem("]}");
    AssistantText(ds);
    AssistantPieces(old(m.all), Opening("{", "role") + JsonStr("assistant") + Opening(",", "content") + "null"
                    + Opening(",", "tool_calls"), "[", PrintItems(CallTrees(ds)), "]", "}");
  }

  lemma AssistantPieces(st: string, a: string, o: string, items: string, c: string, e: string)
    ensures st + (a + o) + items + (c + e) == st + (a + (o + items + c) + e)
  {
  }

  method AppendTool(m: Sbuf, d: Done)
    requires m.Valid()
    modifies m
    ensures m.Valid() && (old(m.oom) ==> m.oom) && m.all == old(m.all) + Print(ToolTree(d))
  {
    m.Mem(Opening("{", "role") + JsonStr("tool") + Opening(",", "tool_call_id"));
    m.AppendJson(d.id);
    m.Mem(Opening(",", "content"));
    m.AppendJson(d.result);
    m.Mem("}");
    ToolText(d);
    Cat6(old(m.all), Opening("{", "role") + JsonStr("tool") + Opening(",", "tool_call_id"), JsonStr(d.id),
         Opening(",", "content"), JsonStr(d.result), "}");
  }

  /** `msgs_append_round`. */
  method MsgsAppendRound(m: Sbuf, ds: seq<Done>, ghost msgs: seq<Json>)
    requires Logs(m, msgs)
    modifies m
    ensures Logs(m, msgs + RoundTrees(ds)) && (old(m.oom) ==> m.oom)
  {
    Grown(msgs, AssistantTree(ds));
    Sep(m);
    AppendAssistant(m, ds);
    ghost var log := msgs + [AssistantTree(ds)];
    var i := 0;
    assert log + ToolTrees(ds[..0]) == log;
    while i < |ds|
      invariant 0 <= i <= |ds| && Logs(m, log + ToolTrees(ds[..i])) && (old(m.oom) ==> m.oom)
    {
      NextTool(log, ds, i);
      Grown(log + ToolTrees(ds[..i]), ToolTree(ds[i]));
      Sep(m);
      AppendTool(m, ds[i]);
      i := i + 1;
    }
    assert ds[..i] == ds;
    RoundJoins(msgs, AssistantTree(ds), ToolTrees(ds));
  }

  lemma RoundJoins(msgs: seq<Json>, a: Json, tools: seq<Json>)
    ensures msgs + [a] + tools == msgs + ([a] + tools)
  {
  }

  lemma NextTool(log: seq<Json>, ds: seq<Done>, i: nat)
    requires i < |ds|
    ensures log + ToolTrees(ds[..i]) + [ToolTree(ds[i])] == log + ToolTrees(ds[..i + 1])
  {
    assert ds[..i + 1] == ds[..i] + [ds[i]];
    CallTreesSnoc(ds[..i], ds[i]);
  }

  // ---- the log of a chat -----------------------------------------------

  datatype Chat = Chat(prompt: string, extra: string, history: seq<Msg>, message: string)

  predicate KnownRoles(ts: seq<Msg>) {
    forall i :: 0 <= i < |ts| ==> KnownRole(ts[i].role)
  }

  /** System, history and user message. */
  function Opened(c: Chat): seq<Json> {
    [SystemTree(c.prompt, c.extra)] + MsgTrees(c.history) + [MsgTree(Msg("user", c.message))]
  }

  function Transcript(c: Chat, rounds: seq<seq<Done>>): seq<Json> {
    Opened(c) + AllRounds(rounds)
  }

  lemma NextText(sys: seq<Json>, ts: seq<Msg>, i: nat)
    requires i < |ts|
    ensures sys + MsgTrees(ts[..i]) + [MsgTree(ts[i])] == sys + MsgTrees(ts[..i + 1])
  {
    assert ts[..i + 1] == ts[..i] + [ts[i]];
    MsgTreesSnoc(ts[..i], ts[i]);
  }

  method OpenChat(m: Sbuf, c: Chat)
    requires m.Valid() && m.all == "" && KnownRoles(c.history)
    modifies m
    ensures Logs(m, Opened(c))
  {
    MsgsSystem(m, c.prompt, c.extra);
    ghost var sys := [SystemTree(c.prompt, c.extra)];
    AppendHistory(m, c.history, sys);
    MsgsRoleText(m, Msg("user", c.message), sys + MsgTrees(c.history));
  }

  method AppendHistory(m: Sbuf, ts: seq<Msg>, ghost sys: seq<Json>)
    requires Logs(m, sys) && KnownRoles(ts)
    modifies m
    ensures Logs(m, sys + MsgTrees(ts))
  {
    var i := 0;
    assert sys + MsgTrees(ts[..0]) == sys;
    while i < |ts|
      invariant 0 <= i <= |ts| && Logs(m, sys + MsgTrees(ts[..i]))
    {
      NextText(sys, ts, i);
      MsgsRoleText(m, ts[i], sys + MsgTrees(ts[..i]));
      i := i + 1;
    }
    assert ts[..i] == ts;
  }

  lemma {:induction false} AllRoundsSnoc(rounds: seq<seq<Done>>, ds: seq<Done>)
    ensures AllRounds(rounds + [ds]) == AllRounds(rounds) + RoundTrees(ds)
  {
    if rounds == [] {
      assert rounds + [ds] == [ds] && AllRounds([ds]) == RoundTrees(ds) + AllRounds([]);
    } else {
      assert (rounds + [ds])[0] == rounds[0] && (rounds + [ds])[1..] == rounds[1..] + [ds];
      AllRoundsSnoc(rounds[1..], ds);
    }
  }

  lemma TranscriptSnoc(c: Chat, rounds: seq<seq<Done>>, ds: seq<Done>)
    ensures Transcript(c, rounds + [ds]) == Transcript(c, rounds) + RoundTrees(ds)
  {
    AllRoundsSnoc(rounds, ds);
  }

  // ---- the ids of a round ----------------------------------------------

  function CallIds(vs: seq<Json>): seq<Option<Json>> {
    if vs == [] then [] else [IdIn(vs[0], "id")] + CallIds(vs[1..])
  }

  function ToolIds(vs: seq<Json>): seq<Option<Json>> {
    if vs == [] then [] else [IdIn(vs[0], "tool_call_id")] + ToolIds(vs[1..])
  }

  function IdIn(v: Json, key: string): Option<Json> {
    if v.Obj? then Get(v.members, key) else None
  }

  function Get(ms: seq<Member>, key: string): Option<Json> {
    if ms == [] then None else if ms[0].key == key then Some(ms[0].val) else Get(ms[1..], key)
  }

  /** The tool messages of a round answer its calls one for one, with the same ids in order. */
  lemma {:induction false} SameIds(ds: seq<Done>)
    ensures |CallTrees(ds)| == |ToolTrees(ds)| == |ds|
    ensures CallIds(CallTrees(ds)) == ToolIds(ToolTrees(ds))
  {
    if ds != [] {
      SameIds(ds[1..]);
      IdsOf(ds[0]);
      assert CallTrees(ds)[1..] == CallTrees(ds[1..]) && ToolTrees(ds)[1..] == ToolTrees(ds[1..]);
    }
  }

  lemma IdsOf(d: Done)
    ensures IdIn(CallTree(d), "id") == Some(Str(d.id)) && IdIn(ToolTree(d), "tool_call_id") == Some(Str(d.id))
  {
    var ms := ToolTree(d).members;
    assert |ms[0].key| != |"tool_call_id"| && ms[1..][0].key == "tool_call_id";
    assert Get(ms, "tool_call_id") == Get(ms[1..], "tool_call_id");
  }
}
