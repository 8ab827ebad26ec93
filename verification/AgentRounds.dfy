/** The round and retry loops of `agent_run_inner` in src/agent/agent.c. */
module AgentRounds {
  import opened CText
  import opened Decimal
  import opened JsonTree
  import opened StringBuffer
  import opened MessageLog
  import Shards

  const ATTEMPTS: nat := 3
  const EXEC_SIG_MAX: nat := 64
  const EXEC_SIG_LEN: nat := 512

  /** What an attempt brings back: failed attempts may be worth repeating. */
  datatype Reply = Reply(ok: bool, retry: bool, sawContent: bool, calls: seq<Shards.Call>)

  datatype Exchange = Exchange(body: string, reply: Reply)

  datatype ToolRun = ToolRun(name: string, args: string, result: string)

  /** The upstream, the tools and the client. Only these methods record that something was sent or
      run, and any reply, result or departure can come back from them. */
  class World {
    ghost var exchanges: seq<Exchange>
    ghost var runs: seq<ToolRun>
    var gone: bool

    constructor ()
      ensures exchanges == [] && runs == []
    {
      exchanges, runs, gone := [], [], false;
    }

    method Upstream(body: string) returns (r: Reply)
      modifies this
      ensures exchanges == old(exchanges) + [Exchange(body, r)] && runs == old(runs) && (old(gone) ==> gone)
      ensures |r.calls| <= Shards.AGENT_TOOL_CALLS_MAX
    {
      var any: Reply := *;
      r := if |any.calls| <= Shards.AGENT_TOOL_CALLS_MAX then any else any.(calls := []);
      exchanges := exchanges + [Exchange(body, r)];
    }

    method Dispatch(name: string, args: string) returns (result: string)
      modifies this
      ensures runs == old(runs) + [ToolRun(name, args, result)] && exchanges == old(exchanges) && (old(gone) ==> gone)
    {
      result := *;
      runs := runs + [ToolRun(name, args, result)];
    }

    method ClientThere() returns (there: bool)
      modifies this`gone
      ensures there == !gone && (old(gone) ==> gone)
    {
      var leaves: bool := *;
      gone := gone || leaves;
      return !gone;
    }
  }

  // ---- what a run looks like -------------------------------------------

  /** One round: the replies to its attempts, and the results of the calls that were run. */
  datatype Turn = Turn(replies: seq<Reply>, results: seq<string>)

  /** All but the last attempt failed in a way worth repeating, and the last is where trying ends. */
  predicate RetriesOk(rs: seq<Reply>) {
    1 <= |rs| <= ATTEMPTS
    && (forall i :: 0 <= i < |rs| - 1 ==> !rs[i].ok && rs[i].retry)
    && var last := rs[|rs| - 1];
       (last.ok || !last.retry || |rs| == ATTEMPTS)
  }

  function Final(t: Turn): Reply
    requires t.replies != []
  {
    t.replies[|t.replies| - 1]
  }

  function NameOf(c: Shards.Call): string {
    if c.name.Some? then c.name.value else "?"
  }

  function IdOf(c: Shards.Call, i: nat): string {
    if c.id.Some? then c.id.value else "call_" + Dec(i)
  }

  /** A call as it goes into the log with its result, a C string. */
  function Answered(c: Shards.Call, i: nat, result: string): Done {
    Done(IdOf(c, i), NameOf(c), if c.args == "" then "{}" else c.args,
         if At(result, 0) == '\0' then "(no output)" else result)
  }

  function Answers(calls: seq<Shards.Call>, results: seq<string>): seq<Done>
    requires |results| == |calls|
  {
    seq(|calls|, i requires 0 <= i < |calls| => Answered(calls[i], i, results[i]))
  }

  /** The runs of the first calls. */
  function Ran(calls: seq<Shards.Call>, results: seq<string>): seq<ToolRun>
    requires |results| <= |calls|
  {
    seq(|results|, i requires 0 <= i < |results| => ToolRun(NameOf(calls[i]), calls[i].args, results[i]))
  }

  function Signature(name: string, args: string): string {
    Take(name + "(" + args + ")", EXEC_SIG_LEN - 1)
  }

  /** The signatures remembered of the tools run so far. */
  function Remembered(runs: seq<ToolRun>): seq<string> {
    seq(Min(|runs|, EXEC_SIG_MAX), i requires 0 <= i < Min(|runs|, EXEC_SIG_MAX) =>
          Signature(runs[i].name, runs[i].args))
  }

  /** An answer whose calls have all been run before. */
  predicate Repeats(r: Reply, seen: seq<string>) {
    r.sawContent && r.calls != []
    && forall i :: 0 <= i < |r.calls| ==> Signature(NameOf(r.calls[i]), r.calls[i].args) in seen
  }

  /** The calls of this reply are run. */
  predicate Proceeds(r: Reply, runs: seq<ToolRun>, gateway: bool) {
    r.ok && !Repeats(r, Remembered(runs)) && r.calls != [] && !gateway
  }

  predicate Complete(t: Turn) {
    RetriesOk(t.replies) && |t.results| == |Final(t).calls|
  }

  predicate AllComplete(done: seq<Turn>) {
    forall r :: 0 <= r < |done| ==> Complete(done[r])
  }

  function RunsOf(done: seq<Turn>): seq<ToolRun>
    requires AllComplete(done)
  {
    if done == [] then [] else
    var n := |done| - 1;
    RunsOf(done[..n]) + Ran(Final(done[n]).calls, done[n].results)
  }

  function RoundsOf(done: seq<Turn>): seq<seq<Done>>
    requires AllComplete(done)
  {
    seq(|done|, r requires 0 <= r < |done| => Answers(Final(done[r]).calls, done[r].results))
  }

  /** What is sent upstream after the rounds `done`. */
  function BodyAfter(c: Chat, done: seq<Turn>): string
    requires AllComplete(done)
  {
    Print(Arr(Transcript(c, RoundsOf(done))))
  }

  function Sent(body: string, rs: seq<Reply>): seq<Exchange> {
    seq(|rs|, i requires 0 <= i < |rs| => Exchange(body, rs[i]))
  }

  function ExchangesOf(c: Chat, done: seq<Turn>): seq<Exchange>
    requires AllComplete(done)
  {
    if done == [] then [] else
    var n := |done| - 1;
    ExchangesOf(c, done[..n]) + Sent(BodyAfter(c, done[..n]), done[n].replies)
  }

  /** Every completed round was one whose calls were to be run. */
  predicate Proper(done: seq<Turn>, gateway: bool) {
    AllComplete(done) && forall r :: 0 <= r < |done| ==> Proceeds(Final(done[r]), RunsOf(done[..r]), gateway)
  }

  /** A last round that was not completed: its reply was not to be acted on, or the client left. */
  predicate Unfinished(t: Turn, runs: seq<ToolRun>, gateway: bool, gone: bool) {
    RetriesOk(t.replies) && |t.results| <= |Final(t).calls|
    && if Proceeds(Final(t), runs, gateway) then gone else t.results == []
  }

  /** The whole conversation: what was run, what was sent, and why it ended. */
  ghost predicate Conversation(c: Chat, maxRounds: nat, gateway: bool, done: seq<Turn>, last: Option<Turn>,
                               exchanges: seq<Exchange>, runs: seq<ToolRun>, gone: bool, oom: bool) {
    Proper(done, gateway)
    && match last
       case None =>
         |done| <= maxRounds && (|done| == maxRounds || gone) && runs == RunsOf(done)
         && (!oom ==> exchanges == ExchangesOf(c, done))
       case Some(t) => |done| < maxRounds && EndsWith(c, gateway, done, t, exchanges, runs, gone, oom)
  }

  // ---- the loops -------------------------------------------------------

  /** Up to ATTEMPTS tries with the same messages. */
  method TryRound(w: World, m: Sbuf) returns (r: Reply, ghost replies: seq<Reply>)
    requires m.Valid()
    modifies w
    ensures RetriesOk(replies) && r == replies[|replies| - 1] && |r.calls| <= Shards.AGENT_TOOL_CALLS_MAX
    ensures w.exchanges == old(w.exchanges) + Sent(m.text + "]", replies)
    ensures w.runs == old(w.runs) && (old(w.gone) ==> w.gone)
  {
    var body := m.text + "]";
    replies := [];
    var attempt := 1;
    assert Sent(body, []) == [];
    while true
      invariant 1 <= attempt <= ATTEMPTS && |replies| == attempt - 1
      invariant forall i :: 0 <= i < |replies| ==> !replies[i].ok && replies[i].retry
      invariant w.exchanges == old(w.exchanges) + Sent(body, replies)
      invariant w.runs == old(w.runs) && (old(w.gone) ==> w.gone)
      decreases ATTEMPTS - attempt
    {
      r := w.Upstream(body);
      SentSnoc(body, replies, r);
      replies := replies + [r];
      if r.ok || !r.retry || attempt == ATTEMPTS {
        return;
      }
      attempt := attempt + 1;
    }
  }

  lemma SentSnoc(body: string, rs: seq<Reply>, r: Reply)
    ensures Sent(body, rs + [r]) == Sent(body, rs) + [Exchange(body, r)]
  {
  }

  /** Run the calls in order while the client is there. */
  method RunCalls(w: World, calls: seq<Shards.Call>) returns (results: seq<string>)
    modifies w
    ensures |results| <= |calls| && w.runs == old(w.runs) + Ran(calls, results)
    ensures w.exchanges == old(w.exchanges) && (old(w.gone) ==> w.gone) && (|results| < |calls| ==> w.gone)
  {
    results := [];
    assert Ran(calls, []) == [];
    while |results| < |calls|
      invariant |results| <= |calls| && w.runs == old(w.runs) + Ran(calls, results)
      invariant w.exchanges == old(w.exchanges) && (old(w.gone) ==> w.gone)
      decreases |calls| - |results|
    {
      var there := w.ClientThere();
      if !there {
        return;
      }
      var c := calls[|results|];
      var result := w.Dispatch(NameOf(c), c.args);
      RanSnoc(calls, results, result);
      results := results + [result];
    }
  }

  lemma RanSnoc(calls: seq<Shards.Call>, results: seq<string>, result: string)
    requires |results| < |calls|
    ensures var c := calls[|results|];
            Ran(calls, results + [result]) == Ran(calls, results) + [ToolRun(NameOf(c), c.args, result)]
  {
  }

  /** Remember the signatures of calls, up to EXEC_SIG_MAX of them. */
  method Record(sigs: seq<string>, calls: seq<Shards.Call>, results: seq<string>, ghost runs: seq<ToolRun>)
    returns (sigs': seq<string>)
    requires sigs == Remembered(runs) && |results| <= |calls|
    ensures sigs' == Remembered(runs + Ran(calls, results))
  {
    sigs' := sigs;
    var i := 0;
    assert runs + Ran(calls, results[..0]) == runs;
    while i < |results|
      invariant 0 <= i <= |results| && sigs' == Remembered(runs + Ran(calls, results[..i]))
    {
      ghost var run := ToolRun(NameOf(calls[i]), calls[i].args, results[i]);
      assert results[..i + 1] == results[..i] + [results[i]];
      RanSnoc(calls, results[..i], results[i]);
      RememberSnoc(runs + Ran(calls, results[..i]), run);
      assert runs + Ran(calls, results[..i]) + [run] == runs + Ran(calls, results[..i + 1]);
      if |sigs'| < EXEC_SIG_MAX {
        sigs' := sigs' + [Signature(NameOf(calls[i]), calls[i].args)];
      }
      i := i + 1;
    }
    assert results[..i] == results;
  }

  lemma RememberSnoc(runs: seq<ToolRun>, run: ToolRun)
    ensures Remembered(runs + [run])
            == if |runs| < EXEC_SIG_MAX then Remembered(runs) + [Signature(run.name, run.args)] else Remembered(runs)
  {
  }

  /** The state between two rounds. */
  ghost predicate Between(c: Chat, gateway: bool, done: seq<Turn>, w: World, m: Sbuf)
    reads w, m
  {
    Proper(done, gateway) && w.runs == RunsOf(done) && Logs(m, Transcript(c, RoundsOf(done)))
    && (!m.oom ==> w.exchanges == ExchangesOf(c, done))
  }

  /** `agent_run_inner`. Every body sent upstream is the printed system, history and user messages
      followed by exactly the rounds completed before it; a completed round is the reply that was
      received, with the results its calls were given when they were run; a failed attempt changes
      nothing. This holds unless an allocation failed, which happens exactly when the log does not
      fit. */
  method AgentRun(w: World, c: Chat, maxRounds: nat, gateway: bool, limit: nat)
    returns (oom: bool, ghost done: seq<Turn>, ghost last: Option<Turn>)
    requires w.exchanges == [] && w.runs == [] && KnownRoles(c.history)
    modifies w
    ensures Conversation(c, maxRounds, gateway, done, last, w.exchanges, w.runs, w.gone, oom)
    ensures oom <==> Doubled(FIRST_CAP, |OpenText(Transcript(c, RoundsOf(done)))| + 1) > limit
  {
    var m := new Sbuf(limit);
    OpenChat(m, c);
    NothingDone(c);
    done, last := RunRounds(w, m, c, maxRounds, gateway);
    LogFits(m, Transcript(c, RoundsOf(done)));
    oom := m.oom;
  }

  /** The loop over the rounds. */
  method RunRounds(w: World, m: Sbuf, c: Chat, maxRounds: nat, gateway: bool)
    returns (ghost done: seq<Turn>, ghost last: Option<Turn>)
    requires Between(c, gateway, [], w, m)
    modifies w, m
    ensures Conversation(c, maxRounds, gateway, done, last, w.exchanges, w.runs, w.gone, m.oom)
    ensures Logs(m, Transcript(c, RoundsOf(done)))
  {
    done, last := [], None;
    var round, sigs := 0, [];
    NothingDone(c);
    while round < maxRounds
      invariant round == |done| <= maxRounds && sigs == Remembered(w.runs)
      invariant Between(c, gateway, done, w, m)
      decreases maxRounds - round
    {
      var next;
      next, done, last := TakeTurn(w, m, c, maxRounds, gateway, sigs, done);
      if next.None? {
        return;
      }
      round, sigs := round + 1, next.value;
    }
    last := None;
    Concluded(c, maxRounds, gateway, done, w.exchanges, w.runs, w.gone, m.oom);
  }

  /** One turn of the loop: nothing when the client has left or the round was the last. */
  method TakeTurn(w: World, m: Sbuf, c: Chat, maxRounds: nat, gateway: bool, sigs: seq<string>, ghost done: seq<Turn>)
    returns (next: Option<seq<string>>, ghost done': seq<Turn>, ghost last: Option<Turn>)
    requires Between(c, gateway, done, w, m) && sigs == Remembered(w.runs) && |done| < maxRounds
    modifies w, m
    ensures next.Some? ==>
              Between(c, gateway, done', w, m) && |done'| == |done| + 1 && next.value == Remembered(w.runs)
    ensures next.None? ==>
              Conversation(c, maxRounds, gateway, done', last, w.exchanges, w.runs, w.gone, m.oom)
              && Logs(m, Transcript(c, RoundsOf(done')))
  {
    done', last := done, None;
    var there := w.ClientThere();
    if !there {
      Concluded(c, maxRounds, gateway, done, w.exchanges, w.runs, w.gone, m.oom);
      return None, done', last;
    }
    ghost var t;
    next, t := DoRound(w, m, c, gateway, sigs, done);
    if next.None? {
      last := Some(t);
    } else {
      done' := done + [t];
    }
  }

  lemma Concluded(c: Chat, maxRounds: nat, gateway: bool, done: seq<Turn>, exchanges: seq<Exchange>,
                  runs: seq<ToolRun>, gone: bool, oom: bool)
    requires Proper(done, gateway) && |done| <= maxRounds && (|done| == maxRounds || gone) && runs == RunsOf(done)
    requires !oom ==> exchanges == ExchangesOf(c, done)
    ensures Conversation(c, maxRounds, gateway, done, None, exchanges, runs, gone, oom)
  {
  }

  lemma NothingDone(c: Chat)
    ensures RoundsOf([]) == [] && Transcript(c, []) == Opened(c) && Remembered([]) == []
  {
  }

  /** One round; None when it was the last. */
  method DoRound(w: World, m: Sbuf, c: Chat, gateway: bool, sigs: seq<string>, ghost done: seq<Turn>)
    returns (next: Option<seq<string>>, ghost t: Turn)
    requires Between(c, gateway, done, w, m) && sigs == Remembered(w.runs)
    modifies w, m
    ensures next.Some? ==> Between(c, gateway, done + [t], w, m) && next.value == Remembered(w.runs)
    ensures next.None? ==> Logs(m, Transcript(c, RoundsOf(done))) && m.oom == old(m.oom)
    ensures next.None? ==> EndsWith(c, gateway, done, t, w.exchanges, w.runs, w.gone, m.oom)
  {
    BodyNow(c, done, m);
    var r, replies := TryRound(w, m);
    var repeats := AllRepeat(r, sigs);
    var there := w.ClientThere();
    if !r.ok || repeats || !there || r.calls == [] || gateway {
      EndsHere(c, gateway, done, replies, w.exchanges, w.runs, w.gone, m.oom);
      return None, Turn(replies, []);
    }
    next, t := ActOn(w, m, c, gateway, sigs, r, done, replies);
  }

  lemma EndsHere(c: Chat, gateway: bool, done: seq<Turn>, replies: seq<Reply>, exchanges: seq<Exchange>,
                 runs: seq<ToolRun>, gone: bool, oom: bool)
    requires AllComplete(done) && RetriesOk(replies) && runs == RunsOf(done)
    requires !oom ==> exchanges == ExchangesOf(c, done) + Sent(BodyAfter(c, done), replies)
    requires Proceeds(replies[|replies| - 1], runs, gateway) ==> gone
    ensures EndsWith(c, gateway, done, Turn(replies, []), exchanges, runs, gone, oom)
  {
    assert Ran(replies[|replies| - 1].calls, []) == [] && RunsOf(done) + [] == RunsOf(done);
  }

  /** Run the calls of a reply and log the round, unless the client leaves. */
  method ActOn(w: World, m: Sbuf, c: Chat, gateway: bool, sigs: seq<string>, r: Reply, ghost done: seq<Turn>,
               ghost replies: seq<Reply>)
    returns (next: Option<seq<string>>, ghost t: Turn)
    requires Proper(done, gateway) && w.runs == RunsOf(done) && sigs == Remembered(w.runs)
    requires Logs(m, Transcript(c, RoundsOf(done)))
    requires RetriesOk(replies) && r == replies[|replies| - 1] && Proceeds(r, RunsOf(done), gateway)
    requires !m.oom ==> w.exchanges == ExchangesOf(c, done) + Sent(BodyAfter(c, done), replies)
    modifies w, m
    ensures next.Some? ==> Between(c, gateway, done + [t], w, m) && next.value == Remembered(w.runs)
    ensures next.None? ==> Logs(m, Transcript(c, RoundsOf(done))) && m.oom == old(m.oom)
    ensures next.None? ==> EndsWith(c, gateway, done, t, w.exchanges, w.runs, w.gone, m.oom)
  {
    var results := RunCalls(w, r.calls);
    t := Turn(replies, results);
    var there := w.ClientThere();
    if !there {
      return None, t;
    }
    var sigs' := Record(sigs, r.calls, results, RunsOf(done));
    CommitRound(w, m, c, gateway, r.calls, results, done, t);
    return Some(sigs'), t;
  }

  method CommitRound(w: World, m: Sbuf, c: Chat, gateway: bool, calls: seq<Shards.Call>, results: seq<string>,
                     ghost done: seq<Turn>, ghost t: Turn)
    requires Proper(done, gateway) && Complete(t) && Proceeds(Final(t), RunsOf(done), gateway)
    requires Logs(m, Transcript(c, RoundsOf(done)))
    requires calls == Final(t).calls && results == t.results
    requires w.runs == RunsOf(done) + Ran(calls, results)
    requires !m.oom ==> w.exchanges == ExchangesOf(c, done) + Sent(BodyAfter(c, done), t.replies)
    modifies m
    ensures Between(c, gateway, done + [t], w, m)
  {
    ProperSnoc(done, t, gateway);
    RoundDone(c, done, t);
    MsgsAppendRound(m, Answers(calls, results), Transcript(c, RoundsOf(done)));
  }

  /** How a conversation ends with a last round. */
  ghost predicate EndsWith(c: Chat, gateway: bool, done: seq<Turn>, t: Turn, exchanges: seq<Exchange>,
                           runs: seq<ToolRun>, gone: bool, oom: bool)
    requires AllComplete(done)
  {
    Unfinished(t, RunsOf(done), gateway, gone)
    && runs == RunsOf(done) + Ran(Final(t).calls, t.results)
    && (!oom ==> exchanges == ExchangesOf(c, done) + Sent(BodyAfter(c, done), t.replies))
  }

  lemma BodyNow(c: Chat, done: seq<Turn>, m: Sbuf)
    requires AllComplete(done) && Logs(m, Transcript(c, RoundsOf(done)))
    ensures !m.oom ==> m.text + "]" == BodyAfter(c, done)
  {
    Closed(Transcript(c, RoundsOf(done)));
  }

  method AllRepeat(r: Reply, sigs: seq<string>) returns (all: bool)
    ensures all == Repeats(r, sigs)
  {
    if !r.sawContent || r.calls == [] {
      return false;
    }
    var i := 0;
    while i < |r.calls|
      invariant 0 <= i <= |r.calls|
      invariant forall j :: 0 <= j < i ==> Signature(NameOf(r.calls[j]), r.calls[j].args) in sigs
    {
      if Signature(NameOf(r.calls[i]), r.calls[i].args) !in sigs {
        return false;
      }
      i := i + 1;
    }
    return true;
  }

  lemma ProperSnoc(done: seq<Turn>, t: Turn, gateway: bool)
    requires Proper(done, gateway) && Complete(t) && Proceeds(Final(t), RunsOf(done), gateway)
    ensures Proper(done + [t], gateway)
  {
    var all := done + [t];
    assert all[..|done|] == done;
    assert forall r :: 0 <= r < |done| ==> all[..r] == done[..r];
  }

  lemma RoundDone(c: Chat, done: seq<Turn>, t: Turn)
    requires AllComplete(done) && Complete(t)
    ensures AllComplete(done + [t])
    ensures RunsOf(done + [t]) == RunsOf(done) + Ran(Final(t).calls, t.results)
    ensures ExchangesOf(c, done + [t]) == ExchangesOf(c, done) + Sent(BodyAfter(c, done), t.replies)
    ensures Transcript(c, RoundsOf(done + [t]))
            == Transcript(c, RoundsOf(done)) + RoundTrees(Answers(Final(t).calls, t.results))
  {
    assert (done + [t])[..|done|] == done;
    RoundsSnoc(done, t);
    TranscriptSnoc(c, RoundsOf(done), Answers(Final(t).calls, t.results));
  }

  lemma RoundsSnoc(done: seq<Turn>, t: Turn)
    requires AllComplete(done) && Complete(t)
    ensures AllComplete(done + [t])
    ensures RoundsOf(done + [t]) == RoundsOf(done) + [Answers(Final(t).calls, t.results)]
  {
  }
}
