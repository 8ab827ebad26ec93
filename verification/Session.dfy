/** The session store of src/agent/session.c: a bounded transcript, a bounded fact map,
    and their JSON file. */
module SessionStore {
  import opened CText
  import opened Utf8
  import opened MiniJson
  import opened JsonTree
  import opened StringBuffer

  const MSG_MAX := 10
  const FACTS_MAX := 24
  const ID_MAX := 64
  const KEY_MAX := 64
  const VAL_MAX := 768
  const ROLE_MAX := 15
  const CONTENT_MAX := 2000
  const CHUNK := 4096
  const NO_TEXT := "(no text)"

  datatype Msg = Msg(role: string, content: string)
  datatype Fact = Fact(key: string, val: string)
  datatype Memory = Memory(msgs: seq<Msg>, facts: seq<Fact>)

  const EMPTY := Memory([], [])

  function MsgOf(role: string, content: string): Msg {
    Msg(Take(role, ROLE_MAX), Clipped(content, CONTENT_MAX))
  }

  function AppendTo(m: Memory, role: string, content: string): Memory {
    var kept := if |m.msgs| >= MSG_MAX then m.msgs[1..] else m.msgs;
    m.(msgs := kept + [MsgOf(role, content)])
  }

  predicate KeyAccepted(key: string) {
    key != "" && forall i :: 0 <= i < |key| ==> key[i] !in "{}:\",\n\r"
  }

  /** The two-step copy of a value: byte cut, then whole characters. */
  function StoredVal(val: string): string {
    Clipped(Take(val, VAL_MAX), VAL_MAX)
  }

  function IndexOf(facts: seq<Fact>, key: string): (i: nat)
    ensures i <= |facts|
    ensures i < |facts| ==> facts[i].key == key
    ensures forall j :: 0 <= j < i ==> facts[j].key != key
  {
    if facts == [] || facts[0].key == key then 0 else 1 + IndexOf(facts[1..], key)
  }

  predicate SetAccepted(m: Memory, key: string) {
    KeyAccepted(key) && (IndexOf(m.facts, key) < |m.facts| || |m.facts| < FACTS_MAX)
  }

  function SetIn(m: Memory, key: string, val: string): Memory {
    var i := IndexOf(m.facts, key);
    if !SetAccepted(m, key) then m
    else if i < |m.facts| then m.(facts := m.facts[i := Fact(m.facts[i].key, StoredVal(val))])
    else m.(facts := m.facts + [Fact(Clipped(key, KEY_MAX), StoredVal(val))])
  }

  // ---- the file --------------------------------------------------------

  function MsgTree(m: Msg): Json {
    Obj([Member("role", Str(m.role)), Member("content", Str(m.content))])
  }

  function MsgTrees(ms: seq<Msg>): seq<Json> {
    if ms == [] then [] else [MsgTree(ms[0])] + MsgTrees(ms[1..])
  }

  function FactMembers(fs: seq<Fact>): seq<Member> {
    if fs == [] then [] else [Member(fs[0].key, Str(fs[0].val))] + FactMembers(fs[1..])
  }

  /** The session as a JSON value. */
  function Tree(id: string, m: Memory): Json {
    Obj([Member("id", Str(id)), Member("messages", Arr(MsgTrees(m.msgs))), Member("facts", Obj(FactMembers(m.facts)))])
  }

  function FileText(id: string, m: Memory): string {
    Print(Tree(id, m)) + "\n"
  }

  predicate Alnum(c: char) {
    '0' <= c <= '9' || 'a' <= c <= 'z' || 'A' <= c <= 'Z'
  }

  predicate IdValid(id: string) {
    0 < |id| <= ID_MAX && forall i :: 0 <= i < |id| ==> Alnum(id[i]) || id[i] in "-_+"
  }

  // ---- loading ---------------------------------------------------------

  /** Where a loading loop goes on, or that it gave up (the result code is then -1). */
  datatype Step = Go(rest: string, m: Memory) | Stop(m: Memory)

  /** A member key and the text at its value. */
  function ReadKey(p: string, size: nat): (r: Option<(string, string)>)
    requires size > 0
    ensures r.Some? ==> |r.value.1| < |p|
  {
    if ReadString(p).None? then None else
    var (k, r) := ReadString(p).value;
    if At(Ws(r), 0) != ':' then None else Some((Seen(k, size), Ws(Ws(r)[1..])))
  }

  function SkipComma(p: string): (r: string)
    ensures |r| <= |p|
  {
    var q := Ws(p);
    if At(q, 0) == ',' then q[1..] else q
  }

  const KEY_BUF := 24
  const ROLE_BUF := ROLE_MAX + 1
  const CONTENT_BUF := CONTENT_MAX + 1

  /** One member of a message object. */
  function LoadField(mk: string, v: string, got: Msg): (r: Option<(string, Msg)>)
    ensures r.Some? ==> |r.value.0| <= |v|
  {
    if mk == "role" || mk == "content" then
      if ReadString(v).None? then None else
      var (d, rest) := ReadString(v).value;
      Some((rest, if mk == "role" then got.(role := Seen(d, ROLE_BUF)) else got.(content := Seen(d, CONTENT_BUF))))
    else
      if SkipValue(v).None? then None else Some((SkipValue(v).value, got))
  }

  /** The members of one message object: what follows it, its role and its content. */
  function LoadFields(p: string, got: Msg): (r: Option<(string, Msg)>)
    ensures r.Some? ==> |r.value.0| < |p|
    decreases |p|
  {
    var q := Ws(p);
    if At(q, 0) == '}' then Some((q[1..], got))
    else if ReadKey(q, KEY_BUF).None? then None
    else
      var (mk, v) := ReadKey(q, KEY_BUF).value;
      var field := LoadField(mk, v, got);
      if field.None? then None else LoadFields(SkipComma(field.value.0), field.value.1)
  }

  predicate KnownRole(role: string) {
    role == "user" || role == "assistant"
  }

  /** A message as loading keeps it: an empty text is marked. */
  function Marked(got: Msg): Msg {
    Msg(got.role, if got.content == "" then NO_TEXT else got.content)
  }

  function KeepMsg(m: Memory, got: Msg): Memory {
    if |m.msgs| < MSG_MAX && KnownRole(got.role) then m.(msgs := m.msgs + [Marked(got)]) else m
  }

  function LoadMsgs(p: string, m: Memory): (r: Step)
    ensures r.Go? ==> |r.rest| < |p|
    decreases |p|
  {
    var q := Ws(p);
    if At(q, 0) == ']' then Go(q[1..], m)
    else if At(q, 0) == ',' then LoadMsgs(q[1..], m)
    else if At(q, 0) != '{' then Stop(m)
    else
      var fields := LoadFields(q[1..], Msg("", ""));
      if fields.None? then Stop(m)
      else LoadMsgs(SkipComma(fields.value.0), KeepMsg(m, fields.value.1))
  }

  function KeepFact(m: Memory, f: Fact): Memory {
    if |m.facts| < FACTS_MAX && f.key != "" && f.val != "" then m.(facts := m.facts + [f]) else m
  }

  function LoadFacts(p: string, m: Memory): (r: Step)
    ensures r.Go? ==> |r.rest| < |p|
    decreases |p|
  {
    var q := Ws(p);
    if At(q, 0) == '}' then Go(q[1..], m)
    else if At(q, 0) == ',' then LoadFacts(q[1..], m)
    else if ReadKey(q, KEY_MAX + 1).None? then Stop(m)
    else
      var (fk, v) := ReadKey(q, KEY_MAX + 1).value;
      if ReadString(v).None? then Stop(m)
      else LoadFacts(SkipComma(ReadString(v).value.1), KeepFact(m, Fact(fk, Seen(ReadString(v).value.0, VAL_MAX + 1))))
  }

  function LoadMember(key: string, v: string, m: Memory): (r: Step)
    ensures r.Go? ==> |r.rest| <= |v|
  {
    if key == "messages" && At(v, 0) == '[' then LoadMsgs(v[1..], m)
    else if key == "facts" && At(v, 0) == '{' then LoadFacts(v[1..], m)
    else if SkipValue(v).None? then Stop(m)
    else Go(SkipValue(v).value, m)
  }

  function LoadMembers(p: string, m: Memory): (int, Memory)
    decreases |p|
  {
    var q := Ws(p);
    if At(q, 0) == '}' then (0, m)
    else if ReadKey(q, KEY_BUF).None? then (-1, m)
    else
      var (key, v) := ReadKey(q, KEY_BUF).value;
      var step := LoadMember(key, v, m);
      if step.Stop? then (-1, step.m) else
      var c := Ws(step.rest);
      if At(c, 0) == ',' then LoadMembers(c[1..], step.m)
      else if At(c, 0) == '}' then (0, step.m)
      else (-1, step.m)
  }

  /** The result code and the session a file's text loads to. */
  function LoadText(t: string): (int, Memory) {
    if At(t, 0) == '{' then LoadMembers(t[1..], EMPTY) else (0, EMPTY)
  }

  /** A session file as fopen and fread see it. */
  datatype File = Missing | Unreadable | Contents(text: string)

  predicate Holdable(n: nat, limit: nat) {
    n == 0 || Doubled(FIRST_CAP, n + 1) <= limit
  }

  function LoadFile(id: string, file: File, limit: nat): (int, Memory) {
    if id != "" && !IdValid(id) then (-1, EMPTY) else
    match file
    case Missing => (1, EMPTY)
    case Unreadable => (-1, EMPTY)
    case Contents(text) => if Holdable(|text|, limit) then LoadText(text) else (0, EMPTY)
  }

  /** The reading loop; None when the text cannot be held. */
  method ReadAll(bytes: string, limit: nat) returns (text: Option<string>)
    ensures text == if Holdable(|bytes|, limit) then Some(bytes) else None
  {
    var b := new Sbuf(limit);
    var off := 0;
    while off < |bytes|
      invariant 0 <= off <= |bytes| && fresh(b) && b.Valid() && !b.oom && b.all == bytes[..off] && b.limit == limit
      decreases |bytes| - off
    {
      var r := if |bytes| - off < CHUNK then |bytes| - off else CHUNK;
      b.Mem(bytes[off..off + r]);
      assert bytes[..off] + bytes[off..off + r] == bytes[..off + r];
      off := off + r;
      if b.oom {
        DoubledMonotone(FIRST_CAP, off + 1, |bytes| + 1);
        return None;
      }
    }
    assert bytes[..off] == bytes;
    if bytes != "" {
      DoubledMonotone(FIRST_CAP, |b.text| + 1, b.cap);
    }
    return Some(b.text);
  }

  // ---- the session object ----------------------------------------------

  class Session {
    var id: string
    var msgs: seq<Msg>
    var facts: seq<Fact>

    ghost predicate Valid()
      reads this
    {
      |msgs| <= MSG_MAX && |facts| <= FACTS_MAX
    }

    ghost function State(): Memory
      reads this
    {
      Memory(msgs, facts)
    }

    constructor (id: string)
      ensures Valid() && this.id == Take(id, ID_MAX) && State() == EMPTY
    {
      this.id := Take(id, ID_MAX);
      msgs, facts := [], [];
    }

    method Append(role: string, content: string)
      requires Valid() && NulFree(role) && NulFree(content)
      modifies this`msgs
      ensures Valid() && State() == AppendTo(old(State()), role, content)
    {
      if |msgs| >= MSG_MAX {
        msgs := msgs[1..];
      }
      var mem := InMemory(content, CONTENT_MAX);
      var text := SetStrUtf8(mem, CONTENT_MAX + 1);
      msgs := msgs + [Msg(Take(role, ROLE_MAX), text)];
    }

    method FactSet(key: string, val: string) returns (ok: bool)
      requires Valid() && NulFree(key) && NulFree(val)
      modifies this`facts
      ensures Valid() && State() == SetIn(old(State()), key, val)
      ensures ok == SetAccepted(old(State()), key)
    {
      if !KeyAccepted(key) {
        return false;
      }
      var v := Take(val, VAL_MAX);
      var mem := InMemory(v, VAL_MAX);
      var stored := SetStrUtf8(mem, VAL_MAX + 1);
      var i := 0;
      while i < |facts|
        invariant 0 <= i <= |facts| && facts == old(facts)
        invariant IndexOf(facts, key) == i + IndexOf(facts[i..], key)
      {
        if facts[i].key == key {
          facts := facts[i := Fact(facts[i].key, stored)];
          return true;
        }
        assert facts[i..][1..] == facts[i + 1..];
        i := i + 1;
      }
      if |facts| >= FACTS_MAX {
        return false;
      }
      mem := InMemory(key, KEY_MAX);
      var k := SetStrUtf8(mem, KEY_MAX + 1);
      facts := facts + [Fact(k, stored)];
      return true;
    }

    method FactGet(key: string) returns (r: Option<string>)
      ensures r == Lookup(facts, key)
    {
      var i := 0;
      while i < |facts|
        invariant 0 <= i <= |facts|
        invariant IndexOf(facts, key) == i + IndexOf(facts[i..], key)
      {
        if facts[i].key == key {
          return Some(facts[i].val);
        }
        assert facts[i..][1..] == facts[i + 1..];
        i := i + 1;
      }
      return None;
    }

    method SaveMsg(b: Sbuf, m: Msg)
      requires b.Valid()
      modifies b
      ensures b.Valid()
      ensures b.all == old(b.all) + Print(MsgTree(m))
    {
      b.Str(Opening("{", "role"));
      b.AppendJson(m.role);
      b.Str(Opening(",", "content"));
      b.AppendJson(m.content);
      b.Chr('}');
      MsgText(m);
      Cat6(old(b.all), Opening("{", "role"), JsonStr(m.role), Opening(",", "content"), JsonStr(m.content), "}");
    }

    method SaveMsgs(b: Sbuf)
      requires b.Valid()
      modifies b
      ensures b.Valid()
      ensures b.all == old(b.all) + PrintItems(MsgTrees(msgs))
    {
      var i := 0;
      assert old(b.all) + PrintItems(MsgTrees(msgs[..0])) == old(b.all);
      while i < |msgs|
        invariant 0 <= i <= |msgs| && b.Valid()
        invariant b.all == old(b.all) + PrintItems(MsgTrees(msgs[..i]))
      {
        NextMsg(old(b.all), msgs, i);
        if i > 0 {
          b.Chr(',');
        }
        SaveMsg(b, msgs[i]);
        i := i + 1;
      }
      assert msgs[..i] == msgs;
    }

    method SaveFacts(b: Sbuf)
      requires b.Valid()
      modifies b
      ensures b.Valid()
      ensures b.all == old(b.all) + PrintMembers(FactMembers(facts))
    {
      var i := 0;
      assert old(b.all) + PrintMembers(FactMembers(facts[..0])) == old(b.all);
      while i < |facts|
        invariant 0 <= i <= |facts| && b.Valid()
        invariant b.all == old(b.all) + PrintMembers(FactMembers(facts[..i]))
      {
        NextFact(old(b.all), facts, i);
        if i > 0 {
          b.Chr(',');
        }
        b.AppendJson(facts[i].key);
        b.Chr(':');
        b.AppendJson(facts[i].val);
        i := i + 1;
      }
      assert facts[..i] == facts;
    }

    method SaveHead(b: Sbuf)
      requires b.Valid() && b.all == ""
      modifies b
      ensures b.Valid()
      ensures b.all == Opening("{", "id") + JsonStr(id) + (Opening(",", "messages") + "[")
    {
      b.Str(Opening("{", "id"));
      assert b.all == Opening("{", "id");
      b.AppendJson(id);
      b.Str(Opening(",", "messages") + "[");
    }

    method SaveInto(b: Sbuf)
      requires b.Valid() && b.all == ""
      modifies b
      ensures b.Valid()
      ensures b.all == FileText(id, State())
    {
      SaveHead(b);
      SaveMsgs(b);
      b.Str(Opening("],", "facts") + "{");
      SaveFacts(b);
      b.Str("}}\n");
      FileTextShape(id, State());
    }

    /** `session_save` up to the file operations: the text it writes, when the id may
        name a file and the text can be allocated. */
    method Save(limit: nat) returns (ok: bool, text: string)
      ensures ok <==> (id == "" || IdValid(id)) && Doubled(FIRST_CAP, |FileText(id, State())| + 1) <= limit
      ensures ok ==> text == FileText(id, State())
    {
      text := "";
      if id != "" && !IdValid(id) {
        return false, text;
      }
      var b := new Sbuf(limit);
      SaveInto(b);
      ok := !b.oom;
      if ok {
        text := b.text;
        assert 0 < |FileText(id, State())|;
        DoubledMonotone(FIRST_CAP, |text| + 1, b.cap);
      }
    }

    static method LoadMsgField(mk: string, v: string, got: Msg) returns (r: Option<(string, Msg)>)
      ensures r == LoadField(mk, v, got)
    {
      if mk == "role" {
        var good, role, next := JreadString(v, ROLE_BUF);
        r := if good then Some((next, got.(role := CStr(role)))) else None;
      } else if mk == "content" {
        var good, content, next := JreadString(v, CONTENT_BUF);
        r := if good then Some((next, got.(content := CStr(content)))) else None;
      } else {
        var good, next := JskipValue(v);
        r := if good then Some((next, got)) else None;
      }
    }

    /** The member loop of one message object. */
    static method LoadMsgFields(p: string) returns (r: Option<(string, Msg)>)
      ensures r == LoadFields(p, Msg("", ""))
    {
      var q, got := p, Msg("", "");
      while true
        invariant LoadFields(p, Msg("", "")) == LoadFields(q, got)
        decreases |q|
      {
        q := Jws(q);
        if At(q, 0) == '}' {
          return Some((q[1..], got));
        }
        var ok, mk, v := ReadMemberKey(q, KEY_BUF);
        if !ok {
          return None;
        }
        var field := LoadMsgField(mk, v, got);
        if field.None? {
          return None;
        }
        q, got := field.value.0, field.value.1;
        q := Jws(q);
        if At(q, 0) == ',' {
          q := q[1..];
        }
      }
    }

    /** A key read into a buffer, the colon, and the blanks around it. */
    static method ReadMemberKey(p: string, size: nat) returns (ok: bool, key: string, v: string)
      requires size > 0
      ensures ok == ReadKey(p, size).Some?
      ensures ok ==> ReadKey(p, size).value == (key, v)
    {
      var out, next;
      ok, out, next := JreadString(p, size);
      key, v := CStr(out), next;
      if ok {
        v := Jws(next);
        if At(v, 0) != ':' {
          return false, key, v;
        }
        v := Jws(v[1..]);
      }
    }

    method LoadMsgList(p: string) returns (ok: bool, rest: string)
      requires Valid()
      modifies this`msgs
      ensures Valid()
      ensures LoadMsgs(p, old(State())) == if ok then Go(rest, State()) else Stop(State())
    {
      ok, rest := false, p;
      while true
        invariant LoadMsgs(p, old(State())) == LoadMsgs(rest, State()) && facts == old(facts) && Valid()
        decreases |rest|
      {
        rest := Jws(rest);
        if At(rest, 0) == ']' {
          return true, rest[1..];
        }
        if At(rest, 0) == ',' {
          rest := rest[1..];
          continue;
        }
        if At(rest, 0) != '{' {
          return;
        }
        var fields := LoadMsgFields(rest[1..]);
        if fields.None? {
          return;
        }
        var got := fields.value.1;
        if |msgs| < MSG_MAX && KnownRole(got.role) {
          msgs := msgs + [Msg(got.role, if got.content != "" then got.content else NO_TEXT)];
        }
        rest := Jws(fields.value.0);
        if At(rest, 0) == ',' {
          rest := rest[1..];
        }
      }
    }

    method LoadFactList(p: string) returns (ok: bool, rest: string)
      requires Valid()
      modifies this`facts
      ensures Valid()
      ensures LoadFacts(p, old(State())) == if ok then Go(rest, State()) else Stop(State())
    {
      ok, rest := false, p;
      while true
        invariant LoadFacts(p, old(State())) == LoadFacts(rest, State()) && msgs == old(msgs) && Valid()
        decreases |rest|
      {
        rest := Jws(rest);
        if At(rest, 0) == '}' {
          return true, rest[1..];
        }
        if At(rest, 0) == ',' {
          rest := rest[1..];
          continue;
        }
        var good, fk, v := ReadMemberKey(rest, KEY_MAX + 1);
        if !good {
          return;
        }
        var read, out, next := JreadString(v, VAL_MAX + 1);
        if !read {
          return;
        }
        var fv := CStr(out);
        if |facts| < FACTS_MAX && fk != "" && fv != "" {
          facts := facts + [Fact(fk, fv)];
        }
        rest := Jws(next);
        if At(rest, 0) == ',' {
          rest := rest[1..];
        }
      }
    }

    /** `session_load`: no file is a new session, a file that cannot be opened or whose text cannot
        be held in memory is an empty one. */
    method Load(id: string, file: File, limit: nat) returns (rc: int)
      modifies this
      ensures Valid() && this.id == Take(id, ID_MAX)
      ensures (rc, State()) == LoadFile(id, file, limit)
    {
      msgs, facts := [], [];
      this.id := Take(id, ID_MAX);
      if id != "" && !IdValid(id) {
        return -1;
      }
      match file {
        case Missing =>
          return 1;
        case Unreadable =>
          return -1;
        case Contents(bytes) =>
          var text := ReadAll(bytes, limit);
          if text.None? {
            return 0;
          }
          rc := LoadAll(text.value);
      }
    }

    method LoadAll(text: string) returns (rc: int)
      requires Valid() && State() == EMPTY
      modifies this`msgs, this`facts
      ensures Valid() && LoadText(text) == (rc, State())
    {
      var p := text;
      if At(p, 0) != '{' {
        return 0;
      }
      p := p[1..];
      while true
        invariant LoadText(text) == LoadMembers(p, State()) && Valid()
        decreases |p|
      {
        p := Jws(p);
        if At(p, 0) == '}' {
          return 0;
        }
        var ok, key, v := ReadMemberKey(p, KEY_BUF);
        if !ok {
          return -1;
        }
        var rest;
        if key == "messages" && At(v, 0) == '[' {
          ok, rest := LoadMsgList(v[1..]);
        } else if key == "facts" && At(v, 0) == '{' {
          ok, rest := LoadFactList(v[1..]);
        } else {
          ok, rest := JskipValue(v);
        }
        if !ok {
          return -1;
        }
        p := Jws(rest);
        if At(p, 0) == ',' {
          p := p[1..];
        } else if At(p, 0) == '}' {
          return 0;
        } else {
          return -1;
        }
      }
    }
  }

  function Lookup(facts: seq<Fact>, key: string): Option<string> {
    var i := IndexOf(facts, key);
    if i < |facts| then Some(facts[i].val) else None
  }

  // ---- the written text is the printed tree ----------------------------

  lemma MsgText(m: Msg)
    ensures Print(MsgTree(m)) == Opening("{", "role") + JsonStr(m.role) + Opening(",", "content") + JsonStr(m.content) + "}"
  {
    ObjText2("role", Str(m.role), "content", Str(m.content));
  }

  lemma {:induction false} MsgTreesSnoc(ms: seq<Msg>, m: Msg)
    ensures MsgTrees(ms + [m]) == MsgTrees(ms) + [MsgTree(m)]
  {
    if ms == [] {
      assert ms + [m] == [m];
    } else {
      MsgTreesSnoc(ms[1..], m);
      assert (ms + [m])[1..] == ms[1..] + [m];
    }
  }

  lemma NextMsg(start: string, msgs: seq<Msg>, i: nat)
    requires i < |msgs|
    ensures var all := start + PrintItems(MsgTrees(msgs[..i]));
            (if i > 0 then all + "," else all) + Print(MsgTree(msgs[i]))
            == start + PrintItems(MsgTrees(msgs[..i + 1]))
  {
    assert msgs[..i + 1] == msgs[..i] + [msgs[i]];
    MsgTreesSnoc(msgs[..i], msgs[i]);
    ItemsSnoc(MsgTrees(msgs[..i]), MsgTree(msgs[i]));
    assert (MsgTrees(msgs[..i]) == []) == (i == 0);
    Separated(start, PrintItems(MsgTrees(msgs[..i])), i > 0, Print(MsgTree(msgs[i])));
  }

  lemma Separated(start: string, body: string, comma: bool, next: string)
    ensures (if comma then start + body + "," else start + body) + next
            == start + (body + (if comma then "," else "") + next)
  {
  }

  lemma {:induction false} FactMembersSnoc(fs: seq<Fact>, f: Fact)
    ensures FactMembers(fs + [f]) == FactMembers(fs) + [Member(f.key, Str(f.val))]
  {
    if fs == [] {
      assert fs + [f] == [f];
    } else {
      FactMembersSnoc(fs[1..], f);
      assert (fs + [f])[1..] == fs[1..] + [f];
    }
  }

  lemma NextFact(start: string, facts: seq<Fact>, i: nat)
    requires i < |facts|
    ensures var all := start + PrintMembers(FactMembers(facts[..i]));
            (if i > 0 then all + "," else all) + JsonStr(facts[i].key) + ":" + JsonStr(facts[i].val)
            == start + PrintMembers(FactMembers(facts[..i + 1]))
  {
    assert facts[..i + 1] == facts[..i] + [facts[i]];
    FactMembersSnoc(facts[..i], facts[i]);
    MembersSnoc(FactMembers(facts[..i]), Member(facts[i].key, Str(facts[i].val)));
    assert (FactMembers(facts[..i]) == []) == (i == 0);
    var k, v := JsonStr(facts[i].key), JsonStr(facts[i].val);
    Separated(start, PrintMembers(FactMembers(facts[..i])), i > 0, k + ":" + v);
    var all := start + PrintMembers(FactMembers(facts[..i]));
    var pre := if i > 0 then all + "," else all;
    assert pre + k + ":" + v == pre + (k + ":" + v);
  }

  lemma FileParts(a: string, i: string, b: string, o: string, ms: string, c: string, f: string, p: string, fs: string,
                  e: string, n: string)
    ensures a + i + b + (o + ms + c) + f + (p + fs + e) + e + n
            == a + i + (b + o) + ms + ((c + f) + p) + fs + (e + e + n)
  {
  }

  lemma FileTextShape(id: string, m: Memory)
    ensures FileText(id, m)
            == Opening("{", "id") + JsonStr(id) + (Opening(",", "messages") + "[") + PrintItems(MsgTrees(m.msgs))
               + (Opening("],", "facts") + "{") + PrintMembers(FactMembers(m.facts)) + "}}\n"
  {
    ObjText3("id", Str(id), "messages", Arr(MsgTrees(m.msgs)), "facts", Obj(FactMembers(m.facts)));
    Pieces();
    FileParts(Opening("{", "id"), JsonStr(id), Opening(",", "messages"), "[", PrintItems(MsgTrees(m.msgs)), "]",
              Opening(",", "facts"), "{", PrintMembers(FactMembers(m.facts)), "}", "\n");
  }

  lemma Pieces()
    ensures "]" + Opening(",", "facts") == Opening("],", "facts") && "}" + "}" + "\n" == "}}\n"
  {
  }
}
