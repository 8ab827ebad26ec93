/** What a session holds after any sequence of operations, and what its file gives back. */
module SessionLaws {
  import opened CText
  import opened Utf8
  import opened MiniJson
  import opened JsonTree
  import opened SessionStore

  datatype Op = Say(role: string, content: string) | Note(key: string, val: string)

  function Apply(m: Memory, op: Op): Memory {
    match op
    case Say(role, content) => AppendTo(m, role, content)
    case Note(key, val) => SetIn(m, key, val)
  }

  function Run(ops: seq<Op>): Memory {
    if ops == [] then EMPTY else Apply(Run(ops[..|ops| - 1]), ops[|ops| - 1])
  }

  // ---- the transcript --------------------------------------------------

  /** Every message said, clipped to its fields, oldest first. */
  function Said(ops: seq<Op>): seq<Msg> {
    if ops == [] then [] else
    var last := ops[|ops| - 1];
    Said(ops[..|ops| - 1]) + (if last.Say? then [MsgOf(last.role, last.content)] else [])
  }

  function LastOf(s: seq<Msg>, n: nat): seq<Msg> {
    if |s| <= n then s else s[|s| - n..]
  }

  /** After any run the transcript is the last ten messages said. */
  lemma {:induction false} TranscriptIsLastTen(ops: seq<Op>)
    ensures Run(ops).msgs == LastOf(Said(ops), MSG_MAX)
  {
    if ops != [] {
      TranscriptIsLastTen(ops[..|ops| - 1]);
    }
  }

  // ---- the facts -------------------------------------------------------

  /** Accepted keys, each once, in the order they were first set. */
  function Keys(ops: seq<Op>): seq<string> {
    if ops == [] then [] else
    var before := Keys(ops[..|ops| - 1]);
    var last := ops[|ops| - 1];
    if last.Note? && KeyAccepted(last.key) && last.key !in before then before + [last.key] else before
  }

  /** The value most recently given for a key. */
  function LastVal(ops: seq<Op>, key: string): string
    requires key in Keys(ops)
  {
    var last := ops[|ops| - 1];
    if last.Note? && last.key == key then last.val else LastVal(ops[..|ops| - 1], key)
  }

  /** A key its 64-byte field holds whole. */
  predicate KeyFits(key: string) {
    |key| <= KEY_MAX && Reach(key) == |key|
  }

  predicate KeysFit(ops: seq<Op>) {
    forall i :: 0 <= i < |ops| && ops[i].Note? ==> KeyFits(ops[i].key)
  }

  lemma {:induction false} KeysDistinct(ops: seq<Op>)
    ensures forall i, j :: 0 <= i < j < |Keys(ops)| ==> Keys(ops)[i] != Keys(ops)[j]
    ensures forall i :: 0 <= i < |Keys(ops)| ==> KeyAccepted(Keys(ops)[i])
  {
    if ops != [] {
      KeysDistinct(ops[..|ops| - 1]);
    }
  }

  predicate HoldsFacts(facts: seq<Fact>, ops: seq<Op>) {
    |facts| == Min(FACTS_MAX, |Keys(ops)|)
    && forall i :: 0 <= i < |facts| ==> facts[i] == Fact(Keys(ops)[i], StoredVal(LastVal(ops, Keys(ops)[i])))
  }

  lemma {:induction false} ClipWhole(s: string, max: nat)
    requires Reach(s) == |s| <= max
    ensures Clip(s, max) == |s|
    decreases |s|
  {
    if s != "" && Width(s[0]) <= |s| {
      ReachAtLeast(s[Width(s[0])..]);
      ClipWhole(s[Width(s[0])..], max - Width(s[0]));
    }
  }

  lemma StoredIndex(facts: seq<Fact>, ops: seq<Op>, key: string)
    requires HoldsFacts(facts, ops)
    ensures var i := IndexOf(facts, key);
            (i < |facts| ==> Keys(ops)[i] == key)
            && (i == |facts| && key in Keys(ops) ==> |facts| == FACTS_MAX)
  {
    var i := IndexOf(facts, key);
    if i == |facts| && key in Keys(ops) {
      assert forall j :: 0 <= j < |facts| ==> Keys(ops)[j] == facts[j].key;
    }
  }

  /** A set on a store that holds the facts of a run leaves it holding those of the longer run. */
  lemma NoteStep(init: seq<Op>, key: string, val: string)
    requires HoldsFacts(Run(init).facts, init) && KeyAccepted(key) && KeyFits(key)
    ensures HoldsFacts(SetIn(Run(init), key, val).facts, init + [Note(key, val)])
  {
    var ops := init + [Note(key, val)];
    assert ops[..|ops| - 1] == init;
    KeysDistinct(init);
    StoredIndex(Run(init).facts, init, key);
    ClipWhole(key, KEY_MAX);
    assert Clipped(key, KEY_MAX) == key;
    var facts, after := Run(init).facts, SetIn(Run(init), key, val).facts;
    forall i | 0 <= i < |after|
      ensures after[i] == Fact(Keys(ops)[i], StoredVal(LastVal(ops, Keys(ops)[i])))
    {
      assert i < |facts| ==> Keys(ops)[i] == Keys(init)[i];
    }
  }

  /** After any run whose keys fit, the facts are the first 24 distinct accepted keys in
      the order they were first set, each with the value last given for it. */
  lemma {:induction false} FactsAreLastWrites(ops: seq<Op>)
    requires KeysFit(ops)
    ensures HoldsFacts(Run(ops).facts, ops)
  {
    if ops != [] {
      var init, last := ops[..|ops| - 1], ops[|ops| - 1];
      FactsAreLastWrites(init);
      assert ops == init + [last];
      if last.Note? && KeyAccepted(last.key) {
        assert KeyFits(last.key);
        NoteStep(init, last.key, last.val);
      } else {
        KeysDistinct(init);
      }
    }
  }

  /** Lookup after a run: last write wins, for the first 24 keys. */
  lemma LookupAfterRun(ops: seq<Op>, key: string)
    requires KeysFit(ops)
    ensures Lookup(Run(ops).facts, key)
            == if key in Keys(ops)[..Min(FACTS_MAX, |Keys(ops)|)] then Some(StoredVal(LastVal(ops, key))) else None
  {
    FactsAreLastWrites(ops);
    var facts := Run(ops).facts;
    var first := Keys(ops)[..|facts|];
    if key in first {
      var j :| 0 <= j < |first| && first[j] == key;
      assert facts[j].key == key;
    }
  }

  predicate UniqueKeys(facts: seq<Fact>) {
    forall i, j :: 0 <= i < j < |facts| ==> facts[i].key != facts[j].key
  }

  /** One set keeps keys unique unless it adds a key whose clipped form is already stored. */
  lemma SetKeepsUnique(m: Memory, key: string, val: string)
    requires UniqueKeys(m.facts)
    ensures UniqueKeys(SetIn(m, key, val).facts)
            <==> !(SetAccepted(m, key) && IndexOf(m.facts, key) == |m.facts|
                   && IndexOf(m.facts, Clipped(key, KEY_MAX)) < |m.facts|)
  {
    var k := Clipped(key, KEY_MAX);
    var i := IndexOf(m.facts, k);
    if SetAccepted(m, key) && IndexOf(m.facts, key) == |m.facts| {
      var after := SetIn(m, key, val).facts;
      assert after[|m.facts|].key == k;
      if i < |m.facts| {
        assert after[i].key == after[|m.facts|].key;
      }
    }
  }

  /** The operation adds a key whose clipped form is already stored. */
  predicate AddsTwice(m: Memory, op: Op) {
    op.Note? && SetAccepted(m, op.key) && IndexOf(m.facts, op.key) == |m.facts|
    && IndexOf(m.facts, Clipped(op.key, KEY_MAX)) < |m.facts|
  }

  /** No step of the run does so. */
  predicate NeverAddsTwice(ops: seq<Op>) {
    ops == [] ||
    var init := ops[..|ops| - 1];
    (NeverAddsTwice(init) && !AddsTwice(Run(init), ops[|ops| - 1]))
  }

  /** Keys are unique after every step of the run. */
  predicate AlwaysUnique(ops: seq<Op>) {
    UniqueKeys(Run(ops).facts) && (ops == [] || AlwaysUnique(ops[..|ops| - 1]))
  }

  lemma StepKeepsUnique(m: Memory, op: Op)
    requires UniqueKeys(m.facts)
    ensures UniqueKeys(Apply(m, op).facts) <==> !AddsTwice(m, op)
  {
    if op.Note? {
      SetKeepsUnique(m, op.key, op.val);
    }
  }

  /** Keys are unique after every step of a run if and only if no step adds a key whose clipped form
      is already stored. */
  lemma {:induction false} RunKeepsUnique(ops: seq<Op>)
    ensures AlwaysUnique(ops) <==> NeverAddsTwice(ops)
  {
    if ops != [] {
      var init := ops[..|ops| - 1];
      RunKeepsUnique(init);
      if AlwaysUnique(init) {
        StepKeepsUnique(Run(init), ops[|ops| - 1]);
      }
    }
  }

  /** A key longer than its field is stored twice when it is set twice. */
  lemma LongKeyDuplicates(v: string, w: string)
    ensures var key := seq(KEY_MAX + 1, i => 'k');
            !UniqueKeys(Run([Note(key, v), Note(key, w)]).facts)
  {
    var key := seq(KEY_MAX + 1, i => 'k');
    var ops := [Note(key, v), Note(key, w)];
    assert ops[..1] == [Note(key, v)] && ops[..1][..0] == [];
    assert KeyAccepted(key) by {
      assert forall i :: 0 <= i < |key| ==> key[i] == 'k';
    }
    var m := Run(ops[..1]);
    assert m == SetIn(EMPTY, key, v) by {
      assert Run(ops[..1][..0]) == EMPTY && ops[..1][0] == ops[0];
    }
    assert Run(ops) == SetIn(m, key, w) by {
      assert ops[..|ops| - 1] == ops[..1];
    }
    assert m.facts == [] + [Fact(Clipped(key, KEY_MAX), StoredVal(v))];
    assert |m.facts[0].key| <= KEY_MAX;
    assert IndexOf(m.facts[1..], key) == 0 == IndexOf(m.facts, Clipped(key, KEY_MAX));
    SetKeepsUnique(m, key, w);
  }

  // ---- the file --------------------------------------------------------

  predicate MsgFits(m: Msg) {
    NulFree(m.role) && |m.role| <= ROLE_MAX && NulFree(m.content) && |m.content| <= CONTENT_MAX
  }

  predicate FactFits(f: Fact) {
    NulFree(f.key) && |f.key| <= KEY_MAX && NulFree(f.val) && |f.val| <= VAL_MAX
  }

  /** A session within its field widths and counts, as the struct forces it to be. */
  predicate Fits(m: Memory) {
    && |m.msgs| <= MSG_MAX && (forall i :: 0 <= i < |m.msgs| ==> MsgFits(m.msgs[i]))
    && |m.facts| <= FACTS_MAX && (forall i :: 0 <= i < |m.facts| ==> FactFits(m.facts[i]))
  }

  /** What loading keeps of a saved transcript. */
  function KeptMsgs(ms: seq<Msg>): seq<Msg> {
    if ms == [] then []
    else (if KnownRole(ms[0].role) then [Marked(ms[0])] else []) + KeptMsgs(ms[1..])
  }

  function KeptFacts(fs: seq<Fact>): seq<Fact> {
    if fs == [] then []
    else (if fs[0].key != "" && fs[0].val != "" then [fs[0]] else []) + KeptFacts(fs[1..])
  }

  lemma SeenWhole(s: string, size: nat)
    requires NulFree(s) && |s| < size
    ensures CStr(s) == s && Seen(s, size) == s
  {
    CStrNulFree(s);
  }

  /** A printed member read back: its key, and the text at its value. */
  lemma ReadKeyPrinted(k: string, size: nat, v: string)
    requires NulFree(k) && |k| < size && !Blank(At(v, 0))
    ensures ReadKey(JsonStr(k) + (":" + v), size) == Some((k, v))
  {
    StringRoundTrip(k, ":" + v);
    SeenWhole(k, size);
    assert (":" + v)[1..] == v;
  }

  lemma StringFieldPrinted(mk: string, s: string, got: Msg, rest: string)
    requires (mk == "role" && |s| < ROLE_BUF) || (mk == "content" && |s| < CONTENT_BUF)
    requires NulFree(s)
    ensures LoadField(mk, JsonStr(s) + rest, got)
            == Some((rest, if mk == "role" then got.(role := s) else got.(content := s)))
  {
    StringRoundTrip(s, rest);
    SeenWhole(s, if mk == "role" then ROLE_BUF else CONTENT_BUF);
  }

  lemma FieldStep(mk: string, s: string, got: Msg, rest: string)
    requires (mk == "role" && |s| < ROLE_BUF) || (mk == "content" && |s| < CONTENT_BUF)
    requires NulFree(s)
    ensures LoadFields(PrintMember(Member(mk, Str(s))) + rest, got)
            == LoadFields(SkipComma(rest), if mk == "role" then got.(role := s) else got.(content := s))
  {
    var v := JsonStr(s) + rest;
    Cat4(JsonStr(mk), ":", JsonStr(s), rest);
    ReadKeyPrinted(mk, KEY_BUF, v);
    StringFieldPrinted(mk, s, got, rest);
  }

  lemma CommaSkipped(tail: string)
    ensures SkipComma("," + tail) == tail && ("," + tail)[1..] == tail
  {
  }

  lemma FieldsEnd(rest: string, got: Msg)
    ensures LoadFields(SkipComma("}" + rest), got) == Some((rest, got))
  {
    assert ("}" + rest)[1..] == rest;
  }

  lemma FieldsPrinted(m: Msg, rest: string)
    requires MsgFits(m)
    ensures LoadFields(PrintMembers(MsgTree(m).members) + ("}" + rest), Msg("", "")) == Some((rest, m))
  {
    var role, content := Member("role", Str(m.role)), Member("content", Str(m.content));
    var tail := PrintMember(content) + ("}" + rest);
    TwoMemberText(role, content);
    Cat4(PrintMember(role), ",", PrintMember(content), "}" + rest);
    FieldStep("role", m.role, Msg("", ""), "," + tail);
    CommaSkipped(tail);
    FieldStep("content", m.content, Msg(m.role, ""), "}" + rest);
    FieldsEnd(rest, m);
  }

  /** Loading one printed message object. */
  lemma MsgStep(m: Msg, rest: string, mem: Memory)
    requires MsgFits(m)
    ensures LoadMsgs(Print(MsgTree(m)) + rest, mem) == LoadMsgs(SkipComma(rest), KeepMsg(mem, m))
  {
    Cat4("{", PrintMembers(MsgTree(m).members), "}", rest);
    FieldsPrinted(m, rest);
    MsgAt(PrintMembers(MsgTree(m).members) + ("}" + rest), m, rest, mem);
  }

  lemma MsgAt(body: string, m: Msg, rest: string, mem: Memory)
    requires LoadFields(body, Msg("", "")) == Some((rest, m))
    ensures LoadMsgs("{" + body, mem) == LoadMsgs(SkipComma(rest), KeepMsg(mem, m))
  {
    assert ("{" + body)[1..] == body;
  }

  lemma MsgsStep(ms: seq<Msg>, rest: string, mem: Memory)
    requires ms != [] && MsgFits(ms[0])
    ensures LoadMsgs(PrintItems(MsgTrees(ms)) + ("]" + rest), mem)
            == LoadMsgs(PrintItems(MsgTrees(ms[1..])) + ("]" + rest), KeepMsg(mem, ms[0]))
  {
    var tail := PrintItems(MsgTrees(ms[1..])) + ("]" + rest);
    TreesText(ms, "]" + rest);
    if |ms| == 1 {
      assert ms[1..] == [];
      assert tail == "]" + rest;
      MsgStep(ms[0], "]" + rest, mem);
    } else {
      MsgStep(ms[0], "," + tail, mem);
      CommaSkipped(tail);
    }
  }

  lemma MsgsEnd(rest: string, mem: Memory)
    ensures LoadMsgs(PrintItems(MsgTrees([])) + ("]" + rest), mem) == Go(rest, mem)
  {
    assert PrintItems(MsgTrees([])) + ("]" + rest) == "]" + rest;
    assert ("]" + rest)[1..] == rest;
  }

  lemma MsgCat(a: seq<Msg>, b: seq<Msg>, c: seq<Msg>)
    ensures a + b + c == a + (b + c) && a + [] == a && [] + c == c
  {
  }

  lemma KeptHead(ms: seq<Msg>, mem: Memory)
    requires ms != [] && |mem.msgs| < MSG_MAX
    ensures var next := KeepMsg(mem, ms[0]);
            next.(msgs := next.msgs + KeptMsgs(ms[1..])) == mem.(msgs := mem.msgs + KeptMsgs(ms))
  {
    MsgCat(mem.msgs, [Marked(ms[0])], KeptMsgs(ms[1..]));
  }

  lemma {:induction false} MsgsPrinted(ms: seq<Msg>, rest: string, mem: Memory)
    requires forall i :: 0 <= i < |ms| ==> MsgFits(ms[i])
    requires |mem.msgs| + |ms| <= MSG_MAX
    ensures LoadMsgs(PrintItems(MsgTrees(ms)) + ("]" + rest), mem)
            == Go(rest, mem.(msgs := mem.msgs + KeptMsgs(ms)))
    decreases |ms|
  {
    if ms == [] {
      MsgsEnd(rest, mem);
      assert mem.msgs + [] == mem.msgs;
    } else {
      MsgsStep(ms, rest, mem);
      MsgsPrinted(ms[1..], rest, KeepMsg(mem, ms[0]));
      KeptHead(ms, mem);
    }
  }

  lemma TreesText(ms: seq<Msg>, rest: string)
    requires ms != []
    ensures PrintItems(MsgTrees(ms)) + rest
            == Print(MsgTree(ms[0]))
               + (if |ms| == 1 then rest else "," + (PrintItems(MsgTrees(ms[1..])) + rest))
  {
    var trees := MsgTrees(ms);
    assert trees[1..] == MsgTrees(ms[1..]);
    if |ms| > 1 {
      assert |trees| > 1;
      Cat4(Print(trees[0]), ",", PrintItems(trees[1..]), rest);
    } else {
      assert trees == [MsgTree(ms[0])];
    }
  }

  /** Loading one printed fact. */
  lemma FactStep(f: Fact, rest: string, mem: Memory)
    requires FactFits(f)
    ensures LoadFacts(PrintMember(Member(f.key, Str(f.val))) + rest, mem)
            == LoadFacts(SkipComma(rest), KeepFact(mem, f))
  {
    var v := JsonStr(f.val) + rest;
    Cat4(JsonStr(f.key), ":", JsonStr(f.val), rest);
    ReadKeyPrinted(f.key, KEY_MAX + 1, v);
    StringRoundTrip(f.val, rest);
    SeenWhole(f.val, VAL_MAX + 1);
  }

  lemma FactsStep(fs: seq<Fact>, rest: string, mem: Memory)
    requires fs != [] && FactFits(fs[0])
    ensures LoadFacts(PrintMembers(FactMembers(fs)) + ("}" + rest), mem)
            == LoadFacts(PrintMembers(FactMembers(fs[1..])) + ("}" + rest), KeepFact(mem, fs[0]))
  {
    var tail := PrintMembers(FactMembers(fs[1..])) + ("}" + rest);
    FactsText(fs, "}" + rest);
    if |fs| == 1 {
      assert fs[1..] == [];
      assert tail == "}" + rest;
      FactStep(fs[0], "}" + rest, mem);
    } else {
      FactStep(fs[0], "," + tail, mem);
      CommaSkipped(tail);
    }
  }

  lemma FactCat(a: seq<Fact>, b: seq<Fact>, c: seq<Fact>)
    ensures a + b + c == a + (b + c) && a + [] == a && [] + c == c
  {
  }

  lemma KeptFactHead(fs: seq<Fact>, mem: Memory)
    requires fs != [] && |mem.facts| < FACTS_MAX
    ensures var next := KeepFact(mem, fs[0]);
            next.(facts := next.facts + KeptFacts(fs[1..])) == mem.(facts := mem.facts + KeptFacts(fs))
  {
    FactCat(mem.facts, [fs[0]], KeptFacts(fs[1..]));
  }

  lemma {:induction false} FactsPrinted(fs: seq<Fact>, rest: string, mem: Memory)
    requires forall i :: 0 <= i < |fs| ==> FactFits(fs[i])
    requires |mem.facts| + |fs| <= FACTS_MAX
    ensures LoadFacts(PrintMembers(FactMembers(fs)) + ("}" + rest), mem)
            == Go(rest, mem.(facts := mem.facts + KeptFacts(fs)))
    decreases |fs|
  {
    if fs == [] {
      assert PrintMembers(FactMembers(fs)) + ("}" + rest) == "}" + rest;
      assert ("}" + rest)[1..] == rest;
      assert mem.facts + [] == mem.facts;
    } else {
      FactsStep(fs, rest, mem);
      FactsPrinted(fs[1..], rest, KeepFact(mem, fs[0]));
      KeptFactHead(fs, mem);
    }
  }

  lemma FactsText(fs: seq<Fact>, rest: string)
    requires fs != []
    ensures PrintMembers(FactMembers(fs)) + rest
            == PrintMember(Member(fs[0].key, Str(fs[0].val)))
               + (if |fs| == 1 then rest else "," + (PrintMembers(FactMembers(fs[1..])) + rest))
  {
    var ms := FactMembers(fs);
    assert ms[1..] == FactMembers(fs[1..]);
    if |fs| > 1 {
      assert |ms| > 1;
      MembersText(ms, rest);
    } else {
      assert ms == [Member(fs[0].key, Str(fs[0].val))];
    }
  }

  /** Loading one printed member of the session object. */
  lemma MemberStep(k: string, v: string, mem: Memory)
    requires NulFree(k) && |k| < KEY_BUF && !Blank(At(v, 0))
    ensures var step := LoadMember(k, v, mem);
            LoadMembers(JsonStr(k) + (":" + v), mem)
            == if step.Stop? then (-1, step.m)
               else if At(Ws(step.rest), 0) == ',' then LoadMembers(Ws(step.rest)[1..], step.m)
               else if At(Ws(step.rest), 0) == '}' then (0, step.m) else (-1, step.m)
  {
    ReadKeyPrinted(k, KEY_BUF, v);
  }

  function Kept(m: Memory): Memory {
    Memory(KeptMsgs(m.msgs), KeptFacts(m.facts))
  }

  lemma ObjMemberText(k: string, ms: seq<Member>, rest: string)
    ensures PrintMember(Member(k, Obj(ms))) + rest == JsonStr(k) + (":" + ("{" + (PrintMembers(ms) + ("}" + rest))))
  {
    Cat4(JsonStr(k), ":", Print(Obj(ms)), rest);
    Cat4("{", PrintMembers(ms), "}", rest);
  }

  lemma ArrMemberText(k: string, items: seq<Json>, rest: string)
    ensures PrintMember(Member(k, Arr(items))) + rest == JsonStr(k) + (":" + ("[" + (PrintItems(items) + ("]" + rest))))
  {
    Cat4(JsonStr(k), ":", Print(Arr(items)), rest);
    Cat4("[", PrintItems(items), "]", rest);
  }

  lemma FactsValue(m: Memory, mem: Memory, rest: string)
    requires Fits(m) && mem == Memory(KeptMsgs(m.msgs), [])
    ensures LoadMember("facts", "{" + (PrintMembers(FactMembers(m.facts)) + ("}" + rest)), mem) == Go(rest, Kept(m))
  {
    var body := PrintMembers(FactMembers(m.facts)) + ("}" + rest);
    assert ("{" + body)[1..] == body;
    FactsPrinted(m.facts, rest, mem);
    assert [] + KeptFacts(m.facts) == KeptFacts(m.facts);
  }

  /** A member followed by another one. */
  lemma MemberThenComma(k: string, v: string, mem: Memory, tail: string, next: Memory)
    requires NulFree(k) && |k| < KEY_BUF && !Blank(At(v, 0))
    requires LoadMember(k, v, mem) == Go("," + tail, next)
    ensures LoadMembers(JsonStr(k) + (":" + v), mem) == LoadMembers(tail, next)
  {
    MemberStep(k, v, mem);
    CommaSkipped(tail);
  }

  lemma FactsMemberStep(m: Memory, mem: Memory)
    requires Fits(m) && mem == Memory(KeptMsgs(m.msgs), [])
    ensures LoadMembers(PrintMember(Member("facts", Obj(FactMembers(m.facts)))) + ("}" + "\n"), mem) == (0, Kept(m))
  {
    var end := "}" + "\n";
    ObjMemberText("facts", FactMembers(m.facts), end);
    FactsValue(m, mem, end);
    MemberStep("facts", "{" + (PrintMembers(FactMembers(m.facts)) + ("}" + end)), mem);
  }

  lemma MsgsValue(m: Memory, rest: string)
    requires Fits(m)
    ensures LoadMember("messages", "[" + (PrintItems(MsgTrees(m.msgs)) + ("]" + rest)), EMPTY)
            == Go(rest, Memory(KeptMsgs(m.msgs), []))
  {
    var body := PrintItems(MsgTrees(m.msgs)) + ("]" + rest);
    assert ("[" + body)[1..] == body;
    MsgsPrinted(m.msgs, rest, EMPTY);
    assert [] + KeptMsgs(m.msgs) == KeptMsgs(m.msgs);
  }

  lemma MsgsMemberStep(m: Memory, tail: string)
    requires Fits(m)
    ensures LoadMembers(PrintMember(Member("messages", Arr(MsgTrees(m.msgs)))) + ("," + tail), EMPTY)
            == LoadMembers(tail, Memory(KeptMsgs(m.msgs), []))
  {
    MsgsValue(m, "," + tail);
    MemberThenComma("messages", "[" + (PrintItems(MsgTrees(m.msgs)) + ("]" + ("," + tail))), EMPTY,
                    tail, Memory(KeptMsgs(m.msgs), []));
    ArrMemberText("messages", MsgTrees(m.msgs), "," + tail);
  }

  lemma IdMemberStep(id: string, tail: string)
    ensures LoadMembers(PrintMember(Member("id", Str(id))) + ("," + tail), EMPTY) == LoadMembers(tail, EMPTY)
  {
    Cat4(JsonStr("id"), ":", JsonStr(id), "," + tail);
    MemberStep("id", JsonStr(id) + ("," + tail), EMPTY);
    SkipPrinted(Str(id), "," + tail);
    assert ("," + tail)[1..] == tail;
  }

  lemma ThreeMembersText(a: Member, b: Member, c: Member, rest: string)
    ensures PrintMembers([a, b, c]) + rest
            == PrintMember(a) + ("," + (PrintMember(b) + ("," + (PrintMember(c) + rest))))
  {
    assert [a, b, c][1..] == [b, c];
    MembersText([a, b, c], rest);
    TwoMemberText(b, c);
    Cat4(PrintMember(b), ",", PrintMember(c), rest);
  }

  lemma ObjText(a: Member, b: Member, c: Member, rest: string)
    ensures Print(Obj([a, b, c])) + rest
            == "{" + (PrintMember(a) + ("," + (PrintMember(b) + ("," + (PrintMember(c) + ("}" + rest))))))
  {
    ThreeMembersText(a, b, c, "}" + rest);
    Cat4("{", PrintMembers([a, b, c]), "}", rest);
  }

  lemma FileSplit(id: string, m: Memory)
    ensures var ms := Tree(id, m).members;
            FileText(id, m)
            == "{" + (PrintMember(ms[0]) + ("," + (PrintMember(ms[1]) + ("," + (PrintMember(ms[2]) + ("}" + "\n"))))))
  {
    var ms := Tree(id, m).members;
    ObjText(ms[0], ms[1], ms[2], "\n");
  }

  /** Loading what save printed gives the session back, except that messages of other
      roles and facts without a key or value are dropped and empty messages marked. */
  lemma LoadOfSaved(id: string, m: Memory)
    requires Fits(m)
    ensures LoadText(FileText(id, m)) == (0, Kept(m))
  {
    var ms := Tree(id, m).members;
    var t2 := PrintMember(ms[2]) + ("}" + "\n");
    var t1 := PrintMember(ms[1]) + ("," + t2);
    var body := PrintMember(ms[0]) + ("," + t1);
    FileSplit(id, m);
    assert ("{" + body)[1..] == body;
    IdMemberStep(id, t1);
    MsgsMemberStep(m, t2);
    FactsMemberStep(m, Memory(KeptMsgs(m.msgs), []));
  }

  predicate Persists(m: Memory) {
    && (forall i :: 0 <= i < |m.msgs| ==> KnownRole(m.msgs[i].role) && m.msgs[i].content != "")
    && (forall i :: 0 <= i < |m.facts| ==> m.facts[i].key != "" && m.facts[i].val != "")
  }

  lemma {:induction false} KeptMsgsSame(ms: seq<Msg>)
    ensures |KeptMsgs(ms)| <= |ms|
    ensures KeptMsgs(ms) == ms <==> forall i :: 0 <= i < |ms| ==> KnownRole(ms[i].role) && ms[i].content != ""
  {
    if ms != [] {
      KeptMsgsSame(ms[1..]);
      if KeptMsgs(ms) == ms {
        assert KnownRole(ms[0].role);
        assert KeptMsgs(ms)[0] == ms[0];
        assert KeptMsgs(ms)[1..] == ms[1..];
        forall i | 0 <= i < |ms|
          ensures KnownRole(ms[i].role) && ms[i].content != ""
        {
          if i > 0 {
            assert ms[i] == ms[1..][i - 1];
          }
        }
      }
    }
  }

  lemma {:induction false} KeptFactsSame(fs: seq<Fact>)
    ensures |KeptFacts(fs)| <= |fs|
    ensures KeptFacts(fs) == fs <==> forall i :: 0 <= i < |fs| ==> fs[i].key != "" && fs[i].val != ""
  {
    if fs != [] {
      KeptFactsSame(fs[1..]);
      if KeptFacts(fs) == fs {
        assert KeptFacts(fs)[1..] == fs[1..];
        forall i | 0 <= i < |fs|
          ensures fs[i].key != "" && fs[i].val != ""
        {
          if i > 0 {
            assert fs[i] == fs[1..][i - 1];
          }
        }
      }
    }
  }

  /** Save then load is the identity exactly on sessions of user and assistant messages
      without empty texts. */
  lemma SaveLoadRoundTrip(id: string, m: Memory)
    requires Fits(m)
    ensures LoadText(FileText(id, m)) == (0, m) <==> Persists(m)
  {
    LoadOfSaved(id, m);
    KeptMsgsSame(m.msgs);
    KeptFactsSame(m.facts);
  }

  /** Text a caller may store: non-empty UTF-8. */
  predicate GoodText(s: string) {
    s != "" && NulFree(s) && Valid(s)
  }

  predicate GoodOp(op: Op) {
    match op
    case Say(role, content) => KnownRole(role) && GoodText(content)
    case Note(key, val) => NulFree(key) && KeyFits(key) && GoodText(val)
  }

  lemma ClippedGood(s: string, max: nat)
    requires GoodText(s) && max >= 4
    ensures GoodText(Clipped(s, max)) && |Clipped(s, max)| <= max
  {
    ClipLongest(s, max);
    FirstIsWidth(s);
  }

  lemma {:induction false} ClipOfCut(s: string, n: nat)
    requires Valid(s)
    ensures Clipped(Take(s, n), n) == Clipped(s, n)
  {
    ClipLongest(s, n);
    if |s| > n {
      ClipSameOnCut(s, n);
    }
  }

  lemma {:induction false} ClipSameOnCut(s: string, n: nat)
    requires n < |s|
    ensures Clip(s[..n], n) == Clip(s, n)
    decreases |s|
  {
    if n > 0 && Width(s[0]) <= n {
      var w := Width(s[0]);
      ClipSameOnCut(s[w..], n - w);
      SliceOfSlice(s, w, n);
    }
  }

  lemma GoodOpKeeps(m: Memory, op: Op)
    requires Fits(m) && Persists(m) && GoodOp(op)
    ensures Fits(Apply(m, op)) && Persists(Apply(m, op))
  {
    match op {
      case Say(role, content) =>
        ClippedGood(content, CONTENT_MAX);
      case Note(key, val) =>
        ClippedGood(val, VAL_MAX);
        ClipOfCut(val, VAL_MAX);
        ClipWhole(key, KEY_MAX);
        assert Clipped(key, KEY_MAX) == key;
    }
  }

  /** After any run of good operations, loading what save printed returns the same session. */
  lemma {:induction false} RunRoundTrip(ops: seq<Op>, id: string)
    requires forall i :: 0 <= i < |ops| ==> GoodOp(ops[i])
    ensures LoadText(FileText(id, Run(ops))) == (0, Run(ops))
    ensures Fits(Run(ops)) && Persists(Run(ops))
  {
    if ops != [] {
      RunRoundTrip(ops[..|ops| - 1], id);
      GoodOpKeeps(Run(ops[..|ops| - 1]), ops[|ops| - 1]);
    }
    SaveLoadRoundTrip(id, Run(ops));
  }

  /** A file that could be written can be read back with the same memory. */
  lemma SavedFileLoads(ops: seq<Op>, id: string, limit: nat)
    requires forall i :: 0 <= i < |ops| ==> GoodOp(ops[i])
    requires (id == "" || IdValid(id)) && Holdable(|FileText(id, Run(ops))|, limit)
    ensures LoadFile(id, Contents(FileText(id, Run(ops))), limit) == (0, Run(ops))
  {
    RunRoundTrip(ops, id);
  }

  // ---- byte for byte ---------------------------------------------------

  predicate LegalKey(key: string) {
    0 < |key| <= 64 && GoodText(key)
    && forall i :: 0 <= i < |key| ==> key[i] != '{' && key[i] != '}' && key[i] != ':' && key[i] != '"'
                                      && key[i] != ',' && key[i] != '\n' && key[i] != '\r'
  }

  /** What fits the fields of a session whole. */
  predicate ShortOp(op: Op) {
    match op
    case Say(role, content) => (role == "user" || role == "assistant") && GoodText(content) && |content| <= 2000
    case Note(key, val) => LegalKey(key) && GoodText(val) && |val| <= 768
  }

  /** The messages, as they were said. */
  function Spoken(ops: seq<Op>): seq<Msg> {
    if ops == [] then [] else
    var init, last := ops[..|ops| - 1], ops[|ops| - 1];
    if last.Say? then Spoken(init) + [Msg(last.role, last.content)] else Spoken(init)
  }

  /** The keys, each once, in the order they were first set. */
  function Names(ops: seq<Op>): seq<string> {
    if ops == [] then [] else
    var init, last := ops[..|ops| - 1], ops[|ops| - 1];
    if last.Note? && last.key !in Names(init) then Names(init) + [last.key] else Names(init)
  }

  /** The value last given for a key. */
  function Written(ops: seq<Op>, key: string): Option<string> {
    if ops == [] then None else
    var last := ops[|ops| - 1];
    if last.Note? && last.key == key then Some(last.val) else Written(ops[..|ops| - 1], key)
  }

  lemma WholeText(s: string, max: nat)
    requires GoodText(s) && |s| <= max
    ensures Clipped(s, max) == s && Reach(s) == |s|
  {
    ReachOfValid(s);
    ClipWhole(s, max);
  }

  lemma ShortOpIsGood(op: Op)
    requires ShortOp(op)
    ensures GoodOp(op)
    ensures op.Say? ==> MsgOf(op.role, op.content) == Msg(op.role, op.content)
    ensures op.Note? ==> KeyAccepted(op.key) && KeyFits(op.key) && StoredVal(op.val) == op.val
  {
    match op {
      case Say(role, content) =>
        WholeText(content, CONTENT_MAX);
      case Note(key, val) =>
        WholeText(key, KEY_MAX);
        WholeText(val, VAL_MAX);
    }
  }

  lemma {:induction false} ShortRun(ops: seq<Op>)
    requires forall i :: 0 <= i < |ops| ==> ShortOp(ops[i])
    ensures Said(ops) == Spoken(ops) && Keys(ops) == Names(ops) && KeysFit(ops)
    ensures forall i :: 0 <= i < |ops| ==> GoodOp(ops[i])
    ensures forall key :: key in Keys(ops) ==> Written(ops, key) == Some(StoredVal(LastVal(ops, key)))
  {
    forall i | 0 <= i < |ops|
      ensures GoodOp(ops[i]) && (ops[i].Note? ==> KeyFits(ops[i].key))
    {
      ShortOpIsGood(ops[i]);
    }
    if ops != [] {
      ShortRun(ops[..|ops| - 1]);
      ShortOpIsGood(ops[|ops| - 1]);
    }
  }

  /** What was said and noted comes back from the file byte for byte: the last ten messages in
      order, and for the first 24 keys the value last given. */
  lemma ShortRunComesBack(ops: seq<Op>, id: string, key: string)
    requires forall i :: 0 <= i < |ops| ==> ShortOp(ops[i])
    ensures var (code, m) := LoadText(FileText(id, Run(ops)));
            var said, names := Spoken(ops), Names(ops);
            code == 0 && m.msgs == (if |said| <= 10 then said else said[|said| - 10..])
            && Lookup(m.facts, key)
               == (if key in (if |names| <= 24 then names else names[..24]) then Written(ops, key) else None)
  {
    ShortRun(ops);
    RunRoundTrip(ops, id);
    TranscriptIsLastTen(ops);
    LookupAfterRun(ops, key);
  }

  /** A saved message comes back if it is the user's or the assistant's; an empty one comes back marked. */
  lemma OneMessageLoads(id: string, m: Msg)
    requires MsgFits(m)
    ensures LoadText(FileText(id, Memory([m], [])))
            == (0, Memory(if m.role != "user" && m.role != "assistant" then []
                          else [Msg(m.role, if |m.content| == 0 then "(no text)" else m.content)], []))
  {
    LoadOfSaved(id, Memory([m], []));
    var kept: seq<Msg> := if KnownRole(m.role) then [Marked(m)] else [];
    assert KeptMsgs([m]) == kept + KeptMsgs([m][1..]);
    assert [m][1..] == [] && kept + [] == kept;
  }

  /** An empty key, or one with a byte that the fact syntax uses, changes nothing. */
  lemma IllegalKeyRefused(m: Memory, key: string, val: string)
    requires key == "" || '{' in key || '}' in key || ':' in key || '"' in key || ',' in key || '\n' in key || '\r' in key
    ensures SetIn(m, key, val) == m && !SetAccepted(m, key)
  {
  }

  /** An id names a file in the session directory: 1 to 64 letters, digits, `-`, `_` and `+`, so no
      slash and no dot. */
  lemma IdMeans(id: string)
    ensures IdValid(id)
            <==> 0 < |id| <= 64
                 && forall i :: 0 <= i < |id| ==> id[i] in SMALL || id[i] in CAPITAL || id[i] in "0123456789-_+"
    ensures IdValid(id) ==> '/' !in id && '.' !in id && '\0' !in id
  {
    forall i | 0 <= i < |id|
      ensures Alnum(id[i]) || id[i] in "-_+" <==> id[i] in SMALL || id[i] in CAPITAL || id[i] in "0123456789-_+"
    {
      LettersMean(id[i]);
    }
  }
}
