/** What `session_load` of src/agent/session.c makes of any JSON object, however it is written. */
module SessionText {
  import opened CText
  import opened MiniJson
  import opened JsonTree
  import opened JsonText
  import opened SessionStore

  /** A key as a buffer for `max` bytes holds it. */
  function Key(f: Field, max: nat): string
    requires ItemsOk(f.key)
  {
    CStr(Take(Meaning(f.key), max))
  }

  function Chars(d: Doc, max: nat): string
    requires d.Text? && ItemsOk(d.lit)
  {
    CStr(Take(Meaning(d.lit), max))
  }

  // ---- what an object says ---------------------------------------------

  /** The last role and the last content of a message object, cut to 15 and 2000 bytes. */
  function MsgAfter(fields: seq<Field>, got: Msg): Msg
    requires IsMsg(fields)
  {
    if fields == [] then got else MsgAfter(fields[1..], FieldAfter(fields[0], got))
  }

  function FieldAfter(f: Field, got: Msg): Msg
    requires IsMsgField(f)
  {
    if Key(f, 23) == "role" then Msg(Chars(f.doc, 15), got.content)
    else if Key(f, 23) == "content" then Msg(got.role, Chars(f.doc, 2000)) else got
  }

  predicate IsMsgField(f: Field) {
    FieldOk(f) && (Key(f, 23) == "role" || Key(f, 23) == "content" ==> f.doc.Text?)
  }

  predicate IsMsg(fields: seq<Field>) {
    forall i :: 0 <= i < |fields| ==> IsMsgField(fields[i])
  }

  predicate AreMsgs(items: seq<Slot>) {
    SlotsOk(items) && forall i :: 0 <= i < |items| ==> items[i].doc.Record? && IsMsg(items[i].doc.fields)
  }

  function MsgsAfter(items: seq<Slot>, m: Memory): Memory
    requires AreMsgs(items)
  {
    if items == [] then m else MsgsAfter(items[1..], KeepMsg(m, MsgAfter(items[0].doc.fields, Msg("", ""))))
  }

  predicate AreFacts(fields: seq<Field>) {
    FieldsOk(fields) && forall i :: 0 <= i < |fields| ==> fields[i].doc.Text?
  }

  function FactsAfter(fields: seq<Field>, m: Memory): Memory
    requires AreFacts(fields)
  {
    if fields == [] then m
    else FactsAfter(fields[1..], KeepFact(m, Fact(Key(fields[0], 64), Chars(fields[0].doc, 768))))
  }

  /** One member of the file: an array of messages, an object of facts, or anything else. */
  predicate IsMember(f: Field) {
    FieldOk(f)
    && (Key(f, 23) == "messages" && f.doc.List? ==> AreMsgs(f.doc.items))
    && (Key(f, 23) == "facts" && f.doc.Record? ==> AreFacts(f.doc.fields))
  }

  function MemberAfter(f: Field, m: Memory): Memory
    requires IsMember(f)
  {
    if Key(f, 23) == "messages" && f.doc.List? then MsgsAfter(f.doc.items, m)
    else if Key(f, 23) == "facts" && f.doc.Record? then FactsAfter(f.doc.fields, m)
    else m
  }

  predicate IsFile(fields: seq<Field>) {
    forall i :: 0 <= i < |fields| ==> IsMember(fields[i])
  }

  function FileAfter(fields: seq<Field>, m: Memory): Memory
    requires IsFile(fields)
  {
    if fields == [] then m else FileAfter(fields[1..], MemberAfter(fields[0], m))
  }

  // ---- reading it ------------------------------------------------------

  lemma KeyLoads(f: Field, more: string, size: nat)
    requires FieldOk(f) && size > 0
    ensures At(Ws(PutField(f, more)), 0) == '"'
    ensures ReadKey(Ws(PutField(f, more)), size) == Some((Key(f, size - 1), Put(f.doc, f.after + more)))
  {
    KeyReads(f, more);
  }

  /** What follows a value: the delimiter, without a comma. */
  function Behind(more: string): string
    requires more != ""
  {
    if more[0] == ',' then more[1..] else more
  }

  lemma CommaLoads(after: string, more: string)
    requires Blanks(after) && At(more, 0) in ",}]"
    ensures SkipComma(after + more) == Behind(more)
  {
    BlanksSkipped(after, more);
  }

  lemma MsgFieldLoads(f: Field, more: string, got: Msg)
    requires IsMsgField(f) && At(more, 0) in ",}"
    ensures LoadFields(PutField(f, more), got) == LoadFields(Behind(more), FieldAfter(f, got))
  {
    KeyLoads(f, more, KEY_BUF);
    if f.doc.Text? {
      LitReads(f.doc.lit, f.after + more);
      CommaLoads(f.after, more);
    }
    SkipDoc(f.doc, f.after, more);
  }

  lemma {:induction false} MsgFieldsLoad(fields: seq<Field>, gap: string, rest: string, got: Msg)
    requires IsMsg(fields) && Blanks(gap)
    ensures LoadFields(PutFields(fields, gap, "}" + rest), got) == Some((rest, MsgAfter(fields, got)))
    decreases |fields|
  {
    var end := "}" + rest;
    assert end[1..] == rest;
    if fields == [] {
      BlanksSkipped(gap, end);
    } else {
      var more := if |fields| == 1 then end else "," + PutFields(fields[1..], gap, end);
      MsgFieldLoads(fields[0], more, got);
      if |fields| > 1 {
        assert Behind(more) == PutFields(fields[1..], gap, end);
        MsgFieldsLoad(fields[1..], gap, rest, FieldAfter(fields[0], got));
      }
    }
  }

  lemma {:induction false} MsgsLoad(items: seq<Slot>, gap: string, rest: string, m: Memory)
    requires AreMsgs(items) && Blanks(gap)
    ensures LoadMsgs(PutSlots(items, gap, "]" + rest), m) == Go(rest, MsgsAfter(items, m))
    decreases |items|
  {
    var end := "]" + rest;
    assert end[1..] == rest;
    if items == [] {
      BlanksSkipped(gap, end);
    } else {
      var more := if |items| == 1 then end else "," + PutSlots(items[1..], gap, end);
      MsgLoads(items[0], more, m);
      if |items| > 1 {
        assert Behind(more) == PutSlots(items[1..], gap, end);
        MsgsLoad(items[1..], gap, rest, KeepMsg(m, MsgAfter(items[0].doc.fields, Msg("", ""))));
      }
    }
  }

  lemma MsgLoads(s: Slot, more: string, m: Memory)
    requires Blanks(s.before) && Blanks(s.after) && s.doc.Record? && DocOk(s.doc) && IsMsg(s.doc.fields)
    requires At(more, 0) in ",]"
    ensures LoadMsgs(s.before + Put(s.doc, s.after + more), m)
            == LoadMsgs(Behind(more), KeepMsg(m, MsgAfter(s.doc.fields, Msg("", ""))))
  {
    var p := Put(s.doc, s.after + more);
    BlanksSkipped(s.before, p);
    PutHead(s.doc, s.after + more);
    assert p[1..] == PutFields(s.doc.fields, s.doc.gap, "}" + (s.after + more));
    MsgFieldsLoad(s.doc.fields, s.doc.gap, s.after + more, Msg("", ""));
    CommaLoads(s.after, more);
  }

  lemma FactLoads(f: Field, more: string, m: Memory)
    requires FieldOk(f) && f.doc.Text? && At(more, 0) in ",}"
    ensures LoadFacts(PutField(f, more), m)
            == LoadFacts(Behind(more), KeepFact(m, Fact(Key(f, 64), Chars(f.doc, 768))))
  {
    KeyLoads(f, more, KEY_MAX + 1);
    LitReads(f.doc.lit, f.after + more);
    CommaLoads(f.after, more);
  }

  lemma {:induction false} FactsLoad(fields: seq<Field>, gap: string, rest: string, m: Memory)
    requires AreFacts(fields) && Blanks(gap)
    ensures LoadFacts(PutFields(fields, gap, "}" + rest), m) == Go(rest, FactsAfter(fields, m))
    decreases |fields|
  {
    var end := "}" + rest;
    assert end[1..] == rest;
    if fields == [] {
      BlanksSkipped(gap, end);
    } else {
      var more := if |fields| == 1 then end else "," + PutFields(fields[1..], gap, end);
      FactLoads(fields[0], more, m);
      if |fields| > 1 {
        assert Behind(more) == PutFields(fields[1..], gap, end);
        FactsLoad(fields[1..], gap, rest, KeepFact(m, Fact(Key(fields[0], 64), Chars(fields[0].doc, 768))));
      }
    }
  }

  /** The value of one member: the memory it leads to, and the delimiter behind it. */
  lemma ValueLoads(f: Field, more: string, m: Memory)
    requires IsMember(f) && At(more, 0) in ",}"
    ensures var step := LoadMember(Key(f, 23), Put(f.doc, f.after + more), m);
            step.Go? && Ws(step.rest) == more && step.m == MemberAfter(f, m)
  {
    var rest := f.after + more;
    var v := Put(f.doc, rest);
    PutHead(f.doc, rest);
    BlanksSkipped(f.after, more);
    if Key(f, 23) == "messages" && f.doc.List? {
      assert v[1..] == PutSlots(f.doc.items, f.doc.gap, "]" + rest);
      MsgsLoad(f.doc.items, f.doc.gap, rest, m);
    } else if Key(f, 23) == "facts" && f.doc.Record? {
      assert v[1..] == PutFields(f.doc.fields, f.doc.gap, "}" + rest);
      FactsLoad(f.doc.fields, f.doc.gap, rest, m);
    } else {
      SkipDoc(f.doc, f.after, more);
    }
  }

  lemma {:induction false} MembersLoad(fields: seq<Field>, gap: string, rest: string, m: Memory)
    requires IsFile(fields) && Blanks(gap)
    ensures LoadMembers(PutFields(fields, gap, "}" + rest), m) == (0, FileAfter(fields, m))
    decreases |fields|
  {
    var end := "}" + rest;
    if fields == [] {
      BlanksSkipped(gap, end);
    } else {
      var more := if |fields| == 1 then end else "," + PutFields(fields[1..], gap, end);
      KeyLoads(fields[0], more, KEY_BUF);
      ValueLoads(fields[0], more, m);
      if |fields| > 1 {
        assert more[1..] == PutFields(fields[1..], gap, end);
        MembersLoad(fields[1..], gap, rest, MemberAfter(fields[0], m));
      }
    }
  }

  /** Any object as a file: its messages and facts are kept in order, whatever blanks and escapes it is
      written with and whatever else it holds. */
  lemma FileLoads(gap: string, fields: seq<Field>, rest: string)
    requires IsFile(fields) && Blanks(gap)
    ensures LoadText(Put(Record(gap, fields), rest)) == (0, FileAfter(fields, EMPTY))
  {
    assert Put(Record(gap, fields), rest)[1..] == PutFields(fields, gap, "}" + rest);
    MembersLoad(fields, gap, rest, EMPTY);
  }
}
