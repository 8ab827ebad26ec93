/** JSON text as others may write it, with blanks between its parts and any escapes in its strings,
    and what the cursor of src/core/minijson.c reads in it. */
module JsonText {
  import opened CText
  import opened MiniJson
  import opened JsonTree
  import Shards

  /** A value as written: gaps are blanks, strings and keys are literals item by item. */
  datatype Doc = Scalar(t: string) | Text(lit: seq<Item>) | List(gap: string, items: seq<Slot>)
               | Record(gap: string, fields: seq<Field>)

  datatype Slot = Slot(before: string, doc: Doc, after: string)

  datatype Field = Field(before: string, key: seq<Item>, mid: string, between: string, doc: Doc, after: string)

  predicate Blanks(g: string) {
    forall i :: 0 <= i < |g| ==> g[i] == ' ' || g[i] == '\t' || g[i] == '\r' || g[i] == '\n'
  }

  predicate DocOk(d: Doc) {
    match d
    case Scalar(t) => ScalarText(t)
    case Text(lit) => ItemsOk(lit)
    case List(gap, items) =>
      Blanks(gap)
      && forall i :: 0 <= i < |items| ==> Blanks(items[i].before) && DocOk(items[i].doc) && Blanks(items[i].after)
    case Record(gap, fields) =>
      Blanks(gap)
      && forall i :: 0 <= i < |fields| ==>
           Blanks(fields[i].before) && ItemsOk(fields[i].key) && Blanks(fields[i].mid) && Blanks(fields[i].between)
           && DocOk(fields[i].doc) && Blanks(fields[i].after)
  }

  predicate SlotsOk(items: seq<Slot>) {
    forall i :: 0 <= i < |items| ==> Blanks(items[i].before) && DocOk(items[i].doc) && Blanks(items[i].after)
  }

  predicate FieldOk(f: Field) {
    Blanks(f.before) && ItemsOk(f.key) && Blanks(f.mid) && Blanks(f.between) && DocOk(f.doc) && Blanks(f.after)
  }

  predicate FieldsOk(fields: seq<Field>) {
    forall i :: 0 <= i < |fields| ==> FieldOk(fields[i])
  }

  function PutLit(lit: seq<Item>, rest: string): string {
    "\"" + (ItemsText(lit) + ("\"" + rest))
  }

  /** The value written out, with `rest` behind it. */
  function Put(d: Doc, rest: string): string
    decreases d, 1
  {
    match d
    case Scalar(t) => t + rest
    case Text(lit) => PutLit(lit, rest)
    case List(gap, items) => "[" + PutSlots(items, gap, "]" + rest)
    case Record(gap, fields) => "{" + PutFields(fields, gap, "}" + rest)
  }

  function PutSlots(items: seq<Slot>, gap: string, rest: string): string
    decreases items, 0
  {
    if items == [] then gap + rest
    else items[0].before
         + Put(items[0].doc, items[0].after + if |items| == 1 then rest else "," + PutSlots(items[1..], gap, rest))
  }

  function PutField(f: Field, rest: string): string
    decreases f, 0
  {
    f.before + PutLit(f.key, f.mid + (":" + (f.between + Put(f.doc, f.after + rest))))
  }

  function PutFields(fields: seq<Field>, gap: string, rest: string): string
    decreases fields, 0
  {
    if fields == [] then gap + rest
    else PutField(fields[0], if |fields| == 1 then rest else "," + PutFields(fields[1..], gap, rest))
  }

  // ---- skipping --------------------------------------------------------

  lemma {:induction false} BlanksSkipped(g: string, rest: string)
    requires Blanks(g)
    ensures Ws(g + rest) == Ws(rest)
    decreases |g|
  {
    if g == "" {
      assert g + rest == rest;
    } else {
      assert (g + rest)[1..] == g[1..] + rest;
      BlanksSkipped(g[1..], rest);
    }
  }

  lemma LitReads(lit: seq<Item>, rest: string)
    requires ItemsOk(lit)
    ensures ReadString(PutLit(lit, rest)) == Some((Meaning(lit), rest))
    ensures PutLit(lit, rest) != "" && PutLit(lit, rest)[0] == '"'
  {
    Cat3(ItemsText(lit), "\"", rest);
    assert PutLit(lit, rest)[1..] == ItemsText(lit) + "\"" + rest;
    ReadItems(lit, rest);
  }

  lemma NestedLit(lit: seq<Item>, rest: string, open: char, close: char, d: int)
    requires ItemsOk(lit) && Brackets(open, close)
    ensures SkipNested(PutLit(lit, rest), open, close, d) == SkipNested(rest, open, close, d)
  {
    LitReads(lit, rest);
  }

  lemma NestedGap(g: string, rest: string, open: char, close: char, d: int)
    requires Blanks(g) && Brackets(open, close)
    ensures SkipNested(g + rest, open, close, d) == SkipNested(rest, open, close, d)
  {
    NestedPlain(g, rest, open, close, d);
  }

  /** Inside a container a value leaves the depth where it was. */
  lemma {:induction false} NestedDoc(d: Doc, rest: string, open: char, close: char, n: int)
    requires DocOk(d) && Brackets(open, close) && n >= 1
    ensures SkipNested(Put(d, rest), open, close, n) == SkipNested(rest, open, close, n)
    decreases d, 1
  {
    match d {
      case Scalar(t) =>
        NestedPlain(t, rest, open, close, n);
      case Text(lit) =>
        NestedLit(lit, rest, open, close, n);
      case List(gap, items) =>
        var e := if open == '[' then n + 1 else n;
        NestedBracket("[", PutSlots(items, gap, "]" + rest), open, close, n);
        NestedSlots(items, gap, "]" + rest, open, close, e);
        NestedBracket("]", rest, open, close, e);
      case Record(gap, fields) =>
        var e := if open == '{' then n + 1 else n;
        NestedBracket("{", PutFields(fields, gap, "}" + rest), open, close, n);
        NestedFields(fields, gap, "}" + rest, open, close, e);
        NestedBracket("}", rest, open, close, e);
    }
  }

  lemma {:induction false} NestedSlots(items: seq<Slot>, gap: string, rest: string, open: char, close: char, n: int)
    requires Blanks(gap) && SlotsOk(items) && Brackets(open, close) && n >= 1
    ensures SkipNested(PutSlots(items, gap, rest), open, close, n) == SkipNested(rest, open, close, n)
    decreases items, 0
  {
    if items == [] {
      NestedGap(gap, rest, open, close, n);
    } else {
      var more := if |items| == 1 then rest else "," + PutSlots(items[1..], gap, rest);
      var s := items[0];
      NestedGap(s.before, Put(s.doc, s.after + more), open, close, n);
      NestedDoc(s.doc, s.after + more, open, close, n);
      NestedGap(s.after, more, open, close, n);
      if |items| > 1 {
        NestedPlain(",", PutSlots(items[1..], gap, rest), open, close, n);
        NestedSlots(items[1..], gap, rest, open, close, n);
      }
    }
  }

  lemma {:induction false} NestedField(f: Field, more: string, open: char, close: char, n: int)
    requires FieldOk(f) && Brackets(open, close) && n >= 1
    ensures SkipNested(PutField(f, more), open, close, n) == SkipNested(more, open, close, n)
    decreases f, 0
  {
    var value := Put(f.doc, f.after + more);
    NestedGap(f.before, PutLit(f.key, f.mid + (":" + (f.between + value))), open, close, n);
    NestedLit(f.key, f.mid + (":" + (f.between + value)), open, close, n);
    NestedGap(f.mid, ":" + (f.between + value), open, close, n);
    NestedPlain(":", f.between + value, open, close, n);
    NestedGap(f.between, value, open, close, n);
    NestedDoc(f.doc, f.after + more, open, close, n);
    NestedGap(f.after, more, open, close, n);
  }

  lemma {:induction false} NestedFields(fields: seq<Field>, gap: string, rest: string, open: char, close: char, n: int)
    requires Blanks(gap) && FieldsOk(fields) && Brackets(open, close) && n >= 1
    ensures SkipNested(PutFields(fields, gap, rest), open, close, n) == SkipNested(rest, open, close, n)
    decreases fields, 0
  {
    if fields == [] {
      NestedGap(gap, rest, open, close, n);
    } else {
      var more := if |fields| == 1 then rest else "," + PutFields(fields[1..], gap, rest);
      NestedField(fields[0], more, open, close, n);
      if |fields| > 1 {
        NestedPlain(",", PutFields(fields[1..], gap, rest), open, close, n);
        NestedFields(fields[1..], gap, rest, open, close, n);
      }
    }
  }

  lemma PutHead(d: Doc, rest: string)
    requires DocOk(d)
    ensures Put(d, rest) != "" && Ws(Put(d, rest)) == Put(d, rest)
    ensures At(Put(d, rest), 0) == '{' <==> d.Record?
    ensures At(Put(d, rest), 0) == '[' <==> d.List?
    ensures At(Put(d, rest), 0) == '"' <==> d.Text?
  {
    match d {
      case Scalar(t) =>
        assert (t + rest)[0] == t[0];
      case Text(lit) =>
        LitReads(lit, rest);
      case List(gap, items) =>
      case Record(gap, fields) =>
    }
  }

  /** Skipping a value and the blanks behind it comes to the delimiter that follows. */
  lemma SkipDoc(d: Doc, after: string, next: string)
    requires DocOk(d) && Blanks(after) && At(next, 0) in ",}]"
    ensures var r := SkipValue(Put(d, after + next));
            r.Some? && Ws(r.value) == next
  {
    var p := Put(d, after + next);
    BlanksSkipped(after, next);
    PutHead(d, after + next);
    match d {
      case Scalar(t) =>
        Cat3(t, after, next);
        ScalarThrough(t + after, next);
      case Text(lit) =>
        LitReads(lit, after + next);
      case List(gap, items) =>
        SkipList(gap, items, after + next);
      case Record(gap, fields) =>
        SkipRecord(gap, fields, after + next);
    }
  }

  lemma SkipList(gap: string, items: seq<Slot>, rest: string)
    requires Blanks(gap) && SlotsOk(items)
    ensures SkipValue(Put(List(gap, items), rest)) == Some(rest)
  {
    var p, body := Put(List(gap, items), rest), PutSlots(items, gap, "]" + rest);
    assert p[1..] == body && ("]" + rest)[1..] == rest;
    NestedSlots(items, gap, "]" + rest, '[', ']', 1);
  }

  lemma SkipRecord(gap: string, fields: seq<Field>, rest: string)
    requires Blanks(gap) && FieldsOk(fields)
    ensures SkipValue(Put(Record(gap, fields), rest)) == Some(rest)
  {
    var p, body := Put(Record(gap, fields), rest), PutFields(fields, gap, "}" + rest);
    assert p[1..] == body && ("}" + rest)[1..] == rest;
    NestedFields(fields, gap, "}" + rest, '{', '}', 1);
  }

  // ---- finding a member ------------------------------------------------

  /** The key as the 64-byte buffer holds it. */
  function KeyOf(f: Field): string
    requires ItemsOk(f.key)
  {
    CStr(Take(Meaning(f.key), 63))
  }

  /** The place of the first member with this key. */
  function PlaceOf(fields: seq<Field>, key: string): (k: nat)
    requires FieldsOk(fields)
    ensures k <= |fields| && (k < |fields| ==> KeyOf(fields[k]) == key)
    ensures forall j :: 0 <= j < k ==> KeyOf(fields[j]) != key
  {
    if fields == [] || KeyOf(fields[0]) == key then 0 else 1 + PlaceOf(fields[1..], key)
  }

  lemma KeyReads(f: Field, more: string)
    requires FieldOk(f)
    ensures var q := Ws(PutField(f, more));
            var r := ReadString(q);
            At(q, 0) == '"' && r.Some? && r.value.0 == Meaning(f.key)
            && At(Ws(r.value.1), 0) == ':' && Ws(Ws(r.value.1)[1..]) == Put(f.doc, f.after + more)
  {
    var value := Put(f.doc, f.after + more);
    BlanksSkipped(f.before, PutLit(f.key, f.mid + (":" + (f.between + value))));
    LitReads(f.key, f.mid + (":" + (f.between + value)));
    BlanksSkipped(f.mid, ":" + (f.between + value));
    assert (":" + (f.between + value))[1..] == f.between + value;
    BlanksSkipped(f.between, value);
    PutHead(f.doc, f.after + more);
  }

  /** A member is read: its value on a hit, else whatever follows the comma. */
  lemma FieldReads(f: Field, more: string, key: string)
    requires FieldOk(f) && At(more, 0) in ",}"
    ensures FindMember(PutField(f, more), key)
            == if KeyOf(f) == key then Some(Put(f.doc, f.after + more))
               else if more[0] == ',' then FindMember(more[1..], key) else None
  {
    KeyReads(f, more);
    SkipDoc(f.doc, f.after, more);
  }

  /** Lookup returns the text at the value of the first member with the key, and a byte that is no
      digit follows that value. */
  lemma {:induction false} FieldsRead(fields: seq<Field>, gap: string, rest: string, key: string) returns (tail: string)
    requires Blanks(gap) && FieldsOk(fields)
    ensures var k := PlaceOf(fields, key);
            FindMember(PutFields(fields, gap, "}" + rest), key)
            == if k < |fields| then Some(Put(fields[k].doc, tail)) else None
    ensures tail != "" && !Digit(tail[0])
    decreases |fields|
  {
    if fields == [] {
      BlanksSkipped(gap, "}" + rest);
      tail := "}";
    } else {
      var more := if |fields| == 1 then "}" + rest else "," + PutFields(fields[1..], gap, "}" + rest);
      FieldReads(fields[0], more, key);
      tail := fields[0].after + more;
      assert tail[0] == if fields[0].after == "" then more[0] else fields[0].after[0];
      if |fields| > 1 && KeyOf(fields[0]) != key {
        assert more[1..] == PutFields(fields[1..], gap, "}" + rest);
        tail := FieldsRead(fields[1..], gap, rest, key);
      }
    }
  }

  /** `jfind_value` in any object as written. */
  lemma FindReads(lead: string, gap: string, fields: seq<Field>, rest: string, key: string) returns (tail: string)
    requires Blanks(lead) && Blanks(gap) && FieldsOk(fields)
    ensures var k := PlaceOf(fields, key);
            FindValue(lead + Put(Record(gap, fields), rest), key)
            == if k < |fields| then Some(Put(fields[k].doc, tail)) else None
    ensures tail != "" && !Digit(tail[0])
  {
    var p := Put(Record(gap, fields), rest);
    BlanksSkipped(lead, p);
    assert p[1..] == PutFields(fields, gap, "}" + rest);
    tail := FieldsRead(fields, gap, rest, key);
  }

  // ---- tool calls ------------------------------------------------------

  function Named(fields: seq<Field>, key: string): Option<Doc>
    requires FieldsOk(fields)
  {
    var k := PlaceOf(fields, key);
    if k < |fields| then Some(fields[k].doc) else None
  }

  /** A string member, cut to a buffer of `size` bytes. */
  function NamedText(fields: seq<Field>, key: string): Option<string>
    requires FieldsOk(fields)
  {
    var d := Named(fields, key);
    if d.Some? && d.value.Text? && ItemsOk(d.value.lit) then Some(Meaning(d.value.lit)) else None
  }

  function Cut(s: Option<string>, max: nat): Option<string> {
    if s.None? then None else Some(CStr(Take(s.value, max)))
  }

  function Whole(s: Option<string>): Option<string> {
    if s.None? then None else Some(CStr(s.value))
  }

  function NamedIndex(fields: seq<Field>): nat
    requires FieldsOk(fields)
  {
    var d := Named(fields, "index");
    if d.Some? && d.value.Scalar? && Digit(At(d.value.t, 0)) then Shards.Number(d.value.t, 0) else 0
  }

  /** What an element of `tool_calls` says. */
  function Says(fields: seq<Field>): Shards.Shard
    requires FieldsOk(fields)
  {
    var i, id, fn := NamedIndex(fields), Cut(NamedText(fields, "id"), 127), Named(fields, "function");
    if fn.Some? && fn.value.Record? && FieldsOk(fn.value.fields)
    then Shards.Shard(i, id, Cut(NamedText(fn.value.fields, "name"), 127), Whole(NamedText(fn.value.fields, "arguments")))
    else Shards.Shard(i, id, None, None)
  }

  lemma TextReads(gap: string, fields: seq<Field>, rest: string, key: string)
    requires Blanks(gap) && FieldsOk(fields)
    ensures Shards.StringMember(Put(Record(gap, fields), rest), key) == NamedText(fields, key)
  {
    var p := Put(Record(gap, fields), rest);
    assert "" + p == p;
    var tail := FindReads("", gap, fields, rest, key);
    var d := Named(fields, key);
    if d.Some? {
      assert FieldOk(fields[PlaceOf(fields, key)]);
      PutHead(d.value, tail);
      if d.value.Text? {
        LitReads(d.value.lit, tail);
      }
    }
  }

  lemma IndexReads(gap: string, fields: seq<Field>, rest: string)
    requires Blanks(gap) && FieldsOk(fields)
    ensures Shards.IndexOf(Put(Record(gap, fields), rest)) == NamedIndex(fields)
  {
    var p := Put(Record(gap, fields), rest);
    assert "" + p == p;
    var tail := FindReads("", gap, fields, rest, "index");
    var d := Named(fields, "index");
    if d.Some? {
      assert FieldOk(fields[PlaceOf(fields, "index")]);
      PutHead(d.value, tail);
      if d.value.Scalar? {
        assert (d.value.t + tail)[0] == d.value.t[0];
        Shards.NumberEnds(d.value.t, tail, 0);
      }
    }
  }

  lemma ShardReads(gap: string, fields: seq<Field>, rest: string)
    requires Blanks(gap) && FieldsOk(fields)
    ensures Shards.ShardOf(Put(Record(gap, fields), rest)) == Says(fields)
  {
    var p := Put(Record(gap, fields), rest);
    assert "" + p == p;
    IndexReads(gap, fields, rest);
    TextReads(gap, fields, rest, "id");
    var tail := FindReads("", gap, fields, rest, "function");
    var fn := Named(fields, "function");
    if fn.Some? {
      assert FieldOk(fields[PlaceOf(fields, "function")]);
      PutHead(fn.value, tail);
      if fn.value.Record? {
        TextReads(fn.value.gap, fn.value.fields, tail, "name");
        TextReads(fn.value.gap, fn.value.fields, tail, "arguments");
      }
    }
  }

  predicate AllRecords(items: seq<Slot>) {
    SlotsOk(items) && forall i :: 0 <= i < |items| ==> items[i].doc.Record? && FieldsOk(items[i].doc.fields)
  }

  function AllSay(items: seq<Slot>): seq<Shards.Shard>
    requires AllRecords(items)
  {
    if items == [] then [] else [Says(items[0].doc.fields)] + AllSay(items[1..])
  }

  /** Every element of a `tool_calls` array is read, in order, however it is written. */
  lemma {:induction false} ElementsRead(items: seq<Slot>, gap: string, rest: string)
    requires AllRecords(items) && Blanks(gap)
    ensures Shards.Elements(Ws(PutSlots(items, gap, "]" + rest))) == AllSay(items)
    decreases |items|
  {
    if items == [] {
      BlanksSkipped(gap, "]" + rest);
    } else {
      var more := if |items| == 1 then "]" + rest else "," + PutSlots(items[1..], gap, "]" + rest);
      var s := items[0];
      var p := Put(s.doc, s.after + more);
      BlanksSkipped(s.before, p);
      PutHead(s.doc, s.after + more);
      ShardReads(s.doc.gap, s.doc.fields, s.after + more);
      SkipDoc(s.doc, s.after, more);
      if |items| > 1 {
        assert more[1..] == PutSlots(items[1..], gap, "]" + rest);
        ElementsRead(items[1..], gap, rest);
      }
    }
  }
}
