/** JSON values printed compactly, and the cursor functions of src/core/minijson.c that
    walk such text without building a tree: `jskip_value` and `jfind_value`. */
module JsonTree {
  import opened CText
  import opened MiniJson

  datatype Json =
    | Null
    | Bool(b: bool)
    | Num(text: string)
    | Str(s: string)
    | Arr(items: seq<Json>)
    | Obj(members: seq<Member>)

  datatype Member = Member(key: string, val: Json)

  predicate NumberChar(c: char) {
    '0' <= c <= '9' || c == '+' || c == '-' || c == '.' || c == 'e' || c == 'E'
  }

  predicate NumberText(t: string) {
    t != "" && forall i :: 0 <= i < |t| ==> NumberChar(t[i])
  }

  predicate Ok(v: Json) {
    match v
    case Num(t) => NumberText(t)
    case Arr(items) => forall i :: 0 <= i < |items| ==> Ok(items[i])
    case Obj(ms) => forall i :: 0 <= i < |ms| ==> Ok(ms[i].val)
    case _ => true
  }

  function Print(v: Json): string
    decreases v, 1
  {
    match v
    case Null => "null"
    case Bool(b) => if b then "true" else "false"
    case Num(t) => t
    case Str(s) => JsonStr(s)
    case Arr(items) => "[" + PrintItems(items) + "]"
    case Obj(ms) => "{" + PrintMembers(ms) + "}"
  }

  function PrintItems(items: seq<Json>): string
    decreases items, 0
  {
    if items == [] then ""
    else if |items| == 1 then Print(items[0])
    else Print(items[0]) + "," + PrintItems(items[1..])
  }

  function PrintMember(m: Member): string
    decreases m, 0
  {
    JsonStr(m.key) + ":" + Print(m.val)
  }

  function PrintMembers(ms: seq<Member>): string
    decreases ms, 0
  {
    if ms == [] then ""
    else if |ms| == 1 then PrintMember(ms[0])
    else PrintMember(ms[0]) + "," + PrintMembers(ms[1..])
  }

  /** Characters the printer leaves as they are. */
  predicate PlainChar(c: char) {
    c as int >= 0x20 && c != '"' && c != '\\'
  }

  lemma {:induction false} EscapePlain(s: string)
    requires forall i :: 0 <= i < |s| ==> PlainChar(s[i])
    ensures Escape(s) == s
  {
    if s != "" {
      EscapePlain(s[1..]);
    }
  }

  lemma SnocText(head: string, tail: string, sep: string, last: string)
    ensures head + "," + (tail + sep + last) == head + "," + tail + sep + last
    ensures head + "," + ("" + "" + last) == head + "," + last
  {
    Cat4(head + ",", tail, sep, last);
    Cat3(tail, sep, last);
    assert "" + "" + last == last;
  }

  lemma {:induction false} ItemsSnoc(items: seq<Json>, v: Json)
    ensures PrintItems(items + [v]) == PrintItems(items) + (if items == [] then "" else ",") + Print(v)
    decreases |items|
  {
    if items == [] {
      assert items + [v] == [v];
    } else {
      ItemsSnoc(items[1..], v);
      assert (items + [v])[1..] == items[1..] + [v];
      var tail := PrintItems(items[1..]);
      var sep := if items[1..] == [] then "" else ",";
      SnocText(Print(items[0]), tail, sep, Print(v));
    }
  }

  lemma {:induction false} MembersSnoc(ms: seq<Member>, m: Member)
    ensures PrintMembers(ms + [m]) == PrintMembers(ms) + (if ms == [] then "" else ",") + PrintMember(m)
    decreases |ms|
  {
    if ms == [] {
      assert ms + [m] == [m];
    } else {
      MembersSnoc(ms[1..], m);
      assert (ms + [m])[1..] == ms[1..] + [m];
      var tail := PrintMembers(ms[1..]);
      var sep := if ms[1..] == [] then "" else ",";
      SnocText(PrintMember(ms[0]), tail, sep, PrintMember(m));
    }
  }

  /** A literal that opens a member, as in `,"content":`. */
  function Opening(sep: string, name: string): string {
    sep + "\"" + name + "\":"
  }

  lemma OpeningIsKey(sep: string, name: string)
    requires forall i :: 0 <= i < |name| ==> PlainChar(name[i])
    ensures Opening(sep, name) == sep + JsonStr(name) + ":"
    ensures forall i :: 0 <= i < |name| ==> name[i] != '\0'
  {
    EscapePlain(name);
  }

  lemma TwoMemberText(a: Member, b: Member)
    ensures PrintMembers([a, b]) == PrintMember(a) + "," + PrintMember(b)
  {
    assert [a, b][1..] == [b];
  }

  lemma ThreeMemberText(a: Member, b: Member, c: Member)
    ensures PrintMembers([a, b, c]) == PrintMember(a) + "," + (PrintMember(b) + "," + PrintMember(c))
  {
    assert [a, b, c][1..] == [b, c];
    TwoMemberText(b, c);
  }

  lemma Join2(o: string, k0: string, c: string, v0: string, s: string, k1: string, v1: string, e: string)
    ensures (o + k0 + c) + v0 + (s + k1 + c) + v1 + e == o + ((k0 + c + v0) + s + (k1 + c + v1)) + e
  {
  }

  lemma Join3(o: string, k0: string, c: string, v0: string, s: string, k1: string, v1: string, k2: string, v2: string,
              e: string)
    ensures (o + k0 + c) + v0 + (s + k1 + c) + v1 + (s + k2 + c) + v2 + e
            == o + ((k0 + c + v0) + s + ((k1 + c + v1) + s + (k2 + c + v2))) + e
  {
  }

  predicate PlainKey(k: string) {
    forall i :: 0 <= i < |k| ==> PlainChar(k[i])
  }

  lemma ObjText2(k0: string, v0: Json, k1: string, v1: Json)
    requires PlainKey(k0) && PlainKey(k1)
    ensures Print(Obj([Member(k0, v0), Member(k1, v1)]))
            == Opening("{", k0) + Print(v0) + Opening(",", k1) + Print(v1) + "}"
  {
    OpeningIsKey("{", k0);
    OpeningIsKey(",", k1);
    TwoMemberText(Member(k0, v0), Member(k1, v1));
    Join2("{", JsonStr(k0), ":", Print(v0), ",", JsonStr(k1), Print(v1), "}");
  }

  lemma ObjText3(k0: string, v0: Json, k1: string, v1: Json, k2: string, v2: Json)
    requires PlainKey(k0) && PlainKey(k1) && PlainKey(k2)
    ensures Print(Obj([Member(k0, v0), Member(k1, v1), Member(k2, v2)]))
            == Opening("{", k0) + Print(v0) + Opening(",", k1) + Print(v1) + Opening(",", k2) + Print(v2) + "}"
  {
    OpeningIsKey("{", k0);
    OpeningIsKey(",", k1);
    OpeningIsKey(",", k2);
    ThreeMemberText(Member(k0, v0), Member(k1, v1), Member(k2, v2));
    Join3("{", JsonStr(k0), ":", Print(v0), ",", JsonStr(k1), Print(v1), JsonStr(k2), Print(v2), "}");
  }

  // ---- the cursor functions --------------------------------------------

  function Ws(p: string): (r: string)
    ensures |r| <= |p|
  {
    if p != "" && Blank(p[0]) then Ws(p[1..]) else p
  }

  method Jws(p: string) returns (r: string)
    ensures r == Ws(p)
  {
    r := p;
    while Blank(At(r, 0))
      invariant Ws(r) == Ws(p)
      decreases |r|
    {
      r := r[1..];
    }
  }

  predicate Delimiter(c: char) {
    c == '\0' || c == ',' || c == '}' || c == ']'
  }

  function SkipScalar(p: string): (r: string)
    ensures |r| <= |p|
  {
    if Delimiter(At(p, 0)) then p else SkipScalar(p[1..])
  }

  /** The depth scan of a container; only its own kind of bracket counts. */
  function SkipNested(p: string, open: char, close: char, depth: int): (r: Option<string>)
    ensures r.Some? ==> |r.value| <= |p|
    decreases |p|
  {
    if At(p, 0) == '\0' then (if depth != 0 then None else Some(p))
    else if p[0] == '"' then
      (if ReadString(p).None? then None else SkipNested(ReadString(p).value.1, open, close, depth))
    else if p[0] == open then SkipNested(p[1..], open, close, depth + 1)
    else if p[0] == close then
      (if depth - 1 == 0 then Some(p[1..]) else SkipNested(p[1..], open, close, depth - 1))
    else SkipNested(p[1..], open, close, depth)
  }

  function Closing(open: char): char {
    if open == '{' then '}' else ']'
  }

  function SkipValue(p: string): (r: Option<string>)
    ensures r.Some? ==> |r.value| <= |p|
  {
    var q := Ws(p);
    if At(q, 0) == '"' then
      (if ReadString(q).None? then None else Some(ReadString(q).value.1))
    else if At(q, 0) == '{' || At(q, 0) == '[' then SkipNested(q, q[0], Closing(q[0]), 0)
    else if SkipScalar(q) == q then None
    else Some(SkipScalar(q))
  }

  method JskipValue(p: string) returns (ok: bool, rest: string)
    ensures ok == SkipValue(p).Some?
    ensures ok ==> rest == SkipValue(p).value
  {
    var q := Jws(p);
    ok, rest := false, p;
    if At(q, 0) == '"' {
      var out;
      ok, out, rest := JreadString(q, 8);
    } else if At(q, 0) == '{' || At(q, 0) == '[' {
      var open, close, depth := q[0], Closing(q[0]), 0;
      while At(q, 0) != '\0'
        invariant SkipValue(p) == SkipNested(q, open, close, depth)
        decreases |q|
      {
        if q[0] == '"' {
          var good, out, next := JreadString(q, 8);
          if !good {
            return;
          }
          q := next;
          continue;
        }
        if q[0] == open {
          depth := depth + 1;
        } else if q[0] == close {
          depth := depth - 1;
          if depth == 0 {
            return true, q[1..];
          }
        }
        q := q[1..];
      }
      ok, rest := depth == 0, q;
    } else {
      var start := q;
      while !Delimiter(At(q, 0))
        invariant SkipScalar(start) == SkipScalar(q) && |q| <= |start|
        invariant q != start ==> |q| < |start|
        decreases |q|
      {
        q := q[1..];
      }
      ok, rest := q != start, q;
    }
  }

  const KEY_BUFFER := 64

  function FindMember(p: string, key: string): (r: Option<string>)
    ensures r.Some? ==> |r.value| < |p|
    decreases |p|
  {
    var q := Ws(p);
    if At(q, 0) == '}' || At(q, 0) == '\0' || ReadString(q).None? then None else
    var (k, r) := ReadString(q).value;
    var colon := Ws(r);
    if At(colon, 0) != ':' then None else
    var v := Ws(colon[1..]);
    if Seen(k, KEY_BUFFER) == key then Some(v)
    else if SkipValue(v).None? then None
    else
      var c := Ws(SkipValue(v).value);
      if At(c, 0) == ',' then FindMember(c[1..], key) else None
  }

  /** `jfind_value`: the text that starts at the value. */
  function FindValue(p: string, key: string): (r: Option<string>)
    ensures r.Some? ==> |r.value| < |p|
  {
    var q := Ws(p);
    if At(q, 0) != '{' then None else FindMember(q[1..], key)
  }

  method JfindValue(obj: string, key: string) returns (r: Option<string>)
    ensures r == FindValue(obj, key)
  {
    var p := Jws(obj);
    if At(p, 0) != '{' {
      return None;
    }
    p := p[1..];
    while true
      invariant FindValue(obj, key) == FindMember(p, key)
      decreases |p|
    {
      p := Jws(p);
      if At(p, 0) == '}' || At(p, 0) == '\0' {
        return None;
      }
      var good, kbuf, next := JreadString(p, KEY_BUFFER);
      if !good {
        return None;
      }
      p := Jws(next);
      if At(p, 0) != ':' {
        return None;
      }
      p := Jws(p[1..]);
      if CStr(kbuf) == key {
        return Some(p);
      }
      var skipped, after := JskipValue(p);
      if !skipped {
        return None;
      }
      p := Jws(after);
      if At(p, 0) != ',' {
        return None;
      }
      p := p[1..];
    }
  }

  // ---- skipping printed values -----------------------------------------

  predicate Brackets(open: char, close: char) {
    (open == '{' && close == '}') || (open == '[' && close == ']')
  }

  predicate Plain(t: string, open: char, close: char) {
    forall i :: 0 <= i < |t| ==> t[i] != '\0' && t[i] != '"' && t[i] != open && t[i] != close
  }

  lemma {:induction false} NestedPlain(t: string, rest: string, open: char, close: char, d: int)
    requires Plain(t, open, close)
    ensures SkipNested(t + rest, open, close, d) == SkipNested(rest, open, close, d)
    decreases |t|
  {
    if t == "" {
      assert t + rest == rest;
    } else {
      NestedPlain(t[1..], rest, open, close, d);
      assert (t + rest)[1..] == t[1..] + rest;
    }
  }

  lemma NestedString(s: string, rest: string, open: char, close: char, d: int)
    requires Brackets(open, close)
    ensures SkipNested(JsonStr(s) + rest, open, close, d) == SkipNested(rest, open, close, d)
  {
    StringRoundTrip(s, rest);
  }

  /** Inside a container, a printed value leaves the depth where it was. */
  lemma {:induction false} NestedThrough(v: Json, rest: string, open: char, close: char, d: int)
    requires Ok(v) && Brackets(open, close) && d >= 1
    ensures SkipNested(Print(v) + rest, open, close, d) == SkipNested(rest, open, close, d)
    decreases v, 1
  {
    match v {
      case Str(s) =>
        NestedString(s, rest, open, close, d);
      case Arr(items) =>
        NestedItems(items, "]" + rest, open, close, if open == '[' then d + 1 else d);
        NestedWrap("[", PrintItems(items), "]", rest, open, close, d);
      case Obj(ms) =>
        NestedMembers(ms, "}" + rest, open, close, if open == '{' then d + 1 else d);
        NestedWrap("{", PrintMembers(ms), "}", rest, open, close, d);
      case _ =>
        PrintHead(v);
        NestedPlain(Print(v), rest, open, close, d);
    }
  }

  /** A container around text that leaves the depth alone leaves it alone too. */
  lemma NestedWrap(l: string, body: string, r: string, rest: string, open: char, close: char, d: int)
    requires Brackets(open, close) && d >= 1 && |l| == |r| == 1 && Brackets(l[0], r[0])
    requires var e := if open == l[0] then d + 1 else d;
             SkipNested(body + (r + rest), open, close, e) == SkipNested(r + rest, open, close, e)
    ensures SkipNested(l + body + r + rest, open, close, d) == SkipNested(rest, open, close, d)
  {
    Cat4(l, body, r, rest);
    NestedBracket(l, body + (r + rest), open, close, d);
    NestedBracket(r, rest, open, close, if open == l[0] then d + 1 else d);
  }

  /** One bracket: counted when it is of the scanned kind and not the last one closed. */
  lemma NestedBracket(b: string, rest: string, open: char, close: char, d: int)
    requires |b| == 1 && b[0] != '\0' && b[0] != '"' && Brackets(open, close)
    requires b[0] == close ==> d != 1
    ensures SkipNested(b + rest, open, close, d)
            == SkipNested(rest, open, close, if b[0] == open then d + 1 else if b[0] == close then d - 1 else d)
  {
    assert (b + rest)[1..] == rest;
  }

  lemma {:induction false} NestedItems(items: seq<Json>, rest: string, open: char, close: char, d: int)
    requires (forall i :: 0 <= i < |items| ==> Ok(items[i])) && Brackets(open, close) && d >= 1
    ensures SkipNested(PrintItems(items) + rest, open, close, d) == SkipNested(rest, open, close, d)
    decreases items, 0
  {
    if items == [] {
      assert PrintItems(items) + rest == rest;
    } else if |items| == 1 {
      NestedThrough(items[0], rest, open, close, d);
    } else {
      var tail := PrintItems(items[1..]) + rest;
      assert PrintItems(items) + rest == Print(items[0]) + ("," + tail);
      NestedThrough(items[0], "," + tail, open, close, d);
      NestedPlain(",", tail, open, close, d);
      NestedItems(items[1..], rest, open, close, d);
    }
  }

  lemma {:induction false} NestedMember(m: Member, rest: string, open: char, close: char, d: int)
    requires Ok(m.val) && Brackets(open, close) && d >= 1
    ensures SkipNested(PrintMember(m) + rest, open, close, d) == SkipNested(rest, open, close, d)
    decreases m, 0
  {
    var value := Print(m.val) + rest;
    Cat4(JsonStr(m.key), ":", Print(m.val), rest);
    NestedString(m.key, ":" + value, open, close, d);
    NestedPlain(":", value, open, close, d);
    NestedThrough(m.val, rest, open, close, d);
  }

  lemma {:induction false} NestedMembers(ms: seq<Member>, rest: string, open: char, close: char, d: int)
    requires (forall i :: 0 <= i < |ms| ==> Ok(ms[i].val)) && Brackets(open, close) && d >= 1
    ensures SkipNested(PrintMembers(ms) + rest, open, close, d) == SkipNested(rest, open, close, d)
    decreases ms, 0
  {
    if ms == [] {
      assert PrintMembers(ms) + rest == rest;
    } else if |ms| == 1 {
      NestedMember(ms[0], rest, open, close, d);
    } else {
      var tail := PrintMembers(ms[1..]) + rest;
      NestedMembers(ms[1..], rest, open, close, d);
      NestedPlain(",", tail, open, close, d);
      NestedMember(ms[0], "," + tail, open, close, d);
      assert PrintMembers(ms) + rest == PrintMember(ms[0]) + ("," + tail) by {
        MembersText(ms, rest);
      }
    }
  }

  lemma MembersText(ms: seq<Member>, rest: string)
    requires |ms| > 1
    ensures PrintMembers(ms) + rest == PrintMember(ms[0]) + ("," + (PrintMembers(ms[1..]) + rest))
  {
    Cat4(PrintMember(ms[0]), ",", PrintMembers(ms[1..]), rest);
  }

  lemma {:induction false} ScalarThrough(t: string, rest: string)
    requires forall i :: 0 <= i < |t| ==> !Delimiter(t[i])
    requires Delimiter(At(rest, 0))
    ensures SkipScalar(t + rest) == rest
    decreases |t|
  {
    if t == "" {
      assert t + rest == rest;
    } else {
      ScalarThrough(t[1..], rest);
      assert (t + rest)[1..] == t[1..] + rest;
    }
  }

  predicate SelfDelimiting(v: Json) {
    v.Str? || v.Arr? || v.Obj?
  }

  predicate ScalarText(t: string) {
    t != "" && forall i :: 0 <= i < |t| ==> NumberChar(t[i]) || 'a' <= t[i] <= 'z'
  }

  lemma PrintHead(v: Json)
    requires Ok(v)
    ensures Print(v) != "" && !Blank(Print(v)[0])
    ensures !SelfDelimiting(v) ==> ScalarText(Print(v))
  {
  }

  lemma SkipWrapped(l: string, body: string, r: string, rest: string)
    requires |l| == |r| == 1 && Brackets(l[0], r[0])
    requires SkipNested(body + (r + rest), l[0], r[0], 1) == SkipNested(r + rest, l[0], r[0], 1)
    ensures SkipValue(l + body + r + rest) == Some(rest)
  {
    Cat4(l, body, r, rest);
    var p := l + (body + (r + rest));
    assert p[0] == l[0] && p[1..] == body + (r + rest);
    assert Ws(p) == p && Closing(l[0]) == r[0];
    assert SkipNested(p, l[0], r[0], 0) == SkipNested(body + (r + rest), l[0], r[0], 1);
    assert (r + rest)[1..] == rest;
  }

  lemma SkipPrintedScalar(t: string, rest: string)
    requires ScalarText(t) && Delimiter(At(rest, 0))
    ensures SkipValue(t + rest) == Some(rest)
  {
    assert (t + rest)[0] == t[0];
    ScalarThrough(t, rest);
  }

  /** Skipping a printed value stops exactly at its end; a number, true, false or null
      needs a delimiter or the end of the text after it. */
  lemma SkipPrinted(v: Json, rest: string)
    requires Ok(v)
    requires SelfDelimiting(v) || Delimiter(At(rest, 0))
    ensures SkipValue(Print(v) + rest) == Some(rest)
  {
    match v {
      case Str(s) =>
        StringRoundTrip(s, rest);
      case Arr(items) =>
        NestedItems(items, "]" + rest, '[', ']', 1);
        SkipWrapped("[", PrintItems(items), "]", rest);
      case Obj(ms) =>
        NestedMembers(ms, "}" + rest, '{', '}', 1);
        SkipWrapped("{", PrintMembers(ms), "}", rest);
      case _ =>
        PrintHead(v);
        SkipPrintedScalar(Print(v), rest);
    }
  }

  // ---- finding printed members -----------------------------------------

  predicate Hit(m: Member, key: string) {
    Take(CStr(m.key), KEY_BUFFER - 1) == key
  }

  /** The text that starts at the value of member `i`. */
  function ValueText(ms: seq<Member>, i: nat, rest: string): string
    requires i < |ms|
  {
    Print(ms[i].val) + (if i + 1 < |ms| then "," + PrintMembers(ms[i + 1..]) else "") + "}" + rest
  }

  function FirstHit(ms: seq<Member>, key: string): (r: Option<nat>)
    ensures r.Some? ==> r.value < |ms| && Hit(ms[r.value], key)
                        && forall i :: 0 <= i < r.value ==> !Hit(ms[i], key)
    ensures r.None? ==> forall i :: 0 <= i < |ms| ==> !Hit(ms[i], key)
  {
    if ms == [] then None
    else if Hit(ms[0], key) then Some(0)
    else
      var r := FirstHit(ms[1..], key);
      if r.None? then None else Some(r.value + 1)
  }

  lemma SeenPrintedKey(k: string)
    ensures Seen(CStr(k), KEY_BUFFER) == Take(CStr(k), KEY_BUFFER - 1)
  {
    CStrIsNulFree(k);
    CStrNulFree(Take(CStr(k), KEY_BUFFER - 1));
  }

  /** Lookup at a printed member: its value on a hit, otherwise the next member. */
  lemma FindAtMember(m: Member, after: string, key: string)
    requires Ok(m.val) && Delimiter(At(after, 0))
    ensures FindMember(PrintMember(m) + after, key)
            == if Hit(m, key) then Some(Print(m.val) + after)
               else if At(after, 0) == ',' then FindMember(after[1..], key) else None
  {
    var v := Print(m.val) + after;
    var p := JsonStr(m.key) + (":" + v);
    Cat4(JsonStr(m.key), ":", Print(m.val), after);
    StringRoundTrip(m.key, ":" + v);
    SeenPrintedKey(m.key);
    assert (":" + v)[1..] == v;
    PrintHead(m.val);
    assert Ws(v) == v;
    SkipPrinted(m.val, after);
    assert Ws(after) == after;
  }

  /** The first hit, member by member. */
  function Found(ms: seq<Member>, key: string, rest: string): Option<string> {
    if ms == [] then None
    else if Hit(ms[0], key) then Some(ValueText(ms, 0, rest))
    else Found(ms[1..], key, rest)
  }

  lemma {:induction false} FoundIsFirstHit(ms: seq<Member>, key: string, rest: string)
    ensures FirstHit(ms, key).None? ==> Found(ms, key, rest).None?
    ensures FirstHit(ms, key).Some? ==>
              Found(ms, key, rest) == Some(ValueText(ms, FirstHit(ms, key).value, rest))
  {
    if ms != [] && !Hit(ms[0], key) {
      FoundIsFirstHit(ms[1..], key, rest);
      ValueTextShift(ms, rest);
    }
  }

  lemma FindFirstMember(ms: seq<Member>, key: string, rest: string)
    requires ms != [] && Ok(ms[0].val)
    ensures FindMember(PrintMembers(ms) + "}" + rest, key)
            == if Hit(ms[0], key) then Some(ValueText(ms, 0, rest))
               else if |ms| == 1 then None
               else FindMember(PrintMembers(ms[1..]) + "}" + rest, key)
  {
    var after := AfterMember(ms, rest);
    Cat3(PrintMembers(ms), "}", rest);
    if |ms| > 1 {
      MembersText(ms, "}" + rest);
      Cat3(PrintMembers(ms[1..]), "}", rest);
    }
    assert PrintMembers(ms) + "}" + rest == PrintMember(ms[0]) + after;
    FirstValueText(ms, rest);
    FindAtMember(ms[0], after, key);
    if |ms| > 1 {
      assert after[1..] == PrintMembers(ms[1..]) + "}" + rest;
    }
  }

  lemma {:induction false} FindInMembers(ms: seq<Member>, key: string, rest: string)
    requires forall i :: 0 <= i < |ms| ==> Ok(ms[i].val)
    ensures FindMember(PrintMembers(ms) + "}" + rest, key) == Found(ms, key, rest)
    decreases |ms|
  {
    if ms == [] {
      assert PrintMembers(ms) + "}" + rest == "}" + rest;
    } else {
      FindFirstMember(ms, key, rest);
      if |ms| > 1 {
        FindInMembers(ms[1..], key, rest);
      }
    }
  }

  lemma FirstValueText(ms: seq<Member>, rest: string)
    requires ms != []
    ensures ValueText(ms, 0, rest) == Print(ms[0].val) + AfterMember(ms, rest)
  {
    if |ms| > 1 {
      Cat4(Print(ms[0].val), "," + PrintMembers(ms[1..]), "}", rest);
      Cat3(",", PrintMembers(ms[1..]), "}" + rest);
      Cat3(PrintMembers(ms[1..]), "}", rest);
    } else {
      assert Print(ms[0].val) + "" == Print(ms[0].val);
      Cat3(Print(ms[0].val), "}", rest);
    }
  }

  /** The text that follows the first member. */
  function AfterMember(ms: seq<Member>, rest: string): string
    requires ms != []
  {
    if |ms| == 1 then "}" + rest else "," + (PrintMembers(ms[1..]) + "}" + rest)
  }

  lemma ValueTextShift(ms: seq<Member>, rest: string)
    requires ms != []
    ensures forall i :: 0 <= i < |ms| - 1 ==> ValueText(ms[1..], i, rest) == ValueText(ms, i + 1, rest)
  {
    forall i | 0 <= i < |ms| - 1
      ensures ValueText(ms[1..], i, rest) == ValueText(ms, i + 1, rest)
    {
      assert ms[1..][i + 1..] == ms[i + 2..];
    }
  }

  /** Key lookup in a printed object returns the start of the value of the first member,
      at the top level only, whose key has `key` as its first 63 bytes. */
  lemma FindPrinted(ms: seq<Member>, key: string, rest: string)
    requires Ok(Obj(ms))
    ensures FirstHit(ms, key).None? ==> FindValue(Print(Obj(ms)) + rest, key) == None
    ensures FirstHit(ms, key).Some? ==>
              FindValue(Print(Obj(ms)) + rest, key) == Some(ValueText(ms, FirstHit(ms, key).value, rest))
  {
    var body := PrintMembers(ms) + "}" + rest;
    assert Print(Obj(ms)) + rest == "{" + body && ("{" + body)[1..] == body;
    FindInMembers(ms, key, rest);
    FoundIsFirstHit(ms, key, rest);
  }

  /** Lookup compares a member key exactly, unless the key overflows the 63-byte buffer
      and equals the wanted key, wholly or in its first 63 bytes. */
  lemma HitIsExact(m: Member, key: string)
    requires NulFree(m.key)
    ensures (Hit(m, key) <==> m.key == key)
            <==> !(|m.key| > KEY_BUFFER - 1 && (m.key[..KEY_BUFFER - 1] == key || m.key == key))
  {
    CStrNulFree(m.key);
  }

  /** A 64-byte key is not found under its own name, but under its first 63 bytes. */
  lemma LongKeyMissesItself(rest: string)
    ensures var k := seq(KEY_BUFFER, _ => 'k');
            var text := Print(Obj([Member(k, Null)])) + rest;
            FindValue(text, k) == None && FindValue(text, k[..KEY_BUFFER - 1]).Some?
  {
    var k := seq(KEY_BUFFER, _ => 'k');
    var ms := [Member(k, Null)];
    CStrNulFree(k);
    assert !Hit(ms[0], k) && Hit(ms[0], k[..KEY_BUFFER - 1]);
    FindPrinted(ms, k, rest);
    FindPrinted(ms, k[..KEY_BUFFER - 1], rest);
  }
}
