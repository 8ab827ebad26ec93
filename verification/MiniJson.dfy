/** The printer and the tolerant reader of src/core/minijson.c. */
module MiniJson {
  import opened CText
  import opened Utf8

  // ---- string printer --------------------------------------------------

  function HexDigit(n: nat): char
    requires n < 16
  {
    "0123456789abcdef"[n]
  }

  function EscapeChar(c: char): string {
    if c == '"' then "\\\""
    else if c == '\\' then "\\\\"
    else if c == '\U{8}' then "\\b"
    else if c == '\U{C}' then "\\f"
    else if c == '\n' then "\\n"
    else if c == '\r' then "\\r"
    else if c == '\t' then "\\t"
    else if c as int < 0x20 then "\\u00" + [HexDigit(c as int / 16), HexDigit(c as int % 16)]
    else [c]
  }

  /** What `sb_json_str` appends between the quotes for the C string `s`. */
  function Escape(s: string): string {
    if At(s, 0) == '\0' then "" else EscapeChar(s[0]) + Escape(s[1..])
  }

  function JsonStr(s: string): string {
    "\"" + Escape(s) + "\""
  }

  // ---- string reader ---------------------------------------------------

  predicate IsHex(c: char) {
    '0' <= c <= '9' || 'a' <= c <= 'f' || 'A' <= c <= 'F'
  }

  function HexValue(c: char): (v: nat)
    requires IsHex(c)
    ensures v < 16
  {
    if c <= '9' then c as int - '0' as int
    else if 'a' <= c then c as int - 'a' as int + 10
    else c as int - 'A' as int + 10
  }

  predicate IsHex4(q: string) {
    |q| == 4 && IsHex(q[0]) && IsHex(q[1]) && IsHex(q[2]) && IsHex(q[3])
  }

  function Hex4(q: string): (v: nat)
    requires IsHex4(q)
    ensures v < 0x10000
  {
    ((HexValue(q[0]) * 16 + HexValue(q[1])) * 16 + HexValue(q[2])) * 16 + HexValue(q[3])
  }

  predicate High(u: nat) { 0xD800 <= u < 0xDC00 }

  predicate Low(u: nat) { 0xDC00 <= u < 0xE000 }

  const REPLACEMENT := 0xFFFD

  /** A UTF-16 surrogate pair as one code point. */
  function Paired(hi: nat, lo: nat): (cp: nat)
    requires High(hi) && Low(lo)
    ensures Scalar(cp)
  {
    0x10000 + (hi - 0xD800) * 1024 + (lo - 0xDC00)
  }

  /** A code unit on its own: surrogates become U+FFFD. */
  function Lone(u: nat): (cp: nat)
    requires u < 0x10000
    ensures Scalar(cp)
  {
    if High(u) || Low(u) then REPLACEMENT else u
  }

  const SHORT := "\"\\/bfnrt"

  /** The character a two-character escape stands for. */
  function ShortMeaning(c: char): char
    requires c in SHORT
  {
    if c == 'b' then '\U{8}' else if c == 'f' then '\U{C}' else if c == 'n' then '\n'
    else if c == 'r' then '\r' else if c == 't' then '\t' else c
  }

  /** A `\\u` escape with its four hexadecimal digits. */
  predicate UnicodeAt(p: string) {
    |p| >= 6 && p[0] == '\\' && p[1] == 'u' && IsHex4(p[2..6])
  }

  /** The escape at `p`: the code point it stands for and what follows it. */
  function EscapeCode(p: string): (r: Option<(nat, string)>)
    ensures r.Some? ==> Scalar(r.value.0) && |r.value.1| < |p|
  {
    if |p| >= 2 && p[1] in SHORT then Some((ShortMeaning(p[1]) as int, p[2..]))
    else if !UnicodeAt(p) then None
    else
      var u, q := Hex4(p[2..6]), p[6..];
      if High(u) && UnicodeAt(q) && Low(Hex4(q[2..6]))
      then Some((Paired(u, Hex4(q[2..6])), q[6..]))
      else Some((Lone(u), q))
  }

  /** One element of a literal: an escape, or a byte that stands for itself. */
  function ReadUnit(p: string): (r: Option<(string, string)>)
    requires p != ""
    ensures r.Some? ==> |r.value.1| < |p|
  {
    if p[0] != '\\' then Some(([p[0]], p[1..]))
    else if EscapeCode(p).None? then None
    else Some((Encode(EscapeCode(p).value.0), EscapeCode(p).value.1))
  }

  function Prepend(bytes: string, r: Option<(string, string)>): Option<(string, string)> {
    if r.None? then None else Some((bytes + r.value.0, r.value.1))
  }

  /** The rest of a string literal, after its opening quote: decoded bytes and what follows. */
  function ReadBody(p: string): (r: Option<(string, string)>)
    ensures r.Some? ==> |r.value.1| < |p|
    decreases |p|
  {
    if At(p, 0) == '\0' then None
    else if p[0] == '"' then Some(("", p[1..]))
    else if ReadUnit(p).None? then None
    else Prepend(ReadUnit(p).value.0, ReadBody(ReadUnit(p).value.1))
  }

  function ReadString(p: string): (r: Option<(string, string)>)
    ensures r.Some? ==> |r.value.1| < |p|
  {
    if At(p, 0) != '"' then None else ReadBody(p[1..])
  }

  /** `utf8_put`: append an encoded code point, byte by byte, while the buffer has room. */
  method Utf8Put(out: string, outSize: nat, cp: nat) returns (r: string)
    requires outSize > |out| && Scalar(cp)
    ensures r == Take(out + Encode(cp), outSize - 1)
  {
    var tmp := Encode(cp);
    r := out;
    var i := 0;
    assert tmp[..0] == "";
    while i < |tmp|
      invariant 0 <= i <= |tmp|
      invariant r == Take(out + tmp[..i], outSize - 1)
    {
      assert out + tmp[..i + 1] == out + tmp[..i] + [tmp[i]];
      TakeAppend(out + tmp[..i], [tmp[i]], outSize - 1);
      if |r| + 1 < outSize {
        r := r + [tmp[i]];
      }
      i := i + 1;
    }
    assert tmp[..i] == tmp;
  }

  /** The escape switch of `jread_string`. */
  method DecodeEscape(p: string) returns (ok: bool, cp: nat, rest: string)
    requires p != "" && p[0] == '\\'
    ensures EscapeCode(p) == if ok then Some((cp, rest)) else None
  {
    ok, cp, rest := true, REPLACEMENT, p;
    var q := p[1..];
    if q != "" && q[0] in SHORT {
      return true, ShortMeaning(q[0]) as int, p[2..];
    }
    if At(q, 0) != 'u'
       || !IsHex(At(q, 1)) || !IsHex(At(q, 2)) || !IsHex(At(q, 3)) || !IsHex(At(q, 4)) {
      return false, cp, p;
    }
    cp, rest := Hex4(p[2..6]), p[6..];
    if High(cp) && At(rest, 0) == '\\' && At(rest, 1) == 'u'
       && IsHex(At(rest, 2)) && IsHex(At(rest, 3)) && IsHex(At(rest, 4)) && IsHex(At(rest, 5)) {
      var lo := Hex4(rest[2..6]);
      if Low(lo) {
        cp, rest := Paired(cp, lo), rest[6..];
      } else {
        cp := REPLACEMENT;
      }
    } else if High(cp) || Low(cp) {
      cp := REPLACEMENT;
    }
  }

  /** `jread_string` into a buffer of `outSize` bytes: decoding into a small buffer
      gives the prefix of the full decode that fits. */
  method JreadString(p: string, outSize: nat) returns (ok: bool, out: string, rest: string)
    requires outSize > 0
    ensures ok == ReadString(p).Some?
    ensures ok ==> rest == ReadString(p).value.1
                   && out == Take(ReadString(p).value.0, outSize - 1)
  {
    ok, out, rest := false, "", p;
    if At(p, 0) != '"' {
      return;
    }
    var q := p[1..];
    ghost var full := "";
    PrependEmpty(ReadBody(q));
    while At(q, 0) != '"'
      invariant |out| < outSize && out == Take(full, outSize - 1)
      invariant ReadString(p) == Prepend(full, ReadBody(q))
      decreases |q|
    {
      if At(q, 0) == '\0' {
        return;
      }
      if q[0] == '\\' {
        var good, cp, next := DecodeEscape(q);
        if !good {
          return;
        }
        TakeAppend(full, Encode(cp), outSize - 1);
        PrependTwice(full, Encode(cp), ReadBody(next));
        out := Utf8Put(out, outSize, cp);
        full := full + Encode(cp);
        q := next;
      } else {
        TakeAppend(full, [q[0]], outSize - 1);
        PrependTwice(full, [q[0]], ReadBody(q[1..]));
        full := full + [q[0]];
        if |out| + 1 < outSize {
          out := out + [q[0]];
        }
        q := q[1..];
      }
    }
    ok, rest := true, q[1..];
  }

  lemma PrependEmpty(r: Option<(string, string)>)
    ensures Prepend("", r) == r
  {
    if r.Some? {
      assert "" + r.value.0 == r.value.0;
    }
  }

  lemma PrependTwice(a: string, b: string, r: Option<(string, string)>)
    ensures Prepend(a, Prepend(b, r)) == Prepend(a + b, r)
  {
    if r.Some? {
      assert a + (b + r.value.0) == a + b + r.value.0;
    }
  }

  // ---- what the reader accepts and what it decodes to ------------------

  /** One lexical element of a string literal (section 7 of RFC 8259). */
  datatype Item = Raw(c: char) | Short(c: char) | Unicode(digits: string)

  predicate ItemOk(x: Item) {
    match x
    case Raw(c) => c != '"' && c != '\\' && c != '\0'
    case Short(c) => c in SHORT
    case Unicode(d) => IsHex4(d)
  }

  predicate ItemsOk(xs: seq<Item>) {
    forall i :: 0 <= i < |xs| ==> ItemOk(xs[i])
  }

  function ItemText(x: Item): string {
    match x
    case Raw(c) => [c]
    case Short(c) => ['\\', c]
    case Unicode(d) => "\\u" + d
  }

  function ItemsText(xs: seq<Item>): string {
    if xs == [] then "" else ItemText(xs[0]) + ItemsText(xs[1..])
  }

  predicate HeadIsLow(xs: seq<Item>)
    requires ItemsOk(xs)
  {
    xs != [] && xs[0].Unicode? && Low(Hex4(xs[0].digits))
  }

  /** The bytes a literal denotes. */
  function Meaning(xs: seq<Item>): string
    requires ItemsOk(xs)
  {
    if xs == [] then "" else
    match xs[0]
    case Raw(c) => [c] + Meaning(xs[1..])
    case Short(c) => [ShortMeaning(c)] + Meaning(xs[1..])
    case Unicode(d) =>
      if High(Hex4(d)) && HeadIsLow(xs[1..])
      then Encode(Paired(Hex4(d), Hex4(xs[1].digits))) + Meaning(xs[2..])
      else Encode(Lone(Hex4(d))) + Meaning(xs[1..])
  }

  ghost predicate IsLiteral(p: string, xs: seq<Item>, d: string, rest: string) {
    ItemsOk(xs) && p == "\"" + ItemsText(xs) + "\"" + rest && d == Meaning(xs)
  }

  /** How many items, and which bytes, the reader takes at the head of a literal. */
  lemma ReadHead(xs: seq<Item>, rest: string) returns (bytes: string, n: nat)
    requires ItemsOk(xs) && xs != []
    ensures 1 <= n <= |xs|
    ensures var p := ItemsText(xs) + "\"" + rest;
            p != "" && p[0] != '"' && p[0] != '\0'
            && ReadUnit(p) == Some((bytes, ItemsText(xs[n..]) + "\"" + rest))
    ensures Meaning(xs) == bytes + Meaning(xs[n..])
  {
    HeadText(xs, rest);
    var q := ItemsText(xs[1..]) + "\"" + rest;
    n := 1;
    match xs[0] {
      case Raw(c) =>
        bytes := [c];
        assert ([c] + q)[1..] == q;
      case Short(c) =>
        bytes := [ShortMeaning(c)];
        assert (['\\', c] + q)[2..] == q;
      case Unicode(d) =>
        UnicodeText(d, q);
        UnicodeHead(xs[1..], rest);
        if High(Hex4(d)) && HeadIsLow(xs[1..]) {
          n := 2;
          assert xs[1..][1..] == xs[2..];
          bytes := Encode(Paired(Hex4(d), Hex4(xs[1].digits)));
        } else {
          bytes := Encode(Lone(Hex4(d)));
        }
    }
  }

  /** The text of a literal, split after its first item. */
  lemma HeadText(xs: seq<Item>, rest: string)
    requires xs != []
    ensures ItemsText(xs) + "\"" + rest == ItemText(xs[0]) + (ItemsText(xs[1..]) + "\"" + rest)
  {
    Cat4(ItemText(xs[0]), ItemsText(xs[1..]), "\"", rest);
    Cat3(ItemsText(xs[1..]), "\"", rest);
  }

  lemma UnicodeText(d: string, tail: string)
    requires IsHex4(d)
    ensures var q := "\\u" + d + tail;
            UnicodeAt(q) && q[2..6] == d && q[6..] == tail
  {
    assert ("\\u" + d + tail)[2..6] == d;
  }

  /** Text reads as a `\\u` escape exactly when it was written as one. */
  lemma UnicodeHead(xs: seq<Item>, rest: string)
    requires ItemsOk(xs)
    ensures var q := ItemsText(xs) + "\"" + rest;
            (UnicodeAt(q) <==> xs != [] && xs[0].Unicode?)
            && (UnicodeAt(q) ==> q[2..6] == xs[0].digits
                                 && q[6..] == ItemsText(xs[1..]) + "\"" + rest)
  {
    if xs != [] {
      HeadText(xs, rest);
      var tail := ItemsText(xs[1..]) + "\"" + rest;
      if xs[0].Unicode? {
        UnicodeText(xs[0].digits, tail);
      }
    }
  }

  lemma {:induction false} ReadItems(xs: seq<Item>, rest: string)
    requires ItemsOk(xs)
    ensures ReadBody(ItemsText(xs) + "\"" + rest) == Some((Meaning(xs), rest))
    decreases |xs|
  {
    if xs == [] {
      assert (ItemsText(xs) + "\"" + rest)[1..] == rest;
    } else {
      var bytes, n := ReadHead(xs, rest);
      ReadItems(xs[n..], rest);
    }
  }

  lemma OneItemText(x: Item)
    ensures ItemsText([x]) == ItemText(x)
  {
    assert [x][1..] == [] && ItemText(x) + "" == ItemText(x);
  }

  lemma TwoItemText(x: Item, y: Item)
    ensures ItemsText([x, y]) == ItemText(x) + ItemText(y)
  {
    assert [x, y][1..] == [y];
    OneItemText(y);
  }

  /** A `\\u` escape and what follows it. */
  lemma UnicodeSplit(p: string)
    requires UnicodeAt(p)
    ensures p == "\\u" + p[2..6] + p[6..]
  {
  }

  /** What one successful step of the reader consumed, as items. */
  lemma UnitItems(p: string) returns (xs: seq<Item>)
    requires At(p, 0) != '\0' && p[0] != '"' && ReadUnit(p).Some?
    ensures ItemsOk(xs) && p == ItemsText(xs) + ReadUnit(p).value.1
  {
    if p[0] != '\\' {
      xs := [Raw(p[0])];
      OneItemText(xs[0]);
    } else if p[1] in SHORT {
      xs := [Short(p[1])];
      OneItemText(xs[0]);
    } else {
      xs := UnicodeItems(p);
    }
  }

  lemma UnicodeItems(p: string) returns (xs: seq<Item>)
    requires UnicodeAt(p) && p[1] !in SHORT
    ensures EscapeCode(p).Some? && ItemsOk(xs) && p == ItemsText(xs) + EscapeCode(p).value.1
  {
    var q := p[6..];
    UnicodeSplit(p);
    if High(Hex4(p[2..6])) && UnicodeAt(q) && Low(Hex4(q[2..6])) {
      UnicodeSplit(q);
      xs := [Unicode(p[2..6]), Unicode(q[2..6])];
      TwoItemText(xs[0], xs[1]);
      Cat3("\\u" + p[2..6], "\\u" + q[2..6], q[6..]);
    } else {
      xs := [Unicode(p[2..6])];
      OneItemText(xs[0]);
    }
  }

  lemma {:induction false} ItemsTextAppend(xs: seq<Item>, ys: seq<Item>)
    ensures ItemsText(xs + ys) == ItemsText(xs) + ItemsText(ys)
  {
    if xs == [] {
      assert xs + ys == ys;
    } else {
      ItemsTextAppend(xs[1..], ys);
      assert xs + ys == [xs[0]] + (xs[1..] + ys);
      ItemsTextCons(xs[0], xs[1..] + ys);
      Cat3(ItemText(xs[0]), ItemsText(xs[1..]), ItemsText(ys));
    }
  }

  lemma ItemsTextCons(x: Item, xs: seq<Item>)
    ensures ItemsText([x] + xs) == ItemText(x) + ItemsText(xs)
  {
    assert ([x] + xs)[1..] == xs;
  }

  lemma {:induction false} ItemsOfBody(p: string) returns (xs: seq<Item>)
    requires ReadBody(p).Some?
    ensures ItemsOk(xs) && p == ItemsText(xs) + "\"" + ReadBody(p).value.1
    decreases |p|
  {
    if p[0] == '"' {
      xs := [];
    } else {
      var head := UnitItems(p);
      var tail := ItemsOfBody(ReadUnit(p).value.1);
      xs := head + tail;
      ItemsTextAppend(head, tail);
      Cat4(ItemsText(head), ItemsText(tail), "\"", ReadBody(p).value.1);
      Cat3(ItemsText(tail), "\"", ReadBody(p).value.1);
    }
  }

  /** The reader accepts exactly the string literals, and decodes them by their meaning. */
  lemma ReadStringIffLiteral(p: string, d: string, rest: string)
    ensures ReadString(p) == Some((d, rest)) <==> exists xs :: IsLiteral(p, xs, d, rest)
  {
    if ReadString(p) == Some((d, rest)) {
      var xs := LiteralOf(p);
    }
    forall xs | IsLiteral(p, xs, d, rest)
      ensures ReadString(p) == Some((d, rest))
    {
      LiteralRead(p, xs, d, rest);
    }
  }

  lemma LiteralOf(p: string) returns (xs: seq<Item>)
    requires ReadString(p).Some?
    ensures IsLiteral(p, xs, ReadString(p).value.0, ReadString(p).value.1)
  {
    xs := ItemsOfBody(p[1..]);
    ReadItems(xs, ReadString(p).value.1);
    Requote(p, ItemsText(xs), ReadString(p).value.1);
  }

  lemma Requote(p: string, text: string, rest: string)
    requires At(p, 0) == '"' && p[1..] == text + "\"" + rest
    ensures p == "\"" + text + "\"" + rest
  {
    assert p == "\"" + p[1..];
  }

  lemma LiteralRead(p: string, xs: seq<Item>, d: string, rest: string)
    requires IsLiteral(p, xs, d, rest)
    ensures ReadString(p) == Some((d, rest))
  {
    assert p[1..] == ItemsText(xs) + "\"" + rest;
    ReadItems(xs, rest);
  }

  lemma EncodedIsValid(cp: int)
    requires Scalar(cp)
    ensures Valid(Encode(cp))
  {
    EncodeWellFormed(cp);
    assert Encode(cp)[First(Encode(cp))..] == "";
  }

  lemma {:induction false} MeaningValid(xs: seq<Item>)
    requires ItemsOk(xs) && Valid(ItemsText(xs))
    ensures Valid(Meaning(xs))
    decreases |xs|
  {
    if xs != [] {
      var bytes, n := MeaningHead(xs);
      MeaningValid(xs[n..]);
      ValidAppend(bytes, Meaning(xs[n..]));
    }
  }

  /** One well-formed character at the head of a literal's meaning. */
  lemma MeaningHead(xs: seq<Item>) returns (bytes: string, n: nat)
    requires ItemsOk(xs) && xs != [] && Valid(ItemsText(xs))
    ensures 1 <= n <= |xs| && Valid(bytes) && Valid(ItemsText(xs[n..]))
    ensures Meaning(xs) == bytes + Meaning(xs[n..])
  {
    if xs[0].Raw? {
      n := First(ItemsText(xs));
      RawRun(xs, n);
      bytes := ItemsText(xs)[..n];
    } else {
      AsciiPrefix(ItemText(xs[0]), ItemsText(xs[1..]));
      if xs[0].Short? {
        n, bytes := 1, [ShortMeaning(xs[0].c)];
        AsciiValid(bytes);
      } else {
        bytes, n := UnicodeMeaning(xs);
      }
    }
  }

  lemma UnicodeMeaning(xs: seq<Item>) returns (bytes: string, n: nat)
    requires ItemsOk(xs) && xs != [] && xs[0].Unicode? && Valid(ItemsText(xs[1..]))
    ensures 1 <= n <= |xs| && Valid(bytes) && Valid(ItemsText(xs[n..]))
    ensures Meaning(xs) == bytes + Meaning(xs[n..])
  {
    var u := Hex4(xs[0].digits);
    if High(u) && HeadIsLow(xs[1..]) {
      n := 2;
      assert xs[1..][1..] == xs[2..];
      AsciiPrefix(ItemText(xs[1]), ItemsText(xs[2..]));
      bytes := Encode(Paired(u, Hex4(xs[1].digits)));
      EncodedIsValid(Paired(u, Hex4(xs[1].digits)));
    } else {
      n, bytes := 1, Encode(Lone(u));
      EncodedIsValid(Lone(u));
    }
  }

  lemma {:induction false} AsciiValid(a: string)
    requires forall i :: 0 <= i < |a| ==> a[i] as int < 0x80
    ensures Valid(a)
    decreases |a|
  {
    if a != "" {
      AsciiValid(a[1..]);
    }
  }

  lemma AsciiPrefix(a: string, b: string)
    requires forall i :: 0 <= i < |a| ==> a[i] as int < 0x80
    ensures Valid(a + b) == Valid(b)
  {
    AsciiValid(a);
    ValidAppend(a, b);
  }

  /** The bytes of one raw character are raw items that decode to themselves. */
  lemma {:induction false} RawRun(xs: seq<Item>, w: nat)
    requires ItemsOk(xs) && xs != [] && xs[0].Raw?
    requires First(ItemsText(xs)) == w > 0
    ensures w <= |xs| && ItemsText(xs)[w..] == ItemsText(xs[w..])
    ensures Valid(ItemsText(xs)[..w])
    ensures Meaning(xs) == ItemsText(xs)[..w] + Meaning(xs[w..])
  {
    var t := ItemsText(xs);
    FirstLocal(t, "");
    assert t[..w][w..] == "";
    ContinuationsAreRaw(xs, w);
    RawText(xs, w);
    RawMeaning(xs, w);
  }

  predicate RawPrefix(xs: seq<Item>, w: nat) {
    w <= |xs| && forall i :: 0 <= i < w ==> xs[i].Raw?
  }

  /** Continuation bytes can only come from raw items. */
  lemma {:induction false} ContinuationsAreRaw(xs: seq<Item>, w: nat)
    requires ItemsOk(xs) && 0 < w <= |ItemsText(xs)|
    requires xs != [] && xs[0].Raw?
    requires forall i :: 0 < i < w ==> Cont(ItemsText(xs)[i])
    ensures RawPrefix(xs, w)
    decreases w
  {
    if w > 1 {
      var t, u := ItemsText(xs), ItemsText(xs[1..]);
      assert t == [xs[0].c] + u;
      assert forall i :: 0 <= i < w - 1 ==> u[i] == t[i + 1];
      assert Cont(u[0]);
      HeadByte(xs[1..]);
      ContinuationsAreRaw(xs[1..], w - 1);
      forall i | 0 < i < w
        ensures xs[i].Raw?
      {
        assert xs[i] == xs[1..][i - 1];
      }
    }
  }

  lemma HeadByte(xs: seq<Item>)
    requires ItemsText(xs) != "" && Cont(ItemsText(xs)[0])
    ensures xs != [] && xs[0].Raw?
  {
  }

  lemma {:induction false} RawText(xs: seq<Item>, w: nat)
    requires RawPrefix(xs, w)
    ensures w <= |ItemsText(xs)| && ItemsText(xs)[w..] == ItemsText(xs[w..])
    decreases w
  {
    if w == 0 {
      assert xs[0..] == xs;
    } else {
      RawText(xs[1..], w - 1);
      assert xs[1..][w - 1..] == xs[w..];
      assert ItemsText(xs)[w..] == ItemsText(xs[1..])[w - 1..];
    }
  }

  lemma ConsTake(c: char, u: string, w: nat)
    requires 0 < w <= |u| + 1
    ensures ([c] + u)[..w] == [c] + u[..w - 1]
  {
  }

  lemma {:induction false} RawMeaning(xs: seq<Item>, w: nat)
    requires ItemsOk(xs) && RawPrefix(xs, w) && w <= |ItemsText(xs)|
    ensures Meaning(xs) == ItemsText(xs)[..w] + Meaning(xs[w..])
    decreases w
  {
    if w == 0 {
      assert xs[0..] == xs;
    } else {
      var u := ItemsText(xs[1..]);
      RawMeaning(xs[1..], w - 1);
      assert xs[1..][w - 1..] == xs[w..];
      ConsTake(xs[0].c, u, w);
      Cat3([xs[0].c], u[..w - 1], Meaning(xs[w..]));
    }
  }

  /** Reading a literal whose raw bytes are valid UTF-8 yields valid UTF-8: pairs are
      combined, lone surrogates replaced, everything else copied whole. */
  lemma ReadStringValid(p: string)
    requires ReadString(p).Some?
    requires Valid(p[..|p| - |ReadString(p).value.1|])
    ensures Valid(ReadString(p).value.0)
  {
    var (d, rest) := ReadString(p).value;
    ReadStringIffLiteral(p, d, rest);
    var xs :| IsLiteral(p, xs, d, rest);
    var t := ItemsText(xs);
    assert p[..|p| - |rest|] == "\"" + (t + "\"");
    AsciiPrefix("\"", t + "\"");
    ValidPrefixOfQuoted(t);
    MeaningValid(xs);
  }

  lemma {:induction false} ValidPrefixOfQuoted(t: string)
    requires Valid(t + "\"")
    ensures Valid(t)
    decreases |t|
  {
    if t != "" {
      var w := First(t + "\"");
      assert First(t) == w;
      assert (t + "\"")[w..] == t[w..] + "\"";
      ValidPrefixOfQuoted(t[w..]);
    }
  }

  // ---- printing, then reading ------------------------------------------

  lemma HexRoundTrip(n: nat)
    requires n < 0x20
    ensures IsHex(HexDigit(n / 16)) && HexValue(HexDigit(n / 16)) == n / 16
    ensures IsHex(HexDigit(n % 16)) && HexValue(HexDigit(n % 16)) == n % 16
  {
  }

  lemma HexEscapeRoundTrip(c: char, p: string)
    requires c as int < 0x20
    ensures var h := "00" + [HexDigit(c as int / 16), HexDigit(c as int % 16)];
            EscapeCode("\\u" + h + p) == Some((c as int, p))
  {
    var h := "00" + [HexDigit(c as int / 16), HexDigit(c as int % 16)];
    HexRoundTrip(c as int);
    UnicodeText(h, p);
  }

  lemma ShortEscapeRoundTrip(c: char, p: string)
    requires c in SHORT
    ensures EscapeCode(['\\', c] + p) == Some((ShortMeaning(c) as int, p))
  {
    assert (['\\', c] + p)[2..] == p;
  }

  lemma EscapeCodeRoundTrip(c: char, p: string)
    requires c != '\0' && |EscapeChar(c)| > 1
    ensures EscapeCode(EscapeChar(c) + p) == Some((c as int, p))
  {
    var e := EscapeChar(c);
    if |e| == 6 {
      HexEscapeRoundTrip(c, p);
      assert e == "\\u" + ("00" + [HexDigit(c as int / 16), HexDigit(c as int % 16)]);
    } else {
      assert e == ['\\', e[1]] && e[1] in SHORT && ShortMeaning(e[1]) == c;
      ShortEscapeRoundTrip(e[1], p);
    }
  }

  lemma ReadEscaped(c: char, p: string)
    requires c != '\0'
    ensures var t := EscapeChar(c) + p;
            t != "" && t[0] != '"' && t[0] != '\0' && ReadUnit(t) == Some(([c], p))
  {
    if |EscapeChar(c)| > 1 {
      EscapeCodeRoundTrip(c, p);
    } else {
      assert ([c] + p)[1..] == p;
    }
  }

  lemma {:induction false} ReadEscapedText(s: string, rest: string)
    ensures ReadBody(Escape(s) + "\"" + rest) == Some((CStr(s), rest))
    decreases |s|
  {
    if At(s, 0) == '\0' {
      assert (Escape(s) + "\"" + rest)[1..] == rest;
    } else {
      ReadEscapedText(s[1..], rest);
      ReadEscaped(s[0], Escape(s[1..]) + "\"" + rest);
      Cat4(EscapeChar(s[0]), Escape(s[1..]), "\"", rest);
      Cat3(Escape(s[1..]), "\"", rest);
    }
  }

  lemma Unquote(e: string, rest: string)
    ensures var p := "\"" + e + "\"" + rest;
            p[0] == '"' && p[1..] == e + "\"" + rest
  {
  }

  /** Every C string survives printing and reading, whatever follows it. */
  lemma StringRoundTrip(s: string, rest: string)
    ensures ReadString(JsonStr(s) + rest) == Some((CStr(s), rest))
  {
    ReadEscapedText(s, rest);
    Unquote(Escape(s), rest);
  }
}
