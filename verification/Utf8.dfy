/** UTF-8 (section 3 of RFC 3629), and the two clippers that must agree on it:
    `utf8_valid_prefix` walks forward, `utf8_trim_tail` walks back. */
module Utf8 {
  import opened CText

  predicate Scalar(cp: int) {
    0 <= cp < 0x110000 && !(0xD800 <= cp < 0xE000)
  }

  predicate Cont(c: char) {
    0x80 <= c as int < 0xC0
  }

  /** A continuation byte for the low six bits of `n`. */
  function Tail(n: nat): char {
    (0x80 + n % 64) as char
  }

  /** The bytes `utf8_put` stores for one code point; a shift by six is a division by 64. */
  function Encode(cp: int): string
    requires Scalar(cp)
  {
    var a := cp / 64;
    var b := a / 64;
    if cp < 0x80 then [cp as char]
    else if cp < 0x800 then [(0xC0 + a) as char, Tail(cp)]
    else if cp < 0x10000 then [(0xE0 + b) as char, Tail(a), Tail(cp)]
    else [(0xF0 + b / 64) as char, Tail(b), Tail(a), Tail(cp)]
  }

  function EncodeAll(cps: seq<int>): string
    requires forall i :: 0 <= i < |cps| ==> Scalar(cps[i])
  {
    if cps == [] then "" else Encode(cps[0]) + EncodeAll(cps[1..])
  }

  /** Length of the well-formed sequence `s` starts with, by the byte ranges of the
      syntax in RFC 3629; 0 when there is none. */
  function First(s: string): (w: nat)
    ensures w <= |s|
  {
    if s == "" then 0 else
    var b := s[0] as int;
    if b < 0x80 then 1
    else if 0xC2 <= b < 0xE0 then
      if |s| >= 2 && Cont(s[1]) then 2 else 0
    else if 0xE0 <= b < 0xF0 then
      if |s| >= 3 && Cont(s[1]) && Cont(s[2])
         && (b == 0xE0 ==> 0xA0 <= s[1] as int) && (b == 0xED ==> s[1] as int < 0xA0) then 3 else 0
    else if 0xF0 <= b < 0xF5 then
      if |s| >= 4 && Cont(s[1]) && Cont(s[2]) && Cont(s[3])
         && (b == 0xF0 ==> 0x90 <= s[1] as int) && (b == 0xF4 ==> s[1] as int < 0x90) then 4 else 0
    else 0
  }

  predicate Valid(s: string)
    decreases |s|
  {
    s == "" || (First(s) > 0 && Valid(s[First(s)..]))
  }

  /** The code point of a well-formed sequence. */
  function Decode(s: string): int
    requires First(s) == |s| > 0
  {
    var b := s[0] as int;
    if |s| == 1 then b
    else if |s| == 2 then Join(b - 0xC0, s[1])
    else if |s| == 3 then Join(Join(b - 0xE0, s[1]), s[2])
    else Join(Join(Join(b - 0xF0, s[1]), s[2]), s[3])
  }

  function Join(n: int, c: char): int {
    n * 64 + (c as int - 0x80)
  }

  lemma TailJoin(n: nat)
    ensures Cont(Tail(n)) && Join(n / 64, Tail(n)) == n
  {
  }

  lemma JoinTail(n: nat, c: char)
    requires Cont(c)
    ensures Join(n, c) / 64 == n && Tail(Join(n, c)) == c
  {
  }

  lemma EncodeWellFormed(cp: int)
    requires Scalar(cp)
    ensures First(Encode(cp)) == |Encode(cp)| > 0
    ensures Decode(Encode(cp)) == cp
  {
    TailJoin(cp);
    TailJoin(cp / 64);
    TailJoin(cp / 64 / 64);
  }

  lemma DecodeScalar(s: string)
    requires First(s) == |s| > 0
    ensures Scalar(Decode(s))
    ensures Encode(Decode(s)) == s
  {
    var b := s[0] as int;
    if |s| == 2 {
      JoinTail(b - 0xC0, s[1]);
    } else if |s| == 3 {
      JoinTail(b - 0xE0, s[1]);
      JoinTail(Join(b - 0xE0, s[1]), s[2]);
    } else if |s| == 4 {
      JoinTail(b - 0xF0, s[1]);
      JoinTail(Join(b - 0xF0, s[1]), s[2]);
      JoinTail(Join(Join(b - 0xF0, s[1]), s[2]), s[3]);
    }
  }

  /** `First` looks no further than the sequence it measures. */
  lemma FirstLocal(s: string, t: string)
    requires First(s) > 0
    ensures First(s + t) == First(s)
    ensures First(s[..First(s)]) == First(s)
  {
  }

  lemma {:induction false} ValidAppend(a: string, b: string)
    requires Valid(a)
    ensures Valid(a + b) == Valid(b)
    decreases |a|
  {
    if a == "" {
      assert a + b == b;
    } else {
      var w := First(a);
      FirstLocal(a, b);
      ValidAppend(a[w..], b);
      assert (a + b)[w..] == a[w..] + b;
    }
  }

  lemma {:induction false} EncodeAllValid(cps: seq<int>)
    requires forall i :: 0 <= i < |cps| ==> Scalar(cps[i])
    ensures Valid(EncodeAll(cps))
  {
    if cps != [] {
      var c := Encode(cps[0]);
      EncodeWellFormed(cps[0]);
      EncodeAllValid(cps[1..]);
      assert c[First(c)..] == "";
      ValidAppend(c, EncodeAll(cps[1..]));
    }
  }

  lemma {:induction false} ValidIsEncoded(s: string) returns (cps: seq<int>)
    requires Valid(s)
    ensures forall i :: 0 <= i < |cps| ==> Scalar(cps[i])
    ensures EncodeAll(cps) == s
    decreases |s|
  {
    if s == "" {
      cps := [];
    } else {
      var w := First(s);
      FirstDecodes(s);
      var rest := ValidIsEncoded(s[w..]);
      cps := [Decode(s[..w])] + rest;
      EncodeCons(Decode(s[..w]), rest);
      assert s == s[..w] + s[w..];
    }
  }

  lemma FirstDecodes(s: string)
    requires First(s) > 0
    ensures var c := s[..First(s)];
            First(c) == |c| && Scalar(Decode(c)) && Encode(Decode(c)) == c
  {
    FirstLocal(s, "");
    DecodeScalar(s[..First(s)]);
  }

  lemma EncodeCons(cp: int, rest: seq<int>)
    requires Scalar(cp) && forall i :: 0 <= i < |rest| ==> Scalar(rest[i])
    ensures (forall i :: 0 <= i < |rest| + 1 ==> Scalar(([cp] + rest)[i]))
            && EncodeAll([cp] + rest) == Encode(cp) + EncodeAll(rest)
  {
    assert ([cp] + rest)[1..] == rest;
  }

  ghost predicate EncodesScalars(s: string, cps: seq<int>) {
    (forall i :: 0 <= i < |cps| ==> Scalar(cps[i])) && EncodeAll(cps) == s
  }

  /** The byte-range syntax accepts exactly the encodings of scalar values. */
  lemma ValidIffEncoded(s: string)
    ensures Valid(s) <==> exists cps :: EncodesScalars(s, cps)
  {
    if Valid(s) {
      var cps := ValidIsEncoded(s);
      assert EncodesScalars(s, cps);
    }
    forall cps | EncodesScalars(s, cps)
      ensures Valid(s)
    {
      EncodeAllValid(cps);
    }
  }

  // ---- the two clippers ------------------------------------------------

  /** Both clippers judge a sequence by its lead byte alone. */
  function Width(c: char): nat {
    var b := c as int;
    if b >= 0xF0 then 4 else if b >= 0xE0 then 3 else if b >= 0xC2 then 2 else 1
  }

  /** `utf8_valid_prefix`: whole sequences while the next one ends within `max`. */
  function Clip(s: string, max: nat): (n: nat)
    ensures n <= max
    decreases |s|
  {
    if s == "" || Width(s[0]) > max then 0
    else if Width(s[0]) > |s| then Width(s[0])
    else Width(s[0]) + Clip(s[Width(s[0])..], max - Width(s[0]))
  }

  /** Where the walk ends when nothing limits it; past the text when the last sequence is cut. */
  function Reach(s: string): nat
    decreases |s|
  {
    if s == "" then 0
    else if Width(s[0]) > |s| then Width(s[0])
    else Width(s[0]) + Reach(s[Width(s[0])..])
  }

  /** The walk stays inside the text exactly when the text ends on a whole sequence
      or the limit stops it before the cut one. */
  lemma {:induction false} ClipStaysInside(s: string, max: nat)
    ensures Clip(s, max) <= |s| <==> Reach(s) <= |s| || max < Reach(s)
    decreases |s|
  {
    if s != "" && Width(s[0]) <= |s| {
      var w := Width(s[0]);
      ReachAtLeast(s);
      if w <= max {
        ClipStaysInside(s[w..], max - w);
      }
    }
  }

  lemma {:induction false} ReachAtLeast(s: string)
    ensures Reach(s) >= |s|
    decreases |s|
  {
    if s != "" && Width(s[0]) <= |s| {
      ReachAtLeast(s[Width(s[0])..]);
    }
  }

  /** The same walk by position. */
  function ClipFrom(s: string, pos: nat, max: nat): nat
    decreases |s| - pos
  {
    if pos >= |s| || pos + Width(s[pos]) > max then pos else ClipFrom(s, pos + Width(s[pos]), max)
  }

  lemma {:induction false} ClipByPosition(s: string, pos: nat, max: nat)
    requires pos <= |s| && pos <= max
    ensures ClipFrom(s, pos, max) == pos + Clip(s[pos..], max - pos)
    decreases |s| - pos
  {
    if pos < |s| {
      var w := Width(s[pos]);
      assert s[pos..][0] == s[pos];
      if w <= max - pos && w <= |s| - pos {
        ClipByPosition(s, pos + w, max);
        assert s[pos..][w..] == s[pos + w..];
      }
    }
  }

  /** The walk over memory, where the text is followed by its terminator and other bytes. */
  function Walk(mem: string, pos: nat, max: nat): (end: nat)
    requires max <= |mem|
    ensures end >= pos
    decreases max - pos
  {
    if pos >= max || mem[pos] == '\0' || pos + Width(mem[pos]) > max then pos
    else Walk(mem, pos + Width(mem[pos]), max)
  }

  /** As long as the walk stays inside the text it does not depend on what follows; otherwise it
      steps over the terminator. */
  lemma {:induction false} WalkIsClip(mem: string, s: string, pos: nat, max: nat)
    requires s <= mem && NulFree(s) && (|s| < |mem| ==> mem[|s|] == '\0')
    requires pos <= |s| && pos <= max <= |mem|
    ensures var n := ClipFrom(s, pos, max);
            if n <= |s| then Walk(mem, pos, max) == n else Walk(mem, pos, max) > |s|
    decreases |s| - pos
  {
    if pos < |s| {
      assert mem[pos] == s[pos] && s[pos] != '\0';
      var next := pos + Width(s[pos]);
      if next <= max && next <= |s| {
        WalkIsClip(mem, s, next, max);
      }
    }
  }

  /** `utf8_valid_prefix` on memory whose first `max` bytes can be read. */
  method Utf8ValidPrefix(mem: string, max: nat) returns (end: nat)
    requires max <= |mem|
    ensures end <= max && if Clip(CStr(mem), max) <= |CStr(mem)| then end == Clip(CStr(mem), max) else end > |CStr(mem)|
  {
    var pos := 0;
    end := 0;
    while pos < max && mem[pos] != '\0'
      invariant end == pos <= max && Walk(mem, pos, max) == Walk(mem, 0, max)
      decreases max - pos
    {
      var width := Width(mem[pos]);
      if pos + width > max {
        break;
      }
      pos := pos + width;
      end := pos;
    }
    WalkOfText(mem, max);
  }

  lemma WalkOfText(mem: string, max: nat)
    requires max <= |mem|
    ensures var s := CStr(mem);
            if Clip(s, max) <= |s| then Walk(mem, 0, max) == Clip(s, max) else Walk(mem, 0, max) > |s|
  {
    var s := CStr(mem);
    CStrReaches(mem, 0);
    CStrIsNulFree(mem);
    CStrEnds(mem);
    ClipByPosition(s, 0, max);
    assert s[0..] == s;
    WalkIsClip(mem, s, 0, max);
  }

  /** What a field of `max` bytes keeps of `s`. */
  function Clipped(s: string, max: nat): string {
    s[..Min(Clip(s, max), |s|)]
  }

  /** `set_str_utf8` into a buffer of `size` bytes, the result read as a C string. A walk that
      steps over the terminator copies it, so the text ends up whole. */
  method SetStrUtf8(mem: string, size: nat) returns (dst: string)
    requires 0 < size <= |mem| + 1
    ensures dst == Clipped(CStr(mem), size - 1)
  {
    var n := Utf8ValidPrefix(mem, size - 1);
    dst := CStr(mem[..n]);
    CStrOfPrefix(mem, n);
  }

  /** A C string in memory, with whatever bytes follow its terminator. */
  method InMemory(s: string, room: nat) returns (mem: string)
    requires NulFree(s)
    ensures CStr(mem) == s && |mem| >= room
  {
    assert |seq(room, _ => 'x')| == room;
    var junk: string :| |junk| == room;
    mem := s + ['\0'] + junk;
    CStrReaches(mem, |s|);
  }

  /** Well-formed text is never left by the walk, whatever the limit. */
  lemma ValidStaysInside(s: string, max: nat)
    requires Valid(s)
    ensures Clip(s, max) <= |s|
  {
    ReachOfValid(s);
    ClipStaysInside(s, max);
  }

  /** A three-byte lead alone: the walk counts three bytes of a one-byte text. */
  lemma CutCharacter()
    ensures Clip([0xE4 as char], 3) == 3 && Clipped([0xE4 as char], 3) == [0xE4 as char]
  {
  }

  lemma FirstIsWidth(s: string)
    requires First(s) > 0
    ensures First(s) == Width(s[0])
  {
  }

  /** A non-empty well-formed prefix of `s` starts with the sequence `s` starts with. */
  lemma PrefixPeel(s: string, k: nat)
    requires 0 < k <= |s| && Valid(s[..k])
    ensures First(s) <= k && s[..k][First(s)..] == s[First(s)..][..k - First(s)]
    ensures First(s) > 0 && Valid(s[First(s)..][..k - First(s)])
  {
    FirstLocal(s[..k], s[k..]);
    assert s[..k] + s[k..] == s;
    assert s[..k][First(s)..] == s[First(s)..][..k - First(s)];
  }

  lemma PrefixGrow(s: string, n: nat)
    requires 0 < First(s) && First(s) + n <= |s| && Valid(s[First(s)..][..n])
    ensures Valid(s[..First(s) + n])
  {
    var w := First(s);
    FirstLocal(s, "");
    assert s[..w][w..] == "";
    assert s[..w + n] == s[..w] + s[w..][..n];
    ValidAppend(s[..w], s[w..][..n]);
  }

  /** On well-formed text the forward walk finds the longest prefix of at most `max`
      bytes that ends on a code-point boundary. */
  lemma {:induction false} ClipLongest(s: string, max: nat)
    requires Valid(s)
    ensures Clip(s, max) <= |s| && Valid(s[..Clip(s, max)])
    ensures forall k :: 0 <= k <= max && k <= |s| && Valid(s[..k]) ==> k <= Clip(s, max)
    decreases |s|
  {
    if s != "" {
      var w := First(s);
      FirstIsWidth(s);
      if w <= max {
        ClipLongest(s[w..], max - w);
        PrefixGrow(s, Clip(s[w..], max - w));
      }
      forall k | 0 < k <= max && k <= |s| && Valid(s[..k])
        ensures k <= Clip(s, max)
      {
        PrefixPeel(s, k);
      }
    }
  }

  lemma {:induction false} ReachOfValid(s: string)
    requires Valid(s)
    ensures Reach(s) == |s|
    decreases |s|
  {
    if s != "" {
      FirstIsWidth(s);
      ReachOfValid(s[First(s)..]);
    }
  }

  /** Where the backward walk stops: the last byte that is not a continuation, or the start. */
  function LastLead(s: string): (i: nat)
    requires s != ""
    ensures i < |s|
  {
    if |s| > 1 && Cont(s[|s| - 1]) then LastLead(s[..|s| - 1]) else |s| - 1
  }

  /** `utf8_trim_tail`: drop the last character when its lead byte asks for more bytes than follow. */
  function Trim(s: string): string {
    if s == "" then "" else
    var i := LastLead(s);
    if i + Width(s[i]) != |s| then s[..i] else s
  }

  method Utf8TrimTail(s: string) returns (r: string)
    ensures r == Trim(s)
  {
    var n := |s|;
    if n == 0 {
      return s;
    }
    var i := n - 1;
    assert s[..n] == s;
    while i > 0 && Cont(s[i])
      invariant 0 <= i < n
      invariant LastLead(s[..i + 1]) == LastLead(s)
      decreases i
    {
      assert s[..i + 1][..i] == s[..i];
      i := i - 1;
    }
    r := if i + Width(s[i]) != n then s[..i] else s;
  }

  lemma {:induction false} LastLeadAt(s: string, i: nat)
    requires i < |s| && (i == 0 || !Cont(s[i]))
    requires forall j :: i < j < |s| ==> Cont(s[j])
    ensures LastLead(s) == i
    decreases |s|
  {
    if i < |s| - 1 {
      LastLeadAt(s[..|s| - 1], i);
    }
  }

  predicate CutAt(s: string, k: nat, n: nat)
    requires n <= |s|
  {
    && (k < n ==> !Cont(s[k]) && n < k + Width(s[k]))
    && (forall j :: k < j < n ==> Cont(s[j]))
  }

  lemma CutShift(s: string, w: nat, k: nat, n: nat)
    requires w + n <= |s| && CutAt(s[w..], k, n)
    ensures CutAt(s, w + k, w + n)
  {
    forall j | w + k < j < w + n
      ensures Cont(s[j])
    {
      assert s[j] == s[w..][j - w];
    }
  }

  /** A cut of well-formed text is whole characters, then a proper prefix of one. */
  lemma {:induction false} CutShape(s: string, n: nat)
    requires Valid(s) && n <= |s|
    ensures CutAt(s, Clip(s, n), n)
    decreases |s|
  {
    if s != "" {
      FirstIsWidth(s);
      var w := First(s);
      if w <= n {
        CutShape(s[w..], n - w);
        CutShift(s, w, Clip(s[w..], n - w), n - w);
      } else {
        FirstShape(s);
      }
    }
  }

  lemma FirstShape(s: string)
    requires First(s) > 0
    ensures !Cont(s[0]) && forall j :: 0 < j < First(s) ==> Cont(s[j])
  {
  }

  /** Whole characters survive trimming. */
  lemma {:induction false} TrimWhole(s: string)
    requires Valid(s)
    ensures Trim(s) == s
    decreases |s|
  {
    if s != "" {
      var w := First(s);
      FirstIsWidth(s);
      if w == |s| {
        LastLeadAt(s, 0);
      } else {
        var r := s[w..];
        TrimWhole(r);
        var i := LastLead(r);
        LastLeadShift(s, w);
        assert s[w + i] == r[i];
      }
    }
  }

  lemma {:induction false} LastLeadShift(s: string, w: nat)
    requires w < |s| && !Cont(s[w])
    ensures LastLead(s) == w + LastLead(s[w..])
    decreases |s|
  {
    var r := s[w..];
    if |r| > 1 && Cont(r[|r| - 1]) {
      LastLeadShift(s[..|s| - 1], w);
      assert s[..|s| - 1][w..] == r[..|r| - 1];
    }
  }

  /** The two clippers agree: cutting well-formed text at any byte and trimming the tail
      leaves what the forward walk keeps. */
  lemma TrimOfCutIsClip(s: string, n: nat)
    requires Valid(s)
    ensures Clip(s, n) <= |s| && Trim(Take(s, n)) == s[..Clip(s, n)]
  {
    ClipLongest(s, n);
    if |s| <= n {
      TrimWhole(s);
      assert s[..|s|] == s;
      assert Valid(s[..|s|]);
    } else {
      CutShape(s, n);
      var k := Clip(s, n);
      var cut := s[..n];
      if k == n {
        TrimWhole(cut);
      } else {
        LastLeadAt(cut, k);
        assert cut[..k] == s[..k];
      }
    }
  }

  /** The walk steps over a character by the length of its encoding; a byte that begins none counts as
      one below C2, and as four above F4. */
  lemma WidthMeans(c: char, cp: int)
    requires Scalar(cp)
    ensures Encode(cp)[0] == c ==> Width(c) == |Encode(cp)|
    ensures 0x80 <= c as int < 0xC2 ==> Width(c) == 1 && Encode(cp)[0] != c
    ensures 0xF4 < c as int ==> Width(c) == 4 && Encode(cp)[0] != c
  {
    var b := cp / 64 / 64;
    assert cp < 0x800 ==> cp / 64 < 0x20;
    assert 0x80 <= cp < 0x800 ==> 2 <= cp / 64;
    assert cp < 0x10000 ==> b < 0x10;
    assert cp < 0x110000 ==> b / 64 < 5;
  }
}
