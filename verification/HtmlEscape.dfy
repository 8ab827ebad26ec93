/** The HTML escapers of src/core/util.c and asm-demo/html_escape_bench.c. */
module HtmlEscape {
  import opened CText

  const WINDOW: nat := 16

  /** `special_rep`, or the byte itself. */
  function Entity(c: char): (r: string)
    ensures 1 <= |r| <= 6
  {
    if c == '&' then "&amp;"
    else if c == '<' then "&lt;"
    else if c == '>' then "&gt;"
    else if c == '"' then "&quot;"
    else [c]
  }

  predicate Special(c: char) {
    c == '&' || c == '<' || c == '>' || c == '"'
  }

  /** The reference: every character mapped to its entity. */
  function Escaped(s: string): string {
    if s == "" then "" else Entity(s[0]) + Escaped(s[1..])
  }

  lemma {:induction false} EscapedSnoc(s: string, c: char)
    ensures Escaped(s + [c]) == Escaped(s) + Entity(c)
  {
    if s == "" {
      assert s + [c] == [c] && Escaped([c]) == Entity(c) + Escaped("");
    } else {
      assert (s + [c])[0] == s[0] && (s + [c])[1..] == s[1..] + [c];
      EscapedSnoc(s[1..], c);
      Cat3(Entity(s[0]), Escaped(s[1..]), Entity(c));
    }
  }

  /** Bytes that are not special are copied as they are. */
  lemma {:induction false} EscapedRun(s: string, t: string)
    requires forall i :: 0 <= i < |t| ==> !Special(t[i])
    ensures Escaped(s + t) == Escaped(s) + t
  {
    if t == "" {
      assert s + t == s && Escaped(s) + t == Escaped(s);
    } else {
      var init, c := t[..|t| - 1], t[|t| - 1];
      EscapedRun(s, init);
      EscapedSnoc(s + init, c);
      assert t == init + [c];
      Cat3(s, init, [c]);
      Cat3(Escaped(s), init, [c]);
    }
  }

  lemma {:induction false} EscapedSize(s: string)
    ensures |Escaped(s)| <= 6 * |s|
  {
    if s != "" {
      EscapedSize(s[1..]);
    }
  }

  /** A C string of length `n` in readable memory, and a destination with room for the worst
      case. */
  predicate Fits(mem: string, n: nat, size: nat) {
    n < |mem| && mem[n] == '\0' && (forall i :: 0 <= i < n ==> mem[i] != '\0') && size >= 6 * n + 1
  }

  /** snprintf or memcpy of `s` at `p`. */
  method Put(dst: array<char>, p: nat, s: string) returns (next: nat)
    requires p + |s| <= dst.Length
    modifies dst
    ensures next == p + |s| && dst[..next] == old(dst[..p]) + s
  {
    forall i | 0 <= i < |s| {
      dst[p + i] := s[i];
    }
    next := p + |s|;
  }

  /** Room left after `i` of `n` characters. */
  lemma Room(mem: string, n: nat, i: nat, p: nat)
    requires i <= n <= |mem| && p == |Escaped(mem[..i])|
    ensures p + 6 * (n - i) <= 6 * n
  {
    EscapedSize(mem[..i]);
  }

  lemma Extend(mem: string, i: nat, j: nat)
    requires i <= j < |mem| && forall k :: i <= k < j ==> !Special(mem[k])
    ensures Escaped(mem[..j]) == Escaped(mem[..i]) + mem[i..j]
    ensures Escaped(mem[..j + 1]) == Escaped(mem[..j]) + Entity(mem[j])
  {
    assert mem[..j] == mem[..i] + mem[i..j] && mem[..j + 1] == mem[..j] + [mem[j]];
    EscapedRun(mem[..i], mem[i..j]);
    EscapedSnoc(mem[..j], mem[j]);
  }

  /** The destination holds the escaped text and its terminator. */
  ghost predicate Holds(dst: array<char>, text: string)
    reads dst
  {
    |Escaped(text)| < dst.Length && dst[..|Escaped(text)|] == Escaped(text) && dst[|Escaped(text)|] == '\0'
  }

  method Finish(dst: array<char>, p: nat, ghost text: string)
    requires p < dst.Length && dst[..p] == Escaped(text)
    modifies dst
    ensures Holds(dst, text)
  {
    dst[p] := '\0';
    assert dst[..p] == old(dst[..p]);
  }

  /** Byte by byte from character `i`, the loop `html_escape` and the tail of the windowed form. */
  method EscapeBytes(mem: string, ghost n: nat, dst: array<char>, i: nat, p: nat) returns (i': nat, p': nat)
    requires Fits(mem, n, dst.Length) && i <= n && p <= dst.Length && dst[..p] == Escaped(mem[..i])
    modifies dst
    ensures i' == n && p' < dst.Length && dst[..p'] == Escaped(mem[..n])
  {
    i', p' := i, p;
    Room(mem, n, i, p);
    while mem[i'] != '\0' && p' < dst.Length - 1
      invariant i <= i' <= n && p' < dst.Length && dst[..p'] == Escaped(mem[..i'])
      decreases n - i'
    {
      Room(mem, n, i', p');
      Extend(mem, i', i');
      p' := Put(dst, p', Entity(mem[i']));
      i' := i' + 1;
      Room(mem, n, i', p');
    }
    Room(mem, n, i', p');
  }

  /** `html_escape` of the server, and the byte-by-byte form of the benchmark. */
  method EscapeScalar(mem: string, ghost n: nat, dst: array<char>)
    requires Fits(mem, n, dst.Length)
    modifies dst
    ensures Holds(dst, mem[..n])
  {
    var i, p := EscapeBytes(mem, n, dst, 0, 0);
    Finish(dst, p, mem[..n]);
  }

  /** `html_escape_fast`: a copy of the replacement, given up when it would not fit. */
  method EscapeFast(mem: string, ghost n: nat, dst: array<char>)
    requires Fits(mem, n, dst.Length)
    modifies dst
    ensures Holds(dst, mem[..n])
  {
    var i, p := 0, 0;
    while mem[i] != '\0' && p < dst.Length - 1
      invariant 0 <= i <= n && 0 <= p < dst.Length && dst[..p] == Escaped(mem[..i])
      decreases n - i
    {
      var c := mem[i];
      Room(mem, n, i, p);
      Extend(mem, i, i);
      if Special(c) && dst.Length - 1 - p < |Entity(c)| {
        break;
      }
      p := Put(dst, p, Entity(c));
      i := i + 1;
      Room(mem, n, i, p);
    }
    Room(mem, n, i, p);
    Finish(dst, p, mem[..n]);
  }

  /** The offset of the first special byte or terminator in a window, or WINDOW. */
  method Scan(mem: string, s: nat) returns (j: nat)
    requires s + WINDOW <= |mem|
    ensures j <= WINDOW
    ensures forall k :: s <= k < s + j ==> !Special(mem[k]) && mem[k] != '\0'
    ensures j < WINDOW ==> Special(mem[s + j]) || mem[s + j] == '\0'
  {
    j := 0;
    while j < WINDOW && mem[s + j] != '\0' && !Special(mem[s + j])
      invariant j <= WINDOW
      invariant forall k :: s <= k < s + j ==> !Special(mem[k]) && mem[k] != '\0'
    {
      j := j + 1;
    }
  }

  /** Copy the part of a window before `j`, then its special byte if it has one. */
  method EscapeWindow(mem: string, ghost n: nat, dst: array<char>, s: nat, p: nat) returns (s': nat, p': nat)
    requires Fits(mem, n, dst.Length) && n + WINDOW <= |mem| && s < n
    requires p + WINDOW < dst.Length && dst[..p] == Escaped(mem[..s])
    modifies dst
    ensures s < s' <= n && p' < dst.Length && dst[..p'] == Escaped(mem[..s'])
  {
    var j := Scan(mem, s);
    BeforeEnd(mem, n, s, j);
    Extend(mem, s, s + j);
    p' := Put(dst, p, mem[s..s + j]);
    s' := s + j;
    Room(mem, n, s', p');
    if j < WINDOW && mem[s'] != '\0' {
      p' := Put(dst, p', Entity(mem[s']));
      s' := s' + 1;
      Room(mem, n, s', p');
    }
  }

  lemma BeforeEnd(mem: string, n: nat, s: nat, j: nat)
    requires s < n < |mem| && mem[n] == '\0' && s + j <= |mem| && (forall k :: s <= k < s + j ==> mem[k] != '\0')
    ensures s + j <= n
  {
    assert mem[n] == '\0';
  }

  /** `html_escape_simd`: 16 bytes at a time while a window of room is left. */
  method EscapeSimd(mem: string, ghost n: nat, dst: array<char>)
    requires Fits(mem, n, dst.Length) && n + WINDOW <= |mem|
    modifies dst
    ensures Holds(dst, mem[..n])
  {
    var s, p := 0, 0;
    while mem[s] != '\0' && p < dst.Length - 1
      invariant 0 <= s <= n && 0 <= p < dst.Length && dst[..p] == Escaped(mem[..s])
      decreases n - s
    {
      if dst.Length - 1 - p < WINDOW {
        s, p := EscapeBytes(mem, n, dst, s, p);
        break;
      }
      s, p := EscapeWindow(mem, n, dst, s, p);
    }
    Room(mem, n, s, p);
    Finish(dst, p, mem[..n]);
  }

  // ---- what escaping means ---------------------------------------------

  /** Reading entities back. */
  function Unescaped(t: string): string
    decreases |t|
  {
    if t == "" then ""
    else if "&amp;" <= t then "&" + Unescaped(t[5..])
    else if "&lt;" <= t then "<" + Unescaped(t[4..])
    else if "&gt;" <= t then ">" + Unescaped(t[4..])
    else if "&quot;" <= t then "\"" + Unescaped(t[6..])
    else [t[0]] + Unescaped(t[1..])
  }

  lemma UnescapeOne(c: char, rest: string)
    ensures Unescaped(Entity(c) + rest) == [c] + Unescaped(rest)
  {
    var t := Entity(c) + rest;
    assert t[|Entity(c)|..] == rest;
    assert Entity(c) <= t;
    if c == '<' {
      assert t[1] == 'l';
    } else if c == '>' {
      assert t[1] == 'g';
    } else if c == '"' {
      assert t[1] == 'q';
    } else if c != '&' {
      assert t[0] == c;
    }
  }

  /** No text is changed by escaping and reading back, so no two texts escape alike. */
  lemma {:induction false} UnescapeEscaped(s: string)
    ensures Unescaped(Escaped(s)) == s
  {
    if s != "" {
      UnescapeEscaped(s[1..]);
      UnescapeOne(s[0], Escaped(s[1..]));
    }
  }

  /** Escaped text cannot open or close a tag or an attribute value. */
  lemma {:induction false} EscapedIsInert(s: string)
    ensures '<' !in Escaped(s) && '>' !in Escaped(s) && '"' !in Escaped(s)
  {
    if s != "" {
      EscapedIsInert(s[1..]);
    }
  }
}
