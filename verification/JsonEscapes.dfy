/** What the escapes of src/core/minijson.c stand for, against the tables of section 7 of RFC 8259
    and the surrogate pairs of UTF-16 written out. */
module JsonEscapes {
  import opened CText
  import opened Utf8
  import opened MiniJson

  const LOWER_HEX := "0123456789abcdef"
  const UPPER_HEX := "0123456789ABCDEF"

  /** The characters after a backslash, and what each stands for. */
  const NAMES := "\"\\/bfnrt"
  const MEANINGS := "\"\\/\U{8}\U{C}\n\r\t"

  predicate WritesDigit(c: char, d: nat) {
    d < 16 && (c == LOWER_HEX[d] || c == UPPER_HEX[d])
  }

  /** `q` is `u` in four hexadecimal digits, in either letter case. */
  predicate Writes(q: string, u: nat) {
    |q| == 4 && u < 0x10000
    && WritesDigit(q[0], u / 0x1000) && WritesDigit(q[1], u / 0x100 % 16)
    && WritesDigit(q[2], u / 16 % 16) && WritesDigit(q[3], u % 16)
  }

  lemma DigitValue(c: char, d: nat)
    requires WritesDigit(c, d)
    ensures IsHex(c) && HexValue(c) == d
  {
  }

  lemma Positional(u: nat)
    ensures ((u / 0x1000 * 16 + u / 0x100 % 16) * 16 + u / 16 % 16) * 16 + u % 16 == u
  {
    var a := u / 16;
    var b := a / 16;
    assert b == u / 0x100 && b / 16 == u / 0x1000;
  }

  lemma WrittenHex(q: string, u: nat)
    requires Writes(q, u)
    ensures IsHex4(q) && Hex4(q) == u
  {
    DigitValue(q[0], u / 0x1000);
    DigitValue(q[1], u / 0x100 % 16);
    DigitValue(q[2], u / 16 % 16);
    DigitValue(q[3], u % 16);
    Positional(u);
  }

  /** A unicode escape with these digits, before `p`. */
  function Escaped(q: string, p: string): string {
    "\\u" + q + p
  }

  lemma EscapedParts(q: string, p: string)
    requires |q| == 4
    ensures var t := Escaped(q, p);
            |t| >= 6 && t[0] == '\\' && t[1] == 'u' && t[2..6] == q && t[6..] == p
  {
    var t := Escaped(q, p);
    assert t[2..6] == q;
  }

  /** The two halves of a code point above the basic plane. */
  function HighHalf(cp: nat): nat
    requires 0x10000 <= cp < 0x110000
  {
    0xD800 + (cp - 0x10000) / 0x400
  }

  function LowHalf(cp: nat): nat
    requires 0x10000 <= cp < 0x110000
  {
    0xDC00 + (cp - 0x10000) % 0x400
  }

  lemma HalvesPair(cp: nat)
    requires 0x10000 <= cp < 0x110000
    ensures High(HighHalf(cp)) && Low(LowHalf(cp)) && Paired(HighHalf(cp), LowHalf(cp)) == cp
  {
  }

  lemma PairCode(cp: nat, q: string, r: string, p: string)
    requires 0x10000 <= cp < 0x110000 && Writes(q, HighHalf(cp)) && Writes(r, LowHalf(cp))
    ensures EscapeCode(Escaped(q, Escaped(r, p))) == Some((cp, p))
  {
    var a, b := HighHalf(cp), LowHalf(cp);
    HalvesPair(cp);
    WrittenHex(q, a);
    WrittenHex(r, b);
    EscapedParts(q, Escaped(r, p));
    EscapedParts(r, p);
  }

  /** A decoded escape is one unit of the literal. */
  lemma CodeReads(t: string, cp: nat, p: string)
    requires t != "" && t[0] == '\\' && EscapeCode(t) == Some((cp, p))
    ensures ReadBody(t) == Prepend(Encode(cp), ReadBody(p))
  {
  }

  /** Every code point above the basic plane is read from its surrogate pair, whatever follows. */
  lemma PairReads(cp: nat, q: string, r: string, p: string)
    requires 0x10000 <= cp < 0x110000 && Writes(q, HighHalf(cp)) && Writes(r, LowHalf(cp))
    ensures ReadBody(Escaped(q, Escaped(r, p))) == Prepend(Encode(cp), ReadBody(p))
  {
    PairCode(cp, q, r, p);
    EscapedParts(q, Escaped(r, p));
    CodeReads(Escaped(q, Escaped(r, p)), cp, p);
  }

  /** `p` starts with an escape of a low surrogate. */
  predicate LowFollows(p: string) {
    UnicodeAt(p) && Low(Hex4(p[2..6]))
  }

  /** Every other code point of the basic plane is read from its own escape, whatever follows. */
  lemma UnitReads(u: nat, q: string, p: string)
    requires Writes(q, u) && Scalar(u)
    ensures ReadBody(Escaped(q, p)) == Prepend(Encode(u), ReadBody(p))
  {
    WrittenHex(q, u);
    EscapedParts(q, p);
    CodeReads(Escaped(q, p), u, p);
  }

  /** A surrogate without its partner is read as U+FFFD, that is EF BF BD. */
  lemma LoneReads(u: nat, q: string, p: string)
    requires Writes(q, u) && !Scalar(u) && !(u < 0xDC00 && LowFollows(p))
    ensures ReadBody(Escaped(q, p)) == Prepend([0xEF as char, 0xBF as char, 0xBD as char], ReadBody(p))
  {
    WrittenHex(q, u);
    EscapedParts(q, p);
    CodeReads(Escaped(q, p), 0xFFFD, p);
  }

  /** The eight short escapes. */
  lemma ShortReads(k: nat, p: string)
    requires k < |NAMES|
    ensures ReadBody(['\\', NAMES[k]] + p) == Prepend([MEANINGS[k]], ReadBody(p))
  {
    var t := ['\\', NAMES[k]] + p;
    assert t[2..] == p && NAMES[k] in SHORT;
    CodeReads(t, MEANINGS[k] as int, p);
  }

  /** Anything else behind a backslash is refused. */
  lemma OtherEscapesRefused(p: string)
    requires p != "" && p[0] == '\\' && (|p| < 2 || p[1] !in NAMES)
    requires !(|p| >= 6 && p[1] == 'u' && forall i :: 2 <= i < 6 ==> p[i] in LOWER_HEX || p[i] in UPPER_HEX)
    ensures ReadBody(p).None?
  {
    if UnicodeAt(p) {
      UnicodeListed(p);
    }
    assert |p| >= 2 ==> p[1] !in SHORT;
    NoCodeRefused(p);
  }

  lemma NoCodeRefused(p: string)
    requires p != "" && p[0] == '\\' && EscapeCode(p).None?
    ensures ReadBody(p).None?
  {
  }

  lemma UnicodeListed(p: string)
    requires UnicodeAt(p)
    ensures p[1] == 'u' && forall i :: 2 <= i < 6 ==> p[i] in LOWER_HEX || p[i] in UPPER_HEX
  {
    var q := p[2..6];
    forall i | 0 <= i < 4
      ensures q[i] in LOWER_HEX || q[i] in UPPER_HEX
    {
      HexListed(q[i]);
    }
    assert forall i :: 2 <= i < 6 ==> p[i] == q[i - 2];
  }

  lemma HexListed(c: char)
    requires IsHex(c)
    ensures c in LOWER_HEX || c in UPPER_HEX
  {
    var d := HexValue(c);
    assert c == LOWER_HEX[d] || c == UPPER_HEX[d];
  }

  /** The printer uses the short escape where there is one, except for the slash, a unicode escape for
      the other control characters, and the byte itself otherwise. */
  lemma PrintedAs(c: char)
    ensures (exists k :: 0 <= k < |NAMES| && k != 2 && MEANINGS[k] == c && EscapeChar(c) == ['\\', NAMES[k]])
            || (c !in MEANINGS && c as int < 0x20
                && exists q :: Writes(q, c as int) && EscapeChar(c) == Escaped(q, ""))
            || ((c == '/' || c !in MEANINGS) && c as int >= 0x20 && EscapeChar(c) == [c])
  {
    if c in MEANINGS && c != '/' {
      var k :| 0 <= k < |MEANINGS| && MEANINGS[k] == c;
      assert k != 2;
      PrintedShort(k);
    } else if c as int < 0x20 {
      var q := "00" + [HexDigit(c as int / 16), HexDigit(c as int % 16)];
      PrintedControl(c, q);
    }
  }

  lemma PrintedShort(k: nat)
    requires k < 8 && k != 2
    ensures EscapeChar(MEANINGS[k]) == ['\\', NAMES[k]]
  {
  }

  lemma PrintedControl(c: char, q: string)
    requires c !in MEANINGS && c as int < 0x20 && q == "00" + [HexDigit(c as int / 16), HexDigit(c as int % 16)]
    ensures Writes(q, c as int) && EscapeChar(c) == Escaped(q, "")
  {
    assert MEANINGS[3] == '\U{8}' && MEANINGS[4] == '\U{C}';
    assert MEANINGS[5] == '\n' && MEANINGS[6] == '\r' && MEANINGS[7] == '\t';
  }
}
