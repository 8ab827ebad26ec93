/** C strings. A `string` holds one char per byte, without the terminator; a pointer
    into a C string is the text that remains from it, so `p++` is `p[1..]`. */
module CText {

  datatype Option<+T> = None | Some(value: T)

  /** `p[i]`; reading at the end yields the terminator. */
  function At(p: string, i: nat): char {
    if i < |p| then p[i] else '\0'
  }

  predicate Digit(c: char) {
    '0' <= c <= '9'
  }

  predicate Blank(c: char) {
    c == ' ' || c == '\t' || c == '\r' || c == '\n'
  }

  predicate Suffix(t: string, s: string) {
    |t| <= |s| && s[|s| - |t|..] == t
  }

  predicate NulFree(s: string) {
    '\0' !in s
  }

  /** The part of a byte buffer that strlen, strcmp and strcpy see. */
  function CStr(s: string): string {
    if At(s, 0) == '\0' then "" else [s[0]] + CStr(s[1..])
  }

  /** At most the first `n` bytes. */
  function Take(s: string, n: nat): string {
    if |s| <= n then s else s[..n]
  }

  /** A key or value read into a buffer of `size` bytes, as strcmp sees it. */
  function Seen(decoded: string, size: nat): string
    requires size > 0
  {
    CStr(Take(decoded, size - 1))
  }

  function Min(a: nat, b: nat): nat {
    if a <= b then a else b
  }

  /** A NUL-free buffer is the C string it holds. */
  lemma {:induction false} CStrNulFree(s: string)
    requires NulFree(s)
    ensures CStr(s) == s
  {
    if s != "" {
      CStrNulFree(s[1..]);
    }
  }

  lemma {:induction false} CStrIsNulFree(s: string)
    ensures NulFree(CStr(s))
    decreases |s|
  {
    if At(s, 0) != '\0' {
      CStrIsNulFree(s[1..]);
    }
  }

  lemma {:induction false} CStrReaches(s: string, k: nat)
    requires k <= |s| && forall j :: 0 <= j < k ==> s[j] != '\0'
    ensures k <= |CStr(s)| && CStr(s) <= s
    ensures k == |s| || s[k] == '\0' ==> |CStr(s)| == k
    decreases |s|
  {
    if s != "" && s[0] != '\0' {
      CStrReaches(s[1..], if k == 0 then 0 else k - 1);
    }
  }

  /** A buffer longer than its C string has the terminator behind it. */
  lemma {:induction false} CStrEnds(s: string)
    ensures |CStr(s)| < |s| ==> s[|CStr(s)|] == '\0'
    decreases |s|
  {
    if At(s, 0) != '\0' {
      CStrEnds(s[1..]);
    }
  }

  lemma {:induction false} CStrOfPrefix(s: string, n: nat)
    requires n <= |s|
    ensures CStr(s[..n]) == CStr(s)[..Min(n, |CStr(s)|)]
    decreases n
  {
    if n > 0 && s[0] != '\0' {
      CStrOfPrefix(s[1..], n - 1);
      assert s[..n][1..] == s[1..][..n - 1];
    }
  }

  /** Truncation commutes with appending: the prefix that fits. */
  lemma TakeAppend(a: string, b: string, n: nat)
    ensures Take(Take(a, n) + b, n) == Take(a + b, n)
  {
    if |a| <= n {
    } else {
      assert (a + b)[..n] == a[..n];
      assert (a[..n] + b)[..n] == a[..n];
    }
  }

  /** Concatenation regrouped; long texts are assembled with these. */
  lemma Cat3(a: string, b: string, c: string)
    ensures a + b + c == a + (b + c)
  {
  }

  lemma SliceOfSlice(s: string, w: nat, n: nat)
    requires w <= n <= |s|
    ensures s[..n][w..] == s[w..][..n - w]
  {
  }

  lemma Cat4(a: string, b: string, c: string, d: string)
    ensures a + b + c + d == a + (b + (c + d))
  {
  }

  lemma Cat6(a: string, b: string, c: string, d: string, e: string, f: string)
    ensures a + b + c + d + e + f == a + (b + c + d + e + f)
  {
  }

  const SMALL := "abcdefghijklmnopqrstuvwxyz"
  const CAPITAL := "ABCDEFGHIJKLMNOPQRSTUVWXYZ"

  lemma Alphabets(k: nat)
    requires k < 26
    ensures SMALL[k] as int == 97 + k && CAPITAL[k] as int == 65 + k
  {
  }

  lemma LettersMean(c: char)
    ensures 'a' <= c <= 'z' <==> c in SMALL
    ensures 'A' <= c <= 'Z' <==> c in CAPITAL
  {
    if 'a' <= c <= 'z' {
      Alphabets(c as int - 97);
    } else if 'A' <= c <= 'Z' {
      Alphabets(c as int - 65);
    }
    if c in SMALL {
      var k :| 0 <= k < 26 && SMALL[k] == c;
      Alphabets(k);
    }
    if c in CAPITAL {
      var k :| 0 <= k < 26 && CAPITAL[k] == c;
      Alphabets(k);
    }
  }
}
