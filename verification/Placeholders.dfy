/** The placeholder rewriter of src/agent/db_layer.c. */
module Placeholders {
  import opened CText
  import opened Decimal

  /** Where a byte stands, deciding with one byte of lookahead. `Open` and `Close` are the second
      bytes of a block comment's delimiters. */
  datatype Mode = Code | Single | Double | Line | Open | Block | Close

  function Next(m: Mode, c: char, ahead: char): Mode {
    match m
    case Code =>
      if c == '\'' then Single
      else if c == '"' then Double
      else if c == '-' && ahead == '-' then Line
      else if c == '/' && ahead == '*' then Open
      else Code
    case Single => if c == '\'' then Code else Single
    case Double => if c == '"' then Code else Double
    case Line => if c == '\n' then Code else Line
    case Open => Block
    case Block => if c == '*' && ahead == '/' then Close else Block
    case Close => Code
  }

  /** The reference: the text cut at the question marks outside quotes and comments. */
  function Segments(s: string, m: Mode): (r: seq<string>)
    ensures r != []
  {
    if s == "" then [""]
    else if m == Code && s[0] == '?' then [""] + Segments(s[1..], Code)
    else Glue(s[0], Segments(s[1..], Next(m, s[0], At(s, 1))))
  }

  function Glue(c: char, segs: seq<string>): (r: seq<string>)
    requires segs != []
    ensures |r| == |segs|
  {
    [[c] + segs[0]] + segs[1..]
  }

  /** The segments with a question mark, or with `$k+1`, `$k+2`, ..., between them. */
  function WithMarks(segs: seq<string>): string
    requires segs != []
  {
    if |segs| == 1 then segs[0] else segs[0] + "?" + WithMarks(segs[1..])
  }

  function WithNumbers(segs: seq<string>, k: nat): string
    requires segs != []
  {
    if |segs| == 1 then segs[0] else segs[0] + "$" + Dec(k + 1) + WithNumbers(segs[1..], k + 1)
  }

  /** The rewritten text, byte by byte. */
  function Rewrite(s: string, m: Mode, k: nat): string {
    if s == "" then ""
    else if m == Code && s[0] == '?' then "$" + Dec(k + 1) + Rewrite(s[1..], Code, k + 1)
    else [s[0]] + Rewrite(s[1..], Next(m, s[0], At(s, 1)), k)
  }

  function Count(s: string, m: Mode): nat {
    if s == "" then 0
    else if m == Code && s[0] == '?' then 1 + Count(s[1..], Code)
    else Count(s[1..], Next(m, s[0], At(s, 1)))
  }

  // ---- the scanner -----------------------------------------------------

  /** What the scanner has done so far, and what is left of the text. */
  ghost predicate Done(sql: string, out: string, num: nat, s: string, m: Mode) {
    Rewrite(sql, Code, 0) == out + Rewrite(s, m, num) && Count(sql, Code) == num + Count(s, m)
  }

  lemma Copied(sql: string, out: string, num: nat, s: string, m: Mode)
    requires s != "" && Done(sql, out, num, s, m) && !(m == Code && s[0] == '?')
    ensures Done(sql, out + [s[0]], num, s[1..], Next(m, s[0], At(s, 1)))
  {
    Cat3(out, [s[0]], Rewrite(s[1..], Next(m, s[0], At(s, 1)), num));
  }

  lemma Numbered(sql: string, out: string, num: nat, s: string)
    requires s != "" && Done(sql, out, num, s, Code) && s[0] == '?'
    ensures Done(sql, out + ("$" + Dec(num + 1)), num + 1, s[1..], Code)
  {
    Cat3(out, "$" + Dec(num + 1), Rewrite(s[1..], Code, num + 1));
  }

  /** Copy a quoted literal, a doubled quote staying inside it. */
  method CopyQuoted(ghost sql: string, out: string, ghost num: nat, s: string) returns (out': string, s': string)
    requires s != "" && (s[0] == '\'' || s[0] == '"') && NulFree(s) && Done(sql, out, num, s, Code)
    ensures Done(sql, out', num, s', Code) && |s'| < |s| && NulFree(s')
  {
    var q := s[0];
    ghost var mode := if q == '\'' then Single else Double;
    Copied(sql, out, num, s, Code);
    out', s' := out + [q], s[1..];
    while s' != ""
      invariant |s'| < |s| && NulFree(s')
      invariant Done(sql, out', num, s', mode)
      decreases |s'|
    {
      var c := s'[0];
      Copied(sql, out', num, s', mode);
      out', s' := out' + [c], s'[1..];
      if c == q {
        if At(s', 0) == q {
          Copied(sql, out', num, s', Code);
          out', s' := out' + [s'[0]], s'[1..];
          continue;
        }
        return;
      }
    }
    EndOfText(sql, out', num, mode);
  }

  lemma EndOfText(sql: string, out: string, num: nat, m: Mode)
    requires Done(sql, out, num, "", m)
    ensures Done(sql, out, num, "", Code)
  {
  }

  method CopyLine(ghost sql: string, out: string, ghost num: nat, s: string) returns (out': string, s': string)
    requires At(s, 0) == '-' && At(s, 1) == '-' && NulFree(s) && Done(sql, out, num, s, Code)
    ensures Done(sql, out', num, s', Code) && |s'| < |s| && NulFree(s')
  {
    Copied(sql, out, num, s, Code);
    out', s' := out + [s[0]], s[1..];
    while s' != "" && s'[0] != '\n'
      invariant |s'| < |s| && NulFree(s')
      invariant Done(sql, out', num, s', Line)
      decreases |s'|
    {
      Copied(sql, out', num, s', Line);
      out', s' := out' + [s'[0]], s'[1..];
    }
    if s' == "" {
      EndOfText(sql, out', num, Line);
    } else {
      LineEnds(sql, out', num, s');
    }
  }

  /** The newline itself may be counted to the comment or to the code behind it. */
  lemma LineEnds(sql: string, out: string, num: nat, s: string)
    requires s != "" && s[0] == '\n' && Done(sql, out, num, s, Line)
    ensures Done(sql, out, num, s, Code)
  {
  }

  method CopyBlock(ghost sql: string, out: string, ghost num: nat, s: string) returns (out': string, s': string)
    requires At(s, 0) == '/' && At(s, 1) == '*' && NulFree(s) && Done(sql, out, num, s, Code)
    ensures Done(sql, out', num, s', Code) && |s'| < |s| && NulFree(s')
  {
    Copied(sql, out, num, s, Code);
    out', s' := out + [s[0]], s[1..];
    Copied(sql, out', num, s', Open);
    out', s' := out' + [s'[0]], s'[1..];
    while s' != "" && !(s'[0] == '*' && At(s', 1) == '/')
      invariant |s'| < |s| && NulFree(s')
      invariant Done(sql, out', num, s', Block)
      decreases |s'|
    {
      Copied(sql, out', num, s', Block);
      out', s' := out' + [s'[0]], s'[1..];
    }
    if s' == "" {
      EndOfText(sql, out', num, Block);
    } else {
      Copied(sql, out', num, s', Block);
      out', s' := out' + [s'[0]], s'[1..];
      Copied(sql, out', num, s', Close);
      out', s' := out' + [s'[0]], s'[1..];
    }
  }

  /** `pg_convert_qmarks` into a buffer with enough room. */
  method PgConvertQmarks(sql: string) returns (out: string, num: nat)
    requires NulFree(sql)
    ensures out == WithNumbers(Segments(sql, Code), 0) && num == |Segments(sql, Code)| - 1
  {
    out, num := "", 0;
    var s := sql;
    assert out + Rewrite(s, Code, 0) == Rewrite(sql, Code, 0);
    while s != ""
      invariant NulFree(s) && Done(sql, out, num, s, Code)
      decreases |s|
    {
      if s[0] == '\'' || s[0] == '"' {
        out, s := CopyQuoted(sql, out, num, s);
      } else if s[0] == '-' && At(s, 1) == '-' {
        out, s := CopyLine(sql, out, num, s);
      } else if s[0] == '/' && At(s, 1) == '*' {
        out, s := CopyBlock(sql, out, num, s);
      } else if s[0] == '?' {
        Numbered(sql, out, num, s);
        num := num + 1;
        out := out + ("$" + Dec(num));
        s := s[1..];
      } else {
        Copied(sql, out, num, s, Code);
        out, s := out + [s[0]], s[1..];
      }
    }
    assert out + "" == out;
    RewriteIsNumbering(sql, Code, 0);
  }

  // ---- what the rewriting is -------------------------------------------

  lemma GlueMarks(c: char, segs: seq<string>)
    requires segs != []
    ensures WithMarks(Glue(c, segs)) == [c] + WithMarks(segs)
  {
    if |segs| > 1 {
      assert Glue(c, segs)[1..] == segs[1..];
      Cat4([c], segs[0], "?", WithMarks(segs[1..]));
    }
  }

  lemma GlueNumbers(c: char, segs: seq<string>, k: nat)
    requires segs != []
    ensures WithNumbers(Glue(c, segs), k) == [c] + WithNumbers(segs, k)
  {
    if |segs| > 1 {
      assert Glue(c, segs)[1..] == segs[1..];
      var a, b, d := segs[0], "$" + Dec(k + 1), WithNumbers(segs[1..], k + 1);
      assert [c] + a + "$" + Dec(k + 1) + d == [c] + (a + "$" + Dec(k + 1) + d);
    }
  }

  lemma {:induction false} RewriteIsNumbering(s: string, m: Mode, k: nat)
    ensures Rewrite(s, m, k) == WithNumbers(Segments(s, m), k) && Count(s, m) == |Segments(s, m)| - 1
  {
    if s != "" {
      if m == Code && s[0] == '?' {
        RewriteIsNumbering(s[1..], Code, k + 1);
        var segs := Segments(s[1..], Code);
        assert ([""] + segs)[1..] == segs;
        assert "" + "$" + Dec(k + 1) + WithNumbers(segs, k + 1) == "$" + Dec(k + 1) + WithNumbers(segs, k + 1);
      } else {
        var m' := Next(m, s[0], At(s, 1));
        RewriteIsNumbering(s[1..], m', k);
        GlueNumbers(s[0], Segments(s[1..], m'), k);
      }
    }
  }

  /** Undoing the replacements between the segments gives back the input. */
  lemma {:induction false} MarksRestore(s: string, m: Mode)
    ensures WithMarks(Segments(s, m)) == s
  {
    if s != "" {
      if m == Code && s[0] == '?' {
        MarksRestore(s[1..], Code);
        var segs := Segments(s[1..], Code);
        assert ([""] + segs)[1..] == segs;
        assert "" + "?" + WithMarks(segs) == "?" + s[1..];
      } else {
        var m' := Next(m, s[0], At(s, 1));
        MarksRestore(s[1..], m');
        GlueMarks(s[0], Segments(s[1..], m'));
      }
    }
  }

  // ---- the rewriting is complete ---------------------------------------

  predicate Plain(p: string) {
    forall i :: 0 <= i < |p| ==> p[i] == '$' || '0' <= p[i] <= '9'
  }

  lemma {:induction false} PlainSkips(p: string, r: string)
    requires Plain(p)
    ensures Count(p + r, Code) == Count(r, Code)
  {
    if p == "" {
      assert p + r == r;
    } else {
      assert (p + r)[0] == p[0] && (p + r)[1..] == p[1..] + r;
      PlainSkips(p[1..], r);
    }
  }

  /** Rewriting does not create or remove a byte that the lookahead depends on. */
  lemma AheadKept(s: string, m: Mode, k: nat, x: char)
    requires x in {'-', '*', '/'}
    ensures At(Rewrite(s, m, k), 0) == x <==> At(s, 0) == x
  {
  }

  /** No placeholder is left, and quotes and comments end where they did. */
  lemma {:induction false} NoneLeft(s: string, m: Mode, k: nat)
    ensures Count(Rewrite(s, m, k), m) == 0
  {
    if s != "" {
      if m == Code && s[0] == '?' {
        NoneLeft(s[1..], Code, k + 1);
        PlainSkips("$" + Dec(k + 1), Rewrite(s[1..], Code, k + 1));
      } else {
        var m' := Next(m, s[0], At(s, 1));
        var r := Rewrite(s[1..], m', k);
        NoneLeft(s[1..], m', k);
        AheadKept(s[1..], m', k, '-');
        AheadKept(s[1..], m', k, '*');
        AheadKept(s[1..], m', k, '/');
        assert At(s, 1) == At(s[1..], 0);
        assert ([s[0]] + r)[1..] == r && At([s[0]] + r, 1) == At(r, 0);
      }
    }
  }

  lemma {:induction false} NothingToDo(s: string, m: Mode, k: nat)
    requires Count(s, m) == 0
    ensures Rewrite(s, m, k) == s
  {
    if s != "" {
      NothingToDo(s[1..], Next(m, s[0], At(s, 1)), k);
    }
  }

  /** Rewriting twice is rewriting once. */
  lemma RewriteTwice(s: string)
    ensures Rewrite(Rewrite(s, Code, 0), Code, 0) == Rewrite(s, Code, 0)
  {
    NoneLeft(s, Code, 0);
    NothingToDo(Rewrite(s, Code, 0), Code, 0);
  }
}
