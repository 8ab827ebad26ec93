/** What `pg_convert_qmarks` of src/agent/db_layer.c does to SQL text, lexeme by lexeme. */
module Numbering {
  import opened CText
  import opened Decimal
  import opened SqlLex
  import SqlGuard
  import opened SqlText
  import opened Placeholders

  /** The text with the k-th placeholder numbered k, and every other lexeme as it was. */
  function NumberedText(xs: seq<Lexeme>, k: nat): string {
    if xs == [] then ""
    else if xs[0] == Mark('?') then "$" + Dec(k + 1) + NumberedText(xs[1..], k + 1)
    else Written(xs[0]) + NumberedText(xs[1..], k)
  }

  function Marks(xs: seq<Lexeme>): nat {
    if xs == [] then 0 else (if xs[0] == Mark('?') then 1 else 0) + Marks(xs[1..])
  }

  /** A literal or comment that the text does not finish. */
  datatype Tail = Nothing | OpenLiteral(q: char, inside: string) | OpenLine(note: string) | OpenBlock(note: string)

  function TailText(t: Tail): string {
    match t
    case Nothing => ""
    case OpenLiteral(q, inside) => [q] + Doubling(inside, q)
    case OpenLine(note) => "--" + note
    case OpenBlock(note) => "/*" + note
  }

  predicate TailOk(t: Tail) {
    match t
    case Nothing => true
    case OpenLiteral(q, inside) => (q == '\'' || q == '"') && NulFree(inside)
    case OpenLine(note) => NulFree(note) && '\n' !in note
    case OpenBlock(note) => NulFree(note) && NoStarSlash(note)
  }

  // ---- every lexeme is copied ------------------------------------------

  /** From this mode the text `a` is copied, and the scanner goes on in mode `n`. */
  predicate Copies(a: string, rest: string, m: Mode, n: Mode, k: nat) {
    Rewrite(a + rest, m, k) == a + Rewrite(rest, n, k) && Count(a + rest, m) == Count(rest, n)
  }

  lemma CopyOne(c: char, more: string, a: string, rest: string, m: Mode, n: Mode, k: nat)
    requires !(m == Code && c == '?') && more == a + rest && Copies(a, rest, Next(m, c, At(more, 0)), n, k)
    ensures Copies([c] + a, rest, m, n, k)
  {
    var p := [c] + a + rest;
    assert p == [c] + more && p[1..] == more && At(p, 1) == At(more, 0);
    Cat3([c], a, Rewrite(rest, n, k));
  }

  lemma CopyNone(rest: string, m: Mode, k: nat)
    ensures Copies("", rest, m, m, k)
  {
    assert "" + rest == rest;
  }

  lemma {:induction false} WordCopied(word: string, rest: string, k: nat)
    requires forall i :: 0 <= i < |word| ==> IdentChar(word[i])
    ensures Copies(word, rest, Code, Code, k)
  {
    if word == "" {
      CopyNone(rest, Code, k);
    } else {
      WordCopied(word[1..], rest, k);
      CopyOne(word[0], word[1..] + rest, word[1..], rest, Code, Code, k);
      assert [word[0]] + word[1..] == word;
    }
  }

  function Inside(q: char): Mode {
    if q == '\'' then Single else Double
  }

  lemma {:induction false} InsideCopied(s: string, q: char, rest: string, k: nat)
    requires Quote(q)
    ensures Copies(Doubling(s, q), rest, Inside(q), Inside(q), k)
  {
    if s == "" {
      CopyNone(rest, Inside(q), k);
    } else {
      var d := Doubling(s[1..], q);
      InsideCopied(s[1..], q, rest, k);
      if s[0] == q {
        CopyOne(q, d + rest, d, rest, Code, Inside(q), k);
        CopyOne(q, [q] + d + rest, [q] + d, rest, Inside(q), Inside(q), k);
        assert [q] + ([q] + d) == Doubling(s, q);
      } else {
        CopyOne(s[0], d + rest, d, rest, Inside(q), Inside(q), k);
      }
    }
  }

  /** Copying one text and then another. */
  lemma CopyBoth(a: string, b: string, rest: string, m: Mode, n: Mode, o: Mode, k: nat)
    requires Copies(a, b + rest, m, n, k) && Copies(b, rest, n, o, k)
    ensures Copies(a + b, rest, m, o, k)
  {
    Cat3(a, b, rest);
    Cat3(a, b, Rewrite(rest, o, k));
  }

  lemma QuotedCopied(q: char, inside: string, rest: string, k: nat)
    requires Quote(q)
    ensures Copies([q] + (Doubling(inside, q) + [q]), rest, Code, Code, k)
  {
    var d := Doubling(inside, q);
    CopyNone(rest, Code, k);
    CopyOne(q, "" + rest, "", rest, Inside(q), Code, k);
    assert [q] + "" == [q];
    InsideCopied(inside, q, [q] + rest, k);
    CopyBoth(d, [q], rest, Inside(q), Inside(q), Code, k);
    CopyOne(q, d + [q] + rest, d + [q], rest, Code, Code, k);
  }

  lemma {:induction false} LineCopied(note: string, rest: string, k: nat)
    requires '\n' !in note
    ensures Copies(note, rest, Line, Line, k)
  {
    if note == "" {
      CopyNone(rest, Line, k);
    } else {
      LineCopied(note[1..], rest, k);
      CopyOne(note[0], note[1..] + rest, note[1..], rest, Line, Line, k);
      assert [note[0]] + note[1..] == note;
    }
  }

  /** A comment runs on from its opening. */
  lemma LineOpens(a: string, rest: string, n: Mode, k: nat)
    requires Copies(a, rest, Line, n, k)
    ensures Copies("--" + a, rest, Code, n, k)
  {
    CopyOne('-', a + rest, a, rest, Line, n, k);
    CopyOne('-', ['-'] + a + rest, ['-'] + a, rest, Code, n, k);
    assert ['-'] + (['-'] + a) == "--" + a;
  }

  lemma NoteCopied(note: string, rest: string, k: nat)
    requires '\n' !in note
    ensures Copies("--" + (note + "\n"), rest, Code, Code, k)
  {
    CopyNone(rest, Code, k);
    CopyOne('\n', "" + rest, "", rest, Line, Code, k);
    assert ['\n'] + "" == "\n";
    LineCopied(note, "\n" + rest, k);
    CopyBoth(note, "\n", rest, Line, Line, Code, k);
    LineOpens(note + "\n", rest, Code, k);
  }

  /** Inside a block comment a text without star-slash is copied. */
  lemma {:induction false} BlockCopied(note: string, rest: string, k: nat)
    requires NoStarSlash(note) && (note != "" && note[|note| - 1] == '*' ==> At(rest, 0) != '/')
    ensures Copies(note, rest, Block, Block, k)
  {
    if note == "" {
      CopyNone(rest, Block, k);
    } else {
      var more := note[1..];
      assert more != "" ==> more[|more| - 1] == note[|note| - 1];
      BlockCopied(more, rest, k);
      assert At(more + rest, 0) == if more == "" then At(rest, 0) else more[0];
      CopyOne(note[0], more + rest, more, rest, Block, Block, k);
      assert [note[0]] + more == note;
    }
  }

  lemma BlockOpens(a: string, rest: string, n: Mode, k: nat)
    requires Copies(a, rest, Block, n, k)
    ensures Copies("/*" + a, rest, Code, n, k)
  {
    CopyOne('*', a + rest, a, rest, Open, n, k);
    CopyOne('/', ['*'] + a + rest, ['*'] + a, rest, Code, n, k);
    assert ['/'] + (['*'] + a) == "/*" + a;
  }

  lemma RemarkCopied(note: string, rest: string, k: nat)
    requires NoStarSlash(note)
    ensures Copies("/*" + (note + "*/"), rest, Code, Code, k)
  {
    CopyNone(rest, Code, k);
    CopyOne('/', "" + rest, "", rest, Close, Code, k);
    assert ['/'] + "" == "/";
    CopyOne('*', "/" + rest, "/", rest, Block, Code, k);
    assert ['*'] + "/" == "*/";
    BlockCopied(note, "*/" + rest, k);
    CopyBoth(note, "*/", rest, Block, Block, Code, k);
    BlockOpens(note + "*/", rest, Code, k);
  }

  lemma LexemeCopied(x: Lexeme, rest: string, k: nat)
    requires LexemeOk(x) && Parted(x, rest) && x != Mark('?')
    ensures Copies(Written(x), rest, Code, Code, k)
  {
    match x {
      case Bare(word) =>
        WordCopied(word, rest, k);
      case Quoted(q, inside) =>
        QuotedCopied(q, inside, rest, k);
      case LineNote(note) =>
        NoteCopied(note, rest, k);
      case BlockNote(note) =>
        RemarkCopied(note, rest, k);
      case White(c) =>
        CopyNone(rest, Code, k);
        CopyOne(c, "" + rest, "", rest, Code, Code, k);
        assert [c] + "" == [c];
      case Mark(c) =>
        CopyNone(rest, Code, k);
        CopyOne(c, "" + rest, "", rest, Code, Code, k);
        assert [c] + "" == [c];
    }
  }

  lemma TailCopied(t: Tail, k: nat)
    requires TailOk(t)
    ensures Rewrite(TailText(t), Code, k) == TailText(t) && Count(TailText(t), Code) == 0
  {
    match t {
      case Nothing =>
      case OpenLiteral(q, inside) =>
        InsideCopied(inside, q, "", k);
        CopyOne(q, Doubling(inside, q) + "", Doubling(inside, q), "", Code, Inside(q), k);
      case OpenLine(note) =>
        LineCopied(note, "", k);
        LineOpens(note, "", Line, k);
      case OpenBlock(note) =>
        BlockCopied(note, "", k);
        BlockOpens(note, "", Block, k);
    }
    assert TailText(t) + "" == TailText(t);
  }

  lemma MarkNumbered(more: string, k: nat)
    ensures Rewrite("?" + more, Code, k) == "$" + Dec(k + 1) + Rewrite(more, Code, k + 1)
    ensures Count("?" + more, Code) == 1 + Count(more, Code)
  {
    assert ("?" + more)[1..] == more;
  }

  /** Exactly the question marks outside literals and comments are numbered, in order. */
  lemma {:induction false} NumbersOnlyMarks(xs: seq<Lexeme>, t: Tail, k: nat)
    requires WellWritten(xs, TailText(t)) && TailOk(t)
    ensures Rewrite(TextOf(xs) + TailText(t), Code, k) == NumberedText(xs, k) + TailText(t)
    ensures Count(TextOf(xs) + TailText(t), Code) == Marks(xs)
    decreases |xs|
  {
    var tail := TailText(t);
    if xs == [] {
      assert TextOf(xs) + tail == tail && "" + tail == tail;
      TailCopied(t, k);
    } else {
      var more := TextOf(xs[1..]) + tail;
      Cat3(Written(xs[0]), TextOf(xs[1..]), tail);
      if xs[0] == Mark('?') {
        NumbersOnlyMarks(xs[1..], t, k + 1);
        MarkNumbered(more, k);
        Cat3("$" + Dec(k + 1), NumberedText(xs[1..], k + 1), tail);
      } else {
        NumbersOnlyMarks(xs[1..], t, k);
        LexemeCopied(xs[0], more, k);
        Cat3(Written(xs[0]), NumberedText(xs[1..], k), tail);
      }
    }
  }

  // ---- every text is written so ----------------------------------------

  /** Up to the closing quote, or to the end of the text. */
  lemma {:induction false} LiteralOrTail(p: string, q: char) returns (inside: string, closed: bool, rest: string)
    requires NulFree(p) && Quote(q)
    ensures NulFree(inside) && NulFree(rest) && |rest| <= |p|
    ensures if closed then p == Doubling(inside, q) + ([q] + rest) && At(rest, 0) != q else p == Doubling(inside, q)
    decreases |p|
  {
    if p == "" {
      inside, closed, rest := "", false, "";
    } else if p[0] == q && At(p, 1) != q {
      inside, closed, rest := "", true, p[1..];
      assert p == [q] + p[1..];
    } else {
      var n := if p[0] == q then 2 else 1;
      var more;
      more, closed, rest := LiteralOrTail(p[n..], q);
      inside := [p[0]] + more;
      assert inside[1..] == more && p == p[..n] + p[n..];
      assert p[..n] == if p[0] == q then [q, q] else [p[0]];
      Cat3(p[..n], Doubling(more, q), [q] + rest);
    }
  }

  lemma {:induction false} LineOrTail(p: string)
    ensures NulFree(p) && Past(p, '\n').None? ==> '\n' !in p
  {
    if p != "" {
      LineOrTail(p[1..]);
    }
  }

  lemma {:induction false} BlockOrTail(p: string)
    ensures NulFree(p) && AfterStar(p).None? ==> NoStarSlash(p)
  {
    if NulFree(p) && AfterStar(p).None? && p != "" {
      BlockOrTail(p[1..]);
      forall i | 0 <= i < |p| - 1
        ensures !(p[i] == '*' && p[i + 1] == '/')
      {
        assert i > 0 ==> p[i] == p[1..][i - 1] && p[i + 1] == p[1..][i];
      }
    }
  }

  /** The first lexeme of a text, or the unfinished tail that it is. */
  lemma FirstPart(p: string) returns (x: Option<Lexeme>, t: Tail, rest: string)
    requires p != "" && NulFree(p)
    ensures x.Some? ==> LexemeOk(x.value) && Parted(x.value, rest) && p == Written(x.value) + rest
                        && NulFree(rest) && |rest| < |p|
    ensures x.None? ==> TailOk(t) && p == TailText(t)
  {
    x, t, rest := None, Nothing, "";
    if IdentChar(p[0]) {
      SqlGuard.SkipIdentRun(p);
      rest := SkipIdent(p);
      x := Some(Bare(p[..|p| - |rest|]));
    } else if Quote(p[0]) {
      var inside, closed, r := LiteralOrTail(p[1..], p[0]);
      assert p == [p[0]] + p[1..];
      if closed {
        x, rest := Some(Quoted(p[0], inside)), r;
        Cat3(Doubling(inside, p[0]), [p[0]], r);
        Cat3([p[0]], Doubling(inside, p[0]) + [p[0]], r);
      } else {
        t := OpenLiteral(p[0], inside);
      }
    } else if LineComment(p) || BlockComment(p) {
      x, t, rest := CommentPart(p);
    } else {
      x, rest := Some(if Blank(p[0]) then White(p[0]) else Mark(p[0])), p[1..];
      assert p == [p[0]] + p[1..];
    }
  }

  lemma CommentPart(p: string) returns (x: Option<Lexeme>, t: Tail, rest: string)
    requires NulFree(p) && (LineComment(p) || BlockComment(p))
    ensures x.Some? ==> LexemeOk(x.value) && Parted(x.value, rest) && p == Written(x.value) + rest
                        && NulFree(rest) && |rest| < |p|
    ensures x.None? ==> TailOk(t) && p == TailText(t)
  {
    x, t, rest := None, Nothing, "";
    if AfterComment(p).Some? {
      var y := CommentSplit(p);
      x, rest := Some(y), AfterComment(p).value;
      assert rest == p[|Written(y)|..];
    } else if LineComment(p) {
      LineOrTail(p);
      t := OpenLine(p[2..]);
      assert p == "--" + p[2..];
    } else {
      BlockOrTail(p[2..]);
      t := OpenBlock(p[2..]);
      assert p == "/*" + p[2..];
    }
  }

  lemma {:induction false} EveryText(p: string) returns (xs: seq<Lexeme>, t: Tail)
    requires NulFree(p)
    ensures WellWritten(xs, TailText(t)) && TailOk(t) && p == TextOf(xs) + TailText(t)
    decreases |p|
  {
    if p == "" {
      xs, t := [], Nothing;
    } else {
      var x, tail, rest := FirstPart(p);
      if x.None? {
        xs, t := [], tail;
        assert TextOf([]) + p == p;
      } else {
        var more;
        more, t := EveryText(rest);
        xs := [x.value] + more;
        assert xs[1..] == more;
        Cat3(Written(x.value), TextOf(more), TailText(t));
      }
    }
  }

  /** Whatever the text, it is lexemes and perhaps an unfinished literal or comment, and what comes out
      is the same with its placeholders numbered from one. */
  lemma ConvertMeans(sql: string) returns (xs: seq<Lexeme>, t: Tail)
    requires NulFree(sql)
    ensures WellWritten(xs, TailText(t)) && TailOk(t) && sql == TextOf(xs) + TailText(t)
    ensures WithNumbers(Segments(sql, Code), 0) == NumberedText(xs, 0) + TailText(t)
    ensures |Segments(sql, Code)| - 1 == Marks(xs)
  {
    xs, t := EveryText(sql);
    NumbersOnlyMarks(xs, t, 0);
    RewriteIsNumbering(sql, Code, 0);
  }
}
