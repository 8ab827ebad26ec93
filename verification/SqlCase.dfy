/** Letter case in the SQL write guard of src/agent/sqlite_tool.c: capitals and small letters are
    told apart nowhere. */
module SqlCase {
  import opened CText
  import opened SqlLex
  import opened SqlGuard

  /** The same byte, or one letter in its two cases. */
  predicate SameLetter(c: char, d: char) {
    c == d || exists k :: 0 <= k < 26 && ((c == SMALL[k] && d == CAPITAL[k]) || (c == CAPITAL[k] && d == SMALL[k]))
  }

  /** Texts that differ only in the case of their letters. */
  predicate SameText(s: string, t: string) {
    |s| == |t| && forall i :: 0 <= i < |s| ==> SameLetter(s[i], t[i])
  }

  /** The same relation on byte values. */
  predicate Twin(c: char, d: char) {
    c == d || ('a' <= c <= 'z' && d as int == c as int - 32) || ('A' <= c <= 'Z' && d as int == c as int + 32)
  }

  predicate Alike(s: string, t: string) {
    |s| == |t| && forall i :: 0 <= i < |s| ==> Twin(s[i], t[i])
  }

  lemma SameLetterIsTwin(c: char, d: char)
    ensures SameLetter(c, d) <==> Twin(c, d)
  {
    forall k | 0 <= k < 26
      ensures SMALL[k] as int == 97 + k && CAPITAL[k] as int == 65 + k
    {
      Alphabets(k);
    }
    if 'a' <= c <= 'z' && d as int == c as int - 32 {
      var k := c as int - 97;
      assert c == SMALL[k] && d == CAPITAL[k];
    } else if 'A' <= c <= 'Z' && d as int == c as int + 32 {
      var k := c as int - 65;
      assert c == CAPITAL[k] && d == SMALL[k];
    }
  }

  lemma SameTextIsAlike(s: string, t: string)
    ensures SameText(s, t) <==> Alike(s, t)
  {
    forall i | 0 <= i < |s| && |s| == |t|
      ensures SameLetter(s[i], t[i]) <==> Twin(s[i], t[i])
    {
      SameLetterIsTwin(s[i], t[i]);
    }
  }

  /** A keyword, in small letters, stands at `p` when each byte is its letter in one of the two cases. */
  lemma CiPrefixMeans(p: string, w: string)
    requires forall i :: 0 <= i < |w| ==> w[i] in SMALL
    ensures CiPrefix(p, w) <==> |w| <= |p| && SameText(p[..|w|], w)
  {
    forall i | 0 <= i < |w| && |w| <= |p|
      ensures Lower(p[i]) == w[i] <==> SameLetter(p[i], w[i])
    {
      LettersMean(w[i]);
      SameLetterIsTwin(p[i], w[i]);
    }
    if |w| <= |p| {
      assert forall i :: 0 <= i < |w| ==> p[..|w|][i] == p[i];
    }
  }

  /** The bytes of a name. */
  lemma IdentMeans(c: char)
    ensures IdentChar(c) <==> c in SMALL || c in CAPITAL || c in "0123456789_"
  {
    LettersMean(c);
  }

  // ---- the scanners ----------------------------------------------------

  lemma AtAlike(s: string, t: string, i: nat)
    requires Alike(s, t)
    ensures Twin(At(s, i), At(t, i))
  {
  }

  lemma RestAlike(s: string, t: string, k: nat)
    requires Alike(s, t) && k <= |s|
    ensures Alike(s[k..], t[k..])
  {
  }

  lemma KwAlike(s: string, t: string, w: string)
    requires Alike(s, t)
    ensures CiPrefix(s, w) == CiPrefix(t, w) && KwAt(s, w) == KwAt(t, w)
  {
    AtAlike(s, t, |w|);
    assert forall i :: 0 <= i < |s| ==> Lower(s[i]) == Lower(t[i]);
  }

  lemma AnyKwAlike(s: string, t: string, words: seq<string>)
    requires Alike(s, t)
    ensures AnyKw(s, words) == AnyKw(t, words)
  {
    forall i | 0 <= i < |words|
      ensures KwAt(s, words[i]) == KwAt(t, words[i])
    {
      KwAlike(s, t, words[i]);
    }
  }

  predicate BothAlike(a: Option<string>, b: Option<string>) {
    a.Some? == b.Some? && (a.Some? ==> Alike(a.value, b.value))
  }

  lemma {:induction false} PastAlike(s: string, t: string, c: char)
    requires Alike(s, t) && !IdentChar(c)
    ensures BothAlike(Past(s, c), Past(t, c))
    decreases |s|
  {
    AtAlike(s, t, 0);
    if At(s, 0) != '\0' {
      RestAlike(s, t, 1);
      if s[0] != c {
        PastAlike(s[1..], t[1..], c);
      }
    }
  }

  lemma {:induction false} AfterStarAlike(s: string, t: string)
    requires Alike(s, t)
    ensures BothAlike(AfterStar(s), AfterStar(t))
    decreases |s|
  {
    AtAlike(s, t, 0);
    AtAlike(s, t, 1);
    if At(s, 0) != '\0' {
      if s[0] == '*' && At(s, 1) == '/' {
        RestAlike(s, t, 2);
      } else {
        RestAlike(s, t, 1);
        AfterStarAlike(s[1..], t[1..]);
      }
    }
  }

  lemma CommentAlike(s: string, t: string)
    requires Alike(s, t)
    ensures LineComment(s) == LineComment(t) && BlockComment(s) == BlockComment(t)
    ensures LineComment(s) || BlockComment(s) ==> BothAlike(AfterComment(s), AfterComment(t))
  {
    AtAlike(s, t, 0);
    AtAlike(s, t, 1);
    if LineComment(s) {
      PastAlike(s, t, '\n');
    } else if BlockComment(s) {
      RestAlike(s, t, 2);
      AfterStarAlike(s[2..], t[2..]);
    }
  }

  lemma {:induction false} SkipWsAlike(s: string, t: string)
    requires Alike(s, t)
    ensures Alike(SkipWs(s), SkipWs(t))
    decreases |s|
  {
    AtAlike(s, t, 0);
    CommentAlike(s, t);
    if Blank(At(s, 0)) {
      RestAlike(s, t, 1);
      SkipWsAlike(s[1..], t[1..]);
    } else if (LineComment(s) || BlockComment(s)) && AfterComment(s).Some? {
      SkipWsAlike(AfterComment(s).value, AfterComment(t).value);
    }
  }

  lemma {:induction false} CloseQuoteAlike(s: string, t: string, q: char)
    requires Alike(s, t) && Quote(q)
    ensures Alike(CloseQuote(s, q), CloseQuote(t, q))
    decreases |s|
  {
    AtAlike(s, t, 0);
    AtAlike(s, t, 1);
    if At(s, 0) != '\0' {
      RestAlike(s, t, 1);
      if s[0] != q {
        CloseQuoteAlike(s[1..], t[1..], q);
      } else if At(s, 1) == q && |s| > 1 {
        RestAlike(s, t, 2);
        CloseQuoteAlike(s[2..], t[2..], q);
      }
    }
  }

  lemma SkipStringAlike(s: string, t: string)
    requires Alike(s, t) && s != "" && Quote(s[0])
    ensures t[0] == s[0] && Alike(SkipString(s), SkipString(t))
  {
    AtAlike(s, t, 0);
    RestAlike(s, t, 1);
    CloseQuoteAlike(s[1..], t[1..], s[0]);
  }

  lemma {:induction false} SkipIdentAlike(s: string, t: string)
    requires Alike(s, t)
    ensures Alike(SkipIdent(s), SkipIdent(t))
    decreases |s|
  {
    AtAlike(s, t, 0);
    if s != "" && IdentChar(s[0]) {
      RestAlike(s, t, 1);
      SkipIdentAlike(s[1..], t[1..]);
    }
  }

  lemma ScanIdentAlike(s: string, t: string)
    requires Alike(s, t)
    ensures BothAlike(ScanIdent(s), ScanIdent(t))
  {
    AtAlike(s, t, 0);
    if At(s, 0) == '"' {
      RestAlike(s, t, 1);
      PastAlike(s[1..], t[1..], '\"');
    } else {
      SkipIdentAlike(s, t);
      NoIdent(s);
      NoIdent(t);
    }
  }

  lemma NoIdent(p: string)
    ensures SkipIdent(p) == p <==> |SkipIdent(p)| == |p|
  {
  }

  lemma {:induction false} MatchAlike(s: string, t: string, depth: int)
    requires Alike(s, t)
    ensures BothAlike(MatchParen(s, depth), MatchParen(t, depth))
    decreases |s|
  {
    AtAlike(s, t, 0);
    CommentAlike(s, t);
    if At(s, 0) != '\0' {
      if Quote(s[0]) {
        SkipStringAlike(s, t);
        MatchAlike(SkipString(s), SkipString(t), depth);
      } else if LineComment(s) || BlockComment(s) {
        if AfterComment(s).Some? {
          MatchAlike(AfterComment(s).value, AfterComment(t).value, depth);
        }
      } else {
        RestAlike(s, t, 1);
        MatchAlike(s[1..], t[1..], if s[0] == '(' then depth + 1 else if s[0] == ')' then depth - 1 else depth);
      }
    }
  }

  // ---- the rules -------------------------------------------------------

  lemma {:induction false} BodyWalkAlike(s: string, t: string, end: nat)
    requires Alike(s, t)
    ensures BodyWalk(s, end) == BodyWalk(t, end)
    decreases |s|
  {
    SkipWsAlike(s, t);
    var p, q := SkipWs(s), SkipWs(t);
    if |s| > end && |p| > end {
      AtAlike(p, q, 0);
      AnyKwAlike(p, q, DML);
      AnyKwAlike(p, q, FORBIDDEN);
      if Quote(p[0]) {
        SkipStringAlike(p, q);
        BodyWalkAlike(SkipString(p), SkipString(q), end);
      } else if !IdentChar(p[0]) {
        RestAlike(p, q, 1);
        BodyWalkAlike(p[1..], q[1..], end);
      } else {
        SkipIdentAlike(p, q);
        BodyWalkAlike(SkipIdent(p), SkipIdent(q), end);
      }
    }
  }

  lemma BodyCheckAlike(s: string, t: string, end: nat)
    requires Alike(s, t)
    ensures BodyCheck(s, end) == BodyCheck(t, end)
  {
    SkipWsAlike(s, t);
    KwAlike(SkipWs(s), SkipWs(t), "select");
    KwAlike(SkipWs(s), SkipWs(t), "values");
    KwAlike(SkipWs(s), SkipWs(t), "with");
    BodyWalkAlike(s, t, end);
  }

  lemma WordsAlike(s: string, t: string, w: string)
    requires Alike(s, t)
    ensures Mentions(s, w) == Mentions(t, w) && HasWord(s, w) == HasWord(t, w)
  {
    forall k | 0 <= k <= |s|
      ensures CiPrefix(s[k..], w) == CiPrefix(t[k..], w) && WordAt(s, k, w) == WordAt(t, k, w)
    {
      RestAlike(s, t, k);
      KwAlike(s[k..], t[k..], w);
      if k > 0 {
        AtAlike(s, t, k - 1);
      }
    }
  }

  lemma {:induction false} SkipTabAlike(s: string, t: string)
    requires Alike(s, t)
    ensures Alike(SkipTab(s), SkipTab(t))
    decreases |s|
  {
    AtAlike(s, t, 0);
    if At(s, 0) == ' ' || At(s, 0) == '\t' {
      RestAlike(s, t, 1);
      SkipTabAlike(s[1..], t[1..]);
    }
  }

  lemma TypeTextAlike(s: string, t: string)
    requires Alike(s, t)
    ensures TypeText(s) == TypeText(t)
  {
    assert forall i :: 0 <= i < |s| ==> TypeChar(s[i]) == TypeChar(t[i]);
  }

  /** The blanks after a word of `n` bytes skipped. */
  lemma AfterWordAlike(s: string, t: string, n: nat)
    requires Alike(s, t) && n <= |s|
    ensures Alike(SkipTab(s[n..]), SkipTab(t[n..]))
  {
    RestAlike(s, t, n);
    SkipTabAlike(s[n..], t[n..]);
  }

  lemma AlterAlike(s: string, t: string)
    requires Alike(s, t) && KwAt(s, "alter")
    ensures KwAt(t, "alter") && ValidateAlter(s) == ValidateAlter(t)
  {
    KwAlike(s, t, "alter");
    AfterWordAlike(s, t, 5);
    var p1, p2 := SkipTab(s[5..]), SkipTab(t[5..]);
    KwAlike(p1, p2, "table");
    if KwAt(p1, "table") {
      AfterWordAlike(p1, p2, 5);
      ScanIdentAlike(SkipTab(p1[5..]), SkipTab(p2[5..]));
      var n1, n2 := ScanIdent(SkipTab(p1[5..])), ScanIdent(SkipTab(p2[5..]));
      if n1.Some? {
        SkipTabAlike(n1.value, n2.value);
        AddAlike(SkipTab(n1.value), SkipTab(n2.value));
      }
    }
  }

  /** The part of `sql_validate_alter_add` from ADD on. */
  function AlterFromAdd(q: string): Verdict {
    if !KwAt(q, "add") then Reject(BadAlter) else
    var r := SkipTab(q[3..]);
    var column := ScanIdent(if KwAt(r, "column") then SkipTab(r[6..]) else r);
    if column.None? then Reject(BadAlter) else
    if TypeText(SkipTab(column.value)) then Accept else Reject(BadAlter)
  }

  lemma AddAlike(s: string, t: string)
    requires Alike(s, t)
    ensures AlterFromAdd(s) == AlterFromAdd(t)
  {
    KwAlike(s, t, "add");
    if KwAt(s, "add") {
      AfterWordAlike(s, t, 3);
      var r1, r2 := SkipTab(s[3..]), SkipTab(t[3..]);
      KwAlike(r1, r2, "column");
      if KwAt(r1, "column") {
        AfterWordAlike(r1, r2, 6);
      }
      var f1 := if KwAt(r1, "column") then SkipTab(r1[6..]) else r1;
      var f2 := if KwAt(r2, "column") then SkipTab(r2[6..]) else r2;
      ScanIdentAlike(f1, f2);
      if ScanIdent(f1).Some? {
        SkipTabAlike(ScanIdent(f1).value, ScanIdent(f2).value);
        TypeTextAlike(SkipTab(ScanIdent(f1).value), SkipTab(ScanIdent(f2).value));
      }
    }
  }

  lemma CreateAlike(s: string, t: string)
    requires Alike(s, t)
    ensures CiPrefix(s, "create") == CiPrefix(t, "create") && Blank(At(s, 6)) == Blank(At(t, 6))
    ensures CreatesTable(s) == CreatesTable(t)
  {
    KwAlike(s, t, "create");
    AtAlike(s, t, 6);
    AtAlike(s, t, 12);
    if |s| >= 7 {
      RestAlike(s, t, 7);
      KwAlike(s[7..], t[7..], "table");
    }
  }

  lemma VerbsAlike(s: string, t: string)
    requires Alike(s, t)
    ensures WriteVerb(s) == WriteVerb(t) && NeedsWhere(s) == NeedsWhere(t)
  {
    KwAlike(s, t, "insert");
    KwAlike(s, t, "update");
    KwAlike(s, t, "delete");
  }

  lemma StmtAlike(s: string, t: string)
    requires Alike(s, t)
    ensures ValidateStmt(s) == ValidateStmt(t)
  {
    AnyKwAlike(s, t, DANGEROUS);
    WordsAlike(s, t, "portfolio");
    WordsAlike(s, t, "where");
    KwAlike(s, t, "alter");
    VerbsAlike(s, t);
    CreateAlike(s, t);
    if KwAt(s, "alter") {
      AlterAlike(s, t);
    }
  }

  // ---- the WITH list ---------------------------------------------------

  lemma {:induction false} ColumnsAlike(s: string, t: string)
    requires Alike(s, t)
    ensures BothAlike(ColumnsEnd(s), ColumnsEnd(t))
    decreases |s|
  {
    SkipWsAlike(s, t);
    var a1, a2 := SkipWs(s), SkipWs(t);
    AtAlike(a1, a2, 0);
    if At(a1, 0) != '\0' && a1[0] != ')' {
      ScanIdentAlike(a1, a2);
      if ScanIdent(a1).Some? {
        SkipWsAlike(ScanIdent(a1).value, ScanIdent(a2).value);
        var b1, b2 := SkipWs(ScanIdent(a1).value), SkipWs(ScanIdent(a2).value);
        AtAlike(b1, b2, 0);
        if At(b1, 0) == ',' {
          RestAlike(b1, b2, 1);
          ColumnsAlike(b1[1..], b2[1..]);
        }
      }
    }
  }

  predicate HeadsAlike(a: Head, b: Head) {
    a.Open? == b.Open? && if a.Open? then Alike(a.text, b.text) else a == b
  }

  lemma AfterColumnsAlike(s: string, t: string)
    requires Alike(s, t) && At(s, 0) == '('
    ensures At(t, 0) == '(' && HeadsAlike(AfterColumns(s), AfterColumns(t))
  {
    AtAlike(s, t, 0);
    RestAlike(s, t, 1);
    ColumnsAlike(s[1..], t[1..]);
    var q1, q2 := ColumnsEnd(s[1..]), ColumnsEnd(t[1..]);
    if q1.Some? {
      AtAlike(q1.value, q2.value, 0);
      if At(q1.value, 0) == ')' {
        RestAlike(q1.value, q2.value, 1);
        SkipWsAlike(q1.value[1..], q2.value[1..]);
      }
    }
  }

  /** The part of a list item from AS on. */
  function HeadFromAs(text: string): Head {
    if !KwAt(text, "as") then BadHead(NoAs) else
    var open := SkipWs(text[2..]);
    if At(open, 0) != '(' then BadHead(NoParen) else Open(open)
  }

  lemma AsAlike(s: string, t: string)
    requires Alike(s, t)
    ensures HeadsAlike(HeadFromAs(s), HeadFromAs(t))
  {
    KwAlike(s, t, "as");
    if KwAt(s, "as") {
      RestAlike(s, t, 2);
      SkipWsAlike(s[2..], t[2..]);
      AtAlike(SkipWs(s[2..]), SkipWs(t[2..]), 0);
    }
  }

  lemma HeadAlike(s: string, t: string)
    requires Alike(s, t)
    ensures HeadsAlike(CteHead(s), CteHead(t))
  {
    SkipWsAlike(s, t);
    ScanIdentAlike(SkipWs(s), SkipWs(t));
    var n1, n2 := ScanIdent(SkipWs(s)), ScanIdent(SkipWs(t));
    if n1.Some? {
      SkipWsAlike(n1.value, n2.value);
      var a1, a2 := SkipWs(n1.value), SkipWs(n2.value);
      AtAlike(a1, a2, 0);
      if At(a1, 0) == '(' {
        AfterColumnsAlike(a1, a2);
      }
      var c1 := if At(a1, 0) == '(' then AfterColumns(a1) else Open(a1);
      var c2 := if At(a2, 0) == '(' then AfterColumns(a2) else Open(a2);
      if c1.Open? {
        AsAlike(c1.text, c2.text);
      }
    }
  }

  /** What is decided about the list from the parentheses of an item on. */
  function FromItem(open: string, close: string): Verdict
    requires open != "" && close != ""
  {
    var v, after := BodyCheck(open[1..], |close|), SkipWs(close[1..]);
    if v.Reject? then v
    else if At(after, 0) == ',' then Outcome(CteList(after[1..], true))
    else Outcome(Ctes([], after))
  }

  lemma ListSteps(p: string)
    ensures var head := CteHead(p);
            Outcome(CteList(p, true))
            == if head.BadHead? then Reject(head.why)
               else if MatchParen(head.text, 0).None? then Reject(Unbalanced)
               else FromItem(head.text, MatchParen(head.text, 0).value)
  {
    var head := CteHead(p);
    if head.Open? && MatchParen(head.text, 0).Some? {
      ItemSteps(p);
    }
  }

  lemma ItemSteps(p: string)
    requires CteHead(p).Open? && MatchParen(CteHead(p).text, 0).Some?
    ensures var open := CteHead(p).text;
            Outcome(CteList(p, true)) == FromItem(open, MatchParen(open, 0).value)
  {
    var open := CteHead(p).text;
    var close := MatchParen(open, 0).value;
    var after := SkipWs(close[1..]);
    if At(after, 0) == ',' {
      OutcomeOfPush(open[1..|open| - |close|], CteList(after[1..], true));
    }
  }

  lemma {:induction false} ListAlike(s: string, t: string)
    requires Alike(s, t)
    ensures Outcome(CteList(s, true)) == Outcome(CteList(t, true))
    decreases |s|
  {
    ListSteps(s);
    ListSteps(t);
    HeadAlike(s, t);
    var h1, h2 := CteHead(s), CteHead(t);
    if h1.Open? {
      MatchAlike(h1.text, h2.text, 0);
      var m1, m2 := MatchParen(h1.text, 0), MatchParen(h2.text, 0);
      if m1.Some? {
        ItemAlike(h1.text, h2.text, m1.value, m2.value);
        var a1, a2 := SkipWs(m1.value[1..]), SkipWs(m2.value[1..]);
        if At(a1, 0) == ',' {
          RestAlike(a1, a2, 1);
          ListAlike(a1[1..], a2[1..]);
        }
        FromItemAlike(h1.text, h2.text, m1.value, m2.value);
      }
    }
  }

  lemma FromItemAlike(s: string, t: string, c: string, d: string)
    requires Alike(s, t) && s != "" && Alike(c, d) && c != ""
    requires var a, b := SkipWs(c[1..]), SkipWs(d[1..]);
             At(a, 0) == ',' && At(b, 0) == ',' ==> Outcome(CteList(a[1..], true)) == Outcome(CteList(b[1..], true))
    ensures FromItem(s, c) == FromItem(t, d)
  {
    ItemAlike(s, t, c, d);
    TailAlike(SkipWs(c[1..]), SkipWs(d[1..]));
  }

  lemma ItemAlike(s: string, t: string, c: string, d: string)
    requires Alike(s, t) && s != "" && Alike(c, d) && c != ""
    ensures BodyCheck(s[1..], |c|) == BodyCheck(t[1..], |d|)
    ensures Alike(SkipWs(c[1..]), SkipWs(d[1..])) && Twin(At(SkipWs(c[1..]), 0), At(SkipWs(d[1..]), 0))
  {
    RestAlike(s, t, 1);
    BodyCheckAlike(s[1..], t[1..], |c|);
    RestAlike(c, d, 1);
    SkipWsAlike(c[1..], d[1..]);
    AtAlike(SkipWs(c[1..]), SkipWs(d[1..]), 0);
  }

  lemma TailAlike(s: string, t: string)
    requires Alike(s, t)
    ensures Outcome(Ctes([], s)) == Outcome(Ctes([], t))
  {
    AtAlike(s, t, 0);
    KwAlike(s, t, "alter");
    KwAlike(s, t, "create");
    StmtAlike(s, t);
  }

  lemma CteAlike(s: string, t: string)
    requires Alike(s, t) && KwAt(s, "with")
    ensures KwAt(t, "with") && ValidateCte(s) == ValidateCte(t)
  {
    KwAlike(s, t, "with");
    RestAlike(s, t, 4);
    SkipWsAlike(s[4..], t[4..]);
    var p, q := SkipWs(s[4..]), SkipWs(t[4..]);
    KwAlike(p, q, "recursive");
    if KwAt(p, "recursive") {
      RestAlike(p, q, 9);
      SkipWsAlike(p[9..], q[9..]);
    }
    ListAlike(AfterWith(s), AfterWith(t));
  }

  // ---- the whole guard -------------------------------------------------

  lemma {:induction false} SkipBlankAlike(s: string, t: string)
    requires Alike(s, t)
    ensures Alike(SkipBlank(s), SkipBlank(t))
    decreases |s|
  {
    AtAlike(s, t, 0);
    if Blank(At(s, 0)) {
      RestAlike(s, t, 1);
      SkipBlankAlike(s[1..], t[1..]);
    }
  }

  lemma {:induction false} StripAlike(s: string, t: string, k: nat)
    requires Alike(s, t)
    ensures Alike(StripComments(s, k), StripComments(t, k))
    decreases k
  {
    if k > 0 {
      SkipBlankAlike(s, t);
      var p, q := SkipBlank(s), SkipBlank(t);
      CommentAlike(p, q);
      if (LineComment(p) || BlockComment(p)) && AfterComment(p).Some? {
        StripAlike(AfterComment(p).value, AfterComment(q).value, k - 1);
      }
    }
  }

  lemma GuardedAlike(s: string, t: string, n: nat)
    requires Alike(s, t) && n > 0
    ensures Alike(Guarded(s, n), Guarded(t, n))
  {
    SkipBlankAlike(s, t);
    StripAlike(SkipBlank(s), SkipBlank(t), MAX_COMMENTS);
    var p, q := StripComments(SkipBlank(s), MAX_COMMENTS), StripComments(SkipBlank(t), MAX_COMMENTS);
    SkipBlankAlike(Take(p, n - 1), Take(q, n - 1));
  }

  /** The verdict on a statement does not depend on the case of any of its letters. */
  lemma CaseDoesNotMatter(s: string, t: string, n: nat)
    requires SameText(s, t) && n > 0
    ensures ValidateWrite(s, n) == ValidateWrite(t, n)
  {
    SameTextIsAlike(s, t);
    SkipBlankAlike(s, t);
    SemicolonsAlike(SkipBlank(s), SkipBlank(t));
    GuardedAlike(s, t, n);
    var b, d := Guarded(s, n), Guarded(t, n);
    KwAlike(b, d, "with");
    if KwAt(b, "with") {
      CteAlike(b, d);
    } else {
      StmtAlike(b, d);
    }
  }

  lemma SemicolonsAlike(s: string, t: string)
    requires Alike(s, t)
    ensures s != "" ==> (s[|s| - 1] == ';' <==> t[|t| - 1] == ';')
    ensures forall n :: 0 <= n <= |s| ==> (';' in s[..n] <==> ';' in t[..n])
  {
    assert forall i :: 0 <= i < |s| ==> (s[i] == ';' <==> t[i] == ';');
    forall n | 0 <= n <= |s|
      ensures ';' in s[..n] <==> ';' in t[..n]
    {
      assert ';' in s[..n] <==> exists i :: 0 <= i < n && s[i] == ';';
      assert ';' in t[..n] <==> exists i :: 0 <= i < n && t[i] == ';';
    }
  }

  /** An INSERT, in any case, is accepted when it is one statement, fits the buffer, and does not
      name the portfolio. */
  lemma InsertIsAccepted(word: string, rest: string, n: nat)
    requires SameText(word, "insert") && !IdentChar(At(rest, 0)) && ';' !in rest
    requires |word + rest| < n
    ensures ValidateWrite(word + rest, n) == Accept <==> !Mentions(word + rest, "portfolio")
  {
    var sql := word + rest;
    SameTextIsAlike(word, "insert");
    assert sql[..6] == word && At(sql, 6) == At(rest, 0);
    assert KwAt(sql, "insert");
    assert SkipBlank(sql) == sql && StripComments(sql, MAX_COMMENTS) == sql;
    assert Guarded(sql, n) == sql;
    OneLetter(word, rest);
    AcceptedWrite(sql, n);
  }

  lemma OneLetter(word: string, rest: string)
    requires Alike(word, "insert") && ';' !in rest
    ensures OneStatement(word + rest) && !KwAt(word + rest, "with")
  {
    var sql := word + rest;
    assert Twin(word[0], "insert"[0]) && sql[0] == word[0];
    assert SkipBlank(sql) == sql;
    assert forall i :: 0 <= i < |word| ==> word[i] != ';' by {
      assert forall i :: 0 <= i < 6 ==> Twin(word[i], "insert"[i]);
    }
    assert Lower(sql[0]) != "with"[0];
  }
}
