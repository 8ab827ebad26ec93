/** The SQL write guard of src/agent/sqlite_tool.c. */
module SqlGuard {
  import opened CText
  import opened SqlLex

  const READ_VERBS := ["select", "values", "with"]
  const DML := ["insert", "update", "delete"]
  const FORBIDDEN := ["drop", "truncate", "vacuum", "attach", "detach", "reindex", "pragma", "grant",
                      "revoke", "copy", "alter", "create", "begin", "commit", "rollback"]
  const DANGEROUS := ["drop", "truncate", "vacuum", "attach", "detach", "reindex", "pragma", "grant",
                      "revoke", "copy"]

  datatype Reason =
    | EmptySql | ManyStatements | EmptySubquery | NotReadOnly | WriteKeyword | DangerousWord
    | NoCteName | BadColumns | NoAs | NoParen | Unbalanced | NoStatement | OnlyDml
    | Portfolio | BadAlter | NoWhere | OnlyCreateTable | NotAllowed

  datatype Verdict = Accept | Reject(why: Reason)

  predicate AnyKw(p: string, words: seq<string>) {
    exists i :: 0 <= i < |words| && KwAt(p, words[i])
  }

  // ---- one subquery body -----------------------------------------------

  /** The token walk of `sql_cte_body_ok`; the body ends where `end` bytes remain. */
  function BodyWalk(p: string, end: nat): Verdict
    decreases |p|
  {
    if |p| <= end then Accept else
    var q := SkipWs(p);
    if |q| <= end then Accept
    else if Quote(q[0]) then BodyWalk(SkipString(q), end)
    else if !IdentChar(q[0]) then BodyWalk(q[1..], end)
    else if AnyKw(q, DML) then Reject(WriteKeyword)
    else if AnyKw(q, FORBIDDEN) then Reject(DangerousWord)
    else BodyWalk(SkipIdent(q), end)
  }

  predicate ReadHead(q: string) {
    KwAt(q, "select") || KwAt(q, "values") || KwAt(q, "with")
  }

  function BodyCheck(p: string, end: nat): Verdict {
    var q := SkipWs(p);
    if |q| <= end then Reject(EmptySubquery)
    else if !ReadHead(q) then Reject(NotReadOnly)
    else BodyWalk(p, end)
  }

  method AnyKeyword(p: string, words: seq<string>) returns (found: bool)
    ensures found == AnyKw(p, words)
  {
    var i := 0;
    while i < |words|
      invariant 0 <= i <= |words|
      invariant forall j :: 0 <= j < i ==> !KwAt(p, words[j])
    {
      if KwAt(p, words[i]) {
        return true;
      }
      i := i + 1;
    }
    return false;
  }

  method SqlCteBodyOk(s: string, end: nat) returns (v: Verdict)
    ensures v == BodyCheck(s, end)
  {
    var p := SqlSkipWsComment(s);
    if |p| <= end {
      return Reject(EmptySubquery);
    }
    if !KwAt(p, "select") && !KwAt(p, "values") && !KwAt(p, "with") {
      return Reject(NotReadOnly);
    }
    p := s;
    while |p| > end
      invariant BodyWalk(s, end) == BodyWalk(p, end)
      decreases |p|
    {
      var q := SqlSkipWsComment(p);
      if |q| <= end {
        break;
      }
      if Quote(q[0]) {
        p := SqlSkipString(q);
        continue;
      }
      if !IdentChar(q[0]) {
        p := q[1..];
        continue;
      }
      var dml := AnyKeyword(q, DML);
      if dml {
        return Reject(WriteKeyword);
      }
      var forb := AnyKeyword(q, FORBIDDEN);
      if forb {
        return Reject(DangerousWord);
      }
      p := SkipIdent(q);
    }
    return Accept;
  }

  // ---- what an accepted body is, in tokens -----------------------------

  predicate Listed(word: string) {
    LowerAll(word) in DML || LowerAll(word) in FORBIDDEN
  }

  predicate WordsAllowed(ts: seq<Token>) {
    forall i :: 0 <= i < |ts| && ts[i].Word? ==> !Listed(ts[i].text)
  }

  /** Without leading blanks and comments. */
  function Significant(ts: seq<Token>): seq<Token> {
    if ts != [] && (ts[0].Space? || ts[0].Comment?) then Significant(ts[1..]) else ts
  }

  predicate StartsReadOnly(ts: seq<Token>) {
    var s := Significant(ts);
    s != [] && s[0].Word? && LowerAll(s[0].text) in READ_VERBS
  }

  predicate ReadOnly(ts: seq<Token>) {
    StartsReadOnly(ts) && WordsAllowed(ts)
  }

  predicate IdentWord(w: string) {
    w != "" && forall i :: 0 <= i < |w| ==> IdentChar(w[i])
  }

  lemma {:induction false} SkipIdentRun(p: string)
    ensures var n := |p| - |SkipIdent(p)|;
            (forall i :: 0 <= i < n ==> IdentChar(p[i])) && !IdentChar(At(p, n)) && SkipIdent(p) == p[n..]
  {
    if p != "" && IdentChar(p[0]) {
      SkipIdentRun(p[1..]);
      var n := |p[1..]| - |SkipIdent(p)|;
      forall i | 0 <= i < n + 1
        ensures IdentChar(p[i])
      {
        assert i > 0 ==> p[i] == p[1..][i - 1];
      }
    }
  }

  /** A keyword test at an identifier is a test of the whole word. */
  lemma KwIsWord(p: string, w: string)
    requires IdentWord(w)
    ensures KwAt(p, w) <==> LowerAll(p[..|p| - |SkipIdent(p)|]) == w
  {
    SkipIdentRun(p);
    var n := |p| - |SkipIdent(p)|;
    var word := p[..n];
    if KwAt(p, w) {
      assert forall i :: 0 <= i < |w| ==> IdentChar(p[i]) by {
        forall i | 0 <= i < |w|
          ensures IdentChar(p[i])
        {
          assert Lower(p[i]) == w[i] && IdentChar(w[i]);
        }
      }
      assert n == |w|;
    }
    if LowerAll(word) == w {
      assert forall i :: 0 <= i < |w| ==> Lower(p[i]) == LowerAll(word)[i];
    }
  }

  lemma KeywordsAreIdents()
    ensures forall i :: 0 <= i < |DML| ==> IdentWord(DML[i])
    ensures forall i :: 0 <= i < |FORBIDDEN| ==> IdentWord(FORBIDDEN[i])
  {
  }

  lemma AnyKwIsListed(p: string, words: seq<string>)
    requires forall i :: 0 <= i < |words| ==> IdentWord(words[i])
    ensures AnyKw(p, words) <==> LowerAll(p[..|p| - |SkipIdent(p)|]) in words
  {
    var word := LowerAll(p[..|p| - |SkipIdent(p)|]);
    forall i | 0 <= i < |words|
      ensures KwAt(p, words[i]) <==> word == words[i]
    {
      KwIsWord(p, words[i]);
    }
  }

  /** Blanks and comments before `close` are skipped exactly as the lexer skips them. */
  lemma WsToken(b: string, close: string, depth: int)
    requires b != "" && depth >= 1 && MatchParen(b + close, depth) == Some(close)
    ensures At(b, 0) != '\0'
    ensures var (t, r) := NextToken(b);
            (t.Space? || t.Comment? ==> SkipWs(b + close) == SkipWs(r + close) && Delta(t) == 0)
            && (!t.Space? && !t.Comment? ==> SkipWs(b + close) == b + close)
  {
    InStep(b, close, depth);
    var p := b + close;
    assert p[0] == b[0];
    var (t, r) := NextToken(p);
    if t.Comment? {
      assert Some(r) == AfterComment(p) || AfterComment(p).None?;
      assert MatchParen(p, depth) == if AfterComment(p).None? then None else MatchParen(r, depth);
    }
  }

  lemma WalkWord(p: string, end: nat)
    requires |p| > end && p != "" && IdentChar(p[0]) && SkipWs(p) == p
    ensures BodyWalk(p, end) == Accept
            <==> !Listed(p[..|p| - |SkipIdent(p)|]) && BodyWalk(SkipIdent(p), end) == Accept
  {
    KeywordsAreIdents();
    AnyKwIsListed(p, DML);
    AnyKwIsListed(p, FORBIDDEN);
  }

  lemma WalkBlank(p: string, q: string, end: nat)
    requires |p| > end && |q| >= end && SkipWs(p) == SkipWs(q) && (|q| == end ==> |SkipWs(q)| <= end)
    ensures BodyWalk(p, end) == BodyWalk(q, end)
  {
  }

  lemma WalkOther(p: string, end: nat)
    requires |p| > end && SkipWs(p) == p && !IdentChar(p[0])
    ensures BodyWalk(p, end) == BodyWalk(if Quote(p[0]) then SkipString(p) else p[1..], end)
  {
  }

  /** The walk over a body accepts exactly when no listed word is a token of it. */
  lemma {:induction false} WalkIsLex(b: string, close: string, depth: int)
    requires depth >= 1 && MatchParen(b + close, depth) == Some(close)
    ensures BodyWalk(b + close, |close|) == Accept <==> WordsAllowed(Lex(b))
    decreases |b|
  {
    if b == "" {
      assert b + close == close;
    } else {
      InStep(b, close, depth);
      var (t, r) := NextToken(b);
      WalkIsLex(r, close, depth + Delta(t));
      LexStep(b);
      WalkToken(b, close, depth);
    }
  }

  /** The walk goes over one token. */
  lemma WalkToken(b: string, close: string, depth: int)
    requires b != "" && depth >= 1 && MatchParen(b + close, depth) == Some(close)
    ensures At(b, 0) != '\0'
    ensures var (t, r) := NextToken(b);
            BodyWalk(b + close, |close|) == Accept
            <==> (t.Word? ==> !Listed(t.text)) && BodyWalk(r + close, |close|) == Accept
  {
    InStep(b, close, depth);
    WsToken(b, close, depth);
    var p := b + close;
    var (t, r) := NextToken(b);
    if t.Space? || t.Comment? {
      assert r == "" ==> r + close == close;
      WalkBlank(p, r + close, |close|);
    } else if t.Word? {
      WalkWord(p, |close|);
      assert p[..|p| - |SkipIdent(p)|] == t.text;
    } else {
      WalkOther(p, |close|);
    }
  }

  /** Splitting the first token off a token list. */
  lemma LexStep(b: string)
    requires At(b, 0) != '\0'
    ensures var (t, r) := NextToken(b);
            WordsAllowed(Lex(b)) <==> (t.Word? ==> !Listed(t.text)) && WordsAllowed(Lex(r))
  {
    var (t, r) := NextToken(b);
    var ts := Lex(b);
    assert ts[0] == t && ts[1..] == Lex(r);
    if WordsAllowed(ts) {
      forall i | 0 <= i < |Lex(r)| && Lex(r)[i].Word?
        ensures !Listed(Lex(r)[i].text)
      {
        assert ts[i + 1] == Lex(r)[i];
      }
    }
    if (t.Word? ==> !Listed(t.text)) && WordsAllowed(Lex(r)) {
      forall i | 0 <= i < |ts| && ts[i].Word?
        ensures !Listed(ts[i].text)
      {
        assert i > 0 ==> ts[i] == Lex(r)[i - 1];
      }
    }
  }

  lemma HeadWord(p: string)
    ensures ReadHead(p) <==> LowerAll(p[..|p| - |SkipIdent(p)|]) in READ_VERBS
  {
    KwIsWord(p, "select");
    KwIsWord(p, "values");
    KwIsWord(p, "with");
  }

  lemma {:induction false} HeadIsLex(b: string, close: string, depth: int)
    requires depth >= 1 && MatchParen(b + close, depth) == Some(close)
    ensures var q := SkipWs(b + close);
            |q| >= |close|
            && (|q| > |close| && ReadHead(q) <==> StartsReadOnly(Lex(b)))
    decreases |b|
  {
    if b == "" {
      assert b + close == close && SkipWs(close) == close;
    } else {
      InStep(b, close, depth);
      WsToken(b, close, depth);
      var p := b + close;
      var (t, r) := NextToken(b);
      assert Lex(b)[0] == t && Lex(b)[1..] == Lex(r);
      if t.Space? || t.Comment? {
        HeadIsLex(r, close, depth);
      } else {
        HeadWord(p);
        if t.Word? {
          assert p[..|p| - |SkipIdent(p)|] == t.text;
        } else {
          assert SkipIdent(p) == p && p[..0] == "";
        }
      }
    }
  }

  lemma {:induction false} BodyBalanced(b: string, close: string, depth: int)
    requires depth >= 1 && MatchParen(b + close, depth) == Some(close)
    ensures Balanced(Lex(b), depth)
    decreases |b|
  {
    if b == "" {
      assert b + close == close;
    } else {
      InStep(b, close, depth);
      var (t, r) := NextToken(b);
      assert Lex(b)[0] == t && Lex(b)[1..] == Lex(r);
      BodyBalanced(r, close, depth + Delta(t));
    }
  }

  /** The body between the parentheses that the matcher finds. */
  lemma BodyOfMatch(p: string) returns (body: string, close: string)
    requires At(p, 0) == '(' && MatchParen(p, 0).Some?
    ensures close == MatchParen(p, 0).value && |close| < |p| && body == p[1..|p| - |close|]
    ensures p[1..] == body + close && MatchParen(body + close, 1) == Some(close)
  {
    close := MatchParen(p, 0).value;
    MatchIsSuffix(p[1..], 1);
    body := p[1..|p| - |close|];
    assert p[1..] == body + close;
  }

  /** The two scanners agree: for the body the paren matcher finds, the check accepts
      exactly the balanced token lists that start with a read verb and hold no listed word. */
  lemma BodyCheckIsReadOnly(p: string)
    requires At(p, 0) == '(' && MatchParen(p, 0).Some?
    ensures var close := MatchParen(p, 0).value;
            |close| < |p|
            && var body := p[1..|p| - |close|];
               p == "(" + body + close && Balanced(Lex(body), 1)
               && (BodyCheck(p[1..], |close|) == Accept <==> ReadOnly(Lex(body)))
  {
    var body, close := BodyOfMatch(p);
    WalkIsLex(body, close, 1);
    HeadIsLex(body, close, 1);
    BodyBalanced(body, close, 1);
    assert p == "(" + p[1..];
    Cat3("(", body, close);
  }

  lemma {:induction false} MatchIsSuffix(p: string, depth: int)
    requires MatchParen(p, depth).Some?
    ensures var close := MatchParen(p, depth).value;
            |close| <= |p| && p[|p| - |close|..] == close
    decreases |p|
  {
    if MatchParen(p, depth).value != p {
      var q, d := MatchMoves(p, depth);
      MatchIsSuffix(q, d);
      SuffixTrans(p, q, MatchParen(p, depth).value);
    }
  }

  /** One move of the matcher. */
  lemma MatchMoves(p: string, depth: int) returns (q: string, d: int)
    requires MatchParen(p, depth).Some? && MatchParen(p, depth).value != p
    ensures |q| < |p| && Suffix(q, p) && MatchParen(q, d) == MatchParen(p, depth)
  {
    if Quote(p[0]) {
      CloseQuoteSuffix(p[1..], p[0]);
      q, d := SkipString(p), depth;
    } else if LineComment(p) || BlockComment(p) {
      CommentSuffix(p);
      q, d := AfterComment(p).value, depth;
    } else {
      q, d := p[1..], if p[0] == '(' then depth + 1 else if p[0] == ')' then depth - 1 else depth;
    }
  }

  lemma SuffixTrans(p: string, q: string, r: string)
    requires Suffix(q, p) && Suffix(r, q)
    ensures Suffix(r, p)
  {
    assert p[|p| - |r|..] == p[|p| - |q|..][|q| - |r|..];
  }

  lemma {:induction false} CloseQuoteSuffix(p: string, q: char)
    ensures Suffix(CloseQuote(p, q), p)
    decreases |p|
  {
    if At(p, 0) != '\0' {
      if p[0] != q {
        CloseQuoteSuffix(p[1..], q);
      } else if At(p, 1) == q && |p| > 1 {
        CloseQuoteSuffix(p[2..], q);
      }
    }
  }

  lemma CommentSuffix(p: string)
    requires (LineComment(p) || BlockComment(p)) && AfterComment(p).Some?
    ensures Suffix(AfterComment(p).value, p)
  {
    if LineComment(p) {
      PastLineSuffix(p);
    } else {
      AfterStarSuffix(p[2..]);
    }
  }

  lemma {:induction false} PastLineSuffix(p: string)
    requires Past(p, '\n').Some?
    ensures Suffix(Past(p, '\n').value, p)
  {
    if p[0] != '\n' {
      PastLineSuffix(p[1..]);
    }
  }

  lemma {:induction false} AfterStarSuffix(p: string)
    requires AfterStar(p).Some?
    ensures Suffix(AfterStar(p).value, p)
  {
    if !(p[0] == '*' && At(p, 1) == '/') {
      AfterStarSuffix(p[1..]);
    }
  }

  // ---- the statement after the list ------------------------------------

  predicate Mentions(s: string, w: string) {
    exists k :: 0 <= k <= |s| && CiPrefix(s[k..], w)
  }

  /** `w` stands at `k` with a word boundary on both sides. */
  predicate WordAt(s: string, k: nat, w: string)
    requires k <= |s|
  {
    KwAt(s[k..], w) && (k == 0 || !IdentChar(s[k - 1]))
  }

  predicate HasWord(s: string, w: string) {
    exists k :: 0 <= k <= |s| && WordAt(s, k, w)
  }

  /** `ci_strstr` from position `from`; |s| when there is no match. */
  method CiStrstr(s: string, from: nat, w: string) returns (k: nat)
    requires from <= |s| && w != ""
    ensures from <= k <= |s|
    ensures forall j :: from <= j < k ==> !CiPrefix(s[j..], w)
    ensures k < |s| ==> CiPrefix(s[k..], w)
  {
    k := from;
    while k < |s|
      invariant from <= k <= |s|
      invariant forall j :: from <= j < k ==> !CiPrefix(s[j..], w)
    {
      if CiPrefix(s[k..], w) {
        return;
      }
      k := k + 1;
    }
  }

  /** A match that starts inside another one has an identifier byte on its left. */
  lemma InsideMatch(s: string, k: nat, j: nat, w: string)
    requires k < j < k + |w| && k + |w| <= |s| && CiPrefix(s[k..], w) && IdentWord(w)
    ensures !WordAt(s, j, w)
  {
    assert Lower(s[k..][j - 1 - k]) == w[j - 1 - k] && IdentChar(w[j - 1 - k]);
    assert s[k..][j - 1 - k] == s[j - 1];
  }

  /** Jumping past each match misses no word: the search finds exactly the whole words. */
  method KwAnywhere(s: string, w: string) returns (found: bool)
    requires IdentWord(w)
    ensures found == HasWord(s, w)
  {
    var p := 0;
    while p < |s|
      invariant 0 <= p <= |s|
      invariant forall j :: 0 <= j < p ==> !WordAt(s, j, w)
    {
      var k := CiStrstr(s, p, w);
      if k == |s| {
        break;
      }
      var leftOk := k == 0 || !IdentChar(s[k - 1]);
      if leftOk && !IdentChar(At(s, k + |w|)) {
        assert At(s[k..], |w|) == At(s, k + |w|);
        assert WordAt(s, k, w);
        return true;
      }
      assert !WordAt(s, k, w);
      forall j | k < j < k + |w|
        ensures !WordAt(s, j, w)
      {
        InsideMatch(s, k, j, w);
      }
      p := k + |w|;
    }
    assert !CiPrefix(s[|s|..], w);
    return false;
  }

  function SkipTab(p: string): (r: string)
    ensures |r| <= |p|
  {
    if At(p, 0) == ' ' || At(p, 0) == '\t' then SkipTab(p[1..]) else p
  }

  predicate TypeChar(c: char) {
    IdentChar(c) || c == ' ' || c == '\t' || c == '(' || c == ')' || c == ','
  }

  /** `sql_validate_alter_add`. */
  function ValidateAlter(b: string): Verdict
    requires KwAt(b, "alter")
  {
    var p := SkipTab(b[5..]);
    if !KwAt(p, "table") then Reject(BadAlter) else
    var table := ScanIdent(SkipTab(p[5..]));
    if table.None? then Reject(BadAlter) else
    var q := SkipTab(table.value);
    if !KwAt(q, "add") then Reject(BadAlter) else
    var r := SkipTab(q[3..]);
    var column := ScanIdent(if KwAt(r, "column") then SkipTab(r[6..]) else r);
    if column.None? then Reject(BadAlter) else
    var spec := SkipTab(column.value);
    if TypeText(spec) then Accept else Reject(BadAlter)
  }

  predicate WriteVerb(b: string) {
    KwAt(b, "insert") || KwAt(b, "update") || KwAt(b, "delete")
  }

  predicate NeedsWhere(b: string) {
    KwAt(b, "update") || KwAt(b, "delete")
  }

  /** `db_validate_write_stmt`. */
  function ValidateStmt(b: string): Verdict {
    if AnyKw(b, DANGEROUS) then Reject(DangerousWord)
    else if Mentions(b, "portfolio") then Reject(Portfolio)
    else if KwAt(b, "alter") then ValidateAlter(b)
    else if WriteVerb(b) then
      if NeedsWhere(b) && !HasWord(b, "where") then Reject(NoWhere) else Accept
    else if CiPrefix(b, "create") && Blank(At(b, 6)) then
      if CiPrefix(b[7..], "table") && Blank(At(b, 12)) then Accept else Reject(OnlyCreateTable)
    else Reject(NotAllowed)
  }

  method DbValidateWriteStmt(b: string) returns (v: Verdict)
    ensures v == ValidateStmt(b)
  {
    var dangerous := AnyKeyword(b, DANGEROUS);
    if dangerous {
      return Reject(DangerousWord);
    }
    var k := CiStrstr(b, 0, "portfolio");
    assert !CiPrefix(b[|b|..], "portfolio");
    if k < |b| {
      return Reject(Portfolio);
    }
    if KwAt(b, "alter") {
      return ValidateAlter(b);
    }
    if WriteVerb(b) {
      var w := KwAnywhere(b, "where");
      return if NeedsWhere(b) && !w then Reject(NoWhere) else Accept;
    }
    if CiPrefix(b, "create") && Blank(At(b, 6)) {
      return if CiPrefix(b[7..], "table") && Blank(At(b, 12)) then Accept else Reject(OnlyCreateTable);
    }
    return Reject(NotAllowed);
  }

  /** What may follow a WITH list. */
  predicate GoodTail(tail: string) {
    WriteVerb(tail) && (NeedsWhere(tail) ==> HasWord(tail, "where")) && !Mentions(tail, "portfolio")
  }

  lemma VerbIsDml(b: string)
    ensures WriteVerb(b) ==> AnyKw(b, DML)
  {
    assert DML[0] == "insert" && DML[1] == "update" && DML[2] == "delete";
  }

  lemma VerbIsOnly(b: string, w: string)
    requires WriteVerb(b) && IdentWord(w) && w !in DML
    ensures !KwAt(b, w)
  {
    KeywordsAreIdents();
    AnyKwIsListed(b, DML);
    KwIsWord(b, w);
    VerbIsDml(b);
  }

  lemma VerbIsNotDangerous(b: string)
    requires WriteVerb(b)
    ensures !AnyKw(b, DANGEROUS) && !KwAt(b, "alter") && !KwAt(b, "create")
  {
    KeywordsAreIdents();
    forall i | 0 <= i < |FORBIDDEN|
      ensures !KwAt(b, FORBIDDEN[i])
    {
      VerbIsOnly(b, FORBIDDEN[i]);
    }
    assert forall i :: 0 <= i < |DANGEROUS| ==> DANGEROUS[i] == FORBIDDEN[i];
    assert FORBIDDEN[10] == "alter" && FORBIDDEN[11] == "create";
  }

  // ---- the WITH list ---------------------------------------------------

  /** To the byte that ends a column list. */
  function ColumnsEnd(q: string): (r: Option<string>)
    ensures r.Some? ==> |r.value| <= |q|
    decreases |q|
  {
    var a := SkipWs(q);
    if At(a, 0) == '\0' || a[0] == ')' then Some(a) else
    var id := ScanIdent(a);
    if id.None? then None else
    var b := SkipWs(id.value);
    if At(b, 0) == ',' then ColumnsEnd(b[1..]) else Some(b)
  }

  /** One name, with its column list and AS, up to the opening parenthesis of the body. */
  datatype Head = BadHead(why: Reason) | Open(text: string)

  function AfterColumns(p: string): (r: Head)
    requires At(p, 0) == '('
    ensures r.Open? ==> |r.text| < |p|
  {
    var q := ColumnsEnd(p[1..]);
    if q.None? || At(q.value, 0) != ')' then BadHead(BadColumns) else Open(SkipWs(q.value[1..]))
  }

  function CteHead(p: string): (r: Head)
    ensures r.Open? ==> |r.text| < |p| && At(r.text, 0) == '('
  {
    var name := ScanIdent(SkipWs(p));
    if name.None? then BadHead(NoCteName) else
    var a := SkipWs(name.value);
    var c := if At(a, 0) == '(' then AfterColumns(a) else Open(a);
    if c.BadHead? then c else
    if !KwAt(c.text, "as") then BadHead(NoAs) else
    var open := SkipWs(c.text[2..]);
    if At(open, 0) != '(' then BadHead(NoParen) else Open(open)
  }

  datatype Ctes = BadList(why: Reason) | Ctes(bodies: seq<string>, tail: string)

  function Push(body: string, rest: Ctes): Ctes {
    if rest.Ctes? then Ctes([body] + rest.bodies, rest.tail) else rest
  }

  /** The list as the guard reads it; `checked` also applies the body check to every body. */
  function CteList(p: string, checked: bool): Ctes
    decreases |p|
  {
    var head := CteHead(p);
    if head.BadHead? then BadList(head.why) else
    var open := head.text;
    var found := MatchParen(open, 0);
    if found.None? then BadList(Unbalanced) else
    var close := found.value;
    var v := BodyCheck(open[1..], |close|);
    if checked && v.Reject? then BadList(v.why) else
    var after := SkipWs(close[1..]);
    var body := open[1..|open| - |close|];
    if At(after, 0) == ',' then Push(body, CteList(after[1..], checked)) else Ctes([body], after)
  }

  function AfterWith(b: string): string
    requires KwAt(b, "with")
  {
    var p := SkipWs(b[4..]);
    if KwAt(p, "recursive") then SkipWs(p[9..]) else p
  }

  /** What the guard says once the list is read. */
  function Outcome(list: Ctes): Verdict {
    if list.BadList? then Reject(list.why)
    else if At(list.tail, 0) == '\0' then Reject(NoStatement)
    else if KwAt(list.tail, "alter") || KwAt(list.tail, "create") then Reject(OnlyDml)
    else ValidateStmt(list.tail)
  }

  /** `db_validate_write_cte`. */
  function ValidateCte(b: string): Verdict
    requires KwAt(b, "with")
  {
    Outcome(CteList(AfterWith(b), true))
  }

  method ColumnList(p: string) returns (r: Head)
    requires At(p, 0) == '('
    ensures r == AfterColumns(p)
  {
    var q := p[1..];
    while true
      invariant ColumnsEnd(q) == ColumnsEnd(p[1..])
      decreases |q|
    {
      ghost var start := q;
      q := SqlSkipWsComment(q);
      if At(q, 0) == '\0' || q[0] == ')' {
        assert ColumnsEnd(start) == Some(q);
        break;
      }
      var id := ScanIdent(q);
      if id.None? {
        return BadHead(BadColumns);
      }
      q := SqlSkipWsComment(id.value);
      if At(q, 0) == ',' {
        q := q[1..];
        continue;
      }
      assert ColumnsEnd(start) == Some(q);
      break;
    }
    if At(q, 0) != ')' {
      return BadHead(BadColumns);
    }
    var next := SqlSkipWsComment(q[1..]);
    return Open(next);
  }

  method ReadHeadOfCte(p: string) returns (r: Head)
    ensures r == CteHead(p)
  {
    var q := SqlSkipWsComment(p);
    var name := ScanIdent(q);
    if name.None? {
      return BadHead(NoCteName);
    }
    q := SqlSkipWsComment(name.value);
    if At(q, 0) == '(' {
      var c := ColumnList(q);
      if c.BadHead? {
        return c;
      }
      q := c.text;
    }
    if !KwAt(q, "as") {
      return BadHead(NoAs);
    }
    q := SqlSkipWsComment(q[2..]);
    return if At(q, 0) != '(' then BadHead(NoParen) else Open(q);
  }

  method DbValidateWriteCte(b: string) returns (v: Verdict)
    requires KwAt(b, "with")
    ensures v == ValidateCte(b)
  {
    var p := SqlSkipWsComment(b[4..]);
    if KwAt(p, "recursive") {
      p := SqlSkipWsComment(p[9..]);
    }
    ghost var start := p;
    while true
      invariant Outcome(CteList(p, true)) == Outcome(CteList(start, true))
      decreases |p|
    {
      var next, w := CheckCte(p);
      if next.None? {
        return w;
      }
      p := next.value;
    }
  }

  lemma OutcomeOfPush(body: string, rest: Ctes)
    ensures Outcome(Push(body, rest)) == Outcome(rest)
  {
  }

  /** One turn of the list loop: where the next item starts, or the verdict. */
  method CheckCte(p: string) returns (next: Option<string>, v: Verdict)
    ensures next.Some? ==> |next.value| < |p| && Outcome(CteList(next.value, true)) == Outcome(CteList(p, true))
    ensures next.None? ==> v == Outcome(CteList(p, true))
  {
    var head := ReadHeadOfCte(p);
    if head.BadHead? {
      return None, Reject(head.why);
    }
    var close := SqlMatchParen(head.text);
    if close.None? {
      return None, Reject(Unbalanced);
    }
    var body := SqlCteBodyOk(head.text[1..], |close.value|);
    if body.Reject? {
      return None, body;
    }
    var after := SqlSkipWsComment(close.value[1..]);
    ghost var text := head.text[1..|head.text| - |close.value|];
    if At(after, 0) == ',' {
      OutcomeOfPush(text, CteList(after[1..], true));
      return Some(after[1..]), Accept;
    }
    v := CheckTail(after, [text]);
    return None, v;
  }

  method CheckTail(p: string, ghost bodies: seq<string>) returns (v: Verdict)
    ensures v == Outcome(Ctes(bodies, p))
  {
    if At(p, 0) == '\0' {
      return Reject(NoStatement);
    }
    if KwAt(p, "alter") || KwAt(p, "create") {
      return Reject(OnlyDml);
    }
    v := DbValidateWriteStmt(p);
  }

  // ---- the whole statement ---------------------------------------------

  function SkipBlank(p: string): (r: string)
    ensures |r| <= |p|
  {
    if Blank(At(p, 0)) then SkipBlank(p[1..]) else p
  }

  /** `strip_comments`: at most `k` leading comments; an unfinished one leaves nothing. */
  function StripComments(p: string, k: nat): string
    decreases k
  {
    if k == 0 then p else
    var q := SkipBlank(p);
    if LineComment(q) || BlockComment(q) then
      if AfterComment(q).None? then "" else StripComments(AfterComment(q).value, k - 1)
    else q
  }

  const MAX_COMMENTS := 64

  /** `db_validate_write` with a body buffer of `n` bytes. */
  function ValidateWrite(sql: string, n: nat): Verdict
    requires n > 0
  {
    var t := SkipBlank(sql);
    if t == "" then Reject(EmptySql) else
    var len := if t[|t| - 1] == ';' then |t| - 1 else |t|;
    if ';' in t[..len] then Reject(ManyStatements) else
    var b := Guarded(sql, n);
    if KwAt(b, "with") then ValidateCte(b) else ValidateStmt(b)
  }

  /** The text the rules are applied to: comments stripped, cut to the body buffer. */
  function Guarded(sql: string, n: nat): string
    requires n > 0
  {
    SkipBlank(Take(StripComments(SkipBlank(sql), MAX_COMMENTS), n - 1))
  }

  method StripLeading(t: string, max: nat) returns (s: string)
    ensures s == StripComments(t, max)
  {
    s := t;
    var k := 0;
    while k < max
      invariant 0 <= k <= max
      invariant StripComments(s, max - k) == StripComments(t, max)
    {
      s := SkipBlank(s);
      if !LineComment(s) && !BlockComment(s) {
        return;
      }
      var next := AfterComment(s);
      if next.None? {
        return "";
      }
      s := next.value;
      k := k + 1;
    }
  }

  method DbValidateWrite(sql: string, n: nat) returns (v: Verdict)
    requires n > 0
    ensures v == ValidateWrite(sql, n)
  {
    var t := sql;
    while Blank(At(t, 0))
      invariant SkipBlank(t) == SkipBlank(sql)
      decreases |t|
    {
      t := t[1..];
    }
    if t == "" {
      return Reject(EmptySql);
    }
    var len := if t[|t| - 1] == ';' then |t| - 1 else |t|;
    if ';' in t[..len] {
      return Reject(ManyStatements);
    }
    var s := StripLeading(t, MAX_COMMENTS);
    var b := SkipBlank(Take(s, n - 1));
    if KwAt(b, "with") {
      v := DbValidateWriteCte(b);
    } else {
      v := DbValidateWriteStmt(b);
    }
  }

  // ---- what acceptance means -------------------------------------------

  predicate GoodBody(body: string) {
    Balanced(Lex(body), 1) && ReadOnly(Lex(body))
  }

  predicate AllReadOnly(bodies: seq<string>) {
    forall body :: body in bodies ==> GoodBody(body)
  }

  lemma AllReadOnlyCons(body: string, bodies: seq<string>)
    ensures AllReadOnly([body] + bodies) <==> GoodBody(body) && AllReadOnly(bodies)
  {
    assert body in [body] + bodies;
    assert forall x :: x in bodies ==> x in [body] + bodies;
    assert forall x :: x in [body] + bodies ==> x == body || x in bodies;
  }

  /** Checking bodies while reading the list amounts to reading the list and then requiring
      every body to be read-only. */
  lemma {:induction false} CheckedList(p: string)
    ensures CteList(p, true).Ctes? <==> CteList(p, false).Ctes? && AllReadOnly(CteList(p, false).bodies)
    ensures CteList(p, true).Ctes? ==> CteList(p, true) == CteList(p, false)
    decreases |p|
  {
    var head := CteHead(p);
    if head.Open? && MatchParen(head.text, 0).Some? {
      var open := head.text;
      var close := MatchParen(open, 0).value;
      BodyCheckIsReadOnly(open);
      var after := SkipWs(close[1..]);
      var body := open[1..|open| - |close|];
      if At(after, 0) == ',' {
        CheckedList(after[1..]);
        var rest := CteList(after[1..], false);
        if rest.Ctes? {
          AllReadOnlyCons(body, rest.bodies);
        }
      } else {
        AllReadOnlyCons(body, []);
        assert [body] + [] == [body];
      }
    }
  }

  lemma OutcomeIsGoodTail(list: Ctes)
    ensures Outcome(list) == Accept <==> list.Ctes? && GoodTail(list.tail)
  {
    if list.Ctes? && WriteVerb(list.tail) {
      VerbIsNotDangerous(list.tail);
    }
  }

  /** A WITH statement passes exactly when its list parses, every body is a balanced read-only
      token list, and what follows is an INSERT, or an UPDATE or DELETE with the word WHERE,
      that does not mention the mirror table. */
  lemma AcceptedWith(b: string)
    requires KwAt(b, "with")
    ensures var list := CteList(AfterWith(b), false);
            ValidateCte(b) == Accept <==> list.Ctes? && AllReadOnly(list.bodies) && GoodTail(list.tail)
  {
    CheckedList(AfterWith(b));
    OutcomeIsGoodTail(CteList(AfterWith(b), true));
  }

  /** CREATE, one blank, TABLE, and a blank behind it. */
  predicate CreatesTable(b: string) {
    CiPrefix(b, "create") && Blank(At(b, 6)) && CiPrefix(b[7..], "table") && Blank(At(b, 12))
  }

  /** Spaces and tabs. */
  predicate Gap(s: string) {
    forall i :: 0 <= i < |s| ==> s[i] == ' ' || s[i] == '\t'
  }

  predicate Spells(s: string, w: string) {
    LowerAll(s) == w
  }

  /** A bare name or a simply quoted one. */
  predicate Name(s: string) {
    IdentWord(s) || (|s| >= 2 && s[0] == '"' && s[|s| - 1] == '"' && '"' !in s[1..|s| - 1] && '\0' !in s)
  }

  /** The parts of ALTER TABLE name ADD [COLUMN] name type. */
  datatype Alter = Alter(alter: string, gap1: string, table: string, gap2: string, name: string, gap3: string,
                         rest: AddPart)

  datatype AddPart = AddPart(add: string, gap4: string, field: FieldPart)

  datatype FieldPart = FieldPart(column: string, gap5: string, name: string, gap6: string, kind: string)

  function FieldText(f: FieldPart): string {
    f.column + (f.gap5 + (f.name + (f.gap6 + f.kind)))
  }

  function AddText(a: AddPart): string {
    a.add + (a.gap4 + FieldText(a.field))
  }

  function AlterText(a: Alter): string {
    a.alter + (a.gap1 + (a.table + (a.gap2 + (a.name + (a.gap3 + AddText(a.rest))))))
  }

  predicate TypeText(s: string) {
    s != "" && forall i :: 0 <= i < |s| ==> TypeChar(s[i])
  }

  predicate NoTab(s: string) {
    At(s, 0) != ' ' && At(s, 0) != '\t'
  }

  /** A word or bare name ends where `rest` begins. */
  predicate Boundary(rest: string) {
    !IdentChar(At(rest, 0))
  }

  predicate NameThen(name: string, rest: string) {
    Name(name) && (IdentWord(name) ==> Boundary(rest))
  }

  predicate WordThen(word: string, w: string, rest: string) {
    Spells(word, w) && Boundary(rest)
  }

  /** An optional COLUMN, a name and a type; a bare name is not `column` unless COLUMN precedes it. */
  predicate FieldOk(f: FieldPart) {
    (if f.column == "" then f.gap5 == "" && !Spells(f.name, "column")
     else WordThen(f.column, "column", f.gap5 + (f.name + (f.gap6 + f.kind))) && Gap(f.gap5))
    && NameThen(f.name, f.gap6 + f.kind) && Gap(f.gap6) && TypeText(f.kind) && NoTab(f.kind)
  }

  predicate AddOk(a: AddPart) {
    WordThen(a.add, "add", a.gap4 + FieldText(a.field)) && Gap(a.gap4) && FieldOk(a.field)
  }

  predicate AddsColumn(a: Alter) {
    WordThen(a.alter, "alter", a.gap1 + (a.table + (a.gap2 + (a.name + (a.gap3 + AddText(a.rest))))))
    && Gap(a.gap1) && WordThen(a.table, "table", a.gap2 + (a.name + (a.gap3 + AddText(a.rest)))) && Gap(a.gap2)
    && NameThen(a.name, a.gap3 + AddText(a.rest)) && Gap(a.gap3) && AddOk(a.rest)
  }

  /** The text is ALTER TABLE name ADD [COLUMN] name type. */
  ghost predicate AltersByAdding(b: string) {
    exists a :: AddsColumn(a) && b == AlterText(a)
  }

  // The scanners take the parts off the text, and put together they are taken off again.

  lemma {:induction false} TabSplit(p: string) returns (gap: string)
    ensures Gap(gap) && p == gap + SkipTab(p) && NoTab(SkipTab(p))
  {
    gap := "";
    if At(p, 0) == ' ' || At(p, 0) == '\t' {
      var rest := TabSplit(p[1..]);
      gap := [p[0]] + rest;
    }
  }

  lemma {:induction false} TabJoin(gap: string, rest: string)
    requires Gap(gap) && NoTab(rest)
    ensures SkipTab(gap + rest) == rest
    decreases |gap|
  {
    if gap == "" {
      assert gap + rest == rest;
    } else {
      assert (gap + rest)[0] == gap[0] && (gap + rest)[1..] == gap[1..] + rest;
      TabJoin(gap[1..], rest);
    }
  }

  lemma WordSplit(p: string, w: string) returns (word: string)
    requires KwAt(p, w)
    ensures WordThen(word, w, p[|w|..]) && p == word + p[|w|..]
  {
    word := p[..|w|];
    assert LowerAll(word) == w && At(p[|w|..], 0) == At(p, |w|);
  }

  lemma WordJoin(word: string, w: string, rest: string)
    requires WordThen(word, w, rest)
    ensures KwAt(word + rest, w) && (word + rest)[|w|..] == rest
  {
    assert |word| == |w| && At(word + rest, |w|) == At(rest, 0);
    assert forall i :: 0 <= i < |w| ==> (word + rest)[i] == word[i] && LowerAll(word)[i] == Lower(word[i]);
  }

  lemma {:induction false} QuoteSplit(p: string) returns (inside: string)
    requires Past(p, '"').Some?
    ensures '"' !in inside && '\0' !in inside && p == inside + "\"" + Past(p, '"').value
  {
    inside := "";
    if p[0] != '"' {
      var rest := QuoteSplit(p[1..]);
      inside := [p[0]] + rest;
      Cat3([p[0]], rest, "\"");
    }
  }

  lemma {:induction false} QuoteJoin(inside: string, rest: string)
    requires '"' !in inside && '\0' !in inside
    ensures Past(inside + ("\"" + rest), '"') == Some(rest)
    decreases |inside|
  {
    var p := inside + ("\"" + rest);
    if inside == "" {
      assert p == "\"" + rest && p[1..] == rest;
    } else {
      assert p[0] == inside[0] && p[1..] == inside[1..] + ("\"" + rest);
      QuoteJoin(inside[1..], rest);
    }
  }

  lemma NameSplit(p: string) returns (name: string)
    requires ScanIdent(p).Some?
    ensures NameThen(name, ScanIdent(p).value) && p == name + ScanIdent(p).value
  {
    if At(p, 0) == '"' {
      var inside := QuoteSplit(p[1..]);
      name := "\"" + inside + "\"";
      assert name[1..|name| - 1] == inside && name[0] == '"';
    } else {
      SkipIdentRun(p);
      name := p[..|p| - |SkipIdent(p)|];
    }
  }

  lemma {:induction false} IdentJoin(word: string, rest: string)
    requires (forall i :: 0 <= i < |word| ==> IdentChar(word[i])) && Boundary(rest)
    ensures SkipIdent(word + rest) == rest
    decreases |word|
  {
    if word == "" {
      assert word + rest == rest;
    } else {
      assert (word + rest)[0] == word[0] && (word + rest)[1..] == word[1..] + rest;
      IdentJoin(word[1..], rest);
    }
  }

  lemma NameJoin(name: string, rest: string)
    requires NameThen(name, rest)
    ensures ScanIdent(name + rest) == Some(rest) && NoTab(name + rest)
  {
    assert (name + rest)[0] == name[0];
    if IdentWord(name) {
      IdentJoin(name, rest);
    } else {
      var inside := name[1..|name| - 1];
      assert name == "\"" + inside + "\"";
      assert (name + rest)[1..] == inside + ("\"" + rest);
      QuoteJoin(inside, rest);
    }
  }

  // The field of ADD: an optional COLUMN, the name and the type.

  function NameStart(r: string): string {
    if KwAt(r, "column") then SkipTab(r[6..]) else r
  }

  predicate FieldAccepted(r: string) {
    var name := ScanIdent(NameStart(r));
    name.Some? && TypeText(SkipTab(name.value))
  }

  lemma FieldSplit(r: string) returns (f: FieldPart)
    requires FieldAccepted(r)
    ensures FieldOk(f) && r == FieldText(f)
  {
    var name, gap6, kind := NamedSplit(NameStart(r));
    if KwAt(r, "column") {
      var column := WordSplit(r, "column");
      var gap5 := TabSplit(r[6..]);
      f := FieldPart(column, gap5, name, gap6, kind);
    } else {
      f := BareField(r, name, gap6, kind);
    }
  }

  lemma NamedSplit(start: string) returns (name: string, gap6: string, kind: string)
    requires ScanIdent(start).Some? && TypeText(SkipTab(ScanIdent(start).value))
    ensures NameThen(name, gap6 + kind) && Gap(gap6) && TypeText(kind) && NoTab(kind)
    ensures start == name + (gap6 + kind)
  {
    name := NameSplit(start);
    var rest := ScanIdent(start).value;
    gap6 := TabSplit(rest);
    kind := SkipTab(rest);
  }

  lemma BareField(r: string, name: string, gap6: string, kind: string) returns (f: FieldPart)
    requires !KwAt(r, "column") && r == name + (gap6 + kind)
    requires NameThen(name, gap6 + kind) && Gap(gap6) && TypeText(kind) && NoTab(kind)
    ensures FieldOk(f) && r == FieldText(f)
  {
    f := FieldPart("", "", name, gap6, kind);
    if Spells(name, "column") {
      NotColumn(name, gap6 + kind);
    }
    assert "" + ("" + r) == r;
  }

  /** A bare name spelled like the keyword would have been read as the keyword. */
  lemma NotColumn(name: string, rest: string)
    requires NameThen(name, rest) && Spells(name, "column")
    ensures KwAt(name + rest, "column")
  {
    SpelledIsIdent(name, "column");
    WordJoin(name, "column", rest);
  }

  lemma SpelledIsIdent(s: string, w: string)
    requires Spells(s, w) && IdentWord(w)
    ensures IdentWord(s)
  {
    forall i | 0 <= i < |s|
      ensures IdentChar(s[i])
    {
      assert LowerAll(s)[i] == w[i] && IdentChar(w[i]);
    }
  }

  lemma FieldJoin(f: FieldPart)
    requires FieldOk(f)
    ensures FieldAccepted(FieldText(f)) && NoTab(FieldText(f))
  {
    var rest := f.gap6 + f.kind;
    var named := f.name + rest;
    NameJoin(f.name, rest);
    TabJoin(f.gap6, f.kind);
    if f.column == "" {
      assert FieldText(f) == named;
      if KwAt(named, "column") {
        KeywordIsName(f.name, rest);
      }
    } else {
      WordJoin(f.column, "column", f.gap5 + named);
      TabJoin(f.gap5, named);
      assert FieldText(f)[0] == f.column[0] && Lower(f.column[0]) == 'c';
    }
  }

  lemma KeywordIsName(name: string, rest: string)
    requires NameThen(name, rest) && KwAt(name + rest, "column")
    ensures Spells(name, "column")
  {
    var p := name + rest;
    assert p[0] == name[0];
    KwIsWord(p, "column");
    if IdentWord(name) {
      IdentJoin(name, rest);
      assert p[..|p| - |rest|] == name;
    }
  }

  // What follows the table name.

  predicate AddAccepted(q: string) {
    KwAt(q, "add") && FieldAccepted(SkipTab(q[3..]))
  }

  lemma AddSplit(q: string) returns (a: AddPart)
    requires AddAccepted(q)
    ensures AddOk(a) && q == AddText(a)
  {
    var field := FieldSplit(SkipTab(q[3..]));
    var add := WordSplit(q, "add");
    var gap4 := TabSplit(q[3..]);
    a := AddPart(add, gap4, field);
  }

  lemma AddJoin(a: AddPart)
    requires AddOk(a)
    ensures AddAccepted(AddText(a)) && NoTab(AddText(a))
  {
    var r := FieldText(a.field);
    FieldJoin(a.field);
    WordJoin(a.add, "add", a.gap4 + r);
    TabJoin(a.gap4, r);
    assert AddText(a)[0] == a.add[0] && Lower(a.add[0]) == 'a';
  }

  /** An accepted ALTER is an ADD of one named column whose type is plain words, numbers, blanks,
      parentheses and commas. */
  lemma AlterAdds(b: string) returns (a: Alter)
    requires KwAt(b, "alter") && ValidateAlter(b) == Accept
    ensures AddsColumn(a) && b == AlterText(a)
  {
    var p := SkipTab(b[5..]);
    var t := SkipTab(p[5..]);
    var rest := ScanIdent(t).value;
    var part := AddSplit(SkipTab(rest));
    var gap3 := TabSplit(rest);
    var name := NameSplit(t);
    var gap2 := TabSplit(p[5..]);
    var table := WordSplit(p, "table");
    var gap1 := TabSplit(b[5..]);
    var alter := WordSplit(b, "alter");
    a := Alter(alter, gap1, table, gap2, name, gap3, part);
  }

  /** And every such statement is accepted. */
  lemma AddIsAccepted(a: Alter)
    requires AddsColumn(a)
    ensures KwAt(AlterText(a), "alter") && ValidateAlter(AlterText(a)) == Accept
  {
    var q := AddText(a.rest);
    var rest := a.gap3 + q;
    var t := a.name + rest;
    var p := a.table + (a.gap2 + t);
    AddJoin(a.rest);
    TabJoin(a.gap3, q);
    NameJoin(a.name, rest);
    TabJoin(a.gap2, t);
    WordJoin(a.table, "table", a.gap2 + t);
    assert p[0] == a.table[0] && Lower(a.table[0]) == 't';
    TabJoin(a.gap1, p);
    WordJoin(a.alter, "alter", a.gap1 + p);
  }

  /** The column rule accepts exactly the statements of this form. */
  lemma AlterRule(b: string)
    ensures KwAt(b, "alter") && ValidateAlter(b) == Accept <==> AltersByAdding(b)
  {
    if KwAt(b, "alter") && ValidateAlter(b) == Accept {
      var a := AlterAdds(b);
      assert AddsColumn(a) && b == AlterText(a);
    }
    if AltersByAdding(b) {
      var a :| AddsColumn(a) && b == AlterText(a);
      AddIsAccepted(a);
    }
  }

  /** A bare statement passes if and only if it does not mention the mirror table and is an INSERT,
      an UPDATE or DELETE with the word WHERE, a CREATE TABLE, or an ALTER that adds a column. */
  lemma AcceptedBare(b: string)
    ensures ValidateStmt(b) == Accept <==>
            !Mentions(b, "portfolio")
            && ((WriteVerb(b) && (NeedsWhere(b) ==> HasWord(b, "where")))
                || CreatesTable(b)
                || AltersByAdding(b))
  {
    AlterRule(b);
    if WriteVerb(b) {
      VerbIsNotDangerous(b);
    } else if KwAt(b, "alter") {
      OnlyOneWord(b, "alter");
    } else if CreatesTable(b) {
      OnlyOneWord(b, "create");
    }
  }

  lemma OnlyOneWord(b: string, w: string)
    requires (w == "alter" || w == "create") && KwAt(b, w)
    ensures !AnyKw(b, DANGEROUS) && (w == "create" ==> !KwAt(b, "alter") && !WriteVerb(b))
  {
    KwIsWord(b, w);
    KeywordsAreIdents();
    assert forall i :: 0 <= i < |DANGEROUS| ==> DANGEROUS[i] == FORBIDDEN[i];
    AnyKwIsListed(b, DANGEROUS);
    AnyKwIsListed(b, DML);
    KwIsWord(b, "alter");
    VerbIsDml(b);
  }

  /** A `;` may only end the text. */
  predicate OneStatement(sql: string) {
    var t := SkipBlank(sql);
    t != "" && ';' !in t[..|t| - 1]
  }

  /** The same for the whole guard, whatever comments or truncation come first. */
  lemma AcceptedWrite(sql: string, n: nat)
    requires n > 0
    ensures var b := Guarded(sql, n);
            ValidateWrite(sql, n) == Accept <==>
              OneStatement(sql)
              && if KwAt(b, "with") then
                   var list := CteList(AfterWith(b), false);
                   list.Ctes? && AllReadOnly(list.bodies) && GoodTail(list.tail)
                 else
                   !Mentions(b, "portfolio")
                   && ((WriteVerb(b) && (NeedsWhere(b) ==> HasWord(b, "where")))
                       || CreatesTable(b)
                       || AltersByAdding(b))
  {
    var b := Guarded(sql, n);
    if SkipBlank(sql) != "" {
      OneStatementRule(SkipBlank(sql));
    }
    if KwAt(b, "with") {
      AcceptedWith(b);
    } else {
      AcceptedBare(b);
    }
  }

  lemma OneStatementRule(t: string)
    requires t != ""
    ensures var len := if t[|t| - 1] == ';' then |t| - 1 else |t|;
            ';' in t[..len] <==> ';' in t[..|t| - 1]
  {
    assert t[..|t|] == t[..|t| - 1] + [t[|t| - 1]];
  }
}
