/** The scanners of the SQL write guard in src/agent/sqlite_tool.c, and a token lexer
    they are both measured against. */
module SqlLex {
  import opened CText

  predicate IdentChar(c: char) {
    Digit(c) || 'a' <= c <= 'z' || 'A' <= c <= 'Z' || c == '_'
  }

  function Lower(c: char): char {
    if 'A' <= c <= 'Z' then (c as int + 32) as char else c
  }

  function LowerAll(s: string): (r: string)
    ensures |r| == |s| && forall i :: 0 <= i < |s| ==> r[i] == Lower(s[i])
  {
    seq(|s|, i requires 0 <= i < |s| => Lower(s[i]))
  }

  /** `strncasecmp(p, w, strlen(w)) == 0` for a lower-case word. */
  predicate CiPrefix(p: string, w: string) {
    |w| <= |p| && forall i :: 0 <= i < |w| ==> Lower(p[i]) == w[i]
  }

  predicate KwAt(p: string, w: string) {
    CiPrefix(p, w) && !IdentChar(At(p, |w|))
  }

  // ---- skipping --------------------------------------------------------

  predicate LineComment(p: string) {
    At(p, 0) == '-' && At(p, 1) == '-'
  }

  predicate BlockComment(p: string) {
    At(p, 0) == '/' && At(p, 1) == '*'
  }

  predicate Quote(c: char) {
    c == '\'' || c == '"'
  }

  /** Past the first `c`. */
  function Past(p: string, c: char): (r: Option<string>)
    ensures r.Some? ==> |r.value| < |p|
  {
    if At(p, 0) == '\0' then None
    else if p[0] == c then Some(p[1..])
    else Past(p[1..], c)
  }

  /** Past the first star-slash. */
  function AfterStar(p: string): (r: Option<string>)
    ensures r.Some? ==> |r.value| < |p|
  {
    if At(p, 0) == '\0' then None
    else if p[0] == '*' && At(p, 1) == '/' then Some(p[2..])
    else AfterStar(p[1..])
  }

  /** What follows the comment at `p`; None when it never ends. */
  function AfterComment(p: string): (r: Option<string>)
    requires LineComment(p) || BlockComment(p)
    ensures r.Some? ==> |r.value| < |p|
  {
    if LineComment(p) then Past(p, '\n') else AfterStar(p[2..])
  }

  /** `sql_skip_ws_comment`. */
  function SkipWs(p: string): (r: string)
    ensures |r| <= |p|
    decreases |p|
  {
    if Blank(At(p, 0)) then SkipWs(p[1..])
    else if LineComment(p) || BlockComment(p) then
      if AfterComment(p).None? then "" else SkipWs(AfterComment(p).value)
    else p
  }

  /** The rest of a literal quoted by `q`, past its closing quote; a doubled quote stays inside. */
  function CloseQuote(p: string, q: char): (r: string)
    ensures |r| <= |p|
    decreases |p|
  {
    if At(p, 0) == '\0' then ""
    else if p[0] != q then CloseQuote(p[1..], q)
    else if At(p, 1) == q && |p| > 1 then CloseQuote(p[2..], q)
    else p[1..]
  }

  /** `sql_skip_string`. */
  function SkipString(p: string): (r: string)
    requires p != ""
    ensures |r| < |p|
  {
    CloseQuote(p[1..], p[0])
  }

  function SkipIdent(p: string): (r: string)
    ensures |r| <= |p|
  {
    if p != "" && IdentChar(p[0]) then SkipIdent(p[1..]) else p
  }

  /** `sql_match_paren`: the text at the parenthesis that closes depth 1. */
  function MatchParen(p: string, depth: int): (r: Option<string>)
    ensures r.Some? ==> |r.value| <= |p| && At(r.value, 0) == ')'
    decreases |p|
  {
    if At(p, 0) == '\0' then None
    else if Quote(p[0]) then MatchParen(SkipString(p), depth)
    else if LineComment(p) || BlockComment(p) then
      if AfterComment(p).None? then None else MatchParen(AfterComment(p).value, depth)
    else if p[0] == '(' then MatchParen(p[1..], depth + 1)
    else if p[0] == ')' then (if depth - 1 == 0 then Some(p) else MatchParen(p[1..], depth - 1))
    else MatchParen(p[1..], depth)
  }

  method SqlSkipWsComment(p: string) returns (r: string)
    ensures r == SkipWs(p)
  {
    r := p;
    while true
      invariant SkipWs(p) == SkipWs(r)
      decreases |r|
    {
      if Blank(At(r, 0)) {
        r := r[1..];
      } else if LineComment(r) {
        var nl := Past(r, '\n');
        if nl.None? {
          return "";
        }
        r := nl.value;
      } else if BlockComment(r) {
        var e := AfterStar(r[2..]);
        if e.None? {
          return "";
        }
        r := e.value;
      } else {
        return;
      }
    }
  }

  method SqlSkipString(p: string) returns (r: string)
    requires p != "" && Quote(p[0])
    ensures r == SkipString(p)
  {
    var q := p[0];
    r := p[1..];
    while At(r, 0) != '\0'
      invariant CloseQuote(r, q) == SkipString(p)
      decreases |r|
    {
      if r[0] == q {
        if At(r, 1) == q {
          r := r[2..];
          continue;
        }
        return r[1..];
      }
      r := r[1..];
    }
    r := "";
  }

  method SqlMatchParen(p: string) returns (r: Option<string>)
    ensures r == MatchParen(p, 0)
  {
    var q, depth := p, 0;
    while At(q, 0) != '\0'
      invariant MatchParen(p, 0) == MatchParen(q, depth)
      decreases |q|
    {
      if Quote(q[0]) {
        q := SqlSkipString(q);
        continue;
      }
      if LineComment(q) || BlockComment(q) {
        var next := AfterComment(q);
        if next.None? {
          return None;
        }
        q := next.value;
        continue;
      }
      if q[0] == '(' {
        depth := depth + 1;
      } else if q[0] == ')' {
        depth := depth - 1;
        if depth == 0 {
          return Some(q);
        }
      }
      q := q[1..];
    }
    r := None;
  }

  /** `sql_scan_ident`: past a bare or simply quoted name. */
  function ScanIdent(p: string): (r: Option<string>)
    ensures r.Some? ==> |r.value| < |p|
  {
    if At(p, 0) == '"' then Past(p[1..], '\"')
    else if SkipIdent(p) == p then None
    else Some(SkipIdent(p))
  }

  // ---- the reference lexer ---------------------------------------------

  datatype Token = Word(text: string) | Str(text: string) | Comment(text: string) | Space(c: char) | Sym(c: char)

  /** The first token of non-empty text, and the text after it. */
  function NextToken(p: string): (r: (Token, string))
    requires At(p, 0) != '\0'
    ensures |r.1| < |p|
  {
    var c := p[0];
    if IdentChar(c) then (Word(p[..|p| - |SkipIdent(p)|]), SkipIdent(p))
    else if Quote(c) then (Str(p[..|p| - |SkipString(p)|]), SkipString(p))
    else if LineComment(p) || BlockComment(p) then
      var rest := if AfterComment(p).None? then "" else AfterComment(p).value;
      (Comment(p[..|p| - |rest|]), rest)
    else if Blank(c) then (Space(c), p[1..])
    else (Sym(c), p[1..])
  }

  function Lex(p: string): seq<Token>
    decreases |p|
  {
    if At(p, 0) == '\0' then [] else [NextToken(p).0] + Lex(NextToken(p).1)
  }

  function Delta(t: Token): int {
    if t == Sym('(') then 1 else if t == Sym(')') then -1 else 0
  }

  /** Depth stays at least 1 and comes back to 1. */
  predicate Balanced(ts: seq<Token>, depth: int) {
    depth >= 1 && (if ts == [] then depth == 1 else Balanced(ts[1..], depth + Delta(ts[0])))
  }

  // ---- the scanners in step with the lexer -----------------------------

  lemma {:induction false} CloseQuoteLocal(b: string, c: string, q: char)
    requires At(c, 0) == ')' && Quote(q)
    requires |CloseQuote(b + c, q)| >= |c|
    ensures CloseQuote(b + c, q) == CloseQuote(b, q) + c
    decreases |b|
  {
    assert b == "" ==> b + c == c;
    if b != "" {
      var p := b + c;
      assert p[1..] == b[1..] + c;
      if b[0] != q {
        CloseQuoteLocal(b[1..], c, q);
      } else if |b| > 1 && b[1] == q {
        assert p[2..] == b[2..] + c;
        CloseQuoteLocal(b[2..], c, q);
      }
    }
  }

  lemma {:induction false} PastLineLocal(b: string, c: string)
    requires At(c, 0) == ')' && Past(b + c, '\n').Some? && |Past(b + c, '\n').value| >= |c|
    ensures Past(b, '\n').Some? && Past(b + c, '\n').value == Past(b, '\n').value + c
    decreases |b|
  {
    assert b == "" ==> b + c == c;
    if b != "" {
      assert (b + c)[1..] == b[1..] + c;
      if b[0] != '\n' {
        PastLineLocal(b[1..], c);
      }
    }
  }

  lemma {:induction false} AfterStarLocal(b: string, c: string)
    requires At(c, 0) == ')' && AfterStar(b + c).Some? && |AfterStar(b + c).value| >= |c|
    ensures AfterStar(b).Some? && AfterStar(b + c).value == AfterStar(b).value + c
    decreases |b|
  {
    assert b == "" ==> b + c == c;
    if b != "" {
      assert (b + c)[1..] == b[1..] + c;
      if !(b[0] == '*' && At(b, 1) == '/') {
        AfterStarLocal(b[1..], c);
      } else {
        assert (b + c)[2..] == b[2..] + c;
      }
    }
  }

  lemma {:induction false} SkipIdentLocal(b: string, c: string)
    requires At(c, 0) == ')'
    ensures SkipIdent(b + c) == SkipIdent(b) + c
    decreases |b|
  {
    if b == "" {
      assert b + c == c;
    } else {
      assert (b + c)[1..] == b[1..] + c;
      if IdentChar(b[0]) {
        SkipIdentLocal(b[1..], c);
      }
    }
  }

  /** Stepping over an identifier byte by byte does not change the depth. */
  lemma {:induction false} MatchThroughIdent(p: string, depth: int)
    ensures MatchParen(p, depth) == MatchParen(SkipIdent(p), depth)
    decreases |p|
  {
    if p != "" && IdentChar(p[0]) {
      MatchThroughIdent(p[1..], depth);
    }
  }

  /** A byte that starts no identifier, literal or comment. */
  predicate Lone(p: string) {
    At(p, 0) != '\0' && !IdentChar(p[0]) && !Quote(p[0]) && !LineComment(p) && !BlockComment(p)
  }

  lemma LoneToken(p: string)
    requires Lone(p)
    ensures NextToken(p) == (if Blank(p[0]) then Space(p[0]) else Sym(p[0]), p[1..])
    ensures Delta(NextToken(p).0) == if p[0] == '(' then 1 else if p[0] == ')' then -1 else 0
  {
  }

  lemma LoneMatch(p: string, depth: int)
    requires Lone(p) && (p[0] == ')' ==> depth != 1)
    ensures MatchParen(p, depth)
            == MatchParen(p[1..], if p[0] == '(' then depth + 1 else if p[0] == ')' then depth - 1 else depth)
  {
  }

  /** The token at `b` ends before `close`, and the matcher goes on from there. */
  predicate Steps(b: string, close: string, depth: int)
    requires At(b, 0) != '\0' && At(b + close, 0) != '\0'
  {
    var (t, r) := NextToken(b);
    NextToken(b + close) == (t, r + close)
    && depth + Delta(t) >= 1
    && MatchParen(r + close, depth + Delta(t)) == Some(close)
  }

  lemma WordInStep(b: string, close: string, depth: int)
    requires b != "" && depth >= 1 && MatchParen(b + close, depth) == Some(close) && IdentChar(b[0])
    ensures Steps(b, close, depth)
  {
    SkipIdentLocal(b, close);
    MatchThroughIdent(b + close, depth);
    SameHead(b, close, SkipIdent(b));
  }

  lemma StringInStep(b: string, close: string, depth: int)
    requires b != "" && depth >= 1 && MatchParen(b + close, depth) == Some(close) && Quote(b[0])
    ensures Steps(b, close, depth)
  {
    assert (b + close)[1..] == b[1..] + close;
    CloseQuoteLocal(b[1..], close, b[0]);
    SameHead(b, close, SkipString(b));
  }

  lemma LineInStep(b: string, close: string, depth: int)
    requires b != "" && depth >= 1 && MatchParen(b + close, depth) == Some(close) && LineComment(b + close)
    ensures Steps(b, close, depth)
  {
    PastLineLocal(b, close);
    SameHead(b, close, Past(b, '\n').value);
  }

  lemma BlockInStep(b: string, close: string, depth: int)
    requires b != "" && depth >= 1 && MatchParen(b + close, depth) == Some(close) && BlockComment(b + close)
    ensures Steps(b, close, depth)
  {
    assert (b + close)[2..] == b[2..] + close;
    AfterStarLocal(b[2..], close);
    SameHead(b, close, AfterStar(b[2..]).value);
  }

  lemma LoneInStep(b: string, close: string, depth: int)
    requires b != "" && depth >= 1 && MatchParen(b + close, depth) == Some(close) && Lone(b + close)
    ensures Steps(b, close, depth)
  {
    var p := b + close;
    assert p[1..] == b[1..] + close;
    LoneToken(b);
    LoneToken(p);
    assert p[0] == ')' && depth == 1 ==> MatchParen(p, depth) == Some(p) && |p| > |close|;
    LoneMatch(p, depth);
  }

  /** While the matcher is on its way to `close`, text up to `close` lexes on its own. */
  lemma InStep(b: string, close: string, depth: int)
    requires b != "" && depth >= 1 && MatchParen(b + close, depth) == Some(close)
    ensures At(b, 0) != '\0' && At(b + close, 0) != '\0' && Steps(b, close, depth)
  {
    var p := b + close;
    assert p[0] == b[0];
    if IdentChar(b[0]) {
      WordInStep(b, close, depth);
    } else if Quote(b[0]) {
      StringInStep(b, close, depth);
    } else if LineComment(p) {
      LineInStep(b, close, depth);
    } else if BlockComment(p) {
      BlockInStep(b, close, depth);
    } else {
      LoneInStep(b, close, depth);
    }
  }

  lemma SameHead(b: string, c: string, r: string)
    requires |r| <= |b|
    ensures (b + c)[..|b + c| - |r + c|] == b[..|b| - |r|]
  {
  }
}
