/** SQL as it is written, lexeme by lexeme, and what the scanners of src/agent/sqlite_tool.c make
    of it. */
module SqlText {
  import opened CText
  import opened SqlLex
  import opened SqlGuard

  /** A name, a quoted literal by its contents, a comment by what it says, a blank, or any other byte. */
  datatype Lexeme =
    | Bare(word: string) | Quoted(q: char, inside: string) | LineNote(note: string) | BlockNote(note: string)
    | White(c: char) | Mark(c: char)

  /** The contents of a literal with its quote doubled. */
  function Doubling(s: string, q: char): string {
    if s == "" then "" else (if s[0] == q then [q, q] else [s[0]]) + Doubling(s[1..], q)
  }

  function Written(x: Lexeme): string {
    match x
    case Bare(word) => word
    case Quoted(q, inside) => [q] + (Doubling(inside, q) + [q])
    case LineNote(note) => "--" + (note + "\n")
    case BlockNote(note) => "/*" + (note + "*/")
    case White(c) => [c]
    case Mark(c) => [c]
  }

  function TextOf(xs: seq<Lexeme>): string {
    if xs == [] then "" else Written(xs[0]) + TextOf(xs[1..])
  }

  predicate NoStarSlash(s: string) {
    forall i :: 0 <= i < |s| - 1 ==> !(s[i] == '*' && s[i + 1] == '/')
  }

  predicate LexemeOk(x: Lexeme) {
    match x
    case Bare(word) => IdentWord(word)
    case Quoted(q, inside) => (q == '\'' || q == '"') && NulFree(inside)
    case LineNote(note) => NulFree(note) && '\n' !in note
    case BlockNote(note) => NulFree(note) && NoStarSlash(note)
    case White(c) => c == ' ' || c == '\t' || c == '\r' || c == '\n'
    case Mark(c) => c != '\0' && !IdentChar(c) && c !in " \t\r\n'\""
  }

  /** The lexeme ends where `rest` begins. */
  predicate Parted(x: Lexeme, rest: string) {
    match x
    case Bare(_) => !IdentChar(At(rest, 0))
    case Quoted(q, _) => At(rest, 0) != q
    case Mark(c) => !(c == '-' && At(rest, 0) == '-') && !(c == '/' && At(rest, 0) == '*')
    case _ => true
  }

  predicate WellWritten(xs: seq<Lexeme>, rest: string) {
    xs == [] || (LexemeOk(xs[0]) && Parted(xs[0], TextOf(xs[1..]) + rest) && WellWritten(xs[1..], rest))
  }

  function TokenOf(x: Lexeme): Token {
    match x
    case Bare(word) => Word(word)
    case Quoted(_, _) => Str(Written(x))
    case LineNote(_) => Comment(Written(x))
    case BlockNote(_) => Comment(Written(x))
    case White(c) => Space(c)
    case Mark(c) => Sym(c)
  }

  function Tokens(xs: seq<Lexeme>): seq<Token> {
    if xs == [] then [] else [TokenOf(xs[0])] + Tokens(xs[1..])
  }

  // ---- reading what is written -----------------------------------------

  lemma {:induction false} QuotedReads(s: string, q: char, rest: string)
    requires NulFree(s) && Quote(q) && At(rest, 0) != q
    ensures CloseQuote(Doubling(s, q) + ([q] + rest), q) == rest
    decreases |s|
  {
    var p := Doubling(s, q) + ([q] + rest);
    if s == "" {
      assert p == [q] + rest;
    } else {
      var more := Doubling(s[1..], q) + ([q] + rest);
      QuotedReads(s[1..], q, rest);
      if s[0] == q {
        assert p == [q, q] + more;
        assert p[2..] == more;
      } else {
        assert p == [s[0]] + more;
        assert p[1..] == more;
      }
    }
  }

  lemma {:induction false} LineReads(note: string, rest: string)
    requires NulFree(note) && '\n' !in note
    ensures Past(note + ("\n" + rest), '\n') == Some(rest)
  {
    var p := note + ("\n" + rest);
    if note == "" {
      assert p == "\n" + rest;
    } else {
      assert p[1..] == note[1..] + ("\n" + rest);
      LineReads(note[1..], rest);
    }
  }

  lemma {:induction false} BlockReads(note: string, rest: string)
    requires NulFree(note) && NoStarSlash(note)
    ensures AfterStar(note + ("*/" + rest)) == Some(rest)
  {
    var p := note + ("*/" + rest);
    if note == "" {
      assert p == "*/" + rest;
      assert p[2..] == rest;
    } else {
      assert p[1..] == note[1..] + ("*/" + rest);
      assert |note| == 1 ==> p[1] == '*';
      BlockReads(note[1..], rest);
    }
  }

  lemma CommentReads(x: Lexeme, rest: string)
    requires LexemeOk(x) && (x.LineNote? || x.BlockNote?)
    ensures var p := Written(x) + rest;
            (LineComment(p) || BlockComment(p)) && AfterComment(p) == Some(rest)
  {
    var p := Written(x) + rest;
    if x.LineNote? {
      assert p == "--" + (x.note + ("\n" + rest));
      assert p[1..][1..] == x.note + ("\n" + rest);
      assert Past(p, '\n') == Past(p[1..], '\n') == Past(p[1..][1..], '\n');
      LineReads(x.note, rest);
    } else {
      assert p == "/*" + (x.note + ("*/" + rest));
      assert p[2..] == x.note + ("*/" + rest);
      BlockReads(x.note, rest);
    }
  }

  lemma LiteralReads(x: Lexeme, rest: string)
    requires LexemeOk(x) && x.Quoted? && Parted(x, rest)
    ensures var p := Written(x) + rest;
            p != "" && p[0] == x.q && SkipString(p) == rest
  {
    QuotedText(x.q, Doubling(x.inside, x.q), rest);
    QuotedReads(x.inside, x.q, rest);
  }

  lemma QuotedText(q: char, d: string, rest: string)
    ensures var p := [q] + (d + [q]) + rest;
            p[0] == q && p[1..] == d + ([q] + rest)
  {
  }

  lemma TokenText(p: string, head: string, rest: string)
    requires p == head + rest
    ensures p[..|p| - |rest|] == head
  {
  }

  /** The lexer takes exactly the lexeme that is written. */
  lemma TokenReads(x: Lexeme, rest: string)
    requires LexemeOk(x) && Parted(x, rest)
    ensures At(Written(x) + rest, 0) != '\0'
    ensures NextToken(Written(x) + rest) == (TokenOf(x), rest)
  {
    var p := Written(x) + rest;
    TokenText(p, Written(x), rest);
    match x {
      case Bare(word) =>
        IdentJoin(word, rest);
      case Quoted(q, inside) =>
        LiteralReads(x, rest);
      case LineNote(_) =>
        CommentReads(x, rest);
      case BlockNote(_) =>
        CommentReads(x, rest);
      case White(c) =>
        assert p[1..] == rest;
      case Mark(c) =>
        assert p[1..] == rest;
    }
  }

  /** Text written from lexemes lexes to their tokens. */
  lemma {:induction false} LexReads(xs: seq<Lexeme>)
    requires WellWritten(xs, "")
    ensures Lex(TextOf(xs)) == Tokens(xs)
  {
    if xs != [] {
      var rest := TextOf(xs[1..]);
      assert rest + "" == rest;
      TokenReads(xs[0], rest);
      LexReads(xs[1..]);
    }
  }

  lemma {:induction false} WrittenAlone(xs: seq<Lexeme>, rest: string)
    requires WellWritten(xs, rest)
    ensures WellWritten(xs, "")
  {
    if xs != [] {
      WrittenAlone(xs[1..], rest);
      var more := TextOf(xs[1..]);
      assert more + "" == more;
      assert more == "" ==> more + rest == rest;
      assert more != "" ==> (more + rest)[0] == more[0];
    }
  }

  /** Blanks and finished comments. */
  predicate AllGaps(xs: seq<Lexeme>) {
    forall i :: 0 <= i < |xs| ==> LexemeOk(xs[i]) && (xs[i].White? || xs[i].LineNote? || xs[i].BlockNote?)
  }

  /** They are skipped. */
  lemma {:induction false} GapReads(xs: seq<Lexeme>, rest: string)
    requires AllGaps(xs)
    ensures SkipWs(TextOf(xs) + rest) == SkipWs(rest)
  {
    if xs == [] {
      assert TextOf(xs) + rest == rest;
    } else {
      var more := TextOf(xs[1..]) + rest;
      Cat3(Written(xs[0]), TextOf(xs[1..]), rest);
      GapReads(xs[1..], rest);
      if xs[0].White? {
        assert (Written(xs[0]) + more)[1..] == more;
      } else {
        CommentReads(xs[0], more);
        assert !Blank(At(Written(xs[0]) + more, 0));
      }
    }
  }

  /** The matcher finds the parenthesis that closes balanced lexemes. */
  lemma {:induction false} MatchReads(xs: seq<Lexeme>, close: string, depth: int)
    requires WellWritten(xs, close) && At(close, 0) == ')' && Balanced(Tokens(xs), depth)
    ensures MatchParen(TextOf(xs) + close, depth) == Some(close)
    decreases |xs|
  {
    if xs == [] {
      assert TextOf(xs) + close == close;
    } else {
      var more := TextOf(xs[1..]) + close;
      Cat3(Written(xs[0]), TextOf(xs[1..]), close);
      assert Tokens(xs)[0] == TokenOf(xs[0]) && Tokens(xs)[1..] == Tokens(xs[1..]);
      MatchReads(xs[1..], close, depth + Delta(TokenOf(xs[0])));
      assert Balanced(Tokens(xs[1..]), depth + Delta(TokenOf(xs[0])));
      MatchToken(xs[0], more, depth);
    }
  }

  lemma MatchToken(x: Lexeme, more: string, depth: int)
    requires LexemeOk(x) && Parted(x, more) && depth >= 1 && depth + Delta(TokenOf(x)) >= 1
    ensures MatchParen(Written(x) + more, depth) == MatchParen(more, depth + Delta(TokenOf(x)))
  {
    var p := Written(x) + more;
    match x {
      case Bare(word) =>
        IdentJoin(word, more);
        MatchThroughIdent(p, depth);
      case Quoted(q, inside) =>
        LiteralReads(x, more);
      case LineNote(_) =>
        CommentReads(x, more);
      case BlockNote(_) =>
        CommentReads(x, more);
      case White(c) =>
        assert p[1..] == more;
      case Mark(c) =>
        assert p[1..] == more;
    }
  }

  // ---- WITH lists ------------------------------------------------------

  /** The column names of a list item, up to the closing parenthesis; a comma may stand before it. */
  datatype Columns =
    | NoMore(gap: seq<Lexeme>)
    | LastColumn(gap: seq<Lexeme>, name: string, gap2: seq<Lexeme>)
    | Column(gap: seq<Lexeme>, name: string, gap2: seq<Lexeme>, more: Columns)

  /** name [(columns)] AS (body), with blanks and comments in between. */
  datatype Item = Item(before: seq<Lexeme>, name: string, gap: seq<Lexeme>, columns: Option<(Columns, seq<Lexeme>)>,
                       as_: string, gap2: seq<Lexeme>, body: seq<Lexeme>, after: seq<Lexeme>)

  function ColumnsText(c: Columns, rest: string): string {
    match c
    case NoMore(gap) => TextOf(gap) + (")" + rest)
    case LastColumn(gap, name, gap2) => TextOf(gap) + (name + (TextOf(gap2) + (")" + rest)))
    case Column(gap, name, gap2, more) => TextOf(gap) + (name + (TextOf(gap2) + ("," + ColumnsText(more, rest))))
  }

  predicate ColumnsOk(c: Columns, rest: string) {
    match c
    case NoMore(gap) => AllGaps(gap)
    case LastColumn(gap, name, gap2) => AllGaps(gap) && NameThen(name, TextOf(gap2) + (")" + rest)) && AllGaps(gap2)
    case Column(gap, name, gap2, more) =>
      AllGaps(gap) && NameThen(name, TextOf(gap2) + ("," + ColumnsText(more, rest))) && AllGaps(gap2)
      && ColumnsOk(more, rest)
  }

  function BodyText(it: Item, rest: string): string {
    "(" + (TextOf(it.body) + (")" + (TextOf(it.after) + rest)))
  }

  function AsText(it: Item, rest: string): string {
    it.as_ + (TextOf(it.gap2) + BodyText(it, rest))
  }

  function ColumnPart(it: Item, rest: string): string {
    if it.columns.None? then AsText(it, rest)
    else "(" + ColumnsText(it.columns.value.0, TextOf(it.columns.value.1) + AsText(it, rest))
  }

  function ItemText(it: Item, rest: string): string {
    TextOf(it.before) + (it.name + (TextOf(it.gap) + ColumnPart(it, rest)))
  }

  predicate BodyOk(it: Item, rest: string) {
    WellWritten(it.body, ")" + (TextOf(it.after) + rest)) && Balanced(Tokens(it.body), 1) && AllGaps(it.after)
  }

  predicate AsOk(it: Item, rest: string) {
    WordThen(it.as_, "as", TextOf(it.gap2) + BodyText(it, rest)) && AllGaps(it.gap2) && BodyOk(it, rest)
  }

  predicate ItemOk(it: Item, rest: string) {
    AllGaps(it.before) && NameThen(it.name, TextOf(it.gap) + ColumnPart(it, rest)) && AllGaps(it.gap)
    && (it.columns.Some? ==>
          ColumnsOk(it.columns.value.0, TextOf(it.columns.value.1) + AsText(it, rest)) && AllGaps(it.columns.value.1))
    && AsOk(it, rest)
  }

  function ListText(items: seq<Item>, tail: string): string
    requires items != []
  {
    ItemText(items[0], AfterItem(items, tail))
  }

  /** What follows the first item. */
  function AfterItem(items: seq<Item>, tail: string): string
    requires items != []
    decreases |items|, 0
  {
    if |items| == 1 then tail else "," + ItemText(items[1], AfterItem(items[1..], tail))
  }

  predicate ItemsOk(items: seq<Item>, tail: string) {
    items != [] ==> ItemOk(items[0], AfterItem(items, tail)) && ItemsOk(items[1..], tail)
  }

  /** A statement begins here. */
  predicate Starts(tail: string) {
    At(tail, 0) !in " \t\r\n," && !("--" <= tail) && !("/*" <= tail)
  }

  lemma StartsStays(tail: string)
    ensures Starts(tail) <==> SkipWs(tail) == tail && At(tail, 0) != ','
  {
    assert LineComment(tail) <==> "--" <= tail;
    assert BlockComment(tail) <==> "/*" <= tail;
  }

  lemma NameStays(name: string, rest: string)
    requires NameThen(name, rest)
    ensures SkipWs(name + rest) == name + rest && At(name + rest, 0) != ')' && At(name + rest, 0) != '\0'
    ensures ScanIdent(name + rest) == Some(rest)
  {
    NameJoin(name, rest);
    assert (name + rest)[0] == name[0];
  }

  /** A gap and then a name. */
  lemma GapName(gap: seq<Lexeme>, name: string, rest: string)
    requires AllGaps(gap) && NameThen(name, rest)
    ensures SkipWs(TextOf(gap) + (name + rest)) == name + rest
    ensures At(name + rest, 0) != ')' && At(name + rest, 0) != '\0' && ScanIdent(name + rest) == Some(rest)
  {
    GapReads(gap, name + rest);
    NameStays(name, rest);
  }

  lemma GapMark(gap: seq<Lexeme>, c: char, rest: string)
    requires AllGaps(gap) && c in "(),"
    ensures SkipWs(TextOf(gap) + ([c] + rest)) == [c] + rest
  {
    GapReads(gap, [c] + rest);
  }

  lemma {:induction false} ColumnsRead(c: Columns, rest: string)
    requires ColumnsOk(c, rest)
    ensures ColumnsEnd(ColumnsText(c, rest)) == Some(")" + rest)
    decreases c
  {
    match c {
      case NoMore(gap) =>
        GapMark(gap, ')', rest);
      case LastColumn(gap, name, gap2) =>
        GapName(gap, name, TextOf(gap2) + (")" + rest));
        GapMark(gap2, ')', rest);
      case Column(gap, name, gap2, more) =>
        GapName(gap, name, TextOf(gap2) + ("," + ColumnsText(more, rest)));
        GapMark(gap2, ',', ColumnsText(more, rest));
        assert ("," + ColumnsText(more, rest))[1..] == ColumnsText(more, rest);
        ColumnsRead(more, rest);
    }
  }

  lemma AsReads(it: Item, rest: string)
    requires AsOk(it, rest)
    ensures var p := AsText(it, rest);
            KwAt(p, "as") && SkipWs(p[2..]) == BodyText(it, rest)
            && SkipWs(p) == p && At(p, 0) != '('
  {
    var p, more := AsText(it, rest), TextOf(it.gap2) + BodyText(it, rest);
    WordJoin(it.as_, "as", more);
    assert p[2..] == more;
    GapMark(it.gap2, '(', TextOf(it.body) + (")" + (TextOf(it.after) + rest)));
    assert Lower(p[0]) == 'a';
  }

  lemma ColumnPartReads(it: Item, rest: string)
    requires ItemOk(it, rest)
    ensures var p := ColumnPart(it, rest);
            SkipWs(p) == p
            && (if At(p, 0) == '(' then AfterColumns(p) else Open(p)) == Open(AsText(it, rest))
  {
    AsReads(it, rest);
    if it.columns.Some? {
      var (c, gap) := it.columns.value;
      var p, inside := ColumnPart(it, rest), ColumnsText(c, TextOf(gap) + AsText(it, rest));
      assert p[1..] == inside;
      ColumnsRead(c, TextOf(gap) + AsText(it, rest));
      assert (")" + (TextOf(gap) + AsText(it, rest)))[1..] == TextOf(gap) + AsText(it, rest);
      GapReads(gap, AsText(it, rest));
    }
  }

  lemma HeadReads(it: Item, rest: string)
    requires ItemOk(it, rest)
    ensures CteHead(ItemText(it, rest)) == Open(BodyText(it, rest))
  {
    GapName(it.before, it.name, TextOf(it.gap) + ColumnPart(it, rest));
    ColumnPartReads(it, rest);
    GapReads(it.gap, ColumnPart(it, rest));
    AsReads(it, rest);
  }

  lemma BodyReads(it: Item, rest: string)
    requires BodyOk(it, rest) && SkipWs(rest) == rest
    ensures var p, close := BodyText(it, rest), ")" + (TextOf(it.after) + rest);
            MatchParen(p, 0) == Some(close) && p[1..|p| - |close|] == TextOf(it.body) && SkipWs(close[1..]) == rest
  {
    var p, close := BodyText(it, rest), ")" + (TextOf(it.after) + rest);
    assert p[1..] == TextOf(it.body) + close;
    MatchReads(it.body, close, 1);
    assert close[1..] == TextOf(it.after) + rest;
    GapReads(it.after, rest);
  }

  function Bodies(items: seq<Item>): seq<string> {
    if items == [] then [] else [TextOf(items[0].body)] + Bodies(items[1..])
  }

  lemma AfterItemStays(items: seq<Item>, tail: string)
    requires items != [] && Starts(tail)
    ensures var rest := AfterItem(items, tail);
            SkipWs(rest) == rest
            && (if |items| > 1 then rest != "" && rest[0] == ',' && rest[1..] == ListText(items[1..], tail)
                else rest == tail && At(rest, 0) != ',')
  {
    StartsStays(tail);
  }

  lemma ListStep(p: string)
    requires CteHead(p).Open? && MatchParen(CteHead(p).text, 0).Some?
    ensures var open := CteHead(p).text;
            var close := MatchParen(open, 0).value;
            var after := SkipWs(close[1..]);
            |close| < |open|
            && CteList(p, false)
               == if At(after, 0) == ',' then Push(open[1..|open| - |close|], CteList(after[1..], false))
                  else Ctes([open[1..|open| - |close|]], after)
  {
  }

  lemma ItemReads(it: Item, rest: string)
    requires ItemOk(it, rest) && SkipWs(rest) == rest
    ensures CteList(ItemText(it, rest), false)
            == if At(rest, 0) == ',' then Push(TextOf(it.body), CteList(rest[1..], false)) else Ctes([TextOf(it.body)], rest)
  {
    HeadReads(it, rest);
    BodyReads(it, rest);
    ListStep(ItemText(it, rest));
  }

  /** A list that is written is read: the bodies, in order, and what follows the list. */
  lemma {:induction false} ListReads(items: seq<Item>, tail: string)
    requires items != [] && ItemsOk(items, tail) && Starts(tail)
    ensures CteList(ListText(items, tail), false) == Ctes(Bodies(items), tail)
    decreases |items|
  {
    AfterItemStays(items, tail);
    ItemReads(items[0], AfterItem(items, tail));
    if |items| > 1 {
      ListReads(items[1..], tail);
    } else {
      assert Bodies(items[1..]) == [] && Bodies(items) == [TextOf(items[0].body)];
    }
  }

  // ---- taking text apart -----------------------------------------------

  lemma {:induction false} LineSplit(p: string) returns (note: string)
    requires Past(p, '\n').Some?
    ensures NulFree(note) && '\n' !in note && p == note + ("\n" + Past(p, '\n').value)
  {
    if p[0] == '\n' {
      note := "";
    } else {
      var more := LineSplit(p[1..]);
      note := [p[0]] + more;
    }
  }

  lemma {:induction false} BlockSplit(p: string) returns (note: string)
    requires AfterStar(p).Some?
    ensures NulFree(note) && NoStarSlash(note) && p == note + ("*/" + AfterStar(p).value)
  {
    if p[0] == '*' && At(p, 1) == '/' {
      note := "";
    } else {
      var more := BlockSplit(p[1..]);
      note := [p[0]] + more;
      assert |more| > 0 ==> p[1] == more[0];
      forall i | 0 <= i < |note| - 1
        ensures !(note[i] == '*' && note[i + 1] == '/')
      {
        assert i > 0 ==> note[i] == more[i - 1] && note[i + 1] == more[i];
      }
    }
  }

  lemma CommentSplit(p: string) returns (x: Lexeme)
    requires (LineComment(p) || BlockComment(p)) && AfterComment(p).Some?
    ensures LexemeOk(x) && (x.LineNote? || x.BlockNote?) && p == Written(x) + AfterComment(p).value
  {
    var rest := AfterComment(p).value;
    if LineComment(p) {
      assert Past(p, '\n') == Past(p[1..], '\n') == Past(p[1..][1..], '\n');
      var note := LineSplit(p[1..][1..]);
      assert p == "--" + p[1..][1..];
      x := LineNote(note);
    } else {
      var note := BlockSplit(p[2..]);
      assert p == "/*" + p[2..];
      x := BlockNote(note);
    }
  }

  /** What the scanner skips is blanks and comments. */
  lemma {:induction false} GapSplit(p: string) returns (xs: seq<Lexeme>)
    requires SkipWs(p) != ""
    ensures AllGaps(xs) && p == TextOf(xs) + SkipWs(p)
    ensures SkipWs(p) == p ==> xs == []
    ensures SkipWs(SkipWs(p)) == SkipWs(p)
    decreases |p|
  {
    if SkipWs(p) == p {
      xs := [];
      assert TextOf([]) + p == p;
    } else {
      var x, q := GapFirst(p);
      var more := GapSplit(q);
      xs := [x] + more;
      GapCons(x, more, p, q, SkipWs(p));
    }
  }

  /** The blank or comment that is skipped first. */
  lemma GapFirst(p: string) returns (x: Lexeme, q: string)
    requires SkipWs(p) != "" && SkipWs(p) != p
    ensures LexemeOk(x) && (x.White? || x.LineNote? || x.BlockNote?)
    ensures p == Written(x) + q && |q| < |p| && SkipWs(q) == SkipWs(p)
  {
    if Blank(At(p, 0)) {
      x, q := White(p[0]), p[1..];
    } else {
      x := CommentSplit(p);
      q := AfterComment(p).value;
    }
  }

  lemma GapCons(x: Lexeme, more: seq<Lexeme>, p: string, q: string, rest: string)
    requires p == Written(x) + q && q == TextOf(more) + rest
    ensures TextOf([x] + more) + rest == p
  {
    assert ([x] + more)[1..] == more;
    Cat3(Written(x), TextOf(more), rest);
  }

  lemma {:induction false} CloseSplit(p: string, q: char) returns (inside: string)
    requires CloseQuote(p, q) != "" && Quote(q)
    ensures NulFree(inside) && At(CloseQuote(p, q), 0) != q
    ensures p == Doubling(inside, q) + ([q] + CloseQuote(p, q))
    decreases |p|
  {
    if p[0] != q {
      var more := CloseSplit(p[1..], q);
      inside := [p[0]] + more;
      assert inside[1..] == more;
      Cat3([p[0]], Doubling(more, q), [q] + CloseQuote(p, q));
    } else if At(p, 1) == q && |p| > 1 {
      var more := CloseSplit(p[2..], q);
      inside := [q] + more;
      assert inside[1..] == more;
      Cat3([q, q], Doubling(more, q), [q] + CloseQuote(p, q));
      assert p == [q, q] + p[2..];
    } else {
      inside := "";
    }
  }

  lemma LiteralSplit(p: string) returns (x: Lexeme)
    requires p != "" && Quote(p[0]) && SkipString(p) != ""
    ensures LexemeOk(x) && x.Quoted? && Parted(x, SkipString(p)) && p == Written(x) + SkipString(p)
  {
    var inside := CloseSplit(p[1..], p[0]);
    x := Quoted(p[0], inside);
    QuotedJoin(p, Doubling(inside, p[0]), SkipString(p));
  }

  lemma QuotedJoin(p: string, d: string, rest: string)
    requires p != "" && p[1..] == d + ([p[0]] + rest)
    ensures p == [p[0]] + (d + [p[0]]) + rest
  {
    assert p == [p[0]] + p[1..];
  }

  /** The first lexeme of a body on the way to its closing parenthesis. */
  lemma LexemeSplit(b: string, close: string, depth: int) returns (x: Lexeme, r: string)
    requires b != "" && depth >= 1 && At(close, 0) == ')' && MatchParen(b + close, depth) == Some(close)
    ensures LexemeOk(x) && Parted(x, r + close) && b == Written(x) + r && |r| < |b|
    ensures depth + Delta(TokenOf(x)) >= 1 && MatchParen(r + close, depth + Delta(TokenOf(x))) == Some(close)
  {
    InStep(b, close, depth);
    var p := b + close;
    r := NextToken(b).1;
    x := FirstLexeme(p, depth);
    TokenReads(x, NextToken(p).1);
    Cancel(b, Written(x), r, close);
  }

  lemma Cancel(b: string, w: string, r: string, c: string)
    requires b + c == w + (r + c)
    ensures b == w + r
  {
    Cat3(w, r, c);
    assert (b + c)[..|b|] == b && ((w + r) + c)[..|w + r|] == w + r;
  }

  lemma FirstLexeme(p: string, depth: int) returns (x: Lexeme)
    requires At(p, 0) != '\0' && MatchParen(p, depth).Some? && NextToken(p).1 != ""
    ensures LexemeOk(x) && Parted(x, NextToken(p).1) && p == Written(x) + NextToken(p).1
  {
    if IdentChar(p[0]) {
      SkipIdentRun(p);
      x := Bare(p[..|p| - |SkipIdent(p)|]);
    } else if Quote(p[0]) {
      x := LiteralSplit(p);
    } else if LineComment(p) || BlockComment(p) {
      x := CommentSplit(p);
    } else {
      x := if Blank(p[0]) then White(p[0]) else Mark(p[0]);
      assert p == [p[0]] + p[1..];
    }
  }

  /** A body the matcher finds is written in balanced lexemes. */
  lemma {:induction false} BodySplit(b: string, close: string, depth: int) returns (xs: seq<Lexeme>)
    requires depth >= 1 && At(close, 0) == ')' && MatchParen(b + close, depth) == Some(close)
    ensures b == TextOf(xs) && WellWritten(xs, close) && Balanced(Tokens(xs), depth)
    decreases |b|
  {
    if b == "" {
      xs := [];
      assert b + close == close;
    } else {
      var x, r := LexemeSplit(b, close, depth);
      var more := BodySplit(r, close, depth + Delta(TokenOf(x)));
      xs := [x] + more;
      assert xs[1..] == more;
      assert Tokens(xs)[0] == TokenOf(x) && Tokens(xs)[1..] == Tokens(more);
    }
  }

  /** A name and the blanks and comments around it. */
  lemma NameInGaps(p: string) returns (gap: seq<Lexeme>, name: string, gap2: seq<Lexeme>)
    requires ScanIdent(SkipWs(p)).Some? && SkipWs(ScanIdent(SkipWs(p)).value) != ""
    ensures var b := SkipWs(ScanIdent(SkipWs(p)).value);
            p == TextOf(gap) + (name + (TextOf(gap2) + b)) && NameThen(name, TextOf(gap2) + b)
    ensures AllGaps(gap) && AllGaps(gap2) && (SkipWs(p) == p ==> gap == [])
  {
    gap := GapSplit(p);
    name := NameSplit(SkipWs(p));
    gap2 := GapSplit(ScanIdent(SkipWs(p)).value);
  }

  lemma {:induction false} ColumnsSplit(p: string) returns (c: Columns)
    requires ColumnsEnd(p).Some? && At(ColumnsEnd(p).value, 0) == ')'
    ensures var rest := ColumnsEnd(p).value[1..];
            p == ColumnsText(c, rest) && ColumnsOk(c, rest)
    decreases |p|
  {
    var end := ColumnsEnd(p).value;
    assert end == ")" + end[1..];
    var a := SkipWs(p);
    if a[0] == ')' {
      var gap := GapSplit(p);
      c := NoMore(gap);
    } else {
      var gap, name, gap2 := NameInGaps(p);
      var b := SkipWs(ScanIdent(a).value);
      if At(b, 0) == ',' {
        var more := ColumnsSplit(b[1..]);
        c := Column(gap, name, gap2, more);
        assert b == "," + b[1..];
      } else {
        c := LastColumn(gap, name, gap2);
      }
    }
  }

  /** The parentheses of an item and what follows them. */
  lemma BodyPartSplit(open: string) returns (body: seq<Lexeme>, after: seq<Lexeme>)
    requires At(open, 0) == '(' && MatchParen(open, 0).Some? && SkipWs(MatchParen(open, 0).value[1..]) != ""
    ensures var rest := SkipWs(MatchParen(open, 0).value[1..]);
            open == "(" + (TextOf(body) + (")" + (TextOf(after) + rest)))
            && WellWritten(body, ")" + (TextOf(after) + rest)) && Balanced(Tokens(body), 1) && AllGaps(after)
            && TextOf(body) == open[1..|open| - |MatchParen(open, 0).value|]
  {
    var text, close := BodyOfMatch(open);
    body := BodySplit(text, close, 1);
    after := GapSplit(close[1..]);
    JoinBody(open, text, close, TextOf(after), SkipWs(close[1..]));
  }

  lemma JoinBody(open: string, text: string, close: string, after: string, rest: string)
    requires At(open, 0) == '(' && open[1..] == text + close && At(close, 0) == ')' && close[1..] == after + rest
    ensures close == ")" + (after + rest) && open == "(" + (text + (")" + (after + rest)))
  {
    assert close == ")" + close[1..] && open == "(" + open[1..];
  }

  /** The part from AS on. */
  lemma AsSplit(p: string) returns (as_: string, gap2: seq<Lexeme>)
    requires KwAt(p, "as") && SkipWs(p[2..]) != ""
    ensures p == as_ + (TextOf(gap2) + SkipWs(p[2..])) && WordThen(as_, "as", TextOf(gap2) + SkipWs(p[2..]))
    ensures AllGaps(gap2)
  {
    as_ := WordSplit(p, "as");
    gap2 := GapSplit(p[2..]);
  }

  lemma ColumnPartSplit(p: string, text: string) returns (columns: Option<(Columns, seq<Lexeme>)>)
    requires text != "" && (if At(p, 0) == '(' then AfterColumns(p) else Open(p)) == Open(text)
    ensures columns.None? ==> p == text
    ensures columns.Some? ==>
              p == "(" + ColumnsText(columns.value.0, TextOf(columns.value.1) + text)
              && ColumnsOk(columns.value.0, TextOf(columns.value.1) + text) && AllGaps(columns.value.1)
  {
    if At(p, 0) == '(' {
      var c := ColumnsSplit(p[1..]);
      var rest := ColumnsEnd(p[1..]).value[1..];
      var gap := GapSplit(rest);
      columns := Some((c, gap));
      assert p == "(" + p[1..];
    } else {
      columns := None;
    }
  }

  lemma ItemSplit(p: string) returns (it: Item)
    requires CteHead(p).Open? && MatchParen(CteHead(p).text, 0).Some?
    requires SkipWs(MatchParen(CteHead(p).text, 0).value[1..]) != ""
    ensures var open := CteHead(p).text;
            var close := MatchParen(open, 0).value;
            var rest := SkipWs(close[1..]);
            ItemOk(it, rest) && p == ItemText(it, rest) && TextOf(it.body) == open[1..|open| - |close|]
    ensures SkipWs(p) == p ==> it.before == []
  {
    HeadParts(p);
    var before, name, gap := NameInGaps(p);
    var a := AfterName(p);
    var text := (if At(a, 0) == '(' then AfterColumns(a) else Open(a)).text;
    var columns := ColumnPartSplit(a, text);
    var as_, gap2 := AsSplit(text);
    var open := CteHead(p).text;
    var body, tail := BodyPartSplit(open);
    it := Item(before, name, gap, columns, as_, gap2, body, tail);
    var rest := SkipWs(MatchParen(open, 0).value[1..]);
    JoinAs(it, text, open, rest);
    JoinItem(it, p, a, text, rest);
  }

  function AfterName(p: string): string
    requires ScanIdent(SkipWs(p)).Some?
  {
    SkipWs(ScanIdent(SkipWs(p)).value)
  }

  lemma HeadParts(p: string)
    requires CteHead(p).Open?
    ensures ScanIdent(SkipWs(p)).Some? && AfterName(p) != ""
    ensures var a := AfterName(p);
            var head := if At(a, 0) == '(' then AfterColumns(a) else Open(a);
            head.Open? && head.text != "" && KwAt(head.text, "as") && SkipWs(head.text[2..]) == CteHead(p).text
            && CteHead(p).text != ""
  {
  }

  lemma JoinAs(it: Item, text: string, open: string, rest: string)
    requires open == BodyText(it, rest) && BodyOk(it, rest) && AllGaps(it.gap2)
    requires text == it.as_ + (TextOf(it.gap2) + open) && WordThen(it.as_, "as", TextOf(it.gap2) + open)
    ensures text == AsText(it, rest) && AsOk(it, rest)
  {
  }

  lemma JoinItem(it: Item, p: string, a: string, text: string, rest: string)
    requires text == AsText(it, rest) && AsOk(it, rest) && AllGaps(it.before) && AllGaps(it.gap)
    requires it.columns.None? ==> a == text
    requires it.columns.Some? ==>
               a == "(" + ColumnsText(it.columns.value.0, TextOf(it.columns.value.1) + text)
               && ColumnsOk(it.columns.value.0, TextOf(it.columns.value.1) + text) && AllGaps(it.columns.value.1)
    requires p == TextOf(it.before) + (it.name + (TextOf(it.gap) + a)) && NameThen(it.name, TextOf(it.gap) + a)
    ensures ItemOk(it, rest) && p == ItemText(it, rest)
  {
  }

  /** A list that is read was written so. */
  lemma {:induction false} ListSplit(p: string) returns (items: seq<Item>)
    requires CteList(p, false).Ctes? && CteList(p, false).tail != ""
    ensures var list := CteList(p, false);
            items != [] && ItemsOk(items, list.tail) && Starts(list.tail) && p == ListText(items, list.tail)
            && list.bodies == Bodies(items)
    ensures SkipWs(p) == p ==> items[0].before == []
    decreases |p|
  {
    ListStep(p);
    var close := MatchParen(CteHead(p).text, 0).value;
    var after := SkipWs(close[1..]);
    var tail := CteList(p, false).tail;
    var it := ItemSplit(p);
    if At(after, 0) == ',' {
      PushTail(TextOf(it.body), CteList(after[1..], false));
      var more := ListSplit(after[1..]);
      items := [it] + more;
      assert after == "," + after[1..];
      ItemsCons(it, more, tail);
    } else {
      items := [it];
      var gap := GapSplit(close[1..]);
      StartsStays(tail);
      ItemsOne(it, tail);
    }
  }

  lemma PushTail(body: string, list: Ctes)
    ensures Push(body, list).Ctes? ==>
              list.Ctes? && Push(body, list).tail == list.tail && Push(body, list).bodies == [body] + list.bodies
  {
  }

  lemma ItemsCons(it: Item, more: seq<Item>, tail: string)
    requires more != []
    ensures var items := [it] + more;
            var rest := "," + ListText(more, tail);
            ListText(items, tail) == ItemText(it, rest) && Bodies(items) == [TextOf(it.body)] + Bodies(more)
            && (ItemsOk(items, tail) <==> ItemOk(it, rest) && ItemsOk(more, tail))
  {
    assert ([it] + more)[1..] == more;
  }

  lemma ItemsOne(it: Item, tail: string)
    ensures ListText([it], tail) == ItemText(it, tail) && Bodies([it]) == [TextOf(it.body)]
    ensures ItemsOk([it], tail) <==> ItemOk(it, tail)
  {
    assert [it][1..] == [] && Bodies([it]) == [TextOf(it.body)] + Bodies([]);
  }

  // ---- WITH statements -------------------------------------------------

  /** WITH [RECURSIVE] list, and the statement behind it. */
  datatype With = With(with_: string, gap: seq<Lexeme>, recursive: Option<(string, seq<Lexeme>)>, items: seq<Item>,
                       tail: string)

  function RecursiveText(w: With): string
    requires w.items != []
  {
    var list := ListText(w.items, w.tail);
    if w.recursive.None? then list else w.recursive.value.0 + (TextOf(w.recursive.value.1) + list)
  }

  function WithText(w: With): string
    requires w.items != []
  {
    w.with_ + (TextOf(w.gap) + RecursiveText(w))
  }

  predicate RecursiveOk(w: With)
    requires w.items != []
  {
    if w.recursive.None? then !Spells(w.items[0].name, "recursive")
    else WordThen(w.recursive.value.0, "recursive", TextOf(w.recursive.value.1) + ListText(w.items, w.tail))
         && AllGaps(w.recursive.value.1)
  }

  predicate WithOk(w: With) {
    w.items != [] && ItemsOk(w.items, w.tail) && Starts(w.tail) && w.items[0].before == []
    && WordThen(w.with_, "with", TextOf(w.gap) + RecursiveText(w)) && AllGaps(w.gap) && RecursiveOk(w)
  }

  /** All bodies are read-only queries. */
  predicate OnlyReads(items: seq<Item>) {
    forall i :: 0 <= i < |items| ==> ReadOnly(Tokens(items[i].body))
  }

  lemma ListStarts(items: seq<Item>, tail: string)
    requires items != [] && ItemsOk(items, tail) && items[0].before == []
    ensures var p := ListText(items, tail);
            SkipWs(p) == p && (KwAt(p, "recursive") <==> Spells(items[0].name, "recursive"))
  {
    var it, rest := items[0], AfterItem(items, tail);
    var more := TextOf(it.gap) + ColumnPart(it, rest);
    assert ListText(items, tail) == it.name + more;
    NameStays(it.name, more);
    NameIsWord(it.name, more, "recursive");
  }

  lemma NameIsWord(name: string, more: string, w: string)
    requires NameThen(name, more) && IdentWord(w)
    ensures KwAt(name + more, w) <==> Spells(name, w)
  {
    var p := name + more;
    KwIsWord(p, w);
    if IdentWord(name) {
      IdentJoin(name, more);
      TokenText(p, name, more);
    } else {
      assert p[0] == name[0] == '"' && SkipIdent(p) == p && p[..0] == "";
      assert LowerAll(name)[0] == '"';
    }
  }

  lemma AfterWithReads(w: With)
    requires WithOk(w)
    ensures KwAt(WithText(w), "with") && AfterWith(WithText(w)) == ListText(w.items, w.tail)
  {
    var list := ListText(w.items, w.tail);
    WordJoin(w.with_, "with", TextOf(w.gap) + RecursiveText(w));
    ListStarts(w.items, w.tail);
    GapReads(w.gap, RecursiveText(w));
    if w.recursive.Some? {
      var more := TextOf(w.recursive.value.1) + list;
      WordJoin(w.recursive.value.0, "recursive", more);
      assert Lower(RecursiveText(w)[0]) == 'r';
      GapReads(w.recursive.value.1, list);
    }
  }

  lemma {:induction false} BodiesGood(items: seq<Item>, tail: string)
    requires ItemsOk(items, tail)
    ensures AllReadOnly(Bodies(items)) <==> OnlyReads(items)
  {
    if items != [] {
      BodiesGood(items[1..], tail);
      AllReadOnlyCons(TextOf(items[0].body), Bodies(items[1..]));
      WrittenAlone(items[0].body, ")" + (TextOf(items[0].after) + AfterItem(items, tail)));
      LexReads(items[0].body);
      assert forall i :: 0 < i < |items| ==> items[i] == items[1..][i - 1];
      assert forall i :: 0 <= i < |items| - 1 ==> items[1..][i] == items[i + 1];
    }
  }

  lemma NothingRead()
    ensures CteList("", false).BadList?
  {
    assert SkipWs("") == "" && ScanIdent("").None?;
  }

  lemma WithSplit(b: string) returns (w: With)
    requires KwAt(b, "with")
    requires var list := CteList(AfterWith(b), false);
             list.Ctes? && list.tail != ""
    ensures WithOk(w) && b == WithText(w)
    ensures var list := CteList(AfterWith(b), false);
            w.tail == list.tail && Bodies(w.items) == list.bodies
  {
    var list := CteList(AfterWith(b), false);
    var p := SkipWs(b[4..]);
    if AfterWith(b) == "" {
      NothingRead();
      assert false;
    }
    var with_ := WordSplit(b, "with");
    var gap := GapSplit(b[4..]);
    var q := AfterWith(b);
    var recursive: Option<(string, seq<Lexeme>)> := None;
    if KwAt(p, "recursive") {
      var word := WordSplit(p, "recursive");
      var gap' := GapSplit(p[9..]);
      recursive := Some((word, gap'));
    }
    var items := ListSplit(q);
    w := With(with_, gap, recursive, items, list.tail);
    ListStarts(items, list.tail);
  }

  ghost predicate IsWith(b: string, w: With) {
    WithOk(w) && b == WithText(w)
  }

  /** The guard accepts a WITH statement exactly when it can be written as WITH [RECURSIVE] and a
      list of name [(columns)] AS (body) whose bodies are balanced, read-only queries, with an
      acceptable INSERT, UPDATE or DELETE behind it. */
  lemma AcceptedWithText(b: string)
    requires KwAt(b, "with")
    ensures ValidateCte(b) == Accept <==> exists w :: IsWith(b, w) && OnlyReads(w.items) && GoodTail(w.tail)
  {
    AcceptedWith(b);
    if ValidateCte(b) == Accept {
      var w := WithSplit(b);
      BodiesGood(w.items, w.tail);
      assert IsWith(b, w);
    }
    if w :| IsWith(b, w) && OnlyReads(w.items) && GoodTail(w.tail) {
      AfterWithReads(w);
      ListReads(w.items, w.tail);
      BodiesGood(w.items, w.tail);
    }
  }

  // ---- what stands before the statement --------------------------------

  function Notes(xs: seq<Lexeme>): nat {
    if xs == [] then 0 else (if xs[0].White? then 0 else 1) + Notes(xs[1..])
  }

  lemma {:induction false} BlanksGo(p: string)
    ensures !Blank(At(SkipBlank(p), 0)) && SkipBlank(SkipBlank(p)) == SkipBlank(p)
  {
    if Blank(At(p, 0)) {
      BlanksGo(p[1..]);
    }
  }

  /** Fewer than `k` comments before a statement are stripped, with the blanks around them. */
  lemma {:induction false} LeadStripped(xs: seq<Lexeme>, b: string, k: nat)
    requires AllGaps(xs) && Notes(xs) < k && Starts(b)
    ensures StripComments(TextOf(xs) + b, k) == b
    decreases |xs|
  {
    if xs == [] {
      assert TextOf(xs) + b == b;
      StartsStays(b);
    } else {
      var more := TextOf(xs[1..]) + b;
      Cat3(Written(xs[0]), TextOf(xs[1..]), b);
      StripOne(xs[0], more, k);
      LeadStripped(xs[1..], b, if xs[0].White? then k else k - 1);
    }
  }

  lemma StripOne(x: Lexeme, more: string, k: nat)
    requires LexemeOk(x) && (x.White? || x.LineNote? || x.BlockNote?) && k > 0
    ensures StripComments(Written(x) + more, k) == StripComments(more, if x.White? then k else k - 1)
  {
    var p := Written(x) + more;
    if x.White? {
      assert p[1..] == more;
    } else {
      CommentReads(x, more);
      assert SkipBlank(p) == p;
    }
  }

  /** The rules are applied to the statement without what stands before it. */
  lemma GuardedReads(xs: seq<Lexeme>, b: string, n: nat)
    requires AllGaps(xs) && Notes(xs) < 64 && Starts(b) && |b| < n
    ensures Guarded(TextOf(xs) + b, n) == b
  {
    var p := TextOf(xs) + b;
    LeadStripped(xs, b, MAX_COMMENTS);
    BlanksGo(p);
    assert StripComments(SkipBlank(p), MAX_COMMENTS) == StripComments(p, MAX_COMMENTS);
    StartsStays(b);
  }

  lemma {:induction false} OneStatementMeans(p: string)
    ensures OneStatement(p) <==> SkipBlank(p) != "" && ';' !in p[..|p| - 1]
  {
    if Blank(At(p, 0)) {
      OneStatementMeans(p[1..]);
      if |p| > 1 {
        assert p[..|p| - 1] == [p[0]] + p[1..][..|p[1..]| - 1];
      }
    }
  }

  /** What the guard accepts, whatever blanks and comments stand before it: one statement that is a
      WITH statement as above, or a bare one. */
  lemma AcceptedText(xs: seq<Lexeme>, b: string, n: nat)
    requires AllGaps(xs) && Notes(xs) < 64 && Starts(b) && 0 < |b| < n
    ensures var sql := TextOf(xs) + b;
            ValidateWrite(sql, n) == Accept <==>
              ';' !in sql[..|sql| - 1]
              && if KwAt(b, "with") then exists w :: IsWith(b, w) && OnlyReads(w.items) && GoodTail(w.tail)
                 else
                   !Mentions(b, "portfolio")
                   && ((WriteVerb(b) && (NeedsWhere(b) ==> HasWord(b, "where")))
                       || CreatesTable(b)
                       || AltersByAdding(b))
  {
    var sql := TextOf(xs) + b;
    GuardedReads(xs, b, n);
    AcceptedWrite(sql, n);
    OneStatementMeans(sql);
    NotBlank(sql, b);
    if KwAt(b, "with") {
      AcceptedWithText(b);
      AcceptedWith(b);
    }
  }

  lemma {:induction false} NotBlank(p: string, b: string)
    requires b != "" && Starts(b) && Suffix(b, p)
    ensures SkipBlank(p) != ""
    decreases |p|
  {
    if Blank(At(p, 0)) && |p| > |b| {
      NotBlank(p[1..], b);
    }
  }
}
