/** Reassembling lines from read() chunks in `agent_round` of src/agent/agent.c. */
module Lines {
  import opened CText

  const AGENT_LINE_MAX: nat := 65536

  /** A stream byte, marked when it is the first of its chunk. */
  datatype Byte = Byte(c: char, first: bool)

  function Mark(chunk: string, first: bool): (r: seq<Byte>)
    ensures |r| == |chunk|
  {
    if chunk == "" then [] else [Byte(chunk[0], first)] + Mark(chunk[1..], false)
  }

  function Marked(chunks: seq<string>): seq<Byte> {
    if chunks == [] then [] else Mark(chunks[0], true) + Marked(chunks[1..])
  }

  /** A terminated line is handed on unless it is empty or over-long. A line of exactly
      AGENT_LINE_MAX bytes counts as over-long when its newline opens a chunk. */
  predicate Kept(line: string, newlineFirst: bool) {
    line != "" && (|line| < AGENT_LINE_MAX || (|line| == AGENT_LINE_MAX && !newlineFirst))
  }

  predicate KeptLast(line: string) {
    0 < |line| <= AGENT_LINE_MAX
  }

  /** The reference: the kept lines of a marked stream whose current line so far is `cur`. */
  function LinesOf(s: seq<Byte>, cur: string): seq<string> {
    if s == [] then if KeptLast(cur) then [cur] else []
    else if s[0].c == '\n' then (if Kept(cur, s[0].first) then [cur] else []) + LinesOf(s[1..], "")
    else LinesOf(s[1..], cur + [s[0].c])
  }

  /** The lines through the first one after which the reader stops. `stop` judges all lines handed
      on so far, so it can stand for the end marker and for a client that has gone away. */
  function UpTo(stop: seq<string> -> bool, handed: seq<string>, ls: seq<string>): seq<string>
    decreases |ls|
  {
    if ls == [] then [] else
    var next := handed + [ls[0]];
    [ls[0]] + (if stop(next) then [] else UpTo(stop, next, ls[1..]))
  }

  // ---- the read loop ---------------------------------------------------

  /** `line_buf_append`. */
  method LineBufAppend(line: string, seg: string, ovf: bool) returns (line': string, ovf': bool)
    ensures line' == (if |line| >= AGENT_LINE_MAX then line else Take(line + seg, AGENT_LINE_MAX))
    ensures ovf' == (ovf || |line| >= AGENT_LINE_MAX || |line| + |seg| > AGENT_LINE_MAX)
  {
    if |line| >= AGENT_LINE_MAX {
      return line, true;
    }
    var n := |seg|;
    ovf' := ovf;
    if n > AGENT_LINE_MAX - |line| {
      n := AGENT_LINE_MAX - |line|;
      ovf' := true;
    }
    assert (line + seg)[..|line| + n] == line + seg[..n];
    line' := line + seg[..n];
  }

  /** The buffer holds the front of the current line and knows whether more was dropped. */
  ghost predicate Holds(line: string, ovf: bool, cur: string) {
    line == Take(cur, AGENT_LINE_MAX) && (ovf <==> |cur| > AGENT_LINE_MAX)
  }

  function Newline(c: string): (r: nat)
    ensures r <= |c| && '\n' !in c[..r] && (r < |c| ==> c[r] == '\n')
  {
    if c == "" || c[0] == '\n' then 0
    else
      var r := 1 + Newline(c[1..]);
      assert c[..r] == [c[0]] + c[1..][..r - 1];
      r
  }

  lemma {:induction false} Through(seg: string, first: bool, rest: seq<Byte>, tail: string, cur: string)
    requires '\n' !in seg
    ensures LinesOf(Mark(seg + tail, first) + rest, cur)
            == LinesOf(Mark(tail, first && seg == "") + rest, cur + seg)
    decreases |seg|
  {
    if seg == "" {
      assert seg + tail == tail && cur + seg == cur;
    } else {
      assert (seg + tail)[0] == seg[0] && (seg + tail)[1..] == seg[1..] + tail;
      var s := Mark(seg + tail, first) + rest;
      assert s[0] == Byte(seg[0], first) && s[1..] == Mark(seg[1..] + tail, false) + rest;
      Through(seg[1..], false, rest, tail, cur + [seg[0]]);
      assert cur + [seg[0]] + seg[1..] == cur + seg;
    }
  }

  /** The stream from a newline on. */
  lemma AtNewline(tail: string, first: bool, rest: seq<Byte>, cur: string)
    requires tail != "" && tail[0] == '\n'
    ensures LinesOf(Mark(tail, first) + rest, cur)
            == (if Kept(cur, first) then [cur] else []) + LinesOf(Mark(tail[1..], false) + rest, "")
  {
    var s := Mark(tail, first) + rest;
    assert s[0] == Byte('\n', first) && s[1..] == Mark(tail[1..], false) + rest;
  }

  /** A newline hands on the line before it, or drops it. */
  lemma LineEnds(stop: seq<string> -> bool, handed: seq<string>, tail: string, first: bool, rest: seq<Byte>, cur: string)
    requires tail != "" && tail[0] == '\n'
    ensures var all := handed + UpTo(stop, handed, LinesOf(Mark(tail, first) + rest, cur));
            var more := LinesOf(Mark(tail[1..], false) + rest, "");
            if !Kept(cur, first) then all == handed + UpTo(stop, handed, more)
            else if stop(handed + [cur]) then all == handed + [cur]
            else all == handed + [cur] + UpTo(stop, handed + [cur], more)
  {
    var more := LinesOf(Mark(tail[1..], false) + rest, "");
    AtNewline(tail, first, rest, cur);
    if Kept(cur, first) {
      UpToStep(stop, handed, cur, more);
      assert handed + [cur] + [] == handed + [cur];
    } else {
      assert [] + more == more;
    }
  }

  lemma UpToStep(stop: seq<string> -> bool, handed: seq<string>, line: string, ls: seq<string>)
    ensures handed + UpTo(stop, handed, [line] + ls)
            == handed + [line] + (if stop(handed + [line]) then [] else UpTo(stop, handed + [line], ls))
  {
    assert ([line] + ls)[1..] == ls;
  }

  /** One chunk; `stopped` once a line has ended the stream. */
  method FeedChunk(stop: seq<string> -> bool, chunk: string, handed: seq<string>, line: string, ovf: bool,
                   ghost cur: string, ghost rest: seq<Byte>, ghost all: seq<string>)
    returns (handed': seq<string>, line': string, ovf': bool, ghost cur': string, stopped: bool)
    requires Holds(line, ovf, cur)
    requires all == handed + UpTo(stop, handed, LinesOf(Mark(chunk, true) + rest, cur))
    ensures stopped ==> handed' == all
    ensures !stopped ==> Holds(line', ovf', cur') && all == handed' + UpTo(stop, handed', LinesOf(rest, cur'))
  {
    handed', line', ovf', cur', stopped := handed, line, ovf, cur, false;
    var left := chunk;
    ghost var first := true;
    while left != ""
      invariant Holds(line', ovf', cur') && (!first ==> cur' == "")
      invariant all == handed' + UpTo(stop, handed', LinesOf(Mark(left, first) + rest, cur'))
      decreases |left|
    {
      var nl := Newline(left);
      var seg := left[..nl];
      ghost var tail := left[nl..];
      assert left == seg + tail;
      Through(seg, first, rest, tail, cur');
      line', ovf' := LineBufAppend(line', seg, ovf');
      ghost var whole := cur' + seg;
      if nl == |left| {
        cur' := whole;
        assert Mark(tail, first && seg == "") + rest == rest;
        return;
      }
      ghost var opens := first && seg == "";
      LineEnds(stop, handed', tail, opens, rest, whole);
      if line' != "" && !ovf' {
        assert line' == whole && Kept(whole, opens);
        handed' := handed' + [line'];
        if stop(handed') {
          return handed', "", false, "", true;
        }
      } else {
        assert !Kept(whole, opens);
      }
      line', ovf', cur', first := "", false, "", false;
      left := left[nl + 1..];
    }
    assert Mark(left, first) + rest == rest;
  }

  /** The whole loop: for every way read() cuts the stream, the handler gets exactly the kept
      lines, in order, through the one that ends the stream. */
  method ReadLines(stop: seq<string> -> bool, chunks: seq<string>) returns (handed: seq<string>)
    requires forall i :: 0 <= i < |chunks| ==> chunks[i] != ""
    ensures handed == UpTo(stop, [], LinesOf(Marked(chunks), ""))
  {
    handed := [];
    var line, ovf, i := "", false, 0;
    ghost var cur := "";
    ghost var all := UpTo(stop, [], LinesOf(Marked(chunks), ""));
    assert chunks[0..] == chunks && [] + all == all;
    while i < |chunks|
      invariant 0 <= i <= |chunks| && Holds(line, ovf, cur)
      invariant all == handed + UpTo(stop, handed, LinesOf(Marked(chunks[i..]), cur))
    {
      assert chunks[i..][0] == chunks[i] && chunks[i..][1..] == chunks[i + 1..];
      var stopped;
      handed, line, ovf, cur, stopped :=
        FeedChunk(stop, chunks[i], handed, line, ovf, cur, Marked(chunks[i + 1..]), all);
      if stopped {
        return;
      }
      i := i + 1;
    }
    assert chunks[i..] == [];
    if line != "" && !ovf {
      UpToStep(stop, handed, line, []);
      handed := handed + [line];
    }
  }

  // ---- when the chunking does not matter -------------------------------

  function Text(s: seq<Byte>): (r: string)
    ensures |r| == |s|
  {
    if s == [] then "" else [s[0].c] + Text(s[1..])
  }

  /** The bytes of all chunks together. */
  function Joined(chunks: seq<string>): string {
    if chunks == [] then "" else chunks[0] + Joined(chunks[1..])
  }

  /** The newline split of `cur + s`, where `cur` has no newline; the last piece is unterminated. */
  function Split(s: string, cur: string): (r: seq<string>)
    ensures r != []
    decreases |s|
  {
    if s == "" then [cur]
    else if s[0] == '\n' then [cur] + Split(s[1..], "")
    else Split(s[1..], cur + [s[0]])
  }

  /** Without the empty and over-long pieces. */
  function Fitting(ls: seq<string>): seq<string> {
    if ls == [] then [] else (if KeptLast(ls[0]) then [ls[0]] else []) + Fitting(ls[1..])
  }

  /** The line that the byte at `n` ends, when `cur` came before `s`. */
  function LineBefore(s: seq<Byte>, cur: string, n: nat): string
    requires n < |s|
    decreases n
  {
    if n == 0 then cur
    else LineBefore(s[1..], if s[0].c == '\n' then "" else cur + [s[0].c], n - 1)
  }

  /** The newline at `n` opens a chunk and ends a line of exactly AGENT_LINE_MAX bytes. */
  predicate CutAt(s: seq<Byte>, cur: string, n: nat)
    requires n < |s|
  {
    s[n] == Byte('\n', true) && |LineBefore(s, cur, n)| == AGENT_LINE_MAX
  }

  predicate Cut(s: seq<Byte>, cur: string) {
    exists n: nat :: n < |s| && CutAt(s, cur, n)
  }

  lemma CutStep(s: seq<Byte>, cur: string)
    requires s != []
    ensures var next := if s[0].c == '\n' then "" else cur + [s[0].c];
            Cut(s, cur) <==> CutAt(s, cur, 0) || Cut(s[1..], next)
  {
    var next := if s[0].c == '\n' then "" else cur + [s[0].c];
    forall n: nat | 0 < n < |s|
      ensures CutAt(s, cur, n) <==> CutAt(s[1..], next, n - 1)
    {
      assert s[1..][n - 1] == s[n];
    }
    if Cut(s[1..], next) {
      var n: nat :| n < |s[1..]| && CutAt(s[1..], next, n);
      assert CutAt(s, cur, n + 1);
    }
  }

  lemma FittingCons(line: string, ls: seq<string>)
    ensures Fitting([line] + ls) == (if KeptLast(line) then [line] else []) + Fitting(ls)
  {
    assert ([line] + ls)[1..] == ls;
  }

  /** The lines handed on are the fitting lines of the newline split if and only if no newline
      that opens a chunk ends a line of exactly AGENT_LINE_MAX bytes; otherwise lines are missing. */
  lemma {:induction false} LinesAreSplit(s: seq<Byte>, cur: string)
    ensures LinesOf(s, cur) == Fitting(Split(Text(s), cur)) <==> !Cut(s, cur)
    ensures |LinesOf(s, cur)| <= |Fitting(Split(Text(s), cur))|
    decreases |s|
  {
    if s == [] {
      FittingCons(cur, []);
      assert [cur] + [] == [cur];
    } else {
      var t := Text(s);
      assert t[0] == s[0].c && t[1..] == Text(s[1..]);
      CutStep(s, cur);
      if s[0].c == '\n' {
        LinesAreSplit(s[1..], "");
        FittingCons(cur, Split(t[1..], ""));
        SameTail(cur, Kept(cur, s[0].first), KeptLast(cur), LinesOf(s[1..], ""), Fitting(Split(t[1..], "")));
      } else {
        LinesAreSplit(s[1..], cur + [s[0].c]);
      }
    }
  }

  lemma SameTail(line: string, a: bool, b: bool, ls: seq<string>, ms: seq<string>)
    requires (a ==> b) && |ls| <= |ms|
    ensures (if a then [line] else []) + ls == (if b then [line] else []) + ms <==> a == b && ls == ms
    ensures |(if a then [line] else []) + ls| <= |(if b then [line] else []) + ms|
  {
    var x, y := (if a then [line] else []) + ls, (if b then [line] else []) + ms;
    if x == y {
      assert a ==> x[1..] == ls && y[1..] == ms;
      assert !b ==> x == ls && y == ms;
    }
  }

  lemma {:induction false} TextOfMark(c: string, first: bool)
    ensures Text(Mark(c, first)) == c
  {
    if c != "" {
      assert Mark(c, first)[1..] == Mark(c[1..], false);
      TextOfMark(c[1..], false);
    }
  }

  lemma {:induction false} TextAppend(a: seq<Byte>, b: seq<Byte>)
    ensures Text(a + b) == Text(a) + Text(b)
  {
    if a == [] {
      assert a + b == b;
    } else {
      assert (a + b)[0] == a[0] && (a + b)[1..] == a[1..] + b;
      TextAppend(a[1..], b);
    }
  }

  lemma {:induction false} TextOfChunks(chunks: seq<string>)
    ensures Text(Marked(chunks)) == Joined(chunks)
  {
    if chunks != [] {
      TextAppend(Mark(chunks[0], true), Marked(chunks[1..]));
      TextOfMark(chunks[0], true);
      TextOfChunks(chunks[1..]);
    }
  }

  /** For every chunking: the lines are the newline split of the whole stream without empty and
      over-long lines, if and only if no chunk opens with the newline of a line of exactly
      AGENT_LINE_MAX bytes. */
  lemma ChunkingDoesNotMatter(chunks: seq<string>)
    ensures LinesOf(Marked(chunks), "") == Fitting(Split(Joined(chunks), "")) <==> !Cut(Marked(chunks), "")
  {
    TextOfChunks(chunks);
    LinesAreSplit(Marked(chunks), "");
  }

  /** In particular when no terminated line has that length, however the bytes are chunked. */
  lemma NoExactLine(chunks: seq<string>)
    requires NoneExact(Split(Joined(chunks), ""))
    ensures LinesOf(Marked(chunks), "") == Fitting(Split(Joined(chunks), ""))
  {
    ChunkingDoesNotMatter(chunks);
    TextOfChunks(chunks);
    var s := Marked(chunks);
    forall n: nat | n < |s| && s[n].c == '\n'
      ensures |LineBefore(s, "", n)| != AGENT_LINE_MAX
    {
      BeforeIsPiece(s, "", n);
    }
  }

  /** No terminated line is exactly AGENT_LINE_MAX bytes. */
  predicate NoneExact(ls: seq<string>) {
    forall i :: 0 <= i < |ls| - 1 ==> |ls[i]| != AGENT_LINE_MAX
  }

  lemma {:induction false} BeforeIsPiece(s: seq<Byte>, cur: string, n: nat)
    requires n < |s| && s[n].c == '\n'
    ensures exists i :: 0 <= i < |Split(Text(s), cur)| - 1 && Split(Text(s), cur)[i] == LineBefore(s, cur, n)
    decreases n
  {
    var t := Text(s);
    var ls := Split(t, cur);
    assert t[0] == s[0].c && t[1..] == Text(s[1..]);
    if n == 0 {
      assert ls[0] == cur;
    } else {
      var next := if s[0].c == '\n' then "" else cur + [s[0].c];
      BeforeIsPiece(s[1..], next, n - 1);
      var rest := Split(t[1..], next);
      var i :| 0 <= i < |rest| - 1 && rest[i] == LineBefore(s[1..], next, n - 1);
      if s[0].c == '\n' {
        assert ls[i + 1] == rest[i];
      }
    }
  }

  // ---- when it does ----------------------------------------------------

  lemma {:induction false} LineThenRest(s: seq<Byte>, n: nat, cur: string)
    requires n < |s| && s[n].c == '\n' && forall i :: 0 <= i < n ==> s[i].c != '\n'
    ensures LinesOf(s, cur)
            == (if Kept(cur + Text(s[..n]), s[n].first) then [cur + Text(s[..n])] else []) + LinesOf(s[n + 1..], "")
    decreases n
  {
    if n == 0 {
      assert cur + Text(s[..0]) == cur;
    } else {
      assert s[1..][n - 1] == s[n] && forall i :: 0 <= i < n - 1 ==> s[1..][i] == s[i + 1];
      LineThenRest(s[1..], n - 1, cur + [s[0].c]);
      assert s[..n][1..] == s[1..][..n - 1] && s[1..][n..] == s[n + 1..];
      assert cur + [s[0].c] + Text(s[1..][..n - 1]) == cur + Text(s[..n]);
    }
  }

  /** A terminated line of exactly AGENT_LINE_MAX bytes is handed on if and only if its newline
      is not the first byte of a chunk. */
  lemma ExactLine(s: seq<Byte>, n: nat)
    requires n == AGENT_LINE_MAX < |s| && s[n].c == '\n' && forall i :: 0 <= i < n ==> s[i].c != '\n'
    ensures LinesOf(s, "") == (if s[n].first then [] else [Text(s[..n])]) + LinesOf(s[n + 1..], "")
  {
    LineThenRest(s, n, "");
    assert "" + Text(s[..n]) == Text(s[..n]);
  }

  lemma {:induction false} MarkAt(c: string, first: bool, i: nat)
    requires i < |c|
    ensures Mark(c, first)[i] == Byte(c[i], first && i == 0)
  {
    if i > 0 {
      MarkAt(c[1..], false, i - 1);
    }
  }

  lemma {:induction false} MarkedLength(chunks: seq<string>)
    ensures |Marked(chunks)| == |Joined(chunks)|
  {
    if chunks != [] {
      MarkedLength(chunks[1..]);
    }
  }

  lemma {:induction false} MarkedAppend(a: seq<string>, b: seq<string>)
    ensures Marked(a + b) == Marked(a) + Marked(b) && Joined(a + b) == Joined(a) + Joined(b)
  {
    if a == [] {
      assert a + b == b;
    } else {
      assert (a + b)[0] == a[0] && (a + b)[1..] == a[1..] + b;
      MarkedAppend(a[1..], b);
    }
  }

  lemma {:induction false} TextAt(s: seq<Byte>, i: nat)
    requires i < |s|
    ensures Text(s)[i] == s[i].c
  {
    if i > 0 {
      TextAt(s[1..], i - 1);
    }
  }

  lemma {:induction false} TextTake(s: seq<Byte>, n: nat)
    requires n <= |s|
    ensures Text(s[..n]) == Text(s)[..n]
  {
    if n > 0 {
      assert s[..n][1..] == s[1..][..n - 1];
      TextTake(s[1..], n - 1);
    }
  }

  lemma ExactStream(s: seq<Byte>, x: string)
    requires |x| == AGENT_LINE_MAX && '\n' !in x && Text(s) == x + "\n"
    ensures LinesOf(s, "") == if s[|x|].first then [] else [x]
  {
    forall i | 0 <= i < |s|
      ensures s[i].c == (x + "\n")[i]
    {
      TextAt(s, i);
    }
    ExactLine(s, |x|);
    TextTake(s, |x|);
    assert (x + "\n")[..|x|] == x && s[|x| + 1..] == [];
  }

  /** Where the byte behind `head` and `last` stands in its chunk. */
  lemma NewlineMark(head: seq<string>, last: string)
    requires last != ""
    ensures var n := |Joined(head)| + |last|;
            |Marked(head + [last, "\n"])| == n + 1 && Marked(head + [last, "\n"])[n].first
            && |Marked(head + [last + "\n"])| == n + 1 && !Marked(head + [last + "\n"])[n].first
  {
    MarkedLength(head);
    MarkedAppend(head, [last, "\n"]);
    MarkedAppend(head, [last + "\n"]);
    assert [last, "\n"][1..] == ["\n"];
    assert Marked(["\n"]) == [Byte('\n', true)];
    assert Marked([last, "\n"]) == Mark(last, true) + [Byte('\n', true)];
    MarkAt(last + "\n", true, |last|);
    assert Marked([last + "\n"]) == Mark(last + "\n", true) + Marked([]);
  }

  /** The same bytes, two chunkings: with the newline in a chunk of its own the line is dropped,
      behind the line's last bytes it is handed on. */
  lemma SameBytesDifferentLines(head: seq<string>, last: string)
    requires |Joined(head)| + |last| == AGENT_LINE_MAX && '\n' !in Joined(head) && '\n' !in last && last != ""
    ensures Joined(head + [last, "\n"]) == Joined(head + [last + "\n"])
    ensures LinesOf(Marked(head + [last, "\n"]), "") == []
    ensures LinesOf(Marked(head + [last + "\n"]), "") == [Joined(head) + last]
  {
    var x := Joined(head) + last;
    var a, b := head + [last, "\n"], head + [last + "\n"];
    JoinedTail(head, last);
    TextOfChunks(a);
    TextOfChunks(b);
    NewlineMark(head, last);
    ExactStream(Marked(a), x);
    ExactStream(Marked(b), x);
  }

  lemma JoinedTail(head: seq<string>, last: string)
    ensures Joined(head + [last, "\n"]) == Joined(head) + last + "\n"
    ensures Joined(head + [last + "\n"]) == Joined(head) + last + "\n"
  {
    MarkedAppend(head, [last, "\n"]);
    MarkedAppend(head, [last + "\n"]);
    assert [last, "\n"][1..] == ["\n"] && Joined(["\n"]) == "\n" + Joined([]);
    assert Joined([last + "\n"]) == last + "\n" + Joined([]);
    Cat3(Joined(head), last, "\n");
  }

  // ---- lines that are written ------------------------------------------

  /** Each line with its newline. */
  function Written(ls: seq<string>): string {
    if ls == [] then "" else ls[0] + ("\n" + Written(ls[1..]))
  }

  lemma {:induction false} SplitLine(line: string, rest: string, cur: string)
    requires '\n' !in line
    ensures Split(line + ("\n" + rest), cur) == [cur + line] + Split(rest, "")
    decreases |line|
  {
    var s := line + ("\n" + rest);
    if line == "" {
      assert s == "\n" + rest && s[1..] == rest && cur + line == cur;
    } else {
      assert s[1..] == line[1..] + ("\n" + rest);
      SplitLine(line[1..], rest, cur + [line[0]]);
      assert cur + [line[0]] + line[1..] == cur + line;
    }
  }

  lemma {:induction false} SplitWritten(ls: seq<string>)
    requires forall i :: 0 <= i < |ls| ==> '\n' !in ls[i]
    ensures Split(Written(ls), "") == ls + [""]
  {
    if ls != [] {
      SplitLine(ls[0], Written(ls[1..]), "");
      SplitWritten(ls[1..]);
      assert "" + ls[0] == ls[0];
    }
  }

  /** The fitting lines of two lists are those of the one and then those of the other. */
  lemma {:induction false} FittingAppend(a: seq<string>, b: seq<string>)
    ensures Fitting(a + b) == Fitting(a) + Fitting(b)
    decreases |a|
  {
    if a == [] {
      assert a + b == b;
    } else {
      FittingAppend(a[1..], b);
      assert a + b == [a[0]] + (a[1..] + b);
      FittingCons(a[0], a[1..] + b);
    }
  }

  /** A line is handed on when it has between 1 and 65536 bytes. */
  lemma FittingOne(line: string)
    ensures Fitting([line]) == if 1 <= |line| <= 65536 then [line] else []
  {
    FittingCons(line, []);
    assert [line] + [] == [line];
  }

  lemma {:induction false} AllFit(ls: seq<string>)
    requires forall i :: 0 <= i < |ls| ==> 1 <= |ls[i]| <= 65536
    ensures Fitting(ls + [""]) == ls
  {
    if ls == [] {
      FittingOne("");
      assert [] + [""] == [""];
    } else {
      AllFit(ls[1..]);
      FittingCons(ls[0], ls[1..] + [""]);
      assert ls + [""] == [ls[0]] + (ls[1..] + [""]);
    }
  }

  /** However the text arrives, every line shorter than 65536 bytes is handed on whole and in order. */
  lemma LinesComeBack(chunks: seq<string>, ls: seq<string>)
    requires Joined(chunks) == Written(ls)
    requires forall i :: 0 <= i < |ls| ==> '\n' !in ls[i] && 1 <= |ls[i]| < 65536
    ensures LinesOf(Marked(chunks), "") == ls
  {
    SplitWritten(ls);
    AllFit(ls);
    NoExactLine(chunks);
  }

  /** `u` is the shortest start of `ls` at which the reader has enough, or all of it. */
  predicate Enough(stop: seq<string> -> bool, handed: seq<string>, ls: seq<string>, u: seq<string>) {
    u <= ls && (forall k :: 0 < k < |u| ==> !stop(handed + u[..k])) && (|u| < |ls| ==> u != [] && stop(handed + u))
  }

  lemma {:induction false} UpToMeans(stop: seq<string> -> bool, handed: seq<string>, ls: seq<string>)
    ensures Enough(stop, handed, ls, UpTo(stop, handed, ls))
    decreases |ls|
  {
    if ls != [] {
      var next := handed + [ls[0]];
      UpToMeans(stop, next, ls[1..]);
      if !stop(next) {
        EnoughCons(stop, handed, ls, UpTo(stop, next, ls[1..]));
      } else {
        assert UpTo(stop, handed, ls) == [ls[0]] && handed + UpTo(stop, handed, ls) == next;
      }
    }
  }

  lemma EnoughCons(stop: seq<string> -> bool, handed: seq<string>, ls: seq<string>, v: seq<string>)
    requires ls != [] && !stop(handed + [ls[0]]) && Enough(stop, handed + [ls[0]], ls[1..], v)
    ensures Enough(stop, handed, ls, [ls[0]] + v)
  {
    var next, u := handed + [ls[0]], [ls[0]] + v;
    assert handed + u == next + v;
    assert ls == [ls[0]] + ls[1..];
    forall k | 0 < k < |u|
      ensures !stop(handed + u[..k])
    {
      assert u[..k] == [ls[0]] + v[..k - 1];
      assert handed + u[..k] == next + v[..k - 1];
      assert k == 1 ==> next + v[..0] == next;
    }
  }
}
