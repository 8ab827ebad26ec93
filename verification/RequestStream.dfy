/** Splitting a byte stream into requests by Content-Length (sections 6.3 and 9.3.2 of
    RFC 9112): the reference the connection loops are measured against. */
module RequestStream {
  import opened CText

  /** What the parser and the checks before the body decide about one header block. */
  datatype Verdict = Refuse | Malformed | Serve(length: nat)

  datatype Request = Request(header: string, body: string)

  /** A header block ends at `h`, just past an empty line. */
  predicate Ends(s: string, h: int) {
    4 <= h <= |s| && s[h - 4] == '\r' && s[h - 3] == '\n' && s[h - 2] == '\r' && s[h - 1] == '\n'
  }

  function HeaderFrom(s: string, h: nat): (r: Option<nat>)
    ensures r.Some? ==> h <= r.value && Ends(s, r.value) && forall j :: h <= j < r.value ==> !Ends(s, j)
    ensures r.None? ==> forall j :: h <= j ==> !Ends(s, j)
    decreases |s| - h
  {
    if h > |s| then None else if Ends(s, h) then Some(h) else HeaderFrom(s, h + 1)
  }

  /** The length of the first header block, its empty line included. */
  function HeaderLen(s: string): (r: Option<nat>)
    ensures r.Some? ==> Ends(s, r.value) && forall j :: j < r.value ==> !Ends(s, j)
    ensures r.None? ==> forall j :: !Ends(s, j)
  {
    HeaderFrom(s, 0)
  }

  /** The requests a stream holds, up to the first block that is refused or incomplete. */
  function Split(plan: string -> Verdict, s: string): seq<Request>
    decreases |s|
  {
    var h := HeaderLen(s);
    if h.None? then [] else
    var v := plan(s[..h.value]);
    if !v.Serve? || |s| < h.value + v.length then []
    else [Request(s[..h.value], s[h.value..h.value + v.length])] + Split(plan, s[h.value + v.length..])
  }

  function Bytes(r: Request): string {
    r.header + r.body
  }

  function Wire(rs: seq<Request>): string {
    if rs == [] then "" else Bytes(rs[0]) + Wire(rs[1..])
  }

  lemma HeaderIs(s: string, h: nat)
    requires Ends(s, h) && forall j :: j < h ==> !Ends(s, j)
    ensures HeaderLen(s) == Some(h)
  {
  }

  /** More bytes never move the end of a header block that is already there. */
  lemma HeaderGrows(s: string, longer: string)
    requires HeaderLen(s).Some? && s <= longer
    ensures HeaderLen(longer) == HeaderLen(s)
  {
    assert forall j :: j <= |s| ==> Ends(longer, j) == Ends(s, j);
    HeaderIs(longer, HeaderLen(s).value);
  }

  lemma {:induction false} WireSnoc(rs: seq<Request>, r: Request)
    ensures Wire(rs + [r]) == Wire(rs) + Bytes(r)
  {
    if rs == [] {
      assert rs + [r] == [r] && Wire([r]) == Bytes(r) + Wire([]);
    } else {
      assert (rs + [r])[0] == rs[0] && (rs + [r])[1..] == rs[1..] + [r];
      WireSnoc(rs[1..], r);
      Cat3(Bytes(rs[0]), Wire(rs[1..]), Bytes(r));
    }
  }

  /** `done` has been dealt with, `left` is still to come, and nothing else is in the stream. */
  ghost predicate Accounted(plan: string -> Verdict, stream: string, done: seq<Request>, left: string) {
    stream == Wire(done) + left && Split(plan, stream) == done + Split(plan, left)
  }

  /** Taking one whole request off the front of what is left. */
  lemma TakeOne(plan: string -> Verdict, stream: string, done: seq<Request>, left: string, h: nat, n: nat)
    requires Accounted(plan, stream, done, left)
    requires HeaderLen(left) == Some(h) && plan(left[..h]) == Serve(n) && h + n <= |left|
    ensures Accounted(plan, stream, done + [Request(left[..h], left[h..h + n])], left[h + n..])
  {
    var r := Request(left[..h], left[h..h + n]);
    WireSnoc(done, r);
    assert left == Bytes(r) + left[h + n..];
    Cat3(Wire(done), Bytes(r), left[h + n..]);
    SnocPrepend(done, r, Split(plan, left[h + n..]));
  }

  lemma SnocPrepend(done: seq<Request>, r: Request, rest: seq<Request>)
    ensures done + ([r] + rest) == done + [r] + rest
  {
  }

  predicate Framed(plan: string -> Verdict, r: Request) {
    HeaderLen(r.header) == Some(|r.header|) && plan(r.header) == Serve(|r.body|)
  }

  lemma SplitCons(plan: string -> Verdict, r: Request, rest: string)
    requires Framed(plan, r)
    ensures Split(plan, Bytes(r) + rest) == [r] + Split(plan, rest)
  {
    var h, n, tail := |r.header|, |r.body|, r.body + rest;
    var s := r.header + tail;
    HeaderGrows(r.header, s);
    Cat3(r.header, r.body, rest);
    Parts(r.header, r.body, rest);
  }

  lemma Parts(a: string, b: string, c: string)
    ensures var s := a + (b + c);
            s[..|a|] == a && s[|a|..|a| + |b|] == b && s[|a| + |b|..] == c
  {
  }

  /** Splitting undoes writing requests one after the other. */
  lemma {:induction false} SplitWire(plan: string -> Verdict, rs: seq<Request>)
    requires forall i :: 0 <= i < |rs| ==> Framed(plan, rs[i])
    ensures Split(plan, Wire(rs)) == rs
  {
    if rs != [] {
      assert forall i :: 0 <= i < |rs[1..]| ==> rs[1..][i] == rs[i + 1];
      SplitWire(plan, rs[1..]);
      SplitCons(plan, rs[0], Wire(rs[1..]));
    }
  }

  /** Splitting loses nothing: the requests are the front of the stream, byte for byte. */
  lemma {:induction false} WireSplit(plan: string -> Verdict, s: string)
    ensures Wire(Split(plan, s)) <= s
    ensures forall r :: r in Split(plan, s) ==> Framed(plan, r)
    decreases |s|
  {
    var h := HeaderLen(s);
    if h.Some? {
      var v := plan(s[..h.value]);
      if v.Serve? && h.value + v.length <= |s| {
        var r := Request(s[..h.value], s[h.value..h.value + v.length]);
        var rest := s[h.value + v.length..];
        WireSplit(plan, rest);
        assert s == Bytes(r) + rest;
        WireCons(r, Split(plan, rest), rest);
      }
    }
    SplitFramed(plan, s);
  }

  lemma {:induction false} SplitFramed(plan: string -> Verdict, s: string)
    ensures forall r :: r in Split(plan, s) ==> Framed(plan, r)
    decreases |s|
  {
    var h := HeaderLen(s);
    if h.Some? {
      var v := plan(s[..h.value]);
      if v.Serve? && h.value + v.length <= |s| {
        SplitFramed(plan, s[h.value + v.length..]);
        HeaderOfItself(s, h.value);
      }
    }
  }

  lemma WireCons(r: Request, more: seq<Request>, rest: string)
    requires Wire(more) <= rest
    ensures Wire([r] + more) <= Bytes(r) + rest
  {
    assert ([r] + more)[1..] == more;
  }

  lemma HeaderOfItself(s: string, h: nat)
    requires HeaderLen(s) == Some(h)
    ensures HeaderLen(s[..h]) == Some(h)
  {
    assert forall j :: j <= h ==> Ends(s[..h], j) == Ends(s, j);
    HeaderIs(s[..h], h);
  }
}
