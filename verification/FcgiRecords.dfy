/** The records of src/cgi/fastcgi.c (section 3.3 of the FastCGI Specification). */
module FcgiRecords {
  import opened CText
  import opened FcgiParams

  const FCGI_VERSION: byte := 1
  const FCGI_END_REQUEST: byte := 3
  const FCGI_STDOUT: byte := 6
  const FCGI_HEADER_LEN: nat := 8
  const FCGI_PAD: nat := 8
  const MAX_CONTENT: nat := 0xffff

  function Padding(n: nat): (r: nat)
    ensures r < FCGI_PAD && (n + r) % FCGI_PAD == 0
  {
    PadRounds(n);
    (FCGI_PAD - n % FCGI_PAD) % FCGI_PAD
  }

  lemma PadRounds(n: nat)
    ensures (n + (FCGI_PAD - n % FCGI_PAD) % FCGI_PAD) % FCGI_PAD == 0
  {
    var q, m := n / 8, n % 8;
    assert n == 8 * q + m;
    assert m > 0 ==> (8 - m) % 8 == 8 - m && n + (8 - m) == 8 * (q + 1);
  }

  function Zeros(n: nat): (r: seq<byte>)
    ensures |r| == n
  {
    seq(n, _ => 0)
  }

  function Header(kind: byte, id: nat, n: nat): (r: seq<byte>)
    ensures |r| == FCGI_HEADER_LEN
  {
    [FCGI_VERSION, kind, id / 0x100 % 0x100, id % 0x100, n / 0x100 % 0x100, n % 0x100, Padding(n), 0]
  }

  /** `send_frame`: what one record puts on the wire. The length field has 16 bits. */
  function Frame(kind: byte, id: nat, data: seq<byte>): (r: seq<byte>)
    ensures |r| == FCGI_HEADER_LEN + |data| + Padding(|data|)
  {
    Header(kind, id, |data|) + data + Zeros(Padding(|data|))
  }

  /** A response split into records of at most 65535 bytes. */
  function Records(id: nat, d: seq<byte>): seq<byte>
    decreases |d|
  {
    if d == [] then [] else
    var n := Min(|d|, MAX_CONTENT);
    Frame(FCGI_STDOUT, id, d[..n]) + Records(id, d[n..])
  }

  /** What the server writes for a response: its records and the end record. */
  function Response(id: nat, d: seq<byte>): seq<byte> {
    Records(id, d) + EndRecord(id)
  }

  function EndRecord(id: nat): seq<byte> {
    Frame(FCGI_END_REQUEST, id, Zeros(8))
  }

  method SendResponse(id: nat, d: seq<byte>) returns (wire: seq<byte>)
    ensures wire == Response(id, d)
  {
    wire := [];
    var off := 0;
    assert d[0..] == d;
    while off < |d|
      invariant 0 <= off <= |d|
      invariant wire + Records(id, d[off..]) == Records(id, d)
    {
      var chunk := |d| - off;
      if chunk > MAX_CONTENT {
        chunk := MAX_CONTENT;
      }
      assert d[off..][..chunk] == d[off..off + chunk] && d[off..][chunk..] == d[off + chunk..];
      Assoc(wire, Frame(FCGI_STDOUT, id, d[off..off + chunk]), Records(id, d[off + chunk..]));
      wire := wire + Frame(FCGI_STDOUT, id, d[off..off + chunk]);
      off := off + chunk;
    }
    assert d[off..] == [];
    wire := wire + EndRecord(id);
  }

  lemma Assoc(a: seq<byte>, b: seq<byte>, c: seq<byte>)
    ensures a + b + c == a + (b + c)
  {
  }

  // ---- reading ---------------------------------------------------------

  /** One record read off a byte stream. */
  datatype Got = Lost | Unpadded(kind: byte, content: seq<byte>)
    | Record(kind: byte, content: seq<byte>, rest: seq<byte>)

  /** The header and content of a record, then its padding, which may be missing. */
  function ReadFrame(s: seq<byte>): (r: Got)
    ensures r.Record? ==> |r.rest| < |s|
  {
    if |s| < FCGI_HEADER_LEN || s[0] != FCGI_VERSION then Lost else
    var n := (s[4] as int) * 0x100 + s[5] as int;
    var pad := s[6] as int;
    if |s| < FCGI_HEADER_LEN + n then Lost
    else if |s| < FCGI_HEADER_LEN + n + pad then Unpadded(s[1], s[FCGI_HEADER_LEN..FCGI_HEADER_LEN + n])
    else Record(s[1], s[FCGI_HEADER_LEN..FCGI_HEADER_LEN + n], s[FCGI_HEADER_LEN + n + pad..])
  }

  /** Everything the relay forwards, and whether it saw the end record. */
  datatype Relay = Relay(out: seq<byte>, complete: bool)

  function Forward(s: seq<byte>): Relay
    decreases |s|
  {
    match ReadFrame(s)
    case Lost => Relay([], false)
    case Unpadded(kind, content) => Relay(if kind == FCGI_STDOUT then content else [], false)
    case Record(kind, content, rest) =>
      if kind == FCGI_END_REQUEST then Relay([], true)
      else
        var more := Forward(rest);
        if kind == FCGI_STDOUT then Relay(content + more.out, more.complete) else more
  }

  method ForwardStdout(s: seq<byte>) returns (r: Relay)
    ensures r == Forward(s)
  {
    var out, left := [], s;
    while true
      invariant Forward(s) == Relay(out + Forward(left).out, Forward(left).complete)
      decreases |left|
    {
      var frame := ReadFrame(left);
      if frame.Lost? {
        assert out + [] == out;
        return Relay(out, false);
      }
      if frame.Unpadded? {
        assert out + [] == out;
        return Relay(if frame.kind == FCGI_STDOUT then out + frame.content else out, false);
      }
      if frame.kind == FCGI_END_REQUEST {
        assert out + [] == out;
        return Relay(out, true);
      }
      if frame.kind == FCGI_STDOUT {
        Assoc(out, frame.content, Forward(frame.rest).out);
        out := out + frame.content;
      }
      left := frame.rest;
    }
  }

  // ---- what the two ends agree on --------------------------------------

  /** Every record is a multiple of eight bytes long. */
  lemma FrameAligned(kind: byte, id: nat, d: seq<byte>)
    ensures |Frame(kind, id, d)| % 8 == 0
  {
    assert (|d| + Padding(|d|)) % 8 == 0;
  }

  lemma Sum8(a: nat, b: nat)
    requires a % 8 == 0 && b % 8 == 0
    ensures (a + b) % 8 == 0
  {
  }

  lemma {:induction false} ResponseAligned(id: nat, d: seq<byte>)
    ensures |Records(id, d)| % 8 == 0 && |Response(id, d)| % 8 == 0
    decreases |d|
  {
    if d != [] {
      var n := Min(|d|, MAX_CONTENT);
      FrameAligned(FCGI_STDOUT, id, d[..n]);
      ResponseAligned(id, d[n..]);
      Sum8(|Frame(FCGI_STDOUT, id, d[..n])|, |Records(id, d[n..])|);
    }
    FrameAligned(FCGI_END_REQUEST, id, Zeros(8));
    Sum8(|Records(id, d)|, |EndRecord(id)|);
  }

  /** A record reads back as it was sent exactly when its content fits the length field. */
  lemma FrameReadBack(kind: byte, id: nat, d: seq<byte>, rest: seq<byte>)
    ensures ReadFrame(Frame(kind, id, d) + rest) == Record(kind, d, rest) <==> |d| <= MAX_CONTENT
  {
    var n, pad := |d|, Padding(|d|);
    var s := Frame(kind, id, d) + rest;
    var field := n / 0x100 % 0x100 * 0x100 + n % 0x100;
    assert s[0] == FCGI_VERSION && s[1] == kind && s[4] == n / 0x100 % 0x100 && s[5] == n % 0x100 && s[6] == pad;
    if n <= MAX_CONTENT {
      assert field == n;
      assert s[8..8 + n] == d && s[8 + n + pad..] == rest;
    } else {
      assert field <= MAX_CONTENT;
    }
  }

  /** 65536 bytes in one record arrive as none. */
  lemma OneByteTooMany(id: nat, d: seq<byte>)
    requires |d| == 65536
    ensures var r := ReadFrame(Frame(FCGI_STDOUT, id, d));
            r.Record? && r.content == []
  {
    var s := Frame(FCGI_STDOUT, id, d);
    assert s[0] == FCGI_VERSION && s[4] == 0 && s[5] == 0 && s[6] == 0;
  }

  lemma ForwardStep(id: nat, d: seq<byte>, rest: seq<byte>)
    requires |d| <= MAX_CONTENT
    ensures Forward(Frame(FCGI_STDOUT, id, d) + rest) == Relay(d + Forward(rest).out, Forward(rest).complete)
  {
    FrameReadBack(FCGI_STDOUT, id, d, rest);
  }

  lemma ForwardEnd(id: nat, rest: seq<byte>)
    ensures Forward(EndRecord(id) + rest) == Relay([], true)
  {
    FrameReadBack(FCGI_END_REQUEST, id, Zeros(8), rest);
  }

  lemma {:induction false} ForwardRecords(id: nat, d: seq<byte>, rest: seq<byte>)
    ensures Forward(Records(id, d) + rest) == Relay(d + Forward(rest).out, Forward(rest).complete)
    decreases |d|
  {
    if d == [] {
      assert Records(id, d) + rest == rest && d + Forward(rest).out == Forward(rest).out;
    } else {
      var n := Min(|d|, MAX_CONTENT);
      var tail := Records(id, d[n..]);
      Assoc(Frame(FCGI_STDOUT, id, d[..n]), tail, rest);
      ForwardStep(id, d[..n], tail + rest);
      ForwardRecords(id, d[n..], rest);
      Rejoin(d, n, Forward(rest).out);
    }
  }

  lemma Rejoin(d: seq<byte>, n: nat, rest: seq<byte>)
    requires n <= |d|
    ensures d[..n] + (d[n..] + rest) == d + rest
  {
    assert d == d[..n] + d[n..];
  }

  /** The relay forwards a response byte for byte and stops at its end record. */
  lemma ResponseArrives(id: nat, d: seq<byte>, rest: seq<byte>)
    ensures Forward(Response(id, d) + rest) == Relay(d, true)
  {
    Assoc(Records(id, d), EndRecord(id), rest);
    ForwardRecords(id, d, EndRecord(id) + rest);
    ForwardEnd(id, rest);
    assert d + [] == d;
  }

  /** The content in the middle of a record that has arrived that far. */
  lemma Middle(head: seq<byte>, d: seq<byte>, tail: seq<byte>, k: nat)
    requires |head| + |d| <= k <= |head + d + tail|
    ensures (head + d + tail)[..k][|head|..|head| + |d|] == d
  {
  }

  lemma CutFrame(kind: byte, id: nat, d: seq<byte>, k: nat)
    requires |d| <= MAX_CONTENT && k < |Frame(kind, id, d)|
    ensures var r := ReadFrame(Frame(kind, id, d)[..k]);
            r.Lost? || r == Unpadded(kind, d)
  {
    var s, n := Frame(kind, id, d), |d|;
    if k >= FCGI_HEADER_LEN {
      var t := s[..k];
      assert t[1] == kind && t[4] == n / 0x100 % 0x100 && t[5] == n % 0x100 && t[6] == Padding(n);
      assert n / 0x100 % 0x100 * 0x100 + n % 0x100 == n;
      if k >= FCGI_HEADER_LEN + n {
        Middle(Header(kind, id, n), d, Zeros(Padding(n)), k);
      }
    }
  }

  lemma ForwardCut(id: nat, d: seq<byte>, k: nat)
    requires |d| <= MAX_CONTENT && k < |Frame(FCGI_STDOUT, id, d)|
    ensures var r := Forward(Frame(FCGI_STDOUT, id, d)[..k]);
            !r.complete && r.out <= d
  {
    CutFrame(FCGI_STDOUT, id, d, k);
  }

  lemma EndCut(id: nat, k: nat)
    requires k < |EndRecord(id)|
    ensures Forward(EndRecord(id)[..k]) == Relay([], false)
  {
    CutFrame(FCGI_END_REQUEST, id, Zeros(8), k);
  }

  lemma LongerPrefix(d: seq<byte>, n: nat, out: seq<byte>)
    requires n <= |d| && out <= d[n..]
    ensures d[..n] + out <= d
  {
    assert d == d[..n] + d[n..];
  }

  /** A stream that breaks off anywhere before its end forwards a prefix, and is not taken for
      complete. */
  lemma {:induction false} CutResponse(id: nat, d: seq<byte>, k: nat)
    requires k <= |Response(id, d)|
    ensures Forward(Response(id, d)[..k]).out <= d
    ensures Forward(Response(id, d)[..k]).complete <==> k == |Response(id, d)|
    decreases |d|
  {
    if d == [] {
      assert Response(id, d) == EndRecord(id);
      if k < |EndRecord(id)| {
        EndCut(id, k);
      } else {
        assert Response(id, d)[..k] == EndRecord(id) + [];
        ForwardEnd(id, []);
      }
    } else {
      var n := Min(|d|, MAX_CONTENT);
      var frame, tail := Frame(FCGI_STDOUT, id, d[..n]), Response(id, d[n..]);
      Assoc(frame, Records(id, d[n..]), EndRecord(id));
      CutBehind(frame, tail, k);
      if k < |frame| {
        ForwardCut(id, d[..n], k);
        assert d[..n] <= d;
      } else {
        ForwardStep(id, d[..n], tail[..k - |frame|]);
        CutResponse(id, d[n..], k - |frame|);
        LongerPrefix(d, n, Forward(tail[..k - |frame|]).out);
      }
    }
  }

  // ---- the format ------------------------------------------------------

  /** The header of section 3.3 of the FastCGI specification: version, type, request id and content
      length high byte first, a padding length that rounds up to eight, and a reserved byte. */
  lemma HeaderMeans(kind: byte, id: nat, n: nat)
    requires id < 65536 && n < 65536
    ensures var h := Header(kind, id, n);
            h[0] == 1 && h[1] == kind && (h[2] as int) * 256 + h[3] as int == id
            && (h[4] as int) * 256 + h[5] as int == n && h[6] < 8 && (n + h[6] as int) % 8 == 0 && h[7] == 0
  {
    assert id / 0x100 % 0x100 * 256 + id % 0x100 == id;
    assert n / 0x100 % 0x100 * 256 + n % 0x100 == n;
    assert (n + Padding(n)) % 8 == 0;
  }

  /** A record of any type. */
  datatype Sent = Sent(kind: byte, data: seq<byte>)

  function Stream(id: nat, rs: seq<Sent>): seq<byte> {
    if rs == [] then [] else Frame(rs[0].kind, id, rs[0].data) + Stream(id, rs[1..])
  }

  function Output(rs: seq<Sent>): seq<byte> {
    if rs == [] then [] else (if rs[0].kind == 6 then rs[0].data else []) + Output(rs[1..])
  }

  /** Of records of any type the relay forwards the contents of type 6, in order, up to the first of
      type 3. */
  lemma {:induction false} OnlyOutputArrives(id: nat, rs: seq<Sent>, rest: seq<byte>)
    requires forall i :: 0 <= i < |rs| ==> rs[i].kind != 3 && |rs[i].data| < 65536
    ensures Forward(Stream(id, rs) + (EndRecord(id) + rest)) == Relay(Output(rs), true)
  {
    var tail := EndRecord(id) + rest;
    if rs == [] {
      assert Stream(id, rs) + tail == tail;
      ForwardEnd(id, rest);
    } else {
      var more := Stream(id, rs[1..]);
      Assoc(Frame(rs[0].kind, id, rs[0].data), more, tail);
      ForwardAny(rs[0], id, more + tail);
      OnlyOutputArrives(id, rs[1..], rest);
    }
  }

  lemma ForwardAny(r: Sent, id: nat, rest: seq<byte>)
    requires r.kind != 3 && |r.data| < 65536
    ensures Forward(Frame(r.kind, id, r.data) + rest)
            == Relay((if r.kind == 6 then r.data else []) + Forward(rest).out, Forward(rest).complete)
  {
    FrameReadBack(r.kind, id, r.data, rest);
    assert [] + Forward(rest).out == Forward(rest).out;
  }
}
