/** The name-value pairs of src/cgi/fastcgi.c (section 3.4 of the FastCGI Specification). */
module FcgiParams {
  import opened CText

  type byte = b: int | 0 <= b < 256

  const MAX_LENGTH: nat := 0x8000_0000
  const PARAMS_SIZE: nat := 4096

  datatype Param = Param(name: seq<byte>, value: seq<byte>)

  predicate Encodable(p: Param) {
    |p.name| < MAX_LENGTH && |p.value| < MAX_LENGTH
  }

  predicate AllEncodable(ps: seq<Param>) {
    forall i :: 0 <= i < |ps| ==> Encodable(ps[i])
  }

  /** `fcgi_put_len`: one byte below 128, else four with the top bit set. */
  function PutLen(n: nat): (r: seq<byte>)
    requires n < MAX_LENGTH
    ensures |r| == if n < 128 then 1 else 4
  {
    if n < 128 then [n]
    else [128 + n / 0x100_0000, n / 0x1_0000 % 0x100, n / 0x100 % 0x100, n % 0x100]
  }

  function Big(a: int, b: int, c: int, d: int): int {
    a * 0x100_0000 + b * 0x1_0000 + c * 0x100 + d
  }

  /** A length prefix and what follows it; None when its four bytes are not all there. */
  function GetLen(d: seq<byte>): (r: Option<(nat, seq<byte>)>)
    requires d != []
    ensures r.Some? ==> |r.value.1| < |d|
  {
    if d[0] < 128 then Some((d[0], d[1..]))
    else if |d| < 4 then None
    else Some((Big(d[0] - 128, d[1], d[2], d[3]), d[4..]))
  }

  /** The first pair and what follows it. */
  function GetPair(d: seq<byte>): (r: Option<(Param, seq<byte>)>)
    ensures r.Some? ==> |r.value.1| < |d|
  {
    if d == [] then None else
    var n := GetLen(d);
    if n.None? || n.value.1 == [] then None else
    var v := GetLen(n.value.1);
    if v.None? then None else
    var (nl, vl, rest) := (n.value.0, v.value.0, v.value.1);
    if nl + vl > |rest| then None
    else Some((Param(rest[..nl], rest[nl..nl + vl]), rest[nl + vl..]))
  }

  function Parse(d: seq<byte>): seq<Param>
    decreases |d|
  {
    var p := GetPair(d);
    if p.None? then [] else [p.value.0] + Parse(p.value.1)
  }

  function LenSize(n: nat): nat {
    if n < 128 then 1 else 4
  }

  function PairSize(p: Param): nat {
    LenSize(|p.name|) + LenSize(|p.value|) + |p.name| + |p.value|
  }

  function EncodePair(p: Param): (r: seq<byte>)
    requires Encodable(p)
    ensures |r| == PairSize(p)
  {
    PutLen(|p.name|) + (PutLen(|p.value|) + (p.name + p.value))
  }

  function Encode(ps: seq<Param>): seq<byte>
    requires AllEncodable(ps)
  {
    if ps == [] then [] else EncodePair(ps[0]) + Encode(ps[1..])
  }

  // ---- parsing and encoding loops --------------------------------------

  method ReadLen(data: seq<byte>, off: nat) returns (ok: bool, len: nat, next: nat)
    requires off < |data|
    ensures ok <==> GetLen(data[off..]).Some?
    ensures ok ==> off < next <= |data| && GetLen(data[off..]) == Some((len, data[next..]))
  {
    if data[off] < 128 {
      return true, data[off], off + 1;
    }
    if off + 4 > |data| {
      return false, 0, off;
    }
    return true, Big(data[off] - 128, data[off + 1], data[off + 2], data[off + 3]), off + 4;
  }

  method ReadPair(data: seq<byte>, off: nat) returns (p: Option<Param>, next: nat)
    requires off < |data|
    ensures p.None? <==> GetPair(data[off..]).None?
    ensures p.Some? ==> off < next <= |data| && GetPair(data[off..]) == Some((p.value, data[next..]))
  {
    p, next := None, off;
    var ok, nl, o := ReadLen(data, off);
    if !ok || o >= |data| {
      return;
    }
    var vl;
    ok, vl, o := ReadLen(data, o);
    if !ok || o + nl + vl > |data| {
      return;
    }
    PairAt(data, off, o, nl, vl);
    return Some(Param(data[o..o + nl], data[o + nl..o + nl + vl])), o + nl + vl;
  }

  method ParseParams(data: seq<byte>) returns (params: seq<Param>)
    ensures params == Parse(data)
  {
    params := [];
    var off := 0;
    while off < |data|
      invariant 0 <= off <= |data|
      invariant Parse(data) == params + Parse(data[off..])
    {
      var p, next := ReadPair(data, off);
      if p.None? {
        break;
      }
      Regroup(params, p.value, Parse(data[next..]));
      params := params + [p.value];
      off := next;
    }
  }

  lemma Regroup(a: seq<Param>, p: Param, b: seq<Param>)
    ensures a + ([p] + b) == a + [p] + b
  {
  }

  lemma PairAt(data: seq<byte>, off: nat, o: nat, nl: nat, vl: nat)
    requires off < o && o + nl + vl <= |data| && GetLen(data[off..]).Some? && GetLen(data[off..]).value.1 != []
    requires GetLen(data[off..]).value.0 == nl && GetLen(GetLen(data[off..]).value.1) == Some((vl, data[o..]))
    ensures GetPair(data[off..])
            == Some((Param(data[o..o + nl], data[o + nl..o + nl + vl]), data[o + nl + vl..]))
  {
    var rest := data[o..];
    assert rest[..nl] == data[o..o + nl] && rest[nl..nl + vl] == data[o + nl..o + nl + vl];
    assert rest[nl + vl..] == data[o + nl + vl..];
  }

  /** Pairs with an empty value are not sent. */
  function NonEmpty(ps: seq<Param>): seq<Param> {
    if ps == [] then [] else (if ps[0].value == [] then [] else [ps[0]]) + NonEmpty(ps[1..])
  }

  method Put(buf: array<byte>, off: nat, src: seq<byte>) returns (next: nat)
    requires off + |src| <= buf.Length
    modifies buf
    ensures next == off + |src| && buf[..next] == old(buf[..off]) + src
  {
    forall i | 0 <= i < |src| {
      buf[off + i] := src[i];
    }
    next := off + |src|;
  }

  method PutPair(buf: array<byte>, off: nat, p: Param, ghost sent: seq<Param>) returns (next: nat)
    requires off + 8 + |p.name| + |p.value| < buf.Length <= PARAMS_SIZE
    requires AllEncodable(sent) && buf[..off] == Encode(sent)
    modifies buf
    ensures Encodable(p) && next == off + PairSize(p) <= buf.Length
    ensures AllEncodable(sent + [p]) && buf[..next] == Encode(sent + [p])
  {
    ghost var was := buf[..off];
    EncodeSnoc(sent, p);
    next := Put(buf, off, PutLen(|p.name|));
    next := Put(buf, next, PutLen(|p.value|));
    next := Put(buf, next, p.name);
    next := Put(buf, next, p.value);
    Join5(was, PutLen(|p.name|), PutLen(|p.value|), p.name, p.value);
  }

  lemma Join5(a: seq<byte>, b: seq<byte>, c: seq<byte>, d: seq<byte>, e: seq<byte>)
    ensures a + b + c + d + e == a + (b + (c + (d + e)))
  {
  }

  /** Whether the pairs pass the room check before each of them, starting at `off`. */
  predicate Fits(ps: seq<Param>, off: nat) {
    ps == [] ||
    (if ps[0].value == [] then Fits(ps[1..], off)
     else off + 4 + |ps[0].name| + 4 + |ps[0].value| + 1 <= PARAMS_SIZE
          && Fits(ps[1..], off + PairSize(ps[0])))
  }

  lemma FitsStep(pv: seq<Param>, i: nat, off: nat)
    requires i < |pv|
    ensures Fits(pv[i..], off) <==>
            (if pv[i].value == [] then Fits(pv[i + 1..], off)
             else off + 4 + |pv[i].name| + 4 + |pv[i].value| + 1 <= PARAMS_SIZE
                  && Fits(pv[i + 1..], off + PairSize(pv[i])))
  {
    assert pv[i..][0] == pv[i] && pv[i..][1..] == pv[i + 1..];
  }

  method EncodeInto(params: array<byte>, pv: seq<Param>) returns (ok: bool, poff: nat)
    requires params.Length == PARAMS_SIZE
    modifies params
    ensures ok <==> Fits(pv, 0)
    ensures ok ==> AllEncodable(NonEmpty(pv)) && poff <= PARAMS_SIZE && params[..poff] == Encode(NonEmpty(pv))
  {
    var i := 0;
    poff := 0;
    ghost var sent: seq<Param> := [];
    assert pv[0..] == pv;
    while i < |pv|
      invariant 0 <= i <= |pv| && 0 <= poff <= params.Length
      invariant sent == NonEmpty(pv[..i]) && AllEncodable(sent)
      invariant params[..poff] == Encode(sent)
      invariant Fits(pv, 0) <==> Fits(pv[i..], poff)
    {
      var p := pv[i];
      FitsStep(pv, i, poff);
      NonEmptyNext(pv, i);
      if p.value != [] {
        if poff + 4 + |p.name| + 4 + |p.value| + 1 > params.Length {
          return false, poff;
        }
        poff := PutPair(params, poff, p, sent);
        sent := sent + [p];
      }
      i := i + 1;
    }
    assert pv[..i] == pv && pv[i..] == [];
    ok := true;
  }

  /** The parameter block of a forwarded request, or None when it does not fit. What the other
      side parses from it is the pairs that have a value. */
  method EncodeParams(pv: seq<Param>) returns (r: Option<seq<byte>>)
    ensures r.Some? <==> Fits(pv, 0)
    ensures r.Some? ==> AllEncodable(NonEmpty(pv)) && r.value == Encode(NonEmpty(pv))
    ensures r.Some? ==> Parse(r.value) == NonEmpty(pv)
  {
    var params := new byte[PARAMS_SIZE];
    var ok, poff := EncodeInto(params, pv);
    if !ok {
      return None;
    }
    ParseEncode(NonEmpty(pv));
    return Some(params[..poff]);
  }

  lemma NonEmptyNext(pv: seq<Param>, i: nat)
    requires i < |pv|
    ensures NonEmpty(pv[..i + 1]) == NonEmpty(pv[..i]) + (if pv[i].value == [] then [] else [pv[i]])
  {
    assert pv[..i + 1] == pv[..i] + [pv[i]];
    NonEmptySnoc(pv[..i], pv[i]);
  }

  lemma {:induction false} NonEmptySnoc(ps: seq<Param>, p: Param)
    ensures NonEmpty(ps + [p]) == NonEmpty(ps) + (if p.value == [] then [] else [p])
  {
    if ps == [] {
      assert ps + [p] == [p];
    } else {
      assert (ps + [p])[0] == ps[0] && (ps + [p])[1..] == ps[1..] + [p];
      NonEmptySnoc(ps[1..], p);
    }
  }

  lemma {:induction false} EncodeSnoc(ps: seq<Param>, p: Param)
    requires AllEncodable(ps) && Encodable(p)
    ensures AllEncodable(ps + [p]) && Encode(ps + [p]) == Encode(ps) + EncodePair(p)
  {
    if ps == [] {
      assert ps + [p] == [p] && Encode([p]) == EncodePair(p) + Encode([]);
    } else {
      assert (ps + [p])[0] == ps[0] && (ps + [p])[1..] == ps[1..] + [p];
      EncodeSnoc(ps[1..], p);
      assert EncodePair(ps[0]) + (Encode(ps[1..]) + EncodePair(p)) == Encode(ps) + EncodePair(p);
    }
  }

  // ---- reading back ----------------------------------------------------

  lemma FourBytes(n: nat)
    requires n < MAX_LENGTH
    ensures n / 0x100_0000 < 128
    ensures Big(n / 0x100_0000, n / 0x1_0000 % 0x100, n / 0x100 % 0x100, n % 0x100) == n
  {
    var a := n / 0x100;
    var b := a / 0x100;
    assert b == n / 0x1_0000 && b / 0x100 == n / 0x100_0000;
  }

  lemma GetPut(n: nat, rest: seq<byte>)
    requires n < MAX_LENGTH
    ensures GetLen(PutLen(n) + rest) == Some((n, rest))
  {
    var d := PutLen(n) + rest;
    FourBytes(n);
    assert d[|PutLen(n)|..] == rest;
  }

  /** A length prefix cut short reads as missing. */
  lemma GetCut(n: nat, k: nat)
    requires n < MAX_LENGTH && 0 < k < |PutLen(n)|
    ensures GetLen(PutLen(n)[..k]).None?
  {
  }

  lemma PairReadBack(p: Param, rest: seq<byte>)
    requires Encodable(p)
    ensures GetPair(EncodePair(p) + rest) == Some((p, rest))
  {
    var tail := p.name + p.value + rest;
    var body := PutLen(|p.value|) + tail;
    assert EncodePair(p) + rest == PutLen(|p.name|) + body;
    GetPut(|p.name|, body);
    GetPut(|p.value|, tail);
    var nl, vl := |p.name|, |p.value|;
    assert tail[..nl] == p.name && tail[nl..nl + vl] == p.value && tail[nl + vl..] == rest;
  }

  lemma PairCut(p: Param, k: nat)
    requires Encodable(p) && k < |EncodePair(p)|
    ensures GetPair(EncodePair(p)[..k]).None?
  {
    var a, b := PutLen(|p.name|), PutLen(|p.value|);
    var d := EncodePair(p)[..k];
    if k == 0 {
    } else if k < |a| {
      assert d == a[..k];
      GetCut(|p.name|, k);
    } else {
      var rest := (b + (p.name + p.value))[..k - |a|];
      assert d == a + rest;
      GetPut(|p.name|, rest);
      if 0 < k - |a| < |b| {
        assert rest == b[..k - |a|];
        GetCut(|p.value|, k - |a|);
      } else if |b| <= k - |a| {
        var tail := (p.name + p.value)[..k - |a| - |b|];
        assert rest == b + tail;
        GetPut(|p.value|, tail);
      }
    }
  }

  /** How many pairs end at or before byte `k` of the encoding. */
  function Whole(ps: seq<Param>, k: nat): (m: nat)
    requires AllEncodable(ps)
    ensures m <= |ps|
  {
    if ps == [] || k < |EncodePair(ps[0])| then 0 else 1 + Whole(ps[1..], k - |EncodePair(ps[0])|)
  }

  lemma ParsePair(p: Param, rest: seq<byte>)
    requires Encodable(p)
    ensures Parse(EncodePair(p) + rest) == [p] + Parse(rest)
  {
    PairReadBack(p, rest);
  }

  lemma CutBehind(a: seq<byte>, b: seq<byte>, k: nat)
    requires k <= |a + b|
    ensures (a + b)[..k] == if k < |a| then a[..k] else a + b[..k - |a|]
  {
  }

  lemma TakeCons(p: Param, ps: seq<Param>, m: nat)
    requires m <= |ps| && |ps| > 0
    ensures 0 < m && p == ps[0] ==> ps[..m] == [p] + ps[1..][..m - 1]
  {
  }

  /** The encoding cut at any byte parses to exactly the pairs wholly before the cut. */
  lemma {:induction false} ParseCut(ps: seq<Param>, k: nat)
    requires AllEncodable(ps) && k <= |Encode(ps)|
    ensures Parse(Encode(ps)[..k]) == ps[..Whole(ps, k)]
  {
    if ps != [] {
      var first, rest := EncodePair(ps[0]), Encode(ps[1..]);
      CutBehind(first, rest, k);
      if k < |first| {
        PairCut(ps[0], k);
      } else {
        ParsePair(ps[0], rest[..k - |first|]);
        ParseCut(ps[1..], k - |first|);
        TakeCons(ps[0], ps, Whole(ps, k));
      }
    }
  }

  lemma {:induction false} WholeAll(ps: seq<Param>)
    requires AllEncodable(ps)
    ensures Whole(ps, |Encode(ps)|) == |ps|
  {
    if ps != [] {
      WholeAll(ps[1..]);
    }
  }

  /** Parsing undoes encoding. */
  lemma ParseEncode(ps: seq<Param>)
    requires AllEncodable(ps)
    ensures Parse(Encode(ps)) == ps
  {
    ParseCut(ps, |Encode(ps)|);
    WholeAll(ps);
    assert Encode(ps)[..|Encode(ps)|] == Encode(ps) && ps[..|ps|] == ps;
  }

  /** `Whole` counts exactly the pairs before the cut. */
  lemma {:induction false} WholeIsLargest(ps: seq<Param>, k: nat, m: nat)
    requires AllEncodable(ps) && m <= |ps|
    ensures m <= Whole(ps, k) <==> |Encode(ps[..m])| <= k
  {
    if m > 0 {
      var first := EncodePair(ps[0]);
      assert ps[..m][0] == ps[0] && ps[..m][1..] == ps[1..][..m - 1];
      if |first| <= k {
        WholeIsLargest(ps[1..], k - |first|, m - 1);
      }
    }
  }

  // ---- the format ------------------------------------------------------

  /** The lengths of section 3.4 of the FastCGI specification: one byte below 128, else four with the
      high byte first and its top bit set. */
  lemma LengthBytes(n: nat)
    requires n < MAX_LENGTH
    ensures var b := PutLen(n);
            if n < 128 then |b| == 1 && b[0] as int == n
            else |b| == 4 && b[0] >= 128
                 && (b[0] as int - 128) * 16777216 + b[1] as int * 65536 + b[2] as int * 256 + b[3] as int == n
  {
    if n >= 128 {
      FourBytes(n);
    }
  }

  /** What is sent keeps its order and leaves out exactly the parameters without a value. */
  lemma {:induction false} NonEmptyMeans(a: seq<Param>, p: Param, b: seq<Param>)
    ensures NonEmpty(a + [p] + b) == NonEmpty(a) + (if |p.value| > 0 then [p] else []) + NonEmpty(b)
    decreases |a|
  {
    if a == [] {
      assert a + [p] + b == [p] + b && ([p] + b)[1..] == b;
    } else {
      assert (a + [p] + b)[1..] == a[1..] + [p] + b;
      NonEmptyMeans(a[1..], p, b);
    }
  }

  /** How many bytes the parameters before the k-th take. */
  function Used(ps: seq<Param>, k: nat): nat
    requires k <= |ps|
  {
    if k == 0 then 0 else Used(ps, k - 1) + PairSize(ps[k - 1])
  }

  lemma {:induction false} UsedTail(ps: seq<Param>, k: nat)
    requires ps != [] && 1 <= k <= |ps|
    ensures Used(ps, k) == PairSize(ps[0]) + Used(ps[1..], k - 1)
    decreases k
  {
    if k > 1 {
      UsedTail(ps, k - 1);
      assert ps[1..][k - 2] == ps[k - 1];
    }
  }

  /** Room is found when nine bytes beside the name and value are still free at each parameter that
      is sent. */
  predicate Room(ns: seq<Param>, off: nat) {
    forall k :: 0 <= k < |ns| ==> RoomAt(ns, off, k)
  }

  lemma {:induction false} FitsMeans(ps: seq<Param>, off: nat)
    ensures Fits(ps, off) <==> Room(NonEmpty(ps), off)
    decreases |ps|
  {
    if ps != [] {
      if ps[0].value == [] {
        FitsMeans(ps[1..], off);
        assert NonEmpty(ps) == NonEmpty(ps[1..]);
      } else {
        FitsMeans(ps[1..], off + PairSize(ps[0]));
        RoomCons(ps[0], NonEmpty(ps[1..]), off);
      }
    }
  }

  predicate RoomAt(ns: seq<Param>, off: nat, k: nat)
    requires k < |ns|
  {
    off + Used(ns, k) + |ns[k].name| + |ns[k].value| + 9 <= 4096
  }

  lemma RoomCons(p: Param, ns: seq<Param>, off: nat)
    ensures Room([p] + ns, off) <==> off + |p.name| + |p.value| + 9 <= 4096 && Room(ns, off + PairSize(p))
  {
    var all := [p] + ns;
    assert RoomAt(all, off, 0) <==> off + |p.name| + |p.value| + 9 <= 4096;
    if Room(ns, off + PairSize(p)) && RoomAt(all, off, 0) {
      forall k | 0 <= k < |all|
        ensures RoomAt(all, off, k)
      {
        if k > 0 {
          RoomShift(p, ns, off, k - 1);
        }
      }
    }
    if Room(all, off) {
      var next := off + PairSize(p);
      forall k | 0 <= k < |ns|
        ensures RoomAt(ns, next, k)
      {
        RoomShift(p, ns, off, k);
      }
    }
  }

  lemma RoomShift(p: Param, ns: seq<Param>, off: nat, k: nat)
    requires k < |ns|
    ensures RoomAt([p] + ns, off, k + 1) <==> RoomAt(ns, off + PairSize(p), k)
  {
    var all := [p] + ns;
    assert all[1..] == ns && all[k + 1] == ns[k];
    UsedTail(all, k + 1);
  }
}
