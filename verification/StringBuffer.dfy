/** The growable string buffer of src/core/minijson.c. */
module StringBuffer {
  import opened CText
  import opened MiniJson

  const FIRST_CAP := 256

  /** The capacity `sb_reserve` doubles up to. */
  function Doubled(cap: nat, need: nat): (r: nat)
    requires cap > 0
    ensures r >= need && r >= cap
    decreases need - cap
  {
    if cap >= need then cap else Doubled(cap * 2, need)
  }

  lemma {:induction false} DoubledMonotone(cap: nat, a: nat, b: nat)
    requires cap > 0 && a <= b
    ensures Doubled(cap, a) <= Doubled(cap, b)
    decreases a - cap
  {
    if cap < a {
      DoubledMonotone(cap * 2, a, b);
    }
  }

  /** Growing in steps ends at the same capacity as growing at once. */
  lemma {:induction false} DoubledFrom(base: nat, cap: nat, need: nat)
    requires base > 0 && Doubled(base, cap) == cap && need > cap
    ensures Doubled(base, need) == Doubled(cap, need)
    decreases need - base
  {
    if base < cap {
      DoubledFrom(base * 2, cap, need);
    }
  }

  function Power2(k: nat): nat {
    if k == 0 then 1 else 2 * Power2(k - 1)
  }

  /** The capacity is the first one doubled as few times as the need allows. */
  lemma {:induction false} DoubledMeans(cap: nat, need: nat) returns (k: nat)
    requires cap > 0
    ensures Doubled(cap, need) == cap * Power2(k) && (k > 0 ==> cap * Power2(k - 1) < need)
    decreases need - cap
  {
    if cap >= need {
      k := 0;
    } else {
      var j := DoubledMeans(cap * 2, need);
      k := j + 1;
      TwiceMore(cap, j);
      if j > 0 {
        TwiceMore(cap, j - 1);
      }
    }
  }

  lemma TwiceMore(cap: nat, j: nat)
    ensures cap * 2 * Power2(j) == cap * Power2(j + 1)
  {
  }

  /** `limit` is the largest block realloc grants; `cap` is 0 before the first append;
      `all` is everything the callers asked to append. */
  class Sbuf {
    var text: string
    var cap: nat
    var oom: bool
    const limit: nat
    ghost var all: string

    ghost predicate Fits(n: nat) {
      Doubled(FIRST_CAP, n + 1) <= limit
    }

    /** Without an allocation failure the buffer holds all that was appended, with room
        for the terminator; a failure means the whole text would not have fitted. */
    ghost predicate Valid()
      reads this
    {
      && (cap == 0 ==> text == "")
      && (cap > 0 ==> |text| < cap <= limit && Doubled(FIRST_CAP, cap) == cap)
      && (if oom then !Fits(|all|) else text == all)
    }

    constructor (limit: nat)
      ensures Valid() && all == "" && !oom && this.limit == limit
    {
      text, cap, oom, all := "", 0, false, "";
      this.limit := limit;
    }

    method Reserve(extra: nat)
      requires Valid() && !oom
      modifies this`cap, this`oom
      ensures oom ==> !Fits(|text| + extra) && cap == old(cap)
      ensures !oom ==> |text| + extra < cap <= limit && Doubled(FIRST_CAP, cap) == cap
    {
      var need := |text| + extra + 1;
      if cap > 0 && need <= cap {
        return;
      }
      var c := if cap > 0 then cap else FIRST_CAP;
      if cap > 0 {
        DoubledFrom(FIRST_CAP, cap, need);
      }
      while c < need
        modifies {}
        invariant c > 0 && Doubled(FIRST_CAP, need) == Doubled(c, need)
        invariant Doubled(FIRST_CAP, c) == c
        decreases need - c
      {
        DoubledFrom(FIRST_CAP, c, 2 * c);
        c := c * 2;
      }
      if c > limit {
        oom := true;
        return;
      }
      cap := c;
    }

    /** `sb_mem`; a failed append leaves the buffer as it was. */
    method Mem(s: string)
      requires Valid()
      modifies this
      ensures Valid() && all == old(all) + s
      ensures old(oom) ==> oom
      ensures oom ==> text == old(text)
    {
      if oom {
        DoubledMonotone(FIRST_CAP, |all| + 1, |all + s| + 1);
      } else {
        Reserve(|s|);
        if !oom {
          text := text + s;
        }
      }
      all := all + s;
    }

    method Str(s: string)
      requires Valid() && NulFree(s)
      modifies this
      ensures Valid() && all == old(all) + s
      ensures old(oom) ==> oom
    {
      Mem(s);
    }

    method Chr(c: char)
      requires Valid()
      modifies this
      ensures Valid() && all == old(all) + [c]
      ensures old(oom) ==> oom
    {
      Mem([c]);
    }

    /** `sb_json_str`. */
    method AppendJson(s: string)
      requires Valid()
      modifies this
      ensures Valid() && all == old(all) + JsonStr(s)
      ensures old(oom) ==> oom
    {
      Chr('"');
      var q := s;
      ghost var done := "\"";
      Cat3("\"", Escape(s), "\"");
      while At(q, 0) != '\0'
        invariant Valid() && all == old(all) + done
        invariant JsonStr(s) == done + (Escape(q) + "\"")
        invariant old(oom) ==> oom
        decreases |q|
      {
        var e := EscapeChar(q[0]);
        Mem(e);
        Cat3(old(all), done, e);
        Cat3(e, Escape(q[1..]), "\"");
        Cat3(done, e, Escape(q[1..]) + "\"");
        done := done + e;
        q := q[1..];
      }
      Chr('"');
      Cat3(old(all), done, "\"");
      assert Escape(q) + "\"" == "\"";
    }
  }
}
