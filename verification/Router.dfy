/** The description of a router skill: read into a fixed buffer, then trimmed. */
module Router {
  import opened CText
  import opened Utf8
  import opened MiniJson

  /** `jread_string` into `char desc[m]` followed by `utf8_trim_tail`. The result is the
      full decode clipped forward at m - 1, whatever escapes the literal used. */
  method ReadDescription(p: string, m: nat) returns (ok: bool, desc: string)
    requires m > 0
    ensures ok == ReadString(p).Some?
    ensures ok ==>
              var (d, rest) := ReadString(p).value;
              NulFree(d) && Valid(p[..|p| - |rest|]) ==>
                Clip(d, m - 1) <= |d| && desc == d[..Clip(d, m - 1)] && Valid(desc)
                && forall k :: 0 <= k <= m - 1 && k <= |d| && Valid(d[..k]) ==> k <= |desc|
  {
    var out, rest;
    ok, out, rest := JreadString(p, m);
    desc := "";
    if ok {
      desc := Utf8TrimTail(CStr(out));
      ghost var d := ReadString(p).value.0;
      if NulFree(d) && Valid(p[..|p| - |rest|]) {
        CStrNulFree(out);
        ReadStringValid(p);
        TrimOfCutIsClip(d, m - 1);
        ClipLongest(d, m - 1);
      }
    }
  }
}
