/** The few string helpers of Go's `strings` package that the proxy relies on. */
module Text {

  datatype Option<+T> = None | Some(value: T)

  /** strings.TrimPrefix: removes `p` once, if `s` starts with it. */
  function TrimPrefix(s: string, p: string): string {
    if p <= s then s[|p|..] else s
  }

  /** strings.TrimRight(s, "/"). */
  function TrimRightSlash(s: string): (r: string)
    ensures r <= s
    ensures r == "" || r[|r| - 1] != '/'
    ensures forall k :: |r| <= k < |s| ==> s[k] == '/'
  {
    if s != "" && s[|s| - 1] == '/' then TrimRightSlash(s[..|s| - 1]) else s
  }

  /** strings.TrimLeft(s, "/"). */
  function TrimLeftSlash(s: string): (r: string)
    ensures |r| <= |s| && r == s[|s| - |r|..]
    ensures r == "" || r[0] != '/'
    ensures forall k :: 0 <= k < |s| - |r| ==> s[k] == '/'
  {
    if s != "" && s[0] == '/' then TrimLeftSlash(s[1..]) else s
  }

  /** Prepends a slash unless there is one already. */
  function WithSlash(s: string): (r: string)
    ensures "/" <= r
  {
    if "/" <= s then s else "/" + s
  }

  /** strings.IndexByte, with |s| standing for "not found". */
  function IndexOf(s: string, c: char): (i: nat)
    ensures i <= |s| && forall j | 0 <= j < i :: s[j] != c
    ensures i < |s| ==> s[i] == c
  {
    if s == "" || s[0] == c then 0 else IndexOf(s[1..], c) + 1
  }
}
