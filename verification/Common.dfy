/** What several models share. */
module Common {
  datatype Option<+T> = None | Some(value: T)

  function Zeros(n: int): (r: seq<int>)
    requires n >= 0
    ensures |r| == n && forall k :: 0 <= k < n ==> r[k] == 0
  {
    seq(n, _ => 0)
  }
}
