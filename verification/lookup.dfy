/** Lookups that may find nothing: an optional value, and the first position of a value in a sequence. */
module Lookup {
  datatype Option<+T> = None | Some(value: T)

  /**
   * The first position of `x` in `s`, if any: the panel `getElementById`
   * finds among same-id candidates, and the first "@" of an address.
   */
  function FirstIndex<T(==)>(s: seq<T>, x: T): (r: Option<nat>)
    ensures r.None? <==> x !in s
    ensures r.Some? ==> r.value < |s| && s[r.value] == x && x !in s[..r.value]
  {
    if |s| == 0 then None
    else if s[0] == x then Some(0)
    else
      match FirstIndex(s[1..], x)
      case None => None
      case Some(k) =>
        assert s[..k + 1] == [s[0]] + s[1..][..k];
        Some(k + 1)
  }
}
