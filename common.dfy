/** Small value types and the one search every table lookup of the backend uses. */
module Common {

  datatype Option<+T> = None | Some(value: T)

  /** The index of the first element of `s` that satisfies `p`.
      Every `session.exec(select(...).where(...)).first()` of the backend is
      this search over a table whose rows are kept in primary-key order. */
  function FirstMatch<T>(s: seq<T>, p: T -> bool): (r: Option<nat>)
    ensures r.Some? ==> r.value < |s| && p(s[r.value])
    ensures r.Some? ==> forall j :: 0 <= j < r.value ==> !p(s[j])
    ensures r.None? <==> forall j :: 0 <= j < |s| ==> !p(s[j])
  {
    if |s| == 0 then None
    else if p(s[0]) then Some(0)
    else match FirstMatch(s[1..], p)
      case None => None
      case Some(i) => Some(i + 1)
  }
}
