/** Operations on sequences that several modules share. */
module Sequences {

  function Filter<T(!new)>(s: seq<T>, keep: T -> bool): (r: seq<T>)
    ensures forall x :: x in r <==> x in s && keep(x)
  {
    if s == [] then []
    else Filter(s[..|s| - 1], keep) + (if keep(s[|s| - 1]) then [s[|s| - 1]] else [])
  }

  lemma FilterPush<T(!new)>(s: seq<T>, x: T, keep: T -> bool)
    ensures Filter(s + [x], keep) == if keep(x) then Filter(s, keep) + [x] else Filter(s, keep)
  {
    assert (s + [x])[..|s|] == s;
  }

  lemma FilterMaybe<T(!new)>(s: seq<T>, x: T, keep: T -> bool, more: bool)
    ensures Filter(if more then s + [x] else s, keep)
            == if more && keep(x) then Filter(s, keep) + [x] else Filter(s, keep)
  {
    FilterPush(s, x, keep);
  }
}
