/** Tables as sequences of rows in insertion order, and the bulk delete of the
    rows a condition selects. */
module Tables {

  /** The rows of `s` that `keep` selects, in their original order: the table
      left behind by a bulk `delete ... where not keep`. */
  function Filter<T>(s: seq<T>, keep: T -> bool): (r: seq<T>)
    ensures |r| <= |s|
    ensures forall x | x in r :: x in s && keep(x)
    ensures forall x | x in s && keep(x) :: x in r
  {
    if s == [] then []
    else if keep(s[0]) then [s[0]] + Filter(s[1..], keep)
    else Filter(s[1..], keep)
  }

  /** Filtering a table with one more row at the end filters the old table
      and then that row. */
  lemma {:induction false} FilterAppend<T>(s: seq<T>, x: T, keep: T -> bool)
    ensures Filter(s + [x], keep) == Filter(s, keep) + (if keep(x) then [x] else [])
  {
    if s == [] {
      assert s + [x] == [x];
    } else {
      assert (s + [x])[1..] == s[1..] + [x];
      FilterAppend(s[1..], x, keep);
    }
  }

  /** The bulk delete keeps the order of the table: two remaining rows, the
      i-th before the j-th, come from positions `a < b` of the table. */
  lemma {:induction false} FilterKeepsOrder<T>(s: seq<T>, keep: T -> bool, i: nat, j: nat) returns (a: nat, b: nat)
    requires i < j < |Filter(s, keep)|
    ensures a < b < |s|
    ensures Filter(s, keep)[i] == s[a] && Filter(s, keep)[j] == s[b]
  {
    var tail := s[1..];
    var rest := Filter(tail, keep);
    if keep(s[0]) {
      assert Filter(s, keep) == [s[0]] + rest;
      if i == 0 {
        assert rest[j - 1] in rest;
        var k :| 0 <= k < |tail| && tail[k] == rest[j - 1];
        a, b := 0, k + 1;
      } else {
        var a', b' := FilterKeepsOrder(tail, keep, i - 1, j - 1);
        a, b := a' + 1, b' + 1;
      }
    } else {
      var a', b' := FilterKeepsOrder(tail, keep, i, j);
      a, b := a' + 1, b' + 1;
    }
  }
}
