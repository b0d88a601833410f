/** The least and the greatest of some integers. */
module Bounds {
  function Lowest(s: seq<int>): (m: int)
    requires s != []
    ensures m in s && forall x :: x in s ==> m <= x
  {
    if |s| == 1 then s[0]
    else
      assert s == [s[0]] + s[1..];
      var m := Lowest(s[1..]);
      if s[0] <= m then s[0] else m
  }

  function Highest(s: seq<int>): (m: int)
    requires s != []
    ensures m in s && forall x :: x in s ==> x <= m
  {
    if |s| == 1 then s[0]
    else
      assert s == [s[0]] + s[1..];
      var m := Highest(s[1..]);
      if s[0] >= m then s[0] else m
  }
}
