/** The two Python list operations the bot relies on: slicing `s[:n]` and `list.remove(x)`. */
module Lists {

  /** Python's `s[:n]`: the first `n` elements, or all of `s` when it is shorter. */
  function Take<T>(s: seq<T>, n: nat): (r: seq<T>)
    ensures |r| == if |s| < n then |s| else n
    ensures r == s[..|r|]
  {
    if |s| <= n then s else s[..n]
  }

  /** Python's `list.remove(x)`: drops the FIRST element equal to `x`. Python raises `ValueError`
      when `x` is absent; this function then returns `s` as it is, and its callers prove presence. */
  function Remove<T(==)>(s: seq<T>, x: T): seq<T> {
    if s == [] then []
    else if s[0] == x then s[1..]
    else [s[0]] + Remove(s[1..], x)
  }

  /** `list.remove(x)` on a list holding `x` takes away exactly one copy of it and nothing else. */
  lemma {:induction false} RemoveCount<T>(s: seq<T>, x: T)
    requires x in s
    ensures multiset(Remove(s, x)) == multiset(s) - multiset{x}
    ensures |Remove(s, x)| == |s| - 1
  {
    assert s == [s[0]] + s[1..];
    if s[0] != x {
      RemoveCount(s[1..], x);
    }
  }

  /** Removing `x` touches only its first occurrence: everything before it stays in place. */
  lemma {:induction false} RemoveFirstOccurrence<T>(a: seq<T>, x: T, b: seq<T>)
    requires x !in a
    ensures x in a + [x] + b && Remove(a + [x] + b, x) == a + b
  {
    var s := a + [x] + b;
    assert s[|a|] == x;
    if a == [] {
      assert s[0] == x && s[1..] == b;
    } else {
      assert s[0] == a[0] != x;
      assert s[1..] == a[1..] + [x] + b;
      RemoveFirstOccurrence(a[1..], x, b);
      assert a == [a[0]] + a[1..];
    }
  }
}
