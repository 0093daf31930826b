/** Sequence operations that stand for the source's `List<T>` methods. */
module Lists {

  /** No element occurs twice. */
  predicate Distinct<T(==)>(s: seq<T>)
  {
    forall i, j :: 0 <= i < j < |s| ==> s[i] != s[j]
  }

  /** `IndexOf`: the first position of `x`, or `|s|` when `x` does not occur. */
  function IndexOf<T(==)>(s: seq<T>, x: T): (i: nat)
    ensures i <= |s|
    ensures i < |s| ==> s[i] == x
    ensures x !in s[..i]
  {
    if s == [] then 0
    else if s[0] == x then 0
    else 1 + IndexOf(s[1..], x)
  }

  /**
   * `FirstOrDefault(p)` / `Find(p)` as a position: the first index whose
   * element satisfies `p`, or `|s|` when none does.
   */
  function FirstWhere<T>(s: seq<T>, p: T -> bool): (i: nat)
    ensures i <= |s|
    ensures i < |s| ==> p(s[i])
    ensures forall j :: 0 <= j < i ==> !p(s[j])
  {
    if s == [] then 0
    else if p(s[0]) then 0
    else 1 + FirstWhere(s[1..], p)
  }

  /** `List.Remove(x)`: drops the first occurrence of `x`, if any, keeping the order of the rest. */
  function RemoveFirst<T(==)>(s: seq<T>, x: T): (r: seq<T>)
    ensures x !in s ==> r == s
    ensures x in s ==> |r| == |s| - 1
  {
    var i := IndexOf(s, x);
    if i == |s| then s
    else
      assert s == s[..i] + [x] + s[i + 1..];
      s[..i] + s[i + 1..]
  }

  /** When the element at `k` does not occur before `k`, `Remove` drops exactly that position. */
  lemma RemoveFirstAt<T>(s: seq<T>, k: nat)
    requires k < |s| && s[k] !in s[..k]
    ensures RemoveFirst(s, s[k]) == s[..k] + s[k + 1..]
  {
    assert IndexOf(s, s[k]) == k by {
      var i := IndexOf(s, s[k]);
      assert i <= k by {
        assert s[..k + 1][k] == s[k];
        assert s[k] !in s[..i];
      }
    }
  }

  /** `Remove` takes away exactly one occurrence of `x`, when there is one, and leaves every other element. */
  lemma RemoveFirstCount<T>(s: seq<T>, x: T)
    ensures multiset(RemoveFirst(s, x)) == if x in s then multiset(s) - multiset{x} else multiset(s)
  {
    var i := IndexOf(s, x);
    if i < |s| {
      var a, b := s[..i], s[i + 1..];
      assert s == a + [x] + b;
      assert multiset(s) == multiset(a) + multiset{x} + multiset(b);
      assert RemoveFirst(s, x) == a + b;
    } else {
      assert s[..i] == s;
    }
  }

  /** In a list without repetitions, removing `x` removes every trace of it and nothing else. */
  lemma RemoveFirstDistinct<T>(s: seq<T>, x: T)
    requires Distinct(s)
    ensures Distinct(RemoveFirst(s, x))
    ensures forall y :: y in RemoveFirst(s, x) <==> y in s && y != x
  {
    var i := IndexOf(s, x);
    if i < |s| {
      var r := s[..i] + s[i + 1..];
      assert forall k :: 0 <= k < |r| ==> r[k] == (if k < i then s[k] else s[k + 1]);
      forall y
        ensures y in r <==> y in s && y != x
      {
        if y in s && y != x {
          var k :| 0 <= k < |s| && s[k] == y;
          assert k != i;
          assert r[if k < i then k else k - 1] == y;
        }
      }
    }
  }

  /** `Remove` on a list with a known head. */
  lemma RemoveFirstCons<T>(y: T, s: seq<T>, x: T)
    ensures RemoveFirst([y] + s, x) == if y == x then s else [y] + RemoveFirst(s, x)
  {
    if y == x {
      RemoveFirstHead(y, s);
    } else {
      RemoveFirstPastHead(y, s, x);
    }
  }

  lemma RemoveFirstHead<T>(y: T, s: seq<T>)
    ensures RemoveFirst([y] + s, y) == s
  {
    var l := [y] + s;
    assert IndexOf(l, y) == 0;
    assert l[..0] + l[1..] == s;
  }

  lemma RemoveFirstPastHead<T>(y: T, s: seq<T>, x: T)
    requires y != x
    ensures RemoveFirst([y] + s, x) == [y] + RemoveFirst(s, x)
  {
    var l := [y] + s;
    var i := IndexOf(s, x);
    assert IndexOf(l, x) == 1 + i by {
      assert l[1..] == s;
    }
    if i < |s| {
      assert l[..i + 1] == [y] + s[..i];
      assert l[i + 2..] == s[i + 1..];
    }
  }
}
