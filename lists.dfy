/** The array operations the services apply to id lists: includes, indexOf,
    push and splice(i, 1), with id equality in place of ObjectId comparison. */
module Lists {

  /** Array.prototype.indexOf: the first position of x in xs, or -1. */
  function IndexOf<T(==)>(xs: seq<T>, x: T): (r: int)
    ensures r == -1 <==> x !in xs
    ensures r != -1 ==> 0 <= r < |xs| && xs[r] == x && x !in xs[..r]
  {
    if |xs| == 0 then -1
    else if xs[0] == x then 0
    else
      var k := IndexOf(xs[1..], x);
      assert xs[1..][..if k < 0 then 0 else k] == xs[1..if k < 0 then 1 else k + 1];
      if k == -1 then -1 else k + 1
  }

  /** splice(i, 1): drop the element at position i, keep the order of the rest. */
  function RemoveAt<T>(xs: seq<T>, i: nat): (r: seq<T>)
    requires i < |xs|
    ensures |r| == |xs| - 1
    ensures forall k :: 0 <= k < i ==> r[k] == xs[k]
    ensures forall k :: i <= k < |r| ==> r[k] == xs[k + 1]
    ensures multiset(r) == multiset(xs) - multiset{xs[i]}
  {
    assert xs == xs[..i] + [xs[i]] + xs[i + 1..];
    xs[..i] + xs[i + 1..]
  }

  /** splice(indexOf(x), 1) for an x that occurs: the first occurrence of x
      goes, everything else stays in order. */
  function RemoveFirst<T(==)>(xs: seq<T>, x: T): (r: seq<T>)
    requires x in xs
    ensures |r| == |xs| - 1
    ensures multiset(r) == multiset(xs) - multiset{x}
    ensures exists i :: 0 <= i < |xs| && xs[i] == x && x !in xs[..i] && r == xs[..i] + xs[i + 1..]
  {
    var i := IndexOf(xs, x);
    assert xs[i] == x && x !in xs[..i];
    RemoveAt(xs, i)
  }

  /** No id occurs twice. */
  ghost predicate Distinct<T>(xs: seq<T>) {
    forall i, j :: 0 <= i < j < |xs| ==> xs[i] != xs[j]
  }

  function Elements<T>(xs: seq<T>): set<T> {
    set x | x in xs
  }

  /** Concatenation is associative; stated once so that a proof with many
      sequence facts in scope can use it without extensionality. */
  lemma AppendAssoc<T>(a: seq<T>, b: seq<T>, c: seq<T>)
    ensures (a + b) + c == a + (b + c)
  {
  }

  /** A prefix of a + b that reaches into b is a followed by a prefix of b. */
  lemma TakeAppend<T>(a: seq<T>, b: seq<T>, j: nat)
    requires j <= |b|
    ensures (a + b)[..|a| + j] == a + b[..j]
  {
  }

  /** Appending a new element and then removing its first occurrence gives
      back the original list. */

  lemma {:induction false} PushThenRemoveFirst<T>(xs: seq<T>, x: T)
    requires x !in xs
    ensures x in xs + [x]
    ensures RemoveFirst(xs + [x], x) == xs
  {
    var ys := xs + [x];
    assert ys[|xs|] == x;
    var i := IndexOf(ys, x);
    assert i == |xs|;
    assert ys[..i] == xs;
  }

  /** A list has at most as many distinct elements as entries, and exactly
      as many when no element repeats. */
  lemma {:induction false} ElementsCount<T>(xs: seq<T>)
    ensures |Elements(xs)| <= |xs|
    ensures |Elements(xs)| == |xs| <==> Distinct(xs)
  {
    if |xs| == 0 {
      assert Elements(xs) == {};
    } else {
      var ys := xs[1..];
      ElementsCount(ys);
      ElementsCons(xs);
      DistinctCons(xs);
      if xs[0] in ys {
        assert Elements(xs) == Elements(ys);
      } else {
        assert |Elements(xs)| == |Elements(ys)| + 1;
      }
    }
  }

  /** The elements of a non-empty list: its head and those of its tail. */
  lemma ElementsCons<T>(xs: seq<T>)
    requires |xs| > 0
    ensures Elements(xs) == {xs[0]} + Elements(xs[1..])
  {
    assert xs == [xs[0]] + xs[1..];
  }

  /** A non-empty list is distinct exactly when its head is not in its tail
      and its tail is distinct. */
  lemma DistinctCons<T>(xs: seq<T>)
    requires |xs| > 0
    ensures Distinct(xs) <==> xs[0] !in xs[1..] && Distinct(xs[1..])
  {
    var ys := xs[1..];
    if xs[0] in ys {
      var j :| 0 <= j < |ys| && ys[j] == xs[0];
      assert xs[0] == xs[j + 1];
    }
    if !Distinct(ys) {
      var i, j :| 0 <= i < j < |ys| && ys[i] == ys[j];
      assert xs[i + 1] == xs[j + 1];
    }
    if xs[0] !in ys && Distinct(ys) {
      forall i, j | 0 <= i < j < |xs| ensures xs[i] != xs[j] {
        assert xs[j] == ys[j - 1];
        if i > 0 {
          assert xs[i] == ys[i - 1];
        }
      }
    }
  }
}
