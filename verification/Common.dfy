/** Small vocabulary shared by the models: optional values, bytes, filtered and increasing sequences. */
module Common {

  datatype Option<+T> = None | Some(value: T)

  type Byte = b: nat | b < 256

  predicate Increasing(numbers: seq<nat>) {
    forall i, j :: 0 <= i < j < |numbers| ==> numbers[i] < numbers[j]
  }

  /** The elements of s that satisfy keep, in order. */
  function Filter<T(!new)>(s: seq<T>, keep: T -> bool): (r: seq<T>)
    ensures forall x :: x in r <==> x in s && keep(x)
  {
    if s == [] then []
    else
      var front := Filter(s[..|s| - 1], keep);
      assert s == s[..|s| - 1] + [s[|s| - 1]];
      if keep(s[|s| - 1]) then front + [s[|s| - 1]] else front
  }

  lemma FilterSnoc<T(!new)>(s: seq<T>, x: T, keep: T -> bool)
    ensures Filter(s + [x], keep) == Filter(s, keep) + (if keep(x) then [x] else [])
  {
    assert (s + [x])[..|s|] == s;
  }

  /** f on every element. */
  function Map<A, B>(s: seq<A>, f: A -> B): (r: seq<B>)
    ensures |r| == |s| && forall i :: 0 <= i < |s| ==> r[i] == f(s[i])
  {
    seq(|s|, i requires 0 <= i < |s| => f(s[i]))
  }

  lemma MapConcat<A, B>(s: seq<A>, t: seq<A>, f: A -> B)
    ensures Map(s + t, f) == Map(s, f) + Map(t, f)
  {
  }

  /** The sequences of ss one after the other. */
  function Flatten<T>(ss: seq<seq<T>>): seq<T> {
    if ss == [] then [] else Flatten(ss[..|ss| - 1]) + ss[|ss| - 1]
  }

  lemma FlattenSnoc<T>(ss: seq<seq<T>>, s: seq<T>)
    ensures Flatten(ss + [s]) == Flatten(ss) + s
  {
    assert (ss + [s])[..|ss|] == ss;
  }

  /** All the values, or None when one is missing: a loop that raises at the first bad item. */
  function AllSome<T>(items: seq<Option<T>>): Option<seq<T>> {
    if items == [] then Some([])
    else
      match (AllSome(items[..|items| - 1]), items[|items| - 1])
      case (Some(front), Some(last)) => Some(front + [last])
      case _ => None
  }

  lemma AllSomeSnoc<T>(items: seq<Option<T>>, item: Option<T>)
    ensures AllSome(items + [item])
            == if AllSome(items).Some? && item.Some? then Some(AllSome(items).value + [item.value]) else None
  {
    assert (items + [item])[..|items|] == items;
  }

  lemma {:induction false} AllSomeConcat<T>(a: seq<Option<T>>, b: seq<Option<T>>)
    requires AllSome(a).Some? && AllSome(b).Some?
    ensures AllSome(a + b) == Some(AllSome(a).value + AllSome(b).value)
  {
    if b == [] {
      assert a + b == a && AllSome(a).value + [] == AllSome(a).value;
    } else {
      var front, last := b[..|b| - 1], b[|b| - 1];
      AllSomeConcat(a, front);
      AllSomeSnoc(a + front, last);
      AllSomeSnoc(front, last);
      assert a + b == (a + front) + [last] && b == front + [last];
      var xs, ys := AllSome(a).value, AllSome(front).value;
      assert (xs + ys) + [last.value] == xs + (ys + [last.value]);
    }
  }

  lemma {:induction false} AllSomeIs<T>(items: seq<Option<T>>)
    ensures AllSome(items).Some? <==> forall i :: 0 <= i < |items| ==> items[i].Some?
    ensures AllSome(items).Some? ==>
      |AllSome(items).value| == |items| && forall i :: 0 <= i < |items| ==> items[i] == Some(AllSome(items).value[i])
  {
    if items == [] {
    } else {
      AllSomeIs(items[..|items| - 1]);
    }
  }
}
