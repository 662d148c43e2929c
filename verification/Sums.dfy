/** Sums over sequences and sets, sizes, and why the order of reading does not matter. */
module Sums {

  function Sum<T>(s: seq<T>, f: T -> int): int {
    if s == [] then 0 else Sum(s[..|s| - 1], f) + f(s[|s| - 1])
  }

  lemma {:induction false} SumAppend<T>(a: seq<T>, b: seq<T>, f: T -> int)
    ensures Sum(a + b, f) == Sum(a, f) + Sum(b, f)
  {
    if b == [] {
      assert a + b == a;
    } else {
      assert (a + b)[..|a + b| - 1] == a + b[..|b| - 1];
      SumAppend(a, b[..|b| - 1], f);
    }
  }

  /** Taking the i-th element out of the sum and of the contents. */
  lemma SumWithout<T>(s: seq<T>, i: nat, f: T -> int)
    requires i < |s|
    ensures var rest := s[..i] + s[i + 1..];
      Sum(s, f) == Sum(rest, f) + f(s[i]) && multiset(rest) == multiset(s) - multiset{s[i]}
  {
    hide Sum;
    var front, back := s[..i], s[i + 1..];
    assert s == front + [s[i]] + back;
    SumAppend(front, [s[i]], f);
    SumAppend(front + [s[i]], back, f);
    SumAppend(front, back, f);
    SumOne(s[i], f);
    assert multiset(s) == multiset(front) + multiset{s[i]} + multiset(back);
  }

  lemma SumOne<T>(x: T, f: T -> int)
    ensures Sum([x], f) == f(x) && Sum([], f) == 0
  {
    assert [x][..0] == [];
  }

  lemma {:induction false} SumPermuted<T>(a: seq<T>, b: seq<T>, f: T -> int)
    requires multiset(a) == multiset(b)
    ensures Sum(a, f) == Sum(b, f)
    decreases |a|
  {
    hide Sum;
    if a == [] {
      assert |multiset(b)| == |b|;
    } else {
      var x := a[|a| - 1];
      assert x in multiset(b);
      var i :| 0 <= i < |b| && b[i] == x;
      SumWithout(a, |a| - 1, f);
      SumWithout(b, i, f);
      SumPermuted(a[..|a| - 1] + a[|a|..], b[..i] + b[i + 1..], f);
    }
  }

  lemma {:induction false} SumSame<T>(s: seq<T>, f: T -> int, g: T -> int)
    requires forall x :: x in s ==> f(x) == g(x)
    ensures Sum(s, f) == Sum(s, g)
  {
    if s != [] { SumSame(s[..|s| - 1], f, g); }
  }

  lemma {:induction false} SumAdds<T>(s: seq<T>, f: T -> int, g: T -> int, h: T -> int)
    requires forall x :: x in s ==> h(x) == f(x) + g(x)
    ensures Sum(s, h) == Sum(s, f) + Sum(s, g)
  {
    if s != [] { SumAdds(s[..|s| - 1], f, g, h); }
  }

  lemma {:induction false} SumOnes<T>(s: seq<T>, f: T -> int)
    requires forall x :: x in s ==> f(x) == 1
    ensures Sum(s, f) == |s|
  {
    if s != [] { SumOnes(s[..|s| - 1], f); }
  }

  ghost function SumSet<K>(keys: set<K>, f: K -> int): int {
    if keys == {} then 0
    else
      var k :| k in keys;
      f(k) + SumSet(keys - {k}, f)
  }

  /** Any element may be taken out first. */
  lemma {:induction false} SumSetTake<K>(keys: set<K>, k: K, f: K -> int)
    requires k in keys
    ensures SumSet(keys, f) == f(k) + SumSet(keys - {k}, f)
    decreases keys
  {
    var m :| m in keys && SumSet(keys, f) == f(m) + SumSet(keys - {m}, f);
    if m != k {
      SumSetTake(keys - {m}, k, f);
      SumSetTake(keys - {k}, m, f);
      assert keys - {m} - {k} == keys - {k} - {m};
    }
  }

  lemma {:induction false} SumSetSame<K>(keys: set<K>, f: K -> int, g: K -> int)
    requires forall k :: k in keys ==> f(k) == g(k)
    ensures SumSet(keys, f) == SumSet(keys, g)
    decreases keys
  {
    if keys != {} {
      var k :| k in keys;
      SumSetTake(keys, k, f);
      SumSetTake(keys, k, g);
      SumSetSame(keys - {k}, f, g);
    }
  }

  lemma {:induction false} SumSetZero<K>(keys: set<K>, f: K -> int)
    requires forall k :: k in keys ==> f(k) == 0
    ensures SumSet(keys, f) == 0
    decreases keys
  {
    if keys != {} {
      var k :| k in keys;
      SumSetTake(keys, k, f);
      SumSetZero(keys - {k}, f);
    }
  }

  lemma {:induction false} SumSetAdds<K>(keys: set<K>, f: K -> int, g: K -> int, h: K -> int)
    requires forall k :: k in keys ==> h(k) == f(k) + g(k)
    ensures SumSet(keys, h) == SumSet(keys, f) + SumSet(keys, g)
    decreases keys
  {
    if keys != {} {
      var k :| k in keys;
      SumSetTake(keys, k, f);
      SumSetTake(keys, k, g);
      SumSetTake(keys, k, h);
      SumSetAdds(keys - {k}, f, g, h);
    }
  }

  /** The part of a sum that falls to one class. */
  function Part<T, K(==)>(s: seq<T>, class_: T -> K, k: K, g: T -> int): int {
    Sum(s, (x: T) => if class_(x) == k then g(x) else 0)
  }

  lemma PartNext<T, K>(s: seq<T>, x: T, class_: T -> K, k: K, g: T -> int)
    ensures Part(s + [x], class_, k, g) == Part(s, class_, k, g) + if class_(x) == k then g(x) else 0
  {
    assert (s + [x])[..|s|] == s;
  }

  lemma {:induction false} PartSum<T, K>(s: seq<T>, class_: T -> K, k: K, g: T -> int, h: T -> int)
    requires forall x :: h(x) == if class_(x) == k then g(x) else 0
    ensures Part(s, class_, k, g) == Sum(s, h)
  {
    if s != [] {
      var front, x := s[..|s| - 1], s[|s| - 1];
      assert s == front + [x];
      PartNext(front, x, class_, k, g);
      PartSum(front, class_, k, g, h);
    }
  }

  lemma PartPermuted<T, K>(a: seq<T>, b: seq<T>, class_: T -> K, k: K, g: T -> int)
    requires multiset(a) == multiset(b)
    ensures Part(a, class_, k, g) == Part(b, class_, k, g)
  {
    SumPermuted(a, b, (x: T) => if class_(x) == k then g(x) else 0);
  }

  /** Splitting a sum by class and adding the parts up again loses and doubles nothing. */
  lemma {:induction false} Partition<T, K>(s: seq<T>, keys: set<K>, class_: T -> K, g: T -> int)
    requires forall x :: x in s ==> class_(x) in keys
    ensures SumSet(keys, (k: K) => Part(s, class_, k, g)) == Sum(s, g)
  {
    if s == [] {
      SumSetZero(keys, (k: K) => Part(s, class_, k, g));
    } else {
      var front, x := s[..|s| - 1], s[|s| - 1];
      var own := class_(x);
      var before, after := (k: K) => Part(front, class_, k, g), (k: K) => Part(s, class_, k, g);
      var here := (k: K) => if k == own then g(x) else 0;
      Partition(front, keys, class_, g);
      SumSetAdds(keys, before, here, after);
      SumSetTake(keys, own, here);
      SumSetZero(keys - {own}, here);
    }
  }

  lemma {:induction false} SumSetUnion<K>(a: set<K>, b: set<K>, f: K -> int)
    requires a !! b
    ensures SumSet(a + b, f) == SumSet(a, f) + SumSet(b, f)
    decreases a
  {
    if a == {} {
      assert a + b == b;
    } else {
      var k :| k in a;
      SumSetTake(a, k, f);
      SumSetTake(a + b, k, f);
      assert a + b - {k} == (a - {k}) + b;
      SumSetUnion(a - {k}, b, f);
    }
  }

  /** Adding up the parts of some classes counts exactly the elements in them. */
  lemma {:induction false} PartitionWithin<T, K>(s: seq<T>, keys: set<K>, class_: T -> K, g: T -> int,
                                                 part: K -> int, within: T -> int)
    requires forall k :: part(k) == Part(s, class_, k, g)
    requires forall x :: within(x) == if class_(x) in keys then g(x) else 0
    ensures SumSet(keys, part) == Sum(s, within)
  {
    if s == [] {
      SumSetZero(keys, part);
    } else {
      var front, x := s[..|s| - 1], s[|s| - 1];
      var own := class_(x);
      var before := (k: K) => Part(front, class_, k, g);
      var here := (k: K) => if k == own then g(x) else 0;
      PartitionWithin(front, keys, class_, g, before, within);
      SumSetAdds(keys, before, here, part);
      if own in keys { SumSetTake(keys, own, here); }
      SumSetZero(keys - {own}, here);
      assert own !in keys ==> keys - {own} == keys;
    }
  }

  /** Two sequences without repetition that have the same elements are permutations. */
  lemma {:induction false} SameElements<T>(a: seq<T>, b: seq<T>)
    requires forall i, j :: 0 <= i < j < |a| ==> a[i] != a[j]
    requires forall i, j :: 0 <= i < j < |b| ==> b[i] != b[j]
    requires forall x :: x in a <==> x in b
    ensures multiset(a) == multiset(b)
  {
    forall x ensures multiset(a)[x] == multiset(b)[x] {
      OnceAtMost(a, x);
      OnceAtMost(b, x);
    }
  }

  lemma {:induction false} OnceAtMost<T>(a: seq<T>, x: T)
    requires forall i, j :: 0 <= i < j < |a| ==> a[i] != a[j]
    ensures multiset(a)[x] == if x in a then 1 else 0
  {
    if a != [] {
      var front := a[..|a| - 1];
      assert a == front + [a[|a| - 1]];
      OnceAtMost(front, x);
      assert forall i :: 0 <= i < |front| ==> front[i] == a[i] && a[i] != a[|a| - 1];
    }
  }

  lemma {:induction false} SubsetSize<T>(a: set<T>, b: set<T>)
    requires a <= b
    ensures |a| <= |b|
  {
    assert b == a + (b - a);
  }
}
