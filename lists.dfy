/** List operations of Python that the bot uses on its integer lists:
    `sorted(set(xs))`, counting, `list.remove` (first occurrence only) and
    filtering one value out. */
module Lists {

  predicate StrictlyIncreasing(xs: seq<int>)
  {
    forall i, j :: 0 <= i < j < |xs| ==> xs[i] < xs[j]
  }

  /** Insert `x` into a strictly increasing list, keeping it strictly increasing. */
  function Insert(xs: seq<int>, x: int): (r: seq<int>)
    requires StrictlyIncreasing(xs)
    ensures StrictlyIncreasing(r)
    ensures forall v :: v in r <==> v in xs || v == x
  {
    if |xs| == 0 then [x]
    else if x < xs[0] then [x] + xs
    else if x == xs[0] then xs
    else [xs[0]] + Insert(xs[1..], x)
  }

  /** `sorted(set(xs))`: the strictly increasing list of the values of `xs`. */
  function SortedSet(xs: seq<int>): (r: seq<int>)
    ensures StrictlyIncreasing(r)
    ensures forall v :: v in r <==> v in xs
  {
    if |xs| == 0 then []
    else
      var r := Insert(SortedSet(xs[..|xs| - 1]), xs[|xs| - 1]);
      assert forall v :: v in xs <==> v in xs[..|xs| - 1] || v == xs[|xs| - 1] by {
        assert xs == xs[..|xs| - 1] + [xs[|xs| - 1]];
      }
      r
  }

  /** A strictly increasing list is determined by its values: `SortedSet`
      agrees with every other strictly increasing list holding the same values. */
  lemma {:induction false} StrictlyIncreasingUnique(a: seq<int>, b: seq<int>)
    requires StrictlyIncreasing(a) && StrictlyIncreasing(b)
    requires forall v :: v in a <==> v in b
    ensures a == b
  {
    assert |a| > 0 ==> a[0] in a && a[0] in b;
    assert |b| > 0 ==> b[0] in b && b[0] in a;
    if |a| > 0 && |b| > 0 {
      assert a[0] == b[0] by {
        assert b[0] in b && a[0] in a;
        assert b[0] in a && a[0] in b;
      }
      forall v
        ensures v in a[1..] <==> v in b[1..]
      {
        if v in a[1..] {
          assert v in b && v != b[0];
        }
        if v in b[1..] {
          assert v in a && v != a[0];
        }
      }
      StrictlyIncreasingUnique(a[1..], b[1..]);
      assert a == [a[0]] + a[1..];
      assert b == [b[0]] + b[1..];
    }
  }

  lemma AppendAssoc<T>(x: seq<T>, y: seq<T>, z: seq<T>)
    ensures (x + y) + z == x + (y + z)
  {
  }

  function Count<T(==)>(xs: seq<T>, x: T): nat
  {
    if |xs| == 0 then 0 else Count(xs[..|xs| - 1], x) + (if xs[|xs| - 1] == x then 1 else 0)
  }

  /** `xs.remove(x)` guarded by `x in xs`: drops the first occurrence only. */
  function RemoveFirst<T(==)>(xs: seq<T>, x: T): (r: seq<T>)
    ensures x in xs ==> |r| == |xs| - 1
    ensures x !in xs ==> r == xs
  {
    if |xs| == 0 then []
    else if xs[0] == x then xs[1..]
    else [xs[0]] + RemoveFirst(xs[1..], x)
  }

  /** `[y for y in xs if y != x]`: every occurrence of `x` dropped. */
  function Without<T(==,!new)>(xs: seq<T>, x: T): (r: seq<T>)
    ensures x !in r
    ensures forall y :: y in r <==> y in xs && y != x
  {
    if |xs| == 0 then []
    else Without(xs[..|xs| - 1], x) + (if xs[|xs| - 1] == x then [] else [xs[|xs| - 1]])
  }

  lemma {:induction false} CountAppend<T>(a: seq<T>, b: seq<T>, x: T)
    ensures Count(a + b, x) == Count(a, x) + Count(b, x)
  {
    if |b| > 0 {
      assert (a + b)[..|a + b| - 1] == a + b[..|b| - 1];
      CountAppend(a, b[..|b| - 1], x);
    } else {
      assert a + b == a;
    }
  }

  lemma {:induction false} CountPrepend<T>(y: T, b: seq<T>, x: T)
    ensures Count([y] + b, x) == (if y == x then 1 else 0) + Count(b, x)
  {
    CountAppend([y], b, x);
    assert [y][..0] == [];
  }

  lemma {:induction false} CountZero<T>(xs: seq<T>, x: T)
    ensures Count(xs, x) == 0 <==> x !in xs
  {
    if |xs| > 0 {
      CountZero(xs[..|xs| - 1], x);
      assert xs == xs[..|xs| - 1] + [xs[|xs| - 1]];
    }
  }

  /** `list.remove` takes away exactly one occurrence. */
  lemma {:induction false} CountRemoveFirst<T>(xs: seq<T>, x: T, y: T)
    ensures Count(RemoveFirst(xs, x), y) == if x == y && x in xs then Count(xs, y) - 1 else Count(xs, y)
  {
    if |xs| > 0 {
      assert xs == [xs[0]] + xs[1..];
      CountPrepend(xs[0], xs[1..], y);
      if xs[0] != x {
        CountRemoveFirst(xs[1..], x, y);
        CountPrepend(xs[0], RemoveFirst(xs[1..], x), y);
      }
    }
  }

  lemma {:induction false} WithoutAppend<T(!new)>(a: seq<T>, b: seq<T>, x: T)
    ensures Without(a + b, x) == Without(a, x) + Without(b, x)
  {
    if |b| > 0 {
      assert (a + b)[..|a + b| - 1] == a + b[..|b| - 1];
      WithoutAppend(a, b[..|b| - 1], x);
    } else {
      assert a + b == a;
    }
  }

  lemma {:induction false} WithoutPrepend<T(!new)>(y: T, b: seq<T>, x: T)
    ensures Without([y] + b, x) == (if y == x then [] else [y]) + Without(b, x)
  {
    var head := if y == x then [] else [y];
    if |b| == 0 {
      assert [y] + b == [y];
      assert [y][..0] == [];
    } else {
      var init := b[..|b| - 1];
      var last := b[|b| - 1];
      var tail := if last == x then [] else [last];
      assert ([y] + b)[..|[y] + b| - 1] == [y] + init;
      assert ([y] + b)[|[y] + b| - 1] == last;
      WithoutPrepend(y, init, x);
      assert Without([y] + b, x) == head + Without(init, x) + tail;
      assert Without(b, x) == Without(init, x) + tail;
    }
  }

  /** Removing one occurrence of `x` does not change what the other values
      look like, in order. */
  lemma {:induction false} WithoutRemoveFirst<T(!new)>(xs: seq<T>, x: T)
    ensures Without(RemoveFirst(xs, x), x) == Without(xs, x)
  {
    if |xs| > 0 {
      assert xs == [xs[0]] + xs[1..];
      WithoutPrepend(xs[0], xs[1..], x);
      if xs[0] != x {
        WithoutRemoveFirst(xs[1..], x);
        WithoutPrepend(xs[0], RemoveFirst(xs[1..], x), x);
      }
    }
  }

  /** Counting another value is the same with `x` filtered out. */
  lemma {:induction false} CountWithout<T(!new)>(xs: seq<T>, x: T, y: T)
    requires y != x
    ensures Count(Without(xs, x), y) == Count(xs, y)
  {
    if |xs| > 0 {
      var init := xs[..|xs| - 1];
      CountWithout(init, x, y);
      var last := if xs[|xs| - 1] == x then [] else [xs[|xs| - 1]];
      CountAppend(Without(init, x), last, y);
      assert [xs[|xs| - 1]][..0] == [];
    }
  }

  /** Filtering out a value that is absent changes nothing, so filtering is
      idempotent. */
  lemma {:induction false} WithoutAbsent<T(!new)>(xs: seq<T>, x: T)
    requires x !in xs
    ensures Without(xs, x) == xs
  {
    if |xs| > 0 {
      WithoutAbsent(xs[..|xs| - 1], x);
      assert xs == xs[..|xs| - 1] + [xs[|xs| - 1]];
    }
  }
}
