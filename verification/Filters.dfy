/** What is left of a sequence when some of its elements are passed over. */
module Filters {

  function Filter<T>(s: seq<T>, keep: T -> bool): (kept: seq<T>)
    ensures |kept| <= |s|
  {
    if s == [] then []
    else Filter(s[..|s| - 1], keep) + if keep(s[|s| - 1]) then [s[|s| - 1]] else []
  }

  lemma FilterNext<T>(s: seq<T>, x: T, keep: T -> bool)
    ensures Filter(s + [x], keep) == Filter(s, keep) + (if keep(x) then [x] else [])
  {
    assert (s + [x])[..|s|] == s;
  }

  lemma {:induction false} FilterSplits<T>(a: seq<T>, b: seq<T>, keep: T -> bool)
    ensures Filter(a + b, keep) == Filter(a, keep) + Filter(b, keep)
  {
    if b == [] {
      assert a + b == a;
    } else {
      var front, x := b[..|b| - 1], b[|b| - 1];
      FilterSplits(a, front, keep);
      assert a + b == (a + front) + [x] && b == front + [x];
      FilterNext(a + front, x, keep);
      FilterNext(front, x, keep);
      hide Filter;
      var last := if keep(x) then [x] else [];
      assert (Filter(a, keep) + Filter(front, keep)) + last == Filter(a, keep) + (Filter(front, keep) + last);
    }
  }

  lemma {:induction false} FilterHolds<T>(s: seq<T>, keep: T -> bool, x: T)
    ensures x in Filter(s, keep) <==> x in s && keep(x)
  {
    if s != [] {
      FilterHolds(s[..|s| - 1], keep, x);
      assert s == s[..|s| - 1] + [s[|s| - 1]];
    }
  }

  lemma FilterMeans<T>(s: seq<T>, keep: T -> bool)
    ensures forall x :: x in Filter(s, keep) <==> x in s && keep(x)
  {
    forall x
      ensures x in Filter(s, keep) <==> x in s && keep(x)
    {
      FilterHolds(s, keep, x);
    }
  }

  /** One element has another somewhere behind it. */
  ghost predicate Before<T>(s: seq<T>, first: T, second: T) {
    exists a, b | 0 <= a < b < |s| :: s[a] == first && s[b] == second
  }

  lemma {:induction false} FilterKeepsOrder<T>(s: seq<T>, keep: T -> bool, i: nat, j: nat)
    requires i < j < |Filter(s, keep)|
    ensures Before(s, Filter(s, keep)[i], Filter(s, keep)[j])
  {
    var front, kept := s[..|s| - 1], Filter(s, keep);
    if j < |Filter(front, keep)| {
      FilterKeepsOrder(front, keep, i, j);
      var a, b :| 0 <= a < b < |front| && front[a] == kept[i] && front[b] == kept[j];
      assert s[a] == kept[i] && s[b] == kept[j];
    } else {
      assert kept[i] == Filter(front, keep)[i];
      FilterHolds(front, keep, kept[i]);
      var a :| 0 <= a < |front| && front[a] == kept[i];
      assert s[a] == kept[i] && s[|s| - 1] == kept[j];
    }
  }

  lemma {:induction false} FilterAll<T>(s: seq<T>, keep: T -> bool)
    requires forall x | x in s :: keep(x)
    ensures Filter(s, keep) == s
  {
    if s != [] {
      FilterAll(s[..|s| - 1], keep);
      assert s == s[..|s| - 1] + [s[|s| - 1]];
    }
  }

  lemma FilterNone<T>(s: seq<T>, keep: T -> bool)
    ensures (forall x | x in s :: !keep(x)) <==> Filter(s, keep) == []
  {
    if Filter(s, keep) == [] {
      forall x | x in s
        ensures !keep(x)
      {
        FilterHolds(s, keep, x);
      }
    } else {
      FilterHolds(s, keep, Filter(s, keep)[0]);
    }
  }

  /** Passing over twice is passing over once. */
  lemma {:induction false} FilterTwice<T>(s: seq<T>, first: T -> bool, second: T -> bool, both: T -> bool)
    requires forall x | x in s :: both(x) <==> first(x) && second(x)
    ensures Filter(Filter(s, first), second) == Filter(s, both)
  {
    if s != [] {
      var front, x := s[..|s| - 1], s[|s| - 1];
      FilterTwice(front, first, second, both);
      assert s == front + [x];
      FilterNext(front, x, first);
      FilterNext(front, x, both);
      FilterNext(Filter(front, first), x, second);
      hide Filter;
      assert Filter(front, first) + [] == Filter(front, first);
      assert Filter(front, both) + [] == Filter(front, both);
    }
  }
}
