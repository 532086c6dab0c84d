/** How often things occur in lists, and lists that agree up to order. */
module Lists {
  ghost function Tally<T>(s: seq<T>, x: T): nat {
    if s == [] then 0 else Tally(s[..|s| - 1], x) + if s[|s| - 1] == x then 1 else 0
  }

  lemma {:induction false} TallyConcat<T>(a: seq<T>, b: seq<T>, x: T)
    ensures Tally(a + b, x) == Tally(a, x) + Tally(b, x)
  {
    if b == [] {
      assert a + b == a;
    } else {
      TallyConcat(a, b[..|b| - 1], x);
      assert (a + b)[..|a + b| - 1] == a + b[..|b| - 1];
    }
  }

  lemma TallyPlus<T>(a: seq<T>, y: T, x: T)
    ensures Tally(a + [y], x) == Tally(a, x) + if y == x then 1 else 0
  {
    assert (a + [y])[..|a|] == a;
  }

  lemma {:induction false} TallyOfMember<T>(s: seq<T>, x: T)
    ensures Tally(s, x) > 0 <==> x in s
  {
    if s != [] {
      TallyOfMember(s[..|s| - 1], x);
    }
  }

  ghost predicate Same<T(!new)>(a: seq<T>, b: seq<T>) {
    forall x :: Tally(a, x) == Tally(b, x)
  }

  /** Takes one occurrence of the last element of `a` out of `b`. */
  lemma Remove<T(!new)>(a: seq<T>, b: seq<T>) returns (before: seq<T>, after: seq<T>)
    requires Same(a, b) && a != []
    ensures b == before + [a[|a| - 1]] + after && Same(a[..|a| - 1], before + after)
  {
    var x := a[|a| - 1];
    TallyOfMember(a, x);
    TallyOfMember(b, x);
    var k :| 0 <= k < |b| && b[k] == x;
    before, after := b[..k], b[k + 1..];
    assert b == before + [x] + after;
    forall y ensures Tally(a[..|a| - 1], y) == Tally(before + after, y) {
      assert Tally(a, y) == Tally(b, y);
      TallyConcat(before + [x], after, y);
      TallyPlus(before, x, y);
      TallyConcat(before, after, y);
    }
  }

  lemma LastTally<T>(s: seq<T>)
    ensures s == [] || Tally(s, s[|s| - 1]) > 0
  {
  }

  lemma {:induction false} SameLength<T(!new)>(a: seq<T>, b: seq<T>)
    requires Same(a, b)
    ensures |a| == |b|
  {
    LastTally(b);
    if a != [] {
      var before, after := Remove(a, b);
      SameLength(a[..|a| - 1], before + after);
    }
  }
}
