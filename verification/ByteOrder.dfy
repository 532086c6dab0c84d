/** Records sorted by a key of bytes, as `Buffer.compare` orders them. */
module ByteOrder {
  import opened Lists
  import opened Prelude

  type Bytes = seq<byte>

  datatype Keyed<T> = Keyed(key: Bytes, value: T)

  // ----- The order of keys -----

  /** Bytewise lexicographic; a proper prefix comes first. */
  predicate Leq(a: Bytes, b: Bytes) {
    a == [] || (b != [] && (a[0] < b[0] || (a[0] == b[0] && Leq(a[1..], b[1..]))))
  }

  lemma FirstsAgree(a: Bytes, b: Bytes, k: nat)
    requires k <= |a| && k <= |b| && a[..k] == b[..k]
    ensures k == 0 || a[0] == b[0]
  {
    if k > 0 {
      assert a[..k][0] == a[0] && b[..k][0] == b[0];
    }
  }

  /** A prefix, or smaller at the first difference. */
  lemma {:induction false} LeqIsLexicographic(a: Bytes, b: Bytes)
    ensures Leq(a, b) <==> a <= b || exists k :: 0 <= k < |a| && k < |b| && a[..k] == b[..k] && a[k] < b[k]
  {
    if a != [] && b != [] && a[0] == b[0] {
      LeqIsLexicographic(a[1..], b[1..]);
      assert a == [a[0]] + a[1..] && b == [b[0]] + b[1..];
      if k :| 0 <= k < |a[1..]| && k < |b[1..]| && a[1..][..k] == b[1..][..k] && a[1..][k] < b[1..][k] {
        assert a[..k + 1] == [a[0]] + a[1..][..k] && b[..k + 1] == [b[0]] + b[1..][..k];
        assert a[k + 1] < b[k + 1];
      }
      if k :| 0 <= k < |a| && k < |b| && a[..k] == b[..k] && a[k] < b[k] {
        assert k > 0;
        assert a[1..][..k - 1] == a[..k][1..] && b[1..][..k - 1] == b[..k][1..];
        assert a[1..][k - 1] < b[1..][k - 1];
      }
    } else if a != [] && b != [] && a[0] < b[0] {
      assert a[..0] == b[..0];
    } else if a != [] && b != [] {
      forall k | 0 <= k < |a| && k < |b| && a[..k] == b[..k] ensures k == 0 {
        FirstsAgree(a, b, k);
      }
    }
  }

  lemma {:induction false} LeqIsTotal(a: Bytes, b: Bytes)
    ensures Leq(a, b) || Leq(b, a)
    ensures Leq(a, b) && Leq(b, a) ==> a == b
  {
    if a != [] && b != [] {
      LeqIsTotal(a[1..], b[1..]);
      assert a == [a[0]] + a[1..] && b == [b[0]] + b[1..];
    }
  }

  lemma {:induction false} LeqIsTransitive(a: Bytes, b: Bytes, c: Bytes)
    requires Leq(a, b) && Leq(b, c)
    ensures Leq(a, c)
  {
    if a != [] && a[0] == c[0] {
      LeqIsTransitive(a[1..], b[1..], c[1..]);
    }
  }

  // ----- Sorting -----

  predicate Sorted<T>(s: seq<Keyed<T>>) {
    forall j, k :: 0 <= j < k < |s| ==> Leq(s[j].key, s[k].key)
  }

  function Insert<T>(s: seq<Keyed<T>>, x: Keyed<T>): seq<Keyed<T>> {
    if s == [] || Leq(s[|s| - 1].key, x.key) then s + [x]
    else Insert(s[..|s| - 1], x) + [s[|s| - 1]]
  }

  /** The stable sort by key. */
  function Sort<T>(s: seq<Keyed<T>>): seq<Keyed<T>> {
    if s == [] then [] else Insert(Sort(s[..|s| - 1]), s[|s| - 1])
  }

  lemma {:induction false} InsertTally<T>(s: seq<Keyed<T>>, x: Keyed<T>, y: Keyed<T>)
    ensures Tally(Insert(s, x), y) == Tally(s, y) + if x == y then 1 else 0
  {
    if s == [] || Leq(s[|s| - 1].key, x.key) {
      TallyPlus(s, x, y);
    } else {
      InsertTally(s[..|s| - 1], x, y);
      TallyPlus(Insert(s[..|s| - 1], x), s[|s| - 1], y);
    }
  }

  lemma {:induction false} SortTally<T>(s: seq<Keyed<T>>, y: Keyed<T>)
    ensures Tally(Sort(s), y) == Tally(s, y)
  {
    if s != [] {
      SortTally(s[..|s| - 1], y);
      InsertTally(Sort(s[..|s| - 1]), s[|s| - 1], y);
    }
  }

  lemma {:induction false} InsertMember<T>(s: seq<Keyed<T>>, x: Keyed<T>, y: Keyed<T>)
    ensures y in Insert(s, x) <==> y in s || y == x
  {
    if s != [] && !Leq(s[|s| - 1].key, x.key) {
      InsertMember(s[..|s| - 1], x, y);
    }
  }

  lemma {:induction false} InsertKeepsSorted<T>(s: seq<Keyed<T>>, x: Keyed<T>)
    requires Sorted(s)
    ensures Sorted(Insert(s, x))
  {
    if s == [] {
    } else if Leq(s[|s| - 1].key, x.key) {
      forall k | 0 <= k < |s| ensures Leq(s[k].key, x.key) {
        if k < |s| - 1 {
          LeqIsTransitive(s[k].key, s[|s| - 1].key, x.key);
        }
      }
    } else {
      var shorter, last := s[..|s| - 1], s[|s| - 1];
      InsertKeepsSorted(shorter, x);
      LeqIsTotal(last.key, x.key);
      forall k | 0 <= k < |Insert(shorter, x)| ensures Leq(Insert(shorter, x)[k].key, last.key) {
        InsertMember(shorter, x, Insert(shorter, x)[k]);
      }
    }
  }

  lemma {:induction false} SortIsSorted<T>(s: seq<Keyed<T>>)
    ensures Sorted(Sort(s))
  {
    if s != [] {
      SortIsSorted(s[..|s| - 1]);
      InsertKeepsSorted(Sort(s[..|s| - 1]), s[|s| - 1]);
    }
  }

  lemma SortIsSame<T(!new)>(s: seq<Keyed<T>>)
    ensures Same(Sort(s), s)
  {
    forall y ensures Tally(Sort(s), y) == Tally(s, y) {
      SortTally(s, y);
    }
  }

  predicate KeysDetermine<T(==)>(s: seq<Keyed<T>>) {
    forall x, y :: x in s && y in s && x.key == y.key ==> x == y
  }

  lemma LastIsLargest<T>(s: seq<Keyed<T>>, x: Keyed<T>)
    requires Sorted(s) && x in s
    ensures Leq(x.key, s[|s| - 1].key)
  {
    LeqIsTotal(x.key, x.key);
  }

  /** Where keys determine the records, there is only one way to sort them. */
  lemma {:induction false} SortedIsUnique<T(!new)>(a: seq<Keyed<T>>, b: seq<Keyed<T>>)
    requires Sorted(a) && Sorted(b) && Same(a, b) && KeysDetermine(a)
    ensures a == b
  {
    SameLength(a, b);
    if a != [] {
      var x, y := a[|a| - 1], b[|b| - 1];
      TallyOfMember(a, x);
      TallyOfMember(b, x);
      TallyOfMember(a, y);
      TallyOfMember(b, y);
      LastIsLargest(a, y);
      LastIsLargest(b, x);
      LeqIsTotal(x.key, y.key);
      var a', b' := a[..|a| - 1], b[..|b| - 1];
      forall z ensures Tally(a', z) == Tally(b', z) {
        assert Tally(a, z) == Tally(b, z);
      }
      SortedIsUnique(a', b');
    }
  }
}
