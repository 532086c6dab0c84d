/**
 Automatic model selection: a candidate of the lowest priority number is picked in proportion to the weights, and
 the others follow as fallbacks in priority order. The selection key enters only as the number its digest gives.
 */
module Selection {
  import opened Lists
  import opened Prelude

  datatype Candidate = Candidate(id: string, priority: int, weight: nat)

  function Ids(cs: seq<Candidate>): (ids: seq<string>)
    ensures |ids| == |cs| && forall k :: 0 <= k < |cs| ==> ids[k] == cs[k].id
  {
    if cs == [] then [] else Ids(cs[..|cs| - 1]) + [cs[|cs| - 1].id]
  }

  // ----- The weighted pick -----

  function Total(cs: seq<Candidate>): nat {
    if cs == [] then 0 else Total(cs[..|cs| - 1]) + cs[|cs| - 1].weight
  }

  /** The candidate whose share of the line contains the bucket. */
  function Picked(cs: seq<Candidate>, bucket: nat): (k: nat)
    requires bucket < Total(cs)
    ensures k < |cs| && Total(cs[..k]) <= bucket < Total(cs[..k]) + cs[k].weight
  {
    var shorter := cs[..|cs| - 1];
    if Total(shorter) <= bucket then |cs| - 1
    else
      var k := Picked(shorter, bucket);
      assert shorter[..k] == cs[..k];
      k
  }

  lemma TotalSplits(cs: seq<Candidate>, k: nat)
    requires k < |cs|
    ensures Total(cs[..k + 1]) == Total(cs[..k]) + cs[k].weight
  {
    assert cs[..k + 1][..k] == cs[..k];
  }

  lemma {:induction false} TotalGrows(cs: seq<Candidate>, j: nat, k: nat)
    requires j <= k <= |cs|
    ensures Total(cs[..j]) <= Total(cs[..k])
  {
    if j < k {
      TotalGrows(cs, j, k - 1);
      TotalSplits(cs, k - 1);
    }
  }

  /** The shares do not overlap: a bucket inside a candidate's share picks that candidate. */
  lemma ShareIsPicked(cs: seq<Candidate>, k: nat, bucket: nat)
    requires k < |cs| && Total(cs[..k]) <= bucket < Total(cs[..k]) + cs[k].weight
    ensures bucket < Total(cs) && Picked(cs, bucket) == k
  {
    TotalSplits(cs, k);
    TotalGrows(cs, k + 1, |cs|);
    assert cs[..|cs|] == cs;
    var other := Picked(cs, bucket);
    if other < k {
      TotalSplits(cs, other);
      TotalGrows(cs, other + 1, k);
    } else if k < other {
      TotalGrows(cs, k + 1, other);
    }
  }

  function Buckets(cs: seq<Candidate>, k: nat): set<nat> {
    set b: nat | b < Total(cs) && Picked(cs, b) == k
  }

  function Interval(from: nat, n: nat): (s: set<nat>)
    ensures |s| == n && forall b :: b in s <==> from <= b < from + n
  {
    if n == 0 then {} else Interval(from, n - 1) + {from + n - 1}
  }

  /** Proportional selection: of all bucket values, exactly as many pick a candidate as its weight says. */
  lemma ExactlyItsWeight(cs: seq<Candidate>, k: nat)
    requires k < |cs|
    ensures |Buckets(cs, k)| == cs[k].weight
  {
    var share := Interval(Total(cs[..k]), cs[k].weight);
    forall b | b in share ensures b in Buckets(cs, k) {
      ShareIsPicked(cs, k, b);
    }
    assert Buckets(cs, k) == share;
  }

  function WeightedId(cs: seq<Candidate>, digest: nat): Option<string> {
    if Total(cs) == 0 then None else Some(cs[Picked(cs, digest % Total(cs))].id)
  }

  lemma Below(a: nat, n: nat)
    requires a < n
    ensures a % n == a
  {
  }

  /** The pick is the candidate into whose share the digest falls, counted round by round of the total weight. */
  lemma DigestFallsIntoShare(cs: seq<Candidate>, k: nat, digest: nat, round: nat)
    requires k < |cs| && Total(cs[..k]) <= digest < Total(cs[..k]) + cs[k].weight
    ensures WeightedId(cs, round * Total(cs) + digest) == Some(cs[k].id)
  {
    ShareIsPicked(cs, k, digest);
    Round(digest, Total(cs), round);
    assert Total(cs) != 0;
  }

  lemma {:induction false} Round(a: nat, n: nat, round: nat)
    requires a < n
    ensures (round * n + a) % n == a
  {
    if round == 0 {
      Below(a, n);
    } else {
      Round(a, n, round - 1);
      OneMoreRound((round - 1) * n + a, n);
      assert round * n + a == (round - 1) * n + a + n;
    }
  }

  lemma OneMoreRound(a: nat, n: nat)
    requires n > 0
    ensures (a + n) % n == a % n
  {
    OnlyOneRest((a + n) / n, (a + n) % n, a / n + 1, a % n, n);
  }

  lemma OnlyOneRest(p: int, r: nat, q: int, s: nat, n: nat)
    requires r < n && s < n && n * p + r == n * q + s
    ensures r == s
  {
    if p > q {
      Grows(p - q, n);
    } else if q > p {
      Grows(q - p, n);
    }
  }

  lemma Grows(d: nat, n: nat)
    requires d > 0
    ensures n * d >= n
  {
  }

  /** There is a pick exactly if there is any weight. */
  lemma {:induction false} PickExactlyWithWeight(cs: seq<Candidate>, digest: nat)
    ensures WeightedId(cs, digest).Some? <==> exists c :: c in cs && c.weight > 0
  {
    if c :| c in cs && c.weight > 0 {
      var k :| 0 <= k < |cs| && cs[k] == c;
      ShareIsPicked(cs, k, Total(cs[..k]));
    }
    if Total(cs) > 0 {
      var c := cs[Picked(cs, digest % Total(cs))];
      assert c in cs && c.weight > 0;
    }
  }

  /** `weighted_candidate_id`: the loop never runs off the end when there is any weight. */
  method WeightedCandidateId(candidates: seq<Candidate>, digest: nat) returns (r: Option<string>)
    ensures r == WeightedId(candidates, digest)
  {
    var total := 0;
    for i := 0 to |candidates|
      invariant total == Total(candidates[..i])
    {
      TotalSplits(candidates, i);
      total := total + candidates[i].weight;
    }
    assert candidates[..|candidates|] == candidates;
    if total == 0 {
      return None;
    }
    var bucket := digest % total;
    for i := 0 to |candidates|
      invariant 0 <= bucket == digest % total - Total(candidates[..i])
    {
      var weight := candidates[i].weight;
      if bucket < weight {
        ShareIsPicked(candidates, i, digest % total);
        return Some(candidates[i].id);
      }
      TotalSplits(candidates, i);
      bucket := bucket - weight;
    }
    assert false;
    r := None;
  }

  // ----- The stable sort by priority -----

  predicate Sorted(s: seq<Candidate>) {
    forall j, k :: 0 <= j < k < |s| ==> s[j].priority <= s[k].priority
  }

  /** Inserts after everything of the same or a lower priority number. */
  function Insert(s: seq<Candidate>, x: Candidate): seq<Candidate> {
    if s == [] || s[|s| - 1].priority <= x.priority then s + [x]
    else Insert(s[..|s| - 1], x) + [s[|s| - 1]]
  }

  function StableSort(cs: seq<Candidate>): seq<Candidate> {
    if cs == [] then [] else Insert(StableSort(cs[..|cs| - 1]), cs[|cs| - 1])
  }

  function At(cs: seq<Candidate>, priority: int): seq<Candidate> {
    if cs == [] then []
    else
      var rest := At(cs[..|cs| - 1], priority);
      if cs[|cs| - 1].priority == priority then rest + [cs[|cs| - 1]] else rest
  }

  function Known(cs: seq<Candidate>, known: set<string>): seq<Candidate> {
    if cs == [] then []
    else
      var rest := Known(cs[..|cs| - 1], known);
      if cs[|cs| - 1].id in known then rest + [cs[|cs| - 1]] else rest
  }

  lemma {:induction false} KnownMember(cs: seq<Candidate>, known: set<string>, c: Candidate)
    ensures c in Known(cs, known) <==> c in cs && c.id in known
  {
    if cs != [] {
      KnownMember(cs[..|cs| - 1], known, c);
    }
  }

  lemma KnownPlus(cs: seq<Candidate>, x: Candidate, known: set<string>)
    ensures Known(cs + [x], known) == if x.id in known then Known(cs, known) + [x] else Known(cs, known)
  {
    assert (cs + [x])[..|cs|] == cs;
  }

  lemma InsertBefore(s: seq<Candidate>, last: Candidate, x: Candidate)
    requires last.priority > x.priority
    ensures Insert(s + [last], x) == Insert(s, x) + [last]
  {
    assert (s + [last])[..|s|] == s;
  }

  lemma {:induction false} InsertMembers(s: seq<Candidate>, x: Candidate, c: Candidate)
    ensures c in Insert(s, x) <==> c in s || c == x
  {
    if s != [] && s[|s| - 1].priority > x.priority {
      InsertMembers(s[..|s| - 1], x, c);
    }
  }

  lemma {:induction false} InsertKeepsSorted(s: seq<Candidate>, x: Candidate)
    requires Sorted(s)
    ensures Sorted(Insert(s, x))
  {
    if s != [] && s[|s| - 1].priority > x.priority {
      InsertKeepsSorted(s[..|s| - 1], x);
      forall c | c in Insert(s[..|s| - 1], x) ensures c.priority <= s[|s| - 1].priority {
        InsertMembers(s[..|s| - 1], x, c);
      }
    }
  }

  lemma AtPlus(s: seq<Candidate>, x: Candidate, priority: int)
    ensures At(s + [x], priority) == if x.priority == priority then At(s, priority) + [x] else At(s, priority)
  {
    assert (s + [x])[..|s|] == s;
  }

  lemma {:induction false} InsertIsStable(s: seq<Candidate>, x: Candidate, priority: int)
    requires Sorted(s)
    ensures At(Insert(s, x), priority) == if x.priority == priority then At(s, priority) + [x] else At(s, priority)
  {
    if s != [] && s[|s| - 1].priority > x.priority {
      var shorter, last := s[..|s| - 1], s[|s| - 1];
      InsertIsStable(shorter, x, priority);
      AtPlus(Insert(shorter, x), last, priority);
    } else {
      AtPlus(s, x, priority);
    }
  }

  /** What makes it the stable sort: it is sorted, and candidates of equal priority keep their order. */
  lemma {:induction false} StableSortIsStable(cs: seq<Candidate>)
    ensures Sorted(StableSort(cs))
    ensures forall p :: At(StableSort(cs), p) == At(cs, p)
  {
    if cs != [] {
      var shorter, last := cs[..|cs| - 1], cs[|cs| - 1];
      StableSortIsStable(shorter);
      InsertKeepsSorted(StableSort(shorter), last);
      forall p ensures At(StableSort(cs), p) == At(cs, p) {
        InsertIsStable(StableSort(shorter), last, p);
      }
    }
  }

  lemma {:induction false} AtMembers(cs: seq<Candidate>, priority: int, c: Candidate)
    ensures c in At(cs, priority) <==> c in cs && c.priority == priority
  {
    if cs != [] {
      AtMembers(cs[..|cs| - 1], priority, c);
    }
  }

  lemma SortMembers(cs: seq<Candidate>, c: Candidate)
    ensures c in StableSort(cs) <==> c in cs
  {
    StableSortIsStable(cs);
    AtMembers(cs, c.priority, c);
    AtMembers(StableSort(cs), c.priority, c);
  }

  lemma {:induction false} KnownOfInsert(s: seq<Candidate>, x: Candidate, known: set<string>)
    requires Sorted(s)
    ensures Known(Insert(s, x), known) == if x.id in known then Insert(Known(s, known), x) else Known(s, known)
  {
    if s != [] && s[|s| - 1].priority > x.priority {
      var shorter, last := s[..|s| - 1], s[|s| - 1];
      KnownOfInsert(shorter, x, known);
      KnownPlus(Insert(shorter, x), last, known);
      InsertBefore(Known(shorter, known), last, x);
    } else {
      KnownPlus(s, x, known);
      var k := Known(s, known);
      if k != [] {
        KnownMember(s, known, k[|k| - 1]);
      }
    }
  }

  /** Dropping unknown candidates before or after the sort is the same. */
  lemma {:induction false} SortCommutesWithKnown(cs: seq<Candidate>, known: set<string>)
    ensures Known(StableSort(cs), known) == StableSort(Known(cs, known))
  {
    if cs != [] {
      var shorter, last := cs[..|cs| - 1], cs[|cs| - 1];
      SortCommutesWithKnown(shorter, known);
      StableSortIsStable(shorter);
      KnownOfInsert(StableSort(shorter), last, known);
      if last.id in known {
        SortPlus(Known(shorter, known), last);
      }
    }
  }

  lemma SortPlus(cs: seq<Candidate>, x: Candidate)
    ensures StableSort(cs + [x]) == Insert(StableSort(cs), x)
  {
    assert (cs + [x])[..|cs|] == cs;
  }

  lemma IdsPlus(cs: seq<Candidate>, x: Candidate)
    ensures Ids(cs + [x]) == Ids(cs) + [x.id]
  {
  }

  lemma {:induction false} IdsOfInsert(s: seq<Candidate>, x: Candidate, id: string)
    ensures Tally(Ids(Insert(s, x)), id) == Tally(Ids(s), id) + if x.id == id then 1 else 0
  {
    if s == [] || s[|s| - 1].priority <= x.priority {
      IdsPlus(s, x);
      TallyPlus(Ids(s), x.id, id);
    } else {
      var shorter, last := s[..|s| - 1], s[|s| - 1];
      IdsOfInsert(shorter, x, id);
      IdsPlus(Insert(shorter, x), last);
      TallyPlus(Ids(Insert(shorter, x)), last.id, id);
      TallyPlus(Ids(shorter), last.id, id);
    }
  }

  lemma {:induction false} IdsOfSort(cs: seq<Candidate>, id: string)
    ensures Tally(Ids(StableSort(cs)), id) == Tally(Ids(cs), id)
  {
    if cs != [] {
      var shorter, last := cs[..|cs| - 1], cs[|cs| - 1];
      IdsOfSort(shorter, id);
      IdsOfInsert(StableSort(shorter), last, id);
      TallyPlus(Ids(shorter), last.id, id);
    }
  }

  // ----- The fallback list -----

  function Without(ids: seq<string>, id: string): seq<string> {
    if ids == [] then []
    else
      var rest := Without(ids[..|ids| - 1], id);
      if ids[|ids| - 1] != id then rest + [ids[|ids| - 1]] else rest
  }

  lemma WithoutOne(x: string, id: string)
    ensures Without([x], id) == if x == id then [] else [x]
  {
    assert [x][..0] == [];
  }

  /** Everything else stays, in its order. */
  lemma {:induction false} WithoutConcat(a: seq<string>, b: seq<string>, id: string)
    ensures Without(a + b, id) == Without(a, id) + Without(b, id)
  {
    if b == [] {
      assert a + b == a;
    } else {
      var shorter, last := b[..|b| - 1], b[|b| - 1];
      WithoutConcat(a, shorter, id);
      assert (a + b)[..|a + b| - 1] == a + shorter && (a + b)[|a + b| - 1] == last;
    }
  }

  lemma {:induction false} TallyWithout(ids: seq<string>, dropped: string, id: string)
    ensures Tally(Without(ids, dropped), id) == if id == dropped then 0 else Tally(ids, id)
  {
    if ids != [] {
      TallyWithout(ids[..|ids| - 1], dropped, id);
      TallyPlus(Without(ids[..|ids| - 1], dropped), ids[|ids| - 1], id);
    }
  }

  /** The pick among the known candidates of the very first priority. */
  function Primary(cs: seq<Candidate>, known: set<string>, digest: nat): Option<string> {
    var sorted := StableSort(cs);
    if sorted == [] then None else WeightedId(Known(At(sorted, sorted[0].priority), known), digest)
  }

  /** `ordered_automatic_candidates`, as the ids of the resources it lists. */
  function Ordered(cs: seq<Candidate>, known: set<string>, digest: nat): seq<string> {
    var primary := Primary(cs, known, digest);
    var others := Ids(Known(StableSort(cs), known));
    if primary.Some? then [primary.value] + Without(others, primary.value) else others
  }

  predicate Lowest(cs: seq<Candidate>, known: set<string>, c: Candidate) {
    && c in cs && c.id in known
    && forall d :: d in cs && d.id in known ==> c.priority <= d.priority
  }

  predicate FirstPriority(cs: seq<Candidate>, c: Candidate) {
    forall d :: d in cs ==> c.priority <= d.priority
  }

  /** Some digest picks this candidate: known, of the first priority of the whole policy, and with a weight. */
  predicate CanBePicked(cs: seq<Candidate>, known: set<string>, c: Candidate) {
    c in cs && c.id in known && FirstPriority(cs, c) && c.weight > 0
  }

  lemma FirstIsLowest(cs: seq<Candidate>, c: Candidate)
    requires c in cs
    ensures StableSort(cs) != [] && StableSort(cs)[0] in cs && StableSort(cs)[0].priority <= c.priority
  {
    StableSortIsStable(cs);
    SortMembers(cs, c);
    SortMembers(cs, StableSort(cs)[0]);
  }

  lemma PrimaryIsLowest(cs: seq<Candidate>, known: set<string>, digest: nat) returns (c: Candidate)
    requires Primary(cs, known, digest).Some?
    ensures Lowest(cs, known, c) && Primary(cs, known, digest) == Some(c.id)
  {
    var sorted := StableSort(cs);
    var group := At(sorted, sorted[0].priority);
    var primary := Known(group, known);
    c := primary[Picked(primary, digest % Total(primary))];
    KnownMember(group, known, c);
    AtMembers(sorted, sorted[0].priority, c);
    SortMembers(cs, c);
    forall d | d in cs && d.id in known ensures c.priority <= d.priority {
      FirstIsLowest(cs, d);
    }
  }

  /** Whenever any candidate is known, the list starts with one of the lowest priority number. */
  lemma HeadIsLowest(cs: seq<Candidate>, known: set<string>, digest: nat)
    ensures Ordered(cs, known, digest) == [] <==> Known(cs, known) == []
    ensures Ordered(cs, known, digest) != []
            ==> exists c :: Lowest(cs, known, c) && c.id == Ordered(cs, known, digest)[0]
  {
    SortCommutesWithKnown(cs, known);
    if Primary(cs, known, digest).Some? {
      var c := PrimaryIsLowest(cs, known, digest);
      KnownMember(cs, known, c);
    } else if Known(cs, known) == [] {
    } else {
      FirstIsLowest(Known(cs, known), Known(cs, known)[0]);
      var c := StableSort(Known(cs, known))[0];
      KnownMember(cs, known, c);
      forall d | d in cs && d.id in known ensures c.priority <= d.priority {
        KnownMember(cs, known, d);
        FirstIsLowest(Known(cs, known), d);
      }
      assert Lowest(cs, known, c);
    }
  }

  /** The pick, if any candidate can be picked, then everything else in the stable priority order. */
  lemma PickThenFallbacks(cs: seq<Candidate>, known: set<string>, digest: nat)
    ensures var sorted := Ids(StableSort(Known(cs, known)));
            var pick := Primary(cs, known, digest);
            Ordered(cs, known, digest) == if pick.Some? then [pick.value] + Without(sorted, pick.value) else sorted
    ensures Primary(cs, known, digest).Some? <==> exists c :: CanBePicked(cs, known, c)
  {
    SortCommutesWithKnown(cs, known);
    if Primary(cs, known, digest).Some? {
      var c := PickCanBePicked(cs, known, digest);
    }
    if c :| CanBePicked(cs, known, c) {
      FirstIsLowest(cs, c);
      GroupMembers(cs, known, c);
      PickExactlyWithWeight(Known(At(StableSort(cs), StableSort(cs)[0].priority), known), digest);
    }
  }

  lemma TallyOrdered(cs: seq<Candidate>, known: set<string>, digest: nat, id: string)
    ensures Tally(Ordered(cs, known, digest), id)
            == if Primary(cs, known, digest) == Some(id) then 1 else Tally(Ids(Known(cs, known)), id)
  {
    var primary := Primary(cs, known, digest);
    var others := Ids(Known(StableSort(cs), known));
    SortCommutesWithKnown(cs, known);
    IdsOfSort(Known(cs, known), id);
    if primary.Some? {
      TallyWithout(others, primary.value, id);
      TallyConcat([primary.value], Without(others, primary.value), id);
      TallyPlus([], primary.value, id);
      assert [] + [primary.value] == [primary.value];
    }
  }

  /**
   The list is a permutation of the known candidates exactly when the pick is listed once in the policy: a second
   candidate with the same id is dropped with the first.
   */
  lemma PermutationExactlyWithoutDuplicatePick(cs: seq<Candidate>, known: set<string>, digest: nat)
    ensures var primary := Primary(cs, known, digest);
            var ids := Ids(Known(cs, known));
            Same(Ordered(cs, known, digest), ids) <==> (primary.Some? ==> Tally(ids, primary.value) == 1)
  {
    var ordered := Ordered(cs, known, digest);
    var primary := Primary(cs, known, digest);
    forall id ensures Tally(ordered, id) == if primary == Some(id) then 1 else Tally(Ids(Known(cs, known)), id) {
      TallyOrdered(cs, known, digest, id);
    }
    if primary.Some? {
      assert Tally(ordered, primary.value) == 1;
    }
  }

  lemma GroupMembers(cs: seq<Candidate>, known: set<string>, c: Candidate)
    requires StableSort(cs) != []
    ensures c in Known(At(StableSort(cs), StableSort(cs)[0].priority), known)
            <==> c in cs && c.id in known && FirstPriority(cs, c)
  {
    var first := StableSort(cs)[0];
    KnownMember(At(StableSort(cs), first.priority), known, c);
    AtMembers(StableSort(cs), first.priority, c);
    SortMembers(cs, c);
    SortMembers(cs, first);
    forall d | d in cs ensures first.priority <= d.priority {
      FirstIsLowest(cs, d);
    }
  }

  lemma PickCanBePicked(cs: seq<Candidate>, known: set<string>, digest: nat) returns (c: Candidate)
    requires Primary(cs, known, digest).Some?
    ensures CanBePicked(cs, known, c) && Primary(cs, known, digest) == Some(c.id)
  {
    var group := Known(At(StableSort(cs), StableSort(cs)[0].priority), known);
    c := group[Picked(group, digest % Total(group))];
    GroupMembers(cs, known, c);
  }

  lemma ShareIsWeighted(cs: seq<Candidate>, k: nat)
    requires k < |cs| && cs[k].weight > 0
    ensures WeightedId(cs, Total(cs[..k])) == Some(cs[k].id)
  {
    ShareIsPicked(cs, k, Total(cs[..k]));
    Below(Total(cs[..k]), Total(cs));
  }

  lemma DigestThatPicks(cs: seq<Candidate>, known: set<string>, c: Candidate) returns (digest: nat)
    requires CanBePicked(cs, known, c)
    ensures Primary(cs, known, digest) == Some(c.id)
  {
    FirstIsLowest(cs, c);
    GroupMembers(cs, known, c);
    var group := Known(At(StableSort(cs), StableSort(cs)[0].priority), known);
    var k :| 0 <= k < |group| && group[k] == c;
    digest := Total(group[..k]);
    ShareIsWeighted(group, k);
  }

  ghost predicate AlwaysAPermutation(cs: seq<Candidate>, known: set<string>) {
    forall digest: nat :: Same(Ordered(cs, known, digest), Ids(Known(cs, known)))
  }

  /**
   The list is a permutation of the known candidates whatever the digest, exactly if every candidate that can be picked
   is listed once in the policy.
   */
  lemma AlwaysAPermutationExactlyWithoutDuplicates(cs: seq<Candidate>, known: set<string>)
    ensures AlwaysAPermutation(cs, known)
            <==> forall c :: CanBePicked(cs, known, c) ==> Tally(Ids(Known(cs, known)), c.id) == 1
  {
    if AlwaysAPermutation(cs, known) {
      forall c | CanBePicked(cs, known, c) ensures Tally(Ids(Known(cs, known)), c.id) == 1 {
        var digest := DigestThatPicks(cs, known, c);
        assert Same(Ordered(cs, known, digest), Ids(Known(cs, known)));
        PermutationExactlyWithoutDuplicatePick(cs, known, digest);
      }
    }
    if forall c :: CanBePicked(cs, known, c) ==> Tally(Ids(Known(cs, known)), c.id) == 1 {
      forall digest: nat ensures Same(Ordered(cs, known, digest), Ids(Known(cs, known))) {
        PermutationExactlyWithoutDuplicatePick(cs, known, digest);
        if Primary(cs, known, digest).Some? {
          var c := PickCanBePicked(cs, known, digest);
        }
      }
    }
  }

  /** Without the first id, when it does not come again. */
  lemma {:induction false} WithoutFirst(ids: seq<string>)
    requires ids != [] && Tally(ids, ids[0]) == 1
    ensures Without(ids, ids[0]) == ids[1..]
  {
    if |ids| > 1 {
      var shorter, last := ids[..|ids| - 1], ids[|ids| - 1];
      TallyOfMember(shorter, ids[0]);
      WithoutFirst(shorter);
      assert shorter[1..] + [last] == ids[1..];
    }
  }

  ghost predicate Unique(ids: seq<string>) {
    forall id :: Tally(ids, id) <= 1
  }

  /** With unique ids: a head, then the stable priority sort of all known candidates with that head removed. */
  lemma TailIsTheStableSort(cs: seq<Candidate>, known: set<string>, digest: nat)
    requires Unique(Ids(Known(cs, known))) && Known(cs, known) != []
    ensures var ordered := Ordered(cs, known, digest);
            && ordered != []
            && ordered[1..] == Without(Ids(StableSort(Known(cs, known))), ordered[0])
            && Same(ordered, Ids(Known(cs, known)))
  {
    var ids := Ids(Known(cs, known));
    HeadIsLowest(cs, known, digest);
    SortCommutesWithKnown(cs, known);
    PermutationExactlyWithoutDuplicatePick(cs, known, digest);
    if Primary(cs, known, digest).Some? {
      var c := PrimaryIsLowest(cs, known, digest);
      KnownMember(cs, known, c);
      var k :| 0 <= k < |Known(cs, known)| && Known(cs, known)[k] == c;
      TallyOfMember(ids, c.id);
    } else {
      var sorted := Ids(StableSort(Known(cs, known)));
      TallyOfMember(sorted, sorted[0]);
      IdsOfSort(Known(cs, known), sorted[0]);
      WithoutFirst(sorted);
    }
  }
}
