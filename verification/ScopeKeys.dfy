/**
 The text key under which concurrency leases are counted: policy id, revision, workspace and project joined by colons.
 Policy ids may contain colons, so the key does not always tell policies apart.
 */
module ScopeKeys {
  datatype Policy = Policy(id: string, revision: nat)

  const DIGITS := "0123456789"

  function Decimal(n: nat): (s: string)
    ensures s != [] && ':' !in s && (|s| == 1 <==> n < 10)
  {
    if n < 10 then [DIGITS[n]] else Decimal(n / 10) + [DIGITS[n % 10]]
  }

  lemma {:induction false} DecimalIsInjective(m: nat, n: nat)
    requires Decimal(m) == Decimal(n)
    ensures m == n
  {
    var s := Decimal(m);
    var last := s[|s| - 1];
    assert last == DIGITS[m % 10] && last == DIGITS[n % 10];
    assert m % 10 == n % 10;
    if m >= 10 && n >= 10 {
      assert Decimal(m / 10) == s[..|s| - 1] && Decimal(n / 10) == s[..|s| - 1];
      DecimalIsInjective(m / 10, n / 10);
    }
  }

  function Parsed(digits: string): int {
    if digits == [] then 0 else 10 * Parsed(digits[..|digits| - 1]) + (digits[|digits| - 1] as int - '0' as int)
  }

  lemma {:induction false} DecimalReadsBack(n: nat)
    ensures Parsed(Decimal(n)) == n
    ensures forall c :: c in Decimal(n) ==> '0' <= c <= '9'
  {
    DigitsAreDigits(n % 10);
    if n >= 10 {
      DecimalReadsBack(n / 10);
      assert Decimal(n)[..|Decimal(n)| - 1] == Decimal(n / 10);
    } else {
      assert Decimal(n)[..0] == [];
    }
  }

  lemma DigitsAreDigits(d: nat)
    requires d < 10
    ensures DIGITS[d] as int == '0' as int + d
  {
  }

  function Stem(p: Policy): string {
    p.id + ":" + Decimal(p.revision) + ":"
  }

  function ScopeKey(p: Policy, workspace: string, project: string): string {
    Stem(p) + workspace + ":" + project
  }

  /** `is_workspace_namespace`, which every turn request satisfies. */
  predicate IsWorkspace(w: string) {
    && 4 <= |w| <= 63
    && "ws-" <= w
    && w[|w| - 1] != '-'
    && forall k :: 0 <= k < |w| ==> 'a' <= w[k] <= 'z' || '0' <= w[k] <= '9' || w[k] == '-'
  }

  lemma FirstColon(a: string, b: string, c: string, d: string)
    requires ':' !in a && ':' !in c && a + ":" + b == c + ":" + d
    ensures a == c && b == d
  {
    var s := a + ":" + b;
    assert s[|a|] == ':' && s[|c|] == ':';
    forall k | 0 <= k < |a| ensures s[k] != ':' {
      assert s[k] == a[k];
    }
    forall k | 0 <= k < |c| ensures s[k] != ':' {
      assert s[k] == c[k];
    }
    assert a == s[..|a|] && c == s[..|c|];
    assert b == s[|a| + 1..] && d == s[|c| + 1..];
  }

  lemma LastColon(a: string, b: string, c: string, d: string)
    requires ':' !in b && ':' !in d && a + ":" + b == c + ":" + d
    ensures a == c && b == d
  {
    var s := a + ":" + b;
    assert s[|a|] == ':' && s[|c|] == ':';
    forall k | |a| < k < |s| ensures s[k] != ':' {
      assert s[k] == b[k - |a| - 1];
    }
    forall k | |c| < k < |s| ensures s[k] != ':' {
      assert s == c + ":" + d && s[k] == d[k - |c| - 1];
    }
    assert a == s[..|a|] && c == s[..|c|];
    assert b == s[|a| + 1..] && d == s[|c| + 1..];
  }

  lemma StemIsInjective(p: Policy, q: Policy)
    requires Stem(p) == Stem(q)
    ensures p == q
  {
    var s := Stem(p);
    assert s[..|s| - 1] == p.id + ":" + Decimal(p.revision);
    assert s[..|s| - 1] == q.id + ":" + Decimal(q.revision);
    LastColon(p.id, Decimal(p.revision), q.id, Decimal(q.revision));
    DecimalIsInjective(p.revision, q.revision);
  }

  /** Under one policy revision the key tells projects apart. */
  lemma KeyIdentifiesTheProject(p: Policy, w: string, x: string, v: string, y: string)
    requires IsWorkspace(w) && IsWorkspace(v) && ScopeKey(p, w, x) == ScopeKey(p, v, y)
    ensures w == v && x == y
  {
    var s := ScopeKey(p, w, x);
    assert s == Stem(p) + (w + ":" + x) && s == Stem(p) + (v + ":" + y);
    assert w + ":" + x == s[|Stem(p)|..] && v + ":" + y == s[|Stem(p)|..];
    FirstColon(w, x, v, y);
  }

  /** The second policy's id starts like a key of the first. */
  predicate NestedBy(p: Policy, q: Policy, w: string) {
    IsWorkspace(w) && Stem(p) + w + ":" <= Stem(q)
  }

  lemma NestedKeysMeet(p: Policy, q: Policy, w: string, v: string, y: string) returns (x: string)
    requires NestedBy(p, q, w) && y != []
    ensures x != [] && ScopeKey(p, w, x) == ScopeKey(q, v, y)
  {
    var head := Stem(p) + w + ":";
    x := Stem(q)[|head|..] + v + ":" + y;
    assert Stem(q) == head + Stem(q)[|head|..];
  }

  lemma MeetingKeysAreNested(p: Policy, q: Policy, w: string, x: string, v: string, y: string)
    requires IsWorkspace(w) && ScopeKey(p, w, x) == ScopeKey(q, v, y) && |Stem(p)| < |Stem(q)|
    ensures NestedBy(p, q, w)
  {
    var s := ScopeKey(p, w, x);
    var head := Stem(p) + w + ":";
    assert s == Stem(q) + (v + ":" + y) && s == head + x;
    assert s[|Stem(q)| - 1] == Stem(q)[|Stem(q)| - 1] == ':';
    forall k | |Stem(p)| <= k < |Stem(p)| + |w| ensures s[k] != ':' {
      assert s[k] == w[k - |Stem(p)|];
    }
    assert Stem(q) == s[..|Stem(q)|] && head == s[..|head|];
  }

  /**
   Two different policy revisions can share the leases of some project exactly when the id of one starts with the
   other's id and revision followed by a workspace name, all joined by colons.
   */
  lemma PoliciesShareKeysExactlyWhenNested(p: Policy, q: Policy)
    requires p != q
    ensures (exists w, x, v, y :: IsWorkspace(w) && IsWorkspace(v) && x != [] && y != []
                                  && ScopeKey(p, w, x) == ScopeKey(q, v, y))
            <==> exists w :: NestedBy(p, q, w) || NestedBy(q, p, w)
  {
    forall w, x, v, y |
      IsWorkspace(w) && IsWorkspace(v) && x != [] && y != [] && ScopeKey(p, w, x) == ScopeKey(q, v, y)
      ensures exists u :: NestedBy(p, q, u) || NestedBy(q, p, u)
    {
      if |Stem(p)| < |Stem(q)| {
        MeetingKeysAreNested(p, q, w, x, v, y);
      } else if |Stem(q)| < |Stem(p)| {
        MeetingKeysAreNested(q, p, v, y, w, x);
      } else {
        var s := ScopeKey(p, w, x);
        assert s == Stem(p) + (w + ":" + x) && s == Stem(q) + (v + ":" + y);
        assert Stem(p) == s[..|Stem(p)|] && Stem(q) == s[..|Stem(p)|];
        StemIsInjective(p, q);
      }
    }
    forall u | NestedBy(p, q, u) || NestedBy(q, p, u)
      ensures exists w, x, v, y :: IsWorkspace(w) && IsWorkspace(v) && x != [] && y != []
                                   && ScopeKey(p, w, x) == ScopeKey(q, v, y)
    {
      if NestedBy(p, q, u) {
        var x := NestedKeysMeet(p, q, u, u, "x");
      } else {
        var x := NestedKeysMeet(q, p, u, u, "x");
      }
    }
  }

  /** Policies whose ids have no colon never share a key. */
  lemma ColonFreeIdsAreSafe(p: Policy, q: Policy, w: string)
    requires ':' !in q.id
    ensures !NestedBy(p, q, w)
  {
    var head, stem := Stem(p) + w + ":", Stem(q);
    assert head[|p.id|] == ':' && head[|Stem(p)| - 1] == ':' && head[|head| - 1] == ':';
    forall k | 0 <= k < |q.id| ensures stem[k] != ':' {
      assert stem[k] == q.id[k];
    }
    forall k | |q.id| < k < |stem| - 1 ensures stem[k] != ':' {
      assert stem[k] == Decimal(q.revision)[k - |q.id| - 1];
    }
  }

  /** Two such policies: the second is named after a key of the first. */
  lemma NestedExample()
    ensures ScopeKey(Policy("p", 1), "ws-a", "2:ws-b:x") == ScopeKey(Policy("p:1:ws-a", 2), "ws-b", "x")
  {
    assert Decimal(1) == "1" && Decimal(2) == "2";
    assert Stem(Policy("p", 1)) == "p:1:";
    assert Stem(Policy("p:1:ws-a", 2)) == "p:1:ws-a:2:";
    assert ScopeKey(Policy("p", 1), "ws-a", "2:ws-b:x") == "p:1:ws-a:2:ws-b:x";
    assert ScopeKey(Policy("p:1:ws-a", 2), "ws-b", "x") == "p:1:ws-a:2:ws-b:x";
  }
}
