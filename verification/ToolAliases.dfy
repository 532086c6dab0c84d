/**
 Provider-side names for runtime tools: a readable prefix and a digest, kept in two maps that are filled by a loop
 with collision detection, and read back through exact and fuzzy lookups. The digest is an arbitrary function to
 hexadecimal text; whatever collisions it has are caught by the code's own check.
 */
module ToolAliases {
  import opened Prelude
  import opened TurnInput

  type Digest = string -> string

  /** How runtime names become provider names; the gateway's choice is `AliasWith` its digest. */
  type Aliasing = string -> string

  const HASH_HEX_BYTES: nat := 16
  const MAX_PREFIX_BYTES: nat := 45

  predicate IsAlphanumeric(c: char) {
    'a' <= c <= 'z' || 'A' <= c <= 'Z' || '0' <= c <= '9'
  }

  predicate IsNameChar(c: char) {
    IsAlphanumeric(c) || c == '_' || c == '-'
  }

  predicate IsHexDigit(c: char) {
    '0' <= c <= '9' || 'a' <= c <= 'f' || 'A' <= c <= 'F'
  }

  /** Where the classes of characters end. */
  lemma CharacterClasses()
    ensures forall c :: c in "azAZ09_-" ==> IsNameChar(c)
    ensures forall c :: c in "`{@[/:.,^ " ==> !IsNameChar(c)
    ensures forall c :: c in "09afAF" ==> IsHexDigit(c)
    ensures forall c :: c in "/:`g@G" ==> !IsHexDigit(c)
  {
  }

  ghost predicate HexDigest(digest: Digest) {
    forall s :: |digest(s)| >= HASH_HEX_BYTES && forall c :: c in digest(s) ==> IsHexDigit(c)
  }

  function Sanitize(name: string): (s: string)
    ensures |s| == |name| && forall c :: c in s ==> IsNameChar(c)
  {
    if name == [] then []
    else Sanitize(name[..|name| - 1]) + [if IsNameChar(name[|name| - 1]) then name[|name| - 1] else '_']
  }

  function TrimStart(s: string): (t: string)
    ensures |t| <= |s| && (forall c :: c in t ==> c in s) && (t != [] ==> t[0] != '_')
  {
    if s != [] && s[0] == '_' then TrimStart(s[1..]) else s
  }

  function TrimEnd(s: string): (t: string)
    ensures |t| <= |s| && (forall c :: c in t ==> c in s) && t <= s && (t != [] ==> t[|t| - 1] != '_')
  {
    if s != [] && s[|s| - 1] == '_' then TrimEnd(s[..|s| - 1]) else s
  }

  function Prefix(name: string): (p: string)
    ensures 0 < |p| <= MAX_PREFIX_BYTES && p[|p| - 1] != '_' && forall c :: c in p ==> IsNameChar(c)
  {
    var sanitized := Sanitize(name);
    var truncated := if |sanitized| > MAX_PREFIX_BYTES then sanitized[..MAX_PREFIX_BYTES] else sanitized;
    var trimmed := TrimEnd(TrimStart(truncated));
    if trimmed == [] then "tool" else trimmed
  }

  predicate OnlyUnderscores(s: string) {
    forall c :: c in s ==> c == '_'
  }

  /** The name as far as it is looked at: its first 45 characters, with underscores for what is not a name character. */
  function Readable(name: string): string {
    var sanitized := Sanitize(name);
    if |sanitized| > 45 then sanitized[..45] else sanitized
  }

  lemma {:induction false} SanitizedAt(name: string, k: nat)
    requires k < |name|
    ensures Sanitize(name)[k] == if IsNameChar(name[k]) then name[k] else '_'
  {
    if k < |name| - 1 {
      SanitizedAt(name[..|name| - 1], k);
    }
  }

  lemma {:induction false} TrimmedStart(s: string)
    ensures var t := TrimStart(s); t == s[|s| - |t|..] && OnlyUnderscores(s[..|s| - |t|])
  {
    if s != [] && s[0] == '_' {
      TrimmedStart(s[1..]);
      assert s[..|s| - |TrimStart(s)|] == [s[0]] + s[1..][..|s| - 1 - |TrimStart(s)|];
    }
  }

  lemma {:induction false} TrimmedEnd(s: string)
    ensures var t := TrimEnd(s); t <= s && OnlyUnderscores(s[|t|..])
  {
    if s != [] && s[|s| - 1] == '_' {
      TrimmedEnd(s[..|s| - 1]);
      assert s[|TrimEnd(s)|..] == s[..|s| - 1][|TrimEnd(s)|..] + [s[|s| - 1]];
    }
  }

  /** What is trimmed away on both sides. */
  lemma TrimmedBothEnds(s: string) returns (i: nat, j: nat)
    ensures i <= j <= |s| && TrimEnd(TrimStart(s)) == s[i..j]
    ensures OnlyUnderscores(s[..i]) && OnlyUnderscores(s[j..])
  {
    var t := TrimStart(s);
    var u := TrimEnd(t);
    TrimmedStart(s);
    TrimmedEnd(t);
    i := |s| - |t|;
    j := i + |u|;
    assert t == s[i..] && u == t[..|u|];
    SlicesOfTail(s, i, |u|);
    assert s[..i] == s[..|s| - |t|];
  }

  lemma SlicesOfTail(s: string, i: nat, n: nat)
    requires i + n <= |s|
    ensures s[i..][..n] == s[i..i + n] && s[i..][n..] == s[i + n..]
  {
  }

  /** The prefix is what lies between the outer underscores, or "tool" where there is nothing else. */
  lemma PrefixLiesBetweenUnderscores(name: string) returns (i: nat, j: nat)
    ensures i <= j <= |Readable(name)|
    ensures OnlyUnderscores(Readable(name)[..i]) && OnlyUnderscores(Readable(name)[j..])
    ensures if i == j then Prefix(name) == "tool"
            else Readable(name)[i] != '_' && Readable(name)[j - 1] != '_' && Prefix(name) == Readable(name)[i..j]
  {
    var s := Readable(name);
    i, j := TrimmedBothEnds(s);
    var u := TrimEnd(TrimStart(s));
    FirstStays(TrimStart(s));
    assert i < j ==> s[i..j][0] == s[i] && s[i..j][j - i - 1] == s[j - 1];
  }

  lemma FirstStays(t: string)
    ensures TrimEnd(t) != [] ==> TrimEnd(t)[0] == t[0]
  {
  }

  lemma EdgesOf(s: string, i: nat, j: nat)
    requires i <= j <= |s| && OnlyUnderscores(s[..i]) && OnlyUnderscores(s[j..])
    ensures i > 0 ==> s[0] == '_'
    ensures j < |s| ==> s[|s| - 1] == '_'
  {
    if i > 0 {
      assert s[..i][0] in s[..i];
    }
    if j < |s| {
      assert s[j..][|s| - j - 1] in s[j..];
    }
  }

  /** A short name of legal characters without outer underscores is its own prefix. */
  lemma LegalNamesStay(name: string)
    requires 0 < |name| <= 45 && name[0] != '_' && name[|name| - 1] != '_' && forall c :: c in name ==> IsNameChar(c)
    ensures Prefix(name) == name
  {
    forall k | 0 <= k < |name| ensures Sanitize(name)[k] == name[k] {
      SanitizedAt(name, k);
    }
    assert Readable(name) == name;
    var i, j := PrefixLiesBetweenUnderscores(name);
    EdgesOf(name, i, j);
  }

  function Alias(digest: Digest, name: string): string {
    Prefix(name) + "__" + if |digest(name)| >= HASH_HEX_BYTES then digest(name)[..HASH_HEX_BYTES] else digest(name)
  }

  function AliasWith(digest: Digest): Aliasing {
    name => Alias(digest, name)
  }

  /** Every alias is a legal provider function name of at most 63 characters. */
  lemma AliasIsLegal(digest: Digest, name: string)
    requires HexDigest(digest)
    ensures 0 < |Alias(digest, name)| <= 63
    ensures forall c :: c in Alias(digest, name) ==> IsNameChar(c)
  {
    assert forall c :: c in digest(name)[..HASH_HEX_BYTES] ==> c in digest(name);
  }

  /** Two names share an alias exactly if they share the prefix and the first sixteen digits of the digest. */
  lemma AliasesAgreeExactly(digest: Digest, a: string, b: string)
    requires HexDigest(digest)
    ensures Alias(digest, a) == Alias(digest, b)
            <==> Prefix(a) == Prefix(b) && digest(a)[..HASH_HEX_BYTES] == digest(b)[..HASH_HEX_BYTES]
  {
    var x, y := Alias(digest, a), Alias(digest, b);
    assert x[|x| - HASH_HEX_BYTES..] == digest(a)[..HASH_HEX_BYTES];
    assert y[|y| - HASH_HEX_BYTES..] == digest(b)[..HASH_HEX_BYTES];
    assert x[..|x| - HASH_HEX_BYTES - 2] == Prefix(a) && y[..|y| - HASH_HEX_BYTES - 2] == Prefix(b);
  }

  datatype AliasMap = AliasMap(runtimeToProvider: map<string, string>, providerToRuntime: map<string, string>)

  datatype AliasError = ToolsClash | HistoryClashes

  ghost predicate InjectiveOn(alias: Aliasing, names: set<string>) {
    forall a, b :: a in names && b in names && alias(a) == alias(b) ==> a == b
  }

  /** Every name of the set, and nothing else, is found under its alias. */
  ghost predicate Inverts(alias: Aliasing, inverse: map<string, string>, names: set<string>) {
    && (forall n :: n in names ==> alias(n) in inverse && inverse[alias(n)] == n)
    && (forall p :: p in inverse ==> inverse[p] in names && p == alias(inverse[p]))
  }

  function SetOf(names: seq<string>): set<string> {
    set n | n in names
  }

  lemma InvertedIsInjective(alias: Aliasing, inverse: map<string, string>, names: set<string>)
    requires Inverts(alias, inverse, names)
    ensures InjectiveOn(alias, names)
  {
  }

  /** Adding a name whose alias is free, or already its own. */
  lemma Extends(alias: Aliasing, inverse: map<string, string>, names: set<string>, n: string)
    requires Inverts(alias, inverse, names)
    ensures alias(n) !in inverse || inverse[alias(n)] == n
            ==> Inverts(alias, inverse[alias(n) := n], names + {n})
    ensures n in names ==> alias(n) in inverse && inverse[alias(n)] == n
  {
  }

  /** Adding a name whose alias belongs to another one. */
  lemma Clashes(alias: Aliasing, inverse: map<string, string>, names: set<string>, n: string, all: set<string>)
    requires Inverts(alias, inverse, names) && names <= all && n in all
    requires alias(n) in inverse && inverse[alias(n)] != n
    ensures !InjectiveOn(alias, all)
  {
    assert inverse[alias(n)] in all;
  }

  lemma OneMoreName(names: seq<string>, i: nat)
    requires i < |names|
    ensures SetOf(names[..i + 1]) == SetOf(names[..i]) + {names[i]}
  {
  }

  method AddTools(alias: Aliasing, tools: seq<string>) returns (r: Option<AliasMap>)
    ensures r.Some? <==> InjectiveOn(alias, SetOf(tools))
    ensures r.Some? ==>
              && r.value.runtimeToProvider == (map n | n in tools :: alias(n))
              && Inverts(alias, r.value.providerToRuntime, SetOf(tools))
  {
    var forward: map<string, string> := map[];
    var inverse: map<string, string> := map[];
    for i := 0 to |tools|
      invariant forward == map n | n in SetOf(tools[..i]) :: alias(n)
      invariant Inverts(alias, inverse, SetOf(tools[..i]))
    {
      var tool := tools[i];
      OneMoreName(tools, i);
      Extends(alias, inverse, SetOf(tools[..i]), tool);
      if tool !in forward {
        var provider := alias(tool);
        if provider in inverse && inverse[provider] != tool {
          Clashes(alias, inverse, SetOf(tools[..i]), tool, SetOf(tools));
          return None;
        }
        forward := forward[tool := provider];
        inverse := inverse[provider := tool];
      } else {
        assert SetOf(tools[..i + 1]) == SetOf(tools[..i]);
      }
    }
    assert tools[..|tools|] == tools;
    InvertedIsInjective(alias, inverse, SetOf(tools));
    r := Some(AliasMap(forward, inverse));
  }

  /** Builds both maps; fails exactly when two different names share an alias, tools being looked at first. */
  method FromRequest(alias: Aliasing, tools: seq<string>, messages: seq<Message>)
    returns (r: Result<AliasMap, AliasError>)
    ensures r.Ok? <==> InjectiveOn(alias, SetOf(tools) + SetOf(AllHistoricalNames(messages)))
    ensures r.Err? ==> (r.error.ToolsClash? <==> !InjectiveOn(alias, SetOf(tools)))
    ensures r.Ok? ==>
              && r.value.runtimeToProvider == (map n | n in tools :: alias(n))
              && Inverts(alias, r.value.providerToRuntime, SetOf(tools) + SetOf(AllHistoricalNames(messages)))
  {
    var added := AddTools(alias, tools);
    var historical := AllHistoricalNames(messages);
    ghost var all := SetOf(tools) + SetOf(historical);
    if added.None? {
      return Err(ToolsClash);
    }
    var inverse := added.value.providerToRuntime;
    for i := 0 to |historical|
      invariant Inverts(alias, inverse, SetOf(tools) + SetOf(historical[..i]))
    {
      var name := historical[i];
      ghost var names := SetOf(tools) + SetOf(historical[..i]);
      OneMoreName(historical, i);
      assert SetOf(tools) + SetOf(historical[..i + 1]) == names + {name};
      Extends(alias, inverse, names, name);
      var provider := alias(name);
      if provider in inverse {
        if inverse[provider] != name {
          Clashes(alias, inverse, names, name, all);
          return Err(HistoryClashes);
        }
        assert inverse[provider := name] == inverse;
      } else {
        inverse := inverse[provider := name];
      }
    }
    assert historical[..|historical|] == historical;
    InvertedIsInjective(alias, inverse, all);
    r := Ok(AliasMap(added.value.runtimeToProvider, inverse));
  }

  // ----- Reading names back -----

  predicate HasDoubleUnderscore(s: string) {
    exists k :: 0 <= k < |s| - 1 && s[k] == '_' && s[k + 1] == '_'
  }

  lemma OneCharacterLess(s: string)
    requires |s| >= 2
    ensures HasDoubleUnderscore(s) <==> (s[0] == '_' && s[1] == '_') || HasDoubleUnderscore(s[1..])
  {
    if k :| 0 <= k < |s| - 1 && s[k] == '_' && s[k + 1] == '_' {
      if k > 0 {
        assert s[1..][k - 1] == '_' && s[1..][k] == '_';
      }
    }
    if k :| 0 <= k < |s[1..]| - 1 && s[1..][k] == '_' && s[1..][k + 1] == '_' {
      assert s[k + 1] == '_' && s[k + 2] == '_';
    }
  }

  /** `split_once("__")`: the first occurrence. */
  function SplitOnce(s: string): (r: Option<(string, string)>)
    ensures r.Some? ==> s == r.value.0 + "__" + r.value.1
    ensures r.None? <==> !HasDoubleUnderscore(s)
    ensures r.Some? ==> !HasDoubleUnderscore(r.value.0 + "_")
  {
    if |s| < 2 then None
    else if s[0] == '_' && s[1] == '_' then Some(([], s[2..]))
    else
      OneCharacterLess(s);
      match SplitOnce(s[1..])
      case None => None
      case Some(parts) =>
        var first := [s[0]] + parts.0;
        OneCharacterLess(first + "_");
        assert (first + "_")[1..] == parts.0 + "_";
        assert parts.0 != [] ==> s[1] == parts.0[0];
        assert parts.0 == [] ==> s[1] == '_';
        Some((first, parts.1))
  }

  /** The name without a trailing digest, if it has one. */
  function CompatibleName(providerName: string): string {
    match SplitOnce(providerName)
    case None => providerName
    case Some(parts) =>
      if LooksLikeDigest(parts.1) then parts.0 else providerName
  }

  function Matching(names: set<string>, compatible: string): set<string> {
    set n | n in names && Prefix(n) == compatible
  }

  function Candidates(m: AliasMap, compatible: string): set<string> {
    Matching(m.runtimeToProvider.Keys, compatible)
  }

  lemma MatchingWithout(names: set<string>, n: string, compatible: string)
    requires n in names
    ensures Matching(names, compatible)
         == Matching(names - {n}, compatible) + if Prefix(n) == compatible then {n} else {}
  {
  }

  /** The only runtime tool whose prefix matches, if there is exactly one. */
  ghost function OnlyCandidate(m: AliasMap, compatible: string): (r: Option<string>)
    ensures r.Some? <==> exists n :: Candidates(m, compatible) == {n}
    ensures r.Some? ==> Candidates(m, compatible) == {r.value}
  {
    if n :| Candidates(m, compatible) == {n} then Some(n) else None
  }

  ghost function RuntimeName(m: AliasMap, providerName: string): Option<string> {
    if providerName in m.providerToRuntime then Some(m.providerToRuntime[providerName])
    else if providerName in m.runtimeToProvider then Some(providerName)
    else OnlyCandidate(m, CompatibleName(providerName))
  }

  function Found(candidate: Option<string>): set<string> {
    if candidate.Some? then {candidate.value} else {}
  }

  /** One more key of the walk: a first match is kept, a second one leaves no answer. */
  lemma NextKey(m: AliasMap, rest: set<string>, n: string, candidate: Option<string>, compatible: string)
    requires n in rest && (candidate.Some? ==> candidate.value !in rest)
    requires Candidates(m, compatible) == Found(candidate) + Matching(rest, compatible)
    ensures Prefix(n) != compatible ==>
              Candidates(m, compatible) == Found(candidate) + Matching(rest - {n}, compatible)
    ensures Prefix(n) == compatible && candidate.None? ==>
              Candidates(m, compatible) == Found(Some(n)) + Matching(rest - {n}, compatible)
    ensures Prefix(n) == compatible && candidate.Some? ==> OnlyCandidate(m, compatible) == None
  {
    MatchingWithout(rest, n, compatible);
    if Prefix(n) == compatible && candidate.Some? {
      assert n in Candidates(m, compatible) && candidate.value in Candidates(m, compatible) && n != candidate.value;
    }
  }

  /**
   The fuzzy lookup walks the keys in whatever order the hash map yields them and stops at a second match; its
   answer does not depend on that order.
   */
  method FindOnlyCandidate(m: AliasMap, compatible: string) returns (r: Option<string>)
    ensures r == OnlyCandidate(m, compatible)
  {
    var rest := m.runtimeToProvider.Keys;
    var candidate: Option<string> := None;
    while rest != {}
      invariant rest <= m.runtimeToProvider.Keys
      invariant Candidates(m, compatible) == Found(candidate) + Matching(rest, compatible)
      invariant candidate.Some? ==> candidate.value !in rest
      decreases rest
    {
      var n :| n in rest;
      NextKey(m, rest, n, candidate, compatible);
      rest := rest - {n};
      if Prefix(n) == compatible {
        if candidate.Some? {
          return None;
        }
        candidate := Some(n);
      }
    }
    r := candidate;
  }

  method LookUpRuntimeName(m: AliasMap, providerName: string) returns (r: Option<string>)
    ensures r == RuntimeName(m, providerName)
  {
    if providerName in m.providerToRuntime {
      return Some(m.providerToRuntime[providerName]);
    }
    if providerName in m.runtimeToProvider {
      return Some(providerName);
    }
    r := FindOnlyCandidate(m, CompatibleName(providerName));
  }

  // ----- What the translations emit -----

  /** The provider name used for a tool, a past call or an orphaned result. */
  function EmittedName(alias: Aliasing, m: AliasMap, name: string): string {
    if name in m.runtimeToProvider then m.runtimeToProvider[name] else alias(name)
  }

  /** The maps `FromRequest` builds for these names. */
  ghost predicate Describes(alias: Aliasing, m: AliasMap, tools: set<string>, historical: set<string>) {
    && m.runtimeToProvider == (map n | n in tools :: alias(n))
    && Inverts(alias, m.providerToRuntime, tools + historical)
  }

  /**
   Round trip: every name emitted for a tool or for a name of the history reads back as the original, and different
   names are emitted differently.
   */
  lemma EmittedNamesReadBack(
    alias: Aliasing, m: AliasMap, tools: set<string>, historical: set<string>, a: string, b: string)
    requires Describes(alias, m, tools, historical)
    requires a in tools + historical && b in tools + historical
    ensures RuntimeName(m, EmittedName(alias, m, a)) == Some(a)
    ensures a != b ==> EmittedName(alias, m, a) != EmittedName(alias, m, b)
  {
  }

  /** Whatever a provider answers, a name that reads back belongs to the request. */
  lemma ReadNamesBelongToRequest(alias: Aliasing, m: AliasMap, tools: set<string>, historical: set<string>, p: string)
    requires Describes(alias, m, tools, historical) && RuntimeName(m, p).Some?
    ensures RuntimeName(m, p).value in tools + historical
  {
    if p !in m.providerToRuntime && p !in m.runtimeToProvider {
      assert RuntimeName(m, p).value in Candidates(m, CompatibleName(p));
    }
  }

  /** A provider that uses a tool's own name is understood, unless that name is the alias of another. */
  lemma OwnNameIsUnderstood(m: AliasMap, name: string)
    requires name in m.runtimeToProvider
    ensures RuntimeName(m, name) == Some(name)
            <==> name !in m.providerToRuntime || m.providerToRuntime[name] == name
    ensures name in m.providerToRuntime ==> RuntimeName(m, name) == Some(m.providerToRuntime[name])
  {
  }

  /** With this map everything emitted for the tools and the history reads back. */
  ghost predicate ReadsBack(alias: Aliasing, m: AliasMap, tools: set<string>, historical: set<string>) {
    && m.runtimeToProvider == (map n | n in tools :: alias(n))
    && forall n :: n in tools + historical ==> RuntimeName(m, EmittedName(alias, m, n)) == Some(n)
  }

  /**
   The refusal of a request is necessary: a map with which everything reads back exists exactly when no two names of
   the tools and the history share an alias, which is when the maps are built.
   */
  lemma ReadableExactlyWithoutClash(alias: Aliasing, tools: set<string>, historical: set<string>)
    ensures (exists m :: ReadsBack(alias, m, tools, historical)) <==> InjectiveOn(alias, tools + historical)
  {
    var all := tools + historical;
    if InjectiveOn(alias, all) {
      var inverse := InverseOf(alias, all);
      var m := AliasMap(map n | n in tools :: alias(n), inverse);
      forall n | n in all ensures RuntimeName(m, EmittedName(alias, m, n)) == Some(n) {
        EmittedNamesReadBack(alias, m, tools, historical, n, n);
      }
      assert ReadsBack(alias, m, tools, historical);
    }
    forall m, a, b | ReadsBack(alias, m, tools, historical) && a in all && b in all && alias(a) == alias(b)
      ensures a == b
    {
      assert EmittedName(alias, m, a) == EmittedName(alias, m, b);
    }
  }

  lemma {:induction false} InverseOf(alias: Aliasing, names: set<string>) returns (inverse: map<string, string>)
    requires InjectiveOn(alias, names)
    ensures Inverts(alias, inverse, names)
  {
    inverse := map[];
    if names != {} {
      var n :| n in names;
      inverse := InverseOf(alias, names - {n});
      Extends(alias, inverse, names - {n}, n);
      assert names - {n} + {n} == names;
      inverse := inverse[alias(n) := n];
    }
  }

  // ----- The fuzzy lookup -----

  predicate LooksLikeDigest(s: string) {
    8 <= |s| <= 64 && forall c :: c in s ==> IsHexDigit(c)
  }

  /** Eight to sixty-four hexadecimal digits look like a digest. */
  lemma DigestsHaveALength(s: string)
    requires forall c :: c in s ==> IsHexDigit(c)
    ensures |s| in {8, 64} ==> LooksLikeDigest(s)
    ensures |s| in {7, 65} ==> !LooksLikeDigest(s)
  {
  }

  /** The split falls behind the prefix, unless the prefix has a double underscore of its own. */
  lemma {:induction false} SplitBehindPrefix(p: string, digest: string)
    requires p != [] ==> p[|p| - 1] != '_'
    ensures SplitOnce(p + "__" + digest).Some?
    ensures !HasDoubleUnderscore(p) ==> SplitOnce(p + "__" + digest) == Some((p, digest))
    ensures HasDoubleUnderscore(p) ==> '_' in SplitOnce(p + "__" + digest).value.1
  {
    var s := p + "__" + digest;
    if p == [] {
      assert s[2..] == digest;
    } else if s[0] == '_' && s[1] == '_' {
      assert p[1] == s[1];
      assert s[2..][|p| - 2] == '_';
    } else {
      assert s[1..] == p[1..] + "__" + digest && p == [s[0]] + p[1..];
      SplitBehindPrefix(p[1..], digest);
      assert HasDoubleUnderscore(p) <==> HasDoubleUnderscore(p[1..]) by {
        if HasDoubleUnderscore(p) {
          var k :| 0 <= k < |p| - 1 && p[k] == '_' && p[k + 1] == '_';
          assert s[0] == p[0] && s[1] == (if |p| > 1 then p[1] else '_');
          assert p[1..][k - 1] == '_' && p[1..][k] == '_';
        }
        if HasDoubleUnderscore(p[1..]) {
          var k :| 0 <= k < |p[1..]| - 1 && p[1..][k] == '_' && p[1..][k + 1] == '_';
          assert p[k + 1] == '_' && p[k + 2] == '_';
        }
      }
    }
  }

  /**
   A provider that gets the digest of a tool's name wrong is understood exactly when no other tool has the same
   prefix and the prefix has no double underscore.
   */
  lemma WrongDigestIsForgiven(m: AliasMap, name: string, digest: string)
    requires name in m.runtimeToProvider && LooksLikeDigest(digest)
    requires var p := Prefix(name) + "__" + digest; p !in m.providerToRuntime && p !in m.runtimeToProvider
    ensures RuntimeName(m, Prefix(name) + "__" + digest) == Some(name)
            <==> Candidates(m, Prefix(name)) == {name} && !HasDoubleUnderscore(Prefix(name))
  {
    var prefix := Prefix(name);
    var given := prefix + "__" + digest;
    SplitBehindPrefix(prefix, digest);
    assert '_' in SplitOnce(given).value.1 ==> !LooksLikeDigest(SplitOnce(given).value.1);
    assert HasDoubleUnderscore(prefix) ==> CompatibleName(given) == given;
    assert given != prefix by { assert |given| > |prefix|; }
    assert name !in Candidates(m, given);
  }

  /** An alias without its digest, or any other name that matches no map, is understood by its prefix alone. */
  lemma BarePrefixIsUnderstood(m: AliasMap, p: string)
    requires p !in m.providerToRuntime && p !in m.runtimeToProvider && !HasDoubleUnderscore(p)
    ensures forall name :: RuntimeName(m, p) == Some(name) <==> Candidates(m, p) == {name}
  {
    forall name ensures RuntimeName(m, p) == Some(name) <==> Candidates(m, p) == {name} {
      if Candidates(m, p) == {name} && RuntimeName(m, p).Some? {
        assert RuntimeName(m, p).value in Candidates(m, p);
      }
    }
  }
}
