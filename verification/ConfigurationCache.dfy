/**
 The in-memory configuration of one gateway instance against the durable store it shares with others. Writers
 commit at any moment between the separate reads of a refresh; the refresh accepts what it read only when the
 version before and after agree. `resolve` stands for resolving connections and validating, which may fail.
 */
module ConfigurationCache {
  import opened Prelude
  import R = Revisions

  datatype Connection = Connection(version: nat, content: string)

  datatype Store = Store(
    resources: R.Table,
    policies: R.Table,
    connections: map<string, Connection>,
    version: nat)

  /** What the reads of a refresh return: current rows and connections. */
  datatype Loaded = Loaded(
    resources: map<R.Key, string>,
    connections: map<string, Connection>,
    policies: map<R.Key, string>)

  function CurrentRows(t: R.Table): map<R.Key, string> {
    map k | k in t && t[k].current :: t[k].content
  }

  function View(store: Store): Loaded {
    Loaded(CurrentRows(store.resources), store.connections, CurrentRows(store.policies))
  }

  datatype Write =
    | SaveResource(id: string, content: string, expected: Option<nat>)
    | SavePolicy(id: string, content: string, expected: Option<nat>)
    | ActivatePolicy(id: string, target: nat, replacing: nat)
    | SaveConnection(id: string, content: string, expected: Option<nat>)
    | Initialize(resources: map<R.Key, string>, policies: map<R.Key, string>)

  predicate DistinctIds(rows: map<R.Key, string>) {
    forall a, b :: a in rows && b in rows && a.id == b.id ==> a == b
  }

  function Inserted(rows: map<R.Key, string>): R.Table {
    map k | k in rows :: R.Row(rows[k], true)
  }

  predicate Empty(store: Store) {
    CurrentRows(store.resources) == map[] && CurrentRows(store.policies) == map[]
  }

  /** Every write but the initial one bumps the version in its transaction; a bump past 64 bits aborts it. */
  function Bumped(store: Store, changed: Store): Store {
    if store.version + 1 > I64_MAX then store else changed.(version := store.version + 1)
  }

  /** `validate_config`, before a process opens the store: no configuration without resources and policies. */
  predicate Configured(resources: map<R.Key, string>, policies: map<R.Key, string>) {
    resources != map[] && policies != map[]
  }

  /** The rows are inserted into empty tables only; two current rows of one id violate the unique index. */
  predicate CanInitialize(store: Store, resources: map<R.Key, string>, policies: map<R.Key, string>) {
    Configured(resources, policies) && Empty(store) && DistinctIds(resources) && DistinctIds(policies)
  }

  ghost function Commit(store: Store, write: Write): Store {
    match write
    case SaveResource(id, content, expected) =>
      (match R.Save(R.Resource, store.resources, id, content, expected)
       case Ok(r) => Bumped(store, store.(resources := r.0))
       case Err(_) => store)
    case SavePolicy(id, content, expected) =>
      (match R.Save(R.Policy, store.policies, id, content, expected)
       case Ok(r) => Bumped(store, store.(policies := r.0))
       case Err(_) => store)
    case ActivatePolicy(id, target, replacing) =>
      (match R.Activate(store.policies, id, target, replacing)
       case Ok(policies) => Bumped(store, store.(policies := policies))
       case Err(_) => store)
    case SaveConnection(id, content, expected) =>
      var current := if id in store.connections then Some(store.connections[id].version) else None;
      var next := if current.Some? then current.value + 1 else 1;
      if !R.Expected(current, expected) || next > I64_MAX then store
      else Bumped(store, store.(connections := store.connections[id := Connection(next, content)]))
    case Initialize(resources, policies) =>
      if CanInitialize(store, resources, policies)
      then store.(resources := store.resources + Inserted(resources), policies := store.policies + Inserted(policies))
      else store
  }

  /** A refresh: between attempts, between its reads, holding a consistent load, or between its two publications. */
  datatype Refresh =
    | Idle
    | Attempting(attempt: nat)
    | SawVersion(attempt: nat, before: nat)
    | SawResources(attempt: nat, before: nat, resources: map<R.Key, string>)
    | SawConnections(attempt: nat, before: nat, resources: map<R.Key, string>, connections: map<string, Connection>)
    | SawPolicies(attempt: nat, before: nat, data: Loaded)
    | Accepted(version: nat, data: Loaded)
    | Installed(version: nat)

  /** The service, from its start: the version is read, then the store initialized, then the tables are read. */
  datatype Service<S> =
    | Down
    | Versioned(version: nat)
    | Seeded(version: nat)
    | ReadResources(version: nat, resources: map<R.Key, string>)
    | ReadPolicies(version: nat, resources: map<R.Key, string>, policies: map<R.Key, string>)
    | ReadAll(version: nat, data: Loaded)
    | Up(snapshot: S, observed: nat)

  datatype System<S> = System(store: Store, service: Service<S>, refreshes: map<nat, Refresh>)

  /** The shared store as first migrated, and no process running. */
  function Fresh<S>(): System<S> {
    System(Store(map[], map[], map[], 0), Down, map[])
  }

  const MAX_ATTEMPTS := 3

  datatype Step =
    | Writer(write: Write)
    | Boot
    | Seed(resources: map<R.Key, string>, policies: map<R.Key, string>)
    | BootRead
    | Begin(r: nat, onlyIfStale: bool)
    | Advance(r: nat)
    | Drop(r: nat)
    | Crash

  function StateOf<S>(sys: System<S>, r: nat): Refresh {
    if r in sys.refreshes then sys.refreshes[r] else Idle
  }

  ghost predicate NoneRunning(refreshes: map<nat, Refresh>) {
    forall r :: r in refreshes ==> refreshes[r].Idle?
  }

  /** The next statement of the start-up sequence. */
  function DoBootRead<S>(sys: System<S>, resolve: Loaded -> Option<S>): System<S> {
    match sys.service
    case Seeded(v) => sys.(service := ReadResources(v, CurrentRows(sys.store.resources)))
    case ReadResources(v, resources) => sys.(service := ReadPolicies(v, resources, CurrentRows(sys.store.policies)))
    case ReadPolicies(v, resources, policies) =>
      sys.(service := ReadAll(v, Loaded(resources, sys.store.connections, policies)))
    case ReadAll(v, data) =>
      (match resolve(data)
       case Some(snapshot) => sys.(service := Up(snapshot, v))
       case None => sys.(service := Down))
    case _ => sys
  }

  function Moved<S>(sys: System<S>, r: nat, state: Refresh): System<S> {
    sys.(refreshes := sys.refreshes[r := state])
  }

  /** One statement of the read loop, against what is stored at that moment: the version, or a single table. */
  function NextRead(version: nat, view: Loaded, state: Refresh): Refresh {
    match state
    case Attempting(n) => SawVersion(n, version)
    case SawVersion(n, before) => SawResources(n, before, view.resources)
    case SawResources(n, before, resources) => SawConnections(n, before, resources, view.connections)
    case SawConnections(n, before, resources, connections) =>
      SawPolicies(n, before, Loaded(resources, connections, view.policies))
    case SawPolicies(n, before, data) =>
      if version == before then Accepted(before, data)
      else if n < MAX_ATTEMPTS then Attempting(n + 1)
      else Idle
    case _ => state
  }

  /** The next statement of a running refresh; a configuration that does not resolve is not installed. */
  function DoAdvance<S>(sys: System<S>, r: nat, resolve: Loaded -> Option<S>): System<S>
    requires sys.service.Up?
  {
    match StateOf(sys, r)
    case Idle => sys
    case Accepted(version, data) =>
      (match resolve(data)
       case Some(snapshot) => Moved(sys.(service := sys.service.(snapshot := snapshot)), r, Installed(version))
       case None => Moved(sys, r, Idle))
    case Installed(version) => Moved(sys.(service := sys.service.(observed := version)), r, Idle)
    case reading => Moved(sys, r, NextRead(sys.store.version, View(sys.store), reading))
  }

  /**
   With `serialised`, a refresh starts only when none is running. A refresh is dropped when one of its reads fails or
   its request is dropped; between its two publications it cannot be.
   */
  ghost function Apply<S>(serialised: bool, resolve: Loaded -> Option<S>, sys: System<S>, step: Step): System<S> {
    match step
    case Writer(write) => sys.(store := Commit(sys.store, write))
    case Boot => if sys.service.Down? then sys.(service := Versioned(sys.store.version)) else sys
    case Seed(resources, policies) =>
      if !sys.service.Versioned? then sys
      else if !Configured(resources, policies) || (Empty(sys.store) && !CanInitialize(sys.store, resources, policies))
      then sys.(service := Down)
      else
        sys.(store := Commit(sys.store, Initialize(resources, policies)), service := Seeded(sys.service.version))
    case BootRead => DoBootRead(sys, resolve)
    case Begin(r, onlyIfStale) =>
      if sys.service.Up? && StateOf(sys, r).Idle? && (serialised ==> NoneRunning(sys.refreshes))
         && !(onlyIfStale && sys.store.version <= sys.service.observed)
      then sys.(refreshes := sys.refreshes[r := Attempting(1)])
      else sys
    case Advance(r) => if sys.service.Up? then DoAdvance(sys, r, resolve) else sys
    case Drop(r) => if StateOf(sys, r).Idle? || StateOf(sys, r).Installed? then sys else Moved(sys, r, Idle)
    case Crash => sys.(service := Down, refreshes := map[])
  }

  ghost function Run<S>(serialised: bool, resolve: Loaded -> Option<S>, sys: System<S>, steps: seq<Step>): System<S> {
    if steps == [] then sys
    else Apply(serialised, resolve, Run(serialised, resolve, sys, steps[..|steps| - 1]), steps[|steps| - 1])
  }

  // ----- What every write does to the view -----

  ghost predicate StoreValid(store: Store) {
    R.Valid(R.Resource, store.resources) && R.Valid(R.Policy, store.policies)
  }

  lemma InsertedIsValid(rows: map<R.Key, string>, kind: R.Kind)
    requires DistinctIds(rows)
    ensures R.Valid(kind, Inserted(rows))
  {
    var t := Inserted(rows);
    forall k | k in t ensures R.Current(t, k.id) == Some(k.revision) {
      assert R.IsCurrent(t, k.id, k.revision);
      assert R.IsCurrent(t, k.id, R.Current(t, k.id).value);
    }
  }

  lemma NoCurrentRowsNoRows(t: R.Table)
    requires R.OneCurrent(t)
    ensures CurrentRows(t) == map[] ==> t == map[]
  {
    forall k | k in t ensures R.Key(k.id, R.Current(t, k.id).value) in CurrentRows(t) {
      assert R.IsCurrent(t, k.id, R.Current(t, k.id).value);
    }
  }

  lemma CommitKeepsStoreValid(store: Store, write: Write)
    requires StoreValid(store)
    ensures StoreValid(Commit(store, write))
  {
    match write
    case SaveResource(id, content, expected) =>
      R.SaveIsCompareAndSwap(R.Resource, store.resources, id, content, expected);
    case SavePolicy(id, content, expected) => R.SaveIsCompareAndSwap(R.Policy, store.policies, id, content, expected);
    case ActivatePolicy(id, target, replacing) => R.ActivateIsCompareAndSwap(store.policies, id, target, replacing);
    case SaveConnection(_, _, _) =>
    case Initialize(resources, policies) =>
      if CanInitialize(store, resources, policies) {
        NoCurrentRowsNoRows(store.resources);
        NoCurrentRowsNoRows(store.policies);
        assert store.resources + Inserted(resources) == Inserted(resources);
        assert store.policies + Inserted(policies) == Inserted(policies);
        InsertedIsValid(resources, R.Resource);
        InsertedIsValid(policies, R.Policy);
      }
  }

  /** On a store with rows a write either changes nothing at all or takes the next version, and rows remain. */
  lemma CommitBumpsOrKeeps(store: Store, write: Write)
    requires StoreValid(store) && !Empty(store)
    ensures Commit(store, write) == store || Commit(store, write).version == store.version + 1
    ensures !Empty(Commit(store, write))
  {
    match write
    case SaveResource(id, content, expected) =>
      if R.Save(R.Resource, store.resources, id, content, expected).Ok? {
        var (t, next) := R.Save(R.Resource, store.resources, id, content, expected).value;
        assert R.Key(id, next) in CurrentRows(t);
      }
    case SavePolicy(id, content, expected) =>
      if R.Save(R.Policy, store.policies, id, content, expected).Ok? {
        var (t, next) := R.Save(R.Policy, store.policies, id, content, expected).value;
        assert R.Key(id, next) in CurrentRows(t);
      }
    case ActivatePolicy(id, target, replacing) =>
      if R.Activate(store.policies, id, target, replacing).Ok? {
        assert R.Key(id, target) in CurrentRows(R.Activate(store.policies, id, target, replacing).value);
      }
    case SaveConnection(_, _, _) =>
    case Initialize(_, _) =>
  }

  /** The current rows with the one of an id replaced. */
  function Replaced(rows: map<R.Key, string>, id: string, revision: nat, content: string): map<R.Key, string> {
    (map k | k in rows && k.id != id :: rows[k])[R.Key(id, revision) := content]
  }

  lemma CurrentRowsReplaced(t: R.Table, t': R.Table, id: string, revision: nat)
    requires R.OneCurrent(t) && R.OneCurrent(t') && R.Preserves(t, t') && R.Current(t', id) == Some(revision)
    requires forall k :: k in t' && k !in t ==> k == R.Key(id, revision)
    requires forall other :: other != id ==> R.Current(t', other) == R.Current(t, other)
    ensures CurrentRows(t') == Replaced(CurrentRows(t), id, revision, t'[R.Key(id, revision)].content)
  {
    var content := t'[R.Key(id, revision)].content;
    var replaced := Replaced(CurrentRows(t), id, revision, content);
    forall k ensures k in CurrentRows(t') <==> k in replaced {
      if k.id != id {
        OtherRowsStay(t, t', k);
      } else {
        MarkedIsCurrent(t', k);
      }
    }
  }

  lemma OtherRowsStay(t: R.Table, t': R.Table, k: R.Key)
    requires R.OneCurrent(t) && R.OneCurrent(t') && R.Current(t', k.id) == R.Current(t, k.id)
    ensures k in CurrentRows(t') <==> k in CurrentRows(t)
  {
    MarkedIsCurrent(t, k);
    MarkedIsCurrent(t', k);
  }

  lemma MarkedIsCurrent(t: R.Table, k: R.Key)
    requires R.OneCurrent(t)
    ensures k in CurrentRows(t) <==> R.Current(t, k.id) == Some(k.revision)
  {
    assert R.IsCurrent(t, k.id, k.revision) <==> k in CurrentRows(t);
  }

  /** What a write that takes effect does to the view, and to the version. */
  ghost predicate TakesEffect(store: Store, write: Write, store': Store) {
    && store'.version == store.version + 1
    && match write
       case SaveResource(id, content, _) =>
         View(store') == View(store).(resources := Replaced(View(store).resources, id,
                                                            R.NextRevision(R.Resource, store.resources, id), content))
       case SavePolicy(id, content, _) =>
         View(store') == View(store).(policies := Replaced(View(store).policies, id,
                                                           R.NextRevision(R.Policy, store.policies, id), content))
       case ActivatePolicy(id, target, _) =>
         && R.Key(id, target) in store.policies
         && View(store') == View(store).(policies := Replaced(View(store).policies, id, target,
                                                              store.policies[R.Key(id, target)].content))
       case SaveConnection(id, content, _) =>
         View(store') == View(store).(connections := View(store).connections[
           id := Connection(if id in store.connections then store.connections[id].version + 1 else 1, content)])
       case Initialize(_, _) => false
  }

  /** A write is accepted: against the current number, with a next number and a next version that fit 64 bits. */
  ghost predicate Accepts(store: Store, write: Write) {
    && store.version < I64_MAX
    && match write
       case SaveResource(id, _, expected) =>
         && R.Expected(R.Current(store.resources, id), expected)
         && R.NextRevision(R.Resource, store.resources, id) <= I64_MAX
       case SavePolicy(id, _, expected) =>
         && R.Expected(R.Current(store.policies, id), expected)
         && R.NextRevision(R.Policy, store.policies, id) <= I64_MAX
       case ActivatePolicy(id, target, replacing) =>
         && target <= I64_MAX && replacing <= I64_MAX && R.Key(id, target) in store.policies
         && R.Current(store.policies, id) == Some(replacing)
       case SaveConnection(id, _, expected) =>
         if id in store.connections
         then expected == Some(store.connections[id].version) && store.connections[id].version < I64_MAX
         else expected in {None, Some(0)}
       case Initialize(_, _) => false
  }

  /** Compare and swap for every write: it takes its effect exactly if it is accepted, and else changes nothing. */
  lemma WritesCompareAndSwap(store: Store, write: Write)
    requires StoreValid(store) && !write.Initialize?
    ensures if Accepts(store, write) then TakesEffect(store, write, Commit(store, write))
            else Commit(store, write) == store
  {
    match write
    case SaveResource(id, content, expected) => ResourceSwaps(store, id, content, expected);
    case SavePolicy(id, content, expected) => PolicySwaps(store, id, content, expected);
    case ActivatePolicy(id, target, replacing) => ActivationSwaps(store, id, target, replacing);
    case SaveConnection(_, _, _) =>
  }

  lemma ResourceSwaps(store: Store, id: string, content: string, expected: Option<nat>)
    requires StoreValid(store)
    ensures var write := SaveResource(id, content, expected);
            if Accepts(store, write) then TakesEffect(store, write, Commit(store, write))
            else Commit(store, write) == store
  {
    R.SaveIsCompareAndSwap(R.Resource, store.resources, id, content, expected);
    if Accepts(store, SaveResource(id, content, expected)) {
      var (t, next) := R.Save(R.Resource, store.resources, id, content, expected).value;
      CurrentRowsReplaced(store.resources, t, id, next);
    }
  }

  lemma PolicySwaps(store: Store, id: string, content: string, expected: Option<nat>)
    requires StoreValid(store)
    ensures var write := SavePolicy(id, content, expected);
            if Accepts(store, write) then TakesEffect(store, write, Commit(store, write))
            else Commit(store, write) == store
  {
    R.SaveIsCompareAndSwap(R.Policy, store.policies, id, content, expected);
    if Accepts(store, SavePolicy(id, content, expected)) {
      var (t, next) := R.Save(R.Policy, store.policies, id, content, expected).value;
      CurrentRowsReplaced(store.policies, t, id, next);
    }
  }

  lemma ActivationSwaps(store: Store, id: string, target: nat, replacing: nat)
    requires StoreValid(store)
    ensures var write := ActivatePolicy(id, target, replacing);
            if Accepts(store, write) then TakesEffect(store, write, Commit(store, write))
            else Commit(store, write) == store
  {
    R.ActivateIsCompareAndSwap(store.policies, id, target, replacing);
    if Accepts(store, ActivatePolicy(id, target, replacing)) {
      CurrentRowsReplaced(store.policies, R.Activate(store.policies, id, target, replacing).value, id, target);
    }
  }

  /** No write ever lowers the version or removes the last row. */
  lemma CommitIsMonotone(store: Store, write: Write)
    requires StoreValid(store)
    ensures store.version <= Commit(store, write).version
  {
  }

  // ----- Invariants -----

  /** Reads taken at version `v` are still what the store holds while its version is `v`. */
  predicate RefreshOk(version: nat, view: Loaded, state: Refresh) {
    match state
    case SawVersion(_, v) => v <= version
    case SawResources(_, v, resources) => v <= version && (v == version ==> resources == view.resources)
    case SawConnections(_, v, resources, connections) =>
      v <= version && (v == version ==> resources == view.resources && connections == view.connections)
    case SawPolicies(_, v, data) => v <= version && (v == version ==> data == view)
    case Accepted(v, data) => v <= version && (v == version ==> data == view)
    case _ => true
  }

  ghost predicate ServiceOk<S>(version: nat, view: Loaded, service: Service<S>, resolve: Loaded -> Option<S>) {
    match service
    case Down => true
    case Versioned(v) => v <= version
    case Seeded(v) => v <= version
    case ReadResources(v, resources) => v <= version && (v == version ==> resources == view.resources)
    case ReadPolicies(v, resources, policies) =>
      v <= version && (v == version ==> resources == view.resources && policies == view.policies)
    case ReadAll(v, data) => v <= version && (v == version ==> data == view)
    case Up(snapshot, v) => v <= version && (v == version ==> resolve(view) == Some(snapshot))
  }

  predicate PastSeeding<S>(service: Service<S>) {
    !service.Down? && !service.Versioned?
  }

  /** What holds whether or not refreshes overlap. */
  ghost predicate LoadsOk<S>(sys: System<S>) {
    && StoreValid(sys.store)
    && (PastSeeding(sys.service) ==> !Empty(sys.store))
    && (!sys.service.Up? ==> NoneRunning(sys.refreshes))
    && (forall r :: r in sys.refreshes ==> RefreshOk(sys.store.version, View(sys.store), sys.refreshes[r]))
  }

  /** A refresh never carries a version older than the announced one. */
  predicate NotBehind(observed: nat, state: Refresh) {
    match state
    case Idle => true
    case Attempting(_) => true
    case SawVersion(_, v) => observed <= v
    case SawResources(_, v, _) => observed <= v
    case SawConnections(_, v, _, _) => observed <= v
    case SawPolicies(_, v, _) => observed <= v
    case Accepted(v, _) => observed <= v
    case Installed(v) => observed <= v
  }

  /** What a refresh that has installed its snapshot, but not announced the version, guarantees. */
  ghost predicate InstalledOk<S>(
    version: nat, view: Loaded, snapshot: S, observed: nat, resolve: Loaded -> Option<S>, state: Refresh)
  {
    && NotBehind(observed, state)
    && (state.Installed? ==>
          state.version <= version && (state.version == version ==> resolve(view) == Some(snapshot)))
  }

  ghost predicate AtMostOneRunning(refreshes: map<nat, Refresh>) {
    forall a, b :: a in refreshes && b in refreshes && !refreshes[a].Idle? && !refreshes[b].Idle? ==> a == b
  }

  ghost predicate Inv<S>(sys: System<S>, resolve: Loaded -> Option<S>) {
    && LoadsOk(sys)
    && AtMostOneRunning(sys.refreshes)
    && Announced(sys.store.version, View(sys.store), sys.service, sys.refreshes, resolve)
  }

  /** The service, against the stored version and view. */
  ghost predicate Announced<S>(
    version: nat, view: Loaded, service: Service<S>, refreshes: map<nat, Refresh>, resolve: Loaded -> Option<S>)
  {
    && ServiceOk(version, view, service, resolve)
    && (service.Up? ==> forall r :: r in refreshes ==>
          InstalledOk(version, view, service.snapshot, service.observed, resolve, refreshes[r]))
  }

  lemma WriterKeepsLoads<S>(sys: System<S>, write: Write)
    requires LoadsOk(sys)
    ensures LoadsOk(sys.(store := Commit(sys.store, write)))
  {
    CommitKeepsStoreValid(sys.store, write);
    CommitIsMonotone(sys.store, write);
    if PastSeeding(sys.service) {
      CommitBumpsOrKeeps(sys.store, write);
    }
    NewStoreKeepsLoads(sys, Commit(sys.store, write));
  }

  lemma NewStoreKeepsLoads<S>(sys: System<S>, store: Store)
    requires LoadsOk(sys) && StoreValid(store)
    requires PastSeeding(sys.service) ==>
               !Empty(store) && (store == sys.store || store.version == sys.store.version + 1)
    ensures LoadsOk(sys.(store := store))
  {
    forall r | r in sys.refreshes ensures RefreshOk(store.version, View(store), sys.refreshes[r]) {
      assert RefreshOk(sys.store.version, View(sys.store), sys.refreshes[r]);
    }
  }

  lemma SeedKeepsLoads<S>(serialised: bool, resolve: Loaded -> Option<S>, sys: System<S>, step: Step)
    requires LoadsOk(sys) && step.Seed?
    ensures LoadsOk(Apply(serialised, resolve, sys, step))
  {
    var write := Initialize(step.resources, step.policies);
    CommitKeepsStoreValid(sys.store, write);
    if CanInitialize(sys.store, step.resources, step.policies) {
      InitializedView(sys.store, step.resources, step.policies);
    }
  }

  /** What an initialization leaves: exactly the configured rows, all current, under the same version. */
  lemma InitializedView(store: Store, resources: map<R.Key, string>, policies: map<R.Key, string>)
    requires StoreValid(store) && CanInitialize(store, resources, policies)
    ensures Commit(store, Initialize(resources, policies))
         == store.(resources := Inserted(resources), policies := Inserted(policies))
    ensures View(Commit(store, Initialize(resources, policies))) == Loaded(resources, store.connections, policies)
    ensures !Empty(Commit(store, Initialize(resources, policies)))
  {
    NoCurrentRowsNoRows(store.resources);
    NoCurrentRowsNoRows(store.policies);
    assert store.resources + Inserted(resources) == Inserted(resources);
    assert store.policies + Inserted(policies) == Inserted(policies);
    assert CurrentRows(Inserted(resources)) == resources && CurrentRows(Inserted(policies)) == policies;
  }

  lemma NextReadIsOk(version: nat, view: Loaded, state: Refresh)
    requires RefreshOk(version, view, state)
    ensures RefreshOk(version, view, NextRead(version, view, state))
    ensures NextRead(version, view, state).Accepted? && state.SawPolicies?
            ==> NextRead(version, view, state) == Accepted(version, view)
  {
  }

  lemma AdvanceKeepsLoads<S>(sys: System<S>, r: nat, resolve: Loaded -> Option<S>)
    requires LoadsOk(sys) && sys.service.Up?
    ensures LoadsOk(DoAdvance(sys, r, resolve))
  {
    var version, view := sys.store.version, View(sys.store);
    assert RefreshOk(version, view, StateOf(sys, r));
    match StateOf(sys, r)
    case Idle =>
    case Accepted(v, data) =>
      if resolve(data).Some? {
        ServiceMovesKeepLoads(sys, sys.service.(snapshot := resolve(data).value));
        MoveKeepsLoads(sys.(service := sys.service.(snapshot := resolve(data).value)), r, Installed(v));
      } else {
        MoveKeepsLoads(sys, r, Idle);
      }
    case Installed(v) =>
      ServiceMovesKeepLoads(sys, sys.service.(observed := v));
      MoveKeepsLoads(sys.(service := sys.service.(observed := v)), r, Idle);
    case reading =>
      NextReadIsOk(version, view, reading);
      MoveKeepsLoads(sys, r, NextRead(version, view, reading));
  }

  lemma ServiceMovesKeepLoads<S>(sys: System<S>, service: Service<S>)
    requires LoadsOk(sys) && (PastSeeding(service) ==> PastSeeding(sys.service)) && (sys.service.Up? ==> service.Up?)
    ensures LoadsOk(sys.(service := service))
  {
  }

  lemma BootReadMoves<S>(sys: System<S>, resolve: Loaded -> Option<S>)
    ensures var service := DoBootRead(sys, resolve).service;
            && DoBootRead(sys, resolve) == sys.(service := service)
            && (PastSeeding(service) ==> PastSeeding(sys.service)) && (sys.service.Up? ==> service.Up?)
  {
  }

  lemma MoveKeepsLoads<S>(sys: System<S>, r: nat, state: Refresh)
    requires LoadsOk(sys) && (sys.service.Up? || state.Idle?)
    requires RefreshOk(sys.store.version, View(sys.store), state)
    ensures LoadsOk(Moved(sys, r, state))
  {
  }

  lemma StepKeepsLoads<S>(serialised: bool, resolve: Loaded -> Option<S>, sys: System<S>, step: Step)
    requires LoadsOk(sys)
    ensures LoadsOk(Apply(serialised, resolve, sys, step))
  {
    match step
    case Writer(write) => WriterKeepsLoads(sys, write);
    case Seed(_, _) => SeedKeepsLoads(serialised, resolve, sys, step);
    case Advance(r) => if sys.service.Up? { AdvanceKeepsLoads(sys, r, resolve); }
    case Begin(r, _) => if sys.service.Up? { MoveKeepsLoads(sys, r, Attempting(1)); }
    case Drop(r) => MoveKeepsLoads(sys, r, Idle);
    case Boot => if sys.service.Down? { ServiceMovesKeepLoads(sys, Versioned(sys.store.version)); }
    case BootRead =>
      BootReadMoves(sys, resolve);
      ServiceMovesKeepLoads(sys, DoBootRead(sys, resolve).service);
    case Crash =>
  }

  lemma {:induction false} RunKeepsLoads<S>(serialised: bool, resolve: Loaded -> Option<S>, steps: seq<Step>)
    ensures LoadsOk(Run(serialised, resolve, Fresh<S>(), steps))
  {
    if steps != [] {
      RunKeepsLoads(serialised, resolve, steps[..|steps| - 1]);
      var sys := Run(serialised, resolve, Fresh<S>(), steps[..|steps| - 1]);
      StepKeepsLoads(serialised, resolve, sys, steps[|steps| - 1]);
    }
  }

  lemma WriterKeepsInv<S>(sys: System<S>, write: Write, resolve: Loaded -> Option<S>)
    requires Inv(sys, resolve)
    ensures Inv(sys.(store := Commit(sys.store, write)), resolve)
  {
    WriterKeepsLoads(sys, write);
    if PastSeeding(sys.service) {
      CommitBumpsOrKeeps(sys.store, write);
    } else {
      CommitIsMonotone(sys.store, write);
    }
  }

  lemma AdvanceKeepsAnnounced<S>(sys: System<S>, r: nat, resolve: Loaded -> Option<S>, view: Loaded)
    requires AtMostOneRunning(sys.refreshes) && sys.service.Up? && !StateOf(sys, r).Idle? && view == View(sys.store)
    requires Announced(sys.store.version, view, sys.service, sys.refreshes, resolve)
    requires RefreshOk(sys.store.version, view, StateOf(sys, r))
    ensures var sys' := DoAdvance(sys, r, resolve);
            Announced(sys.store.version, view, sys'.service, sys'.refreshes, resolve)
  {
    var sys' := DoAdvance(sys, r, resolve);
    assert InstalledOk(sys.store.version, view, sys.service.snapshot, sys.service.observed, resolve, StateOf(sys, r));
    forall x | x in sys'.refreshes
      ensures InstalledOk(sys.store.version, view, sys'.service.snapshot, sys'.service.observed, resolve,
                          sys'.refreshes[x])
    {
      assert x != r ==> sys.refreshes[x].Idle?;
    }
  }

  lemma AdvanceKeepsInv<S>(sys: System<S>, r: nat, resolve: Loaded -> Option<S>)
    requires Inv(sys, resolve) && sys.service.Up?
    ensures Inv(DoAdvance(sys, r, resolve), resolve)
  {
    AdvanceKeepsLoads(sys, r, resolve);
    AdvanceRunsOnlyItself(sys, r, resolve);
    if !StateOf(sys, r).Idle? {
      AdvanceKeepsAnnounced(sys, r, resolve, View(sys.store));
    }
  }

  lemma AdvanceRunsOnlyItself<S>(sys: System<S>, r: nat, resolve: Loaded -> Option<S>)
    requires AtMostOneRunning(sys.refreshes) && sys.service.Up?
    ensures AtMostOneRunning(DoAdvance(sys, r, resolve).refreshes)
  {
  }

  lemma StepKeepsInv<S>(resolve: Loaded -> Option<S>, sys: System<S>, step: Step)
    requires Inv(sys, resolve)
    ensures Inv(Apply(true, resolve, sys, step), resolve)
  {
    match step
    case Writer(write) => WriterKeepsInv(sys, write, resolve);
    case Advance(r) => if sys.service.Up? { AdvanceKeepsInv(sys, r, resolve); }
    case BootRead =>
      StepKeepsLoads(true, resolve, sys, step);
      BootReadKeepsInv(resolve, sys);
    case Begin(_, _) => BeginKeepsInv(resolve, sys, step);
    case _ => LocalStepKeepsInv(resolve, sys, step);
  }

  lemma LocalStepKeepsInv<S>(resolve: Loaded -> Option<S>, sys: System<S>, step: Step)
    requires Inv(sys, resolve) && !step.Writer? && !step.Advance? && !step.Begin? && !step.BootRead?
    ensures Inv(Apply(true, resolve, sys, step), resolve)
  {
    StepKeepsLoads(true, resolve, sys, step);
  }

  lemma BeginKeepsInv<S>(resolve: Loaded -> Option<S>, sys: System<S>, step: Step)
    requires Inv(sys, resolve) && step.Begin?
    ensures Inv(Apply(true, resolve, sys, step), resolve)
  {
    StepKeepsLoads(true, resolve, sys, step);
  }

  lemma BootReadKeepsAnnounced<S>(sys: System<S>, resolve: Loaded -> Option<S>)
    requires NoneRunning(sys.refreshes) || sys.service.Up?
    requires Announced(sys.store.version, View(sys.store), sys.service, sys.refreshes, resolve)
    ensures Announced(sys.store.version, View(sys.store), DoBootRead(sys, resolve).service, sys.refreshes, resolve)
  {
  }

  lemma BootReadKeepsInv<S>(resolve: Loaded -> Option<S>, sys: System<S>)
    requires Inv(sys, resolve) && LoadsOk(DoBootRead(sys, resolve))
    ensures Inv(DoBootRead(sys, resolve), resolve)
  {
    BootReadKeepsAnnounced(sys, resolve);
  }

  lemma {:induction false} RunKeepsInv<S>(resolve: Loaded -> Option<S>, steps: seq<Step>)
    ensures Inv(Run(true, resolve, Fresh<S>(), steps), resolve)
  {
    if steps != [] {
      RunKeepsInv(resolve, steps[..|steps| - 1]);
      StepKeepsInv(resolve, Run(true, resolve, Fresh<S>(), steps[..|steps| - 1]), steps[|steps| - 1]);
    }
  }

  // ----- Theorems -----

  /**
   The optimistic read is sound under any interleaving, overlapping refreshes included: when the version after the
   reads equals the one before, the separately read tables are the durable configuration of that version.
   */
  lemma AcceptedReadIsTheDurableConfiguration<S>(
    serialised: bool, resolve: Loaded -> Option<S>, steps: seq<Step>, r: nat)
    requires var sys := Run(serialised, resolve, Fresh<S>(), steps);
             && sys.service.Up? && StateOf(sys, r).SawPolicies?
             && StateOf(Apply(serialised, resolve, sys, Advance(r)), r).Accepted?
    ensures var sys := Run(serialised, resolve, Fresh<S>(), steps);
            StateOf(Apply(serialised, resolve, sys, Advance(r)), r) == Accepted(sys.store.version, View(sys.store))
  {
    var sys := Run(serialised, resolve, Fresh<S>(), steps);
    RunKeepsLoads(serialised, resolve, steps);
    assert RefreshOk(sys.store.version, View(sys.store), StateOf(sys, r));
    NextReadIsOk(sys.store.version, View(sys.store), StateOf(sys, r));
  }

  /**
   Cache coherence with one refresh at a time: whenever the announced version is the durable one, the snapshot is the
   resolved durable configuration, from the end of the start-up on and between the two publications of a refresh.
   */
  lemma SnapshotIsCoherent<S>(resolve: Loaded -> Option<S>, steps: seq<Step>)
    requires var sys := Run(true, resolve, Fresh<S>(), steps);
             sys.service.Up? && sys.service.observed == sys.store.version
    ensures var sys := Run(true, resolve, Fresh<S>(), steps);
            resolve(View(sys.store)) == Some(sys.service.snapshot)
  {
    RunKeepsInv(resolve, steps);
  }

  // ----- Overlapping refreshes -----

  lemma {:induction false} RunInTwoParts<S>(
    serialised: bool, resolve: Loaded -> Option<S>, sys: System<S>, first: seq<Step>, second: seq<Step>)
    ensures Run(serialised, resolve, sys, first + second)
         == Run(serialised, resolve, Run(serialised, resolve, sys, first), second)
  {
    if second == [] {
      assert first + second == first;
    } else {
      var shorter := second[..|second| - 1];
      RunInTwoParts(serialised, resolve, sys, first, shorter);
      assert (first + second)[..|first + second| - 1] == first + shorter;
    }
  }

  lemma RunOneMore<S>(serialised: bool, resolve: Loaded -> Option<S>, sys: System<S>, steps: seq<Step>, step: Step)
    ensures Run(serialised, resolve, sys, steps + [step])
         == Apply(serialised, resolve, Run(serialised, resolve, sys, steps), step)
  {
    assert (steps + [step])[..|steps|] == steps;
  }

  /** The five reads of a refresh, one after the other. */
  function Reads(r: nat): seq<Step> {
    [Begin(r, false)] + [Advance(r)] + [Advance(r)] + [Advance(r)] + [Advance(r)] + [Advance(r)]
  }

  /** A refresh that nothing disturbs reads the stored configuration in five statements. */
  lemma UndisturbedRead<S>(resolve: Loaded -> Option<S>, sys: System<S>, r: nat)
    requires sys.service.Up? && StateOf(sys, r).Idle?
    ensures Run(false, resolve, sys, Reads(r)) == Moved(sys, r, Accepted(sys.store.version, View(sys.store)))
  {
    var v, view := sys.store.version, View(sys.store);
    RunOneMore(false, resolve, sys, [], Begin(r, false));
    assert [] + [Begin(r, false)] == [Begin(r, false)];
    var steps := [Begin(r, false)];
    assert Run(false, resolve, sys, steps) == Moved(sys, r, Attempting(1));
    NextRefreshRead(resolve, sys, r, steps, Attempting(1));
    NextRefreshRead(resolve, sys, r, steps + [Advance(r)], SawVersion(1, v));
    steps := steps + [Advance(r)] + [Advance(r)];
    NextRefreshRead(resolve, sys, r, steps, SawResources(1, v, view.resources));
    NextRefreshRead(resolve, sys, r, steps + [Advance(r)], SawConnections(1, v, view.resources, view.connections));
    steps := steps + [Advance(r)] + [Advance(r)];
    NextRefreshRead(resolve, sys, r, steps, SawPolicies(1, v, view));
  }

  predicate Reading(state: Refresh) {
    !state.Idle? && !state.Accepted? && !state.Installed?
  }

  lemma AdvanceReads<S>(resolve: Loaded -> Option<S>, sys: System<S>, r: nat)
    requires sys.service.Up? && r in sys.refreshes && Reading(sys.refreshes[r])
    ensures Apply(false, resolve, sys, Advance(r))
         == Moved(sys, r, NextRead(sys.store.version, View(sys.store), sys.refreshes[r]))
  {
  }

  lemma MovedTwice<S>(sys: System<S>, r: nat, state: Refresh, next: Refresh)
    ensures Moved(Moved(sys, r, state), r, next) == Moved(sys, r, next)
  {
    assert sys.refreshes[r := state][r := next] == sys.refreshes[r := next];
  }

  lemma NextRefreshRead<S>(
    resolve: Loaded -> Option<S>, sys: System<S>, r: nat, steps: seq<Step>, state: Refresh)
    requires sys.service.Up? && Reading(state)
    requires Run(false, resolve, sys, steps) == Moved(sys, r, state)
    ensures Run(false, resolve, sys, steps + [Advance(r)])
         == Moved(sys, r, NextRead(sys.store.version, View(sys.store), state))
  {
    RunOneMore(false, resolve, sys, steps, Advance(r));
    AdvanceReads(resolve, Moved(sys, r, state), r);
    MovedTwice(sys, r, state, NextRead(sys.store.version, View(sys.store), state));
  }

  // ----- A refresh on its own -----

  /** An instance that looks for changes starts a refresh exactly if it is behind; an administrator's starts anyway. */
  lemma StaleInstancesRefresh<S>(
    serialised: bool, resolve: Loaded -> Option<S>, sys: System<S>, r: nat, onlyIfStale: bool)
    requires sys.service.Up? && StateOf(sys, r).Idle? && (serialised ==> NoneRunning(sys.refreshes))
    ensures var sys' := Apply(serialised, resolve, sys, Begin(r, onlyIfStale));
            && sys'.store == sys.store && sys'.service == sys.service
            && StateOf(sys', r) == (if onlyIfStale && sys.service.observed >= sys.store.version then Idle
                                    else Attempting(1))
  {
  }

  /** An attempt that saw the version move is repeated, up to the third, and installs nothing. */
  lemma DisturbedReadsAreRepeated<S>(
    serialised: bool, resolve: Loaded -> Option<S>, sys: System<S>, r: nat, n: nat, seen: nat, data: Loaded)
    requires sys.service.Up? && StateOf(sys, r) == SawPolicies(n, seen, data) && seen != sys.store.version
    ensures Apply(serialised, resolve, sys, Advance(r)) == Moved(sys, r, if n < 3 then Attempting(n + 1) else Idle)
  {
  }

  /**
   A refresh that nothing disturbs installs and announces the stored configuration if it resolves, and otherwise leaves
   the instance with what it had.
   */
  lemma UndisturbedRefreshCatchesUp<S>(resolve: Loaded -> Option<S>, sys: System<S>, r: nat)
    requires sys.service.Up? && StateOf(sys, r).Idle?
    ensures var sys' := Run(false, resolve, sys, Reads(r) + [Advance(r)] + [Advance(r)]);
            var resolved := resolve(View(sys.store));
            && sys'.store == sys.store && StateOf(sys', r).Idle?
            && sys'.service == (if resolved.Some? then Up(resolved.value, sys.store.version) else sys.service)
  {
    UndisturbedRead(resolve, sys, r);
    RunOneMore(false, resolve, sys, Reads(r), Advance(r));
    RunOneMore(false, resolve, sys, Reads(r) + [Advance(r)], Advance(r));
  }

  /** A refresh that is dropped leaves service and store alone, unless it is between its two publications. */
  lemma DroppedRefreshesAreGone<S>(serialised: bool, resolve: Loaded -> Option<S>, sys: System<S>, r: nat)
    ensures var sys' := Apply(serialised, resolve, sys, Drop(r));
            && sys'.store == sys.store && sys'.service == sys.service
            && StateOf(sys', r) == (if StateOf(sys, r).Installed? then StateOf(sys, r) else Idle)
  {
  }

  /** Install 1, install 0, announce 0, announce 1. */
  const PUBLICATIONS: seq<Step> := [] + [Advance(1)] + [Advance(0)] + [Advance(0)] + [Advance(1)]

  /** The end of the bad schedule: refresh 0 still carries the older load when refresh 1 has the newer one. */
  lemma StaleInstallWins<S>(resolve: Loaded -> Option<S>, sys: System<S>, v: nat, data: Loaded)
    requires sys.service.Up? && StateOf(sys, 0) == Accepted(v, data)
    requires StateOf(sys, 1) == Accepted(sys.store.version, View(sys.store))
    requires resolve(data).Some? && resolve(View(sys.store)).Some? && resolve(data) != resolve(View(sys.store))
    ensures var last := Run(false, resolve, sys, PUBLICATIONS);
            && last.service.Up? && last.service.observed == last.store.version
            && resolve(View(last.store)) != Some(last.service.snapshot)
  {
    RunOneMore(false, resolve, sys, [], Advance(1));
    RunOneMore(false, resolve, sys, [] + [Advance(1)], Advance(0));
    RunOneMore(false, resolve, sys, [] + [Advance(1)] + [Advance(0)], Advance(0));
    RunOneMore(false, resolve, sys, [] + [Advance(1)] + [Advance(0)] + [Advance(0)], Advance(1));
  }

  /** Refresh 0 reads, a write commits, refresh 1 reads, and the publications interleave. */
  function BadSchedule(write: Write): seq<Step> {
    Reads(0) + ([Writer(write)] + (Reads(1) + PUBLICATIONS))
  }

  /**
   Why refreshes must not overlap: refresh 0 reads, a write commits, refresh 1 reads and installs the new
   configuration, refresh 0 installs and announces the old one, refresh 1 announces the new version. The service
   then claims the durable version with the previous configuration.
   */
  lemma OverlapLosesCoherence<S>(resolve: Loaded -> Option<S>, sys: System<S>, write: Write)
    requires sys.service.Up? && StateOf(sys, 0).Idle? && StateOf(sys, 1).Idle?
    requires Commit(sys.store, write).version == sys.store.version + 1
    requires resolve(View(sys.store)).Some? && resolve(View(Commit(sys.store, write))).Some?
    requires resolve(View(sys.store)) != resolve(View(Commit(sys.store, write)))
    ensures var last := Run(false, resolve, sys, BadSchedule(write));
            && last.service.Up? && last.service.observed == last.store.version
            && resolve(View(last.store)) != Some(last.service.snapshot)
  {
    var read0 := Run(false, resolve, sys, Reads(0));
    UndisturbedRead(resolve, sys, 0);
    RunInTwoParts(false, resolve, sys, Reads(0), [Writer(write)] + (Reads(1) + PUBLICATIONS));
    var written := Run(false, resolve, read0, [Writer(write)]);
    RunOneMore(false, resolve, read0, [], Writer(write));
    assert [] + [Writer(write)] == [Writer(write)];
    RunInTwoParts(false, resolve, read0, [Writer(write)], Reads(1) + PUBLICATIONS);
    UndisturbedRead(resolve, written, 1);
    RunInTwoParts(false, resolve, written, Reads(1), PUBLICATIONS);
    StaleInstallWins(resolve, Run(false, resolve, written, Reads(1)), sys.store.version, View(sys.store));
  }

  /** A first start on an empty store. */
  function StartUp(resources: map<R.Key, string>, policies: map<R.Key, string>): seq<Step> {
    [] + [Boot] + [Seed(resources, policies)] + [BootRead] + [BootRead] + [BootRead] + [BootRead]
  }

  lemma StartsCoherent<S>(
    resolve: Loaded -> Option<S>, resources: map<R.Key, string>, policies: map<R.Key, string>)
    requires Configured(resources, policies) && DistinctIds(resources) && DistinctIds(policies)
    requires resolve(Loaded(resources, map[], policies)).Some?
    ensures var store := Store(Inserted(resources), Inserted(policies), map[], 0);
            && View(store) == Loaded(resources, map[], policies)
            && Run(false, resolve, Fresh<S>(), StartUp(resources, policies))
               == System(store, Up(resolve(View(store)).value, 0), map[])
  {
    var store := Store(Inserted(resources), Inserted(policies), map[], 0);
    var seeded := [] + [Boot] + [Seed(resources, policies)];
    SeedsFirst(resolve, resources, policies);
    assert Run(false, resolve, Fresh<S>(), seeded) == System(store, Seeded(0), map[]);
    FourBootReads(resolve, Fresh<S>(), seeded, System(store, Seeded(0), map[]));
    ReadsTheStore(resolve, store);
  }

  lemma SeedsFirst<S>(resolve: Loaded -> Option<S>, resources: map<R.Key, string>, policies: map<R.Key, string>)
    requires Configured(resources, policies) && DistinctIds(resources) && DistinctIds(policies)
    ensures var store := Store(Inserted(resources), Inserted(policies), map[], 0);
            && View(store) == Loaded(resources, map[], policies)
            && Run(false, resolve, Fresh<S>(), [] + [Boot] + [Seed(resources, policies)])
               == System(store, Seeded(0), map[])
  {
    var empty := Store(map[], map[], map[], 0);
    RunOneMore(false, resolve, Fresh<S>(), [], Boot);
    assert Run(false, resolve, Fresh<S>(), [] + [Boot]) == System(empty, Versioned(0), map[]);
    RunOneMore(false, resolve, Fresh<S>(), [] + [Boot], Seed(resources, policies));
    SeedsTheEmptyStore(resolve, resources, policies);
  }

  lemma SeedsTheEmptyStore<S>(resolve: Loaded -> Option<S>, resources: map<R.Key, string>, policies: map<R.Key, string>)
    requires Configured(resources, policies) && DistinctIds(resources) && DistinctIds(policies)
    ensures var empty := Store(map[], map[], map[], 0);
            var store := Store(Inserted(resources), Inserted(policies), map[], 0);
            && View(store) == Loaded(resources, map[], policies)
            && Apply(false, resolve, System(empty, Versioned(0), map[]), Seed(resources, policies))
               == System(store, Seeded(0), map[])
  {
    InitializedView(Store(map[], map[], map[], 0), resources, policies);
  }

  /** No two rows of one id. */
  predicate OnePerId(rows: map<R.Key, string>) {
    forall a, b :: a in rows && b in rows && a != b ==> a.id != b.id
  }

  /**
   A start goes on exactly with resources and policies, and on an empty store with one row per id of both; otherwise the
   process ends and the store is as it was.
   */
  lemma StartsExactlyWhenConfigured<S>(
    serialised: bool, resolve: Loaded -> Option<S>, sys: System<S>, resources: map<R.Key, string>,
    policies: map<R.Key, string>)
    requires sys.service.Versioned?
    ensures var sys' := Apply(serialised, resolve, sys, Seed(resources, policies));
            var starts := resources != map[] && policies != map[]
                          && (Empty(sys.store) ==> OnePerId(resources) && OnePerId(policies));
            && sys'.service == (if starts then Seeded(sys.service.version) else Down)
            && (!starts || !Empty(sys.store) ==> sys'.store == sys.store)
  {
  }

  lemma EmptyExactly(store: Store)
    ensures Empty(store) <==> forall k :: && (k in store.resources ==> !store.resources[k].current)
                                          && (k in store.policies ==> !store.policies[k].current)
  {
    if forall k :: (k in store.resources ==> !store.resources[k].current)
                   && (k in store.policies ==> !store.policies[k].current) {
      assert CurrentRows(store.resources) == map[] && CurrentRows(store.policies) == map[];
    } else {
      var k :| || (k in store.resources && store.resources[k].current)
               || (k in store.policies && store.policies[k].current);
      assert k in CurrentRows(store.resources) || k in CurrentRows(store.policies);
    }
  }

  /** A later start, whatever it is configured with, serves what is stored and leaves the store alone. */
  lemma LaterStartsServeTheStore<S>(
    resolve: Loaded -> Option<S>, store: Store, resources: map<R.Key, string>, policies: map<R.Key, string>)
    requires !Empty(store) && Configured(resources, policies)
    ensures Run(false, resolve, System(store, Down, map[]), StartUp(resources, policies))
         == System(store, if resolve(View(store)).Some? then Up(resolve(View(store)).value, store.version) else Down,
                   map[])
  {
    var sys := System(store, Down, map[]);
    var steps: seq<Step> := [];
    RunOneMore(false, resolve, sys, steps, Boot);
    steps := steps + [Boot];
    RunOneMore(false, resolve, sys, steps, Seed(resources, policies));
    steps := steps + [Seed(resources, policies)];
    assert Run(false, resolve, sys, steps) == System(store, Seeded(store.version), map[]);
    FourBootReads(resolve, sys, steps, System(store, Seeded(store.version), map[]));
    ReadsTheStore(resolve, store);
  }

  lemma FourBootReads<S>(resolve: Loaded -> Option<S>, sys: System<S>, steps: seq<Step>, seeded: System<S>)
    requires Run(false, resolve, sys, steps) == seeded
    ensures Run(false, resolve, sys, steps + [BootRead] + [BootRead] + [BootRead] + [BootRead])
         == DoBootRead(DoBootRead(DoBootRead(DoBootRead(seeded, resolve), resolve), resolve), resolve)
  {
    var read1 := DoBootRead(seeded, resolve);
    var read2 := DoBootRead(read1, resolve);
    var read3 := DoBootRead(read2, resolve);
    OneBootRead(resolve, sys, steps, seeded);
    OneBootRead(resolve, sys, steps + [BootRead], read1);
    OneBootRead(resolve, sys, steps + [BootRead] + [BootRead], read2);
    OneBootRead(resolve, sys, steps + [BootRead] + [BootRead] + [BootRead], read3);
  }

  lemma OneBootRead<S>(resolve: Loaded -> Option<S>, sys: System<S>, steps: seq<Step>, before: System<S>)
    requires Run(false, resolve, sys, steps) == before
    ensures Run(false, resolve, sys, steps + [BootRead]) == DoBootRead(before, resolve)
  {
    RunOneMore(false, resolve, sys, steps, BootRead);
  }

  lemma ReadsTheStore<S>(resolve: Loaded -> Option<S>, store: Store)
    ensures var read1 := DoBootRead(System(store, Seeded(store.version), map[]), resolve);
            var read2 := DoBootRead(read1, resolve);
            var read3 := DoBootRead(read2, resolve);
            DoBootRead(read3, resolve)
            == System(store, if resolve(View(store)).Some? then Up(resolve(View(store)).value, store.version) else Down,
                      map[])
  {
  }

  /**
   The bad schedule happens: for every configuration and every provider connection that makes a difference, it runs
   from the empty store through a first start to a service that announces the durable version with a snapshot that
   is not the durable configuration.
   */
  lemma OverlapIsReachable<S>(
    resolve: Loaded -> Option<S>, resources: map<R.Key, string>, policies: map<R.Key, string>, id: string,
    content: string)
    requires Configured(resources, policies) && DistinctIds(resources) && DistinctIds(policies)
    requires var before := resolve(Loaded(resources, map[], policies));
             var after := resolve(Loaded(resources, map[id := Connection(1, content)], policies));
             before.Some? && after.Some? && before != after
    ensures var write := SaveConnection(id, content, None);
            var last := Run(false, resolve, Fresh<S>(), StartUp(resources, policies) + BadSchedule(write));
            && last.service.Up? && last.service.observed == last.store.version
            && resolve(View(last.store)) != Some(last.service.snapshot)
  {
    var write := SaveConnection(id, content, None);
    StartsCoherent(resolve, resources, policies);
    RunInTwoParts(false, resolve, Fresh<S>(), StartUp(resources, policies), BadSchedule(write));
    var sys := Run(false, resolve, Fresh<S>(), StartUp(resources, policies));
    var saved := Commit(sys.store, write);
    assert saved.connections == map[id := Connection(1, content)];
    assert View(saved) == Loaded(resources, saved.connections, policies);
    OverlapLosesCoherence(resolve, sys, write);
  }
}
