/**
 The permission cache under concurrency, for one tenant: loads query the tables and store their result
 later; writes commit and run their invalidation later, of the whole tenant or of one user. Any number of
 each interleave. A permission set is identified by the number of writes its query saw.
 */
module PermissionCacheRaces {
  import opened Common

  /** A role or permission write concerns the whole tenant, a role assignment one user. */
  datatype Scope = Tenant | User(id: nat)

  /** A committed write and when its invalidation ran. Times count steps. */
  datatype Write = Write(scope: Scope, at: nat, invalidatedAt: Option<nat>)

  predicate Concerns(w: Write, user: nat) { w.scope.Tenant? || w.scope.id == user }

  datatype Load = Load(user: nat, version: nat, queriedAt: nat)

  datatype Entry = Entry(version: nat, queriedAt: nat, storedAt: nat)

  datatype State = State(now: nat, writes: seq<Write>, loads: map<nat, Load>, cache: map<nat, Entry>)

  datatype Step =
    | Query(load: nat, user: nat)   // a cache miss reads the tables
    | Store(load: nat)              // and caches what it read
    | Commit(scope: Scope)          // a write to the tables
    | Invalidate(write: nat)        // and its InvalidateTenant or InvalidateUser
    | Evict(user: nat)

  const INITIAL := State(0, [], map[], map[])

  /** One step; a step that is not enabled only lets time pass. */
  function Apply(s: State, step: Step): State {
    match step
    case Query(l, u) =>
      if l in s.loads || u in s.cache then s else s.(loads := s.loads[l := Load(u, |s.writes|, s.now)])
    case Store(l) =>
      if l !in s.loads then s
      else
        var x := s.loads[l];
        s.(loads := s.loads - {l}, cache := s.cache[x.user := Entry(x.version, x.queriedAt, s.now)])
    case Commit(scope) => s.(writes := s.writes + [Write(scope, s.now, None)])
    case Invalidate(w) =>
      if w >= |s.writes| || s.writes[w].invalidatedAt.Some? then s
      else
        s.(writes := s.writes[w := s.writes[w].(invalidatedAt := Some(s.now))],
           cache := map u | u in s.cache && !Concerns(s.writes[w], u) :: s.cache[u])
    case Evict(u) => s.(cache := s.cache - {u})
  }

  function Next(s: State, step: Step): State { Apply(s, step).(now := s.now + 1) }

  function Exec(s: State, steps: seq<Step>): State {
    if steps == [] then s else Next(Exec(s, steps[..|steps| - 1]), steps[|steps| - 1])
  }

  // ------------------------------------------------------------------
  // The invariant
  // ------------------------------------------------------------------

  /** Writes from `version` on committed after the query and those before it did not. */
  ghost predicate SawAll(writes: seq<Write>, version: nat, queriedAt: nat) {
    && version <= |writes|
    && (forall k :: 0 <= k < version ==> writes[k].at < queriedAt)
    && (forall k :: version <= k < |writes| ==> writes[k].at > queriedAt)
  }

  /** No invalidation that concerns the user since the entry was stored. */
  ghost predicate Untouched(writes: seq<Write>, user: nat, e: Entry) {
    forall k :: 0 <= k < |writes| && Concerns(writes[k], user) && writes[k].invalidatedAt.Some? ==>
      writes[k].invalidatedAt.value < e.storedAt
  }

  ghost predicate WritesOk(writes: seq<Write>, now: nat) {
    forall k :: 0 <= k < |writes| ==>
      writes[k].at < now && (writes[k].invalidatedAt.Some? ==> writes[k].at < writes[k].invalidatedAt.value < now)
  }

  ghost predicate EntryOk(writes: seq<Write>, now: nat, user: nat, e: Entry) {
    SawAll(writes, e.version, e.queriedAt) && Untouched(writes, user, e) && e.queriedAt < e.storedAt < now
  }

  ghost predicate Inv(s: State) {
    && WritesOk(s.writes, s.now)
    && (forall l :: l in s.loads ==>
          s.loads[l].queriedAt < s.now && SawAll(s.writes, s.loads[l].version, s.loads[l].queriedAt))
    && (forall u :: u in s.cache ==> EntryOk(s.writes, s.now, u, s.cache[u]))
  }

  lemma CommitKeeps(s: State, scope: Scope)
    requires Inv(s)
    ensures Inv(Next(s, Commit(scope)))
  {
    var s' := Next(s, Commit(scope));
    forall l | l in s'.loads ensures SawAll(s'.writes, s'.loads[l].version, s'.loads[l].queriedAt) {
      assert SawAll(s.writes, s.loads[l].version, s.loads[l].queriedAt);
    }
    forall u | u in s'.cache ensures EntryOk(s'.writes, s'.now, u, s'.cache[u]) {
      assert EntryOk(s.writes, s.now, u, s.cache[u]);
    }
  }

  lemma InvalidateKeeps(s: State, w: nat)
    requires Inv(s)
    ensures Inv(Next(s, Invalidate(w)))
  {
    var s' := Next(s, Invalidate(w));
    forall l | l in s'.loads ensures SawAll(s'.writes, s'.loads[l].version, s'.loads[l].queriedAt) {
      assert SawAll(s.writes, s.loads[l].version, s.loads[l].queriedAt);
    }
    forall u | u in s'.cache ensures EntryOk(s'.writes, s'.now, u, s'.cache[u]) {
      assert EntryOk(s.writes, s.now, u, s.cache[u]);
    }
  }

  lemma StoreKeeps(s: State, l: nat)
    requires Inv(s)
    ensures Inv(Next(s, Store(l)))
  {
    var s' := Next(s, Store(l));
    forall u | u in s'.cache ensures EntryOk(s'.writes, s'.now, u, s'.cache[u]) {
      if u in s.cache && s'.cache[u] == s.cache[u] {
        assert EntryOk(s.writes, s.now, u, s.cache[u]);
      }
    }
  }

  lemma NextKeeps(s: State, step: Step)
    requires Inv(s)
    ensures Inv(Next(s, step))
  {
    match step
    case Query(_, _) =>
    case Store(l) => StoreKeeps(s, l);
    case Commit(scope) => CommitKeeps(s, scope);
    case Invalidate(w) => InvalidateKeeps(s, w);
    case Evict(_) =>
  }

  lemma {:induction false} InvHolds(steps: seq<Step>)
    ensures Inv(Exec(INITIAL, steps))
    decreases |steps|
  {
    if steps != [] {
      InvHolds(steps[..|steps| - 1]);
      NextKeeps(Exec(INITIAL, steps[..|steps| - 1]), steps[|steps| - 1]);
    }
  }

  /** An invalidation drops every entry of the tenant or one user's, as its write's scope says, and only once. */
  lemma InvalidateDropsExactly(s: State, w: nat, u: nat)
    requires w < |s.writes|
    ensures u in Next(s, Invalidate(w)).cache <==>
              && u in s.cache
              && !(s.writes[w].invalidatedAt.None? && (s.writes[w].scope == Tenant || s.writes[w].scope == User(u)))
  {
  }

  // ------------------------------------------------------------------
  // When an entry is stale
  // ------------------------------------------------------------------

  /** The user's entry misses a committed write that concerns the user. */
  ghost predicate Stale(s: State, user: nat, e: Entry) {
    exists k :: e.version <= k < |s.writes| && Concerns(s.writes[k], user)
  }

  /** Every write that concerns the user has run its invalidation. */
  ghost predicate Settled(s: State, user: nat) {
    forall k :: 0 <= k < |s.writes| && Concerns(s.writes[k], user) ==> s.writes[k].invalidatedAt.Some?
  }

  /** A write that concerns the user committed between the entry's query and its store. */
  ghost predicate Overlapped(s: State, user: nat, e: Entry) {
    exists k :: 0 <= k < |s.writes| && Concerns(s.writes[k], user) && e.queriedAt < s.writes[k].at < e.storedAt
  }

  /**
   In every run, once all invalidations that concern a user have run, the user's cached entry is stale if and
   only if some write that concerns the user committed between its load's query and its store.
   */
  lemma StaleIffOverlapped(steps: seq<Step>, u: nat)
    requires u in Exec(INITIAL, steps).cache && Settled(Exec(INITIAL, steps), u)
    ensures var s := Exec(INITIAL, steps); Stale(s, u, s.cache[u]) <==> Overlapped(s, u, s.cache[u])
  {
    InvHolds(steps);
    var s := Exec(INITIAL, steps);
    var e := s.cache[u];
    assert EntryOk(s.writes, s.now, u, e);
    if Stale(s, u, e) {
      var k :| e.version <= k < |s.writes| && Concerns(s.writes[k], u);
      assert e.queriedAt < s.writes[k].at < e.storedAt;
    }
  }

  /** While invalidations are still to run, an entry may also miss just the writes they belong to. */
  lemma FreshUnlessOverlappedOrPending(steps: seq<Step>, u: nat)
    requires u in Exec(INITIAL, steps).cache && !Overlapped(Exec(INITIAL, steps), u, Exec(INITIAL, steps).cache[u])
    ensures var s := Exec(INITIAL, steps);
            forall k :: s.cache[u].version <= k < |s.writes| && Concerns(s.writes[k], u) ==>
              s.writes[k].invalidatedAt.None?
  {
    InvHolds(steps);
    var s := Exec(INITIAL, steps);
    assert EntryOk(s.writes, s.now, u, s.cache[u]);
  }

  /** The race, literally: query, write, invalidate, store, whether the write concerns the tenant or the user. */
  lemma OverlappingLoadStaysStale(scope: Scope)
    requires scope.Tenant? || scope.id == 7
    ensures var s := Exec(INITIAL, [Query(0, 7), Commit(scope), Invalidate(0), Store(0)]);
            Settled(s, 7) && 7 in s.cache && Stale(s, 7, s.cache[7])
  {
    var run := [Query(0, 7), Commit(scope), Invalidate(0), Store(0)];
    var s1 := Next(INITIAL, Query(0, 7));
    var s2 := Next(s1, Commit(scope));
    var s3 := Next(s2, Invalidate(0));
    assert run[..3] == [Query(0, 7), Commit(scope), Invalidate(0)] && run[..3][..2] == [Query(0, 7), Commit(scope)];
    assert run[..3][..2][..1] == [Query(0, 7)] && run[..3][..2][..1][..0] == [];
    assert Exec(INITIAL, run[..3][..2][..1]) == s1;
    assert Exec(INITIAL, run[..3][..2]) == s2;
    assert Exec(INITIAL, run[..3]) == s3;
    var s4 := Next(s3, Store(0));
    assert Exec(INITIAL, run) == s4;
    assert s4.cache[7].version <= 0 < |s4.writes| && Concerns(s4.writes[0], 7);
  }
}
