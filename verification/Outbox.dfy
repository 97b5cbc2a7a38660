/**
 The transactional outbox. Any number of DrainBatch calls run concurrently, each tenant in its own
 transaction: claim undelivered rows nobody else has locked, deliver them, mark them, commit.
 Deliveries, marks and commits may fail, a commit's acknowledgement may be lost, and a worker may
 die anywhere. A step that is not enabled changes nothing, so every sequence of steps is a run.
 */
module Outbox {

  type Id = nat
  type Tenant = nat
  const NIL_TENANT: Tenant := 0
  const DEFAULT_LIMIT := 100

  datatype Event = Event(tenant: Tenant, createdAt: nat, delivered: bool)

  type Table = map<Id, Event>

  datatype Phase =
    | Ready                                 // between tenants
    | Claimed                               // rows selected and locked
    | Sent                                  // deliver returned nil
    | Marked                                // delivered_at set, not committed
    | Returned(n: nat, failed: bool)
    | Died

  /**
   One DrainBatch call: `tenants` are the ones still to visit, `total` its running count. `marked` and
   `unacknowledged` are history: the events its transactions marked delivered, and how many of them
   belong to a commit whose acknowledgement was lost.
   */
  datatype Worker = Worker(limit: nat, tenants: seq<Tenant>, total: nat, phase: Phase, batch: set<Id>,
                           marked: set<Id>, unacknowledged: nat)

  /** `sent` and `wasted` count, per event, successful deliveries and those whose transaction then aborted. */
  datatype State = State(events: Table, locks: map<Id, nat>, workers: map<nat, Worker>, sent: multiset<Id>,
                         wasted: multiset<Id>)

  datatype Step =
    | Emit(id: Id, tenant: Tenant, createdAt: nat)
    | Start(w: nat, limit: int, tenants: seq<Tenant>)
    | Claim(w: nat, batch: set<Id>)
    | SelectFails(w: nat)
    | Deliver(w: nat, ok: bool)
    | Mark(w: nat, ok: bool)
    | Commit(w: nat, ok: bool)
    | CommitUnacknowledged(w: nat)
    | Finish(w: nat)
    | Die(w: nat)

  // ------------------------------------------------------------------
  // Skip-locked selection
  // ------------------------------------------------------------------

  predicate Eligible(events: Table, locked: set<Id>, t: Tenant, e: Id) {
    e in events && events[e].tenant == t && !events[e].delivered && e !in locked
  }

  /** The oldest eligible rows, as many as `n` allows. */
  ghost predicate IsBatch(events: Table, locked: set<Id>, t: Tenant, n: nat, batch: set<Id>) {
    && |batch| <= n
    && (forall e :: e in batch ==> Eligible(events, locked, t, e))
    && (forall e :: Eligible(events, locked, t, e) && e !in batch ==>
          |batch| == n && forall b :: b in batch ==> events[b].createdAt <= events[e].createdAt)
  }

  function MarkDelivered(events: Table, batch: set<Id>): Table {
    map e | e in events :: if e in batch then events[e].(delivered := true) else events[e]
  }

  function EffectiveLimit(limit: int): nat { if limit <= 0 then DEFAULT_LIMIT else limit }

  // ------------------------------------------------------------------
  // Steps
  // ------------------------------------------------------------------

  predicate Busy(p: Phase) { p.Claimed? || p.Sent? || p.Marked? }

  predicate WasSent(p: Phase) { p.Sent? || p.Marked? }

  function Initial(): State { State(map[], map[], map[], multiset{}, multiset{}) }

  ghost predicate Enabled(s: State, st: Step) {
    match st
    case Emit(id, t, _) => id !in s.events && t != NIL_TENANT
    case Start(w, _, _) => w !in s.workers
    case Claim(w, batch) =>
      && w in s.workers && s.workers[w].phase.Ready? && s.workers[w].tenants != []
      && s.workers[w].total < s.workers[w].limit
      && IsBatch(s.events, s.locks.Keys, s.workers[w].tenants[0], s.workers[w].limit - s.workers[w].total, batch)
    case SelectFails(w) => w in s.workers && s.workers[w].phase.Ready? && s.workers[w].tenants != []
    case Deliver(w, _) => w in s.workers && s.workers[w].phase.Claimed?
    case Mark(w, _) => w in s.workers && s.workers[w].phase.Sent?
    case Commit(w, _) => w in s.workers && s.workers[w].phase.Marked?
    case CommitUnacknowledged(w) => w in s.workers && s.workers[w].phase.Marked?
    case Finish(w) =>
      && w in s.workers && s.workers[w].phase.Ready?
      && (s.workers[w].tenants == [] || s.workers[w].total >= s.workers[w].limit)
    case Die(w) => w in s.workers && !s.workers[w].phase.Returned? && !s.workers[w].phase.Died?
  }

  function With(s: State, w: nat, k: Worker): State { s.(workers := s.workers[w := k]) }

  /** The rows of `batch` are locked and held by the worker. */
  function Take(s: State, w: nat, batch: set<Id>): State
    requires w in s.workers
  {
    With(s, w, s.workers[w].(phase := Claimed, batch := batch)).(locks := s.locks + map e | e in batch :: w)
  }

  /** Rollback: the worker's rows unlock; deliveries already made count as wasted. */
  function Abort(s: State, w: nat, p: Phase): State
    requires w in s.workers
  {
    var k := s.workers[w];
    With(s, w, k.(phase := p, batch := {})).(
      locks := s.locks - k.batch,
      wasted := s.wasted + (if WasSent(k.phase) then multiset(k.batch) else multiset{}))
  }

  /** Commit: the worker's rows are delivered and unlock. */
  function Settle(s: State, w: nat, k': Worker): State
    requires w in s.workers
  {
    var batch := s.workers[w].batch;
    With(s, w, k').(events := MarkDelivered(s.events, batch), locks := s.locks - batch)
  }

  /** The worker after a commit whose acknowledgement arrived, and after one whose acknowledgement was lost. */
  function Acknowledged(k: Worker): Worker
    requires k.tenants != []
  {
    k.(phase := Ready, batch := {}, tenants := k.tenants[1..], total := k.total + |k.batch|,
       marked := k.marked + k.batch)
  }

  function Unacknowledged(k: Worker): Worker {
    k.(phase := Returned(k.total, true), batch := {}, marked := k.marked + k.batch, unacknowledged := |k.batch|)
  }

  function Apply(s: State, st: Step): State
    requires Enabled(s, st)
  {
    match st
    case Emit(id, t, at) => s.(events := s.events[id := Event(t, at, false)])
    case Start(w, limit, tenants) =>
      With(s, w, Worker(EffectiveLimit(limit), tenants, 0, Ready, {}, {}, 0))
    case Claim(w, batch) =>
      var k := s.workers[w];
      if batch == {} then With(s, w, k.(tenants := k.tenants[1..]))
      else Take(s, w, batch)
    case SelectFails(w) => With(s, w, s.workers[w].(phase := Returned(s.workers[w].total, true)))
    case Deliver(w, ok) =>
      if ok then With(s, w, s.workers[w].(phase := Sent)).(sent := s.sent + multiset(s.workers[w].batch))
      else Abort(s, w, Returned(s.workers[w].total, true))
    case Mark(w, ok) =>
      if ok then With(s, w, s.workers[w].(phase := Marked))
      else Abort(s, w, Returned(s.workers[w].total, true))
    case Commit(w, ok) =>
      var k := s.workers[w];
      if ok && k.tenants != [] then Settle(s, w, Acknowledged(k))
      else Abort(s, w, Returned(k.total, true))
    case CommitUnacknowledged(w) =>
      Settle(s, w, Unacknowledged(s.workers[w]))
    case Finish(w) => With(s, w, s.workers[w].(phase := Returned(s.workers[w].total, false)))
    case Die(w) => Abort(s, w, Died)
  }

  ghost function Next(s: State, st: Step): State {
    if Enabled(s, st) then Apply(s, st) else s
  }

  ghost function Exec(s: State, steps: seq<Step>): State
    decreases |steps|
  {
    if steps == [] then s else Exec(Next(s, steps[0]), steps[1..])
  }

  // ------------------------------------------------------------------
  // Invariant
  // ------------------------------------------------------------------

  /** Locks and batches agree: a lock names the one busy worker whose batch holds the row. */
  ghost predicate LocksMatch(locks: map<Id, nat>, workers: map<nat, Worker>) {
    && (forall e :: e in locks ==> locks[e] in workers && e in workers[locks[e]].batch)
    && (forall w, e :: w in workers && e in workers[w].batch ==> e in locks && locks[e] == w)
    && (forall w :: w in workers && !Busy(workers[w].phase) ==> workers[w].batch == {})
  }

  ghost predicate LockedPending(locks: map<Id, nat>, events: Table) {
    forall e :: e in locks ==> e in events && !events[e].delivered
  }

  ghost predicate WorkerOk(k: Worker) {
    && k.total + |k.batch| <= k.limit
    && |k.marked| == k.total + k.unacknowledged
    && (Busy(k.phase) ==> k.tenants != [])
    && (k.unacknowledged > 0 ==> k.phase.Returned? && k.phase.failed)
    && (k.phase.Returned? ==> k.phase.n == k.total)
  }

  /** Is the event in flight after a successful delivery? */
  predicate InFlight(s: State, e: Id) {
    e in s.locks && s.locks[e] in s.workers && WasSent(s.workers[s.locks[e]].phase)
  }

  predicate IsDelivered(s: State, e: Id) { e in s.events && s.events[e].delivered }

  function One(b: bool): nat { if b then 1 else 0 }

  ghost predicate Accounted(s: State, e: Id) {
    s.sent[e] == One(IsDelivered(s, e)) + s.wasted[e] + One(InFlight(s, e))
  }

  /** The workers' marked sets are disjoint and together are exactly the delivered events. */
  ghost predicate MarksMatch(events: Table, workers: map<nat, Worker>) {
    && (forall w, e :: w in workers && e in workers[w].marked ==> e in events && events[e].delivered)
    && (forall e :: e in events && events[e].delivered ==> exists w :: w in workers && e in workers[w].marked)
    && (forall v, w, e :: v in workers && w in workers && e in workers[v].marked && e in workers[w].marked ==> v == w)
  }

  ghost predicate Inv(s: State) {
    && MarksMatch(s.events, s.workers)
    && LocksMatch(s.locks, s.workers)
    && LockedPending(s.locks, s.events)
    && (forall w :: w in s.workers ==> WorkerOk(s.workers[w]))
    && (forall e :: Accounted(s, e))
  }

  // ---- a worker moves, rows and locks stay ---------------------------

  lemma SameMarks(events: Table, workers: map<nat, Worker>, w: nat, k: Worker)
    requires MarksMatch(events, workers) && k.marked == if w in workers then workers[w].marked else {}
    ensures MarksMatch(events, workers[w := k])
  {
    var workers' := workers[w := k];
    forall e | e in events && events[e].delivered ensures exists v :: v in workers' && e in workers'[v].marked {
      var v :| v in workers && e in workers[v].marked;
      assert e in workers'[v].marked;
    }
  }

  lemma SameHolds(locks: map<Id, nat>, workers: map<nat, Worker>, w: nat, k: Worker)
    requires LocksMatch(locks, workers) && k.batch == (if w in workers then workers[w].batch else {})
    requires !Busy(k.phase) ==> k.batch == {}
    ensures LocksMatch(locks, workers[w := k])
  {
  }

  /** A batch of pending rows marked delivered goes to the worker that held it. */
  lemma SettleKeepsMarks(events: Table, workers: map<nat, Worker>, w: nat, k: Worker, batch: set<Id>)
    requires MarksMatch(events, workers) && w in workers && k.marked == workers[w].marked + batch
    requires forall e :: e in batch ==> e in events && !events[e].delivered
    ensures MarksMatch(MarkDelivered(events, batch), workers[w := k])
  {
    var events', workers' := MarkDelivered(events, batch), workers[w := k];
    forall e | e in events' && events'[e].delivered ensures exists v :: v in workers' && e in workers'[v].marked {
      if e in batch {
        assert e in workers'[w].marked;
      } else {
        var v :| v in workers && e in workers[v].marked;
        assert e in workers'[v].marked;
      }
    }
  }

  lemma MoveKeepsInv(s: State, w: nat, k: Worker)
    requires Inv(s) && WorkerOk(k)
    requires w in s.workers ==>
               k.batch == s.workers[w].batch && k.marked == s.workers[w].marked
                   && WasSent(k.phase) == WasSent(s.workers[w].phase)
    requires w !in s.workers ==> k.batch == {} && k.marked == {} && !WasSent(k.phase)
    requires !Busy(k.phase) ==> k.batch == {}
    ensures Inv(With(s, w, k))
  {
    var s' := With(s, w, k);
    SameHolds(s.locks, s.workers, w, k);
    SameMarks(s.events, s.workers, w, k);
    forall e ensures Accounted(s', e) {
      assert Accounted(s, e);
    }
  }

  lemma EmitKeepsInv(s: State, st: Step)
    requires Inv(s) && st.Emit? && Enabled(s, st)
    ensures Inv(Apply(s, st))
  {
    var s' := Apply(s, st);
    forall e ensures Accounted(s', e) {
      assert Accounted(s, e);
    }
  }

  lemma ClaimKeepsLocks(locks: map<Id, nat>, workers: map<nat, Worker>, w: nat, k': Worker)
    requires LocksMatch(locks, workers) && w in workers && workers[w].batch == {} && Busy(k'.phase)
    requires forall e :: e in k'.batch ==> e !in locks
    ensures LocksMatch(locks + (map e | e in k'.batch :: w), workers[w := k'])
  {
  }

  lemma TakeKeepsCount(s: State, w: nat, batch: set<Id>, e: Id)
    requires Inv(s) && w in s.workers && !Busy(s.workers[w].phase) && forall x :: x in batch ==> x !in s.locks
    ensures Accounted(Take(s, w, batch), e)
  {
    assert Accounted(s, e);
  }

  lemma TakeKeepsInv(s: State, w: nat, batch: set<Id>)
    requires Inv(s) && w in s.workers && s.workers[w].phase.Ready? && s.workers[w].tenants != []
    requires s.workers[w].total + |batch| <= s.workers[w].limit && forall e :: e in batch ==> e !in s.locks
    requires LockedPending(s.locks + (map e | e in batch :: w), s.events)
    ensures Inv(Take(s, w, batch))
  {
    var k := s.workers[w];
    var k' := k.(phase := Claimed, batch := batch);
    assert WorkerOk(k) && k.batch == {};
    ClaimKeepsLocks(s.locks, s.workers, w, k');
    SameMarks(s.events, s.workers, w, k');
    forall e ensures Accounted(Take(s, w, batch), e) {
      TakeKeepsCount(s, w, batch, e);
    }
  }

  lemma ClaimedIsPending(events: Table, locks: map<Id, nat>, t: Tenant, n: nat, batch: set<Id>, w: nat)
    requires LockedPending(locks, events) && IsBatch(events, locks.Keys, t, n, batch)
    ensures LockedPending(locks + (map e | e in batch :: w), events)
    ensures forall e :: e in batch ==> e !in locks
  {
    forall e | e in batch ensures e !in locks && e in events && !events[e].delivered {
      assert Eligible(events, locks.Keys, t, e);
    }
  }

  lemma ClaimKeepsInv(s: State, w: nat, batch: set<Id>)
    requires Inv(s) && Enabled(s, Claim(w, batch)) && batch != {}
    ensures Inv(Apply(s, Claim(w, batch)))
  {
    var k := s.workers[w];
    ClaimedIsPending(s.events, s.locks, k.tenants[0], k.limit - k.total, batch, w);
    TakeKeepsInv(s, w, batch);
  }

  lemma DeliverKeepsInv(s: State, w: nat)
    requires Inv(s) && Enabled(s, Deliver(w, true))
    ensures Inv(Apply(s, Deliver(w, true)))
  {
    var s' := Apply(s, Deliver(w, true));
    SameHolds(s.locks, s.workers, w, s'.workers[w]);
    SameMarks(s.events, s.workers, w, s'.workers[w]);
    forall e ensures Accounted(s', e) {
      assert Accounted(s, e);
      assert e in s.workers[w].batch <==> e in s.locks && s.locks[e] == w;
    }
  }

  // ---- a transaction ends --------------------------------------------

  lemma ReleaseKeepsLocks(s: State, w: nat, k: Worker)
    requires LocksMatch(s.locks, s.workers) && w in s.workers && k.batch == {}
    ensures LocksMatch(s.locks - s.workers[w].batch, s.workers[w := k])
  {
    var locks', workers' := s.locks - s.workers[w].batch, s.workers[w := k];
    forall e | e in locks' ensures locks'[e] in workers' && e in workers'[locks'[e]].batch {
      assert e in s.locks && e in s.workers[s.locks[e]].batch;
    }
    forall v, e | v in workers' && e in workers'[v].batch ensures e in locks' && locks'[e] == v {
      assert v != w && e in s.workers[v].batch;
      assert s.locks[e] == v;
    }
  }

  lemma AbortKeepsInv(s: State, w: nat, p: Phase)
    requires Inv(s) && w in s.workers && !Busy(p)
    requires s.workers[w].unacknowledged == 0
    requires p.Returned? ==> p.n == s.workers[w].total && p.failed
    ensures Inv(Abort(s, w, p))
  {
    var s', k := Abort(s, w, p), s.workers[w];
    ReleaseKeepsLocks(s, w, k.(phase := p, batch := {}));
    SameMarks(s.events, s.workers, w, k.(phase := p, batch := {}));
    forall e ensures Accounted(s', e) {
      assert Accounted(s, e);
      assert e in k.batch <==> e in s.locks && s.locks[e] == w;
    }
  }

  lemma SettleKeepsInv(s: State, w: nat, k': Worker)
    requires Inv(s) && w in s.workers && s.workers[w].phase.Marked?
    requires k'.batch == {} && !Busy(k'.phase) && WorkerOk(k') && k'.marked == s.workers[w].marked + s.workers[w].batch
    ensures Inv(Settle(s, w, k'))
  {
    var s', k := Settle(s, w, k'), s.workers[w];
    ReleaseKeepsLocks(s, w, k');
    SettleKeepsMarks(s.events, s.workers, w, k', k.batch);
    forall e ensures Accounted(s', e) {
      assert Accounted(s, e);
      assert e in k.batch <==> e in s.locks && s.locks[e] == w;
    }
  }

  lemma QuietStepKeepsInv(s: State, st: Step)
    requires Inv(s) && Enabled(s, st)
    requires st.Start? || st.SelectFails? || st.Finish? || (st.Claim? && st.batch == {}) || (st.Mark? && st.ok)
    ensures Inv(Apply(s, st))
  {
    match st
    case Start(w, limit, tenants) => MoveKeepsInv(s, w, Worker(EffectiveLimit(limit), tenants, 0, Ready, {}, {}, 0));
    case Claim(w, batch) => MoveKeepsInv(s, w, s.workers[w].(tenants := s.workers[w].tenants[1..]));
    case SelectFails(w) => MoveKeepsInv(s, w, s.workers[w].(phase := Returned(s.workers[w].total, true)));
    case Mark(w, ok) => MoveKeepsInv(s, w, s.workers[w].(phase := Marked));
    case Finish(w) => MoveKeepsInv(s, w, s.workers[w].(phase := Returned(s.workers[w].total, false)));
  }

  lemma CommittedWorkerOk(k: Worker)
    requires WorkerOk(k) && k.phase.Marked? && k.marked !! k.batch
    ensures WorkerOk(Acknowledged(k)) && WorkerOk(Unacknowledged(k))
  {
    assert |k.marked + k.batch| == |k.marked| + |k.batch|;
  }

  /** What a worker holds is pending, what it marked is not. */
  lemma HeldIsUnmarked(s: State, w: nat)
    requires Inv(s) && w in s.workers
    ensures s.workers[w].marked !! s.workers[w].batch
  {
    forall e | e in s.workers[w].batch ensures e !in s.workers[w].marked {
      assert e in s.locks;
    }
  }

  lemma CommitKeepsInv(s: State, w: nat)
    requires Inv(s) && Enabled(s, Commit(w, true))
    ensures Inv(Apply(s, Commit(w, true)))
  {
    var k := s.workers[w];
    HeldIsUnmarked(s, w);
    CommittedWorkerOk(k);
    SettleKeepsInv(s, w, Acknowledged(k));
    assert Apply(s, Commit(w, true)) == Settle(s, w, Acknowledged(k));
  }

  lemma LostCommitKeepsInv(s: State, w: nat)
    requires Inv(s) && Enabled(s, CommitUnacknowledged(w))
    ensures Inv(Apply(s, CommitUnacknowledged(w)))
  {
    var k := s.workers[w];
    HeldIsUnmarked(s, w);
    CommittedWorkerOk(k);
    SettleKeepsInv(s, w, Unacknowledged(k));
    assert Apply(s, CommitUnacknowledged(w)) == Settle(s, w, Unacknowledged(k));
  }

  lemma FailureKeepsInv(s: State, st: Step)
    requires Inv(s) && Enabled(s, st)
    requires st.Die? || ((st.Deliver? || st.Mark? || st.Commit?) && !st.ok)
    ensures Inv(Apply(s, st))
  {
    var k := s.workers[st.w];
    assert WorkerOk(k);
    AbortKeepsInv(s, st.w, if st.Die? then Died else Returned(k.total, true));
  }

  lemma StepKeepsInv(s: State, st: Step)
    requires Inv(s)
    ensures Inv(Next(s, st))
  {
    if Enabled(s, st) {
      if st.Emit? {
        EmitKeepsInv(s, st);
      } else if st.Start? || st.SelectFails? || st.Finish? || (st.Claim? && st.batch == {}) || (st.Mark? && st.ok) {
        QuietStepKeepsInv(s, st);
      } else if st.Claim? {
        ClaimKeepsInv(s, st.w, st.batch);
      } else if st.Deliver? && st.ok {
        DeliverKeepsInv(s, st.w);
      } else if st.Commit? && st.ok {
        CommitKeepsInv(s, st.w);
      } else if st.CommitUnacknowledged? {
        LostCommitKeepsInv(s, st.w);
      } else {
        FailureKeepsInv(s, st);
      }
    }
  }

  lemma {:induction false} InvHolds(s: State, steps: seq<Step>)
    requires Inv(s)
    ensures Inv(Exec(s, steps))
    decreases |steps|
  {
    if steps != [] {
      StepKeepsInv(s, steps[0]);
      InvHolds(Next(s, steps[0]), steps[1..]);
    }
  }

  // ------------------------------------------------------------------
  // Results over every run
  // ------------------------------------------------------------------

  /**
   Exact accounting: an event's successful deliveries are one if it is marked delivered, plus one per
   transaction that aborted after delivering it, plus one while such a transaction is open.
   */
  lemma DeliveriesAreAccounted(steps: seq<Step>, e: Id)
    ensures var s := Exec(Initial(), steps);
            s.sent[e] == One(IsDelivered(s, e)) + s.wasted[e] + One(InFlight(s, e))
  {
    InvHolds(Initial(), steps);
    assert Accounted(Exec(Initial(), steps), e);
  }

  /** No row is held by two workers, and no worker holds a delivered row. */
  lemma RowsAreHeldOnce(steps: seq<Step>, v: nat, w: nat)
    requires var s := Exec(Initial(), steps); v in s.workers && w in s.workers && v != w
    ensures var s := Exec(Initial(), steps);
            && s.workers[v].batch !! s.workers[w].batch
            && forall e :: e in s.workers[w].batch ==> e in s.events && !s.events[e].delivered
  {
    InvHolds(Initial(), steps);
    var s := Exec(Initial(), steps);
    HeldOnce(s.events, s.locks, s.workers, v, w);
  }

  lemma HeldOnce(events: Table, locks: map<Id, nat>, workers: map<nat, Worker>, v: nat, w: nat)
    requires LocksMatch(locks, workers) && LockedPending(locks, events) && v in workers && w in workers && v != w
    ensures workers[v].batch !! workers[w].batch
    ensures forall e :: e in workers[w].batch ==> e in events && !events[e].delivered
  {
    forall e | e in workers[v].batch ensures e !in workers[w].batch {
      assert locks[e] == v;
    }
  }

  /** Over every run, the events the calls marked are disjoint and together are exactly the delivered ones. */
  lemma MarksPartitionDelivered(steps: seq<Step>)
    ensures MarksMatch(Exec(Initial(), steps).events, Exec(Initial(), steps).workers)
  {
    InvHolds(Initial(), steps);
  }

  /**
   The count a call reports is the number of events it marked delivered in the table, within its limit,
   also when it stopped at a failing tenant; only a lost commit acknowledgement makes it report less.
   */
  lemma ReportedCountIsMarkedCount(steps: seq<Step>, w: nat)
    requires var s := Exec(Initial(), steps); w in s.workers && s.workers[w].phase.Returned?
    ensures var s := Exec(Initial(), steps);
            var k := s.workers[w];
            && k.phase.n <= k.limit
            && |k.marked| == k.phase.n + k.unacknowledged
            && (!k.phase.failed ==> k.phase.n == |k.marked|)
            && (forall e :: e in k.marked ==> e in s.events && s.events[e].delivered)
  {
    InvHolds(Initial(), steps);
    assert WorkerOk(Exec(Initial(), steps).workers[w]);
  }

  /** No committed event is lost or un-delivered: its row stays, and delivery is final. */
  lemma {:induction false} EventsAreNeverLost(s: State, steps: seq<Step>, e: Id)
    requires e in s.events
    ensures var s' := Exec(s, steps);
            && e in s'.events
            && s'.events[e] == s.events[e].(delivered := s'.events[e].delivered)
            && (s.events[e].delivered ==> s'.events[e].delivered)
    decreases |steps|
  {
    if steps != [] {
      var s1 := Next(s, steps[0]);
      assert e in s1.events && s1.events[e] == s.events[e].(delivered := s1.events[e].delivered)
             && (s.events[e].delivered ==> s1.events[e].delivered);
      EventsAreNeverLost(s1, steps[1..], e);
    }
  }

  /**
   An undelivered event is always within reach: either some live worker holds it, or the next claim
   on its tenant takes it or fills up with events at least as old.
   */
  lemma PendingIsHeldOrNext(steps: seq<Step>, e: Id, n: nat, batch: set<Id>)
    requires var s := Exec(Initial(), steps);
             && e in s.events && !s.events[e].delivered
             && IsBatch(s.events, s.locks.Keys, s.events[e].tenant, n, batch)
    ensures var s := Exec(Initial(), steps);
            || (exists w :: w in s.workers && Busy(s.workers[w].phase) && e in s.workers[w].batch)
            || e in batch
            || (|batch| == n && forall b :: b in batch ==> s.events[b].createdAt <= s.events[e].createdAt)
  {
    InvHolds(Initial(), steps);
    var s := Exec(Initial(), steps);
    if e in s.locks {
      assert Busy(s.workers[s.locks[e]].phase) && e in s.workers[s.locks[e]].batch;
    } else {
      assert Eligible(s.events, s.locks.Keys, s.events[e].tenant, e);
    }
  }

  /** One call over one tenant that nothing interrupts, with these rows to drain. */
  function Drain(w: nat, limit: int, t: Tenant, batch: set<Id>): seq<Step> {
    [Start(w, limit, [t]), Claim(w, batch), Deliver(w, true), Mark(w, true), Commit(w, true), Finish(w)]
  }

  /**
   It hands each of its rows to deliver once, marks exactly those, leaves the locks as they were and reports
   their number; they are the oldest deliverable rows of the tenant, 100 of them at most when no limit is given.
   */
  lemma UndisturbedDrain(s: State, w: nat, limit: int, t: Tenant, batch: set<Id>)
    requires w !in s.workers && batch != {}
    requires IsBatch(s.events, s.locks.Keys, t, if limit <= 0 then 100 else limit, batch)
    ensures var s' := Exec(s, Drain(w, limit, t, batch));
            && s'.events.Keys == s.events.Keys && s'.locks == s.locks
            && (forall e :: e in s.events ==>
                  s'.events[e] == if e in batch then s.events[e].(delivered := true) else s.events[e])
            && s'.sent == s.sent + multiset(batch) && s'.wasted == s.wasted
            && w in s'.workers && s'.workers[w].phase == Returned(|batch|, false)
  {
    var limit' := if limit <= 0 then 100 else limit;
    var k := Worker(limit', [t], 0, Claimed, batch, {}, 0);
    var s2 := Holding(s, w, k);
    DrainClaims(s, w, limit, t, batch);
    DrainSends(s2, w, k);
    var k4 := k.(phase := Marked);
    DrainCommits(With(s2, w, k4).(sent := s.sent + multiset(batch)), w, k4);
    forall e | e in batch ensures e !in s.locks {
      assert Eligible(s.events, s.locks.Keys, t, e);
    }
    assert s2.locks - batch == s.locks;
    DrainSteps(s, Start(w, limit, [t]), Claim(w, batch), Deliver(w, true), Mark(w, true), Commit(w, true), Finish(w));
  }

  lemma DrainSteps(s: State, a: Step, b: Step, c: Step, d: Step, e: Step, f: Step)
    ensures Exec(s, [a, b, c, d, e, f]) == Next(Next(Next(Next(Next(Next(s, a), b), c), d), e), f)
  {
    var s1 := Next(s, a);
    var s2 := Next(s1, b);
    var s3 := Next(s2, c);
    var s4 := Next(s3, d);
    var s5 := Next(s4, e);
    var s6 := Next(s5, f);
    calc {
      Exec(s, [a, b, c, d, e, f]);
      Exec(s1, [b, c, d, e, f]);
      Exec(s2, [c, d, e, f]);
      Exec(s3, [d, e, f]);
      Exec(s4, [e, f]);
      Exec(s5, [f]);
      Exec(s6, []);
    }
  }

  /** `s` with one more worker and its batch locked. */
  function Holding(s: State, w: nat, k: Worker): State {
    With(s, w, k).(locks := s.locks + map e | e in k.batch :: w)
  }

  lemma DrainClaims(s: State, w: nat, limit: int, t: Tenant, batch: set<Id>)
    requires w !in s.workers && batch != {}
    requires IsBatch(s.events, s.locks.Keys, t, if limit <= 0 then 100 else limit, batch)
    ensures Next(Next(s, Start(w, limit, [t])), Claim(w, batch))
         == Holding(s, w, Worker(if limit <= 0 then 100 else limit, [t], 0, Claimed, batch, {}, 0))
  {
    var limit' := if limit <= 0 then 100 else limit;
    var s1 := Next(s, Start(w, limit, [t]));
    assert s1 == With(s, w, Worker(limit', [t], 0, Ready, {}, {}, 0));
    assert Enabled(s1, Claim(w, batch));
  }

  lemma DrainSends(s: State, w: nat, k: Worker)
    requires w in s.workers && s.workers[w] == k && k.phase.Claimed?
    ensures Next(Next(s, Deliver(w, true)), Mark(w, true))
         == With(s, w, k.(phase := Marked)).(sent := s.sent + multiset(k.batch))
  {
  }

  lemma DrainCommits(s: State, w: nat, k: Worker)
    requires w in s.workers && s.workers[w] == k && k.phase.Marked? && |k.tenants| == 1
    ensures var s' := Next(Next(s, Commit(w, true)), Finish(w));
            && s'.events == MarkDelivered(s.events, k.batch) && s'.locks == s.locks - k.batch
            && s'.sent == s.sent && s'.wasted == s.wasted
            && w in s'.workers && s'.workers[w].phase == Returned(k.total + |k.batch|, false)
  {
    var s1 := Next(s, Commit(w, true));
    assert s1 == Settle(s, w, Acknowledged(k));
    assert s1.workers[w].tenants == [];
  }

  // ------------------------------------------------------------------
  // One call, uninterrupted
  // ------------------------------------------------------------------

  ghost function EligibleSet(events: Table, locked: set<Id>, t: Tenant): set<Id> {
    set e | e in events && Eligible(events, locked, t, e)
  }

  /** Everything a call over `tenants` could deliver. */
  ghost function Pending(events: Table, locked: set<Id>, tenants: seq<Tenant>): set<Id> {
    set e | e in events && events[e].tenant in tenants && !events[e].delivered && e !in locked
  }

  lemma {:induction false} OldestExists(events: Table, s: set<Id>)
    requires s != {} && s <= events.Keys
    ensures exists e :: e in s && forall x :: x in s ==> events[e].createdAt <= events[x].createdAt
    decreases |s|
  {
    var a :| a in s;
    var rest := s - {a};
    if rest == {} {
      assert s == {a};
    } else {
      OldestExists(events, rest);
      var b :| b in rest && forall x :: x in rest ==> events[b].createdAt <= events[x].createdAt;
      var e := if events[a].createdAt <= events[b].createdAt then a else b;
      assert e in s;
      forall x | x in s ensures events[e].createdAt <= events[x].createdAt {
        assert x == a || x in rest;
      }
    }
  }

  /** The outbox table with the rows other workers hold locked. */
  class Publisher {
    var events: Table
    const locked: set<Id>

    constructor (events: Table, locked: set<Id>)
      ensures this.events == events && this.locked == locked
    {
      this.events, this.locked := events, locked;
    }

    method EmitTx(id: Id, tenant: Tenant, hasType: bool, createdAt: nat) returns (ok: bool)
      modifies this
      ensures ok <==> tenant != NIL_TENANT && hasType && id !in old(events)
      ensures events == if ok then old(events)[id := Event(tenant, createdAt, false)] else old(events)
    {
      if tenant == NIL_TENANT || !hasType || id in events {
        return false;
      }
      events := events[id := Event(tenant, createdAt, false)];
      return true;
    }

    /** SELECT ... ORDER BY created_at LIMIT n FOR UPDATE SKIP LOCKED. */
    method SelectBatch(t: Tenant, n: nat) returns (batch: set<Id>)
      ensures IsBatch(events, locked, t, n, batch)
    {
      var eligible := set e | e in events && Eligible(events, locked, t, e);
      var left := eligible;
      batch := {};
      while |batch| < n && left != {}
        invariant batch <= eligible && left == eligible - batch
        invariant |batch| <= n
        invariant forall b, e :: b in batch && e in left ==> events[b].createdAt <= events[e].createdAt
        decreases |left|
      {
        OldestExists(events, left);
        var e :| e in left && forall x :: x in left ==> events[e].createdAt <= events[x].createdAt;
        batch := batch + {e};
        left := left - {e};
      }
      forall e | Eligible(events, locked, t, e) && e !in batch ensures e in left {
        assert e in eligible;
      }
    }

    /** One tenant's transaction; on any failure nothing is marked. */
    method DrainTenant(t: Tenant, n: nat, ok: bool) returns (drained: nat)
      modifies this
      ensures !ok ==> events == old(events) && drained == 0
      ensures ok ==> exists batch :: IsBatch(old(events), locked, t, n, batch)
                                     && events == MarkDelivered(old(events), batch) && drained == |batch|
    {
      var batch := SelectBatch(t, n);
      drained := 0;
      if !ok {
        return;
      }
      if |batch| == 0 {
        assert events == MarkDelivered(events, batch);
        return;
      }
      events := MarkDelivered(events, batch);
      drained := |batch|;
    }

    /**
     The tenant loop. It reports exactly the events it marked, never more than the limit, and if no
     tenant fails it delivers everything pending or as much as the limit allows.
     */
    method DrainBatch(limit: int, tenants: seq<Tenant>, works: Tenant -> bool) returns (total: nat, failed: bool)
      modifies this
      ensures total <= if limit <= 0 then 100 else limit
      ensures |Pending(events, locked, tenants)| + total == |Pending(old(events), locked, tenants)|
      ensures forall e :: e in events && e !in Pending(old(events), locked, tenants) ==>
                e in old(events) && events[e] == old(events)[e]
      ensures (forall t :: t in tenants ==> works(t)) ==> !failed
      ensures !failed ==> total == (if limit <= 0 then 100 else limit) || Pending(events, locked, tenants) == {}
      ensures failed ==> exists i :: && 0 <= i < |tenants| && !works(tenants[i])
                                     && forall j :: 0 <= j < i ==> EligibleSet(events, locked, tenants[j]) == {}
    {
      var cap := if limit <= 0 then DEFAULT_LIMIT else limit;
      total, failed := 0, false;
      var i := 0;
      while i < |tenants|
        invariant 0 <= i <= |tenants| && total <= cap && !failed
        invariant |Pending(events, locked, tenants)| + total == |Pending(old(events), locked, tenants)|
        invariant events.Keys == old(events).Keys
        invariant forall e :: e in events ==>
                    events[e] == old(events)[e] || (e in Pending(old(events), locked, tenants)
                                                    && events[e] == old(events)[e].(delivered := true))
        invariant total < cap ==> forall j :: 0 <= j < i ==> EligibleSet(events, locked, tenants[j]) == {}
      {
        var remaining := cap - total;
        if remaining <= 0 {
          break;
        }
        ghost var was := events;
        var n := DrainTenant(tenants[i], remaining, works(tenants[i]));
        if !works(tenants[i]) {
          failed := true;
          return;
        }
        ghost var batch :| IsBatch(was, locked, tenants[i], remaining, batch) && events == MarkDelivered(was, batch)
          && n == |batch|;
        BatchLeavesPending(was, locked, tenants, i, remaining, batch);
        total := total + n;
        i := i + 1;
      }
      assert total < cap ==> Pending(events, locked, tenants) == {} by {
        if total < cap {
          AllDrained(events, locked, tenants);
        }
      }
    }
  }

  lemma AllDrained(events: Table, locked: set<Id>, tenants: seq<Tenant>)
    requires forall j :: 0 <= j < |tenants| ==> EligibleSet(events, locked, tenants[j]) == {}
    ensures Pending(events, locked, tenants) == {}
  {
  }

  lemma BatchLeavesPending(was: Table, locked: set<Id>, tenants: seq<Tenant>, i: nat, n: nat, batch: set<Id>)
    requires i < |tenants| && IsBatch(was, locked, tenants[i], n, batch)
    ensures var now := MarkDelivered(was, batch);
            && batch <= Pending(was, locked, tenants)
            && |Pending(now, locked, tenants)| + |batch| == |Pending(was, locked, tenants)|
            && (|batch| < n ==> EligibleSet(now, locked, tenants[i]) == {})
            && forall t :: EligibleSet(now, locked, t) <= EligibleSet(was, locked, t)
  {
    var now := MarkDelivered(was, batch);
    assert Pending(now, locked, tenants) == Pending(was, locked, tenants) - batch;
  }
}
