/**
 Concurrent audit writers. Any number of transactions log entries, several each if they like, and
 commit or roll back; statements interleave freely except for the advisory lock, which is keyed by
 a hash of the tenant and held to the end of the transaction. A step that is not enabled (a lock
 held by another transaction, for one) changes nothing, so every sequence of steps is a run.
 */
module AuditWriters {
  import opened Common
  import opened AuditChain

  type TxId = nat

  /** How far the current LogTx call of a transaction got. */
  datatype Pending = Idle | Locked(entry: Entry) | Fetched(entry: Entry, prev: Option<Bytes>)

  /** An open transaction and the rows it inserted, as written, visible to no other. */
  datatype Tx = Tx(rows: seq<Row>, pending: Pending)

  /** `hashText` is the lock key of a tenant; collisions are allowed. */
  datatype World = World(env: Env, hashText: Bytes -> int)

  /**
   Rows are kept as their writer had them in memory; reading them from the table passes their documents
   through the column (`ReadBack`). `nextId` is the sequence behind the id column: it never moves back.
   */
  datatype State = State(committed: seq<Row>, nextId: nat, locks: map<int, TxId>, txs: map<TxId, Tx>)

  datatype Step =
    | Begin(x: TxId)
    | Lock(x: TxId, entry: Entry)
    | Fetch(x: TxId)
    | Insert(x: TxId, now: nat)
    | Commit(x: TxId)
    | Rollback(x: TxId)

  // ------------------------------------------------------------------
  // What one LogTx call computes
  // ------------------------------------------------------------------

  function NilUuid(): Bytes { seq(16, _ => 0) }

  /** LogTx refuses an entry without tenant or action. */
  predicate Loggable(e: Entry) { e.tenantId != NilUuid() && e.action != [] }

  function Normalized(env: Env, e: Entry): Entry {
    e.(actorKind := if e.actorKind == "" then "system" else e.actorKind,
       before := NormalizeJson(env, e.before),
       after := NormalizeJson(env, e.after),
       context := NormalizeJson(env, e.context))
  }

  function StoredJson(env: Env, v: Option<Bytes>): Option<Bytes> {
    if v.None? then None else Some(env.stored(v.value))
  }

  /** The entry as the table's columns return it. */
  function AsStored(env: Env, e: Entry): Entry {
    e.(before := StoredJson(env, e.before), after := StoredJson(env, e.after), context := StoredJson(env, e.context))
  }

  /** Microsecond precision, the column's own. */
  function Truncate(t: nat): nat { t - t % 1000 }

  /** The row with the greatest id. */
  function Latest(rows: seq<Row>): Row
    requires rows != []
  {
    if |rows| == 1 then rows[0]
    else
      var l, r := Latest(rows[..|rows| - 1]), rows[|rows| - 1];
      if r.id > l.id then r else l
  }

  function PrevHash(visible: seq<Row>): Option<Bytes> {
    if visible == [] then None else Latest(visible).rowHash
  }

  /** The newest row is one of the rows, and none has a greater id. */
  lemma {:induction false} LatestMeans(rows: seq<Row>)
    requires rows != []
    ensures Latest(rows) in rows && forall i :: 0 <= i < |rows| ==> rows[i].id <= Latest(rows).id
  {
    if |rows| > 1 {
      var n := |rows| - 1;
      LatestMeans(rows[..n]);
      assert forall i :: 0 <= i < n ==> rows[i] == rows[..n][i];
    }
  }

  /** The row LogTx hashes: its entry still as in memory. */
  function WrittenRow(env: Env, id: nat, e: Entry, prev: Option<Bytes>, now: nat): Row {
    var n, at := Normalized(env, e), Truncate(now);
    Row(id, n, at, prev, Some(env.hash(Preimage(SchemeOf(env), prev, n, at))))
  }

  function AsRead(env: Env, row: Row): Row { row.(entry := AsStored(env, row.entry)) }

  /** Rows as the table returns them. */
  function ReadBack(env: Env, rows: seq<Row>): (r: seq<Row>)
    ensures |r| == |rows| && forall i :: 0 <= i < |rows| ==> r[i] == AsRead(env, rows[i])
  {
    seq(|rows|, i requires 0 <= i < |rows| => AsRead(env, rows[i]))
  }

  /** The row LogTx leaves in the table. */
  function NewRow(env: Env, id: nat, e: Entry, prev: Option<Bytes>, now: nat): Row {
    AsRead(env, WrittenRow(env, id, e, prev, now))
  }

  function OfTenant(rows: seq<Row>, t: Bytes): seq<Row> {
    Select(rows, (r: Row) => r.entry.tenantId == t)
  }

  /** A non-empty valid document is stored as the column prints it, anything else as NULL. */
  ghost predicate KeptOrDropped(env: Env, doc: Option<Bytes>, column: Option<Bytes>) {
    && (doc.Some? && doc.value != [] && env.validJson(doc.value) ==> column == Some(env.stored(doc.value)))
    && (doc.None? || doc.value == [] || !env.validJson(doc.value) ==> column == None)
  }

  /** The table as one transaction that holds the tenant's lock sees it. */
  class AuditLog {
    var rows: seq<Row>
    var nextId: nat

    constructor ()
      ensures rows == [] && nextId == 1
    {
      rows, nextId := [], 1;
    }

    method LogTx(env: Env, entry: Entry, now: nat) returns (ok: bool)
      modifies this
      ensures ok <==> Loggable(entry)
      ensures !ok ==> rows == old(rows) && nextId == old(nextId)
      ensures ok ==>
                && nextId == old(nextId) + 1
                && rows == old(rows) + [NewRow(env, old(nextId), entry, PrevHash(OfTenant(old(rows), entry.tenantId)),
                                               now)]
      ensures ok <==> entry.tenantId != seq(16, _ => 0) && entry.action != []
      ensures ok ==>
                var row := rows[|old(rows)|];
                && row.id == old(nextId) && row.createdAt == now - now % 1000
                && row.entry == entry.(actorKind := row.entry.actorKind, before := row.entry.before,
                                       after := row.entry.after, context := row.entry.context)
                && row.entry.actorKind == (if entry.actorKind == "" then "system" else entry.actorKind)
                && KeptOrDropped(env, entry.before, row.entry.before)
                && KeptOrDropped(env, entry.after, row.entry.after)
                && KeptOrDropped(env, entry.context, row.entry.context)
    {
      if entry.tenantId == NilUuid() {
        return false;
      }
      if entry.action == [] {
        return false;
      }
      var e := entry;
      if e.actorKind == "" {
        e := e.(actorKind := "system");
      }
      e := e.(before := NormalizeJson(env, entry.before), after := NormalizeJson(env, entry.after),
              context := NormalizeJson(env, entry.context));
      var prevHash := PrevHash(OfTenant(rows, entry.tenantId));
      var createdAt := Truncate(now);
      var rowHash := ComputeRowHash(env, prevHash, e, createdAt);
      rows := rows + [Row(nextId, AsStored(env, e), createdAt, prevHash, Some(rowHash))];
      nextId := nextId + 1;
      return true;
    }
  }

  // ------------------------------------------------------------------
  // Steps
  // ------------------------------------------------------------------

  /** Committed rows, then the transaction's own. */
  function Visible(s: State, x: TxId, t: Bytes): seq<Row>
    requires x in s.txs
  {
    OfTenant(s.committed, t) + OfTenant(s.txs[x].rows, t)
  }

  predicate Enabled(w: World, s: State, st: Step) {
    match st
    case Begin(x) => x !in s.txs
    case Lock(x, e) =>
      && x in s.txs && s.txs[x].pending.Idle? && Loggable(e)
      && (w.hashText(e.tenantId) in s.locks ==> s.locks[w.hashText(e.tenantId)] == x)
    case Fetch(x) => x in s.txs && s.txs[x].pending.Locked?
    case Insert(x, _) => x in s.txs && s.txs[x].pending.Fetched?
    case Commit(x) => x in s.txs && s.txs[x].pending.Idle?
    case Rollback(x) => x in s.txs
  }

  function Unlocked(locks: map<int, TxId>, x: TxId): map<int, TxId> {
    map k | k in locks && locks[k] != x :: locks[k]
  }

  function Next(w: World, s: State, st: Step): State {
    if !Enabled(w, s, st) then s
    else match st
      case Begin(x) => s.(txs := s.txs[x := Tx([], Idle)])
      case Lock(x, e) =>
        s.(locks := s.locks[w.hashText(e.tenantId) := x], txs := s.txs[x := s.txs[x].(pending := Locked(e))])
      case Fetch(x) =>
        var e := s.txs[x].pending.entry;
        s.(txs := s.txs[x := s.txs[x].(pending := Fetched(e, PrevHash(Visible(s, x, e.tenantId))))])
      case Insert(x, now) =>
        var p := s.txs[x].pending;
        s.(txs := s.txs[x := Tx(s.txs[x].rows + [WrittenRow(w.env, s.nextId, p.entry, p.prev, now)], Idle)],
           nextId := s.nextId + 1)
      case Commit(x) =>
        s.(committed := s.committed + s.txs[x].rows, txs := s.txs - {x}, locks := Unlocked(s.locks, x))
      case Rollback(x) =>
        s.(txs := s.txs - {x}, locks := Unlocked(s.locks, x))
  }

  function Exec(w: World, s: State, steps: seq<Step>): State
    decreases |steps|
  {
    if steps == [] then s else Exec(w, Next(w, s, steps[0]), steps[1..])
  }

  // ------------------------------------------------------------------
  // Invariant
  // ------------------------------------------------------------------

  ghost predicate Increasing(rows: seq<Row>) {
    forall i, j :: 0 <= i < j < |rows| ==> rows[i].id < rows[j].id
  }

  ghost predicate Good(w: World, nextId: nat, rows: seq<Row>) {
    && ValidChain(SchemeOf(w.env), rows)
    && Increasing(rows)
    && (forall i :: 0 <= i < |rows| ==> rows[i].id < nextId)
  }

  /** The rows the lock holder of tenant `t` inserted for it and has not committed yet. */
  function Uncommitted(w: World, s: State, t: Bytes): seq<Row> {
    var key := w.hashText(t);
    if key in s.locks && s.locks[key] in s.txs then OfTenant(s.txs[s.locks[key]].rows, t) else []
  }

  /** Tenant `t`'s chain as its current writer sees it. */
  function Chain(w: World, s: State, t: Bytes): seq<Row> {
    OfTenant(s.committed, t) + Uncommitted(w, s, t)
  }

  ghost predicate HoldsLock(w: World, s: State, x: TxId, t: Bytes) {
    w.hashText(t) in s.locks && s.locks[w.hashText(t)] == x
  }

  ghost predicate LocksOk(w: World, s: State) {
    && (forall k :: k in s.locks ==> s.locks[k] in s.txs)
    && (forall x, i :: x in s.txs && 0 <= i < |s.txs[x].rows| ==> HoldsLock(w, s, x, s.txs[x].rows[i].entry.tenantId))
    && (forall x :: x in s.txs && !s.txs[x].pending.Idle? ==> HoldsLock(w, s, x, s.txs[x].pending.entry.tenantId))
  }

  ghost predicate FetchesOk(w: World, s: State) {
    forall x :: x in s.txs && s.txs[x].pending.Fetched? ==>
      s.txs[x].pending.prev == Head(Chain(w, s, s.txs[x].pending.entry.tenantId))
  }

  ghost predicate Inv(w: World, s: State) {
    && LocksOk(w, s)
    && FetchesOk(w, s)
    && (forall t :: Good(w, s.nextId, Chain(w, s, t)))
  }

  lemma {:induction false} LatestIsLast(rows: seq<Row>)
    requires rows != [] && Increasing(rows)
    ensures Latest(rows) == rows[|rows| - 1]
  {
    if |rows| > 1 {
      LatestIsLast(rows[..|rows| - 1]);
    }
  }

  /** A transaction that does not hold a tenant's lock has no rows of that tenant. */
  lemma NoRowsWithoutLock(w: World, s: State, x: TxId, t: Bytes)
    requires LocksOk(w, s) && x in s.txs && !HoldsLock(w, s, x, t)
    ensures OfTenant(s.txs[x].rows, t) == []
  {
    SelectNone(s.txs[x].rows, (r: Row) => r.entry.tenantId == t);
  }

  lemma SeesWholeChain(w: World, s: State, x: TxId, t: Bytes)
    requires LocksOk(w, s) && x in s.txs && HoldsLock(w, s, x, t)
    ensures Visible(s, x, t) == Chain(w, s, t)
  {
  }

  lemma GoodPrefix(w: World, nextId: nat, a: seq<Row>, b: seq<Row>)
    requires Good(w, nextId, a + b)
    ensures Good(w, nextId, a)
  {
    assert (a + b)[..|a|] == a;
    ValidPrefix(SchemeOf(w.env), a + b, |a|);
    assert forall i :: 0 <= i < |a| ==> a[i] == (a + b)[i];
  }

  // ---- one step at a time -------------------------------------------

  lemma LockKeepsInv(w: World, s: State, x: TxId, e: Entry)
    requires Inv(w, s) && Enabled(w, s, Lock(x, e))
    ensures Inv(w, Next(w, s, Lock(x, e)))
  {
    var s' := Next(w, s, Lock(x, e));
    forall t ensures Chain(w, s', t) == Chain(w, s, t) {
      if w.hashText(t) == w.hashText(e.tenantId) && w.hashText(t) !in s.locks {
        NoRowsWithoutLock(w, s, x, t);
      }
    }
    assert LocksOk(w, s');
  }

  /** The hash a lock holder fetches is the head of the whole chain. */
  lemma FetchSeesHead(w: World, s: State, x: TxId, t: Bytes)
    requires LocksOk(w, s) && x in s.txs && HoldsLock(w, s, x, t) && Increasing(Chain(w, s, t))
    ensures PrevHash(Visible(s, x, t)) == Head(Chain(w, s, t))
  {
    SeesWholeChain(w, s, x, t);
    if Chain(w, s, t) != [] {
      LatestIsLast(Chain(w, s, t));
    }
  }

  lemma FetchKeepsInv(w: World, s: State, x: TxId)
    requires Inv(w, s) && Enabled(w, s, Fetch(x))
    ensures Inv(w, Next(w, s, Fetch(x)))
  {
    var s' := Next(w, s, Fetch(x));
    var t := s.txs[x].pending.entry.tenantId;
    assert Good(w, s.nextId, Chain(w, s, t));
    FetchSeesHead(w, s, x, t);
    SameRowsSameChains(w, s, s');
    assert LocksOk(w, s');
  }

  lemma SameRowsSameChains(w: World, s: State, s': State)
    requires s'.committed == s.committed && s'.locks == s.locks && s'.txs.Keys == s.txs.Keys
    requires forall x :: x in s.txs ==> s'.txs[x].rows == s.txs[x].rows
    ensures forall t :: Chain(w, s', t) == Chain(w, s, t)
  {
  }

  lemma InsertExtendsChain(w: World, s: State, x: TxId, row: Row, s': State, t: Bytes)
    requires LocksOk(w, s) && x in s.txs && HoldsLock(w, s, x, row.entry.tenantId)
    requires s'.committed == s.committed && s'.locks == s.locks
    requires s'.txs == s.txs[x := Tx(s.txs[x].rows + [row], Idle)]
    ensures Chain(w, s', t) == Chain(w, s, t) + (if t == row.entry.tenantId then [row] else [])
  {
  }

  lemma GoodAppend(w: World, nextId: nat, rows: seq<Row>, row: Row)
    requires Good(w, nextId, rows) && row.id == nextId && Links(SchemeOf(w.env), Head(rows), row)
    ensures Good(w, nextId + 1, rows + [row])
  {
    ValidAppend(SchemeOf(w.env), rows, row);
  }

  lemma InsertKeepsInv(w: World, s: State, x: TxId, now: nat)
    requires Inv(w, s) && Enabled(w, s, Insert(x, now))
    ensures Inv(w, Next(w, s, Insert(x, now)))
  {
    var s', p := Next(w, s, Insert(x, now)), s.txs[x].pending;
    var row := WrittenRow(w.env, s.nextId, p.entry, p.prev, now);
    assert HoldsLock(w, s, x, row.entry.tenantId);
    forall t ensures Good(w, s'.nextId, Chain(w, s', t)) {
      InsertExtendsChain(w, s, x, row, s', t);
      assert Good(w, s.nextId, Chain(w, s, t));
      if t == row.entry.tenantId {
        GoodAppend(w, s.nextId, Chain(w, s, t), row);
      } else {
        assert Chain(w, s', t) == Chain(w, s, t);
      }
    }
    InsertKeepsLocks(w, s, x, row, s');
    forall y | y in s'.txs && s'.txs[y].pending.Fetched?
      ensures s'.txs[y].pending.prev == Head(Chain(w, s', s'.txs[y].pending.entry.tenantId))
    {
      var u := s.txs[y].pending.entry.tenantId;
      assert HoldsLock(w, s, y, u);
      InsertExtendsChain(w, s, x, row, s', u);
      assert Chain(w, s', u) == Chain(w, s, u);
    }
  }

  lemma InsertKeepsLocks(w: World, s: State, x: TxId, row: Row, s': State)
    requires LocksOk(w, s) && x in s.txs && HoldsLock(w, s, x, row.entry.tenantId)
    requires s'.locks == s.locks && s'.txs == s.txs[x := Tx(s.txs[x].rows + [row], Idle)]
    ensures LocksOk(w, s')
  {
  }

  /** Ending a transaction: its own tenants keep (commit) or lose (rollback) its rows, others see no change. */
  lemma EndChain(w: World, s: State, x: TxId, commit: bool, t: Bytes)
    requires LocksOk(w, s) && x in s.txs && (commit ==> s.txs[x].pending.Idle?)
    ensures var s' := Next(w, s, if commit then Commit(x) else Rollback(x));
            if HoldsLock(w, s, x, t) && !commit then Chain(w, s', t) == OfTenant(s.committed, t)
            else Chain(w, s', t) == Chain(w, s, t)
  {
    var s' := Next(w, s, if commit then Commit(x) else Rollback(x));
    if commit {
      SelectConcat(s.committed, s.txs[x].rows, (r: Row) => r.entry.tenantId == t);
      assert OfTenant(s'.committed, t) == OfTenant(s.committed, t) + OfTenant(s.txs[x].rows, t);
    }
    if HoldsLock(w, s, x, t) {
      assert Uncommitted(w, s', t) == [];
      assert Uncommitted(w, s, t) == OfTenant(s.txs[x].rows, t);
    } else {
      NoRowsWithoutLock(w, s, x, t);
      assert Uncommitted(w, s', t) == Uncommitted(w, s, t);
    }
  }

  lemma EndKeepsInv(w: World, s: State, x: TxId, commit: bool)
    requires Inv(w, s) && x in s.txs && (commit ==> s.txs[x].pending.Idle?)
    ensures Inv(w, Next(w, s, if commit then Commit(x) else Rollback(x)))
  {
    var s' := Next(w, s, if commit then Commit(x) else Rollback(x));
    forall t ensures Good(w, s'.nextId, Chain(w, s', t)) {
      EndChain(w, s, x, commit, t);
      assert Good(w, s.nextId, Chain(w, s, t));
      if HoldsLock(w, s, x, t) && !commit {
        GoodPrefix(w, s.nextId, OfTenant(s.committed, t), Uncommitted(w, s, t));
      }
    }
    assert LocksOk(w, s');
    forall y | y in s'.txs && s'.txs[y].pending.Fetched?
      ensures s'.txs[y].pending.prev == Head(Chain(w, s', s'.txs[y].pending.entry.tenantId))
    {
      EndChain(w, s, x, commit, s.txs[y].pending.entry.tenantId);
    }
  }

  lemma BeginKeepsInv(w: World, s: State, x: TxId)
    requires Inv(w, s) && Enabled(w, s, Begin(x))
    ensures Inv(w, Next(w, s, Begin(x)))
  {
    var s' := Next(w, s, Begin(x));
    forall t ensures Chain(w, s', t) == Chain(w, s, t) { }
  }

  lemma StepKeepsInv(w: World, s: State, st: Step)
    requires Inv(w, s)
    ensures Inv(w, Next(w, s, st))
  {
    if Enabled(w, s, st) {
      match st
      case Begin(x) => BeginKeepsInv(w, s, x);
      case Lock(x, e) => LockKeepsInv(w, s, x, e);
      case Fetch(x) => FetchKeepsInv(w, s, x);
      case Insert(x, now) => InsertKeepsInv(w, s, x, now);
      case Commit(x) => EndKeepsInv(w, s, x, true);
      case Rollback(x) => EndKeepsInv(w, s, x, false);
    }
  }

  lemma {:induction false} InvHolds(w: World, s: State, steps: seq<Step>)
    requires Inv(w, s)
    ensures Inv(w, Exec(w, s, steps))
    decreases |steps|
  {
    if steps != [] {
      StepKeepsInv(w, s, steps[0]);
      InvHolds(w, Next(w, s, steps[0]), steps[1..]);
    }
  }

  // ------------------------------------------------------------------
  // Results over every run
  // ------------------------------------------------------------------

  /** A table that predates the chain: any rows, none hashed, ids increasing. */
  ghost predicate Legacy(s: State) {
    && s.locks == map[] && s.txs == map[]
    && Increasing(s.committed)
    && (forall i :: 0 <= i < |s.committed| ==> s.committed[i].rowHash.None? && s.committed[i].id < s.nextId)
  }

  lemma {:induction false} SelectKeepsIncreasing(rows: seq<Row>, t: Bytes)
    requires Increasing(rows)
    ensures Increasing(OfTenant(rows, t))
  {
    if rows != [] {
      var n := |rows| - 1;
      SelectKeepsIncreasing(rows[..n], t);
      forall i | 0 <= i < |OfTenant(rows[..n], t)| ensures OfTenant(rows[..n], t)[i].id < rows[n].id {
        SelectMembers(rows[..n], (r: Row) => r.entry.tenantId == t, OfTenant(rows[..n], t)[i]);
      }
    }
  }

  lemma LegacyInv(w: World, s: State)
    requires Legacy(s)
    ensures Inv(w, s)
  {
    forall t ensures Good(w, s.nextId, Chain(w, s, t)) {
      var c := OfTenant(s.committed, t);
      SelectKeepsIncreasing(s.committed, t);
      forall i | 0 <= i < |c| ensures c[i] in s.committed {
        SelectMembers(s.committed, (r: Row) => r.entry.tenantId == t, c[i]);
      }
      assert Chain(w, s, t) == c;
    }
  }

  /** Ids increase and every hashed row names the hash of the row before it. */
  ghost predicate Unforked(rows: seq<Row>) {
    && Increasing(rows)
    && forall i :: 0 <= i < |rows| && rows[i].rowHash.Some? ==> rows[i].prevHash == Head(rows[..i])
  }

  lemma WrittenLogIsValid(w: World, s: State, steps: seq<Step>, t: Bytes)
    requires Legacy(s)
    ensures var rows := OfTenant(Exec(w, s, steps).committed, t);
            ValidChain(SchemeOf(w.env), rows) && Increasing(rows)
  {
    LegacyInv(w, s);
    InvHolds(w, s, steps);
    var s' := Exec(w, s, steps);
    assert Good(w, s'.nextId, Chain(w, s', t));
    GoodPrefix(w, s'.nextId, OfTenant(s'.committed, t), Uncommitted(w, s', t));
  }

  lemma ReadBackHeads(env: Env, rows: seq<Row>, i: nat)
    requires i <= |rows|
    ensures Head(ReadBack(env, rows)[..i]) == Head(rows[..i])
  {
    if i > 0 {
      assert ReadBack(env, rows)[..i][i - 1] == ReadBack(env, rows)[i - 1];
    }
  }

  /**
   However writers interleave, commit and roll back, and whatever the documents become in storage, each
   tenant's committed rows in id order are one unforked chain.
   */
  lemma CommittedLogIsOneChain(w: World, s: State, steps: seq<Step>, t: Bytes)
    requires Legacy(s)
    ensures Unforked(ReadBack(w.env, OfTenant(Exec(w, s, steps).committed, t)))
  {
    WrittenLogIsValid(w, s, steps, t);
    var rows := OfTenant(Exec(w, s, steps).committed, t);
    forall i | 0 <= i < |rows| && rows[i].rowHash.Some? ensures rows[i].prevHash == Head(ReadBack(w.env, rows)[..i]) {
      ReadBackHeads(w.env, rows, i);
      assert Links(SchemeOf(w.env), Head(rows[..i]), rows[i]);
    }
  }

  /** The same in terms of neighbours, for a table that started empty: nil first, then always the predecessor's hash. */
  lemma EachRowNamesItsPredecessor(w: World, steps: seq<Step>, t: Bytes, i: nat)
    requires i < |OfTenant(Exec(w, State([], 1, map[], map[]), steps).committed, t)|
    ensures var rows := ReadBack(w.env, OfTenant(Exec(w, State([], 1, map[], map[]), steps).committed, t));
            && rows[i].rowHash.Some?
            && rows[i].prevHash == (if i == 0 then None else rows[i - 1].rowHash)
  {
    var s := State([], 1, map[], map[]);
    var s' := Exec(w, s, steps);
    CommittedLogIsOneChain(w, s, steps, t);
    AllRowsHashed(w, s, steps);
    var rows := OfTenant(s'.committed, t);
    SelectMembers(s'.committed, (r: Row) => r.entry.tenantId == t, rows[i]);
    ReadBackHeads(w.env, rows, i);
  }

  // ---- which logs the verifier confirms ------------------------------

  /** The bytes the verifier hashes for a row are those its writer hashed. */
  predicate ReadsBack(env: Env, row: Row) {
    Fields(env, AsStored(env, row.entry), row.createdAt) == Fields(env, row.entry, row.createdAt)
  }

  /** The verifier's digest of a row is the one its writer stored. */
  predicate Confirmed(env: Env, row: Row) {
    row.rowHash.Some? ==>
      env.hash(Preimage(SchemeOf(env), row.prevHash, AsStored(env, row.entry), row.createdAt))
      == env.hash(Preimage(SchemeOf(env), row.prevHash, row.entry, row.createdAt))
  }

  lemma ConfirmedIff(env: Env, row: Row)
    requires row.rowHash.Some?
    ensures ReadsBack(env, row) ==> Confirmed(env, row)
    ensures CollisionFree(env) && Confirmed(env, row) ==> ReadsBack(env, row)
  {
    var seed := SeedBytes(row.prevHash);
    var x, y := Fields(env, AsStored(env, row.entry), row.createdAt), Fields(env, row.entry, row.createdAt);
    if seed + x == seed + y {
      assert x == (seed + x)[|seed|..] == y;
    }
  }

  /**
   The verifier finds an honestly written log intact exactly when every row's digest can be recomputed from
   its stored form; with a collision-free hash, exactly when every row reads back to the bytes hashed.
   */
  lemma VerifierConfirmsIff(w: World, s: State, steps: seq<Step>, t: Bytes)
    requires Legacy(s)
    ensures var rows := OfTenant(Exec(w, s, steps).committed, t);
            && (ValidChain(SchemeOf(w.env), ReadBack(w.env, rows)) <==>
                  forall i :: 0 <= i < |rows| ==> Confirmed(w.env, rows[i]))
            && (CollisionFree(w.env) ==>
                  (ValidChain(SchemeOf(w.env), ReadBack(w.env, rows)) <==>
                     forall i :: 0 <= i < |rows| && rows[i].rowHash.Some? ==> ReadsBack(w.env, rows[i])))
  {
    WrittenLogIsValid(w, s, steps, t);
    var rows := OfTenant(Exec(w, s, steps).committed, t);
    forall i | 0 <= i < |rows|
      ensures Links(SchemeOf(w.env), Head(ReadBack(w.env, rows)[..i]), ReadBack(w.env, rows)[i]) <==>
                Confirmed(w.env, rows[i])
    {
      ReadBackHeads(w.env, rows, i);
      assert Links(SchemeOf(w.env), Head(rows[..i]), rows[i]);
    }
    forall i | 0 <= i < |rows| && rows[i].rowHash.Some?
      ensures CollisionFree(w.env) ==> (Confirmed(w.env, rows[i]) <==> ReadsBack(w.env, rows[i]))
    {
      ConfirmedIff(w.env, rows[i]);
    }
  }

  predicate FaithfulValue(env: Env, v: Option<Bytes>) {
    v.Some? && v.value != [] ==> FaithfulDoc(env, v.value)
  }

  /** All three documents of an entry survive storage. */
  predicate FaithfulEntry(env: Env, e: Entry) {
    FaithfulValue(env, e.before) && FaithfulValue(env, e.after) && FaithfulValue(env, e.context)
  }

  lemma FaithfulReadsBack(env: Env, e: Entry, row: Row)
    requires FaithfulEntry(env, Normalized(env, e)) && row.entry == Normalized(env, e)
    ensures ReadsBack(env, row)
  {
  }

  /** Every hashed row and every pending entry is faithful. */
  ghost predicate AllFaithful(w: World, s: State) {
    && (forall i :: 0 <= i < |s.committed| ==> RowFaithful(w.env, s.committed[i]))
    && (forall x, i :: x in s.txs && 0 <= i < |s.txs[x].rows| ==> RowFaithful(w.env, s.txs[x].rows[i]))
    && (forall x :: x in s.txs && !s.txs[x].pending.Idle? ==>
          FaithfulEntry(w.env, Normalized(w.env, s.txs[x].pending.entry)))
  }

  predicate RowFaithful(env: Env, row: Row) { row.rowHash.Some? ==> ReadsBack(env, row) }

  /** The entry a step starts to log, if it starts one, survives storage. */
  predicate LogsFaithfully(env: Env, st: Step) {
    st.Lock? ==> FaithfulEntry(env, Normalized(env, st.entry))
  }

  lemma FaithfulStep(w: World, s: State, st: Step)
    requires AllFaithful(w, s) && LogsFaithfully(w.env, st)
    ensures AllFaithful(w, Next(w, s, st))
  {
    if st.Insert? && Enabled(w, s, st) {
      var p := s.txs[st.x].pending;
      FaithfulReadsBack(w.env, p.entry, WrittenRow(w.env, s.nextId, p.entry, p.prev, st.now));
    }
  }

  lemma {:induction false} FaithfulRun(w: World, s: State, steps: seq<Step>)
    requires AllFaithful(w, s) && forall k :: 0 <= k < |steps| ==> LogsFaithfully(w.env, steps[k])
    ensures AllFaithful(w, Exec(w, s, steps))
    decreases |steps|
  {
    if steps != [] {
      FaithfulStep(w, s, steps[0]);
      FaithfulRun(w, Next(w, s, steps[0]), steps[1..]);
    }
  }

  /** A log of documents that survive storage is always found intact, whatever other documents would do. */
  lemma FaithfulLogVerifies(w: World, s: State, steps: seq<Step>, t: Bytes)
    requires Legacy(s) && forall k :: 0 <= k < |steps| ==> LogsFaithfully(w.env, steps[k])
    ensures ValidChain(SchemeOf(w.env), ReadBack(w.env, OfTenant(Exec(w, s, steps).committed, t)))
  {
    FaithfulRun(w, s, steps);
    VerifierConfirmsIff(w, s, steps, t);
    var s' := Exec(w, s, steps);
    var rows := OfTenant(s'.committed, t);
    forall i | 0 <= i < |rows| ensures Confirmed(w.env, rows[i]) {
      SelectMembers(s'.committed, (r: Row) => r.entry.tenantId == t, rows[i]);
      if rows[i].rowHash.Some? {
        ConfirmedIff(w.env, rows[i]);
      }
    }
  }

  /** The document -0 and what the column makes of it. */
  const NEGATIVE_ZERO: Bytes := [45, 48]
  const ZERO_DIGIT: Bytes := [48]

  function LogAs(x: TxId, e: Entry, now: nat): seq<Step> { [Begin(x), Lock(x, e), Fetch(x), Insert(x, now), Commit(x)] }

  /**
   An honest log the verifier rejects: Go re-marshals -0 as -0 while the column stores 0. Any entry whose
   only document is -0 does it.
   */
  lemma NegativeZeroIsNotConfirmed(w: World, e: Entry, now: nat)
    requires Loggable(e) && e.before == Some(NEGATIVE_ZERO) && e.after.None? && e.context.None?
    requires w.env.validJson(NEGATIVE_ZERO) && w.env.canonical(NEGATIVE_ZERO) == NEGATIVE_ZERO
    requires w.env.stored(NEGATIVE_ZERO) == ZERO_DIGIT && w.env.canonical(ZERO_DIGIT) == ZERO_DIGIT
    requires CollisionFree(w.env)
    ensures var rows := OfTenant(Exec(w, State([], 1, map[], map[]), LogAs(0, e, now)).committed, e.tenantId);
            |rows| == 1 && !ValidChain(SchemeOf(w.env), ReadBack(w.env, rows))
  {
    var s0 := State([], 1, map[], map[]);
    var row := WrittenRow(w.env, 1, e, None, now);
    LoneCallAppends(w, s0, 0, e, now);
    SelectAppend([], row, (r: Row) => r.entry.tenantId == e.tenantId);
    assert [] + [row] == [row];
    VerifierConfirmsIff(w, s0, LogAs(0, e, now), e.tenantId);
    assert |Fields(w.env, AsStored(w.env, row.entry), row.createdAt)| + 1 == |Fields(w.env, row.entry, row.createdAt)|;
    assert !ReadsBack(w.env, [row][0]);
  }

  /** A call whose lock is free, run on its own, appends its entry after the tenant's newest committed row. */
  lemma LoneCallAppends(w: World, s: State, x: TxId, e: Entry, now: nat)
    requires Loggable(e) && x !in s.txs && w.hashText(e.tenantId) !in s.locks
    ensures Exec(w, s, LogAs(x, e, now)).committed ==
              s.committed + [WrittenRow(w.env, s.nextId, e, PrevHash(OfTenant(s.committed, e.tenantId)), now)]
  {
    var s1 := Next(w, s, Begin(x));
    var s2 := Next(w, s1, Lock(x, e));
    var s3 := Next(w, s2, Fetch(x));
    var s4 := Next(w, s3, Insert(x, now));
    var seen := OfTenant(s.committed, e.tenantId);
    assert OfTenant([], e.tenantId) == [] && seen + [] == seen;
    assert s3.txs[x].pending == Fetched(e, PrevHash(seen));
    calc {
      Exec(w, s, LogAs(x, e, now));
      Exec(w, s1, [Lock(x, e), Fetch(x), Insert(x, now), Commit(x)]);
      Exec(w, s2, [Fetch(x), Insert(x, now), Commit(x)]);
      Exec(w, s3, [Insert(x, now), Commit(x)]);
      Exec(w, s4, [Commit(x)]);
      Exec(w, Next(w, s4, Commit(x)), []);
    }
  }

  ghost predicate Hashed(rows: seq<Row>) { forall i :: 0 <= i < |rows| ==> rows[i].rowHash.Some? }

  lemma {:induction false} AllRowsHashed(w: World, s: State, steps: seq<Step>)
    requires Hashed(s.committed) && (forall x :: x in s.txs ==> Hashed(s.txs[x].rows))
    ensures Hashed(Exec(w, s, steps).committed)
    decreases |steps|
  {
    if steps != [] {
      AllRowsHashed(w, Next(w, s, steps[0]), steps[1..]);
    }
  }

  /** The committed log only ever grows at the end. */
  lemma {:induction false} CommittedLogIsAppendOnly(w: World, s: State, steps: seq<Step>)
    ensures s.committed <= Exec(w, s, steps).committed
    decreases |steps|
  {
    if steps != [] {
      CommittedLogIsAppendOnly(w, Next(w, s, steps[0]), steps[1..]);
    }
  }
}
