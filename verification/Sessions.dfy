/**
 The sessions table and the guarded row updates of the session store.
 A statement runs in its own transaction, so each method is one atomic change of
 `rows`. The database clock, generated ids and database faults are parameters.
 */
module Sessions {
  import opened Common

  /** A uuid; `NIL` is uuid.Nil. */
  type Id = nat
  const NIL: Id := 0

  /** An instant; `ZERO_TIME` is Go's zero time. */
  type Time = nat
  const ZERO_TIME: Time := 0

  datatype Key = Key(tenant: Id, id: Id)

  datatype Session = Session(
    id: Id,
    tenantId: Id,
    userId: Id,
    refreshJti: string,
    issuedAt: Time,
    expiresAt: Time,
    revokedAt: Option<Time>,
    lastUsedAt: Time,
    userAgent: string,
    ipAddress: string)

  /** Rows under their primary key (tenant_id, id). */
  type Table = map<Key, Session>

  datatype Error =
    | MissingOwner
    | MissingExpiry
    | SessionLimit
    | SessionNotFound
    | RefreshReuse
    | MissingJti
    | DbFault
    | TokenRejected
    | SigningFailed

  datatype Outcome<T> = Success(value: T) | Failure(error: Error)

  ghost predicate WellKeyed(t: Table) {
    forall k :: k in t ==> t[k].tenantId == k.tenant && t[k].id == k.id
  }

  /** The SQL live-session guard: `revoked_at IS NULL AND expires_at > now()`. */
  predicate Live(s: Session, now: Time) {
    s.revokedAt.None? && now < s.expiresAt
  }

  /** The Go-side guard of Get, which still admits the expiry instant itself. */
  predicate Readable(s: Session, now: Time) {
    s.revokedAt.None? && (s.expiresAt == ZERO_TIME || now <= s.expiresAt)
  }

  /**
   How the database behaves for one write: it works, it fails, or it commits and the acknowledgement is
   lost, so the caller gets an error for a change that took effect.
   */
  datatype Fault = Works | Fails | AckLost

  /** The guard of the compare-and-swap UPDATE in RotateRefresh. */
  predicate Rotates(t: Table, k: Key, oldJti: string, now: Time) {
    k in t && t[k].refreshJti == oldJti && Live(t[k], now)
  }

  function RotateRow(t: Table, k: Key, oldJti: string, newJti: string, now: Time): Table {
    if Rotates(t, k, oldJti, now)
    then t[k := t[k].(refreshJti := newJti, lastUsedAt := now)]
    else t
  }

  /** `UPDATE sessions SET revoked_at = now() WHERE ... AND revoked_at IS NULL`. */
  function RevokeWhere(t: Table, hit: (Key, Session) -> bool, now: Time): Table {
    map k | k in t ::
      if hit(k, t[k]) && t[k].revokedAt.None? then t[k].(revokedAt := Some(now)) else t[k]
  }

  function OneSession(key: Key): (Key, Session) -> bool { (k, _) => k == key }

  function OfUser(tenant: Id, user: Id): (Key, Session) -> bool {
    (k: Key, s: Session) => k.tenant == tenant && s.userId == user
  }

  function OfTenant(tenant: Id): (Key, Session) -> bool { (k: Key, _) => k.tenant == tenant }

  function TouchRow(t: Table, key: Key, now: Time): Table {
    if key in t && t[key].revokedAt.None? then t[key := t[key].(lastUsedAt := now)] else t
  }

  function ActiveKeys(t: Table, tenant: Id, now: Time): set<Key> {
    set k | k in t && k.tenant == tenant && Live(t[k], now)
  }

  /** The row Create inserts: generated id and timestamps filled in, not revoked. */
  function Completed(s: Session, freshId: Id, now: Time): Session {
    var id := if s.id == NIL then freshId else s.id;
    var issued := if s.issuedAt == ZERO_TIME then now else s.issuedAt;
    var used := if s.lastUsedAt == ZERO_TIME then issued else s.lastUsedAt;
    s.(id := id, issuedAt := issued, lastUsedAt := used, revokedAt := None)
  }

  /** What Create demands of a session and of the table. */
  predicate Insertable(t: Table, s: Session, freshId: Id, maxSessions: int, now: Time) {
    && s.tenantId != NIL && s.userId != NIL && s.expiresAt != ZERO_TIME
    && |ActiveKeys(t, s.tenantId, now)| < maxSessions
    && Key(s.tenantId, Completed(s, freshId, now).id) !in t
  }

  class PGSessionStore {
    var rows: Table

    ghost predicate Valid() reads this { WellKeyed(rows) }

    constructor ()
      ensures Valid() && rows == map[]
    {
      rows := map[];
    }

    /**
     Inserts a live row unless the owner or expiry is missing, the cap is reached or the id is taken.
     The row is there afterwards exactly when the caller was told so or the acknowledgement was lost.
     */
    method Create(sess: Session, freshId: Id, maxSessions: int, now: Time, fault: Fault)
      returns (r: Outcome<Session>)
      requires Valid() && freshId != NIL
      modifies this
      ensures Valid()
      ensures r.Success? <==> Insertable(old(rows), sess, freshId, maxSessions, now) && fault.Works?
      ensures r.Success? <==>
                && fault.Works? && sess.tenantId != NIL && sess.userId != NIL && sess.expiresAt != ZERO_TIME
                && Key(sess.tenantId, if sess.id == NIL then freshId else sess.id) !in old(rows)
                && |set k | && k in old(rows) && k.tenant == sess.tenantId
                            && old(rows)[k].revokedAt.None? && now < old(rows)[k].expiresAt| < maxSessions
      ensures r.Success? ==>
                && r.value.id == (if sess.id == NIL then freshId else sess.id)
                && r.value.issuedAt == (if sess.issuedAt == ZERO_TIME then now else sess.issuedAt)
                && r.value.lastUsedAt == (if sess.lastUsedAt == ZERO_TIME then r.value.issuedAt else sess.lastUsedAt)
                && r.value == sess.(id := r.value.id, issuedAt := r.value.issuedAt, lastUsedAt := r.value.lastUsedAt,
                                    revokedAt := None)
                && rows == old(rows)[Key(sess.tenantId, r.value.id) := r.value]
      ensures rows == if Insertable(old(rows), sess, freshId, maxSessions, now) && !fault.Fails?
                      then var row := Completed(sess, freshId, now); old(rows)[Key(sess.tenantId, row.id) := row]
                      else old(rows)
    {
      if sess.tenantId == NIL || sess.userId == NIL {
        return Failure(MissingOwner);
      }
      if sess.expiresAt == ZERO_TIME {
        return Failure(MissingExpiry);
      }
      var active := |ActiveKeys(rows, sess.tenantId, now)|;
      assert ActiveKeys(rows, sess.tenantId, now) ==
             set k | && k in rows && k.tenant == sess.tenantId
                     && rows[k].revokedAt.None? && now < rows[k].expiresAt;
      if active >= maxSessions {
        return Failure(SessionLimit);
      }
      var row := Completed(sess, freshId, now);
      var k := Key(sess.tenantId, row.id);
      if fault.Fails? || k in rows {
        return Failure(DbFault);
      }
      rows := rows[k := row];
      if fault.AckLost? {
        return Failure(DbFault);
      }
      return Success(row);
    }

    /** Returns the row exactly when it exists, is not revoked and has not expired. */
    method Get(k: Key, now: Time, fault: bool) returns (r: Outcome<Session>)
      ensures r.Success? <==>
                && !fault && k in rows && rows[k].revokedAt.None?
                && (rows[k].expiresAt == ZERO_TIME || now <= rows[k].expiresAt)
      ensures r.Success? ==> r.value == rows[k]
      ensures r.Failure? ==> r.error == if fault then DbFault else SessionNotFound
    {
      if fault {
        return Failure(DbFault);
      }
      if k !in rows {
        return Failure(SessionNotFound);
      }
      var out := rows[k];
      if out.revokedAt.Some? {
        return Failure(SessionNotFound);
      }
      if out.expiresAt != ZERO_TIME && now > out.expiresAt {
        return Failure(SessionNotFound);
      }
      return Success(out);
    }

    /** The compare-and-swap: reports reuse exactly when no live row carries `oldJti`. */
    method RotateRefresh(k: Key, oldJti: string, newJti: string, now: Time, fault: Fault)
      returns (r: Outcome<()>)
      requires Valid()
      modifies this
      ensures Valid()
      ensures r.Success? <==>
                && oldJti != "" && newJti != "" && fault.Works?
                && k in old(rows) && old(rows)[k].refreshJti == oldJti
                && old(rows)[k].revokedAt.None? && now < old(rows)[k].expiresAt
      ensures r.Success? ==> rows == old(rows)[k := old(rows)[k].(refreshJti := newJti, lastUsedAt := now)]
      ensures r == Failure(RefreshReuse) <==>
                oldJti != "" && newJti != "" && !fault.Fails? && !Rotates(old(rows), k, oldJti, now)
      ensures r == Failure(MissingJti) <==> oldJti == "" || newJti == ""
      ensures r.Failure? ==> r.error in {MissingJti, RefreshReuse, DbFault}
      ensures rows == if oldJti != "" && newJti != "" && !fault.Fails?
                      then RotateRow(old(rows), k, oldJti, newJti, now)
                      else old(rows)
    {
      if oldJti == "" || newJti == "" {
        return Failure(MissingJti);
      }
      if fault.Fails? {
        return Failure(DbFault);
      }
      var affected := 0;
      if k in rows && rows[k].refreshJti == oldJti && rows[k].revokedAt.None? && rows[k].expiresAt > now {
        rows := rows[k := rows[k].(refreshJti := newJti, lastUsedAt := now)];
        affected := 1;
      }
      if affected == 0 {
        return Failure(RefreshReuse);
      }
      if fault.AckLost? {
        return Failure(DbFault);
      }
      return Success(());
    }

    /**
     The statement behind the three revocations. Unless the write failed, no session it names is live or
     readable at any later time; a first stamp is kept, and nothing else in the table moves.
     */
    method RevokeMatching(hit: (Key, Session) -> bool, now: Time, fault: Fault)
      returns (r: Outcome<()>)
      requires Valid()
      modifies this
      ensures Valid() && rows.Keys == old(rows).Keys
      ensures r.Success? <==> fault.Works?
      ensures fault.Fails? ==> rows == old(rows)
      ensures !fault.Fails? ==> rows == RevokeWhere(old(rows), hit, now)
      ensures forall k, t :: k in rows && hit(k, old(rows)[k]) && !fault.Fails? ==>
                !Live(rows[k], t) && !Readable(rows[k], t)
      ensures forall k :: k in rows && (!hit(k, old(rows)[k]) || old(rows)[k].revokedAt.Some?) ==>
                rows[k] == old(rows)[k]
      ensures forall k :: k in rows ==> rows[k] == old(rows)[k].(revokedAt := rows[k].revokedAt)
    {
      if fault.Fails? {
        return Failure(DbFault);
      }
      rows := RevokeWhere(rows, hit, now);
      return if fault.AckLost? then Failure(DbFault) else Success(());
    }

    /** Stamps one session, once; all other sessions stay as they are. */
    method Revoke(k: Key, now: Time, fault: Fault) returns (r: Outcome<()>)
      requires Valid()
      modifies this
      ensures Valid() && rows.Keys == old(rows).Keys
      ensures r.Success? <==> fault.Works?
      ensures rows == if fault.Fails? then old(rows) else RevokeWhere(old(rows), OneSession(k), now)
      ensures forall x :: x in rows ==>
                rows[x] == if !fault.Fails? && x == k && old(rows)[x].revokedAt.None?
                           then old(rows)[x].(revokedAt := Some(now))
                           else old(rows)[x]
    {
      r := RevokeMatching(OneSession(k), now, fault);
    }

    /** Stamps every unrevoked session the user has in the tenant, and no other user's. */
    method RevokeByUser(tenant: Id, user: Id, now: Time, fault: Fault) returns (r: Outcome<()>)
      requires Valid()
      modifies this
      ensures Valid() && rows.Keys == old(rows).Keys
      ensures r.Success? <==> fault.Works?
      ensures forall x :: x in rows ==>
                rows[x] == if !fault.Fails? && x.tenant == tenant && old(rows)[x].userId == user
                              && old(rows)[x].revokedAt.None?
                           then old(rows)[x].(revokedAt := Some(now))
                           else old(rows)[x]
    {
      r := RevokeMatching(OfUser(tenant, user), now, fault);
    }

    /** Stamps every unrevoked session of the tenant, and no other tenant's. */
    method RevokeByTenant(tenant: Id, now: Time, fault: Fault) returns (r: Outcome<()>)
      requires Valid()
      modifies this
      ensures Valid() && rows.Keys == old(rows).Keys
      ensures r.Success? <==> fault.Works?
      ensures forall x :: x in rows ==>
                rows[x] == if !fault.Fails? && x.tenant == tenant && old(rows)[x].revokedAt.None?
                           then old(rows)[x].(revokedAt := Some(now))
                           else old(rows)[x]
    {
      r := RevokeMatching(OfTenant(tenant), now, fault);
    }

    /** Moves an unrevoked session's last-used time; no guard of any session reads it. */
    method Touch(k: Key, now: Time, fault: Fault) returns (r: Outcome<()>)
      requires Valid()
      modifies this
      ensures Valid()
      ensures r.Success? <==> fault.Works?
      ensures rows == if fault.Fails? then old(rows) else TouchRow(old(rows), k, now)
      ensures rows == if !fault.Fails? && k in old(rows) && old(rows)[k].revokedAt.None?
                      then old(rows)[k := old(rows)[k].(lastUsedAt := now)]
                      else old(rows)
    {
      if fault.Fails? {
        return Failure(DbFault);
      }
      if k in rows && rows[k].revokedAt.None? {
        rows := rows[k := rows[k].(lastUsedAt := now)];
      }
      return if fault.AckLost? then Failure(DbFault) else Success(());
    }
  }
}
