/**
 Exchange and Refresh as the straight-line effect sequences of the service, over the session
 store object. Verification results, lookups, signing and database faults are inputs.
 */
module SingleSignOn {
  import opened Common
  import opened Sessions
  import opened RefreshRotation

  datatype Claims = Claims(
    userId: Id,
    tenantId: Id,
    roles: seq<string>,
    sessionId: Id,
    isPlatformAdmin: bool,
    jti: string)

  datatype Membership = Membership(tenant: Id, role: string)

  /** The two minted tokens, by their claims. */
  datatype TokenPair = TokenPair(access: Claims, refresh: Claims)

  /** What the collaborators of one call answer. */
  datatype Answers = Answers(
    adminPool: bool,
    admin: Outcome<bool>,    // users.is_platform_admin, when the admin pool is configured
    accessJti: string,
    nextJti: string,
    signsAccess: bool,
    signsRefresh: bool,
    getFault: bool,
    swap: Fault,
    revoke: Fault)

  /** The membership Exchange picks: the first in the preferred tenant, else the first of all. */
  ghost predicate ChosenAt(ms: seq<Membership>, preferred: Id, i: nat) {
    && i < |ms|
    && if preferred != NIL && (exists j :: 0 <= j < |ms| && ms[j].tenant == preferred)
       then ms[i].tenant == preferred && forall j :: 0 <= j < i ==> ms[j].tenant != preferred
       else i == 0
  }

  /** No membership before the chosen one is in the preferred tenant; the first is taken when none is. */
  lemma ChosenMeans(ms: seq<Membership>, preferred: Id, at: nat)
    requires ChosenAt(ms, preferred, at)
    ensures at < |ms| && (preferred == NIL ==> at == 0)
    ensures preferred != NIL ==> forall j :: 0 <= j < at ==> ms[j].tenant != preferred
    ensures preferred != NIL && (exists j :: 0 <= j < |ms| && ms[j].tenant == preferred) ==> ms[at].tenant == preferred
    ensures (forall j :: 0 <= j < |ms| ==> ms[j].tenant != preferred) ==> at == 0
  {
  }

  function Draft(tenant: Id, user: Id, ttl: nat, jti: string, now: Time): Session {
    Session(NIL, tenant, user, jti, now, now + ttl, None, ZERO_TIME, "", "")
  }

  /** What the collaborators of one Exchange call answer; memberships fail when any lookup before them did. */
  datatype LoginAnswers = LoginAnswers(
    memberships: Outcome<seq<Membership>>,
    freshId: Id,
    freshJti: string,
    accessJti: string,
    maxSessions: int,
    insert: Fault,
    signsAccess: bool,
    signsRefresh: bool)

  /** Exchange gets as far as inserting the row, and the row can be inserted. */
  ghost predicate Opens(rows: Table, user: Id, ttl: nat, a: LoginAnswers, chosen: nat, now: Time) {
    && a.memberships.Success? && chosen < |a.memberships.value|
    && Insertable(rows, Draft(a.memberships.value[chosen].tenant, user, ttl, a.freshJti, now), a.freshId, a.maxSessions,
                  now)
  }

  method Choose(ms: seq<Membership>, preferred: Id) returns (at: nat)
    requires ms != []
    ensures ChosenAt(ms, preferred, at)
  {
    at := 0;
    if preferred != NIL {
      var i := 0;
      while i < |ms|
        invariant 0 <= i <= |ms|
        invariant forall j :: 0 <= j < i ==> ms[j].tenant != preferred
      {
        if ms[i].tenant == preferred {
          return i;
        }
        i := i + 1;
      }
    }
  }

  /**
   Opens a session and hands out the refresh token whose jti the row stores. The row is committed before
   the tokens are signed, so a failed call leaves the table alone exactly when the row was not inserted;
   otherwise a live session stays behind that no client holds a token for and that counts against the cap.
   */
  method Exchange(store: PGSessionStore, user: Id, isAdmin: bool, preferred: Id, refreshTtl: nat, a: LoginAnswers,
                  now: Time)
    returns (r: Outcome<TokenPair>, ghost chosen: nat)
    requires store.Valid() && a.freshId != NIL && now > ZERO_TIME
    modifies store
    ensures store.Valid()
    ensures a.memberships.Success? && a.memberships.value != [] ==> ChosenAt(a.memberships.value, preferred, chosen)
    ensures r.Success? <==>
              && Opens(old(store.rows), user, refreshTtl, a, chosen, now)
              && a.insert.Works? && a.signsAccess && a.signsRefresh
    ensures r.Success? <==>
              && a.insert.Works? && a.signsAccess && a.signsRefresh
              && a.memberships.Success? && chosen < |a.memberships.value| && user != NIL
              && var tenant := a.memberships.value[chosen].tenant;
              && tenant != NIL && Key(tenant, a.freshId) !in old(store.rows)
              && |set k | && k in old(store.rows) && k.tenant == tenant && old(store.rows)[k].revokedAt.None?
                          && now < old(store.rows)[k].expiresAt| < a.maxSessions
    ensures r.Success? ==>
              var m := a.memberships.value[chosen];
              r.value == TokenPair(Claims(user, m.tenant, [m.role], a.freshId, isAdmin, a.accessJti),
                                   Claims(user, m.tenant, [m.role], a.freshId, isAdmin, a.freshJti))
    ensures Opens(old(store.rows), user, refreshTtl, a, chosen, now) && !a.insert.Fails? ==>
              var k := Key(a.memberships.value[chosen].tenant, a.freshId);
              && k !in old(store.rows)
              && store.rows == old(store.rows)[k := LoginRow(k, user, refreshTtl, a.freshJti, now)]
              && store.rows[k] == Session(a.freshId, k.tenant, user, a.freshJti, now, now + refreshTtl, None, now, "",
                                          "")
              && (refreshTtl > 0 ==>
                    ActiveKeys(store.rows, k.tenant, now) == ActiveKeys(old(store.rows), k.tenant, now) + {k})
    ensures r.Failure? ==>
              (store.rows == old(store.rows) <==>
                 !Opens(old(store.rows), user, refreshTtl, a, chosen, now) || a.insert.Fails?)
  {
    chosen := 0;
    if a.memberships.Failure? {
      return Failure(TokenRejected), chosen;
    }
    var ms := a.memberships.value;
    if |ms| == 0 {
      return Failure(TokenRejected), chosen;
    }
    var at := Choose(ms, preferred);
    chosen := at;
    ghost var before := store.rows;
    var made := store.Create(Draft(ms[at].tenant, user, refreshTtl, a.freshJti, now), a.freshId, a.maxSessions, now,
                             a.insert);
    if made.Failure? {
      return Failure(made.error), chosen;
    }
    var base := Claims(user, ms[at].tenant, [ms[at].role], made.value.id, isAdmin, a.accessJti);
    if !a.signsAccess {
      return Failure(SigningFailed), chosen;
    }
    if !a.signsRefresh {
      return Failure(SigningFailed), chosen;
    }
    return Success(TokenPair(base, base.(jti := made.value.refreshJti))), chosen;
  }

  /**
   One Refresh call without interference. It succeeds exactly when nothing failed on the way and
   the presented jti is the current one of a live session; reuse revokes the session; any other failure
   leaves the table untouched unless the swap was committed and its acknowledgement lost.
   */
  method Refresh(store: PGSessionStore?, verified: Outcome<Claims>, a: Answers, now: Time)
    returns (r: Outcome<TokenPair>)
    requires store != null ==> store.Valid()
    requires a.nextJti != ""
    modifies store
    ensures store != null ==> store.Valid()
    ensures r.Success? <==>
              && verified.Success?
              && (store != null && verified.value.sessionId != NIL ==>
                    var k := Key(verified.value.tenantId, verified.value.sessionId);
                    && !a.getFault && k in old(store.rows) && old(store.rows)[k].revokedAt.None?
                    && (old(store.rows)[k].expiresAt == ZERO_TIME || now <= old(store.rows)[k].expiresAt)
                    && (verified.value.jti != "" ==>
                          && a.signsRefresh && a.swap.Works?
                          && old(store.rows)[k].refreshJti == verified.value.jti && now < old(store.rows)[k].expiresAt))
              && a.signsAccess
    // Both new tokens carry the flag as it is now, or the presented one when it cannot be looked up.
    ensures r.Success? && a.adminPool && verified.value.userId != NIL && a.admin.Success? ==>
              r.value.access == verified.value.(isPlatformAdmin := a.admin.value, jti := a.accessJti)
    ensures r.Success? && !(a.adminPool && verified.value.userId != NIL && a.admin.Success?) ==>
              r.value.access == verified.value.(jti := a.accessJti)
    ensures r.Success? ==>
              r.value.refresh == if store != null && verified.value.sessionId != NIL && verified.value.jti != ""
                                 then r.value.access.(jti := a.nextJti)
                                 else verified.value
    // The table: a granted call swaps the one jti, reuse stamps the one session, anything else changes nothing.
    ensures store != null && r.Success? && verified.value.sessionId != NIL && verified.value.jti != "" ==>
              var k := Key(verified.value.tenantId, verified.value.sessionId);
              && k in old(store.rows)
              && store.rows == old(store.rows)[k := old(store.rows)[k].(refreshJti := a.nextJti, lastUsedAt := now)]
    ensures r == Failure(RefreshReuse) <==>
              && verified.Success? && store != null && verified.value.sessionId != NIL && verified.value.jti != ""
              && var k := Key(verified.value.tenantId, verified.value.sessionId);
              && !a.getFault && k in old(store.rows) && old(store.rows)[k].revokedAt.None?
              && (old(store.rows)[k].expiresAt == ZERO_TIME || now <= old(store.rows)[k].expiresAt)
              && a.signsAccess && a.signsRefresh && !a.swap.Fails?
              && !(old(store.rows)[k].refreshJti == verified.value.jti && now < old(store.rows)[k].expiresAt)
    ensures r == Failure(RefreshReuse) && !a.revoke.Fails? ==>
              var k := Key(verified.value.tenantId, verified.value.sessionId);
              k in old(store.rows) && store.rows == old(store.rows)[k := old(store.rows)[k].(revokedAt := Some(now))]
    ensures store != null && r.Failure? && r.error != RefreshReuse
            && !(a.swap.AckLost? && r.error == DbFault && !a.getFault) ==>
              store.rows == old(store.rows)
    ensures store != null && r.Success? && (verified.value.sessionId == NIL || verified.value.jti == "") ==>
              store.rows == old(store.rows)
    ensures store != null && r == Failure(RefreshReuse) && a.revoke.Fails? && verified.Success? ==>
              store.rows == old(store.rows)
    ensures verified.Success? && store != null && verified.value.sessionId != NIL && verified.value.jti != ""
            && a.signsAccess && a.signsRefresh && !a.getFault && !a.swap.Fails? && !a.revoke.Fails? ==>
              store.rows == SerialRows(old(store.rows), Key(verified.value.tenantId, verified.value.sessionId),
                                       verified.value.jti, a.nextJti, now)
  {
    if verified.Failure? {
      return Failure(TokenRejected);
    }
    var claims := verified.value;
    var k := Key(claims.tenantId, claims.sessionId);
    if store != null && claims.sessionId != NIL {
      var got := store.Get(k, now, a.getFault);
      if got.Failure? {
        return Failure(got.error);
      }
    }
    var isAdmin := claims.isPlatformAdmin;
    if a.adminPool && claims.userId != NIL {
      if a.admin.Success? {
        isAdmin := a.admin.value;
      }
    }
    var base := claims.(isPlatformAdmin := isAdmin);
    if !a.signsAccess {
      return Failure(SigningFailed);
    }
    var refreshOut := claims;
    if store != null && claims.sessionId != NIL && claims.jti != "" {
      if !a.signsRefresh {
        return Failure(SigningFailed);
      }
      var swapped := store.RotateRefresh(k, claims.jti, a.nextJti, now, a.swap);
      if swapped.Failure? {
        if swapped.error == RefreshReuse {
          var _ := store.Revoke(k, now, a.revoke);
        }
        return Failure(swapped.error);
      }
      refreshOut := base.(jti := a.nextJti);
    }
    return Success(TokenPair(base.(jti := a.accessJti), refreshOut));
  }
}
