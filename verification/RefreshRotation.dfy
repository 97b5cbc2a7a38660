/**
 Refresh-token rotation as a step system: any number of Refresh calls, on any sessions and
 with any presented tokens, interleave with logins, revocations and the passing of time.
 Each database statement is one step; a step that is not enabled changes nothing, so every
 sequence of steps is a run.
 */
module RefreshRotation {
  import opened Common
  import opened Sessions

  /** Where one Refresh call stands. */
  datatype Phase =
    | Presented                // signature and claims verified
    | SessionRead              // Get found the session
    | Minted(next: string)     // the next refresh token is signed, nothing stored yet
    | ReuseSeen                // the swap reported reuse; the family revocation is still to run
    | Granted(next: string)
    | Refused(error: Error)

  datatype Request = Request(key: Key, jti: string, phase: Phase)

  /** A jti becoming a session's current one: stored at login, or swapped in by a Refresh call. */
  datatype Install =
    | Opened(key: Key, jti: string, at: Time)
    | Rotated(key: Key, jti: string, at: Time, consumed: string, caller: nat, acknowledged: bool)

  /** `issued` holds every jti ever generated and `history` every install of every session, in order. */
  datatype State = State(
    rows: Table,
    clock: Time,
    reqs: map<nat, Request>,
    issued: set<string>,
    history: seq<Install>)

  datatype Step =
    | Login(key: Key, user: Id, ttl: nat, jti: string)
    | Present(r: nat, key: Key, jti: string)
    | Read(r: nat)
    | Mint(r: nat, next: string)
    | FailEarly(r: nat, error: Error)
    | Swap(r: nat)
    | SwapFault(r: nat)
    | SwapUnacknowledged(r: nat)   // the swap commits, the call gets a database error
    | RevokeFamily(r: nat, ok: bool)
    | Revoke(key: Key)
    | RevokeByUser(tenant: Id, user: Id)
    | RevokeByTenant(tenant: Id)
    | Touch(key: Key)
    | Tick(delta: nat)

  function Initial(): State { State(map[], 1, map[], {}, []) }

  function Advance(s: State, r: nat, p: Phase): State
    requires r in s.reqs
  {
    s.(reqs := s.reqs[r := s.reqs[r].(phase := p)])
  }

  function LoginRow(key: Key, user: Id, ttl: nat, jti: string, now: Time): Session {
    Session(key.id, key.tenant, user, jti, now, now + ttl, None, now, "", "")
  }

  predicate Enabled(s: State, st: Step) {
    match st
    case Login(key, user, _, jti) =>
      key !in s.rows && key.tenant != NIL && key.id != NIL && user != NIL && jti != "" && jti !in s.issued
    case Present(r, key, jti) => r !in s.reqs && jti != "" && key.id != NIL
    case Read(r) => r in s.reqs && s.reqs[r].phase.Presented?
    case Mint(r, next) => r in s.reqs && s.reqs[r].phase.SessionRead? && next != "" && next !in s.issued
    case FailEarly(r, e) =>
      e != RefreshReuse && r in s.reqs && (s.reqs[r].phase.Presented? || s.reqs[r].phase.SessionRead?)
    case Swap(r) => r in s.reqs && s.reqs[r].phase.Minted?
    case SwapFault(r) => r in s.reqs && s.reqs[r].phase.Minted?
    case SwapUnacknowledged(r) =>
      r in s.reqs && s.reqs[r].phase.Minted? && Rotates(s.rows, s.reqs[r].key, s.reqs[r].jti, s.clock)
    case RevokeFamily(r, _) => r in s.reqs && s.reqs[r].phase.ReuseSeen?
    case _ => true
  }

  /** The swap took effect; the caller learns of it or gets a database error. */
  function Swapped(s: State, r: nat, acknowledged: bool): State
    requires r in s.reqs && s.reqs[r].phase.Minted?
  {
    var q := s.reqs[r];
    Advance(s, r, if acknowledged then Granted(q.phase.next) else Refused(DbFault)).(
      rows := RotateRow(s.rows, q.key, q.jti, q.phase.next, s.clock),
      history := s.history + [Rotated(q.key, q.phase.next, s.clock, q.jti, r, acknowledged)])
  }

  function Apply(s: State, st: Step): State
    requires Enabled(s, st)
  {
    match st
    case Login(key, user, ttl, jti) =>
      s.(rows := s.rows[key := LoginRow(key, user, ttl, jti, s.clock)],
         issued := s.issued + {jti},
         history := s.history + [Opened(key, jti, s.clock)])
    case Present(r, key, jti) => s.(reqs := s.reqs[r := Request(key, jti, Presented)])
    case Read(r) =>
      var k := s.reqs[r].key;
      Advance(s, r, if k in s.rows && Readable(s.rows[k], s.clock) then SessionRead else Refused(SessionNotFound))
    case Mint(r, next) => Advance(s, r, Minted(next)).(issued := s.issued + {next})
    case FailEarly(r, e) => Advance(s, r, Refused(e))
    case Swap(r) =>
      var q := s.reqs[r];
      if Rotates(s.rows, q.key, q.jti, s.clock) then Swapped(s, r, true)
      else Advance(s, r, ReuseSeen)
    case SwapFault(r) => Advance(s, r, Refused(DbFault))
    case SwapUnacknowledged(r) => Swapped(s, r, false)
    case RevokeFamily(r, ok) =>
      var s' := Advance(s, r, Refused(RefreshReuse));
      if ok then s'.(rows := RevokeWhere(s.rows, OneSession(s.reqs[r].key), s.clock)) else s'
    case Revoke(key) => s.(rows := RevokeWhere(s.rows, OneSession(key), s.clock))
    case RevokeByUser(t, u) => s.(rows := RevokeWhere(s.rows, OfUser(t, u), s.clock))
    case RevokeByTenant(t) => s.(rows := RevokeWhere(s.rows, OfTenant(t), s.clock))
    case Touch(key) => s.(rows := TouchRow(s.rows, key, s.clock))
    case Tick(d) => s.(clock := s.clock + d)
  }

  function Next(s: State, st: Step): State {
    if Enabled(s, st) then Apply(s, st) else s
  }

  function Exec(s: State, steps: seq<Step>): State
    decreases |steps|
  {
    if steps == [] then s else Exec(Next(s, steps[0]), steps[1..])
  }

  /** The installs of one session, in order. */
  function Of(h: seq<Install>, k: Key): seq<Install> {
    Select(h, (e: Install) => e.key == k)
  }

  /** One linear chain: a login, then swaps that each consume what the install before them stored. */
  ghost predicate OneChain(c: seq<Install>) {
    && c != [] && c[0].Opened?
    && (forall i :: 0 < i < |c| ==> c[i].Rotated? && c[i].consumed == c[i - 1].jti)
  }

  function Tip(c: seq<Install>): string
    requires c != []
  {
    c[|c| - 1].jti
  }

  ghost predicate DistinctJtis(h: seq<Install>) {
    forall i, j :: 0 <= i < j < |h| ==> h[i].jti != h[j].jti
  }

  ghost predicate IsInstalled(h: seq<Install>, j: string) {
    exists i :: 0 <= i < |h| && h[i].jti == j
  }

  // ------------------------------------------------------------------
  // Invariant
  // ------------------------------------------------------------------

  ghost predicate RowsMatch(rows: Table, h: seq<Install>) {
    && (forall k :: k in rows ==> OneChain(Of(h, k)) && rows[k].refreshJti == Tip(Of(h, k)))
    && (forall i :: 0 <= i < |h| ==> h[i].key in rows && (h[i].Rotated? ==> h[i].at < rows[h[i].key].expiresAt))
  }

  /** A minted jti is not installed before its own swap, and no two calls mint the same one. */
  ghost predicate PendingFresh(reqs: map<nat, Request>, issued: set<string>, h: seq<Install>) {
    && (forall i :: 0 <= i < |h| ==> h[i].jti in issued)
    && (forall r :: r in reqs && reqs[r].phase.Minted? ==>
          reqs[r].phase.next in issued && !IsInstalled(h, reqs[r].phase.next))
    && (forall r, q :: r in reqs && q in reqs && r != q && reqs[r].phase.Minted? && reqs[q].phase.Minted?
                       ==> reqs[r].phase.next != reqs[q].phase.next)
  }

  /** The record a swap leaves of its caller. */
  function CallerOf(e: Install): Request
    requires e.Rotated?
  {
    Request(e.key, e.consumed, if e.acknowledged then Granted(e.jti) else Refused(DbFault))
  }

  /** Every swap has one finished caller, and every granted call has its swap. */
  ghost predicate GrantsMatch(reqs: map<nat, Request>, h: seq<Install>) {
    && (forall i :: 0 <= i < |h| && h[i].Rotated? ==> h[i].caller in reqs && reqs[h[i].caller] == CallerOf(h[i]))
    && (forall r :: r in reqs && reqs[r].phase.Granted? ==> SwappedBy(h, r))
    && (forall i, j :: 0 <= i < j < |h| && h[i].Rotated? && h[j].Rotated? ==> h[i].caller != h[j].caller)
  }

  /** Some swap in the history is this call's. */
  ghost predicate SwappedBy(h: seq<Install>, r: nat) {
    exists i :: 0 <= i < |h| && h[i].Rotated? && h[i].caller == r
  }

  /** A call past its session read names a session that exists; rows are never deleted. */
  ghost predicate ReadExists(reqs: map<nat, Request>, rows: Table) {
    forall r :: r in reqs && (reqs[r].phase.SessionRead? || reqs[r].phase.Minted? || reqs[r].phase.ReuseSeen?) ==>
      reqs[r].key in rows
  }

  ghost predicate Inv(s: State) {
    && ReadExists(s.reqs, s.rows)
    && RowsMatch(s.rows, s.history)
    && DistinctJtis(s.history)
    && PendingFresh(s.reqs, s.issued, s.history)
    && GrantsMatch(s.reqs, s.history)
  }

  // ---- steps that install nothing -----------------------------------

  ghost predicate SameChains(t: Table, t': Table) {
    && t'.Keys == t.Keys
    && (forall k :: k in t ==> t'[k].refreshJti == t[k].refreshJti && t'[k].expiresAt == t[k].expiresAt)
  }

  /** No call was granted or minted a jti. */
  ghost predicate SameGrants(q: map<nat, Request>, q': map<nat, Request>) {
    && (forall r :: r in q' && (q'[r].phase.Minted? || q'[r].phase.Granted?) ==> r in q && q[r] == q'[r])
    && (forall r :: r in q && (q[r].phase.Granted? || q[r].phase.Refused?) ==> r in q' && q'[r] == q[r])
  }

  predicate SwapSucceeds(s: State, st: Step) {
    && Enabled(s, st) && (st.Swap? || st.SwapUnacknowledged?)
    && Rotates(s.rows, s.reqs[st.r].key, s.reqs[st.r].jti, s.clock)
  }

  lemma MildRowStep(s: State, st: Step)
    requires st.Revoke? || st.RevokeByUser? || st.RevokeByTenant? || st.Touch? || st.Tick?
    ensures var s' := Apply(s, st);
            SameChains(s.rows, s'.rows) && s'.reqs == s.reqs && s'.history == s.history && s'.issued == s.issued
  {
  }

  lemma MildCallStep(s: State, st: Step)
    requires Enabled(s, st) && !SwapSucceeds(s, st)
    requires st.Present? || st.Read? || st.FailEarly? || st.Swap? || st.SwapFault? || st.RevokeFamily?
    ensures var s' := Apply(s, st);
            && SameChains(s.rows, s'.rows) && SameGrants(s.reqs, s'.reqs)
            && s'.history == s.history && s'.issued == s.issued
            && (ReadExists(s.reqs, s.rows) ==> ReadExists(s'.reqs, s'.rows))
  {
  }

  lemma MildStep(s: State, st: Step)
    requires Enabled(s, st) && !st.Login? && !st.Mint? && !SwapSucceeds(s, st)
    ensures var s' := Apply(s, st);
            && SameChains(s.rows, s'.rows) && SameGrants(s.reqs, s'.reqs)
            && s'.history == s.history && s'.issued == s.issued
            && (ReadExists(s.reqs, s.rows) ==> ReadExists(s'.reqs, s'.rows))
  {
    if st.Revoke? || st.RevokeByUser? || st.RevokeByTenant? || st.Touch? || st.Tick? {
      MildRowStep(s, st);
    } else {
      MildCallStep(s, st);
    }
  }

  lemma MildKeepsFresh(q: map<nat, Request>, q': map<nat, Request>, issued: set<string>, h: seq<Install>)
    requires SameGrants(q, q') && PendingFresh(q, issued, h)
    ensures PendingFresh(q', issued, h)
  {
  }

  lemma MildKeepsGrants(q: map<nat, Request>, q': map<nat, Request>, h: seq<Install>)
    requires SameGrants(q, q') && GrantsMatch(q, h)
    ensures GrantsMatch(q', h)
  {
  }

  lemma MildKeepsInv(s: State, s': State)
    requires Inv(s) && ReadExists(s'.reqs, s'.rows)
    requires SameChains(s.rows, s'.rows) && SameGrants(s.reqs, s'.reqs)
    requires s'.history == s.history && s'.issued == s.issued
    ensures Inv(s')
  {
    MildKeepsFresh(s.reqs, s'.reqs, s.issued, s.history);
    MildKeepsGrants(s.reqs, s'.reqs, s.history);
  }

  lemma MintKeepsInv(s: State, st: Step)
    requires Inv(s) && st.Mint? && Enabled(s, st)
    ensures Inv(Apply(s, st))
  {
  }

  // ---- steps that install a jti -------------------------------------

  lemma OfAppend(h: seq<Install>, e: Install)
    ensures forall k :: Of(h + [e], k) == Of(h, k) + (if e.key == k then [e] else [])
  {
    forall k { SelectAppend(h, e, (x: Install) => x.key == k); }
  }

  lemma IsInstalledAppend(h: seq<Install>, e: Install, j: string)
    ensures IsInstalled(h + [e], j) <==> IsInstalled(h, j) || j == e.jti
  {
    if IsInstalled(h, j) {
      var i :| 0 <= i < |h| && h[i].jti == j;
      assert (h + [e])[i].jti == j;
    }
    assert (h + [e])[|h|] == e;
  }

  lemma LoginOpensChain(rows: Table, h: seq<Install>, k: Key, row: Session, e: Install)
    requires RowsMatch(rows, h) && k !in rows
    requires e.Opened? && e.key == k && row.refreshJti == e.jti
    ensures RowsMatch(rows[k := row], h + [e])
  {
    OfAppend(h, e);
    SelectNone(h, (x: Install) => x.key == k);
    var rows', h' := rows[k := row], h + [e];
    forall x | x in rows' ensures OneChain(Of(h', x)) && rows'[x].refreshJti == Tip(Of(h', x)) {
      if x == k {
        assert Of(h', x) == [e];
      } else {
        assert Of(h', x) == Of(h, x);
      }
    }
  }

  lemma LoginKeepsFresh(s: State, st: Step)
    requires Inv(s) && st.Login? && Enabled(s, st)
    ensures var s' := Apply(s, st);
            DistinctJtis(s'.history) && PendingFresh(s'.reqs, s'.issued, s'.history) && GrantsMatch(s'.reqs, s'.history)
  {
    var e, s' := Opened(st.key, st.jti, s.clock), Apply(s, st);
    forall j { IsInstalledAppend(s.history, e, j); }
    forall r | SwappedBy(s.history, r) ensures SwappedBy(s'.history, r) {
      SwappedStays(s.history, e, r);
    }
  }

  lemma SwappedStays(h: seq<Install>, e: Install, r: nat)
    ensures SwappedBy(h + [e], r) <==> SwappedBy(h, r) || (e.Rotated? && e.caller == r)
  {
    var h' := h + [e];
    if SwappedBy(h, r) {
      var i :| 0 <= i < |h| && h[i].Rotated? && h[i].caller == r;
      assert h'[i] == h[i];
    }
    assert h'[|h|] == e;
  }

  lemma RotationExtends(rows: Table, h: seq<Install>, k: Key, row: Session, e: Install)
    requires RowsMatch(rows, h) && k in rows
    requires e.Rotated? && e.key == k && e.consumed == rows[k].refreshJti && e.at < rows[k].expiresAt
    requires row.refreshJti == e.jti && row.expiresAt == rows[k].expiresAt
    ensures RowsMatch(rows[k := row], h + [e])
  {
    OfAppend(h, e);
    var rows', h' := rows[k := row], h + [e];
    forall x | x in rows' ensures OneChain(Of(h', x)) && rows'[x].refreshJti == Tip(Of(h', x)) {
      if x == k {
        assert Of(h', x) == Of(h, x) + [e];
      } else {
        assert Of(h', x) == Of(h, x);
      }
    }
  }

  /** The install a successful swap makes. */
  function InstallOf(s: State, st: Step): Install
    requires SwapSucceeds(s, st)
  {
    var q := s.reqs[st.r];
    Rotated(q.key, q.phase.next, s.clock, q.jti, st.r, st.Swap?)
  }

  lemma SwapKeepsRows(s: State, st: Step)
    requires Inv(s) && SwapSucceeds(s, st)
    ensures var s' := Apply(s, st); RowsMatch(s'.rows, s'.history)
  {
    var q, s' := s.reqs[st.r], Apply(s, st);
    RotationExtends(s.rows, s.history, q.key, s'.rows[q.key], InstallOf(s, st));
  }

  lemma SwapKeepsFresh(s: State, st: Step)
    requires Inv(s) && SwapSucceeds(s, st)
    ensures var s' := Apply(s, st); DistinctJtis(s'.history) && PendingFresh(s'.reqs, s'.issued, s'.history)
  {
    forall j { IsInstalledAppend(s.history, InstallOf(s, st), j); }
  }

  lemma SwapKeepsGrants(q: map<nat, Request>, h: seq<Install>, e: Install)
    requires GrantsMatch(q, h) && e.Rotated? && e.caller in q && q[e.caller].phase.Minted?
    ensures GrantsMatch(q[e.caller := CallerOf(e)], h + [e])
  {
    forall r ensures SwappedBy(h + [e], r) <==> SwappedBy(h, r) || r == e.caller {
      SwappedStays(h, e, r);
    }
  }

  lemma SwapKeepsInv(s: State, st: Step)
    requires Inv(s) && SwapSucceeds(s, st)
    ensures Inv(Apply(s, st))
  {
    SwapKeepsRows(s, st);
    SwapKeepsFresh(s, st);
    SwapKeepsGrants(s.reqs, s.history, InstallOf(s, st));
  }

  lemma LoginKeepsInv(s: State, st: Step)
    requires Inv(s) && st.Login? && Enabled(s, st)
    ensures Inv(Apply(s, st))
  {
    LoginKeepsFresh(s, st);
    var row := LoginRow(st.key, st.user, st.ttl, st.jti, s.clock);
    LoginOpensChain(s.rows, s.history, st.key, row, Opened(st.key, st.jti, s.clock));
  }

  lemma InvKept(s: State, st: Step)
    requires Inv(s)
    ensures Inv(Next(s, st))
  {
    if Enabled(s, st) {
      if st.Login? {
        LoginKeepsInv(s, st);
      } else if st.Mint? {
        MintKeepsInv(s, st);
      } else if SwapSucceeds(s, st) {
        SwapKeepsInv(s, st);
      } else {
        MildStep(s, st);
        MildKeepsInv(s, Apply(s, st));
      }
    }
  }

  lemma {:induction false} InvHolds(s: State, steps: seq<Step>)
    requires Inv(s)
    ensures Inv(Exec(s, steps))
    decreases |steps|
  {
    if steps != [] {
      InvKept(s, steps[0]);
      InvHolds(Next(s, steps[0]), steps[1..]);
    }
  }

  // ------------------------------------------------------------------
  // Results over every run
  // ------------------------------------------------------------------

  /** Every reachable session's successful refreshes form one chain that starts at its login's jti. */
  lemma RefreshesFormOneChain(steps: seq<Step>, k: Key)
    requires k in Exec(Initial(), steps).rows
    ensures var s := Exec(Initial(), steps);
            && OneChain(Of(s.history, k))
            && s.rows[k].refreshJti == Tip(Of(s.history, k))
  {
    InvHolds(Initial(), steps);
  }

  /** Of all calls that ever present one jti for one session, at most one is granted. */
  lemma TokenIsSingleUse(steps: seq<Step>, r: nat, q: nat)
    requires var s := Exec(Initial(), steps);
             && r in s.reqs && q in s.reqs && s.reqs[r].phase.Granted? && s.reqs[q].phase.Granted?
             && s.reqs[r].key == s.reqs[q].key && s.reqs[r].jti == s.reqs[q].jti
    ensures r == q
  {
    InvHolds(Initial(), steps);
    var s := Exec(Initial(), steps);
    assert SwappedBy(s.history, r) && SwappedBy(s.history, q);
    var i :| 0 <= i < |s.history| && s.history[i].Rotated? && s.history[i].caller == r;
    var j :| 0 <= j < |s.history| && s.history[j].Rotated? && s.history[j].caller == q;
    ConsumedOnce(s.history, s.reqs[r].key, s.history[i], s.history[j], s.rows);
  }

  /** Within one session two swaps that consume the same jti are the same swap. */
  lemma ConsumedOnce(h: seq<Install>, k: Key, a: Install, b: Install, rows: Table)
    requires RowsMatch(rows, h) && DistinctJtis(h)
    requires a in h && b in h && a.Rotated? && b.Rotated? && a.key == k && b.key == k
    requires a.consumed == b.consumed
    ensures a == b
  {
    var c := Of(h, k);
    SelectMembers(h, (e: Install) => e.key == k, a);
    SelectMembers(h, (e: Install) => e.key == k, b);
    SelectKeepsDistinct(h, k);
    var i :| 0 <= i < |c| && c[i] == a;
    var j :| 0 <= j < |c| && c[j] == b;
    assert c[i - 1].jti == c[j - 1].jti;
  }

  lemma {:induction false} SelectKeepsDistinct(h: seq<Install>, k: Key)
    requires DistinctJtis(h)
    ensures DistinctJtis(Of(h, k))
  {
    if h != [] {
      var front, last := h[..|h| - 1], h[|h| - 1];
      SelectKeepsDistinct(front, k);
      forall i | 0 <= i < |Of(front, k)| ensures Of(front, k)[i].jti != last.jti {
        SelectMembers(front, (e: Install) => e.key == k, Of(front, k)[i]);
      }
    }
  }

  /** A revoked or expired session is dead for good: no later step swaps its jti or revives it. */
  ghost predicate Dead(s: State, k: Key) {
    k in s.rows && !Live(s.rows[k], s.clock)
  }

  lemma DeadStep(s: State, st: Step, k: Key)
    requires Dead(s, k)
    ensures Dead(Next(s, st), k)
    ensures Of(Next(s, st).history, k) == Of(s.history, k)
    ensures Next(s, st).rows[k].refreshJti == s.rows[k].refreshJti
    ensures s.rows[k].revokedAt.Some? ==> Next(s, st).rows[k].revokedAt == s.rows[k].revokedAt
  {
    if Enabled(s, st) {
      if st.Login? {
        OfAppend(s.history, Opened(st.key, st.jti, s.clock));
      } else if SwapSucceeds(s, st) {
        OfAppend(s.history, InstallOf(s, st));
      } else {
        assert Apply(s, st).history == s.history;
      }
    }
  }

  lemma {:induction false} DeadForever(s: State, steps: seq<Step>, k: Key)
    requires Dead(s, k)
    ensures var s' := Exec(s, steps);
            && Dead(s', k)
            && Of(s'.history, k) == Of(s.history, k)
            && s'.rows[k].refreshJti == s.rows[k].refreshJti
            && (s.rows[k].revokedAt.Some? ==> s'.rows[k].revokedAt == s.rows[k].revokedAt)
    decreases |steps|
  {
    if steps != [] {
      DeadStep(s, steps[0], k);
      DeadForever(Next(s, steps[0]), steps[1..], k);
    }
  }

  /**
   Reuse detected and the family revocation stored: the session stays revoked for the rest of
   the run and no call on it succeeds any more.
   */
  lemma ReuseShutsFamily(before: seq<Step>, r: nat, after: seq<Step>)
    requires var s := Exec(Initial(), before); r in s.reqs && s.reqs[r].phase.ReuseSeen?
    ensures var s := Exec(Initial(), before);
            var k := s.reqs[r].key;
            var s' := Exec(Next(s, RevokeFamily(r, true)), after);
            && k in s'.rows && s'.rows[k].revokedAt.Some?
            && Of(s'.history, k) == Of(s.history, k)
  {
    InvHolds(Initial(), before);
    var s := Exec(Initial(), before);
    DeadForever(Next(s, RevokeFamily(r, true)), after, s.reqs[r].key);
  }

  function Attempt(r: nat, k: Key, jti: string, next: string): seq<Step> {
    [Present(r, k, jti), Read(r), Mint(r, next), Swap(r), RevokeFamily(r, true)]
  }

  /** What one Refresh call run on its own does to the table. */
  function SerialRows(rows: Table, k: Key, jti: string, next: string, now: Time): Table {
    if k !in rows || !Readable(rows[k], now) then rows
    else if Rotates(rows, k, jti, now) then RotateRow(rows, k, jti, next, now)
    else RevokeWhere(rows, OneSession(k), now)
  }

  /** The live row's jti is swapped; a readable row whose jti was not the current one is stamped; all else stays. */
  lemma SerialRowsMeans(rows: Table, k: Key, jti: string, next: string, now: Time)
    ensures var rows' := SerialRows(rows, k, jti, next, now);
            && rows'.Keys == rows.Keys && (forall x :: x in rows && x != k ==> rows'[x] == rows[x])
            && (k in rows ==>
                  var row := rows[k];
                  rows'[k] == if row.revokedAt.Some? || (row.expiresAt != ZERO_TIME && now > row.expiresAt) then row
                              else if row.refreshJti == jti && now < row.expiresAt
                              then row.(refreshJti := next, lastUsedAt := now)
                              else row.(revokedAt := Some(now)))
  {
  }

  /**
   Run on its own, a call is granted exactly when it presents the current jti of a live session:
   a live session has exactly one jti that can still succeed, a dead one has none.
   */
  lemma OnlyCurrentTokenWorks(s: State, r: nat, k: Key, jti: string, next: string)
    requires r !in s.reqs && jti != "" && k.id != NIL && next != "" && next !in s.issued
    ensures var s' := Exec(s, Attempt(r, k, jti, next));
            && r in s'.reqs
            && (s'.reqs[r].phase == Granted(next) <==>
                  k in s.rows && Live(s.rows[k], s.clock) && s.rows[k].refreshJti == jti)
            && s'.rows == SerialRows(s.rows, k, jti, next, s.clock)
  {
    var s1 := Next(s, Present(r, k, jti));
    var s2 := Next(s1, Read(r));
    var s3 := Next(s2, Mint(r, next));
    var s4 := Next(s3, Swap(r));
    var s5 := Next(s4, RevokeFamily(r, true));
    calc {
      Exec(s, Attempt(r, k, jti, next));
      Exec(s1, [Read(r), Mint(r, next), Swap(r), RevokeFamily(r, true)]);
      Exec(s2, [Mint(r, next), Swap(r), RevokeFamily(r, true)]);
      Exec(s3, [Swap(r), RevokeFamily(r, true)]);
      Exec(s4, [RevokeFamily(r, true)]);
      Exec(s5, []);
      s5;
    }
  }

  // ---- calls that end in an error ------------------------------------

  /** Step `n` is this call's swap, committed with its acknowledgement lost. */
  ghost predicate LosesAck(steps: seq<Step>, n: nat, r: nat)
    requires n < |steps|
  {
    steps[n] == SwapUnacknowledged(r) && Enabled(Exec(Initial(), steps[..n]), steps[n])
  }

  ghost predicate LostBy(h: seq<Install>, r: nat) {
    exists i :: 0 <= i < |h| && h[i].Rotated? && h[i].caller == r && !h[i].acknowledged
  }

  lemma {:induction false} OneStepMore(s: State, steps: seq<Step>, st: Step)
    ensures Exec(s, steps + [st]) == Next(Exec(s, steps), st)
    decreases |steps|
  {
    if steps == [] {
      assert steps + [st] == [st] && [st][1..] == [];
      assert Exec(Next(s, st), []) == Next(s, st);
    } else {
      OneStepMore(Next(s, steps[0]), steps[1..], st);
      assert (steps + [st])[1..] == steps[1..] + [st];
    }
  }

  lemma LostStep(s: State, st: Step, r: nat)
    ensures LostBy(Next(s, st).history, r) <==> LostBy(s.history, r) || (st == SwapUnacknowledged(r) && Enabled(s, st))
  {
    var h, h' := s.history, Next(s, st).history;
    if LostBy(h, r) {
      var i :| 0 <= i < |h| && h[i].Rotated? && h[i].caller == r && !h[i].acknowledged;
      assert h'[i] == h[i];
    }
    if h' != h {
      assert h' == h + [h'[|h|]];
    }
  }

  lemma {:induction false} LostIff(steps: seq<Step>, r: nat)
    ensures LostBy(Exec(Initial(), steps).history, r) <==> exists n :: 0 <= n < |steps| && LosesAck(steps, n, r)
    decreases |steps|
  {
    if steps != [] {
      var m := |steps| - 1;
      var front, last := steps[..m], steps[m];
      assert steps == front + [last];
      OneStepMore(Initial(), front, last);
      LostIff(front, r);
      LostStep(Exec(Initial(), front), last, r);
      assert forall n :: 0 <= n < m ==> front[..n] == steps[..n];
      if n :| 0 <= n < m && LosesAck(front, n, r) {
        assert LosesAck(steps, n, r);
      }
      if n :| 0 <= n < |steps| && LosesAck(steps, n, r) {
        assert n < m ==> LosesAck(front, n, r);
      }
      assert LosesAck(steps, m, r) <==> last == SwapUnacknowledged(r) && Enabled(Exec(Initial(), front), last);
    }
  }

  /**
   A call that was not granted installed a jti exactly when its swap committed with the acknowledgement
   lost; in particular every refusal other than a database error installed nothing.
   */
  lemma RefusedCallInstalledIff(steps: seq<Step>, r: nat)
    requires var s := Exec(Initial(), steps); r in s.reqs && !s.reqs[r].phase.Granted?
    ensures var s := Exec(Initial(), steps);
            && (SwappedBy(s.history, r) <==> exists n :: 0 <= n < |steps| && LosesAck(steps, n, r))
            && (SwappedBy(s.history, r) ==> s.reqs[r].phase == Refused(DbFault))
  {
    InvHolds(Initial(), steps);
    LostIff(steps, r);
    var s := Exec(Initial(), steps);
    SwappedIsLost(s.reqs, s.history, r);
  }

  lemma SwappedIsLost(reqs: map<nat, Request>, h: seq<Install>, r: nat)
    requires GrantsMatch(reqs, h) && r in reqs && !reqs[r].phase.Granted?
    ensures SwappedBy(h, r) <==> LostBy(h, r)
    ensures SwappedBy(h, r) ==> reqs[r].phase == Refused(DbFault)
  {
  }

  /** A consumed jti is not the current one, whoever consumed it and however the session went on. */
  lemma ConsumedIsPast(s: State, e: Install)
    requires Inv(s) && e in s.history && e.Rotated?
    ensures e.key in s.rows && s.rows[e.key].refreshJti != e.consumed
  {
    var k := e.key;
    var c := Of(s.history, k);
    SelectMembers(s.history, (x: Install) => x.key == k, e);
    SelectKeepsDistinct(s.history, k);
    var i :| 0 <= i < |c| && c[i] == e;
    assert c[i - 1].jti != c[|c| - 1].jti;
  }

  /**
   Presenting a token that some swap consumed, acknowledged to its caller or not, on a session that can
   still be read is answered with reuse and revokes the session.
   */
  lemma ConsumedTokenIsReuse(steps: seq<Step>, e: Install, q: nat, next: string)
    requires var s := Exec(Initial(), steps);
             && e in s.history && e.Rotated? && e.key in s.rows && Readable(s.rows[e.key], s.clock)
             && q !in s.reqs && e.consumed != "" && e.key.id != NIL && next != "" && next !in s.issued
    ensures var s := Exec(Initial(), steps);
            var s' := Exec(s, Attempt(q, e.key, e.consumed, next));
            && s'.rows == RevokeWhere(s.rows, OneSession(e.key), s.clock)
            && q in s'.reqs && s'.reqs[q].phase == Refused(RefreshReuse)
  {
    InvHolds(Initial(), steps);
    var s := Exec(Initial(), steps);
    ConsumedIsPast(s, e);
    ReplayedAttempt(s, q, e.key, e.consumed, next);
  }

  lemma ReplayedAttempt(s: State, r: nat, k: Key, jti: string, next: string)
    requires r !in s.reqs && jti != "" && k.id != NIL && next != "" && next !in s.issued
    requires k in s.rows && Readable(s.rows[k], s.clock) && s.rows[k].refreshJti != jti
    ensures var s' := Exec(s, Attempt(r, k, jti, next));
            && s'.rows == RevokeWhere(s.rows, OneSession(k), s.clock)
            && r in s'.reqs && s'.reqs[r].phase == Refused(RefreshReuse)
  {
    FiveSteps(s, Present(r, k, jti), Read(r), Mint(r, next), Swap(r), RevokeFamily(r, true));
    var s3 := Next(Next(Next(s, Present(r, k, jti)), Read(r)), Mint(r, next));
    assert s3.rows == s.rows && s3.clock == s.clock && s3.reqs[r] == Request(k, jti, Minted(next));
    assert Next(s3, Swap(r)) == Advance(s3, r, ReuseSeen);
  }

  lemma FiveSteps(s: State, a: Step, b: Step, c: Step, d: Step, e: Step)
    ensures Exec(s, [a, b, c, d, e]) == Next(Next(Next(Next(Next(s, a), b), c), d), e)
  {
    calc {
      Exec(s, [a, b, c, d, e]);
      Exec(Next(s, a), [b, c, d, e]);
      Exec(Next(Next(s, a), b), [c, d, e]);
      Exec(Next(Next(Next(s, a), b), c), [d, e]);
      Exec(Next(Next(Next(Next(s, a), b), c), d), [e]);
      Exec(Next(Next(Next(Next(Next(s, a), b), c), d), e), []);
    }
  }

  /** No swap but this call's own was made on the session since `h`. */
  ghost predicate NoOtherSwap(h: seq<Install>, h': seq<Install>, k: Key, r: nat) {
    |h| <= |h'| && forall i :: |h| <= i < |h'| && h'[i].key == k && h'[i].Rotated? ==> h'[i].caller == r
  }

  lemma {:induction false} HistoryGrows(s: State, steps: seq<Step>)
    ensures s.history <= Exec(s, steps).history && s.rows.Keys <= Exec(s, steps).rows.Keys
    decreases |steps|
  {
    if steps != [] {
      HistoryGrows(Next(s, steps[0]), steps[1..]);
    }
  }

  lemma {:induction false} SameInstalls(h: seq<Install>, h': seq<Install>, k: Key)
    requires h <= h' && forall i :: |h| <= i < |h'| ==> h'[i].key != k
    ensures Of(h', k) == Of(h, k)
    decreases |h'|
  {
    if |h| == |h'| {
      assert h == h';
    } else {
      SameInstalls(h, h'[..|h'| - 1], k);
    }
  }

  /**
   A call that failed without swapping costs its client nothing: if the presented jti was the current one
   at some point since which no other call swapped on the session, then presenting it again succeeds
   exactly when the session is still live.
   */
  lemma FailedCallCanRetry(before: seq<Step>, after: seq<Step>, r: nat, q: nat, next: string)
    requires var s0 := Exec(Initial(), before);
             var s := Exec(s0, after);
             && r in s.reqs && !SwappedBy(s.history, r) && s.reqs[r].key in s0.rows
             && s0.rows[s.reqs[r].key].refreshJti == s.reqs[r].jti
             && NoOtherSwap(s0.history, s.history, s.reqs[r].key, r)
             && q !in s.reqs && s.reqs[r].jti != "" && s.reqs[r].key.id != NIL && next != "" && next !in s.issued
    ensures var s := Exec(Exec(Initial(), before), after);
            var k, j := s.reqs[r].key, s.reqs[r].jti;
            && k in s.rows && s.rows[k].refreshJti == j
            && var s' := Exec(s, Attempt(q, k, j, next));
               q in s'.reqs && (s'.reqs[q].phase == Granted(next) <==> Live(s.rows[k], s.clock))
  {
    var s0 := Exec(Initial(), before);
    var s := Exec(s0, after);
    var k := s.reqs[r].key;
    InvHolds(Initial(), before);
    InvHolds(s0, after);
    HistoryGrows(s0, after);
    NothingNewInstalled(s0, s, k, r);
    OnlyCurrentTokenWorks(s, q, k, s.reqs[r].jti, next);
  }

  lemma NothingNewInstalled(s0: State, s: State, k: Key, r: nat)
    requires Inv(s0) && Inv(s) && s0.history <= s.history && k in s0.rows && k in s.rows
    requires !SwappedBy(s.history, r) && NoOtherSwap(s0.history, s.history, k, r)
    ensures s.rows[k].refreshJti == s0.rows[k].refreshJti
  {
    forall i | |s0.history| <= i < |s.history| ensures s.history[i].key != k {
      if s.history[i].key == k && s.history[i].Opened? {
        OneOpening(s0, s, k, i);
      }
    }
    SameInstalls(s0.history, s.history, k);
  }

  /** A session with installs is not opened again. */
  lemma OneOpening(s0: State, s: State, k: Key, i: nat)
    requires Inv(s0) && Inv(s) && s0.history <= s.history && k in s0.rows && k in s.rows
    requires |s0.history| <= i < |s.history| && s.history[i].key == k
    ensures s.history[i].Rotated?
  {
    PlaceOf(s.history, k, i);
    OfGrows(s0.history, s.history[..i], k);
  }

  lemma {:induction false} PlaceOf(h: seq<Install>, k: Key, i: nat)
    requires i < |h| && h[i].key == k
    ensures |Of(h[..i], k)| < |Of(h, k)| && Of(h, k)[|Of(h[..i], k)|] == h[i]
    decreases |h|
  {
    var front := h[..|h| - 1];
    if i < |front| {
      PlaceOf(front, k, i);
      assert front[..i] == h[..i];
    }
  }

  lemma {:induction false} OfGrows(h: seq<Install>, h': seq<Install>, k: Key)
    requires h <= h'
    ensures |Of(h, k)| <= |Of(h', k)|
    decreases |h'|
  {
    if |h| == |h'| {
      assert h == h';
    } else {
      OfGrows(h, h'[..|h'| - 1], k);
    }
  }

  /**
   On a live session the reuse signal means what it says: a jti that was once current is refused
   at the swap exactly when an earlier swap consumed it.
   */
  lemma ReuseMeansConsumed(steps: seq<Step>, r: nat)
    requires var s := Exec(Initial(), steps);
             && Enabled(s, Swap(r))
             && s.reqs[r].key in s.rows && Live(s.rows[s.reqs[r].key], s.clock)
             && exists e :: e in Of(s.history, s.reqs[r].key) && e.jti == s.reqs[r].jti
    ensures var s := Exec(Initial(), steps);
            var k, j := s.reqs[r].key, s.reqs[r].jti;
            Next(s, Swap(r)).reqs[r].phase.ReuseSeen? <==>
              exists e :: e in Of(s.history, k) && e.Rotated? && e.consumed == j
  {
    InvHolds(Initial(), steps);
    var s := Exec(Initial(), steps);
    var k, j := s.reqs[r].key, s.reqs[r].jti;
    var c := Of(s.history, k);
    SelectKeepsDistinct(s.history, k);
    var i :| 0 <= i < |c| && c[i].jti == j;
    if i < |c| - 1 {
      assert c[i + 1] in c && c[i + 1].Rotated? && c[i + 1].consumed == j;
    } else {
      forall e | e in c && e.Rotated? ensures e.consumed != j {
        var m :| 0 <= m < |c| && c[m] == e;
        assert c[m - 1].jti != c[|c| - 1].jti;
      }
    }
  }

  /** The signal also fires on an unconsumed current jti when the session dies between read and swap. */
  lemma ReuseWithoutConsumption()
    ensures var k := Key(1, 1);
            var s := Exec(Initial(), [Login(k, 1, 1, "a"), Present(7, k, "a"), Read(7), Mint(7, "b"), Tick(1),
                                      Swap(7)]);
            7 in s.reqs && s.reqs[7].phase == ReuseSeen && forall i :: 0 <= i < |s.history| ==> !s.history[i].Rotated?
  {
    var k := Key(1, 1);
    var s1 := Next(Initial(), Login(k, 1, 1, "a"));
    var s2 := Next(s1, Present(7, k, "a"));
    var s3 := Next(s2, Read(7));
    var s4 := Next(s3, Mint(7, "b"));
    var s5 := Next(s4, Tick(1));
    var s6 := Next(s5, Swap(7));
    assert "a" != "b" && "b" !in s1.issued;
    SixSteps(Initial(), Login(k, 1, 1, "a"), Present(7, k, "a"), Read(7), Mint(7, "b"), Tick(1), Swap(7));
  }

  lemma SixSteps(s: State, a: Step, b: Step, c: Step, d: Step, e: Step, f: Step)
    ensures Exec(s, [a, b, c, d, e, f]) == Next(Next(Next(Next(Next(Next(s, a), b), c), d), e), f)
  {
    var s1 := Next(s, a);
    var s2 := Next(s1, b);
    var s3 := Next(s2, c);
    var s4 := Next(s3, d);
    var s5 := Next(s4, e);
    calc {
      Exec(s, [a, b, c, d, e, f]);
      Exec(s1, [b, c, d, e, f]);
      Exec(s2, [c, d, e, f]);
      Exec(s3, [d, e, f]);
      Exec(s4, [e, f]);
      Exec(s5, [f]);
      Exec(Next(s5, f), []);
    }
  }

  /** Refreshing never extends a session: every swap of a login with lifetime `ttl` comes before login + ttl. */
  lemma LifetimeIsAbsolute(before: seq<Step>, login: Step, after: seq<Step>)
    requires login.Login? && Enabled(Exec(Initial(), before), login)
    ensures var s := Exec(Initial(), before);
            var s' := Exec(Next(s, login), after);
            forall e :: e in Of(s'.history, login.key) && e.Rotated? ==> e.at < s.clock + login.ttl
  {
    var s := Exec(Initial(), before);
    var s1 := Next(s, login);
    var s' := Exec(s1, after);
    assert Inv(s') by {
      InvHolds(Initial(), before);
      InvKept(s, login);
      InvHolds(s1, after);
    }
    ExpiryNeverMoves(s1, after, login.key);
    forall e | e in Of(s'.history, login.key) && e.Rotated? ensures e.at < s.clock + login.ttl {
      SwapPrecedesExpiry(s'.rows, s'.history, login.key, e);
    }
  }

  lemma SwapPrecedesExpiry(rows: Table, h: seq<Install>, k: Key, e: Install)
    requires RowsMatch(rows, h) && e in Of(h, k) && e.Rotated?
    ensures k in rows && e.at < rows[k].expiresAt
  {
    SelectMembers(h, (x: Install) => x.key == k, e);
  }

  lemma {:induction false} ExpiryNeverMoves(s: State, steps: seq<Step>, k: Key)
    requires k in s.rows
    ensures k in Exec(s, steps).rows && Exec(s, steps).rows[k].expiresAt == s.rows[k].expiresAt
    decreases |steps|
  {
    if steps != [] {
      var s' := Next(s, steps[0]);
      assert k in s'.rows && s'.rows[k].expiresAt == s.rows[k].expiresAt;
      ExpiryNeverMoves(s', steps[1..], k);
    }
  }
}
