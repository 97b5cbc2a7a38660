/**
 What polling achieves: after a tick the newest usable secret of every reference is in the ring, and the
 primary reference's is the signing key, at every tick of every run, unless the primary is also listed as
 a verify-only reference.
 */
module KeyInstallation {
  import opened Common
  import opened KeyRing
  import opened KeyRefresher

  /** The key a secret becomes: named by reference and version, with the secret's bytes as its material. */
  lemma LoadedKeyMeans(c: Crypto, r: string, v: Secret, name: string)
    ensures LoadedKey(c, HS256, r, v) == Some(SigningKey(DeriveKid(r, v.version), HS256, v.bytes, None, None,
                                                         v.version))
    ensures LoadedKey(c, RS256, r, v).Some? <==> c.parsePem(v.bytes).Some?
    ensures c.parsePem(v.bytes).Some? ==>
              var priv := c.parsePem(v.bytes).value;
              LoadedKey(c, RS256, r, v) == Some(SigningKey(DeriveKid(r, v.version), RS256, [], Some(priv),
                                                           Some(c.publicOf(priv)), v.version))
    ensures LoadedKey(c, OtherAlg(name), r, v) == None
  {
  }

  /** The provider answered, and what it answered can sit in a ring. */
  predicate UsableAnswer(c: Crypto, alg: Algorithm, r: string, answer: Option<Secret>) {
    && answer.Some? && LoadedKey(c, alg, r, answer.value).Some?
    && ValidKey(LoadedKey(c, alg, r, answer.value).value)
  }

  /** The recorded versions are true: each is in the ring under its kid, and the primary's is the signing key. */
  ghost predicate Honest(u: Setup, s: View) {
    && (forall r :: r in s.current ==> DeriveKid(r, s.current[r]) in s.ring.byKid)
    && (u.primary in s.current ==> s.ring.primaryKid == DeriveKid(u.primary, s.current[u.primary]))
  }

  /** One check of a usable answer leaves its kid in the ring; of the primary, as the signing kid. */
  lemma CheckInstalls(c: Crypto, alg: Algorithm, u: Setup, s: View, r: string, isPrimary: bool, answer: Option<Secret>)
    requires ValidRing(s.ring) && Honest(u, s) && (isPrimary <==> r == u.primary)
    ensures var (s', ok) := Check(c, alg, s, r, isPrimary, answer);
            && Honest(u, s')
            && (!isPrimary ==> s'.ring.primaryKid == s.ring.primaryKid)
            && (forall kid :: kid in s.ring.byKid ==> kid in s'.ring.byKid)
            && (UsableAnswer(c, alg, r, answer) ==> ok)
            && (ok ==>
                  && answer.Some? && DeriveKid(r, answer.value.version) in s'.ring.byKid
                  && (isPrimary ==> s'.ring.primaryKid == DeriveKid(r, answer.value.version)))
  {
  }

  /** The verify-only references of a tick, one after another. */
  lemma {:induction false} RefsInstalled(c: Crypto, alg: Algorithm, u: Setup, s: View, refs: seq<string>,
                                         answers: seq<Option<Secret>>)
    requires |refs| == |answers| && ValidRing(s.ring) && Honest(u, s) && u.primary !in refs
    ensures var s' := CheckRefs(c, alg, s, refs, answers);
            && ValidRing(s'.ring) && Honest(u, s') && s'.ring.primaryKid == s.ring.primaryKid
            && (forall kid :: kid in s.ring.byKid ==> kid in s'.ring.byKid)
            && (forall i :: 0 <= i < |refs| && UsableAnswer(c, alg, refs[i], answers[i]) ==>
                  DeriveKid(refs[i], answers[i].value.version) in s'.ring.byKid)
  {
    if refs != [] {
      var n := |refs| - 1;
      RefsInstalled(c, alg, u, s, refs[..n], answers[..n]);
      var mid := CheckRefs(c, alg, s, refs[..n], answers[..n]);
      CheckInstalls(c, alg, u, mid, refs[n], false, answers[n]);
      CheckLoads(c, alg, mid, refs[n], false, answers[n]);
      assert forall i :: 0 <= i < n ==> refs[i] == refs[..n][i] && answers[i] == answers[..n][i];
    }
  }

  /** After a tick: the primary's kid signs and every usable answer's kid is in the ring. */
  lemma TickInstallsKids(c: Crypto, alg: Algorithm, u: Setup, s: View, answers: seq<Option<Secret>>)
    requires |answers| == |u.refs| + 1 && ValidRing(s.ring) && Honest(u, s) && u.primary !in u.refs
    ensures var s' := Tick(c, alg, s, u.primary, u.refs, answers);
            && ValidRing(s'.ring) && Honest(u, s')
            && (UsableAnswer(c, alg, u.primary, answers[0]) ==>
                  && s'.ring.primaryKid == DeriveKid(u.primary, answers[0].value.version)
                  && forall i :: 0 <= i < |u.refs| && UsableAnswer(c, alg, u.refs[i], answers[i + 1]) ==>
                       DeriveKid(u.refs[i], answers[i + 1].value.version) in s'.ring.byKid)
  {
    CheckInstalls(c, alg, u, s, u.primary, true, answers[0]);
    CheckLoads(c, alg, s, u.primary, true, answers[0]);
    var (s1, ok) := Check(c, alg, s, u.primary, true, answers[0]);
    if ok {
      RefsInstalled(c, alg, u, s1, u.refs, answers[1..]);
      assert forall i :: 0 <= i < |u.refs| ==> answers[1..][i] == answers[i + 1];
    }
  }

  /** The ring holds this reference's key as the provider has it. */
  ghost predicate Holds(c: Crypto, alg: Algorithm, ring: RingState, r: string, v: Secret) {
    var key := LoadedKey(c, alg, r, v);
    key.Some? && key.value.kid in ring.byKid && ring.byKid[key.value.kid] == key.value
  }

  /** With a versioned provider the kids carry the material the provider answered, whenever it was loaded. */
  lemma TickInstallsKeys(c: Crypto, alg: Algorithm, book: Book, u: Setup, s: View, answers: seq<Option<Secret>>)
    requires ValidRing(s.ring) && RingFromBook(c, alg, book, Known(u), s.ring) && DistinctWhenFlat(Known(u))
    requires GoodAnswers(book, u, answers) && Honest(u, s) && u.primary !in u.refs
    requires UsableAnswer(c, alg, u.primary, answers[0])
    ensures var s' := Tick(c, alg, s, u.primary, u.refs, answers);
            && ValidRing(s'.ring) && Honest(u, s') && Holds(c, alg, s'.ring, u.primary, answers[0].value)
            && s'.ring.byKid[s'.ring.primaryKid] == LoadedKey(c, alg, u.primary, answers[0].value).value
            && forall i :: 0 <= i < |u.refs| && UsableAnswer(c, alg, u.refs[i], answers[i + 1]) ==>
                 Holds(c, alg, s'.ring, u.refs[i], answers[i + 1].value)
  {
    TickInstallsKids(c, alg, u, s, answers);
    TickExtends(c, alg, book, u, s, answers);
    var ring := Tick(c, alg, s, u.primary, u.refs, answers).ring;
    HeldAsAnswered(c, alg, book, u, ring, u.primary, answers[0].value);
    forall i | 0 <= i < |u.refs| && UsableAnswer(c, alg, u.refs[i], answers[i + 1])
      ensures Holds(c, alg, ring, u.refs[i], answers[i + 1].value)
    {
      assert FromBook(book, u.refs[i], answers[i + 1]);
      HeldAsAnswered(c, alg, book, u, ring, u.refs[i], answers[i + 1].value);
    }
  }

  lemma HeldAsAnswered(c: Crypto, alg: Algorithm, book: Book, u: Setup, ring: RingState, r: string, v: Secret)
    requires ValidRing(ring) && RingFromBook(c, alg, book, Known(u), ring) && DistinctWhenFlat(Known(u))
    requires r in Known(u) && FromBook(book, r, Some(v)) && UsableAnswer(c, alg, r, Some(v))
    requires DeriveKid(r, v.version) in ring.byKid
    ensures Holds(c, alg, ring, r, v)
    ensures LoadedKey(c, alg, r, v).value.kid == DeriveKid(r, v.version)
  {
    assert v == Secret(book(r, v.version), v.version);
    SameKidSameKey(c, alg, book, Known(u), ring, r, v.version, LoadedKey(c, alg, r, v).value);
  }

  lemma {:induction false} RunStaysHonest(c: Crypto, alg: Algorithm, u: Setup, s: View,
                                          ticks: seq<seq<Option<Secret>>>)
    requires ValidRing(s.ring) && Honest(u, s) && u.primary !in u.refs
    requires forall i :: 0 <= i < |ticks| ==> |ticks[i]| == |u.refs| + 1
    ensures ValidRing(Run(c, alg, s, u, ticks).ring) && Honest(u, Run(c, alg, s, u, ticks))
    decreases |ticks|
  {
    if ticks != [] {
      TickInstallsKids(c, alg, u, s, ticks[0]);
      RunStaysHonest(c, alg, u, Tick(c, alg, s, u.primary, u.refs, ticks[0]), ticks[1..]);
    }
  }

  /**
   The promise of polling: whatever earlier ticks did, after a tick in which the primary's answer is usable
   new tokens are signed with exactly that key, and each other usable answer is in the ring.
   */
  lemma NewestKeysAreInstalled(c: Crypto, alg: Algorithm, book: Book, u: Setup, first: SigningKey, version: string,
                               before: seq<seq<Option<Secret>>>, answers: seq<Option<Secret>>)
    requires DistinctWhenFlat(Known(u)) && u.primary !in u.refs
    requires ValidKey(first) && BookKey(c, alg, book, u.primary, version, first)
    requires forall i :: 0 <= i < |before| ==> |before[i]| == |u.refs| + 1 && GoodAnswers(book, u, before[i])
    requires GoodAnswers(book, u, answers) && UsableAnswer(c, alg, u.primary, answers[0])
    ensures var s := Run(c, alg, View(RingState(first.kid, map[first.kid := first]), map[u.primary := version]), u,
                         before);
            var ring := Tick(c, alg, s, u.primary, u.refs, answers).ring;
            && ring.primaryKid in ring.byKid
            && ring.byKid[ring.primaryKid] == LoadedKey(c, alg, u.primary, answers[0].value).value
            && forall i :: 0 <= i < |u.refs| && UsableAnswer(c, alg, u.refs[i], answers[i + 1]) ==>
                 Holds(c, alg, ring, u.refs[i], answers[i + 1].value)
  {
    var s0 := View(RingState(first.kid, map[first.kid := first]), map[u.primary := version]);
    assert u.primary in Known(u) && BookKey(c, alg, book, u.primary, version, s0.ring.byKid[first.kid]);
    RunExtends(c, alg, book, u, s0, before);
    RunStaysHonest(c, alg, u, s0, before);
    var s := Run(c, alg, s0, u, before);
    TickInstallsKeys(c, alg, book, u, s, answers);
    TickExtends(c, alg, book, u, s, answers);
  }

  // ------------------------------------------------------------------
  // A primary that is also listed as verify-only
  // ------------------------------------------------------------------

  /** Only reference `i` answers. */
  function OnlyRef(n: nat, i: nat, answer: Secret): seq<Option<Secret>> {
    seq(n, j => if j == i then Some(answer) else None)
  }

  lemma {:induction false} SilentRefs(c: Crypto, alg: Algorithm, s: View, refs: seq<string>,
                                      answers: seq<Option<Secret>>)
    requires |refs| == |answers| && forall j :: 0 <= j < |answers| ==> answers[j].None?
    ensures CheckRefs(c, alg, s, refs, answers) == s
  {
    if refs != [] {
      SilentRefs(c, alg, s, refs[..|refs| - 1], answers[..|refs| - 1]);
    }
  }

  lemma {:induction false} OneRefAnswers(c: Crypto, alg: Algorithm, s: View, refs: seq<string>, i: nat, v: Secret)
    requires i < |refs|
    ensures CheckRefs(c, alg, s, refs, OnlyRef(|refs|, i, v)) == Check(c, alg, s, refs[i], false, Some(v)).0
    decreases |refs|
  {
    var n := |refs| - 1;
    var answers := OnlyRef(|refs|, i, v);
    if i == n {
      SilentRefs(c, alg, s, refs[..n], answers[..n]);
    } else {
      assert answers[..n] == OnlyRef(n, i, v);
      OneRefAnswers(c, alg, s, refs[..n], i, v);
    }
  }

  /**
   With the primary listed among the verify-only references, for every such setup: the secret rotates between
   the two reads of one tick, the verify-only check records the new version, and from then on the primary check
   finds it up to date. The new key never becomes the signing key, however often the provider answers it.
   */
  lemma ListedPrimaryIsStuck(c: Crypto, alg: Algorithm, u: Setup, i: nat, s: View, v1: Secret, v2: Secret, later: nat)
    requires i < |u.refs| && u.refs[i] == u.primary && ValidRing(s.ring) && Honest(u, s)
    requires u.primary in s.current && s.current[u.primary] == v1.version && v1.version != ""
    requires v2.version != "" && v2.version != v1.version && UsableAnswer(c, alg, u.primary, Some(v2))
    ensures var s1 := Tick(c, alg, s, u.primary, u.refs, [Some(v1)] + OnlyRef(|u.refs|, i, v2));
            var s2 := Run(c, alg, s1, u, seq(later, _ => [Some(v2)] + OnlyRef(|u.refs|, i, v2)));
            s2.ring.primaryKid == s.ring.primaryKid && s.ring.primaryKid != DeriveKid(u.primary, v2.version)
  {
    var first := [Some(v1)] + OnlyRef(|u.refs|, i, v2);
    assert first[1..] == OnlyRef(|u.refs|, i, v2);
    OneRefAnswers(c, alg, s, u.refs, i, v2);
    DeriveKidInjective(u.primary, v1.version, u.primary, v2.version);
    StaysStuck(c, alg, u, i, Tick(c, alg, s, u.primary, u.refs, first), v2, later);
  }

  lemma {:induction false} StaysStuck(c: Crypto, alg: Algorithm, u: Setup, i: nat, s: View, v: Secret, later: nat)
    requires i < |u.refs| && u.refs[i] == u.primary && v.version != ""
    requires u.primary in s.current && s.current[u.primary] == v.version
    ensures Run(c, alg, s, u, seq(later, _ => [Some(v)] + OnlyRef(|u.refs|, i, v))) == s
  {
    if later > 0 {
      var again := [Some(v)] + OnlyRef(|u.refs|, i, v);
      assert again[1..] == OnlyRef(|u.refs|, i, v);
      OneRefAnswers(c, alg, s, u.refs, i, v);
      var ticks := seq(later, _ => again);
      assert ticks[1..] == seq(later - 1, _ => again);
      StaysStuck(c, alg, u, i, s, v, later - 1);
    }
  }
}
