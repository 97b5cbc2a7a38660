/**
 The polling refresher that loads key material from a secret provider into the ring, and the
 promise it exists for: tokens signed before a rotation keep verifying after it.
 */
module KeyRefresher {
  import opened Common
  import opened KeyRing
  import opened KeyRingStore

  datatype Secret = Secret(bytes: Bytes, version: string)

  // ------------------------------------------------------------------
  // Key identifiers
  // ------------------------------------------------------------------

  /** The reference with `/` and `.` replaced by `_`. */
  function Flatten(r: string): (f: string)
    ensures |f| == |r| && '.' !in f
    ensures forall i :: 0 <= i < |r| ==> f[i] == if r[i] == '/' || r[i] == '.' then '_' else r[i]
  {
    if r == "" then "" else [if r[0] == '/' || r[0] == '.' then '_' else r[0]] + Flatten(r[1..])
  }

  function DeriveKid(r: string, version: string): string {
    if version == "" then Flatten(r) else Flatten(r) + "." + version
  }

  lemma DotComesAfter(k: string, f: string, i: nat)
    requires f <= k && '.' !in f && i < |k| && k[i] == '.'
    ensures i >= |f|
  {
    assert forall j :: 0 <= j < |f| ==> k[j] == f[j] && f[j] in f;
  }

  /** The first dot separates reference and version, so a kid determines both, the reference up to flattening. */
  lemma DeriveKidInjective(r1: string, v1: string, r2: string, v2: string)
    ensures DeriveKid(r1, v1) == DeriveKid(r2, v2) <==> Flatten(r1) == Flatten(r2) && v1 == v2
  {
    if DeriveKid(r1, v1) == DeriveKid(r2, v2) {
      var f1, f2, k := Flatten(r1), Flatten(r2), DeriveKid(r1, v1);
      if v1 != "" {
        DotComesAfter(k, f2, |f1|);
      }
      if v2 != "" {
        DotComesAfter(k, f1, |f2|);
      }
      assert |f1| == |f2|;
      assert f1 == k[..|f1|] == f2;
      if v1 != "" && v2 != "" {
        assert v1 == k[|f1| + 1..] == v2;
      }
    }
  }

  // ------------------------------------------------------------------
  // One check and one tick
  // ------------------------------------------------------------------

  /** The key a secret becomes; None when the algorithm is unsupported or the PEM does not parse. */
  function LoadedKey(c: Crypto, alg: Algorithm, r: string, v: Secret): Option<SigningKey> {
    var kid := DeriveKid(r, v.version);
    match alg
    case HS256 => Some(SigningKey(kid, alg, v.bytes, None, None, v.version))
    case RS256 =>
      var priv := c.parsePem(v.bytes);
      if priv.None? then None
      else Some(SigningKey(kid, alg, [], priv, Some(c.publicOf(priv.value)), v.version))
    case OtherAlg(_) => None
  }

  /** The ring and the version last seen per reference. */
  datatype View = View(ring: RingState, current: map<string, string>)

  predicate UpToDate(s: View, r: string, v: Secret) {
    v.version != "" && v.version == (if r in s.current then s.current[r] else "")
  }

  function LoadOp(key: SigningKey, isPrimary: bool): Op {
    if isPrimary then SwapPrimary(key.kid, [key]) else AddVerifier(key)
  }

  /** One reference: the new view, and whether the check reported success. A failed check changes nothing. */
  function Check(c: Crypto, alg: Algorithm, s: View, r: string, isPrimary: bool, answer: Option<Secret>): (View, bool) {
    if answer.None? then (s, false)
    else if UpToDate(s, r, answer.value) then (s, true)
    else
      var key := LoadedKey(c, alg, r, answer.value);
      if key.None? then (s, false)
      else
        var (ring', reply) := Outcome(s.ring, LoadOp(key.value, isPrimary));
        if reply.Done? then (View(ring', s.current[r := answer.value.version]), true) else (s, false)
  }

  /** The verify-only references, one after another; their failures do not stop the tick. */
  function CheckRefs(c: Crypto, alg: Algorithm, s: View, refs: seq<string>, answers: seq<Option<Secret>>): View
    requires |refs| == |answers|
  {
    if refs == [] then s
    else Check(c, alg, CheckRefs(c, alg, s, refs[..|refs| - 1], answers[..|refs| - 1]),
               refs[|refs| - 1], false, answers[|refs| - 1]).0
  }

  /** One poll: the primary reference first, the others only if it did not fail. */
  function Tick(c: Crypto, alg: Algorithm, s: View, primary: string, refs: seq<string>,
                answers: seq<Option<Secret>>): View
    requires |answers| == |refs| + 1
  {
    var (s1, ok) := Check(c, alg, s, primary, true, answers[0]);
    if ok then CheckRefs(c, alg, s1, refs, answers[1..]) else s1
  }

  lemma CheckRefsStep(c: Crypto, alg: Algorithm, s: View, refs: seq<string>, answers: seq<Option<Secret>>, i: nat)
    requires |refs| == |answers| && i < |refs|
    ensures CheckRefs(c, alg, s, refs[..i + 1], answers[..i + 1])
         == Check(c, alg, CheckRefs(c, alg, s, refs[..i], answers[..i]), refs[i], false, answers[i]).0
  {
    assert refs[..i + 1][..i] == refs[..i] && answers[..i + 1][..i] == answers[..i];
  }

  class Refresher {
    const ring: Ring
    const crypto: Crypto
    const alg: Algorithm
    const primaryRef: string
    const verifyRefs: seq<string>
    var current: map<string, string>

    constructor (ring: Ring, crypto: Crypto, alg: Algorithm, primaryRef: string, verifyRefs: seq<string>,
                 current: map<string, string>)
      ensures this.ring == ring && this.crypto == crypto && this.alg == alg
      ensures this.primaryRef == primaryRef && this.verifyRefs == verifyRefs && this.current == current
    {
      this.ring, this.crypto, this.alg := ring, crypto, alg;
      this.primaryRef, this.verifyRefs, this.current := primaryRef, verifyRefs, current;
    }

    ghost function Seen(): View reads this, ring { View(ring.state, current) }

    method CheckOne(r: string, isPrimary: bool, answer: Option<Secret>) returns (ok: bool)
      requires ring.Valid()
      modifies this`current, ring
      ensures ring.Valid()
      ensures (Seen(), ok) == Check(crypto, alg, old(Seen()), r, isPrimary, answer)
    {
      if answer.None? {
        return false;
      }
      var val := answer.value;
      var prev := if r in current then current[r] else "";
      if val.version != "" && val.version == prev {
        return true;
      }
      var key := LoadedKey(crypto, alg, r, val);
      if key.None? {
        return false;
      }
      if isPrimary {
        ok := ring.SwapPrimary(key.value.kid, [key.value]);
      } else {
        ok := ring.AddVerifier(key.value);
      }
      if ok {
        current := current[r := val.version];
      }
    }

    method RefreshOnce(answers: seq<Option<Secret>>) returns (ok: bool)
      requires ring.Valid() && |answers| == |verifyRefs| + 1
      modifies this`current, ring
      ensures ring.Valid()
      ensures Seen() == Tick(crypto, alg, old(Seen()), primaryRef, verifyRefs, answers)
      ensures ok == Check(crypto, alg, old(Seen()), primaryRef, true, answers[0]).1
    {
      ok := CheckOne(primaryRef, true, answers[0]);
      if !ok {
        return;
      }
      ghost var s1 := Seen();
      ghost var tail := answers[1..];
      var i := 0;
      while i < |verifyRefs|
        invariant 0 <= i <= |verifyRefs|
        invariant ring.Valid()
        invariant Seen() == CheckRefs(crypto, alg, s1, verifyRefs[..i], tail[..i])
      {
        var _ := CheckOne(verifyRefs[i], false, answers[i + 1]);
        CheckRefsStep(crypto, alg, s1, verifyRefs, tail, i);
        i := i + 1;
      }
      assert verifyRefs[..i] == verifyRefs && tail[..i] == tail;
    }
  }

  // ------------------------------------------------------------------
  // Old tokens keep verifying
  // ------------------------------------------------------------------

  /** Every key of `s` is in `s'` with the same material. */
  ghost predicate Extends(s: RingState, s': RingState) {
    forall kid :: kid in s.byKid ==> kid in s'.byKid && s'.byKid[kid] == s.byKid[kid]
  }

  lemma ExtensionKeepsTokens(c: Crypto, alg: Algorithm, s: RingState, s': RingState, t: Token)
    requires Extends(s, s') && Verifies(c, alg, s, t)
    ensures Verifies(c, alg, s', t)
  {
  }

  /** What the provider holds: the bytes of each (reference, version). */
  type Book = (string, string) -> Bytes

  ghost predicate FromBook(book: Book, r: string, answer: Option<Secret>) {
    answer.Some? ==> answer.value.version != "" && answer.value.bytes == book(r, answer.value.version)
  }

  ghost predicate DistinctWhenFlat(refs: set<string>) {
    forall a, b :: a in refs && b in refs && Flatten(a) == Flatten(b) ==> a == b
  }

  ghost predicate BookKey(c: Crypto, alg: Algorithm, book: Book, r: string, version: string, k: SigningKey) {
    version != "" && LoadedKey(c, alg, r, Secret(book(r, version), version)) == Some(k)
  }

  /** Each ring key is some reference's material at some version. */
  ghost predicate RingFromBook(c: Crypto, alg: Algorithm, book: Book, refs: set<string>, s: RingState) {
    forall kid :: kid in s.byKid ==> exists r, v :: r in refs && BookKey(c, alg, book, r, v, s.byKid[kid])
  }

  /** A kid already in the ring carries the material the book prescribes for it. */
  lemma SameKidSameKey(c: Crypto, alg: Algorithm, book: Book, refs: set<string>, s: RingState, r: string, v: string,
                       key: SigningKey)
    requires ValidRing(s) && RingFromBook(c, alg, book, refs, s) && DistinctWhenFlat(refs)
    requires r in refs && BookKey(c, alg, book, r, v, key) && key.kid in s.byKid
    ensures s.byKid[key.kid] == key
  {
    var r2, v2 :| r2 in refs && BookKey(c, alg, book, r2, v2, s.byKid[key.kid]);
    DeriveKidInjective(r, v, r2, v2);
  }

  lemma CheckLoads(c: Crypto, alg: Algorithm, s: View, r: string, isPrimary: bool, answer: Option<Secret>)
    requires ValidRing(s.ring)
    ensures var s' := Check(c, alg, s, r, isPrimary, answer).0;
            && ValidRing(s'.ring)
            && (s'.ring == s.ring
                || (answer.Some? && LoadedKey(c, alg, r, answer.value).Some?
                    && var key := LoadedKey(c, alg, r, answer.value).value;
                    s'.ring.byKid == s.ring.byKid[key.kid := key]))
  {
  }

  lemma CheckExtends(c: Crypto, alg: Algorithm, book: Book, refs: set<string>, s: View, r: string, isPrimary: bool,
                     answer: Option<Secret>)
    requires ValidRing(s.ring) && RingFromBook(c, alg, book, refs, s.ring)
    requires DistinctWhenFlat(refs) && r in refs && FromBook(book, r, answer)
    ensures var s' := Check(c, alg, s, r, isPrimary, answer).0;
            ValidRing(s'.ring) && Extends(s.ring, s'.ring) && RingFromBook(c, alg, book, refs, s'.ring)
  {
    CheckLoads(c, alg, s, r, isPrimary, answer);
    var s' := Check(c, alg, s, r, isPrimary, answer).0;
    if s'.ring != s.ring {
      var v := answer.value.version;
      var key := LoadedKey(c, alg, r, answer.value).value;
      assert answer.value == Secret(book(r, v), v);
      assert BookKey(c, alg, book, r, v, key);
      if key.kid in s.ring.byKid {
        SameKidSameKey(c, alg, book, refs, s.ring, r, v, key);
      }
    }
  }

  lemma {:induction false} CheckRefsExtends(c: Crypto, alg: Algorithm, book: Book, known: set<string>, s: View,
                                            refs: seq<string>, answers: seq<Option<Secret>>)
    requires |refs| == |answers|
    requires ValidRing(s.ring) && RingFromBook(c, alg, book, known, s.ring) && DistinctWhenFlat(known)
    requires forall i :: 0 <= i < |refs| ==> refs[i] in known && FromBook(book, refs[i], answers[i])
    ensures var s' := CheckRefs(c, alg, s, refs, answers);
            ValidRing(s'.ring) && Extends(s.ring, s'.ring) && RingFromBook(c, alg, book, known, s'.ring)
  {
    if refs != [] {
      var n := |refs| - 1;
      CheckRefsExtends(c, alg, book, known, s, refs[..n], answers[..n]);
      CheckExtends(c, alg, book, known, CheckRefs(c, alg, s, refs[..n], answers[..n]), refs[n], false, answers[n]);
    }
  }

  /** A configured refresher: the references, and the ticks' provider answers. */
  datatype Setup = Setup(primary: string, refs: seq<string>)

  ghost function Known(u: Setup): set<string> { {u.primary} + set r | r in u.refs }

  /** The primary's answer, then one per verify-only reference. */
  ghost predicate GoodAnswers(book: Book, u: Setup, answers: seq<Option<Secret>>) {
    && |answers| == |u.refs| + 1
    && FromBook(book, u.primary, answers[0])
    && (forall i :: 0 <= i < |u.refs| ==> FromBook(book, u.refs[i], answers[i + 1]))
  }

  lemma TickExtends(c: Crypto, alg: Algorithm, book: Book, u: Setup, s: View, answers: seq<Option<Secret>>)
    requires ValidRing(s.ring) && RingFromBook(c, alg, book, Known(u), s.ring) && DistinctWhenFlat(Known(u))
    requires GoodAnswers(book, u, answers)
    ensures var s' := Tick(c, alg, s, u.primary, u.refs, answers);
            ValidRing(s'.ring) && Extends(s.ring, s'.ring) && RingFromBook(c, alg, book, Known(u), s'.ring)
  {
    CheckExtends(c, alg, book, Known(u), s, u.primary, true, answers[0]);
    var (s1, ok) := Check(c, alg, s, u.primary, true, answers[0]);
    if ok {
      CheckRefsExtends(c, alg, book, Known(u), s1, u.refs, answers[1..]);
    }
  }

  function Run(c: Crypto, alg: Algorithm, s: View, u: Setup, ticks: seq<seq<Option<Secret>>>): View
    requires forall i :: 0 <= i < |ticks| ==> |ticks[i]| == |u.refs| + 1
    decreases |ticks|
  {
    if ticks == [] then s else Run(c, alg, Tick(c, alg, s, u.primary, u.refs, ticks[0]), u, ticks[1..])
  }

  lemma {:induction false} RunExtends(c: Crypto, alg: Algorithm, book: Book, u: Setup, s: View,
                                      ticks: seq<seq<Option<Secret>>>)
    requires ValidRing(s.ring) && RingFromBook(c, alg, book, Known(u), s.ring) && DistinctWhenFlat(Known(u))
    requires forall i :: 0 <= i < |ticks| ==> |ticks[i]| == |u.refs| + 1
    requires forall i :: 0 <= i < |ticks| ==> GoodAnswers(book, u, ticks[i])
    ensures var s' := Run(c, alg, s, u, ticks);
            ValidRing(s'.ring) && Extends(s.ring, s'.ring) && RingFromBook(c, alg, book, Known(u), s'.ring)
    decreases |ticks|
  {
    if ticks != [] {
      TickExtends(c, alg, book, u, s, ticks[0]);
      RunExtends(c, alg, book, u, Tick(c, alg, s, u.primary, u.refs, ticks[0]), ticks[1..]);
    }
  }

  /**
   The promise: with a versioned provider whose versions never change content, every token that
   verifies before some ticks, with or without a kid header and whoever signed it, verifies after
   them, whatever the provider answers and however often it fails.
   */
  lemma OldTokensKeepVerifying(c: Crypto, alg: Algorithm, book: Book, u: Setup, first: SigningKey, version: string,
                               before: seq<seq<Option<Secret>>>, after: seq<seq<Option<Secret>>>, t: Token)
    requires DistinctWhenFlat(Known(u))
    requires ValidKey(first) && BookKey(c, alg, book, u.primary, version, first)
    requires forall i :: 0 <= i < |before| ==> |before[i]| == |u.refs| + 1 && GoodAnswers(book, u, before[i])
    requires forall i :: 0 <= i < |after| ==> |after[i]| == |u.refs| + 1 && GoodAnswers(book, u, after[i])
    requires var s := Run(c, alg, View(RingState(first.kid, map[first.kid := first]), map[u.primary := version]), u,
                          before);
             Verifies(c, alg, s.ring, t)
    ensures var s := Run(c, alg, View(RingState(first.kid, map[first.kid := first]), map[u.primary := version]), u,
                         before);
            Verifies(c, alg, Run(c, alg, s, u, after).ring, t)
  {
    var s0 := View(RingState(first.kid, map[first.kid := first]), map[u.primary := version]);
    assert u.primary in Known(u) && BookKey(c, alg, book, u.primary, version, s0.ring.byKid[first.kid]);
    RunExtends(c, alg, book, u, s0, before);
    var s := Run(c, alg, s0, u, before);
    RunExtends(c, alg, book, u, s, after);
    ExtensionKeepsTokens(c, alg, s.ring, Run(c, alg, s, u, after).ring, t);
  }

  /** Put together with signing: a token the ring issued at any tick verifies at every later tick. */
  lemma IssuedTokensOutliveRotations(c: Crypto, alg: Algorithm, book: Book, u: Setup, first: SigningKey,
                                     version: string,
                                     before: seq<seq<Option<Secret>>>, after: seq<seq<Option<Secret>>>, payload: string)
    requires Sound(c) && DistinctWhenFlat(Known(u))
    requires ValidKey(first) && BookKey(c, alg, book, u.primary, version, first)
    requires forall i :: 0 <= i < |before| ==> |before[i]| == |u.refs| + 1 && GoodAnswers(book, u, before[i])
    requires forall i :: 0 <= i < |after| ==> |after[i]| == |u.refs| + 1 && GoodAnswers(book, u, after[i])
    ensures var s := Run(c, alg, View(RingState(first.kid, map[first.kid := first]), map[u.primary := version]), u,
                         before);
            && ValidRing(s.ring)
            && Issue(c, alg, s.ring, payload).Some?
            && Verifies(c, alg, Run(c, alg, s, u, after).ring, Issue(c, alg, s.ring, payload).value)
  {
    var s0 := View(RingState(first.kid, map[first.kid := first]), map[u.primary := version]);
    assert u.primary in Known(u) && BookKey(c, alg, book, u.primary, version, s0.ring.byKid[first.kid]);
    RunExtends(c, alg, book, u, s0, before);
    var s := Run(c, alg, s0, u, before);
    var key := s.ring.byKid[s.ring.primaryKid];
    var r, v :| r in Known(u) && BookKey(c, alg, book, r, v, key);
    assert key.algorithm == alg && Paired(c, key);
    IssuedTokenVerifies(c, alg, s.ring, payload);
    OldTokensKeepVerifying(c, alg, book, u, first, version, before, after, Issue(c, alg, s.ring, payload).value);
  }

  // ------------------------------------------------------------------
  // Providers without versions
  // ------------------------------------------------------------------

  /** The check puts a key into the ring. */
  predicate Loads(c: Crypto, alg: Algorithm, s: View, r: string, answer: Option<Secret>) {
    && answer.Some? && !UpToDate(s, r, answer.value)
    && LoadedKey(c, alg, r, answer.value).Some? && ValidKey(LoadedKey(c, alg, r, answer.value).value)
  }

  /** Whatever `was` accepts as a signature over this input, `next` accepts. */
  ghost predicate TakesOver(c: Crypto, alg: Algorithm, was: SigningKey, next: SigningKey, input: string) {
    forall sig :: Accepts(c, alg, was, input, sig) ==> Accepts(c, alg, next, input, sig)
  }

  /** Whatever the key under `kid` accepts over this input, `next` or another key of the ring accepts. */
  ghost predicate RingTakesOver(c: Crypto, alg: Algorithm, ring: RingState, kid: string, next: SigningKey,
                                input: string)
    requires kid in ring.byKid
  {
    forall sig :: Accepts(c, alg, ring.byKid[kid], input, sig) ==>
      Accepts(c, alg, next, input, sig) || OtherAccepts(c, alg, ring, kid, input, sig)
  }

  ghost predicate OtherAccepts(c: Crypto, alg: Algorithm, ring: RingState, kid: string, input: string, sig: Bytes) {
    exists other :: other in ring.byKid && other != kid && Accepts(c, alg, ring.byKid[other], input, sig)
  }

  /** The ring after a check: one key put under its kid, or nothing changed. */
  lemma CheckPuts(c: Crypto, alg: Algorithm, s: View, r: string, isPrimary: bool, answer: Option<Secret>)
    ensures var s' := Check(c, alg, s, r, isPrimary, answer).0;
            if Loads(c, alg, s, r, answer) then
              var key := LoadedKey(c, alg, r, answer.value).value;
              s'.ring.byKid == s.ring.byKid[key.kid := key]
            else s'.ring == s.ring
  {
  }

  /**
   Without versions the same kid can come back with other bytes. A check keeps every kid-stamped token
   exactly when it loads nothing, loads a new kid, or the new material accepts whatever the old accepted
   over each input stamped with that kid.
   */
  lemma StampedTokensSurviveIff(c: Crypto, alg: Algorithm, s: View, r: string, isPrimary: bool, answer: Option<Secret>)
    requires ValidRing(s.ring)
    ensures var s' := Check(c, alg, s, r, isPrimary, answer).0;
            (forall t: Token :: t.kid != "" && Verifies(c, alg, s.ring, t) ==> Verifies(c, alg, s'.ring, t)) <==>
            (Loads(c, alg, s, r, answer) ==>
               var key := LoadedKey(c, alg, r, answer.value).value;
               key.kid in s.ring.byKid ==>
                 forall payload :: TakesOver(c, alg, s.ring.byKid[key.kid], key, c.render(alg, key.kid, payload)))
  {
    CheckPuts(c, alg, s, r, isPrimary, answer);
    if Loads(c, alg, s, r, answer) && LoadedKey(c, alg, r, answer.value).value.kid in s.ring.byKid {
      var ring', key := Check(c, alg, s, r, isPrimary, answer).0.ring, LoadedKey(c, alg, r, answer.value).value;
      StampedOverwrite(c, alg, s.ring, ring', key);
    }
  }

  lemma StampedOverwrite(c: Crypto, alg: Algorithm, ring: RingState, ring': RingState, key: SigningKey)
    requires key.kid in ring.byKid && key.kid != "" && ring'.byKid == ring.byKid[key.kid := key]
    ensures (forall t: Token :: t.kid != "" && Verifies(c, alg, ring, t) ==> Verifies(c, alg, ring', t)) <==>
            forall payload :: TakesOver(c, alg, ring.byKid[key.kid], key, c.render(alg, key.kid, payload))
  {
    var was := ring.byKid[key.kid];
    if forall t: Token :: t.kid != "" && Verifies(c, alg, ring, t) ==> Verifies(c, alg, ring', t) {
      forall payload, sig | Accepts(c, alg, was, c.render(alg, key.kid, payload), sig)
        ensures Accepts(c, alg, key, c.render(alg, key.kid, payload), sig)
      {
        assert Verifies(c, alg, ring, Token(Some(alg), key.kid, payload, sig));
      }
    }
    if forall payload :: TakesOver(c, alg, was, key, c.render(alg, key.kid, payload)) {
      forall t: Token | t.kid != "" && Verifies(c, alg, ring, t) ensures Verifies(c, alg, ring', t) {
        assert TakesOver(c, alg, was, key, c.render(alg, key.kid, t.payload));
      }
    }
  }

  /** The same for tokens without a kid, where another key of the ring may step in. */
  lemma UnstampedTokensSurviveIff(c: Crypto, alg: Algorithm, s: View, r: string, isPrimary: bool,
                                  answer: Option<Secret>)
    requires ValidRing(s.ring)
    ensures var s' := Check(c, alg, s, r, isPrimary, answer).0;
            (forall t: Token :: t.kid == "" && Verifies(c, alg, s.ring, t) ==> Verifies(c, alg, s'.ring, t)) <==>
            (Loads(c, alg, s, r, answer) ==>
               var key := LoadedKey(c, alg, r, answer.value).value;
               key.kid in s.ring.byKid ==>
                 forall payload :: RingTakesOver(c, alg, s.ring, key.kid, key, c.render(alg, "", payload)))
  {
    CheckPuts(c, alg, s, r, isPrimary, answer);
    if Loads(c, alg, s, r, answer) {
      var ring', key := Check(c, alg, s, r, isPrimary, answer).0.ring, LoadedKey(c, alg, r, answer.value).value;
      if key.kid in s.ring.byKid {
        UnstampedOverwrite(c, alg, s.ring, ring', key);
      } else {
        forall t: Token | Verifies(c, alg, s.ring, t) ensures Verifies(c, alg, ring', t) {
          ExtensionKeepsTokens(c, alg, s.ring, ring', t);
        }
      }
    }
  }

  /** A key of the overwritten ring accepts exactly when the new key or one of the others does. */
  lemma SomeKeyAccepts(c: Crypto, alg: Algorithm, ring: RingState, ring': RingState, key: SigningKey, t: Token)
    requires key.kid in ring.byKid && ring'.byKid == ring.byKid[key.kid := key]
    requires t.kid == "" && (t.alg.Some? ==> t.alg.value == alg)
    ensures Verifies(c, alg, ring', t) <==>
            || Accepts(c, alg, key, Input(c, alg, t), t.sig)
            || OtherAccepts(c, alg, ring, key.kid, Input(c, alg, t), t.sig)
    ensures Verifies(c, alg, ring, t) <==>
            || Accepts(c, alg, ring.byKid[key.kid], Input(c, alg, t), t.sig)
            || OtherAccepts(c, alg, ring, key.kid, Input(c, alg, t), t.sig)
  {
    if Accepts(c, alg, key, Input(c, alg, t), t.sig) {
      assert ring'.byKid[key.kid] == key;
    }
    if OtherAccepts(c, alg, ring, key.kid, Input(c, alg, t), t.sig) {
      var other :| other in ring.byKid && other != key.kid
          && Accepts(c, alg, ring.byKid[other], Input(c, alg, t), t.sig);
      assert ring'.byKid[other] == ring.byKid[other];
    }
  }

  lemma UnstampedOverwrite(c: Crypto, alg: Algorithm, ring: RingState, ring': RingState, key: SigningKey)
    requires key.kid in ring.byKid && ring'.byKid == ring.byKid[key.kid := key]
    ensures (forall t: Token :: t.kid == "" && Verifies(c, alg, ring, t) ==> Verifies(c, alg, ring', t)) <==>
            forall payload :: RingTakesOver(c, alg, ring, key.kid, key, c.render(alg, "", payload))
  {
    if forall t: Token :: t.kid == "" && Verifies(c, alg, ring, t) ==> Verifies(c, alg, ring', t) {
      forall payload, sig | Accepts(c, alg, ring.byKid[key.kid], c.render(alg, "", payload), sig)
        ensures Accepts(c, alg, key, c.render(alg, "", payload), sig)
                || OtherAccepts(c, alg, ring, key.kid, c.render(alg, "", payload), sig)
      {
        SomeKeyAccepts(c, alg, ring, ring', key, Token(Some(alg), "", payload, sig));
      }
    }
    if forall payload :: RingTakesOver(c, alg, ring, key.kid, key, c.render(alg, "", payload)) {
      forall t: Token | t.kid == "" && Verifies(c, alg, ring, t) ensures Verifies(c, alg, ring', t) {
        SomeKeyAccepts(c, alg, ring, ring', key, t);
        assert RingTakesOver(c, alg, ring, key.kid, key, c.render(alg, "", t.payload));
      }
    }
  }

  /** 32 equal bytes. */
  function Repeated(b: int): Bytes { seq(32, _ => b) }

  /** A keyed hash that returns its key, with the kid and payload as signing input. */
  function KeyEcho(): Crypto {
    Crypto((k, m) => k, (p, m) => [], (p, m, sig) => false, p => p, b => None, (alg, kid, payload) => kid + payload)
  }

  /**
   A literal loss: the secret behind "jwt" changes without a version, and a token stamped before the poll
   fails after it.
   */
  lemma OverwrittenSecretLosesToken()
    ensures var first := SigningKey("jwt", HS256, Repeated(1), None, None, "");
            var s := View(RingState("jwt", map["jwt" := first]), map["jwt" := ""]);
            var t := Token(Some(HS256), "jwt", "p", Repeated(1));
            && ValidRing(s.ring) && Verifies(KeyEcho(), HS256, s.ring, t)
            && !Verifies(KeyEcho(), HS256, Check(KeyEcho(), HS256, s, "jwt", true,
                                                 Some(Secret(Repeated(2), ""))).0.ring, t)
  {
    var first := SigningKey("jwt", HS256, Repeated(1), None, None, "");
    var s := View(RingState("jwt", map["jwt" := first]), map["jwt" := ""]);
    assert Flatten("jwt") == "jwt" by {
      assert "jwt"[1..] == "wt" && "wt"[1..] == "t" && "t"[1..] == "";
    }
    assert Repeated(1)[0] != Repeated(2)[0];
    CheckPuts(KeyEcho(), HS256, s, "jwt", true, Some(Secret(Repeated(2), "")));
  }
}
