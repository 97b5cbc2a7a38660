/**
 The ring's operations, its signing and its checking as a caller sees them: which calls are refused, which kid
 new tokens carry, which keys are held and which tokens pass, for every token and every crypto.
 */
module KeyRingMeaning {
  import opened Common
  import opened KeyRing

  /** A key that can sit in a ring: named, and with the material its algorithm needs. */
  predicate Usable(k: SigningKey) {
    k.kid != "" && ((k.algorithm.HS256? && |k.hmacKey| >= 32)
                    || (k.algorithm.RS256? && (k.rsaPrivate != None || k.rsaPublic != None)))
  }

  /** The same keys in both rings except possibly under `kid`. */
  ghost predicate SameBut(s: RingState, s': RingState, kid: string) {
    && (forall x :: x != kid ==> (x in s'.byKid <==> x in s.byKid))
    && (forall x :: x != kid && x in s.byKid ==> s'.byKid[x] == s.byKid[x])
  }

  /** What every ring holds: a primary, and usable keys each under its own kid. */
  lemma RingHoldsUsableKeys(s: RingState, kid: string)
    requires ValidRing(s)
    ensures s.primaryKid in s.byKid
    ensures kid in s.byKid ==> Usable(s.byKid[kid]) && s.byKid[kid].kid == kid
  {
  }

  /** The token a ring issues: stamped with the primary's kid and signed with its material. */
  lemma IssueMeans(c: Crypto, alg: Algorithm, s: RingState, payload: string)
    requires ValidRing(s)
    ensures var k, t := s.byKid[s.primaryKid], Issue(c, alg, s, payload);
            && (t.Some? <==> alg.HS256? || (alg.RS256? && k.rsaPrivate.Some?))
            && (t.Some? ==>
                  && t.value.kid == s.primaryKid && t.value.alg == Some(alg) && t.value.payload == payload
                  && t.value.sig == (if alg.HS256? then c.mac(k.hmacKey, c.render(alg, s.primaryKid, payload))
                                     else c.sign(k.rsaPrivate.value, c.render(alg, s.primaryKid, payload))))
  {
  }

  /** SwapPrimary: when it is refused, and that afterwards new tokens carry the kid and are signed with its key. */
  lemma SwapPrimaryMeans(c: Crypto, alg: Algorithm, s: RingState, kid: string, opt: seq<SigningKey>, payload: string)
    requires ValidRing(s)
    ensures var (s', answer) := Outcome(s, SwapPrimary(kid, opt));
            && (answer == Done <==> kid != "" && if |opt| == 0 then kid in s.byKid
                                                 else |opt| == 1 && opt[0].kid == kid && Usable(opt[0]))
            && (answer != Done ==> s' == s)
            && (answer == Done ==>
                  && ValidRing(s') && SameBut(s, s', kid)
                  && kid in s'.byKid && s'.byKid[kid] == (if |opt| == 1 then opt[0] else s.byKid[kid])
                  && (Issue(c, alg, s', payload).Some? ==> Issue(c, alg, s', payload).value.kid == kid))
  {
  }

  /** AddVerifier: the key is held under its kid, all others are kept, and the primary stays the primary. */
  lemma AddVerifierMeans(c: Crypto, alg: Algorithm, s: RingState, key: SigningKey, payload: string)
    requires ValidRing(s)
    ensures var (s', answer) := Outcome(s, AddVerifier(key));
            && (answer == Done <==> Usable(key))
            && (answer != Done ==> s' == s)
            && (answer == Done ==>
                  && ValidRing(s') && SameBut(s, s', key.kid)
                  && key.kid in s'.byKid && s'.byKid[key.kid] == key && s'.primaryKid == s.primaryKid
                  && (key.kid != s.primaryKid ==> Issue(c, alg, s', payload) == Issue(c, alg, s, payload)))
  {
  }

  /** Remove: tokens stamped with the kid stop passing, all other stamped tokens pass as before. */
  lemma RemoveMeans(c: Crypto, alg: Algorithm, s: RingState, kid: string, t: Token, payload: string)
    requires ValidRing(s)
    ensures var (s', answer) := Outcome(s, Remove(kid));
            && (answer == Done <==> kid in s.byKid && kid != s.primaryKid)
            && (answer != Done ==> s' == s)
            && (answer == Done ==>
                  && ValidRing(s') && SameBut(s, s', kid) && kid !in s'.byKid
                  && (t.kid == kid ==> !Verifies(c, alg, s', t))
                  && (t.kid != kid && t.kid != "" ==> (Verifies(c, alg, s', t) <==> Verifies(c, alg, s, t)))
                  && Issue(c, alg, s', payload) == Issue(c, alg, s, payload))
  {
  }

  /** The read operations see the ring and change nothing. */
  lemma SnapshotMeans(s: RingState)
    ensures Outcome(s, Snapshot) == (s, Saw(s))
  {
  }

  /** A key the header admits: the one it names, or any when it names none. */
  predicate Admits(t: Token, kid: string) { t.kid == "" || t.kid == kid }

  /**
   Under HS256 a token passes exactly when an admitted key's code over its own header and payload is its
   signature.
   */
  lemma HmacPassesIff(c: Crypto, s: RingState, t: Token)
    requires ValidRing(s)
    ensures Verifies(c, HS256, s, t) <==>
            && (t.alg == None || t.alg == Some(HS256))
            && exists kid :: && kid in s.byKid && Admits(t, kid) && |s.byKid[kid].hmacKey| > 0
                             && t.sig == c.mac(s.byKid[kid].hmacKey, c.render(HS256, t.kid, t.payload))
  {
    if t.kid != "" && t.kid in s.byKid {
      assert Admits(t, t.kid);
    }
  }

  /** Under RS256 exactly when an admitted key's public half checks it, and under any other algorithm never. */
  lemma RsaPassesIff(c: Crypto, s: RingState, t: Token)
    requires ValidRing(s)
    ensures Verifies(c, RS256, s, t) <==>
            && (t.alg == None || t.alg == Some(RS256))
            && exists kid :: && kid in s.byKid && Admits(t, kid) && s.byKid[kid].rsaPublic.Some?
                             && c.check(s.byKid[kid].rsaPublic.value, c.render(RS256, t.kid, t.payload), t.sig)
    ensures forall name :: !Verifies(c, OtherAlg(name), s, t)
  {
    if t.kid != "" && t.kid in s.byKid {
      assert Admits(t, t.kid);
    }
  }
}
