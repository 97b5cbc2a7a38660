/**
 The key ring object: an atomic pointer to an immutable state, changed by load, clone, modify and
 compare-and-swap. The methods run the loops without interference; the step system in
 KeyRingThreads interleaves them.
 */
module KeyRingStore {
  import opened KeyRing

  class Ring {
    var state: RingState

    ghost predicate Valid() reads this { ValidRing(state) }

    constructor (primary: SigningKey)
      requires ValidKey(primary)
      ensures Valid() && state == RingState(primary.kid, map[primary.kid := primary])
    {
      state := RingState(primary.kid, map[primary.kid := primary]);
    }

    method CompareAndSwap(cur: RingState, next: RingState) returns (swapped: bool)
      modifies this
      ensures swapped <==> old(state) == cur
      ensures state == if swapped then next else old(state)
    {
      swapped := state == cur;
      if swapped {
        state := next;
      }
    }

    method AddVerifier(key: SigningKey) returns (ok: bool)
      requires Valid()
      modifies this
      ensures Valid()
      ensures (state, if ok then Done else Rejected) == Outcome(old(state), Op.AddVerifier(key))
      ensures ok <==>
                && key.kid != ""
                && ((key.algorithm.HS256? && |key.hmacKey| >= 32)
                    || (key.algorithm.RS256? && (key.rsaPrivate.Some? || key.rsaPublic.Some?)))
      ensures state == if ok then RingState(old(state).primaryKid, old(state).byKid[key.kid := key]) else old(state)
    {
      if !ValidKey(key) {
        return false;
      }
      ok := false;
      while !ok
        invariant if ok then state == Modified(old(state), Op.AddVerifier(key)) else state == old(state)
        decreases !ok
      {
        var cur := state;
        var next := cur.(byKid := cur.byKid[key.kid := key]);
        ok := CompareAndSwap(cur, next);
      }
    }

    method SwapPrimary(kid: string, optKey: seq<SigningKey>) returns (ok: bool)
      requires Valid()
      modifies this
      ensures Valid()
      ensures (state, if ok then Done else Rejected) == Outcome(old(state), Op.SwapPrimary(kid, optKey))
      ensures ok && |optKey| == 1 ==> state == RingState(kid, old(state).byKid[kid := optKey[0]])
      ensures ok && |optKey| == 0 ==> kid in old(state).byKid && state == RingState(kid, old(state).byKid)
      ensures !ok ==> state == old(state)
    {
      if kid == "" || |optKey| > 1 {
        return false;
      }
      if |optKey| == 1 {
        if optKey[0].kid != kid || !ValidKey(optKey[0]) {
          return false;
        }
      }
      ok := false;
      while !ok
        invariant if ok
                  then Publishes(old(state), Op.SwapPrimary(kid, optKey))
                       && state == Modified(old(state), Op.SwapPrimary(kid, optKey))
                  else state == old(state)
        decreases !ok
      {
        var cur := state;
        var next := cur;
        if |optKey| == 1 {
          next := next.(byKid := next.byKid[kid := optKey[0]]);
        } else if kid !in next.byKid {
          return false;
        }
        next := next.(primaryKid := kid);
        ok := CompareAndSwap(cur, next);
      }
    }

    method Remove(kid: string) returns (ok: bool)
      requires Valid()
      modifies this
      ensures Valid()
      ensures (state, if ok then Done else Rejected) == Outcome(old(state), Op.Remove(kid))
      ensures ok <==> kid in old(state).byKid && kid != old(state).primaryKid
      ensures state == if ok then RingState(old(state).primaryKid, old(state).byKid - {kid}) else old(state)
    {
      ok := false;
      while !ok
        invariant if ok
                  then Publishes(old(state), Op.Remove(kid)) && state == Modified(old(state), Op.Remove(kid))
                  else state == old(state)
        decreases !ok
      {
        var cur := state;
        if cur.primaryKid == kid {
          return false;
        }
        if kid !in cur.byKid {
          return false;
        }
        ok := CompareAndSwap(cur, cur.(byKid := cur.byKid - {kid}));
      }
    }
  }
}
