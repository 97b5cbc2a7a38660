/**
 The signing-key ring: its state, its sequential operations, the ordered listing of all keys and
 the signature check over candidate keys. Cryptography is a record of functions.
 */
module KeyRing {
  import opened Common
  import opened Ordering

  type Bytes = seq<int>

  datatype Algorithm = HS256 | RS256 | OtherAlg(name: string)

  datatype SigningKey = SigningKey(
    kid: string,
    algorithm: Algorithm,
    hmacKey: Bytes,
    rsaPrivate: Option<int>,
    rsaPublic: Option<int>,
    version: string)

  datatype RingState = RingState(primaryKid: string, byKid: map<string, SigningKey>)

  predicate ValidKey(k: SigningKey) {
    && k.kid != ""
    && match k.algorithm
       case HS256 => |k.hmacKey| >= 32
       case RS256 => k.rsaPrivate.Some? || k.rsaPublic.Some?
       case OtherAlg(_) => false
  }

  /** What every ring state satisfies: the primary is present and each valid key sits under its own kid. */
  ghost predicate ValidRing(s: RingState) {
    && s.primaryKid in s.byKid
    && (forall kid :: kid in s.byKid ==> s.byKid[kid].kid == kid && ValidKey(s.byKid[kid]))
  }

  datatype Op =
    | AddVerifier(key: SigningKey)
    | SwapPrimary(kid: string, optKey: seq<SigningKey>)
    | Remove(kid: string)
    | Snapshot                     // Primary, Get, All and KIDs each make one load

  datatype Answer = Done | Rejected | Saw(ring: RingState)

  /** The checks an operation makes on its arguments before it looks at the ring. */
  predicate Acceptable(op: Op) {
    match op
    case AddVerifier(key) => ValidKey(key)
    case SwapPrimary(kid, opt) => kid != "" && |opt| <= 1 && (|opt| == 1 ==> opt[0].kid == kid && ValidKey(opt[0]))
    case Remove(_) => true
    case Snapshot => true
  }

  /** Whether the operation publishes a new state when it has loaded `s`. */
  predicate Publishes(s: RingState, op: Op) {
    match op
    case AddVerifier(_) => true
    case SwapPrimary(kid, opt) => |opt| == 1 || kid in s.byKid
    case Remove(kid) => kid != s.primaryKid && kid in s.byKid
    case Snapshot => false
  }

  /** The clone-and-modify step between a load and its compare-and-swap. */
  function Modified(s: RingState, op: Op): RingState {
    match op
    case AddVerifier(key) => s.(byKid := s.byKid[key.kid := key])
    case SwapPrimary(kid, opt) =>
      RingState(kid, if |opt| == 1 then s.byKid[kid := opt[0]] else s.byKid)
    case Remove(kid) => s.(byKid := s.byKid - {kid})
    case Snapshot => s
  }

  /** The operation as one atomic action. */
  function Outcome(s: RingState, op: Op): (RingState, Answer) {
    if op.Snapshot? then (s, Saw(s))
    else if Acceptable(op) && Publishes(s, op) then (Modified(s, op), Done)
    else (s, Rejected)
  }

  lemma OutcomeKeepsRingValid(s: RingState, op: Op)
    requires ValidRing(s)
    ensures ValidRing(Outcome(s, op).0)
  {
  }

  // ------------------------------------------------------------------
  // Ordered listing
  // ------------------------------------------------------------------

  ghost predicate SortedUpTo(s: seq<string>, n: int)
    requires n <= |s|
  {
    forall i, j :: 0 <= i < j < n ==> Leq(s[i], s[j])
  }

  /** Sorted below `n` except that the element at `at` may be too small for its place. */
  ghost predicate SortedBut(s: seq<string>, at: int, n: int)
    requires 0 <= at < n <= |s|
  {
    forall i, j :: 0 <= i < j < n && j != at ==> Leq(s[i], s[j])
  }

  /** The in-place insertion sort used for key ids. */
  method SortStrings(a: array<string>)
    modifies a
    ensures SortedUpTo(a[..], a.Length)
    ensures multiset(a[..]) == old(multiset(a[..]))
  {
    var i := 1;
    while i < a.Length
      invariant 1 <= i
      invariant i <= a.Length || a.Length == 0
      invariant a.Length > 0 ==> SortedUpTo(a[..], i)
      invariant multiset(a[..]) == old(multiset(a[..]))
    {
      var j := i;
      while j > 0 && Less(a[j], a[j - 1])
        invariant 0 <= j <= i
        invariant SortedBut(a[..], j, i + 1)
        invariant multiset(a[..]) == old(multiset(a[..]))
      {
        a[j - 1], a[j] := a[j], a[j - 1];
        j := j - 1;
      }
      InsertedInPlace(a[..], j, i + 1);
      i := i + 1;
    }
  }

  lemma InsertedInPlace(s: seq<string>, at: int, n: int)
    requires 0 <= at < n <= |s| && SortedBut(s, at, n)
    requires at == 0 || !Less(s[at], s[at - 1])
    ensures SortedUpTo(s, n)
  {
    forall i | 0 <= i < at ensures Leq(s[i], s[at]) {
      LeqTotal(s[at - 1], s[at]);
      if i < at - 1 {
        LeqTransitive(s[i], s[at - 1], s[at]);
      }
    }
  }

  /** Every key of the ring once, the primary first and the rest in strictly increasing kid order. */
  ghost predicate IsListing(s: RingState, out: seq<SigningKey>) {
    && |out| == |s.byKid|
    && |out| > 0 && out[0].kid == s.primaryKid
    && (forall i :: 0 <= i < |out| ==> out[i].kid in s.byKid && s.byKid[out[i].kid] == out[i])
    && (forall kid :: kid in s.byKid ==> exists i :: 0 <= i < |out| && out[i].kid == kid)
    && (forall i, j :: 1 <= i < j < |out| ==> Less(out[i].kid, out[j].kid))
    && (forall i :: 1 <= i < |out| ==> out[i].kid != s.primaryKid)
  }

  lemma TwiceInMultiset(s: seq<string>, i: int, j: int)
    requires 0 <= i < j < |s| && s[i] == s[j]
    ensures multiset(s)[s[i]] >= 2
  {
    var left, right := s[..j], s[j..];
    assert s == left + right;
    assert left[i] in left && right[0] in right;
  }

  /** A sorted sequence with the elements of a set, once each, is strictly increasing. */
  lemma SortedDistinct(s: seq<string>, ids: set<string>)
    requires SortedUpTo(s, |s|) && multiset(s) == multiset(ids)
    ensures forall i, j :: 0 <= i < j < |s| ==> Less(s[i], s[j])
    ensures forall x :: x in ids <==> x in s
    ensures |s| == |ids|
  {
    forall i, j | 0 <= i < j < |s| ensures s[i] != s[j] {
      if s[i] == s[j] {
        TwiceInMultiset(s, i, j);
      }
    }
    assert forall x :: x in s <==> x in multiset(s);
    assert |multiset(s)| == |multiset(ids)|;
  }

  lemma OneMore(ids: set<string>, x: string)
    requires x !in ids
    ensures multiset(ids + {x}) == multiset(ids) + multiset{x}
  {
  }

  /** Collects the non-primary kids in whatever order the map yields them. */
  method OtherKids(s: RingState) returns (others: seq<string>)
    ensures multiset(others) == multiset(s.byKid.Keys - {s.primaryKid})
  {
    others := [];
    var left := s.byKid.Keys;
    ghost var taken: set<string> := {};
    while left != {}
      invariant forall x :: x in taken <==> x in s.byKid && x !in left && x != s.primaryKid
      invariant left <= s.byKid.Keys
      invariant multiset(others) == multiset(taken)
    {
      var kid :| kid in left;
      left := left - {kid};
      if kid != s.primaryKid {
        OneMore(taken, kid);
        others := others + [kid];
        taken := taken + {kid};
      }
    }
    assert taken == s.byKid.Keys - {s.primaryKid};
  }

  /** What the listing loop has built: the primary, then the keys of `ids` in order. */
  ghost predicate Lists(s: RingState, ids: seq<string>, out: seq<SigningKey>) {
    && s.primaryKid in s.byKid
    && |out| == |ids| + 1 && out[0] == s.byKid[s.primaryKid]
    && (forall i :: 0 <= i < |ids| ==> ids[i] in s.byKid && out[i + 1] == s.byKid[ids[i]])
  }

  lemma ListingCovers(s: RingState, ids: seq<string>, out: seq<SigningKey>, kid: string)
    requires ValidRing(s) && Lists(s, ids, out)
    requires kid in s.byKid && (kid != s.primaryKid ==> kid in ids)
    ensures exists i :: 0 <= i < |out| && out[i].kid == kid
  {
  }

  lemma ListingFromSorted(s: RingState, ids: seq<string>, out: seq<SigningKey>)
    requires ValidRing(s) && Lists(s, ids, out)
    requires SortedUpTo(ids, |ids|) && multiset(ids) == multiset(s.byKid.Keys - {s.primaryKid})
    ensures IsListing(s, out)
  {
    var rest := s.byKid.Keys - {s.primaryKid};
    SortedDistinct(ids, rest);
    assert |s.byKid.Keys| == |rest| + 1;
    forall i | 1 <= i < |out| ensures out[i].kid == ids[i - 1] && out[i].kid != s.primaryKid {
      assert ids[i - 1] in ids;
    }
    forall kid | kid in s.byKid ensures exists i :: 0 <= i < |out| && out[i].kid == kid {
      ListingCovers(s, ids, out, kid);
    }
  }

  method All(s: RingState) returns (out: seq<SigningKey>)
    requires ValidRing(s)
    ensures IsListing(s, out)
  {
    var others := OtherKids(s);
    assert forall x :: x in others ==> x in multiset(others);
    var ids := new string[|others|](i requires 0 <= i < |others| => others[i]);
    assert ids[..] == others;
    SortStrings(ids);
    var sorted := ids[..];
    assert forall x :: x in sorted ==> x in multiset(sorted);
    out := [s.byKid[s.primaryKid]];
    var i := 0;
    while i < |sorted|
      invariant 0 <= i <= |sorted|
      invariant Lists(s, sorted[..i], out)
    {
      assert sorted[i] in sorted;
      out := out + [s.byKid[sorted[i]]];
      i := i + 1;
    }
    assert sorted[..i] == sorted;
    ListingFromSorted(s, sorted, out);
  }

  // ------------------------------------------------------------------
  // Signing and checking
  // ------------------------------------------------------------------

  /** Keyed hash, RSA signature, RSA check, public half of a private key, PEM parser, and the signing input. */
  datatype Crypto = Crypto(
    mac: (Bytes, string) -> Bytes,
    sign: (int, string) -> Bytes,
    check: (int, string, Bytes) -> bool,
    publicOf: int -> int,
    parsePem: Bytes -> Option<int>,
    render: (Algorithm, string, string) -> string)

  /** The only fact used about RSA: a signature checks under the matching public key. */
  ghost predicate Sound(c: Crypto) {
    forall p, m :: ChecksOwn(c, p, m)
  }

  ghost predicate ChecksOwn(c: Crypto, p: int, m: string) { c.check(c.publicOf(p), m, c.sign(p, m)) }

  datatype Token = Token(alg: Option<Algorithm>, kid: string, payload: string, sig: Bytes)

  function Input(c: Crypto, alg: Algorithm, t: Token): string { c.render(alg, t.kid, t.payload) }

  /** One candidate's verdict under the signer's algorithm. */
  predicate Accepts(c: Crypto, alg: Algorithm, k: SigningKey, input: string, sig: Bytes) {
    match alg
    case HS256 => k.hmacKey != [] && c.mac(k.hmacKey, input) == sig
    case RS256 => k.rsaPublic.Some? && c.check(k.rsaPublic.value, input, sig)
    case OtherAlg(_) => false
  }

  /** Tries every candidate without stopping early. */
  method VerifySignature(c: Crypto, alg: Algorithm, input: string, sig: Bytes, candidates: seq<SigningKey>)
    returns (matched: bool)
    ensures matched <==> exists i :: 0 <= i < |candidates| && Accepts(c, alg, candidates[i], input, sig)
  {
    matched := false;
    if alg.OtherAlg? {
      return;
    }
    var i := 0;
    while i < |candidates|
      invariant 0 <= i <= |candidates|
      invariant matched <==> exists j :: 0 <= j < i && Accepts(c, alg, candidates[j], input, sig)
    {
      var k := candidates[i];
      if alg.HS256? {
        if |k.hmacKey| != 0 {
          if c.mac(k.hmacKey, input) == sig {
            matched := true;
          }
        }
      } else if k.rsaPublic.Some? {
        if c.check(k.rsaPublic.value, input, sig) {
          matched := true;
        }
      }
      i := i + 1;
    }
  }

  /** What passing the signature check means: some key the header admits accepts. */
  ghost predicate Verifies(c: Crypto, alg: Algorithm, s: RingState, t: Token) {
    && (t.alg.Some? ==> t.alg.value == alg)
    && if t.kid != "" then t.kid in s.byKid && Accepts(c, alg, s.byKid[t.kid], Input(c, alg, t), t.sig)
       else exists kid :: kid in s.byKid && Accepts(c, alg, s.byKid[kid], Input(c, alg, t), t.sig)
  }

  /**
   The verify path: reject another algorithm, pick the candidates by the kid header, try them.
   A token without a kid passes exactly when some key of the ring accepts it.
   */
  method VerifyToken(c: Crypto, alg: Algorithm, s: RingState, t: Token) returns (ok: bool)
    requires ValidRing(s)
    ensures ok <==> Verifies(c, alg, s, t)
  {
    if t.alg.Some? && t.alg.value != alg {
      return false;
    }
    var candidates;
    if t.kid == "" {
      candidates := All(s);
    } else if t.kid in s.byKid {
      candidates := [s.byKid[t.kid]];
    } else {
      return false;
    }
    ok := VerifySignature(c, alg, Input(c, alg, t), t.sig, candidates);
    if t.kid == "" {
      forall kid | kid in s.byKid && Accepts(c, alg, s.byKid[kid], Input(c, alg, t), t.sig) ensures ok {
        var i :| 0 <= i < |candidates| && candidates[i].kid == kid;
        assert Accepts(c, alg, candidates[i], Input(c, alg, t), t.sig);
      }
    } else {
      assert candidates[0] == s.byKid[t.kid];
    }
  }

  /** Encodes with the primary key and stamps its kid; fails only for RS256 without a private key. */
  function SignWith(c: Crypto, alg: Algorithm, k: SigningKey, kid: string, payload: string): Option<Token> {
    var input := c.render(alg, kid, payload);
    match alg
    case HS256 => Some(Token(Some(alg), kid, payload, c.mac(k.hmacKey, input)))
    case RS256 =>
      if k.rsaPrivate.None? then None
      else Some(Token(Some(alg), kid, payload, c.sign(k.rsaPrivate.value, input)))
    case OtherAlg(_) => None
  }

  function Issue(c: Crypto, alg: Algorithm, s: RingState, payload: string): Option<Token>
    requires s.primaryKid in s.byKid
  {
    SignWith(c, alg, s.byKid[s.primaryKid], s.byKid[s.primaryKid].kid, payload)
  }

  /** A key whose public half belongs to its private half, as the loaders build it. */
  ghost predicate Paired(c: Crypto, k: SigningKey) {
    k.rsaPrivate.Some? ==> k.rsaPublic == Some(c.publicOf(k.rsaPrivate.value))
  }

  /** Every issued token verifies under the ring that issued it. */
  lemma IssuedTokenVerifies(c: Crypto, alg: Algorithm, s: RingState, payload: string)
    requires Sound(c) && ValidRing(s) && s.byKid[s.primaryKid].algorithm == alg && Paired(c, s.byKid[s.primaryKid])
    requires Issue(c, alg, s, payload).Some?
    ensures Verifies(c, alg, s, Issue(c, alg, s, payload).value)
  {
    var k := s.byKid[s.primaryKid];
    if alg.RS256? {
      assert ChecksOwn(c, k.rsaPrivate.value, c.render(alg, k.kid, payload));
    }
  }
}
