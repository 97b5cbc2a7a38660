/**
 Re-encryption of one record: decode its JSON, walk it replacing every ciphertext leaf by one under the
 current key, and encode it again if anything changed. The cipher and the decoding of scalars are a record
 of functions; nonces come from a supply that never repeats.
 */
module Reencryption {
  import opened Common

  datatype Json = Obj(fields: map<string, Json>) | Arr(items: seq<Json>) | Str(text: string) | Scalar(repr: string)

  /**
   The tenant's keys and the cipher: whether a string is an envelope, sealing, opening, and an envelope's
   nonce. `reprint` is what decoding a scalar and encoding it again makes of its text: numbers pass through
   64-bit floats, and one outside their range does not decode.
   */
  datatype Vault = Vault(
    current: int,
    previous: Option<int>,
    encrypted: string -> bool,
    seal: (int, nat, string) -> string,
    unseal: (int, string) -> Option<string>,
    nonceOf: string -> nat,
    reprint: string -> Option<string>)

  ghost predicate SealsWell(v: Vault, key: int, nonce: nat, plain: string) {
    && v.encrypted(v.seal(key, nonce, plain))
    && v.unseal(key, v.seal(key, nonce, plain)) == Some(plain)
    && v.nonceOf(v.seal(key, nonce, plain)) == nonce
  }

  /** What is known of the cipher: it opens what it seals, and the envelope carries the nonce. */
  ghost predicate Sound(v: Vault) {
    forall key, nonce, plain :: SealsWell(v, key, nonce, plain)
  }

  /** DecryptString on an envelope: the current key first, then the previous one if there is one. */
  function Open(v: Vault, value: string): Option<string> {
    var first := v.unseal(v.current, value);
    if first.Some? || v.previous.None? then first else v.unseal(v.previous.value, value)
  }

  /** ReencryptString: always seals again, with a new nonce, whichever key opened the value. */
  method Reencrypt(v: Vault, value: string, nonce: nat) returns (r: Option<string>)
    requires Sound(v) && v.encrypted(value)
    ensures r.Some? <==>
              v.unseal(v.current, value).Some? || (v.previous.Some? && v.unseal(v.previous.value, value).Some?)
    ensures r.Some? ==>
              && v.encrypted(r.value) && v.nonceOf(r.value) == nonce
              && v.unseal(v.current, r.value) == if v.unseal(v.current, value).Some? then v.unseal(v.current, value)
                                                 else v.unseal(v.previous.value, value)
    ensures r.Some? ==> Resealed(v, value, r.value, nonce, nonce + 1)
  {
    var plain := Open(v, value);
    if plain.None? {
      return None;
    }
    assert SealsWell(v, v.current, nonce, plain.value);
    return Some(v.seal(v.current, nonce, plain.value));
  }

  /** `new` is an envelope under the current key with the same plaintext and a nonce in [lo, hi). */
  ghost predicate Resealed(v: Vault, value: string, sealed: string, lo: nat, hi: nat) {
    && v.encrypted(sealed)
    && Open(v, value).Some? && v.unseal(v.current, sealed) == Open(v, value)
    && lo <= v.nonceOf(sealed) < hi
  }

  // ------------------------------------------------------------------
  // Trees
  // ------------------------------------------------------------------

  /** Same tree but for the ciphertext leaves, each of which is resealed. */
  ghost predicate Rotated(v: Vault, was: Json, now: Json, lo: nat, hi: nat)
    decreases was
  {
    match was
    case Obj(f) =>
      now.Obj? && f.Keys == now.fields.Keys && forall k :: k in f ==> Rotated(v, f[k], now.fields[k], lo, hi)
    case Arr(a) => now.Arr? && |a| == |now.items| && forall i :: 0 <= i < |a| ==> Rotated(v, a[i], now.items[i], lo, hi)
    case Str(s) => now.Str? && if v.encrypted(s) then Resealed(v, s, now.text, lo, hi) else now.text == s
    case Scalar(_) => now == was
  }

  /** Every ciphertext leaf opens under one of the keys. */
  ghost predicate AllOpen(v: Vault, j: Json) {
    match j
    case Obj(f) => forall k :: k in f ==> AllOpen(v, f[k])
    case Arr(a) => forall i :: 0 <= i < |a| ==> AllOpen(v, a[i])
    case Str(s) => v.encrypted(s) ==> Open(v, s).Some?
    case Scalar(_) => true
  }

  ghost predicate HasCiphertext(v: Vault, j: Json) {
    match j
    case Obj(f) => exists k :: k in f && HasCiphertext(v, f[k])
    case Arr(a) => exists i :: 0 <= i < |a| && HasCiphertext(v, a[i])
    case Str(s) => v.encrypted(s)
    case Scalar(_) => false
  }

  /** Every ciphertext leaf's nonce is below `n`: the supply from `n` on is new to it. */
  ghost predicate NoncesBelow(v: Vault, j: Json, n: nat) {
    match j
    case Obj(f) => forall k :: k in f ==> NoncesBelow(v, f[k], n)
    case Arr(a) => forall i :: 0 <= i < |a| ==> NoncesBelow(v, a[i], n)
    case Str(s) => v.encrypted(s) ==> v.nonceOf(s) < n
    case Scalar(_) => true
  }

  /** What a reader sees: ciphertext leaves opened. */
  datatype Clear =
    | ClearObj(fields: map<string, Clear>)
    | ClearArr(items: seq<Clear>)
    | Text(s: string)
    | Secret(plain: Option<string>)
    | Atom(repr: string)

  function Read(v: Vault, j: Json): Clear {
    match j
    case Obj(f) => ClearObj(map k | k in f :: Read(v, f[k]))
    case Arr(a) => ClearArr(seq(|a|, i requires 0 <= i < |a| => Read(v, a[i])))
    case Str(s) => if v.encrypted(s) then Secret(Open(v, s)) else Text(s)
    case Scalar(r) => Atom(r)
  }

  lemma {:induction false} RotatedWidens(v: Vault, was: Json, now: Json, lo: nat, hi: nat, lo': nat, hi': nat)
    requires Rotated(v, was, now, lo, hi) && lo' <= lo && hi <= hi'
    ensures Rotated(v, was, now, lo', hi')
    decreases was
  {
    match was
    case Obj(f) =>
      forall k | k in f ensures Rotated(v, f[k], now.fields[k], lo', hi') {
        RotatedWidens(v, f[k], now.fields[k], lo, hi, lo', hi');
      }
    case Arr(a) =>
      forall i | 0 <= i < |a| ensures Rotated(v, a[i], now.items[i], lo', hi') {
        RotatedWidens(v, a[i], now.items[i], lo, hi, lo', hi');
      }
    case Str(_) =>
    case Scalar(_) =>
  }

  /** A reader with the current key alone reads in the new tree what both keys read in the old one. */
  lemma {:induction false} RotatedReadsTheSame(v: Vault, was: Json, now: Json, lo: nat, hi: nat)
    requires Rotated(v, was, now, lo, hi)
    ensures Read(v.(previous := None), now) == Read(v, was)
    ensures Read(v, now) == Read(v, was)
    decreases was
  {
    match was
    case Obj(f) =>
      forall k | k in f
        ensures Read(v.(previous := None), now.fields[k]) == Read(v, f[k])
        ensures Read(v, now.fields[k]) == Read(v, f[k])
      {
        RotatedReadsTheSame(v, f[k], now.fields[k], lo, hi);
      }
    case Arr(a) =>
      forall i | 0 <= i < |a|
        ensures Read(v.(previous := None), now.items[i]) == Read(v, a[i])
        ensures Read(v, now.items[i]) == Read(v, a[i])
      {
        RotatedReadsTheSame(v, a[i], now.items[i], lo, hi);
      }
    case Str(_) =>
    case Scalar(_) =>
  }

  lemma {:induction false} RotatedStaysOpen(v: Vault, was: Json, now: Json, lo: nat, hi: nat)
    requires Rotated(v, was, now, lo, hi)
    ensures AllOpen(v, now) && AllOpen(v.(previous := None), now)
    ensures HasCiphertext(v, now) <==> HasCiphertext(v, was)
    ensures NoncesBelow(v, now, hi)
    decreases was
  {
    match was
    case Obj(f) =>
      forall k | k in f
        ensures AllOpen(v, now.fields[k]) && AllOpen(v.(previous := None), now.fields[k])
                && NoncesBelow(v, now.fields[k], hi)
        ensures HasCiphertext(v, now.fields[k]) <==> HasCiphertext(v, f[k])
      {
        RotatedStaysOpen(v, f[k], now.fields[k], lo, hi);
      }
    case Arr(a) =>
      forall i | 0 <= i < |a|
        ensures AllOpen(v, now.items[i]) && AllOpen(v.(previous := None), now.items[i])
                && NoncesBelow(v, now.items[i], hi)
        ensures HasCiphertext(v, now.items[i]) <==> HasCiphertext(v, a[i])
      {
        RotatedStaysOpen(v, a[i], now.items[i], lo, hi);
      }
    case Str(_) =>
    case Scalar(_) =>
  }

  /** With new nonces, rotation changes a tree exactly when it has a ciphertext leaf, rotated before or not. */
  lemma {:induction false} ChangedIffCiphertext(v: Vault, was: Json, now: Json, lo: nat, hi: nat)
    requires Rotated(v, was, now, lo, hi) && NoncesBelow(v, was, lo)
    ensures now != was <==> HasCiphertext(v, was)
    decreases was
  {
    match was
    case Obj(f) =>
      forall k | k in f ensures now.fields[k] != f[k] <==> HasCiphertext(v, f[k]) {
        ChangedIffCiphertext(v, f[k], now.fields[k], lo, hi);
      }
      if !HasCiphertext(v, was) {
        assert now.fields == f;
      }
    case Arr(a) =>
      forall i | 0 <= i < |a| ensures now.items[i] != a[i] <==> HasCiphertext(v, a[i]) {
        ChangedIffCiphertext(v, a[i], now.items[i], lo, hi);
      }
      if !HasCiphertext(v, was) {
        assert now.items == a;
      }
    case Str(_) =>
    case Scalar(_) =>
  }

  // ------------------------------------------------------------------
  // The walk
  // ------------------------------------------------------------------

  /** The walk over the tree: the new tree unless some leaf does not open, and whether anything changed. */
  method Walk(v: Vault, j: Json, nonce: nat) returns (r: Option<Json>, changed: bool, next: nat)
    requires Sound(v)
    ensures r.Some? <==> AllOpen(v, j)
    ensures r.Some? ==> Rotated(v, j, r.value, nonce, next) && (changed <==> r.value != j)
    ensures nonce <= next
    decreases j, 1
  {
    match j
    case Obj(f) =>
      r, changed, next := WalkFields(v, j, nonce);
    case Arr(a) =>
      r, changed, next := WalkItems(v, j, nonce);
    case Str(s) =>
      next := nonce;
      if !v.encrypted(s) {
        return Some(j), false, nonce;
      }
      var sealed := Reencrypt(v, s, nonce);
      if sealed.None? {
        return None, false, nonce;
      }
      return Some(Str(sealed.value)), sealed.value != s, nonce + 1;
    case Scalar(_) =>
      return Some(j), false, nonce;
  }

  ghost predicate FieldsDone(v: Vault, f: map<string, Json>, g: map<string, Json>, left: set<string>, lo: nat,
                             hi: nat) {
    && g.Keys == f.Keys && left <= f.Keys
    && (forall k :: k in f && k !in left ==> AllOpen(v, f[k]) && Rotated(v, f[k], g[k], lo, hi))
    && (forall k :: k in left ==> g[k] == f[k])
  }

  lemma FieldDone(v: Vault, f: map<string, Json>, g: map<string, Json>, left: set<string>, lo: nat, mid: nat, hi: nat,
                  k: string, j: Json)
    requires FieldsDone(v, f, g, left, lo, mid) && k in left && lo <= mid <= hi
    requires AllOpen(v, f[k]) && Rotated(v, f[k], j, mid, hi)
    ensures FieldsDone(v, f, g[k := j], left - {k}, lo, hi)
    ensures g[k := j] != f <==> g != f || j != f[k]
  {
    forall x | x in f && x !in left - {k} ensures AllOpen(v, f[x]) && Rotated(v, f[x], g[k := j][x], lo, hi) {
      if x == k {
        RotatedWidens(v, f[k], j, mid, hi, lo, hi);
      } else {
        RotatedWidens(v, f[x], g[x], lo, mid, lo, hi);
      }
    }
    assert g[k := j][k] == j;
    if j == f[k] {
      assert g[k := j] == g;
    }
  }

  method WalkFields(v: Vault, j: Json, nonce: nat) returns (r: Option<Json>, changed: bool, next: nat)
    requires Sound(v) && j.Obj?
    ensures r.Some? <==> AllOpen(v, j)
    ensures r.Some? ==> Rotated(v, j, r.value, nonce, next) && (changed <==> r.value != j)
    ensures nonce <= next
    decreases j, 0
  {
    var f, g, left := j.fields, j.fields, j.fields.Keys;
    changed, next := false, nonce;
    while left != {}
      invariant nonce <= next && FieldsDone(v, f, g, left, nonce, next) && (changed <==> g != f)
    {
      var k :| k in left;
      var nv, c, n := Walk(v, f[k], next);
      if nv.None? {
        return None, changed, n;
      }
      FieldDone(v, f, g, left, nonce, next, n, k, nv.value);
      changed := changed || c;
      g, left, next := g[k := nv.value], left - {k}, n;
    }
    r := Some(Obj(g));
  }

  ghost predicate ItemsDone(v: Vault, a: seq<Json>, b: seq<Json>, i: nat, lo: nat, hi: nat) {
    && |a| == |b| && i <= |a|
    && (forall x :: 0 <= x < i ==> AllOpen(v, a[x]) && Rotated(v, a[x], b[x], lo, hi))
    && (forall x :: i <= x < |a| ==> b[x] == a[x])
  }

  lemma ItemDone(v: Vault, a: seq<Json>, b: seq<Json>, i: nat, lo: nat, mid: nat, hi: nat, j: Json)
    requires ItemsDone(v, a, b, i, lo, mid) && i < |a| && lo <= mid <= hi
    requires AllOpen(v, a[i]) && Rotated(v, a[i], j, mid, hi)
    ensures ItemsDone(v, a, b[i := j], i + 1, lo, hi)
    ensures b[i := j] != a <==> b != a || j != a[i]
  {
    forall x | 0 <= x < i + 1 ensures AllOpen(v, a[x]) && Rotated(v, a[x], b[i := j][x], lo, hi) {
      if x == i {
        RotatedWidens(v, a[i], j, mid, hi, lo, hi);
      } else {
        RotatedWidens(v, a[x], b[x], lo, mid, lo, hi);
      }
    }
    if j == a[i] {
      assert b[i := j] == b;
    } else {
      assert b[i := j][i] != a[i];
    }
  }

  method WalkItems(v: Vault, j: Json, nonce: nat) returns (r: Option<Json>, changed: bool, next: nat)
    requires Sound(v) && j.Arr?
    ensures r.Some? <==> AllOpen(v, j)
    ensures r.Some? ==> Rotated(v, j, r.value, nonce, next) && (changed <==> r.value != j)
    ensures nonce <= next
    decreases j, 0
  {
    var a, b := j.items, j.items;
    changed, next := false, nonce;
    var i := 0;
    while i < |a|
      invariant i <= |a| && nonce <= next && ItemsDone(v, a, b, i, nonce, next) && (changed <==> b != a)
    {
      var nv, c, n := Walk(v, a[i], next);
      if nv.None? {
        return None, changed, n;
      }
      ItemDone(v, a, b, i, nonce, next, n, nv.value);
      changed := changed || c;
      b, next := b[i := nv.value], n;
      i := i + 1;
    }
    r := Some(Arr(b));
  }

  // ------------------------------------------------------------------
  // Decoding and encoding
  // ------------------------------------------------------------------

  /** Every scalar decodes. */
  predicate Decodes(v: Vault, j: Json) {
    match j
    case Obj(f) => forall k :: k in f ==> Decodes(v, f[k])
    case Arr(a) => forall i :: 0 <= i < |a| ==> Decodes(v, a[i])
    case Str(_) => true
    case Scalar(r) => v.reprint(r).Some?
  }

  /** The tree after decoding and encoding: strings and shape stay, scalars are reprinted. */
  function Decoded(v: Vault, j: Json): Json
    requires Decodes(v, j)
  {
    match j
    case Obj(f) => Obj(map k | k in f :: Decoded(v, f[k]))
    case Arr(a) => Arr(seq(|a|, i requires 0 <= i < |a| => Decoded(v, a[i])))
    case Str(_) => j
    case Scalar(r) => Scalar(v.reprint(r).value)
  }

  /** Every scalar keeps its text. */
  ghost predicate ScalarsFixed(v: Vault, j: Json) {
    match j
    case Obj(f) => forall k :: k in f ==> ScalarsFixed(v, f[k])
    case Arr(a) => forall i :: 0 <= i < |a| ==> ScalarsFixed(v, a[i])
    case Str(_) => true
    case Scalar(r) => v.reprint(r) == Some(r)
  }

  /** A reader sees no difference exactly when every scalar keeps its text. */
  lemma {:induction false} ReadDecodedIff(v: Vault, j: Json)
    requires Decodes(v, j)
    ensures ScalarsFixed(v, j) ==> Decoded(v, j) == j
    ensures Read(v, Decoded(v, j)) == Read(v, j) ==> ScalarsFixed(v, j)
    decreases j
  {
    match j
    case Obj(f) =>
      forall k | k in f
        ensures ScalarsFixed(v, f[k]) ==> Decoded(v, f[k]) == f[k]
        ensures Read(v, Decoded(v, f[k])) == Read(v, f[k]) ==> ScalarsFixed(v, f[k])
      {
        ReadDecodedIff(v, f[k]);
      }
      if Read(v, Decoded(v, j)) == Read(v, j) {
        forall k | k in f ensures Read(v, Decoded(v, f[k])) == Read(v, f[k]) {
          assert Read(v, Decoded(v, j)).fields[k] == Read(v, j).fields[k];
        }
      }
      if ScalarsFixed(v, j) {
        assert Decoded(v, j).fields == f;
      }
    case Arr(a) =>
      forall i | 0 <= i < |a|
        ensures ScalarsFixed(v, a[i]) ==> Decoded(v, a[i]) == a[i]
        ensures Read(v, Decoded(v, a[i])) == Read(v, a[i]) ==> ScalarsFixed(v, a[i])
      {
        ReadDecodedIff(v, a[i]);
      }
      if Read(v, Decoded(v, j)) == Read(v, j) {
        forall i | 0 <= i < |a| ensures Read(v, Decoded(v, a[i])) == Read(v, a[i]) {
          assert Read(v, Decoded(v, j)).items[i] == Read(v, j).items[i];
        }
      }
      if ScalarsFixed(v, j) {
        assert Decoded(v, j).items == a;
      }
    case Str(_) =>
    case Scalar(_) =>
  }

  /** Decoding does not touch ciphertext. */
  lemma {:induction false} DecodedOpens(v: Vault, j: Json)
    requires Decodes(v, j)
    ensures AllOpen(v, Decoded(v, j)) <==> AllOpen(v, j)
    decreases j
  {
    match j
    case Obj(f) =>
      var g := Decoded(v, j).fields;
      forall k | k in f ensures AllOpen(v, g[k]) <==> AllOpen(v, f[k]) {
        DecodedOpens(v, f[k]);
      }
    case Arr(a) =>
      var b := Decoded(v, j).items;
      forall i | 0 <= i < |a| ensures AllOpen(v, b[i]) <==> AllOpen(v, a[i]) {
        DecodedOpens(v, a[i]);
      }
    case Str(_) =>
    case Scalar(_) =>
  }

  lemma {:induction false} DecodedHas(v: Vault, j: Json)
    requires Decodes(v, j)
    ensures HasCiphertext(v, Decoded(v, j)) <==> HasCiphertext(v, j)
    decreases j
  {
    match j
    case Obj(f) =>
      var g := Decoded(v, j).fields;
      forall k | k in f ensures HasCiphertext(v, g[k]) <==> HasCiphertext(v, f[k]) {
        DecodedHas(v, f[k]);
      }
    case Arr(a) =>
      var b := Decoded(v, j).items;
      forall i | 0 <= i < |a| ensures HasCiphertext(v, b[i]) <==> HasCiphertext(v, a[i]) {
        DecodedHas(v, a[i]);
      }
    case Str(_) =>
    case Scalar(_) =>
  }

  lemma {:induction false} DecodedBelow(v: Vault, j: Json, n: nat)
    requires Decodes(v, j)
    ensures NoncesBelow(v, Decoded(v, j), n) <==> NoncesBelow(v, j, n)
    decreases j
  {
    match j
    case Obj(f) =>
      var g := Decoded(v, j).fields;
      forall k | k in f ensures NoncesBelow(v, g[k], n) <==> NoncesBelow(v, f[k], n) {
        DecodedBelow(v, f[k], n);
      }
    case Arr(a) =>
      var b := Decoded(v, j).items;
      forall i | 0 <= i < |a| ensures NoncesBelow(v, b[i], n) <==> NoncesBelow(v, a[i], n) {
        DecodedBelow(v, a[i], n);
      }
    case Str(_) =>
    case Scalar(_) =>
  }

  /** A rotated form of the decoded tree that equals the stored tree is the decoded tree. */
  lemma {:induction false} RotatedToItself(v: Vault, j: Json, lo: nat, hi: nat)
    requires Decodes(v, j) && Rotated(v, Decoded(v, j), j, lo, hi)
    ensures Decoded(v, j) == j
    decreases j
  {
    match j
    case Obj(f) =>
      forall k | k in f ensures Decoded(v, f[k]) == f[k] {
        assert Rotated(v, Decoded(v, j).fields[k], f[k], lo, hi);
        RotatedToItself(v, f[k], lo, hi);
      }
      assert Decoded(v, j).fields == f;
    case Arr(a) =>
      forall i | 0 <= i < |a| ensures Decoded(v, a[i]) == a[i] {
        assert Rotated(v, Decoded(v, j).items[i], a[i], lo, hi);
        RotatedToItself(v, a[i], lo, hi);
      }
      assert Decoded(v, j).items == a;
    case Str(_) =>
    case Scalar(_) =>
  }

  /** A record as the sweep leaves it: as it was, or decoded, rotated and encoded. */
  ghost predicate Rewrites(v: Vault, was: Json, now: Json, lo: nat, hi: nat) {
    && Decodes(v, was)
    && if now == was then Rotated(v, Decoded(v, was), Decoded(v, was), lo, hi)
       else Rotated(v, Decoded(v, was), now, lo, hi) && now != Decoded(v, was)
  }

  /** A record that does not stop the sweep. */
  ghost predicate Rewritable(v: Vault, j: Json) { Decodes(v, j) && AllOpen(v, j) }

  lemma RewritesWidens(v: Vault, was: Json, now: Json, lo: nat, hi: nat, lo': nat, hi': nat)
    requires Rewrites(v, was, now, lo, hi) && lo' <= lo && hi <= hi'
    ensures Rewrites(v, was, now, lo', hi')
  {
    RotatedWidens(v, Decoded(v, was), if now == was then Decoded(v, was) else now, lo, hi, lo', hi');
  }

  lemma {:induction false} RotatedWasOpen(v: Vault, was: Json, now: Json, lo: nat, hi: nat)
    requires Rotated(v, was, now, lo, hi)
    ensures AllOpen(v, was)
    decreases was
  {
    match was
    case Obj(f) =>
      forall k | k in f ensures AllOpen(v, f[k]) {
        RotatedWasOpen(v, f[k], now.fields[k], lo, hi);
      }
    case Arr(a) =>
      forall i | 0 <= i < |a| ensures AllOpen(v, a[i]) {
        RotatedWasOpen(v, a[i], now.items[i], lo, hi);
      }
    case Str(_) =>
    case Scalar(_) =>
  }

  lemma RewritesOnlyRewritable(v: Vault, was: Json, now: Json, lo: nat, hi: nat)
    requires Rewrites(v, was, now, lo, hi)
    ensures Rewritable(v, was)
  {
    RotatedWasOpen(v, Decoded(v, was), if now == was then Decoded(v, was) else now, lo, hi);
    DecodedOpens(v, was);
  }

  /** rewriteEncrypted: fails on a scalar that does not decode or a leaf that does not open. */
  method RewriteEncrypted(v: Vault, raw: Json, nonce: nat) returns (r: Option<Json>, changed: bool, next: nat)
    requires Sound(v)
    ensures nonce <= next
    ensures r.Some? <==> Rewritable(v, raw)
    ensures r.Some? ==> Rewrites(v, raw, r.value, nonce, next) && (changed <==> r.value != raw)
  {
    if !Decodes(v, raw) {
      return None, false, nonce;
    }
    var root := Decoded(v, raw);
    DecodedOpens(v, raw);
    r, changed, next := Walk(v, root, nonce);
    if r.Some? {
      if changed {
        if r.value == raw {
          RotatedToItself(v, raw, nonce, next);
        }
      } else {
        r := Some(raw);
      }
    }
  }

  // ------------------------------------------------------------------
  // Records leaf by leaf
  // ------------------------------------------------------------------

  datatype Hop = Field(name: string) | Item(index: nat)

  /** The value a path leads to. */
  function At(j: Json, path: seq<Hop>): Option<Json>
    decreases |path|
  {
    if path == [] then Some(j)
    else
      match path[0]
      case Field(k) => if j.Obj? && k in j.fields then At(j.fields[k], path[1..]) else None
      case Item(i) => if j.Arr? && i < |j.items| then At(j.items[i], path[1..]) else None
  }

  /** A ciphertext that one of the two keys opens, a scalar that decodes, or anything else. */
  predicate Fits(v: Vault, leaf: Json) {
    match leaf
    case Str(s) =>
      v.encrypted(s) ==> v.unseal(v.current, s).Some? || (v.previous.Some? && v.unseal(v.previous.value, s).Some?)
    case Scalar(r) => v.reprint(r).Some?
    case _ => true
  }

  ghost predicate FitsAt(v: Vault, j: Json, path: seq<Hop>) {
    At(j, path).Some? ==> Fits(v, At(j, path).value)
  }

  lemma {:induction false} RewritableFits(v: Vault, j: Json, path: seq<Hop>)
    requires Rewritable(v, j)
    ensures FitsAt(v, j, path)
    decreases |path|
  {
    if path != [] {
      match path[0]
      case Field(k) =>
        if j.Obj? && k in j.fields {
          RewritableFits(v, j.fields[k], path[1..]);
        }
      case Item(i) =>
        if j.Arr? && i < |j.items| {
          RewritableFits(v, j.items[i], path[1..]);
        }
    }
  }

  lemma {:induction false} FittingIsRewritable(v: Vault, j: Json)
    requires forall path :: FitsAt(v, j, path)
    ensures Rewritable(v, j)
    decreases j
  {
    match j
    case Obj(f) =>
      forall k | k in f ensures Rewritable(v, f[k]) {
        forall path ensures FitsAt(v, f[k], path) {
          var longer := [Field(k)] + path;
          assert FitsAt(v, j, longer) && longer[1..] == path;
        }
        FittingIsRewritable(v, f[k]);
      }
    case Arr(a) =>
      forall i | 0 <= i < |a| ensures Rewritable(v, a[i]) {
        forall path ensures FitsAt(v, a[i], path) {
          var longer := [Item(i)] + path;
          assert FitsAt(v, j, longer) && longer[1..] == path;
        }
        FittingIsRewritable(v, a[i]);
      }
    case Str(_) => assert FitsAt(v, j, []);
    case Scalar(_) => assert FitsAt(v, j, []);
  }

  /** A record does not stop the sweep exactly when, at every path, a ciphertext opens and a scalar decodes. */
  lemma RewritableIff(v: Vault, j: Json)
    ensures Rewritable(v, j) <==> forall path :: FitsAt(v, j, path)
  {
    if Rewritable(v, j) {
      forall path ensures FitsAt(v, j, path) {
        RewritableFits(v, j, path);
      }
    } else if forall path :: FitsAt(v, j, path) {
      FittingIsRewritable(v, j);
    }
  }

  /**
   What stands where `was` stood: the keys and lengths of `was`, its text, its plaintext resealed, its
   scalar reprinted.
   */
  ghost predicate Replaces(v: Vault, was: Json, now: Json) {
    match was
    case Obj(f) => now.Obj? && now.fields.Keys == f.Keys
    case Arr(a) => now.Arr? && |now.items| == |a|
    case Scalar(r) => v.reprint(r).Some? && now == Scalar(v.reprint(r).value)
    case Str(s) =>
      && now.Str?
      && if !v.encrypted(s) then now == was
         else
           && v.encrypted(now.text) && v.unseal(v.current, now.text).Some?
           && if v.unseal(v.current, s).Some? then v.unseal(v.current, now.text) == v.unseal(v.current, s)
              else v.previous.Some? && v.unseal(v.current, now.text) == v.unseal(v.previous.value, s)
  }

  lemma {:induction false} RotatedLeaf(v: Vault, was: Json, now: Json, lo: nat, hi: nat, path: seq<Hop>)
    requires Decodes(v, was) && Rotated(v, Decoded(v, was), now, lo, hi)
    ensures At(now, path).Some? <==> At(was, path).Some?
    ensures At(was, path).Some? ==> Replaces(v, At(was, path).value, At(now, path).value)
    decreases |path|
  {
    if path != [] {
      match path[0]
      case Field(k) =>
        if was.Obj? && k in was.fields {
          assert Rotated(v, Decoded(v, was).fields[k], now.fields[k], lo, hi);
          RotatedLeaf(v, was.fields[k], now.fields[k], lo, hi, path[1..]);
        }
      case Item(i) =>
        if was.Arr? && i < |was.items| {
          assert Rotated(v, Decoded(v, was).items[i], now.items[i], lo, hi);
          RotatedLeaf(v, was.items[i], now.items[i], lo, hi, path[1..]);
        }
    }
  }

  /**
   A record that was rewritten has the same paths, and at each of them the old value: strings as they were,
   ciphertexts under the current key with the plaintext of the first key that opened them, scalars reprinted.
   */
  lemma RewrittenLeaf(v: Vault, was: Json, now: Json, lo: nat, hi: nat, path: seq<Hop>)
    requires Rewrites(v, was, now, lo, hi) && now != was
    ensures At(now, path).Some? <==> At(was, path).Some?
    ensures At(was, path).Some? ==> Replaces(v, At(was, path).value, At(now, path).value)
  {
    RotatedLeaf(v, was, now, lo, hi, path);
  }

  ghost predicate CiphertextAt(v: Vault, j: Json, path: seq<Hop>) {
    At(j, path).Some? && At(j, path).value.Str? && v.encrypted(At(j, path).value.text)
  }

  lemma {:induction false} CiphertextHasPath(v: Vault, j: Json) returns (path: seq<Hop>)
    requires HasCiphertext(v, j)
    ensures CiphertextAt(v, j, path)
    decreases j
  {
    match j
    case Obj(f) =>
      var k :| k in f && HasCiphertext(v, f[k]);
      var rest := CiphertextHasPath(v, f[k]);
      path := [Field(k)] + rest;
      assert path[1..] == rest;
    case Arr(a) =>
      var i :| 0 <= i < |a| && HasCiphertext(v, a[i]);
      var rest := CiphertextHasPath(v, a[i]);
      path := [Item(i)] + rest;
      assert path[1..] == rest;
    case Str(_) => path := [];
  }

  lemma {:induction false} PathToCiphertext(v: Vault, j: Json, path: seq<Hop>)
    requires CiphertextAt(v, j, path)
    ensures HasCiphertext(v, j)
    decreases |path|
  {
    if path != [] {
      match path[0]
      case Field(k) => PathToCiphertext(v, j.fields[k], path[1..]);
      case Item(i) => PathToCiphertext(v, j.items[i], path[1..]);
    }
  }

  // ------------------------------------------------------------------
  // What a rewritten record keeps
  // ------------------------------------------------------------------

  /**
   Strings, shape and plaintexts are never lost: the current key alone reads in the rewritten record what
   both keys read in the old one, or in the old one with its scalars reprinted. Both keys still open it all.
   */
  lemma OnlyScalarsMove(v: Vault, was: Json, now: Json, lo: nat, hi: nat)
    requires Rewrites(v, was, now, lo, hi)
    ensures Read(v.(previous := None), now) == if now == was then Read(v, was) else Read(v, Decoded(v, was))
    ensures Read(v, now) == if now == was then Read(v, was) else Read(v, Decoded(v, was))
    ensures AllOpen(v.(previous := None), now) && AllOpen(v, now)
  {
    if now == was {
      RotatedReadsTheSame(v, Decoded(v, was), Decoded(v, was), lo, hi);
      RotatedStaysOpen(v, Decoded(v, was), Decoded(v, was), lo, hi);
      UnopenedKeysAgree(v, was);
    } else {
      RotatedReadsTheSame(v, Decoded(v, was), now, lo, hi);
      RotatedStaysOpen(v, Decoded(v, was), now, lo, hi);
    }
  }

  /** If the decoded tree reads the same with the current key alone, so does the stored one. */
  lemma {:induction false} UnopenedKeysAgree(v: Vault, j: Json)
    requires Decodes(v, j) && Read(v.(previous := None), Decoded(v, j)) == Read(v, Decoded(v, j))
    requires AllOpen(v.(previous := None), Decoded(v, j)) && AllOpen(v, Decoded(v, j))
    ensures Read(v.(previous := None), j) == Read(v, j)
    ensures AllOpen(v.(previous := None), j) && AllOpen(v, j)
    decreases j
  {
    var one, d := v.(previous := None), Decoded(v, j);
    match j
    case Obj(f) =>
      forall k | k in f
        ensures Read(one, f[k]) == Read(v, f[k]) && AllOpen(one, f[k]) && AllOpen(v, f[k])
      {
        assert Read(one, d).fields[k] == Read(v, d).fields[k] && AllOpen(one, d.fields[k]) && AllOpen(v, d.fields[k]);
        UnopenedKeysAgree(v, f[k]);
      }
    case Arr(a) =>
      forall i | 0 <= i < |a|
        ensures Read(one, a[i]) == Read(v, a[i]) && AllOpen(one, a[i]) && AllOpen(v, a[i])
      {
        assert Read(one, d).items[i] == Read(v, d).items[i] && AllOpen(one, d.items[i]) && AllOpen(v, d.items[i]);
        UnopenedKeysAgree(v, a[i]);
      }
    case Str(_) =>
    case Scalar(_) =>
  }

  /** With new nonces a record is rewritten exactly when it has a ciphertext leaf. */
  lemma RewrittenIffCiphertext(v: Vault, was: Json, now: Json, lo: nat, hi: nat)
    requires Rewrites(v, was, now, lo, hi) && NoncesBelow(v, was, lo)
    ensures now != was <==> HasCiphertext(v, was)
    ensures HasCiphertext(v, now) <==> HasCiphertext(v, was)
  {
    DecodedHas(v, was);
    DecodedBelow(v, was, lo);
    ChangedIffCiphertext(v, Decoded(v, was), if now == was then Decoded(v, was) else now, lo, hi);
    if now != was {
      RotatedStaysOpen(v, Decoded(v, was), now, lo, hi);
    }
  }

  /**
   Exactly which records read the same after the sweep: those without a ciphertext leaf, and those in
   which every scalar survives decoding and encoding.
   */
  lemma SweptReadsSameIff(v: Vault, was: Json, now: Json, lo: nat, hi: nat)
    requires Rewrites(v, was, now, lo, hi) && NoncesBelow(v, was, lo)
    ensures Read(v, now) == Read(v, was) <==> !HasCiphertext(v, was) || ScalarsFixed(v, was)
    ensures Read(v.(previous := None), now) == Read(v, was) <==> !HasCiphertext(v, was) || ScalarsFixed(v, was)
  {
    OnlyScalarsMove(v, was, now, lo, hi);
    RewrittenIffCiphertext(v, was, now, lo, hi);
    ReadDecodedIff(v, was);
  }

  /** A literal loss: 2^53 + 1 beside a ciphertext comes back as 2^53. */
  lemma BigNumberIsLost(v: Vault, secret: string, now: Json, lo: nat, hi: nat)
    requires v.reprint("9007199254740993") == Some("9007199254740992") && v.encrypted(secret)
    requires var was := Obj(map["amount" := Scalar("9007199254740993"), "iban" := Str(secret)]);
             Rewrites(v, was, now, lo, hi) && NoncesBelow(v, was, lo)
    ensures now.Obj? && "amount" in now.fields && now.fields["amount"] == Scalar("9007199254740992")
  {
    var was := Obj(map["amount" := Scalar("9007199254740993"), "iban" := Str(secret)]);
    assert HasCiphertext(v, was.fields["iban"]);
    RewrittenIffCiphertext(v, was, now, lo, hi);
    var d := Decoded(v, was);
    assert d.fields["amount"] == Decoded(v, was.fields["amount"]);
    assert Rotated(v, d.fields["amount"], now.fields["amount"], lo, hi);
  }

  // ------------------------------------------------------------------
  // A record that has been rewritten once
  // ------------------------------------------------------------------

  /** Reprinting is idempotent, as printing the shortest text of a float is. */
  ghost predicate Stable(v: Vault) {
    forall r :: v.reprint(r).Some? ==> v.reprint(v.reprint(r).value) == v.reprint(r)
  }

  lemma {:induction false} RotatedIsFixed(v: Vault, j: Json, now: Json, lo: nat, hi: nat)
    requires Stable(v) && Decodes(v, j) && Rotated(v, Decoded(v, j), now, lo, hi)
    ensures ScalarsFixed(v, now)
    decreases j
  {
    match j
    case Obj(f) =>
      forall k | k in f ensures ScalarsFixed(v, now.fields[k]) {
        assert Rotated(v, Decoded(v, j).fields[k], now.fields[k], lo, hi);
        RotatedIsFixed(v, f[k], now.fields[k], lo, hi);
      }
    case Arr(a) =>
      forall i | 0 <= i < |a| ensures ScalarsFixed(v, now.items[i]) {
        assert Rotated(v, Decoded(v, j).items[i], now.items[i], lo, hi);
        RotatedIsFixed(v, a[i], now.items[i], lo, hi);
      }
    case Str(_) =>
    case Scalar(_) =>
  }

  lemma {:induction false} FixedDecodes(v: Vault, j: Json)
    requires ScalarsFixed(v, j)
    ensures Decodes(v, j)
    decreases j
  {
    match j
    case Obj(f) =>
      forall k | k in f ensures Decodes(v, f[k]) {
        FixedDecodes(v, f[k]);
      }
    case Arr(a) =>
      forall i | 0 <= i < |a| ensures Decodes(v, a[i]) {
        FixedDecodes(v, a[i]);
      }
    case Str(_) =>
    case Scalar(_) =>
  }

  /** What the first sweep did to scalars is all that happens to them: a second sweep loses nothing more. */
  lemma SecondRewriteReadsSame(v: Vault, a: Json, b: Json, c: Json, n0: nat, n1: nat, n2: nat, n3: nat)
    requires Stable(v) && NoncesBelow(v, a, n0) && n0 <= n1 <= n2
    requires Rewrites(v, a, b, n0, n1) && Rewrites(v, b, c, n2, n3)
    ensures Read(v, c) == Read(v, b)
    ensures c != b <==> HasCiphertext(v, a)
    ensures Rewritable(v, b)
  {
    OnlyScalarsMove(v, a, b, n0, n1);
    RewrittenIffCiphertext(v, a, b, n0, n1);
    RewrittenBelow(v, a, b, n0, n1, n2);
    RewrittenIffCiphertext(v, b, c, n2, n3);
    if b != a {
      RotatedIsFixed(v, a, b, n0, n1);
    }
    SweptReadsSameIff(v, b, c, n2, n3);
  }

  lemma RewrittenBelow(v: Vault, a: Json, b: Json, lo: nat, hi: nat, n: nat)
    requires Rewrites(v, a, b, lo, hi) && NoncesBelow(v, a, lo) && lo <= n && hi <= n
    ensures NoncesBelow(v, b, n)
  {
    if b == a {
      BelowMore(v, a, lo, n);
    } else {
      RotatedStaysOpen(v, Decoded(v, a), b, lo, hi);
      BelowMore(v, b, hi, n);
    }
  }

  lemma {:induction false} BelowMore(v: Vault, j: Json, n: nat, m: nat)
    requires NoncesBelow(v, j, n) && n <= m
    ensures NoncesBelow(v, j, m)
    decreases j
  {
    match j
    case Obj(f) =>
      forall k | k in f ensures NoncesBelow(v, f[k], m) {
        BelowMore(v, f[k], n, m);
      }
    case Arr(a) =>
      forall i | 0 <= i < |a| ensures NoncesBelow(v, a[i], m) {
        BelowMore(v, a[i], n, m);
      }
    case Str(_) =>
    case Scalar(_) =>
  }
}
