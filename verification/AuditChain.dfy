/**
 The audit hash chain: the bytes a row's hash covers, what a valid chain is, the verifier that
 walks it, and what the newest hash commits to. SHA-256, the JSON canonicaliser, the JSONB column
 and the timestamp formatter are functions of an environment record.
 */
module AuditChain {
  import opened Common

  type Bytes = seq<int>

  const HASH_SIZE := 32

  datatype Env = Env(
    hash: Bytes -> Bytes,
    validJson: Bytes -> bool,
    canonical: Bytes -> Bytes,     // re-marshalled JSON, or the bytes themselves when that fails
    stored: Bytes -> Bytes,        // what a JSONB column returns for what was written
    formatTime: nat -> Bytes)      // RFC 3339 of an instant in nanoseconds

  /** The column returns a document that canonicalises as the logged one did. */
  predicate FaithfulDoc(env: Env, b: Bytes) {
    env.canonical(env.stored(b)) == env.canonical(b) && env.stored(b) != []
  }

  datatype Entry = Entry(
    tenantId: Bytes,
    actorId: Option<Bytes>,
    actorKind: string,
    action: Bytes,
    targetKType: string,
    targetId: Option<Bytes>,
    before: Option<Bytes>,
    after: Option<Bytes>,
    context: Option<Bytes>)

  /** One audit_log row; `rowHash` is None on rows older than the chain. */
  datatype Row = Row(id: nat, entry: Entry, createdAt: nat, prevHash: Option<Bytes>, rowHash: Option<Bytes>)

  function ZeroSeed(): Bytes { seq(HASH_SIZE, _ => 0) }

  function SeedBytes(prev: Option<Bytes>): Bytes {
    if prev.None? then ZeroSeed() else prev.value
  }

  /** 32 zero bytes stand for a missing previous hash. */
  lemma SeedMeans(prev: Option<Bytes>)
    ensures prev.None? ==> |SeedBytes(prev)| == 32 && forall i :: 0 <= i < 32 ==> SeedBytes(prev)[i] == 0
    ensures prev.Some? ==> SeedBytes(prev) == prev.value
  {
  }

  /** Nil for an absent, empty or invalid document. */
  function NormalizeJson(env: Env, v: Option<Bytes>): Option<Bytes> {
    if v.None? || v.value == [] || !env.validJson(v.value) then None else v
  }

  function JsonBytes(env: Env, v: Option<Bytes>): Bytes {
    if v.None? || v.value == [] then [] else env.canonical(v.value)
  }

  function OrEmpty(v: Option<Bytes>): Bytes { if v.None? then [] else v.value }

  /** Everything after the previous hash that the digest covers, in order and without separators. */
  function Fields(env: Env, e: Entry, createdAt: nat): Bytes {
    e.tenantId + OrEmpty(e.targetId) + e.action
    + JsonBytes(env, e.before) + JsonBytes(env, e.after) + JsonBytes(env, e.context)
    + env.formatTime(createdAt)
  }

  /** The chain arithmetic only needs the digest and the byte string it covers besides the previous hash. */
  datatype Scheme = Scheme(hash: Bytes -> Bytes, fields: (Entry, nat) -> Bytes)

  function SchemeOf(env: Env): Scheme {
    Scheme(env.hash, (e: Entry, createdAt: nat) => Fields(env, e, createdAt))
  }

  /** A digest has 32 bytes. */
  ghost predicate FixedSize(sc: Scheme) {
    forall b :: |sc.hash(b)| == HASH_SIZE
  }

  function Preimage(sc: Scheme, prev: Option<Bytes>, e: Entry, createdAt: nat): Bytes {
    SeedBytes(prev) + sc.fields(e, createdAt)
  }

  /** The digest fed piece by piece, as the writer and the verifier both compute it. */
  method ComputeRowHash(env: Env, prev: Option<Bytes>, e: Entry, createdAt: nat) returns (h: Bytes)
    ensures h == env.hash(Preimage(SchemeOf(env), prev, e, createdAt))
    ensures h == env.hash(SeedBytes(prev)
                          + (e.tenantId + (if e.targetId.Some? then e.targetId.value else []) + e.action
                             + JsonBytes(env, e.before) + JsonBytes(env, e.after) + JsonBytes(env, e.context)
                             + env.formatTime(createdAt)))
  {
    var seed: Bytes;
    if prev.None? {
      seed := seq(HASH_SIZE, _ => 0);
    } else {
      seed := prev.value;
    }
    var fed := e.tenantId;
    if e.targetId.Some? {
      fed := fed + e.targetId.value;
    }
    fed := fed + e.action;
    fed := fed + JsonBytes(env, e.before);
    fed := fed + JsonBytes(env, e.after);
    fed := fed + JsonBytes(env, e.context);
    fed := fed + env.formatTime(createdAt);
    assert fed == Fields(env, e, createdAt);
    return env.hash(seed + fed);
  }

  // ------------------------------------------------------------------
  // Valid chains and the verifier
  // ------------------------------------------------------------------

  /** The hash the next row must name as its predecessor. */
  function Head(rows: seq<Row>): Option<Bytes> {
    if rows == [] then None else rows[|rows| - 1].rowHash
  }

  ghost predicate Links(sc: Scheme, last: Option<Bytes>, row: Row) {
    row.rowHash.Some? ==>
      && row.prevHash == last
      && row.rowHash.value == sc.hash(Preimage(sc, row.prevHash, row.entry, row.createdAt))
  }

  ghost predicate ValidChain(sc: Scheme, rows: seq<Row>) {
    forall i :: 0 <= i < |rows| ==> Links(sc, Head(rows[..i]), rows[i])
  }

  lemma ValidAppend(sc: Scheme, rows: seq<Row>, row: Row)
    ensures ValidChain(sc, rows + [row]) <==> ValidChain(sc, rows) && Links(sc, Head(rows), row)
  {
    var all := rows + [row];
    assert all[..|rows|] == rows;
    assert forall i :: 0 <= i < |rows| ==> all[..i] == rows[..i] && all[i] == rows[i];
    if ValidChain(sc, all) {
      assert Links(sc, Head(all[..|rows|]), all[|rows|]);
      forall i | 0 <= i < |rows| ensures Links(sc, Head(rows[..i]), rows[i]) {
        assert Links(sc, Head(all[..i]), all[i]);
      }
    }
  }

  lemma ValidPrefix(sc: Scheme, rows: seq<Row>, n: nat)
    requires ValidChain(sc, rows) && n <= |rows|
    ensures ValidChain(sc, rows[..n])
  {
    assert forall i :: 0 <= i < n ==> rows[..n][..i] == rows[..i];
  }

  datatype Verdict = Intact | PrevHashMismatch(id: nat) | RowHashMismatch(id: nat)

  /** Walks the rows in id order and stops at the first row that does not link. */
  method VerifyChain(env: Env, rows: seq<Row>) returns (verdict: Verdict, checked: nat)
    ensures verdict.Intact? <==> ValidChain(SchemeOf(env), rows)
    ensures verdict.Intact? ==> checked == |rows|
    ensures !verdict.Intact? ==>
              && 1 <= checked <= |rows|
              && ValidChain(SchemeOf(env), rows[..checked - 1])
              && var bad := rows[checked - 1];
              && !Links(SchemeOf(env), Head(rows[..checked - 1]), bad)
              && verdict.id == bad.id
              && (verdict.PrevHashMismatch? <==> bad.prevHash != Head(rows[..checked - 1]))
    ensures forall i {:trigger Breaks(SchemeOf(env), rows, i)} :: 0 <= i < |rows| && Breaks(SchemeOf(env), rows, i) ==>
              && checked == i + 1
              && verdict == if rows[i].prevHash != Head(rows[..i]) then PrevHashMismatch(rows[i].id)
                            else RowHashMismatch(rows[i].id)
  {
    checked := 0;
    var lastHash: Option<Bytes> := None;
    while checked < |rows|
      invariant 0 <= checked <= |rows|
      invariant lastHash == Head(rows[..checked])
      invariant ValidChain(SchemeOf(env), rows[..checked])
    {
      var row := rows[checked];
      assert rows[..checked + 1] == rows[..checked] + [row];
      ValidAppend(SchemeOf(env), rows[..checked], row);
      checked := checked + 1;
      if row.rowHash.Some? {
        if row.prevHash != lastHash {
          NotValidBeyond(SchemeOf(env), rows, checked);
          BreaksOnce(SchemeOf(env), rows, checked - 1);
          return PrevHashMismatch(row.id), checked;
        }
        var want := ComputeRowHash(env, row.prevHash, row.entry, row.createdAt);
        if want != row.rowHash.value {
          NotValidBeyond(SchemeOf(env), rows, checked);
          BreaksOnce(SchemeOf(env), rows, checked - 1);
          return RowHashMismatch(row.id), checked;
        }
      }
      lastHash := row.rowHash;
    }
    assert rows[..checked] == rows;
    return Intact, checked;
  }

  /** Row `i` is the first that does not link. */
  ghost predicate Breaks(sc: Scheme, rows: seq<Row>, i: nat)
    requires i < |rows|
  {
    ValidChain(sc, rows[..i]) && !Links(sc, Head(rows[..i]), rows[i])
  }

  lemma PrefixLinks(sc: Scheme, rows: seq<Row>, lo: nat, hi: nat)
    requires lo < hi <= |rows|
    ensures ValidChain(sc, rows[..hi]) ==> Links(sc, Head(rows[..lo]), rows[lo])
  {
    assert rows[..hi][..lo] == rows[..lo] && rows[..hi][lo] == rows[lo];
  }

  lemma BreaksOnce(sc: Scheme, rows: seq<Row>, n: nat)
    requires n < |rows| && Breaks(sc, rows, n)
    ensures forall i {:trigger Breaks(sc, rows, i)} :: 0 <= i < |rows| && Breaks(sc, rows, i) ==> i == n
  {
    forall i | 0 <= i < |rows| && i != n ensures !Breaks(sc, rows, i) {
      PrefixLinks(sc, rows, if i < n then i else n, if i < n then n else i);
    }
  }

  lemma NotValidBeyond(sc: Scheme, rows: seq<Row>, n: nat)
    requires n <= |rows| && !ValidChain(sc, rows[..n])
    ensures !ValidChain(sc, rows)
  {
  }

  // ------------------------------------------------------------------
  // What the newest hash commits to
  // ------------------------------------------------------------------

  function Covered(sc: Scheme, r: Row): Bytes { Preimage(sc, r.prevHash, r.entry, r.createdAt) }

  /** Every row carries a hash: no row older than the chain. */
  ghost predicate AllHashed(rows: seq<Row>) {
    forall i :: 0 <= i < |rows| ==> rows[i].rowHash.Some?
  }

  /** The two chains hash the same byte strings, position by position. */
  ghost predicate SameHistory(sc: Scheme, a: seq<Row>, b: seq<Row>) {
    |a| == |b| && forall i :: 0 <= i < |a| ==> Covered(sc, a[i]) == Covered(sc, b[i])
  }

  /** A collision of the hash, or a byte string that hashes to the zero seed. */
  ghost predicate Broken(sc: Scheme, x: Bytes, y: Bytes) {
    (x != y && sc.hash(x) == sc.hash(y)) || sc.hash(x) == ZeroSeed()
  }

  /** The previous hash of row `n` is its predecessor's, of full size; row 0 has none. */
  lemma PrevHashOf(sc: Scheme, rows: seq<Row>, n: nat)
    requires FixedSize(sc) && ValidChain(sc, rows) && AllHashed(rows) && n < |rows|
    ensures |SeedBytes(rows[n].prevHash)| == HASH_SIZE
    ensures rows[n].prevHash == Head(rows[..n])
    ensures n == 0 ==> SeedBytes(rows[n].prevHash) == ZeroSeed()
    ensures n > 0 ==> rows[n].prevHash.Some? && rows[n].prevHash.value == sc.hash(Covered(sc, rows[n - 1]))
  {
  }

  /** Equal covered strings have equal previous-hash parts, because that part has a fixed size. */
  lemma SameSeed(sc: Scheme, p: Row, q: Row)
    requires Covered(sc, p) == Covered(sc, q)
    requires |SeedBytes(p.prevHash)| == |SeedBytes(q.prevHash)|
    ensures SeedBytes(p.prevHash) == SeedBytes(q.prevHash)
  {
    var n := |SeedBytes(p.prevHash)|;
    assert SeedBytes(p.prevHash) == Covered(sc, p)[..n];
    assert SeedBytes(q.prevHash) == Covered(sc, q)[..n];
  }

  lemma SameHistoryExtends(sc: Scheme, a: seq<Row>, b: seq<Row>)
    requires a != [] && b != []
    requires SameHistory(sc, a[..|a| - 1], b[..|b| - 1]) && Covered(sc, a[|a| - 1]) == Covered(sc, b[|b| - 1])
    ensures SameHistory(sc, a, b)
  {
  }

  /**
   Two valid chains with the same newest hash have the same length and hashed the same bytes at
   every position, unless the two byte strings returned collide or one hashes to the zero seed.
   Nothing is assumed about the hash but its length.
   */
  lemma {:induction false} HeadCommitsToHistory(sc: Scheme, a: seq<Row>, b: seq<Row>) returns (x: Bytes, y: Bytes)
    requires FixedSize(sc)
    requires ValidChain(sc, a) && ValidChain(sc, b) && AllHashed(a) && AllHashed(b)
    requires a != [] && b != [] && Head(a) == Head(b)
    ensures SameHistory(sc, a, b) || Broken(sc, x, y)
    decreases |a|
  {
    var m, n := |a| - 1, |b| - 1;
    assert Links(sc, Head(a[..m]), a[m]) && Links(sc, Head(b[..n]), b[n]);
    x, y := Covered(sc, a[m]), Covered(sc, b[n]);
    if x == y {
      PrevHashOf(sc, a, m);
      PrevHashOf(sc, b, n);
      SameSeed(sc, a[m], b[n]);
      if m > 0 && n > 0 {
        ValidPrefix(sc, a, m);
        ValidPrefix(sc, b, n);
        x, y := HeadCommitsToHistory(sc, a[..m], b[..n]);
        if SameHistory(sc, a[..m], b[..n]) {
          SameHistoryExtends(sc, a, b);
        }
      } else if m > 0 {
        x := Covered(sc, a[m - 1]);
      } else if n > 0 {
        x := Covered(sc, b[n - 1]);
      }
    }
  }

  lemma OneLength(sc: Scheme, a: seq<Row>, b: seq<Row>)
    requires FixedSize(sc) && (forall x, y :: !Broken(sc, x, y))
    requires ValidChain(sc, a) && ValidChain(sc, b) && AllHashed(a) && AllHashed(b)
    requires a != [] && b != [] && Head(a) == Head(b)
    ensures |a| == |b|
  {
    var x, y := HeadCommitsToHistory(sc, a, b);
    assert !Broken(sc, x, y);
  }

  /** With a collision-free hash that never yields the zero seed, no hash occurs twice in a chain. */
  lemma NoHashRepeats(sc: Scheme, rows: seq<Row>, i: nat, j: nat)
    requires FixedSize(sc) && (forall x, y :: !Broken(sc, x, y))
    requires ValidChain(sc, rows) && AllHashed(rows) && i < j < |rows|
    ensures rows[i].rowHash != rows[j].rowHash
  {
    if rows[i].rowHash == rows[j].rowHash {
      PrefixHead(sc, rows, i + 1);
      PrefixHead(sc, rows, j + 1);
      OneLength(sc, rows[..i + 1], rows[..j + 1]);
    }
  }

  lemma PrefixHead(sc: Scheme, rows: seq<Row>, n: nat)
    requires ValidChain(sc, rows) && AllHashed(rows) && 0 < n <= |rows|
    ensures ValidChain(sc, rows[..n]) && AllHashed(rows[..n]) && Head(rows[..n]) == rows[n - 1].rowHash
  {
    ValidPrefix(sc, rows, n);
  }

  // ------------------------------------------------------------------
  // What a hash covers
  // ------------------------------------------------------------------

  ghost predicate CollisionFree(env: Env) {
    forall x, y :: x != y ==> env.hash(x) != env.hash(y)
  }

  lemma SameMiddle(a: Bytes, x: Bytes, y: Bytes, b: Bytes)
    ensures a + x + b == a + y + b <==> x == y
  {
    if a + x + b == a + y + b {
      assert |x| == |y|;
      assert x == (a + x + b)[|a|..|a| + |x|] == (a + y + b)[|a|..|a| + |y|] == y;
    }
  }

  /** What one document adds to the digest. */
  lemma JsonBytesMeans(env: Env, doc: Bytes)
    ensures JsonBytes(env, None) == [] && JsonBytes(env, Some([])) == []
    ensures doc != [] ==> JsonBytes(env, Some(doc)) == env.canonical(doc)
  {
  }

  /** Tenant, target and action: the hashed bytes stay the same exactly when the field's own bytes do. */
  lemma NamesAreCovered(env: Env, e: Entry, at: nat, bytes: Bytes, target: Option<Bytes>)
    ensures Fields(env, e.(tenantId := bytes), at) == Fields(env, e, at) <==> bytes == e.tenantId
    ensures Fields(env, e.(targetId := target), at) == Fields(env, e, at) <==>
              (if target.Some? then target.value else []) == if e.targetId.Some? then e.targetId.value else []
    ensures Fields(env, e.(action := bytes), at) == Fields(env, e, at) <==> bytes == e.action
  {
    var docs := JsonBytes(env, e.before) + JsonBytes(env, e.after) + JsonBytes(env, e.context) + env.formatTime(at);
    var t := OrEmpty(e.targetId);
    NamesFirst(env, e, at);
    NamesFirst(env, e.(tenantId := bytes), at);
    SameMiddle([], bytes, e.tenantId, t + e.action + docs);
    NamesFirst(env, e.(targetId := target), at);
    SameMiddle(e.tenantId, OrEmpty(target), t, e.action + docs);
    NamesFirst(env, e.(action := bytes), at);
    SameMiddle(e.tenantId + t, bytes, e.action, docs);
  }

  lemma NamesFirst(env: Env, e: Entry, at: nat)
    ensures var docs := JsonBytes(env, e.before) + JsonBytes(env, e.after) + JsonBytes(env, e.context)
                        + env.formatTime(at);
            && Fields(env, e, at) == [] + e.tenantId + (OrEmpty(e.targetId) + e.action + docs)
            && Fields(env, e, at) == e.tenantId + OrEmpty(e.targetId) + (e.action + docs)
            && Fields(env, e, at) == (e.tenantId + OrEmpty(e.targetId)) + e.action + docs
  {
  }

  /** The three documents and the time: likewise. */
  lemma DocumentsAreCovered(env: Env, e: Entry, at: nat, doc: Option<Bytes>, at': nat)
    ensures Fields(env, e.(before := doc), at) == Fields(env, e, at) <==>
              JsonBytes(env, doc) == JsonBytes(env, e.before)
    ensures Fields(env, e.(after := doc), at) == Fields(env, e, at) <==> JsonBytes(env, doc) == JsonBytes(env, e.after)
    ensures Fields(env, e.(context := doc), at) == Fields(env, e, at) <==>
              JsonBytes(env, doc) == JsonBytes(env, e.context)
    ensures Fields(env, e, at') == Fields(env, e, at) <==> env.formatTime(at') == env.formatTime(at)
  {
    var names := e.tenantId + OrEmpty(e.targetId) + e.action;
    var b, a, c, t := JsonBytes(env, e.before), JsonBytes(env, e.after), JsonBytes(env, e.context), env.formatTime(at);
    DocumentsLast(env, e, at);
    DocumentsLast(env, e.(before := doc), at);
    SameMiddle(names, JsonBytes(env, doc), b, a + c + t);
    DocumentsLast(env, e.(after := doc), at);
    SameMiddle(names + b, JsonBytes(env, doc), a, c + t);
    DocumentsLast(env, e.(context := doc), at);
    SameMiddle(names + b + a, JsonBytes(env, doc), c, t);
    DocumentsLast(env, e, at');
    SameMiddle(names + b + a + c, env.formatTime(at'), t, []);
  }

  lemma DocumentsLast(env: Env, e: Entry, at: nat)
    ensures var names := e.tenantId + OrEmpty(e.targetId) + e.action;
            var b, a, c := JsonBytes(env, e.before), JsonBytes(env, e.after), JsonBytes(env, e.context);
            && Fields(env, e, at) == names + b + (a + c + env.formatTime(at))
            && Fields(env, e, at) == (names + b) + a + (c + env.formatTime(at))
            && Fields(env, e, at) == (names + b + a) + c + env.formatTime(at)
            && Fields(env, e, at) == (names + b + a + c) + env.formatTime(at) + []
  {
  }

  /** One hashed field of a row was rewritten so that its own bytes differ. */
  ghost predicate OneFieldRewritten(env: Env, row: Row, e: Entry, at: nat) {
    var was := row.entry;
    || (at == row.createdAt && e == was.(tenantId := e.tenantId) && e.tenantId != was.tenantId)
    || (at == row.createdAt && e == was.(targetId := e.targetId)
        && (if e.targetId.Some? then e.targetId.value else [])
           != (if was.targetId.Some? then was.targetId.value else []))
    || (at == row.createdAt && e == was.(action := e.action) && e.action != was.action)
    || (at == row.createdAt && e == was.(before := e.before) && JsonBytes(env, e.before) != JsonBytes(env, was.before))
    || (at == row.createdAt && e == was.(after := e.after) && JsonBytes(env, e.after) != JsonBytes(env, was.after))
    || (at == row.createdAt && e == was.(context := e.context)
        && JsonBytes(env, e.context) != JsonBytes(env, was.context))
    || (e == was && env.formatTime(at) != env.formatTime(row.createdAt))
  }

  lemma RewritingChangesFields(env: Env, row: Row, e: Entry, at: nat)
    requires OneFieldRewritten(env, row, e, at)
    ensures Fields(env, e, at) != Fields(env, row.entry, row.createdAt)
  {
    NamesAreCovered(env, row.entry, row.createdAt, e.tenantId, e.targetId);
    NamesAreCovered(env, row.entry, row.createdAt, e.action, e.targetId);
    DocumentsAreCovered(env, row.entry, row.createdAt, e.before, at);
    DocumentsAreCovered(env, row.entry, row.createdAt, e.after, at);
    DocumentsAreCovered(env, row.entry, row.createdAt, e.context, at);
  }

  /** Bytes that differ after the previous hash make different digests. */
  lemma DigestsDiffer(env: Env, prev: Option<Bytes>, e: Entry, at: nat, e': Entry, at': nat)
    requires CollisionFree(env) && Fields(env, e, at) != Fields(env, e', at')
    ensures env.hash(Preimage(SchemeOf(env), prev, e, at)) != env.hash(Preimage(SchemeOf(env), prev, e', at'))
  {
    SameMiddle(SeedBytes(prev), Fields(env, e, at), Fields(env, e', at'), []);
    var x, y := SeedBytes(prev) + Fields(env, e, at), SeedBytes(prev) + Fields(env, e', at');
    assert x + [] == x && y + [] == y;
  }

  /**
   Tampering: with a collision-free hash, rewriting the tenant, target, action, a document or the time of a
   hashed row of a valid chain makes that row the first that does not link, and by its digest: the verifier
   answers RowHashMismatch with its id. The rows are those handed to the verifier; its query selects by tenant.
   */
  lemma RewrittenRowBreaks(env: Env, rows: seq<Row>, i: nat, e: Entry, at: nat)
    requires CollisionFree(env) && ValidChain(SchemeOf(env), rows) && i < |rows| && rows[i].rowHash.Some?
    requires OneFieldRewritten(env, rows[i], e, at)
    ensures var rows' := rows[i := rows[i].(entry := e, createdAt := at)];
            Breaks(SchemeOf(env), rows', i) && rows'[i].prevHash == Head(rows'[..i])
  {
    var sc := SchemeOf(env);
    var rows' := rows[i := rows[i].(entry := e, createdAt := at)];
    assert rows'[..i] == rows[..i];
    ValidPrefix(sc, rows, i);
    assert Links(sc, Head(rows[..i]), rows[i]);
    RewritingChangesFields(env, rows[i], e, at);
    DigestsDiffer(env, rows[i].prevHash, rows[i].entry, rows[i].createdAt, e, at);
  }

  /** The verifier on a chain with one rewritten row names that row. */
  method VerifyRewritten(env: Env, rows: seq<Row>, i: nat, e: Entry, at: nat) returns (verdict: Verdict, checked: nat)
    requires CollisionFree(env) && ValidChain(SchemeOf(env), rows) && i < |rows| && rows[i].rowHash.Some?
    requires OneFieldRewritten(env, rows[i], e, at)
    ensures verdict == RowHashMismatch(rows[i].id) && checked == i + 1
  {
    RewrittenRowBreaks(env, rows, i, e, at);
    verdict, checked := VerifyChain(env, rows[i := rows[i].(entry := e, createdAt := at)]);
  }

  // ------------------------------------------------------------------
  // What a hash does not cover
  // ------------------------------------------------------------------

  /** Actor and target type are outside the digest: rewriting them leaves any chain valid. */
  lemma ActorNotCommitted(env: Env, rows: seq<Row>, i: nat, actor: Option<Bytes>, kind: string, ktype: string)
    requires i < |rows|
    ensures var e := rows[i].entry.(actorId := actor, actorKind := kind, targetKType := ktype);
            ValidChain(SchemeOf(env), rows[i := rows[i].(entry := e)]) <==> ValidChain(SchemeOf(env), rows)
  {
    var rows' := rows[i := rows[i].(entry := rows[i].entry.(actorId := actor, actorKind := kind,
                                                            targetKType := ktype))];
    assert forall j :: 0 <= j < |rows| ==> Head(rows'[..j]) == Head(rows[..j]);
    assert Fields(env, rows'[i].entry, rows[i].createdAt) == Fields(env, rows[i].entry, rows[i].createdAt);
    assert forall j :: 0 <= j < |rows| ==> (Links(SchemeOf(env), Head(rows'[..j]), rows'[j]) <==>
                                            Links(SchemeOf(env), Head(rows[..j]), rows[j]));
  }

  /** Fields are joined without separators: a byte can move between action and target and the digest stays. */
  lemma FieldBoundariesNotCommitted(env: Env, prev: Option<Bytes>, e: Entry, target: Bytes, createdAt: nat)
    requires e.targetId.None? && target <= e.action
    ensures var moved := e.(targetId := Some(target), action := e.action[|target|..]);
            Preimage(SchemeOf(env), prev, moved, createdAt) == Preimage(SchemeOf(env), prev, e, createdAt)
  {
  }
}
