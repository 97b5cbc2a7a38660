/**
 The master-key rotation sweep over one tenant's records: pages in id order above the last id seen, each
 page in its own transaction. Ids are numbers, zero being the nil id.
 */
module KeyRotation {
  import opened Common
  import opened Reencryption

  type Rows = map<nat, Json>

  // ------------------------------------------------------------------
  // Pages
  // ------------------------------------------------------------------

  ghost predicate Increasing(s: seq<nat>) {
    forall i, j :: 0 <= i < j < |s| ==> s[i] < s[j]
  }

  /** Some ids above `last`, in order, with none left out below the greatest of them. */
  ghost predicate IsPage(ids: set<nat>, last: nat, page: seq<nat>) {
    && Increasing(page)
    && (forall i :: 0 <= i < |page| ==> page[i] in ids && page[i] > last)
    && (forall id :: id in ids && id > last && id !in page ==> forall i :: 0 <= i < |page| ==> page[i] < id)
  }

  method Least(ids: set<nat>) returns (m: nat)
    requires ids != {}
    ensures m in ids && forall id :: id in ids ==> m <= id
  {
    m :| m in ids;
    var left := ids - {m};
    while left != {}
      invariant m in ids && left <= ids && forall id :: id in ids && id !in left ==> m <= id
    {
      var id :| id in left;
      m := if id < m then id else m;
      left := left - {id};
    }
  }

  /** SELECT ... WHERE id > last ORDER BY id LIMIT limit. */
  method SelectPage(ids: set<nat>, last: nat, limit: nat) returns (page: seq<nat>)
    ensures IsPage(ids, last, page) && |page| <= limit
    ensures |page| < limit ==> forall id :: id in ids && id > last ==> id in page
  {
    page := [];
    var left := set id | id in ids && id > last;
    while |page| < limit && left != {}
      invariant |page| <= limit && Increasing(page)
      invariant forall id :: id in left ==> id in ids && id > last && forall i :: 0 <= i < |page| ==> page[i] < id
      invariant forall i :: 0 <= i < |page| ==> page[i] in ids && page[i] > last
      invariant forall id :: id in ids && id > last ==> id in page || id in left
      decreases limit - |page|
    {
      var m := Least(left);
      left := left - {m};
      page := page + [m];
    }
  }

  // ------------------------------------------------------------------
  // What a sweep leaves behind
  // ------------------------------------------------------------------

  ghost predicate RowRotated(v: Vault, was: Rows, now: Rows, id: nat, lo: nat, hi: nat) {
    id in was && id in now && Rewrites(v, was[id], now[id], lo, hi)
  }

  /** The rows in `done` are rewritten as need be and the others are as they were. */
  ghost predicate SweptOver(v: Vault, was: Rows, now: Rows, done: seq<nat>, lo: nat, hi: nat) {
    && now.Keys == was.Keys
    && (forall id {:trigger RowRotated(v, was, now, id, lo, hi)} :: id in done ==> RowRotated(v, was, now, id, lo, hi))
    && (forall id :: id in was && id !in done ==> now[id] == was[id])
  }

  /** The visited rows that no longer read as before, byte for byte. */
  ghost function Rewritten(was: Rows, now: Rows, done: seq<nat>): set<nat> {
    set id | id in done && id in was && id in now && now[id] != was[id]
  }

  lemma VisitOne(v: Vault, was: Rows, now: Rows, done: seq<nat>, lo: nat, mid: nat, hi: nat, id: nat, j: Json)
    requires SweptOver(v, was, now, done, lo, mid) && id in was && id !in done && lo <= mid <= hi
    requires Rewrites(v, was[id], j, mid, hi)
    ensures SweptOver(v, was, now[id := j], done + [id], lo, hi)
    ensures Rewritten(was, now[id := j], done + [id]) == Rewritten(was, now, done) + if j != was[id] then {id} else {}
  {
    var now' := now[id := j];
    forall x | x in done + [id] ensures RowRotated(v, was, now', x, lo, hi) {
      if x == id {
        RewritesWidens(v, was[id], j, mid, hi, lo, hi);
      } else {
        assert RowRotated(v, was, now, x, lo, mid);
        RewritesWidens(v, was[x], now[x], lo, mid, lo, hi);
      }
    }
  }

  lemma SweptOverWidens(v: Vault, was: Rows, now: Rows, done: seq<nat>, lo: nat, hi: nat, hi': nat)
    requires SweptOver(v, was, now, done, lo, hi) && hi <= hi'
    ensures SweptOver(v, was, now, done, lo, hi')
  {
    forall id | id in done ensures RowRotated(v, was, now, id, lo, hi') {
      assert RowRotated(v, was, now, id, lo, hi);
      RewritesWidens(v, was[id], now[id], lo, hi, lo, hi');
    }
  }

  /** After a row is visited, everything not yet visited lies above it. */
  ghost predicate VisitedBelow(rows: Rows, done: seq<nat>, last: nat) {
    && Increasing(done)
    && (forall i :: 0 <= i < |done| ==> done[i] in rows && 0 < done[i] <= last)
    && (forall id :: id in rows && 0 < id <= last ==> id in done)
  }

  lemma {:induction false} SubsetSize(a: set<nat>, b: set<nat>)
    requires a <= b
    ensures |a| <= |b|
    decreases a
  {
    if a != {} {
      var x :| x in a;
      SubsetSize(a - {x}, b - {x});
    }
  }

  /** No record above the nil id stops the sweep. */
  ghost predicate AllRewritable(v: Vault, rows: Rows) {
    forall id {:trigger Rewritable(v, rows[id])} :: id in rows && id > 0 ==> Rewritable(v, rows[id])
  }

  lemma AllRewritableIff(v: Vault, rows: Rows)
    ensures AllRewritable(v, rows) <==> forall id, path :: id in rows && id > 0 ==> FitsAt(v, rows[id], path)
  {
    forall id | id in rows ensures Rewritable(v, rows[id]) <==> forall path :: FitsAt(v, rows[id], path) {
      RewritableIff(v, rows[id]);
    }
  }

  /** The sweep has reached `last`: which rows are done and how many were rewritten. */
  ghost predicate Reached(v: Vault, was: Rows, now: Rows, done: seq<nat>, last: nat, rotated: nat, lo: nat, hi: nat) {
    && lo <= hi && SweptOver(v, was, now, done, lo, hi)
    && VisitedBelow(was, done, last)
    && rotated == |Rewritten(was, now, done)|
  }

  /** How far a sweep has got: the rows now, those visited, the last id, the count and the next nonce. */
  datatype Progress = Progress(now: Rows, done: seq<nat>, last: nat, rotated: nat, next: nat)

  /** `Reached` of a progress, for a sweep that started from `was` with nonce `lo`. */
  ghost function Standing(v: Vault, was: Rows, lo: nat): Progress -> bool {
    (p: Progress) => Reached(v, was, p.now, p.done, p.last, p.rotated, lo, p.next)
  }

  /** `id` is the next row above `last`. */
  ghost predicate NextAbove(rows: Rows, last: nat, id: nat) {
    id in rows && last < id && forall x :: x in rows && last < x ==> id <= x
  }

  lemma VisitedGrows(rows: Rows, done: seq<nat>, last: nat, id: nat)
    requires VisitedBelow(rows, done, last) && NextAbove(rows, last, id)
    ensures id !in done && VisitedBelow(rows, done + [id], id)
  {
  }

  lemma Advance(v: Vault, was: Rows, now: Rows, done: seq<nat>, last: nat, rotated: nat, lo: nat, mid: nat, hi: nat,
                id: nat, j: Json)
    requires Reached(v, was, now, done, last, rotated, lo, mid) && NextAbove(was, last, id) && mid <= hi
    requires Rewrites(v, was[id], j, mid, hi)
    ensures Reached(v, was, now[id := j], done + [id], id, if j != was[id] then rotated + 1 else rotated, lo, hi)
  {
    VisitedGrows(was, done, last, id);
    VisitOne(v, was, now, done, lo, mid, hi, id, j);
    assert id !in Rewritten(was, now, done);
  }

  ghost function Above(rows: Rows, last: nat): set<nat> {
    set id | id in rows && id > last
  }

  lemma AboveShrinks(rows: Rows, last: nat, id: nat)
    requires id in rows && last < id
    ensures |Above(rows, id)| < |Above(rows, last)|
  {
    SubsetSize(Above(rows, id) + {id}, Above(rows, last));
  }

  /** The id before position `i` of a page that starts above `last`. */
  function Before(last: nat, page: seq<nat>, i: nat): nat
    requires i <= |page|
  {
    if i == 0 then last else page[i - 1]
  }

  /** Each id of the page is the next row above the one before it. */
  ghost predicate Consecutive(rows: Rows, last: nat, page: seq<nat>) {
    forall i {:trigger Before(last, page, i)} :: 0 <= i < |page| ==> NextAbove(rows, Before(last, page, i), page[i])
  }

  lemma PagesAreConsecutive(rows: Rows, last: nat, page: seq<nat>)
    requires IsPage(rows.Keys, last, page)
    ensures Consecutive(rows, last, page)
  {
    forall i | 0 <= i < |page| ensures NextAbove(rows, Before(last, page, i), page[i]) {
      forall x | x in rows && Before(last, page, i) < x ensures page[i] <= x {
        if x in page {
          var k :| 0 <= k < |page| && page[k] == x;
        }
      }
    }
  }

  // ------------------------------------------------------------------
  // The table
  // ------------------------------------------------------------------

  class Records {
    var rows: Rows

    /** One record inside the page's transaction. */
    method RotateRow(v: Vault, id: nat, nonce: nat) returns (ok: bool, changed: bool, next: nat)
      requires Sound(v) && id in rows
      modifies this
      ensures nonce <= next
      ensures ok <==> Rewritable(v, old(rows)[id])
      ensures !ok ==> rows == old(rows)
      ensures ok ==> rows.Keys == old(rows).Keys && rows == old(rows)[id := rows[id]]
      ensures ok ==> Rewrites(v, old(rows)[id], rows[id], nonce, next) && (changed <==> rows[id] != old(rows)[id])
    {
      var r;
      r, changed, next := RewriteEncrypted(v, rows[id], nonce);
      ok := r.Some?;
      if ok && changed {
        rows := rows[id := r.value];
      }
    }

    /** The next row above the last one: rotated, or the evidence that some row stops the sweep. */
    method RotateNext(v: Vault, id: nat, rotated: nat, nonce: nat, ghost was: Rows, ghost lo: nat, ghost p: Progress)
      returns (ok: bool, rotatedOut: nat, next: nat)
      requires Sound(v) && Standing(v, was, lo)(p) && p.now == rows && p.rotated == rotated && p.next == nonce
      requires NextAbove(was, p.last, id)
      modifies this
      ensures nonce <= next
      ensures ok ==> Standing(v, was, lo)(Progress(rows, p.done + [id], id, rotatedOut, next))
      ensures !ok ==> !AllRewritable(v, was)
    {
      VisitedGrows(was, p.done, p.last, id);
      assert id in rows && rows[id] == was[id];
      var changed;
      ok, changed, next := RotateRow(v, id, nonce);
      rotatedOut := if ok && changed then rotated + 1 else rotated;
      if ok {
        Advance(v, was, p.now, p.done, p.last, rotated, lo, nonce, next, id, rows[id]);
      }
    }

    /** The rows of one page in order, up to the first that stops the sweep. */
    method RotatePage(v: Vault, last: nat, page: seq<nat>, rotated: nat, nonce: nat,
                      ghost was: Rows, ghost lo: nat, ghost p: Progress)
      returns (ok: bool, lastOut: nat, rotatedOut: nat, next: nat, ghost p': Progress)
      requires Sound(v) && Standing(v, was, lo)(p) && p == Progress(rows, p.done, last, rotated, nonce)
      requires Consecutive(was, last, page)
      modifies this
      ensures nonce <= next
      ensures ok ==> Standing(v, was, lo)(p') && p' == Progress(rows, p'.done, lastOut, rotatedOut, next)
      ensures ok ==> lastOut == Before(last, page, |page|)
      ensures !ok ==> !AllRewritable(v, was)
    {
      ok, lastOut, rotatedOut, next, p' := true, last, rotated, nonce, p;
      var i := 0;
      while i < |page|
        invariant 0 <= i <= |page| && nonce <= next && lastOut == Before(last, page, i)
        invariant Standing(v, was, lo)(p') && p' == Progress(rows, p'.done, lastOut, rotatedOut, next)
      {
        ok, rotatedOut, next := RotateNext(v, page[i], rotatedOut, next, was, lo, p');
        if !ok {
          return;
        }
        lastOut := page[i];
        p' := Progress(rows, p'.done + [page[i]], lastOut, rotatedOut, next);
        i := i + 1;
      }
    }

    /** One page's transaction: every row or, when some row stops the sweep, none of them. */
    method RotateBatch(v: Vault, last: nat, limit: nat, rotated: nat, nonce: nat, ghost was: Rows, ghost lo: nat,
                       ghost p: Progress)
      returns (finished: bool, ok: bool, lastOut: nat, rotatedOut: nat, next: nat, ghost p': Progress)
      requires Sound(v) && Standing(v, was, lo)(p) && p == Progress(rows, p.done, last, rotated, nonce)
      modifies this
      ensures nonce <= next
      ensures ok ==> Standing(v, was, lo)(p') && p' == Progress(rows, p'.done, lastOut, rotatedOut, next)
      ensures !ok ==> limit > 0 && rows == old(rows) && !AllRewritable(v, was)
      ensures ok && finished ==> p' == p && (limit == 0 || Above(was, last) == {})
      ensures ok && !finished ==> limit > 0 && last < lastOut && lastOut in was
    {
      assert rows.Keys == was.Keys;
      var page := SelectPage(rows.Keys, last, limit);
      finished, ok, lastOut, rotatedOut, next, p' := true, true, last, rotated, nonce, p;
      if |page| == 0 {
        return;
      }
      finished := false;
      var saved := rows;
      PagesAreConsecutive(was, last, page);
      ok, lastOut, rotatedOut, next, p' := RotatePage(v, last, page, rotated, nonce, was, lo, p);
      if !ok {
        rows := saved;
      }
    }

    /**
     The whole sweep. With a positive page size it visits every record above the nil id exactly once, in
     id order, and succeeds exactly when, at every path of those records, a scalar decodes and a ciphertext
     opens under the current or the previous key; whatever happens, each row is either rewritten whole or untouched.
     */
    method RotateTenant(v: Vault, limit: nat, nonce: nat)
      returns (ok: bool, rotated: nat, next: nat, ghost visited: seq<nat>)
      requires Sound(v)
      modifies this
      ensures nonce <= next && SweptOver(v, old(rows), rows, visited, nonce, next) && Increasing(visited)
      ensures limit == 0 ==> ok && rows == old(rows) && rotated == 0
      ensures limit > 0 ==> (ok <==> AllRewritable(v, old(rows)))
      ensures limit > 0 ==> (ok <==> forall id, path :: id in old(rows) && id > 0 ==> FitsAt(v, old(rows)[id], path))
      ensures limit > 0 && ok ==> forall id :: id in visited <==> id in old(rows) && id > 0
      ensures ok ==> rotated == |Rewritten(old(rows), rows, visited)|
    {
      ghost var was := rows;
      AllRewritableIff(v, was);
      var last := 0;
      rotated, next, visited := 0, nonce, [];
      assert Rewritten(was, rows, visited) == {};
      ghost var p := Progress(rows, [], 0, 0, nonce);
      var finished := false;
      ok := true;
      while !finished
        invariant ok && nonce <= next && Standing(v, was, nonce)(p) && p == Progress(rows, p.done, last, rotated, next)
        invariant limit == 0 ==> p.done == [] && rows == was
        invariant finished ==> limit == 0 || Above(was, last) == {}
        decreases !finished, |Above(was, last)|
      {
        ghost var before := p;
        finished, ok, last, rotated, next, p := RotateBatch(v, last, limit, rotated, next, was, nonce, p);
        if !ok {
          SweptOverWidens(v, was, rows, before.done, nonce, before.next, next);
          visited := before.done;
          return;
        }
        if !finished {
          AboveShrinks(was, before.last, last);
        }
      }
      visited := p.done;
      if limit > 0 {
        EverythingVisited(v, was, rows, visited, last, rotated, nonce, next);
      }
    }
  }

  lemma EverythingVisited(v: Vault, was: Rows, now: Rows, done: seq<nat>, last: nat, rotated: nat, lo: nat, hi: nat)
    requires Reached(v, was, now, done, last, rotated, lo, hi) && Above(was, last) == {}
    ensures AllRewritable(v, was) && forall id :: id in done <==> id in was && id > 0
  {
    forall id | id in was && id > 0 ensures id in done && Rewritable(v, was[id]) {
      assert id !in Above(was, last);
      assert RowRotated(v, was, now, id, lo, hi);
      RewritesOnlyRewritable(v, was[id], now[id], lo, hi);
    }
  }

  // ------------------------------------------------------------------
  // What the sweep is for
  // ------------------------------------------------------------------

  ghost predicate ReadsSame(v: Vault, was: Rows, v': Vault, now: Rows, id: nat) {
    id in was && id in now && Read(v', now[id]) == Read(v, was[id])
  }

  /** What a reader may see of a record after any sweep: what it was, or that with its scalars reprinted. */
  ghost predicate ReadsAsDecoded(v: Vault, was: Rows, v': Vault, now: Rows, id: nat) {
    && id in was && id in now
    && (Read(v', now[id]) == Read(v, was[id])
        || (Decodes(v, was[id]) && Read(v', now[id]) == Read(v, Decoded(v, was[id]))))
  }

  /** Finished, failed or interrupted between pages: no string, plaintext or field of any record is lost. */
  lemma OnlyScalarsAreTouched(v: Vault, was: Rows, now: Rows, done: seq<nat>, lo: nat, hi: nat, id: nat)
    requires SweptOver(v, was, now, done, lo, hi) && id in was
    ensures ReadsAsDecoded(v, was, v, now, id)
  {
    if id in done {
      assert RowRotated(v, was, now, id, lo, hi);
      OnlyScalarsMove(v, was[id], now[id], lo, hi);
    }
  }

  /** A visited record reads the same exactly when it has no ciphertext or every scalar in it keeps its text. */
  lemma NothingIsLostIff(v: Vault, was: Rows, now: Rows, done: seq<nat>, lo: nat, hi: nat, id: nat)
    requires SweptOver(v, was, now, done, lo, hi) && id in was && id in done && NoncesBelow(v, was[id], lo)
    ensures ReadsSame(v, was, v, now, id) <==> !HasCiphertext(v, was[id]) || ScalarsFixed(v, was[id])
  {
    assert RowRotated(v, was, now, id, lo, hi);
    SweptReadsSameIff(v, was[id], now[id], lo, hi);
  }

  /**
   After a complete sweep the previous key can be dropped: the current key alone opens every record above
   the nil id and reads what both keys read before, exactly but for scalars that do not survive decoding.
   */
  lemma PreviousKeyCanBeDropped(v: Vault, was: Rows, now: Rows, done: seq<nat>, lo: nat, hi: nat, id: nat)
    requires SweptOver(v, was, now, done, lo, hi) && (forall x :: x in done <==> x in was && x > 0)
    requires id in was && id > 0 && NoncesBelow(v, was[id], lo)
    ensures AllOpen(v.(previous := None), now[id]) && ReadsAsDecoded(v, was, v.(previous := None), now, id)
    ensures ReadsSame(v, was, v.(previous := None), now, id) <==> !HasCiphertext(v, was[id]) || ScalarsFixed(v, was[id])
  {
    assert RowRotated(v, was, now, id, lo, hi);
    OnlyScalarsMove(v, was[id], now[id], lo, hi);
    SweptReadsSameIff(v, was[id], now[id], lo, hi);
  }

  /**
   A second complete sweep still succeeds and changes nothing a reader sees, but it is not a no-op on the
   stored bytes: it rewrites exactly the records that hold a ciphertext leaf, although all are under the
   current key.
   */
  lemma SecondSweepRewrites(v: Vault, a: Rows, b: Rows, c: Rows, d1: seq<nat>, d2: seq<nat>,
                            n0: nat, n1: nat, n2: nat, n3: nat, id: nat)
    requires SweptOver(v, a, b, d1, n0, n1) && (forall x :: x in d1 <==> x in a && x > 0)
    requires SweptOver(v, b, c, d2, n2, n3) && (forall x :: x in d2 <==> x in b && x > 0)
    requires Stable(v) && n0 <= n1 <= n2 && id in a && id > 0 && NoncesBelow(v, a[id], n0)
    ensures Rewritable(v, b[id]) && ReadsSame(v, b, v, c, id)
    ensures c[id] != b[id] <==> HasCiphertext(v, a[id])
  {
    assert RowRotated(v, a, b, id, n0, n1) && RowRotated(v, b, c, id, n2, n3);
    SecondRewriteReadsSame(v, a[id], b[id], c[id], n0, n1, n2, n3);
  }
}
