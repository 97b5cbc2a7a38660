/**
 Anchor-based insertions into one text, as the tax-pack scaffold applies them: each op is skipped when
 its marker is present, and otherwise inserts its block before the first occurrence of its anchor.
 */
module TextPatch {
  import opened Common

  datatype PatchOp = PatchOp(anchor: string, insertion: string, skipIfPresent: string)

  // ------------------------------------------------------------------
  // Substrings
  // ------------------------------------------------------------------

  predicate OccursAt(s: string, sub: string, i: int) {
    0 <= i && i + |sub| <= |s| && s[i..i + |sub|] == sub
  }

  /** The first occurrence at or after `i`, as strings.Index finds it. */
  function IndexFrom(s: string, sub: string, i: nat): Option<nat>
    decreases |s| - i
  {
    if i + |sub| > |s| then None
    else if s[i..i + |sub|] == sub then Some(i)
    else IndexFrom(s, sub, i + 1)
  }

  lemma {:induction false} IndexIsFirst(s: string, sub: string, i: nat)
    ensures var r := IndexFrom(s, sub, i);
            match r
            case Some(p) => i <= p && OccursAt(s, sub, p) && forall j :: i <= j < p ==> !OccursAt(s, sub, j)
            case None => forall j :: i <= j ==> !OccursAt(s, sub, j)
    decreases |s| - i
  {
    if i + |sub| <= |s| && s[i..i + |sub|] != sub {
      IndexIsFirst(s, sub, i + 1);
    }
  }

  predicate Contains(s: string, sub: string) {
    IndexFrom(s, sub, 0).Some?
  }

  lemma Found(s: string, sub: string) returns (p: nat)
    requires Contains(s, sub)
    ensures IndexFrom(s, sub, 0) == Some(p) && OccursAt(s, sub, p)
  {
    IndexIsFirst(s, sub, 0);
    p := IndexFrom(s, sub, 0).value;
  }

  lemma Finds(s: string, sub: string, i: nat)
    requires OccursAt(s, sub, i)
    ensures Contains(s, sub)
  {
    IndexIsFirst(s, sub, 0);
  }

  /** Occurrences found left to right without overlap, from `i` on. */
  function CountFrom(s: string, sub: string, i: nat): nat
    requires sub != ""
    decreases |s| - i
  {
    if i + |sub| > |s| then 0
    else if s[i..i + |sub|] == sub then 1 + CountFrom(s, sub, i + |sub|)
    else CountFrom(s, sub, i + 1)
  }

  /** strings.Count: the empty string is counted once per character boundary. */
  function Count(s: string, sub: string): nat {
    if sub == "" then |s| + 1 else CountFrom(s, sub, 0)
  }

  lemma {:induction false} CountZero(s: string, sub: string, i: nat)
    requires sub != "" && CountFrom(s, sub, i) == 0
    ensures forall k :: i <= k ==> !OccursAt(s, sub, k)
    decreases |s| - i
  {
    if i + |sub| <= |s| {
      CountZero(s, sub, i + 1);
    }
  }

  /** A count of one leaves only occurrences that overlap the one counted. */
  lemma {:induction false} CountOne(s: string, sub: string, i: nat) returns (q: nat)
    requires sub != "" && CountFrom(s, sub, i) == 1
    ensures i <= q && OccursAt(s, sub, q)
    ensures forall r :: i <= r && OccursAt(s, sub, r) ==> q <= r < q + |sub|
    decreases |s| - i
  {
    if s[i..i + |sub|] == sub {
      q := i;
      CountZero(s, sub, i + |sub|);
    } else {
      q := CountOne(s, sub, i + 1);
    }
  }

  /** A match no earlier than `i`. */
  lemma {:induction false} CountFromIff(s: string, sub: string, i: nat)
    requires sub != ""
    ensures var p := IndexFrom(s, sub, i);
            && (CountFrom(s, sub, i) == 0 <==> p.None?)
            && (CountFrom(s, sub, i) == 1 <==> p.Some? && IndexFrom(s, sub, p.value + |sub|).None?)
    decreases |s| - i
  {
    if i + |sub| <= |s| {
      CountFromIff(s, sub, if s[i..i + |sub|] == sub then i + |sub| else i + 1);
    }
  }

  /** What the count decides: no occurrence at all, or one that every other occurrence overlaps from the right. */
  lemma CountMeans(s: string, sub: string)
    ensures sub == "" ==> Count(s, sub) == |s| + 1
    ensures sub != "" ==> (Count(s, sub) == 0 <==> forall r :: !OccursAt(s, sub, r))
    ensures sub != "" ==> (Count(s, sub) == 1 <==>
                             exists p: nat :: OccursAt(s, sub, p)
                                              && forall r :: OccursAt(s, sub, r) ==> p <= r < p + |sub|)
  {
    if sub != "" {
      CountFromIff(s, sub, 0);
      IndexIsFirst(s, sub, 0);
      var first := IndexFrom(s, sub, 0);
      if first.Some? {
        IndexIsFirst(s, sub, first.value + |sub|);
      }
    }
  }

  // ------------------------------------------------------------------
  // Applying one file's patches
  // ------------------------------------------------------------------

  /** The text and the two counters after some ops, or the op whose anchor was missing. */
  datatype Patched = Patched(body: string, applied: nat, skipped: nat) | AnchorMissing(op: PatchOp)

  function Insert(body: string, p: nat, text: string): string
    requires p <= |body|
  {
    body[..p] + text + body[p..]
  }

  predicate Marked(body: string, op: PatchOp) {
    op.skipIfPresent != "" && Contains(body, op.skipIfPresent)
  }

  /** One op on the text and the counters reached so far. */
  function ApplyOp(now: Patched, op: PatchOp): Patched {
    if now.AnchorMissing? then now
    else if Marked(now.body, op) then Patched(now.body, now.applied, now.skipped + 1)
    else Place(now, op, IndexFrom(now.body, op.anchor, 0))
  }

  function Place(now: Patched, op: PatchOp, at: Option<nat>): Patched
    requires now.Patched?
  {
    if at.Some? && at.value <= |now.body|
    then Patched(Insert(now.body, at.value, op.insertion), now.applied + 1, now.skipped)
    else AnchorMissing(op)
  }

  /** What the ops `ops[..k]` make of `start`. */
  function PatchFirst(start: string, ops: seq<PatchOp>, k: nat): Patched
    requires k <= |ops|
  {
    if k == 0 then Patched(start, 0, 0) else ApplyOp(PatchFirst(start, ops, k - 1), ops[k - 1])
  }

  /** An op either leaves the text alone or inserts before the first occurrence of its anchor. */
  lemma Applied(now: Patched, op: PatchOp) returns (p: nat)
    requires now.Patched? && ApplyOp(now, op).Patched? && !Marked(now.body, op)
    ensures OccursAt(now.body, op.anchor, p) && IndexFrom(now.body, op.anchor, 0) == Some(p)
    ensures ApplyOp(now, op) == Patched(Insert(now.body, p, op.insertion), now.applied + 1, now.skipped)
  {
    p := Found(now.body, op.anchor);
  }

  /**
   Every op, well behaved or not: skipped exactly when it has a marker and the text holds it, otherwise inserted
   before the first occurrence of its anchor, otherwise reported. `p` is that occurrence when there is one.
   */
  lemma OpMeans(now: Patched, op: PatchOp) returns (p: nat)
    requires now.Patched?
    ensures op.skipIfPresent != "" && (exists i :: OccursAt(now.body, op.skipIfPresent, i)) ==>
              ApplyOp(now, op) == Patched(now.body, now.applied, now.skipped + 1)
    ensures op.skipIfPresent == "" || (forall i :: !OccursAt(now.body, op.skipIfPresent, i)) ==>
              if exists i :: OccursAt(now.body, op.anchor, i)
              then
                && OccursAt(now.body, op.anchor, p) && (forall i :: i < p ==> !OccursAt(now.body, op.anchor, i))
                && ApplyOp(now, op)
                   == Patched(now.body[..p] + op.insertion + now.body[p..], now.applied + 1, now.skipped)
              else ApplyOp(now, op) == AnchorMissing(op)
  {
    IndexIsFirst(now.body, op.skipIfPresent, 0);
    IndexIsFirst(now.body, op.anchor, 0);
    var first := IndexFrom(now.body, op.anchor, 0);
    p := if first.Some? then first.value else 0;
  }

  lemma {:induction false} MissingStays(start: string, ops: seq<PatchOp>, k: nat, n: nat)
    requires k <= n <= |ops| && PatchFirst(start, ops, k).AnchorMissing?
    ensures PatchFirst(start, ops, n) == PatchFirst(start, ops, k)
  {
    if k < n {
      MissingStays(start, ops, k, n - 1);
    }
  }

  lemma Glue(body: string, anchor: string, text: string, p: nat)
    requires OccursAt(body, anchor, p)
    ensures body[..p] + text + anchor + body[p + |anchor|..] == Insert(body, p, text)
  {
  }

  /** Execute's loop over one file's ops: cut at the anchor, glue the pieces around the insertion. */
  method PatchBody(start: string, ops: seq<PatchOp>) returns (r: Patched)
    ensures r == PatchFirst(start, ops, |ops|)
  {
    var body, applied, skipped := start, 0, 0;
    var i := 0;
    while i < |ops|
      invariant 0 <= i <= |ops|
      invariant PatchFirst(start, ops, i) == Patched(body, applied, skipped)
    {
      var op := ops[i];
      if Marked(body, op) {
        skipped := skipped + 1;
      } else {
        var cut := IndexFrom(body, op.anchor, 0);
        if cut.None? {
          MissingStays(start, ops, i + 1, |ops|);
          return AnchorMissing(op);
        }
        ghost var p := Found(body, op.anchor);
        Glue(body, op.anchor, op.insertion, p);
        body := body[..cut.value] + op.insertion + op.anchor + body[cut.value + |op.anchor|..];
        applied := applied + 1;
      }
      i := i + 1;
    }
    return Patched(body, applied, skipped);
  }

  lemma {:induction false} CountersAddUp(start: string, ops: seq<PatchOp>, k: nat)
    requires k <= |ops| && PatchFirst(start, ops, k).Patched?
    ensures PatchFirst(start, ops, k).applied + PatchFirst(start, ops, k).skipped == k
    ensures PatchFirst(start, ops, k).applied == 0 ==> PatchFirst(start, ops, k).body == start
  {
    if k > 0 {
      CountersAddUp(start, ops, k - 1);
    }
  }

  // ------------------------------------------------------------------
  // No original text is ever deleted
  // ------------------------------------------------------------------

  /** `at` places the characters of `a` in `b`, in order. */
  ghost predicate Embeds(a: string, b: string, at: seq<nat>) {
    && |at| == |a|
    && (forall i :: 0 <= i < |a| ==> at[i] < |b| && b[at[i]] == a[i])
    && (forall i, j :: 0 <= i < j < |a| ==> at[i] < at[j])
  }

  lemma InsertEmbeds(start: string, body: string, was: seq<nat>, p: nat, text: string) returns (at: seq<nat>)
    requires Embeds(start, body, was) && p <= |body|
    ensures Embeds(start, Insert(body, p, text), at)
  {
    at := seq(|start|, i requires 0 <= i < |start| => if was[i] < p then was[i] else was[i] + |text|);
  }

  /** Whatever the ops, the original text survives, character by character and in order. */
  lemma {:induction false} NothingDeleted(start: string, ops: seq<PatchOp>, k: nat) returns (at: seq<nat>)
    requires k <= |ops| && PatchFirst(start, ops, k).Patched?
    ensures Embeds(start, PatchFirst(start, ops, k).body, at)
  {
    if k == 0 {
      at := seq(|start|, i requires 0 <= i => i);
    } else {
      at := NothingDeleted(start, ops, k - 1);
      var now, op := PatchFirst(start, ops, k - 1), ops[k - 1];
      if !Marked(now.body, op) {
        var p := Applied(now, op);
        at := InsertEmbeds(start, now.body, at, p, op.insertion);
      }
    }
  }

  // ------------------------------------------------------------------
  // Well-behaved ops
  // ------------------------------------------------------------------

  /** An occurrence of `a` could begin `d` characters into an occurrence of `b`. */
  predicate Clash(a: string, b: string, d: nat)
    requires d <= |b|
  {
    b[d..] <= a || a <= b[d..]
  }

  lemma ClashInText(s: string, a: string, b: string, q: nat, d: nat)
    requires OccursAt(s, b, q) && d <= |b| && OccursAt(s, a, q + d)
    ensures Clash(a, b, d)
  {
  }

  /** `a` cannot begin strictly inside an occurrence of `b`. */
  predicate NeverInside(a: string, b: string) {
    forall d :: 0 < d < |b| ==> !Clash(a, b, d)
  }

  /** The marker is part of what the op inserts. */
  predicate MarksItself(op: PatchOp) {
    op.anchor != "" && op.skipIfPresent != "" && Contains(op.insertion, op.skipIfPresent)
  }

  /** The anchor of `op` cannot begin strictly inside the anchor or the skip marker of `other`. */
  predicate Spares(op: PatchOp, other: PatchOp) {
    NeverInside(op.anchor, other.anchor) && NeverInside(op.anchor, other.skipIfPresent)
  }

  predicate WellBehaved(ops: seq<PatchOp>) {
    && (forall i {:trigger MarksItself(ops[i])} :: 0 <= i < |ops| ==> MarksItself(ops[i]))
    && (forall i, j {:trigger Spares(ops[i], ops[j])} :: 0 <= i < |ops| && 0 <= j < |ops| ==> Spares(ops[i], ops[j]))
  }

  /** What validate demands of one op on the unpatched text. */
  predicate ValidOp(body: string, op: PatchOp) {
    Marked(body, op) || Count(body, op.anchor) == 1
  }

  predicate ValidText(body: string, ops: seq<PatchOp>) {
    forall i {:trigger ValidOp(body, ops[i])} :: 0 <= i < |ops| ==> ValidOp(body, ops[i])
  }

  /** An insertion before an anchor leaves standing every occurrence the anchor cannot begin inside. */
  lemma OccurrenceSurvives(body: string, p: nat, anchor: string, text: string, b: string, q: nat)
    requires OccursAt(body, anchor, p) && OccursAt(body, b, q) && NeverInside(anchor, b)
    ensures OccursAt(Insert(body, p, text), b, if q < p then q else q + |text|)
    ensures q < p ==> q + |b| <= p
  {
    var body' := Insert(body, p, text);
    if p <= q {
      assert body'[q + |text|..q + |text| + |b|] == body[q..q + |b|];
    } else if q + |b| <= p {
      assert body'[q..q + |b|] == body[q..q + |b|];
    } else {
      ClashInText(body, anchor, b, q, p - q);
    }
  }

  lemma InsertedIsContained(body: string, p: nat, text: string, b: string)
    requires p <= |body| && Contains(text, b)
    ensures Contains(Insert(body, p, text), b)
  {
    var q := Found(text, b);
    assert Insert(body, p, text)[p + q..p + q + |b|] == text[q..q + |b|];
    Finds(Insert(body, p, text), b, p + q);
  }

  /** No anchor of these ops can begin strictly inside `b`. */
  predicate Whole(ops: seq<PatchOp>, b: string) {
    forall i {:trigger NeverInside(ops[i].anchor, b)} :: 0 <= i < |ops| ==> NeverInside(ops[i].anchor, b)
  }

  lemma WellBehavedIsWhole(ops: seq<PatchOp>, j: nat)
    requires WellBehaved(ops) && j < |ops|
    ensures Whole(ops, ops[j].anchor) && Whole(ops, ops[j].skipIfPresent)
  {
    forall i | 0 <= i < |ops| ensures Spares(ops[i], ops[j]) {
    }
  }

  /** One op leaves standing whatever no anchor can begin inside. */
  lemma PresentKept(ops: seq<PatchOp>, now: Patched, i: nat, b: string)
    requires i < |ops| && Whole(ops, b)
    requires now.Patched? && ApplyOp(now, ops[i]).Patched? && Contains(now.body, b)
    ensures Contains(ApplyOp(now, ops[i]).body, b)
  {
    var op := ops[i];
    if !Marked(now.body, op) {
      var p := Applied(now, op);
      var q := Found(now.body, b);
      assert NeverInside(op.anchor, b);
      OccurrenceSurvives(now.body, p, op.anchor, op.insertion, b, q);
      Finds(Insert(now.body, p, op.insertion), b, if q < p then q else q + |op.insertion|);
    }
  }

  /** What no anchor can begin inside stays present. */
  lemma {:induction false} PresentStays(start: string, ops: seq<PatchOp>, k: nat, n: nat, b: string)
    requires k <= n <= |ops| && Whole(ops, b)
    requires PatchFirst(start, ops, n).Patched?
    ensures PatchFirst(start, ops, k).Patched?
    ensures Contains(PatchFirst(start, ops, k).body, b) ==> Contains(PatchFirst(start, ops, n).body, b)
  {
    if k < n {
      PresentStays(start, ops, k, n - 1, b);
      if Contains(PatchFirst(start, ops, n - 1).body, b) {
        PresentKept(ops, PatchFirst(start, ops, n - 1), n - 1, b);
      }
    }
  }

  /** A text that validates never loses an anchor before its op's turn. */
  lemma {:induction false} ValidatedNeverMisses(start: string, ops: seq<PatchOp>, k: nat)
    requires WellBehaved(ops) && ValidText(start, ops) && k <= |ops|
    ensures PatchFirst(start, ops, k).Patched?
  {
    if k > 0 {
      ValidatedNeverMisses(start, ops, k - 1);
      var op := ops[k - 1];
      WellBehavedIsWhole(ops, k - 1);
      PresentStays(start, ops, 0, k - 1, op.skipIfPresent);
      PresentStays(start, ops, 0, k - 1, op.anchor);
      assert ValidOp(start, op) && MarksItself(op);
      if !Marked(start, op) {
        var q := CountOne(start, op.anchor, 0);
        Finds(start, op.anchor, q);
      }
      var now := PatchFirst(start, ops, k - 1);
      if !Marked(now.body, op) {
        var p := Found(now.body, op.anchor);
      }
    }
  }

  lemma MarkerLands(start: string, ops: seq<PatchOp>, i: nat)
    requires WellBehaved(ops) && i < |ops| && PatchFirst(start, ops, |ops|).Patched?
    ensures Marked(PatchFirst(start, ops, |ops|).body, ops[i])
  {
    var op := ops[i];
    assert MarksItself(op);
    WellBehavedIsWhole(ops, i);
    PresentStays(start, ops, i, |ops|, op.skipIfPresent);
    PresentStays(start, ops, i + 1, |ops|, op.skipIfPresent);
    var body := PatchFirst(start, ops, i).body;
    if !Marked(body, op) {
      var p := Applied(PatchFirst(start, ops, i), op);
      InsertedIsContained(body, p, op.insertion, op.skipIfPresent);
    }
  }

  /** A second application skips every op and leaves the text alone. */
  lemma {:induction false} SecondRunIsIdle(start: string, ops: seq<PatchOp>, k: nat)
    requires WellBehaved(ops) && k <= |ops| && PatchFirst(start, ops, |ops|).Patched?
    ensures var done := PatchFirst(start, ops, |ops|).body; PatchFirst(done, ops, k) == Patched(done, 0, k)
  {
    if k > 0 {
      SecondRunIsIdle(start, ops, k - 1);
      MarkerLands(start, ops, k - 1);
    }
  }

  lemma OverlapIsValid()
    ensures ValidOp("abc", PatchOp("bc", "!", "!")) && ValidOp("abc", PatchOp("ab", "?", "?"))
  {
  }

  lemma OverlapSplits()
    ensures ApplyOp(Patched("abc", 0, 0), PatchOp("bc", "!", "!")) == Patched("a!bc", 1, 0)
  {
    var s := "abc";
    assert s[0] == 'a' && s[1] == 'b' && s[2] == 'c';
    assert s[0..1] != "!" && s[1..2] != "!" && s[2..3] != "!" && s[0..2] != "bc" && s[1..3] == "bc";
    assert IndexFrom(s, "!", 3) == None && IndexFrom(s, "!", 1) == None;
    assert IndexFrom(s, "bc", 0) == Some(1) && Insert(s, 1, "!") == "a!bc";
  }

  lemma OverlapMisses()
    ensures ApplyOp(Patched("a!bc", 1, 0), PatchOp("ab", "?", "?")) == AnchorMissing(PatchOp("ab", "?", "?"))
  {
    var t := "a!bc";
    assert t[0] == 'a' && t[1] == '!' && t[2] == 'b' && t[3] == 'c';
    assert t[0..1] != "?" && t[1..2] != "?" && t[2..3] != "?" && t[3..4] != "?";
    assert t[0..2] != "ab" && t[1..3] != "ab" && t[2..4] != "ab";
    assert IndexFrom(t, "?", 2) == None && IndexFrom(t, "ab", 2) == None;
  }

  /** Without the condition on anchors a validated text can lose one: the first op splits the second's anchor. */
  lemma OverlapCanMiss()
    ensures var ops := [PatchOp("bc", "!", "!"), PatchOp("ab", "?", "?")];
            ValidText("abc", ops) && PatchFirst("abc", ops, 2) == AnchorMissing(ops[1])
  {
    var ops := [PatchOp("bc", "!", "!"), PatchOp("ab", "?", "?")];
    OverlapIsValid();
    OverlapSplits();
    OverlapMisses();
    assert PatchFirst("abc", ops, 0) == Patched("abc", 0, 0);
    assert PatchFirst("abc", ops, 1) == ApplyOp(PatchFirst("abc", ops, 0), ops[0]);
  }
}
