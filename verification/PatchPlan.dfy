/**
 The scaffold's plan over a source tree: new files and per-file patches, validated against the live
 files before a byte is written, then executed or previewed.
 */
module PatchPlan {
  import opened Common
  import opened Ordering
  import opened TextPatch

  type Files = map<string, string>

  datatype Plan = Plan(newFiles: Files, patches: map<string, seq<PatchOp>>)

  datatype Defect =
    | MissingFile(path: string)
    | AnchorNotFound(path: string, op: PatchOp)
    | AnchorNotUnique(path: string, op: PatchOp, count: nat)

  datatype Line =
    | Created(path: string, size: nat)
    | Patches(path: string, applied: nat, skipped: nat)
    | Absent(path: string)
    | AnchorGone(path: string, op: PatchOp)

  // ------------------------------------------------------------------
  // Validation
  // ------------------------------------------------------------------

  predicate ValidFile(files: Files, path: string, ops: seq<PatchOp>) {
    path in files && ValidText(files[path], ops)
  }

  ghost predicate ValidPlan(files: Files, plan: Plan) {
    forall path :: path in plan.patches ==> ValidFile(files, path, plan.patches[path])
  }

  /** The complaint about one file is its own: the file is absent, or its first bad op is named. */
  ghost predicate Explains(d: Defect, files: Files, path: string, ops: seq<PatchOp>) {
    && d.path == path
    && (if d.MissingFile? then path !in files else path in files && ExplainsOp(d, files[path], ops))
  }

  ghost predicate ExplainsOp(d: Defect, body: string, ops: seq<PatchOp>)
    requires !d.MissingFile?
  {
    exists i ::
      && 0 <= i < |ops| && ops[i] == d.op && ValidText(body, ops[..i]) && !Marked(body, d.op)
      && (d.AnchorNotFound? ==> Count(body, d.op.anchor) == 0)
      && (d.AnchorNotUnique? ==> Count(body, d.op.anchor) == d.count > 1)
  }

  method CheckFile(files: Files, path: string, ops: seq<PatchOp>) returns (r: Option<Defect>)
    ensures r.None? <==> ValidFile(files, path, ops)
    ensures r.Some? ==> Explains(r.value, files, path, ops)
  {
    if path !in files {
      return Some(MissingFile(path));
    }
    var body := files[path];
    var i := 0;
    while i < |ops|
      invariant 0 <= i <= |ops| && ValidText(body, ops[..i])
    {
      var op := ops[i];
      var count := Count(body, op.anchor);
      if !Marked(body, op) && count != 1 {
        assert !ValidOp(body, ops[i]);
        return Some(if count == 0 then AnchorNotFound(path, op) else AnchorNotUnique(path, op, count));
      }
      assert ops[..i + 1] == ops[..i] + [op];
      ExtendValid(body, ops[..i], op);
      i := i + 1;
    }
    assert ops[..i] == ops;
    return None;
  }

  lemma ExtendValid(body: string, ops: seq<PatchOp>, op: PatchOp)
    requires ValidText(body, ops) && ValidOp(body, op)
    ensures ValidText(body, ops + [op])
  {
  }

  /** Accepts exactly the valid plans, and otherwise always complains about the least bad path. */
  method Validate(files: Files, plan: Plan) returns (r: Option<Defect>)
    ensures r.None? <==> ValidPlan(files, plan)
    ensures r.Some? ==>
              && r.value.path in plan.patches
              && Explains(r.value, files, r.value.path, plan.patches[r.value.path])
              && forall path :: path in plan.patches && Less(path, r.value.path) ==>
                    ValidFile(files, path, plan.patches[path])
  {
    var paths := SortedElements(plan.patches.Keys);
    var i := 0;
    while i < |paths|
      invariant 0 <= i <= |paths|
      invariant forall j :: 0 <= j < i ==> ValidFile(files, paths[j], plan.patches[paths[j]])
    {
      var path := paths[i];
      assert path in paths;
      r := CheckFile(files, path, plan.patches[path]);
      if r.Some? {
        forall other | other in plan.patches && Less(other, path) ensures ValidFile(files, other, plan.patches[other]) {
          LessIsEarlier(paths, i, other);
        }
        return;
      }
      i := i + 1;
    }
    return None;
  }

  lemma LessIsEarlier(paths: seq<string>, i: nat, other: string)
    requires Ascending(paths) && i < |paths| && other in paths && Less(other, paths[i])
    ensures exists j :: 0 <= j < i && paths[j] == other
  {
    var j :| 0 <= j < |paths| && paths[j] == other;
    if i < j {
      LeqAntisymmetric(paths[i], paths[j]);
    }
  }

  // ------------------------------------------------------------------
  // What execution makes of the tree
  // ------------------------------------------------------------------

  function Result(files: Files, path: string, ops: seq<PatchOp>): Patched
    requires path in files
  {
    PatchFirst(files[path], ops, |ops|)
  }

  /** Every patched file is there and none of its anchors goes missing on the way. */
  ghost predicate Patchable(files: Files, plan: Plan) {
    forall path :: path in plan.patches ==> path in files && Result(files, path, plan.patches[path]).Patched?
  }

  function Text(files: Files, plan: Plan, path: string): string
    requires path in files
  {
    if path in plan.patches && Result(files, path, plan.patches[path]).Patched?
    then Result(files, path, plan.patches[path]).body
    else files[path]
  }

  function FilesAfter(files: Files, plan: Plan): Files {
    var base := files + plan.newFiles;
    map path | path in base :: Text(base, plan, path)
  }

  /** The tree after a run: all old and new paths, new content where it is new, patched text where it is patched. */
  lemma FilesAfterMeans(files: Files, plan: Plan, path: string)
    ensures path in FilesAfter(files, plan) <==> path in files || path in plan.newFiles
    ensures path in plan.newFiles && path !in plan.patches ==> FilesAfter(files, plan)[path] == plan.newFiles[path]
    ensures path in files && path !in plan.newFiles && path !in plan.patches ==>
              FilesAfter(files, plan)[path] == files[path]
    ensures path in files && path in plan.patches && path !in plan.newFiles ==>
              var r := PatchFirst(files[path], plan.patches[path], |plan.patches[path]|);
              FilesAfter(files, plan)[path] == if r.Patched? then r.body else files[path]
  {
  }

  function PatchLine(files: Files, path: string, ops: seq<PatchOp>): Line {
    if path !in files then Absent(path)
    else
      match Result(files, path, ops)
      case Patched(_, applied, skipped) => Patches(path, applied, skipped)
      case AnchorMissing(op) => AnchorGone(path, op)
  }

  /** The file is rewritten: some op was applied. */
  predicate Writes(files: Files, path: string, ops: seq<PatchOp>) {
    path in files && Result(files, path, ops).Patched? && Result(files, path, ops).applied > 0
  }

  /**
   The printed line: absent, or a missing anchor, or how many ops were applied and how many skipped. A file is
   written exactly when its line counts an applied op.
   */
  lemma PatchLineMeans(files: Files, path: string, ops: seq<PatchOp>)
    ensures path !in files ==> PatchLine(files, path, ops) == Absent(path)
    ensures path in files ==>
              var r := PatchFirst(files[path], ops, |ops|);
              && (r.AnchorMissing? ==> PatchLine(files, path, ops) == AnchorGone(path, r.op))
              && (r.Patched? ==> PatchLine(files, path, ops) == Patches(path, r.applied, r.skipped)
                                 && r.applied + r.skipped == |ops|)
    ensures var line := PatchLine(files, path, ops); Writes(files, path, ops) <==> line.Patches? && line.applied > 0
  {
    if path in files && PatchFirst(files[path], ops, |ops|).Patched? {
      CountersAddUp(files[path], ops, |ops|);
    }
  }

  ghost predicate CreateLog(log: seq<Line>, plan: Plan, created: seq<string>) {
    && |log| == |created|
    && forall i :: 0 <= i < |log| ==>
         created[i] in plan.newFiles && log[i] == Created(created[i], |plan.newFiles[created[i]]|)
  }

  ghost predicate PatchLog(log: seq<Line>, files: Files, plan: Plan, patched: seq<string>) {
    && |log| == |patched|
    && forall i :: 0 <= i < |log| ==>
         patched[i] in plan.patches && log[i] == PatchLine(files, patched[i], plan.patches[patched[i]])
  }

  ghost predicate Lists(paths: seq<string>, ids: set<string>) {
    Ascending(paths) && forall x :: x in paths <==> x in ids
  }

  /** Lines for the new files in path order, then for the patched files in path order. */
  ghost predicate IsLog(log: seq<Line>, files: Files, plan: Plan) {
    exists created, patched, first, second ::
      && Lists(created, plan.newFiles.Keys) && Lists(patched, plan.patches.Keys)
      && CreateLog(first, plan, created) && PatchLog(second, files, plan, patched)
      && log == first + second
  }

  /** Plans as the planners write them: patch targets are not new files and each file's ops are well behaved. */
  ghost predicate GoodPlan(plan: Plan) {
    && plan.newFiles.Keys !! plan.patches.Keys
    && forall path :: path in plan.patches ==> WellBehaved(plan.patches[path])
  }

  /** What passed validation is patched to the end: no half-written tree. */
  lemma ValidPlansArePatchable(files: Files, plan: Plan)
    requires GoodPlan(plan) && ValidPlan(files, plan)
    ensures Patchable(files + plan.newFiles, plan)
  {
    var base := files + plan.newFiles;
    forall path | path in plan.patches ensures path in base && Result(base, path, plan.patches[path]).Patched? {
      assert ValidFile(files, path, plan.patches[path]) && path !in plan.newFiles && base[path] == files[path];
      ValidatedNeverMisses(files[path], plan.patches[path], |plan.patches[path]|);
    }
  }

  ghost predicate Idle(files: Files, path: string, ops: seq<PatchOp>) {
    path in files && Result(files, path, ops) == Patched(files[path], 0, |ops|) && ValidFile(files, path, ops)
  }

  lemma PatchedFileIsIdle(start: string, ops: seq<PatchOp>, files: Files, path: string)
    requires WellBehaved(ops) && PatchFirst(start, ops, |ops|).Patched?
    requires path in files && files[path] == PatchFirst(start, ops, |ops|).body
    ensures Idle(files, path, ops)
  {
    SecondRunIsIdle(start, ops, |ops|);
    forall i | 0 <= i < |ops| ensures ValidOp(files[path], ops[i]) {
      MarkerLands(start, ops, i);
    }
  }

  /** Executing the same plan again passes validation, skips every op and changes no file. */
  lemma SecondExecuteChangesNothing(files: Files, plan: Plan)
    requires GoodPlan(plan) && Patchable(files + plan.newFiles, plan)
    ensures var after := FilesAfter(files, plan);
            && ValidPlan(after, plan)
            && Patchable(after + plan.newFiles, plan)
            && FilesAfter(after, plan) == after
            && forall path :: path in plan.patches ==> Idle(after, path, plan.patches[path])
  {
    var base, after := files + plan.newFiles, FilesAfter(files, plan);
    forall path | path in plan.patches ensures Idle(after, path, plan.patches[path]) {
      PatchedFileIsIdle(base[path], plan.patches[path], after, path);
    }
    assert after + plan.newFiles == after;
    forall path | path in after ensures Text(after, plan, path) == after[path] {
      if path in plan.patches {
        assert Idle(after, path, plan.patches[path]);
      }
    }
  }

  lemma SameLines(files: Files, plan: Plan, preview: seq<Line>, printed: seq<Line>, patched: seq<string>)
    requires plan.newFiles.Keys !! plan.patches.Keys
    requires PatchLog(preview, files, plan, patched) && PatchLog(printed, files + plan.newFiles, plan, patched)
    ensures preview == printed
  {
  }

  /** A preview of a plan prints what the real run prints. */
  lemma PreviewIsAccurate(files: Files, plan: Plan, preview: seq<Line>, printed: seq<Line>)
    requires plan.newFiles.Keys !! plan.patches.Keys
    requires IsLog(preview, files, plan) && IsLog(printed, files + plan.newFiles, plan)
    ensures preview == printed
  {
    var c1, p1, f1, s1 :| Lists(c1, plan.newFiles.Keys) && Lists(p1, plan.patches.Keys)
      && CreateLog(f1, plan, c1) && PatchLog(s1, files, plan, p1) && preview == f1 + s1;
    var c2, p2, f2, s2 :| Lists(c2, plan.newFiles.Keys) && Lists(p2, plan.patches.Keys)
      && CreateLog(f2, plan, c2) && PatchLog(s2, files + plan.newFiles, plan, p2) && printed == f2 + s2;
    AscendingUnique(c1, c2);
    AscendingUnique(p1, p2);
    assert f1 == f2;
    SameLines(files, plan, s1, s2, p1);
  }

  // ------------------------------------------------------------------
  // The tree
  // ------------------------------------------------------------------

  /** The files once the new files `done` have been created. */
  ghost predicate CreatedSoFar(now: Files, was: Files, plan: Plan, done: seq<string>) {
    && (forall x :: x in now <==> x in was || x in done)
    && (forall x :: x in now ==>
          if x in done && x in plan.newFiles then now[x] == plan.newFiles[x] else x in was && now[x] == was[x])
  }

  /** The files once the patches of `done` have been applied to `base`. */
  ghost predicate PatchedSoFar(now: Files, base: Files, plan: Plan, done: seq<string>) {
    && now.Keys == base.Keys
    && (forall x :: x in now ==> now[x] == if x in done then Text(base, plan, x) else base[x])
  }

  ghost predicate TouchedSoFar(touched: set<string>, base: Files, plan: Plan, done: seq<string>) {
    forall x :: x in touched <==> x in done && x in plan.patches && Writes(base, x, plan.patches[x])
  }

  ghost predicate AllPatched(base: Files, plan: Plan, refused: set<string>, done: seq<string>) {
    forall x :: x in done ==>
      && x in base && x in plan.patches && Result(base, x, plan.patches[x]).Patched?
      && (Writes(base, x, plan.patches[x]) ==> x !in refused)
  }

  ghost predicate PatchesWritable(base: Files, plan: Plan, refused: set<string>) {
    forall x :: x in plan.patches && Writes(base, x, plan.patches[x]) ==> x !in refused
  }

  ghost predicate OthersUntouched(was: Files, now: Files, plan: Plan) {
    forall x :: x !in plan.newFiles && x !in plan.patches ==>
          (x in was <==> x in now) && (x in was && x in now ==> was[x] == now[x])
  }

  /** One file's patches advance the state of the whole tree by that file. */
  lemma PatchedOneMore(now: Files, next: Files, base: Files, plan: Plan, done: seq<string>, path: string)
    requires PatchedSoFar(now, base, plan, done) && path !in done && path in base && path in plan.patches
    requires Result(base, path, plan.patches[path]).Patched?
    requires next == if Writes(now, path, plan.patches[path])
                     then now[path := Result(now, path, plan.patches[path]).body]
                     else now
    ensures PatchedSoFar(next, base, plan, done + [path])
  {
    var ops := plan.patches[path];
    assert now[path] == base[path];
    CountersAddUp(base[path], ops, |ops|);
    assert next[path] == Text(base, plan, path);
    forall x | x in next ensures next[x] == if x in done + [path] then Text(base, plan, x) else base[x] {
      if x != path {
        assert next[x] == now[x];
      }
    }
  }

  lemma CreatedOneMore(now: Files, was: Files, plan: Plan, done: seq<string>, path: string)
    requires CreatedSoFar(now, was, plan, done) && path in plan.newFiles
    ensures CreatedSoFar(now[path := plan.newFiles[path]], was, plan, done + [path])
  {
  }

  lemma CreatedAll(now: Files, was: Files, plan: Plan, done: seq<string>)
    requires CreatedSoFar(now, was, plan, done) && Lists(done, plan.newFiles.Keys)
    ensures now == was + plan.newFiles
  {
  }

  lemma PatchedAll(now: Files, was: Files, plan: Plan, done: seq<string>)
    requires PatchedSoFar(now, was + plan.newFiles, plan, done) && Lists(done, plan.patches.Keys)
    ensures now == FilesAfter(was, plan)
  {
  }

  lemma TouchedAll(touched: set<string>, base: Files, plan: Plan, done: seq<string>)
    requires TouchedSoFar(touched, base, plan, done) && Lists(done, plan.patches.Keys)
    ensures touched == set x | x in plan.patches && Writes(base, x, plan.patches[x])
  {
  }

  lemma WholeLog(files: Files, plan: Plan, created: seq<string>, patched: seq<string>, first: seq<Line>,
                 second: seq<Line>)
    requires Lists(created, plan.newFiles.Keys) && Lists(patched, plan.patches.Keys)
    requires CreateLog(first, plan, created) && PatchLog(second, files, plan, patched)
    ensures IsLog(first + second, files, plan)
  {
  }

  /** Paths whose write the file system refuses; a write is all or nothing. */
  type Refused = set<string>

  /** Every write a real run makes is taken. */
  ghost predicate Writable(base: Files, plan: Plan, refused: Refused) {
    plan.newFiles.Keys !! refused && PatchesWritable(base, plan, refused)
  }

  /** A state a real run can leave behind: each file as it was, or with its planned content, never half of one. */
  ghost predicate PartWay(was: Files, now: Files, plan: Plan) {
    && was.Keys <= now.Keys <= was.Keys + plan.newFiles.Keys
    && (forall x :: x in now && x in plan.newFiles ==> now[x] == plan.newFiles[x] || (x in was && now[x] == was[x])
                                                       || now[x] == Text(was + plan.newFiles, plan, x))
    && (forall x :: x in now && x !in plan.newFiles ==>
        now[x] == was[x] || now[x] == Text(was + plan.newFiles, plan, x))
    && OthersUntouched(was, now, plan)
  }

  lemma CreatedPartWay(now: Files, was: Files, plan: Plan, done: seq<string>)
    requires CreatedSoFar(now, was, plan, done) && forall x :: x in done ==> x in plan.newFiles
    ensures PartWay(was, now, plan)
  {
  }

  lemma PatchedPartWay(now: Files, was: Files, plan: Plan, done: seq<string>)
    requires PatchedSoFar(now, was + plan.newFiles, plan, done) && forall x :: x in done ==> x in plan.patches
    ensures PartWay(was, now, plan)
  {
  }

  /**
   One file of a half-executed well-behaved plan is untouched or finished; either way it validates and ends
   the same.
   */
  lemma RetriedFile(was: Files, now: Files, plan: Plan, x: string)
    requires GoodPlan(plan) && ValidPlan(was, plan) && PartWay(was, now, plan) && x in plan.patches
    ensures ValidFile(now, x, plan.patches[x])
    ensures x in was + plan.newFiles && x in now + plan.newFiles
    ensures Text(now + plan.newFiles, plan, x) == Text(was + plan.newFiles, plan, x)
  {
    var base, ops := was + plan.newFiles, plan.patches[x];
    assert ValidFile(was, x, ops) && x !in plan.newFiles;
    ValidatedNeverMisses(was[x], ops, |ops|);
    assert base[x] == was[x] && (now + plan.newFiles)[x] == now[x];
    if now[x] != was[x] {
      PatchedFileIsIdle(was[x], ops, now, x);
    }
  }

  /**
   After a run stopped by a refused write, running the plan again validates and ends where the first run
   would have.
   */
  lemma RetryCompletes(was: Files, now: Files, plan: Plan)
    requires GoodPlan(plan) && ValidPlan(was, plan) && PartWay(was, now, plan)
    ensures ValidPlan(now, plan) && FilesAfter(now, plan) == FilesAfter(was, plan)
  {
    forall x | x in plan.patches ensures ValidFile(now, x, plan.patches[x]) {
      RetriedFile(was, now, plan, x);
    }
    var a, b := FilesAfter(now, plan), FilesAfter(was, plan);
    assert a.Keys == b.Keys;
    forall x | x in a ensures a[x] == b[x] {
      if x in plan.patches {
        RetriedFile(was, now, plan, x);
      }
    }
  }

  class Tree {
    var files: Files

    /** The new files in path order, up to the first write that is refused. */
    method CreateFiles(plan: Plan, created: seq<string>, dryRun: bool, refused: Refused)
      returns (ok: bool, log: seq<Line>)
      requires Lists(created, plan.newFiles.Keys)
      modifies this
      ensures ok <==> dryRun || plan.newFiles.Keys !! refused
      ensures dryRun ==> files == old(files)
      ensures !dryRun && ok ==> files == old(files) + plan.newFiles
      ensures PartWay(old(files), files, plan)
      ensures ok ==> CreateLog(log, plan, created)
      ensures ok ==> |log| == |created|
      ensures ok ==> forall i :: 0 <= i < |created| ==>
                       created[i] in plan.newFiles && log[i] == Created(created[i], |plan.newFiles[created[i]]|)
    {
      ok, log := true, [];
      CreatedPartWay(files, files, plan, []);
      var i := 0;
      while i < |created|
        invariant 0 <= i <= |created| && ok && CreateLog(log, plan, created[..i])
        invariant dryRun ==> files == old(files)
        invariant !dryRun ==> CreatedSoFar(files, old(files), plan, created[..i])
        invariant !dryRun ==> forall j :: 0 <= j < i ==> created[j] !in refused
      {
        var path := created[i];
        assert path in created;
        assert created[..i + 1] == created[..i] + [path];
        var body := plan.newFiles[path];
        log := log + [Created(path, |body|)];
        if !dryRun {
          if path in refused {
            ok := false;
            CreatedPartWay(files, old(files), plan, created[..i]);
            return;
          }
          CreatedOneMore(files, old(files), plan, created[..i], path);
          files := files[path := body];
        }
        i := i + 1;
      }
      assert created[..i] == created;
      if !dryRun {
        CreatedAll(files, old(files), plan, created);
        CreatedPartWay(files, old(files), plan, created);
      }
    }

    /** One file: read it, apply its ops, and write it back if any op was applied and the write is taken. */
    method PatchFile(path: string, ops: seq<PatchOp>, dryRun: bool, refused: Refused)
      returns (line: Line, wrote: bool, ok: bool)
      modifies this
      ensures line == PatchLine(old(files), path, ops)
      ensures ok <==> dryRun || (line.Patches? && (Writes(old(files), path, ops) ==> path !in refused))
      ensures wrote <==> !dryRun && Writes(old(files), path, ops) && path !in refused
      ensures files == if wrote then old(files)[path := Result(old(files), path, ops).body] else old(files)
    {
      if path !in files {
        return Absent(path), false, dryRun;
      }
      var r := PatchBody(files[path], ops);
      if r.AnchorMissing? {
        return AnchorGone(path, r.op), false, dryRun;
      }
      line := Patches(path, r.applied, r.skipped);
      if dryRun || r.applied == 0 {
        return line, false, true;
      }
      if path in refused {
        return line, false, false;
      }
      files := files[path := r.body];
      return line, true, true;
    }

    /** The patch loop. A real run stops at the first file it cannot patch or write; a dry run goes on. */
    method PatchFiles(plan: Plan, patched: seq<string>, dryRun: bool, refused: Refused)
      returns (ok: bool, log: seq<Line>, touched: set<string>)
      requires Lists(patched, plan.patches.Keys)
      modifies this
      ensures dryRun ==> ok && files == old(files) && touched == {}
      ensures !dryRun && ok ==>
                PatchedSoFar(files, old(files), plan, patched) && TouchedSoFar(touched, old(files), plan, patched)
      ensures !dryRun ==> (ok <==> Patchable(old(files), plan) && PatchesWritable(old(files), plan, refused))
      ensures !dryRun ==> exists i :: 0 <= i <= |patched| && PatchedSoFar(files, old(files), plan, patched[..i])
      ensures ok ==> PatchLog(log, old(files), plan, patched)
    {
      ghost var base := files;
      ok, log, touched := true, [], {};
      var i := 0;
      while i < |patched|
        invariant 0 <= i <= |patched| && ok
        invariant PatchLog(log, base, plan, patched[..i])
        invariant dryRun ==> files == base && touched == {}
        invariant !dryRun ==> PatchedSoFar(files, base, plan, patched[..i])
        invariant !dryRun ==> TouchedSoFar(touched, base, plan, patched[..i])
        invariant !dryRun ==> AllPatched(base, plan, refused, patched[..i])
      {
        var path := patched[i];
        assert path in patched && path !in patched[..i];
        assert patched[..i + 1] == patched[..i] + [path];
        ghost var now := files;
        var line, wrote;
        line, wrote, ok := PatchFile(path, plan.patches[path], dryRun, refused);
        if !ok {
          return;
        }
        if !dryRun {
          PatchedOneMore(now, files, base, plan, patched[..i], path);
        }
        log := log + [line];
        touched := if wrote then touched + {path} else touched;
        i := i + 1;
      }
      assert patched[..i] == patched;
    }

    /**
     A real run of an invalid plan writes nothing; of a valid and well-behaved plan it succeeds whenever the
     file system takes the writes; a success leaves exactly `FilesAfter`, and a failure leaves every file
     whole, as it was or as planned. A dry run never writes and never fails.
     */
    method Execute(plan: Plan, dryRun: bool, refused: Refused) returns (ok: bool, log: seq<Line>, touched: set<string>)
      modifies this
      ensures dryRun ==> ok && files == old(files)
      ensures !dryRun ==>
                (ok <==> && ValidPlan(old(files), plan) && Patchable(old(files) + plan.newFiles, plan)
                         && Writable(old(files) + plan.newFiles, plan, refused))
      ensures !dryRun && !ValidPlan(old(files), plan) ==> files == old(files)
      ensures !dryRun && ValidPlan(old(files), plan) && GoodPlan(plan) ==>
                (ok <==> Writable(old(files) + plan.newFiles, plan, refused))
      ensures !dryRun && ok ==> files == FilesAfter(old(files), plan)
      ensures PartWay(old(files), files, plan)
      ensures !dryRun && ok ==>
                touched == plan.newFiles.Keys
                           + set x | x in plan.patches && Writes(old(files) + plan.newFiles, x, plan.patches[x])
      ensures ok ==> IsLog(log, if dryRun then old(files) else old(files) + plan.newFiles, plan)
    {
      ok, log, touched := true, [], {};
      CreatedPartWay(files, files, plan, []);
      if !dryRun {
        var defect := Validate(files, plan);
        if defect.Some? {
          ok := false;
          return;
        }
        if GoodPlan(plan) {
          ValidPlansArePatchable(files, plan);
        }
      }
      var created := SortedElements(plan.newFiles.Keys);
      var first, second;
      ok, first := CreateFiles(plan, created, dryRun, refused);
      if !ok {
        return;
      }
      var patched := SortedElements(plan.patches.Keys);
      ok, second, touched := PatchFiles(plan, patched, dryRun, refused);
      log := first + second;
      ghost var base := if dryRun then old(files) else old(files) + plan.newFiles;
      if !dryRun {
        ghost var i :| 0 <= i <= |patched| && PatchedSoFar(files, base, plan, patched[..i]);
        PatchedPartWay(files, old(files), plan, patched[..i]);
      }
      if ok {
        WholeLog(base, plan, created, patched, first, second);
      }
      if ok && !dryRun {
        PatchedAll(files, old(files), plan, patched);
        TouchedAll(touched, base, plan, patched);
      }
      touched := if dryRun then {} else plan.newFiles.Keys + touched;
    }
  }
}
