/**
 Document history: transactions that lock a document row, insert a version and update the live row, then
 commit or roll back, in any interleaving over any documents. Versions are rows keyed by document and number.
 */
module DocHistory {
  import opened Common

  datatype Doc = Doc(title: string, content: string, currentVersion: int)

  datatype Version = Version(title: string, content: string, restoredFrom: Option<int>)

  type Docs = map<nat, Doc>
  type Versions = map<(nat, int), Version>

  datatype Request = Save(title: string, content: string) | Restore(target: int)

  /** A transaction on one document: what it read under the lock and what it has written so far. */
  datatype Tx =
    | Locked(doc: nat, current: int, liveTitle: string)
    | Inserted(doc: nat, number: int, row: Version)
    | Updated(doc: nat, number: int, row: Version, live: Doc)

  /** `log` names the document and version of every commit, in order. */
  datatype State = State(docs: Docs, versions: Versions, open: map<nat, Tx>, log: seq<(nat, int)>)

  datatype Step =
    | Create(doc: nat, title: string, content: string)
    | Lock(tx: nat, doc: nat)
    | Insert(tx: nat, request: Request)
    | Update(tx: nat)
    | Commit(tx: nat)
    | Rollback(tx: nat)

  const INITIAL := State(map[], map[], map[], [])

  function OrEmptyObject(content: string): string { if content == "" then "{}" else content }

  /** The version row a request writes, or none when the restored version does not exist. */
  function RowFor(versions: Versions, doc: nat, liveTitle: string, request: Request): Option<Version> {
    match request
    case Save(title, content) => Some(Version(if title == "" then liveTitle else title, OrEmptyObject(content), None))
    case Restore(target) =>
      if (doc, target) !in versions then None
      else Some(Version(versions[(doc, target)].title, versions[(doc, target)].content, Some(target)))
  }

  predicate Held(open: map<nat, Tx>, doc: nat) {
    exists t :: t in open && open[t].doc == doc
  }

  function Drop(s: State, t: nat): State { s.(open := s.open - {t}) }

  /** One statement of one transaction; a step that is not enabled changes nothing. */
  function Next(s: State, step: Step): State {
    match step
    case Create(d, title, content) =>
      if title == "" || d in s.docs then s
      else
        var body := OrEmptyObject(content);
        s.(docs := s.docs[d := Doc(title, body, 1)],
           versions := s.versions[(d, 1) := Version(title, body, None)],
           log := s.log + [(d, 1)])
    case Lock(t, d) =>
      if t in s.open || d !in s.docs || Held(s.open, d) then s
      else s.(open := s.open[t := Locked(d, s.docs[d].currentVersion, s.docs[d].title)])
    case Insert(t, request) =>
      if t !in s.open || !s.open[t].Locked? then s
      else
        var tx := s.open[t];
        var row := RowFor(s.versions, tx.doc, tx.liveTitle, request);
        if row.None? || (tx.doc, tx.current + 1) in s.versions then Drop(s, t)
        else s.(open := s.open[t := Inserted(tx.doc, tx.current + 1, row.value)])
    case Update(t) =>
      if t !in s.open || !s.open[t].Inserted? then s
      else
        var tx := s.open[t];
        s.(open := s.open[t := Updated(tx.doc, tx.number, tx.row, Doc(tx.row.title, tx.row.content, tx.number))])
    case Commit(t) =>
      if t !in s.open || !s.open[t].Updated? then s
      else
        var tx := s.open[t];
        State(s.docs[tx.doc := tx.live], s.versions[(tx.doc, tx.number) := tx.row], s.open - {t},
              s.log + [(tx.doc, tx.number)])
    case Rollback(t) => if t in s.open then Drop(s, t) else s
  }

  function Exec(s: State, steps: seq<Step>): State {
    if steps == [] then s else Next(Exec(s, steps[..|steps| - 1]), steps[|steps| - 1])
  }

  // ------------------------------------------------------------------
  // The invariant
  // ------------------------------------------------------------------

  ghost predicate Complete(docs: Docs, versions: Versions) {
    forall d, v {:trigger (d, v) in versions} :: (d, v) in versions <==> d in docs && 1 <= v <= docs[d].currentVersion
  }

  ghost predicate LiveIsLatest(docs: Docs, versions: Versions, d: nat) {
    && d in docs && docs[d].currentVersion >= 1 && (d, docs[d].currentVersion) in versions
    && versions[(d, docs[d].currentVersion)].title == docs[d].title
    && versions[(d, docs[d].currentVersion)].content == docs[d].content
  }

  /** A restoring version copies an earlier version of the same document. */
  ghost predicate CopiesEarlier(versions: Versions, d: nat, v: int, row: Version) {
    row.restoredFrom.Some? ==>
      && 1 <= row.restoredFrom.value < v
      && (d, row.restoredFrom.value) in versions
      && versions[(d, row.restoredFrom.value)].title == row.title
      && versions[(d, row.restoredFrom.value)].content == row.content
  }

  ghost predicate AllCopyEarlier(versions: Versions) {
    forall d, v {:trigger (d, v) in versions} :: (d, v) in versions ==> CopiesEarlier(versions, d, v, versions[(d, v)])
  }

  /** What a transaction holding the lock knows still matches the committed row. */
  ghost predicate GoodTx(docs: Docs, versions: Versions, tx: Tx) {
    && tx.doc in docs
    && (tx.Locked? ==> tx.current == docs[tx.doc].currentVersion && tx.liveTitle == docs[tx.doc].title)
    && (!tx.Locked? ==>
          && tx.number == docs[tx.doc].currentVersion + 1
          && CopiesEarlier(versions, tx.doc, tx.number, tx.row))
    && (tx.Updated? ==> tx.live == Doc(tx.row.title, tx.row.content, tx.number))
  }

  ghost predicate OneHolder(open: map<nat, Tx>) {
    forall t, u :: t in open && u in open && open[t].doc == open[u].doc ==> t == u
  }

  /** One commit for every version. */
  ghost predicate LogMatches(log: seq<(nat, int)>, versions: Versions) {
    && (forall i :: 0 <= i < |log| ==> log[i] in versions)
    && (forall i, j :: 0 <= i < j < |log| ==> log[i] != log[j])
    && (forall k :: k in versions ==> k in log)
  }

  ghost predicate Inv(s: State) {
    && Complete(s.docs, s.versions) && AllCopyEarlier(s.versions)
    && (forall d :: d in s.docs ==> LiveIsLatest(s.docs, s.versions, d))
    && (forall t :: t in s.open ==> GoodTx(s.docs, s.versions, s.open[t]))
    && OneHolder(s.open) && LogMatches(s.log, s.versions)
  }

  /** One more version of a document, its live row following it. */
  ghost predicate Extends(docs: Docs, versions: Versions, docs': Docs, versions': Versions, d: nat, v: int,
                          row: Version) {
    && v == (if d in docs then docs[d].currentVersion + 1 else 1)
    && docs' == docs[d := Doc(row.title, row.content, v)]
    && versions' == versions[(d, v) := row]
    && CopiesEarlier(versions, d, v, row)
  }

  lemma ExtendsKeepsRows(docs: Docs, versions: Versions, docs': Docs, versions': Versions, d: nat, v: int, row: Version)
    requires Extends(docs, versions, docs', versions', d, v, row) && Complete(docs, versions)
             && AllCopyEarlier(versions)
    requires forall x :: x in docs ==> LiveIsLatest(docs, versions, x)
    ensures (d, v) !in versions
    ensures Complete(docs', versions') && AllCopyEarlier(versions')
    ensures forall x :: x in docs' ==> LiveIsLatest(docs', versions', x)
  {
  }

  lemma LogGrows(log: seq<(nat, int)>, versions: Versions, k: (nat, int), row: Version)
    requires LogMatches(log, versions) && k !in versions
    ensures LogMatches(log + [k], versions[k := row])
  {
  }

  lemma OthersUndisturbed(docs: Docs, versions: Versions, docs': Docs, versions': Versions, d: nat, v: int,
                          row: Version, tx: Tx)
    requires Extends(docs, versions, docs', versions', d, v, row) && (d, v) !in versions && GoodTx(docs, versions, tx)
             && tx.doc != d
    ensures GoodTx(docs', versions', tx)
  {
  }

  lemma CommitKeeps(s: State, t: nat)
    requires Inv(s)
    ensures Inv(Next(s, Commit(t)))
  {
    if t in s.open && s.open[t].Updated? {
      var s', tx := Next(s, Commit(t)), s.open[t];
      assert GoodTx(s.docs, s.versions, tx);
      ExtendsKeepsRows(s.docs, s.versions, s'.docs, s'.versions, tx.doc, tx.number, tx.row);
      LogGrows(s.log, s.versions, (tx.doc, tx.number), tx.row);
      forall u | u in s'.open ensures GoodTx(s'.docs, s'.versions, s'.open[u]) {
        OthersUndisturbed(s.docs, s.versions, s'.docs, s'.versions, tx.doc, tx.number, tx.row, s.open[u]);
      }
    }
  }

  lemma CreateKeeps(s: State, d: nat, title: string, content: string)
    requires Inv(s)
    ensures Inv(Next(s, Create(d, title, content)))
  {
    if title != "" && d !in s.docs {
      var s', row := Next(s, Create(d, title, content)), Version(title, OrEmptyObject(content), None);
      ExtendsKeepsRows(s.docs, s.versions, s'.docs, s'.versions, d, 1, row);
      LogGrows(s.log, s.versions, (d, 1), row);
      forall u | u in s'.open ensures GoodTx(s'.docs, s'.versions, s'.open[u]) {
        assert GoodTx(s.docs, s.versions, s.open[u]);
        OthersUndisturbed(s.docs, s.versions, s'.docs, s'.versions, d, 1, row, s.open[u]);
      }
    }
  }

  lemma InsertKeeps(s: State, t: nat, request: Request)
    requires Inv(s)
    ensures Inv(Next(s, Insert(t, request)))
  {
    if t in s.open && s.open[t].Locked? {
      assert GoodTx(s.docs, s.versions, s.open[t]);
    }
  }

  lemma NextKeeps(s: State, step: Step)
    requires Inv(s)
    ensures Inv(Next(s, step))
  {
    match step
    case Create(d, title, content) => CreateKeeps(s, d, title, content);
    case Lock(_, _) =>
    case Insert(t, request) => InsertKeeps(s, t, request);
    case Update(t) =>
      if t in s.open {
        assert GoodTx(s.docs, s.versions, s.open[t]);
      }
    case Commit(t) => CommitKeeps(s, t);
    case Rollback(_) =>
  }

  lemma {:induction false} InvHolds(steps: seq<Step>)
    ensures Inv(Exec(INITIAL, steps))
  {
    if steps != [] {
      InvHolds(steps[..|steps| - 1]);
      NextKeeps(Exec(INITIAL, steps[..|steps| - 1]), steps[|steps| - 1]);
    }
  }

  // ------------------------------------------------------------------
  // What holds over every run
  // ------------------------------------------------------------------

  /** A document's history is exactly versions 1 to the current one, and its live row is the latest version. */
  lemma HistoryIsComplete(steps: seq<Step>, d: nat)
    requires d in Exec(INITIAL, steps).docs
    ensures var s := Exec(INITIAL, steps);
            && (forall v {:trigger (d, v) in s.versions} ::
                  (d, v) in s.versions <==> 1 <= v <= s.docs[d].currentVersion)
            && LiveIsLatest(s.docs, s.versions, d)
  {
    InvHolds(steps);
  }

  /** Each commit made exactly one version: none is overwritten, none is lost. */
  lemma OneVersionPerCommit(steps: seq<Step>)
    ensures LogMatches(Exec(INITIAL, steps).log, Exec(INITIAL, steps).versions)
  {
    InvHolds(steps);
  }

  /** Past versions never change, whatever happens later. */
  lemma {:induction false} VersionsNeverChange(steps: seq<Step>, more: seq<Step>, k: (nat, int))
    requires k in Exec(INITIAL, steps).versions
    ensures k in Exec(INITIAL, steps + more).versions
    ensures Exec(INITIAL, steps + more).versions[k] == Exec(INITIAL, steps).versions[k]
  {
    if more == [] {
      assert steps + more == steps;
    } else {
      var front, last := more[..|more| - 1], more[|more| - 1];
      VersionsNeverChange(steps, front, k);
      OneStepMore(steps + front, last);
      assert steps + more == steps + front + [last];
      InvHolds(steps + front);
      VersionStays(Exec(INITIAL, steps + front), last, k);
    }
  }

  lemma OneStepMore(steps: seq<Step>, step: Step)
    ensures Exec(INITIAL, steps + [step]) == Next(Exec(INITIAL, steps), step)
  {
    assert (steps + [step])[..|steps|] == steps;
  }

  lemma VersionStays(s: State, step: Step, k: (nat, int))
    requires Inv(s) && k in s.versions
    ensures k in Next(s, step).versions && Next(s, step).versions[k] == s.versions[k]
  {
    if step.Commit? && step.tx in s.open {
      assert GoodTx(s.docs, s.versions, s.open[step.tx]);
    }
  }

  /** The version a restore chain leads back to. */
  ghost function Origin(versions: Versions, d: nat, v: int): int
    requires AllCopyEarlier(versions) && (d, v) in versions
    decreases v
  {
    assert CopiesEarlier(versions, d, v, versions[(d, v)]);
    if versions[(d, v)].restoredFrom.None? then v else Origin(versions, d, versions[(d, v)].restoredFrom.value)
  }

  lemma {:induction false} OriginHasSameText(versions: Versions, d: nat, v: int)
    requires AllCopyEarlier(versions) && (d, v) in versions
    ensures var o := Origin(versions, d, v);
            && o <= v && (d, o) in versions && versions[(d, o)].restoredFrom.None?
            && versions[(d, o)].title == versions[(d, v)].title && versions[(d, o)].content == versions[(d, v)].content
    decreases v
  {
    assert CopiesEarlier(versions, d, v, versions[(d, v)]);
    if versions[(d, v)].restoredFrom.Some? {
      OriginHasSameText(versions, d, versions[(d, v)].restoredFrom.value);
    }
  }

  /** In every run, following restored_from goes strictly back to an original version with the same text. */
  lemma RestoresLeadToAnOriginal(steps: seq<Step>, d: nat, v: int)
    requires (d, v) in Exec(INITIAL, steps).versions
    ensures var versions := Exec(INITIAL, steps).versions;
            && AllCopyEarlier(versions)
            && var o := Origin(versions, d, v);
               && 1 <= o <= v && (d, o) in versions && versions[(d, o)].restoredFrom.None?
               && versions[(d, o)].title == versions[(d, v)].title
               && versions[(d, o)].content == versions[(d, v)].content
  {
    InvHolds(steps);
    OriginHasSameText(Exec(INITIAL, steps).versions, d, v);
  }

  /** One change of a document that nothing interrupts. */
  function Change(t: nat, d: nat, request: Request): seq<Step> {
    [Lock(t, d), Insert(t, request), Update(t), Commit(t)]
  }

  lemma ChangeSteps(s: State, t: nat, d: nat, request: Request)
    ensures Exec(s, Change(t, d, request))
         == Next(Next(Next(Next(s, Lock(t, d)), Insert(t, request)), Update(t)), Commit(t))
  {
    var run := Change(t, d, request);
    var s1 := Next(s, Lock(t, d));
    var s2 := Next(s1, Insert(t, request));
    var s3 := Next(s2, Update(t));
    assert run[..1][..0] == [] && run[..2][..1] == run[..1] && run[..3][..2] == run[..2];
    assert Exec(s, run[..1]) == s1 && Exec(s, run[..2]) == s2 && Exec(s, run[..3]) == s3;
  }

  /** The lock and the insert, when the request finds its row. */
  lemma ChangeOpens(s: State, t: nat, d: nat, request: Request, row: Version)
    requires t !in s.open && d in s.docs && !Held(s.open, d) && (d, s.docs[d].currentVersion + 1) !in s.versions
    requires RowFor(s.versions, d, s.docs[d].title, request) == Some(row)
    ensures Next(Next(s, Lock(t, d)), Insert(t, request))
         == s.(open := s.open[t := Inserted(d, s.docs[d].currentVersion + 1, row)])
  {
  }

  /** The update and the commit: the row becomes a version and the live text. */
  lemma ChangeCloses(s: State, t: nat, d: nat, number: int, row: Version)
    requires t !in s.open
    ensures Next(Next(s.(open := s.open[t := Inserted(d, number, row)]), Update(t)), Commit(t))
         == s.(docs := s.docs[d := Doc(row.title, row.content, number)], versions := s.versions[(d, number) := row],
               log := s.log + [(d, number)])
  {
    assert s.open[t := Updated(d, number, row, Doc(row.title, row.content, number))] - {t} == s.open;
  }

  /** A document that has a next version. */
  ghost function Grown(s: State, d: nat, row: Version): State
    requires d in s.docs
  {
    var number := s.docs[d].currentVersion + 1;
    s.(docs := s.docs[d := Doc(row.title, row.content, number)], versions := s.versions[(d, number) := row],
       log := s.log + [(d, number)])
  }

  lemma ChangeRuns(s: State, t: nat, d: nat, request: Request, row: Version)
    requires t !in s.open && d in s.docs && !Held(s.open, d) && (d, s.docs[d].currentVersion + 1) !in s.versions
    requires RowFor(s.versions, d, s.docs[d].title, request) == Some(row)
    ensures Exec(s, Change(t, d, request)) == Grown(s, d, row)
  {
    ChangeSteps(s, t, d, request);
    ChangeOpens(s, t, d, request, row);
    ChangeCloses(s, t, d, s.docs[d].currentVersion + 1, row);
  }

  lemma ChangeRefused(s: State, t: nat, d: nat, request: Request)
    requires t !in s.open && d in s.docs && !Held(s.open, d)
    requires RowFor(s.versions, d, s.docs[d].title, request) == None
    ensures Exec(s, Change(t, d, request)) == s
  {
    ChangeSteps(s, t, d, request);
    var s1 := Next(s, Lock(t, d));
    assert s1.open - {t} == s.open;
    assert Next(s1, Insert(t, request)) == s;
  }

  /** A save makes the given text live as the next version; the title stays when none is given. */
  lemma UndisturbedSave(s: State, t: nat, d: nat, title: string, content: string)
    requires Complete(s.docs, s.versions) && t !in s.open && d in s.docs && !Held(s.open, d)
    ensures var s', number := Exec(s, Change(t, d, Save(title, content))), s.docs[d].currentVersion + 1;
            var name, body := if title == "" then s.docs[d].title else title, if content == "" then "{}" else content;
            && (d, number) !in s.versions && s'.open == s.open && s'.log == s.log + [(d, number)]
            && s'.docs == s.docs[d := Doc(name, body, number)]
            && s'.versions == s.versions[(d, number) := Version(name, body, None)]
  {
    var name, body := if title == "" then s.docs[d].title else title, if content == "" then "{}" else content;
    ChangeRuns(s, t, d, Save(title, content), Version(name, body, None));
  }

  /** A restore makes an earlier version's text live as the next version; a number out of range changes nothing. */
  lemma UndisturbedRestore(s: State, t: nat, d: nat, target: int)
    requires Complete(s.docs, s.versions) && t !in s.open && d in s.docs && !Held(s.open, d)
    ensures var s', number := Exec(s, Change(t, d, Restore(target))), s.docs[d].currentVersion + 1;
            if 1 <= target < number
            then
              && (d, target) in s.versions && s'.open == s.open && s'.log == s.log + [(d, number)]
              && var row := s.versions[(d, target)];
              && s'.docs == s.docs[d := Doc(row.title, row.content, number)]
              && s'.versions == s.versions[(d, number) := Version(row.title, row.content, Some(target))]
            else s' == s
  {
    assert (d, target) in s.versions <==> 1 <= target <= s.docs[d].currentVersion;
    if (d, target) in s.versions {
      var row := s.versions[(d, target)];
      ChangeRuns(s, t, d, Restore(target), Version(row.title, row.content, Some(target)));
    } else {
      ChangeRefused(s, t, d, Restore(target));
    }
  }

  // ------------------------------------------------------------------
  // The store, one call at a time
  // ------------------------------------------------------------------

  ghost predicate Consistent(docs: Docs, versions: Versions) {
    Complete(docs, versions) && AllCopyEarlier(versions) && forall d :: d in docs ==> LiveIsLatest(docs, versions, d)
  }

  class Store {
    var docs: Docs
    var versions: Versions

    constructor ()
      ensures docs == map[] && versions == map[] && Consistent(docs, versions)
    {
      docs, versions := map[], map[];
    }

    method Create(d: nat, title: string, content: string) returns (ok: bool)
      requires Consistent(docs, versions)
      modifies this
      ensures Consistent(docs, versions)
      ensures ok <==> title != "" && d !in old(docs)
      ensures !ok ==> docs == old(docs) && versions == old(versions)
      ensures ok ==>
                var body := if content == "" then "{}" else content;
                && docs == old(docs)[d := Doc(title, body, 1)]
                && versions == old(versions)[(d, 1) := Version(title, body, None)]
    {
      if title == "" || d in docs {
        return false;
      }
      var body := OrEmptyObject(content);
      ghost var was, had := docs, versions;
      docs := docs[d := Doc(title, body, 1)];
      versions := versions[(d, 1) := Version(title, body, None)];
      ExtendsKeepsRows(was, had, docs, versions, d, 1, Version(title, body, None));
      return true;
    }

    /** Both kinds of change: append the row, then move the live row onto it. */
    method Append(d: nat, row: Version)
      requires Consistent(docs, versions) && d in docs && CopiesEarlier(versions, d, docs[d].currentVersion + 1, row)
      modifies this
      ensures Consistent(docs, versions)
      ensures Extends(old(docs), old(versions), docs, versions, d, old(docs)[d].currentVersion + 1, row)
    {
      ghost var was, had := docs, versions;
      var number := docs[d].currentVersion + 1;
      versions := versions[(d, number) := row];
      docs := docs[d := Doc(row.title, row.content, number)];
      ExtendsKeepsRows(was, had, docs, versions, d, number, row);
    }

    /** An empty title keeps the live one; empty content becomes the empty object. */
    method SaveVersion(d: nat, title: string, content: string) returns (ok: bool)
      requires Consistent(docs, versions)
      modifies this
      ensures Consistent(docs, versions)
      ensures ok <==> d in old(docs)
      ensures !ok ==> docs == old(docs) && versions == old(versions)
      ensures ok ==>
                var name := if title == "" then old(docs)[d].title else title;
                var body := if content == "" then "{}" else content;
                var number := old(docs)[d].currentVersion + 1;
                && docs == old(docs)[d := Doc(name, body, number)] && (d, number) !in old(versions)
                && versions == old(versions)[(d, number) := Version(name, body, None)]
    {
      if d !in docs {
        return false;
      }
      var effective := if title == "" then docs[d].title else title;
      Append(d, Version(effective, OrEmptyObject(content), None));
      return true;
    }

    /** The live text becomes that of version `target`, which must be one of the document's versions. */
    method Restore(d: nat, target: int) returns (ok: bool)
      requires Consistent(docs, versions)
      modifies this
      ensures Consistent(docs, versions)
      ensures ok <==> d in old(docs) && 1 <= target <= old(docs)[d].currentVersion
      ensures !ok ==> docs == old(docs) && versions == old(versions)
      ensures ok ==>
                && (d, target) in old(versions)
                && var row, number := old(versions)[(d, target)], old(docs)[d].currentVersion + 1;
                && docs == old(docs)[d := Doc(row.title, row.content, number)] && (d, number) !in old(versions)
                && versions == old(versions)[(d, number) := Version(row.title, row.content, Some(target))]
    {
      if d !in docs || (d, target) !in versions {
        return false;
      }
      Append(d, Version(versions[(d, target)].title, versions[(d, target)].content, Some(target)));
      return true;
    }
  }
}
