/**
 * The repair policy of `leann doctor`, and what it promises together with the
 * builder: no history of builds, crashes, failing operations and repairs
 * loses the pair that was last live or puts any other pair in its place.
 */
module Doctor {
  import opened Bytes
  import opened Outcomes
  import opened ArtifactPublisher

  // ---------- names ----------

  function IndexOf(prefix: string): string {
    prefix + ".leann"
  }

  function DocumentsOf(prefix: string): string {
    prefix + ".docs"
  }

  function LockOf(target: string): string {
    target + ".lock"
  }

  datatype LeftoverKind = Temporary | Backup

  /** The scan's classification: the index stem is tried first, and `.tmp.` before `.bak.`. */
  function KindOf(prefix: string, name: string): Option<LeftoverKind> {
    if IndexOf(prefix) + ".tmp." <= name then Some(Temporary)
    else if IndexOf(prefix) + ".bak." <= name then Some(Backup)
    else if DocumentsOf(prefix) + ".tmp." <= name then Some(Temporary)
    else if DocumentsOf(prefix) + ".bak." <= name then Some(Backup)
    else None
  }

  datatype Tokens = Tokens(temporaryIndex: string, temporaryDocuments: string, indexBackup: string,
      documentsBackup: string)

  function NamesOf(prefix: string, t: Tokens): Names {
    Names(
      IndexOf(prefix) + ".tmp." + t.temporaryIndex, DocumentsOf(prefix) + ".tmp." + t.temporaryDocuments,
      IndexOf(prefix), DocumentsOf(prefix),
      IndexOf(prefix) + ".bak." + t.indexBackup, DocumentsOf(prefix) + ".bak." + t.documentsBackup)
  }

  /** Paths that can hold the index of a usable pair. */
  predicate HoldsIndex(prefix: string, path: string) {
    path == IndexOf(prefix) || IndexOf(prefix) + ".bak." <= path
  }

  predicate HoldsDocuments(prefix: string, path: string) {
    path == DocumentsOf(prefix) || DocumentsOf(prefix) + ".bak." <= path
  }

  lemma StemsDiffer(prefix: string, a: string, b: string)
    requires IndexOf(prefix) <= a && DocumentsOf(prefix) <= b
    ensures a != b
  {
    assert IndexOf(prefix)[|prefix| + 1] == 'l' && DocumentsOf(prefix)[|prefix| + 1] == 'd';
  }

  lemma MarkersDiffer(stem: string, a: string, b: string)
    requires stem + ".tmp." <= a && stem + ".bak." <= b
    ensures a != b
  {
    assert (stem + ".tmp.")[|stem| + 1] == 't' && (stem + ".bak.")[|stem| + 1] == 'b';
  }

  /** The builder's names are told apart by the scan: live files are no
      leftovers, and no backup is taken for a temporary. */
  lemma NamesClassified(prefix: string, name: string)
    ensures HoldsIndex(prefix, name) || HoldsDocuments(prefix, name) ==> KindOf(prefix, name) != Some(Temporary)
    ensures name in {IndexOf(prefix), DocumentsOf(prefix)} ==> KindOf(prefix, name) == None
    ensures IndexOf(prefix) + ".bak." <= name || DocumentsOf(prefix) + ".bak." <= name
      ==> KindOf(prefix, name) == Some(Backup)
    ensures IndexOf(prefix) + ".tmp." <= name || DocumentsOf(prefix) + ".tmp." <= name
      ==> KindOf(prefix, name) == Some(Temporary)
  {
    var i, d := IndexOf(prefix), DocumentsOf(prefix);
    assert i <= i + ".tmp." && i <= i + ".bak." && d <= d + ".tmp." && d <= d + ".bak.";
    if i <= name && d <= name {
      StemsDiffer(prefix, name, name);
    }
    if i + ".tmp." <= name && i + ".bak." <= name {
      MarkersDiffer(i, name, name);
    }
    if d + ".tmp." <= name && d + ".bak." <= name {
      MarkersDiffer(d, name, name);
    }
  }

  lemma StemsApart(prefix: string, t: Tokens, path: string)
    requires IndexOf(prefix) <= path
    ensures path !in {NamesOf(prefix, t).temporaryDocuments, DocumentsOf(prefix), NamesOf(prefix, t).documentsBackup}
  {
    var n := NamesOf(prefix, t);
    assert DocumentsOf(prefix) <= n.temporaryDocuments && DocumentsOf(prefix) <= n.documentsBackup;
    StemsDiffer(prefix, path, n.temporaryDocuments);
    StemsDiffer(prefix, path, n.documents);
    StemsDiffer(prefix, path, n.documentsBackup);
  }

  lemma NamesDistinct(prefix: string, t: Tokens)
    ensures NamesOf(prefix, t).Distinct()
  {
    var n, i, d := NamesOf(prefix, t), IndexOf(prefix), DocumentsOf(prefix);
    assert i <= n.temporaryIndex && i <= n.indexBackup;
    StemsApart(prefix, t, i);
    StemsApart(prefix, t, n.temporaryIndex);
    StemsApart(prefix, t, n.indexBackup);
    assert i + ".tmp." <= n.temporaryIndex && i + ".bak." <= n.indexBackup;
    assert d + ".tmp." <= n.temporaryDocuments && d + ".bak." <= n.documentsBackup;
    MarkersDiffer(i, n.temporaryIndex, n.indexBackup);
    MarkersDiffer(d, n.temporaryDocuments, n.documentsBackup);
    assert |n.temporaryIndex| > |i| && |n.indexBackup| > |i|;
    assert |n.temporaryDocuments| > |d| && |n.documentsBackup| > |d|;
  }

  // ---------- safety of a directory ----------

  /** Whether an index and a document store load, open and cross-validate. */
  type Validity = (Bytes, Bytes) -> bool

  predicate LivePairValid(prefix: string, valid: Validity, files: Files) {
    && IndexOf(prefix) in files && DocumentsOf(prefix) in files
    && valid(files[IndexOf(prefix)], files[DocumentsOf(prefix)])
  }

  /** Two live files always match. */
  predicate LivePairSound(prefix: string, valid: Validity, files: Files) {
    IndexOf(prefix) in files && DocumentsOf(prefix) in files ==> LivePairValid(prefix, valid, files)
  }

  predicate UsablePair(prefix: string, valid: Validity, files: Files, i: string, d: string) {
    && HoldsIndex(prefix, i) && HoldsDocuments(prefix, d)
    && i in files && d in files && valid(files[i], files[d])
  }

  /** A complete pair is at live or backup paths. */
  ghost predicate Recoverable(prefix: string, valid: Validity, files: Files) {
    exists i, d :: UsablePair(prefix, valid, files, i, d)
  }

  ghost predicate Safe(prefix: string, valid: Validity, files: Files) {
    LivePairSound(prefix, valid, files) && Recoverable(prefix, valid, files)
  }

  ghost predicate AllSafe(prefix: string, valid: Validity, history: seq<Files>, from: nat) {
    forall i :: from <= i < |history| ==> Safe(prefix, valid, history[i])
  }

  /** An index and its document store, by their bytes. */
  datatype Pair = Pair(index: Bytes, documents: Bytes)

  predicate HeldAt(prefix: string, files: Files, pair: Pair, i: string, d: string) {
    && HoldsIndex(prefix, i) && HoldsDocuments(prefix, d)
    && At(files, i) == Some(pair.index) && At(files, d) == Some(pair.documents)
  }

  /** This very pair is at live or backup paths. */
  ghost predicate Holds(prefix: string, files: Files, pair: Pair) {
    exists i, d :: HeldAt(prefix, files, pair, i, d)
  }

  predicate IsLive(prefix: string, files: Files, pair: Pair) {
    At(files, IndexOf(prefix)) == Some(pair.index) && At(files, DocumentsOf(prefix)) == Some(pair.documents)
  }

  /** No other pair can be opened. */
  predicate LiveIsCurrent(prefix: string, files: Files, pair: Pair) {
    IndexOf(prefix) in files ==> IsLive(prefix, files, pair)
  }

  /** The current pair is valid, complete, and the only one that may be live. */
  ghost predicate Kept(prefix: string, valid: Validity, files: Files, pair: Pair) {
    valid(pair.index, pair.documents) && Holds(prefix, files, pair) && LiveIsCurrent(prefix, files, pair)
  }

  /** Keeping the current pair is more than being safe: some other usable pair is not enough. */
  lemma KeptIsSafe(prefix: string, valid: Validity, files: Files, pair: Pair)
    requires Kept(prefix, valid, files, pair)
    ensures Safe(prefix, valid, files)
  {
    hide HoldsIndex, HoldsDocuments;
    var i, d :| HeldAt(prefix, files, pair, i, d);
    assert UsablePair(prefix, valid, files, i, d);
  }

  lemma LiveIsKept(prefix: string, valid: Validity, files: Files, pair: Pair)
    requires IsLive(prefix, files, pair) && valid(pair.index, pair.documents)
    ensures Kept(prefix, valid, files, pair)
  {
    assert HeldAt(prefix, files, pair, IndexOf(prefix), DocumentsOf(prefix));
  }

  /** Files that are neither live nor backups do not matter. */
  lemma OnlyHoldersMatter(prefix: string, valid: Validity, before: Files, now: Files, pair: Pair)
    requires Kept(prefix, valid, before, pair)
    requires SameHolders(prefix, before, now)
    ensures Kept(prefix, valid, now, pair)
  {
    hide HoldsIndex, HoldsDocuments;
    LiveHold(prefix);
    var i, d :| HeldAt(prefix, before, pair, i, d);
    assert At(now, i) == At(before, i) && At(now, d) == At(before, d);
    assert HeldAt(prefix, now, pair, i, d);
    assert At(now, IndexOf(prefix)) == At(before, IndexOf(prefix));
    assert At(now, DocumentsOf(prefix)) == At(before, DocumentsOf(prefix));
  }

  /** Every live and backup path is as it was. */
  ghost predicate SameHolders(prefix: string, before: Files, now: Files) {
    forall p :: HoldsIndex(prefix, p) || HoldsDocuments(prefix, p) ==> At(now, p) == At(before, p)
  }

  lemma LiveHold(prefix: string)
    ensures HoldsIndex(prefix, IndexOf(prefix)) && HoldsDocuments(prefix, DocumentsOf(prefix))
  {
  }

  /** Where an old holder's bytes are while a publication is under way. */
  lemma IndexHolderSurvives(prefix: string, t: Tokens, before: Files, now: Files, i: string) returns (i': string)
    requires Ready(before, NamesOf(prefix, t)) && Promised(before, NamesOf(prefix, t), now)
    requires OldSurvives(before, NamesOf(prefix, t), now)
    requires HoldsIndex(prefix, i) && i in before
    ensures HoldsIndex(prefix, i') && i' in now && now[i'] == before[i]
  {
    var n := NamesOf(prefix, t);
    if i == n.index {
      i' := if At(now, n.index) == At(before, n.index) then n.index else n.indexBackup;
      assert IndexOf(prefix) + ".bak." <= n.indexBackup;
    } else {
      i' := i;
      NamesClassified(prefix, i);
      HolderNotSix(prefix, t, i);
    }
  }

  lemma DocumentsHolderSurvives(prefix: string, t: Tokens, before: Files, now: Files, d: string) returns (d': string)
    requires Ready(before, NamesOf(prefix, t)) && Promised(before, NamesOf(prefix, t), now)
    requires OldSurvives(before, NamesOf(prefix, t), now)
    requires HoldsDocuments(prefix, d) && d in before
    ensures HoldsDocuments(prefix, d') && d' in now && now[d'] == before[d]
  {
    var n := NamesOf(prefix, t);
    if d == n.documents {
      d' := if At(now, n.documents) == At(before, n.documents) then n.documents else n.documentsBackup;
      assert DocumentsOf(prefix) + ".bak." <= n.documentsBackup;
    } else {
      d' := d;
      HolderNotSix(prefix, t, d);
    }
  }

  /** A holder that is neither live nor one of the fresh backups is none of the transaction's files. */
  lemma HolderNotSix(prefix: string, t: Tokens, path: string)
    requires HoldsIndex(prefix, path) || HoldsDocuments(prefix, path)
    requires path !in {IndexOf(prefix), DocumentsOf(prefix)}
    requires path !in {NamesOf(prefix, t).indexBackup, NamesOf(prefix, t).documentsBackup}
    ensures path !in NamesOf(prefix, t).Six()
  {
    var n := NamesOf(prefix, t);
    NamesClassified(prefix, path);
    NamesClassified(prefix, n.temporaryIndex);
    NamesClassified(prefix, n.temporaryDocuments);
    assert IndexOf(prefix) + ".tmp." <= n.temporaryIndex;
    assert DocumentsOf(prefix) + ".tmp." <= n.temporaryDocuments;
  }

  /** Until the commit the current pair stays the current pair, whatever failed. */
  lemma UncommittedKeeps(prefix: string, t: Tokens, valid: Validity, before: Files, now: Files, pair: Pair)
    requires Ready(before, NamesOf(prefix, t)) && Uncommitted(before, NamesOf(prefix, t), now)
    requires Kept(prefix, valid, before, pair)
    ensures Kept(prefix, valid, now, pair)
  {
    var n := NamesOf(prefix, t);
    UndoneIsSafe(before, n, now, false);
    TransitIsPromised(before, n, now);
    UncommittedLive(before, n, now);
    hide Ready, OldSurvives, Elsewhere, Uncommitted, Promised, InTransit, HoldsIndex, HoldsDocuments;
    var i, d :| HeldAt(prefix, before, pair, i, d);
    var i' := IndexHolderSurvives(prefix, t, before, now, i);
    var d' := DocumentsHolderSurvives(prefix, t, before, now, d);
    assert HeldAt(prefix, now, pair, i', d');
  }

  lemma UncommittedLive(before: Files, n: Names, now: Files)
    requires Uncommitted(before, n, now)
    ensures At(now, n.index) != None ==>
      At(now, n.index) == At(before, n.index) && At(now, n.documents) == At(before, n.documents)
  {
  }

  /** The pair a build wrote under its temporary names. */
  function NewPair(before: Files, n: Names): Pair
    requires Ready(before, n)
  {
    Pair(before[n.temporaryIndex], before[n.temporaryDocuments])
  }

  /** From the commit on the new pair is the current one, and it is live. */
  lemma CommittedKeeps(prefix: string, t: Tokens, valid: Validity, before: Files, now: Files)
    requires Ready(before, NamesOf(prefix, t)) && Committed(before, NamesOf(prefix, t), now)
    requires var made := NewPair(before, NamesOf(prefix, t)); valid(made.index, made.documents)
    ensures IsLive(prefix, now, NewPair(before, NamesOf(prefix, t)))
    ensures Kept(prefix, valid, now, NewPair(before, NamesOf(prefix, t)))
  {
    LiveIsKept(prefix, valid, now, NewPair(before, NamesOf(prefix, t)));
  }

  // ---------- the doctor ----------

  datatype Liveness = Unknown | Running | Absent

  /** What was found and done: the leftovers and, with `--force-unlock`, the locks removed and retained. */
  datatype Report = Report(pairValid: bool, removed: set<string>, retained: set<string>, unlocked: set<string>,
      locked: set<string>)

  function LocksOf(prefix: string): set<string> {
    {LockOf(IndexOf(prefix)), LockOf(DocumentsOf(prefix))}
  }

  lemma LocksDiffer(prefix: string)
    ensures LockOf(IndexOf(prefix)) != LockOf(DocumentsOf(prefix))
  {
    assert IndexOf(prefix) <= LockOf(IndexOf(prefix)) && DocumentsOf(prefix) <= LockOf(DocumentsOf(prefix));
    StemsDiffer(prefix, LockOf(IndexOf(prefix)), LockOf(DocumentsOf(prefix)));
  }

  function LeftoversOf(prefix: string, files: Files): set<string> {
    set name | name in files && KindOf(prefix, name) != None
  }

  /** A build's temporaries and backups, by the beginnings of their names. */
  predicate IsTemporary(prefix: string, name: string) {
    prefix + ".leann.tmp." <= name || prefix + ".docs.tmp." <= name
  }

  predicate IsBackup(prefix: string, name: string) {
    prefix + ".leann.bak." <= name || prefix + ".docs.bak." <= name
  }

  /** A temporary may go; a backup only while the live pair validates. */
  predicate Disposable(prefix: string, pairValid: bool, name: string) {
    match KindOf(prefix, name)
    case Some(Temporary) => true
    case Some(Backup) => pairValid
    case None => false
  }

  lemma KindsByName(prefix: string, name: string)
    ensures KindOf(prefix, name) == Some(Temporary) <==> IsTemporary(prefix, name)
    ensures KindOf(prefix, name) == Some(Backup) <==> IsBackup(prefix, name)
    ensures KindOf(prefix, name) == None <==> !IsTemporary(prefix, name) && !IsBackup(prefix, name)
    ensures forall pairValid ::
      Disposable(prefix, pairValid, name) <==> IsTemporary(prefix, name) || (pairValid && IsBackup(prefix, name))
  {
    NamesClassified(prefix, name);
    var i, d := IndexOf(prefix), DocumentsOf(prefix);
    assert i + ".tmp." == prefix + ".leann.tmp." && i + ".bak." == prefix + ".leann.bak.";
    assert d + ".tmp." == prefix + ".docs.tmp." && d + ".bak." == prefix + ".docs.bak.";
  }

  /** `now` is `before` without some disposable files. */
  predicate Trimmed(prefix: string, pairValid: bool, before: Files, now: Files) {
    && now.Keys <= before.Keys
    && (forall name :: name in now ==> now[name] == before[name])
    && (forall name :: name in before && name !in now ==> Disposable(prefix, pairValid, name))
  }

  /** Removing what the doctor may remove keeps the current pair, and its validity when live. */
  lemma TrimmedKeeps(prefix: string, valid: Validity, before: Files, now: Files, pair: Pair)
    requires Kept(prefix, valid, before, pair)
    requires Trimmed(prefix, LivePairValid(prefix, valid, before), before, now)
    ensures Kept(prefix, valid, now, pair)
    ensures LivePairValid(prefix, valid, now) == LivePairValid(prefix, valid, before)
  {
    hide KindOf;
    NamesClassified(prefix, IndexOf(prefix));
    NamesClassified(prefix, DocumentsOf(prefix));
    if LivePairValid(prefix, valid, before) {
      assert IsLive(prefix, now, pair);
      LiveIsKept(prefix, valid, now, pair);
    } else {
      var i, d :| HeldAt(prefix, before, pair, i, d);
      NamesClassified(prefix, i);
      NamesClassified(prefix, d);
      assert HeldAt(prefix, now, pair, i, d);
    }
  }

  predicate TrimmedThroughout(prefix: string, pairValid: bool, before: Files, past: seq<Files>, history: seq<Files>) {
    && past <= history
    && forall i :: |past| <= i < |history| ==> Trimmed(prefix, pairValid, before, history[i])
  }

  datatype Verdict = Removed | Retained

  /** The decision about one leftover. */
  method Consider(disk: Disk, prefix: string, pairValid: bool, lockPresent: bool,
      name: string) returns (verdict: Verdict)
    requires name in disk.files && KindOf(prefix, name) != None
    modifies disk
    ensures disk.files == if verdict == Removed then old(disk.files) - {name} else old(disk.files)
    ensures disk.history == old(disk.history) || disk.history == old(disk.history) + [disk.files]
    ensures verdict == Removed ==> !lockPresent && Disposable(prefix, pairValid, name)
    ensures verdict == Retained && disk.Flawless(old(disk.operations)) ==>
      lockPresent || !Disposable(prefix, pairValid, name)
    ensures disk.locks == old(disk.locks) && disk.operations >= old(disk.operations)
  {
    verdict := Retained;
    if lockPresent {
      return;
    }
    if KindOf(prefix, name) == Some(Temporary) || pairValid {
      var ok := disk.Remove(name);
      if ok {
        verdict := Removed;
      }
    }
  }

  /** How far a repair pass has come: `pending` is still to be considered. */
  datatype Pass = Pass(pending: set<string>, removed: set<string>, retained: set<string>)

  predicate Consistent(prefix: string, pairValid: bool, lockPresent: bool, before: Files, pass: Pass, now: Files) {
    && pass.pending !! pass.removed && pass.pending !! pass.retained && pass.removed !! pass.retained
    && pass.pending + pass.removed + pass.retained == LeftoversOf(prefix, before)
    && now == before - pass.removed
    && (forall name :: name in pass.removed ==> !lockPresent && Disposable(prefix, pairValid, name))
  }

  predicate Complete(prefix: string, pairValid: bool, lockPresent: bool, retained: set<string>) {
    forall name :: name in retained ==> lockPresent || !Disposable(prefix, pairValid, name)
  }

  function Advanced(pass: Pass, name: string, verdict: Verdict): Pass {
    if verdict == Removed then
      Pass(pass.pending - {name}, pass.removed + {name}, pass.retained)
    else
      Pass(pass.pending - {name}, pass.removed, pass.retained + {name})
  }

  lemma AdvanceConsistent(prefix: string, pairValid: bool, lockPresent: bool, before: Files, pass: Pass, now: Files,
      name: string, verdict: Verdict)
    requires Consistent(prefix, pairValid, lockPresent, before, pass, now) && name in pass.pending
    requires verdict == Removed ==> !lockPresent && Disposable(prefix, pairValid, name)
    ensures Consistent(prefix, pairValid, lockPresent, before, Advanced(pass, name, verdict),
      if verdict == Removed then now - {name} else now)
    ensures name in now && KindOf(prefix, name) != None
  {
    hide Disposable, KindOf;
    assert before - (pass.removed + {name}) == before - pass.removed - {name};
  }

  lemma AdvanceComplete(prefix: string, pairValid: bool, lockPresent: bool, pass: Pass, name: string, verdict: Verdict)
    requires Complete(prefix, pairValid, lockPresent, pass.retained)
    requires verdict == Retained ==> lockPresent || !Disposable(prefix, pairValid, name)
    ensures Complete(prefix, pairValid, lockPresent, Advanced(pass, name, verdict).retained)
  {
    hide Disposable;
  }

  lemma ConsistentIsTrimmed(prefix: string, pairValid: bool, lockPresent: bool, before: Files, pass: Pass, now: Files)
    requires Consistent(prefix, pairValid, lockPresent, before, pass, now)
    ensures Trimmed(prefix, pairValid, before, now)
    ensures lockPresent ==> now == before
  {
    hide Disposable;
    if lockPresent {
      assert pass.removed == {};
    }
  }

  lemma TrimMore(prefix: string, pairValid: bool, before: Files, past: seq<Files>, history: seq<Files>, now: Files)
    requires TrimmedThroughout(prefix, pairValid, before, past, history) && Trimmed(prefix, pairValid, before, now)
    ensures TrimmedThroughout(prefix, pairValid, before, past, history + [now])
  {
    hide Trimmed;
  }

  /** `--repair`: one pass over the leftovers, in any order. */
  method Repair(disk: Disk, prefix: string, pairValid: bool, lockPresent: bool) returns (pass: Pass)
    modifies disk
    ensures TrimmedThroughout(prefix, pairValid, old(disk.files), old(disk.history), disk.history)
    ensures pass.pending == {}
    ensures Consistent(prefix, pairValid, lockPresent, old(disk.files), pass, disk.files)
    ensures disk.Flawless(old(disk.operations)) ==> Complete(prefix, pairValid, lockPresent, pass.retained)
    ensures lockPresent ==> LeftAlone(prefix, old(disk.files), pass.removed, pass.retained, disk.files)
    ensures !lockPresent && disk.Flawless(old(disk.operations)) ==>
      CleanedUp(prefix, pairValid, old(disk.files), pass.removed, pass.retained, disk.files)
    ensures disk.locks == old(disk.locks) && disk.operations >= old(disk.operations)
  {
    hide KindOf, Disposable, TrimmedThroughout, Trimmed, Consistent, Complete, CleanedUp, LeftAlone, LeftoversOf;
    ghost var before, past := disk.files, disk.history;
    pass := Pass(LeftoversOf(prefix, disk.files), {}, {});
    NothingTrimmed(prefix, pairValid, lockPresent, before, past);
    while pass.pending != {}
      invariant TrimmedThroughout(prefix, pairValid, before, past, disk.history)
      invariant Consistent(prefix, pairValid, lockPresent, before, pass, disk.files)
      invariant disk.locks == old(disk.locks) && disk.operations >= old(disk.operations)
      invariant disk.Flawless(old(disk.operations)) ==> Complete(prefix, pairValid, lockPresent, pass.retained)
      decreases |pass.pending|
    {
      var name :| name in pass.pending;
      ghost var seen, now, from := disk.history, disk.files, disk.operations;
      AdvanceConsistent(prefix, pairValid, lockPresent, before, pass, now, name, Retained);
      var verdict := Consider(disk, prefix, pairValid, lockPresent, name);
      AdvanceConsistent(prefix, pairValid, lockPresent, before, pass, now, name, verdict);
      if disk.Flawless(old(disk.operations)) {
        AdvanceComplete(prefix, pairValid, lockPresent, pass, name, verdict);
      }
      pass := Advanced(pass, name, verdict);
      ConsistentIsTrimmed(prefix, pairValid, lockPresent, before, pass, disk.files);
      TrimMore(prefix, pairValid, before, past, seen, disk.files);
    }
    if lockPresent {
      LockedByName(prefix, pairValid, before, pass, disk.files);
    } else if disk.Flawless(old(disk.operations)) {
      RepairedByName(prefix, pairValid, before, pass, disk.files);
    }
  }

  lemma NothingTrimmed(prefix: string, pairValid: bool, lockPresent: bool, before: Files, past: seq<Files>)
    ensures TrimmedThroughout(prefix, pairValid, before, past, past)
    ensures Consistent(prefix, pairValid, lockPresent, before, Pass(LeftoversOf(prefix, before), {}, {}), before)
    ensures Complete(prefix, pairValid, lockPresent, {})
  {
    assert before - {} == before;
  }

  /** What a pass that met neither lock nor failure leaves and reports, by file names. */
  predicate CleanedUp(prefix: string, pairValid: bool, before: Files, removed: set<string>, retained: set<string>,
      now: Files)
  {
    && removed == (set name | name in before && (IsTemporary(prefix, name) || (pairValid && IsBackup(prefix, name))))
    && retained == (set name | name in before && !pairValid && IsBackup(prefix, name))
    && now.Keys == before.Keys - removed && (forall name :: name in now ==> now[name] == before[name])
    && (forall name :: name in now ==> !IsTemporary(prefix, name) && (pairValid ==> !IsBackup(prefix, name)))
  }

  /** What a pass that met a lock leaves and reports. */
  predicate LeftAlone(prefix: string, before: Files, removed: set<string>, retained: set<string>, now: Files) {
    && removed == {} && now == before
    && retained == (set name | name in before && (IsTemporary(prefix, name) || IsBackup(prefix, name)))
  }

  lemma RepairedByName(prefix: string, pairValid: bool, before: Files, pass: Pass, now: Files)
    requires Consistent(prefix, pairValid, false, before, pass, now) && pass.pending == {}
    requires Complete(prefix, pairValid, false, pass.retained)
    ensures CleanedUp(prefix, pairValid, before, pass.removed, pass.retained, now)
  {
    hide KindOf, IsTemporary, IsBackup, Disposable;
    forall name | name in before
      ensures name in pass.removed <==> IsTemporary(prefix, name) || (pairValid && IsBackup(prefix, name))
      ensures name in pass.retained <==> !pairValid && IsBackup(prefix, name)
    {
      KindsByName(prefix, name);
      assert name in LeftoversOf(prefix, before) <==> name in pass.removed || name in pass.retained;
    }
    assert forall name :: name in pass.removed || name in pass.retained ==> name in LeftoversOf(prefix, before);
  }

  lemma LockedByName(prefix: string, pairValid: bool, before: Files, pass: Pass, now: Files)
    requires Consistent(prefix, pairValid, true, before, pass, now) && pass.pending == {}
    ensures LeftAlone(prefix, before, pass.removed, pass.retained, now)
  {
    hide KindOf, IsTemporary, IsBackup, Disposable;
    assert pass.removed == {} && before - {} == before;
    forall name | name in before
      ensures name in LeftoversOf(prefix, before) <==> IsTemporary(prefix, name) || IsBackup(prefix, name)
    {
      KindsByName(prefix, name);
    }
    assert forall name :: name in pass.retained ==> name in LeftoversOf(prefix, before);
  }

  /** `--force-unlock`: removes the locks that are there, and reports the ones that would not go. */
  method Unlock(disk: Disk, prefix: string) returns (unlocked: set<string>, locked: set<string>)
    modifies disk
    ensures disk.files == old(disk.files) && disk.history == old(disk.history)
    ensures disk.locks == old(disk.locks) - unlocked && unlocked !! locked
    ensures unlocked + locked == old(disk.locks) * LocksOf(prefix)
    ensures disk.Flawless(old(disk.operations)) ==> locked == {}
    ensures disk.operations >= old(disk.operations)
  {
    var indexLock, documentsLock := LockOf(IndexOf(prefix)), LockOf(DocumentsOf(prefix));
    hide LockOf, IndexOf, DocumentsOf;
    LocksDiffer(prefix);
    unlocked, locked := {}, {};
    if indexLock in disk.locks {
      var ok := disk.RemoveLock(indexLock);
      if ok {
        unlocked := {indexLock};
      } else {
        locked := {indexLock};
      }
    }
    if documentsLock in disk.locks {
      var ok := disk.RemoveLock(documentsLock);
      if ok {
        unlocked := unlocked + {documentsLock};
      } else {
        locked := locked + {documentsLock};
      }
    }
  }

  datatype Refusal = OwnerRunning

  /** Both files of the pair are there and match. */
  predicate PairValid(prefix: string, valid: Validity, files: Files) {
    && prefix + ".leann" in files && prefix + ".docs" in files
    && valid(files[prefix + ".leann"], files[prefix + ".docs"])
  }

  lemma LiteralNames(prefix: string, valid: Validity, files: Files)
    ensures LocksOf(prefix) == {prefix + ".leann.lock", prefix + ".docs.lock"}
    ensures LivePairValid(prefix, valid, files) == PairValid(prefix, valid, files)
  {
    assert LockOf(IndexOf(prefix)) == prefix + ".leann.lock" && LockOf(DocumentsOf(prefix)) == prefix + ".docs.lock";
  }

  /** `leann doctor`: everything that can refuse is checked before anything is removed. */
  method Examine(disk: Disk, prefix: string, valid: Validity, liveness: string -> Liveness, repair: bool,
      forceUnlock: bool)
    returns (r: Result<Report, Refusal>)
    modifies disk
    ensures r == Err(OwnerRunning) <==>
      forceUnlock && exists lock :: lock in LocksOf(prefix) && lock in old(disk.locks) && liveness(lock) == Running
    ensures r.Err? ==>
      disk.files == old(disk.files) && disk.locks == old(disk.locks) && disk.history == old(disk.history)
    ensures r.Ok? ==>
      && r.value.pairValid == PairValid(prefix, valid, old(disk.files))
      && (!repair ==> r.value.removed == r.value.retained == {} && disk.files == old(disk.files))
      && (repair ==>
            Consistent(prefix, r.value.pairValid, old(disk.locks) * LocksOf(prefix) != {}, old(disk.files),
              Pass({}, r.value.removed, r.value.retained), disk.files))
      && (repair && old(disk.locks) * {prefix + ".leann.lock", prefix + ".docs.lock"} != {} ==>
            LeftAlone(prefix, old(disk.files), r.value.removed, r.value.retained, disk.files))
      && (repair && old(disk.locks) * {prefix + ".leann.lock", prefix + ".docs.lock"} == {}
          && disk.Flawless(old(disk.operations)) ==>
            CleanedUp(prefix, r.value.pairValid, old(disk.files), r.value.removed, r.value.retained, disk.files))
      && disk.locks == old(disk.locks) - r.value.unlocked
      && r.value.unlocked !! r.value.locked
      && r.value.unlocked + r.value.locked
         == (if forceUnlock then old(disk.locks) * {prefix + ".leann.lock", prefix + ".docs.lock"} else {})
      && (forceUnlock && disk.Flawless(old(disk.operations)) ==> r.value.locked == {})
    ensures TrimmedThroughout(prefix, LivePairValid(prefix, valid, old(disk.files)), old(disk.files),
        old(disk.history), disk.history)
    ensures Trimmed(prefix, LivePairValid(prefix, valid, old(disk.files)), old(disk.files), disk.files)
  {
    hide TrimmedThroughout, Trimmed, Consistent, Complete, KindOf, CleanedUp, LeftAlone;
    LiteralNames(prefix, valid, disk.files);
    var pairValid := LivePairValid(prefix, valid, disk.files);
    var indexLock, documentsLock := LockOf(IndexOf(prefix)), LockOf(DocumentsOf(prefix));
    var anyLockPresent := indexLock in disk.locks || documentsLock in disk.locks;
    var anyOwnerRunning := (indexLock in disk.locks && liveness(indexLock) == Running)
      || (documentsLock in disk.locks && liveness(documentsLock) == Running);
    ghost var locks := disk.locks;
    assert anyLockPresent == (locks * LocksOf(prefix) != {}) by {
      assert indexLock in locks ==> indexLock in locks * LocksOf(prefix);
      assert documentsLock in locks ==> documentsLock in locks * LocksOf(prefix);
    }
    NothingTrimmed(prefix, pairValid, anyLockPresent, disk.files, disk.history);
    ConsistentIsTrimmed(prefix, pairValid, anyLockPresent, disk.files, Pass(LeftoversOf(prefix, disk.files), {}, {}),
        disk.files);
    if forceUnlock && anyOwnerRunning {
      return Err(OwnerRunning);
    }
    var pass := Pass({}, {}, {});
    if repair {
      pass := Repair(disk, prefix, pairValid, anyLockPresent);
      ConsistentIsTrimmed(prefix, pairValid, anyLockPresent, old(disk.files), pass, disk.files);
    }
    var unlocked, locked := {}, {};
    if forceUnlock {
      unlocked, locked := Unlock(disk, prefix);
    }
    r := Ok(Report(pairValid, pass.removed, pass.retained, unlocked, locked));
  }
}
