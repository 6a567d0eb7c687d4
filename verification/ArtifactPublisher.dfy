/**
 * Publication of an index and its document store: four renames made a
 * transaction by backups and rollback. Any operation may fail, including the
 * rollback's own, and the run may stop after any of them.
 */
module ArtifactPublisher {
  import opened Bytes
  import opened Outcomes

  type Files = map<string, Bytes>

  function At(files: Files, path: string): Option<Bytes> {
    if path in files then Some(files[path]) else None
  }

  function Renamed(files: Files, from: string, to: string): Files
    requires from in files
  {
    files[to := files[from]] - {from}
  }

  /** A file system whose operations fail as an arbitrary schedule says, each
      one happening completely or not at all. `history` keeps every state. */
  class Disk {
    const faults: nat -> bool
    var operations: nat
    var files: Files
    var locks: set<string>
    var history: seq<Files>

    constructor (faults: nat -> bool, files: Files, locks: set<string>)
      ensures this.faults == faults && this.files == files && this.locks == locks
      ensures operations == 0 && history == [files]
    {
      this.faults := faults;
      this.operations := 0;
      this.files := files;
      this.locks := locks;
      this.history := [files];
    }

    /** No operation numbered from `from` up to now failed. */
    ghost predicate Flawless(from: nat)
      reads this
    {
      forall i :: from <= i < operations ==> !faults(i)
    }

    method Exists(path: string) returns (r: Option<bool>)
      modifies this`operations
      ensures operations == old(operations) + 1
      ensures r == if faults(old(operations)) then None else Some(path in files)
    {
      r := if faults(operations) then None else Some(path in files);
      operations := operations + 1;
    }

    method Rename(from: string, to: string) returns (ok: bool)
      modifies this`operations, this`files, this`history
      ensures operations == old(operations) + 1
      ensures ok == (from in old(files) && !faults(old(operations)))
      ensures files == if ok then Renamed(old(files), from, to) else old(files)
      ensures history == old(history) + [files]
    {
      ok := from in files && !faults(operations);
      operations := operations + 1;
      if ok {
        files := Renamed(files, from, to);
      }
      history := history + [files];
    }

    /** Writing passes through a state in which only part of the bytes are there. */
    method Write(path: string, partial: Bytes, bytes: Bytes) returns (ok: bool)
      modifies this`operations, this`files, this`history
      ensures operations == old(operations) + 1 && ok == !faults(old(operations))
      ensures files == old(files)[path := if ok then bytes else partial]
      ensures history == old(history) + [old(files)[path := partial]] + [files]
    {
      ok := !faults(operations);
      operations := operations + 1;
      files := files[path := partial];
      history := history + [files];
      if ok {
        files := files[path := bytes];
      }
      history := history + [files];
    }

    /** Creating a lock directory is the acquisition; it fails if the lock is there. */
    method CreateLock(path: string) returns (ok: bool)
      modifies this`operations, this`locks
      ensures operations == old(operations) + 1
      ensures ok == (path !in old(locks) && !faults(old(operations)))
      ensures locks == if ok then old(locks) + {path} else old(locks)
    {
      ok := path !in locks && !faults(operations);
      operations := operations + 1;
      if ok {
        locks := locks + {path};
      }
    }

    method RemoveLock(path: string) returns (ok: bool)
      modifies this`operations, this`locks
      ensures operations == old(operations) + 1 && ok == !faults(old(operations))
      ensures locks == if ok then old(locks) - {path} else old(locks)
    {
      ok := !faults(operations);
      operations := operations + 1;
      if ok {
        locks := locks - {path};
      }
    }

    /** The machine stopped when only `length` states had been gone through;
        later it restarts in the last of them. */
    method Stop(length: nat, locks: set<string>)
      requires 0 < length <= |history|
      modifies this`files, this`locks, this`history
      ensures history == old(history)[..length] && files == history[length - 1] && this.locks == locks
    {
      history := history[..length];
      files := history[length - 1];
      this.locks := locks;
    }

    /** Removing a path that is absent succeeds. */
    method Remove(path: string) returns (ok: bool)
      modifies this`operations, this`files, this`history
      ensures operations == old(operations) + 1
      ensures ok == !faults(old(operations))
      ensures files == if ok then old(files) - {path} else old(files)
      ensures history == old(history) + [files]
    {
      ok := !faults(operations);
      operations := operations + 1;
      if ok {
        files := files - {path};
      }
      history := history + [files];
    }
  }

  datatype Names = Names(
    temporaryIndex: string, temporaryDocuments: string,
    index: string, documents: string,
    indexBackup: string, documentsBackup: string)
  {
    function Six(): set<string> {
      {temporaryIndex, temporaryDocuments, index, documents, indexBackup, documentsBackup}
    }

    predicate Distinct() {
      && temporaryIndex !in {temporaryDocuments, index, documents, indexBackup, documentsBackup}
      && temporaryDocuments !in {index, documents, indexBackup, documentsBackup}
      && index !in {documents, indexBackup, documentsBackup}
      && documents !in {indexBackup, documentsBackup}
      && indexBackup != documentsBackup
    }
  }

  /** What the builder guarantees before it publishes: a new pair under
      temporary names, and backup names nobody uses. */
  predicate Ready(files: Files, n: Names) {
    && n.Distinct()
    && n.temporaryIndex in files && n.temporaryDocuments in files
    && n.indexBackup !in files && n.documentsBackup !in files
  }

  predicate Elsewhere(before: Files, n: Names, now: Files) {
    && now.Keys <= before.Keys + n.Six()
    && forall path :: path in before && path !in n.Six() ==> path in now && now[path] == before[path]
  }

  /** The old index is live or in its backup, and so are the old documents;
      the old index is live only together with the old documents. */
  predicate Uncommitted(before: Files, n: Names, now: Files) {
    && Elsewhere(before, n, now)
    && (|| (At(now, n.index) == At(before, n.index) && At(now, n.indexBackup) == None)
        || (At(now, n.index) == None && At(now, n.indexBackup) == At(before, n.index)))
    && (|| (At(now, n.documents) == At(before, n.documents) && At(now, n.documentsBackup) == None)
        || (At(now, n.documents) in {None, At(before, n.temporaryDocuments)}
            && At(now, n.documentsBackup) == At(before, n.documents)))
    && (At(now, n.index) != None ==> At(now, n.documents) == At(before, n.documents))
  }

  /** The new pair is live; each backup is either gone or still the old file. */
  predicate Committed(before: Files, n: Names, now: Files) {
    && Elsewhere(before, n, now)
    && At(now, n.index) == At(before, n.temporaryIndex)
    && At(now, n.documents) == At(before, n.temporaryDocuments)
    && At(now, n.indexBackup) in {None, At(before, n.index)}
    && At(now, n.documentsBackup) in {None, At(before, n.documents)}
  }

  predicate InTransit(before: Files, n: Names, now: Files) {
    Uncommitted(before, n, now) || Committed(before, n, now)
  }

  /** The history only grew, and every state it gained is from before the commit. */
  predicate Watched(past: seq<Files>, history: seq<Files>, before: Files, n: Names) {
    && past <= history
    && forall i :: |past| <= i < |history| ==> Uncommitted(before, n, history[i])
  }

  /** The states gained are uncommitted up to `commit`, and from there on the new pair is live. */
  predicate Crossed(past: seq<Files>, history: seq<Files>, before: Files, n: Names, commit: nat) {
    && past <= history && |past| <= commit <= |history|
    && (forall i :: |past| <= i < commit ==> Uncommitted(before, n, history[i]))
    && (forall i :: commit <= i < |history| ==> Committed(before, n, history[i]))
  }

  lemma WatchNothing(past: seq<Files>, before: Files, n: Names)
    ensures Watched(past, past, before, n)
  {
  }

  lemma WatchMore(past: seq<Files>, history: seq<Files>, before: Files, n: Names, now: Files)
    requires Watched(past, history, before, n) && Uncommitted(before, n, now)
    ensures Watched(past, history + [now], before, n)
  {
    hide Uncommitted;
  }

  lemma WatchedIsCrossed(past: seq<Files>, history: seq<Files>, before: Files, n: Names)
    requires Watched(past, history, before, n)
    ensures Crossed(past, history, before, n, |history|)
  {
    hide Uncommitted;
  }

  lemma CrossMore(past: seq<Files>, history: seq<Files>, before: Files, n: Names, commit: nat, now: Files)
    requires Crossed(past, history, before, n, commit) && Committed(before, n, now)
    ensures Crossed(past, history + [now], before, n, commit)
  {
    hide Uncommitted, Committed;
  }

  datatype Outcome = Published | CleanupRequired | Restored | RollbackIncomplete | CannotInspect

  datatype Progress = Progress(indexBackedUp: bool, documentsBackedUp: bool, documentsInstalled: bool)

  // ---------- which outcome a schedule of failures leads to ----------

  type Faults = nat -> bool

  /** How far the four renames get, and which operation comes next. */
  datatype Attempt = Attempt(progress: Progress, installed: bool, operations: nat)

  function Installing(faults: Faults, from: nat, hadIndex: bool, hadDocuments: bool): Attempt {
    var second := if hadIndex then from + 1 else from;
    var third := if hadDocuments then second + 1 else second;
    if hadIndex && faults(from) then Attempt(Progress(false, false, false), false, from + 1)
    else if hadDocuments && faults(second) then Attempt(Progress(hadIndex, false, false), false, second + 1)
    else if faults(third) then Attempt(Progress(hadIndex, hadDocuments, false), false, third + 1)
    else Attempt(Progress(hadIndex, hadDocuments, true), !faults(third + 1), third + 2)
  }

  /**
   * When rollback restores everything: the new documents can be renamed away or else removed, and every
   * restoring rename succeeds.
   */
  predicate RollsBack(faults: Faults, from: nat, p: Progress) {
    var next := if !p.documentsInstalled then from else if faults(from) then from + 2 else from + 1;
    && (p.documentsInstalled ==> !faults(from) || !faults(from + 1))
    && (p.documentsBackedUp ==> !faults(next))
    && (p.indexBackedUp ==> !faults(if p.documentsBackedUp then next + 1 else next))
  }

  /** The outcome of a publication, from the failures and what was there alone. */
  function Foreseen(faults: Faults, from: nat, hadIndex: bool, hadDocuments: bool): Outcome {
    if faults(from) || faults(from + 1) then CannotInspect
    else
      var a := Installing(faults, from + 2, hadIndex, hadDocuments);
      if !a.installed then
        if RollsBack(faults, a.operations, a.progress) then Restored else RollbackIncomplete
      else if (hadIndex && faults(a.operations))
              || (hadDocuments && faults(if hadIndex then a.operations + 1 else a.operations)) then CleanupRequired
      else Published
  }

  /** Exactly where the transaction stands before its commit. */
  predicate Stands(before: Files, n: Names, p: Progress, now: Files) {
    && Elsewhere(before, n, now)
    && At(now, n.temporaryIndex) == At(before, n.temporaryIndex)
    && (if p.indexBackedUp then At(now, n.index) == None && At(now, n.indexBackup) == At(before, n.index)
        else At(now, n.index) == At(before, n.index) && At(now, n.indexBackup) == None)
    && (if p.documentsBackedUp then At(now, n.documentsBackup) == At(before, n.documents)
        else At(now, n.documentsBackup) == None)
    && (if p.documentsInstalled then
          At(now, n.documents) == At(before, n.temporaryDocuments) && At(now, n.temporaryDocuments) == None
        else
          At(now, n.documents) == (if p.documentsBackedUp then None else At(before, n.documents))
          && At(now, n.temporaryDocuments) == At(before, n.temporaryDocuments))
    && (p.documentsBackedUp ==> p.indexBackedUp || At(before, n.index) == None)
    && (p.documentsInstalled ==> p.documentsBackedUp || At(before, n.documents) == None)
    && (p.documentsInstalled ==> p.indexBackedUp || At(before, n.index) == None)
    && (p.indexBackedUp ==> At(before, n.index) != None)
    && (p.documentsBackedUp ==> At(before, n.documents) != None)
  }

  lemma StandsUncommitted(before: Files, n: Names, p: Progress, now: Files)
    requires Ready(before, n) && Stands(before, n, p, now)
    ensures Uncommitted(before, n, now)
  {
  }

  /** The guarded part of the transaction: two backups, then the documents, then the index as commit marker. */
  lemma WatchStanding(past: seq<Files>, seen: seq<Files>, before: Files, n: Names, p: Progress, now: Files)
    requires Ready(before, n) && Watched(past, seen, before, n) && Stands(before, n, p, now)
    ensures Watched(past, seen + [now], before, n)
  {
    hide Watched, Stands, Uncommitted;
    StandsUncommitted(before, n, p, now);
    WatchMore(past, seen, before, n, now);
  }

  method Install(disk: Disk, n: Names, hadIndex: bool, hadDocuments: bool) returns (p: Progress, ok: bool)
    requires Ready(disk.files, n)
    requires hadIndex == (n.index in disk.files) && hadDocuments == (n.documents in disk.files)
    modifies disk
    ensures !ok ==> Watched(old(disk.history), disk.history, old(disk.files), n)
    ensures ok ==>
      && |disk.history| > 0 && Crossed(old(disk.history), disk.history, old(disk.files), n, |disk.history| - 1)
      && Committed(old(disk.files), n, disk.files)
      && p.indexBackedUp == hadIndex && p.documentsBackedUp == hadDocuments
    ensures !ok ==> Stands(old(disk.files), n, p, disk.files)
    ensures disk.operations > old(disk.operations) && ok == disk.Flawless(old(disk.operations))
    ensures Attempt(p, ok, disk.operations)
            == Installing(disk.faults, old(disk.operations), hadIndex, hadDocuments)
    ensures disk.locks == old(disk.locks)
  {
    hide Uncommitted, Stands, Committed, Renamed, Ready, Watched, Crossed;
    WatchNothing(disk.history, disk.files, n);
    ghost var before, past := disk.files, disk.history;
    p := Progress(false, false, false);
    StandsAtStart(before, n);
    if hadIndex {
      ghost var seen := disk.history;
      ok := disk.Rename(n.index, n.indexBackup);
      BackUpIndex(before, n, ok, disk.files);
      p := p.(indexBackedUp := ok);
      WatchStanding(past, seen, before, n, p, disk.files);
      if !ok {
        return;
      }
    }
    if hadDocuments {
      ghost var q, now, seen := p, disk.files, disk.history;
      StillThere(before, n, p, now);
      ok := disk.Rename(n.documents, n.documentsBackup);
      BackUpDocuments(before, n, q, now, ok, disk.files);
      p := p.(documentsBackedUp := ok);
      WatchStanding(past, seen, before, n, p, disk.files);
      if !ok {
        return;
      }
    }
    ghost var q, now, seen := p, disk.files, disk.history;
    StillThere(before, n, p, now);
    ok := disk.Rename(n.temporaryDocuments, n.documents);
    InstallDocuments(before, n, q, now, ok, disk.files);
    p := p.(documentsInstalled := ok);
    WatchStanding(past, seen, before, n, p, disk.files);
    if !ok {
      return;
    }
    q, now, seen := p, disk.files, disk.history;
    StillThere(before, n, p, now);
    ok := disk.Rename(n.temporaryIndex, n.index);
    InstallIndex(before, n, q, now, ok, disk.files);
    if ok {
      WatchedIsCrossed(past, seen, before, n);
      CrossMore(past, seen, before, n, |seen|, disk.files);
    } else {
      WatchStanding(past, seen, before, n, p, disk.files);
    }
  }

  lemma StandsAtStart(before: Files, n: Names)
    requires Ready(before, n)
    ensures Stands(before, n, Progress(false, false, false), before)
  {
  }

  lemma StillThere(before: Files, n: Names, p: Progress, now: Files)
    requires Ready(before, n) && Stands(before, n, p, now)
    ensures !p.documentsBackedUp && !p.documentsInstalled && n.documents in before ==> n.documents in now
    ensures !p.documentsInstalled ==> n.temporaryDocuments in now
    ensures n.temporaryIndex in now
  {
    assert At(now, n.temporaryIndex) == At(before, n.temporaryIndex);
  }

  lemma BackUpIndex(before: Files, n: Names, ok: bool, now: Files)
    requires Ready(before, n) && n.index in before
    requires now == if ok then Renamed(before, n.index, n.indexBackup) else before
    ensures Stands(before, n, Progress(ok, false, false), now)
  {
  }

  lemma BackUpDocuments(before: Files, n: Names, p: Progress, now: Files, ok: bool, after: Files)
    requires Ready(before, n) && Stands(before, n, p, now)
    requires !p.documentsBackedUp && !p.documentsInstalled && n.documents in before
    requires p.indexBackedUp || n.index !in before
    requires n.documents in now && after == if ok then Renamed(now, n.documents, n.documentsBackup) else now
    ensures Stands(before, n, p.(documentsBackedUp := ok), after)
  {
  }

  lemma InstallDocuments(before: Files, n: Names, p: Progress, now: Files, ok: bool, after: Files)
    requires Ready(before, n) && Stands(before, n, p, now) && !p.documentsInstalled
    requires p.indexBackedUp || n.index !in before
    requires p.documentsBackedUp || n.documents !in before
    requires n.temporaryDocuments in now && after == if ok then Renamed(now, n.temporaryDocuments, n.documents) else now
    ensures Stands(before, n, p.(documentsInstalled := ok), after)
  {
  }

  lemma InstallIndex(before: Files, n: Names, p: Progress, now: Files, ok: bool, after: Files)
    requires Ready(before, n) && Stands(before, n, p, now) && p.documentsInstalled
    requires n.temporaryIndex in now && after == if ok then Renamed(now, n.temporaryIndex, n.index) else now
    ensures if ok then Committed(before, n, after) else Stands(before, n, p, after)
  {
  }

  // ---------- rollback ----------

  datatype RollbackError = CannotRemoveDocuments | CannotRestoreDocuments | CannotRestoreIndex

  /** The index half of Stands. */
  predicate IndexStands(before: Files, n: Names, p: Progress, now: Files) {
    && Elsewhere(before, n, now)
    && (if p.indexBackedUp then At(now, n.index) == None && At(now, n.indexBackup) == At(before, n.index)
        else At(now, n.index) == At(before, n.index) && At(now, n.indexBackup) == None)
    && (p.documentsBackedUp || p.documentsInstalled ==> p.indexBackedUp || At(before, n.index) == None)
    && (p.documentsInstalled ==> p.documentsBackedUp || At(before, n.documents) == None)
    && (p.indexBackedUp ==> At(before, n.index) != None)
    && (p.documentsBackedUp ==> At(before, n.documents) != None)
  }

  /** Where the documents may be while the transaction is undone. */
  datatype Documents = Uninstalled | Stuck | Back

  predicate DocumentsStand(before: Files, n: Names, p: Progress, d: Documents, now: Files) {
    match d
    case Uninstalled =>
      && At(now, n.documents) == (if p.documentsBackedUp then None else At(before, n.documents))
      && At(now, n.documentsBackup) == (if p.documentsBackedUp then At(before, n.documents) else None)
    case Stuck =>
      && p.documentsInstalled
      && At(now, n.documents) == At(before, n.temporaryDocuments)
      && At(now, n.documentsBackup) == (if p.documentsBackedUp then At(before, n.documents) else None)
    case Back =>
      && At(now, n.documents) == At(before, n.documents)
      && At(now, n.documentsBackup) == None
  }

  predicate Undoing(before: Files, n: Names, p: Progress, d: Documents, now: Files) {
    IndexStands(before, n, p, now) && DocumentsStand(before, n, p, d, now)
  }

  lemma WatchUndoing(past: seq<Files>, seen: seq<Files>, before: Files, n: Names, p: Progress, d: Documents, now: Files)
    requires Ready(before, n) && Watched(past, seen, before, n) && Undoing(before, n, p, d, now)
    ensures Watched(past, seen + [now], before, n)
  {
    hide Watched;
    UndoingIsUncommitted(before, n, p, d, now);
    hide Undoing;
    WatchMore(past, seen, before, n, now);
  }

  lemma UndoingIsUncommitted(before: Files, n: Names, p: Progress, d: Documents, now: Files)
    requires Ready(before, n) && Undoing(before, n, p, d, now)
    ensures Uncommitted(before, n, now)
  {
  }

  /** Both live paths hold exactly what they held, and no backup is left. */
  predicate AsBefore(before: Files, n: Names, now: Files) {
    && Elsewhere(before, n, now)
    && At(now, n.index) == At(before, n.index) && At(now, n.indexBackup) == None
    && At(now, n.documents) == At(before, n.documents) && At(now, n.documentsBackup) == None
  }

  /** The uncommitted documents are renamed away, or removed when that fails. */
  method WithdrawNew(disk: Disk, n: Names, p: Progress, ghost before: Files, ghost past: seq<Files>)
    returns (gone: bool)
    requires Ready(before, n) && p.documentsInstalled && Undoing(before, n, p, Stuck, disk.files)
    requires Watched(past, disk.history, before, n)
    modifies disk
    ensures Watched(past, disk.history, before, n) && disk.locks == old(disk.locks)
    ensures Undoing(before, n, p, if gone then Uninstalled else Stuck, disk.files)
    ensures gone == (!disk.faults(old(disk.operations)) || !disk.faults(old(disk.operations) + 1))
    ensures disk.operations == old(disk.operations) + if disk.faults(old(disk.operations)) then 2 else 1
  {
    hide Watched, Undoing, Ready, Uncommitted, Renamed, Elsewhere;
    ghost var now, seen := disk.files, disk.history;
    gone := disk.Rename(n.documents, n.temporaryDocuments);
    Withdraw(before, n, p, now, gone, disk.files);
    WatchUndoing(past, seen, before, n, p, if gone then Uninstalled else Stuck, disk.files);
    if !gone {
      now, seen := disk.files, disk.history;
      gone := disk.Remove(n.documents);
      RemoveNew(before, n, p, now, gone, disk.files);
      WatchUndoing(past, seen, before, n, p, if gone then Uninstalled else Stuck, disk.files);
    }
  }

  method Rollback(disk: Disk, n: Names, p: Progress, ghost before: Files, ghost past: seq<Files>)
    returns (errors: seq<RollbackError>)
    requires Ready(before, n) && Stands(before, n, p, disk.files)
    requires Watched(past, disk.history, before, n)
    modifies disk
    ensures Watched(past, disk.history, before, n) && disk.locks == old(disk.locks)
    ensures errors == [] ==> AsBefore(before, n, disk.files)
    ensures errors != [] ==> Uncommitted(before, n, disk.files) && At(disk.files, n.index) == None
    ensures errors != [] ==> !disk.Flawless(old(disk.operations))
    ensures errors == [] <==> RollsBack(disk.faults, old(disk.operations), p)
    ensures disk.operations >= old(disk.operations)
  {
    hide Watched, Stands, Undoing, Ready, Uncommitted, Renamed, AsBefore, Elsewhere;
    errors := [];
    ghost var d := Uninstalled;
    BeginUndo(before, n, p, disk.files);
    if p.documentsInstalled {
      var gone := WithdrawNew(disk, n, p, before, past);
      if !gone {
        d := Stuck;
        errors := errors + [CannotRemoveDocuments];
      }
    }
    if p.documentsBackedUp {
      ghost var now, seen := disk.files, disk.history;
      var restored := disk.Rename(n.documentsBackup, n.documents);
      RestoreDocuments(before, n, p, d, now, restored, disk.files);
      if restored {
        d := Back;
      } else {
        errors := errors + [CannotRestoreDocuments];
      }
      WatchUndoing(past, seen, before, n, p, d, disk.files);
    }
    if p.indexBackedUp && errors == [] {
      ghost var now, seen := disk.files, disk.history;
      var restored := disk.Rename(n.indexBackup, n.index);
      RestoreIndex(before, n, p, d, now, restored, disk.files);
      if restored {
        WatchRestored(past, seen, before, n, disk.files);
        return;
      }
      errors := errors + [CannotRestoreIndex];
      WatchUndoing(past, seen, before, n, p, d, disk.files);
    }
    EndUndo(before, n, p, d, disk.files);
  }

  lemma BeginUndo(before: Files, n: Names, p: Progress, now: Files)
    requires Ready(before, n) && Stands(before, n, p, now)
    ensures Undoing(before, n, p, if p.documentsInstalled then Stuck else Uninstalled, now)
  {
  }

  lemma Withdraw(before: Files, n: Names, p: Progress, now: Files, ok: bool, after: Files)
    requires Ready(before, n) && Undoing(before, n, p, Stuck, now) && (ok ==> n.documents in now)
    requires after == if ok then Renamed(now, n.documents, n.temporaryDocuments) else now
    ensures n.documents in now
    ensures Undoing(before, n, p, if ok then Uninstalled else Stuck, after)
  {
    assert At(now, n.documents) == At(before, n.temporaryDocuments);
  }

  lemma RemoveNew(before: Files, n: Names, p: Progress, now: Files, ok: bool, after: Files)
    requires Ready(before, n) && Undoing(before, n, p, Stuck, now)
    requires after == if ok then now - {n.documents} else now
    ensures Undoing(before, n, p, if ok then Uninstalled else Stuck, after)
  {
  }

  lemma RestoreDocuments(before: Files, n: Names, p: Progress, d: Documents, now: Files, ok: bool, after: Files)
    requires Ready(before, n) && Undoing(before, n, p, d, now)
    requires p.documentsBackedUp && d != Back && (ok ==> n.documentsBackup in now)
    requires after == if ok then Renamed(now, n.documentsBackup, n.documents) else now
    ensures n.documentsBackup in now
    ensures Undoing(before, n, p, if ok then Back else d, after)
  {
    assert At(now, n.documentsBackup) == At(before, n.documents);
  }

  /** The documents are as they were, so the old index may be reactivated. */
  predicate DocumentsReady(p: Progress, d: Documents) {
    d == (if p.documentsBackedUp then Back else Uninstalled)
  }

  lemma RestoreIndex(before: Files, n: Names, p: Progress, d: Documents, now: Files, ok: bool, after: Files)
    requires Ready(before, n) && Undoing(before, n, p, d, now)
    requires p.indexBackedUp && DocumentsReady(p, d) && (ok ==> n.indexBackup in now)
    requires after == if ok then Renamed(now, n.indexBackup, n.index) else now
    ensures n.indexBackup in now
    ensures if ok then AsBefore(before, n, after) else Undoing(before, n, p, d, after)
  {
    assert At(now, n.indexBackup) == At(before, n.index);
  }

  lemma WatchRestored(past: seq<Files>, seen: seq<Files>, before: Files, n: Names, now: Files)
    requires Ready(before, n) && Watched(past, seen, before, n) && AsBefore(before, n, now)
    ensures Watched(past, seen + [now], before, n)
  {
    hide Watched;
    assert Uncommitted(before, n, now);
    WatchMore(past, seen, before, n, now);
  }

  lemma EndUndo(before: Files, n: Names, p: Progress, d: Documents, now: Files)
    requires Ready(before, n) && Undoing(before, n, p, d, now)
    ensures Uncommitted(before, n, now)
    ensures !p.indexBackedUp && DocumentsReady(p, d) ==> AsBefore(before, n, now)
    ensures p.indexBackedUp || p.documentsBackedUp || p.documentsInstalled ==> At(now, n.index) == None
  {
  }

  // ---------- the whole publication ----------

  method CleanUp(disk: Disk, n: Names, p: Progress, ghost before: Files, ghost past: seq<Files>, ghost commit: nat)
    returns (clean: bool)
    requires Committed(before, n, disk.files) && Crossed(past, disk.history, before, n, commit) && n.Distinct()
    requires p.indexBackedUp == (n.index in before) && p.documentsBackedUp == (n.documents in before)
    modifies disk
    ensures Committed(before, n, disk.files) && Crossed(past, disk.history, before, n, commit)
    ensures |disk.history| >= |old(disk.history)|
    ensures clean ==> n.indexBackup !in disk.files && n.documentsBackup !in disk.files
    ensures clean == disk.Flawless(old(disk.operations))
    ensures clean <==>
      && (p.indexBackedUp ==> !disk.faults(old(disk.operations)))
      && (p.documentsBackedUp ==>
            !disk.faults(if p.indexBackedUp then old(disk.operations) + 1 else old(disk.operations)))
    ensures disk.operations >= old(disk.operations) && disk.locks == old(disk.locks)
  {
    hide Crossed, Committed;
    clean := true;
    if p.indexBackedUp {
      ghost var now, seen := disk.files, disk.history;
      var removed := disk.Remove(n.indexBackup);
      clean := removed;
      CrossCleaned(past, seen, before, n, commit, now, n.indexBackup, removed, disk.files);
    }
    ghost var kept := !clean;
    if p.documentsBackedUp {
      ghost var now, seen := disk.files, disk.history;
      var removed := disk.Remove(n.documentsBackup);
      clean := clean && removed;
      CrossCleaned(past, seen, before, n, commit, now, n.documentsBackup, removed, disk.files);
    }
    NoBackupWithoutOriginal(before, n, disk.files);
  }

  lemma CrossCleaned(past: seq<Files>, seen: seq<Files>, before: Files, n: Names, commit: nat, now: Files,
      backup: string, ok: bool, after: Files)
    requires Committed(before, n, now) && Crossed(past, seen, before, n, commit) && n.Distinct()
    requires backup in {n.indexBackup, n.documentsBackup}
    requires after == if ok then now - {backup} else now
    ensures Committed(before, n, after) && Crossed(past, seen + [after], before, n, commit)
  {
    hide Crossed;
    CrossMore(past, seen, before, n, commit, after);
  }

  lemma NoBackupWithoutOriginal(before: Files, n: Names, now: Files)
    requires Committed(before, n, now)
    ensures n.index !in before ==> n.indexBackup !in now
    ensures n.documents !in before ==> n.documentsBackup !in now
  {
    assert At(now, n.indexBackup) in {None, At(before, n.index)};
    assert At(now, n.documentsBackup) in {None, At(before, n.documents)};
  }

  /** The live files are both old, or both new, or no index is live. */
  predicate NeverTorn(before: Files, n: Names, now: Files) {
    || At(now, n.index) == None
    || (At(now, n.index) == At(before, n.index) && At(now, n.documents) == At(before, n.documents))
    || (At(now, n.index) == At(before, n.temporaryIndex) && At(now, n.documents) == At(before, n.temporaryDocuments))
  }

  /** Each old file is at its live path or in its backup. */
  predicate OldSurvives(before: Files, n: Names, now: Files) {
    && At(before, n.index) in {At(now, n.index), At(now, n.indexBackup)}
    && At(before, n.documents) in {At(now, n.documents), At(now, n.documentsBackup)}
  }

  predicate NewIsLive(before: Files, n: Names, now: Files) {
    At(now, n.index) == At(before, n.temporaryIndex) && At(now, n.documents) == At(before, n.temporaryDocuments)
  }

  /** What every state of every run promises: no torn pair, no loss of the old
      files before the commit, no other file touched. */
  predicate Promised(before: Files, n: Names, now: Files) {
    && NeverTorn(before, n, now)
    && (OldSurvives(before, n, now) || NewIsLive(before, n, now))
    && Elsewhere(before, n, now)
  }

  lemma TransitIsPromised(before: Files, n: Names, now: Files)
    requires InTransit(before, n, now)
    ensures Promised(before, n, now)
  {
  }

  method Publish(disk: Disk, n: Names) returns (outcome: Outcome, ghost commit: nat)
    requires Ready(disk.files, n)
    modifies disk
    ensures Crossed(old(disk.history), disk.history, old(disk.files), n, commit)
    ensures commit < |disk.history| <==> outcome in {Published, CleanupRequired}
    ensures if outcome in {Published, CleanupRequired} then Committed(old(disk.files), n, disk.files)
            else Uncommitted(old(disk.files), n, disk.files)
    ensures old(disk.history) <= disk.history
    ensures forall i :: |old(disk.history)| <= i < |disk.history| ==>
      InTransit(old(disk.files), n, disk.history[i]) && Promised(old(disk.files), n, disk.history[i])
    ensures InTransit(old(disk.files), n, disk.files)
    ensures outcome == Published ==>
      && NewIsLive(old(disk.files), n, disk.files)
      && n.indexBackup !in disk.files && n.documentsBackup !in disk.files
    ensures outcome == CleanupRequired ==> NewIsLive(old(disk.files), n, disk.files)
    ensures outcome == Restored ==> AsBefore(old(disk.files), n, disk.files)
    ensures outcome == RollbackIncomplete ==> n.index !in disk.files && OldSurvives(old(disk.files), n, disk.files)
    ensures outcome == CannotInspect ==> disk.files == old(disk.files)
    ensures outcome == Published <==> disk.Flawless(old(disk.operations))
    ensures outcome
            == Foreseen(disk.faults, old(disk.operations), n.index in old(disk.files), n.documents in old(disk.files))
    ensures disk.operations >= old(disk.operations) && disk.locks == old(disk.locks)
  {
    hide Watched, Crossed, Ready, InTransit, Committed, Stands, Uncommitted, AsBefore, NeverTorn, OldSurvives,
        NewIsLive, Promised, RollsBack, Installing;
    ghost var before, past := disk.files, disk.history;
    commit := |past|;
    AtRest(before, n);
    WatchNothing(past, before, n);
    WatchedIsCrossed(past, past, before, n);
    var hadIndex := disk.Exists(n.index);
    if hadIndex == None {
      outcome := CannotInspect;
      return;
    }
    var hadDocuments := disk.Exists(n.documents);
    if hadDocuments == None {
      outcome := CannotInspect;
      return;
    }
    var p, installed := Install(disk, n, hadIndex.value, hadDocuments.value);
    if !installed {
      var errors := Rollback(disk, n, p, before, past);
      commit := |disk.history|;
      WatchedIsCrossed(past, disk.history, before, n);
      CrossedIsPromised(past, disk.history, before, n, commit);
      outcome := if errors == [] then Restored else RollbackIncomplete;
      UndoneIsSafe(before, n, disk.files, errors == []);
      return;
    }
    ReadyIsDistinct(before, n);
    commit := |disk.history| - 1;
    var clean := CleanUp(disk, n, p, before, past, commit);
    CrossedIsPromised(past, disk.history, before, n, commit);
    CommittedIsLive(before, n, disk.files);
    outcome := if clean then Published else CleanupRequired;
  }

  lemma AtRest(before: Files, n: Names)
    requires Ready(before, n)
    ensures Uncommitted(before, n, before) && InTransit(before, n, before)
  {
  }

  lemma ReadyIsDistinct(before: Files, n: Names)
    requires Ready(before, n)
    ensures n.Distinct()
  {
  }

  lemma CrossedIsPromised(past: seq<Files>, history: seq<Files>, before: Files, n: Names, commit: nat)
    requires Crossed(past, history, before, n, commit)
    ensures past <= history
    ensures forall i :: |past| <= i < |history| ==>
      InTransit(before, n, history[i]) && Promised(before, n, history[i])
  {
    hide Uncommitted, Committed, Promised;
    forall i | |past| <= i < |history| ensures Promised(before, n, history[i]) {
      TransitIsPromised(before, n, history[i]);
    }
  }

  lemma UndoneIsSafe(before: Files, n: Names, now: Files, restored: bool)
    requires Ready(before, n)
    requires if restored then AsBefore(before, n, now) else Uncommitted(before, n, now)
    ensures Uncommitted(before, n, now) && InTransit(before, n, now) && OldSurvives(before, n, now)
  {
  }

  lemma CommittedIsLive(before: Files, n: Names, now: Files)
    requires Committed(before, n, now)
    ensures InTransit(before, n, now) && NewIsLive(before, n, now)
  {
  }
}
