/**
 * Whole histories of one artifact prefix: any sequence of builds and doctor
 * runs, each with any operations failing and each possibly stopped after any
 * of its steps. Alongside the states runs the pair that is current in each.
 */
module ArtifactHistory {
  import opened Bytes
  import opened Outcomes
  import opened ArtifactPublisher
  import opened Doctor

  datatype BuildOutcome =
    | LockHeld
    | NoUniqueName
    | WriteFailed
    | InvalidPair
    | Finished(outcome: Outcome)

  /** What a build produces, and what a stopped write of it would have left. */
  datatype Product = Product(pair: Pair, partialIndex: Bytes, partialDocuments: Bytes)

  predicate Commits(outcome: BuildOutcome) {
    outcome.Finished? && outcome.outcome in {Published, CleanupRequired}
  }

  /** One of the new names is taken. */
  predicate InUse(files: Files, n: Names) {
    || n.indexBackup in files || n.documentsBackup in files
    || n.temporaryIndex in files || n.temporaryDocuments in files
  }

  /** The outcome of a build that holds its locks, from the failures and the names in use alone. */
  function Expected(faults: Faults, from: nat, files: Files, n: Names, product: Product, valid: Validity)
    : BuildOutcome
  {
    if InUse(files, n) then NoUniqueName
    else if faults(from) || faults(from + 1) then WriteFailed
    else if !valid(product.pair.index, product.pair.documents) then InvalidPair
    else Finished(Foreseen(faults, from + 2, n.index in files, n.documents in files))
  }

  /** Without the temporaries, nothing has changed except that a published pair is live. */
  predicate Tidy(outcome: BuildOutcome, n: Names, made: Pair, before: Files, now: Files) {
    now - {n.temporaryIndex, n.temporaryDocuments}
    == if outcome == Finished(Published) then before[n.index := made.index][n.documents := made.documents] else before
  }

  /** What a build's outcome says about the files before and after it. */
  ghost predicate Means(prefix: string, valid: Validity, outcome: BuildOutcome, made: Pair, before: Files, now: Files) {
    match outcome
    case LockHeld => now == before
    case NoUniqueName => now == before
    case WriteFailed => SameHolders(prefix, before, now)
    case InvalidPair => !valid(made.index, made.documents) && SameHolders(prefix, before, now)
    case Finished(published) =>
      && valid(made.index, made.documents)
      && match published
         case Published => IsLive(prefix, now, made)
         case CleanupRequired => IsLive(prefix, now, made)
         case Restored => SameLive(prefix, before, now)
         case CannotInspect => SameLive(prefix, before, now)
         case RollbackIncomplete => At(now, IndexOf(prefix)) == None
  }

  predicate SameLive(prefix: string, before: Files, now: Files) {
    && At(now, IndexOf(prefix)) == At(before, IndexOf(prefix))
    && At(now, DocumentsOf(prefix)) == At(before, DocumentsOf(prefix))
  }

  /** Tidying up files that are neither live nor backups changes no outcome's meaning. */
  lemma MeansStill(prefix: string, valid: Validity, outcome: BuildOutcome, made: Pair, before: Files, now: Files,
      later: Files)
    requires Means(prefix, valid, outcome, made, before, now) && SameHolders(prefix, now, later)
    requires outcome !in {LockHeld, NoUniqueName}
    ensures Means(prefix, valid, outcome, made, before, later)
  {
    hide SameHolders, IndexOf, DocumentsOf;
    LiveAre(prefix, now, later);
    if SameHolders(prefix, before, now) {
      SameHoldersTwice(prefix, before, now, later);
    }
  }

  // ---------- the current pair ----------

  /** The current pair changes only to a build's product, at the moment that product is live. */
  predicate Succeeds(prefix: string, now: Files, was: Pair, current: Pair, products: set<Pair>) {
    current == was || (current in products && IsLive(prefix, now, current))
  }

  ghost predicate AllKept(prefix: string, valid: Validity, history: seq<Files>, current: seq<Pair>) {
    |current| == |history| && forall i :: 0 <= i < |history| ==> Kept(prefix, valid, history[i], current[i])
  }

  predicate AllSucceed(prefix: string, history: seq<Files>, current: seq<Pair>, products: set<Pair>) {
    |current| == |history|
    && forall i :: 0 < i < |history| ==> Succeeds(prefix, history[i], current[i - 1], current[i], products)
  }

  /** Every state gone through keeps the pair current in it, and the current pair moves only by commits. */
  ghost predicate Faithful(prefix: string, valid: Validity, history: seq<Files>, current: seq<Pair>,
      products: set<Pair>)
  {
    && |history| > 0 && AllKept(prefix, valid, history, current)
    && AllSucceed(prefix, history, current, products)
  }

  function Last(current: seq<Pair>): Pair
    requires |current| > 0
  {
    current[|current| - 1]
  }

  /** The same pair, n more times. */
  function Steady(current: seq<Pair>, n: nat): (more: seq<Pair>)
    requires |current| > 0
    ensures |more| == |current| + n && current <= more && Last(more) == Last(current)
    ensures forall i :: |current| <= i < |more| ==> more[i] == Last(current)
  {
    current + seq(n, _ => Last(current))
  }

  lemma FaithfulMore(prefix: string, valid: Validity, history: seq<Files>, current: seq<Pair>, products: set<Pair>,
      now: Files, next: Pair)
    requires Faithful(prefix, valid, history, current, products) && Kept(prefix, valid, now, next)
    requires Succeeds(prefix, now, Last(current), next, products)
    ensures Faithful(prefix, valid, history + [now], current + [next], products)
  {
    hide Kept, Succeeds;
  }

  /** States that all keep the last current pair extend the history with that pair. */
  lemma FaithfulSteady(prefix: string, valid: Validity, seen: seq<Files>, history: seq<Files>, current: seq<Pair>,
      products: set<Pair>)
    requires Faithful(prefix, valid, seen, current, products) && seen <= history
    requires forall i :: |seen| <= i < |history| ==> Kept(prefix, valid, history[i], Last(current))
    ensures Faithful(prefix, valid, history, Steady(current, |history| - |seen|), products)
  {
    hide Kept, IsLive;
    var more := Steady(current, |history| - |seen|);
    hide Steady;
    forall i | 0 <= i < |history| ensures Kept(prefix, valid, history[i], more[i]) {
      assert i < |seen| ==> history[i] == seen[i] && more[i] == current[i];
    }
    forall i | 0 < i < |history| ensures Succeeds(prefix, history[i], more[i - 1], more[i], products) {
      assert i < |seen| ==> history[i] == seen[i] && more[i] == current[i] && more[i - 1] == current[i - 1];
    }
  }

  lemma FaithfulPrefix(prefix: string, valid: Validity, history: seq<Files>, current: seq<Pair>, products: set<Pair>,
      length: nat)
    requires Faithful(prefix, valid, history, current, products) && 0 < length <= |history|
    ensures Faithful(prefix, valid, history[..length], current[..length], products)
    ensures Kept(prefix, valid, history[length - 1], Last(current[..length]))
  {
    hide Kept, Succeeds;
  }

  // ---------- one build ----------

  /** Temporaries are outside everything the current pair rests on. */
  lemma TemporariesDoNotMatter(prefix: string, valid: Validity, files: Files, path: string, bytes: Bytes, pair: Pair)
    requires Kept(prefix, valid, files, pair)
    requires KindOf(prefix, path) == Some(Temporary)
    ensures Kept(prefix, valid, files[path := bytes], pair) && SameHolders(prefix, files, files[path := bytes])
    ensures Kept(prefix, valid, files - {path}, pair) && SameHolders(prefix, files, files - {path})
  {
    hide Kept, KindOf, HoldsIndex, HoldsDocuments;
    forall p | HoldsIndex(prefix, p) || HoldsDocuments(prefix, p) ensures p != path {
      NamesClassified(prefix, p);
    }
    OnlyHoldersMatter(prefix, valid, files, files[path := bytes], pair);
    OnlyHoldersMatter(prefix, valid, files, files - {path}, pair);
  }

  lemma SameHoldersTwice(prefix: string, a: Files, b: Files, c: Files)
    requires SameHolders(prefix, a, b) && SameHolders(prefix, b, c)
    ensures SameHolders(prefix, a, c)
  {
    hide HoldsIndex, HoldsDocuments;
    forall p | HoldsIndex(prefix, p) || HoldsDocuments(prefix, p) ensures At(c, p) == At(a, p) {
      assert At(b, p) == At(a, p);
    }
  }

  method WriteTemporary(disk: Disk, prefix: string, valid: Validity, path: string, partial: Bytes, bytes: Bytes,
      ghost current: seq<Pair>, ghost products: set<Pair>)
    returns (ok: bool, ghost after: seq<Pair>)
    requires KindOf(prefix, path) == Some(Temporary)
    requires Faithful(prefix, valid, disk.history, current, products)
    requires Kept(prefix, valid, disk.files, Last(current))
    modifies disk
    ensures old(disk.history) <= disk.history && after == Steady(current, |disk.history| - |old(disk.history)|)
    ensures Faithful(prefix, valid, disk.history, after, products) && Kept(prefix, valid, disk.files, Last(after))
    ensures SameHolders(prefix, old(disk.files), disk.files)
    ensures disk.operations == old(disk.operations) + 1 && ok == !disk.faults(old(disk.operations))
    ensures ok ==> disk.files == old(disk.files)[path := bytes]
    ensures disk.locks == old(disk.locks)
  {
    hide Kept, Faithful, KindOf, SameHolders, Steady;
    ghost var before, seen := disk.files, disk.history;
    FaithfulSize(prefix, valid, seen, current, products);
    ok := disk.Write(path, partial, bytes);
    TemporariesDoNotMatter(prefix, valid, before, path, partial, Last(current));
    TemporariesDoNotMatter(prefix, valid, before, path, bytes, Last(current));
    after := Steady(current, |disk.history| - |seen|);
    FaithfulSteady(prefix, valid, seen, disk.history, current, products);
  }

  lemma FaithfulSize(prefix: string, valid: Validity, history: seq<Files>, current: seq<Pair>, products: set<Pair>)
    requires Faithful(prefix, valid, history, current, products)
    ensures |history| == |current| > 0
  {
    hide Kept, Succeeds;
  }

  method RemoveTemporary(disk: Disk, prefix: string, valid: Validity, path: string, ghost current: seq<Pair>,
      ghost products: set<Pair>)
    returns (ghost after: seq<Pair>)
    requires KindOf(prefix, path) == Some(Temporary)
    requires Faithful(prefix, valid, disk.history, current, products)
    requires Kept(prefix, valid, disk.files, Last(current))
    modifies disk
    ensures old(disk.history) <= disk.history && after == Steady(current, |disk.history| - |old(disk.history)|)
    ensures Faithful(prefix, valid, disk.history, after, products) && Kept(prefix, valid, disk.files, Last(after))
    ensures SameHolders(prefix, old(disk.files), disk.files)
    ensures disk.operations == old(disk.operations) + 1
    ensures !disk.faults(old(disk.operations)) ==> disk.files == old(disk.files) - {path}
    ensures disk.locks == old(disk.locks)
  {
    hide Kept, Faithful, KindOf, SameHolders, Steady;
    ghost var before, seen := disk.files, disk.history;
    FaithfulSize(prefix, valid, seen, current, products);
    var _ := disk.Remove(path);
    TemporariesDoNotMatter(prefix, valid, before, path, [], Last(current));
    SameHoldersItself(prefix, before);
    after := Steady(current, |disk.history| - |seen|);
    FaithfulSteady(prefix, valid, seen, disk.history, current, products);
  }

  lemma SameHoldersItself(prefix: string, files: Files)
    ensures SameHolders(prefix, files, files)
  {
  }

  /** The pair current in each state of a publication: the old one up to the commit, then the new one. */
  lemma CrossedIsFaithful(prefix: string, t: Tokens, valid: Validity, before: Files, seen: seq<Files>,
      history: seq<Files>, current: seq<Pair>, products: set<Pair>, commit: nat)
    returns (after: seq<Pair>)
    requires var n := NamesOf(prefix, t);
             && Ready(before, n) && Crossed(seen, history, before, n, commit)
             && NewPair(before, n) in products
             && valid(NewPair(before, n).index, NewPair(before, n).documents)
    requires Faithful(prefix, valid, seen, current, products) && Kept(prefix, valid, before, Last(current))
    ensures current <= after && |after| == |history| > 0 && Faithful(prefix, valid, history, after, products)
    ensures commit == |history| ==> after == Steady(current, |history| - |seen|)
    ensures commit < |history| ==> Last(after) == NewPair(before, NamesOf(prefix, t))
    decreases |history|
  {
    hide Kept, Faithful, Succeeds, Ready, Crossed, Uncommitted, Committed, Steady;
    var n := NamesOf(prefix, t);
    CrossedBounds(seen, history, before, n, commit);
    FaithfulSize(prefix, valid, seen, current, products);
    if commit == |history| {
      forall i | |seen| <= i < |history| ensures Kept(prefix, valid, history[i], Last(current)) {
        CrossedAt(seen, history, before, n, commit, i);
        UncommittedKeeps(prefix, t, valid, before, history[i], Last(current));
      }
      after := Steady(current, |history| - |seen|);
      FaithfulSteady(prefix, valid, seen, history, current, products);
    } else {
      var last := |history| - 1;
      CrossedAt(seen, history, before, n, commit, last);
      CommittedKeeps(prefix, t, valid, before, history[last]);
      CrossedFront(seen, history, before, n, commit);
      var front := CrossedIsFaithful(prefix, t, valid, before, seen, history[..last], current, products, commit);
      ByCommit(prefix, history[last], Last(front), NewPair(before, n), products);
      FaithfulMore(prefix, valid, history[..last], front, products, history[last], NewPair(before, n));
      after := front + [NewPair(before, n)];
      assert history == history[..last] + [history[last]];
    }
  }

  lemma ByCommit(prefix: string, now: Files, was: Pair, made: Pair, products: set<Pair>)
    requires made in products && IsLive(prefix, now, made)
    ensures Succeeds(prefix, now, was, made, products)
  {
  }

  lemma CrossedBounds(seen: seq<Files>, history: seq<Files>, before: Files, n: Names, commit: nat)
    requires Crossed(seen, history, before, n, commit)
    ensures seen <= history && |seen| <= commit <= |history|
  {
    hide Uncommitted, Committed;
  }

  lemma CrossedAt(seen: seq<Files>, history: seq<Files>, before: Files, n: Names, commit: nat, i: nat)
    requires Crossed(seen, history, before, n, commit) && |seen| <= i < |history|
    ensures if i < commit then Uncommitted(before, n, history[i]) else Committed(before, n, history[i])
  {
    hide Uncommitted, Committed;
  }

  lemma CrossedFront(seen: seq<Files>, history: seq<Files>, before: Files, n: Names, commit: nat)
    requires Crossed(seen, history, before, n, commit) && commit < |history|
    ensures Crossed(seen, history[..|history| - 1], before, n, commit)
  {
    hide Uncommitted, Committed;
  }

  /** The documents and then the index, under temporary names. */
  method WritePair(disk: Disk, prefix: string, t: Tokens, valid: Validity, product: Product, ghost current: seq<Pair>,
      ghost products: set<Pair>)
    returns (written: bool, ghost after: seq<Pair>)
    requires Faithful(prefix, valid, disk.history, current, products)
    requires Kept(prefix, valid, disk.files, Last(current))
    modifies disk
    ensures old(disk.history) <= disk.history && after == Steady(current, |disk.history| - |old(disk.history)|)
    ensures Faithful(prefix, valid, disk.history, after, products) && Kept(prefix, valid, disk.files, Last(after))
    ensures SameHolders(prefix, old(disk.files), disk.files)
    ensures disk.operations >= old(disk.operations)
    ensures written == (!disk.faults(old(disk.operations)) && !disk.faults(old(disk.operations) + 1))
    ensures written ==> disk.operations == old(disk.operations) + 2
    ensures !written ==> !disk.Flawless(old(disk.operations))
    ensures written ==>
      var n := NamesOf(prefix, t);
      disk.files
      == old(disk.files)[n.temporaryDocuments := product.pair.documents][n.temporaryIndex := product.pair.index]
    ensures disk.locks == old(disk.locks)
  {
    hide Kept, Faithful, KindOf, SameHolders, Steady, NamesOf;
    var n := NamesOf(prefix, t);
    TemporaryNames(prefix, t);
    FaithfulSize(prefix, valid, disk.history, current, products);
    ghost var start, seen := disk.files, |disk.history|;
    written, after := WriteTemporary(disk, prefix, valid, n.temporaryDocuments, product.partialDocuments,
        product.pair.documents, current, products);
    if !written {
      return;
    }
    ghost var middle, between := disk.files, |disk.history|;
    written, after := WriteTemporary(disk, prefix, valid, n.temporaryIndex, product.partialIndex,
        product.pair.index, after, products);
    SameHoldersTwice(prefix, start, middle, disk.files);
    SteadyTwice(current, between - seen, |disk.history| - between);
  }

  lemma SteadyTwice(current: seq<Pair>, a: nat, b: nat)
    requires |current| > 0
    ensures Steady(Steady(current, a), b) == Steady(current, a + b)
  {
  }

  /** Publication of a valid pair, with the pair current in each of its states. */
  method PublishMade(disk: Disk, prefix: string, t: Tokens, valid: Validity, ghost made: Pair,
      ghost current: seq<Pair>, ghost products: set<Pair>)
    returns (outcome: Outcome, ghost after: seq<Pair>)
    requires Faithful(prefix, valid, disk.history, current, products) && Kept(prefix, valid, disk.files, Last(current))
    requires Ready(disk.files, NamesOf(prefix, t)) && NewPair(disk.files, NamesOf(prefix, t)) == made
    requires made in products && valid(made.index, made.documents)
    modifies disk
    ensures old(disk.history) <= disk.history && current <= after
    ensures Faithful(prefix, valid, disk.history, after, products)
    ensures |after| > 0 && Kept(prefix, valid, disk.files, Last(after))
    ensures Last(after) == if outcome in {Published, CleanupRequired} then made else Last(current)
    ensures Means(prefix, valid, Finished(outcome), made, old(disk.files), disk.files)
    ensures var n := NamesOf(prefix, t);
            outcome
            == Foreseen(disk.faults, old(disk.operations), n.index in old(disk.files), n.documents in old(disk.files))
    ensures disk.operations >= old(disk.operations)
    ensures outcome == Published <==> disk.Flawless(old(disk.operations))
    ensures outcome == Published ==>
      var n := NamesOf(prefix, t);
      Committed(old(disk.files), n, disk.files) && n.indexBackup !in disk.files && n.documentsBackup !in disk.files
    ensures disk.locks == old(disk.locks)
  {
    hide Kept, Faithful, Crossed, InTransit, Committed, Uncommitted, KindOf, OldSurvives, SameHolders, HoldsIndex,
      HoldsDocuments, Steady, Promised, Foreseen, Ready, IndexOf, DocumentsOf;
    var n := NamesOf(prefix, t);
    FaithfulSize(prefix, valid, disk.history, current, products);
    ghost var before, seen := disk.files, disk.history;
    ghost var commit;
    outcome, commit := Publish(disk, n);
    CrossedBounds(seen, disk.history, before, n, commit);
    after := CrossedIsFaithful(prefix, t, valid, before, seen, disk.history, current, products, commit);
    if outcome in {Published, CleanupRequired} {
      CommittedKeeps(prefix, t, valid, before, disk.files);
    } else {
      UncommittedKeeps(prefix, t, valid, before, disk.files, Last(current));
    }
  }

  /**
   * Writes, validates and publishes a new pair under names nobody uses. A build
   * that commits makes its product current and live; any other leaves the
   * current pair current, and unless publication began every live and backup
   * file as it was. The failures alone decide the outcome.
   */
  method WriteAndPublish(disk: Disk, prefix: string, t: Tokens, valid: Validity, product: Product,
      ghost current: seq<Pair>, ghost products: set<Pair>)
    returns (outcome: BuildOutcome, ghost after: seq<Pair>)
    requires Faithful(prefix, valid, disk.history, current, products)
    requires Kept(prefix, valid, disk.files, Last(current)) && product.pair in products
    modifies disk
    ensures old(disk.history) <= disk.history && current <= after
    ensures Faithful(prefix, valid, disk.history, after, products)
    ensures |after| > 0 && Kept(prefix, valid, disk.files, Last(after))
    ensures Last(after) == if Commits(outcome) then product.pair else Last(current)
    ensures outcome != LockHeld && Means(prefix, valid, outcome, product.pair, old(disk.files), disk.files)
    ensures outcome == NoUniqueName ==> disk.history == old(disk.history)
    ensures outcome
            == Expected(disk.faults, old(disk.operations), old(disk.files), NamesOf(prefix, t), product, valid)
    ensures disk.operations >= old(disk.operations)
    ensures disk.Flawless(old(disk.operations)) ==>
      && outcome in {NoUniqueName, InvalidPair, Finished(Published)}
      && (outcome == NoUniqueName ==> disk.files == old(disk.files))
      && (outcome != NoUniqueName ==>
            Tidy(outcome, NamesOf(prefix, t), product.pair, old(disk.files), disk.files))
    ensures outcome == NoUniqueName <==> InUse(old(disk.files), NamesOf(prefix, t))
    ensures disk.locks == old(disk.locks)
  {
    hide Kept, Faithful, Committed, KindOf, SameHolders, HoldsIndex, HoldsDocuments, Steady, Foreseen, Tidy;
    var n := NamesOf(prefix, t);
    NamesDistinct(prefix, t);
    FaithfulSize(prefix, valid, disk.history, current, products);
    after := current;
    SameHoldersItself(prefix, disk.files);
    if InUse(disk.files, n) {
      outcome := NoUniqueName;
      return;
    }
    ghost var start := disk.files;
    var written;
    written, after := WritePair(disk, prefix, t, valid, product, after, products);
    if !written {
      outcome := WriteFailed;
      return;
    }
    NothingElseWritten(n, product.pair, start, disk.files);
    if !valid(product.pair.index, product.pair.documents) {
      outcome := InvalidPair;
      return;
    }
    ghost var before := disk.files;
    assert Ready(before, n) && NewPair(before, n) == product.pair;
    var published;
    published, after := PublishMade(disk, prefix, t, valid, product.pair, after, products);
    outcome := Finished(published);
    LiveAre(prefix, start, before);
    if published == Published {
      PublishedTidily(n, product.pair, start, before, disk.files);
    }
  }

  lemma NothingElseWritten(n: Names, made: Pair, before: Files, now: Files)
    requires n.temporaryIndex !in before && n.temporaryDocuments !in before
    requires now == before[n.temporaryDocuments := made.documents][n.temporaryIndex := made.index]
    ensures Tidy(InvalidPair, n, made, before, now)
  {
  }

  lemma PublishedTidily(n: Names, made: Pair, start: Files, before: Files, now: Files)
    requires Ready(before, n) && Committed(before, n, now) && n.indexBackup !in now && n.documentsBackup !in now
    requires n.temporaryIndex !in start && n.temporaryDocuments !in start
    requires before == start[n.temporaryDocuments := made.documents][n.temporaryIndex := made.index]
    ensures Tidy(Finished(Published), n, made, start, now)
  {
    var after := start[n.index := made.index][n.documents := made.documents];
    assert At(now, n.index) == Some(made.index) && At(now, n.documents) == Some(made.documents);
    forall path | path in now && path !in n.Six() ensures path in after && after[path] == now[path] {
      assert path in before;
    }
    forall path | path in after && path !in n.Six() ensures path in now {
      assert path in before;
    }
    assert (now - {n.temporaryIndex, n.temporaryDocuments}).Keys == after.Keys;
  }

  lemma LiveAre(prefix: string, before: Files, now: Files)
    requires SameHolders(prefix, before, now)
    ensures SameLive(prefix, before, now)
  {
    LiveHold(prefix);
  }

  lemma TemporaryNames(prefix: string, t: Tokens)
    ensures KindOf(prefix, NamesOf(prefix, t).temporaryIndex) == Some(Temporary)
    ensures KindOf(prefix, NamesOf(prefix, t).temporaryDocuments) == Some(Temporary)
  {
    var n := NamesOf(prefix, t);
    NamesClassified(prefix, n.temporaryIndex);
    NamesClassified(prefix, n.temporaryDocuments);
    assert IndexOf(prefix) + ".tmp." <= n.temporaryIndex;
    assert DocumentsOf(prefix) + ".tmp." <= n.temporaryDocuments;
  }

  /** Both locks, or neither. */
  method TakeLocks(disk: Disk, prefix: string) returns (taken: bool)
    modifies disk`operations, disk`locks
    ensures taken == (old(disk.locks) * LocksOf(prefix) == {} && !disk.faults(old(disk.operations))
                      && !disk.faults(old(disk.operations) + 1))
    ensures taken ==> disk.operations == old(disk.operations) + 2 && disk.locks == old(disk.locks) + LocksOf(prefix)
    ensures !taken && disk.Flawless(old(disk.operations)) ==>
      disk.locks == old(disk.locks) && old(disk.locks) * LocksOf(prefix) != {}
  {
    hide LockOf, IndexOf, DocumentsOf;
    var documentsLock, indexLock := LockOf(DocumentsOf(prefix)), LockOf(IndexOf(prefix));
    LocksDiffer(prefix);
    assert documentsLock in disk.locks ==> documentsLock in disk.locks * LocksOf(prefix);
    assert indexLock in disk.locks ==> indexLock in disk.locks * LocksOf(prefix);
    taken := disk.CreateLock(documentsLock);
    if !taken {
      return;
    }
    taken := disk.CreateLock(indexLock);
    if !taken {
      var _ := disk.RemoveLock(documentsLock);
    }
  }

  lemma LocksReturned(prefix: string, locks: set<string>)
    requires locks * LocksOf(prefix) == {}
    ensures locks + LocksOf(prefix) - {LockOf(IndexOf(prefix))} - {LockOf(DocumentsOf(prefix))} == locks
  {
    hide LockOf, IndexOf, DocumentsOf;
    var indexLock, documentsLock := LockOf(IndexOf(prefix)), LockOf(DocumentsOf(prefix));
    assert indexLock in locks ==> indexLock in locks * LocksOf(prefix);
    assert documentsLock in locks ==> documentsLock in locks * LocksOf(prefix);
    assert locks + {indexLock, documentsLock} - {indexLock} - {documentsLock} == locks;
  }

  /**
   * A build: both locks first, then the pair, then the temporaries and locks
   * away again. Its outcome says whether its product is now the live and
   * current pair; if not, the pair that was current still is.
   */
  method Build(disk: Disk, prefix: string, t: Tokens, valid: Validity, product: Product, ghost current: seq<Pair>,
      ghost products: set<Pair>)
    returns (outcome: BuildOutcome, ghost after: seq<Pair>)
    requires Faithful(prefix, valid, disk.history, current, products)
    requires Kept(prefix, valid, disk.files, Last(current)) && product.pair in products
    modifies disk
    ensures old(disk.history) <= disk.history && current <= after
    ensures Faithful(prefix, valid, disk.history, after, products)
    ensures |after| > 0 && Kept(prefix, valid, disk.files, Last(after))
    ensures Last(after) == if Commits(outcome) then product.pair else Last(current)
    ensures Means(prefix, valid, outcome, product.pair, old(disk.files), disk.files)
    ensures outcome in {LockHeld, NoUniqueName} ==> disk.history == old(disk.history)
    ensures outcome
            == if old(disk.locks) * LocksOf(prefix) != {} || disk.faults(old(disk.operations))
                  || disk.faults(old(disk.operations) + 1) then LockHeld
               else
                 Expected(disk.faults, old(disk.operations) + 2, old(disk.files), NamesOf(prefix, t), product, valid)
    ensures disk.Flawless(old(disk.operations)) ==>
      && outcome in {LockHeld, NoUniqueName, InvalidPair, Finished(Published)}
      && disk.locks == old(disk.locks)
      && disk.files
         == if outcome == Finished(Published) then
              old(disk.files)[IndexOf(prefix) := product.pair.index][DocumentsOf(prefix) := product.pair.documents]
            else old(disk.files)
    ensures disk.Flawless(old(disk.operations)) && outcome == LockHeld ==> old(disk.locks) * LocksOf(prefix) != {}
    ensures outcome == NoUniqueName ==> InUse(old(disk.files), NamesOf(prefix, t))
  {
    hide Kept, Faithful, KindOf, HoldsIndex, HoldsDocuments, SameHolders, Steady, NamesOf, IsLive, IndexOf,
      DocumentsOf, LockOf, LocksOf, Means, Expected, Tidy;
    FaithfulSize(prefix, valid, disk.history, current, products);
    after := current;
    SameHoldersItself(prefix, disk.files);
    UnchangedMeans(prefix, valid, product.pair, disk.files);
    var taken := TakeLocks(disk, prefix);
    if !taken {
      outcome := LockHeld;
      return;
    }
    outcome, after := WriteAndPublish(disk, prefix, t, valid, product, current, products);
    if outcome != NoUniqueName {
      TemporaryNames(prefix, t);
      ghost var now := disk.files;
      if Tidy(outcome, NamesOf(prefix, t), product.pair, old(disk.files), now) {
        TidiedUp(prefix, t, outcome, product.pair, old(disk.files), now);
      }
      after := RemoveTemporary(disk, prefix, valid, NamesOf(prefix, t).temporaryIndex, after, products);
      MeansStill(prefix, valid, outcome, product.pair, old(disk.files), now, disk.files);
      now := disk.files;
      after := RemoveTemporary(disk, prefix, valid, NamesOf(prefix, t).temporaryDocuments, after, products);
      MeansStill(prefix, valid, outcome, product.pair, old(disk.files), now, disk.files);
    }
    var _ := disk.RemoveLock(LockOf(IndexOf(prefix)));
    var _ := disk.RemoveLock(LockOf(DocumentsOf(prefix)));
    LocksReturned(prefix, old(disk.locks));
  }

  lemma TidiedUp(prefix: string, t: Tokens, outcome: BuildOutcome, made: Pair, before: Files, now: Files)
    requires Tidy(outcome, NamesOf(prefix, t), made, before, now)
    ensures var n := NamesOf(prefix, t);
            now - {n.temporaryIndex} - {n.temporaryDocuments}
            == if outcome == Finished(Published) then
                 before[IndexOf(prefix) := made.index][DocumentsOf(prefix) := made.documents]
               else before
  {
    var n := NamesOf(prefix, t);
    assert now - {n.temporaryIndex} - {n.temporaryDocuments} == now - {n.temporaryIndex, n.temporaryDocuments};
  }

  lemma UnchangedMeans(prefix: string, valid: Validity, made: Pair, files: Files)
    ensures Means(prefix, valid, LockHeld, made, files, files)
  {
  }

  // ---------- whole histories ----------

  /** One thing that happens to the directory. `stop` ends it early, after that
      many of its steps, with whatever locks it then held. */
  datatype Event =
    | Building(tokens: Tokens, product: Product, stop: Option<nat>, locksLeft: set<string>)
    | Examining(liveness: string -> Liveness, repair: bool, forceUnlock: bool, stop: Option<nat>,
        locksLeft: set<string>)

  ghost function ProductsOf(events: seq<Event>): set<Pair> {
    set e | e in events && e.Building? :: e.product.pair
  }

  method ExamineFaithfully(disk: Disk, prefix: string, valid: Validity, e: Event, ghost current: seq<Pair>,
      ghost products: set<Pair>)
    returns (ghost after: seq<Pair>)
    requires e.Examining?
    requires Faithful(prefix, valid, disk.history, current, products)
    requires Kept(prefix, valid, disk.files, Last(current))
    modifies disk
    ensures old(disk.history) <= disk.history && after == Steady(current, |disk.history| - |old(disk.history)|)
    ensures Faithful(prefix, valid, disk.history, after, products) && Kept(prefix, valid, disk.files, Last(after))
  {
    hide Kept, Faithful, Trimmed, TrimmedThroughout, Consistent, Complete, KindOf, Steady;
    ghost var before, seen := disk.files, disk.history;
    FaithfulSize(prefix, valid, seen, current, products);
    var _ := Examine(disk, prefix, valid, e.liveness, e.repair, e.forceUnlock);
    TrimmedKeeps(prefix, valid, before, disk.files, Last(current));
    TrimmedFaithfully(prefix, valid, before, seen, disk.history, current, products);
    after := Steady(current, |disk.history| - |seen|);
  }

  lemma TrimmedFaithfully(prefix: string, valid: Validity, before: Files, seen: seq<Files>, history: seq<Files>,
      current: seq<Pair>, products: set<Pair>)
    requires Faithful(prefix, valid, seen, current, products) && |current| > 0
    requires Kept(prefix, valid, before, Last(current))
    requires TrimmedThroughout(prefix, LivePairValid(prefix, valid, before), before, seen, history)
    ensures seen <= history && Faithful(prefix, valid, history, Steady(current, |history| - |seen|), products)
  {
    hide Kept, Faithful, Trimmed, Steady;
    forall i | |seen| <= i < |history| ensures Kept(prefix, valid, history[i], Last(current)) {
      TrimmedKeeps(prefix, valid, before, history[i], Last(current));
    }
    FaithfulSteady(prefix, valid, seen, history, current, products);
  }

  /**
   * In every state of every history the pair that is current there is complete
   * at live or backup paths and no other pair can be opened; it starts as the
   * live pair and changes only to a valid product at the moment a build makes it live.
   */
  method Lifetime(disk: Disk, prefix: string, valid: Validity, events: seq<Event>) returns (ghost current: seq<Pair>)
    requires LivePairValid(prefix, valid, disk.files) && disk.history == [disk.files]
    modifies disk
    ensures |current| == |disk.history| > 0
    ensures current[0] == Pair(old(disk.files)[IndexOf(prefix)], old(disk.files)[DocumentsOf(prefix)])
    ensures forall i :: 0 <= i < |disk.history| ==> Kept(prefix, valid, disk.history[i], current[i])
    ensures forall i :: 0 < i < |disk.history| ==>
      Succeeds(prefix, disk.history[i], current[i - 1], current[i], ProductsOf(events))
    ensures Kept(prefix, valid, disk.files, Last(current))
    ensures AllSafe(prefix, valid, disk.history, 0)
  {
    ghost var first := Pair(disk.files[IndexOf(prefix)], disk.files[DocumentsOf(prefix)]);
    ghost var products := ProductsOf(events);
    current := [first];
    StartsFaithful(prefix, valid, disk.files, products);
    hide Kept, Faithful, KindOf, LivePairValid, Steady, Means, IsLive;
    for i := 0 to |events|
      invariant Faithful(prefix, valid, disk.history, current, products)
      invariant |current| > 0 && current[0] == first && Kept(prefix, valid, disk.files, Last(current))
    {
      var e := events[i];
      var start := |disk.history|;
      FaithfulSize(prefix, valid, disk.history, current, products);
      match e {
        case Building(tokens, product, _, _) =>
          assert product.pair in products;
          var outcome;
          outcome, current := Build(disk, prefix, tokens, valid, product, current, products);
        case Examining(_, _, _, _, _) =>
          current := ExamineFaithfully(disk, prefix, valid, e, current, products);
      }
      if e.stop.Some? {
        var length := start + e.stop.value % (|disk.history| - start + 1);
        FaithfulSize(prefix, valid, disk.history, current, products);
        FaithfulPrefix(prefix, valid, disk.history, current, products, length);
        current := current[..length];
        disk.Stop(length, e.locksLeft);
      }
    }
    FaithfulThroughout(prefix, valid, disk.history, current, products);
  }

  lemma StartsFaithful(prefix: string, valid: Validity, files: Files, products: set<Pair>)
    requires LivePairValid(prefix, valid, files)
    ensures var first := Pair(files[IndexOf(prefix)], files[DocumentsOf(prefix)]);
            Kept(prefix, valid, files, first) && Faithful(prefix, valid, [files], [first], products)
  {
    LiveIsKept(prefix, valid, files, Pair(files[IndexOf(prefix)], files[DocumentsOf(prefix)]));
  }

  lemma FaithfulThroughout(prefix: string, valid: Validity, history: seq<Files>, current: seq<Pair>,
      products: set<Pair>)
    requires Faithful(prefix, valid, history, current, products)
    ensures |current| == |history| > 0 && AllSafe(prefix, valid, history, 0)
    ensures forall i :: 0 <= i < |history| ==> Kept(prefix, valid, history[i], current[i])
    ensures forall i :: 0 < i < |history| ==>
      Succeeds(prefix, history[i], current[i - 1], current[i], products)
  {
    hide Kept, Succeeds, Safe;
    forall i | 0 <= i < |history| ensures Safe(prefix, valid, history[i]) {
      KeptIsSafe(prefix, valid, history[i], current[i]);
    }
  }
}
