/**
 * Resumable generation of a vector cache. Rows are appended to a partial file and every batch is
 * recorded in an atomically replaced checkpoint; the finished file is renamed into place, then its
 * sidecar is written and the checkpoint removed. A run may stop after any step, in the middle of an
 * append too, and the next run picks up what it finds.
 */
module CacheGeneration {
  import opened Bytes
  import opened CacheFormat
  import opened Outcomes
  import opened Sequences
  import Sha256
  import Words

  type Float = bits: nat | bits < 0x1_0000_0000
  type Vector = seq<Float>

  /** The input file: its bytes, and its non-empty lines. */
  datatype Source = Source(contents: Bytes, lines: seq<string>)

  datatype Labels = Labels(role: string, model: string, bindings: string, endpoint: string)

  /** Everything a checkpoint is bound to. */
  datatype Job = Job(source: Source, fingerprint: Bytes, labels: Labels, batchSize: nat, requested: Option<nat>)

  datatype Status = Running | ReadyToPublish(cacheDigest: Bytes)

  datatype Checkpoint = Checkpoint(inputs: Job, status: Status, dimension: nat, headerSize: nat, completed: nat,
                                   payloadDigest: Bytes)

  datatype Sidecar = Sidecar(role: string, model: string, bindings: string, cacheDigest: Bytes, sourceDigest: Bytes)

  /** The four files of one cache path. */
  datatype State = State(partial: Option<Bytes>, checkpoint: Option<Checkpoint>, cache: Option<Bytes>,
                         sidecar: Option<Sidecar>)

  datatype Error = NoLines | Unreadable(reason: ReadError) | SourceMismatch | FingerprintMismatch
                 | SidecarMismatch | NoProvenance | IncompleteProvenance | OtherPublication | PublishedChecksum
                 | MustExistTogether | DifferentInputs | ShorterThanCheckpoint | PayloadChecksum
                 | InvalidHeader | EmbeddingFailed | EndedEarly

  // ---------- what a job's cache is ----------

  function Rows(lines: seq<string>, e: string -> Vector): (rows: seq<Vector>)
    ensures |rows| == |lines|
  {
    seq(|lines|, i requires 0 <= i < |lines| => e(lines[i]))
  }

  function Flatten(rows: seq<Vector>): Bytes
    decreases |rows|
  {
    if |rows| == 0 then [] else Words.EncodeWords(rows[0], 4) + Flatten(rows[1..])
  }

  predicate Uniform(rows: seq<Vector>, dimension: nat) {
    forall i :: 0 <= i < |rows| ==> |rows[i]| == dimension
  }

  /** The requested dimension, or else that of the first row. */
  function Dimension(job: Job, e: string -> Vector): nat {
    match job.requested
    case Some(d) => d
    case None => if |job.source.lines| > 0 then |e(job.source.lines[0])| else 0
  }

  function Meta(job: Job, dimension: nat): Metadata {
    Metadata(dimension, |job.source.lines|, job.fingerprint, |job.source.contents|, Sha256.Hash(job.source.contents))
  }

  function Payload(job: Job, e: string -> Vector, count: nat): Bytes
    requires count <= |job.source.lines|
  {
    Flatten(Rows(job.source.lines[..count], e))
  }

  /** The header and the first `count` rows, in source order. */
  function Upto(job: Job, e: string -> Vector, count: nat): Bytes
    requires count <= |job.source.lines|
  {
    Header(Meta(job, Dimension(job, e))) + Payload(job, e, count)
  }

  /** The header can be written and the first `count` rows have the one dimension. */
  predicate Begun(job: Job, e: string -> Vector, count: nat) {
    && 0 < |job.source.lines| && count <= |job.source.lines|
    && Writable(Meta(job, Dimension(job, e)))
    && Uniform(Rows(job.source.lines[..count], e), Dimension(job, e))
  }

  /** The job has a cache at all, and this is it. */
  predicate Publishable(job: Job, e: string -> Vector) {
    Begun(job, e, |job.source.lines|)
  }

  function CacheOf(job: Job, e: string -> Vector): Bytes {
    Upto(job, e, |job.source.lines|)
  }

  function SidecarOf(job: Job, cacheDigest: Bytes): Sidecar {
    Sidecar(job.labels.role, job.labels.model, job.labels.bindings, cacheDigest, Sha256.Hash(job.source.contents))
  }

  lemma {:induction false} FlattenConcat(a: seq<Vector>, b: seq<Vector>)
    ensures Flatten(a + b) == Flatten(a) + Flatten(b)
    decreases |a|
  {
    hide Words.EncodeWords;
    if |a| == 0 {
      assert a + b == b;
    } else {
      FlattenConcat(a[1..], b);
      assert (a + b)[1..] == a[1..] + b;
      Associative(Words.EncodeWords(a[0], 4), Flatten(a[1..]), Flatten(b));
    }
  }

  lemma {:induction false} FlattenSize(rows: seq<Vector>, dimension: nat)
    requires Uniform(rows, dimension)
    ensures |Flatten(rows)| == |rows| * dimension * 4
    decreases |rows|
  {
    if |rows| > 0 {
      FlattenSize(rows[1..], dimension);
      OneMoreRow(|rows|, dimension);
    }
  }

  lemma OneMoreRow(n: nat, dimension: nat)
    requires n > 0
    ensures n * dimension * 4 == (n - 1) * dimension * 4 + 4 * dimension
  {
    assert n * dimension == (n - 1) * dimension + dimension;
  }

  /** A job has a cache exactly when its header can be written and its rows have one width, the requested one if any. */
  lemma PublishableExactly(job: Job, e: string -> Vector)
    ensures var lines := job.source.lines;
            Publishable(job, e) <==>
              && 0 < |lines| < 0x1_0000_0000_0000_0000 && |job.source.contents| < 0x1_0000_0000_0000_0000
              && 0 < |job.fingerprint| <= 16 * 1024 * 1024
              && 0 < |e(lines[0])| < 0x1_0000_0000
              && (job.requested.Some? ==> |e(lines[0])| == job.requested.value)
              && forall i :: 0 <= i < |lines| ==> |e(lines[i])| == |e(lines[0])|
  {
    hide Sha256.Hash;
    var lines := job.source.lines;
    Widths();
    assert lines[..|lines|] == lines;
    if Publishable(job, e) {
      forall i | 0 <= i < |lines| ensures |e(lines[i])| == Dimension(job, e) {
        assert Rows(lines, e)[i] == e(lines[i]);
      }
    }
  }

  lemma Widths()
    ensures Power256(4) == 0x1_0000_0000 && Power256(8) == 0x1_0000_0000_0000_0000
  {
  }

  // ---------- the bytes of a cache ----------

  /** The header says this source and this fingerprint, and the file is as long as it announces. */
  predicate HeaderFor(cache: Bytes, job: Job) {
    HeaderAt(cache, |job.source.lines|, job.fingerprint, |job.source.contents|, Sha256.Hash(job.source.contents))
  }

  /** The same, whatever the fingerprint. */
  ghost predicate SourceFor(cache: Bytes, job: Job) {
    exists fingerprint ::
      HeaderAt(cache, |job.source.lines|, fingerprint, |job.source.contents|, Sha256.Hash(job.source.contents))
  }

  /** Four bytes, lowest first, are the number. */
  predicate NumberAt(cache: Bytes, at: int, value: nat) {
    0 <= at <= at + 4 <= |cache| && FromLittleEndian(cache[at..at + 4]) == value
  }

  /** Row i of width d, behind a header of this size. */
  predicate RowAt(cache: Bytes, head: nat, d: nat, i: nat, row: Vector) {
    |row| == d && forall j :: 0 <= j < d ==> NumberAt(cache, head + 4 * (i * d + j), row[j])
  }

  /** After the header every line's row, in source order, every float in four bytes, lowest first. */
  predicate RowsFor(cache: Bytes, job: Job, e: string -> Vector) {
    && |cache| >= 12 && (job.requested.Some? ==> FromLittleEndian(cache[8..12]) == job.requested.value)
    && forall i :: 0 <= i < |job.source.lines| ==>
         RowAt(cache, 64 + |job.fingerprint|, FromLittleEndian(cache[8..12]), i, e(job.source.lines[i]))
  }

  /** The sidecar names the job's role, model and bindings and the digests of both files. */
  predicate Vouches(sidecar: Sidecar, cache: Bytes, job: Job) {
    && sidecar.role == job.labels.role && sidecar.model == job.labels.model
    && sidecar.bindings == job.labels.bindings
    && sidecar.cacheDigest == Sha256.Hash(cache) && sidecar.sourceDigest == Sha256.Hash(job.source.contents)
  }

  lemma {:induction false} FlattenAt(rows: seq<Vector>, d: nat, i: nat, j: nat, at: int)
    requires Uniform(rows, d) && i < |rows| && j < d && at == 4 * (i * d + j)
    ensures 0 <= at <= at + 4 <= |Flatten(rows)|
    ensures Flatten(rows)[at..at + 4] == LittleEndian(rows[i][j], 4)
    decreases |rows|
  {
    hide Words.EncodeWords, LittleEndian;
    var first, rest := Words.EncodeWords(rows[0], 4), Flatten(rows[1..]);
    if i == 0 {
      Words.EncodedAt(rows[0], 4, j, 4 * j);
      NoRowsBefore(d);
    } else {
      RowAfter(i, d);
      FlattenAt(rows[1..], d, i - 1, j, at - 4 * d);
      assert (first + rest)[at..at + 4] == rest[at - 4 * d..at - 4 * d + 4];
    }
  }

  lemma NoRowsBefore(d: nat)
    ensures 0 * d == 0
  {
  }

  lemma RowAfter(i: nat, d: nat)
    requires i > 0
    ensures i * d == d + (i - 1) * d && (i - 1) * d >= 0
  {
  }

  /** The whole cache is header fields and floats, each at its place. */
  lemma CacheBytes(job: Job, e: string -> Vector)
    requires Publishable(job, e)
    ensures HeaderFor(CacheOf(job, e), job) && RowsFor(CacheOf(job, e), job, e)
  {
    hide Sha256.Hash, Header, Flatten, Uniform, ReadCache, Dimension, HeaderAt, LittleEndian, Rows, FromLittleEndian,
      CheckSource, RowsFor, CacheOf;
    var cache, d := CacheOf(job, e), Dimension(job, e);
    CacheReads(job, e);
    ReadIsHeaderAt(cache, |job.source.lines|, job.fingerprint, |job.source.contents|, Sha256.Hash(job.source.contents));
    CacheRows(job, e);
  }

  lemma CacheRows(job: Job, e: string -> Vector)
    requires Publishable(job, e)
    ensures RowsFor(CacheOf(job, e), job, e)
  {
    hide Sha256.Hash, Header, Flatten, Uniform, ReadCache, Dimension, HeaderAt, LittleEndian, Rows, FromLittleEndian,
      Writable, RowAt, CacheOf;
    var lines, d, cache, head := job.source.lines, Dimension(job, e), CacheOf(job, e), 64 + |job.fingerprint|;
    CacheParts(job, e);
    if job.requested.Some? {
      RequestedIsWritable(job, e);
    }
    forall i | 0 <= i < |lines| ensures RowAt(cache, head, d, i, e(lines[i])) {
      RowIs(lines, e, d, i);
      RowPlaced(cache, head, Rows(lines, e), d, i);
    }
  }

  lemma RowPlaced(cache: Bytes, head: nat, rows: seq<Vector>, d: nat, i: nat)
    requires head <= |cache| && cache[head..] == Flatten(rows) && Uniform(rows, d) && i < |rows|
    ensures RowAt(cache, head, d, i, rows[i])
  {
    hide Flatten, NumberAt;
    forall j | 0 <= j < d ensures NumberAt(cache, head + 4 * (i * d + j), rows[i][j]) {
      FloatAt(cache, head, rows, d, i, j, 4 * (i * d + j));
    }
  }

  lemma CacheParts(job: Job, e: string -> Vector)
    requires Publishable(job, e)
    ensures var cache, d := CacheOf(job, e), Dimension(job, e);
            && |cache| >= 64 + |job.fingerprint| && FromLittleEndian(cache[8..12]) == d
            && cache[64 + |job.fingerprint|..] == Flatten(Rows(job.source.lines, e))
            && Uniform(Rows(job.source.lines, e), d)
  {
    hide Sha256.Hash, Header, Flatten, Uniform, ReadCache, Dimension, HeaderAt, LittleEndian, Rows, FromLittleEndian;
    var lines := job.source.lines;
    assert lines[..|lines|] == lines;
    HeaderParts(Meta(job, Dimension(job, e)), Flatten(Rows(lines, e)));
    WidthReadsBack(Dimension(job, e));
  }

  lemma FloatAt(cache: Bytes, head: nat, rows: seq<Vector>, d: nat, i: nat, j: nat, at: int)
    requires head <= |cache| && cache[head..] == Flatten(rows) && Uniform(rows, d) && i < |rows| && j < d
    requires at == 4 * (i * d + j)
    ensures NumberAt(cache, head + at, rows[i][j])
  {
    hide Flatten, FromLittleEndian, LittleEndian, Uniform;
    EntryOf(rows, d, i, j);
    FlattenAt(rows, d, i, j, at);
    FloatReadsBack(rows[i][j]);
    Within(cache, head, at);
  }

  lemma EntryOf(rows: seq<Vector>, d: nat, i: nat, j: nat)
    requires Uniform(rows, d) && i < |rows| && j < d
    ensures j < |rows[i]|
  {
  }

  lemma Within(file: Bytes, head: nat, at: nat)
    requires head + at + 4 <= |file|
    ensures file[head..][at..at + 4] == file[head + at..head + at + 4]
  {
  }

  lemma WidthReadsBack(d: nat)
    requires d < Power256(4)
    ensures FromLittleEndian(LittleEndian(d, 4)) == d
  {
    LittleEndianRoundTrip(d, 4);
  }

  lemma FloatReadsBack(f: Float)
    ensures FromLittleEndian(LittleEndian(f, 4)) == f
  {
    assert Power256(4) == 0x1_0000_0000;
    LittleEndianRoundTrip(f, 4);
  }

  lemma RowIs(lines: seq<string>, e: string -> Vector, d: nat, i: nat)
    requires Uniform(Rows(lines, e), d) && i < |lines|
    ensures Rows(lines, e)[i] == e(lines[i]) && |e(lines[i])| == d
  {
  }

  // ---------- the invariant of the files ----------

  /** The checkpoint is this job's and describes a true prefix of its rows. */
  predicate Tracks(cp: Checkpoint, job: Job, e: string -> Vector) {
    && cp.inputs == job && Begun(job, e, cp.completed)
    && cp.dimension == Dimension(job, e)
    && cp.headerSize == |Header(Meta(job, cp.dimension))|
    && cp.payloadDigest == Sha256.Hash(Payload(job, e, cp.completed))
  }

  /**
   * What any run of the job, stopped anywhere, leaves behind. Before publication a checkpoint is
   * never ahead of the partial file, whatever bytes follow the checkpointed rows; once the cache
   * is in place it is the whole cache, and its sidecar or the publishing checkpoint vouches for it.
   */
  predicate Sound(s: State, job: Job, e: string -> Vector) {
    match s.cache
    case None =>
      && s.sidecar.None?
      && (s.checkpoint.Some? ==>
            && s.partial.Some? && Tracks(s.checkpoint.value, job, e)
            && Upto(job, e, s.checkpoint.value.completed) <= s.partial.value)
    case Some(cache) =>
      && s.partial.None? && Publishable(job, e) && cache == CacheOf(job, e)
      && (s.sidecar.Some? ==> s.sidecar.value == SidecarOf(job, Sha256.Hash(cache)))
      && (s.sidecar.None? ==>
            && s.checkpoint.Some? && s.checkpoint.value.inputs == job
            && s.checkpoint.value.status == ReadyToPublish(Sha256.Hash(cache)))
  }

  predicate Fresh(s: State) {
    s == State(None, None, None, None)
  }

  /** A partial file nothing vouches for: every later run refuses it. */
  predicate Stuck(s: State) {
    s.cache.None? && s.checkpoint.None? && s.partial.Some?
  }

  /** The run's recorded states only grow, and every new one is sound. */
  predicate Grows(before: seq<State>, after: seq<State>, job: Job, e: string -> Vector) {
    before <= after && forall i :: |before| <= i < |after| ==> Sound(after[i], job, e)
  }

  lemma GrowsTwice(a: seq<State>, b: seq<State>, c: seq<State>, job: Job, e: string -> Vector)
    requires Grows(a, b, job, e) && Grows(b, c, job, e)
    ensures Grows(a, c, job, e)
  {
    hide Sound;
  }

  // ---------- the disk and the client ----------

  /** Every state the files go through is recorded; an append passes through a torn one. */
  class Disk {
    const torn: nat -> Bytes
    var state: State
    var history: seq<State>

    constructor (torn: nat -> Bytes)
      ensures this.torn == torn && Fresh(state) && history == [state] && Recorded()
    {
      this.torn := torn;
      this.state := State(None, None, None, None);
      this.history := [State(None, None, None, None)];
    }

    /** The current state is the last one recorded. */
    predicate Recorded()
      reads this
    {
      |history| > 0 && history[|history| - 1] == state
    }

    function Torn(): Bytes
      reads this
    {
      torn(|history|)
    }

    /** Exclusive creation: the file must not exist. */
    method CreatePartial(bytes: Bytes)
      requires state.partial.None?
      modifies this
      ensures state == old(state).(partial := Some(bytes))
      ensures history == old(history) + [old(state).(partial := Some(old(Torn())))] + [state]
    {
      history := history + [state.(partial := Some(Torn()))];
      state := state.(partial := Some(bytes));
      history := history + [state];
    }

    method AppendPartial(bytes: Bytes)
      requires state.partial.Some?
      modifies this
      ensures state == old(state).(partial := Some(old(state).partial.value + bytes))
      ensures history == old(history)
                         + [old(state).(partial := Some(old(state).partial.value + old(Torn())))] + [state]
    {
      history := history + [state.(partial := Some(state.partial.value + Torn()))];
      state := state.(partial := Some(state.partial.value + bytes));
      history := history + [state];
    }

    method TruncatePartial(size: nat)
      requires state.partial.Some? && size <= |state.partial.value|
      modifies this
      ensures state == old(state).(partial := Some(old(state).partial.value[..size]))
      ensures history == old(history) + [state]
    {
      state := state.(partial := Some(state.partial.value[..size]));
      history := history + [state];
    }

    method WriteCheckpoint(cp: Checkpoint)
      modifies this
      ensures state == old(state).(checkpoint := Some(cp)) && history == old(history) + [state]
    {
      state := state.(checkpoint := Some(cp));
      history := history + [state];
    }

    method RemoveCheckpoint()
      modifies this
      ensures state == old(state).(checkpoint := None) && history == old(history) + [state]
    {
      state := state.(checkpoint := None);
      history := history + [state];
    }

    method WriteSidecar(sidecar: Sidecar)
      modifies this
      ensures state == old(state).(sidecar := Some(sidecar)) && history == old(history) + [state]
    {
      state := state.(sidecar := Some(sidecar));
      history := history + [state];
    }

    /** The finished partial file takes the cache's name. */
    method ReplaceCache()
      requires state.partial.Some?
      modifies this
      ensures state == old(state).(partial := None, cache := old(state).partial)
      ensures history == old(history) + [state]
    {
      state := state.(partial := None, cache := state.partial);
      history := history + [state];
    }

    /** The machine stops, and the next run finds some state the last one went through. */
    method Crash(found: State)
      modifies this
      ensures state == found && history == old(history) + [state]
    {
      state := found;
      history := history + [state];
    }
  }

  /** An endpoint that embeds each line by itself, always the same way, when it answers at all. */
  class EmbeddingClient {
    const embedding: string -> Vector
    const outages: nat -> bool
    var calls: nat

    constructor (embedding: string -> Vector, outages: nat -> bool)
      ensures this.embedding == embedding && this.outages == outages && calls == 0
    {
      this.embedding := embedding;
      this.outages := outages;
      this.calls := 0;
    }

    /** Answers for every text, or not at all: the rows must be non-empty and of one dimension. */
    method Embed(texts: seq<string>, expected: Option<nat>) returns (matrix: Option<seq<Vector>>)
      modifies this
      ensures calls == old(calls) + 1
      ensures matrix.Some? <==> !outages(old(calls)) && Acceptable(Rows(texts, embedding), expected)
      ensures matrix.Some? ==> matrix.value == Rows(texts, embedding)
    {
      calls := calls + 1;
      var rows := Rows(texts, embedding);
      matrix := if !outages(calls - 1) && Acceptable(rows, expected) then Some(rows) else None;
    }
  }

  predicate Acceptable(rows: seq<Vector>, expected: Option<nat>) {
    && |rows| > 0 && |rows[0]| > 0 && Uniform(rows, |rows[0]|)
    && (expected.Some? ==> |rows[0]| == expected.value)
  }

  // ---------- reading back a published cache ----------

  /** The source a cache claims to be made from is this one, byte for byte as far as its digest tells. */
  function CheckSource(cache: Bytes, job: Job): Option<Error> {
    match ReadCache(cache)
    case Err(reason) => Some(Unreadable(reason))
    case Ok(m) =>
      if m.count == |job.source.lines| && m.sourceSize == |job.source.contents|
         && m.sourceDigest == Sha256.Hash(job.source.contents)
      then None else Some(SourceMismatch)
  }

  predicate CheckSidecar(declared: Sidecar, cache: Bytes, job: Job) {
    declared == SidecarOf(job, Sha256.Hash(cache))
  }

  /** What an existing cache is answered with. */
  function Verdict(s: State, job: Job): Result<Sidecar, Error>
    requires s.cache.Some?
  {
    var cache := s.cache.value;
    match CheckSource(cache, job)
    case Some(error) => Err(error)
    case None =>
      if ReadCache(cache).value.fingerprint != job.fingerprint then Err(FingerprintMismatch)
      else if s.sidecar.Some? then
        if CheckSidecar(s.sidecar.value, cache, job) then Ok(s.sidecar.value) else Err(SidecarMismatch)
      else if s.checkpoint.None? then Err(NoProvenance)
      else if s.checkpoint.value.status.Running? then Err(IncompleteProvenance)
      else if s.checkpoint.value.inputs != job then Err(OtherPublication)
      else if s.checkpoint.value.status.cacheDigest != Sha256.Hash(cache) then Err(PublishedChecksum)
      else Ok(SidecarOf(job, Sha256.Hash(cache)))
  }

  /** What vouches for a cache in place: its sidecar, or the checkpoint of this job's publication. */
  predicate Provenance(s: State, job: Job)
    requires s.cache.Some?
  {
    match s.sidecar
    case Some(sidecar) => Vouches(sidecar, s.cache.value, job)
    case None =>
      && s.checkpoint.Some? && s.checkpoint.value.inputs == job
      && s.checkpoint.value.status == ReadyToPublish(Sha256.Hash(s.cache.value))
  }

  lemma SourceChecked(cache: Bytes, job: Job)
    ensures CheckSource(cache, job) == None <==> SourceFor(cache, job)
    ensures HeaderFor(cache, job) <==>
              CheckSource(cache, job) == None && ReadCache(cache).value.fingerprint == job.fingerprint
  {
    hide ReadCache, HeaderAt, Sha256.Hash;
    var n, size, digest := |job.source.lines|, |job.source.contents|, Sha256.Hash(job.source.contents);
    ReadIsHeaderAt(cache, n, job.fingerprint, size, digest);
    if CheckSource(cache, job) == None {
      ReadIsHeaderAt(cache, n, ReadCache(cache).value.fingerprint, size, digest);
      assert HeaderAt(cache, n, ReadCache(cache).value.fingerprint, size, digest);
    }
    if SourceFor(cache, job) {
      var fingerprint :| HeaderAt(cache, n, fingerprint, size, digest);
      ReadIsHeaderAt(cache, n, fingerprint, size, digest);
    }
  }

  /** An existing cache is accepted exactly with this source and fingerprint in its header and with provenance. */
  lemma AcceptedExactly(s: State, job: Job)
    requires s.cache.Some?
    ensures Verdict(s, job).Ok? <==> HeaderFor(s.cache.value, job) && Provenance(s, job)
    ensures Verdict(s, job).Ok? ==>
              && SourceFor(s.cache.value, job) && Vouches(Verdict(s, job).value, s.cache.value, job)
              && (s.sidecar.Some? ==> s.sidecar.value == Verdict(s, job).value)
  {
    hide ReadCache, HeaderFor, Sha256.Hash, CheckSource, SourceFor;
    SourceChecked(s.cache.value, job);
  }

  method ValidateExisting(disk: Disk, job: Job) returns (r: Result<Sidecar, Error>)
    requires disk.state.cache.Some?
    modifies disk
    ensures old(disk.Recorded()) ==> disk.Recorded()
    ensures r == Verdict(old(disk.state), job)
    ensures r.Ok? <==> HeaderFor(old(disk.state).cache.value, job) && Provenance(old(disk.state), job)
    ensures r.Ok? ==>
              && SourceFor(old(disk.state).cache.value, job) && disk.state.sidecar == Some(r.value)
              && Vouches(r.value, old(disk.state).cache.value, job)
    ensures r.Err? || old(disk.state).sidecar.Some? ==>
              disk.state == old(disk.state) && disk.history == old(disk.history)
    ensures r.Ok? && old(disk.state).sidecar.None? ==>
              && disk.state == old(disk.state).(sidecar := Some(r.value), checkpoint := None)
              && disk.history == old(disk.history) + [old(disk.state).(sidecar := Some(r.value))] + [disk.state]
  {
    hide Sha256.Hash, CheckSource, CheckSidecar, HeaderFor, SourceFor, Provenance, Verdict, Vouches;
    AcceptedExactly(disk.state, job);
    r := Verdict(disk.state, job);
    if r.Ok? && disk.state.sidecar.None? {
      disk.WriteSidecar(r.value);
      disk.RemoveCheckpoint();
    }
  }

  lemma CacheReads(job: Job, e: string -> Vector)
    requires Publishable(job, e)
    ensures ReadCache(CacheOf(job, e)) == Ok(Meta(job, Dimension(job, e)))
    ensures CheckSource(CacheOf(job, e), job) == None
  {
    hide ReadCache, Header, Sha256.Hash, Flatten;
    var n := |job.source.lines|;
    assert job.source.lines[..n] == job.source.lines;
    FlattenSize(Rows(job.source.lines, e), Dimension(job, e));
    WrittenReadsBack(Meta(job, Dimension(job, e)), Payload(job, e, n));
  }

  /** A cache this job published is always accepted again, and gets its sidecar if it has none. */
  lemma PublishedIsAccepted(s: State, job: Job, e: string -> Vector)
    requires Sound(s, job, e) && s.cache.Some?
    ensures Verdict(s, job) == Ok(SidecarOf(job, Sha256.Hash(CacheOf(job, e))))
    ensures Sound(s.(sidecar := Some(SidecarOf(job, Sha256.Hash(CacheOf(job, e))))), job, e)
    ensures Sound(s.(sidecar := Some(SidecarOf(job, Sha256.Hash(CacheOf(job, e)))), checkpoint := None), job, e)
  {
    hide ReadCache, Header, Sha256.Hash, Flatten, CheckSource, CacheOf, Publishable, Tracks, Upto, Begun;
    PublishedIsWhole(s, job, e);
    CacheReads(job, e);
  }

  // ---------- picking up a partial file ----------

  datatype Resumption = Anew | Continue(dimension: nat, headerSize: nat, completed: nat, payload: Bytes)

  function CheckpointedSize(cp: Checkpoint): nat {
    cp.headerSize + cp.completed * cp.dimension * 4
  }

  function Resume(s: State, job: Job): Result<Resumption, Error> {
    if s.checkpoint.None? && s.partial.None? then Ok(Anew)
    else if s.checkpoint.None? || s.partial.None? then Err(MustExistTogether)
    else
      var cp, partial := s.checkpoint.value, s.partial.value;
      var size := CheckpointedSize(cp);
      if cp.inputs != job then Err(DifferentInputs)
      else if |partial| < size then Err(ShorterThanCheckpoint)
      else if Sha256.Hash(partial[cp.headerSize..size]) != cp.payloadDigest then Err(PayloadChecksum)
      else Ok(Continue(cp.dimension, cp.headerSize, cp.completed, partial[cp.headerSize..size]))
  }

  /** Why a run does not resume, from what the checkpoint records. */
  predicate Refuses(s: State, job: Job, error: Error) {
    match error
    case MustExistTogether => s.checkpoint.Some? != s.partial.Some?
    case DifferentInputs => s.checkpoint.Some? && s.partial.Some? && s.checkpoint.value.inputs != job
    case ShorterThanCheckpoint =>
      s.checkpoint.Some? && s.partial.Some? && s.checkpoint.value.inputs == job && !Covers(s)
    case PayloadChecksum =>
      s.checkpoint.Some? && s.partial.Some? && s.checkpoint.value.inputs == job && Covers(s) && !Intact(s)
    case _ => false
  }

  /** The partial file is as long as the checkpoint says at least. */
  predicate Covers(s: State)
    requires s.checkpoint.Some? && s.partial.Some?
  {
    var cp := s.checkpoint.value;
    |s.partial.value| >= cp.headerSize + cp.completed * cp.dimension * 4
  }

  /** And its rows so far have the recorded digest. */
  predicate Intact(s: State)
    requires s.checkpoint.Some? && s.partial.Some? && Covers(s)
  {
    var cp := s.checkpoint.value;
    Sha256.Hash(s.partial.value[cp.headerSize..cp.headerSize + cp.completed * cp.dimension * 4]) == cp.payloadDigest
  }

  lemma ResumesExactly(s: State, job: Job)
    ensures Resume(s, job).Err? ==> Refuses(s, job, Resume(s, job).error)
    ensures Resume(s, job).Ok? && Resume(s, job).value.Anew? ==> s.checkpoint.None? && s.partial.None?
    ensures Resume(s, job).Ok? && Resume(s, job).value.Continue? ==>
              && s.checkpoint.Some? && s.partial.Some? && s.checkpoint.value.inputs == job && Covers(s) && Intact(s)
              && var cp, r := s.checkpoint.value, Resume(s, job).value;
                 && r.dimension == cp.dimension && r.headerSize == cp.headerSize && r.completed == cp.completed
                 && r.payload == s.partial.value[cp.headerSize..cp.headerSize + cp.completed * cp.dimension * 4]
  {
    hide Sha256.Hash;
  }

  lemma UptoSize(job: Job, e: string -> Vector, count: nat)
    requires Begun(job, e, count)
    ensures |Upto(job, e, count)| == |Header(Meta(job, Dimension(job, e)))| + count * Dimension(job, e) * 4
  {
    hide Header, Flatten, Meta;
    FlattenSize(Rows(job.source.lines[..count], e), Dimension(job, e));
  }

  /** A sound checkpoint is always resumed, and the surplus cut off leaves exactly its rows. */
  lemma SoundResumes(s: State, job: Job, e: string -> Vector)
    requires Sound(s, job, e) && s.cache.None? && s.checkpoint.Some?
    ensures var cp := s.checkpoint.value;
            && CheckpointedSize(cp) <= |s.partial.value|
            && s.partial.value[..CheckpointedSize(cp)] == Upto(job, e, cp.completed)
            && Resume(s, job) == Ok(Continue(Dimension(job, e), cp.headerSize, cp.completed,
                                             Payload(job, e, cp.completed)))
  {
    hide Header, Flatten, Meta, Sha256.Hash, Rows, Dimension, Writable, Uniform, Publishable;
    var cp, partial := s.checkpoint.value, s.partial.value;
    UptoSize(job, e, cp.completed);
    var prefix := Upto(job, e, cp.completed);
    assert partial[..|prefix|] == prefix;
    assert partial[cp.headerSize..|prefix|] == prefix[cp.headerSize..];
    assert prefix[cp.headerSize..] == Payload(job, e, cp.completed);
  }

  // ---------- the run ----------

  /**
   * What the loop has done so far: nothing at all while the dimension is unknown, and otherwise a
   * partial file holding exactly the completed rows with a checkpoint that says so.
   */
  predicate InProgress(s: State, job: Job, e: string -> Vector, dimension: Option<nat>, headerSize: nat,
                       completed: nat, payload: Bytes) {
    match dimension
    case None => Fresh(s) && completed == 0 && payload == [] && job.requested.None? && |job.source.lines| > 0
    case Some(d) =>
      && s.cache.None? && s.sidecar.None? && s.checkpoint.Some? && Tracks(s.checkpoint.value, job, e)
      && s.checkpoint.value.completed == completed
      && d == Dimension(job, e) && headerSize == |Header(Meta(job, d))|
      && s.partial == Some(Upto(job, e, completed)) && payload == Payload(job, e, completed)
  }

  function CheckpointAt(job: Job, status: Status, dimension: nat, headerSize: nat, completed: nat, payload: Bytes):
    Checkpoint
  {
    Checkpoint(job, status, dimension, headerSize, completed, Sha256.Hash(payload))
  }

  lemma BeginStep(s: State, job: Job, e: string -> Vector, d: nat)
    requires Fresh(s) && |job.source.lines| > 0 && d == Dimension(job, e) && Writable(Meta(job, d))
    ensures var header := Header(Meta(job, d));
            var begun := s.(partial := Some(header),
                            checkpoint := Some(CheckpointAt(job, Running, d, |header|, 0, [])));
            Sound(begun, job, e) && InProgress(begun, job, e, Some(d), |header|, 0, [])
  {
    hide Header, Sha256.Hash, Writable, Meta;
    assert Payload(job, e, 0) == [];
    assert Upto(job, e, 0) == Header(Meta(job, d));
  }

  /** The header goes out and a checkpoint of no rows; before that, whatever was torn is unvouched for. */
  method Begin(disk: Disk, job: Job, d: nat, ghost e: string -> Vector) returns (begun: bool)
    requires disk.state.partial.None? && disk.state.cache.None? && |job.source.lines| > 0
    modifies disk
    ensures old(disk.Recorded()) ==> disk.Recorded()
    ensures begun <==> Writable(Meta(job, d))
    ensures !begun ==> disk.state == old(disk.state) && disk.history == old(disk.history)
    ensures begun ==> |disk.history| > |old(disk.history)| && old(disk.history) <= disk.history
    ensures begun ==> disk.state.partial.Some? && disk.state.cache.None?
    ensures begun && Fresh(old(disk.state)) ==> Stuck(disk.history[|old(disk.history)|])
    ensures begun && Fresh(old(disk.state)) && d == Dimension(job, e) ==>
              && Grows(old(disk.history), disk.history, job, e)
              && InProgress(disk.state, job, e, Some(d), |Header(Meta(job, d))|, 0, [])
  {
    hide Header, Sha256.Hash, Writable, Meta, Tracks, Upto, Payload, Publishable, CacheOf, SidecarOf;
    if !Writable(Meta(job, d)) {
      return false;
    }
    if Fresh(disk.state) && d == Dimension(job, e) {
      BeginStep(disk.state, job, e, d);
    }
    var header := Header(Meta(job, d));
    disk.CreatePartial(header);
    disk.WriteCheckpoint(CheckpointAt(job, Running, d, |header|, 0, []));
    begun := true;
  }

  function NextBatch(lines: seq<string>, start: nat, size: nat): (texts: seq<string>)
    requires start < |lines|
    ensures 0 < |texts| <= |lines| - start && texts == lines[start..start + |texts|]
  {
    if size == 0 || start + size > |lines| then lines[start..] else lines[start..start + size]
  }

  /** The rows of `count` lines from line `from` on. */
  function Between(job: Job, e: string -> Vector, from: nat, count: nat): (rows: seq<Vector>)
    requires from + count <= |job.source.lines|
    ensures |rows| == count
  {
    Rows(job.source.lines[from..from + count], e)
  }

  lemma RowsJoin(job: Job, e: string -> Vector, completed: nat, count: nat)
    requires completed + count <= |job.source.lines|
    ensures Rows(job.source.lines[..completed + count], e)
            == Rows(job.source.lines[..completed], e) + Between(job, e, completed, count)
  {
  }

  lemma PayloadJoin(job: Job, e: string -> Vector, completed: nat, count: nat)
    requires completed + count <= |job.source.lines|
    ensures Payload(job, e, completed + count)
            == Payload(job, e, completed) + Flatten(Between(job, e, completed, count))
  {
    hide Flatten, Between, Rows;
    RowsJoin(job, e, completed, count);
    FlattenConcat(Rows(job.source.lines[..completed], e), Between(job, e, completed, count));
  }

  predicate IsBatch(job: Job, e: string -> Vector, completed: nat, matrix: seq<Vector>) {
    completed + |matrix| <= |job.source.lines| && matrix == Between(job, e, completed, |matrix|)
  }

  lemma BegunExtends(job: Job, e: string -> Vector, completed: nat, matrix: seq<Vector>)
    requires Begun(job, e, completed) && IsBatch(job, e, completed, matrix)
    requires Uniform(matrix, Dimension(job, e))
    ensures Begun(job, e, completed + |matrix|)
  {
    hide Rows, Between, Uniform, Dimension, Writable, Meta, Flatten, Payload, Sha256.Hash;
    RowsJoin(job, e, completed, |matrix|);
    UniformConcat(Rows(job.source.lines[..completed], e), matrix, Dimension(job, e));
  }

  lemma PayloadExtends(job: Job, e: string -> Vector, completed: nat, matrix: seq<Vector>)
    requires IsBatch(job, e, completed, matrix)
    ensures completed + |matrix| <= |job.source.lines|
    ensures Payload(job, e, completed + |matrix|) == Payload(job, e, completed) + Flatten(matrix)
  {
    hide Rows, Between, Flatten, Payload;
    PayloadJoin(job, e, completed, |matrix|);
  }

  lemma UptoExtends(job: Job, e: string -> Vector, completed: nat, matrix: seq<Vector>)
    requires IsBatch(job, e, completed, matrix)
    ensures completed + |matrix| <= |job.source.lines|
    ensures Upto(job, e, completed + |matrix|) == Upto(job, e, completed) + Flatten(matrix)
  {
    hide Rows, Dimension, Meta, Flatten, Payload, Header, Sha256.Hash;
    PayloadExtends(job, e, completed, matrix);
    Associative(Header(Meta(job, Dimension(job, e))), Payload(job, e, completed), Flatten(matrix));
  }

  lemma UniformConcat(a: seq<Vector>, b: seq<Vector>, dimension: nat)
    requires Uniform(a, dimension) && Uniform(b, dimension)
    ensures Uniform(a + b, dimension)
  {
  }

  /** Bytes past the checkpointed rows do no harm. */
  lemma SurplusIsSound(s: State, job: Job, e: string -> Vector, d: nat, headerSize: nat, completed: nat,
                       payload: Bytes, surplus: Bytes)
    requires InProgress(s, job, e, Some(d), headerSize, completed, payload)
    ensures Sound(s.(partial := Some(s.partial.value + surplus)), job, e)
  {
    hide Upto, Tracks, Header, Meta, Payload, Dimension;
  }

  lemma InProgressIsSound(s: State, job: Job, e: string -> Vector, d: nat, headerSize: nat, completed: nat,
                          payload: Bytes)
    requires InProgress(s, job, e, Some(d), headerSize, completed, payload)
    ensures Sound(s, job, e)
  {
    hide Upto, Tracks, Header, Meta, Payload, Dimension;
  }

  lemma TracksMore(cp: Checkpoint, job: Job, e: string -> Vector, matrix: seq<Vector>, payload: Bytes)
    requires Tracks(cp, job, e) && payload == Payload(job, e, cp.completed)
    requires IsBatch(job, e, cp.completed, matrix) && Uniform(matrix, cp.dimension)
    ensures Tracks(CheckpointAt(job, Running, cp.dimension, cp.headerSize, cp.completed + |matrix|,
                                payload + Flatten(matrix)), job, e)
  {
    hide Rows, Uniform, Dimension, Meta, Flatten, Payload, Header, Sha256.Hash, Begun, IsBatch;
    BegunExtends(job, e, cp.completed, matrix);
    PayloadExtends(job, e, cp.completed, matrix);
  }

  lemma TrackedFields(cp: Checkpoint, job: Job, e: string -> Vector)
    requires Tracks(cp, job, e)
    ensures cp.inputs == job && cp.completed <= |job.source.lines|
    ensures cp.dimension == Dimension(job, e) && cp.headerSize == |Header(Meta(job, cp.dimension))|
  {
    hide Header, Meta, Dimension, Payload, Sha256.Hash;
  }

  /** After one batch, appended and recorded, its rows are completed too. */
  lemma BatchStep(s: State, job: Job, e: string -> Vector, d: nat, headerSize: nat, completed: nat, payload: Bytes,
                  matrix: seq<Vector>)
    requires InProgress(s, job, e, Some(d), headerSize, completed, payload)
    requires IsBatch(job, e, completed, matrix) && Uniform(matrix, d)
    ensures var after, rows := completed + |matrix|, payload + Flatten(matrix);
            var done := s.(partial := Some(s.partial.value + Flatten(matrix)),
                           checkpoint := Some(CheckpointAt(job, Running, d, headerSize, after, rows)));
            InProgress(done, job, e, Some(d), headerSize, after, rows)
  {
    hide Rows, Uniform, Dimension, Meta, Flatten, Payload, Header, Sha256.Hash, Begun, Upto, Tracks, IsBatch;
    TrackedFields(s.checkpoint.value, job, e);
    TracksMore(s.checkpoint.value, job, e, matrix, payload);
    PayloadExtends(job, e, completed, matrix);
    UptoExtends(job, e, completed, matrix);
  }

  method AppendBatch(disk: Disk, job: Job, d: nat, headerSize: nat, completed: nat, payload: Bytes,
                     matrix: seq<Vector>, ghost e: string -> Vector)
    returns (after: nat, rows: Bytes)
    requires disk.state.partial.Some? && disk.state.cache.None?
    modifies disk
    ensures old(disk.Recorded()) ==> disk.Recorded()
    ensures after == completed + |matrix| && rows == payload + Flatten(matrix)
    ensures disk.state.partial.Some? && disk.state.cache.None?
    ensures |disk.history| > |old(disk.history)| && old(disk.history) <= disk.history
    ensures InProgress(old(disk.state), job, e, Some(d), headerSize, completed, payload)
            && IsBatch(job, e, completed, matrix) && Uniform(matrix, d) ==>
              && InProgress(disk.state, job, e, Some(d), headerSize, after, rows)
              && Grows(old(disk.history), disk.history, job, e)
  {
    hide Flatten, InProgress, Sound, Rows, Uniform, Sha256.Hash, IsBatch;
    after, rows := completed + |matrix|, payload + Flatten(matrix);
    if InProgress(disk.state, job, e, Some(d), headerSize, completed, payload)
       && IsBatch(job, e, completed, matrix) && Uniform(matrix, d) {
      SurplusIsSound(disk.state, job, e, d, headerSize, completed, payload, disk.Torn());
      SurplusIsSound(disk.state, job, e, d, headerSize, completed, payload, Flatten(matrix));
      BatchStep(disk.state, job, e, d, headerSize, completed, payload, matrix);
    }
    disk.AppendPartial(Flatten(matrix));
    disk.WriteCheckpoint(CheckpointAt(job, Running, d, headerSize, after, rows));
    if InProgress(disk.state, job, e, Some(d), headerSize, after, rows) {
      InProgressIsSound(disk.state, job, e, d, headerSize, after, rows);
    }
  }

  lemma FinishStep(s: State, job: Job, e: string -> Vector, d: nat, headerSize: nat, payload: Bytes)
    requires InProgress(s, job, e, Some(d), headerSize, |job.source.lines|, payload)
    ensures Publishable(job, e)
    ensures s.partial == Some(CacheOf(job, e)) && CheckSource(CacheOf(job, e), job) == None
    ensures Sound(Ready(s, job, d, headerSize, payload), job, e)
    ensures Sound(Ready(s, job, d, headerSize, payload).(partial := None, cache := s.partial), job, e)
    ensures Sound(Published(job, CacheOf(job, e), Ready(s, job, d, headerSize, payload).checkpoint), job, e)
    ensures Sound(Published(job, CacheOf(job, e), None), job, e)
  {
    hide Payload, Flatten, Header, Meta, Rows, Uniform, Begun, Upto, Sha256.Hash, Dimension, ReadCache, CheckSource;
    TrackedFields(s.checkpoint.value, job, e);
    TracksAll(s.checkpoint.value, job, e);
    CacheReads(job, e);
  }

  lemma TracksAll(cp: Checkpoint, job: Job, e: string -> Vector)
    requires Tracks(cp, job, e) && cp.completed == |job.source.lines|
    ensures Publishable(job, e)
  {
    hide Begun;
  }

  /** The publishing checkpoint: the same rows, and the digest of the whole file. */
  function Ready(s: State, job: Job, d: nat, headerSize: nat, payload: Bytes): State
    requires s.partial.Some?
  {
    var status := ReadyToPublish(Sha256.Hash(s.partial.value));
    s.(checkpoint := Some(CheckpointAt(job, status, d, headerSize, |job.source.lines|, payload)))
  }

  function Published(job: Job, cache: Bytes, checkpoint: Option<Checkpoint>): State {
    State(None, checkpoint, Some(cache), Some(SidecarOf(job, Sha256.Hash(cache))))
  }

  /** In place is the job's whole cache, byte by byte, and nothing but a sidecar that vouches for it. */
  predicate IsWhole(s: State, job: Job, e: string -> Vector) {
    && s.cache.Some? && HeaderFor(s.cache.value, job) && RowsFor(s.cache.value, job, e)
    && (s.sidecar.Some? ==> Vouches(s.sidecar.value, s.cache.value, job))
  }

  lemma SoundIsWhole(s: State, job: Job, e: string -> Vector)
    requires Sound(s, job, e) && s.cache.Some?
    ensures IsWhole(s, job, e)
  {
    hide Publishable, CacheOf, Sha256.Hash, HeaderFor, RowsFor, Tracks, Upto;
    CacheBytes(job, e);
  }

  method Finish(disk: Disk, job: Job, d: nat, headerSize: nat, payload: Bytes, ghost e: string -> Vector)
    returns (r: Result<Sidecar, Error>)
    requires disk.state.partial.Some? && disk.state.cache.None?
    modifies disk
    ensures old(disk.Recorded()) ==> disk.Recorded()
    ensures match CheckSource(old(disk.state).partial.value, job)
            case Some(error) => r == Err(error) && disk.state == old(disk.state) && disk.history == old(disk.history)
            case None =>
              && r.Ok? && Vouches(r.value, old(disk.state).partial.value, job)
              && SourceFor(old(disk.state).partial.value, job)
              && disk.state == State(None, None, old(disk.state).partial, Some(r.value))
    ensures old(disk.history) <= disk.history
    ensures InProgress(old(disk.state), job, e, Some(d), headerSize, |job.source.lines|, payload) ==>
              && r.Ok? && Publishable(job, e) && Grows(old(disk.history), disk.history, job, e)
              && disk.state == Published(job, CacheOf(job, e), None) && IsWhole(disk.state, job, e)
  {
    hide InProgress, Sound, CheckSource, Sha256.Hash, CacheOf, HeaderFor, SourceFor, IsWhole;
    ghost var inProgress := InProgress(disk.state, job, e, Some(d), headerSize, |job.source.lines|, payload);
    if inProgress {
      FinishStep(disk.state, job, e, d, headerSize, payload);
    }
    var partial := disk.state.partial.value;
    SourceChecked(partial, job);
    var problem := CheckSource(partial, job);
    if problem.Some? {
      return Err(problem.value);
    }
    var digest := Sha256.Hash(partial);
    disk.WriteCheckpoint(CheckpointAt(job, ReadyToPublish(digest), d, headerSize, |job.source.lines|, payload));
    disk.ReplaceCache();
    disk.WriteSidecar(SidecarOf(job, digest));
    disk.RemoveCheckpoint();
    r := Ok(SidecarOf(job, digest));
    if inProgress {
      SoundIsWhole(disk.state, job, e);
    }
  }

  lemma PickUpStep(s: State, job: Job, e: string -> Vector)
    requires Sound(s, job, e) && s.cache.None? && s.checkpoint.Some?
    ensures Resume(s, job).Ok? && Resume(s, job).value.Continue?
    ensures CheckpointedSize(s.checkpoint.value) <= |s.partial.value|
    ensures var r := Resume(s, job).value;
            var cut := s.(partial := Some(s.partial.value[..CheckpointedSize(s.checkpoint.value)]));
            InProgress(cut, job, e, Some(r.dimension), r.headerSize, r.completed, r.payload)
  {
    SoundResumes(s, job, e);
    hide Payload, Flatten, Header, Meta, Rows, Uniform, Begun, Upto, Sha256.Hash, Dimension, Resume, CheckpointedSize;
  }

  /** Bytes past the checkpointed rows are cut off. */
  method PickUp(disk: Disk, job: Job, ghost e: string -> Vector) returns (r: Result<Resumption, Error>)
    requires disk.state.cache.None?
    modifies disk
    ensures old(disk.Recorded()) ==> disk.Recorded()
    ensures r == Resume(old(disk.state), job) && disk.state.cache.None? && old(disk.history) <= disk.history
    ensures r.Err? ==> Refuses(old(disk.state), job, r.error)
    ensures r.Ok? && r.value.Continue? ==>
              && old(disk.state).checkpoint.Some? && old(disk.state).partial.Some?
              && old(disk.state).checkpoint.value.inputs == job
              && Covers(old(disk.state)) && Intact(old(disk.state))
    ensures r.Err? || r.value.Anew? ==> disk.state == old(disk.state) && disk.history == old(disk.history)
    ensures r.Ok? && r.value.Anew? ==> disk.state.partial.None?
    ensures Stuck(old(disk.state)) ==> r == Err(MustExistTogether)
    ensures Fresh(old(disk.state)) ==> r == Ok(Anew)
    ensures r.Ok? && r.value.Continue? ==> disk.state.partial.Some? && old(disk.state).partial.Some?
    ensures Sound(old(disk.state), job, e) ==>
              && Grows(old(disk.history), disk.history, job, e)
              && (r.Ok? <==> !Stuck(old(disk.state)))
              && (r.Ok? && r.value.Anew? ==> Fresh(old(disk.state)))
              && (r.Ok? && r.value.Continue? ==>
                    InProgress(disk.state, job, e, Some(r.value.dimension), r.value.headerSize, r.value.completed,
                               r.value.payload))
  {
    hide InProgress, Sha256.Hash, Tracks, Upto, CheckpointedSize, Refuses, Covers, Intact;
    ResumesExactly(disk.state, job);
    ghost var sound := Sound(disk.state, job, e);
    r := Resume(disk.state, job);
    if sound && disk.state.checkpoint.Some? {
      PickUpStep(disk.state, job, e);
    }
    if r.Ok? && r.value.Continue? {
      var size := CheckpointedSize(disk.state.checkpoint.value);
      if |disk.state.partial.value| > size {
        disk.TruncatePartial(size);
      } else {
        assert disk.state.partial.value[..size] == disk.state.partial.value;
      }
      if sound {
        InProgressIsSound(disk.state, job, e, r.value.dimension, r.value.headerSize, r.value.completed,
                          r.value.payload);
      }
    }
  }

  /** What a publishable job's batch is answered with, as long as the endpoint is up. */
  lemma BatchIsAcceptable(job: Job, e: string -> Vector, completed: nat, texts: seq<string>, expected: Option<nat>)
    requires Publishable(job, e) && 0 < |texts| && completed + |texts| <= |job.source.lines|
    requires texts == job.source.lines[completed..completed + |texts|]
    requires expected.Some? ==> expected.value == Dimension(job, e)
    ensures Acceptable(Rows(texts, e), expected)
  {
    hide Sha256.Hash;
    var all, rows := Rows(job.source.lines[..|job.source.lines|], e), Rows(texts, e);
    assert forall i :: 0 <= i < |rows| ==> rows[i] == all[completed + i];
  }

  lemma FirstDimension(job: Job, e: string -> Vector, texts: seq<string>)
    requires job.requested.None? && 0 < |texts| <= |job.source.lines| && texts == job.source.lines[..|texts|]
    ensures Dimension(job, e) == |Rows(texts, e)[0]|
  {
  }

  /** The job has a cache, and no call numbered from `from` up to now was an outage. */
  predicate Completes(job: Job, client: EmbeddingClient, from: nat)
    reads client
  {
    Publishable(job, client.embedding) && forall i :: from <= i < client.calls ==> !client.outages(i)
  }

  /** The files are another job's, or already finished: a run of this job must leave them alone. */
  predicate TakenFrom(s: State, job: Job) {
    if s.cache.Some? then s.sidecar.Some? || s.checkpoint.None? || s.checkpoint.value.inputs != job
    else s.checkpoint.Some? && s.checkpoint.value.inputs != job
  }

  lemma TakenIsRefused(s: State, job: Job)
    requires TakenFrom(s, job)
    ensures if s.cache.Some? then s.sidecar.Some? || Verdict(s, job).Err? else Resume(s, job).Err?
  {
    hide Sha256.Hash, CheckSource, CheckSidecar;
  }

  lemma NothingYet(s: State, job: Job, e: string -> Vector)
    requires Fresh(s) && job.requested.None? && |job.source.lines| > 0
    ensures InProgress(s, job, e, None, 0, 0, [])
  {
  }

  lemma CompletedIsBounded(s: State, job: Job, e: string -> Vector, dimension: Option<nat>, headerSize: nat,
                           completed: nat, payload: Bytes)
    requires InProgress(s, job, e, dimension, headerSize, completed, payload)
    ensures completed <= |job.source.lines|
  {
    hide Sha256.Hash, Upto, Header, Meta, Dimension, Payload, Uniform, Writable;
  }

  lemma RequestedIsWritable(job: Job, e: string -> Vector)
    requires job.requested.Some?
    ensures Dimension(job, e) == job.requested.value
    ensures Publishable(job, e) ==> Writable(Meta(job, job.requested.value))
  {
    hide Sha256.Hash, Writable, Meta, Uniform, Rows;
  }

  lemma NoLinesNoCache(s: State, job: Job, e: string -> Vector)
    requires |job.source.lines| == 0
    ensures !Publishable(job, e) && (Sound(s, job, e) ==> s.cache.None?)
  {
    hide Sha256.Hash, Writable, Meta, CacheOf, SidecarOf, Tracks;
  }

  lemma PublishedIsWhole(s: State, job: Job, e: string -> Vector)
    requires Sound(s, job, e) && s.cache.Some?
    ensures s.partial.None? && s.cache == Some(CacheOf(job, e)) && Publishable(job, e)
  {
    hide Publishable, CacheOf, Sha256.Hash;
  }

  /** One batch: embedded, and with the first one the header too; then appended and recorded. */
  method GenerateBatch(job: Job, disk: Disk, client: EmbeddingClient, dimension: Option<nat>, headerSize: nat,
                       completed: nat, payload: Bytes)
    returns (problem: Option<Error>, newDimension: Option<nat>, newHeaderSize: nat, newCompleted: nat,
             newPayload: Bytes)
    requires completed < |job.source.lines| && disk.state.cache.None?
    requires dimension.Some? ==> disk.state.partial.Some?
    requires dimension.None? ==> disk.state.partial.None? && completed == 0 && job.requested.None?
    modifies disk, client
    ensures old(disk.Recorded()) ==> disk.Recorded()
    ensures problem.None? || problem == Some(EmbeddingFailed) || problem == Some(InvalidHeader)
    ensures problem.None? ==> newDimension.Some? && disk.state.partial.Some? && newCompleted > completed
    ensures problem.None? ==> |disk.history| > |old(disk.history)|
    ensures problem.None? ==>
              newCompleted == if job.batchSize == 0 || completed + job.batchSize > |job.source.lines|
                              then |job.source.lines| else completed + job.batchSize
    ensures problem.Some? ==> disk.state == old(disk.state) && disk.history == old(disk.history)
    ensures disk.state.cache.None? && client.calls == old(client.calls) + 1 && old(disk.history) <= disk.history
    ensures Fresh(old(disk.state)) && |disk.history| > |old(disk.history)| && dimension.None? ==>
              Stuck(disk.history[|old(disk.history)|])
    ensures InProgress(old(disk.state), job, client.embedding, dimension, headerSize, completed, payload) ==>
              && Grows(old(disk.history), disk.history, job, client.embedding)
              && (problem.None? ==>
                    InProgress(disk.state, job, client.embedding, newDimension, newHeaderSize, newCompleted,
                        newPayload))
              && (Publishable(job, client.embedding) && problem.Some? ==> client.outages(old(client.calls)))
  {
    hide Sound, Sha256.Hash, Header, Publishable, Rows, Writable, Meta, Dimension, Flatten, Uniform, InProgress,
      Acceptable, IsBatch;
    problem, newDimension, newHeaderSize, newCompleted, newPayload := None, dimension, headerSize, completed, payload;
    ghost var e, started := client.embedding, disk.history;
    ghost var sound := InProgress(disk.state, job, e, dimension, headerSize, completed, payload);
    var texts := NextBatch(job.source.lines, completed, job.batchSize);
    if sound {
      BatchFacts(disk.state, job, e, dimension, headerSize, completed, payload, texts);
    }
    var answer := client.Embed(texts, dimension);
    if answer.None? {
      problem := Some(EmbeddingFailed);
      return;
    }
    var matrix := answer.value;
    AcceptableRows(matrix, dimension);
    if dimension.None? {
      newDimension := Some(|matrix[0]|);
      var begun := Begin(disk, job, newDimension.value, e);
      if !begun {
        problem := Some(InvalidHeader);
        return;
      }
      newHeaderSize := |Header(Meta(job, newDimension.value))|;
    }
    ghost var between := disk.history;
    newCompleted, newPayload :=
      AppendBatch(disk, job, newDimension.value, newHeaderSize, completed, payload, matrix, e);
    if sound {
      GrowsTwice(started, between, disk.history, job, e);
    }
  }

  lemma AcceptableRows(rows: seq<Vector>, expected: Option<nat>)
    requires Acceptable(rows, expected)
    ensures |rows| > 0 && Uniform(rows, |rows[0]|)
    ensures expected.Some? ==> Uniform(rows, expected.value)
  {
  }

  lemma BatchFacts(s: State, job: Job, e: string -> Vector, dimension: Option<nat>, headerSize: nat, completed: nat,
                   payload: Bytes, texts: seq<string>)
    requires InProgress(s, job, e, dimension, headerSize, completed, payload)
    requires 0 < |texts| && completed + |texts| <= |job.source.lines|
    requires texts == job.source.lines[completed..completed + |texts|]
    ensures IsBatch(job, e, completed, Rows(texts, e))
    ensures dimension.None? ==> Fresh(s) && completed == 0 && payload == [] && |Rows(texts, e)[0]| == Dimension(job, e)
    ensures Publishable(job, e) ==> Acceptable(Rows(texts, e), dimension) && Writable(Meta(job, Dimension(job, e)))
  {
    hide Sha256.Hash, Tracks, Upto, Payload, Header, Acceptable, Writable, Meta, Flatten, Uniform;
    if Publishable(job, e) {
      BatchIsAcceptable(job, e, completed, texts, dimension);
    }
    if dimension.None? {
      FirstDimension(job, e, texts);
    }
  }

  /**
   * One run. From anything this job left behind, every state on the way is again something it may
   * leave behind; the run succeeds exactly with the whole cache in place, and with the endpoint up
   * it does succeed whenever the job has a cache at all, unless it refuses an unvouched-for file.
   */
  method Generate(job: Job, disk: Disk, client: EmbeddingClient) returns (r: Result<Sidecar, Error>)
    modifies disk, client
    ensures old(disk.Recorded()) ==> disk.Recorded()
    ensures |job.source.lines| == 0 ==> r == Err(NoLines)
    ensures |job.source.lines| == 0 || Stuck(old(disk.state)) ==>
              r.Err? && disk.state == old(disk.state) && disk.history == old(disk.history)
    ensures TakenFrom(old(disk.state), job) ==>
              && disk.state == old(disk.state) && disk.history == old(disk.history)
              && (old(disk.state).cache.None? ==> r.Err?)
    ensures r.Ok? ==>
              && disk.state.cache.Some? && disk.state.sidecar == Some(r.value)
              && SourceFor(disk.state.cache.value, job) && Vouches(r.value, disk.state.cache.value, job)
    ensures Sound(old(disk.state), job, client.embedding) ==>
              && Grows(old(disk.history), disk.history, job, client.embedding)
              && (r.Ok? <==> disk.state.cache.Some?)
              && (r.Ok? ==> disk.state.partial.None? && disk.state.cache == Some(CacheOf(job, client.embedding)))
              && (r.Ok? ==> IsWhole(disk.state, job, client.embedding))
              && (|job.source.lines| > 0 ==> (r == Err(MustExistTogether) <==> Stuck(old(disk.state))))
              && (r.Ok? ==> Publishable(job, client.embedding))
              && (Completes(job, client, old(client.calls)) && !Stuck(old(disk.state)) ==> r.Ok?)
    ensures Fresh(old(disk.state)) && |disk.history| > |old(disk.history)| && old(disk.history) <= disk.history ==>
              Stuck(disk.history[|old(disk.history)|])
  {
    hide Sound, InProgress, CheckSource, Resume, Verdict, Sha256.Hash, Header, CacheOf, Publishable, Rows, Acceptable,
      Writable, Meta, Dimension, Flatten, Uniform, SourceFor, HeaderFor, Provenance, Vouches, IsWhole;
    ghost var e, started, isNew := client.embedding, disk.history, Fresh(disk.state);
    ghost var sound, publishable := Sound(disk.state, job, e), Publishable(job, e);
    var lines := job.source.lines;
    if TakenFrom(disk.state, job) {
      TakenIsRefused(disk.state, job);
    }
    if |lines| == 0 {
      NoLinesNoCache(disk.state, job, e);
      return Err(NoLines);
    }
    if disk.state.cache.Some? {
      if sound {
        PublishedIsWhole(disk.state, job, e);
        PublishedIsAccepted(disk.state, job, e);
      }
      r := ValidateExisting(disk, job);
      if sound {
        SoundIsWhole(disk.state, job, e);
      }
      return;
    }
    var found := PickUp(disk, job, e);
    if found.Err? {
      return Err(found.error);
    }
    var dimension: Option<nat>, headerSize: nat, completed: nat, payload: Bytes := None, 0, 0, [];
    if found.value.Continue? {
      dimension, headerSize := Some(found.value.dimension), found.value.headerSize;
      completed, payload := found.value.completed, found.value.payload;
    } else if job.requested.Some? {
      dimension := job.requested;
      RequestedIsWritable(job, e);
      var begun := Begin(disk, job, dimension.value, e);
      if !begun {
        return Err(InvalidHeader);
      }
      headerSize := |Header(Meta(job, dimension.value))|;
    } else if sound {
      NothingYet(disk.state, job, e);
    }
    while completed < |lines|
      invariant dimension.Some? ==> disk.state.partial.Some?
      invariant dimension.None? ==> disk.state.partial.None? && completed == 0 && job.requested.None?
      invariant disk.state.cache.None? && client.calls >= old(client.calls)
      invariant old(disk.Recorded()) ==> disk.Recorded()
      invariant started <= disk.history && (isNew && |disk.history| > |started| ==> Stuck(disk.history[|started|]))
      invariant isNew && dimension.None? ==> Fresh(disk.state)
      invariant isNew ==> (dimension.Some? <==> |disk.history| > |started|)
      invariant sound ==> Grows(started, disk.history, job, e)
      invariant sound ==> InProgress(disk.state, job, e, dimension, headerSize, completed, payload)
      decreases |lines| - completed
    {
      ghost var before := disk.history;
      var problem;
      problem, dimension, headerSize, completed, payload :=
        GenerateBatch(job, disk, client, dimension, headerSize, completed, payload);
      if sound {
        GrowsTwice(started, before, disk.history, job, e);
      }
      assert isNew && |before| > |started| ==> disk.history[|started|] == before[|started|];
      if problem.Some? {
        return Err(problem.value);
      }
    }
    if sound {
      CompletedIsBounded(disk.state, job, e, dimension, headerSize, completed, payload);
    }
    if completed != |lines| {
      return Err(EndedEarly);
    }
    r := Finish(disk, job, dimension.value, headerSize, payload, e);
  }

  // ---------- many runs ----------

  /** What embeds the lines of each job: the job names its model and endpoint. */
  type Embedders = Job -> string -> Vector

  /** Nothing on the cache path vouches for any job. */
  predicate Unclaimed(s: State) {
    s.cache.None? && s.checkpoint.None? && s.sidecar.None?
  }

  /** The files are unclaimed, or what some run of one of the jobs leaves behind. */
  predicate Owned(s: State, jobs: seq<Job>, embedders: Embedders) {
    Unclaimed(s) || exists j :: 0 <= j < |jobs| && Sound(s, jobs[j], embedders(jobs[j]))
  }

  predicate AllOwned(history: seq<State>, from: nat, jobs: seq<Job>, embedders: Embedders) {
    forall i :: from <= i < |history| ==> Owned(history[i], jobs, embedders)
  }

  lemma UnclaimedIsSound(s: State, job: Job, e: string -> Vector)
    requires Unclaimed(s)
    ensures Sound(s, job, e)
  {
  }

  /** What one job left behind is either another's to leave alone, or this job's own. */
  lemma OursOrTaken(s: State, owner: Job, job: Job, embedders: Embedders)
    requires Sound(s, owner, embedders(owner))
    ensures TakenFrom(s, job) || Sound(s, job, embedders(job))
  {
    hide Sha256.Hash, Upto, Header, Meta, Dimension, Payload, Begun, CacheOf, SidecarOf, Publishable;
  }

  lemma OwnedOrTaken(s: State, jobs: seq<Job>, job: Job, embedders: Embedders)
    requires Owned(s, jobs, embedders)
    ensures TakenFrom(s, job) || Sound(s, job, embedders(job))
  {
    hide Sound, TakenFrom;
    if Unclaimed(s) {
      UnclaimedIsSound(s, job, embedders(job));
    } else {
      var j :| 0 <= j < |jobs| && Sound(s, jobs[j], embedders(jobs[j]));
      OursOrTaken(s, jobs[j], job, embedders);
    }
  }

  /** A run that left the files alone, or whose states are all sound for its job, keeps every state owned. */
  lemma RunIsOwned(seen: seq<State>, after: seq<State>, jobs: seq<Job>, run: nat, embedders: Embedders, from: nat)
    requires run < |jobs| && from <= |seen| && |seen| > 0 && AllOwned(seen, from, jobs, embedders)
    requires Owned(seen[|seen| - 1], jobs, embedders)
    requires after == seen || Grows(seen, after, jobs[run], embedders(jobs[run]))
    ensures seen <= after && AllOwned(after, from, jobs, embedders) && Owned(after[|after| - 1], jobs, embedders)
  {
    hide Sound, Unclaimed;
    forall i | from <= i < |after| ensures Owned(after[i], jobs, embedders) {
      if i < |seen| {
        assert after[i] == seen[i];
      }
    }
  }

  lemma OwnedAt(history: seq<State>, from: nat, before: nat, found: State, stop: nat, jobs: seq<Job>,
      embedders: Embedders)
    requires from <= before <= |history| && AllOwned(history, from, jobs, embedders)
    requires Owned(found, jobs, embedders) && stop < 1 + |history| - before
    ensures Owned(([found] + history[before..])[stop], jobs, embedders)
  {
    hide Owned;
  }

  lemma OwnedIsWhole(s: State, jobs: seq<Job>, embedders: Embedders)
    requires Owned(s, jobs, embedders) && s.cache.Some?
    ensures exists j :: 0 <= j < |jobs| && IsWhole(s, jobs[j], embedders(jobs[j]))
  {
    hide Sound, IsWhole;
    var j :| 0 <= j < |jobs| && Sound(s, jobs[j], embedders(jobs[j]));
    SoundIsWhole(s, jobs[j], embedders(jobs[j]));
  }

  lemma OneMoreOwned(history: seq<State>, from: nat, s: State, jobs: seq<Job>, embedders: Embedders)
    requires AllOwned(history, from, jobs, embedders) && Owned(s, jobs, embedders)
    ensures AllOwned(history + [s], from, jobs, embedders)
  {
    hide Owned;
  }

  /** One run of one of the jobs; after it the machine may restart in any state of the files since it began. */
  method RunAndStop(jobs: seq<Job>, run: nat, disk: Disk, embedders: Embedders, outages: nat -> bool,
      stopAt: Option<nat>, ghost from: nat)
    requires run < |jobs| && Owned(disk.state, jobs, embedders) && disk.Recorded()
    requires from <= |disk.history| && AllOwned(disk.history, from, jobs, embedders)
    modifies disk
    ensures Owned(disk.state, jobs, embedders) && disk.Recorded() && old(disk.history) <= disk.history
    ensures AllOwned(disk.history, from, jobs, embedders)
    ensures Stuck(old(disk.state)) || TakenFrom(old(disk.state), jobs[run]) ==> disk.state == old(disk.state)
  {
    hide Sound, CacheOf, Sha256.Hash, Owned, AllOwned, Grows, TakenFrom, Publishable, SourceFor, IsWhole, Vouches;
    var before, found, job := |disk.history|, disk.state, jobs[run];
    ghost var seen := disk.history;
    OwnedOrTaken(found, jobs, job, embedders);
    var client := new EmbeddingClient(embedders(job), outages);
    var r := Generate(job, disk, client);
    RunIsOwned(seen, disk.history, jobs, run, embedders, from);
    if stopAt.Some? {
      var reached := [found] + disk.history[before..];
      var stop := stopAt.value % |reached|;
      OwnedAt(disk.history, from, before, found, stop, jobs, embedders);
      OneMoreOwned(disk.history, from, reached[stop], jobs, embedders);
      disk.Crash(reached[stop]);
    }
  }

  /** Each cache that was ever in place is the header and every row in source order, byte for byte, of one job. */
  lemma CachesAreWhole(history: seq<State>, from: nat, jobs: seq<Job>, embedders: Embedders)
    requires AllOwned(history, from, jobs, embedders)
    ensures forall i :: from <= i < |history| && history[i].cache.Some? ==>
              exists j :: 0 <= j < |jobs| && IsWhole(history[i], jobs[j], embedders(jobs[j]))
  {
    hide Sound, IsWhole, Owned;
    forall i | from <= i < |history| && history[i].cache.Some?
      ensures exists j :: 0 <= j < |jobs| && IsWhole(history[i], jobs[j], embedders(jobs[j]))
    {
      OwnedIsWhole(history[i], jobs, embedders);
    }
  }

  /**
   * Any number of runs on one cache path, each of its own job and each ending by itself or stopped.
   * Whatever is ever in place is the whole cache of one of the jobs; a run of another job leaves a
   * checkpointed partial file and a published cache alone, and no run gets past an unvouched-for file.
   */
  method Lifetime(jobs: seq<Job>, disk: Disk, embedders: Embedders, outages: nat -> nat -> bool,
      stops: nat -> Option<nat>)
    requires Owned(disk.state, jobs, embedders) && disk.Recorded()
    modifies disk
    ensures Owned(disk.state, jobs, embedders) && old(disk.history) <= disk.history
    ensures AllOwned(disk.history, |old(disk.history)|, jobs, embedders)
    ensures forall i :: |old(disk.history)| <= i < |disk.history| && disk.history[i].cache.Some? ==>
              exists j :: 0 <= j < |jobs| && IsWhole(disk.history[i], jobs[j], embedders(jobs[j]))
    ensures Stuck(old(disk.state)) ==> disk.state == old(disk.state)
    ensures (forall j :: 0 <= j < |jobs| ==> TakenFrom(old(disk.state), jobs[j])) ==> disk.state == old(disk.state)
  {
    hide Sound, IsWhole, Sha256.Hash, Owned, TakenFrom, Publishable;
    ghost var from := |disk.history|;
    for run := 0 to |jobs|
      invariant Owned(disk.state, jobs, embedders) && disk.Recorded()
      invariant old(disk.history) <= disk.history && AllOwned(disk.history, from, jobs, embedders)
      invariant Stuck(old(disk.state)) ==> disk.state == old(disk.state)
      invariant (forall j :: 0 <= j < |jobs| ==> TakenFrom(old(disk.state), jobs[j])) ==> disk.state == old(disk.state)
    {
      RunAndStop(jobs, run, disk, embedders, outages(run), stops(run), from);
    }
    CachesAreWhole(disk.history, from, jobs, embedders);
  }
}
