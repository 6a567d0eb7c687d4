# leann.cpp: a verified model of its hardest algorithms

leann.cpp is a low-storage vector search tool: a native library and command line that keep an index
and a document store as a pair of files, and Python scripts that prepare corpora, generate vector
caches and measure recall. This project models the parts whose correctness is hardest to see by
reading one function, and proves what the repository relies on about them. `dafny verify
dfyconfig.toml` checks everything.

The modules follow the source, one subject each.

- **Product quantizer.** `Vectors`, `BitPacking`, `Lloyd`, `SubspaceTraining`, `ProductQuantizer`,
  `QuantizerTraining`: seeding, Lloyd iterations with reseeding of empty clusters, encoding, packing
  into 1 to 8 bits and table lookup are methods over arrays, each proved equal to a function; about
  the functions it is proved that the objective never rises, that the chosen codes are globally
  optimal, that packed codes read back, and that the fast distance is the slow one.
- **Cache generation.** `CacheFormat`, `CacheGeneration`: a run over the partial file, checkpoint,
  cache and sidecar, where every intermediate state is recorded, torn appends included; any sequence
  of runs of different jobs and of crashes keeps one invariant, what is published is the whole cache
  of a job byte for byte, and no job disturbs another's checkpointed file or cache.
- **Exact search.** `Ranking`, `TopK`: threshold selection with ties, and the blockwise merge, equal
  sorting everything.
- **Publication and repair.** `ArtifactPublisher`, `Doctor`, `ArtifactHistory`: a file system whose
  every operation may fail, the rename transaction with its rollback, the doctor's decisions, and,
  for any sequence of builds, doctor runs and crashes, the fate of the pair that was live last: in
  every state it is complete at live or backup paths and nothing else can be opened, until a build
  makes its own valid pair live.
- **Command line.** `EditDistance`, `Utf8`, `JsonString`.
- **Checksums and documents.** `Sha256`, `Sha256Bits`, `Sha256Constants`, `Sha256Example`, `Crc32c`,
  `Bytes`, `Words`, `StoreLayout`, `DocumentStore`, `PairIdentity`.
- **Nested tiers.** `DocumentOrder`, `TierSelection`, `TierFiles`.
- `Outcomes` holds the result type used for exceptions, `Sequences` a few facts several modules use,
  `Sorting` sorting by any order and when the sorted list is the only one.

What the main operations leave behind is also told without the functions that compute it: by traces of
iterations, by the bytes at given positions of the files, by file names, by inner products, by bits and
numbers, by the corpus itself.

Methods and classes have the source's own form: arrays and fields updated in place, loops, early
exits and error branches. A file system or an endpoint that may fail is a class with an arbitrary
schedule of failures. `history` in the two disk classes lists every state the files go through, so
"stopping anywhere" means any element of it; an operation that raises ends a run in the state before
it, which is one of those elements.

Two findings. A run of the cache generator stopped between creating the partial file and writing
the first checkpoint (`scripts/run_large_scale_benchmark.py:489-507` and `531-549`) leaves a partial
file no later run will touch: all refuse it (`scripts/run_large_scale_benchmark.py:371-373`) until
someone deletes it. `Generate` proves that every run starting from nothing passes through such a
state, and that no other state a run can leave makes a later run refuse it for that reason. And the
comment on the bounded edit distance (`app/main.cpp:1681-1682`) says it returns the limit plus one
once the distance is known to exceed it; the last line (`app/main.cpp:1710`) may return more.
`OverLimitIsNotAlwaysLimitPlusOne` gives an input, and `BoundedDistance` the exact condition: beyond
the limit the result is the limit plus one exactly when an early exit was taken or the true distance
is the limit plus one. The model follows the code.

## Model

| member | source | states |
|---|---|---|
| BitPacking.PackCode | src/product_quantizer.cpp:26-38 | Writing a code that fits sets exactly the buffer bits the code has set, at its offset, also across a byte boundary, and changes no other bit of the buffer. |
| BitPacking.UnpackPacked | src/product_quantizer.cpp:13-38 | A code packed into zero bits is unpacked unchanged, for every width from 1 to 8 and every offset. |
| BitPacking.UnpackLocal | src/product_quantizer.cpp:13-24 | Unpacking depends on the code's own bits alone, so later packing cannot disturb it. |
| BitPacking.PackNext | src/product_quantizer.cpp:26-38 | Packing one more code behind others keeps all of them readable and leaves everything after it zero. |
| BitPacking.HoldsUntouched | src/product_quantizer.cpp:26-38 | Codes whose bit range was not written to are still read back. |
| Vectors.SquaredDistance | src/product_quantizer.cpp:40-53 | The loop computes the squared Euclidean distance. |
| Vectors.DistanceExpands | src/product_quantizer.cpp:40-53 | That distance is the polarisation of the inner product, which the optimality of the mean rests on. |
| Lloyd.FindNearest | src/product_quantizer.cpp:291-306 | The search returns the first centroid of minimal distance and that distance. |
| Lloyd.MeanIsOptimal | src/product_quantizer.cpp:332-338 | No point serves the samples of a cluster with a smaller sum of squared distances than their mean. |
| Lloyd.NearestIsOptimal | src/product_quantizer.cpp:286-307 | No assignment has a smaller objective than the nearest-centroid one. |
| Lloyd.MoveOne | src/product_quantizer.cpp:317-339 | Replacing one centroid changes the objective by the difference in its own cluster's cost only. |
| Lloyd.UpdateLowers | src/product_quantizer.cpp:317-339 | Every prefix of the update pass, reseeded empty clusters included, keeps the old assignment's objective from rising. |
| Lloyd.IterationNeverIncreases | src/product_quantizer.cpp:283-340 | One iteration, whatever clusters are empty, never increases the objective measured in the next assignment pass. |
| Lloyd.IterateIsStep | src/product_quantizer.cpp:283-340 | What the two passes compute is an iteration as one would describe it: every sample at its first nearest centroid; each cluster's size times its new centroid is, coordinate by coordinate, the sum of its samples; each empty cluster takes the first sample farthest from its nearest centroid, samples taken before it in the pass counting as not far. |
| Lloyd.TakenIsFarthest | src/product_quantizer.cpp:322-332 | No sample not yet taken is farther than the one an empty cluster takes, and that one is not yet taken while any such has a distance left. |
| Lloyd.TraceNeverIncreases | src/product_quantizer.cpp:283-340 | Over any trace of such iterations the objective after n of them is at most that after any m <= n. |
| Lloyd.TraceNormalized | src/product_quantizer.cpp:283-340 | Iterating from normalized seeds over normalized samples keeps every coordinate in [-1, 1]. |
| SubspaceTraining.SelectSeed | src/product_quantizer.cpp:261-273 | A positive draw selects the sample whose cumulative distance interval contains it, hence one with positive distance; a zero draw selects the first. |
| SubspaceTraining.LowerDistances | src/product_quantizer.cpp:249-259 | After the pass every minimum is the distance to the nearest of all seeds so far, and the total is their sum. |
| SubspaceTraining.NextSeed | src/product_quantizer.cpp:245-278 | While some sample is no seed, one real is drawn and the next seed is the sample at which the cumulative distances to the nearest seeds reach it; once all samples are seeds nothing is drawn and they are taken in turn. |
| SubspaceTraining.SeedCentroids | src/product_quantizer.cpp:229-278 | Seeding fills exactly its subspace's slots with the seeds k-means++ chooses for the recorded draws, and touches no other slot. |
| SubspaceTraining.SeedsDiffer | src/product_quantizer.cpp:245-278 | Such a seed differs from all earlier ones unless its draw was exactly zero or every sample was a seed already. |
| SubspaceTraining.AssignSamples | src/product_quantizer.cpp:284-315 | The pass leaves the nearest-centroid assignment, the cluster sums and counts, and the minimum distances. |
| SubspaceTraining.UpdateCentroids | src/product_quantizer.cpp:317-339 | The in-place pass writes means for non-empty clusters and successive farthest unused samples for empty ones, and nothing outside its slots. |
| SubspaceTraining.UpdatedCentroid | src/product_quantizer.cpp:317-339 | One centroid's update, including the sample a reseeding uses up. |
| SubspaceTraining.OneIteration | src/product_quantizer.cpp:283-340 | Both passes in place make one such iteration. |
| SubspaceTraining.TrainSubspace | src/product_quantizer.cpp:227-341 | Training passes through a trace of as many iterations as asked for, from seeds chosen by the draws to what it leaves in its slots, and touches no other subspace. |
| ProductQuantizer.ConcatCloser | src/product_quantizer.cpp:343-371 | Bettering each part of a split vector betters the whole, which makes per-subspace choice global. |
| ProductQuantizer.CodesAreOptimal | src/product_quantizer.cpp:343-371 | The per-subspace nearest codes minimise the distance to the reconstruction over all tuples of the product codebook. |
| ProductQuantizer.DistanceTable | src/product_quantizer.cpp:61-106 | Returns the full table, or exactly the error of the first check that fails: query size, query range, codebook range. |
| ProductQuantizer.TableRow | src/product_quantizer.cpp:77-103 | One subspace's row extends the table and stops exactly at an out-of-range centroid. |
| ProductQuantizer.TableSumIsProduct | src/product_quantizer.cpp:108-141 | Summing looked-up entries is minus the inner product with the decoded vector. |
| ProductQuantizer.ApproximateDistance | src/product_quantizer.cpp:108-141 | Returns one plus the looked-up sum for a node in range, or exactly the size, range or invalid-code error. |
| ProductQuantizer.StoredCodePlace | src/product_quantizer.cpp:13-24 | A node's codes begin on a byte, take the fewest bytes that hold them, and follow one another bit by bit, lowest first. |
| ProductQuantizer.FastEqualsSlow | src/product_quantizer.cpp:61-141 | The table-driven distance equals one minus the inner product of the query with the vector its codes decode to. |
| QuantizerTraining.ChooseSamples | src/product_quantizer.cpp:205-211 | The training ids are distinct valid ids, all of them or as many as the limit. |
| QuantizerTraining.CodeFits | src/product_quantizer.cpp:212-214 | A code below 2^bits fits its bits and reads back as the same number. |
| QuantizerTraining.EncodePart | src/product_quantizer.cpp:348-369 | The encoding loop finds the nearest centroid of one subspace, a code that fits. |
| QuantizerTraining.EncodeNode | src/product_quantizer.cpp:345-371 | One node's codes are all stored in its stretch, with earlier nodes' bits unchanged and later ones zero. |
| QuantizerTraining.EncodeAll | src/product_quantizer.cpp:343-371 | Every node's optimal codes are in the buffer of exactly bytes-per-vector bytes each, and no index leaves it. |
| QuantizerTraining.StoredIsBest | src/product_quantizer.cpp:343-371 | What is unpacked for a node is the tuple of optimal codes that was chosen for it. |
| QuantizerTraining.SliceCoordinates | src/product_quantizer.cpp:288-292 | A sample's slice for a subspace is that stretch of its coordinates. |
| QuantizerTraining.TrainCodebook | src/product_quantizer.cpp:227-341 | Every subspace of the codebook ends a trace of all iterations over that subspace's slices, from seeds k-means++ may choose; none disturbs another. |
| QuantizerTraining.TrainedShape | src/product_quantizer.cpp:82-91 | A trained codebook over normalized samples is normalized, so the table's range error cannot occur. |
| QuantizerTraining.CheckEmbeddings | src/product_quantizer.cpp:192-203 | Accepts exactly uniform normalized embeddings; otherwise the error is that of the first offender. |
| QuantizerTraining.Train | src/product_quantizer.cpp:169-372 | Each argument check has its error in order, and otherwise the model has min(2^bits, samples) centroids, subspaces that end such traces, and optimal stored codes. |
| QuantizerTraining.TrainedModelAnswers | src/product_quantizer.cpp:61-372 | For every trained model, query and node: the fast distance is one minus the product with the node's reconstruction, and no code tuple reconstructs the node better. |
| CacheFormat.WrittenReadsBack | scripts/benchmark_cache.py:259-289 | A header followed by the announced number of payload bytes is read back as written. |
| CacheFormat.AcceptedIsWritten | scripts/benchmark_cache.py:121-206 | What the structural checks accept is a header of fitting fields followed by exactly the rows it announces. |
| CacheFormat.ReadsExactly | scripts/benchmark_cache.py:121-206 | Both directions at once, for the structural envelope: the accepted files are exactly those. |
| CacheFormat.ReadIsHeaderAt | scripts/benchmark_cache.py:121-206 | In terms of byte positions: accepted are exactly the files with the magic bytes, positive sizes, each field at its place and the announced length. |
| CacheGeneration.Disk.AppendPartial | scripts/run_large_scale_benchmark.py:552-555 | An append passes through a state with arbitrary torn bytes after the old contents. |
| CacheGeneration.EmbeddingClient.Embed | scripts/run_large_scale_benchmark.py:140-189 | An answer is the texts' rows, non-empty, of one dimension and of the expected one; otherwise there is none. |
| CacheGeneration.ValidateExisting | scripts/run_large_scale_benchmark.py:256-315 | An existing cache is answered by its verdict; a missing sidecar is written only from a publishing checkpoint that matches, and then the checkpoint goes. |
| CacheGeneration.AcceptedExactly | scripts/run_large_scale_benchmark.py:256-315 | Accepted exactly when the header at its byte positions is for this source and fingerprint, and the sidecar names role, model, bindings and both digests or a publishing checkpoint of these inputs records this file's digest. |
| CacheGeneration.PublishedIsAccepted | scripts/run_large_scale_benchmark.py:256-315 | A cache published by this job is always accepted later, with or without its sidecar, and recovery keeps the invariant. |
| CacheGeneration.SoundResumes | scripts/run_large_scale_benchmark.py:371-396 | A checkpoint this job left is always resumed, never refused for length or checksum, and truncation leaves exactly its rows. |
| CacheGeneration.ResumesExactly | scripts/run_large_scale_benchmark.py:371-396 | Each refusal to resume has its exact cause in the checkpoint and the partial file, and a resumed run has the checkpointed inputs, enough bytes and the recorded digest. |
| CacheGeneration.PickUp | scripts/run_large_scale_benchmark.py:371-396 | Resumption refuses exactly an unvouched-for partial file, and otherwise restores precisely the state the checkpoint describes. |
| CacheGeneration.Begin | scripts/run_large_scale_benchmark.py:480-507 | Header then first checkpoint; before the checkpoint the torn file is one no run accepts. |
| CacheGeneration.SurplusIsSound | scripts/run_large_scale_benchmark.py:382-392 | Any bytes after the checkpointed rows keep the invariant. |
| CacheGeneration.BatchStep | scripts/run_large_scale_benchmark.py:550-572 | After a batch is appended and recorded, the partial file holds exactly the rows the new checkpoint counts. |
| CacheGeneration.AppendBatch | scripts/run_large_scale_benchmark.py:550-572 | Every state an append and its checkpoint pass through is sound. |
| CacheGeneration.GenerateBatch | scripts/run_large_scale_benchmark.py:512-572 | One turn of the loop, the header of the first batch included, extends the completed rows or fails without touching the files. |
| CacheGeneration.Finish | scripts/run_large_scale_benchmark.py:580-624 | Publication happens exactly when the file is structurally whole and matches the source, and every state on the way is sound. |
| CacheGeneration.Generate | scripts/run_large_scale_benchmark.py:318-624 | A run keeps the invariant in every state; it succeeds exactly with the complete cache in place: every header field at its byte position, every float of every line's row in its four bytes, and a sidecar with the job's role, model, bindings and both digests; with the endpoint up it succeeds for every job that has a cache; it refuses for a missing checkpoint exactly in the unvouched-for state, which every run from nothing passes through; another job's checkpointed file or published cache it leaves as it is; from any state at all a normal return means a cache for this source with a sidecar that vouches for it. |
| CacheGeneration.CacheBytes | scripts/run_large_scale_benchmark.py:550-552 | The bytes of a job's cache: the float in column j of line i stands at header + 4*(i*d + j), lowest byte first. |
| CacheGeneration.PublishableExactly | scripts/run_large_scale_benchmark.py:480-490 | A job has a cache exactly when its sizes fit the header and its rows have one positive width, the requested one if any. |
| CacheGeneration.OursOrTaken | scripts/run_large_scale_benchmark.py:256-396 | What one job's runs leave behind is for any other job either a sound start of its own or something it will not touch. |
| CacheGeneration.RunAndStop | scripts/run_large_scale_benchmark.py:318-624 | One run of any of the jobs, ended by itself or stopped in any of its states, keeps every state owned by some job; it changes nothing in a file nothing vouches for or that another job holds. |
| CacheGeneration.Lifetime | scripts/run_large_scale_benchmark.py:318-624 | After any number of runs of different jobs on one cache path and crashes anywhere, any cache ever in place is, byte position by byte position, the header and all rows in source order of one of the jobs, and its sidecar vouches for it; an unvouched-for partial file stays forever, and so does what none of the jobs may touch. |
| Ranking.TopKUnique | scripts/run_large_scale_benchmark.py:648-651 | The k best of a multiset of candidates form one list only. |
| Ranking.TopKOfMerged | scripts/run_large_scale_benchmark.py:655-677 | The k best of the k best of two parts are the k best of both. |
| Ranking.LeadingIsTopK | scripts/run_large_scale_benchmark.py:655-677 | Sorting everything and taking the first k gives the k best. |
| TopK.PartitionTop | scripts/run_large_scale_benchmark.py:641 | Some `take` entries that no left-out entry outscores, with no promise at ties. |
| TopK.ThresholdSplits | scripts/run_large_scale_benchmark.py:641-645 | At the partition's lowest score fewer than `take` entries lie strictly above, and with the ties there are enough. |
| TopK.ThresholdPicksTopK | scripts/run_large_scale_benchmark.py:643-651 | Everything above the threshold and the needed ties of smallest id are the k best, whichever ties the partition kept. |
| TopK.SelectRow | scripts/run_large_scale_benchmark.py:635-651 | For every row, repeated ids included, the result is the first k of the row sorted; k of zero on a non-empty row is the partition's error. |
| TopK.SelectTopK | scripts/run_large_scale_benchmark.py:627-652 | Row by row the same, with the shape mismatch error exactly on different shapes. |
| TopK.ScoredAt | scripts/run_large_scale_benchmark.py:660-668 | A candidate is a row number with the inner product of that row and the query. |
| TopK.LeadingIsBest | scripts/run_large_scale_benchmark.py:643-651 | The leading candidates are the rows no other row beats: larger inner product first, equal ones by smaller row number. |
| TopK.MergeBlock | scripts/run_large_scale_benchmark.py:664-676 | Merging a block's best into the best so far gives the best of all rows up to the block's end. |
| TopK.MergeNextBlock | scripts/run_large_scale_benchmark.py:664-676 | One turn of the block loop keeps every query's list the best so far. |
| TopK.ExactTopKBlock | scripts/run_large_scale_benchmark.py:655-677 | For every block size the result lists min(k, rows) different rows, each with a larger inner product than every row listed later or not at all, or the same and a smaller number; the errors have their exact conditions. |
| ArtifactPublisher.Install | src/artifact_publisher.cpp:60-81 | The four renames either commit the new pair or stop in a state where the flags tell exactly what was done. |
| ArtifactPublisher.Rollback | src/artifact_publisher.cpp:82-123 | Without an error both live paths are as before; with one the index is absent and the old bytes survive. There is no error exactly when the new documents can be renamed away or else removed and every restoring rename succeeds. |
| ArtifactPublisher.CleanUp | src/artifact_publisher.cpp:125-144 | The committed pair stays live, and a clean result means no backup remains. |
| ArtifactPublisher.TransitIsPromised | src/artifact_publisher.cpp:52-145 | Every state a publication can be in is never one old and one new file, loses no old bytes before the commit and touches no other path. |
| ArtifactPublisher.Publish | src/artifact_publisher.cpp:52-145 | With any operations failing and stopping anywhere every state keeps those promises, and there is one commit point: before it every state is uncommitted, from it on every state is committed, and it is reached exactly with the two outcomes that report a publication; each outcome means what it says, and which one it is follows from the failures and what was there alone, plain success exactly from no failure. |
| Doctor.NamesClassified | app/main.cpp:2180-2232 | The leftover scan takes no live file for a leftover and tells backups from temporaries. |
| Doctor.UncommittedKeeps | src/artifact_publisher.cpp:60-123 | Up to the commit, rollback included, the current pair stays complete at live or backup paths, byte for byte, and no other pair can be opened. |
| Doctor.CommittedKeeps | src/artifact_publisher.cpp:77-144 | From the commit on the pair the build wrote is live, and is the one kept. |
| Doctor.KeptIsSafe | src/artifact_publisher.cpp:60-145 | A directory that keeps its current pair has no torn live pair and a usable pair to recover. |
| Doctor.TrimmedKeeps | app/main.cpp:2309-2337 | Removing what the policy allows never loses the current pair, wherever it is, and keeps the live pair's validity. |
| Doctor.KindsByName | app/main.cpp:2196-2230 | Temporaries and backups are told by the beginnings of their names, and only they are; which of them may go depends on that and on the live pair. |
| Doctor.Consider | app/main.cpp:2289-2337 | A leftover is removed only without locks and when disposable, and is then gone; without a failure a disposable one is. |
| Doctor.Repair | app/main.cpp:2309-2337 | With a lock present nothing is touched and every leftover reported as retained; otherwise, without failures, exactly the temporaries and, when the live pair validates, the backups are gone and reported, every other file is as it was. |
| Doctor.Unlock | app/main.cpp:2339-2347 | A forced unlock removes the two locks of the pair, reports those that went and those that stayed, and changes no other file. |
| Doctor.Examine | app/main.cpp:2234-2349 | Refuses exactly on a forced unlock with a running owner, before changing anything; otherwise locks, files and the whole report are, by file names, as the flags ask. |
| ArtifactHistory.WriteAndPublish | src/index.cpp:429-746 | Writing, validating and publishing a pair keeps the current pair in every state; it makes the new pair current and live exactly with a committing outcome, and every other outcome says what the live files are. Which outcome it is, the failures, the names in use and the pair's validity decide, by a stated function. |
| ArtifactHistory.Build | src/index.cpp:414-747 | The same with both locks taken first and the temporaries removed after; a lock already held changes no file, and each of the outcomes has its meaning for the files before and after. When no operation fails, a build of a valid pair under free names and locks publishes it, the files are the old ones with that pair live and nothing else changed, and the locks are as before. |
| ArtifactHistory.Lifetime | app/main.cpp:2301-2349 | From a valid live pair, through any sequence of builds, doctor runs with any flags and crashes anywhere: in every state the current pair is valid and complete at live or backup paths and no other pair can be opened. It starts as that live pair and changes only to a build's valid product when that product is live. |
| EditDistance.LevenshteinIsLeastEdits | app/main.cpp:1683-1711 | The recursion behind the table is the least number of single-character insertions, deletions and replacements. |
| EditDistance.Symmetric | app/main.cpp:1686-1688 | Swapping the strings changes nothing. |
| EditDistance.NextRowExceeds | app/main.cpp:1705-1707 | Row minima never decrease, which justifies the early exit. |
| EditDistance.GivesUpSoundly | app/main.cpp:1689-1707 | Both early exits happen only when the true distance exceeds the limit. |
| EditDistance.FillRow | app/main.cpp:1696-1704 | The inner loop computes one row of the table from the one above, and its least entry. |
| EditDistance.BoundedDistance | app/main.cpp:1683-1711 | The result is within the limit exactly when the true distance is, and then is that distance; beyond it, it is the limit plus one exactly when the search gave up or the true distance is the limit plus one, and otherwise the true distance. |
| EditDistance.OverLimitIsNotAlwaysLimitPlusOne | app/main.cpp:1681-1682 | An input for which the result beyond the limit is not the limit plus one. |
| EditDistance.Suggest | app/main.cpp:1799-1815 | The suggestion is the first nearest name when one is at distance below three, and there is none otherwise. |
| Utf8.GrammarIsTable | app/main.cpp:1041-1079 | The validator's test, the byte grammar of section 4 of RFC 3629 and the bit table of its section 3 accept the same single sequences. |
| Utf8.AcceptedEncodes | app/main.cpp:1050-1073 | An accepted sequence is the encoding of the scalar value gathered from it. |
| Utf8.EncodedAccepted | app/main.cpp:1025-1073 | Every scalar value's encoding is accepted and gathered back. |
| Utf8.PrefixFree | app/main.cpp:1041-1079 | No encoding is a prefix of another. |
| Utf8.DecodingIsUnique | app/main.cpp:1041-1079 | A text decodes to at most one sequence of scalar values. |
| Utf8.Gather | app/main.cpp:1064-1071 | The continuation loop gathers the bits and fails exactly at an octet that is no continuation. |
| Utf8.NextSequence | app/main.cpp:1043-1078 | A sequence is accepted at a position exactly when some encoding fits there. |
| Utf8.IsValidUtf8 | app/main.cpp:1041-1081 | Accepts exactly the concatenations of encoded scalar values. |
| JsonString.WriteString | app/main.cpp:1210-1254 | Fails exactly for text that is not UTF-8; otherwise the output is the quoted escapes of its octets. |
| JsonString.UnescapesFirst | app/main.cpp:1217-1252 | A reader following section 7 of RFC 8259 takes each octet's escape for that octet. |
| JsonString.RoundTrip | app/main.cpp:1210-1254 | Reading back what was written by section 7 of RFC 8259 gives exactly the original bytes. |
| JsonString.WrittenIsUtf8 | app/main.cpp:1210-1254 | Escaping keeps valid text valid. |
| Crc32c.MakeTable | src/checksum.cpp:55-66 | Every table entry is eight bit-steps of its index. |
| Crc32c.EightSteps | src/checksum.cpp:55-66 | Eight bit-steps on x are eight on its low byte XORed with x shifted right by eight. |
| Crc32c.TableLookup | src/checksum.cpp:333-340 | One table lookup is eight bit-steps with the byte folded in. |
| Crc32c.FeedBitsDivide | src/checksum.cpp:333-340 | The register always holds the remainder of dividing what was read so far. |
| Crc32c.CrcIsRemainder | src/checksum.cpp:333-340 | The checksum is the polynomial remainder section 12.1 of RFC 3720 defines. |
| Crc32c.Checksum | src/checksum.cpp:333-340 | The table-driven loop equals the bit-at-a-time register and that remainder, for every byte string. |
| Crc32c.CheckValue | src/checksum.cpp:333-340 | The checksum of the digits 1 to 9 is 0xe3069283. |
| Crc32c.DetectsBurst | src/checksum.cpp:333-340 | A change within 32 consecutive bits, at any bit offset, always changes the checksum. |
| Crc32c.DetectsBytes | src/checksum.cpp:333-340 | So does any change within four consecutive bytes. |
| Sha256Bits.ChooseBit | src/checksum.cpp:29-32 | Bit by bit, the second word's where the first has a bit, else the third's. |
| Sha256Bits.MajorityBit | src/checksum.cpp:34-37 | Bit by bit, the majority of three words. |
| Sha256Bits.BigSigma0Bit | src/checksum.cpp:39-41 | Each bit is the parity of the word's bits 2, 13 and 22 places up, counted around. |
| Sha256Bits.BigSigma1Bit | src/checksum.cpp:43-45 | The same with 6, 11 and 25. |
| Sha256Bits.SmallSigma0Bit | src/checksum.cpp:47-49 | The same with 7 and 18, and the bit 3 up where there is one. |
| Sha256Bits.SmallSigma1Bit | src/checksum.cpp:51-53 | The same with 17 and 19, and 10. |
| Sha256Bits.MessageWordAsNumber | src/checksum.cpp:77-85 | A message word is the number its four bytes write, highest first. |
| Sha256Bits.WordBytesAsNumber | src/checksum.cpp:192-203 | A digest word's four bytes write it the same way. |
| Sha256Constants.RoundConstantIsRoot | src/checksum.cpp:13-27 | Every round constant is the first 32 bits of the fractional part of the cube root of its prime, section 4.2.2 of FIPS 180-4. |
| Sha256Constants.InitialIsRoot | src/checksum.cpp:72-74 | The initial values are those of the square roots of the first eight primes, section 5.3.3. |
| Sha256Example.DigestOfAbc | src/checksum.cpp:76-204 | The digest of "abc" is the standard's, through all 64 rounds, which fixes the wiring of rounds, schedule and padding. |
| Sha256.MessageSchedule | src/checksum.cpp:76-93 | The schedule array holds the message schedule of section 6.2.2 of FIPS 180-4. |
| Sha256.Hasher.Transform | src/checksum.cpp:76-125 | One block updates the state by the compression function. |
| Sha256.AbsorbBlock | src/checksum.cpp:76-125 | Folding over a message extended by a block compresses that block last. |
| Sha256.Hasher.FillBuffer | src/checksum.cpp:140-151 | Topping up the buffer absorbs exactly the consumed bytes and leaves it partly filled only when all are consumed. |
| Sha256.Hasher.Update | src/checksum.cpp:127-161 | After any call the absorbed message is the old one with the bytes appended, in whatever chunks; the two errors change nothing. |
| Sha256.PaddingIsLeast | src/checksum.cpp:176-184 | The number of zero bytes appended is the least that section 5.1.1 of FIPS 180-4 allows. |
| Sha256.FinishOneBlock | src/checksum.cpp:175-189 | When the length fits, one padded block completes the hash of section 5.1.1 padding. |
| Sha256.FinishTwoBlocks | src/checksum.cpp:175-189 | When it does not, two blocks do. |
| Sha256.Hasher.Finish | src/checksum.cpp:168-204 | The digest is the hash of the whole message whatever the calls were; too large or repeated use is refused unchanged. |
| Sha256.HashPrefix | src/checksum.cpp:229-256 | Chunked reading hashes exactly the requested prefix, or reports a short stream. |
| Words.WriteLe | src/format.hpp:13-22 | Writes the value's bytes lowest first. |
| Words.ReadLe | src/format.hpp:24-36 | Reads back the number the bytes encode. |
| Words.DecodeEncoded | src/format.hpp:13-36 | A table of fitting integers survives writing and reading. |
| Bytes.FourBytes | src/format.hpp:24-36 | A 32-bit number's bytes count ones, 256s, 65536s and 16777216s, lowest first. |
| Bytes.EightBytes | src/format.hpp:24-36 | A 64-bit number's low half comes before its high half. |
| PairIdentity.MessageByPlace | src/document_store.cpp:18-39 | The hashed message begins with the 28 bytes of the domain, then the number of documents, then each document after its length. |
| PairIdentity.MakePairIdentity | src/document_store.cpp:29-39 | The identity is the hash of that message, or the size error. |
| PairIdentity.CorpusMessageInjective | src/document_store.cpp:18-39 | Different ordered corpora hash different messages. |
| DocumentStore.Write | src/document_store.cpp:74-156 | The bytes written are the encoding of offsets, checksums and payload, each at its byte position, or exactly one of the size and identity errors. |
| DocumentStore.WrittenByPlace | src/document_store.cpp:74-156 | Byte position by byte position: the magic bytes, version 2, identity, count, both digests, and for every document its begin, end, checksum and bytes. |
| DocumentStore.ParseEncoded | src/document_store.cpp:158-285 | Opening an encoded store gives back every field. |
| DocumentStore.OpensIffEncoded | src/document_store.cpp:158-285 | Opening accepts exactly the encodings of describable stores. |
| DocumentStore.MeasureMetadata | src/document_store.cpp:208-239 | In wrapping 64-bit arithmetic the size checks accept exactly when the unbounded sizes fit, so nothing wraps. |
| DocumentStore.ReadEntries | src/document_store.cpp:254-283 | Both tables and all offset checks agree with the specification's parse. |
| DocumentStore.CheckOffsets | src/document_store.cpp:270-283 | Accepts exactly offsets from zero, monotone, ending at the payload's length. |
| DocumentStore.Open | src/document_store.cpp:158-285 | The method agrees with the parse on every file, errors included, and the store it returns holds what stands at the tables' byte positions. |
| DocumentStore.ParseByPlace | src/document_store.cpp:158-285 | A file opens exactly when the checks on its bytes all pass; each error means that the checks before it pass and its own does not. |
| DocumentStore.OffsetsWithin | src/document_store.cpp:296-303 | Consecutive offsets of an accepted store are ordered and inside the payload. |
| DocumentStore.ChunksArePayload | src/document_store.cpp:208-326 | The chunks of all ids of any accepted file, one after the other, are its payload: no byte is in two of them or in none. |
| DocumentStore.ReadableIsWritten | src/document_store.cpp:208-326 | A file that opens and whose every id reads is, byte for byte, the store written for the documents read. |
| DocumentStore.Store.Measures | src/document_store.cpp:287-289 | The size and the raw length an open store reports are those of its tables and its payload. |
| DocumentStore.Store.MeasuresWritten | src/document_store.cpp:337-339 | Opened on what was written for a corpus they are the number of documents and their total length. |
| DocumentStore.Store.Read | src/document_store.cpp:291-326 | An id below the size never meets the range error; only the recorded chunk with the recorded checksum is returned. |
| DocumentStore.WrittenReadsBack | src/document_store.cpp:74-326 | Every corpus within the limits opens again, with its payload, length and each document unchanged. |
| DocumentStore.DamageDetected | src/document_store.cpp:291-326 | Damage within 32 consecutive bits of a document, at any bit offset, makes exactly that read fail with a checksum mismatch. |
| DocumentStore.ChunkOf | src/document_store.cpp:117-150 | The slice between a document's offsets is that document. |
| DocumentOrder.PrecedesIsRank | scripts/prepare_beir_nq_scale.py:716-723 | Rank order is by the digest of seed and identifier, the smaller byte first where two digests first differ, then by identifier the same way. |
| DocumentOrder.OrderIsUnique | scripts/prepare_beir_nq_scale.py:716-723 | Documents with distinct ids have one rank order. |
| DocumentOrder.ArrangedIgnoresOrder | scripts/prepare_beir_nq_scale.py:674-683 | The order of the corpus lines does not matter to it. |
| TierSelection.GreedyIsFirst | scripts/prepare_beir_nq_scale.py:724-745 | A candidate is chosen exactly when its text is unused and it is the lowest-ranked candidate with that text. |
| TierSelection.FillersAreFirst | scripts/prepare_beir_nq_scale.py:712-750 | In terms of the corpus: a filler may be chosen exactly when no positive shares its text and every other filler that does ranks after it. |
| TierSelection.GreedyTexts | scripts/prepare_beir_nq_scale.py:724-745 | The chosen fillers have distinct texts, none a positive's, and leave no new text out. |
| TierSelection.CheckPositives | scripts/prepare_beir_nq_scale.py:684-704 | Grouping by text finds a repeat exactly when two positives share one. |
| TierSelection.ChooseFillers | scripts/prepare_beir_nq_scale.py:712-750 | The loop takes fillers in rank order until the large tier is full, with the tier of each and both counts right, whatever the batching. |
| TierSelection.SelectDocuments | scripts/prepare_beir_nq_scale.py:640-774 | Succeeds exactly under a stated condition on counts and texts, the case of positives filling the large tier included, and then the table is the specified one; each of the four errors has its exact condition. |
| TierSelection.TiersAreSound | scripts/prepare_beir_nq_scale.py:640-774 | Every positive is in the small tier and no two selected documents share a text. |
| TierSelection.SelectedTiers | scripts/prepare_beir_nq_scale.py:724-756 | The tiers have the requested sizes, and the small one depends on the small count alone. |
| TierSelection.SelectionIgnoresOrder | scripts/prepare_beir_nq_scale.py:640-774 | Neither success nor the result depends on the order of the corpus lines. |
| TierSelection.SelectableIffEnoughTexts | scripts/prepare_beir_nq_scale.py:640-757 | With the large count above the small one, as the command line demands, success needs exactly fitting positives with distinct texts and enough distinct texts in the corpus. |
| TierFiles.FileOrderNests | scripts/prepare_beir_nq_scale.py:811-822 | In file order the first small-count documents are the small tier, in rank order. |
| TierFiles.WriteDocuments | scripts/prepare_beir_nq_scale.py:787-864 | The large files list everything, the small ones the first lines; each of the two count errors happens exactly on its wrong counts. |
| TierFiles.VerifyPrefix | scripts/prepare_beir_nq_scale.py:987-998 | Accepts exactly a non-empty file whose lines the larger one begins with. |
| TierFiles.DecimalReads | scripts/prepare_beir_nq_scale.py:835-846 | A position's digits read back as the position, without leading zeros. |
| TierFiles.IdLineIsNumbered | scripts/prepare_beir_nq_scale.py:835-846 | A line of identifiers is its position, a tab and the identifier. |
| TierFiles.SelectionIs | scripts/prepare_beir_nq_scale.py:640-822 | In terms of the corpus: each tier in rank order, no text twice, every positive in the small tier, all fillers the first of their text with no positive's text, the small tier's fillers ranking before all others of that kind and the added ones before the rest. |
| TierFiles.SelectableCounted | scripts/prepare_beir_nq_scale.py:640-757 | With the large count above the small one, success is counted on the corpus: few enough positives with distinct texts, and enough distinct texts. |
| TierFiles.PrepareTiers | scripts/prepare_beir_nq_scale.py:1203-1232 | The whole preparation succeeds exactly when selection does and the small tier is non-empty; the large files list such a selection line by line with numbered identifiers, the small files are their beginning, which the large count does not change. |

## Left out

- Floating point: vectors are real-valued; rounding, NaN and infinity handling and the norm tolerance checks are not modelled.
- A codebook row is a point of the subspace rather than a stretch of one flat float array; the order of rows is the source's.
- Random generators return arbitrary values in the range asked for; their quality and seeding are not modelled.
- The prefix-cache seeding path of cache generation, request concurrency (answers are consumed in order), progress output and timestamps.
- Cache generation compares the checkpoint's inputs themselves, and sidecars field by field; hash collisions of the canonical input hash are therefore not modelled.
- The model does not derive the non-empty lines from the source file's bytes; both are given.
- CacheFormat.AcceptedIsWritten: covers the structural envelope only; the reader's vector norm checks, the UTF-8 check of the fingerprint and the acceptance of the legacy version 1 layout are not modelled, because norms need floating point and the generator refuses legacy files.
- CacheFormat.ReadsExactly: the same three checks are outside it.
- CacheGeneration.EmbeddingClient.Embed: does not model the permutation check of the indices in a response, normalization, or retries; an answer is a function of the texts.
- Real file systems: fsync, permissions, directories, Windows branches; a rename, removal or atomic write happens fully or not at all, an append or a plain write may be torn.
- Index construction, loading and search: whether an index and a document store match is an abstract predicate of their bytes.
- Doctor.Examine: the owner file inside a lock is not modelled, and the liveness of the owner is a parameter; a doctor run does not overlap a publication.
- DocumentStore.Write: returns the bytes rather than a partly written file when an error stops it, and takes documents that fit in memory (24 bytes of string object each, below 2^64 in all), because more cannot be passed.
- Opening files longer than the largest stream offset, and reading a file that another process changes.
- TopK.ExactTopKBlock: row numbers are unbounded, because a corpus of 2^32 rows is outside what the 32-bit ids of the source allow.
- A negative k in the exact search; the parameter is a natural number.
- The layout written by the JSON writer: separators, indentation and numbers, which one reading settles.
- Help text, option parsing, HTTP clients and servers, the embedding backends and the result collection scripts.
- Corpus parsing, text cleaning and truncation, queries and relevance judgments; the corpus table is given with its primary key.
