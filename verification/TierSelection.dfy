/**
 * Two nested document tiers from one ranked corpus: every positive document is in the small tier,
 * fillers follow in rank order, and no two documents of a tier share their prepared text.
 */
module TierSelection {
  import opened Bytes
  import opened DocumentOrder
  import opened Outcomes
  import opened Sequences

  const SQL_BATCH_ROWS := 5000

  datatype Error = PositivesDoNotFit | CorpusTooSmall | PositivesReuseText | NotEnoughUniqueDocuments
                 | ExceedsLargeTier | WrongLineCount | NotAPrefix | EmptyTier

  datatype Tier = Small | Large

  /** A row of the table of selected documents. */
  datatype Row = Row(document: Document, tier: Tier, forced: bool)

  function Filtered(docs: seq<Document>, positive: bool): seq<Document>
    decreases |docs|
  {
    if |docs| == 0 then []
    else (if docs[0].positive == positive then [docs[0]] else []) + Filtered(docs[1..], positive)
  }

  function Hashes(docs: seq<Document>): set<Bytes> {
    set d | d in docs :: TextHash(d)
  }

  predicate DistinctTexts(docs: seq<Document>) {
    forall i, j :: 0 <= i < j < |docs| ==> TextHash(docs[i]) != TextHash(docs[j])
  }

  /** The candidates whose text is new, in order: neither used before nor met earlier. */
  function Greedy(candidates: seq<Document>, used: set<Bytes>): seq<Document>
    decreases |candidates|
  {
    if |candidates| == 0 then []
    else if TextHash(candidates[0]) in used then Greedy(candidates[1..], used)
    else [candidates[0]] + Greedy(candidates[1..], used + {TextHash(candidates[0])})
  }

  // ---------- what the greedy choice is ----------

  lemma HashesMore(d: Document, docs: seq<Document>)
    ensures Hashes([d] + docs) == {TextHash(d)} + Hashes(docs)
    ensures TextHash(d) !in Hashes(docs) && DistinctTexts(docs) ==> DistinctTexts([d] + docs)
  {
    hide TextHash;
    assert forall i :: 0 <= i < |docs| ==> TextHash(docs[i]) in Hashes(docs);
  }

  lemma {:induction false} GreedyTexts(candidates: seq<Document>, used: set<Bytes>)
    ensures DistinctTexts(Greedy(candidates, used)) && Hashes(Greedy(candidates, used)) !! used
    ensures Hashes(Greedy(candidates, used)) + used == Hashes(candidates) + used
    ensures forall d :: d in Greedy(candidates, used) ==> d in candidates
    decreases |candidates|
  {
    hide TextHash, Hashes, DistinctTexts;
    if |candidates| == 0 {
      NoTexts();
    } else {
      var head, rest := candidates[0], candidates[1..];
      assert candidates == [head] + rest;
      HashesMore(head, rest);
      if TextHash(head) in used {
        GreedyTexts(rest, used);
      } else {
        GreedyTexts(rest, used + {TextHash(head)});
        HashesMore(head, Greedy(rest, used + {TextHash(head)}));
      }
    }
  }

  lemma NoTexts()
    ensures DistinctTexts([]) && Hashes([]) == {}
  {
  }

  predicate NewAt(candidates: seq<Document>, used: set<Bytes>, i: nat)
    requires i < |candidates|
  {
    && TextHash(candidates[i]) !in used
    && forall j :: 0 <= j < i ==> TextHash(candidates[j]) != TextHash(candidates[i])
  }

  lemma NewAtTail(candidates: seq<Document>, used: set<Bytes>, i: nat)
    requires 0 < i < |candidates|
    ensures var h := TextHash(candidates[0]);
            NewAt(candidates, used, i) <==> NewAt(candidates[1..], if h in used then used else used + {h}, i - 1)
  {
    hide TextHash;
    var rest := candidates[1..];
    assert forall j :: 0 <= j < i ==> rest[j] == candidates[j + 1];
    assert forall j :: 0 < j < i ==> candidates[j] == rest[j - 1];
  }

  lemma NotChosenAgain(candidates: seq<Document>, used: set<Bytes>, d: Document)
    requires TextHash(d) in used
    ensures d !in Greedy(candidates, used)
  {
    hide TextHash, Greedy, DistinctTexts;
    GreedyTexts(candidates, used);
    forall x | x in Greedy(candidates, used) ensures TextHash(x) !in used {
      assert TextHash(x) in Hashes(Greedy(candidates, used));
    }
  }

  /** A candidate is chosen exactly when its text is unused and no earlier candidate has it. */
  lemma {:induction false} GreedyIsFirst(candidates: seq<Document>, used: set<Bytes>, i: nat)
    requires i < |candidates| && DistinctIds(candidates)
    ensures candidates[i] in Greedy(candidates, used) <==> NewAt(candidates, used, i)
    decreases |candidates|
  {
    hide TextHash, NewAt;
    if i == 0 {
      NewAtHead(candidates, used);
      if TextHash(candidates[0]) in used {
        NotChosenAgain(candidates, used, candidates[0]);
      }
    } else {
      var h := TextHash(candidates[0]);
      NewAtTail(candidates, used, i);
      TailIds(candidates);
      GreedyIsFirst(candidates[1..], if h in used then used else used + {h}, i - 1);
      assert candidates[i] != candidates[0];
    }
  }

  lemma TailIds(docs: seq<Document>)
    requires |docs| > 0 && DistinctIds(docs)
    ensures DistinctIds(docs[1..])
  {
  }

  lemma NewAtHead(candidates: seq<Document>, used: set<Bytes>)
    requires |candidates| > 0
    ensures NewAt(candidates, used, 0) <==> TextHash(candidates[0]) !in used
  {
    hide TextHash;
  }

  lemma {:induction false} FilteredMembers(docs: seq<Document>, positive: bool)
    ensures forall d :: d in Filtered(docs, positive) <==> d in docs && d.positive == positive
    decreases |docs|
  {
    if |docs| > 0 {
      FilteredMembers(docs[1..], positive);
      assert docs == [docs[0]] + docs[1..];
    }
  }

  lemma {:induction false} FilteredIds(docs: seq<Document>, positive: bool)
    requires DistinctIds(docs)
    ensures DistinctIds(Filtered(docs, positive))
    decreases |docs|
  {
    if |docs| > 0 {
      FilteredIds(docs[1..], positive);
      FilteredMembers(docs[1..], positive);
      var more := Filtered(docs[1..], positive);
      forall i | 0 <= i < |more| ensures more[i].id != docs[0].id {
        assert more[i] in docs[1..];
        var j :| 0 <= j < |docs| - 1 && docs[1..][j] == more[i];
        assert docs[j + 1] == more[i];
      }
    }
  }

  lemma {:induction false} FilteredOrdered(seed: Bytes, docs: seq<Document>, positive: bool)
    requires Ordered(seed, docs)
    ensures Ordered(seed, Filtered(docs, positive))
    decreases |docs|
  {
    hide Precedes;
    if |docs| > 0 {
      FilteredOrdered(seed, docs[1..], positive);
      FilteredMembers(docs[1..], positive);
      forall d | d in docs[1..] ensures Precedes(seed, docs[0], d) {
        var i :| 0 <= i < |docs| - 1 && docs[1..][i] == d;
        assert docs[i + 1] == d && ByRank(seed)(docs[0], d);
      }
      assert forall d :: d in Filtered(docs[1..], positive) ==> ByRank(seed)(docs[0], d);
    }
  }

  lemma {:induction false} GreedyOrdered(seed: Bytes, candidates: seq<Document>, used: set<Bytes>)
    requires Ordered(seed, candidates)
    ensures Ordered(seed, Greedy(candidates, used))
    decreases |candidates|
  {
    hide Precedes, TextHash;
    if |candidates| > 0 {
      var head, rest := candidates[0], candidates[1..];
      GreedyOrdered(seed, rest, used);
      GreedyOrdered(seed, rest, used + {TextHash(head)});
      GreedyTexts(rest, used + {TextHash(head)});
      forall d | d in rest ensures ByRank(seed)(head, d) {
        var i :| 0 <= i < |rest| && rest[i] == d;
        assert candidates[i + 1] == d;
      }
    }
  }

  // ---------- the selection ----------

  function PositivesOf(seed: Bytes, corpus: seq<Document>): seq<Document> {
    Filtered(Arranged(seed, corpus), true)
  }

  /** All fillers there are to choose from, in the order they are chosen. */
  function FillersOf(seed: Bytes, corpus: seq<Document>): seq<Document> {
    Greedy(Filtered(Arranged(seed, corpus), false), Hashes(PositivesOf(seed, corpus)))
  }

  /**
   * Exactly when selection succeeds. The last case is the one a caller might not expect: when the
   * positives already fill the large tier, one filler with a new text is enough to fail.
   */
  predicate Selectable(seed: Bytes, corpus: seq<Document>, positiveCount: nat, smallCount: nat, largeCount: nat) {
    var p, u := |PositivesOf(seed, corpus)|, |FillersOf(seed, corpus)|;
    && positiveCount <= smallCount && |corpus| >= largeCount
    && DistinctTexts(PositivesOf(seed, corpus))
    && p <= smallCount <= largeCount
    && if p < largeCount then p + u >= largeCount else u == 0
  }

  function FillerTier(k: nat, positives: nat, smallCount: nat): Tier {
    if positives + k < smallCount then Small else Large
  }

  function ForcedRows(docs: seq<Document>): seq<Row> {
    seq(|docs|, i requires 0 <= i < |docs| => Row(docs[i], Small, true))
  }

  function FillerRows(docs: seq<Document>, positives: nat, smallCount: nat): seq<Row> {
    seq(|docs|, k requires 0 <= k < |docs| => Row(docs[k], FillerTier(k, positives, smallCount), false))
  }

  /** How many fillers are taken: up to the large tier's size if there are enough, else all. */
  function Taken(p: nat, u: nat, largeCount: nat): (n: nat)
    ensures n <= u
  {
    if p < largeCount <= p + u then largeCount - p else u
  }

  /** The table of a successful selection. */
  function SelectedRows(seed: Bytes, corpus: seq<Document>, smallCount: nat, largeCount: nat): seq<Row> {
    var positives, fillers := PositivesOf(seed, corpus), FillersOf(seed, corpus);
    ForcedRows(positives)
    + FillerRows(fillers[..Taken(|positives|, |fillers|, largeCount)], |positives|, smallCount)
  }

  function SmallSelected(positives: nat, fillers: nat, smallCount: nat): nat {
    if positives >= smallCount then positives else Min(smallCount, positives + fillers)
  }

  type Groups = map<Bytes, seq<Bytes>>

  predicate Repeats(groups: Groups) {
    exists h :: h in groups && |groups[h]| > 1
  }

  function AddTo(groups: Groups, d: Document): Groups {
    groups[TextHash(d) := (if TextHash(d) in groups then groups[TextHash(d)] else []) + [d.id]]
  }

  /** The groups have a member each, and one has two exactly when a text repeats. */
  predicate Grouped(groups: Groups, docs: seq<Document>) {
    && groups.Keys == Hashes(docs) && (forall h :: h in groups ==> |groups[h]| > 0)
    && (Repeats(groups) <==> !DistinctTexts(docs))
    && (DistinctTexts(docs) ==> |groups.Keys| == |docs|)
  }

  lemma AddRepeats(groups: Groups, d: Document)
    requires forall h :: h in groups ==> |groups[h]| > 0
    ensures Repeats(AddTo(groups, d)) <==> Repeats(groups) || TextHash(d) in groups
  {
    hide TextHash;
    var more, h := AddTo(groups, d), TextHash(d);
    if h in groups {
      assert |more[h]| > 1;
    }
    if g :| g in groups && |groups[g]| > 1 {
      assert g in more && |more[g]| > 1;
    }
    if g :| g in more && |more[g]| > 1 {
      assert h !in groups ==> g != h && more[g] == groups[g];
    }
  }

  lemma GroupedMore(groups: Groups, docs: seq<Document>, d: Document)
    requires Grouped(groups, docs)
    ensures Grouped(AddTo(groups, d), docs + [d])
  {
    hide TextHash, Repeats, DistinctTexts, Hashes;
    AddRepeats(groups, d);
    GroupGrows(docs, d);
    assert AddTo(groups, d).Keys == groups.Keys + {TextHash(d)};
  }

  lemma NothingGrouped()
    ensures Grouped(map[], [])
  {
  }

  /** Positives grouped by text; a group of two is an error. */
  method CheckPositives(positives: seq<Document>) returns (distinct: bool)
    ensures distinct <==> DistinctTexts(positives)
    ensures distinct ==> |Hashes(positives)| == |positives|
  {
    hide TextHash, Repeats, DistinctTexts, Hashes, AddTo;
    var idsByText: Groups := map[];
    NothingGrouped();
    for i := 0 to |positives|
      invariant Grouped(idsByText, positives[..i])
    {
      GroupedMore(idsByText, positives[..i], positives[i]);
      assert positives[..i + 1] == positives[..i] + [positives[i]];
      idsByText := AddTo(idsByText, positives[i]);
    }
    assert positives[..|positives|] == positives;
    distinct := !Repeats(idsByText);
  }

  lemma GroupGrows(docs: seq<Document>, d: Document)
    ensures Hashes(docs + [d]) == Hashes(docs) + {TextHash(d)}
    ensures DistinctTexts(docs + [d]) <==> DistinctTexts(docs) && TextHash(d) !in Hashes(docs)
  {
    hide TextHash;
    var more := docs + [d];
    assert forall i :: 0 <= i < |docs| ==> more[i] == docs[i] && TextHash(docs[i]) in Hashes(docs);
    assert more[|docs|] == d;
    if TextHash(d) in Hashes(docs) {
      var e :| e in docs && TextHash(e) == TextHash(d);
      var i :| 0 <= i < |docs| && docs[i] == e;
      assert TextHash(more[i]) == TextHash(more[|docs|]);
    }
    if DistinctTexts(more) {
      forall i, j | 0 <= i < j < |docs| ensures TextHash(docs[i]) != TextHash(docs[j]) {
        assert TextHash(more[i]) != TextHash(more[j]);
      }
    }
  }

  /** Whether the counts the loop ends with are the requested ones. */
  lemma CountsDecide(p: nat, u: nat, smallCount: nat, largeCount: nat)
    ensures SmallSelected(p, Taken(p, u, largeCount), smallCount) == smallCount
            && p + Taken(p, u, largeCount) == largeCount <==>
              && p <= smallCount <= largeCount
              && if p < largeCount then p + u >= largeCount else u == 0
  {
  }

  lemma FillerRowsGrow(docs: seq<Document>, d: Document, p: nat, smallCount: nat)
    ensures FillerRows(docs + [d], p, smallCount)
            == FillerRows(docs, p, smallCount) + [Row(d, FillerTier(|docs|, p, smallCount), false)]
  {
  }

  lemma GreedyStep(candidates: seq<Document>, i: nat, used: set<Bytes>)
    requires i < |candidates|
    ensures Greedy(candidates[i..], used) ==
            if TextHash(candidates[i]) in used then Greedy(candidates[i + 1..], used)
            else [candidates[i]] + Greedy(candidates[i + 1..], used + {TextHash(candidates[i])})
  {
    hide TextHash;
    assert candidates[i..][0] == candidates[i] && candidates[i..][1..] == candidates[i + 1..];
  }

  lemma GreedyEnd(candidates: seq<Document>, used: set<Bytes>)
    ensures Greedy(candidates[|candidates|..], used) == []
  {
  }

  /** The loop stops with the large tier just filled or with nothing left to choose. */
  lemma ChosenAreTaken(p: nat, fillers: seq<Document>, chosen: seq<Document>, rest: seq<Document>, largeCount: nat)
    requires fillers == chosen + rest && (p < largeCount ==> p + |chosen| <= largeCount)
    requires rest == [] || (|chosen| > 0 && p + |chosen| == largeCount)
    ensures |chosen| == Taken(p, |fillers|, largeCount) && fillers[..|chosen|] == chosen
  {
  }

  /** The chosen fillers, in order, until the large tier is full; rows go to the table in batches. */
  method ChooseFillers(candidates: seq<Document>, positives: seq<Document>, smallCount: nat, largeCount: nat)
    returns (rows: seq<Row>, selectedSmall: nat, selectedLarge: nat)
    requires |Hashes(positives)| == |positives|
    ensures var fillers := Greedy(candidates, Hashes(positives));
            var taken := Taken(|positives|, |fillers|, largeCount);
            && rows == FillerRows(fillers[..taken], |positives|, smallCount)
            && selectedSmall == SmallSelected(|positives|, taken, smallCount) && selectedLarge == |positives| + taken
  {
    hide TextHash, Greedy, FillerRows, Hashes, SmallSelected, FillerTier, Taken;
    var used := Hashes(positives);
    ghost var p, fillers, chosen: seq<Document> := |positives|, Greedy(candidates, used), [];
    var pending: seq<Row> := [];
    rows, selectedSmall, selectedLarge := [], |positives|, |positives|;
    NoFillerRows(p, smallCount);
    var i := 0;
    assert candidates[0..] == candidates;
    while i < |candidates|
      invariant i <= |candidates| && fillers == chosen + Greedy(candidates[i..], used)
      invariant rows + pending == FillerRows(chosen, p, smallCount)
      invariant selectedSmall == SmallSelected(p, |chosen|, smallCount)
      invariant selectedLarge == |used| == p + |chosen|
      invariant chosen == [] || selectedLarge != largeCount
      invariant p < largeCount ==> selectedLarge <= largeCount
    {
      var candidate := candidates[i];
      var digest := TextHash(candidate);
      GreedyStep(candidates, i, used);
      i := i + 1;
      if digest !in used {
        used := used + {digest};
        var tier := if selectedSmall < smallCount then Small else Large;
        pending := pending + [Row(candidate, tier, false)];
        FillerRowsGrow(chosen, candidate, p, smallCount);
        SmallStep(p, |chosen|, smallCount);
        Associative(chosen, [candidate], Greedy(candidates[i..], used));
        chosen := chosen + [candidate];
        if tier.Small? {
          selectedSmall := selectedSmall + 1;
        }
        selectedLarge := selectedLarge + 1;
        if |pending| >= SQL_BATCH_ROWS {
          rows, pending := rows + pending, [];
        }
        if selectedLarge == largeCount {
          break;
        }
      }
    }
    GreedyEnd(candidates, used);
    rows := rows + pending;
    ChosenAreTaken(p, fillers, chosen, Greedy(candidates[i..], used), largeCount);
  }

  lemma NoFillerRows(p: nat, smallCount: nat)
    ensures FillerRows([], p, smallCount) == [] && SmallSelected(p, 0, smallCount) == p
  {
  }

  lemma SmallStep(p: nat, n: nat, smallCount: nat)
    ensures FillerTier(n, p, smallCount) == if SmallSelected(p, n, smallCount) < smallCount then Small else Large
    ensures SmallSelected(p, n + 1, smallCount)
            == SmallSelected(p, n, smallCount) + if FillerTier(n, p, smallCount).Small? then 1 else 0
  {
  }

  /**
   * Selection succeeds exactly when `Selectable` says so, and the table then holds exactly those rows.
   * Otherwise the counts given are judged first, then the texts of the positives, then what was found.
   */
  method SelectDocuments(seed: Bytes, corpus: seq<Document>, positiveCount: nat, smallCount: nat, largeCount: nat)
    returns (selected: Result<seq<Row>, Error>)
    ensures selected.Ok? <==> Selectable(seed, corpus, positiveCount, smallCount, largeCount)
    ensures selected.Ok? ==> selected.value == SelectedRows(seed, corpus, smallCount, largeCount)
    ensures selected.Err? ==>
              selected.error == if positiveCount > smallCount then PositivesDoNotFit
                                else if |corpus| < largeCount then CorpusTooSmall
                                else if !DistinctTexts(PositivesOf(seed, corpus)) then PositivesReuseText
                                else NotEnoughUniqueDocuments
  {
    hide TextHash, Greedy, FillerRows, ForcedRows, Filtered, Arranged, DistinctTexts, Hashes;
    if positiveCount > smallCount {
      return Err(PositivesDoNotFit);
    }
    if |corpus| < largeCount {
      return Err(CorpusTooSmall);
    }
    var positives := PositivesOf(seed, corpus);
    var distinct := CheckPositives(positives);
    if !distinct {
      return Err(PositivesReuseText);
    }
    var candidates := Filtered(Arranged(seed, corpus), false);
    var rows, small, large := ChooseFillers(candidates, positives, smallCount, largeCount);
    ghost var fillers := FillersOf(seed, corpus);
    CountsDecide(|positives|, |fillers|, smallCount, largeCount);
    if small != smallCount || large != largeCount {
      return Err(NotEnoughUniqueDocuments);
    }
    selected := Ok(ForcedRows(positives) + rows);
  }

  // ---------- what was selected ----------

  function DocumentsIn(rows: seq<Row>, tier: Tier): seq<Document>
    decreases |rows|
  {
    if |rows| == 0 then []
    else (if rows[0].tier == tier then [rows[0].document] else []) + DocumentsIn(rows[1..], tier)
  }

  lemma {:induction false} DocumentsInBoth(a: seq<Row>, b: seq<Row>, tier: Tier)
    ensures DocumentsIn(a + b, tier) == DocumentsIn(a, tier) + DocumentsIn(b, tier)
    decreases |a|
  {
    if |a| == 0 {
      assert a + b == b;
    } else {
      DocumentsInBoth(a[1..], b, tier);
      assert (a + b)[1..] == a[1..] + b && (a + b)[0] == a[0];
      Associative(if a[0].tier == tier then [a[0].document] else [], DocumentsIn(a[1..], tier), DocumentsIn(b, tier));
    }
  }

  lemma {:induction false} OneTier(rows: seq<Row>, docs: seq<Document>, tier: Tier, other: Tier)
    requires |rows| == |docs| && tier != other
    requires forall i :: 0 <= i < |rows| ==> rows[i].document == docs[i] && rows[i].tier == tier
    ensures DocumentsIn(rows, tier) == docs && DocumentsIn(rows, other) == []
    decreases |rows|
  {
    if |rows| > 0 {
      OneTier(rows[1..], docs[1..], tier, other);
      assert docs == [docs[0]] + docs[1..];
    }
  }

  /** The small tier: every positive, and the first fillers up to the size asked for. */
  function SmallDocuments(seed: Bytes, corpus: seq<Document>, smallCount: nat): seq<Document>
    requires |PositivesOf(seed, corpus)| <= smallCount <= |PositivesOf(seed, corpus)| + |FillersOf(seed, corpus)|
  {
    PositivesOf(seed, corpus) + FillersOf(seed, corpus)[..smallCount - |PositivesOf(seed, corpus)|]
  }

  /** What the large tier adds: the fillers that come next. */
  function LargeDocuments(seed: Bytes, corpus: seq<Document>, smallCount: nat, largeCount: nat): seq<Document>
    requires |PositivesOf(seed, corpus)| <= smallCount <= largeCount
    requires largeCount <= |PositivesOf(seed, corpus)| + |FillersOf(seed, corpus)|
  {
    var p := |PositivesOf(seed, corpus)|;
    FillersOf(seed, corpus)[smallCount - p..largeCount - p]
  }

  lemma TiersOfRows(positives: seq<Document>, fillers: seq<Document>, smallCount: nat)
    requires |positives| <= smallCount <= |positives| + |fillers|
    ensures var rows := ForcedRows(positives) + FillerRows(fillers, |positives|, smallCount);
            && DocumentsIn(rows, Small) == positives + fillers[..smallCount - |positives|]
            && DocumentsIn(rows, Large) == fillers[smallCount - |positives|..]
  {
    var n := smallCount - |positives|;
    var forced, fill := ForcedRows(positives), FillerRows(fillers, |positives|, smallCount);
    hide DocumentsIn;
    OneTier(forced, positives, Small, Large);
    OneTier(fill[..n], fillers[..n], Small, Large);
    OneTier(fill[n..], fillers[n..], Large, Small);
    assert fill == fill[..n] + fill[n..];
    DocumentsInBoth(fill[..n], fill[n..], Small);
    DocumentsInBoth(fill[..n], fill[n..], Large);
    DocumentsInBoth(forced, fill, Small);
    DocumentsInBoth(forced, fill, Large);
  }

  lemma SelectableCounts(seed: Bytes, corpus: seq<Document>, positiveCount: nat, smallCount: nat, largeCount: nat)
    requires Selectable(seed, corpus, positiveCount, smallCount, largeCount)
    ensures |PositivesOf(seed, corpus)| <= smallCount <= largeCount
    ensures largeCount <= |PositivesOf(seed, corpus)| + |FillersOf(seed, corpus)|
  {
    hide PositivesOf, FillersOf;
  }

  /** The table splits into the two tiers. */
  lemma SelectedTiers(seed: Bytes, corpus: seq<Document>, positiveCount: nat, smallCount: nat, largeCount: nat)
    requires Selectable(seed, corpus, positiveCount, smallCount, largeCount)
    ensures |PositivesOf(seed, corpus)| <= smallCount <= largeCount
    ensures largeCount <= |PositivesOf(seed, corpus)| + |FillersOf(seed, corpus)|
    ensures var rows := SelectedRows(seed, corpus, smallCount, largeCount);
            && |rows| == largeCount
            && DocumentsIn(rows, Small) == SmallDocuments(seed, corpus, smallCount)
            && DocumentsIn(rows, Large) == LargeDocuments(seed, corpus, smallCount, largeCount)
  {
    SelectableCounts(seed, corpus, positiveCount, smallCount, largeCount);
    hide PositivesOf, FillersOf, DocumentsIn;
    var positives, fillers := PositivesOf(seed, corpus), FillersOf(seed, corpus);
    var chosen := fillers[..largeCount - |positives|];
    TiersOfRows(positives, chosen, smallCount);
    assert chosen[..smallCount - |positives|] == fillers[..smallCount - |positives|];
    assert chosen[smallCount - |positives|..] == LargeDocuments(seed, corpus, smallCount, largeCount);
  }

  lemma SelectedDocuments(seed: Bytes, corpus: seq<Document>, smallCount: nat, largeCount: nat)
    requires |PositivesOf(seed, corpus)| <= smallCount <= largeCount
    requires largeCount <= |PositivesOf(seed, corpus)| + |FillersOf(seed, corpus)|
    ensures SmallDocuments(seed, corpus, smallCount) + LargeDocuments(seed, corpus, smallCount, largeCount)
            == PositivesOf(seed, corpus) + FillersOf(seed, corpus)[..largeCount - |PositivesOf(seed, corpus)|]
  {
    hide PositivesOf, FillersOf;
  }

  lemma ChoicesAreSound(seed: Bytes, corpus: seq<Document>)
    ensures forall d :: d in PositivesOf(seed, corpus) <==> d in corpus && d.positive
    ensures forall d :: d in FillersOf(seed, corpus) ==> d in corpus && !d.positive
    ensures DistinctTexts(FillersOf(seed, corpus))
    ensures Hashes(PositivesOf(seed, corpus)) !! Hashes(FillersOf(seed, corpus))
  {
    hide Filtered, TextHash, Arranged, Greedy, DistinctTexts, Hashes;
    var arranged := Arranged(seed, corpus);
    SameMembers(seed, corpus);
    FilteredMembers(arranged, true);
    FilteredMembers(arranged, false);
    GreedyTexts(Filtered(arranged, false), Hashes(PositivesOf(seed, corpus)));
  }

  /** No positive has the document's text, and any filler that has it comes later in the ranking. */
  predicate FirstWithText(seed: Bytes, corpus: seq<Document>, d: Document) {
    forall e :: e in corpus && e != d && TextHash(e) == TextHash(d) ==> !e.positive && Precedes(seed, d, e)
  }

  /** What may be chosen is settled by the corpus alone: of every unused text, the first filler in rank order. */
  lemma FillersAreFirst(seed: Bytes, corpus: seq<Document>, d: Document)
    requires DistinctIds(corpus) && d in corpus && !d.positive
    ensures d in FillersOf(seed, corpus) <==> FirstWithText(seed, corpus, d)
  {
    hide TextHash, Arranged, Filtered, Greedy, DistinctIds, Ordered, Hashes, FirstWithText, NewAt;
    var candidates := Filtered(Arranged(seed, corpus), false);
    ArrangedIds(seed, corpus);
    ArrangedOrders(seed, corpus);
    SameMembers(seed, corpus);
    FilteredIds(Arranged(seed, corpus), false);
    FilteredOrdered(seed, Arranged(seed, corpus), false);
    FilteredMembers(Arranged(seed, corpus), false);
    FilteredMembers(Arranged(seed, corpus), true);
    var i :| 0 <= i < |candidates| && candidates[i] == d;
    GreedyIsFirst(candidates, Hashes(PositivesOf(seed, corpus)), i);
    NewIsFirst(seed, corpus, PositivesOf(seed, corpus), candidates, i);
  }

  lemma NewIsFirst(seed: Bytes, corpus: seq<Document>, positives: seq<Document>, candidates: seq<Document>, i: nat)
    requires i < |candidates| && DistinctIds(candidates) && Ordered(seed, candidates)
    requires forall d :: d in positives <==> d in corpus && d.positive
    requires forall d :: d in candidates <==> d in corpus && !d.positive
    ensures NewAt(candidates, Hashes(positives), i) <==> FirstWithText(seed, corpus, candidates[i])
  {
    hide TextHash, Precedes;
    var d := candidates[i];
    if NewAt(candidates, Hashes(positives), i) {
      forall e | e in corpus && e != d && TextHash(e) == TextHash(d) ensures !e.positive && Precedes(seed, d, e) {
        assert e in positives ==> TextHash(e) in Hashes(positives);
        var j :| 0 <= j < |candidates| && candidates[j] == e;
        assert ByRank(seed)(candidates[i], candidates[j]);
      }
    }
    if FirstWithText(seed, corpus, d) {
      forall j | 0 <= j < i ensures TextHash(candidates[j]) != TextHash(d) {
        assert candidates[j] in candidates && ByRank(seed)(candidates[j], candidates[i]);
        PrecedesTotal(seed, candidates[j], d);
      }
      assert d in candidates;
    }
  }

  /** Every positive is in the small tier, and nothing in either tier repeats a text. */
  lemma TiersAreSound(seed: Bytes, corpus: seq<Document>, positiveCount: nat, smallCount: nat, largeCount: nat)
    requires Selectable(seed, corpus, positiveCount, smallCount, largeCount)
    ensures |PositivesOf(seed, corpus)| <= smallCount <= largeCount
    ensures largeCount <= |PositivesOf(seed, corpus)| + |FillersOf(seed, corpus)|
    ensures forall d :: d in corpus && d.positive ==> d in SmallDocuments(seed, corpus, smallCount)
    ensures var all := SmallDocuments(seed, corpus, smallCount)
                       + LargeDocuments(seed, corpus, smallCount, largeCount);
            DistinctTexts(all) && forall d :: d in all ==> d in corpus
  {
    hide *;
    SelectableCounts(seed, corpus, positiveCount, smallCount, largeCount);
    PositivesStaySmall(seed, corpus, smallCount);
    SelectedDocuments(seed, corpus, smallCount, largeCount);
    ChosenAreSound(seed, corpus, positiveCount, smallCount, largeCount);
  }

  lemma PositivesStaySmall(seed: Bytes, corpus: seq<Document>, smallCount: nat)
    requires |PositivesOf(seed, corpus)| <= smallCount <= |PositivesOf(seed, corpus)| + |FillersOf(seed, corpus)|
    ensures forall d :: d in corpus && d.positive ==> d in SmallDocuments(seed, corpus, smallCount)
  {
    hide PositivesOf, FillersOf, DistinctTexts, Hashes;
    ChoicesAreSound(seed, corpus);
  }

  lemma ChosenAreSound(seed: Bytes, corpus: seq<Document>, positiveCount: nat, smallCount: nat, largeCount: nat)
    requires Selectable(seed, corpus, positiveCount, smallCount, largeCount)
    ensures |PositivesOf(seed, corpus)| <= largeCount <= |PositivesOf(seed, corpus)| + |FillersOf(seed, corpus)|
    ensures var all := PositivesOf(seed, corpus)
                       + FillersOf(seed, corpus)[..largeCount - |PositivesOf(seed, corpus)|];
            DistinctTexts(all) && forall d :: d in all ==> d in corpus
  {
    SelectableCounts(seed, corpus, positiveCount, smallCount, largeCount);
    hide PositivesOf, FillersOf, DistinctTexts, Hashes;
    ChoicesAreSound(seed, corpus);
    DistinctTogether(PositivesOf(seed, corpus), FillersOf(seed, corpus), largeCount - |PositivesOf(seed, corpus)|);
  }

  lemma SameMembers(seed: Bytes, corpus: seq<Document>)
    ensures forall d :: d in Arranged(seed, corpus) <==> d in corpus
  {
    hide Arranged;
    ArrangedOrders(seed, corpus);
    assert forall d :: d in corpus <==> d in multiset(corpus);
    assert forall d :: d in Arranged(seed, corpus) <==> d in multiset(Arranged(seed, corpus));
  }

  lemma DistinctTogether(a: seq<Document>, b: seq<Document>, n: nat)
    requires DistinctTexts(a) && DistinctTexts(b) && Hashes(a) !! Hashes(b) && n <= |b|
    ensures DistinctTexts(a + b[..n])
  {
    hide TextHash;
    var both := a + b[..n];
    forall i, j | 0 <= i < j < |both| ensures TextHash(both[i]) != TextHash(both[j]) {
      if i < |a| <= j {
        assert TextHash(both[i]) in Hashes(a) && TextHash(both[j]) in Hashes(b);
      }
    }
  }

  // ---------- what does not matter ----------

  /** The order of the corpus lines changes nothing. */
  lemma SelectionIgnoresOrder(seed: Bytes, a: seq<Document>, b: seq<Document>, positiveCount: nat, smallCount: nat,
                              largeCount: nat)
    requires DistinctIds(a) && multiset(a) == multiset(b)
    ensures Selectable(seed, a, positiveCount, smallCount, largeCount)
            == Selectable(seed, b, positiveCount, smallCount, largeCount)
    ensures SelectedRows(seed, a, smallCount, largeCount) == SelectedRows(seed, b, smallCount, largeCount)
  {
    hide Filtered, Greedy, Hashes, DistinctTexts, Arranged;
    ArrangedIgnoresOrder(seed, a, b);
    SameSize(a, b);
  }

  /** With a larger large tier, as the command line demands, success needs just enough distinct texts. */
  lemma SelectableIffEnoughTexts(seed: Bytes, corpus: seq<Document>, positiveCount: nat, smallCount: nat,
                                 largeCount: nat)
    requires smallCount < largeCount
    ensures Selectable(seed, corpus, positiveCount, smallCount, largeCount) <==>
              && positiveCount <= smallCount && |PositivesOf(seed, corpus)| <= smallCount
              && |corpus| >= largeCount && DistinctTexts(PositivesOf(seed, corpus))
              && |Hashes(corpus)| >= largeCount
  {
    hide PositivesOf, FillersOf, Hashes, DistinctTexts;
    if DistinctTexts(PositivesOf(seed, corpus)) {
      TextsCounted(seed, corpus);
    }
  }

  lemma {:induction false} DistinctCount(docs: seq<Document>)
    requires DistinctTexts(docs)
    ensures |Hashes(docs)| == |docs|
    decreases |docs|
  {
    hide TextHash;
    if |docs| == 0 {
      assert Hashes(docs) == {};
    } else {
      var rest, d := docs[..|docs| - 1], docs[|docs| - 1];
      assert docs == rest + [d];
      GroupGrows(rest, d);
      DistinctCount(rest);
    }
  }

  lemma {:induction false} FilteredHashes(docs: seq<Document>)
    ensures Hashes(Filtered(docs, true)) + Hashes(Filtered(docs, false)) == Hashes(docs)
  {
    hide TextHash, Filtered;
    FilteredMembers(docs, true);
    FilteredMembers(docs, false);
  }

  lemma TextsCounted(seed: Bytes, corpus: seq<Document>)
    requires DistinctTexts(PositivesOf(seed, corpus))
    ensures |Hashes(corpus)| == |PositivesOf(seed, corpus)| + |FillersOf(seed, corpus)|
  {
    hide TextHash, Filtered, Arranged, Greedy, DistinctTexts, Hashes;
    var arranged, positives := Arranged(seed, corpus), PositivesOf(seed, corpus);
    var others, fillers := Filtered(arranged, false), FillersOf(seed, corpus);
    GreedyTexts(others, Hashes(positives));
    DistinctCount(positives);
    DistinctCount(fillers);
    FilteredHashes(arranged);
    ArrangedHashes(seed, corpus);
    assert |Hashes(positives) + Hashes(fillers)| == |Hashes(positives)| + |Hashes(fillers)|;
    assert Hashes(corpus) == Hashes(positives) + Hashes(fillers);
  }

  lemma ArrangedHashes(seed: Bytes, corpus: seq<Document>)
    ensures Hashes(Arranged(seed, corpus)) == Hashes(corpus)
  {
    hide TextHash, Arranged;
    SameMembers(seed, corpus);
  }
}
