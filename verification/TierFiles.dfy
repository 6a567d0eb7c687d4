/**
 * The four files of the two tiers: written in rank order from the table of selected documents, the
 * small ones the beginning of the large ones, every line of identifiers numbered.
 */
module TierFiles {
  import opened Bytes
  import opened DocumentOrder
  import opened Outcomes
  import opened Sequences
  import opened TierSelection
  import Sha256

  type Line = Bytes

  /** The four files, line by line, without the line ends. */
  datatype Files = Files(smallDocuments: seq<Line>, smallIds: seq<Line>, largeDocuments: seq<Line>,
                         largeIds: seq<Line>)

  function Decimal(n: nat): Bytes {
    if n < 10 then [48 + n] else Decimal(n / 10) + [48 + n % 10]
  }

  // ---------- numbered lines ----------

  predicate IsDecimal(digits: Bytes) {
    |digits| > 0 && (|digits| > 1 ==> digits[0] != 48) && forall i :: 0 <= i < |digits| ==> 48 <= digits[i] < 58
  }

  /** What decimal digits read as. */
  function ReadDecimal(digits: Bytes): nat
    requires forall i :: 0 <= i < |digits| ==> 48 <= digits[i] < 58
  {
    if |digits| == 0 then 0
    else 10 * ReadDecimal(digits[..|digits| - 1]) + ((digits[|digits| - 1] as int) - 48)
  }

  lemma {:induction false} DecimalReads(n: nat)
    ensures IsDecimal(Decimal(n)) && ReadDecimal(Decimal(n)) == n
    ensures n > 0 ==> Decimal(n)[0] != 48
    decreases n
  {
    if n >= 10 {
      DecimalReads(n / 10);
      assert Decimal(n)[..|Decimal(n)| - 1] == Decimal(n / 10);
    } else {
      assert Decimal(n)[..0] == [];
    }
  }

  /** A line of the position in decimal, a tab and the identifier. */
  predicate IsNumbered(line: Line, position: nat, id: Bytes) {
    exists n :: 0 < n < |line| && IsDecimal(line[..n]) && ReadDecimal(line[..n]) == position
      && line[n] == 9 && line[n + 1..] == id
  }

  lemma IdLineIsNumbered(position: nat, d: Document)
    ensures IsNumbered(IdLine(position, d), position, d.id)
  {
    DecimalReads(position);
    var line, n := IdLine(position, d), |Decimal(position)|;
    assert line[..n] == Decimal(position) && line[n + 1..] == d.id;
  }

  function IdLine(position: nat, d: Document): Line {
    Decimal(position) + [9] + d.id
  }

  function Texts(docs: seq<Document>): (lines: seq<Line>)
    ensures |lines| == |docs|
  {
    seq(|docs|, i requires 0 <= i < |docs| => docs[i].text)
  }

  function IdLines(docs: seq<Document>): (lines: seq<Line>)
    ensures |lines| == |docs|
  {
    seq(|docs|, i requires 0 <= i < |docs| => IdLine(i, docs[i]))
  }

  /** The table in file order: the small tier before the large one, each in rank order. */
  function FileOrder(seed: Bytes, rows: seq<Row>): seq<Document> {
    Arranged(seed, DocumentsIn(rows, Small)) + Arranged(seed, DocumentsIn(rows, Large))
  }

  /** Every row goes to the large files, and the first `smallCount` to the small ones too. */
  method WriteDocuments(seed: Bytes, rows: seq<Row>, smallCount: nat, largeCount: nat)
    returns (files: Result<Files, Error>)
    ensures files.Ok? <==> |FileOrder(seed, rows)| == largeCount && smallCount <= largeCount
    ensures files.Err? ==>
              files.error == if |FileOrder(seed, rows)| > largeCount then ExceedsLargeTier else WrongLineCount
    ensures files.Ok? ==>
              && files.value.largeDocuments == Texts(FileOrder(seed, rows))
              && files.value.largeIds == IdLines(FileOrder(seed, rows))
              && files.value.smallDocuments == files.value.largeDocuments[..smallCount]
              && files.value.smallIds == files.value.largeIds[..smallCount]
  {
    hide FileOrder, IdLine;
    var ordered := FileOrder(seed, rows);
    var f := Files([], [], [], []);
    for position := 0 to |ordered|
      invariant position <= largeCount
      invariant f.largeDocuments == Texts(ordered)[..position] && f.largeIds == IdLines(ordered)[..position]
      invariant f.smallDocuments == Texts(ordered)[..Min(position, smallCount)]
      invariant f.smallIds == IdLines(ordered)[..Min(position, smallCount)]
    {
      if position >= largeCount {
        return Err(ExceedsLargeTier);
      }
      var text, idLine := ordered[position].text, IdLine(position, ordered[position]);
      f := f.(largeDocuments := f.largeDocuments + [text], largeIds := f.largeIds + [idLine]);
      if position < smallCount {
        f := f.(smallDocuments := f.smallDocuments + [text], smallIds := f.smallIds + [idLine]);
      }
    }
    if |f.largeDocuments| != largeCount || |f.smallDocuments| != smallCount {
      return Err(WrongLineCount);
    }
    files := Ok(f);
  }

  /** Accepts exactly a non-empty file whose lines the larger one begins with. */
  method VerifyPrefix(smaller: seq<Line>, larger: seq<Line>) returns (problem: Option<Error>)
    ensures problem.None? <==> |smaller| > 0 && smaller <= larger
    ensures problem.Some? ==> problem.value == if |smaller| == 0 then EmptyTier else NotAPrefix
  {
    for i := 0 to |smaller|
      invariant i <= |larger| && smaller[..i] == larger[..i]
    {
      if i >= |larger| || smaller[i] != larger[i] {
        return Some(NotAPrefix);
      }
    }
    if |smaller| == 0 {
      return Some(EmptyTier);
    }
    problem := None;
  }

  /** The documents of the small files, whatever the large tier. */
  function SmallFileOrder(seed: Bytes, corpus: seq<Document>, smallCount: nat): seq<Document>
    requires |PositivesOf(seed, corpus)| <= smallCount <= |PositivesOf(seed, corpus)| + |FillersOf(seed, corpus)|
  {
    Arranged(seed, SmallDocuments(seed, corpus, smallCount))
  }

  lemma FileOrderNests(seed: Bytes, corpus: seq<Document>, positiveCount: nat, smallCount: nat, largeCount: nat)
    requires Selectable(seed, corpus, positiveCount, smallCount, largeCount)
    ensures |PositivesOf(seed, corpus)| <= smallCount <= |PositivesOf(seed, corpus)| + |FillersOf(seed, corpus)|
    ensures var all := FileOrder(seed, SelectedRows(seed, corpus, smallCount, largeCount));
            && |all| == largeCount && smallCount <= largeCount
            && all[..smallCount] == SmallFileOrder(seed, corpus, smallCount)
  {
    hide PositivesOf, FillersOf, Selectable, SelectedRows, DocumentsIn, Arranged;
    SelectedTiers(seed, corpus, positiveCount, smallCount, largeCount);
    var small := SmallDocuments(seed, corpus, smallCount);
    var large := LargeDocuments(seed, corpus, smallCount, largeCount);
    ArrangedOrders(seed, small);
    ArrangedOrders(seed, large);
    SameSize(small, Arranged(seed, small));
    SameSize(large, Arranged(seed, large));
  }

  // ---------- what is selected, in terms of the corpus ----------

  predicate InRankOrder(seed: Bytes, docs: seq<Document>) {
    forall i, j :: 0 <= i < j < |docs| ==> RanksBefore(seed, docs[i], docs[j])
  }

  predicate TextsDiffer(docs: seq<Document>) {
    forall i, j :: 0 <= i < j < |docs| ==> Sha256.Hash(docs[i].text) != Sha256.Hash(docs[j].text)
  }

  /** A filler whose text no positive has and no filler that ranks before it. */
  predicate MayBeChosen(seed: Bytes, corpus: seq<Document>, d: Document) {
    && d in corpus && !d.positive
    && forall e :: e in corpus && e != d && Sha256.Hash(e.text) == Sha256.Hash(d.text) ==>
         !e.positive && RanksBefore(seed, d, e)
  }

  /** The fillers among these rank before whatever else may be chosen and is not taken. */
  predicate AheadOfRest(seed: Bytes, corpus: seq<Document>, docs: seq<Document>, taken: seq<Document>) {
    forall d, e :: d in docs && !d.positive && e in corpus && e !in taken && MayBeChosen(seed, corpus, e) ==>
      RanksBefore(seed, d, e)
  }

  /**
   * Each tier in rank order and no text twice; every positive is in the small tier, all fillers may
   * be chosen, and the small tier has the first of those, what the large one adds the next.
   */
  predicate IsSelection(seed: Bytes, corpus: seq<Document>, small: seq<Document>, added: seq<Document>) {
    && InRankOrder(seed, small) && InRankOrder(seed, added) && TextsDiffer(small + added)
    && (forall d :: d in small ==> d in corpus && (d.positive || MayBeChosen(seed, corpus, d)))
    && (forall d :: d in added ==> MayBeChosen(seed, corpus, d))
    && (forall d :: d in corpus && d.positive ==> d in small)
    && AheadOfRest(seed, corpus, small, small) && AheadOfRest(seed, corpus, added, small + added)
  }

  lemma ChosenExactly(seed: Bytes, corpus: seq<Document>, d: Document)
    requires DistinctIds(corpus)
    ensures d in FillersOf(seed, corpus) <==> MayBeChosen(seed, corpus, d)
  {
    hide FillersOf, Sha256.Hash, RanksBefore, Precedes, DistinctIds, DistinctTexts, PositivesOf, Hashes;
    ChoicesAreSound(seed, corpus);
    if d in corpus && !d.positive {
      FillersAreFirst(seed, corpus, d);
      forall e ensures Precedes(seed, d, e) <==> RanksBefore(seed, d, e) {
        PrecedesIsRank(seed, d, e);
      }
    }
  }

  lemma FillersRanked(seed: Bytes, corpus: seq<Document>, i: nat, j: nat)
    requires i < j < |FillersOf(seed, corpus)|
    ensures RanksBefore(seed, FillersOf(seed, corpus)[i], FillersOf(seed, corpus)[j])
  {
    hide Arranged, Filtered, Greedy, Hashes, RanksBefore, Precedes;
    ArrangedOrders(seed, corpus);
    FilteredOrdered(seed, Arranged(seed, corpus), false);
    GreedyOrdered(seed, Filtered(Arranged(seed, corpus), false), Hashes(PositivesOf(seed, corpus)));
    assert ByRank(seed)(FillersOf(seed, corpus)[i], FillersOf(seed, corpus)[j]);
    PrecedesIsRank(seed, FillersOf(seed, corpus)[i], FillersOf(seed, corpus)[j]);
  }

  lemma ArrangedInRankOrder(seed: Bytes, docs: seq<Document>)
    ensures InRankOrder(seed, Arranged(seed, docs)) && forall d :: d in Arranged(seed, docs) <==> d in docs
  {
    hide Arranged, RanksBefore, Precedes;
    ArrangedOrders(seed, docs);
    SameMembers(seed, docs);
    var s := Arranged(seed, docs);
    forall i, j | 0 <= i < j < |s| ensures RanksBefore(seed, s[i], s[j]) {
      assert ByRank(seed)(s[i], s[j]);
      PrecedesIsRank(seed, s[i], s[j]);
    }
  }

  lemma TextsStillDiffer(a: seq<Document>, b: seq<Document>)
    requires DistinctTexts(a) && multiset(a) == multiset(b)
    ensures TextsDiffer(b)
  {
    hide Sha256.Hash;
    StillDifferent(a, b);
    forall i, j | 0 <= i < j < |b| ensures Sha256.Hash(b[i].text) != Sha256.Hash(b[j].text) {
      assert b[i] in multiset(b) && b[j] in multiset(b);
      assert b[i] in a && b[j] in a && b[i] != b[j];
    }
  }

  /** The fillers of the small tier come before all others that may be chosen, those added before the rest. */
  lemma FirstFillers(seed: Bytes, corpus: seq<Document>, n: nat, d: Document, e: Document)
    requires DistinctIds(corpus) && n <= |FillersOf(seed, corpus)|
    requires d in FillersOf(seed, corpus)[..n] && e !in FillersOf(seed, corpus)[..n]
    requires MayBeChosen(seed, corpus, e)
    ensures RanksBefore(seed, d, e)
  {
    hide FillersOf, MayBeChosen, RanksBefore, DistinctIds;
    ChosenExactly(seed, corpus, e);
    var f := FillersOf(seed, corpus);
    var i :| 0 <= i < n && f[..n][i] == d;
    var j :| 0 <= j < |f| && f[j] == e;
    assert forall c :: 0 <= c < n ==> f[..n][c] == f[c];
    FillersRanked(seed, corpus, i, j);
  }

  lemma SelectionIs(seed: Bytes, corpus: seq<Document>, positiveCount: nat, smallCount: nat, largeCount: nat)
    requires DistinctIds(corpus) && Selectable(seed, corpus, positiveCount, smallCount, largeCount)
    ensures smallCount <= largeCount
    ensures var order := FileOrder(seed, SelectedRows(seed, corpus, smallCount, largeCount));
            |order| == largeCount && IsSelection(seed, corpus, order[..smallCount], order[smallCount..])
  {
    hide PositivesOf, FillersOf, Selectable, SelectedRows, DocumentsIn, Arranged, MayBeChosen, RanksBefore, DistinctIds,
      DistinctTexts, Hashes, TextsDiffer, InRankOrder, AheadOfRest;
    SelectedTiers(seed, corpus, positiveCount, smallCount, largeCount);
    FileOrderNests(seed, corpus, positiveCount, smallCount, largeCount);
    var s, l := SmallDocuments(seed, corpus, smallCount), LargeDocuments(seed, corpus, smallCount, largeCount);
    var order := FileOrder(seed, SelectedRows(seed, corpus, smallCount, largeCount));
    var small, added := order[..smallCount], order[smallCount..];
    assert small == Arranged(seed, s) && added == Arranged(seed, l);
    ArrangedInRankOrder(seed, s);
    ArrangedInRankOrder(seed, l);
    SameRest(seed, corpus, s, l, small, added);
    SelectionTexts(seed, corpus, positiveCount, smallCount, largeCount);
    SelectionMembers(seed, corpus, smallCount, largeCount);
  }

  lemma SameRest(seed: Bytes, corpus: seq<Document>, s: seq<Document>, l: seq<Document>, small: seq<Document>,
      added: seq<Document>)
    requires (forall d :: d in small <==> d in s) && forall d :: d in added <==> d in l
    ensures AheadOfRest(seed, corpus, s, s) ==> AheadOfRest(seed, corpus, small, small)
    ensures AheadOfRest(seed, corpus, l, s + l) ==> AheadOfRest(seed, corpus, added, small + added)
  {
    hide MayBeChosen, RanksBefore;
  }

  lemma SelectionTexts(seed: Bytes, corpus: seq<Document>, positiveCount: nat, smallCount: nat, largeCount: nat)
    requires Selectable(seed, corpus, positiveCount, smallCount, largeCount)
    ensures |PositivesOf(seed, corpus)| <= smallCount <= largeCount
    ensures largeCount <= |PositivesOf(seed, corpus)| + |FillersOf(seed, corpus)|
    ensures TextsDiffer(Arranged(seed, SmallDocuments(seed, corpus, smallCount))
                        + Arranged(seed, LargeDocuments(seed, corpus, smallCount, largeCount)))
  {
    hide *;
    SelectableCounts(seed, corpus, positiveCount, smallCount, largeCount);
    TiersAreSound(seed, corpus, positiveCount, smallCount, largeCount);
    var s, l := SmallDocuments(seed, corpus, smallCount), LargeDocuments(seed, corpus, smallCount, largeCount);
    ArrangedOrders(seed, s);
    ArrangedOrders(seed, l);
    assert multiset(s + l) == multiset(s) + multiset(l);
    TextsStillDiffer(s + l, Arranged(seed, s) + Arranged(seed, l));
  }

  lemma SelectionMembers(seed: Bytes, corpus: seq<Document>, smallCount: nat, largeCount: nat)
    requires DistinctIds(corpus) && |PositivesOf(seed, corpus)| <= smallCount <= largeCount
    requires largeCount <= |PositivesOf(seed, corpus)| + |FillersOf(seed, corpus)|
    ensures var small := SmallDocuments(seed, corpus, smallCount);
            var added := LargeDocuments(seed, corpus, smallCount, largeCount);
            && (forall d :: d in small ==> d in corpus && (d.positive || MayBeChosen(seed, corpus, d)))
            && (forall d :: d in added ==> MayBeChosen(seed, corpus, d))
            && (forall d :: d in corpus && d.positive ==> d in small)
            && AheadOfRest(seed, corpus, small, small) && AheadOfRest(seed, corpus, added, small + added)
  {
    hide PositivesOf, FillersOf, MayBeChosen, RanksBefore, DistinctIds, DistinctTexts, Hashes;
    var p, f := PositivesOf(seed, corpus), FillersOf(seed, corpus);
    var small, added := SmallDocuments(seed, corpus, smallCount), LargeDocuments(seed, corpus, smallCount, largeCount);
    var m, n := smallCount - |p|, largeCount - |p|;
    ChoicesAreSound(seed, corpus);
    assert f[..n] == f[..m] + added;
    forall d ensures d in f <==> MayBeChosen(seed, corpus, d) {
      ChosenExactly(seed, corpus, d);
    }
    forall d, e | d in small && !d.positive && e in corpus && e !in small && MayBeChosen(seed, corpus, e)
      ensures RanksBefore(seed, d, e)
    {
      assert d in f[..m] && e !in f[..m];
      FirstFillers(seed, corpus, m, d, e);
    }
    forall d, e | d in added && !d.positive && e in corpus && e !in small + added && MayBeChosen(seed, corpus, e)
      ensures RanksBefore(seed, d, e)
    {
      assert d in f[..n] && e !in f[..n];
      FirstFillers(seed, corpus, n, d, e);
    }
  }

  lemma {:induction false} SetSize(s: seq<Document>)
    requires Different(s)
    ensures |set d | d in s| == |s|
    decreases |s|
  {
    if |s| == 0 {
      assert (set d | d in s) == {};
    } else {
      DifferentTail(s);
      SetSize(s[1..]);
      assert s == [s[0]] + s[1..];
      assert (set d | d in s) == {s[0]} + (set d | d in s[1..]);
    }
  }

  lemma PositivesCounted(seed: Bytes, corpus: seq<Document>)
    requires DistinctIds(corpus)
    ensures |PositivesOf(seed, corpus)| == |set d | d in corpus && d.positive|
    ensures DistinctTexts(PositivesOf(seed, corpus)) <==>
              forall d, e :: d in corpus && e in corpus && d.positive && e.positive && d != e ==>
                Sha256.Hash(d.text) != Sha256.Hash(e.text)
  {
    hide Arranged, Filtered, Sha256.Hash, FillersOf, Hashes;
    var p := PositivesOf(seed, corpus);
    ArrangedIds(seed, corpus);
    FilteredIds(Arranged(seed, corpus), true);
    ChoicesAreSound(seed, corpus);
    SetSize(p);
    assert (set d | d in corpus && d.positive) == (set d | d in p);
    if DistinctTexts(p) {
      forall d, e | d in p && e in p && d != e ensures Sha256.Hash(d.text) != Sha256.Hash(e.text) {
        var i :| 0 <= i < |p| && p[i] == d;
        var j :| 0 <= j < |p| && p[j] == e;
      }
    }
  }

  /** Whether selection succeeds, counted on the corpus itself. */
  predicate IsSelectable(corpus: seq<Document>, positiveCount: nat, smallCount: nat, largeCount: nat) {
    && positiveCount <= smallCount && largeCount <= |corpus|
    && |set d | d in corpus && d.positive| <= smallCount
    && (forall d, e :: d in corpus && e in corpus && d.positive && e.positive && d != e ==>
          Sha256.Hash(d.text) != Sha256.Hash(e.text))
    && |set d | d in corpus :: Sha256.Hash(d.text)| >= largeCount
  }

  lemma SelectableCounted(seed: Bytes, corpus: seq<Document>, positiveCount: nat, smallCount: nat, largeCount: nat)
    requires DistinctIds(corpus) && smallCount < largeCount
    ensures Selectable(seed, corpus, positiveCount, smallCount, largeCount)
            == IsSelectable(corpus, positiveCount, smallCount, largeCount)
  {
    hide PositivesOf, FillersOf, Sha256.Hash, DistinctTexts, Selectable;
    SelectableIffEnoughTexts(seed, corpus, positiveCount, smallCount, largeCount);
    PositivesCounted(seed, corpus);
    assert Hashes(corpus) == set d | d in corpus :: Sha256.Hash(d.text);
  }

  /**
   * From ranked corpus to files. It succeeds exactly when selection does and the small tier is not
   * empty: neither the line counts nor the prefix check can fail after that. The large files list the
   * selection in order, the small ones its small tier, which the large tier's size does not change.
   */
  method PrepareTiers(seed: Bytes, corpus: seq<Document>, positiveCount: nat, smallCount: nat, largeCount: nat)
    returns (files: Result<Files, Error>, ghost order: seq<Document>)
    ensures files.Ok? <==> Selectable(seed, corpus, positiveCount, smallCount, largeCount) && smallCount > 0
    ensures DistinctIds(corpus) && smallCount < largeCount ==>
              (files.Ok? <==> IsSelectable(corpus, positiveCount, smallCount, largeCount) && smallCount > 0)
    ensures files.Ok? ==>
              && |order| == largeCount && smallCount <= largeCount
              && |files.value.largeDocuments| == |files.value.largeIds| == largeCount
              && (forall i :: 0 <= i < largeCount ==>
                    && files.value.largeDocuments[i] == order[i].text
                    && IsNumbered(files.value.largeIds[i], i, order[i].id))
              && files.value.smallDocuments == files.value.largeDocuments[..smallCount]
              && files.value.smallIds == files.value.largeIds[..smallCount]
    ensures files.Ok? && DistinctIds(corpus) ==>
              IsSelection(seed, corpus, order[..smallCount], order[smallCount..])
    ensures files.Ok? ==>
              && |PositivesOf(seed, corpus)| <= smallCount <= |PositivesOf(seed, corpus)| + |FillersOf(seed, corpus)|
              && order[..smallCount] == SmallFileOrder(seed, corpus, smallCount)
              && files.value.smallDocuments == Texts(SmallFileOrder(seed, corpus, smallCount))
              && files.value.smallIds == IdLines(SmallFileOrder(seed, corpus, smallCount))
  {
    hide PositivesOf, FillersOf, Selectable, SelectedRows, FileOrder, SmallFileOrder, IsSelection, IsSelectable, IdLine,
      IsNumbered, DistinctIds;
    order := [];
    if DistinctIds(corpus) && smallCount < largeCount {
      SelectableCounted(seed, corpus, positiveCount, smallCount, largeCount);
    }
    var selected := SelectDocuments(seed, corpus, positiveCount, smallCount, largeCount);
    if selected.Err? {
      return Err(selected.error), order;
    }
    FileOrderNests(seed, corpus, positiveCount, smallCount, largeCount);
    order := FileOrder(seed, selected.value);
    if DistinctIds(corpus) {
      SelectionIs(seed, corpus, positiveCount, smallCount, largeCount);
    }
    files := WriteDocuments(seed, selected.value, smallCount, largeCount);
    forall i | 0 <= i < largeCount ensures IsNumbered(files.value.largeIds[i], i, order[i].id) {
      IdLineIsNumbered(i, order[i]);
    }
    var problem := VerifyPrefix(files.value.smallDocuments, files.value.largeDocuments);
    if problem.None? {
      problem := VerifyPrefix(files.value.smallIds, files.value.largeIds);
    }
    if problem.Some? {
      files := Err(problem.value);
    }
  }
}
