/** The result list of the renderer (`app/src/App.jsx`): how match batches
    are merged into the list, the `filtered` view (threshold, age, type,
    advice, extension and text filters, then the sort), the selection
    operations, and what a delete or move removes from the list. */
module ResultList {
  import opened Strings
  import opened FileCategory
  import ScanEngine
  import OperationGate
  import opened Wrappers

  /** A row of the list: a match record as the main process sends it, with
      the advice the renderer attaches. */
  datatype Item = Item(name: string, size: int, path: string, mtimeMs: int, advice: CleaningLevel)

  /** `i.advice = analyzeFileCategory(i.path)` on a record of a batch. */
  function Annotate(r: ScanEngine.MatchRecord): Item {
    Item(r.name, r.size, r.path, r.mtimeMs, AnalyzeFileCategory(r.path))
  }

  function PathsOf(items: seq<Item>): set<string> {
    set i | i in items :: i.path
  }

  /** `batch.filter(i => !seen.has(i.path))`, annotated. */
  function Unseen(batch: seq<ScanEngine.MatchRecord>, seen: set<string>): seq<Item> {
    if batch == [] then []
    else if batch[0].path in seen then Unseen(batch[1..], seen)
    else [Annotate(batch[0])] + Unseen(batch[1..], seen)
  }

  /** `onMatchBatch`: the previous items, followed by the batch's records
      whose path none of the previous items has. */
  function MergeBatch(prev: seq<Item>, batch: seq<ScanEngine.MatchRecord>): seq<Item> {
    prev + Unseen(batch, PathsOf(prev))
  }

  /** The batch records kept by `Unseen` are exactly those whose path is not
      in `seen`, each carrying the advice of its path. */
  lemma {:induction false} UnseenIff(batch: seq<ScanEngine.MatchRecord>, seen: set<string>)
    ensures var added := Unseen(batch, seen);
      && |added| <= |batch|
      && (forall k :: 0 <= k < |added| ==> added[k].path !in seen)
      && (forall k :: 0 <= k < |added| ==> added[k].advice == AnalyzeFileCategory(added[k].path))
      && (forall r :: r in batch && r.path !in seen ==> Annotate(r) in added)
      && (forall item :: item in added ==> exists r :: r in batch && item == Annotate(r))
  {
    if batch != [] {
      UnseenIff(batch[1..], seen);
      var rest := Unseen(batch[1..], seen);
      forall r | r in batch && r.path !in seen ensures Annotate(r) in Unseen(batch, seen) {
        if r != batch[0] {
          assert r in batch[1..];
        }
      }
      forall item | item in Unseen(batch, seen) ensures exists r :: r in batch && item == Annotate(r) {
        if item in rest {
          var r :| r in batch[1..] && item == Annotate(r);
          assert r in batch;
        } else {
          assert item == Annotate(batch[0]);
        }
      }
    }
  }

  /** The previous list is kept as it is, in front; what is added is every
      record of the batch with a new path, and nothing else. */
  lemma MergeBatchKeepsPrefix(prev: seq<Item>, batch: seq<ScanEngine.MatchRecord>)
    ensures var merged := MergeBatch(prev, batch);
      && merged[..|prev|] == prev
      && (forall k :: |prev| <= k < |merged| ==> merged[k].path !in PathsOf(prev))
      && (forall r :: r in batch && r.path !in PathsOf(prev) ==> Annotate(r) in merged)
      && (forall item :: item in merged ==> item in prev || exists r :: r in batch && item == Annotate(r))
  {
    var added := Unseen(batch, PathsOf(prev));
    UnseenIff(batch, PathsOf(prev));
    var merged := prev + added;
    forall k | |prev| <= k < |merged| ensures merged[k].path !in PathsOf(prev) {
      assert merged[k] == added[k - |prev|];
    }
  }

  /** `Unseen` keeps the batch's order: a batch split in two gives the kept
      records of the first part, then those of the second. */
  lemma {:induction false} UnseenSplits(a: seq<ScanEngine.MatchRecord>, b: seq<ScanEngine.MatchRecord>,
                                        seen: set<string>)
    ensures Unseen(a + b, seen) == Unseen(a, seen) + Unseen(b, seen)
  {
    if a == [] {
      assert a + b == b;
    } else {
      var ab := a + b;
      assert ab[0] == a[0];
      assert ab[1..] == a[1..] + b;
      UnseenSplits(a[1..], b, seen);
      var head := if a[0].path in seen then [] else [Annotate(a[0])];
      calc {
        Unseen(ab, seen);
        head + Unseen(a[1..] + b, seen);
        head + (Unseen(a[1..], seen) + Unseen(b, seen));
        (head + Unseen(a[1..], seen)) + Unseen(b, seen);
        Unseen(a, seen) + Unseen(b, seen);
      }
    }
  }

  /** A single record is kept, annotated, exactly when its path is new. */
  lemma UnseenOne(r: ScanEngine.MatchRecord, seen: set<string>)
    ensures Unseen([r], seen) == if r.path in seen then [] else [Annotate(r)]
  {
    assert [r][1..] == [];
  }

  /** A record with a new path is kept as often as the batch holds it. */
  lemma {:induction false} UnseenCount(batch: seq<ScanEngine.MatchRecord>, seen: set<string>,
                                       r: ScanEngine.MatchRecord)
    requires r.path !in seen
    ensures multiset(Unseen(batch, seen))[Annotate(r)] == multiset(batch)[r]
  {
    if batch != [] {
      UnseenCount(batch[1..], seen, r);
      assert batch == [batch[0]] + batch[1..];
    }
  }

  /** Merging a batch adds each record with a new path as often as the
      batch repeats it. */
  lemma BatchDuplicatesKept(prev: seq<Item>, batch: seq<ScanEngine.MatchRecord>, r: ScanEngine.MatchRecord)
    requires r.path !in PathsOf(prev)
    ensures multiset(MergeBatch(prev, batch))[Annotate(r)] == multiset(batch)[r]
  {
    UnseenCount(batch, PathsOf(prev), r);
    assert Annotate(r) !in prev;
  }

  /** The age choices of the time-range filter. */
  datatype TimeRange = AllTime | Days7 | Days30 | Days180

  const DayMs: int := 24 * 60 * 60 * 1000

  /** The earliest modification time kept, 0 meaning no bound. */
  function MinTime(range: TimeRange, now: int): int {
    match range
    case AllTime => 0
    case Days7 => now - 7 * DayMs
    case Days30 => now - 30 * DayMs
    case Days180 => now - 180 * DayMs
  }

  /** What the filter and sort controls hold. `typeFilter` and
      `adviceFilter` are `all` or a type name or level id. */
  datatype View = View(thresholdValue: int, thresholdUnit: string, timeRange: TimeRange,
                       typeFilter: string, adviceFilter: string, extFilter: string,
                       filterText: string, sortKey: string, sortDir: string)

  /** The size threshold in bytes: the value in GB or, for any other unit,
      in MB. */
  function MinBytes(value: int, unit: string): int {
    if unit == "GB" then value * 1024 * 1024 * 1024 else value * 1024 * 1024
  }

  /** A value in GB is 1024 times the same value in any other unit; the
      threshold grows with the value and is positive exactly when the
      value is. */
  lemma MinBytesScale(value: int, larger: int, unit: string)
    ensures unit != "GB" ==> MinBytes(value, "GB") == 1024 * MinBytes(value, unit)
    ensures value <= larger ==> MinBytes(value, unit) <= MinBytes(larger, unit)
    ensures MinBytes(value, unit) > 0 <==> value > 0
  {
  }

  /** `s.trim().toLowerCase()` for each comma-separated piece, empty ones
      dropped. */
  function Normalize(pieces: seq<string>): (exts: seq<string>)
    ensures |exts| <= |pieces|
    ensures forall k :: 0 <= k < |exts| ==> exts[k] != [] && IsLower(exts[k])
  {
    if pieces == [] then []
    else
      var e := Lower(Trim(pieces[0]));
      LowerIsLower(Trim(pieces[0]));
      if e == [] then Normalize(pieces[1..]) else [e] + Normalize(pieces[1..])
  }

  function Extensions(extFilter: string): seq<string> {
    Normalize(Split(extFilter, ','))
  }

  /** The extension test for one lower-cased path. */
  predicate EndsWithExt(p: string, ext: string) {
    if StartsWith(ext, ".") then EndsWith(p, ext) else EndsWith(p, "." + ext)
  }

  predicate MatchesSomeExt(p: string, exts: seq<string>) {
    exists k :: 0 <= k < |exts| && EndsWithExt(p, exts[k])
  }

  /** The values `filtered` works out from the controls before it filters:
      the size and time bounds, the extension list and the search text. */
  datatype Query = Query(minBytes: int, minTime: int, typeFilter: string, adviceFilter: string,
                         exts: seq<string>, text: string)

  /** The search text is empty exactly when the control holds only white
      space, and so is switched off exactly then. */
  function QueryOf(v: View, now: int): (q: Query)
    ensures q.minBytes == MinBytes(v.thresholdValue, v.thresholdUnit)
    ensures q.minTime == MinTime(v.timeRange, now)
    ensures q.typeFilter == v.typeFilter && q.adviceFilter == v.adviceFilter
    ensures forall k :: 0 <= k < |q.exts| ==> q.exts[k] != [] && IsLower(q.exts[k])
    ensures q.text == [] <==> forall k :: 0 <= k < |v.filterText| ==> IsSpace(v.filterText[k])
    ensures IsLower(q.text)
  {
    TrimEmptyIff(v.filterText);
    LowerIsLower(Trim(v.filterText));
    Query(MinBytes(v.thresholdValue, v.thresholdUnit), MinTime(v.timeRange, now), v.typeFilter,
          v.adviceFilter, Extensions(v.extFilter), Lower(Trim(v.filterText)))
  }

  /** The six filter tests, each with the switch that turns it on. */
  predicate SizeOk(q: Query, i: Item) { i.size >= q.minBytes }
  predicate AgeOk(q: Query, i: Item) { i.mtimeMs >= q.minTime }
  predicate TypeOk(q: Query, i: Item) { GetFileType(i.name) == q.typeFilter }
  predicate AdviceOk(q: Query, i: Item) { i.advice.id == q.adviceFilter }
  predicate ExtOk(q: Query, i: Item) { MatchesSomeExt(Lower(i.path), q.exts) }
  predicate TextOk(q: Query, i: Item) { Contains(Lower(i.path), q.text) }

  /** An item passes every test that is switched on. */
  predicate Keep(q: Query, i: Item) {
    && SizeOk(q, i)
    && (q.minTime > 0 ==> AgeOk(q, i))
    && (q.typeFilter != "all" ==> TypeOk(q, i))
    && (q.adviceFilter != "all" ==> AdviceOk(q, i))
    && (q.exts != [] ==> ExtOk(q, i))
    && (q.text != [] ==> TextOk(q, i))
  }

  /** `arr.filter(keep)` */
  function FilterBy(s: seq<Item>, keep: Item -> bool): (r: seq<Item>)
    ensures |r| <= |s|
  {
    if s == [] then []
    else if keep(s[0]) then [s[0]] + FilterBy(s[1..], keep)
    else FilterBy(s[1..], keep)
  }

  /** One stage: filter when the test is switched on, pass through
      otherwise. */
  function Stage(s: seq<Item>, on: bool, keep: Item -> bool): seq<Item> {
    if on then FilterBy(s, keep) else s
  }

  /** The filter stages of `filtered`, in the order the code runs them:
      size, age and type first, then advice, extension and search text. */
  function FilterStages(items: seq<Item>, q: Query): seq<Item> {
    LateStages(EarlyStages(items, q), q)
  }

  function EarlyStages(items: seq<Item>, q: Query): seq<Item> {
    var a1 := FilterBy(items, (i: Item) => SizeOk(q, i));
    var a2 := Stage(a1, q.minTime > 0, (i: Item) => AgeOk(q, i));
    Stage(a2, q.typeFilter != "all", (i: Item) => TypeOk(q, i))
  }

  function LateStages(a3: seq<Item>, q: Query): seq<Item> {
    var a4 := Stage(a3, q.adviceFilter != "all", (i: Item) => AdviceOk(q, i));
    var a5 := Stage(a4, q.exts != [], (i: Item) => ExtOk(q, i));
    Stage(a5, q.text != [], (i: Item) => TextOk(q, i))
  }

  /** The comparator of the sort: by size, path or modification time,
      ascending for `asc` and descending otherwise; any other key
      compares everything equal. */
  function Compare(key: string, dir: string, a: Item, b: Item): int {
    var r :=
      if key == "size" then a.size - b.size
      else if key == "path" then PathCompare(a.path, b.path)
      else if key == "mtime" then a.mtimeMs - b.mtimeMs
      else 0;
    if dir == "asc" then r else -r
  }

  /** The order of `localeCompare`, as the order of character codes. */
  function PathCompare(a: string, b: string): (r: int)
    ensures -1 <= r <= 1
    ensures r == 0 <==> a == b
  {
    if a == [] && b == [] then 0
    else if a == [] then -1
    else if b == [] then 1
    else if a[0] < b[0] then -1
    else if a[0] > b[0] then 1
    else
      var r := PathCompare(a[1..], b[1..]);
      assert r == 0 ==> a == b by {
        if r == 0 { assert a == [a[0]] + a[1..] && b == [b[0]] + b[1..]; }
      }
      r
  }

  lemma {:induction false} PathCompareFlips(a: string, b: string)
    ensures PathCompare(b, a) == -PathCompare(a, b)
  {
    if a != [] && b != [] && a[0] == b[0] {
      PathCompareFlips(a[1..], b[1..]);
    }
  }

  /** Swapping the arguments flips the sign of the comparison. */
  lemma CompareFlips(key: string, dir: string, a: Item, b: Item)
    ensures Compare(key, dir, b, a) == -Compare(key, dir, a, b)
  {
    PathCompareFlips(a.path, b.path);
  }

  /** Inserts `x` before the first element it compares at most equal to. */
  function Insert(key: string, dir: string, x: Item, s: seq<Item>): (r: seq<Item>)
    ensures multiset(r) == multiset(s) + multiset{x}
  {
    if s == [] then [x]
    else if Compare(key, dir, x, s[0]) <= 0 then [x] + s
    else
      assert s == [s[0]] + s[1..];
      [s[0]] + Insert(key, dir, x, s[1..])
  }

  /** `arr.sort(compare)`: an insertion sort, which keeps equal elements in
      their order as the standard sort does. */
  function SortBy(key: string, dir: string, s: seq<Item>): (r: seq<Item>)
    ensures multiset(r) == multiset(s)
  {
    if s == [] then []
    else
      assert s == [s[0]] + s[1..];
      Insert(key, dir, s[0], SortBy(key, dir, s[1..]))
  }

  /** Every element compares at most equal to the next. */
  predicate Ordered(key: string, dir: string, s: seq<Item>) {
    forall k :: 0 <= k < |s| - 1 ==> Compare(key, dir, s[k], s[k + 1]) <= 0
  }

  lemma {:induction false} InsertOrdered(key: string, dir: string, x: Item, s: seq<Item>)
    requires Ordered(key, dir, s)
    ensures Ordered(key, dir, Insert(key, dir, x, s))
    ensures s != [] ==> Insert(key, dir, x, s)[0] == x || Insert(key, dir, x, s)[0] == s[0]
  {
    if s != [] && Compare(key, dir, x, s[0]) > 0 {
      var rest := Insert(key, dir, x, s[1..]);
      assert Ordered(key, dir, s[1..]) by {
        forall k | 0 <= k < |s[1..]| - 1 ensures Compare(key, dir, s[1..][k], s[1..][k + 1]) <= 0 {
          assert s[1..][k] == s[k + 1] && s[1..][k + 1] == s[k + 2];
        }
      }
      InsertOrdered(key, dir, x, s[1..]);
      CompareFlips(key, dir, x, s[0]);
      var r := [s[0]] + rest;
      forall k | 0 <= k < |r| - 1 ensures Compare(key, dir, r[k], r[k + 1]) <= 0 {
        if k > 0 {
          assert r[k] == rest[k - 1] && r[k + 1] == rest[k];
        } else if |s| > 1 {
          assert rest[0] == x || rest[0] == s[1];
        }
      }
    }
  }

  /** The sort yields an ordered permutation of its input. */
  lemma {:induction false} SortOrdered(key: string, dir: string, s: seq<Item>)
    ensures Ordered(key, dir, SortBy(key, dir, s))
  {
    if s != [] {
      SortOrdered(key, dir, s[1..]);
      InsertOrdered(key, dir, s[0], SortBy(key, dir, s[1..]));
    }
  }

  /** With an unknown sort key the comparator says equal throughout, and
      the sort leaves the order alone. */
  lemma {:induction false} UnknownKeyKeepsOrder(key: string, dir: string, s: seq<Item>)
    requires key != "size" && key != "path" && key != "mtime"
    ensures SortBy(key, dir, s) == s
  {
    if s != [] {
      UnknownKeyKeepsOrder(key, dir, s[1..]);
      assert s == [s[0]] + s[1..];
    }
  }

  /** `filtered` */
  function Filtered(items: seq<Item>, v: View, now: int): seq<Item> {
    SortBy(v.sortKey, v.sortDir, FilterStages(items, QueryOf(v, now)))
  }

  /** `filter` keeps every item that passes as often as the input holds it,
      and no other. */
  lemma {:induction false} FilterByIff(s: seq<Item>, keep: Item -> bool)
    ensures forall i :: multiset(FilterBy(s, keep))[i] == if keep(i) then multiset(s)[i] else 0
    ensures forall i :: i in FilterBy(s, keep) <==> i in s && keep(i)
  {
    if s != [] {
      FilterByIff(s[1..], keep);
      assert s == [s[0]] + s[1..];
    }
  }

  /** `filter` keeps the input's order: filtering a list split in two
      filters each part. */
  lemma {:induction false} FilterByAppend(a: seq<Item>, b: seq<Item>, keep: Item -> bool)
    ensures FilterBy(a + b, keep) == FilterBy(a, keep) + FilterBy(b, keep)
  {
    if a == [] {
      assert a + b == b;
    } else {
      var ab := a + b;
      assert ab[0] == a[0];
      assert ab[1..] == a[1..] + b;
      FilterByAppend(a[1..], b, keep);
      var head := if keep(a[0]) then [a[0]] else [];
      calc {
        FilterBy(ab, keep);
        head + FilterBy(a[1..] + b, keep);
        head + (FilterBy(a[1..], keep) + FilterBy(b, keep));
        (head + FilterBy(a[1..], keep)) + FilterBy(b, keep);
        FilterBy(a, keep) + FilterBy(b, keep);
      }
    }
  }

  lemma StageIff(s: seq<Item>, on: bool, keep: Item -> bool)
    ensures forall i :: multiset(Stage(s, on, keep))[i] == if on ==> keep(i) then multiset(s)[i] else 0
    ensures forall i :: i in Stage(s, on, keep) <==> i in s && (on ==> keep(i))
  {
    FilterByIff(s, keep);
  }

  lemma EarlyStagesIff(items: seq<Item>, q: Query)
    ensures forall i :: (multiset(EarlyStages(items, q))[i] ==
      if SizeOk(q, i) && (q.minTime > 0 ==> AgeOk(q, i)) && (q.typeFilter != "all" ==> TypeOk(q, i))
      then multiset(items)[i] else 0)
    ensures forall i :: i in EarlyStages(items, q) <==>
      i in items && SizeOk(q, i) && (q.minTime > 0 ==> AgeOk(q, i)) && (q.typeFilter != "all" ==> TypeOk(q, i))
  {
    var a1 := FilterBy(items, (i: Item) => SizeOk(q, i));
    FilterByIff(items, (i: Item) => SizeOk(q, i));
    var a2 := Stage(a1, q.minTime > 0, (i: Item) => AgeOk(q, i));
    StageIff(a1, q.minTime > 0, (i: Item) => AgeOk(q, i));
    StageIff(a2, q.typeFilter != "all", (i: Item) => TypeOk(q, i));
  }

  lemma LateStagesIff(a3: seq<Item>, q: Query)
    ensures forall i :: (multiset(LateStages(a3, q))[i] ==
      if (q.adviceFilter != "all" ==> AdviceOk(q, i)) && (q.exts != [] ==> ExtOk(q, i))
         && (q.text != [] ==> TextOk(q, i))
      then multiset(a3)[i] else 0)
    ensures forall i :: i in LateStages(a3, q) <==>
      i in a3 && (q.adviceFilter != "all" ==> AdviceOk(q, i)) && (q.exts != [] ==> ExtOk(q, i))
      && (q.text != [] ==> TextOk(q, i))
  {
    var a4 := Stage(a3, q.adviceFilter != "all", (i: Item) => AdviceOk(q, i));
    StageIff(a3, q.adviceFilter != "all", (i: Item) => AdviceOk(q, i));
    var a5 := Stage(a4, q.exts != [], (i: Item) => ExtOk(q, i));
    StageIff(a4, q.exts != [], (i: Item) => ExtOk(q, i));
    StageIff(a5, q.text != [], (i: Item) => TextOk(q, i));
  }

  /** The stages keep an item exactly when it passes every filter that is
      switched on. */
  lemma FilterStagesIff(items: seq<Item>, q: Query)
    ensures forall i :: multiset(FilterStages(items, q))[i] == if Keep(q, i) then multiset(items)[i] else 0
    ensures forall i :: i in FilterStages(items, q) <==> i in items && Keep(q, i)
  {
    EarlyStagesIff(items, q);
    LateStagesIff(EarlyStages(items, q), q);
  }

  /** `filtered` holds every item that passes all filters switched on, as
      often as `items` does, and nothing else ... */
  lemma FilteredSpec(items: seq<Item>, v: View, now: int)
    ensures forall i :: (multiset(Filtered(items, v, now))[i] ==
      if Keep(QueryOf(v, now), i) then multiset(items)[i] else 0)
    ensures forall i :: i in Filtered(items, v, now) <==> i in items && Keep(QueryOf(v, now), i)
  {
    var q := QueryOf(v, now);
    var s := FilterStages(items, q);
    FilterStagesIff(items, q);
    assert multiset(Filtered(items, v, now)) == multiset(s);
    forall i ensures i in Filtered(items, v, now) <==> i in s {
      assert i in Filtered(items, v, now) <==> i in multiset(Filtered(items, v, now));
      assert i in s <==> i in multiset(s);
    }
  }

  /** ... in the order of the comparator. */
  lemma FilteredOrdered(items: seq<Item>, v: View, now: int)
    ensures Ordered(v.sortKey, v.sortDir, Filtered(items, v, now))
  {
    SortOrdered(v.sortKey, v.sortDir, FilterStages(items, QueryOf(v, now)));
  }

  /** With every control at its neutral setting (no age bound, all types
      and advice, no extensions, blank search text) `filtered` keeps each
      item at or above the size threshold. */
  lemma NeutralFiltersKeepBySize(items: seq<Item>, v: View, now: int)
    requires v.timeRange == AllTime && v.typeFilter == "all" && v.adviceFilter == "all"
    requires Extensions(v.extFilter) == []
    requires forall k :: 0 <= k < |v.filterText| ==> IsSpace(v.filterText[k])
    ensures forall i :: i in Filtered(items, v, now) <==>
      i in items && i.size >= MinBytes(v.thresholdValue, v.thresholdUnit)
  {
    FilteredSpec(items, v, now);
  }

  /** `toggleSelect(p)` */
  function ToggleSelect(selected: set<string>, p: string): (s: set<string>)
    ensures p in s <==> p !in selected
    ensures forall q :: q != p ==> (q in s <==> q in selected)
  {
    if p in selected then selected - {p} else selected + {p}
  }

  /** `allChecked` */
  predicate AllChecked(filtered: seq<Item>, selected: set<string>) {
    |filtered| > 0 && forall k :: 0 <= k < |filtered| ==> filtered[k].path in selected
  }

  /** `items.forEach(i => s.delete(i.path))` */
  function DeleteEach(s: set<string>, items: seq<Item>): set<string>
    decreases |items|
  {
    if items == [] then s else DeleteEach(s - {items[0].path}, items[1..])
  }

  /** `items.forEach(i => s.add(i.path))` */
  function AddEach(s: set<string>, items: seq<Item>): set<string>
    decreases |items|
  {
    if items == [] then s else AddEach(s + {items[0].path}, items[1..])
  }

  lemma {:induction false} DeleteEachIs(s: set<string>, items: seq<Item>)
    ensures DeleteEach(s, items) == s - PathsOf(items)
    decreases |items|
  {
    if items != [] {
      DeleteEachIs(s - {items[0].path}, items[1..]);
      assert PathsOf(items) == {items[0].path} + PathsOf(items[1..]) by {
        assert items == [items[0]] + items[1..];
      }
    }
  }

  lemma {:induction false} AddEachIs(s: set<string>, items: seq<Item>)
    ensures AddEach(s, items) == s + PathsOf(items)
    decreases |items|
  {
    if items != [] {
      AddEachIs(s + {items[0].path}, items[1..]);
      assert PathsOf(items) == {items[0].path} + PathsOf(items[1..]) by {
        assert items == [items[0]] + items[1..];
      }
    }
  }

  /** `toggleSelectAll()` */
  function ToggleSelectAll(filtered: seq<Item>, selected: set<string>): set<string> {
    if AllChecked(filtered, selected) then DeleteEach(selected, filtered) else AddEach(selected, filtered)
  }

  /** When every shown row is checked, toggling all unchecks the shown rows;
      otherwise it checks them all. Rows not shown keep their state. */
  lemma ToggleSelectAllSpec(filtered: seq<Item>, selected: set<string>)
    ensures var s := ToggleSelectAll(filtered, selected);
      && (AllChecked(filtered, selected) ==> s == selected - PathsOf(filtered))
      && (!AllChecked(filtered, selected) ==> s == selected + PathsOf(filtered))
      && (forall p :: p !in PathsOf(filtered) ==> (p in s <==> p in selected))
  {
    DeleteEachIs(selected, filtered);
    AddEachIs(selected, filtered);
  }

  /** A second toggle of all undoes the first when nothing shown was
      checked: checking all, then unchecking all, restores the selection. */
  lemma ToggleSelectAllTwice(filtered: seq<Item>, selected: set<string>)
    requires filtered != [] && PathsOf(filtered) !! selected
    ensures ToggleSelectAll(filtered, ToggleSelectAll(filtered, selected)) == selected
  {
    ToggleSelectAllSpec(filtered, selected);
    var s := selected + PathsOf(filtered);
    assert filtered[0].path in PathsOf(filtered);
    assert AllChecked(filtered, s);
    ToggleSelectAllSpec(filtered, s);
  }

  /** The invert-selection key: a fresh set that gets each shown path that
      was not selected. */
  function InvertFrom(s: set<string>, filtered: seq<Item>, selected: set<string>): set<string>
    decreases |filtered|
  {
    if filtered == [] then s
    else InvertFrom(if filtered[0].path in selected then s else s + {filtered[0].path}, filtered[1..], selected)
  }

  function Invert(filtered: seq<Item>, selected: set<string>): set<string> {
    InvertFrom({}, filtered, selected)
  }

  lemma {:induction false} InvertFromIs(s: set<string>, filtered: seq<Item>, selected: set<string>)
    ensures InvertFrom(s, filtered, selected) == s + (PathsOf(filtered) - selected)
    decreases |filtered|
  {
    if filtered != [] {
      var p := filtered[0].path;
      InvertFromIs(if p in selected then s else s + {p}, filtered[1..], selected);
      assert PathsOf(filtered) == {p} + PathsOf(filtered[1..]) by {
        assert filtered == [filtered[0]] + filtered[1..];
      }
    }
  }

  /** Inverting gives exactly the shown paths that were not selected;
      selected paths that are not shown are dropped. */
  lemma InvertSpec(filtered: seq<Item>, selected: set<string>)
    ensures Invert(filtered, selected) == PathsOf(filtered) - selected
    ensures Invert(filtered, selected) !! selected
  {
    InvertFromIs({}, filtered, selected);
  }

  /** `res.filter(r => r.ok).map(r => r.path)` */
  function OkPaths(res: seq<OperationGate.OpResult>): (oks: seq<string>)
    ensures |oks| <= |res|
  {
    if res == [] then []
    else if res[0].outcome.Done? then [res[0].path] + OkPaths(res[1..])
    else OkPaths(res[1..])
  }

  /** `oks.forEach(p => s.delete(p))` */
  function DeletePaths(s: set<string>, oks: seq<string>): set<string>
    decreases |oks|
  {
    if oks == [] then s else DeletePaths(s - {oks[0]}, oks[1..])
  }

  /** What a delete or move leaves: items whose path was reported done are
      dropped from the list and from the selection. */
  function AfterOperation(items: seq<Item>, selected: set<string>, res: seq<OperationGate.OpResult>)
    : (seq<Item>, set<string>)
  {
    var oks := OkPaths(res);
    if |oks| > 0 then (FilterBy(items, (i: Item) => i.path !in oks), DeletePaths(selected, oks))
    else (items, selected)
  }

  lemma {:induction false} OkPathsAre(res: seq<OperationGate.OpResult>)
    ensures forall p :: p in OkPaths(res) <==> p in OperationGate.Succeeded(res)
  {
    if res != [] {
      OkPathsAre(res[1..]);
      assert res == [res[0]] + res[1..];
    }
  }

  lemma {:induction false} DeletePathsIs(s: set<string>, oks: seq<string>)
    ensures DeletePaths(s, oks) == s - set p | p in oks
    decreases |oks|
  {
    if oks != [] {
      DeletePathsIs(s - {oks[0]}, oks[1..]);
      assert (set p | p in oks) == {oks[0]} + set p | p in oks[1..] by {
        assert oks == [oks[0]] + oks[1..];
      }
    }
  }

  /** After an operation the list and the selection lose exactly the
      paths the main process reported done; every other row stays, with
      all its copies. */
  lemma AfterOperationSpec(items: seq<Item>, selected: set<string>, res: seq<OperationGate.OpResult>)
    ensures var (items', selected') := AfterOperation(items, selected, res);
      && (forall i :: i in items' <==> i in items && i.path !in OperationGate.Succeeded(res))
      && (forall i :: multiset(items')[i] ==
            if i.path in OperationGate.Succeeded(res) then 0 else multiset(items)[i])
      && selected' == selected - OperationGate.Succeeded(res)
  {
    OkPathsAre(res);
    var oks := OkPaths(res);
    FilterByIff(items, (i: Item) => i.path !in oks);
    DeletePathsIs(selected, oks);
    assert (set p | p in oks) == OperationGate.Succeeded(res);
  }

  /** The rows that stay keep their order: the list after an operation,
      split in two, is what each part alone would leave. */
  lemma AfterOperationKeepsOrder(a: seq<Item>, b: seq<Item>, selected: set<string>,
                                 res: seq<OperationGate.OpResult>)
    ensures AfterOperation(a + b, selected, res).0
      == AfterOperation(a, selected, res).0 + AfterOperation(b, selected, res).0
  {
    FilterByAppend(a, b, (i: Item) => i.path !in OkPaths(res));
  }

  /** `res.filter(r => !r.ok).length` */
  function FailCount(res: seq<OperationGate.OpResult>): nat {
    if res == [] then 0
    else (if res[0].outcome.Done? then 0 else 1) + FailCount(res[1..])
  }

  /** The status line after a delete or move: the number of failures, or
      that the operation completed. */
  datatype Status = FailedCount(failures: nat) | Completed

  function StatusAfter(res: seq<OperationGate.OpResult>): Status {
    if FailCount(res) > 0 then FailedCount(FailCount(res)) else Completed
  }

  /** Every result is counted once, as done or as failed, and the status
      says completed exactly when every path was done. */
  lemma {:induction false} ResultsSplit(res: seq<OperationGate.OpResult>)
    ensures |OkPaths(res)| + FailCount(res) == |res|
    ensures StatusAfter(res) == Completed <==> forall k :: 0 <= k < |res| ==> res[k].outcome.Done?
  {
    if res != [] {
      ResultsSplit(res[1..]);
      assert forall k :: 1 <= k < |res| ==> res[1..][k - 1] == res[k];
    }
  }

  /** After a delete, the rows the list drops are exactly the files the
      delete removed from the file system. */
  lemma DeleteThenList(items: seq<Item>, selected: set<string>, session: Option<set<string>>,
                       fs: OperationGate.Fs, env: OperationGate.Env, paths: seq<string>)
    ensures var (res, fs') := OperationGate.GateAll(OperationGate.DeleteOp, session, fs, env, paths);
      var (items', _) := AfterOperation(items, selected, res);
      forall i :: i in items ==> (i in items' <==> (i.path in fs ==> i.path in fs'))
  {
    var (res, fs') := OperationGate.GateAll(OperationGate.DeleteOp, session, fs, env, paths);
    OperationGate.RemovesExactlySucceeded(OperationGate.DeleteOp, session, fs, env, paths);
    AfterOperationSpec(items, selected, res);
  }
}
