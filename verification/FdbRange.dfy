/** The paged scan of a key range, against one read of the whole range. */
module FdbRange {
  import opened Wrappers
  import opened Seqs
  import opened FdbChunks

  type Key = seq<Byte>

  datatype RangeOptions = RangeOptions(start: Key, end: Key, limit: Option<int>, descending: bool)

  // ---- Byte-lexicographic order -------------------------------------------

  predicate Less(a: Key, b: Key) {
    b != [] && (a == [] || a[0] < b[0] || (a[0] == b[0] && Less(a[1..], b[1..])))
  }

  function KeyAfter(key: Key): Key {
    key + [0]
  }

  lemma {:induction false} KeyTrichotomy(a: Key, b: Key)
    ensures Less(a, b) <==> a != b && !Less(b, a)
  {
    if a != [] && b != [] && a[0] == b[0] {
      KeyTrichotomy(a[1..], b[1..]);
      assert a == [a[0]] + a[1..] && b == [b[0]] + b[1..];
    }
  }

  /** Nothing lies between a key and the key after it. */
  lemma {:induction false} KeyAfterIsTheSuccessor(key: Key, other: Key)
    ensures Less(key, other) <==> !Less(other, KeyAfter(key))
  {
    if key == [] {
      assert other != [] ==> !Less(other[1..], []);
    } else if other != [] && key[0] == other[0] {
      assert KeyAfter(key)[1..] == KeyAfter(key[1..]);
      KeyAfterIsTheSuccessor(key[1..], other[1..]);
    }
  }

  // ---- One range read -----------------------------------------------------

  ghost predicate Sorted(store: seq<Entry>) {
    forall i, j :: 0 <= i < j < |store| ==> Less(store[i].key, store[j].key)
  }

  predicate Within(start: Key, end: Key, entry: Entry) {
    !Less(entry.key, start) && Less(entry.key, end)
  }

  function InRange(start: Key, end: Key): Entry -> bool {
    (entry: Entry) => Within(start, end, entry)
  }

  function Reversed(s: seq<Entry>): (r: seq<Entry>)
    ensures |r| == |s| && forall i :: 0 <= i < |s| ==> r[i] == s[|s| - 1 - i]
  {
    if s == [] then [] else Reversed(s[1..]) + [s[0]]
  }

  /** The entries of a range, in scan order. */
  function Matching(store: seq<Entry>, start: Key, end: Key, descending: bool): seq<Entry> {
    var ascending := Filter(InRange(start, end), store);
    if descending then Reversed(ascending) else ascending
  }

  /** The database's range read: at most limit entries, from the front of the scan order. */
  function GetRangeAll(store: seq<Entry>, start: Key, end: Key, limit: nat, descending: bool): seq<Entry> {
    Take(Matching(store, start, end, descending), limit)
  }

  // ---- The paged scan -----------------------------------------------------

  datatype RangeCursor = RangeCursor(start: Key, end: Key, descending: bool, remaining: Option<nat>)

  function PageLimit(cursor: RangeCursor, scanPageSize: nat): nat {
    if cursor.remaining.None? || scanPageSize <= cursor.remaining.value then scanPageSize else cursor.remaining.value
  }

  function ReadPage(store: seq<Entry>, cursor: RangeCursor, scanPageSize: nat): seq<Entry> {
    GetRangeAll(store, cursor.start, cursor.end, PageLimit(cursor, scanPageSize), cursor.descending)
  }

  function NextCursor(cursor: RangeCursor, page: seq<Entry>, limit: nat): Option<RangeCursor>
    requires cursor.remaining.Some? ==> |page| <= cursor.remaining.value
  {
    var remaining := if cursor.remaining.None? then None else Some(cursor.remaining.value - |page|);
    var hasMorePage := |page| == limit && (remaining.None? || remaining.value > 0);
    if hasMorePage && |page| > 0 then
      var lastKey := page[|page| - 1].key;
      Some(RangeCursor(if cursor.descending then cursor.start else KeyAfter(lastKey),
                       if cursor.descending then lastKey else cursor.end,
                       cursor.descending, remaining))
    else None
  }

  function Remaining(store: seq<Entry>, cursor: RangeCursor): seq<Entry> {
    Matching(store, cursor.start, cursor.end, cursor.descending)
  }

  /** The pages the stream emits from a cursor on. */
  function Pages(store: seq<Entry>, cursor: RangeCursor, scanPageSize: nat): seq<seq<Entry>>
    requires Sorted(store) && scanPageSize >= 1
    decreases |Remaining(store, cursor)|
  {
    var page := ReadPage(store, cursor, scanPageSize);
    var next := NextCursor(cursor, page, PageLimit(cursor, scanPageSize));
    if next.None? then [page]
    else
      CursorSkipsThePage(store, cursor, page, PageLimit(cursor, scanPageSize));
      [page] + Pages(store, next.value, scanPageSize)
  }

  function MakePagedRangeStream(store: seq<Entry>, options: RangeOptions, pageSize: int): seq<seq<Entry>>
    requires Sorted(store)
  {
    if options.limit.Some? && options.limit.value <= 0 then []
    else
      Pages(store, RangeCursor(options.start, options.end, options.descending,
                               if options.limit.None? then None else Some(options.limit.value)),
            if pageSize >= 1 then pageSize else 1)
  }

  // ---- What the next cursor sees ------------------------------------------

  /** In a sorted list, the keys at least the successor of the m-th are those after it. */
  lemma AfterSplits(ascending: seq<Entry>, m: nat, last: Key, end: Key)
    requires Sorted(ascending) && 0 < m <= |ascending| && last == ascending[m - 1].key
    requires forall e :: e in ascending ==> Less(e.key, end)
    ensures Filter(InRange(KeyAfter(last), end), ascending) == ascending[m..]
  {
    var later := InRange(KeyAfter(last), end);
    forall i | 0 <= i < |ascending| ensures later(ascending[i]) <==> i >= m {
      KeyAfterIsTheSuccessor(last, ascending[i].key);
      KeyTrichotomy(last, ascending[i].key);
    }
    assert ascending == ascending[..m] + ascending[m..];
    FilterConcat(later, ascending[..m], ascending[m..]);
    FilterNone(later, ascending[..m]);
    FilterAll(later, ascending[m..]);
  }

  /** And the keys below the m-th are those before it. */
  lemma BeforeSplits(ascending: seq<Entry>, m: nat, last: Key, start: Key)
    requires Sorted(ascending) && m < |ascending| && last == ascending[m].key
    requires forall e :: e in ascending ==> !Less(e.key, start)
    ensures Filter(InRange(start, last), ascending) == ascending[..m]
  {
    var earlier := InRange(start, last);
    forall i | 0 <= i < |ascending| ensures earlier(ascending[i]) <==> i < m {
      KeyTrichotomy(last, ascending[i].key);
    }
    assert ascending == ascending[..m] + ascending[m..];
    FilterConcat(earlier, ascending[..m], ascending[m..]);
    FilterNone(earlier, ascending[m..]);
    FilterAll(earlier, ascending[..m]);
  }

  lemma {:induction false} FilterKeepsSorted(p: Entry -> bool, store: seq<Entry>)
    requires Sorted(store)
    ensures Sorted(Filter(p, store))
  {
    if store != [] {
      FilterKeepsSorted(p, store[1..]);
      forall j | 0 <= j < |Filter(p, store[1..])| ensures Less(store[0].key, Filter(p, store[1..])[j].key) {
        assert Filter(p, store[1..])[j] in store[1..];
      }
    }
  }

  lemma {:induction false} LessTransitivity(a: Key, b: Key, c: Key)
    requires Less(a, b) && Less(b, c)
    ensures Less(a, c)
  {
    if a != [] && a[0] == b[0] == c[0] {
      LessTransitivity(a[1..], b[1..], c[1..]);
    }
  }

  /** A narrower range of the store is that range of the wider one. */
  lemma Narrows(store: seq<Entry>, start: Key, end: Key, from: Key, to: Key)
    requires forall e :: e in store && Within(from, to, e) ==> Within(start, end, e)
    ensures Filter(InRange(from, to), store) == Filter(InRange(from, to), Filter(InRange(start, end), store))
  {
    FilterTwice(InRange(start, end), InRange(from, to), InRange(from, to), store);
  }

  lemma ForwardCursor(store: seq<Entry>, start: Key, end: Key, m: nat)
    requires Sorted(store) && 0 < m <= |Filter(InRange(start, end), store)|
    ensures var ascending := Filter(InRange(start, end), store);
      Filter(InRange(KeyAfter(ascending[m - 1].key), end), store) == ascending[m..]
  {
    var ascending := Filter(InRange(start, end), store);
    var last := ascending[m - 1].key;
    assert ascending[m - 1] in ascending;
    forall e | e in store && Within(KeyAfter(last), end, e) ensures Within(start, end, e) {
      KeyAfterIsTheSuccessor(last, e.key);
      if Less(e.key, start) {
        LessTransitivity(last, e.key, start);
      }
    }
    Narrows(store, start, end, KeyAfter(last), end);
    FilterKeepsSorted(InRange(start, end), store);
    AfterSplits(ascending, m, last, end);
  }

  lemma BackwardCursor(store: seq<Entry>, start: Key, end: Key, m: nat)
    requires Sorted(store) && m < |Filter(InRange(start, end), store)|
    ensures var ascending := Filter(InRange(start, end), store);
      Filter(InRange(start, ascending[m].key), store) == ascending[..m]
  {
    var ascending := Filter(InRange(start, end), store);
    var last := ascending[m].key;
    assert ascending[m] in ascending;
    forall e | e in store && Within(start, last, e) ensures Within(start, end, e) {
      LessTransitivity(e.key, last, end);
    }
    Narrows(store, start, end, start, last);
    FilterKeepsSorted(InRange(start, end), store);
    BeforeSplits(ascending, m, last, start);
  }

  /** The next cursor sees exactly what this page left, in the same order. */
  lemma CursorSkipsThePage(store: seq<Entry>, cursor: RangeCursor, page: seq<Entry>, limit: nat)
    requires Sorted(store) && page == Take(Remaining(store, cursor), limit)
    requires cursor.remaining.Some? ==> limit <= cursor.remaining.value
    requires NextCursor(cursor, page, limit).Some?
    ensures 0 < |page| == limit <= |Remaining(store, cursor)|
    ensures Remaining(store, NextCursor(cursor, page, limit).value) == Remaining(store, cursor)[limit..]
  {
    var ascending := Filter(InRange(cursor.start, cursor.end), store);
    if cursor.descending {
      var m := |ascending| - limit;
      assert page[limit - 1] == ascending[m];
      BackwardCursor(store, cursor.start, cursor.end, m);
      assert Reversed(ascending[..m]) == Reversed(ascending)[limit..];
    } else {
      ForwardCursor(store, cursor.start, cursor.end, limit);
    }
  }

  // ---- Paging is invisible ------------------------------------------------

  lemma PageThenRest(all: seq<Entry>, remaining: Option<nat>, limit: nat)
    requires limit <= |all| && (remaining.Some? ==> limit <= remaining.value)
    ensures UpTo(all, remaining)
      == all[..limit] + UpTo(all[limit..], if remaining.None? then None else Some(remaining.value - limit))
  {
  }

  lemma {:induction false} PagesReadTheRange(store: seq<Entry>, cursor: RangeCursor, scanPageSize: nat)
    requires Sorted(store) && scanPageSize >= 1
    ensures Concat(Pages(store, cursor, scanPageSize)) == UpTo(Remaining(store, cursor), cursor.remaining)
    decreases |Remaining(store, cursor)|
  {
    var limit := PageLimit(cursor, scanPageSize);
    var page := ReadPage(store, cursor, scanPageSize);
    var next := NextCursor(cursor, page, limit);
    var all := Remaining(store, cursor);
    if next.Some? {
      CursorSkipsThePage(store, cursor, page, limit);
      PagesReadTheRange(store, next.value, scanPageSize);
      PageThenRest(all, cursor.remaining, limit);
      ConcatCons(page, Pages(store, next.value, scanPageSize));
    } else {
      ConcatCons(page, []);
      assert [page] + [] == [page];
    }
  }

  /**
   * Over a fixed store, the emitted pages are the whole range read at once, cut to the limit,
   * whatever the page size.
   */
  lemma PagingIsInvisible(store: seq<Entry>, options: RangeOptions, pageSize: int)
    requires Sorted(store)
    ensures Concat(MakePagedRangeStream(store, options, pageSize))
      == if options.limit.None? then Matching(store, options.start, options.end, options.descending)
         else if options.limit.value <= 0 then []
         else Take(Matching(store, options.start, options.end, options.descending), options.limit.value)
  {
    if options.limit.None? || options.limit.value > 0 {
      PagesReadTheRange(store, RangeCursor(options.start, options.end, options.descending,
                                           if options.limit.None? then None else Some(options.limit.value)),
                        if pageSize >= 1 then pageSize else 1);
    }
  }

  lemma ContinuedPagesAreFull(cursor: RangeCursor, page: seq<Entry>, scanPageSize: nat)
    requires |page| <= PageLimit(cursor, scanPageSize)
    requires NextCursor(cursor, page, PageLimit(cursor, scanPageSize)).Some?
    ensures |page| == scanPageSize
  {
  }

  lemma PagesUnfold(store: seq<Entry>, cursor: RangeCursor, scanPageSize: nat)
    requires Sorted(store) && scanPageSize >= 1
    ensures var page := ReadPage(store, cursor, scanPageSize);
      var next := NextCursor(cursor, page, PageLimit(cursor, scanPageSize));
      Pages(store, cursor, scanPageSize)
        == if next.None? then [page] else [page] + Pages(store, next.value, scanPageSize)
  {
  }

  /** Every page but the last is full, so every read but the last makes full progress. */
  lemma {:induction false} EarlierPagesAreFull(store: seq<Entry>, cursor: RangeCursor, scanPageSize: nat, i: nat)
    requires Sorted(store) && scanPageSize >= 1
    requires i < |Pages(store, cursor, scanPageSize)| - 1
    ensures |Pages(store, cursor, scanPageSize)[i]| == scanPageSize
    decreases i
  {
    var page := ReadPage(store, cursor, scanPageSize);
    PagesUnfold(store, cursor, scanPageSize);
    ContinuedPagesAreFull(cursor, page, scanPageSize);
    if i > 0 {
      EarlierPagesAreFull(store, NextCursor(cursor, page, PageLimit(cursor, scanPageSize)).value, scanPageSize, i - 1);
    }
  }

  // ---- The range, key by key ---------------------------------------------------

  /** The keys agree up to here, where the first ends or has the lower byte. */
  ghost predicate DiffersAt(a: Key, b: Key, i: nat) {
    i <= |a| && i < |b| && a[..i] == b[..i] && (i == |a| || a[i] < b[i])
  }

  /** The first difference decides, byte by byte; a key comes before its extensions. */
  ghost predicate ComesBefore(a: Key, b: Key) {
    exists i: nat {:trigger DiffersAt(a, b, i)} :: DiffersAt(a, b, i)
  }

  lemma DifferenceStep(a: Key, b: Key, i: nat)
    requires a != [] && b != [] && a[0] == b[0]
    ensures DiffersAt(a, b, i + 1) <==> DiffersAt(a[1..], b[1..], i)
    ensures !DiffersAt(a, b, 0)
  {
    if i < |a| && i < |b| {
      assert a[..i + 1] == [a[0]] + a[1..][..i] && b[..i + 1] == [b[0]] + b[1..][..i];
      assert a[1..][..i] == a[..i + 1][1..] && b[1..][..i] == b[..i + 1][1..];
    }
  }

  lemma AgreeFirst(a: Key, b: Key, i: nat)
    requires 0 < i <= |a| && i <= |b| && a[..i] == b[..i]
    ensures a[0] == b[0]
  {
    assert a[0] == a[..i][0] && b[0] == b[..i][0];
  }

  lemma {:induction false} LessIsByteOrder(a: Key, b: Key)
    ensures Less(a, b) <==> ComesBefore(a, b)
  {
    if a == [] {
      assert b != [] ==> DiffersAt(a, b, 0);
    } else if b != [] && a[0] == b[0] {
      LessIsByteOrder(a[1..], b[1..]);
      if i: nat :| DiffersAt(a[1..], b[1..], i) {
        DifferenceStep(a, b, i);
      }
      if i: nat :| DiffersAt(a, b, i) {
        DifferenceStep(a, b, if i > 0 then i - 1 else 0);
      }
    } else if b != [] {
      assert a[0] < b[0] ==> DiffersAt(a, b, 0);
      forall i: nat | 0 < i <= |a| && i <= |b| && a[..i] == b[..i] ensures a[0] == b[0] {
        AgreeFirst(a, b, i);
      }
    }
  }

  /** The key is at or after the start and before the end. */
  ghost predicate LiesIn(key: Key, start: Key, end: Key) {
    (key == start || ComesBefore(start, key)) && ComesBefore(key, end)
  }

  lemma LiesInIff(key: Key, start: Key, end: Key)
    ensures LiesIn(key, start, end) <==> !Less(key, start) && Less(key, end)
  {
    LessIsByteOrder(start, key);
    LessIsByteOrder(key, end);
    KeyTrichotomy(start, key);
  }

  lemma ScanHasTheRange(store: seq<Entry>, start: Key, end: Key, descending: bool, entry: Entry)
    ensures entry in Matching(store, start, end, descending) <==> entry in store && LiesIn(entry.key, start, end)
  {
    var ascending := Filter(InRange(start, end), store);
    LiesInIff(entry.key, start, end);
    if i :| 0 <= i < |ascending| && ascending[i] == entry {
      assert Reversed(ascending)[|ascending| - 1 - i] == entry;
    }
  }

  /** What is scanned is what lies in the range, in the order of its keys or in the reverse. */
  lemma ScanIsTheRange(store: seq<Entry>, start: Key, end: Key, descending: bool)
    requires Sorted(store)
    ensures var scanned := Matching(store, start, end, descending);
      && (forall entry :: entry in scanned <==> entry in store && LiesIn(entry.key, start, end))
      && forall i, j :: 0 <= i < j < |scanned| ==>
           if descending then ComesBefore(scanned[j].key, scanned[i].key)
           else ComesBefore(scanned[i].key, scanned[j].key)
  {
    var scanned := Matching(store, start, end, descending);
    FilterKeepsSorted(InRange(start, end), store);
    forall entry ensures entry in scanned <==> entry in store && LiesIn(entry.key, start, end) {
      ScanHasTheRange(store, start, end, descending, entry);
    }
    forall i, j | 0 <= i < j < |scanned|
      ensures if descending then ComesBefore(scanned[j].key, scanned[i].key)
              else ComesBefore(scanned[i].key, scanned[j].key)
    {
      LessIsByteOrder(scanned[j].key, scanned[i].key);
      LessIsByteOrder(scanned[i].key, scanned[j].key);
    }
  }
}
