/**
 * Splitting a batch of writes into transactions: in order, within the byte and
 * entry caps, and with as few chunks as any such split.
 */
module FdbChunks {
  import opened Wrappers
  import opened Seqs

  newtype Byte = x: int | 0 <= x < 256

  datatype Entry = Entry(key: seq<Byte>, value: seq<Byte>)

  datatype Options = Options(
    maxTransactionBytes: int,
    maxTransactionEntries: Option<int>,
    maxValueBytes: int,
    subspaceBytes: nat)

  datatype ChunkError = ValueTooLarge(valueBytes: nat) | EntryTooLarge(entryBytes: nat)

  const MUTATION_BYTE_OVERHEAD := 64

  function EstimateMutationBytes(entry: Entry, options: Options): nat {
    options.subspaceBytes + |entry.key| + |entry.value| + MUTATION_BYTE_OVERHEAD
  }

  /** Why an entry can be in no chunk at all; an oversized value is reported before an oversized entry. */
  function Refusal(entry: Entry, options: Options): Option<ChunkError> {
    if |entry.value| > options.maxValueBytes then Some(ValueTooLarge(|entry.value|))
    else if EstimateMutationBytes(entry, options) > options.maxTransactionBytes
    then Some(EntryTooLarge(EstimateMutationBytes(entry, options)))
    else None
  }

  function Bytes(chunk: seq<Entry>, options: Options): nat {
    if chunk == [] then 0
    else Bytes(chunk[..|chunk| - 1], options) + EstimateMutationBytes(chunk[|chunk| - 1], options)
  }

  /** Within both caps; an entry cap below one is treated as one. */
  predicate Fits(chunk: seq<Entry>, options: Options) {
    && Bytes(chunk, options) <= options.maxTransactionBytes
    && (options.maxTransactionEntries.Some? ==> |chunk| <= 1 || |chunk| <= options.maxTransactionEntries.value)
  }

  ghost predicate AllFit(chunks: seq<seq<Entry>>, options: Options) {
    chunks == [] || (AllFit(chunks[..|chunks| - 1], options) && Fits(chunks[|chunks| - 1], options))
  }

  /** A split of the entries, in order, into chunks within the caps. */
  ghost predicate Splits(chunks: seq<seq<Entry>>, entries: seq<Entry>, options: Options) {
    Concat(chunks) == entries && AllFit(chunks, options)
  }

  /** No chunk is empty, and none could have taken the next chunk's first entry. */
  ghost predicate Full(chunks: seq<seq<Entry>>, options: Options) {
    chunks == [] ||
    var init, last := chunks[..|chunks| - 1], chunks[|chunks| - 1];
    Full(init, options) && last != [] && (init == [] || !Fits(init[|init| - 1] + [last[0]], options))
  }

  lemma AllFitSnoc(chunks: seq<seq<Entry>>, chunk: seq<Entry>, options: Options)
    requires AllFit(chunks, options) && Fits(chunk, options)
    ensures AllFit(chunks + [chunk], options)
  {
    assert (chunks + [chunk])[..|chunks|] == chunks;
  }

  lemma {:induction false} AllFitAt(chunks: seq<seq<Entry>>, i: nat, options: Options)
    requires AllFit(chunks, options) && i < |chunks|
    ensures Fits(chunks[i], options)
  {
    if i < |chunks| - 1 {
      AllFitAt(chunks[..|chunks| - 1], i, options);
    }
  }

  lemma {:induction false} FullAt(chunks: seq<seq<Entry>>, i: nat, options: Options)
    requires Full(chunks, options) && i < |chunks|
    ensures chunks[i] != [] && (i > 0 ==> !Fits(chunks[i - 1] + [chunks[i][0]], options))
  {
    if i < |chunks| - 1 {
      FullAt(chunks[..|chunks| - 1], i, options);
    }
  }

  lemma BytesSnoc(chunk: seq<Entry>, entry: Entry, options: Options)
    ensures Bytes(chunk + [entry], options) == Bytes(chunk, options) + EstimateMutationBytes(entry, options)
  {
    assert (chunk + [entry])[..|chunk|] == chunk;
  }

  lemma ConcatSnoc(chunks: seq<seq<Entry>>, chunk: seq<Entry>)
    ensures Concat(chunks + [chunk]) == Concat(chunks) + chunk
  {
    assert (chunks + [chunk])[..|chunks|] == chunks;
  }

  /** What the first entry that fits in no chunk is refused for. */
  function FirstRefusal(entries: seq<Entry>, options: Options): Option<ChunkError> {
    if entries == [] then None
    else if Refusal(entries[0], options).Some? then Refusal(entries[0], options)
    else FirstRefusal(entries[1..], options)
  }

  lemma RefusalSteps(entries: seq<Entry>, i: nat, options: Options)
    requires i < |entries|
    ensures FirstRefusal(entries[i..], options)
      == if Refusal(entries[i], options).Some? then Refusal(entries[i], options)
        else FirstRefusal(entries[i + 1..], options)
  {
    assert entries[i..][1..] == entries[i + 1..];
  }

  lemma {:induction false} NothingIsRefusedIff(entries: seq<Entry>, options: Options)
    ensures FirstRefusal(entries, options) == None <==>
            (forall i :: 0 <= i < |entries| ==> Refusal(entries[i], options) == None)
  {
    if entries != [] {
      NothingIsRefusedIff(entries[1..], options);
      assert forall i :: 0 < i < |entries| ==> entries[i] == entries[1..][i - 1];
    }
  }

  /** The chunks so far: closed ones, and the one still growing. */
  ghost predicate Growing(chunks: seq<seq<Entry>>, current: seq<Entry>, options: Options) {
    && AllFit(chunks, options)
    && if current == [] then chunks == [] else Fits(current, options) && Full(chunks + [current], options)
  }

  lemma PrefixSteps(closed: seq<Entry>, current: seq<Entry>, entries: seq<Entry>, i: nat)
    requires i < |entries| && closed + current == entries[..i]
    ensures closed + current + [entries[i]] == entries[..i + 1]
    ensures closed + (current + [entries[i]]) == entries[..i + 1]
  {
  }

  /** The first refused entry decides the failure; otherwise the chunks split the entries and every one is full. */
  method ChunkEntriesByByteSize(entries: seq<Entry>,
                                options: Options) returns (result: Result<seq<seq<Entry>>, ChunkError>)
    ensures result.Err? ==> FirstRefusal(entries, options) == Some(result.error)
    ensures result.Ok? ==> FirstRefusal(entries, options) == None
    ensures result.Ok? ==> Splits(result.value, entries, options) && Full(result.value, options)
  {
    var chunks: seq<seq<Entry>> := [];
    var current: seq<Entry> := [];
    var currentBytes := 0;
    for i := 0 to |entries|
      invariant FirstRefusal(entries, options) == FirstRefusal(entries[i..], options)
      invariant Concat(chunks) + current == entries[..i] && currentBytes == Bytes(current, options)
      invariant Growing(chunks, current, options)
    {
      var entry := entries[i];
      RefusalSteps(entries, i, options);
      if |entry.value| > options.maxValueBytes {
        return Err(ValueTooLarge(|entry.value|));
      }
      var entryBytes := EstimateMutationBytes(entry, options);
      if entryBytes > options.maxTransactionBytes {
        return Err(EntryTooLarge(entryBytes));
      }
      var wouldExceedBytes := |current| > 0 && currentBytes + entryBytes > options.maxTransactionBytes;
      var wouldExceedEntries :=
        options.maxTransactionEntries.Some? && |current| > 0 && |current| >= options.maxTransactionEntries.value;
      WouldExceedTells(current, entry, options);
      PrefixSteps(Concat(chunks), current, entries, i);
      if wouldExceedBytes || wouldExceedEntries {
        CloseChunk(chunks, current, entry, options);
        chunks := chunks + [current];
        current := [entry];
        currentBytes := entryBytes;
      } else {
        ExtendChunk(chunks, current, entry, options);
        current := current + [entry];
        currentBytes := currentBytes + entryBytes;
      }
    }
    if |current| > 0 {
      LastChunk(chunks, current, options);
      chunks := chunks + [current];
    }
    return Ok(chunks);
  }

  predicate HasRoom(current: seq<Entry>, entry: Entry, options: Options) {
    current == [] ||
    (&& Bytes(current, options) + EstimateMutationBytes(entry, options) <= options.maxTransactionBytes
     && (options.maxTransactionEntries.Some? ==> |current| < options.maxTransactionEntries.value))
  }

  lemma WouldExceedTells(current: seq<Entry>, entry: Entry, options: Options)
    requires Refusal(entry, options) == None
    ensures Bytes(current + [entry], options) == Bytes(current, options) + EstimateMutationBytes(entry, options)
    ensures Fits(current + [entry], options) <==> HasRoom(current, entry, options)
  {
    BytesSnoc(current, entry, options);
  }

  lemma CloseChunk(chunks: seq<seq<Entry>>, current: seq<Entry>, entry: Entry, options: Options)
    requires Growing(chunks, current, options) && current != []
    requires !Fits(current + [entry], options) && Refusal(entry, options) == None
    ensures Growing(chunks + [current], [entry], options)
    ensures Bytes([entry], options) == EstimateMutationBytes(entry, options)
    ensures Concat(chunks + [current]) == Concat(chunks) + current
  {
    ConcatSnoc(chunks, current);
    BytesSnoc([], entry, options);
    assert [] + [entry] == [entry];
    assert (chunks + [current])[..|chunks|] == chunks;
    assert (chunks + [current] + [[entry]])[..|chunks| + 1] == chunks + [current];
  }

  lemma ExtendChunk(chunks: seq<seq<Entry>>, current: seq<Entry>, entry: Entry, options: Options)
    requires Growing(chunks, current, options) && Fits(current + [entry], options)
    ensures Growing(chunks, current + [entry], options)
  {
    assert (chunks + [current])[..|chunks|] == chunks;
    assert (chunks + [current + [entry]])[..|chunks|] == chunks;
  }

  lemma LastChunk(chunks: seq<seq<Entry>>, current: seq<Entry>, options: Options)
    requires Growing(chunks, current, options) && current != []
    ensures AllFit(chunks + [current], options) && Full(chunks + [current], options)
    ensures Concat(chunks + [current]) == Concat(chunks) + current
  {
    ConcatSnoc(chunks, current);
    assert (chunks + [current])[..|chunks|] == chunks;
  }

  // ---- No split has fewer chunks -------------------------------------------

  lemma {:induction false} BytesConcat(chunk: seq<Entry>, more: seq<Entry>, options: Options)
    ensures Bytes(chunk + more, options) == Bytes(chunk, options) + Bytes(more, options)
  {
    if more == [] {
      assert chunk + more == chunk;
    } else {
      var init := more[..|more| - 1];
      BytesConcat(chunk, init, options);
      assert (chunk + more)[..|chunk + more| - 1] == chunk + init;
    }
  }

  /** Any stretch of a chunk within the caps is within them. */
  lemma StretchesFit(entries: seq<Entry>, from: nat, lo: nat, hi: nat, to: nat, options: Options)
    requires from <= lo <= hi <= to <= |entries| && Fits(entries[from..to], options)
    ensures Fits(entries[lo..hi], options)
  {
    var head, middle, tail := entries[from..lo], entries[lo..hi], entries[hi..to];
    assert entries[from..to] == head + middle + tail;
    BytesConcat(head + middle, tail, options);
    BytesConcat(head, middle, options);
  }

  /** How many entries the first i chunks hold. */
  function Covered(chunks: seq<seq<Entry>>, i: nat): nat
    requires i <= |chunks|
  {
    if i == 0 then 0 else Covered(chunks, i - 1) + |chunks[i - 1]|
  }

  lemma {:induction false} ChunksAreStretches(chunks: seq<seq<Entry>>, i: nat)
    requires i < |chunks|
    ensures Covered(chunks, i) <= Covered(chunks, i + 1) <= Covered(chunks, |chunks|) == |Concat(chunks)|
    ensures chunks[i] == Concat(chunks)[Covered(chunks, i)..Covered(chunks, i + 1)]
  {
    var init := chunks[..|chunks| - 1];
    CoveredPrefix(chunks, |init|, i);
    CoveredPrefix(chunks, |init|, |init|);
    CoveredIsLength(init);
    if i < |init| {
      ChunksAreStretches(init, i);
      CoveredPrefix(chunks, |init|, i + 1);
    }
  }

  lemma {:induction false} CoveredPrefix(chunks: seq<seq<Entry>>, k: nat, i: nat)
    requires i <= k <= |chunks|
    ensures Covered(chunks[..k], i) == Covered(chunks, i)
  {
    if i > 0 {
      CoveredPrefix(chunks, k, i - 1);
    }
  }

  lemma {:induction false} CoveredIsLength(chunks: seq<seq<Entry>>)
    ensures Covered(chunks, |chunks|) == |Concat(chunks)|
  {
    if chunks != [] {
      CoveredIsLength(chunks[..|chunks| - 1]);
      CoveredPrefix(chunks, |chunks| - 1, |chunks| - 1);
    }
  }

  lemma OvertakingNeedsRoom(entries: seq<Entry>, from: nat, lo: nat, hi: nat, to: nat, chunk: seq<Entry>, next: Entry,
                            options: Options)
    requires from <= lo <= hi < to <= |entries| && Fits(entries[from..to], options)
    requires chunk == entries[lo..hi] && next == entries[hi]
    ensures Fits(chunk + [next], options)
  {
    StretchesFit(entries, from, lo, hi + 1, to, options);
    assert chunk + [next] == entries[lo..hi + 1];
  }

  lemma NextChunkStarts(chunks: seq<seq<Entry>>, i: nat, options: Options)
    requires Full(chunks, options) && i <= |chunks| && Covered(chunks, i) < |Concat(chunks)|
    ensures i < |chunks| && chunks[i] != [] && chunks[i][0] == Concat(chunks)[Covered(chunks, i)]
  {
    CoveredIsLength(chunks);
    FullAt(chunks, i, options);
    ChunksAreStretches(chunks, i);
  }

  lemma OvertakenChunkHasRoom(full: seq<seq<Entry>>, other: seq<seq<Entry>>, i: nat, options: Options)
    requires i < |full| && i < |other| && Full(full, options) && Fits(other[i], options)
    requires Concat(full) == Concat(other)
    requires Covered(other, i) <= Covered(full, i) && Covered(full, i + 1) < Covered(other, i + 1)
    ensures i + 1 < |full| && full[i + 1] != [] && Fits(full[i] + [full[i + 1][0]], options)
  {
    ChunksAreStretches(full, i);
    ChunksAreStretches(other, i);
    NextChunkStarts(full, i + 1, options);
    var whole := Concat(full);
    var from, lo, hi, to := Covered(other, i), Covered(full, i), Covered(full, i + 1), Covered(other, i + 1);
    assert other[i] == whole[from..to];
    OvertakingNeedsRoom(whole, from, lo, hi, to, full[i], full[i + 1][0], options);
  }

  lemma FullChunkIsNotOvertaken(full: seq<seq<Entry>>, other: seq<seq<Entry>>, i: nat, options: Options)
    requires Full(full, options) && AllFit(other, options) && Concat(full) == Concat(other)
    requires i < |full| && i < |other| && Covered(other, i) <= Covered(full, i)
    ensures Covered(other, i + 1) <= Covered(full, i + 1)
  {
    if Covered(full, i + 1) < Covered(other, i + 1) {
      AllFitAt(other, i, options);
      OvertakenChunkHasRoom(full, other, i, options);
      FullAt(full, i + 1, options);
    }
  }

  /** After equally many chunks, full chunks are at least as far along as any others. */
  lemma {:induction false} FullChunksStayAhead(full: seq<seq<Entry>>, other: seq<seq<Entry>>, i: nat, options: Options)
    requires Full(full, options) && AllFit(other, options) && Concat(full) == Concat(other)
    requires i <= |full| && i <= |other|
    ensures Covered(other, i) <= Covered(full, i)
  {
    if i > 0 {
      FullChunksStayAhead(full, other, i - 1, options);
      FullChunkIsNotOvertaken(full, other, i - 1, options);
    }
  }

  /** Chunks as the method returns them are as few as in any split of the same entries within the caps. */
  lemma FewestChunks(full: seq<seq<Entry>>, other: seq<seq<Entry>>, entries: seq<Entry>, options: Options)
    requires Splits(full, entries, options) && Full(full, options) && Splits(other, entries, options)
    ensures |full| <= |other|
  {
    if |other| < |full| {
      FullChunksStayAhead(full, other, |other|, options);
      CoveredIsLength(other);
      ChunksAreStretches(full, |other|);
      FullAt(full, |other|, options);
    }
  }

  /** There is only one full split of the entries: the one the method returns. */
  lemma FullSplitsAreUnique(a: seq<seq<Entry>>, b: seq<seq<Entry>>, entries: seq<Entry>, options: Options)
    requires Splits(a, entries, options) && Full(a, options) && Splits(b, entries, options) && Full(b, options)
    ensures a == b
  {
    FewestChunks(a, b, entries, options);
    FewestChunks(b, a, entries, options);
    forall i: nat | i < |a| ensures a[i] == b[i] {
      FullChunksStayAhead(a, b, i, options);
      FullChunksStayAhead(b, a, i, options);
      FullChunksStayAhead(a, b, i + 1, options);
      FullChunksStayAhead(b, a, i + 1, options);
      ChunksAreStretches(a, i);
      ChunksAreStretches(b, i);
    }
  }

  /** Something can be chunked at all exactly when no single entry is refused for its size. */
  lemma {:induction false} SplittableIffEveryEntryFits(entries: seq<Entry>, options: Options)
    ensures (exists chunks :: Splits(chunks, entries, options)) <==>
            (forall i :: 0 <= i < |entries| ==>
              EstimateMutationBytes(entries[i], options) <= options.maxTransactionBytes)
  {
    if chunks :| Splits(chunks, entries, options) {
      forall i | 0 <= i < |entries| ensures EstimateMutationBytes(entries[i], options) <= options.maxTransactionBytes {
        EntriesOfSplitsFit(chunks, entries, i, options);
      }
    }
    if forall i :: 0 <= i < |entries| ==> EstimateMutationBytes(entries[i], options) <= options.maxTransactionBytes {
      SingletonsSplit(entries, options);
    }
  }

  lemma {:induction false} EntriesOfSplitsFit(chunks: seq<seq<Entry>>, entries: seq<Entry>, i: nat, options: Options)
    requires Splits(chunks, entries, options) && i < |entries|
    ensures EstimateMutationBytes(entries[i], options) <= options.maxTransactionBytes
  {
    var init, last := chunks[..|chunks| - 1], chunks[|chunks| - 1];
    if i < |Concat(init)| {
      EntriesOfSplitsFit(init, Concat(init), i, options);
    } else {
      var k := i - |Concat(init)|;
      assert last[0..|last|] == last;
      StretchesFit(last, 0, k, k + 1, |last|, options);
      assert last[k..k + 1] == [] + [entries[i]];
      BytesSnoc([], entries[i], options);
    }
  }

  function Singletons(entries: seq<Entry>): seq<seq<Entry>> {
    if entries == [] then [] else Singletons(entries[..|entries| - 1]) + [[entries[|entries| - 1]]]
  }

  lemma {:induction false} SingletonsSplit(entries: seq<Entry>, options: Options)
    requires forall i :: 0 <= i < |entries| ==>
      EstimateMutationBytes(entries[i], options) <= options.maxTransactionBytes
    ensures Splits(Singletons(entries), entries, options)
  {
    if entries != [] {
      var init, last := entries[..|entries| - 1], entries[|entries| - 1];
      SingletonsSplit(init, options);
      ConcatSnoc(Singletons(init), [last]);
      BytesSnoc([], last, options);
      assert [] + [last] == [last];
      AllFitSnoc(Singletons(init), [last], options);
    }
  }

  // ---- The caps, in lengths --------------------------------------------------

  function Keys(chunk: seq<Entry>): seq<Byte> {
    if chunk == [] then [] else Keys(chunk[..|chunk| - 1]) + chunk[|chunk| - 1].key
  }

  function Contents(chunk: seq<Entry>): seq<Byte> {
    if chunk == [] then [] else Contents(chunk[..|chunk| - 1]) + chunk[|chunk| - 1].value
  }

  /** What a chunk takes: all its keys and values, and for each entry the subspace prefix and 64 bytes more. */
  function Size(chunk: seq<Entry>, options: Options): int {
    |Keys(chunk)| + |Contents(chunk)| + |chunk| * (options.subspaceBytes + 64)
  }

  lemma {:induction false} BytesAreLengths(chunk: seq<Entry>, options: Options)
    ensures Bytes(chunk, options) == Size(chunk, options)
  {
    if chunk != [] {
      var init, each := chunk[..|chunk| - 1], options.subspaceBytes + 64;
      BytesAreLengths(init, options);
      assert |chunk| * each == |init| * each + each;
    }
  }

  /** Every chunk of a split is within the byte cap, and holds one entry or no more than the entry cap. */
  lemma ChunksAreWithinCaps(chunks: seq<seq<Entry>>, entries: seq<Entry>, i: nat, options: Options)
    requires Splits(chunks, entries, options) && i < |chunks|
    ensures |Keys(chunks[i])| + |Contents(chunks[i])| + |chunks[i]| * (options.subspaceBytes + 64)
      <= options.maxTransactionBytes
    ensures options.maxTransactionEntries.Some? && |chunks[i]| > 1 ==>
      |chunks[i]| <= options.maxTransactionEntries.value
  {
    AllFitAt(chunks, i, options);
    BytesAreLengths(chunks[i], options);
  }

  lemma NoRoom(chunk: seq<Entry>, next: Entry, options: Options)
    requires chunk != [] && !Fits(chunk + [next], options)
    ensures Bytes(chunk, options) + EstimateMutationBytes(next, options) > options.maxTransactionBytes
      || (options.maxTransactionEntries.Some? && |chunk| >= options.maxTransactionEntries.value)
  {
    BytesSnoc(chunk, next, options);
  }

  /** A chunk before another was closed because the next entry would have broken a cap. */
  lemma ClosedForACap(chunks: seq<seq<Entry>>, i: nat, options: Options)
    requires Full(chunks, options) && i + 1 < |chunks|
    ensures chunks[i + 1] != []
    ensures var next := chunks[i + 1][0];
      Size(chunks[i], options) + options.subspaceBytes + |next.key| + |next.value| + 64 > options.maxTransactionBytes
      || (options.maxTransactionEntries.Some? && |chunks[i]| >= options.maxTransactionEntries.value)
  {
    FullAt(chunks, i, options);
    FullAt(chunks, i + 1, options);
    NoRoom(chunks[i], chunks[i + 1][0], options);
    BytesAreLengths(chunks[i], options);
  }

  /** Its value is within the value cap, and with its key and overhead it is within the byte cap. */
  predicate IsSmall(entry: Entry, options: Options) {
    && |entry.value| <= options.maxValueBytes
    && options.subspaceBytes + |entry.key| + |entry.value| + 64 <= options.maxTransactionBytes
  }

  /** Nothing is refused exactly when every entry is small enough. */
  lemma NothingIsRefusedIffSmall(entries: seq<Entry>, options: Options)
    ensures FirstRefusal(entries, options) == None <==> forall entry :: entry in entries ==> IsSmall(entry, options)
  {
    NothingIsRefusedIff(entries, options);
    if forall entry :: entry in entries ==> IsSmall(entry, options) {
      assert forall i :: 0 <= i < |entries| ==> IsSmall(entries[i], options);
    } else {
      var entry :| entry in entries && !IsSmall(entry, options);
      assert Refusal(entry, options).Some?;
    }
  }

  /** Otherwise it is the first entry too large that is refused: for its value, or else for all it takes. */
  lemma {:induction false} TheFirstIsRefused(entries: seq<Entry>, options: Options) returns (i: nat)
    requires FirstRefusal(entries, options).Some?
    ensures i < |entries| && forall j :: 0 <= j < i ==> IsSmall(entries[j], options)
    ensures var bytes := options.subspaceBytes + |entries[i].key| + |entries[i].value| + 64;
      match FirstRefusal(entries, options).value
      case ValueTooLarge(n) => n == |entries[i].value| > options.maxValueBytes
      case EntryTooLarge(n) => n == bytes > options.maxTransactionBytes && |entries[i].value| <= options.maxValueBytes
  {
    if Refusal(entries[0], options).Some? {
      i := 0;
    } else {
      var rest := TheFirstIsRefused(entries[1..], options);
      i := rest + 1;
      assert forall j :: 0 < j < i ==> entries[j] == entries[1..][j - 1];
    }
  }
}
