/** GetPartSize and CreateAndFormatPartition of system.c: which partitions a game gets. */
module Sizing {
  import opened Common
  import opened HdlfsTable

  const SIZES := 6
  const MAX_SUBS := 64

  /** APAPartSizeList, in CD sectors: 128 MB, 256 MB and so on up to 4 GB. */
  function Size(i: nat): (r: nat)
    requires i < SIZES
  {
    match i
    case 0 => 65536
    case 1 => 131072
    case 2 => 262144
    case 3 => 524288
    case 4 => 1048576
    case _ => 2097152
  }

  /** CD sectors not offered by partition `number`. */
  function ReservedSectors(number: nat): nat {
    if number == 0 then 0x800 else 1
  }

  /** CD sectors partition `number` offers when it has size `i`. */
  function Offer(i: nat, number: nat): nat
    requires i < SIZES
  {
    Size(i) - ReservedSectors(number)
  }

  /**
   The search stops at size `k`: it is the first that offers what is wanted or reaches the limit. A limit below the
   reserved area is none, because it is used as an unsigned number from there on.
   */
  predicate StopsAt(k: nat, number: nat, wanted: nat, maxSectors: int)
    requires k < SIZES
  {
    && (wanted <= Offer(k, number) || ReachesLimit(k, number, maxSectors))
    && forall j :: 0 <= j < k ==> Offer(j, number) < wanted && !ReachesLimit(j, number, maxSectors)
  }

  predicate ReachesLimit(k: nat, number: nat, maxSectors: int)
    requires k < SIZES
  {
    ReservedSectors(number) <= maxSectors <= Size(k)
  }

  /** What is wanted takes the whole size but for less than 128 MB. */
  predicate IsTight(k: nat, wanted: nat)
    requires k < SIZES
  {
    wanted <= Size(k) < wanted + Size(0)
  }

  /** The size index GetPartSize settles on for `wanted` sectors: where the search stops, or one below. */
  predicate Settled(r: nat, number: nat, wanted: nat, maxSectors: int) {
    exists k :: 0 <= k < SIZES && StopsAt(k, number, wanted, maxSectors)
      && r == if k == 0 || IsTight(k, wanted) then k else k - 1
  }

  /** No more than the largest size offers is asked for at once. */
  function Wanted(numSectors: nat, number: nat): nat {
    Min(numSectors, Offer(SIZES - 1, number))
  }

  /** GetPartSize; `sectorsInPart` keeps its old value when the override is no size. */
  method GetPartSize(numSectors: nat, oldSectorsInPart: nat, number: nat, override: int, maxSectors: int)
    returns (result: int, sectorsInPart: nat)
    requires -0x8000_0000 <= maxSectors < 0x8000_0000
    ensures override >= SIZES ==> result == -EINVAL && sectorsInPart == oldSectorsInPart
    ensures 0 <= override < SIZES ==> result == override && sectorsInPart == Offer(override, number)
    ensures override < 0 ==> 0 <= result < SIZES && sectorsInPart == Offer(result, number)
                             && Settled(result, number, Wanted(numSectors, number), maxSectors)
  {
    result, sectorsInPart := -EINVAL, oldSectorsInPart;
    var reserved := if number == 0 then 0x800 else 1;
    if override >= 0 {
      if override < SIZES {
        result, sectorsInPart := override, Size(override) - reserved;
      }
    } else {
      var wanted := if numSectors > Size(SIZES - 1) - reserved then Size(SIZES - 1) - reserved else numSectors;
      assert wanted <= Offer(SIZES - 1, number);
      var i := 0;
      while i < SIZES
        invariant 0 <= i <= SIZES && wanted == Wanted(numSectors, number)
        invariant forall j :: 0 <= j < i ==> Offer(j, number) < wanted && !ReachesLimit(j, number, maxSectors)
        invariant result == -EINVAL
      {
        if Size(i) - reserved >= wanted || Size(i) - reserved >= U32(maxSectors - reserved) {
          assert StopsAt(i, number, wanted, maxSectors);
          if i > 0 && (Size(i) < wanted || Size(i) - wanted >= Size(0)) {
            i := i - 1;
          }
          result, sectorsInPart := i, Size(i) - reserved;
          break;
        }
        i := i + 1;
      }
    }
  }

  /** Size `k` offers what is wanted, or reaches the limit, or is the largest of all. */
  predicate Large(k: nat, number: nat, numSectors: nat, maxSectors: int)
    requires k < SIZES
  {
    numSectors <= Offer(k, number) || k == SIZES - 1 || ReservedSectors(number) <= maxSectors <= Size(k)
  }

  lemma SizesGrow(i: nat, k: nat, number: nat)
    requires i < SIZES && k < SIZES
    ensures i < k ==> Size(i) < Size(k) && Offer(i, number) < Offer(k, number)
  {
  }

  /**
   A size first settled on wastes less than 128 MB, and every smaller size is too small for what is wanted and below the
   limit.
   */
  lemma SettledWastesLittle(r: nat, number: nat, numSectors: nat, maxSectors: int)
    requires Settled(r, number, Wanted(numSectors, number), maxSectors)
    ensures r < SIZES && Offer(r, number) < numSectors + 65536
    ensures forall j :: 0 <= j < r ==>
      Offer(j, number) < numSectors && (ReservedSectors(number) <= maxSectors ==> Size(j) < maxSectors)
  {
    var wanted := Wanted(numSectors, number);
    var i :| 0 <= i < SIZES && StopsAt(i, number, wanted, maxSectors)
      && r == if i == 0 || IsTight(i, wanted) then i else i - 1;
  }

  /**
   The smallest size that offers what is wanted is settled on if that is tight and no smaller size reaches the limit;
   otherwise it is no more than one below the first that is large enough or reaches the limit.
   */
  lemma SettledIsTight(r: nat, number: nat, numSectors: nat, maxSectors: int)
    requires Settled(r, number, Wanted(numSectors, number), maxSectors)
    ensures r < SIZES
    ensures forall k :: 0 <= k < SIZES && numSectors <= Offer(k, number) && Size(k) < numSectors + 65536
                        && (forall j :: 0 <= j < k ==> !Large(j, number, numSectors, maxSectors))
                        ==> r == k
    ensures Large(r, number, numSectors, maxSectors)
            || (r + 1 < SIZES && Large(r + 1, number, numSectors, maxSectors))
  {
    var wanted := Wanted(numSectors, number);
    var i :| 0 <= i < SIZES && StopsAt(i, number, wanted, maxSectors)
      && r == if i == 0 || IsTight(i, wanted) then i else i - 1;
    SizesGrow(i, SIZES - 1, number);
    assert Large(i, number, numSectors, maxSectors);
    forall k | 0 <= k < SIZES && numSectors <= Offer(k, number) && Size(k) < numSectors + 65536
               && forall j :: 0 <= j < k ==> !Large(j, number, numSectors, maxSectors)
      ensures r == k
    {
      SizesGrow(i, k, number);
      SizesGrow(k, i, number);
      SizesGrow(k, SIZES - 1, number);
    }
  }

  /**
   The size settled on passes the disk's limit exactly when that is none, or when the first size above a limit that is
   not a size itself is either the smallest of all or what is wanted takes it tightly and does not fit below.
   */
  lemma LimitIsPassedIff(r: nat, number: nat, numSectors: nat, maxSectors: int)
    requires Settled(r, number, Wanted(numSectors, number), maxSectors)
    ensures r < SIZES
    ensures maxSectors < Size(r) <==>
      maxSectors < ReservedSectors(number)
      || exists k :: 0 <= k < SIZES && maxSectors < Size(k)
                     && (k == 0 || (Size(k - 1) < maxSectors && Offer(k - 1, number) < Wanted(numSectors, number)
                                    && IsTight(k, Wanted(numSectors, number))))
  {
    var wanted := Wanted(numSectors, number);
    var i :| 0 <= i < SIZES && StopsAt(i, number, wanted, maxSectors)
      && r == if i == 0 || IsTight(i, wanted) then i else i - 1;
    if maxSectors < Size(r) && ReservedSectors(number) <= maxSectors {
      SizesGrow(r, i, number);
      assert r == 0 || !ReachesLimit(r - 1, number, maxSectors);
    }
    forall k | 0 < k < SIZES && ReservedSectors(number) <= maxSectors < Size(k) && Size(k - 1) < maxSectors
               && Offer(k - 1, number) < wanted && IsTight(k, wanted)
      ensures r == k
    {
      assert ReachesLimit(k, number, maxSectors);
      SizesGrow(i, k, number);
      SizesGrow(k, i, number);
      SizesGrow(i, k - 1, number);
    }
    if ReservedSectors(number) <= maxSectors < Size(0) {
      assert ReachesLimit(0, number, maxSectors);
    }
  }

  /** A limit that is one of the sizes is never passed. */
  lemma ListedLimitIsKept(r: nat, number: nat, numSectors: nat, limit: nat)
    requires limit < SIZES && Settled(r, number, Wanted(numSectors, number), Size(limit))
    ensures r < SIZES && Size(r) <= Size(limit)
  {
    LimitIsPassedIff(r, number, numSectors, Size(limit));
  }

  // ---------------------------------------------------------------- the loops

  /** What was asked of the partition driver: slice number, size index and answer. */
  datatype Request = Request(number: nat, index: nat, answer: int)

  /** What the slices of the given sizes offer. */
  function Offers(sizes: seq<nat>): (caps: seq<nat>)
    requires forall i :: 0 <= i < |sizes| ==> sizes[i] < SIZES
    ensures |caps| == |sizes|
  {
    seq(|sizes|, i requires 0 <= i < |sizes| => Offer(sizes[i], i))
  }

  predicate SizeIndices(sizes: seq<nat>) {
    forall i :: 0 <= i < |sizes| ==> sizes[i] < SIZES
  }

  /**
   What fileXioOpen with O_CREAT, and the HDDIO_ADD_SUB command of the APA driver, come to: at most 64 sub-partitions,
   otherwise anything; `driver` tells what the request with number `n` comes to.
   */
  function Answer(driver: nat -> int, n: nat, number: nat): int {
    if number > MAX_SUBS then -EFBIG else driver(n)
  }

  /** The driver has answered these requests from request number `from` on. */
  predicate AnsweredBy(driver: nat -> int, from: nat, log: seq<Request>) {
    forall i :: 0 <= i < |log| ==> log[i].answer == Answer(driver, from + i, log[i].number)
  }

  lemma AnsweredByBoth(driver: nat -> int, from: nat, log: seq<Request>, more: seq<Request>)
    requires AnsweredBy(driver, from, log) && AnsweredBy(driver, from + |log|, more)
    ensures AnsweredBy(driver, from, log + more)
  {
  }

  /** One partition: sizes are tried from the one settled on downwards for as long as the driver finds no space. */
  method CreateSlice(remaining: nat, number: nat, maxSectors: int, driver: nat -> int, asked: nat)
    returns (result: int, index: nat, sectorsInPart: nat, log: seq<Request>)
    requires -0x8000_0000 <= maxSectors < 0x8000_0000
    ensures index < SIZES && sectorsInPart == Offer(index, number) && sectorsInPart < remaining + 65536
    ensures result >= 0 ==> number <= MAX_SUBS
    ensures IsSliceLog(log, number, remaining, maxSectors) && AnsweredBy(driver, asked, log)
    ensures |log| > 0 && log[|log| - 1] == Request(number, index, result)
  {
    hide Settled;
    var chosen;
    chosen, sectorsInPart := GetPartSize(remaining, 0, number, -1, maxSectors);
    SettledWastesLittle(chosen, number, remaining, maxSectors);
    index := chosen;
    result := Answer(driver, asked, number);
    log := [Request(number, index, result)];
    while result == -ENOSPC && index >= 1
      invariant index <= chosen && sectorsInPart == Offer(index, number)
      invariant |log| > 0 && log[0].index == chosen && log[|log| - 1] == Request(number, index, result)
      invariant result >= 0 ==> number <= MAX_SUBS
      invariant Descending(log, number) && AnsweredBy(driver, asked, log)
      decreases index
    {
      var next;
      next, sectorsInPart := GetPartSize(remaining, sectorsInPart, number, index - 1, maxSectors);
      index := next;
      result := Answer(driver, asked + |log|, number);
      log := log + [Request(number, index, result)];
    }
  }

  /**
   The requests for one slice: first the size settled on for what remains, then the next smaller one each time there was
   no space, until there was or no size is left.
   */
  predicate IsSliceLog(log: seq<Request>, number: nat, remaining: nat, maxSectors: int) {
    && |log| > 0 && Descending(log, number)
    && Settled(log[0].index, number, Wanted(remaining, number), maxSectors)
    && (log[|log| - 1].answer == -ENOSPC ==> log[|log| - 1].index == 0)
  }

  /** Requests for one slice, each for the next smaller size because there was no space for the one before. */
  predicate Descending(log: seq<Request>, number: nat) {
    && (forall i :: 0 <= i < |log| ==> log[i].number == number && log[i].index < SIZES)
    && forall i :: 0 <= i < |log| - 1 ==> log[i].answer == -ENOSPC && log[i + 1].index == log[i].index - 1
  }

  /** The slices cover the game; all but the last are filled, and less than 128 MB of the last is spare. */
  predicate Covers(sizes: seq<nat>, numSectors: nat) {
    && SizeIndices(sizes) && 0 < |sizes| <= MAX_PARTS
    && var total := TotalCapacity(Offers(sizes));
    && numSectors <= total < numSectors + 65536
    && (|sizes| > 1 ==> TotalCapacity(Offers(sizes[..|sizes| - 1])) < numSectors)
  }

  lemma OffersSnoc(sizes: seq<nat>, i: nat)
    requires SizeIndices(sizes) && i < SIZES
    ensures SizeIndices(sizes + [i])
    ensures TotalCapacity(Offers(sizes + [i])) == TotalCapacity(Offers(sizes)) + Offer(i, |sizes|)
  {
    var caps := Offers(sizes + [i]);
    assert caps[..|sizes|] == Offers(sizes);
  }

  lemma NothingOffered()
    ensures TotalCapacity(Offers([])) == 0
  {
  }

  lemma CoversSizes(sizes: seq<nat>, numSectors: nat)
    requires Covers(sizes, numSectors)
    ensures SizeIndices(sizes) && 0 < |sizes| <= MAX_PARTS
  {
  }

  /** What a game of `numSectors` still needs behind slices of the given sizes. */
  function Remaining(numSectors: nat, sizes: seq<nat>): nat
    requires SizeIndices(sizes)
  {
    if TotalCapacity(Offers(sizes)) > numSectors then 0 else numSectors - TotalCapacity(Offers(sizes))
  }

  /**
   Everything that was asked of the driver, slice by slice: each slice for what those before it have left over, and
   granted with the size it was last asked for, except that the last slice may have been refused.
   */
  ghost predicate Asked(runs: seq<seq<Request>>, sizes: seq<nat>, numSectors: nat, maxSectors: int,
                        driver: nat -> int)
  {
    && SizeIndices(sizes) && |sizes| <= |runs| <= |sizes| + 1
    && AnsweredBy(driver, 0, Flatten(runs))
    && (forall n :: 0 <= n < |runs| ==> IsSliceLog(runs[n], n, Remaining(numSectors, sizes[..n]), maxSectors))
    && (forall n :: 0 <= n < |sizes| ==> IsGranted(runs[n], sizes[n]))
    && (|sizes| < |runs| ==> IsRefused(runs[|sizes|]))
  }

  predicate IsGranted(log: seq<Request>, size: nat) {
    |log| > 0 && log[|log| - 1].answer >= 0 && log[|log| - 1].index == size
  }

  predicate IsRefused(log: seq<Request>) {
    |log| > 0 && log[|log| - 1].answer < 0
  }

  lemma NothingAsked(numSectors: nat, maxSectors: int, driver: nat -> int)
    ensures Asked([], [], numSectors, maxSectors, driver)
    ensures Remaining(numSectors, []) == numSectors
  {
  }

  /** One more slice has been asked for. */
  lemma AskedMore(runs: seq<seq<Request>>, sizes: seq<nat>, numSectors: nat, maxSectors: int, driver: nat -> int,
                  log: seq<Request>)
    requires Asked(runs, sizes, numSectors, maxSectors, driver) && |runs| == |sizes|
    requires IsSliceLog(log, |sizes|, Remaining(numSectors, sizes), maxSectors)
    requires AnsweredBy(driver, |Flatten(runs)|, log)
    ensures IsRefused(log) ==> Asked(runs + [log], sizes, numSectors, maxSectors, driver)
    ensures !IsRefused(log) ==>
      log[|log| - 1].index < SIZES
      && Asked(runs + [log], sizes + [log[|log| - 1].index], numSectors, maxSectors, driver)
  {
    hide IsSliceLog, TotalCapacity, Offers, AnsweredBy, Flatten;
    FlattenSnoc(runs, log);
    AnsweredByBoth(driver, 0, Flatten(runs), log);
    LogHasSize(log, |sizes|, Remaining(numSectors, sizes), maxSectors);
    assert sizes[..|sizes|] == sizes;
    if !IsRefused(log) {
      var sizes' := sizes + [log[|log| - 1].index];
      forall n | 0 <= n < |sizes'|
        ensures IsSliceLog((runs + [log])[n], n, Remaining(numSectors, sizes'[..n]), maxSectors)
      {
        assert sizes'[..n] == sizes[..n];
      }
    }
  }

  lemma LogHasSize(log: seq<Request>, number: nat, remaining: nat, maxSectors: int)
    requires IsSliceLog(log, number, remaining, maxSectors)
    ensures |log| > 0 && log[|log| - 1].index < SIZES
  {
    hide Settled;
  }

  /**
   CreateAndFormatPartition up to the formatting; `sizes` are those the driver has granted, main partition first. It
   fails only with an answer of the driver's.
   */
  method CreatePartitions(numSectors: nat, maxSectors: int, driver: nat -> int)
    returns (result: int, sizes: seq<nat>, ghost runs: seq<seq<Request>>)
    requires -0x8000_0000 <= maxSectors < 0x8000_0000
    ensures Asked(runs, sizes, numSectors, maxSectors, driver)
    ensures result >= 0 <==> |runs| == |sizes|
    ensures result >= 0 ==> Covers(sizes, numSectors)
    ensures result < 0 ==> |runs[|sizes|]| > 0 && runs[|sizes|][|runs[|sizes|]| - 1].answer == result
  {
    hide TotalCapacity, Offers, Settled, Descending, Asked, AnsweredBy, IsSliceLog;
    NothingOffered();
    NothingAsked(numSectors, maxSectors, driver);
    var fd, index, sectorsInPart, log;
    sizes, runs := [], [];
    fd, index, sectorsInPart, log := CreateSlice(numSectors, 0, maxSectors, driver, 0);
    AskedMore(runs, sizes, numSectors, maxSectors, driver, log);
    runs := runs + [log];
    if fd < 0 {
      return fd, sizes, runs;
    }
    OffersSnoc(sizes, index);
    sizes := sizes + [index];
    result := 0;
    var remaining: nat := if sectorsInPart > numSectors then 0 else numSectors - sectorsInPart;
    var number, asked := 1, |log|;
    FlattenSnoc([], log);
    assert sizes[..0] == [];
    while remaining > 0 && result >= 0
      invariant Asked(runs, sizes, numSectors, maxSectors, driver) && SizeIndices(sizes)
      invariant result >= 0 ==> 0 < |sizes| == |runs| == number <= MAX_PARTS && asked == |Flatten(runs)|
      invariant result >= 0 ==> TotalCapacity(Offers(sizes)) < numSectors + 65536
      invariant result >= 0 ==> remaining == Remaining(numSectors, sizes)
      invariant result >= 0 && |sizes| > 1 ==> TotalCapacity(Offers(sizes[..|sizes| - 1])) < numSectors
      invariant result < 0 ==> |runs| == |sizes| + 1 && |runs[|sizes|]| > 0
      invariant result < 0 ==> runs[|sizes|][|runs[|sizes|]| - 1].answer == result
      decreases remaining, result >= 0
    {
      result, index, sectorsInPart, log := CreateSlice(remaining, number, maxSectors, driver, asked);
      AskedMore(runs, sizes, numSectors, maxSectors, driver, log);
      FlattenSnoc(runs, log);
      runs, asked := runs + [log], asked + |log|;
      if result >= 0 {
        OffersSnoc(sizes, index);
        sizes := sizes + [index];
        assert sizes[..|sizes| - 1] + [index] == sizes;
      }
      remaining := if sectorsInPart > remaining then 0 else remaining - sectorsInPart;
      number := number + 1;
    }
  }

  // ---------------------------------------------------------------- agreement with hdlfs_format

  /** The partitions the driver made for the given sizes. */
  predicate Granted(parts: seq<Part>, sizes: seq<nat>) {
    && SizeIndices(sizes) && |parts| == |sizes| && Slot(parts)
    && forall i :: 0 <= i < |parts| ==> parts[i].length == 4 * Size(sizes[i])
  }

  lemma CapacitiesAreOffers(parts: seq<Part>, sizes: seq<nat>)
    requires Granted(parts, sizes)
    ensures Capacities(parts) == Offers(sizes)
  {
    forall i | 0 <= i < |parts| ensures Capacity(parts[i], i) == Offer(sizes[i], i) {
      assert U32(parts[i].length - Reserved(i)) == 4 * Offer(sizes[i], i);
    }
  }

  lemma {:induction false} TotalGrows(caps: seq<nat>, i: nat)
    requires i <= |caps|
    ensures TotalCapacity(caps[..i]) <= TotalCapacity(caps)
  {
    if i < |caps| {
      TotalGrows(caps[..|caps| - 1], i);
      assert caps[..|caps| - 1][..i] == caps[..i];
    } else {
      assert caps[..i] == caps;
    }
  }

  /** A partition before the last is wholly inside the game when all but the last together are smaller than it. */
  lemma FullSlice(caps: seq<nat>, numSectors: nat, i: nat)
    requires i < |caps| - 1 && TotalCapacity(caps[..|caps| - 1]) < numSectors
    ensures Slice(caps, numSectors, i) == caps[i]
  {
    var most := caps[..|caps| - 1];
    TotalGrows(most, i + 1);
    assert most[..i + 1] == caps[..i + 1];
    BeforeIsWhatFits(caps, numSectors, i);
    assert caps[..i + 1][..i] == caps[..i];
  }

  lemma OffersButLast(sizes: seq<nat>)
    requires SizeIndices(sizes) && |sizes| > 0
    ensures Offers(sizes)[..|sizes| - 1] == Offers(sizes[..|sizes| - 1])
  {
  }

  lemma SliceBound(caps: seq<nat>, numSectors: nat, i: nat)
    requires i < |caps|
    ensures Slice(caps, numSectors, i) <= caps[i]
  {
  }

  lemma OfferBound(sizes: seq<nat>, i: nat)
    requires SizeIndices(sizes) && i < |sizes|
    ensures Offers(sizes)[i] < MAX_SLICE
  {
  }

  /**
   hdlfs_format finds room for the whole game in partitions made like this, and no slice too long; every slice but
   the last is all its partition offers.
   */
  lemma FormatAccepts(parts: seq<Part>, sizes: seq<nat>, numSectors: nat)
    requires Covers(sizes, numSectors) && Granted(parts, sizes)
    ensures Before(Capacities(parts), numSectors, |parts|) == numSectors
    ensures forall i :: 0 <= i < |parts| ==> Slice(Capacities(parts), numSectors, i) < MAX_SLICE
    ensures forall i :: 0 <= i < |parts| - 1 ==> Slice(Capacities(parts), numSectors, i) == Capacities(parts)[i]
    ensures SlicesOk(parts, numSectors) <==> forall i :: 0 <= i < |parts| ==> parts[i].start < 0x8000_0000
  {
    hide Before, TotalCapacity, Capacities, Offers, Slice;
    CapacitiesAreOffers(parts, sizes);
    var caps := Offers(sizes);
    FormatCoversIffCapacity(caps, numSectors);
    OffersButLast(sizes);
    forall i | 0 <= i < |parts|
      ensures Slice(caps, numSectors, i) < MAX_SLICE && (i < |parts| - 1 ==> Slice(caps, numSectors, i) == caps[i])
      ensures SliceOk(parts, numSectors, i) == (parts[i].start < 0x8000_0000)
    {
      OfferBound(sizes, i);
      SliceBound(caps, numSectors, i);
      if i < |parts| - 1 {
        FullSlice(caps, numSectors, i);
      }
    }
  }

  /**
   CreateAndFormatPartition. `starts` is where the driver puts the partitions. Once they are made, formatting can only
   fail because one starts at 2^31 or beyond, or because the game information cannot be written.
   */
  method CreateAndFormatPartition(numSectors: nat, maxSectors: int, driver: nat -> int, starts: seq<nat>, writeOk: bool,
                                  table: array<PartSpec>)
    returns (result: int, created: bool, sizes: seq<nat>, parts: seq<Part>, ghost runs: seq<seq<Request>>)
    requires numSectors < U32_RANGE && -0x8000_0000 <= maxSectors < 0x8000_0000 && table.Length == MAX_PARTS
    requires |starts| == MAX_PARTS && forall i :: 0 <= i < |starts| ==> starts[i] < U32_RANGE
    modifies table
    ensures Asked(runs, sizes, numSectors, maxSectors, driver) && (created <==> |runs| == |sizes|)
    ensures !created ==>
      result < 0 && |runs[|sizes|]| > 0 && runs[|sizes|][|runs[|sizes|]| - 1].answer == result
    ensures created ==> Covers(sizes, numSectors) && Granted(parts, sizes)
    ensures created ==> (result >= 0 <==> writeOk && forall i :: 0 <= i < |sizes| ==> starts[i] < 0x8000_0000)
    ensures result >= 0 ==> Filled(table[..], parts, numSectors, |parts|)
  {
    hide Before, TotalCapacity, Capacities, Offers, Slice, Filled, Covers, SlicesOk, Asked;
    parts := [];
    result, sizes, runs := CreatePartitions(numSectors, maxSectors, driver);
    created := result >= 0;
    if created {
      CoversSizes(sizes, numSectors);
      parts := seq(|sizes|, i requires 0 <= i < |sizes| => Part(starts[i], 4 * Size(sizes[i])));
      assert forall i :: 0 <= i < |parts| ==> parts[i].start == starts[i];
      FormatAccepts(parts, sizes, numSectors);
      result := Format(parts, numSectors, writeOk, table);
    }
  }
}
