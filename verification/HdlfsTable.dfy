/** hdlfs_format: cutting a game into slices over a main partition and its sub-partitions. */
module HdlfsTable {
  import opened Common

  const MAX_PARTS := 65
  const MAX_SLICE := 0x200000      // CD sectors; from here on the byte size leaves 32 bits

  /** part_specs_t: offset in CD sectors, start in HDD sectors, size in bytes. */
  datatype PartSpec = PartSpec(partOffset: nat, dataStart: nat, partSize: nat)

  const NO_SPEC := PartSpec(0, 0, 0)

  /** An APA partition as the driver's file slot records it, in HDD sectors. */
  datatype Part = Part(start: nat, length: nat)

  /** What a file slot of the APA driver can hold: 32-bit words, and no more entries than the table has. */
  predicate Slot(parts: seq<Part>) {
    && 0 < |parts| <= MAX_PARTS
    && forall i :: 0 <= i < |parts| ==> parts[i].start < U32_RANGE && parts[i].length < U32_RANGE
  }

  /** HDD sectors kept free at the start of a partition. */
  function Reserved(i: nat): nat {
    if i == 0 then 0x2000 else 4
  }

  /** CD sectors a partition offers. */
  function Capacity(part: Part, i: nat): nat
    requires part.length < U32_RANGE
  {
    U32(part.length - Reserved(i)) / 4
  }

  function Capacities(parts: seq<Part>): (caps: seq<nat>)
    requires Slot(parts)
    ensures |caps| == |parts|
  {
    seq(|parts|, i requires 0 <= i < |parts| => Capacity(parts[i], i))
  }

  /** CD sectors of the game that lie before partition `i`, the partitions offering `caps`. */
  function Before(caps: seq<nat>, numSectors: nat, i: nat): (r: nat)
    requires i <= |caps|
    ensures r <= numSectors
  {
    if i == 0 then 0
    else var b := Before(caps, numSectors, i - 1); b + Min(caps[i - 1], numSectors - b)
  }

  /** CD sectors of the game that go to partition `i`. */
  function Slice(caps: seq<nat>, numSectors: nat, i: nat): nat
    requires i < |caps|
  {
    Min(caps[i], numSectors - Before(caps, numSectors, i))
  }

  function TotalCapacity(caps: seq<nat>): nat {
    if |caps| == 0 then 0 else TotalCapacity(caps[..|caps| - 1]) + caps[|caps| - 1]
  }

  /** The table entry hdlfs_format makes for partition `i`. */
  function Spec(parts: seq<Part>, numSectors: nat, i: nat): PartSpec
    requires Slot(parts) && i < |parts|
  {
    var caps := Capacities(parts);
    PartSpec(Before(caps, numSectors, i), U32(parts[i].start + Reserved(i)), 2048 * Slice(caps, numSectors, i))
  }

  /** Partition `i` gets past the checks of the loop. */
  predicate SliceOk(parts: seq<Part>, numSectors: nat, i: nat)
    requires Slot(parts) && i < |parts|
  {
    0 <= S32(parts[i].start) && Slice(Capacities(parts), numSectors, i) < MAX_SLICE
  }

  predicate SlicesOk(parts: seq<Part>, numSectors: nat)
    requires Slot(parts)
  {
    forall i :: 0 <= i < |parts| ==> SliceOk(parts, numSectors, i)
  }

  /** The error partition `i` is refused with: a start that reads as a negative number is taken for one. */
  function Refusal(parts: seq<Part>, i: nat): int
    requires Slot(parts) && i < |parts|
  {
    if S32(parts[i].start) < 0 then S32(parts[i].start) else -EINVAL
  }

  /** Partition `i` is the first that does not pass. */
  predicate FirstBad(parts: seq<Part>, numSectors: nat, i: nat)
    requires Slot(parts) && i < |parts|
  {
    !SliceOk(parts, numSectors, i) && forall k :: 0 <= k < i ==> SliceOk(parts, numSectors, k)
  }

  /** The entries of the first `n` partitions, and zeros behind them. */
  predicate Filled(table: seq<PartSpec>, parts: seq<Part>, numSectors: nat, n: nat)
    requires Slot(parts)
  {
    && |table| == MAX_PARTS && n <= |parts|
    && forall i :: 0 <= i < MAX_PARTS ==> table[i] == if i < n then Spec(parts, numSectors, i) else NO_SPEC
  }

  /** One turn of the loop of hdlfs_format: the entry of partition `i`, or the error it is refused with. */
  method DescribePart(parts: seq<Part>, numSectors: nat, i: nat, sectorNumber: nat, table: array<PartSpec>)
    returns (result: int, next: nat)
    requires Slot(parts) && numSectors < U32_RANGE && i < |parts|
    requires sectorNumber == Before(Capacities(parts), numSectors, i)
    requires table.Length == MAX_PARTS && Filled(table[..], parts, numSectors, i)
    modifies table
    ensures result >= 0 <==> SliceOk(parts, numSectors, i)
    ensures result >= 0 ==>
      next == Before(Capacities(parts), numSectors, i + 1) && Filled(table[..], parts, numSectors, i + 1)
    ensures result < 0 ==> result == Refusal(parts, i)
  {
    next := sectorNumber;
    result := S32(parts[i].start);
    if result >= 0 {
      var reserved := if i == 0 then 0x2000 else 4;
      var sectorsInPart := U32(parts[i].length - reserved) / 4;
      assert sectorsInPart == Capacities(parts)[i];
      var sectorsRemaining := numSectors - sectorNumber;
      sectorsInPart := if sectorsInPart > sectorsRemaining then sectorsRemaining else sectorsInPart;
      if sectorsInPart >= MAX_SLICE {
        result := -EINVAL;
      } else {
        table[i] := PartSpec(sectorNumber, U32(result + reserved), sectorsInPart * 2048);
        next := sectorNumber + sectorsInPart;
      }
    }
  }

  /**
   hdlfs_format. `writeOk` says whether writing the game information succeeds. The table is zeroed first;
   it is on the disk if and only if the result is 0.
   */
  method Format(parts: seq<Part>, numSectors: nat, writeOk: bool, table: array<PartSpec>) returns (result: int)
    requires Slot(parts) && numSectors < U32_RANGE && table.Length == MAX_PARTS
    modifies table
    ensures result == 0 <==>
            SlicesOk(parts, numSectors) && Before(Capacities(parts), numSectors, |parts|) == numSectors && writeOk
    ensures result == 0 ==> Filled(table[..], parts, numSectors, |parts|)
    ensures result <= 0
    ensures forall i :: 0 <= i < |parts| && FirstBad(parts, numSectors, i) ==> result == Refusal(parts, i)
    ensures SlicesOk(parts, numSectors) && result != 0 ==>
              result == if Before(Capacities(parts), numSectors, |parts|) < numSectors then -ENOMEM else -EIO
  {
    hide Before, Capacities, SliceOk, Refusal, Filled;
    forall i | 0 <= i < table.Length {
      table[i] := NO_SPEC;
    }
    NothingFilled(table[..], parts, numSectors);
    result := 0;
    var i, sectorNumber := 0, 0;
    while i < |parts| && result >= 0
      invariant 0 <= i <= |parts|
      invariant result >= 0 ==> sectorNumber == Before(Capacities(parts), numSectors, i)
      invariant result >= 0 ==> forall k :: 0 <= k < i ==> SliceOk(parts, numSectors, k)
      invariant result < 0 ==> 0 < i && FirstBad(parts, numSectors, i - 1) && result == Refusal(parts, i - 1)
      invariant result >= 0 ==> Filled(table[..], parts, numSectors, i)
      decreases |parts| - i
    {
      result, sectorNumber := DescribePart(parts, numSectors, i, sectorNumber, table);
      i := i + 1;
    }
    if result >= 0 {
      if sectorNumber < numSectors {
        result := -ENOMEM;
      } else {
        result := if writeOk then 0 else -EIO;
      }
    }
  }

  lemma NothingFilled(table: seq<PartSpec>, parts: seq<Part>, numSectors: nat)
    requires Slot(parts) && |table| == MAX_PARTS && forall i :: 0 <= i < MAX_PARTS ==> table[i] == NO_SPEC
    ensures Filled(table, parts, numSectors, 0) && Before(Capacities(parts), numSectors, 0) == 0
  {
  }

  /** Partitions are filled in order: what lies before one is everything that fits, up to the whole game. */
  lemma {:induction false} BeforeIsWhatFits(caps: seq<nat>, numSectors: nat, i: nat)
    requires i <= |caps|
    ensures Before(caps, numSectors, i) == Min(numSectors, TotalCapacity(caps[..i]))
  {
    if i > 0 {
      BeforeIsWhatFits(caps, numSectors, i - 1);
      assert caps[..i][..i - 1] == caps[..i - 1];
    }
  }

  /** Formatting refuses a set of partitions for its size exactly when they cannot hold the game. */
  lemma FormatCoversIffCapacity(caps: seq<nat>, numSectors: nat)
    ensures Before(caps, numSectors, |caps|) == numSectors <==> numSectors <= TotalCapacity(caps)
  {
    BeforeIsWhatFits(caps, numSectors, |caps|);
    assert caps[..|caps|] == caps;
  }

  lemma {:induction false} BeforeGrows(caps: seq<nat>, numSectors: nat, i: nat, j: nat)
    requires i <= j <= |caps|
    ensures Before(caps, numSectors, i) <= Before(caps, numSectors, j)
    decreases j
  {
    if i < j {
      BeforeGrows(caps, numSectors, i, j - 1);
    }
  }

  /** Every partition before one that is used is used to its last sector. */
  lemma OnlyTheLastSliceIsPartial(caps: seq<nat>, numSectors: nat, i: nat, j: nat)
    requires i < j < |caps| && Slice(caps, numSectors, j) > 0
    ensures Slice(caps, numSectors, i) == caps[i]
  {
    BeforeGrows(caps, numSectors, i + 1, j);
  }

  /** The slices tile the game: each sector lies in exactly one of them. */
  lemma {:induction false} SlicesTile(caps: seq<nat>, numSectors: nat, sector: nat) returns (k: nat)
    requires sector < Before(caps, numSectors, |caps|)
    ensures k < |caps|
    ensures Before(caps, numSectors, k) <= sector < Before(caps, numSectors, k) + Slice(caps, numSectors, k)
    ensures forall j :: 0 <= j < |caps| && j != k ==>
              !(Before(caps, numSectors, j) <= sector < Before(caps, numSectors, j) + Slice(caps, numSectors, j))
  {
    k := 0;
    while sector >= Before(caps, numSectors, k + 1)
      invariant k < |caps| && Before(caps, numSectors, k) <= sector
      decreases |caps| - k
    {
      k := k + 1;
    }
    forall j | 0 <= j < |caps| && j != k
      ensures !(Before(caps, numSectors, j) <= sector < Before(caps, numSectors, j) + Slice(caps, numSectors, j))
    {
      if j < k {
        BeforeGrows(caps, numSectors, j + 1, k);
      } else {
        BeforeGrows(caps, numSectors, k + 1, j);
      }
    }
  }
}
