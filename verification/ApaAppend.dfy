/**
 hddAddPartitionHere of hdd.c: a partition is put at the end of the disk's partition list, behind fillers that align it.
 */
module ApaAppend {
  import opened Common
  import opened ApaSizes

  /** The part of an APA header that makes the list; `free` marks a partition that holds nothing. */
  datatype Header = Header(start: nat, length: nat, next: nat, prev: nat, free: bool)

  /** `order` lists the partitions of a circular doubly linked list, the first at sector 0. */
  ghost predicate Linked(headers: map<nat, Header>, order: seq<nat>) {
    && |order| > 0 && order[0] == 0
    && (forall k :: k in headers <==> k in order)
    && forall i :: 0 <= i < |order| ==> Node(headers, order, i)
  }

  predicate Node(headers: map<nat, Header>, order: seq<nat>, i: nat)
    requires i < |order|
  {
    && order[i] in headers
    && headers[order[i]].start == order[i]
    && headers[order[i]].next == (if i + 1 < |order| then order[i + 1] else 0)
    && headers[order[i]].prev == (if i > 0 then order[i - 1] else order[|order| - 1])
  }

  /** The partitions lie one behind the other, each at a multiple of its own length. */
  ghost predicate Tiled(headers: map<nat, Header>, order: seq<nat>)
    requires Linked(headers, order)
  {
    && (forall i :: 0 <= i < |order| ==> Aligned(headers[order[i]]))
    && forall i :: 0 <= i < |order| - 1 ==> order[i + 1] == order[i] + headers[order[i]].length
  }

  predicate Aligned(h: Header) {
    IsSize(h.length) && Multiple(h.start, h.length)
  }

  ghost predicate List(headers: map<nat, Header>, order: seq<nat>) {
    Linked(headers, order) && Tiled(headers, order)
  }

  /** The sector behind the last partition. */
  ghost function End(headers: map<nat, Header>, order: seq<nat>): nat
    requires Linked(headers, order)
  {
    assert Node(headers, order, |order| - 1);
    order[|order| - 1] + headers[order[|order| - 1]].length
  }

  lemma MultipleSum(x: nat, y: nat, n: nat)
    requires Multiple(x, n) && Multiple(y, n)
    ensures Multiple(x + y, n)
  {
    assert x + y == n * (x / n + y / n);
    Product(n, x / n + y / n);
  }

  /** The list ends on a multiple of the smallest size. */
  lemma EndIsMultiple(headers: map<nat, Header>, order: seq<nat>)
    requires List(headers, order)
    ensures Multiple(End(headers, order), SMALLEST)
  {
    hide Multiple, IsSize;
    assert Node(headers, order, |order| - 1);
    var h := headers[order[|order| - 1]];
    assert Aligned(h);
    SizeAtLeast(h.length);
    SmallestIsSize();
    OwnMultiple(h.length);
    SmallerDivides(h.start, SMALLEST, h.length);
    SmallerDivides(h.length, SMALLEST, h.length);
    MultipleSum(h.start, h.length, SMALLEST);
  }

  /** Every partition lies before the end, and before those behind it in the list. */
  lemma {:induction false} BeforeEnd(headers: map<nat, Header>, order: seq<nat>, i: nat)
    requires List(headers, order) && i < |order|
    ensures order[i] in headers && order[i] + headers[order[i]].length <= End(headers, order)
    ensures forall j :: 0 <= j < |order| && i < j ==> order[i] + headers[order[i]].length <= order[j]
    decreases |order| - i
  {
    hide Multiple, IsSize;
    assert Node(headers, order, i) && Aligned(headers[order[i]]);
    SizeAtLeast(headers[order[i]].length);
    if i + 1 < |order| {
      BeforeEnd(headers, order, i + 1);
      assert Node(headers, order, i + 1) && Aligned(headers[order[i + 1]]);
      SizeAtLeast(headers[order[i + 1]].length);
    }
  }

  /** So no two partitions overlap. */
  lemma PartitionsApart(headers: map<nat, Header>, order: seq<nat>, i: nat, j: nat)
    requires List(headers, order) && i < j < |order|
    ensures order[i] in headers && order[i] + headers[order[i]].length <= order[j]
  {
    BeforeEnd(headers, order, i);
  }

  /** The header put behind `last`, and the links to it. */
  function Appended(headers: map<nat, Header>, last: nat, e: nat, n: nat, free: bool): map<nat, Header>
    requires last in headers && 0 in headers
  {
    var h1 := headers[e := Header(e, n, 0, last, free)];
    var h2 := h1[last := h1[last].(next := e)];
    h2[0 := h2[0].(prev := e)]
  }

  /** What the partitions are, links aside. */
  predicate Kept(before: map<nat, Header>, after: map<nat, Header>) {
    forall k :: k in before ==> k in after && Contents(after[k]) == Contents(before[k])
  }

  function Contents(h: Header): (nat, nat, bool) {
    (h.start, h.length, h.free)
  }

  lemma EndIsNew(headers: map<nat, Header>, order: seq<nat>)
    requires List(headers, order)
    ensures End(headers, order) > 0 && forall e :: End(headers, order) <= e ==> e !in headers
  {
    hide Multiple, IsSize;
    forall i | 0 <= i < |order| ensures order[i] < End(headers, order) {
      BeforeEnd(headers, order, i);
      assert Node(headers, order, i) && Aligned(headers[order[i]]);
      SizeAtLeast(headers[order[i]].length);
    }
  }

  lemma ListIsLinked(headers: map<nat, Header>, order: seq<nat>)
    requires List(headers, order)
    ensures Linked(headers, order)
  {
  }

  /** The first and the last partition of a list. */
  lemma Ends(headers: map<nat, Header>, order: seq<nat>)
    requires List(headers, order)
    ensures |order| > 0 && order[0] == 0 && 0 in headers && order[|order| - 1] in headers
    ensures headers[order[|order| - 1]].start == order[|order| - 1]
  {
    assert Node(headers, order, |order| - 1) && Node(headers, order, 0);
  }

  lemma AppendedKeys(headers: map<nat, Header>, last: nat, e: nat, n: nat, free: bool)
    requires last in headers && 0 in headers
    ensures forall k :: k in Appended(headers, last, e, n, free) <==> k in headers || k == e
  {
  }

  /** Starts grow along the list. */
  lemma Increasing(headers: map<nat, Header>, order: seq<nat>, i: nat, j: nat)
    requires List(headers, order) && i < j < |order|
    ensures order[i] < order[j]
  {
    hide Multiple, IsSize;
    BeforeEnd(headers, order, i);
    assert Aligned(headers[order[i]]);
    SizeAtLeast(headers[order[i]].length);
  }

  /** The links of partition `i` after one more has been put behind the last. */
  lemma NodeAfter(headers: map<nat, Header>, order: seq<nat>, n: nat, free: bool, i: nat)
    requires List(headers, order) && i <= |order|
    ensures order[|order| - 1] in headers && 0 in headers
    ensures var e := End(headers, order);
            var headers' := Appended(headers, order[|order| - 1], e, n, free);
            && Node(headers', order + [e], i)
            && (i < |order| ==> order[i] in headers && Contents(headers'[order[i]]) == Contents(headers[order[i]]))
            && (i == |order| ==> Contents(headers'[e]) == (e, n, free))
  {
    hide Tiled, List;
    EndIsNew(headers, order);
    ListIsLinked(headers, order);
    var last := |order| - 1;
    assert Node(headers, order, last) && Node(headers, order, 0);
    if i < |order| {
      assert Node(headers, order, i);
      if 0 < i {
        Increasing(headers, order, 0, i);
      }
      if i < last {
        Increasing(headers, order, i, last);
      }
    }
  }

  lemma AppendOne(headers: map<nat, Header>, order: seq<nat>, n: nat, free: bool)
    requires List(headers, order) && IsSize(n) && Multiple(End(headers, order), n)
    ensures order[|order| - 1] in headers && 0 in headers
    ensures var e := End(headers, order);
            var headers' := Appended(headers, order[|order| - 1], e, n, free);
            && List(headers', order + [e]) && End(headers', order + [e]) == e + n
            && Kept(headers, headers') && e !in headers && e in headers' && Contents(headers'[e]) == (e, n, free)
  {
    hide Multiple, IsSize, Appended, Node;
    var e, last, order' := End(headers, order), order[|order| - 1], order + [End(headers, order)];
    EndIsNew(headers, order);
    NodeAfter(headers, order, n, free, |order|);
    var headers' := Appended(headers, last, e, n, free);
    AppendedKeys(headers, last, e, n, free);
    forall i | 0 <= i < |order'|
      ensures Node(headers', order', i)
      ensures i < |order| ==>
        order[i] in headers && order[i] in headers' && Contents(headers'[order[i]]) == Contents(headers[order[i]])
    {
      NodeAfter(headers, order, n, free, i);
    }
    LinkedAfter(headers, headers', order, order', e);
    TiledAfter(headers, headers', order, e, n, free);
  }

  lemma LinkedAfter(headers: map<nat, Header>, headers': map<nat, Header>, order: seq<nat>, order': seq<nat>, e: nat)
    requires Linked(headers, order) && order' == order + [e]
    requires forall k :: k in headers' <==> k in headers || k == e
    requires forall i :: 0 <= i < |order'| ==> Node(headers', order', i)
    ensures Linked(headers', order')
  {
    hide Node;
  }

  lemma TiledAfter(headers: map<nat, Header>, headers': map<nat, Header>, order: seq<nat>, e: nat, n: nat, free: bool)
    requires List(headers, order) && e == End(headers, order) && Linked(headers', order + [e])
    requires IsSize(n) && Multiple(e, n) && e in headers' && Contents(headers'[e]) == (e, n, free)
    requires forall i :: 0 <= i < |order| ==>
      order[i] in headers && order[i] in headers' && Contents(headers'[order[i]]) == Contents(headers[order[i]])
    ensures List(headers', order + [e]) && End(headers', order + [e]) == e + n && Kept(headers, headers')
  {
    hide Node, Aligned, Linked;
    var order' := order + [e];
    assert Linked(headers, order);
    forall i | 0 <= i < |order'| ensures order'[i] in headers' && Aligned(headers'[order'[i]]) {
      if i < |order| {
        SameAligned(headers[order[i]], headers'[order[i]]);
      } else {
        NewIsAligned(headers'[e], e, n, free);
      }
    }
    forall i | 0 <= i < |order'| - 1 ensures order'[i + 1] == order'[i] + headers'[order'[i]].length {
      assert Contents(headers'[order[i]]) == Contents(headers[order[i]]);
    }
    assert order'[|order'| - 1] == e;
    KeptAll(headers, headers', order);
  }

  lemma NewIsAligned(h: Header, e: nat, n: nat, free: bool)
    requires IsSize(n) && Multiple(e, n) && Contents(h) == (e, n, free)
    ensures Aligned(h)
  {
  }

  lemma SameAligned(h: Header, h': Header)
    requires Contents(h) == Contents(h') && Aligned(h)
    ensures Aligned(h')
  {
  }

  lemma KeptAll(headers: map<nat, Header>, headers': map<nat, Header>, order: seq<nat>)
    requires Linked(headers, order)
    requires forall i :: 0 <= i < |order| ==>
      order[i] in headers && order[i] in headers' && Contents(headers'[order[i]]) == Contents(headers[order[i]])
    ensures Kept(headers, headers')
  {
    hide Node;
  }

  // ---------------------------------------------------------------- hddAddPartitionHere

  /**
   What hddAddPartitionHere came to: apaInsertPartition was called for a free block of the list, there was no space,
   the header of the new partition could not be filled in, or the partition is at `start`.
   */
  datatype Outcome = UsedFree(block: nat) | NoSpace | NotFilled | Added(start: nat)

  /** The smallest free block, one slot for each power of two, that is large enough. */
  function FirstFit(emptyBlocks: seq<nat>, size: nat, i: nat, power: nat): nat
    requires |emptyBlocks| == 32 && i <= 32
    decreases 32 - i
  {
    if i == 32 then 0
    else if power >= size && emptyBlocks[i] != 0 then emptyBlocks[i]
    else FirstFit(emptyBlocks, size, i + 1, 2 * power)
  }

  /** Sectors the list needs for a partition of `size` behind `end`. */
  function Needed(end: nat, size: nat): nat
    requires size > 0
  {
    RoundUp(end, size) + size
  }

  /** The space check as hdd.c computes it, in 32-bit words. */
  predicate Refused(totalLBA: nat, end: nat, size: nat)
    requires 0 < size && end < U32_RANGE && size <= LARGEST
  {
    RoundUpBound(end, size);
    totalLBA < U32(Needed(end, size))
  }

  lemma RoundUpBound(x: nat, n: nat)
    requires n > 0
    ensures x <= RoundUp(x, n) < x + n
  {
    RoundUpIsMultiple(x, n);
  }

  const LARGEST := 0x400_0000

  /**
   The check is right exactly when the rounded-up place and the partition end before 32-bit sector numbers do;
   otherwise it lets through what does not fit.
   */
  lemma SpaceCheckIsRightIff(totalLBA: nat, end: nat, size: nat)
    requires IsSize(size) && size <= LARGEST && size <= totalLBA < U32_RANGE && end <= totalLBA
    ensures size > 0
    ensures (Refused(totalLBA, end, size) <==> totalLBA < Needed(end, size)) <==> Needed(end, size) < U32_RANGE
    ensures Needed(end, size) >= U32_RANGE ==> !Refused(totalLBA, end, size)
  {
    hide IsSize, RoundUp;
    SizeAtLeast(size);
    RoundUpBound(end, size);
    RoundUpInRange(end, size);
  }

  /** On a disk of nearly 2 TB whose list leaves 128 MB, a partition of 256 MB is let through, to be put at sector 0. */
  lemma SpaceCheckFails()
    ensures !Refused(0xFFFF_FFFF, 0xFFFC_0000, 0x8_0000)
    ensures 0xFFFF_FFFF < Needed(0xFFFC_0000, 0x8_0000)
    ensures RoundUp(0xFFFC_0000, 0x8_0000) == U32_RANGE
  {
  }

  class Disk {
    const totalLBA: nat
    var headers: map<nat, Header>
    ghost var order: seq<nat>

    ghost predicate Valid()
      reads this
    {
      List(headers, order) && End(headers, order) <= totalLBA < U32_RANGE
    }

    /** apaRemovePartition and apaFillHeader: the header of a new partition, in the cache. */
    method PutHeader(start: nat, next: nat, prev: nat, length: nat, free: bool)
      modifies `headers
      ensures headers == old(headers)[start := Header(start, length, next, prev, free)]
    {
      headers := headers[start := Header(start, length, next, prev, free)];
    }

    /** The list entry behind `last` and the links to it, header by header. */
    method LinkBehind(last: nat, start: nat, length: nat, free: bool)
      requires last in headers && 0 in headers
      modifies `headers
      ensures headers == Appended(old(headers), last, start, length, free)
    {
      PutHeader(start, 0, last, length, free);
      headers := headers[last := headers[last].(next := start)];
      headers := headers[0 := headers[0].(prev := start)];
    }

    /** The inner loop: the largest size below `size` that divides `partEnd`. */
    method PickFiller(partEnd: nat, size: nat) returns (tempSize: nat)
      requires Unaligned(partEnd, size)
      ensures tempSize == Filler(partEnd, size)
    {
      tempSize := size / 2;
      while 0x3FFFF < tempSize
        invariant IsSize(tempSize) && Largest(partEnd, tempSize) == Filler(partEnd, size)
        decreases tempSize
      {
        if Multiple(partEnd, tempSize) {
          break;
        }
        tempSize := tempSize / 2;
      }
    }

    /** One filler behind the list. */
    method AddFiller(last: nat, partEnd: nat, size: nat) returns (tempSize: nat)
      requires List(headers, order) && last == order[|order| - 1]
      requires partEnd == End(headers, order) && Unaligned(partEnd, size)
      modifies this
      ensures tempSize == Filler(partEnd, size)
      ensures List(headers, order) && order == old(order) + [partEnd] && End(headers, order) == partEnd + tempSize
      ensures Kept(old(headers), headers) && partEnd in headers
      ensures Contents(headers[partEnd]) == (partEnd, tempSize, true)
    {
      hide Multiple, IsSize, Appended, Filler, Kept, Linked, Tiled;
      Ends(headers, order);
      tempSize := PickFiller(partEnd, size);
      AppendOne(headers, order, tempSize, true);
      LinkBehind(last, partEnd, tempSize, true);
      order := order + [partEnd];
    }

    /**
     Puts fillers behind the list until it ends at a multiple of `size`, from the last partition, at `sector`, on.
     `partEnd` becomes 0 where 32-bit sector numbers end.
     */
    method AddFillers(sector: nat, end: nat, size: nat) returns (last: nat, partEnd: nat, ghost places: seq<nat>)
      requires List(headers, order) && sector == order[|order| - 1] && end == End(headers, order) < U32_RANGE
      requires IsSize(size) && size <= LARGEST
      modifies this
      ensures size > 0 && Multiple(end, SMALLEST)
      ensures List(headers, order) && last == order[|order| - 1]
      ensures End(headers, order) == RoundUp(end, size) <= U32_RANGE && partEnd == U32(End(headers, order))
      ensures order == old(order) + places && Laid(headers, places, Fillers(end, size))
      ensures Kept(old(headers), headers)
    {
      hide Multiple, IsSize, RoundUp, Filler, Fillers, Laid, Kept, Linked, Tiled, Approaching;
      EndIsMultiple(headers, order);
      SizeAtLeast(size);
      RoundUpInRange(end, size);
      RoundUpIsMultiple(end, size);
      NothingLaid(headers);
      Ends(headers, order);
      StartsApproaching(end, size);
      ghost var lengths: seq<nat> := [];
      places := [];
      last, partEnd := sector, end;
      while !Multiple(partEnd, size)
        invariant List(headers, order) && |order| > 0 && last == order[|order| - 1]
        invariant End(headers, order) <= RoundUp(end, size) && partEnd == U32(End(headers, order))
        invariant Approaching(End(headers, order), end, size, lengths)
        invariant order == old(order) + places && Laid(headers, places, lengths) && Kept(old(headers), headers)
        decreases RoundUp(end, size) - End(headers, order)
      {
        StillUnaligned(End(headers, order), end, size, lengths);
        ghost var before := headers;
        var tempSize := AddFiller(last, partEnd, size);
        OneMoreLaid(before, headers, places, lengths, partEnd, tempSize);
        KeptTwice(old(headers), before, headers);
        places, lengths := places + [partEnd], lengths + [tempSize];
        last, partEnd := partEnd, U32(partEnd + tempSize);
      }
      HasArrived(End(headers, order), end, size, lengths);
    }

    /**
     hddAddPartitionHere; `sector` is that of the last partition of the list, and `fills` says whether the header of the
     new partition can be filled in.
     */
    method AddPartitionHere(size: nat, emptyBlocks: seq<nat>, sector: nat, fills: bool)
      returns (r: Outcome, ghost places: seq<nat>)
      requires Valid() && IsSize(size) && size <= LARGEST && |emptyBlocks| == 32 && sector == order[|order| - 1]
      modifies this
      ensures r.UsedFree? <==> FirstFit(emptyBlocks, size, 0, 1) != 0
      ensures r.UsedFree? ==> r.block == FirstFit(emptyBlocks, size, 0, 1)
      ensures r.NoSpace? <==> !r.UsedFree? && Refused(totalLBA, old(End(headers, order)), size)
      ensures r.NotFilled? ==> !fills
      ensures r.Added? ==> fills
      ensures r.UsedFree? || r.NoSpace? ==> headers == old(headers) && order == old(order)
      ensures (r.NotFilled? || r.Added?) && Needed(old(End(headers, order)), size) < U32_RANGE ==>
        Valid() && Extended(old(headers), headers, old(order), order, places, size, r, old(End(headers, order)))
      ensures r.Added? && Needed(old(End(headers, order)), size) == U32_RANGE ==>
        List(headers, order) && totalLBA < End(headers, order)
      ensures r.Added? && Needed(old(End(headers, order)), size) > U32_RANGE ==>
        r.start == 0 && 0 in headers && Contents(headers[0]) == (0, size, false)
    {
      hide Multiple, IsSize, RoundUp, Appended, Laid, Kept, Linked, Tiled;
      places := [];
      var i: nat, power: nat := 0, 1;
      while i < 32
        invariant i <= 32 && FirstFit(emptyBlocks, size, 0, 1) == FirstFit(emptyBlocks, size, i, power)
      {
        if power >= size && emptyBlocks[i] != 0 {
          return UsedFree(emptyBlocks[i]), places;
        }
        i, power := i + 1, 2 * power;
      }
      Ends(headers, order);
      SizeAtLeast(size);
      var partEnd := U32(headers[sector].start + headers[sector].length);
      RoundUpBound(partEnd, size);
      var someSize := partEnd % size;
      var tmp := if someSize != 0 then size - someSize else 0;
      TmpRoundsUp(partEnd, size);
      if totalLBA < U32(U32(partEnd + size) + tmp) || partEnd < sector {
        return NoSpace, places;
      }
      r, places := AppendHere(size, sector, partEnd, fills);
    }

    /** The walk along the list in apaOpen and ioctl2AddSub: it ends at the last partition. */
    method LastSector() returns (sector: nat)
      requires Valid()
      ensures |order| > 0 && sector == order[|order| - 1]
    {
      hide Multiple, IsSize, Tiled, Node;
      sector := 0;
      ghost var i := 0;
      NodeAt(headers, order, 0);
      while headers[sector].next != 0
        invariant 0 <= i < |order| && sector == order[i] && sector in headers
        invariant headers[sector].next == if i + 1 < |order| then order[i + 1] else 0
        invariant i + 1 < |order| ==> order[i + 1] > 0
        decreases |order| - i
      {
        sector := headers[sector].next;
        i := i + 1;
        NodeAt(headers, order, i);
      }
    }

    /** The rest of it, the space check passed. */
    method AppendHere(size: nat, sector: nat, end: nat, fills: bool) returns (r: Outcome, ghost places: seq<nat>)
      requires Valid() && IsSize(size) && size <= LARGEST && sector == order[|order| - 1] && end == End(headers, order)
      requires size > 0 && !Refused(totalLBA, end, size)
      modifies this
      ensures if fills then r.Added? else r.NotFilled?
      ensures Needed(end, size) < U32_RANGE ==>
        Valid() && Extended(old(headers), headers, old(order), order, places, size, r, end)
      ensures r.Added? && Needed(end, size) == U32_RANGE ==> List(headers, order) && totalLBA < End(headers, order)
      ensures r.Added? && Needed(end, size) > U32_RANGE ==>
        r.start == 0 && 0 in headers && Contents(headers[0]) == (0, size, false)
    {
      hide Multiple, IsSize, RoundUp, Appended, Laid, Kept, Linked, Tiled;
      var last, partEnd;
      last, partEnd, places := AddFillers(sector, end, size);
      RoundUpInRange(end, size);
      RoundUpIsMultiple(end, size);
      EndIsNew(headers, order);
      NeededBound(end, size);
      assert Needed(end, size) <= totalLBA || Needed(end, size) >= U32_RANGE;
      r := NotFilled;
      if fills {
        ghost var before := headers;
        AddLast(last, partEnd, size);
        r := Added(partEnd);
        if partEnd != 0 {
          KeptTwice(old(headers), before, headers);
          StillLaid(before, headers, places, Fillers(end, size));
        }
      }
    }

    /** The new partition itself, where the fillers end. At sector 0 it takes the place of the first partition. */
    method AddLast(last: nat, partEnd: nat, size: nat)
      requires List(headers, order) && IsSize(size) && Multiple(End(headers, order), size)
      requires last == order[|order| - 1] && 0 < End(headers, order) <= U32_RANGE && partEnd == U32(End(headers, order))
      modifies this
      ensures order == old(order) + [partEnd]
      ensures partEnd != 0 ==>
        List(headers, order) && End(headers, order) == partEnd + size && Kept(old(headers), headers)
      ensures partEnd in headers && Contents(headers[partEnd]) == (partEnd, size, false)
    {
      hide Multiple, IsSize, Kept, Linked, Tiled;
      Ends(headers, order);
      if partEnd != 0 {
        AppendOne(headers, order, size, false);
      }
      LinkBehind(last, partEnd, size, false);
      order := order + [partEnd];
    }
  }

  lemma NodeAt(headers: map<nat, Header>, order: seq<nat>, i: nat)
    requires List(headers, order) && i < |order|
    ensures order[0] == 0 && order[i] in headers && (i > 0 ==> order[i] > 0)
    ensures headers[order[i]].next == if i + 1 < |order| then order[i + 1] else 0
    ensures i + 1 < |order| ==> order[i + 1] > 0
  {
    assert Node(headers, order, i);
    if i > 0 {
      Increasing(headers, order, 0, i);
    }
    if i + 1 < |order| {
      Increasing(headers, order, 0, i + 1);
    }
  }

  /** Fillers of the given lengths are at the given places. */
  predicate Laid(headers: map<nat, Header>, places: seq<nat>, lengths: seq<nat>) {
    && |places| == |lengths|
    && forall i :: 0 <= i < |places| ==>
      places[i] in headers && Contents(headers[places[i]]) == (places[i], lengths[i], true)
  }

  /**
   The list has grown by the fillers for a partition of `size`, and by that partition at the first multiple of its
   length if its header could be filled in; whatever was there before is there still.
   */
  ghost predicate Extended(before: map<nat, Header>, after: map<nat, Header>, order: seq<nat>, order': seq<nat>,
                           places: seq<nat>, size: nat, r: Outcome, end: nat)
  {
    && IsSize(size) && Multiple(end, SMALLEST)
    && order' == order + places + (if r.Added? then [r.start] else [])
    && Kept(before, after)
    && Laid(after, places, Fillers(end, size))
    && (r.Added? ==>
          r.start == RoundUp(end, size) && r.start in after && Contents(after[r.start]) == (r.start, size, false))
  }

  /** How far the fillers have come: `now` is where the list ends, `lengths` are those put since it ended at `end`. */
  ghost predicate Approaching(now: nat, end: nat, size: nat, lengths: seq<nat>) {
    && IsSize(size) && 0 < size <= LARGEST && Multiple(now, SMALLEST) && Multiple(end, SMALLEST)
    && now <= RoundUp(end, size) == RoundUp(now, size) <= U32_RANGE
    && Fillers(end, size) == lengths + Fillers(now, size)
  }

  lemma StartsApproaching(end: nat, size: nat)
    requires IsSize(size) && 0 < size <= LARGEST && Multiple(end, SMALLEST)
    requires end <= RoundUp(end, size) <= U32_RANGE
    ensures Approaching(end, end, size, [])
  {
  }

  lemma NothingLaid(headers: map<nat, Header>)
    ensures Laid(headers, [], []) && Kept(headers, headers)
  {
  }

  lemma KeptTwice(a: map<nat, Header>, b: map<nat, Header>, c: map<nat, Header>)
    requires Kept(a, b) && Kept(b, c)
    ensures Kept(a, c)
  {
  }

  lemma StillLaid(before: map<nat, Header>, after: map<nat, Header>, places: seq<nat>, lengths: seq<nat>)
    requires Laid(before, places, lengths) && Kept(before, after)
    ensures Laid(after, places, lengths)
  {
  }

  lemma OneMoreLaid(before: map<nat, Header>, after: map<nat, Header>, places: seq<nat>, lengths: seq<nat>, place: nat,
                    length: nat)
    requires Laid(before, places, lengths) && Kept(before, after)
    requires place in after && Contents(after[place]) == (place, length, true)
    ensures Laid(after, places + [place], lengths + [length])
  {
  }

  /** A list not yet aligned has not reached the place aimed at, so its end is a proper 32-bit number. */
  lemma StillUnaligned(now: nat, end: nat, size: nat, lengths: seq<nat>)
    requires Approaching(now, end, size, lengths) && !Multiple(U32(now), size)
    ensures now < U32_RANGE && Unaligned(now, size)
    ensures Approaching(now + Filler(now, size), end, size, lengths + [Filler(now, size)])
    ensures now < now + Filler(now, size) <= RoundUp(end, size)
  {
    hide IsSize, RoundUp, Filler, Multiple;
    if now == U32_RANGE {
      ZeroIsMultiple(size);
    }
    FillerFits(now, size);
    SizeAtLeast(Filler(now, size));
    var t := Filler(now, size);
    assert Fillers(now, size) == [t] + Fillers(now + t, size);
  }

  lemma ZeroIsMultiple(n: nat)
    requires n > 0
    ensures Multiple(0, n)
  {
  }

  lemma HasArrived(now: nat, end: nat, size: nat, lengths: seq<nat>)
    requires Approaching(now, end, size, lengths) && Multiple(U32(now), size)
    ensures now == RoundUp(end, size) && lengths == Fillers(end, size)
  {
    hide IsSize, RoundUp, Filler, Multiple;
    RoundUpIsMultiple(now, size);
  }

  /** Rounded up to anywhere but the end of 32-bit numbers, the partition ends no later than there. */
  lemma NeededBound(end: nat, size: nat)
    requires IsSize(size) && size <= LARGEST && end < U32_RANGE
    ensures size > 0 && (RoundUp(end, size) == U32_RANGE || Needed(end, size) <= U32_RANGE)
  {
    hide IsSize, RoundUp, Multiple;
    SizeAtLeast(size);
    RoundUpInRange(end, size);
    RoundUpIsMultiple(end, size);
    if RoundUp(end, size) < U32_RANGE {
      NextMultiple(RoundUp(end, size), U32_RANGE, size);
    }
  }

  lemma TmpRoundsUp(end: nat, size: nat)
    requires size > 0
    ensures (if end % size != 0 then size - end % size else 0) == RoundUp(end, size) - end
  {
  }
}
