/**
 Adding partitions to a list that has free blocks: the walk that collects them, as apaOpen and ioctl2AddSub make it, and
 their use. apaAddEmptyBlock and apaInsertPartition are not part of the repository; what is taken of them is that the
 first notes free blocks by their size, and that the second halves a block until what is left of it fits.
 */
module ApaFree {
  import opened Common
  import opened ApaSizes
  import opened ApaAppend

  function Power(i: nat): nat {
    if i == 0 then 1 else 2 * Power(i - 1)
  }

  /** Each entry that is not 0 is the place of a free block of its power of two. */
  predicate Offered(headers: map<nat, Header>, emptyBlocks: seq<nat>) {
    && |emptyBlocks| == 32
    && forall i :: 0 <= i < 32 && emptyBlocks[i] != 0 ==> Fits(headers, emptyBlocks[i], Power(i))
  }

  predicate Fits(headers: map<nat, Header>, block: nat, length: nat) {
    block in headers && headers[block].free && headers[block].length == length
  }

  /** Entry `j` names a block that is large enough. */
  predicate Serves(emptyBlocks: seq<nat>, size: nat, j: nat)
    requires |emptyBlocks| == 32 && j < 32
  {
    Power(j) >= size && emptyBlocks[j] != 0
  }

  /** A block is chosen exactly when there is one that is large enough, and then from the first such entry. */
  lemma {:induction false} FirstFitIsFirst(emptyBlocks: seq<nat>, size: nat, i: nat)
    requires |emptyBlocks| == 32 && i <= 32
    ensures FirstFit(emptyBlocks, size, i, Power(i)) != 0 <==> exists j :: i <= j < 32 && Serves(emptyBlocks, size, j)
    ensures forall j ::
      i <= j < 32 && Serves(emptyBlocks, size, j) && (forall k :: i <= k < j ==> !Serves(emptyBlocks, size, k)) ==>
        FirstFit(emptyBlocks, size, i, Power(i)) == emptyBlocks[j]
    decreases 32 - i
  {
    if i < 32 {
      FirstFitIsFirst(emptyBlocks, size, i + 1);
      assert Serves(emptyBlocks, size, i) <==> Power(i) >= size && emptyBlocks[i] != 0;
    }
  }

  lemma {:induction false} PowerGrows(i: nat, j: nat)
    requires i <= j
    ensures Power(i) <= Power(j)
    decreases j
  {
    if i < j {
      PowerGrows(i, j - 1);
    }
  }

  lemma {:induction false} SizeIsPower(n: nat) returns (j: nat)
    requires IsSize(n)
    ensures n == Power(j)
  {
    if n == SMALLEST {
      j := 18;
      PowersOfTwo();
    } else {
      j := SizeIsPower(n / 2);
      j := j + 1;
    }
  }

  /** A free block of the list that a partition of `size` fits in; the first partition is never one. */
  predicate HasRoom(headers: map<nat, Header>, b: nat, size: nat) {
    b in headers && b != 0 && headers[b].free && size <= headers[b].length
  }

  /** No free block of the list has a length that nothing is noted for. */
  ghost predicate AllNoted(headers: map<nat, Header>, order: seq<nat>, emptyBlocks: seq<nat>) {
    forall i :: 0 <= i < |order| ==> order[i] in headers && IsNoted(headers[order[i]], emptyBlocks)
  }

  predicate IsNoted(h: Header, emptyBlocks: seq<nat>) {
    && |emptyBlocks| == 32
    && forall j :: 0 <= j < 32 && h.free && h.start != 0 && h.length == Power(j) ==> emptyBlocks[j] != 0
  }

  lemma RoomIsNoted(headers: map<nat, Header>, order: seq<nat>, emptyBlocks: seq<nat>, size: nat, b: nat)
    returns (j: nat)
    requires List(headers, order) && End(headers, order) < U32_RANGE
    requires AllNoted(headers, order, emptyBlocks) && HasRoom(headers, b, size)
    ensures |emptyBlocks| == 32 && j < 32 && Serves(emptyBlocks, size, j) && headers[b].length == Power(j)
  {
    hide Multiple, IsSize, Power;
    var k := IndexOf(headers, order, b);
    BlockAligned(headers, order, k);
    BeforeEnd(headers, order, k);
    j := SizeIsPower(headers[b].length);
    if 32 <= j {
      PowerGrows(32, j);
      PowersOfTwo();
    }
    assert IsNoted(headers[order[k]], emptyBlocks);
  }

  lemma PowersOfTwo()
    ensures Power(18) == SMALLEST && Power(32) == U32_RANGE
  {
    assert Power(6) == 64 && Power(12) == 64 * Power(6) && Power(18) == 64 * Power(12);
    assert Power(24) == 64 * Power(18) && Power(30) == 64 * Power(24);
  }

  /** So a free block is used exactly when there is one with room, and none with room is smaller. */
  lemma FirstFitIsSmallest(headers: map<nat, Header>, order: seq<nat>, emptyBlocks: seq<nat>, size: nat)
    requires List(headers, order) && End(headers, order) < U32_RANGE
    requires Offered(headers, emptyBlocks) && AllNoted(headers, order, emptyBlocks)
    ensures var block := FirstFit(emptyBlocks, size, 0, 1);
            && (block != 0 <==> exists b :: HasRoom(headers, b, size))
            && (block != 0 ==> HasRoom(headers, block, size))
            && forall b :: HasRoom(headers, b, size) ==>
                 HasRoom(headers, block, size) && headers[block].length <= headers[b].length
  {
    hide List, AllNoted, FirstFit;
    var block := FirstFit(emptyBlocks, size, 0, Power(0));
    FirstFitIsFirst(emptyBlocks, size, 0);
    if exists j :: 0 <= j < 32 && Serves(emptyBlocks, size, j) {
      var first := FirstServing(emptyBlocks, size, 32);
      assert block == emptyBlocks[first] && Fits(headers, block, Power(first)) && HasRoom(headers, block, size);
      forall b | HasRoom(headers, b, size) ensures headers[block].length <= headers[b].length {
        var j := RoomIsNoted(headers, order, emptyBlocks, size, b);
        PowerGrows(first, j);
      }
    } else {
      forall b ensures !HasRoom(headers, b, size) {
        if HasRoom(headers, b, size) {
          var j := RoomIsNoted(headers, order, emptyBlocks, size, b);
        }
      }
    }
  }

  lemma {:induction false} FirstServing(emptyBlocks: seq<nat>, size: nat, n: nat) returns (first: nat)
    requires |emptyBlocks| == 32 && n <= 32 && exists j :: 0 <= j < n && Serves(emptyBlocks, size, j)
    ensures first < n && Serves(emptyBlocks, size, first)
    ensures forall j :: 0 <= j < first ==> !Serves(emptyBlocks, size, j)
  {
    if exists j :: 0 <= j < n - 1 && Serves(emptyBlocks, size, j) {
      first := FirstServing(emptyBlocks, size, n - 1);
    } else {
      first := n - 1;
    }
  }

  // ---------------------------------------------------------------- halving a block

  /** The block at `b` cut in two, its second half a free block of its own. */
  function Halved(headers: map<nat, Header>, b: nat): map<nat, Header>
    requires b in headers && headers[b].next in headers
  {
    var Header(_, length, next, _, _) := headers[b];
    var m := b + length / 2;
    var h1 := headers[m := Header(m, length / 2, next, b, true)];
    var h2 := h1[b := h1[b].(length := length / 2, next := m)];
    h2[next := h2[next].(prev := m)]
  }

  function Inserted(order: seq<nat>, k: nat, m: nat): seq<nat>
    requires k < |order|
  {
    order[..k + 1] + [m] + order[k + 1..]
  }

  /** Where the two halves lie: nothing else is there. */
  lemma HalvesAreApart(headers: map<nat, Header>, order: seq<nat>, k: nat)
    requires List(headers, order) && 0 < k < |order| && SMALLEST < headers[order[k]].length
    ensures order[k] in headers && headers[order[k]].next in headers
    ensures headers[order[k]].next != order[k] && 0 < order[k]
    ensures headers[order[k]].next == if k + 1 < |order| then order[k + 1] else 0
    ensures var m := order[k] + headers[order[k]].length / 2;
            m !in headers && order[k] < m && forall i :: 0 <= i < |order| && i != k ==>
              order[i] != order[k] && order[i] != m
  {
    hide Multiple, IsSize;
    var m := order[k] + headers[order[k]].length / 2;
    NodeAt(headers, order, k);
    NodeAt(headers, order, 0);
    BeforeEnd(headers, order, k);
    forall i | 0 <= i < |order| && i != k ensures order[i] != order[k] && order[i] != m {
      if i < k {
        Increasing(headers, order, i, k);
      }
    }
    if k + 1 < |order| {
      NodeAt(headers, order, k + 1);
    }
  }

  /** The links after the cut. */
  lemma NodeHalved(headers: map<nat, Header>, order: seq<nat>, k: nat, i: nat)
    requires List(headers, order) && 0 < k < |order| && SMALLEST < headers[order[k]].length && i <= |order|
    ensures order[k] in headers && headers[order[k]].next in headers
    ensures Node(Halved(headers, order[k]), Inserted(order, k, order[k] + headers[order[k]].length / 2), i)
  {
    hide Tiled, List;
    HalvesAreApart(headers, order, k);
    ListIsLinked(headers, order);
    assert Node(headers, order, k) && Node(headers, order, 0) && Node(headers, order, |order| - 1);
    var m := order[k] + headers[order[k]].length / 2;
    var order' := Inserted(order, k, m);
    if i < k {
      assert order'[i] == order[i] && order'[i + 1] == order[i + 1] && Node(headers, order, i);
      if i > 0 {
        Increasing(headers, order, 0, i);
        assert order'[i - 1] == order[i - 1];
      }
      if k + 1 < |order| {
        Increasing(headers, order, i, k + 1);
      }
    } else if i == k {
      assert order'[i] == order[i] && order'[i + 1] == m && order'[i - 1] == order[i - 1];
    } else if i > k + 1 {
      assert order'[i] == order[i - 1] && Node(headers, order, i - 1);
      Increasing(headers, order, 0, i - 1);
      Increasing(headers, order, k, i - 1);
      if i > k + 2 {
        Increasing(headers, order, k + 1, i - 1);
      }
    }
  }

  lemma ContentsHalved(headers: map<nat, Header>, order: seq<nat>, k: nat)
    requires List(headers, order) && 0 < k < |order| && SMALLEST < headers[order[k]].length
    ensures order[k] in headers && headers[order[k]].next in headers
    ensures var b, half := order[k], headers[order[k]].length / 2;
            var headers' := Halved(headers, b);
            && (forall a :: a in headers' <==> a in headers || a == b + half)
            && Contents(headers'[b]) == (b, half, headers[b].free)
            && Contents(headers'[b + half]) == (b + half, half, true)
            && forall a :: a in headers && a != b ==> Contents(headers'[a]) == Contents(headers[a])
  {
    HalvesAreApart(headers, order, k);
    NodeAt(headers, order, k);
    assert Node(headers, order, k);
  }

  /** A size larger than another can be halved, and the halves are aligned. */
  lemma HalvesAligned(b: nat, length: nat)
    requires IsSize(length) && SMALLEST < length && Multiple(b, length)
    ensures IsSize(length / 2) && length == 2 * (length / 2) && length / 2 > 0
    ensures Multiple(b, length / 2) && Multiple(b + length / 2, length / 2)
  {
    hide Multiple, IsSize;
    SmallestIsSize();
    SizeGap(SMALLEST, length);
    SizeAtLeast(length / 2);
    HalfDivides(b, length / 2);
    OwnMultiple(length / 2);
    MultipleSum(b, length / 2, length / 2);
  }

  /** Cutting a block in two keeps the list in order, and every other partition. */
  lemma HalvedIsList(headers: map<nat, Header>, order: seq<nat>, k: nat)
    requires List(headers, order) && 0 < k < |order| && SMALLEST < headers[order[k]].length
    ensures order[k] in headers && headers[order[k]].next in headers
    ensures var order' := Inserted(order, k, order[k] + headers[order[k]].length / 2);
            List(Halved(headers, order[k]), order') && End(Halved(headers, order[k]), order') == End(headers, order)
  {
    hide Halved, Node, List, Linked, Tiled, CutAt, Inserted;
    HalvesAreApart(headers, order, k);
    ListIsLinked(headers, order);
    CutIsMade(headers, order, k);
    var b, half := order[k], headers[order[k]].length / 2;
    var headers', order' := Halved(headers, b), Inserted(order, k, b + half);
    HalvedIsLinked(headers, order, k);
    HalvedIsTiled(headers, headers', order, order', k, half);
  }

  lemma BlockAligned(headers: map<nat, Header>, order: seq<nat>, k: nat)
    requires List(headers, order) && k < |order|
    ensures order[k] in headers && headers[order[k]].start == order[k]
    ensures IsSize(headers[order[k]].length) && Multiple(order[k], headers[order[k]].length)
  {
    assert Node(headers, order, k) && Aligned(headers[order[k]]);
  }

  lemma HalvedIsLinked(headers: map<nat, Header>, order: seq<nat>, k: nat)
    requires List(headers, order) && 0 < k < |order| && SMALLEST < headers[order[k]].length
    ensures order[k] in headers && headers[order[k]].next in headers
    ensures Linked(Halved(headers, order[k]), Inserted(order, k, order[k] + headers[order[k]].length / 2))
  {
    hide Node, Halved, Tiled;
    ListIsLinked(headers, order);
    HalvesAreApart(headers, order, k);
    ContentsHalved(headers, order, k);
    var m := order[k] + headers[order[k]].length / 2;
    var headers', order' := Halved(headers, order[k]), Inserted(order, k, m);
    forall i | 0 <= i < |order'| ensures Node(headers', order', i) {
      NodeHalved(headers, order, k, i);
    }
    forall a ensures a in headers' <==> a in order' {
      assert order == order[..k + 1] + order[k + 1..];
    }
  }

  lemma CutIsMade(headers: map<nat, Header>, order: seq<nat>, k: nat)
    requires List(headers, order) && 0 < k < |order| && SMALLEST < headers[order[k]].length
    ensures order[k] in headers && headers[order[k]].next in headers
    ensures CutAt(headers, Halved(headers, order[k]), order[k], headers[order[k]].length / 2)
  {
    hide Multiple, IsSize, Halved, List;
    HalvesAreApart(headers, order, k);
    ContentsHalved(headers, order, k);
    BlockAligned(headers, order, k);
    HalvesAligned(order[k], headers[order[k]].length);
  }

  /** What the cut has left and made, links aside. */
  predicate CutAt(headers: map<nat, Header>, headers': map<nat, Header>, b: nat, half: nat) {
    && b in headers && b in headers' && b + half in headers'
    && headers[b].length == 2 * half && Aligned(headers'[b]) && headers'[b].length == half
    && Aligned(headers'[b + half]) && headers'[b + half].length == half
    && forall a :: a in headers && a != b ==> a in headers' && Contents(headers'[a]) == Contents(headers[a])
  }

  lemma TileHalved(headers: map<nat, Header>, headers': map<nat, Header>, order: seq<nat>, k: nat, half: nat, i: nat)
    requires List(headers, order) && 0 < k < |order| && CutAt(headers, headers', order[k], half) && i <= |order|
    requires forall i :: 0 <= i < |order| && i != k ==> order[i] != order[k]
    ensures var order' := Inserted(order, k, order[k] + half);
            && order'[i] in headers' && Aligned(headers'[order'[i]])
            && (i < |order| ==> order'[i + 1] == order'[i] + headers'[order'[i]].length)
            && (i == |order| ==> order'[i] + headers'[order'[i]].length == order[i - 1] + headers[order[i - 1]].length)
  {
    hide List, Aligned;
    var order' := Inserted(order, k, order[k] + half);
    KeyOf(headers, order, k);
    if i < k {
      KeyOf(headers, order, i);
      SameAligned(headers[order[i]], headers'[order[i]]);
      assert order'[i] == order[i] && order'[i + 1] == order[i + 1];
    } else if i > k + 1 {
      KeyOf(headers, order, i - 1);
      SameAligned(headers[order[i - 1]], headers'[order[i - 1]]);
      assert order'[i] == order[i - 1];
    }
  }

  predicate TileOk(headers: map<nat, Header>, order: seq<nat>, i: nat)
    requires i < |order|
  {
    && order[i] in headers && Aligned(headers[order[i]])
    && (i < |order| - 1 ==> order[i + 1] == order[i] + headers[order[i]].length)
  }

  lemma TiledList(headers: map<nat, Header>, order: seq<nat>)
    requires Linked(headers, order) && forall i :: 0 <= i < |order| ==> TileOk(headers, order, i)
    ensures List(headers, order) && order[|order| - 1] in headers
    ensures End(headers, order) == order[|order| - 1] + headers[order[|order| - 1]].length
  {
    hide Node, Aligned;
    forall i | 0 <= i < |order|
      ensures Aligned(headers[order[i]])
      ensures i < |order| - 1 ==> order[i + 1] == order[i] + headers[order[i]].length
    {
      assert TileOk(headers, order, i);
    }
  }

  lemma HalvedIsTiled(headers: map<nat, Header>, headers': map<nat, Header>, order: seq<nat>, order': seq<nat>, k: nat,
                      half: nat)
    requires List(headers, order) && 0 < k < |order| && CutAt(headers, headers', order[k], half)
    requires order' == Inserted(order, k, order[k] + half) && Linked(headers', order')
    requires forall i :: 0 <= i < |order| && i != k ==> order[i] != order[k]
    ensures List(headers', order') && End(headers', order') == End(headers, order)
  {
    hide Node, Aligned, Linked, CutAt, List, Tiled;
    assert |order'| == |order| + 1;
    forall i | 0 <= i < |order'| ensures TileOk(headers', order', i) {
      TileHalved(headers, headers', order, k, half, i);
    }
    TileHalved(headers, headers', order, k, half, |order|);
    TiledList(headers', order');
    ListIsLinked(headers, order);
    KeyOf(headers, order, |order| - 1);
    EndIs(headers, order);
  }

  lemma EndIs(headers: map<nat, Header>, order: seq<nat>)
    requires List(headers, order)
    ensures order[|order| - 1] in headers
    ensures End(headers, order) == order[|order| - 1] + headers[order[|order| - 1]].length
  {
    KeyOf(headers, order, |order| - 1);
  }

  lemma KeyOf(headers: map<nat, Header>, order: seq<nat>, i: nat)
    requires List(headers, order) && i < |order|
    ensures order[i] in headers && Aligned(headers[order[i]])
    ensures i + 1 < |order| ==> order[i + 1] == order[i] + headers[order[i]].length
  {
    assert Node(headers, order, i);
  }

  // ---------------------------------------------------------------- using it

  /** Partitions in use are as they were. */
  predicate KeptUsed(before: map<nat, Header>, after: map<nat, Header>) {
    forall k :: k in before && !before[k].free ==> k in after && Contents(after[k]) == Contents(before[k])
  }

  /** Nothing but what was given out is in use now that was not before, and free blocks elsewhere are as they were. */
  predicate Spared(before: map<nat, Header>, after: map<nat, Header>, given: seq<nat>) {
    && (forall k :: k in before && k !in given ==> k in after && Contents(after[k]) == Contents(before[k]))
    && forall k :: k in after && k !in before && k !in given ==> after[k].free
  }

  lemma NothingGiven(headers: map<nat, Header>, given: seq<nat>)
    ensures Spared(headers, headers, given)
  {
  }

  lemma SparedTwice(a: map<nat, Header>, b: map<nat, Header>, c: map<nat, Header>, given: seq<nat>)
    requires Spared(a, b, given) && Spared(b, c, given)
    ensures Spared(a, c, given)
  {
  }

  lemma KeptUsedTwice(a: map<nat, Header>, b: map<nat, Header>, c: map<nat, Header>)
    requires KeptUsed(a, b) && KeptUsed(b, c)
    ensures KeptUsed(a, c)
  {
  }

  lemma KeptIsKeptUsed(a: map<nat, Header>, b: map<nat, Header>)
    requires Kept(a, b)
    ensures KeptUsed(a, b)
  {
  }

  lemma IndexOf(headers: map<nat, Header>, order: seq<nat>, b: nat) returns (k: nat)
    requires List(headers, order) && b in headers
    ensures k < |order| && order[k] == b && (b != 0 ==> k > 0)
  {
    hide Node;
    k :| 0 <= k < |order| && order[k] == b;
  }

  /** apaInsertPartition: the block is halved until it has the size asked for, and is in use from then on. */
  method InsertPartition(d: Disk, block: nat, size: nat)
    requires d.Valid() && IsSize(size) && 0 < block && block in d.headers && d.headers[block].free
    requires size <= d.headers[block].length
    modifies d
    ensures d.Valid() && End(d.headers, d.order) == old(End(d.headers, d.order))
    ensures KeptUsed(old(d.headers), d.headers)
    ensures block in d.headers && Contents(d.headers[block]) == (block, size, false)
    ensures Spared(old(d.headers), d.headers, [block])
  {
    hide Multiple, IsSize, Halved, Linked, Tiled, Spared;
    SizeAtLeast(size);
    NothingGiven(d.headers, [block]);
    ghost var k := IndexOf(d.headers, d.order, block);
    while d.headers[block].length > size
      invariant d.Valid() && End(d.headers, d.order) == old(End(d.headers, d.order))
      invariant 0 < k < |d.order| && d.order[k] == block && block in d.headers && d.headers[block].free
      invariant size <= d.headers[block].length && KeptUsed(old(d.headers), d.headers)
      invariant Spared(old(d.headers), d.headers, [block])
      decreases d.headers[block].length
    {
      BlockAligned(d.headers, d.order, k);
      SizeGap(size, d.headers[block].length);
      HalvedIsList(d.headers, d.order, k);
      ContentsHalved(d.headers, d.order, k);
      ghost var half := d.headers[block].length / 2;
      HalvingSpares(d.headers, d.order, k);
      SparedTwice(old(d.headers), d.headers, Halved(d.headers, block), [block]);
      d.headers := Halved(d.headers, block);
      d.order := Inserted(d.order, k, block + half);
    }
    BlockAligned(d.headers, d.order, k);
    TakenIsList(d.headers, d.order, block);
    TakingSpares(d.headers, block);
    SparedTwice(old(d.headers), d.headers, d.headers[block := d.headers[block].(free := false)], [block]);
    d.headers := d.headers[block := d.headers[block].(free := false)];
  }

  lemma HalvingSpares(headers: map<nat, Header>, order: seq<nat>, k: nat)
    requires List(headers, order) && 0 < k < |order| && SMALLEST < headers[order[k]].length
    ensures order[k] in headers && headers[order[k]].next in headers
    ensures Spared(headers, Halved(headers, order[k]), [order[k]])
  {
    hide Halved, List;
    ContentsHalved(headers, order, k);
  }

  lemma TakingSpares(headers: map<nat, Header>, b: nat)
    requires b in headers
    ensures Spared(headers, headers[b := headers[b].(free := false)], [b])
  {
  }

  /** Taking a block into use changes neither links nor places. */
  lemma TakenIsList(headers: map<nat, Header>, order: seq<nat>, b: nat)
    requires List(headers, order) && b in headers
    ensures var headers' := headers[b := headers[b].(free := false)];
            List(headers', order) && End(headers', order) == End(headers, order)
  {
    hide Node, Aligned;
    var headers' := headers[b := headers[b].(free := false)];
    forall i | 0 <= i < |order| ensures Node(headers', order, i) {
      NodeTaken(headers, order, b, i);
    }
    assert Linked(headers', order);
    forall i | 0 <= i < |order|
      ensures Aligned(headers'[order[i]])
      ensures i < |order| - 1 ==> order[i + 1] == order[i] + headers'[order[i]].length
    {
      KeyOf(headers, order, i);
      AlignedTaken(headers[order[i]]);
    }
    KeyOf(headers, order, |order| - 1);
  }

  lemma NodeTaken(headers: map<nat, Header>, order: seq<nat>, b: nat, i: nat)
    requires Linked(headers, order) && b in headers && i < |order|
    ensures Node(headers[b := headers[b].(free := false)], order, i)
  {
    assert Node(headers, order, i);
  }

  lemma AlignedTaken(h: Header)
    requires Aligned(h)
    ensures Aligned(h.(free := false))
  {
  }

  /** apaAddEmptyBlock: a free block is noted under its power of two, unless another one is already. */
  method AddEmptyBlock(h: Header, emptyBlocks: seq<nat>, ghost headers: map<nat, Header>) returns (r: seq<nat>)
    requires Offered(headers, emptyBlocks) && h.start in headers && headers[h.start] == h
    ensures Offered(headers, r) && IsNoted(h, r) && Grown(emptyBlocks, r)
  {
    r := emptyBlocks;
    var i: nat, power: nat := 0, 1;
    while i < 32
      invariant i <= 32 && power == Power(i) && Offered(headers, r) && Grown(emptyBlocks, r)
      invariant forall j :: 0 <= j < i && h.free && h.start != 0 && h.length == Power(j) ==> r[j] != 0
    {
      if h.free && h.length == power && r[i] == 0 {
        r := r[i := h.start];
      }
      i, power := i + 1, 2 * power;
    }
  }

  /** What was noted stays. */
  predicate Grown(before: seq<nat>, after: seq<nat>) {
    |before| == |after| && forall j :: 0 <= j < |before| && before[j] != 0 ==> after[j] == before[j]
  }

  lemma StillNoted(headers: map<nat, Header>, order: seq<nat>, before: seq<nat>, after: seq<nat>, a: nat)
    requires AllNoted(headers, order, before) && Grown(before, after)
    requires a in headers && IsNoted(headers[a], after)
    ensures AllNoted(headers, order + [a], after)
  {
  }

  /** The walk of apaOpen and ioctl2AddSub along the whole list: its last partition, and the free blocks met. */
  method Walk(d: Disk) returns (sector: nat, emptyBlocks: seq<nat>)
    requires d.Valid()
    ensures |d.order| > 0 && sector == d.order[|d.order| - 1] && Offered(d.headers, emptyBlocks)
    ensures AllNoted(d.headers, d.order, emptyBlocks)
  {
    hide Multiple, IsSize, Tiled, Node, AllNoted, Grown, IsNoted;
    sector, emptyBlocks := 0, seq(32, _ => 0);
    ghost var i := 0;
    NodeAt(d.headers, d.order, 0);
    BlockAligned(d.headers, d.order, 0);
    ghost var noted := emptyBlocks;
    NothingNoted(d.headers, noted);
    emptyBlocks := AddEmptyBlock(d.headers[0], emptyBlocks, d.headers);
    StillNoted(d.headers, [], noted, emptyBlocks, 0);
    assert [] + [0] == d.order[..1];
    while d.headers[sector].next != 0
      invariant 0 <= i < |d.order| && sector == d.order[i] && sector in d.headers && Offered(d.headers, emptyBlocks)
      invariant d.headers[sector].next == if i + 1 < |d.order| then d.order[i + 1] else 0
      invariant i + 1 < |d.order| ==> d.order[i + 1] > 0
      invariant AllNoted(d.headers, d.order[..i + 1], emptyBlocks)
      decreases |d.order| - i
    {
      noted := emptyBlocks;
      sector := d.headers[sector].next;
      i := i + 1;
      NodeAt(d.headers, d.order, i);
      BlockAligned(d.headers, d.order, i);
      emptyBlocks := AddEmptyBlock(d.headers[sector], emptyBlocks, d.headers);
      StillNoted(d.headers, d.order[..i], noted, emptyBlocks, sector);
      assert d.order[..i] + [sector] == d.order[..i + 1];
    }
    assert d.order[..i + 1] == d.order;
  }

  lemma NothingNoted(headers: map<nat, Header>, emptyBlocks: seq<nat>)
    ensures AllNoted(headers, [], emptyBlocks)
  {
  }

  /** Where the addition has put its partition, if it has. */
  function Granted(r: Outcome): seq<nat> {
    match r
    case UsedFree(block) => [block]
    case Added(start) => [start]
    case _ => []
  }

  /** The partition that the addition has made is there, with exactly the size asked for, and in use. */
  predicate Stands(headers: map<nat, Header>, r: Outcome, size: nat) {
    forall p :: p in Granted(r) ==> p in headers && Contents(headers[p]) == (p, size, false)
  }

  /** It is none of the partitions that were in use before. */
  predicate IsNew(before: map<nat, Header>, r: Outcome) {
    forall p :: p in Granted(r) ==> p in before ==> before[p].free
  }

  /** What adding a partition comes to, from the list as it stands. */
  ghost predicate IsAddition(headers: map<nat, Header>, order: seq<nat>, totalLBA: nat, size: nat, fills: bool,
                             r: Outcome)
  {
    && List(headers, order) && size > 0
    && (r.UsedFree? <==> exists b :: HasRoom(headers, b, size))
    && (r.UsedFree? ==> HasRoom(headers, r.block, size))
    && (r.UsedFree? ==> forall b :: HasRoom(headers, b, size) ==> headers[r.block].length <= headers[b].length)
    && (r.NoSpace? <==> !r.UsedFree? && totalLBA < Needed(End(headers, order), size))
    && (r.NotFilled? ==> !fills)
    && (r.Added? ==> fills && r.start == RoundUp(End(headers, order), size) && r.start !in headers)
  }

  /**
   One addition: into the smallest free block of the list with room if there is one, and else behind its end if there is
   space. Where the space check is right the list stays in order, and every partition in use stays.
   */
  method AddPartition(d: Disk, size: nat, fills: bool) returns (r: Outcome)
    requires d.Valid() && IsSize(size) && size <= LARGEST && d.totalLBA + 2 * LARGEST <= U32_RANGE
    modifies d
    ensures d.Valid() && KeptUsed(old(d.headers), d.headers)
    ensures Stands(d.headers, r, size) && IsNew(old(d.headers), r) && Spared(old(d.headers), d.headers, Granted(r))
    ensures IsAddition(old(d.headers), old(d.order), d.totalLBA, size, fills, r)
    ensures r.UsedFree? || r.NoSpace? ==> End(d.headers, d.order) == old(End(d.headers, d.order))
    ensures r.NoSpace? ==> d.headers == old(d.headers)
  {
    hide Linked, Tiled, Kept, KeptUsed, IsSize, RoundUp, Laid, Offered, List, AllNoted, HasRoom, Spared;
    var sector, emptyBlocks := Walk(d);
    ListIsLinked(d.headers, d.order);
    ghost var before, order, end := d.headers, d.order, End(d.headers, d.order);
    EndIsNew(before, d.order);
    SizeAtLeast(size);
    RoundUpBound(end, size);
    FirstFitIsSmallest(d.headers, d.order, emptyBlocks, size);
    RoomIsFree(d.headers, size);
    OfferedIsLong(d.headers, emptyBlocks);
    ghost var places;
    r, places := d.AddPartitionHere(size, emptyBlocks, sector, fills);
    NothingLaid(before);
    if r.UsedFree? {
      InsertPartition(d, r.block, size);
    } else {
      KeptIsKeptUsed(before, d.headers);
      if !r.NoSpace? {
        ListIsLinked(d.headers, d.order);
        AppendingSpares(before, d.headers, order, d.order, places, size, r, end);
      } else {
        NothingGiven(before, []);
      }
    }
  }

  /** Behind the end only fillers are new, besides the partition itself. */
  lemma AppendingSpares(before: map<nat, Header>, after: map<nat, Header>, order: seq<nat>, order': seq<nat>,
                        places: seq<nat>, size: nat, r: Outcome, end: nat)
    requires Linked(before, order) && Linked(after, order') && (r.Added? || r.NotFilled?)
    requires Extended(before, after, order, order', places, size, r, end)
    ensures Spared(before, after, Granted(r))
  {
    hide Node, Fillers, Multiple, IsSize, RoundUp;
    forall k | k in after && k !in before && k !in Granted(r) ensures after[k].free {
      assert k in order' && k !in order;
      assert k in places;
    }
  }

  lemma RoomIsFree(headers: map<nat, Header>, size: nat)
    ensures forall b :: HasRoom(headers, b, size) ==>
      0 < b && b in headers && headers[b].free && size <= headers[b].length
  {
  }

  lemma OfferedIsLong(headers: map<nat, Header>, emptyBlocks: seq<nat>)
    requires Offered(headers, emptyBlocks)
    ensures |emptyBlocks| == 32 && Power(0) == 1
  {
  }

  lemma StandsStill(before: map<nat, Header>, after: map<nat, Header>, r: Outcome, size: nat)
    requires Stands(before, r, size) && KeptUsed(before, after)
    ensures Stands(after, r, size)
  {
  }

  lemma StaysNew(before: map<nat, Header>, now: map<nat, Header>, r: Outcome)
    requires KeptUsed(before, now) && IsNew(now, r)
    ensures IsNew(before, r)
  {
  }

  predicate Apart(r: Outcome, size: nat, r': Outcome, size': nat) {
    forall p, p' :: p in Granted(r) && p' in Granted(r') ==> p + size <= p' || p' + size' <= p
  }

  /** A partition that is new lies beside those made before. */
  lemma NewIsApart(before: map<nat, Header>, after: map<nat, Header>, order: seq<nat>, r: Outcome, size: nat,
                   r': Outcome, size': nat)
    requires List(after, order) && Stands(before, r, size) && Stands(after, r, size) && Stands(after, r', size')
    requires IsNew(before, r')
    ensures Apart(r, size, r', size')
  {
    hide List;
    forall p, p' | p in Granted(r) && p' in Granted(r') ensures p + size <= p' || p' + size' <= p {
      assert p != p';
      var i := IndexOf(after, order, p);
      var j := IndexOf(after, order, p');
      if i < j {
        PartitionsApart(after, order, i, j);
      } else {
        PartitionsApart(after, order, j, i);
      }
    }
  }

  /**
   Below 2 TB by twice the largest partition any number of partitions can be added: the list stays in order, and each
   addition that reports success has made a new partition of exactly the size asked for, which is there to the end and
   apart from all others. `stages` are the lists between the additions.
   */
  method AddInTurn(d: Disk, sizes: seq<nat>, fills: nat -> bool)
    returns (outcomes: seq<Outcome>, ghost stages: seq<(map<nat, Header>, seq<nat>)>)
    requires d.Valid() && d.totalLBA + 2 * LARGEST <= U32_RANGE
    requires forall i :: 0 <= i < |sizes| ==> IsSize(sizes[i]) && sizes[i] <= LARGEST
    modifies d
    ensures d.Valid() && KeptUsed(old(d.headers), d.headers) && |outcomes| == |sizes|
    ensures forall i :: 0 <= i < |outcomes| ==>
      Stands(d.headers, outcomes[i], sizes[i]) && IsNew(old(d.headers), outcomes[i])
    ensures forall i, j :: 0 <= i < j < |outcomes| ==> Apart(outcomes[i], sizes[i], outcomes[j], sizes[j])
    ensures |stages| == |sizes| + 1 && stages[0] == old((d.headers, d.order)) && stages[|sizes|] == (d.headers, d.order)
    ensures forall i :: 0 <= i < |outcomes| ==>
      IsAddition(stages[i].0, stages[i].1, d.totalLBA, sizes[i], fills(i), outcomes[i])
  {
    hide Linked, Tiled, IsSize, KeptUsed, Stands, IsNew, Apart, IsAddition;
    NothingUsed(d.headers);
    outcomes, stages := [], [(d.headers, d.order)];
    while |outcomes| < |sizes|
      invariant d.Valid() && KeptUsed(old(d.headers), d.headers) && |outcomes| <= |sizes|
      invariant forall i :: 0 <= i < |outcomes| ==>
        Stands(d.headers, outcomes[i], sizes[i]) && IsNew(old(d.headers), outcomes[i])
      invariant forall i, j :: 0 <= i < j < |outcomes| ==> Apart(outcomes[i], sizes[i], outcomes[j], sizes[j])
      invariant |stages| == |outcomes| + 1 && stages[0] == old((d.headers, d.order))
      invariant stages[|outcomes|] == (d.headers, d.order)
      invariant forall i :: 0 <= i < |outcomes| ==>
        IsAddition(stages[i].0, stages[i].1, d.totalLBA, sizes[i], fills(i), outcomes[i])
    {
      ghost var before := d.headers;
      var n := |outcomes|;
      var r := AddPartition(d, sizes[n], fills(n));
      KeptUsedTwice(old(d.headers), before, d.headers);
      StaysNew(old(d.headers), before, r);
      forall i | 0 <= i < n
        ensures Stands(d.headers, outcomes[i], sizes[i]) && Apart(outcomes[i], sizes[i], r, sizes[n])
      {
        StandsStill(before, d.headers, outcomes[i], sizes[i]);
        NewIsApart(before, d.headers, d.order, outcomes[i], sizes[i], r, sizes[n]);
      }
      outcomes, stages := outcomes + [r], stages + [(d.headers, d.order)];
    }
  }

  lemma NothingUsed(headers: map<nat, Header>)
    ensures KeptUsed(headers, headers)
  {
  }
}
