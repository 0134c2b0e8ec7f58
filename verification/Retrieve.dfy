/**
 RetrieveThread of HDLGManClient/install-main.c: copying a game off the console, over connections that may break, into a
 file that the ring of HDLGManClient/io.c writes. Each connection delivers what a run of the console's own ring sends.
 */
module Retrieve {
  import opened Common
  import opened Banks
  import opened ClientRing
  import opened ReadStream
  import ReadLive
  import ReadRing

  const IO_BUFFER_SIZE := 2048
  const IO_BANKMAX := 32
  const BANK_BYTES := 2048 * IO_BUFFER_SIZE
  const RETRY_COUNT := 3

  /** `sectors` sectors of a game file of `size` bytes are asked for; `first` is the connection opened at the start. */
  datatype Request = Request(sectors: nat, size: nat, first: Session)

  /** A connection opened at sector `lsn`, with the first `offset` bytes of what it delivers taken. */
  datatype Where = Where(lsn: nat, session: Session, offset: nat)

  /**
   How a block was got: `broken` tells for each failed attempt how many of its bytes had arrived, and `reopened` which
   connection was opened after it. Either a last attempt succeeded, or all attempts failed.
   */
  datatype Fate =
    | Received(broken: seq<nat>, reopened: seq<Session>)
    | Exhausted(broken: seq<nat>, reopened: seq<Session>)

  /** First sector and length in bytes of block `k`. */
  function Lsn(k: nat): nat {
    IO_BUFFER_SIZE * k
  }

  function Length(sectors: nat, k: nat): nat {
    if Lsn(k) >= sectors then 0 else 2048 * Min(IO_BUFFER_SIZE, sectors - Lsn(k))
  }

  // ---------------------------------------------------------------- what the connections deliver

  /** All that the connection delivers. */
  function Sent(image: seq<Byte>, sectors: nat, w: Where): seq<Byte> {
    if w.lsn <= sectors && 2048 * w.lsn <= |image| then Stream(w.session, sectors - w.lsn, image[2048 * w.lsn..])
    else []
  }

  /** The next `count` bytes of it. */
  function Data(image: seq<Byte>, sectors: nat, w: Where, count: nat): seq<Byte> {
    var s := Sent(image, sectors, w);
    if w.offset + count <= |s| then s[w.offset..w.offset + count] else []
  }

  /** The connection delivers that many. */
  predicate Arrives(q: Request, w: Where, count: nat) {
    Sound(w.session) && w.offset + count <= |Sent(Zeros(q.size), q.sectors, w)|
  }

  /** How many bytes of the game the console had passed over before the last of them. */
  function PassedOver(q: Request, w: Where, count: nat): nat {
    if w.lsn <= q.sectors && 2048 * w.lsn <= q.size then
      var shifts := Shifts(w.session, q.sectors - w.lsn, q.size - 2048 * w.lsn);
      if 0 < w.offset + count <= |shifts| then shifts[w.offset + count - 1] else 0
    else 0
  }

  lemma SentLength(a: seq<Byte>, b: seq<Byte>, sectors: nat, w: Where)
    requires |a| == |b|
    ensures |Sent(a, sectors, w)| == |Sent(b, sectors, w)|
  {
    hide Stream;
    if w.lsn <= sectors && 2048 * w.lsn <= |a| {
      StreamLength(w.session, sectors - w.lsn, a[2048 * w.lsn..], b[2048 * w.lsn..]);
    }
  }

  /** It does not depend on how much has been taken. */
  lemma SentStays(image: seq<Byte>, sectors: nat, w: Where, offset: nat)
    ensures Sent(image, sectors, w.(offset := offset)) == Sent(image, sectors, w)
  {
  }

  /** What arrives are bytes of the game; the last of them lies behind its place by what was passed over. */
  lemma LastByte(image: seq<Byte>, q: Request, w: Where, count: nat)
    requires |image| == q.size && Arrives(q, w, count) && 0 < count
    ensures |Data(image, q.sectors, w, count)| == count
    ensures var at := 2048 * w.lsn + w.offset + count - 1 + PassedOver(q, w, count);
            at < |image| && Data(image, q.sectors, w, count)[count - 1] == image[at]
  {
    hide Stream, Shifts;
    SentLength(image, Zeros(q.size), q.sectors, w);
    StreamIsShifted(w.session, q.sectors - w.lsn, image[2048 * w.lsn..]);
  }

  lemma NotShiftedUpTo(data: seq<Byte>, image: seq<Byte>, shifts: seq<nat>, from: nat, to: nat)
    requires ReadRing.Shifted(data, image, shifts) && from < to <= |data| && shifts[to - 1] == 0
    requires forall p, q :: 0 <= p < q < |shifts| ==> shifts[p] <= shifts[q]
    ensures to <= |image| && data[from..to] == image[from..to]
  {
    forall p | from <= p < to ensures data[p] == image[p] {
      assert shifts[p] == 0;
    }
    assert to - 1 + shifts[to - 1] < |image|;
  }

  /** If nothing was passed over before its last byte, what arrives is the game's. */
  lemma StraightData(image: seq<Byte>, q: Request, w: Where, count: nat)
    requires |image| == q.size && Arrives(q, w, count) && 0 < count && PassedOver(q, w, count) == 0
    ensures var at := 2048 * w.lsn + w.offset;
            at + count <= |image| && Data(image, q.sectors, w, count) == image[at..at + count]
  {
    hide Stream, Shifts, ReadRing.Shifted;
    SentLength(image, Zeros(q.size), q.sectors, w);
    var part, sectors := image[2048 * w.lsn..], q.sectors - w.lsn;
    StreamIsShifted(w.session, sectors, part);
    ShiftsCover(w.session, sectors, part);
    NotShiftedUpTo(Stream(w.session, sectors, part), part, Shifts(w.session, sectors, |part|), w.offset,
                   w.offset + count);
    assert part == image[2048 * w.lsn..|image|];
    Subslice(image, 2048 * w.lsn, |image|, w.offset, count);
  }

  lemma ShiftsCover(session: Session, sectors: nat, image: seq<Byte>)
    requires ReadRing.Shifted(Stream(session, sectors, image), image, Shifts(session, sectors, |image|))
    ensures |Stream(session, sectors, image)| <= |Shifts(session, sectors, |image|)|
  {
    hide Stream, Shifts;
  }

  // ---------------------------------------------------------------- the copier's course

  /** Where attempt `i` at block `k` reads from, if the connection stood at `w` when the block was begun. */
  function From(w: Where, k: nat, fate: Fate, i: nat): Where {
    if 0 < i <= |fate.reopened| then Where(Lsn(k), fate.reopened[i - 1], 0) else w
  }

  /** The connection that is open when the attempts at block `k` are over. */
  function Last(w: Where, k: nat, fate: Fate): Where {
    From(w, k, fate, |fate.broken|)
  }

  /** That connection once the block has been taken from it, if it has. */
  function After(w: Where, k: nat, fate: Fate, length: nat): Where {
    var last := Last(w, k, fate);
    if fate.Received? then last.(offset := last.offset + length) else last
  }

  /** Where the data connection stands once the blocks of `fates` are done: a reopened one starts at its block. */
  function Place(q: Request, fates: seq<Fate>): Where {
    if |fates| == 0 then Where(0, q.first, 0)
    else
      var k := |fates| - 1;
      After(Place(q, fates[..k]), k, fates[k], Length(q.sectors, k))
  }

  /** Each failed attempt brought less than the block, and another connection was opened after it. */
  predicate Tried(q: Request, w: Where, k: nat, fate: Fate, length: nat) {
    && |fate.reopened| == |fate.broken|
    && (forall i :: 0 <= i < |fate.broken| ==>
          fate.broken[i] < length && Arrives(q, From(w, k, fate, i), fate.broken[i]))
    && forall i :: 0 <= i < |fate.reopened| ==> Sound(fate.reopened[i])
  }

  predicate Possible(q: Request, w: Where, k: nat, fate: Fate, length: nat) {
    && Tried(q, w, k, fate, length)
    && if fate.Received? then |fate.broken| < RETRY_COUNT && Arrives(q, Last(w, k, fate), length)
       else |fate.broken| == RETRY_COUNT
  }

  /** Fates of the first blocks. */
  predicate Plausible(q: Request, fates: seq<Fate>) {
    |fates| == 0
    || var k := |fates| - 1;
       && Plausible(q, fates[..k]) && Lsn(k) < q.sectors
       && Possible(q, Place(q, fates[..k]), k, fates[k], Length(q.sectors, k))
  }

  predicate Complete(q: Request, fates: seq<Fate>) {
    Plausible(q, fates) && Lsn(|fates|) >= q.sectors
  }

  predicate NoneExhausted(fates: seq<Fate>) {
    forall k :: 0 <= k < |fates| ==> fates[k].Received?
  }

  /** The console had passed over nothing before the last byte of the block that follows `before`. */
  predicate Straight(q: Request, before: seq<Fate>, fate: Fate) {
    var k := |before|;
    fate.Received? ==> PassedOver(q, Last(Place(q, before), k, fate), Length(q.sectors, k)) == 0
  }

  predicate NoneShifted(q: Request, fates: seq<Fate>) {
    |fates| == 0
    || var k := |fates| - 1; NoneShifted(q, fates[..k]) && Straight(q, fates[..k], fates[k])
  }

  // ---------------------------------------------------------------- what the copier puts into the banks

  /** Attempt `i` at block `k`, of which `count` bytes arrive. */
  function Attempt(image: seq<Byte>, sectors: nat, w: Where, k: nat, fate: Fate, i: nat, count: nat): Action {
    Store(Data(image, sectors, From(w, k, fate, i), count))
  }

  function Broken(image: seq<Byte>, sectors: nat, w: Where, k: nat, fate: Fate): seq<Action> {
    seq(|fate.broken|, i requires 0 <= i < |fate.broken| => Attempt(image, sectors, w, k, fate, i, fate.broken[i]))
  }

  lemma NotTried(image: seq<Byte>, q: Request, w: Where, k: nat, length: nat)
    ensures Tried(q, w, k, Exhausted([], []), length) && Broken(image, q.sectors, w, k, Exhausted([], [])) == []
    ensures From(w, k, Exhausted([], []), 0) == w
  {
  }

  lemma OneMoreBroken(image: seq<Byte>, sectors: nat, w: Where, k: nat, fate: Fate, got: nat)
    requires |fate.reopened| == |fate.broken|
    ensures Broken(image, sectors, w, k, Exhausted(fate.broken + [got], fate.reopened))
         == Broken(image, sectors, w, k, fate) + [Attempt(image, sectors, w, k, fate, |fate.broken|, got)]
  {
    hide Data;
  }

  lemma TriedOnceMore(image: seq<Byte>, q: Request, w: Where, k: nat, fate: Fate, got: nat, session: Session,
                      length: nat)
    requires Tried(q, w, k, fate, length) && got < length && Sound(session)
    requires Arrives(q, From(w, k, fate, |fate.broken|), got)
    ensures var more := Exhausted(fate.broken + [got], fate.reopened + [session]);
            && Tried(q, w, k, more, length) && From(w, k, more, |more.broken|) == Where(Lsn(k), session, 0)
            && Broken(image, q.sectors, w, k, more)
               == Broken(image, q.sectors, w, k, Exhausted(fate.broken + [got], fate.reopened))
  {
    hide Data, Arrives;
    var more := Exhausted(fate.broken + [got], fate.reopened + [session]);
    forall i | 0 <= i < |more.broken|
      ensures more.broken[i] < length && Arrives(q, From(w, k, more, i), more.broken[i])
    {
      assert From(w, k, more, i) == From(w, k, fate, i);
    }
  }

  lemma TriedLengths(q: Request, w: Where, k: nat, fate: Fate, length: nat)
    requires Tried(q, w, k, fate, length)
    ensures |fate.reopened| == |fate.broken|
  {
  }

  /** The attempts before a last one that succeeds. */
  lemma SameBroken(image: seq<Byte>, q: Request, w: Where, k: nat, fate: Fate, length: nat)
    ensures var received := Received(fate.broken, fate.reopened);
            && Broken(image, q.sectors, w, k, received) == Broken(image, q.sectors, w, k, fate)
            && From(w, k, received, |fate.broken|) == From(w, k, fate, |fate.broken|)
            && (Tried(q, w, k, fate, length) ==> Tried(q, w, k, received, length))
  {
    hide Data, Arrives;
    var received := Received(fate.broken, fate.reopened);
    assert forall i :: From(w, k, received, i) == From(w, k, fate, i);
  }

  /** The ring calls for block `k` after its broken attempts. */
  function LastCalls(image: seq<Byte>, sectors: nat, w: Where, k: nat, fate: Fate, length: nat): seq<Action> {
    (if fate.Received? then [Attempt(image, sectors, w, k, fate, |fate.broken|, length)] else []) + [Submit(length)]
  }

  /** The ring calls for the block that follows those of `before`. */
  function BlockCalls(image: seq<Byte>, q: Request, before: seq<Fate>, fate: Fate): seq<Action> {
    var k, w := |before|, Place(q, before);
    Broken(image, q.sectors, w, k, fate) + LastCalls(image, q.sectors, w, k, fate, Length(q.sectors, k))
  }

  function AllCalls(image: seq<Byte>, q: Request, fates: seq<Fate>): seq<Action> {
    if |fates| == 0 then []
    else
      var k := |fates| - 1;
      AllCalls(image, q, fates[..k]) + BlockCalls(image, q, fates[..k], fates[k])
  }

  /** Banks, pointer and blocks after all that. */
  function Filled(image: seq<Byte>, q: Request, fates: seq<Fate>, start: Filler): Filler {
    FilledByAll(start, IO_BANKMAX, AllCalls(image, q, fates))
  }

  predicate Sized(m: Filler) {
    && |m.banks| == IO_BANKMAX && m.writePtr < IO_BANKMAX
    && forall i :: 0 <= i < IO_BANKMAX ==> |m.banks[i]| == BANK_BYTES
  }

  predicate AllZero(m: Filler) {
    forall i, j :: 0 <= i < |m.banks| && 0 <= j < |m.banks[i]| ==> m.banks[i][j] == 0
  }

  predicate Fresh(m: Filler) {
    Sized(m) && m.writePtr == 0 && m.submitted == []
  }

  predicate SameOtherBanks(m: Filler, m': Filler)
    requires Sized(m) && Sized(m')
  {
    forall i :: 0 <= i < IO_BANKMAX && i != m.writePtr ==> m'.banks[i] == m.banks[i]
  }

  /** Attempts leave everything alone but the bank they fill, and of that the bytes they do not reach. */
  predicate Attempted(m: Filler, m': Filler, reach: nat) {
    && Sized(m) && Sized(m') && m'.writePtr == m.writePtr && m'.submitted == m.submitted && SameOtherBanks(m, m')
    && forall j :: reach <= j < BANK_BYTES ==> m'.banks[m.writePtr][j] == m.banks[m.writePtr][j]
  }

  lemma DataFits(image: seq<Byte>, sectors: nat, w: Where, count: nat)
    ensures |Data(image, sectors, w, count)| <= count
  {
    hide Sent;
  }

  lemma StoreFills(m: Filler, data: seq<Byte>, reach: nat)
    requires Sized(m) && |data| <= reach <= BANK_BYTES
    ensures var m' := FilledBy(m, IO_BANKMAX, Store(data));
            Attempted(m, m', reach) && m'.banks[m.writePtr][..|data|] == data
  {
  }

  lemma AttemptedTwice(a: Filler, b: Filler, c: Filler, reach: nat)
    requires Attempted(a, b, reach) && Attempted(b, c, reach)
    ensures Attempted(a, c, reach)
  {
  }

  lemma {:induction false} BrokenFills(m: Filler, image: seq<Byte>, sectors: nat, w: Where, k: nat, fate: Fate, n: nat,
                                       reach: nat)
    requires Sized(m) && reach <= BANK_BYTES && n <= |fate.broken|
    requires forall i :: 0 <= i < |fate.broken| ==> fate.broken[i] <= reach
    ensures Attempted(m, FilledByAll(m, IO_BANKMAX, Broken(image, sectors, w, k, fate)[..n]), reach)
  {
    hide Data, FilledBy, Attempted;
    if n == 0 {
      NothingAttempted(m, reach);
    } else {
      BrokenFills(m, image, sectors, w, k, fate, n - 1, reach);
      var calls := Broken(image, sectors, w, k, fate);
      assert calls[..n][..n - 1] == calls[..n - 1];
      var m1 := FilledByAll(m, IO_BANKMAX, calls[..n - 1]);
      assert Sized(m1) by { AttemptedIsSized(m, m1, reach); }
      DataFits(image, sectors, From(w, k, fate, n - 1), fate.broken[n - 1]);
      StoreFills(m1, Data(image, sectors, From(w, k, fate, n - 1), fate.broken[n - 1]), reach);
      AttemptedTwice(m, m1, FilledBy(m1, IO_BANKMAX, calls[n - 1]), reach);
    }
  }

  lemma NothingAttempted(m: Filler, reach: nat)
    requires Sized(m)
    ensures Attempted(m, m, reach)
  {
  }

  lemma AttemptedIsSized(m: Filler, m': Filler, reach: nat)
    requires Attempted(m, m', reach)
    ensures Sized(m')
  {
  }

  lemma SubmitFills(m: Filler, length: nat)
    requires Sized(m) && length <= BANK_BYTES
    ensures var m' := FilledBy(m, IO_BANKMAX, Submit(length));
            Sized(m') && m'.banks == m.banks && m'.submitted == m.submitted + [m.banks[m.writePtr][..length]]
  {
  }

  /** A block received is what has arrived last; of one given up on the last byte is what the bank held before. */
  predicate BlockDone(m: Filler, m': Filler, data: seq<Byte>, fate: Fate, length: nat) {
    && Sized(m) && Sized(m') && SameOtherBanks(m, m') && length <= BANK_BYTES
    && m'.submitted == m.submitted + [m'.banks[m.writePtr][..length]]
    && (fate.Received? && |data| == length ==> m'.banks[m.writePtr][..length] == data)
    && (fate.Exhausted? && 0 < length ==> m'.banks[m.writePtr][length - 1] == m.banks[m.writePtr][length - 1])
  }

  lemma LastCallsFill(m: Filler, image: seq<Byte>, sectors: nat, w: Where, k: nat, fate: Fate, length: nat)
    requires Sized(m) && length <= BANK_BYTES
    ensures BlockDone(m, FilledByAll(m, IO_BANKMAX, LastCalls(image, sectors, w, k, fate, length)),
                      Data(image, sectors, Last(w, k, fate), length), fate, length)
  {
    hide FilledByAll, FilledBy, Data;
    if fate.Received? {
      var data := Data(image, sectors, Last(w, k, fate), length);
      FilledByConcat(m, IO_BANKMAX, [Store(data)], [Submit(length)]);
      FilledByOne(m, IO_BANKMAX, Store(data));
      DataFits(image, sectors, Last(w, k, fate), length);
      StoreFills(m, data, length);
      FilledByOne(FilledBy(m, IO_BANKMAX, Store(data)), IO_BANKMAX, Submit(length));
      SubmitFills(FilledBy(m, IO_BANKMAX, Store(data)), length);
    } else {
      assert LastCalls(image, sectors, w, k, fate, length) == [Submit(length)];
      FilledByOne(m, IO_BANKMAX, Submit(length));
      SubmitFills(m, length);
    }
  }

  lemma BlockSplits(m: Filler, image: seq<Byte>, q: Request, before: seq<Fate>, fate: Fate)
    ensures var k, w, length := |before|, Place(q, before), Length(q.sectors, |before|);
            FilledByAll(m, IO_BANKMAX, BlockCalls(image, q, before, fate))
            == FilledByAll(FilledByAll(m, IO_BANKMAX, Broken(image, q.sectors, w, k, fate)), IO_BANKMAX,
                           LastCalls(image, q.sectors, w, k, fate, length))
  {
    hide FilledByAll, Place, LastCalls, Broken;
    var k, w, length := |before|, Place(q, before), Length(q.sectors, |before|);
    FilledByConcat(m, IO_BANKMAX, Broken(image, q.sectors, w, k, fate),
                   LastCalls(image, q.sectors, w, k, fate, length));
  }

  lemma BlockFills(m: Filler, image: seq<Byte>, q: Request, before: seq<Fate>, fate: Fate)
    requires Sized(m) && Lsn(|before|) < q.sectors
    requires Possible(q, Place(q, before), |before|, fate, Length(q.sectors, |before|))
    ensures var k, length := |before|, Length(q.sectors, |before|);
            BlockDone(m, FilledByAll(m, IO_BANKMAX, BlockCalls(image, q, before, fate)),
                      Data(image, q.sectors, Last(Place(q, before), k, fate), length), fate, length)
  {
    hide Place, FilledByAll, LastCalls, Data, Arrives, Broken, Last;
    var k, w, length := |before|, Place(q, before), Length(q.sectors, |before|);
    BlockSplits(m, image, q, before, fate);
    var calls := Broken(image, q.sectors, w, k, fate);
    assert calls[..|fate.broken|] == calls by { BrokenLength(image, q.sectors, w, k, fate); }
    BrokenFills(m, image, q.sectors, w, k, fate, |fate.broken|, length - 1);
    LastCallsFill(FilledByAll(m, IO_BANKMAX, calls), image, q.sectors, w, k, fate, length);
  }

  lemma BrokenLength(image: seq<Byte>, sectors: nat, w: Where, k: nat, fate: Fate)
    ensures |Broken(image, sectors, w, k, fate)| == |fate.broken|
  {
  }

  lemma FilledSnoc(image: seq<Byte>, q: Request, fates: seq<Fate>, start: Filler)
    requires |fates| > 0
    ensures var k := |fates| - 1;
            Filled(image, q, fates, start)
            == FilledByAll(Filled(image, q, fates[..k], start), IO_BANKMAX, BlockCalls(image, q, fates[..k], fates[k]))
  {
    var k := |fates| - 1;
    FilledByConcat(start, IO_BANKMAX, AllCalls(image, q, fates[..k]), BlockCalls(image, q, fates[..k], fates[k]));
  }

  /** The last block of `fates`. */
  lemma LastBlock(image: seq<Byte>, q: Request, fates: seq<Fate>, start: Filler)
    requires |fates| > 0 && Plausible(q, fates) && Sized(Filled(image, q, fates[..|fates| - 1], start))
    ensures var k, length := |fates| - 1, Length(q.sectors, |fates| - 1);
            BlockDone(Filled(image, q, fates[..k], start), Filled(image, q, fates, start),
                      Data(image, q.sectors, Last(Place(q, fates[..k]), k, fates[k]), length), fates[k], length)
  {
    hide FilledByAll, BlockCalls, Possible, Data, Last, Place, Filled, BlockDone, Sized;
    var k := |fates| - 1;
    FilledSnoc(image, q, fates, start);
    BlockFills(Filled(image, q, fates[..k], start), image, q, fates[..k], fates[k]);
  }

  /** As long as no block was given up on, the connection stands at the next block whenever one is begun. */
  lemma {:induction false} PlaceIsRight(q: Request, fates: seq<Fate>)
    requires Plausible(q, fates) && NoneExhausted(fates)
    ensures var w := Place(q, fates); 2048 * w.lsn + w.offset == 2048 * Min(Lsn(|fates|), q.sectors)
  {
    if |fates| > 0 {
      PlaceIsRight(q, fates[..|fates| - 1]);
    }
  }

  lemma LastIsAtBlock(q: Request, before: seq<Fate>, fate: Fate)
    requires Plausible(q, before) && NoneExhausted(before) && Lsn(|before|) < q.sectors
    ensures var w := Last(Place(q, before), |before|, fate); 2048 * w.lsn + w.offset == 2048 * Lsn(|before|)
  {
    hide Plausible, Place;
    PlaceIsRight(q, before);
  }

  /** In any case there are as many bytes as sectors were asked for. */
  lemma {:induction false} FilledLength(image: seq<Byte>, q: Request, fates: seq<Fate>, start: Filler)
    requires Fresh(start) && Plausible(q, fates)
    ensures var m := Filled(image, q, fates, start);
            Sized(m) && |m.submitted| == |fates| && |Flatten(m.submitted)| == 2048 * Min(Lsn(|fates|), q.sectors)
  {
    hide Filled, Possible, Flatten, Data, Place, Last;
    if |fates| == 0 {
      NothingFilled(image, q, start);
    } else {
      var k := |fates| - 1;
      FilledLength(image, q, fates[..k], start);
      LastBlock(image, q, fates, start);
      var m, m' := Filled(image, q, fates[..k], start), Filled(image, q, fates, start);
      FlattenSnoc(m.submitted, m'.submitted[k]);
    }
  }

  lemma NothingFilled(image: seq<Byte>, q: Request, start: Filler)
    ensures Filled(image, q, [], start) == start && Flatten<Byte>([]) == []
  {
  }

  /** A block that came in within its attempts, with nothing passed over, is the game's. */
  lemma BlockIsRight(image: seq<Byte>, q: Request, before: seq<Fate>, fate: Fate)
    requires |image| == q.size && Plausible(q, before) && NoneExhausted(before) && Lsn(|before|) < q.sectors
    requires Possible(q, Place(q, before), |before|, fate, Length(q.sectors, |before|))
    requires fate.Received? && Straight(q, before, fate)
    ensures var k, length := |before|, Length(q.sectors, |before|);
            && 2048 * Lsn(k) + length <= |image|
            && Data(image, q.sectors, Last(Place(q, before), k, fate), length)
               == image[2048 * Lsn(k)..2048 * Lsn(k) + length]
  {
    hide Place, Plausible, Data, Last, Arrives, PassedOver;
    LastIsAtBlock(q, before, fate);
    StraightData(image, q, Last(Place(q, before), |before|, fate), Length(q.sectors, |before|));
  }

  /**
   Nothing is lost or duplicated, whatever broke in between, as long as every block came in within its attempts and the
   console passed over nothing.
   */
  lemma {:induction false} CopyIsPrefix(image: seq<Byte>, q: Request, fates: seq<Fate>, start: Filler)
    requires 2048 * q.sectors <= |image| == q.size && Fresh(start) && Plausible(q, fates)
    requires NoneExhausted(fates) && NoneShifted(q, fates)
    ensures Flatten(Filled(image, q, fates, start).submitted) == image[..2048 * Min(Lsn(|fates|), q.sectors)]
  {
    hide Filled, Possible, Flatten, Data, Place, Last, Straight;
    if |fates| == 0 {
      NothingFilled(image, q, start);
    } else {
      var k := |fates| - 1;
      CopyIsPrefix(image, q, fates[..k], start);
      FilledLength(image, q, fates[..k], start);
      LastBlock(image, q, fates, start);
      BlockIsRight(image, q, fates[..k], fates[k]);
      var m, m' := Filled(image, q, fates[..k], start), Filled(image, q, fates, start);
      FlattenSnoc(m.submitted, m'.submitted[k]);
      var at := 2048 * Lsn(k);
      assert image[..at] + image[at..at + Length(q.sectors, k)] == image[..at + Length(q.sectors, k)];
    }
  }

  // ---------------------------------------------------------------- a block that spoils the copy

  /** Where the last byte of block `k` lies in the game. */
  function EndOf(sectors: nat, k: nat): nat
    requires Lsn(k) < sectors
  {
    2048 * Lsn(k) + Length(sectors, k) - 1
  }

  /** A game of zeros but for the last byte of block `k`. */
  function Spoiler(q: Request, k: nat): (image: seq<Byte>)
    requires Lsn(k) < q.sectors && 2048 * q.sectors <= q.size
    ensures |image| == q.size && EndOf(q.sectors, k) < 2048 * q.sectors
    ensures forall i :: 0 <= i < |image| ==> image[i] == if i == EndOf(q.sectors, k) then 1 else 0
  {
    Zeros(q.size)[EndOf(q.sectors, k) := 1]
  }

  /** The banks stay zero until that block is begun. */
  lemma {:induction false} ZeroBefore(q: Request, k: nat, fates: seq<Fate>, start: Filler)
    requires Lsn(k) < q.sectors && 2048 * q.sectors <= q.size && |fates| <= k
    requires Plausible(q, fates) && NoneExhausted(fates) && NoneShifted(q, fates)
    requires Fresh(start) && AllZero(start)
    ensures AllZero(Filled(Spoiler(q, k), q, fates, start))
  {
    hide Filled, Possible, Data, Place, Last, Straight, Spoiler;
    var image := Spoiler(q, k);
    if |fates| == 0 {
      NothingFilled(image, q, start);
    } else {
      var n := |fates| - 1;
      ZeroBefore(q, k, fates[..n], start);
      FilledLength(image, q, fates[..n], start);
      LastBlock(image, q, fates, start);
      BlockIsRight(image, q, fates[..n], fates[n]);
      var m, m' := Filled(image, q, fates[..n], start), Filled(image, q, fates, start);
      var bank := m'.banks[m.writePtr];
      assert Length(q.sectors, n) == BANK_BYTES && bank[..BANK_BYTES] == bank;
      assert bank == image[2048 * Lsn(n)..2048 * Lsn(n) + BANK_BYTES];
    }
  }

  /** Blocks submitted stay submitted. */
  lemma {:induction false} BlocksStay(image: seq<Byte>, q: Request, fates: seq<Fate>, start: Filler, n: nat)
    requires Fresh(start) && Plausible(q, fates) && n <= |fates|
    ensures Filled(image, q, fates[..n], start).submitted <= Filled(image, q, fates, start).submitted
    decreases |fates|
  {
    hide Filled, Possible, Data, Place, Last;
    if n == |fates| {
      assert fates[..n] == fates;
    } else {
      var k := |fates| - 1;
      BlocksStay(image, q, fates[..k], start, n);
      assert fates[..k][..n] == fates[..n];
      FilledLength(image, q, fates[..k], start);
      LastBlock(image, q, fates, start);
    }
  }

  lemma {:induction false} PlausiblePrefix(q: Request, fates: seq<Fate>, n: nat)
    requires Plausible(q, fates) && n <= |fates|
    ensures Plausible(q, fates[..n])
    decreases |fates|
  {
    hide Possible, Place;
    if n < |fates| {
      PlausiblePrefix(q, fates[..|fates| - 1], n);
      assert fates[..|fates| - 1][..n] == fates[..n];
    } else {
      assert fates[..n] == fates;
    }
  }

  /** Block `k` is the first that was given up on, or before whose end something had been passed over. */
  predicate FirstBad(q: Request, fates: seq<Fate>, k: nat) {
    && k < |fates| && NoneExhausted(fates[..k]) && NoneShifted(q, fates[..k])
    && (fates[k].Exhausted? || !Straight(q, fates[..k], fates[k]))
  }

  /** The last byte of such a block is another one than that of the spoiling game. */
  lemma BadBlockEndsInZero(q: Request, before: seq<Fate>, fate: Fate, start: Filler)
    requires 2048 * q.sectors <= q.size && Fresh(start) && AllZero(start) && Plausible(q, before + [fate])
    requires NoneExhausted(before) && NoneShifted(q, before) && (fate.Exhausted? || !Straight(q, before, fate))
    ensures var k := |before|;
            && Lsn(k) < q.sectors
            && var m' := Filled(Spoiler(q, k), q, before + [fate], start);
               |m'.submitted| == k + 1 && |m'.submitted[k]| == Length(q.sectors, k)
               && m'.submitted[k][Length(q.sectors, k) - 1] == 0
  {
    hide Filled, Data, Place, Last, Spoiler, PassedOver, Arrives, Flatten, NoneShifted;
    var k, fates := |before|, before + [fate];
    assert fates[..k] == before && fates[k] == fate;
    var image := Spoiler(q, k);
    FilledLength(image, q, before, start);
    ZeroBefore(q, k, before, start);
    LastBlock(image, q, fates, start);
    var m, m', length := Filled(image, q, before, start), Filled(image, q, fates, start), Length(q.sectors, k);
    if fate.Received? {
      var w := Last(Place(q, before), k, fate);
      LastIsAtBlock(q, before, fate);
      LastByte(image, q, w, length);
      assert m'.submitted[k] == Data(image, q.sectors, w, length);
    }
  }

  /** The first such block spoils the copy of some game, if the memory of the banks was zero at the start. */
  lemma BadBlockSpoils(q: Request, fates: seq<Fate>, k: nat, start: Filler)
    requires 2048 * q.sectors <= q.size && Plausible(q, fates) && FirstBad(q, fates, k)
    requires Fresh(start) && AllZero(start)
    ensures Lsn(k) < q.sectors
    ensures Flatten(Filled(Spoiler(q, k), q, fates, start).submitted) != Spoiler(q, k)[..2048 * q.sectors]
  {
    hide Filled, Flatten, Sized, Possible, Place, Spoiler, Straight, NoneShifted, Fresh, AllZero;
    PlausiblePrefix(q, fates, k + 1);
    assert fates[..k + 1] == fates[..k] + [fates[k]];
    BadBlockEndsInZero(q, fates[..k], fates[k], start);
    var image, at := Spoiler(q, k), EndOf(q.sectors, k);
    var m1, all := Filled(image, q, fates[..k + 1], start), Filled(image, q, fates, start).submitted;
    PlausiblePrefix(q, fates, k);
    FilledLength(image, q, fates[..k + 1], start);
    BlocksStay(image, q, fates, start, k + 1);
    FlattenSnoc(m1.submitted[..k], m1.submitted[k]);
    assert m1.submitted == m1.submitted[..k] + [m1.submitted[k]];
    assert Flatten(m1.submitted)[at] == 0;
    assert all == m1.submitted + all[k + 1..];
    FlattenConcat(m1.submitted, all[k + 1..]);
    assert Flatten(all)[at] == 0 && image[..2048 * q.sectors][at] == 1;
  }

  // ---------------------------------------------------------------- the file

  /** A step of the run that copies: the copier's next call, or any other step of either thread. */
  datatype Move = Call | Other(a: Action)

  predicate Plain(moves: seq<Move>) {
    forall i :: 0 <= i < |moves| && moves[i].Other? ==> !Fills(moves[i].a)
  }

  function CallCount(moves: seq<Move>): nat {
    if |moves| == 0 then 0 else (if moves[0].Call? then 1 else 0) + CallCount(moves[1..])
  }

  predicate NoneFails(moves: seq<Move>) {
    forall i :: 0 <= i < |moves| && moves[i].Other? ==> !moves[i].a.TFail?
  }

  /** The schedule that these moves and these calls make. */
  function Woven(calls: seq<Action>, moves: seq<Move>): seq<Action>
    requires |calls| == CallCount(moves)
  {
    if |moves| == 0 then []
    else match moves[0]
         case Call => [calls[0]] + Woven(calls[1..], moves[1..])
         case Other(a) => [a] + Woven(calls, moves[1..])
  }

  predicate AllFills(calls: seq<Action>) {
    forall i :: 0 <= i < |calls| ==> Fills(calls[i])
  }

  lemma {:induction false} WovenFacts(calls: seq<Action>, moves: seq<Move>)
    requires |calls| == CallCount(moves) && Plain(moves) && AllFills(calls)
    ensures Calls(Woven(calls, moves)) == calls && (NoWriteFails(Woven(calls, moves)) <==> NoneFails(moves))
    decreases |moves|
  {
    if |moves| > 0 {
      var rest := if moves[0].Call? then calls[1..] else calls;
      WovenFacts(rest, moves[1..]);
      var w := Woven(calls, moves);
      assert w[1..] == Woven(rest, moves[1..]);
      assert w == [w[0]] + w[1..] && moves == [moves[0]] + moves[1..];
      FailsFirst(w);
      FailsFirstMove(moves);
    }
  }

  lemma FailsFirst(w: seq<Action>)
    requires |w| > 0
    ensures NoWriteFails(w) <==> !w[0].TFail? && NoWriteFails(w[1..])
  {
    assert w == [w[0]] + w[1..];
  }

  lemma FailsFirstMove(moves: seq<Move>)
    requires |moves| > 0
    ensures NoneFails(moves) <==> !(moves[0].Other? && moves[0].a.TFail?) && NoneFails(moves[1..])
  {
    assert moves == [moves[0]] + moves[1..];
  }

  lemma {:induction false} WovenAlike(a: seq<Action>, b: seq<Action>, moves: seq<Move>)
    requires |a| == CallCount(moves) && AlikeRuns(a, b)
    ensures AlikeRuns(Woven(a, moves), Woven(b, moves))
    decreases |moves|
  {
    if |moves| > 0 {
      if moves[0].Call? {
        WovenAlike(a[1..], b[1..], moves[1..]);
      } else {
        WovenAlike(a, b, moves[1..]);
      }
    }
  }

  lemma AlikeConcat(a: seq<Action>, b: seq<Action>, c: seq<Action>, d: seq<Action>)
    requires AlikeRuns(a, b) && AlikeRuns(c, d) && AllFills(a) && AllFills(c)
    ensures AlikeRuns(a + c, b + d) && AllFills(a + c)
  {
  }

  lemma DataAlike(a: seq<Byte>, b: seq<Byte>, sectors: nat, w: Where, count: nat)
    requires |a| == |b|
    ensures |Data(a, sectors, w, count)| == |Data(b, sectors, w, count)|
  {
    hide Sent;
    SentLength(a, b, sectors, w);
  }

  lemma BrokenAlike(a: seq<Byte>, b: seq<Byte>, sectors: nat, w: Where, k: nat, fate: Fate)
    requires |a| == |b|
    ensures AlikeRuns(Broken(a, sectors, w, k, fate), Broken(b, sectors, w, k, fate))
    ensures AllFills(Broken(a, sectors, w, k, fate))
  {
    hide Data;
    forall i | 0 <= i < |fate.broken|
      ensures AlikeAction(Attempt(a, sectors, w, k, fate, i, fate.broken[i]),
                          Attempt(b, sectors, w, k, fate, i, fate.broken[i]))
    {
      DataAlike(a, b, sectors, From(w, k, fate, i), fate.broken[i]);
    }
  }

  lemma LastCallsAlike(a: seq<Byte>, b: seq<Byte>, sectors: nat, w: Where, k: nat, fate: Fate, length: nat)
    requires |a| == |b|
    ensures AlikeRuns(LastCalls(a, sectors, w, k, fate, length), LastCalls(b, sectors, w, k, fate, length))
    ensures AllFills(LastCalls(a, sectors, w, k, fate, length))
  {
    hide Data;
    DataAlike(a, b, sectors, Last(w, k, fate), length);
  }

  /** The calls for two games of one length differ in their bytes only. */
  lemma {:induction false} CallsAlike(a: seq<Byte>, b: seq<Byte>, q: Request, fates: seq<Fate>)
    requires |a| == |b|
    ensures AlikeRuns(AllCalls(a, q, fates), AllCalls(b, q, fates)) && AllFills(AllCalls(a, q, fates))
  {
    hide AlikeRuns, AllFills, Broken, LastCalls, Place;
    if |fates| == 0 {
      NoCallsAlike();
    } else {
      var k := |fates| - 1;
      var before, fate := fates[..k], fates[k];
      var w, length := Place(q, before), Length(q.sectors, k);
      CallsAlike(a, b, q, before);
      BrokenAlike(a, b, q.sectors, w, k, fate);
      LastCallsAlike(a, b, q.sectors, w, k, fate, length);
      AlikeConcat(Broken(a, q.sectors, w, k, fate), Broken(b, q.sectors, w, k, fate),
                  LastCalls(a, q.sectors, w, k, fate, length), LastCalls(b, q.sectors, w, k, fate, length));
      AlikeConcat(AllCalls(a, q, before), AllCalls(b, q, before),
                  BlockCalls(a, q, before, fate), BlockCalls(b, q, before, fate));
    }
  }

  lemma NoCallsAlike()
    ensures AlikeRuns([], []) && AllFills([])
  {
  }

  predicate Memory(banks: seq<seq<Byte>>, lengths: seq<nat>) {
    |banks| == |lengths| == IO_BANKMAX && forall i :: 0 <= i < IO_BANKMAX ==> |banks[i]| == BANK_BYTES
  }

  /** The run of the ring in which `image` is copied. */
  function Copying(image: seq<Byte>, q: Request, fates: seq<Fate>, moves: seq<Move>, banks: seq<seq<Byte>>,
                   lengths: seq<nat>): Outcome
    requires |AllCalls(image, q, fates)| == CallCount(moves)
  {
    Run(Init(IO_BANKMAX, banks, lengths), Woven(AllCalls(image, q, fates), moves))
  }

  /** These fates and moves make a run in which the copier gets every block and IOEndWrite returns. */
  predicate Finishes(image: seq<Byte>, q: Request, fates: seq<Fate>, moves: seq<Move>, banks: seq<seq<Byte>>,
                     lengths: seq<nat>) {
    && 2048 * q.sectors <= |image| == q.size && Memory(banks, lengths) && Plain(moves)
    && |AllCalls(image, q, fates)| == CallCount(moves)
    && Copying(image, q, fates, moves, banks, lengths).Reached?
    && Copying(image, q, fates, moves, banks, lengths).s.p.Done?
  }

  /** Whether they do does not depend on the game. */
  lemma FinishesForAll(image: seq<Byte>, image': seq<Byte>, q: Request, fates: seq<Fate>, moves: seq<Move>,
                       banks: seq<seq<Byte>>, banks': seq<seq<Byte>>, lengths: seq<nat>)
    requires Finishes(image, q, fates, moves, banks, lengths)
    requires |image'| == q.size && Memory(banks', lengths)
    ensures Finishes(image', q, fates, moves, banks', lengths)
  {
    hide AllCalls, Woven, Run, Calls;
    CallsAlike(image, image', q, fates);
    WovenAlike(AllCalls(image, q, fates), AllCalls(image', q, fates), moves);
    ClientRing.AlikeRun(Init(IO_BANKMAX, banks, lengths), Init(IO_BANKMAX, banks', lengths),
                        Woven(AllCalls(image, q, fates), moves), Woven(AllCalls(image', q, fates), moves));
  }

  /** The file of such a run: the blocks put in, whole if no write fails, and too short if one does. */
  lemma FileOfRun(image: seq<Byte>, q: Request, fates: seq<Fate>, moves: seq<Move>, banks: seq<seq<Byte>>,
                  lengths: seq<nat>)
    requires Finishes(image, q, fates, moves, banks, lengths) && Complete(q, fates)
    ensures var file, blocks := Copying(image, q, fates, moves, banks, lengths).s.h.file,
                                Filled(image, q, fates, Filler(banks, 0, [])).submitted;
            && |Flatten(blocks)| == 2048 * q.sectors
            && if NoneFails(moves) then file == Flatten(blocks) else |file| < 2048 * q.sectors
  {
    hide AllCalls, Woven, Run, Calls, Flatten, Inv, FilledByAll, Plausible;
    var start, calls := Init(IO_BANKMAX, banks, lengths), AllCalls(image, q, fates);
    var schedule := Woven(calls, moves);
    CallsAlike(image, image, q, fates);
    WovenFacts(calls, moves);
    FillingIsByCalls(start, schedule);
    FilledLength(image, q, fates, Filler(banks, 0, []));
    InitInv(IO_BANKMAX, banks, lengths);
    RunInv(start, schedule);
    WholeRun(start, schedule);
    DoneMeansWholeOrCut(Run(start, schedule).s);
  }

  /** The copy is right whatever the game, and whatever was in the memory of the banks at the start. */
  ghost predicate AlwaysRight(q: Request, fates: seq<Fate>, moves: seq<Move>, lengths: seq<nat>) {
    forall image, banks :: Finishes(image, q, fates, moves, banks, lengths) ==>
      Copying(image, q, fates, moves, banks, lengths).s.h.file == image[..2048 * q.sectors]
  }

  /**
   A completed copy is right exactly when every block came in within its attempts, the console had passed over nothing
   before the last byte of a block, and no write to the file failed. The copier is told of none of these.
   */
  lemma CopyIsRightIff(q: Request, fates: seq<Fate>, moves: seq<Move>, image: seq<Byte>, banks: seq<seq<Byte>>,
                       lengths: seq<nat>)
    requires Complete(q, fates) && Finishes(image, q, fates, moves, banks, lengths)
    ensures AlwaysRight(q, fates, moves, lengths) <==>
      NoneExhausted(fates) && NoneShifted(q, fates) && NoneFails(moves)
  {
    hide AllCalls, Woven, Run, Calls, Flatten, FilledByAll, Possible, Plausible, Copying, Filled, NoneFails, Spoiler,
         NoneExhausted, NoneShifted, AllZero, FirstBad;
    if NoneExhausted(fates) && NoneShifted(q, fates) && NoneFails(moves) {
      forall image, banks | Finishes(image, q, fates, moves, banks, lengths)
        ensures Copying(image, q, fates, moves, banks, lengths).s.h.file == image[..2048 * q.sectors]
      {
        RightIfNothingFails(image, q, fates, moves, banks, lengths);
      }
    } else {
      var zeros := ZeroBanks();
      var spoiler := image;
      if NoneFails(moves) {
        var k := BadBlock(q, fates);
        BadBlockSpoils(q, fates, k, Filler(zeros, 0, []));
        spoiler := Spoiler(q, k);
      }
      FinishesForAll(image, spoiler, q, fates, moves, banks, zeros, lengths);
      FileOfRun(spoiler, q, fates, moves, zeros, lengths);
      assert Copying(spoiler, q, fates, moves, zeros, lengths).s.h.file != spoiler[..2048 * q.sectors];
    }
  }

  function ZeroBanks(): (banks: seq<seq<Byte>>)
    ensures |banks| == IO_BANKMAX && AllZero(Filler(banks, 0, []))
    ensures forall i :: 0 <= i < IO_BANKMAX ==> |banks[i]| == BANK_BYTES
  {
    Repeat(Zeros(BANK_BYTES), IO_BANKMAX)
  }

  lemma RightIfNothingFails(image: seq<Byte>, q: Request, fates: seq<Fate>, moves: seq<Move>, banks: seq<seq<Byte>>,
                            lengths: seq<nat>)
    requires Complete(q, fates) && Finishes(image, q, fates, moves, banks, lengths)
    requires NoneExhausted(fates) && NoneShifted(q, fates) && NoneFails(moves)
    ensures Copying(image, q, fates, moves, banks, lengths).s.h.file == image[..2048 * q.sectors]
  {
    hide AllCalls, Woven, Run, Calls, Flatten, FilledByAll, Plausible, NoneShifted;
    FileOfRun(image, q, fates, moves, banks, lengths);
    CopyIsPrefix(image, q, fates, Filler(banks, 0, []));
  }

  lemma {:induction false} BadBlock(q: Request, fates: seq<Fate>) returns (k: nat)
    requires !(NoneExhausted(fates) && NoneShifted(q, fates)) && Plausible(q, fates)
    ensures FirstBad(q, fates, k)
  {
    hide Possible, Place, Straight;
    var n := |fates| - 1;
    if NoneExhausted(fates[..n]) && NoneShifted(q, fates[..n]) {
      k := n;
    } else {
      k := BadBlock(q, fates[..n]);
      assert fates[..n][..k] == fates[..k];
    }
  }

  /** After a block was given up on, the next one, if nothing breaks, is filled with that block's data. */
  lemma NextBlockRepeats(image: seq<Byte>, q: Request, fates: seq<Fate>)
    requires |fates| > 0 && fates[|fates| - 1].Exhausted? && Plausible(q, fates)
    ensures Place(q, fates) == Where(Lsn(|fates| - 1), fates[|fates| - 1].reopened[RETRY_COUNT - 1], 0)
    ensures BlockCalls(image, q, fates, Received([], []))
         == [Store(Data(image, q.sectors, Place(q, fates), Length(q.sectors, |fates|))),
             Submit(Length(q.sectors, |fates|))]
  {
    hide Data;
  }

  /** A connection over which a drive failed half-way through a transfer. */
  lemma ShiftedConnection() returns (session: Session)
    ensures var q, w := Request(1, 4096, session), Where(0, session, 0);
            Arrives(q, w, 2048) && PassedOver(q, w, 2048) == 512
  {
    hide ReadRing.Run, Zeros;
    var log, t := ReadLive.SkippingRun(Zeros(4096));
    session := Session(2, 1, Repeat(0, 2), log);
    assert Zeros(4096)[2048 * 0..] == Zeros(4096);
    assert Console(session, 1, Zeros(4096)) == ReadRing.Reached(t);
  }

  /** The copier gets its one block over it, a quarter of a sector too far on, and is told nothing. */
  lemma ShiftGoesUnseen() returns (q: Request, fates: seq<Fate>)
    ensures 2048 * q.sectors <= q.size && Complete(q, fates) && NoneExhausted(fates) && !NoneShifted(q, fates)
  {
    hide PassedOver, Arrives;
    var session := ShiftedConnection();
    q, fates := Request(1, 4096, session), [Received([], [])];
    assert fates[..0] == [] && Plausible(q, []) && Place(q, []) == Where(0, session, 0) && Length(1, 0) == 2048;
    assert Tried(q, Place(q, []), 0, fates[0], 2048) && Last(Place(q, []), 0, fates[0]) == Where(0, session, 0);
    assert !Straight(q, [], fates[0]);
  }

  lemma NoBlocks(image: seq<Byte>, q: Request)
    ensures Plausible(q, []) && Place(q, []) == Where(0, q.first, 0) && AllCalls(image, q, []) == []
  {
  }

  lemma BlockAdded(image: seq<Byte>, q: Request, fates: seq<Fate>, fate: Fate)
    requires Plausible(q, fates) && Lsn(|fates|) < q.sectors
    requires Possible(q, Place(q, fates), |fates|, fate, Length(q.sectors, |fates|))
    ensures Plausible(q, fates + [fate])
    ensures AllCalls(image, q, fates + [fate]) == AllCalls(image, q, fates) + BlockCalls(image, q, fates, fate)
    ensures Place(q, fates + [fate]) == After(Place(q, fates), |fates|, fate, Length(q.sectors, |fates|))
  {
    hide BlockCalls, Possible, After;
    assert (fates + [fate])[..|fates|] == fates;
  }
}
