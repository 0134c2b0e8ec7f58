/**
 The read side of io.c: IOThread reads ahead into the banks, ReadGame takes them one by one and sends them. As on the
 write side every access to shared state is one atomic step of either thread. A transfer may fail for a passing reason
 and be repeated. One that fails with -EIO takes its bank tokens along, and where it leaves the file is anybody's guess;
 the thread goes on with the banks that are left, and only if there are none does it report the error and end.
 */
module ReadRing {
  import opened Common
  import opened Banks

  datatype Command = CmdRead | CmdReadEnd

  /** Where ReadGame, and IOEndRead after it, stand. */
  datatype ConsumerPc = Loop | Hold | GiveBack | SetCommand | Wake | EndCommand | EndWake | WaitAck | Done

  datatype ThreadPc = Sleep | Dispatch | Take | Merge | Transfer | Advance | Give | Failing | Ack | Exited

  /** struct IOState; `remaining` counts the sectors still to be read. */
  datatype IOState = IOState(
    nbufs: nat, bufmax: nat, banks: seq<seq<Byte>>, lengths: seq<nat>,
    writePtr: nat, readPtr: nat, command: Command, remaining: nat, error: bool)

  datatype Kernel = Kernel(free: nat, filled: nat, ack: nat, wakeups: nat)

  /** ReadGame's own variables: the bank it is sending from, and how much of it has been sent. */
  datatype Consumer = Consumer(pc: ConsumerPc, remaining: nat, bank: nat, length: nat, sent: nat,
                               result: int, holding: bool)

  /** IOExecReadNext's own variables; `failed` says that its result is -EIO at the moment. */
  datatype Thread = Thread(pc: ThreadPc, claimed: nat, sectorsTotal: nat, toGive: nat, failed: bool)

  /**
   The file from the start position on; blocks read, how many were taken by ReadGame, and what it has sent. Failed
   transfers have passed over `skipped` bytes of the file and taken `lost` bank tokens along; `shifts` tells for each
   byte read how many had been passed over before it.
   */
  datatype History = History(
    sectors: nat, image: seq<Byte>, read: seq<seq<Byte>>, taken: nat, output: seq<Byte>,
    skipped: nat, lost: nat, shifts: seq<nat>)

  datatype Ring = Ring(io: IOState, k: Kernel, c: Consumer, t: Thread, h: History)

  function BankBytes(s: Ring): nat {
    2048 * s.io.bufmax
  }

  function Position(s: Ring): nat {
    |Flatten(s.h.read)|
  }

  /** Where in the file the next transfer starts. */
  function Cursor(s: Ring): nat {
    Position(s) + s.h.skipped
  }

  /** IOReadInit, which also wakes the thread. */
  function Init(nbufs: nat, bufmax: nat, banks: seq<seq<Byte>>, lengths: seq<nat>, sectors: nat,
                image: seq<Byte>): Ring {
    Ring(IOState(nbufs, bufmax, banks, lengths, 0, 0, CmdRead, sectors, false),
         Kernel(nbufs, 0, 0, 1),
         Consumer(Loop, sectors, 0, 0, 0, 0, false),
         Thread(Sleep, 0, 0, 0, false),
         History(sectors, image, [], 0, [], 0, 0, []))
  }

  predicate InitOk(nbufs: nat, bufmax: nat, banks: seq<seq<Byte>>, lengths: seq<nat>) {
    && 0 < nbufs && 0 < bufmax
    && |banks| == |lengths| == nbufs
    && forall k :: 0 <= k < nbufs ==> |banks[k]| == 2048 * bufmax
  }

  /** One read into consecutive memory: `data` fills the banks from bank `at` on. */
  function StoreAcross(banks: seq<seq<Byte>>, at: nat, data: seq<Byte>): (r: seq<seq<Byte>>)
    ensures |r| == |banks| && forall k :: 0 <= k < |r| ==> |r[k]| == |banks[k]|
    decreases |banks| - at
  {
    if at >= |banks| || |data| == 0 then banks
    else if |data| <= |banks[at]| then banks[at := Patch(banks[at], 0, data)]
    else StoreAcross(banks[at := data[..|banks[at]|]], at + 1, data[|banks[at]|..])
  }

  /** `data` cut into pieces of the given lengths. */
  function Cut(data: seq<Byte>, lengths: seq<nat>): (r: seq<seq<Byte>>)
    ensures |r| == |lengths|
  {
    if |lengths| == 0 then []
    else [data[..Min(lengths[0], |data|)]] + Cut(data[Min(lengths[0], |data|)..], lengths[1..])
  }

  datatype Action =
    // ReadGame
    | CTake                        // IOReadNext
    | CSend(count: nat) | CSendFail
    | CFinish                      // the block has been sent
    | CLeave
    | CGiveBack | CPutCommand | CWake   // IOReadAdvance
    // IOEndRead
    | CPutEndCommand | CWakeForEnd | CTakeAck
    // IOThread
    | TWake | TDispatch | TTake | TMerge | TRead | TRetry | TFail(moved: nat) | TError | TAdvance | TGive | TAck

  predicate Enabled(s: Ring, a: Action) {
    match a
    case CTake =>
      s.c.pc.Loop? && s.c.remaining > 0 && s.k.filled > 0 && s.io.readPtr < |s.io.lengths| && s.h.taken < |s.h.read|
    case CSend(count) =>
      && s.c.pc.Hold? && 0 < count <= s.c.length - s.c.sent
      && s.c.bank < |s.io.banks| && s.c.length <= |s.io.banks[s.c.bank]|
    case CSendFail => s.c.pc.Hold? && s.c.sent < s.c.length
    case CFinish => s.c.pc.Hold? && s.c.sent == s.c.length
    case CLeave => s.c.pc.Loop? && s.c.remaining == 0
    case CGiveBack => s.c.pc.GiveBack?
    case CPutCommand => s.c.pc.SetCommand?
    case CWake => s.c.pc.Wake?
    case CPutEndCommand => s.c.pc.EndCommand?
    case CWakeForEnd => s.c.pc.EndWake?
    case CTakeAck => s.c.pc.WaitAck? && s.k.ack > 0
    case TWake => s.t.pc.Sleep? && s.k.wakeups > 0
    case TDispatch => s.t.pc.Dispatch?
    case TTake => s.t.pc.Take? && s.io.writePtr < |s.io.lengths|
    case TMerge =>
      s.t.pc.Merge? && s.io.writePtr + s.t.claimed <= s.io.nbufs <= |s.io.lengths| && s.t.sectorsTotal <= s.io.remaining
    case TRead =>
      s.t.pc.Transfer? && s.io.writePtr + s.t.claimed <= |s.io.lengths|
      && Cursor(s) + 2048 * s.t.sectorsTotal <= |s.h.image|
    case TRetry => s.t.pc.Transfer?
    case TFail(moved) => s.t.pc.Transfer? && moved < 2048 * s.t.sectorsTotal && Cursor(s) + moved <= |s.h.image|
    case TError => s.t.pc.Failing?
    case TAdvance => s.t.pc.Advance?
    case TGive => s.t.pc.Give? && s.t.sectorsTotal <= s.io.remaining
    case TAck => s.t.pc.Ack?
  }

  function Step(s: Ring, a: Action): Ring
    requires Enabled(s, a)
  {
    var Ring(io, k, c, t, h) := s;
    match a
    case CTake =>
      s.(io := io.(readPtr := Slot(io.readPtr, 1, io.nbufs)), k := k.(filled := k.filled - 1),
         c := c.(pc := Hold, bank := io.readPtr, length := io.lengths[io.readPtr], sent := 0, holding := true),
         h := h.(taken := h.taken + 1))
    case CSend(count) =>
      s.(c := c.(sent := c.sent + count), h := h.(output := h.output + io.banks[c.bank][c.sent..c.sent + count]))
    case CSendFail => s.(c := c.(pc := EndCommand, result := -EPIPE))
    case CFinish =>
      if io.error then s.(c := c.(pc := EndCommand, result := -EIO))
      else
        var remaining := c.remaining - Min(c.length / 2048, c.remaining);
        s.(c := c.(remaining := remaining, pc := if remaining > 0 then GiveBack else EndCommand))
    case CLeave => s.(c := c.(pc := EndCommand))
    case CGiveBack => s.(k := k.(free := k.free + 1), c := c.(pc := SetCommand, holding := false))
    case CPutCommand => s.(io := io.(command := CmdRead), c := c.(pc := Wake))
    case CWake => s.(k := k.(wakeups := k.wakeups + 1), c := c.(pc := Loop))
    case CPutEndCommand => s.(io := io.(command := CmdReadEnd), c := c.(pc := EndWake))
    case CWakeForEnd => s.(k := k.(wakeups := k.wakeups + 1), c := c.(pc := WaitAck))
    case CTakeAck => s.(k := k.(ack := k.ack - 1), c := c.(pc := Done))

    case TWake => s.(k := k.(wakeups := k.wakeups - 1), t := t.(pc := Dispatch))
    case TDispatch => s.(t := t.(pc := if io.command.CmdRead? then Take else Ack, failed := false))
    case TTake =>
      if io.remaining > 0 && k.free > 0 then
        var sectors := if io.remaining < io.bufmax then io.remaining else io.bufmax;
        s.(k := k.(free := k.free - 1), io := io.(lengths := io.lengths[io.writePtr := sectors * 2048]),
           t := t.(pc := Merge, claimed := 1, sectorsTotal := sectors))
      else
        s.(t := t.(pc := if t.failed then Failing else Sleep))
    case TMerge =>
      var next := io.writePtr + t.claimed;
      var left := io.remaining - t.sectorsTotal;
      if next < io.nbufs && left > 0 && k.free > 0 then
        var sectors := if left < io.bufmax then left else io.bufmax;
        s.(k := k.(free := k.free - 1), io := io.(lengths := io.lengths[next := sectors * 2048]),
           t := t.(claimed := t.claimed + 1, sectorsTotal := t.sectorsTotal + sectors))
      else
        s.(t := t.(pc := Transfer))
    case TRead =>
      var data := h.image[Cursor(s)..Cursor(s) + 2048 * t.sectorsTotal];
      s.(io := io.(banks := StoreAcross(io.banks, io.writePtr, data)), t := t.(pc := Advance, failed := false),
         h := h.(read := h.read + Cut(data, io.lengths[io.writePtr..io.writePtr + t.claimed]),
                 shifts := h.shifts + Repeat(h.skipped, |data|)))
    case TRetry => s
    case TFail(moved) =>
      s.(t := t.(pc := Take, claimed := 0, sectorsTotal := 0, failed := true),
         h := h.(skipped := h.skipped + moved, lost := h.lost + t.claimed))
    case TError => s.(io := io.(error := true), t := t.(pc := Exited))
    case TAdvance =>
      s.(io := io.(writePtr := Slot(io.writePtr, t.claimed, io.nbufs)),
         t := t.(pc := Give, claimed := 0, toGive := t.claimed))
    case TGive =>
      if t.toGive > 0 then s.(k := k.(filled := k.filled + 1), t := t.(toGive := t.toGive - 1))
      else s.(io := io.(remaining := io.remaining - t.sectorsTotal), t := t.(pc := Take, sectorsTotal := 0))
    case TAck => s.(k := k.(ack := k.ack + 1), t := t.(pc := Exited))
  }

  /** The state a schedule leads to; `Stuck` when some step of it was not possible. */
  datatype Outcome = Stuck | Reached(s: Ring)

  function Run(s: Ring, schedule: seq<Action>): Outcome
    decreases |schedule|
  {
    if |schedule| == 0 then Reached(s)
    else if Enabled(s, schedule[0]) then Run(Step(s, schedule[0]), schedule[1..])
    else Stuck
  }

  // ---------------------------------------------------------------- the invariant

  predicate Shape(s: Ring) {
    && InitOk(s.io.nbufs, s.io.bufmax, s.io.banks, s.io.lengths)
    && s.io.readPtr < s.io.nbufs && s.io.writePtr < s.io.nbufs && s.c.bank < s.io.nbufs
    && s.h.taken <= |s.h.read|
  }

  predicate Ending(s: Ring) {
    s.c.pc.EndCommand? || s.c.pc.EndWake? || s.c.pc.WaitAck? || s.c.pc.Done?
  }

  predicate Claiming(s: Ring) {
    s.t.pc.Merge? || s.t.pc.Transfer?
  }

  /** Each bank token is in exactly one place, or lost; when none is left the thread is about to report it. */
  predicate Tokens(s: Ring) {
    && s.k.free + s.k.filled + s.t.claimed + s.t.toGive + (if s.c.holding then 1 else 0) + s.h.lost == s.io.nbufs
    && (s.t.claimed > 0 <==> Claiming(s) || s.t.pc.Advance?)
    && (s.h.lost == s.io.nbufs ==> s.t.failed)
    && (s.t.failed ==> s.t.pc.Take? || Claiming(s) || s.t.pc.Failing? || s.io.error)
    && (s.t.pc.Failing? || s.io.error ==> s.t.failed)
    && (s.t.toGive > 0 ==> s.t.pc.Give?)
    && (s.c.pc.Hold? || s.c.pc.GiveBack? ==> s.c.holding)
    && (s.c.holding ==> s.c.pc.Hold? || s.c.pc.GiveBack? || Ending(s))
    && s.io.writePtr + s.t.claimed <= s.io.nbufs
    && (s.io.error ==> s.t.pc.Exited?)
  }

  /** Blocks that are in memory and not yet taken. */
  function Ready(s: Ring): seq<seq<Byte>>
    requires s.h.taken <= |s.h.read|
  {
    s.h.read[s.h.taken..]
  }

  /** Blocks IOReadNext has handed out, oldest first. */
  function Taken(s: Ring): seq<seq<Byte>>
    requires s.h.taken <= |s.h.read|
  {
    s.h.read[..s.h.taken]
  }

  /** The blocks read and not yet taken sit in ring order from the read pointer on, up to the write pointer. */
  predicate Queue(s: Ring)
    requires Shape(s)
  {
    && |Ready(s)| == s.k.filled + s.t.toGive + (if s.t.pc.Advance? then s.t.claimed else 0)
    && |Ready(s)| <= s.io.nbufs
    && (if s.t.pc.Advance? then Slot(s.io.writePtr, s.t.claimed, s.io.nbufs) else s.io.writePtr)
       == Slot(s.io.readPtr, |Ready(s)|, s.io.nbufs)
    && Holding(s.io.banks, s.io.lengths, s.io.readPtr, Ready(s))
  }

  /** While ReadGame holds a bank that bank keeps the block it took, and lies just before the read pointer. */
  predicate Held(s: Ring)
    requires Shape(s)
  {
    s.c.pc.Hold? ==>
      && s.io.readPtr == Slot(s.c.bank, 1, s.io.nbufs)
      && s.h.taken > 0 && s.c.length == |s.h.read[s.h.taken - 1]| && s.c.sent <= s.c.length
      && Holds(s.io.banks, s.io.lengths, s.c.bank, s.h.read[s.h.taken - 1])
  }

  function SumLengths(lengths: seq<nat>): nat {
    if |lengths| == 0 then 0 else lengths[0] + SumLengths(lengths[1..])
  }

  /** Lengths in whole sectors, every one but the last that of a full bank. */
  predicate AllButLastFull(lengths: seq<nat>, size: nat) {
    && (forall i :: 0 <= i < |lengths| ==> 0 < lengths[i] <= size && 2048 * (lengths[i] / 2048) == lengths[i])
    && forall i :: 0 <= i < |lengths| - 1 ==> lengths[i] == size
  }

  function Lengths(blocks: seq<seq<Byte>>): (r: seq<nat>)
    ensures |r| == |blocks|
  {
    seq(|blocks|, i requires 0 <= i < |blocks| => |blocks[i]|)
  }

  /** The lengths noted for the claimed banks. */
  function Claimed(s: Ring): seq<nat>
    requires s.io.writePtr + s.t.claimed <= |s.io.lengths|
  {
    s.io.lengths[s.io.writePtr..s.io.writePtr + s.t.claimed]
  }

  /** All claimed banks are to be filled, except that the end of the game may cut the last. */
  predicate Plan(s: Ring)
    requires Shape(s)
  {
    && (Claiming(s) ==>
          && 0 < s.t.claimed && s.io.writePtr + s.t.claimed <= s.io.nbufs
          && SumLengths(Claimed(s)) == 2048 * s.t.sectorsTotal
          && AllButLastFull(Claimed(s), BankBytes(s))
          && s.t.sectorsTotal <= s.io.remaining
          && (s.t.sectorsTotal < s.io.remaining ==> Claimed(s)[s.t.claimed - 1] == BankBytes(s)))
    && (s.t.pc.Take? || s.t.pc.Sleep? || s.t.pc.Dispatch? || s.t.pc.Ack? || s.t.pc.Failing? ==> s.t.sectorsTotal == 0)
    && s.t.sectorsTotal <= s.io.remaining
    && (s.t.failed ==> 0 < s.io.remaining)
  }

  /** Sectors the transfers so far have brought in. */
  function SectorsRead(s: Ring): int {
    s.h.sectors - s.io.remaining + (if s.t.pc.Advance? || s.t.pc.Give? then s.t.sectorsTotal else 0)
  }

  /** What has been read are bytes of the file, in order, each as far behind its place as was passed over before it. */
  predicate Contents(s: Ring)
    requires Shape(s)
  {
    && s.io.remaining <= s.h.sectors
    && Position(s) == 2048 * SectorsRead(s) && SectorsRead(s) <= s.h.sectors && Cursor(s) <= |s.h.image|
    && Shifted(Flatten(s.h.read), s.h.image, s.h.shifts) && |s.h.shifts| == Position(s)
    && Growing(s.h.shifts, s.h.skipped)
    && (!s.t.failed && 0 < Position(s) ==> s.h.shifts[Position(s) - 1] == s.h.skipped)
  }

  /** `data` are bytes of `image` that lie behind their own places by `shifts`. */
  predicate Shifted(data: seq<Byte>, image: seq<Byte>, shifts: seq<nat>) {
    && |data| <= |shifts|
    && forall p :: 0 <= p < |data| ==> p + shifts[p] < |image| && data[p] == image[p + shifts[p]]
  }

  predicate Growing(shifts: seq<nat>, last: nat) {
    && (forall p :: 0 <= p < |shifts| ==> shifts[p] <= last)
    && forall p, q :: 0 <= p < q < |shifts| ==> shifts[p] <= shifts[q]
  }

  predicate Sizes(s: Ring)
    requires Shape(s)
  {
    && AllButLastFull(Lengths(s.h.read), BankBytes(s))
    && (SectorsRead(s) < s.h.sectors && |s.h.read| > 0 ==> |s.h.read[|s.h.read| - 1]| == BankBytes(s))
  }

  /** What ReadGame has sent, and how many sectors it still has to send. */
  predicate Sent(s: Ring)
    requires Shape(s)
  {
    && s.c.remaining <= s.h.sectors
    && (s.c.pc.Hold? ==>
          && s.h.taken > 0 && s.c.sent <= |s.h.read[s.h.taken - 1]| && 0 < s.c.remaining
          && s.h.output == Flatten(s.h.read[..s.h.taken - 1]) + s.h.read[s.h.taken - 1][..s.c.sent]
          && |Flatten(s.h.read[..s.h.taken - 1])| == 2048 * (s.h.sectors - s.c.remaining))
    && (s.c.pc.Loop? || s.c.pc.GiveBack? || s.c.pc.SetCommand? || s.c.pc.Wake? ==>
          && s.h.output == Flatten(Taken(s))
          && |Flatten(Taken(s))| == 2048 * (s.h.sectors - s.c.remaining))
    && (Ending(s) && s.c.result == 0 ==> s.h.output == Flatten(Taken(s)) && |s.h.output| == 2048 * s.h.sectors)
    && (Ending(s) ==> s.h.output <= Flatten(Taken(s)))
    && (!Ending(s) ==> s.c.result == 0)
  }

  predicate Control(s: Ring) {
    && (s.c.pc.EndWake? || s.c.pc.WaitAck? || s.c.pc.Done? <==> s.io.command.CmdReadEnd?)
    && (s.t.pc.Ack? || (s.t.pc.Exited? && !s.io.error) ==> s.io.command.CmdReadEnd?)
    && s.k.ack <= 1
    && (s.k.ack == 1 || s.c.pc.Done? ==> s.t.pc.Exited? && !s.io.error)
    && (s.t.pc.Exited? && !s.io.error ==> s.k.ack == 1 || s.c.pc.Done?)
  }

  /** No wake-up is lost. */
  predicate WakeupsSuffice(s: Ring) {
    && (s.t.pc.Sleep? && s.io.remaining > 0 && s.k.free > 0 ==>
          s.k.wakeups > 0 || s.c.pc.SetCommand? || s.c.pc.Wake? || Ending(s))
    && (s.c.pc.WaitAck? && !s.t.pc.Dispatch? && !s.t.pc.Ack? && !s.t.pc.Exited? ==> s.k.wakeups > 0)
  }

  /** What the steps of both threads keep, whoever puts which command when. */
  predicate Core(s: Ring) {
    Shape(s) && Tokens(s) && Queue(s) && Held(s) && Plan(s) && Contents(s) && Sizes(s) && Sent(s)
  }

  predicate Inv(s: Ring) {
    Core(s) && Control(s) && WakeupsSuffice(s)
  }

  // ---------------------------------------------------------------- preservation

  lemma InitInv(nbufs: nat, bufmax: nat, banks: seq<seq<Byte>>, lengths: seq<nat>, sectors: nat, image: seq<Byte>)
    requires InitOk(nbufs, bufmax, banks, lengths)
    ensures Inv(Init(nbufs, bufmax, banks, lengths, sectors, image))
  {
  }

  predicate ByThread(a: Action) {
    a.TWake? || a.TDispatch? || a.TTake? || a.TMerge? || a.TRead? || a.TRetry? || a.TFail? || a.TError?
    || a.TAdvance? || a.TGive? || a.TAck?
  }

  lemma SumPositive(lengths: seq<nat>)
    requires |lengths| > 0 && lengths[0] > 0
    ensures SumLengths(lengths) > 0
  {
  }

  /** Cutting loses nothing. */
  lemma {:induction false} CutFlattens(data: seq<Byte>, plan: seq<nat>)
    requires SumLengths(plan) == |data|
    ensures Flatten(Cut(data, plan)) == data
  {
    if |plan| > 0 {
      CutFlattens(data[plan[0]..], plan[1..]);
      assert Cut(data, plan)[1..] == Cut(data[plan[0]..], plan[1..]);
      assert data == data[..plan[0]] + data[plan[0]..];
    }
  }

  /** The bank that takes piece `i`. */
  predicate Stored(banks: seq<seq<Byte>>, at: nat, pieces: seq<seq<Byte>>, plan: seq<nat>, size: nat)
    requires at + |plan| <= |banks| && |pieces| == |plan|
  {
    forall i :: 0 <= i < |plan| ==>
      |pieces[i]| == plan[i] <= size && plan[i] <= |banks[at + i]| && banks[at + i][..plan[i]] == pieces[i]
  }

  lemma StoredCons(banks: seq<seq<Byte>>, at: nat, pieces: seq<seq<Byte>>, plan: seq<nat>, size: nat)
    requires |plan| > 0 && at + |plan| <= |banks| && |pieces| == |plan|
    requires |pieces[0]| == plan[0] <= size && plan[0] <= |banks[at]| && banks[at][..plan[0]] == pieces[0]
    requires Stored(banks, at + 1, pieces[1..], plan[1..], size)
    ensures Stored(banks, at, pieces, plan, size)
  {
    forall i | 0 <= i < |plan|
      ensures |pieces[i]| == plan[i] <= size && plan[i] <= |banks[at + i]| && banks[at + i][..plan[i]] == pieces[i]
    {
      if i > 0 {
        assert plan[1..][i - 1] == plan[i] && pieces[1..][i - 1] == pieces[i];
        assert banks[at + 1 + (i - 1)][..plan[i]] == pieces[i];
      }
    }
  }

  lemma PlanTail(plan: seq<nat>, size: nat)
    requires |plan| > 1 && AllButLastFull(plan, size)
    ensures plan[0] == size && AllButLastFull(plan[1..], size)
    ensures SumLengths(plan) == size + SumLengths(plan[1..]) && SumLengths(plan[1..]) > 0
  {
    assert plan[1..][0] == plan[1];
    SumPositive(plan[1..]);
  }

  lemma StoreOne(banks: seq<seq<Byte>>, at: nat, data: seq<Byte>, plan: seq<nat>, size: nat)
    requires at < |banks| && |banks[at]| == size
    requires |plan| == 1 && SumLengths(plan) == |data| && AllButLastFull(plan, size)
    ensures forall k :: 0 <= k < |banks| && k != at ==> StoreAcross(banks, at, data)[k] == banks[k]
    ensures Cut(data, plan) == [data] && Stored(StoreAcross(banks, at, data), at, [data], plan, size)
  {
    assert SumLengths(plan[1..]) == 0;
    assert data[..plan[0]] == data;
  }

  lemma StoreMore(banks: seq<seq<Byte>>, at: nat, data: seq<Byte>, plan: seq<nat>)
    requires at < |banks| && |plan| > 0 && |banks[at]| == plan[0] < |data|
    ensures StoreAcross(banks, at, data) == StoreAcross(banks[at := data[..plan[0]]], at + 1, data[plan[0]..])
    ensures Cut(data, plan) == [data[..plan[0]]] + Cut(data[plan[0]..], plan[1..])
  {
  }

  /** One read into consecutive banks, all to be filled but the last, puts each piece of the data into its bank. */
  lemma {:induction false} StoreAcrossPieces(banks: seq<seq<Byte>>, at: nat, data: seq<Byte>, plan: seq<nat>, size: nat)
    requires |plan| > 0 && at + |plan| <= |banks|
    requires forall k :: 0 <= k < |banks| ==> |banks[k]| == size
    requires SumLengths(plan) == |data| && AllButLastFull(plan, size)
    ensures forall k :: 0 <= k < |banks| && (k < at || at + |plan| <= k) ==> StoreAcross(banks, at, data)[k] == banks[k]
    ensures Stored(StoreAcross(banks, at, data), at, Cut(data, plan), plan, size)
    decreases |plan|
  {
    hide Stored, StoreAcross, Cut, SumLengths, AllButLastFull;
    if |plan| == 1 {
      StoreOne(banks, at, data, plan, size);
    } else {
      PlanTail(plan, size);
      StoreMore(banks, at, data, plan);
      StoreAcrossPieces(banks[at := data[..size]], at + 1, data[size..], plan[1..], size);
      assert StoreAcross(banks, at, data)[at] == data[..size];
      assert Cut(data, plan)[1..] == Cut(data[size..], plan[1..]);
      StoredCons(StoreAcross(banks, at, data), at, Cut(data, plan), plan, size);
    }
  }

  /** The data of the transfer about to be made, and the blocks it is to be cut into. */
  function Data(s: Ring): seq<Byte>
    requires Enabled(s, TRead)
  {
    s.h.image[Cursor(s)..Cursor(s) + 2048 * s.t.sectorsTotal]
  }

  lemma ReadPieces(s: Ring)
    requires Core(s) && Enabled(s, TRead)
    ensures var t, blocks := Step(s, TRead), Cut(Data(s), Claimed(s));
            && t.h.read == s.h.read + blocks && |blocks| == s.t.claimed
            && |t.io.banks| == s.io.nbufs && t.io.lengths == s.io.lengths
            && (forall k :: 0 <= k < s.io.nbufs ==> |t.io.banks[k]| == BankBytes(s))
            && (forall k :: 0 <= k < s.io.nbufs && (k < s.io.writePtr || s.io.writePtr + s.t.claimed <= k) ==>
                  t.io.banks[k] == s.io.banks[k])
            && (forall i :: 0 <= i < s.t.claimed ==>
                  Holds(t.io.banks, t.io.lengths, s.io.writePtr + i, blocks[i]))
            && Lengths(blocks) == Claimed(s)
            && Flatten(blocks) == Data(s)
  {
    hide Queue, Held, Sizes, Sent, Control, WakeupsSuffice, Flatten, StoreAcross, SumLengths, AllButLastFull, Cut;
    assert |Data(s)| == 2048 * s.t.sectorsTotal;
    StoreAcrossPieces(s.io.banks, s.io.writePtr, Data(s), Claimed(s), BankBytes(s));
    CutFlattens(Data(s), Claimed(s));
    var t, blocks := Step(s, TRead), Cut(Data(s), Claimed(s));
    assert t.io.banks == StoreAcross(s.io.banks, s.io.writePtr, Data(s));
    forall i | 0 <= i < s.t.claimed ensures Holds(t.io.banks, t.io.lengths, s.io.writePtr + i, blocks[i]) {
      assert Claimed(s)[i] == s.io.lengths[s.io.writePtr + i];
    }
  }

  lemma ShapeStep(s: Ring, a: Action)
    requires Core(s) && Enabled(s, a)
    ensures Shape(Step(s, a))
  {
    hide Sizes, Sent, Held, Control, WakeupsSuffice, Flatten, Holding, AllButLastFull, SumLengths, Cut, StoreAcross;
    if a.TRead? {
      ReadPieces(s);
    }
  }

  lemma TokensThread(s: Ring, a: Action)
    requires Core(s) && Enabled(s, a) && ByThread(a)
    ensures Tokens(Step(s, a))
  {
    hide Sizes, Sent, Contents, Held, Queue, WakeupsSuffice, Control, Flatten, AllButLastFull, SumLengths, Cut,
         StoreAcross;
  }

  lemma TokensConsumer(s: Ring, a: Action)
    requires Core(s) && Enabled(s, a) && !ByThread(a)
    ensures Tokens(Step(s, a))
  {
    hide Sizes, Sent, Contents, Held, Plan, Queue, WakeupsSuffice, Control, Flatten;
  }

  lemma TokensStep(s: Ring, a: Action)
    requires Core(s) && Enabled(s, a)
    ensures Tokens(Step(s, a))
  {
    hide *;
    if ByThread(a) {
      TokensThread(s, a);
    } else {
      TokensConsumer(s, a);
    }
  }

  lemma ControlStep(s: Ring, a: Action)
    requires Inv(s) && Enabled(s, a)
    ensures Control(Step(s, a)) && WakeupsSuffice(Step(s, a))
  {
    hide Sizes, Sent, Contents, Held, Queue, Plan, Flatten, AllButLastFull, SumLengths, Cut, StoreAcross;
  }

  // The queue of blocks in memory, step by step.

  /** Blocks put in the banks behind the queue, without touching those of the queue, join the queue. */
  lemma HoldingConcat(banks: seq<seq<Byte>>, banks': seq<seq<Byte>>, lengths: seq<nat>, base: nat, end: nat,
                      blocks: seq<seq<Byte>>, more: seq<seq<Byte>>)
    requires Holding(banks, lengths, base, blocks) && |banks'| == |banks|
    requires |blocks| + |more| <= |banks| && end == Slot(base, |blocks|, |banks|) && end + |more| <= |banks|
    requires forall k :: 0 <= k < |banks| && (k < end || end + |more| <= k) ==> banks'[k] == banks[k]
    requires forall i :: 0 <= i < |more| ==> Holds(banks', lengths, end + i, more[i])
    ensures Holding(banks', lengths, base, blocks + more)
  {
    var joined := blocks + more;
    forall i | 0 <= i < |joined| ensures Holds(banks', lengths, Slot(base, i, |banks|), joined[i]) {
      if i < |blocks| {
        assert Holds(banks, lengths, Slot(base, i, |banks|), blocks[i]);
      } else {
        assert Holds(banks', lengths, end + (i - |blocks|), more[i - |blocks|]);
      }
    }
  }

  /** Noting a length for a bank outside the queue leaves the queue as it is. */
  lemma HoldingOtherLength(banks: seq<seq<Byte>>, lengths: seq<nat>, base: nat, blocks: seq<seq<Byte>>, k: nat,
                           length: nat)
    requires Holding(banks, lengths, base, blocks)
    requires k < |banks| && forall i :: 0 <= i < |blocks| ==> Slot(base, i, |banks|) != k
    ensures Holding(banks, lengths[k := length], base, blocks)
  {
    forall i | 0 <= i < |blocks| ensures Holds(banks, lengths[k := length], Slot(base, i, |banks|), blocks[i]) {
      assert Holds(banks, lengths, Slot(base, i, |banks|), blocks[i]);
    }
  }

  lemma QueueTake(s: Ring)
    requires Core(s) && Enabled(s, CTake) && Shape(Step(s, CTake))
    ensures Queue(Step(s, CTake)) && Held(Step(s, CTake))
  {
    hide Sizes, Sent, Contents, Plan, Control, WakeupsSuffice, Flatten, Holds;
    HoldingDrop(s.io.banks, s.io.lengths, s.io.readPtr, Ready(s), 1);
    assert Ready(Step(s, CTake)) == Ready(s)[1..];
    assert Holds(s.io.banks, s.io.lengths, Slot(s.io.readPtr, 0, s.io.nbufs), Ready(s)[0]);
    assert s.io.lengths[s.io.readPtr] == |Ready(s)[0]| by { HoldsLength(s, s.io.readPtr, Ready(s)[0]); }
  }

  lemma HoldsLength(s: Ring, k: nat, block: seq<Byte>)
    requires |s.io.banks| == |s.io.lengths| && k < |s.io.banks| && Holds(s.io.banks, s.io.lengths, k, block)
    ensures s.io.lengths[k] == |block|
  {
  }

  lemma QueueClaim(s: Ring, a: Action)
    requires Core(s) && Enabled(s, a) && Shape(Step(s, a)) && (a.TTake? || a.TMerge?)
    ensures Queue(Step(s, a)) && Held(Step(s, a))
  {
    hide Sizes, Sent, Contents, Plan, Control, WakeupsSuffice, Flatten, Holding;
    var t := Step(s, a);
    assert Ready(t) == Ready(s);
    if t.k.free < s.k.free {
      var k := s.io.writePtr + s.t.claimed;
      HoldingOtherLength(s.io.banks, s.io.lengths, s.io.readPtr, Ready(s), k, t.io.lengths[k]);
    }
  }

  lemma QueueRead(s: Ring)
    requires Core(s) && Enabled(s, TRead) && Shape(Step(s, TRead))
    ensures Queue(Step(s, TRead)) && Held(Step(s, TRead))
  {
    hide Sizes, Sent, Contents, Plan, Control, WakeupsSuffice, Flatten, Holding, Cut, StoreAcross, SumLengths,
         AllButLastFull;
    ReadPieces(s);
    var t, blocks := Step(s, TRead), Cut(Data(s), Claimed(s));
    assert Ready(t) == Ready(s) + blocks;
    HoldingConcat(s.io.banks, t.io.banks, s.io.lengths, s.io.readPtr, s.io.writePtr, Ready(s), blocks);
  }

  lemma QueueRest(s: Ring, a: Action)
    requires Core(s) && Enabled(s, a) && Shape(Step(s, a)) && !a.CTake? && !a.TTake? && !a.TMerge? && !a.TRead?
    ensures Queue(Step(s, a)) && Held(Step(s, a))
  {
    hide Sizes, Sent, Contents, Plan, Control, WakeupsSuffice, Flatten, Holding, Holds;
    assert Ready(Step(s, a)) == Ready(s);
  }

  lemma QueueStep(s: Ring, a: Action)
    requires Core(s) && Enabled(s, a) && Shape(Step(s, a))
    ensures Queue(Step(s, a)) && Held(Step(s, a))
  {
    hide *;
    if a.CTake? {
      QueueTake(s);
    } else if a.TTake? || a.TMerge? {
      QueueClaim(s, a);
    } else if a.TRead? {
      QueueRead(s);
    } else {
      QueueRest(s, a);
    }
  }

  // What the claimed banks are to hold.

  lemma {:induction false} SumSnoc(lengths: seq<nat>, x: nat)
    ensures SumLengths(lengths + [x]) == SumLengths(lengths) + x
  {
    if |lengths| > 0 {
      assert (lengths + [x])[1..] == lengths[1..] + [x];
      SumSnoc(lengths[1..], x);
    }
  }

  lemma OneMoreLength(lengths: seq<nat>, at: nat, n: nat, x: nat)
    requires at + n < |lengths|
    ensures lengths[at + n := x][at..at + n + 1] == lengths[at..at + n] + [x]
  {
  }

  lemma SumNone()
    ensures SumLengths([]) == 0
  {
  }

  lemma PlanTake(s: Ring)
    requires Core(s) && Enabled(s, TTake) && Shape(Step(s, TTake))
    ensures Plan(Step(s, TTake))
  {
    hide Sizes, Sent, Contents, Queue, Held, Control, WakeupsSuffice, Flatten, SumLengths;
    var t := Step(s, TTake);
    if t.k.free < s.k.free {
      var last := t.io.lengths[s.io.writePtr];
      OneMoreLength(s.io.lengths, s.io.writePtr, 0, last);
      SumSnoc([], last);
      SumNone();
      assert Claimed(t) == [last];
    }
  }

  lemma PlanMerge(s: Ring)
    requires Core(s) && Enabled(s, TMerge) && Shape(Step(s, TMerge))
    ensures Plan(Step(s, TMerge))
  {
    hide Sizes, Sent, Contents, Queue, Held, Control, WakeupsSuffice, Flatten, SumLengths;
    var t := Step(s, TMerge);
    if t.k.free < s.k.free {
      var last := t.io.lengths[s.io.writePtr + s.t.claimed];
      OneMoreLength(s.io.lengths, s.io.writePtr, s.t.claimed, last);
      SumSnoc(Claimed(s), last);
    }
  }

  lemma PlanStep(s: Ring, a: Action)
    requires Core(s) && Enabled(s, a) && Shape(Step(s, a))
    ensures Plan(Step(s, a))
  {
    hide *;
    if a.TTake? {
      PlanTake(s);
    } else if a.TMerge? {
      PlanMerge(s);
    } else {
      PlanRest(s, a);
    }
  }

  lemma PlanRest(s: Ring, a: Action)
    requires Core(s) && Enabled(s, a) && Shape(Step(s, a)) && !a.TTake? && !a.TMerge?
    ensures Plan(Step(s, a))
  {
    hide Sizes, Sent, Contents, Queue, Held, Control, WakeupsSuffice, Flatten, SumLengths, AllButLastFull, Cut,
         StoreAcross;
    if Claiming(Step(s, a)) {
      assert Claimed(Step(s, a)) == Claimed(s);
    }
  }

  // What has been read and sent.

  lemma AllButLastFullConcat(a: seq<nat>, b: seq<nat>, size: nat)
    requires AllButLastFull(a, size) && AllButLastFull(b, size)
    requires |a| > 0 ==> a[|a| - 1] == size
    ensures AllButLastFull(a + b, size)
  {
  }

  lemma TransferIsNotEmpty(s: Ring)
    requires Shape(s) && Plan(s) && Claiming(s)
    ensures s.t.sectorsTotal > 0
  {
    hide SumLengths;
    SumPositive(Claimed(s));
  }

  lemma ContentsRead(s: Ring)
    requires Core(s) && Enabled(s, TRead) && Shape(Step(s, TRead))
    ensures Contents(Step(s, TRead)) && Sizes(Step(s, TRead))
  {
    hide Sent, Queue, Held, Control, WakeupsSuffice, Flatten, SumLengths, AllButLastFull, Cut, StoreAcross;
    ReadPieces(s);
    var t, blocks := Step(s, TRead), Cut(Data(s), Claimed(s));
    FlattenConcat(s.h.read, blocks);
    TransferIsNotEmpty(s);
    assert Lengths(t.h.read) == Lengths(s.h.read) + Lengths(blocks);
    AllButLastFullConcat(Lengths(s.h.read), Lengths(blocks), BankBytes(s));
    assert t.h.read[|t.h.read| - 1] == blocks[s.t.claimed - 1];
    assert Lengths(blocks)[s.t.claimed - 1] == |blocks[s.t.claimed - 1]|;
    ShiftedMore(Flatten(s.h.read), s.h.image, s.h.shifts, s.h.skipped, Data(s));
  }

  /** Bytes read from a place further on. */
  lemma ShiftedMore(data: seq<Byte>, image: seq<Byte>, shifts: seq<nat>, shift: nat, more: seq<Byte>)
    requires Shifted(data, image, shifts) && |shifts| == |data| && Growing(shifts, shift)
    requires |data| + shift + |more| <= |image| && more == image[|data| + shift..|data| + shift + |more|]
    ensures Shifted(data + more, image, shifts + Repeat(shift, |more|))
    ensures Growing(shifts + Repeat(shift, |more|), shift)
  {
  }

  lemma ShiftedPrefix(data: seq<Byte>, image: seq<Byte>, shifts: seq<nat>, part: seq<Byte>)
    requires Shifted(data, image, shifts) && part <= data
    ensures Shifted(part, image, shifts)
  {
  }

  lemma NotShifted(data: seq<Byte>, image: seq<Byte>, shifts: seq<nat>)
    requires Shifted(data, image, shifts) && Growing(shifts, 0)
    ensures data <= image
  {
    if |data| > 0 {
      assert |data| - 1 + shifts[|data| - 1] < |image|;
    }
    assert data == image[..|data|];
  }

  lemma ContentsStep(s: Ring, a: Action)
    requires Core(s) && Enabled(s, a) && Shape(Step(s, a))
    ensures Contents(Step(s, a)) && Sizes(Step(s, a))
  {
    hide *;
    if a.TRead? {
      ContentsRead(s);
    } else {
      ContentsRest(s, a);
    }
  }

  lemma ContentsRest(s: Ring, a: Action)
    requires Core(s) && Enabled(s, a) && Shape(Step(s, a)) && !a.TRead?
    ensures Contents(Step(s, a)) && Sizes(Step(s, a))
  {
    hide Shifted, Sent, Queue, Held, Control, WakeupsSuffice, Flatten, SumLengths, AllButLastFull, Cut, StoreAcross;
    assert Step(s, a).h.read == s.h.read;
  }

  lemma TakenSnoc(s: Ring)
    requires Shape(s) && s.h.taken > 0
    ensures Flatten(Taken(s)) == Flatten(s.h.read[..s.h.taken - 1]) + s.h.read[s.h.taken - 1]
  {
    assert Taken(s) == s.h.read[..s.h.taken - 1] + [s.h.read[s.h.taken - 1]];
    FlattenSnoc(s.h.read[..s.h.taken - 1], s.h.read[s.h.taken - 1]);
  }

  lemma TakenIsPrefix(s: Ring)
    requires Shape(s)
    ensures Flatten(Taken(s)) + Flatten(Ready(s)) == Flatten(s.h.read)
  {
    assert Taken(s) + Ready(s) == s.h.read;
    FlattenConcat(Taken(s), Ready(s));
  }

  lemma SentTake(s: Ring)
    requires Core(s) && Enabled(s, CTake) && Shape(Step(s, CTake))
    ensures Sent(Step(s, CTake))
  {
    hide Sizes, Contents, Queue, Held, Control, WakeupsSuffice, Plan, Flatten;
    var t := Step(s, CTake);
    assert t.h.read[..t.h.taken - 1] == Taken(s);
    assert t.h.output == s.h.output + t.h.read[t.h.taken - 1][..0];
  }

  lemma SendExtends(bank: seq<Byte>, block: seq<Byte>, before: seq<Byte>, sent: nat, count: nat)
    requires sent + count <= |block| <= |bank| && bank[..|block|] == block
    ensures before + block[..sent] + bank[sent..sent + count] == before + block[..sent + count]
  {
    Subslice(bank, 0, |block|, sent, count);
    assert block[..sent + count] == block[..sent] + block[sent..sent + count];
  }

  lemma SentSend(s: Ring, count: nat)
    requires Core(s) && Enabled(s, CSend(count)) && Shape(Step(s, CSend(count)))
    ensures Sent(Step(s, CSend(count)))
  {
    hide Sizes, Contents, Queue, Control, WakeupsSuffice, Plan, Flatten;
    var block, bank := s.h.read[s.h.taken - 1], s.io.banks[s.c.bank];
    SendExtends(bank, block, Flatten(s.h.read[..s.h.taken - 1]), s.c.sent, count);
  }

  lemma BlockSectors(s: Ring)
    requires Core(s) && s.c.pc.Hold?
    ensures 2048 * (s.c.length / 2048) == s.c.length && s.c.length / 2048 <= s.c.remaining && 0 < s.c.length
  {
    hide Queue, Control, WakeupsSuffice, Plan, Flatten;
    TakenSnoc(s);
    TakenIsPrefix(s);
    assert Lengths(s.h.read)[s.h.taken - 1] == s.c.length;
  }

  lemma SentFinish(s: Ring)
    requires Core(s) && Enabled(s, CFinish) && Shape(Step(s, CFinish))
    ensures Sent(Step(s, CFinish))
  {
    hide Sizes, Contents, Queue, Control, WakeupsSuffice, Plan, Flatten, Holds;
    BlockSectors(s);
    TakenSnoc(s);
    var block := s.h.read[s.h.taken - 1];
    assert block[..s.c.sent] == block;
  }

  lemma SentThread(s: Ring, a: Action)
    requires Core(s) && Enabled(s, a) && Shape(Step(s, a)) && ByThread(a)
    ensures Sent(Step(s, a))
  {
    hide Sizes, Contents, Queue, Held, Control, WakeupsSuffice, Plan, Tokens, Flatten, Cut, StoreAcross;
    var t := Step(s, a);
    assert t.c == s.c && t.h.output == s.h.output && Taken(t) == Taken(s);
    if s.h.taken > 0 {
      assert t.h.read[..t.h.taken - 1] == s.h.read[..s.h.taken - 1];
    }
  }

  lemma SentRest(s: Ring, a: Action)
    requires Core(s) && Enabled(s, a) && Shape(Step(s, a)) && !ByThread(a) && !a.CTake? && !a.CSend? && !a.CFinish?
    ensures Sent(Step(s, a))
  {
    hide Sizes, Contents, Queue, Held, Control, WakeupsSuffice, Plan, Tokens, Flatten;
    assert Step(s, a).h == s.h;
    if s.h.taken > 0 {
      TakenSnoc(s);
    }
  }

  lemma SentStep(s: Ring, a: Action)
    requires Core(s) && Enabled(s, a) && Shape(Step(s, a))
    ensures Sent(Step(s, a))
  {
    hide *;
    match a
    case CTake => SentTake(s);
    case CSend(count) => SentSend(s, count);
    case CFinish => SentFinish(s);
    case _ => if ByThread(a) { SentThread(s, a); } else { SentRest(s, a); }
  }

  /** Every step of either thread keeps the invariant. */
  lemma StepInv(s: Ring, a: Action)
    requires Inv(s) && Enabled(s, a)
    ensures Inv(Step(s, a))
  {
    hide Core, Control, WakeupsSuffice, Step, Enabled;
    CoreStep(s, a);
    ControlStep(s, a);
  }

  lemma CoreStep(s: Ring, a: Action)
    requires Core(s) && Enabled(s, a)
    ensures Core(Step(s, a))
  {
    hide Shape, Tokens, Queue, Held, Plan, Contents, Sizes, Sent, Step, Enabled;
    ShapeStep(s, a);
    TokensStep(s, a);
    QueueStep(s, a);
    PlanStep(s, a);
    ContentsStep(s, a);
    SentStep(s, a);
  }

  lemma InvMeansCore(s: Ring)
    requires Inv(s)
    ensures Core(s)
  {
  }

  lemma {:induction false} RunInv(s: Ring, schedule: seq<Action>)
    requires Inv(s) && Run(s, schedule).Reached?
    ensures Inv(Run(s, schedule).s)
    decreases |schedule|
  {
    hide Inv, Step, Enabled;
    if |schedule| > 0 {
      StepInv(s, schedule[0]);
      RunInv(Step(s, schedule[0]), schedule[1..]);
    }
  }

  // ---------------------------------------------------------------- what holds of every run

  /** `t` can be reached from the start of a game read by some interleaving. */
  ghost predicate Reachable(t: Ring) {
    exists nbufs, bufmax, banks, lengths, sectors, image, schedule ::
      InitOk(nbufs, bufmax, banks, lengths)
      && Run(Init(nbufs, bufmax, banks, lengths, sectors, image), schedule) == Reached(t)
  }

  lemma ReachableInv(t: Ring)
    requires Reachable(t)
    ensures Inv(t)
  {
    hide Inv, Step, Enabled;
    var nbufs, bufmax, banks, lengths, sectors, image, schedule :|
      InitOk(nbufs, bufmax, banks, lengths)
      && Run(Init(nbufs, bufmax, banks, lengths, sectors, image), schedule) == Reached(t);
    InitInv(nbufs, bufmax, banks, lengths, sectors, image);
    RunInv(Init(nbufs, bufmax, banks, lengths, sectors, image), schedule);
  }

  /** Tokens are conserved; no semaphore passes its maximum. */
  lemma TokensConserved(t: Ring)
    requires Reachable(t)
    ensures t.k.free + t.k.filled + t.t.claimed + t.t.toGive + (if t.c.holding then 1 else 0) + t.h.lost == t.io.nbufs
    ensures t.k.free <= t.io.nbufs && t.k.filled <= t.io.nbufs && t.k.ack <= 1
  {
    ReachableInv(t);
  }

  /** No transfer touches the bank ReadGame is sending from, nor a bank whose block it has yet to take. */
  lemma NoUnsentBankOverwritten(t: Ring, i: nat)
    requires Reachable(t) && Claiming(t) && i < t.t.claimed
    ensures t.c.pc.Hold? ==> t.c.bank != t.io.writePtr + i
    ensures t.h.taken <= |t.h.read|
    ensures forall j :: 0 <= j < |Ready(t)| ==> Slot(t.io.readPtr, j, t.io.nbufs) != t.io.writePtr + i
  {
    hide Sizes, Sent, Contents, Plan, Control, WakeupsSuffice, Flatten, Holding;
    ReachableInv(t);
  }

  /**
   What has been sent are bytes of the file, in order, each as far behind its place as was passed over before it: a
   first part of the file as long as nothing was. At a good end it has the length asked for, and its last byte lies
   behind its place by all that was skipped.
   */
  lemma SentOfImage(s: Ring)
    requires Inv(s)
    ensures |s.h.output| <= 2048 * s.h.sectors && Shifted(s.h.output, s.h.image, s.h.shifts)
    ensures Growing(s.h.shifts, s.h.skipped) && (s.h.skipped == 0 ==> s.h.output <= s.h.image)
    ensures Ending(s) && s.c.result == 0 ==>
      && |s.h.output| == 2048 * s.h.sectors && |s.h.output| + s.h.skipped <= |s.h.image|
      && (s.h.skipped == 0 ==> s.h.output == s.h.image[..2048 * s.h.sectors])
      && (0 < s.h.sectors ==> s.h.output[|s.h.output| - 1] == s.h.image[|s.h.output| + s.h.skipped - 1])
  {
    hide Queue, Control, WakeupsSuffice, Flatten, AllButLastFull, SumLengths;
    TakenIsPrefix(s);
    if s.h.taken > 0 {
      TakenSnoc(s);
      var block := s.h.read[s.h.taken - 1];
      assert s.c.pc.Hold? ==> block[..s.c.sent] <= block;
    }
    ShiftedPrefix(Flatten(s.h.read), s.h.image, s.h.shifts, s.h.output);
    if s.h.skipped == 0 {
      NotShifted(s.h.output, s.h.image, s.h.shifts);
    }
  }

  /** The blocks IOReadNext hands out are the file cut in order, all but the last of them full banks. */
  lemma BlocksInOrder(t: Ring)
    requires Reachable(t)
    ensures t.h.taken <= |t.h.read| && AllButLastFull(Lengths(t.h.read), BankBytes(t))
    ensures t.h.skipped == 0 ==> Flatten(Taken(t)) <= t.h.image && t.h.output <= t.h.image
    ensures |t.h.output| <= 2048 * t.h.sectors
  {
    hide Queue, Plan, Sent, Control, WakeupsSuffice, Flatten, AllButLastFull;
    ReachableInv(t);
    SentOfImage(t);
    TakenIsPrefix(t);
    if t.h.skipped == 0 {
      NotShifted(Flatten(t.h.read), t.h.image, t.h.shifts);
    }
  }

  /** While ReadGame sends from a bank, that bank holds the block that is next in the file. */
  lemma HeldBlockIsNext(t: Ring)
    requires Reachable(t) && t.c.pc.Hold?
    ensures t.c.bank < |t.io.banks| && t.c.sent <= t.c.length <= |t.io.banks[t.c.bank]|
    ensures t.h.skipped == 0 ==> t.h.output + t.io.banks[t.c.bank][t.c.sent..t.c.length] <= t.h.image
  {
    hide Queue, Plan, Control, WakeupsSuffice, Flatten, AllButLastFull;
    ReachableInv(t);
    BlocksInOrder(t);
    TakenSnoc(t);
    var block := t.h.read[t.h.taken - 1];
    assert block == t.io.banks[t.c.bank][..t.c.length];
    assert block == block[..t.c.sent] + t.io.banks[t.c.bank][t.c.sent..t.c.length];
  }

  /**
   When a game read has ended well exactly the requested sectors have been sent, if no failed transfer has passed over
   anything; and if one has, something else, unless the file has the same byte in both places.
   */
  lemma DoneMeansAllSent(t: Ring)
    requires Reachable(t) && Ending(t) && t.c.result == 0
    ensures |t.h.output| == 2048 * t.h.sectors && |t.h.output| + t.h.skipped <= |t.h.image|
    ensures t.h.skipped == 0 ==> t.h.output == t.h.image[..2048 * t.h.sectors]
    ensures 0 < t.h.sectors && t.h.image[2048 * t.h.sectors - 1] != t.h.image[2048 * t.h.sectors + t.h.skipped - 1] ==>
      t.h.output != t.h.image[..2048 * t.h.sectors]
  {
    hide Inv, Shifted, Growing;
    ReachableInv(t);
    SentOfImage(t);
  }

  /** If sectors remain and the I/O thread sleeps with no wake-up pending, every bank is filled, being sent or lost. */
  lemma NoLostWakeup(t: Ring)
    requires Reachable(t) && t.t.pc.Sleep? && t.io.remaining > 0 && t.k.wakeups == 0
    requires t.c.pc.Loop? || t.c.pc.Hold? || t.c.pc.GiveBack?
    ensures t.k.free == 0
    ensures t.c.pc.Loop? ==> t.k.filled == t.io.nbufs - t.h.lost > 0
  {
    ReachableInv(t);
  }
}
