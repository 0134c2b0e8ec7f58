/**
 The write side of io.c: WriteGame produces banks, IOThread writes them out.
 Every access to shared state (a semaphore operation, the command byte, the
 wake-up count, a disk transfer) is one atomic step, and any step of either
 thread may come next.
 */
module WriteRing {
  import opened Common
  import opened Banks

  datatype Command = CmdNone | CmdWrite | CmdWriteEnd

  /** Where WriteGame, and IOEndWrite after it, stand. */
  datatype ProducerPc =
    | Loop | Fill | Signal | SetCommand | Wake | CheckStatus
    | EndCommand | EndWake | WaitAck | Done

  /** Where IOThread stands; `end` is true while it serves IO_THREAD_CMD_WRITE_END. */
  datatype ThreadPc =
    | Sleep | Dispatch | First(end: bool) | Merge(end: bool) | Transfer(end: bool)
    | Advance(end: bool) | Give(end: bool) | Ack | Exited

  /** struct IOState; `banks` is its buffer, one entry a bank, and `lengths` its bank descriptors. */
  datatype IOState = IOState(
    nbufs: nat, bufmax: nat, banks: seq<seq<Byte>>, lengths: seq<nat>,
    writePtr: nat, readPtr: nat, command: Command, error: bool)

  /** inBufSema, outBufSema, CmdAckSema and the counted wake-ups of the I/O thread. */
  datatype Kernel = Kernel(free: nat, filled: nat, ack: nat, wakeups: nat)

  /** WriteGame's own variables; `holding` says that it has taken a bank it has not handed on. */
  datatype Producer = Producer(pc: ProducerPc, remaining: nat, len: nat, got: nat, result: int, holding: bool)

  /** IOExecWriteNext's own variables. */
  datatype Thread = Thread(pc: ThreadPc, claimed: nat, toWrite: nat, toGive: nat)

  /** What was asked for, received, submitted and written since the start. */
  datatype History = History(
    sectors: nat, received: seq<Byte>, submitted: seq<seq<Byte>>, done: nat, writes: seq<seq<Byte>>)

  datatype Ring = Ring(io: IOState, k: Kernel, p: Producer, t: Thread, h: History)

  function BankBytes(s: Ring): nat {
    2048 * s.io.bufmax
  }

  /** What has been written to the file so far. */
  function File(s: Ring): seq<Byte> {
    Flatten(s.h.writes)
  }

  /** IOWriteInit, as MountOpenGame calls it. */
  function Init(nbufs: nat, bufmax: nat, banks: seq<seq<Byte>>, lengths: seq<nat>, sectors: nat): Ring {
    Ring(IOState(nbufs, bufmax, banks, lengths, 0, 0, CmdNone, false),
         Kernel(nbufs, 0, 0, 0),
         Producer(Loop, sectors, 0, 0, 0, false),
         Thread(Sleep, 0, 0, 0),
         History(sectors, [], [], 0, []))
  }

  predicate InitOk(nbufs: nat, bufmax: nat, banks: seq<seq<Byte>>, lengths: seq<nat>) {
    && 0 < nbufs && 0 < bufmax
    && |banks| == |lengths| == nbufs
    && forall k :: 0 <= k < nbufs ==> |banks[k]| == 2048 * bufmax
  }

  datatype Action =
    // WriteGame
    | Acquire                      // IOGetNextWrBuffer
    | LeaveLoop
    | Receive(data: seq<Byte>)     // one recv of ReceiveData
    | ReceiveFail
    | Submit                       // IOSignalWriteDone: length and write pointer
    | SignalOut | PutCommand | WakeThread
    | Status
    // IOEndWrite
    | PutEndCommand | WakeForEnd | TakeAck
    // IOThread
    | TWake | TDispatch | TFirst | TMerge | TWrite | TRetry | TFail | TAdvance | TGive | TAck

  predicate Enabled(s: Ring, a: Action) {
    match a
    case Acquire => s.p.pc.Loop? && s.p.remaining > 0 && s.k.free > 0
    case LeaveLoop => s.p.pc.Loop? && s.p.remaining == 0
    case Receive(data) =>
      s.p.pc.Fill? && 0 < |data| <= 2048 * s.p.len - s.p.got
      && s.io.writePtr < |s.io.banks| && 2048 * s.p.len <= |s.io.banks[s.io.writePtr]|
    case ReceiveFail => s.p.pc.Fill? && s.p.got < 2048 * s.p.len
    case Submit =>
      s.p.pc.Fill? && s.p.got == 2048 * s.p.len && s.io.nbufs > 0
      && s.io.writePtr < |s.io.banks| == |s.io.lengths| && 2048 * s.p.len <= |s.io.banks[s.io.writePtr]|
    case SignalOut => s.p.pc.Signal?
    case PutCommand => s.p.pc.SetCommand?
    case WakeThread => s.p.pc.Wake?
    case Status => s.p.pc.CheckStatus?
    case PutEndCommand => s.p.pc.EndCommand?
    case WakeForEnd => s.p.pc.EndWake?
    case TakeAck => s.p.pc.WaitAck? && s.k.ack > 0
    case TWake => s.t.pc.Sleep? && s.k.wakeups > 0
    case TDispatch => s.t.pc.Dispatch?
    case TFirst => s.t.pc.First? && s.io.readPtr < |s.io.lengths|
    case TMerge => s.t.pc.Merge? && s.io.readPtr + s.t.claimed <= s.io.nbufs <= |s.io.lengths|
    case TWrite =>
      s.t.pc.Transfer? && s.io.readPtr <= |s.io.banks| && s.t.toWrite <= |Flatten(s.io.banks[s.io.readPtr..])|
    case TRetry => s.t.pc.Transfer?
    case TFail => s.t.pc.Transfer?
    case TAdvance => s.t.pc.Advance? && s.io.nbufs > 0
    case TGive => s.t.pc.Give?
    case TAck => s.t.pc.Ack?
  }

  function Step(s: Ring, a: Action): Ring
    requires Enabled(s, a)
  {
    var Ring(io, k, p, t, h) := s;
    match a
    case Acquire =>
      s.(k := k.(free := k.free - 1),
         p := p.(pc := Fill, holding := true, got := 0,
                 len := if p.remaining > io.bufmax then io.bufmax else p.remaining))
    case LeaveLoop => s.(p := p.(pc := EndCommand))
    case Receive(data) =>
      s.(io := io.(banks := io.banks[io.writePtr := Patch(io.banks[io.writePtr], p.got, data)]),
         p := p.(got := p.got + |data|), h := h.(received := h.received + data))
    case ReceiveFail => s.(p := p.(pc := EndCommand, result := -EPIPE))
    case Submit =>
      s.(io := io.(lengths := io.lengths[io.writePtr := 2048 * p.len],
                   writePtr := Slot(io.writePtr, 1, io.nbufs)),
         p := p.(pc := Signal),
         h := h.(submitted := h.submitted + [io.banks[io.writePtr][..2048 * p.len]]))
    case SignalOut => s.(k := k.(filled := k.filled + 1), p := p.(pc := SetCommand, holding := false))
    case PutCommand => s.(io := io.(command := CmdWrite), p := p.(pc := Wake))
    case WakeThread => s.(k := k.(wakeups := k.wakeups + 1), p := p.(pc := CheckStatus))
    case Status =>
      s.(p := if io.error then p.(pc := EndCommand, result := -EIO)
              else p.(pc := Loop, remaining := p.remaining - Min(p.len, p.remaining)))
    case PutEndCommand => s.(io := io.(command := CmdWriteEnd), p := p.(pc := EndWake))
    case WakeForEnd => s.(k := k.(wakeups := k.wakeups + 1), p := p.(pc := WaitAck))
    case TakeAck => s.(k := k.(ack := k.ack - 1), p := p.(pc := Done))

    case TWake => s.(k := k.(wakeups := k.wakeups - 1), t := t.(pc := Dispatch))
    case TDispatch =>
      s.(t := t.(pc := match io.command
                       case CmdWrite => First(false)
                       case CmdWriteEnd => First(true)
                       case CmdNone => Sleep))
    case TFirst =>
      if k.filled > 0 then
        s.(k := k.(filled := k.filled - 1),
           t := t.(pc := Merge(t.pc.end), claimed := 1, toWrite := io.lengths[io.readPtr]))
      else
        s.(t := t.(pc := if t.pc.end then Ack else Sleep))
    case TMerge =>
      var next := io.readPtr + t.claimed;
      if next < io.nbufs && k.filled > 0 then
        s.(k := k.(filled := k.filled - 1),
           t := t.(claimed := t.claimed + 1, toWrite := t.toWrite + io.lengths[next]))
      else
        s.(t := t.(pc := Transfer(t.pc.end)))
    case TWrite =>
      s.(t := t.(pc := Advance(t.pc.end)),
         h := h.(done := h.done + t.claimed, writes := h.writes + [Flatten(io.banks[io.readPtr..])[..t.toWrite]]))
    case TRetry => s   // failed, but not with -EIO: fileXioWrite is called again
    case TFail => s.(io := io.(error := true), t := t.(pc := if t.pc.end then Ack else Exited))
    case TAdvance =>
      s.(io := io.(readPtr := Slot(io.readPtr, t.claimed, io.nbufs)),
         t := t.(pc := Give(t.pc.end), claimed := 0, toGive := t.claimed))
    case TGive =>
      if t.toGive > 0 then s.(k := k.(free := k.free + 1), t := t.(toGive := t.toGive - 1))
      else s.(t := t.(pc := if !t.pc.end then Sleep else if t.toWrite > 0 then First(true) else Ack))
    case TAck => s.(k := k.(ack := k.ack + 1), t := t.(pc := Exited))
  }

  /** The state a schedule leads to; `None` when some step of it was not possible. */
  datatype Outcome = Stuck | Reached(s: Ring)

  function Run(s: Ring, schedule: seq<Action>): Outcome
    decreases |schedule|
  {
    if |schedule| == 0 then Reached(s)
    else if Enabled(s, schedule[0]) then Run(Step(s, schedule[0]), schedule[1..])
    else Stuck
  }

  // ---------------------------------------------------------------- the invariant

  /** The bank holding the oldest block that is not in the file yet. */
  function Base(s: Ring): nat {
    if s.t.pc.Advance? then Slot(s.io.readPtr, s.t.claimed, s.io.nbufs) else s.io.readPtr
  }

  /** Banks the I/O thread has taken and not yet written. */
  function Claimed(s: Ring): nat {
    if s.t.pc.Merge? || s.t.pc.Transfer? then s.t.claimed else 0
  }

  function Pending(s: Ring): nat
    requires s.h.done <= |s.h.submitted|
  {
    |s.h.submitted| - s.h.done
  }

  predicate Shape(s: Ring) {
    && InitOk(s.io.nbufs, s.io.bufmax, s.io.banks, s.io.lengths)
    && s.io.readPtr < s.io.nbufs && s.io.writePtr < s.io.nbufs
    && s.h.done <= |s.h.submitted|
  }

  predicate Failed(s: Ring) {
    s.io.error && (s.t.pc.Exited? || s.t.pc.Ack?)
  }

  /** Each bank token is in exactly one place. */
  predicate Tokens(s: Ring) {
    && s.k.free + s.k.filled + s.t.claimed + s.t.toGive + (if s.p.holding then 1 else 0) == s.io.nbufs
    && (s.t.claimed > 0 <==> s.t.pc.Merge? || s.t.pc.Transfer? || s.t.pc.Advance? || Failed(s))
    && (s.t.toGive > 0 ==> s.t.pc.Give?)
    && (s.p.pc.Fill? || s.p.pc.Signal? ==> s.p.holding)
    && (s.p.holding ==> s.p.pc.Fill? || s.p.pc.Signal? || (s.p.result == -EPIPE && Ending(s)))
    && (s.t.claimed > 0 ==> s.io.readPtr + s.t.claimed <= s.io.nbufs)
  }

  predicate Ending(s: Ring) {
    s.p.pc.EndCommand? || s.p.pc.EndWake? || s.p.pc.WaitAck? || s.p.pc.Done?
  }

  function Unwritten(s: Ring): seq<seq<Byte>>
    requires s.h.done <= |s.h.submitted|
  {
    s.h.submitted[s.h.done..]
  }

  /** The blocks not yet in the file sit in ring order from `Base` on, before the bank being filled. */
  predicate Queue(s: Ring)
    requires Shape(s)
  {
    && Pending(s) == (if Failed(s) then s.t.claimed else Claimed(s)) + s.k.filled + (if s.p.pc.Signal? then 1 else 0)
    && s.io.writePtr == Slot(Base(s), Pending(s), s.io.nbufs)
    && Holding(s.io.banks, s.io.lengths, Base(s), Unwritten(s))
  }

  predicate AllButLastFull(blocks: seq<seq<Byte>>, size: nat) {
    && (forall i :: 0 <= i < |blocks| ==> 0 < |blocks[i]| <= size)
    && forall i :: 0 <= i < |blocks| - 1 ==> |blocks[i]| == size
  }

  /** Only the block that ends the game may be short. */
  predicate Sizes(s: Ring) {
    && s.p.remaining <= s.h.sectors
    && AllButLastFull(s.h.submitted, BankBytes(s))
    && (s.p.pc.Loop? || s.p.pc.Fill? ==> s.p.remaining > 0 ==> AllFull(s))
    && (s.p.pc.Fill? ==> s.p.len == Min(s.io.bufmax, s.p.remaining) && s.p.remaining > 0 && s.p.got <= 2048 * s.p.len)
    && (Submitting(s) ==> s.p.len == Min(s.io.bufmax, s.p.remaining) && 0 < s.p.len)
    && (Submitting(s) && s.p.remaining > s.p.len ==> AllFull(s))
  }

  predicate Submitting(s: Ring) {
    s.p.pc.Signal? || s.p.pc.SetCommand? || s.p.pc.Wake? || s.p.pc.CheckStatus?
  }

  predicate AllFull(s: Ring) {
    forall i :: 0 <= i < |s.h.submitted| ==> |s.h.submitted[i]| == BankBytes(s)
  }

  /** The file is the first `done` blocks; what was received is the submitted blocks and the bank being filled. */
  predicate Contents(s: Ring)
    requires Shape(s)
  {
    && File(s) == Flatten(s.h.submitted[..s.h.done])
    && (s.p.pc.Fill? ==>
          s.p.got <= BankBytes(s) && s.h.received == Flatten(s.h.submitted) + s.io.banks[s.io.writePtr][..s.p.got])
    && (!s.p.pc.Fill? && s.p.result != -EPIPE ==> s.h.received == Flatten(s.h.submitted))
    && Flatten(s.h.submitted) <= s.h.received
    && (s.t.pc.Merge? || s.t.pc.Transfer? ==>
          s.h.done + s.t.claimed <= |s.h.submitted|
          && s.t.toWrite == |Flatten(s.h.submitted[s.h.done..s.h.done + s.t.claimed])|)
    && (s.t.pc.Advance? || s.t.pc.Give? ==> s.t.toWrite > 0)
  }

  /** How many sectors have been submitted. */
  predicate Progress(s: Ring) {
    && (s.p.pc.Loop? || s.p.pc.Fill? ==> |Flatten(s.h.submitted)| == 2048 * (s.h.sectors - s.p.remaining))
    && (Submitting(s) ==> |Flatten(s.h.submitted)| == 2048 * (s.h.sectors - s.p.remaining) + 2048 * s.p.len)
    && (Ending(s) && s.p.result == 0 ==> |Flatten(s.h.submitted)| == 2048 * s.h.sectors)
    && (!Ending(s) ==> s.p.result == 0)
    && |Flatten(s.h.submitted)| <= 2048 * s.h.sectors
  }

  predicate Control(s: Ring) {
    && (s.k.wakeups > 0 || !s.t.pc.Sleep? ==> !s.io.command.CmdNone?)
    && (s.p.pc.Done? || s.p.pc.WaitAck? || s.p.pc.EndWake? <==> s.io.command.CmdWriteEnd?)
    && (s.p.pc.Wake? ==> s.io.command.CmdWrite?)
    && (InEnd(s) ==> s.io.command.CmdWriteEnd?)
    && (s.t.pc.Ack? || (s.t.pc.Exited? && !s.io.error) ==> s.io.command.CmdWriteEnd?)
    && (s.t.pc.Ack? || s.t.pc.Exited? ==> !s.io.error ==> s.k.filled == 0)
    && s.k.ack <= 1
    && (s.k.ack == 1 || s.p.pc.Done? ==> s.t.pc.Exited? && s.io.command.CmdWriteEnd?)
    && (s.t.pc.Exited? && !s.io.error ==> s.k.ack == 1 || s.p.pc.Done?)
  }

  predicate InEnd(s: Ring) {
    match s.t.pc
    case First(end) => end
    case Merge(end) => end
    case Transfer(end) => end
    case Advance(end) => end
    case Give(end) => end
    case _ => false
  }

  /** No wake-up is lost: each filled bank still has a wake-up, or a thread step, to its name. */
  predicate WakeupsSuffice(s: Ring) {
    && (!InEnd(s) && !s.io.error ==>
          s.k.filled <= s.k.wakeups
                    + (if s.t.pc.Dispatch? || s.t.pc.First? then 1 else 0)
                    + (if s.p.pc.SetCommand? || s.p.pc.Wake? then 1 else 0))
    && (s.p.pc.WaitAck? && !s.io.error && !InEnd(s) && !s.t.pc.Ack? && !s.t.pc.Exited? && !s.t.pc.Dispatch? ==>
          s.k.wakeups > 0)
  }

  /** What the steps of both threads keep, whoever puts which command when. */
  predicate Core(s: Ring) {
    && Shape(s) && Tokens(s) && Queue(s) && Sizes(s) && Contents(s) && Progress(s)
    && (s.io.error ==> Failed(s))
  }

  predicate Inv(s: Ring) {
    Core(s) && Control(s) && WakeupsSuffice(s)
  }

  // ---------------------------------------------------------------- preservation

  lemma InitInv(nbufs: nat, bufmax: nat, banks: seq<seq<Byte>>, lengths: seq<nat>, sectors: nat)
    requires InitOk(nbufs, bufmax, banks, lengths)
    ensures Inv(Init(nbufs, bufmax, banks, lengths, sectors))
  {
  }

  predicate ByThread(a: Action) {
    a.TWake? || a.TDispatch? || a.TFirst? || a.TMerge? || a.TWrite? || a.TRetry? || a.TFail?
    || a.TAdvance? || a.TGive? || a.TAck?
  }

  lemma ShapeStep(s: Ring, a: Action)
    requires Core(s) && Enabled(s, a)
    ensures Shape(Step(s, a))
  {
    hide Sizes, Progress, Control, WakeupsSuffice, Flatten, Holding;
  }

  lemma TokensStep(s: Ring, a: Action)
    requires Core(s) && Enabled(s, a)
    ensures Tokens(Step(s, a))
  {
    hide Queue, Sizes, Contents, Progress, WakeupsSuffice, Flatten;
  }

  lemma ControlProducer(s: Ring, a: Action)
    requires Inv(s) && Enabled(s, a) && !ByThread(a)
    ensures Control(Step(s, a)) && WakeupsSuffice(Step(s, a))
  {
    hide Queue, Sizes, Progress, Flatten, Contents;
    assert Step(s, a).t == s.t;
  }

  lemma ControlThread(s: Ring, a: Action)
    requires Inv(s) && Enabled(s, a) && ByThread(a)
    ensures Control(Step(s, a)) && WakeupsSuffice(Step(s, a))
  {
    hide Queue, Sizes, Progress, Flatten;
    assert Step(s, a).p == s.p && Step(s, a).io.command == s.io.command;
  }

  lemma ControlStep(s: Ring, a: Action)
    requires Inv(s) && Enabled(s, a)
    ensures Control(Step(s, a)) && WakeupsSuffice(Step(s, a))
  {
    hide *;
    if ByThread(a) {
      ControlThread(s, a);
    } else {
      ControlProducer(s, a);
    }
  }

  lemma SubmitSizes(s: Ring)
    requires Core(s) && Enabled(s, Submit)
    ensures Sizes(Step(s, Submit)) && Progress(Step(s, Submit))
  {
    hide Queue, Tokens, Control, WakeupsSuffice, Contents;
    FlattenSnoc(s.h.submitted, s.io.banks[s.io.writePtr][..2048 * s.p.len]);
  }

  lemma SizesStep(s: Ring, a: Action)
    requires Core(s) && Enabled(s, a)
    ensures Sizes(Step(s, a))
  {
    hide Queue, Tokens, Control, WakeupsSuffice, Contents, Progress, Flatten;
    if a.Submit? {
      SubmitSizes(s);
    }
  }

  lemma ProgressStep(s: Ring, a: Action)
    requires Core(s) && Enabled(s, a)
    ensures Progress(Step(s, a))
  {
    hide Queue, Tokens, WakeupsSuffice, Contents, Flatten;
    if a.Submit? {
      SubmitSizes(s);
    }
  }

  lemma QueueReceive(s: Ring, data: seq<Byte>)
    requires Core(s) && Enabled(s, Receive(data)) && Shape(Step(s, Receive(data)))
    ensures Queue(Step(s, Receive(data)))
  {
    hide Contents, Progress, Control, WakeupsSuffice, Sizes, Flatten;
    var t := Step(s, Receive(data));
    forall i | 0 <= i < |Unwritten(t)|
      ensures Holds(t.io.banks, t.io.lengths, Slot(Base(t), i, t.io.nbufs), Unwritten(t)[i])
    {
      assert Holds(s.io.banks, s.io.lengths, Slot(Base(s), i, s.io.nbufs), Unwritten(s)[i]);
    }
  }

  lemma SubmitLength(s: Ring)
    requires Sizes(s) && s.p.pc.Fill?
    ensures 2048 * s.p.len <= BankBytes(s)
  {
  }

  lemma QueueSubmit(s: Ring)
    requires Core(s) && Enabled(s, Submit) && Shape(Step(s, Submit))
    ensures Queue(Step(s, Submit))
  {
    hide Contents, Progress, Control, WakeupsSuffice, Flatten, AllButLastFull, Sizes, Holding;
    SubmitLength(s);
    HoldingSnoc(s.io.banks, s.io.lengths, Base(s), Unwritten(s), 2048 * s.p.len);
    assert Unwritten(Step(s, Submit)) == Unwritten(s) + [s.io.banks[s.io.writePtr][..2048 * s.p.len]];
  }

  lemma QueueWrite(s: Ring)
    requires Core(s) && Enabled(s, TWrite) && Shape(Step(s, TWrite))
    ensures Queue(Step(s, TWrite))
  {
    hide Progress, Control, WakeupsSuffice, Sizes, Flatten, Holds;
    HoldingDrop(s.io.banks, s.io.lengths, Base(s), Unwritten(s), s.t.claimed);
    assert Unwritten(Step(s, TWrite)) == Unwritten(s)[s.t.claimed..];
  }

  lemma QueueProducer(s: Ring, a: Action)
    requires Core(s) && Enabled(s, a) && Shape(Step(s, a)) && !ByThread(a) && !a.Receive? && !a.Submit?
    ensures Queue(Step(s, a))
  {
    hide Contents, Progress, WakeupsSuffice, Sizes, Flatten, Holding;
    assert Unwritten(Step(s, a)) == Unwritten(s);
  }

  lemma QueueThread(s: Ring, a: Action)
    requires Core(s) && Enabled(s, a) && Shape(Step(s, a)) && ByThread(a) && !a.TWrite?
    ensures Queue(Step(s, a))
  {
    hide Contents, Progress, WakeupsSuffice, Sizes, Flatten, Holding;
    assert Unwritten(Step(s, a)) == Unwritten(s);
  }

  lemma QueueStep(s: Ring, a: Action)
    requires Core(s) && Enabled(s, a) && Shape(Step(s, a))
    ensures Queue(Step(s, a))
  {
    if a.Receive? {
      QueueReceive(s, a.data);
    } else if a.Submit? {
      QueueSubmit(s);
    } else if a.TWrite? {
      QueueWrite(s);
    } else if ByThread(a) {
      QueueThread(s, a);
    } else {
      QueueProducer(s, a);
    }
  }

  /** Banks next to each other in memory, all full but the last one, hold the joined blocks. */
  lemma {:induction false} MergedBanks(banks: seq<seq<Byte>>, blocks: seq<seq<Byte>>, size: nat)
    requires |blocks| <= |banks|
    requires forall i :: 0 <= i < |blocks| ==> |blocks[i]| <= |banks[i]| == size && banks[i][..|blocks[i]|] == blocks[i]
    requires forall i :: 0 <= i < |blocks| - 1 ==> |blocks[i]| == size
    ensures |Flatten(blocks)| <= |Flatten(banks)|
    ensures Flatten(banks)[..|Flatten(blocks)|] == Flatten(blocks)
  {
    if |blocks| > 0 {
      assert banks[0][..|blocks[0]|] == blocks[0];
      if |blocks| == 1 {
        assert Flatten(blocks[1..]) == [];
      } else {
        forall i | 0 <= i < |blocks| - 1
          ensures |blocks[1..][i]| <= |banks[1..][i]| == size && banks[1..][i][..|blocks[1..][i]|] == blocks[1..][i]
        {
          assert blocks[1..][i] == blocks[i + 1] && banks[1..][i] == banks[i + 1];
        }
        MergedBanks(banks[1..], blocks[1..], size);
        assert banks[0] == blocks[0];
      }
    }
  }

  /** Banks of one size, next to each other in memory, that begin with the blocks. */
  predicate InBanks(banks: seq<seq<Byte>>, blocks: seq<seq<Byte>>, size: nat) {
    && |banks| == |blocks|
    && forall i :: 0 <= i < |blocks| ==> |blocks[i]| <= |banks[i]| == size && banks[i][..|blocks[i]|] == blocks[i]
  }

  /** A block as long as the bank, or one that the byte `pad` follows up to its end. */
  function Padded(block: seq<Byte>, size: nat, pad: Byte): (bank: seq<Byte>)
    requires |block| <= size
    ensures |bank| == size && bank[..|block|] == block
  {
    block + seq(size - |block|, _ => pad)
  }

  lemma FirstBlockSpoils(blocks: seq<seq<Byte>>, size: nat) returns (banks: seq<seq<Byte>>)
    requires 2 <= |blocks| && |blocks[0]| < size && forall i :: 0 <= i < |blocks| ==> 0 < |blocks[i]| <= size
    ensures InBanks(banks, blocks, size)
    ensures |Flatten(blocks)| <= |Flatten(banks)| && Flatten(banks)[..|Flatten(blocks)|] != Flatten(blocks)
  {
    var rest := blocks[1..];
    assert Flatten(rest) == rest[0] + Flatten(rest[1..]);
    var pad: Byte := if rest[0][0] == 0 then 1 else 0;
    banks := seq(|blocks|, i requires 0 <= i < |blocks| => Padded(blocks[i], size, pad));
    BanksAreLonger(banks, blocks, size);
    assert Flatten(banks)[|blocks[0]|] == pad;
    assert Flatten(blocks)[|blocks[0]|] == rest[0][0];
  }

  /** A short block before the last leaves room for a byte that does not belong into the merged transfer. */
  lemma {:induction false} ShortBlockSpoils(blocks: seq<seq<Byte>>, size: nat) returns (banks: seq<seq<Byte>>)
    requires forall i :: 0 <= i < |blocks| ==> 0 < |blocks[i]| <= size
    requires exists i :: 0 <= i < |blocks| - 1 && |blocks[i]| < size
    ensures InBanks(banks, blocks, size)
    ensures |Flatten(blocks)| <= |Flatten(banks)| && Flatten(banks)[..|Flatten(blocks)|] != Flatten(blocks)
  {
    var rest := blocks[1..];
    assert Flatten(blocks) == blocks[0] + Flatten(rest);
    if |blocks[0]| < size {
      banks := FirstBlockSpoils(blocks, size);
    } else {
      var j :| 0 <= j < |blocks| - 1 && |blocks[j]| < size;
      assert |rest[j - 1]| < size;
      var tail := ShortBlockSpoils(rest, size);
      banks := [blocks[0]] + tail;
      assert banks[1..] == tail;
      assert Flatten(banks)[|blocks[0]|..|Flatten(blocks)|] == Flatten(tail)[..|Flatten(rest)|];
      assert Flatten(blocks)[|blocks[0]|..] == Flatten(rest);
    }
  }

  lemma {:induction false} BanksAreLonger(banks: seq<seq<Byte>>, blocks: seq<seq<Byte>>, size: nat)
    requires InBanks(banks, blocks, size)
    ensures |Flatten(blocks)| <= |Flatten(banks)|
  {
    if |blocks| > 0 {
      BanksAreLonger(banks[1..], blocks[1..], size);
    }
  }

  /**
   One transfer of several banks is the transfers of each, whatever else the banks hold, iff all but the last are full.
   */
  lemma MergingIsRightIff(blocks: seq<seq<Byte>>, size: nat)
    requires forall i :: 0 <= i < |blocks| ==> 0 < |blocks[i]| <= size
    ensures (forall banks :: InBanks(banks, blocks, size) ==> Flatten(blocks) <= Flatten(banks)) <==>
      AllButLastFull(blocks, size)
  {
    if AllButLastFull(blocks, size) {
      forall banks | InBanks(banks, blocks, size) ensures Flatten(blocks) <= Flatten(banks) {
        MergedBanks(banks, blocks, size);
      }
    } else {
      var banks := ShortBlockSpoils(blocks, size);
      assert InBanks(banks, blocks, size) && !(Flatten(blocks) <= Flatten(banks));
    }
  }

  /** The merged transfer carries exactly the claimed blocks, in order. */
  lemma MergedTransfer(s: Ring)
    requires Core(s) && s.t.pc.Transfer?
    ensures s.h.done + s.t.claimed <= |s.h.submitted| && s.io.readPtr <= |s.io.banks|
    ensures s.t.toWrite <= |Flatten(s.io.banks[s.io.readPtr..])|
    ensures Flatten(s.io.banks[s.io.readPtr..])[..s.t.toWrite]
         == Flatten(s.h.submitted[s.h.done..s.h.done + s.t.claimed])
  {
    var banks, blocks := s.io.banks[s.io.readPtr..], s.h.submitted[s.h.done..s.h.done + s.t.claimed];
    forall i | 0 <= i < |blocks|
      ensures |blocks[i]| <= |banks[i]| == BankBytes(s) && banks[i][..|blocks[i]|] == blocks[i]
    {
      assert Holds(s.io.banks, s.io.lengths, Slot(Base(s), i, s.io.nbufs), Unwritten(s)[i]);
    }
    MergedBanks(banks, blocks, BankBytes(s));
  }

  lemma ContentsReceive(s: Ring, data: seq<Byte>)
    requires Core(s) && Enabled(s, Receive(data)) && Shape(Step(s, Receive(data)))
    ensures Contents(Step(s, Receive(data)))
  {
    hide Queue, Progress, Control, WakeupsSuffice, Flatten;
    var t := Step(s, Receive(data));
    assert t.io.banks[t.io.writePtr][..t.p.got] == s.io.banks[s.io.writePtr][..s.p.got] + data;
  }

  lemma ContentsSubmit(s: Ring)
    requires Core(s) && Enabled(s, Submit) && Shape(Step(s, Submit))
    ensures Contents(Step(s, Submit))
  {
    hide Progress, Control, WakeupsSuffice, Flatten;
    var t := Step(s, Submit);
    FlattenSnoc(s.h.submitted, s.io.banks[s.io.writePtr][..2048 * s.p.len]);
    assert t.h.submitted[..t.h.done] == s.h.submitted[..s.h.done];
    if s.t.pc.Merge? || s.t.pc.Transfer? {
      assert t.h.submitted[t.h.done..t.h.done + t.t.claimed] == s.h.submitted[s.h.done..s.h.done + s.t.claimed];
    }
  }

  /** Claiming one more bank adds its block to what the transfer will carry. */
  lemma ClaimNext(s: Ring, c: nat)
    requires Shape(s) && Queue(s) && c < Pending(s)
    ensures Slot(Base(s), c, s.io.nbufs) < s.io.nbufs
    ensures s.io.lengths[Slot(Base(s), c, s.io.nbufs)] == |s.h.submitted[s.h.done + c]|
    ensures |Flatten(s.h.submitted[s.h.done..s.h.done + c + 1])|
         == |Flatten(s.h.submitted[s.h.done..s.h.done + c])| + |s.h.submitted[s.h.done + c]|
    ensures Flatten(s.h.submitted[s.h.done..s.h.done]) == []
  {
    assert Holds(s.io.banks, s.io.lengths, Slot(Base(s), c, s.io.nbufs), Unwritten(s)[c]);
    assert s.h.submitted[s.h.done..s.h.done + c + 1] == s.h.submitted[s.h.done..s.h.done + c] + [Unwritten(s)[c]];
    FlattenSnoc(s.h.submitted[s.h.done..s.h.done + c], Unwritten(s)[c]);
  }

  lemma ContentsTake(s: Ring, a: Action)
    requires Core(s) && Enabled(s, a) && Shape(Step(s, a)) && (a.TFirst? || a.TMerge?)
    ensures Contents(Step(s, a))
  {
    hide Progress, Control, WakeupsSuffice, AllButLastFull, Flatten, Holding;
    if Step(s, a).t.pc.Merge? {
      ClaimNext(s, if a.TFirst? then 0 else s.t.claimed);
    }
  }

  lemma ContentsWrite(s: Ring)
    requires Core(s) && Enabled(s, TWrite) && Shape(Step(s, TWrite))
    ensures Contents(Step(s, TWrite))
  {
    hide Queue, Progress, Control, WakeupsSuffice, Holding;
    var t := Step(s, TWrite);
    MergedTransfer(s);
    FlattenSnoc(s.h.writes, Flatten(s.io.banks[s.io.readPtr..])[..s.t.toWrite]);
    FlattenConcat(s.h.submitted[..s.h.done], s.h.submitted[s.h.done..t.h.done]);
    assert s.h.submitted[..t.h.done] == s.h.submitted[..s.h.done] + s.h.submitted[s.h.done..t.h.done];
    var blocks := s.h.submitted[s.h.done..t.h.done];
    assert Flatten(blocks) == blocks[0] + Flatten(blocks[1..]);
    assert blocks[0] == s.h.submitted[s.h.done];
  }

  lemma ContentsRest(s: Ring, a: Action)
    requires Core(s) && Enabled(s, a) && Shape(Step(s, a))
    requires !a.Receive? && !a.Submit? && !a.TFirst? && !a.TMerge? && !a.TWrite?
    ensures Contents(Step(s, a))
  {
    hide Queue, Sizes, WakeupsSuffice, Flatten;
  }

  lemma ContentsStep(s: Ring, a: Action)
    requires Core(s) && Enabled(s, a) && Shape(Step(s, a))
    ensures Contents(Step(s, a))
  {
    if a.Receive? {
      ContentsReceive(s, a.data);
    } else if a.Submit? {
      ContentsSubmit(s);
    } else if a.TFirst? || a.TMerge? {
      ContentsTake(s, a);
    } else if a.TWrite? {
      ContentsWrite(s);
    } else {
      ContentsRest(s, a);
    }
  }

  lemma FailedStep(s: Ring, a: Action)
    requires Core(s) && Enabled(s, a)
    ensures Step(s, a).io.error ==> Failed(Step(s, a))
  {
    hide Shape, Tokens, Queue, Sizes, Contents, Progress, Flatten;
  }

  lemma CoreStep(s: Ring, a: Action)
    requires Core(s) && Enabled(s, a)
    ensures Core(Step(s, a))
  {
    hide Shape, Tokens, Queue, Sizes, Contents, Progress, Step, Enabled, Failed;
    ShapeStep(s, a);
    TokensStep(s, a);
    QueueStep(s, a);
    SizesStep(s, a);
    ProgressStep(s, a);
    ContentsStep(s, a);
    FailedStep(s, a);
  }

  /** Every step of either thread keeps the invariant. */
  lemma StepInv(s: Ring, a: Action)
    requires Inv(s) && Enabled(s, a)
    ensures Inv(Step(s, a))
  {
    hide Core, Control, WakeupsSuffice, Step, Enabled;
    CoreStep(s, a);
    ControlStep(s, a);
  }

  lemma InvMeansCore(s: Ring)
    requires Inv(s)
    ensures Core(s)
  {
  }

  lemma {:induction false} RunInv(s: Ring, schedule: seq<Action>)
    requires Inv(s) && Run(s, schedule).Reached?
    ensures Inv(Run(s, schedule).s)
    decreases |schedule|
  {
    if |schedule| > 0 {
      StepInv(s, schedule[0]);
      RunInv(Step(s, schedule[0]), schedule[1..]);
    }
  }

  // ---------------------------------------------------------------- what holds of every run

  /** `t` can be reached from the start of a game write by some interleaving. */
  ghost predicate Reachable(t: Ring) {
    exists nbufs, bufmax, banks, lengths, sectors, schedule ::
      InitOk(nbufs, bufmax, banks, lengths)
      && Run(Init(nbufs, bufmax, banks, lengths, sectors), schedule) == Reached(t)
  }

  lemma ReachableInv(t: Ring)
    requires Reachable(t)
    ensures Inv(t)
  {
    var nbufs, bufmax, banks, lengths, sectors, schedule :|
      InitOk(nbufs, bufmax, banks, lengths)
      && Run(Init(nbufs, bufmax, banks, lengths, sectors), schedule) == Reached(t);
    InitInv(nbufs, bufmax, banks, lengths, sectors);
    RunInv(Init(nbufs, bufmax, banks, lengths, sectors), schedule);
  }

  /** Tokens are conserved; no semaphore passes its maximum. */
  lemma TokensConserved(t: Ring)
    requires Reachable(t)
    ensures t.k.free + t.k.filled + t.t.claimed + t.t.toGive + (if t.p.holding then 1 else 0) == t.io.nbufs
    ensures t.k.free <= t.io.nbufs && t.k.filled <= t.io.nbufs && t.k.ack <= 1
  {
    ReachableInv(t);
  }

  /** The bank WriteGame is filling is none of those whose block is still to be written. */
  lemma NoUnwrittenBankOverwritten(t: Ring, i: nat)
    requires Reachable(t) && t.p.pc.Fill? && t.h.done <= |t.h.submitted| && i < Pending(t)
    ensures Slot(Base(t), i, t.io.nbufs) != t.io.writePtr
    ensures Slot(Base(t), i, t.io.nbufs) < |t.io.banks| == |t.io.lengths|
    ensures Holds(t.io.banks, t.io.lengths, Slot(Base(t), i, t.io.nbufs), Unwritten(t)[i])
  {
    ReachableInv(t);
  }

  /** At every moment the file is the submitted blocks, in submission order, up to some block. */
  lemma FileIsInSubmissionOrder(t: Ring)
    requires Reachable(t)
    ensures t.h.done <= |t.h.submitted| && File(t) == Flatten(t.h.submitted[..t.h.done])
    ensures File(t) <= t.h.received
    ensures forall i :: 0 <= i < |t.h.submitted| - 1 ==> |t.h.submitted[i]| == BankBytes(t)
  {
    ReachableInv(t);
    FlattenConcat(t.h.submitted[..t.h.done], t.h.submitted[t.h.done..]);
    assert t.h.submitted == t.h.submitted[..t.h.done] + t.h.submitted[t.h.done..];
  }

  lemma DoneMeansComplete(t: Ring)
    requires Inv(t) && t.p.pc.Done? && !t.io.error
    ensures File(t) == Flatten(t.h.submitted)
    ensures t.p.result == 0 ==> File(t) == t.h.received && |t.h.received| == 2048 * t.h.sectors
  {
    assert t.h.submitted[..t.h.done] == t.h.submitted;
  }

  /** When IOEndWrite has returned OK nothing submitted is missing. */
  lemma EndWriteOkMeansAllWritten(t: Ring)
    requires Reachable(t) && t.p.pc.Done? && !t.io.error
    ensures File(t) == Flatten(t.h.submitted)
    ensures t.p.result == 0 ==> File(t) == t.h.received && |t.h.received| == 2048 * t.h.sectors
  {
    ReachableInv(t);
    DoneMeansComplete(t);
  }
}
