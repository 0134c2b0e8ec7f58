/**
 The write side of HDLGManClient/io.c: one bank a transfer, and an event that only remembers that it was set. Blocks
 may have any length. The client's writeFile never returns a negative number: a write that fails returns 0, and io.c
 takes 0 for a success.
 */
module ClientRing {
  import opened Common
  import opened Banks

  datatype Command = CmdNone | CmdWrite | CmdWriteEnd

  /** The thread that fills banks, between IOGetNextWrBuffer and IOEndWrite. */
  datatype ProducerPc = Idle | Fill | Signal | SetCommand | Wake | EndCommand | EndWake | WaitAck | Done

  /** `end` is true while the I/O thread serves IO_THREAD_CMD_WRITE_END. */
  datatype ThreadPc = Sleep | Dispatch | Poll(end: bool) | Transfer(end: bool) | Give(end: bool) | Ack | Exited

  datatype IOState = IOState(
    nbufs: nat, banks: seq<seq<Byte>>, lengths: seq<nat>, writePtr: nat, readPtr: nat, command: Command, error: bool)

  /** InBufSema, OutBufSema and the two events. */
  datatype Kernel = Kernel(free: nat, filled: nat, event: bool, ack: bool)

  /** `result` is IOExecWriteNext's. */
  datatype Thread = Thread(pc: ThreadPc, result: int)

  /** `kept[i]` is how much of the i-th submitted block its write has put into the file. */
  datatype History = History(submitted: seq<seq<Byte>>, kept: seq<nat>, file: seq<Byte>)

  datatype Ring = Ring(io: IOState, k: Kernel, p: ProducerPc, t: Thread, h: History)

  predicate InitOk(nbufs: nat, banks: seq<seq<Byte>>, lengths: seq<nat>) {
    0 < nbufs == |banks| == |lengths|
  }

  /** IOWriteInit. */
  function Init(nbufs: nat, banks: seq<seq<Byte>>, lengths: seq<nat>): Ring {
    Ring(IOState(nbufs, banks, lengths, 0, 0, CmdNone, false), Kernel(nbufs, 0, false, false), Idle,
         Thread(Sleep, 0), History([], [], []))
  }

  datatype Action =
    | Acquire | Store(data: seq<Byte>) | Submit(length: nat) | SignalOut | PutCommand | SetEvent
    | Finish | PutEndCommand | SetEventForEnd | TakeAck
    | TWake | TDispatch | TPoll | TWrite | TFail(part: nat) | TGive | TAck

  predicate CanWrite(s: Ring) {
    && s.t.pc.Transfer? && s.io.readPtr < |s.io.banks| == |s.io.lengths|
    && s.io.lengths[s.io.readPtr] <= |s.io.banks[s.io.readPtr]|
  }

  predicate Enabled(s: Ring, a: Action) {
    match a
    case Acquire => s.p.Idle? && s.k.free > 0
    case Store(data) => s.p.Fill? && s.io.writePtr < |s.io.banks| && |data| <= |s.io.banks[s.io.writePtr]|
    case Submit(length) =>
      s.p.Fill? && s.io.writePtr < |s.io.banks| == |s.io.lengths| && length <= |s.io.banks[s.io.writePtr]|
    case SignalOut => s.p.Signal?
    case PutCommand => s.p.SetCommand?
    case SetEvent => s.p.Wake?
    case Finish => s.p.Idle? || s.p.Fill?
    case PutEndCommand => s.p.EndCommand?
    case SetEventForEnd => s.p.EndWake?
    case TakeAck => s.p.WaitAck? && s.k.ack
    case TWake => s.t.pc.Sleep? && s.k.event
    case TDispatch => s.t.pc.Dispatch?
    case TPoll => s.t.pc.Poll?
    case TWrite => CanWrite(s)
    case TFail(part) => CanWrite(s) && part < s.io.lengths[s.io.readPtr]
    case TGive => s.t.pc.Give?
    case TAck => s.t.pc.Ack?
  }

  /** writeFile has put `kept` bytes of the bank into the file and returned `result`. */
  function Written(s: Ring, kept: nat, result: nat): Ring
    requires CanWrite(s) && kept <= s.io.lengths[s.io.readPtr]
  {
    s.(t := s.t.(pc := Give(s.t.pc.end), result := result),
       h := s.h.(kept := s.h.kept + [kept], file := s.h.file + s.io.banks[s.io.readPtr][..kept]))
  }

  function Step(s: Ring, a: Action): Ring
    requires Enabled(s, a)
  {
    var Ring(io, k, p, t, h) := s;
    match a
    case Acquire => s.(k := k.(free := k.free - 1), p := Fill)
    case Store(data) =>
      s.(io := io.(banks := io.banks[io.writePtr := Patch(io.banks[io.writePtr], 0, data)]))
    case Submit(length) =>
      s.(io := io.(lengths := io.lengths[io.writePtr := length], writePtr := Slot(io.writePtr, 1, io.nbufs)),
         p := Signal,
         h := h.(submitted := h.submitted + [io.banks[io.writePtr][..length]]))
    case SignalOut => s.(k := k.(filled := k.filled + 1), p := SetCommand)
    case PutCommand => s.(io := io.(command := CmdWrite), p := Wake)
    case SetEvent => s.(k := k.(event := true), p := Idle)
    case Finish => s.(p := EndCommand)
    case PutEndCommand => s.(io := io.(command := CmdWriteEnd), p := EndWake)
    case SetEventForEnd => s.(k := k.(event := true), p := WaitAck)
    case TakeAck => s.(k := k.(ack := false), p := Done)

    case TWake => s.(k := k.(event := false), t := t.(pc := Dispatch))
    case TDispatch =>
      s.(t := t.(result := 0, pc := match io.command
                                    case CmdWrite => Poll(false)
                                    case CmdWriteEnd => Poll(true)
                                    case CmdNone => Sleep))
    case TPoll =>
      if k.filled > 0 then s.(k := k.(filled := k.filled - 1), t := t.(pc := Transfer(t.pc.end)))
      else if t.result < 0 then s.(io := io.(error := true), t := t.(pc := if t.pc.end then Ack else Exited))
      else if t.pc.end then s.(t := t.(result := 0, pc := if t.result > 0 then Poll(true) else Ack))
      else s.(t := t.(pc := Sleep))
    case TWrite => Written(s, io.lengths[io.readPtr], io.lengths[io.readPtr])
    case TFail(part) => Written(s, part, 0)
    case TGive =>
      s.(io := io.(readPtr := Slot(io.readPtr, 1, io.nbufs)), k := k.(free := k.free + 1),
         t := t.(pc := Poll(t.pc.end)))
    case TAck => s.(k := k.(ack := true), t := t.(pc := Exited))
  }

  datatype Outcome = Stuck | Reached(s: Ring)

  function Run(s: Ring, schedule: seq<Action>): Outcome
    decreases |schedule|
  {
    if |schedule| == 0 then Reached(s)
    else if Enabled(s, schedule[0]) then Run(Step(s, schedule[0]), schedule[1..])
    else Stuck
  }

  // ---------------------------------------------------------------- the invariant

  predicate Shape(s: Ring) {
    && InitOk(s.io.nbufs, s.io.banks, s.io.lengths)
    && s.io.readPtr < s.io.nbufs && s.io.writePtr < s.io.nbufs && |s.h.kept| <= |s.h.submitted|
  }

  function Base(s: Ring): nat {
    if s.t.pc.Give? then Slot(s.io.readPtr, 1, s.io.nbufs) else s.io.readPtr
  }

  function Unwritten(s: Ring): seq<seq<Byte>>
    requires |s.h.kept| <= |s.h.submitted|
  {
    s.h.submitted[|s.h.kept|..]
  }

  /** Each token is in one place; a producer that stops while it fills a bank keeps its token. */
  predicate Tokens(s: Ring) {
    var others := s.k.free + s.k.filled + (if s.t.pc.Transfer? || s.t.pc.Give? then 1 else 0);
    if s.p.Fill? || s.p.Signal? then others + 1 == s.io.nbufs
    else if s.p.Idle? || s.p.SetCommand? || s.p.Wake? then others == s.io.nbufs
    else s.io.nbufs - 1 <= others <= s.io.nbufs
  }

  /** The unwritten blocks, as many as there are tokens for them, sit in ring order. */
  predicate Queue(s: Ring)
    requires Shape(s)
  {
    && |Unwritten(s)| == s.k.filled + (if s.t.pc.Transfer? then 1 else 0) + (if s.p.Signal? then 1 else 0)
    && |Unwritten(s)| <= s.io.nbufs
    && s.io.writePtr == Slot(Base(s), |Unwritten(s)|, s.io.nbufs)
    && Holding(s.io.banks, s.io.lengths, Base(s), Unwritten(s))
  }

  /** What the writes have left of the blocks they were given. */
  function Kept(submitted: seq<seq<Byte>>, kept: seq<nat>): seq<seq<Byte>>
    requires |kept| <= |submitted|
  {
    seq(|kept|, i requires 0 <= i < |kept| => if kept[i] <= |submitted[i]| then submitted[i][..kept[i]] else [])
  }

  predicate Contents(s: Ring)
    requires Shape(s)
  {
    && s.h.file == Flatten(Kept(s.h.submitted, s.h.kept))
    && forall i :: 0 <= i < |s.h.kept| ==> s.h.kept[i] <= |s.h.submitted[i]|
  }

  predicate Control(s: Ring) {
    && (s.p.EndWake? || s.p.WaitAck? || s.p.Done? <==> s.io.command.CmdWriteEnd?)
    && (s.p.Wake? || s.k.event || !s.t.pc.Sleep? ==> !s.io.command.CmdNone?)
    && (InEnd(s) || s.k.ack || s.t.pc.Exited? ==> s.io.command.CmdWriteEnd?)
    && (s.t.pc.Ack? || s.t.pc.Exited? ==> s.k.filled == 0)
    && (s.t.pc.Exited? <==> s.k.ack || s.p.Done?)
    && (s.p.WaitAck? ==> s.k.ack || s.k.event || s.t.pc.Dispatch? || InEnd(s))
    && s.t.result >= 0 && !s.io.error
  }

  predicate InEnd(s: Ring) {
    s.t.pc.Ack? || ((s.t.pc.Poll? || s.t.pc.Transfer? || s.t.pc.Give?) && s.t.pc.end)
  }

  /** A set event is enough: until it has been served, or the thread polls on, no filled bank is forgotten. */
  predicate WakeupPending(s: Ring) {
    s.k.filled > 0 && s.t.pc.Sleep? ==> s.k.event || s.p.SetCommand? || s.p.Wake? || s.p.EndCommand? || s.p.EndWake?
  }

  predicate Inv(s: Ring) {
    Shape(s) && Tokens(s) && Queue(s) && Contents(s) && Control(s) && WakeupPending(s)
  }

  lemma InitInv(nbufs: nat, banks: seq<seq<Byte>>, lengths: seq<nat>)
    requires InitOk(nbufs, banks, lengths)
    ensures Inv(Init(nbufs, banks, lengths))
  {
  }

  lemma ShapeStep(s: Ring, a: Action)
    requires Inv(s) && Enabled(s, a)
    ensures Shape(Step(s, a))
  {
    hide Contents, Control, WakeupPending, Flatten, Holding;
  }

  lemma ControlStep(s: Ring, a: Action)
    requires Inv(s) && Enabled(s, a)
    ensures Tokens(Step(s, a)) && Control(Step(s, a)) && WakeupPending(Step(s, a))
  {
    hide Queue, Contents, Flatten;
  }

  lemma KeptSnoc(submitted: seq<seq<Byte>>, kept: seq<nat>, n: nat)
    requires |kept| < |submitted| && n <= |submitted[|kept|]|
    ensures Flatten(Kept(submitted, kept + [n])) == Flatten(Kept(submitted, kept)) + submitted[|kept|][..n]
  {
    assert Kept(submitted, kept + [n]) == Kept(submitted, kept) + [submitted[|kept|][..n]];
    FlattenSnoc(Kept(submitted, kept), submitted[|kept|][..n]);
  }

  lemma ContentsStep(s: Ring, a: Action)
    requires Inv(s) && Enabled(s, a) && Shape(Step(s, a))
    ensures Contents(Step(s, a))
  {
    hide Control, WakeupPending, Tokens, Flatten;
    var t := Step(s, a);
    if a.Submit? {
      assert Kept(t.h.submitted, t.h.kept) == Kept(s.h.submitted, s.h.kept);
    } else if a.TWrite? || a.TFail? {
      var n := if a.TWrite? then s.io.lengths[s.io.readPtr] else a.part;
      assert Holds(s.io.banks, s.io.lengths, Slot(Base(s), 0, s.io.nbufs), Unwritten(s)[0]);
      KeptSnoc(s.h.submitted, s.h.kept, n);
      assert s.io.banks[s.io.readPtr][..n] == s.h.submitted[|s.h.kept|][..n];
    }
  }

  lemma QueueStore(s: Ring, data: seq<Byte>)
    requires Inv(s) && Enabled(s, Store(data)) && Shape(Step(s, Store(data)))
    ensures Queue(Step(s, Store(data)))
  {
    hide Contents, Control, WakeupPending, Flatten;
    var t := Step(s, Store(data));
    forall i | 0 <= i < |Unwritten(t)|
      ensures Holds(t.io.banks, t.io.lengths, Slot(Base(t), i, t.io.nbufs), Unwritten(t)[i])
    {
      assert Holds(s.io.banks, s.io.lengths, Slot(Base(s), i, s.io.nbufs), Unwritten(s)[i]);
    }
  }

  lemma QueueSubmit(s: Ring, length: nat)
    requires Inv(s) && Enabled(s, Submit(length)) && Shape(Step(s, Submit(length)))
    ensures Queue(Step(s, Submit(length)))
  {
    hide Contents, Control, WakeupPending, Flatten, Holding;
    HoldingSnoc(s.io.banks, s.io.lengths, Base(s), Unwritten(s), length);
    assert Unwritten(Step(s, Submit(length))) == Unwritten(s) + [s.io.banks[s.io.writePtr][..length]];
  }

  lemma QueueWrite(s: Ring, a: Action)
    requires Inv(s) && Enabled(s, a) && Shape(Step(s, a)) && (a.TWrite? || a.TFail?)
    ensures Queue(Step(s, a))
  {
    hide Contents, Control, WakeupPending, Flatten, Holds;
    HoldingDrop(s.io.banks, s.io.lengths, Base(s), Unwritten(s), 1);
    assert Unwritten(Step(s, a)) == Unwritten(s)[1..];
  }

  lemma QueueRest(s: Ring, a: Action)
    requires Inv(s) && Enabled(s, a) && Shape(Step(s, a)) && !a.Store? && !a.Submit? && !a.TWrite? && !a.TFail?
    ensures Queue(Step(s, a))
  {
    hide Contents, Control, WakeupPending, Flatten, Holding;
    assert Unwritten(Step(s, a)) == Unwritten(s);
  }

  /** Every step of either thread keeps the invariant. */
  lemma StepInv(s: Ring, a: Action)
    requires Inv(s) && Enabled(s, a)
    ensures Inv(Step(s, a))
  {
    hide Shape, Tokens, Queue, Contents, Control, WakeupPending, Step, Enabled;
    ShapeStep(s, a);
    ControlStep(s, a);
    ContentsStep(s, a);
    match a
    case Store(data) => QueueStore(s, data);
    case Submit(length) => QueueSubmit(s, length);
    case TWrite => QueueWrite(s, a);
    case TFail(_) => QueueWrite(s, a);
    case _ => QueueRest(s, a);
  }

  lemma {:induction false} RunInv(s: Ring, schedule: seq<Action>)
    requires Inv(s) && Run(s, schedule).Reached?
    ensures Inv(Run(s, schedule).s)
    decreases |schedule|
  {
    hide Inv, Step, Enabled;
    if |schedule| > 0 {
      StepInv(s, schedule[0]);
      RunInv(Step(s, schedule[0]), schedule[1..]);
    }
  }

  ghost predicate Reachable(t: Ring) {
    exists nbufs, banks, lengths, schedule ::
      InitOk(nbufs, banks, lengths) && Run(Init(nbufs, banks, lengths), schedule) == Reached(t)
  }

  lemma ReachableInv(t: Ring)
    requires Reachable(t)
    ensures Inv(t)
  {
    hide Inv, Step, Enabled;
    var nbufs, banks, lengths, schedule :|
      InitOk(nbufs, banks, lengths) && Run(Init(nbufs, banks, lengths), schedule) == Reached(t);
    InitInv(nbufs, banks, lengths);
    RunInv(Init(nbufs, banks, lengths), schedule);
  }

  /** Every bank token is always somewhere, a failed write notwithstanding. */
  lemma TokensConserved(t: Ring)
    requires Reachable(t) && t.p.Idle?
    ensures t.k.free + t.k.filled + (if t.t.pc.Transfer? || t.t.pc.Give? then 1 else 0) == t.io.nbufs
  {
    ReachableInv(t);
  }

  /** At every moment the file is what the writes have kept of the submitted blocks, in submission order. */
  lemma FileIsInSubmissionOrder(t: Ring)
    requires Reachable(t)
    ensures |t.h.kept| <= |t.h.submitted|
    ensures t.h.file == Flatten(Kept(t.h.submitted, t.h.kept))
  {
    ReachableInv(t);
  }

  /** While the thread sleeps with its event not set, and no signal is under way, no filled bank waits. */
  lemma EventIsEnough(t: Ring)
    requires Reachable(t) && t.t.pc.Sleep? && !t.k.event && (t.p.Idle? || t.p.Fill? || t.p.Signal?)
    ensures t.k.filled == 0
  {
    ReachableInv(t);
  }

  function ThreadAction(pc: ThreadPc): Action {
    match pc
    case Sleep => TWake
    case Dispatch => TDispatch
    case Poll(_) => TPoll
    case Transfer(_) => TWrite
    case Give(_) => TGive
    case Ack => TAck
    case Exited => TAck
  }

  lemma ThreadCanMove(s: Ring)
    requires Inv(s) && !s.t.pc.Exited? && (s.t.pc.Sleep? ==> s.k.event)
    ensures Enabled(s, ThreadAction(s.t.pc))
  {
    hide Contents, Control, Tokens, Flatten;
    if s.t.pc.Transfer? {
      assert Holds(s.io.banks, s.io.lengths, Slot(Base(s), 0, s.io.nbufs), Unwritten(s)[0]);
    }
  }

  /** Whenever the producer waits, for a bank or for the acknowledgement, the thread can move or the wait is over. */
  lemma WaitingProducerIsServed(t: Ring)
    requires Reachable(t) && (t.p.Idle? || t.p.WaitAck?)
    ensures Enabled(t, if t.p.Idle? then Acquire else TakeAck) || Enabled(t, ThreadAction(t.t.pc))
  {
    hide Contents, Queue, Flatten, Enabled;
    ReachableInv(t);
    if !t.t.pc.Exited? && (t.t.pc.Sleep? ==> t.k.event) {
      ThreadCanMove(t);
    } else {
      IdleOrDone(t);
    }
  }

  lemma IdleOrDone(s: Ring)
    requires Inv(s) && (s.p.Idle? || s.p.WaitAck?) && (s.t.pc.Exited? || (s.t.pc.Sleep? && !s.k.event))
    ensures Enabled(s, if s.p.Idle? then Acquire else TakeAck)
  {
    hide Contents, Queue, Flatten;
  }

  /** Every write so far has kept its whole block. */
  predicate Whole(s: Ring) {
    |s.h.kept| <= |s.h.submitted| && forall i :: 0 <= i < |s.h.kept| ==> s.h.kept[i] == |s.h.submitted[i]|
  }

  lemma {:induction false} KeptLength(submitted: seq<seq<Byte>>, kept: seq<nat>)
    requires |kept| <= |submitted| && forall i :: 0 <= i < |kept| ==> kept[i] <= |submitted[i]|
    ensures |Flatten(Kept(submitted, kept))| <= |Flatten(submitted[..|kept|])|
    ensures |Flatten(Kept(submitted, kept))| == |Flatten(submitted[..|kept|])|
            ==> forall i :: 0 <= i < |kept| ==> kept[i] == |submitted[i]|
  {
    if |kept| > 0 {
      var m := |kept| - 1;
      KeptLength(submitted, kept[..m]);
      assert kept == kept[..m] + [kept[m]];
      KeptSnoc(submitted, kept[..m], kept[m]);
      assert submitted[..|kept|] == submitted[..m] + [submitted[m]];
      FlattenSnoc(submitted[..m], submitted[m]);
    }
  }

  /** After IOEndWrite every submitted block has been given to writeFile, and the file is complete, or else shorter. */
  lemma DoneMeansWholeOrCut(t: Ring)
    requires Inv(t) && t.p.Done?
    ensures |t.h.kept| == |t.h.submitted|
    ensures if Whole(t) then t.h.file == Flatten(t.h.submitted) else |t.h.file| < |Flatten(t.h.submitted)|
  {
    hide Flatten, Holding;
    KeptLength(t.h.submitted, t.h.kept);
    assert t.h.submitted[..|t.h.kept|] == t.h.submitted;
    if Whole(t) {
      forall i | 0 <= i < |t.h.kept| ensures Kept(t.h.submitted, t.h.kept)[i] == t.h.submitted[i] {
        assert t.h.submitted[i][..t.h.kept[i]] == t.h.submitted[i];
      }
      assert Kept(t.h.submitted, t.h.kept) == t.h.submitted;
    }
  }

  lemma WholeStep(s: Ring, a: Action)
    requires Inv(s) && Enabled(s, a)
    ensures Whole(Step(s, a)) <==> Whole(s) && !a.TFail?
  {
    hide Control, WakeupPending, Tokens, Flatten;
    if a.TWrite? || a.TFail? {
      assert Holds(s.io.banks, s.io.lengths, Slot(Base(s), 0, s.io.nbufs), Unwritten(s)[0]);
      assert Step(s, a).h.kept[..|s.h.kept|] == s.h.kept;
      assert Whole(Step(s, a)) ==> forall i :: 0 <= i < |s.h.kept| ==> s.h.kept[i] == Step(s, a).h.kept[i];
    }
  }

  predicate NoWriteFails(schedule: seq<Action>) {
    forall i :: 0 <= i < |schedule| ==> !schedule[i].TFail?
  }

  lemma {:induction false} WholeRun(s: Ring, schedule: seq<Action>)
    requires Inv(s) && Run(s, schedule).Reached?
    ensures Whole(Run(s, schedule).s) <==> Whole(s) && NoWriteFails(schedule)
    decreases |schedule|
  {
    hide Inv, Step, Enabled, Whole;
    if |schedule| > 0 {
      StepInv(s, schedule[0]);
      WholeStep(s, schedule[0]);
      WholeRun(Step(s, schedule[0]), schedule[1..]);
      assert schedule == [schedule[0]] + schedule[1..];
    }
  }

  /** IOEndWrite reports OK in every run, and the file is complete exactly in the runs in which no write failed. */
  lemma CompleteIffNoWriteFailed(nbufs: nat, banks: seq<seq<Byte>>, lengths: seq<nat>, schedule: seq<Action>, t: Ring)
    requires InitOk(nbufs, banks, lengths) && Run(Init(nbufs, banks, lengths), schedule) == Reached(t) && t.p.Done?
    ensures !t.io.error
    ensures t.h.file == Flatten(t.h.submitted) <==> NoWriteFails(schedule)
  {
    hide Step, Enabled, Contents, Queue, Flatten, Tokens, NoWriteFails;
    var s := Init(nbufs, banks, lengths);
    InitInv(nbufs, banks, lengths);
    RunInv(s, schedule);
    WholeRun(s, schedule);
    DoneMeansWholeOrCut(t);
  }

  /** IOGetStatus never tells of an error either. */
  lemma StateIsAlwaysOk(t: Ring)
    requires Reachable(t)
    ensures !t.io.error
  {
    ReachableInv(t);
  }

  // ---------------------------------------------------------------- the bytes do not matter

  /** Two rings that differ in the contents of banks and blocks only. */
  predicate Alike(s: Ring, t: Ring) {
    && t.k == s.k && t.p == s.p && t.t == s.t && t.h.kept == s.h.kept
    && t.io == s.io.(banks := t.io.banks) && AlikeBlocks(s.io.banks, t.io.banks)
    && AlikeBlocks(s.h.submitted, t.h.submitted)
  }

  predicate AlikeAction(a: Action, b: Action) {
    a == b || (a.Store? && b.Store? && |a.data| == |b.data|)
  }

  predicate AlikeRuns(a: seq<Action>, b: seq<Action>) {
    |a| == |b| && forall i :: 0 <= i < |a| ==> AlikeAction(a[i], b[i])
  }

  lemma AlikeFilling(s: Ring, t: Ring, a: Action, b: Action)
    requires Alike(s, t) && AlikeAction(a, b) && Enabled(s, a) && Fills(a)
    ensures Enabled(t, b) && Alike(Step(s, a), Step(t, b))
  {
    hide Flatten;
  }

  lemma AlikeRest(s: Ring, t: Ring, a: Action)
    requires Alike(s, t) && Enabled(s, a) && !Fills(a)
    ensures Enabled(t, a) && Alike(Step(s, a), Step(t, a))
  {
    hide Flatten;
  }

  lemma AlikeStep(s: Ring, t: Ring, a: Action, b: Action)
    requires Alike(s, t) && AlikeAction(a, b) && Enabled(s, a)
    ensures Enabled(t, b) && Alike(Step(s, a), Step(t, b))
  {
    hide Alike, Enabled, Step;
    if Fills(a) {
      AlikeFilling(s, t, a, b);
    } else {
      AlikeRest(s, t, a);
    }
  }

  /** What the threads can do does not depend on the data. */
  lemma {:induction false} AlikeRun(s: Ring, t: Ring, a: seq<Action>, b: seq<Action>)
    requires Alike(s, t) && AlikeRuns(a, b) && Run(s, a).Reached?
    ensures Run(t, b).Reached? && Alike(Run(s, a).s, Run(t, b).s)
    decreases |a|
  {
    hide Alike, Step, Enabled;
    if |a| > 0 {
      AlikeStep(s, t, a[0], b[0]);
      AlikeRun(Step(s, a[0]), Step(t, b[0]), a[1..], b[1..]);
    }
  }

  // ---------------------------------------------------------------- what the producer puts in

  /** The banks, the next one to be filled, and the blocks submitted: only the producer changes them. */
  datatype Filler = Filler(banks: seq<seq<Byte>>, writePtr: nat, submitted: seq<seq<Byte>>)

  function Filling(s: Ring): Filler {
    Filler(s.io.banks, s.io.writePtr, s.h.submitted)
  }

  predicate Fills(a: Action) {
    a.Store? || a.Submit?
  }

  function FilledBy(m: Filler, nbufs: nat, a: Action): Filler {
    match a
    case Store(data) =>
      if m.writePtr < |m.banks| && |data| <= |m.banks[m.writePtr]|
      then m.(banks := m.banks[m.writePtr := Patch(m.banks[m.writePtr], 0, data)]) else m
    case Submit(length) =>
      if m.writePtr < |m.banks| && length <= |m.banks[m.writePtr]|
      then m.(writePtr := Slot(m.writePtr, 1, nbufs), submitted := m.submitted + [m.banks[m.writePtr][..length]]) else m
    case _ => m
  }

  function FilledByAll(m: Filler, nbufs: nat, actions: seq<Action>): Filler {
    if |actions| == 0 then m
    else FilledBy(FilledByAll(m, nbufs, actions[..|actions| - 1]), nbufs, actions[|actions| - 1])
  }

  lemma {:induction false} FilledByConcat(m: Filler, nbufs: nat, a: seq<Action>, b: seq<Action>)
    ensures FilledByAll(m, nbufs, a + b) == FilledByAll(FilledByAll(m, nbufs, a), nbufs, b)
  {
    if |b| == 0 {
      assert a + b == a;
    } else {
      assert (a + b)[..|a + b| - 1] == a + b[..|b| - 1];
      FilledByConcat(m, nbufs, a, b[..|b| - 1]);
    }
  }

  /** The producer's calls among the steps of a run. */
  function Calls(schedule: seq<Action>): seq<Action> {
    if |schedule| == 0 then [] else (if Fills(schedule[0]) then [schedule[0]] else []) + Calls(schedule[1..])
  }

  lemma FillingStep(s: Ring, a: Action)
    requires Enabled(s, a)
    ensures Filling(Step(s, a)) == FilledBy(Filling(s), s.io.nbufs, a) && Step(s, a).io.nbufs == s.io.nbufs
    ensures !Fills(a) ==> FilledBy(Filling(s), s.io.nbufs, a) == Filling(s)
  {
  }

  lemma FilledByOne(m: Filler, nbufs: nat, a: Action)
    ensures FilledByAll(m, nbufs, [a]) == FilledBy(m, nbufs, a) && FilledByAll(m, nbufs, []) == m
  {
    assert [a][..0] == [];
  }

  /** Whatever the I/O thread does in between, banks and blocks are what the producer's calls make of them. */
  lemma {:induction false} FillingIsByCalls(s: Ring, schedule: seq<Action>)
    requires Run(s, schedule).Reached?
    ensures Filling(Run(s, schedule).s) == FilledByAll(Filling(s), s.io.nbufs, Calls(schedule))
    decreases |schedule|
  {
    hide Step, Enabled, FilledBy, Filling;
    if |schedule| > 0 {
      var a := schedule[0];
      FillingStep(s, a);
      FillingIsByCalls(Step(s, a), schedule[1..]);
      FilledByOne(Filling(s), s.io.nbufs, a);
      FilledByConcat(Filling(s), s.io.nbufs, if Fills(a) then [a] else [], Calls(schedule[1..]));
    }
  }

  // ---------------------------------------------------------------- a failure that goes unseen

  lemma Go(start: Ring, log: seq<Action>, t: Ring, a: Action) returns (log': seq<Action>, t': Ring)
    requires Run(start, log) == Reached(t) && Enabled(t, a)
    ensures t' == Step(t, a) && Run(start, log') == Reached(t')
  {
    RunSnoc(start, log, a);
    log', t' := log + [a], Step(t, a);
  }

  lemma {:induction false} RunSnoc(s: Ring, schedule: seq<Action>, a: Action)
    requires Run(s, schedule).Reached? && Enabled(Run(s, schedule).s, a)
    ensures Run(s, schedule + [a]) == Reached(Step(Run(s, schedule).s, a))
    decreases |schedule|
  {
    hide Step, Enabled;
    if |schedule| == 0 {
      assert schedule + [a] == [a] && [a][1..] == [];
      assert Run(Step(s, a), []) == Reached(Step(s, a));
    } else {
      assert (schedule + [a])[1..] == schedule[1..] + [a];
      RunSnoc(Step(s, schedule[0]), schedule[1..], a);
    }
  }

  lemma RunNothing(s: Ring)
    ensures Run(s, []) == Reached(s)
  {
  }

  /** One block has come in, and the thread has been told. */
  lemma OneBlockIn(block: seq<Byte>) returns (log: seq<Action>, t: Ring)
    ensures Run(Init(1, [block], [0]), log) == Reached(t)
    ensures t == Ring(IOState(1, [block], [|block|], 0, 0, CmdWrite, false), Kernel(0, 1, true, false), Idle,
                      Thread(Sleep, 0), History([block], [], []))
  {
    hide Run;
    var start := Init(1, [block], [0]);
    RunNothing(start);
    log, t := Go(start, [], start, Acquire);
    log, t := Go(start, log, t, Submit(|block|));
    assert block[..|block|] == block;
    assert t.h.submitted == [block] && t.io.lengths == [|block|];
    log, t := Go(start, log, t, SignalOut);
    log, t := Go(start, log, t, PutCommand);
    log, t := Go(start, log, t, SetEvent);
  }

  /** The write of that block fails and nobody hears of it: IOEndWrite returns OK, and the file is empty. */
  lemma FailureGoesUnseen(block: seq<Byte>) returns (t: Ring)
    requires |block| > 0
    ensures Reachable(t) && t.p.Done? && !t.io.error && t.h.submitted == [block] && t.h.file == []
  {
    hide Run;
    var start, log := Init(1, [block], [0]), [];
    log, t := OneBlockIn(block);
    log, t := Go(start, log, t, TWake);
    log, t := Go(start, log, t, TDispatch);
    log, t := Go(start, log, t, TPoll);
    log, t := Go(start, log, t, TFail(0));
    log, t := Go(start, log, t, TGive);
    log, t := Go(start, log, t, TPoll);
    log, t := EndsOk(start, log, t);
    assert InitOk(1, [block], [0]);
  }

  /** A thread that has nothing to do acknowledges the end. */
  lemma EndsOk(start: Ring, log: seq<Action>, s: Ring) returns (log': seq<Action>, t: Ring)
    requires Run(start, log) == Reached(s)
    requires s.p.Idle? && s.t.pc.Sleep? && !s.k.event && !s.k.ack && s.k.filled == 0 && s.t.result >= 0
    ensures Run(start, log') == Reached(t) && t.p.Done? && t.h == s.h && t.io.error == s.io.error
  {
    hide Run;
    log', t := Go(start, log, s, Finish);
    log', t := Go(start, log', t, PutEndCommand);
    log', t := Go(start, log', t, SetEventForEnd);
    log', t := Go(start, log', t, TWake);
    log', t := Go(start, log', t, TDispatch);
    log', t := Go(start, log', t, TPoll);
    log', t := Go(start, log', t, TAck);
    log', t := Go(start, log', t, TakeAck);
  }
}
