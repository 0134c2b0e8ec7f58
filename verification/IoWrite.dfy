/**
 io.c as it is written: the functions of the write side, each run by one thread while the other thread may
 take any number of steps between two of its accesses to shared state.
 */
module IoWrite {
  import opened Common
  import opened Banks
  import opened Logs
  import opened WriteRing
  import opened WriteLive

  /** ReceiveData's steps. */
  function Receives(pieces: seq<seq<Byte>>): seq<Action> {
    if |pieces| == 0 then [] else Receives(pieces[..|pieces| - 1]) + [Receive(pieces[|pieces| - 1])]
  }

  lemma ReceivesSnoc(pieces: seq<seq<Byte>>, data: seq<Byte>)
    ensures Receives(pieces + [data]) == Receives(pieces) + [Receive(data)]
  {
    assert (pieces + [data])[..|pieces|] == pieces;
  }

  /** The pieces are what the recvs from number `from` on brought, none of them nothing. */
  ghost predicate Brought(network: nat -> seq<Byte>, from: nat, pieces: seq<seq<Byte>>) {
    forall i :: 0 <= i < |pieces| ==> 0 < |pieces[i]| && pieces[i] <= network(from + i)
  }

  lemma BroughtSnoc(network: nat -> seq<Byte>, from: nat, pieces: seq<seq<Byte>>, data: seq<Byte>)
    requires Brought(network, from, pieces) && 0 < |data| && data <= network(from + |pieces|)
    ensures Brought(network, from, pieces + [data])
  {
  }

  lemma NothingBrought(network: nat -> seq<Byte>, from: nat)
    ensures Brought(network, from, []) && Receives([]) == []
  {
  }

  /** The device has refused these transfers. */
  ghost predicate Refused(device: nat -> int, from: nat, to: nat) {
    forall i :: from <= i < to ==> device(i) < 0
  }

  lemma RefusedMore(device: nat -> int, from: nat, to: nat)
    requires Refused(device, from, to) && device(to) < 0
    ensures Refused(device, from, to + 1)
  {
  }

  lemma NoneRefused(device: nat -> int, from: nat)
    ensures Refused(device, from, from)
  {
  }

  /** What follows the first bank of a transfer: `n` banks are claimed, and the transfer is repeated `r` times. */
  function Merged(n: nat, r: nat): seq<Action> {
    Repeat(TMerge, n) + Repeat(TRetry, r)
  }

  /** When it succeeds the banks, `c` of them, are written and given back. */
  function Finished(c: nat): seq<Action> {
    [TWrite, TAdvance] + Repeat(TGive, c + 1)
  }

  /** One more step, taken where the run has come to. */
  lemma Took(start: Ring, log: seq<Action>, t: Ring, a: Action)
    requires Inv(t) && Run(start, log) == Reached(t) && Enabled(t, a)
    ensures Inv(Step(t, a)) && Run(start, log + [a]) == Reached(Step(t, a))
    ensures a.TRetry? || Work(Step(t, a)) < Work(t)
    ensures Steps(log + [a], ByThread, true) == Steps(log, ByThread, true) + if ByThread(a) then [a] else []
    ensures Steps(log + [a], ByThread, false) == Steps(log, ByThread, false) + if ByThread(a) then [] else [a]
  {
    hide Step, Enabled, Inv, Work, Run, Steps;
    StepInv(t, a);
    InvMeansCore(t);
    RunSnoc(start, log, a);
    StepsSnoc(log, ByThread, true, a);
    StepsSnoc(log, ByThread, false, a);
    if ByThread(a) {
      ThreadStepWorks(t, a);
    } else {
      ProducerStepWorks(t, a);
    }
  }

  /** What each state of the machine is about to do is possible there. */
  lemma NextIsPossible(s: Ring)
    requires Inv(s)
    ensures 0 <= Work(s)
    ensures s.p.pc.Fill? ==> forall data :: 0 < |data| <= 2048 * s.p.len - s.p.got ==> Enabled(s, Receive(data))
    ensures s.p.pc.Fill? ==> s.p.got <= 2048 * s.p.len && (s.p.got == 2048 * s.p.len ==> Enabled(s, Submit))
    ensures s.t.pc.First? ==> Enabled(s, TFirst)
    ensures s.t.pc.Merge? ==> Enabled(s, TMerge)
    ensures s.t.pc.Transfer? ==> Enabled(s, TWrite)
    ensures s.t.pc.Advance? ==> Enabled(s, TAdvance)
  {
    hide Work, Holding, Contents, Flatten;
    WorkIsNat(s);
    if s.t.pc.Transfer? {
      MergedTransfer(s);
    }
  }

  /** A step of the I/O thread leaves WriteGame's variables and what was received and submitted alone. */
  lemma ThreadStepKeeps(s: Ring, a: Action)
    requires Enabled(s, a) && ByThread(a)
    ensures Step(s, a).p == s.p && Step(s, a).h.received == s.h.received && Step(s, a).h.submitted == s.h.submitted
  {
  }

  /** A step of the producer leaves the I/O thread's variables and the file alone. */
  lemma ProducerStepKeeps(s: Ring, a: Action)
    requires Enabled(s, a) && !ByThread(a)
    ensures Step(s, a).t == s.t && Step(s, a).h.writes == s.h.writes && Step(s, a).io.error == s.io.error
  {
  }

  /** So does any run of the I/O thread; and it only does work that was there to do. */
  lemma {:induction false} ThreadKeepsProducer(s: Ring, schedule: seq<Action>)
    requires Inv(s) && Run(s, schedule).Reached?
    requires forall i :: 0 <= i < |schedule| ==> ByThread(schedule[i])
    ensures var t := Run(s, schedule).s;
            Inv(t) && t.p == s.p && t.h.received == s.h.received && t.h.submitted == s.h.submitted && Work(t) <= Work(s)
    decreases |schedule|
  {
    if |schedule| > 0 {
      hide Inv, Step, Enabled, Work, ByThread;
      StepInv(s, schedule[0]);
      ThreadStepKeeps(s, schedule[0]);
      ThreadStepWorks(s, schedule[0]);
      ThreadKeepsProducer(Step(s, schedule[0]), schedule[1..]);
    }
  }

  lemma {:induction false} ProducerKeepsThread(s: Ring, schedule: seq<Action>)
    requires Inv(s) && Run(s, schedule).Reached?
    requires forall i :: 0 <= i < |schedule| ==> !ByThread(schedule[i])
    ensures var t := Run(s, schedule).s;
            Inv(t) && t.t == s.t && t.h.writes == s.h.writes && t.io.error == s.io.error && Work(t) <= Work(s)
    decreases |schedule|
  {
    if |schedule| > 0 {
      hide Inv, Step, Enabled, Work, ByThread;
      StepInv(s, schedule[0]);
      ProducerStepKeeps(s, schedule[0]);
      ProducerStepWorks(s, schedule[0]);
      ProducerKeepsThread(Step(s, schedule[0]), schedule[1..]);
    }
  }

  /**
   The peer decides what each recv brings, nothing when the connection is gone, and the device what it answers to each
   fileXioWrite, anything but an error number when all is written.
   */
  class Session {
    const network: nat -> seq<Byte>
    const device: nat -> int
    /** How many recvs and how many fileXioWrites have been made. */
    var asked: nat
    var tried: nat
    var io: IOState
    var k: Kernel
    var p: Producer
    var t: Thread
    ghost var h: History
    ghost var log: seq<Action>
    ghost const start: Ring

    ghost function View(): Ring
      reads this
    {
      Ring(io, k, p, t, h)
    }

    /** `log` is the run of the machine that has led here. */
    ghost predicate Valid()
      reads this
    {
      && Inv(View()) && Run(start, log) == Reached(View())
      && HeardOf(asked, p.result) && ToldOf(tried, t.pc, io.error)
    }

    /** The connection counts as lost exactly when a recv has brought nothing. */
    ghost predicate HeardOf(asked: nat, result: int) {
      if result == -EPIPE then 0 < asked && network(asked - 1) == [] && NoneEmpty(asked - 1) else NoneEmpty(asked)
    }

    ghost predicate NoneEmpty(n: nat) {
      forall i :: 0 <= i < n ==> network(i) != []
    }

    /** The thread has met an error exactly when the device's last answer was -EIO. */
    ghost predicate ToldOf(tried: nat, pc: ThreadPc, error: bool) {
      && (0 < tried ==> NoneFatal(tried - 1))
      && (!pc.Transfer? ==> (error <==> 0 < tried && device(tried - 1) == -EIO))
    }

    ghost predicate NoneFatal(n: nat) {
      forall i :: 0 <= i < n ==> device(i) != -EIO
    }

    /** The device's last answer was -EIO; or all was written; or some other error. */
    predicate Failed()
      reads this
    {
      0 < tried && device(tried - 1) == -EIO
    }

    predicate Succeeded()
      reads this
    {
      0 < tried && 0 <= device(tried - 1)
    }

    predicate Unsettled()
      reads this
    {
      0 < tried && device(tried - 1) < 0 && device(tried - 1) != -EIO
    }

    /** The steps one side has made so far, in order. */
    ghost function Made(thread: bool): seq<Action>
      reads this
    {
      Steps(log, ByThread, thread)
    }

    /** IOWriteInit. */
    constructor IOWriteInit(nbufs: nat, bufmax: nat, banks: seq<seq<Byte>>, lengths: seq<nat>, sectors: nat,
                            network: nat -> seq<Byte>, device: nat -> int)
      requires InitOk(nbufs, bufmax, banks, lengths)
      ensures Valid() && start == View() == Init(nbufs, bufmax, banks, lengths, sectors)
      ensures this.network == network && this.device == device && asked == tried == 0
    {
      InitInv(nbufs, bufmax, banks, lengths, sectors);
      this.network, this.device := network, device;
      asked, tried := 0, 0;
      io := IOState(nbufs, bufmax, banks, lengths, 0, 0, CmdNone, false);
      k := Kernel(nbufs, 0, 0, 0);
      p := Producer(Loop, sectors, 0, 0, 0, false);
      t := Thread(Sleep, 0, 0, 0);
      h := History(sectors, [], [], 0, []);
      log := [];
      start := Init(nbufs, bufmax, banks, lengths, sectors);
    }

    /** The I/O thread runs while the producer is between two accesses to shared state: callers know no more of it. */
    method ThreadRuns()
      requires Valid()
      modifies this
      ensures Valid() && Extends(old(log), log, ByThread, true) && Made(false) == old(Made(false))
      ensures p == old(p) && Work(View()) <= old(Work(View()))
      ensures h.received == old(h.received) && h.submitted == old(h.submitted) && asked == old(asked)
    {
    }

    /** The producer runs while the I/O thread is between two accesses to shared state. */
    method ProducerRuns()
      requires Valid()
      modifies this
      ensures Valid() && Extends(old(log), log, ByThread, false) && Made(true) == old(Made(true))
      ensures t == old(t) && h.writes == old(h.writes) && io.error == old(io.error) && Work(View()) <= old(Work(View()))
      ensures tried == old(tried)
    {
    }

    // ---------------------------------------------------------------- the producer's functions

    /** IOGetNextWrBuffer: `blocked` when no bank is free at the moment. */
    method IOGetNextWrBuffer() returns (blocked: bool)
      requires Valid() && p.pc.Loop? && p.remaining > 0
      modifies this
      ensures Valid() && Work(View()) <= old(Work(View()))
      ensures if blocked then p == old(p) && k.free == 0 else p.pc.Fill?
      ensures Made(false) == old(Made(false)) + if blocked then [] else [Acquire]
    {
      hide ToldOf, HeardOf, Inv, Work, Run, Steps;
      ThreadRuns();
      blocked := k.free == 0;
      if !blocked {
        Took(start, log, View(), Acquire);
        log := log + [Acquire];
        k := k.(free := k.free - 1);
        p := p.(pc := Fill, holding := true, got := 0,
                len := if p.remaining > io.bufmax then io.bufmax else p.remaining);
      }
    }

    /** What the next recv on the data connection brings, of at most `max` bytes. */
    function Recv(max: nat): (data: seq<Byte>)
      reads this
      ensures |data| <= max
    {
      if |network(asked)| <= max then network(asked) else network(asked)[..max]
    }

    lemma HeardMore(max: nat)
      requires HeardOf(asked, 0) && Recv(max) != []
      ensures HeardOf(asked + 1, 0)
    {
    }

    /** What one recv brings goes behind what the bank has already. */
    method StoreReceived(data: seq<Byte>)
      requires Valid() && p.pc.Fill? && 0 < |data| <= 2048 * p.len - p.got && data == Recv(2048 * p.len - p.got)
      modifies this
      ensures Valid() && Work(View()) < old(Work(View())) && p == old(p).(got := old(p.got) + |data|)
      ensures Made(false) == old(Made(false)) + [Receive(data)] && asked == old(asked) + 1
    {
      hide ToldOf, HeardOf, Inv, Work, Run, Steps, Patch, Recv;
      NextIsPossible(View());
      NoResultYet(View());
      HeardMore(2048 * p.len - p.got);
      Took(start, log, View(), Receive(data));
      log, asked := log + [Receive(data)], asked + 1;
      io := io.(banks := io.banks[io.writePtr := Patch(io.banks[io.writePtr], p.got, data)]);
      p := p.(got := p.got + |data|);
      h := h.(received := h.received + data);
    }

    /** A recv brings nothing: the connection is gone. */
    method LoseConnection()
      requires Valid() && p.pc.Fill? && p.got < 2048 * p.len && Recv(2048 * p.len - p.got) == []
      modifies this
      ensures Valid() && Work(View()) < old(Work(View())) && p.pc.EndCommand? && p.result == -EPIPE
      ensures Made(false) == old(Made(false)) + [ReceiveFail] && asked == old(asked) + 1
      ensures network(asked - 1) == []
    {
      hide ToldOf, Inv, Work, Run, Steps;
      NoResultYet(View());
      Took(start, log, View(), ReceiveFail);
      log, asked := log + [ReceiveFail], asked + 1;
      p := p.(pc := EndCommand, result := -EPIPE);
    }

    /** One recv, and what is made of it. */
    method ReceiveOnce() returns (data: seq<Byte>)
      requires Valid() && p.pc.Fill? && p.got < 2048 * p.len
      modifies this
      ensures Valid() && Work(View()) < old(Work(View())) && asked == old(asked) + 1
      ensures data <= network(asked - 1) && (data == [] ==> network(asked - 1) == [])
      ensures if data == [] then p.pc.EndCommand? && p.result == -EPIPE else p.pc.Fill? && p.got <= 2048 * p.len
      ensures Made(false) == old(Made(false)) + [if data == [] then ReceiveFail else Receive(data)]
    {
      hide ToldOf, HeardOf, Inv, Work, Run, Steps, Step, Enabled;
      ThreadRuns();
      data := Recv(2048 * p.len - p.got);
      if |data| == 0 {
        LoseConnection();
      } else {
        StoreReceived(data);
      }
    }

    /** ReceiveData into the bank just taken: it is given up exactly when a recv brings nothing. */
    method ReceiveData() returns (ok: bool, ghost pieces: seq<seq<Byte>>)
      requires Valid() && p.pc.Fill?
      modifies this
      ensures Valid() && Work(View()) <= old(Work(View()))
      ensures if ok then p.pc.Fill? && p.got == 2048 * p.len else p.pc.EndCommand? && p.result == -EPIPE
      ensures Made(false) == old(Made(false)) + Receives(pieces) + if ok then [] else [ReceiveFail]
      ensures asked == old(asked) + |pieces| + if ok then 0 else 1
      ensures Brought(network, old(asked), pieces) && (!ok ==> network(asked - 1) == [])
    {
      hide ToldOf, HeardOf, Inv, Work, Run, Steps, Step, Enabled, Brought, Receives;
      NextIsPossible(View());
      NothingBrought(network, asked);
      pieces := [];
      while p.got < 2048 * p.len
        invariant Valid() && Work(View()) <= old(Work(View()))
        invariant p.pc.Fill? && p.got <= 2048 * p.len && 0 <= Work(View())
        invariant Made(false) == old(Made(false)) + Receives(pieces)
        invariant asked == old(asked) + |pieces| && Brought(network, old(asked), pieces)
        decreases Work(View())
      {
        var data := ReceiveOnce();
        if data == [] {
          return false, pieces;
        }
        ReceivesSnoc(pieces, data);
        BroughtSnoc(network, old(asked), pieces, data);
        pieces := pieces + [data];
        NextIsPossible(View());
      }
      ok := true;
    }

    /** IOSignalWriteDone. */
    method IOSignalWriteDone()
      requires Valid() && p.pc.Fill? && p.got == 2048 * p.len
      modifies this
      ensures Valid() && Work(View()) < old(Work(View())) && p.pc.CheckStatus?
      ensures Made(false) == old(Made(false)) + [Submit, SignalOut, PutCommand, WakeThread]
    {
      hide ToldOf, HeardOf, Inv, Work, Run, Steps;
      NextIsPossible(View());
      Took(start, log, View(), Submit);
      log := log + [Submit];
      h := h.(submitted := h.submitted + [io.banks[io.writePtr][..2048 * p.len]]);
      io := io.(lengths := io.lengths[io.writePtr := 2048 * p.len], writePtr := Slot(io.writePtr, 1, io.nbufs));
      p := p.(pc := Signal);
      ThreadRuns();
      SignalOutBuf();
      IOExecWrite();
    }

    /** SignalSema on outBufSema. */
    method SignalOutBuf()
      requires Valid() && p.pc.Signal?
      modifies this
      ensures Valid() && Work(View()) < old(Work(View())) && p.pc.SetCommand?
      ensures Made(false) == old(Made(false)) + [SignalOut]
    {
      hide ToldOf, HeardOf, Inv, Work, Run, Steps;
      Took(start, log, View(), SignalOut);
      log := log + [SignalOut];
      k := k.(filled := k.filled + 1);
      p := p.(pc := SetCommand, holding := false);
    }

    /** WakeupThread after the command has been set. */
    method WakeIOThread()
      requires Valid() && p.pc.Wake?
      modifies this
      ensures Valid() && Work(View()) < old(Work(View())) && p.pc.CheckStatus?
      ensures Made(false) == old(Made(false)) + [WakeThread]
    {
      hide ToldOf, HeardOf, Inv, Work, Run, Steps;
      Took(start, log, View(), WakeThread);
      log := log + [WakeThread];
      k := k.(wakeups := k.wakeups + 1);
      p := p.(pc := CheckStatus);
    }

    /** IOExec with IO_THREAD_CMD_WRITE. */
    method IOExecWrite()
      requires Valid() && p.pc.SetCommand?
      modifies this
      ensures Valid() && Work(View()) < old(Work(View())) && p.pc.CheckStatus?
      ensures Made(false) == old(Made(false)) + [PutCommand, WakeThread]
    {
      hide ToldOf, HeardOf, Inv, Work, Run, Steps;
      ThreadRuns();
      Took(start, log, View(), PutCommand);
      log := log + [PutCommand];
      io := io.(command := CmdWrite);
      p := p.(pc := Wake);
      ThreadRuns();
      WakeIOThread();
    }

    /** IOGetStatus and what WriteGame makes of it. */
    method CheckIOStatus()
      requires Valid() && p.pc.CheckStatus?
      modifies this
      ensures Valid() && Work(View()) < old(Work(View()))
      ensures if io.error then p.pc.EndCommand? && p.result == -EIO else p.pc.Loop?
      ensures Made(false) == old(Made(false)) + [Status]
    {
      hide ToldOf, NoneEmpty, Inv, Work, Run, Steps;
      ThreadRuns();
      NoResultYet(View());
      Took(start, log, View(), Status);
      log := log + [Status];
      if io.error {
        p := p.(pc := EndCommand, result := -EIO);
      } else {
        p := p.(pc := Loop, remaining := p.remaining - Min(p.len, p.remaining));
      }
    }

    /** WriteGame, up to the point where the game is closed; `blocked` when it waits for a bank. */
    method WriteGame() returns (blocked: bool)
      requires Valid() && p.pc.Loop?
      modifies this
      ensures Valid()
      ensures if blocked then p.pc.Loop? && p.remaining > 0 && k.free == 0 else p.pc.EndCommand?
      ensures !blocked && p.result == 0 ==> h.received == Flatten(h.submitted) && |h.received| == 2048 * h.sectors
      ensures blocked ==> h.received == Flatten(h.submitted) && |h.received| == 2048 * (h.sectors - p.remaining)
      ensures Flatten(h.submitted) <= h.received
      ensures p.result == -EPIPE <==> 0 < asked && network(asked - 1) == []
      ensures p.result == 0 || p.result == -EPIPE || (p.result == -EIO && io.error)
    {
      hide ToldOf, Inv, Work, Run, Steps, Step, Flatten;
      blocked := false;
      NoResultYet(View());
      while p.pc.Loop? && p.remaining > 0
        invariant Valid() && (p.pc.Loop? || p.pc.EndCommand?)
        invariant if p.pc.Loop? then p.result == 0 else p.result == -EIO && io.error
        decreases Work(View())
      {
        NextIsPossible(View());
        blocked := IOGetNextWrBuffer();
        if blocked {
          ReceivedIsSubmitted(View());
          return;
        }
        var ok;
        ghost var pieces;
        ok, pieces := ReceiveData();
        if !ok {
          ReceivedIsSubmitted(View());
          return;
        }
        IOSignalWriteDone();
        CheckIOStatus();
        NoResultYet(View());
      }
      if p.pc.Loop? {
        LeaveWriteLoop();
      }
      ReceivedIsSubmitted(View());
    }

    method LeaveWriteLoop()
      requires Valid() && p.pc.Loop? && p.remaining == 0
      modifies this
      ensures Valid() && p.pc.EndCommand? && p.result == old(p.result)
      ensures Made(false) == old(Made(false)) + [LeaveLoop]
    {
      hide ToldOf, HeardOf, Inv, Work, Run, Steps;
      Took(start, log, View(), LeaveLoop);
      log := log + [LeaveLoop];
      p := p.(pc := EndCommand);
    }

    method PutEndCommandInPlace()
      requires Valid() && p.pc.EndCommand?
      modifies this
      ensures Valid() && p == old(p).(pc := EndWake) && Made(false) == old(Made(false)) + [PutEndCommand]
    {
      hide ToldOf, HeardOf, Inv, Work, Run, Steps;
      Took(start, log, View(), PutEndCommand);
      log := log + [PutEndCommand];
      io := io.(command := CmdWriteEnd);
      p := p.(pc := EndWake);
    }

    method WakeIOThreadForEnd()
      requires Valid() && p.pc.EndWake?
      modifies this
      ensures Valid() && p == old(p).(pc := WaitAck) && Made(false) == old(Made(false)) + [WakeForEnd]
    {
      hide ToldOf, HeardOf, Inv, Work, Run, Steps;
      Took(start, log, View(), WakeForEnd);
      log := log + [WakeForEnd];
      k := k.(wakeups := k.wakeups + 1);
      p := p.(pc := WaitAck);
    }

    /** IOEndWrite, up to its wait for the acknowledgement. */
    method IOExecWaitWriteEnd()
      requires Valid() && p.pc.EndCommand?
      modifies this
      ensures Valid() && p == old(p).(pc := WaitAck)
      ensures Made(false) == old(Made(false)) + [PutEndCommand, WakeForEnd]
    {
      hide ToldOf, HeardOf, Inv, Work, Run, Steps, Step, Enabled;
      PutEndCommandInPlace();
      ThreadRuns();
      WakeIOThreadForEnd();
    }

    /** The wait: `blocked` while the acknowledgement has not come; then it can be called again. */
    method AwaitAck() returns (blocked: bool, state: bool)
      requires Valid() && p.pc.WaitAck?
      modifies this
      ensures Valid() && p.result == old(p.result)
      ensures if blocked then p == old(p) && k.ack == 0 else p.pc.Done? && state == io.error
      ensures !blocked && !state ==> File(View()) == Flatten(h.submitted)
      ensures !blocked && !state && p.result == 0 ==> File(View()) == h.received && |h.received| == 2048 * h.sectors
      ensures Made(false) == old(Made(false)) + if blocked then [] else [TakeAck]
    {
      hide ToldOf, HeardOf, Inv, Work, Run, Steps, Flatten;
      ThreadRuns();
      blocked, state := k.ack == 0, io.error;
      if !blocked {
        Took(start, log, View(), TakeAck);
        log := log + [TakeAck];
        k := k.(ack := k.ack - 1);
        p := p.(pc := Done);
        if !state {
          DoneMeansComplete(View());
        }
      }
    }

    /** IOEndWrite. When it returns OK the file is complete. */
    method IOEndWrite() returns (blocked: bool, state: bool)
      requires Valid() && p.pc.EndCommand?
      modifies this
      ensures Valid() && p.result == old(p.result)
      ensures if blocked then p.pc.WaitAck? && k.ack == 0 else p.pc.Done? && state == io.error
      ensures !blocked && !state ==> File(View()) == Flatten(h.submitted)
      ensures !blocked && !state && p.result == 0 ==> File(View()) == h.received && |h.received| == 2048 * h.sectors
      ensures Made(false) == old(Made(false)) + [PutEndCommand, WakeForEnd] + if blocked then [] else [TakeAck]
    {
      hide ToldOf, HeardOf, Inv, Work, Run, Steps, Flatten;
      IOExecWaitWriteEnd();
      blocked, state := AwaitAck();
    }

    // ---------------------------------------------------------------- the I/O thread's functions

    /** PollSema on outBufSema for the first bank of a transfer. */
    method PollFirst(end: bool) returns (taken: bool)
      requires Valid() && t.pc == First(end)
      modifies this
      ensures Valid() && Work(View()) < old(Work(View())) && h.writes == old(h.writes) && io.error == old(io.error)
      ensures t.pc == if taken then Merge(end) else if end then Ack else Sleep
      ensures Made(true) == old(Made(true)) + [TFirst]
      ensures taken ==> t.claimed == 1
      ensures tried == old(tried)
    {
      hide HeardOf, NoneFatal, Inv, Work, Run, Steps;
      ProducerRuns();
      NextIsPossible(View());
      Took(start, log, View(), TFirst);
      log := log + [TFirst];
      taken := k.filled > 0;
      if taken {
        k := k.(filled := k.filled - 1);
        t := t.(pc := Merge(end), claimed := 1, toWrite := io.lengths[io.readPtr]);
      } else {
        t := t.(pc := if end then Ack else Sleep);
      }
    }

    /** One turn of the merging loop: another filled bank behind the claimed ones, or the end of the claim. */
    method MergeOne(end: bool)
      requires Valid() && t.pc == Merge(end)
      modifies this
      ensures Valid() && Work(View()) < old(Work(View())) && h.writes == old(h.writes) && io.error == old(io.error)
      ensures if t.pc == Merge(end) then t.claimed == old(t.claimed) + 1
              else t.pc == Transfer(end) && t.claimed == old(t.claimed)
      ensures t.pc == Transfer(end) ==> k.filled == 0 || io.readPtr + t.claimed == io.nbufs
      ensures Made(true) == old(Made(true)) + [TMerge] && tried == old(tried) && !Failed()
    {
      hide HeardOf, NoneFatal, Inv, Work, Run, Steps;
      ProducerRuns();
      NextIsPossible(View());
      NoErrorYet(View());
      Took(start, log, View(), TMerge);
      log := log + [TMerge];
      var next := io.readPtr + t.claimed;
      if next < io.nbufs && k.filled > 0 {
        k := k.(filled := k.filled - 1);
        t := t.(claimed := t.claimed + 1, toWrite := t.toWrite + io.lengths[next]);
      } else {
        t := t.(pc := Transfer(end));
      }
    }

    /** Claims all the filled banks that follow in memory, without wrapping round the ring. */
    method MergeBanks(end: bool) returns (ghost n: nat)
      requires Valid() && t.pc == Merge(end)
      modifies this
      ensures Valid() && Work(View()) < old(Work(View())) && h.writes == old(h.writes) && io.error == old(io.error)
      ensures t.pc == Transfer(end) && (k.filled == 0 || io.readPtr + t.claimed == io.nbufs)
      ensures Made(true) == old(Made(true)) + Repeat(TMerge, n) && t.claimed + 1 == old(t.claimed) + n
      ensures tried == old(tried) && !Failed()
    {
      hide HeardOf, ToldOf, Inv, Work, Run, Steps, Step, Enabled;
      n := 0;
      while t.pc == Merge(end)
        invariant Valid() && (t.pc == Merge(end) || t.pc == Transfer(end))
        invariant h.writes == old(h.writes) && io.error == old(io.error)
        invariant Work(View()) <= old(Work(View())) && (t.pc == Transfer(end) ==> Work(View()) < old(Work(View())))
        invariant Made(true) == old(Made(true)) + Repeat(TMerge, n)
        invariant t.claimed + (if t.pc == Transfer(end) then 1 else 0) == old(t.claimed) + n
        invariant t.pc == Transfer(end) ==> !Failed() && (k.filled == 0 || io.readPtr + t.claimed == io.nbufs)
        invariant tried == old(tried)
        decreases Work(View())
      {
        NextIsPossible(View());
        MergeOne(end);
        RepeatSnoc(TMerge, n);
        n := n + 1;
      }
    }

    /** The transfer itself, when it succeeds. */
    method WriteOut(end: bool)
      requires Valid() && t.pc == Transfer(end) && Succeeded()
      modifies this
      ensures Valid() && Work(View()) < old(Work(View())) && t.pc == Advance(end)
      ensures t.toWrite == old(t.toWrite) > 0 && t.claimed == old(t.claimed)
      ensures Made(true) == old(Made(true)) + [TWrite] && tried == old(tried)
    {
      hide HeardOf, NoneFatal, Inv, Work, Run, Steps, Flatten;
      NextIsPossible(View());
      NoErrorYet(View());
      TransferIsNotEmpty(View());
      Took(start, log, View(), TWrite);
      log := log + [TWrite];
      h := h.(done := h.done + t.claimed, writes := h.writes + [Flatten(io.banks[io.readPtr..])[..t.toWrite]]);
      t := t.(pc := Advance(end));
    }

    /** The transfer has succeeded: the read pointer moves on, and the banks go back one by one. */
    method FinishTransfer(end: bool)
      requires Valid() && t.pc == Transfer(end) && Succeeded()
      modifies this
      ensures Valid() && Work(View()) < old(Work(View())) && tried == old(tried)
      ensures t.pc == if end then First(true) else Sleep
      ensures Made(true) == old(Made(true)) + Finished(old(t.claimed))
    {
      hide HeardOf, ToldOf, Inv, Work, Run, Steps, Step, Enabled, Repeat;
      WriteOut(end);
      ProducerRuns();
      MoveReadPtr(end);
      ReturnBanks(end);
    }

    method MoveReadPtr(end: bool)
      requires Valid() && t.pc == Advance(end)
      modifies this
      ensures Valid() && Work(View()) < old(Work(View())) && t.pc == Give(end) && t.toWrite == old(t.toWrite)
      ensures Made(true) == old(Made(true)) + [TAdvance] && t.toGive == old(t.claimed) && tried == old(tried)
    {
      hide HeardOf, NoneFatal, Inv, Work, Run, Steps;
      NextIsPossible(View());
      Took(start, log, View(), TAdvance);
      log := log + [TAdvance];
      io := io.(readPtr := Slot(io.readPtr, t.claimed, io.nbufs));
      t := t.(pc := Give(end), claimed := 0, toGive := t.claimed);
    }

    method ReturnBanks(end: bool)
      requires Valid() && t.pc == Give(end) && t.toWrite > 0
      modifies this
      ensures Valid() && Work(View()) < old(Work(View()))
      ensures t.pc == if end then First(true) else Sleep
      ensures Made(true) == old(Made(true)) + Repeat(TGive, old(t.toGive) + 1) && tried == old(tried)
    {
      hide HeardOf, NoneFatal, Inv, Work, Run, Steps;
      ghost var n := 0;
      while t.toGive > 0
        invariant Valid() && t.pc == Give(end) && t.toWrite > 0 && Work(View()) <= old(Work(View()))
        invariant Made(true) == old(Made(true)) + Repeat(TGive, n) && n + t.toGive == old(t.toGive)
        invariant tried == old(tried)
        decreases t.toGive
      {
        ProducerRuns();
        Took(start, log, View(), TGive);
        log := log + [TGive];
        RepeatSnoc(TGive, n);
        n := n + 1;
        k := k.(free := k.free + 1);
        t := t.(toGive := t.toGive - 1);
      }
      Took(start, log, View(), TGive);
      log := log + [TGive];
      RepeatSnoc(TGive, n);
      t := t.(pc := if end then First(true) else Sleep);
    }

    /** fileXioWrite: the device's next answer. */
    method FileXioWrite() returns (result: int)
      requires Valid() && t.pc.Transfer? && !Failed()
      modifies `tried
      ensures Valid() && tried == old(tried) + 1
      ensures if Succeeded() then result == t.toWrite else result == device(tried - 1)
    {
      result := if device(tried) >= 0 then t.toWrite else device(tried);
      tried := tried + 1;
    }

    /**
     The do-while loop round fileXioWrite, for at most `patience` repeats: the result is what was written, -EIO, or
     another error, and then the loop is still going and can be taken up again.
     */
    method RepeatTransfer(end: bool, patience: nat) returns (result: int, left: nat, ghost r: nat)
      requires Valid() && t.pc == Transfer(end) && !Failed()
      modifies this
      ensures Valid() && t == old(t) && Work(View()) <= old(Work(View()))
      ensures h.writes == old(h.writes) && io.error == old(io.error)
      ensures result == t.toWrite > 0 || result < 0
      ensures left + r == patience && (result < 0 && result != -EIO ==> left == 0)
      ensures Made(true) == old(Made(true)) + Repeat(TRetry, r) && tried == old(tried) + r + 1
      ensures if Succeeded() then result == t.toWrite else result == device(tried - 1)
      ensures Refused(device, old(tried), tried - 1)
    {
      hide HeardOf, ToldOf, Inv, Work, Run, Steps, Refused;
      left, r := patience, 0;
      TransferIsNotEmpty(View());
      result := FileXioWrite();
      NoneRefused(device, old(tried));
      while result < 0 && result != -EIO && left > 0
        invariant Valid() && t == old(t) && Work(View()) <= old(Work(View()))
        invariant h.writes == old(h.writes) && io.error == old(io.error)
        invariant (result == t.toWrite || result < 0) && left + r == patience
        invariant Made(true) == old(Made(true)) + Repeat(TRetry, r) && tried == old(tried) + r + 1
        invariant if Succeeded() then result == t.toWrite else result == device(tried - 1)
        invariant Refused(device, old(tried), tried - 1)
        decreases left
      {
        RefusedMore(device, old(tried), tried - 1);
        NoteRetry();
        RepeatSnoc(TRetry, r);
        left, r := left - 1, r + 1;
        result := FileXioWrite();
      }
    }

    /** The transfer is about to be made once more. */
    method NoteRetry()
      requires Valid() && t.pc.Transfer?
      modifies this
      ensures Valid() && t == old(t) && Work(View()) <= old(Work(View()))
      ensures h.writes == old(h.writes) && io.error == old(io.error) && tried == old(tried)
      ensures Made(true) == old(Made(true)) + [TRetry]
    {
      hide HeardOf, ToldOf, Inv, Work, Run, Steps;
      ProducerRuns();
      Took(start, log, View(), TRetry);
      log := log + [TRetry];
    }

    /**
     IOExecWriteNext. The result is 0 when no bank was filled, -EIO when the transfer failed for good, and otherwise how
     much was written; any other error means that it still repeats its transfer.
     */
    method IOExecWriteNext(end: bool, patience: nat) returns (result: int, left: nat, ghost n: nat, ghost r: nat)
      requires Valid() && t.pc == First(end)
      modifies this
      ensures Valid() && Work(View()) < old(Work(View()))
      ensures left + r == patience && (result < 0 && result != -EIO ==> left == 0)
      ensures result < 0 ==> t.pc == Transfer(end) && h.writes == old(h.writes) && io.error == old(io.error)
      ensures result == 0 ==> t.pc == (if end then Ack else Sleep) && r == 0
      ensures result > 0 ==> t.pc == (if end then First(true) else Sleep)
      ensures Made(true) == old(Made(true)) + [TFirst]
                            + (if result == 0 then [] else Merged(n, r)) + (if result > 0 then Finished(n) else [])
      ensures tried == old(tried) + if result == 0 then 0 else r + 1
      ensures result > 0 ==> Succeeded()
      ensures result < 0 ==> 0 < tried && result == device(tried - 1)
    {
      hide HeardOf, ToldOf, Inv, Work, Run, Steps, Step, Enabled, Flatten, Repeat, Finished;
      left, n, r := patience, 0, 0;
      var taken := PollFirst(end);
      if !taken {
        return 0, left, n, r;
      }
      n := MergeBanks(end);
      result, left, r := RepeatTransfer(end, left);
      if result >= 0 {
        FinishTransfer(end);
      }
    }

    /** The thread gives up after -EIO. */
    method FailTransfer(end: bool)
      requires Valid() && t.pc == Transfer(end) && Failed()
      modifies this
      ensures Valid() && io.error && t.pc == if end then Ack else Exited
      ensures Made(true) == old(Made(true)) + [TFail]
    {
      hide HeardOf, NoneFatal, Inv, Work, Run, Steps;
      Took(start, log, View(), TFail);
      log := log + [TFail];
      io := io.(error := true);
      t := t.(pc := if end then Ack else Exited);
    }

    /** SleepThread and the switch on the command; `asleep` when no wake-up is there. */
    method AwaitCommand() returns (asleep: bool)
      requires Valid() && t.pc.Sleep?
      modifies this
      ensures Valid() && Work(View()) <= old(Work(View()))
      ensures if asleep then t.pc.Sleep? && k.wakeups == 0
              else Work(View()) < old(Work(View())) && (t.pc.Sleep? || t.pc.First?)
      ensures Made(true) == old(Made(true)) + if asleep then [] else [TWake, TDispatch]
    {
      hide HeardOf, NoneFatal, Inv, Work, Run, Steps;
      ProducerRuns();
      asleep := k.wakeups == 0;
      if !asleep {
        Took(start, log, View(), TWake);
        log := log + [TWake];
        k := k.(wakeups := k.wakeups - 1);
        t := t.(pc := Dispatch);
        ProducerRuns();
        Took(start, log, View(), TDispatch);
        log := log + [TDispatch];
        t := t.(pc := match io.command
                      case CmdWrite => First(false)
                      case CmdWriteEnd => First(true)
                      case CmdNone => Sleep);
      }
    }

    /**
     IOThread: returns when it sleeps without a wake-up, when it still repeats a transfer, or when it has exited, after
     -EIO or with the acknowledgement as its last step.
     */
    method IOThread(patience: nat) returns (left: nat)
      requires Valid() && t.pc.Sleep?
      modifies this
      ensures Valid() && ((t.pc.Sleep? && k.wakeups == 0) || t.pc.Transfer? || t.pc.Exited?)
      ensures t.pc.Transfer? ==> left == 0 && Unsettled()
      ensures io.error <==> Failed()
      ensures t.pc.Exited? ==> (EndsWith(Made(true), TFail) && io.error) || EndsWith(Made(true), TAck)
      ensures t.pc.Exited? && !io.error ==> k.filled == 0 && File(View()) == Flatten(h.submitted)
    {
      hide HeardOf, NoneFatal, Inv, Work, Run, Steps, Step, Enabled, Flatten;
      left := patience;
      while true
        invariant Valid() && t.pc.Sleep? && left <= patience
        decreases Work(View())
      {
        NextIsPossible(View());
        var asleep := AwaitCommand();
        if asleep {
          return;
        }
        if t.pc == First(false) {
          var result;
          ghost var n, r;
          result, left, n, r := IOExecWriteNext(false, left);
          if result < 0 {
            if result == -EIO {
              FailTransfer(false);
            } else {
              NoErrorYet(View());
            }
            return;
          }
        } else if t.pc == First(true) {
          left := DrainAndAcknowledge(left);
          return;
        }
      }
    }

    /** IO_THREAD_CMD_WRITE_END: writes until no bank is filled, or -EIO, then acknowledges and exits. */
    method DrainAndAcknowledge(patience: nat) returns (left: nat)
      requires Valid() && t.pc == First(true)
      modifies this
      ensures Valid() && (t.pc.Exited? || t.pc == Transfer(true))
      ensures t.pc.Transfer? ==> left == 0 && Unsettled()
      ensures io.error <==> Failed()
      ensures t.pc.Exited? ==> EndsWith(Made(true), TAck)
      ensures t.pc.Exited? && !io.error ==> k.filled == 0 && File(View()) == Flatten(h.submitted)
    {
      hide HeardOf, NoneFatal, Inv, Work, Run, Steps, Flatten, Enabled;
      var result;
      ghost var n, r;
      result, left, n, r := IOExecWriteNext(true, patience);
      while result > 0
        invariant Valid() && (result > 0 ==> t.pc == First(true)) && (result == 0 ==> t.pc == Ack)
        invariant result < 0 ==> t.pc == Transfer(true) && 0 < tried && result == device(tried - 1)
        invariant result < 0 && result != -EIO ==> left == 0
        decreases Work(View())
      {
        NextIsPossible(View());
        result, left, n, r := IOExecWriteNext(true, left);
      }
      if result == -EIO {
        FailTransfer(true);
      }
      if result == 0 || result == -EIO {
        Acknowledge();
        if !io.error {
          ExitedMeansDrained(View());
        }
      } else {
        NoErrorYet(View());
      }
    }

    method Acknowledge()
      requires Valid() && t.pc == Ack
      modifies this
      ensures Valid() && t.pc.Exited?
      ensures Made(true) == old(Made(true)) + [TAck]
    {
      hide HeardOf, NoneFatal, Inv, Work, Run, Steps;
      Took(start, log, View(), TAck);
      log := log + [TAck];
      k := k.(ack := k.ack + 1);
      t := t.(pc := Exited);
    }
  }

  predicate EndsWith(steps: seq<Action>, a: Action) {
    |steps| > 0 && steps[|steps| - 1] == a
  }

  /** What WriteGame has received and handed on, wherever it stops. */
  lemma ReceivedIsSubmitted(s: Ring)
    requires Inv(s)
    ensures Flatten(s.h.submitted) <= s.h.received
    ensures s.p.pc.Loop? || (s.p.pc.EndCommand? && s.p.result == 0) ==>
      && s.h.received == Flatten(s.h.submitted)
      && |s.h.received| == 2048 * (s.h.sectors - (if s.p.pc.Loop? then s.p.remaining else 0))
  {
    hide Tokens, Queue, Sizes, Control, WakeupsSuffice, Flatten;
  }

  /** A thread that has exited without an error has left no filled bank, and the file complete. */
  lemma ExitedMeansDrained(s: Ring)
    requires Inv(s) && s.t.pc.Exited? && !s.io.error
    ensures s.k.filled == 0 && File(s) == Flatten(s.h.submitted)
  {
    hide Tokens, Sizes, Progress, WakeupsSuffice, Flatten, Holding;
    assert s.h.submitted[..s.h.done] == s.h.submitted;
  }

  /** As long as the thread has something to do there is no error. */
  lemma NoErrorYet(s: Ring)
    requires Inv(s)
    ensures s.io.error ==> s.t.pc.Ack? || s.t.pc.Exited?
  {
  }

  /** As long as WriteGame goes on it has no result. */
  lemma NoResultYet(s: Ring)
    requires Inv(s)
    ensures !Ending(s) ==> s.p.result == 0
  {
  }

  lemma TransferIsNotEmpty(s: Ring)
    requires Inv(s) && s.t.pc.Transfer?
    ensures s.t.toWrite > 0
  {
    var blocks := s.h.submitted[s.h.done..s.h.done + s.t.claimed];
    assert Flatten(blocks) == blocks[0] + Flatten(blocks[1..]);
    assert blocks[0] == s.h.submitted[s.h.done];
  }
}
