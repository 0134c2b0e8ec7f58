/**
 io.c as it is written: the functions of the read side, each run by one thread while the other thread may take any
 number of steps between two of its accesses to shared state.
 */
module IoRead {
  import opened Common
  import opened Banks
  import opened Logs
  import opened ReadRing
  import opened ReadLive

  /** The steps of sending a block in pieces of the given sizes. */
  function Sends(pieces: seq<nat>): seq<Action> {
    if |pieces| == 0 then [] else Sends(pieces[..|pieces| - 1]) + [CSend(pieces[|pieces| - 1])]
  }

  lemma SendsSnoc(pieces: seq<nat>, count: nat)
    ensures Sends(pieces + [count]) == Sends(pieces) + [CSend(count)]
  {
    assert (pieces + [count])[..|pieces|] == pieces;
  }

  /** The pieces are what the sends from number `from` on took, none of them nothing. */
  ghost predicate SentBy(network: nat -> int, from: nat, pieces: seq<nat>) {
    forall i :: 0 <= i < |pieces| ==> 0 < pieces[i] <= network(from + i)
  }

  lemma SentBySnoc(network: nat -> int, from: nat, pieces: seq<nat>, count: nat)
    requires SentBy(network, from, pieces) && 0 < count <= network(from + |pieces|)
    ensures SentBy(network, from, pieces + [count])
  {
  }

  lemma NothingSent(network: nat -> int, from: nat)
    ensures SentBy(network, from, []) && Sends([]) == []
  {
  }

  /** None of these transfers has come to an end: refused for a passing reason, or not to be had from the file. */
  ghost predicate Refused(device: nat -> int, fits: bool, from: nat, to: nat) {
    forall i :: from <= i < to ==> device(i) != -EIO && (device(i) < 0 || !fits)
  }

  lemma RefusedMore(device: nat -> int, fits: bool, from: nat, to: nat)
    requires Refused(device, fits, from, to) && device(to) != -EIO && (device(to) < 0 || !fits)
    ensures Refused(device, fits, from, to + 1)
  {
  }

  lemma NoneRefused(device: nat -> int, fits: bool, from: nat)
    ensures Refused(device, fits, from, from)
  {
  }

  /** What follows the first bank of a transfer: `n` banks are claimed, and the transfer is repeated `r` times. */
  function Merged(n: nat, r: nat): seq<Action> {
    Repeat(TMerge, n) + Repeat(TRetry, r)
  }

  /** When it succeeds the banks, `c` of them, are read into and handed over. */
  function Finished(c: nat): seq<Action> {
    [TRead, TAdvance] + Repeat(TGive, c + 1)
  }

  /** One more step, taken where the run has come to. */
  lemma Took(start: Ring, log: seq<Action>, t: Ring, a: Action)
    requires Inv(t) && Run(start, log) == Reached(t) && Enabled(t, a)
    ensures Inv(Step(t, a)) && Run(start, log + [a]) == Reached(Step(t, a))
    ensures a.TRetry? || Work(Step(t, a)) < Work(t)
    ensures Steps(log + [a], ByThread, true) == Steps(log, ByThread, true) + if ByThread(a) then [a] else []
    ensures Steps(log + [a], ByThread, false) == Steps(log, ByThread, false) + if ByThread(a) then [] else [a]
  {
    hide Step, Enabled, Inv, Work, Run, Steps;
    StepInv(t, a);
    InvMeansCore(t);
    RunSnoc(start, log, a);
    StepsSnoc(log, ByThread, true, a);
    StepsSnoc(log, ByThread, false, a);
    if ByThread(a) {
      ThreadStepWorks(t, a);
    } else {
      ConsumerStepWorks(t, a);
    }
  }

  /** A step of the I/O thread leaves ReadGame's variables and what it has sent alone. */
  lemma ThreadStepKeeps(s: Ring, a: Action)
    requires Enabled(s, a) && ByThread(a)
    ensures Step(s, a).c == s.c && Step(s, a).h.output == s.h.output && Step(s, a).h.taken == s.h.taken
    ensures Step(s, a).h.image == s.h.image && Step(s, a).h.sectors == s.h.sectors
  {
  }

  /** A step of the consumer leaves the I/O thread's variables and what was read alone. */
  lemma ConsumerStepKeeps(s: Ring, a: Action)
    requires Enabled(s, a) && !ByThread(a)
    ensures Step(s, a).t == s.t && Step(s, a).h.read == s.h.read && Step(s, a).io.error == s.io.error
    ensures Step(s, a).h.skipped == s.h.skipped && Step(s, a).h.lost == s.h.lost
    ensures Step(s, a).io.remaining == s.io.remaining && Step(s, a).io.writePtr == s.io.writePtr
    ensures Step(s, a).h.image == s.h.image && Step(s, a).h.sectors == s.h.sectors
  {
  }

  /** So does any run of the I/O thread; and it only does work that was there to do. */
  lemma {:induction false} ThreadKeepsConsumer(s: Ring, schedule: seq<Action>)
    requires Inv(s) && Run(s, schedule).Reached?
    requires forall i :: 0 <= i < |schedule| ==> ByThread(schedule[i])
    ensures var t := Run(s, schedule).s;
            Inv(t) && t.c == s.c && t.h.output == s.h.output && t.h.taken == s.h.taken && Work(t) <= Work(s)
            && t.h.image == s.h.image && t.h.sectors == s.h.sectors
    decreases |schedule|
  {
    if |schedule| > 0 {
      hide Inv, Step, Enabled, Work, ByThread;
      StepInv(s, schedule[0]);
      ThreadStepKeeps(s, schedule[0]);
      ThreadStepWorks(s, schedule[0]);
      ThreadKeepsConsumer(Step(s, schedule[0]), schedule[1..]);
    }
  }

  lemma {:induction false} ConsumerKeepsThread(s: Ring, schedule: seq<Action>)
    requires Inv(s) && Run(s, schedule).Reached?
    requires forall i :: 0 <= i < |schedule| ==> !ByThread(schedule[i])
    ensures var t := Run(s, schedule).s;
            Inv(t) && t.t == s.t && t.h.read == s.h.read && t.io.error == s.io.error && Work(t) <= Work(s)
            && t.io.remaining == s.io.remaining && t.io.writePtr == s.io.writePtr
            && t.h.skipped == s.h.skipped && t.h.lost == s.h.lost
            && t.h.image == s.h.image && t.h.sectors == s.h.sectors
    decreases |schedule|
  {
    if |schedule| > 0 {
      hide Inv, Step, Enabled, Work, ByThread;
      StepInv(s, schedule[0]);
      ConsumerStepKeeps(s, schedule[0]);
      ConsumerStepWorks(s, schedule[0]);
      ConsumerKeepsThread(Step(s, schedule[0]), schedule[1..]);
    }
  }

  /** What each state of the machine is about to do is possible there. */
  lemma NextIsPossible(s: Ring)
    requires Inv(s)
    ensures 0 <= Work(s)
    ensures s.c.pc.Loop? && s.c.remaining > 0 && s.k.filled > 0 ==> Enabled(s, CTake)
    ensures s.c.pc.Hold? ==>
      s.c.sent <= s.c.length && forall n: nat :: 0 < n <= s.c.length - s.c.sent ==> Enabled(s, CSend(n))
    ensures s.t.pc.Take? ==> Enabled(s, TTake)
    ensures s.t.pc.Merge? ==> Enabled(s, TMerge)
    ensures s.t.pc.Transfer? ==> s.t.sectorsTotal > 0 && (!Overruns(s) ==> Enabled(s, TRead))
    ensures s.t.pc.Give? ==> Enabled(s, TGive)
  {
    hide Work, Holding, Contents, Flatten, Sizes, Sent, Control, WakeupsSuffice, AllButLastFull, SumLengths;
    WorkIsNat(s);
    if s.t.pc.Transfer? {
      if !Overruns(s) {
        ReadPossible(s);
      }
      TransferIsNotEmpty(s);
    }
  }

  /**
   The peer decides how much each send takes, nothing when the connection is gone, and the device what it answers to
   each fileXioRead, anything but an error number when it can read; `drift` is how far the file has moved on when it
   answers -EIO.
   */
  class Session {
    const network: nat -> int
    const device: nat -> int
    const drift: nat -> nat
    /** How many sends and how many fileXioReads have been made. */
    var asked: nat
    var tried: nat
    var io: IOState
    var k: Kernel
    var c: Consumer
    var t: Thread
    var h: History
    ghost var log: seq<Action>
    ghost const start: Ring

    ghost function View(): Ring
      reads this
    {
      Ring(io, k, c, t, h)
    }

    /** `log` is the run of the machine that has led here. */
    ghost predicate Valid()
      reads this
    {
      && Inv(View()) && Run(start, log) == Reached(View())
      && SentOff(asked, c.result) && Told(tried, t.pc, t.failed)
    }

    /** The connection counts as lost exactly when a send has taken nothing. */
    ghost predicate SentOff(asked: nat, result: int) {
      if result == -EPIPE then 0 < asked && network(asked - 1) <= 0 && AllTook(asked - 1) else AllTook(asked)
    }

    ghost predicate AllTook(n: nat) {
      forall i :: 0 <= i < n ==> 0 < network(i)
    }

    /** The thread holds on to -EIO exactly when that was the device's last answer. */
    ghost predicate Told(tried: nat, pc: ThreadPc, failed: bool) {
      !pc.Transfer? ==> (failed <==> 0 < tried && device(tried - 1) == -EIO)
    }

    /** The device's last answer was -EIO; or that it can read; or some other error. */
    predicate Failed()
      reads this
    {
      0 < tried && device(tried - 1) == -EIO
    }

    predicate Succeeded()
      reads this
    {
      0 < tried && 0 <= device(tried - 1)
    }

    /** The steps one side has made so far, in order. */
    ghost function Made(thread: bool): seq<Action>
      reads this
    {
      Steps(log, ByThread, thread)
    }

    /** IOReadInit; `image` is the file from its position on. */
    constructor IOReadInit(nbufs: nat, bufmax: nat, banks: seq<seq<Byte>>, lengths: seq<nat>,
                           sectors: nat, image: seq<Byte>,
                           network: nat -> int, device: nat -> int, drift: nat -> nat)
      requires InitOk(nbufs, bufmax, banks, lengths)
      ensures Valid() && start == View() == Init(nbufs, bufmax, banks, lengths, sectors, image)
      ensures this.network == network && this.device == device && this.drift == drift && asked == tried == 0
    {
      InitInv(nbufs, bufmax, banks, lengths, sectors, image);
      this.network, this.device, this.drift := network, device, drift;
      asked, tried := 0, 0;
      io := IOState(nbufs, bufmax, banks, lengths, 0, 0, CmdRead, sectors, false);
      k := Kernel(nbufs, 0, 0, 1);
      c := Consumer(Loop, sectors, 0, 0, 0, 0, false);
      t := Thread(Sleep, 0, 0, 0, false);
      h := History(sectors, image, [], 0, [], 0, 0, []);
      log := [];
      start := Init(nbufs, bufmax, banks, lengths, sectors, image);
    }

    /** The I/O thread runs while the consumer is between two accesses to shared state: callers know no more of it. */
    method ThreadRuns()
      requires Valid()
      modifies this
      ensures Valid() && Extends(old(log), log, ByThread, true) && Made(false) == old(Made(false))
      ensures c == old(c) && Work(View()) <= old(Work(View()))
      ensures h.output == old(h.output) && h.image == old(h.image) && h.sectors == old(h.sectors)
      ensures asked == old(asked)
    {
    }

    /** The consumer runs while the I/O thread is between two accesses to shared state. */
    method ConsumerRuns()
      requires Valid()
      modifies this
      ensures Valid() && Extends(old(log), log, ByThread, false) && Made(true) == old(Made(true))
      ensures t == old(t) && h.read == old(h.read) && h.skipped == old(h.skipped) && h.image == old(h.image)
      ensures io.error == old(io.error) && tried == old(tried)
      ensures Work(View()) <= old(Work(View()))
    {
    }

    // ---------------------------------------------------------------- the consumer's functions

    /** IOReadNext: `blocked` when no bank is filled at the moment. */
    method IOReadNext() returns (blocked: bool)
      requires Valid() && c.pc.Loop? && c.remaining > 0
      modifies this
      ensures Valid() && Work(View()) <= old(Work(View()))
      ensures if blocked then c == old(c) && k.filled == 0 else c.pc.Hold?
      ensures Made(false) == old(Made(false)) + if blocked then [] else [CTake]
    {
      hide SentOff, Told, Inv, Work, Run, Steps;
      ThreadRuns();
      NextIsPossible(View());
      blocked := k.filled == 0;
      if !blocked {
        Took(start, log, View(), CTake);
        log := log + [CTake];
        k := k.(filled := k.filled - 1);
        c := c.(pc := Hold, bank := io.readPtr, length := io.lengths[io.readPtr], sent := 0, holding := true);
        io := io.(readPtr := Slot(io.readPtr, 1, io.nbufs));
        h := h.(taken := h.taken + 1);
      }
    }

    /** How much of at most `max` bytes the next send on the data connection takes. */
    function Send(max: nat): (count: nat)
      reads this
      ensures count <= max && (0 < max ==> (0 < count <==> 0 < network(asked)))
    {
      if network(asked) <= 0 then 0 else if network(asked) <= max then network(asked) else max
    }

    /** One piece of the block has gone out. */
    method NoteSent(count: nat)
      requires Valid() && c.pc.Hold? && 0 < count && c.sent + count <= c.length && count == Send(c.length - c.sent)
      modifies this
      ensures Valid() && Work(View()) < old(Work(View())) && c == old(c).(sent := old(c.sent) + count)
      ensures Made(false) == old(Made(false)) + [CSend(count)] && asked == old(asked) + 1
    {
      hide Told, Inv, Work, Run, Steps;
      NextIsPossible(View());
      NoResultYet(View());
      Took(start, log, View(), CSend(count));
      log, asked := log + [CSend(count)], asked + 1;
      h := h.(output := h.output + io.banks[c.bank][c.sent..c.sent + count]);
      c := c.(sent := c.sent + count);
    }

    /** A send takes nothing: the connection is gone. */
    method LoseConnection()
      requires Valid() && c.pc.Hold? && c.sent < c.length && Send(c.length - c.sent) == 0
      modifies this
      ensures Valid() && Work(View()) < old(Work(View())) && c.pc.EndCommand? && c.result == -EPIPE
      ensures Made(false) == old(Made(false)) + [CSendFail] && asked == old(asked) + 1
    {
      hide Told, Inv, Work, Run, Steps;
      NoResultYet(View());
      Took(start, log, View(), CSendFail);
      log, asked := log + [CSendFail], asked + 1;
      c := c.(pc := EndCommand, result := -EPIPE);
    }

    /** One send, and what is made of it. */
    method SendOnce() returns (count: nat)
      requires Valid() && c.pc.Hold? && c.sent < c.length
      modifies this
      ensures Valid() && Work(View()) < old(Work(View())) && asked == old(asked) + 1
      ensures if count == 0 then network(asked - 1) <= 0 else count <= network(asked - 1)
      ensures if count == 0 then c.pc.EndCommand? && c.result == -EPIPE
              else c.pc.Hold? && c.sent == old(c.sent) + count <= c.length == old(c.length)
      ensures Made(false) == old(Made(false)) + [if count == 0 then CSendFail else CSend(count)]
    {
      hide SentOff, Told, Inv, Work, Run, Steps, Step, Enabled;
      ThreadRuns();
      count := Send(c.length - c.sent);
      if count == 0 {
        LoseConnection();
      } else {
        NoteSent(count);
      }
    }

    /**
     The inner loop of ReadGame: the block is sent piece by piece from the bank it is in, and given up exactly when a
     send takes nothing.
     */
    method SendBlock() returns (ok: bool, ghost pieces: seq<nat>)
      requires Valid() && c.pc.Hold?
      modifies this
      ensures Valid() && Work(View()) <= old(Work(View()))
      ensures if ok then c.pc.Hold? && c.sent == c.length else c.pc.EndCommand? && c.result == -EPIPE
      ensures Made(false) == old(Made(false)) + Sends(pieces) + if ok then [] else [CSendFail]
      ensures asked == old(asked) + |pieces| + if ok then 0 else 1
      ensures SentBy(network, old(asked), pieces)
      ensures !ok ==> network(asked - 1) <= 0 && Work(View()) < old(Work(View()))
    {
      hide SentOff, Told, Inv, Work, Run, Steps, Step, Enabled, SentBy, Sends;
      NextIsPossible(View());
      NothingSent(network, asked);
      pieces := [];
      while c.sent < c.length
        invariant Valid() && Work(View()) <= old(Work(View()))
        invariant c.pc.Hold? && c.sent <= c.length && 0 <= Work(View())
        invariant Made(false) == old(Made(false)) + Sends(pieces)
        invariant asked == old(asked) + |pieces| && SentBy(network, old(asked), pieces)
        decreases Work(View())
      {
        var count := SendOnce();
        if count == 0 {
          return false, pieces;
        }
        SendsSnoc(pieces, count);
        SentBySnoc(network, old(asked), pieces, count);
        pieces := pieces + [count];
        NextIsPossible(View());
      }
      ok := true;
    }

    /** IOGetStatus and the count of the sectors that remain. */
    method FinishBlock()
      requires Valid() && c.pc.Hold? && c.sent == c.length
      modifies this
      ensures Valid() && Work(View()) < old(Work(View())) && (c.pc.GiveBack? || c.pc.EndCommand?)
      ensures var left := old(c.remaining) - Min(old(c.length) / 2048, old(c.remaining));
              c == old(c).(remaining := if io.error then old(c.remaining) else left,
                           pc := if io.error || left == 0 then EndCommand else GiveBack,
                           result := if io.error then -EIO else 0)
      ensures Made(false) == old(Made(false)) + [CFinish]
    {
      hide Told, AllTook, Inv, Work, Run, Steps;
      ThreadRuns();
      NoResultYet(View());
      Took(start, log, View(), CFinish);
      log := log + [CFinish];
      if io.error {
        c := c.(pc := EndCommand, result := -EIO);
      } else {
        var remaining := c.remaining - Min(c.length / 2048, c.remaining);
        c := c.(remaining := remaining, pc := if remaining > 0 then GiveBack else EndCommand);
      }
    }

    /** IOReadAdvance: the bank goes back, and only then is the thread told to go on. */
    method IOReadAdvance()
      requires Valid() && c.pc.GiveBack?
      modifies this
      ensures Valid() && Work(View()) < old(Work(View())) && c.pc.Loop?
      ensures Made(false) == old(Made(false)) + [CGiveBack, CPutCommand, CWake]
    {
      hide SentOff, Told, Inv, Work, Run, Steps;
      Took(start, log, View(), CGiveBack);
      log := log + [CGiveBack];
      k := k.(free := k.free + 1);
      c := c.(pc := SetCommand, holding := false);
      ThreadRuns();
      IOExecRead();
    }

    /** IOExec with IO_THREAD_CMD_READ. */
    method IOExecRead()
      requires Valid() && c.pc.SetCommand?
      modifies this
      ensures Valid() && Work(View()) < old(Work(View())) && c.pc.Loop?
      ensures Made(false) == old(Made(false)) + [CPutCommand, CWake]
    {
      hide SentOff, Told, Inv, Work, Run, Steps;
      Took(start, log, View(), CPutCommand);
      log := log + [CPutCommand];
      io := io.(command := CmdRead);
      c := c.(pc := Wake);
      ThreadRuns();
      WakeIOThread();
    }

    /** WakeupThread after the command has been set. */
    method WakeIOThread()
      requires Valid() && c.pc.Wake?
      modifies this
      ensures Valid() && Work(View()) < old(Work(View())) && c.pc.Loop?
      ensures Made(false) == old(Made(false)) + [CWake]
    {
      hide SentOff, Told, Inv, Work, Run, Steps;
      Took(start, log, View(), CWake);
      log := log + [CWake];
      k := k.(wakeups := k.wakeups + 1);
      c := c.(pc := Loop);
    }

    /** ReadGame, up to the point where the game is closed; `blocked` when it waits for a block. */
    method ReadGame() returns (blocked: bool)
      requires Valid() && c.pc.Loop?
      modifies this
      ensures Valid()
      ensures if blocked then c.pc.Loop? && c.remaining > 0 && k.filled == 0 else c.pc.EndCommand?
      ensures |h.output| <= 2048 * h.sectors && (h.skipped == 0 ==> h.output <= h.image)
      ensures !blocked && c.result == 0 ==> |h.output| == 2048 * h.sectors && |h.output| + h.skipped <= |h.image|
      ensures !blocked && c.result == 0 && h.skipped == 0 ==> h.output == h.image[..2048 * h.sectors]
      ensures c.result == -EPIPE <==> 0 < asked && network(asked - 1) <= 0
      ensures c.result == 0 || c.result == -EPIPE || (c.result == -EIO && io.error)
    {
      hide Told, Inv, Work, Run, Steps, Step;
      blocked := false;
      NoResultYet(View());
      while c.pc.Loop? && c.remaining > 0
        invariant Valid() && (c.pc.Loop? || c.pc.EndCommand?) && !blocked
        invariant c.result == 0 || (c.pc.EndCommand? && c.result == -EIO && io.error)
        decreases Work(View())
      {
        NextIsPossible(View());
        blocked := ReadNextBlock();
        if blocked || c.result == -EPIPE {
          SentOfImage(View());
          return;
        }
      }
      if c.pc.Loop? {
        LeaveReadLoop();
      }
      SentOfImage(View());
    }

    /** One turn of its loop. */
    method ReadNextBlock() returns (blocked: bool)
      requires Valid() && c.pc.Loop? && c.remaining > 0
      modifies this
      ensures Valid() && Work(View()) <= old(Work(View())) && (!blocked ==> Work(View()) < old(Work(View())))
      ensures if blocked then c == old(c) && k.filled == 0 else c.pc.Loop? || c.pc.EndCommand?
      ensures c.result == 0 || c.result == -EPIPE || (c.result == -EIO && io.error)
      ensures c.pc.Loop? ==> c.result == 0
    {
      hide Told, SentOff, Inv, Work, Run, Steps, Step;
      NoResultYet(View());
      blocked := IOReadNext();
      if !blocked {
        var ok;
        ghost var pieces;
        ok, pieces := SendBlock();
        if ok {
          FinishBlock();
          if c.pc.GiveBack? {
            IOReadAdvance();
            NoResultYet(View());
          }
        }
      }
    }

    method LeaveReadLoop()
      requires Valid() && c.pc.Loop? && c.remaining == 0
      modifies this
      ensures Valid() && c.pc.EndCommand? && c.result == old(c.result)
      ensures Made(false) == old(Made(false)) + [CLeave]
    {
      hide SentOff, Told, Inv, Work, Run, Steps;
      Took(start, log, View(), CLeave);
      log := log + [CLeave];
      c := c.(pc := EndCommand);
    }

    /** IOEndRead: IOExecWait with IO_THREAD_CMD_READ_END; `blocked` while it waits for the acknowledgement. */
    method IOEndRead() returns (blocked: bool, state: bool)
      requires Valid() && c.pc.EndCommand?
      modifies this
      ensures Valid() && c.result == old(c.result) && h.output == old(h.output)
      ensures if blocked then c.pc.WaitAck? && k.ack == 0 else c.pc.Done? && !state
      ensures Made(false) == old(Made(false)) + [CPutEndCommand, CWakeForEnd] + if blocked then [] else [CTakeAck]
    {
      hide SentOff, Told, Inv, Work, Run, Steps;
      PutEndCommand();
      blocked, state := AwaitAck();
    }

    /** Its wait for the acknowledgement: `blocked` while that has not come; then it can be called again. */
    method AwaitAck() returns (blocked: bool, state: bool)
      requires Valid() && c.pc.WaitAck?
      modifies this
      ensures Valid() && c.result == old(c.result) && h.output == old(h.output)
      ensures if blocked then c == old(c) && k.ack == 0 else c.pc.Done? && !state
      ensures Made(false) == old(Made(false)) + if blocked then [] else [CTakeAck]
    {
      hide SentOff, Told, Inv, Work, Run, Steps;
      ThreadRuns();
      blocked, state := k.ack == 0, io.error;
      if !blocked {
        Took(start, log, View(), CTakeAck);
        log := log + [CTakeAck];
        k := k.(ack := k.ack - 1);
        c := c.(pc := Done);
        DoneMeansNoError(View());
      }
    }

    method PutEndCommand()
      requires Valid() && c.pc.EndCommand?
      modifies this
      ensures Valid() && c == old(c).(pc := WaitAck) && h.output == old(h.output)
      ensures Made(false) == old(Made(false)) + [CPutEndCommand, CWakeForEnd]
    {
      hide SentOff, Told, Inv, Work, Run, Steps;
      Took(start, log, View(), CPutEndCommand);
      log := log + [CPutEndCommand];
      io := io.(command := CmdReadEnd);
      c := c.(pc := EndWake);
      ThreadRuns();
      WakeIOThreadForEnd();
    }

    method WakeIOThreadForEnd()
      requires Valid() && c.pc.EndWake?
      modifies this
      ensures Valid() && c == old(c).(pc := WaitAck) && h.output == old(h.output)
      ensures Made(false) == old(Made(false)) + [CWakeForEnd]
    {
      hide SentOff, Told, Inv, Work, Run, Steps;
      Took(start, log, View(), CWakeForEnd);
      log := log + [CWakeForEnd];
      k := k.(wakeups := k.wakeups + 1);
      c := c.(pc := WaitAck);
    }

    // ---------------------------------------------------------------- the I/O thread's functions

    /** The loop's condition and PollSema on inBufSema for the first bank of a transfer. */
    method PollBank() returns (taken: bool)
      requires Valid() && t.pc.Take?
      modifies this
      ensures Valid() && Work(View()) < old(Work(View())) && h.read == old(h.read) && io.error == old(io.error)
      ensures t.pc == (if taken then Merge else if old(t.failed) then Failing else Sleep) && t.failed == old(t.failed)
      ensures Made(true) == old(Made(true)) + [TTake]
      ensures if taken then t.claimed == 1 else io.remaining == 0 || k.free == 0
      ensures tried == old(tried)
    {
      hide SentOff, Inv, Work, Run, Steps;
      ConsumerRuns();
      NextIsPossible(View());
      Took(start, log, View(), TTake);
      log := log + [TTake];
      taken := io.remaining > 0 && k.free > 0;
      if taken {
        var sectors := if io.remaining < io.bufmax then io.remaining else io.bufmax;
        k := k.(free := k.free - 1);
        io := io.(lengths := io.lengths[io.writePtr := sectors * 2048]);
        t := t.(pc := Merge, claimed := 1, sectorsTotal := sectors);
      } else {
        t := t.(pc := if t.failed then Failing else Sleep);
      }
    }

    /** No further bank can be claimed: none is free, or the ring ends here, or no sector is left to read. */
    predicate AllClaimed()
      reads this
    {
      k.free == 0 || io.writePtr + t.claimed == io.nbufs || t.sectorsTotal == io.remaining
    }

    /** One turn of the merging loop: another free bank behind the claimed ones, or the end of the claim. */
    method MergeOne()
      requires Valid() && t.pc.Merge?
      modifies this
      ensures Valid() && Work(View()) < old(Work(View())) && h.read == old(h.read) && io.error == old(io.error)
      ensures if t.pc.Merge? then t.claimed == old(t.claimed) + 1 else t.pc.Transfer? && t.claimed == old(t.claimed)
      ensures t.pc.Transfer? ==> AllClaimed()
      ensures Made(true) == old(Made(true)) + [TMerge] && tried == old(tried)
    {
      hide SentOff, Inv, Work, Run, Steps;
      ConsumerRuns();
      NextIsPossible(View());
      Took(start, log, View(), TMerge);
      log := log + [TMerge];
      var next, left := io.writePtr + t.claimed, io.remaining - t.sectorsTotal;
      if next < io.nbufs && left > 0 && k.free > 0 {
        var sectors := if left < io.bufmax then left else io.bufmax;
        k := k.(free := k.free - 1);
        io := io.(lengths := io.lengths[next := sectors * 2048]);
        t := t.(claimed := t.claimed + 1, sectorsTotal := t.sectorsTotal + sectors);
      } else {
        t := t.(pc := Transfer);
      }
    }

    /** Claims the free banks that follow in memory for as long as sectors are left to read. */
    method MergeBanks() returns (ghost n: nat)
      requires Valid() && t.pc.Merge?
      modifies this
      ensures Valid() && Work(View()) < old(Work(View())) && h.read == old(h.read) && io.error == old(io.error)
      ensures t.pc.Transfer? && AllClaimed() && tried == old(tried)
      ensures Made(true) == old(Made(true)) + Repeat(TMerge, n) && t.claimed + 1 == old(t.claimed) + n
    {
      hide SentOff, Told, Inv, Work, Run, Steps, Step, Enabled;
      n := 0;
      while t.pc.Merge?
        invariant Valid() && (t.pc.Merge? || t.pc.Transfer?)
        invariant h.read == old(h.read) && io.error == old(io.error)
        invariant Work(View()) <= old(Work(View())) && (t.pc.Transfer? ==> Work(View()) < old(Work(View())))
        invariant Made(true) == old(Made(true)) + Repeat(TMerge, n)
        invariant t.claimed + (if t.pc.Transfer? then 1 else 0) == old(t.claimed) + n
        invariant tried == old(tried) && (t.pc.Transfer? ==> AllClaimed())
        decreases Work(View())
      {
        NextIsPossible(View());
        MergeOne();
        RepeatSnoc(TMerge, n);
        n := n + 1;
      }
    }

    /** The data is in memory. */
    method StoreRead()
      requires Valid() && t.pc.Transfer? && !Overruns(View()) && Succeeded()
      modifies this
      ensures Valid() && Work(View()) < old(Work(View())) && t.pc.Advance? && !t.failed
      ensures Made(true) == old(Made(true)) + [TRead] && t.claimed == old(t.claimed) && tried == old(tried)
    {
      hide SentOff, Inv, Work, Run, Steps, Flatten, StoreAcross, Cut;
      NextIsPossible(View());
      Took(start, log, View(), TRead);
      log := log + [TRead];
      var position := |Flatten(h.read)| + h.skipped;
      var data := h.image[position..position + 2048 * t.sectorsTotal];
      h := h.(read := h.read + Cut(data, io.lengths[io.writePtr..io.writePtr + t.claimed]),
              shifts := h.shifts + Repeat(h.skipped, |data|));
      io := io.(banks := StoreAcross(io.banks, io.writePtr, data));
      t := t.(pc := Advance, failed := false);
    }

    /** The write pointer moves past the banks read into. */
    method MoveWritePtr()
      requires Valid() && t.pc.Advance?
      modifies this
      ensures Valid() && Work(View()) < old(Work(View())) && t.pc.Give?
      ensures t.toGive == old(t.claimed) && t.failed == old(t.failed)
      ensures Made(true) == old(Made(true)) + [TAdvance] && tried == old(tried)
    {
      hide SentOff, Inv, Work, Run, Steps;
      Took(start, log, View(), TAdvance);
      log := log + [TAdvance];
      io := io.(writePtr := Slot(io.writePtr, t.claimed, io.nbufs));
      t := t.(pc := Give, claimed := 0, toGive := t.claimed);
    }

    /** The transfer has succeeded: the write pointer moves on, and the banks are handed over one by one. */
    method FinishTransfer()
      requires Valid() && t.pc.Transfer? && !Overruns(View()) && Succeeded()
      modifies this
      ensures Valid() && Work(View()) < old(Work(View())) && t.pc.Take? && !t.failed && tried == old(tried)
      ensures Made(true) == old(Made(true)) + Finished(old(t.claimed))
    {
      hide SentOff, Told, Inv, Work, Run, Steps, Step, Enabled, Repeat;
      StoreRead();
      ConsumerRuns();
      MoveWritePtr();
      HandOver();
    }

    method HandOver()
      requires Valid() && t.pc.Give?
      modifies this
      ensures Valid() && Work(View()) < old(Work(View())) && t.pc.Take? && t.failed == old(t.failed)
      ensures Made(true) == old(Made(true)) + Repeat(TGive, old(t.toGive) + 1) && tried == old(tried)
    {
      hide SentOff, Told, Inv, Work, Run, Steps, Step, Enabled;
      ghost var n := 0;
      while t.toGive > 0
        invariant Valid() && t.pc.Give? && t.failed == old(t.failed) && Work(View()) <= old(Work(View()))
        invariant Made(true) == old(Made(true)) + Repeat(TGive, n) && n + t.toGive == old(t.toGive)
        invariant tried == old(tried)
        decreases t.toGive
      {
        ConsumerRuns();
        GiveBank();
        RepeatSnoc(TGive, n);
        n := n + 1;
      }
      CountSectors();
      RepeatSnoc(TGive, n);
    }

    /** SignalSema on outBufSema for one bank. */
    method GiveBank()
      requires Valid() && t.pc.Give? && t.toGive > 0
      modifies this
      ensures Valid() && Work(View()) < old(Work(View())) && t == old(t).(toGive := old(t.toGive) - 1)
      ensures Made(true) == old(Made(true)) + [TGive] && tried == old(tried)
    {
      hide SentOff, Told, Inv, Work, Run, Steps;
      NextIsPossible(View());
      Took(start, log, View(), TGive);
      log := log + [TGive];
      k := k.(filled := k.filled + 1);
      t := t.(toGive := t.toGive - 1);
    }

    /** What has been read remains to be read no more. */
    method CountSectors()
      requires Valid() && t.pc.Give? && t.toGive == 0
      modifies this
      ensures Valid() && Work(View()) < old(Work(View())) && t.pc.Take? && t.failed == old(t.failed)
      ensures Made(true) == old(Made(true)) + [TGive] && tried == old(tried)
    {
      hide SentOff, Inv, Work, Run, Steps;
      NextIsPossible(View());
      Took(start, log, View(), TGive);
      log := log + [TGive];
      io := io.(remaining := io.remaining - t.sectorsTotal);
      t := t.(pc := Take, sectorsTotal := 0);
    }

    /** fileXioRead: the device's next answer, unless the file ends before all is read. */
    method FileXioRead() returns (result: int)
      requires Valid() && t.pc.Transfer?
      modifies `tried
      ensures Valid() && tried == old(tried) + 1 && result == Answer()
    {
      hide SentOff, Inv, Work, Run, Steps, Flatten;
      result := device(tried);
      if result >= 0 {
        var fits := |Flatten(h.read)| + h.skipped + 2048 * t.sectorsTotal <= |h.image|;
        result := if fits then 2048 * t.sectorsTotal else -ENODEV;
      }
      tried := tried + 1;
    }

    /** What the last fileXioRead has come to. */
    ghost function Answer(): int
      reads this
      requires 0 < tried
    {
      if !Succeeded() then device(tried - 1) else if Overruns(View()) then -ENODEV else 2048 * t.sectorsTotal
    }

    /**
     The do-while loop round fileXioRead, for at most `patience` repeats: the result is what was read, -EIO, or another
     error, and then the loop is still going and can be taken up again. Past the end of the file nothing is ever read.
     */
    method RepeatTransfer(patience: nat) returns (result: int, left: nat, ghost r: nat)
      requires Valid() && t.pc.Transfer?
      modifies this
      ensures Valid() && t == old(t) && Work(View()) <= old(Work(View()))
      ensures h.read == old(h.read) && io.error == old(io.error)
      ensures (result == 2048 * t.sectorsTotal > 0 && !Overruns(View())) || result < 0
      ensures left + r == patience && (result < 0 && result != -EIO ==> left == 0)
      ensures Made(true) == old(Made(true)) + Repeat(TRetry, r) && tried == old(tried) + r + 1
      ensures result == Answer() && (result == -EIO <==> Failed())
      ensures result >= 0 <==> Succeeded() && !Overruns(View())
      ensures Refused(device, !Overruns(View()), old(tried), tried - 1)
    {
      hide SentOff, Told, Inv, Work, Run, Steps, Flatten, Refused;
      left, r := patience, 0;
      NextIsPossible(View());
      ghost var fits := !Overruns(View());
      result := FileXioRead();
      NoneRefused(device, fits, old(tried));
      while result < 0 && result != -EIO && left > 0
        invariant Valid() && t == old(t) && Work(View()) <= old(Work(View()))
        invariant h.read == old(h.read) && io.error == old(io.error) && fits == !Overruns(View())
        invariant left + r == patience && Made(true) == old(Made(true)) + Repeat(TRetry, r)
        invariant tried == old(tried) + r + 1 && result == Answer()
        invariant Refused(device, fits, old(tried), tried - 1)
        decreases left
      {
        RefusedMore(device, fits, old(tried), tried - 1);
        NoteRetry();
        RepeatSnoc(TRetry, r);
        left, r := left - 1, r + 1;
        result := FileXioRead();
      }
    }

    /** The transfer is about to be made once more. */
    method NoteRetry()
      requires Valid() && t.pc.Transfer?
      modifies this
      ensures Valid() && t == old(t) && Work(View()) <= old(Work(View()))
      ensures h.read == old(h.read) && Overruns(View()) == old(Overruns(View()))
      ensures io.error == old(io.error) && tried == old(tried)
      ensures Made(true) == old(Made(true)) + [TRetry]
    {
      hide SentOff, Told, Inv, Work, Run, Steps, Flatten;
      ConsumerRuns();
      Took(start, log, View(), TRetry);
      log := log + [TRetry];
    }

    /** How far the failed transfer has moved the file on, short of all it was to read and inside the file. */
    function Drifted(): (moved: nat)
      reads this
    {
      var moved := if 0 < tried then drift(tried - 1) else 0;
      if moved < 2048 * t.sectorsTotal && |Flatten(h.read)| + h.skipped + moved <= |h.image| then moved else 0
    }

    /** A transfer has failed with -EIO: its bank tokens are gone, and the file stands who knows where. */
    method FailTransfer() returns (moved: nat)
      requires Valid() && t.pc.Transfer? && Failed()
      modifies this
      ensures Valid() && Work(View()) < old(Work(View())) && t.pc.Take? && t.failed && io.error == old(io.error)
      ensures tried == old(tried) && h.lost == old(h.lost) + old(t.claimed)
      ensures moved == old(Drifted()) && h.skipped == old(h.skipped) + moved
      ensures Made(true) == old(Made(true)) + [TFail(moved)]
    {
      hide SentOff, Inv, Work, Run, Steps, Flatten, Enabled;
      moved := Drifted();
      FailIsPossible(View(), moved);
      Took(start, log, View(), TFail(moved));
      log := log + [TFail(moved)];
      h := h.(skipped := h.skipped + moved, lost := h.lost + t.claimed);
      t := t.(pc := Take, claimed := 0, sectorsTotal := 0, failed := true);
    }

    /**
     One round of IOExecReadNext. Without a sector to read or a free bank there is none; otherwise the result is what
     was read, or -EIO, or another error if the transfer is still being repeated.
     */
    method ReadOnce(patience: nat) returns (taken: bool, result: int, left: nat, ghost n: nat, ghost r: nat)
      requires Valid() && t.pc.Take?
      modifies this
      ensures Valid() && Work(View()) < old(Work(View()))
      ensures left + r == patience && (result < 0 && result != -EIO ==> left == 0)
      ensures !taken ==> t.pc == (if old(t.failed) then Failing else Sleep) && Made(true) == old(Made(true)) + [TTake]
      ensures !taken ==> io.remaining == 0 || k.free == 0
      ensures tried == old(tried) + if taken then r + 1 else 0
      ensures taken && result > 0 ==> Succeeded()
      ensures taken && result > 0 ==>
        t.pc.Take? && !t.failed && Made(true) == old(Made(true)) + [TTake] + Merged(n, r) + Finished(n)
      ensures taken && result == -EIO ==> t.pc.Take? && t.failed && Failed()
      ensures taken && result == -EIO ==>
        exists m: nat :: Made(true) == old(Made(true)) + [TTake] + Merged(n, r) + [TFail(m)]
      ensures taken && result < 0 && result != -EIO ==>
        t.pc.Transfer? && Made(true) == old(Made(true)) + [TTake] + Merged(n, r) && result == Answer()
      ensures taken ==> result != 0
    {
      hide SentOff, Told, Inv, Work, Run, Steps, Step, Enabled, Flatten, Repeat, Finished;
      left, result, n, r := patience, 0, 0, 0;
      NextIsPossible(View());
      taken := PollBank();
      if !taken {
        return;
      }
      n := MergeBanks();
      result, left, r := RepeatTransfer(left);
      if result >= 0 {
        FinishTransfer();
      } else if result == -EIO {
        var moved := FailTransfer();
      }
    }

    /**
     IOExecReadNext: reads ahead for as long as there are sectors and free banks, -EIO or not; the last result counts.
     */
    method IOExecReadNext(patience: nat) returns (result: int, left: nat)
      requires Valid() && t.pc.Take? && !t.failed
      modifies this
      ensures Valid() && Work(View()) < old(Work(View())) && left <= patience
      ensures result < 0 && result != -EIO ==> left == 0 && 0 < tried && result == Answer()
      ensures t.pc == if result >= 0 then Sleep else if result == -EIO then Failing else Transfer
      ensures t.pc.Transfer? || io.remaining == 0 || k.free == 0
    {
      hide SentOff, Told, Inv, Work, Run, Steps, Step, Enabled, Flatten;
      ghost var n, r;
      left, result := patience, 0;
      var taken := true;
      while taken
        invariant Valid() && left <= patience && Work(View()) <= old(Work(View()))
        invariant taken ==> t.pc.Take? && (result == -EIO || result >= 0) && (t.failed <==> result < 0)
        invariant !taken ==> Work(View()) < old(Work(View())) && (io.remaining == 0 || k.free == 0)
        invariant !taken ==> t.pc == if result >= 0 then Sleep else Failing
        invariant result >= 0 || result == -EIO
        decreases taken, Work(View())
      {
        NextIsPossible(View());
        var last;
        taken, last, left, n, r := ReadOnce(left);
        if taken {
          result := last;
          if last < 0 && last != -EIO {
            return;
          }
        }
      }
    }

    /** IOExecReadNext has returned -EIO: the thread reports it and ends. */
    method ReportError()
      requires Valid() && t.pc.Failing?
      modifies this
      ensures Valid() && io.error && t.pc.Exited?
      ensures Made(true) == old(Made(true)) + [TError]
    {
      hide SentOff, Inv, Work, Run, Steps;
      ConsumerRuns();
      Took(start, log, View(), TError);
      log := log + [TError];
      io := io.(error := true);
      t := t.(pc := Exited);
    }

    /** SleepThread and the switch on the command; `asleep` when no wake-up is there. */
    method AwaitCommand() returns (asleep: bool)
      requires Valid() && t.pc.Sleep?
      modifies this
      ensures Valid() && Work(View()) <= old(Work(View()))
      ensures if asleep then t.pc.Sleep? && k.wakeups == 0
              else Work(View()) < old(Work(View())) && (t.pc.Take? || t.pc.Ack?) && !t.failed
      ensures Made(true) == old(Made(true)) + if asleep then [] else [TWake, TDispatch]
    {
      hide SentOff, Inv, Work, Run, Steps;
      ConsumerRuns();
      asleep := k.wakeups == 0;
      if !asleep {
        Took(start, log, View(), TWake);
        log := log + [TWake];
        k := k.(wakeups := k.wakeups - 1);
        t := t.(pc := Dispatch);
        ConsumerRuns();
        RestsWithoutError(View());
        Took(start, log, View(), TDispatch);
        log := log + [TDispatch];
        t := t.(pc := if io.command.CmdRead? then Take else Ack, failed := false);
      }
    }

    /**
     IOThread: returns when it sleeps without a wake-up, when it still repeats a transfer, or when it has exited, with
     the report of an error or the acknowledgement as its last step.
     */
    method IOThread(patience: nat) returns (left: nat)
      requires Valid() && t.pc.Sleep?
      modifies this
      ensures Valid() && ((t.pc.Sleep? && k.wakeups == 0) || t.pc.Transfer? || t.pc.Exited?)
      ensures t.pc.Transfer? ==> left == 0 && 0 < tried && Answer() < 0 && !Failed()
      ensures t.pc.Exited? ==> EndsWith(Made(true), if io.error then TError else TAck)
      ensures t.pc.Exited? ==> (io.error <==> Failed())
    {
      hide SentOff, Inv, Work, Run, Steps, Step, Enabled, Flatten;
      left := patience;
      while true
        invariant Valid() && t.pc.Sleep? && left <= patience
        decreases Work(View())
      {
        NextIsPossible(View());
        var asleep := AwaitCommand();
        if asleep {
          return;
        }
        if t.pc.Ack? {
          Acknowledge();
          return;
        }
        var result;
        result, left := IOExecReadNext(left);
        if result < 0 {
          if result == -EIO {
            ReportError();
            RestsWithoutError(View());
          }
          return;
        }
      }
    }

    /** IO_THREAD_CMD_READ_END. */
    method Acknowledge()
      requires Valid() && t.pc.Ack?
      modifies this
      ensures Valid() && t.pc.Exited? && !io.error && !t.failed
      ensures Made(true) == old(Made(true)) + [TAck]
    {
      hide SentOff, Work, Run, Steps;
      Took(start, log, View(), TAck);
      log := log + [TAck];
      k := k.(ack := k.ack + 1);
      t := t.(pc := Exited);
    }
  }

  predicate EndsWith(steps: seq<Action>, a: Action) {
    |steps| > 0 && steps[|steps| - 1] == a
  }

  /** A transfer that has begun may fail anywhere. */
  lemma FailIsPossible(s: Ring, moved: nat)
    requires Inv(s) && s.t.pc.Transfer? && (moved == 0 || moved < 2048 * s.t.sectorsTotal)
    requires moved == 0 || Cursor(s) + moved <= |s.h.image|
    ensures Enabled(s, TFail(moved))
  {
    hide Flatten;
    NextIsPossible(s);
    InvMeansCore(s);
    CursorInFile(s);
  }

  /** A thread that rests or acknowledges holds on to no error; one that has reported an error does. */
  lemma RestsWithoutError(s: Ring)
    requires Inv(s)
    ensures s.t.pc.Sleep? || s.t.pc.Dispatch? || s.t.pc.Ack? ==> !s.t.failed
    ensures s.io.error ==> s.t.failed
  {
  }

  /** As long as ReadGame goes on it has no result. */
  lemma NoResultYet(s: Ring)
    requires Inv(s)
    ensures !Ending(s) ==> s.c.result == 0
  {
    hide Tokens, Queue, Sizes, Control, WakeupsSuffice, Contents, Holding, Flatten;
  }

  lemma DoneMeansNoError(s: Ring)
    requires Inv(s) && s.c.pc.Done?
    ensures !s.io.error
  {
  }
}
