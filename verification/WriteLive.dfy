/**
 What a game write can still do, and where it ends:
 the progress of the machine of `WriteRing`, over a file with a given room.
 */
module WriteLive {
  import opened Common
  import opened Banks
  import opened WriteRing

  /** The I/O thread died of -EIO while it served IO_THREAD_CMD_WRITE: it never acknowledges anything again. */
  predicate Dead(s: Ring) {
    s.io.error && s.t.pc.Exited? && s.k.ack == 0 && !s.p.pc.Done?
  }

  /** WriteGame waits for a bank, or IOEndWrite for its acknowledgement. */
  predicate Blocked(s: Ring) {
    (s.p.pc.Loop? && s.p.remaining > 0 && s.k.free == 0) || (s.p.pc.WaitAck? && s.k.ack == 0)
  }

  function ThreadAction(pc: ThreadPc): Action {
    match pc
    case Sleep => TWake
    case Dispatch => TDispatch
    case First(_) => TFirst
    case Merge(_) => TMerge
    case Transfer(_) => TWrite
    case Advance(_) => TAdvance
    case Give(_) => TGive
    case _ => TAck
  }

  function ProducerAction(p: Producer): Action {
    match p.pc
    case Loop => if p.remaining > 0 then Acquire else LeaveLoop
    case Fill => if p.got < 2048 * p.len then Receive([0]) else Submit
    case Signal => SignalOut
    case SetCommand => PutCommand
    case Wake => WakeThread
    case CheckStatus => Status
    case EndCommand => PutEndCommand
    case EndWake => WakeForEnd
    case _ => TakeAck
  }

  lemma ThreadCanMove(s: Ring)
    requires Core(s) && !s.t.pc.Exited? && (s.t.pc.Sleep? ==> s.k.wakeups > 0)
    ensures Enabled(s, ThreadAction(s.t.pc))
  {
    hide Queue, Sizes, Contents, Progress, Control, WakeupsSuffice, Flatten;
    if s.t.pc.Transfer? {
      MergedTransfer(s);
    }
  }

  lemma ProducerCanMove(s: Ring)
    requires Inv(s) && !s.p.pc.Done? && !Blocked(s)
    ensures Enabled(s, ProducerAction(s.p))
  {
    hide Queue, Contents, Progress, Control, WakeupsSuffice, Flatten, AllButLastFull;
  }

  /** A waiting WriteGame or IOEndWrite means a thread that can move, unless it died. */
  lemma BlockedMeansThreadActive(s: Ring)
    requires Inv(s) && Blocked(s) && !Dead(s)
    ensures !s.t.pc.Exited? && (s.t.pc.Sleep? ==> s.k.wakeups > 0)
  {
    hide Sizes, Contents, Progress, Queue, Flatten, AllButLastFull;
  }

  /** The pending transfer does not fit into a file that takes `room` bytes. */
  predicate Overruns(s: Ring, room: nat) {
    s.t.pc.Transfer? && |File(s)| + s.t.toWrite > room
  }

  /**
   A step as it can come about over such a file: a transfer that fits is made or fails for good, one that does not fit
   is refused each time, for a reason that io.c takes for a passing one.
   */
  predicate Allowed(s: Ring, a: Action, room: nat) {
    Enabled(s, a) && (a.TWrite? ==> !Overruns(s, room)) && (a.TRetry? ==> Overruns(s, room))
  }

  predicate Served(s: Ring, schedule: seq<Action>, room: nat)
    decreases |schedule|
  {
    |schedule| == 0 || (Allowed(s, schedule[0], room) && Served(Step(s, schedule[0]), schedule[1..], room))
  }

  /**
   As long as IOEndWrite has not returned some step is possible, unless the producer waits for a thread that is dead or
   repeats its transfer.
   */
  lemma SomeStepPossible(t: Ring, room: nat) returns (a: Action)
    requires Inv(t) && !t.p.pc.Done? && !(Blocked(t) && (Dead(t) || Overruns(t, room)))
    ensures Allowed(t, a, room) && !a.TRetry? && !a.ReceiveFail? && !a.TFail?
  {
    hide Inv, Enabled, Dead, Blocked, Overruns;
    if Blocked(t) {
      BlockedMeansThreadActive(t);
      InvMeansCore(t);
      ThreadCanMove(t);
      a := ThreadAction(t.t.pc);
    } else {
      ProducerCanMove(t);
      a := ProducerAction(t.p);
    }
  }

  /** A dead thread and a waiting producer can move no more. */
  lemma DeadAndBlockedIsStuck(t: Ring, a: Action)
    requires Reachable(t) && Dead(t) && Blocked(t)
    ensures !Enabled(t, a)
  {
    ReachableInv(t);
  }

  /** While the producer waits for a transfer that does not fit, nothing changes until the drive fails. */
  lemma OverrunAndBlockedIsStuck(t: Ring, a: Action, room: nat)
    requires Overruns(t, room) && Blocked(t) && Allowed(t, a, room)
    ensures a.TFail? || Step(t, a) == t
  {
  }

  /** Once the thread is dead IOEndWrite does not return, whatever happens next. */
  lemma {:induction false} DeadMeansEndWriteNeverReturns(s: Ring, schedule: seq<Action>)
    requires Dead(s) && Run(s, schedule).Reached?
    ensures !Run(s, schedule).s.p.pc.Done?
    decreases |schedule|
  {
    if |schedule| > 0 {
      DeadMeansEndWriteNeverReturns(Step(s, schedule[0]), schedule[1..]);
    }
  }

  /** What WriteGame can still cause. */
  function ProducerWork(p: Producer): int {
    match p.pc
    case Loop => 2100 * p.remaining + 20
    case Fill => 2100 * p.remaining + 19 - p.got
    case Signal => 2100 * (p.remaining - Min(p.len, p.remaining)) + 50
    case SetCommand => 2100 * (p.remaining - Min(p.len, p.remaining)) + 38
    case Wake => 2100 * (p.remaining - Min(p.len, p.remaining)) + 37
    case CheckStatus => 2100 * (p.remaining - Min(p.len, p.remaining)) + 25
    case EndCommand => 18
    case EndWake => 17
    case WaitAck => 10
    case Done => 0
  }

  function ThreadWork(pc: ThreadPc): int {
    match pc
    case Sleep => 0
    case Dispatch => 4
    case First(_) => 3
    case Merge(_) => 9
    case Transfer(_) => 8
    case Advance(_) => 7
    case Give(_) => 6
    case Ack => 2
    case Exited => 0
  }

  function Work(s: Ring): int {
    ProducerWork(s.p) + ThreadWork(s.t.pc) + 5 * s.k.wakeups + 10 * s.k.filled + 2 * s.t.claimed + s.t.toGive
  }

  lemma ProducerStepWorks(s: Ring, a: Action)
    requires Core(s) && Enabled(s, a) && !ByThread(a)
    ensures Work(Step(s, a)) < Work(s)
  {
    hide Queue, Contents, Progress, Control, WakeupsSuffice, Flatten, AllButLastFull;
  }

  lemma ThreadStepWorks(s: Ring, a: Action)
    requires Core(s) && Enabled(s, a) && ByThread(a)
    ensures if a.TRetry? then Step(s, a) == s else Work(Step(s, a)) < Work(s)
  {
    hide Queue, Sizes, Contents, Progress, Control, WakeupsSuffice, Flatten;
    assert Step(s, a).p == s.p;
  }

  lemma WorkIsNat(s: Ring)
    requires Core(s)
    ensures 0 <= Work(s)
  {
  }

  /** The steps of a schedule that are not repeats of a transfer that failed for a passing reason. */
  function Effective(schedule: seq<Action>): nat {
    if |schedule| == 0 then 0 else (if schedule[0].TRetry? then 0 else 1) + Effective(schedule[1..])
  }

  lemma {:induction false} RunIsFinite(s: Ring, schedule: seq<Action>)
    requires Inv(s) && Run(s, schedule).Reached?
    ensures Effective(schedule) + Work(Run(s, schedule).s) <= Work(s)
    ensures 0 <= Work(Run(s, schedule).s)
    decreases |schedule|
  {
    if |schedule| == 0 {
      WorkIsNat(s);
    } else {
      StepInv(s, schedule[0]);
      if ByThread(schedule[0]) {
        ThreadStepWorks(s, schedule[0]);
      } else {
        ProducerStepWorks(s, schedule[0]);
      }
      RunIsFinite(Step(s, schedule[0]), schedule[1..]);
    }
  }

  lemma FitsMeansNoOverrun(s: Ring, room: nat)
    requires Core(s) && 2048 * s.h.sectors <= room
    ensures !Overruns(s, room)
  {
    hide Tokens, Queue, Sizes, Control, WakeupsSuffice, Flatten;
    if s.t.pc.Transfer? {
      var done, end := s.h.done, s.h.done + s.t.claimed;
      assert s.h.submitted == (s.h.submitted[..done] + s.h.submitted[done..end]) + s.h.submitted[end..];
      FlattenConcat(s.h.submitted[..done] + s.h.submitted[done..end], s.h.submitted[end..]);
      FlattenConcat(s.h.submitted[..done], s.h.submitted[done..end]);
    }
  }

  lemma SectorsStay(s: Ring, a: Action)
    requires Enabled(s, a)
    ensures Step(s, a).h.sectors == s.h.sectors
  {
  }

  /** A file that takes the whole game never makes the thread repeat a transfer. */
  lemma {:induction false} FitsMeansNoRepeat(s: Ring, schedule: seq<Action>, room: nat)
    requires Inv(s) && Run(s, schedule).Reached? && Served(s, schedule, room) && 2048 * s.h.sectors <= room
    ensures Effective(schedule) == |schedule| && TRetry !in schedule
    decreases |schedule|
  {
    hide Inv, Step, Enabled, Overruns;
    if |schedule| > 0 {
      StepInv(s, schedule[0]);
      SectorsStay(s, schedule[0]);
      InvMeansCore(s);
      FitsMeansNoOverrun(s, room);
      FitsMeansNoRepeat(Step(s, schedule[0]), schedule[1..], room);
      assert schedule == [schedule[0]] + schedule[1..];
    }
  }

  /**
   A run of a game write makes at most 2100 steps a sector and 20 more, and none besides if the file takes the whole
   game; otherwise repeats of a transfer come on top. A run that can go no further has let IOEndWrite return, or met
   -EIO while serving IO_THREAD_CMD_WRITE, or repeats a transfer for which there is no room.
   */
  lemma EveryRunEnds(nbufs: nat, bufmax: nat, banks: seq<seq<Byte>>, lengths: seq<nat>, sectors: nat,
                     schedule: seq<Action>, room: nat)
    requires InitOk(nbufs, bufmax, banks, lengths)
    requires Run(Init(nbufs, bufmax, banks, lengths, sectors), schedule).Reached?
    requires Served(Init(nbufs, bufmax, banks, lengths, sectors), schedule, room)
    ensures Effective(schedule) <= 2100 * sectors + 20
    ensures 2048 * sectors <= room ==> |schedule| <= 2100 * sectors + 20
    ensures var t := Run(Init(nbufs, bufmax, banks, lengths, sectors), schedule).s;
            (forall a :: Allowed(t, a, room) ==> a.TRetry? || a.TFail?)
            ==> t.p.pc.Done? || (Blocked(t) && (Dead(t) || (Overruns(t, room) && room < 2048 * sectors)))
  {
    hide Inv, Allowed;
    var s := Init(nbufs, bufmax, banks, lengths, sectors);
    InitInv(nbufs, bufmax, banks, lengths, sectors);
    RunIsFinite(s, schedule);
    RunInv(s, schedule);
    RunSectors(s, schedule);
    var t := Run(s, schedule).s;
    if 2048 * sectors <= room {
      FitsMeansNoRepeat(s, schedule, room);
      InvMeansCore(t);
      FitsMeansNoOverrun(t, room);
    }
    if !t.p.pc.Done? && !(Blocked(t) && (Dead(t) || Overruns(t, room))) {
      var a := SomeStepPossible(t, room);
    }
  }

  lemma {:induction false} RunSectors(s: Ring, schedule: seq<Action>)
    requires Run(s, schedule).Reached?
    ensures Run(s, schedule).s.h.sectors == s.h.sectors
    decreases |schedule|
  {
    hide Step, Enabled;
    if |schedule| > 0 {
      SectorsStay(s, schedule[0]);
      RunSectors(Step(s, schedule[0]), schedule[1..]);
    }
  }

  lemma ServedStepFits(s: Ring, a: Action, room: nat)
    requires Allowed(s, a, room) && |File(s)| <= room
    ensures |File(Step(s, a))| <= room
  {
    if a.TWrite? {
      FlattenSnoc(s.h.writes, Flatten(s.io.banks[s.io.readPtr..])[..s.t.toWrite]);
    }
  }

  /** No run writes more than there is room for. */
  lemma {:induction false} FileFits(s: Ring, schedule: seq<Action>, room: nat)
    requires Run(s, schedule).Reached? && Served(s, schedule, room) && |File(s)| <= room
    ensures |File(Run(s, schedule).s)| <= room
    decreases |schedule|
  {
    hide Step, Enabled;
    if |schedule| > 0 {
      ServedStepFits(s, schedule[0], room);
      FileFits(Step(s, schedule[0]), schedule[1..], room);
    }
  }

  /** `more` brings the game write from `t` to its end, all sectors received and IOEndWrite reporting OK. */
  predicate EndsWell(t: Ring, more: seq<Action>, room: nat) {
    && Served(t, more, room) && Run(t, more).Reached?
    && var u := Run(t, more).s;
       u.p.pc.Done? && !u.io.error && u.p.result == 0
  }

  lemma CleanStep(s: Ring, a: Action)
    requires Enabled(s, a) && !a.ReceiveFail? && !a.TFail? && s.p.result == 0 && !s.io.error
    ensures Step(s, a).p.result == 0 && !Step(s, a).io.error
  {
  }

  /**
   With room for the whole game the end can be reached from everywhere, as long as neither network nor drive failed.
   */
  lemma {:induction false} Finish(t: Ring, room: nat) returns (more: seq<Action>)
    requires Inv(t) && t.p.result == 0 && !t.io.error && 2048 * t.h.sectors <= room
    ensures EndsWell(t, more, room)
    decreases Work(t)
  {
    hide Inv, Step, Enabled, Work, Overruns;
    if t.p.pc.Done? {
      more := [];
    } else {
      InvMeansCore(t);
      FitsMeansNoOverrun(t, room);
      var a := SomeStepPossible(t, room);
      StepInv(t, a);
      SectorsStay(t, a);
      CleanStep(t, a);
      InvMeansCore(Step(t, a));
      WorkIsNat(t);
      WorkIsNat(Step(t, a));
      if ByThread(a) {
        ThreadStepWorks(t, a);
      } else {
        ProducerStepWorks(t, a);
      }
      var rest := Finish(Step(t, a), room);
      more := [a] + rest;
      assert more[1..] == rest;
    }
  }

  /**
   A game write in which nothing has failed so far can still end well if and only if the file takes the whole game.
   Otherwise it hangs, once the last sectors are to be written, until the drive fails.
   */
  lemma CanEndWellIff(nbufs: nat, bufmax: nat, banks: seq<seq<Byte>>, lengths: seq<nat>, sectors: nat,
                      schedule: seq<Action>,
                      room: nat, t: Ring)
    requires InitOk(nbufs, bufmax, banks, lengths)
    requires Run(Init(nbufs, bufmax, banks, lengths, sectors), schedule) == Reached(t)
    requires Served(Init(nbufs, bufmax, banks, lengths, sectors), schedule, room)
    requires t.p.result == 0 && !t.io.error
    ensures (exists more :: EndsWell(t, more, room)) <==> 2048 * sectors <= room
  {
    hide Inv, Step, Enabled, Flatten;
    var s := Init(nbufs, bufmax, banks, lengths, sectors);
    InitInv(nbufs, bufmax, banks, lengths, sectors);
    RunInv(s, schedule);
    RunSectors(s, schedule);
    assert File(s) == [] by { FlattenNothing(); }
    FileFits(s, schedule, room);
    if 2048 * sectors <= room {
      var more := Finish(t, room);
    } else {
      forall more | EndsWell(t, more, room) ensures false {
        RunInv(t, more);
        RunSectors(t, more);
        FileFits(t, more, room);
        DoneMeansComplete(Run(t, more).s);
      }
    }
  }

  lemma FlattenNothing()
    ensures Flatten<Byte>([]) == []
  {
  }

  lemma {:induction false} RunSnoc(s: Ring, schedule: seq<Action>, a: Action)
    requires Run(s, schedule).Reached? && Enabled(Run(s, schedule).s, a)
    ensures Run(s, schedule + [a]) == Reached(Step(Run(s, schedule).s, a))
    decreases |schedule|
  {
    hide Step, Enabled;
    if |schedule| == 0 {
      assert schedule + [a] == [a] && [a][1..] == [];
      assert Run(Step(s, a), []) == Reached(Step(s, a));
    } else {
      assert (schedule + [a])[1..] == schedule[1..] + [a];
      RunSnoc(Step(s, schedule[0]), schedule[1..], a);
    }
  }

  lemma {:induction false} ServedSnoc(s: Ring, schedule: seq<Action>, a: Action, room: nat)
    requires Run(s, schedule).Reached? && Served(s, schedule, room) && Allowed(Run(s, schedule).s, a, room)
    ensures Served(s, schedule + [a], room)
    decreases |schedule|
  {
    hide Step, Enabled, Overruns;
    if |schedule| == 0 {
      assert schedule + [a] == [a] && [a][1..] == [];
    } else {
      assert (schedule + [a])[1..] == schedule[1..] + [a];
      ServedSnoc(Step(s, schedule[0]), schedule[1..], a, room);
    }
  }

  /** One step further. */
  lemma Go(start: Ring, log: seq<Action>, t: Ring, a: Action) returns (log': seq<Action>, t': Ring)
    requires Run(start, log) == Reached(t) && Enabled(t, a)
    ensures t' == Step(t, a) && Run(start, log') == Reached(t')
  {
    RunSnoc(start, log, a);
    log', t' := log + [a], Step(t, a);
  }

  /** One sector has come in, and the thread has been woken. */
  function OneSectorIn(): Ring {
    Ring(IOState(1, 1, [Zeros(2048)], [2048], 0, 0, CmdWrite, false), Kernel(0, 1, 0, 1),
         Producer(CheckStatus, 1, 1, 2048, 0, false),
         Thread(Sleep, 0, 0, 0), History(1, Zeros(2048), [Zeros(2048)], 0, []))
  }

  lemma OneSectorComesIn() returns (log: seq<Action>)
    ensures Run(Init(1, 1, [Zeros(2048)], [0], 1), log) == Reached(OneSectorIn())
  {
    hide Run, Flatten;
    var start, t := Init(1, 1, [Zeros(2048)], [0], 1), Init(1, 1, [Zeros(2048)], [0], 1);
    log := [];
    RunNothing(start);
    log, t := Go(start, log, t, Acquire);
    log, t := Go(start, log, t, Receive(Zeros(2048)));
    assert Patch(Zeros(2048), 0, Zeros(2048)) == Zeros(2048);
    assert t.io.banks == [Zeros(2048)] && t.h.received == Zeros(2048);
    log, t := Go(start, log, t, Submit);
    assert t.h.submitted == [Zeros(2048)] && t.io.lengths == [2048];
    log, t := Go(start, log, t, SignalOut);
    log, t := Go(start, log, t, PutCommand);
    log, t := Go(start, log, t, WakeThread);
  }

  /** The drive has failed when it was to be written. */
  function ThreadDied(): Ring {
    var s := OneSectorIn();
    s.(io := s.io.(error := true), k := Kernel(0, 0, 0, 0), t := Thread(Exited, 1, 2048, 0))
  }

  lemma ThreadDies() returns (log: seq<Action>)
    ensures Run(Init(1, 1, [Zeros(2048)], [0], 1), log) == Reached(ThreadDied())
  {
    hide Run, Flatten, Zeros;
    var start, t := Init(1, 1, [Zeros(2048)], [0], 1), OneSectorIn();
    log := OneSectorComesIn();
    log, t := Go(start, log, t, TWake);
    log, t := Go(start, log, t, TDispatch);
    log, t := Go(start, log, t, TFirst);
    log, t := Go(start, log, t, TMerge);
    log, t := Go(start, log, t, TFail);
  }

  /** The thread can die, and IOEndWrite then waits for ever. */
  lemma DeathIsReachable() returns (t: Ring)
    ensures Reachable(t) && Dead(t) && Blocked(t)
  {
    hide Run, Flatten, Zeros;
    var start := Init(1, 1, [Zeros(2048)], [0], 1);
    var log := ThreadDies();
    t := ThreadDied();
    log, t := Go(start, log, t, Status);
    log, t := Go(start, log, t, PutEndCommand);
    log, t := Go(start, log, t, WakeForEnd);
    assert InitOk(1, 1, [Zeros(2048)], [0]);
  }

  lemma RunNothing(s: Ring)
    ensures Run(s, []) == Reached(s)
  {
  }
}
