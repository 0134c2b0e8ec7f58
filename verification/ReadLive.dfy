/** What a game read can still do, and where it ends: the progress of the machine of `ReadRing`. */
module ReadLive {
  import opened Common
  import opened Banks
  import opened ReadRing

  /** The I/O thread died of -EIO: it never acknowledges anything again. */
  predicate Dead(s: Ring) {
    s.io.error && s.t.pc.Exited? && s.k.ack == 0 && !s.c.pc.Done?
  }

  /** ReadGame waits for a block, or IOEndRead for its acknowledgement. */
  predicate Blocked(s: Ring) {
    (s.c.pc.Loop? && s.c.remaining > 0 && s.k.filled == 0) || (s.c.pc.WaitAck? && s.k.ack == 0)
  }

  /** With every sector read and every block taken, none remains to be sent. */
  lemma AllTakenMeansNoneRemains(s: Ring)
    requires Core(s) && s.c.pc.Loop? && s.io.remaining == 0 && Ready(s) == []
    ensures s.c.remaining == 0
  {
    hide Queue, Plan, Control, WakeupsSuffice, AllButLastFull;
    assert Taken(s) == s.h.read;
  }

  lemma CursorInFile(s: Ring)
    requires Core(s)
    ensures Cursor(s) <= |s.h.image|
  {
    hide Tokens, Queue, Held, Plan, Sizes, Sent, Control, WakeupsSuffice, Flatten;
  }

  /** The pending transfer runs past the end of the file. */
  predicate Overruns(s: Ring) {
    s.t.pc.Transfer? && Cursor(s) + 2048 * s.t.sectorsTotal > |s.h.image|
  }

  /**
   A step as it can come about: only a transfer that runs past the end fails for a reason io.c takes for a passing one.
   */
  predicate Allowed(s: Ring, a: Action) {
    Enabled(s, a) && (a.TRetry? ==> Overruns(s))
  }

  predicate Served(s: Ring, schedule: seq<Action>)
    decreases |schedule|
  {
    |schedule| == 0 || (Allowed(s, schedule[0]) && Served(Step(s, schedule[0]), schedule[1..]))
  }

  lemma ReadPossible(s: Ring)
    requires Core(s) && s.t.pc.Transfer? && !Overruns(s)
    ensures Enabled(s, TRead)
  {
    hide Queue, Sent, Sizes, Held, Control, WakeupsSuffice, AllButLastFull, Flatten;
  }

  lemma FitsMeansNoOverrun(s: Ring)
    requires Core(s) && 2048 * s.h.sectors + s.h.skipped <= |s.h.image|
    ensures !Overruns(s)
  {
    hide Queue, Sent, Sizes, Held, Control, WakeupsSuffice, AllButLastFull, Flatten;
  }

  function ThreadAction(pc: ThreadPc): Action {
    match pc
    case Sleep => TWake
    case Dispatch => TDispatch
    case Take => TTake
    case Merge => TMerge
    case Transfer => TRead
    case Advance => TAdvance
    case Give => TGive
    case Failing => TError
    case _ => TAck
  }

  function ConsumerAction(s: Ring): Action {
    match s.c.pc
    case Loop => if s.c.remaining > 0 then CTake else CLeave
    case Hold => if s.c.sent < s.c.length then CSend(s.c.length - s.c.sent) else CFinish
    case GiveBack => CGiveBack
    case SetCommand => CPutCommand
    case Wake => CWake
    case EndCommand => CPutEndCommand
    case EndWake => CWakeForEnd
    case _ => CTakeAck
  }

  lemma ThreadCanMove(s: Ring)
    requires Core(s) && !s.t.pc.Exited? && (s.t.pc.Sleep? ==> s.k.wakeups > 0) && !Overruns(s)
    ensures Enabled(s, ThreadAction(s.t.pc))
  {
    hide Queue, Sent, Sizes, Held, Contents, Control, WakeupsSuffice, AllButLastFull, Flatten;
    if s.t.pc.Transfer? {
      ReadPossible(s);
    }
  }

  lemma ConsumerCanMove(s: Ring)
    requires Inv(s) && !s.c.pc.Done? && !Blocked(s)
    ensures Enabled(s, ConsumerAction(s))
  {
    hide Plan, Sizes, Contents, Control, WakeupsSuffice, AllButLastFull, Flatten;
  }

  /** A waiting ReadGame or IOEndRead means a thread that can move, unless it died. */
  lemma BlockedMeansThreadActive(s: Ring)
    requires Inv(s) && Blocked(s) && !Dead(s)
    ensures !s.t.pc.Exited? && (s.t.pc.Sleep? ==> s.k.wakeups > 0)
  {
    hide Sent, Sizes, Held, Contents, AllButLastFull, Flatten;
    if s.c.pc.Loop? && s.t.pc.Sleep? && s.k.wakeups == 0 && s.io.remaining == 0 {
      assert Ready(s) == [];
      AllTakenMeansNoneRemains(s);
    }
  }

  /**
   As long as IOEndRead has not returned some step is possible, unless the consumer waits for a thread that is dead or
   repeats its transfer.
   */
  lemma SomeStepPossible(t: Ring) returns (a: Action)
    requires Inv(t) && !t.c.pc.Done? && !(Blocked(t) && (Dead(t) || Overruns(t)))
    ensures Allowed(t, a) && !a.TRetry? && !a.CSendFail? && !a.TFail?
  {
    hide Inv, Enabled, Dead, Blocked, Overruns;
    if Blocked(t) {
      BlockedMeansThreadActive(t);
      InvMeansCore(t);
      ThreadCanMove(t);
      a := ThreadAction(t.t.pc);
    } else {
      ConsumerCanMove(t);
      a := ConsumerAction(t);
    }
  }

  /** A dead thread and a waiting consumer can move no more. */
  lemma DeadAndBlockedIsStuck(t: Ring, a: Action)
    requires Reachable(t) && Dead(t) && Blocked(t)
    ensures !Enabled(t, a)
  {
    hide Sent, Sizes, Held, Contents, Plan, Queue, AllButLastFull, Flatten;
    ReachableInv(t);
  }

  /** While the consumer waits for a transfer that runs past the end, nothing changes until the drive fails. */
  lemma OverrunAndBlockedIsStuck(t: Ring, a: Action)
    requires Overruns(t) && Blocked(t) && Allowed(t, a)
    ensures a.TFail? || Step(t, a) == t
  {
  }

  /** Once the thread is dead IOEndRead does not return, whatever happens next. */
  lemma {:induction false} DeadMeansEndReadNeverReturns(s: Ring, schedule: seq<Action>)
    requires Dead(s) && Run(s, schedule).Reached?
    ensures !Run(s, schedule).s.c.pc.Done?
    decreases |schedule|
  {
    if |schedule| > 0 {
      DeadMeansEndReadNeverReturns(Step(s, schedule[0]), schedule[1..]);
    }
  }

  /** What ReadGame can still do. */
  function ConsumerWork(c: Consumer): int {
    match c.pc
    case Loop => 2100 * c.remaining + 20
    case Hold => 2100 * c.remaining + 19 - c.sent
    case GiveBack => 2100 * c.remaining + 40
    case SetCommand => 2100 * c.remaining + 39
    case Wake => 2100 * c.remaining + 38
    case EndCommand => 18
    case EndWake => 17
    case WaitAck => 10
    case Done => 0
  }

  function ThreadWork(pc: ThreadPc): int {
    match pc
    case Sleep => 0
    case Dispatch => 3
    case Take => 2
    case Merge => 9
    case Transfer => 8
    case Advance => 7
    case Give => 6
    case Failing => 1
    case Ack => 1
    case Exited => 0
  }

  function WorkOnce(s: Ring): int {
    ConsumerWork(s.c) + ThreadWork(s.t.pc) + 5 * s.k.wakeups + 12 * (s.io.remaining - s.t.sectorsTotal)
    + 2 * s.t.claimed + s.t.toGive
  }

  /** What the failure of a transfer can cost. */
  function FailureWork(s: Ring): nat {
    12 * s.h.sectors + 10
  }

  function Work(s: Ring): int {
    WorkOnce(s) + (s.io.nbufs - s.h.lost) * FailureWork(s)
  }

  lemma FailuresCost(n: int, c: nat, m: nat)
    requires 0 < c
    ensures (n - c) * m <= n * m - m
  {
    assert (n - c) * m == n * m - m - (c - 1) * m;
  }

  lemma FailureWorks(s: Ring, moved: nat)
    requires Core(s) && Enabled(s, TFail(moved))
    ensures Work(Step(s, TFail(moved))) < Work(s)
  {
    hide Queue, Sizes, Sent, Held, Control, WakeupsSuffice, AllButLastFull, Flatten, SumLengths;
    FailuresCost(s.io.nbufs - s.h.lost, s.t.claimed, FailureWork(s));
  }

  lemma WorkDiffers(s: Ring, t: Ring)
    requires t.io.nbufs == s.io.nbufs && t.h.lost == s.h.lost && t.h.sectors == s.h.sectors
    ensures Work(t) - Work(s) == WorkOnce(t) - WorkOnce(s)
  {
  }

  lemma ConsumerStepWorks(s: Ring, a: Action)
    requires Core(s) && Enabled(s, a) && !ByThread(a)
    ensures Work(Step(s, a)) < Work(s)
  {
    hide Queue, Sizes, Contents, Plan, Control, WakeupsSuffice, AllButLastFull, Flatten, Holds, Work;
    if s.c.pc.Hold? {
      BlockSectors(s);
    }
    WorkDiffers(s, Step(s, a));
  }

  lemma ThreadWorksOnce(s: Ring, a: Action)
    requires Core(s) && Enabled(s, a) && ByThread(a) && !a.TFail? && !a.TRetry?
    ensures WorkOnce(Step(s, a)) < WorkOnce(s)
  {
    hide Queue, Sizes, Contents, Sent, Held, Control, WakeupsSuffice, AllButLastFull, Flatten, Cut, StoreAcross,
         SumLengths;
    assert Step(s, a).c == s.c;
  }

  lemma ThreadStepWorks(s: Ring, a: Action)
    requires Core(s) && Enabled(s, a) && ByThread(a)
    ensures if a.TRetry? then Step(s, a) == s else Work(Step(s, a)) < Work(s)
  {
    hide Core, Flatten, Cut, StoreAcross, Work, WorkOnce;
    if a.TFail? {
      FailureWorks(s, a.moved);
    } else if !a.TRetry? {
      ThreadWorksOnce(s, a);
      WorkDiffers(s, Step(s, a));
    }
  }

  lemma WorkOnceIsNat(s: Ring)
    requires Core(s)
    ensures 0 <= WorkOnce(s) && s.h.lost <= s.io.nbufs
  {
    hide Queue, Sizes, Contents, Control, WakeupsSuffice, AllButLastFull, Flatten, Holds, SumLengths;
    if s.c.pc.Hold? {
      BlockSectors(s);
    }
  }

  lemma WorkIsNat(s: Ring)
    requires Core(s)
    ensures 0 <= Work(s)
  {
    hide Core, WorkOnce;
    WorkOnceIsNat(s);
    assert (s.io.nbufs - s.h.lost) * FailureWork(s) >= 0;
  }

  /** The steps of a schedule that are not repeats of a transfer that failed for a passing reason. */
  function Effective(schedule: seq<Action>): nat {
    if |schedule| == 0 then 0 else (if schedule[0].TRetry? then 0 else 1) + Effective(schedule[1..])
  }

  lemma {:induction false} RunIsFinite(s: Ring, schedule: seq<Action>)
    requires Inv(s) && Run(s, schedule).Reached?
    ensures Effective(schedule) + Work(Run(s, schedule).s) <= Work(s)
    ensures 0 <= Work(Run(s, schedule).s)
    decreases |schedule|
  {
    hide Inv, Step, Enabled, Work;
    if |schedule| == 0 {
      InvMeansCore(s);
      WorkIsNat(s);
    } else {
      StepInv(s, schedule[0]);
      InvMeansCore(s);
      if ByThread(schedule[0]) {
        ThreadStepWorks(s, schedule[0]);
      } else {
        ConsumerStepWorks(s, schedule[0]);
      }
      RunIsFinite(Step(s, schedule[0]), schedule[1..]);
    }
  }

  /** What does not change during a run. */
  function Settings(s: Ring): (nat, nat, nat, seq<Byte>) {
    (s.io.nbufs, s.io.bufmax, s.h.sectors, s.h.image)
  }

  lemma SettingsStay(s: Ring, a: Action)
    requires Enabled(s, a)
    ensures Settings(Step(s, a)) == Settings(s)
  {
    hide Flatten, Cut, StoreAcross;
  }

  lemma {:induction false} RunSettings(s: Ring, schedule: seq<Action>)
    requires Run(s, schedule).Reached?
    ensures Settings(Run(s, schedule).s) == Settings(s)
    decreases |schedule|
  {
    hide Step, Enabled, Settings;
    if |schedule| > 0 {
      SettingsStay(s, schedule[0]);
      RunSettings(Step(s, schedule[0]), schedule[1..]);
    }
  }

  lemma SkippedGrows(s: Ring, a: Action)
    requires Enabled(s, a)
    ensures s.h.skipped <= Step(s, a).h.skipped && s.h.lost <= Step(s, a).h.lost
    ensures !a.TFail? ==> s.h.skipped == Step(s, a).h.skipped && s.h.lost == Step(s, a).h.lost
    ensures !a.TFail? && !s.t.failed ==> !Step(s, a).t.failed
  {
    hide Flatten, Cut, StoreAcross;
  }

  predicate NothingFails(schedule: seq<Action>) {
    forall i :: 0 <= i < |schedule| ==> !schedule[i].TFail?
  }

  /** Only failed transfers skip bytes and lose tokens. */
  lemma {:induction false} SkippedByFailures(s: Ring, schedule: seq<Action>)
    requires Run(s, schedule).Reached?
    ensures var t := Run(s, schedule).s;
            && s.h.skipped <= t.h.skipped && s.h.lost <= t.h.lost
            && (NothingFails(schedule) ==>
                  t.h.skipped == s.h.skipped && t.h.lost == s.h.lost && (!s.t.failed ==> !t.t.failed))
    decreases |schedule|
  {
    hide Step, Enabled;
    if |schedule| > 0 {
      SkippedGrows(s, schedule[0]);
      SkippedByFailures(Step(s, schedule[0]), schedule[1..]);
    }
  }

  /**
   A file that holds all requested sectors and as many bytes more as were skipped never makes the thread repeat a
   transfer.
   */
  lemma {:induction false} FitsMeansNoRepeat(s: Ring, schedule: seq<Action>)
    requires Inv(s) && Run(s, schedule).Reached? && Served(s, schedule)
    requires 2048 * s.h.sectors + Run(s, schedule).s.h.skipped <= |s.h.image|
    ensures Effective(schedule) == |schedule| && TRetry !in schedule
    decreases |schedule|
  {
    hide Inv, Step, Enabled, Overruns;
    if |schedule| > 0 {
      StepInv(s, schedule[0]);
      SettingsStay(s, schedule[0]);
      SkippedByFailures(s, schedule);
      InvMeansCore(s);
      FitsMeansNoOverrun(s);
      FitsMeansNoRepeat(Step(s, schedule[0]), schedule[1..]);
      assert schedule == [schedule[0]] + schedule[1..];
    }
  }

  /**
   A run of a game read makes at most 2112 steps a sector and 25 more, and 12 a sector and 10 more for every bank token
   lost; no others if the file holds the requested sectors and what was skipped, otherwise repeats of a transfer come on
   top. A run that can go no further has let IOEndRead return, or the thread has ended after -EIO, or it repeats a
   transfer that runs past the end.
   */
  lemma EveryRunEnds(nbufs: nat, bufmax: nat, banks: seq<seq<Byte>>, lengths: seq<nat>, sectors: nat, image: seq<Byte>,
                     schedule: seq<Action>, t: Ring)
    requires InitOk(nbufs, bufmax, banks, lengths)
    requires Run(Init(nbufs, bufmax, banks, lengths, sectors, image), schedule) == Reached(t)
    requires Served(Init(nbufs, bufmax, banks, lengths, sectors, image), schedule)
    ensures Effective(schedule) <= 2112 * sectors + 25 + t.h.lost * (12 * sectors + 10)
    ensures 2048 * sectors + t.h.skipped <= |image| ==>
      TRetry !in schedule && |schedule| <= 2112 * sectors + 25 + t.h.lost * (12 * sectors + 10)
    ensures (forall a :: Allowed(t, a) ==> a.TRetry? || a.TFail?)
            ==> t.c.pc.Done? || (Blocked(t) && (Dead(t) || (Overruns(t) && |image| < 2048 * sectors + t.h.skipped)))
  {
    hide Inv, Run, Served, Allowed, Overruns, Dead, Blocked;
    InitInv(nbufs, bufmax, banks, lengths, sectors, image);
    RunEnds(Init(nbufs, bufmax, banks, lengths, sectors, image), schedule, t);
  }

  lemma RunEnds(s: Ring, schedule: seq<Action>, t: Ring)
    requires Inv(s) && AtStart(s) && Run(s, schedule) == Reached(t) && Served(s, schedule)
    ensures Effective(schedule) <= 2112 * s.h.sectors + 25 + t.h.lost * (12 * s.h.sectors + 10)
    ensures 2048 * s.h.sectors + t.h.skipped <= |s.h.image| ==>
      TRetry !in schedule && |schedule| <= 2112 * s.h.sectors + 25 + t.h.lost * (12 * s.h.sectors + 10)
    ensures (forall a :: Allowed(t, a) ==> a.TRetry? || a.TFail?)
            ==> t.c.pc.Done?
                || (Blocked(t) && (Dead(t) || (Overruns(t) && |s.h.image| < 2048 * s.h.sectors + t.h.skipped)))
  {
    hide Inv, Allowed, Work, Run, Served, Overruns, Dead, Blocked, AtStart;
    RunInv(s, schedule);
    RunSettings(s, schedule);
    RunBound(s, schedule, t);
    if 2048 * s.h.sectors + t.h.skipped <= |s.h.image| {
      FitsMeansNoRepeat(s, schedule);
      InvMeansCore(t);
      FitsMeansNoOverrun(t);
    }
    if !t.c.pc.Done? && !(Blocked(t) && (Dead(t) || Overruns(t))) {
      var a := SomeStepPossible(t);
    }
  }

  lemma WorkLeft(s: Ring)
    requires Core(s)
    ensures Work(s) >= s.io.nbufs * FailureWork(s) - s.h.lost * FailureWork(s)
  {
    hide Core, WorkOnce;
    WorkOnceIsNat(s);
    assert (s.io.nbufs - s.h.lost) * FailureWork(s) == s.io.nbufs * FailureWork(s) - s.h.lost * FailureWork(s);
  }

  /** The start of a run, as far as the work to be done goes. */
  predicate AtStart(s: Ring) {
    && s.c.pc.Loop? && s.c.remaining == s.io.remaining == s.h.sectors && s.t.pc.Sleep? && s.k.wakeups == 1
    && s.t.sectorsTotal == s.t.claimed == s.t.toGive == s.h.lost == 0
  }

  lemma WorkAtStart(s: Ring)
    requires AtStart(s)
    ensures Work(s) == 2112 * s.h.sectors + 25 + s.io.nbufs * FailureWork(s)
  {
    assert (s.io.nbufs - 0) * FailureWork(s) == s.io.nbufs * FailureWork(s);
  }

  lemma RunBound(s: Ring, schedule: seq<Action>, t: Ring)
    requires Inv(s) && AtStart(s) && Run(s, schedule) == Reached(t)
    ensures Effective(schedule) <= 2112 * s.h.sectors + 25 + t.h.lost * (12 * s.h.sectors + 10)
  {
    hide Inv, Run, Work, AtStart;
    RunIsFinite(s, schedule);
    RunInv(s, schedule);
    RunSettings(s, schedule);
    InvMeansCore(t);
    WorkLeft(t);
    WorkAtStart(s);
    assert FailureWork(t) == FailureWork(s) == 12 * s.h.sectors + 10 && t.io.nbufs == s.io.nbufs;
  }

  /** `more` brings the game read from `t` to its end, with all requested sectors sent. */
  predicate EndsWell(t: Ring, more: seq<Action>) {
    && Served(t, more) && Run(t, more).Reached?
    && var u := Run(t, more).s;
       u.c.pc.Done? && u.c.result == 0
  }

  lemma CleanStep(s: Ring, a: Action)
    requires Enabled(s, a) && !a.CSendFail? && !a.TFail? && s.c.result == 0 && !s.io.error && !s.t.failed && Tokens(s)
    ensures Step(s, a).c.result == 0 && !Step(s, a).io.error
  {
    hide Flatten, Cut, StoreAcross;
  }

  /**
   With all requested sectors in the file the end can be reached from everywhere, as long as the network has not failed.
   */
  lemma {:induction false} Finish(t: Ring) returns (more: seq<Action>)
    requires Inv(t) && t.c.result == 0 && !t.io.error && !t.t.failed && 2048 * t.h.sectors + t.h.skipped <= |t.h.image|
    ensures EndsWell(t, more)
    decreases Work(t)
  {
    hide Inv, Step, Enabled, Work, Overruns, Tokens;
    if t.c.pc.Done? {
      more := [];
    } else {
      InvMeansCore(t);
      FitsMeansNoOverrun(t);
      TokensHold(t);
      var a := SomeStepPossible(t);
      StepInv(t, a);
      SettingsStay(t, a);
      CleanStep(t, a);
      SkippedGrows(t, a);
      WorkIsNat(t);
      InvMeansCore(Step(t, a));
      WorkIsNat(Step(t, a));
      if ByThread(a) {
        ThreadStepWorks(t, a);
      } else {
        ConsumerStepWorks(t, a);
      }
      var rest := Finish(Step(t, a));
      more := [a] + rest;
      assert more[1..] == rest;
    }
  }

  lemma TokensHold(s: Ring)
    requires Inv(s)
    ensures Tokens(s)
  {
  }

  /**
   A game read whose connection stands and whose last transfer has not failed can still end well if and only if the file
   holds all requested sectors, and as many bytes more as were skipped. Otherwise it hangs, once the file has been read
   as far as whole transfers go, until the drive fails.
   */
  lemma CanEndWellIff(nbufs: nat, bufmax: nat, banks: seq<seq<Byte>>, lengths: seq<nat>, sectors: nat, image: seq<Byte>,
                      schedule: seq<Action>, t: Ring)
    requires InitOk(nbufs, bufmax, banks, lengths)
    requires Run(Init(nbufs, bufmax, banks, lengths, sectors, image), schedule) == Reached(t)
    requires t.c.result == 0 && !t.io.error && !t.t.failed
    ensures (exists more :: EndsWell(t, more)) <==> 2048 * sectors + t.h.skipped <= |image|
  {
    hide Inv, Step, Enabled, Flatten;
    var s := Init(nbufs, bufmax, banks, lengths, sectors, image);
    InitInv(nbufs, bufmax, banks, lengths, sectors, image);
    RunInv(s, schedule);
    RunSettings(s, schedule);
    if 2048 * sectors + t.h.skipped <= |image| {
      var more := Finish(t);
    } else {
      forall more | EndsWell(t, more) ensures false {
        RunInv(t, more);
        RunSettings(t, more);
        SkippedByFailures(t, more);
        SentOfImage(Run(t, more).s);
      }
    }
  }

  lemma {:induction false} RunSnoc(s: Ring, schedule: seq<Action>, a: Action)
    requires Run(s, schedule).Reached? && Enabled(Run(s, schedule).s, a)
    ensures Run(s, schedule + [a]) == Reached(Step(Run(s, schedule).s, a))
    decreases |schedule|
  {
    hide Step, Enabled;
    if |schedule| == 0 {
      assert schedule + [a] == [a] && [a][1..] == [];
      assert Run(Step(s, a), []) == Reached(Step(s, a));
    } else {
      assert (schedule + [a])[1..] == schedule[1..] + [a];
      RunSnoc(Step(s, schedule[0]), schedule[1..], a);
    }
  }

  lemma {:induction false} ServedSnoc(s: Ring, schedule: seq<Action>, a: Action)
    requires Run(s, schedule).Reached? && Served(s, schedule) && Allowed(Run(s, schedule).s, a)
    ensures Served(s, schedule + [a])
    decreases |schedule|
  {
    hide Step, Enabled, Overruns;
    if |schedule| == 0 {
      assert schedule + [a] == [a] && [a][1..] == [];
    } else {
      assert (schedule + [a])[1..] == schedule[1..] + [a];
      ServedSnoc(Step(s, schedule[0]), schedule[1..], a);
    }
  }

  /** One step further. */
  lemma Go(start: Ring, log: seq<Action>, t: Ring, a: Action) returns (log': seq<Action>, t': Ring)
    requires Run(start, log) == Reached(t) && Enabled(t, a)
    ensures t' == Step(t, a) && Run(start, log') == Reached(t')
  {
    RunSnoc(start, log, a);
    log', t' := log + [a], Step(t, a);
  }

  lemma RunNothing(s: Ring)
    ensures Run(s, []) == Reached(s)
  {
  }

  function SmallRead(nbufs: nat, image: seq<Byte>): Ring {
    Init(nbufs, 1, Repeat(Zeros(2048), nbufs), Repeat(0, nbufs), 1, image)
  }

  /** One transfer for the one sector asked for is about to be made. */
  lemma FirstTransfer(nbufs: nat, image: seq<Byte>) returns (log: seq<Action>, t: Ring)
    requires 0 < nbufs
    ensures Run(SmallRead(nbufs, image), log) == Reached(t)
    ensures var s := SmallRead(nbufs, image);
            t == s.(io := s.io.(lengths := s.io.lengths[0 := 2048]), k := Kernel(nbufs - 1, 0, 0, 0),
                   t := Thread(Transfer, 1, 1, 0, false))
  {
    hide Run, Flatten, Zeros, Cut, StoreAcross;
    var start := SmallRead(nbufs, image);
    RunNothing(start);
    log, t := Go(start, [], start, TWake);
    log, t := Go(start, log, t, TDispatch);
    log, t := Go(start, log, t, TTake);
    log, t := Go(start, log, t, TMerge);
  }

  /** The thread can die: the drive fails at the first transfer. ReadGame then waits for its first block for ever. */
  lemma DeathIsReachable() returns (t: Ring)
    ensures Reachable(t) && Dead(t) && Blocked(t)
  {
    hide Run, Flatten, Zeros, Cut, StoreAcross;
    var start := SmallRead(1, Zeros(2048));
    var log;
    log, t := FirstTransfer(1, Zeros(2048));
    FlattenNothing();
    log, t := Go(start, log, t, TFail(0));
    log, t := Go(start, log, t, TTake);
    log, t := Go(start, log, t, TError);
    assert InitOk(1, 1, start.io.banks, start.io.lengths);
  }

  lemma FlattenNothing()
    ensures Flatten<Byte>([]) == []
  {
  }

  /** The drive has failed at that, and the thread is about to try again with the other of two banks. */
  lemma SecondTransfer(image: seq<Byte>) returns (log: seq<Action>, t: Ring)
    requires |image| == 4096
    ensures Run(SmallRead(2, image), log) == Reached(t)
    ensures t.io == SmallRead(2, image).io.(lengths := [2048, 0]) && t.k == Kernel(0, 0, 0, 0)
    ensures t.c == SmallRead(2, image).c && t.t == Thread(Transfer, 1, 1, 0, true)
    ensures t.h == History(1, image, [], 0, [], 512, 1, [])
  {
    hide Run, Flatten, Zeros, Cut, StoreAcross;
    var start := SmallRead(2, image);
    log, t := FirstTransfer(2, image);
    FlattenNothing();
    log, t := Go(start, log, t, TFail(512));
    log, t := Go(start, log, t, TTake);
    log, t := Go(start, log, t, TMerge);
    assert t.io.lengths == [2048, 0];
  }

  /** Then it goes on, from another place of the file. */
  lemma SkippingRun(image: seq<Byte>) returns (log: seq<Action>, t: Ring)
    requires |image| == 4096
    ensures Run(SmallRead(2, image), log) == Reached(t)
    ensures Ending(t) && t.c.result == 0 && !t.io.error && t.h.skipped == 512
    ensures |t.h.output| == 2048 && t.h.shifts == Repeat(512, 2048)
  {
    hide Run, Flatten, Zeros, Cut, StoreAcross;
    var start := SmallRead(2, image);
    log, t := SecondTransfer(image);
    FlattenNothing();
    log, t := Go(start, log, t, TRead);
    assert t.h.shifts == Repeat(512, 2048);
    log, t := Go(start, log, t, TAdvance);
    log, t := Go(start, log, t, TGive);
    log, t := Go(start, log, t, CTake);
    log, t := Go(start, log, t, CSend(2048));
    log, t := Go(start, log, t, CFinish);
  }

  /** The failure goes unnoticed. */
  lemma SkippingGoesUnnoticed(image: seq<Byte>) returns (t: Ring)
    requires |image| == 4096
    ensures Reachable(t) && Ending(t) && t.c.result == 0 && !t.io.error && t.h.skipped == 512
  {
    hide Run;
    var log;
    log, t := SkippingRun(image);
    assert InitOk(2, 1, SmallRead(2, image).io.banks, SmallRead(2, image).io.lengths);
  }
}
