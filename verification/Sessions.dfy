/**
 Client sessions of HDLGameSvr.c and the installation lock they share with the console's own menu. Each step is one
 access to shared state; steps of different clients, of their data threads and of the menu come in any order. A client's
 server thread does not wait for its data thread when the control connection is gone: it ends the game while the data
 thread may still be transferring it.
 */
module Sessions {
  import opened Common

  datatype Task = NoTask | GameInstallation | OsdConfig

  /**
   Where a client's server thread stands: at rest, in the command that opens a game, in EndInstallation after that has
   failed, or in CleanupClientConnection.
   */
  datatype Phase = Idle | Opening | Connecting | Failing | CleaningUp

  /** A client's data thread: not started, transferring a game, in CloseGame, or past it but not ended yet. */
  datatype DataThread = Dormant | Working | Closing | Closed

  /**
   The I/O thread of the open game; there is one IOState. Whoever ends the game puts the end command (`Ending`); the
   thread acknowledges once it has seen it. A data thread that goes on meanwhile puts its own command over it, and the
   end command is never seen (WriteClose.EndReturnsIff, ReadClose.EndReturnsIff). `Hung` is a thread that acknowledges
   nothing for another reason: it has ended after -EIO (WriteLive.DeadMeansEndWriteNeverReturns,
   ReadLive.DeadMeansEndReadNeverReturns), or repeats a transfer past the end of the game without end
   (WriteLive.OverrunAndBlockedIsStuck, ReadLive.OverrunAndBlockedIsStuck).
   */
  datatype GameIo = NoGame | Running | Ending | Seen | Overwritten | Hung

  /** struct ClientData. */
  datatype Client = Client(connected: bool, verified: bool, task: Task, phase: Phase, data: DataThread)

  const FREE_SLOT := Client(false, false, NoTask, Idle, Dormant)

  /** The console's menu: in an installation of its own, ending it, or waiting for its I/O thread in vain. */
  datatype Menu = Away | Installing | Finishing | Waiting

  /** `lock` is the count of InstallationLockSema; `lost` counts tokens nobody holds any more. */
  datatype Server = Server(lock: nat, menu: Menu, clients: seq<Client>, lost: nat, io: GameIo)

  function Init(slots: nat): Server {
    Server(1, Away, seq(slots, _ => FREE_SLOT), 0, NoGame)
  }

  datatype Action =
    | Connect(i: nat)              // StartClientThread
    | Verify(i: nat)               // HDLGMAN_CLIENT_SEND_VERSION with the right version
    | Poll(i: nat)                 // PollSema on the installation lock
    | OpenFails(i: nat)            // no memory, or the partition cannot be made, mounted, opened or sought
    | OpenMounts(i: nat)           // MountOpenGame has succeeded
    | DataConnects(i: nat)         // InitDataConnection
    | DataFails(i: nat) | FailEnds(i: nat)            // EndInstallation after it has failed
    | Submits(i: nat)              // the data thread, in IOSignalWriteDone or IOReadAdvance
    | CloseBegins(i: nat) | CloseEnds(i: nat)         // CloseGame, in the data thread
    | DataThreadEnds(i: nat)
    | OsdBegin(i: nat) | OsdEnd(i: nat)
    | CleanupBegins(i: nat) | CleanupEnds(i: nat)     // CleanupClientConnection
    | IoSees | Hangs               // the I/O thread of the open game
    | LocalWait | LocalGivesUp | LocalPutsEnd | LocalSignal | LocalHangs   // the menu, round a local installation

  predicate At(s: Server, i: nat) {
    i < |s.clients|
  }

  /** The server thread of a verified client is at rest. */
  predicate CanServe(s: Server, i: nat) {
    At(s, i) && s.clients[i].connected && s.clients[i].verified && s.clients[i].phase.Idle?
  }

  /** Nobody has the client's StateSemaID. */
  predicate Unlocked(c: Client) {
    c.phase.Idle? && !c.data.Closing?
  }

  /** EndInstallation's wait for the I/O thread, which there is if the client has a game, is over. */
  predicate CanEnd(c: Client, io: GameIo) {
    c.task.GameInstallation? ==> io.Seen?
  }

  predicate Enabled(s: Server, a: Action) {
    match a
    case Connect(i) => At(s, i) && !s.clients[i].connected && s.clients[i].phase.Idle?
    case Verify(i) => At(s, i) && s.clients[i].connected && !s.clients[i].verified && s.clients[i].phase.Idle?
    case Poll(i) => CanServe(s, i) && Unlocked(s.clients[i]) && s.clients[i].task.NoTask?
    case OpenFails(i) => At(s, i) && s.clients[i].phase.Opening?
    case OpenMounts(i) => At(s, i) && s.clients[i].phase.Opening?
    case DataConnects(i) => At(s, i) && s.clients[i].phase.Connecting? && s.clients[i].data.Dormant?
    case DataFails(i) => At(s, i) && s.clients[i].phase.Connecting?
    case FailEnds(i) => At(s, i) && s.clients[i].phase.Failing? && CanEnd(s.clients[i], s.io)
    case Submits(i) => At(s, i) && s.clients[i].data.Working?
    case CloseBegins(i) => At(s, i) && s.clients[i].data.Working? && Unlocked(s.clients[i])
    case CloseEnds(i) => At(s, i) && s.clients[i].data.Closing? && CanEnd(s.clients[i], s.io)
    case DataThreadEnds(i) => At(s, i) && s.clients[i].data.Closed?
    case OsdBegin(i) => CanServe(s, i) && Unlocked(s.clients[i]) && s.clients[i].task.NoTask?
    case OsdEnd(i) => CanServe(s, i) && s.clients[i].task.OsdConfig?
    case CleanupBegins(i) => At(s, i) && s.clients[i].connected && Unlocked(s.clients[i])
    case CleanupEnds(i) => At(s, i) && s.clients[i].phase.CleaningUp? && CanEnd(s.clients[i], s.io)
    case IoSees => s.io.Ending?
    case Hangs => s.menu.Away? && (s.io.Running? || s.io.Ending? || s.io.Seen?)
    case LocalWait => s.menu.Away? && s.lock > 0
    case LocalGivesUp => s.menu.Installing?
    case LocalPutsEnd => s.menu.Installing?
    case LocalSignal => s.menu.Finishing? && s.io.Seen?
    case LocalHangs => (s.menu.Installing? || s.menu.Finishing?) && !s.io.Overwritten?
  }

  /** EndInstallation up to its wait: the end command, if the client has a game. */
  function EndPut(c: Client, io: GameIo): GameIo {
    if c.task.GameInstallation? && io.Running? then Ending else io
  }

  /** EndInstallation after its wait. */
  function Ended(s: Server, i: nat, c: Client): Server
    requires i < |s.clients|
  {
    if c.task.GameInstallation? then s.(lock := s.lock + 1, clients := s.clients[i := c.(task := NoTask)], io := NoGame)
    else s.(clients := s.clients[i := c])
  }

  /** Client `i` becomes `c`, and the game's I/O thread `io`. */
  function With(s: Server, i: nat, c: Client, io: GameIo): Server
    requires i < |s.clients|
  {
    s.(clients := s.clients[i := c], io := io)
  }

  function Step(s: Server, a: Action): Server
    requires Enabled(s, a)
  {
    match a
    case Connect(i) => With(s, i, s.clients[i].(connected := true), s.io)
    case Verify(i) => With(s, i, s.clients[i].(verified := true), s.io)
    case Poll(i) =>
      if s.lock > 0 then With(s, i, s.clients[i].(phase := Opening), s.io).(lock := s.lock - 1) else s
    case OpenFails(i) =>
      // EndInstallation is called, but the task is not set yet, so it does nothing
      With(s, i, s.clients[i].(phase := Idle), s.io).(lost := s.lost + 1)
    case OpenMounts(i) => With(s, i, s.clients[i].(phase := Connecting, task := GameInstallation), Running)
    case DataConnects(i) => With(s, i, s.clients[i].(phase := Idle, data := Working), s.io)
    case DataFails(i) => With(s, i, s.clients[i].(phase := Failing), EndPut(s.clients[i], s.io))
    case FailEnds(i) => Ended(s, i, s.clients[i].(phase := Idle))
    case Submits(i) => s.(io := if s.io.Ending? then Overwritten else s.io)
    case CloseBegins(i) => With(s, i, s.clients[i].(data := Closing), EndPut(s.clients[i], s.io))
    case CloseEnds(i) => Ended(s, i, s.clients[i].(data := Closed))
    case DataThreadEnds(i) => With(s, i, s.clients[i].(data := Dormant), s.io)
    case OsdBegin(i) => With(s, i, s.clients[i].(task := OsdConfig), s.io)
    case OsdEnd(i) => With(s, i, s.clients[i].(task := NoTask), s.io)
    case CleanupBegins(i) => With(s, i, s.clients[i].(phase := CleaningUp), EndPut(s.clients[i], s.io))
    case CleanupEnds(i) => Cleaned(Ended(s, i, s.clients[i]), i)
    case IoSees => s.(io := Seen)
    case Hangs => s.(io := Hung)
    case LocalWait => s.(lock := s.lock - 1, menu := Installing, io := Running)
    case LocalGivesUp => s.(lock := s.lock + 1, menu := Away, io := NoGame)
    case LocalPutsEnd => s.(menu := Finishing, io := Ending)
    case LocalSignal => s.(lock := s.lock + 1, menu := Away, io := NoGame)
    case LocalHangs => s.(menu := Waiting, io := Hung)
  }

  /** The client's slot is free again; its data thread may still be there. */
  function Cleaned(s: Server, i: nat): Server
    requires i < |s.clients|
  {
    s.(clients := s.clients[i := s.clients[i].(connected := false, verified := false, task := NoTask, phase := Idle)])
  }

  datatype Outcome = Stuck | Reached(s: Server)

  function Run(s: Server, schedule: seq<Action>): Outcome
    decreases |schedule|
  {
    if |schedule| == 0 then Reached(s)
    else if Enabled(s, schedule[0]) then Run(Step(s, schedule[0]), schedule[1..])
    else Stuck
  }

  // ---------------------------------------------------------------- the lock's tokens

  /** A client holds the lock from the moment it polled it until its game is closed. */
  function Share(c: Client): nat {
    if c.phase.Opening? || c.task.GameInstallation? then 1 else 0
  }

  function Holders(clients: seq<Client>): nat {
    if |clients| == 0 then 0 else Share(clients[0]) + Holders(clients[1..])
  }

  lemma {:induction false} HoldersUpdate(clients: seq<Client>, i: nat, c: Client)
    requires i < |clients|
    ensures Holders(clients[i := c]) == Holders(clients) - Share(clients[i]) + Share(c)
  {
    if i > 0 {
      HoldersUpdate(clients[1..], i - 1, c);
      assert clients[i := c][1..] == clients[1..][i - 1 := c];
    } else {
      assert clients[i := c][1..] == clients[1..];
    }
  }

  lemma {:induction false} NobodyHolds(clients: seq<Client>)
    requires forall i :: 0 <= i < |clients| ==> clients[i] == FREE_SLOT
    ensures Holders(clients) == 0
  {
    if |clients| > 0 {
      NobodyHolds(clients[1..]);
    }
  }

  lemma {:induction false} HolderCounts(clients: seq<Client>, i: nat)
    requires i < |clients|
    ensures Share(clients[i]) <= Holders(clients)
    ensures forall j :: 0 <= j < |clients| && j != i ==> Share(clients[i]) + Share(clients[j]) <= Holders(clients)
  {
    if i > 0 {
      HolderCounts(clients[1..], i - 1);
      forall j | 0 <= j < |clients| && j != i ensures Share(clients[i]) + Share(clients[j]) <= Holders(clients) {
        if j > 0 {
          assert clients[1..][j - 1] == clients[j];
        }
      }
    } else {
      forall j | 0 < j < |clients| ensures Share(clients[0]) + Share(clients[j]) <= Holders(clients) {
        HolderCounts(clients[1..], j - 1);
      }
    }
  }

  /** Nothing of the lock is created or destroyed: it is free, held by a client or by the menu, or lost. */
  predicate Conserved(s: Server) {
    s.lock + Holders(s.clients) + (if s.menu.Away? then 0 else 1) + s.lost == 1
  }

  /** The client waits for its game's I/O thread. */
  predicate Waits(c: Client) {
    c.phase.Failing? || c.phase.CleaningUp? || c.data.Closing?
  }

  predicate ClientOk(c: Client) {
    && (c.verified ==> c.connected)
    && (!c.phase.Idle? ==> c.connected && !c.data.Closing?)
    && (c.phase.Opening? || c.phase.Connecting? || c.phase.Failing? || !c.task.NoTask? ==> c.connected && c.verified)
    && (c.phase.Opening? ==> c.task.NoTask?)
    && (c.phase.Connecting? || c.phase.Failing? ==> c.task.GameInstallation?)
    && (c.task.GameInstallation? && (c.phase.Idle? || c.phase.CleaningUp?) ==> c.data.Working? || c.data.Closing?)
  }

  /** What a client that holds the lock means for the I/O thread. */
  predicate IoOk(c: Client, io: GameIo) {
    && (c.phase.Opening? ==> io.NoGame?)
    && (c.task.GameInstallation? ==>
          && !io.NoGame? && (io.Running? ==> !Waits(c))
          && (io.Ending? || io.Seen? || io.Overwritten? ==> Waits(c)))
  }

  predicate MenuOk(s: Server) {
    && (s.menu.Installing? ==> s.io.Running?)
    && (s.menu.Finishing? ==> s.io.Ending? || s.io.Seen? || s.io.Overwritten?)
    && (s.menu.Waiting? ==> s.io.Hung?)
    && (!s.io.NoGame? ==> s.lock == 0 && s.lost == 0)
  }

  predicate Inv(s: Server) {
    && Conserved(s) && MenuOk(s)
    && forall i :: 0 <= i < |s.clients| ==> ClientOk(s.clients[i]) && IoOk(s.clients[i], s.io)
  }

  lemma InitInv(slots: nat)
    ensures Inv(Init(slots))
  {
    NobodyHolds(Init(slots).clients);
  }

  /** The client a step is about; the I/O thread's and the menu's concern none. */
  function Mover(a: Action): int {
    if a.IoSees? || a.Hangs? || a.LocalWait? || a.LocalGivesUp? || a.LocalPutsEnd? || a.LocalSignal? || a.LocalHangs?
    then -1 else a.i
  }

  /** A step changes its own client only. */
  lemma StepFrame(s: Server, a: Action)
    requires Enabled(s, a)
    ensures var i := Mover(a);
            if i < 0 then Step(s, a).clients == s.clients
            else i < |s.clients| == |Step(s, a).clients| && Step(s, a).clients == s.clients[i := Step(s, a).clients[i]]
  {
  }

  /** Whoever holds the lock is the only one. */
  lemma HolderIsAlone(s: Server, i: nat)
    requires Conserved(s) && i < |s.clients| && Share(s.clients[i]) == 1
    ensures s.lock == 0 && s.menu.Away? && s.lost == 0
    ensures forall j :: 0 <= j < |s.clients| && j != i ==> Share(s.clients[j]) == 0
  {
    hide Holders;
    HolderCounts(s.clients, i);
  }

  lemma ConservedStep(s: Server, a: Action)
    requires Inv(s) && Enabled(s, a)
    ensures Conserved(Step(s, a)) && MenuOk(Step(s, a))
  {
    hide Holders;
    var t, i := Step(s, a), Mover(a);
    StepFrame(s, a);
    if i >= 0 {
      HoldersUpdate(s.clients, i, t.clients[i]);
      assert ClientOk(s.clients[i]) && IoOk(s.clients[i], s.io);
      HolderCounts(s.clients, i);
    }
  }

  lemma MoverStep(s: Server, a: Action)
    requires Inv(s) && Enabled(s, a) && Mover(a) >= 0
    ensures var i, t := Mover(a), Step(s, a); i < |t.clients| && ClientOk(t.clients[i]) && IoOk(t.clients[i], t.io)
  {
    hide Holders;
    var i := Mover(a);
    assert ClientOk(s.clients[i]) && IoOk(s.clients[i], s.io);
    HolderCounts(s.clients, i);
  }

  lemma OtherStep(s: Server, a: Action, j: nat)
    requires Inv(s) && Enabled(s, a) && j < |s.clients| && j != Mover(a)
    ensures j < |Step(s, a).clients| && ClientOk(Step(s, a).clients[j]) && IoOk(Step(s, a).clients[j], Step(s, a).io)
  {
    hide Holders;
    StepFrame(s, a);
    assert ClientOk(s.clients[j]) && IoOk(s.clients[j], s.io);
    if Share(s.clients[j]) == 1 {
      HolderIsAlone(s, j);
      if Mover(a) >= 0 {
        assert ClientOk(s.clients[Mover(a)]);
      }
    }
  }

  lemma StepInv(s: Server, a: Action)
    requires Inv(s) && Enabled(s, a)
    ensures Inv(Step(s, a))
  {
    hide Conserved, MenuOk, ClientOk, IoOk, Step, Enabled;
    ConservedStep(s, a);
    StepFrame(s, a);
    forall j | 0 <= j < |Step(s, a).clients|
      ensures ClientOk(Step(s, a).clients[j]) && IoOk(Step(s, a).clients[j], Step(s, a).io)
    {
      if j == Mover(a) {
        MoverStep(s, a);
      } else {
        OtherStep(s, a, j);
      }
    }
  }

  lemma {:induction false} RunInv(s: Server, schedule: seq<Action>)
    requires Inv(s) && Run(s, schedule).Reached?
    ensures Inv(Run(s, schedule).s)
    decreases |schedule|
  {
    hide Inv, Step, Enabled;
    if |schedule| > 0 {
      StepInv(s, schedule[0]);
      RunInv(Step(s, schedule[0]), schedule[1..]);
    }
  }

  // ---------------------------------------------------------------- what holds of every run

  ghost predicate Reachable(t: Server) {
    exists slots, schedule :: Run(Init(slots), schedule) == Reached(t)
  }

  lemma ReachableInv(t: Server)
    requires Reachable(t)
    ensures Inv(t)
  {
    hide Inv;
    var slots, schedule :| Run(Init(slots), schedule) == Reached(t);
    InitInv(slots);
    RunInv(Init(slots), schedule);
  }

  /** A client that has a game holds the lock alone, and the lock is never given back twice. */
  lemma OneInstallerAtATime(t: Server, i: nat)
    requires Reachable(t) && i < |t.clients|
    ensures t.lock <= 1
    ensures t.clients[i].task.GameInstallation? ==>
      && t.lock == 0 && t.menu.Away?
      && forall j :: 0 <= j < |t.clients| && j != i ==>
           !t.clients[j].task.GameInstallation? && !t.clients[j].phase.Opening?
    ensures !t.menu.Away? ==> t.lock == 0
  {
    hide Holders;
    ReachableInv(t);
    if t.clients[i].task.GameInstallation? {
      HolderIsAlone(t, i);
      forall j | 0 <= j < |t.clients| && j != i
        ensures !t.clients[j].task.GameInstallation? && !t.clients[j].phase.Opening?
      {
        assert Share(t.clients[j]) == 0;
      }
    }
  }

  /** Whoever has a task or is opening a game has passed the version check on this connection. */
  lemma NoTaskBeforeVersion(t: Server, i: nat)
    requires Reachable(t) && i < |t.clients|
    requires !t.clients[i].task.NoTask? || t.clients[i].phase.Opening? || t.clients[i].phase.Connecting?
    ensures t.clients[i].connected && t.clients[i].verified
  {
    ReachableInv(t);
    assert ClientOk(t.clients[i]);
  }

  /**
   Whoever ends a game, its data thread, its server thread or the command that opened it, gives the lock back if and
   only if the I/O thread has seen the end command.
   */
  lemma GameEndsIff(t: Server, i: nat)
    requires Reachable(t) && i < |t.clients| && t.clients[i].task.GameInstallation? && Waits(t.clients[i])
    ensures var a := if t.clients[i].phase.Failing? then FailEnds(i)
                     else if t.clients[i].phase.CleaningUp? then CleanupEnds(i) else CloseEnds(i);
            && (Enabled(t, a) <==> t.io.Seen?)
            && (Enabled(t, a) ==> Step(t, a).lock == 1 && Step(t, a).clients[i].task.NoTask?)
    ensures t.io.Ending? || t.io.Seen? || t.io.Overwritten? || t.io.Hung?
  {
    hide Holders;
    ReachableInv(t);
    assert ClientOk(t.clients[i]) && IoOk(t.clients[i], t.io);
    HolderIsAlone(t, i);
  }

  // ---------------------------------------------------------------- the lock's return

  /** Openings of games that failed before the task was noted. */
  function FailedOpens(schedule: seq<Action>): nat {
    if |schedule| == 0 then 0 else (if schedule[0].OpenFails? then 1 else 0) + FailedOpens(schedule[1..])
  }

  lemma {:induction false} LostIsFailedOpens(s: Server, schedule: seq<Action>)
    requires Run(s, schedule).Reached?
    ensures Run(s, schedule).s.lost == s.lost + FailedOpens(schedule)
    decreases |schedule|
  {
    if |schedule| > 0 {
      LostIsFailedOpens(Step(s, schedule[0]), schedule[1..]);
    }
  }

  /**
   The lock's token is free or held by somebody exactly when no opening of a game has failed before its task was noted.
   */
  lemma TokenIsThereIff(slots: nat, schedule: seq<Action>)
    requires Run(Init(slots), schedule).Reached?
    ensures var t := Run(Init(slots), schedule).s;
            t.lock + Holders(t.clients) + (if t.menu.Away? then 0 else 1) == 1 <==> FailedOpens(schedule) == 0
    ensures FailedOpens(schedule) <= 1
  {
    InitInv(slots);
    RunInv(Init(slots), schedule);
    LostIsFailedOpens(Init(slots), schedule);
  }

  /** The lock will not come back: its token is lost, or whoever holds it waits in vain for the I/O thread, or will. */
  predicate Gone(s: Server) {
    s.lost > 0 || s.io.Overwritten? || s.io.Hung?
  }

  /** The steps that make it so; the last is a data thread that puts its command over the end command. */
  predicate Mishap(s: Server, a: Action) {
    a.OpenFails? || a.Hangs? || a.LocalHangs? || (a.Submits? && s.io.Ending?)
  }

  function Mishaps(s: Server, schedule: seq<Action>): nat
    decreases |schedule|
  {
    if |schedule| == 0 || !Enabled(s, schedule[0]) then 0
    else (if Mishap(s, schedule[0]) then 1 else 0) + Mishaps(Step(s, schedule[0]), schedule[1..])
  }

  /** It stays so, and it happens once only. */
  lemma GoneStep(s: Server, a: Action)
    requires Inv(s) && Enabled(s, a)
    ensures Gone(Step(s, a)) <==> Gone(s) || Mishap(s, a)
    ensures Gone(s) ==> !Mishap(s, a)
  {
    hide Holders;
    var i := Mover(a);
    if i >= 0 {
      assert ClientOk(s.clients[i]) && IoOk(s.clients[i], s.io);
      if Share(s.clients[i]) == 1 {
        HolderIsAlone(s, i);
      }
    }
  }

  lemma {:induction false} GoneIsMishaps(s: Server, schedule: seq<Action>)
    requires Inv(s) && Run(s, schedule).Reached?
    ensures Gone(Run(s, schedule).s) <==> Gone(s) || Mishaps(s, schedule) > 0
    ensures Mishaps(s, schedule) <= if Gone(s) then 0 else 1
    decreases |schedule|
  {
    hide Inv, Step, Enabled, Gone, Mishap;
    if |schedule| > 0 {
      StepInv(s, schedule[0]);
      GoneStep(s, schedule[0]);
      GoneIsMishaps(Step(s, schedule[0]), schedule[1..]);
    }
  }

  /**
   Once the lock is gone every later request to open a game is refused, and the menu's own installation waits for ever.
   */
  lemma {:induction false} GoneMeansBusyForEver(s: Server, schedule: seq<Action>)
    requires Inv(s) && Gone(s) && Run(s, schedule).Reached?
    ensures var t := Run(s, schedule).s;
            && Gone(t) && Inv(t) && t.lock == 0 && !Enabled(t, LocalWait)
            && forall i :: Enabled(t, Poll(i)) ==> Step(t, Poll(i)) == t
    decreases |schedule|
  {
    hide Inv, Gone;
    if |schedule| > 0 {
      StepInv(s, schedule[0]);
      GoneStep(s, schedule[0]);
      GoneMeansBusyForEver(Step(s, schedule[0]), schedule[1..]);
    } else {
      GoneMeansNoLock(s);
    }
  }

  lemma GoneMeansNoLock(s: Server)
    requires Inv(s) && Gone(s)
    ensures s.lock == 0
  {
  }

  lemma {:induction false} FindHolder(clients: seq<Client>) returns (i: nat)
    requires Holders(clients) > 0
    ensures i < |clients| && Share(clients[i]) == 1
  {
    if Share(clients[0]) == 1 {
      i := 0;
    } else {
      i := FindHolder(clients[1..]);
      i := i + 1;
    }
  }

  /** No step of `more` cleans up a connection whose data thread is still at work. */
  predicate Guarded(s: Server, schedule: seq<Action>)
    decreases |schedule|
  {
    |schedule| == 0 || !Enabled(s, schedule[0])
    || (GuardedStep(s, schedule[0]) && Guarded(Step(s, schedule[0]), schedule[1..]))
  }

  predicate GuardedStep(s: Server, a: Action)
    requires Enabled(s, a)
  {
    a.CleanupBegins? ==> !s.clients[a.i].data.Working?
  }

  /** A data thread at work whose game is closed, being closed by another thread, or somebody else's. */
  predicate Astray(c: Client) {
    c.data.Working? && !(c.task.GameInstallation? && c.phase.Idle?)
  }

  /** One more step towards the lock's return; it leaves data threads that have gone astray alone. */
  function Homeward(s: Server, h: nat): Action
    requires h < |s.clients|
  {
    var c := s.clients[h];
    if c.phase.Opening? then OpenMounts(h)
    else if s.io.Ending? then IoSees
    else if c.phase.Connecting? then DataFails(h)
    else if c.phase.Failing? then FailEnds(h)
    else if c.phase.CleaningUp? then CleanupEnds(h)
    else if c.data.Closing? then CloseEnds(h)
    else CloseBegins(h)
  }

  function WayHome(s: Server, h: nat): nat
    requires h < |s.clients|
  {
    var c := s.clients[h];
    if c.phase.Opening? then 4 else if s.io.Running? then 3 else if s.io.Ending? then 2 else 1
  }

  lemma HomewardStep(s: Server, h: nat)
    requires Inv(s) && !Gone(s) && h < |s.clients| && Share(s.clients[h]) == 1
    ensures var a := Homeward(s, h);
            && Enabled(s, a) && GuardedStep(s, a)
            && var t := Step(s, a);
               && !Gone(t) && |t.clients| == |s.clients|
               && (t.lock == 1 || (Share(t.clients[h]) == 1 && WayHome(t, h) < WayHome(s, h)))
               && forall i :: 0 <= i < |s.clients| && Astray(s.clients[i]) ==> Astray(t.clients[i])
  {
    hide Holders;
    assert ClientOk(s.clients[h]) && IoOk(s.clients[h], s.io);
    HolderIsAlone(s, h);
  }

  lemma {:induction false} HolderComesHome(s: Server, h: nat) returns (more: seq<Action>)
    requires Inv(s) && !Gone(s) && h < |s.clients| && Share(s.clients[h]) == 1
    ensures Run(s, more).Reached? && Run(s, more).s.lock == 1 && Guarded(s, more) && !Gone(Run(s, more).s)
    ensures var t := Run(s, more).s;
            |t.clients| == |s.clients|
            && forall i :: 0 <= i < |s.clients| && Astray(s.clients[i]) ==> Astray(t.clients[i])
    decreases WayHome(s, h)
  {
    hide Inv, Step, Enabled, Homeward, WayHome, Gone, Share, GuardedStep, Astray;
    var a := Homeward(s, h);
    HomewardStep(s, h);
    StepInv(s, a);
    var rest := [];
    if Step(s, a).lock != 1 {
      rest := HolderComesHome(Step(s, a), h);
    }
    more := [a] + rest;
    assert more[1..] == rest;
  }

  /** Whoever holds the lock, it can come back. */
  lemma LockComesBack(t: Server) returns (more: seq<Action>)
    requires Inv(t) && !Gone(t)
    ensures Run(t, more).Reached? && Run(t, more).s.lock == 1 && Guarded(t, more) && !Gone(Run(t, more).s)
    ensures var u := Run(t, more).s;
            |u.clients| == |t.clients|
            && forall i :: 0 <= i < |t.clients| && Astray(t.clients[i]) ==> Astray(u.clients[i])
  {
    hide Holders;
    if t.lock == 1 {
      more := [];
    } else if t.menu.Installing? {
      more := [LocalGivesUp];
      RunOne(t, LocalGivesUp);
    } else if t.menu.Finishing? {
      MenuComesHome(t);
      more := if t.io.Seen? then [LocalSignal] else [IoSees, LocalSignal];
    } else {
      var h := FindHolder(t.clients);
      more := HolderComesHome(t, h);
    }
  }

  lemma MenuComesHome(t: Server)
    requires Inv(t) && !Gone(t) && t.menu.Finishing?
    ensures var more := if t.io.Seen? then [LocalSignal] else [IoSees, LocalSignal];
            && Run(t, more).Reached? && Run(t, more).s.lock == 1 && Guarded(t, more) && !Gone(Run(t, more).s)
            && Run(t, more).s.clients == t.clients
  {
    if t.io.Seen? {
      RunOne(t, LocalSignal);
    } else {
      var u := Step(t, IoSees);
      RunOne(u, LocalSignal);
      assert [IoSees, LocalSignal][1..] == [LocalSignal];
    }
  }

  lemma RunOne(s: Server, a: Action)
    requires Enabled(s, a)
    ensures Run(s, [a]) == Reached(Step(s, a)) && (Guarded(s, [a]) <==> GuardedStep(s, a))
  {
    assert Run(Step(s, a), []) == Reached(Step(s, a));
    assert [a][1..] == [];
  }

  /**
   After a run the lock can still come back if and only if no opening of a game has failed before its task was noted,
   no I/O thread has hung, a client's or the menu's, and no data thread has put its command over an end command. One of
   these can happen once at most.
   */
  lemma LockCanComeBackIff(slots: nat, schedule: seq<Action>, t: Server)
    requires Run(Init(slots), schedule) == Reached(t)
    ensures (exists more :: Run(t, more).Reached? && Run(t, more).s.lock == 1) <==> Mishaps(Init(slots), schedule) == 0
    ensures Mishaps(Init(slots), schedule) <= 1
  {
    hide Inv, Gone;
    InitInv(slots);
    NothingGone(slots);
    RunInv(Init(slots), schedule);
    GoneIsMishaps(Init(slots), schedule);
    if Gone(t) {
      forall more | Run(t, more).Reached? ensures Run(t, more).s.lock != 1 {
        GoneMeansBusyForEver(t, more);
      }
    } else {
      var more := LockComesBack(t);
    }
  }

  lemma NothingGone(slots: nat)
    ensures !Gone(Init(slots))
  {
  }

  // ---------------------------------------------------------------- who uses the ring

  /** Two threads work with the one ring: two data threads, or one beside the menu's installation. */
  ghost predicate TwoUsers(s: Server) {
    exists i :: 0 <= i < |s.clients| && s.clients[i].data.Working? && (s.menu.Installing? || AnotherWorks(s, i))
  }

  ghost predicate AnotherWorks(s: Server, i: nat) {
    exists j :: 0 <= j < |s.clients| && j != i && s.clients[j].data.Working?
  }

  ghost predicate SomeAstray(s: Server) {
    exists i :: 0 <= i < |s.clients| && Astray(s.clients[i])
  }

  /** Only the cleaning up of a connection whose data thread is at work leads one astray. */
  lemma AstrayStep(s: Server, a: Action)
    requires Inv(s) && Enabled(s, a) && !SomeAstray(s)
    ensures SomeAstray(Step(s, a)) <==> !GuardedStep(s, a)
  {
    hide Holders;
    StepFrame(s, a);
    var i, t := Mover(a), Step(s, a);
    if i >= 0 {
      assert ClientOk(s.clients[i]) && !Astray(s.clients[i]);
      assert Astray(t.clients[i]) <==> !GuardedStep(s, a);
      forall j | 0 <= j < |s.clients| && j != i ensures !Astray(t.clients[j]) {
        assert !Astray(s.clients[j]);
      }
    }
  }

  lemma {:induction false} GuardedMeansNoneAstray(s: Server, schedule: seq<Action>)
    requires Inv(s) && !SomeAstray(s) && Run(s, schedule).Reached? && Guarded(s, schedule)
    ensures !SomeAstray(Run(s, schedule).s)
    decreases |schedule|
  {
    hide Inv, Step, Enabled, SomeAstray, GuardedStep;
    if |schedule| > 0 {
      StepInv(s, schedule[0]);
      AstrayStep(s, schedule[0]);
      GuardedMeansNoneAstray(Step(s, schedule[0]), schedule[1..]);
    }
  }

  lemma NoneAstrayMeansOneUser(s: Server)
    requires Inv(s) && !SomeAstray(s)
    ensures !TwoUsers(s)
    ensures forall i :: Enabled(s, Submits(i)) ==> !s.io.Ending?
  {
    hide Holders;
    forall i | 0 <= i < |s.clients| && s.clients[i].data.Working?
      ensures !s.menu.Installing? && !AnotherWorks(s, i) && !s.io.Ending?
    {
      assert !Astray(s.clients[i]) && ClientOk(s.clients[i]) && IoOk(s.clients[i], s.io);
      HolderIsAlone(s, i);
      forall j | 0 <= j < |s.clients| && j != i ensures !s.clients[j].data.Working? {
        assert Share(s.clients[j]) == 0 && !Astray(s.clients[j]);
      }
    }
  }

  lemma NoneAstrayAtStart(slots: nat)
    ensures !SomeAstray(Init(slots))
  {
  }

  /**
   In a run in which no connection is cleaned up while its data thread is at work, one thread at most uses the ring at
   any time, and no command is put over an end command: the lock can come back if and only if no opening failed and no
   I/O thread hung.
   */
  lemma GuardedRuns(slots: nat, schedule: seq<Action>, t: Server)
    requires Run(Init(slots), schedule) == Reached(t) && Guarded(Init(slots), schedule)
    ensures !TwoUsers(t) && !t.io.Overwritten?
    ensures (exists more :: Run(t, more).Reached? && Run(t, more).s.lock == 1) <==>
      forall k :: 0 <= k < |schedule| ==> !schedule[k].OpenFails? && !schedule[k].Hangs? && !schedule[k].LocalHangs?
  {
    hide Inv, SomeAstray, TwoUsers, Gone, Mishap;
    InitInv(slots);
    NoneAstrayAtStart(slots);
    RunInv(Init(slots), schedule);
    GuardedMeansNoneAstray(Init(slots), schedule);
    NoneAstrayMeansOneUser(t);
    LockCanComeBackIff(slots, schedule, t);
    NeverOverwritten(Init(slots), schedule);
  }

  lemma {:induction false} NeverOverwritten(s: Server, schedule: seq<Action>)
    requires Inv(s) && !SomeAstray(s) && Run(s, schedule).Reached? && Guarded(s, schedule) && !s.io.Overwritten?
    ensures !Run(s, schedule).s.io.Overwritten?
    ensures Mishaps(s, schedule) == 0 <==>
      forall k :: 0 <= k < |schedule| ==> !schedule[k].OpenFails? && !schedule[k].Hangs? && !schedule[k].LocalHangs?
    decreases |schedule|
  {
    hide Inv, SomeAstray, TwoUsers, Step, Enabled, GuardedStep;
    if |schedule| > 0 {
      var a := schedule[0];
      StepInv(s, a);
      AstrayStep(s, a);
      NoneAstrayMeansOneUser(s);
      OverwritesOnlyBySubmits(s, a);
      NeverOverwritten(Step(s, a), schedule[1..]);
      assert schedule == [a] + schedule[1..];
    }
  }

  lemma OverwritesOnlyBySubmits(s: Server, a: Action)
    requires Enabled(s, a) && !s.io.Overwritten?
    ensures Step(s, a).io.Overwritten? <==> a.Submits? && s.io.Ending?
  {
  }

  /**
   As long as the lock can come back, two threads can come to use the ring, without any connection being cleaned up too
   early from now on, if and only if a data thread has gone astray already.
   */
  lemma TwoUsersCanMeetIff(t: Server)
    requires Inv(t) && !Gone(t)
    ensures (exists more :: Run(t, more).Reached? && Guarded(t, more) && TwoUsers(Run(t, more).s)) <==> SomeAstray(t)
  {
    if SomeAstray(t) {
      var more := AstrayMeetsMenu(t);
    } else {
      forall more | Run(t, more).Reached? && Guarded(t, more) ensures !TwoUsers(Run(t, more).s) {
        hide Inv, SomeAstray, TwoUsers;
        RunInv(t, more);
        GuardedMeansNoneAstray(t, more);
        NoneAstrayMeansOneUser(Run(t, more).s);
      }
    }
  }

  lemma AstrayMeetsMenu(t: Server) returns (more: seq<Action>)
    requires Inv(t) && !Gone(t) && SomeAstray(t)
    ensures Run(t, more).Reached? && Guarded(t, more) && TwoUsers(Run(t, more).s)
  {
    hide Holders, Step, Enabled, Gone;
    var i :| 0 <= i < |t.clients| && Astray(t.clients[i]);
    var home := LockComesBack(t);
    var u := Run(t, home).s;
    RunInv(t, home);
    MenuCanStart(u);
    RunSnoc(t, home, LocalWait);
    GuardedSnoc(t, home, LocalWait);
    more := home + [LocalWait];
    assert Step(u, LocalWait).clients[i].data.Working?;
  }

  lemma MenuCanStart(s: Server)
    requires Inv(s) && s.lock == 1
    ensures Enabled(s, LocalWait) && GuardedStep(s, LocalWait)
    ensures Step(s, LocalWait).menu.Installing? && Step(s, LocalWait).clients == s.clients
  {
  }

  lemma {:induction false} GuardedSnoc(s: Server, schedule: seq<Action>, a: Action)
    requires Run(s, schedule).Reached? && Enabled(Run(s, schedule).s, a) && GuardedStep(Run(s, schedule).s, a)
    requires Guarded(s, schedule)
    ensures Guarded(s, schedule + [a])
    decreases |schedule|
  {
    hide Step, Enabled, GuardedStep;
    if |schedule| == 0 {
      assert schedule + [a] == [a];
      RunOne(s, a);
    } else {
      assert (schedule + [a])[1..] == schedule[1..] + [a];
      GuardedSnoc(Step(s, schedule[0]), schedule[1..], a);
    }
  }

  // ---------------------------------------------------------------- runs in which things go wrong

  lemma {:induction false} RunSnoc(s: Server, schedule: seq<Action>, a: Action)
    requires Run(s, schedule).Reached? && Enabled(Run(s, schedule).s, a)
    ensures Run(s, schedule + [a]) == Reached(Step(Run(s, schedule).s, a))
    decreases |schedule|
  {
    hide Step, Enabled, Guarded;
    if |schedule| == 0 {
      assert schedule + [a] == [a];
      RunOne(s, a);
    } else {
      assert (schedule + [a])[1..] == schedule[1..] + [a];
      RunSnoc(Step(s, schedule[0]), schedule[1..], a);
    }
  }

  lemma Go(start: Server, log: seq<Action>, t: Server, a: Action) returns (log': seq<Action>, t': Server)
    requires Run(start, log) == Reached(t) && Enabled(t, a)
    ensures log' == log + [a] && t' == Step(t, a) && Run(start, log') == Reached(t')
  {
    RunSnoc(start, log, a);
    log', t' := log + [a], Step(t, a);
  }

  lemma FirstClientAsks() returns (log: seq<Action>, t: Server)
    ensures log == [Connect(0), Verify(0), Poll(0)] && Run(Init(1), log) == Reached(t)
    ensures t == Server(0, Away, [Client(true, true, NoTask, Opening, Dormant)], 0, NoGame)
  {
    hide Run;
    t := Init(1);
    RunNothing(t);
    log, t := Go(Init(1), [], t, Connect(0));
    log, t := Go(Init(1), log, t, Verify(0));
    log, t := Go(Init(1), log, t, Poll(0));
  }

  lemma RunNothing(s: Server)
    ensures Run(s, []) == Reached(s)
  {
  }

  /** It takes one client asking for a game that does not exist. */
  lemma TokenCanBeLost()
    ensures Run(Init(1), [Connect(0), Verify(0), Poll(0), OpenFails(0)])
         == Reached(Server(0, Away, [Client(true, true, NoTask, Idle, Dormant)], 1, NoGame))
  {
    hide Run;
    var log, t := FirstClientAsks();
    log, t := Go(Init(1), log, t, OpenFails(0));
    assert log == [Connect(0), Verify(0), Poll(0), OpenFails(0)];
    assert t.clients == [Client(true, true, NoTask, Idle, Dormant)];
  }

  /** The game of the only client is being transferred. */
  lemma GameIsTransferred() returns (log: seq<Action>, t: Server)
    ensures Run(Init(1), log) == Reached(t)
    ensures t == Server(0, Away, [Client(true, true, GameInstallation, Idle, Working)], 0, Running)
  {
    hide Run;
    log, t := FirstClientAsks();
    log, t := Go(Init(1), log, t, OpenMounts(0));
    log, t := Go(Init(1), log, t, DataConnects(0));
    assert t.clients == [Client(true, true, GameInstallation, Idle, Working)];
  }

  /** Or one disk error while a game is written: then the game can be neither closed nor cleaned up. */
  lemma HolderCanHang() returns (t: Server)
    ensures Reachable(t) && Gone(t) && t.lost == 0 && |t.clients| == 1 && Waits(t.clients[0]) && !t.io.Seen?
  {
    hide Run;
    var log;
    log, t := GameIsTransferred();
    log, t := Go(Init(1), log, t, Hangs);
    log, t := Go(Init(1), log, t, CloseBegins(0));
  }

  /** Or a control connection that breaks while the game is transferred: no opening failed, and no transfer. */
  lemma EndCanBeOverwritten() returns (t: Server)
    ensures Reachable(t) && Gone(t) && t.lost == 0 && t.io.Overwritten?
    ensures |t.clients| == 1 && t.clients[0].phase.CleaningUp?
  {
    hide Run;
    var log;
    log, t := GameIsTransferred();
    log, t := Go(Init(1), log, t, CleanupBegins(0));
    log, t := Go(Init(1), log, t, Submits(0));
  }

  /** Or, if the end command is seen in time: the old data thread works on beside the menu's own installation. */
  lemma OldThreadStillWorks() returns (t: Server)
    ensures Reachable(t) && TwoUsers(t) && |t.clients| == 1 && t.clients[0].data.Working? && t.menu.Installing?
  {
    hide Run;
    var log;
    log, t := GameIsTransferred();
    log, t := Go(Init(1), log, t, CleanupBegins(0));
    log, t := Go(Init(1), log, t, IoSees);
    log, t := Go(Init(1), log, t, CleanupEnds(0));
    log, t := Go(Init(1), log, t, LocalWait);
    assert t.clients[0].data.Working?;
  }
}
