/** The command handlers of HDLGameSvr.c that open and close games, and the menu's use of the lock in menu.c. */
module ServerHandlers {
  import opened Common
  import opened Sessions

  ghost predicate Ran(s: Server, t: Server) {
    exists schedule :: Run(s, schedule) == Reached(t)
  }

  /** Steps that are not those of client `i`'s server thread. */
  predicate ByOthers(a: Action, i: nat) {
    Mover(a) != i || a.Submits? || a.CloseBegins? || a.CloseEnds? || a.DataThreadEnds?
  }

  /** What other threads leave of client `i`: its data thread may end, and close its game while no command is served. */
  predicate SameClient(c: Client, d: Client) {
    && d.connected == c.connected && d.verified == c.verified && d.phase == c.phase
    && (d.task == c.task || (c.phase.Idle? && c.task.GameInstallation? && d.task.NoTask?))
    && (c.data.Dormant? ==> d.data.Dormant?)
    && (!c.phase.Idle? && c.data.Working? ==> d.data.Working?)
  }

  /** `t` was reached from `s` without client `i`'s server thread. */
  ghost predicate OthersRan(s: Server, t: Server, i: nat) {
    exists schedule :: (forall k :: 0 <= k < |schedule| ==> ByOthers(schedule[k], i)) && Run(s, schedule) == Reached(t)
  }

  lemma OthersKeepOnce(s: Server, a: Action, i: nat)
    requires Inv(s) && i < |s.clients| && Enabled(s, a) && ByOthers(a, i)
    ensures |Step(s, a).clients| == |s.clients| && SameClient(s.clients[i], Step(s, a).clients[i])
  {
    hide Holders, Conserved, MenuOk, IoOk;
    StepFrame(s, a);
    assert ClientOk(s.clients[i]);
  }

  lemma {:induction false} OthersKeep(s: Server, schedule: seq<Action>, i: nat)
    requires Inv(s) && i < |s.clients| && Run(s, schedule).Reached?
    requires forall k :: 0 <= k < |schedule| ==> ByOthers(schedule[k], i)
    ensures var t := Run(s, schedule).s; Inv(t) && |t.clients| == |s.clients| && SameClient(s.clients[i], t.clients[i])
    decreases |schedule|
  {
    hide Inv, Step, Enabled;
    if |schedule| > 0 {
      StepInv(s, schedule[0]);
      OthersKeepOnce(s, schedule[0], i);
      OthersKeep(Step(s, schedule[0]), schedule[1..], i);
    }
  }

  /** Steps that are not those of client `i`'s data thread. */
  predicate BesideData(a: Action, i: nat) {
    Mover(a) != i || !(a.Submits? || a.CloseBegins? || a.CloseEnds? || a.DataThreadEnds?)
  }

  /** While the data thread is in CloseGame nobody else touches the client's game. */
  predicate SameGame(c: Client, d: Client) {
    c.data.Closing? ==> d.data.Closing? && (d.task.GameInstallation? <==> c.task.GameInstallation?)
  }

  lemma BesideKeepOnce(s: Server, a: Action, i: nat)
    requires Inv(s) && i < |s.clients| && Enabled(s, a) && BesideData(a, i)
    ensures |Step(s, a).clients| == |s.clients| && SameGame(s.clients[i], Step(s, a).clients[i])
  {
    hide Holders, Conserved, MenuOk, IoOk;
    StepFrame(s, a);
    assert ClientOk(s.clients[i]);
  }

  lemma {:induction false} BesideKeep(s: Server, schedule: seq<Action>, i: nat)
    requires Inv(s) && i < |s.clients| && Run(s, schedule).Reached?
    requires forall k :: 0 <= k < |schedule| ==> BesideData(schedule[k], i)
    ensures var t := Run(s, schedule).s; Inv(t) && |t.clients| == |s.clients| && SameGame(s.clients[i], t.clients[i])
    decreases |schedule|
  {
    hide Inv, Step, Enabled;
    if |schedule| > 0 {
      StepInv(s, schedule[0]);
      BesideKeepOnce(s, schedule[0], i);
      BesideKeep(Step(s, schedule[0]), schedule[1..], i);
    }
  }

  lemma NothingRan(s: Server, i: nat)
    ensures Ran(s, s) && OthersRan(s, s, i)
  {
    assert Run(s, []) == Reached(s);
  }

  /** One more step, taken where `t` has been reached. */
  lemma Took(s: Server, t: Server, a: Action)
    requires Inv(t) && Ran(s, t) && Enabled(t, a)
    ensures Inv(Step(t, a)) && Ran(s, Step(t, a))
  {
    hide Step, Enabled, Inv;
    StepInv(t, a);
    var schedule :| Run(s, schedule) == Reached(t);
    RunSnoc(s, schedule, a);
  }

  const HDLGMAN_CLIENT_VERSION := 0x0C
  const HDLGMAN_CLIENT_VERSION_ERR := 3

  /** The commands that matter here; every other command changes neither tasks nor the lock. */
  datatype Command = GetVersion | SendVersion(version: int) | PrepGameInst | InitGameRead | InitGameWrite | CloseGameCmd
    | InitOsdResources | WriteOsdResources | Other

  predicate Opens(command: Command) {
    command.PrepGameInst? || command.InitGameRead? || command.InitGameWrite?
  }

  /** The client may begin to open a game: it has no task, and nobody has the lock. */
  predicate IsFree(c: Client, lock: nat) {
    c.task.NoTask? && lock > 0
  }

  /**
   What an opening command comes to for the client as it stood: -EBUSY if it may not begin, else what opening the game
   came to if that failed, else 0 or -1. A data thread that has done its work may still be ending, and then the
   connection succeeds or not according to when that is.
   */
  predicate IsAnswer(c: Client, lock: nat, opens: int, connects: bool, result: int) {
    if !IsFree(c, lock) then result == -EBUSY
    else if opens < 0 then result == opens
    else if !connects || c.data.Working? then result == -1
    else result == 0 || (result == -1 && !c.data.Dormant?)
  }

  class Sys {
    var lock: nat
    var menu: Menu
    var clients: seq<Client>
    var io: GameIo
    ghost var lost: nat
    ghost const start: Server

    ghost function View(): Server
      reads this
    {
      Server(lock, menu, clients, lost, io)
    }

    /** Everything so far is a run of the machine. */
    ghost predicate Valid()
      reads this
    {
      Inv(View()) && Ran(start, View())
    }

    constructor (slots: nat)
      ensures Valid() && View() == start == Init(slots)
    {
      InitInv(slots);
      NothingRan(Init(slots), 0);
      lock, menu, clients, lost, io := 1, Away, seq(slots, _ => FREE_SLOT), 0, NoGame;
      start := Init(slots);
    }

    /** Between two steps of client `i`'s server thread everybody else may take any number of theirs. */
    method OthersRun(i: nat)
      requires Valid() && i < |clients|
      modifies this
      ensures Valid() && OthersRan(old(View()), View(), i)
      ensures |clients| == old(|clients|) && SameClient(old(clients[i]), clients[i])
    {
      NothingRan(View(), i);
    }

    /** The same between two steps of its data thread. */
    method BesideRun(i: nat)
      requires Valid() && i < |clients|
      modifies this
      ensures Valid() && |clients| == old(|clients|) && SameGame(old(clients[i]), clients[i])
    {
    }

    /** The same between two steps of the menu. */
    method ClientsRun()
      requires Valid()
      modifies this
      ensures Valid() && |clients| == old(|clients|) && menu == old(menu)
    {
    }

    /** PollSema on the installation lock, if the client has no task. */
    method PollLock(i: nat) returns (taken: bool)
      requires Valid() && CanServe(View(), i) && Unlocked(clients[i])
      modifies this
      ensures Valid() && |clients| == old(|clients|) && lost == old(lost)
      ensures taken <==> old(clients[i].task.NoTask? && lock > 0)
      ensures if taken then clients[i] == old(clients[i]).(phase := Opening) else View() == old(View())
    {
      hide Inv, Ran;
      taken := false;
      if clients[i].task.NoTask? {
        Took(start, View(), Poll(i));
        if lock > 0 {
          lock, clients := lock - 1, clients[i := clients[i].(phase := Opening)];
          taken := true;
        }
      }
    }

    /** EndInstallation up to its wait: the end command, if the client has a game. */
    method PutEnd(i: nat)
      requires i < |clients|
      modifies `io
      ensures io == old(EndPut(clients[i], io))
    {
      if clients[i].task.GameInstallation? && io.Running? {
        io := Ending;
      }
    }

    /** EndInstallation after its wait: closes the client's game and gives the lock back, if it has a game. */
    method EndInstallation(i: nat, c: Client)
      requires i < |clients| && CanEnd(c, io)
      modifies `lock, `clients, `io
      ensures View() == old(Ended(View(), i, c))
    {
      clients := clients[i := c];
      if c.task.GameInstallation? {
        clients := clients[i := c.(task := NoTask)];
        lock, io := lock + 1, NoGame;
      }
    }

    /**
     InitGameRead and InitGameWrite, and PrepareGameInstallation, which makes the partition first: the lock is taken,
     the game mounted and opened, and the data connection made. `blocked` while, that having failed, EndInstallation
     waits for the I/O thread. `opens` and `connects` are what making and opening the game and the connection come to.
     */
    method OpenGame(i: nat, opens: int, connects: bool) returns (result: int, blocked: bool)
      requires Valid() && CanServe(View(), i) && Unlocked(clients[i])
      modifies this
      ensures Valid() && |clients| == old(|clients|)
      ensures if blocked then clients[i].phase.Failing? && !io.Seen? else CanServe(View(), i)
      ensures IsAnswer(old(clients[i]), old(lock), opens, connects, result)
      ensures !old(IsFree(clients[i], lock)) ==> !blocked && View() == old(View())
      ensures old(IsFree(clients[i], lock)) && opens < 0 ==> !blocked && lost > 0
      ensures blocked ==> opens >= 0 && result == -1
      ensures !blocked && result == 0 ==> clients[i].task.GameInstallation? && clients[i].data.Working? && lock == 0
      ensures !blocked && old(IsFree(clients[i], lock)) && result != 0 ==> clients[i].task.NoTask?
      ensures old(Gone(View())) ==> result == -EBUSY && !blocked
    {
      hide Inv, Ran, OthersRan, Gone;
      blocked := false;
      if Gone(View()) {
        GoneMeansNoLock(View());
      }
      var taken := PollLock(i);
      if !taken {
        return -EBUSY, false;
      }
      OthersRun(i);
      if opens < 0 {
        Took(start, View(), OpenFails(i));
        clients := clients[i := clients[i].(phase := Idle)];
        lost := lost + 1;
        return opens, false;
      }
      Took(start, View(), OpenMounts(i));
      clients, io := clients[i := clients[i].(phase := Connecting, task := GameInstallation)], Running;
      OthersRun(i);
      if connects && clients[i].data.Dormant? {
        Took(start, View(), DataConnects(i));
        clients := clients[i := clients[i].(phase := Idle, data := Working)];
        HolderHasLock(View(), i);
        result := 0;
      } else {
        Took(start, View(), DataFails(i));
        PutEnd(i);
        clients := clients[i := clients[i].(phase := Failing)];
        result := -1;
        blocked := AwaitFailing(i);
      }
    }

    /** The wait in EndInstallation after an opening has failed; it can be called again while `blocked`. */
    method AwaitFailing(i: nat) returns (blocked: bool)
      requires Valid() && i < |clients| && clients[i].phase.Failing?
      modifies this
      ensures Valid() && |clients| == old(|clients|)
      ensures if blocked then clients[i].phase.Failing? && !io.Seen?
              else CanServe(View(), i) && clients[i].task.NoTask?
    {
      hide Ran, OthersRan, Inv;
      OthersRun(i);
      FailingMeansVerified(View(), i);
      blocked := !io.Seen?;
      if !blocked {
        Took(start, View(), FailEnds(i));
        EndInstallation(i, clients[i].(phase := Idle));
      }
    }

    /** CloseGame, called by the data thread when its transfer is over; `blocked` while it waits for the I/O thread. */
    method CloseGame(i: nat) returns (blocked: bool)
      requires Valid() && i < |clients| && clients[i].data.Working? && Unlocked(clients[i])
      modifies this
      ensures Valid() && |clients| == old(|clients|)
      ensures if blocked then clients[i].data.Closing? && !io.Seen? else clients[i].data.Closed?
      ensures !old(clients[i].task.GameInstallation?) ==> !blocked
    {
      hide Inv, Ran;
      Took(start, View(), CloseBegins(i));
      PutEnd(i);
      clients := clients[i := clients[i].(data := Closing)];
      blocked := AwaitClosing(i);
    }

    /** Its wait; it can be called again while `blocked`. */
    method AwaitClosing(i: nat) returns (blocked: bool)
      requires Valid() && i < |clients| && clients[i].data.Closing?
      modifies this
      ensures Valid() && |clients| == old(|clients|)
      ensures if blocked then clients[i].data.Closing? && !io.Seen? else clients[i].data.Closed?
      ensures !blocked && old(clients[i].task.GameInstallation?) ==> lock == 1 && clients[i].task.NoTask?
      ensures !old(clients[i].task.GameInstallation?) ==> !blocked
    {
      hide Inv, Ran;
      BesideRun(i);
      blocked := clients[i].task.GameInstallation? && !io.Seen?;
      if !blocked {
        Took(start, View(), CloseEnds(i));
        if clients[i].task.GameInstallation? {
          HolderHasLock(View(), i);
        }
        EndInstallation(i, clients[i].(data := Closed));
      }
    }

    /**
     CleanupClientConnection, called by the server thread as soon as the control connection is gone, whatever the data
     thread is doing; `blocked` while it waits for the I/O thread.
     */
    method CleanupClientConnection(i: nat) returns (blocked: bool)
      requires Valid() && i < |clients| && clients[i].connected && Unlocked(clients[i])
      modifies this
      ensures Valid() && |clients| == old(|clients|)
      ensures if blocked then clients[i].phase.CleaningUp? && !io.Seen?
              else clients[i] == FREE_SLOT.(data := clients[i].data)
      ensures !old(clients[i].task.GameInstallation?) ==> !blocked
      ensures !blocked && old(clients[i].task.GameInstallation?) ==> lock == 1 && clients[i].data.Working?
    {
      hide Inv, Ran;
      GameMeansData(View(), i);
      Took(start, View(), CleanupBegins(i));
      PutEnd(i);
      clients := clients[i := clients[i].(phase := CleaningUp)];
      blocked := AwaitCleanup(i);
    }

    /** Its wait; it can be called again while `blocked`. A data thread at work is still at work afterwards. */
    method AwaitCleanup(i: nat) returns (blocked: bool)
      requires Valid() && i < |clients| && clients[i].phase.CleaningUp?
      modifies this
      ensures Valid() && |clients| == old(|clients|)
      ensures if blocked then clients[i].phase.CleaningUp? && !io.Seen?
              else clients[i] == FREE_SLOT.(data := clients[i].data)
      ensures !old(clients[i].task.GameInstallation?) ==> !blocked
      ensures !blocked && old(clients[i].task.GameInstallation?) ==> lock == 1
      ensures old(clients[i].data.Working?) ==> clients[i].data.Working?
    {
      hide Inv, Ran, OthersRan;
      OthersRun(i);
      blocked := clients[i].task.GameInstallation? && !io.Seen?;
      if !blocked {
        Took(start, View(), CleanupEnds(i));
        if clients[i].task.GameInstallation? {
          HolderHasLock(View(), i);
        }
        EndInstallation(i, clients[i]);
        clients := clients[i := clients[i].(connected := false, verified := false, task := NoTask, phase := Idle)];
      }
    }

    /**
     HandlePacket, without the answer that goes back; `blocked` while HandleCloseGame waits for the data thread, a
     command for the client's StateSemaID, which its data thread has, or one that could not open a game for its I/O
     thread. `answer` is what the calls of a command outside this model come to.
     */
    method HandlePacket(i: nat, command: Command, opens: int, connects: bool, answer: int)
      returns (result: int, blocked: bool)
      requires Valid() && i < |clients| && clients[i].phase.Idle?
      modifies this
      ensures Valid() && |clients| == old(|clients|)
      ensures !old(clients[i].connected) ==> result == -1 && !blocked && View() == old(View())
      ensures old(clients[i].connected && !clients[i].verified) ==>
        && clients[i] == old(clients[i]).(verified := command == SendVersion(HDLGMAN_CLIENT_VERSION))
        && lock == old(lock) && lost == old(lost) && !blocked
        && result == (match command
                      case GetVersion => 0
                      case SendVersion(v) => if v == HDLGMAN_CLIENT_VERSION then 0 else HDLGMAN_CLIENT_VERSION_ERR
                      case _ => -EINVAL)
      ensures old(CanServe(View(), i) && clients[i].data.Closing?) && (Opens(command) || command.InitOsdResources?) ==>
        blocked && View() == old(View())
      ensures old(CanServe(View(), i) && Unlocked(clients[i])) && Opens(command) ==>
        && IsAnswer(old(clients[i]), old(lock), opens, connects, result)
        && (blocked ==> opens >= 0 && result == -1 && clients[i].phase.Failing? && !io.Seen?)
        && (!old(IsFree(clients[i], lock)) ==> View() == old(View()))
        && (!blocked && result == 0 ==> clients[i].task.GameInstallation? && clients[i].data.Working? && lock == 0)
        && (!blocked && old(IsFree(clients[i], lock)) && result != 0 ==> clients[i].task.NoTask?)
      ensures old(CanServe(View(), i)) && command.CloseGameCmd? ==>
        View() == old(View()) && result == 0 && (blocked <==> !clients[i].data.Dormant?)
      ensures old(CanServe(View(), i) && Unlocked(clients[i])) && command.InitOsdResources? ==>
        && !blocked && result == (if old(clients[i].task.NoTask?) then answer else -EBUSY)
        && clients[i].task == (if old(clients[i].task.NoTask?) then OsdConfig else old(clients[i].task))
      ensures old(CanServe(View(), i)) && command.WriteOsdResources? ==>
        && !blocked && result == (if old(clients[i].task.OsdConfig?) then answer else -EINVAL)
        && clients[i].task == (if old(clients[i].task.OsdConfig?) then NoTask else old(clients[i].task))
      ensures old(CanServe(View(), i)) && (command.Other? || command.GetVersion? || command.SendVersion?) ==>
        View() == old(View()) && !blocked && result == if command.Other? then answer else -EINVAL
    {
      hide Inv, Ran;
      result, blocked := 0, false;
      VerifiedMeansConnected(View(), i);
      if clients[i].connected && !clients[i].verified {
        match command
        case GetVersion => result := 0;
        case SendVersion(version) =>
          if version == HDLGMAN_CLIENT_VERSION {
            Took(start, View(), Verify(i));
            clients := clients[i := clients[i].(verified := true)];
          } else {
            result := HDLGMAN_CLIENT_VERSION_ERR;
          }
        case _ => result := -EINVAL;
      } else if clients[i].connected {
        if clients[i].data.Closing? && (Opens(command) || command.InitOsdResources?) {
          return 0, true;
        }
        match command
        case PrepGameInst => result, blocked := OpenGame(i, opens, connects);
        case InitGameRead => result, blocked := OpenGame(i, opens, connects);
        case InitGameWrite => result, blocked := OpenGame(i, opens, connects);
        case CloseGameCmd => blocked := !clients[i].data.Dormant?;
        case InitOsdResources => result := BeginOsd(i, answer);
        case WriteOsdResources => result := EndOsd(i, answer);
        case Other => result := answer;
        case _ => result := -EINVAL;
      } else {
        result := -1;
      }
    }

    /** InitOSDResources and InitDefaultOSDResources; `answer` is what preparing the resources comes to. */
    method BeginOsd(i: nat, answer: int) returns (result: int)
      requires Valid() && CanServe(View(), i) && Unlocked(clients[i])
      modifies this
      ensures Valid() && |clients| == old(|clients|) && lock == old(lock) && lost == old(lost)
      ensures result == if old(clients[i].task.NoTask?) then answer else -EBUSY
      ensures clients[i].task == if old(clients[i].task.NoTask?) then OsdConfig else old(clients[i].task)
    {
      hide Inv, Ran;
      result := -EBUSY;
      if clients[i].task.NoTask? {
        Took(start, View(), OsdBegin(i));
        clients := clients[i := clients[i].(task := OsdConfig)];
        result := answer;
      }
    }

    /** WriteOSDResources and CancelOSDResourceWrite; `answer` is what installing the resources comes to. */
    method EndOsd(i: nat, answer: int) returns (result: int)
      requires Valid() && CanServe(View(), i)
      modifies this
      ensures Valid() && |clients| == old(|clients|) && lock == old(lock) && lost == old(lost)
      ensures result == if old(clients[i].task.OsdConfig?) then answer else -EINVAL
      ensures clients[i].task == if old(clients[i].task.OsdConfig?) then NoTask else old(clients[i].task)
    {
      hide Inv, Ran;
      result := -EINVAL;
      if clients[i].task.OsdConfig? {
        Took(start, View(), OsdEnd(i));
        clients := clients[i := clients[i].(task := NoTask)];
        result := answer;
      }
    }

    /** The menu's wait for the lock before StartInstallGame; `blocked` while it is not free. */
    method LockForMenu() returns (blocked: bool)
      requires Valid() && menu.Away?
      modifies this
      ensures Valid() && clients == old(clients)
      ensures if blocked then old(lock) == 0 && View() == old(View())
              else menu.Installing? && lock == 0 && Holders(clients) == 0
      ensures old(Gone(View())) ==> blocked
    {
      hide Ran, Gone;
      if Gone(View()) {
        GoneMeansNoLock(View());
      }
      blocked := lock == 0;
      if !blocked {
        Took(start, View(), LocalWait);
        lock, menu, io := lock - 1, Installing, Running;
      }
    }

    /** The menu's installation is given up without ending its I/O, and the lock given back. */
    method GiveUpInMenu()
      requires Valid() && menu.Installing?
      modifies this
      ensures Valid() && menu.Away? && lock == 1 && clients == old(clients)
    {
      hide Ran;
      Took(start, View(), LocalGivesUp);
      lock, menu, io := lock + 1, Away, NoGame;
    }

    /** Or it is complete, and its I/O ended: `blocked` while the menu waits for the I/O thread. */
    method FinishInMenu() returns (blocked: bool)
      requires Valid() && (menu.Installing? || menu.Finishing?)
      modifies this
      ensures Valid() && |clients| == old(|clients|)
      ensures if blocked then menu.Finishing? && !io.Seen? else menu.Away? && lock == 1
    {
      hide Ran, Holders;
      if menu.Installing? {
        Took(start, View(), LocalPutsEnd);
        menu, io := Finishing, Ending;
      }
      ClientsRun();
      blocked := !io.Seen?;
      if !blocked {
        Took(start, View(), LocalSignal);
        lock, menu, io := lock + 1, Away, NoGame;
      }
    }
  }

  lemma HolderHasLock(s: Server, i: nat)
    requires Inv(s) && i < |s.clients| && s.clients[i].task.GameInstallation?
    ensures s.lock == 0
  {
    HolderIsAlone(s, i);
  }

  lemma FailingMeansVerified(s: Server, i: nat)
    requires Inv(s) && i < |s.clients| && s.clients[i].phase.Failing?
    ensures s.clients[i].connected && s.clients[i].verified && s.clients[i].task.GameInstallation?
  {
    assert ClientOk(s.clients[i]);
  }

  lemma GameMeansData(s: Server, i: nat)
    requires Inv(s) && i < |s.clients| && Unlocked(s.clients[i])
    ensures s.clients[i].task.GameInstallation? ==> s.clients[i].data.Working?
  {
    assert ClientOk(s.clients[i]);
  }

  lemma VerifiedMeansConnected(s: Server, i: nat)
    requires Inv(s) && i < |s.clients|
    ensures s.clients[i].verified ==> s.clients[i].connected
  {
    assert ClientOk(s.clients[i]);
  }
}
