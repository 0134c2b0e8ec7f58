/**
 A game write that another thread ends: CleanupClientConnection calls IOEndWrite from the server thread, while the data
 thread may still be in WriteGame, and both put their commands into the one command byte.
 */
module WriteClose {
  import opened Common
  import opened Banks
  import opened WriteRing
  import opened WriteLive

  /** Where the server thread stands in IOEndWrite. The data thread's CloseGame must wait until it is through. */
  datatype Closer = Away | PutsEnd | Wakes | Awaits | Returned

  /** `room` is what the file takes. */
  datatype Both = Both(r: Ring, c: Closer, room: nat)

  datatype Move = Own(a: Action) | Begin | PutEnd | WakeUp | Return

  /** The data thread is not in IOEndWrite itself. */
  predicate Outside(pc: ProducerPc) {
    !pc.EndWake? && !pc.WaitAck? && !pc.Done?
  }

  predicate CanMove(b: Both, m: Move) {
    match m
    case Own(a) => Allowed(b.r, a, b.room) && !b.c.Returned? && (a.PutEndCommand? ==> b.c.Away?)
    case Begin => b.c.Away? && Outside(b.r.p.pc)
    case PutEnd => b.c.PutsEnd?
    case WakeUp => b.c.Wakes?
    case Return => b.c.Awaits? && b.r.k.ack > 0
  }

  function Moved(b: Both, m: Move): Both
    requires CanMove(b, m)
  {
    var Both(r, c, room) := b;
    match m
    case Own(a) => Both(Step(r, a), c, room)
    case Begin => Both(r, PutsEnd, room)
    case PutEnd => Both(r.(io := r.io.(command := CmdWriteEnd)), Wakes, room)
    case WakeUp => Both(r.(k := r.k.(wakeups := r.k.wakeups + 1)), Awaits, room)
    case Return => Both(r.(k := r.k.(ack := r.k.ack - 1)), Returned, room)
  }

  /** The moves are possible one after the other, and lead from `b` to `e`. */
  predicate Leads(b: Both, moves: seq<Move>, e: Both)
    decreases |moves|
  {
    if |moves| == 0 then e == b else CanMove(b, moves[0]) && Leads(Moved(b, moves[0]), moves[1..], e)
  }

  /** The thread is serving the end command, or has acknowledged it. */
  predicate Seen(r: Ring) {
    InEnd(r) || r.t.pc.Ack? || r.k.ack > 0
  }

  /** What holds while the server thread is in IOEndWrite. */
  predicate CloserOk(b: Both) {
    && Outside(b.r.p.pc) && !b.c.Away?
    && b.r.k.ack <= 1 && (b.r.k.ack == 1 ==> b.r.t.pc.Exited?)
    && (b.c.PutsEnd? ==> !Seen(b.r) && !b.r.io.command.CmdWriteEnd?)
    && (b.r.t.pc.Exited? && !b.r.io.error ==> b.r.k.ack == 1 || b.c.Returned?)
    && (b.c.Awaits? && b.r.io.command.CmdWriteEnd? && !Seen(b.r) && !b.r.t.pc.Exited? ==>
          b.r.k.wakeups > 0 || b.r.t.pc.Dispatch?)
  }

  predicate Ok(b: Both) {
    if b.c.Away? then Inv(b.r) else Core(b.r) && CloserOk(b)
  }

  lemma BeginOk(b: Both)
    requires Ok(b) && CanMove(b, Begin)
    ensures Ok(Moved(b, Begin))
  {
    hide Core;
    InvMeansCore(b.r);
  }

  /** The server thread touches the command, the wake-ups and the acknowledgement only. */
  lemma CoreIgnores(r: Ring, command: Command, wakeups: nat, ack: nat)
    requires Core(r)
    ensures Core(r.(io := r.io.(command := command), k := r.k.(wakeups := wakeups, ack := ack)))
  {
    hide Flatten, Holding, AllButLastFull;
  }

  lemma CloserKeepsCore(b: Both, m: Move)
    requires Core(b.r) && CanMove(b, m) && !m.Own?
    ensures Core(Moved(b, m).r)
  {
    hide Core;
    var r := Moved(b, m).r;
    CoreIgnores(b.r, r.io.command, r.k.wakeups, r.k.ack);
  }

  lemma CloserStep(b: Both, m: Move)
    requires CloserOk(b) && CanMove(b, m)
    ensures CloserOk(Moved(b, m))
  {
    hide Flatten;
  }

  lemma MoveOk(b: Both, m: Move)
    requires Ok(b) && CanMove(b, m)
    ensures Ok(Moved(b, m))
  {
    hide Core, Inv, Enabled, Step, CloserOk;
    if m.Begin? {
      BeginOk(b);
    } else if b.c.Away? {
      StepInv(b.r, m.a);
    } else {
      CloserStep(b, m);
      if m.Own? {
        CoreStep(b.r, m.a);
      } else {
        CloserKeepsCore(b, m);
      }
    }
  }

  lemma {:induction false} MovesOk(b: Both, moves: seq<Move>, e: Both)
    requires Ok(b) && Leads(b, moves, e)
    ensures Ok(e)
    decreases |moves|
  {
    hide Ok, CanMove;
    if |moves| > 0 {
      MoveOk(b, moves[0]);
      MovesOk(Moved(b, moves[0]), moves[1..], e);
    }
  }

  ghost predicate Reachable(b: Both) {
    exists nbufs, bufmax, banks, lengths, sectors, room, moves ::
      InitOk(nbufs, bufmax, banks, lengths)
      && Leads(Both(Init(nbufs, bufmax, banks, lengths, sectors), Away, room), moves, b)
  }

  lemma ReachableOk(b: Both)
    requires Reachable(b)
    ensures Ok(b)
  {
    hide Ok, Leads;
    var nbufs, bufmax, banks, lengths, sectors, room, moves :|
      InitOk(nbufs, bufmax, banks, lengths)
      && Leads(Both(Init(nbufs, bufmax, banks, lengths, sectors), Away, room), moves, b);
    StartOk(nbufs, bufmax, banks, lengths, sectors, room);
    MovesOk(Both(Init(nbufs, bufmax, banks, lengths, sectors), Away, room), moves, b);
  }

  lemma StartOk(nbufs: nat, bufmax: nat, banks: seq<seq<Byte>>, lengths: seq<nat>, sectors: nat, room: nat)
    requires InitOk(nbufs, bufmax, banks, lengths)
    ensures Ok(Both(Init(nbufs, bufmax, banks, lengths, sectors), Away, room))
  {
    hide Inv;
    InitInv(nbufs, bufmax, banks, lengths, sectors);
  }

  // ---------------------------------------------------------------- when IOEndWrite returns

  /** The end command is there to be seen by a thread that lives, or has been seen. */
  predicate Stands(r: Ring) {
    Seen(r) || (r.io.command.CmdWriteEnd? && !r.t.pc.Exited?)
  }

  predicate Waiting(b: Both) {
    b.c.Wakes? || b.c.Awaits?
  }

  lemma LostStays(b: Both, m: Move)
    requires Waiting(b) && !Stands(b.r) && CanMove(b, m)
    ensures Waiting(Moved(b, m)) && !Stands(Moved(b, m).r)
  {
    hide Flatten;
  }

  lemma {:induction false} LostForEver(b: Both, moves: seq<Move>, e: Both)
    requires Waiting(b) && !Stands(b.r) && Leads(b, moves, e)
    ensures !e.c.Returned?
    decreases |moves|
  {
    hide CanMove, Moved, Stands;
    if |moves| > 0 {
      LostStays(b, moves[0]);
      LostForEver(Moved(b, moves[0]), moves[1..], e);
    }
  }

  /** No transfer runs past the end of the file. */
  predicate Fits(b: Both) {
    2048 * b.r.h.sectors <= b.room
  }

  /** The thread's own next step, as long as it has not acknowledged. */
  lemma ThreadGoesOn(b: Both) returns (m: Move)
    requires Ok(b) && b.c.Awaits? && Stands(b.r) && Fits(b) && b.r.k.ack == 0
    ensures m == Own(ThreadAction(b.r.t.pc)) && CanMove(b, m) && Stands(Moved(b, m).r) && Fits(Moved(b, m))
  {
    hide Core, Flatten, Overruns;
    FitsMeansNoOverrun(b.r, b.room);
    ThreadCanMove(b.r);
    m := Own(ThreadAction(b.r.t.pc));
  }

  lemma {:induction false} ThreadAcknowledges(b: Both) returns (moves: seq<Move>, e: Both)
    requires Ok(b) && b.c.Awaits? && Stands(b.r) && Fits(b)
    ensures Leads(b, moves, e) && e.c.Returned?
    decreases Work(b.r)
  {
    hide Core, Enabled, Step, CloserOk, Stands, Fits, Overruns, Work;
    if b.r.k.ack > 0 {
      moves, e := [Return], Moved(b, Return);
      assert [Return][1..] == [] && Leads(e, [], e);
    } else {
      var m := ThreadGoesOn(b);
      MoveOk(b, m);
      var b' := Moved(b, m);
      WorkIsNat(b.r);
      ThreadStepWorks(b.r, m.a);
      moves, e := ThreadAcknowledges(b');
      LeadsCons(b, m, moves, e);
      moves := [m] + moves;
    }
  }

  /**
   IOEndWrite, called by another thread than the one that fills the banks, never returns once the end command is
   overwritten unseen or the I/O thread dead. Otherwise it still can, if the file takes what is asked for.
   */
  lemma EndReturnsIff(b: Both)
    requires Reachable(b) && Waiting(b)
    ensures (exists more, e :: Leads(b, more, e) && e.c.Returned?) ==> Stands(b.r)
    ensures Fits(b) && Stands(b.r) ==> exists more, e :: Leads(b, more, e) && e.c.Returned?
  {
    hide Ok, Leads, Stands, Fits, Core, CloserOk;
    ReachableOk(b);
    if !Stands(b.r) {
      forall more, e | Leads(b, more, e) ensures !e.c.Returned? {
        LostForEver(b, more, e);
      }
    } else if Fits(b) {
      var more, e;
      if b.c.Wakes? {
        WakeFirst(b);
        more, e := ThreadAcknowledges(Moved(b, WakeUp));
        LeadsCons(b, WakeUp, more, e);
      } else {
        more, e := ThreadAcknowledges(b);
      }
    }
  }

  lemma WakeFirst(b: Both)
    requires Ok(b) && b.c.Wakes? && Stands(b.r)
    ensures CanMove(b, WakeUp) && Ok(Moved(b, WakeUp)) && Moved(b, WakeUp).c.Awaits? && Stands(Moved(b, WakeUp).r)
    ensures Fits(b) ==> Fits(Moved(b, WakeUp))
  {
    hide Core, CloserOk;
    MoveOk(b, WakeUp);
  }

  lemma LeadsCons(b: Both, m: Move, more: seq<Move>, e: Both)
    requires CanMove(b, m) && Leads(Moved(b, m), more, e)
    ensures Leads(b, [m] + more, e)
  {
    hide CanMove, Moved;
    assert ([m] + more)[1..] == more;
  }

  /** Only IOSignalWriteDone puts another command over the end command. */
  lemma OverwrittenBySubmitting(b: Both, m: Move)
    requires Waiting(b) && Stands(b.r) && b.r.io.command.CmdWriteEnd? && CanMove(b, m)
    ensures Moved(b, m).r.io.command.CmdWriteEnd? <==> m != Own(PutCommand)
  {
    hide Flatten;
  }

  lemma {:induction false} LeadsSnoc(b: Both, moves: seq<Move>, e: Both, m: Move)
    requires Leads(b, moves, e) && CanMove(e, m)
    ensures Leads(b, moves + [m], Moved(e, m))
    decreases |moves|
  {
    hide CanMove, Moved;
    if |moves| == 0 {
      assert moves + [m] == [m] && [m][1..] == [];
    } else {
      assert (moves + [m])[1..] == moves[1..] + [m];
      LeadsSnoc(Moved(b, moves[0]), moves[1..], e, m);
    }
  }

  /** One move further. */
  lemma Go(start: Both, log: seq<Move>, b: Both, m: Move) returns (log': seq<Move>, b': Both)
    requires Leads(start, log, b) && CanMove(b, m)
    ensures b' == Moved(b, m) && Leads(start, log', b')
  {
    LeadsSnoc(start, log, b, m);
    log', b' := log + [m], Moved(b, m);
  }

  /** One sector has come in; the thread has not been woken yet. */
  function OneSectorSubmitted(): Ring {
    Ring(IOState(1, 1, [Zeros(2048)], [2048], 0, 0, CmdNone, false), Kernel(0, 1, 0, 0),
         Producer(SetCommand, 1, 1, 2048, 0, false),
         Thread(Sleep, 0, 0, 0), History(1, Zeros(2048), [Zeros(2048)], 0, []))
  }

  function Start(): Both {
    Both(Init(1, 1, [Zeros(2048)], [0], 1), Away, 2048)
  }

  /** One sector has come in, but has not been handed on. */
  function OneSectorReceived(): Both {
    Start().(r := Start().r.(k := Kernel(0, 0, 0, 0), p := Producer(Fill, 1, 1, 2048, 0, true),
                             h := History(1, Zeros(2048), [], 0, [])))
  }

  lemma OneSectorIsReceived() returns (log: seq<Move>)
    ensures Leads(Start(), log, OneSectorReceived())
  {
    hide Leads, Flatten;
    var b;
    LeadsNowhere(Start());
    log, b := Go(Start(), [], Start(), Own(Acquire));
    log, b := Go(Start(), log, b, Own(Receive(Zeros(2048))));
    assert Patch(Zeros(2048), 0, Zeros(2048)) == Zeros(2048);
    assert b.r.io.banks == [Zeros(2048)] && b.r.h.received == Zeros(2048);
  }

  lemma OneSectorIsSubmitted() returns (log: seq<Move>)
    ensures Leads(Start(), log, Both(OneSectorSubmitted(), Away, 2048))
  {
    hide Leads, Flatten;
    log := OneSectorIsReceived();
    var b := OneSectorReceived();
    assert Zeros(2048)[..2048] == Zeros(2048);
    log, b := Go(Start(), log, b, Own(Submit));
    assert b.r.h.submitted == [Zeros(2048)] && b.r.io.lengths == [2048];
    log, b := Go(Start(), log, b, Own(SignalOut));
  }

  /**
   The client's control connection breaks while a block is being handed on: nothing has failed, the I/O thread is merely
   asleep, and IOEndWrite never returns.
   */
  lemma EndIsOverwritten() returns (b: Both)
    ensures Reachable(b) && b.c.Awaits? && !b.r.io.error && b.r.t.pc.Sleep? && b.r.p.result == 0 && Fits(b)
    ensures forall more, e :: Leads(b, more, e) ==> !e.c.Returned?
  {
    hide Leads, Flatten, Zeros;
    var log := OneSectorIsSubmitted();
    b := Both(OneSectorSubmitted(), Away, 2048);
    log, b := Go(Start(), log, b, Begin);
    log, b := Go(Start(), log, b, PutEnd);
    log, b := Go(Start(), log, b, WakeUp);
    log, b := Go(Start(), log, b, Own(PutCommand));
    assert InitOk(1, 1, [Zeros(2048)], [0]);
    forall more, e | Leads(b, more, e) ensures !e.c.Returned? {
      LostForEver(b, more, e);
    }
  }

  lemma LeadsNowhere(b: Both)
    ensures Leads(b, [], b)
  {
  }
}
