/**
 A game read that another thread ends, as CleanupClientConnection does while the data thread may still be in ReadGame.
 */
module ReadClose {
  import opened Common
  import opened Banks
  import opened ReadRing
  import opened ReadLive

  /** Where the server thread stands in IOEndRead. The data thread's CloseGame must wait until it is through. */
  datatype Closer = Away | PutsEnd | Wakes | Awaits | Returned

  datatype Both = Both(r: Ring, c: Closer)

  datatype Move = Own(a: Action) | Begin | PutEnd | WakeUp | Return

  /** The data thread is not in IOEndRead itself. */
  predicate Outside(pc: ConsumerPc) {
    !pc.EndWake? && !pc.WaitAck? && !pc.Done?
  }

  predicate CanMove(b: Both, m: Move) {
    match m
    case Own(a) => Enabled(b.r, a) && !b.c.Returned? && (a.CPutEndCommand? ==> b.c.Away?)
    case Begin => b.c.Away? && Outside(b.r.c.pc)
    case PutEnd => b.c.PutsEnd?
    case WakeUp => b.c.Wakes?
    case Return => b.c.Awaits? && b.r.k.ack > 0
  }

  function Moved(b: Both, m: Move): Both
    requires CanMove(b, m)
  {
    var Both(r, c) := b;
    match m
    case Own(a) => Both(Step(r, a), c)
    case Begin => Both(r, PutsEnd)
    case PutEnd => Both(r.(io := r.io.(command := CmdReadEnd)), Wakes)
    case WakeUp => Both(r.(k := r.k.(wakeups := r.k.wakeups + 1)), Awaits)
    case Return => Both(r.(k := r.k.(ack := r.k.ack - 1)), Returned)
  }

  /** The moves are possible one after the other, and lead from `b` to `e`. */
  predicate Leads(b: Both, moves: seq<Move>, e: Both)
    decreases |moves|
  {
    if |moves| == 0 then e == b else CanMove(b, moves[0]) && Leads(Moved(b, moves[0]), moves[1..], e)
  }

  /** The thread has taken up the end command, or has acknowledged it. */
  predicate Seen(r: Ring) {
    r.t.pc.Ack? || r.k.ack > 0
  }

  /** What holds while the server thread is in IOEndRead. */
  predicate CloserOk(b: Both) {
    && Outside(b.r.c.pc) && !b.c.Away?
    && b.r.k.ack <= 1 && (b.r.k.ack == 1 ==> b.r.t.pc.Exited?)
    && (b.c.PutsEnd? ==> !Seen(b.r) && !b.r.io.command.CmdReadEnd?)
    && (b.r.t.pc.Exited? && !b.r.io.error ==> b.r.k.ack == 1 || b.c.Returned?)
    && (b.c.Awaits? && b.r.io.command.CmdReadEnd? && !Seen(b.r) && !b.r.t.pc.Exited? ==>
          b.r.k.wakeups > 0 || b.r.t.pc.Dispatch?)
  }

  predicate Ok(b: Both) {
    if b.c.Away? then Inv(b.r) else Core(b.r) && CloserOk(b)
  }

  lemma BeginOk(b: Both)
    requires Ok(b) && CanMove(b, Begin)
    ensures Ok(Moved(b, Begin))
  {
    hide Core;
    InvMeansCore(b.r);
  }

  /** The server thread touches the command, the wake-ups and the acknowledgement only. */
  function Touched(r: Ring, command: Command, wakeups: nat, ack: nat): Ring {
    r.(io := r.io.(command := command), k := r.k.(wakeups := wakeups, ack := ack))
  }

  lemma BanksIgnore(r: Ring, command: Command, wakeups: nat, ack: nat)
    requires Core(r)
    ensures var r' := Touched(r, command, wakeups, ack);
            Shape(r') && Tokens(r') && Queue(r') && Held(r') && Plan(r')
  {
    hide Contents, Sizes, Sent, Flatten, Holding, AllButLastFull, SumLengths;
  }

  lemma BytesIgnore(r: Ring, command: Command, wakeups: nat, ack: nat)
    requires Core(r)
    ensures var r' := Touched(r, command, wakeups, ack); Shape(r') && Contents(r') && Sizes(r') && Sent(r')
  {
    hide Tokens, Queue, Held, Plan, Flatten, AllButLastFull, Shifted, Growing;
  }

  lemma CoreIgnores(r: Ring, command: Command, wakeups: nat, ack: nat)
    requires Core(r)
    ensures Core(Touched(r, command, wakeups, ack))
  {
    hide Shape, Tokens, Queue, Held, Plan, Contents, Sizes, Sent;
    BanksIgnore(r, command, wakeups, ack);
    BytesIgnore(r, command, wakeups, ack);
  }

  lemma CloserKeepsCore(b: Both, m: Move)
    requires Core(b.r) && CanMove(b, m) && !m.Own?
    ensures Core(Moved(b, m).r)
  {
    hide Core;
    var r := Moved(b, m).r;
    CoreIgnores(b.r, r.io.command, r.k.wakeups, r.k.ack);
  }

  lemma CloserStep(b: Both, m: Move)
    requires CloserOk(b) && CanMove(b, m)
    ensures CloserOk(Moved(b, m))
  {
    hide Flatten, Cut, StoreAcross;
  }

  lemma MoveOk(b: Both, m: Move)
    requires Ok(b) && CanMove(b, m)
    ensures Ok(Moved(b, m))
  {
    hide Core, Inv, Enabled, Step, CloserOk;
    if m.Begin? {
      BeginOk(b);
    } else if b.c.Away? {
      StepInv(b.r, m.a);
    } else {
      CloserStep(b, m);
      if m.Own? {
        CoreStep(b.r, m.a);
      } else {
        CloserKeepsCore(b, m);
      }
    }
  }

  lemma {:induction false} MovesOk(b: Both, moves: seq<Move>, e: Both)
    requires Ok(b) && Leads(b, moves, e)
    ensures Ok(e)
    decreases |moves|
  {
    hide Ok, CanMove;
    if |moves| > 0 {
      MoveOk(b, moves[0]);
      MovesOk(Moved(b, moves[0]), moves[1..], e);
    }
  }

  ghost predicate Reachable(b: Both) {
    exists nbufs, bufmax, banks, lengths, sectors, image, moves ::
      InitOk(nbufs, bufmax, banks, lengths)
      && Leads(Both(Init(nbufs, bufmax, banks, lengths, sectors, image), Away), moves, b)
  }

  lemma ReachableOk(b: Both)
    requires Reachable(b)
    ensures Ok(b)
  {
    hide Ok, Leads;
    var nbufs, bufmax, banks, lengths, sectors, image, moves :|
      InitOk(nbufs, bufmax, banks, lengths)
      && Leads(Both(Init(nbufs, bufmax, banks, lengths, sectors, image), Away), moves, b);
    StartOk(nbufs, bufmax, banks, lengths, sectors, image);
    MovesOk(Both(Init(nbufs, bufmax, banks, lengths, sectors, image), Away), moves, b);
  }

  lemma StartOk(nbufs: nat, bufmax: nat, banks: seq<seq<Byte>>, lengths: seq<nat>, sectors: nat, image: seq<Byte>)
    requires InitOk(nbufs, bufmax, banks, lengths)
    ensures Ok(Both(Init(nbufs, bufmax, banks, lengths, sectors, image), Away))
  {
    hide Inv;
    InitInv(nbufs, bufmax, banks, lengths, sectors, image);
  }

  // ---------------------------------------------------------------- when IOEndRead returns

  /** The end command is there to be seen by a thread that lives, or has been seen. */
  predicate Stands(r: Ring) {
    Seen(r) || (r.io.command.CmdReadEnd? && !r.t.pc.Exited?)
  }

  predicate Waiting(b: Both) {
    b.c.Wakes? || b.c.Awaits?
  }

  /** The last transfer has not failed, and no transfer runs past the end of the file. */
  predicate ReadsOn(r: Ring) {
    !r.t.failed && 2048 * r.h.sectors + r.h.skipped <= |r.h.image|
  }

  lemma LostStays(b: Both, m: Move)
    requires Waiting(b) && !Stands(b.r) && CanMove(b, m)
    ensures Waiting(Moved(b, m)) && !Stands(Moved(b, m).r)
  {
    hide Flatten, Cut, StoreAcross;
  }

  lemma {:induction false} LostForEver(b: Both, moves: seq<Move>, e: Both)
    requires Waiting(b) && !Stands(b.r) && Leads(b, moves, e)
    ensures !e.c.Returned?
    decreases |moves|
  {
    hide CanMove, Moved, Stands;
    if |moves| > 0 {
      LostStays(b, moves[0]);
      LostForEver(Moved(b, moves[0]), moves[1..], e);
    }
  }

  lemma ThreadStands(b: Both, a: Action)
    requires CloserOk(b) && Stands(b.r) && CanMove(b, Own(a)) && a == ThreadAction(b.r.t.pc)
    requires b.r.t.pc.Failing? ==> b.r.t.failed
    requires ReadsOn(b.r)
    ensures Stands(Step(b.r, a)) && ReadsOn(Step(b.r, a))
  {
    hide Flatten, Cut, StoreAcross;
  }

  lemma FailingMeansFailed(r: Ring)
    requires Core(r)
    ensures r.t.pc.Failing? ==> r.t.failed
  {
  }

  lemma Asleep(b: Both)
    requires CloserOk(b) && b.c.Awaits? && Stands(b.r) && b.r.k.ack == 0
    ensures !b.r.t.pc.Exited? && (b.r.t.pc.Sleep? ==> b.r.k.wakeups > 0)
  {
  }

  /** The thread's own next step, as long as it has not acknowledged. */
  lemma ThreadGoesOn(b: Both) returns (a: Action)
    requires Ok(b) && b.c.Awaits? && Stands(b.r) && ReadsOn(b.r) && b.r.k.ack == 0
    ensures ByThread(a) && !a.TRetry? && CanMove(b, Own(a)) && Stands(Step(b.r, a)) && ReadsOn(Step(b.r, a))
  {
    hide Core, CloserOk, Enabled, Step, Stands, Overruns;
    FitsMeansNoOverrun(b.r);
    Asleep(b);
    ThreadCanMove(b.r);
    a := ThreadAction(b.r.t.pc);
    FailingMeansFailed(b.r);
    ThreadStands(b, a);
  }

  lemma {:induction false} ThreadAcknowledges(b: Both) returns (moves: seq<Move>, e: Both)
    requires Ok(b) && b.c.Awaits? && Stands(b.r) && ReadsOn(b.r)
    ensures Leads(b, moves, e) && e.c.Returned?
    decreases Work(b.r)
  {
    hide Core, Enabled, Step, CloserOk, Stands, ReadsOn, Work;
    if b.r.k.ack > 0 {
      moves, e := [Return], Moved(b, Return);
      assert [Return][1..] == [] && Leads(e, [], e);
    } else {
      var a := ThreadGoesOn(b);
      MoveOk(b, Own(a));
      WorkIsNat(b.r);
      ThreadStepWorks(b.r, a);
      moves, e := ThreadAcknowledges(Moved(b, Own(a)));
      LeadsCons(b, Own(a), moves, e);
      moves := [Own(a)] + moves;
    }
  }

  /**
   IOEndRead, called by another thread than the one that empties the banks, never returns once the end command is
   overwritten or the I/O thread dead. Otherwise it still can, as long as the thread itself gets on: from everywhere
   where its last transfer has not failed, in a file that holds what is asked for.
   */
  lemma EndReturnsIff(b: Both)
    requires Reachable(b) && Waiting(b)
    ensures (exists more, e :: Leads(b, more, e) && e.c.Returned?) ==> Stands(b.r)
    ensures ReadsOn(b.r) && Stands(b.r) ==> exists more, e :: Leads(b, more, e) && e.c.Returned?
  {
    hide Ok, Leads, Stands, Core, CloserOk, ReadsOn;
    ReachableOk(b);
    if !Stands(b.r) {
      forall more, e | Leads(b, more, e) ensures !e.c.Returned? {
        LostForEver(b, more, e);
      }
    } else if ReadsOn(b.r) {
      var more, e;
      if b.c.Wakes? {
        WakeFirst(b);
        more, e := ThreadAcknowledges(Moved(b, WakeUp));
        LeadsCons(b, WakeUp, more, e);
      } else {
        more, e := ThreadAcknowledges(b);
      }
    }
  }

  lemma WakeFirst(b: Both)
    requires Ok(b) && b.c.Wakes? && Stands(b.r)
    ensures CanMove(b, WakeUp) && Ok(Moved(b, WakeUp)) && Moved(b, WakeUp).c.Awaits? && Stands(Moved(b, WakeUp).r)
    ensures ReadsOn(b.r) ==> ReadsOn(Moved(b, WakeUp).r)
  {
    hide Core, CloserOk;
    MoveOk(b, WakeUp);
  }

  lemma LeadsCons(b: Both, m: Move, more: seq<Move>, e: Both)
    requires CanMove(b, m) && Leads(Moved(b, m), more, e)
    ensures Leads(b, [m] + more, e)
  {
    hide CanMove, Moved;
    assert ([m] + more)[1..] == more;
  }

  /** Only IOReadAdvance puts another command over the end command. */
  lemma OverwrittenByAdvancing(b: Both, m: Move)
    requires Waiting(b) && Stands(b.r) && b.r.io.command.CmdReadEnd? && CanMove(b, m)
    ensures Moved(b, m).r.io.command.CmdReadEnd? <==> m != Own(CPutCommand)
  {
    hide Flatten, Cut, StoreAcross;
  }

  lemma {:induction false} LeadsSnoc(b: Both, moves: seq<Move>, e: Both, m: Move)
    requires Leads(b, moves, e) && CanMove(e, m)
    ensures Leads(b, moves + [m], Moved(e, m))
    decreases |moves|
  {
    hide CanMove, Moved;
    if |moves| == 0 {
      assert moves + [m] == [m] && [m][1..] == [];
    } else {
      assert (moves + [m])[1..] == moves[1..] + [m];
      LeadsSnoc(Moved(b, moves[0]), moves[1..], e, m);
    }
  }

  /** One move further. */
  lemma Go(start: Both, log: seq<Move>, b: Both, m: Move) returns (log': seq<Move>, b': Both)
    requires Leads(start, log, b) && CanMove(b, m)
    ensures b' == Moved(b, m) && Leads(start, log', b')
  {
    LeadsSnoc(start, log, b, m);
    log', b' := log + [m], Moved(b, m);
  }

  /** Two sectors are asked for, and there is one bank. */
  function Start(): Both {
    Both(Init(1, 1, [Zeros(2048)], [0], 2, Zeros(4096)), Away)
  }

  /** The thread has claimed the bank for the first of them. */
  function FirstSectorClaimed(pc: ThreadPc): Both {
    var b := Start();
    b.(r := b.r.(io := b.r.io.(lengths := [2048]), k := Kernel(0, 0, 0, 0), t := Thread(pc, 1, 1, 0, false)))
  }

  /** It has been read. */
  predicate Looks(b: Both, k: Kernel, c: Consumer, t: Thread, remaining: nat, taken: nat) {
    && b.c.Away? && b.r.k == k && b.r.c == c && b.r.t == t
    && b.r.io == IOState(1, 1, b.r.io.banks, [2048], 0, 0, CmdRead, remaining, false)
    && |b.r.io.banks| == 1 && |b.r.io.banks[0]| == 2048
    && |b.r.h.read| == 1 && b.r.h.taken == taken && b.r.h.sectors == 2 && |b.r.h.image| == 4096 && b.r.h.skipped == 0
  }

  lemma FirstSectorIsClaimed() returns (log: seq<Move>)
    ensures Leads(Start(), log, FirstSectorClaimed(Merge))
  {
    hide Leads, Flatten, Cut, StoreAcross, Zeros, Repeat;
    var b;
    LeadsNowhere(Start());
    log, b := Go(Start(), [], Start(), Own(TWake));
    log, b := Go(Start(), log, b, Own(TDispatch));
    log, b := Go(Start(), log, b, Own(TTake));
    assert b.r.io.lengths == [2048];
  }

  lemma FirstTransferBegins() returns (log: seq<Move>)
    ensures Leads(Start(), log, FirstSectorClaimed(Transfer))
  {
    hide Leads, Flatten, Zeros;
    log := FirstSectorIsClaimed();
    var b;
    log, b := Go(Start(), log, FirstSectorClaimed(Merge), Own(TMerge));
  }

  lemma FirstSectorIsRead() returns (log: seq<Move>, b: Both)
    ensures Leads(Start(), log, b)
    ensures Looks(b, Kernel(0, 0, 0, 0), Consumer(Loop, 2, 0, 0, 0, 0, false), Thread(Give, 0, 1, 1, false), 2, 0)
  {
    hide Leads, Flatten, Cut, StoreAcross, Zeros, Repeat;
    log := FirstTransferBegins();
    FlattenNothing();
    log, b := Go(Start(), log, FirstSectorClaimed(Transfer), Own(TRead));
    log, b := Go(Start(), log, b, Own(TAdvance));
  }

  /** The thread sleeps for want of another bank. */
  lemma FirstSectorIsThere() returns (log: seq<Move>, b: Both)
    ensures Leads(Start(), log, b)
    ensures Looks(b, Kernel(0, 1, 0, 0), Consumer(Loop, 2, 0, 0, 0, 0, false), Thread(Sleep, 0, 0, 0, false), 1, 0)
  {
    hide Leads, Flatten, Cut, StoreAcross;
    log, b := FirstSectorIsRead();
    log, b := Go(Start(), log, b, Own(TGive));
    log, b := Go(Start(), log, b, Own(TGive));
    log, b := Go(Start(), log, b, Own(TTake));
  }

  lemma FirstSectorIsSent() returns (log: seq<Move>, b: Both)
    ensures Leads(Start(), log, b)
    ensures Looks(b, Kernel(1, 0, 0, 0), Consumer(SetCommand, 1, 0, 2048, 2048, 0, false),
                  Thread(Sleep, 0, 0, 0, false), 1, 1)
  {
    hide Leads, Flatten, Cut, StoreAcross;
    log, b := FirstSectorIsThere();
    log, b := Go(Start(), log, b, Own(CTake));
    log, b := Go(Start(), log, b, Own(CSend(2048)));
    log, b := Go(Start(), log, b, Own(CFinish));
    log, b := Go(Start(), log, b, Own(CGiveBack));
  }

  /**
   The client's control connection breaks while the data thread is between two blocks: nothing has failed, the I/O
   thread is merely asleep, and IOEndRead never returns.
   */
  lemma EndIsOverwritten() returns (b: Both)
    ensures Reachable(b) && b.c.Awaits? && !b.r.io.error && b.r.t.pc.Sleep? && b.r.c.result == 0 && ReadsOn(b.r)
    ensures forall more, e :: Leads(b, more, e) ==> !e.c.Returned?
  {
    hide Leads, Flatten, Cut, StoreAcross, Zeros, Repeat;
    var log;
    log, b := FirstSectorIsSent();
    log, b := Go(Start(), log, b, Begin);
    log, b := Go(Start(), log, b, PutEnd);
    log, b := Go(Start(), log, b, WakeUp);
    log, b := Go(Start(), log, b, Own(CPutCommand));
    assert InitOk(1, 1, [Zeros(2048)], [0]);
    forall more, e | Leads(b, more, e) ensures !e.c.Returned? {
      LostForEver(b, more, e);
    }
  }

  lemma LeadsNowhere(b: Both)
    ensures Leads(b, [], b)
  {
  }
}
