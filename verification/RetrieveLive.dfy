/** Every course that a copy's connections can take belongs to a run of the copier's ring that comes to its end. */
module RetrieveLive {
  import opened Common
  import opened Banks
  import opened ClientRing
  import opened Retrieve

  /** A run without a failed write, with these ring calls of the copier among its steps. */
  predicate Course(start: Ring, log: seq<Action>, t: Ring, calls: seq<Action>) {
    Run(start, log) == Reached(t) && Calls(log) == calls && NoWriteFails(log)
  }

  lemma CourseBegins(start: Ring)
    ensures Course(start, [], start, [])
  {
  }

  lemma {:induction false} CallsSnoc(schedule: seq<Action>, a: Action)
    ensures Calls(schedule + [a]) == if Fills(a) then Calls(schedule) + [a] else Calls(schedule)
  {
    if |schedule| == 0 {
      assert schedule + [a] == [a] && [a][1..] == [];
    } else {
      var first := if Fills(schedule[0]) then [schedule[0]] else [];
      var rest := Calls(schedule[1..]);
      assert (schedule + [a])[1..] == schedule[1..] + [a];
      CallsSnoc(schedule[1..], a);
      assert Calls(schedule + [a]) == first + Calls(schedule[1..] + [a]);
      assert first + (rest + [a]) == (first + rest) + [a];
    }
  }

  /** One step further. */
  lemma Onward(start: Ring, log: seq<Action>, s: Ring, calls: seq<Action>, a: Action)
    returns (log': seq<Action>, t: Ring, calls': seq<Action>)
    requires Course(start, log, s, calls) && Enabled(s, a) && !a.TFail?
    ensures t == Step(s, a) && calls' == (if Fills(a) then calls + [a] else calls) && Course(start, log', t, calls')
  {
    hide Run, Calls, Enabled, Step, Fills;
    RunSnoc(start, log, a);
    CallsSnoc(log, a);
    log', t, calls' := log + [a], Step(s, a), if Fills(a) then calls + [a] else calls;
  }

  predicate Roomy(s: Ring) {
    && |s.io.banks| == |s.io.lengths| == s.io.nbufs == IO_BANKMAX
    && forall i :: 0 <= i < IO_BANKMAX ==> |s.io.banks[i]| == BANK_BYTES
  }

  /** Between two blocks, with all of them written. */
  predicate AtRest(s: Ring) {
    && s.p.Idle? && s.t.pc.Sleep? && s.t.result >= 0 && s.k == Kernel(IO_BANKMAX, 0, false, false)
    && s.io.readPtr == s.io.writePtr < IO_BANKMAX && Roomy(s)
  }

  predicate Storing(s: Ring) {
    && s.p.Fill? && s.t.pc.Sleep? && s.t.result >= 0 && s.k == Kernel(IO_BANKMAX - 1, 0, false, false)
    && s.io.readPtr == s.io.writePtr < IO_BANKMAX && Roomy(s)
  }

  predicate Stores(calls: seq<Action>) {
    forall i :: 0 <= i < |calls| ==> calls[i].Store? && |calls[i].data| <= BANK_BYTES
  }

  lemma StoreKeeps(s: Ring, a: Action)
    requires Storing(s) && a.Store? && |a.data| <= BANK_BYTES
    ensures Enabled(s, a) && Storing(Step(s, a))
  {
  }

  /** All attempts at a block. */
  lemma {:induction false} StoresGoIn(start: Ring, log: seq<Action>, s: Ring, calls: seq<Action>, more: seq<Action>)
    returns (log': seq<Action>, t: Ring)
    requires Course(start, log, s, calls) && Storing(s) && Stores(more)
    ensures Course(start, log', t, calls + more) && Storing(t)
    decreases |more|
  {
    hide Course, Storing, Enabled, Step;
    if |more| == 0 {
      assert calls + more == calls;
      log', t := log, s;
    } else {
      assert Fills(more[0]);
      StoreKeeps(s, more[0]);
      var calls';
      log', t, calls' := Onward(start, log, s, calls, more[0]);
      assert calls' + more[1..] == calls + more;
      log', t := StoresGoIn(start, log', t, calls', more[1..]);
    }
  }

  lemma SubmitGoesIn(start: Ring, log: seq<Action>, s: Ring, calls: seq<Action>, length: nat)
    returns (log': seq<Action>, t: Ring)
    requires Course(start, log, s, calls) && Storing(s) && length <= BANK_BYTES
    ensures Course(start, log', t, calls + [Submit(length)]) && Roomy(t)
    ensures t.p.Idle? && t.t == s.t && t.k == Kernel(IO_BANKMAX - 1, 1, true, false) && t.io.command.CmdWrite?
    ensures t.io.readPtr < IO_BANKMAX && t.io.writePtr == Slot(t.io.readPtr, 1, IO_BANKMAX)
    ensures t.io.lengths[t.io.readPtr] <= BANK_BYTES
  {
    hide Course;
    var calls';
    log', t, calls' := Onward(start, log, s, calls, Submit(length));
    log', t, calls' := Onward(start, log', t, calls', SignalOut);
    log', t, calls' := Onward(start, log', t, calls', PutCommand);
    log', t, calls' := Onward(start, log', t, calls', SetEvent);
  }

  lemma BlockIsWritten(start: Ring, log: seq<Action>, s: Ring, calls: seq<Action>)
    returns (log': seq<Action>, t: Ring)
    requires Course(start, log, s, calls) && Roomy(s) && s.t.pc.Sleep?
    requires s.p.Idle? && s.k == Kernel(IO_BANKMAX - 1, 1, true, false) && s.io.command.CmdWrite?
    requires s.io.readPtr < IO_BANKMAX && s.io.writePtr == Slot(s.io.readPtr, 1, IO_BANKMAX)
    requires s.io.lengths[s.io.readPtr] <= BANK_BYTES
    ensures Course(start, log', t, calls) && AtRest(t)
  {
    hide Course;
    var calls';
    log', t, calls' := Onward(start, log, s, calls, TWake);
    log', t, calls' := Onward(start, log', t, calls', TDispatch);
    log', t, calls' := Onward(start, log', t, calls', TPoll);
    log', t, calls' := Onward(start, log', t, calls', TWrite);
    log', t, calls' := Onward(start, log', t, calls', TGive);
    log', t, calls' := Onward(start, log', t, calls', TPoll);
  }

  lemma BlockGoesIn(start: Ring, log: seq<Action>, s: Ring, calls: seq<Action>, more: seq<Action>, length: nat)
    returns (log': seq<Action>, t: Ring)
    requires Course(start, log, s, calls) && AtRest(s) && Stores(more) && length <= BANK_BYTES
    ensures Course(start, log', t, calls + (more + [Submit(length)])) && AtRest(t)
  {
    hide Course, Stores;
    var calls';
    log', t, calls' := Onward(start, log, s, calls, Acquire);
    log', t := StoresGoIn(start, log', t, calls, more);
    log', t := SubmitGoesIn(start, log', t, calls + more, length);
    assert calls + more + [Submit(length)] == calls + (more + [Submit(length)]);
    log', t := BlockIsWritten(start, log', t, calls + (more + [Submit(length)]));
  }

  /** The ring calls for a block are its attempts and the handing on. */
  lemma BlockCallsAreStores(image: seq<Byte>, q: Request, before: seq<Fate>, fate: Fate) returns (more: seq<Action>)
    requires Lsn(|before|) < q.sectors
    requires Possible(q, Place(q, before), |before|, fate, Length(q.sectors, |before|))
    ensures Stores(more) && BlockCalls(image, q, before, fate) == more + [Submit(Length(q.sectors, |before|))]
  {
    hide Data, Place, Arrives;
    var k, w, length := |before|, Place(q, before), Length(q.sectors, |before|);
    more := Broken(image, q.sectors, w, k, fate)
            + if fate.Received? then [Attempt(image, q.sectors, w, k, fate, |fate.broken|, length)] else [];
    forall i | 0 <= i < |more| ensures more[i].Store? && |more[i].data| <= BANK_BYTES {
      DataFits(image, q.sectors, From(w, k, fate, i), if i < |fate.broken| then fate.broken[i] else length);
    }
  }

  lemma {:induction false} BlocksGoIn(image: seq<Byte>, q: Request, fates: seq<Fate>, start: Ring)
    returns (log: seq<Action>, t: Ring)
    requires Plausible(q, fates) && AtRest(start)
    ensures Course(start, log, t, AllCalls(image, q, fates)) && AtRest(t)
  {
    hide Course, AtRest, Possible, Place, BlockCalls, Stores;
    if |fates| == 0 {
      CourseBegins(start);
      log, t := [], start;
    } else {
      var k := |fates| - 1;
      log, t := BlocksGoIn(image, q, fates[..k], start);
      var more := BlockCallsAreStores(image, q, fates[..k], fates[k]);
      log, t := BlockGoesIn(start, log, t, AllCalls(image, q, fates[..k]), more, Length(q.sectors, k));
    }
  }

  lemma Ends(start: Ring, log: seq<Action>, s: Ring, calls: seq<Action>) returns (log': seq<Action>, t: Ring)
    requires Course(start, log, s, calls) && AtRest(s)
    ensures Course(start, log', t, calls) && t.p.Done?
  {
    hide Course;
    var calls';
    log', t, calls' := Onward(start, log, s, calls, Finish);
    log', t, calls' := Onward(start, log', t, calls', PutEndCommand);
    log', t, calls' := Onward(start, log', t, calls', SetEventForEnd);
    log', t, calls' := Onward(start, log', t, calls', TWake);
    log', t, calls' := Onward(start, log', t, calls', TDispatch);
    log', t, calls' := Onward(start, log', t, calls', TPoll);
    log', t, calls' := Onward(start, log', t, calls', TAck);
    log', t, calls' := Onward(start, log', t, calls', TakeAck);
  }

  /** The moves that make a schedule, with its calls taken out. */
  function Unwoven(schedule: seq<Action>): (moves: seq<Move>)
    ensures |moves| == |schedule|
  {
    seq(|schedule|, i requires 0 <= i < |schedule| => if Fills(schedule[i]) then Call else Other(schedule[i]))
  }

  lemma {:induction false} WovenAgain(schedule: seq<Action>)
    ensures CallCount(Unwoven(schedule)) == |Calls(schedule)| && Plain(Unwoven(schedule))
    ensures Woven(Calls(schedule), Unwoven(schedule)) == schedule
  {
    if |schedule| > 0 {
      WovenAgain(schedule[1..]);
      assert Unwoven(schedule)[1..] == Unwoven(schedule[1..]);
      assert schedule == [schedule[0]] + schedule[1..];
      if Fills(schedule[0]) {
        assert Calls(schedule)[1..] == Calls(schedule[1..]);
      } else {
        assert Calls(schedule) == Calls(schedule[1..]);
      }
    }
  }

  lemma NoneFailsEither(schedule: seq<Action>)
    requires NoWriteFails(schedule)
    ensures NoneFails(Unwoven(schedule))
  {
  }

  /** Whatever becomes of the attempts, the copy can be completed, whatever is in the memory of the banks. */
  lemma EveryCourseFinishes(image: seq<Byte>, q: Request, fates: seq<Fate>, banks: seq<seq<Byte>>, lengths: seq<nat>)
    returns (moves: seq<Move>)
    requires Complete(q, fates) && 2048 * q.sectors <= |image| == q.size && Memory(banks, lengths)
    ensures Finishes(image, q, fates, moves, banks, lengths) && NoneFails(moves)
  {
    hide Run, Calls, AllCalls, Plausible, Woven, Unwoven, Plain, NoneFails;
    var start := Init(IO_BANKMAX, banks, lengths);
    var log, t := BlocksGoIn(image, q, fates, start);
    log, t := Ends(start, log, t, AllCalls(image, q, fates));
    WovenAgain(log);
    NoneFailsEither(log);
    moves := Unwoven(log);
  }

  /** So a copy can come to its end, without a block given up on and without a failed write, and yet be another game. */
  lemma ShiftedCopyCompletes() returns (q: Request, fates: seq<Fate>, moves: seq<Move>, lengths: seq<nat>)
    ensures Complete(q, fates) && NoneExhausted(fates) && NoneFails(moves) && !AlwaysRight(q, fates, moves, lengths)
  {
    hide Plausible, NoneExhausted, NoneShifted, NoneFails, Finishes, AlwaysRight, Zeros, AllZero;
    q, fates := ShiftGoesUnseen();
    lengths := Repeat(0, IO_BANKMAX);
    var image, banks := Zeros(q.size), ZeroBanks();
    moves := EveryCourseFinishes(image, q, fates, banks, lengths);
    CopyIsRightIff(q, fates, moves, image, banks, lengths);
  }
}
