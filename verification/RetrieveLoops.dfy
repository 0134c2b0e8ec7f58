/** The loops of RetrieveThread, with what they ask the console and the user, over the connections of Retrieve.dfy. */
module RetrieveLoops {
  import opened Common
  import opened Banks
  import opened ClientRing
  import opened ReadStream
  import opened Retrieve

  const RECONNECT_COUNT := 5
  const EEXTCONNLOST := 0x2000
  const EEXTABORT := 0x4000

  /**
   What the copier does not decide: how much arrives before read number `n` breaks off, how HDLGManGetIOStatus,
   ReconnectToServer and ReconnectToServerForRead answer when asked for the `n`th time, a connection that is not sound
   standing for none, and whether the user has given up when block `k` is begun.
   */
  datatype World = World(arrivals: nat -> nat, statuses: nat -> int, reconnects: nat -> bool, reopens: nat -> Session,
                         aborts: nat -> bool)

  /** How many reads a block took. */
  function Reads(fate: Fate): nat {
    |fate.broken| + if fate.Received? then 1 else 0
  }

  function AllReads(fates: seq<Fate>): nat {
    var k := |fates| - 1;
    if k < 0 then 0 else AllReads(fates[..k]) + Reads(fates[k])
  }

  /**
   The copier: the data connection, on which the console sends `stream`, and the copier's side of the ring. `where`
   tells what the stream comes from; `calls` are the ring calls made so far that touch banks or blocks.
   */
  class Copier {
    const image: seq<Byte>
    const sectors: nat
    const world: World
    /** How many reads, questions about the status, and attempts to reconnect and to reopen have been made. */
    var received: nat
    var asked: nat
    var tries: nat
    var opens: nat
    var stream: seq<Byte>
    var position: nat
    var banks: seq<seq<Byte>>
    var writePtr: nat
    ghost var where: Where
    ghost var submitted: seq<seq<Byte>>
    ghost var calls: seq<Action>
    ghost const start: Filler
    ghost const first: Session

    ghost function Asked(): Request {
      Request(sectors, |image|, first)
    }

    ghost function Counters(): (nat, nat, nat)
      reads this
    {
      (asked, tries, opens)
    }

    /** What read number `n` brings of `count` bytes. */
    ghost function Got(w: Where, n: nat, count: nat): int {
      Min(Min(world.arrivals(n), |Sent(image, sectors, w)| - w.offset), count)
    }

    /** The attempts at block `k` brought what reads from number `n` on bring. */
    ghost predicate Brought(w: Where, k: nat, fate: Fate, n: nat, count: nat) {
      && (forall i :: 0 <= i < |fate.broken| ==> fate.broken[i] == Got(From(w, k, fate, i), n + i, count))
      && (fate.Received? ==> Got(Last(w, k, fate), n + |fate.broken|, count) == count)
    }

    /** So it was for all blocks, and before none of them had the user given up. */
    ghost predicate AllBrought(fates: seq<Fate>) {
      |fates| == 0
      || var k := |fates| - 1;
         && AllBrought(fates[..k]) && !world.aborts(k)
         && Brought(Place(Asked(), fates[..k]), k, fates[k], AllReads(fates[..k]), Length(sectors, k))
    }

    lemma BroughtMore(fates: seq<Fate>, fate: Fate)
      requires AllBrought(fates) && !world.aborts(|fates|)
      requires Brought(Place(Asked(), fates), |fates|, fate, AllReads(fates), Length(sectors, |fates|))
      ensures AllBrought(fates + [fate]) && AllReads(fates + [fate]) == AllReads(fates) + Reads(fate)
    {
      hide Place, Brought, Length;
      assert (fates + [fate])[..|fates|] == fates;
    }

    ghost predicate Connected()
      reads this`stream, this`position, this`where
    {
      Sound(where.session) && stream == Sent(image, sectors, where) && position == where.offset <= |stream|
    }

    ghost predicate Valid()
      reads this
    {
      && Sized(Filler(banks, writePtr, submitted)) && Connected()
      && Filler(banks, writePtr, submitted) == FilledByAll(start, IO_BANKMAX, calls)
    }

    /** HDLGManInitGameRead for the whole game, and IOWriteInit with banks that may hold anything. */
    constructor (image: seq<Byte>, sectors: nat, session: Session, memory: seq<seq<Byte>>, world: World)
      requires |memory| == IO_BANKMAX && forall i :: 0 <= i < IO_BANKMAX ==> |memory[i]| == BANK_BYTES
      requires Sound(session)
      ensures Valid() && this.image == image && this.sectors == sectors && first == session && this.world == world
      ensures received == asked == tries == opens == 0
      ensures where == Where(0, first, 0) && calls == [] && start == Filler(memory, 0, [])
    {
      this.image, this.sectors, this.world := image, sectors, world;
      received, asked, tries, opens := 0, 0, 0, 0;
      stream, position, where, first := Sent(image, sectors, Where(0, session, 0)), 0, Where(0, session, 0), session;
      banks, writePtr := memory, 0;
      submitted, calls, start := [], [], Filler(memory, 0, []);
    }

    /**
     HDLGManReadGame into the bank to be filled: all of it, or what arrives of it before the connection breaks or ends.
     */
    method ReadGame(count: nat) returns (result: int, ghost got: nat)
      requires Valid() && 0 < count <= BANK_BYTES
      modifies this
      ensures Valid() && writePtr == old(writePtr) && submitted == old(submitted)
      ensures got <= count && result == if got == count then 0 else -EEXTCONNLOST
      ensures received == old(received) + 1 && got == Got(old(where), old(received), count)
      ensures Counters() == old(Counters())
      ensures Arrives(Asked(), old(where), got)
      ensures where == if result == 0 then old(where).(offset := old(where).offset + count) else old(where)
      ensures calls == old(calls) + [Store(Data(image, sectors, old(where), got))]
    {
      hide FilledByAll, Sent;
      var arrived: nat := Min(Min(world.arrivals(received), |stream| - position), count);
      result := if arrived == count then 0 else -EEXTCONNLOST;
      got := arrived;
      SentLength(image, Zeros(|image|), sectors, where);
      SentStays(image, sectors, where, where.offset + count);
      CallMade(Store(Data(image, sectors, where, got)));
      banks := banks[writePtr := Patch(banks[writePtr], 0, stream[position..position + arrived])];
      calls, received := calls + [Store(Data(image, sectors, where, got))], received + 1;
      if result == 0 {
        position, where := position + count, where.(offset := where.offset + count);
      }
    }

    lemma CallMade(a: Action)
      requires Valid()
      ensures FilledByAll(start, IO_BANKMAX, calls + [a]) == FilledBy(Filler(banks, writePtr, submitted), IO_BANKMAX, a)
    {
      assert (calls + [a])[..|calls|] == calls;
    }

    /** IOSignalWriteDone, as far as the copier's side of the ring goes. */
    method IOSignalWriteDone(length: nat)
      requires Valid() && length <= BANK_BYTES
      modifies this`submitted, this`writePtr, this`calls
      ensures Valid()
      ensures calls == old(calls) + [Submit(length)]
      ensures submitted == old(submitted) + [banks[old(writePtr)][..length]]
    {
      hide FilledByAll, Sent;
      CallMade(Submit(length));
      submitted := submitted + [banks[writePtr][..length]];
      writePtr := Slot(writePtr, 1, IO_BANKMAX);
      calls := calls + [Submit(length)];
    }

    /** IOGetStatus: the ring never tells of an error (ClientRing.StateIsAlwaysOk). */
    method IOGetStatus() returns (error: bool)
      ensures !error
    {
      error := false;
    }

    /** ReconnectToServerForRead, up to five times. */
    method ReopenAt(lsn: nat) returns (result: int, ghost session: Session)
      requires Valid()
      modifies this`stream, this`position, this`where, this`opens
      ensures Valid() && old(opens) <= opens
      ensures result == 0 ==>
        Sound(session) && where == Where(lsn, session, 0) && IsAnswer(session, old(opens), opens)
      ensures result != 0 ==>
        result == -EEXTCONNLOST && opens == old(opens) + RECONNECT_COUNT && NoneOpened(opens)
    {
      hide FilledByAll, Sent;
      var reconnects := 0;
      result, session := -EEXTCONNLOST, where.session;
      while reconnects < RECONNECT_COUNT
        invariant result == -EEXTCONNLOST && Valid() && opens == old(opens) + reconnects
        invariant reconnects <= RECONNECT_COUNT
        invariant forall i: nat :: old(opens) <= i < opens ==> !Sound(world.reopens(i))
      {
        var answer := world.reopens(opens);
        opens := opens + 1;
        if Sound(answer) {
          stream, position, where := Sent(image, sectors, Where(lsn, answer, 0)), 0, Where(lsn, answer, 0);
          return 0, answer;
        }
        reconnects := reconnects + 1;
      }
    }

    /** AttemptReconnectCmd. */
    method AttemptReconnectCmd() returns (result: int)
      modifies this`tries
      ensures old(tries) <= tries
      ensures if result == 0 then old(tries) < tries <= old(tries) + RECONNECT_COUNT && world.reconnects(tries - 1)
              else result == -EEXTCONNLOST && tries == old(tries) + RECONNECT_COUNT && NoneReconnected(tries)
    {
      var reconnects := 0;
      result := -EEXTCONNLOST;
      while reconnects < RECONNECT_COUNT
        invariant result == -EEXTCONNLOST && tries == old(tries) + reconnects && reconnects <= RECONNECT_COUNT
        invariant forall i: nat :: old(tries) <= i < tries ==> !world.reconnects(i)
      {
        tries := tries + 1;
        if world.reconnects(tries - 1) {
          return 0;
        }
        reconnects := reconnects + 1;
      }
    }

    /** HDLGManGetIOStatus, and AttemptReconnectCmd when the command connection is lost as well. */
    method RecoverCommand() returns (result: int)
      modifies this`asked, this`tries
      ensures asked == old(asked) + 1 && old(tries) <= tries
      ensures world.statuses(asked - 1) == 0 ==> result == 0
      ensures world.statuses(asked - 1) != 0 && world.statuses(asked - 1) != -EEXTCONNLOST ==> result == -EIO
      ensures world.statuses(asked - 1) == -EEXTCONNLOST ==>
        if result == 0 then old(tries) < tries <= old(tries) + RECONNECT_COUNT && world.reconnects(tries - 1)
        else result == -EEXTCONNLOST && NoneReconnected(tries)
    {
      result := world.statuses(asked);
      asked := asked + 1;
      if result == -EEXTCONNLOST {
        result := AttemptReconnectCmd();
      } else if result != 0 {
        result := -EIO;
      }
    }

    /** The last five attempts to reconnect, or to reopen the game, have all failed. */
    predicate NoneReconnected(tries: nat) {
      RECONNECT_COUNT <= tries && forall i :: tries - RECONNECT_COUNT <= i < tries ==> !world.reconnects(i)
    }

    predicate NoneOpened(opens: nat) {
      RECONNECT_COUNT <= opens && forall i :: opens - RECONNECT_COUNT <= i < opens ==> !Sound(world.reopens(i))
    }

    /** The console has opened this connection in one of these attempts. */
    ghost predicate IsAnswer(session: Session, from: nat, to: nat) {
      exists i: nat :: from <= i < to && world.reopens(i) == session
    }

    /** All the connections reopened in these fates are such answers. */
    ghost predicate AllAnswers(fates: seq<Fate>, from: nat, to: nat) {
      forall k, i :: 0 <= k < |fates| && 0 <= i < |fates[k].reopened| ==> IsAnswer(fates[k].reopened[i], from, to)
    }

    lemma AnswersStay(fates: seq<Fate>, from: nat, to: nat, later: nat)
      requires AllAnswers(fates, from, to) && to <= later
      ensures AllAnswers(fates, from, later)
    {
      forall k, i | 0 <= k < |fates| && 0 <= i < |fates[k].reopened|
        ensures IsAnswer(fates[k].reopened[i], from, later)
      {
        assert IsAnswer(fates[k].reopened[i], from, to);
      }
    }

    lemma OneMoreAnswer(fate: Fate, broken: seq<nat>, from: nat, to: nat, session: Session, later: nat)
      requires AllAnswers([fate], from, to) && to <= later && IsAnswer(session, to, later) && from <= to
      ensures AllAnswers([Exhausted(broken, fate.reopened + [session])], from, later)
    {
      AnswersStay([fate], from, to, later);
      forall i | 0 <= i < |fate.reopened| ensures IsAnswer(fate.reopened[i], from, later) {
        assert IsAnswer([fate][0].reopened[i], from, later);
      }
      var i: nat :| to <= i < later && world.reopens(i) == session;
      assert from <= i < later;
    }

    lemma OneMoreBlock(fates: seq<Fate>, fate: Fate, from: nat, to: nat, later: nat)
      requires AllAnswers(fates, from, to) && AllAnswers([fate], to, later) && from <= to <= later
      ensures AllAnswers(fates + [fate], from, later)
    {
      AnswersStay(fates, from, to, later);
      forall i | 0 <= i < |fate.reopened| ensures IsAnswer(fate.reopened[i], from, later) {
        assert IsAnswer([fate][0].reopened[i], to, later);
        var n: nat :| to <= n < later && world.reopens(n) == fate.reopened[i];
        assert from <= n < later;
      }
    }

    lemma NoAnswers(from: nat, to: nat)
      ensures AllAnswers([], from, to) && AllAnswers([Exhausted([], [])], from, to)
    {
    }

    lemma SameAnswers(a: Fate, b: Fate, from: nat, to: nat)
      requires AllAnswers([a], from, to) && a.reopened == b.reopened
      ensures AllAnswers([b], from, to)
    {
      forall i | 0 <= i < |b.reopened| ensures IsAnswer(b.reopened[i], from, to) {
        assert IsAnswer([a][0].reopened[i], from, to);
      }
    }

    /** The copier gives up: the console reports another error, or it can not be reached, or does not open the game. */
    predicate GivesUp(result: int)
      reads this`asked, this`tries, this`opens
    {
      && 0 < asked && result != 0
      && var status := world.statuses(asked - 1);
         if status != 0 && status != -EEXTCONNLOST then result == -EIO
         else result == -EEXTCONNLOST && ((status == -EEXTCONNLOST && NoneReconnected(tries)) || NoneOpened(opens))
    }

    /** What is done about a broken connection: one at sector `lsn` is opened, if that can be done. */
    method Recover(lsn: nat) returns (result: int, ghost session: Session)
      requires Valid()
      modifies this`stream, this`position, this`where, this`asked, this`tries, this`opens
      ensures Valid() && old(opens) <= opens && asked == old(asked) + 1
      ensures result == 0 ==>
        Sound(session) && where == Where(lsn, session, 0) && IsAnswer(session, old(opens), opens)
      ensures result != 0 ==> GivesUp(result)
    {
      hide FilledByAll, Sent;
      session := where.session;
      result := RecoverCommand();
      if result == 0 {
        result, session := ReopenAt(lsn);
      }
    }

    /** The attempts at block `k`, from its first sector `lsn` on. */
    method ReadBlock(lsn: nat, count: nat, ghost k: nat) returns (result: int, ghost fate: Fate)
      requires Valid() && lsn == Lsn(k) && 0 < count <= BANK_BYTES
      modifies this
      ensures Valid() && writePtr == old(writePtr) && submitted == old(submitted)
      ensures calls == old(calls) + Broken(image, sectors, old(where), k, fate)
                       + (if fate.Received? then [Attempt(image, sectors, old(where), k, fate, |fate.broken|, count)]
                          else [])
      ensures Brought(old(where), k, fate, old(received), count) && received == old(received) + Reads(fate)
      ensures old(opens) <= opens && AllAnswers([fate], old(opens), opens)
      ensures if result == 0 then
                Possible(Asked(), old(where), k, fate, count) && where == After(old(where), k, fate, count)
              else GivesUp(result)
    {
      hide FilledByAll, Broken, Sized, Data, Arrives, Tried, Connected, From, Brought, Got, Sound, AllAnswers, IsAnswer;
      NoAnswers(opens, opens);
      result, fate := 0, Exhausted([], []);
      NotTried(image, Asked(), where, k, count);
      NothingBrought(where, k, received, count);
      var retries := 0;
      while retries < RETRY_COUNT
        invariant retries == |fate.broken| <= RETRY_COUNT && result == 0 && fate.Exhausted?
        invariant Valid() && writePtr == old(writePtr) && submitted == old(submitted)
        invariant Tried(Asked(), old(where), k, fate, count)
        invariant calls == old(calls) + Broken(image, sectors, old(where), k, fate)
        invariant where == From(old(where), k, fate, retries)
        invariant Brought(old(where), k, fate, old(received), count) && received == old(received) + retries
        invariant old(opens) <= opens && AllAnswers([fate], old(opens), opens)
      {
        ghost var before, asked := fate, opens;
        ghost var got;
        result, got := ReadGame(count);
        TriedLengths(Asked(), old(where), k, before, count);
        if result == 0 {
          SameBroken(image, Asked(), old(where), k, fate, count);
          BroughtLast(old(where), k, fate, old(received), count);
          SameAnswers(fate, Received(fate.broken, fate.reopened), old(opens), opens);
          fate := Received(fate.broken, fate.reopened);
          return;
        }
        OneMoreBroken(image, sectors, old(where), k, before, got);
        BroughtOnceMore(old(where), k, before, old(received), count, got);
        fate := Exhausted(before.broken + [got], before.reopened);
        ghost var session;
        result, session := Recover(lsn);
        if result != 0 {
          SameAnswers(before, fate, old(opens), asked);
          AnswersStay([fate], old(opens), asked, opens);
          return;
        }
        OneMoreAnswer(before, fate.broken, old(opens), asked, session, opens);
        TriedOnceMore(image, Asked(), old(where), k, before, got, session, count);
        BroughtReopened(old(where), k, fate, old(received), count, session);
        fate := Exhausted(before.broken + [got], before.reopened + [session]);
        retries := retries + 1;
      }
    }

    lemma NothingBrought(w: Where, k: nat, n: nat, count: nat)
      ensures Brought(w, k, Exhausted([], []), n, count)
    {
    }

    lemma BroughtOnceMore(w: Where, k: nat, fate: Fate, n: nat, count: nat, got: nat)
      requires Brought(w, k, fate, n, count) && |fate.reopened| == |fate.broken| && fate.Exhausted?
      requires got == Got(From(w, k, fate, |fate.broken|), n + |fate.broken|, count)
      ensures Brought(w, k, Exhausted(fate.broken + [got], fate.reopened), n, count)
    {
      hide Got;
      var more := Exhausted(fate.broken + [got], fate.reopened);
      assert forall i :: From(w, k, more, i) == From(w, k, fate, i);
    }

    lemma BroughtReopened(w: Where, k: nat, fate: Fate, n: nat, count: nat, session: Session)
      requires Brought(w, k, fate, n, count) && |fate.reopened| + 1 == |fate.broken| && fate.Exhausted?
      ensures Brought(w, k, Exhausted(fate.broken, fate.reopened + [session]), n, count)
    {
      hide Got;
      var more := Exhausted(fate.broken, fate.reopened + [session]);
      assert forall i :: 0 <= i < |fate.broken| ==> From(w, k, more, i) == From(w, k, fate, i);
    }

    lemma BroughtLast(w: Where, k: nat, fate: Fate, n: nat, count: nat)
      requires Brought(w, k, fate, n, count) && Got(From(w, k, fate, |fate.broken|), n + |fate.broken|, count) == count
      ensures Brought(w, k, Received(fate.broken, fate.reopened), n, count)
    {
      hide Got;
      var received := Received(fate.broken, fate.reopened);
      assert forall i :: From(w, k, received, i) == From(w, k, fate, i);
    }

    /**
     RetrieveThread up to the closing of the file, on a connection just opened. Result 0 means that every block was got
     or given up on, and that the ring was called as the copying run says. Only the user or the console can prevent it.
     */
    method RetrieveThread() returns (result: int, ghost fates: seq<Fate>)
      requires Valid() && where == Where(0, first, 0) && calls == [] && received == 0
      modifies this
      ensures Valid() && Plausible(Asked(), fates) && AllBrought(fates) && AllAnswers(fates, old(opens), opens)
      ensures AllCalls(image, Asked(), fates) <= calls
      ensures result == 0 ==> Complete(Asked(), fates) && calls == AllCalls(image, Asked(), fates)
      ensures result != 0 ==>
        Lsn(|fates|) < sectors && if result == -EEXTABORT then world.aborts(|fates|) else GivesUp(result)
    {
      hide FilledByAll, Possible, Broken, Attempt, Sized, Plausible, Place, AllCalls, Connected, AllBrought, Brought,
           Reads, AllReads, GivesUp, AllAnswers;
      NoAnswers(opens, opens);
      result, fates := 0, [];
      NoBlocks(image, Asked());
      NothingAllBrought();
      var lsn := 0;
      while lsn < sectors
        invariant Valid() && result == 0 && lsn == Min(Lsn(|fates|), sectors) && Plausible(Asked(), fates)
        invariant where == Place(Asked(), fates)
        invariant calls == AllCalls(image, Asked(), fates)
        invariant AllBrought(fates) && received == AllReads(fates)
        invariant old(opens) <= opens && AllAnswers(fates, old(opens), opens)
        decreases sectors - lsn
      {
        ghost var k, asked := |fates|, opens;
        if world.aborts(lsn / IO_BUFFER_SIZE) {
          return -EEXTABORT, fates;
        }
        var sectorsToRead := if sectors - lsn > IO_BUFFER_SIZE then IO_BUFFER_SIZE else sectors - lsn;
        ghost var fate;
        result, fate := ReadBlock(lsn, 2048 * sectorsToRead, k);
        if result != 0 {
          GivesUpIsError(result);
          AnswersStay(fates, old(opens), asked, opens);
          return;
        }
        IOSignalWriteDone(sectorsToRead * 2048);
        BlockAdded(image, Asked(), fates, fate);
        BroughtMore(fates, fate);
        OneMoreBlock(fates, fate, old(opens), asked, opens);
        fates := fates + [fate];
        var error := IOGetStatus();
        if error {
          return -EIO, fates;
        }
        lsn := lsn + sectorsToRead;
      }
    }

    lemma NothingAllBrought()
      ensures AllBrought([]) && AllReads([]) == 0
    {
    }

    lemma GivesUpIsError(result: int)
      requires GivesUp(result)
      ensures result != 0 && result != -EEXTABORT
    {
    }
  }
}
