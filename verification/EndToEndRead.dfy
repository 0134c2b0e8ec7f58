/** A game read from the disk to the network: ReadGame and the I/O thread, in any interleaving, over the hdl: device. */
module EndToEndRead {
  import opened Common
  import opened ReadRing
  import opened ReadLive
  import opened HdlfsTable
  import opened HdlfsFlat
  import opened Hdlfs
  import EndToEnd

  /** The banks' memory is counted in an `int`. */
  lemma TransferFits(s: Ring)
    requires Inv(s) && s.t.pc.Transfer? && EndToEnd.Addressable(s.io.nbufs, s.io.bufmax)
    ensures 0 < 2048 * s.t.sectorsTotal < 0x8000_0000
    ensures !Overruns(s) ==> Enabled(s, TRead)
  {
    hide Queue, Held, Contents, Sizes, Sent, Control, WakeupsSuffice, AllButLastFull, Flatten, SumLengths;
    if !Overruns(s) {
      ReadPossible(s);
    }
    TransferIsNotEmpty(s);
    SumBound(Claimed(s), BankBytes(s));
    EndToEnd.ProductGrows(s.t.claimed, s.io.nbufs, BankBytes(s));
  }

  lemma {:induction false} SumBound(lengths: seq<nat>, size: nat)
    requires AllButLastFull(lengths, size)
    ensures SumLengths(lengths) <= |lengths| * size
  {
    if |lengths| > 0 {
      SumBound(lengths[1..], size);
      assert |lengths| * size == size + (|lengths| - 1) * size;
    }
  }

  /**
   The device stands where the next read of the ring is to start, or at the end of the game, which that read runs past.
   */
  predicate InStep(place: nat, length: nat, at: nat, s: Ring) {
    s.io.error || 512 * place == 2048 * at + Cursor(s) || (Overruns(s) && place == length)
  }

  lemma StartInStep(place: nat, length: nat, at: nat, s: Ring)
    requires place == 4 * at && s.h.read == [] && s.h.skipped == 0
    ensures InStep(place, length, at, s)
  {
  }

  /** Steps that do not read leave device and ring in step. */
  lemma StepKeepsCursor(place: nat, length: nat, at: nat, s: Ring, a: Action)
    requires InStep(place, length, at, s) && Enabled(s, a) && !Transfers(a)
    ensures InStep(place, length, at, Step(s, a))
  {
    hide Flatten, Cut, StoreAcross;
  }

  lemma ReadMovesCursor(s: Ring)
    requires Inv(s) && Enabled(s, TRead)
    ensures Cursor(Step(s, TRead)) == Cursor(s) + 2048 * s.t.sectorsTotal
  {
    hide Queue, Held, Sizes, Sent, Control, WakeupsSuffice, Flatten, Cut, StoreAcross, SumLengths, AllButLastFull;
    ReadPieces(s);
    FlattenConcat(s.h.read, Cut(Data(s), Claimed(s)));
    assert |Data(s)| == 2048 * s.t.sectorsTotal;
  }

  predicate Transfers(a: Action) {
    a.TRead? || a.TRetry? || a.TFail?
  }

  lemma TransferMeansNoError(s: Ring, a: Action)
    requires Inv(s) && Enabled(s, a) && Transfers(a)
    ensures s.t.pc.Transfer? && !s.io.error
  {
  }

  /** The file the ring reads is the game from CD sector `at` on. */
  ghost predicate Serves(game: seq<Byte>, at: nat, s: Ring) {
    2048 * at <= |game| && s.h.image == game[2048 * at..]
  }

  /** What io.c does about the answer to a transfer of that many bytes. */
  predicate IsOutcome(a: Action, answer: int, length: nat) {
    if answer == -EIO then a.TFail? else if answer == length then a.TRead? else a.TRetry?
  }

  /**
   One fileXioRead of the I/O thread, on the device: what it brings is what the ring's step puts in the banks. Only when
   the device's slice number comes round is it something else.
   */
  method TransferOnDisk(d: Descriptor, at: nat, s: Ring) returns (a: Action, answer: int, wrapped: bool)
    requires Inv(s) && EndToEnd.Addressable(s.io.nbufs, s.io.bufmax) && s.t.pc.Transfer? && !s.io.error
    requires d.Valid() && InStep(d.Place(), d.Length(), at, s) && Serves(d.Game(), at, s)
    modifies d, d.drive`transfers
    ensures d.Valid() && d.Game() == old(d.Game()) && Transfers(a)
    ensures !wrapped ==> Allowed(s, a) && InStep(d.Place(), d.Length(), at, Step(s, a))
    ensures wrapped ==> old(d.currentPartNum) == LAST_PART_NUM
    ensures !wrapped ==> d.Pushes() <= old(d.Pushes()) + (if a.TRetry? then 1 else 0)
    ensures IsOutcome(a, answer, 2048 * s.t.sectorsTotal) && old(d.drive.transfers) <= d.drive.transfers
    ensures answer == -EIO <==> SomeIn(d.drive.fails, old(d.drive.transfers), d.drive.transfers)
  {
    hide Inv, Flat, Table, Flatten, Cut, StoreAcross, InStep, Allowed, Step, Serves, Cursor, Overruns, Enabled, Data,
         SomeIn;
    TransferFits(s);
    InBlocks(s.t.sectorsTotal);
    ghost var from := d.Place();
    var data;
    answer, data, wrapped := d.Read(2048 * s.t.sectorsTotal);
    d.PlaceInGame();
    var moved := 512 * d.Place() - 2048 * at - Cursor(s);
    a := if answer >= 0 then TRead else if answer == -EIO then TFail(if moved >= 0 then moved else 0) else TRetry;
    if !wrapped {
      FlatLength(d.drive.disk, d.partSpecs, d.drive.parts);
      if answer >= 0 {
        DataComesIn(d.Game(), at, s, from, d.Place(), data);
      } else {
        NothingComesIn(d.Game(), at, s, from, d.Place(), a);
      }
    }
  }

  /** CD sectors in bytes and in HDD sectors. */
  lemma InBlocks(n: nat)
    ensures 2048 * n % 512 == 0 && 2048 * n / 512 == 4 * n
  {
  }

  /** A transfer that is made brings what the ring takes it to bring. */
  lemma DataComesIn(game: seq<Byte>, at: nat, s: Ring, place1: nat, place2: nat, data: seq<Byte>)
    requires Inv(s) && s.t.pc.Transfer? && !s.io.error && Serves(game, at, s)
    requires InStep(place1, |game| / 512, at, s) && |game| % 512 == 0
    requires place1 <= place2 && 512 * place2 <= |game| && 512 * (place2 - place1) == 2048 * s.t.sectorsTotal > 0
    requires data == game[512 * place1..512 * place2]
    ensures Allowed(s, TRead) && data == Data(s) && InStep(place2, |game| / 512, at, Step(s, TRead))
  {
    hide Inv, Flatten, Cut, StoreAcross;
    if !Overruns(s) {
      InvMeansCore(s);
      ReadPossible(s);
    }
    ReadMovesCursor(s);
    Subslice(game, 2048 * at, |game|, Cursor(s), 2048 * s.t.sectorsTotal);
  }

  /** One that fails leaves device and ring in step, wherever it got to. */
  lemma NothingComesIn(game: seq<Byte>, at: nat, s: Ring, place1: nat, place2: nat, a: Action)
    requires Inv(s) && s.t.pc.Transfer? && !s.io.error && Serves(game, at, s)
    requires InStep(place1, |game| / 512, at, s) && |game| % 512 == 0
    requires place1 <= place2 && 512 * place2 <= |game| && 512 * (place2 - place1) <= 2048 * s.t.sectorsTotal
    requires a.TRetry? || (a.TFail? && a.moved == 512 * place2 - 2048 * at - Cursor(s))
             || (a.TFail? && a.moved == 0 && 512 * place2 - 2048 * at - Cursor(s) < 0)
    requires a.TRetry? ==> 512 * place2 == |game| && 512 * (place2 - place1) < 2048 * s.t.sectorsTotal
    requires a.TFail? ==> 512 * (place2 - place1) < 2048 * s.t.sectorsTotal
    ensures Allowed(s, a) && InStep(place2, |game| / 512, at, Step(s, a))
  {
    hide Inv, Flatten, Cut, StoreAcross;
    InvMeansCore(s);
    CursorInFile(s);
  }

  method Act(d: Descriptor, at: nat, s: Ring, wanted: Action)
    returns (a: Action, answer: int, s': Ring, wrapped: bool)
    requires Inv(s) && EndToEnd.Addressable(s.io.nbufs, s.io.bufmax) && Enabled(s, wanted)
    requires d.Valid() && InStep(d.Place(), d.Length(), at, s) && Serves(d.Game(), at, s)
    modifies d, d.drive`transfers
    ensures d.Valid() && d.Game() == old(d.Game())
    ensures if wrapped then s' == s && old(d.currentPartNum) == LAST_PART_NUM
            else Allowed(s, a) && s' == Step(s, a) && InStep(d.Place(), d.Length(), at, s')
                 && d.Pushes() <= old(d.Pushes()) + (if a.TRetry? then 1 else 0)
    ensures Inv(s') && Settings(s') == Settings(s)
    ensures if Transfers(wanted) then IsOutcome(a, answer, 2048 * s.t.sectorsTotal)
            else a == wanted && !wrapped && d.drive.transfers == old(d.drive.transfers)
    ensures old(d.drive.transfers) <= d.drive.transfers
    ensures a.TFail? <==> SomeIn(d.drive.fails, old(d.drive.transfers), d.drive.transfers)
  {
    hide Inv, Flat, Table, Step, InStep, Overruns, Serves, SomeIn;
    SomeInNone(d.drive.fails, d.drive.transfers);
    a, answer, s', wrapped := wanted, 0, s, false;
    if Transfers(a) {
      TransferMeansNoError(s, a);
      a, answer, wrapped := TransferOnDisk(d, at, s);
      if wrapped {
        return;
      }
    } else {
      StepKeepsCursor(d.Place(), d.Length(), at, s, a);
    }
    StepInv(s, a);
    SettingsStay(s, a);
    s' := Step(s, a);
  }

  /** `run` takes every step that `schedule` asks for and that is possible then, a transfer as it turns out. */
  predicate Follows(s: Ring, schedule: seq<Action>, run: seq<Action>)
    decreases |schedule|
  {
    if |schedule| == 0 then run == []
    else if !Enabled(s, schedule[0]) then Follows(s, schedule[1..], run)
    else
      && |run| > 0 && TurnsOut(schedule[0], run[0]) && Enabled(s, run[0])
      && Follows(Step(s, run[0]), schedule[1..], run[1..])
  }

  predicate TurnsOut(wanted: Action, a: Action) {
    if Transfers(wanted) then Transfers(a) else a == wanted
  }

  lemma {:induction false} FollowsSkip(s: Ring, schedule: seq<Action>, run: seq<Action>, wanted: Action)
    requires Follows(s, schedule, run) && Run(s, run).Reached? && !Enabled(Run(s, run).s, wanted)
    ensures Follows(s, schedule + [wanted], run)
    decreases |schedule|
  {
    hide Step, Enabled, TurnsOut;
    if |schedule| == 0 {
      assert schedule + [wanted] == [wanted] && [wanted][1..] == [];
    } else {
      assert (schedule + [wanted])[1..] == schedule[1..] + [wanted];
      if Enabled(s, schedule[0]) {
        FollowsSkip(Step(s, run[0]), schedule[1..], run[1..], wanted);
      } else {
        FollowsSkip(s, schedule[1..], run, wanted);
      }
    }
  }

  lemma {:induction false} FollowsStep(s: Ring, schedule: seq<Action>, run: seq<Action>, wanted: Action, a: Action)
    requires Follows(s, schedule, run) && Run(s, run).Reached? && TurnsOut(wanted, a)
    requires Enabled(Run(s, run).s, wanted) && Enabled(Run(s, run).s, a)
    ensures Follows(s, schedule + [wanted], run + [a])
    decreases |schedule|
  {
    hide Step, Enabled, TurnsOut;
    if |schedule| == 0 {
      assert schedule + [wanted] == [wanted] && [wanted][1..] == [] && run + [a] == [a] && [a][1..] == [];
    } else {
      assert (schedule + [wanted])[1..] == schedule[1..] + [wanted];
      if Enabled(s, schedule[0]) {
        FollowsStep(Step(s, run[0]), schedule[1..], run[1..], wanted, a);
        assert (run + [a])[1..] == run[1..] + [a];
      } else {
        FollowsStep(s, schedule[1..], run, wanted, a);
      }
    }
  }

  lemma ActTurnsOut(wanted: Action, a: Action, answer: int, s: Ring)
    requires Transfers(wanted) ==> IsOutcome(a, answer, 2048 * s.t.sectorsTotal)
    requires !Transfers(wanted) ==> a == wanted
    ensures TurnsOut(wanted, a)
  {
  }

  lemma NothingFailsSoFar(run: seq<Action>, a: Action)
    ensures NothingFails(run + [a]) <==> NothingFails(run) && !a.TFail?
  {
    assert (run + [a])[|run|] == a;
    if NothingFails(run + [a]) {
      forall i | 0 <= i < |run| ensures !run[i].TFail? {
        assert (run + [a])[i] == run[i];
      }
    }
  }

  /**
   A game read from the opening of the game on, in the order `schedule` tells the threads to move. What has been sent
   is at every moment a first part of the game from the sector asked for on, and all that was asked for when the read
   ends well, unless a failed transfer has passed over something. That it can end well, as long as its connection stands
   and its last transfer has not failed, holds if and only if the request, and what was skipped, lies in the game.
   `wrapped` ends the run: a transfer was repeated so often that the device's slice number has come round. Until then
   every step asked for is made if it is possible, and a transfer fails exactly when the drive does.
   */
  method Retrieve(d: Descriptor, at: nat, sectors: nat, nbufs: nat, bufmax: nat, banks: seq<seq<Byte>>,
                  lengths: seq<nat>,
                  schedule: seq<Action>) returns (ok: bool, s: Ring, wrapped: bool, ghost run: seq<Action>)
    requires d.Valid() && d.Place() == d.Pushes() == 0 && at < U32_RANGE
    requires InitOk(nbufs, bufmax, banks, lengths) && EndToEnd.Addressable(nbufs, bufmax)
    modifies d, d.drive`transfers
    ensures d.Valid() && d.Game() == old(d.Game()) && |d.Game()| == 2048 * Sectors(d.partSpecs, d.drive.parts)
    ensures ok <==> at == 0 || at < Sectors(d.partSpecs, d.drive.parts) || at == EndToEnd.MISTAKEN
    ensures ok ==> 2048 * EndToEnd.Start(at) <= |d.Game()|
    ensures ok ==>
      var start := Init(nbufs, bufmax, banks, lengths, sectors, d.Game()[2048 * EndToEnd.Start(at)..]);
      Run(start, run) == Reached(s) && Served(start, run)
    ensures ok ==> |s.h.output| <= 2048 * sectors && (NothingFails(run) ==> s.h.skipped == 0)
    ensures ok ==> Shifted(s.h.output, d.Game()[2048 * EndToEnd.Start(at)..], s.h.shifts)
    ensures ok && s.h.skipped == 0 ==> s.h.output <= d.Game()[2048 * EndToEnd.Start(at)..]
    ensures ok && Ending(s) && s.c.result == 0 ==>
      && |s.h.output| == 2048 * sectors && 2048 * (EndToEnd.Start(at) + sectors) + s.h.skipped <= |d.Game()|
      && (s.h.skipped == 0 ==> s.h.output == d.Game()[2048 * EndToEnd.Start(at)..2048 * (EndToEnd.Start(at) + sectors)])
    ensures ok && s.c.result == 0 && !s.io.error && !s.t.failed ==>
      ((exists more :: EndsWell(s, more)) <==> 2048 * (EndToEnd.Start(at) + sectors) + s.h.skipped <= |d.Game()|)
    ensures ok && wrapped ==> multiset(run)[TRetry] > LAST_PART_NUM - |d.drive.parts|
    ensures ok && 2048 * (EndToEnd.Start(at) + sectors) + s.h.skipped <= |d.Game()| ==>
      && !wrapped && TRetry !in run
      && |run| <= 2112 * sectors + 25 + s.h.lost * (12 * sectors + 10) && (NothingFails(run) ==> s.h.lost == 0)
    ensures ok && !wrapped ==>
      && Follows(Init(nbufs, bufmax, banks, lengths, sectors, d.Game()[2048 * EndToEnd.Start(at)..]), schedule, run)
      && (NothingFails(run) <==> !SomeIn(d.drive.fails, old(d.drive.transfers), d.drive.transfers))
  {
    hide SomeIn, Follows, TurnsOut, Transfers, IsOutcome, NothingFails, Inv, Flat, Table, Step, Enabled, InStep,
         EndToEnd.Addressable, Served, EndsWell, Overruns,
         Shifted, Growing;
    FlatLength(d.drive.disk, d.partSpecs, d.drive.parts);
    EndToEnd.TableIsLong(d);
    d.PartsAreFew();
    wrapped, run := false, [];
    ok := EndToEnd.OpenAt(d, at);
    var first := EndToEnd.Start(at);
    var game := Flat(d.drive.disk, d.partSpecs, d.drive.parts);
    if !ok {
      s := Init(nbufs, bufmax, banks, lengths, sectors, []);
      return;
    }
    d.PlaceInGame();
    var start := Init(nbufs, bufmax, banks, lengths, sectors, game[2048 * first..]);
    s := start;
    InitInv(nbufs, bufmax, banks, lengths, sectors, game[2048 * first..]);
    StartInStep(d.Place(), d.Length(), first, s);
    NothingServed(start);
    SomeInNone(d.drive.fails, d.drive.transfers);
    var i := 0;
    while i < |schedule| && !wrapped
      invariant 0 <= i <= |schedule|
      invariant d.Valid() && d.Game() == old(d.Game()) && Inv(s) && Settings(s) == Settings(start)
      invariant Run(start, run) == Reached(s) && Served(start, run)
      invariant if wrapped then multiset(run)[TRetry] > LAST_PART_NUM - |d.drive.parts|
                else InStep(d.Place(), d.Length(), first, s) && d.Pushes() <= multiset(run)[TRetry]
      invariant old(d.drive.transfers) <= d.drive.transfers
      invariant !wrapped ==> Follows(start, schedule[..i], run)
      invariant !wrapped ==>
        (NothingFails(run) <==> !SomeIn(d.drive.fails, old(d.drive.transfers), d.drive.transfers))
    {
      assert schedule[..i + 1] == schedule[..i] + [schedule[i]];
      if Enabled(s, schedule[i]) {
        var a, answer;
        ghost var before, tried := s, d.drive.transfers;
        a, answer, s, wrapped := Act(d, first, s, schedule[i]);
        if !wrapped {
          RunSnoc(start, run, a);
          ServedSnoc(start, run, a);
          SomeInSplits(d.drive.fails, old(d.drive.transfers), tried, d.drive.transfers);
          NothingFailsSoFar(run, a);
          ActTurnsOut(schedule[i], a, answer, before);
          FollowsStep(start, schedule[..i], run, schedule[i], a);
          run := run + [a];
        }
      } else {
        FollowsSkip(start, schedule[..i], run, schedule[i]);
      }
      i := i + 1;
    }
    assert schedule[..i] == schedule || wrapped;
    SentOfImage(s);
    WhatRunTells(nbufs, bufmax, banks, lengths, sectors, game[2048 * first..], run, s);
    assert 2048 * sectors <= |game| - 2048 * first ==>
      game[2048 * first..][..2048 * sectors] == game[2048 * first..2048 * (first + sectors)];
  }

  /** What the run so far tells of its end. */
  lemma WhatRunTells(nbufs: nat, bufmax: nat, banks: seq<seq<Byte>>, lengths: seq<nat>, sectors: nat, image: seq<Byte>,
               run: seq<Action>, t: Ring)
    requires InitOk(nbufs, bufmax, banks, lengths)
    requires Run(Init(nbufs, bufmax, banks, lengths, sectors, image), run) == Reached(t)
    requires Served(Init(nbufs, bufmax, banks, lengths, sectors, image), run)
    ensures t.c.result == 0 && !t.io.error && !t.t.failed ==>
      ((exists more :: EndsWell(t, more)) <==> 2048 * sectors + t.h.skipped <= |image|)
    ensures 2048 * sectors + t.h.skipped <= |image| ==>
      TRetry !in run && |run| <= 2112 * sectors + 25 + t.h.lost * (12 * sectors + 10)
    ensures NothingFails(run) ==> t.h.skipped == t.h.lost == 0
  {
    hide Inv, EndsWell, Run, Served, NothingFails;
    SkippedByFailures(Init(nbufs, bufmax, banks, lengths, sectors, image), run);
    EveryRunEnds(nbufs, bufmax, banks, lengths, sectors, image, run, t);
    if t.c.result == 0 && !t.io.error && !t.t.failed {
      CanEndWellIff(nbufs, bufmax, banks, lengths, sectors, image, run, t);
    }
  }

  lemma NothingServed(s: Ring)
    ensures Run(s, []) == Reached(s) && Served(s, []) && Follows(s, [], []) && NothingFails([])
  {
  }
}
