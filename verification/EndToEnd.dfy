/**
 A game write from the network to the disk: WriteGame and the I/O thread of io.c, in any interleaving, over the
 hdl: device of hdlfs/main.c.
 */
module EndToEnd {
  import opened Common
  import opened WriteRing
  import opened WriteLive
  import opened HdlfsTable
  import opened HdlfsFlat
  import opened Hdlfs

  // ---------------------------------------------------------------- blocks are whole sectors

  /** The blocks submitted are whole sectors. */
  predicate Whole(s: Ring) {
    forall i :: 0 <= i < |s.h.submitted| ==> |s.h.submitted[i]| % 2048 == 0
  }

  lemma WholeStep(s: Ring, a: Action)
    requires Inv(s) && Whole(s) && Enabled(s, a)
    ensures Whole(Step(s, a))
  {
    hide Queue, Tokens, Control, WakeupsSuffice, Contents, Flatten;
  }

  lemma {:induction false} WholeLength(blocks: seq<seq<Byte>>)
    requires forall i :: 0 <= i < |blocks| ==> |blocks[i]| % 2048 == 0
    ensures |Flatten(blocks)| % 2048 == 0
  {
    if |blocks| > 0 {
      WholeLength(blocks[1..]);
      var a, b := |blocks[0]|, |Flatten(blocks[1..])|;
      assert |Flatten(blocks)| == 2048 * (a / 2048 + b / 2048);
    }
  }

  lemma {:induction false} BanksLength(banks: seq<seq<Byte>>, size: nat)
    requires forall k :: 0 <= k < |banks| ==> |banks[k]| == size
    ensures |Flatten(banks)| == |banks| * size
  {
    if |banks| > 0 {
      BanksLength(banks[1..], size);
      assert |banks| * size == size + (|banks| - 1) * size;
    }
  }

  /** The memory of the banks, as io.c allocates it, is counted in an `int`. */
  predicate Addressable(nbufs: nat, bufmax: nat) {
    nbufs * (2048 * bufmax) < 0x8000_0000
  }

  /** What the pending transfer carries. */
  function Payload(s: Ring): seq<Byte>
    requires Enabled(s, TWrite)
  {
    Flatten(s.io.banks[s.io.readPtr..])[..s.t.toWrite]
  }

  /** It is the bytes received that follow those in the file. */
  lemma PayloadIsNext(s: Ring)
    requires Inv(s) && Whole(s) && Addressable(s.io.nbufs, s.io.bufmax) && s.t.pc.Transfer?
    ensures Enabled(s, TWrite)
    ensures 0 < |Payload(s)| == s.t.toWrite < 0x8000_0000 && s.t.toWrite % 512 == 0
    ensures |File(s)| + s.t.toWrite <= |s.h.received| && |File(s)| + s.t.toWrite <= 2048 * s.h.sectors
    ensures Payload(s) == s.h.received[|File(s)|..|File(s)| + s.t.toWrite]
  {
    hide Queue, Control, WakeupsSuffice, Flatten, Addressable;
    MergedTransfer(s);
    var done, end := s.h.done, s.h.done + s.t.claimed;
    var blocks := s.h.submitted[done..end];
    PayloadSize(s, blocks);
    assert s.h.submitted == s.h.submitted[..done] + (blocks + s.h.submitted[end..]);
    FlattenConcat(s.h.submitted[..done], blocks + s.h.submitted[end..]);
    FlattenConcat(blocks, s.h.submitted[end..]);
    MiddleOf(File(s), Flatten(blocks), Flatten(s.h.submitted[end..]), s.h.received);
  }

  lemma MiddleOf(a: seq<Byte>, b: seq<Byte>, c: seq<Byte>, whole: seq<Byte>)
    requires a + (b + c) <= whole
    ensures |a| + |b| <= |whole| && whole[|a|..|a| + |b|] == b
  {
    assert whole[..|a + (b + c)|][|a|..|a| + |b|] == b;
  }

  lemma BanksFit(banks: seq<seq<Byte>>, nbufs: nat, bufmax: nat)
    requires Addressable(nbufs, bufmax) && |banks| <= nbufs
    requires forall k :: 0 <= k < |banks| ==> |banks[k]| == 2048 * bufmax
    ensures |Flatten(banks)| < 0x8000_0000
  {
    hide Flatten;
    BanksLength(banks, 2048 * bufmax);
    ProductGrows(|banks|, nbufs, 2048 * bufmax);
  }

  lemma ProductGrows(n: nat, m: nat, size: nat)
    requires n <= m
    ensures n * size <= m * size
  {
    assert m * size == n * size + (m - n) * size;
  }

  lemma FirstCounts(blocks: seq<seq<Byte>>)
    requires |blocks| > 0 && |blocks[0]| > 0
    ensures |Flatten(blocks)| > 0
  {
  }

  lemma PayloadSize(s: Ring, blocks: seq<seq<Byte>>)
    requires Shape(s) && Sizes(s) && Whole(s) && Addressable(s.io.nbufs, s.io.bufmax)
    requires s.h.done + s.t.claimed <= |s.h.submitted| && blocks == s.h.submitted[s.h.done..s.h.done + s.t.claimed]
    requires 0 < s.t.claimed && |Flatten(blocks)| <= |Flatten(s.io.banks[s.io.readPtr..])|
    ensures 0 < |Flatten(blocks)| < 0x8000_0000 && |Flatten(blocks)| % 512 == 0
  {
    hide Flatten, Addressable;
    BanksFit(s.io.banks[s.io.readPtr..], s.io.nbufs, s.io.bufmax);
    assert blocks[0] == s.h.submitted[s.h.done];
    FirstCounts(blocks);
    WholeLength(blocks);
  }

  // ---------------------------------------------------------------- the disk during a run

  lemma StoredMore(disk0: seq<Byte>, disk: seq<Byte>, specs: seq<PartSpec>, parts: seq<Part>,
                   at: nat, data: seq<Byte>, data': seq<Byte>, done: nat)
    requires Stored(disk0, disk, specs, parts, at, data, done) && data <= data'
    ensures Stored(disk0, disk, specs, parts, at, data', done)
  {
    hide Flat, Table;
    assert data'[..done] == data[..done];
  }

  /** Two stores one after the other, the second where the first ended. */
  lemma StoredTwice(disk0: seq<Byte>, disk1: seq<Byte>, disk2: seq<Byte>, specs: seq<PartSpec>, parts: seq<Part>,
                    at: nat, whole: seq<Byte>, n: nat, data: seq<Byte>, m: nat)
    requires Stored(disk0, disk1, specs, parts, at, whole, n) && Stored(disk1, disk2, specs, parts, at + n, data, m)
    requires n + m <= |whole| && whole[n..n + m] == data[..m]
    ensures Stored(disk0, disk2, specs, parts, at, whole, n + m)
  {
    hide Flat, Table;
    PatchPatch(Flat(disk0, specs, parts), at, whole[..n], data[..m]);
    assert whole[..n + m] == whole[..n] + data[..m];
  }

  /** Bytes between CD sector `at` of the game and the device's cursor. */
  function Advanced(at: nat, place: nat): int {
    512 * place - 2048 * at
  }

  /** The pending transfer has met the end of the game. */
  predicate AtEnd(specs: seq<PartSpec>, parts: seq<Part>, at: nat, place: nat, s: Ring)
    requires 0 < |parts| <= |specs|
  {
    s.t.pc.Transfer? && place == 4 * Sectors(specs, parts) && Advanced(at, place) < |File(s)| + s.t.toWrite
  }

  /**
   From CD sector `at` on the game holds the first `n` bytes received, those up to the cursor; nothing else on the disk
   changed.
   */
  ghost predicate Carried(disk0: seq<Byte>, disk: seq<Byte>, specs: seq<PartSpec>, parts: seq<Part>,
                          at: nat, place: nat, n: nat, s: Ring)
  {
    && Stored(disk0, disk, specs, parts, 2048 * at, s.h.received, n)
    && 0 < |parts| <= |specs| && place <= 4 * Sectors(specs, parts)
    && (!s.io.error ==> n == Advanced(at, place) && (n == |File(s)| || AtEnd(specs, parts, at, place, s)))
  }

  /** No byte outside the slices of the game has changed. */
  ghost predicate Untouched(disk0: seq<Byte>, disk: seq<Byte>, specs: seq<PartSpec>, parts: seq<Part>) {
    && Table(specs, parts, |disk0|) && |disk| == |disk0|
    && forall b :: 0 <= b < |disk| && !InSomeSlice(specs, parts, b) ==> disk[b] == disk0[b]
  }

  lemma StoredMeansUntouched(disk0: seq<Byte>, disk1: seq<Byte>, disk2: seq<Byte>, specs: seq<PartSpec>,
                             parts: seq<Part>,
                             at: nat, data: seq<Byte>, n: nat)
    requires Untouched(disk0, disk1, specs, parts) && Stored(disk1, disk2, specs, parts, at, data, n)
    ensures Untouched(disk0, disk2, specs, parts)
  {
    hide Flat, Table, InSomeSlice;
  }

  predicate Transfers(a: Action) {
    a.TWrite? || a.TRetry? || a.TFail?
  }

  /** Bytes from CD sector `at` to the end of the game. */
  function Room(specs: seq<PartSpec>, parts: seq<Part>, at: nat): nat
    requires 0 < |parts| <= |specs|
  {
    if at <= Sectors(specs, parts) then 2048 * (Sectors(specs, parts) - at) else 0
  }

  /** Steps that do not touch the disk leave it in step with the ring. */
  lemma CarriedStep(disk0: seq<Byte>, disk: seq<Byte>, specs: seq<PartSpec>, parts: seq<Part>,
                    at: nat, place: nat, n: nat, s: Ring, a: Action)
    requires Carried(disk0, disk, specs, parts, at, place, n, s) && Enabled(s, a) && !Transfers(a)
    ensures Carried(disk0, disk, specs, parts, at, place, n, Step(s, a))
  {
    hide Stored, Sectors, Flatten;
    var t := Step(s, a);
    assert File(t) == File(s) && s.h.received <= t.h.received && t.io.error == s.io.error;
    StoredMore(disk0, disk, specs, parts, 2048 * at, s.h.received, t.h.received, n);
  }

  lemma FileGrows(s: Ring)
    requires Enabled(s, TWrite)
    ensures |File(Step(s, TWrite))| == |File(s)| + s.t.toWrite
  {
    FlattenSnoc(s.h.writes, Payload(s));
  }

  /** What the disk holds once a transfer has stored the first `k` bytes of what it carries. */
  lemma CarriedWrite(disk0: seq<Byte>, disk1: seq<Byte>, disk2: seq<Byte>, specs: seq<PartSpec>, parts: seq<Part>,
                     at: nat, place1: nat, place2: nat, n: nat, k: nat, s: Ring, a: Action)
    requires Inv(s) && Whole(s) && Addressable(s.io.nbufs, s.io.bufmax)
    requires s.t.pc.Transfer? && Transfers(a) && !s.io.error
    requires Enabled(s, TWrite) && Enabled(s, a)
    requires Carried(disk0, disk1, specs, parts, at, place1, n, s)
    requires place1 <= place2 <= 4 * Sectors(specs, parts) && 512 * place1 + k <= 2048 * Sectors(specs, parts)
    requires Stored(disk1, disk2, specs, parts, 512 * place1, Payload(s), k)
    requires !a.TFail? ==> k == 512 * (place2 - place1)
    requires a.TWrite? ==> k == s.t.toWrite
    requires a.TRetry? ==> place2 == 4 * Sectors(specs, parts) && k < s.t.toWrite
    ensures Carried(disk0, disk2, specs, parts, at, place2, n + k, Step(s, a))
    ensures Allowed(s, a, Room(specs, parts, at))
  {
    hide Inv, Sectors, Flatten, Flat, Table, Whole, Addressable;
    PayloadIsNext(s);
    FileGrows(s);
    if k > 0 {
      PieceOf(s.h.received, |File(s)|, Payload(s), k);
    } else {
      assert s.h.received[n..n + k] == Payload(s)[..k];
    }
    StoredTwice(disk0, disk1, disk2, specs, parts, 2048 * at, s.h.received, n, Payload(s), k);
  }

  lemma PieceOf(whole: seq<Byte>, n: nat, piece: seq<Byte>, m: nat)
    requires n + |piece| <= |whole| && m <= |piece| && whole[n..n + |piece|] == piece
    ensures whole[n..n + m] == piece[..m]
  {
  }

  /** What io.c does about the answer to a transfer of that many bytes. */
  function Outcome(answer: int, length: nat): Action {
    if answer == -EIO then TFail else if answer == length then TWrite else TRetry
  }

  /**
   One fileXioWrite of the I/O thread, on the device; the answer decides what the thread does next. The transfer is
   made only if it fits, unless the device's slice number comes round.
   */
  method TransferOnDisk(d: Descriptor, ghost disk0: seq<Byte>, at: nat, s: Ring, ghost n: nat)
    returns (a: Action, answer: int, ghost wrapped: bool, ghost n': nat)
    requires Inv(s) && Whole(s) && Addressable(s.io.nbufs, s.io.bufmax) && s.t.pc.Transfer? && !s.io.error
    requires d.Valid() && Untouched(disk0, d.drive.disk, d.partSpecs, d.drive.parts)
    modifies d, d.drive
    ensures d.Valid() && Transfers(a) && Enabled(s, a) && Untouched(disk0, d.drive.disk, d.partSpecs, d.drive.parts)
    ensures old(Carried(disk0, d.drive.disk, d.partSpecs, d.drive.parts, at, d.Place(), n, s)) && !wrapped ==>
      Carried(disk0, d.drive.disk, d.partSpecs, d.drive.parts, at, d.Place(), n', Step(s, a))
      && Allowed(s, a, Room(d.partSpecs, d.drive.parts, at))
    ensures wrapped ==> old(d.currentPartNum) == LAST_PART_NUM
    ensures d.Pushes() <= (if wrapped then 0 else old(d.Pushes())) + (if a.TRetry? then 1 else 0)
    ensures Enabled(s, TWrite) && a == Outcome(answer, |Payload(s)|) && old(d.drive.transfers) <= d.drive.transfers
    ensures answer == -EIO <==> SomeIn(d.drive.fails, old(d.drive.transfers), d.drive.transfers)
  {
    hide Inv, Flat, Table, Whole, Addressable, Carried, Stored, Step, SomeIn;
    PayloadIsNext(s);
    ghost var disk1, place1, stored := d.drive.disk, d.Place(), 0;
    ghost var carried := Carried(disk0, disk1, d.partSpecs, d.drive.parts, at, place1, n, s);
    answer, wrapped, stored := d.Write(Payload(s));
    a := if answer >= 0 then TWrite else if answer == -EIO then TFail else TRetry;
    n' := n + 512 * stored;
    StoredMeansUntouched(disk0, disk1, d.drive.disk, d.partSpecs, d.drive.parts,
                         512 * (if wrapped then 0 else place1), Payload(s), 512 * stored);
    if carried && !wrapped {
      StoredInGame(disk1, d.drive.disk, d.partSpecs, d.drive.parts, 512 * place1, Payload(s), 512 * stored);
      CarriedWrite(disk0, disk1, d.drive.disk, d.partSpecs, d.drive.parts, at, place1, d.Place(), n, 512 * stored, s,
                   a);
    }
  }

  lemma StoredInGame(disk0: seq<Byte>, disk: seq<Byte>, specs: seq<PartSpec>, parts: seq<Part>, at: nat,
                     data: seq<Byte>, k: nat)
    requires Stored(disk0, disk, specs, parts, at, data, k)
    ensures 0 < |parts| <= |specs| && at + k <= 2048 * Sectors(specs, parts) && k <= |data|
  {
    FlatLength(disk0, specs, parts);
  }

  /**
   MountOpenGame's seek, on a game just opened. The position asked for comes back as a signed int; when that int
   happens to be the error number the refused seek passes for a good one.
   */
  method OpenAt(d: Descriptor, at: nat) returns (ok: bool)
    requires d.Valid() && d.Place() == d.Pushes() == 0 && at < U32_RANGE
    modifies d
    ensures d.Valid() && (ok <==> at == 0 || at < Sectors(d.partSpecs, d.drive.parts) || at == MISTAKEN)
    ensures ok ==> d.Place() == 4 * Start(at) && d.Pushes() == 0
  {
    ok := true;
    SectorsBound(d.partSpecs, d.drive.parts, |d.drive.disk|);
    if at != 0 {
      var result := d.LseekSet(S32(at));
      ok := result == S32(at);
    }
  }

  /** The one offset that reads as -EINVAL. */
  const MISTAKEN := U32_RANGE - EINVAL

  /** Where the writing starts, in CD sectors of the game. */
  function Start(at: nat): nat {
    if at == MISTAKEN then 0 else at
  }

  /** An action as it really turns out: a transfer asks the device, every other step is that of the ring. */
  method Act(d: Descriptor, ghost disk0: seq<Byte>, at: nat, s: Ring, wanted: Action, ghost n: nat)
    returns (a: Action, answer: int, s': Ring, ghost wrapped: bool, ghost n': nat)
    requires Inv(s) && Whole(s) && Addressable(s.io.nbufs, s.io.bufmax) && Enabled(s, wanted)
    requires d.Valid() && Untouched(disk0, d.drive.disk, d.partSpecs, d.drive.parts)
    modifies d, d.drive
    ensures d.Valid() && Untouched(disk0, d.drive.disk, d.partSpecs, d.drive.parts)
    ensures Enabled(s, a) && s' == Step(s, a) && Inv(s') && Whole(s') && Settings(s') == Settings(s)
    ensures old(Carried(disk0, d.drive.disk, d.partSpecs, d.drive.parts, at, d.Place(), n, s)) && !wrapped ==>
      Carried(disk0, d.drive.disk, d.partSpecs, d.drive.parts, at, d.Place(), n', s')
      && Allowed(s, a, Room(d.partSpecs, d.drive.parts, at))
    ensures wrapped ==> old(d.currentPartNum) == LAST_PART_NUM
    ensures d.Pushes() <= (if wrapped then 0 else old(d.Pushes())) + (if a.TRetry? then 1 else 0)
    ensures Transfers(wanted) ==> Enabled(s, TWrite) && a == Outcome(answer, |Payload(s)|)
    ensures !Transfers(wanted) ==> a == wanted && d.drive.transfers == old(d.drive.transfers)
    ensures old(d.drive.transfers) <= d.drive.transfers
    ensures a.TFail? <==> SomeIn(d.drive.fails, old(d.drive.transfers), d.drive.transfers)
  {
    hide Inv, Flat, Table, Whole, Addressable, Carried, Stored, Step, Untouched, SomeIn;
    SomeInNone(d.drive.fails, d.drive.transfers);
    a, answer, wrapped, n' := wanted, 0, false, n;
    if Transfers(a) {
      TransferMeansNoError(s, a);
      a, answer, wrapped, n' := TransferOnDisk(d, disk0, at, s, n);
    } else if Carried(disk0, d.drive.disk, d.partSpecs, d.drive.parts, at, d.Place(), n, s) {
      CarriedStep(disk0, d.drive.disk, d.partSpecs, d.drive.parts, at, d.Place(), n, s, a);
    }
    StepInv(s, a);
    WholeStep(s, a);
    SettingsStay(s, a);
    s' := Step(s, a);
  }

  lemma TransferMeansNoError(s: Ring, a: Action)
    requires Inv(s) && Enabled(s, a) && Transfers(a)
    ensures s.t.pc.Transfer? && !s.io.error
  {
  }

  /** `run` takes every step that `schedule` asks for and that is possible then, a transfer as it turns out. */
  predicate Follows(s: Ring, schedule: seq<Action>, run: seq<Action>)
    decreases |schedule|
  {
    if |schedule| == 0 then run == []
    else if !Enabled(s, schedule[0]) then Follows(s, schedule[1..], run)
    else
      && |run| > 0 && TurnsOut(schedule[0], run[0]) && Enabled(s, run[0])
      && Follows(Step(s, run[0]), schedule[1..], run[1..])
  }

  predicate TurnsOut(wanted: Action, a: Action) {
    if Transfers(wanted) then Transfers(a) else a == wanted
  }

  lemma {:induction false} FollowsSkip(s: Ring, schedule: seq<Action>, run: seq<Action>, wanted: Action)
    requires Follows(s, schedule, run) && Run(s, run).Reached? && !Enabled(Run(s, run).s, wanted)
    ensures Follows(s, schedule + [wanted], run)
    decreases |schedule|
  {
    hide Step, Enabled, TurnsOut;
    if |schedule| == 0 {
      assert schedule + [wanted] == [wanted] && [wanted][1..] == [];
    } else {
      assert (schedule + [wanted])[1..] == schedule[1..] + [wanted];
      if Enabled(s, schedule[0]) {
        FollowsSkip(Step(s, run[0]), schedule[1..], run[1..], wanted);
      } else {
        FollowsSkip(s, schedule[1..], run, wanted);
      }
    }
  }

  lemma {:induction false} FollowsStep(s: Ring, schedule: seq<Action>, run: seq<Action>, wanted: Action, a: Action)
    requires Follows(s, schedule, run) && Run(s, run).Reached? && TurnsOut(wanted, a)
    requires Enabled(Run(s, run).s, wanted) && Enabled(Run(s, run).s, a)
    ensures Follows(s, schedule + [wanted], run + [a])
    decreases |schedule|
  {
    hide Step, Enabled, TurnsOut;
    if |schedule| == 0 {
      assert schedule + [wanted] == [wanted] && [wanted][1..] == [] && run + [a] == [a] && [a][1..] == [];
    } else {
      assert (schedule + [wanted])[1..] == schedule[1..] + [wanted];
      if Enabled(s, schedule[0]) {
        FollowsStep(Step(s, run[0]), schedule[1..], run[1..], wanted, a);
        assert (run + [a])[1..] == run[1..] + [a];
      } else {
        FollowsStep(s, schedule[1..], run, wanted, a);
      }
    }
  }

  /** What does not change during a run: the size of the ring and the sectors asked for. */
  function Settings(s: Ring): (nat, nat, nat) {
    (s.io.nbufs, s.io.bufmax, s.h.sectors)
  }

  lemma SettingsStay(s: Ring, a: Action)
    requires Enabled(s, a)
    ensures Settings(Step(s, a)) == Settings(s)
  {
  }

  /** The disk, seen as the flat game, got `data` from CD sector `at` on; the rest of the disk is as it was. */
  ghost predicate Installed(disk0: seq<Byte>, disk: seq<Byte>, specs: seq<PartSpec>, parts: seq<Part>, at: nat,
                            data: seq<Byte>)
    requires Table(specs, parts, |disk0|) && Table(specs, parts, |disk|)
  {
    && 2048 * at + |data| <= |Flat(disk0, specs, parts)|
    && Flat(disk, specs, parts) == Patch(Flat(disk0, specs, parts), 2048 * at, data)
    && |disk| == |disk0| && forall b :: 0 <= b < |disk| && !InSomeSlice(specs, parts, b) ==> disk[b] == disk0[b]
  }

  /** It got some first part of `data`. */
  ghost predicate InstalledSome(disk0: seq<Byte>, disk: seq<Byte>, specs: seq<PartSpec>, parts: seq<Part>, at: nat,
                                data: seq<Byte>)
    requires Table(specs, parts, |disk0|) && Table(specs, parts, |disk|)
  {
    exists n :: 0 <= n <= |data| && Installed(disk0, disk, specs, parts, at, data[..n])
  }

  /**
   A game write from the opening of the game on, in the order `schedule` tells the threads to move; the device
   answers each transfer as it will. The disk holds a prefix of what was received in its place, and all of it when
   IOEndWrite reports OK for a complete game: always if the request fits into the game, and otherwise as long as no
   transfer has been repeated so often that the device's slice number has come round. A run in which nothing has failed
   can still end well if and only if the request fits. Every step asked for is made if it is possible; a transfer fails
   exactly when the drive does, and is repeated only for want of room.
   */
  method Install(d: Descriptor, at: nat, sectors: nat, nbufs: nat, bufmax: nat, banks: seq<seq<Byte>>,
                 lengths: seq<nat>,
                 schedule: seq<Action>) returns (ok: bool, s: Ring, ghost run: seq<Action>)
    requires d.Valid() && d.Place() == d.Pushes() == 0 && at < U32_RANGE
    requires InitOk(nbufs, bufmax, banks, lengths) && Addressable(nbufs, bufmax)
    modifies d, d.drive
    ensures d.Valid() && Untouched(old(d.drive.disk), d.drive.disk, d.partSpecs, d.drive.parts)
    ensures ok <==> at == 0 || at < Sectors(d.partSpecs, d.drive.parts) || at == MISTAKEN
    ensures !ok ==> d.drive.disk == old(d.drive.disk)
    ensures ok ==> Run(Init(nbufs, bufmax, banks, lengths, sectors), run) == Reached(s)
    ensures ok && multiset(run)[TRetry] <= LAST_PART_NUM - |d.drive.parts| ==>
      && Served(Init(nbufs, bufmax, banks, lengths, sectors), run, Room(d.partSpecs, d.drive.parts, Start(at)))
      && InstalledSome(old(d.drive.disk), d.drive.disk, d.partSpecs, d.drive.parts, Start(at), s.h.received)
      && (s.p.pc.Done? && !s.io.error && s.p.result == 0 ==>
            |s.h.received| == 2048 * sectors
            && Installed(old(d.drive.disk), d.drive.disk, d.partSpecs, d.drive.parts, Start(at), s.h.received))
    ensures ok && multiset(run)[TRetry] <= LAST_PART_NUM - |d.drive.parts| && s.p.result == 0 && !s.io.error ==>
      ((exists more :: EndsWell(s, more, Room(d.partSpecs, d.drive.parts, Start(at))))
        <==> Start(at) + sectors <= Sectors(d.partSpecs, d.drive.parts))
    ensures ok && Start(at) + sectors <= Sectors(d.partSpecs, d.drive.parts) ==>
      TRetry !in run && |run| <= 2100 * sectors + 20
    ensures ok ==> Follows(Init(nbufs, bufmax, banks, lengths, sectors), schedule, run)
    ensures ok ==> (TFail in run <==> SomeIn(d.drive.fails, old(d.drive.transfers), d.drive.transfers))
  {
    hide SomeIn, Follows, TurnsOut, Transfers, Outcome, Inv, Flat, Table, Whole, Addressable, Carried, Stored, Step,
         Enabled, Installed, InstalledSome, Untouched,
         Served, Allowed,
         EndsWell;
    ghost var disk0 := d.drive.disk;
    var start := Init(nbufs, bufmax, banks, lengths, sectors);
    s, run := start, [];
    NothingTouched(disk0, d.partSpecs, d.drive.parts);
    ok := OpenAt(d, at);
    if !ok {
      return;
    }
    d.PartsAreFew();
    TableIsLong(d);
    ghost var room, n, came := Room(d.partSpecs, d.drive.parts, Start(at)), 0, false;
    ghost var fits := Start(at) + sectors <= Sectors(d.partSpecs, d.drive.parts);
    StartCarried(d, disk0, Start(at), s);
    InitInv(nbufs, bufmax, banks, lengths, sectors);
    NothingServed(start, room);
    NothingFollows(start);
    SomeInNone(d.drive.fails, d.drive.transfers);
    var i := 0;
    while i < |schedule|
      invariant 0 <= i <= |schedule|
      invariant d.Valid() && Inv(s) && Whole(s) && Settings(s) == (nbufs, bufmax, sectors)
      invariant Untouched(disk0, d.drive.disk, d.partSpecs, d.drive.parts)
      invariant Run(start, run) == Reached(s) && Follows(start, schedule[..i], run)
      invariant old(d.drive.transfers) <= d.drive.transfers
      invariant TFail in run <==> SomeIn(d.drive.fails, old(d.drive.transfers), d.drive.transfers)
      invariant came ==> multiset(run)[TRetry] > LAST_PART_NUM - |d.drive.parts|
      invariant fits ==> !came && TRetry !in run
      invariant !came ==> Carried(disk0, d.drive.disk, d.partSpecs, d.drive.parts, Start(at), d.Place(), n, s)
                          && Served(start, run, room) && d.Pushes() <= multiset(run)[TRetry]
    {
      assert schedule[..i + 1] == schedule[..i] + [schedule[i]];
      if Enabled(s, schedule[i]) {
        ghost var before, wrapped, tried := s, false, d.drive.transfers;
        var a, answer;
        a, answer, s, wrapped, n := Act(d, disk0, Start(at), s, schedule[i], n);
        SomeInSplits(d.drive.fails, old(d.drive.transfers), tried, d.drive.transfers);
        RunSnoc(start, run, a);
        ActTurnsOut(schedule[i], a, answer, before);
        FollowsStep(start, schedule[..i], run, schedule[i], a);
        if fits {
          RepeatMeansOverrun(before, a, room);
        }
        if !came && !wrapped {
          ServedSnoc(start, run, a, room);
        }
        came := came || wrapped;
        run := run + [a];
      } else {
        FollowsSkip(start, schedule[..i], run, schedule[i]);
      }
      i := i + 1;
    }
    assert schedule[..i] == schedule;
    if fits {
      EveryRunEnds(nbufs, bufmax, banks, lengths, sectors, run, room);
    }
    if !came {
      if s.p.result == 0 && !s.io.error {
        CanEndWellIff(nbufs, bufmax, banks, lengths, sectors, run, room, s);
      }
      CarriedMeansInstalled(disk0, d.drive.disk, d.partSpecs, d.drive.parts, Start(at), d.Place(), n, s);
    }
  }

  lemma NothingFollows(s: Ring)
    ensures Follows(s, [], [])
  {
  }

  lemma ActTurnsOut(wanted: Action, a: Action, answer: int, s: Ring)
    requires Transfers(wanted) ==> Enabled(s, TWrite) && a == Outcome(answer, |Payload(s)|)
    requires !Transfers(wanted) ==> a == wanted
    ensures TurnsOut(wanted, a)
  {
    hide Enabled, Payload;
  }

  lemma TableIsLong(d: Descriptor)
    requires d.Valid()
    ensures 0 < |d.drive.parts| <= |d.partSpecs|
  {
  }

  /** No transfer is repeated when there is room for the whole game. */
  lemma RepeatMeansOverrun(s: Ring, a: Action, room: nat)
    requires Inv(s) && 2048 * s.h.sectors <= room
    ensures Allowed(s, a, room) ==> !a.TRetry?
  {
    hide Inv;
    InvMeansCore(s);
    FitsMeansNoOverrun(s, room);
  }

  lemma NothingServed(s: Ring, room: nat)
    ensures Run(s, []) == Reached(s) && Served(s, [], room)
  {
  }

  lemma NothingTouched(disk: seq<Byte>, specs: seq<PartSpec>, parts: seq<Part>)
    requires Table(specs, parts, |disk|)
    ensures Untouched(disk, disk, specs, parts)
  {
  }

  lemma StartCarried(d: Descriptor, disk0: seq<Byte>, at: nat, s: Ring)
    requires d.Valid() && disk0 == d.drive.disk && d.Place() == 4 * at
    requires s.h.writes == [] && s.h.received == [] && s.h.submitted == []
    ensures Carried(disk0, d.drive.disk, d.partSpecs, d.drive.parts, at, d.Place(), 0, s) && Whole(s)
  {
    d.PlaceInGame();
    FlatLength(disk0, d.partSpecs, d.drive.parts);
    NothingStored(disk0, d.partSpecs, d.drive.parts, 2048 * at, s.h.received);
  }

  lemma CarriedMeansInstalled(disk0: seq<Byte>, disk: seq<Byte>, specs: seq<PartSpec>, parts: seq<Part>,
                              at: nat, place: nat, n: nat, s: Ring)
    requires Inv(s) && Carried(disk0, disk, specs, parts, at, place, n, s)
    ensures Table(specs, parts, |disk0|) && Table(specs, parts, |disk|)
    ensures InstalledSome(disk0, disk, specs, parts, at, s.h.received)
    ensures s.p.pc.Done? && !s.io.error && s.p.result == 0 ==>
      |s.h.received| == 2048 * s.h.sectors && Installed(disk0, disk, specs, parts, at, s.h.received)
  {
    hide Flat, Table, Flatten, Queue, Sizes;
    assert Installed(disk0, disk, specs, parts, at, s.h.received[..n]);
    if s.p.pc.Done? && !s.io.error && s.p.result == 0 {
      DoneMeansComplete(s);
      assert s.h.received[..n] == s.h.received;
    }
  }
}
