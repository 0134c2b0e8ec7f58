/**
 What one data connection of a game read delivers: the output of a run of the console's read ring. Which bytes of the
 game it holds depends on breaks, failures and interleaving only, not on what is in the game.
 */
module ReadStream {
  import opened Common
  import opened Banks
  import opened ReadRing
  import ReadLive

  // ---------------------------------------------------------------- the bytes do not matter

  /** Two rings that differ in the contents of file, banks and blocks only. */
  predicate Alike(s: Ring, t: Ring) {
    && t.k == s.k && t.c == s.c && t.t == s.t
    && t.io == s.io.(banks := t.io.banks) && AlikeBlocks(s.io.banks, t.io.banks)
    && t.h == s.h.(image := t.h.image, read := t.h.read, output := t.h.output)
    && |t.h.image| == |s.h.image| && |t.h.output| == |s.h.output| && AlikeBlocks(s.h.read, t.h.read)
  }

  lemma {:induction false} AlikeFlatten(a: seq<seq<Byte>>, b: seq<seq<Byte>>)
    requires AlikeBlocks(a, b)
    ensures |Flatten(a)| == |Flatten(b)|
  {
    if |a| > 0 {
      AlikeFlatten(a[1..], b[1..]);
    }
  }

  lemma {:induction false} AlikeCut(a: seq<Byte>, b: seq<Byte>, lengths: seq<nat>)
    requires |a| == |b|
    ensures AlikeBlocks(Cut(a, lengths), Cut(b, lengths))
  {
    if |lengths| > 0 {
      var n := Min(lengths[0], |a|);
      AlikeCut(a[n..], b[n..], lengths[1..]);
    }
  }

  lemma AlikeRead(s: Ring, t: Ring)
    requires Alike(s, t) && Enabled(s, TRead)
    ensures Enabled(t, TRead) && Alike(Step(s, TRead), Step(t, TRead))
  {
    hide Flatten, Cut, StoreAcross;
    AlikeFlatten(s.h.read, t.h.read);
    var lengths := s.io.lengths[s.io.writePtr..s.io.writePtr + s.t.claimed];
    AlikeCut(Data(s), Data(t), lengths);
  }

  lemma AlikeConsumer(s: Ring, t: Ring, a: Action)
    requires Alike(s, t) && Enabled(s, a) && !ByThread(a)
    ensures Enabled(t, a) && Alike(Step(s, a), Step(t, a))
  {
    hide Flatten, Cut, StoreAcross;
  }

  lemma AlikeFail(s: Ring, t: Ring, moved: nat)
    requires Alike(s, t) && Enabled(s, TFail(moved))
    ensures Enabled(t, TFail(moved)) && Alike(Step(s, TFail(moved)), Step(t, TFail(moved)))
  {
    hide Flatten;
    AlikeFlatten(s.h.read, t.h.read);
  }

  lemma AlikeThread(s: Ring, t: Ring, a: Action)
    requires Alike(s, t) && Enabled(s, a) && ByThread(a) && !a.TRead? && !a.TFail?
    ensures Enabled(t, a) && Alike(Step(s, a), Step(t, a))
  {
    hide Cursor, AlikeBlocks, Cut, StoreAcross;
  }

  lemma AlikeStep(s: Ring, t: Ring, a: Action)
    requires Alike(s, t) && Enabled(s, a)
    ensures Enabled(t, a) && Alike(Step(s, a), Step(t, a))
  {
    hide Alike, Enabled, Step;
    if a.TRead? {
      AlikeRead(s, t);
    } else if a.TFail? {
      AlikeFail(s, t, a.moved);
    } else if ByThread(a) {
      AlikeThread(s, t, a);
    } else {
      AlikeConsumer(s, t, a);
    }
  }

  /** The same steps are possible with every file of the same length. */
  lemma {:induction false} AlikeRun(s: Ring, t: Ring, schedule: seq<Action>)
    requires Alike(s, t) && Run(s, schedule).Reached?
    ensures Run(t, schedule).Reached? && Alike(Run(s, schedule).s, Run(t, schedule).s)
    decreases |schedule|
  {
    hide Alike, Step, Enabled;
    if |schedule| > 0 {
      AlikeStep(s, t, schedule[0]);
      AlikeRun(Step(s, schedule[0]), Step(t, schedule[0]), schedule[1..]);
    }
  }

  // ---------------------------------------------------------------- one connection

  /** The console's ring during one connection, and the steps its threads make in it. */
  datatype Session = Session(nbufs: nat, bufmax: nat, lengths: seq<nat>, schedule: seq<Action>)

  predicate Sound(w: Session) {
    0 < w.nbufs == |w.lengths| && 0 < w.bufmax
  }

  /** The run of the ring when `sectors` sectors are asked for of what `image` holds. */
  function Console(w: Session, sectors: nat, image: seq<Byte>): Outcome {
    Run(Init(w.nbufs, w.bufmax, Repeat(Zeros(2048 * w.bufmax), w.nbufs), w.lengths, sectors, image), w.schedule)
  }

  /** What has been sent in it. */
  function Stream(w: Session, sectors: nat, image: seq<Byte>): seq<Byte> {
    match Console(w, sectors, image)
    case Reached(s) => s.h.output
    case Stuck => []
  }

  /** How far behind its place each byte of it lies, for a file of that length. */
  function Shifts(w: Session, sectors: nat, length: nat): seq<nat> {
    match Console(w, sectors, Zeros(length))
    case Reached(s) => s.h.shifts
    case Stuck => []
  }

  lemma ConsolesAlike(w: Session, sectors: nat, a: seq<Byte>, b: seq<Byte>)
    requires |a| == |b| && Console(w, sectors, a).Reached?
    ensures Console(w, sectors, b).Reached? && Alike(Console(w, sectors, a).s, Console(w, sectors, b).s)
  {
    hide Run;
    var banks := Repeat(Zeros(2048 * w.bufmax), w.nbufs);
    AlikeRun(Init(w.nbufs, w.bufmax, banks, w.lengths, sectors, a),
             Init(w.nbufs, w.bufmax, banks, w.lengths, sectors, b), w.schedule);
  }

  /** As much is sent of one file as of another of the same length. */
  lemma StreamLength(w: Session, sectors: nat, a: seq<Byte>, b: seq<Byte>)
    requires |a| == |b|
    ensures |Stream(w, sectors, a)| == |Stream(w, sectors, b)|
  {
    if Console(w, sectors, a).Reached? {
      ConsolesAlike(w, sectors, a, b);
    }
    if Console(w, sectors, b).Reached? {
      ConsolesAlike(w, sectors, b, a);
    }
  }

  /** A connection delivers bytes of the game in order, each behind its place by what had been passed over before. */
  lemma StreamIsShifted(w: Session, sectors: nat, image: seq<Byte>)
    requires Sound(w)
    ensures Shifted(Stream(w, sectors, image), image, Shifts(w, sectors, |image|))
    ensures forall p, q :: 0 <= p < q < |Shifts(w, sectors, |image|)| ==>
              Shifts(w, sectors, |image|)[p] <= Shifts(w, sectors, |image|)[q]
  {
    hide Run, Shifted, Growing, Inv;
    var zeros := Zeros(|image|);
    if Console(w, sectors, image).Reached? {
      ConsolesAlike(w, sectors, image, zeros);
      ConsoleInv(w, sectors, image);
      SentOfImage(Console(w, sectors, image).s);
      ShiftsGrow(Shifts(w, sectors, |image|), Console(w, sectors, image).s.h.skipped);
    } else {
      if Console(w, sectors, zeros).Reached? {
        ConsolesAlike(w, sectors, zeros, image);
      }
      NothingShifted(image);
    }
  }

  lemma ConsoleInv(w: Session, sectors: nat, image: seq<Byte>)
    requires Sound(w) && Console(w, sectors, image).Reached?
    ensures Inv(Console(w, sectors, image).s) && Console(w, sectors, image).s.h.image == image
  {
    hide Run, Inv;
    var banks := Repeat(Zeros(2048 * w.bufmax), w.nbufs);
    InitInv(w.nbufs, w.bufmax, banks, w.lengths, sectors, image);
    RunInv(Init(w.nbufs, w.bufmax, banks, w.lengths, sectors, image), w.schedule);
    ReadLive.RunSettings(Init(w.nbufs, w.bufmax, banks, w.lengths, sectors, image), w.schedule);
  }

  lemma NothingShifted(image: seq<Byte>)
    ensures Shifted([], image, [])
  {
  }

  lemma ShiftsGrow(shifts: seq<nat>, last: nat)
    requires Growing(shifts, last)
    ensures forall p, q :: 0 <= p < q < |shifts| ==> shifts[p] <= shifts[q]
  {
  }
}
