/** File slots of hdd_fio.c: what an open partition's slot says of its sub-partitions, and what its header says. */
module Slots {
  import opened Common

  const APA_MAXSUB := 64
  const ENOENT := 2
  const EACCES := 13
  const EEXIST := 17
  const EMFILE := 24
  const TEMPORARY := "_tmp"

  /** apa_sub_t. */
  datatype Sub = Sub(start: nat, length: nat)

  const NO_SUB := Sub(0, 0)

  /** Header of a main partition: of its array of subs the first `nsub` count. */
  datatype Header = Header(id: string, length: nat, nsub: nat, subs: seq<Sub>)

  /** hdd_file_slot_t; the main partition is part 0. */
  datatype Slot = Slot(open: bool, id: string, writable: bool, nsub: nat, parts: seq<Sub>)

  const FREE := Slot(false, "", false, 0, seq(APA_MAXSUB + 1, _ => NO_SUB))

  predicate HeaderOk(h: Header) {
    |h.subs| == APA_MAXSUB && h.nsub <= APA_MAXSUB
  }

  predicate SlotOk(s: Slot) {
    |s.parts| == APA_MAXSUB + 1 && s.nsub <= APA_MAXSUB
  }

  function HeaderSubs(h: Header): seq<Sub>
    requires HeaderOk(h)
  {
    h.subs[..h.nsub]
  }

  function SlotSubs(s: Slot): seq<Sub>
    requires SlotOk(s)
  {
    s.parts[1..s.nsub + 1]
  }

  /** The slot is that of the partition at `start`, and says the same as its header. */
  predicate Agrees(s: Slot, start: nat, h: Header) {
    && SlotOk(s) && HeaderOk(h)
    && s.id == h.id && s.parts[0] == Sub(start, h.length)
    && s.nsub == h.nsub && SlotSubs(s) == HeaderSubs(h)
  }

  function Start(s: Slot): nat
    requires SlotOk(s)
  {
    s.parts[0].start
  }

  /** No two main partitions have one name, no two open slots one name, and every open slot agrees with its header. */
  ghost predicate Consistent(headers: map<nat, Header>, slots: seq<Slot>) {
    && (forall a :: a in headers ==> HeaderOk(headers[a]))
    && (forall a, b :: a in headers && b in headers && headers[a].id == headers[b].id ==> a == b)
    && (forall k :: 0 <= k < |slots| ==> SlotOk(slots[k]))
    && (forall k :: 0 <= k < |slots| && slots[k].open ==> OpenOk(headers, slots[k]))
    && forall j, k :: 0 <= j < k < |slots| && slots[j].open && slots[k].open ==> slots[j].id != slots[k].id
  }

  predicate OpenOk(headers: map<nat, Header>, s: Slot)
    requires SlotOk(s)
  {
    Start(s) in headers && Agrees(s, Start(s), headers[Start(s)])
  }

  /** Different slots are of different partitions, so that what one of them does cannot leave another behind. */
  lemma SlotsHaveOwnHeaders(headers: map<nat, Header>, slots: seq<Slot>, j: nat, k: nat)
    requires Consistent(headers, slots) && j < |slots| && k < |slots| && j != k && slots[j].open && slots[k].open
    ensures Start(slots[j]) != Start(slots[k])
  {
    assert OpenOk(headers, slots[j]) && OpenOk(headers, slots[k]);
  }

  /** Headers other than those of open slots may change. */
  lemma OtherHeaders(headers: map<nat, Header>, headers': map<nat, Header>, slots: seq<Slot>)
    requires Consistent(headers, slots)
    requires forall a :: a in headers' ==> HeaderOk(headers'[a])
    requires forall a, b :: a in headers' && b in headers' && headers'[a].id == headers'[b].id ==> a == b
    requires forall k :: 0 <= k < |slots| && slots[k].open ==>
      Start(slots[k]) in headers' && headers'[Start(slots[k])] == headers[Start(slots[k])]
    ensures Consistent(headers', slots)
  {
    forall k | 0 <= k < |slots| && slots[k].open ensures OpenOk(headers', slots[k]) {
      assert OpenOk(headers, slots[k]);
    }
  }

  /** One slot and its header move on together. */
  lemma OneSlotMoves(headers: map<nat, Header>, slots: seq<Slot>, k: nat, h: Header, s: Slot)
    requires Consistent(headers, slots) && k < |slots| && slots[k].open
    requires s.open && s.id == slots[k].id && SlotOk(s) && Start(s) == Start(slots[k]) && Agrees(s, Start(s), h)
    ensures Consistent(headers[Start(s) := h], slots[k := s])
  {
    assert OpenOk(headers, slots[k]);
    var headers', slots' := headers[Start(s) := h], slots[k := s];
    forall j | 0 <= j < |slots'| && slots'[j].open ensures OpenOk(headers', slots'[j]) {
      if j != k {
        assert OpenOk(headers, slots[j]);
        SlotsHaveOwnHeaders(headers, slots, j, k);
      }
    }
  }

  /** What hddAddPartitionHere came to when a sub-partition was asked for. */
  datatype Placement = Refused(rv: int) | Placed(sub: Sub)

  /** The header that hddAddPartitionHere makes for a partition asked for by name. */
  function NewHeader(id: string, length: nat): Header {
    Header(id, length, 0, seq(APA_MAXSUB, _ => NO_SUB))
  }

  /** A new partition of that name stands where it was placed. */
  predicate Made(before: map<nat, Header>, after: map<nat, Header>, id: string, placement: Placement) {
    && placement.Placed? && placement.sub.start !in before
    && after == before[placement.sub.start := NewHeader(id, placement.sub.length)]
  }

  /** Partitions of the console's own, whose names begin with two underscores. */
  predicate IsSystem(id: string) {
    |id| >= 2 && id[0] == '_' == id[1]
  }

  /**
   What deleting `nsub` subs comes to: the first refusal met, from the last sub on; and if none is refused it only
   depends on the first sub whether it fails, because a header read later hides one that could not be read.
   */
  function SubsAnswer(readable: nat -> bool, deletes: nat -> int, nsub: nat): int {
    if nsub == 0 then 0
    else if readable(nsub - 1) && deletes(nsub - 1) != 0 then deletes(nsub - 1)
    else if nsub == 1 then if readable(0) then 0 else -EIO
    else SubsAnswer(readable, deletes, nsub - 1)
  }

  /** So a sub can be left behind unseen: only the deletions made, and the last header read, have to go well. */
  lemma {:induction false} SubsGoneIff(readable: nat -> bool, deletes: nat -> int, nsub: nat)
    ensures SubsAnswer(readable, deletes, nsub) == 0 <==>
      (forall k: nat :: k < nsub && readable(k) ==> deletes(k) == 0) && (nsub == 0 || readable(0))
  {
    if nsub > 1 {
      SubsGoneIff(readable, deletes, nsub - 1);
    }
  }

  lemma {:induction false} LastRefusal(readable: nat -> bool, deletes: nat -> int, i: nat, nsub: nat)
    requires i < nsub && readable(i) && deletes(i) != 0
    requires forall k: nat :: i < k < nsub ==> readable(k) ==> deletes(k) == 0
    ensures SubsAnswer(readable, deletes, nsub) == deletes(i)
  {
    if i < nsub - 1 {
      LastRefusal(readable, deletes, i, nsub - 1);
    }
  }

  lemma {:induction false} NoRefusal(readable: nat -> bool, deletes: nat -> int, nsub: nat)
    requires forall k: nat :: k < nsub ==> readable(k) ==> deletes(k) == 0
    ensures SubsAnswer(readable, deletes, nsub) == if nsub == 0 || readable(0) then 0 else -EIO
  {
    if nsub > 1 {
      NoRefusal(readable, deletes, nsub - 1);
    }
  }

  function RemoveAnswer(readable: nat -> bool, deletes: nat -> int, nsub: nat, deleted: int): int {
    if SubsAnswer(readable, deletes, nsub) != 0 then SubsAnswer(readable, deletes, nsub) else deleted
  }

  /** A free slot takes what the header of a partition that nobody has open says. */
  lemma SlotTakes(headers: map<nat, Header>, slots: seq<Slot>, k: nat, start: nat, s: Slot)
    requires Consistent(headers, slots) && k < |slots| && !slots[k].open && start in headers
    requires SlotOk(s) && s.parts[0] == Sub(start, headers[start].length) && Agrees(s, start, headers[start])
    requires forall j :: 0 <= j < |slots| && slots[j].open ==> slots[j].id != s.id
    ensures Consistent(headers, slots[k := s])
  {
    var slots' := slots[k := s];
    forall j | 0 <= j < |slots'| && slots'[j].open ensures OpenOk(headers, slots'[j]) {
      if j != k {
        assert OpenOk(headers, slots[j]);
      }
    }
  }

  class Driver {
    var headers: map<nat, Header>
    var slots: seq<Slot>

    ghost predicate Valid()
      reads this
    {
      Consistent(headers, slots)
    }

    constructor (maxOpen: nat, headers: map<nat, Header>)
      requires forall a :: a in headers ==> HeaderOk(headers[a])
      requires forall a, b :: a in headers && b in headers && headers[a].id == headers[b].id ==> a == b
      ensures Valid() && this.headers == headers && slots == seq(maxOpen, _ => FREE)
    {
      this.headers := headers;
      slots := seq(maxOpen, _ => FREE);
    }

    ghost predicate IsOpen(id: string)
      reads this
    {
      exists k :: 0 <= k < |slots| && slots[k].open && slots[k].id == id
    }

    ghost predicate Exists(id: string)
      reads this
    {
      exists a :: a in headers && headers[a].id == id
    }

    /** The scan of the slots for an open partition of that name, as getFileSlot, apaRemove and apaRename make it. */
    method FindOpen(id: string) returns (found: bool)
      ensures found <==> IsOpen(id)
    {
      found := false;
      var i := 0;
      while i < |slots| && !found
        invariant 0 <= i <= |slots|
        invariant found <==> exists k :: 0 <= k < i && slots[k].open && slots[k].id == id
      {
        if slots[i].open && slots[i].id == id {
          found := true;
        }
        i := i + 1;
      }
    }

    /** getFileSlot: `slot` is one that is free. */
    method GetFileSlot(id: string) returns (rv: int, slot: nat)
      ensures rv == -EBUSY <==> IsOpen(id)
      ensures rv == 0 || rv == -EBUSY || rv == -EMFILE
      ensures rv == 0 ==> slot < |slots| && !slots[slot].open
      ensures rv == -EMFILE <==> !IsOpen(id) && forall k :: 0 <= k < |slots| ==> slots[k].open
    {
      slot := 0;
      var busy := FindOpen(id);
      if busy {
        return -EBUSY, slot;
      }
      while slot < |slots|
        invariant 0 <= slot <= |slots| && forall k :: 0 <= k < slot ==> slots[k].open
      {
        if !slots[slot].open {
          return 0, slot;
        }
        slot := slot + 1;
      }
      rv := -EMFILE;
    }

    /** apaFindPartition. */
    method FindPartition(id: string) returns (found: bool, start: nat)
      requires Valid()
      ensures found <==> Exists(id)
      ensures found ==> start in headers && headers[start].id == id
    {
      found, start := false, 0;
      if exists a :: a in headers && headers[a].id == id {
        var a :| a in headers && headers[a].id == id;
        found, start := true, a;
      }
    }

    /** apaOpen's search for the partition, which is made if it is not there and may be. */
    method FindOrCreate(id: string, create: bool, placement: Placement) returns (rv: int, start: nat)
      requires Valid() && if placement.Refused? then placement.rv < 0 else placement.sub.start !in headers
      modifies this
      ensures Valid() && slots == old(slots)
      ensures rv == 0 ==> start in headers && headers[start].id == id
      ensures rv == if old(Exists(id)) then 0 else if !create then -ENOENT
                    else if placement.Refused? then placement.rv else 0
      ensures if !old(Exists(id)) && create && placement.Placed? then Made(old(headers), headers, id, placement)
              else headers == old(headers)
    {
      var found;
      found, start := FindPartition(id);
      if found {
        return 0, start;
      }
      if !create || placement.Refused? {
        return if create then placement.rv else -ENOENT, start;
      }
      start := placement.sub.start;
      var headers' := headers[start := NewHeader(id, placement.sub.length)];
      forall k | 0 <= k < |slots| && slots[k].open ensures Start(slots[k]) != start {
        assert OpenOk(headers, slots[k]);
      }
      OtherHeaders(headers, headers', slots);
      headers := headers';
      rv := 0;
    }

    /**
     hddOpen, with the answer of hddAddPartitionHere, should the partition be made; `password` says whether the full
     password is right, and `toRead` is the answer about the other one, which is enough to read.
     */
    method Open(id: string, writable: bool, create: bool, placement: Placement, password: bool, toRead: int)
      returns (rv: int, slot: nat)
      requires Valid() && toRead <= 0
      requires if placement.Refused? then placement.rv < 0 else placement.sub.start !in headers
      modifies this
      ensures Valid() && |slots| == old(|slots|)
      ensures rv == if old(IsOpen(id)) then -EBUSY
                    else if forall k :: 0 <= k < |old(slots)| ==> old(slots)[k].open then -EMFILE
                    else if !old(Exists(id)) && !create then -ENOENT
                    else if !old(Exists(id)) && placement.Refused? then placement.rv
                    else if password then 0
                    else if writable then -EACCES else toRead
      ensures if !old(IsOpen(id)) && (exists k :: 0 <= k < |old(slots)| && !old(slots)[k].open)
                 && !old(Exists(id)) && create && placement.Placed?
              then Made(old(headers), headers, id, placement) else headers == old(headers)
      ensures rv != 0 ==>
        slots == old(slots) || (slot < |slots| && !slots[slot].open && slots == old(slots)[slot := slots[slot]])
      ensures rv == 0 ==>
        && slot < |slots| && slots[slot].open && slots[slot].id == id && slots[slot].writable == writable
        && slots == old(slots)[slot := slots[slot]] && !old(slots)[slot].open
        && OpenOk(headers, slots[slot])
    {
      hide Consistent, Agrees, NewHeader;
      rv, slot := GetFileSlot(id);
      if rv == 0 {
        var start;
        rv, start := FindOrCreate(id, create, placement);
        if rv != 0 {
          return;
        }
        HeadersAreOk(headers, slots, start);
        var h := headers[start];
        if !password {
          rv := if writable then -EACCES else toRead;
        }
        var s := Slot(rv == 0, h.id, rv == 0 && writable, h.nsub, [Sub(start, h.length)] + h.subs);
        SlotOfHeader(s, start, h);
        SlotTakes(headers, slots, slot, start, s);
        slots := slots[slot := s];
        OpenSlotIf(headers, slots, slot);
      }
    }

    /** hddClose. */
    method Close(slot: nat)
      requires Valid() && slot < |slots| && slots[slot].open
      modifies this
      ensures Valid() && headers == old(headers) && slots == old(slots)[slot := FREE]
    {
      slots := slots[slot := FREE];
    }

    /** ioctl2AddSub: the new sub-partition becomes the last one, in the header and in the slot. */
    method AddSub(slot: nat, placement: Placement) returns (rv: int)
      requires Valid() && slot < |slots| && slots[slot].open && (placement.Refused? ==> placement.rv < 0)
      modifies this
      ensures Valid() && |slots| == old(|slots|)
      ensures rv == if !old(slots[slot].writable) then -EACCES
                    else if old(slots[slot].nsub) == APA_MAXSUB then -EFBIG
                    else if placement.Refused? then placement.rv else 0
      ensures rv != 0 ==> headers == old(headers) && slots == old(slots)
      ensures rv == 0 ==> slots == old(slots)[slot := slots[slot]]
      ensures rv == 0 ==> SlotSubs(slots[slot]) == old(SlotSubs(slots[slot])) + [placement.sub]
      ensures rv == 0 ==> headers.Keys == old(headers.Keys) && forall a :: a in headers && a != Start(slots[slot]) ==>
        headers[a] == old(headers)[a]
    {
      hide Consistent;
      OpenSlot(headers, slots, slot);
      var s := slots[slot];
      if !s.writable {
        return -EACCES;
      }
      if !(s.nsub < APA_MAXSUB) {
        return -EFBIG;
      }
      if placement.Refused? {
        return placement.rv;
      }
      var start := s.parts[0].start;
      var h := headers[start];
      var h' := h.(subs := h.subs[h.nsub := placement.sub], nsub := h.nsub + 1);
      var s' := s.(nsub := s.nsub + 1, parts := s.parts[s.nsub + 1 := placement.sub]);
      SubAdded(s, s', h, h', placement.sub);
      OneSlotMoves(headers, slots, slot, h', s');
      headers := headers[start := h'];
      slots := slots[slot := s'];
      rv := 0;
    }

    /** ioctl2DeleteLastSub; `deleted` is what apaDelete answers. */
    method DeleteLastSub(slot: nat, deleted: int) returns (rv: int)
      requires Valid() && slot < |slots| && slots[slot].open
      modifies this
      ensures Valid() && |slots| == old(|slots|)
      ensures rv == if !old(slots[slot].writable) then -EACCES else if old(slots[slot].nsub)
           == 0 then -ENOENT else deleted
      ensures !old(slots[slot].writable) || old(slots[slot].nsub) == 0 ==>
        headers == old(headers) && slots == old(slots)
      ensures old(slots[slot].writable) && old(slots[slot].nsub) > 0 ==>
        slots == old(slots)[slot := slots[slot]]
        && SlotSubs(slots[slot]) == old(SlotSubs(slots[slot]))[..old(slots[slot].nsub) - 1]
      ensures headers.Keys == old(headers.Keys) && forall a :: a in headers && a != Start(slots[slot]) ==>
        headers[a] == old(headers)[a]
    {
      hide Consistent;
      OpenSlot(headers, slots, slot);
      var s := slots[slot];
      if !s.writable {
        return -EACCES;
      }
      if s.nsub == 0 {
        return -ENOENT;
      }
      var start := s.parts[0].start;
      var h := headers[start];
      var h' := h.(nsub := h.nsub - 1);
      var s' := s.(nsub := s.nsub - 1);
      SubDropped(s, s', h, h');
      OneSlotMoves(headers, slots, slot, h', s');
      headers := headers[start := h'];
      slots := slots[slot := s'];
      rv := deleted;
    }

    /**
     apaRemove. The subs go first, and before them their number in the header: if one of the deletions fails the main
     partition stays, and has none any more. `allowed` says whether the password is right; for each sub `readable` tells
     whether its header can be read, and `deletes` what apaDelete answers; `deleted` is its answer for the partition.
     */
    method Remove(id: string, allowed: bool, readable: nat -> bool, deletes: nat -> int, deleted: int) returns (rv: int)
      requires Valid()
      modifies this
      ensures Valid() && slots == old(slots)
      ensures old(IsOpen(id)) ==> rv == -EBUSY
      ensures !old(IsOpen(id)) && IsSystem(id) ==> rv == -EACCES
      ensures !old(IsOpen(id)) && !IsSystem(id) && !old(Exists(id)) ==> rv == -ENOENT
      ensures !old(IsOpen(id)) && !IsSystem(id) && old(Exists(id)) && !allowed ==> rv == -EACCES
      ensures old(IsOpen(id)) || IsSystem(id) || !old(Exists(id)) || !allowed ==> headers == old(headers)
      ensures !old(IsOpen(id)) && !IsSystem(id) && old(Exists(id)) && allowed ==>
        exists a :: a in old(headers) && old(headers)[a].id == id
                    && rv == RemoveAnswer(readable, deletes, old(headers)[a].nsub, deleted)
                    && headers == if rv == 0 then old(headers) - {a} else old(headers)[a := old(headers)[a].(nsub := 0)]
    {
      var busy := FindOpen(id);
      if busy {
        return -EBUSY;
      }
      if |id| >= 2 && id[0] == '_' && id[1] == '_' {
        return -EACCES;
      }
      var found, start := FindPartition(id);
      if !found {
        return -ENOENT;
      }
      if !allowed {
        return -EACCES;
      }
      hide Consistent;
      var nsub := headers[start].nsub;
      StandsAlone(headers, slots, start);
      headers := headers[start := headers[start].(nsub := 0)];
      rv := DeleteSubs(nsub, readable, deletes);
      if rv == 0 {
        rv := deleted;
      }
      if rv == 0 {
        StandsAlone(headers, slots, start);
        headers := headers - {start};
      }
    }

    /** The deletions of the subs, last one first; reading a header may fail as well as deleting. */
    method DeleteSubs(nsub: nat, readable: nat -> bool, deletes: nat -> int) returns (rv: int)
      ensures rv == SubsAnswer(readable, deletes, nsub)
    {
      rv := 0;
      var i: nat := nsub;
      while i != 0
        invariant i <= nsub && forall k: nat :: i <= k < nsub ==> readable(k) ==> deletes(k) == 0
        invariant rv == if i == nsub || readable(i) then 0 else -EIO
      {
        i := i - 1;
        if readable(i) {
          rv := deletes(i);
          if rv != 0 {
            LastRefusal(readable, deletes, i, nsub);
            return;
          }
        } else {
          rv := -EIO;
        }
      }
      NoRefusal(readable, deletes, nsub);
    }

    /** apaRename; `allowed` says whether the password is right. */
    method Rename(from: string, to: string, allowed: bool) returns (rv: int)
      requires Valid()
      modifies this
      ensures Valid() && slots == old(slots)
      ensures rv == if old(Exists(to)) then -EEXIST
                    else if old(IsOpen(from)) then -EBUSY
                    else if IsSystem(from) then -EACCES
                    else if !old(Exists(from)) then -ENOENT
                    else if allowed then 0 else -EACCES
      ensures rv != 0 ==> headers == old(headers)
      ensures rv == 0 ==>
        exists a :: a in old(headers) && old(headers)[a].id == from
                    && headers == old(headers)[a := old(headers)[a].(id := to)]
    {
      var taken, other := FindPartition(to);
      if taken {
        return -EEXIST;
      }
      var busy := FindOpen(from);
      if busy {
        return -EBUSY;
      }
      if |from| >= 2 && from[0] == '_' && from[1] == '_' {
        return -EACCES;
      }
      var found, start := FindPartition(from);
      if !found {
        return -ENOENT;
      }
      if !allowed {
        return -EACCES;
      }
      forall k | 0 <= k < |slots| && slots[k].open ensures Start(slots[k]) != start {
        assert OpenOk(headers, slots[k]);
      }
      OtherHeaders(headers, headers[start := headers[start].(id := to)], slots);
      headers := headers[start := headers[start].(id := to)];
      rv := 0;
    }

    /**
     devctlSwapTemp; `password` is the answer of the password check. Nothing is asked about open slots: the agreement
     survives exactly when neither partition is open.
     */
    method SwapTemp(id: string, password: int) returns (rv: int)
      requires Valid() && id != TEMPORARY
      modifies this
      ensures slots == old(slots)
      ensures rv == if IsSystem(id) then -EINVAL else if old(Exists(TEMPORARY) && Exists(id)) then password else -ENOENT
      ensures rv != 0 ==> headers == old(headers)
      ensures rv == 0 ==> exists a, b ::
        && a in old(headers) && old(headers)[a].id == TEMPORARY && b in old(headers) && old(headers)[b].id == id
        && headers == old(headers)[a := old(headers)[a].(id := id)][b := old(headers)[b].(id := TEMPORARY)]
      ensures rv == 0 ==> (Valid() <==> !old(IsOpen(id)) && !old(IsOpen(TEMPORARY)))
    {
      if |id| >= 2 && id[0] == '_' && id[1] == '_' {
        return -EINVAL;
      }
      var found, temp := FindPartition(TEMPORARY);
      if !found {
        return -ENOENT;
      }
      var other;
      found, other := FindPartition(id);
      if !found {
        return -ENOENT;
      }
      rv := password;
      if rv == 0 {
        ghost var before := headers;
        headers := headers[temp := headers[temp].(id := headers[other].id)];
        headers := headers[other := headers[other].(id := TEMPORARY)];
        SwapBreaksIffOpen(before, headers, slots, temp, other);
      }
    }
  }

  lemma HeadersAreOk(headers: map<nat, Header>, slots: seq<Slot>, start: nat)
    requires Consistent(headers, slots) && start in headers
    ensures HeaderOk(headers[start])
  {
  }

  /** What hddOpen copies out of the header is what the header says. */
  lemma SlotOfHeader(s: Slot, start: nat, h: Header)
    requires HeaderOk(h) && s.id == h.id && s.nsub == h.nsub && s.parts == [Sub(start, h.length)] + h.subs
    ensures SlotOk(s) && s.parts[0] == Sub(start, h.length) && Agrees(s, start, h)
  {
    assert SlotSubs(s) == HeaderSubs(h);
  }

  /** A partition that is not open can go, or lose its subs, without a slot's notice. */
  lemma StandsAlone(headers: map<nat, Header>, slots: seq<Slot>, start: nat)
    requires Consistent(headers, slots) && start in headers
    requires forall k :: 0 <= k < |slots| && slots[k].open ==> slots[k].id != headers[start].id
    ensures Consistent(headers[start := headers[start].(nsub := 0)], slots) && Consistent(headers - {start}, slots)
  {
    forall k | 0 <= k < |slots| && slots[k].open ensures Start(slots[k]) != start {
      assert OpenOk(headers, slots[k]);
    }
    OtherHeaders(headers, headers[start := headers[start].(nsub := 0)], slots);
    OtherHeaders(headers, headers - {start}, slots);
  }

  lemma OpenSlotIf(headers: map<nat, Header>, slots: seq<Slot>, k: nat)
    requires Consistent(headers, slots) && k < |slots|
    ensures SlotOk(slots[k]) && (slots[k].open ==> OpenOk(headers, slots[k]))
  {
  }

  lemma OpenSlot(headers: map<nat, Header>, slots: seq<Slot>, k: nat)
    requires Consistent(headers, slots) && k < |slots| && slots[k].open
    ensures SlotOk(slots[k]) && OpenOk(headers, slots[k])
  {
  }

  lemma SubAdded(s: Slot, s': Slot, h: Header, h': Header, sub: Sub)
    requires SlotOk(s) && Agrees(s, Start(s), h) && s.nsub < APA_MAXSUB
    requires h' == h.(subs := h.subs[h.nsub := sub], nsub := h.nsub + 1)
    requires s' == s.(nsub := s.nsub + 1, parts := s.parts[s.nsub + 1 := sub])
    ensures SlotOk(s') && SlotSubs(s') == SlotSubs(s) + [sub] && Agrees(s', Start(s), h')
  {
    assert HeaderSubs(h') == HeaderSubs(h) + [sub];
  }

  lemma SubDropped(s: Slot, s': Slot, h: Header, h': Header)
    requires SlotOk(s) && Agrees(s, Start(s), h) && s.nsub > 0
    requires h' == h.(nsub := h.nsub - 1) && s' == s.(nsub := s.nsub - 1)
    ensures SlotOk(s') && SlotSubs(s') == SlotSubs(s)[..s.nsub - 1] && Agrees(s', Start(s), h')
  {
    assert HeaderSubs(h') == HeaderSubs(h)[..h.nsub - 1];
  }

  /**
   The names of two partitions change places: open slots of theirs then belong to other names than their headers have.
   */
  lemma SwapBreaksIffOpen(headers: map<nat, Header>, headers': map<nat, Header>, slots: seq<Slot>, temp: nat,
                          other: nat)
    requires Consistent(headers, slots) && temp in headers && other in headers && headers[temp].id != headers[other].id
    requires headers'
          == headers[temp := headers[temp].(id := headers[other].id)][other := headers[other].(id := headers[temp].id)]
    ensures Consistent(headers', slots) <==>
      forall k :: 0 <= k < |slots| && slots[k].open ==>
        slots[k].id != headers[temp].id && slots[k].id != headers[other].id
  {
    if k :| 0 <= k < |slots| && slots[k].open && (slots[k].id == headers[temp].id || slots[k].id == headers[other].id) {
      assert OpenOk(headers, slots[k]);
      assert !OpenOk(headers', slots[k]);
    } else {
      forall k | 0 <= k < |slots| && slots[k].open ensures headers'[Start(slots[k])] == headers[Start(slots[k])] {
        assert OpenOk(headers, slots[k]);
      }
      OtherHeaders(headers, headers', slots);
    }
  }
}
