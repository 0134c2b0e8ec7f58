/**
 OSD.c: the files of the console's browser in the attribute area of a game's partition, round the game information kept
 there.
 */
module OsdArea {
  import opened Common

  const NUM_OSD_FILES_ENTS := 5
  const OSD_VIEW_ICON_INDEX := 2
  const OSD_DEL_ICON_INDEX := 3
  const HDL_GAME_DATA_OFFSET := 0x10_0000
  const TABLE := 512
  const AREA := 512 * 0x1FF8

  /** struct OSDResourceFileEntry: what is to be installed, and whether it may be missing. */
  datatype File = File(data: seq<Byte>, optional: bool)

  /** OSDResFileEnt_t. */
  datatype Entry = Entry(offset: nat, size: nat)

  /** A length rounded up to whole sectors. */
  function Rounded(n: nat): (r: nat)
    ensures n <= r < n + 512 && r % 512 == 0
  {
    512 * ((n + 511) / 512)
  }

  /** Where a file of `length` bytes goes when `offset` is the next free place: game information is stepped over. */
  function Place(offset: nat, length: nat): nat {
    if HDL_GAME_DATA_OFFSET <= offset < HDL_GAME_DATA_OFFSET + 1024
       || (offset <= HDL_GAME_DATA_OFFSET && offset + length > HDL_GAME_DATA_OFFSET)
    then 1049600 else offset
  }

  /** PartExtAttrOffset when file `i` is reached. */
  function Cursor(files: seq<File>, i: nat): nat
    requires i <= |files|
    decreases 2 * i
  {
    if i == 0 then TABLE
    else if |files[i - 1].data| == 0 then Cursor(files, i - 1)
    else Spot(files, i - 1) + Rounded(|files[i - 1].data|)
  }

  /** Where file `i` goes. */
  function Spot(files: seq<File>, i: nat): nat
    requires i < |files|
    decreases 2 * i + 1
  {
    Place(Cursor(files, i), Rounded(|files[i].data|))
  }

  /** The table entry of file `i`; a delete icon left out is the view icon over again. */
  function EntryOf(files: seq<File>, i: nat): Entry
    requires i < |files| == NUM_OSD_FILES_ENTS
  {
    if |files[i].data| > 0 then Entry(Spot(files, i), |files[i].data|)
    else if i == OSD_DEL_ICON_INDEX then EntryOf(files, OSD_VIEW_ICON_INDEX)
    else Entry(0, 0)
  }

  /** What reading index `i` back should give. */
  function Installed(files: seq<File>, i: nat): seq<Byte>
    requires i < |files| == NUM_OSD_FILES_ENTS
  {
    if |files[i].data| == 0 && i == OSD_DEL_ICON_INDEX then files[OSD_VIEW_ICON_INDEX].data else files[i].data
  }

  /** File `i` can be installed: it is there or may be missing, and lies inside the area. */
  predicate FileOk(files: seq<File>, i: nat)
    requires i < |files|
  {
    if |files[i].data| == 0 then files[i].optional
    else Spot(files, i) + Rounded(|files[i].data|) <= AREA
  }

  lemma PlaceIsClear(offset: nat, length: nat)
    requires offset % 512 == 0 && length % 512 == 0
    ensures Place(offset, length) >= offset && Place(offset, length) % 512 == 0
    ensures Place(offset, length) + length <= HDL_GAME_DATA_OFFSET
            || Place(offset, length) >= HDL_GAME_DATA_OFFSET + 1024
  {
  }

  /** `length` bytes at `p` touch nothing of the game information. */
  predicate Clear(p: nat, length: nat) {
    p + length <= HDL_GAME_DATA_OFFSET || HDL_GAME_DATA_OFFSET + 1024 <= p
  }

  /** It is the first clear place from `offset` on. */
  lemma PlaceIsFirst(offset: nat, length: nat)
    requires length > 0
    ensures Clear(Place(offset, length), length) && offset <= Place(offset, length)
    ensures forall p :: offset <= p < Place(offset, length) ==> !Clear(p, length)
  {
  }

  /** A file goes to the first clear place behind the files before it. */
  lemma SpotIsFirst(files: seq<File>, i: nat)
    requires i < |files| && |files[i].data| > 0
    ensures Cursor(files, i) <= Spot(files, i) && Clear(Spot(files, i), Rounded(|files[i].data|))
    ensures forall p :: Cursor(files, i) <= p < Spot(files, i) ==> !Clear(p, Rounded(|files[i].data|))
    ensures forall k :: 0 <= k < i && |files[k].data| > 0 && (forall m :: k < m < i ==> |files[m].data| == 0) ==>
      Cursor(files, i) == Spot(files, k) + Rounded(|files[k].data|)
  {
    PlaceIsFirst(Cursor(files, i), Rounded(|files[i].data|));
    forall k | 0 <= k < i && |files[k].data| > 0 && forall m :: k < m < i ==> |files[m].data| == 0
      ensures Cursor(files, i) == Spot(files, k) + Rounded(|files[k].data|)
    {
      NothingBetween(files, k, i);
    }
  }

  lemma {:induction false} NothingBetween(files: seq<File>, k: nat, i: nat)
    requires k < i <= |files| && |files[k].data| > 0 && forall m :: k < m < i ==> |files[m].data| == 0
    ensures Cursor(files, i) == Spot(files, k) + Rounded(|files[k].data|)
    decreases i
  {
    if k < i - 1 {
      NothingBetween(files, k, i - 1);
    }
  }

  lemma {:induction false} CursorGrows(files: seq<File>, i: nat, j: nat)
    requires i <= j <= |files|
    ensures TABLE <= Cursor(files, i) <= Cursor(files, j) && Cursor(files, i) % 512 == 0
    decreases j, i
  {
    if i < j {
      CursorGrows(files, i, j - 1);
      CursorGrows(files, j - 1, j - 1);
      PlaceIsClear(Cursor(files, j - 1), Rounded(|files[j - 1].data|));
    } else if i > 0 {
      CursorGrows(files, i - 1, i - 1);
      PlaceIsClear(Cursor(files, i - 1), Rounded(|files[i - 1].data|));
    }
  }

  /** Installed files are aligned, apart from each other and clear of the table and of the game information. */
  lemma SpotsAreApart(files: seq<File>, i: nat)
    requires i < |files|
    ensures Spot(files, i) % 512 == 0 && TABLE <= Cursor(files, i) <= Spot(files, i)
    ensures Spot(files, i) + Rounded(|files[i].data|) <= HDL_GAME_DATA_OFFSET
            || HDL_GAME_DATA_OFFSET + 1024 <= Spot(files, i)
    ensures forall j :: i < j < |files| && |files[i].data| > 0 ==>
      Spot(files, i) + Rounded(|files[i].data|) <= Spot(files, j)
  {
    CursorGrows(files, i, i);
    PlaceIsClear(Cursor(files, i), Rounded(|files[i].data|));
    forall j | i < j < |files| && |files[i].data| > 0
      ensures Spot(files, i) + Rounded(|files[i].data|) <= Spot(files, j)
    {
      CursorGrows(files, i + 1, j);
      CursorGrows(files, j, j);
      PlaceIsClear(Cursor(files, j), Rounded(|files[j].data|));
    }
  }

  // ---------------------------------------------------------------- the table on the disk

  function Le32(x: nat): (r: seq<Byte>)
    requires x < U32_RANGE
    ensures |r| == 4
  {
    [(x % 256) as Byte, (x / 256 % 256) as Byte, (x / 256 / 256 % 256) as Byte, (x / 256 / 256 / 256) as Byte]
  }

  function Un32(b: seq<Byte>): nat
    requires |b| == 4
  {
    b[0] as int + 256 * b[1] as int + 65536 * b[2] as int + 16777216 * b[3] as int
  }

  lemma Le32RoundTrip(x: nat)
    requires x < U32_RANGE
    ensures Un32(Le32(x)) == x
  {
  }

  predicate Words(entries: seq<Entry>) {
    |entries| == NUM_OSD_FILES_ENTS
    && forall i :: 0 <= i < |entries| ==> entries[i].offset < U32_RANGE && entries[i].size < U32_RANGE
  }

  function EncodeEntry(e: Entry): (r: seq<Byte>)
    requires e.offset < U32_RANGE && e.size < U32_RANGE
    ensures |r| == 8
  {
    Le32(e.offset) + Le32(e.size)
  }

  function Magic(): (r: seq<Byte>)
    ensures |r| == 9
  {
    [80, 83, 50, 73, 67, 79, 78, 51, 68]
  }

  /** t_PartAttrTab: the magic, a version of zero and the five entries. */
  function EncodeTable(entries: seq<Entry>): (r: seq<Byte>)
    requires Words(entries)
    ensures |r| == TABLE
  {
    Magic() + Zeros(7) + EncodeEntry(entries[0]) + EncodeEntry(entries[1]) + EncodeEntry(entries[2])
    + EncodeEntry(entries[3]) + EncodeEntry(entries[4]) + Zeros(456)
  }

  function DecodeEntry(table: seq<Byte>, i: nat): Entry
    requires |table| == TABLE && i < NUM_OSD_FILES_ENTS
  {
    Entry(Un32(table[16 + 8 * i..20 + 8 * i]), Un32(table[20 + 8 * i..24 + 8 * i]))
  }

  /** The table on the disk gives the entries back. */
  lemma TableRoundTrip(entries: seq<Entry>, i: nat)
    requires Words(entries) && i < NUM_OSD_FILES_ENTS
    ensures DecodeEntry(EncodeTable(entries), i) == entries[i]
  {
    var table := EncodeTable(entries);
    assert table[16 + 8 * i..24 + 8 * i] == EncodeEntry(entries[i]) by {
      TableSlice(entries, i);
    }
    assert table[16 + 8 * i..20 + 8 * i] == table[16 + 8 * i..24 + 8 * i][..4] == Le32(entries[i].offset);
    assert table[20 + 8 * i..24 + 8 * i] == table[16 + 8 * i..24 + 8 * i][4..] == Le32(entries[i].size);
    Le32RoundTrip(entries[i].offset);
    Le32RoundTrip(entries[i].size);
  }

  lemma TableSlice(entries: seq<Entry>, i: nat)
    requires Words(entries) && i < NUM_OSD_FILES_ENTS
    ensures EncodeTable(entries)[16 + 8 * i..24 + 8 * i] == EncodeEntry(entries[i])
  {
    hide EncodeEntry;
  }

  // ---------------------------------------------------------------- the area during an installation

  function Padded(data: seq<Byte>): (r: seq<Byte>)
    ensures |r| == Rounded(|data|)
  {
    data + Zeros(Rounded(|data|) - |data|)
  }

  /** File `k`, if there is one, is in its place. */
  predicate InPlace(area: seq<Byte>, files: seq<File>, k: nat)
    requires k < |files|
  {
    |files[k].data| > 0 ==>
      Spot(files, k) + Rounded(|files[k].data|) <= |area|
      && area[Spot(files, k)..Spot(files, k) + Rounded(|files[k].data|)] == Padded(files[k].data)
  }

  /** Byte `b` is neither in the table nor in one of the files. */
  predicate Outside(files: seq<File>, b: nat) {
    b >= TABLE && forall k :: 0 <= k < |files| && |files[k].data| > 0 ==>
      !(Spot(files, k) <= b < Spot(files, k) + Rounded(|files[k].data|))
  }

  lemma GameInformationIsOutside(files: seq<File>, b: nat)
    requires HDL_GAME_DATA_OFFSET <= b < HDL_GAME_DATA_OFFSET + 1024
    ensures Outside(files, b)
  {
    forall k | 0 <= k < |files| ensures !(Spot(files, k) <= b < Spot(files, k) + Rounded(|files[k].data|)) {
      SpotsAreApart(files, k);
    }
  }

  /** The first `n` files are in place and nothing else has changed, the table aside. */
  ghost predicate Laid(area0: seq<Byte>, area: seq<Byte>, files: seq<File>, n: nat)
    requires n <= |files|
  {
    && |area| == |area0| == AREA
    && (forall k :: 0 <= k < n ==> InPlace(area, files, k))
    && forall b :: 0 <= b < AREA && Outside(files, b) ==> area[b] == area0[b]
  }

  lemma LaidNext(area0: seq<Byte>, area: seq<Byte>, files: seq<File>, n: nat)
    requires n < |files| && Laid(area0, area, files, n) && FileOk(files, n)
    ensures |files[n].data| > 0 ==> Laid(area0, Patch(area, Spot(files, n), Padded(files[n].data)), files, n + 1)
    ensures |files[n].data| == 0 ==> Laid(area0, area, files, n + 1)
  {
    if |files[n].data| > 0 {
      hide Spot, Padded, Patch, Rounded, Cursor;
      var at, piece := Spot(files, n), Padded(files[n].data);
      var area' := Patch(area, at, piece);
      PatchTakes(area, at, piece);
      forall k | 0 <= k < n ensures InPlace(area', files, k) {
        SpotsAreApart(files, k);
        if |files[k].data| > 0 {
          assert InPlace(area, files, k);
          PatchOutside(area, Spot(files, k), Spot(files, k) + Rounded(|files[k].data|), at, piece);
        }
      }
    }
  }

  lemma PatchTakes(s: seq<Byte>, at: nat, data: seq<Byte>)
    requires at + |data| <= |s|
    ensures Patch(s, at, data)[at..at + |data|] == data
    ensures forall b :: 0 <= b < |s| && !(at <= b < at + |data|) ==> Patch(s, at, data)[b] == s[b]
  {
  }

  /** Cut short, the write of a file stays inside that file's place or, past the end of the area, is not made. */
  lemma PartOnly(area0: seq<Byte>, area: seq<Byte>, files: seq<File>, n: nat, piece: seq<Byte>)
    requires n < |files| && Laid(area0, area, files, n) && |files[n].data| > 0
    requires |piece| <= Rounded(|files[n].data|) && Spot(files, n) + |piece| <= AREA
    ensures Laid(area0, Patch(area, Spot(files, n), piece), files, n)
  {
    hide Spot, Padded, Patch, Rounded, Cursor;
    PatchTakes(area, Spot(files, n), piece);
    var area' := Patch(area, Spot(files, n), piece);
    forall k | 0 <= k < n ensures InPlace(area', files, k) {
      SpotsAreApart(files, k);
      if |files[k].data| > 0 {
        assert InPlace(area, files, k);
        PatchOutside(area, Spot(files, k), Spot(files, k) + Rounded(|files[k].data|), Spot(files, n), piece);
      }
    }
  }

  lemma TableLeavesFiles(area0: seq<Byte>, area: seq<Byte>, files: seq<File>, n: nat, table: seq<Byte>)
    requires n <= |files| && Laid(area0, area, files, n) && |table| == TABLE
    ensures Laid(area0, Patch(area, 0, table), files, n) && Patch(area, 0, table)[..TABLE] == table
  {
    hide Spot, Padded, Patch, Rounded, Cursor;
    PatchTakes(area, 0, table);
    forall k | 0 <= k < n ensures InPlace(Patch(area, 0, table), files, k) {
      SpotsAreApart(files, k);
      if |files[k].data| > 0 {
        assert InPlace(area, files, k);
        PatchOutside(area, Spot(files, k), Spot(files, k) + Rounded(|files[k].data|), 0, table);
      }
    }
  }

  // ---------------------------------------------------------------- the driver's file and OSD.c

  /** It is not there, and may not be missing. */
  predicate IsMissing(file: File) {
    |file.data| == 0 && !file.optional
  }

  /** The first file that cannot be installed is one that is missing. */
  predicate StopsAtMissing(files: seq<File>, i: nat) {
    i < |files| && IsMissing(files[i]) && forall k :: 0 <= k < i ==> FileOk(files, k)
  }

  /** The attribute area as hdd_fio.c opens it; `post` counts sectors, and `fails` tells which transfers fail. */
  class Handle {
    const fails: nat -> bool
    var transfers: nat
    var area: seq<Byte>
    var post: nat

    ghost predicate Valid()
      reads this
    {
      |area| == AREA && post <= 0x1FF8
    }

    constructor (area: seq<Byte>, fails: nat -> bool)
      requires |area| == AREA
      ensures Valid() && this.area == area && this.fails == fails && post == transfers == 0
    {
      this.area, this.fails, post, transfers := area, fails, 0, 0;
    }

    /** fileXioOpen: the position is at the start. */
    method Open()
      requires Valid()
      modifies `post
      ensures Valid() && post == 0
    {
      post := 0;
    }

    /** hddLseek with SEEK_SET. */
    method Lseek(offset: nat) returns (rv: int)
      requires Valid()
      modifies `post
      ensures Valid()
      ensures if offset % 512 == 0 && offset <= AREA then rv == offset == 512 * post
              else rv == -EINVAL && post == old(post)
    {
      rv := -EINVAL;
      if offset % 512 == 0 && offset / 512 < 0x1FF9 {
        post := offset / 512;
        rv := 512 * post;
      }
    }

    /** hddWrite through fioDataTransfer: what lies past the end of the area is left out. */
    method Write(buffer: seq<Byte>) returns (rv: int)
      requires Valid() && |buffer| % 512 == 0
      modifies this
      ensures Valid() && transfers == old(transfers) + if Min(|buffer|, AREA - 512 * old(post)) == 0 then 0 else 1
      ensures rv == -EIO <==> SomeIn(fails, old(transfers), transfers)
      ensures rv == -EIO || rv == Min(|buffer|, AREA - 512 * old(post))
      ensures if rv < 0 then area == old(area) && post == old(post)
              else area == Patch(old(area), 512 * old(post), buffer[..rv]) && 512 * post == 512 * old(post) + rv
    {
      var size := |buffer| / 512;
      if post + size >= 0x1FF9 {
        size := 0x1FF8 - post;
      }
      rv := 512 * size;
      SomeInNone(fails, transfers);
      if size != 0 {
        transfers := transfers + 1;
        if fails(transfers - 1) {
          rv := -EIO;
          return;
        }
      }
      area := Patch(area, 512 * post, buffer[..rv]);
      post := post + size;
    }

    /** hddRead through fioDataTransfer. */
    method Read(length: nat) returns (rv: int, data: seq<Byte>)
      requires Valid() && length % 512 == 0
      modifies `post, `transfers
      ensures Valid() && transfers == old(transfers) + if Min(length, AREA - 512 * old(post)) == 0 then 0 else 1
      ensures rv == -EIO <==> SomeIn(fails, old(transfers), transfers)
      ensures rv == -EIO || rv == Min(length, AREA - 512 * old(post))
      ensures if rv < 0 then data == [] && post == old(post) else data == area[512 * old(post)..512 * old(post) + rv]
    {
      var size := length / 512;
      if post + size >= 0x1FF9 {
        size := 0x1FF8 - post;
      }
      rv, data := 512 * size, area[512 * post..512 * (post + size)];
      SomeInNone(fails, transfers);
      if size != 0 {
        transfers := transfers + 1;
        if fails(transfers - 1) {
          return -EIO, [];
        }
      }
      post := post + size;
    }

    /** InstallOSDFile; `offset` is PartExtAttrOffset, which keeps its value from one file to the next. */
    method InstallOSDFile(index: nat, files: seq<File>, entries0: seq<Entry>, offset0: nat, ghost area0: seq<Byte>)
      returns (result: int, entries: seq<Entry>, offset: nat)
      requires Valid() && index < |files| == NUM_OSD_FILES_ENTS && Laid(area0, area, files, index) && SizesOk(files)
      requires index > 0 ==> offset0 == Cursor(files, index) <= AREA && Described(entries0, files, index)
      modifies this
      ensures Valid() && Laid(area0, area, files, index) && Words(entries)
      ensures result >= 0 ==> FileOk(files, index) && Laid(area0, area, files, index + 1)
      ensures result >= 0 ==> offset == Cursor(files, index + 1) <= AREA && Described(entries, files, index + 1)
      ensures old(transfers) <= transfers
      ensures result >= 0 <==> FileOk(files, index) && !SomeIn(fails, old(transfers), transfers)
      ensures result < 0 ==> result == if IsMissing(files[index]) then -EINVAL else -EIO
    {
      hide Laid, Rounded, Padded, Patch, SomeIn;
      SomeInNone(fails, transfers);
      entries, offset := entries0, offset0;
      if index == 0 {
        entries, offset := seq(NUM_OSD_FILES_ENTS, _ => Entry(0, 0)), TABLE;
      }
      var data := files[index].data;
      LaidNextIf(area0, area, files, index);
      if |data| < 1 {
        result := -EINVAL;
        if files[index].optional {
          result := 0;
          if index == OSD_DEL_ICON_INDEX {
            entries := entries[index := entries[OSD_VIEW_ICON_INDEX]];
            result := entries[index].offset;
          }
        }
        return;
      }
      var lengthRoundedUp := Rounded(|data|);
      CursorGrows(files, index, index);
      PlaceIsClear(offset, lengthRoundedUp);
      offset := Place(offset, lengthRoundedUp);
      result := Lseek(offset);
      result := Write(Padded(data));
      if result < lengthRoundedUp {
        if result >= 0 {
          PartOnly(area0, old(area), files, index, Padded(data)[..result]);
        }
        result := -EIO;
      } else {
        assert Padded(data)[..result] == Padded(data);
        entries := entries[index := Entry(offset, |data|)];
        result := 0;
      }
      offset := offset + lengthRoundedUp;
    }

    /** InstallOSDFiles: the files one by one for as long as all goes well, then the table. */
    method InstallOSDFiles(files: seq<File>) returns (result: int)
      requires Valid() && |files| == NUM_OSD_FILES_ENTS && SizesOk(files)
      modifies this
      ensures Valid()
      ensures area[HDL_GAME_DATA_OFFSET..HDL_GAME_DATA_OFFSET + 1024]
           == old(area)[HDL_GAME_DATA_OFFSET..HDL_GAME_DATA_OFFSET + 1024]
      ensures old(transfers) <= transfers
      ensures result >= 0 <==>
        (forall i :: 0 <= i < |files| ==> FileOk(files, i)) && !SomeIn(fails, old(transfers), transfers)
      ensures result >= 0 ==> Complete(old(area), area, files)
      ensures result < 0 ==> result == -EIO || result == -EINVAL
      ensures !SomeIn(fails, old(transfers), transfers) ==>
        (result == -EINVAL <==> exists i :: StopsAtMissing(files, i))
    {
      hide Laid, FileOk, Described, Words, Cursor, SomeIn;
      SomeInNone(fails, transfers);
      ghost var area0 := area;
      Open();
      result := 0;
      var entries, offset := [], 0;
      NothingLaid(area, files);
      var i := 0;
      while result >= 0 && i < NUM_OSD_FILES_ENTS
        invariant 0 <= i <= NUM_OSD_FILES_ENTS && Valid() && Laid(area0, area, files, 0)
        invariant result >= 0 ==> Laid(area0, area, files, i) && forall k :: 0 <= k < i ==> FileOk(files, k)
        invariant i > 0 && result >= 0 ==> offset == Cursor(files, i) <= AREA && Described(entries, files, i)
        invariant (i > 0 ==> Words(entries)) && (result < 0 ==> i > 0)
        invariant old(transfers) <= transfers
        invariant result >= 0 ==> !SomeIn(fails, old(transfers), transfers)
        invariant result < 0 && !SomeIn(fails, old(transfers), transfers) ==> !FileOk(files, i - 1)
        invariant forall k :: 0 <= k < i - 1 ==> FileOk(files, k)
        invariant result < 0 ==> result == if IsMissing(files[i - 1]) then -EINVAL else -EIO
        decreases NUM_OSD_FILES_ENTS - i, result >= 0
      {
        ghost var before := transfers;
        result, entries, offset := InstallOSDFile(i, files, entries, offset, area0);
        NoneLaid(area0, area, files, i);
        SomeInSplits(fails, old(transfers), before, transfers);
        i := i + 1;
      }
      FirstMissing(files, i);
      var at := Lseek(0);
      var table := EncodeTable(entries);
      ghost var area1, before := area, transfers;
      var written := Write(table);
      if written >= 0 {
        assert table[..written] == table;
        TableLeavesFiles(area0, area1, files, if result >= 0 then NUM_OSD_FILES_ENTS else 0, table);
        NoneLaid(area0, area, files, if result >= 0 then NUM_OSD_FILES_ENTS else 0);
      } else {
        result := -EIO;
      }
      SomeInSplits(fails, old(transfers), before, transfers);
      GameInformationKept(area0, area, files);
    }

    /** GetOSDResourceFileStats and ReadOSDResourceFile for index `i`. */
    method ReadResource(i: nat) returns (result: int, buffer: seq<Byte>)
      requires Valid() && i < NUM_OSD_FILES_ENTS
      modifies `post, `transfers
      ensures Valid() && old(transfers) <= transfers
      ensures result == 0 || result == -EIO
      ensures SomeIn(fails, old(transfers), transfers) ==> result == -EIO
      ensures var e := DecodeEntry(area[..TABLE], i);
              e.offset % 512 == 0 && e.offset + Rounded(e.size) <= AREA ==>
                && (result == 0 <==> !SomeIn(fails, old(transfers), transfers))
                && (result == 0 ==> buffer == area[e.offset..e.offset + e.size])
    {
      hide SomeIn;
      buffer := [];
      Open();
      var rv, table := Read(TABLE);
      if rv != TABLE {
        return -EIO, buffer;
      }
      ghost var before := transfers;
      var e := DecodeEntry(table, i);
      Open();
      rv := Lseek(e.offset);
      var data;
      rv, data := Read(Rounded(e.size));
      SomeInSplits(fails, old(transfers), before, transfers);
      if rv != Rounded(e.size) {
        return -EIO, buffer;
      }
      result, buffer := 0, data[..e.size];
    }

    /** What has been installed can be read back, every index of it. */
    method InstallAndRead(files: seq<File>, i: nat) returns (installed: int, result: int, buffer: seq<Byte>)
      requires Valid() && |files| == NUM_OSD_FILES_ENTS && SizesOk(files) && i < NUM_OSD_FILES_ENTS
      modifies this
      ensures Valid()
      ensures installed >= 0 && result == 0 ==> buffer == Installed(files, i)
      ensures result == 0 || result == -EIO
      ensures old(transfers) <= transfers
      ensures (forall k :: 0 <= k < |files| ==> FileOk(files, k)) && !SomeIn(fails, old(transfers), transfers) ==>
        installed >= 0 && result == 0
    {
      hide Complete, SomeIn, FileOk;
      installed := InstallOSDFiles(files);
      ghost var before := transfers;
      result, buffer := ReadResource(i);
      SomeInSplits(fails, old(transfers), before, transfers);
      if installed >= 0 {
        EntryLeadsToFile(old(area), area, files, i);
      }
    }
  }

  predicate SizesOk(files: seq<File>) {
    forall i :: 0 <= i < |files| ==> |files[i].data| < 0x7FFF_FE00
  }

  /** All files are in place, the table tells where, and nothing else has changed. */
  ghost predicate Complete(area0: seq<Byte>, area: seq<Byte>, files: seq<File>)
    requires |files| == NUM_OSD_FILES_ENTS
  {
    && Laid(area0, area, files, NUM_OSD_FILES_ENTS)
    && exists entries :: Described(entries, files, NUM_OSD_FILES_ENTS) && area[..TABLE] == EncodeTable(entries)
  }

  lemma LaidNextIf(area0: seq<Byte>, area: seq<Byte>, files: seq<File>, n: nat)
    requires n < |files| && Laid(area0, area, files, n)
    ensures |area| == |area0| == AREA
    ensures FileOk(files, n) && |files[n].data| > 0 ==>
      Laid(area0, Patch(area, Spot(files, n), Padded(files[n].data)), files, n + 1)
    ensures FileOk(files, n) && |files[n].data| > 0 ==>
      Laid(area0, Patch(area, Spot(files, n), Padded(files[n].data)), files, n)
    ensures FileOk(files, n) && |files[n].data| == 0 ==> Laid(area0, area, files, n + 1)
  {
    if FileOk(files, n) {
      LaidNext(area0, area, files, n);
    }
  }

  lemma NothingLaid(area: seq<Byte>, files: seq<File>)
    requires |area| == AREA
    ensures Laid(area, area, files, 0)
  {
  }

  lemma NoneLaid(area0: seq<Byte>, area: seq<Byte>, files: seq<File>, n: nat)
    requires n <= |files| && Laid(area0, area, files, n)
    ensures Laid(area0, area, files, 0)
  {
  }

  lemma GameInformationKept(area0: seq<Byte>, area: seq<Byte>, files: seq<File>)
    requires Laid(area0, area, files, 0)
    ensures |area| == |area0| == AREA
    ensures area[HDL_GAME_DATA_OFFSET..HDL_GAME_DATA_OFFSET + 1024]
         == area0[HDL_GAME_DATA_OFFSET..HDL_GAME_DATA_OFFSET + 1024]
  {
    forall b | HDL_GAME_DATA_OFFSET <= b < HDL_GAME_DATA_OFFSET + 1024 ensures area[b] == area0[b] {
      GameInformationIsOutside(files, b);
    }
  }

  /** The entry of each index leads to what was installed under it. */
  lemma EntryLeadsToFile(area0: seq<Byte>, area: seq<Byte>, files: seq<File>, i: nat)
    requires |files| == NUM_OSD_FILES_ENTS && Complete(area0, area, files) && i < NUM_OSD_FILES_ENTS
    ensures |area| == AREA
    ensures var e := DecodeEntry(area[..TABLE], i);
            && e.offset % 512 == 0 && e.offset + Rounded(e.size) <= AREA
            && area[e.offset..e.offset + e.size] == Installed(files, i)
  {
    hide Spot, Padded, Rounded, DecodeEntry, EncodeTable;
    var entries :| Described(entries, files, NUM_OSD_FILES_ENTS) && area[..TABLE] == EncodeTable(entries);
    TableRoundTrip(entries, i);
    var k := if |files[i].data| == 0 && i == OSD_DEL_ICON_INDEX then OSD_VIEW_ICON_INDEX else i;
    assert InPlace(area, files, k);
    SpotsAreApart(files, k);
    assert entries[i] == EntryOf(files, k);
    if |files[k].data| > 0 {
      PaddedStarts(files[k].data);
      var at := Spot(files, k);
      assert area[at..at + |files[k].data|] == area[at..at + Rounded(|files[k].data|)][..|files[k].data|];
    } else {
      RoundedZero();
    }
  }

  /** Going through the files stops at the first that cannot be installed. */
  lemma FirstMissing(files: seq<File>, i: nat)
    requires i <= |files| && forall k :: 0 <= k < i - 1 ==> FileOk(files, k)
    ensures i > 0 && !FileOk(files, i - 1) ==>
      (IsMissing(files[i - 1]) <==> exists k :: StopsAtMissing(files, k))
    ensures (forall k :: 0 <= k < |files| ==> FileOk(files, k)) ==> !exists k :: StopsAtMissing(files, k)
  {
    forall k: nat | StopsAtMissing(files, k) ensures k < |files| && !FileOk(files, k) {
    }
    if i > 0 && IsMissing(files[i - 1]) {
      assert StopsAtMissing(files, i - 1);
    }
  }

  lemma RoundedZero()
    ensures Rounded(0) == 0
  {
  }

  lemma PaddedStarts(data: seq<Byte>)
    ensures Padded(data)[..|data|] == data
  {
  }

  /** The entries of the first `n` files, and zeros behind them. */
  predicate Described(entries: seq<Entry>, files: seq<File>, n: nat)
    requires n <= |files| == NUM_OSD_FILES_ENTS
  {
    |entries| == NUM_OSD_FILES_ENTS && Words(entries)
    && forall i :: 0 <= i < |entries| ==> entries[i] == if i < n then EntryOf(files, i) else Entry(0, 0)
  }
}
