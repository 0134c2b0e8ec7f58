/** The glyph atlases of font.c: packing glyphs behind two frontiers, and finding them again. */
module FontAtlas {
  import opened Common

  const FNT_ATLAS_WIDTH := 128
  const FNT_ATLAS_HEIGHT := 128

  datatype Frontier = Frontier(x: int, y: int, width: int, height: int)

  /** struct FontGlyphSlot: where the glyph of a character lies. */
  datatype Glyph = Glyph(character: int, x: int, y: int, width: nat, height: nat)

  /** struct FontAtlas; `horizontal` and `vertical` are its two frontiers. */
  datatype Atlas = Atlas(used: bool, horizontal: Frontier, vertical: Frontier, glyphs: seq<Glyph>)

  const EMPTY := Atlas(false, Frontier(0, 0, 0, 0), Frontier(0, 0, 0, 0), [])

  /** The glyph behind the frontier has room for one of this size and the pixel it is given more. */
  predicate Room(f: Frontier, width: nat, height: nat) {
    f.width >= width + 1 && f.height >= height + 1
  }

  /** The atlas takes a glyph of this size: the first one unseen. */
  predicate HasRoom(a: Atlas, width: nat, height: nat) {
    !a.used || Room(a.horizontal, width, height) || Room(a.vertical, width, height)
  }

  /** AtlasAlloc: the new atlas, with one glyph more unless there is no room. */
  function Alloc(a: Atlas, character: int, width: nat, height: nat): Atlas {
    var h, v := a.horizontal, a.vertical;
    if !a.used then
      Atlas(true, Frontier(width + 1, 0, FNT_ATLAS_WIDTH - (width + 1), FNT_ATLAS_HEIGHT),
            Frontier(0, height + 1, FNT_ATLAS_WIDTH, FNT_ATLAS_HEIGHT - (height + 1)),
            a.glyphs + [Glyph(character, 0, 0, width, height)])
    else if Room(h, width, height) then
      a.(horizontal := h.(x := h.x + width + 1, width := h.width - (width + 1)),
         vertical := if h.y + height + 1 > v.y then v.(y := h.y + height + 1) else v,
         glyphs := a.glyphs + [Glyph(character, h.x, h.y, width, height)])
    else if Room(v, width, height) then
      a.(horizontal := Frontier(width + 1, v.y, FNT_ATLAS_WIDTH - (width + 1), v.height),
         vertical := v.(y := v.y + height + 1, height := v.height - (height + 1)),
         glyphs := a.glyphs + [Glyph(character, v.x, v.y, width, height)])
    else a
  }

  // ---------------------------------------------------------------- glyphs stand in rows

  /** The bottom of the lowest cell. */
  function Lowest(glyphs: seq<Glyph>): int {
    var k := |glyphs| - 1;
    if k < 0 then 0 else if Bottom(glyphs[k]) > Lowest(glyphs[..k]) then Bottom(glyphs[k]) else Lowest(glyphs[..k])
  }

  /** The heights of all rows together, each counted as high as the cell at its left edge. */
  function Rows(glyphs: seq<Glyph>): nat {
    var k := |glyphs| - 1;
    if k < 0 then 0 else Rows(glyphs[..k]) + if glyphs[k].x == 0 then glyphs[k].height + 1 else 0
  }

  /** The same without the last row. */
  function RowsAbove(glyphs: seq<Glyph>): nat {
    var k := |glyphs| - 1;
    if k < 0 then 0 else if glyphs[k].x == 0 then Rows(glyphs[..k]) else RowsAbove(glyphs[..k])
  }

  /**
   One more glyph in words of the glyphs alone: right behind the last one if the row has room, else at the left edge
   below all others, if there is room there.
   */
  function Placed(glyphs: seq<Glyph>, character: int, width: nat, height: nat): seq<Glyph> {
    var k := |glyphs| - 1;
    if k < 0 then [Glyph(character, 0, 0, width, height)]
    else if Right(glyphs[k]) + width + 1 <= FNT_ATLAS_WIDTH && RowsAbove(glyphs) + height + 1 <= FNT_ATLAS_HEIGHT then
      glyphs + [Glyph(character, Right(glyphs[k]), glyphs[k].y, width, height)]
    else if width + 1 <= FNT_ATLAS_WIDTH && Rows(glyphs) + height + 1 <= FNT_ATLAS_HEIGHT then
      glyphs + [Glyph(character, 0, Lowest(glyphs), width, height)]
    else glyphs
  }

  /** The frontiers say nothing that the glyphs do not. */
  predicate InRows(a: Atlas) {
    var k := |a.glyphs| - 1;
    && (a.used <==> k >= 0)
    && (k >= 0 ==>
          && 0 <= a.glyphs[k].x
          && a.horizontal == Frontier(Right(a.glyphs[k]), a.glyphs[k].y, FNT_ATLAS_WIDTH - Right(a.glyphs[k]),
                                      FNT_ATLAS_HEIGHT - RowsAbove(a.glyphs))
          && a.vertical == Frontier(0, Lowest(a.glyphs), FNT_ATLAS_WIDTH, FNT_ATLAS_HEIGHT - Rows(a.glyphs)))
  }

  /** The frontiers are a fast form of that. */
  lemma AllocInRows(a: Atlas, character: int, width: nat, height: nat)
    requires InRows(a)
    ensures InRows(Alloc(a, character, width, height))
    ensures Alloc(a, character, width, height).glyphs == Placed(a.glyphs, character, width, height)
  {
    var glyphs := Alloc(a, character, width, height).glyphs;
    if |a.glyphs| > 0 {
      assert glyphs == a.glyphs || glyphs[..|a.glyphs|] == a.glyphs;
      LowestIsLow(a.glyphs);
    }
  }

  lemma LowestIsLow(glyphs: seq<Glyph>)
    requires |glyphs| > 0
    ensures Bottom(glyphs[|glyphs| - 1]) <= Lowest(glyphs)
  {
  }

  function PlacedAll(sizes: seq<Size>): seq<Glyph> {
    var k := |sizes| - 1;
    if k < 0 then [] else Placed(PlacedAll(sizes[..k]), sizes[k].character, sizes[k].width, sizes[k].height)
  }

  /** So whatever comes, glyph after glyph goes where the glyphs before it say. */
  lemma {:induction false} GlyphsStandInRows(sizes: seq<Size>)
    ensures InRows(AllocAll(EMPTY, sizes)) && AllocAll(EMPTY, sizes).glyphs == PlacedAll(sizes)
  {
    if |sizes| > 0 {
      var k := |sizes| - 1;
      GlyphsStandInRows(sizes[..k]);
      AllocInRows(AllocAll(EMPTY, sizes[..k]), sizes[k].character, sizes[k].width, sizes[k].height);
    }
  }

  // ---------------------------------------------------------------- glyphs do not overlap

  /** A glyph's cell ends one pixel behind the glyph, for texel rendering. */
  function Right(g: Glyph): int {
    g.x + g.width + 1
  }

  function Bottom(g: Glyph): int {
    g.y + g.height + 1
  }

  predicate Apart(g: Glyph, h: Glyph) {
    Right(g) <= h.x || Right(h) <= g.x || Bottom(g) <= h.y || Bottom(h) <= g.y
  }

  /** The frontiers are where the packing left them: every cell lies behind them. */
  predicate Layout(a: Atlas) {
    && (a.used <==> a.glyphs != [])
    && (a.used ==> FrontiersOk(a))
    && (forall i :: 0 <= i < |a.glyphs| ==> Behind(a, a.glyphs[i]))
    && forall i, j :: 0 <= i < j < |a.glyphs| ==> Apart(a.glyphs[i], a.glyphs[j])
  }

  predicate FrontiersOk(a: Atlas) {
    && 1 <= a.horizontal.x && 0 <= a.horizontal.width && a.horizontal.x + a.horizontal.width == FNT_ATLAS_WIDTH
    && 0 <= a.horizontal.y <= a.vertical.y && 0 <= a.vertical.height < a.horizontal.height <= FNT_ATLAS_HEIGHT
    && a.vertical.x == 0 && a.vertical.width == FNT_ATLAS_WIDTH
    && a.horizontal.y <= 128 * (128 - a.horizontal.height) && a.vertical.y <= 128 * (128 - a.vertical.height)
  }

  predicate Behind(a: Atlas, g: Glyph) {
    && 0 <= g.x && 0 <= g.y && Right(g) <= FNT_ATLAS_WIDTH && Bottom(g) <= a.vertical.y
    && (Bottom(g) <= a.horizontal.y || Right(g) <= a.horizontal.x)
  }

  /** What a glyph must be for the empty atlas: its size is not looked at there. */
  predicate FitsAlone(width: nat, height: nat) {
    width + 1 <= FNT_ATLAS_WIDTH && height + 1 <= FNT_ATLAS_HEIGHT
  }

  /** However an atlas was filled, one more glyph overlaps none before it and stays inside the right edge. */
  lemma AllocKeepsLayout(a: Atlas, character: int, width: nat, height: nat)
    requires Layout(a) && (a.used || FitsAlone(width, height))
    ensures Layout(Alloc(a, character, width, height))
  {
    var b := Alloc(a, character, width, height);
    if b != a {
      var g := b.glyphs[|a.glyphs|];
      forall i | 0 <= i < |a.glyphs| ensures Behind(b, a.glyphs[i]) && Apart(a.glyphs[i], g) {
        assert Behind(a, a.glyphs[i]);
      }
    }
  }

  /** Frontiers and cells are `short` numbers. */
  lemma LayoutIsShort(a: Atlas, i: nat)
    requires Layout(a) && i < |a.glyphs|
    ensures a.vertical.y < 0x8000 && Bottom(a.glyphs[i]) < 0x8000
  {
    assert Behind(a, a.glyphs[i]);
  }

  datatype Size = Size(character: int, width: nat, height: nat)

  function AllocAll(a: Atlas, sizes: seq<Size>): Atlas {
    if |sizes| == 0 then a
    else
      var k := |sizes| - 1;
      Alloc(AllocAll(a, sizes[..k]), sizes[k].character, sizes[k].width, sizes[k].height)
  }

  /** So for any sequence of glyphs whose first one fits: no two cells overlap, and none passes the right edge. */
  lemma {:induction false} CellsNeverOverlap(sizes: seq<Size>)
    requires |sizes| > 0 ==> FitsAlone(sizes[0].width, sizes[0].height)
    ensures Layout(AllocAll(EMPTY, sizes))
    ensures AllocAll(EMPTY, sizes).used <==> |sizes| > 0
  {
    if |sizes| > 0 {
      var k := |sizes| - 1;
      CellsNeverOverlap(sizes[..k]);
      AllocKeepsLayout(AllocAll(EMPTY, sizes[..k]), sizes[k].character, sizes[k].width, sizes[k].height);
    }
  }

  // ---------------------------------------------------------------- the bottom edge

  predicate InsideBottom(a: Atlas) {
    forall i :: 0 <= i < |a.glyphs| ==> Bottom(a.glyphs[i]) <= FNT_ATLAS_HEIGHT
  }

  /** Neither frontier claims room below the bottom edge. */
  predicate Safe(a: Atlas) {
    && (a.horizontal.width < 1 || a.horizontal.y + a.horizontal.height <= FNT_ATLAS_HEIGHT)
    && (a.vertical.height < 1 || a.vertical.y + a.vertical.height <= FNT_ATLAS_HEIGHT)
  }

  /** No glyph whatever its size will be put past the bottom edge by the next call. */
  ghost predicate NextIsInside(a: Atlas) {
    forall width: nat, height: nat ::
      var b := Alloc(a, 0, width, height);
      |b.glyphs| > |a.glyphs| ==> Bottom(b.glyphs[|b.glyphs| - 1]) <= FNT_ATLAS_HEIGHT
  }

  /** The next call keeps to the bottom edge for every size exactly when no frontier reaches past it. */
  lemma InsideIffSafe(a: Atlas)
    requires Layout(a) && a.used
    ensures NextIsInside(a) <==> Safe(a)
  {
    if !Safe(a) {
      if a.horizontal.width >= 1 && a.horizontal.y + a.horizontal.height > FNT_ATLAS_HEIGHT {
        var b := Alloc(a, 0, 0, a.horizontal.height - 1);
        assert Bottom(b.glyphs[|b.glyphs| - 1]) > FNT_ATLAS_HEIGHT;
      } else {
        var b := Alloc(a, 0, FNT_ATLAS_WIDTH - 1, a.vertical.height - 1);
        assert Bottom(b.glyphs[|b.glyphs| - 1]) > FNT_ATLAS_HEIGHT;
      }
    }
  }

  /** Both frontiers end at the bottom edge. */
  predicate Tight(a: Atlas) {
    && a.horizontal.y + a.horizontal.height == FNT_ATLAS_HEIGHT
    && a.vertical.y + a.vertical.height == FNT_ATLAS_HEIGHT
  }

  /** The glyph goes beside others and is taller than the one that opened their row. */
  predicate Taller(a: Atlas, width: nat, height: nat) {
    a.used && Room(a.horizontal, width, height) && a.horizontal.y + height + 1 > a.vertical.y
  }

  /**
   A taller glyph moves the vertical frontier but does not shorten it: from there on glyphs can pass the bottom edge.
   */
  lemma TallerSpoils(a: Atlas, character: int, width: nat, height: nat)
    requires Layout(a) && a.used && Tight(a)
    ensures var b := Alloc(a, character, width, height);
            Safe(b) <==> !Taller(a, width, height) || a.vertical.height == 0
  {
  }

  predicate NoneTaller(sizes: seq<Size>) {
    forall k :: 0 <= k < |sizes| ==> !Taller(AllocAll(EMPTY, sizes[..k]), sizes[k].width, sizes[k].height)
  }

  /** As long as no glyph is taller than the one that opened its row, all cells stay inside the bottom edge. */
  lemma {:induction false} NoneTallerStaysInside(sizes: seq<Size>)
    requires |sizes| > 0 && FitsAlone(sizes[0].width, sizes[0].height) && NoneTaller(sizes)
    ensures Tight(AllocAll(EMPTY, sizes)) && InsideBottom(AllocAll(EMPTY, sizes))
  {
    var k := |sizes| - 1;
    CellsNeverOverlap(sizes[..k]);
    assert !Taller(AllocAll(EMPTY, sizes[..k]), sizes[k].width, sizes[k].height);
    if k > 0 {
      forall j | 0 <= j < k
        ensures !Taller(AllocAll(EMPTY, sizes[..k][..j]), sizes[..k][j].width, sizes[..k][j].height)
      {
        assert sizes[..k][..j] == sizes[..j];
      }
      NoneTallerStaysInside(sizes[..k]);
    } else {
      assert sizes[..k] == [];
    }
  }

  /** A small glyph, a tall one beside it and a wide one below them: the last passes the bottom edge by 89 pixels. */
  lemma BottomCanBePassed()
    ensures var a := AllocAll(EMPTY, [Size(0, 10, 10), Size(1, 10, 100), Size(2, 120, 115)]);
            |a.glyphs| == 3 && Bottom(a.glyphs[2]) == FNT_ATLAS_HEIGHT + 89
  {
    var sizes := [Size(0, 10, 10), Size(1, 10, 100), Size(2, 120, 115)];
    assert sizes[..1][..0] == [] && sizes[..2][..1] == sizes[..1];
    assert AllocAll(EMPTY, sizes[..1][..0]) == EMPTY;
    var a1 := AllocAll(EMPTY, sizes[..1]);
    assert a1 == Alloc(EMPTY, 0, 10, 10);
    var a2 := AllocAll(EMPTY, sizes[..2]);
    assert a2 == Alloc(a1, 1, 10, 100);
  }

  // ---------------------------------------------------------------- finding glyphs

  const FNT_MAX_ATLASES := 4

  /** Where a glyph was found: atlas and slot. */
  datatype Place = Missing | At(atlas: nat, slot: nat)

  predicate HasGlyph(atlases: seq<Atlas>, p: Place, character: int) {
    && p.At? && p.atlas < |atlases| && p.slot < |atlases[p.atlas].glyphs|
    && atlases[p.atlas].glyphs[p.slot].character == character
  }

  /** No character has two glyphs. */
  ghost predicate Unique(atlases: seq<Atlas>) {
    forall p, q, c :: HasGlyph(atlases, p, c) && HasGlyph(atlases, q, c) ==> p == q
  }

  class Font {
    var atlases: seq<Atlas>

    ghost predicate Valid()
      reads this
    {
      |atlases| == FNT_MAX_ATLASES && Unique(atlases)
    }

    /** The atlases are packed as above; they stay so as long as every glyph is one that fits an empty atlas. */
    ghost predicate Packed()
      reads this
    {
      forall i :: 0 <= i < |atlases| ==> Layout(atlases[i])
    }

    constructor ()
      ensures Valid() && Packed() && forall i :: 0 <= i < |atlases| ==> atlases[i] == EMPTY
    {
      atlases := seq(FNT_MAX_ATLASES, _ => EMPTY);
    }

    /** AtlasAlloc on atlas `i`, the character noted at once. */
    method AtlasAlloc(i: nat, character: int, width: nat, height: nat) returns (done: bool)
      requires i < |atlases|
      modifies this
      ensures atlases == old(atlases)[i := Alloc(old(atlases[i]), character, width, height)]
      ensures done <==> |atlases[i].glyphs| == old(|atlases[i].glyphs|) + 1
      ensures !done ==> atlases == old(atlases)
    {
      var a := atlases[i];
      done := true;
      if !a.used {
        a := a.(used := true, glyphs := a.glyphs + [Glyph(character, 0, 0, width, height)]);
        a := a.(horizontal := Frontier(width + 1, 0, FNT_ATLAS_WIDTH - (width + 1), FNT_ATLAS_HEIGHT));
        a := a.(vertical := Frontier(0, height + 1, FNT_ATLAS_WIDTH, FNT_ATLAS_HEIGHT - (height + 1)));
      } else if a.horizontal.width >= width + 1 && a.horizontal.height >= height + 1 {
        a := a.(glyphs := a.glyphs + [Glyph(character, a.horizontal.x, a.horizontal.y, width, height)]);
        a := a.(horizontal := a.horizontal.(
                  x := a.horizontal.x + width + 1, width := a.horizontal.width - (width + 1)));
        if a.horizontal.y + height + 1 > a.vertical.y {
          a := a.(vertical := a.vertical.(y := a.horizontal.y + height + 1));
        }
      } else if a.vertical.width >= width + 1 && a.vertical.height >= height + 1 {
        a := a.(glyphs := a.glyphs + [Glyph(character, a.vertical.x, a.vertical.y, width, height)]);
        a := a.(horizontal := Frontier(width + 1, a.vertical.y, FNT_ATLAS_WIDTH - (width + 1), a.vertical.height));
        a := a.(vertical := a.vertical.(height := a.vertical.height - (height + 1), y := a.vertical.y + height + 1));
      } else {
        done := false;
      }
      atlases := atlases[i := a];
    }

    /** UploadGlyph: the first atlas that has room takes it. */
    method UploadGlyph(character: int, width: nat, height: nat) returns (p: Place)
      requires Valid() && forall q :: !HasGlyph(atlases, q, character)
      modifies this
      ensures Valid() && (old(Packed()) && FitsAlone(width, height) ==> Packed())
      ensures p.Missing? <==> forall i :: 0 <= i < |old(atlases)| ==> !HasRoom(old(atlases)[i], width, height)
      ensures p.Missing? ==> atlases == old(atlases)
      ensures p.At? ==> HasGlyph(atlases, p, character) && p.slot == |old(atlases)[p.atlas].glyphs|
      ensures p.At? ==> IsFirstWithRoom(old(atlases), p.atlas, width, height)
      ensures p.At? ==> atlases == old(atlases)[p.atlas := Alloc(old(atlases)[p.atlas], character, width, height)]
      ensures p.At? ==> forall q, c :: HasGlyph(atlases, q, c) <==>
        HasGlyph(old(atlases), q, c) || (q == p && c == character)
    {
      hide Alloc, Layout, FitsAlone, HasRoom;
      p := Missing;
      var i := 0;
      while i < FNT_MAX_ATLASES
        invariant 0 <= i <= FNT_MAX_ATLASES && atlases == old(atlases) && p.Missing?
        invariant forall j :: 0 <= j < i ==> !HasRoom(atlases[j], width, height)
      {
        ghost var before := atlases;
        if Layout(atlases[i]) && FitsAlone(width, height) {
          AllocKeepsLayout(atlases[i], character, width, height);
        }
        AllocAppends(atlases[i], character, width, height);
        var done := AtlasAlloc(i, character, width, height);
        if done {
          p := At(i, |atlases[i].glyphs| - 1);
          OneGlyphMore(before, atlases, p, character);
          return;
        }
        i := i + 1;
      }
    }

    /** The scan at the start of GetGlyph. */
    method FindGlyph(character: int) returns (p: Place)
      ensures p.At? ==> HasGlyph(atlases, p, character)
      ensures p.Missing? ==> forall q :: !HasGlyph(atlases, q, character)
    {
      var i := 0;
      while i < |atlases|
        invariant 0 <= i <= |atlases|
        invariant forall q :: HasGlyph(atlases, q, character) ==> q.atlas >= i
      {
        var slot := 0;
        while slot < |atlases[i].glyphs|
          invariant 0 <= slot <= |atlases[i].glyphs|
          invariant forall q :: HasGlyph(atlases, q, character) ==> q.atlas > i || (q.atlas == i && q.slot >= slot)
        {
          if atlases[i].glyphs[slot].character == character {
            return At(i, slot);
          }
          slot := slot + 1;
        }
        i := i + 1;
      }
      p := Missing;
    }

    /**
     GetGlyph; `known` says that the font has the character or that its missing-glyph sign is to be drawn, and
     `loaded` that FreeType renders it, in the given size. A character is uploaded once and found from then on.
     */
    method GetGlyph(character: int, known: bool, loaded: bool, width: nat, height: nat) returns (result: int, p: Place)
      requires Valid()
      modifies this
      ensures Valid() && (old(Packed()) && FitsAlone(width, height) ==> Packed())
      ensures result == 0 <==> p.At?
      ensures result == 0 ==> HasGlyph(atlases, p, character)
      ensures (exists q :: HasGlyph(old(atlases), q, character)) ==> result == 0 && atlases == old(atlases)
      ensures result != 0 ==> atlases == old(atlases) && (result == 1 <==> !known)
      ensures result == 0 <==>
        || (exists q :: HasGlyph(old(atlases), q, character))
        || (known && loaded && exists i :: 0 <= i < |old(atlases)| && HasRoom(old(atlases)[i], width, height))
      ensures result == 0 && (forall q :: !HasGlyph(old(atlases), q, character)) ==>
        && IsFirstWithRoom(old(atlases), p.atlas, width, height)
        && atlases == old(atlases)[p.atlas := Alloc(old(atlases)[p.atlas], character, width, height)]
      ensures forall q, c :: HasGlyph(atlases, q, c) <==>
        HasGlyph(old(atlases), q, c) || (q == p && c == character && result == 0)
    {
      hide Alloc, Layout, FitsAlone, Unique, HasRoom;
      p := FindGlyph(character);
      if p.At? {
        result := 0;
        FoundIsThere(atlases, p, character);
      } else if known {
        result := -1;
        if loaded {
          p := UploadGlyph(character, width, height);
          if p.At? {
            result := 0;
          }
        }
      } else {
        result := 1;
      }
    }
  }

  lemma FoundIsThere(atlases: seq<Atlas>, p: Place, character: int)
    requires HasGlyph(atlases, p, character)
    ensures forall q, c :: HasGlyph(atlases, q, c) <==> HasGlyph(atlases, q, c) || (q == p && c == character)
  {
  }

  /** Atlas `i` is the first that has room for a glyph of this size. */
  predicate IsFirstWithRoom(atlases: seq<Atlas>, i: nat, width: nat, height: nat) {
    && i < |atlases| && HasRoom(atlases[i], width, height)
    && forall j :: 0 <= j < i ==> !HasRoom(atlases[j], width, height)
  }

  lemma AllocAppends(a: Atlas, character: int, width: nat, height: nat)
    ensures var b := Alloc(a, character, width, height);
            && (HasRoom(a, width, height) <==> b != a)
            && (b == a || (|b.glyphs| == |a.glyphs| + 1
                       && b.glyphs[..|a.glyphs|] == a.glyphs && b.glyphs[|a.glyphs|].character == character))
  {
  }

  /** A glyph added at the end of one atlas leaves every other where it was. */
  lemma OneGlyphMore(before: seq<Atlas>, after: seq<Atlas>, p: Place, character: int)
    requires p.At? && p.atlas < |before| == |after| && after == before[p.atlas := after[p.atlas]]
    requires var former, latter := before[p.atlas].glyphs, after[p.atlas].glyphs;
             && p.slot == |former| && |latter| == |former| + 1 && latter[..|former|] == former
             && latter[|former|].character == character
    requires Unique(before) && forall q :: !HasGlyph(before, q, character)
    ensures forall q, c :: HasGlyph(after, q, c) <==> HasGlyph(before, q, c) || (q == p && c == character)
    ensures Unique(after)
  {
    forall q, c | true
      ensures HasGlyph(after, q, c) <==> HasGlyph(before, q, c) || (q == p && c == character)
    {
      if q.At? && q.atlas == p.atlas && q.slot < |before[p.atlas].glyphs| {
        assert after[p.atlas].glyphs[..|before[p.atlas].glyphs|][q.slot] == before[p.atlas].glyphs[q.slot];
      }
    }
  }
}
