/** The flat array of bytes that the slices of a mounted game form. */
module HdlfsFlat {
  import opened Common
  import opened HdlfsTable

  /** A table the driver can serve: what Format writes for partitions that lie apart on one disk. */
  predicate Table(specs: seq<PartSpec>, parts: seq<Part>, diskLength: nat) {
    && 0 < |parts| <= MAX_PARTS == |specs|
    && (forall i :: 0 <= i < |parts| ==> SpecFits(specs[i], parts[i], i, diskLength))
    && (forall i :: |parts| <= i < MAX_PARTS ==> specs[i] == NO_SPEC)
    && specs[0].partOffset == 0
    && (forall i :: 0 <= i < |parts| - 1 ==> specs[i + 1].partOffset == specs[i].partOffset + Count(specs[i]))
    && forall i, j :: 0 <= i < |parts| && 0 <= j < |parts| && i != j ==> Apart(parts[i], parts[j])
  }

  /** CD sectors of a slice. */
  function Count(spec: PartSpec): nat {
    spec.partSize / 2048
  }

  predicate SpecFits(spec: PartSpec, part: Part, i: nat, diskLength: nat) {
    && spec.partSize == 2048 * Count(spec) && spec.partSize < U32_RANGE
    && spec.dataStart == part.start + Reserved(i)
    && Reserved(i) + 4 * Count(spec) <= part.length
    && 512 * (part.start + part.length) <= diskLength
    && part.start + part.length <= U32_RANGE
  }

  predicate Apart(p: Part, q: Part) {
    p.start + p.length <= q.start || q.start + q.length <= p.start
  }

  /** The bytes of one slice. */
  function SliceData(disk: seq<Byte>, spec: PartSpec): seq<Byte>
    requires 512 * spec.dataStart + spec.partSize <= |disk|
  {
    disk[512 * spec.dataStart..512 * spec.dataStart + spec.partSize]
  }

  function Slices(disk: seq<Byte>, specs: seq<PartSpec>, parts: seq<Part>): (r: seq<seq<Byte>>)
    requires Table(specs, parts, |disk|)
    ensures |r| == |parts|
  {
    seq(|parts|, i requires 0 <= i < |parts| =>
          assert SpecFits(specs[i], parts[i], i, |disk|); SliceData(disk, specs[i]))
  }

  /** The game as one linear device. */
  function Flat(disk: seq<Byte>, specs: seq<PartSpec>, parts: seq<Part>): seq<Byte>
    requires Table(specs, parts, |disk|)
  {
    Flatten(Slices(disk, specs, parts))
  }

  /** CD sectors of the mounted game. */
  function Sectors(specs: seq<PartSpec>, parts: seq<Part>): nat
    requires 0 < |parts| <= |specs|
  {
    specs[|parts| - 1].partOffset + Count(specs[|parts| - 1])
  }

  lemma {:induction false} PrefixLength(disk: seq<Byte>, specs: seq<PartSpec>, parts: seq<Part>, k: nat)
    requires Table(specs, parts, |disk|) && k < |parts|
    ensures |Flatten(Slices(disk, specs, parts)[..k])| == 2048 * specs[k].partOffset
  {
    var ss := Slices(disk, specs, parts);
    if k > 0 {
      PrefixLength(disk, specs, parts, k - 1);
      assert SpecFits(specs[k - 1], parts[k - 1], k - 1, |disk|);
      assert ss[..k] == ss[..k - 1] + [ss[k - 1]];
      FlattenSnoc(ss[..k - 1], ss[k - 1]);
    }
  }

  lemma FlatLength(disk: seq<Byte>, specs: seq<PartSpec>, parts: seq<Part>)
    requires Table(specs, parts, |disk|)
    ensures |Flat(disk, specs, parts)| == 2048 * Sectors(specs, parts)
  {
    var ss, k := Slices(disk, specs, parts), |parts| - 1;
    PrefixLength(disk, specs, parts, k);
    assert SpecFits(specs[k], parts[k], k, |disk|);
    assert ss == ss[..k] + [ss[k]];
    FlattenSnoc(ss[..k], ss[k]);
  }

  lemma Rejoined<T>(s: seq<T>, k: nat)
    requires k < |s|
    ensures (s[..k] + [s[k]]) + s[k + 1..] == s
  {
  }

  /** The joined slices around one of them. */
  lemma FlattenAround(ss: seq<seq<Byte>>, k: nat)
    requires k < |ss|
    ensures Flatten(ss) == Flatten(ss[..k]) + ss[k] + Flatten(ss[k + 1..])
  {
    hide Flatten;
    var head, tail := ss[..k], ss[k + 1..];
    FlattenSnoc(head, ss[k]);
    FlattenConcat(head + [ss[k]], tail);
    assert (head + [ss[k]]) + tail == ss by {
      Rejoined(ss, k);
    }
  }

  /** A piece of one slice is a piece of the joined slices. */
  lemma FlattenPiece(ss: seq<seq<Byte>>, k: nat, at: nat, count: nat)
    requires k < |ss| && at + count <= |ss[k]|
    ensures |Flatten(ss[..k])| + at + count <= |Flatten(ss)|
    ensures Flatten(ss)[|Flatten(ss[..k])| + at..|Flatten(ss[..k])| + at + count] == ss[k][at..at + count]
  {
    FlattenAround(ss, k);
    var pre := Flatten(ss[..k]);
    assert Flatten(ss)[|pre| + at..|pre| + at + count] == ss[k][at..at + count];
  }

  lemma PatchMiddle(pre: seq<Byte>, s: seq<Byte>, post: seq<Byte>, at: nat, data: seq<Byte>)
    requires at + |data| <= |s|
    ensures pre + Patch(s, at, data) + post == Patch(pre + s + post, |pre| + at, data)
  {
  }

  /** Storing into one slice is storing into the joined slices. */
  lemma FlattenPatch(ss: seq<seq<Byte>>, k: nat, at: nat, data: seq<Byte>)
    requires k < |ss| && at + |data| <= |ss[k]|
    ensures |Flatten(ss[..k])| + at + |data| <= |Flatten(ss)|
    ensures Flatten(ss[k := Patch(ss[k], at, data)]) == Patch(Flatten(ss), |Flatten(ss[..k])| + at, data)
  {
    hide Flatten, Patch;
    var ss' := ss[k := Patch(ss[k], at, data)];
    FlattenAround(ss, k);
    FlattenAround(ss', k);
    assert ss'[..k] == ss[..k] && ss'[k + 1..] == ss[k + 1..];
    PatchMiddle(Flatten(ss[..k]), ss[k], Flatten(ss[k + 1..]), at, data);
  }

  /** Where byte `b` of the game, in slice `k`, lies on the disk. */
  function Address(specs: seq<PartSpec>, k: nat, b: nat): int
    requires k < |specs|
  {
    512 * specs[k].dataStart + b - 2048 * specs[k].partOffset
  }

  /** Reading the disk where a slice says is reading the flat game. */
  lemma ReadIsFlat(disk: seq<Byte>, specs: seq<PartSpec>, parts: seq<Part>, k: nat, b: nat, count: nat)
    requires Table(specs, parts, |disk|) && k < |parts|
    requires 2048 * specs[k].partOffset <= b && b + count <= 2048 * specs[k].partOffset + specs[k].partSize
    ensures 0 <= Address(specs, k, b) && Address(specs, k, b) + count <= |disk|
    ensures b + count <= |Flat(disk, specs, parts)|
    ensures disk[Address(specs, k, b)..Address(specs, k, b) + count] == Flat(disk, specs, parts)[b..b + count]
  {
    var ss := Slices(disk, specs, parts);
    assert SpecFits(specs[k], parts[k], k, |disk|);
    PrefixLength(disk, specs, parts, k);
    FlattenPiece(ss, k, b - 2048 * specs[k].partOffset, count);
    var lo := 512 * specs[k].dataStart;
    Subslice(disk, lo, lo + specs[k].partSize, b - 2048 * specs[k].partOffset, count);
  }

  /** Writing the disk where a slice says is writing the flat game: no other byte of the game changes. */
  lemma WriteIsFlat(disk: seq<Byte>, specs: seq<PartSpec>, parts: seq<Part>, k: nat, b: nat, data: seq<Byte>)
    requires Table(specs, parts, |disk|) && k < |parts|
    requires 2048 * specs[k].partOffset <= b && b + |data| <= 2048 * specs[k].partOffset + specs[k].partSize
    ensures 0 <= Address(specs, k, b) && Address(specs, k, b) + |data| <= |disk|
    ensures b + |data| <= |Flat(disk, specs, parts)|
    ensures Flat(Patch(disk, Address(specs, k, b), data), specs, parts) == Patch(Flat(disk, specs, parts), b, data)
  {
    hide Patch, Count;
    var ss := Slices(disk, specs, parts);
    var at := b - 2048 * specs[k].partOffset;
    assert SpecFits(specs[k], parts[k], k, |disk|);
    var disk' := Patch(disk, Address(specs, k, b), data);
    var ss' := Slices(disk', specs, parts);
    PrefixLength(disk, specs, parts, k);
    FlattenPatch(ss, k, at, data);
    forall i | 0 <= i < |parts| ensures ss'[i] == ss[k := Patch(ss[k], at, data)][i] {
      SliceAfterWrite(disk, specs, parts, k, at, data, i);
    }
    assert ss' == ss[k := Patch(ss[k], at, data)];
  }

  lemma SliceAfterWrite(disk: seq<Byte>, specs: seq<PartSpec>, parts: seq<Part>, k: nat, at: nat, data: seq<Byte>,
                        i: nat)
    requires Table(specs, parts, |disk|) && k < |parts| && i < |parts| && at + |data| <= specs[k].partSize
    requires forall j | j == k || j == i :: SpecFits(specs[j], parts[j], j, |disk|)
    ensures SliceData(Patch(disk, 512 * specs[k].dataStart + at, data), specs[i])
         == if i == k then Patch(SliceData(disk, specs[k]), at, data) else SliceData(disk, specs[i])
  {
    hide Patch, Count;
    var lo, hi := 512 * specs[i].dataStart, 512 * specs[i].dataStart + specs[i].partSize;
    if i == k {
      PatchInside(disk, lo, hi, at, data);
    } else {
      assert Apart(parts[i], parts[k]);
      PatchOutside(disk, lo, hi, 512 * specs[k].dataStart + at, data);
    }
  }

  /** Distinct bytes of the game have distinct places on the disk. */
  lemma AddressesAreDistinct(disk: seq<Byte>, specs: seq<PartSpec>, parts: seq<Part>, k: nat, b: nat, l: nat, c: nat)
    requires Table(specs, parts, |disk|) && k < |parts| && l < |parts|
    requires 2048 * specs[k].partOffset <= b < 2048 * specs[k].partOffset + specs[k].partSize
    requires 2048 * specs[l].partOffset <= c < 2048 * specs[l].partOffset + specs[l].partSize
    ensures Address(specs, k, b) == Address(specs, l, c) ==> k == l && b == c
  {
    assert SpecFits(specs[k], parts[k], k, |disk|) && SpecFits(specs[l], parts[l], l, |disk|);
    if k != l {
      assert Apart(parts[k], parts[l]);
    }
  }
}
