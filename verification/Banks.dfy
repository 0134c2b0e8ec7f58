/** The ring of banks that io.c's two directions share. */
module Banks {
  import opened Common

  /** Bank `i` places after bank `base` on the ring. */
  function Slot(base: nat, i: nat, n: nat): nat {
    if base + i < n then base + i else base + i - n
  }

  lemma OneWrap(x: nat, n: nat)
    requires 0 < n <= x < 2 * n
    ensures x % n == x - n
  {
    var q := x / n;
    assert x == q * n + x % n;
    assert q >= 2 ==> (q - 2) * n >= 0;
    assert q <= 0 ==> q * n <= 0;
  }

  /** The wrap is the remainder by which io.c moves its pointers. */
  lemma SlotIsRemainder(base: nat, i: nat, n: nat)
    requires base < n && i <= n
    ensures Slot(base, i, n) == (base + i) % n
  {
    if base + i >= n {
      OneWrap(base + i, n);
    }
  }

  /** Bank `k` holds `block`, and its descriptor the length of it. */
  predicate Holds(banks: seq<seq<Byte>>, lengths: seq<nat>, k: nat, block: seq<Byte>)
    requires |banks| == |lengths| && k < |banks|
  {
    lengths[k] == |block| <= |banks[k]| && banks[k][..|block|] == block
  }

  /** `blocks` sit in consecutive ring banks from `base` on. */
  predicate Holding(banks: seq<seq<Byte>>, lengths: seq<nat>, base: nat, blocks: seq<seq<Byte>>) {
    && |banks| == |lengths| && base < |banks| && |blocks| <= |banks|
    && forall i :: 0 <= i < |blocks| ==> Holds(banks, lengths, Slot(base, i, |banks|), blocks[i])
  }

  /** The blocks after the first `k` sit from `k` banks further on. */
  lemma HoldingDrop(banks: seq<seq<Byte>>, lengths: seq<nat>, base: nat, blocks: seq<seq<Byte>>, k: nat)
    requires Holding(banks, lengths, base, blocks) && k <= |blocks|
    ensures Holding(banks, lengths, Slot(base, k, |banks|), blocks[k..])
  {
    forall i | 0 <= i < |blocks| - k
      ensures Holds(banks, lengths, Slot(Slot(base, k, |banks|), i, |banks|), blocks[k..][i])
    {
      assert Holds(banks, lengths, Slot(base, k + i, |banks|), blocks[k + i]);
    }
  }

  /** A block put in the bank behind the queue joins the queue. */
  lemma HoldingSnoc(banks: seq<seq<Byte>>, lengths: seq<nat>, base: nat, blocks: seq<seq<Byte>>, length: nat)
    requires Holding(banks, lengths, base, blocks) && |blocks| < |banks|
    requires length <= |banks[Slot(base, |blocks|, |banks|)]|
    ensures var k := Slot(base, |blocks|, |banks|);
            Holding(banks, lengths[k := length], base, blocks + [banks[k][..length]])
  {
    var k := Slot(base, |blocks|, |banks|);
    var blocks' := blocks + [banks[k][..length]];
    forall i | 0 <= i < |blocks'| ensures Holds(banks, lengths[k := length], Slot(base, i, |banks|), blocks'[i]) {
      if i < |blocks| {
        assert Holds(banks, lengths, Slot(base, i, |banks|), blocks[i]);
      }
    }
  }
}
