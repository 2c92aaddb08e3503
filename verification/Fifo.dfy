/** The software FIFO (fifo.h, fifo.c).

    A ring of `size` slots whose indices run modulo 2 * size, so that "full" (indices `size` apart) and
    "empty" (indices equal) are told apart without wasting a slot. The uint8, uint16 and uint32 variants
    of the source are the same code over three item widths; here the item is a type parameter. */
module Fifo {
  import opened Bits

  datatype Status = FifoOk | FifoErrorOverflow | FifoErrorUnderflow

  // ----- Index arithmetic, shared by the descriptor and the interleaved model

  /** The three assertions at the top of fifo_init. */
  predicate LegalSize(size: nat) {
    size != 0 && And(size, size - 1) == 0 && size <= 128
  }

  /** The difference is taken in 16-bit `int` and masked; a negative one wraps. */
  function UsedSize(writeIndex: nat, readIndex: nat, mask: nat): nat {
    And((writeIndex - readIndex) % 0x1_0000, mask)
  }

  function Slot(index: nat, mask: nat): nat {
    And(index, mask / 2)
  }

  function Next(index: nat, mask: nat): nat {
    And(index + 1, mask)
  }

  lemma LegalSizes(size: nat)
    requires LegalSize(size)
    ensures exists k: nat :: k <= 7 && size == Pow2(k)
    ensures size in {1, 2, 4, 8, 16, 32, 64, 128}
  {
    PowerOfTwoTest(size);
    var k: nat :| size == Pow2(k);
    assert Pow2(3) == 8 && Pow2(6) == 64;
    assert Pow2(8) == 2 * Pow2(7) == 256;
    if k > 7 {
      Grows(8, k);
      assert false;
    }
    assert k in {0, 1, 2, 3, 4, 5, 6, 7};
  }

  lemma {:induction false} Grows(j: nat, k: nat)
    requires j <= k
    ensures Pow2(j) <= Pow2(k)
  {
    if j == k {
    } else {
      Grows(j, k - 1);
    }
  }

  /** What the masks compute, for running totals `written` and `read` of which the stored indices are
      the residues modulo 2 * size. */
  lemma IndexArithmetic(size: nat, written: nat, read: nat)
    requires LegalSize(size)
    requires read <= written <= read + size
    ensures UsedSize(written % (2 * size), read % (2 * size), 2 * size - 1) == written - read
    ensures written % (2 * size) == read % (2 * size) <==> written == read
    ensures Slot(written % (2 * size), 2 * size - 1) == written % size < size
    ensures Next(written % (2 * size), 2 * size - 1) == (written + 1) % (2 * size)
  {
    LegalSizes(size);
    var k: nat :| k <= 7 && size == Pow2(k);
    Masks(k, written % (2 * size), read % (2 * size));
    UsedResidue(size, written, read);
    SlotResidue(size, written);
    NextResidue(2 * size, written);
  }

  lemma Masks(k: nat, w: nat, r: nat)
    ensures UsedSize(w, r, 2 * Pow2(k) - 1) == (w - r) % 0x1_0000 % (2 * Pow2(k))
    ensures Slot(w, 2 * Pow2(k) - 1) == w % Pow2(k)
    ensures Next(w, 2 * Pow2(k) - 1) == (w + 1) % (2 * Pow2(k))
  {
    assert Pow2(k + 1) == 2 * Pow2(k);
    assert (2 * Pow2(k) - 1) / 2 == Pow2(k) - 1;
    MaskIsModulo((w - r) % 0x1_0000, k + 1);
    MaskIsModulo(w, k);
    MaskIsModulo(w + 1, k + 1);
  }

  lemma UsedResidue(size: nat, written: nat, read: nat)
    requires size in {1, 2, 4, 8, 16, 32, 64, 128}
    requires read <= written <= read + size
    ensures (written % (2 * size) - read % (2 * size)) % 0x1_0000 % (2 * size) == written - read
    ensures written % (2 * size) == read % (2 * size) ==> written == read
  {
    var d := written % (2 * size) - read % (2 * size);
    DifferenceOfResidues(2 * size, written, read);
    if d == written - read {
      QuotientIsUnique(d, 2 * size, 0, d);
    } else {
      WrappedDifference(size, written - read);
    }
  }

  lemma DifferenceOfResidues(m: nat, x: nat, y: nat)
    requires y <= x < y + m
    ensures x % m - y % m == x - y || x % m - y % m == x - y - m
  {
    var q: int := x / m - y / m;
    assert x - y == q * m + (x % m - y % m);
    assert q >= 2 ==> q * m >= 2 * m;
    assert q <= -1 ==> q * m + m <= 0;
  }

  lemma SlotResidue(size: nat, total: nat)
    requires size > 0
    ensures total % (2 * size) % size == total % size
  {
    var a, w := total / (2 * size), total % (2 * size);
    assert 2 * a * size == a * (2 * size);
    assert (2 * a + w / size) * size == 2 * a * size + w / size * size;
    QuotientIsUnique(total, size, 2 * a + w / size, w % size);
  }

  lemma NextResidue(m: nat, total: nat)
    requires m > 0
    ensures (total % m + 1) % m == (total + 1) % m
  {
    var a, w := total / m, total % m;
    if w + 1 < m {
      QuotientIsUnique(total + 1, m, a, w + 1);
    } else {
      QuotientIsUnique(total + 1, m, a + 1, 0);
    }
  }

  lemma WrappedDifference(size: nat, d: nat)
    requires size in {1, 2, 4, 8, 16, 32, 64, 128} && d <= size
    ensures (d - 2 * size) % 0x1_0000 % (2 * size) == d
  {
    var c := 0x1_0000 / (2 * size);
    assert c * (2 * size) == 0x1_0000;
    assert (c - 1) * (2 * size) + d == 0x1_0000 - 2 * size + d;
    QuotientIsUnique(0x1_0000 - 2 * size + d, 2 * size, c - 1, d);
  }

  /** One pull too many reads as a used size of 2 * size - 1. */
  lemma OnePullTooMany(size: nat, written: nat)
    requires LegalSize(size)
    ensures UsedSize(written % (2 * size), (written + 1) % (2 * size), 2 * size - 1) == 2 * size - 1
  {
    LegalSizes(size);
    var k: nat :| k <= 7 && size == Pow2(k);
    var w, r := written % (2 * size), (written + 1) % (2 * size);
    Masks(k, w, r);
    DifferenceOfResidues(2 * size, written + 1, written);
    WrappedByOne(size, w - r);
  }

  /** One push too many reads as a used size of size + 1, or as empty for a single slot. */
  lemma OnePushTooMany(size: nat, read: nat)
    requires LegalSize(size)
    ensures UsedSize((read + size + 1) % (2 * size), read % (2 * size), 2 * size - 1) == (size + 1) % (2 * size)
  {
    LegalSizes(size);
    var k: nat :| k <= 7 && size == Pow2(k);
    var w, r := (read + size + 1) % (2 * size), read % (2 * size);
    Masks(k, w, r);
    var d := w - r;
    assert d == (if size == 1 then 0 else size + 1) || (size > 1 && d == size + 1 - 2 * size) by {
      ResiduesAfterOverflow(size, read);
    }
    WrappedBeyond(size, d);
  }

  lemma ResiduesAfterOverflow(size: nat, read: nat)
    requires size > 0
    ensures var d := (read + size + 1) % (2 * size) - read % (2 * size);
      d == (if size == 1 then 0 else size + 1) || (size > 1 && d == size + 1 - 2 * size)
  {
    if size > 1 {
      DifferenceOfResidues(2 * size, read + size + 1, read);
    }
  }

  lemma WrappedByOne(size: nat, d: int)
    requires size in {1, 2, 4, 8, 16, 32, 64, 128} && (d == -1 || d == 2 * size - 1)
    ensures d % 0x1_0000 % (2 * size) == 2 * size - 1
  {
    var c := 0x1_0000 / (2 * size);
    assert c * (2 * size) == 0x1_0000;
    if d == -1 {
      assert (c - 1) * (2 * size) + (2 * size - 1) == 0xFFFF;
      QuotientIsUnique(0xFFFF, 2 * size, c - 1, 2 * size - 1);
    }
  }

  lemma WrappedBeyond(size: nat, d: int)
    requires size in {1, 2, 4, 8, 16, 32, 64, 128}
    requires d == (if size == 1 then 0 else size + 1) || (size > 1 && d == size + 1 - 2 * size)
    ensures d % 0x1_0000 % (2 * size) == (size + 1) % (2 * size)
  {
    var c := 0x1_0000 / (2 * size);
    assert c * (2 * size) == 0x1_0000;
    if d < 0 {
      assert (c - 1) * (2 * size) + (size + 1) == 0x1_0000 - size + 1;
      QuotientIsUnique(0x1_0000 - size + 1, 2 * size, c - 1, size + 1);
    }
  }

  /** Two running totals less than `size` apart never share a slot. */
  lemma SlotsDiffer(size: nat, i: nat, j: nat)
    requires i < j < i + size
    ensures i % size != j % size
  {
    var q: int := j / size - i / size;
    assert j - i == q * size + (j % size - i % size);
    assert q >= 1 ==> q * size >= size;
    assert q <= -1 ==> q * size + size <= 0;
  }

  lemma SameSlot(size: nat, i: nat)
    requires size > 0
    ensures (i + size) % size == i % size
  {
    QuotientIsUnique(i + size, size, i / size + 1, i % size);
  }

  // ----- The descriptor

  class FifoDesc<T> {
    var buffer: array<T>
    var readIndex: nat
    var writeIndex: nat
    var size: nat
    var mask: nat
    ghost var read: nat        // items pulled (or flushed) so far
    ghost var written: nat     // items pushed so far

    ghost predicate Valid()
      reads this
    {
      && LegalSize(size) && mask == 2 * size - 1 && buffer.Length == size
      && read <= written <= read + size
      && readIndex == read % (2 * size)
      && writeIndex == written % (2 * size)
    }

    /** The items held, oldest first. */
    ghost function Contents(): (items: seq<T>)
      requires Valid()
      reads this, buffer
      ensures |items| == written - read
    {
      seq(written - read, i requires 0 <= i < written - read reads this, buffer requires Valid() =>
        buffer[(read + i) % size])
    }

    constructor Init(buffer: array<T>, size: nat)
      requires LegalSize(size) && buffer.Length == size
      ensures Valid() && this.buffer == buffer && this.size == size
      ensures Contents() == []
    {
      this.readIndex := 0;
      this.writeIndex := 0;
      this.size := size;
      this.mask := 2 * size - 1;
      this.buffer := buffer;
      this.read, this.written := 0, 0;
    }

    method GetUsedSize() returns (used: nat)
      requires Valid()
      ensures used == |Contents()| <= size
    {
      IndexArithmetic(size, written, read);
      used := UsedSize(writeIndex, readIndex, mask);
    }

    method GetFreeSize() returns (free: nat)
      requires Valid()
      ensures |Contents()| + free == size
    {
      var used := GetUsedSize();
      free := size - used;
    }

    method IsEmpty() returns (empty: bool)
      requires Valid()
      ensures empty <==> Contents() == []
    {
      IndexArithmetic(size, written, read);
      empty := writeIndex == readIndex;
    }

    method IsFull() returns (full: bool)
      requires Valid()
      ensures full <==> |Contents()| == size
    {
      var used := GetUsedSize();
      full := used == size;
    }

    /** The unchecked push. With room it appends; on a full queue it overwrites the oldest item and leaves
        indices that read as one item too many. */
    method PushNoCheck(item: T)
      requires Valid()
      modifies this`writeIndex, this`written, buffer
      ensures buffer == old(buffer)
      ensures |old(Contents())| < size ==> Valid() && Contents() == old(Contents()) + [item]
      ensures |old(Contents())| == size ==>
                && buffer[..] == old(buffer[..])[read % size := item]
                && UsedSize(writeIndex, readIndex, mask) == (size + 1) % (2 * size)
    {
      var slot := Slot(writeIndex, mask);
      var next := Next(writeIndex, mask);
      assert slot == written % size && slot < buffer.Length && next == (written + 1) % (2 * size) by {
        IndexArithmetic(size, written, read);
      }
      if written - read == size {
        SameSlot(size, read);
        OnePushTooMany(size, read);
      }
      StoreAndPublish(item, slot, next);
    }

    /** Its two writes. */
    method StoreAndPublish(item: T, slot: nat, next: nat)
      requires Valid() && slot == written % size && next == (written + 1) % (2 * size)
      modifies this`writeIndex, this`written, buffer
      ensures buffer == old(buffer) && writeIndex == next && written == old(written) + 1
      ensures buffer[..] == old(buffer[..])[slot := item]
      ensures |old(Contents())| < size ==> Valid() && Contents() == old(Contents()) + [item]
    {
      ghost var before := Contents();
      buffer[slot] := item;
      writeIndex := next;
      written := written + 1;
      if |before| < size {
        assert Contents()[..|before|] == before by {
          forall i | 0 <= i < |before| ensures Contents()[i] == before[i] {
            SlotsDiffer(size, read + i, written - 1);
          }
        }
      }
    }

    method Push(item: T) returns (status: Status)
      requires Valid()
      modifies this`writeIndex, this`written, buffer
      ensures Valid() && buffer == old(buffer)
      ensures status == if |old(Contents())| == size then FifoErrorOverflow else FifoOk
      ensures Contents() == if |old(Contents())| == size then old(Contents()) else old(Contents()) + [item]
    {
      var full := IsFull();
      if full {
        return FifoErrorOverflow;
      }
      PushNoCheck(item);
      return FifoOk;
    }

    /** The unchecked pull. It takes the oldest item; on an empty queue it returns what the slot last held and
        leaves indices that read as one item short of a whole turn. */
    method PullNoCheck() returns (item: T)
      requires Valid()
      modifies this`readIndex, this`read
      ensures old(Contents()) != [] ==>
                Valid() && item == old(Contents())[0] && Contents() == old(Contents())[1..]
      ensures old(Contents()) == [] ==>
                item == buffer[old(read) % size] && UsedSize(writeIndex, readIndex, mask) == 2 * size - 1
    {
      IndexArithmetic(size, read, read);
      item := buffer[Slot(readIndex, mask)];
      readIndex := Next(readIndex, mask);
      read := read + 1;
      if read > written {
        OnePullTooMany(size, written);
      }
    }

    /** `item` is the location the source writes through its pointer argument. */
    method Pull(item: array<T>) returns (status: Status)
      requires Valid() && item.Length == 1 && item != buffer
      modifies this`readIndex, this`read, item
      ensures Valid()
      ensures old(Contents()) == [] ==>
                status == FifoErrorUnderflow && Contents() == [] && item[0] == old(item[0])
      ensures old(Contents()) != [] ==>
                status == FifoOk && [item[0]] + Contents() == old(Contents())
    {
      var empty := IsEmpty();
      if empty {
        return FifoErrorUnderflow;
      }
      var pulled := PullNoCheck();
      item[0] := pulled;
      return FifoOk;
    }

    method Peek() returns (item: T)
      requires Valid()
      ensures Contents() != [] ==> item == Contents()[0]
    {
      IndexArithmetic(size, read, read);
      item := buffer[Slot(readIndex, mask)];
    }

    method Flush()
      requires Valid()
      modifies this`readIndex, this`writeIndex, this`read, this`written
      ensures Valid() && Contents() == []
    {
      readIndex, writeIndex := 0, 0;
      read, written := 0, 0;
    }
  }
}
