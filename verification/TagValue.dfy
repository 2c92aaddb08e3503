/** Tag-value lists, the common form of the settings messages: alternating tag and value bytes. */
module TagValue {
  import opened Bits

  /** The table after the pairs have been stored from left to right. `place` says which entry a tag stands
      for; a tag that stands for none is passed over, and an odd last byte is not looked at. */
  function Decoded(t: seq<byte>, pairs: seq<byte>, place: byte -> int): (r: seq<byte>)
    ensures |r| == |t|
    decreases |pairs|
  {
    if |pairs| < 2 then t else Decoded(Stored(t, place(pairs[0]), pairs[1]), pairs[2..], place)
  }

  function Stored(t: seq<byte>, index: int, value: byte): (r: seq<byte>)
    ensures |r| == |t|
  {
    if 0 <= index < |t| then t[index := value] else t
  }

  /** The pairs for the entries from `low` up to `high`. */
  function TagPairs(tags: seq<byte>, values: seq<byte>, low: nat, high: nat): (pairs: seq<byte>)
    requires low <= high <= |tags| == |values|
    ensures |pairs| == 2 * (high - low)
    decreases high - low
  {
    if low == high then [] else [tags[low], values[low]] + TagPairs(tags, values, low + 1, high)
  }

  /** `t` with the entries from `low` up to `high` taken from `values`. */
  function Merged(t: seq<byte>, values: seq<byte>, low: nat, high: nat): (r: seq<byte>)
    requires low <= high <= |t| == |values|
    ensures |r| == |t|
  {
    t[..low] + values[low..high] + t[high..]
  }

  lemma MergedEntry(t: seq<byte>, values: seq<byte>, low: nat, high: nat, index: nat)
    requires low <= high <= |t| == |values| && index < |t|
    ensures Merged(t, values, low, high)[index] == if low <= index < high then values[index] else t[index]
  {
  }

  /** Decoding undoes tagging, for tags that stand for their own entries. */
  lemma {:induction false} DecodeTagPairs(
      t: seq<byte>, tags: seq<byte>, values: seq<byte>, low: nat, high: nat, place: byte -> int)
    requires low <= high <= |t| == |tags| == |values|
    requires forall i :: 0 <= i < |tags| ==> place(tags[i]) == i
    ensures Decoded(t, TagPairs(tags, values, low, high), place) == Merged(t, values, low, high)
    decreases high - low
  {
    if low == high {
    } else {
      var pairs := TagPairs(tags, values, low, high);
      assert pairs[2..] == TagPairs(tags, values, low + 1, high);
      DecodeTagPairs(t[low := values[low]], tags, values, low + 1, high, place);
      assert Merged(t[low := values[low]], values, low + 1, high) == Merged(t, values, low, high);
    }
  }

  /** A byte after the last whole pair changes nothing. */
  lemma {:induction false} OddLastByte(t: seq<byte>, pairs: seq<byte>, last: byte, place: byte -> int)
    requires |pairs| % 2 == 0
    ensures Decoded(t, pairs + [last], place) == Decoded(t, pairs, place)
    decreases |pairs|
  {
    if pairs == [] {
    } else {
      assert (pairs + [last])[2..] == pairs[2..] + [last];
      OddLastByte(Stored(t, place(pairs[0]), pairs[1]), pairs[2..], last, place);
    }
  }

  lemma {:induction false} TagPairsSplit(tags: seq<byte>, values: seq<byte>, low: nat, middle: nat, high: nat)
    requires low <= middle <= high <= |tags| == |values|
    ensures TagPairs(tags, values, low, high)
         == TagPairs(tags, values, low, middle) + TagPairs(tags, values, middle, high)
    decreases middle - low
  {
    if low == middle {
    } else {
      TagPairsSplit(tags, values, low + 1, middle, high);
    }
  }

  lemma FivePairs(tags: seq<byte>, values: seq<byte>, low: nat)
    requires low + 5 <= |tags| == |values|
    ensures TagPairs(tags, values, low, low + 5)
         == [ tags[low], values[low], tags[low + 1], values[low + 1], tags[low + 2], values[low + 2],
              tags[low + 3], values[low + 3], tags[low + 4], values[low + 4] ]
  {
    var high := low + 5;
    assert TagPairs(tags, values, low + 4, high) == [tags[low + 4], values[low + 4]];
    assert TagPairs(tags, values, low + 3, high) == [tags[low + 3], values[low + 3]]
        + TagPairs(tags, values, low + 4, high);
    assert TagPairs(tags, values, low + 2, high) == [tags[low + 2], values[low + 2]]
        + TagPairs(tags, values, low + 3, high);
    assert TagPairs(tags, values, low + 1, high) == [tags[low + 1], values[low + 1]]
        + TagPairs(tags, values, low + 2, high);
  }

  /** Fifteen pairs as three groups of five. */
  lemma FifteenPairs(tags: seq<byte>, values: seq<byte>)
    requires 15 <= |tags| == |values|
    ensures TagPairs(tags, values, 0, 15)
         == TagPairs(tags, values, 0, 5) + TagPairs(tags, values, 5, 10) + TagPairs(tags, values, 10, 15)
  {
    TagPairsSplit(tags, values, 0, 10, 15);
    TagPairsSplit(tags, values, 0, 5, 10);
  }

  lemma ThreePairs(tags: seq<byte>, values: seq<byte>, low: nat)
    requires low + 3 <= |tags| == |values|
    ensures TagPairs(tags, values, low, low + 3)
         == [tags[low], values[low], tags[low + 1], values[low + 1], tags[low + 2], values[low + 2]]
  {
    var high := low + 3;
    assert TagPairs(tags, values, low + 2, high) == [tags[low + 2], values[low + 2]];
    assert TagPairs(tags, values, low + 1, high) == [tags[low + 1], values[low + 1]]
        + TagPairs(tags, values, low + 2, high);
  }

  lemma EighteenPairs(tags: seq<byte>, values: seq<byte>)
    requires 18 <= |tags| == |values|
    ensures TagPairs(tags, values, 0, 18)
         == TagPairs(tags, values, 0, 5) + TagPairs(tags, values, 5, 10) + TagPairs(tags, values, 10, 15)
          + TagPairs(tags, values, 15, 18)
  {
    FifteenPairs(tags, values);
    TagPairsSplit(tags, values, 0, 15, 18);
  }

  // ----- Any list of pairs

  function Pairs(pairs: seq<byte>): nat {
    |pairs| / 2
  }

  function TagAt(pairs: seq<byte>, k: nat): byte
    requires k < Pairs(pairs)
  {
    pairs[2 * k]
  }

  function ValueAt(pairs: seq<byte>, k: nat): byte
    requires k < Pairs(pairs)
  {
    pairs[2 * k + 1]
  }

  /** No pair from number `from` on has tag `tag`. */
  ghost predicate NoMore(pairs: seq<byte>, from: nat, tag: byte) {
    forall k: nat :: from <= k < Pairs(pairs) ==> TagAt(pairs, k) != tag
  }

  /** Pair `k` is the last one with tag `tag`. */
  ghost predicate IsLastWith(pairs: seq<byte>, k: nat, tag: byte) {
    k < Pairs(pairs) && TagAt(pairs, k) == tag && NoMore(pairs, k + 1, tag)
  }

  /** Exactly the tag `tag` stands for entry `index`. */
  ghost predicate StandsFor(tag: byte, index: nat, place: byte -> int) {
    forall other :: place(other) == index <==> other == tag
  }

  lemma TailPairs(pairs: seq<byte>, tag: byte)
    requires Pairs(pairs) > 0
    ensures Pairs(pairs[2..]) == Pairs(pairs) - 1
    ensures forall k: nat :: k < Pairs(pairs) - 1 ==>
              TagAt(pairs[2..], k) == TagAt(pairs, k + 1) && ValueAt(pairs[2..], k) == ValueAt(pairs, k + 1)
    ensures forall from: nat :: NoMore(pairs[2..], from, tag) ==> NoMore(pairs, from + 1, tag)
  {
    forall from: nat | NoMore(pairs[2..], from, tag) ensures NoMore(pairs, from + 1, tag) {
      forall k: nat | from + 1 <= k < Pairs(pairs) ensures TagAt(pairs, k) != tag {
        assert TagAt(pairs[2..], k - 1) == TagAt(pairs, k);
      }
    }
  }

  /** Whatever the pairs are: an entry is left with the value of the last pair that names it, and as it was if none
      does. */
  lemma {:induction false} LastPairWins(t: seq<byte>, pairs: seq<byte>, tag: byte, index: nat, place: byte -> int)
    returns (k: int)
    requires index < |t| && StandsFor(tag, index, place)
    ensures if k < 0 then NoMore(pairs, 0, tag) && Decoded(t, pairs, place)[index] == t[index]
            else IsLastWith(pairs, k, tag) && Decoded(t, pairs, place)[index] == ValueAt(pairs, k)
    decreases |pairs|
  {
    if Pairs(pairs) == 0 {
      k := -1;
    } else {
      var t' := Stored(t, place(pairs[0]), pairs[1]);
      TailPairs(pairs, tag);
      k := LastPairWins(t', pairs[2..], tag, index, place);
      if k >= 0 {
        k := k + 1;
      } else if TagAt(pairs, 0) == tag {
        k := 0;
      }
    }
  }

  /** `value` is that of the last pair with tag `tag`, or `otherwise` if no pair has it. */
  ghost predicate TakesLast(value: byte, pairs: seq<byte>, tag: byte, otherwise: byte) {
    && (NoMore(pairs, 0, tag) ==> value == otherwise)
    && (forall k: nat :: IsLastWith(pairs, k, tag) ==> value == ValueAt(pairs, k))
  }

  lemma DecodedTakesLast(t: seq<byte>, pairs: seq<byte>, tag: byte, index: nat, place: byte -> int)
    requires index < |t| && StandsFor(tag, index, place)
    ensures TakesLast(Decoded(t, pairs, place)[index], pairs, tag, t[index])
  {
    var last := LastPairWins(t, pairs, tag, index, place);
    if last >= 0 {
      forall k: nat | IsLastWith(pairs, k, tag) ensures k == last {
        LastIsUnique(pairs, k, last, tag);
      }
      assert TagAt(pairs, last) == tag;
    }
  }

  lemma LastIsUnique(pairs: seq<byte>, j: nat, k: nat, tag: byte)
    requires IsLastWith(pairs, j, tag) && IsLastWith(pairs, k, tag)
    ensures j == k
  {
  }
}
