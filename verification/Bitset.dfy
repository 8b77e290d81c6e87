/** The rows of 64-bit words in which the plan compiler keeps dominator sets.
    `Members` is the set of indexes that a row stands for; the operations on
    words are proved to be the set operations. */
module Bitset {
  import opened Words

  function Position(index: nat): bv6 {
    (index % 64) as bv6
  }

  predicate HasBit(bits: seq<bv64>, index: nat)
    requires index < 64 * |bits|
  {
    Bit(bits[index / 64], Position(index))
  }

  ghost function Members(bits: seq<bv64>): (s: set<nat>)
  {
    set k: nat | k < 64 * |bits| && HasBit(bits, k)
  }

  function SetBit(bits: seq<bv64>, index: nat): (r: seq<bv64>)
    requires index < 64 * |bits|
    ensures |r| == |bits|
    ensures Members(r) == Members(bits) + {index}
  {
    var word := WordWith(bits[index / 64], Position(index));
    var r := bits[index / 64 := word];
    assert forall k: nat | k < 64 * |bits| :: HasBit(r, k) <==> HasBit(bits, k) || k == index by {
      forall k: nat | k < 64 * |bits|
        ensures HasBit(r, k) <==> HasBit(bits, k) || k == index
      {
        if k / 64 == index / 64 {
          PositionsDiffer(k % 64, index % 64);
        }
      }
    }
    r
  }

  function Zeros(words: nat): (r: seq<bv64>)
    ensures |r| == words && Members(r) == {}
  {
    var r := seq(words, _ => 0 as bv64);
    assert forall k: nat | k < 64 * words :: !HasBit(r, k);
    r
  }

  function Ones(words: nat): (r: seq<bv64>)
    ensures |r| == words
    ensures forall k: nat :: k in Members(r) <==> k < 64 * words
  {
    var r := seq(words, _ => FULL_WORD);
    assert forall k: nat | k < 64 * words :: HasBit(r, k) by {
      forall k: nat | k < 64 * words ensures HasBit(r, k) {
        FullWord(Position(k));
      }
    }
    r
  }

  /** `next[word] &= other[word]` for every word of the row. */
  method IntersectInto(next: array<bv64>, other: seq<bv64>)
    requires next.Length == |other|
    modifies next
    ensures Members(next[..]) == Members(old(next[..])) * Members(other)
  {
    ghost var before := next[..];
    for word := 0 to next.Length
      invariant forall i | 0 <= i < word :: next[i] == before[i] & other[i]
      invariant forall i | word <= i < next.Length :: next[i] == before[i]
    {
      next[word] := next[word] & other[word];
    }
    AndMembers(next[..], before, other);
  }

  lemma AndMembers(both: seq<bv64>, left: seq<bv64>, right: seq<bv64>)
    requires |both| == |left| == |right|
    requires forall i | 0 <= i < |both| :: both[i] == left[i] & right[i]
    ensures Members(both) == Members(left) * Members(right)
  {
    forall k: nat | k < 64 * |both|
      ensures HasBit(both, k) <==> HasBit(left, k) && HasBit(right, k)
    {
      CommonBits(both[k / 64], left[k / 64], right[k / 64], Position(k));
    }
  }

  /** Word-by-word comparison decides equality of the sets. */
  method EqualBits(left: seq<bv64>, right: seq<bv64>) returns (equal: bool)
    requires |left| == |right|
    ensures equal <==> Members(left) == Members(right)
    ensures equal <==> left == right
  {
    for index := 0 to |left|
      invariant left[..index] == right[..index]
    {
      if left[index] != right[index] {
        if Members(left) == Members(right) {
          SameMembers(left, right);
        }
        return false;
      }
    }
    return true;
  }

  lemma SameMembers(left: seq<bv64>, right: seq<bv64>)
    requires |left| == |right| && Members(left) == Members(right)
    ensures left == right
  {
    forall i | 0 <= i < |left|
      ensures left[i] == right[i]
    {
      forall t: bv6
        ensures Bit(left[i], t) == Bit(right[i], t)
      {
        PositionRoundTrip(t);
        var index := 64 * i + t as nat;
        assert index / 64 == i && index % 64 == t as nat;
        assert index in Members(left) <==> HasBit(left, index);
        assert index in Members(right) <==> HasBit(right, index);
      }
      SameBits(left[i], right[i]);
    }
  }
}
