/** One 64-bit word read as the set of its bit positions. */
module Words {

  const FULL_WORD: bv64 := 0xFFFF_FFFF_FFFF_FFFF

  function Mask(t: bv6): bv64 {
    (1 as bv64) << t
  }

  predicate Bit(w: bv64, t: bv6) {
    w & Mask(t) != 0
  }

  lemma MasksDisjoint(s: bv6, t: bv6)
    ensures Mask(s) & Mask(t) == if s == t then Mask(t) else 0
    ensures Mask(t) != 0
  {
  }

  lemma AndOverOr(w: bv64, m: bv64, b: bv64)
    ensures (w | m) & b == (w & b) | (m & b)
  {
  }

  lemma OrZero(w: bv64, m: bv64)
    ensures w | m == 0 <==> w == 0 && m == 0
  {
  }

  lemma OrBit(w: bv64, s: bv6, t: bv6)
    ensures Bit(w | Mask(s), t) <==> Bit(w, t) || s == t
  {
    AndOverOr(w, Mask(s), Mask(t));
    MasksDisjoint(s, t);
    OrZero(w & Mask(t), Mask(s) & Mask(t));
  }

  lemma AndBit(w: bv64, v: bv64, t: bv6)
    ensures Bit(w & v, t) <==> Bit(w, t) && Bit(v, t)
  {
  }

  lemma CommonBits(both: bv64, w: bv64, v: bv64, t: bv6)
    requires both == w & v
    ensures Bit(both, t) <==> Bit(w, t) && Bit(v, t)
  {
    AndBit(w, v, t);
  }

  /** The word with one more position. */
  function WordWith(w: bv64, s: bv6): (r: bv64)
    ensures forall t: bv6 :: Bit(r, t) <==> Bit(w, t) || s == t
  {
    var r := w | Mask(s);
    assert forall t: bv6 :: Bit(r, t) <==> Bit(w, t) || s == t by {
      forall t: bv6
        ensures Bit(r, t) <==> Bit(w, t) || s == t
      {
        OrBit(w, s, t);
      }
    }
    r
  }

  lemma FullWord(t: bv6)
    ensures Bit(FULL_WORD, t)
  {
  }

  lemma XorBit(w: bv64, v: bv64, t: bv6)
    ensures Bit(w ^ v, t) <==> Bit(w, t) != Bit(v, t)
  {
  }

  /** No bit of d at position s or below. */
  predicate ClearThrough(d: bv64, s: bv6) {
    d << (63 - s) == 0
  }

  lemma ClearStart(d: bv64)
    requires !Bit(d, 0)
    ensures ClearThrough(d, 0)
  {
  }

  lemma ClearNext(d: bv64, s: bv6)
    requires s != 0 && !Bit(d, s) && ClearThrough(d, s - 1)
    ensures ClearThrough(d, s)
  {
  }

  lemma {:induction false} NoBits(d: bv64, s: bv6)
    requires forall t: bv6 :: !Bit(d, t)
    ensures ClearThrough(d, s)
    decreases s
  {
    if s == 0 {
      ClearStart(d);
    } else {
      var r := s - 1;
      assert r < s;
      NoBits(d, r);
      ClearNext(d, s);
    }
  }

  lemma ClearMeansEqual(w: bv64, v: bv64)
    requires ClearThrough(w ^ v, 63)
    ensures w == v
  {
  }

  lemma SameBits(w: bv64, v: bv64)
    requires forall t: bv6 :: Bit(w, t) == Bit(v, t)
    ensures w == v
  {
    var d := w ^ v;
    forall t: bv6
      ensures !Bit(d, t)
    {
      XorBit(w, v, t);
    }
    NoBits(d, 63);
    ClearMeansEqual(w, v);
  }

  lemma PositionsDiffer(j: nat, k: nat)
    requires j < 64 && k < 64
    ensures j as bv6 == k as bv6 <==> j == k
  {
  }

  lemma PositionRoundTrip(t: bv6)
    ensures (t as nat) < 64 && (t as nat) as bv6 == t
  {
  }
}
