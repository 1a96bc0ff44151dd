/** Words of 32 bits, bit by bit. */
module Bits {
  type Word = bv32

  predicate Bit(w: Word, k: Word)
    requires k < 32
  {
    (w >> k) & 1 == 1
  }

  /** A bit position as a shift count, which takes five bits. */
  function Count(i: int): (k: Word)
    requires 0 <= i < 32
    ensures k < 32 && k as int == i
  {
    (i as bv5) as Word
  }

  function WithBit(w: Word, k: Word): Word
    requires k < 32
  {
    w | (1 << k)
  }

  function WithoutBit(w: Word, k: Word): Word
    requires k < 32
  {
    w & !(1 << k)
  }

  lemma BitWith(w: Word, i: Word, k: Word)
    requires i < 32 && k < 32
    ensures Bit(WithBit(w, i), k) <==> i == k || Bit(w, k)
  {
  }

  lemma BitWithout(w: Word, i: Word, k: Word)
    requires i < 32 && k < 32
    ensures Bit(WithoutBit(w, i), k) <==> i != k && Bit(w, k)
  {
  }

  /** The lowest bit of a word, by halving. */
  lemma LowestBit(w: Word) returns (k: Word)
    requires w != 0
    ensures k < 32 && Bit(w, k)
  {
    k := 0;
    if (w >> k) & 0xFFFF == 0 { k := k + 16; }
    if (w >> k) & 0xFF == 0 { k := k + 8; }
    if (w >> k) & 0xF == 0 { k := k + 4; }
    if (w >> k) & 3 == 0 { k := k + 2; }
    if (w >> k) & 1 == 0 { k := k + 1; }
  }

  lemma BitXor(v: Word, w: Word, k: Word)
    requires k < 32
    ensures Bit(v ^ w, k) <==> Bit(v, k) != Bit(w, k)
  {
  }

  lemma SameBitsSameWord(v: Word, w: Word)
    requires forall k: Word | k < 32 :: Bit(v, k) == Bit(w, k)
    ensures v == w
  {
    if v != w {
      var k := LowestBit(v ^ w);
      BitXor(v, w, k);
    }
  }

  lemma CountBack(k: Word)
    requires k < 32
    ensures k as int < 32 && Count(k as int) == k
  {
  }

  function Union(v: Word, w: Word): Word {
    v | w
  }

  function Minus(v: Word, w: Word): Word {
    v & !w
  }

  lemma BitUnion(v: Word, w: Word, k: Word)
    requires k < 32
    ensures Bit(Union(v, w), k) <==> Bit(v, k) || Bit(w, k)
  {
  }

  function Both(v: Word, w: Word): Word {
    v & w
  }

  function Not(w: Word): Word {
    !w
  }

  lemma BitBoth(v: Word, w: Word, k: Word)
    requires k < 32
    ensures Bit(Both(v, w), k) <==> Bit(v, k) && Bit(w, k)
  {
  }

  lemma BitNot(w: Word, k: Word)
    requires k < 32
    ensures Bit(Not(w), k) <==> !Bit(w, k)
  {
  }

  lemma BitMinus(v: Word, w: Word, k: Word)
    requires k < 32
    ensures Bit(Minus(v, w), k) <==> Bit(v, k) && !Bit(w, k)
  {
    assert Minus(v, w) == Both(v, Not(w));
    hide Bit, Both, Not, Minus;
    BitBoth(v, Not(w), k);
    BitNot(w, k);
  }
}
