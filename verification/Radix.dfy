/**
  Radix-512 arithmetic of the physical page map in exec.c: shifting a page index
  right by whole levels, the digit one level selects, and the pages one slot spans.
 */
module Radix {

  /** `x >> (l * P_L2_BITS)`, written as repeated division by P_L2_SIZE. */
  function Hi(x: nat, l: nat): nat {
    if l == 0 then x else Hi(x, l - 1) / 512
  }

  /** `1 << (l * P_L2_BITS)`: the number of pages one slot of a level-`l` node spans. */
  function Step(l: nat): (s: nat)
    ensures s >= 1
  {
    if l == 0 then 1 else 512 * Step(l - 1)
  }

  /** The slot index that page `x` selects in a level-`l` node. */
  function Digit(x: nat, l: nat): (d: nat)
    ensures d < 512
    ensures Hi(x, l) == 512 * Hi(x, l + 1) + d
  {
    Hi(x, l) % 512
  }

  /** Page `x` is the first page of the level-`l` slot it falls in. */
  predicate Aligned(x: nat, l: nat) {
    l == 0 || (Aligned(x, l - 1) && Hi(x, l - 1) % 512 == 0)
  }

  lemma MulLe(a: nat, b: nat, c: nat)
    requires a <= b
    ensures a * c <= b * c
  {
  }

  lemma MulAssoc(g: nat, s: nat)
    ensures g * (512 * s) == (512 * g) * s
  {
  }

  /** Shifting right is division: `x` lies in the slot numbered `Hi(x, l)`. */
  lemma {:induction false} HiBounds(x: nat, l: nat)
    ensures Hi(x, l) * Step(l) <= x < (Hi(x, l) + 1) * Step(l)
  {
    if l > 0 {
      HiBounds(x, l - 1);
      var h, g, s := Hi(x, l - 1), Hi(x, l), Step(l - 1);
      assert 512 * g <= h < 512 * g + 512;
      MulLe(512 * g, h, s);
      MulLe(h + 1, 512 * (g + 1), s);
      MulAssoc(g, s);
      MulAssoc(g + 1, s);
    }
  }

  /** The bit test `(x & (step - 1)) == 0` of phys_page_set_level, digit by digit. */
  lemma {:induction false} AlignedIsMultiple(x: nat, l: nat)
    ensures Aligned(x, l) <==> x == Hi(x, l) * Step(l)
    ensures Aligned(x, l) <==> x % Step(l) == 0
  {
    AlignedIsProduct(x, l);
    HiBounds(x, l);
    ModOfMultiple(x, Hi(x, l), Step(l));
  }

  lemma {:induction false} AlignedIsProduct(x: nat, l: nat)
    ensures Aligned(x, l) <==> x == Hi(x, l) * Step(l)
  {
    if l > 0 {
      AlignedIsProduct(x, l - 1);
      HiBounds(x, l - 1);
      var h, g, s := Hi(x, l - 1), Hi(x, l), Step(l - 1);
      MulAssoc(g, s);
      if h % 512 == 0 {
        assert h == 512 * g;
      } else {
        MulLe(512 * g + 1, h, s);
        Distribute(512 * g, 1, s);
      }
    }
  }

  /** A number lies in only one run `[g * s, g * s + s)`. */
  lemma SlotUnique(x: nat, g: nat, h: nat, s: nat)
    requires g * s <= x < (g + 1) * s
    requires h * s <= x < (h + 1) * s
    ensures g == h
  {
    if g < h {
      MulLe(g + 1, h, s);
    } else if h < g {
      MulLe(h + 1, g, s);
    }
  }

  lemma ModOfMultiple(x: nat, g: nat, s: nat)
    requires s >= 1 && g * s <= x < (g + 1) * s
    ensures x % s == 0 <==> x == g * s
  {
    var q := x / s;
    assert x == q * s + x % s;
    assert (q + 1) * s == q * s + s;
    SlotUnique(x, g, q, s);
  }

  /** The pages of the level-`l` slot that starts at `x` are `[x, x + Step(l))`. */
  lemma SlotPages(x: nat, l: nat, y: nat)
    requires Aligned(x, l)
    ensures Hi(y, l) == Hi(x, l) <==> x <= y < x + Step(l)
  {
    AlignedIsProduct(x, l);
    HiBounds(y, l);
    var g, h, s := Hi(x, l), Hi(y, l), Step(l);
    Distribute(g, 1, s);
    if h < g {
      MulLe(h + 1, g, s);
    }
    if h > g {
      MulLe(g + 1, h, s);
    }
  }

  /** The page after an aligned slot starts the next slot. */
  lemma NextSlot(x: nat, l: nat)
    requires Aligned(x, l)
    ensures Hi(x + Step(l), l) == Hi(x, l) + 1
    ensures Aligned(x + Step(l), l)
  {
    AlignedIsProduct(x, l);
    var y, g, s := x + Step(l), Hi(x, l), Step(l);
    HiBounds(y, l);
    Distribute(g, 1, s);
    Distribute(g, 2, s);
    SlotUnique(y, g + 1, Hi(y, l), s);
    AlignedIsProduct(y, l);
  }

  lemma Distribute(a: nat, b: nat, c: nat)
    ensures (a + b) * c == a * c + b * c
  {
  }

  /** A page below the start of the slot `x` opens is in an earlier slot. */
  lemma HiMonotone(x: nat, y: nat, l: nat)
    requires x <= y
    ensures Hi(x, l) <= Hi(y, l)
  {
    if l > 0 {
      HiMonotone(x, y, l - 1);
    }
  }

  /** Two right shifts compose. */
  lemma {:induction false} HiHi(x: nat, a: nat, b: nat)
    ensures Hi(Hi(x, a), b) == Hi(x, a + b)
  {
    if b > 0 {
      HiHi(x, a, b - 1);
    }
  }

  lemma HiZero(x: nat, l: nat)
    requires x < Step(l)
    ensures Hi(x, l) == 0
  {
    HiBounds(x, l);
    if Hi(x, l) > 0 {
      MulLe(1, Hi(x, l), Step(l));
    }
  }
}
