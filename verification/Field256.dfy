/** The field of 256 elements, as far as the code in Raid needs it: polynomials over bits. */
module Field256 {
  import opened Bytes

  /** b7 x^7 + ... + b1 x + b0, modulo x^8 + x^4 + x^3 + x^2 + 1. */
  datatype Element = Element(b0: bool, b1: bool, b2: bool, b3: bool, b4: bool, b5: bool, b6: bool, b7: bool)

  const NOTHING := Element(false, false, false, false, false, false, false, false)

  function Plus(a: Element, b: Element): (e: Element) {
    Element(a.b0 != b.b0, a.b1 != b.b1, a.b2 != b.b2, a.b3 != b.b3, a.b4 != b.b4, a.b5 != b.b5, a.b6 != b.b6, a.b7 != b.b7)
  }

  /** x times a. */
  function Shifted(a: Element): (e: Element) {
    Element(a.b7, a.b0, a.b1 != a.b7, a.b2 != a.b7, a.b3 != a.b7, a.b4, a.b5, a.b6)
  }

  /** a over x. */
  function Unshifted(a: Element): (e: Element) {
    Element(a.b1, a.b2 != a.b0, a.b3 != a.b0, a.b4 != a.b0, a.b5, a.b6, a.b7, a.b0)
  }

  /** a over 1 + x. */
  function OverOnePlusX(a: Element): (e: Element) {
    Element(
      (((((a.b1 != a.b2) != a.b3) != a.b4) != a.b5) != a.b6) != a.b7,
      ((((a.b2 != a.b3) != a.b4) != a.b5) != a.b6) != a.b7,
      (a.b0 != a.b1) != a.b2,
      ((a.b4 != a.b5) != a.b6) != a.b7,
      (((a.b0 != a.b1) != a.b2) != a.b3) != a.b4,
      ((((a.b0 != a.b1) != a.b2) != a.b3) != a.b4) != a.b5,
      (((((a.b0 != a.b1) != a.b2) != a.b3) != a.b4) != a.b5) != a.b6,
      ((((((a.b0 != a.b1) != a.b2) != a.b3) != a.b4) != a.b5) != a.b6) != a.b7)
  }

  /** a over 1 + x^3. */
  function OverOnePlusX3(a: Element): (e: Element) {
    Element(
      ((a.b0 != a.b1) != a.b4) != a.b7,
      (a.b1 != a.b2) != a.b5,
      (((((a.b0 != a.b1) != a.b2) != a.b3) != a.b4) != a.b6) != a.b7,
      ((a.b0 != a.b2) != a.b3) != a.b5,
      ((a.b0 != a.b3) != a.b6) != a.b7,
      (a.b1 != a.b4) != a.b7,
      a.b2 != a.b5,
      (a.b0 != a.b3) != a.b6)
  }

  /** x^i times a, for i below 4. */
  function Weighted(i: nat, a: Element): (e: Element) {
    if i == 0 then a
    else if i == 1 then Shifted(a)
    else if i == 2 then Shifted(Shifted(a))
    else Shifted(Shifted(Shifted(a)))
  }

  /** a over x^i. */
  function Unweighted(i: nat, a: Element): (e: Element) {
    if i == 0 then a
    else if i == 1 then Unshifted(a)
    else if i == 2 then Unshifted(Unshifted(a))
    else Unshifted(Unshifted(Unshifted(a)))
  }

  /** a over x^i + x^j, for i < j < 4. */
  function UnweightedPair(i: nat, j: nat, a: Element): (e: Element) {
    if i == 0 then
      if j == 1 then OverOnePlusX(a) else if j == 2 then OverOnePlusX(OverOnePlusX(a)) else OverOnePlusX3(a)
    else if i == 1 then
      if j == 2 then Unshifted(OverOnePlusX(a)) else Unshifted(OverOnePlusX(OverOnePlusX(a)))
    else Unshifted(Unshifted(OverOnePlusX(a)))
  }

  lemma {:induction false} UnshiftedShifted(a: Element)
    ensures Unshifted(Shifted(a)) == a
  {
  }

  lemma {:induction false} ShiftedSum(a: Element, b: Element)
    ensures Shifted(Plus(a, b)) == Plus(Shifted(a), Shifted(b))
  {
  }

  lemma {:induction false} OverOnePlusXTimes(a: Element)
    ensures OverOnePlusX(Plus(a, Shifted(a))) == a
  {
  }

  lemma {:induction false} OverOnePlusX3Times(a: Element)
    ensures OverOnePlusX3(Plus(a, Shifted(Shifted(Shifted(a))))) == a
  {
  }

  lemma {:induction false} PlusNothing(a: Element)
    ensures Plus(a, NOTHING) == a && Plus(NOTHING, a) == a && Plus(a, a) == NOTHING
  {
  }

  lemma {:induction false} PlusPlus(a: Element, b: Element, c: Element, d: Element)
    ensures Plus(Plus(a, b), Plus(c, d)) == Plus(Plus(a, c), Plus(b, d))
  {
    var l, r := Plus(Plus(a, b), Plus(c, d)), Plus(Plus(a, c), Plus(b, d));
    assert l.b0 == r.b0;
    assert l.b1 == r.b1;
    assert l.b2 == r.b2;
    assert l.b3 == r.b3;
    assert l.b4 == r.b4;
    assert l.b5 == r.b5;
    assert l.b6 == r.b6;
    assert l.b7 == r.b7;
  }

  lemma {:induction false} PlusTwice(a: Element, b: Element, c: Element)
    ensures Plus(Plus(a, b), Plus(b, c)) == Plus(a, c)
  {
  }

  /** (1 + x)^2 == 1 + x^2 */
  lemma {:induction false} SquareOfSum(a: Element)
    ensures Plus(a, Shifted(Shifted(a))) == Plus(Plus(a, Shifted(a)), Shifted(Plus(a, Shifted(a))))
  {
    hide Plus, Shifted;
    ShiftedSum(a, Shifted(a));
    PlusTwice(a, Shifted(a), Shifted(Shifted(a)));
  }

  lemma {:induction false} UnweightedWeighted(i: nat, a: Element)
    requires i < 4
    ensures Unweighted(i, Weighted(i, a)) == a
  {
    hide Shifted, Unshifted;
    UnshiftedShifted(a);
    UnshiftedShifted(Shifted(a));
    UnshiftedShifted(Shifted(Shifted(a)));
  }

  lemma {:induction false} UnweightedPairWeighted(i: nat, j: nat, a: Element)
    requires i < j < 4
    ensures UnweightedPair(i, j, Plus(Weighted(i, a), Weighted(j, a))) == a
  {
    hide Plus, Shifted, Unshifted, OverOnePlusX, OverOnePlusX3;
    var b, c, s := Shifted(a), Shifted(Shifted(a)), Plus(a, Shifted(a));
    OverOnePlusXTimes(a);
    OverOnePlusXTimes(b);
    OverOnePlusXTimes(c);
    OverOnePlusX3Times(a);
    SquareOfSum(a);
    SquareOfSum(b);
    OverOnePlusXTimes(s);
    OverOnePlusXTimes(Plus(b, Shifted(b)));
    UnshiftedShifted(a);
    UnshiftedShifted(b);
  }

  /** 2 n + b */
  function Binary(b: bool, n: nat): (m: nat)
    ensures m / 2 == n && (m % 2 == 1) == b
  {
    if b then 2 * n + 1 else 2 * n
  }

  function Nibble(b0: bool, b1: bool, b2: bool, b3: bool): (n: nat)
    ensures n < 16
  {
    Binary(b0, Binary(b1, Binary(b2, Binary(b3, 0))))
  }

  function ToByte(a: Element): (x: byte) {
    Nibble(a.b0, a.b1, a.b2, a.b3) + 16 * Nibble(a.b4, a.b5, a.b6, a.b7)
  }

  function FromByte(n: byte): (e: Element) {
    FromNibbles(n % 16, n / 16)
  }

  function FromNibbles(low: nat, high: nat): (e: Element) {
    Element(low % 2 == 1, low / 2 % 2 == 1, low / 2 / 2 % 2 == 1, low / 2 / 2 / 2 % 2 == 1,
            high % 2 == 1, high / 2 % 2 == 1, high / 2 / 2 % 2 == 1, high / 2 / 2 / 2 % 2 == 1)
  }

  lemma {:induction false} NibbleBits(n: nat)
    requires n < 16
    ensures Nibble(n % 2 == 1, n / 2 % 2 == 1, n / 2 / 2 % 2 == 1, n / 2 / 2 / 2 % 2 == 1) == n
  {
  }

  lemma {:induction false} BitsOfNibble(b0: bool, b1: bool, b2: bool, b3: bool)
    ensures var n := Nibble(b0, b1, b2, b3);
      (n % 2 == 1) == b0 && (n / 2 % 2 == 1) == b1 && (n / 2 / 2 % 2 == 1) == b2 && (n / 2 / 2 / 2 % 2 == 1) == b3
  {
  }

  lemma {:induction false} ToByteFromByte(n: byte)
    ensures ToByte(FromByte(n)) == n
  {
    hide Nibble;
    NibbleBits(n % 16);
    NibbleBits(n / 16);
  }

  lemma {:induction false} FromByteToByte(a: Element)
    ensures FromByte(ToByte(a)) == a
  {
    hide Nibble, FromNibbles;
    NibblesBack(a);
    SplitByte(Nibble(a.b0, a.b1, a.b2, a.b3), Nibble(a.b4, a.b5, a.b6, a.b7));
  }

  lemma {:induction false} NibblesBack(a: Element)
    ensures FromNibbles(Nibble(a.b0, a.b1, a.b2, a.b3), Nibble(a.b4, a.b5, a.b6, a.b7)) == a
  {
    hide Nibble;
    BitsOfNibble(a.b0, a.b1, a.b2, a.b3);
    BitsOfNibble(a.b4, a.b5, a.b6, a.b7);
  }

  lemma {:induction false} SplitByte(low: nat, high: nat)
    requires low < 16
    ensures (low + 16 * high) % 16 == low && (low + 16 * high) / 16 == high
  {
  }
}
