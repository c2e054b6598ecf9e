/**
 * The unit choice of `convert_bytes_to_human_readable` (dodo.py, lines
 * 137-154). The number in front of the unit is the float rendering of
 * `B / unit` (`{0}` below 1 KB, `{0:.2f}` above); that text is a parameter
 * of the model, the unit and its word are computed here.
 */
module ByteUnits {

  datatype Unit = Byte | KB | MB | GB | TB

  /** How many bytes one of the unit stands for: 1024 to the unit's rank. */
  function Scale(u: Unit): nat
  {
    match u
    case Byte => 1
    case KB => 1024
    case MB => 1048576
    case GB => 1073741824
    case TB => 1099511627776
  }

  function Rank(u: Unit): nat
  {
    match u
    case Byte => 0
    case KB => 1
    case MB => 2
    case GB => 3
    case TB => 4
  }

  /**
   * The branch of the comparison chain that a byte count takes. The brackets
   * are half-open: a count gets the largest unit it reaches, and every count
   * from 1024^4 up is in TB.
   */
  function UnitOf(b: int): (u: Unit)
    ensures u == Byte <==> b < 1024
    ensures u != Byte ==> Scale(u) <= b
    ensures u != TB ==> b < 1024 * Scale(u)
  {
    if b < Scale(KB) then Byte
    else if Scale(KB) <= b < Scale(MB) then KB
    else if Scale(MB) <= b < Scale(GB) then MB
    else if Scale(GB) <= b < Scale(TB) then GB
    else TB
  }

  /**
   * The word after a count below 1 KB. The source writes the chained
   * comparison `0 == B > 1`, that is `0 == B and B > 1`, which no number
   * satisfies, so the word is always the singular.
   */
  function UnitWord(b: int): (w: string)
    ensures w == "Byte"
  {
    if 0 == b && b > 1 then "Bytes" else "Byte"
  }

  function UnitLabel(b: int): string
  {
    match UnitOf(b)
    case Byte => UnitWord(b)
    case KB => "KB"
    case MB => "MB"
    case GB => "GB"
    case TB => "TB"
  }

  /**
   * `convert_bytes_to_human_readable`: the rendered magnitude, a space and the
   * unit. `magnitude(b, u)` stands for Python's float text of `b / Scale(u)`.
   */
  function HumanReadable(b: int, magnitude: (int, Unit) -> string): (r: string)
    ensures b < 1024 ==> r == magnitude(b, Byte) + " Byte"
    ensures b >= 1024 ==> r == magnitude(b, UnitOf(b)) + " " + UnitLabel(b) && |UnitLabel(b)| == 2
  {
    magnitude(b, UnitOf(b)) + " " + UnitLabel(b)
  }

  /**
   * The whole part of the printed magnitude `B / unit` lies in [1, 1024) for
   * every count from 1 KB up to TB, and is at least 1 in TB.
   */
  lemma MagnitudeInRange(b: int)
    requires b >= 1024
    ensures 1 <= b / Scale(UnitOf(b))
    ensures UnitOf(b) != TB ==> b / Scale(UnitOf(b)) < 1024
    ensures UnitOf(b) == TB <==> b >= 1099511627776
  {
    var u := UnitOf(b);
    var q := b / Scale(u);
    assert Scale(u) * q <= b < Scale(u) * (q + 1);
  }

  /** A larger count never gets a smaller unit. */
  lemma UnitMonotone(b1: int, b2: int)
    requires b1 <= b2
    ensures Rank(UnitOf(b1)) <= Rank(UnitOf(b2))
  {
  }

  function Pow1024(k: nat): (p: nat)
    ensures p >= 1
  {
    if k == 0 then 1 else 1024 * Pow1024(k - 1)
  }

  /** How often a count can be divided by 1024 before it drops below 1024. */
  function Log1024(b: nat): nat
  {
    if b < 1024 then 0 else 1 + Log1024(b / 1024)
  }

  lemma {:induction false} LogBounds(b: nat)
    ensures b >= 1 ==> Pow1024(Log1024(b)) <= b
    ensures b < 1024 * Pow1024(Log1024(b))
  {
    if b >= 1024 {
      var q := b / 1024;
      LogBounds(q);
      assert Pow1024(Log1024(b)) == 1024 * Pow1024(Log1024(q));
    }
  }

  lemma {:induction false} PowMonotone(j: nat, k: nat)
    requires j <= k
    ensures Pow1024(j) <= Pow1024(k)
  {
    if j < k {
      PowMonotone(j, k - 1);
    }
  }

  /**
   * The comparison chain agrees with an independent definition: the unit's
   * rank is the integer base-1024 logarithm of the count, capped at TB.
   */
  lemma UnitIsCappedLog(b: nat)
    ensures Rank(UnitOf(b)) == if Log1024(b) < 4 then Log1024(b) else 4
  {
    var k := Log1024(b);
    LogBounds(b);
    assert Pow1024(1) == 1024;
    assert Pow1024(2) == 1048576;
    assert Pow1024(3) == 1073741824;
    assert Pow1024(4) == 1099511627776;
    if b == 0 {
      assert k == 0;
    } else if k >= 4 {
      PowMonotone(4, k);
    } else if k >= 1 {
      PowMonotone(k, 3);
    }
  }
}
