/**
 * Tentative distances: the scenes store `float('inf')` or an integer; here
 * an extended natural. Also the text a distance cell shows.
 */
module Distance {

  datatype Dist = Inf | Fin(n: nat)

  /** `d + w` with `inf + w == inf`. */
  function Plus(d: Dist, w: nat): Dist {
    match d
    case Inf => Inf
    case Fin(n) => Fin(n + w)
  }

  /** Python's `<` on a number or `inf`: nothing is below a finite value but smaller finite ones. */
  predicate Less(a: Dist, b: Dist) {
    match (a, b)
    case (Fin(x), Fin(y)) => x < y
    case (Fin(_), Inf) => true
    case (Inf, _) => false
  }

  predicate AtMost(a: Dist, b: Dist) {
    !Less(b, a)
  }

  function Min(a: Dist, b: Dist): (r: Dist)
    ensures AtMost(r, a) && AtMost(r, b)
    ensures r == a || r == b
  {
    if Less(b, a) then b else a
  }

  /** `AtMost` is a total preorder that `Plus` respects. */
  lemma AtMostFacts()
    ensures forall a, b, c :: AtMost(a, b) && AtMost(b, c) ==> AtMost(a, c)
    ensures forall a, b, c :: Less(a, b) && AtMost(b, c) ==> Less(a, c)
    ensures forall a, b, c :: AtMost(a, b) && Less(b, c) ==> Less(a, c)
    ensures forall a, b :: AtMost(a, b) || AtMost(b, a)
    ensures forall a: Dist, w: nat :: AtMost(a, Plus(a, w))
  {
  }

  // ------------------------------------------------------------ cell text

  const Infinity: string := "\U{221E}"

  function DigitChar(d: nat): char
    requires d < 10
  {
    "0123456789"[d]
  }

  /** `str(n)` for a non-negative integer. */
  function Decimal(n: nat): string
    decreases n
  {
    if n < 10 then [DigitChar(n)] else Decimal(n / 10) + [DigitChar(n % 10)]
  }

  /** The text of a distance cell: `"∞"` for an infinite distance, the integer otherwise. */
  function CellText(d: Dist): string {
    match d
    case Inf => Infinity
    case Fin(n) => Decimal(n)
  }

  function DigitValue(c: char): nat {
    if '0' <= c <= '9' then (c as int - '0' as int) as nat else 0
  }

  function ParseDecimal(s: string): nat
    decreases |s|
  {
    if |s| == 0 then 0 else 10 * ParseDecimal(s[..|s| - 1]) + DigitValue(s[|s| - 1])
  }

  /** How a reader of the table turns a cell's text back into a distance. */
  function ReadCell(s: string): Dist {
    if s == Infinity then Inf else Fin(ParseDecimal(s))
  }

  predicate IsDigits(s: string) {
    |s| > 0 && forall i :: 0 <= i < |s| ==> '0' <= s[i] <= '9'
  }

  lemma {:induction false} DecimalRoundTrip(n: nat)
    ensures IsDigits(Decimal(n))
    ensures ParseDecimal(Decimal(n)) == n
    decreases n
  {
    if n >= 10 {
      DecimalRoundTrip(n / 10);
      var s := Decimal(n);
      assert s[..|s| - 1] == Decimal(n / 10);
    }
  }

  /** The table shows every distance faithfully: reading a cell gives back the distance it displays. */
  lemma CellRoundTrip(d: Dist)
    ensures ReadCell(CellText(d)) == d
  {
    if d.Fin? {
      DecimalRoundTrip(d.n);
      assert Decimal(d.n) != Infinity by {
        assert !('0' <= Infinity[0] <= '9');
      }
    }
  }
}
