/** Decimal digits of a natural number, most significant first. */
module Decimal {

  function Digits(n: nat): (d: seq<nat>)
    ensures d != [] && forall i :: 0 <= i < |d| ==> d[i] < 10
  {
    if n < 10 then [n] else Digits(n / 10) + [n % 10]
  }

  lemma {:induction false} NoLeadingZero(n: nat)
    ensures Digits(n)[0] == 0 ==> |Digits(n)| == 1
  {
    if n >= 10 {
      NoLeadingZero(n / 10);
      if Digits(n / 10) == [0] { Positive(n / 10); }
    }
  }

  lemma Positive(n: nat)
    requires n > 0
    ensures Digits(n) != [0]
  {
  }

  function Value(d: seq<nat>): nat {
    if d == [] then 0 else 10 * Value(d[..|d| - 1]) + d[|d| - 1]
  }

  lemma {:induction false} ValueOfDigits(n: nat)
    ensures Value(Digits(n)) == n
  {
    if n >= 10 {
      ValueOfDigits(n / 10);
      assert Digits(n)[..|Digits(n)| - 1] == Digits(n / 10);
    }
  }

  /** Digits without a leading zero are those of their value. */
  lemma {:induction false} DigitsOfValue(d: seq<nat>)
    requires d != [] && (d[0] == 0 ==> |d| == 1) && forall i :: 0 <= i < |d| ==> d[i] < 10
    ensures Digits(Value(d)) == d
    ensures |d| > 1 ==> Value(d) >= 10
  {
    var front, last := d[..|d| - 1], d[|d| - 1];
    assert d == front + [last];
    if front == [] {
      assert Value(front) == 0;
    } else {
      DigitsOfValue(front);
      assert Value(front) > 0 by { if |front| == 1 { assert front[..0] == [] && front == [front[0]]; } }
      assert Value(d) / 10 == Value(front) && Value(d) % 10 == last;
    }
  }

  lemma {:induction false} LeadingZero(d: seq<nat>)
    ensures Value([0] + d) == Value(d)
  {
    if d == [] {
      assert ([0] + d)[..0] == [];
    } else {
      assert ([0] + d)[..|d|] == [0] + d[..|d| - 1];
      LeadingZero(d[..|d| - 1]);
    }
  }

  /** Pads with zeros on the left to four places, as the format `04d` does. */
  function Pad(d: seq<nat>): seq<nat>
    decreases 4 - |d|
  {
    if |d| < 4 then Pad([0] + d) else d
  }

  /** At least four digits, and no more zeros than that takes. */
  lemma {:induction false} PadsToFour(d: seq<nat>)
    ensures |Pad(d)| == if |d| < 4 then 4 else |d|
    decreases 4 - |d|
  {
    if |d| < 4 { PadsToFour([0] + d); }
  }

  lemma {:induction false} ValueOfPadded(d: seq<nat>)
    ensures Value(Pad(d)) == Value(d)
    decreases 4 - |d|
  {
    if |d| < 4 {
      ValueOfPadded([0] + d);
      LeadingZero(d);
    }
  }
}
