/** The shape of the printed IPv6 text: digits, no leading zeros, and a "::" that takes in a whole run. */
module AddressForm {
  import opened AddressText

  lemma DigitForm(d: nat)
    requires d < 16
    ensures Digit(d) as int == if d < 10 then '0' as int + d else 'a' as int + (d - 10)
  {
    assert DIGITS[..10] == "0123456789" && DIGITS[10..] == "abcdef";
  }

  /** A lower-case digit of the base. */
  predicate IsDigit(c: char, base: Base) {
    '0' <= c <= '9' || (base == 16 && 'a' <= c <= 'f')
  }

  /** Numbers are printed in lower-case digits, and only zero begins with a 0. */
  lemma {:induction false} NumeralForm(n: nat, base: Base)
    ensures forall i :: 0 <= i < |Numeral(n, base)| ==> IsDigit(Numeral(n, base)[i], base)
    ensures Numeral(n, base)[0] == '0' <==> n == 0
    ensures n == 0 ==> Numeral(n, base) == "0"
  {
    DigitForm(n % base);
    if n >= base {
      NumeralForm(n / base, base);
    }
  }

  lemma JoinFirst(gs: seq<nat>)
    requires gs != []
    ensures Join(gs) != [] && Join(gs)[0] == Numeral(gs[0], 16)[0]
  {
  }

  /** In the body of the text. */
  lemma AfterDouble(g: seq<nat>, i: int)
    requires DoubleAt(Body(g), i)
    ensures i + 2 < |Body(g)| ==> Body(g)[i + 2] != '0'
  {
    var z := FirstZero(g, 0);
    if z == |g| {
      JoinTame(g);
    } else {
      var e := RunEnd(g, z);
      JoinTame(g[..z]);
      JoinTame(g[e..]);
      OneDouble(Join(g[..z]), Join(g[e..]), i);
      if e < |g| {
        JoinFirst(g[e..]);
        NumeralForm(g[e], 16);
      }
    }
  }

  /** The group behind "::" is not zero, so the "::" stands for the whole of the first run. */
  lemma WholeRun(g: seq<nat>, port: nat, i: int)
    requires DoubleAt(Printed(g, port), i)
    ensures i + 2 < |Printed(g, port)| && Printed(g, port)[i + 2] != '0'
  {
    var b, n := Body(g), Numeral(port, 10);
    assert Printed(g, port) == "[" + b + "]:" + n;
    assert DoubleAt(b, i - 1);
    AfterDouble(g, i - 1);
  }

  /** The loopback address. */
  lemma Loopback()
    ensures Printed([0, 0, 0, 0, 0, 0, 0, 1], 80) == "[::1]:80"
  {
    var g := [0, 0, 0, 0, 0, 0, 0, 1];
    assert FirstZero(g, 0) == 0 && RunEnd(g, 0) == 7;
    assert g[..0] == [] && g[7..] == [1];
    DigitForm(1);
    DigitForm(8);
    DigitForm(0);
    assert Numeral(8, 10) == "8";
    assert Numeral(80, 10) == "80";
    assert Numeral(1, 16) == "1";
  }
}
