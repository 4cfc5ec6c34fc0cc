// Decimal rendering of numbers, as String(n) gives it.
module DecimalText {

  function Decimal(n: nat): (text: string)
    ensures |text| > 0
    ensures forall c :: c in text ==> '0' <= c <= '9'
  {
    if n < 10 then [('0' as int + n) as char]
    else Decimal(n / 10) + [('0' as int + n % 10) as char]
  }

  lemma {:induction false} DecimalInjective(m: nat, n: nat)
    ensures Decimal(m) == Decimal(n) ==> m == n
  {
    if m >= 10 && n >= 10 && Decimal(m) == Decimal(n) {
      assert Decimal(m)[..|Decimal(m)| - 1] == Decimal(m / 10);
      assert Decimal(n)[..|Decimal(n)| - 1] == Decimal(n / 10);
      DecimalInjective(m / 10, n / 10);
      assert Decimal(m)[|Decimal(m)| - 1] == Decimal(n)[|Decimal(n)| - 1];
    }
  }
}
