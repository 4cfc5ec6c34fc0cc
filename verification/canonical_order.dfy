// The order in which the signed text lists the members of an object, said
// with the keys as numbers and as code units.
module CanonicalOrder {
  import opened CanonicalJson
  import opened JsonText
  import opened Options

  // ---- Keys as numbers ----

  function Pow10(n: nat): (p: nat)
    ensures p > 0
  {
    if n == 0 then 1 else 10 * Pow10(n - 1)
  }

  predicate Digits(k: Text) {
    forall i :: 0 <= i < |k| ==> 0x30 <= k[i] < 0x3a
  }

  /** The number that decimal digits stand for. */
  function NumberOf(k: Text): (n: nat)
    requires Digits(k)
    ensures n < Pow10(|k|)
  {
    if k == [] then 0
    else
      DigitFits(k[0] - 0x30, Pow10(|k| - 1));
      (k[0] - 0x30) * Pow10(|k| - 1) + NumberOf(k[1..])
  }

  lemma {:induction false} Leads(c: nat, d: nat, p: nat)
    requires c < d
    ensures c * p + p <= d * p
    decreases d
  {
    if c + 1 < d {
      Leads(c, d - 1, p);
    }
  }

  lemma DigitFits(d: nat, p: nat)
    requires d < 10
    ensures 0 <= d * p && d * p + p <= 10 * p
  {
    Leads(d, 10, p);
    if d > 0 {
      Leads(0, d, p);
    }
  }

  /** Digits without leading zeros. */
  predicate Numeral(k: Text) {
    k != [] && Digits(k) && (k[0] == 0x30 ==> |k| == 1)
  }

  /** A number below 2^32 - 1. */
  predicate ArrayIndex(k: Text) {
    Numeral(k) && NumberOf(k) < 4294967295
  }

  lemma {:induction false} Pow10Grows(m: nat, n: nat)
    requires m <= n
    ensures Pow10(m) <= Pow10(n)
  {
    if m < n {
      Pow10Grows(m, n - 1);
    }
  }

  lemma {:induction false} LessByNumber(a: Text, b: Text)
    requires Digits(a) && Digits(b) && |a| == |b|
    ensures Less(a, b) <==> NumberOf(a) < NumberOf(b)
    decreases |a|
  {
    if a != [] {
      var c, d, p := a[0] - 0x30, b[0] - 0x30, Pow10(|a| - 1);
      if c < d {
        Leads(c, d, p);
      } else if d < c {
        Leads(d, c, p);
      } else {
        LessByNumber(a[1..], b[1..]);
      }
    }
  }

  lemma LongNumbers(k: Text)
    requires Numeral(k) && |k| > 1
    ensures NumberOf(k) >= Pow10(|k| - 1)
  {
    Leads(0, k[0] - 0x30, Pow10(|k| - 1));
  }

  lemma TenDigits()
    ensures Pow10(9) == 1_000_000_000 && Pow10(10) == 10_000_000_000
  {
  }

  lemma DigitAt(k: Text, i: nat, n: nat, p: nat)
    requires i < |k| && Digits(k) && NumberOf(k[i + 1..]) == n && Pow10(|k| - i - 1) == p
    ensures NumberOf(k[i..]) == (k[i] - 0x30) * p + n && Pow10(|k| - i) == 10 * p
  {
    assert k[i..][1..] == k[i + 1..];
  }

  lemma LowDigits(k: Text)
    requires k == MAX_INDEX
    ensures Digits(k) && NumberOf(k[5..]) == 67295 && Pow10(5) == 100000
  {
    DigitAt(k, 9, 0, 1);
    DigitAt(k, 8, 5, 10);
    DigitAt(k, 7, 95, 100);
    DigitAt(k, 6, 295, 1000);
    DigitAt(k, 5, 7295, 10000);
  }

  lemma MiddleDigits(k: Text)
    requires k == MAX_INDEX
    ensures Digits(k) && NumberOf(k[2..]) == 94967295 && Pow10(8) == 100000000
  {
    LowDigits(k);
    DigitAt(k, 4, 67295, 100000);
    DigitAt(k, 3, 967295, 1000000);
    DigitAt(k, 2, 4967295, 10000000);
  }

  lemma MaxIndexNumber(k: Text)
    requires k == MAX_INDEX
    ensures Digits(k) && NumberOf(k) == 4294967295
  {
    MiddleDigits(k);
    DigitAt(k, 1, 94967295, 100000000);
    DigitAt(k, 0, 294967295, 1000000000);
    assert k[0..] == k;
  }

  lemma ShortIndex(k: Text)
    requires Numeral(k) && |k| < 10
    ensures NumberOf(k) < 4294967295
  {
    TenDigits();
    Pow10Grows(|k|, 9);
  }

  lemma LongIndex(k: Text)
    requires Numeral(k) && |k| > 10
    ensures NumberOf(k) >= 4294967295
  {
    TenDigits();
    LongNumbers(k);
    Pow10Grows(10, |k| - 1);
  }

  /** The keys that come first are the array indexes. */
  lemma IndexKeysAreIndexes(k: Text)
    ensures IndexKey(k) <==> ArrayIndex(k)
  {
    if Numeral(k) {
      if |k| < 10 {
        ShortIndex(k);
      } else if |k| == 10 {
        MaxIndexNumber(MAX_INDEX);
        LessByNumber(k, MAX_INDEX);
      } else {
        LongIndex(k);
      }
    } else {
      assert !IndexKey(k) && !ArrayIndex(k);
    }
  }

  // ---- Keys as code units ----

  /** Up to some place the keys agree; there the one ends or has the smaller code unit. */
  ghost predicate Increases(a: Text, b: Text) {
    exists p: nat :: p <= |a| && p < |b| && a[..p] == b[..p] && (p == |a| || a[p] < b[p])
  }

  lemma {:induction false} LessIncreases(a: Text, b: Text)
    requires Less(a, b)
    ensures Increases(a, b)
    decreases |a|
  {
    if a == [] || a[0] < b[0] {
      assert a[..0] == b[..0];
    } else {
      LessIncreases(a[1..], b[1..]);
      var p: nat :| p <= |a[1..]| && p < |b[1..]| && a[1..][..p] == b[1..][..p] && (p == |a[1..]| || a[1..][p] < b[1..][p]);
      assert a[..p + 1] == [a[0]] + a[1..][..p] && b[..p + 1] == [b[0]] + b[1..][..p];
    }
  }

  // ---- The order of members ----

  /** Array indexes come first, by their numbers; the other keys follow, by their code units. */
  ghost predicate Before(a: Text, b: Text) {
    if ArrayIndex(a) && ArrayIndex(b) then NumberOf(a) < NumberOf(b)
    else ArrayIndex(a) || (!ArrayIndex(b) && Increases(a, b))
  }

  lemma PrecedesIsBefore(a: Text, b: Text)
    requires Precedes(a, b)
    ensures Before(a, b)
  {
    IndexKeysAreIndexes(a);
    IndexKeysAreIndexes(b);
    if IndexKey(a) && IndexKey(b) {
      if |a| == |b| {
        LessByNumber(a, b);
      } else {
        LongNumbers(b);
        Pow10Grows(|a|, |b| - 1);
      }
    } else if !IndexKey(a) {
      LessIncreases(a, b);
    }
  }

  ghost predicate KeysInOrder(v: Json)
    decreases v
  {
    match v
    case Arr(items) => forall i :: 0 <= i < |items| ==> KeysInOrder(items[i])
    case Obj(members) =>
      (forall i, j :: 0 <= i < j < |members| ==> Before(members[i].key, members[j].key))
      && forall i :: 0 <= i < |members| ==> members[i].value.Some? ==> KeysInOrder(members[i].value.value)
    case _ => true
  }

  /** What is signed lists its members in that order, at every depth. */
  lemma {:induction false} SignedInOrder(v: Json)
    requires Proper(v)
    ensures KeysInOrder(Normal(v))
    decreases v
  {
    match v
    case Arr(items) =>
      forall i | 0 <= i < |items|
        ensures KeysInOrder(Normal(v).items[i])
      {
        SignedInOrder(items[i]);
      }
    case Obj(members) =>
      SortedHolds(v, 0);
      var r := SortedFrom(v, 0);
      forall i, j | 0 <= i < j < |r|
        ensures Before(r[i].key, r[j].key)
      {
        PrecedesIsBefore(r[i].key, r[j].key);
      }
      forall i | 0 <= i < |r|
        ensures r[i].value.Some? && KeysInOrder(r[i].value.value)
      {
        assert r[i] in r;
        var k := SortedGives(v, r[i]);
        SignedInOrder(members[k].value.value);
      }
    case _ =>
  }
}
