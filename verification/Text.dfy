/** ASCII text primitives: case folding, decimal numbers, separators. */
module Text {

  predicate IsDigit(c: char) {
    '0' <= c <= '9'
  }

  function DigitChar(d: nat): char
    requires d < 10
  {
    ((('0' as int) + d) as char)
  }

  function DigitValue(c: char): nat
    requires IsDigit(c)
  {
    (c as int) - ('0' as int)
  }

  predicate AllDigits(s: string) {
    forall c <- s :: IsDigit(c)
  }

  /** The decimal form `format!("{n}")` prints. */
  function Decimal(n: nat): string {
    if n < 10 then [DigitChar(n)] else Decimal(n / 10) + [DigitChar(n % 10)]
  }

  /** The value of a digit string, most significant digit first. */
  function DecimalValue(s: string): nat
    requires AllDigits(s)
  {
    if s == [] then 0 else DecimalValue(s[..|s| - 1]) * 10 + DigitValue(s[|s| - 1])
  }

  /** No sign, no leading zero: the shape `Decimal` produces. */
  predicate Canonical(s: string) {
    AllDigits(s) && s != [] && (s[0] == '0' ==> |s| == 1)
  }

  lemma AppendDigit(s: string, c: char)
    requires AllDigits(s) && IsDigit(c)
    ensures AllDigits(s + [c])
    ensures DecimalValue(s + [c]) == DecimalValue(s) * 10 + DigitValue(c)
  {
    assert (s + [c])[..|s + [c]| - 1] == s;
  }

  lemma {:induction false} DecimalShape(n: nat)
    ensures Canonical(Decimal(n))
    ensures n > 0 ==> Decimal(n)[0] != '0'
    ensures DecimalValue(Decimal(n)) == n
  {
    if n < 10 {
      AppendDigit([], DigitChar(n));
      assert [] + [DigitChar(n)] == Decimal(n);
    } else {
      DecimalShape(n / 10);
      AppendDigit(Decimal(n / 10), DigitChar(n % 10));
    }
  }

  lemma {:induction false} CanonicalIsDecimal(s: string)
    requires AllDigits(s) && s != []
    ensures Canonical(s) <==> Decimal(DecimalValue(s)) == s
  {
    DecimalShape(DecimalValue(s));
    if Canonical(s) {
      var front, last := s[..|s| - 1], s[|s| - 1];
      assert s == front + [last];
      AppendDigit(front, last);
      if front != [] {
        CanonicalIsDecimal(front);
        assert front[0] == s[0];
        DecimalPlusOne(front, last);
      }
    }
  }

  /** Appending a digit to a positive decimal appends it to the printed form. */
  lemma DecimalPlusOne(front: string, last: char)
    requires AllDigits(front) && front != [] && front[0] != '0' && IsDigit(last)
    requires Decimal(DecimalValue(front)) == front
    ensures Decimal(DecimalValue(front) * 10 + DigitValue(last)) == front + [last]
  {
    var v, d := DecimalValue(front), DigitValue(last);
    assert v != 0;
    assert (v * 10 + d) / 10 == v && (v * 10 + d) % 10 == d;
    assert DigitChar(d) == last;
  }

  lemma DecimalInjective(m: nat, n: nat)
    ensures Decimal(m) == Decimal(n) <==> m == n
  {
    DecimalShape(m);
    DecimalShape(n);
  }

  function LowerChar(c: char): char {
    if 'A' <= c <= 'Z' then (((c as int) + 32) as char) else c
  }

  /** `to_ascii_lowercase`. */
  function Lower(s: string): (r: string)
    ensures |r| == |s|
    ensures forall i :: 0 <= i < |s| ==> r[i] == LowerChar(s[i])
  {
    seq(|s|, i requires 0 <= i < |s| => LowerChar(s[i]))
  }

  /** A string splits in one way only at its first separator. */
  lemma SplitAtFirst(c: char, a: string, b: string, a': string, b': string)
    requires c !in a && c !in a'
    requires a + [c] + b == a' + [c] + b'
    ensures a == a' && b == b'
  {
    var whole := a + [c] + b;
    assert whole[|a|] == c && whole[|a'|] == c;
    assert forall j :: 0 <= j < |a| ==> whole[j] == a[j] != c;
    assert forall j :: 0 <= j < |a'| ==> whole[j] == a'[j] != c;
    assert a == whole[..|a|] == a';
    assert b == whole[|a| + 1..] == b';
  }

  /** A string splits in one way only at its last separator. */
  lemma SplitAtLast(c: char, a: string, b: string, a': string, b': string)
    requires c !in b && c !in b'
    requires a + [c] + b == a' + [c] + b'
    ensures a == a' && b == b'
  {
    var whole := a + [c] + b;
    assert whole[|a|] == c && whole[|a'|] == c;
    assert forall j :: |a| < j < |whole| ==> whole[j] == b[j - |a| - 1] != c;
    assert forall j :: |a'| < j < |whole| ==> whole[j] == b'[j - |a'| - 1] != c;
    assert a == whole[..|a|] == a';
    assert b == whole[|a| + 1..] == b';
  }

  /** The index of the first `c`, or the length when there is none. */
  function Find(s: string, c: char): (i: nat)
    ensures i <= |s|
    ensures forall j :: 0 <= j < i ==> s[j] != c
    ensures i < |s| ==> s[i] == c
    ensures i == |s| <==> c !in s
  {
    if s == [] then 0
    else if s[0] == c then 0
    else
      var i := 1 + Find(s[1..], c);
      assert forall j :: 1 <= j < |s| ==> s[j] == s[1..][j - 1];
      i
  }

  /** Strict byte order on text, as `String::cmp`. */
  predicate TextBelow(a: string, b: string) {
    b != [] && (a == [] || a[0] < b[0] || (a[0] == b[0] && TextBelow(a[1..], b[1..])))
  }

  /** The texts agree up to some position, where the first ends or holds the smaller character. */
  predicate PartAt(a: string, b: string, k: nat) {
    && k <= |a| && k <= |b| && a[..k] == b[..k]
    && k < |b| && (k == |a| || a[k] < b[k])
  }

  lemma {:induction false} TextOrderMeans(a: string, b: string)
    ensures TextBelow(a, b) <==> exists k: nat :: PartAt(a, b, k)
  {
    if a != [] && b != [] && a[0] == b[0] {
      TextOrderMeans(a[1..], b[1..]);
      if k: nat :| PartAt(a[1..], b[1..], k) {
        assert a[..k + 1] == [a[0]] + a[1..][..k] && b[..k + 1] == [b[0]] + b[1..][..k];
        assert PartAt(a, b, k + 1);
      }
      if k: nat :| PartAt(a, b, k) {
        assert a[1..][..k - 1] == a[..k][1..] && b[1..][..k - 1] == b[..k][1..];
        assert PartAt(a[1..], b[1..], k - 1);
      }
    } else if b != [] && (a == [] || a[0] < b[0]) {
      assert PartAt(a, b, 0);
    } else if a != [] && b != [] {
      assert forall k: nat :: PartAt(a, b, k) ==> k == 0 || a[..k][0] == b[..k][0];
    }
  }

  lemma {:induction false} TextOrderIsTotal(a: string, b: string)
    ensures TextBelow(a, b) || TextBelow(b, a) || a == b
    ensures !(TextBelow(a, b) && (TextBelow(b, a) || a == b))
  {
    if a != [] && b != [] && a[0] == b[0] {
      TextOrderIsTotal(a[1..], b[1..]);
      assert a == [a[0]] + a[1..] && b == [b[0]] + b[1..];
    }
  }

  lemma {:induction false} TextOrderIsTransitive(a: string, b: string, c: string)
    requires TextBelow(a, b) && TextBelow(b, c)
    ensures TextBelow(a, c)
  {
    if a != [] && a[0] == b[0] == c[0] {
      TextOrderIsTransitive(a[1..], b[1..], c[1..]);
    }
  }
}
