/** What numerals mean, without the functions that read and print them. */
module Numerals {
  import opened Wire

  /** The digits by their value, in either case. */
  predicate Writes(c: byte, d: nat)
    requires d < 16
  {
    c == "0123456789abcdef"[d] as int || c == "0123456789ABCDEF"[d] as int
  }

  function Power(radix: nat, n: nat): nat { if n == 0 then 1 else radix * Power(radix, n - 1) }

  /** The positional value of digits, most significant first. */
  function Value(ds: seq<nat>, radix: nat): nat {
    if ds == [] then 0 else ds[0] * Power(radix, |ds| - 1) + Value(ds[1..], radix)
  }

  /** `text` consists of these digits, in either case. */
  ghost predicate WritesAll(text: Bytes, ds: seq<nat>, radix: nat)
    requires radix <= 16
  {
    |text| == |ds| && forall i | 0 <= i < |ds| :: ds[i] < radix && Writes(text[i], ds[i])
  }

  /** `text` writes the number `n` in this radix: any case, any number of leading zeros. */
  ghost predicate Spells(text: Bytes, n: nat, radix: nat)
    requires radix <= 16
  {
    exists ds :: WritesAll(text, ds, radix) && Value(ds, radix) == n
  }

  lemma DigitMeaning(c: byte, radix: nat, d: nat)
    requires d < 16 && radix <= 16
    ensures Digit(c, radix) == Some(d) <==> d < radix && Writes(c, d)
  {
    var lower, upper := "0123456789abcdef", "0123456789ABCDEF";
    assert d < 10 ==> lower[d] as int == 48 + d && upper[d] as int == 48 + d;
    assert d >= 10 ==> lower[d] as int == 87 + d && upper[d] as int == 55 + d;
  }

  lemma {:induction false} ValueSnoc(ds: seq<nat>, d: nat, radix: nat)
    ensures Value(ds + [d], radix) == Value(ds, radix) * radix + d
  {
    if ds == [] {
      assert ds + [d] == [d] && [d][1..] == [];
      assert Power(radix, 0) == 1;
    } else {
      var rest := ds[1..];
      ValueSnoc(rest, d, radix);
      assert (ds + [d])[1..] == rest + [d];
      Regrouped(ds[0], radix, Power(radix, |rest|), Value(rest, radix), d);
    }
  }

  lemma Regrouped(first: nat, radix: nat, power: nat, rest: nat, d: nat)
    ensures first * (radix * power) + (rest * radix + d) == (first * power + rest) * radix + d
  {
    assert first * (radix * power) == first * power * radix;
  }

  /** Reading a numeral finds exactly the number it spells. */
  lemma {:induction false} NumeralMeaning(s: Bytes, radix: nat, n: nat)
    requires radix <= 16
    ensures Numeral(s, radix) == Some(n) <==> Spells(s, n, radix)
  {
    if Numeral(s, radix).Some? {
      var ds := DigitsOf(s, radix);
      if n == Numeral(s, radix).value {
        assert WritesAll(s, ds, radix);
      }
    }
    if Spells(s, n, radix) {
      var ds :| WritesAll(s, ds, radix) && Value(ds, radix) == n;
      NumeralOfDigits(s, ds, radix);
    }
  }

  lemma {:induction false} DigitsOf(s: Bytes, radix: nat) returns (ds: seq<nat>)
    requires radix <= 16 && Numeral(s, radix).Some?
    ensures WritesAll(s, ds, radix) && Numeral(s, radix) == Some(Value(ds, radix))
  {
    ds := [];
    if s != [] {
      var k := |s| - 1;
      var front := DigitsOf(s[..k], radix);
      var d := Digit(s[k], radix).value;
      DigitMeaning(s[k], radix, d);
      ValueSnoc(front, d, radix);
      ds := front + [d];
    }
  }

  lemma {:induction false} NumeralOfDigits(s: Bytes, ds: seq<nat>, radix: nat)
    requires radix <= 16 && WritesAll(s, ds, radix)
    ensures Numeral(s, radix) == Some(Value(ds, radix))
  {
    if s != [] {
      var k := |s| - 1;
      var front := ds[..k];
      NumeralOfDigits(s[..k], front, radix);
      DigitMeaning(s[k], radix, ds[k]);
      assert ds == front + [ds[k]];
      ValueSnoc(front, ds[k], radix);
      assert Numeral(s, radix) == Some(Value(front, radix) * radix + ds[k]);
    }
  }

  lemma PlusIsNoDigit(s: Bytes, n: nat, radix: nat)
    requires radix <= 16 && s != [] && s[0] == '+' as int
    ensures !Spells(s, n, radix)
  {
    if Spells(s, n, radix) {
      var ds :| WritesAll(s, ds, radix) && Value(ds, radix) == n;
      DigitMeaning(s[0], 16, ds[0]);
    }
  }

  /** A numeral of at least one digit, perhaps behind a `+`. */
  ghost predicate Reads(s: Bytes, n: nat, radix: nat)
    requires radix <= 16
  {
    (s != [] && Spells(s, n, radix)) || (|s| > 1 && s[0] == '+' as int && Spells(s[1..], n, radix))
  }

  lemma PrintReads(n: nat, radix: nat)
    requires 2 <= radix <= 16
    ensures Reads(Print(n, radix), n, radix)
  {
    PrintSpells(n, radix);
  }

  /** What `from_str_radix` accepts: a numeral of at least one digit, perhaps behind a `+`, up to the maximum. */
  lemma ParseUintMeaning(s: Bytes, radix: nat, max: nat, n: nat)
    requires radix <= 16
    ensures ParseUint(s, radix, max) == Some(n) <==>
            n <= max && Reads(s, n, radix)
  {
    if s != [] && s[0] == '+' as int {
      PlusIsNoDigit(s, n, radix);
      NumeralMeaning(s[1..], radix, n);
    } else {
      NumeralMeaning(s, radix, n);
    }
  }

  /** What is printed spells the number, with lower-case digits only and without leading zeros. */
  lemma PrintSpells(n: nat, radix: nat)
    requires 2 <= radix <= 16
    ensures Spells(Print(n, radix), n, radix)
    ensures forall c | c in Print(n, radix) :: !('A' as int <= c <= 'Z' as int)
    ensures Print(n, radix)[0] == '0' as int <==> n == 0
    ensures n < radix ==> |Print(n, radix)| == 1
  {
    NumeralOfPrint(n, radix);
    NumeralMeaning(Print(n, radix), radix, n);
    PrintShape(n, radix);
  }

  lemma {:induction false} PrintShape(n: nat, radix: nat)
    requires 2 <= radix <= 16
    ensures forall c | c in Print(n, radix) :: !('A' as int <= c <= 'Z' as int)
    ensures Print(n, radix)[0] == '0' as int <==> n == 0
    ensures n < radix ==> |Print(n, radix)| == 1
    decreases n
  {
    if n >= radix {
      PrintSplits(n, radix);
      PrintShape(n / radix, radix);
      QuotientPositive(n, radix);
    }
  }

  lemma QuotientPositive(n: nat, d: nat)
    requires 0 < d <= n
    ensures n / d > 0
  {
  }

  /** The case of the digits does not matter. */
  lemma {:induction false} SpellsInAnyCase(a: Bytes, b: Bytes, n: nat, radix: nat)
    requires radix <= 16 && EqIgnoreCase(a, b) && Spells(a, n, radix)
    ensures Spells(b, n, radix)
  {
    var ds :| WritesAll(a, ds, radix) && Value(ds, radix) == n;
    forall i | 0 <= i < |ds| ensures Writes(b[i], ds[i]) {
      DigitMeaning(a[i], 16, ds[i]);
      DigitMeaning(b[i], 16, ds[i]);
      CaseMeaning(a[i], b[i]);
    }
    assert WritesAll(b, ds, radix);
  }

  /** Nothing but digits spells a number. */
  lemma SpelledInDigits(s: Bytes, n: nat, radix: nat)
    requires radix <= 16 && Spells(s, n, radix)
    ensures forall c | c in s ::
              '0' as int <= c <= '9' as int || 'A' as int <= c <= 'F' as int || 'a' as int <= c <= 'f' as int
  {
    var ds :| WritesAll(s, ds, radix) && Value(ds, radix) == n;
    forall i | 0 <= i < |s| ensures Digit(s[i], 16).Some? {
      DigitMeaning(s[i], 16, ds[i]);
    }
  }
}
