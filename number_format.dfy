/**
 * The two ways the builders render an integer: `Id.ToString()` and the
 * `{price:N0}` of the titles. `N0` is culture-dependent; this model fixes
 * the English grouping (',' every three digits, no decimals).
 */
module NumberFormat {
  import opened Common

  function DigitChar(d: nat): (c: char)
    requires d < 10
    ensures '0' <= c <= '9'
  {
    ('0' as int + d) as char
  }

  /** Decimal digits of `n`, most significant first, without leading zeros. */
  function Digits(n: nat): (r: string)
    ensures |r| >= 1
    ensures forall i | 0 <= i < |r| :: '0' <= r[i] <= '9'
    decreases n
  {
    if n < 10 then [DigitChar(n)] else Digits(n / 10) + [DigitChar(n % 10)]
  }

  /** The value a string of decimal digits denotes (the inverse of Digits). */
  function DigitsValue(s: string): int {
    if s == [] then 0 else DigitsValue(s[..|s| - 1]) * 10 + (s[|s| - 1] as int - '0' as int)
  }

  lemma {:induction false} DigitsRoundTrip(n: nat)
    ensures DigitsValue(Digits(n)) == n
    decreases n
  {
    if n >= 10 {
      DigitsRoundTrip(n / 10);
      var s := Digits(n);
      assert s[..|s| - 1] == Digits(n / 10);
    }
  }

  /** `int.ToString()`: a '-' sign for negatives, then the digits. */
  function IntToString(n: int): (r: string)
    ensures |r| > 0 && (n < 0 <==> r[0] == '-')
  {
    if n < 0 then "-" + Digits(-n) else Digits(n)
  }

  /** Reading `IntToString(n)` back yields `n`, so distinct ids get distinct texts. */
  lemma IntToStringRoundTrip(n: int)
    ensures var s := IntToString(n);
            (if s[0] == '-' then -DigitsValue(s[1..]) else DigitsValue(s)) == n
  {
    if n < 0 {
      DigitsRoundTrip(-n);
      assert IntToString(n)[1..] == Digits(-n);
    } else {
      DigitsRoundTrip(n);
    }
  }

  /** The three zero-padded digits of a group that follows a thousands separator. */
  function Pad3(r: nat): string
    requires r < 1000
  {
    [DigitChar(r / 100), DigitChar(r / 10 % 10), DigitChar(r % 10)]
  }

  /** `{n:N0}` for a non-negative `n`: digits grouped by three with ',' and no decimals. */
  function N0(n: nat): string
    decreases n
  {
    if n < 1000 then Digits(n) else N0(n / 1000) + "," + Pad3(n % 1000)
  }

  /** Drops the grouping separators. */
  function RemoveCommas(s: string): (r: string)
    ensures ',' !in r
  {
    if s == [] then [] else (if s[0] == ',' then [] else [s[0]]) + RemoveCommas(s[1..])
  }

  lemma {:induction false} RemoveCommasAppend(a: string, b: string)
    ensures RemoveCommas(a + b) == RemoveCommas(a) + RemoveCommas(b)
  {
    if a == [] {
      assert a + b == b;
    } else {
      assert (a + b)[0] == a[0];
      assert (a + b)[1..] == a[1..] + b;
      RemoveCommasAppend(a[1..], b);
    }
  }

  lemma NoCommasInDigits(s: string)
    requires forall i | 0 <= i < |s| :: '0' <= s[i] <= '9'
    ensures RemoveCommas(s) == s
  {
  }

  lemma DigitsStep(q: nat, d: nat)
    requires q > 0 && d < 10
    ensures Digits(10 * q + d) == Digits(q) + [DigitChar(d)]
  {
    assert (10 * q + d) / 10 == q;
    assert (10 * q + d) % 10 == d;
  }

  /** The three decimal digits of a group below 1000. */
  lemma GroupDigits(r: nat)
    requires r < 1000
    ensures r / 100 < 10
    ensures r / 10 == 10 * (r / 100) + r / 10 % 10
    ensures r == 10 * (r / 10) + r % 10
  {
    var a, b := r / 100, r % 100;
    assert r == 100 * a + b && b < 100;
    assert r == 10 * (10 * a + b / 10) + b % 10;
  }

  /** The digits of `1000 * q + r` are those of `q` followed by the padded group of `r`. */
  lemma DigitsGroup(q: nat, r: nat)
    requires q > 0 && r < 1000
    ensures Digits(1000 * q + r) == Digits(q) + Pad3(r)
  {
    GroupDigits(r);
    var q2 := 10 * q + r / 100;
    var q1 := 10 * q2 + r / 10 % 10;
    DigitsStep(q, r / 100);
    DigitsStep(q2, r / 10 % 10);
    DigitsStep(q1, r % 10);
    assert 1000 * q + r == 10 * q1 + r % 10;
  }

  /** Removing the separators after a group's comma leaves its three digits. */
  lemma RemoveCommasOfGroup(prefix: string, r: nat)
    requires r < 1000
    ensures RemoveCommas(prefix + ("," + Pad3(r))) == RemoveCommas(prefix) + Pad3(r)
  {
    var group := Pad3(r);
    NoCommasInDigits(group);
    assert RemoveCommas("," + group) == group by {
      assert ("," + group)[1..] == group;
    }
    RemoveCommasAppend(prefix, "," + group);
  }

  /** Removing the separators from `N0(n)` gives back the plain digits of `n`. */
  lemma {:induction false} N0Ungrouped(n: nat)
    ensures RemoveCommas(N0(n)) == Digits(n)
    decreases n
  {
    if n < 1000 {
      NoCommasInDigits(Digits(n));
    } else {
      var q, r := n / 1000, n % 1000;
      assert n == 1000 * q + r && q > 0;
      assert N0(n) == N0(q) + ("," + Pad3(r));
      N0Ungrouped(q);
      RemoveCommasOfGroup(N0(q), r);
      DigitsGroup(q, r);
    }
  }

  /**
   * Where `{n:N0}` puts its separators: at every fourth place counted from
   * the end and nowhere else, so the leading group has one to three digits
   * and every later group exactly three.
   */
  predicate ThousandsGrouped(s: string) {
    |s| % 4 != 0 &&
    forall i | 0 <= i < |s| :: s[i] == ',' <==> (|s| - i) % 4 == 0
  }

  lemma {:induction false} DigitsShort(n: nat)
    requires n < 1000
    ensures |Digits(n)| <= 3
    decreases n
  {
    if n >= 10 {
      DigitsShort(n / 10);
    }
  }

  /** `N0` groups by thousands; with N0Ungrouped, the text is the digits of `n` in that layout. */
  lemma {:induction false} N0Grouped(n: nat)
    ensures ThousandsGrouped(N0(n))
    decreases n
  {
    if n < 1000 {
      ShortDigitsGrouped(n);
    } else {
      var q, r := n / 1000, n % 1000;
      N0Grouped(q);
      assert N0(n) == N0(q) + ("," + Pad3(r));
      GroupAppended(N0(q), Pad3(r));
    }
  }

  lemma ShortDigitsGrouped(n: nat)
    requires n < 1000
    ensures ThousandsGrouped(Digits(n))
  {
    var s := Digits(n);
    DigitsShort(n);
    forall i | 0 <= i < |s| ensures s[i] == ',' <==> (|s| - i) % 4 == 0 {
      assert 1 <= |s| - i <= 3;
    }
  }

  /** A separator and a three-digit group after a grouped text keep it grouped. */
  lemma GroupAppended(p: string, group: string)
    requires ThousandsGrouped(p)
    requires |group| == 3 && ',' !in group
    ensures ThousandsGrouped(p + ("," + group))
  {
    var s := p + ("," + group);
    assert (|p| + 4) % 4 == |p| % 4;
    forall i | 0 <= i < |s| ensures s[i] == ',' <==> (|s| - i) % 4 == 0 {
      if i < |p| {
        assert s[i] == p[i];
        assert (|p| - i + 4) % 4 == (|p| - i) % 4;
      } else if i > |p| {
        assert s[i] == group[i - |p| - 1];
        assert 1 <= |s| - i <= 3;
      }
    }
  }

  /** So the title text of a price denotes that price again. */
  lemma N0Value(n: nat)
    ensures DigitsValue(RemoveCommas(N0(n))) == n
  {
    N0Ungrouped(n);
    DigitsRoundTrip(n);
  }

  lemma N0Example()
    ensures N0(277000) == "277,000"
  {
    assert Digits(2) == "2";
    assert Digits(27) == "27";
    assert Digits(277) == "277";
    assert Pad3(0) == "000";
  }
}
