/**
 * The Volume column of the price table: Python's `f"{int(v):<15,}"`, i.e.
 * the decimal digits of the integer grouped in threes with commas, a minus
 * sign for negatives, left-aligned and padded with spaces to width 15.
 */
module Volume {
  import opened Text

  /** Field width of the Volume column. */
  const Width: nat := 15

  predicate IsDigit(c: char) {
    '0' <= c <= '9'
  }

  predicate AllDigits(s: string) {
    forall k :: 0 <= k < |s| ==> IsDigit(s[k])
  }

  function DigitChar(d: nat): (c: char)
    requires d < 10
    ensures IsDigit(c)
  {
    ('0' as int + d) as char
  }

  /** Decimal digits of `n`, most significant first, without leading zeros. */
  function Digits(n: nat): (r: string)
    ensures |r| >= 1
    ensures AllDigits(r)
    ensures r[0] == '0' ==> n == 0
    decreases n
  {
    if n < 10 then [DigitChar(n)] else Digits(n / 10) + [DigitChar(n % 10)]
  }

  /** Reads a digit string back as a number (the reference reading of decimal notation). */
  function ValueOf(s: string): nat
    requires AllDigits(s)
  {
    if |s| == 0 then 0 else ValueOf(s[..|s| - 1]) * 10 + (s[|s| - 1] as int - '0' as int)
  }

  /** Reading the printed digits gives back the number. */
  lemma {:induction false} DigitsRoundTrip(n: nat)
    ensures ValueOf(Digits(n)) == n
    decreases n
  {
    var ds := Digits(n);
    if n >= 10 {
      DigitsRoundTrip(n / 10);
      assert ds[..|ds| - 1] == Digits(n / 10);
    }
  }

  /** Inserts a comma before every block of three characters counted from the right. */
  function Group(ds: string): (r: string)
    decreases |ds|
  {
    if |ds| <= 3 then ds else Group(ds[..|ds| - 3]) + "," + ds[|ds| - 3..]
  }

  /** `s` with every comma removed. */
  function RemoveCommas(s: string): string
  {
    if |s| == 0 then "" else (if s[0] == ',' then "" else [s[0]]) + RemoveCommas(s[1..])
  }

  /** Removing commas leaves none and drops exactly the commas. */
  lemma {:induction false} CommasRemoved(s: string)
    ensures ',' !in RemoveCommas(s)
    ensures |RemoveCommas(s)| == |s| - Count(s, ',')
    decreases |s|
  {
    if |s| > 0 {
      CommasRemoved(s[1..]);
      var head := if s[0] == ',' then "" else [s[0]];
      assert RemoveCommas(s) == head + RemoveCommas(s[1..]);
      assert forall c :: c in RemoveCommas(s) ==> c in head || c in RemoveCommas(s[1..]);
    }
  }

  lemma {:induction false} RemoveCommasAppend(a: string, b: string)
    ensures RemoveCommas(a + b) == RemoveCommas(a) + RemoveCommas(b)
    decreases |a|
  {
    if |a| > 0 {
      assert (a + b)[0] == a[0];
      assert (a + b)[1..] == a[1..] + b;
      RemoveCommasAppend(a[1..], b);
    } else {
      assert a + b == b;
    }
  }

  lemma {:induction false} RemoveCommasNone(s: string)
    requires ',' !in s
    ensures RemoveCommas(s) == s
    decreases |s|
  {
    if |s| > 0 {
      RemoveCommasNone(s[1..]);
      assert s == [s[0]] + s[1..];
    }
  }

  lemma NoCommaSlices(s: string, i: nat)
    requires i <= |s| && ',' !in s
    ensures ',' !in s[..i] && ',' !in s[i..]
  {
    assert forall c :: c in s[..i] || c in s[i..] ==> c in s;
  }

  lemma UngroupStep(g: string, comma: string, tl: string)
    requires comma == [','] && ',' !in tl
    ensures RemoveCommas(g + comma + tl) == RemoveCommas(g) + tl
  {
    var left := RemoveCommas(g + comma);
    assert RemoveCommas(g + comma + tl) == left + RemoveCommas(tl) by {
      RemoveCommasAppend(g + comma, tl);
    }
    assert left == RemoveCommas(g) by {
      RemoveCommasAppend(g, comma);
      assert comma[1..] == [];
      assert RemoveCommas(comma) == [];
    }
    assert RemoveCommas(tl) == tl by {
      RemoveCommasNone(tl);
    }
  }

  /** Dropping the commas of a grouping gives back the grouped characters. */
  lemma {:induction false} UngroupGroup(ds: string)
    requires ',' !in ds
    ensures RemoveCommas(Group(ds)) == ds
    decreases |ds|
  {
    if |ds| <= 3 {
      RemoveCommasNone(ds);
    } else {
      var hd, tl := ds[..|ds| - 3], ds[|ds| - 3..];
      NoCommaSlices(ds, |ds| - 3);
      UngroupGroup(hd);
      UngroupStep(Group(hd), ",", tl);
      assert Group(ds) == Group(hd) + "," + tl;
      assert ds == hd + tl;
    }
  }

  /** The comma-separated groups: the first holds one to three characters,
      every later one exactly three, and there are ceil(|ds| / 3) of them. */
  lemma {:induction false} GroupShape(ds: string)
    requires |ds| > 0 && ',' !in ds
    ensures var g := Split(Group(ds), ',');
            && |g| == (|ds| + 2) / 3
            && 1 <= |g[0]| <= 3
            && forall k :: 1 <= k < |g| ==> |g[k]| == 3
    decreases |ds|
  {
    if |ds| <= 3 {
      SplitNoSep(ds, ',');
    } else {
      var hd, tl := ds[..|ds| - 3], ds[|ds| - 3..];
      NoCommaSlices(ds, |ds| - 3);
      GroupShape(hd);
      SplitAppend(Group(hd), tl, ',');
      SplitNoSep(tl, ',');
      assert Group(ds) == Group(hd) + [','] + tl;
    }
  }

  /** Left alignment in a field of width `w`: pad with spaces on the right,
      never truncate. */
  function PadRight(s: string, w: nat): (r: string)
    ensures |r| == if |s| >= w then |s| else w
    ensures r[..|s|] == s
    ensures forall k :: |s| <= k < |r| ==> r[k] == ' '
  {
    if |s| >= w then s else s + seq(w - |s|, _ => ' ')
  }

  /** The number as `format(n, ',')` writes it: sign, then grouped digits. */
  function Grouped(n: int): string
  {
    (if n < 0 then "-" else "") + Group(Digits(if n < 0 then -n else n))
  }

  /** `format(n, '<15,')`: the grouped number, left-aligned and padded with
      spaces to width 15 (never truncated). */
  function FormatVolume(n: int): (r: string)
    ensures |r| == if |Grouped(n)| >= Width then |Grouped(n)| else Width
    ensures r[..|Grouped(n)|] == Grouped(n)
    ensures forall k :: |Grouped(n)| <= k < |r| ==> r[k] == ' '
    ensures RemoveCommas(TrimEnd(r)) == (if n < 0 then "-" else "") + Digits(if n < 0 then -n else n)
    ensures n >= 0 ==> TrimEnd(r) == Group(Digits(n))
  {
    var g := Grouped(n);
    var r := PadRight(g, Width);
    VolumeText(n, r);
    r
  }

  lemma VolumeText(n: int, r: string)
    requires r == PadRight(Grouped(n), Width)
    ensures n >= 0 ==> TrimEnd(r) == Group(Digits(n))
    ensures RemoveCommas(TrimEnd(r)) == (if n < 0 then "-" else "") + Digits(if n < 0 then -n else n)
  {
    var sign := if n < 0 then "-" else "";
    var ds := Digits(if n < 0 then -n else n);
    var g := Grouped(n);
    assert ',' !in ds by {
      assert forall k :: 0 <= k < |ds| ==> IsDigit(ds[k]);
    }
    GroupEndsWithLast(ds);
    assert g[|g| - 1] == ds[|ds| - 1];
    TrimPadded(g, r);
    RemoveCommasAppend(sign, Group(ds));
    UngroupGroup(ds);
    RemoveCommasNone(sign);
  }

  /** The cell of a non-negative volume, trailing padding dropped, splits at
      its commas into ceil(d / 3) groups for d digits: the first of one to
      three digits, every later one of exactly three. */
  lemma VolumeGroups(n: nat)
    ensures var g := Split(TrimEnd(FormatVolume(n)), ',');
            && |g| == (|Digits(n)| + 2) / 3
            && 1 <= |g[0]| <= 3
            && forall k :: 1 <= k < |g| ==> |g[k]| == 3
  {
    var ds := Digits(n);
    assert ',' !in ds by {
      assert forall k :: 0 <= k < |ds| ==> IsDigit(ds[k]);
    }
    GroupShape(ds);
  }

  lemma GroupEndsWithLast(ds: string)
    requires |ds| > 0
    ensures |Group(ds)| > 0 && Group(ds)[|Group(ds)| - 1] == ds[|ds| - 1]
  {
  }

  /** Trailing padding is exactly what TrimEnd removes from a padded field
      whose content ends in a non-space. */
  lemma TrimPadded(g: string, r: string)
    requires |g| > 0 && !IsSpace(g[|g| - 1])
    requires r == PadRight(g, Width)
    ensures TrimEnd(r) == g
  {
    assert r[..|g|] == g;
  }
}
