/**
 * ASCII string operations the ticker tokeniser relies on: splitting on a
 * separator character (Python's `str.split(sep)`), joining, trimming
 * whitespace (`str.strip()`) and upper-casing (`str.upper()`).
 */
module Text {

  /** ASCII characters for which Python's `str.isspace` holds:
      space, the controls `\t \n \v \f \r` and the separators 0x1C-0x1F. */
  predicate IsSpace(c: char) {
    c == ' ' || ('\t' <= c <= '\r') || ('\U{1C}' <= c <= '\U{1F}')
  }

  predicate IsLower(c: char) {
    'a' <= c <= 'z'
  }

  predicate AllSpace(s: string) {
    forall k :: 0 <= k < |s| ==> IsSpace(s[k])
  }

  /** Neither end is whitespace (vacuously true of the empty string). */
  predicate Trimmed(s: string) {
    s == [] || (!IsSpace(s[0]) && !IsSpace(s[|s| - 1]))
  }

  predicate NoLower(s: string) {
    forall k :: 0 <= k < |s| ==> !IsLower(s[k])
  }

  /** Number of occurrences of `c` in `s`. */
  function Count(s: string, c: char): nat
  {
    if |s| == 0 then 0 else (if s[0] == c then 1 else 0) + Count(s[1..], c)
  }

  /** Python's `s.split(sep)`: the maximal separator-free pieces, in order;
      the empty string splits into one empty piece. */
  function Split(s: string, sep: char): (r: seq<string>)
    ensures |r| == Count(s, sep) + 1
    ensures forall k :: 0 <= k < |r| ==> sep !in r[k]
    decreases |s|
  {
    if |s| == 0 then [""]
    else
      var rest := Split(s[1..], sep);
      if s[0] == sep then [""] + rest
      else [[s[0]] + rest[0]] + rest[1..]
  }

  /** Python's `sep.join(pieces)`. */
  function Join(pieces: seq<string>, sep: char): string
  {
    if |pieces| == 0 then ""
    else if |pieces| == 1 then pieces[0]
    else pieces[0] + [sep] + Join(pieces[1..], sep)
  }

  /** Every character of a piece occurs in the split string and is not the separator. */
  lemma {:induction false} SplitKeepsChars(s: string, sep: char, k: nat)
    requires k < |Split(s, sep)|
    ensures forall j :: 0 <= j < |Split(s, sep)[k]| ==> Split(s, sep)[k][j] in s
    decreases |s|
  {
    if |s| > 0 {
      var rest := Split(s[1..], sep);
      if s[0] == sep {
        if k > 0 {
          SplitKeepsChars(s[1..], sep, k - 1);
          assert forall c :: c in s[1..] ==> c in s;
        }
      } else {
        SplitKeepsChars(s[1..], sep, k);
        assert forall c :: c in s[1..] ==> c in s;
        if k > 0 {
          assert Split(s, sep)[k] == rest[k];
        }
      }
    }
  }

  /** Joining the pieces of a split gives back the original string. */
  lemma {:induction false} JoinSplit(s: string, sep: char)
    ensures Join(Split(s, sep), sep) == s
    decreases |s|
  {
    if |s| > 0 {
      var rest := Split(s[1..], sep);
      JoinSplit(s[1..], sep);
      if s[0] == sep {
        assert s == [sep] + s[1..];
      } else {
        if |rest| == 1 {
          assert s == [s[0]] + s[1..];
        } else {
          var r := Split(s, sep);
          assert r[1..] == rest[1..];
          assert Join(rest, sep) == rest[0] + [sep] + Join(rest[1..], sep);
          assert s == [s[0]] + s[1..];
        }
      }
    }
  }

  /** A string without the separator splits into itself alone. */
  lemma {:induction false} SplitNoSep(s: string, sep: char)
    requires sep !in s
    ensures Split(s, sep) == [s]
    decreases |s|
  {
    if |s| > 0 {
      SplitNoSep(s[1..], sep);
      assert s == [s[0]] + s[1..];
    }
  }

  /** Splitting distributes over a separator placed between two strings. */
  lemma {:induction false} SplitAppend(a: string, b: string, sep: char)
    ensures Split(a + [sep] + b, sep) == Split(a, sep) + Split(b, sep)
    decreases |a|
  {
    if |a| == 0 {
      assert a + [sep] + b == [sep] + b;
      SplitCons(sep, b, sep);
    } else {
      SplitAppend(a[1..], b, sep);
      SplitAppendCons(a[0], a[1..], b, sep);
      assert a == [a[0]] + a[1..];
      assert a + [sep] + b == [a[0]] + a[1..] + [sep] + b;
    }
  }

  /** The inductive step of SplitAppend: one more character in front. */
  lemma SplitAppendCons(c: char, a: string, b: string, sep: char)
    requires Split(a + [sep] + b, sep) == Split(a, sep) + Split(b, sep)
    ensures Split([c] + a + [sep] + b, sep) == Split([c] + a, sep) + Split(b, sep)
  {
    var t := a + [sep] + b;
    assert [c] + a + [sep] + b == [c] + t;
    SplitCons(c, t, sep);
    SplitCons(c, a, sep);
    ConsAppend(c, sep, Split(a, sep), Split(b, sep));
  }

  /** The list algebra behind SplitAppendCons, free of Split itself. */
  lemma ConsAppend(c: char, sep: char, x: seq<string>, y: seq<string>)
    requires |x| > 0
    ensures (if c == sep then [""] + (x + y) else [[c] + (x + y)[0]] + (x + y)[1..])
            == (if c == sep then [""] + x else [[c] + x[0]] + x[1..]) + y
  {
    if c == sep {
      AppendAssoc([""], x, y);
    } else {
      assert (x + y)[0] == x[0] && (x + y)[1..] == x[1..] + y;
      AppendAssoc([[c] + x[0]], x[1..], y);
    }
  }

  lemma AppendAssoc<T>(x: seq<T>, y: seq<T>, z: seq<T>)
    ensures x + (y + z) == (x + y) + z
  {
  }

  /** Split unfolded once on a string with a known first character. */
  lemma SplitCons(c: char, t: string, sep: char)
    ensures Split([c] + t, sep) ==
            if c == sep then [""] + Split(t, sep)
            else [[c] + Split(t, sep)[0]] + Split(t, sep)[1..]
  {
    var s := [c] + t;
    assert s[0] == c && s[1..] == t;
  }

  /** Splitting a join of separator-free pieces gives back the pieces. */
  lemma {:induction false} SplitJoin(pieces: seq<string>, sep: char)
    requires |pieces| > 0
    requires forall k :: 0 <= k < |pieces| ==> sep !in pieces[k]
    ensures Split(Join(pieces, sep), sep) == pieces
    decreases |pieces|
  {
    SplitNoSep(pieces[0], sep);
    if |pieces| > 1 {
      SplitJoin(pieces[1..], sep);
      SplitAppend(pieces[0], Join(pieces[1..], sep), sep);
      assert pieces == [pieces[0]] + pieces[1..];
    }
  }

  /** Number of whitespace characters `s` starts with. */
  function LeadingSpace(s: string): (n: nat)
    ensures n <= |s|
    ensures forall k :: 0 <= k < n ==> IsSpace(s[k])
    ensures n == |s| || !IsSpace(s[n])
    decreases |s|
  {
    if |s| > 0 && IsSpace(s[0]) then
      var m := LeadingSpace(s[1..]);
      assert forall k :: 1 <= k < m + 1 ==> s[k] == s[1..][k - 1];
      m + 1
    else 0
  }

  /** Length of `s` once its trailing whitespace is dropped. */
  function ContentEnd(s: string): (n: nat)
    ensures n <= |s|
    ensures forall k :: n <= k < |s| ==> IsSpace(s[k])
    ensures n == 0 || !IsSpace(s[n - 1])
    decreases |s|
  {
    if |s| > 0 && IsSpace(s[|s| - 1]) then ContentEnd(s[..|s| - 1]) else |s|
  }

  /** Drops leading whitespace: Python's `s.lstrip()` over ASCII. */
  function TrimStart(s: string): string
  {
    s[LeadingSpace(s)..]
  }

  /** Drops trailing whitespace: Python's `s.rstrip()` over ASCII. */
  function TrimEnd(s: string): string
  {
    s[..ContentEnd(s)]
  }

  /** Python's `s.strip()` over ASCII: `s` without its leading and trailing
      whitespace (see StripIsSlice for the full characterisation). */
  function Strip(s: string): (r: string)
    ensures |r| <= |s|
    ensures Trimmed(r)
    ensures r == [] <==> AllSpace(s)
  {
    var e := ContentEnd(s);
    if e == 0 then []
    else
      var b := LeadingSpace(s);
      assert b < e by {
        assert !IsSpace(s[e - 1]);
      }
      s[b..e]
  }

  /** The stripped string is the slice of `s` between an all-whitespace prefix
      and an all-whitespace suffix; with the ends of Strip's result not being
      whitespace, this determines the result uniquely. */
  lemma StripIsSlice(s: string)
    ensures var r := Strip(s);
            exists i :: 0 <= i <= |s| - |r| && r == s[i..i + |r|]
                        && AllSpace(s[..i]) && AllSpace(s[i + |r|..])
  {
    var r := Strip(s);
    var e := ContentEnd(s);
    if e == 0 {
      assert r == s[0..0] && s[0..] == s;
      assert AllSpace(s[..0]);
    } else {
      var b := LeadingSpace(s);
      assert r == s[b..b + |r|];
      assert AllSpace(s[..b]);
      assert AllSpace(s[b + |r|..]);
    }
  }

  /** Stripping removes exactly what stripping each end separately removes. */
  lemma StripIsBothTrims(s: string)
    ensures Strip(s) == TrimStart(TrimEnd(s))
  {
    var e := ContentEnd(s);
    var t := TrimEnd(s);
    assert t == s[..e];
    var b := LeadingSpace(t);
    if e == 0 {
      assert t == [];
    } else {
      assert LeadingSpace(s) == b by {
        assert forall k :: 0 <= k < e ==> t[k] == s[k];
        assert !IsSpace(s[e - 1]);
      }
      assert TrimStart(t) == t[b..] == s[b..e];
    }
  }

  /** Python's `c.upper()` restricted to ASCII. */
  function UpperChar(c: char): char
  {
    if IsLower(c) then (c as int - 'a' as int + 'A' as int) as char else c
  }

  /** Python's `s.upper()` restricted to ASCII: lower-case letters become
      their capitals, every other character is kept. */
  function Upper(s: string): (r: string)
    ensures |r| == |s|
    ensures NoLower(r)
    ensures forall k :: 0 <= k < |r| ==> (IsLower(s[k]) ==> r[k] as int == s[k] as int - 32)
    ensures forall k :: 0 <= k < |r| ==> (!IsLower(s[k]) ==> r[k] == s[k])
  {
    seq(|s|, k requires 0 <= k < |s| => UpperChar(s[k]))
  }
}
