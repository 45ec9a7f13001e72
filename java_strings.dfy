/**
 * The few java.lang.String operations the app relies on: trim(), isEmpty(),
 * compareTo(), split(" ", 2), String.valueOf(int) and the "%0Nd" conversions of
 * String.format, each on seq<char>.
 */
module JavaStrings {

  // ---------------------------------------------------------------------------
  // trim()
  // ---------------------------------------------------------------------------

  /** trim() strips every leading and trailing char whose code is at most U+0020. */
  predicate IsTrimmable(c: char) {
    c <= ' '
  }

  /** The leading part of trim(): drop trimmable chars from the front. */
  function TrimStart(s: string): (r: string)
    ensures |r| <= |s| && r == s[|s| - |r|..]
    ensures r == [] || !IsTrimmable(r[0])
    ensures forall i :: 0 <= i < |s| - |r| ==> IsTrimmable(s[i])
  {
    if s != [] && IsTrimmable(s[0]) then
      var r := TrimStart(s[1..]);
      assert s[1..][|s| - 1 - |r|..] == s[|s| - |r|..];
      r
    else s
  }

  /** The trailing part of trim(): drop trimmable chars from the back. */
  function TrimEnd(s: string): (r: string)
    ensures |r| <= |s| && r == s[..|r|]
    ensures r == [] || !IsTrimmable(r[|r| - 1])
    ensures forall i :: |r| <= i < |s| ==> IsTrimmable(s[i])
  {
    if s != [] && IsTrimmable(s[|s| - 1]) then
      var r := TrimEnd(s[..|s| - 1]);
      assert s[..|s| - 1][..|r|] == s[..|r|];
      r
    else s
  }

  /** String.trim(): no longer than its input, and neither starting nor ending
      with a trimmable char. */
  function Trim(s: string): (r: string)
    ensures |r| <= |s|
    ensures r == [] || (!IsTrimmable(r[0]) && !IsTrimmable(r[|r| - 1]))
  {
    var t := TrimStart(s);
    var r := TrimEnd(t);
    assert r != [] ==> r[0] == t[0];
    r
  }

  /** How many chars trim() cuts from the front of s. */
  function TrimOffset(s: string): nat {
    |s| - |TrimStart(s)|
  }

  /** trim() is the slice of its input that starts at TrimOffset. */
  lemma TrimSlice(s: string)
    ensures TrimOffset(s) + |Trim(s)| <= |s|
    ensures Trim(s) == s[TrimOffset(s)..TrimOffset(s) + |Trim(s)|]
  {
    var t := TrimStart(s);
    var r := TrimEnd(t);
    var i := |s| - |t|;
    assert t == s[i..];
    assert r == t[..|r|];
    assert r == s[i..i + |r|];
  }

  /** Everything trim() cuts off after the slice is trimmable. */
  lemma TrimCutAfter(s: string)
    ensures forall j :: TrimOffset(s) + |Trim(s)| <= j < |s| ==> IsTrimmable(s[j])
  {
    var t := TrimStart(s);
    var r := TrimEnd(t);
    var i := |s| - |t|;
    assert t == s[i..];
    forall j | i + |r| <= j < |s| ensures IsTrimmable(s[j]) {
      assert s[j] == t[j - i];
    }
  }

  /** trim() returns the contiguous piece of its input that starts at TrimOffset,
      it neither starts nor ends with a trimmable char, and everything it cut
      off on either side is trimmable. */
  lemma TrimIsInfix(s: string)
    ensures TrimOffset(s) + |Trim(s)| <= |s|
    ensures Trim(s) == s[TrimOffset(s)..TrimOffset(s) + |Trim(s)|]
    ensures forall j :: 0 <= j < TrimOffset(s) ==> IsTrimmable(s[j])
    ensures forall j :: TrimOffset(s) + |Trim(s)| <= j < |s| ==> IsTrimmable(s[j])
    ensures Trim(s) == [] || (!IsTrimmable(Trim(s)[0]) && !IsTrimmable(Trim(s)[|Trim(s)| - 1]))
  {
    TrimSlice(s);
    TrimCutAfter(s);
  }

  /** trim().isEmpty() holds exactly when every char of the input is trimmable. */
  lemma TrimEmptyIff(s: string)
    ensures Trim(s) == [] <==> forall i :: 0 <= i < |s| ==> IsTrimmable(s[i])
  {
    var t := TrimStart(s);
    var k := |s| - |t|;
    assert t != [] ==> t[0] == s[k];
    assert forall i :: k <= i < |s| ==> s[i] == t[i - k];
  }

  /** Trimming twice is the same as trimming once. */
  lemma TrimIdempotent(s: string)
    ensures Trim(Trim(s)) == Trim(s)
  {
    var r := Trim(s);
    if r != [] {
      assert TrimStart(r) == r;
      assert TrimEnd(r) == r;
    }
  }

  /** A string that neither starts nor ends with a trimmable char is its own trim. */
  lemma TrimKeeps(s: string)
    requires s == [] || (!IsTrimmable(s[0]) && !IsTrimmable(s[|s| - 1]))
    ensures Trim(s) == s
  {
    if s != [] {
      assert TrimStart(s) == s;
      assert TrimEnd(s) == s;
    }
  }

  // ---------------------------------------------------------------------------
  // compareTo()
  // ---------------------------------------------------------------------------

  /** a.compareTo(b) <= 0: lexicographic order on chars, a proper prefix first. */
  predicate StrLe(a: string, b: string)
    decreases |a|
  {
    a == [] || (b != [] && (a[0] < b[0] || (a[0] == b[0] && StrLe(a[1..], b[1..]))))
  }

  /** compareTo is a total order: any two strings are comparable ... */
  lemma {:induction false} StrLeTotal(a: string, b: string)
    ensures StrLe(a, b) || StrLe(b, a)
    decreases |a|
  {
    if a != [] && b != [] && a[0] == b[0] {
      StrLeTotal(a[1..], b[1..]);
    }
  }

  /** ... that is transitive ... */
  lemma {:induction false} StrLeTrans(a: string, b: string, c: string)
    requires StrLe(a, b) && StrLe(b, c)
    ensures StrLe(a, c)
    decreases |a|
  {
    if a != [] && a[0] == b[0] && b[0] == c[0] {
      StrLeTrans(a[1..], b[1..], c[1..]);
    }
  }

  /** ... and antisymmetric: compareTo returns 0 only on equal strings. */
  lemma {:induction false} StrLeAntisym(a: string, b: string)
    requires StrLe(a, b) && StrLe(b, a)
    ensures a == b
    decreases |a|
  {
    if a != [] {
      StrLeAntisym(a[1..], b[1..]);
      assert a == [a[0]] + a[1..] && b == [b[0]] + b[1..];
    }
  }

  // ---------------------------------------------------------------------------
  // indexOf(' ') and split(" ", 2)
  // ---------------------------------------------------------------------------

  /** String.indexOf(c): the first position of c, or -1. */
  function IndexOf(s: string, c: char): (r: int)
    ensures -1 <= r < |s|
    ensures r == -1 <==> c !in s
    ensures r >= 0 ==> s[r] == c && c !in s[..r]
  {
    if s == [] then -1
    else if s[0] == c then 0
    else
      var k := IndexOf(s[1..], c);
      if k == -1 then -1
      else
        assert s[..k + 1] == [s[0]] + s[1..][..k];
        k + 1
  }

  /** s.split(" ", 2): the text before the first blank and everything after it,
      or the whole string alone when there is no blank. */
  function SplitOnce(s: string): (parts: seq<string>)
    ensures 1 <= |parts| <= 2
    ensures |parts| == 2 <==> ' ' in s
  {
    var i := IndexOf(s, ' ');
    if i < 0 then [s] else [s[..i], s[i + 1..]]
  }

  /** Splitting at the first blank and joining the two halves with a blank gives
      back the original string. */
  lemma SplitThenJoin(s: string)
    requires ' ' in s
    ensures SplitOnce(s)[0] + " " + SplitOnce(s)[1] == s
  {
    var i := IndexOf(s, ' ');
    assert s == s[..i] + [s[i]] + s[i + 1..];
  }

  /** Joining a date and a time with a blank and splitting again recovers both
      halves exactly when the date holds no blank. */
  lemma JoinThenSplit(date: string, time: string)
    ensures SplitOnce(date + " " + time) == [date, time] <==> ' ' !in date
  {
    var s := date + " " + time;
    assert s[|date|] == ' ';
    var i := IndexOf(s, ' ');
    if ' ' !in date {
      assert s[..|date|] == date;
      assert i == |date|;
      assert s[i + 1..] == time;
    } else {
      var j :| 0 <= j < |date| && date[j] == ' ';
      assert s[j] == ' ';
      assert i <= j;
      assert SplitOnce(s)[0] == s[..i];
      assert |s[..i]| < |date|;
    }
  }

  // ---------------------------------------------------------------------------
  // Decimal text: String.valueOf(int) and "%0Nd"
  // ---------------------------------------------------------------------------

  predicate IsDigit(c: char) {
    '0' <= c <= '9'
  }

  predicate AllDigits(s: string) {
    forall i :: 0 <= i < |s| ==> IsDigit(s[i])
  }

  function DigitChar(d: nat): (c: char)
    requires d < 10
    ensures IsDigit(c) && c as int - '0' as int == d
  {
    ('0' as int + d) as char
  }

  /** The shortest decimal text of n: String.valueOf(n) for n >= 0. */
  function Digits(n: nat): (r: string)
    ensures 1 <= |r| && AllDigits(r)
    decreases n
  {
    if n < 10 then [DigitChar(n)] else Digits(n / 10) + [DigitChar(n % 10)]
  }

  /** The text is canonical: it starts with '0' only when n is zero, so a text
      of two or more digits never has a leading zero. */
  lemma {:induction false} DigitsLeadingZero(n: nat)
    ensures Digits(n)[0] == '0' <==> n == 0
    ensures |Digits(n)| > 1 ==> Digits(n)[0] != '0'
    decreases n
  {
    if n >= 10 {
      DigitsLeadingZero(n / 10);
      assert Digits(n)[0] == Digits(n / 10)[0];
    }
  }

  /** The number a string of decimal digits denotes (Integer.parseInt on digits). */
  function ValueOf(s: string): nat
    requires AllDigits(s)
  {
    if s == [] then 0 else ValueOf(s[..|s| - 1]) * 10 + (s[|s| - 1] as int - '0' as int)
  }

  /** Reading back the decimal text of n gives n. */
  lemma {:induction false} ValueOfDigits(n: nat)
    ensures ValueOf(Digits(n)) == n
    decreases n
  {
    if n >= 10 {
      ValueOfDigits(n / 10);
      var d := Digits(n);
      assert d[..|d| - 1] == Digits(n / 10);
    }
  }

  /** The decimal text of n has one char below 10, at most two below 100 and at
      most four below 10000. */
  lemma DigitsLength(n: nat)
    ensures n < 10 ==> |Digits(n)| == 1
    ensures n < 100 ==> |Digits(n)| <= 2
    ensures n < 10000 ==> |Digits(n)| <= 4
  {
    if n >= 10 {
      DigitsLength(n / 10);
    }
  }

  function Zeros(k: nat): (r: string)
    ensures |r| == k && AllDigits(r)
    ensures forall i :: 0 <= i < k ==> r[i] == '0'
  {
    if k == 0 then [] else Zeros(k - 1) + ['0']
  }

  /** String.format("%0<width>d", n) for n >= 0: the decimal text of n, padded on
      the left with zeros up to width chars. */
  function ZeroPad(n: nat, width: nat): (r: string)
    ensures AllDigits(r)
  {
    var d := Digits(n);
    if |d| >= width then d else Zeros(width - |d|) + d
  }

  /** A string of zeros denotes 0. */
  lemma {:induction false} ValueOfZeros(k: nat)
    ensures ValueOf(Zeros(k)) == 0
  {
    if k > 0 {
      assert Zeros(k)[..k - 1] == Zeros(k - 1);
      ValueOfZeros(k - 1);
    }
  }

  /** Leading zeros do not change the value of a digit string. */
  lemma {:induction false} ValueOfLeadingZeros(k: nat, s: string)
    requires AllDigits(s)
    ensures ValueOf(Zeros(k) + s) == ValueOf(s)
    decreases |s|
  {
    var t := Zeros(k) + s;
    if s == [] {
      assert t == Zeros(k);
      ValueOfZeros(k);
    } else {
      var p := s[..|s| - 1];
      assert t[..|t| - 1] == Zeros(k) + p;
      assert t[|t| - 1] == s[|s| - 1];
      ValueOfLeadingZeros(k, p);
    }
  }

  /** "%0<width>d" has exactly width chars when n fits, and always reads back as n. */
  lemma ZeroPadRoundTrip(n: nat, width: nat)
    ensures ValueOf(ZeroPad(n, width)) == n
    ensures |Digits(n)| <= width ==> |ZeroPad(n, width)| == width
  {
    ValueOfDigits(n);
    var d := Digits(n);
    if |d| < width {
      assert ZeroPad(n, width) == Zeros(width - |d|) + d;
      ValueOfLeadingZeros(width - |d|, d);
    } else {
      assert ZeroPad(n, width) == d;
    }
  }
}
