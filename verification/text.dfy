/** Characters and digit strings, as the input masks of the front end see them. */
module Text {

  /** `\d` in a JavaScript regular expression: the ASCII digits only. */
  predicate IsDigit(c: char)
  {
    '0' <= c <= '9'
  }

  predicate AllDigits(s: string)
  {
    forall i :: 0 <= i < |s| ==> IsDigit(s[i])
  }

  predicate NoDigits(s: string)
  {
    forall i :: 0 <= i < |s| ==> !IsDigit(s[i])
  }

  /** `s.replace(/\D/g, '')`: the digits of `s`, in order. */
  function Digits(s: string): (r: string)
    ensures |r| <= |s|
    ensures AllDigits(r)
  {
    if |s| == 0 then ""
    else (if IsDigit(s[0]) then [s[0]] else "") + Digits(s[1..])
  }

  lemma {:induction false} DigitsAppend(a: string, b: string)
    ensures Digits(a + b) == Digits(a) + Digits(b)
    decreases |a|
  {
    if |a| == 0 {
      assert a + b == b;
    } else {
      var head := if IsDigit(a[0]) then [a[0]] else "";
      assert (a + b)[0] == a[0];
      assert (a + b)[1..] == a[1..] + b;
      assert Digits(a + b) == head + Digits(a[1..] + b);
      DigitsAppend(a[1..], b);
      assert Digits(a) == head + Digits(a[1..]);
    }
  }

  /** A digit string is its own digit subsequence. */
  lemma {:induction false} DigitsOfDigits(s: string)
    requires AllDigits(s)
    ensures Digits(s) == s
    decreases |s|
  {
    if |s| > 0 {
      DigitsOfDigits(s[1..]);
    }
  }

  /** A string without digits contributes none. */
  lemma {:induction false} DigitsOfNoDigits(s: string)
    requires NoDigits(s)
    ensures Digits(s) == ""
    decreases |s|
  {
    if |s| > 0 {
      DigitsOfNoDigits(s[1..]);
    }
  }

  /** Stripping non-digits twice is stripping them once. */
  lemma DigitsIdempotent(s: string)
    ensures Digits(Digits(s)) == Digits(s)
  {
    DigitsOfDigits(Digits(s));
  }

  /** `s` with `sep` put in front of index `at`. */
  function Insert(s: string, at: int, sep: string): (r: string)
    requires 0 <= at <= |s|
    ensures |r| == |s| + |sep|
  {
    s[..at] + sep + s[at..]
  }

  /** A separator without digits between two strings adds no digits. */
  lemma DigitsAround(a: string, sep: string, b: string)
    requires NoDigits(sep)
    ensures Digits(a + sep + b) == Digits(a + b)
  {
    DigitsOfNoDigits(sep);
    DigitsAppend(a + sep, b);
    DigitsAppend(a, sep);
    DigitsAppend(a, b);
  }

  /** Putting a separator without digits into a string leaves its digits as they were. */
  lemma {:induction false} InsertKeepsDigits(s: string, at: int, sep: string)
    requires 0 <= at <= |s|
    requires NoDigits(sep)
    ensures Digits(Insert(s, at, sep)) == Digits(s)
  {
    DigitsAround(s[..at], sep, s[at..]);
    assert s[..at] + s[at..] == s;
  }
}
