/**
 * The CPF/CNPJ and telephone masks of the client screens. The list and the
 * form apply the same chain of replacements: keep the digits of the input,
 * then put separators between them. Each chain is defined here replacement
 * by replacement, and proved equal to a shape read off the digits: where
 * every separator goes, as a function of how many digits were typed.
 */
module Masks {
  import opened Text
  import opened Regex

  // ---------------------------------------------------------------------
  // The replacement chains
  // ---------------------------------------------------------------------

  /** `/(\d{3})(\d)/` replaced by `"$1.$2"`. */
  function CpfDot(s: string): string
  {
    ReplaceFirst(s, DigitRun(4), false, 3, ".")
  }

  /** `/(\d{3})(\d{1,2})$/` replaced by `"$1-$2"`. */
  function CpfDash(s: string): string
  {
    ReplaceTail(s, 4, 5, 3, "-")
  }

  /** The CPF chain: two dots, then the check-digit hyphen. */
  function CpfMask(d: string): string
  {
    CpfDash(CpfDot(CpfDot(d)))
  }

  /** `/^(\d{2})\.(\d{3})(\d)/`, the pattern of the second CNPJ replacement. */
  const CnpjSecond: seq<Class> := [Digit, Digit, Lit('.'), Digit, Digit, Digit, Digit]

  /** `/\.(\d{3})(\d)/`, the pattern of the third CNPJ replacement. */
  const CnpjThird: seq<Class> := [Lit('.'), Digit, Digit, Digit, Digit]

  /** The CNPJ chain: two dots, the branch slash, the check-digit hyphen. */
  function CnpjMask(d: string): string
  {
    var t1 := ReplaceFirst(d, DigitRun(3), true, 2, ".");
    var t2 := ReplaceFirst(t1, CnpjSecond, true, 6, ".");
    var t3 := ReplaceFirst(t2, CnpjThird, false, 4, "/");
    ReplaceFirst(t3, DigitRun(5), false, 4, "-")
  }

  /**
   * The CPF/CNPJ mask (ListClientes.formatCpfCnpj, and the same chain in
   * FormClientes.handleCpfCnpjChange): up to eleven digits are a CPF, more
   * are a CNPJ.
   */
  function FormatCpfCnpj(value: string): string
  {
    var d := Digits(value);
    if |d| <= 11 then CpfMask(d) else CnpjMask(d)
  }

  /**
   * `/^(\d{2})(\d)/g` replaced by `"($1) $2"`: the area code is put in
   * parentheses once a third digit follows it. With `^` the global flag
   * still rewrites at most the match at the start.
   */
  function AreaCode(s: string): (r: string)
  {
    match Search(s, DigitRun(3), true)
    case None => s
    case Some(_) => "(" + s[..2] + ") " + s[2..]
  }

  /**
   * The telephone mask (ListClientes.formatContato, and the same chain in
   * FormClientes.handleContatoChange): area code first; then a hyphen before
   * the last four of nine trailing digits when the text has reached eleven
   * characters, else after the first four of four to eight trailing digits.
   */
  function FormatContato(value: string): string
  {
    var c := AreaCode(Digits(value));
    if |c| >= 11 then ReplaceTail(c, 9, 9, 5, "-") else ReplaceTail(c, 4, 8, 4, "-")
  }

  // ---------------------------------------------------------------------
  // The shapes: where each separator lands, read off the digits
  // ---------------------------------------------------------------------

  /** `000.000.000-00` filled from the left as far as the digits go. */
  function CpfShape(d: string): string
    requires |d| <= 11
  {
    if |d| <= 3 then d
    else if |d| <= 6 then d[..3] + "." + d[3..]
    else if |d| <= 9 then d[..3] + "." + d[3..6] + "." + d[6..]
    else d[..3] + "." + d[3..6] + "." + d[6..9] + "-" + d[9..]
  }

  /** `00.000.000/0000-00`, with the hyphen only once a thirteenth digit exists. */
  function CnpjShape(d: string): string
    requires |d| >= 12
  {
    var head := d[..2] + "." + d[2..5] + "." + d[5..8] + "/";
    if |d| == 12 then head + d[8..]
    else head + d[8..12] + "-" + d[12..]
  }

  /**
   * `(00) 0000-0000` while the number is short, `(00) 00000-0000` from eleven
   * digits on. A hyphen appears after the sixth digit for six or seven
   * digits and disappears again for eight to ten.
   */
  function PhoneShape(d: string): string
  {
    if |d| <= 2 then d
    else
      var area := "(" + d[..2] + ") ";
      if |d| <= 5 || 8 <= |d| <= 10 then area + d[2..]
      else if |d| <= 7 then area + d[2..6] + "-" + d[6..]
      else area + d[2..|d| - 4] + "-" + d[|d| - 4..]
  }

  // ---------------------------------------------------------------------
  // Where a pattern cannot match
  // ---------------------------------------------------------------------

  /** A non-digit at `j` rules out a run of `n` digits over `j`. */
  lemma RunBlocked(s: string, n: nat, j: int)
    requires 0 <= j < |s| && !IsDigit(s[j])
    ensures forall q :: j - n < q <= j ==> !MatchesAt(s, q, DigitRun(n))
  {
    forall q | j - n < q <= j
      ensures !MatchesAt(s, q, DigitRun(n))
    {
      if 0 <= q {
        assert !Admits(DigitRun(n)[j - q], s[q + (j - q)]);
      }
    }
  }

  /** A non-digit at `j` rules out every digit tail starting at or before `j`. */
  lemma TailBlocked(s: string, lo: nat, hi: nat, j: int)
    requires 0 <= j < |s| && !IsDigit(s[j])
    ensures forall q :: q <= j ==> !TailAt(s, q, lo, hi)
  {
  }

  // ---------------------------------------------------------------------
  // The CPF chain, step by step
  // ---------------------------------------------------------------------

  lemma CpfFirstDot(d: string)
    requires AllDigits(d)
    ensures |d| >= 4 ==> CpfDot(d) == d[..3] + "." + d[3..]
    ensures |d| < 4 ==> CpfDot(d) == d
  {
    if |d| >= 4 {
      SearchIs(d, DigitRun(4), false, 0);
    } else {
      SearchNone(d, DigitRun(4), false);
    }
  }

  lemma CpfSecondDot(d: string)
    requires AllDigits(d) && 4 <= |d|
    ensures var s1 := d[..3] + "." + d[3..];
      CpfDot(s1) == if |d| >= 7 then d[..3] + "." + d[3..6] + "." + d[6..] else s1
  {
    var s1 := d[..3] + "." + d[3..];
    RunBlocked(s1, 4, 3);
    if |d| >= 7 {
      assert MatchesAt(s1, 4, DigitRun(4));
      SearchIs(s1, DigitRun(4), false, 4);
      assert s1[..7] == d[..3] + "." + d[3..6];
      assert s1[7..] == d[6..];
    } else {
      SearchNone(s1, DigitRun(4), false);
    }
  }

  lemma CpfHyphen(d: string)
    requires AllDigits(d) && 7 <= |d| <= 11
    ensures var s2 := d[..3] + "." + d[3..6] + "." + d[6..];
      CpfDash(s2) == if |d| >= 10 then d[..3] + "." + d[3..6] + "." + d[6..9] + "-" + d[9..] else s2
  {
    var s2 := d[..3] + "." + d[3..6] + "." + d[6..];
    TailBlocked(s2, 4, 5, 7);
    if |d| >= 10 {
      FirstTailIs(s2, 4, 5, 8);
      assert s2[..11] == d[..3] + "." + d[3..6] + "." + d[6..9];
      assert s2[11..] == d[9..];
    } else {
      FirstTailNone(s2, 4, 5);
    }
  }

  lemma CpfNoHyphen(d: string)
    requires AllDigits(d) && |d| <= 6
    ensures CpfDash(CpfDot(CpfDot(d))) == CpfDot(CpfDot(d))
  {
    CpfFirstDot(d);
    if |d| >= 4 {
      CpfSecondDot(d);
      var s1 := d[..3] + "." + d[3..];
      TailBlocked(s1, 4, 5, 3);
      FirstTailNone(s1, 4, 5);
    } else {
      FirstTailNone(d, 4, 5);
    }
  }

  /** The CPF chain puts dots after the third and sixth digits and a hyphen after the ninth. */
  lemma {:induction false} CpfMaskShape(d: string)
    requires AllDigits(d) && |d| <= 11
    ensures CpfMask(d) == CpfShape(d)
  {
    CpfFirstDot(d);
    if |d| >= 4 {
      CpfSecondDot(d);
    }
    if |d| <= 6 {
      CpfNoHyphen(d);
    } else {
      CpfHyphen(d);
    }
  }

  // ---------------------------------------------------------------------
  // The CNPJ chain, step by step
  // ---------------------------------------------------------------------

  lemma CnpjFirstDots(d: string)
    requires AllDigits(d) && |d| >= 12
    ensures var t1 := ReplaceFirst(d, DigitRun(3), true, 2, ".");
      ReplaceFirst(t1, CnpjSecond, true, 6, ".") == d[..2] + "." + d[2..5] + "." + d[5..]
  {
    SearchIs(d, DigitRun(3), true, 0);
    var t1 := d[..2] + "." + d[2..];
    assert MatchesAt(t1, 0, CnpjSecond) by {
      forall i | 0 <= i < 7
        ensures Admits(CnpjSecond[i], t1[i])
      {
      }
    }
    SearchIs(t1, CnpjSecond, true, 0);
    assert t1[..6] == d[..2] + "." + d[2..5];
    assert t1[6..] == d[5..];
  }

  lemma CnpjSlash(d: string)
    requires AllDigits(d) && |d| >= 12
    ensures var t2 := d[..2] + "." + d[2..5] + "." + d[5..];
      ReplaceFirst(t2, CnpjThird, false, 4, "/") == d[..2] + "." + d[2..5] + "." + d[5..8] + "/" + d[8..]
  {
    var t2 := d[..2] + "." + d[2..5] + "." + d[5..];
    forall q | 0 <= q < 6
      ensures !MatchesAt(t2, q, CnpjThird)
    {
      if q == 2 {
        assert !Admits(CnpjThird[4], t2[q + 4]);
      } else {
        assert !Admits(CnpjThird[0], t2[q]);
      }
    }
    assert MatchesAt(t2, 6, CnpjThird);
    SearchIs(t2, CnpjThird, false, 6);
    assert t2[..10] == d[..2] + "." + d[2..5] + "." + d[5..8];
    assert t2[10..] == d[8..];
  }

  lemma CnpjHyphen(d: string)
    requires AllDigits(d) && |d| >= 12
    ensures ReplaceFirst(d[..2] + "." + d[2..5] + "." + d[5..8] + "/" + d[8..], DigitRun(5), false, 4, "-")
      == CnpjShape(d)
  {
    var t3 := d[..2] + "." + d[2..5] + "." + d[5..8] + "/" + d[8..];
    RunBlocked(t3, 5, 2);
    RunBlocked(t3, 5, 6);
    RunBlocked(t3, 5, 10);
    if |d| >= 13 {
      assert MatchesAt(t3, 11, DigitRun(5));
      SearchIs(t3, DigitRun(5), false, 11);
      assert t3[..15] == d[..2] + "." + d[2..5] + "." + d[5..8] + "/" + d[8..12];
      assert t3[15..] == d[12..];
    } else {
      SearchNone(t3, DigitRun(5), false);
    }
  }

  /** The CNPJ chain puts dots after the second and fifth digits, a slash after the eighth and a hyphen after the twelfth. */
  lemma CnpjMaskShape(d: string)
    requires AllDigits(d) && |d| >= 12
    ensures CnpjMask(d) == CnpjShape(d)
  {
    CnpjFirstDots(d);
    CnpjSlash(d);
    CnpjHyphen(d);
  }

  // ---------------------------------------------------------------------
  // The telephone chain, step by step
  // ---------------------------------------------------------------------

  lemma AreaCodeOf(d: string)
    requires AllDigits(d)
    ensures |d| >= 3 ==> AreaCode(d) == "(" + d[..2] + ") " + d[2..]
    ensures |d| < 3 ==> AreaCode(d) == d
  {
    if |d| >= 3 {
      SearchIs(d, DigitRun(3), true, 0);
    } else {
      SearchNone(d, DigitRun(3), true);
    }
  }

  lemma LongPhone(d: string)
    requires AllDigits(d) && |d| >= 8
    ensures ReplaceTail("(" + d[..2] + ") " + d[2..], 9, 9, 5, "-") == PhoneShape(d)
  {
    var c := "(" + d[..2] + ") " + d[2..];
    TailBlocked(c, 9, 9, 4);
    if |d| >= 11 {
      FirstTailIs(c, 9, 9, |d| - 6);
      assert c[..|d| - 1] == "(" + d[..2] + ") " + d[2..|d| - 4];
      assert c[|d| - 1..] == d[|d| - 4..];
    } else {
      FirstTailNone(c, 9, 9);
    }
  }

  lemma ShortPhone(d: string)
    requires AllDigits(d) && 3 <= |d| <= 7
    ensures ReplaceTail("(" + d[..2] + ") " + d[2..], 4, 8, 4, "-") == PhoneShape(d)
  {
    var c := "(" + d[..2] + ") " + d[2..];
    TailBlocked(c, 4, 8, 4);
    if |d| >= 6 {
      FirstTailIs(c, 4, 8, 5);
      assert c[..9] == "(" + d[..2] + ") " + d[2..6];
      assert c[9..] == d[6..];
    } else {
      FirstTailNone(c, 4, 8);
    }
  }

  /** The telephone chain, read off the digits. */
  lemma ContatoShape(value: string)
    ensures FormatContato(value) == PhoneShape(Digits(value))
  {
    var d := Digits(value);
    AreaCodeOf(d);
    if |d| >= 8 {
      LongPhone(d);
    } else if |d| >= 3 {
      ShortPhone(d);
    } else {
      FirstTailNone(d, 4, 8);
    }
  }

  /** The CPF/CNPJ chain, read off the digits. */
  lemma CpfCnpjShape(value: string)
    ensures var d := Digits(value);
      FormatCpfCnpj(value) == if |d| <= 11 then CpfShape(d) else CnpjShape(d)
  {
    var d := Digits(value);
    if |d| <= 11 {
      CpfMaskShape(d);
    } else {
      CnpjMaskShape(d);
    }
  }

  // ---------------------------------------------------------------------
  // What the masks promise
  // ---------------------------------------------------------------------

  /** Every character of `r` is a digit or one of `seps`. */
  predicate SeparatedBy(r: string, seps: set<char>)
  {
    forall i :: 0 <= i < |r| ==> IsDigit(r[i]) || r[i] in seps
  }

  lemma SeparatedAppend(a: string, b: string, seps: set<char>)
    requires SeparatedBy(a, seps) && SeparatedBy(b, seps)
    ensures SeparatedBy(a + b, seps)
  {
    forall i | 0 <= i < |a + b|
      ensures IsDigit((a + b)[i]) || (a + b)[i] in seps
    {
      if i >= |a| {
        assert (a + b)[i] == b[i - |a|];
      }
    }
  }

  lemma AreaCodeKeepsDigits(s: string)
    ensures Digits(AreaCode(s)) == Digits(s)
  {
    if Search(s, DigitRun(3), true).Some? {
      DigitsAround("(" + s[..2], ") ", s[2..]);
      DigitsAround("", "(", s[..2] + s[2..]);
      assert "" + "(" + (s[..2] + s[2..]) == "(" + s[..2] + s[2..];
      assert "" + (s[..2] + s[2..]) == s;
    }
  }

  /** The masked CPF/CNPJ holds exactly the digits of the input, in order. */
  lemma CpfCnpjKeepsDigits(value: string)
    ensures Digits(FormatCpfCnpj(value)) == Digits(value)
  {
    var d := Digits(value);
    DigitsIdempotent(value);
    assert NoDigits(".") && NoDigits("-") && NoDigits("/");
    if |d| <= 11 {
      ReplaceFirstKeepsDigits(d, DigitRun(4), false, 3, ".");
      ReplaceFirstKeepsDigits(CpfDot(d), DigitRun(4), false, 3, ".");
      ReplaceTailKeepsDigits(CpfDot(CpfDot(d)), 4, 5, 3, "-");
    } else {
      var t1 := ReplaceFirst(d, DigitRun(3), true, 2, ".");
      var t2 := ReplaceFirst(t1, CnpjSecond, true, 6, ".");
      var t3 := ReplaceFirst(t2, CnpjThird, false, 4, "/");
      ReplaceFirstKeepsDigits(d, DigitRun(3), true, 2, ".");
      ReplaceFirstKeepsDigits(t1, CnpjSecond, true, 6, ".");
      ReplaceFirstKeepsDigits(t2, CnpjThird, false, 4, "/");
      ReplaceFirstKeepsDigits(t3, DigitRun(5), false, 4, "-");
    }
  }

  /** The masked telephone holds exactly the digits of the input, in order. */
  lemma ContatoKeepsDigits(value: string)
    ensures Digits(FormatContato(value)) == Digits(value)
  {
    var c := AreaCode(Digits(value));
    DigitsIdempotent(value);
    AreaCodeKeepsDigits(Digits(value));
    assert NoDigits("-");
    ReplaceTailKeepsDigits(c, 9, 9, 5, "-");
    ReplaceTailKeepsDigits(c, 4, 8, 4, "-");
  }

  lemma InsertSeparated(s: string, at: int, sep: string, seps: set<char>)
    requires 0 <= at <= |s|
    requires SeparatedBy(s, seps) && SeparatedBy(sep, seps)
    ensures SeparatedBy(Insert(s, at, sep), seps)
  {
    assert SeparatedBy(s[..at], seps) && SeparatedBy(s[at..], seps);
    SeparatedAppend(s[..at], sep, seps);
    SeparatedAppend(s[..at] + sep, s[at..], seps);
  }

  lemma ReplaceFirstSeparated(s: string, pat: seq<Class>, anchored: bool, cut: nat, sep: string, seps: set<char>)
    requires cut <= |pat|
    requires SeparatedBy(s, seps) && SeparatedBy(sep, seps)
    ensures SeparatedBy(ReplaceFirst(s, pat, anchored, cut, sep), seps)
  {
    if Search(s, pat, anchored).Some? {
      InsertSeparated(s, Search(s, pat, anchored).value + cut, sep, seps);
    }
  }

  lemma ReplaceTailSeparated(s: string, lo: nat, hi: nat, cut: nat, sep: string, seps: set<char>)
    requires cut <= lo
    requires SeparatedBy(s, seps) && SeparatedBy(sep, seps)
    ensures SeparatedBy(ReplaceTail(s, lo, hi, cut, sep), seps)
  {
    if FirstTail(s, lo, hi, 0).Some? {
      InsertSeparated(s, FirstTail(s, lo, hi, 0).value + cut, sep, seps);
    }
  }

  /** Beside the digits, the CPF/CNPJ mask writes only `.`, `/` and `-`. */
  lemma CpfCnpjSeparators(value: string)
    ensures SeparatedBy(FormatCpfCnpj(value), {'.', '/', '-'})
  {
    var d := Digits(value);
    var seps := {'.', '/', '-'};
    assert SeparatedBy(d, seps);
    assert SeparatedBy(".", seps) && SeparatedBy("/", seps) && SeparatedBy("-", seps);
    if |d| <= 11 {
      ReplaceFirstSeparated(d, DigitRun(4), false, 3, ".", seps);
      ReplaceFirstSeparated(CpfDot(d), DigitRun(4), false, 3, ".", seps);
      ReplaceTailSeparated(CpfDot(CpfDot(d)), 4, 5, 3, "-", seps);
    } else {
      var t1 := ReplaceFirst(d, DigitRun(3), true, 2, ".");
      var t2 := ReplaceFirst(t1, CnpjSecond, true, 6, ".");
      var t3 := ReplaceFirst(t2, CnpjThird, false, 4, "/");
      ReplaceFirstSeparated(d, DigitRun(3), true, 2, ".", seps);
      ReplaceFirstSeparated(t1, CnpjSecond, true, 6, ".", seps);
      ReplaceFirstSeparated(t2, CnpjThird, false, 4, "/", seps);
      ReplaceFirstSeparated(t3, DigitRun(5), false, 4, "-", seps);
    }
  }

  /** Beside the digits, the telephone mask writes only parentheses, a space and `-`. */
  lemma ContatoSeparators(value: string)
    ensures SeparatedBy(FormatContato(value), {'(', ')', ' ', '-'})
  {
    var d := Digits(value);
    var seps := {'(', ')', ' ', '-'};
    var c := AreaCode(d);
    assert SeparatedBy(d, seps) && SeparatedBy("-", seps);
    if Search(d, DigitRun(3), true).Some? {
      assert SeparatedBy("(", seps) && SeparatedBy(") ", seps);
      assert SeparatedBy(d[..2], seps) && SeparatedBy(d[2..], seps);
      SeparatedAppend("(", d[..2], seps);
      SeparatedAppend("(" + d[..2], ") ", seps);
      SeparatedAppend("(" + d[..2] + ") ", d[2..], seps);
    }
    ReplaceTailSeparated(c, 9, 9, 5, "-", seps);
    ReplaceTailSeparated(c, 4, 8, 4, "-", seps);
  }

  /** Masking twice is masking once: the second pass sees the same digits. */
  lemma CpfCnpjIdempotent(value: string)
    ensures FormatCpfCnpj(FormatCpfCnpj(value)) == FormatCpfCnpj(value)
  {
    CpfCnpjKeepsDigits(value);
  }

  lemma ContatoIdempotent(value: string)
    ensures FormatContato(FormatContato(value)) == FormatContato(value)
  {
    ContatoKeepsDigits(value);
  }

  /** The CPF layout uses only dots and a hyphen between its digits. */
  lemma {:induction false} CpfShapeNoSlash(d: string)
    requires |d| <= 11 && AllDigits(d)
    ensures '/' !in CpfShape(d)
  {
    var r := CpfShape(d);
    forall i | 0 <= i < |r|
      ensures r[i] != '/'
    {
      if |d| > 3 {
        assert r[i] in d || r[i] == '.' || r[i] == '-';
      }
    }
  }

  /** Of the two layouts, only the CNPJ one carries a slash. */
  lemma {:induction false} SlashOfShape(d: string, r: string)
    requires AllDigits(d)
    requires r == if |d| <= 11 then CpfShape(d) else CnpjShape(d)
    ensures '/' in r <==> |d| > 11
  {
    if |d| <= 11 {
      CpfShapeNoSlash(d);
    } else {
      assert r[10] == '/';
    }
  }

  /** The mask shows `/` exactly when there are more than eleven digits. */
  lemma {:induction false} CpfCnpjSlash(value: string)
    ensures '/' in FormatCpfCnpj(value) <==> |Digits(value)| > 11
  {
    CpfCnpjShape(value);
    SlashOfShape(Digits(value), FormatCpfCnpj(value));
  }

  /** A full CPF: `ddd.ddd.ddd-dd`, fourteen characters. */
  lemma FullCpf(value: string)
    requires |Digits(value)| == 11
    ensures var d := Digits(value);
      FormatCpfCnpj(value) == d[..3] + "." + d[3..6] + "." + d[6..9] + "-" + d[9..]
    ensures |FormatCpfCnpj(value)| == 14
  {
    CpfCnpjShape(value);
  }

  /** A full CNPJ: `dd.ddd.ddd/dddd-dd`, exactly the eighteen characters the field allows. */
  lemma FullCnpj(value: string)
    requires |Digits(value)| == 14
    ensures var d := Digits(value);
      FormatCpfCnpj(value) == d[..2] + "." + d[2..5] + "." + d[5..8] + "/" + d[8..12] + "-" + d[12..]
    ensures |FormatCpfCnpj(value)| == 18
  {
    CpfCnpjShape(value);
  }

  /** A full mobile number: `(dd) ddddd-dddd`, exactly the fifteen characters the field allows. */
  lemma FullMobile(value: string)
    requires |Digits(value)| == 11
    ensures var d := Digits(value);
      FormatContato(value) == "(" + d[..2] + ") " + d[2..7] + "-" + d[7..]
    ensures |FormatContato(value)| == 15
  {
    ContatoShape(value);
  }

  /** The masked CPF/CNPJ fits the 18-character field exactly when there are at most 14 digits. */
  lemma CpfCnpjFits(value: string)
    ensures |FormatCpfCnpj(value)| <= 18 <==> |Digits(value)| <= 14
  {
    CpfCnpjShape(value);
  }

  /** The masked telephone fits the 15-character field exactly when there are at most 11 digits. */
  lemma ContatoFits(value: string)
    ensures |FormatContato(value)| <= 15 <==> |Digits(value)| <= 11
  {
    ContatoShape(value);
  }

  /**
   * The eleven-character test runs on the text that already carries the
   * area code, so eight to ten digits reach the first branch, whose
   * nine-digit tail cannot match: a ten-digit landline gets no hyphen.
   */
  lemma TenDigitsNoHyphen(value: string)
    requires |Digits(value)| == 10
    ensures var d := Digits(value);
      FormatContato(value) == "(" + d[..2] + ") " + d[2..]
    ensures '-' !in FormatContato(value)
  {
    ContatoShape(value);
    var d := Digits(value);
    var r := FormatContato(value);
    forall i | 0 <= i < |r|
      ensures r[i] != '-'
    {
      if i >= 5 {
        assert r[i] == d[i - 3];
      }
    }
  }
}
