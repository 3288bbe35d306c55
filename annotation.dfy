/** The pure sub-steps of turning CAMERA's result into peak identities: the
    pseudo-spectrum label "Pseudo-spectrum #" followed by the group number
    formatted with `%03d`, Java's String.trim, and the isotope pattern
    `\[\d+\](.*)` matched against a whole trimmed string. */
module Annotations {
  import opened CameraTypes

  // ----- String.trim -----

  /** The characters String.trim removes from both ends: code points up to U+0020. */
  predicate Blank(c: char) {
    c <= ' '
  }

  /** Where the scan from `i` over leading blanks stops: the first
      non-blank at or after `i`, or the end. */
  function SkipBlanks(s: string, i: nat): (j: nat)
    requires i <= |s|
    ensures i <= j <= |s|
    ensures forall k :: i <= k < j ==> Blank(s[k])
    ensures j < |s| ==> !Blank(s[j])
    decreases |s| - i
  {
    if i < |s| && Blank(s[i]) then SkipBlanks(s, i + 1) else i
  }

  /** Where the scan from `j` down to `st` over trailing blanks stops: just
      after the last non-blank before `j`, or `st`. */
  function DropBlanks(s: string, st: nat, j: nat): (e: nat)
    requires st <= j <= |s|
    ensures st <= e <= j
    ensures forall k :: e <= k < j ==> Blank(s[k])
    ensures e > st ==> !Blank(s[e - 1])
    decreases j
  {
    if st < j && Blank(s[j - 1]) then DropBlanks(s, st, j - 1) else j
  }

  /** String.trim: the string between the leading and the trailing blanks. */
  function Trim(s: string): (r: string)
    ensures |r| <= |s|
    ensures r != [] ==> !Blank(r[0]) && !Blank(r[|r| - 1])
  {
    var st := SkipBlanks(s, 0);
    s[st..DropBlanks(s, st, |s|)]
  }

  /** Trimming keeps the middle of the string, between two runs of blanks,
      and the result neither starts nor ends with a blank. */
  lemma TrimKeepsMiddle(s: string)
    ensures exists a, b :: (0 <= a <= b <= |s| && Trim(s) == s[a..b]
      && (forall i :: 0 <= i < a ==> Blank(s[i]))
      && (forall i :: b <= i < |s| ==> Blank(s[i])))
    ensures Trim(s) != [] ==> !Blank(Trim(s)[0]) && !Blank(Trim(s)[|Trim(s)| - 1])
  {
    var a := SkipBlanks(s, 0);
    var b := DropBlanks(s, a, |s|);
    assert Trim(s) == s[a..b];
  }

  /** Trimming a trimmed string changes nothing. */
  lemma TrimIdempotent(s: string)
    ensures Trim(Trim(s)) == Trim(s)
  {
    var t := Trim(s);
    TrimKeepsMiddle(s);
    if t != [] {
      assert SkipBlanks(t, 0) == 0;
      assert DropBlanks(t, 0, |t|) == |t|;
    }
    assert t[0..|t|] == t;
  }

  // ----- The isotope pattern -----

  predicate IsDigit(c: char) {
    '0' <= c <= '9'
  }

  predicate AllDigits(s: string) {
    forall i :: 0 <= i < |s| ==> IsDigit(s[i])
  }

  /** The characters the regular-expression dot does not match. */
  predicate LineTerminator(c: char) {
    c == '\n' || c == '\r' || c == '\U{85}' || c == '\U{2028}' || c == '\U{2029}'
  }

  /** What `.*` matches: any string without a line terminator. */
  predicate DotStar(s: string) {
    forall i :: 0 <= i < |s| ==> !LineTerminator(s[i])
  }

  /** The end of the run of digits of `s` that starts at `i`. */
  function DigitRunEnd(s: string, i: nat): (j: nat)
    requires i <= |s|
    ensures i <= j <= |s|
    ensures forall k :: i <= k < j ==> IsDigit(s[k])
    ensures j == |s| || !IsDigit(s[j])
    decreases |s| - i
  {
    if i < |s| && IsDigit(s[i]) then DigitRunEnd(s, i + 1) else i
  }

  /** Matcher.matches() for `\[\d+\](.*)`: group 1 when the whole string
      matches, none otherwise. */
  function MatchIsotope(s: string): (r: Option<string>)
    ensures r.Some? ==> |r.value| + 3 <= |s| && s[0] == '[' && s[|s| - |r.value|..] == r.value && DotStar(r.value)
  {
    if s == [] || s[0] != '[' then None
    else
      var j := DigitRunEnd(s, 1);
      if j > 1 && j < |s| && s[j] == ']' && DotStar(s[j + 1..]) then Some(s[j + 1..]) else None
  }

  /** `s` is `[`, the digits `d`, `]`, then `g`: the shape of a match with group `g`. */
  predicate IsotopeForm(s: string, d: string, g: string) {
    d != [] && AllDigits(d) && DotStar(g) && s == "[" + d + "]" + g
  }

  /** The pattern matches with group `g` exactly when the string is a bracketed
      run of digits followed by `g` and `g` holds no line terminator. */
  lemma MatchIsotopeIff(s: string, g: string)
    ensures MatchIsotope(s) == Some(g) <==> exists d :: IsotopeForm(s, d, g)
  {
    if MatchIsotope(s) == Some(g) {
      var j := DigitRunEnd(s, 1);
      var d := s[1..j];
      assert s == "[" + d + "]" + g;
      assert IsotopeForm(s, d, g);
    }
    if exists d :: IsotopeForm(s, d, g) {
      var d :| IsotopeForm(s, d, g);
      var n := |d| + 1;
      assert forall k :: 1 <= k < n ==> s[k] == d[k - 1];
      assert s[n] == ']';
      DigitRunStops(s, 1, n);
      assert s[n + 1..] == g;
    }
  }

  /** A run of digits that ends at a non-digit `n` ends there. */
  lemma DigitRunStops(s: string, i: nat, n: nat)
    requires i <= n < |s|
    requires forall k :: i <= k < n ==> IsDigit(s[k])
    requires !IsDigit(s[n])
    ensures DigitRunEnd(s, i) == n
    decreases n - i
  {
    if i < n {
      DigitRunStops(s, i + 1, n);
    }
  }

  // ----- The pseudo-spectrum label -----

  const LABEL_PREFIX: string := "Pseudo-spectrum #"

  const DIGITS: string := "0123456789"

  /** The decimal digits of `n`, without leading zeros. */
  function Digits(n: nat): (r: string)
    ensures r != [] && AllDigits(r)
    ensures n == 0 ==> r == "0"
    ensures n > 0 ==> r[0] != '0'
    ensures n >= 100 ==> |r| >= 3
    decreases n
  {
    if n < 10 then [DIGITS[n]] else Digits(n / 10) + [DIGITS[n % 10]]
  }

  /** Left-pads `s` with zeros to width `w`. */
  function ZeroPad(s: string, w: nat): (r: string)
    ensures |r| == if |s| >= w then |s| else w
    ensures r[|r| - |s|..] == s
    ensures forall i :: 0 <= i < |r| - |s| ==> r[i] == '0'
  {
    if |s| >= w then s else seq(w - |s|, _ => '0') + s
  }

  /** String.format("%03d", n): the sign counts towards the width of 3. */
  function Format03(n: int): string {
    if n >= 0 then ZeroPad(Digits(n), 3) else "-" + ZeroPad(Digits(-n), 2)
  }

  /** The name of the identity of pseudo-spectrum `n`. */
  function Label(n: int): string {
    LABEL_PREFIX + Format03(n)
  }

  /** The value of a string of decimal digits, leading zeros allowed. */
  function DigitsValue(s: string): nat
    requires AllDigits(s)
  {
    if s == [] then 0 else DigitsValue(s[..|s| - 1]) * 10 + ((s[|s| - 1] as int) - ('0' as int))
  }

  /** Reads back a formatted integer: an optional minus sign, then digits. */
  function ParseInt(s: string): Option<int> {
    if s != [] && s[0] == '-' && s[1..] != [] && AllDigits(s[1..]) then Some(-(DigitsValue(s[1..]) as int))
    else if s != [] && AllDigits(s) then Some(DigitsValue(s))
    else None
  }

  lemma {:induction false} DigitsValueOfDigits(n: nat)
    ensures DigitsValue(Digits(n)) == n
    decreases n
  {
    if n >= 10 {
      DigitsValueOfDigits(n / 10);
      var s := Digits(n);
      assert s[..|s| - 1] == Digits(n / 10);
    }
  }

  /** Leading zeros do not change the value. */
  lemma {:induction false} DigitsValueLeadingZeros(z: string, s: string)
    requires forall i :: 0 <= i < |z| ==> z[i] == '0'
    requires AllDigits(s)
    ensures AllDigits(z + s) && DigitsValue(z + s) == DigitsValue(s)
  {
    if s == [] {
      assert z + s == z;
      AllZeros(z);
    } else {
      var t := z + s;
      assert t[..|t| - 1] == z + s[..|s| - 1];
      DigitsValueLeadingZeros(z, s[..|s| - 1]);
    }
  }

  lemma {:induction false} AllZeros(z: string)
    requires forall i :: 0 <= i < |z| ==> z[i] == '0'
    ensures AllDigits(z) && DigitsValue(z) == 0
  {
    if z != [] {
      AllZeros(z[..|z| - 1]);
    }
  }

  /** Zero padding keeps the digits' value. */
  lemma PaddedValue(ds: string, w: nat)
    requires AllDigits(ds)
    ensures AllDigits(ZeroPad(ds, w)) && DigitsValue(ZeroPad(ds, w)) == DigitsValue(ds)
  {
    var padded := ZeroPad(ds, w);
    var z := padded[..|padded| - |ds|];
    assert padded == z + ds;
    DigitsValueLeadingZeros(z, ds);
  }

  /** Numbers below 1000 have at most three digits. */
  lemma DigitsBelowThousand(n: nat)
    requires n < 1000
    ensures |Digits(n)| <= 3
  {
    if n >= 10 {
      assert |Digits(n)| == |Digits(n / 10)| + 1;
      if n >= 100 {
        assert |Digits(n / 10)| == |Digits(n / 100)| + 1;
      }
    }
  }

  /** Numbers below 100 have at most two digits. */
  lemma DigitsBelowHundred(n: nat)
    requires n < 100
    ensures |Digits(n)| <= 2
  {
    if n >= 10 {
      assert |Digits(n)| == |Digits(n / 10)| + 1;
    }
  }

  /** The label's number reads back as the group number, and it is at least
      three characters wide. */
  lemma Format03RoundTrip(n: int)
    ensures ParseInt(Format03(n)) == Some(n)
    ensures |Format03(n)| >= 3
  {
    if n >= 0 {
      DigitsValueOfDigits(n);
      PaddedValue(Digits(n), 3);
    } else {
      DigitsValueOfDigits(-n);
      var padded := ZeroPad(Digits(-n), 2);
      PaddedValue(Digits(-n), 2);
      assert Format03(n)[1..] == padded;
    }
  }

  /** `%03d` pads to exactly three characters, the sign included, for the
      numbers -99 to 999 (zero becomes "000"); wider numbers are written as
      their plain decimal digits after any minus sign, with no added zeros. */
  lemma Format03Width(n: int)
    ensures -100 < n < 1000 ==> |Format03(n)| == 3
    ensures n == 0 ==> Format03(n) == "000"
    ensures n >= 1000 ==> Format03(n) == Digits(n)
    ensures n <= -100 ==> Format03(n) == "-" + Digits(-n)
  {
    if n == 0 {
      assert Format03(n) == ZeroPad(Digits(n), 3);
      assert Format03(n)[0] == '0' && Format03(n)[1] == '0' && Format03(n)[2] == '0';
    }
    if 0 <= n < 1000 {
      DigitsBelowThousand(n);
    } else if -100 < n < 0 {
      DigitsBelowHundred(-n);
    }
  }

  /** The label starts with the fixed prefix and ends with the number. */
  lemma LabelRoundTrip(n: int)
    ensures |Label(n)| >= |LABEL_PREFIX| + 3
    ensures Label(n)[..|LABEL_PREFIX|] == LABEL_PREFIX
    ensures ParseInt(Label(n)[|LABEL_PREFIX|..]) == Some(n)
  {
    Format03RoundTrip(n);
    assert Label(n)[|LABEL_PREFIX|..] == Format03(n);
  }

  /** The label is the prefix and three characters for the groups -99 to
      999, and the prefix and the plain decimal digits beyond. */
  lemma LabelWidth(n: int)
    ensures -100 < n < 1000 ==> |Label(n)| == |LABEL_PREFIX| + 3
    ensures n >= 1000 ==> Label(n) == LABEL_PREFIX + Digits(n)
    ensures n <= -100 ==> Label(n) == LABEL_PREFIX + "-" + Digits(-n)
  {
    Format03Width(n);
    if n <= -100 {
      assert LABEL_PREFIX + ("-" + Digits(-n)) == LABEL_PREFIX + "-" + Digits(-n);
    }
  }

  // ----- The identity of a peak -----

  /** The identification method recorded on every identity. */
  const METHOD: string := "Bioconductor CAMERA"

  /** A peak identity: its name, its identification method, and its
      isotope property when it has one. */
  datatype Identity = Identity(name: string, methodName: string, isotope: Option<string>)

  /** The isotope property for the isotope string of a peak, when CAMERA
      returned an isotope vector: group 1 of the pattern on the trimmed
      string; none for an empty or irregular string. */
  function IsotopeOf(isotope: Option<string>): (r: Option<string>)
    ensures r.Some? ==> isotope.Some? && exists d :: IsotopeForm(Trim(isotope.value), d, r.value)
  {
    match isotope
    case None => None
    case Some(s) =>
      var t := Trim(s);
      if |t| > 0 then
        var m := MatchIsotope(t);
        var g := if m.Some? then m.value else "";
        MatchIsotopeIff(t, g);
        m
      else None
  }

  /** The identity that the peak in pseudo-spectrum `spectrum` receives. */
  function IdentityFor(spectrum: int, isotope: Option<string>): (r: Identity)
    ensures isotope.None? ==> r.isotope.None?
  {
    Identity(Label(spectrum), METHOD, IsotopeOf(isotope))
  }

  /** The isotope property is set exactly when an isotope vector was returned
      and the trimmed string has the form `[digits]group`; it is then that
      group. An empty or irregular string yields no property. */
  lemma IdentityIsotope(spectrum: int, isotope: Option<string>, g: string)
    ensures IdentityFor(spectrum, isotope).isotope == Some(g) <==>
      isotope.Some? && exists d :: IsotopeForm(Trim(isotope.value), d, g)
    ensures isotope.Some? && Trim(isotope.value) == [] ==> IdentityFor(spectrum, isotope).isotope.None?
  {
    if isotope.Some? {
      MatchIsotopeIff(Trim(isotope.value), g);
    }
  }

  /** The identity of a peak in pseudo-spectrum `spectrum`: its name is
      "Pseudo-spectrum #" and the group written by `%03d`, reading back as the
      group: three characters wide from -99 to 999, the plain decimal digits
      (after a minus sign) beyond that range; its method is
      CAMERA's, and it has isotope property `g` exactly when there is an
      isotope string whose trimmed form is `[digits]g`. */
  lemma IdentityFacts(spectrum: int, isotope: Option<string>, g: string)
    ensures IdentityFor(spectrum, isotope).methodName == METHOD
    ensures |IdentityFor(spectrum, isotope).name| >= |LABEL_PREFIX| + 3
    ensures IdentityFor(spectrum, isotope).name[..|LABEL_PREFIX|] == LABEL_PREFIX
    ensures ParseInt(IdentityFor(spectrum, isotope).name[|LABEL_PREFIX|..]) == Some(spectrum)
    ensures -100 < spectrum < 1000 ==> |IdentityFor(spectrum, isotope).name| == |LABEL_PREFIX| + 3
    ensures spectrum >= 1000 ==> IdentityFor(spectrum, isotope).name == LABEL_PREFIX + Digits(spectrum)
    ensures spectrum <= -100 ==> IdentityFor(spectrum, isotope).name == LABEL_PREFIX + "-" + Digits(-spectrum)
    ensures IdentityFor(spectrum, isotope).isotope == Some(g) <==>
      isotope.Some? && exists d :: IsotopeForm(Trim(isotope.value), d, g)
  {
    LabelRoundTrip(spectrum);
    LabelWidth(spectrum);
    IdentityIsotope(spectrum, isotope, g);
  }
}
