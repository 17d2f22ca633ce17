/** Token amounts as people write them: the parser of the register form and the printer of the
    creator page, on decimal strings that a float would round. */
module Units {
  import opened Common
  import opened Decimal

  // The white space that String.prototype.trim removes.
  predicate IsSpace(c: char) {
    || '\U{0009}' <= c <= '\U{000D}' || c == ' ' || c == '\U{00A0}' || c == '\U{1680}'
    || '\U{2000}' <= c <= '\U{200A}' || c == '\U{2028}' || c == '\U{2029}' || c == '\U{202F}'
    || c == '\U{205F}' || c == '\U{3000}' || c == '\U{FEFF}'
  }

  // By code point: the white space and the line terminators of ECMAScript (sections 12.2 and 12.3 of
  // ECMA-262).
  predicate IsWhite(x: int) {
    || 9 <= x <= 13 || x == 32 || x == 160 || x == 5760 || 8192 <= x <= 8202 || x == 8232 || x == 8233
    || x == 8239 || x == 8287 || x == 12288 || x == 65279
  }

  lemma SpaceIsWhite(c: char)
    ensures IsSpace(c) <==> IsWhite(c as int)
  {
    assert ' ' as int == 32;
  }

  predicate AllSpace(s: string) { forall i :: 0 <= i < |s| ==> IsWhite(s[i] as int) }

  function TrimStart(s: string): (r: string)
    ensures |r| <= |s|
  {
    if s != "" && IsSpace(s[0]) then TrimStart(s[1..]) else s
  }

  function TrimEnd(s: string): (r: string)
    ensures |r| <= |s|
  {
    if s != "" && IsSpace(s[|s| - 1]) then TrimEnd(s[..|s| - 1]) else s
  }

  function Trim(s: string): string { TrimEnd(TrimStart(s)) }

  function LeadingDigits(s: string): (n: nat)
    ensures n <= |s| && AllDigits(s[..n]) && (n < |s| ==> !IsDigit(s[n]))
  {
    if s == "" || !IsDigit(s[0]) then 0
    else
      var n := LeadingDigits(s[1..]);
      assert forall i :: 1 <= i < n + 1 ==> s[i] == s[1..][..n][i - 1];
      n + 1
  }

  datatype Numeral = Numeral(whole: string, fraction: string)

  // /^(\d+)(?:\.(\d*))?$/
  function Match(text: string): (r: Option<Numeral>)
    ensures r.Some? ==> AllDigits(r.value.whole) && AllDigits(r.value.fraction) && r.value.whole != ""
  {
    var n := LeadingDigits(text);
    if n == 0 then None
    else if n == |text| then Some(Numeral(text, ""))
    else if text[n] == '.' && AllDigits(text[n + 1..]) then Some(Numeral(text[..n], text[n + 1..]))
    else None
  }

  function PadEnd(s: string, length: nat): (r: string)
    requires AllDigits(s)
    ensures AllDigits(r)
  {
    if |s| >= length then s else s + Zeros(length - |s|)
  }

  function PadStart(s: string, length: nat): (r: string)
    requires AllDigits(s)
    ensures AllDigits(r) && |r| >= length && |r| >= |s|
  {
    if |s| >= length then s else Zeros(length - |s|) + s
  }

  function ParseUnits(input: string, decimals: nat): Option<nat> {
    match Match(Trim(input))
    case None => None
    case Some(m) =>
      if |m.fraction| > decimals then None
      else
        var units := Value(m.whole + PadEnd(m.fraction, decimals));
        if units > U64_MAX then None else Some(units)
  }

  // fraction.replace(/0+$/, '')
  function StripZeros(s: string): (r: string)
    requires AllDigits(s)
    ensures AllDigits(r) && |r| <= |s| && s == r + Zeros(|s| - |r|)
    ensures r != "" ==> r[|r| - 1] != '0'
  {
    if s != "" && s[|s| - 1] == '0' then
      var r := StripZeros(s[..|s| - 1]);
      assert s == s[..|s| - 1] + ['0'];
      r
    else s
  }

  // The whole and the fraction as they are printed: the last `decimals` digits lose their trailing
  // zeros, and get at least two digits back.
  function SplitAt(padded: string, decimals: nat): (m: Numeral)
    requires AllDigits(padded) && decimals < |padded|
    ensures AllDigits(m.whole) && AllDigits(m.fraction) && m.whole != "" && |m.fraction| >= 2
  {
    Numeral(padded[..|padded| - decimals], PadEnd(StripZeros(padded[|padded| - decimals..]), 2))
  }

  function Printed(units: string, decimals: nat): (m: Numeral)
    requires AllDigits(units)
    ensures AllDigits(m.whole) && AllDigits(m.fraction) && m.whole != "" && |m.fraction| >= 2
  {
    SplitAt(PadStart(units, decimals + 1), decimals)
  }

  function FormatUnits(units: string, decimals: nat): string
    requires AllDigits(units)
  {
    if decimals == 0 then units
    else
      var m := Printed(units, decimals);
      m.whole + "." + m.fraction
  }

  lemma {:induction false} TrimStartSpaces(spaces: string, text: string)
    requires AllSpace(spaces) && text != "" && !IsSpace(text[0])
    ensures TrimStart(spaces + text) == text
    decreases |spaces|
  {
    if spaces == "" {
      assert spaces + text == text;
    } else {
      assert (spaces + text)[1..] == spaces[1..] + text;
      TrimStartSpaces(spaces[1..], text);
    }
  }

  lemma {:induction false} TrimEndSpaces(text: string, spaces: string)
    requires AllSpace(spaces) && text != "" && !IsSpace(text[|text| - 1])
    ensures TrimEnd(text + spaces) == text
    decreases |spaces|
  {
    if spaces == "" {
      assert text + spaces == text;
    } else {
      var all := text + spaces;
      assert all[..|all| - 1] == text + spaces[..|spaces| - 1];
      TrimEndSpaces(text, spaces[..|spaces| - 1]);
    }
  }

  lemma TrimSpaces(before: string, text: string, after: string)
    requires AllSpace(before) && AllSpace(after)
    requires text != "" && !IsSpace(text[0]) && !IsSpace(text[|text| - 1])
    ensures Trim(before + text + after) == text
  {
    assert before + text + after == before + (text + after);
    TrimStartSpaces(before, text + after);
    TrimEndSpaces(text, after);
  }

  lemma {:induction false} LeadingOf(whole: string, rest: string)
    requires AllDigits(whole) && (rest == "" || !IsDigit(rest[0]))
    ensures LeadingDigits(whole + rest) == |whole|
    decreases |whole|
  {
    if whole == "" {
      assert whole + rest == rest;
    } else {
      assert (whole + rest)[1..] == whole[1..] + rest;
      LeadingOf(whole[1..], rest);
    }
  }

  // A numeral as it is written, without or with a point.
  function Written(m: Numeral, point: bool): string { m.whole + if point then "." + m.fraction else "" }

  predicate WellFormed(m: Numeral, point: bool) {
    AllDigits(m.whole) && AllDigits(m.fraction) && m.whole != "" && (!point ==> m.fraction == "")
  }

  lemma MatchWritten(m: Numeral, point: bool)
    requires WellFormed(m, point)
    ensures Match(Written(m, point)) == Some(m)
  {
    var rest := if point then "." + m.fraction else "";
    LeadingOf(m.whole, rest);
    var text := Written(m, point);
    if point {
      assert text[|m.whole| + 1..] == m.fraction && text[..|m.whole|] == m.whole;
    } else {
      assert text == m.whole;
    }
  }

  // What a numeral is worth in units.
  function UnitsOf(m: Numeral, decimals: nat): nat
    requires AllDigits(m.whole) && AllDigits(m.fraction) && |m.fraction| <= decimals
  {
    Value(m.whole) * Pow10(decimals) + Value(m.fraction) * Pow10(decimals - |m.fraction|)
  }

  lemma ValueOfPadded(m: Numeral, decimals: nat)
    requires AllDigits(m.whole) && AllDigits(m.fraction) && |m.fraction| <= decimals
    ensures Value(m.whole + PadEnd(m.fraction, decimals)) == UnitsOf(m, decimals)
  {
    var zeros := Zeros(decimals - |m.fraction|);
    var padded := PadEnd(m.fraction, decimals);
    assert padded == m.fraction + zeros;
    ValueAppend(m.fraction, zeros);
    ValueOfZeros(zeros);
    ValueAppend(m.whole, padded);
  }

  lemma WrittenEnds(m: Numeral, point: bool)
    requires WellFormed(m, point)
    ensures var text := Written(m, point); text != "" && !IsSpace(text[0]) && !IsSpace(text[|text| - 1])
  {
    var text := Written(m, point);
    assert text[0] == m.whole[0];
    var last := text[|text| - 1];
    assert last == if !point then m.whole[|m.whole| - 1] else if m.fraction == "" then '.' else m.fraction[|m.fraction| - 1];
  }

  /** Parsing, for every numeral and any white space around it: it succeeds exactly when there are at
      most `decimals` fraction digits and the value fits in a u64, and it gives that value. */
  lemma ParseWritten(before: string, m: Numeral, point: bool, after: string, decimals: nat)
    requires AllSpace(before) && AllSpace(after) && WellFormed(m, point)
    ensures ParseUnits(before + Written(m, point) + after, decimals)
            == if |m.fraction| <= decimals && UnitsOf(m, decimals) <= U64_MAX then Some(UnitsOf(m, decimals)) else None
  {
    WrittenEnds(m, point);
    TrimSpaces(before, Written(m, point), after);
    MatchWritten(m, point);
    if |m.fraction| <= decimals {
      ValueOfPadded(m, decimals);
    }
  }

  lemma {:induction false} TrimStartSplits(s: string)
    ensures TrimStart(s) == s[|s| - |TrimStart(s)|..] && AllSpace(s[..|s| - |TrimStart(s)|])
    decreases |s|
  {
    if s != "" && IsSpace(s[0]) {
      TrimStartSplits(s[1..]);
      var n := |s| - |TrimStart(s)|;
      assert s[1..][..n - 1] == s[1..n];
      forall i | 0 <= i < n ensures IsSpace(s[i]) {
        assert i == 0 || s[i] == s[1..n][i - 1];
      }
    }
  }

  lemma {:induction false} TrimEndSplits(s: string)
    ensures TrimEnd(s) == s[..|TrimEnd(s)|] && AllSpace(s[|TrimEnd(s)|..])
    decreases |s|
  {
    if s != "" && IsSpace(s[|s| - 1]) {
      var init := s[..|s| - 1];
      TrimEndSplits(init);
      var n := |TrimEnd(s)|;
      forall i | n <= i < |s| ensures IsSpace(s[i]) {
        assert i == |s| - 1 || s[i] == init[n..][i - n];
      }
    }
  }

  lemma MatchedIsWritten(text: string) returns (point: bool)
    requires Match(text).Some?
    ensures WellFormed(Match(text).value, point) && text == Written(Match(text).value, point)
  {
    point := LeadingDigits(text) < |text|;
  }

  lemma Rejoin(input: string, inner: string, text: string)
    requires |inner| <= |input| && inner == input[|input| - |inner|..] && |text| <= |inner| && text == inner[..|text|]
    ensures input == input[..|input| - |inner|] + text + inner[|text|..]
  {
    assert inner == text + inner[|text|..];
  }

  /** Nothing else parses: whatever is accepted is a numeral with white space around it. */
  lemma ParsedIsNumeral(input: string, decimals: nat)
      returns (before: string, m: Numeral, point: bool, after: string)
    requires ParseUnits(input, decimals).Some?
    ensures AllSpace(before) && AllSpace(after) && WellFormed(m, point)
    ensures input == before + Written(m, point) + after
    ensures |m.fraction| <= decimals && ParseUnits(input, decimals) == Some(UnitsOf(m, decimals))
  {
    var inner, text := TrimStart(input), Trim(input);
    TrimStartSplits(input);
    TrimEndSplits(inner);
    before, after := input[..|input| - |inner|], inner[|text|..];
    m := Match(text).value;
    point := MatchedIsWritten(text);
    ValueOfPadded(m, decimals);
    Rejoin(input, inner, text);
  }

  lemma ZerosBefore(zeros: string, s: string)
    requires AllDigits(zeros) && AllDigits(s) && forall i :: 0 <= i < |zeros| ==> zeros[i] == '0'
    ensures AllDigits(zeros + s) && Value(zeros + s) == Value(s)
  {
    ValueAppend(zeros, s);
    ValueOfZeros(zeros);
  }

  lemma ValueOfPadStart(s: string, length: nat)
    requires AllDigits(s)
    ensures Value(PadStart(s, length)) == Value(s)
  {
    if |s| < length {
      ZerosBefore(Zeros(length - |s|), s);
    }
  }

  lemma {:induction false} Pow10Add(a: nat, b: nat)
    ensures Pow10(a + b) == Pow10(a) * Pow10(b)
  {
    if a > 0 {
      Pow10Add(a - 1, b);
      assert Pow10(a + b) == 10 * (Pow10(a - 1) * Pow10(b)) == (10 * Pow10(a - 1)) * Pow10(b);
    }
  }

  // Cutting zeros and filling up to two digits again only moves zeros.
  lemma CutMany(cut: string)
    requires AllDigits(cut) && |cut| >= 2
    ensures |PadEnd(StripZeros(cut), 2)| <= |cut|
    ensures PadEnd(PadEnd(StripZeros(cut), 2), |cut|) == cut
  {
    var r := StripZeros(cut);
    FillTwice(r, 2, |cut|);
    assert PadEnd(r, |cut|) == cut;
  }

  lemma FillTwice(s: string, few: nat, many: nat)
    requires AllDigits(s) && few <= many && |s| <= many
    ensures |PadEnd(s, few)| <= many && PadEnd(PadEnd(s, few), many) == PadEnd(s, many)
  {
    if |s| < few {
      assert Zeros(few - |s|) + Zeros(many - few) == Zeros(many - |s|);
    }
  }

  lemma CutOne(cut: string)
    requires AllDigits(cut) && |cut| == 1
    ensures PadEnd(StripZeros(cut), 2) == cut + "0"
  {
    assert cut == [cut[0]];
    assert Zeros(2) == "00" && Zeros(1) == "0";
    if cut[0] == '0' {
      assert StripZeros("") == "" && StripZeros(cut) == "";
    } else {
      assert StripZeros(cut) == cut;
    }
    hide StripZeros, Zeros;
  }

  lemma ManyPart(m: Numeral, cut: string)
    requires AllDigits(m.whole) && AllDigits(m.fraction) && AllDigits(cut)
    requires |m.fraction| <= |cut| && PadEnd(m.fraction, |cut|) == cut
    ensures AllDigits(m.whole + cut) && UnitsOf(m, |cut|) == Value(m.whole + cut)
  {
    ValueOfPadded(m, |cut|);
  }

  lemma OnePart(m: Numeral, cut: string)
    requires AllDigits(m.whole) && AllDigits(cut) && |cut| == 1 && m.fraction == cut + "0" && AllDigits(m.fraction)
    ensures AllDigits(m.whole + cut) && UnitsOf(m, 2) == 10 * Value(m.whole + cut)
  {
    ManyPart(m, m.fraction);
    TenFold(m.whole + cut);
    assert m.whole + (cut + "0") == (m.whole + cut) + "0";
  }

  lemma PartsMany(m: Numeral, cut: string)
    requires AllDigits(m.whole) && AllDigits(cut) && |cut| >= 2 && m.fraction == PadEnd(StripZeros(cut), 2)
    ensures AllDigits(m.whole + cut) && |m.fraction| <= |cut| && UnitsOf(m, |cut|) == Value(m.whole + cut)
  {
    CutMany(cut);
    ManyPart(m, cut);
  }

  lemma PartsOne(m: Numeral, cut: string)
    requires AllDigits(m.whole) && AllDigits(cut) && |cut| == 1 && m.fraction == PadEnd(StripZeros(cut), 2)
    ensures AllDigits(m.whole + cut) && |m.fraction| == 2 && UnitsOf(m, 2) == 10 * Value(m.whole + cut)
  {
    CutOne(cut);
    OnePart(m, cut);
  }

  lemma TenFold(s: string)
    requires AllDigits(s)
    ensures AllDigits(s + "0") && Value(s + "0") == 10 * Value(s)
  {
    assert (s + "0")[..|s + "0"| - 1] == s;
  }

  lemma SplitJoins(padded: string, decimals: nat) returns (cut: string)
    requires AllDigits(padded) && 0 < decimals < |padded|
    ensures |cut| == decimals && AllDigits(cut) && SplitAt(padded, decimals).whole + cut == padded
    ensures SplitAt(padded, decimals).fraction == PadEnd(StripZeros(cut), 2)
  {
    cut := padded[|padded| - decimals..];
  }

  lemma PrintedValue(units: string, decimals: nat)
    requires AllDigits(units) && decimals > 0
    ensures var m := Printed(units, decimals);
      && (decimals >= 2 ==> |m.fraction| <= decimals && UnitsOf(m, decimals) == Value(units))
      && (decimals == 1 ==> |m.fraction| == 2 && UnitsOf(m, 2) == 10 * Value(units))
  {
    ValueOfPadStart(units, decimals + 1);
    var cut := SplitJoins(PadStart(units, decimals + 1), decimals);
    if decimals >= 2 {
      PartsMany(Printed(units, decimals), cut);
    } else {
      PartsOne(Printed(units, decimals), cut);
    }
  }

  // A numeral is worth the same number whatever power of ten it is counted in.
  lemma SameNumber(m: Numeral, decimals: nat, n: nat)
    requires AllDigits(m.whole) && AllDigits(m.fraction) && |m.fraction| <= decimals && UnitsOf(m, decimals) == n
    ensures UnitsOf(m, |m.fraction|) * Pow10(decimals) == n * Pow10(|m.fraction|)
  {
    Rescale(m, decimals);
    Pow10Add(decimals - |m.fraction|, |m.fraction|);
    Swap(UnitsOf(m, |m.fraction|), Pow10(decimals - |m.fraction|), Pow10(|m.fraction|));
  }

  lemma SameNumberOfOne(m: Numeral, n: nat)
    requires AllDigits(m.whole) && AllDigits(m.fraction) && |m.fraction| == 2 && UnitsOf(m, 2) == 10 * n
    ensures UnitsOf(m, |m.fraction|) * Pow10(1) == n * Pow10(|m.fraction|)
  {
    assert Pow10(1) == 10 && Pow10(2) == 10 * Pow10(1);
  }

  /** The printed text denotes exactly `units / 10^decimals`: written as one number over a power of
      ten, the two fractions are equal. */
  lemma FormatDenotes(n: nat, decimals: nat)
    ensures decimals == 0 ==> FormatUnits(Digits(n), 0) == Digits(n) && Value(Digits(n)) == n
    ensures decimals > 0 ==>
              var m := Printed(Digits(n), decimals);
              && FormatUnits(Digits(n), decimals) == Written(m, true)
              && UnitsOf(m, |m.fraction|) * Pow10(decimals) == n * Pow10(|m.fraction|)
  {
    hide UnitsOf, Pow10, Printed, Value, Digits;
    ValueOfDigits(n);
    if decimals > 0 {
      var m := Printed(Digits(n), decimals);
      PrintedValue(Digits(n), decimals);
      assert m.whole + "." + m.fraction == m.whole + ("." + m.fraction);
      if decimals >= 2 {
        SameNumber(m, decimals, n);
      } else {
        SameNumberOfOne(m, n);
      }
    }
  }

  // As money is written: no leading zeros before the point, two digits behind it, and more of them only
  // down to the last one that is not zero.
  ghost predicate Canonical(m: Numeral) {
    && m.whole != "" && (m.whole[0] == '0' ==> m.whole == "0")
    && |m.fraction| >= 2 && (|m.fraction| > 2 ==> m.fraction[|m.fraction| - 1] != '0')
  }

  lemma WholeIsShort(n: nat, decimals: nat)
    ensures var m := Printed(Digits(n), decimals); m.whole != "" && (m.whole[0] == '0' ==> m.whole == "0")
  {
    var units := Digits(n);
    var padded := PadStart(units, decimals + 1);
    DigitsAreShort(n);
    if |units| > decimals + 1 {
      assert padded[0] == units[0] != '0';
    } else {
      assert |padded[..|padded| - decimals]| == 1;
    }
  }

  /** Of all the texts that denote the amount the canonical one is printed. */
  lemma FormatIsCanonical(n: nat, decimals: nat)
    requires decimals > 0
    ensures Canonical(Printed(Digits(n), decimals)) && FormatUnits(Digits(n), decimals) == Written(Printed(Digits(n), decimals), true)
  {
    WholeIsShort(n, decimals);
    var m := Printed(Digits(n), decimals);
    assert m.whole + "." + m.fraction == m.whole + ("." + m.fraction);
  }

  lemma Swap(a: nat, b: nat, c: nat)
    ensures a * (b * c) == (a * b) * c
  {
  }

  lemma Rescale(m: Numeral, decimals: nat)
    requires AllDigits(m.whole) && AllDigits(m.fraction) && |m.fraction| <= decimals
    ensures UnitsOf(m, decimals) == UnitsOf(m, |m.fraction|) * Pow10(decimals - |m.fraction|)
  {
    var f, k := |m.fraction|, decimals - |m.fraction|;
    Pow10Add(f, k);
    assert Pow10(0) == 1;
    Spread(Value(m.whole), Pow10(f), Value(m.fraction), Pow10(k));
  }

  lemma Spread(a: nat, b: nat, c: nat, d: nat)
    ensures a * (b * d) + c * d == (a * b + c * 1) * d
  {
  }

  lemma ParseBare(m: Numeral, point: bool, decimals: nat)
    requires WellFormed(m, point)
    ensures ParseUnits(Written(m, point), decimals)
            == if |m.fraction| <= decimals && UnitsOf(m, decimals) <= U64_MAX then Some(UnitsOf(m, decimals)) else None
  {
    ParseWritten("", m, point, "", decimals);
    assert "" + Written(m, point) + "" == Written(m, point);
  }

  lemma WholeUnits(s: string)
    requires AllDigits(s)
    ensures UnitsOf(Numeral(s, ""), 0) == Value(s)
  {
    assert Pow10(0) == 1 && Value("") == 0;
  }

  /** Round trip, exactly: for every u64 amount, the printed text parses back to the amount if and
      only if the token does not have one decimal; with one, the two printed digits are refused. */
  lemma ParseFormat(n: nat, decimals: nat)
    requires n <= U64_MAX
    ensures ParseUnits(FormatUnits(Digits(n), decimals), decimals) == if decimals == 1 then None else Some(n)
  {
    FormatDenotes(n, decimals);
    if decimals == 0 {
      ParseBare(Numeral(Digits(n), ""), false, 0);
      WholeUnits(Digits(n));
      assert Written(Numeral(Digits(n), ""), false) == Digits(n);
    } else {
      ValueOfDigits(n);
      PrintedValue(Digits(n), decimals);
      ParseBare(Printed(Digits(n), decimals), true, decimals);
    }
  }
}
