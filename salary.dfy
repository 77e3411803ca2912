/**
 * `HhruSpider.process_salary` (jobparser/spiders/hhru.py:56-89): the salary block of a
 * vacancy page, as a list of text fragments, reduced to no salary, one bound, or a
 * (lower, upper) pair.
 */
module HhruSpider {
  import opened Wrappers
  import opened Text
  import opened Decimal
  import opened Pattern

  /**
   * The three results of `process_salary`: `None`, one float, or a pair of floats.
   * A pair always has both components; a lone bound is a `Single`.
   */
  datatype Salary = Absent | Single(bound: real) | Range(lower: real, upper: real)

  /** `' '.join(fragments).replace('\xa0', ' ')`: the text the pattern is searched in. */
  function SalaryText(fragments: seq<string>): string {
    Replace(Join(fragments, " "), Nbsp, " ")
  }

  /** The searched text is the joined fragments with each non-breaking space turned into a plain space. */
  lemma SalaryTextChars(fragments: seq<string>)
    ensures var j, t := Join(fragments, " "), SalaryText(fragments);
      && Nbsp !in t
      && |t| == |j|
      && forall i :: 0 <= i < |t| ==> t[i] == (if j[i] == Nbsp then ' ' else j[i])
  {
    ReplaceChars(Join(fragments, " "), Nbsp, " ");
    ReplaceByOne(Join(fragments, " "), Nbsp, " ");
  }

  /** A single fragment without non-breaking spaces is searched exactly as written. */
  lemma SingleFragment(fragment: string)
    requires Nbsp !in fragment
    ensures SalaryText([fragment]) == fragment
  {
    assert Join([fragment], " ") == fragment;
  }

  /** A non-breaking space inside a single fragment is searched as a plain space. */
  lemma NbspBecomesSpace(a: string, b: string)
    requires Nbsp !in a && Nbsp !in b
    ensures SalaryText([a + [Nbsp] + b]) == a + " " + b
  {
    var s := a + [Nbsp] + b;
    assert Join([s], " ") == s;
    ReplaceAround(a, [Nbsp], b, Nbsp, " ");
    ReplaceSingle(Nbsp, " ");
  }

  /** `group.replace(' ', '').replace(',', '.')`. */
  function Normalised(group: string): string {
    Replace(Replace(group, ' ', ""), ',', ".")
  }

  /** `float(...)` of the normalised group `t[i..j]`; `Err` is the `ValueError` it raises. */
  function Bound(t: string, i: nat, j: nat): (r: Result<real>)
    requires i <= j <= |t|
    ensures r.Ok? ==> r.value >= 0.0
  {
    var s := Normalised(t[i..j]);
    match ToFloat(s)
    case Some(v) => Ok(v)
    case None => Err(s)
  }

  /** The closing `if upper_bound: ... elif lower_bound: ...`, with Python's truthiness of floats. */
  function Classify(lower: real, upper: Option<real>): (r: Salary)
    ensures r.Range? <==> upper.Some? && upper.value != 0.0
    ensures r.Range? ==> r.lower == lower && r.upper == upper.value
    ensures r.Single? <==> (upper.None? || upper.value == 0.0) && lower != 0.0
    ensures r.Single? ==> r.bound == lower
    ensures r.Absent? <==> (upper.None? || upper.value == 0.0) && lower == 0.0
  {
    if upper.Some? && upper.value != 0.0 then Range(lower, upper.value)
    else if lower != 0.0 then Single(lower)
    else Absent
  }

  /** `process_salary(salary_text)`. */
  function ProcessSalary(fragments: seq<string>): (r: Result<Salary>)
    ensures fragments == [] ==> r == Ok(Absent)
    ensures r.Ok? && r.value.Range? ==> r.value.upper != 0.0
    ensures r.Ok? && r.value.Single? ==> r.value.bound != 0.0
  {
    if fragments == [] then Ok(Absent)
    else
      var t := SalaryText(fragments);
      match Find(t)
      case None => Ok(Absent)
      case Some(m) => Evaluate(t, m)
  }

  /** The groups of the match found, converted lower first, then classified. */
  function Evaluate(t: string, m: Match): (r: Result<Salary>)
    requires m.first <= m.firstEnd <= m.second <= m.secondEnd <= |t|
    ensures r.Ok? && r.value.Range? ==> r.value.upper != 0.0
    ensures r.Ok? && r.value.Single? ==> r.value.bound != 0.0
  {
    match Bound(t, m.first, m.firstEnd)
    case Err(e) => Err(e)
    case Ok(lower) =>
      if !m.HasSecond() then Ok(Classify(lower, None))
      else
        match Bound(t, m.second, m.secondEnd)
        case Err(e) => Err(e)
        case Ok(upper) => Ok(Classify(lower, Some(upper)))
  }

  // ---------------------------------------------------------------------------
  // Reading a captured group

  /** The digits of `s` are all `0`. */
  ghost predicate ZeroDigits(s: string) {
    forall x :: x in s && IsDigit(x) ==> x == '0'
  }

  /** Normalising a group keeps exactly its digits and its other non-space characters except the comma. */
  lemma NormalisedChars(g: string)
    ensures ' ' !in Normalised(g) && ',' !in Normalised(g)
    ensures forall x :: x in Normalised(g) ==> x == '.' || (x in g && x != ' ' && x != ',')
    ensures forall x :: x in g && x != ' ' && x != ',' ==> x in Normalised(g)
  {
    ReplaceChars(g, ' ', "");
    ReplaceChars(Replace(g, ' ', ""), ',', ".");
  }

  /** The plain spaces are the only whitespace in `t[i..j]`. */
  ghost predicate PlainSpaces(t: string, i: nat, j: nat)
    requires i <= j <= |t|
  {
    forall k :: i <= k < j && IsSpace(t[k]) ==> t[k] == ' '
  }

  /** With the spaces deleted, a run of digits and plain spaces that starts with a digit is a non-empty digit string. */
  lemma DeleteSpaces(t: string, i: nat, j: nat)
    requires i < j <= |t| && IsDigit(t[i]) && PlainSpaces(t, i, j)
    requires forall k :: i <= k < j ==> IsDigit(t[k]) || IsSpace(t[k])
    ensures var a := Replace(t[i..j], ' ', "");
      a != [] && AllDigits(a) && ',' !in a
  {
    var g := t[i..j];
    var a := Replace(g, ' ', "");
    ReplaceChars(g, ' ', "");
    forall x | x in a ensures IsDigit(x) {
      var k :| 0 <= k < |g| && g[k] == x;
      assert t[i + k] == x;
    }
    assert g[0] in a;
  }

  /**
   * A captured group converts exactly when the only whitespace in it is the plain space
   * (the one character the code deletes); any other whitespace `\s` admits, such as a
   * tab or U+202F, makes `float()` raise.
   */
  lemma BoundConverts(t: string, i: nat, j: nat)
    requires NumberAt(t, i, j)
    ensures Bound(t, i, j).Ok? <==> PlainSpaces(t, i, j)
  {
    NumberChars(t, i, j);
    if PlainSpaces(t, i, j) {
      if ChainAt(t, i, j) {
        ChainConverts(t, i, j);
      } else {
        var c :| i < c && c + 1 < j <= |t| && ChainAt(t, i, c) && t[c] == ',' && DigitsAt(t, c + 1, j);
        PointConverts(t, i, c, j);
      }
    } else {
      var g := t[i..j];
      NormalisedChars(g);
      var k :| i <= k < j && IsSpace(t[k]) && t[k] != ' ';
      assert t[k] == g[k - i];
      assert t[k] in Normalised(g);
      if Bound(t, i, j).Ok? {
        ToFloatChars(Normalised(g));
      }
    }
  }

  /** A group without a decimal part converts to the number its digits write once the spaces are deleted. */
  lemma ChainConverts(t: string, i: nat, j: nat)
    requires ChainAt(t, i, j) && PlainSpaces(t, i, j)
    ensures AllDigits(Replace(t[i..j], ' ', ""))
    ensures Bound(t, i, j) == Ok(Natural(Replace(t[i..j], ' ', "")) as real)
  {
    DeleteSpaces(t, i, j);
    var a := Replace(t[i..j], ' ', "");
    assert Normalised(t[i..j]) == a;
    ToFloatWhole(a);
  }

  /**
   * A group with a decimal comma at `c` converts to the number its whole part writes once
   * the spaces are deleted, plus its fraction.
   */
  lemma PointConverts(t: string, i: nat, c: nat, j: nat)
    requires i < c && c + 1 < j <= |t| && ChainAt(t, i, c) && t[c] == ',' && DigitsAt(t, c + 1, j)
    requires PlainSpaces(t, i, j)
    ensures AllDigits(Replace(t[i..c], ' ', ""))
    ensures Bound(t, i, j) == Ok(Natural(Replace(t[i..c], ' ', "")) as real + Fraction(t[c + 1..j]))
  {
    PointPieces(t, i, c, j);
    PointBound(t, i, j, t[i..c], t[c + 1..j]);
  }

  /** The bound of a group `whole,fraction` whose whole part is digits once the spaces are deleted. */
  lemma PointBound(t: string, i: nat, j: nat, whole: string, fraction: string)
    requires i <= j <= |t| && t[i..j] == whole + "," + fraction
    requires ',' !in whole && fraction != [] && AllDigits(fraction)
    requires Replace(whole, ' ', "") != [] && AllDigits(Replace(whole, ' ', ""))
    ensures Bound(t, i, j) == Ok(Natural(Replace(whole, ' ', "")) as real + Fraction(fraction))
  {
    PointValue(whole, fraction);
    BoundOf(t, i, j, whole + "," + fraction);
  }

  /** `Bound` reads the group through `ToFloat`, so equal groups give equal bounds. */
  lemma BoundOf(t: string, i: nat, j: nat, g: string)
    requires i <= j <= |t| && t[i..j] == g && ToFloat(Normalised(g)).Some?
    ensures Bound(t, i, j) == Ok(ToFloat(Normalised(g)).value)
  {
  }

  /**
   * A group with a decimal comma splits at the comma into a comma-free whole part, which
   * is digits once the spaces are deleted, and a digit fraction.
   */
  lemma PointPieces(t: string, i: nat, c: nat, j: nat)
    requires i < c && c + 1 < j <= |t| && ChainAt(t, i, c) && t[c] == ',' && DigitsAt(t, c + 1, j)
    requires PlainSpaces(t, i, j)
    ensures t[i..j] == t[i..c] + "," + t[c + 1..j]
    ensures ',' !in t[i..c] && AllDigits(t[c + 1..j])
    ensures Replace(t[i..c], ' ', "") != [] && AllDigits(Replace(t[i..c], ' ', ""))
  {
    DeleteSpaces(t, i, c);
    var whole, fraction := t[i..c], t[c + 1..j];
    assert t[i..j] == whole + "," + fraction;
    assert ',' !in whole by {
      forall k | 0 <= k < |whole| ensures whole[k] != ',' {
        assert whole[k] == t[i + k];
      }
    }
    assert AllDigits(fraction) by {
      forall k | 0 <= k < |fraction| ensures IsDigit(fraction[k]) {
        assert fraction[k] == t[c + 1 + k];
      }
    }
  }

  /** `whole,fraction` normalises to a numeral with a point, which converts to its value. */
  lemma PointValue(whole: string, fraction: string)
    requires ',' !in whole && fraction != [] && AllDigits(fraction)
    requires Replace(whole, ' ', "") != [] && AllDigits(Replace(whole, ' ', ""))
    ensures ToFloat(Normalised(whole + "," + fraction))
         == Some(Natural(Replace(whole, ' ', "")) as real + Fraction(fraction))
  {
    assert ToFloat(Normalised(whole + "," + fraction)) == ToFloat(Replace(whole, ' ', "") + "." + fraction) by {
      PointNormalised(whole, fraction);
    }
    ToFloatPoint(Replace(whole, ' ', ""), fraction);
  }

  /** With the spaces deleted from a digit group, `whole,fraction` normalises to `whole.fraction`. */
  lemma PointNormalised(whole: string, fraction: string)
    requires ',' !in whole && AllDigits(fraction)
    requires AllDigits(Replace(whole, ' ', ""))
    ensures Normalised(whole + "," + fraction) == Replace(whole, ' ', "") + "." + fraction
  {
    var a := Replace(whole, ' ', "");
    assert Normalised(whole) == a by {
      assert ',' !in a;
    }
    NormalisedComma(whole, fraction);
  }

  /** A group of digits alone converts to the number it writes. */
  lemma WholeBound(t: string, i: nat, j: nat)
    requires i < j <= |t| && AllDigits(t[i..j])
    ensures Bound(t, i, j) == Ok(Natural(t[i..j]) as real)
  {
    var g := t[i..j];
    assert ' ' !in g && ',' !in g;
    assert Normalised(g) == g;
    ToFloatWhole(g);
  }

  /** Deleting the thousands separator: `a b` normalises to the digits `ab`. */
  lemma NormalisedGroups(a: string, b: string)
    requires AllDigits(a) && AllDigits(b)
    ensures Normalised(a + " " + b) == a + b
  {
    assert ' ' !in a && ',' !in a && ' ' !in b && ',' !in b;
    ReplaceConcat(a + " ", b, ' ', "");
    ReplaceConcat(a, " ", ' ', "");
  }

  /** The decimal comma becomes a point: `a,b` normalises to `a` normalised, a point, then `b`. */
  lemma NormalisedComma(a: string, b: string)
    requires ',' !in a && AllDigits(b)
    ensures Normalised(a + "," + b) == Normalised(a) + "." + b
  {
    assert ' ' !in b && ',' !in b;
    var a' := Replace(a, ' ', "");
    ReplaceAround(a, ",", b, ' ', "");
    assert Replace(a + "," + b, ' ', "") == a' + "," + b;
    ReplaceAround(a', ",", b, ',', ".");
    ReplaceSingle(',', ".");
  }

  /** A whole part with one thousands separator and a decimal comma. */
  lemma NormalisedGroupsComma(a: string, b: string, f: string)
    requires AllDigits(a) && AllDigits(b) && AllDigits(f)
    ensures Normalised(a + " " + b + "," + f) == a + b + "." + f
  {
    assert ',' !in a && ',' !in b;
    NormalisedComma(a + " " + b, f);
    NormalisedGroups(a, b);
  }

  /** A converted group is never negative, and is zero exactly when all its digits are `0`. */
  lemma BoundZero(t: string, i: nat, j: nat)
    requires i <= j <= |t|
    requires Bound(t, i, j).Ok?
    ensures Bound(t, i, j).value >= 0.0
    ensures Bound(t, i, j).value == 0.0 <==> ZeroDigits(t[i..j])
  {
    var g := t[i..j];
    var s := Normalised(g);
    NormalisedChars(g);
    ToFloatZero(s);
    assert ZeroDigits(s) <==> ZeroDigits(g);
    assert ZeroDigits(s) <==> forall k :: 0 <= k < |s| && IsDigit(s[k]) ==> s[k] == '0';
  }

  // ---------------------------------------------------------------------------
  // What process_salary returns

  /** Without a match of the pattern, and for an empty fragment list, the result is `None`. */
  lemma NoMatchIsAbsent(fragments: seq<string>)
    requires fragments == [] || forall m :: !Shape(SalaryText(fragments), m)
    ensures ProcessSalary(fragments) == Ok(Absent)
  {
    if fragments != [] {
      FindIsReported(SalaryText(fragments));
    }
  }

  /** Text without a rouble sign yields `None`. */
  lemma NoRoubleIsAbsent(fragments: seq<string>)
    requires Rouble !in Join(fragments, " ")
    ensures ProcessSalary(fragments) == Ok(Absent)
  {
    var t := SalaryText(fragments);
    ReplaceChars(Join(fragments, " "), Nbsp, " ");
    assert Rouble !in t;
    forall m | Shape(t, m) ensures false {
    }
    NoMatchIsAbsent(fragments);
  }

  /**
   * On the match `re.search` reports, the result is decided by the two groups: the
   * conversion errors propagate, lower first; a non-zero group 2 gives the pair
   * (group 1, group 2) in that order, with no check that lower <= upper; otherwise a
   * non-zero group 1 gives the single bound; otherwise the result is `None`.
   */
  lemma ReportedMatchResult(fragments: seq<string>, m: Match)
    requires fragments != [] && Reported(SalaryText(fragments), m)
    ensures var t := SalaryText(fragments);
      var lower := Bound(t, m.first, m.firstEnd);
      var r := ProcessSalary(fragments);
      && (lower.Err? ==> r == Err(lower.error))
      && (lower.Ok? && !m.HasSecond() ==>
            r == Ok(if lower.value != 0.0 then Single(lower.value) else Absent))
      && (lower.Ok? && m.HasSecond() ==>
            var upper := Bound(t, m.second, m.secondEnd);
            && (upper.Err? ==> r == Err(upper.error))
            && (upper.Ok? && upper.value != 0.0 ==> r == Ok(Range(lower.value, upper.value)))
            && (upper.Ok? && upper.value == 0.0 ==>
                  r == Ok(if lower.value != 0.0 then Single(lower.value) else Absent)))
  {
    var t := SalaryText(fragments);
    FindIsReported(t);
    ReportedUnique(t, m, Find(t).value);
  }

  /**
   * Every result comes from the reported match: a pair from both groups with a
   * non-zero group 2, a single bound from a non-zero group 1 with group 2 missing
   * or zero, and `None` from no match or from groups that are missing or zero.
   */
  lemma ResultExplained(fragments: seq<string>)
    ensures var t := SalaryText(fragments);
      var r := ProcessSalary(fragments);
      && (r.Ok? && r.value.Range? ==>
            exists m :: Reported(t, m) && m.HasSecond()
              && Bound(t, m.first, m.firstEnd) == Ok(r.value.lower)
              && Bound(t, m.second, m.secondEnd) == Ok(r.value.upper))
      && (r.Ok? && r.value.Single? ==>
            exists m :: Reported(t, m)
              && Bound(t, m.first, m.firstEnd) == Ok(r.value.bound)
              && (m.HasSecond() ==> Bound(t, m.second, m.secondEnd) == Ok(0.0)))
      && (r.Ok? && r.value.Absent? ==>
            || fragments == []
            || (forall m :: !Shape(t, m))
            || exists m :: Reported(t, m)
                 && Bound(t, m.first, m.firstEnd) == Ok(0.0)
                 && (m.HasSecond() ==> Bound(t, m.second, m.secondEnd).Ok?))
  {
    var t := SalaryText(fragments);
    if fragments != [] {
      FindIsReported(t);
      if Find(t).Some? {
        ReportedMatchResult(fragments, Find(t).value);
      }
    }
  }

  /** Bounds written with zeros only count as absent: `0 ₽`, or `0` to `0`, yields `None`. */
  lemma ZeroBoundsAreAbsent(fragments: seq<string>, m: Match)
    requires fragments != [] && Reported(SalaryText(fragments), m)
    requires Bound(SalaryText(fragments), m.first, m.firstEnd).Ok?
    requires ZeroDigits(SalaryText(fragments)[m.first..m.firstEnd])
    requires m.HasSecond() ==>
      && Bound(SalaryText(fragments), m.second, m.secondEnd).Ok?
      && ZeroDigits(SalaryText(fragments)[m.second..m.secondEnd])
    ensures ProcessSalary(fragments) == Ok(Absent)
  {
    var t := SalaryText(fragments);
    BoundZero(t, m.first, m.firstEnd);
    if m.HasSecond() {
      BoundZero(t, m.second, m.secondEnd);
    }
    ReportedMatchResult(fragments, m);
  }
}
