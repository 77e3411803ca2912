/**
 * The salary pattern of jobparser/spiders/hhru.py:72,
 *
 *   (?:от\s*)?(N)\s*(?:до\s*)?(N)?\s*₽\s*(.*)      where N is \d+(?:\s+\d+)*(?:,\d+)?
 *
 * and Python's `re.search` with it. The pattern is written twice: as a declarative
 * predicate on positions (`Shape`), saying which pieces of the text play which part,
 * and as a scanner (`Find`) that computes the match. `Reported` states which of the
 * possible shapes the regular-expression engine reports, and `FindIsReported` proves
 * that the scanner returns exactly that one.
 *
 * Positions are indices into the text `t`; a piece `[i, j)` is `t[i..j]`.
 */
module Pattern {
  import opened Wrappers
  import opened Text

  /** The rouble sign, U+20BD. */
  const Rouble: char := '\U{20BD}'

  /** The marker `от` ("from") starts at `p`. */
  predicate IsFrom(t: string, p: nat) {
    p + 2 <= |t| && t[p] == '\U{43E}' && t[p + 1] == '\U{442}'
  }

  /** The marker `до` ("to") starts at `p`. */
  predicate IsTo(t: string, p: nat) {
    p + 2 <= |t| && t[p] == '\U{434}' && t[p + 1] == '\U{43E}'
  }

  /**
   * One match: it starts at `start`; group 1 is `[first, firstEnd)`; group 2 is
   * `[second, secondEnd)` and did not participate when it is empty; the rouble sign
   * is at `sign`. The trailing `\s*(.*)` always matches and is not recorded.
   */
  datatype Match = Match(start: nat, first: nat, firstEnd: nat, second: nat, secondEnd: nat, sign: nat)
  {
    predicate HasSecond() {
      second < secondEnd
    }
  }

  // ---------------------------------------------------------------------------
  // The pattern, declaratively

  /** `[i, j)` is whitespace (possibly empty): `\s*`. */
  ghost predicate SpacesAt(t: string, i: nat, j: nat) {
    i <= j <= |t| && forall k :: i <= k < j ==> IsSpace(t[k])
  }

  /** `[i, j)` is `\d+`. */
  ghost predicate DigitsAt(t: string, i: nat, j: nat) {
    i < j <= |t| && forall k :: i <= k < j ==> IsDigit(t[k])
  }

  /** `[i, j)` is `\d+(?:\s+\d+)*`: digits and whitespace, first and last a digit. */
  ghost predicate ChainAt(t: string, i: nat, j: nat) {
    && i < j <= |t|
    && IsDigit(t[i]) && IsDigit(t[j - 1])
    && forall k :: i <= k < j ==> IsDigit(t[k]) || IsSpace(t[k])
  }

  /** `[i, j)` is a whole digit group `\d+(?:\s+\d+)*(?:,\d+)?`. */
  ghost predicate NumberAt(t: string, i: nat, j: nat) {
    || ChainAt(t, i, j)
    || exists c {:trigger ChainAt(t, i, c)} ::
         i < c && c + 1 < j <= |t| && ChainAt(t, i, c) && t[c] == ',' && DigitsAt(t, c + 1, j)
  }

  /** `[p, q)` is `(?:от\s*)?`. */
  ghost predicate Prefix(t: string, p: nat, q: nat) {
    q == p || (IsFrom(t, p) && SpacesAt(t, p + 2, q))
  }

  /** `[e, k)` is `\s*(?:до\s*)?`. */
  ghost predicate Connector(t: string, e: nat, k: nat) {
    || SpacesAt(t, e, k)
    || exists d {:trigger IsTo(t, d)} ::
         e <= d && d + 2 <= k && SpacesAt(t, e, d) && IsTo(t, d) && SpacesAt(t, d + 2, k)
  }

  /** `[k, k2)` is the optional group 2, then `[k2, m)` is `\s*` and the rouble sign is at `m`. */
  ghost predicate Tail(t: string, k: nat, k2: nat, m: nat) {
    && k <= k2 <= m < |t|
    && (k == k2 || NumberAt(t, k, k2))
    && SpacesAt(t, k2, m)
    && t[m] == Rouble
  }

  /** The pattern matches at `m.start` with the pieces `m` names. */
  ghost predicate Shape(t: string, m: Match) {
    && m.start <= m.first < m.firstEnd <= m.second
    && Prefix(t, m.start, m.first)
    && NumberAt(t, m.first, m.firstEnd)
    && Connector(t, m.firstEnd, m.second)
    && Tail(t, m.second, m.secondEnd, m.sign)
  }

  /** Two matches capture the same groups. */
  ghost predicate SameGroups(m: Match, m': Match) {
    && m.first == m'.first && m.firstEnd == m'.firstEnd
    && m.HasSecond() == m'.HasSecond()
    && (m.HasSecond() ==> m.second == m'.second && m.secondEnd == m'.secondEnd)
  }

  /**
   * The match `re.search` reports. The engine tries the start positions from left to
   * right; at one start it tries the ends of group 1 from the longest down, since
   * every quantifier in group 1 is greedy, and keeps the first end after which the
   * rest of the pattern matches. So the reported match has the leftmost start and,
   * among the shapes at that start, the longest group 1 (`ShapeGroupsDetermined`
   * shows that the groups are then fixed).
   */
  ghost predicate Reported(t: string, m: Match) {
    && Shape(t, m)
    && forall m' :: Shape(t, m') ==> m.start <= m'.start && (m'.start == m.start ==> m'.firstEnd <= m.firstEnd)
  }

  // ---------------------------------------------------------------------------
  // The scanner

  /** End of the whitespace run starting at `i`. */
  function SkipSpaces(t: string, i: nat): (j: nat)
    requires i <= |t|
    ensures i <= j <= |t|
    ensures j == |t| || !IsSpace(t[j])
    decreases |t| - i
  {
    if i < |t| && IsSpace(t[i]) then SkipSpaces(t, i + 1) else i
  }

  /** End of the digit run starting at `i`. */
  function SkipDigits(t: string, i: nat): (j: nat)
    requires i <= |t|
    ensures i <= j <= |t|
    ensures i < j ==> IsDigit(t[j - 1])
    ensures j == |t| || !IsDigit(t[j])
    decreases |t| - i
  {
    if i < |t| && IsDigit(t[i]) then SkipDigits(t, i + 1) else i
  }

  /** End of the longest `\d+(?:\s+\d+)*` starting at the digit at `i`. */
  function ChainEnd(t: string, i: nat): (j: nat)
    requires i < |t| && IsDigit(t[i])
    ensures i < j <= |t| && IsDigit(t[j - 1])
    ensures j == |t| || !IsDigit(t[j])
    decreases |t| - i
  {
    var j := SkipDigits(t, i + 1);
    var k := SkipSpaces(t, j);
    if k < |t| && IsDigit(t[k]) then ChainEnd(t, k) else j
  }

  /** End of the longest digit group starting at the digit at `i` (`NumberEndSound`, `NumberEndMaximal`). */
  function NumberEnd(t: string, i: nat): (j: nat)
    requires i < |t| && IsDigit(t[i])
    ensures i < j <= |t| && IsDigit(t[j - 1])
  {
    var c := ChainEnd(t, i);
    if c + 1 < |t| && t[c] == ',' && IsDigit(t[c + 1]) then SkipDigits(t, c + 1) else c
  }

  /** Where group 1 must begin for a match starting at `p`: after `от\s*` when the text has `от` there. */
  function FirstDigit(t: string, p: nat): (q: nat)
    requires p <= |t|
    ensures p <= q <= |t|
  {
    if IsFrom(t, p) then SkipSpaces(t, p + 2) else p
  }

  /** Group 2 and the rouble sign of a match, and where they are. */
  datatype Suffix = Suffix(second: nat, secondEnd: nat, sign: nat)

  /** `(N)?\s*₽` at `k`, group 2 taken as long as it goes (`NumberBeforeSign` shows no other length can work). */
  function TailAt(t: string, k: nat): (r: Option<Suffix>)
    requires k <= |t|
    ensures r.Some? ==> r.value.second == k <= r.value.secondEnd <= r.value.sign < |t|
  {
    if k < |t| && IsDigit(t[k]) then
      var k2 := NumberEnd(t, k);
      var m := SkipSpaces(t, k2);
      if m < |t| && t[m] == Rouble then Some(Suffix(k, k2, m)) else None
    else if k < |t| && t[k] == Rouble then Some(Suffix(k, k, k))
    else None
  }

  /** End of `\s*(?:до\s*)?` from `e`, taking `до` when it is there. */
  function ConnectorEnd(t: string, e: nat): (k: nat)
    requires e <= |t|
    ensures e <= k <= |t|
  {
    var e1 := SkipSpaces(t, e);
    if IsTo(t, e1) then SkipSpaces(t, e1 + 2) else e1
  }

  /** `\s*(?:до\s*)?(N)?\s*₽` from the end `e` of group 1. */
  function SuffixAt(t: string, e: nat): (r: Option<Suffix>)
    requires e <= |t|
    ensures r.Some? ==> e <= r.value.second <= r.value.secondEnd <= r.value.sign < |t|
  {
    TailAt(t, ConnectorEnd(t, e))
  }

  /** What the rest of the pattern does when group 1 ends at `e`: an end must follow a digit. */
  function AfterEnd(t: string, e: nat): Option<Suffix>
    requires 0 < e <= |t|
  {
    if IsDigit(t[e - 1]) then SuffixAt(t, e) else None
  }

  /** The outcome after each candidate end `q + 1 .. n` of group 1, shortest first. */
  function Ends(t: string, q: nat, n: nat): (s: seq<Option<Suffix>>)
    requires q < n <= |t|
    ensures |s| == n - q
  {
    seq(n - q, i requires 0 <= i < n - q => AfterEnd(t, q + 1 + i))
  }

  /** The first index from `i` on whose entry is present, or `|s|` when there is none. */
  function FirstSome<T>(s: seq<Option<T>>, i: nat): (k: nat)
    requires i <= |s|
    ensures i <= k <= |s|
    ensures k < |s| ==> s[k].Some?
    ensures forall j :: i <= j < k ==> s[j].None?
    decreases |s| - i
  {
    if i == |s| then |s| else if s[i].Some? then i else FirstSome(s, i + 1)
  }

  /** The last index below `j` whose entry is present, or `-1` when there is none. */
  function LastSome<T>(s: seq<Option<T>>, j: nat): (k: int)
    requires j <= |s|
    ensures -1 <= k < j
    ensures k >= 0 ==> s[k].Some?
    ensures forall i :: k < i < j ==> s[i].None?
  {
    if j == 0 then -1 else if s[j - 1].Some? then j - 1 else LastSome(s, j - 1)
  }

  /**
   * The match the pattern has at start position `p`, if any. Group 1 begins at
   * `FirstDigit`; its quantifiers are greedy, so the engine tries its ends from the
   * longest down and keeps the first after which the rest of the pattern matches:
   * the last candidate end that succeeds.
   */
  function MatchAt(t: string, p: nat): (r: Option<Match>)
    requires p <= |t|
    ensures r.Some? ==> r.value.start == p <= r.value.first < r.value.firstEnd
    ensures r.Some? ==> r.value.firstEnd <= r.value.second <= r.value.secondEnd <= r.value.sign < |t|
  {
    var q := FirstDigit(t, p);
    if q < |t| && IsDigit(t[q]) then
      var ends := Ends(t, q, NumberEnd(t, q));
      var k := LastSome(ends, |ends|);
      if k < 0 then None
      else
        var s := ends[k].value;
        Some(Match(p, q, q + 1 + k, s.second, s.secondEnd, s.sign))
    else None
  }

  /** What the pattern does at each start position `0..|t|`, in the order the engine tries them. */
  function Attempts(t: string): (s: seq<Option<Match>>)
    ensures |s| == |t| + 1
  {
    seq(|t| + 1, p requires 0 <= p <= |t| => MatchAt(t, p))
  }

  /** `re.search(pattern, t)`: the match at the first start position that has one. */
  function Find(t: string): (r: Option<Match>)
    ensures r.Some? ==> r.value.start <= r.value.first < r.value.firstEnd <= r.value.second <= r.value.secondEnd <= r.value.sign < |t|
  {
    var k := FirstSome(Attempts(t), 0);
    if k <= |t| then Attempts(t)[k] else None
  }

  // ---------------------------------------------------------------------------
  // Facts about the pieces

  /** `SkipSpaces` passes over whitespace only. */
  lemma {:induction false} SkipSpacesSound(t: string, i: nat)
    requires i <= |t|
    ensures SpacesAt(t, i, SkipSpaces(t, i))
    decreases |t| - i
  {
    if i < |t| && IsSpace(t[i]) {
      SkipSpacesSound(t, i + 1);
    }
  }

  /** `SkipDigits` passes over digits only. */
  lemma {:induction false} SkipDigitsSound(t: string, i: nat)
    requires i <= |t|
    ensures forall k :: i <= k < SkipDigits(t, i) ==> IsDigit(t[k])
    decreases |t| - i
  {
    if i < |t| && IsDigit(t[i]) {
      SkipDigitsSound(t, i + 1);
    }
  }

  /** `ChainEnd` ends a chain `\d+(?:\s+\d+)*`. */
  lemma {:induction false} ChainEndSound(t: string, i: nat)
    requires i < |t| && IsDigit(t[i])
    ensures ChainAt(t, i, ChainEnd(t, i))
    decreases |t| - i
  {
    var j := SkipDigits(t, i + 1);
    var k := SkipSpaces(t, j);
    SkipDigitsSound(t, i + 1);
    SkipSpacesSound(t, j);
    if k < |t| && IsDigit(t[k]) {
      ChainEndSound(t, k);
    }
  }

  /** A whitespace run that is followed by a non-space ends where `SkipSpaces` stops. */
  lemma {:induction false} SpacesEnd(t: string, i: nat, j: nat)
    requires SpacesAt(t, i, j)
    requires j == |t| || !IsSpace(t[j])
    ensures SkipSpaces(t, i) == j
    decreases j - i
  {
    if i < j {
      SpacesEnd(t, i + 1, j);
    }
  }

  /** Every longer chain from `i` is cut short by `ChainEnd`: it is the longest. */
  lemma {:induction false} ChainEndMaximal(t: string, i: nat, j: nat)
    requires i < |t| && IsDigit(t[i])
    requires ChainAt(t, i, j)
    ensures j <= ChainEnd(t, i)
    decreases |t| - i
  {
    var d := SkipDigits(t, i + 1);
    var k := SkipSpaces(t, d);
    SkipSpacesSound(t, d);
    if k < |t| && IsDigit(t[k]) {
      if k < j {
        assert ChainAt(t, k, j);
        ChainEndMaximal(t, k, j);
      }
    }
  }

  /** The characters of a digit group: digits, whitespace and commas, with a digit at each end. */
  lemma NumberChars(t: string, i: nat, j: nat)
    requires NumberAt(t, i, j)
    ensures i < j <= |t| && IsDigit(t[i]) && IsDigit(t[j - 1])
    ensures forall k :: i <= k < j ==> IsDigit(t[k]) || IsSpace(t[k]) || t[k] == ','
  {
  }

  /** `NumberEnd` ends a digit group. */
  lemma NumberEndSound(t: string, i: nat)
    requires i < |t| && IsDigit(t[i])
    ensures NumberAt(t, i, NumberEnd(t, i))
  {
    var c := ChainEnd(t, i);
    ChainEndSound(t, i);
    if c + 1 < |t| && t[c] == ',' && IsDigit(t[c + 1]) {
      SkipDigitsSound(t, c + 1);
      assert DigitsAt(t, c + 1, SkipDigits(t, c + 1));
    }
  }

  /** `NumberEnd` gives the longest digit group from `i`. */
  lemma NumberEndMaximal(t: string, i: nat, j: nat)
    requires i < |t| && IsDigit(t[i])
    requires NumberAt(t, i, j)
    ensures j <= NumberEnd(t, i)
  {
    var c := ChainEnd(t, i);
    if ChainAt(t, i, j) {
      ChainEndMaximal(t, i, j);
    } else {
      var c' :| i < c' && c' + 1 < j <= |t| && ChainAt(t, i, c') && t[c'] == ',' && DigitsAt(t, c' + 1, j);
      ChainEndMaximal(t, i, c');
    }
  }

  /** Inside the longest digit group from `i`, the groups from `i` are exactly the prefixes ending in a digit. */
  lemma NumberPrefix(t: string, i: nat, n: nat, j: nat)
    requires i < |t| && IsDigit(t[i])
    requires n == NumberEnd(t, i)
    requires i < j <= n
    ensures NumberAt(t, i, j) <==> IsDigit(t[j - 1])
  {
    var c := ChainEnd(t, i);
    ChainEndSound(t, i);
    if IsDigit(t[j - 1]) {
      if j > c {
        assert c + 1 < j && t[c] == ',';
        SkipDigitsSound(t, c + 1);
        assert DigitsAt(t, c + 1, j);
      } else {
        assert ChainAt(t, i, j);
      }
    }
  }

  /** A digit group followed by `\s*₽` is the longest one from its start. */
  lemma NumberBeforeSign(t: string, i: nat, j: nat, m: nat)
    requires NumberAt(t, i, j)
    requires SpacesAt(t, j, m) && m < |t| && t[m] == Rouble
    ensures j == NumberEnd(t, i)
  {
    NumberChars(t, i, j);
    NumberEndMaximal(t, i, j);
    var n := NumberEnd(t, i);
    if j < n {
      NumberEndSound(t, i);
      NumberChars(t, i, n);
    }
  }

  // ---------------------------------------------------------------------------
  // What the scanner finds fits the pattern

  /** `FirstDigit` skips exactly the optional `от\s*`. */
  lemma FirstDigitSound(t: string, p: nat)
    requires p <= |t|
    ensures Prefix(t, p, FirstDigit(t, p))
  {
    if IsFrom(t, p) {
      SkipSpacesSound(t, p + 2);
    }
  }

  /** `TailAt` finds an optional group 2, then whitespace, then the rouble sign. */
  lemma TailAtSound(t: string, k: nat)
    requires k <= |t|
    ensures TailAt(t, k).Some? ==> Tail(t, k, TailAt(t, k).value.secondEnd, TailAt(t, k).value.sign)
  {
    if k < |t| && IsDigit(t[k]) {
      NumberEndSound(t, k);
      SkipSpacesSound(t, NumberEnd(t, k));
    }
  }

  /** `\s*` alone is a connector. */
  lemma ConnectorSpaces(t: string, e: nat, k: nat)
    requires SpacesAt(t, e, k)
    ensures Connector(t, e, k)
  {
  }

  /** `\s*до\s*` is a connector. */
  lemma ConnectorTo(t: string, e: nat, d: nat, k: nat)
    requires SpacesAt(t, e, d) && IsTo(t, d) && SpacesAt(t, d + 2, k)
    ensures Connector(t, e, k)
  {
  }

  /** `SuffixAt` finds the connector `\s*(?:до\s*)?` and then a tail. */
  lemma SuffixAtSound(t: string, e: nat)
    requires e <= |t|
    ensures var r := SuffixAt(t, e);
      r.Some? ==> Connector(t, e, r.value.second) && Tail(t, r.value.second, r.value.secondEnd, r.value.sign)
  {
    var k := ConnectorEnd(t, e);
    TailAtSound(t, k);
    ConnectorEndSound(t, e);
  }

  /** `ConnectorEnd` ends a connector. */
  lemma ConnectorEndSound(t: string, e: nat)
    requires e <= |t|
    ensures Connector(t, e, ConnectorEnd(t, e))
  {
    var e1 := SkipSpaces(t, e);
    SkipSpacesSound(t, e);
    if IsTo(t, e1) {
      SkipSpacesSound(t, e1 + 2);
      ConnectorTo(t, e, e1, SkipSpaces(t, e1 + 2));
    } else {
      ConnectorSpaces(t, e, e1);
    }
  }

  /** The pieces of a match, each of the right form, make up its shape. */
  lemma ShapeOfPieces(t: string, m: Match)
    requires m.start <= m.first < m.firstEnd <= m.second
    requires Prefix(t, m.start, m.first) && NumberAt(t, m.first, m.firstEnd)
    requires Connector(t, m.firstEnd, m.second) && Tail(t, m.second, m.secondEnd, m.sign)
    ensures Shape(t, m)
  {
  }

  /** Every match `MatchAt` returns has the shape of the pattern. */
  lemma MatchAtSound(t: string, p: nat)
    requires p <= |t|
    ensures MatchAt(t, p).Some? ==> Shape(t, MatchAt(t, p).value)
  {
    MatchAtScanned(t, p);
    if MatchAt(t, p).Some? {
      ScannedShape(t, MatchAt(t, p).value);
    }
  }

  /** A match as the scanner builds it: group 1 is anchored and the rest of the pattern is what `SuffixAt` finds after it. */
  predicate Scanned(t: string, m: Match) {
    && Anchored(t, m.start, m.first, m.firstEnd)
    && SuffixAt(t, m.firstEnd) == Some(Suffix(m.second, m.secondEnd, m.sign))
  }

  /** `MatchAt` builds its match from an anchored group 1 and what follows it. */
  lemma MatchAtScanned(t: string, p: nat)
    requires p <= |t|
    ensures MatchAt(t, p).Some? ==> Scanned(t, MatchAt(t, p).value)
  {
    var q := FirstDigit(t, p);
    if q < |t| && IsDigit(t[q]) {
      var n := NumberEnd(t, q);
      var ends := Ends(t, q, n);
      var k := LastSome(ends, |ends|);
      if k >= 0 {
        var e := q + 1 + k;
        var r := ends[k].value;
        assert ends[k] == AfterEnd(t, e);
        assert MatchAt(t, p) == Some(Match(p, q, e, r.second, r.secondEnd, r.sign));
        assert SuffixAt(t, e) == Some(r);
      }
    }
  }

  /** A match built by the scanner has the shape of the pattern. */
  lemma ScannedShape(t: string, m: Match)
    requires Scanned(t, m)
    ensures Shape(t, m)
  {
    ScannedPrefix(t, m);
    ScannedNumber(t, m);
    ScannedSuffix(t, m);
    ShapeOfPieces(t, m);
  }

  /** The scanner's group 1 begins after exactly the optional `от\s*`. */
  lemma ScannedPrefix(t: string, m: Match)
    requires Scanned(t, m)
    ensures Prefix(t, m.start, m.first)
  {
    FirstDigitSound(t, m.start);
  }

  /** The scanner's group 1 is a digit group. */
  lemma ScannedNumber(t: string, m: Match)
    requires Scanned(t, m)
    ensures m.first < m.firstEnd && NumberAt(t, m.first, m.firstEnd)
  {
    NumberPrefix(t, m.first, NumberEnd(t, m.first), m.firstEnd);
  }

  /** After the scanner's group 1 come the connector and the tail. */
  lemma ScannedSuffix(t: string, m: Match)
    requires Scanned(t, m)
    ensures m.firstEnd <= m.second
    ensures Connector(t, m.firstEnd, m.second) && Tail(t, m.second, m.secondEnd, m.sign)
  {
    SuffixAtSound(t, m.firstEnd);
  }

  // ---------------------------------------------------------------------------
  // The scanner finds every shape

  /** Where group 1 begins is fixed by the start: `FirstDigit`. */
  lemma PrefixDetermined(t: string, p: nat, q: nat)
    requires p <= |t| && Prefix(t, p, q)
    requires q < |t| && IsDigit(t[q])
    ensures q == FirstDigit(t, p)
  {
    if q != p {
      SpacesEnd(t, p + 2, q);
    }
  }

  /** After `\s*` from `s0`, the scanner's `TailAt` finds any tail there is, with the same group 2. */
  lemma TailComplete(t: string, s0: nat, k: nat, k2: nat, m: nat)
    requires SpacesAt(t, s0, k) && Tail(t, k, k2, m)
    ensures var r := TailAt(t, SkipSpaces(t, s0));
      && r.Some?
      && (k < k2 <==> r.value.second < r.value.secondEnd)
      && (k < k2 ==> r.value.second == k && r.value.secondEnd == k2)
  {
    if k < k2 {
      NumberChars(t, k, k2);
      SpacesEnd(t, s0, k);
      NumberBeforeSign(t, k, k2, m);
      SpacesEnd(t, k2, m);
    } else {
      // No group 2: whitespace runs from s0 up to the sign.
      assert SpacesAt(t, s0, m);
      SpacesEnd(t, s0, m);
    }
  }

  /** When whitespace alone leads to a tail, no `до` follows that whitespace. */
  lemma NoToBeforeTail(t: string, e: nat, k: nat, k2: nat, m: nat)
    requires SpacesAt(t, e, k) && Tail(t, k, k2, m)
    ensures !IsTo(t, SkipSpaces(t, e))
  {
    if k < k2 {
      NumberChars(t, k, k2);
      SpacesEnd(t, e, k);
    } else {
      assert SpacesAt(t, e, m);
      SpacesEnd(t, e, m);
    }
  }

  /** After group 1, the scanner's `SuffixAt` finds any rest of the pattern there is, with the same group 2. */
  lemma SuffixComplete(t: string, e: nat, k: nat, k2: nat, m: nat)
    requires e <= |t| && Connector(t, e, k) && Tail(t, k, k2, m)
    ensures var r := SuffixAt(t, e);
      && r.Some?
      && (k < k2 <==> r.value.second < r.value.secondEnd)
      && (k < k2 ==> r.value.second == k && r.value.secondEnd == k2)
  {
    if SpacesAt(t, e, k) {
      SuffixCompleteSpaces(t, e, k, k2, m);
    } else {
      var d :| e <= d && d + 2 <= k && SpacesAt(t, e, d) && IsTo(t, d) && SpacesAt(t, d + 2, k);
      SuffixCompleteTo(t, e, d, k, k2, m);
    }
  }

  /** `SuffixComplete` when the connector is whitespace alone. */
  lemma SuffixCompleteSpaces(t: string, e: nat, k: nat, k2: nat, m: nat)
    requires e <= |t| && SpacesAt(t, e, k) && Tail(t, k, k2, m)
    ensures var r := SuffixAt(t, e);
      && r.Some?
      && (k < k2 <==> r.value.second < r.value.secondEnd)
      && (k < k2 ==> r.value.second == k && r.value.secondEnd == k2)
  {
    NoToBeforeTail(t, e, k, k2, m);
    SuffixAtSpaces(t, e);
    TailComplete(t, e, k, k2, m);
  }

  /** `SuffixComplete` when the connector holds `до` at `d`. */
  lemma SuffixCompleteTo(t: string, e: nat, d: nat, k: nat, k2: nat, m: nat)
    requires e <= d && SpacesAt(t, e, d) && IsTo(t, d) && SpacesAt(t, d + 2, k) && Tail(t, k, k2, m)
    ensures var r := SuffixAt(t, e);
      && r.Some?
      && (k < k2 <==> r.value.second < r.value.secondEnd)
      && (k < k2 ==> r.value.second == k && r.value.secondEnd == k2)
  {
    SpacesEnd(t, e, d);
    SuffixAtTo(t, e, d);
    TailComplete(t, d + 2, k, k2, m);
  }

  /** Without `до` after the whitespace, the tail is looked for right after it. */
  lemma SuffixAtSpaces(t: string, e: nat)
    requires e <= |t| && !IsTo(t, SkipSpaces(t, e))
    ensures SuffixAt(t, e) == TailAt(t, SkipSpaces(t, e))
  {
  }

  /** With `до` at `d` after the whitespace, the tail is looked for after `до` and the whitespace after it. */
  lemma SuffixAtTo(t: string, e: nat, d: nat)
    requires e <= |t| && SkipSpaces(t, e) == d && IsTo(t, d)
    ensures SuffixAt(t, e) == TailAt(t, SkipSpaces(t, d + 2))
  {
  }

  /** At one start, the ends of group 1 fix the groups: group 1 begins at `FirstDigit`, group 2 is unique. */
  lemma ShapeGroupsDetermined(t: string, m: Match, m': Match)
    requires Shape(t, m) && Shape(t, m')
    requires m.start == m'.start && m.firstEnd == m'.firstEnd
    ensures SameGroups(m, m')
  {
    NumberChars(t, m.first, m.firstEnd);
    NumberChars(t, m'.first, m'.firstEnd);
    PrefixDetermined(t, m.start, m.first);
    PrefixDetermined(t, m'.start, m'.first);
    SuffixComplete(t, m.firstEnd, m.second, m.secondEnd, m.sign);
    SuffixComplete(t, m'.firstEnd, m'.second, m'.secondEnd, m'.sign);
  }

  /** `MatchAt` finds a match wherever a shape starts, with group 1 at least as long. */
  lemma MatchAtComplete(t: string, m: Match)
    requires Shape(t, m)
    ensures MatchAt(t, m.start).Some?
    ensures m.firstEnd <= MatchAt(t, m.start).value.firstEnd
  {
    ShapeAnchors(t, m);
    MatchAtReaches(t, m.start, m.first, m.firstEnd);
  }

  /**
   * Group 1 may end at `e` when it begins at `q`, as the scanner sees it: `q` is where
   * group 1 begins for the start `p`, `e` ends a digit group from `q`, and the rest
   * of the pattern matches after `e`.
   */
  predicate Anchored(t: string, p: nat, q: nat, e: nat) {
    && p <= |t| && q == FirstDigit(t, p)
    && q < |t| && IsDigit(t[q]) && q < e <= NumberEnd(t, q)
    && IsDigit(t[e - 1]) && SuffixAt(t, e).Some?
  }

  /** The positions of a shape as the scanner sees them: where group 1 begins, how far it may reach, and that the rest matches after it. */
  lemma ShapeAnchors(t: string, m: Match)
    requires Shape(t, m)
    ensures Anchored(t, m.start, m.first, m.firstEnd)
  {
    NumberChars(t, m.first, m.firstEnd);
    PrefixDetermined(t, m.start, m.first);
    NumberEndMaximal(t, m.first, m.firstEnd);
    SuffixComplete(t, m.firstEnd, m.second, m.secondEnd, m.sign);
  }

  /** When the rest of the pattern matches after a digit ending a group from `FirstDigit`, `MatchAt` ends group 1 there or later. */
  lemma MatchAtReaches(t: string, p: nat, q: nat, e: nat)
    requires Anchored(t, p, q, e)
    ensures MatchAt(t, p).Some? && e <= MatchAt(t, p).value.firstEnd
  {
    var ends := Ends(t, q, NumberEnd(t, q));
    var i := e - q - 1;
    assert ends[i] == AfterEnd(t, e);
    var k := LastSome(ends, |ends|);
    var r := ends[k].value;
    assert MatchAt(t, p) == Some(Match(p, q, q + 1 + k, r.second, r.secondEnd, r.sign));
  }

  /**
   * `MatchAt` ends group 1 at `e` when the rest of the pattern matches after `e`
   * and after no longer candidate end.
   */
  lemma MatchAtEnd(t: string, p: nat, e: nat, r: Suffix)
    requires p <= |t| && FirstDigit(t, p) < |t| && IsDigit(t[FirstDigit(t, p)])
    requires FirstDigit(t, p) < e <= NumberEnd(t, FirstDigit(t, p))
    requires IsDigit(t[e - 1]) && SuffixAt(t, e) == Some(r)
    requires forall e' :: e < e' <= NumberEnd(t, FirstDigit(t, p)) ==> AfterEnd(t, e').None?
    ensures MatchAt(t, p) == Some(Match(p, FirstDigit(t, p), e, r.second, r.secondEnd, r.sign))
  {
    var q := FirstDigit(t, p);
    var ends := Ends(t, q, NumberEnd(t, q));
    assert ends[e - q - 1] == AfterEnd(t, e);
    forall j | e - q - 1 < j < |ends| ensures ends[j].None? {
      assert ends[j] == AfterEnd(t, q + 1 + j);
    }
    LastSomeIs(ends, e - q - 1);
  }

  /** The last present entry is the one after which all are absent. */
  lemma LastSomeIs<T>(s: seq<Option<T>>, i: nat)
    requires i < |s| && s[i].Some?
    requires forall j :: i < j < |s| ==> s[j].None?
    ensures LastSome(s, |s|) == i
  {
  }

  /** A match at the first position is the one `Find` reports. */
  lemma FindAtStart(t: string)
    requires MatchAt(t, 0).Some?
    ensures Find(t) == MatchAt(t, 0)
  {
    assert Attempts(t)[0] == MatchAt(t, 0);
  }

  /**
   * The scanner is `re.search`: it finds nothing exactly when no shape exists, and
   * otherwise the match the engine reports.
   */
  lemma FindIsReported(t: string)
    ensures Find(t).None? <==> forall m :: !Shape(t, m)
    ensures Find(t).Some? ==> Reported(t, Find(t).value)
  {
    var s, k := Attempts(t), FirstSome(Attempts(t), 0);
    var r := Find(t);
    if r.Some? {
      assert r == MatchAt(t, k);
      MatchAtSound(t, k);
    }
    forall m | Shape(t, m)
      ensures r.Some? && r.value.start <= m.start
      ensures r.Some? && m.start == r.value.start ==> m.firstEnd <= r.value.firstEnd
    {
      MatchAtComplete(t, m);
      assert s[m.start] == MatchAt(t, m.start);
    }
  }

  /** Any two reported matches capture the same groups: `Reported` pins the answer down. */
  lemma ReportedUnique(t: string, m: Match, m': Match)
    requires Reported(t, m) && Reported(t, m')
    ensures SameGroups(m, m')
  {
    ShapeGroupsDetermined(t, m, m');
  }
}
