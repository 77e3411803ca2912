/** Optional values and results with an error payload. */
module Wrappers {
  datatype Option<+T> = None | Some(value: T)

  /** `Err` carries the string that Python's `float()` refused. */
  datatype Result<+T> = Ok(value: T) | Err(error: string)
}

/**
 * Character classes and the two `str` operations the salary parser uses:
 * `sep.join(parts)` and `s.replace(c, sub)` with a one-character pattern.
 */
module Text {

  /** The non-breaking space, U+00A0. */
  const Nbsp: char := '\U{A0}'

  /** `\d` of the pattern, restricted to the ASCII digits. */
  predicate IsDigit(c: char) {
    '0' <= c <= '9'
  }

  /** `\s` of a Python `str` pattern: exactly the characters for which `str.isspace()` holds. */
  predicate IsSpace(c: char) {
    || c == ' '
    || '\t' <= c <= '\r'
    || '\U{1C}' <= c <= '\U{1F}'
    || c == '\U{85}'
    || c == '\U{A0}'
    || c == '\U{1680}'
    || '\U{2000}' <= c <= '\U{200A}'
    || c == '\U{2028}'
    || c == '\U{2029}'
    || c == '\U{202F}'
    || c == '\U{205F}'
    || c == '\U{3000}'
  }

  /**
   * `s.replace(c, sub)`: every occurrence of `c` is replaced by `sub` and every other
   * character is kept, in order (`ReplaceChars`, `ReplaceByOne`).
   */
  function Replace(s: string, c: char, sub: string): (r: string)
    ensures c !in s ==> r == s
  {
    if s == [] then [] else (if s[0] == c then sub else [s[0]]) + Replace(s[1..], c, sub)
  }

  /**
   * The characters of the result: those of `s` other than `c`, and those of `sub`
   * where `c` occurred; `c` survives only through `sub`.
   */
  lemma {:induction false} ReplaceChars(s: string, c: char, sub: string)
    ensures c !in sub ==> c !in Replace(s, c, sub)
    ensures forall x :: x in s && x != c ==> x in Replace(s, c, sub)
    ensures forall x :: x in Replace(s, c, sub) ==> (c in s && x in sub) || (x in s && x != c)
  {
    if s != [] {
      ReplaceChars(s[1..], c, sub);
      assert Replace(s, c, sub) == (if s[0] == c then sub else [s[0]]) + Replace(s[1..], c, sub);
      assert forall x :: x in s ==> x == s[0] || x in s[1..];
    }
  }

  /** Replacing by a single character keeps the length and changes exactly the occurrences of `c`. */
  lemma {:induction false} ReplaceByOne(s: string, c: char, sub: string)
    requires |sub| == 1
    ensures |Replace(s, c, sub)| == |s|
    ensures forall i :: 0 <= i < |s| ==> Replace(s, c, sub)[i] == (if s[i] == c then sub[0] else s[i])
  {
    if s != [] {
      ReplaceByOne(s[1..], c, sub);
      var r := Replace(s, c, sub);
      assert r == [if s[0] == c then sub[0] else s[0]] + Replace(s[1..], c, sub);
      forall i | 0 < i < |s| ensures r[i] == (if s[i] == c then sub[0] else s[i]) {
        assert r[i] == Replace(s[1..], c, sub)[i - 1];
        assert s[i] == s[1..][i - 1];
      }
    }
  }

  /** Replacing characters one by one commutes with concatenation. */
  lemma {:induction false} ReplaceConcat(a: string, b: string, c: char, sub: string)
    ensures Replace(a + b, c, sub) == Replace(a, c, sub) + Replace(b, c, sub)
  {
    if a == [] {
      assert a + b == b;
    } else {
      assert (a + b)[0] == a[0];
      assert (a + b)[1..] == a[1..] + b;
      ReplaceConcat(a[1..], b, c, sub);
    }
  }

  /** Replacing in three consecutive pieces, piece by piece. */
  lemma ReplaceAround(x: string, y: string, z: string, c: char, sub: string)
    ensures Replace(x + y + z, c, sub) == Replace(x, c, sub) + Replace(y, c, sub) + Replace(z, c, sub)
  {
    ReplaceConcat(x + y, z, c, sub);
    ReplaceConcat(x, y, c, sub);
  }

  /** The character replaced on its own gives `sub`. */
  lemma ReplaceSingle(c: char, sub: string)
    ensures Replace([c], c, sub) == sub
  {
    assert [c][1..] == [];
  }

  /** `sep.join(parts)`: the parts in order, with `sep` between each two consecutive ones. */
  function Join(parts: seq<string>, sep: string): (r: string)
    ensures parts == [] ==> r == ""
    ensures |parts| == 1 ==> r == parts[0]
  {
    if parts == [] then ""
    else if |parts| == 1 then parts[0]
    else parts[0] + sep + Join(parts[1..], sep)
  }

  /** Where part `i` starts in `Join(parts, sep)`: the lengths of the parts before it, each followed by `sep`. */
  function Offset(parts: seq<string>, sep: string, i: nat): nat
    requires i <= |parts|
  {
    if i == 0 then 0 else |parts[0]| + |sep| + Offset(parts[1..], sep, i - 1)
  }

  /**
   * Part `i` of the joined text sits at `Offset(parts, sep, i)`, and the last part
   * ends the text.
   */
  lemma {:induction false} JoinPart(parts: seq<string>, sep: string, i: nat)
    requires i < |parts|
    ensures Offset(parts, sep, i) + |parts[i]| <= |Join(parts, sep)|
    ensures Join(parts, sep)[Offset(parts, sep, i)..Offset(parts, sep, i) + |parts[i]|] == parts[i]
    ensures i + 1 == |parts| ==> |Join(parts, sep)| == Offset(parts, sep, i) + |parts[i]|
  {
    if i == 0 {
      assert Offset(parts, sep, 0) == 0;
      if |parts| > 1 {
        assert Join(parts, sep) == parts[0] + (sep + Join(parts[1..], sep));
      }
    } else {
      var head, rest := parts[0] + sep, Join(parts[1..], sep);
      assert Join(parts, sep) == head + rest;
      JoinPart(parts[1..], sep, i - 1);
      assert parts[1..][i - 1] == parts[i];
      var o := Offset(parts[1..], sep, i - 1);
      SliceRight(head, rest, o, o + |parts[i]|);
    }
  }

  /**
   * Between part `i` and part `i + 1` the joined text holds exactly `sep`, and part
   * `i + 1` starts right after it.
   */
  lemma {:induction false} JoinSeparator(parts: seq<string>, sep: string, i: nat)
    requires i + 1 < |parts|
    ensures Offset(parts, sep, i + 1) == Offset(parts, sep, i) + |parts[i]| + |sep|
    ensures Offset(parts, sep, i + 1) <= |Join(parts, sep)|
    ensures Join(parts, sep)[Offset(parts, sep, i) + |parts[i]|..Offset(parts, sep, i + 1)] == sep
  {
    var head, rest := parts[0] + sep, Join(parts[1..], sep);
    assert Join(parts, sep) == head + rest;
    if i == 0 {
      assert Offset(parts[1..], sep, 0) == 0;
      assert (head + rest)[|parts[0]|..|head|] == sep;
    } else {
      JoinSeparator(parts[1..], sep, i - 1);
      assert parts[1..][i - 1] == parts[i];
      var o := Offset(parts[1..], sep, i - 1) + |parts[i]|;
      SliceRight(head, rest, o, o + |sep|);
    }
  }

  /** A slice lying wholly in the right operand of a concatenation. */
  lemma SliceRight(a: string, b: string, lo: nat, hi: nat)
    requires lo <= hi <= |b|
    ensures (a + b)[|a| + lo..|a| + hi] == b[lo..hi]
  {
  }
}
