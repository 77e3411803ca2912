# hh.ru salary parser

A Dafny model of `HhruSpider.process_salary`, the salary parser of the hh.ru vacancy
spider (jobparser/spiders/hhru.py:56-89). The spider scrapes a vacancy's salary block as a
list of text fragments. `process_salary` reduces that list to one of three results:

- nothing: `None`, modelled as `Absent`;
- one bound: a float, modelled as `Single(bound)`;
- a `(lower, upper)` pair: modelled as `Range(lower, upper)`.

It works in five steps:

1. It returns `None` for an empty list.
2. It joins the fragments with single spaces.
3. It replaces every non-breaking space (U+00A0) with a plain space.
4. It searches the text with one regular expression:
   `(?:от\s*)?(N)\s*(?:до\s*)?(N)?\s*₽\s*(.*)`, where N is `\d+(?:\s+\d+)*(?:,\d+)?`.
5. It normalises each captured group by deleting plain spaces and turning the comma into a
   point. It converts the group with `float()` and chooses the result by the truthiness of
   the two numbers.

The project has five modules:

- `Wrappers` and `Text` (text.dfy): `Option`, `Result`, the character classes `\d` and
  `\s`, and the two string operations the code uses, `str.join` and `str.replace`.
- `Decimal` (decimal.dfy): `float()` on the strings that normalisation can produce, as an
  exact `real`.
- `Pattern` (pattern.dfy): the regular expression, written twice.
  - `Shape` is a declarative predicate saying which piece of the text plays which part of
    the pattern.
  - `Reported` picks out the match Python's backtracking engine reports. That is the
    leftmost start, then the longest group 1 after which the rest of the pattern still
    matches.
  - `Find` is a scanner that computes that match.
  - `FindIsReported` proves the scanner and the specification agree.
- `HhruSpider` (salary.dfy): `ProcessSalary` itself and the properties of its result.
- `SalaryExamples` (examples.dfy): `ProcessSalary` worked out on concrete salary texts.

Group 1 is greedy and crosses whitespace, but it is not simply the longest digit group.
When the longest one leaves no rouble sign for the rest of the pattern, the engine
backtracks. So `"1,55,6 ₽"` gives the range (1.5, 5.6) (`SalaryExamples.Backtracking`).

A captured group may contain whitespace other than the plain space, such as a tab or
U+202F, because `\s` admits it. The code deletes only plain spaces, so `float()` then
raises `ValueError`. The model returns `Err` with the string that failed to convert
(`HhruSpider.BoundConverts`, `SalaryExamples.NarrowSpace`). The code raises here; it does
not return `None`.

## Model

| member | source | states |
|---|---|---|
| HhruSpider.ProcessSalary | jobparser/spiders/hhru.py:56-89 | An empty fragment list gives `None`. A returned pair always has a non-zero upper bound. A returned single bound is never zero. |
| HhruSpider.Evaluate | jobparser/spiders/hhru.py:76-89 | For a found match, a pair has a non-zero upper bound and a single bound is non-zero. |
| HhruSpider.Classify | jobparser/spiders/hhru.py:82-89 | The result is the pair exactly when the upper bound is present and non-zero. It is the lower bound alone exactly when the upper bound is missing or zero and the lower bound is non-zero. Otherwise it is `None`. |
| HhruSpider.Bound | jobparser/spiders/hhru.py:78-79 | A converted group is never negative. `HhruSpider.BoundConverts` states when the conversion succeeds. |
| HhruSpider.SalaryText | jobparser/spiders/hhru.py:69-73 | No contract of its own: `HhruSpider.SalaryTextChars` states the searched text character by character. |
| HhruSpider.Normalised | jobparser/spiders/hhru.py:78-79 | No contract of its own: `HhruSpider.NormalisedChars` states which characters it keeps, deletes and adds. |
| HhruSpider.SalaryTextChars | jobparser/spiders/hhru.py:69-73 | The searched text has the length of the joined fragments and no non-breaking space. Each character is the joined one, except that a non-breaking space becomes a plain space. |
| HhruSpider.SingleFragment | jobparser/spiders/hhru.py:69-73 | One fragment without non-breaking spaces is searched exactly as written. |
| HhruSpider.NbspBecomesSpace | jobparser/spiders/hhru.py:73 | A non-breaking space inside a fragment is searched as a plain space, and the rest of the fragment is kept. |
| Text.Replace | jobparser/spiders/hhru.py:73 | Replacing a character that does not occur leaves the string unchanged. |
| Text.ReplaceChars | jobparser/spiders/hhru.py:73 | After `replace(c, sub)`, `c` survives only through `sub`. Every other character of the input is kept. Every output character comes from the input (not `c`) or from `sub`. |
| Text.ReplaceByOne | jobparser/spiders/hhru.py:73 | Replacing by one character keeps the length and replaces exactly the positions holding `c`. |
| Text.ReplaceConcat | jobparser/spiders/hhru.py:78-79 | `replace` distributes over concatenation. |
| Text.Join | jobparser/spiders/hhru.py:69 | Joining no parts gives the empty string. Joining one part gives that part. |
| Text.JoinPart | jobparser/spiders/hhru.py:69 | Part `i` occurs in the joined text at its offset, in order. The last part ends the text. |
| Text.JoinSeparator | jobparser/spiders/hhru.py:69 | Exactly one separator lies between consecutive parts, and nothing else. |
| Decimal.ToFloat | jobparser/spiders/hhru.py:78-79 | A successful conversion is non-negative. |
| Decimal.ToFloatChars | jobparser/spiders/hhru.py:78-79 | A conversion succeeds only on a string of digits and points. |
| Decimal.Fraction | jobparser/spiders/hhru.py:78-79 | Digits after the point are worth at least 0 and less than 1. |
| Decimal.FractionZero | jobparser/spiders/hhru.py:82-89 | The digits after the point are worth zero exactly when all of them are `0`. |
| Decimal.FractionScaled | jobparser/spiders/hhru.py:78-79 | The fraction multiplied by ten to the number of its digits is the whole number those digits write. |
| Decimal.NaturalConcat | jobparser/spiders/hhru.py:78-79 | Digits written after others shift them left: the value of `a + b` is `a * 10^|b| + b`. |
| Decimal.NaturalZero | jobparser/spiders/hhru.py:82-89 | A digit string reads as zero exactly when all its digits are `0`. |
| Decimal.ToFloatZero | jobparser/spiders/hhru.py:82-89 | In exact arithmetic, a converted numeral is zero exactly when all its digits are `0`. |
| Decimal.ToFloatPoint | jobparser/spiders/hhru.py:78-79 | `whole.fraction` converts to the whole part plus the fraction digits read as a decimal fraction: each digit is worth a tenth of the one before it. |
| Decimal.ToFloatWhole | jobparser/spiders/hhru.py:78-79 | A non-empty digit string converts to the number it writes. |
| Pattern.SkipSpacesSound | jobparser/spiders/hhru.py:72 | The whitespace scanner passes over `\s` characters only. |
| Pattern.SkipDigitsSound | jobparser/spiders/hhru.py:72 | The digit scanner passes over `\d` characters only. |
| Pattern.ChainEndSound | jobparser/spiders/hhru.py:72 | The scanned run is a `\d+(?:\s+\d+)*` chain. |
| Pattern.SpacesEnd | jobparser/spiders/hhru.py:72 | A whitespace run followed by a non-space ends where the scanner stops. |
| Pattern.ChainEndMaximal | jobparser/spiders/hhru.py:72 | No chain from the same start is longer than the scanned one. |
| Pattern.NumberChars | jobparser/spiders/hhru.py:72 | A digit group begins and ends with a digit. It holds only digits, whitespace and commas. |
| Pattern.NumberEndSound | jobparser/spiders/hhru.py:72 | The scanned digit group matches `\d+(?:\s+\d+)*(?:,\d+)?`. |
| Pattern.NumberEndMaximal | jobparser/spiders/hhru.py:72 | The scanned digit group is the longest from its start. |
| Pattern.NumberPrefix | jobparser/spiders/hhru.py:72 | Within the longest digit group, the prefixes that are themselves digit groups are exactly those ending in a digit. These are the candidate ends of group 1. |
| Pattern.NumberBeforeSign | jobparser/spiders/hhru.py:72 | A digit group followed by `\s*₽` is the longest one from its start, so group 2 has only one possible end. |
| Pattern.FirstDigitSound | jobparser/spiders/hhru.py:72 | The scanner skips exactly an optional `от\s*`. |
| Pattern.PrefixDetermined | jobparser/spiders/hhru.py:72 | At a given start, group 1 can begin at only one position. |
| Pattern.TailAtSound | jobparser/spiders/hhru.py:72 | The scanned tail is an optional group 2, then whitespace, then the rouble sign. |
| Pattern.ConnectorEndSound | jobparser/spiders/hhru.py:72 | The scanned connector matches `\s*(?:до\s*)?`. |
| Pattern.SuffixAtSound | jobparser/spiders/hhru.py:72 | The scanned suffix is a connector followed by a tail. |
| Pattern.TailComplete | jobparser/spiders/hhru.py:72 | After whitespace, the scanner finds every tail there is, with the same group 2. |
| Pattern.SuffixComplete | jobparser/spiders/hhru.py:72 | After the end of group 1, the scanner finds every connector and tail there is, with the same group 2. |
| Pattern.MatchAtSound | jobparser/spiders/hhru.py:72 | Every match the scanner returns at a start has the shape of the pattern. |
| Pattern.MatchAtComplete | jobparser/spiders/hhru.py:72 | If any shape starts at a position, the scanner returns a match there. Its group 1 is at least as long as the shape's. |
| Pattern.MatchAtEnd | jobparser/spiders/hhru.py:72 | The scanner ends group 1 at the last candidate end after which the rest of the pattern matches. |
| Pattern.FindAtStart | jobparser/spiders/hhru.py:72-73 | A match at the first position is the one the search reports. |
| Pattern.ShapeGroupsDetermined | jobparser/spiders/hhru.py:72 | Two shapes with the same start and the same end of group 1 capture the same groups. |
| Pattern.FindIsReported | jobparser/spiders/hhru.py:72-76 | The search finds nothing exactly when no shape of the pattern exists. Otherwise it returns the match with the leftmost start and the longest group 1, which is the one `re.search` reports. |
| Pattern.Find | jobparser/spiders/hhru.py:72-73 | A found match has its parts in order: start, group 1, group 2, then the rouble sign inside the text. `Pattern.FindIsReported` states which match it is. |
| Pattern.MatchAt | jobparser/spiders/hhru.py:72 | A match at a start begins there and has its parts in order inside the text. `Pattern.MatchAtSound`, `Pattern.MatchAtComplete` and `Pattern.MatchAtEnd` state which match it is. |
| Pattern.Shape | jobparser/spiders/hhru.py:72 | No contract of its own: it is the pattern written as a predicate, an optional `от\s*`, group 1, the connector, then group 2 and the rouble sign. `Pattern.MatchAtSound` and `Pattern.MatchAtComplete` tie the scanner to it. |
| Pattern.Reported | jobparser/spiders/hhru.py:72 | No contract of its own: it is the engine's choice among shapes, the leftmost start and then the longest group 1. `Pattern.FindIsReported` and `Pattern.ReportedUnique` are stated with it. |
| Pattern.ReportedUnique | jobparser/spiders/hhru.py:72-79 | The groups of the reported match are unique. |
| Pattern.FirstSome | jobparser/spiders/hhru.py:72-73 | The index found holds a match. |
| Pattern.LastSome | jobparser/spiders/hhru.py:72 | The index found is below the bound and holds a match, or is -1. |
| HhruSpider.NormalisedChars | jobparser/spiders/hhru.py:78-79 | Normalisation leaves no space and no comma. It keeps every other character and adds only points. |
| HhruSpider.DeleteSpaces | jobparser/spiders/hhru.py:78-79 | Deleting the spaces from digits and plain spaces leaves a non-empty digit string. |
| HhruSpider.BoundConverts | jobparser/spiders/hhru.py:72-79 | A captured group converts exactly when its only whitespace is the plain space. Otherwise `float()` raises. |
| HhruSpider.ChainConverts | jobparser/spiders/hhru.py:78-79 | A group without a decimal part, spaced only by plain spaces, converts to the number its digits write once the spaces are deleted. |
| HhruSpider.PointConverts | jobparser/spiders/hhru.py:78-79 | A group with a decimal comma, spaced only by plain spaces, converts to the number written by the digits before the comma (spaces deleted), plus the digits after it read as a decimal fraction. |
| HhruSpider.PointValue | jobparser/spiders/hhru.py:78-79 | `float()` of a normalised group with a decimal comma is its whole part plus its decimal fraction. |
| HhruSpider.PointNormalised | jobparser/spiders/hhru.py:78 | A group with a decimal comma normalises to its digits without spaces, a point, then the fraction digits. |
| HhruSpider.WholeBound | jobparser/spiders/hhru.py:78-79 | A group of digits alone converts to the number it writes. |
| HhruSpider.NormalisedGroups | jobparser/spiders/hhru.py:78 | The thousands separator is deleted: `a b` normalises to `ab`. |
| HhruSpider.NormalisedComma | jobparser/spiders/hhru.py:78 | The decimal comma becomes a point and the digits around it are kept. |
| HhruSpider.NormalisedGroupsComma | jobparser/spiders/hhru.py:78 | `a b,f` normalises to `ab.f`. |
| HhruSpider.BoundZero | jobparser/spiders/hhru.py:78-86 | A converted group is non-negative. In exact arithmetic it is zero, and so falsy, exactly when all its digits are `0`. |
| HhruSpider.NoMatchIsAbsent | jobparser/spiders/hhru.py:65-66 | An empty list gives `None`. A text where the pattern matches nowhere also gives `None`. |
| HhruSpider.NoRoubleIsAbsent | jobparser/spiders/hhru.py:72-89 | A text without a rouble sign gives `None`. |
| HhruSpider.ReportedMatchResult | jobparser/spiders/hhru.py:76-89 | On the reported match: conversion errors propagate, lower group first. A non-zero group 2 gives the pair (group 1, group 2) in that order, with no check that lower <= upper. Otherwise a non-zero group 1 gives the single bound. Otherwise the result is `None`. |
| HhruSpider.ResultExplained | jobparser/spiders/hhru.py:61-89 | Each result has a cause. A pair comes from both groups of the reported match. A single bound comes from group 1 when group 2 is missing or zero. `None` comes from an empty list, from no match, or from a zero group 1. |
| HhruSpider.ZeroBoundsAreAbsent | jobparser/spiders/hhru.py:82-89 | When every bound is written with zeros only, the result is `None`. |
| SalaryExamples.FromOnly | jobparser/spiders/hhru.py:85-86 | `"от 80 000 ₽"` gives the single bound 80000. |
| SalaryExamples.FromTo | jobparser/spiders/hhru.py:82-83 | `"от 100 до 150 ₽"` gives the pair (100, 150). |
| SalaryExamples.RangeInHand | jobparser/spiders/hhru.py:72-83 | `"от 100 000 до 150 000 ₽ на руки"` gives the pair (100000, 150000). Both bounds lose their thousands separator, and the words after the sign are ignored. |
| SalaryExamples.SpaceJoinsNumbers | jobparser/spiders/hhru.py:69-79 | `["100", "150 ₽"]` gives the single bound 100150. The join puts a space between the fragments, and a space between two digit runs keeps them in one group 1. |
| SalaryExamples.SpaceInsideNumber | jobparser/spiders/hhru.py:72-79 | `"100 150 ₽"` gives the single bound 100150: group 1 runs across the space, and deleting the space joins the digits. |
| SalaryExamples.NonBreakingSpace | jobparser/spiders/hhru.py:73 | `"100\xa0000 ₽"` gives 100000. |
| SalaryExamples.DecimalComma | jobparser/spiders/hhru.py:78 | `"50 000,50 ₽"` gives 50000.5. |
| SalaryExamples.Backtracking | jobparser/spiders/hhru.py:72 | `"1,55,6 ₽"` gives the pair (1.5, 5.6), because group 1 gives up its longest reading. |
| SalaryExamples.ZeroFloor | jobparser/spiders/hhru.py:85-89 | `"0 ₽"` gives `None`. |
| SalaryExamples.NarrowSpace | jobparser/spiders/hhru.py:78 | `"100\u202f000 ₽"`, with a narrow no-break space between the digits, makes the conversion fail. |
| SalaryExamples.Negotiable | jobparser/spiders/hhru.py:72-76 | `"По договорённости"` gives `None`. |

## Left out

- `HhruSpider.parse` and `vacancy_parse` (jobparser/spiders/hhru.py:14-54) are left out. They are Scrapy request following, XPath queries and item emission, all I/O.
- The spider's class attributes (`name`, `allowed_domains`, `start_urls`) are left out. They are static configuration.
- `JobparserItem` is not part of this model.
- Decimal.ToFloat: it models `float()` only on the strings normalisation can produce. Those are digits, at most one point, and any whitespace other than the plain space that `\s` let into the group. A string of digits with at most one point converts; any other string is an error, as `float()` raises on inner whitespace. Results are exact reals, so IEEE rounding, underflow and overflow are not modelled. Underflow can change the result: `"0,"`, then 330 zeros, then `"1"` is a positive exact value, but `float()` rounds it to `0.0`, which is falsy. So the "only if" half of `HhruSpider.BoundZero` and `Decimal.ToFloatZero` holds in exact arithmetic only.
- Text.IsDigit: `\d` is taken as the ASCII digits. Python's `re` on `str` also matches other Unicode decimal digits, and `float()` accepts them.
- The trailing `\s*(.*)` group 3 always matches and is never read, so `Pattern.Match` does not record it.
- The guard `if match.group(1) else None` (jobparser/spiders/hhru.py:78) is always true, because group 1 is mandatory and non-empty. The model has no branch for it.
- Pattern.Find: the regular-expression engine is not modelled step by step. The search is stated as the first start position that has a match, and at that start the last candidate end of group 1 that succeeds. `Pattern.FindIsReported` proves this equals the engine's leftmost, longest-group-1 match.
- `ValueError` from `float()` is modelled as an `Err` result carrying the string that failed to convert, not as an exception.
