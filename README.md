# urldiff in Dafny

A model of `urldiff.py`. The program reads URLs, one per line, and prints only those that
are "sufficiently different" from every URL it has kept so far. It has two parts:

- **The distance metric.** `iter_distance` is a Hamming count over the common prefix of two
  sequences, plus the difference in their lengths. `path_distance` applies it to the
  non-empty `/`-segments of two paths. `ext_distance` compares file extensions.
  `qs_distance` compares the key sets of two parsed query strings. It can also compare
  their values. `url_distance` adds these up. Its first term compares six-element tuples:
  the five base fields (scheme, username, password, hostname, port) are counted where
  they differ, but the sixth slot holds `u1`'s fragment on both sides, so it never counts.
  It then adds the extension and path terms, and adds the keys-only query term twice. `is_url_subset` is a separate, one-way containment check.
- **The de-duplication loop** (the `__main__` block). The program keeps a list
  `unique_urls` that only grows. Each input URL is compared with every kept URL. It is
  appended, and its line printed, only if the smallest of those distances is strictly
  greater than `THRESHOLD` (1).

Files:

- `wrappers.dfy`: `Option` (Python's `None`) and `Result` (an exception).
- `url.dfy`: `ParsedUrl`, the output of `urlsplit` with the query already parsed.
  `QueryMap` is the output of `parse_qs(..., keep_blank_values=False)`. Its type
  invariant says no value list is empty.
- `text.dfy`: the Python string operations the metric uses: `str.split`,
  `filter(None, ...)`, `str.rfind`, POSIX `os.path.splitext` and `str.isalnum`.
- `distance.dfy`: the metric and its properties.
- `dedup.dfy`: the loop. `Step` and `RunFrom` specify it as pure functions.
  `Deduper.Process` (one iteration, on a class holding `unique_urls`) and `Run` (the whole
  loop) are proved against them.

## Behaviour kept as written

- Line 31 puts `u1.fragment` into both tuples. The fragment therefore never contributes
  to the distance (`UrlDistanceIgnoresFragment`). The distance is still symmetric
  (`UrlDistanceSymmetric`).
- `ext_distance` is always 0. `os.path.splitext` returns either `''` or a string that
  starts with `.`, and neither is alphanumeric. So `is_extension` is always false, and
  the `ext.isnum()` call (`str` has no such method) is never reached (`ExtDistance`).
- The first URL is appended at lines 109-110 and then compared with itself (distance 0).
  It is stored but never printed (`StepFirst`, `RunFirstSilent`).
- A line is printed only when the minimum distance is strictly greater than 1. A URL at
  distance exactly 1 from a kept URL is therefore suppressed (`ThresholdIsStrict`).
- Every input URL is compared with every kept URL (`min` over the whole list). The list
  is not sorted, and no search is limited to a window of neighbours.
- There is no early exit and no saturating threshold inside `url_distance`.

## Model

| member | source | states |
|---|---|---|
| `Text.Split` | urldiff.py:46-47 | `str.split('/')` yields at least one piece, and no piece contains the separator |
| `Text.JoinSplit` | urldiff.py:46-47 | joining the pieces of `split` with the separator gives back the original string |
| `Text.SplitAround` | urldiff.py:46-47 | splitting `x + "/" + y` gives the pieces of `x` followed by the pieces of `y` |
| `Text.SplitNoSep` | urldiff.py:46-47 | a string without the separator splits into itself alone |
| `Text.NonEmpty` | urldiff.py:46-47 | `filter(None, ...)` keeps exactly the non-empty strings of the input: every result is non-empty and comes from the input, and every non-empty input piece is kept |
| `Text.NonEmptyConcat` | urldiff.py:46-47 | filtering a concatenation is the concatenation of the filtered parts |
| `Text.RFind` | urldiff.py:69-70 | `rfind` returns -1 or an index holding the character, with no occurrence after it |
| `Text.IsAlnum` | urldiff.py:73 | an alphanumeric string is non-empty and does not start with `.` |
| `Text.SplitExt` | urldiff.py:69-70 | `splitext` gives `root + ext == path`; `ext` is empty or starts with `.`, contains no `/` and no other `.` |
| `Distance.Mismatches` | urldiff.py:20 | the mismatch count over `zip` is at most the length of either sequence |
| `Distance.IterDistance` | urldiff.py:19-22 | `iter_distance` lies between the length difference and the longer length |
| `Distance.MismatchesCount` | urldiff.py:20 | the `zip` mismatch count from position `lo` on is the number of positions from `lo` where both sequences differ |
| `Distance.IterDistanceCounts` | urldiff.py:19-22 | `iter_distance` is the number of differing positions in the common prefix plus the absolute length difference |
| `Distance.IterDistanceZeroIff` | urldiff.py:19-22 | `iter_distance` is 0 if and only if the sequences are equal |
| `Distance.IterDistanceSymmetric` | urldiff.py:19-22 | `iter_distance(a, b) == iter_distance(b, a)` |
| `Distance.IterDistanceAppend` | urldiff.py:19-22 | when `b` is at least as long as `a`, appending to `b` raises the distance by exactly 1 |
| `Distance.IterDistanceSameLast` | urldiff.py:19-22 | appending the same element to two equally long sequences leaves the distance unchanged |
| `Distance.IterDistanceExamples` | urldiff_test.py:57-74 | `(1,2,3)` vs `(1,2,3,4)` gives 1, equal sequences give 0, and `(1,2,3,4)` is at distance 2 from `[1,2,10,20]`, less than its distance 3 from `[1,5,5,5]` |
| `Distance.PathDistance` | urldiff.py:44-49 | `path_distance` lies between the difference in segment counts and the larger segment count |
| `Distance.Segments` | urldiff.py:46-47 | each path segment is non-empty and contains no `/` |
| `Distance.SegmentsAround` | urldiff.py:46-47 | the segments of `x + "/" + y` are those of `x` followed by those of `y`, so extra slashes add nothing |
| `Distance.SegmentsOfSegment` | urldiff.py:46-47 | a non-empty string without `/` is its own single segment |
| `Distance.SegmentsJoin` | urldiff.py:46-47 | joining non-empty, slash-free segments with `/` and taking the segments again gives them back |
| `Distance.SegmentsIgnoreEmpty` | urldiff.py:46-47 | `/x//y/` and `x/y` both have the segments `[x, y]` |
| `Distance.SegmentsOfPaths` | urldiff.py:46-47 | the segments of `/x`, `/x/y/` and `/x/y/z` are `[x]`, `[x, y]` and `[x, y, z]` |
| `Distance.PathDistanceZeroIff` | urldiff.py:44-49 | `path_distance` is 0 if and only if both paths have the same segments |
| `Distance.PathDistanceAppendSegment` | urldiff.py:44-49 | when `u2` has at least as many segments as `u1`, appending one segment to `u2`'s path raises `path_distance` by exactly 1 |
| `Distance.IterDistanceAppendToShorter` | urldiff.py:44-49 | the length condition of `PathDistanceAppendSegment` is needed: appending `y` to the segments `[x]` lowers their distance to `[x, y]` |
| `Distance.PathDistanceExamples` | urldiff_test.py:16-41 | a path is at distance 0 from itself; `/search` is at distance 1 from `/search/path/` and 2 from `/search/path/again`; the URL distance of the first pair is non-zero |
| `Distance.IsExtension` | urldiff.py:72-73 | `is_extension` answers false, without reaching `isnum`, for every string that is empty or starts with `.` |
| `Distance.ExtDistance` | urldiff.py:68-80 | `ext_distance` returns 0 and raises nothing, for all URLs |
| `Distance.QueryDistance` | urldiff.py:82-98 | `qs_distance` is at least the difference in key counts and at most the larger key count, plus the smaller key count in value mode |
| `Distance.OrientedQueryDistance` | urldiff.py:88-98 | after the swap, the count is at least the size difference and at most the larger size, plus the smaller size in value mode |
| `Distance.ChangedBound` | urldiff.py:95-96 | the keys that value mode counts as changed are at most as many as the smaller map's keys |
| `Distance.QsDistance` | urldiff.py:82-98 | the swap-then-loop computation, with keys taken in any order, equals `QueryDistance`: the size difference, plus one per key of the smaller map missing from the larger, plus (value mode) one per key missing or mapped to a different list |
| `Distance.Get` | urldiff.py:94 | for a parsed query, `qs2.get(p1)` is truthy if and only if `p1` is a key |
| `Distance.GetAgrees` | urldiff.py:96 | `qs2.get(p1) == v1` if and only if `qs2` has `p1` with the same value list |
| `Distance.TallyNext` | urldiff.py:93-96 | one loop iteration keeps the invariant: the count covers the keys done so far |
| `Distance.TallyDone` | urldiff.py:91-98 | when the loop ends, the count is the specified query distance |
| `Distance.QueryDistanceSymmetric` | urldiff.py:82-98 | `qs_distance` does not depend on which query is passed first, in either mode, including when both have the same size and no swap happens |
| `Distance.QueryDistanceZeroIff` | urldiff.py:82-98 | keys-only: 0 if and only if the key sets are equal; value mode: 0 if and only if the parsed queries are equal |
| `Distance.QueryDistanceModes` | urldiff.py:93-96 | value mode is at least keys-only and adds at most one per key of the smaller map |
| `Distance.QueryDistanceNested` | urldiff.py:88-94 | when one key set contains the other, the keys-only distance in either order is the number of extra keys |
| `Distance.QueryDistanceExample` | urldiff.py:82-98 | `?a=1` vs `?a=1&b=2&c=3` gives 2 in keys-only mode, for any three distinct key names |
| `Distance.UrlDistance` | urldiff.py:27-42 | `url_distance` is the path term plus twice the keys-only query term, plus at most 5 for the base fields; a URL is at distance 0 from itself |
| `Distance.UrlDistanceParts` | urldiff.py:27-42 | `url_distance` is the base-field mismatches plus `path_distance` plus twice the keys-only `qs_distance` |
| `Distance.ScalarsFragmentIrrelevant` | urldiff.py:29-32 | the scalar-tuple distance depends only on scheme, username, password, hostname and port |
| `Distance.UrlDistanceIgnoresFragment` | urldiff.py:29-32 | changing the fragment of either URL never changes `url_distance` |
| `Distance.UrlDistanceSymmetric` | urldiff.py:27-42 | `url_distance(u1, u2) == url_distance(u2, u1)` |
| `Distance.UrlDistanceZeroIff` | urldiff.py:27-42 | `url_distance` is 0 if and only if scheme, credentials, host, port, path segments and query keys agree |
| `Distance.UrlDistanceSchemeOnly` | urldiff.py:29-32 | URLs that differ only in scheme are at distance exactly 1 |
| `Distance.IsUrlSubset` | urldiff.py:51-66 | when `u1` is contained in `u2`, their distance is the path term plus twice the number of query keys `u2` has and `u1` lacks |
| `Distance.IsUrlSubsetReflexive` | urldiff.py:51-66 | every URL is a subset of itself |
| `Distance.IsUrlSubsetTransitive` | urldiff.py:51-66 | `is_url_subset` is transitive |
| `Distance.IsUrlSubsetBothWays` | urldiff.py:51-66 | containment both ways means equal base fields, equal paths and equal query key sets, hence `url_distance` 0 |
| `Dedup.Distances` | urldiff.py:112-114 | the mapped distances have one entry per stored URL |
| `Dedup.MinOf` | urldiff.py:115 | `min` is a lower bound of the list and is one of its elements |
| `Dedup.MinDistanceIsNearest` | urldiff.py:112-115 | `mindistance` is at most the distance to every stored URL and equals the distance to some stored URL |
| `Dedup.Step` | urldiff.py:107-118 | one iteration keeps the old list as a prefix, leaves it non-empty, and prints if and only if the score is strictly greater than `THRESHOLD` |
| `Dedup.StepPrintedIff` | urldiff.py:109-118 | a line is printed if and only if the list was non-empty and every stored URL is farther than `THRESHOLD` |
| `Dedup.StepAppendOnly` | urldiff.py:109-118 | the list becomes the seeded list plus `url` if printed; a printed URL is appended to the old list |
| `Dedup.StepFirst` | urldiff.py:109-115 | the first URL is stored, scored 0, and not printed |
| `Dedup.StepRepeat` | urldiff.py:112-118 | an exact repeat of a stored URL scores 0, is not printed, and leaves the list unchanged |
| `Dedup.SeparatedAppend` | urldiff.py:117-118 | appending a URL farther than `THRESHOLD` from every kept URL keeps the list separated |
| `Dedup.StepKeepsSeparated` | urldiff.py:117-118 | if every stored URL is farther than `THRESHOLD` from each one stored before it, that still holds after an iteration |
| `Dedup.SeparatedDistinct` | urldiff.py:117-118 | a separated list never holds the same URL twice |
| `Dedup.RunFirstSilent` | urldiff.py:109-110 | the first line contributes no output and only seeds the list |
| `Dedup.RunGrows` | urldiff.py:102-120 | starting from a non-empty list, the loop only appends, exactly one URL per printed line |
| `Dedup.RunScores` | urldiff.py:117-120 | every printed line carries a score strictly greater than `THRESHOLD` |
| `Dedup.RunKeepsSeparated` | urldiff.py:102-120 | separation of the kept URLs holds for the whole run |
| `Dedup.Deduper.constructor` | urldiff.py:102 | `unique_urls` starts empty |
| `Dedup.Deduper.Process` | urldiff.py:107-118 | one iteration updates `unique_urls` and returns the decision exactly as `Step`, keeps the separation invariant, and only appends |
| `Dedup.Feed` | urldiff.py:104-120 | one turn of the loop keeps the loop invariant: the lines printed so far plus what the rest of the input prints make up the whole output |
| `Dedup.Run` | urldiff.py:102-120 | the loop over all lines prints exactly the lines `RunFrom` specifies, with their scores; its invariant is that the lines printed so far followed by what the rest of the input prints make up the whole output (set up on entry by `PendingStart`, read off at exit by `PendingEnd`) |
| `Dedup.ThresholdIsStrict` | urldiff.py:117 | a URL at distance exactly `THRESHOLD` (differing only in scheme) is suppressed with score 1 |
| `Dedup.ScenarioDistance` | urldiff.py:27-42 | `http://x.com/a?q=2&r=3` is at distance 2 from `http://x.com/a?q=1`: only the extra key counts, twice |
| `Dedup.ScenarioStep` | urldiff.py:112-118 | `http://x.com/a?q=2&r=3` against a kept `?q=1` is at distance 2 and is printed |
| `Dedup.ThreeLineScenario` | urldiff.py:102-120 | for `?q=1`, `?q=1`, `?q=2&r=3` (any two distinct key names) only the third line is printed, with score 2 |

## Left out

- Input and output (lines 104-105 and 119-120): `fileinput.input()`, `line.strip()` and
  both `print` calls. `Run` takes the lines already parsed, each paired with its raw
  text, and returns the printed lines with their scores.
- The parsers `urlsplit` and `parse_qs` (lines 14, 61-62, 84-85 and 107). A `ParsedUrl`
  is taken as given: percent-decoding, host lower-casing and the `ValueError` that
  `.port` raises on a malformed port are not modelled. The parsed query is stored in
  the URL. That no value list is empty is the type invariant of `QueryMap`.
- `file_distance` (lines 24-25): it only raises `NotImplementedError` and is never called.
- The unused imports (`time`, `unittest`, `unwrap`). `THRESHOLD` is the constant 1.
- `Text.IsAlnum` recognises only ASCII letters and digits, while Python's `isalnum` is
  Unicode-aware. The only fact the model relies on is that `.` is not alphanumeric, and
  that holds under both definitions.
- Dictionary iteration order in `qs_distance`: `QsDistance` takes the keys in an
  arbitrary order. Its result is proved not to depend on that order.
