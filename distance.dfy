/**
 * The URL distance metric of `urldiff.py`: a Hamming-style count over the
 * scalar fields, the path segments and the query keys, summed with the query
 * term counted twice.
 */
module Distance {
  import opened Wrappers
  import opened Text
  import opened Url

  function Abs(x: int): nat
  {
    if x < 0 then -x else x
  }

  function Max(x: int, y: int): int
  {
    if x < y then y else x
  }

  function Min(x: int, y: int): int
  {
    if x < y then x else y
  }

  // ---------------------------------------------------------------------------
  // iter_distance
  // ---------------------------------------------------------------------------

  /** `sum(map(lambda t: t[0] != t[1], zip(a, b)))`: mismatches over the common prefix. */
  function Mismatches<T(==)>(a: seq<T>, b: seq<T>): (r: nat)
    ensures r <= |a| && r <= |b|
    decreases |a|
  {
    if a == [] || b == [] then 0
    else (if a[0] != b[0] then 1 else 0) + Mismatches(a[1..], b[1..])
  }

  /** `iter_distance`: the mismatches plus a penalty for the length difference. */
  function IterDistance<T(==)>(a: seq<T>, b: seq<T>): (r: nat)
    ensures Abs(|a| - |b|) <= r <= Max(|a|, |b|)
  {
    Mismatches(a, b) + Abs(|a| - |b|)
  }

  /** The positions, from `lo` on, at which both sequences have an element and the two differ. */
  ghost function MismatchesFrom<T>(a: seq<T>, b: seq<T>, lo: nat): set<int>
  {
    set i | lo <= i < |a| && i < |b| && a[i] != b[i]
  }

  lemma {:induction false} MismatchesCount<T>(a: seq<T>, b: seq<T>, lo: nat)
    requires lo <= |a| && lo <= |b|
    ensures Mismatches(a[lo..], b[lo..]) == |MismatchesFrom(a, b, lo)|
    decreases |a| - lo
  {
    if lo == |a| || lo == |b| {
      assert MismatchesFrom(a, b, lo) == {};
    } else {
      MismatchesCount(a, b, lo + 1);
      assert a[lo..][1..] == a[lo + 1..] && b[lo..][1..] == b[lo + 1..];
      var rest := MismatchesFrom(a, b, lo + 1);
      if a[lo] != b[lo] {
        assert MismatchesFrom(a, b, lo) == {lo} + rest;
      } else {
        assert MismatchesFrom(a, b, lo) == rest;
      }
    }
  }

  /** `iter_distance` is the number of mismatching positions in the common prefix plus the length difference. */
  lemma IterDistanceCounts<T>(a: seq<T>, b: seq<T>)
    ensures IterDistance(a, b) == |MismatchesFrom(a, b, 0)| + Abs(|a| - |b|)
  {
    MismatchesCount(a, b, 0);
    assert a[0..] == a && b[0..] == b;
  }

  /** The distance is zero exactly for equal sequences. */
  lemma IterDistanceZeroIff<T>(a: seq<T>, b: seq<T>)
    ensures IterDistance(a, b) == 0 <==> a == b
  {
    IterDistanceCounts(a, b);
    if IterDistance(a, b) == 0 {
      assert |a| == |b|;
      forall i | 0 <= i < |a| ensures a[i] == b[i] {
        assert i !in MismatchesFrom(a, b, 0);
      }
    }
  }

  lemma IterDistanceSymmetric<T>(a: seq<T>, b: seq<T>)
    ensures IterDistance(a, b) == IterDistance(b, a)
  {
    IterDistanceCounts(a, b);
    IterDistanceCounts(b, a);
    assert MismatchesFrom(a, b, 0) == MismatchesFrom(b, a, 0);
  }

  /** When `b` is at least as long as `a`, one more element on `b` costs exactly one. */
  lemma IterDistanceAppend<T>(a: seq<T>, b: seq<T>, x: T)
    requires |a| <= |b|
    ensures IterDistance(a, b + [x]) == IterDistance(a, b) + 1
  {
    IterDistanceCounts(a, b);
    IterDistanceCounts(a, b + [x]);
    assert MismatchesFrom(a, b + [x], 0) == MismatchesFrom(a, b, 0);
  }

  /** Equal last elements cost nothing. */
  lemma IterDistanceSameLast<T>(a: seq<T>, b: seq<T>, x: T)
    requires |a| == |b|
    ensures IterDistance(a + [x], b + [x]) == IterDistance(a, b)
  {
    IterDistanceCounts(a, b);
    IterDistanceCounts(a + [x], b + [x]);
    assert MismatchesFrom(a + [x], b + [x], 0) == MismatchesFrom(a, b, 0);
  }

  /** The cases of `urldiff_test.py`: one extra element costs one; fewer mismatches give less. */
  lemma IterDistanceExamples()
    ensures IterDistance([1, 2, 3], [1, 2, 3, 4]) == 1
    ensures IterDistance([1, 2, 3, 4], [1, 2, 3, 4]) == 0
    ensures IterDistance([1, 2, 3, 4], [1, 2, 10, 20]) == 2
    ensures IterDistance([1, 2, 3, 4], [1, 5, 5, 5]) == 3
  {
    IterDistanceAppend([1, 2, 3], [1, 2, 3], 4);
    IterDistanceZeroIff([1, 2, 3], [1, 2, 3]);
    IterDistanceZeroIff([1, 2, 3, 4], [1, 2, 3, 4]);
  }

  // ---------------------------------------------------------------------------
  // path_distance
  // ---------------------------------------------------------------------------

  /** `list(filter(None, path.split('/')))`: the non-empty `/`-segments of a path. */
  function Segments(path: string): (r: seq<string>)
    ensures forall i :: 0 <= i < |r| ==> r[i] != [] && '/' !in r[i]
  {
    var parts := Split(path, '/');
    assert forall p :: p in parts ==> '/' !in p;
    NonEmpty(parts)
  }

  /** A `/` splits a path into two parts whose segments are concatenated; repeated, leading and trailing slashes add nothing. */
  lemma SegmentsAround(x: string, y: string)
    ensures Segments(x + "/" + y) == Segments(x) + Segments(y)
  {
    SplitAround(x, '/', y);
    NonEmptyConcat(Split(x, '/'), Split(y, '/'));
  }

  lemma SegmentsOfSegment(s: string)
    requires IsSegment(s)
    ensures Segments(s) == [s]
  {
    SplitNoSep(s, '/');
  }

  /** Joining non-empty, slash-free segments with `/` and splitting again gives them back. */
  lemma {:induction false} SegmentsJoin(segs: seq<string>)
    requires |segs| >= 1
    requires forall i :: 0 <= i < |segs| ==> segs[i] != [] && '/' !in segs[i]
    ensures Segments(Join(segs, '/')) == segs
    decreases |segs|
  {
    SegmentsOfSegment(segs[0]);
    if |segs| > 1 {
      SegmentsJoin(segs[1..]);
      SegmentsAround(segs[0], Join(segs[1..], '/'));
    }
  }

  /** `path_distance`: `iter_distance` over the segments of both paths. */
  function PathDistance(u1: ParsedUrl, u2: ParsedUrl): (r: nat)
    ensures Abs(|Segments(u1.path)| - |Segments(u2.path)|) <= r <= Max(|Segments(u1.path)|, |Segments(u2.path)|)
  {
    IterDistance(Segments(u1.path), Segments(u2.path))
  }

  lemma PathDistanceZeroIff(u1: ParsedUrl, u2: ParsedUrl)
    ensures PathDistance(u1, u2) == 0 <==> Segments(u1.path) == Segments(u2.path)
  {
    IterDistanceZeroIff(Segments(u1.path), Segments(u2.path));
  }

  /** When `u2` has at least as many segments as `u1`, appending a segment to `u2` costs exactly one. */
  lemma PathDistanceAppendSegment(u1: ParsedUrl, u2: ParsedUrl, seg: string)
    requires IsSegment(seg)
    requires |Segments(u1.path)| <= |Segments(u2.path)|
    ensures PathDistance(u1, u2.(path := u2.path + "/" + seg)) == PathDistance(u1, u2) + 1
  {
    SegmentsAround(u2.path, seg);
    SegmentsOfSegment(seg);
    IterDistanceAppend(Segments(u1.path), Segments(u2.path), seg);
  }

  /**
   * Why `PathDistanceAppendSegment` asks for `u2` to be the longer one: appending the
   * missing segment `y` to the segments `[x]` brings them closer to `[x, y]`.
   */
  lemma IterDistanceAppendToShorter(x: string, y: string)
    ensures IterDistance([x, y], [x] + [y]) < IterDistance([x, y], [x])
  {
    assert [x] + [y] == [x, y];
    IterDistanceZeroIff([x, y], [x, y]);
  }

  /** A segment is a non-empty string without `/`. */
  predicate IsSegment(s: string)
  {
    s != [] && '/' !in s
  }

  /** Leading, doubled and trailing slashes add no segments: `/x//y/` and `x/y` have the same ones. */
  lemma SegmentsIgnoreEmpty(x: string, y: string)
    requires IsSegment(x) && IsSegment(y)
    ensures Segments("/" + x + "//" + y + "/") == [x, y] == Segments(x + "/" + y)
  {
    SegmentsOfSegment(x);
    SegmentsOfSegment(y);
    SegmentsAround(x, y);
    SegmentsAround("", x);
    assert "/" + x == "" + "/" + x;
    SegmentsAround("/" + x, "");
    assert "/" + x + "/" == "/" + x + "/" + "";
    SegmentsAround("/" + x + "/", y);
    assert "/" + x + "//" + y == "/" + x + "/" + "/" + y;
    SegmentsAround("/" + x + "//" + y, "");
    assert "/" + x + "//" + y + "/" == "/" + x + "//" + y + "/" + "";
  }

  lemma SegmentsOfPaths(x: string, y: string, z: string)
    requires IsSegment(x) && IsSegment(y) && IsSegment(z)
    ensures Segments("/" + x) == [x]
    ensures Segments("/" + x + "/" + y + "/") == [x, y]
    ensures Segments("/" + x + "/" + y + "/" + z) == [x, y, z]
  {
    SegmentsOfSegment(x);
    SegmentsOfSegment(y);
    SegmentsOfSegment(z);
    SegmentsAround("", x);
    assert "/" + x == "" + "/" + x;
    SegmentsAround("/" + x, y);
    SegmentsAround("/" + x + "/" + y, "");
    assert "/" + x + "/" + y + "/" == "/" + x + "/" + y + "/" + "";
    SegmentsAround("/" + x + "/" + y, z);
  }

  /**
   * The path cases of `urldiff_test.py`, for any segments in place of
   * `search`, `path` and `again`: `/search` is nearer to `/search/path/` than
   * to `/search/path/again`.
   */
  lemma PathDistanceExamples(u1: ParsedUrl, u2: ParsedUrl, u3: ParsedUrl, x: string, y: string, z: string)
    requires IsSegment(x) && IsSegment(y) && IsSegment(z)
    requires u1.path == "/" + x && u2.path == "/" + x + "/" + y + "/" && u3.path == "/" + x + "/" + y + "/" + z
    ensures PathDistance(u1, u1) == 0 && PathDistance(u2, u2) == 0
    ensures PathDistance(u1, u2) == 1 && PathDistance(u1, u3) == 2
    ensures UrlDistance(u1, u2) > 0
  {
    UrlDistanceParts(u1, u2);
    SegmentsOfPaths(x, y, z);
    IterDistanceZeroIff([x], [x]);
    IterDistanceZeroIff([x, y], [x, y]);
    IterDistanceAppend([x], [x], y);
    assert [x] + [y] == [x, y];
    IterDistanceAppend([x], [x, y], z);
    assert [x, y] + [z] == [x, y, z];
  }

  // ---------------------------------------------------------------------------
  // ext_distance
  // ---------------------------------------------------------------------------

  /** The exception Python raises when a missing attribute is looked up. */
  datatype PyError = AttributeError(attribute: string)

  /**
   * The inner `is_extension(ext)`: `ext.isalnum() and not ext.isnum()`. `str`
   * has no `isnum`, so the right operand raises whenever the left one holds.
   * No extension that `os.path.splitext` returns gets that far.
   */
  function IsExtension(ext: string): (r: Result<bool, PyError>)
    ensures (ext == [] || ext[0] == '.') ==> r == Ok(false)
  {
    if IsAlnum(ext) then Err(AttributeError("isnum")) else Ok(false)
  }

  /**
   * `ext_distance`: 1 when either side has a real extension and they differ.
   * The extensions come from `os.path.splitext`, so `is_extension` always
   * answers false and the distance is always 0; the `isnum` call is never reached.
   */
  function ExtDistance(u1: ParsedUrl, u2: ParsedUrl): (r: Result<int, PyError>)
    ensures r == Ok(0)
  {
    var ext1 := SplitExt(u1.path).1;
    var ext2 := SplitExt(u2.path).1;
    match IsExtension(ext1)
    case Err(e) => Err(e)
    case Ok(isExt1) =>
      if isExt1 then Ok(if ext1 == ext2 then 0 else 1)
      else
        match IsExtension(ext2)
        case Err(e) => Err(e)
        case Ok(isExt2) => Ok(if isExt2 && ext1 != ext2 then 1 else 0)
  }

  // ---------------------------------------------------------------------------
  // qs_distance
  // ---------------------------------------------------------------------------

  /**
   * `q.get(key)`. Because `parse_qs` never maps a key to an empty list, the
   * result is truthy exactly when `key` is present.
   */
  function Get(q: QueryMap, key: string): (r: Option<seq<string>>)
    ensures Truthy(r) <==> key in q
  {
    if key in q then Some(q[key]) else None
  }

  /** Python truthiness of `None` or of a list. */
  predicate Truthy(v: Option<seq<string>>)
  {
    v.Some? && v.value != []
  }

  /** The keys of `a` that `b` lacks or maps to a different value list. */
  function Changed(a: QueryMap, b: QueryMap): set<string>
  {
    set k | k in a && (k !in b || a[k] != b[k])
  }

  /**
   * `qs_distance`, specified: with `a` the smaller map and `b` the other (the
   * maps are swapped only when the first is strictly larger), the size
   * difference plus one per key of `a` missing from `b`, plus, when not
   * `keysOnly`, one more per key of `a` that `b` lacks or maps differently.
   */
  function QueryDistance(q1: QueryMap, q2: QueryMap, keysOnly: bool): (r: nat)
    ensures Abs(|q1| - |q2|) <= r <= Max(|q1|, |q2|) + (if keysOnly then 0 else Min(|q1|, |q2|))
  {
    if |q1| > |q2| then OrientedQueryDistance(q2, q1, keysOnly)
    else OrientedQueryDistance(q1, q2, keysOnly)
  }

  function OrientedQueryDistance(a: QueryMap, b: QueryMap, keysOnly: bool): (r: nat)
    requires |a| <= |b|
    ensures |b| - |a| <= r <= |b| + (if keysOnly then 0 else |a|)
  {
    CardDifference(a.Keys, b.Keys);
    ChangedBound(a, b);
    |b| - |a| + |a.Keys - b.Keys| + (if keysOnly then 0 else |Changed(a, b)|)
  }

  /**
   * `qs_distance` as written: the conditional swap, the size penalty, then a
   * loop over the items of the smaller map in whatever order the map yields
   * them.
   */
  method QsDistance(u1: ParsedUrl, u2: ParsedUrl, keysOnly: bool) returns (d: nat)
    ensures d == QueryDistance(u1.query, u2.query, keysOnly)
  {
    var qs1, qs2 := u1.query, u2.query;
    d := 0;
    if |qs1| > |qs2| {
      qs1, qs2 := qs2, qs1;
    }
    assert QueryDistance(u1.query, u2.query, keysOnly) == OrientedQueryDistance(qs1, qs2, keysOnly);
    d := d + Abs(|qs1| - |qs2|);
    var todo := qs1.Keys;
    ghost var missing: set<string> := {};
    ghost var changed: set<string> := {};
    while todo != {}
      invariant Tally(qs1, qs2, keysOnly, todo, missing, changed, d)
      decreases todo
    {
      var p1 :| p1 in todo;
      var v1 := qs1[p1];
      ghost var d0 := d;
      GetAgrees(qs1, qs2, p1);
      d := d + (if Truthy(Get(qs2, p1)) then 0 else 1);
      if !keysOnly {
        d := d + (if Get(qs2, p1) == Some(v1) then 0 else 1);
      }
      assert d == d0 + TallyStep(qs1, qs2, keysOnly, p1);
      missing, changed := TallyNext(qs1, qs2, keysOnly, todo, missing, changed, d0, p1);
      todo := todo - {p1};
    }
    TallyDone(qs1, qs2, keysOnly, missing, changed, d);
  }

  lemma GetAgrees(qs1: QueryMap, qs2: QueryMap, p: string)
    requires p in qs1
    ensures Get(qs2, p) == Some(qs1[p]) <==> p !in Changed(qs1, qs2)
  {
  }

  /**
   * The loop invariant of `QsDistance`: of the keys of the smaller map that
   * are done (not in `todo`), `missing` are those the larger map lacks and
   * `changed` those it lacks or maps differently; `d` counts them on top of the
   * size difference.
   */
  ghost predicate Tally(qs1: QueryMap, qs2: QueryMap, keysOnly: bool, todo: set<string>,
                        missing: set<string>, changed: set<string>, d: int)
  {
    && todo <= qs1.Keys
    && missing == (qs1.Keys - todo) - qs2.Keys
    && changed == Changed(qs1, qs2) - todo
    && d == |qs2| - |qs1| + |missing| + (if keysOnly then 0 else |changed|)
  }

  /** What one key of the smaller map adds to the count. */
  function TallyStep(qs1: QueryMap, qs2: QueryMap, keysOnly: bool, p: string): nat
  {
    (if p in qs2 then 0 else 1) + (if keysOnly || p !in Changed(qs1, qs2) then 0 else 1)
  }

  lemma TallyNext(qs1: QueryMap, qs2: QueryMap, keysOnly: bool, todo: set<string>,
                  missing: set<string>, changed: set<string>, d: int, p: string)
    returns (missing': set<string>, changed': set<string>)
    requires Tally(qs1, qs2, keysOnly, todo, missing, changed, d) && p in todo
    ensures Tally(qs1, qs2, keysOnly, todo - {p}, missing', changed', d + TallyStep(qs1, qs2, keysOnly, p))
  {
    missing' := (qs1.Keys - (todo - {p})) - qs2.Keys;
    changed' := Changed(qs1, qs2) - (todo - {p});
    FinishKey(qs1.Keys, todo, p, qs2.Keys);
    UnblockKey(Changed(qs1, qs2), todo, p);
  }

  lemma TallyDone(qs1: QueryMap, qs2: QueryMap, keysOnly: bool, missing: set<string>, changed: set<string>, d: int)
    requires |qs1| <= |qs2| && Tally(qs1, qs2, keysOnly, {}, missing, changed, d)
    ensures d == OrientedQueryDistance(qs1, qs2, keysOnly)
  {
    assert qs1.Keys - {} == qs1.Keys;
    assert Changed(qs1, qs2) - {} == Changed(qs1, qs2);
  }

  /** Taking `p` off the work list adds it to the done keys missing from `other`, if it is missing. */
  lemma FinishKey<T>(all: set<T>, todo: set<T>, p: T, other: set<T>)
    requires p in todo && todo <= all
    ensures |(all - (todo - {p})) - other| == |(all - todo) - other| + (if p in other then 0 else 1)
  {
    assert (all - (todo - {p})) - other == ((all - todo) - other) + (if p in other then {} else {p});
  }

  lemma UnblockKey<T>(keys: set<T>, todo: set<T>, p: T)
    requires p in todo
    ensures |keys - (todo - {p})| == |keys - todo| + (if p in keys then 1 else 0)
  {
    assert keys - (todo - {p}) == (keys - todo) + (if p in keys then {p} else {});
  }

  lemma CardDifference<T>(a: set<T>, b: set<T>)
    ensures |a - b| == |a| - |a * b|
  {
    assert a == (a - b) + (a * b);
    assert (a - b) * (a * b) == {};
  }

  /** The keys both maps hold, with different value lists. */
  function Differ(a: QueryMap, b: QueryMap): set<string>
  {
    set k | k in a && k in b && a[k] != b[k]
  }

  /** `Changed(a, b)` is the keys missing from `b` plus the shared keys whose lists differ. */
  lemma ChangedSplit(a: QueryMap, b: QueryMap)
    ensures |Changed(a, b)| == |a.Keys - b.Keys| + |Differ(a, b)|
  {
    var c := Changed(a, b);
    assert c - b.Keys == a.Keys - b.Keys;
    assert c * b.Keys == Differ(a, b);
    CardDifference(c, b.Keys);
  }

  /** Which map is passed first does not matter, in either mode. */
  lemma QueryDistanceSymmetric(q1: QueryMap, q2: QueryMap, keysOnly: bool)
    ensures QueryDistance(q1, q2, keysOnly) == QueryDistance(q2, q1, keysOnly)
  {
    if |q1| == |q2| {
      CardDifference(q1.Keys, q2.Keys);
      CardDifference(q2.Keys, q1.Keys);
      assert q1.Keys * q2.Keys == q2.Keys * q1.Keys;
      ChangedSplit(q1, q2);
      ChangedSplit(q2, q1);
      assert Differ(q1, q2) == Differ(q2, q1);
    }
  }

  /** Keys-only: zero exactly when the key sets agree. Value-sensitive: zero exactly when the maps agree. */
  lemma QueryDistanceZeroIff(q1: QueryMap, q2: QueryMap)
    ensures QueryDistance(q1, q2, true) == 0 <==> q1.Keys == q2.Keys
    ensures QueryDistance(q1, q2, false) == 0 <==> q1 == q2
  {
    var a, b := if |q1| > |q2| then q2 else q1, if |q1| > |q2| then q1 else q2;
    assert QueryDistance(q1, q2, true) == OrientedQueryDistance(a, b, true);
    assert QueryDistance(q1, q2, false) == OrientedQueryDistance(a, b, false);
    if OrientedQueryDistance(a, b, true) == 0 {
      CardDifference(b.Keys, a.Keys);
      assert a.Keys - b.Keys == {};
      assert a.Keys * b.Keys == a.Keys;
      assert b.Keys - a.Keys == {};
      assert a.Keys == b.Keys;
    }
    if OrientedQueryDistance(a, b, false) == 0 {
      assert a.Keys == b.Keys;
      forall k | k in a ensures a[k] == b[k] {
        assert k !in Changed(a, b);
      }
      assert a == b;
    }
    if q1 == q2 {
      assert Changed(a, b) == {};
    }
  }

  /** The value-sensitive mode only adds, and adds at most one per key. */
  lemma QueryDistanceModes(q1: QueryMap, q2: QueryMap)
    ensures QueryDistance(q1, q2, true) <= QueryDistance(q1, q2, false)
    ensures QueryDistance(q1, q2, false) <= QueryDistance(q1, q2, true) + Min(|q1|, |q2|)
  {
    if |q1| > |q2| {
      ChangedBound(q2, q1);
    } else {
      ChangedBound(q1, q2);
    }
  }

  /** At most every key of `a` is changed. */
  lemma ChangedBound(a: QueryMap, b: QueryMap)
    ensures |Changed(a, b)| <= |a|
  {
    CardDifference(a.Keys, Changed(a, b));
    assert a.Keys * Changed(a, b) == Changed(a, b);
  }

  /** When every key of `q1` is a key of `q2`, the keys-only distance counts the keys only `q2` has. */
  lemma QueryDistanceNested(q1: QueryMap, q2: QueryMap)
    requires q1.Keys <= q2.Keys
    ensures QueryDistance(q1, q2, true) == QueryDistance(q2, q1, true) == |q2.Keys - q1.Keys|
  {
    CardDifference(q2.Keys, q1.Keys);
    assert q2.Keys * q1.Keys == q1.Keys;
    assert q1.Keys - q2.Keys == {};
    QueryDistanceSymmetric(q1, q2, true);
  }

  /** `?a=1` against `?a=1&b=2&c=3` counts the two keys that only one side has, whatever the three distinct key names. */
  lemma QueryDistanceExample(q1: QueryMap, q2: QueryMap, a: string, b: string, c: string)
    requires a != b && a != c && b != c
    requires q1 == map[a := ["1"]] && q2 == map[a := ["1"], b := ["2"], c := ["3"]]
    ensures QueryDistance(q1, q2, true) == 2
  {
    QueryDistanceNested(q1, q2);
    assert q2.Keys - q1.Keys == {b, c};
  }


  // ---------------------------------------------------------------------------
  // url_distance
  // ---------------------------------------------------------------------------

  /** One element of the tuple `url_distance` compares. */
  datatype Field = Str(s: string) | MaybeText(o: Option<string>) | MaybePort(p: Option<int>)

  /** `(scheme, username, password, hostname, port, fragment)` of `u`, with the fragment given separately. */
  function Scalars(u: ParsedUrl, fragment: string): seq<Field>
  {
    BaseFields(u) + [Str(fragment)]
  }

  /** `(scheme, username, password, hostname, port)` of `u`. */
  function BaseFields(u: ParsedUrl): seq<Field>
  {
    [Str(u.scheme), MaybeText(u.username), MaybeText(u.password), MaybeText(u.hostname), MaybePort(u.port)]
  }

  /**
   * `url_distance`: the scalar-field distance, plus `ext_distance`, plus
   * `path_distance`, plus twice the keys-only `qs_distance`. As written, both
   * tuples end in the first URL's fragment, so the fragment never counts.
   */
  function UrlDistance(u1: ParsedUrl, u2: ParsedUrl): (r: nat)
    ensures var rest := PathDistance(u1, u2) + 2 * QueryDistance(u1.query, u2.query, true);
      rest <= r <= rest + 5
    ensures u1 == u2 ==> r == 0
  {
    ScalarsFragmentIrrelevant(u1, u2, u1.fragment);
    IterDistanceZeroIff(BaseFields(u1), BaseFields(u2));
    IterDistanceZeroIff(Segments(u1.path), Segments(u2.path));
    QueryDistanceZeroIff(u1.query, u2.query);
    IterDistance(Scalars(u1, u1.fragment), Scalars(u2, u1.fragment))
      + ExtDistance(u1, u2).value
      + PathDistance(u1, u2)
      + QueryDistance(u1.query, u2.query, true) * 2
  }

  /** The scalar-field distance does not depend on the fragment put in both tuples. */
  lemma ScalarsFragmentIrrelevant(u1: ParsedUrl, u2: ParsedUrl, f: string)
    ensures IterDistance(Scalars(u1, f), Scalars(u2, f)) == IterDistance(BaseFields(u1), BaseFields(u2))
  {
    IterDistanceSameLast(BaseFields(u1), BaseFields(u2), Str(f));
  }

  /** Changing the fragment of either URL never changes the distance. */
  lemma UrlDistanceIgnoresFragment(u1: ParsedUrl, u2: ParsedUrl, f: string)
    ensures UrlDistance(u1.(fragment := f), u2) == UrlDistance(u1, u2)
    ensures UrlDistance(u1, u2.(fragment := f)) == UrlDistance(u1, u2)
  {
    ScalarsFragmentIrrelevant(u1, u2, f);
    ScalarsFragmentIrrelevant(u1, u2, u1.fragment);
    ScalarsFragmentIrrelevant(u1.(fragment := f), u2, f);
  }

  lemma UrlDistanceSymmetric(u1: ParsedUrl, u2: ParsedUrl)
    ensures UrlDistance(u1, u2) == UrlDistance(u2, u1)
  {
    ScalarsFragmentIrrelevant(u1, u2, u1.fragment);
    ScalarsFragmentIrrelevant(u2, u1, u2.fragment);
    IterDistanceSymmetric(BaseFields(u1), BaseFields(u2));
    IterDistanceSymmetric(Segments(u1.path), Segments(u2.path));
    QueryDistanceSymmetric(u1.query, u2.query, true);
  }

  /** Scheme, credentials, host and port: the fields `is_url_subset` and the scalar distance look at. */
  predicate SameBase(u1: ParsedUrl, u2: ParsedUrl)
  {
    u1.scheme == u2.scheme && u1.username == u2.username && u1.password == u2.password
      && u1.hostname == u2.hostname && u1.port == u2.port
  }

  /**
   * The distance is zero exactly when the URLs agree on scheme, credentials,
   * host, port, path segments and query keys; the fragment, empty path
   * segments and query values are not seen.
   */
  lemma UrlDistanceZeroIff(u1: ParsedUrl, u2: ParsedUrl)
    ensures UrlDistance(u1, u2) == 0 <==>
      SameBase(u1, u2) && Segments(u1.path) == Segments(u2.path) && u1.query.Keys == u2.query.Keys
  {
    var s1, s2 := BaseFields(u1), BaseFields(u2);
    ScalarsFragmentIrrelevant(u1, u2, u1.fragment);
    IterDistanceZeroIff(s1, s2);
    if s1 == s2 {
      assert s1[0] == s2[0] && s1[1] == s2[1] && s1[2] == s2[2] && s1[3] == s2[3] && s1[4] == s2[4];
    }
    PathDistanceZeroIff(u1, u2);
    QueryDistanceZeroIff(u1.query, u2.query);
  }

  /** The distance with the fragment and the (always zero) extension term taken out. */
  lemma UrlDistanceParts(u1: ParsedUrl, u2: ParsedUrl)
    ensures UrlDistance(u1, u2)
      == IterDistance(BaseFields(u1), BaseFields(u2)) + PathDistance(u1, u2) + 2 * QueryDistance(u1.query, u2.query, true)
  {
    ScalarsFragmentIrrelevant(u1, u2, u1.fragment);
  }

  /** URLs that differ in nothing but the scheme are at distance exactly one. */
  lemma UrlDistanceSchemeOnly(u1: ParsedUrl, u2: ParsedUrl)
    requires u1.scheme != u2.scheme && u2 == u1.(scheme := u2.scheme)
    ensures UrlDistance(u1, u2) == 1
  {
    UrlDistanceParts(u1, u2);
    var b1, b2 := BaseFields(u1), BaseFields(u2);
    IterDistanceCounts(b1, b2);
    assert MismatchesFrom(b1, b2, 0) == {0};
    IterDistanceZeroIff(Segments(u1.path), Segments(u2.path));
    QueryDistanceZeroIff(u1.query, u2.query);
  }

  // ---------------------------------------------------------------------------
  // is_url_subset
  // ---------------------------------------------------------------------------

  /**
   * `is_url_subset(u1, u2)`: same scheme, host, credentials and port, `u2`'s
   * path starts with `u1`'s, and every query key of `u1` is one of `u2`.
   */
  predicate IsUrlSubset(u1: ParsedUrl, u2: ParsedUrl)
    ensures IsUrlSubset(u1, u2) ==>
      UrlDistance(u1, u2) == PathDistance(u1, u2) + 2 * |u2.query.Keys - u1.query.Keys|
  {
    if && (u1.scheme, u1.hostname, u1.username, u1.password, u1.port) == (u2.scheme, u2.hostname, u2.username, u2.password, u2.port)
       && u1.path <= u2.path
       && forall key :: key in u1.query ==> key in u2.query
    then
      UrlDistanceParts(u1, u2);
      IterDistanceZeroIff(BaseFields(u1), BaseFields(u2));
      QueryDistanceNested(u1.query, u2.query);
      true
    else
      false
  }

  lemma IsUrlSubsetReflexive(u: ParsedUrl)
    ensures IsUrlSubset(u, u)
  {
  }

  lemma IsUrlSubsetTransitive(u1: ParsedUrl, u2: ParsedUrl, u3: ParsedUrl)
    requires IsUrlSubset(u1, u2) && IsUrlSubset(u2, u3)
    ensures IsUrlSubset(u1, u3)
  {
  }

  /** What containment in both directions means, and that the metric then sees no difference. */
  lemma IsUrlSubsetBothWays(u1: ParsedUrl, u2: ParsedUrl)
    requires IsUrlSubset(u1, u2) && IsUrlSubset(u2, u1)
    ensures SameBase(u1, u2) && u1.path == u2.path && u1.query.Keys == u2.query.Keys
    ensures UrlDistance(u1, u2) == 0
  {
    UrlDistanceZeroIff(u1, u2);
  }
}
