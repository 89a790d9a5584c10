/**
 * The de-duplication loop of `urldiff.py`'s `__main__` block: every input URL
 * is compared with every URL kept so far and is kept, and its line printed,
 * only when even the nearest kept URL is farther than `THRESHOLD`.
 */
module Dedup {
  import opened Wrappers
  import opened Url
  import opened Distance

  /** `THRESHOLD`. */
  const Threshold: nat := 1

  /** An input line with the URL it parses to. */
  datatype Line = Line(raw: string, url: ParsedUrl)

  /** A printed line and the score reported with it. */
  datatype Report = Report(raw: string, score: nat)

  /** `map(partial(url_distance, u), stored)`: the distance from `u` to each stored URL. */
  function Distances(u: ParsedUrl, stored: seq<ParsedUrl>): (ds: seq<nat>)
    ensures |ds| == |stored|
  {
    seq(|stored|, i requires 0 <= i < |stored| => UrlDistance(u, stored[i]))
  }

  /** Python's `min` of a non-empty list of numbers. */
  function MinOf(ds: seq<nat>): (m: nat)
    requires ds != []
    ensures forall i :: 0 <= i < |ds| ==> m <= ds[i]
    ensures m in ds
    decreases |ds|
  {
    if |ds| == 1 then ds[0]
    else
      var rest := MinOf(ds[1..]);
      if ds[0] <= rest then ds[0] else rest
  }

  /** `min(map(partial(url_distance, u), stored))`: the distance from `u` to the nearest stored URL. */
  function MinDistance(u: ParsedUrl, stored: seq<ParsedUrl>): nat
    requires stored != []
  {
    MinOf(Distances(u, stored))
  }

  /** The minimum is a lower bound of the distances to the stored URLs and is the distance to one of them. */
  lemma MinDistanceIsNearest(u: ParsedUrl, stored: seq<ParsedUrl>)
    requires stored != []
    ensures forall s :: s in stored ==> MinDistance(u, stored) <= UrlDistance(u, s)
    ensures exists s :: s in stored && MinDistance(u, stored) == UrlDistance(u, s)
  {
    var ds := Distances(u, stored);
    forall s | s in stored ensures MinDistance(u, stored) <= UrlDistance(u, s) {
      var i :| 0 <= i < |stored| && stored[i] == s;
      assert ds[i] == UrlDistance(u, s);
    }
    var k :| 0 <= k < |ds| && ds[k] == MinDistance(u, stored);
    assert stored[k] in stored;
  }

  /** What one iteration leaves behind: the kept URLs, whether the line was printed, and the minimum distance. */
  datatype Outcome = Outcome(stored: seq<ParsedUrl>, printed: bool, score: nat)

  /**
   * One iteration of the loop, on the URLs kept so far. An empty list is
   * first seeded with `u` itself; then `u` is appended (and printed) when its
   * minimum distance exceeds the threshold.
   */
  function Step(stored: seq<ParsedUrl>, u: ParsedUrl): (r: Outcome)
    ensures stored <= r.stored && r.stored != []
    ensures r.printed <==> r.score > Threshold
  {
    var seeded := if stored == [] then [u] else stored;
    var m := MinDistance(u, seeded);
    if m > Threshold then Outcome(seeded + [u], true, m) else Outcome(seeded, false, m)
  }

  /** A line is printed exactly when some URL was kept before and every kept URL is farther than the threshold. */
  lemma StepPrintedIff(stored: seq<ParsedUrl>, u: ParsedUrl)
    ensures Step(stored, u).printed <==> stored != [] && forall s :: s in stored ==> UrlDistance(u, s) > Threshold
  {
    var seeded := if stored == [] then [u] else stored;
    MinDistanceIsNearest(u, seeded);
  }

  /** The kept list grows by the new URL exactly when the line is printed, and otherwise only when it was empty. */
  lemma StepAppendOnly(stored: seq<ParsedUrl>, u: ParsedUrl)
    ensures var r := Step(stored, u);
      r.stored == (if stored == [] then [u] else stored) + (if r.printed then [u] else [])
      && (r.printed ==> r.stored == stored + [u])
  {
    StepPrintedIff(stored, u);
  }

  /** The first URL is stored but not printed: it is compared with itself. */
  lemma StepFirst(u: ParsedUrl)
    ensures Step([], u) == Outcome([u], false, 0)
  {
    MinDistanceIsNearest(u, [u]);
  }

  /** A URL that is already stored is never stored again nor printed. */
  lemma StepRepeat(stored: seq<ParsedUrl>, u: ParsedUrl)
    requires u in stored
    ensures Step(stored, u) == Outcome(stored, false, 0)
  {
    MinDistanceIsNearest(u, stored);
  }

  /** Every stored URL is farther than the threshold from each URL stored before it. */
  ghost predicate Separated(stored: seq<ParsedUrl>)
  {
    forall i, j :: 0 <= i < j < |stored| ==> UrlDistance(stored[j], stored[i]) > Threshold
  }

  /** A separated list holds no URL twice: a URL is at distance 0 from itself. */
  lemma SeparatedDistinct(stored: seq<ParsedUrl>)
    requires Separated(stored)
    ensures forall i, j :: 0 <= i < j < |stored| ==> stored[i] != stored[j]
  {
    forall i, j | 0 <= i < j < |stored| ensures stored[i] != stored[j] {
      assert UrlDistance(stored[j], stored[i]) > Threshold;
    }
  }

  /** Appending a URL that is farther than the threshold from every kept one keeps the list separated. */
  lemma SeparatedAppend(stored: seq<ParsedUrl>, u: ParsedUrl)
    requires Separated(stored)
    requires forall s :: s in stored ==> UrlDistance(u, s) > Threshold
    ensures Separated(stored + [u])
  {
    var grown := stored + [u];
    forall i, j | 0 <= i < j < |grown| ensures UrlDistance(grown[j], grown[i]) > Threshold {
      if j == |stored| {
        assert grown[j] == u && grown[i] == stored[i];
      } else {
        assert grown[j] == stored[j] && grown[i] == stored[i];
      }
    }
  }

  lemma StepKeepsSeparated(stored: seq<ParsedUrl>, u: ParsedUrl)
    requires Separated(stored)
    ensures Separated(Step(stored, u).stored)
  {
    var r := Step(stored, u);
    StepAppendOnly(stored, u);
    if r.printed {
      StepPrintedIff(stored, u);
      SeparatedAppend(stored, u);
    } else if stored == [] {
      assert r.stored == [u];
    }
  }

  /** What the whole loop leaves behind: the kept URLs and the printed lines. */
  datatype Trace = Trace(stored: seq<ParsedUrl>, reports: seq<Report>)

  /** The loop over `lines`, starting from the kept URLs `stored`. */
  function RunFrom(stored: seq<ParsedUrl>, lines: seq<Line>): Trace
    decreases |lines|
  {
    if lines == [] then Trace(stored, [])
    else
      var r := Step(stored, lines[0].url);
      var rest := RunFrom(r.stored, lines[1..]);
      Trace(rest.stored, (if r.printed then [Report(lines[0].raw, r.score)] else []) + rest.reports)
  }

  /** Concatenation is associative; kept separate so that `Feed` does not reason about it in its own, larger context. */
  lemma Reassociate<T>(a: seq<T>, b: seq<T>, c: seq<T>)
    ensures a + (b + c) == (a + b) + c
  {
  }

  /** One more iteration of the loop, from position `i` of the input. */
  lemma RunFromAt(stored: seq<ParsedUrl>, lines: seq<Line>, i: nat)
    requires i < |lines|
    ensures var r := Step(stored, lines[i].url);
      RunFrom(stored, lines[i..]).reports
        == (if r.printed then [Report(lines[i].raw, r.score)] else []) + RunFrom(r.stored, lines[i + 1..]).reports
  {
    assert lines[i..][0] == lines[i] && lines[i..][1..] == lines[i + 1..];
  }

  /** A line that is not printed only passes its kept list on. */
  lemma RunSilentStep(stored: seq<ParsedUrl>, lines: seq<Line>)
    requires lines != [] && !Step(stored, lines[0].url).printed
    ensures RunFrom(stored, lines) == RunFrom(Step(stored, lines[0].url).stored, lines[1..])
  {
    var rest := RunFrom(Step(stored, lines[0].url).stored, lines[1..]);
    assert [] + rest.reports == rest.reports;
  }

  /** The first line never produces output: it only seeds the kept list. */
  lemma RunFirstSilent(lines: seq<Line>)
    requires lines != []
    ensures RunFrom([], lines) == RunFrom([lines[0].url], lines[1..])
  {
    StepFirst(lines[0].url);
    RunSilentStep([], lines);
  }

  /** From a non-empty kept list, one URL is appended per printed line and nothing else changes. */
  lemma {:induction false} RunGrows(stored: seq<ParsedUrl>, lines: seq<Line>)
    requires stored != []
    ensures var t := RunFrom(stored, lines);
      stored <= t.stored && |t.stored| == |stored| + |t.reports|
    decreases |lines|
  {
    if lines != [] {
      var r := Step(stored, lines[0].url);
      StepAppendOnly(stored, lines[0].url);
      RunGrows(r.stored, lines[1..]);
    }
  }

  /** Every report in `reports` has a score above the threshold. */
  predicate ScoresAbove(reports: seq<Report>)
  {
    forall k :: 0 <= k < |reports| ==> reports[k].score > Threshold
  }

  lemma ScoresAboveConcat(a: seq<Report>, b: seq<Report>)
    requires ScoresAbove(a) && ScoresAbove(b)
    ensures ScoresAbove(a + b)
  {
    forall k | 0 <= k < |a + b| ensures (a + b)[k].score > Threshold {
      if k >= |a| {
        assert (a + b)[k] == b[k - |a|];
      }
    }
  }

  /** Every printed score exceeds the threshold. */
  lemma {:induction false} RunScores(stored: seq<ParsedUrl>, lines: seq<Line>)
    ensures ScoresAbove(RunFrom(stored, lines).reports)
    decreases |lines|
  {
    if lines != [] {
      var r := Step(stored, lines[0].url);
      RunScores(r.stored, lines[1..]);
      ScoresAboveConcat(if r.printed then [Report(lines[0].raw, r.score)] else [], RunFrom(r.stored, lines[1..]).reports);
    }
  }

  /** The kept URLs stay separated for the whole run. */
  lemma {:induction false} RunKeepsSeparated(stored: seq<ParsedUrl>, lines: seq<Line>)
    requires Separated(stored)
    ensures Separated(RunFrom(stored, lines).stored)
    decreases |lines|
  {
    if lines != [] {
      var r := Step(stored, lines[0].url);
      StepKeepsSeparated(stored, lines[0].url);
      RunKeepsSeparated(r.stored, lines[1..]);
    }
  }

  /**
   * The keeper of `unique_urls`. It only ever appends, and every URL it holds
   * is farther than the threshold from each one appended before it.
   */
  class Deduper {
    var unique: seq<ParsedUrl>

    ghost predicate Valid()
      reads this
    {
      Separated(unique)
    }

    constructor ()
      ensures Valid() && unique == []
    {
      unique := [];
    }

    /** The body of the `for line in fileinput.input()` loop, for the URL `u` parsed from the line. */
    method Process(u: ParsedUrl) returns (printed: bool, score: nat)
      requires Valid()
      modifies this
      ensures Valid()
      ensures Outcome(unique, printed, score) == Step(old(unique), u)
      ensures old(unique) <= unique && unique != []
      ensures printed <==> score > Threshold
      ensures printed <==> old(unique) != [] && forall s :: s in old(unique) ==> UrlDistance(u, s) > Threshold
    {
      StepKeepsSeparated(unique, u);
      StepPrintedIff(unique, u);
      if unique == [] {
        unique := unique + [u];
      }
      var mindistance := MinDistance(u, unique);
      printed := mindistance > Threshold;
      if printed {
        unique := unique + [u];
      }
      score := mindistance;
    }
  }

  /**
   * The state of the `__main__` loop before line `i`: the keeper is valid, and
   * the lines printed so far followed by what the rest of the input will print
   * make up the whole output `all`.
   */
  ghost predicate Pending(dedup: Deduper, lines: seq<Line>, i: nat, reports: seq<Report>, all: seq<Report>)
    reads dedup
  {
    i <= |lines| && dedup.Valid() && reports + RunFrom(dedup.unique, lines[i..]).reports == all
  }

  /**
   * One turn of the `__main__` loop: process line `i` and append its output,
   * if any, to `reports`.
   */
  method Feed(dedup: Deduper, lines: seq<Line>, i: nat, reports: seq<Report>, ghost all: seq<Report>)
    returns (reports': seq<Report>)
    requires i < |lines| && Pending(dedup, lines, i, reports, all)
    modifies dedup
    ensures Pending(dedup, lines, i + 1, reports', all)
  {
    ghost var before := dedup.unique;
    var printed, score := dedup.Process(lines[i].url);
    var printedNow := if printed then [Report(lines[i].raw, score)] else [];
    RunFromAt(before, lines, i);
    Reassociate(reports, printedNow, RunFrom(dedup.unique, lines[i + 1..]).reports);
    reports' := reports + printedNow;
  }

  /** The loop starts with a fresh keeper, nothing printed and the whole input ahead. */
  lemma PendingStart(dedup: Deduper, lines: seq<Line>)
    requires dedup.Valid() && dedup.unique == []
    ensures Pending(dedup, lines, 0, [], RunFrom([], lines).reports)
  {
    assert lines[0..] == lines;
    var all := RunFrom([], lines).reports;
    assert [] + all == all;
  }

  /** When the input is used up, everything has been printed. */
  lemma PendingEnd(dedup: Deduper, lines: seq<Line>, reports: seq<Report>, all: seq<Report>)
    requires Pending(dedup, lines, |lines|, reports, all)
    ensures reports == all
  {
    assert lines[|lines|..] == [];
    assert RunFrom(dedup.unique, []).reports == [];
    assert reports + [] == reports;
  }

  /** The whole `__main__` loop over already-parsed input lines; returns the lines it prints, with their scores. */
  method Run(lines: seq<Line>) returns (reports: seq<Report>)
    ensures reports == RunFrom([], lines).reports
  {
    var dedup := new Deduper();
    reports := [];
    PendingStart(dedup, lines);
    var i := 0;
    while i < |lines|
      invariant Pending(dedup, lines, i, reports, RunFrom([], lines).reports)
      decreases |lines| - i
    {
      reports := Feed(dedup, lines, i, reports, RunFrom([], lines).reports);
      i := i + 1;
    }
    PendingEnd(dedup, lines, reports, RunFrom([], lines).reports);
  }

  /**
   * The boundary: a URL at distance exactly `THRESHOLD` from a kept one (here
   * it differs only in its scheme) is suppressed, because the test is strict.
   */
  lemma ThresholdIsStrict(u1: ParsedUrl, u2: ParsedUrl)
    requires u1.scheme != u2.scheme && u2 == u1.(scheme := u2.scheme)
    ensures Step([u1], u2) == Outcome([u1], false, Threshold)
  {
    UrlDistanceSchemeOnly(u2, u1);
    MinDistanceIsNearest(u2, [u1]);
  }

  /**
   * `http://x.com/a?q=1` twice, then `http://x.com/a?q=2&r=3`: the first line
   * only seeds the list, the repeat is suppressed, and the third line, one
   * query key apart, is printed with score 2. The query keys `q` and `r` are
   * any two distinct names.
   */
  lemma ThreeLineScenario(a: ParsedUrl, c: ParsedUrl, q: string, r: string, qa: QueryMap, qc: QueryMap)
    requires q != r
    requires qa == map[q := ["1"]] && qc == map[q := ["2"], r := ["3"]]
    requires a == ParsedUrl("http", None, None, Some("x.com"), None, "/a", qa, "")
    requires c == a.(query := qc)
    ensures RunFrom([], [Line("http://x.com/a?q=1", a), Line("http://x.com/a?q=1", a), Line("http://x.com/a?q=2&r=3", c)]).reports
      == [Report("http://x.com/a?q=2&r=3", 2)]
  {
    var lines := [Line("http://x.com/a?q=1", a), Line("http://x.com/a?q=1", a), Line("http://x.com/a?q=2&r=3", c)];
    StepFirst(a);
    StepRepeat([a], a);
    ScenarioStep(a, c, q, r, qc);
    RunFromAt([], lines, 0);
    RunFromAt([a], lines, 1);
    RunFromAt([a], lines, 2);
    assert lines[0..] == lines;
    assert lines[3..] == [];
  }

  /** The third line of the scenario: one extra query key, counted twice, gives distance 2; the changed value is not seen. */
  lemma ScenarioStep(a: ParsedUrl, c: ParsedUrl, q: string, r: string, qc: QueryMap)
    requires q != r
    requires a.query == map[q := ["1"]] && qc == map[q := ["2"], r := ["3"]]
    requires c == a.(query := qc)
    ensures Step([a], c) == Outcome([a, c], true, 2)
  {
    ScenarioDistance(a, c, q, r, qc);
    MinDistanceIsNearest(c, [a]);
  }

  lemma ScenarioDistance(a: ParsedUrl, c: ParsedUrl, q: string, r: string, qc: QueryMap)
    requires q != r
    requires a.query == map[q := ["1"]] && qc == map[q := ["2"], r := ["3"]]
    requires c == a.(query := qc)
    ensures UrlDistance(c, a) == 2
  {
    UrlDistanceParts(c, a);
    IterDistanceZeroIff(BaseFields(c), BaseFields(a));
    IterDistanceZeroIff(Segments(c.path), Segments(a.path));
    assert QueryDistance(c.query, a.query, true) == 1 by {
      QueryDistanceNested(a.query, c.query);
      assert c.query.Keys - a.query.Keys == {r};
    }
  }
}
