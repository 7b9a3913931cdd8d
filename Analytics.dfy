/** Top search terms of a college over the trailing thirty days (get_analytics_data). */
module Analytics {
  import opened Schema
  import opened Sorting

  const SecondsPerDay: int := 24 * 60 * 60
  /** The window reaches back this many days from the moment of aggregation. */
  const WindowDays: int := 30
  /** How many terms the report lists. */
  const TopLimit: nat := 5

  /** The log is from the college and no older than thirty days before now. */
  predicate InWindow(l: SearchLog, collegeId: nat, now: int) {
    l.collegeId == collegeId && l.createdAt >= now - WindowDays * SecondsPerDay
  }

  /** The terms of the logs in the window, in log order. */
  function WindowTerms(logs: seq<SearchLog>, collegeId: nat, now: int): (ts: seq<string>)
    ensures forall t :: t in ts <==> exists k :: 0 <= k < |logs| && InWindow(logs[k], collegeId, now) && logs[k].term == t
  {
    if logs == [] then []
    else
      var rest := WindowTerms(logs[1..], collegeId, now);
      assert forall k :: 1 <= k < |logs| ==> logs[k] == logs[1..][k - 1];
      assert forall k :: 0 <= k < |logs[1..]| ==> logs[1..][k] == logs[k + 1];
      (if InWindow(logs[0], collegeId, now) then [logs[0].term] else []) + rest
  }

  /** How many logs in the window carry term t: the group's COUNT(id). */
  function Hits(logs: seq<SearchLog>, collegeId: nat, now: int, t: string): nat {
    if logs == [] then 0
    else (if InWindow(logs[0], collegeId, now) && logs[0].term == t then 1 else 0)
         + Hits(logs[1..], collegeId, now, t)
  }

  /** A term has hits exactly when it is among the window's terms. */
  lemma {:induction false} HitsPositive(logs: seq<SearchLog>, collegeId: nat, now: int, t: string)
    ensures Hits(logs, collegeId, now, t) > 0 <==> t in WindowTerms(logs, collegeId, now)
  {
    if logs != [] {
      HitsPositive(logs[1..], collegeId, now, t);
    }
  }

  /** The distinct elements of ts, each once, in order of first appearance. */
  function DistinctTerms(ts: seq<string>): (d: seq<string>)
    ensures Distinct(d)
    ensures forall t :: t in d <==> t in ts
  {
    if ts == [] then []
    else
      var d := DistinctTerms(ts[..|ts| - 1]);
      assert ts == ts[..|ts| - 1] + [ts[|ts| - 1]];
      if ts[|ts| - 1] in d then d else d + [ts[|ts| - 1]]
  }

  /** A term with its number of searches. */
  datatype TermCount = TermCount(term: string, count: nat)

  /** The key the report sorts by. */
  function CountKey(tc: TermCount): int {
    tc.count
  }

  /** GROUP BY term with COUNT, over the window. */
  function Tally(logs: seq<SearchLog>, collegeId: nat, now: int): (r: seq<TermCount>)
    ensures Distinct(r)
    ensures forall k :: 0 <= k < |r| ==> r[k].count == Hits(logs, collegeId, now, r[k].term)
    ensures forall k :: 0 <= k < |r| ==> r[k].term in WindowTerms(logs, collegeId, now)
    ensures forall t :: t in WindowTerms(logs, collegeId, now) ==> TermCount(t, Hits(logs, collegeId, now, t)) in r
  {
    var d := DistinctTerms(WindowTerms(logs, collegeId, now));
    var r := seq(|d|, k requires 0 <= k < |d| => TermCount(d[k], Hits(logs, collegeId, now, d[k])));
    assert forall t :: t in d ==> TermCount(t, Hits(logs, collegeId, now, t)) in r by {
      forall t | t in d ensures TermCount(t, Hits(logs, collegeId, now, t)) in r {
        var k :| 0 <= k < |d| && d[k] == t;
        assert r[k] == TermCount(t, Hits(logs, collegeId, now, t));
      }
    }
    r
  }

  /** The top searches: the tally sorted by count, largest first, cut to five entries. */
  function TopSearches(logs: seq<SearchLog>, collegeId: nat, now: int): seq<TermCount> {
    var sorted := Ranked(logs, collegeId, now);
    if |sorted| <= TopLimit then sorted else sorted[..TopLimit]
  }

  /** The tally sorted by count, before the cut. */
  function Ranked(logs: seq<SearchLog>, collegeId: nat, now: int): seq<TermCount> {
    SortDesc(Tally(logs, collegeId, now), CountKey)
  }

  /** The entry is a term searched in the window, with its exact count. */
  ghost predicate Counted(logs: seq<SearchLog>, collegeId: nat, now: int, tc: TermCount) {
    tc.term in WindowTerms(logs, collegeId, now)
    && tc.count == Hits(logs, collegeId, now, tc.term) && tc.count > 0
  }

  lemma RankedCounted(logs: seq<SearchLog>, collegeId: nat, now: int)
    ensures forall k :: 0 <= k < |Ranked(logs, collegeId, now)| ==> Counted(logs, collegeId, now, Ranked(logs, collegeId, now)[k])
  {
    var tally := Tally(logs, collegeId, now);
    var sorted := Ranked(logs, collegeId, now);
    forall k | 0 <= k < |sorted| ensures Counted(logs, collegeId, now, sorted[k]) {
      assert sorted[k] in multiset(tally);
      HitsPositive(logs, collegeId, now, sorted[k].term);
    }
  }

  /** Every term of the window is ranked somewhere. */
  lemma RankedComplete(logs: seq<SearchLog>, collegeId: nat, now: int, t: string)
    requires t in WindowTerms(logs, collegeId, now)
    ensures exists m :: 0 <= m < |Ranked(logs, collegeId, now)|
                        && Ranked(logs, collegeId, now)[m] == TermCount(t, Hits(logs, collegeId, now, t))
  {
    var e := TermCount(t, Hits(logs, collegeId, now, t));
    assert e in multiset(Tally(logs, collegeId, now));
    assert e in multiset(Ranked(logs, collegeId, now));
  }

  /** At most five entries. */
  lemma TopBounded(logs: seq<SearchLog>, collegeId: nat, now: int)
    ensures |TopSearches(logs, collegeId, now)| <= TopLimit
    ensures TopSearches(logs, collegeId, now) == Ranked(logs, collegeId, now)[..|TopSearches(logs, collegeId, now)|]
    ensures |TopSearches(logs, collegeId, now)| < |Ranked(logs, collegeId, now)| ==>
              |TopSearches(logs, collegeId, now)| == TopLimit
  {
  }

  /** An entry of the ranking whose term the prefix lacks lies past the prefix. */
  lemma PastPrefix(sorted: seq<TermCount>, r: seq<TermCount>, m: nat, t: string)
    requires |r| <= |sorted| && r == sorted[..|r|] && m < |sorted| && sorted[m].term == t
    requires forall k :: 0 <= k < |r| ==> r[k].term != t
    ensures m >= |r|
  {
  }

  /** Each entry is a term searched in the window, with its exact count. */
  lemma TopCounted(logs: seq<SearchLog>, collegeId: nat, now: int)
    ensures forall k :: 0 <= k < |TopSearches(logs, collegeId, now)| ==>
              Counted(logs, collegeId, now, TopSearches(logs, collegeId, now)[k])
  {
    TopBounded(logs, collegeId, now);
    RankedCounted(logs, collegeId, now);
  }

  /** Counts never increase along the report. */
  lemma TopOrdered(logs: seq<SearchLog>, collegeId: nat, now: int)
    ensures SortedDesc(TopSearches(logs, collegeId, now), CountKey)
  {
    TopBounded(logs, collegeId, now);
    SortDescSorted(Tally(logs, collegeId, now), CountKey);
  }

  /** No term is listed twice. */
  lemma TopDistinct(logs: seq<SearchLog>, collegeId: nat, now: int)
    ensures var r := TopSearches(logs, collegeId, now);
      forall i, j :: 0 <= i < j < |r| ==> r[i].term != r[j].term
  {
    var sorted := Ranked(logs, collegeId, now);
    var r := TopSearches(logs, collegeId, now);
    TopBounded(logs, collegeId, now);
    TopCounted(logs, collegeId, now);
    PermutationKeepsDistinct(Tally(logs, collegeId, now), sorted);
    forall i, j | 0 <= i < j < |r| ensures r[i].term != r[j].term {
      assert sorted[i] != sorted[j];
      assert Counted(logs, collegeId, now, r[i]) && Counted(logs, collegeId, now, r[j]);
    }
  }

  /** A term missing from the report means five terms are listed, each searched at least as often. */
  lemma TopComplete(logs: seq<SearchLog>, collegeId: nat, now: int, t: string)
    requires t in WindowTerms(logs, collegeId, now)
    requires forall k :: 0 <= k < |TopSearches(logs, collegeId, now)| ==> TopSearches(logs, collegeId, now)[k].term != t
    ensures |TopSearches(logs, collegeId, now)| == TopLimit
    ensures forall k :: 0 <= k < |TopSearches(logs, collegeId, now)| ==>
              TopSearches(logs, collegeId, now)[k].count >= Hits(logs, collegeId, now, t)
  {
    var sorted := Ranked(logs, collegeId, now);
    var r := TopSearches(logs, collegeId, now);
    TopBounded(logs, collegeId, now);
    SortDescSorted(Tally(logs, collegeId, now), CountKey);
    RankedComplete(logs, collegeId, now, t);
    var m :| 0 <= m < |sorted| && sorted[m] == TermCount(t, Hits(logs, collegeId, now, t));
    PastPrefix(sorted, r, m, t);
    forall k | 0 <= k < |r| ensures r[k].count >= Hits(logs, collegeId, now, t) {
      assert CountKey(sorted[k]) >= CountKey(sorted[m]);
    }
  }
}
