// Chains in event-time order: what sorting promises, and when it pins the
// order down.
module Chains {
  import opened Prelude
  import opened Reports

  ghost predicate Sorted(chain: seq<Report>) {
    forall i, j :: 0 <= i < j < |chain| ==> chain[i].eventTime <= chain[j].eventTime
  }

  /** `s` is `chain` in some admissible order by event time. */
  ghost predicate SortOf(s: seq<Report>, chain: seq<Report>) {
    Sorted(s) && multiset(s) == multiset(chain)
  }

  /** Reports at or before `limit` all have different event times. */
  ghost predicate DistinctTimesUpTo(chain: seq<Report>, limit: Instant) {
    forall i, j :: 0 <= i < j < |chain| && chain[i].eventTime <= limit ==> chain[i].eventTime != chain[j].eventTime
  }

  ghost predicate DistinctTimes(chain: seq<Report>) {
    forall i, j :: 0 <= i < j < |chain| ==> chain[i].eventTime != chain[j].eventTime
  }

  // ---- The stable sort ----

  /** Puts `r` after every report of `s` that is not later. */
  function Insert(r: Report, s: seq<Report>): (t: seq<Report>)
    ensures multiset(t) == multiset(s) + multiset{r}
  {
    if s == [] then [r]
    else if s[|s| - 1].eventTime <= r.eventTime then s + [r]
    else
      var init := s[..|s| - 1];
      assert s == init + [s[|s| - 1]];
      Insert(r, init) + [s[|s| - 1]]
  }

  /** The stable sort by event time. */
  function ByTime(chain: seq<Report>): (t: seq<Report>)
    ensures multiset(t) == multiset(chain)
  {
    if chain == [] then []
    else
      var init := chain[..|chain| - 1];
      assert chain == init + [chain[|chain| - 1]];
      Insert(chain[|chain| - 1], ByTime(init))
  }

  lemma {:induction false} InsertKeepsSorted(r: Report, s: seq<Report>)
    requires Sorted(s)
    ensures Sorted(Insert(r, s))
  {
    if s != [] && s[|s| - 1].eventTime > r.eventTime {
      var init, last := s[..|s| - 1], s[|s| - 1];
      var t := Insert(r, init);
      InsertKeepsSorted(r, init);
      forall i | 0 <= i < |t| ensures t[i].eventTime <= last.eventTime {
        ElementOfSum(t, init, r, i);
      }
    }
  }

  lemma ElementOfSum(t: seq<Report>, s: seq<Report>, r: Report, i: nat)
    requires i < |t| && multiset(t) == multiset(s) + multiset{r}
    ensures t[i] == r || t[i] in s
  {
    assert t[i] in multiset(t);
  }

  lemma {:induction false} ByTimeSorts(chain: seq<Report>)
    ensures SortOf(ByTime(chain), chain)
  {
    if chain != [] {
      ByTimeSorts(chain[..|chain| - 1]);
      InsertKeepsSorted(chain[|chain| - 1], ByTime(chain[..|chain| - 1]));
    }
  }

  /** Sorting whose result among equal keys is unspecified (`sort.Slice`). */
  method SortSlice(chain: seq<Report>) returns (sorted: seq<Report>)
    ensures SortOf(sorted, chain)
  {
    ByTimeSorts(chain);
    sorted := ByTime(chain);
  }

  // ---- When the order is determined ----

  lemma SameHead(a: seq<Report>, b: seq<Report>, limit: Instant)
    requires Sorted(a) && Sorted(b) && multiset(a) == multiset(b)
    requires DistinctTimesUpTo(a, limit)
    requires a != [] && b != [] && a[0].eventTime <= limit
    ensures a[0] == b[0]
    ensures multiset(a[1..]) == multiset(b[1..])
  {
    SameElements(a, b);
    assert a[0] in b && b[0] in a;
    var k :| 0 <= k < |a| && a[k] == b[0];
    assert k == 0;
    assert a == [a[0]] + a[1..] && b == [b[0]] + b[1..];
    assert multiset(a[1..]) == multiset(a) - multiset{a[0]};
    assert multiset(b[1..]) == multiset(b) - multiset{b[0]};
  }

  /** Two sorted orders agree as far as event times are distinct. */
  lemma {:induction false} SamePrefix(a: seq<Report>, b: seq<Report>, limit: Instant)
    requires Sorted(a) && Sorted(b) && multiset(a) == multiset(b)
    requires DistinctTimesUpTo(a, limit)
    ensures |a| == |b|
    ensures forall i :: 0 <= i < |a| && a[i].eventTime <= limit ==> a[i] == b[i]
    decreases |a|
  {
    SameElements(a, b);
    if a != [] && a[0].eventTime <= limit {
      SameHead(a, b, limit);
      var a', b' := a[1..], b[1..];
      assert Sorted(a') && Sorted(b');
      assert DistinctTimesUpTo(a', limit);
      SamePrefix(a', b', limit);
      forall i | 0 <= i < |a| && a[i].eventTime <= limit ensures a[i] == b[i] {
        if i > 0 { assert a[i] == a'[i - 1] && b[i] == b'[i - 1]; }
      }
    }
  }

  /** Being pairwise distinct in time does not depend on the order. */
  lemma DistinctTimesPermute(a: seq<Report>, b: seq<Report>, limit: Instant)
    requires multiset(a) == multiset(b)
    requires DistinctTimesUpTo(a, limit)
    ensures DistinctTimesUpTo(b, limit)
  {
    forall i, j | 0 <= i < j < |b| && b[i].eventTime <= limit ensures b[i].eventTime != b[j].eventTime {
      if b[i] == b[j] {
        TwoPositions(b, i, j);
        var p, q := TwiceInSeq(a, b[i]);
        assert false;
      } else {
        SameElements(a, b);
        assert b[i] in b && b[j] in b;
        var p :| 0 <= p < |a| && a[p] == b[i];
        var q :| 0 <= q < |a| && a[q] == b[j];
      }
    }
  }

  lemma DistinctIdsPermute(a: seq<Report>, b: seq<Report>)
    requires multiset(a) == multiset(b)
    requires DistinctIds(a)
    ensures DistinctIds(b)
  {
    forall i, j | 0 <= i < j < |b| ensures b[i].reportId != b[j].reportId {
      if b[i] == b[j] {
        TwoPositions(b, i, j);
        var p, q := TwiceInSeq(a, b[i]);
        assert false;
      } else {
        SameElements(a, b);
        assert b[i] in b && b[j] in b;
        var p :| 0 <= p < |a| && a[p] == b[i];
        var q :| 0 <= q < |a| && a[q] == b[j];
      }
    }
  }

  /** With distinct event times there is one admissible order only. */
  lemma SortUnique(a: seq<Report>, b: seq<Report>)
    requires Sorted(a) && Sorted(b) && multiset(a) == multiset(b)
    requires DistinctTimes(a)
    ensures a == b
  {
    if a != [] {
      var limit := a[|a| - 1].eventTime;
      SamePrefix(a, b, limit);
    } else {
      SameElements(a, b);
    }
  }
}
