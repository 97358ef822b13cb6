/**
 * The scan log: an append-only sequence of scan events, and the queries over it
 * that count scans and build per-QR statistics.
 */
module ScanLog {
  import opened JsText
  import opened PeriodLabel

  /** One scan event: the QR it was for and when it happened (ms since the epoch). */
  datatype Scan = Scan(qrCodeId: string, scannedAt: int)

  // ---------------------------------------------------------------------------
  // Counting

  /** `getScanCount(id)`, a `countDocuments({ qr_code_id: id })` over the log. */
  function ScanCount(log: seq<Scan>, id: string): (n: nat)
    ensures n <= |log|
  {
    if log == [] then 0
    else ScanCount(log[..|log| - 1], id) + (if log[|log| - 1].qrCodeId == id then 1 else 0)
  }

  /** The count is the number of log positions that carry `id`. */
  lemma {:induction false} ScanCountIsEntryCount(log: seq<Scan>, id: string)
    ensures ScanCount(log, id) == |set i | 0 <= i < |log| && log[i].qrCodeId == id|
  {
    if log != [] {
      var init := log[..|log| - 1];
      ScanCountIsEntryCount(init, id);
      var before := set i | 0 <= i < |init| && init[i].qrCodeId == id;
      var after := set i | 0 <= i < |log| && log[i].qrCodeId == id;
      if log[|log| - 1].qrCodeId == id {
        assert after == before + {|log| - 1};
      } else {
        assert after == before;
      }
    }
  }

  /** Appending one scan adds one to the count of its QR and nothing to any other. */
  lemma ScanCountAppend(log: seq<Scan>, s: Scan)
    ensures forall id :: ScanCount(log + [s], id) == ScanCount(log, id) + (if s.qrCodeId == id then 1 else 0)
  {
    assert (log + [s])[..|log|] == log;
  }

  /** `deleteMany({ qr_code_id: id })`: the log without the scans of `id`, the others kept in order. */
  function RemoveScansOf(log: seq<Scan>, id: string): (r: seq<Scan>)
    ensures |r| == |log| - ScanCount(log, id)
    ensures ScanCount(r, id) == 0
    ensures forall other :: other != id ==> ScanCount(r, other) == ScanCount(log, other)
    ensures forall i :: 0 <= i < |r| ==> r[i].qrCodeId != id && r[i] in log
  {
    if log == [] then []
    else
      var rest := RemoveScansOf(log[..|log| - 1], id);
      var s := log[|log| - 1];
      if s.qrCodeId == id then rest
      else
        ScanCountAppend(rest, s);
        rest + [s]
  }

  /** The scan times of `id`, in log order. */
  function AllTimes(log: seq<Scan>, id: string): (ts: seq<int>)
    ensures |ts| == ScanCount(log, id)
    ensures forall i :: 0 <= i < |ts| ==> Scan(id, ts[i]) in log
    ensures forall i :: 0 <= i < |log| && log[i].qrCodeId == id ==> log[i].scannedAt in ts
  {
    if log == [] then []
    else
      var init := log[..|log| - 1];
      var rest := AllTimes(init, id);
      assert forall i :: 0 <= i < |init| ==> init[i] == log[i];
      if log[|log| - 1].qrCodeId == id then rest + [log[|log| - 1].scannedAt] else rest
  }

  /** The scan times of `id` after one more scan: the new time is added when the scan is for `id`. */
  lemma AllTimesAppend(log: seq<Scan>, s: Scan, id: string)
    ensures AllTimes(log + [s], id) == AllTimes(log, id) + (if s.qrCodeId == id then [s.scannedAt] else [])
  {
    assert (log + [s])[..|log|] == log;
  }

  /** Deleting the scans of `id` leaves the scan times of every other QR as they were, in order. */
  lemma {:induction false} RemoveKeepsOtherTimes(log: seq<Scan>, id: string, other: string)
    requires other != id
    ensures AllTimes(RemoveScansOf(log, id), other) == AllTimes(log, other)
  {
    if log != [] {
      var init := log[..|log| - 1];
      var s := log[|log| - 1];
      RemoveKeepsOtherTimes(init, id, other);
      if s.qrCodeId != id {
        AllTimesAppend(RemoveScansOf(init, id), s, other);
      }
    }
  }

  // ---------------------------------------------------------------------------
  // The [from, to] window

  /** `scanned_at >= from` when `from` is supplied and `scanned_at <= to` when `to` is supplied. */
  predicate InRange(t: int, from: Option<int>, to: Option<int>) {
    (from.None? || from.value <= t) && (to.None? || t <= to.value)
  }

  /** The times within the inclusive window, in order: each time is kept exactly when it is in range. */
  function Window(ts: seq<int>, from: Option<int>, to: Option<int>): (w: seq<int>)
    ensures |w| <= |ts|
    ensures forall i :: 0 <= i < |w| ==> InRange(w[i], from, to)
    ensures forall t :: multiset(w)[t] == if InRange(t, from, to) then multiset(ts)[t] else 0
    ensures from.None? && to.None? ==> w == ts
  {
    if ts == [] then []
    else
      var rest := Window(ts[..|ts| - 1], from, to);
      var t := ts[|ts| - 1];
      assert ts == ts[..|ts| - 1] + [t];
      if InRange(t, from, to) then rest + [t] else rest
  }

  // ---------------------------------------------------------------------------
  // Ordering of period labels

  /** Code-point lexicographic order on strings, the order in which the store sorts string keys. */
  predicate StrLess(a: string, b: string) {
    if a == [] then b != []
    else if b == [] then false
    else a[0] < b[0] || (a[0] == b[0] && StrLess(a[1..], b[1..]))
  }

  lemma {:induction false} StrLessIrreflexive(a: string)
    ensures !StrLess(a, a)
  {
    if a != [] {
      StrLessIrreflexive(a[1..]);
    }
  }

  lemma {:induction false} StrLessTransitive(a: string, b: string, c: string)
    requires StrLess(a, b) && StrLess(b, c)
    ensures StrLess(a, c)
  {
    if a != [] && a[0] == b[0] && b[0] == c[0] {
      StrLessTransitive(a[1..], b[1..], c[1..]);
    }
  }

  lemma {:induction false} StrLessTotal(a: string, b: string)
    requires a != b
    ensures StrLess(a, b) || StrLess(b, a)
  {
    if a != [] && b != [] && a[0] == b[0] {
      assert a == [a[0]] + a[1..] && b == [b[0]] + b[1..];
      StrLessTotal(a[1..], b[1..]);
    }
  }

  // ---------------------------------------------------------------------------
  // Grouping by period

  /** One row of `scans_by_period`: a period label and the number of scans in it. */
  datatype PeriodCount = PeriodCount(date: string, count: nat)

  /** Rows in strictly ascending label order, so no label occurs twice. */
  ghost predicate Ascending(ps: seq<PeriodCount>) {
    forall i, j :: 0 <= i < j < |ps| ==> StrLess(ps[i].date, ps[j].date)
  }

  ghost predicate PositiveCounts(ps: seq<PeriodCount>) {
    forall i :: 0 <= i < |ps| ==> ps[i].count >= 1
  }

  function SumCounts(ps: seq<PeriodCount>): nat {
    if ps == [] then 0 else ps[0].count + SumCounts(ps[1..])
  }

  /** The number of scans the rows attribute to `period`. */
  function CountFor(ps: seq<PeriodCount>, period: string): nat {
    if ps == [] then 0 else (if ps[0].date == period then ps[0].count else 0) + CountFor(ps[1..], period)
  }

  function DateSet(ps: seq<PeriodCount>): set<string> {
    if ps == [] then {} else {ps[0].date} + DateSet(ps[1..])
  }

  lemma AscendingCons(x: PeriodCount, ps: seq<PeriodCount>)
    requires Ascending(ps)
    requires forall i :: 0 <= i < |ps| ==> StrLess(x.date, ps[i].date)
    ensures Ascending([x] + ps)
  {
  }

  lemma AscendingPrepend(x: PeriodCount, ps: seq<PeriodCount>)
    requires Ascending(ps)
    requires ps != [] ==> StrLess(x.date, ps[0].date)
    ensures Ascending([x] + ps)
  {
    forall i | 0 <= i < |ps|
      ensures StrLess(x.date, ps[i].date)
    {
      if i > 0 {
        StrLessTransitive(x.date, ps[0].date, ps[i].date);
      }
    }
    AscendingCons(x, ps);
  }

  lemma {:induction false} DateSetMembers(ps: seq<PeriodCount>)
    ensures forall d :: d in DateSet(ps) <==> exists i :: 0 <= i < |ps| && ps[i].date == d
  {
    if ps != [] {
      DateSetMembers(ps[1..]);
      forall d | d in DateSet(ps)
        ensures exists i :: 0 <= i < |ps| && ps[i].date == d
      {
        if d != ps[0].date {
          assert d in DateSet(ps[1..]);
          var j :| 0 <= j < |ps[1..]| && ps[1..][j].date == d;
          assert ps[j + 1].date == d;
        }
      }
      forall d | exists i :: 0 <= i < |ps| && ps[i].date == d
        ensures d in DateSet(ps)
      {
        var i :| 0 <= i < |ps| && ps[i].date == d;
        if i > 0 {
          assert ps[1..][i - 1].date == d;
        }
      }
    }
  }

  /** Strictly ascending rows carry as many distinct labels as there are rows. */
  lemma {:induction false} AscendingDateSetSize(ps: seq<PeriodCount>)
    requires Ascending(ps)
    ensures |DateSet(ps)| == |ps|
  {
    if ps != [] {
      AscendingDateSetSize(ps[1..]);
      DateSetMembers(ps[1..]);
      if ps[0].date in DateSet(ps[1..]) {
        var j :| 0 <= j < |ps[1..]| && ps[1..][j].date == ps[0].date;
        assert StrLess(ps[0].date, ps[j + 1].date);
        StrLessIrreflexive(ps[0].date);
        assert false;
      }
    }
  }

  /** Adds one scan with period `period` to the ascending rows, keeping them ascending. */
  function Insert(ps: seq<PeriodCount>, period: string): (r: seq<PeriodCount>)
    requires Ascending(ps) && PositiveCounts(ps)
    ensures Ascending(r) && PositiveCounts(r)
    ensures r != [] && (ps == [] || r[0].date == ps[0].date || r[0].date == period)
    ensures SumCounts(r) == SumCounts(ps) + 1
    ensures forall d :: CountFor(r, d) == CountFor(ps, d) + (if d == period then 1 else 0)
    ensures DateSet(r) == DateSet(ps) + {period}
    decreases |ps|
  {
    if ps == [] then [PeriodCount(period, 1)]
    else if ps[0].date == period then
      var r := [PeriodCount(period, ps[0].count + 1)] + ps[1..];
      assert r[1..] == ps[1..];
      assert forall i :: 1 <= i < |r| ==> r[i] == ps[i];
      r
    else if StrLess(period, ps[0].date) then
      AscendingPrepend(PeriodCount(period, 1), ps);
      var r := [PeriodCount(period, 1)] + ps;
      assert r[1..] == ps;
      r
    else
      StrLessTotal(period, ps[0].date);
      var rest := Insert(ps[1..], period);
      AscendingPrepend(ps[0], rest);
      var r := [ps[0]] + rest;
      assert r[1..] == rest;
      r
  }

  /**
   * The `$group` / `$sort` stages: one row per distinct period, counting the labels,
   * in ascending period order.
   */
  function Tally(labels: seq<string>): (r: seq<PeriodCount>)
    ensures Ascending(r) && PositiveCounts(r)
    ensures SumCounts(r) == |labels|
    ensures forall d :: CountFor(r, d) == multiset(labels)[d]
    ensures DateSet(r) == set d | d in labels
  {
    if labels == [] then []
    else
      var init := labels[..|labels| - 1];
      assert labels == init + [labels[|labels| - 1]];
      Insert(Tally(init), labels[|labels| - 1])
  }

  /** The period label of each time, in order. */
  function LabelsOf(g: Granularity, ts: seq<int>): (r: seq<string>)
    ensures |r| == |ts|
    ensures forall i :: 0 <= i < |ts| ==> r[i] == Label(g, ts[i])
  {
    if ts == [] then [] else [Label(g, ts[0])] + LabelsOf(g, ts[1..])
  }

  // ---------------------------------------------------------------------------
  // First, last and most recent scans

  function MinOf(ts: seq<int>): (m: int)
    requires ts != []
    ensures m in ts
    ensures forall i :: 0 <= i < |ts| ==> m <= ts[i]
  {
    if |ts| == 1 then ts[0]
    else
      var m := MinOf(ts[..|ts| - 1]);
      assert ts == ts[..|ts| - 1] + [ts[|ts| - 1]];
      if ts[|ts| - 1] < m then ts[|ts| - 1] else m
  }

  function MaxOf(ts: seq<int>): (m: int)
    requires ts != []
    ensures m in ts
    ensures forall i :: 0 <= i < |ts| ==> ts[i] <= m
  {
    if |ts| == 1 then ts[0]
    else
      var m := MaxOf(ts[..|ts| - 1]);
      assert ts == ts[..|ts| - 1] + [ts[|ts| - 1]];
      if ts[|ts| - 1] > m then ts[|ts| - 1] else m
  }

  ghost predicate Descending(ts: seq<int>) {
    forall i, j :: 0 <= i < j < |ts| ==> ts[i] >= ts[j]
  }

  function InsertDesc(sorted: seq<int>, x: int): (r: seq<int>)
    requires Descending(sorted)
    ensures Descending(r)
    ensures multiset(r) == multiset(sorted) + multiset{x}
    ensures |r| == |sorted| + 1
    ensures r[0] == if sorted == [] || x >= sorted[0] then x else sorted[0]
  {
    if sorted == [] || x >= sorted[0] then [x] + sorted
    else
      var rest := InsertDesc(sorted[1..], x);
      assert sorted == [sorted[0]] + sorted[1..];
      assert rest[0] <= sorted[0];
      assert forall j :: 0 <= j < |rest| ==> rest[j] <= rest[0];
      [sorted[0]] + rest
  }

  /** The times in descending order, a permutation of the input. */
  function SortDesc(ts: seq<int>): (r: seq<int>)
    ensures Descending(r)
    ensures multiset(r) == multiset(ts)
    ensures |r| == |ts|
  {
    if ts == [] then []
    else
      assert ts == ts[..|ts| - 1] + [ts[|ts| - 1]];
      InsertDesc(SortDesc(ts[..|ts| - 1]), ts[|ts| - 1])
  }

  const RecentLimit: nat := 10

  function Min(a: int, b: int): int {
    if a <= b then a else b
  }

  /** Splitting a sequence splits its multiset. */
  lemma SplitMultiset(ts: seq<int>, sorted: seq<int>, k: nat)
    requires multiset(sorted) == multiset(ts) && k <= |sorted|
    ensures multiset(sorted[..k]) <= multiset(ts)
    ensures multiset(ts) - multiset(sorted[..k]) == multiset(sorted[k..])
  {
    assert sorted == sorted[..k] + sorted[k..];
  }

  /** In a descending sequence, nothing after position `k` exceeds anything before it. */
  lemma TailBelowPrefix(sorted: seq<int>, k: nat, t: int)
    requires Descending(sorted) && k <= |sorted| && t in multiset(sorted[k..])
    ensures forall i :: 0 <= i < k ==> t <= sorted[i]
  {
    var rest := sorted[k..];
    var j :| 0 <= j < |rest| && rest[j] == t;
    assert sorted[k + j] == t;
  }

  /** A prefix of a descending permutation of `ts` holds its largest elements. */
  lemma DescendingPrefix(ts: seq<int>, sorted: seq<int>, k: nat)
    requires Descending(sorted) && multiset(sorted) == multiset(ts) && k <= |sorted|
    ensures Descending(sorted[..k])
    ensures multiset(sorted[..k]) <= multiset(ts)
    ensures forall i, t :: 0 <= i < k && t in multiset(ts) - multiset(sorted[..k]) ==> t <= sorted[..k][i]
  {
    SplitMultiset(ts, sorted, k);
    forall i, t | 0 <= i < k && t in multiset(ts) - multiset(sorted[..k])
      ensures t <= sorted[..k][i]
    {
      TailBelowPrefix(sorted, k, t);
    }
  }

  /**
   * `find(...).sort({ scanned_at: -1 }).limit(10)`: the `min(10, n)` most recent times,
   * newest first; every time left out is no later than every time kept.
   */
  function Recent(ts: seq<int>): (r: seq<int>)
    ensures |r| == Min(RecentLimit, |ts|)
    ensures Descending(r)
    ensures multiset(r) <= multiset(ts)
    ensures forall i, t :: 0 <= i < |r| && t in multiset(ts) - multiset(r) ==> t <= r[i]
  {
    var sorted := SortDesc(ts);
    DescendingPrefix(ts, sorted, Min(RecentLimit, |ts|));
    sorted[..Min(RecentLimit, |ts|)]
  }

  // ---------------------------------------------------------------------------
  // Statistics

  /** `findOne(...).sort({ scanned_at: 1 })`: the earliest scan of `id`, if any. */
  function FirstScan(log: seq<Scan>, id: string): (f: Option<int>)
    ensures f.None? <==> ScanCount(log, id) == 0
    ensures f.Some? ==> f.value in AllTimes(log, id) && forall t :: t in AllTimes(log, id) ==> f.value <= t
  {
    var all := AllTimes(log, id);
    if all == [] then None else Some(MinOf(all))
  }

  /** `findOne(...).sort({ scanned_at: -1 })`: the latest scan of `id`, if any. */
  function LastScan(log: seq<Scan>, id: string): (l: Option<int>)
    ensures l.None? <==> ScanCount(log, id) == 0
    ensures l.Some? ==> l.value in AllTimes(log, id) && forall t :: t in AllTimes(log, id) ==> t <= l.value
  {
    var all := AllTimes(log, id);
    if all == [] then None else Some(MaxOf(all))
  }

  /** The result of `getStats`. */
  datatype Stats = Stats(
    totalScans: nat,
    firstScan: Option<int>,
    lastScan: Option<int>,
    scansByPeriod: seq<PeriodCount>,
    recentScans: seq<int>)

  /**
   * `getStats(id, { from, to, groupBy })`. The total, first, last and recent scans cover
   * every scan of `id`; only the per-period rows are restricted to the inclusive window.
   */
  function GetStats(log: seq<Scan>, id: string, from: Option<int>, to: Option<int>, groupBy: Option<string>): (s: Stats)
    ensures s.totalScans == ScanCount(log, id)
    ensures s.firstScan.None? <==> s.totalScans == 0
    ensures s.lastScan.None? <==> s.totalScans == 0
    ensures s.totalScans == 0 ==> s.scansByPeriod == [] && s.recentScans == []
    ensures s.firstScan.Some? ==> s.firstScan.value <= s.lastScan.value
    ensures |s.recentScans| == Min(RecentLimit, s.totalScans)
    ensures Ascending(s.scansByPeriod) && PositiveCounts(s.scansByPeriod)
    ensures SumCounts(s.scansByPeriod) == |Window(AllTimes(log, id), from, to)|
    ensures SumCounts(s.scansByPeriod) <= s.totalScans
  {
    var all := AllTimes(log, id);
    var window := Window(all, from, to);
    Stats(
      ScanCount(log, id),
      FirstScan(log, id),
      LastScan(log, id),
      Tally(LabelsOf(GranularityOf(groupBy), window)),
      Recent(all))
  }

  /** `first_scan` and `last_scan` are the earliest and the latest scan of `id`. */
  lemma FirstAndLastAreExtremes(log: seq<Scan>, id: string, from: Option<int>, to: Option<int>, groupBy: Option<string>)
    requires ScanCount(log, id) > 0
    ensures var s := GetStats(log, id, from, to, groupBy);
      && s.firstScan.Some? && s.lastScan.Some?
      && s.firstScan.value in AllTimes(log, id) && s.lastScan.value in AllTimes(log, id)
      && forall t :: t in AllTimes(log, id) ==> s.firstScan.value <= t <= s.lastScan.value
  {
  }

  /** `recent_scans` is newest first and holds the most recent scans of `id`. */
  lemma RecentAreTheLatest(log: seq<Scan>, id: string, from: Option<int>, to: Option<int>, groupBy: Option<string>)
    ensures var s := GetStats(log, id, from, to, groupBy);
      var all := multiset(AllTimes(log, id));
      && Descending(s.recentScans)
      && multiset(s.recentScans) <= all
      && forall i, t :: 0 <= i < |s.recentScans| && t in all - multiset(s.recentScans) ==> t <= s.recentScans[i]
  {
    assert GetStats(log, id, from, to, groupBy).recentScans == Recent(AllTimes(log, id));
  }

  /** The window changes only the per-period rows. */
  lemma WindowAffectsOnlyPeriods(log: seq<Scan>, id: string, from: Option<int>, to: Option<int>, groupBy: Option<string>)
    ensures var s := GetStats(log, id, from, to, groupBy);
      var u := GetStats(log, id, None, None, groupBy);
      s.totalScans == u.totalScans && s.firstScan == u.firstScan && s.lastScan == u.lastScan
      && s.recentScans == u.recentScans
  {
  }

  /** Without a window the per-period counts add up to the all-time total. */
  lemma UnwindowedPeriodsCoverAllScans(log: seq<Scan>, id: string, groupBy: Option<string>)
    ensures var s := GetStats(log, id, None, None, groupBy);
      SumCounts(s.scansByPeriod) == s.totalScans
  {
  }

  /**
   * Each period row counts exactly the windowed scans with that period, and there is one
   * row per distinct period among them.
   */
  lemma {:induction false} PeriodRowsMatchLabels(log: seq<Scan>, id: string, from: Option<int>, to: Option<int>, groupBy: Option<string>)
    ensures var s := GetStats(log, id, from, to, groupBy);
      var labels := LabelsOf(GranularityOf(groupBy), Window(AllTimes(log, id), from, to));
      && (forall d :: CountFor(s.scansByPeriod, d) == multiset(labels)[d])
      && |s.scansByPeriod| == |set d | d in labels|
  {
    var s := GetStats(log, id, from, to, groupBy);
    AscendingDateSetSize(s.scansByPeriod);
  }

  /** The statistics of a QR depend only on its scan times. */
  lemma StatsFollowTimes(log1: seq<Scan>, log2: seq<Scan>, id: string,
                         from: Option<int>, to: Option<int>, groupBy: Option<string>)
    requires AllTimes(log1, id) == AllTimes(log2, id)
    ensures GetStats(log1, id, from, to, groupBy) == GetStats(log2, id, from, to, groupBy)
  {
    assert ScanCount(log1, id) == ScanCount(log2, id);
    assert FirstScan(log1, id) == FirstScan(log2, id);
    assert LastScan(log1, id) == LastScan(log2, id);
  }

  /** A scan of `id` adds one to its total, leaves every other QR's statistics alone. */
  lemma {:induction false} StatsAfterScan(log: seq<Scan>, id: string, t: int, other: string,
                                          from: Option<int>, to: Option<int>, groupBy: Option<string>)
    requires other != id
    ensures GetStats(log + [Scan(id, t)], id, from, to, groupBy).totalScans
         == GetStats(log, id, from, to, groupBy).totalScans + 1
    ensures GetStats(log + [Scan(id, t)], other, from, to, groupBy) == GetStats(log, other, from, to, groupBy)
  {
    ScanCountAppend(log, Scan(id, t));
    AllTimesAppend(log, Scan(id, t), other);
    StatsFollowTimes(log + [Scan(id, t)], log, other, from, to, groupBy);
  }

  /** Once the scans of `id` are deleted its statistics are empty, and every other QR's are unchanged. */
  lemma StatsAfterDelete(log: seq<Scan>, id: string, other: string,
                         from: Option<int>, to: Option<int>, groupBy: Option<string>)
    requires other != id
    ensures GetStats(RemoveScansOf(log, id), id, from, to, groupBy) == Stats(0, None, None, [], [])
    ensures GetStats(RemoveScansOf(log, id), other, from, to, groupBy) == GetStats(log, other, from, to, groupBy)
  {
    RemoveKeepsOtherTimes(log, id, other);
    StatsFollowTimes(RemoveScansOf(log, id), log, other, from, to, groupBy);
  }
}
