/**
 The freeze watcher: it polls the console for ever, and reports once when a condition has been stuck for too long.
 A run is an infinite sequence of polls.
 */
module FreezeWatch {
  import opened TraceTypes

  const TX_STALL_SECONDS: nat := 3
  const RX_STALL_SECONDS: nat := 4

  /**
   What one poll reads: the counter, `tx_stuck` and `rx_stuck`, and whether the second look found the output
   drained and the receiver empty. The looks are separate reads, so they may disagree.
   */
  datatype Sample = Sample(now: u64, tx: bool, rx: bool, clear: bool)

  type Polls = nat -> Sample

  /** The counter is positive and never runs backwards. */
  ghost predicate Clock(h: Polls) {
    && (forall i: nat :: h(i).now > 0)
    && forall i: nat, j: nat :: i <= j ==> h(i).now <= h(j).now
  }

  datatype Line = Tx | Rx

  function Stuck(s: Sample, l: Line): bool {
    if l == Tx then s.tx else s.rx
  }

  function Limit(freq: u64, l: Line): u64 {
    freq * (if l == Tx then TX_STALL_SECONDS else RX_STALL_SECONDS) % TWO64
  }

  /** Three seconds for output that does not drain, four for input that is not read. */
  lemma {:induction false} LimitSeconds(freq: u64, h: Polls, i: nat)
    requires 4 * freq < TWO64
    ensures Limit(freq, Tx) == 3 * freq && Limit(freq, Rx) == 4 * freq
    ensures Stuck(h(i), Tx) == h(i).tx && Stuck(h(i), Rx) == h(i).rx
  {
  }

  // ---------------------------------------------------------------- what a report means

  ghost predicate StuckThrough(h: Polls, l: Line, from: nat, to: nat) {
    from <= to && forall k: nat :: from <= k <= to ==> Stuck(h(k), l)
  }

  /** A window at least as long as the limit ends at poll `i`, and every poll in it found the line stuck. */
  ghost predicate Frozen(h: Polls, freq: u64, l: Line, i: nat) {
    exists from: nat :: StuckThrough(h, l, from, i) && h(i).now - h(from).now >= Limit(freq, l)
  }

  /** No poll after `r`, up to and including `i`, found the console clear. */
  ghost predicate NotClearSince(h: Polls, r: nat, i: nat) {
    forall k: nat :: r < k <= i ==> !h(k).clear
  }

  /** Poll `i` reports: a line is frozen, and the console has been clear since every earlier report. */
  ghost predicate Reports(h: Polls, freq: u64, i: nat)
    decreases i
  {
    && (Frozen(h, freq, Tx, i) || Frozen(h, freq, Rx, i))
    && forall r: nat {:trigger NotClearSince(h, r, i)} :: r < i && Reports(h, freq, r) ==> !NotClearSince(h, r, i)
  }

  // ---------------------------------------------------------------- the watcher

  /** `since` is zero when the last poll did not find the line stuck, and otherwise when the present run began. */
  ghost predicate Tracks(since: u64, h: Polls, l: Line, n: nat) {
    if n == 0 || !Stuck(h(n - 1), l) then since == 0
    else exists from: nat :: RunStart(h, l, from, n - 1) && since == h(from).now
  }

  ghost predicate RunStart(h: Polls, l: Line, from: nat, i: nat) {
    StuckThrough(h, l, from, i) && (from == 0 || !Stuck(h(from - 1), l))
  }

  lemma {:induction false} RunGoesOn(since: u64, h: Polls, l: Line, n: nat) returns (from: nat)
    requires Clock(h) && Tracks(since, h, l, n) && Stuck(h(n), l)
    ensures RunStart(h, l, from, n) && h(from).now == (if since == 0 then h(n).now else since) <= h(n).now
    ensures Tracks(h(from).now, h, l, n + 1)
  {
    if since == 0 {
      from := n;
    } else {
      from :| RunStart(h, l, from, n - 1) && since == h(from).now;
    }
    assert RunStart(h, l, from, n);
  }

  lemma {:induction false} NotFrozen(h: Polls, freq: u64, l: Line, n: nat)
    requires !Stuck(h(n), l)
    ensures !Frozen(h, freq, l, n) && Tracks(0, h, l, n + 1)
  {
  }

  lemma {:induction false} SubExact(x: u64, y: u64)
    requires y <= x
    ensures Sub64(x, y) == x - y
  {
  }

  /** A window longer than the present run would hold a poll that was not stuck. */
  lemma {:induction false} LongestWindow(h: Polls, freq: u64, l: Line, from: nat, i: nat)
    requires Clock(h) && RunStart(h, l, from, i)
    ensures Frozen(h, freq, l, i) <==> h(i).now - h(from).now >= Limit(freq, l)
  {
    if Frozen(h, freq, l, i) {
      var other: nat :| StuckThrough(h, l, other, i) && h(i).now - h(other).now >= Limit(freq, l);
      assert other >= from;
    }
  }

  class Stall {
    var since: u64
    const limit: u64

    constructor (limit: u64)
      ensures since == 0 && this.limit == limit
    {
      since := 0;
      this.limit := limit;
    }

    /** `stalled` says whether the line is frozen at this poll. */
    method Stalled(stuck: bool, now: u64, ghost h: Polls, ghost freq: u64, ghost l: Line, ghost n: nat) returns (fired: bool)
      requires Clock(h) && limit == Limit(freq, l) && Tracks(since, h, l, n)
      requires stuck == Stuck(h(n), l) && now == h(n).now
      modifies this
      ensures Tracks(since, h, l, n + 1)
      ensures fired <==> Frozen(h, freq, l, n)
    {
      if !stuck {
        NotFrozen(h, freq, l, n);
        since := 0;
        return false;
      }
      ghost var from := RunGoesOn(since, h, l, n);
      LongestWindow(h, freq, l, from, n);
      if since == 0 {
        since := now;
      }
      SubExact(now, since);
      fired := Sub64(now, since) >= limit;
    }
  }

  class Watch {
    const tx: Stall
    const rx: Stall
    var reported: bool

    ghost predicate Valid(h: Polls, freq: u64, n: nat)
      reads this, tx, rx
    {
      && tx != rx && tx.limit == Limit(freq, Tx) && rx.limit == Limit(freq, Rx)
      && Tracks(tx.since, h, Tx, n) && Tracks(rx.since, h, Rx, n)
      && (reported <==> Latched(h, freq, n))
    }

    constructor (freq: u64, ghost h: Polls)
      ensures Valid(h, freq, 0) && fresh(tx) && fresh(rx)
    {
      tx := new Stall(freq * TX_STALL_SECONDS % TWO64);
      rx := new Stall(freq * RX_STALL_SECONDS % TWO64);
      reported := false;
    }

    /** One round of `watch_forever`: it reports exactly when it should, and names the line that is frozen. */
    method Poll(s: Sample, ghost h: Polls, ghost freq: u64, ghost n: nat) returns (report: Option<Line>)
      requires Clock(h) && s == h(n) && Valid(h, freq, n)
      modifies this, tx, rx
      ensures Valid(h, freq, n + 1)
      ensures report.Some? <==> Reports(h, freq, n)
      ensures report.Some? ==> Frozen(h, freq, report.value, n) && (report.value.Tx? ==> !Frozen(h, freq, Rx, n))
    {
      var txFired := tx.Stalled(s.tx, s.now, h, freq, Tx, n);
      var rxFired := rx.Stalled(s.rx, s.now, h, freq, Rx, n);
      ReportStep(h, freq, n);
      LatchStep(h, freq, n);
      report := None;
      if s.clear {
        reported := false;
      }
      if !reported && (txFired || rxFired) {
        report := Some(if rxFired then Rx else Tx);
        reported := true;
      }
    }
  }

  /** What poll `i` should say. */
  ghost predicate Right(report: Option<Line>, h: Polls, freq: u64, i: nat) {
    && (report.Some? <==> Reports(h, freq, i))
    && (report.Some? ==> Frozen(h, freq, report.value, i))
  }

  ghost predicate AllRight(reports: seq<Option<Line>>, h: Polls, freq: u64) {
    forall i: nat {:trigger reports[i]} :: i < |reports| ==> Right(reports[i], h, freq, i)
  }

  lemma {:induction false} OneMoreRight(reports: seq<Option<Line>>, report: Option<Line>, h: Polls, freq: u64)
    requires AllRight(reports, h, freq) && Right(report, h, freq, |reports|)
    ensures AllRight(reports + [report], h, freq)
  {
    var all := reports + [report];
    forall i: nat | i < |all|
      ensures Right(all[i], h, freq, i)
    {
      if i < |reports| {
        assert all[i] == reports[i];
      } else {
        assert all[i] == report;
      }
    }
  }

  /** Between two reports some poll saw the console clear. */
  ghost predicate ClearBetween(reports: seq<Option<Line>>, h: Polls) {
    forall i: nat, j: nat :: i < j < |reports| && reports[i].Some? && reports[j].Some? ==> !NotClearSince(h, i, j)
  }

  /** A freeze is never missed: at a frozen poll there is a report, now or since the console was last clear. */
  ghost predicate NoneMissed(reports: seq<Option<Line>>, h: Polls, freq: u64) {
    forall i: nat, l: Line :: i < |reports| && Frozen(h, freq, l, i) ==>
      exists r: nat :: r <= i && reports[r].Some? && NotClearSince(h, r, i)
  }

  /** Reports name frozen lines. */
  ghost predicate NoneFalse(reports: seq<Option<Line>>, h: Polls, freq: u64) {
    forall i: nat :: i < |reports| && reports[i].Some? ==> Frozen(h, freq, reports[i].value, i)
  }

  lemma {:induction false} ClearBetweenReports(reports: seq<Option<Line>>, h: Polls, freq: u64)
    requires AllRight(reports, h, freq)
    ensures ClearBetween(reports, h)
  {
    forall i: nat, j: nat | i < j < |reports| && reports[i].Some? && reports[j].Some?
      ensures !NotClearSince(h, i, j)
    {
      assert Right(reports[i], h, freq, i) && Right(reports[j], h, freq, j);
      assert Reports(h, freq, i) && Reports(h, freq, j);
    }
  }

  lemma {:induction false} FreezeIsReported(reports: seq<Option<Line>>, h: Polls, freq: u64)
    requires AllRight(reports, h, freq)
    ensures NoneMissed(reports, h, freq)
  {
    forall i: nat, l: Line | i < |reports| && Frozen(h, freq, l, i)
      ensures exists r: nat :: r <= i && reports[r].Some? && NotClearSince(h, r, i)
    {
      var r := ReportOf(h, freq, l, i);
      assert Right(reports[r], h, freq, r);
    }
  }

  lemma {:induction false} ReportOf(h: Polls, freq: u64, l: Line, i: nat) returns (r: nat)
    requires Frozen(h, freq, l, i)
    ensures r <= i && Reports(h, freq, r) && NotClearSince(h, r, i)
  {
    assert l == Tx || l == Rx;
    if Reports(h, freq, i) {
      r := i;
    } else {
      r :| r < i && Reports(h, freq, r) && NotClearSince(h, r, i);
    }
  }

  lemma {:induction false} ReportsAreTrue(reports: seq<Option<Line>>, h: Polls, freq: u64)
    requires AllRight(reports, h, freq)
    ensures NoneFalse(reports, h, freq)
  {
    forall i: nat | i < |reports| && reports[i].Some?
      ensures Frozen(h, freq, reports[i].value, i)
    {
      assert Right(reports[i], h, freq, i);
    }
  }

  /** The three say exactly when there is a report: two watchers that keep them report at the same polls. */
  lemma {:induction false} ReportsDetermined(a: seq<Option<Line>>, b: seq<Option<Line>>, h: Polls, freq: u64, i: nat)
    requires NoneFalse(a, h, freq) && NoneMissed(a, h, freq) && ClearBetween(a, h)
    requires NoneFalse(b, h, freq) && NoneMissed(b, h, freq) && ClearBetween(b, h)
    requires i < |a| == |b|
    ensures a[i].Some? == b[i].Some?
    decreases i
  {
    if a[i].Some? && b[i].None? {
      ReportedByBoth(a, b, h, freq, i);
    } else if b[i].Some? && a[i].None? {
      ReportedByBoth(b, a, h, freq, i);
    }
  }

  lemma {:induction false} ReportedByBoth(a: seq<Option<Line>>, b: seq<Option<Line>>, h: Polls, freq: u64, i: nat)
    requires NoneFalse(a, h, freq) && NoneMissed(a, h, freq) && ClearBetween(a, h)
    requires NoneFalse(b, h, freq) && NoneMissed(b, h, freq) && ClearBetween(b, h)
    requires i < |a| == |b| && a[i].Some?
    ensures b[i].Some?
    decreases i
  {
    assert Frozen(h, freq, a[i].value, i);
    var r: nat :| r <= i && b[r].Some? && NotClearSince(h, r, i);
    if r < i {
      ReportedByBoth(b, a, h, freq, r);
    }
  }

  /** `watch_forever`, for its first `n` polls. */
  method WatchFor(freq: u64, h: Polls, n: nat) returns (reports: seq<Option<Line>>)
    requires Clock(h)
    ensures |reports| == n
    ensures NoneFalse(reports, h, freq) && NoneMissed(reports, h, freq) && ClearBetween(reports, h)
  {
    var watch := new Watch(freq, h);
    reports := [];
    for i := 0 to n
      invariant |reports| == i && AllRight(reports, h, freq)
      invariant watch.Valid(h, freq, i) && fresh(watch) && fresh(watch.tx) && fresh(watch.rx)
    {
      var report := watch.Poll(h(i), h, freq, i);
      OneMoreRight(reports, report, h, freq);
      reports := reports + [report];
    }
    ReportsAreTrue(reports, h, freq);
    FreezeIsReported(reports, h, freq);
    ClearBetweenReports(reports, h, freq);
  }

  /** Before poll `n` there was a report, and the console has not been clear since. */
  ghost predicate Latched(h: Polls, freq: u64, n: nat) {
    exists r: nat {:trigger NotClearSince(h, r, n - 1)} :: r < n && Reports(h, freq, r) && NotClearSince(h, r, n - 1)
  }

  lemma {:induction false} ReportStep(h: Polls, freq: u64, n: nat)
    ensures Reports(h, freq, n) <==>
            (Frozen(h, freq, Tx, n) || Frozen(h, freq, Rx, n)) && (h(n).clear || !Latched(h, freq, n))
  {
    if Latched(h, freq, n) && !h(n).clear {
      var r: nat :| r < n && Reports(h, freq, r) && NotClearSince(h, r, n - 1);
      assert NotClearSince(h, r, n);
    }
    forall r: nat | r < n && NotClearSince(h, r, n)
      ensures !h(n).clear && NotClearSince(h, r, n - 1)
    {
    }
  }

  lemma {:induction false} LatchHolds(h: Polls, freq: u64, n: nat)
    requires Reports(h, freq, n) || (Latched(h, freq, n) && !h(n).clear)
    ensures Latched(h, freq, n + 1)
  {
    var r := if Reports(h, freq, n) then n else LatchedBy(h, freq, n);
    StaysUnclear(h, r, n);
    LatchedFrom(h, freq, r, n + 1);
  }

  lemma {:induction false} StaysUnclear(h: Polls, r: nat, n: nat)
    requires r <= n && (r < n ==> NotClearSince(h, r, n - 1) && !h(n).clear)
    ensures NotClearSince(h, r, n)
  {
  }

  lemma {:induction false} LatchedFrom(h: Polls, freq: u64, r: nat, m: nat)
    requires r < m && Reports(h, freq, r) && NotClearSince(h, r, m - 1)
    ensures Latched(h, freq, m)
  {
  }

  /** The report that has not been followed by a clear poll. */
  ghost function LatchedBy(h: Polls, freq: u64, n: nat): (r: nat)
    requires Latched(h, freq, n)
    ensures r < n && Reports(h, freq, r) && NotClearSince(h, r, n - 1)
  {
    var r: nat :| r < n && Reports(h, freq, r) && NotClearSince(h, r, n - 1);
    r
  }

  lemma {:induction false} LatchWas(h: Polls, freq: u64, n: nat)
    requires Latched(h, freq, n + 1) && !Reports(h, freq, n)
    ensures Latched(h, freq, n) && !h(n).clear
  {
    var r := LatchedBy(h, freq, n + 1);
    UnclearBefore(h, r, n);
    LatchedFrom(h, freq, r, n);
  }

  lemma {:induction false} UnclearBefore(h: Polls, r: nat, n: nat)
    requires r < n && NotClearSince(h, r, n)
    ensures NotClearSince(h, r, n - 1) && !h(n).clear
  {
  }

  lemma {:induction false} LatchStep(h: Polls, freq: u64, n: nat)
    ensures Latched(h, freq, n + 1) <==> Reports(h, freq, n) || (Latched(h, freq, n) && !h(n).clear)
  {
    if Reports(h, freq, n) || (Latched(h, freq, n) && !h(n).clear) {
      LatchHolds(h, freq, n);
    } else if Latched(h, freq, n + 1) {
      LatchWas(h, freq, n);
    }
  }
}
