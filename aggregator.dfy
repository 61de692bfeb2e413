/**
 * The results accumulator of app.js (reportTotalIfReady) and the status branch of the
 * scrape callback (scrapeDownloadCountFromUrl) that decides whether a count reaches it,
 * stated as functions on a Tally: the `results` map plus the log of emitted reports.
 * App.Updater performs the same steps on its fields.
 */
module Aggregator {

  /** A count extracted from one scraped page, delivered for one add-on. */
  datatype Arrival = Arrival(addon: string, count: int)

  /** One emitted total: the log line, and whether it was also handed to the REST hook. */
  datatype Report = Report(addon: string, total: int, forwarded: bool)

  /** The accumulator's state: stored count per add-on, and every report so far. */
  datatype Tally = Tally(results: map<string, int>, reports: seq<Report>)

  /** What a finished page request yields: its HTTP status and the count extracted from the body. */
  datatype Response = Response(addon: string, status: int, count: int)

  /** The count stored for an add-on, 0 while it is absent. */
  function Stored(t: Tally, n: string): (v: int) {
    if n in t.results then t.results[n] else 0
  }

  /**
   * One count arrives. The first for a name is stored silently; any later one is added
   * to the stored value and the new total is reported once.
   */
  function Arrive(t: Tally, a: Arrival, forward: bool): (r: Tally)
    ensures r.results.Keys == t.results.Keys + {a.addon}
    ensures r.results[a.addon] == Stored(t, a.addon) + a.count
    ensures forall n :: n in t.results && n != a.addon ==> r.results[n] == t.results[n]
    ensures a.addon !in t.results ==> r.reports == t.reports
    ensures a.addon in t.results ==> r.reports == t.reports + [Report(a.addon, r.results[a.addon], forward)]
  {
    if a.addon !in t.results then
      Tally(t.results[a.addon := a.count], t.reports)
    else
      var total := t.results[a.addon] + a.count;
      Tally(t.results[a.addon := total], t.reports + [Report(a.addon, total, forward)])
  }

  /** The state after the arrivals, in order. */
  function Run(t: Tally, arrivals: seq<Arrival>, forward: bool): (r: Tally) {
    if arrivals == [] then t
    else Arrive(Run(t, arrivals[..|arrivals| - 1], forward), arrivals[|arrivals| - 1], forward)
  }

  /** How many of the arrivals are for add-on n. */
  function CountOf(arrivals: seq<Arrival>, n: string): (k: nat) {
    if arrivals == [] then 0
    else CountOf(arrivals[..|arrivals| - 1], n) + (if arrivals[|arrivals| - 1].addon == n then 1 else 0)
  }

  /** The sum of the counts that arrive for add-on n. */
  function SumOf(arrivals: seq<Arrival>, n: string): (sum: int) {
    if arrivals == [] then 0
    else
      var last := arrivals[|arrivals| - 1];
      SumOf(arrivals[..|arrivals| - 1], n) + (if last.addon == n then last.count else 0)
  }

  /** The reports about add-on n, in emission order. */
  function ReportsOf(rs: seq<Report>, n: string): (ofN: seq<Report>) {
    if rs == [] then []
    else ReportsOf(rs[..|rs| - 1], n) + (if rs[|rs| - 1].addon == n then [rs[|rs| - 1]] else [])
  }

  /** Appending a report extends n's reports by it exactly when it is about n (by unfolding ReportsOf). */
  lemma ReportsOfSnoc(rs: seq<Report>, r: Report, n: string)
    ensures ReportsOf(rs + [r], n) == ReportsOf(rs, n) + (if r.addon == n then [r] else [])
  {
  }

  /** How many reports arrivals for n produce: one per arrival except a first one into an absent slot. */
  function NewReports(t: Tally, arrivals: seq<Arrival>, n: string): (k: nat) {
    if n in t.results then CountOf(arrivals, n)
    else if CountOf(arrivals, n) == 0 then 0
    else CountOf(arrivals, n) - 1
  }

  /**
   * Whatever the interleaving, the stored value for n is what it held before plus the
   * sum of the counts that arrived for it, and n is present once any count has arrived.
   */
  lemma {:induction false} RunStored(t: Tally, arrivals: seq<Arrival>, forward: bool, n: string)
    ensures n in Run(t, arrivals, forward).results <==> n in t.results || CountOf(arrivals, n) > 0
    ensures Stored(Run(t, arrivals, forward), n) == Stored(t, n) + SumOf(arrivals, n)
  {
    if arrivals != [] {
      RunStored(t, arrivals[..|arrivals| - 1], forward, n);
    }
  }

  /** Arrivals for other names leave n's entry and n's reports exactly as they were. */
  lemma {:induction false} RunOthersUntouched(t: Tally, arrivals: seq<Arrival>, forward: bool, n: string)
    requires CountOf(arrivals, n) == 0
    ensures n in Run(t, arrivals, forward).results <==> n in t.results
    ensures n in t.results ==> Run(t, arrivals, forward).results[n] == t.results[n]
    ensures ReportsOf(Run(t, arrivals, forward).reports, n) == ReportsOf(t.reports, n)
  {
    if arrivals != [] {
      var init := arrivals[..|arrivals| - 1];
      var last := arrivals[|arrivals| - 1];
      RunOthersUntouched(t, init, forward, n);
      var before := Run(t, init, forward);
      if last.addon in before.results {
        ReportsOfSnoc(before.reports, Report(last.addon, Stored(before, last.addon) + last.count, forward), n);
      }
    }
  }

  /**
   * Reports are only ever appended, and n gets one per arrival, except that the first
   * arrival into an absent slot is silent: two arrivals report once, three report twice.
   */
  lemma {:induction false} RunReportCount(t: Tally, arrivals: seq<Arrival>, forward: bool, n: string)
    ensures t.reports <= Run(t, arrivals, forward).reports
    ensures |ReportsOf(Run(t, arrivals, forward).reports, n)| == |ReportsOf(t.reports, n)| + NewReports(t, arrivals, n)
  {
    if arrivals != [] {
      var init := arrivals[..|arrivals| - 1];
      var last := arrivals[|arrivals| - 1];
      RunReportCount(t, init, forward, n);
      RunStored(t, init, forward, n);
      var before := Run(t, init, forward);
      if last.addon in before.results {
        ReportsOfSnoc(before.reports, Report(last.addon, Stored(before, last.addon) + last.count, forward), n);
      }
    }
  }

  /** With at most one count arrived for an absent name, nothing has been reported for it. */
  lemma {:induction false} SingleArrivalSilent(t: Tally, arrivals: seq<Arrival>, forward: bool, n: string)
    requires n !in t.results
    requires CountOf(arrivals, n) <= 1
    ensures ReportsOf(Run(t, arrivals, forward).reports, n) == ReportsOf(t.reports, n)
  {
    if arrivals != [] {
      var init := arrivals[..|arrivals| - 1];
      var last := arrivals[|arrivals| - 1];
      SingleArrivalSilent(t, init, forward, n);
      var before := Run(t, init, forward);
      if last.addon in before.results {
        if last.addon == n {
          RunStored(t, init, forward, n);
        }
        ReportsOfSnoc(before.reports, Report(last.addon, Stored(before, last.addon) + last.count, forward), n);
      }
    }
  }

  /**
   * Exactly-once reporting: when precisely two counts arrive for an absent name, amid any
   * arrivals for other names, exactly one report for it is emitted and it carries their sum.
   */
  lemma {:induction false} TwoArrivalsReportOnce(t: Tally, arrivals: seq<Arrival>, forward: bool, n: string)
    requires n !in t.results
    requires CountOf(arrivals, n) == 2
    ensures ReportsOf(Run(t, arrivals, forward).reports, n) == ReportsOf(t.reports, n) + [Report(n, SumOf(arrivals, n), forward)]
  {
    var init := arrivals[..|arrivals| - 1];
    var last := arrivals[|arrivals| - 1];
    var before := Run(t, init, forward);
    assert Run(t, arrivals, forward) == Arrive(before, last, forward);
    if last.addon == n {
      assert CountOf(init, n) == 1;
      SingleArrivalSilent(t, init, forward, n);
      RunStored(t, init, forward, n);
      var rep := Report(n, Stored(before, n) + last.count, forward);
      assert Arrive(before, last, forward).reports == before.reports + [rep];
      ReportsOfSnoc(before.reports, rep, n);
    } else {
      assert CountOf(init, n) == 2;
      TwoArrivalsReportOnce(t, init, forward, n);
      if last.addon in before.results {
        ReportsOfSnoc(before.reports, Report(last.addon, Stored(before, last.addon) + last.count, forward), n);
      }
    }
  }

  /** Two counts for an absent name give the same state in either order: one report of a + b. */
  lemma ArrivalOrderIrrelevant(t: Tally, n: string, a: int, b: int, forward: bool)
    requires n !in t.results
    ensures Run(t, [Arrival(n, a), Arrival(n, b)], forward) == Run(t, [Arrival(n, b), Arrival(n, a)], forward)
    ensures Run(t, [Arrival(n, a), Arrival(n, b)], forward) == Tally(t.results[n := a + b], t.reports + [Report(n, a + b, forward)])
  {
    assert [Arrival(n, a), Arrival(n, b)][..1] == [Arrival(n, a)];
    assert [Arrival(n, b), Arrival(n, a)][..1] == [Arrival(n, b)];
    assert [Arrival(n, a)][..0] == [] && [Arrival(n, b)][..0] == [];
    assert Run(t, [Arrival(n, a)], forward) == Tally(t.results[n := a], t.reports);
    assert Run(t, [Arrival(n, b)], forward) == Tally(t.results[n := b], t.reports);
    assert t.results[n := a][n := a + b] == t.results[n := b][n := b + a];
  }

  /** Add-on n's latest report, if any, carries the total currently stored for it. */
  ghost predicate ReportCurrent(t: Tally, n: string) {
    var rs := ReportsOf(t.reports, n);
    rs != [] ==> n in t.results && rs[|rs| - 1].total == t.results[n]
  }

  /** Every add-on's latest report carries the total currently stored for it. */
  ghost predicate ReportsCurrent(t: Tally) {
    forall n :: ReportCurrent(t, n)
  }

  /** One arrival keeps n's latest report current (by unfolding Arrive and ReportsOf). */
  lemma ArriveKeepsReportCurrent(t: Tally, a: Arrival, forward: bool, n: string)
    requires ReportCurrent(t, n)
    ensures ReportCurrent(Arrive(t, a, forward), n)
  {
  }

  lemma ArrivePreservesReportsCurrent(t: Tally, a: Arrival, forward: bool)
    requires ReportsCurrent(t)
    ensures ReportsCurrent(Arrive(t, a, forward))
  {
    forall n ensures ReportCurrent(Arrive(t, a, forward), n) {
      ArriveKeepsReportCurrent(t, a, forward, n);
    }
  }

  /** Running any arrivals keeps every latest report equal to the stored total. */
  lemma {:induction false} RunPreservesReportsCurrent(t: Tally, arrivals: seq<Arrival>, forward: bool)
    requires ReportsCurrent(t)
    ensures ReportsCurrent(Run(t, arrivals, forward))
  {
    if arrivals != [] {
      RunPreservesReportsCurrent(t, arrivals[..|arrivals| - 1], forward);
      ArrivePreservesReportsCurrent(Run(t, arrivals[..|arrivals| - 1], forward), arrivals[|arrivals| - 1], forward);
    }
  }

  /**
   * The scrape callback: only a 200 response hands its count to the accumulator, and
   * then only the responding add-on's entry and reports can change.
   */
  function Respond(t: Tally, resp: Response, forward: bool): (r: Tally)
    ensures t.reports <= r.reports
    ensures forall n :: n != resp.addon || resp.status != 200 ==>
      (n in r.results <==> n in t.results) && Stored(r, n) == Stored(t, n) &&
      ReportsOf(r.reports, n) == ReportsOf(t.reports, n)
    ensures resp.status == 200 ==>
      resp.addon in r.results && Stored(r, resp.addon) == Stored(t, resp.addon) + resp.count
    ensures resp.status == 200 && resp.addon !in t.results ==> r.reports == t.reports
    ensures resp.status == 200 && resp.addon in t.results ==>
      r.reports == t.reports + [Report(resp.addon, Stored(r, resp.addon), forward)]
  {
    if resp.status == 200 then Arrive(t, Arrival(resp.addon, resp.count), forward) else t
  }

  /** The state after the responses complete, in order. */
  function Replay(t: Tally, rs: seq<Response>, forward: bool): (r: Tally) {
    if rs == [] then t
    else Respond(Replay(t, rs[..|rs| - 1], forward), rs[|rs| - 1], forward)
  }

  /** The counts that reach the accumulator: those of the 200 responses, in order. */
  function Delivered(rs: seq<Response>): (arrivals: seq<Arrival>) {
    if rs == [] then []
    else
      var last := rs[|rs| - 1];
      Delivered(rs[..|rs| - 1]) + (if last.status == 200 then [Arrival(last.addon, last.count)] else [])
  }

  /** How many responses concern add-on n. */
  function Answers(rs: seq<Response>, n: string): (k: nat) {
    if rs == [] then 0
    else Answers(rs[..|rs| - 1], n) + (if rs[|rs| - 1].addon == n then 1 else 0)
  }

  /** Replaying responses is running the delivered counts: non-200 responses are dropped. */
  lemma {:induction false} ReplayIsRunOfDelivered(t: Tally, rs: seq<Response>, forward: bool)
    ensures Replay(t, rs, forward) == Run(t, Delivered(rs), forward)
  {
    if rs != [] {
      var init := rs[..|rs| - 1];
      var last := rs[|rs| - 1];
      ReplayIsRunOfDelivered(t, init, forward);
      if last.status == 200 {
        var d := Delivered(init) + [Arrival(last.addon, last.count)];
        assert d[..|d| - 1] == Delivered(init);
      } else {
        assert Delivered(rs) == Delivered(init);
      }
    }
  }

  /** Delivered counts for n never outnumber the responses for n, and a failed one loses one. */
  lemma {:induction false} DeliveredCount(rs: seq<Response>, n: string, i: nat)
    requires i < |rs| && rs[i].addon == n && rs[i].status != 200
    ensures CountOf(Delivered(rs), n) < Answers(rs, n)
  {
    var init := rs[..|rs| - 1];
    var last := rs[|rs| - 1];
    assert rs == init + [last];
    DeliveredSnoc(init, last);
    if i < |rs| - 1 {
      assert init[i] == rs[i];
      DeliveredCount(init, n, i);
    } else {
      DeliveredAtMost(init, n);
    }
  }

  lemma DeliveredSnoc(rs: seq<Response>, r: Response)
    ensures CountOf(Delivered(rs + [r]), r.addon) == CountOf(Delivered(rs), r.addon) + (if r.status == 200 then 1 else 0)
    ensures forall n :: n != r.addon ==> CountOf(Delivered(rs + [r]), n) == CountOf(Delivered(rs), n)
  {
    assert (rs + [r])[..|rs|] == rs;
    if r.status == 200 {
      var d := Delivered(rs) + [Arrival(r.addon, r.count)];
      assert Delivered(rs + [r]) == d;
      assert d[..|d| - 1] == Delivered(rs);
    } else {
      assert Delivered(rs + [r]) == Delivered(rs);
    }
  }

  lemma {:induction false} DeliveredAtMost(rs: seq<Response>, n: string)
    ensures CountOf(Delivered(rs), n) <= Answers(rs, n)
  {
    if rs != [] {
      var init := rs[..|rs| - 1];
      var last := rs[|rs| - 1];
      DeliveredAtMost(init, n);
      DeliveredSnoc(init, last);
    }
  }

  /**
   * Silent non-completion: if one of an add-on's two page requests comes back with a
   * status other than 200, the add-on is never reported, whatever else completes.
   */
  lemma FailedFetchNeverReported(t: Tally, rs: seq<Response>, forward: bool, n: string, i: nat)
    requires n !in t.results
    requires Answers(rs, n) <= 2
    requires i < |rs| && rs[i].addon == n && rs[i].status != 200
    ensures ReportsOf(Replay(t, rs, forward).reports, n) == ReportsOf(t.reports, n)
  {
    ReplayIsRunOfDelivered(t, rs, forward);
    DeliveredCount(rs, n, i);
    SingleArrivalSilent(t, Delivered(rs), forward, n);
  }

  /** If every response for n is a 200, every one of them delivers its count. */
  lemma {:induction false} DeliveredAllOk(rs: seq<Response>, n: string)
    requires forall i :: 0 <= i < |rs| && rs[i].addon == n ==> rs[i].status == 200
    ensures CountOf(Delivered(rs), n) == Answers(rs, n)
  {
    if rs != [] {
      var init := rs[..|rs| - 1];
      var last := rs[|rs| - 1];
      assert forall i :: 0 <= i < |init| ==> init[i] == rs[i];
      DeliveredAllOk(init, n);
      assert rs == init + [last];
      DeliveredSnoc(init, last);
    }
  }

  /** Starting from an empty accumulator, an add-on answered at most twice is reported at most once. */
  lemma ReplayReportsAtMostOnce(rs: seq<Response>, forward: bool, n: string)
    requires Answers(rs, n) <= 2
    ensures |ReportsOf(Replay(Tally(map[], []), rs, forward).reports, n)| <= 1
  {
    var t := Tally(map[], []);
    ReplayIsRunOfDelivered(t, rs, forward);
    DeliveredAtMost(rs, n);
    RunReportCount(t, Delivered(rs), forward, n);
  }

  /**
   * Starting from an empty accumulator, an add-on whose two requests both answer 200 is
   * reported exactly once, with the sum of the two counts, and forwarded as configured.
   */
  lemma ReplayBothOkReportsSum(rs: seq<Response>, forward: bool, n: string)
    requires Answers(rs, n) == 2
    requires forall i :: 0 <= i < |rs| && rs[i].addon == n ==> rs[i].status == 200
    ensures ReportsOf(Replay(Tally(map[], []), rs, forward).reports, n) == [Report(n, SumOf(Delivered(rs), n), forward)]
  {
    var t := Tally(map[], []);
    ReplayIsRunOfDelivered(t, rs, forward);
    DeliveredAllOk(rs, n);
    TwoArrivalsReportOnce(t, Delivered(rs), forward, n);
  }
}
