/**
 * The script's module-level state and the two routines that update it in place:
 * parseJsonFile, which validates entries and starts scrapes as it goes, and
 * reportTotalIfReady, reached from the scrape callback on a 200 response.
 * Starting a scrape and emitting a report are recorded in ghost logs. A validation error
 * is thrown, uncaught, inside the file-read callback and ends the process; the ghost flag
 * `halted` records that no further callback runs after it.
 */
module App {
  import opened Wrappers
  import opened Config
  import opened Aggregator

  /** JavaScript truthiness of the `url` option: given and not the empty string. */
  function Truthy(url: Option<string>): (b: bool) {
    url.Some? && url.value != ""
  }

  /** Appending a scrape raises the count for its add-on by one (by unfolding ScrapesFor). */
  lemma ScrapesForSnoc(ss: seq<Scrape>, s: Scrape)
    ensures forall n :: ScrapesFor(ss + [s], n) == ScrapesFor(ss, n) + (if s.addon == n then 1 else 0)
  {
  }

  /** Taking out the k-th pending request lowers the count for its add-on by one. */
  lemma ScrapesForRemove(ss: seq<Scrape>, k: nat)
    requires k < |ss|
    ensures forall n :: ScrapesFor(ss, n) == ScrapesFor(ss[..k] + ss[k + 1..], n) + (if ss[k].addon == n then 1 else 0)
  {
    forall n
      ensures ScrapesFor(ss, n) == ScrapesFor(ss[..k] + ss[k + 1..], n) + (if ss[k].addon == n then 1 else 0)
    {
      assert ss == (ss[..k] + [ss[k]]) + ss[k + 1..];
      ScrapesForAppend(ss[..k] + [ss[k]], ss[k + 1..], n);
      ScrapesForAppend(ss[..k], ss[k + 1..], n);
      ScrapesForSnoc(ss[..k], ss[k]);
    }
  }

  /** Appending a response raises the count for its add-on by one (by unfolding Answers). */
  lemma AnswersSnoc(rs: seq<Response>, r: Response)
    ensures forall n :: Answers(rs + [r], n) == Answers(rs, n) + (if r.addon == n then 1 else 0)
  {
  }

  class Updater {
    /** The REST base URL from the command line, if any. */
    const url: Option<string>
    /** Add-on name to its two page URLs. */
    var sourceUrls: map<string, SourceUrls>
    /** Add-on name to the count accumulated so far. */
    var results: map<string, int>
    /** Every scrape started, in order. */
    ghost var scrapes: seq<Scrape>
    /** The started scrapes whose callback has not run yet; each callback runs once. */
    ghost var pending: seq<Scrape>
    /** Every callback that ran, in order: the add-on, the status and the extracted count. */
    ghost var responses: seq<Response>
    /** Every total logged, in order, with whether it went to the REST hook. */
    ghost var reports: seq<Report>
    /** Set once loading has thrown: the process is gone and no scrape callback follows. */
    ghost var halted: bool

    /** Every started scrape is for a registered add-on, so the registry lookup made when forwarding succeeds. */
    ghost predicate Registered()
      reads this`scrapes, this`sourceUrls
    {
      forall s :: s in scrapes ==> s.addon in sourceUrls
    }

    /** Each started scrape is either still pending or has answered exactly once. */
    ghost predicate Accounted()
      reads this`scrapes, this`pending, this`responses
    {
      && (forall s :: s in pending ==> s in scrapes)
      && (forall n :: ScrapesFor(scrapes, n) == ScrapesFor(pending, n) + Answers(responses, n))
    }

    /** The accumulator is what replaying the answers, in order, from empty maps gives. */
    ghost predicate Accumulated()
      reads this`results, this`reports, this`responses
    {
      State() == Replay(Tally(map[], []), responses, Truthy(url))
    }

    /** The object invariant. */
    ghost predicate Valid()
      reads this`scrapes, this`sourceUrls, this`pending, this`responses, this`results, this`reports
    {
      Registered() && Accounted() && Accumulated()
    }

    /** A count can only come back for an add-on some started scrape was for. */
    ghost predicate Scraped(addonName: string)
      reads this`scrapes
    {
      exists s :: s in scrapes && s.addon == addonName
    }

    ghost function State(): (t: Tally)
      reads this`results, this`reports
    {
      Tally(results, reports)
    }

    constructor (url: Option<string>)
      ensures this.url == url
      ensures sourceUrls == map[] && results == map[]
      ensures scrapes == [] && pending == [] && responses == [] && reports == [] && !halted
      ensures Valid()
    {
      this.url := url;
      sourceUrls := map[];
      results := map[];
      scrapes := [];
      pending := [];
      responses := [];
      reports := [];
      halted := false;
    }

    /**
     * Validates the entries in order, registering each complete one and starting its two
     * scrapes before the next is inspected. On an error, exactly the entries before the
     * offending one have been registered and scraped; an empty list touches nothing.
     */
    method ParseJsonFile(entries: seq<Entry>) returns (err: Option<LoadError>)
      requires Valid() && !halted
      modifies this`sourceUrls, this`scrapes, this`pending, this`halted
      ensures Valid()
      ensures halted <==> err.Some?
      ensures err == Validate(entries)
      ensures sourceUrls == Register(old(sourceUrls), entries[..Accepted(entries)])
      ensures scrapes == old(scrapes) + Dispatched(entries[..Accepted(entries)])
      ensures pending == old(pending) + Dispatched(entries[..Accepted(entries)])
    {
      if |entries| < 1 {
        halted := true;
        return Some(NoEntries);
      }
      err := LoadEntries(entries);
    }

    /**
     * The loop over a non-empty entry list: each entry is checked and, when complete,
     * registered and scraped before the next one is looked at.
     */
    method LoadEntries(entries: seq<Entry>) returns (err: Option<LoadError>)
      requires entries != [] && Registered() && Accounted() && !halted
      modifies this`sourceUrls, this`scrapes, this`pending, this`halted
      ensures Registered() && Accounted()
      ensures halted <==> err.Some?
      ensures err == Validate(entries)
      ensures sourceUrls == Register(old(sourceUrls), entries[..Accepted(entries)])
      ensures scrapes == old(scrapes) + Dispatched(entries[..Accepted(entries)])
      ensures pending == old(pending) + Dispatched(entries[..Accepted(entries)])
    {
      var i := 0;
      while i < |entries|
        invariant 0 <= i <= |entries|
        invariant AllComplete(entries[..i])
        invariant sourceUrls == Register(old(sourceUrls), entries[..i])
        invariant scrapes == old(scrapes) + Dispatched(entries[..i])
        invariant pending == old(pending) + Dispatched(entries[..i])
        invariant Registered() && Accounted() && !halted
      {
        var e := entries[i];
        // name, curseforge, wowinterface are inspected in that order; the first absent one is thrown
        var missing := FirstMissing(e);
        if missing.Some? {
          StopsAt(entries, i);
          halted := true;
          return Some(Missing(missing.value));
        }
        StartScrapes(e);
        assert entries[..i + 1][..i] == entries[..i];
        i := i + 1;
      }
      assert entries[..|entries|] == entries;
      AcceptsAll(entries);
      return None;
    }

    /** Records a complete entry in the registry and starts its two scrapes, CurseForge first. */
    method StartScrapes(e: Entry)
      requires IsComplete(e) && Registered() && Accounted()
      modifies this`sourceUrls, this`scrapes, this`pending
      ensures Registered() && Accounted()
      ensures sourceUrls == old(sourceUrls)[e.name.value := UrlsOf(e)]
      ensures scrapes == old(scrapes) + ScrapesOf(e)
      ensures pending == old(pending) + ScrapesOf(e)
    {
      var name, curseforgeUrl, wowinterfaceUrl := e.name.value, e.curseforge.value, e.wowinterface.value;
      sourceUrls := sourceUrls[name := SourceUrls(curseforgeUrl, wowinterfaceUrl)];
      var first := Scrape(curseforgeUrl, name, CurseForgeExtractor);
      ScrapesForSnoc(scrapes, first);
      ScrapesForSnoc(pending, first);
      scrapes, pending := scrapes + [first], pending + [first];
      var second := Scrape(wowinterfaceUrl, name, WowInterfaceExtractor);
      ScrapesForSnoc(scrapes, second);
      ScrapesForSnoc(pending, second);
      scrapes, pending := scrapes + [second], pending + [second];
    }

    /**
     * A count for an add-on arrives. The first is stored and nothing is emitted; any later
     * one is added to the stored value and the total is reported, forwarded iff `url` is truthy.
     */
    method ReportTotalIfReady(addonName: string, count: int)
      requires Registered() && !halted && Scraped(addonName)
      modifies this`results, this`reports
      ensures State() == Arrive(old(State()), Arrival(addonName, count), Truthy(url))
    {
      if addonName !in results {
        results := results[addonName := count];
        return;
      }
      results := results[addonName := results[addonName] + count];
      if Truthy(url) {
        // the stub hook reads the add-on's registry entry, which is therefore present
        assert addonName in sourceUrls;
      }
      reports := reports + [Report(addonName, results[addonName], Truthy(url))];
    }

    /**
     * The callback of the k-th pending request runs, once, with the add-on name its closure
     * captured: a 200 response passes its extracted count to the accumulator, any other
     * status is only logged and the count is dropped.
     */
    method OnResponse(ghost k: nat, addonName: string, statusCode: int, count: int)
      requires Valid() && !halted
      requires k < |pending| && pending[k].addon == addonName
      modifies this`results, this`reports, this`pending, this`responses
      ensures Valid()
      ensures pending == old(pending[..k] + pending[k + 1..])
      ensures responses == old(responses) + [Response(addonName, statusCode, count)]
      ensures State() == Respond(old(State()), Response(addonName, statusCode, count), Truthy(url))
    {
      ghost var s := pending[k];
      ghost var resp := Response(addonName, statusCode, count);
      ScrapesForRemove(pending, k);
      AnswersSnoc(responses, resp);
      pending := pending[..k] + pending[k + 1..];
      responses := responses + [resp];
      assert responses[..|responses| - 1] == old(responses);
      assert s in scrapes;
      if statusCode == 200 {
        ReportTotalIfReady(addonName, count);
      }
    }

    /** An add-on with at most two started scrapes (one entry) is reported at most once. */
    lemma ReportedAtMostOnce(n: string)
      requires Valid()
      requires ScrapesFor(scrapes, n) <= 2
      ensures |ReportsOf(reports, n)| <= 1
    {
      ReplayReportsAtMostOnce(responses, Truthy(url), n);
    }

    /**
     * An add-on with exactly two started scrapes, both answered with status 200, has been
     * reported exactly once, with the sum of its two counts, forwarded iff `url` is truthy.
     */
    lemma BothAnsweredReportedOnce(n: string)
      requires Valid()
      requires ScrapesFor(scrapes, n) == 2 && ScrapesFor(pending, n) == 0
      requires forall i :: 0 <= i < |responses| && responses[i].addon == n ==> responses[i].status == 200
      ensures ReportsOf(reports, n) == [Report(n, SumOf(Delivered(responses), n), Truthy(url))]
    {
      ReplayBothOkReportsSum(responses, Truthy(url), n);
    }
  }
}
