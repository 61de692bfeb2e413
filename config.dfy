/**
 * The configuration loader of app.js (parseJsonFile): validation of the parsed add-on
 * entries, the registry of source URLs and the order in which scrapes are started,
 * stated as functions of the entry list. The loop that performs these steps one entry
 * at a time is App.Updater.ParseJsonFile.
 */
module Config {
  import opened Wrappers

  /** One element of the parsed JSON array; a property the object lacks is None. */
  datatype Entry = Entry(name: Option<string>, curseforge: Option<string>, wowinterface: Option<string>)

  /** The three required properties, in the order the loader inspects them. */
  datatype Field = Name | CurseForge | WowInterface

  /** Why loading stopped: an empty array, or the first required property found missing. */
  datatype LoadError = NoEntries | Missing(field: Field)

  /** The two page extractors; the HTML work they do is not part of this model. */
  datatype Extractor = CurseForgeExtractor | WowInterfaceExtractor

  /** One started scrape: the page requested, the add-on it counts for, the extractor applied. */
  datatype Scrape = Scrape(url: string, addon: string, extractor: Extractor)

  /** The value stored under an add-on's name in the source URL registry. */
  datatype SourceUrls = SourceUrls(curseForgeUrl: string, wowInterfaceUrl: string)

  /** Position of a field in the inspection order. */
  function Rank(f: Field): (k: nat) {
    match f
    case Name => 0
    case CurseForge => 1
    case WowInterface => 2
  }

  function FieldOf(e: Entry, f: Field): (v: Option<string>) {
    match f
    case Name => e.name
    case CurseForge => e.curseforge
    case WowInterface => e.wowinterface
  }

  /** Only absence is rejected: any present value, whatever it is, passes. */
  predicate IsComplete(e: Entry) {
    e.name.Some? && e.curseforge.Some? && e.wowinterface.Some?
  }

  predicate AllComplete(es: seq<Entry>) {
    forall i :: 0 <= i < |es| ==> IsComplete(es[i])
  }

  /** The field an entry is rejected for: the first absent one in inspection order. */
  function FirstMissing(e: Entry): (r: Option<Field>)
    ensures r.None? <==> IsComplete(e)
    ensures r.Some? ==> FieldOf(e, r.value).None?
    ensures r.Some? ==> forall g: Field :: Rank(g) < Rank(r.value) ==> FieldOf(e, g).Some?
  {
    if e.name.None? then Some(Name)
    else if e.curseforge.None? then Some(CurseForge)
    else if e.wowinterface.None? then Some(WowInterface)
    else None
  }

  /** Index of the first entry that is not complete, if any. */
  function FirstInvalid(es: seq<Entry>): (r: Option<nat>)
    ensures r.None? <==> AllComplete(es)
    ensures r.Some? ==> r.value < |es| && !IsComplete(es[r.value]) && AllComplete(es[..r.value])
  {
    if es == [] then None
    else if !IsComplete(es[0]) then Some(0)
    else
      match FirstInvalid(es[1..])
      case None => None
      case Some(k) =>
        assert forall i :: 1 <= i < k + 1 ==> es[i] == es[1..][i - 1];
        Some(k + 1)
  }

  /** How many entries are registered before loading stops: the longest complete prefix. */
  function Accepted(es: seq<Entry>): (n: nat)
    ensures n <= |es| && AllComplete(es[..n])
    ensures n < |es| ==> !IsComplete(es[n])
  {
    match FirstInvalid(es)
    case None => assert es[..|es|] == es; |es|
    case Some(k) => k
  }

  /** The outcome of loading: the error raised, or None when every entry was accepted. */
  function Validate(es: seq<Entry>): (r: Option<LoadError>)
    ensures r == Some(NoEntries) <==> es == []
    ensures r.None? <==> es != [] && AllComplete(es)
    ensures r.Some? && r.value.Missing? ==>
      Accepted(es) < |es| && FirstMissing(es[Accepted(es)]) == Some(r.value.field)
  {
    if |es| < 1 then Some(NoEntries)
    else
      match FirstInvalid(es)
      case None => None
      case Some(k) => Some(Missing(FirstMissing(es[k]).value))
  }

  function UrlsOf(e: Entry): (urls: SourceUrls)
    requires IsComplete(e)
  {
    SourceUrls(e.curseforge.value, e.wowinterface.value)
  }

  /** The registry after recording each entry in turn on top of `reg`. */
  function Register(reg: map<string, SourceUrls>, es: seq<Entry>): (registry: map<string, SourceUrls>)
    requires AllComplete(es)
  {
    if es == [] then reg
    else
      var last := es[|es| - 1];
      Register(reg, es[..|es| - 1])[last.name.value := UrlsOf(last)]
  }

  /** The two scrapes started for one entry, CurseForge first. */
  function ScrapesOf(e: Entry): (started: seq<Scrape>)
    requires IsComplete(e)
  {
    [Scrape(e.curseforge.value, e.name.value, CurseForgeExtractor),
     Scrape(e.wowinterface.value, e.name.value, WowInterfaceExtractor)]
  }

  /** Every scrape started while loading the entries, in the order they were started. */
  function Dispatched(es: seq<Entry>): (started: seq<Scrape>)
    requires AllComplete(es)
  {
    if es == [] then []
    else Dispatched(es[..|es| - 1]) + ScrapesOf(es[|es| - 1])
  }

  /** Loading stops at entry i, with its first missing field, when the entries before it are complete and it is not. */
  lemma StopsAt(es: seq<Entry>, i: nat)
    requires i < |es| && AllComplete(es[..i]) && !IsComplete(es[i])
    ensures Accepted(es) == i
    ensures Validate(es) == Some(Missing(FirstMissing(es[i]).value))
  {
  }

  /** A non-empty list of complete entries is accepted whole, without error. */
  lemma AcceptsAll(es: seq<Entry>)
    requires es != [] && AllComplete(es)
    ensures Accepted(es) == |es| && Validate(es) == None
  {
  }

  /** A name is registered exactly when it was there before or some entry carries it. */
  lemma {:induction false} RegisterKeys(reg: map<string, SourceUrls>, es: seq<Entry>, n: string)
    requires AllComplete(es)
    ensures n in Register(reg, es) <==> n in reg || exists i :: 0 <= i < |es| && es[i].name == Some(n)
  {
    if es != [] {
      var init := es[..|es| - 1];
      RegisterKeys(reg, init, n);
      if exists i :: 0 <= i < |init| && init[i].name == Some(n) {
        var i :| 0 <= i < |init| && init[i].name == Some(n);
        assert es[i].name == Some(n);
      }
      if exists i :: 0 <= i < |es| && es[i].name == Some(n) {
        var i :| 0 <= i < |es| && es[i].name == Some(n);
        if i < |init| {
          assert init[i].name == Some(n);
        }
      }
    }
  }

  /** A later entry with the same name overwrites an earlier one: the last one wins. */
  lemma {:induction false} RegisterLastWins(reg: map<string, SourceUrls>, es: seq<Entry>, i: nat)
    requires AllComplete(es)
    requires i < |es|
    requires forall j :: i < j < |es| ==> es[j].name != es[i].name
    ensures es[i].name.value in Register(reg, es)
    ensures Register(reg, es)[es[i].name.value] == UrlsOf(es[i])
  {
    var init := es[..|es| - 1];
    if i < |es| - 1 {
      assert es[i] == init[i];
      RegisterLastWins(reg, init, i);
    }
  }

  /** A name no entry carries keeps whatever the registry held for it. */
  lemma {:induction false} RegisterUnnamed(reg: map<string, SourceUrls>, es: seq<Entry>, n: string)
    requires AllComplete(es)
    requires forall i :: 0 <= i < |es| ==> es[i].name != Some(n)
    ensures n in Register(reg, es) <==> n in reg
    ensures n in reg ==> Register(reg, es)[n] == reg[n]
  {
    if es != [] {
      var init := es[..|es| - 1];
      assert forall i :: 0 <= i < |init| ==> init[i] == es[i];
      RegisterUnnamed(reg, init, n);
    }
  }

  /** Each entry starts exactly two scrapes, in entry order, CurseForge before WoWInterface. */
  lemma {:induction false} DispatchedAt(es: seq<Entry>, i: nat)
    requires AllComplete(es)
    requires i < |es|
    ensures |Dispatched(es)| == 2 * |es|
    ensures Dispatched(es)[2 * i] == Scrape(es[i].curseforge.value, es[i].name.value, CurseForgeExtractor)
    ensures Dispatched(es)[2 * i + 1] == Scrape(es[i].wowinterface.value, es[i].name.value, WowInterfaceExtractor)
  {
    var init := es[..|es| - 1];
    if i < |es| - 1 {
      assert es[i] == init[i];
      DispatchedAt(init, i);
    } else if init != [] {
      DispatchedAt(init, 0);
    }
  }

  /** Every scrape started is for a name the registry holds, so a report can find its URLs. */
  lemma {:induction false} DispatchedNamesRegistered(reg: map<string, SourceUrls>, es: seq<Entry>, s: Scrape)
    requires AllComplete(es)
    requires s in Dispatched(es)
    ensures s.addon in Register(reg, es)
  {
    var init := es[..|es| - 1];
    if s in Dispatched(init) {
      DispatchedNamesRegistered(reg, init, s);
    }
  }

  /** How many of the scrapes are for add-on n. */
  function ScrapesFor(ss: seq<Scrape>, n: string): (k: nat) {
    if ss == [] then 0
    else ScrapesFor(ss[..|ss| - 1], n) + (if ss[|ss| - 1].addon == n then 1 else 0)
  }

  /** How many entries carry the name n. */
  function Named(es: seq<Entry>, n: string): (k: nat) {
    if es == [] then 0
    else Named(es[..|es| - 1], n) + (if es[|es| - 1].name == Some(n) then 1 else 0)
  }

  lemma {:induction false} ScrapesForAppend(a: seq<Scrape>, b: seq<Scrape>, n: string)
    ensures ScrapesFor(a + b, n) == ScrapesFor(a, n) + ScrapesFor(b, n)
  {
    if b != [] {
      var init := b[..|b| - 1];
      assert (a + b)[..|a + b| - 1] == a + init;
      ScrapesForAppend(a, init, n);
    } else {
      assert a + b == a;
    }
  }

  /** Loading starts exactly two scrapes for n per entry named n. */
  lemma {:induction false} DispatchedCount(es: seq<Entry>, n: string)
    requires AllComplete(es)
    ensures ScrapesFor(Dispatched(es), n) == 2 * Named(es, n)
  {
    if es != [] {
      var init := es[..|es| - 1];
      DispatchedCount(init, n);
      var last := es[|es| - 1];
      var two := ScrapesOf(last);
      ScrapesForAppend(Dispatched(init), two, n);
      var one := if last.name.value == n then 1 else 0;
      assert two[..1] == [two[0]] && [two[0]][..0] == [];
      assert ScrapesFor([two[0]], n) == one;
      assert ScrapesFor(two, n) == ScrapesFor([two[0]], n) + one;
    }
  }
}
