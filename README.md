# Add-on download count updater — a Dafny model

The script reads a JSON array of World of Warcraft add-on entries. Each entry has a `name`, a
`curseforge` page URL and a `wowinterface` page URL. For every entry it scrapes both pages for a
download count, adds the two counts, and logs the total. When a REST base URL is given, it also
hands the total to a reporting hook. This project models the two pieces of bookkeeping in
`app.js` that carry this logic:

- **Loading** (`parseJsonFile`). An empty array is rejected. Otherwise the entries are inspected
  in order, and each one's fields in the order `name`, `curseforge`, `wowinterface`. Loading stops
  at the first absent field. Each complete entry is written into the `sourceUrls` registry and its
  two scrapes are started before the next entry is inspected.
- **Aggregation** (`reportTotalIfReady`, reached from the scrape callback on HTTP 200). The first
  count for a name is stored silently. Every later count is added to it, and the new total is
  logged and, if `url` is set, forwarded.

Files:
- `wrappers.dfy` holds `Option`.
- `config.dfy` (module `Config`) states loading as functions of the entry list: `Validate`,
  `Accepted`, `Register`, `Dispatched`. It proves lemmas about them.
- `aggregator.dfy` (module `Aggregator`) states the accumulator as a `Tally`, the `results` map
  plus the log of reports. One arrival is `Arrive`, a sequence of arrivals is `Run`, and a sequence
  of page responses is `Replay`. Lemmas cover sums, exactly-once reporting and silent
  non-completion.
- `app.dfy` (module `App`) holds class `Updater`. Its fields are the script's module-level state
  (`url`, `sourceUrls`, `results`) plus ghost logs: the scrapes started, the scrapes whose
  callback has not run yet, the responses received and the reports emitted. Its
  methods do the work step by step, and their postconditions tie the new state to the
  specification functions above.

Inputs that come from outside the script are parameters:
- the parsed JSON array is a `seq<Entry>` whose fields are `Option<string>`;
- a finished page request is its status code plus the count the extractor produced from the body.

Behaviour of `app.js` that the model keeps as written:
- When loading hits a bad entry, the entries before it have already been registered and their
  scrapes started. The error is then thrown inside the file-read callback, nobody catches it, and
  the process ends, so none of those scrapes is ever aggregated. `ParseJsonFile`'s postcondition
  states the registry and scrape log at the moment of the throw. It also sets the ghost flag
  `halted`, and the callback methods require `!halted`.
- A third count for the same add-on is added again and reported again (`RunReportCount`). Each
  request's callback runs once, and every entry starts exactly two requests under its name
  (`Config.DispatchedCount`). So a third count can only arise when two entries share a name
  (`App.Updater.ReportedAtMostOnce`).
- The reporting hook `outputToRestApi` only reads the add-on's registry entry and stored count,
  and makes no request. The model records only whether the hook was invoked
  (`Report.forwarded`). It also proves that the registry lookup the hook makes always finds an
  entry (`App.Updater.Valid`).
- `if (url)` is JavaScript truthiness, so an empty `url` string does not forward (`App.Truthy`).

## Model

| member | source | states |
|---|---|---|
| Config.FirstMissing | app.js:60-70 | An entry is rejected iff some required field is absent. The field named is absent, and every field inspected before it is present. |
| Config.FirstInvalid | app.js:59-71 | None iff every entry is complete. Otherwise the result is an index of an incomplete entry, and all entries before it are complete. |
| Config.Accepted | app.js:59-75 | The number of entries processed before loading stops is the longest complete prefix. The entry right after it, if any, is incomplete. |
| Config.Validate | app.js:58-70 | The error is NoEntries iff the array is empty. There is no error iff the array is non-empty and every entry is complete. A missing-field error names the first absent field of the first incomplete entry. |
| Config.RegisterKeys | app.js:72 | After registration, a name is in the registry iff it was there before or some entry carries it. |
| Config.RegisterLastWins | app.js:72 | The registry holds, for a name, the two URLs of the last entry with that name. Later entries overwrite earlier ones. |
| Config.RegisterUnnamed | app.js:72 | A name that no entry carries keeps its previous registry value, and its presence is unchanged. |
| Config.DispatchedAt | app.js:73-74 | Exactly two scrapes are started per entry, in entry order. Scrape 2i is entry i's CurseForge URL with the CurseForge extractor. Scrape 2i+1 is its WoWInterface URL with the WoWInterface extractor. |
| Config.StopsAt | app.js:59-70 | When the entries before position i are complete and entry i is not, loading accepts exactly i entries. The error names entry i's first absent field. |
| Config.AcceptsAll | app.js:58-75 | A non-empty list of complete entries is accepted whole, with no error. |
| Config.DispatchedCount | app.js:59-75 | Loading complete entries starts, for every name, exactly twice as many scrapes as there are entries with that name. |
| Config.DispatchedNamesRegistered | app.js:72-74 | Every scrape started while loading is for a name the registry then holds. |
| Aggregator.Arrive | app.js:78-91 | One arrival adds its name to the keys, and the stored value becomes the previous value (0 when absent) plus the count. Other names keep their values. No report is emitted when the name was absent. Otherwise exactly one report is emitted, carrying the new total. |
| Aggregator.RunStored | app.js:79-85 | Over any interleaving of arrivals, a name's stored value is its previous value plus the sum of its counts. It is present iff it was present before or some count arrived for it. |
| Aggregator.RunOthersUntouched | app.js:79-85 | Arrivals for other names leave a name's presence, value and reports unchanged. |
| Aggregator.RunReportCount | app.js:79-90 | Reports are only appended. A name gets one report per arrival, except that the first arrival into an absent slot is silent. So two arrivals report once and three report twice. |
| Aggregator.SingleArrivalSilent | app.js:79-82 | When at most one count has arrived for an absent name, nothing has been reported for it. |
| Aggregator.TwoArrivalsReportOnce | app.js:79-86 | Exactly two counts for an absent name, amid any other traffic, yield exactly one report for it, carrying the sum of the two counts. |
| Aggregator.ArrivalOrderIrrelevant | app.js:79-86 | Two counts a, b for an absent name give the same state in either order. That state stores a + b and holds one report of a + b. |
| Aggregator.ArriveKeepsReportCurrent | app.js:85-86 | For a single name, one arrival keeps that name's latest report equal to its stored total. |
| Aggregator.ArrivePreservesReportsCurrent | app.js:85-86 | One arrival preserves the invariant that each name's latest report carries its currently stored total. |
| Aggregator.RunPreservesReportsCurrent | app.js:85-86 | Any sequence of arrivals preserves the same invariant. |
| Aggregator.Respond | app.js:120-126 | Reports are only appended. A non-200 response changes no add-on's presence, stored count or reports. A 200 response changes only the responding add-on: it becomes present and its stored count grows by the response's count. If it was absent, the report log is unchanged. If it was present, the log gains exactly one report, which carries the add-on's name, its new total, and whether the total was forwarded. |
| Aggregator.DeliveredAllOk | app.js:120-122 | When every response for a name has status 200, every one of them delivers its count to the accumulator. |
| Aggregator.ReplayReportsAtMostOnce | app.js:78-127 | Start from empty maps, and give an add-on at most two responses in any order, amid any other traffic. That add-on is then reported at most once. |
| Aggregator.ReplayBothOkReportsSum | app.js:78-127 | Start from empty maps, and give an add-on exactly two responses, both 200. That add-on is then reported exactly once, with the sum of its two counts, forwarded iff `url` is truthy. |
| Aggregator.ReplayIsRunOfDelivered | app.js:119-126 | Replaying page responses equals running only the counts of the 200 responses, in order. |
| Aggregator.DeliveredCount | app.js:120-126 | If some response for a name is not 200, fewer counts reach the accumulator for that name than there were responses. |
| Aggregator.FailedFetchNeverReported | app.js:120-126 | Suppose an absent add-on has at most two responses and one of them is not 200. Then it is never reported. |
| App.Updater.constructor | app.js:43-46 | The initial state: given `url`, empty `results` and `sourceUrls`, no scrapes started or pending, no responses, no reports, not halted, and the invariant `Valid()` holds. |
| App.Updater.ParseJsonFile | app.js:55-76 | The returned error is `Validate(entries)`. The registry, the scrape log and the pending requests are the old ones extended by exactly the accepted prefix of entries. An empty array, or a first entry that is bad, touches nothing. The process halts exactly when an error is thrown. The invariant `Valid()` is kept: every started scrape is for a registered add-on, and is either pending or answered once. |
| App.Updater.LoadEntries | app.js:59-75 | The loop over a non-empty array: the same outcome, registry, scrape log and pending requests as `ParseJsonFile`, with the same invariant kept. |
| App.Updater.StartScrapes | app.js:72-74 | One complete entry is written into the registry under its name, and its CurseForge and WoWInterface scrapes are appended, in that order, to the started and the pending requests. |
| App.Updater.ReportTotalIfReady | app.js:78-98 | It is called only for a scraped add-on of a running process. The new results and report log are `Arrive` applied to the old ones. Forwarding happens iff `url` is truthy, and the registry lookup the hook makes succeeds. |
| App.Updater.OnResponse | app.js:118-127 | It is called only for a pending request, with the add-on name that request captured, while the process runs. That request leaves the pending list, so its callback runs once. The response is appended to the response log. The new state is `Respond` applied to the old one: only a 200 response reaches `ReportTotalIfReady`. The invariant `Valid()` is kept. |
| App.Updater.ReportedAtMostOnce | app.js:59-127 | An add-on for which at most two scrapes were started (one entry with that name) is reported at most once, whatever order the callbacks ran in. |
| App.Updater.BothAnsweredReportedOnce | app.js:59-127 | An add-on with exactly two scrapes started, both answered with status 200, has been reported exactly once. The report carries the sum of the two counts and is forwarded iff `url` is truthy. |

## Left out

- Thrown errors: a validation error is returned as a value. The end of the process that follows is represented only by the ghost flag `halted`, which every later callback requires to be false. Nothing after that point is modelled.
- Command-line parsing, help text and `process.exit` (app.js:10-39). They are process control through the commander library.
- Reading the file and `JSON.parse` (app.js:53-57). The model starts from an already-parsed array of entries. A top-level value that is not an array, or an element that is not an object, is not modelled.
- Entry values are modelled as strings. A non-string `name` would be coerced to a string key by JavaScript, and that coercion is not modelled.
- The registry and `results` are plain maps. JavaScript objects also answer inherited keys such as `constructor` or `__proto__`. An add-on with such a name would misbehave in `results[addonName] === undefined`, and that is not modelled.
- The HTTP request and the `throw error` on a transport failure (app.js:119, app.js:124). This is network I/O on the event loop. Only the status branch is modelled, with the status as an input.
- The error line logged for a non-200 status (app.js:125) is not recorded. Only the fact that the count is dropped is modelled.
- The HTML extractors (app.js:102-116) are calls into cheerio, and `Number(...)` yields doubles and NaN. Their result is an opaque `int` input, and the sum is unbounded integer addition rather than floating-point addition.
- The timestamp from `moment().format()` (app.js:86) is wall-clock time and is left out. A report records the name, the total and whether it was forwarded.
- `outputToRestApi` (app.js:93-100) is a stub that only reads two maps. Only the fact that it is invoked is modelled.
- The unused variables `foo` and `outputFile` (app.js:42, app.js:48-51) are left out.
- Asynchrony: callbacks are modelled as method calls in whatever order the responses complete, one per started request. The lemmas quantify over every such order.
