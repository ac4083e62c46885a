# Trackii backend core, modelled in Dafny

Trackii is a family health tracker. This project models the three controllers of its backend that do real work, and proves properties about them:

- **The reminder engine** (`remindersController.js`).
  - `parseFrequency` turns a prescription's free-text frequency into a schedule: fixed times of day, or an interval of whole hours.
  - `list` expands each eligible prescription into the dose reminders of the next 24 hours. It then drops the reminders the caller has dismissed, sorts the rest by time and cuts the list to a limit.
  - `dismiss` stores a dismissal of one reminder key with an expiry.
- **The help assistant** (`aiController.js`).
  - `isMedical` is a guard against medical questions.
  - `localAnswer` is a chain of phrase rules tried in order.
  - `ask` combines the guard, an optional answer from a hosted language model, and the local rules.
- **The health-log handlers** (`logsController.js`).
  - Value and category validation.
  - The whitelist of editable fields.
  - The pagination arithmetic.
  - The create / update / delete changes to the log collection.

How time is modelled:
- Time is an integer number of milliseconds since the epoch.
- A `Date` is valid within ±8.64e15 ms (`IsoTime.ValidTime`).
- Local time is UTC plus a fixed offset `tz`.
- `toISOString` is computed for real through the proleptic Gregorian calendar (`IsoTime.IsoString`). This makes the key format concrete, and with it what `dismiss` extracts from a key.

Modules:

| file | module | contents |
|---|---|---|
| wrappers.dfy | `Wrappers` | `Option`, `Result` |
| js_text.dfy | `JsText` | the JavaScript built-ins the core calls: `toLowerCase`, `trim`, `includes`, `split`, `slice`, `parseInt`, `Number`; `Join` is a proof helper, the inverse of `split` |
| iso_time.dfy | `IsoTime` | the `Date` range and `toISOString` |
| frequency.dfy | `Frequency` | `parseFrequency` |
| occurrences.dfy | `Occurrences` | `atTime`, `isoKey`, the reminder items and the per-prescription expansion |
| dismissals.dfy | `Dismissals` | the expiry policy of `dismiss` and the dismissal store (a class) |
| reminders.dfy | `Reminders` | `list`: the query filters, the loop as a method, the dismissal filter, the stable sort and the cap |
| answers.dfy | `Answers` | `isMedical`, `localAnswer`, `askLLM`, `ask` |
| logs.dfy | `Logs` | log validation, the update whitelist loop, pagination, the log store (a class) |

Three behaviours of the code that a reader might not expect:

- **Twice a day gives two reminders, not three.** Called at 08:00 UTC, "twice daily" yields today's 09:00 and 21:00. The window ends at 08:00 the next day, so tomorrow's 09:00 falls outside it. `Reminders.TwiceADayExample` proves exactly two.
- **`dismiss` reads only the date and hour from a key.** The code takes element 1 of `raw.split(":")`. A key is `rxId:ISO`, and the ISO time has colons of its own, so that element stops at the first of them, e.g. `2024-01-01T16`. That is what `Dismissals.DismissIso` models.
- **One prescription can fail the whole listing.** An interval step whose grid time overflows the `Date` range makes `toISOString` throw inside the loop, and nothing catches it, so the whole listing fails. `Occurrences.AllCandidates` and `Reminders.List` model that failure.

## Model

| member | source | states |
|---|---|---|
| Frequency.ParseFrequency | src/controllers/remindersController.js:5-12 | every text gets a schedule; an interval has at least 1 hour; a times schedule is either 09:00 and 21:00 or 09:00 alone |
| Frequency.ParseFrequencyRules | src/controllers/remindersController.js:6-11 | rule by rule on the lower-cased text: `(2x\|twice).*(day)` wins over everything; then "1x"/"once"/"daily"; then the leftmost "every N h", raised to at least 1; otherwise 09:00 |
| Frequency.TwiceADayIff | src/controllers/remindersController.js:7 | the first rule's test holds exactly when "2x" or "twice" is followed on the same line by "day" |
| Frequency.DayAheadIff | src/controllers/remindersController.js:7 | `.*(day)` matches from a position exactly when "day" occurs later with no line terminator in between |
| Frequency.EveryHoursHereIff | src/controllers/remindersController.js:9 | `every\s+(\d+)\s*h` matches at the front exactly when `EveryHoursHere` finds a match, and every way it can match, with any split of the runs, captures the digits `EveryHoursHere` reads |
| Frequency.EveryHoursLeftmost | src/controllers/remindersController.js:9 | `match` finds nothing exactly when no position starts "every", spaces, digits, optional spaces, "h"; otherwise it reads the leftmost such position |
| Frequency.NoTwiceWithout | src/controllers/remindersController.js:7 | a text without '2' and 'w' never matches the twice-a-day rule |
| Frequency.NoOnceWithout | src/controllers/remindersController.js:8 | a text without '1', 'o' and 'l' never matches the once-a-day rule |
| Frequency.NoEveryWithout | src/controllers/remindersController.js:9 | a text without 'v' never matches the interval rule |
| Frequency.IntervalExample | src/controllers/remindersController.js:9-10 | "every 8h" is an 8-hour interval |
| Frequency.OnceBeforeIntervalExample | src/controllers/remindersController.js:8-10 | "every 8h daily" is one daily dose at 09:00, not an interval |
| Frequency.TwiceExample | src/controllers/remindersController.js:7 | "Twice a day" is 09:00 and 21:00 |
| Frequency.LineBreakExample | src/controllers/remindersController.js:7-11 | "2x\nday" falls through to the default, because `.` does not cross a line break |
| Frequency.ZeroHoursExample | src/controllers/remindersController.js:10 | "every 0 h" is raised to a 1-hour interval |
| JsText.ParseInt | src/controllers/remindersController.js:10 | `parseInt(_, 10)` gives a number exactly when digits follow the leading white space and an optional sign |
| JsText.ParseIntDecimal | src/controllers/remindersController.js:24 | a decimal digit string parses back to its value |
| JsText.DigitsNumber | src/controllers/remindersController.js:14 | `Number` of a non-empty digit string is its decimal value |
| JsText.JoinSplit | src/controllers/remindersController.js:93 | joining the fields of `split` with the separator gives back the text |
| JsText.SplitJoin | src/controllers/remindersController.js:93 | splitting a join of separator-free fields gives back the fields |
| JsText.TrimEmptyIff | src/controllers/aiController.js:21 | `trim` leaves nothing exactly when the text is all white space |
| JsText.ContainsIff | src/controllers/aiController.js:15 | `includes` holds exactly when the phrase occurs at some position |
| JsText.LowerIdempotent | src/controllers/aiController.js:19-22 | lower-casing twice is lower-casing once |
| IsoTime.IsoFields | src/controllers/remindersController.js:19 | the ISO text of a valid instant is `YYYY-MM-DDTHH`, minutes and `SS.sssZ` joined by colons, with no colon inside a field |
| IsoTime.IsoExample | src/controllers/remindersController.js:19 | 1704124800000 is "2024-01-01T16:00:00.000Z" |
| Occurrences.Title | src/controllers/remindersController.js:52 | "Take " and the name, then a space and the dosage only when there is a dosage |
| Occurrences.ProfileName | src/controllers/remindersController.js:55 | the owning profile's name when known and non-empty, otherwise an em dash; never empty |
| Occurrences.LocalMidnight | src/controllers/remindersController.js:16 | the local day's start: at or before the instant, less than a day before, at local time 0 |
| Occurrences.AtTimeClock | src/controllers/remindersController.js:13-18 | "HH:MM" with digit fields of values h < 24 and m < 60 falls on local day `today + add` at local time h hours m minutes, and a result exists exactly when both dates are valid |
| Occurrences.DigitsIntegerPart | src/controllers/remindersController.js:14 | `Number` then truncation reads a digit string as its value |
| Occurrences.DaySlotsSound | src/controllers/remindersController.js:46-58 | for one day offset: at most one item per time; each is one of the prescription's items, in the window, at the instant `atTime` gives for one of the times |
| Occurrences.DaySlotsComplete | src/controllers/remindersController.js:46-58 | every time whose instant falls in the window gives an item at that instant |
| Occurrences.TimesCandidatesSound | src/controllers/remindersController.js:43-60 | a times schedule yields at most 2 × the number of times items, all in [now, now + 24 h], all from day offset 0 or 1 |
| Occurrences.NextGridTime | src/controllers/remindersController.js:63 | `ceil(now / step) * step`: a multiple of the step, at or after now, less than one step later |
| Occurrences.NextGridTimeLeast | src/controllers/remindersController.js:63 | it is the least multiple of the step at or after now |
| Occurrences.IntervalCandidatesSpec | src/controllers/remindersController.js:62-75 | an interval schedule fails exactly when the grid time is not a valid date; otherwise it yields exactly one item at the grid time with the step attached, or none exactly when `endDate` is before it; the window is not applied |
| Occurrences.RxCandidatesSound | src/controllers/remindersController.js:40-76 | only an interval schedule can fail; every item is one of the prescription's own; a times schedule yields at most 4 items, all in the window |
| Occurrences.AllCandidatesSound | src/controllers/remindersController.js:39-77 | every candidate belongs to one of the prescriptions |
| Occurrences.AllCandidatesFailure | src/controllers/remindersController.js:39-77 | the loop fails exactly when some prescription fails |
| Dismissals.DismissIso | src/controllers/remindersController.js:93 | the second field of `split(":")` exists exactly when the key has a colon |
| Dismissals.DismissalExpiry | src/controllers/remindersController.js:94-101 | five minutes after the time from the key when that text is non-empty and parses, otherwise 24 hours after now |
| Dismissals.DismissIsoOfKey | src/controllers/remindersController.js:93 | for a prescription id without a colon, `dismiss` reads only the date and hour of the reminder's key |
| Dismissals.DismissIsoExample | src/controllers/remindersController.js:93 | the key "rx1:2024-01-01T16:00:00.000Z" gives "2024-01-01T16" |
| Dismissals.DismissalStore.Upsert | src/controllers/remindersController.js:104-108 | the (user, key) entry is set to the new expiry, created if missing; every other entry is unchanged |
| Dismissals.DismissalStore.Dismiss | src/controllers/remindersController.js:91-111 | stores the raw key unchanged with its expiry and answers `{ key, dismissed: true, until }` |
| Dismissals.DismissalStore.PurgeExpired | src/models/ReminderDismissal.js:7 | the TTL index keeps exactly the entries not yet expired |
| Dismissals.ActiveDismissed | src/controllers/remindersController.js:80-84 | a key is dismissed exactly when it is a candidate key and the user's entry for it expires after now |
| Dismissals.UpsertTwice | src/controllers/remindersController.js:104-108 | dismissing the same key twice leaves one entry, with the later expiry |
| Dismissals.DismissHides | src/controllers/remindersController.js:80-85 | a dismissed key is hidden exactly while now is before its expiry |
| Dismissals.DismissIsPerUser | src/controllers/remindersController.js:80-81 | one user's dismissal hides nothing from another user |
| Dismissals.PurgeKeepsActive | src/controllers/remindersController.js:81 | the TTL purge never changes what the listing sees |
| Reminders.HardCap | src/controllers/remindersController.js:24 | the cap is between 1 and 200; 100 when the limit is missing or empty; `parseInt`'s value clamped to 1..200 when it finds digits; NaN exactly when it finds none |
| Reminders.SliceEnd | src/controllers/remindersController.js:88 | `slice(0, cap)` takes `cap` items, or none when the cap is NaN |
| Reminders.OwnedProfiles | src/controllers/remindersController.js:26 | exactly the caller's profiles |
| Reminders.NameById | src/controllers/remindersController.js:28 | a name for every profile id and no other key; each profile with no later profile of the same id has its own name there, so a later profile with the same id wins |
| Reminders.EligiblePrescriptions | src/controllers/remindersController.js:30-35 | exactly the prescriptions of owned profiles that are active, started and not ended |
| Reminders.Undismissed | src/controllers/remindersController.js:85 | exactly the candidates whose key is not dismissed |
| Reminders.SortByWhenSpec | src/controllers/remindersController.js:87 | the sort yields a permutation of its input, ascending by time |
| Reminders.SortByWhenStable | src/controllers/remindersController.js:87 | items at the same instant keep their relative order |
| Reminders.UndismissedAtInstant | src/controllers/remindersController.js:85 | the dismissal filter keeps order: the kept items at one instant are, in order, the items at that instant with the dismissed ones removed |
| Reminders.FilterSortStable | src/controllers/remindersController.js:84-87 | after filtering and sorting, the reminders at one instant are the undismissed candidates at that instant in the order the loops produced them |
| Reminders.PipelineSpec | src/controllers/remindersController.js:79-88 | at most `cap` items, sorted, each an undismissed candidate; below the cap, no undismissed candidate is left out; at the cap, every undismissed candidate left out is no earlier than every item kept |
| Reminders.ListResultSpec | src/controllers/remindersController.js:21-89 | the listing fails exactly when the loop fails; otherwise at most the cap (at most 200) items, sorted, none dismissed, each from an eligible prescription of the caller; below the cap, every undismissed candidate is present; at the cap, the items kept are the earliest undismissed candidates |
| Reminders.List | src/controllers/remindersController.js:21-89 | the handler's loops, filter, sort and slice compute exactly `ListResult` |
| Reminders.CollectCandidates | src/controllers/remindersController.js:36-77 | the loop over prescriptions computes exactly `AllCandidates`: every prescription's items in order, or the first RangeError |
| Reminders.PushRx | src/controllers/remindersController.js:40-76 | one pass of the loop appends the prescription's items, or fails |
| Reminders.PushTimes | src/controllers/remindersController.js:43-60 | the loop over day offsets 0 and 1 appends both days' slots |
| Reminders.PushDay | src/controllers/remindersController.js:46-59 | the loop over times appends each time that falls in the window, in order |
| Reminders.PushInterval | src/controllers/remindersController.js:62-75 | the interval branch appends its one item, skips it, or fails, as the interval schedule does |
| Reminders.AllCandidatesStopAt | src/controllers/remindersController.js:39-77 | once a prefix of the prescriptions fails, the whole loop fails with that error |
| Reminders.AmoxicillinExample | src/controllers/remindersController.js:61-75 | "every 8h" at 2024-01-01T10:00Z gives one item at 16:00Z, key "rx1:2024-01-01T16:00:00.000Z", title "Take Amoxicillin 500mg" |
| Reminders.TwiceADayExample | src/controllers/remindersController.js:42-60 | "Twice a day" at 2024-01-01T08:00Z in UTC gives exactly two items, at 09:00 and 21:00 the same day |
| Answers.SomeIncluded | src/controllers/aiController.js:15 | `some(h => s.includes(h))` holds exactly when some hint occurs |
| Answers.IsMedical | src/controllers/aiController.js:8-16 | a query is medical exactly when its lower-cased text contains one of the fifteen hints |
| Answers.TopicRule | src/controllers/aiController.js:26-54 | the topic rules never yield the blank or the medical reply |
| Answers.RuleTextInjective | src/controllers/aiController.js:21-54 | every rule has its own reply text |
| Answers.LocalAnswerIs | src/controllers/aiController.js:18-55 | a rule's reply is given exactly when that rule is the first to match |
| Answers.LocalAnswerNonEmpty | src/controllers/aiController.js:18-55 | every local reply is non-empty |
| Answers.LocalAnswerBlank | src/controllers/aiController.js:21 | "Please type a question…" comes exactly for a query of white space |
| Answers.LocalAnswerMedical | src/controllers/aiController.js:22-24 | the medical decline comes exactly for a non-blank medical query, before any topic rule |
| Answers.ReminderBeforePrescription | src/controllers/aiController.js:32-37 | a query that mentions "reminder" never gets the prescription reply |
| Answers.DeleteProfileUnreachable | src/controllers/aiController.js:38-49 | the delete-profile reply is never given: both of its phrases contain "profile", which an earlier rule catches |
| Answers.LocalAnswerGeneric | src/controllers/aiController.js:54 | the generic reply comes exactly when the query is not blank, not medical and contains none of the twenty topic phrases |
| Answers.AskLlm | src/controllers/aiController.js:57-83 | no key gives no answer; a rejected request is an error; a given answer is the trimmed, non-empty text of the reply |
| Answers.Ask | src/controllers/aiController.js:85-104 | every answer `ask` gives is non-empty |
| Answers.AskMedical | src/controllers/aiController.js:89-91 | a medical query is declined whatever the key and whatever the model would reply |
| Answers.AskTruncates | src/controllers/aiController.js:87 | only the first 2000 characters matter, and the model is asked about no more than those |
| Answers.AskPrefersModel | src/controllers/aiController.js:93-96 | a non-medical query gets the model's trimmed, non-blank answer when there is one |
| Answers.AskFallsBack | src/controllers/aiController.js:93-99 | without a key, or without a usable reply, a non-medical query gets the local answer |
| Answers.AskServiceError | src/controllers/aiController.js:100-103 | the 500 response comes exactly from a rejected request to the model for a non-medical query |
| Logs.ToNumber | src/controllers/logsController.js:56 | `Number` of a JSON value: null is 0, false is 0 and true is 1, a number is itself, a string is what `Number` reads from it |
| Logs.Whitelisted | src/controllers/logsController.js:82-85 | exactly the listed fields that the body defines, with the body's values |
| Logs.BuildUpdates | src/controllers/logsController.js:82-85 | the `forEach` builds exactly the whitelisted update object |
| Logs.UpdatesKeepOwner | src/controllers/logsController.js:83 | an update never sets the profile of a log |
| Logs.Skip | src/controllers/logsController.js:32 | `(page - 1) * limit` is NaN exactly when page or limit is NaN |
| Logs.Ceil | src/controllers/logsController.js:41 | `Math.ceil`: the least integer at or above its argument |
| Logs.Pages | src/controllers/logsController.js:41 | `null` exactly for a zero or NaN limit; for a positive limit, the page count whose pages just cover the total |
| Logs.PagesOfPositiveLimit | src/controllers/logsController.js:41 | for a whole limit of at least 1, pages is the integer ceiling of total / limit: the fewest pages that hold every record |
| Logs.DefaultPagination | src/controllers/logsController.js:30-41 | with no limit and no page, skip is 0 and pages is ceil(total / 25) |
| Logs.SkipOfPage | src/controllers/logsController.js:32 | for whole page and limit of at least 1, skip is (page − 1) × limit, and each record position lies on exactly one page |
| Logs.LogStore.ListLogs | src/controllers/logsController.js:19-46 | a profile the caller does not own gives 404 before any query; otherwise the logs the filter selects, their count, the skip and the page count |
| Logs.LogStore.CreateLog | src/controllers/logsController.js:48-65 | 404 unless the caller owns the profile, before validation; 422 for weight or water without a positive value; otherwise a new log under a fresh id, and nothing else changes |
| Logs.LogStore.UpdateLog | src/controllers/logsController.js:67-92 | 404 unless the caller owns the log; 422 for a bad category, then for a non-positive value on a weight or water log; otherwise the whitelisted fields are set and the rest kept |
| Logs.LogStore.DeleteLog | src/controllers/logsController.js:94-104 | 404 unless the caller owns the log; otherwise exactly that log is removed |
| Logs.Merge | src/controllers/logsController.js:87 | `$set`: updated fields take the new value, every other field keeps its value |
| Logs.CreatedWeightIsPositive | src/controllers/logsController.js:56-58 | an accepted weight or water log has a value that is not zero, negative or null |
| Logs.OtherCategoriesUnchecked | src/controllers/logsController.js:56 | other categories skip the positivity check |
| Logs.UpdateKeepsOwner | src/controllers/logsController.js:82-87 | an update keeps the log's profile |
| Logs.UpdateSkipsStoredValue | src/controllers/logsController.js:76-80 | the check applies only to a supplied value: a meal log of −5 updated to category weight becomes a weight log of −5 |
| Logs.NaNValuePasses | src/controllers/logsController.js:56 | a value that reads as NaN passes the positivity check |

## Left out

- Mongoose queries are inputs, not a database.
  - Profiles and prescriptions are sequences.
  - Dismissals are a map from (user, key) to expiry.
  - Logs are a map from id to field map.
  - Profile ownership is a map from profile id to owner id.
  - Sorting, `skip` and `limit` of the log page are left to the database: `Logs.LogStore.ListLogs` returns the set of selected logs, not the page.
- I/O takes the place of parameters.
  - The clock is the parameter `now`; the local time zone is a fixed offset `tz`.
  - `new Date(iso)` in `dismiss` is the parameter `parseDate`.
  - The hosted model's endpoint is the parameter `service`; its API key is the parameter `apiKey`.
  - HTTP, Express, async and the error handler are not part of this model.
- Daylight-saving time is not modelled: local time is a fixed offset from UTC.
- Occurrences.AtTime: `setHours` with an hour or minute that is not a whole number and every other `Date` rounding detail are not modelled. Fields are truncated toward zero, the way `ToIntegerOrInfinity` does.
- JsText.Lower: only ASCII letters are lower-cased. Characters counted are Unicode scalar values, not UTF-16 code units (this matters for `slice(0, 2000)`).
- JsText.StringToNumber: decimal literals with an optional sign only. Hex, binary and octal prefixes, exponents and "Infinity" are read as NaN.
- Dismissals.DismissalExpiry: a key time within five minutes of the end of the `Date` range makes `expiresAt` an Invalid Date, on which `updateOne` fails. The model stores the out-of-range expiry instead.
- The values `now`, `step` and the dismissal expiry are not rounded to doubles. `parseInt` results beyond 2^53 are not rounded. The quotient in `Logs.Pages` is exact.
- `Array.prototype.sort` is a library call with no loop in the source. It is modelled as a stable insertion sort on a value (`Reminders.SortByWhen`), not in place.
- The prescription query is not a database call: `Reminders.List` takes every prescription and applies the query's conditions itself, through the function `Reminders.EligiblePrescriptions`.
- Request bodies are JSON values without objects or arrays.
- A query parameter given twice (`?limit=5&limit=7`) arrives as an array, which `parseInt` reads through its string form "5,7". Query parameters are `Option<string>`, so this case is not modelled.
- `ObjectId.isValid` is not modelled: an id is valid exactly when it is a key of the store.
- A `profileId` that is not a string never counts as owned.
- Log ids are natural numbers handed out in order.
- Logs.LogStore.CreateLog: a body without `category` passes the positivity check, but the schema marks `category` as required (src/models/Log.js:6), so `Log.create` fails with a validation error that goes to the error handler. The model stores the log instead.
- Logs.LogStore.ListLogs: a `page` of 0, a negative `page` or one that is not a number makes `skip` negative or NaN, which the database rejects, and the error goes to the error handler. The model returns the page instead, because sorting, `skip` and `limit` are left to the database.
- Mongoose schema casting, defaults (`date: Date.now`), enum validation on create, `trim` and timestamps are not modelled. Values are stored as given. A cast error, which reaches the error handler, is not modelled.
- `Answers.AskLlm`: a reply whose `content` is not a string (where `trim` would throw) is not modelled.
- `Answers.QueryText`: a query that is not a string, which `String(...)` converts, is not modelled.
- The unused system prompt and the request body sent to the model (`model`, `max_tokens`, `temperature`) are constants of the foreign call and not modelled.
- Concurrency: `Promise.all` in `listLogs` and concurrent requests are not modelled.
- The routes, authentication, the schemas beyond their field lists, and the controllers for profiles and prescriptions are not part of this model.
