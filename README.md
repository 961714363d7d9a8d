# GitHub webhook receiver and event dashboard — a Dafny model

The system is a small Flask application with two sides:

- The **receiver** (`POST /webhook/receiver`) takes GitHub webhook deliveries.
  - It works out the event type: the `X-GitHub-Event` header, or else the payload's shape.
  - It turns `push` events and `pull_request` events into one record each. A pull-request event is stored only when it was opened or merged.
  - A record has six fields: request id, author, action (`PUSH`, `PULL_REQUEST` or `MERGE`), source branch, target branch and timestamp.
  - The timestamp is rewritten as `YYYY-MM-DDTHH:MM:SSZ`.
  - It inserts the record into an `events` collection.
- The **dashboard** (`GET /api/events`) reads the 50 newest stored documents, by timestamp, descending.
  - It turns each one into a view with defaults for missing fields.
  - Each view gets a human-readable timestamp ("1st April 2021 - 9:30 PM UTC") and a sentence describing the event.

The project has seven modules:

| file | module | what it holds |
|---|---|---|
| `wrappers.dfy` | `Wrappers` | `Option` |
| `text.dfy` | `Text` | Decimal digits, zero padding, `startswith`, and Python's replace-all `str.replace` |
| `json.dfy` | `Json` | JSON payload values, Python truthiness, `dict.get` with a default, `x or {}`, and `str()` of a scalar |
| `isotime.dfy` | `IsoTime` | The date-time grammar both route files hand to `datetime.fromisoformat`, with a printer |
| `event_store.dfy` | `EventStore` | The `events` collection as a class `Store` whose `docs` field grows on `insert_one` |
| `webhook.dfy` | `Webhook` | `app/webhook/routes.py` |
| `dashboard.dfy` | `Dashboard` | `app/dashboard/routes.py`, plus the properties linking both sides |

Key modelling points:

- **Date-time grammar.** `ParsePrint` and `PrintParse` prove that the parser accepts exactly the printed strings, each with one meaning.
- **The query.** It is a sort by timestamp followed by a limit.
- **The receiver.**
  - It is a method that classifies the request, extracts at most one record, and appends it to the store.
  - The database handle may be missing (`null`).
  - An `insert_one` that raises is a boolean parameter. The source swallows that failure.
  - The only header modelled is the one value the three `X-GitHub-Event` lookups produce.
- **The dashboard.** `get_events` is a method whose loop builds the list of views.
- **Properties linking both sides:**
  - every record the receiver can insert is shown with its own template, never the fallback one;
  - canonicalising a timestamp before storing it does not change how the dashboard displays it.

Where the code and the design description of the system disagree, the model follows the code:

- **The header is compared exactly.** `push`, and not `Push`, selects the push branch. A non-empty header is never overridden by the payload's shape (`Webhook.Classify`, `Webhook.UnrecognisedHeaderIgnored`).
- **Classification comes first.** It happens before the database check, so a missing database answers 500 for every event type (`Webhook.Receive`).
- **"UTC" is only a label.** The canonicaliser does not convert to UTC. `strftime` prints the wall-clock fields and appends a literal `Z`, so `+05:30` is dropped, not applied (`Webhook.OffsetIsDropped`). The dashboard likewise appends the text "UTC" to whatever wall clock it parsed.
- **Unparsable timestamps are stored.** A non-empty timestamp that does not parse is stored unchanged, not replaced by "".
- **Names are quoted.** Message templates put the author and branch names in double quotes.
- **There is a fallback template.** A fourth template covers any other action (`Dashboard.FallbackOnlyForUnknownAction`).
- **The branch is a replace-all.** The push branch is computed by removing every occurrence of `refs/heads/`, not only the leading one (`Webhook.PushBranchDropsInnerPrefix`). It is modelled as written.

## Model

| member | source | states |
|---|---|---|
| Webhook.ActionName | app/webhook/routes.py:9-11 | Each action is written as one of the three constants `PUSH`, `PULL_REQUEST`, `MERGE` |
| Webhook.ActionNameInjective | app/webhook/routes.py:9-11 | The three action constants are distinct, so a stored action names one kind of event |
| Webhook.RecordFields | app/webhook/routes.py:92-99 | A stored document has exactly the six keys `request_id`, `author`, `action`, `from_branch`, `to_branch`, `timestamp`, with its action one of the three constants |
| Webhook.CanonicalText | app/webhook/routes.py:20 | `strftime("%Y-%m-%dT%H:%M:%SZ")` always has the shape `YYYY-MM-DDTHH:MM:SSZ` |
| Webhook.Canonicalise | app/webhook/routes.py:14-22 | "" stays ""; a string that does not parse is returned unchanged; a parsable one becomes `YYYY-MM-DDTHH:MM:SSZ` reading back as the same wall clock in UTC without fraction |
| Webhook.CanonicalTextParses | app/webhook/routes.py:20 | The `%Y-%m-%dT%H:%M:%SZ` text of a valid date-time has the canonical shape and parses back to its wall clock as UTC |
| Webhook.CanonicaliseIdempotent | app/webhook/routes.py:14-22 | Canonicalising an already canonicalised timestamp changes nothing |
| Webhook.CanonicalisePrinted | app/webhook/routes.py:19-20 | For any date-time of the grammar, whatever its fraction and offset, the result is its wall-clock fields followed by `Z`: the offset is dropped, not applied |
| Webhook.OffsetIsDropped | app/webhook/routes.py:19-20 | `2021-04-01T21:30:00+05:30` is stored as `2021-04-01T21:30:00Z` |
| Webhook.OffsetMinutesPastSixty | app/webhook/routes.py:19-20 | `2021-04-01T21:30:00+05:75` (an offset of 6:15, which `fromisoformat` accepts) is stored as `2021-04-01T21:30:00Z` |
| Webhook.CanonicaliseValue | app/webhook/routes.py:16-17 | A falsy JSON value (missing, `null`, "") gives ""; the result is a fixed point of canonicalisation |
| Webhook.Classify | app/webhook/routes.py:48-61 | A non-empty header is the event type as it is. With an empty header the payload decides: `push` iff it has `ref` and `commits`, else `pull_request` if it has `pull_request`, else "" |
| Webhook.SenderLogin | app/webhook/routes.py:115 | The sender's login, or "Unknown" when that is falsy; never empty |
| Webhook.PushAuthor | app/webhook/routes.py:83-87 | The pusher's name, else the sender's login, else "Unknown"; never empty |
| Webhook.HeadCommitTimestamp | app/webhook/routes.py:88-90 | The head commit's `timestamp`, or its `author.date` when that is falsy; a string or a falsy value |
| Webhook.ExtractPush | app/webhook/routes.py:74-99 | A record exists iff the ref starts with `refs/heads/` and the head commit is truthy. It is a `PUSH` with no source branch, the push author, the ref with every `refs/heads/` removed as target branch, the head commit's id, and the canonicalised head-commit timestamp |
| Webhook.PushBranchIsRefWithoutPrefix | app/webhook/routes.py:82 | When `refs/heads/` does not occur again after the prefix, the target branch is the rest of the ref |
| Webhook.PushBranchDropsInnerPrefix | app/webhook/routes.py:82 | `refs/heads/a/refs/heads/b` gives the branch `a/b`: inner occurrences are also removed |
| Text.ReplaceAll | app/webhook/routes.py:82 | `str.replace`: a replacement no longer than the pattern never lengthens the string, one no shorter never shortens it |
| Text.ReplaceAllAbsent | app/webhook/routes.py:82 | A string in which the pattern does not occur is returned unchanged |
| Text.ReplaceCharAppend | app/webhook/routes.py:19 | Replacing one character (`Z`) distributes over concatenation |
| Text.ReplaceCharAbsent | app/webhook/routes.py:19 | Replacing a character that does not occur changes nothing |
| Json.Truthy | app/webhook/routes.py:16 | A value is falsy exactly when it is `None`, `False`, `0`, `""`, `[]` or `{}` |
| Json.AsObject | app/webhook/routes.py:84 | `(value or {})`: a non-empty result is the dictionary the value was |
| Json.PyStr | app/webhook/routes.py:116 | `str(value)`: a string is itself, a non-negative integer its decimal digits |
| Webhook.ExtractPullRequest | app/webhook/routes.py:109-155 | A record exists iff the pull request is merged and the action is `closed`, or the action is `opened`. Branches come from `head.ref` and `base.ref`, the author is the sender's login, the request id is `str(number)`. A merge is a `MERGE` stamped with `merged_at`, the merge test taking precedence; an opened one is a `PULL_REQUEST` stamped with `created_at` |
| Webhook.ClosedWithoutMergeIgnored | app/webhook/routes.py:118-155 | A pull request closed without being merged stores nothing |
| Webhook.Ingest | app/webhook/routes.py:74-162 | Only `push` and `pull_request` can yield a record. A record has a named author and a canonical-fixed-point timestamp, and is a `PUSH` exactly when it came from a push |
| Webhook.UnrecognisedHeaderIgnored | app/webhook/routes.py:157-162 | A non-empty header other than exactly `push` or `pull_request` stores nothing, whatever the payload |
| Webhook.Appended | app/webhook/routes.py:100-107 | At most one document is added, and one is added iff there is a record and the insert does not raise |
| Webhook.Receive | app/webhook/routes.py:47-164 | Without a database: 500 with `Database not initialized`. Otherwise: 200 `Webhook received`, the store gains exactly the extracted record under the next identifier (nothing if there is none or the insert raises), and a store whose documents all carry a known action keeps that property |
| EventStore.Store.constructor | app/webhook/routes.py:101 | A new collection is empty and valid |
| EventStore.Store.InsertOne | app/webhook/routes.py:100-107 | A raising insert leaves the collection unchanged; otherwise the document is appended with the next identifier, which is returned |
| EventStore.StringLeTotal | app/dashboard/routes.py:62 | Any two timestamps are ordered one way or the other |
| EventStore.StringLeTransitive | app/dashboard/routes.py:62 | The timestamp order is transitive |
| EventStore.KeyLeTotal | app/dashboard/routes.py:62 | Sort keys (a missing timestamp below every string) are totally ordered |
| EventStore.KeyLeTransitive | app/dashboard/routes.py:62 | The sort-key order is transitive |
| EventStore.InsertNewestFirst | app/dashboard/routes.py:62 | Inserting into a newest-first sequence keeps it newest first and adds exactly the one document |
| EventStore.SortNewestFirst | app/dashboard/routes.py:62 | `sort("timestamp", -1)`: the result is newest first and a permutation of the collection |
| EventStore.NewestPrefix | app/dashboard/routes.py:62 | A prefix of a newest-first sequence is newest first, drawn from it, and no document left out is newer than one kept |
| EventStore.Store.Latest | app/dashboard/routes.py:62 | `find().sort("timestamp", -1).limit(n)`: `n` documents (all when there are fewer, or when `n` is 0), newest first, drawn from the collection, none left out newer than one returned |
| IsoTime.DaysInMonth | app/webhook/routes.py:19 | The Gregorian month lengths: 29 exactly for February of a leap year, 28 for other Februaries, 30 for April, June, September, November |
| IsoTime.ParseIso | app/webhook/routes.py:19 | Whatever `fromisoformat` accepts is a valid date-time: years 1 to 9999, real calendar days, hours, minutes, seconds in range, and offsets of less than a day (two-digit minutes not bounded by 60 on their own) |
| IsoTime.ParseTimestamp | app/webhook/routes.py:19 | `fromisoformat(s.replace("Z", "+00:00"))` yields only valid date-times |
| IsoTime.ParseTimestampWithoutZ | app/dashboard/routes.py:29 | A string without `Z` is parsed as it is |
| IsoTime.PrintParse | app/webhook/routes.py:19 | Every valid date-time, printed in the grammar, is read back as itself |
| IsoTime.ParsePrint | app/dashboard/routes.py:29 | Every accepted string is exactly the printed form of its result: the parser gives each text one meaning |
| IsoTime.TailRoundTrip | app/webhook/routes.py:19 | The optional fraction and offset after the seconds are read back as written |
| IsoTime.ZoneRoundTrip | app/webhook/routes.py:19 | A `±HH:MM` offset of less than a day is read back as itself |
| IsoTime.WallClockTextShape | app/webhook/routes.py:20 | `%Y-%m-%dT%H:%M:%S` places zero-padded digits of each field at fixed positions |
| IsoTime.PrintHasNoZ | app/webhook/routes.py:19 | A printed date-time contains no `Z`, so the `Z`-replacement leaves it alone |
| IsoTime.ExampleWallClock | app/webhook/routes.py:15 | 1 April 2021, 21:30:00 is written `2021-04-01T21:30:00`, whatever its fraction and zone |
| Dashboard.OrdinalSuffixOfDays | app/dashboard/routes.py:31-35 | For days 1 to 31: "st" exactly for 1, 21, 31; "nd" for 2, 22; "rd" for 3, 23; "th" otherwise, agreeing with the English rule for ordinals |
| Dashboard.OrdinalSuffix | app/dashboard/routes.py:31-35 | The day's suffix is one of "st", "nd", "rd", "th" |
| Dashboard.MonthName | app/dashboard/routes.py:37 | `%B` is a month name of at least three letters |
| Dashboard.MonthNameInjective | app/dashboard/routes.py:37 | Different months have different names |
| Dashboard.Hour12 | app/dashboard/routes.py:39 | `int(strftime("%I"))` lies in 1 to 12 and agrees with the hour modulo 12 |
| Dashboard.Meridiem | app/dashboard/routes.py:40 | `%p` is "AM" exactly before noon, "PM" otherwise |
| Dashboard.TwelveHourClock | app/dashboard/routes.py:39-40 | `%I` is 12 for hours 0 and 12 and runs 1 to 12. `%p` is AM before noon. The 12-hour reading determines the hour |
| Dashboard.DisplayTimestamp | app/dashboard/routes.py:22-45 | "" gives "unknown time"; a non-empty string that does not parse is shown unchanged; a parsable one is rendered `<day><suffix> <Month> <Year> - <h>:<mm> <AM/PM> UTC` from its wall clock |
| Dashboard.Render | app/dashboard/routes.py:37-42 | The rendering starts with the day, its suffix and a space, and ends with " UTC" |
| Dashboard.DisplayOfCanonicalised | app/dashboard/routes.py:22-45 | A timestamp is displayed the same whether or not the receiver canonicalised it first |
| Dashboard.RenderExample | app/dashboard/routes.py:23 | 1 April 2021, 21:30 is rendered "1st April 2021 - 9:30 PM UTC" |
| Dashboard.ParseExample | app/dashboard/routes.py:29 | `2021-04-01T21:30:00Z` parses as 1 April 2021, 21:30:00 UTC |
| Dashboard.DisplayExample | app/dashboard/routes.py:23 | `2021-04-01T21:30:00Z` is displayed "1st April 2021 - 9:30 PM UTC", as received and as stored |
| Dashboard.FormatMessage | app/dashboard/routes.py:91-106 | Every sentence starts with the quoted author and ends with " on " and the display time |
| Dashboard.SentenceInjective | app/dashboard/routes.py:99-106 | Two sentences about one document are equal exactly when their phrases are |
| Dashboard.KnownPhraseOnlyForKnownAction | app/dashboard/routes.py:99-106 | The phrase is the generic "performed action" one exactly when the action is not one of the three constants |
| Dashboard.FallbackOnlyForUnknownAction | app/dashboard/routes.py:99-106 | The generic "performed action" sentence is produced exactly for documents whose action is not one of the three constants |
| Dashboard.RecordPhrase | app/dashboard/routes.py:99-104 | The phrase for a stored push, pull request or merge names its quoted branches |
| Dashboard.RecordMessage | app/dashboard/routes.py:99-104 | A stored push, pull request or merge is described by its own template, with author and branches quoted |
| Dashboard.IngestedNeverFallsBack | app/dashboard/routes.py:91-106 | Every record the receiver can insert is described by its own template, never the fallback |
| Dashboard.ViewOf | app/dashboard/routes.py:66-78 | A view's formatted timestamp is the display of its timestamp and its message is the document's sentence. A missing timestamp shows "" and "unknown time"; a missing author shows "Unknown" |
| Dashboard.EmptyDocumentDefaults | app/dashboard/routes.py:66-78 | A document without fields is shown with every default of `event.get` |
| Dashboard.ViewsNewestFirst | app/dashboard/routes.py:62-79 | Views of newest-first documents carry their timestamps in descending order |
| Dashboard.ViewsOfNewestFirst | app/dashboard/routes.py:62-79 | Views built one per newest-first document keep the order. None of them falls back when every stored document has a known action |
| Dashboard.FormatEvents | app/dashboard/routes.py:64-79 | The loop yields exactly one view per document, in the query's order |
| Dashboard.GetEvents | app/dashboard/routes.py:55-81 | Without a database: status 500 with the error "Database not available". Otherwise: status 200 and Otherwise: one view per document of the newest-first 50, at most 50 (all documents when there are no more than 50), timestamps descending, and no fallback sentence when every stored document has a known action |

## Left out

- Flask plumbing is not modelled: routing, `jsonify`, the HTML page, `GET /webhook/`, logging and `print`, and the application factory. The answers are values of `Response`/`EventsResponse`.
- `_get_db` and PyMongo are not modelled. The handle is a `Store?` parameter, `null` for a missing database.
- The `except Exception` path of `get_events` is not modelled. It answers 500 with the exception's text, and exceptions come from the database, which the model does not fail.
- Webhook.Receive: the request must lie inside the payload shapes the handler processes without raising (`Webhook.IngestOk`, built from `PushOk` and `PullRequestOk`) when a database is present. Without a database the source answers 500 before reading the payload, and the model does so for every payload. With one, Python would raise on these and Flask would answer 500:
  - a non-dictionary `head_commit`, `pull_request`, `pusher`, `sender`, `head` or `base`;
  - a non-string `ref`.
- Webhook.Receive: the same shapes also require the values that are stored to be strings, because the store holds string fields. The source would store any JSON value.
- Webhook.ExtractPullRequest: a pull-request `number` that is a list or an object is not modelled (`PullRequestOk` asks for a scalar). `str()` would store its Python repr; the model does not render container reprs.
- Webhook.Receive: a JSON body that is not an object (a list, say) is not modelled; `data` is always a dictionary.
- Webhook.Receive: the three spellings of the header lookup are one `header` parameter, because Flask header lookup ignores case.
- Webhook.Receive: the id returned by `insert_one` is not used.
- IsoTime.ParseIso: offset hours and minutes are two digits each and the whole offset is bounded by a day, as `timezone` demands; fractions are not limited to six digits.
- IsoTime.ParseIso: only part of the Python 3.11 grammar of `datetime.fromisoformat` is modelled. It accepts `YYYY-MM-DDTHH:MM:SS`, an optional `.digits` fraction, and an optional `±HH:MM` offset. Left out:
  - date-only and reduced forms;
  - separators other than `T`;
  - `,` as the fraction mark;
  - `±HHMM` offsets and offsets with seconds;
  - week dates.
  Such strings are treated as unparsable, so the receiver stores them unchanged and the dashboard shows them unchanged.
- Webhook.Canonicalise: years below 1000 are written with four zero-padded digits. The C library's `%Y` may not pad them.
- Dashboard.DisplayTimestamp: years below 1000 are written with four zero-padded digits. The C library's `%Y` may not pad them.
- EventStore.Document: the MongoDB `ObjectId` is an insertion serial, shown in decimal. `str(ObjectId)` is a 24-digit hexadecimal text.
- EventStore.Store.Latest: the order among documents with equal timestamps is fixed by an insertion sort. MongoDB leaves that order unspecified, and the contract says nothing about it.
- EventStore.Store.Latest: the collection holds only string-valued fields. BSON's ordering across types is limited to "missing sorts below every string".
- Concurrency between requests and persistence across restarts are not modelled.
