# GitLab token expiry exporter, modelled in Dafny

The exporter asks the GitLab API for the groups, the access tokens of each
group, the projects of each group and the access tokens of each project.
Each listing is a single request with no request for a next page: groups
and projects ask for up to 100 per page, token listings take the server's
default page size. So only the first page of each listing is ever read. For every
token whose `expires_at` reads as a date it publishes one sample of the
Prometheus gauge `gitlab_token_days_left`: the whole days left before the
token expires, labelled with `token_name`, `owner` (the group's full path or
the project's namespaced name), `scope` (`group` or `project`) and
`alert_level` (`CRITICAL`, `WARNING`, `ALERT` or `INFO`). Background
workers rebuild the gauge from scratch under a lock, each one every five
minutes. Importing the module starts one worker, and running it as a script
starts a second one beside it. `GET /metrics` answers 503 "Metrics not ready yet" until the first rebuild
has finished. From then on it answers with the whole default Prometheus
registry written out by `generate_latest()`; the model's answer carries
only this gauge.

The model has six modules:

- `Wrappers`: the `Option` type.
- `Calendar`: proleptic Gregorian dates and Python's day ordinal
  (`date.toordinal()`), with the closed form proved equal to adding up year
  and month lengths one by one, and consecutive days proved to have
  consecutive ordinals.
- `DateParse`: `str.strip()` with Python's whitespace set, and
  `datetime.strptime(text, "%Y-%m-%d")` as CPython's `_strptime` matches it.
  The year takes four digits. The month is the first of `1[0-2]`, `0[1-9]`
  or `[1-9]`. The day is the first of `3[01]`, `[12]\d`, `0[1-9]`, `[1-9]` or
  ` [1-9]`. Text left over after the day is an error, and so is a date that
  `datetime.date` refuses.
- `Expiry`: `calculate_days_left` and `get_alert_level`.
- `Snapshot`: the samples one cycle sets, in loop order, and the gauge they
  leave when each `.labels(...).set(...)` overwrites its label set. This is
  stated for any day-counting function, so the exporter's `DayCounter(now)`
  is one instance.
- `Exporter`: the class `TokenExporter` with the gauge and `metrics_ready`
  as fields. `RefreshCycle` runs the cycle's nested loops. `Metrics` is the
  `/metrics` handler.

The day count is `(expiry at midnight - now).days`. A `timedelta`'s `days`
field is the floor of the difference, not a truncation toward zero. So a
token that expired yesterday, read at noon, has -2 days left, not -1. The
model follows this floor. At midnight the count is the exact number of
calendar days, and at any later moment of the day it is one less.

## Model

| member | source | states |
|---|---|---|
| Calendar.DaysInMonth | exporter.py:28 | month lengths lie in 28..31, and a month has 29 days exactly when it is February of a leap year |
| Calendar.NextDay | exporter.py:28-29 | the day after a valid date is a valid date |
| Calendar.OrdinalCountsDays | exporter.py:29 | the ordinal used in date subtraction equals the whole years before the date plus the whole months before it in its year plus its day of the month |
| Calendar.OrdinalFirstDay | exporter.py:29 | 0001-01-01 is day 1 |
| Calendar.OrdinalNextDay | exporter.py:29 | the day after a date has the next ordinal, across month and year ends |
| DateParse.LeadingSpacesRun | exporter.py:27 | the characters `strip` drops at the front are all whitespace, and the one after them is not |
| DateParse.TrailingSpacesRun | exporter.py:27 | the characters `strip` drops at the back are all whitespace, and the one before them is not |
| DateParse.Strip | exporter.py:27 | the stripped text neither starts nor ends with whitespace |
| DateParse.StripIsSlice | exporter.py:27 | the stripped text is a slice of the input with only whitespace cut off on either side |
| DateParse.StripIgnoresSurroundingSpace | exporter.py:27 | whitespace added on either side of a text does not change its strip |
| DateParse.ParseDate | exporter.py:28 | every accepted text is a valid calendar date of 8 to 10 characters with `-` after the year |
| DateParse.ParseFormat | exporter.py:28 | every valid date written as `YYYY-MM-DD` parses back to that date |
| DateParse.FormatParse | exporter.py:28 | a ten-character text without a space-padded day that parses is the `YYYY-MM-DD` form of the date it is read as |
| DateParse.ParseAccepts | exporter.py:28 | `2024-01-10`, `2024-02-29` and the one-digit `2024-1-5` are accepted as those dates |
| DateParse.ParseRefuses | exporter.py:28 | `2023-02-29`, `2024-13-01`, `0000-01-01` and `not-a-date` are refused |
| Expiry.DaysLeft | exporter.py:25-32 | a count exists exactly when the value is text whose strip parses as a date, and then it is the expiry's ordinal minus today's, minus one more when `now` is past midnight |
| Expiry.DaysUntil | exporter.py:28-29 | a parsed expiry gives the difference of day ordinals, less one after midnight; a failed parse gives `None` |
| Expiry.TimedeltaDays | exporter.py:29 | `(expiry - now).days` with the expiry at midnight is the difference of day ordinals, less one when `now` is past midnight, as `timedelta` rounds down |
| Expiry.DaysLeftIgnoresSpace | exporter.py:27 | surrounding whitespace in `expires_at` does not change the count |
| Expiry.DaysLeftFormatted | exporter.py:28-29 | for an expiry in the API's ISO form, the count is the difference of day ordinals, less one after midnight |
| Expiry.DaysLeftNextDay | exporter.py:28-29 | an expiry one day later gives a count exactly one higher, at any time of day |
| Expiry.DaysLeftExample | exporter.py:28-29 | `2024-01-10` read at `2024-01-05T00:00` gives 5, and one microsecond later gives 4 |
| Expiry.DaysLeftFailures | exporter.py:30-32 | `not-a-date`, the non-date `2023-02-29` and a non-text value all give `None` |
| Expiry.AlertLevelOf | exporter.py:63-65 | the level is `UNKNOWN` exactly when there is no count |
| Expiry.AlertLevelThresholds | exporter.py:66-73 | a count is `CRITICAL` iff at most 5, `WARNING` iff in 6..30, `ALERT` iff in 31..60, `INFO` iff above 60, and never `UNKNOWN` |
| Expiry.SeverityNonIncreasing | exporter.py:66-73 | more days left never gives a more severe level |
| Expiry.AlertLevelNamesDistinct | exporter.py:64-73 | the five label values are pairwise different |
| Snapshot.TokenSample | exporter.py:107-114 | a token yields a sample exactly when its count exists; the sample's value is that count, and it carries the token's name, the owner, the scope, the level of its own value, and never `UNKNOWN` |
| Snapshot.TokenSamples | exporter.py:106-114 | a token list yields at most one sample per token |
| Snapshot.TokenSamplesMembers | exporter.py:106-114 | a sample is among a token list's samples exactly when some token of the list yields it |
| Snapshot.ProjectSamplesMembers | exporter.py:117-129 | a sample is among the projects' samples exactly when some token of some project yields it with scope `project` and the project's namespaced name |
| Snapshot.CycleSamplesMembers | exporter.py:101-129 | a sample is among a cycle's samples exactly when some group token or some project token of some group yields it |
| Snapshot.SetAll | exporter.py:109-114 | after a series of sets, a label set is present exactly when it was present before or some set used it |
| Snapshot.SetAllAppend | exporter.py:106-129 | setting two series one after the other is setting their concatenation |
| Snapshot.SetAllLastWins | exporter.py:109-114 | a label set holds the value of the last set that used it |
| Snapshot.SetAllLastSetter | exporter.py:109-114 | a label set some sample sets is present and holds the value of the last sample, in setting order, that sets it |
| Snapshot.SetAllKeepsUnset | exporter.py:109-114 | a label set no set used keeps its earlier value |
| Snapshot.SetAllConsistent | exporter.py:109-114 | sets whose level matches their value keep every value's level matching it |
| Snapshot.SnapshotIsThisCycle | exporter.py:96-129 | after the clear and the loops, a label set is present exactly when some token of this cycle yields it; it holds the day count of a token of this cycle that yields it; its level is the level of its value and never `UNKNOWN`; no groups leaves the gauge empty |
| Snapshot.GroupTokenPublished | exporter.py:105-114 | each group token with a count is published under its name, the group's full path, scope `group` and its level |
| Snapshot.ProjectTokenPublished | exporter.py:116-129 | each project token with a count is published under its name, the project's namespaced name, scope `project` and its level |
| Exporter.TokenExporter.constructor | exporter.py:18-22 | the gauge starts empty and `metrics_ready` starts false |
| Exporter.TokenExporter.RefreshCycle | exporter.py:94-130 | whatever the gauge held, it ends as exactly this cycle's snapshot, and `metrics_ready` is true |
| Exporter.TokenExporter.SetTokens | exporter.py:106-114 | the loop over one token list applies that list's samples, in order, to the gauge |
| Exporter.TokenExporter.Metrics | exporter.py:138-142 | 503 with "Metrics not ready yet" exactly while no cycle has completed, and afterwards 200 with the gauge's current samples |

## Left out

- `get_groups`, `get_projects_for_group`, `get_project_tokens` and `get_group_tokens` (exporter.py:34-85) call the GitLab API over HTTP. The model takes what each call returned as given data. The model's input sequences are the first (and only) page each listing returns. A call that failed returned an empty list, so it is modelled as an empty sequence.
- The Flask application, the route and `generate_latest()` (exporter.py:135-149) belong to a web framework and to a library that writes the exposition text. `Metrics` returns the gauge map itself instead of its text form, and leaves out the other metrics of the default registry (the process, platform and garbage-collection collectors).
- The daemon threads, the lock, the endless `while True` and `time.sleep(300)` (exporter.py:89, 93-94, 132, 143-148) are concurrency and scheduling. exporter.py:146 starts one worker at import, and under `__main__` exporter.py:148 starts a second one, so a script run has two workers polling GitLab. The lock runs their cycles one at a time, so any interleaving of the two is a sequence of `RefreshCycle` calls, which the model allows. Each locked section is one method call. The model has no interleaving, so atomicity is assumed by construction.
- `print` logging is left out. The `if not groups` branch (exporter.py:98-99) only prints, and otherwise acts like a loop over no groups.
- Exporter.TokenExporter.RefreshCycle: reads the clock once per cycle through its `now` parameter. The source calls `datetime.utcnow()` afresh for each token, so a cycle that crosses midnight may count later tokens one day lower than the model does.
- DateParse.ParseDate: takes only ASCII `0`-`9` as digits. Python's `\d` also matches other Unicode decimal digits, and `int()` reads them, so texts written in such digits are accepted by the source and refused by the model.
- A token or group without the expected JSON field raises `KeyError` and kills the worker thread. The gauge is then left cleared and only partly refilled, and if an earlier cycle had already set `metrics_ready`, `/metrics` keeps serving that partial gauge until a restart, unless another worker completes a cycle. The model's data always has the fields, so every cycle completes.
- Group and project `id`s only feed the HTTP calls. They are carried in the data but play no part in what is published.
- The gauge's metric name and help text (exporter.py:18-22) are registry metadata with no behaviour.
