# Travel planner tools: day-section calendar converter and search-result formatter

This project models the two pieces of logic in the AI travel planner's
`tools.py` and proves properties about them.

- **`generate_ics_content`** turns an itinerary text into an iCalendar
  calendar. The text is cut into day sections with the regular expression
  `Day (\d+)[:\s]+(.*?)(?=Day \d+|$)` under DOTALL, using `findall`. Each
  section `Day N` becomes one all-day event:
  - its summary is `第 N 天行程`;
  - its description is the stripped section body;
  - its date is the start date plus N - 1 days.

  A text with no day header becomes a single event. That event is summarised
  `旅行行程`, holds the whole text, and is dated the start date. The calendar
  always carries PRODID `-//AI 旅行计划器//github.com//` and VERSION `2.0`.
- **`search_web`** (everything after the HTTP request) turns the SerpAPI key
  and the parsed JSON response into the text the agent receives:
  - a fixed message when the key is unset;
  - a fixed message when there are no organic results;
  - otherwise one `标题/链接/摘要/---` entry for each of the first five
    results, with placeholders for missing fields, joined by newlines.

The modules:

- `Wrappers`: `Option` (None, or a missing dictionary key) and `Result` (a
  raised exception).
- `Text`: Python's `\d` and `\s` classes, `str.strip()`, `str.join`,
  `int()` and `str()` on digit strings.
- `DayPattern`: the regular expression and `findall`.
  - `MatchAt` tries the pattern at one position.
  - `Scan` is the left-to-right search. It is proved equal to the only
    sequence of matches that satisfies the declarative `FindAllFrom`
    (leftmost, non-overlapping, no header skipped).
- `Ics`: the events and the calendar.
  - `Convert` is the whole conversion as a function. Its per-day loop is
    `DayEvents`, and `DaySummary` writes `第 N 天行程`.
  - `Calendar` is a class whose `Add` and `AddComponent` methods update its
    `properties` and `components`.
  - `GenerateIcs` builds the calendar step by step and is proved to yield
    exactly the events of `Convert`.
- `Search`: `SearchText` specifies the search result. `SearchWeb` is the
  loop that collects the snippets, proved equal to `SearchText`. `Entry`
  formats one result.

Dates are day ordinals, numbered as Python's `date.toordinal()` numbers them:
0001-01-01 is 1 and 9999-12-31 is 3652059.

Besides serialisation, `generate_ics_content` has one error path:
`start_date + timedelta(days=N - 1)` raises `OverflowError` when the date
leaves the range of `datetime`, for example for a very large N. The model
returns `Failure(DateOverflow(N))` for the first such section in text order.

Without MULTILINE, `$` in the lookahead also holds just before a final
newline, so a last body stops before a trailing `\n`. `BoundaryAt` states
this.

## Model

| member | source | states |
|---|---|---|
| Text.RunEnd | 2025ShortSemesterProject/tools.py:21 | a greedy run of a character class (the `\d+` and `[:\s]+` of the pattern) ends at the first character outside the class, or at the end of the text |
| Text.Strip | 2025ShortSemesterProject/tools.py:40 | `strip()` leaves neither leading nor trailing whitespace |
| Text.StripRemovesOnlyOuterSpace | 2025ShortSemesterProject/tools.py:40 | the original text is the stripped text with whitespace added only before and after it, so `strip()` removes nothing else |
| Text.Join | 2025ShortSemesterProject/tools.py:82 | `"\n".join`: empty for no parts; begins with the first part; its length is the parts' total plus one separator between each pair |
| Text.Decimal | 2025ShortSemesterProject/tools.py:39 | `str(n)` is a non-empty string of digits with no leading zero unless n is 0 |
| Text.DecimalRoundTrip | 2025ShortSemesterProject/tools.py:35-39 | `int(str(n)) == n`: reading back the digits written for n gives n |
| Text.DecimalInjective | 2025ShortSemesterProject/tools.py:39 | different day numbers are written differently |
| DayPattern.NextBoundary | 2025ShortSemesterProject/tools.py:21 | the lazy body stops at the first position where `Day <digit>`, the end of the text, or a final newline follows |
| DayPattern.MatchAt | 2025ShortSemesterProject/tools.py:21 | the pattern matches at p exactly when "Day ", digits and at least one ':' or whitespace begin at p; the match found there satisfies `IsMatch` |
| DayPattern.MatchAtUnique | 2025ShortSemesterProject/tools.py:21 | a match is determined by its start: any `IsMatch` at p is what the pattern finds at p |
| DayPattern.Scan | 2025ShortSemesterProject/tools.py:22 | every match the scan returns lies within the text, after the scan's start, and has an all-digit day number |
| DayPattern.ScanIsFindAll | 2025ShortSemesterProject/tools.py:22 | the scan yields matches that are in order, do not overlap, and leave no day header in any gap between them |
| DayPattern.FindAllUnique | 2025ShortSemesterProject/tools.py:22 | any sequence of matches with those properties is the scan's result, so `findall` is fully determined by them |
| DayPattern.MatchesOrdered | 2025ShortSemesterProject/tools.py:22 | a later match starts at or after the end of every earlier one |
| DayPattern.FindAll | 2025ShortSemesterProject/tools.py:22 | each day number `findall` returns is a non-empty string of digits, so `int(day_num)` cannot fail on it |
| DayPattern.FindAllEmptyIff | 2025ShortSemesterProject/tools.py:22-24 | `findall` finds nothing exactly when no day header (with its ':' or whitespace) occurs in the text |
| DayPattern.BodiesHaveNoDayNumber | 2025ShortSemesterProject/tools.py:21-22 | no returned body contains "Day " followed by a digit, because such text starts the next section |
| DayPattern.IntroductionDropped | 2025ShortSemesterProject/tools.py:21-22 | the text before the first day header contains no header and lies before every body, so it appears in no event |
| Ics.DaySummary | 2025ShortSemesterProject/tools.py:39 | no contract of its own: `DaySummaryInjective` and `ConvertEventAt` state what `第 N 天行程` guarantees |
| Ics.DaySummaryInjective | 2025ShortSemesterProject/tools.py:24-39 | `第 N 天行程` differs for different N and never equals the fallback summary `旅行行程` |
| Ics.DayEvents | 2025ShortSemesterProject/tools.py:34-44 | a successful loop yields exactly one event per section; `DayEventsSpec` states the rest |
| Ics.DayEventsSpec | 2025ShortSemesterProject/tools.py:34-44 | the loop succeeds exactly when every section's date is in range; it then yields one event per section in text order; otherwise it raises for the first section whose date is not in range |
| Ics.DayEventsAllInRange | 2025ShortSemesterProject/tools.py:34-44 | when every date is in range, the loop's events are exactly the per-section events |
| Ics.DayEventsFirstFailure | 2025ShortSemesterProject/tools.py:35-36 | the first section whose date is out of range makes the loop raise with that section's day number |
| Ics.DayEventAt | 2025ShortSemesterProject/tools.py:34-44 | the k-th event of a successful loop is the k-th section's |
| Ics.Convert | 2025ShortSemesterProject/tools.py:9-46 | a successful conversion always yields at least one event; the lemmas below state which |
| Ics.ConvertFallbackIff | 2025ShortSemesterProject/tools.py:24-32 | a text without any day header gives exactly one event: summary `旅行行程`, the whole unstripped text as description, start and end on the start date; a text with a header never gives that event |
| Ics.ConvertCount | 2025ShortSemesterProject/tools.py:22-44 | the number of events is the number of sections, or one when there is none |
| Ics.ConvertEventAt | 2025ShortSemesterProject/tools.py:34-42 | the k-th event comes from the k-th header in the text: summary `第 N 天行程`, the stripped body, start and end both on start + (N - 1) |
| Ics.ConvertFailsIff | 2025ShortSemesterProject/tools.py:35-36 | the conversion raises exactly when some section's date falls outside the range of dates |
| Ics.OutOfOrderDaysKeepTextOrder | 2025ShortSemesterProject/tools.py:34-44 | "Day 2: X Day 1: Y" gives the day-2 event first, dated the day after the start, then the day-1 event: events are not sorted by N |
| Ics.Calendar.constructor | 2025ShortSemesterProject/tools.py:13 | a new calendar has no properties and no components |
| Ics.Calendar.Add | 2025ShortSemesterProject/tools.py:14-15 | `cal.add` appends one property and leaves the components unchanged |
| Ics.Calendar.AddComponent | 2025ShortSemesterProject/tools.py:32-44 | `cal.add_component` appends one event and leaves the properties unchanged |
| Ics.GenerateIcs | 2025ShortSemesterProject/tools.py:9-46 | the calendar is new, carries exactly the PRODID and VERSION properties, and holds exactly the events of `Convert`; it raises exactly when `Convert` does, with the same error |
| Ics.AddDayEvents | 2025ShortSemesterProject/tools.py:34-44 | the loop adds the `DayEvents` events in order, leaves the properties alone, and stops with the same error when a date is out of range |
| Search.TopResults | 2025ShortSemesterProject/tools.py:73 | `organic_results[:5]`: at most five results, a prefix of the list, the whole list when it is shorter |
| Search.Entry | 2025ShortSemesterProject/tools.py:74-77 | no contract of its own: `EmptyResultEntry` states the placeholders and `ResultsTextStartsWithTitle` the `标题:` label |
| Search.SearchText | 2025ShortSemesterProject/tools.py:55-82 | the returned text is never empty; `MissingKeyIff`, `NoResultsIff` and `ReportsFirstFive` state which text it is |
| Search.SearchWeb | 2025ShortSemesterProject/tools.py:55-82 | the loop that appends snippets and joins them returns exactly `SearchText` for every key and response |
| Search.ResultsTextStartsWithTitle | 2025ShortSemesterProject/tools.py:77-82 | text joined from one or more results begins with `标`, the first character of the first entry's `标题:` label, so it is never one of the two fixed messages |
| Search.MissingKeyIff | 2025ShortSemesterProject/tools.py:55-57 | the key-not-set message is returned exactly when the key is unset or empty, whatever the response |
| Search.NoResultsIff | 2025ShortSemesterProject/tools.py:72-80 | with a key, the no-information message is returned exactly when `organic_results` is absent or empty |
| Search.ReportsFirstFive | 2025ShortSemesterProject/tools.py:72-82 | with a key and results, the text is the entries of the first min(5, n) results in order, joined by newlines |
| Search.IgnoresBeyondFifth | 2025ShortSemesterProject/tools.py:73 | results after the fifth do not change the text |
| Search.EmptyResultEntry | 2025ShortSemesterProject/tools.py:74-77 | a result with no title, link or snippet shows `No title`, `#` and `No snippet available.` |

## Left out

- The HTTP request in `search_web` (`requests.get`, `raise_for_status`, `.json()`) is left out, along with the two `except` branches that turn request and processing errors into text (tools.py:59-69, 84-87). This is network I/O. The parsed response is a parameter instead, and the query only feeds the request, so it does not appear.
- A `title`, `link` or `snippet` key present with `null` or a non-string value is not modelled. The code does not raise on it: the f-string prints the value's `str()`, for example `标题: None`.
- A non-list `organic_results`, or an element of it that is not a dictionary, is not modelled. The code fails on it and reports the failure through the second `except` branch (tools.py:86-87).
- `cal.to_ical()` (tools.py:46) is left out. It is the external iCalendar library's serialisation. The model stops at the calendar's properties and events.
- DTSTAMP (`datetime.now()`, tools.py:31, 43) and the `datetime.today()` default start date (tools.py:17-18) are left out because they read the clock. The start date is a parameter.
- Gregorian calendar arithmetic is not modelled: dates are day ordinals, and only the range check of `date`/`timedelta` is kept.
- `\d` is restricted to the ASCII digits. Python also accepts other Unicode decimal digits in the pattern and in `int()`.
- Python's limit on converting digit strings longer than 4300 digits (`ValueError`) is not modelled.
- `app.py` and `agent_logic.py` are not part of this model. They hold the Streamlit interface and the LangChain agent set-up.
