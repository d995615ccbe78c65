# Festival lineup scraper: the performance-slot assembler

The scraper in `main.ts` reads the daily schedule pages of a festival site.
Each page is paired with a calendar date. The scraper turns every performer
entry on a page into an `Act` record:

```
{stage, start, end, act, blurb, url?}
```

This project models the assembler that builds one record from one entry, and
the two `Promise.all` joins around it: the entries of a page, and then the
pages. The properties proved are these:

- which entries succeed;
- the overnight rollover of early-hours times to the next calendar day;
- the text form of `start` and `end`, and that it reads back;
- when the `url` key is present;
- that the text fields are trimmed;
- that the joins are all-or-nothing and keep their order.

Modules, each in its own file:

- `Outcomes` (`outcomes.dfy`): `Option` and `Outcome`, the `x ?? throw_()`
  step (`Required`), `Promise.all` over a mapped array (`MapAll`), and
  `.flat()` (`Flatten`, `JoinFlat`).
- `JsString` (`jsstring.dfy`): ECMAScript `String.prototype.trim` and
  `split`/`join` with a one-character separator.
- `Digits` (`digits.dfy`): zero-padded decimal numerals and reading them back.
- `Temporal` (`temporal.dfy`): the parts of the ECMAScript Temporal API the
  scraper calls.
  - `PlainDate` and `PlainTime` are subset types, so only valid values exist.
  - `date.add({days: 1})` (`AddOneDay`) covers the proleptic Gregorian
    calendar and Temporal's date limits.
  - `toString()` and `from(...)` cover the `YYYY-MM-DD` and `HH:MM[:SS]`
    forms.
- `Scraper` (`scraper.dfy`): the entry callback of `parsePage`
  (`AssembleAct`, `AssembleSlot`), `parsePage` itself (`ParsePage`), the page
  step (`ScrapePage`) and the top-level join (`Run`), with their properties.
- `Scenarios` (`scenarios.dfy`): the configured `PAGES` list, an example
  entry worked through end to end, and calendar
  rollovers across month ends, year ends and February.
- `Seqs` (`seqs.dfy`): three facts about sequence concatenation used by the
  proofs.

Every throw in the source becomes the single outcome `Failure`. The two
fetches and the DOM's HTML-to-text step are function parameters.

Two behaviours of the code are easy to misread. The model follows the code
in both.

- **Extra pieces.** A duration is not required to have exactly two pieces.
  The code destructures only the first two pieces of `split("-").map(...)`.
  Every piece must still parse, but a third piece is otherwise ignored
  (`ExtraPiecesIgnored`).
- **Page order.** Page results do not come in order of fetch completion.
  `Promise.all` keeps the order of `PAGES`, so the output follows page order
  whatever the fetch latency (`RunAppend`).

## Model

| member | source | states |
|---|---|---|
| Outcomes.Required | main.ts:64-87 | `?? throw_()` fails exactly when the value is missing; a present value, even an empty string, is passed on unchanged |
| Outcomes.MapAll | main.ts:61-63 | `Promise.all` over a mapped array succeeds exactly when every element succeeds, and then yields one result per element, element `i`'s result at position `i` |
| Outcomes.MapAllAppend | main.ts:61-63 | joining a concatenation is joining each part and concatenating the results; a failure in either part fails the whole |
| Outcomes.FlattenAppend | main.ts:112 | `.flat()` of a concatenation is the concatenation of the flattened parts |
| Outcomes.Flatten | main.ts:112 | `.flat()` loses nothing and adds nothing: every element of every list is in the result, and every element of the result comes from one of the lists |
| Outcomes.JoinFlatAppend | main.ts:105-112 | joining and flattening a concatenation of pages gives the first part's acts followed by the second's, or a failure if either part fails |
| Outcomes.JoinFlatSingle | main.ts:105-112 | joining and flattening one page gives exactly that page's result |
| Outcomes.JoinFlat | main.ts:105-112 | joining and flattening succeeds exactly when every element succeeds; the result then holds every element's items and nothing else |
| JsString.TrimStart | main.ts:73 | the result is a suffix of the input that does not start with white space, and everything removed is white space |
| JsString.TrimEnd | main.ts:73 | the result is a prefix of the input that does not end with white space, and everything removed is white space |
| JsString.Trim | main.ts:64-66 | `trim()` leaves no white space at either end |
| JsString.TrimUnique | main.ts:73 | whenever a string is white space, then a string with no white space at either end, then white space, `trim()` returns exactly that middle string |
| JsString.TrimFixesTrimmed | main.ts:77-79 | a string with no white space at either end is returned unchanged by `trim()` |
| JsString.TrimIdempotent | main.ts:90-91 | trimming twice is the same as trimming once |
| JsString.Split | main.ts:71-72 | `split("-")` always yields at least one piece, so `startTime` is always bound |
| JsString.SplitCount | main.ts:71-72 | there is exactly one more piece than there are separators |
| JsString.SplitPiecesLackSeparator | main.ts:71-72 | no piece contains the separator |
| JsString.JoinSplit | main.ts:71-72 | joining the pieces with the separator rebuilds the original string |
| JsString.SplitJoin | main.ts:71-72 | splitting a join of separator-free pieces gives back exactly those pieces |
| JsString.SplitAppend | main.ts:71-72 | splitting `s + sep + t` gives the pieces of `s` followed by the pieces of `t` |
| Digits.PadDigits | main.ts:95-96 | a padded numeral has exactly the requested width and only digits |
| Digits.ParseDigits | main.ts:74 | reading a numeral succeeds exactly when every character is a digit, and the value is below 10 to the power of the length |
| Digits.ParsePadDigits | main.ts:95-96 | reading back a padded numeral gives the number whenever it fits the width |
| Digits.PadParseDigits | main.ts:74 | writing a numeral that was just read, at its own width, gives back the same string |
| Temporal.AddOneDay | main.ts:81-82 | `date.add({days: 1})` fails only on Temporal's last date; otherwise the result is one epoch day later and later in calendar order |
| Temporal.NextDay | main.ts:81-82 | the next calendar day is a calendar date, later than the given one in calendar order |
| Temporal.NextDaySteps | main.ts:81-82 | the next calendar day, across month and year ends and with the leap-year rule, is exactly one epoch day on |
| Temporal.AddOneDayIsNext | main.ts:81-82 | no valid date lies strictly between a date and the date one day later |
| Temporal.EpochDayOrder | main.ts:81-82 | calendar order of dates is the order of their epoch-day numbers, in both directions, and equal numbers mean equal dates |
| Temporal.DateLimits | main.ts:81-82 | 1970-01-01 is epoch day 0; -271821-04-19 and +275760-09-13 are the first and last valid dates, and adding a day to the last one fails |
| Temporal.YearRange | main.ts:95 | a valid date's year lies between -271821 and 275760, so its text form always exists |
| Temporal.YearToString | main.ts:95 | a year's text form is four or seven characters long; `YearRoundTrip` states that it reads back as the year |
| Temporal.DateToString | main.ts:95-96 | a date's text form contains no space, so the timestamp's single space separates the date from the time |
| Temporal.TimeToString | main.ts:95-96 | a time's text form is eight characters with `:` at positions 2 and 5 and contains no space |
| Temporal.YearRoundTrip | main.ts:95 | reading back the text form of a year gives the year |
| Temporal.DateRoundTrip | main.ts:95 | `PlainDate.from(d.toString())` gives back `d` for every valid date |
| Temporal.ParseDate | main.ts:7-19 | a string `PlainDate.from` accepts has 10 or 13 characters, a hyphen before the month and before the day, and digits for both |
| Temporal.ParseDateThenPrint | main.ts:7-19 | a date read from a `YYYY-MM-DD` string prints as that same string |
| Temporal.TimeRoundTrip | main.ts:96 | `PlainTime.from(t.toString())` gives back `t` for every time |
| Temporal.ParseTime | main.ts:74 | a string `PlainTime.from` accepts is `HH:MM` or `HH:MM:SS`, with a colon after the hour and, if present, after the minute, and digits in every field ; `HourMinuteReads` and `TimeRoundTrip` state the converse, that every valid `HH:MM` and `HH:MM:SS` is read |
| Temporal.HourMinuteEcho | main.ts:74 | a time read from a string prints with that string's hour, colon and minute as its first five characters |
| Temporal.HourMinuteReads | main.ts:74 | every valid hour and minute written as two-digit numerals around a colon, the schedule's `HH:MM` form, reads as that time at second 0 |
| Temporal.LeapSecondAsFiftyNine | main.ts:74 | a time whose second is written `60` reads exactly as the same time written with `59` |
| Temporal.ParsedTimeFields | main.ts:74 | each field of a parsed time, written as two digits, is the digit pair it was read from; for the second this holds except for the leap second |
| Temporal.ParseTimeThenPrint | main.ts:74 | a time read from `HH:MM` prints as `HH:MM:00`; one read from `HH:MM:SS` prints as the same string unless its second was 60 |
| Scraper.ParseDuration | main.ts:71-74 | the duration succeeds exactly when every `-`-separated piece, trimmed, parses as a time; it then yields one time per piece, in order |
| Scraper.ParseDurationPair | main.ts:71-74 | a duration of exactly two readable pieces reads as the first piece's time followed by the second's |
| Scraper.ParseDurationAppend | main.ts:71-74 | reading `d + "-" + extra` gives the times of `d` followed by those of `extra`, and fails if either side has an unreadable piece |
| Scraper.ReadPieceEcho | main.ts:73-74 | a piece that reads is `HH:MM` or `HH:MM:SS` once trimmed; its time prints with the hour and minute the piece showed, and white space around the piece does not change what it reads as |
| Scraper.RealDate | main.ts:81-82 | a time before 06:00 is dated on the calendar day after the page's date, any other time on the page's date itself; this fails only when the page's date is Temporal's last date, +275760-09-13 |
| Scraper.RolloverRule | main.ts:81-82 | the resolved date equals the page's date exactly when the hour is at least 6; otherwise it is later than the page's date and no date lies between the two |
| Scraper.VideoUrl | main.ts:99 | the `url` key is present exactly when `youtube_url` is a non-empty string, and then equals it |
| Scraper.AssembleAct | main.ts:63-101 | a produced act has trimmed `act`, `stage` and `blurb`, and a `url` that is never empty |
| Scraper.AssembleSlot | main.ts:75-100 | the act produced after the name and times are read carries that name, has a trimmed stage and blurb, and has no empty `url` |
| Scraper.SlotSucceedsIff | main.ts:75-89 | after the name and times, assembly succeeds exactly when the stage section, stage label, end time, both resolved dates, data URL and detail fetch are all present or successful |
| Scraper.EntrySucceedsIffComplete | main.ts:64-89 | an entry yields an act exactly when it is complete: every field present (empty strings allowed), a duration of two or more readable pieces, both resolved dates valid, and a successful detail fetch |
| Scraper.AssembledAct | main.ts:88-100 | in a complete entry's act, `start` and `end` read back as their listed times, each on the page's date or the next day according to its own hour; the text fields are trimmed, and `url` is set exactly for a non-empty video URL |
| Scraper.MissingFieldFails | main.ts:64-87 | a missing name, duration, stage section, stage label or data URL fails the entry |
| Scraper.BadDurationFails | main.ts:71-82 | a duration with a single piece, or with any unreadable piece, fails the entry |
| Scraper.ExtraPiecesIgnored | main.ts:71-82 | appending `-` and more readable pieces to a duration of two or more pieces does not change the entry's outcome |
| Scraper.ActFieldsTrimmed | main.ts:64-91 | trimming an act's `act`, `stage` or `blurb` again changes nothing |
| Scraper.TimestampRoundTrip | main.ts:95-96 | splitting a timestamp at its space and reading both parts gives back the date and the time it was written from |
| Scraper.TimestampShape | main.ts:95-96 | for a four-digit year, a timestamp is exactly `YYYY-MM-DD HH:MM:SS`: 19 characters, zero-padded digit fields and fixed separators |
| Scraper.Timestamp | main.ts:95-96 | a timestamp is nine characters longer than the date's text, has a space right after the date's text, and has no other space; `TimestampRoundTrip` states that its two halves read back as the date and the time |
| Scraper.ParsePage | main.ts:61-63 | a page succeeds exactly when every entry succeeds, and then yields one act per entry in document order |
| Scraper.ScrapePage | main.ts:106-109 | a page fails when its document does not arrive; otherwise it succeeds exactly when every entry assembles, and then yields each entry's act, in document order |
| Scraper.Run | main.ts:105-110 | the run succeeds exactly when every page succeeds |
| Scraper.RunAppend | main.ts:105-112 | the acts of a run are the acts of the earlier pages followed by those of the later pages, whatever order the fetches finish in; any page failure fails the run |
| Scraper.RunSingle | main.ts:106-109 | a run over a single page gives that page's fetch-then-parse result |
| Scenarios.PageDateTexts | main.ts:5-22 | the configured page dates print as the strings `2025-06-25` through `2025-06-28` |
| Scenarios.PagesFromTexts | main.ts:5-22 | `PlainDate.from` reads each configured date string as the date its page is modelled with |
| Scenarios.PagesAreConsecutiveDays | main.ts:5-22 | the four pages are consecutive days in page order, and the last page's early-hours sets fall on 2025-06-29 |
| Scenarios.EarlyDuration | main.ts:71-74 | the duration `"02:00 - 03:30"` reads as 02:00 and 03:30 |
| Scenarios.FirstPageRollover | main.ts:81-82 | on the 2025-06-25 page, 02:00, 03:30 and 05:59:59 move to 2025-06-26, while 06:00, 14:00 and 23:59 stay on 2025-06-25 |
| Scenarios.EndToEnd | main.ts:63-101 | the entry "DJ Example", `02:00 - 03:30`, "Main Stage", `/x` (no video) on the 2025-06-25 page yields start `2025-06-26 02:00:00`, end `2025-06-26 03:30:00`, blurb "Great act" and no `url` |
| Scenarios.DaytimeEndToEnd | main.ts:63-101 | the same entry listed `14:00 - 15:00` on the 2025-06-25 page, with the video link `https://youtu.be/abc`, yields start `2025-06-25 14:00:00`, end `2025-06-25 15:00:00` (no rollover) and that link as its `url` |
| Scenarios.MonthAndYearEnds | main.ts:81-82 | 2025-06-30 rolls over to 2025-07-01, and 2025-12-31 to 2026-01-01 |
| Scenarios.LeapFebruaries | main.ts:81-82 | in the leap years 2024 and 2000, 28 February is followed by 29 February, and 29 February by 1 March |
| Scenarios.CommonFebruaries | main.ts:81-82 | in 2025 and in 1900 (a century year not divisible by 400), 28 February is followed by 1 March |

## Left out

- HTTP: `fetchDocument` (main.ts:24-28) and `fetchPerformer` (main.ts:36-44)
  are network I/O. They become the function parameters `DocumentFetch` and
  `PerformerFetch`, which return a value or a failure.
- Repeated detail requests: `PerformerFetch` is a function of the URL, so two
  entries with the same `data-url` receive the same payload. The source sends
  an independent request for each entry (main.ts:89), and a server could
  answer them differently.
- The unchecked JSON cast (main.ts:43): the payload is taken as an
  already-typed `Performer`.
- DOM work through deno-dom: `querySelectorAll`, `querySelector`, `closest`,
  `innerText`, `getAttribute`:
  - an entry arrives as a `PerformerEntry` of optional, already-extracted
    strings;
  - the HTML-to-text step at main.ts:90-91 is the function parameter
    `TextContent`, and only its trimming is modelled.
- Concurrency: `Promise.all` (main.ts:61, 105) is modelled as a sequential,
  order-preserving map that fails if any element fails. Which failure
  surfaces first, and fetches still running after a failure, are not modelled.
- Output: `console.log` and `JSON.stringify` (main.ts:112-113) are I/O. The
  model produces the list of acts that the loop would print.
- Kinds of failure: `throw_` (main.ts:116) is declared after the top-level
  await has already run. Calling it therefore throws a ReferenceError, not an
  `Error`. A `PlainTime.from` RangeError and a TypeError on an undefined
  `endTime` are also possible. All of these are the single outcome `Failure`.
- The full `Temporal.PlainTime.from` grammar is left out: the `T` prefix,
  fractional seconds, offsets, annotations and the basic (colon-less) format.
  Only `HH:MM` and `HH:MM:SS` are read. Times carry whole seconds, so
  `toString()` never prints a fraction.
- `Temporal.PlainDate.from` reads only `YYYY-MM-DD` and `±YYYYYY-MM-DD`.
  - The model uses it to state that a date's text form reads back, and that
    the configured date strings read as the page dates.
  - `PAGES` (main.ts:5-22) is modelled as the list of dates these strings
    denote. `PagesFromTexts` states that the strings read as those dates,
    and `PageDateTexts` that the dates print as the strings.
- `Temporal.PlainDate.add` is modelled only for `{days: 1}`, the one call the
  scraper makes.
- Strings are sequences of Unicode characters. JavaScript's UTF-16 code units
  and surrogate pairs are not modelled. None of the characters `trim` removes
  lies outside the Basic Multilingual Plane.
- `Act.blurb` is always set: the source assigns it on every path, even though
  its interface marks it optional.
