# Salto landing page: countdown, calendar export, carousel and schedule logic

This project models, in Dafny, the pure logic inside the "Salto / No Hype"
event landing page. That logic is pulled out of its React components and
utility modules:

- **Countdown.** `getTimeUntil` and `formatDuration` turn a millisecond
  difference into `HH:MM:SS`.
- **Calendar export.** `generateICS` builds an iCalendar payload:
  - one VEVENT inside one VCALENDAR;
  - content lines joined by CRLF;
  - empty optional lines dropped;
  - instants in the compact UTC DATE-TIME form `YYYYMMDDTHHMMSSZ` of
    section 3.3.5 of RFC 5545.

  `generateGoogleCalendarLink` builds a Google Calendar deep link whose query
  string is serialised by `URLSearchParams`, i.e. the
  `application/x-www-form-urlencoded` serializer of the WHATWG URL Standard.
- **Carousel keyboard navigation.** `handleCarouselKeyNavigation` applies
  ArrowLeft/ArrowRight/Home/End to an index.
- **Contrast.** The WCAG threshold table of `meetsContrastRequirements`, and
  the final `(max + 0.05) / (min + 0.05)` step of `calculateContrastRatio`.
- **Speaker carousel.** Its index and pause-flag transitions:
  - previous, next, dots, keys, autoplay ticks, the end of the
    post-interaction pause, and mouse and focus events;
  - the mystery-slot test (`pregador` absent or blank after `trim`);
  - the image lookup;
  - what is rendered.
- **Schedule section.** The day filter, the "first of its day" divider rule,
  the day name and date maps, the duration rounded to minutes, the speaker
  label fallback and the session-type tag.
- **Configuration.** The three sessions of `eventoConfig` serve as concrete
  data.

Modules (one per file, `config.dfy` holding two):

| module | file | models |
|---|---|---|
| `Optional` | optional.dfy | optional JavaScript strings and their truthiness |
| `Text` | text.dfy | `Array.prototype.join` and `String.prototype.split` |
| `Decimal` | decimal.dfy | `Number.prototype.toString` on non-negative integers below 10^21, `padStart` |
| `DateTime` | datetime.dfy | countdown, UTC components, `toISOString`, the stamp pipeline |
| `Ics` | ics.dfy | `generateICS` and a reader for its payload |
| `FormUrlEncoding` | formurlencoding.dfy | the `URLSearchParams` byte serializer and its decoder |
| `GoogleCalendar` | googlecalendar.dfy | `generateGoogleCalendarLink` and a reader for the link |
| `A11y` | a11y.dfy | keyboard navigation, contrast ratio and thresholds |
| `EventConfig`, `ConfiguredStamps` | config.dfy | the session record and the configured sessions |
| `SpeakerCarousel` | carousel.dfy | the carousel state machine, mystery test, image lookup, rendering |
| `Schedule` | schedule.dfy | filter, dividers, labels, durations, rendering |

Design choices:

- **Instants.** An instant is `UtcTime`, a record of UTC calendar
  components. `toISOString` is rebuilt from these components
  (`IsoString`). The stamp function then applies the source's own pipeline
  literally: remove `-` and `:`, split at `.`, keep the first piece and
  append `Z`. It is proved equal to the compact form.
- **Durations.** Where the source subtracts `getTime()` values, the
  instants are mapped to epoch milliseconds by the days-from-civil
  algorithm (`EpochMillis`).
- **Clock and UID.** `Date.now()` is a parameter: `now` for the countdown,
  `uidStamp` for the ICS UID.
- **Optional strings.** The source's `description?: string` is an
  `Option<string>`, and "falsy" means absent or empty (`Truthy`).
- **Partners.** Each builder has a reader, and the lemmas prove that the
  reader recovers the builder's input:
  - `ReadClock` for `formatDuration`;
  - `ParseStamp` for the stamp;
  - `ParseIcs` for `generateICS`;
  - `Decode` and `ParseLink` for the link.

## Model

| member | source | states |
|---|---|---|
| `DateTime.TimeUntil` | src/utils/datetime.ts:24-26 | the remaining time is positive exactly while `now` is before the target, and adding it to `now` gives the target |
| `DateTime.FormatDurationReadsBack` | src/utils/datetime.ts:31-38 | every non-positive duration formats as exactly `00:00:00`. The output, with hours written in plain decimal, reads back as hours, minutes below 60 and seconds below 60 whose total is the whole seconds of `ms`, so only the sub-second remainder is lost. The hours field has at least two digits and three or more exactly from 100 hours on |
| `DateTime.CountdownElapsed` | src/utils/datetime.ts:24-32 | once `now` reaches the target the countdown shows `00:00:00` |
| `DateTime.FormatDurationExample` | src/utils/datetime.ts:31-38 | 3 661 000 ms is `01:01:01`, and 100 hours is `100:00:00`, not truncated |
| `DateTime.ReadClockFields` | src/utils/datetime.ts:38 | a clock built from padded hours, minutes and seconds splits at the colons back into those numbers; its hours field has three or more digits exactly from 100 on |
| `Decimal.ParseToDecimal` | src/utils/datetime.ts:38 | the plain decimal digits of a non-negative integer, which is what `toString()` gives below 10^21, read back as that integer |
| `Decimal.DecimalWidth` | src/utils/datetime.ts:36-38 | a number has at most two decimal digits exactly when it is below 100, and one digit exactly when it is below 10 |
| `Decimal.ZeroPadReadsBack` | src/utils/datetime.ts:38 | `padStart(width, '0')` never truncates: the field is all digits, at least `width` long and reads back as the number |
| `Decimal.ZeroPadExact` | src/utils/datetime.ts:34-35 | a number below `10^width` pads to exactly `width` digits, so minutes and seconds are always two characters |
| `Text.SplitJoin` | src/utils/datetime.ts:92 | splitting on the separator recovers the joined lines when no line contains the separator's first character |
| `Text.SplitAfterFree` | src/utils/datetime.ts:75 | `split` cuts at the first separator when the text before it is free of the separator's first character |
| `DateTime.IcsStampIsCompact` | src/utils/datetime.ts:74-76 | for a valid instant, removing dashes and colons from `toISOString`, cutting at the dot and appending `Z` gives the compact date, `T`, the compact clock and `Z`, which is the 16-character UTC DATE-TIME form |
| `DateTime.StampRoundTrip` | src/utils/datetime.ts:74-76 | the stamp reads back as the same instant with its milliseconds dropped |
| `DateTime.StripIsoDate` | src/utils/datetime.ts:75 | removing the dashes from the ISO date leaves the eight digits `YYYYMMDD` |
| `DateTime.StripIsoClock` | src/utils/datetime.ts:75 | removing the colons from the ISO clock leaves the six digits `HHMMSS` |
| `DateTime.SameDayDifference` | src/components/Schedule/Schedule.tsx:101 | for two instants on the same day, the `getTime()` difference is the weighted sum of the differences of their hour, minute, second and millisecond components |
| `DateTime.FirstSessionInstant` | src/config/evento.ts:58 | 2025-11-14T19:00:00Z is epoch millisecond 1 763 146 800 000 |
| `DateTime.EpochIsZero` | src/utils/datetime.ts:24-26 | 1970-01-01T00:00:00Z is epoch millisecond 0 |
| `Ics.ContentLinesLayout` | src/utils/datetime.ts:78-92 | the lines are, in order: BEGIN:VCALENDAR, VERSION, PRODID, BEGIN:VEVENT, UID, DTSTART, DTEND, SUMMARY, then the optional DESCRIPTION and LOCATION, then STATUS:CONFIRMED, END:VEVENT, END:VCALENDAR |
| `Ics.ContentLinesFacts` | src/utils/datetime.ts:87-92 | no line is empty; a DESCRIPTION line exists exactly when the description is truthy and a LOCATION line exactly when the location is; the line count is 11 plus the optional lines present |
| `Ics.PayloadFrame` | src/utils/datetime.ts:78-92 | the payload opens with BEGIN:VCALENDAR and ends with END:VCALENDAR, so CRLF separates the lines but does not terminate them |
| `Ics.OptionalLinesRoundTrip` | src/utils/datetime.ts:87-88 | the optional lines read back as the truthy description and location |
| `Ics.IcsRoundTrip` | src/utils/datetime.ts:73-95 | reading back `generateICS` recovers the UID, both instants with milliseconds dropped, the title, and the description and location when truthy |
| `Ics.ParseContentLines` | src/utils/datetime.ts:78-92 | the CRLF-joined lines read back as their fields whenever no field contains a carriage return |
| `Ics.DropEmptyConcat` | src/utils/datetime.ts:92 | `filter(line => line)` distributes over concatenation and so keeps the order of the surviving lines |
| `Ics.DropEmptyKeeps` | src/utils/datetime.ts:92 | filtering lines that are all non-empty changes nothing |
| `Optional.OrEmpty` | src/utils/datetime.ts:126-127 | `value \|\| ''` is the value when truthy and the empty string otherwise |
| `FormUrlEncoding.Encode` | src/utils/datetime.ts:122-128 | the serialised value contains only unreserved characters, `+` and `%` escapes, and is at least as long as the input |
| `FormUrlEncoding.DecodeEncode` | src/utils/datetime.ts:122-130 | decoding the serialised value recovers the original string, including non-ASCII characters through their UTF-8 bytes |
| `FormUrlEncoding.Utf8Decodes` | src/utils/datetime.ts:122-128 | the UTF-8 bytes of a character decode back to that character |
| `FormUrlEncoding.EncodeAvoidsDelimiters` | src/utils/datetime.ts:122-130 | a serialised value never contains `&` or `=`, so it cannot break the query structure |
| `GoogleCalendar.QueryRoundTrip` | src/utils/datetime.ts:122-130 | the `&`-joined `name=value` pairs read back as the same pairs in the same order |
| `GoogleCalendar.GoogleLinkRoundTrip` | src/utils/datetime.ts:117-131 | the link starts with the render page. It reads back as action=TEMPLATE, text, dates, details and location in that order. `dates` is the compact start stamp, `/`, and the compact end stamp. An absent or empty description or location becomes the empty string |
| `A11y.KeyOf` | src/utils/a11y.ts:171-187 | exactly the four key names `ArrowLeft`, `ArrowRight`, `Home` and `End` are recognised; every other name is kept as it is |
| `A11y.KeyNavigationHandles` | src/utils/a11y.ts:171-188 | only the four navigation keys are handled, with the default prevented, and a key name is ignored exactly when it is none of the four; Home yields 0 and End `totalItems - 1` |
| `A11y.KeyNavigationInRange` | src/utils/a11y.ts:172-187 | for a valid index every produced index is valid; ArrowRight is the successor and ArrowLeft the predecessor modulo the item count |
| `A11y.KeyNavigationEmpty` | src/utils/a11y.ts:174-186 | with zero items End and ArrowLeft at index 0 produce -1 |
| `A11y.ArrowsInverse` | src/utils/a11y.ts:174-178 | ArrowRight after ArrowLeft and ArrowLeft after ArrowRight return to the starting index |
| `A11y.ContrastRatioFacts` | src/utils/a11y.ts:212-217 | the ratio is symmetric in the two luminances, at least 1, exactly 1 for equal luminances, and at most 21 for luminances in [0, 1] |
| `A11y.ContrastThresholds` | src/utils/a11y.ts:223-235 | a ratio passes exactly when it reaches the WCAG minimum: AA 4.5 (normal) and 3 (large), AAA 7 and 4.5. So AAA implies AA, and passing for normal text implies passing for large text. With the default level and size (AA, normal) the bar is 4.5 |
| `SpeakerCarousel.NextPreviousInverse` | src/components/SpeakerCarousel/SpeakerCarousel.tsx:71-83 | for a valid index, next is `(i + 1) % n` and previous is `(i - 1 + n) % n`. Both stay in range and each undoes the other |
| `SpeakerCarousel.StepInRange` | src/components/SpeakerCarousel/SpeakerCarousel.tsx:46-104 | every event the component can produce keeps the current index in range |
| `SpeakerCarousel.RunInRange` | src/components/SpeakerCarousel/SpeakerCarousel.tsx:35-121 | from any in-range state, any sequence of producible events keeps the index in range, so `sessions[currentIndex]` always exists |
| `SpeakerCarousel.InitialRunInRange` | src/components/SpeakerCarousel/SpeakerCarousel.tsx:35-37 | the component mounts on the first slide, unpaused, and with at least one session no sequence of producible events takes the index out of range |
| `SpeakerCarousel.InteractionPauses` | src/components/SpeakerCarousel/SpeakerCarousel.tsx:59-104 | buttons, dots and arrow keys pause autoplay; Home and End move without touching the pause flag; the pause timeout, mouse leave and blur resume |
| `SpeakerCarousel.AutoplayAdvances` | src/components/SpeakerCarousel/SpeakerCarousel.tsx:46-49 | a tick advances like the next button exactly when not paused and there is more than one session, and otherwise changes nothing |
| `SpeakerCarousel.KeyHandlingAgrees` | src/components/SpeakerCarousel/SpeakerCarousel.tsx:90-104 | the carousel's own key handler moves the index exactly as `handleCarouselKeyNavigation` would |
| `SpeakerCarousel.MysteryIffBlank` | src/components/SpeakerCarousel/SpeakerCarousel.tsx:122 | a slot is a mystery exactly when its speaker is absent or consists only of characters `trim` removes |
| `SpeakerCarousel.TrimStart` | src/components/SpeakerCarousel/SpeakerCarousel.tsx:122 | the leading-trim result is a suffix that starts with a non-whitespace character, and only whitespace was removed |
| `SpeakerCarousel.TrimEnd` | src/components/SpeakerCarousel/SpeakerCarousel.tsx:122 | the trailing-trim result is a prefix that ends with a non-whitespace character, and only whitespace was removed |
| `SpeakerCarousel.PrototypeNameEscapes` | src/components/SpeakerCarousel/SpeakerCarousel.tsx:28-31 | as written, the file names `toString` and `__proto__` yield an inherited member instead of an image |
| `SpeakerCarousel.GetImageSrc` | src/components/SpeakerCarousel/SpeakerCarousel.tsx:21-31 | the corrected lookup of the Findings row, not the code as written: a known file name yields its image, and an absent, empty or unknown name, `Object.prototype` names included, yields the first placeholder |
| `SpeakerCarousel.GetImageSrcAgrees` | src/components/SpeakerCarousel/SpeakerCarousel.tsx:28-31 | the corrected lookup equals the written one on every name that is not an `Object.prototype` member, and gives the placeholder on those names |
| `SpeakerCarousel.RenderFacts` | src/components/SpeakerCarousel/SpeakerCarousel.tsx:117-199 | nothing is rendered for no sessions. Otherwise the slide shows the current session's image through the corrected lookup, which equals `getImageSrc` on every file name that is not an `Object.prototype` member. The mystery card is shown exactly for a mystery slot, with no name, and the speaker's name otherwise. Controls exist exactly when there are several sessions, with one dot per session (none for a single one) and the current one active |
| `SpeakerCarousel.ConfiguredSlides` | src/config/evento.ts:52-77 | slide one is João Heuldes with his photo; slides two and three are mystery slots with the two placeholders |
| `EventConfig.ConfiguredSessions` | src/config/evento.ts:52-77 | the three configured sessions have valid instants, last one hour each and have no day tag |
| `ConfiguredStamps.StampOnFirstDay` | src/config/evento.ts:58-59 | the first session's start and end instants stamp as `20251114T190000Z` and `20251114T200000Z` |
| `Schedule.FilterSessions` | src/components/Schedule/Schedule.tsx:16-18 | the filtered list holds exactly the sessions of the list that match the tab, all of them matching, and is no longer than the list |
| `Schedule.FilterConcat` | src/components/Schedule/Schedule.tsx:16-18 | filtering distributes over concatenation, so the kept sessions keep their relative order |
| `Schedule.FilterTodos` | src/components/Schedule/Schedule.tsx:16-18 | the 'todos' tab returns every session in the original order |
| `Schedule.DayPartition` | src/components/Schedule/Schedule.tsx:16-17 | a session appears under a day's tab exactly when tagged with that day, so a tagged session is under exactly one day tab and an untagged one under none |
| `Schedule.SingleDayDivider` | src/components/Schedule/Schedule.tsx:83-87 | under a day tab exactly the first item carries a divider |
| `Schedule.DividerBefore` | src/components/Schedule/Schedule.tsx:83-87 | every tagged item is at or after a divider of its own day, with only that day's items in between |
| `Schedule.GroupedDividerOnce` | src/components/Schedule/Schedule.tsx:83-87 | when each day's sessions are contiguous, no day gets two dividers |
| `Schedule.DayTablesAgree` | src/components/Schedule/Schedule.tsx:20-43 | the tabs list each filter once. Each day tab's label and date are the ones `getDayName` and `getDayDate` give that day. Only 'todos' has no date. Any other string maps to itself and to no date |
| `Schedule.DurationMinutes` | src/components/Schedule/Schedule.tsx:101 | the shown minutes are the nearest whole number of minutes, halves rounded up: within half a minute of the exact duration |
| `Schedule.DurationMinutesRounds` | src/components/Schedule/Schedule.tsx:101 | the integer form equals `Math.round` applied to the exact quotient |
| `Schedule.SpeakerLabel` | src/components/Schedule/Schedule.tsx:109 | a truthy name is shown as it is, an absent or empty one becomes `Slot Misterioso`, so the label is never empty |
| `Schedule.SpeakerLabelVsCarousel` | src/components/Schedule/Schedule.tsx:109 | the schedule shows the name whenever the carousel does, and shows the fallback only for carousel mystery slots. A whitespace-only name is shown verbatim but is a mystery in the carousel |
| `Schedule.BlankNameShown` | src/components/Schedule/Schedule.tsx:109 | every non-empty name made only of whitespace is shown verbatim by the schedule while the carousel treats it as a mystery |
| `Schedule.TypeTagTextDistinct` | src/components/Schedule/Schedule.tsx:124-126 | the three tag texts differ, so the shown text determines the session type |
| `Schedule.TypeTagDays` | src/components/Schedule/Schedule.tsx:124-126 | Friday is Abertura, Sunday is Encerramento, and Saturday or no day is Ministração |
| `Schedule.RenderTimelineFacts` | src/components/Schedule/Schedule.tsx:73-126 | the empty notice appears exactly when no session matches. Otherwise there is one item per matching session, with a divider exactly where `isFirstOfDay && dia` holds, showing `getDayName` and `getDayDate` of the day. Each item shows the duration between the session's instants rounded to minutes (none when an instant is invalid), the label fallback, the short description exactly when it is truthy, and the tag text chosen from the day |
| `Schedule.ConfiguredSchedule` | src/config/evento.ts:52-77 | with the configured sessions every day tab is empty. The 'todos' tab shows three one-hour items without dividers: João Heuldes, then two "Slot Misterioso", all Ministração |

## Left out

- **I/O and the browser.** Left out: `downloadICS` (Blob, object URL, anchor
  click), the DOM and focus side effects of `a11y.ts`, `window.open`, and
  all JSX and CSS beyond which elements appear.
- **Timers.** The autoplay `setInterval` (every 3000 ms), the 4000 ms unpause `setTimeout`
  and `useTimer` are left out. Their firing is an event of the state machine
  (`AutoplayTick`, `PauseElapsed`), and no timing is modelled.
- **Foreign calls.**
  - Left out: `Intl.DateTimeFormat` (`getLocalTimezone`,
    `formatDateDisplay`, `formatTime`, the start time shown in the schedule)
    and `parseISOInTimezone`.
  - ISO strings of the configuration are held already parsed as `UtcTime`.
  - `Date.now()` is a parameter.
- **Floating point.**
  - `getLuminance` (`parseInt`, `Math.pow`, gamma constants) is left out; the
    ratio and thresholds are over exact reals.
  - `formatDuration` and the schedule duration are modelled on integer
    milliseconds, so fractional milliseconds and rounding of the double
    quotient are not modelled.
- **Ranges.**
  - Years outside 0–9999 are out of range: `toISOString` would use the
    six-digit extended year form.
  - Invalid dates are out of range: the source would throw or print `NaN`.
    A session with an invalid instant renders its duration as `None`.
- `generateId` depends on `Math.random`.
- **Not in the code.** Neither is modelled:
  - a time-gated reveal of speakers with a lead time;
  - a bulk multi-event calendar export.
- **ICS escaping.** The source applies no TEXT escaping or line folding of
  RFC 5545 (sections 3.3.11 and 3.1), and neither does the model.
  - Ics.IcsRoundTrip: requires that title, description and location contain
    no carriage return. Such a character would split a content line, and
    the source does not escape it.
- Decimal.ToDecimal: prints every non-negative integer in plain decimal
  digits. JavaScript's `toString` switches to exponent form from 10^21 on
  (`(1e21).toString()` is `1e+21`), so `formatDuration` of 3.6 * 10^27 ms
  or more prints an exponent in the hours field. Countdown hours and the
  millisecond UID stamp stay many orders of magnitude below that bound, and
  `FormatDurationReadsBack` describes the plain-decimal output.
- DateTime.FormatDurationReadsBack: covers the hours field in plain decimal
  only, for the reason given on the `Decimal.ToDecimal` line.
- FormUrlEncoding.Encode: handles Unicode scalar values only. A lone UTF-16
  surrogate, which `URLSearchParams` replaces by U+FFFD, cannot occur in a
  Dafny string.
- **Carousel with no sessions.**
  - SpeakerCarousel.NextPreviousInverse: assumes at least one session. With
    none the component returns before any handler can run.
  - SpeakerCarousel.StepInRange: only events the rendered component can
    produce are covered. A dot index is always in range.
- SpeakerCarousel.RenderFacts: renders the corrected image lookup
  (`GetImageSrc`). For a file name that is an `Object.prototype` member the
  page as written would pass an inherited function to `<img src>`; that case
  is the Findings row, and elsewhere the contract states agreement with
  `getImageSrc` as written.

## Findings

| source | as written | input that shows it | evidently intended | confidence | as-written member | corrected member |
|---|---|---|---|---|---|---|
| src/components/SpeakerCarousel/SpeakerCarousel.tsx:28-31 | `ASSETS_MAP[filename] \|\| placeholderImg` looks the name up on an object literal, which inherits from `Object.prototype` | `getImageSrc('toString')` returns `Object.prototype.toString`, a truthy function, instead of the placeholder; likewise `'constructor'`, `'__proto__'` and the other inherited names | an unknown file name falls back to the placeholder image | not executed; the lookup semantics are certain, but the configured file names never hit it | `SpeakerCarousel.PrototypeNameEscapes` | `SpeakerCarousel.GetImageSrcAgrees` |
