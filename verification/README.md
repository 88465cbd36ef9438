# Daily meal notifier: week key and today's meal message

This project models the core of the daily meal notifier in Dafny. The core is the code that
turns "today" and the two Firestore collections into the text message sent each morning:

* `get_week_range(date)` finds the Monday of the date's week with `date - timedelta(days=date.weekday())`
  and the Sunday six days later. It writes both with `strftime('%B %d, %Y')` and joins them with
  `" - "`. The result, e.g. `"December 30, 2024 - January 05, 2025"`, is the id of the
  week's `mealPlans` document.
* `get_today_meal()` does the following:
  1. It reads the weekday name (`%A`) and the date text of today.
  2. It looks up this week's plan and reads today's comma-separated recipe ids.
  3. It renders a section for every id whose `recipes` document exists.
  4. It strips the result.
  5. Any exception raised on the way becomes `"Error getting meal information: <text>"`.

The modules follow that structure:

| module | file | content |
|---|---|---|
| `Wrappers` | `wrappers.dfy` | `Option` and `Result` |
| `CivilDate` | `civil_date.dfy` | Python's `datetime.date`: years 1 to 9999, the ordinal day number (`Ordinal`), `weekday()` (`Weekday`), and day arithmetic that fails outside the representable range (`AddDays`, `SubtractDays`) |
| `DateFormat` | `date_format.dfy` | the `%A` (`DayName`) and `%B %d, %Y` (`FormatDate`) formats, plus readers that turn a formatted weekday or date back into numbers |
| `Text` | `text.dfy` | `str.split(sep)` (`Split`), `sep.join` (`Join`), `str.strip()` (`Strip`, with Python's `isspace` set) |
| `WeekKey` | `week_range.dfy` | `get_week_range` (`WeekRange`), and what the key identifies |
| `MealMessage` | `meal_message.dfy` | `get_today_meal` (`TodayMeal`) with the clock and the database passed in; its loop over recipe ids (`Sections`) and the rendering of one recipe (`RecipeSection`) |

How the model stands in for the parts it does not run:

* The database is two immutable maps. `mealPlans` maps a week key to a plan. A plan maps a weekday name to a string.
* `recipes` maps an id to a `Recipe`, whose `name` and `ingredients` fields may each be missing.
* "Today" is a parameter.
* Day arithmetic steps one day at a time. Its contracts prove that the result is the one valid
  date whose ordinal is the shifted ordinal. That is how Python computes `date ± timedelta`.
* Overflow beyond 9999-12-31 is a `Failure` carrying Python's message `date value out of range`.
* A missing document field raises `KeyError`. Its text is the quoted field name, e.g. `'name'`.

## Model

| member | source | states |
|---|---|---|
| `CivilDate.Ordinal` | daily_meal_notifier.py:116-117 | Python's `toordinal()`: every valid date gets a day number between 1 and that of 9999-12-31, and the numbering is one-to-one and increasing in calendar order (see `OrdinalBounds`, `OrdinalMonotone`, `OrdinalInjective`) |
| `CivilDate.Weekday` | daily_meal_notifier.py:116 | `weekday()` lies in 0 (Monday) to 6 (Sunday) and advances by one from each day to the next, wrapping after Sunday (see `WeekdayOfNext`) |
| `CivilDate.SubtractDays` | daily_meal_notifier.py:116 | `d - timedelta(days=n)` fails exactly when the result would precede 0001-01-01. Otherwise it is a valid date whose day number is `n` less |
| `CivilDate.AddDays` | daily_meal_notifier.py:117 | `d + timedelta(days=n)` fails exactly when the result would pass 9999-12-31. Otherwise it is a valid date whose day number is `n` more |
| `CivilDate.Next` | daily_meal_notifier.py:117 | The following day exists for every date except 9999-12-31, and it is one day number later |
| `CivilDate.Prev` | daily_meal_notifier.py:116 | The preceding day exists for every date except 0001-01-01, and it is one day number earlier |
| `CivilDate.AddDaysIsOrdinalShift` | daily_meal_notifier.py:117 | Adding `n` days yields exactly the valid date whose day number is `n` more, as `fromordinal(toordinal() + n)` does |
| `CivilDate.SubtractDaysIsOrdinalShift` | daily_meal_notifier.py:116 | Subtracting `n` days yields exactly the valid date whose day number is `n` less |
| `CivilDate.AddThenSubtract` | daily_meal_notifier.py:116-117 | Going forward `n` days and back `n` days returns to the starting date |
| `CivilDate.OrdinalInjective` | daily_meal_notifier.py:116-117 | Distinct valid dates have distinct day numbers, so day arithmetic has a single answer |
| `CivilDate.OrdinalMonotone` | daily_meal_notifier.py:116-117 | Day numbers increase strictly in calendar order |
| `CivilDate.OrdinalBounds` | daily_meal_notifier.py:116-117 | Every valid date's day number lies between 1 and that of 9999-12-31, and within its own year |
| `CivilDate.WeekdayOfNext` | daily_meal_notifier.py:67 | Consecutive days have consecutive weekdays, wrapping from Sunday (6) to Monday (0) |
| `CivilDate.DaysBeforeYearMonotone` | daily_meal_notifier.py:116-117 | Each year adds at least 365 days to the day count |
| `DateFormat.DayName` | daily_meal_notifier.py:67 | `%A`: the English weekday name, which reads back as its weekday number (see `DayNameRoundTrip`) |
| `DateFormat.DayNameRoundTrip` | daily_meal_notifier.py:67 | Each of the seven `%A` names reads back as its weekday number |
| `DateFormat.DayNameInjective` | daily_meal_notifier.py:67 | Different weekdays never get the same `%A` name |
| `DateFormat.FormatDate` | daily_meal_notifier.py:68 | `strftime('%B %d, %Y')`: the text determines the date and contains no hyphen (see `ParseFormatRoundTrip`, `FormatDateInjective`, `FormatDateHasNoHyphen`) |
| `DateFormat.Pad2Value` | daily_meal_notifier.py:68 | `%d` writes the day as two decimal digits whose value is the day |
| `DateFormat.Pad4Value` | daily_meal_notifier.py:68 | `%Y` writes the year as four decimal digits whose value is the year |
| `DateFormat.MonthNameRoundTrip` | daily_meal_notifier.py:68 | Each of the twelve `%B` month names reads back as its month number |
| `DateFormat.ParseFormatRoundTrip` | daily_meal_notifier.py:68 | Reading a `%B %d, %Y` text back yields the date that was formatted, so the text loses nothing |
| `DateFormat.FormatDateInjective` | daily_meal_notifier.py:68 | Different dates never produce the same `%B %d, %Y` text |
| `DateFormat.FormatDateHasNoHyphen` | daily_meal_notifier.py:118 | A formatted date contains no `-`, so the separator of the key is unambiguous |
| `Text.Split` | daily_meal_notifier.py:82 | `split(',')` yields at least one piece, and no piece contains the separator |
| `Text.JoinSplit` | daily_meal_notifier.py:82 | Joining the pieces of `split(sep)` with `sep` gives back the original text |
| `Text.SplitJoin` | daily_meal_notifier.py:82 | Splitting a join of separator-free pieces gives back exactly those pieces |
| `Text.SplitFirstEmpty` | daily_meal_notifier.py:82-84 | The first piece is empty exactly when the text is empty or begins with the separator |
| `Text.StripLeft` | daily_meal_notifier.py:105 | The result is a suffix preceded only by whitespace, and it does not start with whitespace |
| `Text.StripRight` | daily_meal_notifier.py:105 | The result is a prefix followed only by whitespace, and it does not end with whitespace |
| `Text.StripExact` | daily_meal_notifier.py:105 | `strip()` removes exactly the surrounding whitespace of a core that begins and ends with non-whitespace |
| `Text.StripRightAfter` | daily_meal_notifier.py:105 | Right-stripping text after a non-whitespace prefix never touches the prefix |
| `Text.Strip` | daily_meal_notifier.py:105 | `strip()`: it removes exactly the whitespace around the text's first and last non-whitespace characters, and a second strip changes nothing (see `StripExact`, `StripIdempotent`) |
| `Text.StripIdempotent` | daily_meal_notifier.py:105 | Stripping a second time changes nothing |
| `WeekKey.WeekStart` | daily_meal_notifier.py:116 | The start of the week is a valid Monday that lies exactly `weekday()` days before the date |
| `WeekKey.WeekStartOrdinal` | daily_meal_notifier.py:116 | The Monday is the first day of the date's seven-day block, counted from 0001-01-01 (itself a Monday) |
| `WeekKey.WeekRange` | daily_meal_notifier.py:117-118 | The key exists exactly when the Sunday six days after the Monday is representable. Otherwise the failure is Python's `date value out of range` |
| `WeekKey.WeekRangeKey` | daily_meal_notifier.py:116-118 | The key is the formatted Monday, `" - "`, and the formatted date six days later. That date is a Sunday, across any month or year boundary |
| `WeekKey.WeekRangeFailsInLastWeek` | daily_meal_notifier.py:117 | Computing the key fails exactly on 27 to 31 December 9999 |
| `WeekKey.WeekDaysShareKey` | daily_meal_notifier.py:116-118 | All seven days from a Monday on share that Monday as week start, and so they produce the same key |
| `WeekKey.SameWeekIffSameStart` | daily_meal_notifier.py:116 | Two dates have the same week start exactly when they fall in the same Monday-to-Sunday week |
| `WeekKey.ParseWeekKeyRoundTrip` | daily_meal_notifier.py:118 | The key reads back as its Monday and its Sunday |
| `WeekKey.SameKeyIffSameWeek` | daily_meal_notifier.py:116-118 | Two dates get equal keys exactly when they fall in the same week, so each plan document belongs to one week |
| `WeekKey.NewYearExample` | daily_meal_notifier.py:112-118 | Wednesday 1 January 2025 gets the key `December 30, 2024 - January 05, 2025` |
| `MealMessage.TodayMeal` | daily_meal_notifier.py:58-109 | `get_today_meal()`: its result in each case is fixed by `NoPlanDocument`, `EmptyFirstPiece`, `MealListed`, `NothingFound`, `IncompleteRecipe` and `WeekOverflow`, and `MessageKinds` shows that these cases cover every input |
| `MealMessage.DayOfWeek` | daily_meal_notifier.py:67 | Today's `%A` name, the plan field read for the day |
| `MealMessage.DayOfWeekRoundTrip` | daily_meal_notifier.py:67 | The plan field read for the day names exactly today's weekday |
| `MealMessage.RecipeSection` | daily_meal_notifier.py:96-101 | Rendering one found recipe. It succeeds exactly when both fields are present, and its section reads line by line as `SectionLines` states. Otherwise the `KeyError` names `name` before `ingredients`, the order in which the fields are read |
| `MealMessage.Sections` | daily_meal_notifier.py:91-103 | The loop over the recipe ids, described without the loop by `SectionsMeaning` |
| `MealMessage.SectionLines` | daily_meal_notifier.py:96-101 | Split at newlines, a recipe's section is the pinned name line, the `Ingredients:` line, one `• ` line per ingredient in order, and the blank line that ends the section. This holds when the name and the ingredients contain no newline |
| `MealMessage.SectionsMeaning` | daily_meal_notifier.py:91-103 | The loop succeeds exactly when every found recipe is complete. It then yields their sections in id order; otherwise it yields the error of the first incomplete found recipe |
| `MealMessage.SectionsDependOnResolved` | daily_meal_notifier.py:91-103 | The loop's outcome depends only on the sequence of recipes the ids resolve to |
| `MealMessage.ResolvedAppend` | daily_meal_notifier.py:91-95 | Resolving two id lists one after the other equals resolving their concatenation |
| `MealMessage.UnresolvedIdSkipped` | daily_meal_notifier.py:95-103 | Inserting an id with no recipe document anywhere in the list changes nothing |
| `MealMessage.ResolvedOccurrences` | daily_meal_notifier.py:91-101 | A found id contributes its recipe at its own position, once per occurrence |
| `MealMessage.StrippedMessage` | daily_meal_notifier.py:89-105 | Stripping keeps the header line intact and only trims whitespace from the end of the sections |
| `MealMessage.NoPlanDocument` | daily_meal_notifier.py:74-79 | Without a plan document for the week, the message says no meal is planned, whatever the recipes |
| `MealMessage.EmptyFirstPiece` | daily_meal_notifier.py:81-86 | A missing weekday field or a value starting with `,` gives the no-meal message, whatever the recipes |
| `MealMessage.MealListed` | daily_meal_notifier.py:88-105 | With ids listed and every found recipe complete, the message is the header followed by the found recipes' sections in order, right-stripped |
| `MealMessage.NothingFound` | daily_meal_notifier.py:88-105 | When no listed id has a recipe document, the message is the header line alone |
| `MealMessage.IncompleteRecipe` | daily_meal_notifier.py:95-109 | A found recipe lacking a field replaces the whole message by the error naming the first missing field |
| `MealMessage.WeekOverflow` | daily_meal_notifier.py:71 | In the last five days of 9999, the overflow of the week's Sunday becomes the error message |
| `MealMessage.MessageKinds` | daily_meal_notifier.py:58-109 | Every message is non-empty. Its first character tells the three outcomes apart (no meal, error, meal), and each outcome arises under exactly its own conditions |
| `MealMessage.PastaScenario` | daily_meal_notifier.py:58-118 | A Wednesday plan listing `r1,r2` gives the header and the pasta section, with no trailing blank lines. Here `r1` is a pasta recipe and `r2` does not exist |

## Left out

- `utils/text_utils.py` is not part of this model. The core does not call it.
- Firebase start-up (reading credentials from the environment, `initialize_app`) is not modelled. A failure there stops the program before the core runs.
- The scheduler, `main`, `send_daily_meal` and signal handling are not modelled. They only call the core and deliver its text.
- The clock and the time zone (`datetime.now` in `America/Los_Angeles`) become the parameter `today`. The core uses only its calendar date, and a `datetime` overflows with the same message as a `date`.
- Logging is left out. It has no effect on the returned text.
- Firestore is not modelled as a service. Network, permission and quota errors would surface as other `Error getting meal information:` texts.
- The Firestore client's handling of document ids is not modelled. An id containing `/` is read as a path: the client refuses it when that is not a document path, and otherwise it reads a nested document. An empty id (from `"r1,,r2"` or a trailing comma) is left to the client's own checks. The model looks every id up in the map exactly as written.
- Only string field values are modelled. A plan value that is not a string, a non-string `name`, or `ingredients` that is not a list of strings would behave differently in Python: `split` would raise, `str()` conversion would apply, or characters would be iterated.
- Exceptions other than the date overflow and a missing `name` or `ingredients` field are left out.
- Names of months and weekdays are those of the English (C) locale.
- DateFormat.Pad4: `%Y` is modelled as four zero-padded digits. For years below 1000 the C library of some platforms prints fewer digits, and that variant is not modelled.
- The `not recipe_ids` test of the source can never hold, because `split` always returns at least one piece. The model keeps the test, and it is likewise dead there.
- MealMessage.UnresolvedIdSkipped: also covers an empty id and an id containing `/`. For those the Firestore client may raise, or read a nested document, instead of skipping the id; the model does not reproduce the client's id handling.
