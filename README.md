# Salath times widget — a Dafny model

The widget looks up the day's prayer times for a city the user types. It asks a timings service
for the city's Hijri and Gregorian date, the six daily times (Fajr, Sunrise, Dhuhr, Asr, Maghrib,
Isha) and the city's coordinates and timezone, then asks a reverse-geocoding service for a place
name. It shows a spinner, an error glyph, a prompt or the result.

This project models the two pieces of logic in it:

- `salath_times.dfy`, module `SalathTimes` (`src/components/SalathTimes.tsx`). It covers the time
  label `convertTime`, the display-name switch `toArabic`, and the list render, which turns each
  entry of the prayer-times object into one row. All of it is pure functions with lemmas.
- `app.dfy`, module `App` (`src/App.tsx`). It covers the five state cells (`isLoading`,
  `isError`, `salathTimes`, `date`, `locationName`) as fields of the class `AppState`. There is
  one method per event: a submit, the timings lookup succeeding or failing, and the geocode
  lookup succeeding or failing, each followed by its settle step. Two pure functions sit beside
  it: the choice among the four views, and the Hijri date text.
- `text.dfy`, module `Text`, holds the JavaScript built-ins the code relies on, limited to the
  inputs it gives them: `split` with a one-character separator, `Number` on a digit string, and
  `${n}` of a non-negative integer. Each is paired with its inverse by round-trip lemmas.
- `wrappers.dfy` holds `Option`, which stands for `null`/`undefined`.

What the code does, as the model states it:

- `convertTime` reduces the hour only from hour 23 on (where the hour minus 12 exceeds 10).
  Hours 0–11 keep their text and gain " AM". Hours 12–22 keep their text and gain " PM", so
  "13:00" reads "13:00 PM" and "12:00" reads "12:00 PM". Hour 23 (and, for other two-digit
  inputs, any hour above 22) takes the padded branch, so "23:30" reads "011:30 PM". A
  conventional 12-hour clock would print "1:00 PM" for 13:00 and "11:30 PM" for 23:30; the code
  does not, and the model follows the code.
- Line 61 of `SalathTimes.tsx` calls `toEnglish`, which is defined nowhere. The mapping the
  component defines is `toArabic` (line 15), and the model uses it for the row label.
- When the geocode lookup fails, the location's city is whatever the input box holds at that
  moment, not necessarily the text that was searched (`RetypedInputScenario` shows this).
- Submitting again after a failed search does not clear the error flag. So `isError` stays true
  while the spinner shows, and loading takes priority in the view.

## Model

| member | source | states |
|---|---|---|
| Text.NatToString | src/components/SalathTimes.tsx:41-42 | `${n}` of a non-negative integer is a non-empty digit string with no leading zero; one digit exactly below 10, two exactly for 10..99 |
| Text.DigitsValueOfNatToString | src/App.tsx:128 | reading back the printed form of a number gives the number |
| Text.NatToStringOfDigitsValue | src/components/SalathTimes.tsx:34-42 | printing the `Number` value of a digit string without a leading zero gives that string back |
| Text.DigitsValue | src/components/SalathTimes.tsx:34 | `Number` of a string of k decimal digits is a non-negative value below 10^k |
| Text.Split | src/components/SalathTimes.tsx:33 | `split` on one character yields at least one piece and no piece contains the separator |
| Text.JoinSplit | src/components/SalathTimes.tsx:33 | joining the pieces of a split with the separator restores the string |
| Text.SplitJoin | src/components/SalathTimes.tsx:33 | splitting a join of separator-free pieces gives the pieces back |
| SalathTimes.Hour | src/components/SalathTimes.tsx:34 | the hour is the two-digit value of the text before the colon |
| SalathTimes.Minutes | src/components/SalathTimes.tsx:35 | the minutes are the two characters after the colon, unparsed |
| SalathTimes.SplitTimeText | src/components/SalathTimes.tsx:33-35 | splitting an "HH:MM" text at ':' gives exactly the hour text and the minute text |
| SalathTimes.ConvertTime | src/components/SalathTimes.tsx:32-44 | the label ends in " AM" or " PM", in " AM" exactly when the hour is below 12, and carries the minutes verbatim before the suffix |
| SalathTimes.ConvertTimeKeepsText | src/components/SalathTimes.tsx:37-42 | up to hour 22 the label is the input text plus " AM" (hour < 12) or " PM", with the 24-hour value unreduced |
| SalathTimes.ConvertTimePadsLateHours | src/components/SalathTimes.tsx:39-41 | from hour 23 on the label is "0", the hour minus 12, ":", the minutes and " PM" |
| SalathTimes.PaddedOnlyAtHour23 | src/components/SalathTimes.tsx:39-43 | among clock hours 0..23 only hour 23 gets the padded nine-character label |
| SalathTimes.SameHourAndMinutes | src/components/SalathTimes.tsx:33-35 | a time text is determined by its parsed hour and its minute text |
| SalathTimes.LateLabelsInjective | src/components/SalathTimes.tsx:40-41 | two times from hour 23 on with the same padded label are the same time |
| SalathTimes.ConvertTimeInjective | src/components/SalathTimes.tsx:32-44 | two different time texts never get the same label |
| SalathTimes.ConvertTimeMorningExamples | src/components/SalathTimes.tsx:37 | "00:05" reads "00:05 AM" and "11:59" reads "11:59 AM" |
| SalathTimes.ConvertTimeNoonExample | src/components/SalathTimes.tsx:39-42 | "12:00" reads "12:00 PM" |
| SalathTimes.ConvertTimeOnePmExample | src/components/SalathTimes.tsx:39-42 | "13:00" reads "13:00 PM", not "1:00 PM" |
| SalathTimes.ConvertTimeLateExample | src/components/SalathTimes.tsx:40-41 | "23:30" reads "011:30 PM" |
| SalathTimes.ToArabic | src/components/SalathTimes.tsx:15-30 | a label exists exactly for the six prayer keys; any other key falls through to no label |
| SalathTimes.ToArabicTable | src/components/SalathTimes.tsx:16-28 | each of the six keys maps to its own fixed label |
| SalathTimes.ToArabicInjective | src/components/SalathTimes.tsx:16-28 | the six labels are non-empty and pairwise distinct |
| SalathTimes.Rows | src/components/SalathTimes.tsx:53-64 | one row per entry, in entry order, each pairing the converted time with the key's label |
| SalathTimes.Entries | src/components/SalathTimes.tsx:53 | `Object.entries` of the prayer-times object lists the six keys in the order Fajr, Sunrise, Dhuhr, Asr, Maghrib, Isha |
| SalathTimes.RowsOfEntries | src/components/SalathTimes.tsx:53-64 | row i of the rendered list holds entry i's converted time and the i-th fixed label |
| SalathTimes.RenderedPrayerRows | src/components/SalathTimes.tsx:53-64 | the six rows are, in order, Fajr's converted time with "END OF NIGHT SALATH", Sunrise's with "Sunrise", Dhuhr's with "MIDDLE OF DAY SALATH", Asr's with "EVENING OF DAY SALATH", Maghrib's with "END OF DAY SALATH" and Isha's with "START OF NIGHT SALATH" |
| App.TimesOf | src/App.tsx:81-82 | the stored prayer-times object takes each of the six fields from the response's timings under its own key |
| App.TimesOfEntries | src/App.tsx:81-82 | the stored prayer times hold exactly the six keys, in order, with the response's values |
| App.SelectView | src/App.tsx:147-176 | spinner exactly while loading; else error glyph exactly when the error flag is up; else prompt exactly without a location; else the result for that location |
| App.AppState.CurrentView | src/App.tsx:147-176 | the page body is the spinner exactly while loading, the error glyph exactly when not loading and the error flag is up, the prompt exactly when neither and no location is stored, else the stored location's result; in a reachable state the spinner means a lookup is in flight and the result comes with stored times and date |
| App.HijriDate | src/App.tsx:128 | the Hijri text is parenthesised |
| App.HijriDateFields | src/App.tsx:128 | inside the parentheses it splits at '/' into year, month number and day, and the month reads back as the stored number |
| App.AppState.constructor | src/App.tsx:46-53 | both flags start down and the three data cells start empty |
| App.AppState.HandleSubmit | src/App.tsx:55-62 | an empty text or an unmounted box changes nothing and starts nothing; otherwise the spinner goes up and a timings lookup starts with the text as city and country, the other cells unchanged |
| App.AppState.SearchForLocation | src/App.tsx:64-71 | the timings lookup is sent with the same text as `city` and `country` |
| App.AppState.OnTimingsOk | src/App.tsx:72-86 | the date and six times are stored from the response, the spinner stays up, the error flag and location are unchanged, and a geocode lookup starts with the response's coordinates, language "en" and timezone |
| App.AppState.SearchLocationName | src/App.tsx:95-107 | the geocode lookup is sent with the given coordinates and language "en", its handlers holding the timezone |
| App.AppState.OnTimingsFail | src/App.tsx:87-92 | the spinner goes down, the error flag goes up, date, times and location are unchanged, and no geocode lookup is in flight |
| App.AppState.OnGeoOk | src/App.tsx:108-111 | the location becomes the returned city and country name with the timings response's timezone, and both flags go down |
| App.AppState.OnGeoFail | src/App.tsx:112-121 | the location becomes the box's current text with an empty country and the timings timezone (unchanged if the box is unmounted), and both flags go down |
| App.AppState.Settle | src/App.tsx:122-125 | after the geocode lookup settles, loading and error are both false and the data cells are untouched |
| App.ViewOfValidState | src/App.tsx:147-176 | in every reachable state the spinner shows exactly while a lookup is in flight, and the result view only shows when times and a date are stored |

## Left out

- The HTTP requests to the timings and reverse-geocoding services (src/App.tsx:14-16, 65-71, 100-107). Only their outcomes are modelled, as the events `OnTimingsOk`, `OnTimingsFail`, `OnGeoOk` and `OnGeoFail`. Latitude and longitude are plain `real` values passed through.
- The error toast and the console logging (src/App.tsx:88, 91, 113). They are side channels and change no state.
- All JSX, CSS and animation variants, and the `LocaleClock`, `CountryClock`, `Input` and `CircleSpinner` components. The clocks depend on the wall clock and timezone libraries, and the sources of these components are not part of this model. Only the choice of view branch and the row contents are kept.
- Overlapping or out-of-order lookup completions. The code has no guard against them. The model delivers events one at a time and in chain order: each event method requires the matching ghost `pending` phase, and `HandleSubmit` requires that no lookup is in flight.
- SalathTimes.ConvertTime: it requires "HH:MM" text with two digits, a colon and two digits. A non-numeric hour would make `Number` give NaN and the label "NaN:MM PM", and other shapes of text are not modelled.
- App.AppState.OnTimingsOk: it requires the response's timings to carry all six keys. A missing key would store `undefined` for that prayer.
- The Hijri `weekday` field is kept as its English name only, and the Gregorian date as the readable string. Nothing is computed from either.
