# k6 sample load test: payload builder and response checks

This project models the logic of `tests/sample-test.js`, a k6 load-testing script. The script runs a ramp of virtual users (VUs). On each iteration, each VU posts a synthetic order with Basic authentication and checks the response status. The model covers the parts of the script that compute something:

- **Order generation** (`generateOrder`), module `Orders`. The order index is `vu * 100000 + iter`. The creation date is `new Date(2025, 7, 1 + index % 30)` at midnight. The title is `Title <vu>-<iter>-<clock>`, the description is a constant, and the author is `John <index>` / `Doe <index>`. The clock reading `Date.now()` is a parameter.
- **Date formatting** (`formatDateTime`), module `DateFormat`. Day, month (`getMonth() + 1`), hours, minutes and seconds are each run through `String(...).padStart(2, '0')`. They are joined as `DD.MM.YYYY HH:MM:SS`.
- **Decimal text** (`String(n)`, template-literal interpolation of integers, `padStart`), module `Decimal`. Each printer has a reader that inverts it, and a round-trip lemma connects the two.
- **Response checks and headers** (the default function minus its I/O), module `Checks`. This covers the six named status predicates, the overall verdict of `check`, the map of named outcomes, and the request headers.

Modelling decisions:

- The VU number, the iteration number and the clock reading are modelled as unbounded integers. k6 only ever passes a VU of at least 1 and an iteration of at least 0, but the function accepts any number. So the model keeps negative inputs too.
- JavaScript's `%` truncates toward zero (`JsRem`). A negative index therefore gives a remainder between -29 and 0 and a day number between -28 and 1. A negative multiple of 30 has remainder `-0`, so it gives day 1, which is 1 August. Only the day numbers -28..0 are carried back into July by the `Date` constructor. `CreationDate` models exactly that: July has 31 days, so day `d <= 0` is July `31 + d`. For a non-negative index, the day is `1 + index % 30`, in 1..30, and the date is always in August 2025.
- The code computes `day = 1 + index % 30`, so an offset of 16 gives `17.08.2025 00:00:00` (`OffsetSixteen`). Negative indexes follow the `Date` constructor, as described above.
- A title's numbers can be read back even when they are negative. A sign always follows a `-` separator, and a separator always follows a digit. So `ParseTitle` inverts `Title` for all integers.

## Model

| member | source | states |
|---|---|---|
| Decimal.NatToString | tests/sample-test.js:53-57 | `String(n)` of a non-negative integer is non-empty, all digits, has no leading zero unless n is 0, and has one character exactly when n < 10 |
| Decimal.DigitsValueUpperBound | tests/sample-test.js:53-57 | a digit string of length k denotes less than 10^k |
| Decimal.ReadNatToString | tests/sample-test.js:53-57 | reading the decimal text of n gives n back |
| Decimal.NatToStringInjective | tests/sample-test.js:72-73 | distinct numbers print differently |
| Decimal.NatToStringOfDigitsValue | tests/sample-test.js:53-57 | on canonical digit strings, printing the value read gives the string back (the other half of the bijection) |
| Decimal.DigitsValueLowerBound | tests/sample-test.js:53-57 | a digit string with a non-zero leading digit denotes at least 10^(length-1) |
| Decimal.NatToStringLength | tests/sample-test.js:53-59 | a value between 10^(k-1) and 10^k prints with exactly k characters |
| Decimal.NatToStringLengthRange | tests/sample-test.js:53-59 | conversely, a decimal text of k characters denotes a value between 10^(k-1) and 10^k |
| Decimal.PadStart | tests/sample-test.js:53-57 | `padStart(width, fill)` has length max(length, width), and ends with the original text |
| Decimal.PadStartFill | tests/sample-test.js:53-57 | every character in front of the original text is the fill character |
| Decimal.RepeatAt | tests/sample-test.js:53-57 | the padding run holds the fill character at each position |
| Decimal.DigitsValueLeadingZero | tests/sample-test.js:53-57 | a leading '0' does not change a digit string's value |
| Decimal.ReadPadStart | tests/sample-test.js:53-57 | zero-padding keeps a digit string all digits and of the same value |
| Decimal.Pad2Cases | tests/sample-test.js:53-57 | two-character padding: 0..9 becomes "0" and its digit, 10 and above is unchanged, below 100 the result has two characters |
| Decimal.ReadPad2 | tests/sample-test.js:53-57 | reading the padded digits back gives the original value |
| Decimal.Pad2OfDigitsValue | tests/sample-test.js:53-57 | padding the value of any two-digit string gives that string back |
| Decimal.DigitRun | tests/sample-test.js:68 | the leading digit run of a text is all digits and stops at a non-digit or the end |
| Decimal.DigitRunOfConcat | tests/sample-test.js:68 | a digit run over printed digits followed by a non-digit stops exactly after the digits |
| Decimal.ReadNatToStringPrefix | tests/sample-test.js:68 | the decimal text of n followed by text not starting with a digit reads back as n and that text |
| Decimal.ReadIntToString | tests/sample-test.js:68 | an integer printed with `${x}`, negative included, followed by text not starting with a digit, reads back as that integer and that text |
| Decimal.IntToStringInjective | tests/sample-test.js:72-73 | distinct integers, negative included, print differently |
| DateFormat.JoinSlices | tests/sample-test.js:59 | the template with fields of widths 2, 2, 4, 2, 2, 2 puts every field and separator at a fixed position in 19 characters |
| DateFormat.JoinOfSlices | tests/sample-test.js:59 | a 19-character string with the separators in place is the template applied to its own fields |
| DateFormat.JoinLayout | tests/sample-test.js:59 | digit fields joined by the template have the `DD.MM.YYYY HH:MM:SS` layout |
| DateFormat.ParseDateTime | tests/sample-test.js:52-59 | the reader accepts only text of the fixed layout |
| DateFormat.YearLength | tests/sample-test.js:59 | a year in 1000..9999 prints as four digits without a leading zero |
| DateFormat.Pad2Field | tests/sample-test.js:53-57 | a field below 100 pads to two digits that read back as it |
| DateFormat.FormatLayout | tests/sample-test.js:52-59 | with two-digit fields and a four-digit year the output is 19 characters, '.' at 2 and 5, ' ' at 10, ':' at 13 and 16, digits elsewhere; the padded day, the padded month `getMonth() + 1`, the year, and the padded hours, minutes and seconds sit at positions 0-1, 3-4, 6-9, 11-12, 14-15 and 17-18 |
| DateFormat.ParseJoin | tests/sample-test.js:52-59 | digit fields of widths 2, 2, 4, 2, 2, 2, joined by the template, read back as the date and time they denote |
| DateFormat.ParseFormat | tests/sample-test.js:52-59 | reading the formatted text gives the date and time back |
| DateFormat.FieldsPrintable | tests/sample-test.js:52-59 | the fields any accepted text denotes are in range: day, month, hours, minutes, seconds below 100 and a four-digit year |
| DateFormat.FormatFields | tests/sample-test.js:52-59 | formatting the fields that canonical digit strings denote gives those strings back in the template |
| DateFormat.FormatParse | tests/sample-test.js:52-59 | every string the reader accepts is the formatted form of printable fields: the reader and the printer are inverse bijections |
| DateFormat.FormatInjective | tests/sample-test.js:52-59 | distinct printable dates format differently |
| Orders.JsRem | tests/sample-test.js:65 | JavaScript `%`: the remainder differs from the dividend by a multiple of b, lies in [0, b) for a non-negative dividend and in (-b, 0] for a negative one, so it takes the dividend's sign |
| Orders.MultipleRem | tests/sample-test.js:65 | helper of `JsRem`: a multiple of b leaves remainder 0, which the congruence clause of `JsRem` rests on |
| Orders.IndexDecode | tests/sample-test.js:63-64 | for 0 <= iter < 100000, division and remainder by 100000 recover vu and iter from the index |
| Orders.IndexInjective | tests/sample-test.js:63-64 | for 0 <= iter < 100000, the index determines (vu, iter): it is unique per pair |
| Orders.IndexCollision | tests/sample-test.js:63-64 | outside that range it is not unique: iteration 100000 of VU v has the index of iteration 0 of VU v+1 |
| Orders.CreationDate | tests/sample-test.js:65 | the creation date is midnight of a valid July or August 2025 day, exactly `index % 30` (truncating) days after 2025-08-01, and always printable |
| Orders.CreationDateInAugust | tests/sample-test.js:65 | for a non-negative index the date is 2025-08-(1 + index mod 30) at midnight, with the day in 1..30 |
| Orders.ReadDashIntToString | tests/sample-test.js:68 | a '-' separator followed by a printed integer reads back as that integer |
| Orders.TitleRoundTrip | tests/sample-test.js:68 | `Title <vu>-<iter>-<clock>` reads back as (vu, iter, clock) for all integers |
| Orders.TitleInjective | tests/sample-test.js:68 | the title is unique per (vu, iter, clock) |
| Orders.PrefixedIntInjective | tests/sample-test.js:72-73 | a fixed prefix followed by a printed integer determines the integer |
| Orders.AuthorsDistinct | tests/sample-test.js:64-74 | for iterations in 0..99999, distinct (vu, iter) pairs get distinct author names and surnames, whatever the clock reads |
| Orders.AuthorCarriesIndex | tests/sample-test.js:71-74 | the author name is "John " and the surname "Doe " followed by the decimal index, which reads back from either |
| Orders.OrderClockOnlyInTitle | tests/sample-test.js:62-76 | description, date and author depend only on (vu, iter); the title changes exactly when the clock reading changes |
| Orders.OrderDateReadsBack | tests/sample-test.js:65-70 | the date field always has the `DD.MM.YYYY HH:MM:SS` layout and reads back as the creation date of the index |
| Orders.FixedFieldsText | tests/sample-test.js:53-59 | month index 7 prints as "08", zero as "00", the year as "2025" |
| Orders.AugustMidnightText | tests/sample-test.js:52-59 | midnight of an August 2025 day prints as `DD.08.2025 00:00:00` |
| Orders.CreationDateText | tests/sample-test.js:52-65 | for a non-negative index the formatted creation date is the two-digit day `1 + index % 30` followed by `.08.2025 00:00:00` |
| Orders.OrderDateText | tests/sample-test.js:65-70 | for a non-negative index the date field is the two-digit day `1 + index % 30` (in 1..30) followed by `.08.2025 00:00:00` |
| Orders.OffsetSixteen | tests/sample-test.js:65-70 | every non-negative index with remainder 16 modulo 30 is dated `17.08.2025 00:00:00` |
| Orders.HundredThousandText | tests/sample-test.js:72-73 | the index 100000 prints as "100000" |
| Orders.FirstOrderDate | tests/sample-test.js:62-70 | VU 1, iteration 0 (index 100000, remainder 10), at any clock reading, is dated `11.08.2025 00:00:00` |
| Orders.FirstOrderAuthor | tests/sample-test.js:62-74 | VU 1, iteration 0, at any clock reading, is written by "John 100000" / "Doe 100000" |
| Checks.CheckNamedFor | tests/sample-test.js:44-48 | a check is named after the status exactly when the status is 0, 401, 502, 503 or 504; that check is not '200 OK' and fails for that status |
| Checks.AllPass | tests/sample-test.js:42-49 | all six checks pass exactly when the status is 200 |
| Checks.Outcomes | tests/sample-test.js:42-49 | the outcome map holds each check's label with its predicate's result, and no other label |
| Checks.AllChecksComplete | tests/sample-test.js:42-49 | the six listed checks are all the checks |
| Checks.LabelsDistinct | tests/sample-test.js:43-48 | no two checks share a label |
| Checks.FailedByStatus | tests/sample-test.js:42-49 | status 200 fails no check; 0, 401, 502, 503 and 504 each fail exactly '200 OK' and their own check; every other status fails only '200 OK' |
| Checks.RequestHeaders | tests/sample-test.js:35-38 | exactly two headers: `Content-Type: application/json`, and `Authorization` made of "Basic " followed by the credentials |

## Left out

- `http.post` and the request itself (tests/sample-test.js:40): network I/O through the k6 HTTP client. The response status is a parameter of the checks.
- `b64encode` of `user:password` (tests/sample-test.js:27): a library call. The encoded credentials are a parameter of `RequestHeaders`.
- `JSON.stringify` of the order (tests/sample-test.js:40): a library serialiser. The model stops at the order record.
- `Date.now()` (tests/sample-test.js:68): a wall-clock read. It is the `now` parameter of `GenerateOrder`.
- The configuration import (tests/sample-test.js:4-8): external configuration loading.
- `options.stages` and `options.thresholds` (tests/sample-test.js:10-23): declarative settings that the k6 runtime consumes. The script implements no ramp scheduling, VU pool, result aggregation or threshold evaluation.
- Recording and aggregation of check results inside k6's `check()`, across concurrent VUs: runtime behaviour. The model gives the outcome map and the overall verdict for one response.
- JavaScript numbers are IEEE doubles. The model uses unbounded integers. It does not model precision loss above 2^53, exponent notation in `String(n)` from 1e21 upward, or non-integral arguments.
- Time zones and daylight saving: the creation date is local midnight. `CreationDate` encodes how the `Date` constructor normalises only the day numbers that can occur (-28..30). It does not model general calendar arithmetic.
- `PadStart` models a one-character fill string, which is the only kind the script uses.
- Several functions model a source expression directly and carry no `ensures` of their own. Their properties are stated by the lemmas listed above:
  - `Orders.GenerateOrder` is `generateOrder` (tests/sample-test.js:62-76), described by `OrderClockOnlyInTitle`, `OrderDateReadsBack`, `OrderDateText`, `AuthorCarriesIndex` and `AuthorsDistinct`.
  - `Orders.Title` is the title template (tests/sample-test.js:68), described by `TitleRoundTrip` and `TitleInjective`.
  - `Orders.Index` is `vu * 100000 + iter` (tests/sample-test.js:64), described by `IndexDecode`, `IndexInjective` and `IndexCollision`.
  - `DateFormat.FormatDateTime` is `formatDateTime` (tests/sample-test.js:52-59), described by `FormatLayout`, `ParseFormat`, `FormatParse` and `FormatInjective`.
  - `Decimal.IntToString` is `${x}` and `String(x)` of an integer (tests/sample-test.js:59, 68, 72-73), described by `ReadIntToString` and `IntToStringInjective`.
  - `Decimal.Pad2` is `String(n).padStart(2, '0')` (tests/sample-test.js:53-57), described by `Pad2Cases`, `ReadPad2` and `Pad2OfDigitsValue`.
  - `Checks.Label` and `Checks.Passes` are the six named checks (tests/sample-test.js:43-48), and `Checks.Failed` is the set of checks a status fails. They are described by `AllPass`, `Outcomes`, `LabelsDistinct` and `FailedByStatus`.
