# Video-games statistics widget

A Dafny model of the page script `public/javascripts/main.js`. On page load it
asks the backend for today's tracked video games and shows three counters in
badges. The model covers the three pieces of that script that compute
something:

- **the three counts of `displayStats`**: `total` (all records),
  `withoutResellPrice` (records with no resale price) and `withGoodPrice`
  (records whose listing price is strictly below their resale cash value);
- **the `from` query value**: the date part of the current time's ISO 8601 /
  RFC 3339 text (section 5.6, `full-date`) followed by `T00:00:00Z`, that is,
  midnight UTC of today;
- **the response-status gate**: only status 200 goes on to parsing and
  display; any other status becomes a rejection whose message carries the
  status code. A rejected status or a body that does not parse ends in the
  one `catch`, which logs it, and no badge is written.

Files:

- `wrappers.dfy`: `Option` (a missing or null field) and `Result`.
- `decimal.dfy`: decimal text of whole numbers, as a template literal renders
  them below 10^21 (which covers every HTTP status), with its parser and the round-trip lemma. This is used to state that
  the rejection message carries the status.
- `stats_widget.dfy`: the model of `main.js`. A game record is
  `Game(resellPrice: Option<ResellPrice>, listingDetails: ListingDetails)`,
  with prices as whole numbers (for example cents). `Filter` is
  `Array.prototype.filter`, and the counts are filter lengths.

The script is made of expressions, with no loops and no mutable state apart
from the DOM writes. So the model is written as functions and lemmas.

## Model

| member | source | states |
|---|---|---|
| StatsWidget.DisplayStats | public/javascripts/main.js:6-9 | `total` is the number of records, and `withoutResellPrice + withGoodPrice <= total`, so each count is at most `total` |
| StatsWidget.CountsArePositionCounts | public/javascripts/main.js:7-9 | `total` is the record count; `withoutResellPrice` is the number of positions whose record has no resale price; `withGoodPrice` is the number of positions whose record has a resale price and a listing price strictly below its cash value (a record counts exactly when it has that kind) |
| StatsWidget.StatsPartition | public/javascripts/main.js:8-9 | every record is exactly one of: no resale price, good price, resale price not undercut; the three counts add up to the number of records, so the two filters are disjoint |
| StatsWidget.Filter | public/javascripts/main.js:8-9 | the filter keeps no more elements than the input has, and an element is in the result exactly when it is in the input and satisfies the predicate |
| StatsWidget.FilterLengthIsPositionCount | public/javascripts/main.js:8-9 | the length of a filter's result is the number of input positions whose element satisfies the predicate |
| StatsWidget.FilterAppend | public/javascripts/main.js:8-9 | filtering a concatenation gives the concatenation of the filtered parts |
| StatsWidget.StatsAppend | public/javascripts/main.js:7-9 | each count over two record lists joined together is the sum of the counts over each list |
| StatsWidget.StatsAppendOne | public/javascripts/main.js:7-9 | adding one record raises `total` by one, raises `withoutResellPrice` exactly when the record has no resale price, and raises `withGoodPrice` exactly when it has one with price < cash; a record with price >= cash raises neither |
| StatsWidget.EqualPriceIsNotGood | public/javascripts/main.js:9 | the comparison is strict: a record whose listing price equals its resale cash value raises only `total` |
| StatsWidget.ThreeRecordExample | public/javascripts/main.js:7-9 | records {no resale price}, {cash 50, price 40}, {cash 50, price 60} give total 3, without resale price 1, good price 1 |
| StatsWidget.Prefix | public/javascripts/main.js:1 | `substring(0, n)` is a prefix of the text, of length `n`, or the whole text when it is shorter |
| StatsWidget.From | public/javascripts/main.js:1 | for a text of at least 10 characters, `from` is 20 characters long, keeps the first 10 characters (the date) unchanged and ends in `T00:00:00Z`; a shorter text is kept whole and gets the suffix |
| StatsWidget.FromIsMidnightOfSameDate | public/javascripts/main.js:1 | for an RFC 3339 UTC timestamp, `from` is again an RFC 3339 UTC timestamp with the same date, at time `00:00:00` with no fraction |
| StatsWidget.CheckStatus | public/javascripts/main.js:17 | the response passes exactly when its status is 200; any other status gives a rejection whose message reads back as that status |
| StatsWidget.LoadStats | public/javascripts/main.js:16-19 | the badges are rendered exactly when the status is 200 and the body parsed, and then they show `displayStats` of the parsed records; a non-200 status is logged with its code; a parse failure is logged with its own error |
| StatsWidget.RejectedStatusIgnoresBody | public/javascripts/main.js:17-19 | for a non-200 status the outcome does not depend on the response body (the body is never parsed or displayed) |
| Decimal.NatToString | public/javascripts/main.js:17 | the status text in the rejection message is non-empty, all decimal digits, with no leading zero |
| Decimal.ParseNatToString | public/javascripts/main.js:17 | the decimal text of the status code in the rejection message reads back as the same number |
| Decimal.NatToStringInjective | public/javascripts/main.js:17 | different status codes give different message texts |

## Left out

- `fetch`, the promise chain and `console.error` (main.js lines 16-19) are network I/O and asynchronous control flow. The model keeps only where a page load ends (`LoadStats`: rendered statistics, or a logged message).
- The request URL and the `limit` constant (main.js lines 2 and 16) only feed `fetch`. They are not modelled.
- The DOM lookups and `innerHTML` writes (main.js lines 10-13) are browser calls. `Stats` holds the three numbers in badge order.
- `new Date().toISOString()` (main.js line 1) is a clock read and a library formatter. Its text is the parameter `iso` of `From`. For years outside 0-9999 `toISOString` writes a six-digit signed year, and then the first 10 characters are not the date. `FromIsMidnightOfSameDate` only covers the four-digit-year form.
- `res.json()` (main.js line 17) is a library parser. Its outcome is the parameter `body` of `LoadStats`, either the parsed records or an error message. A body that parses but is not a list of records is not modelled.
- JavaScript numbers are modelled as integers, so NaN, infinities and fractional prices are not modelled. An object-valued `resellPrice` is always truthy, so `!g.resellPrice` is modelled as "the field is missing or null" (`None`).
- `LoadStats` assumes the `video-games` container and its three badges exist. If a badge is missing, the script throws into the catch after the earlier badges have been written (main.js lines 11-13). This partial display is not modelled.
- `Decimal.NatToString` gives plain decimal digits for every number. JavaScript switches to exponent form from 10^21 on (`1e+21`), which no HTTP status reaches; that form is not modelled.
- The later summary-endpoint variant, where the server sends the three counts, is not in this source file and is not modelled.
