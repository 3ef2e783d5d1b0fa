# Daily campaign digest — a Dafny model

This project models the presentation core of a small reporting job. Each day the
job reads per-client campaign metrics for the previous business day in India
Standard Time, then publishes them in two ways:

- **Email presenter** (`email_send.py`):
  - `build_html` turns the rows into an HTML alert digest and a subject line. The digest holds the date banner and the summary totals.
  - The reply rate is positives over sent. It is rounded half-to-even to one decimal, as `Decimal.quantize` does.
  - Three sorted alert lists: clients under the lead threshold, clients at or under the reply-count threshold, and clients with no positive reply.
  - `render_list` draws each alert list, either as a `<ul>` or as the "None" paragraph.
  - `build_plaintext` gives the fixed plain-text fallback.
  - The recipient lists are parsed from the comma-separated `EMAIL_TO` and `EMAIL_CC` settings.
- **Chat presenter** (`slack_post.py`): `build_blocks` builds a header block and one Markdown section per client, for at most the first ten clients.

Modules:

| module | file | contents |
|---|---|---|
| `Text` | text.dfy | decimal rendering, code-point string order, `str.split`/`str.join`/`str.strip` |
| `Sequences` | sequences.dfy | three permutation lemmas used by the order-independence and sort proofs |
| `Metrics` | metrics.dfy | the client row and the summary totals |
| `ReplyRate` | reply_rate.dfy | half-even rounding and the `"12.3%"` text |
| `Alerts` | alerts.dfy | the three alert lists: filter, then sort |
| `EmailDigest` | email_digest.dfy | `render_list`, `build_html`, `build_plaintext` |
| `Recipients` | recipients.dfy | the `TO_LIST`/`CC_LIST` parsing |
| `SlackReport` | slack_blocks.dfy | `build_blocks` as a method with a loop, proved against the function `ReportBlocks` |

Modelling choices:

- **Integers.** Python integers are unbounded, so metric values are `nat`. The two thresholds come from `int()` and may be negative, so they are `int`.
- **Reply rate.** The rate is kept exactly, as a whole number of tenths of a percent.
- **Sorting.** A Python `sorted` call is modelled by its result: the unique sorted permutation of the candidate entries.
  - The low-leads and low-replies keys are the whole `(name, value)` tuple, ordered `(value, name)`, so ties cannot leave an order open.
  - The zero-positives list is sorted by name only. Every entry in it has the value 0, so its order is unique too (`Alerts.AlertListAntisymmetric`).
- **Strings.** Strings are sequences of code points. Python's `<` on `str` compares code points, which is `Text.StrLe`.

Three behaviours of the code worth knowing:

- The low-leads list keeps rows with an empty client name (`email_send.py:75`). The replies and positives lists drop them (`email_send.py:76-77`).
- `build_html` does not filter out rows with nothing sent. The email query's `HAVING` clause does that. Under the default thresholds, a named row whose metrics are all 0 adds nothing to the totals and is listed in all three lists (`EmailDigest.DigestInactiveClient`).
- The chat payload has a fixed header and no summary block (`slack_post.py:49-51`).

## Model

| member | source | states |
|---|---|---|
| Metrics.ComputeTotals | email_send.py:66-69 | each of the four summary totals is the left-to-right running sum of its column from 0, as Python's `sum` adds |
| Metrics.RunningSumTotal | email_send.py:66-69 | the running sum from a start value is the start value plus the column total, so the order of addition does not matter |
| Metrics.TotalAppend | email_send.py:66-69 | the sum over a concatenation is the sum of the sums |
| Metrics.TotalBoundsEachRow | email_send.py:66-69 | each row's value is at most its column total |
| Metrics.TotalPermutation | email_send.py:66-69 | a column sum does not depend on the order of the rows |
| Metrics.TotalsPermutation | email_send.py:66-69 | the four summary totals do not depend on the order of the rows |
| ReplyRate.RoundHalfEven | email_send.py:72 | the result is within half a unit of n/d, and a tie goes to the even neighbour |
| ReplyRate.RoundHalfEvenUnique | email_send.py:72 | any half-even rounding of n/d equals RoundHalfEven, so the rounding is determined |
| ReplyRate.ReplyRateString | email_send.py:72 | "0.0%" when nothing was sent; otherwise the text parses to the half-even rounding of 1000·positives/sent tenths, with no clamp at 100 |
| ReplyRate.PercentStringParse | email_send.py:72 | parsing a rendered rate gives back its tenths |
| ReplyRate.ParsePercentCanonical | email_send.py:72 | every text the parser accepts is the rendering of its value, so rendering is injective |
| ReplyRate.ReplyRateExamples | email_send.py:72 | 12345/100000 → "12.3%", 0/500 → "0.0%", 3/2 → "150.0%" (not clamped) |
| ReplyRate.ReplyRateTieExamples | email_send.py:72 | exact ties go to the even tenth: 1/16 → "6.2%", 3/16 → "18.8%" |
| Alerts.Candidates | email_send.py:75-77 | at most one entry per row, and each entry comes from a row that meets the list's condition |
| Alerts.CandidatesComplete | email_send.py:75-77 | every row that meets the condition contributes its (name, value) entry |
| Alerts.CandidatesAppend | email_send.py:75-77 | filtering keeps input order across a concatenation |
| Alerts.CandidatesPermutation | email_send.py:75-77 | reordering the rows permutes the candidates |
| Alerts.LeTotal | email_send.py:75-77 | the sort key order is total |
| Alerts.LeTransitive | email_send.py:75-77 | the sort key order is transitive |
| Alerts.InsertSorted | email_send.py:75-77 | insertion keeps a list sorted and adds exactly one element |
| Alerts.InsertFront | email_send.py:75-77 | an entry not above the head of a sorted list may go in front and the list stays sorted |
| Alerts.InsertBehind | email_send.py:75-77 | an entry above the head goes behind it: given that inserting into the tail kept the tail sorted and added exactly that entry, the whole list stays sorted and gains exactly that entry |
| Alerts.LowerBoundKept | email_send.py:75-77 | a lower bound of every entry and of the inserted one bounds the whole result |
| Alerts.SortSorted | email_send.py:75-77 | the sort's result is sorted and a permutation of its input |
| Alerts.SortedUnique | email_send.py:75-77 | two sorted permutations of the same entries are equal when the key has no ties between distinct entries |
| Alerts.AlertList | email_send.py:75-77 | each alert list is sorted by its key and is a permutation of the filtered entries |
| Alerts.AlertListMembership | email_send.py:75-77 | an entry is listed if and only if some row meets the condition and yields that entry |
| Alerts.AlertListNamed | email_send.py:76-77 | the replies list and the positives list hold only named clients, and the positives list holds only zero values |
| Alerts.AlertListAntisymmetric | email_send.py:75-77 | no two distinct entries of a list tie on the key, including the name-only key of the positives list |
| Alerts.AlertListReorder | email_send.py:75-77 | every alert list is the same whatever the order of the input rows |
| EmailDigest.RenderList | email_send.py:79-83 | an empty list renders as the "None" paragraph |
| EmailDigest.RenderListNoneIff | email_send.py:80-83 | the "None" paragraph appears if and only if the list is empty |
| EmailDigest.ItemLineNoNewline | email_send.py:82 | an item line holds no newline when neither its name nor its label holds one |
| EmailDigest.RenderListLines | email_send.py:82-83 | when neither the label nor any name holds a newline, a non-empty list is one `<ul>` whose body, split at newlines, is exactly the item lines in order |
| EmailDigest.Fill | email_send.py:85-122 | the filled template starts with its first fixed part |
| EmailDigest.FillAt | email_send.py:85-122 | hole k sits between fixed parts k and k+1: the filled template is the first k parts with their holes, then part k, hole k and the filled rest |
| EmailDigest.FillFirstHole | email_send.py:85-89 | a filled template begins with its first fixed part followed by the first value |
| EmailDigest.DigestHoles | email_send.py:85-122 | the template's eleven placeholders get exactly eleven values |
| EmailDigest.FilledFrameStart | email_send.py:85-86 | a filled digest opens with `<div`, so it is never the "no data" text |
| EmailDigest.RenderDigest | email_send.py:85-122 | the digest document is never the "no data" text |
| EmailDigest.BuildHtml | email_send.py:60-124 | no rows gives the fixed no-data pair; otherwise the subject is the alert prefix plus the first row's date, and the document is a digest |
| EmailDigest.BuildHtmlShowsDate | email_send.py:85-89 | the digest's banner is the opening template text followed by the first row's date |
| EmailDigest.BuildHtmlPlacesValue | email_send.py:85-122 | a non-empty day's document is the template with its k-th value between its k-th and (k+1)-th fixed parts, for each of the eleven values |
| EmailDigest.DigestSummaryValues | email_send.py:64-69 | the first five values are the first row's date and the four column totals, in the order sent, leads, replies, positives |
| EmailDigest.DigestRateValue | email_send.py:72 | the sixth value is the reply-rate text of the summed positives over the summed sends |
| EmailDigest.DigestAlertValues | email_send.py:75-77 | the remaining values are the low-leads threshold and list, the low-replies threshold and list, and the zero-positives list, each list rendered with its own label |
| EmailDigest.BuildHtmlReorder | email_send.py:60-124 | the html and the subject depend only on the multiset of rows and on the first row's date |
| EmailDigest.PlaintextIgnoresHtml | email_send.py:126-128 | the plain-text fallback is the same non-empty text for any html |
| EmailDigest.DigestLowClient | email_send.py:75-77 | a client with 100 leads, 3 replies and 0 positives is in all three lists under the default thresholds |
| EmailDigest.DigestHealthyClient | email_send.py:66-77 | a client with 1000 sent, 300 leads, 50 replies and 10 positives gets its own totals, rate "1.0%" and no alert |
| EmailDigest.DigestInactiveClient | email_send.py:66-77 | under the default thresholds, a named all-zero row adds nothing to the totals but is listed in all three lists |
| Text.NatToStringInjective | email_send.py:95-98 | distinct numbers render as distinct decimal texts |
| Text.IntToString | email_send.py:104-109 | `str(i)` of a threshold is non-empty and starts with a minus sign exactly when the threshold is negative |
| Text.IntToStringInjective | email_send.py:104-109 | distinct thresholds render as distinct texts |
| Text.NatToStringCanonical | email_send.py:95-98 | `str(n)` is all digits with no leading zero unless it is "0" |
| Text.DigitsValueOfNatToString | email_send.py:95-98 | reading the digits of `str(n)` gives back n |
| Text.JoinSplit | email_send.py:15 | joining the pieces of a split with the separator gives back the text |
| Text.SplitJoin | email_send.py:82 | splitting a join of one or more separator-free pieces gives back the pieces |
| Text.SplitAround | email_send.py:15 | splitting at a separator splits each side independently |
| Text.LeadingSpace | email_send.py:15 | counts exactly the whitespace run at the start: all counted characters are whitespace, and the next one is not |
| Text.TrailingSpace | email_send.py:15 | counts exactly the whitespace run at the end: all counted characters are whitespace, and the one before is not |
| Text.Strip | email_send.py:15 | the result is the slice of the input after its leading whitespace, and it neither starts nor ends with whitespace |
| Text.StripRemovesOnlySpace | email_send.py:15 | every character stripped from either end is whitespace |
| Text.StripStripped | email_send.py:15 | stripping already stripped text changes nothing |
| Text.StrLeTotal | email_send.py:75 | the code-point order of names is total |
| Text.StrLeTransitive | email_send.py:75 | the code-point order of names is transitive |
| Text.StrLeAntisymmetric | email_send.py:75 | names equal in that order are equal |
| Recipients.StripKeepsOut | email_send.py:15 | stripping adds no character |
| Recipients.CleanEntry | email_send.py:15-16 | one piece gives at most one entry, and that entry is non-empty, stripped and free of commas |
| Recipients.CleanEntries | email_send.py:15-16 | the kept entries are non-empty, stripped and free of commas, and there are at most as many as pieces |
| Recipients.ParseRecipients | email_send.py:15-16 | at most one entry per comma-separated piece, each non-empty, stripped and free of commas |
| Recipients.CleanEntriesAppend | email_send.py:15-16 | cleaning keeps order across a concatenation of pieces |
| Recipients.ParseRecipientsConcat | email_send.py:15-16 | the entries of `a,b` are the entries of `a` followed by those of `b` |
| Recipients.ParseRecipientsSingle | email_send.py:15-16 | text without a comma gives its stripped self, or nothing when it is blank |
| Recipients.ParseRecipientsEmpty | email_send.py:15-16 | an unset setting (the default "") gives no recipients |
| SlackReport.Sections | slack_post.py:52-54 | one section per row |
| SlackReport.SectionsAt | slack_post.py:52-54 | the k-th section describes the k-th row |
| SlackReport.ReportBlocksShape | slack_post.py:49-55 | the header comes first, then exactly min(n, 10) sections, the k-th for rows[k] |
| SlackReport.ReportBlocksIgnoresTail | slack_post.py:52 | rows after the tenth never reach the payload |
| SlackReport.ReportBlocksEmpty | slack_post.py:49-55 | no rows gives the header alone |
| SlackReport.BuildBlocks | slack_post.py:48-55 | the loop builds exactly the specified blocks: header first, then one section per row of the first ten, in order |
| SlackReport.LabelledInjective | slack_post.py:53 | when the text after it is empty or starts with a comma, a labelled number reads back its value and that text |
| SlackReport.MetricsTextInjective | slack_post.py:53 | the metrics part of a section determines all five numbers |
| SlackReport.SectionTextDeterminesMetrics | slack_post.py:53 | a section's text determines the client name and all five numbers, when names hold no `*` |

## Left out

- Database access (`fetch_rows`, `fetch_data`, the SQL text) is not modelled. Rows are a parameter. This covers the business-date computation and the `HAVING SUM(total_sent) > 0` filter.
- Email transport (`send_email`, SMTP, `EmailMessage`) is not modelled. Neither is the Slack HTTP call (`post_to_slack`) or its fallback text "Daily report".
- The environment bootstrap is not modelled: reading settings, the default values, and `SystemExit` when a setting is missing. The recipient parsing takes the setting's text as a parameter. The thresholds are a `Thresholds` value, with the source defaults (250 and 5) as `EmailDigest.DefaultThresholds`.
- ReplyRate.ReplyRateString: models the exact rational, without `Decimal`'s 28-digit context. Below 10^24 total positives, whatever the sent total, the 28-digit rounding cannot change the quantized tenth. An exact tie is then represented exactly, and any other quotient's rounding error is smaller than its distance to the nearest tie. The `InvalidOperation` that quantize raises for huge results is not modelled either.
- The date is carried as the text that `str(date)` would give. Date arithmetic and formatting belong to the query.
- `None` values from the database are not modelled. Names are text, which may be empty, and numbers are naturals.
- `agg_report.py` and `db_probe.py` are not part of this model.
- Alerts.AlertList: models the sorted result, not Python's sort algorithm. The result is the same, because the sorted permutation is unique (`Alerts.SortedUnique`).
- EmailDigest.BuildHtml: its own contract states only the no-data case, the subject and that the document is not the no-data text. Where each value sits in the document is stated by `BuildHtmlPlacesValue`, and which value fills each place by `DigestSummaryValues`, `DigestRateValue` and `DigestAlertValues`.
- HTML escaping is not modelled: the source inserts names unescaped, and so does the model.
