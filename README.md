# CSP violation report endpoint, modelled in Dafny

The system is a single PHP webhook, `csp-reporting.php`. Browsers send Content
Security Policy violation reports to it. For each request it:

1. checks the `Origin` header against the allowed origin;
2. checks the content type;
3. applies a sliding-window rate limit kept in a shared timestamp file;
4. checks the body size;
5. decodes the JSON body and checks that it has a `csp-report`;
6. formats the report as plain text, escaping every field with `htmlspecialchars`;
7. hands the text to a mail service.

The response is only a status code: 403, 415, 429, 413, 400, 204 or 500.

The model has five files:

- `basics.dfy`: an `Option` datatype and a lemma that concatenation is associative.
- `html.dfy`: `htmlspecialchars` as `Escape`, and `ucfirst` as `Ucfirst`. It also has an entity decoder, `Unescape`, used as the inverse of `Escape`. Lemmas show that escaping leaves no raw markup, loses nothing, and leaves plain text unchanged.
- `ratelimit.dfy`: the timestamp filter `Recent` and the admit-or-throttle step `Admit`. `Replay` runs the limiter over a sequence of arrivals. The lemmas show that, as long as the clock never steps back between requests, this shared record acts exactly like an ideal sliding-window log, and no window ever holds more than `MaxRequests` admitted requests.
- `report.dfy`: the text that gets mailed, and `FormatReport`. `FormatReport` is the `foreach` / `.=` loop that builds the text.
- `handler.dfy`: the whole request. `Respond` is the decision as a function, and `Handle` is the script's step-by-step method proved equal to it. `Serve` chains requests one after another.

The constants match the script:

- allowed origin `https://example.com`;
- content type `application/csp-report`;
- 10 requests per 60 seconds;
- body limit 50000 bytes;
- fixed sender, recipient and subject.

Inputs and outputs:

- The stored rate record is passed in as a `seq<int>`. The record to write back comes out as `Option<seq<int>>`, where `None` means the file is not written.
- The clock is one `now` parameter. The formatted date is an opaque `time` string.
- The client address is a string in the request.
- The JSON decoding of the body is an input of type `Decoding`.
- Whether the call to the mail client returned without throwing is a boolean `sendOk`. The mail handed to it is part of the response.

Three details of the code worth noting, all modelled as the code has them:

- A stored timestamp exactly `TimeWindow` seconds old is dropped. The filter keeps only `time > now - timeWindow`.
- A `csp-report` member that is present but `null` gives 400. This is `isset` semantics.
- A request answered with 413 or 400 has already written its timestamp to the record, so it uses up a slot.

`Escape` follows the default flags of PHP 8.1 and later. It rewrites `&`, `<`, `>` and `"` as `&amp;`, `&lt;`, `&gt;` and `&quot;`, and also `'` as `&#039;`.

## Model

| member | source | states |
|---|---|---|
| Html.Escape | csp-reporting.php:72-73 | the escaped text contains no `<`, `>`, `"` or `'`, and is never shorter than the input |
| Html.EscapeChar | csp-reporting.php:72-73 | a special character becomes an entity starting with `&` and carrying no raw markup; every other character is kept as is |
| Html.EscapeConcat | csp-reporting.php:72-73 | escaping a concatenation is the concatenation of the escaped parts |
| Html.EscapeAt | csp-reporting.php:72-73 | the output is the escaped prefix, the character's replacement, then the escaped rest, in input order |
| Html.EscapeAmpersand | csp-reporting.php:72-73 | every `&` of the input appears as `&amp;` at its place in the output |
| Html.EscapeIdentity | csp-reporting.php:72-73 | escaping leaves a string unchanged if and only if it holds none of `& < > " '` |
| Html.UnescapeEscape | csp-reporting.php:72-73 | decoding the five entities recovers the original input exactly, so escaping is lossless and its every `&` starts an entity |
| Html.Ucfirst | csp-reporting.php:74 | the length is kept, only the first character can change, an ASCII lower-case first letter becomes its own upper-case letter, and anything else is left alone |
| Html.UcfirstFieldName | csp-reporting.php:74 | the report key `document-uri` is printed as `Document-uri` |
| Html.UcfirstNoRawMarkup | csp-reporting.php:74 | capitalising never introduces markup characters |
| RateLimit.Recent | csp-reporting.php:39 | the filtered record is no longer than the stored one, and every kept timestamp is strictly newer than `now - TimeWindow` |
| RateLimit.RecentIsSubsequence | csp-reporting.php:39 | the filtered record is an order-preserving subsequence of the stored record |
| RateLimit.RecentCounts | csp-reporting.php:39 | every fresh timestamp is kept as many times as it is stored, and every stale one is dropped |
| RateLimit.RecentLater | csp-reporting.php:39 | filtering at `now` and then at a later time is the same as filtering once at the later time |
| RateLimit.RecentShrinks | csp-reporting.php:39 | fewer stored timestamps count at a later time |
| RateLimit.Admit | csp-reporting.php:39-48 | throttled exactly when `MaxRequests` or more fresh timestamps remain; otherwise the record to write is the fresh timestamps with `now` appended once, and holds at most `MaxRequests` entries, all inside the window |
| RateLimit.ReplayInvariant | csp-reporting.php:33-48 | in a sequential run from an absent record, with arrival times that never go backwards, the admitted requests are among the arrivals, the stored record agrees with the admitted history at every later time, and no window of `TimeWindow` seconds holds more than `MaxRequests` admitted requests |
| RateLimit.ReplayAdmitsIff | csp-reporting.php:39-47 | in a sequential run with arrival times that never go backwards, a request is admitted exactly when fewer than `MaxRequests` earlier admissions fall in the window ending at its arrival; a throttled one adds nothing to the history |
| Report.FormatReport | csp-reporting.php:67-81 | the loop builds exactly the header, one line per string field in order, then the server-details block |
| Report.LinesConcat | csp-reporting.php:70-76 | the lines of two runs of fields are the lines of the first followed by those of the second |
| Report.LinesStringField | csp-reporting.php:70-75 | a string-valued field contributes exactly one `Ucfirst(Escape(key)): Escape(value)` line at its position |
| Report.LinesOtherField | csp-reporting.php:70-71 | a field whose value is not a string contributes nothing |
| Report.LinesNoRawMarkup | csp-reporting.php:70-76 | the field lines contain no raw markup, whatever the fields hold |
| Report.ReportNoRawMarkup | csp-reporting.php:67-81 | the whole body contains no raw markup if the time, address and origin strings contain none |
| Report.PlainLine | csp-reporting.php:72-74 | a field with nothing to escape is printed as `Key: value` with only the key's first letter capitalised |
| Report.LineEscapesTag | csp-reporting.php:73 | a value such as `<script>` appears only as `&lt;script&gt;` |
| Handler.Respond | csp-reporting.php:17-98 | the status is one of the seven codes; a written record is non-empty, ends with `now` and holds at most `MaxRequests` entries; a mail is handed to the sender exactly when the status is 204 or 500 |
| Handler.Handle | csp-reporting.php:17-98 | the step-by-step handler, with its early exits, in-place append, and formatter loop, gives exactly the decision `Respond` describes |
| Handler.StatusMeans | csp-reporting.php:17-98 | each status holds if and only if every earlier check passed and its own check failed; 204 and 500 mean every check passed and the send call returned or threw |
| Handler.HeaderRejectionTouchesNothing | csp-reporting.php:19-30 | a 403 or 415 request neither writes the rate record nor sends mail |
| Handler.RecordWritten | csp-reporting.php:39-64 | once the headers pass, the record is written exactly when the limiter admits, as the fresh timestamps plus `now`, and whatever the size, decoding and send outcomes are; a throttled request writes nothing and sends nothing |
| Handler.SizeBoundary | csp-reporting.php:52-56 | a 50000-byte body passes the size check and a 50001-byte body gives 413 |
| Handler.MailSent | csp-reporting.php:59-98 | mail is handed over exactly when every check passes, and it is the formatted report from the fixed sender to the fixed recipient with the fixed subject |
| Handler.MailHasNoRawMarkup | csp-reporting.php:67-81 | the mailed text never contains raw markup, given a clock string and client address without any |
| Handler.LimiterTimes | csp-reporting.php:19-39 | the times that reach the limiter are no more than the requests, and each is the clock reading of a request whose origin and content type both passed |
| Handler.ServeIsReplay | csp-reporting.php:17-48 | serving requests one after another is the limiter replayed on the requests whose headers pass; the others never touch the record |
| Handler.RateCap | csp-reporting.php:33-48 | end to end, for requests handled one at a time in non-decreasing time order, no window of `TimeWindow` seconds holds more than `MaxRequests` requests that took a slot |

## Left out

- The mail service and its client library (lines 84-97) are a foreign dependency. They are modelled as the `sendOk` outcome and the `Mail` value handed over.
- The script never inspects the response the mail client returns (line 92). Only an exception gives 500, so a send the service refuses without throwing still answers 204. `sendOk` therefore means "the send call returned", not "the mail was delivered".
- Reading the headers, the server variables, the request body stream, the status-code call, `exit` and `error_log` are server plumbing. They are inputs and outputs here, and the log messages are not modelled.
- File I/O on the rate-limit file is replaced by the record passed in and out. Three things about the file are therefore not modelled:
  - the race in which concurrent requests both read the file before either writes;
  - a corrupt file, where decoding gives null and the filter fails;
  - `array_filter` keeping the original keys, so that the encoded record can become a JSON object.
- `json_decode` and `json_encode` are not modelled. The body's decoding is an input, and a valid document that is not an object counts as one without `csp-report`.
- The formatted date is an opaque string. The script calls `time()` several times, and all of those calls are one `now` here.
- `htmlspecialchars` replacing invalid UTF-8, and its quote flags under older PHP versions, are not modelled. Strings are sequences of characters, not bytes. Every character the function rewrites is ASCII, so this changes nothing for valid text.
- Ucfirst: upper-cases only ASCII `a`-`z`, because locale-dependent case mapping of other bytes is not modelled.
- A `csp-report` that is a scalar makes the loop run zero times, after PHP's warning. An array member is seen as its entries. Numeric keys appear as their decimal text.
- The clock is assumed not to step back between requests (`Nondecreasing` in `ReplayInvariant` and `ReplayAdmitsIff`, `InTimeOrder` in `RateCap`). The script reads the wall clock with `time()`, and a wall clock can step back. If it does, the cap can be exceeded: ten requests at time 0, one at 1000, then nine at 30 are all admitted, and the window (-30, 30] then holds 19 of them. The request at 1000 purges the ten entries at 0, so they no longer count once the clock steps back.
