# Check-Host client core in Dafny

This project models the core of `check_host.py`, a command-line network
diagnostic tool. The tool submits ping, HTTP, TCP, UDP and DNS checks to the
Check-Host measurement service, waits for the service's nodes to report, and
turns each node's raw JSON answer into one record per location.

It has three parts:

- **Result normalizer** (`normalizer.dfy`, `ping_stats.dfy`). These model the
  five methods `NetworkTester.ping`, `http_check`, `tcp_check`, `udp_check`
  and `dns_check`. They are one loop, `Normalizer.Normalize`, over the API
  result's entries in order. The loop drops node ids that are missing from
  the node table and files each known node's record under the label
  `"country (city)"`. Each record is an error record ("No <Type> data",
  "Invalid <Type> response") or the metrics record of the check type. The
  loop is proved equal to a fold, `Collect`. The fold's key set, its
  "later node wins" rule, the shape errors and every metric are proved as
  lemmas.
- **Job client** (`check_host_api.dfy`). This models `CheckHostAPI.check_*`
  (submit with up to three attempts) and `_get_check_results` (poll until
  complete or until 30 s have elapsed). Both are `while` loops over oracle
  sequences. The oracles are the reply to each submission attempt, the reply
  to each poll, and the elapsed-time reading after each poll. Every action the
  client takes (a submission request, a result request, a sleep) goes into a
  trace. Each loop is proved equal to a recursive specification function.
  The lemmas prove the retry bound, the poll bound, the sleeps, and which
  reply comes back: the first complete poll, and the poll result for the
  first request id received.
- **Tester** (`network_tester.dfy`). This holds the HTTP scheme defaulting
  and `RunCheck`, which chains submit, poll and normalize.

The node table (`NodeTable.NodeDetails`) copies the 46 entries of the
source's table. The normalizer takes the table as a parameter.

Normalizing is a function of its input (`Normalizer.NormalizeSpec`), so
normalizing the same payload twice gives the same output.

Behaviour of the code worth knowing, which the model keeps:

- Two known nodes with the same label (ru1 and ru2 are both "Russia
  (Moscow)") collapse to one location, and the later node's record wins.
  A result therefore has fewer locations than known nodes whenever two of
  them share a label.
- A payload that is null, not a list, or an empty list gives "No <Type> data".
  It never gives "Invalid <Type> response".
- The `else 100` loss branch cannot be reached. A valid ping payload has at
  least two attempts (`Normalizer.PingSuccessAndLoss`).
- A submission that gets no request id is retried without sleeping. Only a
  transport error is followed by the 2 s sleep.
- Polling stops once elapsed time reaches 30 s (`>=`), not only once it
  exceeds it.
- An API result with an 'error' key is passed on without its other entries
  being read, so those entries need not be readable (`Normalizer.Normalizable`).
- Only a complete poll is handed on, so only complete polls need to be
  readable (`NetworkTester.PollsParsable`).

## Model

| member | source | states |
|---|---|---|
| `NodeTable.Label` | check_host.py:362 | the label starts with the country, ends with `)`, and has the length of `country (city)` |
| `NodeTable.LabelFormat` | check_host.py:362 | the label reads back as the country, then ` (`, then the city, then `)` |
| `JsonValue.Lookup` | check_host.py:356-357 | the looked-up value is that of an entry with the key, and no later entry has the key (a decoded dict keeps a repeated key's last value) |
| `Normalizer.ShapeOf` | check_host.py:364-366 | "no data" iff the payload is not a non-empty list; "invalid" iff its first element is not a list or has no more fields than the check type's limit (1, 3, 1, 1, 0); otherwise the first element's fields |
| `Normalizer.Addresses` | check_host.py:559 | there are never more addresses than DNS records |
| `Normalizer.PingRecordOf` | check_host.py:368-379 | a ping metrics record, successful iff some round-trip time was collected |
| `Normalizer.HttpRecordOf` | check_host.py:418-431 | an HTTP metrics record whose response time, divided by 1000, is the reported seconds |
| `Normalizer.TcpRecordOf` | check_host.py:466-476 | a TCP metrics record whose connect time, divided by 1000, is the reported seconds |
| `Normalizer.UdpRecordOf` | check_host.py:511-521 | a UDP metrics record whose response time, divided by 1000, is the reported seconds |
| `Normalizer.DnsRecordOf` | check_host.py:556-566 | a DNS metrics record, always successful, with no more addresses than records |
| `Normalizer.Entry` | check_host.py:364-389 | the record is an error record iff the shape test fails; otherwise it is a metrics record of the check type |
| `Normalizer.Collect` | check_host.py:359-391 | there are never more locations than entries in the API result |
| `Normalizer.CollectProvenance` | check_host.py:359-362 | every stored record is the record of a known node in the API result, filed under that node's label |
| `Normalizer.CollectSnoc` | check_host.py:360-362 | one more entry writes a known node's record under its label and leaves the rest; an unknown node changes nothing |
| `Normalizer.CollectOne` | check_host.py:360-362 | a single known node gives exactly one location, holding its record |
| `Normalizer.Normalize` | check_host.py:356-391 | the loop's result is the API's 'error' value when there is one (the other entries unread), else the fold of all entries in order (`Collect`) |
| `Normalizer.CollectKeys` | check_host.py:359-362 | the result's keys are exactly the labels of the known nodes in the API result; unknown ids contribute nothing |
| `Normalizer.CollectLastWins` | check_host.py:360-362 | under each label sits the record of the last known node with that label |
| `Normalizer.SameLabelCollapse` | check_host.py:360-362 | two known nodes sharing a label give one location, holding the second node's record |
| `Normalizer.MoscowNodesCollapse` | check_host.py:105-106 | with the shipped table, ru1 then ru2 give the single location "Russia (Moscow)" with ru2's record |
| `Normalizer.ErrorPassedOn` | check_host.py:356-357 | an API result `{'error': msg}` normalizes to the top-level error `msg` with no location records |
| `Normalizer.EntryShapeErrors` | check_host.py:364-389 | the record is exactly "No <Type> data" iff the payload is not a non-empty list, and exactly "Invalid <Type> response" iff its first element is not a list or too short; a valid shape gives a metrics record of the check type, for ping exactly the record computed from the attempts |
| `Normalizer.LossBounds` | check_host.py:377 | with `total > 0` attempts of which `ok` succeeded, the loss is `(total - ok) / total * 100`; it lies in [0, 100], is 0 iff every attempt succeeded and 100 iff none did |
| `Normalizer.PingSuccessAndLoss` | check_host.py:368-377 | ping success iff some attempt is "OK"; the loss is in [0, 100], 0 iff all attempts are "OK", 100 iff none is; the loss is `LossPercent` of the attempt and OK counts, never its `else 100` branch |
| `Normalizer.PingLatencies` | check_host.py:370-378 | with an "OK" attempt, min <= avg <= max, min and max are times of "OK" attempts, and every "OK" time lies between them; otherwise all three are 0; ip is the first attempt's third field or null |
| `Normalizer.TimedRecordFacts` | check_host.py:418-521 | HTTP/TCP/UDP: success iff the first field is 1; the time divided by 1000 is the reported seconds; the ip is field 4 (HTTP) or field 2 (TCP/UDP) when present, else null; HTTP status message and code are fields 2 and 3 |
| `Normalizer.AddressesAppend` | check_host.py:559 | addresses of concatenated record lists are the concatenated addresses: the order is kept |
| `Normalizer.AddressesFromRecords` | check_host.py:559 | every address is the second field of a record with at least two fields, and every such record contributes its second field |
| `Normalizer.DnsFacts` | check_host.py:556-566 | a valid DNS shape is always a success; the time is 0 when the first record's first field is falsy (null, 0, "", [], {}), else that field times 1000; at most one address per record |
| `Normalizer.PingExample` | check_host.py:368-379 | attempts OK 0.1 s, TIMEOUT, OK 0.3 s give success, avg 200, min 100, max 300, loss 100/3 and ip 1.2.3.4 |
| `Normalizer.HttpExample` | check_host.py:419-431 | `[1, 0.25, "OK", 200, "5.6.7.8"]` gives success, 250 ms, status 200 and ip 5.6.7.8 |
| `Normalizer.DnsExample` | check_host.py:557-565 | `[[0.05, "9.9.9.9"], [null, "9.9.9.10"]]` gives 50 ms and both addresses in order |
| `PingStats.OkCount` | check_host.py:368 | there are never more successful attempts than attempts |
| `PingStats.Rtts` | check_host.py:370 | there is one round-trip time per "OK" attempt |
| `PingStats.OkCountExtremes` | check_host.py:368-369 | the count of "OK" attempts is 0 iff no attempt is "OK", and equals the total iff every attempt is |
| `PingStats.RttsAppend` | check_host.py:370 | times of concatenated attempt lists are the concatenated times: attempt order is kept |
| `PingStats.RttsFromOk` | check_host.py:370 | every time is 1000 times the second field of an "OK" attempt, and every "OK" attempt contributes its time |
| `PingStats.MinIsLeast` | check_host.py:375 | the minimum is one of the times and no time is below it |
| `PingStats.MaxIsGreatest` | check_host.py:376 | the maximum is one of the times and no time is above it |
| `PingStats.MeanBetween` | check_host.py:374-376 | the average lies between the minimum and the maximum |
| `CheckHostApi.AllRespondedLookup` | check_host.py:149 | a complete result (`AllResponded`) looks up a non-null value under every key; for a dict with distinct keys that is also sufficient |
| `CheckHostApi.MissingIdIsFalsy` | check_host.py:180-181 | `MissingId` holds iff the id is not a truthy string (`not check_id`) |
| `CheckHostApi.FailedAttemptRetries` | check_host.py:180-191 | in the submission specification `SubmitLoop`, an attempt before the last that gets no id is one submission request, then a 2 s sleep only if it raised, then the next attempt |
| `CheckHostApi.GetCheckResults` | check_host.py:134-159 | the poll loop's reply and actions are those of the polling specification `PollLoop` |
| `CheckHostApi.CheckAndWait` | check_host.py:161-191 | the submit loop's reply and actions are those of the submission specification `SubmitLoop` |
| `CheckHostApi.PollTraceShape` | check_host.py:140-143 | polling makes one to three result requests, each right after a 10 s sleep |
| `CheckHostApi.PollReplyCases` | check_host.py:140-159 | the reply is a polled payload in which every node has reported; or the transport-error timeout after a poll that raised at elapsed >= 30 s; or the incomplete-results timeout after an incomplete poll at elapsed >= 30 s |
| `CheckHostApi.CompleteAtFirstPoll` | check_host.py:142-150 | a payload complete at the first poll is returned after one sleep and one request |
| `CheckHostApi.FirstCompletePoll` | check_host.py:140-150 | when every earlier poll was incomplete or raised and read under 30 s, the first complete poll is the reply, returned at once: the trace has exactly one sleep and one request per poll up to it |
| `CheckHostApi.NeverCompleteTimesOut` | check_host.py:148-159 | if no poll is ever complete, the reply is the incomplete-results timeout |
| `CheckHostApi.AlwaysRaisingTimesOut` | check_host.py:154-157 | if every poll raises, the reply is the transport-error timeout of the first poll whose elapsed reading reaches 30 s |
| `CheckHostApi.SubmitAttemptsBounded` | check_host.py:171-191 | between one and three submission requests are made |
| `CheckHostApi.SubmitReplyCases` | check_host.py:171-191 | the reply is the poll result for the first request id received (every earlier attempt raised or had no id), or an error decided by the last attempt: "No check ID received after retries" or "API request failed after retries: " plus that attempt's error |
| `CheckHostApi.NoHandleGivesUp` | check_host.py:171-191 | when no attempt yields an id, in any mix of errors and id-less responses, exactly three submissions are made; a 2 s sleep follows exactly the first two attempts that raised; the last attempt decides the error |
| `CheckHostApi.FirstIdWins` | check_host.py:171-191 | when every attempt before attempt k raised or had no id and attempt k has an id, the reply is the result of polling for that id, and exactly k + 1 submissions are made |
| `CheckHostApi.NeverAnIdGivesUp` | check_host.py:180-184 | a backend that never returns an id gets exactly three submissions with no sleep between them, then the no-id error |
| `CheckHostApi.AlwaysRaisingGivesUp` | check_host.py:188-191 | a transport that always raises gets three submissions with a 2 s sleep after each of the first two, then the last error |
| `CheckHostApi.PollTraceHasNoSubmits` | check_host.py:140-159 | polling never makes a submission request |
| `NetworkTester.WithScheme` | check_host.py:403-404 | the result names http or https and ends with the given URL |
| `NetworkTester.WithSchemeFacts` | check_host.py:403-404 | the defaulted URL starts with `http://` or `https://`; an URL that already does is unchanged; any other gets exactly `http://` in front; defaulting twice equals defaulting once |
| `NetworkTester.ClientReplyParsable` | check_host.py:406-408 | whatever the client returns is a complete polled payload or its own error dict, so it can be normalized |
| `NetworkTester.RunCheck` | check_host.py:393-443 | one global check: the trace is the job client's; the result is the normalization of the client's reply for the (scheme-defaulted, for HTTP) target |
| `NetworkTester.SubmissionFailureIsTopError` | check_host.py:354-357 | when every submission attempt raises, the check's result is the top-level error with the last attempt's message |

## Left out

- HTTP transport: `requests.Session`, headers, `raise_for_status` and the 30 s per-request timeout. Each request's outcome is an oracle input (`SubmitReply`, `PollReply`). A response body that is not a JSON object is not modelled.
- The clock and sleeping: `time.time` and `time.sleep` are replaced by elapsed-time readings and `Sleep` actions in the trace. The readings must satisfy `SleepClock`: the reading after poll i is at least 10·(i+1) s, because of the 10 s sleep before each poll. A wall clock that steps backwards is not modelled.
- Floating point: times and percentages are exact `real`s. IEEE rounding and the one-decimal display rounding are not modelled.
- JSON booleans: `Json` has no boolean case. Python's `True == 1` would also pass the success test.
- Inputs on which the Python code raises are excluded by `Normalizer.Parsable`. These are:
  - a ping attempt that is null, a number, an object, or an empty list or string;
  - an "OK" attempt without a second field, or whose time is not a number (a null or object time raises at `* 1000`; a string or list time raises in `sum`);
  - an HTTP/TCP/UDP time that is null or an object;
  - a DNS record that is null, a number, or an object with more than one key;
  - a first DNS record that is empty or an object;
  - a truthy object as the first DNS field.
- Some inputs are excluded by the same precondition although the Python code does not raise on them. The values it produces are not modelled:
  - a non-empty string ping attempt, counted as not "OK", and giving a one-character ip when it comes first;
  - a string or list HTTP/TCP/UDP time, repeated 1000 times;
  - a string DNS record, which contributes its second character as an address, and as the first record gives a repeated character as its time;
  - an object DNS record with at most one key after the first, which is skipped;
  - a truthy string or list as the first DNS field, repeated 1000 times.
- Repeated keys: a decoded JSON object has distinct keys, keeping a repeated key's first position and its last value. `Dict` admits repeats. `Lookup` answers with the last value, as decoding does. `Collect` visits every entry, so with a repeated node id the record written last wins, where Python would file the node's last value at its first position. `CheckHostApi.AllResponded` reads every entry, so with repeats it also checks shadowed values.
- Request ids are `Option<string>`. A non-string `request_id` and its formatting into the result URL are not modelled.
- The node list sent with each submission is the set of the table's keys. Its order and the `nodes` argument of `check_*` (always left at its default) are not modelled.
- The order of the normalized result dict is not modelled (it is a `map`). That order only affects display.
- `display_*_results`, `save_results`, `interactive_mode`, `main` and `_find_ping_binary`: output formatting, file writing, prompting and filesystem probing.
- `NODES_BY_CONTINENT`, the unused `count` parameter of `ping`, `MAX_THREADS`, and the unused imports: no logic uses them.
