# icp batch query tool — Dafny model

`icp/icp.py` reads a list of targets, one target per line. For each
target it queries the HTTP service at `http://127.0.0.1:16181/query` for
three resource types in turn: `web`, `app` and `mapp` (mini-programs). It pulls
one field out of each JSON answer and appends a formatted block per pair to
`web_results.txt`, `app_results.txt` or `mapp_results.txt`. A query is a
`curl` command line with a user agent drawn from a fixed pool. It is retried
at most twice with a random backoff. Randomised pauses separate resource
types and targets.

This project models that core and proves properties of it:

| file | module | models |
|---|---|---|
| `text.dfy` | `Text` | Python's `str.strip` (with its full `isspace` set), `'=' * n`, `str.join`, and `str(int)`; `Split` is a reference line reader used by `Retry.BlockLines` and `Text.SplitJoin` (the source never calls `split`) |
| `json.dfy` | `Json` | the value `json.loads` returns, `dict.get`, `type(v).__name__`, and `str()` of the `code` value |
| `extraction.dfy` | `Extraction` | `extract_field`: the ordered validation chain, the field map, the item loop with its counters, and every diagnostic message |
| `request.dfy` | `Request` | `get_random_ua`, `urllib.parse.quote(s, safe='')` as UTF-8 encoding plus percent-encoding of section 2.1 of RFC 3986 with the unreserved set of section 2.3, the URL, and the `curl` command line |
| `retry.dfy` | `Retry` | `run_curl_and_save`: the retry loop, its backoffs, block formatting and the append to the output file (a class with a mutable `contents`) |
| `driver.dfy` | `Driver` | the target-line filter and the paced double loop of `main`, recorded as a trace of `Process`, `ResourceDelay` and `TargetDelay` events |

The loops of the source are methods with loops, proved against
specification functions:

- `Extraction.CollectFields` is proved against `ScanItems`.
- `Retry.RunCurlAndSave` is proved against `FirstSuccess` and `Appended`. The body of its `try` is `Retry.TryOnce`.
- `Driver.RunBatch`, `Driver.RunTarget` and `Driver.RunTypes` are proved against `Schedule`, `TargetEvents`, `ResourceEvents` and `AllAppended`.

Lemmas then state what the source promises about those functions.

What the world supplies becomes a parameter:

- `parse: string -> Parsed` is the outcome of `json.loads`.
- Each attempt of `run_curl_and_save` gets an `Attempt` record: the index into the user-agent pool that `random.choice` falls on (the agent itself is `Request.RandomUa` of it, so always one of the pool), the curl outcome (`Exited`, `TimedOut`, `Faulted`), the clock reading written in the header, whether the file write raises, and the backoff drawn.
- Pauses are values of the subset types `ResourcePause` (20..30) and `TargetPause` (60..110).

Two points where a reader could expect otherwise; the model follows the code:

- After the last failed attempt, `run_curl_and_save` writes nothing to the output file (its only write, at icp/icp.py:159-160, belongs to an attempt whose curl exited with 0; the failure paths at icp/icp.py:139-147 and 167-182 only log and sleep). It only logs and returns -1 (icp/icp.py:184-186).
- The pause between targets is `randint(60, 110)` (icp/icp.py:192-193, 218), which is also the range the print at icp/icp.py:201 shows. The comment at icp/icp.py:193 says the total delay is 100~150 seconds.

## Model

| member | source | states |
|---|---|---|
| Text.Strip | icp/icp.py:97 | the result is the input with its leading and trailing whitespace removed: a contiguous slice starting after the leading whitespace, empty exactly when the input is all whitespace, otherwise starting and ending with non-whitespace |
| Text.StripIdempotent | icp/icp.py:38 | stripping twice gives the same as stripping once |
| Text.Repeat | icp/icp.py:153 | `'=' * n` has length n and only that character |
| Text.Join | icp/icp.py:156 | `"\n".join(extracted_values)`; `Text.SplitJoin` states that it reads back into its parts |
| Text.IntToString | icp/icp.py:79 | `str(n)` of the `code`: never empty, starting with `-` exactly for a negative n; `Text.IntToStringReadsBack` states that it reads back as n |
| Text.SplitJoin | icp/icp.py:156 | lines joined with a newline split back into the same lines when none contains a newline |
| Text.NatToStringValue | icp/icp.py:79 | proof step: the decimal digits of a natural number read back as that number |
| Text.NatToString | icp/icp.py:79 | the decimal text of a natural number is one or more digits, with no leading zero (it starts with `0` exactly for 0), and a single digit exactly below 10 |
| Text.IntToStringReadsBack | icp/icp.py:79 | `str(n)` of any integer is an optional `-` followed by digits without a leading zero (never `-0`), and reads back as n |
| Json.CodeText | icp/icp.py:79 | `str()` of the `code` value; `Json.CodeTextOfNumber` states what it gives for an integer and for an absent code |
| Json.CodeTextOfNumber | icp/icp.py:79 | an integer `code` is written as `str(int)` writes it and reads back as the same number; an absent `code` is written `None` |
| Json.TypeName | icp/icp.py:115 | `type(v).__name__`; `Json.NoAttributeNamesType` states that it tells an object and an array from every other value |
| Json.NoAttribute | icp/icp.py:115 | the AttributeError message; `Json.NoAttributeNamesType` states its shape |
| Json.NoAttributeNamesType | icp/icp.py:115 | the message starts with the quoted type name and ends with the quoted attribute; the type name is `dict` exactly for an object and `list` exactly for an array |
| Extraction.FieldFor | icp/icp.py:90-91 | `field_map[resource_type]`; `Extraction.HeaderFieldIsFieldFor` gives its three values |
| Extraction.HeaderField | icp/icp.py:151 | the field the header names; `Extraction.HeaderFieldIsFieldFor` states that it equals `FieldFor` for every type |
| Extraction.ListOf | icp/icp.py:84 | `json_data["params"].get("list", [])`; `Extraction.MissingListIsEmpty` gives its default and `Extraction.ListMustBeArray` the non-array case |
| Extraction.HeaderFieldIsFieldFor | icp/icp.py:90-91 | the header field chosen at line 151 equals `field_map[type]` for every type: `domain` for web, `serviceName` for app and mapp |
| Extraction.ExtractField | icp/icp.py:67-115 | the returned list is the rendering of `Classify`: the diagnostic of the first failing check, or the extracted values |
| Extraction.CollectFields | icp/icp.py:92-103 | the loop computes `ScanItems`: the kept values with both counters, or the exception message of the first item whose `.get`/`.strip` raises |
| Extraction.ScanExtends | icp/icp.py:96-102 | proof step: scanning one more item is one step of the loop from the scan of the items before it |
| Extraction.ReadItem | icp/icp.py:97 | `item.get(field, "").strip()` for one item; `Extraction.ReadItemStripped` states that a value read is already stripped |
| Extraction.ReadItemStripped | icp/icp.py:97 | a value read from an item is stripped: stripping it again changes nothing |
| Extraction.Message | icp/icp.py:67-115 | the diagnostic text of each failure; `Extraction.MessageHead` states its common shape |
| Extraction.MessageHead | icp/icp.py:67-115 | every diagnostic starts with the target in `【】` brackets, the type and a space, followed by a non-empty reason |
| Extraction.Rendered | icp/icp.py:67-115 | the list `extract_field` returns for an outcome; `Extraction.ExtractionNeverEmpty` states that it has exactly one line on failure and is never empty |
| Extraction.Classify | icp/icp.py:67-115 | a successful classification never carries an empty value list |
| Extraction.ScanCounts | icp/icp.py:92-103 | after the loop `valid_count == len(fields)` and `valid_count + invalid_count == len(list)` |
| Extraction.ScanIsKept | icp/icp.py:96-102 | the loop completes exactly when no item raises, and then `fields` equals the reference `Kept`: the stripped non-empty values in item order |
| Extraction.ScanAbortsAtFirstRaise | icp/icp.py:113-115 | an aborted loop carries the message raised by the first item of the list that raises |
| Extraction.AbortedPersists | icp/icp.py:96-97 | once an item raises, later items do not change the outcome |
| Extraction.KeptAppend | icp/icp.py:96-102 | the kept values of a concatenation are the concatenation of the kept values |
| Extraction.KeptValuesClean | icp/icp.py:97-99 | there are no more kept values than items, and each is non-empty and already stripped |
| Extraction.ExtractionNeverEmpty | icp/icp.py:69-115 | `extract_field` always returns a non-empty list, and exactly one diagnostic on every failure path |
| Extraction.ExtractionSucceeds | icp/icp.py:105-108 | the values are returned exactly when the body is not blank, parses to an object with `code` 200 and an object `params`, whose `list` is an array in which no item raises and at least one value is kept; the values are then `Kept` of that list |
| Extraction.BlankBodyIsNoData | icp/icp.py:69-71 | a blank body gives the "no data" diagnostic whatever the parser would say |
| Extraction.MalformedIsUnparsable | icp/icp.py:110-112 | a non-blank body that does not parse gives the JSON-error diagnostic |
| Extraction.BadCodeWins | icp/icp.py:77-79 | an object whose `code` is not 200 (or absent) gives the status diagnostic carrying that code, before any other check |
| Extraction.MissingParams | icp/icp.py:80-82 | code 200 without `params` gives the missing-params diagnostic |
| Extraction.ListMustBeArray | icp/icp.py:84-87 | code 200 with object `params` whose `list` is present and not an array gives the list-type diagnostic |
| Extraction.MissingListIsEmpty | icp/icp.py:84-107 | an absent `list` defaults to an empty array and so gives the "no valid field" diagnostic naming the mapped field |
| Extraction.ParamsNotObjectRaises | icp/icp.py:84-115 | code 200 with a `params` that is not an object makes `.get("list", [])` raise, and the diagnostic carries the AttributeError message naming its type |
| Extraction.NothingKeptIsNoValidField | icp/icp.py:96-107 | for an array in which no item raises, the result is the "no valid field" diagnostic naming the mapped field exactly when no value is kept |
| Extraction.FirstRaiseFails | icp/icp.py:96-115 | an item whose read raises, with none raising before it, makes the extraction fail with that item's exception message |
| Extraction.NonObjectRaises | icp/icp.py:113-115 | a top-level value that is not an object makes `.get` raise, and the message names its type |
| Request.RandomUa | icp/icp.py:19-21 | the user agent drawn is one of the fixed pool |
| Request.Utf8 | icp/icp.py:50 | each character encodes to one to four bytes |
| Request.Utf8RoundTrip | icp/icp.py:50 | decoding the UTF-8 encoding of any string gives the string back |
| Request.QuoteRoundTrip | icp/icp.py:50 | percent-decoding the quoted keyword gives the keyword back |
| Request.UnquoteQuoteByte | icp/icp.py:50 | proof step: percent-decoding an encoded byte followed by decodable text gives that byte followed by the decoded text |
| Request.QuoteBytesAlphabet | icp/icp.py:50 | the percent-encoding of any bytes has only unreserved characters and `%` |
| Request.QuoteAlphabet | icp/icp.py:50 | the quoted keyword has only unreserved characters and `%`, so it has no `"`, `&`, `?`, space, `$`, backquote, backslash or `#` |
| Request.QuoteUnreservedIsIdentity | icp/icp.py:50 | a keyword made of unreserved characters is left unchanged |
| Request.SearchValueOf | icp/icp.py:51 | proof step: the query value read up to the first `&` is the text placed there when it holds no `&` |
| Request.SearchValueRoundTrip | icp/icp.py:50-51 | the URL is `base/type?search=` + the quoted keyword + `&pageSize=1000`, and the `search` value read back decodes to the keyword |
| Request.Quote | icp/icp.py:50 | `quote(s, safe='')`; `Request.QuoteRoundTrip`, `Request.QuoteAlphabet` and `Request.QuoteUnreservedIsIdentity` state its properties |
| Request.Url | icp/icp.py:51 | the query URL; `Request.SearchValueRoundTrip` states its shape and that the keyword reads back from it |
| Request.CurlCommand | icp/icp.py:48-54 | the command line `build_curl_command` returns for a given user agent; `Request.CurlCommandWords` states its layout |
| Request.CurlCommandWords | icp/icp.py:54 | the command is `curl -A "`, the user agent, `" --connect-timeout 10 --max-time 60 "`, the URL and a closing `"`; for a base without `"`, backslash, `$` or backquote, the URL holds no `"`, so it is exactly the final double-quoted word whatever the keyword |
| Request.DefaultBaseShellSafe | icp/icp.py:48 | the default base URL holds no `"`, backslash, `$` or backquote |
| Request.AttemptCommandWords | icp/icp.py:48-54 | the command an attempt runs (default base, a pool agent) has that layout, and its URL, the final double-quoted word, holds no `"`, backslash, `$` or backquote whatever the keyword |
| Request.UrlShellSafe | icp/icp.py:51-54 | for a base URL without `"`, backslash, `$` or backquote, no keyword can put any of these into the double-quoted URL of the command line |
| Retry.RunCurlAndSave | icp/icp.py:118-186 | returns 0 when some attempt within the budget succeeds and -1 otherwise; the file becomes the old contents plus the block of the first successful attempt, or is unchanged; the number of attempts is `AttemptsMade`; there is one backoff less than there are attempts, the k-th being the one drawn after attempt k |
| Retry.TryOnce | icp/icp.py:124-162 | one attempt runs the command `build_curl_command` gives for the pool entry `Request.RandomUa` picks at the attempt's index; it writes exactly when curl exited with 0 and the write does not raise, and then the file gains the block of the values extracted from that output; otherwise the file is unchanged |
| Retry.FailureAdvances | icp/icp.py:139-179 | proof step: a failing attempt passes the search for the first success on to the next attempt |
| Retry.SleepsExtend | icp/icp.py:141-145 | proof step: sleeping the backoff drawn after attempt n, after those of the earlier attempts, keeps every pause paired with its attempt |
| Retry.AppendBlock | icp/icp.py:153-160 | the file gains exactly the block: rule, header, rule, the values one per line, and a final newline |
| Retry.FirstSuccessFrom | icp/icp.py:123-165 | the first success lies within the budget, that attempt succeeds and every earlier one fails; there is none exactly when every attempt fails |
| Retry.AttemptBudget | icp/icp.py:120-123 | between one and `max_retries + 1` = 3 attempts are made; a success stops at the first succeeding attempt; when every attempt fails nothing is appended |
| Retry.AppendedAt | icp/icp.py:165 | proof step: the appended text, seen from the attempt the loop stopped at: nothing after the budget, the block of that attempt when it succeeds |
| Retry.ExtractedNonEmpty | icp/icp.py:150-156 | a completed attempt always has at least one value line to write |
| Retry.Header | icp/icp.py:154 | the header line of a block; `Retry.HeaderHasNoNewline` states that it is one line |
| Retry.Block | icp/icp.py:153-157 | the text appended for one target and type; `Retry.BlockLines` states its line structure |
| Retry.BlockLines | icp/icp.py:153-157 | when no part holds a newline, the block splits into an empty line, the rule, the header, the rule, the values and an empty last line |
| Retry.HeaderHasNoNewline | icp/icp.py:154 | the header forms one line when target and timestamp hold no newline |
| Driver.Targets | icp/icp.py:38 | the target-line filter; `Driver.TargetsClean` states what it keeps |
| Driver.TargetsClean | icp/icp.py:38 | every target is stripped and non-empty, there are no more targets than lines, and there are none exactly when every line is blank |
| Driver.RunBatch | icp/icp.py:198-220 | the trace is `Schedule` of the targets filtered from the lines, and each of the three files gains exactly the blocks of its type, target by target |
| Driver.RunTarget | icp/icp.py:204-220 | one pass of the outer loop: its events are `TargetEvents` of target i, and a file holding the blocks of the first i targets then holds those of the first i + 1 |
| Driver.RunTypes | icp/icp.py:207-214 | the inner loop: the events are web, pause, app, pause, mapp, and each file gains exactly that target's block for its type |
| Driver.FileStep | icp/icp.py:207-208 | proof step: appending target i's block to the blocks of the first i targets gives the blocks of the first i + 1 |
| Driver.TargetEventsUnrolled | icp/icp.py:207-218 | per target: web, pause, app, pause, mapp, then a target pause unless it is the last target |
| Driver.TargetEventsCounts | icp/icp.py:207-220 | per target: three calls, two resource pauses, and one target pause unless it is the last |
| Driver.ScheduleCounts | icp/icp.py:204-220 | N targets give 3·N calls, 2·N resource pauses and N−1 target pauses |
| Driver.TargetProcesses | icp/icp.py:207-208 | one target's calls are its three types, in order |
| Driver.ScheduleOrder | icp/icp.py:204-208 | the calls are exactly targets × [web, app, mapp], in that order |
| Driver.DelaysInRange | icp/icp.py:212-218 | every resource pause lies in [20, 30] and every target pause in [60, 110] |
| Driver.PausesPrecedeWork | icp/icp.py:210-218 | no trailing pause: every pause is followed by a call, and the run ends with the last target's mapp query |
| Driver.PausesPrecedeWorkUpTo | icp/icp.py:204-220 | after m of N targets the trace ends with a target pause when m < N and with the mapp query of the last target when m = N; each pause before that is followed by a call |

## Left out

- Running `curl` and the shell script, and `chmod` (icp/icp.py:130-137, 222-265): these are external processes. Their outcome is the `Transport` field of each `Attempt`.
- `log_to_file` and every `print`: they only write to a sink and are not modelled. An exception raised by `log_to_file` inside `extract_field` is not modelled either, nor is its propagation to the retry loop.
- `time.sleep` and `random`: the values drawn are parameters restricted to their ranges. Nothing about the uniform distribution is stated.
- `datetime.now()`: the header timestamp is an opaque string per attempt.
- The parser behind `json.loads` is not part of this model. Its outcome is a parameter. JSON numbers are integers only, so a non-integer `code` such as 200.0 cannot be expressed.
- Json.CodeText: a list or dict `code` is written as `[...]` or `{...}` rather than Python's full `repr`.
- Retry.RunCurlAndSave: a write that raises is treated as leaving the file unchanged. A partial write before the exception is not modelled.
- Retry.RunCurlAndSave: an exception from `log_to_file` or `print` after the write (icp/icp.py:162-164) is not modelled. In the source it reaches the handler at icp/icp.py:175-181 and the loop retries, so the file can gain a second block, or -1 can be returned with the file already changed. The model treats a completed write as the end of the call.
- Extraction.ExtractField: `json.loads` can raise exceptions other than `JSONDecodeError` (a `RecursionError` on deep nesting, a `ValueError` on an over-long integer). In the source these give the "提取失败：…" diagnostic at icp/icp.py:113-115. The parser outcome `Parsed` has no such case, so the model never gives that diagnostic for them.
- Decoding of curl's output as text (`text=True`): the body is already a string. A decoding error would be one more `Faulted` outcome.
- The interactive prompt loop of `get_target_file_input` (icp/icp.py:24-45): it is I/O. Only the line filter at line 38 is modelled, as `Driver.Targets`. The re-prompt on an empty list is left out, so `Driver.RunBatch` simply does nothing for no targets.
- `main`'s final `except Exception` (icp/icp.py:267-269): an exception escaping `run_curl_and_save` (for instance one raised by logging inside its handlers) would end the run. This model has no such exception.
- The user-agent pool is not proved free of `"`, because the five fixed strings are not checked character by character. `Request.UrlShellSafe` covers only the URL part of the command line.
