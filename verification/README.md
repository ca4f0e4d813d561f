# MediaMTX metrics exporters and authentication backends, in Dafny

This project models four Python programs of a streaming-server monitoring stack and proves properties of the model.

- **The credential-fallback exporter** (`mediamtx-exporter.py`).
  - It fetches the MediaMTX metrics text, trying six fixed credentials in order until one request succeeds.
  - It parses the text into an insertion-ordered dictionary of `name value` pairs.
  - It serves the dictionary again as Prometheus exposition text, under its own `mediamtx_exporter_up` gauge.
- **The label-aware exporter** (`mediamtx-exporter/mediamtx-exporter.py`).
  - It makes one request without credentials.
  - It keeps labelled lines such as `name{k="v"} 1` whole, keyed by the full line, and serves them verbatim.
  - It keeps lines without both `{` and `}` by the same `name value` rule as the fallback exporter. A line with both braces that fails the labelled rule is dropped.
- **The external authentication backend** (`backend/external-authentication-backend.py`).
  - It answers the streaming server's authentication callback with 200, 401 or 403.
  - The answer comes from a fixed four-user table.
- **The reference backend** (`example-backend-auth.py`).
  - It runs the same checks as the external backend, but returns a two-flag result.
  - Its table has three users.

## Modules

- `Wrappers`: `Option`.
- `Text`: the Python `str` operations the programs use, on `string`:
  - `isspace`, `strip()`, `split()`, `splitlines()`, `find` and one-character `replace`;
  - the `line + "\n"` concatenation the renderers build.
- `Assoc`: a Python `dict` as a sequence of pairs. It has `get`, and assignment that keeps an existing key where it stands.
- `Upstream`: the request to the metrics endpoint, seen as a function from the credential sent to the outcome.
- `Exposition`: what both exporters share:
  - parsed values and the `name value` rule;
  - the exporter state and the line-by-line dictionary build over `splitlines()`;
  - name cleaning;
  - the fixed self-metric lines, and the choice between the `up 0` block and the `up 1` header followed by the entry lines.
- `FallbackExporter`, `LabelExporter`: the two exporters.
- `AuthReply`: `form.get(key, '')` and the 401/403/200 mapping shared by both backends.
- `ExternalAuth`, `ExampleAuth`: the two backends.

Things the model takes as parameters:

- **The HTTP request** is a parameter `fetch: Credential -> FetchResult`. It returns the response text, or the exception the request raised: an HTTP error with its status, a timeout, a connection error, another request error, or an unexpected error. A `Scrape` records the text returned and the credentials sent, in order.
- **`float(t)` and `f"{float(t)}"`** are a parameter `NumberSyntax(parses, show)`. A parsed `Value` is `Number(t)` when `parses(t)` holds and `Raw(t)` otherwise, and it keeps the text `t`.

Behaviour of the code that the model makes explicit:

- **No stale data.** `update_metrics` sets `metrics_data` to `{}` whenever the fetch returns "" (mediamtx-exporter.py:79-82, mediamtx-exporter/mediamtx-exporter.py:65-68). After a failed fetch the exporter serves the `up 0` block, and the new state never depends on the old one. `NoStaleData`, `FallbackExporter.AllFailuresServeDown` and `LabelExporter.FailureServesDown` state this.
- **Every kind of error moves on to the next credential.** Each `except` branch of the credential loop continues with the next credential (mediamtx-exporter.py:48-66). No kind of error ends the loop early (`FallbackExporter.FailureAdvances`).
- **No failure counter and no measured duration.** The scrape-duration gauge is the constant `0`, and it appears only in the `up 0` block.
- **The text is re-rendered, not passed through.** The fallback exporter re-renders each parsed pair as a HELP/TYPE/sample triple. Comments and malformed lines are dropped.

## Model

| member | source | states |
|---|---|---|
| Text.Strip | mediamtx-exporter.py:85 | `line.strip()` is a slice of the line, with only whitespace before and after it. It is empty exactly when the line is all whitespace. Otherwise it starts and ends with a character that is not whitespace. |
| Text.StripTrimmed | mediamtx-exporter.py:85 | Stripping a text that already starts and ends with non-whitespace returns it unchanged. |
| Text.StripNoBreak | mediamtx-exporter/mediamtx-exporter.py:71 | Stripping a line never introduces a line boundary. |
| Text.SplitWs | mediamtx-exporter.py:87 | Every token of `line.split()` is non-empty and contains no whitespace. |
| Text.SplitWsEmpty | mediamtx-exporter.py:87-88 | `split()` returns no token exactly when the text is all whitespace. |
| Text.Gaps | mediamtx-exporter.py:87 | Every text is its `split()` tokens interleaved with whitespace gaps. The gaps between tokens are non-empty, and the first and last gaps may be empty. |
| Text.SplitWsInterleave | mediamtx-exporter.py:87 | Tokens without whitespace, interleaved with whitespace gaps that are non-empty between tokens, split back into exactly those tokens. |
| Text.SplitWsExactly | mediamtx-exporter.py:87-89 | `split()` returns exactly `tokens` if and only if the text is those tokens separated by whitespace gaps of that shape. |
| Text.SplitTwo | mediamtx-exporter.py:87-89 | `a + " " + b` splits back into exactly `[a, b]` when neither part has whitespace. |
| Text.SplitWsFirst | mediamtx-exporter.py:87-89 | A text that starts with non-whitespace has a first token that starts with that same character. |
| Text.SplitWsHead | mediamtx-exporter/mediamtx-exporter.py:94-96 | Every character of the first token occurs in the split text. |
| Text.Find | mediamtx-exporter/mediamtx-exporter.py:76-77 | `find` returns -1 exactly when the character is absent. Otherwise it returns the index of the character, and the character does not occur before that index. |
| Text.FindFirstAt | mediamtx-exporter/mediamtx-exporter.py:76-77 | `find` answers `i` exactly when `i` is the first occurrence of the character. |
| Text.ReplaceChar | mediamtx-exporter.py:124 | One-character `replace` keeps the length and changes exactly the characters equal to the old one. |
| Text.SplitLines | mediamtx-exporter.py:84 | No line produced by `splitlines()` contains a line boundary. The result is empty exactly when the text is empty. |
| Text.JoinLinesAppend | mediamtx-exporter.py:117-127 | Appending lines one after another gives the concatenation of the two texts. |
| Text.SplitLinesCons | mediamtx-exporter.py:84 | After a one-line `l` and `"\n"`, `splitlines()` yields `l` and then the lines of the rest. |
| Text.SplitLinesBreak | mediamtx-exporter.py:84 | After a one-line `l` and any boundary (`\n`, `\r\n`, a lone `\r` not followed by `\n`, or another line-break character), `splitlines()` yields `l` and then the lines of the rest. |
| Text.SplitLinesLast | mediamtx-exporter.py:84 | A non-empty last line with no boundary after it is split off on its own. |
| Text.SplitJoinedLines | mediamtx-exporter.py:84 | Splitting the `"\n"`-terminated concatenation of one-line strings gives back exactly those strings, followed by the lines of what comes after. |
| Assoc.Lookup | mediamtx-exporter.py:91-93 | The value stored under a key: there is none exactly when the key is absent, it comes from a stored pair, and with distinct keys it is the key's only value. |
| Assoc.Put | mediamtx-exporter.py:91-93 | An assignment grows the dictionary by at most one pair and stores the pair assigned. |
| Assoc.PutKeys | mediamtx-exporter.py:91-93 | Assigning to an existing key leaves the key order unchanged. A new key is appended at the end. |
| Assoc.PutLookup | mediamtx-exporter.py:91-93 | After `m[k] = v`, `k` maps to `v` and every other key maps to what it did before. |
| Assoc.PutDistinct | mediamtx-exporter.py:91-93 | Assignment keeps the keys distinct. |
| Assoc.PutPairs | mediamtx-exporter.py:91-93 | After an assignment, every pair was either there before or is the new pair. |
| Exposition.Classify | mediamtx-exporter.py:90-93 | The stored value keeps the token's text. It is a number exactly when the token converts to a float. |
| Exposition.SimpleEntry | mediamtx-exporter.py:87-95 | A kept line yields a non-empty key and value text, neither containing whitespace. The key's characters occur in the line, and the key starts with the line's first character. |
| Exposition.SimpleEntryShape | mediamtx-exporter.py:87-93 | A stripped line yields `(k, v)` exactly when it is `k`, a non-empty run of whitespace, then the value text, both parts non-empty and whitespace-free, and `v` is that text classified. |
| Exposition.ParseLines | mediamtx-exporter.py:84-95 | The dictionary built line by line has at most one entry per line. |
| Exposition.ParseLinesEmpty | mediamtx-exporter.py:84-97 | The dictionary is non-empty exactly when some line is kept. |
| Exposition.ParseLinesKeys | mediamtx-exporter.py:84-95 | A key ends up in the dictionary exactly when some line yields it. |
| Exposition.ParseLinesLastWins | mediamtx-exporter.py:91-93 | A key repeated over several lines keeps the value of the last line that yields it. |
| Exposition.ParseLinesDistinct | mediamtx-exporter.py:84-95 | The dictionary built line by line has distinct keys. |
| Exposition.ParseLinesOrigin | mediamtx-exporter.py:84-95 | Every stored pair is what some line yielded. |
| Exposition.ParseLinesOrder | mediamtx-exporter.py:84-93 | Keys are stored in the order in which their first yielding line appears. A later line that assigns to a present key does not move it, and every stored key is yielded by some line. |
| Exposition.ParseText | mediamtx-exporter.py:84-97 | The dictionary parsed from a text has distinct keys. When the line rule keeps only single-line keys and values, so does the dictionary. |
| Exposition.CleanName | mediamtx-exporter.py:124 | The cleaned name has the same length and has every `-` and `.` turned into `_`, all other characters unchanged. It contains neither `-` nor `.`. |
| Exposition.CleanNameIdempotent | mediamtx-exporter.py:124 | Cleaning a cleaned name changes nothing. |
| Exposition.CleanNameNoBreak | mediamtx-exporter.py:124 | Cleaning never introduces a line boundary. |
| Exposition.FixedLinesOneLine | mediamtx-exporter.py:106-120 | Each line of the `up 0` block and of the `up 1` header is a single line. |
| Exposition.SampleBlockOneLine | mediamtx-exporter.py:125-127 | The HELP/TYPE/sample triple of a one-line entry is three single lines. |
| Exposition.Serve | mediamtx-exporter.py:104-128 | Split into lines, the served text is the `up 0` block for an empty dictionary. Otherwise, when every entry line is a single line, it is the four-line `up 1` header followed by exactly the entry lines. Whenever the lines are single lines, every served line ends with `"\n"`: the text is its lines joined with `"\n"` after each. The fourth line is always the `up` sample, `0` for an empty dictionary and `1` otherwise. |
| FallbackExporter.TryInOrder | mediamtx-exporter.py:42-70 | The credentials tried are a prefix of the list. At least one is tried when the list is non-empty. Every credential tried before the last one failed. |
| FallbackExporter.TryInOrderAllFail | mediamtx-exporter.py:42-70 | When every credential fails, all of them are tried in order and the text is "". |
| FallbackExporter.TryInOrderFirstOk | mediamtx-exporter.py:42-47 | The first credential that succeeds ends the loop. The text is its response, and exactly the credentials up to and including it were tried. |
| FallbackExporter.FailureAdvances | mediamtx-exporter.py:48-66 | No kind of error ends the loop: after failures up to credential `i`, credential `i + 1` is tried. |
| FallbackExporter.FetchRealMetrics | mediamtx-exporter.py:33-70 | The first request carries no credentials. When credential `i` is the first to succeed, exactly credentials `0..i` are tried and its text is returned. If all six fail, all six are tried and the text is "". |
| FallbackExporter.SecondCredentialAccepted | mediamtx-exporter.py:33-51 | A 401 without credentials followed by success with `admin`/`admin` gives that response after exactly two requests. |
| FallbackExporter.LineEntry | mediamtx-exporter.py:85-95 | Blank and `#` lines yield nothing. A kept line yields a whitespace-free key that does not start with `#`, and a non-empty whitespace-free value text. |
| FallbackExporter.LineEntryKeeps | mediamtx-exporter.py:84-93 | A line yields `(k, v)` exactly when, stripped, it is `k`, a non-empty run of whitespace, then the value text, with `k` not starting with `#`, both parts whitespace-free and `v` that text classified. |
| FallbackExporter.SampleLineParses | mediamtx-exporter.py:85-93 | A served sample line `name value` parses back to `name` with `value`'s classification. |
| FallbackExporter.UpdateMetrics | mediamtx-exporter.py:73-102 | The new state is valid. It is empty when every credential fails, and empty whenever the fetched text is "". Otherwise it is exactly the dictionary the fetched text parses to. |
| FallbackExporter.NoStaleData | mediamtx-exporter.py:73-97 | The new state does not depend on the previous one: two exporters updated from the same upstream hold the same dictionary. |
| FallbackExporter.Samples | mediamtx-exporter.py:122-127 | Three lines per entry; the lines at `3j..3j+3` are entry `j`'s HELP, TYPE and sample, in dictionary order. |
| FallbackExporter.SamplesOneLine | mediamtx-exporter.py:122-127 | Every rendered sample line of a one-line dictionary is a single line. |
| FallbackExporter.GetPrometheusMetrics | mediamtx-exporter.py:104-128 | Split into lines, the served text is the `up 0` block for an empty dictionary. For a one-line dictionary it is the `up 1` header followed by exactly the HELP/TYPE/sample triples. In both cases every line ends with `"\n"`. The fourth line is `mediamtx_exporter_up 0` or `mediamtx_exporter_up 1` accordingly. |
| FallbackExporter.ServesEveryEntryInOrder | mediamtx-exporter.py:117-127 | The served text is the four-line `up 1` header, then one HELP/TYPE/sample triple per entry, in dictionary order. Nothing else is served. |
| FallbackExporter.AllFailuresServeDown | mediamtx-exporter.py:79-82 | When every credential fails, the served text is the fixed `up 0` block, whatever was held before. |
| FallbackExporter.DataExactlyWhenLineKept | mediamtx-exporter.py:79-97 | After an update the dictionary is non-empty exactly when some line of the fetched text is kept. |
| FallbackExporter.UpExactlyWhenData | mediamtx-exporter.py:79-128 | After an update the `up` sample is `1` exactly when some line of the fetched text was kept. |
| LabelExporter.FetchRealMetrics | mediamtx-exporter/mediamtx-exporter.py:30-56 | One request, without credentials. A success returns its text, and every kind of error returns "". |
| LabelExporter.SameFetchAsFallback | mediamtx-exporter/mediamtx-exporter.py:34-38 | When the request without credentials succeeds, both exporters fetch the same text with the same single request. When it fails, this exporter returns "" while the fallback exporter goes on to a second credential. |
| LabelExporter.LabelledEntry | mediamtx-exporter/mediamtx-exporter.py:76-91 | A kept labelled line is stored under the whole line, with a non-empty value text. That value is a single line when the line is. |
| LabelExporter.LabelledEntryKept | mediamtx-exporter/mediamtx-exporter.py:76-87 | With the first `{` at `i` and the first `}` at `j`, the line is kept exactly when `0 < i < j` and something other than whitespace follows `j`. The value is the stripped text after `j`, classified. |
| LabelExporter.LabelledEntryNeedsBoth | mediamtx-exporter/mediamtx-exporter.py:74-78 | A line missing either brace is never kept by the labelled rule. |
| LabelExporter.LineEntry | mediamtx-exporter/mediamtx-exporter.py:70-102 | Blank and `#` lines yield nothing. A key contains both braces exactly when the stripped line does. Such a key is the whole stripped line. Keys and values are non-empty, and they are single lines when the input line is. |
| LabelExporter.UnlabelledAsFallback | mediamtx-exporter/mediamtx-exporter.py:92-102 | A line without both braces is read exactly as the fallback exporter reads it. |
| LabelExporter.UnlabelledLineKeeps | mediamtx-exporter/mediamtx-exporter.py:92-100 | A line without both braces yields `(k, v)` exactly when, stripped, it is `k`, a non-empty run of whitespace, then the value text, with `k` not starting with `#`, both parts whitespace-free and `v` that text classified. |
| LabelExporter.LabelledLineKeeps | mediamtx-exporter/mediamtx-exporter.py:70-91 | A line that holds both braces once stripped is kept exactly when it does not start with `#`, its first `{` is not at the start, its first `}` comes after it and something other than whitespace follows that `}`. It is then kept under the whole stripped line, with the stripped rest classified as the value. |
| LabelExporter.KeptWhateverTheValue | mediamtx-exporter/mediamtx-exporter.py:82-87 | Whether a line is kept, its key and its value text do not depend on whether the value converts to a float. |
| LabelExporter.TrimmedLabelledKept | mediamtx-exporter/mediamtx-exporter.py:74-85 | A trimmed labelled line whose braces are in order and followed by a value is kept whole with that value. |
| LabelExporter.LabelledLineKept | mediamtx-exporter/mediamtx-exporter.py:73-85 | `up{a="b"} 1` is kept under the whole line with value `1`. |
| LabelExporter.LeadingBraceDropped | mediamtx-exporter/mediamtx-exporter.py:78-91 | `{a} 1` is dropped, because its `{` is at position 0. It is not read by the `name value` rule either. |
| LabelExporter.MissingValueDropped | mediamtx-exporter/mediamtx-exporter.py:81-89 | `up{a}` is dropped because nothing follows the `}`. |
| LabelExporter.UpdateMetrics | mediamtx-exporter/mediamtx-exporter.py:59-109 | The new state is valid. It is empty when the request fails, and empty whenever the fetched text is "". Otherwise it is exactly the dictionary the fetched text parses to. |
| LabelExporter.NoStaleData | mediamtx-exporter/mediamtx-exporter.py:59-104 | The new state does not depend on the previous one: two exporters updated from the same upstream hold the same dictionary. |
| LabelExporter.BodyAppend | mediamtx-exporter/mediamtx-exporter.py:129-138 | The lines of two runs of entries are the lines of each run, one after the other. |
| LabelExporter.EntryInPlace | mediamtx-exporter/mediamtx-exporter.py:129-138 | Entry `j`'s lines sit between those of the entries before it and those after it. |
| LabelExporter.BodyOneLine | mediamtx-exporter/mediamtx-exporter.py:129-138 | Every line served for a one-line dictionary is a single line. |
| LabelExporter.GetPrometheusMetrics | mediamtx-exporter/mediamtx-exporter.py:111-139 | Split into lines, the served text is the `up 0` block for an empty dictionary. For a one-line dictionary it is the `up 1` header followed by exactly every entry's lines. In both cases every line ends with `"\n"`. The fourth line is `mediamtx_exporter_up 0` or `mediamtx_exporter_up 1` accordingly. |
| LabelExporter.ServesEntryInPlace | mediamtx-exporter/mediamtx-exporter.py:124-138 | The served text is the `up 1` header, then every entry's lines in dictionary order. A labelled entry is its key alone; any other entry is its cleaned HELP/TYPE/sample triple. |
| LabelExporter.FailureServesDown | mediamtx-exporter/mediamtx-exporter.py:65-68 | A failed request, of whatever kind, serves the fixed `up 0` block, whatever was held before. |
| LabelExporter.LabelledLineServed | mediamtx-exporter/mediamtx-exporter.py:74-85 | A kept labelled line of the fetched text comes back, stripped, as a line of the served text. |
| AuthReply.FormGet | backend/external-authentication-backend.py:116-120 | A missing form field reads as "". A present field reads as its value. |
| AuthReply.StatusReply | backend/external-authentication-backend.py:130-138 | 401 "Unauthorized" exactly when not authenticated. 403 "Forbidden" exactly when authenticated without permission. 200 "OK" exactly when both hold. |
| ExternalAuth.AuthenticateUser | backend/external-authentication-backend.py:60-97 | Authenticated exactly when the user exists, the password matches and the address is allowed; an empty address list allows any address. Permitted exactly when also authenticated for that action. The user record comes back exactly when authenticated. |
| ExternalAuth.PathIgnored | backend/external-authentication-backend.py:60-97 | The decision does not depend on the path. |
| ExternalAuth.NoAddressRestrictions | backend/external-authentication-backend.py:33-58 | Every user in the table may connect from any address. |
| ExternalAuth.MediamtxAuth | backend/external-authentication-backend.py:114-138 | 401 exactly when the form's user is unknown or the password is wrong. 200 exactly when the password is right and the action is among the user's permissions. Otherwise 403. |
| ExternalAuth.OnlyAdminForMetricsAndApi | backend/external-authentication-backend.py:33-58 | A `metrics` or `api` request gets 200 exactly for `admin` with `admin123`. |
| ExternalAuth.ViewerMayNotPublish | backend/external-authentication-backend.py:40-45 | A viewer with the right password who asks to publish gets 403 "Forbidden". |
| ExternalAuth.StreamerMayPublish | backend/external-authentication-backend.py:52-57 | The streamer with the right password may publish. |
| ExternalAuth.WrongPasswordUnauthorized | backend/external-authentication-backend.py:81-84 | A known user with a wrong password gets 401, whatever the action. |
| ExternalAuth.MissingUserUnauthorized | backend/external-authentication-backend.py:116 | A form without `user` gets 401. |
| ExternalAuth.MissingActionForbidden | backend/external-authentication-backend.py:119 | Right credentials without an `action` field get 403. |
| ExampleAuth.AuthenticateUser | example-backend-auth.py:48-85 | Authenticated exactly when the user exists, the password matches and the address is allowed. Permitted exactly when also authenticated for that action. |
| ExampleAuth.AgreesWithExternal | example-backend-auth.py:48-85 | Over the same table this backend takes the same two decisions as the external backend. |
| ExampleAuth.TableIsExternalWithoutStreamer | example-backend-auth.py:30-46 | This table is the external backend's table without the streamer account and without roles. |
| ExampleAuth.MediamtxAuth | example-backend-auth.py:94-114 | 401 exactly when the form's user is unknown or the password is wrong. 200 exactly when the password is right and the action is permitted. Otherwise 403. |
| ExampleAuth.StreamerUnknownHere | example-backend-auth.py:30-46 | The streamer's read request gets 401 here but 200 from the external backend. |
| ExampleAuth.SameAnswerForSharedAccounts | example-backend-auth.py:94-114 | For any form whose user is not the streamer, both backends give the same reply. |

## Left out

- The HTTP servers are not modelled: the metrics handler, `/health`, 404 replies and the server thread. They only carry the modelled functions' results.
- The `requests` session is not modelled: retries, the connection pool and the 2 s and 10 s timeouts. Their effect is folded into what `fetch` returns.
- The background update thread is not modelled. It updates every 10 s, or 30 s after an error, and the metrics handler also updates on every request; each update is modelled as one `UpdateMetrics` call on the state, and the interleaving of the two is not modelled.
- Logging and the `__main__` start-up code are not modelled. They have no effect on results.
- Python floats are not modelled: which strings `float()` accepts and how a float prints are the parameter `NumberSyntax`.
- The `except Exception` branch of `update_metrics` is not modelled. The parser is total on strings, so nothing in it raises.
- The 500 "Internal Server Error" branch of both `mediamtx_auth` views is not modelled (backend/external-authentication-backend.py:140-142, example-backend-auth.py:116-118). The form is a map that can always be read, so a request whose form cannot be read is not represented. With a readable form, the role lookup always finds the role.
- The `protocol`, `id` and `query` fields of the external backend are not modelled. `protocol` is only logged (backend/external-authentication-backend.py:121,125). `id` and `query` are read into `connection_id` and `query` and never used (backend/external-authentication-backend.py:122-123).
- The external backend's `/users` and `/test-auth` routes and both `/health` routes are not modelled. They are debugging endpoints, not part of the authentication decision.
- A form field sent more than once is not modelled. The form is a map with one value per field.
- `run.py` is not part of this model. It starts the services.
