# Text enhancer extension: credential store and enhancement pipeline in Dafny

This project models the logic core of a browser extension. The extension sends
selected text to the Deepseek chat-completion endpoint for a grammar fix, a
summary or a style/tone rewrite. Everything else in the extension is DOM and
browser glue. The model covers:

- **Credential format and store** (`utils/api.js`, repeated in
  `options/options.js`). The key check `^sk-[a-zA-Z0-9]{32,}$` is run by a
  character-by-character matcher (`KeyFormat.TestKeyPattern`). It is proved
  equal to a direct statement of the pattern. `chrome.storage.local` is a
  class `ChromeStorage.LocalStorage` with a `map<string, string>` field.
  `saveApiKey`, `getApiKey`, `removeApiKey` and `isApiKeyConfigured` act on
  its one `deepseek_api_key` slot.
- **Enhancement pipeline** (`background/background.js`). This covers prompt
  construction, the request, the classification of what `fetch` produced, the
  error-message translation and the `enhance` message listener. The network
  is a parameter: a `FetchOutcome` is what the single `fetch` call produced.
  It is either a rejection, or a status with an abstract body (unreadable,
  not JSON, JSON `null`, or JSON with the optional `choices[0].message.content`
  and `error.message` fields).
- **Retry helper** `fetchWithRetry`. It is a `while` loop over a sequence of
  per-call outcomes. Sleeping is replaced by recording the requested delays in
  milliseconds. The source never calls it; it is modelled on its own.
- **Error mapping** `handleApiError` and `getErrorMessage`, and the unused
  normaliser `formatResponse`. Both global regex replacements of the
  normaliser are modelled position by position, the way the regex engine
  scans. This includes the multiline `$` and the JavaScript `\s` class with
  U+2028/U+2029.
- **Options page**. This covers the key mask, the save-click flow (trim,
  validate, save, report, mask) and the focus handler. The page is a class
  `Options.OptionsPage` with the input value, its `data-masked` flag and the
  status line.

Storage failures are a `fault: bool` argument of each call; a `set` or
`remove` that throws writes nothing. The HTTP transport, `JSON.parse`,
timers and cross-context messaging are replaced by the parameters above.

In three places the code evidently means more than it does. The model
follows what the code does:

- For a failed status, background/background.js:112 tries to surface the
  provider's own message `errorJson.error?.message`. That `throw` sits inside
  the inner `try`, so its own `catch` (:113-114) replaces it. Every non-2xx
  answer with a readable body therefore becomes "API request failed with
  status N" (`Background.FailedStatusReply`).
- None of the errors `enhanceText` throws carries a `response` field. So the
  status table of `getErrorMessage` (401/429/500, background/background.js:146-155)
  is never reached on the main path. `Background.HandleEnhancement` passes
  `ErrorValue(None, message)`.
- `fetchWithRetry` (background/background.js:166-194) implements retry with
  backoff, but `enhanceText` issues a plain `fetch` (:88).

The `\n{3,}` step of `formatResponse` (utils/api.js:94) never changes its
result. The multiline `\s+$` of the next step also deletes every blank line,
so it gives the same result with or without the first step
(`ResponseFormat.CollapseRedundant`).

## Model

| member | source | states |
|---|---|---|
| `KeyFormat.AlnumTailMeaning` | utils/api.js:2 | the anchored tail `[a-zA-Z0-9]{n,}$` accepts exactly the strings of at least n ASCII letters/digits |
| `KeyFormat.TestKeyPattern` | utils/api.js:2 | the pattern test holds iff the key is `sk-` followed by only alphanumerics, at least 32 of them (the same pattern as options/options.js:2) |
| `KeyFormat.ValidateApiKey` | utils/api.js:10-13 | false for a missing or empty key; otherwise true iff the key matches the pattern; every valid key has length at least 35 and starts with `sk-` (same as options/options.js:11-14) |
| `JsString.Trim` | utils/api.js:93 | `trim()` yields a slice of its input with only white space around it, and with no white space at either end |
| `JsString.TrimStartShape` | utils/api.js:93 | the leading part `trim` removes is all white space, and what remains is a suffix that starts with a visible character |
| `JsString.TrimEndShape` | utils/api.js:93 | the trailing part `trim` removes is all white space, and what remains is a prefix that ends with a visible character |
| `JsString.TrimUnchanged` | utils/api.js:93 | trimming a string without edge white space changes nothing |
| `JsString.TrimPadded` | options/options.js:73 | trimming white space + s + white space, where s has no edge white space, gives exactly s |
| `JsString.Includes` | utils/api.js:79 | `includes` holds iff the needle occurs at some index of the string |
| `JsString.AbsentFirstChar` | background/background.js:158 | a string that lacks the needle's first character does not include the needle |
| `JsString.NatToString` | utils/api.js:75 | `${status}` is a non-empty numeral without leading zeros whose digits denote the status |
| `ChromeStorage.LocalStorage.Get` | utils/api.js:39 | a read throws exactly on a fault; otherwise it returns the entry under the key when there is one |
| `ChromeStorage.LocalStorage.Set` | utils/api.js:26 | a write either throws and changes nothing, or updates exactly the one key |
| `ChromeStorage.LocalStorage.Remove` | utils/api.js:53 | a removal either throws and changes nothing, or deletes exactly the one key |
| `ApiUtils.GetApiKey` | utils/api.js:37-45 | null exactly when the read throws, the slot is absent, or it holds ""; otherwise the stored key |
| `ApiUtils.IsApiKeyConfigured` | utils/api.js:102-105 | true iff the read succeeds and the stored key matches the key pattern |
| `ApiUtils.SaveApiKey` | utils/api.js:20-31 | an invalid key fails with "Invalid API key format" and storage is unchanged; a storage fault fails with "Failed to save API key" and storage is unchanged; otherwise only the key slot changes, and getApiKey then returns the key and isApiKeyConfigured holds |
| `ApiUtils.RemoveApiKey` | utils/api.js:51-58 | a fault fails with "Failed to remove API key" and storage is unchanged; otherwise the slot is deleted, and getApiKey is null and isApiKeyConfigured is false afterwards |
| `ApiUtils.HandleApiError` | utils/api.js:65-84 | 401, 429 and 500 give their fixed messages and any other status N gives "API error: N"; without a status, the network message iff the message includes "Failed to fetch", else the generic message |
| `ApiUtils.NumberedMessagesDistinct` | utils/api.js:75 | two different statuses outside the table give different "API error: N" messages |
| `ApiUtils.StatusMessagesDistinct` | utils/api.js:66-76 | the message for an error with a status differs from the message for any other status and for any error without a status |
| `ResponseFormat.NewlineRunEnd` | utils/api.js:94 | the greedy `\n` run from p ends at the first non-line-feed |
| `ResponseFormat.SpaceRunEnd` | utils/api.js:95 | the greedy `\s` run from p ends at the first non-white-space |
| `ResponseFormat.LastLineEnd` | utils/api.js:95 | backtracking picks the largest end of the run where the multiline `$` holds, or reports no match |
| `ResponseFormat.CollapseKeepsText` | utils/api.js:94 | collapsing runs of three or more line feeds keeps the visible characters |
| `ResponseFormat.StripKeepsText` | utils/api.js:95 | deleting white space before line ends keeps the visible characters |
| `ResponseFormat.StripShape` | utils/api.js:95 | after the second replacement no white space precedes a line terminator and the text does not end in white space |
| `ResponseFormat.CollapseUnchanged` | utils/api.js:94 | a string without white space before a line terminator has no run of three line feeds to collapse |
| `ResponseFormat.StripUnchanged` | utils/api.js:95 | a string without white space before a line terminator and none at its end gives `\s+$` nothing to match |
| `ResponseFormat.CollapseNewlinesFrom` | utils/api.js:94 | the first replacement never lengthens the text; run by run it is `CollapseRun`, and its other properties are `CollapseKeepsText`, `CollapseUnchanged` and `CollapseSquash` |
| `ResponseFormat.StripLineEndSpaceFrom` | utils/api.js:95 | the second replacement never lengthens the text; run by run it is `StripRun`, and its other properties are `StripKeepsText`, `StripShape`, `StripUnchanged` and `StripIsSquash` |
| `ResponseFormat.FormatResponse` | utils/api.js:91-96 | the result is never longer than the input; it equals the reference `SquashRuns` of the trimmed text (`FormatResponseSquashesRuns`), and its other properties are `FormatResponseKeepsText`, `FormatResponseClean`, `FormatResponseFixesClean` and `FormatResponseIdempotent` |
| `ResponseFormat.FormatResponseKeepsText` | utils/api.js:91-96 | formatResponse keeps the visible characters of the input, in order |
| `ResponseFormat.NoBlankLine` | utils/api.js:95 | with no white space before a line terminator there is no `\n\n` |
| `ResponseFormat.FormatResponseClean` | utils/api.js:91-96 | the result has no leading or trailing white space, no white space before a line terminator and no blank line |
| `ResponseFormat.FormatResponseFixesClean` | utils/api.js:91-96 | a string that is already clean is left unchanged |
| `ResponseFormat.FormatResponseIdempotent` | utils/api.js:91-96 | formatting twice gives the same result as formatting once |
| `ResponseFormat.FromLastLineTerminator` | utils/api.js:95 | what is left of a white-space run: never longer than the run, and non-empty when the run is |
| `ResponseFormat.FromLastLineTerminatorAt` | utils/api.js:95 | a run whose last line terminator is at t leaves the part from t to the end of the run, so the line break survives |
| `ResponseFormat.FromLastLineTerminatorNone` | utils/api.js:95 | a run without a line terminator is kept whole |
| `ResponseFormat.FromLastLineTerminatorCons` | utils/api.js:95 | putting a character in front of a run leaves the remainder unchanged when the remainder starts with a line terminator, and otherwise puts the character in front of it |
| `ResponseFormat.SquashRunsCons` | utils/api.js:94-95 | the reference works character by character from the right: a visible character is kept, and a white-space character is dropped exactly when the reference of the rest is empty or starts with a line terminator |
| `ResponseFormat.SquashRunsRun` | utils/api.js:94-95 | the reference replaces a maximal white-space run by its part from its last line terminator (the whole run when it has none), and deletes a run at the end of the text |
| `ResponseFormat.SquashRunsLineFeeds` | utils/api.js:94 | for the reference, a run of line feeds counts the same as a single line feed |
| `ResponseFormat.StripRun` | utils/api.js:95 | the second replacement deletes a white-space run at the end of the text, and keeps every other run from its last line terminator on (all of a run without one); the text after the run is scanned afresh |
| `ResponseFormat.StripIsSquash` | utils/api.js:95 | the second replacement is exactly the reference `SquashRuns` |
| `ResponseFormat.CollapseRun` | utils/api.js:94 | the first replacement turns a maximal run of three or more line feeds into exactly "\n\n", copies a shorter run unchanged, and goes on after the run |
| `ResponseFormat.CollapseSquash` | utils/api.js:94-95 | the reference gives the same result on the collapsed text as on the original |
| `ResponseFormat.FormatResponseSquashesRuns` | utils/api.js:91-96 | formatResponse equals the reference `SquashRuns` applied to the trimmed text, so line breaks between lines of text survive |
| `ResponseFormat.CollapseRedundant` | utils/api.js:94-95 | the `\n{3,}` step never changes the final result: the second replacement gives the same result with or without it |
| `ResponseFormat.SquashRunsLineBreakExample` | utils/api.js:95 | on "a \nb" the reference gives "a\nb" |
| `ResponseFormat.FormatResponseKeepsLineBreak` | utils/api.js:91-96 | "a \nb" is formatted as "a\nb": the space goes and the line break stays |
| `ResponseFormat.SquashRunsBlankLineExample` | utils/api.js:95 | on "a\n\nb" the reference gives "a\nb" |
| `ResponseFormat.FormatResponseDropsBlankLine` | utils/api.js:91-96 | "a\n\nb" is formatted as "a\nb": a blank line does not survive |
| `Background.PromptPrefix` | background/background.js:6-9 | a fixed prompt exists exactly for the kinds grammar and summary, and each ends with ": " (its use is `BuildPrompt`) |
| `Background.BuildPrompt` | background/background.js:80-85 | the text is always a suffix of the prompt; grammar and summary give exactly the fixed prefix + text (prefixes at background/background.js:8-9); an unknown kind gives "undefined" + text; custom contains the style and the tone and ends with "\n" + text |
| `Background.CustomPrompt` | background/background.js:82 | the custom template contains the style and the tone and ends with a line feed followed by the text |
| `Background.RequestFor` | background/background.js:88-105 | the request is a POST to the endpoint with content type `application/json`, `Authorization: Bearer <key>`, model `deepseek-chat`, the prompt as the one message with role `user`, and `max_tokens` 1000 |
| `Background.StatusFailure` | background/background.js:114 | the fixed head "API request failed with status " followed by the status's decimal numeral; its use is `FailedStatusReply` and `StatusFailurePassesThrough` |
| `Background.ClassifyResponse` | background/background.js:107-129 | a rejected fetch or unreadable body propagates its error; a non-2xx status with a readable body gives "API request failed with status N" whatever the body holds; a 2xx with non-JSON or `null` body propagates the parse/type error; missing or empty content gives "Invalid API response format"; otherwise the trimmed content, without edge white space |
| `Background.ReadStoredKey` | background/background.js:133-141 | the raw stored value when the read succeeds and the slot exists, otherwise absent |
| `Background.GetErrorMessage` | background/background.js:144-163 | the same fixed messages as handleApiError for 401/429/500; "API error (N): message" for other statuses; without a status, the network message, else the error's own message, else the fallback; never empty |
| `Background.HandleEnhancement` | background/background.js:55-76 | a missing or empty stored key rejects with "API key not found…" and sends no request; otherwise it sends the request for the built prompt with the stored key, and resolves to the classified result or rejects with its translated message |
| `Background.OnMessage` | background/background.js:42-52 | an `enhance` message gets exactly one reply, `{result}` on success or `{error}` on failure; any other message gets none |
| `Background.StatusFailurePassesThrough` | background/background.js:158-162 | the status-failure message contains no "Failed to fetch", so getErrorMessage returns it unchanged |
| `Background.InvalidFormatPassesThrough` | background/background.js:121-122 | "Invalid API response format" passes through getErrorMessage unchanged |
| `Background.FailedStatusReply` | background/background.js:107-116 | with a stored key, every non-2xx answer with a readable body is replied as exactly "API request failed with status N"; this holds for 401, 429 and 500 too, whatever JSON error message the provider sent |
| `Background.MissingContentReply` | background/background.js:121-122 | a 2xx answer with missing or empty content is replied as "Invalid API response format" |
| `Background.ContentReply` | background/background.js:125 | a 2xx answer with non-empty content is replied as its trimmed text, with no edge white space |
| `Background.MissingKeyReply` | background/background.js:56-59 | without a usable stored key the reply is the missing-key error and no request is sent, whatever the network would answer |
| `BackgroundRetry.LastThrownNone` | background/background.js:167-182 | `lastError` (the function `LastThrown`) is absent iff no call threw |
| `BackgroundRetry.LastThrownLatest` | background/background.js:182 | when `lastError` is present, it is the error of a call that threw, and no later call threw |
| `BackgroundRetry.RateLimitDelay` | background/background.js:175-176 | the wait after a 429 is whole seconds; n·1000 ms for a header of n seconds; 5000 ms for an absent or empty header; zero exactly for a header that is not a number or is 0; its use is `RateLimitedWaits` |
| `BackgroundRetry.BackoffDelay` | background/background.js:187 | the wait after a thrown call is a whole number of seconds, at least 1 s; `BackoffSchedule` states that the first is 1 s and each later one doubles the one before |
| `BackgroundRetry.Waits` | background/background.js:173-188 | at most one wait per call; `FetchWithRetry` records exactly these, and `ThrownWaits` and `RateLimitedWaits` compute them |
| `BackgroundRetry.BackoffSchedule` | background/background.js:184-188 | the schedule of backoffs after attempts 0, 1, …: the first wait is 1000 ms and each later one is twice the one before |
| `BackgroundRetry.FetchWithRetry` | background/background.js:166-194 | at most maxRetries calls; the result is the first response that is not a 429, all earlier calls being retried ones; otherwise, after exactly maxRetries calls, it throws the last recorded error; the recorded delays are the waits of the calls made |
| `BackgroundRetry.ThrownWaits` | background/background.js:181-190 | when every call throws, the waits are 1 s, 2 s, 4 s, … with no wait after the last permitted call |
| `BackgroundRetry.RateLimitedWaits` | background/background.js:173-178 | when every call gets 429, each call waits its Retry-After time (default 5 s), the last included, and no error is recorded |
| `Options.Repeat` | options/options.js:46 | `c.repeat(n)` is n copies of c |
| `Options.SliceLast` | options/options.js:46 | `s.slice(-n)` is a suffix of s of length min(n, length), or all of s for n = 0 |
| `Options.MaskedDisplay` | options/options.js:46 | 16 bullets followed by the key's last min(4, length) characters; the length is 16 + min(4, length) |
| `Options.SaveApiKey` | options/options.js:17-28 | an invalid key fails with the "Invalid API key format. Key should start with…" message and storage is unchanged; a fault fails with "Failed to save API key"; otherwise only the key slot is written, and getApiKey then returns the key |
| `Options.PaddedKeyAccepted` | options/options.js:73-76 | a valid key typed with surrounding white space trims back to itself and passes validation |
| `Options.OptionsPage.ShowStatus` | options/options.js:51-61 | the status line shows the message with its error flag; the key input is untouched |
| `Options.OptionsPage.ShowMasked` | options/options.js:45-46 | the input shows the masked key and is flagged masked; the status line is untouched |
| `Options.OptionsPage.LoadSavedApiKey` | options/options.js:42-49 | a stored key is shown masked and flagged; otherwise the input is untouched |
| `Options.OptionsPage.Focus` | options/options.js:64-69 | a masked input is emptied and unmasked; an unmasked input is unchanged |
| `Options.OptionsPage.SaveClick` | options/options.js:72-91 | the trimmed input is validated; an invalid key or a storage fault shows an error and changes neither storage nor the input; otherwise exactly the trimmed key is stored, the success message shows and the input shows the masked key |

## Left out

- `sidebar/sidebar.js`, `content/content.js` and `utils/icons.js` are not part of this model: they are DOM, selection and canvas code.
- The `onInstalled` and context-menu listeners (background/background.js:13-39) only call browser APIs (menu creation, opening the side panel, forwarding the selection). They are not modelled.
- The asynchronous cross-context messaging itself is not modelled: `OnMessage` returns the reply the listener would send.
- `console.*` logging, the status line's CSS class and display style, and its 3-second auto-hide (options/options.js:53-60), are not modelled.
- `temperature: 0.7` is a floating-point constant that is only passed through. It is not a field of `HttpRequest`.
- Options.OptionsPage.SaveClick: the input is masked at once, not 500 ms later (options/options.js:84), because timers are not modelled.
- Background.PromptPrefix: a kind that names an inherited property of a plain object (such as `constructor`) is treated as an unknown kind, because prototype lookup is not modelled.
- Background.ClassifyResponse: a truthy non-string `content` value (a non-zero number, an object, `true`) is not modelled. In the source it throws a TypeError at `.trim()`. A falsy one (`0`, `false`, `null`) is modelled as missing content: it gives "Invalid API response format" (background/background.js:121-122).
- BackgroundRetry.RateLimitDelay: a Retry-After header is a natural number of seconds, absent or empty, or not a number. The HTTP-date form is not a number: `retryAfter * 1000` is NaN and `setTimeout` waits 0 ms, which is the value recorded. Fractional and negative seconds are not modelled, because number coercion is not modelled. A delay above 2^31 - 1 ms, which browsers fire at once, is recorded as requested, not as 0.
- BackgroundRetry.FetchWithRetry: `maxRetries` is always an argument. A caller that omits it gets the default 3, which is the constant `DEFAULT_MAX_RETRIES`.
- BackgroundRetry.FetchWithRetry: the network's answers are a sequence given in advance, so it requires at least maxRetries of them. The `url` and `options` arguments are dropped.
- Stored values are strings only. A non-string value in the key slot is not modelled.
- KeyFormat.ValidateApiKey: non-string arguments, which a JavaScript regex test would coerce to strings, are not modelled.
- Options.MaskedDisplay: Dafny strings are sequences of code points, while JavaScript strings are UTF-16 code units. For a key with characters outside the Basic Multilingual Plane, `slice(-4)` and the length differ, and a lone surrogate cannot be represented at all. A key saved through `saveApiKey` is ASCII, so this cannot arise for a stored key.
