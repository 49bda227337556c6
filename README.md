# youtube_no_si, modelled in Dafny

youtube_no_si is a chat bot. It reads each incoming message and finds the links in it: plain-text URL spans and text links. For every YouTube link that carries the `si` tracking parameter, it builds a copy with `si` removed. It replies to the message with a header ("The link without tracking:" or "The links without tracking:"), followed by the cleaned links, one per line. The reply is sent through a loop that retries a bounded number of times. Separately, a filter decides whether the bot reacts to a message: it does when the message replies to one of the bot's own messages.

The model has these modules:

- `Wrappers`: `Option` and `Result`.
- `UrlModel`: the part of the `url` crate the bot relies on.
  - A parsed URL as a record.
  - `query_pairs` as the form-urlencoded split: split on `&`, skip empty segments, cut each segment at its first `=`.
  - The `key=value&...` text the bot writes back.
  - The URL's serialisation.
  - The round trip between splitting and writing, for pairs that can be written back.
- `RemoveSi`: the stripper, from `src/remove_si.rs`.
  - The two guards (a YouTube host; the raw query starts with `si=` or contains `&si=`).
  - `remove_si_from_url` as a method with its `for` loop, proved against the function `Stripped`.
  - It is exact: on a query written from encodable pairs (no `&` in key or value, no `=` in key), the raw test holds exactly when some pair has key `si`.
  - It is idempotent: stripping a result again gives `None`.
  - It removes at least one pair, and only the query changes.
  - `src/bot/remove_si.rs:124-181` holds an identical copy of the stripper; both copies share this module.
- `RemoveSiExamples`: the unit tests of `src/remove_si.rs` (the same as those in `src/bot/remove_si.rs:183-250`), as lemmas.
- `Telegram`: the message, entity and user shapes the handlers read.
- `Extract`: `try_parse_url` and `message_url_iterator`.
  - The URL parser belongs to the `url` crate, so it is a function parameter returning `Ok(url)` or `Err(kind)`.
- `Send`: `send_message_retrying` as written, proved against a recursive specification.
  - Lemmas cover the bound of 20 attempts, the immediate stop on a non-retryable error, the sleeps, and the error reported after a late success (see Findings).
  - There is also a corrected loop, with its lemmas.
- `Handler`: the `remove_si` handler.
  - It filters the extracted URLs through the stripper, and reports a missing chat id as an error.
  - It sends nothing when no URL survives.
  - The header is plural as soon as a second link survives. It is followed by one line per link, in extraction order.
  - The reply is proved to read back line by line as the header and the links.
- `ThankReact`: `thank_react_filter`.

`src/bot.rs` holds an older copy of the parser fallback, extractor, retry loop and handler: `src/bot.rs:50-60`, `62-86`, `88-118` and `121-148`. It behaves the same as `src/bot/remove_si.rs`, except that it calls `remove_si::url_without_si`. It shares the modules above.

The retry loop's intended behaviour and its code disagree on one point. The intent is that the first successful attempt returns success. The code returns the previous error when a success follows a retryable failure. `Send.SendMessageRetrying` follows the code, and so does the reply handler, which sends through it: after a late success it reports the earlier error. A corrected loop stands beside it (see Findings).

## Model

| member | source | states |
|---|---|---|
| UrlModel.ParsePair | src/remove_si.rs:21-23 | A query segment is cut at its first `=`: the key holds no `=`, and key, `=` and value make up the segment. Without `=` the whole segment is the key and the value is empty. |
| UrlModel.QueryPairs | src/remove_si.rs:21-22 | `query_pairs` as the form-urlencoded split: never more pairs than characters, and a non-empty query without `&` is the single pair its first `=` cuts it into. |
| UrlModel.QueryPairsEncodable | src/remove_si.rs:21-24 | Every pair `query_pairs` yields has no `&` in its key or value and no `=` in its key, so it can be written back. |
| UrlModel.QueryPairsOfJoin | src/remove_si.rs:32-41 | Round trip: splitting the `key=value&...` text written from encodable pairs (no `&` in key or value, no `=` in key) gives back the same pairs, in order. |
| UrlModel.JoinPairsSnoc | src/remove_si.rs:33-39 | Writing one more pair adds `&` only when the text is not empty, then `key=value`. |
| UrlModel.AsStr | src/bot/remove_si.rs:40 | `Url::as_str` writes the scheme and `:`, then `//` and the host when there is one, the path, `?` and the query when there is one, and `#` and the fragment when there is one. The text starts with the scheme and `:`, and it holds no newline when no part does. The crate's normalisation is left out (see "## Left out"). |
| RemoveSi.KeepNonSi | src/remove_si.rs:21-24 | No kept pair has key `si`, and every pair whose key is not `si` is kept; the result is never longer; pairs that could be written back still can. |
| RemoveSi.KeepNonSiFromInput | src/remove_si.rs:21-24 | Every kept pair is a pair of the input. With `KeepNonSi`'s own contract, the filter keeps exactly the non-`si` pairs. |
| RemoveSi.AllSiGivesNoQuery | src/remove_si.rs:26-30 | When every pair of the query has key `si`, the stripped URL has no query at all. |
| RemoveSi.KeepNonSiAppend | src/remove_si.rs:21-24 | The filter distributes over concatenation, so kept pairs stay in their original order. |
| RemoveSi.Stripped | src/remove_si.rs:16-44 | Only the query changes: scheme, host, path and fragment are the input's. The query is cleared exactly when no non-`si` pair is left. |
| RemoveSi.StrippedPairs | src/remove_si.rs:21-41 | Read back as pairs, the new query is exactly the non-`si` pairs of the old one, in order; so every `si` pair is gone. |
| RemoveSi.WriteQuery | src/remove_si.rs:32-39 | The loop that pushes `&` before every pair but the first, then `key=value`, writes exactly the joined text of the pairs. |
| RemoveSi.RemoveSiFromUrl | src/remove_si.rs:16-44 | `remove_si_from_url` returns `Stripped(url)`: no query when nothing is kept, otherwise the kept pairs written back. |
| RemoveSi.UrlBelongsToYoutube | src/remove_si.rs:56-63 | True exactly when the host is the domain `youtube.com`, `www.youtube.com` or `youtu.be`. The match is exact, and an IP host never counts. |
| RemoveSi.UrlHasSi | src/remove_si.rs:46-54 | True exactly when there is a query and, with `&` put in front of it, it contains `&si=`: some `&`-separated segment of the raw query begins with `si=`. No query means false. |
| RemoveSi.WithoutSi | src/remove_si.rs:8-14 | A URL exactly when both guards hold. It differs from the input only in its query, which reads back as the non-`si` pairs of the input's query, in order. |
| RemoveSi.UrlWithoutSi | src/remove_si.rs:8-14 | `url_without_si` returns a URL exactly when the host is one of the three YouTube domains and the raw query starts with `si=` or contains `&si=`. That URL is the stripped one. |
| RemoveSi.JoinNotStartingWithSi | src/remove_si.rs:46-54 | A query written from encodable pairs (no `&` in key or value, no `=` in key), none of which has key `si`, does not start with `si=`. |
| RemoveSi.JoinNotContainingAmpSi | src/remove_si.rs:46-54 | A query written from encodable pairs (no `&` in key or value, no `=` in key), none of which has key `si`, does not contain `&si=`. |
| RemoveSi.SiPairDetected | src/remove_si.rs:53 | A pair with key `si` shows up as `si=` at the start (first pair) or as `&si=` (any later pair). |
| RemoveSi.SiDetectedIffSiPair | src/remove_si.rs:46-54 | On a query written from encodable pairs (no `&` in key or value, no `=` in key), the raw-text test of `url_has_si` holds if and only if some pair has key `si`. |
| RemoveSi.Idempotent | src/remove_si.rs:8-44 | Stripping the result of a successful strip gives `None`. |
| RemoveSi.SiQueryDropsAPair | src/remove_si.rs:21-24 | Whatever the query text, when it passes the raw `si` test the filter drops at least one pair. |
| RemoveSi.StrippingRemovesAPair | src/remove_si.rs:8-44 | A URL the stripper returns has strictly fewer query pairs than its input, so it always differs from the input. |
| RemoveSiExamples.NonYoutubeUrlsGiveNone | src/remove_si.rs:70-83 | `google.com`, `example.org?si=23` and `you.tube` give `None`. |
| RemoveSiExamples.NoSiPairGivesNone | src/remove_si.rs:46-54 | Any URL whose query is written from encodable pairs (no `&` in key or value, no `=` in key) without an `si` key gives `None`, whatever its host. |
| RemoveSiExamples.UrlsWithoutSiGiveNone | src/remove_si.rs:86-100 | `www.youtube.com/watch?v=nFuAJl46w_w` and `youtu.be/0FwBHrVuMJc` (no query) give `None`. |
| RemoveSiExamples.SiInsideValueGivesNone | src/remove_si.rs:89 | `si` inside a value (`v=0FwBHrVsiMJc&t=229s`) gives `None`. |
| RemoveSiExamples.PsiGivesNone | src/remove_si.rs:91 | The key `psi` gives `None`. |
| RemoveSiExamples.SipGivesNone | src/remove_si.rs:92 | The key `sip` after `v` gives `None`. |
| RemoveSiExamples.WithoutSiOfQuery | src/remove_si.rs:8-44 | On a YouTube domain whose query is written from encodable pairs (no `&` in key or value, no `=` in key) and holds an `si` pair, the result keeps the non-`si` pairs in order, with no query when there are none. |
| RemoveSiExamples.RemovingLoneSi | src/remove_si.rs:104-109 | A lone `si` is removed together with the query. |
| RemoveSiExamples.RemovingTrailingSi | src/remove_si.rs:111-116 | A trailing `si` is removed and `v` is kept. |
| RemoveSiExamples.RemovingSiFromTheMiddle | src/remove_si.rs:121-131 | Removing a leading `si` keeps the `t=173` after it. |
| RemoveSiExamples.RemovingEverySi | src/remove_si.rs:21-24 | Every `si` pair is removed, not only the first. |
| Extract.TryParseUrl | src/bot/remove_si.rs:54-64 | A successful direct parse is returned. Only `RelativeUrlWithoutBase` leads to a single second parse with `https://` in front. Every other error gives `None`. |
| Extract.Slice | src/bot/remove_si.rs:74-75 | The entity's slice exists exactly when `offset + length` is within the text, and then it is the `length` characters at `offset`. |
| Extract.EntityUrl | src/bot/remove_si.rs:73-84 | A text link gives its URL verbatim; another kind gives nothing; a URL span gives nothing when out of range, otherwise the parse of its slice. |
| Extract.UrlsOfEntities | src/bot/remove_si.rs:73-84 | At most one URL per entity, every URL is the one some entity gives, and every URL an entity gives is in the result. |
| Extract.UrlsOfEntitiesAppend | src/bot/remove_si.rs:73-84 | Extraction distributes over a split of the entities, so URLs come out in entity order. |
| Extract.KeptEntity | src/bot/remove_si.rs:73-89 | An entity that gives a URL contributes it exactly once, after the URLs of the entities before it and before those of the entities after it. |
| Extract.SkippedEntity | src/bot/remove_si.rs:73-81 | An entity that gives nothing (bad slice, failed parse, other kind) is skipped; the entities before and after it still count. |
| Extract.TextLinksVerbatim | src/bot/remove_si.rs:82 | Entities that are all text links give exactly their URLs, in order. |
| Extract.MessageUrls | src/bot/remove_si.rs:66-90 | A message without text or without entities yields no URL; otherwise at most one per entity. |
| Send.SleepOf | src/bot/remove_si.rs:108-114 | An attempt sleeps once for its delay on `RetryAfter` and not at all otherwise. |
| Send.Finish | src/bot/remove_si.rs:121 | The loop reports `Ok` exactly when no error was recorded, and otherwise the recorded error. |
| Send.SendMessageRetrying | src/bot/remove_si.rs:92-122 | The loop as written computes the result, attempt count and sleeps of the recursive specification `Retrying`. |
| Send.RetryFromAttempts | src/bot/remove_si.rs:99-103 | From any attempt on, the loop makes at least one more attempt and stops by attempt 20. |
| Send.AttemptsBounded | src/bot/remove_si.rs:99-103 | The loop makes between 1 and 20 attempts. |
| Send.RetryFromSleeps | src/bot/remove_si.rs:108-114 | From any attempt on, the sleeps added are the `RetryAfter` delays of the attempts made, in order. |
| Send.SleepsAreDelays | src/bot/remove_si.rs:108-114 | The sleeps are exactly the `RetryAfter` delays of the attempts made, in order; network and I/O errors add none. |
| Send.FailedOnceNeverOk | src/bot/remove_si.rs:118-121 | Once an error is recorded, the loop as written can no longer report `Ok`. |
| Send.OkIffFirstAttemptSucceeds | src/bot/remove_si.rs:103-121 | As written, the loop reports `Ok` if and only if the first attempt succeeds. |
| Send.SkipRetryable | src/bot/remove_si.rs:103-119 | A run of retryable failures carries the loop to the next attempt with the latest error recorded and their delays slept. |
| Send.AfterRetryableFailures | src/bot/remove_si.rs:101-119 | After `k` retryable failures from the start, the loop is at attempt `k`, with the `k`-th error recorded and the delays of those attempts slept. |
| Send.FirstAttemptSent | src/bot/remove_si.rs:101-107 | A first attempt that succeeds gives `Ok` after one attempt and no sleep. |
| Send.StopsOnOther | src/bot/remove_si.rs:115 | A non-retryable error after retryable ones ends the loop at once with that error, after exactly that attempt. |
| Send.AllAttemptsFailGiveLastError | src/bot/remove_si.rs:103-121 | Twenty retryable failures give the error of the twentieth attempt after twenty attempts. |
| Send.LateSuccessReturnsPreviousError | src/bot/remove_si.rs:107-121 | As written, a success after retryable failures stops the loop but returns the error of the attempt before it. |
| Send.NetworkErrorThenSuccess | src/bot/remove_si.rs:107-121 | A network error and then a success: two attempts, and the network error is returned. |
| Send.SendMessageRetryingCorrected | src/bot/remove_si.rs:92-122 | The loop with `last_err` cleared on success computes the corrected specification `CorrectedRetrying`. |
| Send.CorrectedFromAgrees | src/bot/remove_si.rs:92-122 | From any attempt on, the corrected loop makes the same attempts and sleeps as the loop as written. Only the result differs, and only when the last attempt succeeded. |
| Send.CorrectedAgrees | src/bot/remove_si.rs:92-122 | The corrected loop makes the same attempts and sleeps as the loop as written, and reports `Ok` instead when its last attempt succeeded. |
| Send.LastAttemptDecides | src/bot/remove_si.rs:115-121 | As written, a run whose last attempt did not succeed reports an error. |
| Send.CorrectedOkIffSent | src/bot/remove_si.rs:107 | The corrected loop reports `Ok` if and only if its last attempt succeeded. |
| Send.CorrectedLateSuccessIsOk | src/bot/remove_si.rs:107 | In the corrected loop, a success after retryable failures gives `Ok`, after that attempt, with the earlier delays slept. |
| Handler.CleanUrls | src/bot/remove_si.rs:24 | At most one link per extracted URL, and every link is the stripped copy of some extracted URL. |
| Handler.CleanUrlsAppend | src/bot/remove_si.rs:24 | Stripping distributes over a split of the URL list, so links keep extraction order. |
| Handler.CleanUrlsCarryNoSi | src/bot/remove_si.rs:24 | Every surviving link is on a YouTube domain and no longer passes the `si` test. |
| Handler.CleanUrlsKeepAccepted | src/bot/remove_si.rs:24 | Every extracted URL the stripper accepts has its stripped copy among the links. |
| Handler.KeptUrl | src/bot/remove_si.rs:24 | A URL the stripper accepts, placed between any two lists of URLs, gives its stripped copy exactly once, between the links of the URLs before it and those of the URLs after it. |
| Handler.DroppedUrl | src/bot/remove_si.rs:24 | A URL the stripper rejects leaves no trace among the links; the others keep their order. |
| Handler.HeaderLine | src/bot/remove_si.rs:33-37 | The header is one of the two fixed lines, and it is the plural one exactly when at least two links survive. |
| Handler.ComposeReply | src/bot/remove_si.rs:26-42 | There is a reply exactly when at least one link survives. |
| Handler.UrlLinesSnoc | src/bot/remove_si.rs:39-42 | One more link adds its serialisation and a newline at the end of the reply. |
| Handler.PushUrlLines | src/bot/remove_si.rs:39-42 | The loop appends each link's serialisation and a newline, in order, to what was there. |
| Handler.WriteResponse | src/bot/remove_si.rs:31-42 | The response the handler builds is the composed reply. |
| Handler.UrlLinesReadBack | src/bot/remove_si.rs:39-42 | Read back line by line, the URL lines are the URLs' serialisations, one each, in order. |
| Handler.ReplyReadsBack | src/bot/remove_si.rs:31-42 | The reply reads as the singular header for one link, the plural header for more, then one line per link in order. |
| Handler.ReplyListsCleanLinks | src/bot/remove_si.rs:23-42 | Each line of a reply after the header is a YouTube link that no longer carries `si`. |
| Handler.RemoveSiHandler | src/bot/remove_si.rs:20-47 | No chat id: an error, nothing sent. No surviving link: `Ok`, nothing sent. Otherwise the composed reply goes to the message's chat, in reply to that message, and the handler's result is that of `send_message_retrying` as written (`Send.Retrying`), so a success after a retryable failure is reported as that failure. |
| ThankReact.RepliedToAuthor | src/bot/thank_react.rs:11-14 | An author id exists exactly when the message replies to a message with a known author, and it is that author's id. |
| ThankReact.ThankReactFilter | src/bot/thank_react.rs:10-17 | The filter holds exactly when the replied-to message's author is the bot itself. |
| ThankReact.NotAReply | src/bot/thank_react.rs:11 | A message that is not a reply is not reacted to. |
| ThankReact.ReplyToAnonymous | src/bot/thank_react.rs:12-14 | A reply to a message without an author is not reacted to. |
| ThankReact.ReplyToSomeoneElse | src/bot/thank_react.rs:15 | A reply to another user's message is not reacted to. |
| ThankReact.OnlyRepliedToAuthorMatters | src/bot/thank_react.rs:10-17 | Two messages that reply to the same author get the same answer, whatever their own text, entities or author. |

## Left out

- `src/main.rs` is not part of this model. It spawns tasks and races shutdown against Ctrl-C signals and a 10-second timeout, which is concurrency and OS signal handling.
- `src/token.rs` is not part of this model. It reads the bot token from the environment and a `.env` file, which is I/O.
- `src/utils.rs` is not part of this model. It formats error chains for logs and inspects panic payloads at run time.
- The dispatcher, panic catching and routing (`run_bot` and `schema`, `src/bot.rs:19-43`) are framework plumbing.
- `thank_react`, which sets the reaction (`src/bot/thank_react.rs:20-32`), is a request to the platform's API and is not modelled.
- The actual `send_message` request is not modelled. Its outcomes are a parameter, one per attempt, so the model does not capture outcomes that depend on timing.
- The `url` crate's parser is a parameter.
- Percent-decoding and `+`-decoding in `query_pairs` are taken as the identity. `set_query` is taken to store the new query verbatim, without re-encoding.
  - Idempotence and the exactness of the `si` test rely on this.
  - With real decoding, a value that decodes to `&si=` would break idempotence.
- `Url` keeps scheme, host, path, query and fragment. Ports, user info and the crate's normalisation of the serialisation (`AsStr`) are not modelled.
- Entity offsets are taken as indices into the text.
  - Telegram counts UTF-16 code units while `str::get` uses byte indices. That mismatch is not modelled.
  - Neither are `str::get`'s failures on character boundaries or the overflow of `offset + length`.
  - A slice is `Some` exactly when it is in range.
- Logging through `tracing` is dropped.
- Sleeps are recorded as delays in seconds, not performed.
- Of teloxide's request errors, `Network`, `Io` and `RetryAfter` are kept. Every other kind is `Other`. Each error's payload is reduced to a number.
- `Handler.Lines` reads the reply the way `str::lines` does, without its `\r` handling.

## Findings

| source | as written | input that shows it | evidently intended | confidence | as-written member | corrected member |
|---|---|---|---|---|---|---|
| src/bot/remove_si.rs:107 | `Ok(_) => break` leaves `last_err` as set by the previous failed attempt, and line 121 turns it into `Err`. The same code is at `src/bot.rs:103` and `src/bot.rs:117`. | attempt 1 fails with a network error, attempt 2 succeeds: the message is delivered, but the error of attempt 1 is returned. | A successful attempt returns `Ok(())`. | not executed | Send.LateSuccessReturnsPreviousError | Send.CorrectedLateSuccessIsOk |
