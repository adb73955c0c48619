# NullRouter: algorithms and protocols, verified

A Dafny model of the parts of NullRouter that compute, scan or keep state, with
proofs of what they promise. Code that changes things step by step is modelled
by methods with loops and by classes; the methods are proved against
specification functions or against state machines, and the lemmas are about
those. `dafny verify dfyconfig.toml` verifies the whole project.

| files | what they model |
|---|---|
| `Calendar`, `Decimals`, `Rfc3339` | day numbers and dates, and the RFC 3339 printer and parser |
| `Encodings`, `FormBody` | base64 and the form body of a token grant |
| `HostsFile` | the editor of per-tool blocks in the hosts file |
| `BridgeProtocol`, `Bridge` | the router and its Node worker on one pair of pipes |
| `RetryLoop` | retries and URL fallback of one provider call |
| `Strings`, `Glob`, `Canonical` | model-name patterns and canonical capabilities |
| `LogQueue`, `LogShip` | the bounded queue of log lines and its drain |
| `Redaction`, `ScrubWords`, `ScrubBearer`, `ScrubNamed`, `Scrub`, `ScrubWhole` | redaction of log lines |
| `TtlCache`, `RefreshProtocol` | the two caches, and spending tokens through one of them |
| `Stats` | windows and timeline of the transform event log |
| `Utf8`, `LogRing` | the bounded tail of a child's output |
| `ToolCalls` | merging of streamed tool-call deltas |

The concurrent parts come twice. `BridgeProtocol` and `LogQueue` are machines
over single steps, and their theorems hold of every run. `Bridge` and `LogShip`
are the source's own statements in classes: wherever a call waits, `Others`
lets any number of other steps happen, and every group of statements is
recorded as one step of the machine. `Valid()` says that the recorded steps
lead to the present state, so whatever holds of all runs holds of the classes.
The history fields of the two states (frames sent, answers, accepted lines and
so on) are there for the theorems; the source does not have them.

Text is a sequence of Unicode characters, or of UTF-8 bytes where the source
works on bytes (`Rfc3339`, `FormBody`, `LogRing`).

Where code and documentation disagree, the model follows the code:

- A worker whose stdin fails to flush stays in the slot
  (`crates/pxpipe/src/bridge.rs:543`), and so does one whose caller drops the
  transform while it waits, although a late answer is then read as the reply to
  the next request. `EveryReply` says by how much replies are off and exactly
  when they are right; `LateReplyTaken` is a run that goes wrong.
- `hosts_enabled` is documented to ask for a structurally valid block and
  counts markers without their order. `AnswerAgrees` names the one difference,
  and `EndFirstOverlooked` is a text that shows it.
- The drain takes the miss counter before the post so that the count cannot be
  lost by a failed one (`crates/logship/src/lib.rs:319`); a failed post loses
  it. `ToldAllExactly` is the exact condition, `ReportSwallowed` a run.
- Two concurrent requests are documented not to spend one refresh token twice
  (`crates/execute/src/executor.rs:348-350`). They can when both look before
  either outcome is recorded: `BothSpend` is such a run, and
  `SpentAgainOnlyOverlapping` says that nothing else makes them.
- A scrubbed line is not expected to hold anything credential-shaped
  (`crates/logship/src/scrub.rs:73-76`). A mark that ends a short token behind
  another mark is stepped over, and with it the token behind it: `TokenLeft` is
  a text, and `CleanExactly` the exact condition. A later pass can take the
  first of those marks away, so that scrubbing again finds the token:
  `SecondChanges` has such lines, `OnceEnoughExactly` says when once is enough,
  and `ThirdChangesNothing` that twice always is.
- When the drain thread cannot start, the channel is said to fill and then
  refuse lines (`crates/logship/src/lib.rs:183-186`). Its receiving end is gone,
  so lines are refused at once.

## Model

| member | source | states |
|---|---|---|
| `Calendar.CivilSuccessor` | crates/pxpipe/src/events.rs:185-211 | for every day number the computed date is a real date, and the next day's date is its Gregorian successor (month lengths of section 5.7 and leap rule of Appendix C of RFC 3339) |
| `Calendar.CivilIsCounted` | crates/execute/src/refresh.rs:196-215 | the division formulas give the date counted one calendar day at a time from 1 January 1970, so both copies of them refine the calendar |
| `Calendar.CivilDaysInverse` | crates/execute/src/refresh.rs:143-175 | days-from-date and date-from-days are inverse, on every day number and on every real date from 1970 on; earlier dates have negative numbers |
| `Rfc3339.PrintThenParse` | crates/execute/src/refresh.rs:143-222 | parsing a printed instant gives it back without its milliseconds if and only if it is before the year 10000 |
| `Rfc3339.ParseThenPrint` | crates/execute/src/refresh.rs:143-222 | every canonical text naming a real date from 1970 on parses, and any instant of that second prints as that very text |
| `Rfc3339.CanonicalExactly` | crates/execute/src/refresh.rs:196-222 | those texts are exactly what the printer prints of real dates and times of the years 1970 to 9999 |
| `Rfc3339.ParseUtc` | crates/execute/src/refresh.rs:143-175 | a UTC text names its instant; the fraction of a second is ignored and a missing offset means UTC |
| `Rfc3339.ParseOffset` | crates/execute/src/refresh.rs:179-193 | a numeric offset shifts the instant by exactly that much (section 5.6 of RFC 3339), and an instant before the epoch is refused |
| `Rfc3339.NoOffsetInside` | crates/execute/src/refresh.rs:185-190 | a text without a sign six bytes before its end is read as UTC; one with a character cut there, or between the parts of an offset, has no valid one |
| `Rfc3339.ParseStamp` | crates/execute/src/refresh.rs:143-175 | the result for any suffix behind a date and time, with the overflow of January and February of year 0 |
| `Rfc3339.BareMillis` | crates/execute/src/refresh.rs:143-148 | a bare number, with a `+` before it or without and with white space around it, is itself the milliseconds |
| `Rfc3339.BareNumberReads` | crates/execute/src/refresh.rs:146-148 | a printed number is read back as that many milliseconds |
| `Rfc3339.BareRange` | crates/execute/src/refresh.rs:146-148 | digits read as their value exactly when it fits 64 bits |
| `Rfc3339.BlanksAround` | crates/execute/src/refresh.rs:144 | ASCII white space around any text is not read |
| `Rfc3339.FormatInstant` | crates/execute/src/refresh.rs:196-222 | any instant of the second a real date and time name prints as that date and time |
| `Encodings.Base64` | crates/execute/src/refresh.rs:324-344 | a decoder of section 4 of RFC 4648 recovers the input from the output; four characters for each started group of three bytes |
| `Encodings.PadTruncateDecodes` | crates/execute/src/refresh.rs:339-344 | the zero-fill, truncate and pad step loses no byte and adds none |
| `Encodings.DecodeBase64Injective` | crates/execute/src/refresh.rs:324-344 | no two texts decode to the same bytes, so the encoder's output is the only right one |
| `FormBody.FormEncode` | crates/execute/src/refresh.rs:278-292 | percent-decoding the output gives the value back, for every byte string |
| `FormBody.PlainStays` | crates/execute/src/refresh.rs:278-287 | letters, digits and `-_.~` stay as they are and a space becomes `+` |
| `FormBody.OnlySafe` | crates/execute/src/refresh.rs:278-292 | the output has no character but those, `+`, `%` and upper-case hexadecimal digits |
| `FormBody.BodyParses` | crates/execute/src/refresh.rs:265-274 | the `application/x-www-form-urlencoded` parser recovers exactly the list of fields from the joined body |
| `FormBody.GrantBodyParses` | crates/execute/src/refresh.rs:235-275 | the body of a grant says exactly the token, client id, secret and scope that were given |
| `FormBody.GrantSays` | crates/execute/src/refresh.rs:235-257 | the parsed body has the grant type and the token, and the client id, secret and scope each under its own key exactly when the registry gives one |
| `HostsFile.KeepLines` | crates/mitm-helper/src/lib.rs:107-146 | the one-pass scanner with three flags keeps the lines outside the tool's one well-formed block, or refuses any other arrangement of its markers |
| `HostsFile.WithoutBlock` | crates/mitm-helper/src/lib.rs:107-146 | the text without the block, with the input's line terminator, or the refusal |
| `HostsFile.File.EnableHosts` | crates/mitm-helper/src/lib.rs:148-166 | the file is the kept lines followed by the tool's block; on corrupt markers it is refused and left alone |
| `HostsFile.BlocksWritten` | crates/mitm-helper/src/lib.rs:55-97 | the markers and the host names of each of the four tools |
| `HostsFile.HostLineEach` | crates/mitm-helper/src/lib.rs:156-163 | between the markers one line per host redirects it to the loopback address |
| `HostsFile.File.DisableHosts` | crates/mitm-helper/src/lib.rs:169-173 | the file is the kept lines; on corrupt markers it is refused and left alone |
| `HostsFile.File.HostsEnabled` | crates/mitm-helper/src/lib.rs:176-185 | the answer says whether the block is there; on corrupt markers it is an error, unless one end marker stands before one begin marker, and then it says yes |
| `HostsFile.RunRefines` | crates/mitm-helper/src/lib.rs:107-185 | after any run of enables and disables from a marker-free file (not a single blank line, no bare CR at its end), the lines are the original lines followed by the blocks of exactly the enabled tools in order of last enable, and the query answers membership |
| `HostsFile.KeepsLinesExactly` | crates/mitm-helper/src/lib.rs:99-146 | those two conditions on the file are exact: a call with nothing to remove keeps the lines if and only if they hold |
| `HostsFile.AnswerAgrees` | crates/mitm-helper/src/lib.rs:107-185 | counting markers decides what the scanner decides, but for exactly one corruption, a lone end marker before a lone begin marker |
| `HostsFile.EndFirstOverlooked` | crates/mitm-helper/src/lib.rs:176-185 | a text with that corruption, which the query calls enabled and the scanner refuses |
| `HostsFile.EnableIdempotent` | crates/mitm-helper/src/lib.rs:148-166 | enabling twice is enabling once if and only if the text does not end in a bare CR |
| `HostsFile.DisableUndoesEnable` | crates/mitm-helper/src/lib.rs:148-173 | disabling after enabling is disabling alone, on any text that is not corrupt, with the exact condition on a text that ends in a bare CR |
| `BridgeProtocol.StepKeeps` | crates/pxpipe/src/bridge.rs:431-574 | every step of a call or of a worker, a dropped call included, keeps the invariant: when the lock is free and a worker is held, frames written are frames read plus frames left behind |
| `BridgeProtocol.EveryReply` | crates/pxpipe/src/bridge.rs:487-574 | in every interleaving, a call that reads is settled with the worker's answer to the frame as many places before its own as the run had left frames of that worker behind by then, so with the answer to its own request if and only if it had left none |
| `BridgeProtocol.SettledByRead` | crates/pxpipe/src/bridge.rs:547-548 | every settled call was settled by one of the run's reads, so the row above speaks of every reply |
| `BridgeProtocol.MissedStep` | crates/pxpipe/src/bridge.rs:543-545 | a frame is left behind exactly by a failed flush, and by dropping a call that waits for its reply |
| `BridgeProtocol.MissedCounts` | crates/pxpipe/src/bridge.rs:543-545 | a worker's count of missed frames is the number of such steps in the run |
| `BridgeProtocol.OwnReply` | crates/pxpipe/src/bridge.rs:487-574 | in every run that leaves no frame of its worker behind, the reply settled for a request is the answer to that request |
| `BridgeProtocol.OwnBody` | crates/pxpipe/src/bridge.rs:668-707 | in every such run, a settled transform is what the worker's answer to its own request makes of it: the new body where the answer has one, otherwise a bypass with the answer's reason, or `passthrough`, or `transform_error`, and its detail |
| `BridgeProtocol.LateReplyTaken` | crates/pxpipe/src/bridge.rs:543-545 | a run with a failed flush in which the second request is settled with the answer to the first |
| `BridgeProtocol.NoReplyTwice` | crates/pxpipe/src/bridge.rs:487-574 | in every interleaving no frame is written for two calls and no reply settles two calls |
| `BridgeProtocol.RetiredIsFinal` | crates/pxpipe/src/bridge.rs:547-572 | a worker once out of the slot is never written to or read again, so an answer that comes after a timeout reaches nobody |
| `BridgeProtocol.OutcomesMean` | crates/pxpipe/src/bridge.rs:431-574 | a call is started only with a worker in the slot and fails to start only without; a transform finds none loaded only where none is and it may not load one; a stop finds none only where none is; a call whose worker is given up ends with that worker dead |
| `BridgeProtocol.NeverStuck` | crates/pxpipe/src/bridge.rs:487-574 | a call that has not ended can always go on, unless it waits for the lock, whatever fails, and can always be dropped |
| `BridgeProtocol.WorkersGoOn` | crates/pxpipe/src/bridge.rs:487-574 | a live worker announces itself once, answers every frame in its pipe, and can die at any time |
| `BridgeProtocol.ReplyReads` | crates/pxpipe/src/bridge.rs:547-548 | a reply in the pipe can be read by the call that waits for it |
| `BridgeProtocol.StartFailuresNamed` | crates/pxpipe/src/bridge.rs:498-507 | each failed start gives a transform its own reason |
| `Bridge.Bridge.Transform` | crates/pxpipe/src/bridge.rs:487-574 | one transform, with other calls and workers moving wherever it waits, is a run of the protocol; it ends settled or bypassed, and a settled reply is the worker's answer as above |
| `Bridge.Bridge.Exchange` | crates/pxpipe/src/bridge.rs:512-574 | a request gets the next number and is encoded, and the exchange ends settled or bypassed, as steps of the protocol |
| `Bridge.Bridge.Send` | crates/pxpipe/src/bridge.rs:530-542 | writing the frame is the protocol's write; its failure, with the frame delivered or not, takes the worker out of the slot and kills it |
| `Bridge.Bridge.ReadFrame` | crates/pxpipe/src/bridge.rs:547-573 | the reply taken, or the worker taken out of the slot and killed on a timeout or a broken pipe |
| `Bridge.Bridge.SpawnWorker` | crates/pxpipe/src/bridge.rs:710-785 | on success the child is the worker in the slot; otherwise the slot is empty and the call ends with the reason why no worker could be started |
| `Bridge.Bridge.AwaitReady` | crates/pxpipe/src/bridge.rs:757-785 | a child becomes the worker only by a good ready frame from a supported engine |
| `Bridge.Bridge.Start` | crates/pxpipe/src/bridge.rs:431-441 | start keeps a running worker or spawns one, and says started exactly when there is a worker in the slot |
| `Bridge.Bridge.Stop` | crates/pxpipe/src/bridge.rs:444-459 | stop takes the worker out and kills it, and answers whether one was there; a restart goes on as a start |
| `RetryLoop.RetryDelay` | crates/execute/src/executor.rs:614-637 | the shared counter of a URL grows by one exactly when it is below the attempts of the status, and then the policy's delay is given |
| `RetryLoop.PolicyFollowed` | crates/execute/src/executor.rs:642-655 | in every lawful run a status with an entry of the provider's is repeated as often as that entry says, after its delay or 2000; another status follows the defaults, and a network failure follows 502 |
| `RetryLoop.WentOn` | crates/execute/src/executor.rs:551-602 | a send with a pause is made again; one without is followed only after a 429, an advancing status or no reply, and then by the next URL |
| `RetryLoop.EndedBy` | crates/execute/src/executor.rs:513-608 | a call ends with its last reply once there is no repeat and no reason or no URL to go on to, or with the first URL called for that has no endpoint; each error has its own cause |
| `RetryLoop.Execute` | crates/execute/src/executor.rs:513-608 | for every sequence of responses the loop ends, and its sends and outcome are the ones the policy calls for; the exit through the guard is never taken |
| `RetryLoop.OnlyOneRun` | crates/execute/src/executor.rs:513-608 | what a lawful run is leaves no choice: the responses and the policy decide every send and the outcome |
| `RetryLoop.UrlsInOrder` | crates/execute/src/executor.rs:513-608 | URL indices start at 0, go up one at a time, are never come back to, and stay below the number of URLs |
| `RetryLoop.NoneSkipped` | crates/execute/src/executor.rs:513-608 | no URL index below a visited one is skipped |
| `RetryLoop.LeftOnlyWhenSpent` | crates/execute/src/executor.rs:545-602 | a URL is left for the next only on an advancing status or a network failure, with as many sends there as that reply allows repeats, plus one |
| `RetryLoop.SendsBounded` | crates/execute/src/executor.rs:513-637 | no more sends than the number of URLs times one plus the largest attempts of any status |
| `RetryLoop.BoundExists` | crates/execute/src/executor.rs:642-655 | every provider has a largest number of attempts |
| `RetryLoop.SameReplyAlways` | crates/execute/src/executor.rs:513-608 | against an upstream that always answers alike the bound is reached exactly, and the outcome is the last URL's when the reply passes the call on, the first's when not |
| `RetryLoop.NoPolicyNoRepeat` | crates/execute/src/executor.rs:545-580 | a response outside the retry policy that does not advance ends the call at once and is passed through |
| `Glob.GlobMatches` | crates/providers/src/capabilities.rs:537-564 | the cursor matcher accepts exactly the language in which each `*` stands for any string, case folded |
| `Glob.CaseDoesNotMatter` | crates/providers/src/capabilities.rs:537-539 | the case of ASCII letters in the pattern or the value makes no difference |
| `Strings.FoldingTells` | crates/providers/src/capabilities.rs:538-539 | folding makes alike exactly what differs in the case of ASCII letters only |
| `Glob.Leftmost` | crates/providers/src/capabilities.rs:555-561 | placing a segment as far left as it goes never loses a match |
| `Glob.FirstSegment` | crates/providers/src/capabilities.rs:537-564 | the language of a pattern is that of its segments placed in order without overlap |
| `Canonical.Apply` | crates/providers/src/capabilities.rs:233-277 | each field is the row's where the row gives one and the base's where not |
| `Canonical.AppliedIsRowOver` | crates/providers/src/capabilities.rs:233-277 | the same of the function the consensus is stated with |
| `Canonical.SplitKey` | crates/providers/src/capabilities.rs:309-311 | the key is cut at its first slash, or has none |
| `Canonical.CanonicalByModel` | crates/providers/src/capabilities.rs:306-331 | the table holds for each model the one value its rows resolve to, when there is one, leaving overridden providers out |
| `Canonical.ListedExactly` | crates/providers/src/capabilities.rs:306-331 | a model is in the table if and only if some provider that is not overridden lists it and all such providers resolve it alike |
| `Canonical.HeardUnlessOverridden` | crates/providers/src/capabilities.rs:306-331 | a row is heard on the model its key names unless the provider is one of the five that upstream overrides |
| `Canonical.HeardIsKeyed` | crates/providers/src/capabilities.rs:306-331 | only a row whose key, cut at the first slash, names a model is heard on it |
| `Canonical.TableSays` | crates/providers/src/capabilities.rs:306-331 | what the table says of a model is, field by field, what each row heard on it says over the base |
| `Canonical.OnlyTheVoicesMatter` | crates/providers/src/capabilities.rs:306-331 | rows of overridden providers, repetitions and order do not change the table |
| `Canonical.OrderDoesNotMatter` | crates/providers/src/capabilities.rs:306-331 | any order of the rows gives the same table |
| `LogQueue.NothingLostOrMoved` | crates/logship/src/lib.rs:235-237 | in every interleaving the accepted lines are, in order, those posted, those in the batch, those in the channel and those that went with a channel whose drain could not start; there are such lines only in a run where that happened |
| `LogQueue.EveryMissCounted` | crates/logship/src/lib.rs:235-237 | refused lines are those reported or about to be, those in the counter, and those whose thread has been refused and has not counted yet |
| `LogQueue.ClosedMeansCounted` | crates/logship/src/lib.rs:235-237 | the channel is closed only after every refused thread has counted its miss, and nothing is logged after that |
| `LogQueue.DrainNeverStarts` | crates/logship/src/lib.rs:183-186 | a drain that cannot start takes all accepted lines with it, and every line after that is refused at once |
| `LogQueue.PostSizes` | crates/logship/src/lib.rs:299-340 | each post has 1 to 50 lines of its own, and one more, at its end, exactly when it reports misses |
| `LogQueue.ToldAllExactly` | crates/logship/src/lib.rs:319-340 | once all misses are counted and swapped out, the pane was told of all of them if and only if no failed post carried a report |
| `LogQueue.ReportSwallowed` | crates/logship/src/lib.rs:319-340 | a run in which the pane is not told of a refused line |
| `LogQueue.ReportTells` | crates/logship/src/lib.rs:322-330 | no two numbers of missed lines are reported in the same words |
| `LogQueue.ReportReads` | crates/logship/src/lib.rs:322-330 | a report is a warning that gives the number of missed lines and names the service |
| `LogQueue.LeftAlone` | crates/logship/src/lib.rs:299-343 | left alone the drain takes boundedly many steps |
| `LogQueue.StuckMeansPosted` | crates/logship/src/lib.rs:299-343 | when the drain can take no step, every accepted line has been posted or went with the channel of a drain that could not start |
| `LogShip.Shipper.OnEvent` | crates/logship/src/lib.rs:235-237 | a line is queued exactly when there is room; otherwise its thread is refused and then counts one miss, with others moving in between |
| `LogShip.Shipper.Drain` | crates/logship/src/lib.rs:299-343 | any number of rounds of the drain is a run of the queue; what goes over the wire is each batch with its report; every round posts unless the lines that waited at the start, fifty to a post, have been posted; and the drain ends only when every sender is gone and the channel is empty |
| `ScrubWords.ScrubSelfIdentifying` | crates/logship/src/scrub.rs:194-213 | the output is the line with its separators and words in place, but for the secret-shaped words |
| `ScrubWords.NoSecretLeft` | crates/logship/src/scrub.rs:194-235 | no maximal separator-free word of the output is secret-shaped |
| `ScrubWords.SeparatorsStay` | crates/logship/src/scrub.rs:194-213 | every separator stays, and what stands on either side of it is scrubbed as if it stood alone |
| `ScrubWords.SelfIdentifyingIdempotent` | crates/logship/src/scrub.rs:194-213 | the pass is idempotent on all texts |
| `ScrubWords.UnchangedExactly` | crates/logship/src/scrub.rs:194-235 | exactly the lines without a secret-shaped word come out unchanged |
| `ScrubWords.TokenOfThreeParts` | crates/logship/src/scrub.rs:230-234 | a word that begins `eyJ` is secret-shaped exactly when it has three parts between dots and at least eight bytes |
| `ScrubWords.SecretByPrefix` | crates/logship/src/scrub.rs:216-229 | another word is secret-shaped exactly when it begins, in any casing, with `sk-` or `sk_` and has at least twelve bytes, or with `ya29.` and at least eight |
| `ScrubWords.LengthInBytes` | crates/logship/src/scrub.rs:216-223 | the lengths that count are numbers of UTF-8 bytes |
| `ScrubBearer.ScrubBearer` | crates/logship/src/scrub.rs:82-108 | the scan with its cursor computes the scrubbed text that the rows below are about |
| `ScrubBearer.BearerIdempotent` | crates/logship/src/scrub.rs:82-108 | scrubbing twice is scrubbing once, on all texts |
| `ScrubBearer.TokenReplaced` | crates/logship/src/scrub.rs:82-108 | a token of eight or more behind the first mark is gone, all of it, and everything around it stays |
| `ScrubBearer.PlaceholderKept` | crates/logship/src/scrub.rs:93-104 | a shorter token behind the first mark stays, and so does a single other character there |
| `ScrubBearer.KeptAndLost` | crates/logship/src/scrub.rs:93-107 | every line is a kept part, whose disjoint pieces are replaced by the marker, and a lost part, which is there if and only if the scan overshoots an edge |
| `ScrubBearer.NoEdgeNoLoss` | crates/logship/src/scrub.rs:93-107 | without a mark before the line's end or before a character of several bytes, nothing is lost |
| `ScrubBearer.EdgeLosesLine` | crates/logship/src/scrub.rs:93-107 | a first mark with such an edge behind it empties the line |
| `ScrubBearer.CleanExactly` | crates/logship/src/scrub.rs:82-108 | in the output no token of eight or more stands behind a mark, if and only if the scan steps over no mark that has one |
| `ScrubBearer.NoTokenLeft` | crates/logship/src/scrub.rs:82-108 | none does where no mark stands directly behind another or one token character further |
| `ScrubBearer.TokenLeft` | crates/logship/src/scrub.rs:93-104 | a token behind two marks in a row is left in place |
| `ScrubNamed.ScrubOneNamed` | crates/logship/src/scrub.rs:119-188 | the scan for one name computes the scrubbed text that the rows below are about |
| `ScrubNamed.ValueReplaced` | crates/logship/src/scrub.rs:119-188 | the value behind the first stand-alone name, up to a quote, a structural character or the end and without trailing blanks, is gone, all of it, and everything around it stays |
| `ScrubNamed.NothingExposed` | crates/logship/src/scrub.rs:119-188 | after the pass no stand-alone name with a separator behind it has a value other than the marker |
| `ScrubNamed.UnchangedExactly` | crates/logship/src/scrub.rs:119-188 | exactly the lines in which the name is nowhere exposed come out unchanged |
| `ScrubNamed.OneNamedIdempotent` | crates/logship/src/scrub.rs:119-188 | the pass is idempotent for every listed name |
| `ScrubNamed.OnlyPiecesReplaced` | crates/logship/src/scrub.rs:119-188 | the output is the input with disjoint pieces replaced by the marker |
| `Scrub.ListedNamesOk` | crates/logship/src/scrub.rs:35-59 | every listed name meets what the theorems ask of a name |
| `Scrub.ScrubLine` | crates/logship/src/scrub.rs:65-71 | the three passes in turn; no word of the result is secret-shaped, and the last pass has nothing more to do in it |
| `Scrub.BearerGone` | crates/logship/src/scrub.rs:65-71 | a bearer token of eight characters or more, in a line without another mark, a listed name or a secret word beside it, comes out as the marker and the rest of the line as it was |
| `Scrub.NamedGone` | crates/logship/src/scrub.rs:65-71 | the value behind a listed name that stands alone, in a line without a bearer mark, another name or a secret word beside it, comes out as the marker and the rest of the line as it was |
| `Scrub.WordGone` | crates/logship/src/scrub.rs:65-71 | a secret-shaped word set apart by white space, quotes, brackets or punctuation, in a line without a mark or a listed name, comes out as the marker and the rest as it was |
| `Scrub.OtherLinesKept` | crates/logship/src/scrub.rs:65-71 | a line in which each listed name is part of a longer word or has no separator behind it, without a mark or a secret word, comes out unchanged |
| `ScrubWhole.NoNamedValueLeft` | crates/logship/src/scrub.rs:65-71 | in no scrubbed line does a listed name stand alone with a separator and a value behind it that is not the marker, whatever the passes after that name's have replaced |
| `ScrubWhole.PassKeepsClean` | crates/logship/src/scrub.rs:111-188 | the pass for one name exposes no value behind another |
| `ScrubWhole.WordsKeepClean` | crates/logship/src/scrub.rs:194-213 | replacing words exposes no value behind a name |
| `ScrubWhole.BearerKeepsClean` | crates/logship/src/scrub.rs:82-108 | neither does the bearer pass, the rest of a line it drops included |
| `ScrubWhole.BearerKeepsWords` | crates/logship/src/scrub.rs:82-108 | the bearer pass makes no word secret-shaped |
| `ScrubWhole.SecondIsBearer` | crates/logship/src/scrub.rs:65-76 | scrubbing a scrubbed line is a bearer pass and nothing more |
| `ScrubWhole.ThirdChangesNothing` | crates/logship/src/scrub.rs:65-76 | scrubbing three times is scrubbing twice, for every line |
| `ScrubWhole.OnceEnoughExactly` | crates/logship/src/scrub.rs:73-76 | a scrubbed line is clean, in that scrubbing it changes nothing, if and only if the bearer scan comes upon no token to hide and no edge in it |
| `ScrubWhole.SecondChanges` | crates/logship/src/scrub.rs:73-76 | a family of lines that scrubbing once leaves with a token, which scrubbing again replaces |
| `TtlCache.RefreshCache.Get` | crates/execute/src/refresh.rs:477-495 | the answer is the last result put under the key, if at most ten seconds old, whatever the cache has removed; entries change as in the refresh protocol |
| `TtlCache.RefreshCache.Put` | crates/execute/src/refresh.rs:498-513 | one more put in the history; dropping expired entries is never visible; entries change as in the refresh protocol |
| `TtlCache.KeyTells` | crates/execute/src/refresh.rs:515-517 | pairs of provider and token have distinct keys as long as providers have no colon |
| `TtlCache.KeysCollide` | crates/execute/src/refresh.rs:515-517 | with a colon in a provider two pairs share a key |
| `TtlCache.ProbeCache.Get` | crates/execute/src/probe.rs:218-234 | the last put not invalidated since and within the time to live, unless it is a timeout or an unreachable host |
| `TtlCache.ProbeCache.Put` | crates/execute/src/probe.rs:237-241 | one more put in the history |
| `TtlCache.ProbeCache.Invalidate` | crates/execute/src/probe.rs:245-249 | the key is forgotten |
| `TtlCache.AnswerMeans` | crates/execute/src/refresh.rs:477-495 | an answer is some put under its key within the time to live with nothing under the key after it, and every such put is the answer |
| `RefreshProtocol.SpentAgainOnlyOverlapping` | crates/execute/src/executor.rs:344-363 | in every interleaving a token is spent no later than ten seconds after an outcome of it if and only if the spending request had looked into the cache before that outcome was recorded |
| `RefreshProtocol.LookSpendsExactly` | crates/execute/src/executor.rs:356-361 | in every reachable state a look spends the token if and only if no outcome of it was recorded within the last ten seconds |
| `RefreshProtocol.HitIsOwn` | crates/execute/src/executor.rs:356-358 | what the cache serves is the outcome of an exchange of that very token by that very provider, recorded before the look and at most ten seconds old |
| `RefreshProtocol.BothSpend` | crates/execute/src/executor.rs:356-361 | two requests that both look before either has an outcome both spend the token |
| `Stats.Totals.Accumulate` | crates/pxpipe/src/events.rs:73-94 | the counters grow by what one event counts for |
| `Stats.Totals.Finalize` | crates/pxpipe/src/events.rs:96-102 | the average is the time per compressed request rounded down, zero without any |
| `Stats.CountersCount` | crates/pxpipe/src/events.rs:73-94 | each counter of a window is the sum of what it is named for over the events of its time: the amounts of the applied ones, the failures, the rest |
| `Stats.Aggregate` | crates/pxpipe/src/events.rs:278-337 | each window is the sum of the events of its time, each bucket the sum of the events whose date it is the first to have, and the recent events are the last ones, newest first |
| `Stats.WindowsNest` | crates/pxpipe/src/events.rs:298-310 | today and yesterday together are at most the last 7 days, those at most the last 30, those at most all, in every counter |
| `Stats.Classified` | crates/pxpipe/src/events.rs:73-94 | requests are compressed plus bypassed plus errors in every span of time |
| `Stats.SameDateSameDay` | crates/pxpipe/src/events.rs:179-211 | two times are given the same date text if and only if they are on the same day |
| `Stats.DatesDistinct` | crates/pxpipe/src/events.rs:283-291 | the timeline's dates are distinct if and only if thirty days have begun since the epoch |
| `Stats.BucketIsDay` | crates/pxpipe/src/events.rs:312-319 | from then on a bucket counts exactly the events of its day |
| `Stats.TimelineSays` | crates/pxpipe/src/events.rs:312-319 | each bucket has the date of its day, and the requests, compressed requests and saved tokens of that day's events |
| `Stats.DateOfStamp` | crates/pxpipe/src/events.rs:179-211 | the date is the first part of the whole time stamp |
| `Stats.InExactlyOne` | crates/pxpipe/src/events.rs:312-319 | an event lands in exactly one bucket if it is of the last thirty days, today included, and in none otherwise |
| `Stats.BucketsAddUp` | crates/pxpipe/src/events.rs:312-319 | the buckets together count each event of their days once |
| `Stats.LastTwoBuckets` | crates/pxpipe/src/events.rs:298-319 | with no event after today the last two buckets are the windows of today and yesterday |
| `LogRing.LogRing.constructor` | crates/procctl/src/logring.rs:26-33 | the capacity is at least one line and a line has room for the mark and one byte |
| `LogRing.LogRing.Push` | crates/procctl/src/logring.rs:36-56 | the ring holds the last lines stored since the last clear, as many as fit, and the drop counter counts evictions up to its ceiling |
| `LogRing.LogRing.Clear` | crates/procctl/src/logring.rs:113-115 | everything is forgotten but the drop count |
| `LogRing.Shortened` | crates/procctl/src/logring.rs:36-50 | the cut point found byte by byte is the last character boundary that leaves room for the mark |
| `LogRing.NoLineUnaccounted` | crates/procctl/src/logring.rs:36-56 | lines pushed are lines retained, evicted or cleared, in every run |
| `LogRing.SinceLastClear` | crates/procctl/src/logring.rs:36-56 | the lines held come from those pushed behind the last clear, oldest first |
| `LogRing.DroppedCounts` | crates/procctl/src/logring.rs:36-56 | below its ceiling the drop counter is what was pushed less what is retained and what was cleared |
| `LogRing.StoredFits` | crates/procctl/src/logring.rs:36-50 | every stored line fits |
| `LogRing.BreaksTrimmed` | crates/procctl/src/logring.rs:37 | all line breaks at the end of a line go, and nothing else |
| `LogRing.StoredIsText` | crates/procctl/src/logring.rs:36-50 | a stored line of text is text: whole without its line breaks, or as many whole characters as leave room for the mark, and the mark |
| `ToolCalls.Accumulator.MergeToolCalls` | crates/execute/src/stream.rs:735-779 | merging in place is the fold of one delta after the other |
| `ToolCalls.MergeIsComplete` | crates/execute/src/stream.rs:735-779 | any deltas merge into one call for each index, in order of first appearance, whose arguments are its own fragments in order and whose name is its first non-empty one; a delta without an index joins the call of index 0 once that has begun, and is a call of its own before |
| `ToolCalls.AllCarry` | crates/execute/src/stream.rs:750-762 | where every delta of a call carries arguments, the pieces joined are all of them in order |
| `ToolCalls.OpeningsDistinct` | crates/execute/src/stream.rs:735-745 | no index begins two calls, and an index has a call exactly when it has deltas |
| `ToolCalls.WithIndex` | crates/execute/src/stream.rs:735-745 | where every delta carries an index, the deltas of a call are exactly those with its index |
| `ToolCalls.BatchesDoNotMatter` | crates/execute/src/stream.rs:735-779 | any split of the deltas into batches gives the same calls |
| `ToolCalls.InterleavingDoesNotMatter` | crates/execute/src/stream.rs:735-779 | a call depends only on its own deltas |
| `ToolCalls.WithoutIndexApart` | crates/execute/src/stream.rs:737-745 | deltas without an index never find each other: while no call has index 0 each begins a call |

## Left out

- Rfc3339: white space beyond ASCII around a timestamp is not trimmed, and the value an unsigned subtraction wraps to in January and February of year 0 is only reported as an overflow.
- FormBody: the JSON branch of a grant body; JSON is another library's.
- HostsFile: reading and replacing the file are assumed to succeed, and the file is text.
- HostsFile.RunRefines: asks that the file is not a single blank line and does not end in a bare CR; `KeepsLinesExactly` shows that the code does not keep the lines of such files.
- Bridge: the details and stderr tails that go with a bypass, and the savings a reply reports. Oversized and unreadable replies are failed reads. The classes run their own call to its end; calls that are dropped are steps of the machine, and so of the other calls.
- Bridge.Bridge.SpawnWorker: whether Node and the package are there, and whether the engine is supported, are nondeterministic choices.
- BridgeProtocol.OwnReply: asks that the run leaves no frame of the worker behind; `EveryReply` says what holds without that.
- RetryLoop: headers, bodies and the endpoints of a provider are parameters; a pause is recorded and takes no time. Credentials do not change during a call. Retry entries under keys that are not the decimal text of a status never apply and are not in the table.
- Glob: the tables of patterns.
- Canonical: the capabilities table itself, and the cascade and guesses of `for_model` around the canonical table.
- LogQueue: excluded targets, empty messages and the rendering of fields; a line given to the queue is the line as rendered. The interval may end at any time.
- LogShip.Shipper.Drain: runs for a given number of rounds, standing for any beginning of an endless loop.
- Scrub.BearerGone: asks, like the other whole-line theorems there, that the line has no other mark, name or secret word; lines with several are covered by what no pass leaves.
- ScrubBearer.TokenReplaced: says what happens behind the first mark; `CleanExactly` is about all marks of the output.
- ScrubNamed: which characters beyond ASCII are letters or digits is a parameter.
- TtlCache: a poisoned lock, which turns a look into a miss and a put into nothing.
- RefreshProtocol: the exchange itself is an arbitrary result; refusals before the cache is looked at spend nothing and are not steps.
- Stats: reading, merging and sorting the event files, percentages in floating point, and overflow of 64-bit sums. Events after today are counted as the code counts them.
- LogRing: splitting a chunk into lines, and searching the retained lines.
- ToolCalls: other fields of a delta are one opaque value, and a field of the wrong type is a missing one.
- ToolCalls.MergeIsComplete: without a function object in the opening delta later fragments are dropped, and the lemma says so.
- HTTP, sockets, timers, processes and signals; the dashboard, the supervisor, translators, certificates and pricing.
