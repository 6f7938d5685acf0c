# cloudbuild-report: a Dafny model of the status reporter

cloudbuild-report is a small App Engine service. A Cloud Build step POSTs a build
ID to it. The service looks the build up, finds the commit it was built from, and
starts a background loop. For up to thirty minutes the loop polls the build,
translates its status into a GitHub commit status (`pending`, `success`,
`failure`, `error`) and publishes each change to that commit.

This project models the handler in `appengine/main.go` and proves its properties:

- `Translator` is the status switch and the description it builds. A `SUCCESS`
  whose two timestamps parse gets the elapsed time, truncated to whole seconds,
  in parentheses.
- `Durations` holds the Go `time.Duration` pieces the description relies on:
  - `finish.Sub(start)`, which saturates at the 64-bit bounds;
  - the `round` helper, which uses Go's truncating `%`;
  - the text `%v` prints for a whole number of seconds (`5s`, `2m0s`, `1h0m0s`),
    with a reader proved to be its inverse.
- `Contexts` is the status context: `ci/cloudbuild`, optionally followed by `/`
  and the `context` form value with everything except ASCII letters and digits
  removed.
- `Endpoint` is `handleReport`. It checks the method and the four required form
  values, resolves the commit SHA from the build's provenance, and starts at most
  one loop.
- `Reconciler` is the polling loop:
  - `StepOnce` is one pass, as a transition over the remembered GitHub state
    (`lastStatus`) and the fixed deadline;
  - `Run` runs a sequence of passes and is the loop's specification;
  - `Reconcile` is the loop itself, a `while` loop with `continue` and `return`
    where the source has them, plus one `return` the source does not have: after
    a failed poll that passed the deadline check (see below). It is proved equal
    to `Run`.

  Each pass receives a `Tick`: what the poll returned, the clock reading taken
  for the deadline check, and what `CreateStatus` answers. That keeps the
  network, the sleep and the clock outside the model.

Times are integers in nanoseconds. The deadline check is strict (`now > deadline`),
as `time.Now().After(timeout)` is.

Behaviour of the code worth knowing:

- When the poll inside the loop fails, the code logs the error, runs the
  deadline check and then reads `b.Status` from the build value the failed call
  returned. The model runs the deadline check and then ends the loop
  (`Exit.Aborted`) without publishing. It does not invent a build for that pass.
- A missing form value is answered with one fixed message that lists all four
  names, not only the missing ones.
- The loop has no exit on a finished build. It keeps polling, and keeps skipping
  the unchanged state, until the deadline passes.
- `lastStatus` holds the status GitHub returned (`lastStatus = s`), so dedup
  compares against the returned state, not the one that was sent.

## Model

| member | source | states |
|---|---|---|
| `Translator.StateOf` | appengine/main.go:137-156 | the switch is total: `pending` exactly for WORKING and QUEUED, `failure` exactly for FAILURE, `success` exactly for SUCCESS, `error` exactly for every status the switch does not name |
| `Translator.StateTextInjective` | appengine/main.go:136-156 | the four states are sent as four different words |
| `Translator.Translate` | appengine/main.go:135-156 | the state is the switch's; the description always starts with the raw status and differs from it exactly when the status is SUCCESS and both timestamps parsed |
| `Translator.SuccessDescription` | appengine/main.go:144-153 | for a timed SUCCESS the description is `SUCCESS (<text>)` and the text reads back as the elapsed time in whole seconds, truncated toward zero |
| `Translator.FiveSecondSuccess` | appengine/main.go:144-153 | a build that finished five seconds after it started is described as `SUCCESS (5s)` |
| `Translator.UnparsedStartTime` | appengine/main.go:149-153 | a SUCCESS whose start time did not parse is described as plain `SUCCESS` |
| `Durations.Elapsed` | appengine/main.go:152 | `finish.Sub(start)` is the exact difference when it fits in 64 bits and otherwise the nearest Duration; its sign is the sign of the true difference |
| `Durations.Rem` | appengine/main.go:147 | Go's `%`: the remainder of the truncated quotient, smaller than the divisor in size, with the sign of the dividend |
| `Durations.Round` | appengine/main.go:146-148 | `round(d)` is a whole number of seconds on the same side of zero as `d`, at most `d` in size, and less than a second away from it |
| `Durations.RoundIsTruncation` | appengine/main.go:146-148 | any whole-second value on the zero side of `d` and less than a second from it is `round(d)`, so `round` is truncation toward zero |
| `Durations.RoundSeconds` | appengine/main.go:146-148 | the seconds `round(d)` keeps are `d / Second` truncated toward zero |
| `Durations.RoundIdempotent` | appengine/main.go:146-148 | rounding a rounded duration changes nothing |
| `Durations.Decimal` | appengine/main.go:152 | the decimal text of a count is non-empty, all digits, and has no leading zero |
| `Durations.DecimalRoundTrip` | appengine/main.go:152 | the decimal text reads back as the number it was made from |
| `Durations.Text` | appengine/main.go:152 | the `%v` text of a whole-second duration ends in `s` and starts with `-` exactly when the duration is negative |
| `Durations.TextRoundTrip` | appengine/main.go:152 | reading the `%v` text of a whole-second duration gives back its number of seconds |
| `Builds.CommitSha` | appengine/main.go:109 | a commit is found exactly when the provenance, its resolved repository source and a non-empty SHA are all present, and it is that SHA |
| `Contexts.Keep` | appengine/main.go:90-98 | the filtered suffix is no longer than the input and holds only ASCII letters and digits |
| `Contexts.KeepMembers` | appengine/main.go:90-98 | a character survives the filter exactly when it is in the input and is an ASCII letter or digit |
| `Contexts.KeepIsSubsequence` | appengine/main.go:90-98 | the filtered suffix is the input with characters left out and the rest in their original order |
| `Contexts.KeepAppend` | appengine/main.go:90-98 | filtering works character by character: filtering a concatenation concatenates the filtered parts |
| `Contexts.KeepFixed` | appengine/main.go:90-98 | the filter leaves a string unchanged exactly when it holds only ASCII letters and digits |
| `Contexts.KeepIdempotent` | appengine/main.go:90-98 | filtering twice is filtering once |
| `Contexts.Label` | appengine/main.go:88-99 | the context starts with `ci/cloudbuild`; it is exactly that when the suffix is empty, and otherwise it continues with `/` and the filtered suffix |
| `Contexts.AllDroppedKeepsSeparator` | appengine/main.go:88-99 | a non-empty suffix with nothing to keep still gives `ci/cloudbuild/`, with the trailing slash |
| `Contexts.ExampleSuffix` | appengine/main.go:88-99 | the suffix `fo!o_1` gives `ci/cloudbuild/foo1` |
| `Endpoint.HandleReport` | appengine/main.go:71-120 | non-POST gets 405; a POST missing any of buildID, project, org or repo gets 400; a failed build lookup gets 500; a build with no commit SHA gets 500; otherwise the handler answers `ok` and starts exactly one loop, on the resolved SHA, the sanitised context, the build's link and a deadline thirty minutes after the loop starts; no other answer starts a loop |
| `Endpoint.NotPost` | appengine/main.go:72-75 | a request that is not a POST is answered 405 with the body `POST please` and starts no loop |
| `Endpoint.MissingRepo` | appengine/main.go:81-84 | a POST without `repo` is answered 400 with the one message that names all four parameters, and starts no loop |
| `Endpoint.AcceptedLoop` | appengine/main.go:114-133 | an accepted request is answered 200 `ok`, and the loop it starts never times out on passes whose clock readings fall within 30 minutes of the handler's |
| `Reconciler.StepOnce` | appengine/main.go:125-181 | one pass stops exactly when the clock is past the deadline or the poll failed, and stops as a timeout exactly in the first case; otherwise it skips the publish exactly when the translated state equals the remembered one; a publish sends the translated status at that pass's time; the remembered state changes only to what an acknowledged publish returned |
| `Reconciler.Run` | appengine/main.go:125-181 | a run makes at most one publish per pass |
| `Reconciler.Reconcile` | appengine/main.go:117-181 | the loop, starting with no remembered state, publishes, remembers and exits exactly as `Run` says, and every publish follows a deadline check whose clock reading was at or before the deadline |
| `Reconciler.RunPastDeadline` | appengine/main.go:130-133 | a pass past the deadline ends the loop as a timeout with no publish, whatever it polled |
| `Reconciler.RunPollFailed` | appengine/main.go:126-135 | a failed poll within the deadline ends the loop with no publish |
| `Reconciler.RunDeduplicated` | appengine/main.go:157-161 | a pass whose state is the remembered one publishes nothing and leaves the remembered state as it was |
| `Reconciler.RunPublished` | appengine/main.go:162-180 | any other pass in time publishes the translated status once, and only an acknowledged answer changes the remembered state |
| `Reconciler.RunRemembersLastAcknowledged` | appengine/main.go:169-180 | at the end of any run the remembered state is what the last acknowledged publish returned; errors and codes above 399 leave it unchanged |
| `Reconciler.RunNeverRepublishes` | appengine/main.go:157-161 | no publish in a run sends the state remembered from the publishes before it |
| `Reconciler.NoRepeatAfterAcknowledged` | appengine/main.go:157-180 | when GitHub echoes the state it was sent, an acknowledged publish is never followed by a publish of the same state |
| `Reconciler.SameStateTwice` | appengine/main.go:157-180 | two passes in time that see the same state publish at most once when the first publish is acknowledged (no error, any code up to 399) and GitHub echoes the state it was sent |
| `Reconciler.RetryAfterRejection` | appengine/main.go:169-179 | a publish that fails with an error or a code above 399 leaves the remembered state alone, and the next pass in time that sees the same state publishes it again |
| `Reconciler.DedupComparesStates` | appengine/main.go:157-161 | with a remembered state, a pass in time skips its publish exactly when the build's state is that state |
| `Reconciler.NeverTimesOutInTime` | appengine/main.go:130-133 | a run whose clock readings are all at or before the deadline never ends as a timeout |
| `Reconciler.RunPublishesInTime` | appengine/main.go:130-133 | every publish of a run happens in a pass whose deadline check passed, and carries the loop's own context and link |
| `Reconciler.RunEndsAtDeadline` | appengine/main.go:130-133 | the first pass past the deadline ends the loop: passes after it change nothing, and only the passes before it can have published |
| `Reconciler.RunningMeansInTime` | appengine/main.go:126-133 | a loop still polling when its passes run out never saw the clock past the deadline or a failed poll |

## Left out

- `client/main.go` is not part of this model. It reads five environment variables, makes one POST and exits with status 1 when the answer's code is above 399.
- Network calls are not modelled. The build lookups and `CreateStatus` are inputs: a `Fetch` result and a `Publish` answer.
- The goroutine, the ten-second sleep and the real clock are not modelled. The clock readings are inputs: `startedAt` for the deadline and `Tick.now` for each check.
- The model covers a finite number of passes; `Exit.Running` says the passes ran out while the loop was still polling.
- Logging is not modelled.
- The credential bootstrap (`token`, `main`) and the App Engine setup are not modelled.
- RFC 3339 parsing is not modelled. A build carries, for each timestamp, the instant it parses to or None.
- Two reply bodies are not modelled because they embed Go's `%q`/`%v` error text and a `spew` dump: the 500 for a failed lookup and the 500 for a missing SHA. Only their codes are modelled.
- Endpoint.FormValue reads one map of form values. It does not model how `net/http` merges the query string with the body.
- Durations.Text: only whole-second durations are modelled, the only ones the handler formats. Go also prints fractions of a second.
- Reconciler.StepOnce: assumes the returned status always has a state. A status without one would make the source's `*lastStatus.State` fail.
- Reconciler.StepOnce: models the failed-poll pass as the end of the loop. The source reads the status of whatever the failed call returned, and the client library that decides what that is is not part of this model.
- Reconciler.Reconcile: does not promise that `CreateStatus` runs before the deadline. It promises only that the deadline check before it passed, because the clock is read only for that check and the call comes later.
- The source's race between loops on the same commit is out of scope. Each loop owns its own state.
