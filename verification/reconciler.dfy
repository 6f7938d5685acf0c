/** The polling loop the handler starts for an accepted build. Each pass
    polls the build, stops once the clock is past the deadline, translates
    the status, skips the publish when GitHub already holds that state, and
    otherwise publishes; only an acknowledged publish changes the state the
    loop remembers, so a rejected one is tried again on the next pass.

    The network calls, the goroutine, the ten-second sleep and the clock are
    not part of this model: each pass receives a Tick holding what the poll
    returned, the clock reading taken for the deadline check, and what the
    publish call would answer. A finite sequence of ticks stands for the
    passes the loop is given. */
module Reconciler {
  import opened Wrappers
  import opened Builds
  import opened Translator

  /** 30 * time.Minute, in nanoseconds. */
  const Budget: int := 30 * 60 * 1_000_000_000

  /** What one loop is fixed to when it starts: the build it polls, the
      commit it reports on, its context, its link and its deadline. */
  datatype Watch = Watch(
    project: string,
    buildID: string,
    org: string,
    repo: string,
    sha: string,
    context: string,
    targetURL: string,
    deadline: int)

  /** The link every status carries. */
  function TargetURL(buildID: string, project: string): string
  {
    "https://goto.google.com/cloudbuild/" + buildID + "?project=" + project
  }

  /** The github.RepoStatus the loop sends. */
  datatype StatusReport = StatusReport(
    context: string,
    state: CommitState,
    targetURL: string,
    description: string)

  /** What CreateStatus answers: an error, or an HTTP response with the
      status code and the state of the status GitHub returned. */
  datatype Publish = TransportError | Answered(code: int, state: string)

  /** A publish the loop treats as done: no error and a code below 400. */
  predicate Acknowledged(p: Publish)
  {
    p.Answered? && p.code <= 399
  }

  /** What one pass of the loop receives from the world. */
  datatype Tick = Tick(poll: Fetch, now: int, publish: Publish)

  /** One call to CreateStatus: the clock reading of the deadline check
      that let it through (the call itself comes later), what was sent,
      and what came back. */
  datatype Attempt = Attempt(checkedAt: int, report: StatusReport, outcome: Publish)

  /** How the loop ended: the deadline passed; the poll failed and the build
      it returned was read anyway; or the ticks ran out while it was still
      polling. */
  datatype Exit = TimedOut | Aborted | Running

  datatype Step = Stop(exit: Exit) | Next(last: Option<string>, attempt: Option<Attempt>)

  /** The status a pass would publish for a polled build. */
  function Candidate(w: Watch, b: Build): StatusReport
  {
    var t := Translate(b);
    StatusReport(w.context, t.state, w.targetURL, t.description)
  }

  /** The state remembered after an optional attempt. */
  function Recorded(last: Option<string>, attempt: Option<Attempt>): Option<string>
  {
    if attempt.Some? && Acknowledged(attempt.value.outcome)
    then Some(attempt.value.outcome.state)
    else last
  }

  /** One pass of the loop, from the state GitHub last acknowledged. */
  function StepOnce(w: Watch, last: Option<string>, t: Tick): (s: Step)
    ensures s.Stop? <==> t.now > w.deadline || t.poll.FetchFailed?
    ensures s.Stop? ==> s.exit != Running && (s.exit == TimedOut <==> t.now > w.deadline)
    ensures s.Next? ==> (s.attempt.None? <==> last == Some(StateText(Translate(t.poll.build).state)))
    ensures s.Next? && s.attempt.Some? ==>
      s.attempt.value == Attempt(t.now, Candidate(w, t.poll.build), t.publish)
    ensures s.Next? ==> s.last == Recorded(last, s.attempt)
  {
    if t.now > w.deadline then Stop(TimedOut)
    else match t.poll
      case FetchFailed => Stop(Aborted)
      case Fetched(b) =>
        var report := Candidate(w, b);
        if last.Some? && last.value == StateText(report.state) then Next(last, None)
        else
          var a := Attempt(t.now, report, t.publish);
          match t.publish
          case TransportError => Next(last, Some(a))
          case Answered(code, returned) =>
            if code > 399 then Next(last, Some(a)) else Next(Some(returned), Some(a))
  }

  /** The publishes made, the state remembered at the end, and the exit. */
  datatype Outcome = Outcome(attempts: seq<Attempt>, last: Option<string>, exit: Exit)

  function AsSeq(a: Option<Attempt>): seq<Attempt>
  {
    if a.Some? then [a.value] else []
  }

  /** `prefix` publishes followed by what `o` describes. */
  function Then(prefix: seq<Attempt>, o: Outcome): Outcome
  {
    Outcome(prefix + o.attempts, o.last, o.exit)
  }

  /** The loop run over a sequence of passes, from a remembered state. */
  function Run(w: Watch, last: Option<string>, ticks: seq<Tick>): (o: Outcome)
    ensures |o.attempts| <= |ticks|
    decreases |ticks|
  {
    if ticks == [] then Outcome([], last, Running)
    else match StepOnce(w, last, ticks[0])
      case Stop(exit) => Outcome([], last, exit)
      case Next(next, attempt) => Then(AsSeq(attempt), Run(w, next, ticks[1..]))
  }

  /** A pass past the deadline ends the loop before anything else. */
  lemma RunPastDeadline(w: Watch, last: Option<string>, ticks: seq<Tick>)
    requires ticks != [] && ticks[0].now > w.deadline
    ensures Run(w, last, ticks) == Outcome([], last, TimedOut)
  {
  }

  lemma RunPollFailed(w: Watch, last: Option<string>, ticks: seq<Tick>)
    requires ticks != [] && ticks[0].now <= w.deadline && ticks[0].poll.FetchFailed?
    ensures Run(w, last, ticks) == Outcome([], last, Aborted)
  {
  }

  lemma RunDeduplicated(w: Watch, last: Option<string>, ticks: seq<Tick>)
    requires ticks != [] && ticks[0].now <= w.deadline && ticks[0].poll.Fetched?
    requires last == Some(StateText(Translate(ticks[0].poll.build).state))
    ensures Run(w, last, ticks) == Run(w, last, ticks[1..])
  {
  }

  lemma RunPublished(w: Watch, last: Option<string>, ticks: seq<Tick>)
    requires ticks != [] && ticks[0].now <= w.deadline && ticks[0].poll.Fetched?
    requires last != Some(StateText(Translate(ticks[0].poll.build).state))
    ensures var a := Attempt(ticks[0].now, Candidate(w, ticks[0].poll.build), ticks[0].publish);
      Run(w, last, ticks) == Then([a], Run(w, Recorded(last, Some(a)), ticks[1..]))
  {
  }

  lemma ThenThen(xs: seq<Attempt>, ys: seq<Attempt>, o: Outcome)
    ensures Then(xs, Then(ys, o)) == Then(xs + ys, o)
  {
  }

  /** The goroutine's `for` loop: lastStatus starts nil and changes only on
      an acknowledged publish. */
  method Reconcile(w: Watch, ticks: seq<Tick>) returns (attempts: seq<Attempt>, last: Option<string>, exit: Exit)
    ensures Outcome(attempts, last, exit) == Run(w, None, ticks)
    ensures forall k :: 0 <= k < |attempts| ==> attempts[k].checkedAt <= w.deadline
  {
    attempts, last, exit := [], None, Running;
    var i := 0;
    while i < |ticks|
      invariant 0 <= i <= |ticks|
      invariant Run(w, None, ticks) == Then(attempts, Run(w, last, ticks[i..]))
      invariant forall k :: 0 <= k < |attempts| ==> attempts[k].checkedAt <= w.deadline
    {
      var tick := ticks[i];
      ghost var rest := ticks[i..];
      assert rest[0] == tick && rest[1..] == ticks[i + 1..];
      i := i + 1;
      if tick.now > w.deadline {
        RunPastDeadline(w, last, rest);
        exit := TimedOut;
        return;
      }
      if tick.poll.FetchFailed? {
        RunPollFailed(w, last, rest);
        exit := Aborted;
        return;
      }
      var t := Translate(tick.poll.build);
      if last.Some? && last.value == StateText(t.state) {
        RunDeduplicated(w, last, rest);
        continue;
      }
      var report := StatusReport(w.context, t.state, w.targetURL, t.description);
      var a := Attempt(tick.now, report, tick.publish);
      RunPublished(w, last, rest);
      ThenThen(attempts, [a], Run(w, Recorded(last, Some(a)), ticks[i..]));
      attempts := attempts + [a];
      if tick.publish.TransportError? {
        continue;
      }
      if tick.publish.code > 399 {
        continue;
      }
      last := Some(tick.publish.state);
    }
  }

  /** The state the loop remembers after a run of attempts: what GitHub
      returned for the last acknowledged one, or `init` if none was. */
  function LastAcknowledged(init: Option<string>, attempts: seq<Attempt>): Option<string>
    decreases |attempts|
  {
    if attempts == [] then init
    else
      var a := attempts[|attempts| - 1];
      if Acknowledged(a.outcome) then Some(a.outcome.state)
      else LastAcknowledged(init, attempts[..|attempts| - 1])
  }

  lemma {:induction false} LastAcknowledgedAppend(init: Option<string>, xs: seq<Attempt>, ys: seq<Attempt>)
    ensures LastAcknowledged(init, xs + ys) == LastAcknowledged(LastAcknowledged(init, xs), ys)
    decreases |ys|
  {
    if ys == [] {
      assert xs + ys == xs;
    } else {
      assert (xs + ys)[..|xs + ys| - 1] == xs + ys[..|ys| - 1];
      LastAcknowledgedAppend(init, xs, ys[..|ys| - 1]);
    }
  }

  /** Only acknowledged publishes change the remembered state: at the end of
      any run it is what the last acknowledged publish returned. */
  lemma {:induction false} RunRemembersLastAcknowledged(w: Watch, last: Option<string>, ticks: seq<Tick>)
    ensures Run(w, last, ticks).last == LastAcknowledged(last, Run(w, last, ticks).attempts)
    decreases |ticks|
  {
    if ticks != [] {
      match StepOnce(w, last, ticks[0])
      case Stop(_) =>
      case Next(next, attempt) =>
        RunRemembersLastAcknowledged(w, next, ticks[1..]);
        LastAcknowledgedAppend(last, AsSeq(attempt), Run(w, next, ticks[1..]).attempts);
        assert LastAcknowledged(last, AsSeq(attempt)) == next;
    }
  }

  /** No attempt sends the state remembered from the attempts before it. */
  ghost predicate Deduplicated(init: Option<string>, attempts: seq<Attempt>)
  {
    forall j :: 0 <= j < |attempts| ==>
      LastAcknowledged(init, attempts[..j]) != Some(StateText(attempts[j].report.state))
  }

  /** Dedup is kept when a run is put after an optional first attempt that
      itself does not repeat the remembered state. */
  lemma DeduplicatedPrepend(init: Option<string>, first: seq<Attempt>, rest: seq<Attempt>)
    requires |first| <= 1
    requires first != [] ==> init != Some(StateText(first[0].report.state))
    requires Deduplicated(LastAcknowledged(init, first), rest)
    ensures Deduplicated(init, first + rest)
  {
    var all := first + rest;
    forall j | 0 <= j < |all|
      ensures LastAcknowledged(init, all[..j]) != Some(StateText(all[j].report.state))
    {
      if j < |first| {
        assert all[..j] == [];
      } else {
        var k := j - |first|;
        assert all[..j] == first + rest[..k];
        assert all[j] == rest[k];
        LastAcknowledgedAppend(init, first, rest[..k]);
      }
    }
  }

  /** Dedup: no publish ever sends the state GitHub last acknowledged. */
  lemma {:induction false} RunNeverRepublishes(w: Watch, last: Option<string>, ticks: seq<Tick>)
    ensures Deduplicated(last, Run(w, last, ticks).attempts)
    decreases |ticks|
  {
    if ticks != [] {
      match StepOnce(w, last, ticks[0])
      case Stop(_) =>
      case Next(next, attempt) =>
        RunNeverRepublishes(w, next, ticks[1..]);
        assert LastAcknowledged(last, AsSeq(attempt)) == next;
        assert attempt.Some? ==> attempt.value.report == Candidate(w, ticks[0].poll.build);
        DeduplicatedPrepend(last, AsSeq(attempt), Run(w, next, ticks[1..]).attempts);
    }
  }

  /** When GitHub echoes the state it was sent, an acknowledged publish is
      never followed by a publish of the same state. */
  lemma NoRepeatAfterAcknowledged(w: Watch, last: Option<string>, ticks: seq<Tick>, j: nat)
    requires j + 1 < |Run(w, last, ticks).attempts|
    requires var a := Run(w, last, ticks).attempts[j];
      Acknowledged(a.outcome) && a.outcome.state == StateText(a.report.state)
    ensures Run(w, last, ticks).attempts[j + 1].report.state != Run(w, last, ticks).attempts[j].report.state
  {
    var o := Run(w, last, ticks);
    RunNeverRepublishes(w, last, ticks);
    assert o.attempts[..j + 1][j] == o.attempts[j];
  }

  /** Every publish happens in a pass whose deadline check passed, and
      carries the loop's own context and link. */
  lemma {:induction false} RunPublishesInTime(w: Watch, last: Option<string>, ticks: seq<Tick>)
    ensures forall a :: a in Run(w, last, ticks).attempts ==>
      a.checkedAt <= w.deadline && a.report.context == w.context && a.report.targetURL == w.targetURL
    decreases |ticks|
  {
    if ticks != [] {
      match StepOnce(w, last, ticks[0])
      case Stop(_) =>
      case Next(next, attempt) =>
        RunPublishesInTime(w, next, ticks[1..]);
    }
  }

  /** The first pass past the deadline ends the loop: nothing after it
      matters, and only the passes before it can have published. */
  lemma {:induction false} RunEndsAtDeadline(w: Watch, last: Option<string>, ticks: seq<Tick>, i: nat)
    requires i < |ticks| && ticks[i].now > w.deadline
    ensures Run(w, last, ticks) == Run(w, last, ticks[..i + 1])
    ensures Run(w, last, ticks).exit != Running
    ensures |Run(w, last, ticks).attempts| <= i
    decreases i
  {
    var cut := ticks[..i + 1];
    assert cut[0] == ticks[0];
    if i > 0 {
      match StepOnce(w, last, ticks[0])
      case Stop(_) =>
      case Next(next, attempt) =>
        assert cut[1..] == ticks[1..][..i];
        RunEndsAtDeadline(w, next, ticks[1..], i - 1);
    }
  }

  /** A loop still polling when its passes run out never saw the clock past
      the deadline nor a failed poll. */
  lemma {:induction false} RunningMeansInTime(w: Watch, last: Option<string>, ticks: seq<Tick>)
    requires Run(w, last, ticks).exit == Running
    ensures forall i :: 0 <= i < |ticks| ==> ticks[i].now <= w.deadline && ticks[i].poll.Fetched?
    decreases |ticks|
  {
    if ticks != [] {
      match StepOnce(w, last, ticks[0])
      case Stop(_) =>
      case Next(next, attempt) =>
        RunningMeansInTime(w, next, ticks[1..]);
        forall i | 1 <= i < |ticks|
          ensures ticks[i].now <= w.deadline && ticks[i].poll.Fetched?
        {
          assert ticks[i] == ticks[1..][i - 1];
        }
    }
  }

  /** A rejected publish leaves the remembered state alone, so the next pass
      in time that sees the same state publishes it again. */
  lemma RetryAfterRejection(w: Watch, last: Option<string>, t1: Tick, t2: Tick)
    requires StepOnce(w, last, t1).Next? && StepOnce(w, last, t1).attempt.Some?
    requires !Acknowledged(t1.publish)
    requires t2.now <= w.deadline && t2.poll.Fetched?
    requires Translate(t2.poll.build).state == Translate(t1.poll.build).state
    ensures StepOnce(w, last, t1).last == last
    ensures var s := StepOnce(w, last, t2);
      s.Next? && s.attempt.Some? && s.attempt.value.report.state == Translate(t1.poll.build).state
  {
  }

  /** Two passes in time that see the same state publish at most once when
      the first publish is acknowledged (any code up to 399) and GitHub
      echoes the state it was sent. */
  lemma SameStateTwice(w: Watch, last: Option<string>, t1: Tick, t2: Tick)
    requires t1.now <= w.deadline && t1.poll.Fetched? && t2.now <= w.deadline && t2.poll.Fetched?
    requires Translate(t1.poll.build).state == Translate(t2.poll.build).state
    requires Acknowledged(t1.publish) && t1.publish.state == StateText(Translate(t1.poll.build).state)
    ensures var s1 := StepOnce(w, last, t1);
      s1.Next? && !(s1.attempt.Some? && StepOnce(w, s1.last, t2).attempt.Some?)
  {
  }

  /** With a remembered state that names a commit state, a pass in time
      skips its publish exactly when the build's state is that one. */
  lemma DedupComparesStates(w: Watch, remembered: CommitState, t: Tick)
    requires t.now <= w.deadline && t.poll.Fetched?
    ensures var s := StepOnce(w, Some(StateText(remembered)), t);
      s.Next? && (s.attempt.None? <==> Translate(t.poll.build).state == remembered)
  {
    StateTextInjective(Translate(t.poll.build).state, remembered);
  }

  /** A run whose every clock reading is at or before the deadline never
      ends as a timeout. */
  lemma {:induction false} NeverTimesOutInTime(w: Watch, last: Option<string>, ticks: seq<Tick>)
    requires forall i :: 0 <= i < |ticks| ==> ticks[i].now <= w.deadline
    ensures Run(w, last, ticks).exit != TimedOut
    decreases |ticks|
  {
    if ticks != [] {
      match StepOnce(w, last, ticks[0])
      case Stop(_) =>
      case Next(next, attempt) =>
        forall i | 0 <= i < |ticks[1..]|
          ensures ticks[1..][i].now <= w.deadline
        {
          assert ticks[1..][i] == ticks[i + 1];
        }
        NeverTimesOutInTime(w, next, ticks[1..]);
    }
  }
}
