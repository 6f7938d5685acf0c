/** The translation of a Cloud Build status into a GitHub commit status and
    its description. */
module Translator {
  import opened Wrappers
  import opened Builds
  import Durations

  /** The four states a GitHub commit status can take. */
  datatype CommitState = Pending | Success | Failure | Error

  /** The word sent to GitHub for a state. */
  function StateText(s: CommitState): string
  {
    match s
    case Pending => "pending"
    case Success => "success"
    case Failure => "failure"
    case Error => "error"
  }

  lemma StateTextInjective(a: CommitState, b: CommitState)
    ensures StateText(a) == StateText(b) ==> a == b
  {
  }

  /** The Cloud Build statuses the switch names. */
  const NamedStatuses: set<string> := {"WORKING", "QUEUED", "FAILURE", "SUCCESS"}

  /** The status switch: every status string maps to exactly one state,
      with `error` for every status the switch does not name. */
  function StateOf(status: string): (s: CommitState)
    ensures s == Pending <==> status == "WORKING" || status == "QUEUED"
    ensures s == Failure <==> status == "FAILURE"
    ensures s == Success <==> status == "SUCCESS"
    ensures s == Error <==> status !in NamedStatuses
  {
    if status == "WORKING" then Pending
    else if status == "QUEUED" then Pending
    else if status == "FAILURE" then Failure
    else if status == "SUCCESS" then Success
    else Error
  }

  datatype Translation = Translation(state: CommitState, description: string)

  /** Both timestamps of the build parsed. */
  predicate Timed(b: Build)
  {
    b.startTime.Some? && b.finishTime.Some?
  }

  /** `%v` of round(finish.Sub(start)). */
  function ElapsedText(start: int, finish: int): string
  {
    Durations.Text(Durations.Round(Durations.Elapsed(start, finish)))
  }

  /** One pass of the switch: the state, and a description that is the raw
      status, with the elapsed time appended for a SUCCESS whose two
      timestamps parsed. */
  function Translate(b: Build): (t: Translation)
    ensures t.state == StateOf(b.status)
    ensures b.status <= t.description
    ensures t.description != b.status <==> b.status == "SUCCESS" && Timed(b)
  {
    var state := StateOf(b.status);
    var description :=
      if state == Success && Timed(b)
      then b.status + " (" + ElapsedText(b.startTime.value, b.finishTime.value) + ")"
      else b.status;
    Translation(state, description)
  }

  /** For a timed SUCCESS the description is "SUCCESS (<text>)", and the
      text reads back as the elapsed time in whole seconds, truncated toward
      zero. */
  lemma SuccessDescription(b: Build)
    requires b.status == "SUCCESS" && Timed(b)
    ensures var d := Translate(b).description;
      var e := Durations.Elapsed(b.startTime.value, b.finishTime.value);
      && |d| > 10 && d[..9] == "SUCCESS (" && d[|d| - 1] == ')'
      && Durations.Read(d[9..|d| - 1]) == Some(Durations.Quot(e, Durations.Second))
  {
    var e := Durations.Elapsed(b.startTime.value, b.finishTime.value);
    var r := Durations.Round(e);
    var text := Durations.Text(r);
    assert Translate(b).description == "SUCCESS (" + text + ")";
    Parenthesised(text);
    Durations.TextRoundTrip(r);
    Durations.RoundSeconds(e);
  }

  lemma Parenthesised(text: string)
    ensures var d := "SUCCESS (" + text + ")";
      d[..9] == "SUCCESS (" && d[9..|d| - 1] == text && d[|d| - 1] == ')'
  {
  }

  /** A build that finished five seconds after it started. */
  lemma FiveSecondSuccess(t: int)
    ensures Translate(Build("SUCCESS", Some(t), Some(t + 5 * Durations.Second), None))
      == Translation(Success, "SUCCESS (5s)")
  {
  }

  /** A SUCCESS whose start time did not parse keeps the bare description. */
  lemma UnparsedStartTime(finish: Option<int>)
    ensures Translate(Build("SUCCESS", None, finish, None)) == Translation(Success, "SUCCESS")
  {
  }
}
