/** The HTTP handler: it checks the method and the four required form
    values, builds the status context, looks the build up once to find its
    commit, and only then answers "ok" and starts one polling loop. */
module Endpoint {
  import opened Wrappers
  import opened Builds
  import Contexts
  import Reconciler

  /** The parts of the request the handler reads: its method (`verb`) and its form
      values (a missing key reads as ""). */
  datatype Request = Request(verb: string, form: map<string, string>)

  function FormValue(r: Request, key: string): string
  {
    if key in r.form then r.form[key] else ""
  }

  /** All four required form values are non-empty. */
  predicate HasParameters(r: Request)
  {
    FormValue(r, "buildID") != "" && FormValue(r, "project") != ""
    && FormValue(r, "org") != "" && FormValue(r, "repo") != ""
  }

  /** The handler's possible answers. */
  datatype Reply = MethodNotAllowed | MissingParameter | LookupFailed | MissingCommitSha | Accepted

  function StatusCode(r: Reply): int
  {
    match r
    case MethodNotAllowed => 405
    case MissingParameter => 400
    case LookupFailed => 500
    case MissingCommitSha => 500
    case Accepted => 200
  }

  /** The body of the answers whose text does not depend on the failure;
      http.Error ends its message with a newline. */
  function FixedBody(r: Reply): Option<string>
  {
    match r
    case MethodNotAllowed => Some("POST please\n")
    case MissingParameter => Some("Missing parameter buildID, project, org, or repo.\n")
    case Accepted => Some("ok")
    case _ => None
  }

  /** The answer, and the loop started for it, if any. */
  datatype Handled = Handled(reply: Reply, watch: Option<Reconciler.Watch>)

  /** handleReport, given what the build lookup returns and the clock
      reading the loop takes for its deadline. */
  function HandleReport(r: Request, lookup: Fetch, startedAt: int): (h: Handled)
    ensures h.watch.Some? <==> h.reply == Accepted
    ensures h.reply == MethodNotAllowed <==> r.verb != "POST"
    ensures h.reply == MissingParameter <==> r.verb == "POST" && !HasParameters(r)
    ensures h.reply == LookupFailed <==> r.verb == "POST" && HasParameters(r) && lookup.FetchFailed?
    ensures h.reply == MissingCommitSha <==>
      r.verb == "POST" && HasParameters(r) && lookup.Fetched? && CommitSha(lookup.build).None?
    ensures h.reply == Accepted ==>
      var w := h.watch.value;
      && lookup.Fetched? && Some(w.sha) == CommitSha(lookup.build) && w.sha != ""
      && w.buildID == FormValue(r, "buildID") && w.project == FormValue(r, "project")
      && w.org == FormValue(r, "org") && w.repo == FormValue(r, "repo")
      && w.context == Contexts.Label(FormValue(r, "context"))
      && w.targetURL == Reconciler.TargetURL(w.buildID, w.project)
      && w.deadline == startedAt + Reconciler.Budget
  {
    if r.verb != "POST" then Handled(MethodNotAllowed, None)
    else
      var id := FormValue(r, "buildID");
      var proj := FormValue(r, "project");
      var org := FormValue(r, "org");
      var repo := FormValue(r, "repo");
      if id == "" || proj == "" || org == "" || repo == "" then Handled(MissingParameter, None)
      else
        var context := Contexts.Label(FormValue(r, "context"));
        match lookup
        case FetchFailed => Handled(LookupFailed, None)
        case Fetched(b) =>
          match CommitSha(b)
          case None => Handled(MissingCommitSha, None)
          case Some(sha) =>
            var url := Reconciler.TargetURL(id, proj);
            Handled(Accepted, Some(Reconciler.Watch(proj, id, org, repo, sha, context, url, startedAt + Reconciler.Budget)))
  }

  /** Anything but a POST is answered 405 with "POST please" and starts no loop. */
  lemma NotPost(r: Request, lookup: Fetch, startedAt: int)
    requires r.verb != "POST"
    ensures StatusCode(HandleReport(r, lookup, startedAt).reply) == 405
    ensures FixedBody(HandleReport(r, lookup, startedAt).reply) == Some("POST please\n")
    ensures HandleReport(r, lookup, startedAt).watch.None?
  {
  }

  /** A POST without "repo" is answered 400 with the message naming all four
      parameters, and starts no loop. */
  lemma MissingRepo(r: Request, lookup: Fetch, startedAt: int)
    requires r.verb == "POST" && FormValue(r, "repo") == ""
    ensures StatusCode(HandleReport(r, lookup, startedAt).reply) == 400
    ensures FixedBody(HandleReport(r, lookup, startedAt).reply) ==
      Some("Missing parameter buildID, project, org, or repo.\n")
    ensures HandleReport(r, lookup, startedAt).watch.None?
  {
  }

  /** An accepted request is answered 200 "ok", and the loop it starts does
      not time out during the 30 minutes after the handler's clock reading. */
  lemma AcceptedLoop(r: Request, lookup: Fetch, startedAt: int, ticks: seq<Reconciler.Tick>)
    requires HandleReport(r, lookup, startedAt).reply == Accepted
    requires forall i :: 0 <= i < |ticks| ==> ticks[i].now <= startedAt + Reconciler.Budget
    ensures StatusCode(HandleReport(r, lookup, startedAt).reply) == 200
    ensures FixedBody(HandleReport(r, lookup, startedAt).reply) == Some("ok")
    ensures Reconciler.Run(HandleReport(r, lookup, startedAt).watch.value, None, ticks).exit != Reconciler.TimedOut
  {
    Reconciler.NeverTimesOutInTime(HandleReport(r, lookup, startedAt).watch.value, None, ticks);
  }
}
