/** The browser client's response interceptor: a 403 on a request not yet
    retried triggers one call to the refresh-token endpoint and a replay of
    the request; after a failed refresh the request's promise resolves with
    a redirect response to `/login` (the router's `redirect` only builds that
    response; outside a route loader nothing navigates). */
module ClientRetry {

  /** What the server did with one attempt: answered with a status, or
      never answered (a network failure, where the error has no response). */
  datatype Answer = Reply(status: nat) | NoResponse

  /** How the request's promise settles for the caller. `Crashed` is the
      rejection raised when the interceptor reads the status of a missing
      response. */
  datatype Settled =
    | Resolved(answer: Answer)
    | Rejected(answer: Answer)
    | RedirectedTo(path: string)  // resolved with a redirect response to `path`
    | Crashed

  /** A settled request with the number of refresh calls it made and the
      number of times the request itself was sent. */
  datatype Run = Run(settled: Settled, refreshes: nat, sends: nat)

  const LoginPath := "/login"

  /** Axios's default status test: 2xx resolves, anything else is an error
      handed to the interceptor. */
  predicate Succeeds(a: Answer) {
    a.Reply? && 200 <= a.status < 300
  }

  /** The request with its `_retry` flag `retried`, sent as attempt number
      `attempt`; `serve` answers each attempt and `refreshOk` says whether
      the refresh-token call succeeds. */
  function Handle(retried: bool, attempt: nat, serve: nat -> Answer, refreshOk: bool): (r: Run)
    ensures r.refreshes <= 1
    ensures retried ==> r.refreshes == 0 && r.sends == 1
    ensures r.sends == (if r.refreshes == 1 && refreshOk then 2 else 1)
    ensures r.settled.RedirectedTo? ==> r.settled.path == LoginPath && r.refreshes == 1 && !refreshOk
    decreases if retried then 0 else 1
  {
    var a := serve(attempt);
    if Succeeds(a) then Run(Resolved(a), 0, 1)
    else if a.NoResponse? then Run(Crashed, 0, 1)
    else if a.status == 403 && !retried then
      if !refreshOk then Run(RedirectedTo(LoginPath), 1, 1)
      else
        var replay := Handle(true, attempt + 1, serve, refreshOk);
        Run(replay.settled, replay.refreshes + 1, replay.sends + 1)
    else Run(Rejected(a), 0, 1)
  }

  /** How a request settles, from its first answer and, after a refresh, the
      replay's answer: success passes through unchanged; an error other than
      403 (or a 403 on a request already retried) is rejected unchanged; a
      first 403 refreshes once and then settles as the replay does, with a
      second 403 rejected rather than refreshed again; a failed refresh ends
      in a redirect response to `/login`. */
  lemma HandleVerdict(retried: bool, attempt: nat, serve: nat -> Answer, refreshOk: bool)
    ensures var r := Handle(retried, attempt, serve, refreshOk);
      var a := serve(attempt);
      && (Succeeds(a) ==> r == Run(Resolved(a), 0, 1))
      && (a.Reply? && !Succeeds(a) && (a.status != 403 || retried) ==> r == Run(Rejected(a), 0, 1))
      && (a == Reply(403) && !retried && !refreshOk ==> r == Run(RedirectedTo("/login"), 1, 1))
      && (a == Reply(403) && !retried && refreshOk ==>
            var b := serve(attempt + 1);
            && r.refreshes == 1 && r.sends == 2
            && r.settled == (if Succeeds(b) then Resolved(b) else if b.NoResponse? then Crashed else Rejected(b)))
  {
  }

  /** Whatever the server answers, a request is sent at most twice and
      causes at most one refresh call; a redirect response to `/login`
      comes only through a failed refresh. */
  lemma AtMostOneRefresh(serve: nat -> Answer, refreshOk: bool)
    ensures Handle(false, 0, serve, refreshOk).refreshes <= 1
    ensures Handle(false, 0, serve, refreshOk).sends <= 2
    ensures Handle(false, 0, serve, refreshOk).settled.RedirectedTo? ==> !refreshOk
    ensures refreshOk ==> !Handle(false, 0, serve, refreshOk).settled.RedirectedTo?
  {
  }
}
