/** Responses as the idempotency middleware stores and replays them. */
module Responses {
  import opened Common

  const REPLAY_HEADER := "Idempotency-Replayed"

  datatype Response = Response(status: int, body: string, contentType: Option<string>, headers: map<string, string>)

  predicate Successful(r: Response) {
    200 <= r.status < 300
  }

  function AsReplay(r: Response): Response {
    r.(headers := r.headers[REPLAY_HEADER := "true"])
  }

  // The replayed response is the stored one, marked as a replay: nothing else differs.
  ghost predicate Replays(replay: Response, r: Response) {
    replay.status == r.status && replay.body == r.body && replay.contentType == r.contentType &&
    "Idempotency-Replayed" in replay.headers && replay.headers["Idempotency-Replayed"] == "true" &&
    forall name :: name != "Idempotency-Replayed" ==>
      (name in replay.headers <==> name in r.headers) &&
      (name in r.headers ==> replay.headers[name] == r.headers[name])
  }

  lemma {:induction false} AsReplayReplays(r: Response)
    ensures Replays(AsReplay(r), r)
    ensures Successful(r) <==> 200 <= r.status <= 299
  {
  }

  // How a handler ends: with a response, or by an exception or cancellation.
  datatype Result = Responded(response: Response) | Raised
}
