// serve as a state machine: the scheduling goroutine, its workers and its cancellation forwards,
// and the two buffered channels between them. Everything that can happen is an action; which one
// happens next is arbitrary.

module Scheduler {
  import opened Options
  import opened ServeStates

  // A body the control plane sent: none, one that is no strict JSON-RPC object, or an envelope. `id` is
  // None when it is missing, null or no id the bridge admits; `protocol` says whether the protocol
  // version in the result of an initialize is one.
  datatype Body =
    | Empty
    | Opaque
    | Envelope(version2: bool, id: Option<Id>, result: bool, error: bool, goodError: bool, protocol: bool)

  // What came of the last attempt to forward a frame; every answer is possible.
  datatype Answer = Lost | Answered(status: nat, json: bool, body: Body)

  // What forwardRequestContext came back with.
  datatype Outcome = Response(id: Id) | NoBody | TransportError

  // matchingJSONRPCID
  predicate MatchingId(want: Option<Id>, got: Option<Id>) {
    want.Some? && want == got
  }

  // validateRPCResponse
  predicate ValidResponse(meta: Meta, status: nat, body: Body) {
    && body.Envelope? && body.version2 && MatchingId(meta.id, body.id) && body.result != body.error
    && (status >= 400 ==> body.error) && (body.error ==> body.goodError)
  }

  // forwardAttempt, and the check of an initialize result that follows it
  function Forwarded(meta: Meta, answer: Answer): Outcome {
    match answer
    case Lost => TransportError
    case Answered(status, json, body) =>
      if meta.Notification() then (if status == 202 && body.Empty? then NoBody else TransportError)
      else if status == 202 || (status != 200 && !(400 <= status < 500)) || !json then TransportError
      else if !ValidResponse(meta, status, body) then TransportError
      else if meta.rpcMethod == "initialize" && body.result && !body.protocol then TransportError
      else Response(body.id.value)
  }

  datatype Result = Result(token: Token, outcome: Outcome)

  // A frame written to the client: the input frame it answers, the id it carries, and the code if it
  // reports an error of the bridge's own.
  datatype Output = Output(frame: nat, id: Option<Id>, code: Option<int>)

  // What a frame met when it was read: the request it cancels, and how many cancellation forwards were
  // running or had not been received yet.
  datatype Reading = Reading(named: Option<Token>, forwarding: nat)

  datatype Status = Running | ReturnedError | ReturnedNil

  // `workers` and `cancelWorkers` are running goroutines; `results` and `cancelResults` what their
  // channels hold. `frames`, `readings`, `origin`, `cancelled`, `forwards` and `out` record what has
  // happened so far; `forwards` are the requests whose cancellation was forwarded.
  datatype System = System(
    serve: Serve,
    workers: set<Token>,
    results: seq<Result>,
    cancelWorkers: nat,
    cancelResults: nat,
    eof: bool,
    status: Status,
    frames: seq<Frame>,
    readings: seq<Reading>,
    origin: map<Token, nat>,
    cancelled: set<nat>,
    forwards: seq<Token>,
    out: seq<Output>)

  datatype Action =
    | ReadFrame(frame: Frame, last: bool, written: bool)
    | ReadFails(frame: Frame, written: bool)
    | FinishWorker(token: Token, answer: Answer)
    | TakeResult(written: bool)
    | FinishCancelForward
    | TakeCancelResult
    | ReturnDrained

  // A send on a full channel blocks, so a worker finishes only while there is room.
  predicate Enabled(s: System, a: Action) {
    match a
    case ReadFrame(frame, last, written) => s.status.Running? && !s.eof
    case ReadFails(frame, written) => s.status.Running? && !s.eof
    case FinishWorker(token, answer) =>
      token in s.workers && token in s.serve.inflight && |s.results| < MAX_CONCURRENT_REQUESTS
    case TakeResult(written) => s.status.Running? && s.results != []
    case FinishCancelForward => s.cancelWorkers > 0 && s.cancelResults < MAX_CONCURRENT_REQUESTS
    case TakeCancelResult => s.status.Running? && s.cancelResults > 0 && s.serve.cancelForwards > 0
    case ReturnDrained =>
      s.status.Running? && s.eof && s.serve.inflight == map[] && s.serve.cancelForwards == 0
  }

  // A write either succeeds, or makes serve return its error.
  function Write(s: System, frame: nat, id: Option<Id>, code: Option<int>, written: bool): System {
    if written then s.(out := s.out + [Output(frame, id, code)]) else s.(status := ReturnedError)
  }

  // The request in flight that a frame cancels.
  function Named(s: Serve, frame: Frame): Option<Token> {
    if frame.Parsed? && frame.meta.valid && frame.meta.id.None? && frame.meta.rpcMethod == "notifications/cancelled"
       && frame.cancelTarget.Some? && frame.cancelTarget.value in s.requestTokens
       && s.requestTokens[frame.cancelTarget.value] in s.inflight
       && s.inflight[s.requestTokens[frame.cancelTarget.value]].meta.rpcMethod != "initialize"
    then Some(s.requestTokens[frame.cancelTarget.value]) else None
  }

  function ReadingOf(s: System, frame: Frame): Reading {
    Reading(Named(s.serve, frame), s.cancelWorkers + s.cancelResults)
  }

  function CancelledBy(s: System, frame: Frame): set<nat> {
    var named := Named(s.serve, frame);
    if named.Some? && named.value in s.origin then {s.origin[named.value]} else {}
  }

  function Read(s: System, frame: Frame, written: bool): System {
    var n := |s.frames|;
    var (serve, effect) := Handle(s.serve, frame);
    var t := s.(serve := serve, frames := s.frames + [frame], readings := s.readings + [ReadingOf(s, frame)],
                cancelled := s.cancelled + CancelledBy(s, frame));
    match effect
    case Nothing => t
    case Reply(id, code) => Write(t, n, id, Some(code), written)
    case StartWorker(token) => t.(workers := t.workers + {token}, origin := t.origin[token := n])
    case StartCancelForward(token) => t.(cancelWorkers := t.cancelWorkers + 1, forwards := t.forwards + [token])
  }

  // writeForwardResult, for a request that was not cancelled
  function Deliver(s: System, frame: nat, meta: Meta, outcome: Outcome, written: bool): System {
    match outcome
    case Response(id) => Write(s, frame, Some(id), None, written)
    case NoBody => s
    case TransportError =>
      if meta.Notification() then s else Write(s, frame, meta.id, Some(INTERNAL_ERROR), written)
  }

  function Take(s: System, written: bool): System
    requires s.results != []
  {
    var result := s.results[0];
    var (serve, request) := Complete(s.serve, result.token);
    var t := s.(serve := serve, results := s.results[1..]);
    if request.None? || request.value.cancelled || result.token !in s.origin then t
    else Deliver(t, s.origin[result.token], request.value.meta, result.outcome, written)
  }

  function Apply(s: System, a: Action): System
    requires Enabled(s, a)
  {
    match a
    case ReadFrame(frame, last, written) => var t := Read(s, frame, written); t.(eof := t.eof || last)
    case ReadFails(frame, written) => Read(s, frame, written).(status := ReturnedError)
    case FinishWorker(token, answer) =>
      s.(workers := s.workers - {token},
         results := s.results + [Result(token, Forwarded(s.serve.inflight[token].meta, answer))])
    case TakeResult(written) => Take(s, written)
    case FinishCancelForward => s.(cancelWorkers := s.cancelWorkers - 1, cancelResults := s.cancelResults + 1)
    case TakeCancelResult =>
      s.(cancelResults := s.cancelResults - 1,
         serve := s.serve.(cancelForwards := s.serve.cancelForwards - 1))
    case ReturnDrained => s.(status := ReturnedNil)
  }

  const START := System(Serve(map[], map[], 0, 0), {}, [], 0, 0, false, Running, [], [], map[], {}, [], [])

  ghost predicate Next(s: System, t: System) {
    exists a: Action :: Enabled(s, a) && t == Apply(s, a)
  }

  ghost predicate IsRun(run: seq<System>) {
    && |run| > 0 && run[0] == START
    && forall i :: 0 <= i < |run| - 1 ==> Next(run[i], run[i + 1])
  }

  ghost predicate Reachable(s: System) {
    exists run: seq<System> :: IsRun(run) && run[|run| - 1] == s
  }
}
