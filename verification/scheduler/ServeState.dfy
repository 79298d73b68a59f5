// The scheduling state of serve in mcp/main.go and the transitions its one goroutine makes:
// admitting a frame, cancelling a request and completing one.

module ServeStates {
  import opened Options

  const MAX_CONCURRENT_REQUESTS: nat := 8

  // canonicalRequestID prefixes the two kinds apart and the digest is taken to be injective, so a
  // request id stands for its key.
  datatype Id = TextId(text: string) | NumberId(digits: string)

  // requestToken hashes the sequence number with a process nonce; the number stands for the token.
  type Token = nat

  // What parseRequestMeta found. `id` is present when the frame carried a usable one.
  datatype Meta = Meta(valid: bool, id: Option<Id>, rpcMethod: string) {
    predicate Notification() {
      valid && id.None?
    }
  }

  datatype Frame =
    | Oversize
    | Blank
    | Malformed                                        // validateStrictJSON refused the line
    | Parsed(meta: Meta, cancelTarget: Option<Id>)     // cancelTarget is params.requestId

  datatype Inflight = Inflight(meta: Meta, cancelled: bool, cancellationForwarded: bool)

  datatype Serve = Serve(
    inflight: map<Token, Inflight>,
    requestTokens: map<Id, Token>,
    sequence: nat,
    cancelForwards: nat)

  // What handling a frame asks for beyond the change of state.
  datatype Effect =
    | Nothing | Reply(id: Option<Id>, code: int) | StartWorker(token: Token) | StartCancelForward(token: Token)

  const INVALID_REQUEST := -32600
  const PARSE_ERROR := -32700
  const TOO_MANY := -32000
  const INTERNAL_ERROR := -32603

  predicate IsCancellation(meta: Meta) {
    meta.Notification() && meta.rpcMethod == "notifications/cancelled"
  }

  predicate IsIgnored(meta: Meta) {
    meta.Notification() && !("notifications/" <= meta.rpcMethod)
  }

  // The in-flight request a cancellation names; an initialize is never cancelled.
  predicate Cancels(s: Serve, target: Option<Id>) {
    target.Some? && target.value in s.requestTokens && s.requestTokens[target.value] in s.inflight
    && s.inflight[s.requestTokens[target.value]].meta.rpcMethod != "initialize"
  }

  // handleCancellation
  function Cancel(s: Serve, target: Option<Id>): (Serve, Effect) {
    if !Cancels(s, target) then (s, Nothing)
    else
      var token := s.requestTokens[target.value];
      var cancelled := s.inflight[token].(cancelled := true);
      if cancelled.cancellationForwarded || s.cancelForwards >= MAX_CONCURRENT_REQUESTS then
        (s.(inflight := s.inflight[token := cancelled]), Nothing)
      else
        (s.(inflight := s.inflight[token := cancelled.(cancellationForwarded := true)],
            cancelForwards := s.cancelForwards + 1), StartCancelForward(token))
  }

  // Whether handleFrame starts a worker for a frame.
  predicate Admits(s: Serve, frame: Frame) {
    && frame.Parsed? && frame.meta.valid && !IsCancellation(frame.meta) && !IsIgnored(frame.meta)
    && (frame.meta.id.Some? ==> frame.meta.id.value !in s.requestTokens)
    && |s.inflight| < MAX_CONCURRENT_REQUESTS
  }

  function Admit(s: Serve, meta: Meta): Serve {
    var token := s.sequence + 1;
    s.(sequence := token,
       inflight := s.inflight[token := Inflight(meta, false, false)],
       requestTokens := if meta.id.Some? then s.requestTokens[meta.id.value := token] else s.requestTokens)
  }

  // handleFrame
  function Handle(s: Serve, frame: Frame): (Serve, Effect) {
    match frame
    case Oversize => (s, Reply(None, INVALID_REQUEST))
    case Blank => (s, Nothing)
    case Malformed => (s, Reply(None, PARSE_ERROR))
    case Parsed(meta, target) =>
      if !meta.valid then (s, Reply(meta.id, INVALID_REQUEST))
      else if IsCancellation(meta) then Cancel(s, target)
      else if IsIgnored(meta) then (s, Nothing)
      else if meta.id.Some? && meta.id.value in s.requestTokens then (s, Reply(meta.id, INVALID_REQUEST))
      else if |s.inflight| >= MAX_CONCURRENT_REQUESTS then
        (s, if meta.Notification() then Nothing else Reply(meta.id, TOO_MANY))
      else (Admit(s, meta), StartWorker(s.sequence + 1))
  }

  // completeRequest
  function Complete(s: Serve, token: Token): (Serve, Option<Inflight>) {
    if token !in s.inflight then (s, None)
    else
      var request := s.inflight[token];
      var id := request.meta.id;
      var tokens := if id.Some? && id.value in s.requestTokens && s.requestTokens[id.value] == token
                    then s.requestTokens - {id.value} else s.requestTokens;
      (s.(inflight := s.inflight - {token}, requestTokens := tokens), Some(request))
  }

  class ServeState {
    var inflight: map<Token, Inflight>
    var requestTokens: map<Id, Token>
    var sequence: nat
    var cancelForwards: nat

    constructor ()
      ensures View() == Serve(map[], map[], 0, 0)
    {
      inflight, requestTokens, sequence, cancelForwards := map[], map[], 0, 0;
    }

    ghost function View(): Serve
      reads this
    {
      Serve(inflight, requestTokens, sequence, cancelForwards)
    }

    method CompleteRequest(token: Token) returns (request: Option<Inflight>)
      modifies this
      ensures (View(), request) == Complete(old(View()), token)
    {
      if token !in inflight {
        return None;
      }
      request := Some(inflight[token]);
      inflight := inflight - {token};
      var id := request.value.meta.id;
      if id.Some? && id.value in requestTokens && requestTokens[id.value] == token {
        requestTokens := requestTokens - {id.value};
      }
    }

    method HandleCancellation(target: Option<Id>) returns (effect: Effect)
      modifies this
      ensures (View(), effect) == Cancel(old(View()), target)
    {
      effect := Nothing;
      if target.None? || target.value !in requestTokens {
        return;
      }
      var token := requestTokens[target.value];
      ghost var before := inflight;
      if token !in inflight || inflight[token].meta.rpcMethod == "initialize" {
        return;
      }
      inflight := inflight[token := inflight[token].(cancelled := true)];
      if inflight[token].cancellationForwarded {
        return;
      }
      if cancelForwards >= MAX_CONCURRENT_REQUESTS {
        return;
      }
      inflight := inflight[token := inflight[token].(cancellationForwarded := true)];
      assert inflight == before[token := inflight[token]];
      cancelForwards := cancelForwards + 1;
      effect := StartCancelForward(token);
    }

    method HandleFrame(frame: Frame) returns (effect: Effect)
      modifies this
      ensures (View(), effect) == Handle(old(View()), frame)
    {
      if frame.Oversize? {
        return Reply(None, INVALID_REQUEST);
      }
      if frame.Blank? {
        return Nothing;
      }
      if frame.Malformed? {
        return Reply(None, PARSE_ERROR);
      }
      var meta := frame.meta;
      if !meta.valid {
        return Reply(meta.id, INVALID_REQUEST);
      }
      if meta.Notification() && meta.rpcMethod == "notifications/cancelled" {
        effect := HandleCancellation(frame.cancelTarget);
        return;
      }
      if meta.Notification() && !("notifications/" <= meta.rpcMethod) {
        return Nothing;
      }
      if meta.id.Some? && meta.id.value in requestTokens {
        return Reply(meta.id, INVALID_REQUEST);
      }
      if |inflight| >= MAX_CONCURRENT_REQUESTS {
        if meta.Notification() {
          return Nothing;
        }
        return Reply(meta.id, TOO_MANY);
      }
      sequence := sequence + 1;
      var token := sequence;
      inflight := inflight[token := Inflight(meta, false, false)];
      if meta.id.Some? {
        requestTokens := requestTokens[meta.id.value := token];
      }
      effect := StartWorker(token);
    }
  }
}
