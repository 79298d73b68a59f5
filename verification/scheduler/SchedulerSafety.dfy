// Bounded concurrency, channels that never block, and exactly one outcome for every request, over
// every interleaving of the scheduler's actions.

module SchedulerSafety {
  import opened Options
  import opened Scheduler
  import opened ServeStates

  // ---------------------------------------------------------------- the invariant

  // requestTokens is the exact inverse of the ids in flight.
  ghost predicate IdsOk(s: Serve) {
    && (forall id <- s.requestTokens ::
          s.requestTokens[id] in s.inflight && s.inflight[s.requestTokens[id]].meta.id == Some(id))
    && (forall t <- s.inflight :: s.inflight[t].meta.id.Some? ==>
          var id := s.inflight[t].meta.id.value; id in s.requestTokens && s.requestTokens[id] == t)
    && (forall t <- s.inflight :: t <= s.sequence)
  }

  // Every request in flight is a running worker or a buffered result, and not both.
  ghost predicate ChannelsOk(s: System) {
    && |s.workers| + |s.results| == |s.serve.inflight| <= MAX_CONCURRENT_REQUESTS
    && (forall t <- s.workers :: t in s.serve.inflight)
    && (forall r <- s.results :: r.token in s.serve.inflight && r.token !in s.workers
                                 && Possible(s.serve.inflight[r.token].meta, r.outcome))
    && (forall i, j :: 0 <= i < j < |s.results| ==> s.results[i].token != s.results[j].token)
    && s.serve.cancelForwards == s.cancelWorkers + s.cancelResults <= MAX_CONCURRENT_REQUESTS
  }

  // The outcomes that settle a request: an answer carries the request's own id, and only a notification
  // goes without a body.
  predicate Possible(meta: Meta, outcome: Outcome) {
    match outcome
    case Response(id) => meta.id == Some(id)
    case NoBody => meta.id.None?
    case TransportError => true
  }

  // Whatever the control plane answers, an answer that is passed on carries the request's id.
  lemma ForwardedIsPossible(meta: Meta, answer: Answer)
    ensures Possible(meta, Forwarded(meta, answer))
    ensures Forwarded(meta, answer).Response? <==>
              && !(meta.valid && meta.id.None?) && answer.Answered? && answer.json
              && (answer.status == 200 || 400 <= answer.status < 500)
              && var body := answer.body;
                 && body.Envelope? && body.version2 && meta.id.Some? && body.id == meta.id
                 && (body.result <==> !body.error) && (answer.status >= 400 ==> body.error)
                 && (body.error ==> body.goodError)
                 && (meta.rpcMethod == "initialize" && body.result ==> body.protocol)
    ensures Forwarded(meta, answer).NoBody? <==>
              meta.valid && meta.id.None? && answer.Answered? && answer.status == 202 && answer.body.Empty?
  {
  }

  ghost predicate CameFrom(s: System, t: Token, f: nat) {
    t in s.origin && s.origin[t] == f
  }

  // Every request in flight came from one frame of its own.
  ghost predicate OriginsOk(s: System) {
    && (forall t <- s.serve.inflight ::
          && t in s.origin && s.origin[t] < |s.frames|
          && s.frames[s.origin[t]].Parsed? && s.frames[s.origin[t]].meta == s.serve.inflight[t].meta
          && s.serve.inflight[t].meta.valid
          && (s.serve.inflight[t].cancelled <==> s.origin[t] in s.cancelled))
    && (forall t, u :: t in s.serve.inflight && u in s.serve.inflight && t != u ==> s.origin[t] != s.origin[u])
    && (forall f <- s.cancelled :: f < |s.frames|)
  }

  ghost predicate IsInflight(s: System, f: nat) {
    exists t <- s.serve.inflight :: CameFrom(s, t, f)
  }

  function IdOf(frame: Frame): Option<Id> {
    if frame.Parsed? then frame.meta.id else None
  }

  predicate IsRequest(frame: Frame) {
    frame.Parsed? && frame.meta.valid && frame.meta.id.Some?
  }

  // Frames nobody waits for an answer to.
  predicate IsSilent(frame: Frame) {
    frame.Blank? || (frame.Parsed? && frame.meta.Notification())
  }

  function Answers(out: seq<Output>, f: nat): nat {
    if out == [] then 0 else (if out[0].frame == f then 1 else 0) + Answers(out[1..], f)
  }

  ghost function Due(s: System, f: nat): nat
    requires f < |s.frames|
  {
    if IsInflight(s, f) || f in s.cancelled || IsSilent(s.frames[f]) then 0 else 1
  }

  ghost predicate OutputOk(s: System, o: Output) {
    o.frame < |s.frames| && o.id == IdOf(s.frames[o.frame])
  }

  ghost predicate AnswersOk(s: System) {
    && (forall o <- s.out :: OutputOk(s, o))
    && (!s.status.ReturnedError? ==> forall f: nat :: f < |s.frames| ==> Answers(s.out, f) == Due(s, f))
  }

  ghost predicate Inv(s: System) {
    IdsOk(s.serve) && ChannelsOk(s) && OriginsOk(s) && AnswersOk(s)
    && (s.status.ReturnedNil? ==> s.eof && s.serve.inflight == map[] && s.serve.cancelForwards == 0)
  }

  // ---------------------------------------------------------------- outputs

  lemma {:induction false} AnswersAppend(out: seq<Output>, o: Output, f: nat)
    ensures Answers(out + [o], f) == Answers(out, f) + if o.frame == f then 1 else 0
  {
    if out != [] {
      AnswersAppend(out[1..], o, f);
      assert (out + [o])[1..] == out[1..] + [o];
    }
  }

  lemma {:induction false} NoAnswersYet(s: System, f: nat)
    requires (forall o <- s.out :: OutputOk(s, o)) && f >= |s.frames|
    ensures Answers(s.out, f) == 0
  {
    NoneFrom(s.out, f, |s.frames|);
  }

  lemma {:induction false} NoneFrom(out: seq<Output>, f: nat, n: nat)
    requires (forall o <- out :: o.frame < n) && f >= n
    ensures Answers(out, f) == 0
  {
    if out != [] {
      assert out[0] in out;
      NoneFrom(out[1..], f, n);
    }
  }

  // A write settles the one frame that was still due.
  lemma WriteSettles(s: System, frame: nat, id: Option<Id>, code: Option<int>, written: bool)
    requires frame < |s.frames| && id == IdOf(s.frames[frame]) && s.status.Running?
    requires forall o <- s.out :: OutputOk(s, o)
    requires Answers(s.out, frame) == 0 && Due(s, frame) == 1
    requires forall f: nat :: f < |s.frames| && f != frame ==> Answers(s.out, f) == Due(s, f)
    ensures AnswersOk(Write(s, frame, id, code, written))
  {
    var t := Write(s, frame, id, code, written);
    forall f: nat | f < |t.frames| && written ensures Answers(t.out, f) == Due(t, f) {
      AnswersAppend(s.out, Output(frame, id, code), f);
      assert IsInflight(t, f) == IsInflight(s, f);
    }
  }

  // ---------------------------------------------------------------- frames

  lemma AdmitKeepsIds(s: Serve, meta: Meta)
    requires IdsOk(s) && (meta.id.Some? ==> meta.id.value !in s.requestTokens)
    ensures IdsOk(Admit(s, meta)) && s.sequence + 1 !in s.inflight
    ensures |Admit(s, meta).inflight| == |s.inflight| + 1
  {
    var t, token := Admit(s, meta), s.sequence + 1;
    assert t.inflight == s.inflight[token := Inflight(meta, false, false)] && t.sequence == token;
    if meta.id.Some? {
      NewIdKeepsIds(s, t, token, meta.id.value);
    }
  }

  lemma NewIdKeepsIds(s: Serve, t: Serve, token: Token, id: Id)
    requires IdsOk(s) && token !in s.inflight && id !in s.requestTokens && token in t.inflight
    requires t.inflight == s.inflight[token := t.inflight[token]] && t.inflight[token].meta.id == Some(id)
    requires t.requestTokens == s.requestTokens[id := token] && s.sequence <= t.sequence && token <= t.sequence
    ensures IdsOk(t)
  {
    forall other <- t.requestTokens
      ensures t.requestTokens[other] in t.inflight && t.inflight[t.requestTokens[other]].meta.id == Some(other)
    {
      assert other == id || other in s.requestTokens;
    }
    forall u <- t.inflight | t.inflight[u].meta.id.Some?
      ensures t.inflight[u].meta.id.value in t.requestTokens && t.requestTokens[t.inflight[u].meta.id.value] == u
    {
      assert u == token || u in s.inflight;
    }
  }

  // Reading a frame, before any reply to it is written.
  function Logged(s: System, frame: Frame): System {
    s.(frames := s.frames + [frame], readings := s.readings + [ReadingOf(s, frame)])
  }

  lemma LoggingKeepsDues(s: System, frame: Frame)
    requires Inv(s) && s.status.Running?
    ensures var t := Logged(s, frame);
            && OriginsOk(t) && (forall o <- t.out :: OutputOk(t, o))
            && (forall f: nat :: f < |s.frames| ==> Answers(t.out, f) == Due(t, f))
            && Answers(t.out, |s.frames|) == 0
            && !IsInflight(t, |s.frames|) && |s.frames| !in t.cancelled
  {
    var t := Logged(s, frame);
    NoAnswersYet(s, |s.frames|);
    forall f: nat | f < |s.frames| ensures Answers(t.out, f) == Due(t, f) {
      assert IsInflight(t, f) == IsInflight(s, f);
      assert t.frames[f] == s.frames[f];
    }
    forall o <- t.out ensures OutputOk(t, o) {
      assert OutputOk(s, o);
    }
  }

  lemma ReadReplies(s: System, frame: Frame, id: Option<Id>, code: int, written: bool)
    requires Handle(s.serve, frame) == (s.serve, Reply(id, code)) && !(frame.Parsed? && IsCancellation(frame.meta))
    ensures Read(s, frame, written) == Write(Logged(s, frame), |s.frames|, id, Some(code), written)
  {
  }

  lemma WriteKeepsRest(s: System, frame: nat, id: Option<Id>, code: Option<int>, written: bool)
    requires s.status.Running?
    ensures var t := Write(s, frame, id, code, written);
            t == s.(out := t.out, status := t.status) && !t.status.ReturnedNil?
  {
  }

  // The channels and the requests in flight do not depend on what was written.
  lemma SameRest(s: System, t: System)
    requires ChannelsOk(s) && OriginsOk(s) && t == s.(out := t.out, status := t.status, eof := t.eof)
    ensures ChannelsOk(t) && OriginsOk(t)
  {
  }

  lemma LoggedKeepsRest(s: System, frame: Frame)
    requires Inv(s) && s.status.Running?
    ensures var t := Logged(s, frame);
            && IdsOk(t.serve) && ChannelsOk(t) && t.status.Running?
            && |t.frames| == |s.frames| + 1 && t.frames[|s.frames|] == frame
  {
  }

  lemma NewFrameDue(s: System, frame: Frame)
    requires !IsInflight(Logged(s, frame), |s.frames|) && |s.frames| !in s.cancelled
    ensures Due(Logged(s, frame), |s.frames|) == if IsSilent(frame) then 0 else 1
  {
  }

  lemma Together(s: System)
    requires IdsOk(s.serve) && ChannelsOk(s) && OriginsOk(s) && AnswersOk(s) && !s.status.ReturnedNil?
    ensures Inv(s)
  {
  }

  lemma LoggedIs(s: System, frame: Frame)
    ensures Logged(s, frame) == s.(frames := s.frames + [frame], readings := s.readings + [ReadingOf(s, frame)])
  {
  }

  lemma ReplyKeepsInv(s: System, frame: Frame, id: Option<Id>, code: int, written: bool)
    requires Inv(s) && s.status.Running? && Handle(s.serve, frame) == (s.serve, Reply(id, code))
    requires id == IdOf(frame) && !IsSilent(frame) && !(frame.Parsed? && IsCancellation(frame.meta))
    ensures Inv(Read(s, frame, written))
  {
    hide *;
    LoggingKeepsDues(s, frame);
    LoggedKeepsRest(s, frame);
    LoggedIs(s, frame);
    NewFrameDue(s, frame);
    ReadReplies(s, frame, id, code, written);
    var t, n := Logged(s, frame), |s.frames|;
    WriteSettles(t, n, id, Some(code), written);
    WriteKeepsRest(t, n, id, Some(code), written);
    SameRest(t, Write(t, n, id, Some(code), written));
    Together(Write(t, n, id, Some(code), written));
  }

  lemma SilentlyRead(s: System, frame: Frame, written: bool)
    requires Handle(s.serve, frame) == (s.serve, Nothing) && CancelledBy(s, frame) == {}
    ensures Read(s, frame, written) == Logged(s, frame)
  {
  }

  lemma AllAnswered(s: System)
    requires (forall o <- s.out :: OutputOk(s, o)) && forall f: nat :: f < |s.frames| ==> Answers(s.out, f) == Due(s, f)
    ensures AnswersOk(s)
  {
  }

  lemma SilenceKeepsInv(s: System, frame: Frame, written: bool)
    requires Inv(s) && s.status.Running? && Handle(s.serve, frame) == (s.serve, Nothing)
    requires IsSilent(frame) && CancelledBy(s, frame) == {}
    ensures Inv(Read(s, frame, written))
  {
    hide *;
    LoggingKeepsDues(s, frame);
    LoggedKeepsRest(s, frame);
    LoggedIs(s, frame);
    NewFrameDue(s, frame);
    SilentlyRead(s, frame, written);
    AllAnswered(Logged(s, frame));
    Together(Logged(s, frame));
  }

  function Admitted(s: System, frame: Frame): System
    requires frame.Parsed?
  {
    var token := s.serve.sequence + 1;
    s.(serve := Admit(s.serve, frame.meta), workers := s.workers + {token},
       origin := s.origin[token := |s.frames|], frames := s.frames + [frame],
       readings := s.readings + [ReadingOf(s, frame)])
  }

  lemma ReadAdmits(s: System, frame: Frame, written: bool)
    requires Admits(s.serve, frame)
    ensures Read(s, frame, written) == Admitted(s, frame)
  {
  }

  lemma WorkerKeepsChannels(s: System, t: System, token: Token)
    requires ChannelsOk(s) && token !in s.serve.inflight
    requires t.workers == s.workers + {token} && t.results == s.results
    requires t.cancelWorkers == s.cancelWorkers && t.cancelResults == s.cancelResults
    requires t.serve.cancelForwards == s.serve.cancelForwards
    requires token in t.serve.inflight && |t.serve.inflight| == |s.serve.inflight| + 1 <= MAX_CONCURRENT_REQUESTS
    requires forall u <- s.serve.inflight :: u in t.serve.inflight && t.serve.inflight[u] == s.serve.inflight[u]
    ensures ChannelsOk(t)
  {
  }

  lemma AdmissionKeepsChannels(s: System, frame: Frame)
    requires Inv(s) && Admits(s.serve, frame)
    ensures IdsOk(Admitted(s, frame).serve) && ChannelsOk(Admitted(s, frame))
  {
    hide AnswersOk, OriginsOk, ChannelsOk, Handle, IsCancellation, IsIgnored;
    AdmitKeepsIds(s.serve, frame.meta);
    WorkerKeepsChannels(s, Admitted(s, frame), s.serve.sequence + 1);
  }

  lemma WorkerKeepsOrigins(s: System, t: System, frame: Frame, token: Token)
    requires OriginsOk(s) && token !in s.serve.inflight && frame.Parsed? && frame.meta.valid
    requires t.frames == s.frames + [frame] && t.origin == s.origin[token := |s.frames|] && t.cancelled == s.cancelled
    requires t.serve.inflight == s.serve.inflight[token := Inflight(frame.meta, false, false)]
    ensures OriginsOk(t)
    ensures forall f: nat :: f < |s.frames| ==> (IsInflight(t, f) <==> IsInflight(s, f))
    ensures IsInflight(t, |s.frames|)
  {
    assert CameFrom(t, token, |s.frames|);
    forall f: nat | f < |s.frames| ensures IsInflight(t, f) <==> IsInflight(s, f) {
      StaysInflight(s, t, f);
    }
    hide IsInflight, CameFrom;
    AdmittedOrigins(s, t, token);
  }

  lemma AdmittedOrigins(s: System, t: System, token: Token)
    requires OriginsOk(s) && token !in s.serve.inflight && s.frames <= t.frames && t.cancelled == s.cancelled
    requires |t.frames| == |s.frames| + 1 && t.frames[|s.frames|].Parsed? && t.frames[|s.frames|].meta.valid
    requires t.origin == s.origin[token := |s.frames|]
    requires t.serve.inflight == s.serve.inflight[token := Inflight(t.frames[|s.frames|].meta, false, false)]
    ensures OriginsOk(t)
  {
    forall u <- t.serve.inflight
      ensures && u in t.origin && t.origin[u] < |t.frames|
              && t.frames[t.origin[u]].Parsed? && t.frames[t.origin[u]].meta == t.serve.inflight[u].meta
              && t.serve.inflight[u].meta.valid
              && (t.serve.inflight[u].cancelled <==> t.origin[u] in t.cancelled)
    {
      assert u == token || u in s.serve.inflight;
    }
  }

  lemma AdmissionKeepsOrigins(s: System, frame: Frame)
    requires Inv(s) && Admits(s.serve, frame)
    ensures OriginsOk(Admitted(s, frame))
    ensures forall f: nat :: f < |s.frames| ==> (IsInflight(Admitted(s, frame), f) <==> IsInflight(s, f))
    ensures IsInflight(Admitted(s, frame), |s.frames|)
  {
    hide AnswersOk, ChannelsOk, Handle, IsCancellation, IsIgnored;
    AdmitKeepsIds(s.serve, frame.meta);
    WorkerKeepsOrigins(s, Admitted(s, frame), frame, s.serve.sequence + 1);
  }

  // The answers stay right when a frame is logged and what is due for it is nothing.
  lemma LoggedAnswers(s: System, t: System, frame: Frame)
    requires AnswersOk(s) && s.status.Running? && t.out == s.out && t.frames == s.frames + [frame]
    requires forall f: nat :: f < |s.frames| ==> Due(t, f) == Due(s, f)
    requires Due(t, |s.frames|) == 0
    ensures AnswersOk(t)
  {
    hide Due;
    NoAnswersYet(s, |s.frames|);
    forall f: nat | f < |t.frames| ensures Answers(t.out, f) == Due(t, f) {
    }
    forall o <- t.out ensures OutputOk(t, o) {
      assert OutputOk(s, o);
    }
  }

  lemma AdmissionKeepsInv(s: System, frame: Frame)
    requires Inv(s) && s.status.Running? && Admits(s.serve, frame)
    ensures Inv(Admitted(s, frame))
  {
    AdmissionKeepsChannels(s, frame);
    AdmissionKeepsOrigins(s, frame);
    hide IsInflight, Admits, OriginsOk, ChannelsOk, IdsOk, Admit;
    LoggedAnswers(s, Admitted(s, frame), frame);
  }

  lemma StaysInflight(s: System, t: System, f: nat)
    requires forall x <- s.serve.inflight :: x in t.serve.inflight && (CameFrom(s, x, f) <==> CameFrom(t, x, f))
    requires forall x <- t.serve.inflight :: CameFrom(t, x, f) ==> x in s.serve.inflight
    ensures IsInflight(s, f) <==> IsInflight(t, f)
  {
  }

  lemma ReadCancels(s: System, frame: Frame, written: bool)
    requires Inv(s) && frame.Parsed? && frame.meta.valid && IsCancellation(frame.meta)
    requires Cancels(s.serve, frame.cancelTarget)
    ensures var (serve, effect) := Cancel(s.serve, frame.cancelTarget);
            Read(s, frame, written) ==
            s.(serve := serve, frames := s.frames + [frame], readings := s.readings + [ReadingOf(s, frame)],
               forwards := s.forwards + if effect.StartCancelForward? then [effect.token] else [],
               cancelled := s.cancelled + {s.origin[s.serve.requestTokens[frame.cancelTarget.value]]},
               cancelWorkers := s.cancelWorkers + if effect.StartCancelForward? then 1 else 0)
  {
    hide AnswersOk, ChannelsOk;
    assert Handle(s.serve, frame) == Cancel(s.serve, frame.cancelTarget);
  }

  // What a cancellation leaves of the serve state.
  lemma CancelMarks(s: Serve, target: Option<Id>)
    requires IdsOk(s) && Cancels(s, target)
    ensures var (t, effect) := Cancel(s, target);
            var token := s.requestTokens[target.value];
            && IdsOk(t) && t.inflight.Keys == s.inflight.Keys && |t.inflight| == |s.inflight|
            && (forall u <- s.inflight ::
                  && t.inflight[u].meta == s.inflight[u].meta
                  && (t.inflight[u].cancelled <==> s.inflight[u].cancelled || u == token))
            && t.cancelForwards == s.cancelForwards + (if effect.StartCancelForward? then 1 else 0)
            && (effect.StartCancelForward? ==> s.cancelForwards < MAX_CONCURRENT_REQUESTS)
  {
    var t, token := Cancel(s, target).0, s.requestTokens[target.value];
    assert |t.inflight.Keys| == |t.inflight| && |s.inflight.Keys| == |s.inflight|;
    assert t.inflight == s.inflight[token := t.inflight[token]] && t.inflight[token].meta == s.inflight[token].meta;
    MarkKeepsIds(s, t, token);
  }

  lemma MarkKeepsIds(s: Serve, t: Serve, token: Token)
    requires IdsOk(s) && token in s.inflight && token in t.inflight
    requires t.inflight == s.inflight[token := t.inflight[token]] && t.inflight[token].meta == s.inflight[token].meta
    requires t.requestTokens == s.requestTokens && t.sequence == s.sequence
    ensures IdsOk(t)
  {
  }

  // A state that differs from `s` by one cancelled request and one more frame.
  ghost predicate Marks(s: System, t: System, token: Token, forwarded: bool) {
    && token in s.serve.inflight
    && t == s.(serve := t.serve, frames := t.frames, readings := t.readings, cancelled := t.cancelled,
               forwards := t.forwards, cancelWorkers := s.cancelWorkers + if forwarded then 1 else 0)
    && |t.frames| == |s.frames| + 1 && t.frames[..|s.frames|] == s.frames
    && t.serve.inflight.Keys == s.serve.inflight.Keys && |t.serve.inflight| == |s.serve.inflight|
    && (forall u <- s.serve.inflight ::
          && t.serve.inflight[u].meta == s.serve.inflight[u].meta
          && (t.serve.inflight[u].cancelled <==> s.serve.inflight[u].cancelled || u == token))
    && t.serve.cancelForwards == s.serve.cancelForwards + (if forwarded then 1 else 0) <= MAX_CONCURRENT_REQUESTS
  }

  lemma MarksKeepChannels(s: System, t: System, token: Token, forwarded: bool)
    requires ChannelsOk(s) && Marks(s, t, token, forwarded)
    ensures ChannelsOk(t)
  {
  }

  lemma MarksKeepOrigins(s: System, t: System, token: Token, forwarded: bool)
    requires OriginsOk(s) && Marks(s, t, token, forwarded) && t.cancelled == s.cancelled + {s.origin[token]}
    ensures OriginsOk(t) && IsInflight(s, s.origin[token])
    ensures forall f: nat :: IsInflight(t, f) <==> IsInflight(s, f)
  {
    assert CameFrom(s, token, s.origin[token]);
    forall g: nat ensures IsInflight(t, g) <==> IsInflight(s, g) {
      StaysInflight(s, t, g);
    }
    hide IsInflight, CameFrom;
    assert t.frames == s.frames + [t.frames[|s.frames|]];
    MarkedOrigins(s, t, token);
  }

  lemma MarkedOrigins(s: System, t: System, token: Token)
    requires OriginsOk(s) && token in s.serve.inflight && t.cancelled == s.cancelled + {s.origin[token]}
    requires s.frames <= t.frames && t.origin == s.origin && t.serve.inflight.Keys == s.serve.inflight.Keys
    requires forall u <- s.serve.inflight ::
               && t.serve.inflight[u].meta == s.serve.inflight[u].meta
               && (t.serve.inflight[u].cancelled <==> s.serve.inflight[u].cancelled || u == token)
    ensures OriginsOk(t)
  {
    forall u <- t.serve.inflight
      ensures && u in t.origin && t.origin[u] < |t.frames|
              && t.frames[t.origin[u]].Parsed? && t.frames[t.origin[u]].meta == t.serve.inflight[u].meta
              && t.serve.inflight[u].meta.valid
              && (t.serve.inflight[u].cancelled <==> t.origin[u] in t.cancelled)
    {
      assert u in s.serve.inflight;
    }
  }

  lemma MarksKeepInv(s: System, t: System, frame: Frame, token: Token, forwarded: bool)
    requires Inv(s) && s.status.Running? && IsSilent(frame) && IdsOk(t.serve) && Marks(s, t, token, forwarded)
    requires t.frames == s.frames + [frame] && t.cancelled == s.cancelled + {s.origin[token]}
    ensures Inv(t)
  {
    hide *;
    InvParts(s);
    MarksAre(s, t, token, forwarded);
    MarksKeepChannels(s, t, token, forwarded);
    MarksKeepOrigins(s, t, token, forwarded);
    NewFrameNotInflight(s);
    SameDues(s, t, frame);
    LoggedAnswers(s, t, frame);
    Together(t);
  }

  lemma InvParts(s: System)
    requires Inv(s)
    ensures ChannelsOk(s) && OriginsOk(s) && AnswersOk(s)
  {
  }

  lemma MarksAre(s: System, t: System, token: Token, forwarded: bool)
    requires Marks(s, t, token, forwarded) && OriginsOk(s)
    ensures t.out == s.out && t.status == s.status && t.origin == s.origin
    ensures token in s.origin && s.origin[token] < |s.frames|
  {
  }

  // One more frame nobody waits for, and one cancelled in flight, leave what is due as it was.
  lemma SameDues(s: System, t: System, frame: Frame)
    requires t.frames == s.frames + [frame] && IsSilent(frame)
    requires forall f: nat :: IsInflight(t, f) <==> IsInflight(s, f)
    requires exists c: nat :: IsInflight(s, c) && t.cancelled == s.cancelled + {c}
    ensures forall f: nat :: f < |s.frames| ==> Due(t, f) == Due(s, f)
    ensures Due(t, |s.frames|) == 0
  {
  }

  lemma CancellationKeepsInv(s: System, frame: Frame, written: bool)
    requires Inv(s) && s.status.Running?
    requires frame.Parsed? && frame.meta.valid && IsCancellation(frame.meta)
    requires Cancels(s.serve, frame.cancelTarget)
    ensures Inv(Read(s, frame, written))
  {
    hide Read, Cancel, IsInflight, OriginsOk, ChannelsOk, IdsOk, Handle, CancelledBy, AnswersOk;
    ReadCancels(s, frame, written);
    CancelMarks(s.serve, frame.cancelTarget);
    ForwardsBounded(s);
    var forwarded := Cancel(s.serve, frame.cancelTarget).1.StartCancelForward?;
    MarksKeepInv(s, Read(s, frame, written), frame, s.serve.requestTokens[frame.cancelTarget.value], forwarded);
  }

  lemma ForwardsBounded(s: System)
    requires ChannelsOk(s)
    ensures s.serve.cancelForwards <= MAX_CONCURRENT_REQUESTS
  {
  }

  lemma NewFrameNotInflight(s: System)
    requires OriginsOk(s)
    ensures !IsInflight(s, |s.frames|) && |s.frames| !in s.cancelled
  {
  }

  lemma ReadKeepsInv(s: System, frame: Frame, written: bool)
    requires Inv(s) && s.status.Running?
    ensures Inv(Read(s, frame, written))
  {
    hide Inv, Read;
    var effect := Handle(s.serve, frame).1;
    if Admits(s.serve, frame) {
      ReadAdmits(s, frame, written);
      AdmissionKeepsInv(s, frame);
    } else if frame.Parsed? && frame.meta.valid && IsCancellation(frame.meta)
              && Cancels(s.serve, frame.cancelTarget) {
      CancellationKeepsInv(s, frame, written);
    } else if effect.Reply? {
      ReplyKeepsInv(s, frame, effect.id, effect.code, written);
    } else {
      SilenceKeepsInv(s, frame, written);
    }
  }

  // ---------------------------------------------------------------- results

  lemma CompleteKeepsIds(s: Serve, token: Token)
    requires IdsOk(s) && token in s.inflight
    ensures var t := Complete(s, token).0;
            && IdsOk(t) && t.inflight == s.inflight - {token} && |t.inflight| == |s.inflight| - 1
            && t.cancelForwards == s.cancelForwards
    ensures Complete(s, token).1 == Some(s.inflight[token])
  {
  }

  // The state after a result was taken, before anything is written for it.
  function Taken(s: System): System
    requires s.results != []
  {
    s.(serve := Complete(s.serve, s.results[0].token).0, results := s.results[1..])
  }

  lemma TakingKeepsChannels(s: System, t: System)
    requires ChannelsOk(s) && s.results != []
    requires t == s.(serve := t.serve, results := s.results[1..])
    requires t.serve.inflight == s.serve.inflight - {s.results[0].token}
    requires |t.serve.inflight| == |s.serve.inflight| - 1 && t.serve.cancelForwards == s.serve.cancelForwards
    ensures ChannelsOk(t)
  {
  }

  lemma TakingKeepsOrigins(s: System, t: System)
    requires OriginsOk(s) && s.results != [] && s.results[0].token in s.serve.inflight
    requires t == s.(serve := t.serve, results := s.results[1..])
    requires t.serve.inflight == s.serve.inflight - {s.results[0].token}
    ensures OriginsOk(t)
    ensures var f := s.origin[s.results[0].token];
            && f < |s.frames| && IsInflight(s, f) && !IsInflight(t, f)
            && (forall g: nat :: g != f ==> (IsInflight(t, g) <==> IsInflight(s, g)))
  {
    var token := s.results[0].token;
    var f := s.origin[token];
    assert CameFrom(s, token, f);
    forall g: nat | g != f ensures IsInflight(t, g) <==> IsInflight(s, g) {
      if x :| x in s.serve.inflight && CameFrom(s, x, g) {
        assert x in t.serve.inflight && CameFrom(t, x, g);
      } else if x :| x in t.serve.inflight && CameFrom(t, x, g) {
        assert x in s.serve.inflight && CameFrom(s, x, g);
      }
    }
  }

  lemma TakingKeepsRest(s: System)
    requires Inv(s) && s.status.Running? && s.results != []
    ensures var t := Taken(s);
            var f := s.origin[s.results[0].token];
            && IdsOk(t.serve) && ChannelsOk(t) && OriginsOk(t) && f < |t.frames|
            && (forall o <- t.out :: OutputOk(t, o))
            && !IsInflight(t, f) && Answers(t.out, f) == 0
            && (forall g: nat :: g < |t.frames| && g != f ==> Answers(t.out, g) == Due(t, g))
  {
    var t, token := Taken(s), s.results[0].token;
    FirstResult(s);
    CompleteKeepsIds(s.serve, token);
    TakingKeepsChannels(s, t);
    TakingKeepsOrigins(s, t);
    hide IsInflight, Complete, IdsOk, ChannelsOk, OriginsOk, Due, Answers, OutputOk, AnswersOk;
    assert t.out == s.out && t.frames == s.frames && t.cancelled == s.cancelled;
    TakenDues(s, t, s.origin[token]);
  }

  // Taking a result off the channel makes its frame due, and changes what is due for no other.
  lemma TakenDues(s: System, t: System, f: nat)
    requires AnswersOk(s) && s.status.Running? && f < |s.frames|
    requires t.out == s.out && t.frames == s.frames && t.cancelled == s.cancelled
    requires IsInflight(s, f) && forall g: nat :: g != f ==> (IsInflight(t, g) <==> IsInflight(s, g))
    ensures forall o <- t.out :: OutputOk(t, o)
    ensures Answers(t.out, f) == 0
    ensures forall g: nat :: g < |t.frames| && g != f ==> Answers(t.out, g) == Due(t, g)
  {
    hide IsInflight, Answers, IsSilent;
    forall o <- t.out ensures OutputOk(t, o) {
      assert OutputOk(s, o);
    }
    forall g: nat | g < |t.frames| && g != f ensures Answers(t.out, g) == Due(t, g) {
      assert Due(s, g) == Due(t, g);
    }
    assert Answers(s.out, f) == Due(s, f);
  }

  lemma FirstResult(s: System)
    requires Inv(s) && s.results != []
    ensures s.results[0].token in s.serve.inflight && s.results[0].token in s.origin
    ensures IdsOk(s.serve) && ChannelsOk(s) && OriginsOk(s) && AnswersOk(s)
  {
    assert s.results[0] in s.results;
    hide IdsOk, AnswersOk;
  }

  lemma TakeIs(s: System, written: bool)
    requires s.results != [] && s.results[0].token in s.serve.inflight && s.results[0].token in s.origin
    ensures var result := s.results[0];
            var request := s.serve.inflight[result.token];
            Take(s, written) ==
            if request.cancelled then Taken(s)
            else Deliver(Taken(s), s.origin[result.token], request.meta, result.outcome, written)
  {
  }

  // The frame a result answers.
  lemma AnsweredFrame(s: System)
    requires Inv(s) && s.results != []
    ensures var result := s.results[0];
            && result.token in s.serve.inflight && result.token in s.origin
            && (var f, request := s.origin[result.token], s.serve.inflight[result.token];
                && f < |s.frames| && s.frames[f].Parsed? && s.frames[f].meta == request.meta
                && request.meta.valid && Possible(request.meta, result.outcome)
                && (request.cancelled <==> f in s.cancelled))
  {
  }

  // What a result makes serve write settles its frame.
  lemma DeliverySettles(s: System, f: nat, meta: Meta, outcome: Outcome, written: bool)
    requires f < |s.frames| && s.frames[f].Parsed? && s.frames[f].meta == meta && meta.valid
    requires Possible(meta, outcome) && s.status.Running? && !IsInflight(s, f) && f !in s.cancelled
    requires forall o <- s.out :: OutputOk(s, o)
    requires Answers(s.out, f) == 0
    requires forall g: nat :: g < |s.frames| && g != f ==> Answers(s.out, g) == Due(s, g)
    ensures AnswersOk(Deliver(s, f, meta, outcome, written))
  {
    hide IsInflight;
    if meta.id.Some? {
      assert Due(s, f) == 1;
      WriteSettles(s, f, meta.id, if outcome.Response? then None else Some(INTERNAL_ERROR), written);
    } else {
      assert Due(s, f) == 0;
    }
  }

  lemma TakeKeepsAnswers(s: System, written: bool)
    requires Inv(s) && Enabled(s, TakeResult(written))
    ensures AnswersOk(Take(s, written))
  {
    AnsweredFrame(s);
    TakingKeepsRest(s);
    TakeIs(s, written);
    var t, result := Taken(s), s.results[0];
    var f, request := s.origin[result.token], s.serve.inflight[result.token];
    assert t.frames == s.frames && t.cancelled == s.cancelled && t.status == s.status;
    hide Take, Taken, IsInflight, Deliver, Inv, OutputOk;
    if request.cancelled {
      assert Due(t, f) == 0;
      assert AnswersOk(t);
    } else {
      DeliverySettles(t, f, request.meta, result.outcome, written);
    }
  }

  lemma DeliverKeepsRest(s: System, f: nat, meta: Meta, outcome: Outcome, written: bool)
    requires s.status.Running?
    ensures var t := Deliver(s, f, meta, outcome, written);
            && t == s.(out := t.out, status := t.status) && !t.status.ReturnedNil?
  {
  }

  lemma TakeKeepsInv(s: System, written: bool)
    requires Inv(s) && Enabled(s, TakeResult(written))
    ensures Inv(Take(s, written))
  {
    AnsweredFrame(s);
    TakingKeepsRest(s);
    TakeIs(s, written);
    TakeKeepsAnswers(s, written);
    var t, result := Taken(s), s.results[0];
    assert t.status == s.status;
    hide Take, Taken, IsInflight, Deliver, ChannelsOk, OriginsOk, AnswersOk, IdsOk, Due, Answers, OutputOk;
    DeliverKeepsRest(t, s.origin[result.token], s.serve.inflight[result.token].meta, result.outcome, written);
    SameRest(t, Take(s, written));
  }

  lemma FinishKeepsChannels(s: System, token: Token, answer: Answer)
    requires ChannelsOk(s) && Enabled(s, FinishWorker(token, answer))
    ensures ChannelsOk(Apply(s, FinishWorker(token, answer)))
  {
    ForwardedIsPossible(s.serve.inflight[token].meta, answer);
    hide Forwarded, Possible;
  }

  lemma FinishKeepsInv(s: System, token: Token, answer: Answer)
    requires Inv(s) && Enabled(s, FinishWorker(token, answer))
    ensures Inv(Apply(s, FinishWorker(token, answer)))
  {
    hide Forwarded;
    var t := Apply(s, FinishWorker(token, answer));
    FinishKeepsChannels(s, token, answer);
    hide ChannelsOk;
    forall f: nat ensures IsInflight(t, f) <==> IsInflight(s, f) {
      StaysInflight(s, t, f);
    }
    forall o <- t.out ensures OutputOk(t, o) {
      assert OutputOk(s, o);
    }
  }

  lemma SameAnswers(s: System, t: System)
    requires AnswersOk(s) && t.out == s.out && t.frames == s.frames && t.cancelled == s.cancelled
    requires t.serve.inflight == s.serve.inflight && t.origin == s.origin
    requires !t.status.ReturnedError? ==> !s.status.ReturnedError?
    ensures AnswersOk(t)
  {
  }

  lemma ActionKeepsInv(s: System, a: Action)
    requires Inv(s) && Enabled(s, a)
    ensures Inv(Apply(s, a))
  {
    hide Read, Take, IdsOk, ChannelsOk, OriginsOk, AnswersOk, Forwarded;
    match a
    case ReadFrame(frame, last, written) =>
      ReadKeepsInv(s, frame, written);
      SameRest(Read(s, frame, written), Apply(s, a));
      SameAnswers(Read(s, frame, written), Apply(s, a));
    case ReadFails(frame, written) =>
      ReadKeepsInv(s, frame, written);
      SameRest(Read(s, frame, written), Apply(s, a));
      SameAnswers(Read(s, frame, written), Apply(s, a));
    case FinishWorker(token, answer) => FinishKeepsInv(s, token, answer);
    case TakeResult(written) => TakeKeepsInv(s, written);
    case ReturnDrained =>
      SameRest(s, Apply(s, a));
      SameAnswers(s, Apply(s, a));
    case _ =>
      ForwardKeepsRest(s, a);
      SameAnswers(s, Apply(s, a));
  }

  lemma ForwardKeepsRest(s: System, a: Action)
    requires Inv(s) && Enabled(s, a) && (a.FinishCancelForward? || a.TakeCancelResult?)
    ensures IdsOk(Apply(s, a).serve) && ChannelsOk(Apply(s, a)) && OriginsOk(Apply(s, a))
  {
    hide AnswersOk, IdsOk, ChannelsOk, OriginsOk;
    var t := Apply(s, a);
    SameIds(s.serve, t.serve);
    SameOrigins(s, t);
    ForwardsMove(s, t);
  }

  lemma SameIds(s: Serve, t: Serve)
    requires IdsOk(s) && t == s.(cancelForwards := t.cancelForwards)
    ensures IdsOk(t)
  {
  }

  lemma SameOrigins(s: System, t: System)
    requires OriginsOk(s) && t.serve.inflight == s.serve.inflight
    requires t.frames == s.frames && t.origin == s.origin && t.cancelled == s.cancelled
    ensures OriginsOk(t)
  {
  }

  // A cancellation forward moves from its goroutine to the channel, or from the channel to serve.
  lemma ForwardsMove(s: System, t: System)
    requires ChannelsOk(s)
    requires t.workers == s.workers && t.results == s.results && t.serve.inflight == s.serve.inflight
    requires t.cancelWorkers + t.cancelResults - t.serve.cancelForwards ==
             s.cancelWorkers + s.cancelResults - s.serve.cancelForwards
    requires t.serve.cancelForwards <= s.serve.cancelForwards
    ensures ChannelsOk(t)
  {
  }

  lemma {:induction false} RunKeepsInv(run: seq<System>, i: nat)
    requires IsRun(run) && i < |run|
    ensures Inv(run[i])
  {
    if i > 0 {
      RunKeepsInv(run, i - 1);
      assert Next(run[i - 1], run[i - 1 + 1]);
      var a :| Enabled(run[i - 1], a) && run[i] == Apply(run[i - 1], a);
      ActionKeepsInv(run[i - 1], a);
    }
  }

  lemma ReachableInv(s: System)
    requires Reachable(s)
    ensures Inv(s)
  {
    var run: seq<System> :| IsRun(run) && run[|run| - 1] == s;
    RunKeepsInv(run, |run| - 1);
  }

  // ---------------------------------------------------------------- what it means

  // Requests and cancellation forwards are each at most eight, and are exactly the goroutines
  // running and the results buffered for them.
  lemma ConcurrencyIsBounded(s: System)
    requires Reachable(s)
    ensures |s.workers| + |s.results| == |s.serve.inflight| <= 8
    ensures s.cancelWorkers + s.cancelResults == s.serve.cancelForwards <= 8
  {
    ReachableInv(s);
  }

  // No goroutine ever blocks on its send, also after serve has returned and nobody receives.
  lemma SendsNeverBlock(s: System)
    requires Reachable(s)
    ensures forall t <- s.workers, answer: Answer :: Enabled(s, FinishWorker(t, answer))
    ensures forall t <- s.workers :: t in s.serve.inflight && |s.results| < 8
    ensures s.cancelWorkers > 0 ==> Enabled(s, FinishCancelForward)
    ensures s.status.Running? && s.cancelResults > 0 ==> Enabled(s, TakeCancelResult)
  {
    ReachableInv(s);
  }

  // requestTokens is the exact inverse of inflight: it leads from the id of each request in flight to
  // that request, and from nothing else to anything.
  lemma RequestTokensInvertInflight(s: System)
    requires Reachable(s)
    ensures forall t <- s.serve.inflight :: s.serve.inflight[t].meta.id.Some? ==>
              && s.serve.inflight[t].meta.id.value in s.serve.requestTokens
              && s.serve.requestTokens[s.serve.inflight[t].meta.id.value] == t
    ensures forall id <- s.serve.requestTokens ::
              && s.serve.requestTokens[id] in s.serve.inflight
              && s.serve.inflight[s.serve.requestTokens[id]].meta.id == Some(id)
  {
    ReachableInv(s);
  }

  // No two requests in flight share an id, and requestTokens leads from it to the request.
  lemma IdsAreUnique(s: System, t: Token, u: Token)
    requires Reachable(s) && t in s.serve.inflight && u in s.serve.inflight
    requires s.serve.inflight[t].meta.id.Some? && s.serve.inflight[t].meta.id == s.serve.inflight[u].meta.id
    ensures t == u
    ensures var id := s.serve.inflight[t].meta.id.value;
            id in s.serve.requestTokens && s.serve.requestTokens[id] == t
  {
    ReachableInv(s);
  }

  // Until a write fails, every frame that was read, malformed and refused ones included, has had
  // exactly one answer, carrying its own id; only frames nobody waits for, requests still in flight
  // and requests cancelled in flight have had none.
  lemma EveryFrameIsSettled(s: System, f: nat)
    requires Reachable(s) && !s.status.ReturnedError? && f < |s.frames|
    ensures Answers(s.out, f) == if IsInflight(s, f) || f in s.cancelled || IsSilent(s.frames[f]) then 0 else 1
    ensures forall o <- s.out :: o.frame == f ==> o.id == IdOf(s.frames[f])
  {
    ReachableInv(s);
    forall o <- s.out ensures o.frame == f ==> o.id == IdOf(s.frames[f]) {
      assert OutputOk(s, o);
    }
  }

  // A request has exactly one answer, with its id, once it left flight, and none if and only if it
  // was cancelled in flight.
  lemma OneOutcomePerRequest(s: System, f: nat)
    requires Reachable(s) && !s.status.ReturnedError? && f < |s.frames| && IsRequest(s.frames[f])
    ensures Answers(s.out, f) == if IsInflight(s, f) || f in s.cancelled then 0 else 1
    ensures forall o <- s.out :: o.frame == f ==> o.id == s.frames[f].meta.id
  {
    EveryFrameIsSettled(s, f);
  }

  // serve returns nil only once its input has ended, with every goroutine finished, every channel empty and
  // every request answered or cancelled.
  lemma NilMeansDrained(s: System)
    requires Reachable(s) && s.status.ReturnedNil?
    ensures s.eof && s.workers == {} && s.results == [] && s.cancelWorkers == 0 && s.cancelResults == 0
    ensures forall f: nat :: f < |s.frames| && IsRequest(s.frames[f])
              ==> Answers(s.out, f) == if f in s.cancelled then 0 else 1
  {
    ReachableInv(s);
    forall f: nat | f < |s.frames| && IsRequest(s.frames[f])
      ensures Answers(s.out, f) == if f in s.cancelled then 0 else 1
    {
      OneOutcomePerRequest(s, f);
    }
  }
}
