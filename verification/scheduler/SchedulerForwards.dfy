// Which cancellations are forwarded to the control plane, and which error a refused frame is answered
// with, read off the requests in flight.

module SchedulerForwards {
  import opened Options
  import opened Scheduler
  import opened SchedulerSafety
  import opened ServeStates

  // ---------------------------------------------------------------- cancellations

  // A frame that cancels the request `t`: a cancelled notification with the id of a request in flight
  // that is no initialize.
  predicate Cancelling(s: System, frame: Frame, t: Token) {
    && frame.Parsed? && frame.meta.valid && frame.meta.id.None? && frame.meta.rpcMethod == "notifications/cancelled"
    && t in s.serve.inflight && s.serve.inflight[t].meta.id.Some? && s.serve.inflight[t].meta.id == frame.cancelTarget
    && s.serve.inflight[t].meta.rpcMethod != "initialize"
  }

  lemma NamedIs(s: System, frame: Frame, t: Token)
    requires IdsOk(s.serve)
    ensures Named(s.serve, frame) == Some(t) <==> Cancelling(s, frame, t)
  {
  }

  // Forwards that have been started and not been received yet.
  function Forwarding(s: System): nat {
    s.cancelWorkers + s.cancelResults
  }

  ghost predicate NamedIn(s: System, t: Token, g: nat) {
    g < |s.readings| && s.readings[g].named == Some(t)
  }

  // Some cancellation of the request met fewer than eight forwards.
  ghost predicate MetRoom(s: System, t: Token) {
    exists g: nat :: NamedIn(s, t, g) && s.readings[g].forwarding < 8
  }

  ghost predicate WasNamed(s: System, f: nat) {
    exists t: Token, g: nat :: NamedIn(s, t, g) && CameFrom(s, t, f)
  }

  ghost predicate MarksOk(s: System) {
    && (forall t <- s.serve.inflight :: s.serve.inflight[t].cancellationForwarded <==> t in s.forwards)
    && (forall i, j :: 0 <= i < j < |s.forwards| ==> s.forwards[i] != s.forwards[j])
    && (forall t <- s.forwards :: t <= s.serve.sequence)
  }

  // A request's cancellation was forwarded exactly if some cancellation of it met fewer than eight
  // forwards, and then once.
  ghost predicate ForwardsOk(s: System) {
    MarksOk(s) && forall t: Token :: t in s.forwards <==> MetRoom(s, t)
  }

  ghost predicate KnownToken(s: System, t: Token) {
    t <= s.serve.sequence && t in s.origin && s.origin[t] in s.cancelled
  }

  // The requests cancelled are those some frame named.
  ghost predicate NamesOk(s: System) {
    && |s.readings| == |s.frames|
    && (forall t: Token, g: nat :: NamedIn(s, t, g) ==> KnownToken(s, t))
    && (forall f <- s.cancelled :: WasNamed(s, f))
  }

  // What reading a cancellation does, whatever else goes on.
  lemma CancellationEffect(s: System, frame: Frame, t: Token, written: bool)
    requires Inv(s) && ForwardsOk(s) && Cancelling(s, frame, t)
    ensures var u, forwards := Read(s, frame, written), t !in s.forwards && Forwarding(s) < 8;
            && t in u.serve.inflight && u.serve.inflight[t].cancelled
            && u.serve.inflight[t].cancellationForwarded == (t in s.forwards || forwards)
            && u.serve.inflight == s.serve.inflight[t := u.serve.inflight[t]]
            && u.serve.inflight[t].meta == s.serve.inflight[t].meta
            && u.serve.sequence == s.serve.sequence
            && u.forwards == s.forwards + (if forwards then [t] else [])
            && u.cancelWorkers == s.cancelWorkers + (if forwards then 1 else 0)
            && u.readings == s.readings + [Reading(Some(t), Forwarding(s))]
            && u.cancelled == s.cancelled + {s.origin[t]} && u.origin == s.origin
            && u.out == s.out && u.frames == s.frames + [frame]
  {
    hide *;
    InvIds(s);
    NamedIs(s, frame, t);
    CancelEffect(s, frame, t);
    CancellingIsOld(s, frame, t);
    ReadCancelling(s, frame, t, written);
  }

  // What handling a cancellation starts is counted and logged.
  lemma ReadCancelling(s: System, frame: Frame, t: Token, written: bool)
    requires Named(s.serve, frame) == Some(t) && t in s.origin
    requires Cancel(s.serve, frame.cancelTarget).1 in {StartCancelForward(t), Nothing}
    ensures var u, (serve, effect) := Read(s, frame, written), Cancel(s.serve, frame.cancelTarget);
            var started := if effect == StartCancelForward(t) then [t] else [];
            && u.serve == serve && u.forwards == s.forwards + started
            && u.cancelWorkers == s.cancelWorkers + |started|
            && u.readings == s.readings + [Reading(Some(t), Forwarding(s))]
            && u.cancelled == s.cancelled + {s.origin[t]} && u.origin == s.origin
            && u.out == s.out && u.frames == s.frames + [frame]
  {
    hide Cancel;
  }

  lemma CancelEffect(s: System, frame: Frame, t: Token)
    requires IdsOk(s.serve) && ChannelsOk(s) && ForwardsOk(s) && Cancelling(s, frame, t)
    ensures var (serve, effect), forwards := Cancel(s.serve, frame.cancelTarget), t !in s.forwards && Forwarding(s) < 8;
            && effect == (if forwards then StartCancelForward(t) else Nothing)
            && t in serve.inflight && serve.inflight[t].cancelled
            && serve.inflight[t].cancellationForwarded == (t in s.forwards || forwards)
            && serve.inflight == s.serve.inflight[t := serve.inflight[t]]
            && serve.inflight[t].meta == s.serve.inflight[t].meta && serve.sequence == s.serve.sequence
  {
  }

  lemma NothingNamed(s: System, frame: Frame)
    requires IdsOk(s.serve) && forall t: Token :: !Cancelling(s, frame, t)
    ensures Named(s.serve, frame) == None && CancelledBy(s, frame) == {}
  {
    if Named(s.serve, frame).Some? {
      NamedIs(s, frame, Named(s.serve, frame).value);
    }
  }

  lemma OtherHandled(s: Serve, frame: Frame)
    requires Named(s, frame) == None
    ensures var (serve, effect) := Handle(s, frame);
            && !effect.StartCancelForward?
            && if effect.StartWorker? then
                 frame.Parsed? && serve == Admit(s, frame.meta) && effect.token == s.sequence + 1
               else serve == s
  {
  }

  // Every other frame forwards nothing and marks nothing; at most it starts one request.
  lemma OtherEffect(s: System, frame: Frame, written: bool)
    requires Inv(s) && forall t: Token :: !Cancelling(s, frame, t)
    ensures var u := Read(s, frame, written);
            && u.forwards == s.forwards && u.cancelWorkers == s.cancelWorkers && u.cancelled == s.cancelled
            && u.readings == s.readings + [Reading(None, Forwarding(s))] && u.frames == s.frames + [frame]
            && s.serve.sequence <= u.serve.sequence
            && (forall t <- s.origin :: t <= s.serve.sequence ==> t in u.origin && u.origin[t] == s.origin[t])
            && (forall t <- u.serve.inflight ::
                  || (t in s.serve.inflight && u.serve.inflight[t] == s.serve.inflight[t])
                  || (t == s.serve.sequence + 1 && !u.serve.inflight[t].cancellationForwarded))
  {
    hide *;
    InvIds(s);
    NothingNamed(s, frame);
    OtherHandled(s.serve, frame);
    ReadOther(s, frame, written);
    if frame.Parsed? {
      AdmitEffect(s.serve, frame);
    }
  }

  lemma InvIds(s: System)
    requires Inv(s)
    ensures IdsOk(s.serve) && ChannelsOk(s)
  {
    hide IdsOk, ChannelsOk, OriginsOk, AnswersOk;
  }

  lemma AdmitEffect(s: Serve, frame: Frame)
    requires frame.Parsed?
    ensures var u := Admit(s, frame.meta);
            && u.sequence == s.sequence + 1
            && forall t <- u.inflight ::
                 || (t in s.inflight && u.inflight[t] == s.inflight[t])
                 || (t == s.sequence + 1 && !u.inflight[t].cancellationForwarded)
  {
  }

  // A frame that cancels nothing changes what handling it changes, and is logged.
  lemma ReadOther(s: System, frame: Frame, written: bool)
    requires Named(s.serve, frame) == None && CancelledBy(s, frame) == {}
    requires !Handle(s.serve, frame).1.StartCancelForward?
    ensures var u, (serve, effect) := Read(s, frame, written), Handle(s.serve, frame);
            && u.serve == serve && u.forwards == s.forwards && u.cancelWorkers == s.cancelWorkers
            && u.cancelled == s.cancelled && u.frames == s.frames + [frame]
            && u.readings == s.readings + [Reading(None, Forwarding(s))]
            && u.origin == if effect.StartWorker? then s.origin[effect.token := |s.frames|] else s.origin
  {
    hide Handle, Named, CancelledBy;
  }

  lemma ReadKeepsForwards(s: System, frame: Frame, written: bool)
    requires Inv(s) && ForwardsOk(s) && NamesOk(s)
    ensures ForwardsOk(Read(s, frame, written)) && NamesOk(Read(s, frame, written))
  {
    if t: Token :| Cancelling(s, frame, t) {
      CancellationEffect(s, frame, t, written);
      CancellingIsOld(s, frame, t);
      hide Inv, Read, Cancelling;
      ForwardMarks(s, Read(s, frame, written), t);
    } else {
      OtherEffect(s, frame, written);
      hide Inv, Read, Cancelling;
      NothingMarked(s, Read(s, frame, written));
    }
  }

  lemma CancellingIsOld(s: System, frame: Frame, t: Token)
    requires Inv(s) && Cancelling(s, frame, t)
    ensures t <= s.serve.sequence && t in s.origin
  {
  }

  lemma MetAppend(s: System, u: System, r: Reading, t: Token)
    requires u.readings == s.readings + [r]
    ensures MetRoom(u, t) <==> MetRoom(s, t) || (r.named == Some(t) && r.forwarding < 8)
  {
    if MetRoom(s, t) {
      var g: nat :| NamedIn(s, t, g) && s.readings[g].forwarding < 8;
      assert NamedIn(u, t, g) && u.readings[g].forwarding < 8;
    }
    if r.named == Some(t) && r.forwarding < 8 {
      assert NamedIn(u, t, |s.readings|) && u.readings[|s.readings|].forwarding < 8;
    }
    if MetRoom(u, t) && !(r.named == Some(t) && r.forwarding < 8) {
      var g: nat :| NamedIn(u, t, g) && u.readings[g].forwarding < 8;
      assert NamedIn(s, t, g) && s.readings[g].forwarding < 8;
    }
  }

  lemma NamedAppend(s: System, u: System, r: Reading, f: nat)
    requires u.readings == s.readings + [r]
    requires forall t: Token, g: nat :: NamedIn(s, t, g) ==>
               t in s.origin && t in u.origin && u.origin[t] == s.origin[t]
    ensures WasNamed(s, f) ==> WasNamed(u, f)
    ensures r.named.Some? && CameFrom(u, r.named.value, f) ==> WasNamed(u, f)
  {
    if WasNamed(s, f) {
      var t: Token, g: nat :| NamedIn(s, t, g) && CameFrom(s, t, f);
      assert NamedIn(u, t, g) && CameFrom(u, t, f);
    }
    if r.named.Some? && CameFrom(u, r.named.value, f) {
      assert NamedIn(u, r.named.value, |s.readings|);
    }
  }

  lemma NamesGrow(s: System, u: System, r: Reading)
    requires NamesOk(s) && u.readings == s.readings + [r] && |u.frames| == |s.frames| + 1
    requires s.cancelled <= u.cancelled && s.serve.sequence <= u.serve.sequence
    requires forall t <- s.origin :: t <= s.serve.sequence ==> t in u.origin && u.origin[t] == s.origin[t]
    requires r.named.Some? ==> KnownToken(u, r.named.value)
    requires u.cancelled == s.cancelled + if r.named.Some? then {u.origin[r.named.value]} else {}
    ensures NamesOk(u)
  {
    forall t: Token, g: nat | NamedIn(u, t, g) ensures KnownToken(u, t) {
      if g < |s.readings| {
        assert NamedIn(s, t, g) && KnownToken(s, t);
      }
    }
    forall t: Token, g: nat | NamedIn(s, t, g) ensures t in s.origin && t in u.origin && u.origin[t] == s.origin[t] {
      assert KnownToken(s, t);
    }
    forall f <- u.cancelled ensures WasNamed(u, f) {
      NamedAppend(s, u, r, f);
    }
  }

  lemma ForwardMarks(s: System, u: System, t: Token)
    requires ForwardsOk(s) && NamesOk(s) && t in s.serve.inflight && t <= s.serve.sequence && t in s.origin
    requires var forwards := t !in s.forwards && Forwarding(s) < 8;
             && t in u.serve.inflight
             && u.serve.inflight[t].cancellationForwarded == (t in s.forwards || forwards)
             && u.serve.inflight == s.serve.inflight[t := u.serve.inflight[t]]
             && u.serve.sequence == s.serve.sequence
             && u.forwards == s.forwards + (if forwards then [t] else [])
    requires u.readings == s.readings + [Reading(Some(t), Forwarding(s))]
    requires u.cancelled == s.cancelled + {s.origin[t]} && u.origin == s.origin && |u.frames| == |s.frames| + 1
    ensures ForwardsOk(u) && NamesOk(u)
  {
    var r := Reading(Some(t), Forwarding(s));
    assert KnownToken(u, t);
    NamesGrow(s, u, r);
    hide NamesOk, NamedIn, MetRoom, WasNamed;
    forall x: Token ensures x in u.forwards <==> MetRoom(u, x) {
      MetAppend(s, u, r, x);
    }
  }

  lemma NothingMarked(s: System, u: System)
    requires ForwardsOk(s) && NamesOk(s) && u.forwards == s.forwards && u.cancelled == s.cancelled
    requires u.readings == s.readings + [Reading(None, Forwarding(s))] && |u.frames| == |s.frames| + 1
    requires s.serve.sequence <= u.serve.sequence
    requires forall t <- s.origin :: t <= s.serve.sequence ==> t in u.origin && u.origin[t] == s.origin[t]
    requires forall t <- u.serve.inflight ::
               || (t in s.serve.inflight && u.serve.inflight[t] == s.serve.inflight[t])
               || (t == s.serve.sequence + 1 && !u.serve.inflight[t].cancellationForwarded)
    ensures ForwardsOk(u) && NamesOk(u)
  {
    var r := Reading(None, Forwarding(s));
    NamesGrow(s, u, r);
    hide NamesOk, NamedIn, MetRoom, WasNamed;
    forall x: Token ensures x in u.forwards <==> MetRoom(u, x) {
      MetAppend(s, u, r, x);
    }
  }

  // A step that reads no frame and admits nothing.
  lemma RestKeepsForwards(s: System, u: System)
    requires ForwardsOk(s) && NamesOk(s)
    requires u.forwards == s.forwards && u.cancelled == s.cancelled && u.readings == s.readings
    requires u.frames == s.frames && u.origin == s.origin && u.serve.sequence == s.serve.sequence
    requires forall t <- u.serve.inflight :: t in s.serve.inflight && u.serve.inflight[t] == s.serve.inflight[t]
    ensures ForwardsOk(u) && NamesOk(u)
  {
    forall x: Token ensures MetRoom(u, x) <==> MetRoom(s, x) {
      SameNames(s, u, x);
    }
    forall f: nat | WasNamed(s, f) ensures WasNamed(u, f) {
      var x: Token, g: nat :| NamedIn(s, x, g) && CameFrom(s, x, f);
      assert NamedIn(u, x, g) && CameFrom(u, x, f);
    }
    forall t: Token, g: nat | NamedIn(u, t, g) ensures KnownToken(u, t) {
      assert NamedIn(s, t, g) && KnownToken(s, t);
    }
    hide NamedIn, MetRoom, WasNamed;
  }

  lemma SameNames(s: System, u: System, x: Token)
    requires u.readings == s.readings
    ensures MetRoom(u, x) <==> MetRoom(s, x)
  {
    assert forall g: nat :: NamedIn(u, x, g) <==> NamedIn(s, x, g);
  }

  lemma TakeKeepsSequence(s: System, written: bool)
    requires s.results != []
    ensures var u := Take(s, written);
            && u.forwards == s.forwards && u.cancelled == s.cancelled && u.readings == s.readings
            && u.frames == s.frames && u.origin == s.origin && u.serve.sequence == s.serve.sequence
            && forall t <- u.serve.inflight :: t in s.serve.inflight && u.serve.inflight[t] == s.serve.inflight[t]
  {
  }

  lemma ActionKeepsForwards(s: System, a: Action)
    requires Inv(s) && Enabled(s, a) && ForwardsOk(s) && NamesOk(s)
    ensures ForwardsOk(Apply(s, a)) && NamesOk(Apply(s, a))
  {
    hide Inv, ForwardsOk, NamesOk, Read, Take;
    match a
    case ReadFrame(frame, last, written) =>
      ReadKeepsForwards(s, frame, written);
      RestKeepsForwards(Read(s, frame, written), Apply(s, a));
    case ReadFails(frame, written) =>
      ReadKeepsForwards(s, frame, written);
      RestKeepsForwards(Read(s, frame, written), Apply(s, a));
    case TakeResult(written) =>
      TakeKeepsSequence(s, written);
      RestKeepsForwards(s, Apply(s, a));
    case _ => RestKeepsForwards(s, Apply(s, a));
  }

  lemma {:induction false} RunKeepsForwards(run: seq<System>, i: nat)
    requires IsRun(run) && i < |run|
    ensures ForwardsOk(run[i]) && NamesOk(run[i])
  {
    if i > 0 {
      RunKeepsForwards(run, i - 1);
      RunKeepsInv(run, i - 1);
      assert Next(run[i - 1], run[i - 1 + 1]);
      var a :| Enabled(run[i - 1], a) && run[i] == Apply(run[i - 1], a);
      ActionKeepsForwards(run[i - 1], a);
    }
  }

  lemma ReachableForwards(s: System)
    requires Reachable(s)
    ensures Inv(s) && ForwardsOk(s) && NamesOk(s)
  {
    var run: seq<System> :| IsRun(run) && run[|run| - 1] == s;
    RunKeepsForwards(run, |run| - 1);
    ReachableInv(s);
  }

  // Reading a cancellation of a request in flight cancels it, and starts a forward for it if and only if none
  // was started before and fewer than eight are on their way.
  lemma CancellationIsForwarded(s: System, frame: Frame, t: Token, written: bool)
    requires Reachable(s) && Cancelling(s, frame, t)
    ensures var u, forwards := Read(s, frame, written), t !in s.forwards && s.cancelWorkers + s.cancelResults < 8;
            && u.forwards == s.forwards + (if forwards then [t] else [])
            && u.cancelWorkers == s.cancelWorkers + (if forwards then 1 else 0)
            && t in s.origin && u.cancelled == s.cancelled + {s.origin[t]} && u.out == s.out
  {
    ReachableForwards(s);
    CancellationEffect(s, frame, t, written);
    CancellingIsOld(s, frame, t);
    hide Read, Inv, ForwardsOk, NamesOk;
  }

  // No other frame cancels or forwards anything.
  lemma NothingElseIsForwarded(s: System, frame: Frame, written: bool)
    requires Reachable(s) && forall t: Token :: !Cancelling(s, frame, t)
    ensures var u := Read(s, frame, written);
            u.forwards == s.forwards && u.cancelWorkers == s.cancelWorkers && u.cancelled == s.cancelled
  {
    ReachableForwards(s);
    OtherEffect(s, frame, written);
    hide Read, Inv, ForwardsOk, NamesOk;
  }

  // Over any run each request's cancellation is forwarded at most once, and not at all only if every
  // cancellation of it met eight forwards.
  lemma ForwardedUnlessEightRun(s: System, t: Token)
    requires Reachable(s)
    ensures forall i, j :: 0 <= i < j < |s.forwards| ==> s.forwards[i] != s.forwards[j]
    ensures t in s.forwards <==> exists g: nat :: NamedIn(s, t, g) && s.readings[g].forwarding < 8
    ensures forall g: nat :: NamedIn(s, t, g) ==> t in s.origin && s.origin[t] in s.cancelled
    ensures forall f <- s.cancelled :: exists x: Token, g: nat :: NamedIn(s, x, g) && CameFrom(s, x, f)
  {
    ReachableForwards(s);
    hide Inv;
  }

  // ---------------------------------------------------------------- frames and their answers

  ghost predicate IdInFlight(s: System, id: Id) {
    exists t <- s.serve.inflight :: s.serve.inflight[t].meta.id == Some(id)
  }

  // The frames a request is started for.
  ghost predicate Starts(s: System, frame: Frame) {
    && frame.Parsed? && frame.meta.valid && |s.serve.inflight| < 8
    && match frame.meta.id
       case Some(id) => !IdInFlight(s, id)
       case None => frame.meta.rpcMethod != "notifications/cancelled" && "notifications/" <= frame.meta.rpcMethod
  }

  // The error a frame is answered with when it is read.
  ghost function RefusalCode(s: System, frame: Frame): Option<int> {
    match frame
    case Oversize => Some(-32600)
    case Blank => None
    case Malformed => Some(-32700)
    case Parsed(meta, _) =>
      if !meta.valid then Some(-32600)
      else if meta.id.None? then None
      else if IdInFlight(s, meta.id.value) then Some(-32600)
      else if |s.serve.inflight| == 8 then Some(-32000)
      else None
  }

  lemma IdInFlightIs(s: System, id: Id)
    requires IdsOk(s.serve)
    ensures IdInFlight(s, id) <==> id in s.serve.requestTokens
  {
  }

  lemma HandledIs(s: System, frame: Frame)
    requires IdsOk(s.serve) && |s.serve.inflight| <= 8
    ensures var effect, code := Handle(s.serve, frame).1, RefusalCode(s, frame);
            && (effect.Reply? <==> code.Some?) && (effect.StartWorker? <==> Starts(s, frame))
            && (effect.Reply? ==> effect.code == code.value && effect.id == IdOf(frame))
            && (effect.StartWorker? ==> effect.token == s.serve.sequence + 1)
  {
    if frame.Parsed? && frame.meta.id.Some? {
      IdInFlightIs(s, frame.meta.id.value);
    }
    hide IdInFlight, IdsOk;
  }

  // A frame that is read starts a request or not, and is answered with an error or not, by these rules;
  // an answer that cannot be written ends serve.
  lemma FrameIsHandled(s: System, frame: Frame)
    requires Reachable(s) && s.status.Running?
    ensures var t, code := s.serve.sequence + 1, RefusalCode(s, frame);
            var u, failed := Read(s, frame, true), Read(s, frame, false);
            && u.workers == failed.workers == s.workers + (if Starts(s, frame) then {t} else {})
            && (Starts(s, frame) ==> t !in s.serve.inflight && u.origin == s.origin[t := |s.frames|])
            && (Starts(s, frame) ==> u.serve.inflight == s.serve.inflight[t := Inflight(frame.meta, false, false)])
            && u.out == s.out + (if code.Some? then [Output(|s.frames|, IdOf(frame), code)] else [])
            && u.status.Running? && failed.out == s.out
            && failed.status == if code.Some? then ReturnedError else Running
  {
    ReachableForwards(s);
    BoundedInflight(s);
    hide *;
    InvIds(s);
    HandledIs(s, frame);
    ReadOutput(s, frame, true);
    ReadOutput(s, frame, false);
    if Starts(s, frame) {
      AdmitKeepsIds(s.serve, frame.meta);
      StartsAdmits(s, frame);
    }
  }

  lemma BoundedInflight(s: System)
    requires Inv(s)
    ensures |s.serve.inflight| <= 8
  {
  }

  lemma StartsAdmits(s: System, frame: Frame)
    requires IdsOk(s.serve) && Starts(s, frame)
    ensures Admits(s.serve, frame) && Handle(s.serve, frame).0 == Admit(s.serve, frame.meta)
    ensures Admit(s.serve, frame.meta).inflight ==
            s.serve.inflight[s.serve.sequence + 1 := Inflight(frame.meta, false, false)]
  {
    if frame.meta.id.Some? {
      IdInFlightIs(s, frame.meta.id.value);
    }
    hide IdInFlight, IdsOk;
  }

  lemma ReadOutput(s: System, frame: Frame, written: bool)
    ensures var u, (serve, effect) := Read(s, frame, written), Handle(s.serve, frame);
            && u.workers == s.workers + (if effect.StartWorker? then {effect.token} else {})
            && (effect.StartWorker? ==> u.serve == serve && u.origin == s.origin[effect.token := |s.frames|])
            && u.out ==
               s.out + (if effect.Reply? && written then [Output(|s.frames|, effect.id, Some(effect.code))] else [])
            && u.status == if effect.Reply? && !written then ReturnedError else s.status
  {
    hide Handle, CancelledBy, ReadingOf;
  }

  // A result that is received ends its request; it is passed on, or reported as an error, unless nobody waits
  // for it any more.
  lemma ResultIsDelivered(s: System)
    requires Reachable(s) && s.status.Running? && s.results != []
    ensures var result, u := s.results[0], Take(s, true);
            && result.token in s.serve.inflight && result.token in s.origin
            && var request, f := s.serve.inflight[result.token], s.origin[result.token];
            && u.serve.inflight == s.serve.inflight - {result.token} && u.results == s.results[1..] && u.status.Running?
            && u.out == s.out +
               if f in s.cancelled || request.meta.id.None? then []
               else [Output(f, request.meta.id, if result.outcome.Response? then None else Some(-32603))]
  {
    ReachableForwards(s);
    hide *;
    InvIds(s);
    AnsweredFrame(s);
    CompleteKeepsIds(s.serve, s.results[0].token);
    TakenIs(s);
  }

  // What taking a possible result writes, by its request.
  lemma TakenIs(s: System)
    requires s.results != [] && s.results[0].token in s.serve.inflight && s.results[0].token in s.origin
    requires var request := s.serve.inflight[s.results[0].token];
             request.meta.valid && Possible(request.meta, s.results[0].outcome)
    ensures var result, u := s.results[0], Take(s, true);
            var request, f := s.serve.inflight[result.token], s.origin[result.token];
            && u.serve == Complete(s.serve, result.token).0 && u.results == s.results[1..] && u.status == s.status
            && u.out == s.out +
               if request.cancelled || request.meta.id.None? then []
               else [Output(f, request.meta.id, if result.outcome.Response? then None else Some(-32603))]
  {
    TakeIs(s, true);
    hide Complete, Take;
  }
}
