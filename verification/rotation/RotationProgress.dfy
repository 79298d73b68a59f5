// A request that nothing disturbs ends authenticated, whatever happened before it.

module RotationProgress {
  import opened CredentialState
  import opened Options
  import opened RotationProtocol
  import opened RotationSafety

  // The lock is free, the file reads and every persist completes.
  predicate Quiet(env: Env) {
    env.locked && env.readable && env.confirm.Stored? && env.commit.Stored?
  }

  // A matching stamp means what it is meant to mean: the file is the one this process cached.
  predicate StampAccurate(c: Cache, d: Disk) {
    d.file.Some? && c.stamp == Some(d.mtime) ==> SameAsCache(c, d.file.value)
  }

  // The environments of the locked sections of one request, in the order it enters them.
  datatype Calm = Calm(refresh: Env, propose: Env, recover: Env, adopt: Env)

  predicate CalmOk(s: System, calm: Calm) {
    && Quiet(calm.refresh) && Quiet(calm.propose) && Quiet(calm.recover) && Quiet(calm.adopt)
    && calm.refresh.minted.None? && calm.recover.minted.None? && calm.adopt.minted.None?
    && Fresh(s, calm.propose)
  }

  function Begin(pid: Pid, rid: Rid, calm: Calm, notification: bool): Action {
    if notification then BeginNotification(pid, rid) else BeginRequest(pid, rid, calm.propose)
  }

  // The state in which the first attempt of an undisturbed request stands on the wire.
  function Sent(s: System, pid: Pid, rid: Rid, calm: Calm, notification: bool): System
    requires pid in s.bridges && rid !in s.requests && CalmOk(s, calm)
  {
    var refreshed := Apply(s, RefreshState(pid, calm.refresh));
    var begun := Apply(refreshed, Begin(pid, rid, calm, notification));
    Apply(begun, SendRequest(rid))
  }

  function FirstAttempt(s: System, rid: Rid): Message
    requires rid in s.requests && s.requests[rid].sent.Some?
  {
    Message(s.requests[rid].sent.value, s.requests[rid].proposal)
  }

  // After a 401 the retry goes out under a live key, and adopting that key leaves it the current
  // key of the only version that can survive.
  ghost predicate RetrySucceeds(s: System, rid: Rid, calm: Calm, register: bool, retire: bool) {
    && Enabled(s, RecoverAndRetry(rid, calm.recover))
    && var retried := Apply(s, RecoverAndRetry(rid, calm.recover));
    && retried.requests[rid].alternate.Some?
    && var key := retried.requests[rid].alternate.value;
    && var second := Message(key, s.requests[rid].proposal);
    && second in retried.wire
    && key in retried.portal.live
    && var answered := Apply(retried, Deliver(second, register, retire));
    && Enabled(answered, AdoptRetried(rid, calm.adopt))
    && var adopted := Apply(answered, AdoptRetried(rid, calm.adopt));
    && adopted.disk.file == Some(Record(key, None))
    && adopted.disk.survivors == {adopted.disk.file}
    && adopted.bridges[s.requests[rid].pid].apiKey == key
  }

  lemma RefreshAgreesWithFile(c: Cache, d: Disk, env: Env)
    requires Quiet(env) && !c.readOnly && StampAccurate(c, d) && Load(d, c.apiKey).Valid()
    ensures var step := Refresh(c, d, env);
            step.status.Done? && !step.cache.readOnly && SameAsCache(step.cache, Load(step.disk, step.cache.apiKey))
  {
  }

  lemma ProposeAgreesWithFile(c: Cache, d: Disk, env: Env)
    requires Quiet(env) && !c.readOnly && SameAsCache(c, Load(d, c.apiKey)) && Load(d, c.apiKey).Valid()
    ensures var step := Propose(c, d, env).0;
            step.cache.apiKey == c.apiKey && step.cache.readOnly == c.readOnly
            && SameAsCache(step.cache, Load(step.disk, step.cache.apiKey))
  {
  }

  lemma SentAgreesWithFile(s: System, pid: Pid, rid: Rid, calm: Calm, notification: bool)
    requires Inv(s) && pid in s.bridges && rid !in s.requests && CalmOk(s, calm)
    requires !s.bridges[pid].readOnly && StampAccurate(s.bridges[pid], s.disk)
    ensures var t := Sent(s, pid, rid, calm, notification);
            && Inv(t) && t.portal == s.portal && pid in t.bridges && !t.bridges[pid].readOnly
            && rid in t.requests && t.requests[rid].pid == pid && t.requests[rid].alternate.None?
            && t.requests[rid].sent == Some(t.bridges[pid].apiKey)
            && FirstAttempt(t, rid) in t.wire
            && SameAsCache(t.bridges[pid], Load(t.disk, t.bridges[pid].apiKey))
  {
    hide Inv, Load, SameAsCache, Quiet, StampAccurate, Refresh, Propose;
    var refreshed := Apply(s, RefreshState(pid, calm.refresh));
    ActionKeepsInv(s, RefreshState(pid, calm.refresh));
    LoadIsValid(s, pid);
    RefreshAgreesWithFile(s.bridges[pid], s.disk, calm.refresh);
    LoadIsValid(refreshed, pid);
    ProposeAgreesWithFile(refreshed.bridges[pid], refreshed.disk, calm.propose);
    var begun := Apply(refreshed, Begin(pid, rid, calm, notification));
    ActionKeepsInv(refreshed, Begin(pid, rid, calm, notification));
    ActionKeepsInv(begun, SendRequest(rid));
  }

  lemma LoadIsValid(s: System, pid: Pid)
    requires Inv(s) && pid in s.bridges
    ensures Load(s.disk, s.bridges[pid].apiKey).Valid()
  {
    InvOf(s, pid);
    KeyIsRegistered(s.portal, s.disk, s.bridges[pid]);
    hide Load, DiskOk, ChainOk, CacheOk;
    LoadSeesFile(s.portal, s.disk, s.bridges[pid].apiKey);
  }

  lemma RefusedKeyHasLiveSuccessor(s: System, pid: Pid)
    requires Inv(s) && pid in s.bridges
    requires SameAsCache(s.bridges[pid], Load(s.disk, s.bridges[pid].apiKey))
    requires s.bridges[pid].apiKey !in s.portal.live
    ensures s.disk.file.Some?
    ensures s.disk.file.value == Record(s.bridges[pid].apiKey, Some(Newest(s.portal)))
  {
  }

  lemma RecoverThenAdopt(c: Cache, d: Disk, refused: Key, key: Key, recover: Env, adopt: Env)
    requires Quiet(recover) && Quiet(adopt) && !c.readOnly && key != refused
    requires d.file == Some(Record(refused, Some(key))) && SameAsCache(c, d.file.value)
    ensures var (step, alternate) := Recover(c, d, refused, recover);
            && alternate == Some(key) && step.disk == d && !step.cache.readOnly
            && var adopted := Adopt(step.cache, d, key, adopt);
            && adopted.disk.file == Some(Record(key, None))
            && adopted.disk.survivors == {adopted.disk.file}
            && adopted.cache.apiKey == key && adopted.cache.pendingKey == None
  {
  }

  lemma RefusedRequestIsRetried(t: System, rid: Rid, calm: Calm, register: bool, retire: bool)
    requires Inv(t) && rid in t.requests && Quiet(calm.recover) && Quiet(calm.adopt)
    requires calm.recover.minted.None? && calm.adopt.minted.None?
    requires var r := t.requests[rid];
             && r.alternate.None? && r.pid in t.bridges && !t.bridges[r.pid].readOnly
             && r.sent == Some(t.bridges[r.pid].apiKey) && r.sent.value !in t.portal.live
             && SameAsCache(t.bridges[r.pid], Load(t.disk, r.sent.value))
    ensures RetrySucceeds(t, rid, calm, register, retire)
  {
    var r := t.requests[rid];
    RefusedKeyHasLiveSuccessor(t, r.pid);
    var key := Newest(t.portal);
    NewestIsLive(t.portal);
    RecoverThenAdopt(t.bridges[r.pid], t.disk, r.sent.value, key, calm.recover, calm.adopt);
    hide Inv, ChainOk, CacheOk, Newest, Recover, Adopt, Load, SameAsCache, Receive, Apply, Enabled, Quiet;
    RetriedState(t, rid, calm.recover, key);
    var retried := Apply(t, RecoverAndRetry(rid, calm.recover));
    var second := Message(key, r.proposal);
    AnsweredState(retried, second, register, retire);
    AdoptedState(Apply(retried, Deliver(second, register, retire)), rid, calm.adopt, key);
  }

  // The states of a retry, one action after the other.
  lemma RetriedState(t: System, rid: Rid, env: Env, key: Key)
    requires rid in t.requests && t.requests[rid].sent.Some? && t.requests[rid].alternate.None?
    requires t.requests[rid].pid in t.bridges && env.minted.None?
    requires var r := t.requests[rid]; Recover(t.bridges[r.pid], t.disk, r.sent.value, env).1 == Some(key)
    ensures Enabled(t, RecoverAndRetry(rid, env))
    ensures var r, u := t.requests[rid], Apply(t, RecoverAndRetry(rid, env));
            var step := Recover(t.bridges[r.pid], t.disk, r.sent.value, env).0;
            && u.portal == t.portal && u.disk == step.disk && r.pid in u.bridges && u.bridges[r.pid] == step.cache
            && rid in u.requests && u.requests[rid] == r.(alternate := Some(key))
            && Message(key, r.proposal) in u.wire
  {
    hide Recover;
  }

  lemma AnsweredState(u: System, m: Message, register: bool, retire: bool)
    requires m in u.wire && m.auth in u.portal.live
    ensures Enabled(u, Deliver(m, register, retire))
    ensures var v := Apply(u, Deliver(m, register, retire)); v == u.(portal := v.portal) && m.auth in v.portal.used
  {
    UseIsRecorded(u.portal, m, register, retire);
    hide Receive;
  }

  lemma AdoptedState(v: System, rid: Rid, env: Env, key: Key)
    requires rid in v.requests && v.requests[rid].alternate == Some(key) && key in v.portal.used
    requires v.requests[rid].pid in v.bridges && env.minted.None?
    ensures Enabled(v, AdoptRetried(rid, env))
    ensures var pid, w := v.requests[rid].pid, Apply(v, AdoptRetried(rid, env));
            var step := Adopt(v.bridges[v.requests[rid].pid], v.disk, key, env);
            w.disk == step.disk && pid in w.bridges && w.bridges[pid] == step.cache
  {
    hide Adopt;
  }

  lemma NewestIsLive(p: Portal)
    requires ChainOk(p)
    ensures Newest(p) in p.live
  {
  }

  lemma UseIsRecorded(p: Portal, m: Message, register: bool, retire: bool)
    requires m.auth in p.live
    ensures m.auth in Receive(p, m, register, retire).used
  {
  }

  // From every reachable state, an undisturbed request of a writable process is accepted at once
  // or on its one retry, however the portal answers registrations and retirements on the way.
  lemma UndisturbedRequestIsAccepted(s: System, pid: Pid, rid: Rid, calm: Calm, notification: bool,
                                     register: bool, retire: bool)
    requires Reachable(s) && pid in s.bridges && rid !in s.requests && CalmOk(s, calm)
    requires !s.bridges[pid].readOnly && StampAccurate(s.bridges[pid], s.disk)
    ensures var t := Sent(s, pid, rid, calm, notification);
            && rid in t.requests && t.requests[rid].sent.Some? && FirstAttempt(t, rid) in t.wire
            && (FirstAttempt(t, rid).auth in t.portal.live || RetrySucceeds(t, rid, calm, register, retire))
  {
    ReachableInv(s);
    SentAgreesWithFile(s, pid, rid, calm, notification);
    var t := Sent(s, pid, rid, calm, notification);
    if FirstAttempt(t, rid).auth !in t.portal.live {
      RefusedRequestIsRetried(t, rid, calm, register, retire);
    }
  }

  // ---------------------------------------------------------------- a whole rotation

  // The key is current, for the process and in the only version that can survive, and has no successor.
  ghost predicate Rotated(s: System, pid: Pid, key: Key) {
    && s.disk.file == Some(Record(key, None)) && s.disk.survivors == {s.disk.file}
    && pid in s.bridges && s.bridges[pid].apiKey == key && s.bridges[pid].pendingKey == None
  }

  // An undisturbed proposal offers a successor, which is then the pending one in the file.
  lemma ProposeOffersPending(c: Cache, d: Disk, env: Env)
    requires Quiet(env) && !c.readOnly && SameAsCache(c, Load(d, c.apiKey)) && Load(d, c.apiKey).Valid()
    requires env.minted.Some? && env.minted.value != c.apiKey
    ensures var (step, offered) := Propose(c, d, env);
            && offered.Some? && step.cache.pendingKey == offered && step.cache.apiKey == c.apiKey
            && step.disk.file == Some(Record(c.apiKey, offered))
  {
  }

  lemma SentOffersPending(s: System, pid: Pid, rid: Rid, calm: Calm)
    requires Inv(s) && pid in s.bridges && rid !in s.requests && CalmOk(s, calm) && calm.propose.minted.Some?
    requires !s.bridges[pid].readOnly && StampAccurate(s.bridges[pid], s.disk)
    ensures var t := Sent(s, pid, rid, calm, false);
            && pid in t.bridges && rid in t.requests && t.requests[rid].proposal.Some?
            && t.disk.file == Some(Record(t.bridges[pid].apiKey, t.requests[rid].proposal))
            && t.bridges[pid].pendingKey == t.requests[rid].proposal
  {
    hide Inv, Load, SameAsCache, Quiet, StampAccurate, Refresh, Propose;
    var refreshed := Apply(s, RefreshState(pid, calm.refresh));
    ActionKeepsInv(s, RefreshState(pid, calm.refresh));
    LoadIsValid(s, pid);
    RefreshAgreesWithFile(s.bridges[pid], s.disk, calm.refresh);
    LoadIsValid(refreshed, pid);
    KeyIsOld(refreshed, pid, calm.propose.minted.value);
    ProposeOffersPending(refreshed.bridges[pid], refreshed.disk, calm.propose);
  }

  lemma KeyIsOld(s: System, pid: Pid, minted: Key)
    requires Inv(s) && pid in s.bridges && minted !in s.minted
    ensures minted != s.bridges[pid].apiKey
  {
  }

  lemma AcknowledgedIsCurrent(c: Cache, d: Disk, key: Key, env: Env)
    requires Quiet(env) && !c.readOnly && d.file == Some(Record(c.apiKey, Some(key))) && c.pendingKey == Some(key)
    requires key != c.apiKey
    ensures var step := Acknowledge(c, d, key, env);
            && step.disk.file == Some(Record(key, None)) && step.disk.survivors == {step.disk.file}
            && step.cache.apiKey == key && step.cache.pendingKey == None
  {
  }

  // The portal registers the successor of a request it accepts, and takes it from then on.
  lemma RegistersSuccessor(t: System, m: Message, key: Key, retire: bool)
    requires Inv(t) && m in t.wire && m.auth in t.portal.live && m.proposal == Some(key)
    requires t.disk.file == Some(Record(m.auth, Some(key)))
    ensures Enabled(t, Deliver(m, true, retire))
    ensures var u := Apply(t, Deliver(m, true, retire));
            u == t.(portal := u.portal) && key in u.portal.registered && key in u.portal.live
  {
    DeliverKeepsInv(t, m, true, retire);
    var u := Apply(t, Deliver(m, true, retire));
    assert HoldsNewest(u.portal, Seen(u.root, u.disk.file));
  }

  // Where the portal accepts the first attempt, it registers the successor, and acknowledging it completes
  // the rotation.
  ghost predicate AcceptedRotates(t: System, pid: Pid, m: Message, key: Key, acknowledge: Env, retire: bool) {
    && Enabled(t, Deliver(m, true, retire))
    && var u := Apply(t, Deliver(m, true, retire));
    && key in u.portal.registered && key in u.portal.live
    && Enabled(u, AcknowledgeSuccessor(pid, key, acknowledge))
    && Rotated(Apply(u, AcknowledgeSuccessor(pid, key, acknowledge)), pid, key)
  }

  // Where it refuses it, the retry goes out under the successor, which is live, and adopting it does.
  ghost predicate RetryRotates(t: System, rid: Rid, key: Key, calm: Calm, retire: bool)
    requires rid in t.requests
  {
    && Enabled(t, RecoverAndRetry(rid, calm.recover))
    && var v := Apply(t, RecoverAndRetry(rid, calm.recover));
    && Message(key, Some(key)) in v.wire && key in v.portal.live
    && Enabled(v, Deliver(Message(key, Some(key)), true, retire))
    && var w := Apply(v, Deliver(Message(key, Some(key)), true, retire));
    && Enabled(w, AdoptRetried(rid, calm.adopt))
    && Rotated(Apply(w, AdoptRetried(rid, calm.adopt)), t.requests[rid].pid, key)
  }

  // From every reachable state an undisturbed request of a writable process completes a rotation: it
  // offers the successor the file holds as pending; where the portal accepts it, registers that successor and
  // acknowledges it, the successor is current and durable; and where the key had been retired meanwhile, the
  // one retry makes it so.
  lemma UndisturbedRequestRotates(s: System, pid: Pid, rid: Rid, calm: Calm, acknowledge: Env, retire: bool)
    requires Reachable(s) && pid in s.bridges && rid !in s.requests && CalmOk(s, calm)
    requires !s.bridges[pid].readOnly && StampAccurate(s.bridges[pid], s.disk)
    requires calm.propose.minted.Some? && Quiet(acknowledge) && acknowledge.minted.None?
    ensures var t := Sent(s, pid, rid, calm, false);
            && rid in t.requests && t.requests[rid].sent.Some? && t.requests[rid].proposal.Some?
            && var m, key := FirstAttempt(t, rid), t.requests[rid].proposal.value;
            && m in t.wire && m.proposal == Some(key) && t.disk.file == Some(Record(m.auth, Some(key)))
            && if m.auth in t.portal.live then AcceptedRotates(t, pid, m, key, acknowledge, retire)
               else RetryRotates(t, rid, key, calm, retire)
  {
    hide *;
    ReachableInv(s);
    SentAgreesWithFile(s, pid, rid, calm, false);
    SentOffersPending(s, pid, rid, calm);
    var t := Sent(s, pid, rid, calm, false);
    var m, key := FirstAttempt(t, rid), t.requests[rid].proposal.value;
    FirstAttemptIs(t, rid);
    if m.auth in t.portal.live {
      AcceptanceRotates(t, pid, m, key, acknowledge, retire);
    } else {
      CalmParts(s, calm);
      RefusalRotates(t, rid, key, calm, retire);
    }
  }

  lemma CalmParts(s: System, calm: Calm)
    requires CalmOk(s, calm)
    ensures Quiet(calm.recover) && Quiet(calm.adopt) && calm.recover.minted.None? && calm.adopt.minted.None?
  {
  }

  lemma FirstAttemptIs(t: System, rid: Rid)
    requires rid in t.requests && t.requests[rid].sent.Some?
    ensures FirstAttempt(t, rid) == Message(t.requests[rid].sent.value, t.requests[rid].proposal)
  {
  }

  lemma PendingIsOther(t: System)
    requires Inv(t) && t.disk.file.Some? && t.disk.file.value.pending.Some?
    ensures t.disk.file.value.pending.value != t.disk.file.value.current
  {
    assert HoldsNewest(t.portal, Seen(t.root, t.disk.file));
  }

  lemma AcceptanceRotates(t: System, pid: Pid, m: Message, key: Key, acknowledge: Env, retire: bool)
    requires Inv(t) && m in t.wire && m.auth in t.portal.live && m.proposal == Some(key)
    requires pid in t.bridges && !t.bridges[pid].readOnly && m.auth == t.bridges[pid].apiKey
    requires t.bridges[pid].pendingKey == Some(key) && t.disk.file == Some(Record(m.auth, Some(key)))
    requires Quiet(acknowledge) && acknowledge.minted.None?
    ensures AcceptedRotates(t, pid, m, key, acknowledge, retire)
  {
    PendingIsOther(t);
    RegistersSuccessor(t, m, key, retire);
    hide Inv, Quiet, Acknowledge, Receive;
    var u := Apply(t, Deliver(m, true, retire));
    AcknowledgedIsCurrent(u.bridges[pid], u.disk, key, acknowledge);
  }

  lemma RefusalRotates(t: System, rid: Rid, key: Key, calm: Calm, retire: bool)
    requires Inv(t) && rid in t.requests && Quiet(calm.recover) && Quiet(calm.adopt)
    requires calm.recover.minted.None? && calm.adopt.minted.None?
    requires var r := t.requests[rid];
             && r.alternate.None? && r.pid in t.bridges && !t.bridges[r.pid].readOnly
             && r.sent == Some(t.bridges[r.pid].apiKey) && r.sent.value !in t.portal.live
             && t.bridges[r.pid].pendingKey == r.proposal == Some(key)
             && t.disk.file == Some(Record(r.sent.value, Some(key)))
    ensures RetryRotates(t, rid, key, calm, retire)
  {
    var r := t.requests[rid];
    RefusedKeyHasLiveSuccessor(t, r.pid);
    NewestIsLive(t.portal);
    RecoverThenAdopt(t.bridges[r.pid], t.disk, r.sent.value, key, calm.recover, calm.adopt);
    hide *;
    RetriedState(t, rid, calm.recover, key);
    var v, m := Apply(t, RecoverAndRetry(rid, calm.recover)), Message(key, Some(key));
    AnsweredState(v, m, true, retire);
    var w := Apply(v, Deliver(m, true, retire));
    AdoptedState(w, rid, calm.adopt, key);
    RetryRotatesIs(t, rid, key, calm, retire);
  }

  lemma RetryRotatesIs(t: System, rid: Rid, key: Key, calm: Calm, retire: bool)
    requires rid in t.requests && Enabled(t, RecoverAndRetry(rid, calm.recover))
    requires var v := Apply(t, RecoverAndRetry(rid, calm.recover));
             && Message(key, Some(key)) in v.wire && key in v.portal.live
             && Enabled(v, Deliver(Message(key, Some(key)), true, retire))
             && var w := Apply(v, Deliver(Message(key, Some(key)), true, retire));
             && Enabled(w, AdoptRetried(rid, calm.adopt))
             && var x, pid := Apply(w, AdoptRetried(rid, calm.adopt)), t.requests[rid].pid;
             && x.disk.file == Some(Record(key, None)) && x.disk.survivors == {x.disk.file}
             && pid in x.bridges && x.bridges[pid].apiKey == key && x.bridges[pid].pendingKey == None
    ensures RetryRotates(t, rid, key, calm, retire)
  {
    hide Apply, Enabled;
  }

  // A read-only process re-reads the file instead: its one retry is accepted exactly when the
  // visible current key is live, or is the refused key itself.
  lemma ReadOnlyRetry(s: System, pid: Pid, env: Env)
    requires Reachable(s) && pid in s.bridges && s.bridges[pid].readOnly && env.readable
    requires s.bridges[pid].apiKey !in s.portal.live
    ensures var alternate := Recover(s.bridges[pid], s.disk, s.bridges[pid].apiKey, env).1;
            var current := Seen(s.root, s.disk.file).current;
            alternate.Some? && alternate.value in s.portal.live
            <==> current in s.portal.live || current == s.bridges[pid].apiKey
  {
    ReachableInv(s);
    var c := s.bridges[pid];
    assert CacheOk(s.portal, s.disk, c);
    LoadSeesFile(s.portal, s.disk, c.apiKey);
    assert HoldsNewest(s.portal, Seen(s.root, s.disk.file));
  }
}
