// Many bridge processes, one credential file and one portal, as a state machine. Each locked
// section is one atomic step; a request is several steps, so the threads of one process and the
// processes of one machine interleave freely between them.

module RotationProtocol {
  import opened CredentialState
  import opened Options

  type Pid = nat
  type Rid = nat

  datatype Message = Message(auth: Key, proposal: Option<Key>)

  // `registered` lists the keys the portal has ever accepted for registration, in order;
  // `parent` names the key that authenticated each registration.
  datatype Portal = Portal(registered: seq<Key>, parent: map<Key, Key>, live: set<Key>, used: set<Key>)

  // One call of forwardRequestContext: the successor it offers, the key it was first sent with,
  // and the recovery key it was retried with.
  datatype Request = Request(pid: Pid, proposal: Option<Key>, sent: Option<Key>, alternate: Option<Key>)

  // `wire` only grows: a message in it may reach the portal later, never, or more than once.
  // `minted` holds every key that exists, so that a new one can be told from all of them.
  datatype System = System(
    root: Key,
    portal: Portal,
    disk: Disk,
    bridges: map<Pid, Cache>,
    requests: map<Rid, Request>,
    wire: set<Message>,
    minted: set<Key>)

  datatype Action =
    | StartProcess(pid: Pid, key: Key)
    | DegradeToReadOnly(pid: Pid)
    | RefreshState(pid: Pid, env: Env)
    | BeginRequest(pid: Pid, rid: Rid, env: Env)
    | BeginNotification(pid: Pid, rid: Rid)
    | SendRequest(rid: Rid)
    | RecoverAndRetry(rid: Rid, env: Env)
    | AdoptRetried(rid: Rid, env: Env)
    | AcknowledgeSuccessor(pid: Pid, ack: Key, env: Env)
    | EndRequest(rid: Rid)
    | Deliver(message: Message, register: bool, retire: bool)
    | CrashProcess(pid: Pid)
    | PowerLoss(survivor: Option<Record>, mtime: nat)

  predicate Fresh(s: System, env: Env) {
    env.minted.Some? ==> env.minted.value !in s.minted
  }

  predicate Enabled(s: System, a: Action) {
    match a
    case StartProcess(pid, key) =>
      pid !in s.bridges && (key == s.root || (s.disk.file.Some? && key == s.disk.file.value.current))
    case DegradeToReadOnly(pid) =>
      pid in s.bridges && forall rid <- s.requests :: s.requests[rid].pid != pid
    case RefreshState(pid, env) => pid in s.bridges && Fresh(s, env)
    case BeginRequest(pid, rid, env) => pid in s.bridges && rid !in s.requests && Fresh(s, env)
    case BeginNotification(pid, rid) => pid in s.bridges && rid !in s.requests
    case SendRequest(rid) =>
      rid in s.requests && s.requests[rid].sent.None? && s.requests[rid].pid in s.bridges
    case RecoverAndRetry(rid, env) =>
      rid in s.requests && s.requests[rid].sent.Some? && s.requests[rid].alternate.None?
      && s.requests[rid].pid in s.bridges && Fresh(s, env)
    case AdoptRetried(rid, env) =>
      rid in s.requests && s.requests[rid].alternate.Some? && s.requests[rid].alternate.value in s.portal.used
      && s.requests[rid].pid in s.bridges && Fresh(s, env)
    case AcknowledgeSuccessor(pid, ack, env) =>
      pid in s.bridges && ack in s.portal.registered && Fresh(s, env)
    case EndRequest(rid) => rid in s.requests
    case Deliver(message, register, retire) => message in s.wire
    case CrashProcess(pid) => pid in s.bridges
    case PowerLoss(survivor, mtime) => survivor in s.disk.survivors
  }

  // The portal answers 401 to a key that is not live. The first accepted use of a successor may
  // retire the key it succeeds; an accepted request may register a successor not seen before.
  function Receive(p: Portal, m: Message, register: bool, retire: bool): Portal {
    if m.auth !in p.live then p
    else
      var retired := if retire && m.auth !in p.used && m.auth in p.parent then {p.parent[m.auth]} else {};
      var q := p.(live := p.live - retired, used := p.used + {m.auth});
      if register && m.proposal.Some? && m.proposal.value !in p.registered then
        var key := m.proposal.value;
        q.(registered := q.registered + [key], parent := q.parent[key := m.auth], live := q.live + {key})
      else q
  }

  function Mint(s: System, env: Env): set<Key> {
    if env.minted.Some? then s.minted + {env.minted.value} else s.minted
  }

  function Locked(s: System, pid: Pid, step: Step, env: Env): System {
    s.(disk := step.disk, bridges := s.bridges[pid := step.cache], minted := Mint(s, env))
  }

  function Apply(s: System, a: Action): System
    requires Enabled(s, a)
  {
    match a
    case StartProcess(pid, key) => s.(bridges := s.bridges[pid := Cache(key, None, None, false)])
    case DegradeToReadOnly(pid) =>
      s.(bridges := s.bridges[pid := s.bridges[pid].(readOnly := true, pendingKey := None)])
    case RefreshState(pid, env) => Locked(s, pid, Refresh(s.bridges[pid], s.disk, env), env)
    case BeginRequest(pid, rid, env) =>
      var (step, offered) := Propose(s.bridges[pid], s.disk, env);
      Locked(s, pid, step, env).(requests := s.requests[rid := Request(pid, offered, None, None)])
    case BeginNotification(pid, rid) =>
      s.(requests := s.requests[rid := Request(pid, None, None, None)])
    case SendRequest(rid) =>
      var r := s.requests[rid];
      var key := s.bridges[r.pid].apiKey;
      s.(requests := s.requests[rid := r.(sent := Some(key))], wire := s.wire + {Message(key, r.proposal)})
    case RecoverAndRetry(rid, env) =>
      var r := s.requests[rid];
      var (step, alternate) := Recover(s.bridges[r.pid], s.disk, r.sent.value, env);
      var t := Locked(s, r.pid, step, env).(requests := s.requests[rid := r.(alternate := alternate)]);
      if alternate.Some? then t.(wire := t.wire + {Message(alternate.value, r.proposal)}) else t
    case AdoptRetried(rid, env) =>
      var r := s.requests[rid];
      Locked(s, r.pid, Adopt(s.bridges[r.pid], s.disk, r.alternate.value, env), env)
    case AcknowledgeSuccessor(pid, ack, env) =>
      Locked(s, pid, Acknowledge(s.bridges[pid], s.disk, ack, env), env)
    case EndRequest(rid) => s.(requests := s.requests - {rid})
    case Deliver(message, register, retire) => s.(portal := Receive(s.portal, message, register, retire))
    case CrashProcess(pid) =>
      s.(bridges := s.bridges - {pid},
         requests := map rid | rid in s.requests && s.requests[rid].pid != pid :: s.requests[rid])
    case PowerLoss(survivor, mtime) =>
      s.(disk := Disk(survivor, mtime, {survivor}), bridges := map[], requests := map[])
  }

  // The run begins with the configured key known to the portal and no process running. The file
  // is absent, or holds the configured key as a login left it.
  ghost predicate Init(s: System) {
    && s.portal == Portal([s.root], map[], {s.root}, {})
    && (s.disk.file == None || s.disk.file == Some(Record(s.root, None)))
    && s.disk.survivors == {s.disk.file}
    && s.bridges == map[] && s.requests == map[] && s.wire == {}
    && s.minted == {s.root}
  }

  ghost predicate Next(s: System, t: System) {
    exists a: Action :: Enabled(s, a) && t == Apply(s, a)
  }

  ghost predicate IsRun(run: seq<System>) {
    && |run| > 0
    && Init(run[0])
    && forall i :: 0 <= i < |run| - 1 ==> Next(run[i], run[i + 1])
  }

  ghost predicate Reachable(s: System) {
    exists run: seq<System> :: IsRun(run) && run[|run| - 1] == s
  }
}
