// The durable credential record, the bridge's cached copy of it, and every locked transition
// of mcp/rotate.go as a function from (cache, disk, environment) to (cache', disk', status).

module CredentialState {
  import opened Options

  // API keys are compared, hashed and minted, never inspected, so a number stands for each.
  // SHA-256 is taken to be injective: a rotation hash is represented by the key it hashes.
  type Key = nat

  datatype Record = Record(current: Key, pending: Option<Key>) {
    // credentialState.validate: a pending key equal to the current one is refused.
    predicate Valid() {
      pending != Some(current)
    }
  }

  // `file` is what a read returns now. `survivors` are the versions a power loss may leave
  // behind: everything written since the last successful directory sync, and that one.
  // `mtime` is the fingerprint a stat returns; a rename may set it to any value at all.
  datatype Disk = Disk(file: Option<Record>, mtime: nat, survivors: set<Option<Record>>)

  datatype Cache = Cache(apiKey: Key, pendingKey: Option<Key>, stamp: Option<nat>, readOnly: bool)

  datatype PersistOutcome = Stored(mtime: nat) | FailedBeforeRename | FailedAfterRename(mtime: nat)

  // What the surroundings answer during one locked section.
  datatype Env = Env(
    locked: bool,            // secureDirectory and flock both succeeded
    readable: bool,          // the file passed its checks and decoded, or was absent
    statBefore: bool,        // Lstat before the section found a regular file
    statAfter: bool,         // Lstat at the end of the section did
    confirm: PersistOutcome, // the first persist of the section
    commit: PersistOutcome,  // the second one
    minted: Option<Key>)     // what generateAPIKey returned

  datatype Status = Done | WriteUnavailable | Failed

  datatype Step = Step(cache: Cache, disk: Disk, status: Status)

  function StampOf(d: Disk, statOk: bool): Option<nat> {
    if statOk && d.file.Some? then Some(d.mtime) else None
  }

  predicate StampMatches(c: Cache, d: Disk, statOk: bool) {
    c.stamp.Some? && c.stamp == StampOf(d, statOk)
  }

  function Load(d: Disk, fallback: Key): Record {
    if d.file.Some? then d.file.value else Record(fallback, None)
  }

  predicate Readable(d: Disk, fallback: Key, env: Env) {
    env.readable && Load(d, fallback).Valid()
  }

  predicate PersistOk(r: Record, o: PersistOutcome) {
    r.Valid() && o.Stored?
  }

  function Persist(d: Disk, r: Record, o: PersistOutcome): Disk {
    if !r.Valid() then d
    else match o
      case Stored(t) => Disk(Some(r), t, {Some(r)})
      case FailedBeforeRename => d
      case FailedAfterRename(t) => Disk(Some(r), t, d.survivors + {Some(r)})
  }

  predicate SameAsCache(c: Cache, r: Record) {
    r.current == c.apiKey && r.pending == c.pendingKey
  }

  // A transition a peer made is re-persisted before this process relies on it.
  function Confirm(c: Cache, d: Disk, r: Record, o: PersistOutcome): Disk {
    if SameAsCache(c, r) then d else Persist(d, r, o)
  }

  predicate ConfirmOk(c: Cache, r: Record, o: PersistOutcome) {
    SameAsCache(c, r) || PersistOk(r, o)
  }

  // withSyncedStore: a successful section records the stamp, a failed one drops it.
  function Synced(c: Cache, d: Disk, env: Env): Step {
    Step(c.(stamp := StampOf(d, env.statAfter)), d, Done)
  }

  function Unsynced(c: Cache, d: Disk): Step {
    Step(c.(stamp := None), d, Failed)
  }

  // The shared opening of refresh, recovery and proposal: read, confirm, adopt.
  function Reload(c: Cache, d: Disk, fallback: Key, env: Env): Step {
    if !env.locked then Step(c, d, WriteUnavailable)
    else if !Readable(d, fallback, env) then Unsynced(c, d)
    else
      var r := Load(d, fallback);
      if ConfirmOk(c, r, env.confirm) then
        Synced(c.(apiKey := r.current, pendingKey := r.pending), Confirm(c, d, r, env.confirm), env)
      else Unsynced(c, Confirm(c, d, r, env.confirm))
  }

  // refreshCredentialState
  function Refresh(c: Cache, d: Disk, env: Env): Step {
    if StampMatches(c, d, env.statBefore) then Step(c, d, Done)
    else if c.readOnly then
      if Readable(d, c.apiKey, env)
      then Step(c.(pendingKey := None, stamp := StampOf(d, env.statBefore)), d, Done)
      else Unsynced(c, d)
    else Reload(c, d, c.apiKey, env)
  }

  // The key to retry with once the portal has refused `rejected`.
  function Alternate(r: Record, rejected: Key): Option<Key> {
    if r.current != rejected then Some(r.current)
    else if r.pending.Some? && r.pending != Some(rejected) then r.pending
    else None
  }

  // credentialRecoveryKey
  function Recover(c: Cache, d: Disk, rejected: Key, env: Env): (Step, Option<Key>) {
    if c.readOnly then
      if Readable(d, rejected, env) then (Step(c, d, Done), Alternate(Load(d, rejected), rejected))
      else (Step(c, d, Failed), None)
    else
      var step := Reload(c, d, rejected, env);
      (step, if step.status.Done? then Alternate(Load(d, rejected), rejected) else None)
  }

  // adoptRecoveryKey
  function Adopt(c: Cache, d: Disk, key: Key, env: Env): Step {
    if c.readOnly then Step(c.(apiKey := key, pendingKey := None), d, Done)
    else if !env.locked then Step(c, d, WriteUnavailable)
    else if !Readable(d, c.apiKey, env) then Unsynced(c, d)
    else
      var r := Load(d, c.apiKey);
      if r == Record(key, None) || r.pending == Some(key) then
        Promote(c, d, key, env)
      else Unsynced(c, d)
  }

  function Promote(c: Cache, d: Disk, key: Key, env: Env): Step {
    var promoted := Record(key, None);
    if PersistOk(promoted, env.confirm) then
      Synced(c.(apiKey := key, pendingKey := None), Persist(d, promoted, env.confirm), env)
    else Unsynced(c, Persist(d, promoted, env.confirm))
  }

  // acknowledgeRotation
  function Acknowledge(c: Cache, d: Disk, ack: Key, env: Env): Step {
    if c.readOnly || c.pendingKey != Some(ack) then Step(c, d, Done)
    else if !env.locked then Step(c, d, WriteUnavailable)
    else if !Readable(d, c.apiKey, env) then Unsynced(c, d)
    else
      var r := Load(d, c.apiKey);
      if r == Record(ack, None) || r.pending == Some(ack) then
        Promote(c, d, ack, env)
      else Unsynced(c, d)
  }

  // rotationProposal: the step taken and the successor offered, if any.
  function Propose(c: Cache, d: Disk, env: Env): (Step, Option<Key>) {
    if c.readOnly then (Step(c, d, Done), None)
    else if c.pendingKey.Some? && StampMatches(c, d, env.statBefore) then (Step(c, d, Done), c.pendingKey)
    else
      var reload := Reload(c, d, c.apiKey, env);
      if !reload.status.Done? then (reload, None)
      else
        var r := Load(d, c.apiKey);
        if r.pending.Some? then (reload, r.pending)
        else if r.current != c.apiKey then (reload, None)
        else if env.minted.None? then (Unsynced(reload.cache, reload.disk), None)
        else
          var next := Record(r.current, env.minted);
          var disk := Persist(reload.disk, next, env.commit);
          if PersistOk(next, env.commit)
          then (Synced(reload.cache.(pendingKey := env.minted), disk, env), env.minted)
          else (Unsynced(reload.cache, disk), None)
  }
}
