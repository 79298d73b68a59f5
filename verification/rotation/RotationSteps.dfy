// What each locked section of mcp/rotate.go does, read off the credential file before and after it.

module RotationSteps {
  import opened CredentialState
  import opened Options
  import opened RotationSafety

  // The section is entered, and the file it finds is usable.
  predicate Enters(c: Cache, d: Disk, fallback: Key, env: Env) {
    env.locked && env.readable && Seen(fallback, d.file).pending != Some(Seen(fallback, d.file).current)
  }

  // The keys of a record, and the version that is visible and the only one a power loss can leave.
  predicate Holding(c: Cache, r: Record) {
    c.apiKey == r.current && c.pendingKey == r.pending
  }

  predicate Durable(d: Disk, r: Record) {
    d.file == Some(r) && d.survivors == {Some(r)}
  }

  // The file is the one this process last left or read, as far as stat can tell.
  predicate Unmoved(c: Cache, d: Disk, env: Env) {
    c.stamp.Some? && env.statBefore && d.file.Some? && c.stamp.value == d.mtime
  }

  // A section takes the file over into the cache. What it did not know before it first makes durable; where that
  // fails, and where the file cannot be used, it keeps its own keys and forgets the stamp.
  predicate TakesOver(c: Cache, d: Disk, fallback: Key, env: Env, step: Step) {
    var r := Seen(fallback, d.file);
    && (step.status.WriteUnavailable? <==> !env.locked)
    && (step.status.Done? <==> Enters(c, d, fallback, env) && (Holding(c, r) || env.confirm.Stored?))
    && step.cache.readOnly == c.readOnly
    && (step.status.Done? ==> Holding(step.cache, r) && if Holding(c, r) then step.disk == d else Durable(step.disk, r))
    && (step.status.Failed? ==> step.cache == c.(stamp := None))
    && (step.status.WriteUnavailable? ==> step.cache == c && step.disk == d)
  }

  // A key that is current alone, or pending, becomes current alone, durably; any other file is left as it is.
  predicate Promotes(c: Cache, d: Disk, key: Key, env: Env, step: Step) {
    var r := Seen(c.apiKey, d.file);
    var promotable := r == Record(key, None) || r.pending == Some(key);
    && (step.status.WriteUnavailable? <==> !env.locked)
    && (step.status.Done? <==> Enters(c, d, c.apiKey, env) && promotable && env.confirm.Stored?)
    && step.cache.readOnly == c.readOnly
    && (step.status.Done? ==> Holding(step.cache, Record(key, None)) && Durable(step.disk, Record(key, None)))
    && (step.status.Failed? ==> step.cache == c.(stamp := None))
    && (!promotable || step.status.WriteUnavailable? ==> step.disk == d)
    && (step.status.WriteUnavailable? ==> step.cache == c)
  }

  lemma RefreshTakesOver(c: Cache, d: Disk, env: Env)
    ensures var step := Refresh(c, d, env);
            if Unmoved(c, d, env) then step == Step(c, d, Done)
            else if c.readOnly then
              && step.disk == d
              && if env.readable && Seen(c.apiKey, d.file).Valid() then
                   step.status.Done? && step.cache == c.(pendingKey := None, stamp := step.cache.stamp)
                 else step == Step(c.(stamp := None), d, Failed)
            else TakesOver(c, d, c.apiKey, env, step)
  {
  }

  // The key to retry with is the visible current key, or, when that is the one refused, its successor.
  lemma RecoveryTakesOver(c: Cache, d: Disk, rejected: Key, env: Env)
    ensures var (step, alternate), r := Recover(c, d, rejected, env), Seen(rejected, d.file);
            && (if c.readOnly then
                  step == Step(c, d, if env.readable && r.Valid() then Done else Failed)
                else TakesOver(c, d, rejected, env, step))
            && alternate ==
               if !step.status.Done? then None
               else if r.current != rejected then Some(r.current)
               else r.pending
  {
  }

  lemma AdoptionPromotes(c: Cache, d: Disk, key: Key, env: Env)
    ensures var step := Adopt(c, d, key, env);
            if c.readOnly then step == Step(c.(apiKey := key, pendingKey := None), d, Done)
            else Promotes(c, d, key, env, step)
  {
  }

  // An acknowledgement of anything but the pending key of a writable process is ignored.
  lemma AcknowledgementPromotes(c: Cache, d: Disk, ack: Key, env: Env)
    ensures var step := Acknowledge(c, d, ack, env);
            if c.readOnly || c.pendingKey != Some(ack) then step == Step(c, d, Done)
            else Promotes(c, d, ack, env, step)
  {
  }

  // A proposal re-offers what it knows while the file has not moved. Otherwise it takes the file over, and
  // offers the successor it finds there; where there is none it makes a new one durable beside the current key
  // and offers that, unless a peer has just made another key current.
  lemma ProposalOffers(c: Cache, d: Disk, env: Env)
    requires !c.readOnly && !(c.pendingKey.Some? && Unmoved(c, d, env))
    ensures var (step, offered), r := Propose(c, d, env), Seen(c.apiKey, d.file);
            var taken := Enters(c, d, c.apiKey, env) && (Holding(c, r) || env.confirm.Stored?);
            var mints := r.pending.None? && r.current == c.apiKey;
            var stored := env.minted.Some? && env.minted.value != r.current && env.commit.Stored?;
            && (step.status.Done? <==> taken && (mints ==> stored))
            && offered == (if !step.status.Done? then None else if mints then env.minted else r.pending)
            && (step.status.Done? && mints ==>
                  && Durable(step.disk, Record(r.current, env.minted))
                  && Holding(step.cache, Record(r.current, env.minted)))
            && (step.status.Done? && !mints ==>
                  Holding(step.cache, r) && if Holding(c, r) then step.disk == d else Durable(step.disk, r))
            && (!taken ==> step.cache.apiKey == c.apiKey && step.cache.pendingKey == c.pendingKey)
            && step.cache.readOnly == c.readOnly
  {
  }

  lemma ProposalRepeats(c: Cache, d: Disk, env: Env)
    requires c.readOnly || (c.pendingKey.Some? && Unmoved(c, d, env))
    ensures Propose(c, d, env) == (Step(c, d, Done), if c.readOnly then None else c.pendingKey)
  {
  }

  // A section that succeeded records the file it left, so the next request needs no lock, no read and no
  // write while the file stays.
  lemma SteadyStateNeedsNoLock(c: Cache, d: Disk, env: Env, next: Env)
    requires env.statBefore && env.statAfter && next.statBefore && Refresh(c, d, env).status.Done?
    requires d.file.Some? || (!c.readOnly && !Holding(c, Seen(c.apiKey, d.file)))
    requires c.readOnly ==> c.pendingKey.None?
    ensures var step := Refresh(c, d, env);
            && step.disk.file.Some? && step.cache.stamp == Some(step.disk.mtime)
            && Refresh(step.cache, step.disk, next) == Step(step.cache, step.disk, Done)
            && (step.cache.pendingKey.Some? ==>
                  Propose(step.cache, step.disk, next) == (Step(step.cache, step.disk, Done), step.cache.pendingKey))
  {
  }

  lemma NewSuccessorIsReoffered(c: Cache, d: Disk, env: Env, next: Env)
    requires !c.readOnly && env.statAfter && next.statBefore && Propose(c, d, env).1.Some?
    requires !(c.pendingKey.Some? && Unmoved(c, d, env))
    ensures var (step, offered) := Propose(c, d, env);
            Propose(step.cache, step.disk, next) == (Step(step.cache, step.disk, Done), offered)
  {
  }
}
