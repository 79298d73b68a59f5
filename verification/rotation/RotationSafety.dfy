// What every step of the rotation protocol keeps, and what that means over whole runs.

module RotationSafety {
  import opened CredentialState
  import opened Options
  import opened RotationProtocol

  // ---------------------------------------------------------------- the invariant

  // What a process configured with `root` reads when `version` is the one on disk.
  function Seen(root: Key, version: Option<Record>): Record {
    if version.Some? then version.value else Record(root, None)
  }

  ghost predicate ChainOk(p: Portal) {
    && |p.registered| > 0
    && (forall i, j :: 0 <= i < j < |p.registered| ==> p.registered[i] != p.registered[j])
    && (forall i :: 0 < i < |p.registered| ==> p.registered[i] in p.parent)
    && (forall i :: 0 < i < |p.registered| ==> p.parent[p.registered[i]] == p.registered[i - 1])
    && (forall k <- p.parent :: k in p.registered && k != p.registered[0])
    && (forall k <- p.live :: k in p.registered)
    && (forall k <- p.used :: k in p.registered)
    && Newest(p) in p.live
  }

  function Newest(p: Portal): Key
    requires |p.registered| > 0
  {
    p.registered[|p.registered| - 1]
  }

  // In the chain of registered keys, `earlier` stands at most `gap` links after `later`.
  ghost predicate Within(p: Portal, earlier: Key, later: Key, gap: nat) {
    forall i, j | 0 <= i < |p.registered| && 0 <= j < |p.registered| ::
      p.registered[i] == earlier && p.registered[j] == later ==> i <= j + gap
  }

  // A record holds the newest registered key as its current key, beside a successor the portal
  // has not registered, or as the successor of the key before it.
  ghost predicate HoldsNewest(p: Portal, r: Record)
    requires |p.registered| > 0
  {
    || (r.current == Newest(p) && (r.pending.Some? ==> r.pending.value !in p.registered))
    || (|p.registered| > 1 && r.current == p.registered[|p.registered| - 2] && r.pending == Some(Newest(p)))
  }

  ghost predicate DiskOk(p: Portal, d: Disk)
    requires |p.registered| > 0
  {
    && d.file in d.survivors
    && forall v <- d.survivors :: HoldsNewest(p, Seen(p.registered[0], v))
  }

  // The version on disk, which is the only one that can survive, makes `key` the successor of
  // the newest registered key.
  ghost predicate PendingEverywhere(p: Portal, d: Disk, key: Key)
    requires |p.registered| > 0
  {
    forall v <- d.survivors :: v == Some(Record(Newest(p), Some(key)))
  }

  // A secret whose hash a process with the current key `current` may offer.
  ghost predicate Offerable(p: Portal, d: Disk, key: Key, current: Key)
    requires |p.registered| > 0
  {
    if key in p.registered then Within(p, key, current, 1)
    else PendingEverywhere(p, d, key) && current == Newest(p)
  }

  ghost predicate CacheOk(p: Portal, d: Disk, c: Cache)
    requires |p.registered| > 0
  {
    && c.apiKey in p.registered
    && (c.readOnly ==> c.pendingKey.None?)
    && (!c.readOnly ==> Within(p, c.apiKey, Seen(p.registered[0], d.file).current, 0))
    && (c.pendingKey.Some? ==> Offerable(p, d, c.pendingKey.value, c.apiKey))
  }

  ghost predicate RequestOk(s: System, r: Request)
    requires |s.portal.registered| > 0
  {
    && r.pid in s.bridges
    && (r.sent.Some? ==> r.sent.value in s.portal.registered)
    && (r.proposal.Some? ==>
          && !s.bridges[r.pid].readOnly
          && Offerable(s.portal, s.disk, r.proposal.value, s.bridges[r.pid].apiKey))
  }

  ghost predicate MessageOk(p: Portal, d: Disk, m: Message)
    requires |p.registered| > 0
  {
    m.proposal.Some? ==>
      var key := m.proposal.value;
      if key in p.registered then Within(p, key, m.auth, 1)
      else PendingEverywhere(p, d, key) && (m.auth == Newest(p) || m.auth == key)
  }

  ghost predicate PendingsMinted(d: Disk, minted: set<Key>) {
    forall v <- d.survivors :: v.Some? && v.value.pending.Some? ==> v.value.pending.value in minted
  }

  ghost predicate MintedOk(s: System) {
    && (forall k <- s.portal.registered :: k in s.minted)
    && PendingsMinted(s.disk, s.minted)
    && (forall m <- s.wire :: m.auth in s.minted)
  }

  ghost predicate Inv(s: System) {
    && ChainOk(s.portal)
    && s.root == s.portal.registered[0]
    && DiskOk(s.portal, s.disk)
    && MintedOk(s)
    && (forall pid <- s.bridges :: CacheOk(s.portal, s.disk, s.bridges[pid]))
    && (forall rid <- s.requests :: RequestOk(s, s.requests[rid]))
    && (forall m <- s.wire :: MessageOk(s.portal, s.disk, m))
  }

  // ---------------------------------------------------------------- moves of the disk

  lemma NothingAfterNewest(p: Portal, a: Key)
    requires ChainOk(p)
    ensures Within(p, a, Newest(p), 0)
  {
  }

  lemma WithinItself(p: Portal, key: Key)
    requires ChainOk(p)
    ensures Within(p, key, key, 0)
  {
  }

  lemma KeyIsRegistered(p: Portal, d: Disk, c: Cache)
    requires |p.registered| > 0 && CacheOk(p, d, c)
    ensures c.apiKey in p.registered
  {
  }

  // What a locked section may do to the disk: keep the newest key in every version, leave an
  // offered secret where it is, and never move the visible current key back.
  ghost predicate DiskAdvances(p: Portal, d: Disk, e: Disk)
    requires |p.registered| > 0
  {
    && DiskOk(p, e)
    && (forall k :: k !in p.registered && PendingEverywhere(p, d, k) ==> PendingEverywhere(p, e, k))
    && Within(p, Seen(p.registered[0], d.file).current, Seen(p.registered[0], e.file).current, 0)
  }

  lemma UnchangedAdvances(p: Portal, d: Disk)
    requires ChainOk(p) && DiskOk(p, d)
    ensures DiskAdvances(p, d, d)
  {
  }

  // With no file, the configured key is the only one registered, so any fallback key reads as it.
  lemma LoadSeesFile(p: Portal, d: Disk, fallback: Key)
    requires ChainOk(p) && DiskOk(p, d) && fallback in p.registered
    ensures Load(d, fallback) == Seen(p.registered[0], d.file)
    ensures Load(d, fallback).Valid() && Load(d, fallback).current in p.registered
  {
  }

  lemma RewriteAdvances(p: Portal, d: Disk, r: Record, o: PersistOutcome)
    requires ChainOk(p) && DiskOk(p, d) && r == Seen(p.registered[0], d.file)
    ensures DiskAdvances(p, d, Persist(d, r, o))
  {
  }

  lemma PromoteAdvances(p: Portal, d: Disk, key: Key, o: PersistOutcome)
    requires ChainOk(p) && DiskOk(p, d) && key in p.registered
    requires var r := Seen(p.registered[0], d.file); r == Record(key, None) || r.pending == Some(key)
    ensures key == Newest(p)
    ensures DiskAdvances(p, d, Persist(d, Record(key, None), o))
  {
  }

  lemma PrepareAdvances(p: Portal, d: Disk, key: Key, o: PersistOutcome)
    requires ChainOk(p) && DiskOk(p, d) && key !in p.registered
    requires Seen(p.registered[0], d.file).pending.None?
    ensures Seen(p.registered[0], d.file).current == Newest(p)
    ensures DiskAdvances(p, d, Persist(d, Record(Newest(p), Some(key)), o))
    ensures PersistOk(Record(Newest(p), Some(key)), o) ==>
              PendingEverywhere(p, Persist(d, Record(Newest(p), Some(key)), o), key)
  {
  }

  lemma AdvancesTrans(p: Portal, d: Disk, e: Disk, f: Disk)
    requires ChainOk(p) && DiskAdvances(p, d, e) && DiskAdvances(p, e, f)
    ensures DiskAdvances(p, d, f)
  {
  }

  // ---------------------------------------------------------------- one locked section

  // A step of a process that keeps its cache sound while the disk advances.
  ghost predicate StepOk(p: Portal, c: Cache, d: Disk, step: Step)
    requires |p.registered| > 0
  {
    && DiskAdvances(p, d, step.disk)
    && CacheOk(p, step.disk, step.cache)
    && step.cache.readOnly == c.readOnly
    && (!c.readOnly ==> Within(p, c.apiKey, step.cache.apiKey, 0))
  }

  // The own cache of a process survives a move of the disk that left it alone.
  lemma CacheSurvives(p: Portal, c: Cache, d: Disk, e: Disk)
    requires ChainOk(p) && DiskOk(p, d) && CacheOk(p, d, c) && DiskAdvances(p, d, e)
    ensures CacheOk(p, e, c)
  {
  }

  lemma OfferSurvives(p: Portal, key: Key, a: Key, b: Key, d: Disk, e: Disk)
    requires ChainOk(p) && DiskAdvances(p, d, e) && Offerable(p, d, key, a)
    requires a in p.registered && b in p.registered && Within(p, a, b, 0)
    ensures Offerable(p, e, key, b)
  {
  }

  // A cache equal to a sound version of the file may offer its pending secret, once that version
  // is the only one that survives or the portal has seen the secret.
  lemma ReloadOk(p: Portal, c: Cache, d: Disk, fallback: Key, env: Env)
    requires ChainOk(p) && DiskOk(p, d) && CacheOk(p, d, c) && !c.readOnly && fallback in p.registered
    ensures StepOk(p, c, d, Reload(c, d, fallback, env))
    ensures Reload(c, d, fallback, env).status.Done? ==>
              Seen(p.registered[0], Reload(c, d, fallback, env).disk.file) == Load(d, fallback)
  {
    var root := p.registered[0];
    LoadSeesFile(p, d, fallback);
    var r := Load(d, fallback);
    assert HoldsNewest(p, r);
    UnchangedAdvances(p, d);
    RewriteAdvances(p, d, r, env.confirm);
    var step := Reload(c, d, fallback, env);
    if step.status.Done? {
      if r.pending.Some? && !SameAsCache(c, r) {
        assert step.disk.survivors == {Some(r)};
      }
    } else {
      CacheSurvives(p, c, d, step.disk);
    }
  }

  lemma RefreshOk(p: Portal, c: Cache, d: Disk, env: Env)
    requires ChainOk(p) && DiskOk(p, d) && CacheOk(p, d, c)
    ensures StepOk(p, c, d, Refresh(c, d, env))
  {
    UnchangedAdvances(p, d);
    if !c.readOnly {
      ReloadOk(p, c, d, c.apiKey, env);
    }
  }

  // The alternate key a recovery returns is never older than the process's own key, and is
  // registered or is the secret every version holds as pending.
  lemma RecoverOk(p: Portal, c: Cache, d: Disk, rejected: Key, env: Env)
    requires ChainOk(p) && DiskOk(p, d) && CacheOk(p, d, c) && rejected in p.registered
    ensures StepOk(p, c, d, Recover(c, d, rejected, env).0)
    ensures var (step, alternate) := Recover(c, d, rejected, env);
            alternate.Some? ==>
              && alternate.value in {Seen(p.registered[0], d.file).current} +
                   (var q := Seen(p.registered[0], d.file).pending; if q.Some? then {q.value} else {})
  {
    UnchangedAdvances(p, d);
    LoadSeesFile(p, d, rejected);
    if !c.readOnly {
      ReloadOk(p, c, d, rejected, env);
    }
  }

  lemma PromoteOk(p: Portal, c: Cache, d: Disk, key: Key, env: Env)
    requires ChainOk(p) && DiskOk(p, d) && CacheOk(p, d, c) && !c.readOnly && key in p.registered
    requires var r := Seen(p.registered[0], d.file); r == Record(key, None) || r.pending == Some(key)
    ensures StepOk(p, c, d, Promote(c, d, key, env))
  {
    hide *;
    var promoted := Record(key, None);
    var e := Persist(d, promoted, env.confirm);
    PromoteAdvances(p, d, key, env.confirm);
    CacheSurvives(p, c, d, e);
    KeyIsRegistered(p, d, c);
    NothingAfterNewest(p, key);
    NothingAfterNewest(p, c.apiKey);
    WithinItself(p, c.apiKey);
    PromoteIs(c, d, key, env);
    PromotedOk(p, c, d, key, e, Promote(c, d, key, env));
  }

  lemma PromoteIs(c: Cache, d: Disk, key: Key, env: Env)
    ensures var step, e := Promote(c, d, key, env), Persist(d, Record(key, None), env.confirm);
            && step.disk == e
            && if PersistOk(Record(key, None), env.confirm) then
                 && e.file == Some(Record(key, None))
                 && step.cache == c.(apiKey := key, pendingKey := None, stamp := step.cache.stamp)
               else step.cache == c.(stamp := step.cache.stamp)
  {
  }

  lemma PromotedOk(p: Portal, c: Cache, d: Disk, key: Key, e: Disk, step: Step)
    requires |p.registered| > 0 && key in p.registered && key == Newest(p) && DiskAdvances(p, d, e) && CacheOk(p, e, c)
    requires Within(p, key, Newest(p), 0) && Within(p, c.apiKey, Newest(p), 0) && Within(p, c.apiKey, c.apiKey, 0)
    requires step.disk == e
    requires || step.cache == c.(stamp := step.cache.stamp)
             || (e.file == Some(Record(key, None))
                 && step.cache == c.(apiKey := key, pendingKey := None, stamp := step.cache.stamp))
    requires !c.readOnly
    ensures StepOk(p, c, d, step)
  {
    hide DiskAdvances, Within, PendingEverywhere, Newest;
  }

  lemma AdoptOk(p: Portal, c: Cache, d: Disk, key: Key, env: Env)
    requires ChainOk(p) && DiskOk(p, d) && CacheOk(p, d, c) && key in p.registered
    ensures StepOk(p, c, d, Adopt(c, d, key, env))
  {
    UnchangedAdvances(p, d);
    if !c.readOnly {
      LoadSeesFile(p, d, c.apiKey);
      var r := Load(d, c.apiKey);
      if r == Record(key, None) || r.pending == Some(key) {
        PromoteOk(p, c, d, key, env);
      }
    }
  }

  lemma AcknowledgeOk(p: Portal, c: Cache, d: Disk, ack: Key, env: Env)
    requires ChainOk(p) && DiskOk(p, d) && CacheOk(p, d, c) && ack in p.registered
    ensures StepOk(p, c, d, Acknowledge(c, d, ack, env))
  {
    UnchangedAdvances(p, d);
    AdoptOk(p, c, d, ack, env);
  }

  lemma ProposeOk(p: Portal, c: Cache, d: Disk, env: Env)
    requires ChainOk(p) && DiskOk(p, d) && CacheOk(p, d, c)
    requires env.minted.Some? ==> env.minted.value !in p.registered
    ensures StepOk(p, c, d, Propose(c, d, env).0)
    ensures var (step, offered) := Propose(c, d, env);
            offered.Some? ==> !c.readOnly && Offerable(p, step.disk, offered.value, step.cache.apiKey)
  {
    UnchangedAdvances(p, d);
    if !c.readOnly {
      ReloadOk(p, c, d, c.apiKey, env);
      LoadSeesFile(p, d, c.apiKey);
      var reload := Reload(c, d, c.apiKey, env);
      var r := Load(d, c.apiKey);
      hide Reload, Load, DiskOk, ChainOk, Persist, PersistOk, Within, PendingEverywhere, DiskAdvances, Seen;
      if reload.status.Done? && r.pending.None? && r.current == c.apiKey && env.minted.Some? {
        MintOk(p, c, d, reload, r, env);
      } else if reload.status.Done? && r.pending.Some? {
        FilePendingOk(p, c, d, reload, r);
      }
    }
  }

  // The successor a process finds on disk is one it may offer.
  lemma FilePendingOk(p: Portal, c: Cache, d: Disk, reload: Step, r: Record)
    requires ChainOk(p) && DiskOk(p, d) && CacheOk(p, d, c) && !c.readOnly
    requires StepOk(p, c, d, reload) && Seen(p.registered[0], reload.disk.file) == r && r.pending.Some?
    requires reload.cache.apiKey == r.current && reload.cache.pendingKey == r.pending
    ensures Offerable(p, reload.disk, r.pending.value, reload.cache.apiKey)
  {
  }

  // A minted successor, once it is stored, is one the process may offer.
  lemma MintOk(p: Portal, c: Cache, d: Disk, reload: Step, r: Record, env: Env)
    requires ChainOk(p) && DiskOk(p, d) && CacheOk(p, d, c) && !c.readOnly
    requires StepOk(p, c, d, reload) && Seen(p.registered[0], reload.disk.file) == r
    requires r.pending.None? && env.minted.Some? && env.minted.value !in p.registered
    requires reload.cache.apiKey == r.current && reload.cache.pendingKey == r.pending
    ensures var next := Record(r.current, env.minted);
            var disk := Persist(reload.disk, next, env.commit);
            && StepOk(p, c, d, Unsynced(reload.cache, disk))
            && (PersistOk(next, env.commit) ==>
                  && StepOk(p, c, d, Synced(reload.cache.(pendingKey := env.minted), disk, env))
                  && Offerable(p, disk, env.minted.value, r.current))
  {
    PrepareAdvances(p, reload.disk, env.minted.value, env.commit);
    var disk := Persist(reload.disk, Record(r.current, env.minted), env.commit);
    AdvancesTrans(p, d, reload.disk, disk);
    CacheSurvives(p, reload.cache, reload.disk, disk);
  }

  // What the invariant says of one process and the disk.
  lemma InvOf(s: System, pid: Pid)
    requires Inv(s) && pid in s.bridges
    ensures |s.portal.registered| > 0 && s.root == s.portal.registered[0]
    ensures ChainOk(s.portal) && DiskOk(s.portal, s.disk) && CacheOk(s.portal, s.disk, s.bridges[pid])
    ensures MintedOk(s) && PendingsMinted(s.disk, s.minted) && s.disk.file in s.disk.survivors
  {
    hide CacheOk, PendingsMinted;
  }

  lemma MessageSurvives(p: Portal, m: Message, d: Disk, e: Disk)
    requires ChainOk(p) && DiskAdvances(p, d, e) && MessageOk(p, d, m)
    ensures MessageOk(p, e, m)
  {
    hide ChainOk, Within, PendingEverywhere, DiskOk;
  }

  lemma StepParts(p: Portal, c: Cache, d: Disk, step: Step)
    requires |p.registered| > 0 && StepOk(p, c, d, step)
    ensures DiskAdvances(p, d, step.disk) && DiskOk(p, step.disk) && CacheOk(p, step.disk, step.cache)
    ensures step.cache.readOnly == c.readOnly && (!c.readOnly ==> Within(p, c.apiKey, step.cache.apiKey, 0))
  {
    hide CacheOk, Within, DiskOk, PendingEverywhere;
  }

  lemma LockedIs(s: System, pid: Pid, step: Step, env: Env)
    ensures Locked(s, pid, step, env) ==
            s.(disk := step.disk, bridges := s.bridges[pid := step.cache], minted := Mint(s, env))
    ensures s.minted <= Mint(s, env)
  {
  }

  lemma LockedBridges(s: System, pid: Pid, step: Step, env: Env)
    requires Inv(s) && pid in s.bridges && StepOk(s.portal, s.bridges[pid], s.disk, step)
    ensures var t := Locked(s, pid, step, env);
            forall other <- t.bridges :: CacheOk(t.portal, t.disk, t.bridges[other])
  {
    hide *;
    InvOf(s, pid);
    LockedIs(s, pid, step, env);
    StepParts(s.portal, s.bridges[pid], s.disk, step);
    var t := Locked(s, pid, step, env);
    forall other <- t.bridges ensures CacheOk(t.portal, t.disk, t.bridges[other]) {
      if other != pid {
        InvOf(s, other);
        CacheSurvives(s.portal, s.bridges[other], s.disk, t.disk);
      }
    }
  }

  lemma RequestParts(s: System, r: Request)
    requires |s.portal.registered| > 0
    ensures RequestOk(s, r) <==>
              && r.pid in s.bridges
              && (r.sent.Some? ==> r.sent.value in s.portal.registered)
              && (r.proposal.Some? ==>
                    && !s.bridges[r.pid].readOnly
                    && Offerable(s.portal, s.disk, r.proposal.value, s.bridges[r.pid].apiKey))
  {
    hide Offerable;
  }

  lemma RequestOf(s: System, rid: Rid)
    requires Inv(s) && rid in s.requests
    ensures ChainOk(s.portal) && RequestOk(s, s.requests[rid])
  {
    hide ChainOk, RequestOk;
  }

  lemma MessageOf(s: System, m: Message)
    requires Inv(s) && m in s.wire
    ensures ChainOk(s.portal) && MessageOk(s.portal, s.disk, m) && m.auth in s.minted
  {
    hide ChainOk, MessageOk;
  }

  lemma LockedRequest(s: System, pid: Pid, step: Step, env: Env, r: Request)
    requires Inv(s) && pid in s.bridges && StepOk(s.portal, s.bridges[pid], s.disk, step)
    requires |s.portal.registered| > 0 && RequestOk(s, r)
    ensures RequestOk(Locked(s, pid, step, env), r)
  {
    hide *;
    InvOf(s, pid);
    LockedIs(s, pid, step, env);
    StepParts(s.portal, s.bridges[pid], s.disk, step);
    RequestParts(s, r);
    var t := Locked(s, pid, step, env);
    RequestParts(t, r);
    if r.proposal.Some? {
      var was, now := s.bridges[r.pid], t.bridges[r.pid];
      InvOf(s, r.pid);
      KeyIsRegistered(s.portal, s.disk, was);
      KeyIsRegistered(s.portal, step.disk, step.cache);
      WithinItself(s.portal, was.apiKey);
      OfferSurvives(s.portal, r.proposal.value, was.apiKey, now.apiKey, s.disk, t.disk);
    }
  }

  lemma LockedMinted(s: System, pid: Pid, step: Step, env: Env)
    requires MintedOk(s) && PendingsMinted(step.disk, Mint(s, env))
    ensures MintedOk(Locked(s, pid, step, env))
  {
    hide PendingsMinted;
  }

  lemma InvIs(s: System)
    requires ChainOk(s.portal) && s.root == s.portal.registered[0] && DiskOk(s.portal, s.disk) && MintedOk(s)
    requires forall pid <- s.bridges :: CacheOk(s.portal, s.disk, s.bridges[pid])
    requires forall rid <- s.requests :: RequestOk(s, s.requests[rid])
    requires forall m <- s.wire :: MessageOk(s.portal, s.disk, m)
    ensures Inv(s)
  {
  }

  lemma LockedKeepsInv(s: System, pid: Pid, step: Step, env: Env)
    requires Inv(s) && pid in s.bridges && StepOk(s.portal, s.bridges[pid], s.disk, step)
    requires PendingsMinted(step.disk, Mint(s, env))
    ensures Inv(Locked(s, pid, step, env))
  {
    hide *;
    InvOf(s, pid);
    StepParts(s.portal, s.bridges[pid], s.disk, step);
    LockedIs(s, pid, step, env);
    LockedMinted(s, pid, step, env);
    LockedBridges(s, pid, step, env);
    var t := Locked(s, pid, step, env);
    forall rid <- t.requests ensures RequestOk(t, t.requests[rid]) {
      RequestOf(s, rid);
      LockedRequest(s, pid, step, env, s.requests[rid]);
    }
    forall m <- t.wire ensures MessageOk(t.portal, t.disk, m) {
      MessageOf(s, m);
      MessageSurvives(s.portal, m, s.disk, t.disk);
    }
    InvIs(t);
  }

  // No locked section but a proposal writes a pending key it did not read.
  lemma RefreshPendings(c: Cache, d: Disk, env: Env, minted: set<Key>)
    requires PendingsMinted(d, minted) && d.file in d.survivors
    ensures PendingsMinted(Refresh(c, d, env).disk, minted)
  {
  }

  lemma AdoptPendings(c: Cache, d: Disk, key: Key, env: Env, minted: set<Key>)
    requires PendingsMinted(d, minted) && d.file in d.survivors
    ensures PendingsMinted(Adopt(c, d, key, env).disk, minted)
  {
  }

  lemma AcknowledgePendings(c: Cache, d: Disk, ack: Key, env: Env, minted: set<Key>)
    requires PendingsMinted(d, minted) && d.file in d.survivors
    ensures PendingsMinted(Acknowledge(c, d, ack, env).disk, minted)
  {
  }

  lemma MintKeepsPendings(s: System, env: Env, d: Disk)
    requires PendingsMinted(d, s.minted)
    ensures PendingsMinted(d, Mint(s, env))
  {
  }

  lemma RefreshKeepsInv(s: System, pid: Pid, env: Env)
    requires Inv(s) && Enabled(s, RefreshState(pid, env))
    ensures Inv(Apply(s, RefreshState(pid, env)))
  {
    var c := s.bridges[pid];
    assert Apply(s, RefreshState(pid, env)) == Locked(s, pid, Refresh(c, s.disk, env), env);
    hide *;
    InvOf(s, pid);
    RefreshOk(s.portal, c, s.disk, env);
    RefreshPendings(c, s.disk, env, s.minted);
    MintKeepsPendings(s, env, Refresh(c, s.disk, env).disk);
    LockedKeepsInv(s, pid, Refresh(c, s.disk, env), env);
  }

  lemma AcknowledgeKeepsInv(s: System, pid: Pid, ack: Key, env: Env)
    requires Inv(s) && Enabled(s, AcknowledgeSuccessor(pid, ack, env))
    ensures Inv(Apply(s, AcknowledgeSuccessor(pid, ack, env)))
  {
    var c := s.bridges[pid];
    assert Apply(s, AcknowledgeSuccessor(pid, ack, env)) == Locked(s, pid, Acknowledge(c, s.disk, ack, env), env);
    hide *;
    InvOf(s, pid);
    AcknowledgeOk(s.portal, c, s.disk, ack, env);
    AcknowledgePendings(c, s.disk, ack, env, s.minted);
    MintKeepsPendings(s, env, Acknowledge(c, s.disk, ack, env).disk);
    LockedKeepsInv(s, pid, Acknowledge(c, s.disk, ack, env), env);
  }

  lemma AdoptKeepsInv(s: System, rid: Rid, env: Env)
    requires Inv(s) && Enabled(s, AdoptRetried(rid, env))
    ensures Inv(Apply(s, AdoptRetried(rid, env)))
  {
    var r := s.requests[rid];
    var c, key := s.bridges[r.pid], r.alternate.value;
    assert Apply(s, AdoptRetried(rid, env)) == Locked(s, r.pid, Adopt(c, s.disk, key, env), env);
    assert key in s.portal.used;
    hide *;
    InvOf(s, r.pid);
    UsedIsRegistered(s.portal, key);
    AdoptOk(s.portal, c, s.disk, key, env);
    AdoptPendings(c, s.disk, key, env, s.minted);
    MintKeepsPendings(s, env, Adopt(c, s.disk, key, env).disk);
    LockedKeepsInv(s, r.pid, Adopt(c, s.disk, key, env), env);
  }

  lemma UsedIsRegistered(p: Portal, key: Key)
    requires ChainOk(p) && key in p.used
    ensures key in p.registered
  {
  }

  lemma AddRequestKeepsInv(s: System, rid: Rid, r: Request)
    requires Inv(s) && RequestOk(s, r)
    ensures Inv(s.(requests := s.requests[rid := r]))
  {
  }

  lemma AddMessageKeepsInv(s: System, m: Message)
    requires Inv(s) && MessageOk(s.portal, s.disk, m) && m.auth in s.minted
    ensures Inv(s.(wire := s.wire + {m}))
  {
  }

  lemma ProposePendings(c: Cache, d: Disk, env: Env, minted: set<Key>, all: set<Key>)
    requires PendingsMinted(d, minted) && d.file in d.survivors
    requires all == if env.minted.Some? then minted + {env.minted.value} else minted
    ensures PendingsMinted(Propose(c, d, env).0.disk, all)
  {
  }

  lemma BeginKeepsInv(s: System, pid: Pid, rid: Rid, env: Env)
    requires Inv(s) && Enabled(s, BeginRequest(pid, rid, env))
    ensures Inv(Apply(s, BeginRequest(pid, rid, env)))
  {
    ProposeOk(s.portal, s.bridges[pid], s.disk, env);
    ProposePendings(s.bridges[pid], s.disk, env, s.minted, Mint(s, env));
    var proposed := Propose(s.bridges[pid], s.disk, env);
    LockedKeepsInv(s, pid, proposed.0, env);
    AddRequestKeepsInv(Locked(s, pid, proposed.0, env), rid, Request(pid, proposed.1, None, None));
  }

  lemma SendKeepsInv(s: System, rid: Rid)
    requires Inv(s) && Enabled(s, SendRequest(rid))
    ensures Inv(Apply(s, SendRequest(rid)))
  {
  }

  lemma RecoverKeepsInv(s: System, rid: Rid, env: Env)
    requires Inv(s) && Enabled(s, RecoverAndRetry(rid, env))
    ensures Inv(Apply(s, RecoverAndRetry(rid, env)))
  {
    var r := s.requests[rid];
    var (step, alternate) := Recover(s.bridges[r.pid], s.disk, r.sent.value, env);
    RecoveredKeepsInv(s, rid, env);
    var t := Locked(s, r.pid, step, env);
    hide Recover, Inv, RequestOk, MessageOk, Locked;
    AddRequestKeepsInv(t, rid, r.(alternate := alternate));
    if alternate.Some? {
      AddMessageKeepsInv(t.(requests := t.requests[rid := r.(alternate := alternate)]),
                         Message(alternate.value, r.proposal));
    }
  }

  // The locked section of a recovery, and what it hands to the retry.
  lemma RecoveredKeepsInv(s: System, rid: Rid, env: Env)
    requires Inv(s) && Enabled(s, RecoverAndRetry(rid, env))
    ensures var r := s.requests[rid];
            var (step, alternate) := Recover(s.bridges[r.pid], s.disk, r.sent.value, env);
            var t := Locked(s, r.pid, step, env);
            && Inv(t) && RequestOk(t, r.(alternate := alternate))
            && (alternate.Some? ==>
                  MessageOk(t.portal, t.disk, Message(alternate.value, r.proposal)) && alternate.value in t.minted)
  {
    var r := s.requests[rid];
    assert RequestOk(s, r);
    var c := s.bridges[r.pid];
    RecoverOk(s.portal, c, s.disk, r.sent.value, env);
    RecoverPendings(c, s.disk, r.sent.value, env, Mint(s, env));
    var recovered := Recover(c, s.disk, r.sent.value, env);
    LockedKeepsInv(s, r.pid, recovered.0, env);
    var t := Locked(s, r.pid, recovered.0, env);
    assert RequestOk(t, t.requests[rid]);
    if recovered.1.Some? {
      RetriedMessageOk(s, r, recovered.1.value, recovered.0.disk);
    }
  }

  lemma RecoverPendings(c: Cache, d: Disk, rejected: Key, env: Env, minted: set<Key>)
    requires PendingsMinted(d, minted) && d.file in d.survivors
    ensures PendingsMinted(Recover(c, d, rejected, env).0.disk, minted)
  {
  }

  // The retry carries the headers of the first attempt under a key at least as new.
  lemma RetriedMessageOk(s: System, r: Request, alternate: Key, e: Disk)
    requires Inv(s) && RequestOk(s, r) && DiskAdvances(s.portal, s.disk, e)
    requires var seen := Seen(s.root, s.disk.file); alternate == seen.current || seen.pending == Some(alternate)
    ensures MessageOk(s.portal, e, Message(alternate, r.proposal))
    ensures alternate in s.minted
  {
  }

  lemma DeliverKeepsInv(s: System, m: Message, register: bool, retire: bool)
    requires Inv(s) && m in s.wire
    ensures Inv(Apply(s, Deliver(m, register, retire)))
  {
    var t := Apply(s, Deliver(m, register, retire));
    var p, q := s.portal, t.portal;
    if q.registered != p.registered {
      RegistrationKeepsInv(s, m, register, retire);
    } else if m.auth in p.live {
      RetirementKeepsChain(p, m, register, retire);
      SameChainSameFacts(s, t);
    }
  }

  lemma RetirementKeepsChain(p: Portal, m: Message, register: bool, retire: bool)
    requires ChainOk(p) && m.auth in p.live && Receive(p, m, register, retire).registered == p.registered
    ensures ChainOk(Receive(p, m, register, retire))
  {
    var q := Receive(p, m, register, retire);
    var i :| 0 <= i < |p.registered| && p.registered[i] == m.auth;
    assert i > 0 ==> p.parent[p.registered[i]] == p.registered[i - 1];
    assert q == p.(live := q.live, used := p.used + {m.auth}) && q.live <= p.live;
    assert i > 0 ==> p.live - {p.registered[i - 1]} <= q.live;
    assert i == 0 ==> q.live == p.live;
    hide Receive;
    LiveKeepsChain(p, q, m.auth, i);
  }

  // A key that is used and the end of the life of the key it succeeds leave the chain as it is.
  lemma LiveKeepsChain(p: Portal, q: Portal, auth: Key, i: nat)
    requires ChainOk(p) && i < |p.registered| && p.registered[i] == auth
    requires q == p.(live := q.live, used := p.used + {auth}) && q.live <= p.live
    requires if i > 0 then p.live - {p.registered[i - 1]} <= q.live else q.live == p.live
    ensures ChainOk(q)
  {
    assert i > 0 ==> p.registered[i - 1] != p.registered[|p.registered| - 1];
  }

  // Nothing but the chain of registered keys matters to what a disk, a cache or a message may hold.
  lemma SameWithin(p: Portal, q: Portal, a: Key, b: Key, gap: nat)
    requires p.registered == q.registered
    ensures Within(p, a, b, gap) <==> Within(q, a, b, gap)
  {
  }

  lemma SameOffer(p: Portal, q: Portal, d: Disk, key: Key, current: Key)
    requires |p.registered| > 0 && p.registered == q.registered
    ensures Offerable(p, d, key, current) <==> Offerable(q, d, key, current)
    ensures PendingEverywhere(p, d, key) <==> PendingEverywhere(q, d, key)
  {
    SameWithin(p, q, key, current, 1);
    hide Within;
  }

  lemma SameDisk(p: Portal, q: Portal, d: Disk)
    requires |p.registered| > 0 && p.registered == q.registered && DiskOk(p, d)
    ensures DiskOk(q, d)
  {
    forall v <- d.survivors ensures HoldsNewest(q, Seen(q.registered[0], v)) {
      assert HoldsNewest(p, Seen(p.registered[0], v));
    }
  }

  lemma SameCache(p: Portal, q: Portal, d: Disk, c: Cache)
    requires |p.registered| > 0 && p.registered == q.registered && CacheOk(p, d, c)
    ensures CacheOk(q, d, c)
  {
    SameWithin(p, q, c.apiKey, Seen(p.registered[0], d.file).current, 0);
    if c.pendingKey.Some? {
      SameOffer(p, q, d, c.pendingKey.value, c.apiKey);
    }
    hide Within, Offerable;
  }

  lemma SameRequest(s: System, t: System, r: Request)
    requires |s.portal.registered| > 0 && RequestOk(s, r)
    requires t == s.(portal := t.portal) && t.portal.registered == s.portal.registered
    ensures RequestOk(t, r)
  {
    if r.proposal.Some? {
      SameOffer(s.portal, t.portal, s.disk, r.proposal.value, s.bridges[r.pid].apiKey);
    }
    hide Offerable;
  }

  lemma SameMessage(p: Portal, q: Portal, d: Disk, m: Message)
    requires |p.registered| > 0 && p.registered == q.registered && MessageOk(p, d, m)
    ensures MessageOk(q, d, m)
  {
    if m.proposal.Some? {
      SameWithin(p, q, m.proposal.value, m.auth, 1);
      SameOffer(p, q, d, m.proposal.value, m.auth);
    }
    hide Within, PendingEverywhere;
  }

  lemma SameChainSameFacts(s: System, t: System)
    requires Inv(s) && ChainOk(t.portal) && t.portal.registered == s.portal.registered
    requires t == s.(portal := t.portal)
    ensures Inv(t)
  {
    hide *;
    var p, q := s.portal, t.portal;
    InvDisk(s);
    SameDisk(p, q, s.disk);
    MintedWith(s, t);
    forall pid <- t.bridges ensures CacheOk(q, t.disk, t.bridges[pid]) {
      InvOf(s, pid);
      SameCache(p, q, s.disk, s.bridges[pid]);
    }
    forall rid <- t.requests ensures RequestOk(t, t.requests[rid]) {
      RequestOf(s, rid);
      SameRequest(s, t, s.requests[rid]);
    }
    forall w <- t.wire ensures MessageOk(q, t.disk, w) {
      MessageOf(s, w);
      SameMessage(p, q, s.disk, w);
    }
    InvIs(t);
  }

  lemma InvDisk(s: System)
    requires Inv(s)
    ensures |s.portal.registered| > 0 && s.root == s.portal.registered[0]
    ensures ChainOk(s.portal) && DiskOk(s.portal, s.disk) && MintedOk(s)
  {
    hide MintedOk;
  }

  lemma MintedWith(s: System, t: System)
    requires MintedOk(s) && t.portal.registered == s.portal.registered
    requires t.disk == s.disk && t.minted == s.minted && t.wire == s.wire
    ensures MintedOk(t)
  {
    hide PendingsMinted;
  }

  // The portal's chain grew by `key`, which every version on disk held as pending.
  ghost predicate Extended(p: Portal, q: Portal, key: Key, d: Disk) {
    && ChainOk(p) && ChainOk(q) && q.registered == p.registered + [key] && key !in p.registered
    && PendingEverywhere(p, d, key) && d.file in d.survivors
  }

  lemma ExtensionKeepsOffer(p: Portal, q: Portal, key: Key, d: Disk, offer: Key, current: Key)
    requires Extended(p, q, key, d) && current in p.registered && Offerable(p, d, offer, current)
    ensures Offerable(q, d, offer, current)
  {
  }

  lemma ExtensionKeepsCache(p: Portal, q: Portal, key: Key, d: Disk, c: Cache)
    requires Extended(p, q, key, d) && CacheOk(p, d, c)
    ensures CacheOk(q, d, c)
  {
    if c.pendingKey.Some? {
      ExtensionKeepsOffer(p, q, key, d, c.pendingKey.value, c.apiKey);
    }
  }

  lemma ExtensionKeepsMessage(p: Portal, q: Portal, key: Key, d: Disk, m: Message)
    requires Extended(p, q, key, d) && MessageOk(p, d, m)
    ensures MessageOk(q, d, m)
  {
  }

  lemma ExtensionKeepsChain(p: Portal, m: Message, register: bool, retire: bool)
    requires ChainOk(p) && m.auth == Newest(p)
    requires Receive(p, m, register, retire).registered != p.registered
    ensures ChainOk(Receive(p, m, register, retire))
  {
    var kept, key := Receive(p, m, false, retire), m.proposal.value;
    RetirementKeepsChain(p, m, false, retire);
    assert Receive(p, m, register, retire) ==
           kept.(registered := kept.registered + [key], parent := kept.parent[key := m.auth],
                 live := kept.live + {key});
    hide Receive;
    LinkKeepsChain(kept, key);
  }

  lemma LinkKeepsChain(p: Portal, key: Key)
    requires ChainOk(p) && key !in p.registered
    ensures ChainOk(p.(registered := p.registered + [key], parent := p.parent[key := Newest(p)],
                       live := p.live + {key}))
  {
    var q := p.(registered := p.registered + [key], parent := p.parent[key := Newest(p)], live := p.live + {key});
    var n := |p.registered|;
    forall i | 0 < i < |q.registered|
      ensures q.registered[i] in q.parent && q.parent[q.registered[i]] == q.registered[i - 1]
    {
      assert i < n ==> p.registered[i] in p.parent && p.parent[p.registered[i]] == p.registered[i - 1];
    }
  }

  lemma ExtensionKeepsInv(s: System, q: Portal, key: Key)
    requires Inv(s) && Extended(s.portal, q, key, s.disk) && key in s.minted
    ensures Inv(s.(portal := q))
  {
    var t := s.(portal := q);
    var p := s.portal;
    forall pid <- t.bridges ensures CacheOk(q, t.disk, t.bridges[pid]) {
      ExtensionKeepsCache(p, q, key, s.disk, s.bridges[pid]);
    }
    forall rid <- t.requests ensures RequestOk(t, t.requests[rid]) {
      var r := s.requests[rid];
      assert RequestOk(s, r) && CacheOk(p, s.disk, s.bridges[r.pid]);
      if r.proposal.Some? {
        ExtensionKeepsOffer(p, q, key, s.disk, r.proposal.value, s.bridges[r.pid].apiKey);
      }
    }
    forall w <- t.wire ensures MessageOk(q, t.disk, w) {
      ExtensionKeepsMessage(p, q, key, s.disk, w);
    }
  }

  // Only the newest key can authenticate the registration of a key not seen before.
  lemma RegistrationKeepsInv(s: System, m: Message, register: bool, retire: bool)
    requires Inv(s) && m in s.wire
    requires Receive(s.portal, m, register, retire).registered != s.portal.registered
    ensures Inv(Apply(s, Deliver(m, register, retire)))
  {
    var key := m.proposal.value;
    assert MessageOk(s.portal, s.disk, m);
    assert s.disk.file == Some(Record(Newest(s.portal), Some(key))) && s.disk.file in s.disk.survivors;
    ExtensionKeepsChain(s.portal, m, register, retire);
    ExtensionKeepsInv(s, Receive(s.portal, m, register, retire), key);
  }

  lemma PowerLossKeepsInv(s: System, survivor: Option<Record>, mtime: nat)
    requires Inv(s) && survivor in s.disk.survivors
    ensures Inv(Apply(s, PowerLoss(survivor, mtime)))
  {
  }

  // A process that starts, or gives up writing, holds a sound cache.
  lemma StartedOk(s: System, pid: Pid, key: Key)
    requires Inv(s) && Enabled(s, StartProcess(pid, key))
    ensures |s.portal.registered| > 0 && CacheOk(s.portal, s.disk, Cache(key, None, None, false))
  {
    hide MintedOk, MessageOk, RequestOk, CacheOk;
    assert HoldsNewest(s.portal, Seen(s.root, s.disk.file));
    FirstOk(s.portal, s.disk, key);
  }

  lemma FirstOk(p: Portal, d: Disk, key: Key)
    requires ChainOk(p) && HoldsNewest(p, Seen(p.registered[0], d.file))
    requires key == p.registered[0] || key == Seen(p.registered[0], d.file).current
    ensures CacheOk(p, d, Cache(key, None, None, false))
  {
  }

  lemma DegradedOk(p: Portal, d: Disk, c: Cache)
    requires |p.registered| > 0 && CacheOk(p, d, c)
    ensures CacheOk(p, d, c.(readOnly := true, pendingKey := None))
  {
  }

  // The processes and requests of a state may change while the rest stays.
  lemma ProcessesKeepInv(s: System, t: System)
    requires Inv(s) && t == s.(bridges := t.bridges, requests := t.requests)
    requires |s.portal.registered| > 0
    requires forall pid <- t.bridges :: CacheOk(s.portal, s.disk, t.bridges[pid])
    requires forall rid <- t.requests :: RequestOk(t, t.requests[rid])
    ensures Inv(t)
  {
    hide *;
    InvDisk(s);
    MintedWith(s, t);
    forall m <- t.wire ensures MessageOk(t.portal, t.disk, m) {
      MessageOf(s, m);
    }
    InvIs(t);
  }

  lemma StartKeepsInv(s: System, pid: Pid, key: Key)
    requires Inv(s) && Enabled(s, StartProcess(pid, key))
    ensures Inv(Apply(s, StartProcess(pid, key)))
  {
    var t := Apply(s, StartProcess(pid, key));
    StartedOk(s, pid, key);
    hide CacheOk, MessageOk, Offerable;
    assert forall rid <- s.requests :: RequestOk(s, s.requests[rid]);
    ProcessesKeepInv(s, t);
  }

  lemma DegradeKeepsInv(s: System, pid: Pid)
    requires Inv(s) && Enabled(s, DegradeToReadOnly(pid))
    ensures Inv(Apply(s, DegradeToReadOnly(pid)))
  {
    var t := Apply(s, DegradeToReadOnly(pid));
    InvOf(s, pid);
    DegradedOk(s.portal, s.disk, s.bridges[pid]);
    hide CacheOk, MessageOk, Offerable;
    assert forall rid <- s.requests :: RequestOk(s, s.requests[rid]);
    ProcessesKeepInv(s, t);
  }

  lemma CrashKeepsInv(s: System, pid: Pid)
    requires Inv(s) && Enabled(s, CrashProcess(pid))
    ensures Inv(Apply(s, CrashProcess(pid)))
  {
    var t := Apply(s, CrashProcess(pid));
    hide CacheOk, MessageOk, Offerable, MintedOk, ChainOk, DiskOk;
    forall rid <- t.requests ensures RequestOk(t, t.requests[rid]) {
      assert RequestOk(s, s.requests[rid]);
    }
    ProcessesKeepInv(s, t);
  }

  lemma EndKeepsInv(s: System, a: Action)
    requires Inv(s) && Enabled(s, a) && (a.EndRequest? || a.BeginNotification?)
    ensures Inv(Apply(s, a))
  {
    var t := Apply(s, a);
    hide CacheOk, MessageOk, Offerable, MintedOk, ChainOk, DiskOk;
    assert forall rid <- s.requests :: RequestOk(s, s.requests[rid]);
    ProcessesKeepInv(s, t);
  }

  lemma ActionKeepsInv(s: System, a: Action)
    requires Inv(s) && Enabled(s, a)
    ensures Inv(Apply(s, a))
  {
    match a
    case RefreshState(pid, env) => RefreshKeepsInv(s, pid, env);
    case BeginRequest(pid, rid, env) => BeginKeepsInv(s, pid, rid, env);
    case SendRequest(rid) => SendKeepsInv(s, rid);
    case RecoverAndRetry(rid, env) => RecoverKeepsInv(s, rid, env);
    case AdoptRetried(rid, env) => AdoptKeepsInv(s, rid, env);
    case AcknowledgeSuccessor(pid, ack, env) => AcknowledgeKeepsInv(s, pid, ack, env);
    case Deliver(m, register, retire) => DeliverKeepsInv(s, m, register, retire);
    case PowerLoss(survivor, mtime) => PowerLossKeepsInv(s, survivor, mtime);
    case StartProcess(pid, key) => StartKeepsInv(s, pid, key);
    case DegradeToReadOnly(pid) => DegradeKeepsInv(s, pid);
    case CrashProcess(pid) => CrashKeepsInv(s, pid);
    case _ => EndKeepsInv(s, a);
  }

  lemma {:induction false} RunKeepsInv(run: seq<System>, i: nat)
    requires IsRun(run) && i < |run|
    ensures Inv(run[i])
  {
    if i == 0 {
    } else {
      RunKeepsInv(run, i - 1);
      assert Next(run[i - 1], run[i - 1 + 1]);
      var a :| Enabled(run[i - 1], a) && run[i] == Apply(run[i - 1], a);
      ActionKeepsInv(run[i - 1], a);
    }
  }

  lemma ReachableInv(s: System)
    requires Reachable(s)
    ensures Inv(s)
  {
    var run: seq<System> :| IsRun(run) && run[|run| - 1] == s;
    RunKeepsInv(run, |run| - 1);
  }

  // ---------------------------------------------------------------- what it means

  predicate Holds(r: Record, key: Key) {
    r.current == key || r.pending == Some(key)
  }

  // No credential is ever lost: some key the portal accepts is in the visible file and in every
  // version a power loss could leave.
  lemma NoLostCredential(s: System)
    requires Reachable(s)
    ensures exists key <- s.portal.live ::
              && Holds(Seen(s.root, s.disk.file), key)
              && forall v <- s.disk.survivors :: Holds(Seen(s.root, v), key)
  {
    ReachableInv(s);
    var key := Newest(s.portal);
    forall v <- s.disk.survivors ensures Holds(Seen(s.root, v), key) {
      assert HoldsNewest(s.portal, Seen(s.root, v));
    }
  }

  // `key` became current, or a key before the current one: it was promoted.
  predicate Promoted(p: Portal, r: Record, key: Key) {
    exists i, j :: 0 <= i <= j < |p.registered| && p.registered[i] == key && p.registered[j] == r.current
  }

  // Whatever hash has ever been offered, its secret is in every version that can survive, as the
  // pending key until it was promoted.
  lemma OfferedSecretsStay(s: System, m: Message, v: Option<Record>)
    requires Reachable(s) && m in s.wire && m.proposal.Some? && v in s.disk.survivors
    ensures var r := Seen(s.root, v);
            r.pending == m.proposal || Promoted(s.portal, r, m.proposal.value)
  {
    ReachableInv(s);
    var p, r := s.portal, Seen(s.root, v);
    assert MessageOk(p, s.disk, m) && HoldsNewest(p, r);
    if m.proposal.value in p.registered {
      var i :| 0 <= i < |p.registered| && p.registered[i] == m.proposal.value;
      if r.pending != m.proposal {
        var j := if r.current == Newest(p) then |p.registered| - 1 else |p.registered| - 2;
        assert 0 <= i <= j < |p.registered| && p.registered[i] == m.proposal.value && p.registered[j] == r.current;
      }
    }
  }

  // All registrations form one chain, whoever made them: the portal never learns two successors
  // of one key, although nothing in `Receive` would stop it.
  lemma RegistrationsFormOneChain(s: System)
    requires Reachable(s)
    ensures forall i :: 0 < i < |s.portal.registered| ==>
              && s.portal.registered[i] in s.portal.parent
              && s.portal.parent[s.portal.registered[i]] == s.portal.registered[i - 1]
    ensures forall a, b :: a in s.portal.parent && b in s.portal.parent && a != b
                           ==> s.portal.parent[a] != s.portal.parent[b]
  {
    ReachableInv(s);
    var p := s.portal;
    forall a, b | a in p.parent && b in p.parent && a != b ensures p.parent[a] != p.parent[b] {
      var i :| 0 <= i < |p.registered| && p.registered[i] == a;
      var j :| 0 <= j < |p.registered| && p.registered[j] == b;
      assert p.parent[p.registered[i]] == p.registered[i - 1] && p.parent[p.registered[j]] == p.registered[j - 1];
    }
  }

  // A request authenticated with link i of the chain never offers anything beyond link i + 1.
  lemma OffersAtMostOneLinkAhead(s: System, m: Message, i: nat)
    requires Reachable(s) && m in s.wire && m.proposal.Some?
    requires i < |s.portal.registered| && s.portal.registered[i] == m.auth
    ensures if m.proposal.value in s.portal.registered
            then exists j :: 0 <= j <= i + 1 && j < |s.portal.registered| && s.portal.registered[j] == m.proposal.value
            else i == |s.portal.registered| - 1
  {
    ReachableInv(s);
    assert MessageOk(s.portal, s.disk, m);
    if m.proposal.value in s.portal.registered {
      var j :| 0 <= j < |s.portal.registered| && s.portal.registered[j] == m.proposal.value;
    }
  }

  // At any time all hashes offered and not yet registered are one and the same.
  lemma OneSuccessorAtATime(s: System, m: Message, n: Message)
    requires Reachable(s) && m in s.wire && n in s.wire && m.proposal.Some? && n.proposal.Some?
    requires m.proposal.value !in s.portal.registered && n.proposal.value !in s.portal.registered
    ensures m.proposal == n.proposal
  {
    ReachableInv(s);
    assert MessageOk(s.portal, s.disk, m) && MessageOk(s.portal, s.disk, n);
  }
}
