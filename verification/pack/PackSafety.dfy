// An installed pack survives every sequence of replacements, wherever each run fails or stops.

module PackSafety {
  import opened Options
  import opened PackTrees

  // The pack that is installed: the active tree, or the backup an interrupted replacement left.
  function Current(d: Disk): Option<Files> {
    if d.target.Some? then d.target else d.backup
  }

  // One run keeps the installed pack or installs the new one; the active tree is always one of the
  // two, whole, and when there is none the backup is the whole old pack.
  lemma RunKeepsPack(d: Disk, src: Files, replace: bool, o: Outcomes)
    ensures var e := Replaced(d, src, replace, o).disk;
            && (Current(e) == Current(d) || Current(e) == Some(src))
            && (Current(d).Some? ==> Current(e).Some?)
            && (e.target.None? ==> e.backup == Current(d))
            && (Current(d).Some? && !replace ==> Current(e) == Current(d))
  {
  }

  // Staging starts with no backup; from there on, what the caller is told agrees with the disk.
  lemma StagingIsTrue(d: Disk, src: Files, replace: bool, o: Outcomes)
    requires d.backup.None?
    ensures VerdictFits(d, src, replace, Stage(d, src, replace, o))
  {
    if (d.target.None? || replace) && o.made && o.copy.Copied? {
      BackingUpIsTrue(d, src, replace, o);
    }
    hide BackUp;
  }

  lemma BackingUpIsTrue(d: Disk, src: Files, replace: bool, o: Outcomes)
    requires d.backup.None?
    ensures VerdictFits(d, src, replace, BackUp(d, src, o))
  {
  }

  // A success means the new pack is active, whole and alone, the refusal to overwrite that the old
  // one is; any other failure installed nothing, but for a backup that could not be dropped.
  predicate VerdictFits(d: Disk, src: Files, replace: bool, r: Run) {
    match r.verdict
    case Installed => r.disk == Disk(Some(src), None, d.litter)
    case Failed(AlreadyInstalled) => !replace && r.disk.target == Current(d) != None
    case Failed(CannotDropBackup) => r.disk.target == Some(src)
    case Failed(_) => Current(r.disk) == Current(d)
    case Stopped => true
  }

  lemma VerdictIsTrue(d: Disk, src: Files, replace: bool, o: Outcomes)
    ensures VerdictFits(d, src, replace, Replaced(d, src, replace, o))
  {
    hide Stage;
    StagingIsTrue(d.(target := Current(d), backup := None), src, replace, o);
  }

  // The outcomes that leave an active pack moved away: the run stops between the two renames of a
  // replacement, or the second rename fails and so does moving the pack back.
  predicate LeavesGap(o: Outcomes) {
    && o.inspected && o.made && o.copy.Copied?
    && (o.backUp.StoppedAfterRename?
        || (o.backUp.Renamed?
            && (o.activate.StoppedBeforeRename?
                || (o.activate.RenameFailed? && (o.rollBack.RenameFailed? || o.rollBack.StoppedBeforeRename?)))))
  }

  // An active pack is absent after a run exactly when the run left the gap.
  lemma GapExactly(d: Disk, src: Files, replace: bool, o: Outcomes)
    requires d.target.Some?
    ensures Replaced(d, src, replace, o).disk.target.None? <==>
              LeavesGap(o) && replace && (d.backup.Some? ==> o.clear.Removed?)
  {
  }

  // Once its first rename succeeds, a run that finds a gap behaves as if there had been none.
  lemma RecoveryIsTransparent(d: Disk, src: Files, replace: bool, o: Outcomes)
    requires d.target.None? && d.backup.Some? && o.inspected && o.restore.Renamed?
    ensures Replaced(d, src, replace, o) == Replaced(d.(target := d.backup, backup := None), src, replace, o)
    ensures !replace ==> Replaced(d, src, replace, o) == Run(Disk(d.backup, None, d.litter), Failed(AlreadyInstalled))
  {
  }

  // ---------------------------------------------------------------- what a run reports, and why

  // The operations up to staging that this directory asks for have succeeded: an interrupted
  // replacement is restored, a completed one cleared.
  predicate Recovers(d: Disk, o: Outcomes) {
    && o.inspected
    && (d.target.None? && d.backup.Some? ==> o.restore.Renamed?)
    && (d.target.Some? && d.backup.Some? ==> o.clear.Removed?)
  }

  predicate Stages(d: Disk, replace: bool, o: Outcomes) {
    Recovers(d, o) && (Current(d).None? || replace) && o.made && o.copy.Copied?
  }

  predicate MovesAside(d: Disk, replace: bool, o: Outcomes) {
    Stages(d, replace, o) && (Current(d).Some? ==> o.backUp.Renamed?)
  }

  // The deferred removal of the staging directory lets the process go on.
  predicate Returns(o: Outcomes) {
    o.cleanUp.Removed? || o.cleanUp.RemovalFailed?
  }

  // The one outcome, after everything before it succeeded, that makes a run fail the way it does.
  predicate Causes(d: Disk, replace: bool, o: Outcomes, fault: Fault) {
    match fault
    case CannotInspect => !o.inspected
    case CannotRestore => o.inspected && d.target.None? && d.backup.Some? && o.restore.RenameFailed?
    case CannotClear => o.inspected && d.target.Some? && d.backup.Some? && o.clear.RemovalFailed?
    case AlreadyInstalled => Recovers(d, o) && Current(d).Some? && !replace
    case CannotStage =>
      && Recovers(d, o) && (Current(d).None? || replace)
      && (!o.made || (o.copy.CopyFailed? && Returns(o)))
    case CannotBackUp => Stages(d, replace, o) && Current(d).Some? && o.backUp.RenameFailed? && Returns(o)
    case CannotActivate =>
      && MovesAside(d, replace, o) && o.activate.RenameFailed? && Returns(o)
      && (Current(d).Some? ==> o.rollBack.Renamed?)
    case CannotRollBack =>
      && MovesAside(d, replace, o) && o.activate.RenameFailed? && Returns(o)
      && Current(d).Some? && o.rollBack.RenameFailed?
    case CannotDropBackup =>
      MovesAside(d, replace, o) && o.activate.Renamed? && Current(d).Some? && o.drop.RemovalFailed?
  }

  // A run installs the pack if and only if nothing is installed or replacing was asked for, and every
  // operation it comes to succeeds.
  lemma InstallsExactly(d: Disk, src: Files, replace: bool, o: Outcomes)
    ensures var r := Replaced(d, src, replace, o);
            && (r.verdict == Installed <==>
                  MovesAside(d, replace, o) && o.activate.Renamed? && (Current(d).Some? ==> o.drop.Removed?))
            && (r.verdict == Installed ==> r.disk == Disk(Some(src), None, d.litter))
  {
  }

  // A failure is reported exactly when its cause occurred.
  lemma FailsExactly(d: Disk, src: Files, replace: bool, o: Outcomes, fault: Fault)
    ensures Replaced(d, src, replace, o).verdict == Failed(fault) <==> Causes(d, replace, o, fault)
  {
    RecoveryFails(d, src, replace, o, fault);
    if Recovers(d, o) {
      StagingFails(d.(target := Current(d), backup := None), src, replace, o, fault);
    }
    hide Replaced, Stage;
  }

  lemma RecoveryFails(d: Disk, src: Files, replace: bool, o: Outcomes, fault: Fault)
    ensures if Recovers(d, o) then
              Replaced(d, src, replace, o) == Stage(d.(target := Current(d), backup := None), src, replace, o)
            else Replaced(d, src, replace, o).verdict == Failed(fault) <==> Causes(d, replace, o, fault)
  {
    hide Stage;
  }

  lemma StagingFails(d: Disk, src: Files, replace: bool, o: Outcomes, fault: Fault)
    requires d.backup.None? && Recovers(d, o)
    ensures Stage(d, src, replace, o).verdict == Failed(fault) <==> Causes(d, replace, o, fault)
  {
    if Stages(d, replace, o) {
      BackingUpFails(d, src, replace, o, fault);
    }
    hide BackUp;
  }

  lemma BackingUpFails(d: Disk, src: Files, replace: bool, o: Outcomes, fault: Fault)
    requires d.backup.None? && Stages(d, replace, o)
    ensures BackUp(d, src, o).verdict == Failed(fault) <==> Causes(d, replace, o, fault)
  {
  }

  // What a failed run leaves: where there was a pack, it is active again unless moving it failed, and what was
  // staged is gone unless its removal failed.
  lemma FailureLeaves(d: Disk, src: Files, replace: bool, o: Outcomes, fault: Fault)
    requires Causes(d, replace, o, fault)
    ensures var e := Replaced(d, src, replace, o).disk;
            && (fault.CannotInspect? || fault.CannotRestore? ==> e == d)
            && (fault.CannotClear? ==> e.target == d.target)
            && (fault.AlreadyInstalled? ==> e == Disk(Current(d), None, d.litter))
            && (fault.CannotStage? || fault.CannotBackUp? || fault.CannotActivate? ==>
                  e.target == Current(d) && e.backup == None)
            && (fault.CannotRollBack? ==> e.target == None && e.backup == Current(d))
            && (fault.CannotDropBackup? ==> e.target == Some(src) && e.backup.Some?)
            && (o.cleanUp.Removed? || fault.CannotDropBackup? || fault.CannotClear? ==> e.litter == d.litter)
  {
  }

  // ---------------------------------------------------------------- sequences of runs

  datatype Request = Request(src: Files, replace: bool, outcomes: Outcomes)

  function After(d: Disk, requests: seq<Request>): Disk
    decreases |requests|
  {
    if requests == [] then d
    else After(Replaced(d, requests[0].src, requests[0].replace, requests[0].outcomes).disk, requests[1..])
  }

  ghost predicate Offered(requests: seq<Request>, files: Files) {
    exists r <- requests :: r.src == files
  }

  lemma OfferedLater(requests: seq<Request>, files: Files)
    requires requests != [] && Offered(requests[1..], files)
    ensures Offered(requests, files)
  {
  }

  // A once-installed pack is never lost: after any runs there is an installed pack, and it is the
  // old one or one of the new ones, whole.
  lemma {:induction false} InstalledPackSurvives(d: Disk, requests: seq<Request>)
    requires Current(d).Some?
    ensures var e := After(d, requests);
            && Current(e).Some?
            && (Current(e) == Current(d) || Offered(requests, Current(e).value))
            && (e.target.None? ==> e.backup.Some?)
    decreases |requests|
  {
    if requests != [] {
      var r := requests[0];
      RunKeepsPack(d, r.src, r.replace, r.outcomes);
      var next := Replaced(d, r.src, r.replace, r.outcomes).disk;
      InstalledPackSurvives(next, requests[1..]);
      var e := After(d, requests);
      if Current(e) == Current(next) {
        assert r in requests;
      } else {
        OfferedLater(requests, Current(e).value);
      }
    }
  }

  // From an empty directory the active tree is always a whole pack somebody offered, and so is the
  // backup whenever there is no active tree.
  lemma {:induction false} TargetIsNeverPartial(d: Disk, requests: seq<Request>)
    requires d.target.None? && d.backup.None?
    ensures var e := After(d, requests);
            && (e.target.Some? ==> Offered(requests, e.target.value))
            && (e.target.None? && e.backup.Some? ==> Offered(requests, e.backup.value))
    decreases |requests|
  {
    if requests != [] {
      var r := requests[0];
      RunKeepsPack(d, r.src, r.replace, r.outcomes);
      var next := Replaced(d, r.src, r.replace, r.outcomes).disk;
      var e := After(next, requests[1..]);
      assert r in requests;
      if Current(next).None? {
        TargetIsNeverPartial(next, requests[1..]);
        if Current(e).Some? {
          OfferedLater(requests, Current(e).value);
        }
      } else {
        InstalledPackSurvives(next, requests[1..]);
        if Current(e) != Current(next) {
          OfferedLater(requests, Current(e).value);
        }
      }
    }
  }
}
