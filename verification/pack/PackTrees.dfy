// replacePackTreeWithRename of runner/pack.go: the installed pack, its backup and the staging
// directory, changed by renames, copies and removals any of which can fail or be the last thing the
// process did. Runs follow one another; two do not run at once.

module PackTrees {
  import opened Options

  // A directory's regular files by path.
  type Files = map<string, string>

  // A rename happens or does not; the process may stop on either side of it.
  datatype Rename = Renamed | RenameFailed | StoppedBeforeRename | StoppedAfterRename

  // What os.RemoveAll leaves of a directory when it fails or the process stops: any of its files.
  datatype Removal =
    | Removed | RemovalFailed(left: set<string>) | StoppedRemoving(left: set<string>) | StoppedAfterRemoval

  // What a copy that did not finish left behind can be anything.
  datatype Copy = Copied | CopyFailed(written: Files) | StoppedCopying(written: Files)

  // The outcome of every operation a run may come to.
  datatype Outcomes = Outcomes(
    inspected: bool, restore: Rename, clear: Removal, made: bool, copy: Copy,
    backUp: Rename, activate: Rename, rollBack: Rename, drop: Removal, cleanUp: Removal)

  datatype Fault =
    | CannotInspect | CannotRestore | CannotClear | AlreadyInstalled | CannotStage
    | CannotBackUp | CannotActivate | CannotRollBack | CannotDropBackup

  datatype Verdict = Installed | Failed(fault: Fault) | Stopped

  // litter: staging directories that earlier runs could not remove
  datatype Disk = Disk(target: Option<Files>, backup: Option<Files>, litter: seq<Files>)

  datatype Run = Run(disk: Disk, verdict: Verdict)

  function Kept(files: Files, left: set<string>): Files {
    map f | f in files && f in left :: files[f]
  }

  // ---------------------------------------------------------------- the phases

  // Remove the staging directory on the way out.
  function CleanUp(d: Disk, staging: Files, removal: Removal, verdict: Verdict): Run {
    match removal
    case Removed => Run(d, verdict)
    case RemovalFailed(left) => Run(d.(litter := d.litter + [Kept(staging, left)]), verdict)
    case StoppedRemoving(left) => Run(d.(litter := d.litter + [Kept(staging, left)]), Stopped)
    case StoppedAfterRemoval => Run(d, Stopped)
  }

  function DropBackup(d: Disk, removal: Removal, fault: Fault, next: Disk -> Run): Run
    requires d.backup.Some?
  {
    match removal
    case Removed => next(d.(backup := None))
    case RemovalFailed(left) => Run(d.(backup := Some(Kept(d.backup.value, left))), Failed(fault))
    case StoppedRemoving(left) => Run(d.(backup := Some(Kept(d.backup.value, left))), Stopped)
    case StoppedAfterRemoval => Run(d.(backup := None), Stopped)
  }

  // An interrupted replacement left only the backup.
  function Restore(d: Disk, src: Files, replace: bool, o: Outcomes): Run {
    if d.target.Some? || d.backup.None? then Clear(d, src, replace, o)
    else
      var restored := d.(target := d.backup, backup := None);
      match o.restore
      case Renamed => Clear(restored, src, replace, o)
      case RenameFailed => Run(d, Failed(CannotRestore))
      case StoppedBeforeRename => Run(d, Stopped)
      case StoppedAfterRename => Run(restored, Stopped)
  }

  // A completed replacement left its backup beside the new pack.
  function Clear(d: Disk, src: Files, replace: bool, o: Outcomes): Run {
    if d.target.Some? && d.backup.Some? then
      DropBackup(d, o.clear, CannotClear, cleared => Stage(cleared, src, replace, o))
    else Stage(d, src, replace, o)
  }

  function Stage(d: Disk, src: Files, replace: bool, o: Outcomes): Run {
    if d.target.Some? && !replace then Run(d, Failed(AlreadyInstalled))
    else if !o.made then Run(d, Failed(CannotStage))
    else match o.copy
      case Copied => BackUp(d, src, o)
      case CopyFailed(written) => CleanUp(d, written, o.cleanUp, Failed(CannotStage))
      case StoppedCopying(written) => Run(d.(litter := d.litter + [written]), Stopped)
  }

  function BackUp(d: Disk, src: Files, o: Outcomes): Run {
    if d.target.None? then Activate(d, src, false, o)
    else
      var moved := d.(target := None, backup := d.target);
      match o.backUp
      case Renamed => Activate(moved, src, true, o)
      case RenameFailed => CleanUp(d, src, o.cleanUp, Failed(CannotBackUp))
      case StoppedBeforeRename => Run(d.(litter := d.litter + [src]), Stopped)
      case StoppedAfterRename => Run(moved.(litter := d.litter + [src]), Stopped)
  }

  // `replacing`: the target was moved to the backup before.
  function Activate(d: Disk, src: Files, replacing: bool, o: Outcomes): Run {
    var active := d.(target := Some(src));
    match o.activate
    case Renamed =>
      if replacing && d.backup.Some? then
        DropBackup(active, o.drop, CannotDropBackup, done => Run(done, Installed))
      else Run(active, Installed)
    case RenameFailed => if replacing then RollBack(d, src, o) else CleanUp(d, src, o.cleanUp, Failed(CannotActivate))
    case StoppedBeforeRename => Run(d.(litter := d.litter + [src]), Stopped)
    case StoppedAfterRename => Run(active, Stopped)
  }

  function RollBack(d: Disk, src: Files, o: Outcomes): Run {
    var restored := d.(target := d.backup, backup := None);
    match o.rollBack
    case Renamed => CleanUp(restored, src, o.cleanUp, Failed(CannotActivate))
    case RenameFailed => CleanUp(d, src, o.cleanUp, Failed(CannotRollBack))
    case StoppedBeforeRename => Run(d.(litter := d.litter + [src]), Stopped)
    case StoppedAfterRename => Run(restored.(litter := d.litter + [src]), Stopped)
  }

  function Replaced(d: Disk, src: Files, replace: bool, o: Outcomes): Run {
    if !o.inspected then Run(d, Failed(CannotInspect)) else Restore(d, src, replace, o)
  }

  // ---------------------------------------------------------------- the program

  class PackDirectory {
    var target: Option<Files>
    var backup: Option<Files>
    var staging: Option<Files>
    var litter: seq<Files>

    ghost function View(): Disk
      reads this
    {
      Disk(target, backup, litter)
    }

    // os.Rename of the backup over the absent target; the result says whether the process goes on.
    method RenameBackup(outcome: Rename) returns (verdict: Option<bool>)
      requires target.None? && backup.Some?
      modifies this`target, this`backup
      ensures outcome.Renamed? || outcome.StoppedAfterRename? ==> target == old(backup) && backup == None
      ensures outcome.RenameFailed? || outcome.StoppedBeforeRename? ==> target == old(target) && backup == old(backup)
      ensures verdict == (match outcome case Renamed => Some(true) case RenameFailed => Some(false) case _ => None)
    {
      if outcome.Renamed? || outcome.StoppedAfterRename? {
        target, backup := backup, None;
      }
      return if outcome.Renamed? then Some(true) else if outcome.RenameFailed? then Some(false) else None;
    }

    method RemoveBackup(outcome: Removal) returns (verdict: Option<bool>)
      requires backup.Some?
      modifies this`backup
      ensures backup == if outcome.Removed? || outcome.StoppedAfterRemoval? then None
                        else Some(Kept(old(backup).value, outcome.left))
      ensures verdict == (match outcome case Removed => Some(true) case RemovalFailed(_) => Some(false) case _ => None)
    {
      if outcome.Removed? || outcome.StoppedAfterRemoval? {
        backup := None;
      } else {
        backup := Some(Kept(backup.value, outcome.left));
      }
      return if outcome.Removed? then Some(true) else if outcome.RemovalFailed? then Some(false) else None;
    }

    // The deferred removal of the staging directory.
    method Return(outcome: Removal, verdict: Verdict) returns (r: Verdict)
      requires staging.Some?
      modifies this`staging, this`litter
      ensures Run(View(), r) == CleanUp(old(View()), old(staging).value, outcome, verdict) && staging == None
    {
      if outcome.RemovalFailed? || outcome.StoppedRemoving? {
        litter := litter + [Kept(staging.value, outcome.left)];
      }
      staging := None;
      return if outcome.Removed? || outcome.RemovalFailed? then verdict else Stopped;
    }

    // The process is gone; what it staged stays.
    method Stop() returns (r: Verdict)
      requires staging.Some?
      modifies this`staging, this`litter
      ensures litter == old(litter) + [old(staging).value] && staging == None && r == Stopped
    {
      litter, staging := litter + [staging.value], None;
      return Stopped;
    }

    // From the first rename on: the old pack moves aside, the staged one takes its place.
    method ActivateStaged(targetExists: bool, o: Outcomes) returns (verdict: Verdict)
      requires staging.Some? && targetExists == target.Some?
      modifies this
      ensures Run(View(), verdict) == BackUp(old(View()), old(staging).value, o)
    {
      hide CleanUp;
      if targetExists {
        if o.backUp.Renamed? || o.backUp.StoppedAfterRename? {
          target, backup := None, target;
        }
        if o.backUp.RenameFailed? {
          verdict := Return(o.cleanUp, Failed(CannotBackUp));
          return;
        }
        if !o.backUp.Renamed? {
          verdict := Stop();
          return;
        }
      }
      if o.activate.StoppedBeforeRename? {
        verdict := Stop();
        return;
      }
      if o.activate.RenameFailed? {
        if targetExists {
          var restored := RenameBackup(o.rollBack);
          if restored.None? {
            verdict := Stop();
            return;
          }
          if !restored.value {
            verdict := Return(o.cleanUp, Failed(CannotRollBack));
            return;
          }
        }
        verdict := Return(o.cleanUp, Failed(CannotActivate));
        return;
      }
      target, staging := staging, None;
      if o.activate.StoppedAfterRename? {
        return Stopped;
      }
      if targetExists {
        var dropped := RemoveBackup(o.drop);
        if dropped.None? {
          return Stopped;
        }
        if !dropped.value {
          return Failed(CannotDropBackup);
        }
      }
      return Installed;
    }

    method ReplacePackTree(src: Files, replace: bool, o: Outcomes) returns (verdict: Verdict)
      modifies this
      ensures Run(View(), verdict) == Replaced(old(View()), src, replace, o)
    {
      if !o.inspected {
        return Failed(CannotInspect);
      }
      var targetExists, backupExists := target.Some?, backup.Some?;
      if !targetExists && backupExists {
        var restored := RenameBackup(o.restore);
        if restored.None? {
          return Stopped;
        }
        if !restored.value {
          return Failed(CannotRestore);
        }
        targetExists, backupExists := true, false;
      }
      if targetExists && backupExists {
        var cleared := RemoveBackup(o.clear);
        if cleared.None? {
          return Stopped;
        }
        if !cleared.value {
          return Failed(CannotClear);
        }
      }
      if targetExists && !replace {
        return Failed(AlreadyInstalled);
      }
      if !o.made {
        return Failed(CannotStage);
      }
      if !o.copy.Copied? {
        staging := Some(o.copy.written);
        if o.copy.StoppedCopying? {
          verdict := Stop();
        } else {
          verdict := Return(o.cleanUp, Failed(CannotStage));
        }
        return;
      }
      staging := Some(src);
      hide BackUp;
      verdict := ActivateStaged(targetExists, o);
    }
  }
}
