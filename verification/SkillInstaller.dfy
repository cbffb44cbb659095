/** Replacing an installed skill: the new tree is built beside the destination, the old one is moved to a backup, and the
    two swap by renames. Any step may fail, and the process may stop at any step. */
module SkillInstaller {
  import opened Basics
  import opened SkillManifest

  /** What a path names. `Other` is a file, a link or anything else that is not a directory. */
  datatype Node = Absent | Other(content: Bytes) | Dir(tree: Tree)

  /** How one step goes. A step that fails or is cut short may have done part of its work where it is not atomic: `partial`
      is what a copied file or a removed tree is left as. */
  datatype Fault = Works | Fails(partial: Node) | Stops(partial: Node)

  /** How a step ended, as the code after it sees it. */
  datatype Ending = Ok | Threw | Halted

  datatype Outcome = Returned(digest: Digest) | Rejected | Failed | Crashed

  /** Renaming is atomic. It replaces an empty directory by a directory and a non-directory by a non-directory. */
  predicate CanRename(source: Node, target: Node)
  {
    && source != Absent
    && (target == Absent
        || (source.Dir? && target.Dir? && target.tree == map[])
        || (source.Other? && target.Other?))
  }

  /** A complete new installation: the bundled files and the lock over their digest. */
  ghost predicate IsNew(p: Platform, node: Node, assets: Tree, version: string)
  {
    exists d :: IsDigestOf(p, d, Unlocked(p, assets)) && node == Dir(Installed(p, assets, version, d))
  }

  /** The installation is not lost: the destination is as it was, or its whole content is in the backup, or the new
      installation is complete. */
  ghost predicate Safe(p: Platform, was: Node, assets: Tree, version: string, destination: Node, backup: Node)
  {
    destination == was || (was != Absent && backup == was) || IsNew(p, destination, assets, version)
  }

  /** At most one step does not work, and none stops the process. */
  ghost predicate OneFault(faults: nat -> Fault)
  {
    && (forall j, k :: j < k && !faults(j).Works? ==> faults(k).Works?)
    && (forall k :: !faults(k).Stops?)
  }

  class Installer {
    const platform: Platform
    const faults: nat -> Fault
    var destination: Node
    var staging: Node
    var backup: Node
    var steps: nat

    constructor (platform: Platform, faults: nat -> Fault, destination: Node)
      ensures this.platform == platform && this.faults == faults
      ensures this.destination == destination && staging == Absent && backup == Absent && steps == 0
    {
      this.platform := platform;
      this.faults := faults;
      this.destination := destination;
      staging := Absent;
      backup := Absent;
      steps := 0;
    }

    /** A step without an effect of its own: reading, comparing or flushing. */
    method Touch() returns (e: Ending)
      modifies this`steps
      ensures e == EndingOf(faults(old(steps))) && steps == old(steps) + 1
    {
      e := EndingOf(faults(steps));
      steps := steps + 1;
    }

    /** Copies one file into the staging directory and flushes it. */
    method CopyFile(path: Bytes, content: Bytes) returns (e: Ending)
      requires staging.Dir?
      modifies this`steps, this`staging
      ensures staging.Dir? && steps == old(steps) + 1 && e == EndingOf(faults(old(steps)))
      ensures e.Ok? ==> staging == Dir(old(staging).tree[path := content])
    {
      var fault := faults(steps);
      e := EndingOf(fault);
      steps := steps + 1;
      if fault.Works? {
        staging := Dir(staging.tree[path := content]);
      } else if fault.partial.Other? {
        staging := Dir(staging.tree[path := fault.partial.content]);
      }
    }

    /** Fills the staging directory with the bundled files, in any order. */
    method CopyTree(assets: Tree) returns (e: Ending)
      requires staging == Dir(map[])
      modifies this`steps, this`staging
      ensures staging.Dir? && old(steps) < steps && e == EndingOf(faults(steps - 1))
      ensures e.Ok? ==> staging == Dir(assets)
    {
      var left := assets.Keys;
      while left != {}
        invariant left <= assets.Keys && staging.Dir? && old(steps) <= steps
        invariant staging.tree.Keys == assets.Keys - left
        invariant forall path :: path in staging.tree ==> staging.tree[path] == assets[path]
        decreases |left|
      {
        var path :| path in left;
        e := CopyFile(path, assets[path]);
        if !e.Ok? {
          return;
        }
        left := left - {path};
      }
      assert staging.tree == assets;
      e := Touch();
    }

    method RenameToBackup() returns (e: Ending)
      modifies this`steps, this`destination, this`backup
      ensures steps == old(steps) + 1
      ensures e == RenameEnding(faults(old(steps)), old(destination), old(backup))
      ensures e.Ok? ==> destination == Absent && backup == old(destination)
      ensures !e.Ok? ==> destination == old(destination) && backup == old(backup)
    {
      e := RenameEnding(faults(steps), destination, backup);
      steps := steps + 1;
      if e.Ok? {
        backup := destination;
        destination := Absent;
      }
    }

    method RenameFromBackup() returns (e: Ending)
      modifies this`steps, this`destination, this`backup
      ensures steps == old(steps) + 1
      ensures e == RenameEnding(faults(old(steps)), old(backup), old(destination))
      ensures e.Ok? ==> backup == Absent && destination == old(backup)
      ensures !e.Ok? ==> destination == old(destination) && backup == old(backup)
    {
      e := RenameEnding(faults(steps), backup, destination);
      steps := steps + 1;
      if e.Ok? {
        destination := backup;
        backup := Absent;
      }
    }

    method RenameStaging() returns (e: Ending)
      modifies this`steps, this`destination, this`staging
      ensures steps == old(steps) + 1
      ensures e == RenameEnding(faults(old(steps)), old(staging), old(destination))
      ensures e.Ok? ==> staging == Absent && destination == old(staging)
      ensures !e.Ok? ==> destination == old(destination) && staging == old(staging)
    {
      e := RenameEnding(faults(steps), staging, destination);
      steps := steps + 1;
      if e.Ok? {
        destination := staging;
        staging := Absent;
      }
    }

    method RemoveStaging() returns (e: Ending)
      modifies this`steps, this`staging
      ensures steps == old(steps) + 1 && e == EndingOf(faults(old(steps))) && (e.Ok? ==> staging == Absent)
    {
      var fault := faults(steps);
      e := EndingOf(fault);
      steps := steps + 1;
      staging := if fault.Works? then Absent else fault.partial;
    }

    method RemoveBackup() returns (e: Ending)
      modifies this`steps, this`backup
      ensures steps == old(steps) + 1 && e == EndingOf(faults(old(steps))) && (e.Ok? ==> backup == Absent)
    {
      var fault := faults(steps);
      e := EndingOf(fault);
      steps := steps + 1;
      backup := if fault.Works? then Absent else fault.partial;
    }

    /** Builds the new tree with its lock in the staging directory. */
    method Stage(assets: Tree, version: string) returns (e: Ending, digest: Digest)
      requires IsPlatform(platform) && staging == Dir(map[])
      modifies this`steps, this`staging
      ensures old(steps) < steps && e == EndingOf(faults(steps - 1))
      ensures e.Ok? ==> IsDigestOf(platform, digest, Unlocked(platform, assets))
      ensures e.Ok? ==> staging == Dir(Installed(platform, assets, version, digest))
    {
      digest := Digest([]);
      e := CopyTree(assets);
      if !e.Ok? {
        return;
      }
      e := Touch();
      if !e.Ok? {
        return;
      }
      digest := ManifestDigest(platform, staging.tree);
      e := CopyFile(platform.lockPath, platform.lockText(Lock(version, version, digest)));
      if !e.Ok? {
        return;
      }
      e := Touch();
    }

    /** The steps under the installer's `try`: stage, move the old installation aside, move the new one in, and remove the
        old one. `backedUp` says whether the old installation is still in the backup. */
    method Replace(assets: Tree, version: string) returns (e: Ending, backedUp: bool, digest: Digest)
      requires IsPlatform(platform) && staging == Dir(map[]) && backup == Absent
      modifies this`steps, this`destination, this`staging, this`backup
      ensures Safe(platform, old(destination), assets, version, destination, backup)
      ensures e.Ok? ==> !backedUp && backup == Absent && staging == Absent
      ensures e.Ok? ==> IsDigestOf(platform, digest, Unlocked(platform, assets))
      ensures e.Ok? ==> destination == Dir(Installed(platform, assets, version, digest))
      ensures backedUp && destination == Absent ==> backup == old(destination) != Absent
      ensures !backedUp ==> (destination == old(destination) && backup == Absent) || IsNew(platform, destination, assets, version)
      ensures backedUp ==> destination == Absent || IsNew(platform, destination, assets, version)
      ensures old(steps) <= steps && (!e.Ok? ==> exists k :: old(steps) <= k < steps && !faults(k).Works?)
      ensures e.Halted? ==> exists k :: old(steps) <= k < steps && faults(k).Stops?
    {
      hide IsPlatform, Installed, IsDigestOf, Unlocked;
      var existed := destination != Absent;
      backedUp := false;
      e, digest := Stage(assets, version);
      if !e.Ok? {
        return;
      }
      assert staging.Dir?;
      ghost var first := steps;
      if existed {
        e := RenameToBackup();
        if !e.Ok? {
          assert !faults(first).Works?;
          return;
        }
        backedUp := true;
        e := Touch();
        if !e.Ok? {
          assert !faults(first + 1).Works?;
          return;
        }
      }
      ghost var second := steps;
      e := RenameStaging();
      if e.Ok? {
        assert IsNew(platform, destination, assets, version);
        e := Touch();
      }
      if !e.Ok? {
        assert !faults(second).Works? || !faults(second + 1).Works?;
        if e.Threw? && backedUp {
          var restored := RenameFromBackup();
          if restored.Ok? {
            backedUp := false;
            restored := Touch();
          }
          if restored.Halted? {
            e := Halted;
          }
        }
        return;
      }
      if backedUp {
        ghost var third := steps;
        e := RemoveBackup();
        if !e.Ok? {
          assert !faults(third).Works?;
          return;
        }
        backedUp := false;
        e := Touch();
        if !e.Ok? {
          assert !faults(third + 1).Works?;
        }
      }
    }

    /** The `finally` block: removes the staging directory, and moves the old installation back if nothing replaced it. */
    method CleanUp(backedUp: bool) returns (e: Ending)
      modifies this`steps, this`destination, this`staging, this`backup
      ensures destination == old(destination) || (old(destination) == Absent && backedUp && destination == old(backup) && backup == Absent)
      ensures destination == old(destination) ==> backup == old(backup)
      ensures e.Ok? ==> staging == Absent && (backedUp && old(destination) == Absent ==> destination == old(backup))
      ensures (forall k :: old(steps) <= k ==> faults(k).Works?) && (backedUp && old(destination) == Absent ==> old(backup) != Absent) ==> e.Ok?
      ensures old(steps) < steps
    {
      e := RemoveStaging();
      if e.Ok? && backedUp {
        e := Touch();
        if e.Ok? && destination == Absent {
          e := RenameFromBackup();
        }
      }
    }

    /** Installs for one agent. The destination is checked first unless the replacement is forced. */
    method InstallOne(assets: Tree, version: string, force: bool) returns (outcome: Outcome)
      requires IsPlatform(platform) && staging == Absent && backup == Absent
      modifies this
      ensures Safe(platform, old(destination), assets, version, destination, backup)
      ensures outcome.Returned? ==>
        && IsDigestOf(platform, outcome.digest, Unlocked(platform, assets))
        && destination == Dir(Installed(platform, assets, version, outcome.digest))
        && staging == Absent && backup == Absent
      ensures outcome.Returned? && !force ==>
        old(destination) == Absent || (old(destination).Dir? && IsUnmodified(platform, old(destination).tree, version))
      ensures outcome.Rejected? ==>
        && destination == old(destination) && staging == Absent && backup == Absent && !force
        && (old(destination).Other? || (old(destination).Dir? && !IsUnmodified(platform, old(destination).tree, version)))
      ensures (forall k :: old(steps) <= k ==> faults(k).Works?) ==>
        (outcome.Returned? <==> force || old(destination) == Absent
                                || (old(destination).Dir? && IsUnmodified(platform, old(destination).tree, version)))
      ensures (forall k :: old(steps) <= k ==> faults(k).Works?) ==> outcome.Returned? || outcome.Rejected?
      ensures OneFault(faults) && old(steps) == 0 && !outcome.Returned? ==>
        destination == old(destination) || IsNew(platform, destination, assets, version)
    {
      hide IsPlatform, Installed, IsDigestOf, Unlocked, IsUnmodified;
      var e := Touch();
      if e.Ok? && destination != Absent && !force {
        e := Touch();
        if e.Ok? {
          var accepted := false;
          if destination.Dir? {
            accepted := CheckUnmodified(platform, destination.tree, version);
          }
          if !accepted {
            return Rejected;
          }
        }
      }
      if e.Ok? {
        e := Touch();
      }
      if !e.Ok? {
        return if e.Threw? then Failed else Crashed;
      }
      staging := Dir(map[]);
      var replaced, backedUp, digest := Replace(assets, version);
      if replaced.Halted? {
        return Crashed;
      }
      if !replaced.Ok? {
        OneFaultIsOver(faults, steps);
      }
      var cleaned := CleanUp(backedUp);
      outcome := if cleaned.Halted? then Crashed else if replaced.Ok? && cleaned.Ok? then Returned(digest) else Failed;
    }
  }

  /** After the one fault every step works. */
  lemma OneFaultIsOver(faults: nat -> Fault, steps: nat)
    requires exists k :: 0 <= k < steps && !faults(k).Works?
    ensures OneFault(faults) ==> forall k :: steps <= k ==> faults(k).Works?
  {
  }

  /** How a rename ends. */
  function RenameEnding(fault: Fault, source: Node, target: Node): Ending
  {
    if fault.Works? && !CanRename(source, target) then Threw else EndingOf(fault)
  }

  function EndingOf(fault: Fault): Ending
  {
    if fault.Works? then Ok else if fault.Fails? then Threw else Halted
  }
}
