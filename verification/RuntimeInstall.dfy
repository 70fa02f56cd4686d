// Publishing an installed runtime with one rename (provision_perception_runtime.py,
// `_publish_frozen_directory`, `install_runtime` and `install_original_frame_overlay`).
//
// Every call either works, raises before taking effect, or raises after taking effect (an
// interrupt delivered as it returns).  The content of a tree and the check it must pass are
// arbitrary.
module RuntimeInstall {
  import opened Wrappers

  datatype Fate = Works | RaisesBefore | RaisesAfter

  // A directory inode with its content and permission bits.
  datatype Directory<T> = Directory(inode: nat, tree: T, mode: nat)

  const FROZEN := 0x16D   // 0o555
  const LOOSE := 0x1ED    // 0o755
  const PRIVATE := 0x1C0  // 0o700

  datatype Outcome = Done | Raised

  predicate Effective(fate: Fate) {
    !fate.RaisesBefore?
  }

  // Some refreezing call took effect.
  ghost predicate Refrozen(refreezes: seq<Fate>) {
    exists k :: 0 <= k < |refreezes| && Effective(refreezes[k])
  }

  lemma {:induction false} RefrozenAppend(refreezes: seq<Fate>, fate: Fate)
    ensures Refrozen(refreezes + [fate]) <==> Refrozen(refreezes) || Effective(fate)
  {
    var longer := refreezes + [fate];
    assert longer[|refreezes|] == fate;
    assert forall k :: 0 <= k < |refreezes| ==> longer[k] == refreezes[k];
  }

  // The third call of a run is the first to fail.
  predicate ThirdCallFails(fates: seq<Fate>) {
    |fates| >= 3 && fates[0].Works? && fates[1].Works? && !fates[2].Works?
  }

  class Host<T(0)> {
    var staging: Option<Directory<T>>
    var destination: Option<Directory<T>>
    var fates: seq<Fate>
    // How often a descriptor was opened, and how often closing one was tried.
    ghost var opens: nat
    ghost var closes: nat
    // The fates of the calls that refreeze the published inode, in order.
    ghost var refreezes: seq<Fate>
    // Whether the temporary write permission was ever granted.
    ghost var loosened: bool
    const good: T -> bool

    constructor (good: T -> bool, destination: Option<Directory<T>>, fates: seq<Fate>)
      ensures this.good == good && this.destination == destination && this.fates == fates && staging == None
      ensures opens == closes == 0 && refreezes == [] && !loosened
    {
      this.good, this.destination, this.fates, staging := good, destination, fates, None;
      opens, closes, refreezes, loosened := 0, 0, [], false;
    }

    method Call() returns (fate: Fate)
      modifies this`fates
      ensures old(fates) == [] ==> fate.Works? && fates == []
      ensures old(fates) != [] ==> fate == old(fates)[0] && fates == old(fates)[1..]
    {
      if fates == [] { return Works; }
      fate := fates[0];
      fates := fates[1..];
    }

    // Where the inode now is, if anywhere.
    function Find(inode: nat): Option<Directory<T>>
      reads this
    {
      if staging.Some? && staging.value.inode == inode then staging
      else if destination.Some? && destination.value.inode == inode then destination
      else None
    }

    static function Moded(d: Directory<T>, inode: nat, mode: nat, fate: Fate): Directory<T> {
      if Effective(fate) && d.inode == inode then d.(mode := mode) else d
    }

    // fchmod through the descriptor of the staging inode, wherever its name is.
    method ChangeMode(inode: nat, mode: nat) returns (fate: Fate)
      modifies this`fates, this`staging, this`destination
      ensures staging.Some? == old(staging).Some? && destination.Some? == old(destination).Some?
      ensures staging.Some? ==> staging.value == Moded(old(staging).value, inode, mode, fate)
      ensures destination.Some? ==> destination.value == Moded(old(destination).value, inode, mode, fate)
      ensures old(fates) == [] ==> fate.Works? && fates == []
    {
      fate := Call();
      if Effective(fate) {
        if staging.Some? && staging.value.inode == inode { staging := Some(staging.value.(mode := mode)); }
        if destination.Some? && destination.value.inode == inode {
          destination := Some(destination.value.(mode := mode));
        }
      }
    }

    // The rename of staging onto the destination; an occupied destination refuses it.
    method Rename() returns (fate: Fate)
      requires staging.Some?
      modifies this`fates, this`staging, this`destination
      ensures old(destination).Some? ==>
              fate.RaisesBefore? && staging == old(staging) && destination == old(destination)
      ensures old(destination).None? && Effective(fate) ==> staging == None && destination == old(staging)
      ensures !Effective(fate) ==> staging == old(staging) && destination == old(destination)
      ensures old(fates) == [] ==> fates == [] && (old(destination).None? ==> fate.Works?)
    {
      fate := Call();
      if destination.Some? { return RaisesBefore; }
      if Effective(fate) {
        destination := staging;
        staging := None;
      }
    }

    // What the guarded part of a publication leaves behind.
    ghost predicate Moved(was: Directory<T>, occupant: Option<Directory<T>>)
      reads this
    {
      || (destination == occupant && staging.Some? && staging.value.inode == was.inode
        && staging.value.tree == was.tree)
      || (occupant == None && staging == None && destination.Some?
          && destination.value.inode == was.inode && destination.value.tree == was.tree)
    }

    // Publish the verified staging inode and refreeze it.  `entered` tells whether the entry
    // check was passed.
    method PublishFrozenDirectory() returns (r: Outcome, entered: bool)
      requires staging.Some?
      requires destination.Some? ==> destination.value.inode != staging.value.inode
      requires refreezes == [] && !loosened
      modifies this
      ensures Moved(old(staging).value, old(destination))
      // exactly one close attempt on an opened descriptor
      ensures closes - old(closes) == opens - old(opens) <= 1
      ensures entered ==> opens == old(opens) + 1 && old(staging).value.mode == FROZEN
      // nothing is touched before the entry check is passed
      ensures !entered ==> r.Raised? && staging == old(staging) && destination == old(destination)
      // the inode ends frozen exactly when it was never loosened or some refreeze took effect
      ensures entered ==> Find(old(staging).value.inode).Some?
      ensures entered ==> (Find(old(staging).value.inode).value.mode == FROZEN <==> !loosened || Refrozen(refreezes))
      ensures entered ==> |refreezes| >= 1
      ensures r.Done? ==> entered && destination == old(staging)
      ensures old(fates) == [] ==>
              fates == [] && (r.Done? <==> old(staging).value.mode == FROZEN && old(destination).None?)
    {
      ghost var was := staging.value;
      var inode := staging.value.inode;
      entered := false;
      var fate := Call();  // lstat
      if !fate.Works? { return Raised, false; }
      fate := Call();  // open
      if !fate.Works? { return Raised, false; }
      opens := opens + 1;
      r, entered := Guarded(inode);
      if r.Done? {
        fate := Call();  // close: its error is raised
        closes := closes + 1;
        if !fate.Works? { r := Raised; }
      } else {
        fate := Call();  // close: its error is dropped
        closes := closes + 1;
      }
    }

    method Guarded(inode: nat) returns (r: Outcome, entered: bool)
      requires staging.Some? && staging.value.inode == inode
      requires destination.Some? ==> destination.value.inode != inode
      requires refreezes == [] && !loosened
      modifies this
      ensures opens == old(opens) && closes == old(closes)
      ensures Moved(old(staging).value, old(destination))
      ensures entered ==> old(staging).value.mode == FROZEN
      ensures !entered ==> r.Raised? && staging == old(staging) && destination == old(destination)
      ensures entered ==> Find(inode).Some?
      ensures entered ==> (Find(inode).value.mode == FROZEN <==> !loosened || Refrozen(refreezes))
      ensures entered ==> |refreezes| >= 1
      ensures r.Done? ==> entered && destination == old(staging)
      ensures old(fates) == [] ==>
              fates == [] && (r.Done? <==> old(staging).value.mode == FROZEN && old(destination).None?)
    {
      var fate := Call();  // fstat
      if !fate.Works? || staging.value.mode != FROZEN { return Raised, false; }
      entered := true;
      fate := ChangeMode(inode, LOOSE);
      loosened := Effective(fate);
      if fate.Works? {
        fate := Rename();
        if fate.Works? {
          fate := ChangeMode(inode, FROZEN);
          RefrozenAppend(refreezes, fate);
          refreezes := refreezes + [fate];
          if fate.Works? {
            fate := Call();  // fsync
            return if fate.Works? then Done else Raised, true;
          }
        }
      }
      // the error path refreezes, dropping any error of its own
      ghost var earlier := refreezes;
      fate := ChangeMode(inode, FROZEN);
      refreezes := refreezes + [fate];
      RefrozenAppend(earlier, fate);
      return Raised, true;
    }

    // verify_installed_runtime: the content check and the frozen modes.
    predicate Acceptable(d: Directory<T>) {
      good(d.tree) && d.mode == FROZEN
    }

    method Verify(d: Directory<T>) returns (ok: bool)
      modifies this`fates
      ensures ok ==> Acceptable(d)
      ensures old(fates) == [] ==> fates == [] && (Acceptable(d) ==> ok)
    {
      var fate := Call();
      ok := fate.Works? && good(d.tree) && d.mode == FROZEN;
    }

    // `_discard_staging`, called when the staging name still exists; its errors are dropped,
    // so it may leave staging behind.
    method Discard() returns (fate: Fate)
      modifies this`fates, this`staging
      ensures staging == if Effective(fate) then None else old(staging)
    {
      fate := Call();
      if Effective(fate) { staging := None; }
    }

    // Build, freeze, verify and flush the staging tree.
    method Prepare(built: T, steps: nat) returns (r: Outcome)
      requires staging.Some?
      modifies this`fates, this`staging
      ensures staging.Some? && staging.value.inode == old(staging).value.inode
      ensures r.Done? ==>
              staging.value == Directory(old(staging).value.inode, built, FROZEN) && Acceptable(staging.value)
      ensures old(fates) == [] ==> fates == [] && (good(built) ==> r.Done?)
    {
      for k := 0 to steps
        invariant staging == old(staging) && (old(fates) == [] ==> fates == [])
      {
        var fate := Call();  // one extraction, copy, write or closure check
        if !fate.Works? { return Raised; }
      }
      staging := Some(staging.value.(tree := built));
      var fate := Call();  // freeze
      if Effective(fate) { staging := Some(staging.value.(mode := FROZEN)); }
      if !fate.Works? { return Raised; }
      var ok := Verify(staging.value);
      if !ok { return Raised; }
      fate := Call();  // flush the directories
      return if fate.Works? then Done else Raised;
    }

    // The outcome of one installation into an absent destination, wherever it failed: the
    // destination is absent, or it is the very inode and tree that passed verification in
    // staging; and a destination that appeared was never deleted again.
    ghost predicate Installed(inode: nat, built: T, renamed: bool)
      reads this
    {
      && (destination.Some? <==> renamed)
      && (renamed ==> destination.value.inode == inode && destination.value.tree == built && good(built))
    }

    // install_runtime, with `steps` fallible building steps.  `made` and `renamed` tell whether
    // mkdtemp and the rename took effect, `guarded` whether the error handler was in force,
    // `discard` what became of its cleanup.
    method InstallRuntime(inode: nat, empty: T, built: T, steps: nat)
      returns (r: Outcome, made: bool, renamed: bool, guarded: bool, discard: Option<Fate>)
      requires staging.None?
      modifies this
      ensures old(destination).Some? ==>
              destination == old(destination) && staging == None && (r.Done? ==> Acceptable(destination.value))
      ensures old(destination).None? ==> Installed(inode, built, renamed)
      ensures renamed ==> destination.Some? && Acceptable(destination.value)
      ensures r.Done? ==> destination.Some? && Acceptable(destination.value)
      // a failure before the rename leaves staging behind exactly when it was made and either
      // the error handler was not yet in force or its discard failed
      ensures guarded ==> made
      ensures guarded && r.Raised? && !renamed ==> discard.Some?
      ensures old(destination).None? && r.Raised? && !renamed ==>
                (staging.Some? <==> made && (!guarded || !Effective(discard.value)))
      // an input that shows it: the chmod after a successful mkdtemp fails
      ensures old(destination).None? && ThirdCallFails(old(fates)) ==> r.Raised? && !guarded && staging.Some?
      ensures renamed ==> staging == None && discard == None
      ensures old(fates) == [] && old(destination).None? ==> (good(built) ==> r.Done? && renamed)
    {
      made, renamed, guarded, discard := false, false, false, None;
      if destination.Some? {
        var ok := Verify(destination.value);
        if !ok { return Raised, false, false, false, None; }
        var fate := Call();  // flush the parent
        return if fate.Works? then Done else Raised, false, false, false, None;
      }
      var fate := Call();  // lock and verify the cache
      if !fate.Works? { return Raised, false, false, false, None; }
      fate := Call();  // mkdtemp
      made := Effective(fate);
      if made { staging := Some(Directory(inode, empty, PRIVATE)); }
      if !fate.Works? { return Raised, made, false, false, None; }
      fate := Call();  // chmod, still outside the error handler
      if !fate.Works? { return Raised, made, false, false, None; }
      guarded := true;
      r := Prepare(built, steps);
      if r.Done? {
        ghost var verified := staging.value;
        fate := Rename();
        renamed := Effective(fate);
        if fate.Works? {
          fate := Call();  // flush the parent
          if !fate.Works? { return Raised, true, true, true, None; }
          var ok := Verify(destination.value);
          return if ok then Done else Raised, true, true, true, None;
        }
      }
      r := Raised;
      if staging.Some? {
        var d := Discard();
        discard := Some(d);
      }
    }

    // install_original_frame_overlay: the same, publishing through the descriptor.
    method InstallOverlay(inode: nat, empty: T, built: T, steps: nat)
      returns (r: Outcome, made: bool, renamed: bool, guarded: bool, discard: Option<Fate>)
      requires staging.None? && refreezes == [] && !loosened
      modifies this
      ensures old(destination).Some? ==>
              destination == old(destination) && staging == None && (r.Done? ==> Acceptable(destination.value))
      ensures old(destination).None? ==> Installed(inode, built, renamed)
      ensures r.Done? ==> destination.Some? && Acceptable(destination.value)
      ensures guarded ==> made
      ensures guarded && r.Raised? && !renamed ==> discard.Some?
      ensures old(destination).None? && r.Raised? && !renamed ==>
                (staging.Some? <==> made && (!guarded || !Effective(discard.value)))
      // an input that shows it: the chmod after a successful mkdtemp fails
      ensures old(destination).None? && ThirdCallFails(old(fates)) ==> r.Raised? && !guarded && staging.Some?
      ensures renamed ==> staging == None && discard == None
      // a published destination is frozen exactly when some refreeze took effect
      ensures renamed ==> (destination.value.mode == FROZEN <==> !loosened || Refrozen(refreezes))
      ensures old(fates) == [] && old(destination).None? ==> (good(built) ==> r.Done? && renamed)
    {
      made, renamed, guarded, discard := false, false, false, None;
      var fate := Call();  // verify the media runtime
      if !fate.Works? { return Raised, false, false, false, None; }
      if destination.Some? {
        var ok := Verify(destination.value);
        if !ok { return Raised, false, false, false, None; }
        fate := Call();  // flush the parent
        return if fate.Works? then Done else Raised, false, false, false, None;
      }
      fate := Call();  // mkdtemp
      made := Effective(fate);
      if made { staging := Some(Directory(inode, empty, PRIVATE)); }
      if !fate.Works? { return Raised, made, false, false, None; }
      fate := Call();  // chmod, still outside the error handler
      if !fate.Works? { return Raised, made, false, false, None; }
      guarded := true;
      r := Prepare(built, steps);
      if r.Done? {
        var entered;
        r, entered := PublishFrozenDirectory();
        renamed := destination.Some?;
        assert entered && renamed ==> Find(destination.value.inode) == destination;
        if r.Done? {
          fate := Call();  // flush the parent
          if !fate.Works? { return Raised, true, true, true, None; }
          var ok := Verify(destination.value);
          return if ok then Done else Raised, true, true, true, None;
        }
      }
      r := Raised;
      if staging.Some? {
        var d := Discard();
        discard := Some(d);
      }
    }
  }
}
