// The artifact cache directory: names, inodes, and what every interrupted run leaves sound
// (provision_perception_runtime.py, lines 778-1010).
//
// SHA-256 is an arbitrary function of the content.
module CacheDirectory {
  import opened Bytes

  datatype Artifact = Artifact(filename: string, size: nat, sha256: string)
  datatype Manifest = Manifest(artifacts: seq<Artifact>, hash: seq<Byte> -> string)

  datatype FileSystem = FileSystem(names: map<string, nat>, inodes: map<nat, seq<Byte>>, next: nat)

  const LOCK := ".provision.lock"
  const SUFFIX_LENGTH := 8

  // ----- names -----

  function Prefix(a: Artifact): string {
    "." + a.filename + ".partial-"
  }

  predicate IsPartial(name: string, a: Artifact) {
    Prefix(a) <= name
  }

  // What `tempfile.mkstemp` appends to its prefix.
  predicate IsSuffix(s: string) {
    |s| == SUFFIX_LENGTH && forall i :: 0 <= i < |s| ==> 'a' <= s[i] <= 'z' || '0' <= s[i] <= '9' || s[i] == '_'
  }

  // A name the temporary file of `a` can have.
  predicate IsTemporary(name: string, a: Artifact) {
    IsPartial(name, a) && IsSuffix(name[|Prefix(a)|..])
  }

  // A partial file is named by its artifact's prefix and anything after it.
  lemma {:induction false} PartialMeaning(name: string, a: Artifact)
    ensures IsPartial(name, a) <==> exists rest :: name == "." + a.filename + ".partial-" + rest
  {
    if IsPartial(name, a) {
      assert name == "." + a.filename + ".partial-" + name[|Prefix(a)|..];
    }
  }

  lemma {:induction false} TemporaryHasOneOwner(name: string, a: Artifact, b: Artifact)
    requires IsTemporary(name, a) && IsTemporary(name, b)
    ensures a.filename == b.filename
  {
    var p, q := Prefix(a), Prefix(b);
    assert |p| == |q| && p == q;
    assert p[1..1 + |a.filename|] == a.filename && q[1..1 + |b.filename|] == b.filename;
  }

  ghost predicate IsFinal(name: string, m: Manifest) {
    exists i :: 0 <= i < |m.artifacts| && m.artifacts[i].filename == name
  }

  predicate IsSomePartial(name: string, m: Manifest) {
    exists i :: 0 <= i < |m.artifacts| && IsPartial(name, m.artifacts[i])
  }

  // What the manifest validator checks of names and sizes.
  ghost predicate Validated(m: Manifest) {
    Distinct(m) && forall i :: 0 <= i < |m.artifacts| ==> m.artifacts[i].size > 0
  }

  ghost predicate Distinct(m: Manifest) {
    forall i, j :: 0 <= i < j < |m.artifacts| ==> m.artifacts[i].filename != m.artifacts[j].filename
  }

  predicate LockFree(m: Manifest) {
    forall i :: 0 <= i < |m.artifacts| ==> m.artifacts[i].filename != LOCK
  }

  // No artifact looks like a partial download of a later one, whose cleanup would remove it.
  ghost predicate Ordered(m: Manifest) {
    forall i, j :: 0 <= j < i < |m.artifacts| ==> !IsPartial(m.artifacts[j].filename, m.artifacts[i])
  }

  // No artifact has a name that a temporary file can have.
  ghost predicate Untouched(m: Manifest) {
    forall i, j :: 0 <= i < |m.artifacts| && 0 <= j < |m.artifacts| ==>
      !IsTemporary(m.artifacts[j].filename, m.artifacts[i])
  }

  ghost predicate WellNamed(m: Manifest) {
    Distinct(m) && LockFree(m) && Ordered(m) && Untouched(m)
  }

  // Distinct names that do not start with a dot, as in the shipped manifest, are enough.
  lemma {:induction false} VisibleNamesAreWellNamed(m: Manifest)
    requires Distinct(m)
    requires forall i :: 0 <= i < |m.artifacts| ==> m.artifacts[i].filename != "" && m.artifacts[i].filename[0] != '.'
    ensures WellNamed(m)
  {
    forall i, j | 0 <= i < |m.artifacts| && 0 <= j < |m.artifacts|
      ensures !IsPartial(m.artifacts[j].filename, m.artifacts[i])
    {
      assert Prefix(m.artifacts[i])[0] == '.';
    }
    assert LOCK[0] == '.';
  }

  lemma {:induction false} LockIsNoPartial(m: Manifest)
    ensures !IsSomePartial(LOCK, m)
  {
    forall i | 0 <= i < |m.artifacts| ensures !IsPartial(LOCK, m.artifacts[i]) {
      var p := Prefix(m.artifacts[i]);
      assert p[|p| - 1] == '-' && '-' in p;
      assert '-' !in LOCK;
      assert p <= LOCK ==> forall c :: c in p ==> c in LOCK;
    }
  }

  // ----- the directory -----

  predicate Verified(content: seq<Byte>, a: Artifact, m: Manifest) {
    |content| == a.size && m.hash(content) == a.sha256
  }

  function Links(fs: FileSystem, id: nat): nat {
    |set n | n in fs.names && fs.names[n] == id|
  }

  // What verify_artifact accepts: present, of the right content, and with a single link.
  predicate Presentable(fs: FileSystem, a: Artifact, m: Manifest) {
    && a.filename in fs.names && fs.names[a.filename] in fs.inodes
    && Links(fs, fs.names[a.filename]) == 1
    && Verified(fs.inodes[fs.names[a.filename]], a, m)
  }

  ghost predicate WellFormed(fs: FileSystem) {
    (forall n :: n in fs.names ==> fs.names[n] in fs.inodes) && forall id :: id in fs.inodes ==> id < fs.next
  }

  // What one final name owes, whenever the process dies: complete verified content, shared
  // with nothing but temporary files of the same artifact.
  ghost predicate FinalSound(fs: FileSystem, a: Artifact, m: Manifest)
    requires WellFormed(fs)
  {
    a.filename in fs.names ==>
      && Verified(fs.inodes[fs.names[a.filename]], a, m)
      && forall n :: n in fs.names && n != a.filename && fs.names[n] == fs.names[a.filename] ==> IsTemporary(n, a)
  }

  ghost predicate FinalsSound(fs: FileSystem, m: Manifest) {
    WellFormed(fs) && forall i :: 0 <= i < |m.artifacts| ==> FinalSound(fs, m.artifacts[i], m)
  }

  // No name but the lock, the finals and partial downloads.
  ghost predicate Known(fs: FileSystem, m: Manifest) {
    forall n :: n in fs.names ==> KnownName(n, m)
  }

  ghost predicate KnownName(n: string, m: Manifest) {
    n == LOCK || IsFinal(n, m) || IsSomePartial(n, m)
  }

  // Exactly the final names and the lock, every artifact verified with a single link.
  ghost predicate Provisioned(fs: FileSystem, m: Manifest) {
    && (forall n :: n in fs.names <==> n == LOCK || IsFinal(n, m))
    && forall i :: 0 <= i < |m.artifacts| ==> Presentable(fs, m.artifacts[i], m)
  }

  ghost predicate NoPartials(fs: FileSystem, a: Artifact) {
    forall n :: n in fs.names ==> !IsPartial(n, a)
  }

  // The name still denotes the same inode with the same content.
  ghost predicate Holds(before: FileSystem, after: FileSystem, n: string)
    requires WellFormed(before) && WellFormed(after) && n in before.names
  {
    && n in after.names && after.names[n] == before.names[n]
    && after.inodes[after.names[n]] == before.inodes[before.names[n]]
  }

  // Some partial downloads of `a` are gone, nothing else has changed.
  ghost predicate Pruned(before: FileSystem, after: FileSystem, a: Artifact) {
    && after.inodes == before.inodes && after.next == before.next
    && (forall n :: n in after.names ==> n in before.names && after.names[n] == before.names[n])
    && forall n :: n in before.names && !IsPartial(n, a) ==> n in after.names
  }

  lemma {:induction false} PruningIsSound(before: FileSystem, after: FileSystem, m: Manifest, a: Artifact)
    requires FinalsSound(before, m) && Pruned(before, after, a)
    ensures FinalsSound(after, m)
  {
    forall j | 0 <= j < |m.artifacts| ensures FinalSound(after, m.artifacts[j], m) {
      assert FinalSound(before, m.artifacts[j], m);
    }
  }

  lemma {:induction false} SingleName(fs: FileSystem, name: string)
    requires name in fs.names
    ensures Links(fs, fs.names[name]) == 1 <==>
            forall n :: n in fs.names && fs.names[n] == fs.names[name] ==> n == name
  {
    var id := fs.names[name];
    var s := set n | n in fs.names && fs.names[n] == id;
    assert name in s;
    if forall n :: n in fs.names && fs.names[n] == id ==> n == name {
      assert s == {name};
    } else {
      var n :| n in fs.names && fs.names[n] == id && n != name;
      assert s == (s - {n, name}) + {n, name};
      assert |s| == |s - {n, name}| + |{n, name}|;
    }
  }

  // Once its temporary files are gone a sound final name presents itself.
  lemma {:induction false} SoundFinalIsPresentable(fs: FileSystem, m: Manifest, i: nat)
    requires FinalsSound(fs, m) && i < |m.artifacts| && m.artifacts[i].filename in fs.names
    requires forall n :: n in fs.names ==> !IsTemporary(n, m.artifacts[i])
    ensures Presentable(fs, m.artifacts[i], m)
  {
    var a := m.artifacts[i];
    assert FinalSound(fs, a, m);
    SingleName(fs, a.filename);
  }

  // ----- adding a file, and linking it -----

  function WithFile(fs: FileSystem, name: string, content: seq<Byte>): FileSystem {
    FileSystem(fs.names[name := fs.next], fs.inodes[fs.next := content], fs.next + 1)
  }

  // A directory that is `base` plus the temporary file of one download in progress.
  ghost predicate Downloading(fs: FileSystem, base: FileSystem, temporary: string) {
    temporary !in base.names && base.next in fs.inodes
    && fs == WithFile(base, temporary, fs.inodes[base.next])
  }

  // Adding a file under any name that is not final keeps every final name sound.
  lemma {:induction false} NewFileIsSound(base: FileSystem, name: string, content: seq<Byte>, m: Manifest)
    requires FinalsSound(base, m) && name !in base.names && !IsFinal(name, m)
    ensures FinalsSound(WithFile(base, name, content), m)
  {
    var fs := WithFile(base, name, content);
    forall j | 0 <= j < |m.artifacts| ensures FinalSound(fs, m.artifacts[j], m) {
      assert FinalSound(base, m.artifacts[j], m);
    }
  }

  lemma {:induction false} TemporaryIsNotFinal(m: Manifest, name: string, i: nat)
    requires Untouched(m) && i < |m.artifacts| && IsTemporary(name, m.artifacts[i])
    ensures !IsFinal(name, m)
  {}

  function WithLink(fs: FileSystem, name: string, id: nat): FileSystem {
    fs.(names := fs.names[name := id])
  }

  // Publishing a verified temporary file by a second link keeps every promise.
  lemma {:induction false} LinkIsSound(fs: FileSystem, base: FileSystem, temporary: string, m: Manifest, i: nat)
    requires WellNamed(m) && FinalsSound(base, m) && i < |m.artifacts|
    requires Downloading(fs, base, temporary) && IsTemporary(temporary, m.artifacts[i])
    requires m.artifacts[i].filename !in fs.names
    requires Verified(fs.inodes[base.next], m.artifacts[i], m)
    ensures FinalsSound(WithLink(fs, m.artifacts[i].filename, base.next), m)
  {
    var a := m.artifacts[i];
    var after := WithLink(fs, a.filename, base.next);
    TemporaryIsNotFinal(m, temporary, i);
    forall j | 0 <= j < |m.artifacts| ensures FinalSound(after, m.artifacts[j], m) {
      assert FinalSound(base, m.artifacts[j], m);
      assert j != i ==> m.artifacts[j].filename != a.filename;
    }
  }

  // Dying between the link and the unlink leaves two links: the artifact is complete, yet
  // verify_artifact refuses it until the temporary file is removed.
  lemma {:induction false} CrashBetweenLinkAndUnlink(
    fs: FileSystem, base: FileSystem, temporary: string, m: Manifest, i: nat)
    requires WellNamed(m) && FinalsSound(base, m) && i < |m.artifacts|
    requires Downloading(fs, base, temporary) && IsTemporary(temporary, m.artifacts[i])
    requires m.artifacts[i].filename !in fs.names && NoPartials(base, m.artifacts[i])
    requires Verified(fs.inodes[base.next], m.artifacts[i], m)
    ensures var crashed := WithLink(fs, m.artifacts[i].filename, base.next);
            && FinalsSound(crashed, m) && Links(crashed, base.next) == 2 && !Presentable(crashed, m.artifacts[i], m)
            && Presentable(crashed.(names := crashed.names - {temporary}), m.artifacts[i], m)
  {
    var a := m.artifacts[i];
    LinkIsSound(fs, base, temporary, m, i);
    var crashed := WithLink(fs, a.filename, base.next);
    assert (set n | n in crashed.names && crashed.names[n] == base.next) == {temporary, a.filename};
    var repaired := crashed.(names := crashed.names - {temporary});
    PruningIsSound(crashed, repaired, m, a);
    SoundFinalIsPresentable(repaired, m, i);
  }

  // Nothing that was in `base` has changed; besides it there can be the temporary file and
  // the final name.
  ghost predicate Extends(base: FileSystem, fs: FileSystem, temporary: string, final: string) {
    && WellFormed(base) && WellFormed(fs)
    && (forall n :: n in base.names ==> Holds(base, fs, n))
    && forall n :: n in fs.names ==> n in base.names || n == temporary || n == final
  }

  // Every final name of a well-named manifest that was sound is sound.
  ghost predicate StaysSound(base: FileSystem, fs: FileSystem, m: Manifest) {
    WellNamed(m) && FinalsSound(base, m) ==> FinalsSound(fs, m)
  }

  ghost predicate IsEmptyFile(fs: FileSystem, name: string) {
    name in fs.names && fs.names[name] in fs.inodes && fs.inodes[fs.names[name]] == []
  }

  lemma {:induction false} DownloadIsSound(fs: FileSystem, base: FileSystem, temporary: string, m: Manifest, i: nat)
    requires WellFormed(base) && i < |m.artifacts| && IsTemporary(temporary, m.artifacts[i])
    requires Downloading(fs, base, temporary)
    ensures StaysSound(base, fs, m) && Extends(base, fs, temporary, m.artifacts[i].filename)
  {
    if WellNamed(m) && FinalsSound(base, m) {
      TemporaryIsNotFinal(m, temporary, i);
      NewFileIsSound(base, temporary, fs.inodes[base.next], m);
    }
  }

  lemma {:induction false} LockIsSound(start: FileSystem, fs: FileSystem, m: Manifest)
    requires WellFormed(start) && (fs == start || (LOCK !in start.names && fs == WithFile(start, LOCK, [])))
    ensures WellFormed(fs) && StaysSound(start, fs, m)
  {
    if WellNamed(m) && FinalsSound(start, m) && fs != start { NewFileIsSound(start, LOCK, [], m); }
  }

  // ----- progress of a fetch -----

  // The first k artifacts are present, and what looks like their partial downloads is final.
  ghost predicate Settled(fs: FileSystem, m: Manifest, k: nat)
    requires k <= |m.artifacts|
  {
    forall i :: 0 <= i < k ==>
      m.artifacts[i].filename in fs.names && forall n :: n in fs.names && IsPartial(n, m.artifacts[i]) ==> IsFinal(n, m)
  }

  // What a successful download of the i-th artifact does to the names.
  ghost predicate Advanced(before: FileSystem, after: FileSystem, a: Artifact) {
    && (forall n :: n in before.names && !IsPartial(n, a) ==> n in after.names)
    && (forall n :: n in after.names ==> n in before.names || n == a.filename)
    && a.filename in after.names && NoPartials(after, a)
  }

  lemma {:induction false} SettledGrows(before: FileSystem, after: FileSystem, m: Manifest, i: nat)
    requires Ordered(m) && i < |m.artifacts| && Settled(before, m, i) && Advanced(before, after, m.artifacts[i])
    ensures Settled(after, m, i + 1)
  {
    assert IsFinal(m.artifacts[i].filename, m);
  }

  lemma {:induction false} AllSettledIsProvisioned(fs: FileSystem, m: Manifest)
    requires WellNamed(m) && FinalsSound(fs, m) && Known(fs, m) && LOCK in fs.names && Settled(fs, m, |m.artifacts|)
    ensures Provisioned(fs, m)
  {
    forall i | 0 <= i < |m.artifacts| ensures Presentable(fs, m.artifacts[i], m) {
      forall n | n in fs.names ensures !IsTemporary(n, m.artifacts[i]) {
        if IsTemporary(n, m.artifacts[i]) { TemporaryIsNotFinal(m, n, i); }
      }
      SoundFinalIsPresentable(fs, m, i);
    }
  }

  // Earlier artifacts that look like partial downloads of one of the first k are gone.
  ghost predicate Swept(fs: FileSystem, m: Manifest, k: nat)
    requires k <= |m.artifacts|
  {
    forall i, j :: 0 <= j < i < k && IsPartial(m.artifacts[j].filename, m.artifacts[i]) ==>
      m.artifacts[j].filename !in fs.names
  }

  lemma {:induction false} SweptGrows(before: FileSystem, after: FileSystem, m: Manifest, i: nat)
    requires Distinct(m) && i < |m.artifacts| && Swept(before, m, i) && Advanced(before, after, m.artifacts[i])
    ensures Swept(after, m, i + 1)
  {}

  // A fetch that verifies every artifact at its end has removed none of them.
  lemma {:induction false} SweptAndPresentIsOrdered(fs: FileSystem, m: Manifest)
    requires Swept(fs, m, |m.artifacts|)
    requires forall i :: 0 <= i < |m.artifacts| ==> m.artifacts[i].filename in fs.names
    ensures Ordered(m)
  {}

  // The names of a first fetch before its k-th download.
  ghost predicate FirstRun(fs: FileSystem, m: Manifest, k: nat)
    requires k <= |m.artifacts|
  {
    forall n :: n in fs.names ==> n == LOCK || exists i :: 0 <= i < k && m.artifacts[i].filename == n
  }

  lemma {:induction false} FirstRunGrows(before: FileSystem, after: FileSystem, m: Manifest, k: nat)
    requires k < |m.artifacts| && FirstRun(before, m, k) && Advanced(before, after, m.artifacts[k])
    ensures FirstRun(after, m, k + 1)
  {}

  // What one download may change, however it ends: only partial downloads of its artifact
  // disappear, and only they and the final name appear.
  ghost predicate Touches(before: FileSystem, after: FileSystem, m: Manifest, i: nat)
    requires i < |m.artifacts|
  {
    && WellFormed(before) && WellFormed(after) && StaysSound(before, after, m)
    && (forall n :: n in before.names && !IsPartial(n, m.artifacts[i]) ==> Holds(before, after, n))
    && forall n :: n in after.names ==>
         n in before.names || n == m.artifacts[i].filename || IsPartial(n, m.artifacts[i])
  }

  // What every moment of a fetch keeps of the directory it started from.
  ghost predicate Underway(start: FileSystem, fs: FileSystem, m: Manifest) {
    && WellFormed(start) && WellFormed(fs) && LOCK in start.names
    && Known(fs, m) && Holds(start, fs, LOCK) && StaysSound(start, fs, m)
  }

  lemma {:induction false} TouchingKeepsUnderway(
    start: FileSystem, before: FileSystem, after: FileSystem, m: Manifest, i: nat)
    requires i < |m.artifacts| && Underway(start, before, m) && Touches(before, after, m, i)
    ensures Underway(start, after, m)
  {
    LockIsNoPartial(m);
    assert Holds(before, after, LOCK);
    forall n | n in after.names ensures KnownName(n, m) {
      if n in before.names { assert KnownName(n, m); }
    }
  }

  // What the first k downloads have achieved.
  ghost predicate Progress(start: FileSystem, fs: FileSystem, m: Manifest, k: nat)
    requires k <= |m.artifacts|
  {
    && (Ordered(m) ==> Settled(fs, m, k))
    && (Distinct(m) ==> Swept(fs, m, k))
    && (FirstRun(start, m, 0) ==> FirstRun(fs, m, k))
  }

  lemma {:induction false} ProgressGrows(start: FileSystem, before: FileSystem, after: FileSystem, m: Manifest, k: nat)
    requires k < |m.artifacts| && Progress(start, before, m, k) && Advanced(before, after, m.artifacts[k])
    ensures Progress(start, after, m, k + 1)
  {
    if Ordered(m) { SettledGrows(before, after, m, k); }
    if Distinct(m) { SweptGrows(before, after, m, k); }
    if FirstRun(start, m, 0) { FirstRunGrows(before, after, m, k); }
  }
}
