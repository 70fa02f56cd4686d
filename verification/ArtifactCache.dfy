// The crash-safe artifact cache (provision_perception_runtime.py, lines 778-1010).
//
// The environment decides the fate of every system call, knowing which call it is: the call
// takes effect, it raises OSError before or after its effect, or the process dies before it.
module ArtifactCache {
  import opened Wrappers
  import opened Bytes
  import opened CacheDirectory

  datatype Fate = Proceed | Fault | Late | Crash
  datatype Outcome = Done | Raised(code: string) | Crashed

  // The system calls, with the names they act on.
  datatype Site =
    | OpenLock | ListNames | FlushDirectory
    | Stat(name: string) | Remove(name: string) | Read(name: string) | Create(name: string) | Chmod(name: string)
    | WriteTo(name: string) | Flush(name: string) | Close(name: string) | LinkTo(name: string)

  // What the network delivers: nothing admissible, a broken stream, or a whole one.
  datatype Response = Denied | Broken(chunks: seq<seq<Byte>>) | Complete(chunks: seq<seq<Byte>>)

  predicate Effective(fate: Fate) {
    fate.Proceed? || fate.Late?
  }

  // ----- the environment -----

  // Knowing how many calls came before and which call this is, what becomes of it.
  type Environment = (nat, Site) -> Fate

  // This call always works.
  ghost predicate Calm(fates: Environment, site: Site) {
    forall k :: fates(k, site).Proceed?
  }

  // Every call works, save perhaps the chmod of temporary files.
  ghost predicate Quiet(fates: Environment) {
    forall site: Site {:trigger Calm(fates, site)} :: site.Chmod? || Calm(fates, site)
  }

  ghost predicate Undisturbed(fates: Environment) {
    forall site: Site :: Calm(fates, site)
  }

  // The process dies before it would change the mode of the named file.
  ghost predicate Dies(fates: Environment, name: string) {
    forall k :: fates(k, Chmod(name)).Crash?
  }

  // ----- the download stream -----

  // The bytes read before the first empty chunk.
  function Received(chunks: seq<seq<Byte>>): seq<Byte> {
    if chunks == [] || chunks[0] == [] then [] else chunks[0] + Received(chunks[1..])
  }

  lemma {:induction false} ReceivedStep(chunks: seq<seq<Byte>>, k: nat, digested: seq<Byte>)
    requires k < |chunks| && chunks[k] != []
    ensures digested + Received(chunks[k..]) == (digested + chunks[k]) + Received(chunks[k + 1..])
  {
    assert chunks[k..][1..] == chunks[k + 1..];
  }

  lemma {:induction false} ReceivedWhole(content: seq<Byte>)
    ensures Received([content]) == content
  {
    assert [content][1..] == [];
  }

  ghost predicate GoodResponse(r: Response, a: Artifact, m: Manifest) {
    r.Complete? && Verified(Received(r.chunks), a, m)
  }

  ghost predicate AllGood(responses: seq<Response>, m: Manifest) {
    |responses| == |m.artifacts| &&
    forall i :: 0 <= i < |responses| ==> GoodResponse(responses[i], m.artifacts[i], m)
  }

  ghost predicate AllSuffixes(suffixes: seq<string>, m: Manifest) {
    |suffixes| == |m.artifacts| && forall i :: 0 <= i < |suffixes| ==> IsSuffix(suffixes[i])
  }

  function TemporaryOf(m: Manifest, i: nat, suffixes: seq<string>): string
    requires i < |suffixes| == |m.artifacts|
  {
    Prefix(m.artifacts[i]) + suffixes[i]
  }

  // The first `i` downloads are good and the process dies making the next one.
  ghost predicate Doomed(fates: Environment, m: Manifest, i: nat, suffixes: seq<string>, responses: seq<Response>)
    requires |suffixes| == |responses| == |m.artifacts|
  {
    && i < |m.artifacts| && Quiet(fates) && Dies(fates, TemporaryOf(m, i, suffixes))
    && (forall name: string {:trigger Calm(fates, Chmod(name))} ::
          name != TemporaryOf(m, i, suffixes) ==> Calm(fates, Chmod(name)))
    && Distinct(m) && LockFree(m)
    && forall k :: 0 <= k < i ==> GoodResponse(responses[k], m.artifacts[k], m)
  }

  // Distinct artifacts have distinct temporary files.
  lemma {:induction false} OtherTemporary(m: Manifest, k: nat, i: nat, suffixes: seq<string>)
    requires AllSuffixes(suffixes, m) && Distinct(m) && k < i < |suffixes|
    ensures TemporaryOf(m, i, suffixes) != TemporaryOf(m, k, suffixes)
  {
    var t, a, b := TemporaryOf(m, k, suffixes), m.artifacts[k], m.artifacts[i];
    assert t[|Prefix(a)|..] == suffixes[k] && TemporaryOf(m, i, suffixes)[|Prefix(b)|..] == suffixes[i];
    if TemporaryOf(m, i, suffixes) == t { TemporaryHasOneOwner(t, a, b); }
  }

  // A doomed run makes every download before the fatal one as if undisturbed.
  lemma {:induction false} DoomComes(
    fates: Environment, fs: FileSystem, m: Manifest, k: nat, suffixes: seq<string>, responses: seq<Response>)
    requires AllSuffixes(suffixes, m) && |responses| == |m.artifacts| && k < |m.artifacts| && FirstRun(fs, m, k)
    ensures forall i :: k <= i < |suffixes| && Doomed(fates, m, i, suffixes, responses) ==>
              && Quiet(fates) && m.artifacts[k].filename !in fs.names
              && (i == k ==> Dies(fates, TemporaryOf(m, k, suffixes)))
              && (k < i ==> Calm(fates, Chmod(TemporaryOf(m, k, suffixes))))
              && (k < i ==> GoodResponse(responses[k], m.artifacts[k], m))
  {
    forall i | k <= i < |suffixes| && Doomed(fates, m, i, suffixes, responses)
      ensures m.artifacts[k].filename !in fs.names
      ensures k < i ==> Calm(fates, Chmod(TemporaryOf(m, k, suffixes)))
    {
      if k < i { OtherTemporary(m, k, i, suffixes); }
    }
  }

  class Cache {
    var fs: FileSystem
    var fates: Environment
    var calls: nat
    const manifest: Manifest

    constructor (m: Manifest, fates: Environment)
      ensures manifest == m && fs == FileSystem(map[], map[], 0) && this.fates == fates
    {
      manifest := m;
      fs := FileSystem(map[], map[], 0);
      this.fates := fates;
      calls := 0;
    }

    // Ask the environment about the next call.
    method Call(site: Site) returns (fate: Fate)
      modifies this`calls
      ensures Calm(fates, site) ==> fate.Proceed?
      ensures site.Chmod? && Dies(fates, site.name) ==> fate.Crash?
    {
      fate := fates(calls, site);
      calls := calls + 1;
    }

    method Unlink(name: string) returns (fate: Fate)
      modifies this`fs, this`calls
      ensures Effective(fate) ==> name in old(fs.names) && fs == old(fs).(names := old(fs.names) - {name})
      ensures !Effective(fate) ==> fs == old(fs)
      ensures Calm(fates, Remove(name)) ==> (fate.Proceed? <==> name in old(fs.names)) && !fate.Crash?
    {
      fate := Call(Remove(name));
      if Effective(fate) {
        if name !in fs.names { return Fault; }
        fs := fs.(names := fs.names - {name});
      }
    }

    static function Stopped(fate: Fate, code: string): Outcome {
      if fate.Crash? then Crashed else Raised(code)
    }

    method RemovePartials(a: Artifact) returns (r: Outcome)
      modifies this`fs, this`calls
      ensures Pruned(old(fs), fs, a)
      ensures r.Done? ==> NoPartials(fs, a)
      ensures Quiet(fates) ==> r.Done?
    {
      var candidates := set n | n in fs.names && IsPartial(n, a);
      while candidates != {}
        invariant forall n :: n in candidates ==> n in fs.names && IsPartial(n, a)
        invariant forall n :: n in fs.names && IsPartial(n, a) ==> n in candidates
        invariant Pruned(old(fs), fs, a)
      {
        var candidate :| candidate in candidates;
        var fate := Call(Stat(candidate));
        if !fate.Proceed? { return Stopped(fate, "cache_invalid"); }
        fate := Unlink(candidate);
        if !fate.Proceed? { return Stopped(fate, "cache_invalid"); }
        candidates := candidates - {candidate};
      }
      return Done;
    }

    method VerifyArtifact(a: Artifact) returns (r: Outcome)
      modifies this`calls
      ensures r.Done? ==> Presentable(fs, a, manifest)
      ensures Quiet(fates) ==> (r.Done? <==> Presentable(fs, a, manifest)) && !r.Crashed?
    {
      var fate := Call(Read(a.filename));
      if fate.Crash? { return Crashed; }
      if !fate.Proceed? || a.filename !in fs.names || fs.names[a.filename] !in fs.inodes {
        return Raised("artifact_invalid");
      }
      var id := fs.names[a.filename];
      if |fs.inodes[id]| != a.size || Links(fs, id) != 1 || manifest.hash(fs.inodes[id]) != a.sha256 {
        return Raised("artifact_invalid");
      }
      return Done;
    }

    method MakeTemporary(temporary: string) returns (fate: Fate)
      requires temporary !in fs.names
      modifies this`fs, this`calls
      ensures fs == if Effective(fate) then WithFile(old(fs), temporary, []) else old(fs)
      ensures Quiet(fates) ==> fate.Proceed?
    {
      fate := Call(Create(temporary));
      if Effective(fate) { fs := WithFile(fs, temporary, []); }
    }

    // Write one chunk; every call may write only part of what is left.
    method Write(chunk: seq<Byte>, temporary: string, ghost base: FileSystem) returns (fate: Fate)
      requires Downloading(fs, base, temporary) && temporary in fs.names
      modifies this`fs, this`calls
      ensures Downloading(fs, base, temporary)
      ensures fate.Proceed? ==> fs.inodes[base.next] == old(fs).inodes[base.next] + chunk
      ensures Quiet(fates) ==> fate.Proceed?
    {
      var view := chunk;
      var id := fs.names[temporary];
      fate := Proceed;
      while view != []
        invariant Downloading(fs, base, temporary) && id == base.next
        invariant fs.inodes[id] + view == old(fs).inodes[id] + chunk
        invariant fate.Proceed?
        decreases |view|
      {
        fate := Call(WriteTo(temporary));
        if !Effective(fate) { return; }
        var written :| 1 <= written <= |view|;
        assert fs.inodes[id] + view == (fs.inodes[id] + view[..written]) + view[written..];
        fs := fs.(inodes := fs.inodes[id := fs.inodes[id] + view[..written]]);
        if fate.Late? { return; }
        view := view[written..];
      }
    }

    method Receive(a: Artifact, response: Response, temporary: string, ghost base: FileSystem) returns (r: Outcome)
      requires Downloading(fs, base, temporary) && temporary in fs.names && fs.inodes[base.next] == []
      modifies this`fs, this`calls
      ensures Downloading(fs, base, temporary)
      ensures r.Done? ==> Verified(fs.inodes[base.next], a, manifest)
      ensures Quiet(fates) ==> (GoodResponse(response, a, manifest) ==> r.Done?) && !r.Crashed?
    {
      if response.Denied? { return Raised("download_denied"); }
      var total, digested: seq<Byte> := 0, [];
      var k := 0;
      while k < |response.chunks| && response.chunks[k] != []
        invariant 0 <= k <= |response.chunks|
        invariant Downloading(fs, base, temporary) && temporary in fs.names
        invariant fs.inodes[base.next] == digested && total == |digested|
        invariant digested + Received(response.chunks[k..]) == Received(response.chunks)
      {
        var chunk := response.chunks[k];
        total := total + |chunk|;
        ReceivedStep(response.chunks, k, digested);
        if total > a.size { return Raised("artifact_invalid"); }
        digested := digested + chunk;
        var fate := Write(chunk, temporary, base);
        if !fate.Proceed? { return Stopped(fate, "download_failed"); }
        k := k + 1;
      }
      assert Received(response.chunks[k..]) == [] && digested + [] == digested;
      if response.Broken? { return Raised("download_failed"); }
      if total != a.size || manifest.hash(digested) != a.sha256 { return Raised("artifact_invalid"); }
      return Done;
    }

    // The guarded part of a download; `holding` tells the cleanup whether to close.
    method Publish(i: nat, response: Response, temporary: string, ghost base: FileSystem)
      returns (r: Outcome, holding: bool)
      requires WellFormed(base) && i < |manifest.artifacts| && IsTemporary(temporary, manifest.artifacts[i])
      requires Downloading(fs, base, temporary) && fs.inodes[base.next] == []
      modifies this`fs, this`calls
      ensures StaysSound(base, fs, manifest)
      ensures Extends(base, fs, temporary, manifest.artifacts[i].filename)
      ensures r.Done? ==> manifest.artifacts[i].filename in fs.names
      ensures r.Done? && manifest.artifacts[i].filename !in base.names ==> temporary !in fs.names
      ensures Quiet(fates) && manifest.artifacts[i].filename !in base.names ==>
                (GoodResponse(response, manifest.artifacts[i], manifest) ==> r.Done?)
    {
      var a := manifest.artifacts[i];
      assert |temporary| > |a.filename|;
      holding := true;
      r := Receive(a, response, temporary, base);
      DownloadIsSound(fs, base, temporary, manifest, i);
      if !r.Done? { return; }
      var fate := Call(Flush(temporary));
      if !fate.Proceed? { return Stopped(fate, "download_failed"), true; }
      holding := false;
      fate := Call(Close(temporary));
      if !fate.Proceed? { return Stopped(fate, "download_failed"), false; }
      r := LinkAndUnlink(i, temporary, base);
      if !r.Done? { return r, false; }
      fate := Call(FlushDirectory);
      if !fate.Proceed? { return Stopped(fate, "download_failed"), false; }
      return Done, false;
    }

    // Link the verified temporary file to the final name and remove its temporary one; a
    // final name that exists already is verified instead.
    method LinkAndUnlink(i: nat, temporary: string, ghost base: FileSystem) returns (r: Outcome)
      requires WellFormed(base) && i < |manifest.artifacts| && IsTemporary(temporary, manifest.artifacts[i])
      requires Downloading(fs, base, temporary) && temporary != manifest.artifacts[i].filename
      requires Verified(fs.inodes[base.next], manifest.artifacts[i], manifest)
      modifies this`fs, this`calls
      ensures StaysSound(base, fs, manifest)
      ensures Extends(base, fs, temporary, manifest.artifacts[i].filename)
      ensures r.Done? ==> manifest.artifacts[i].filename in fs.names
      ensures r.Done? && manifest.artifacts[i].filename !in base.names ==> temporary !in fs.names
      ensures Quiet(fates) && manifest.artifacts[i].filename !in base.names ==> r.Done?
    {
      var a := manifest.artifacts[i];
      DownloadIsSound(fs, base, temporary, manifest, i);
      var fate := Call(LinkTo(a.filename));
      if !Effective(fate) { return Stopped(fate, "download_failed"); }
      if a.filename in fs.names {
        if fate.Late? { return Raised("download_failed"); }
        r := VerifyArtifact(a);  // FileExistsError
        return;
      }
      if WellNamed(manifest) && FinalsSound(base, manifest) { LinkIsSound(fs, base, temporary, manifest, i); }
      fs := WithLink(fs, a.filename, fs.names[temporary]);
      if fate.Late? { return Raised("download_failed"); }
      ghost var linked := fs;
      fate := Unlink(temporary);
      if WellNamed(manifest) && FinalsSound(base, manifest) { PruningIsSound(linked, fs, manifest, a); }
      return if fate.Proceed? then Done else Stopped(fate, "download_failed");
    }

    method DownloadArtifact(i: nat, suffix: string, response: Response) returns (r: Outcome)
      requires WellFormed(fs) && i < |manifest.artifacts| && IsSuffix(suffix)
      modifies this`fs, this`calls
      ensures Touches(old(fs), fs, manifest, i)
      ensures r.Done? ==> Advanced(old(fs), fs, manifest.artifacts[i])
      // an undisturbed good download succeeds, over any absent or any sound final name
      ensures Quiet(fates) && Calm(fates, Chmod(Prefix(manifest.artifacts[i]) + suffix)) ==>
                GoodResponse(response, manifest.artifacts[i], manifest) ==>
                manifest.artifacts[i].filename !in old(fs.names) || FinalsSound(old(fs), manifest) ==> r.Done?
      // dying right after the temporary file was made leaves it empty
      ensures Quiet(fates) && Dies(fates, Prefix(manifest.artifacts[i]) + suffix)
              && manifest.artifacts[i].filename !in old(fs.names)
              ==> r.Crashed? && IsEmptyFile(fs, Prefix(manifest.artifacts[i]) + suffix)
    {
      var a := manifest.artifacts[i];
      assert !IsPartial(a.filename, a);
      r := RemovePartials(a);
      if WellNamed(manifest) && FinalsSound(old(fs), manifest) { PruningIsSound(old(fs), fs, manifest, a); }
      if !r.Done? { return; }
      if a.filename in fs.names {
        if FinalsSound(old(fs), manifest) {
          PruningIsSound(old(fs), fs, manifest, a);
          SoundFinalIsPresentable(fs, manifest, i);
        }
        r := VerifyArtifact(a);
        if !r.Done? { return; }
        var fate := Call(FlushDirectory);
        if !fate.Proceed? { return Stopped(fate, "download_failed"); }
        return Done;
      }
      ghost var pruned := fs;
      var temporary := Prefix(a) + suffix;
      assert temporary[|Prefix(a)|..] == suffix;
      r := FreshDownload(i, temporary, response);
      assert forall n :: n in old(fs.names) && !IsPartial(n, a) ==> Holds(pruned, fs, n);
    }

    // The download proper, once no partial file of the artifact is left.
    method FreshDownload(i: nat, temporary: string, response: Response) returns (r: Outcome)
      requires WellFormed(fs) && i < |manifest.artifacts| && IsTemporary(temporary, manifest.artifacts[i])
      requires NoPartials(fs, manifest.artifacts[i]) && manifest.artifacts[i].filename !in fs.names
      modifies this`fs, this`calls
      ensures StaysSound(old(fs), fs, manifest) && Extends(old(fs), fs, temporary, manifest.artifacts[i].filename)
      ensures r.Done? ==> manifest.artifacts[i].filename in fs.names && temporary !in fs.names
      ensures Quiet(fates) && Calm(fates, Chmod(temporary)) ==>
                (GoodResponse(response, manifest.artifacts[i], manifest) ==> r.Done?)
      ensures Quiet(fates) && Dies(fates, temporary) ==> r.Crashed? && IsEmptyFile(fs, temporary)
    {
      ghost var base := fs;
      var fate := MakeTemporary(temporary);
      if Effective(fate) { DownloadIsSound(fs, base, temporary, manifest, i); }
      if !fate.Proceed? { return Stopped(fate, "unsafe_cache_root"); }
      fate := Call(Chmod(temporary));  // outside the guarded part
      if !fate.Proceed? { return Stopped(fate, "unsafe_cache_root"); }
      var holding;
      r, holding := Publish(i, response, temporary, base);
      if r.Crashed? { return; }
      ghost var before := fs;
      var died := CleanUp(temporary, holding);
      if WellNamed(manifest) && FinalsSound(base, manifest) {
        PruningIsSound(before, fs, manifest, manifest.artifacts[i]);
      }
      if died { return Crashed; }
    }

    // Close the descriptor if it is still held and remove the temporary file, dropping errors.
    method CleanUp(temporary: string, holding: bool) returns (died: bool)
      modifies this`fs, this`calls
      ensures fs == old(fs) || (temporary in old(fs.names) && fs == old(fs).(names := old(fs.names) - {temporary}))
      ensures Quiet(fates) ==> !died
    {
      var fate;
      if holding {
        fate := Call(Close(temporary));
        if fate.Crash? { return true; }
      }
      fate := Unlink(temporary);
      died := fate.Crash?;
    }

    method VerifyCache() returns (r: Outcome)
      modifies this`calls
      ensures r.Done? ==> forall n :: n in fs.names ==> n == LOCK || IsFinal(n, manifest)
      ensures r.Done? ==> forall i :: 0 <= i < |manifest.artifacts| ==> Presentable(fs, manifest.artifacts[i], manifest)
      ensures Quiet(fates) && Provisioned(fs, manifest) ==> r.Done?
    {
      var fate := Call(ListNames);
      if !fate.Proceed? { return Stopped(fate, "cache_invalid"); }
      if fs.names.Keys - Allowed(manifest) != {} { return Raised("cache_invalid"); }
      NoneLeft(fs.names.Keys, Allowed(manifest));
      for i := 0 to |manifest.artifacts|
        invariant forall k :: 0 <= k < i ==> Presentable(fs, manifest.artifacts[k], manifest)
      {
        r := VerifyArtifact(manifest.artifacts[i]);
        if !r.Done? { return; }
      }
      return Done;
    }

    // Open the lock file, creating it if need be, and refuse any name that is neither
    // allowed nor a partial download.
    method Enter() returns (r: Outcome)
      requires WellFormed(fs)
      modifies this`fs, this`calls
      ensures fs == old(fs) || (LOCK !in old(fs.names) && fs == WithFile(old(fs), LOCK, []))
      ensures r.Done? ==> LOCK in fs.names && Known(old(fs), manifest)
      ensures Quiet(fates) && Known(old(fs), manifest) ==> r.Done?
    {
      var fate := Call(OpenLock);
      if Effective(fate) && LOCK !in fs.names { fs := WithFile(fs, LOCK, []); }
      if !fate.Proceed? { return Stopped(fate, "unsafe_cache_root"); }
      fate := Call(ListNames);
      if !fate.Proceed? { return Stopped(fate, "cache_invalid"); }
      if exists n :: n in fs.names.Keys && n !in Allowed(manifest) && !IsSomePartial(n, manifest) {
        return Raised("cache_invalid");
      }
      assert forall n :: n in old(fs.names) ==> n in fs.names;
      return Done;
    }

    // Download every artifact in turn.
    method DownloadAll(suffixes: seq<string>, responses: seq<Response>) returns (r: Outcome)
      requires WellFormed(fs) && LOCK in fs.names && Known(fs, manifest)
      requires AllSuffixes(suffixes, manifest) && |responses| == |manifest.artifacts|
      modifies this`fs, this`calls
      ensures Underway(old(fs), fs, manifest)
      ensures r.Done? ==> Progress(old(fs), fs, manifest, |manifest.artifacts|)
      ensures Undisturbed(fates) && AllGood(responses, manifest) ==>
                WellNamed(manifest) && FinalsSound(old(fs), manifest) ==> r.Done?
      ensures FirstRun(old(fs), manifest, 0) ==>
                forall i :: 0 <= i < |suffixes| && Doomed(fates, manifest, i, suffixes, responses) ==>
                  r.Crashed? && IsEmptyFile(fs, TemporaryOf(manifest, i, suffixes))
    {
      ghost var start := fs;
      for k := 0 to |manifest.artifacts|
        invariant Underway(start, fs, manifest) && Progress(start, fs, manifest, k)
        invariant FirstRun(start, manifest, 0) ==>
          forall i :: 0 <= i < k ==> !Doomed(fates, manifest, i, suffixes, responses)
      {
        ghost var before := fs;
        r := DownloadArtifact(k, suffixes[k], responses[k]);
        TouchingKeepsUnderway(start, before, fs, manifest, k);
        if FirstRun(start, manifest, 0) { DoomComes(fates, before, manifest, k, suffixes, responses); }
        if !r.Done? { return; }
        ProgressGrows(start, before, fs, manifest, k);
      }
      return Done;
    }

    // One fetch, under any manifest.  For a well-named one every run keeps the final names
    // sound wherever it stops, and an undisturbed run with good downloads succeeds.
    method FetchArtifacts(suffixes: seq<string>, responses: seq<Response>) returns (r: Outcome)
      requires WellFormed(fs)
      requires AllSuffixes(suffixes, manifest) && |responses| == |manifest.artifacts|
      modifies this`fs, this`calls
      ensures WellFormed(fs) && StaysSound(old(fs), fs, manifest)
      ensures old(Known(fs, manifest)) ==> Known(fs, manifest)
      // an unknown name stops the run before any download
      ensures !old(Known(fs, manifest)) ==> !r.Done? && (fs == old(fs) || fs == WithFile(old(fs), LOCK, []))
      ensures r.Done? ==> Provisioned(fs, manifest)
      ensures WellNamed(manifest) && FinalsSound(old(fs), manifest) && old(Known(fs, manifest)) ==>
                (Undisturbed(fates) && AllGood(responses, manifest) ==> r.Done?)
      // what a success and a failure say about the names
      ensures r.Done? && Distinct(manifest) ==> Ordered(manifest)
      ensures r.Done? && LOCK !in old(fs.names) ==> IsEmptyFile(fs, LOCK)
      ensures old(fs.names) == map[] ==>
                forall i :: 0 <= i < |suffixes| && Doomed(fates, manifest, i, suffixes, responses) ==>
                  r.Crashed? && IsEmptyFile(fs, TemporaryOf(manifest, i, suffixes))
    {
      ghost var start := fs;
      r := Enter();
      LockIsSound(start, fs, manifest);
      if !r.Done? { return; }
      r := DownloadAll(suffixes, responses);
      if !r.Done? { return; }
      if WellNamed(manifest) && FinalsSound(start, manifest) { AllSettledIsProvisioned(fs, manifest); }
      r := VerifyCache();
      if r.Done? && Distinct(manifest) { SweptAndPresentIsOrdered(fs, manifest); }
    }
  }

  // The names `_allowed_cache_names` returns.
  function Allowed(m: Manifest): set<string> {
    (set i | 0 <= i < |m.artifacts| :: m.artifacts[i].filename) + {LOCK}
  }

  lemma {:induction false} NoneLeft(names: set<string>, allowed: set<string>)
    requires names - allowed == {}
    ensures forall n :: n in names ==> n in allowed
  {
    assert forall n :: n in names && n !in allowed ==> n in names - allowed;
  }

  // ----- whole histories -----

  // One attempt: the environment, the suffixes mkstemp picks, the network's answers.
  datatype Attempt = Attempt(fates: Environment, suffixes: seq<string>, responses: seq<Response>)

  ghost predicate Fitting(t: Attempt, m: Manifest) {
    AllSuffixes(t.suffixes, m) && |t.responses| == |m.artifacts|
  }

  // An attempt in which every call works and every download is good.
  ghost predicate Ideal(t: Attempt, m: Manifest)
    requires Fitting(t, m)
  {
    Undisturbed(t.fates) && AllGood(t.responses, m)
  }

  // Starting from an empty cache, after any number of attempts each failing or dying
  // anywhere, every final name of a well-named manifest holds complete verified content; and
  // one ideal attempt then provisions the cache.
  method History(m: Manifest, attempts: seq<Attempt>, last: Attempt) returns (cache: Cache, r: Outcome)
    requires Fitting(last, m) && forall k :: 0 <= k < |attempts| ==> Fitting(attempts[k], m)
    ensures cache.manifest == m
    ensures WellNamed(m) ==> FinalsSound(cache.fs, m)
    ensures r.Done? ==> Provisioned(cache.fs, m)
    ensures WellNamed(m) && Ideal(last, m) ==> r.Done?
  {
    cache := new Cache(m, last.fates);
    for k := 0 to |attempts|
      invariant fresh(cache) && cache.manifest == m && WellFormed(cache.fs) && Known(cache.fs, m)
      invariant WellNamed(m) ==> FinalsSound(cache.fs, m)
    {
      cache.fates := attempts[k].fates;
      var _ := cache.FetchArtifacts(attempts[k].suffixes, attempts[k].responses);
    }
    cache.fates := last.fates;
    r := cache.FetchArtifacts(last.suffixes, last.responses);
  }

  function Always(k: nat, site: Site): Fate {
    Proceed
  }

  function DyingAt(name: string): Environment {
    (k: nat, site: Site) => if site == Chmod(name) then Crash else Proceed
  }

  function Downloads(contents: seq<seq<Byte>>): (r: seq<Response>)
    ensures |r| == |contents| && forall i :: 0 <= i < |contents| ==> r[i] == Complete([contents[i]])
  {
    if contents == [] then [] else [Complete([contents[0]])] + Downloads(contents[1..])
  }

  // An attempt that dies making the temporary file that bears the name of another artifact.
  method DyingAttempt(m: Manifest, contents: seq<seq<Byte>>, i: nat, j: nat)
    returns (t: Attempt, cache: Cache, r: Outcome)
    requires Validated(m) && LockFree(m) && Obtainable(contents, m)
    requires i < |m.artifacts| && j < |m.artifacts| && IsTemporary(m.artifacts[j].filename, m.artifacts[i])
    ensures Fitting(t, m) && AllGood(t.responses, m) && cache.manifest == m
    ensures r.Crashed? && !FinalsSound(cache.fs, m)
  {
    var name, prefix := m.artifacts[j].filename, Prefix(m.artifacts[i]);
    var suffixes := Repeat("aaaaaaaa", |m.artifacts|)[i := name[|prefix|..]];
    t := Attempt(DyingAt(name), suffixes, Downloads(contents));
    DownloadsAreGood(contents, m);
    assert TemporaryOf(m, i, suffixes) == name;
    assert Doomed(DyingAt(name), m, i, suffixes, t.responses);
    cache := new Cache(m, t.fates);
    r := cache.FetchArtifacts(suffixes, t.responses);
    assert IsEmptyFile(cache.fs, name) && !FinalSound(cache.fs, m.artifacts[j], m);
  }

  // An ideal attempt under names that no attempt can succeed with.
  method IdealAttempt(m: Manifest, contents: seq<seq<Byte>>) returns (t: Attempt, cache: Cache, r: Outcome)
    requires Validated(m) && Obtainable(contents, m) && !(LockFree(m) && Ordered(m))
    ensures Fitting(t, m) && Ideal(t, m) && cache.manifest == m && !r.Done?
  {
    t := Attempt(Always, Repeat("aaaaaaaa", |m.artifacts|), Downloads(contents));
    DownloadsAreGood(contents, m);
    cache := new Cache(m, t.fates);
    r := cache.FetchArtifacts(t.suffixes, t.responses);
    if r.Done? { LockIsNoArtifact(cache.fs, m); }
  }

  lemma {:induction false} LockIsNoArtifact(fs: FileSystem, m: Manifest)
    requires Validated(m) && Provisioned(fs, m) && IsEmptyFile(fs, LOCK)
    ensures LockFree(m)
  {
    forall i | 0 <= i < |m.artifacts| ensures m.artifacts[i].filename != LOCK {
      assert Presentable(fs, m.artifacts[i], m);
    }
  }

  // Every artifact has approved content.
  ghost predicate Obtainable(contents: seq<seq<Byte>>, m: Manifest) {
    |contents| == |m.artifacts| && forall i :: 0 <= i < |contents| ==> Verified(contents[i], m.artifacts[i], m)
  }

  lemma {:induction false} DownloadsAreGood(contents: seq<seq<Byte>>, m: Manifest)
    requires Obtainable(contents, m)
    ensures AllGood(Downloads(contents), m)
  {
    forall i | 0 <= i < |contents| ensures GoodResponse(Downloads(contents)[i], m.artifacts[i], m) {
      ReceivedWhole(contents[i]);
    }
  }

  // The naming condition is exact: for every other manifest that passes the validator's checks
  // of names and sizes, one attempt from the empty cache with good downloads either is ideal
  // and fails, or dies leaving a final name with the wrong content.
  method FailingAttempt(m: Manifest, contents: seq<seq<Byte>>) returns (t: Attempt, cache: Cache, r: Outcome)
    requires Validated(m) && !WellNamed(m) && Obtainable(contents, m)
    ensures Fitting(t, m) && AllGood(t.responses, m) && cache.manifest == m
    ensures (Ideal(t, m) && !r.Done?) || (r.Crashed? && !FinalsSound(cache.fs, m))
  {
    if LockFree(m) {
      if i, j :| 0 <= i < |m.artifacts| && 0 <= j < |m.artifacts|
                 && IsTemporary(m.artifacts[j].filename, m.artifacts[i])
      {
        t, cache, r := DyingAttempt(m, contents, i, j);
        return;
      }
    }
    t, cache, r := IdealAttempt(m, contents);
  }

  // A manifest that passes the checks of names and sizes and yet cannot recover: the cleanup
  // before the second download removes the first artifact.
  lemma {:induction false} IllNamedManifest(m: Manifest, contents: seq<seq<Byte>>)
    requires m.artifacts == [Artifact(".a.partial-b", 1, "x"), Artifact("a", 1, "x")]
    requires (forall s :: m.hash(s) == "x") && contents == [[0], [0]]
    ensures Validated(m) && LockFree(m) && Obtainable(contents, m)
    ensures !Ordered(m) && !WellNamed(m)
  {
    var first, second := m.artifacts[0], m.artifacts[1];
    assert |first.filename| != |second.filename| && |LOCK| == 15 && |first.filename| == 12;
    assert Prefix(second) == ".a.partial-" <= first.filename;
    assert IsPartial(first.filename, second);
  }
}
