/** Over every sequence of releases, everything a client may be told to download exists. */
module Availability {
  import opened Sorting
  import opened Files
  import opened Heuristics
  import opened Matching
  import opened Pruning
  import opened Subtraction
  import opened IncludeLists
  import opened Release

  // ----- one name through one component's processing -----

  /** A record of a written manifest. */
  predicate WrittenOk(n: string, e: Entry) {
    && FlagsOk(n, e)
    && (e.Live() ==> e.Typed() && e.hash != ZERO_HASH)
    && (!e.Live() ==> e.Untyped())
    && !(e.isDeleted && e.isGhosted)
    && (e.isDeleted ==> !e.isBoot) && (e.isGhosted ==> e.isBoot)
  }

  /** A record of a new component after hashing and classification. */
  predicate NewOk(n: string, e: Entry, version: int) {
    && FlagsOk(n, e) && e.Live() && e.Typed() && !e.isRename
    && e.hash != ZERO_HASH && e.lastChange == version
  }

  ghost predicate JobOk(job: Job) {
    && (forall n | n in job.old_ :: WrittenOk(n, job.old_[n]) && job.old_[n].lastChange < job.version)
    && (forall n | n in job.new_ :: NewOk(n, job.new_[n], job.version))
  }

  predicate NotPruned(cfg: Config, n: string) {
    !(cfg.stateless && ConfigPath(n)) && !AnyPrefix(n, cfg.banned)
  }

  /** A shipped record either is from this release or was shipped, just the same, by the old manifest. */
  predicate Traced(job: Job, n: string, e: Entry) {
    && n in job.new_ && e.hash == job.new_[n].hash
    && (e.lastChange == job.version
        || (n in job.old_ && job.old_[n].Live() && SameFileContents(job.old_[n], e) &&
             e.lastChange == job.old_[n].lastChange))
  }

  lemma MatchedName(job: Job, cfg: Config, n: string)
    requires JobOk(job) && n in job.Matched(cfg)
    ensures var e := job.Matched(cfg)[n];
      && FlagsOk(n, e) && e.lastChange <= job.version
      && (e.Live() ==> e.Typed() && e.hash != ZERO_HASH && Traced(job, n, e))
      && (!e.Live() ==> e.Untyped() && e.isDeleted && n in job.old_ && n !in job.new_)
      && (e.isGhosted ==> job.old_[n].isGhosted)
  {
  }

  /** Renaming, removing deprecated records and cleaning touch only dead records' hashes and rename marks. */
  predicate SameButRename(a: Entry, b: Entry) {
    b.(isRename := a.isRename, hash := a.hash) == a && (a.Live() ==> b.hash == a.hash)
  }

  lemma RenamedName(job: Job, cfg: Config, n: string)
    requires JobOk(job) && n in job.Matched(cfg)
    requires RenamesAllowed(job.old_, job.new_, Marked(job.Matched(cfg)), job.version, job.outcome.renames)
    ensures SameButRename(job.Matched(cfg)[n], job.Renamed(cfg)[n])
  {
    hide Job.Matched, JobOk, FlagsOk, ZERO_HASH, Traced, RenamesAllowed, ApplyRenames, Marked;
    MatchedName(job, cfg, n);
    var m := job.Matched(cfg);
    MarkedIsSame(m, n);
    if n in job.outcome.renames {
      AllowedIsDeleted(job, Marked(m), n);
    }
    AppliedName(Marked(m), job.outcome.renames, n);
  }

  lemma AllowedIsDeleted(job: Job, m: Entries, n: string)
    requires RenamesAllowed(job.old_, job.new_, m, job.version, job.outcome.renames) && n in job.outcome.renames
    requires n in m
    ensures m[n].isDeleted
  {
    assert RenamedFrom(job.old_, job.new_, m, job.version, n);
  }

  lemma AppliedName(m: Entries, r: Renames, n: string)
    requires n in m && (n in r ==> m[n].isDeleted)
    ensures SameButRename(m[n], ApplyRenames(m, r)[n])
  {
    var e := ApplyRenames(m, r)[n];
    if n in r && r[n] in m {
      assert e == m[n].(isRename := true, hash := e.hash);
    } else {
      assert e == m[n].(isRename := e.isRename);
    }
  }

  lemma MarkedIsSame(m: Entries, n: string)
    requires n in m && FlagsOk(n, m[n])
    ensures Marked(m)[n] == m[n]
  {
    hide ConfigPath, StatePath, BootPath;
  }

  /** A record that reaches the pruning step has the shape a match gives it and is not an old ghost. */
  lemma RemainingName(job: Job, cfg: Config, n: string)
    requires JobOk(job) && n in job.WithoutGhosts(cfg)
    requires RenamesAllowed(job.old_, job.new_, Marked(job.Matched(cfg)), job.version, job.outcome.renames)
    ensures n in job.Matched(cfg) && SameButRename(job.Matched(cfg)[n], job.WithoutGhosts(cfg)[n])
    ensures !job.WithoutGhosts(cfg)[n].isGhosted
  {
    assert n in job.Renamed(cfg) && job.WithoutGhosts(cfg)[n] == job.Renamed(cfg)[n];
    assert n in job.Matched(cfg);
    assert job.WithoutDeleted(cfg)[n] == job.Renamed(cfg)[n];
    assert n !in Deprecated(job.old_, job.WithoutDeleted(cfg), BothGhosted);
    hide Job.Matched, Job.Renamed, ApplyRenames, Marked, RenamesAllowed, FlagsOk;
    RenamedName(job, cfg, n);
    MatchedName(job, cfg, n);
  }

  lemma PrunedValue(cfg: Config, n: string, e: Entry, linked: bool)
    requires FlagsOk(n, e) && !e.isGhosted && (e.Live() ==> e.Typed() && e.hash != ZERO_HASH)
    requires (!e.Live() ==> e.Untyped())
    requires PruneEntry(cfg, n, CleanEntry(e, linked)).Some?
    ensures var p := PruneEntry(cfg, n, CleanEntry(e, linked)).value;
      && WrittenOk(n, p) && p.lastChange == e.lastChange
      && (p.Live() ==> e.Live() && p.hash == e.hash && SameFileContents(e, p) && NotPruned(cfg, n))
      && (p.isDeleted <==> e.isDeleted && !e.isBoot)
  {
    hide ConfigPath, StatePath, BootPath, AnyPrefix;
  }

  lemma PrunedName(job: Job, cfg: Config, n: string)
    requires JobOk(job) && n in job.Pruned(cfg)
    requires RenamesAllowed(job.old_, job.new_, Marked(job.Matched(cfg)), job.version, job.outcome.renames)
    ensures var e := job.Pruned(cfg)[n];
      && WrittenOk(n, e) && e.lastChange <= job.version
      && (e.Live() ==> Traced(job, n, e) && NotPruned(cfg, n))
  {
    hide Job.WithoutGhosts, Job.Matched, RenamesAllowed, JobOk, FlagsOk, NotPruned, ZERO_HASH, PruneEntry, CleanEntry,
      WrittenOk;
    assert n in job.WithoutGhosts(cfg);
    var e := job.WithoutGhosts(cfg)[n];
    assert PruneEntry(cfg, n, CleanEntry(e, n in job.outcome.linked)) == Some(job.Pruned(cfg)[n]);
    RemainingName(job, cfg, n);
    MatchedName(job, cfg, n);
    FlagsFollow(n, job.Matched(cfg)[n], e);
    PrunedValue(cfg, n, e, n in job.outcome.linked);
  }

  lemma FlagsFollow(n: string, a: Entry, b: Entry)
    requires FlagsOk(n, a) && SameButRename(a, b)
    ensures FlagsOk(n, b)
  {
  }

  // ----- the full manifest -----

  lemma FullMatchedName(cfg: Config, s: State, in_: Input, n: string)
    requires StateOk(s) && Sensible(s, in_) && n in FullMatched(cfg, s, in_)
    ensures var e := FullMatched(cfg, s, in_)[n];
      && e.lastChange <= in_.version
      && (n in in_.image ==> e.Live() && e.hash == in_.image[n].hash && FlagsOk(n, e))
  {
    hide ConfigPath, StatePath, BootPath;
    if n in in_.image {
      assert FlagsOk(n, Marked(FullRaw(in_.image, in_.version))[n]);
    }
  }

  lemma FullFromMatched(cfg: Config, s: State, in_: Input, n: string)
    requires n in FullManifest(cfg, s, in_)
    ensures n in FullMatched(cfg, s, in_) && FullManifest(cfg, s, in_)[n] == MarkEntry(n, FullMatched(cfg, s, in_)[n])
  {
    hide FullMatched, ConfigPath, StatePath, BootPath;
  }

  lemma FullName(cfg: Config, s: State, in_: Input, n: string)
    requires StateOk(s) && Sensible(s, in_) && n in FullManifest(cfg, s, in_)
    ensures var e := FullManifest(cfg, s, in_)[n];
      && e.lastChange <= in_.version
      && (n in in_.image ==> e.Live() && e.hash == in_.image[n].hash && FlagsOk(n, e))
  {
    hide FullMatched, FullManifest, ConfigPath, StatePath, BootPath, StateOk, Sensible;
    FullFromMatched(cfg, s, in_, n);
    FullMatchedName(cfg, s, in_, n);
  }

  lemma FullHas(cfg: Config, s: State, in_: Input, n: string)
    requires n in in_.image
    ensures n in FullManifest(cfg, s, in_)
  {
    hide ConfigPath, StatePath, BootPath;
    assert FullMatched(cfg, s, in_)[n].Live();
    hide FullMatched;
  }

  lemma MaximizedOnce(w: Entries, full: Entries, n: string)
    requires n in full
    ensures var e := Maximize(w, full)[n];
      && e == full[n].(lastChange := e.lastChange)
      && full[n].lastChange <= e.lastChange
      && (e.lastChange == full[n].lastChange || (n in w && e.lastChange == w[n].lastChange))
      && (n in w && !w[n].isDeleted ==> w[n].lastChange <= e.lastChange)
  {
  }

  lemma {:induction false} MaximizedName(works: seq<Entries>, full: Entries, n: string, version: int)
    requires n in full && full[n].lastChange <= version
    requires forall i | 0 <= i < |works| && n in works[i] :: works[i][n].lastChange <= version
    ensures var e := MaximizeAll(works, full)[n];
      && e == full[n].(lastChange := e.lastChange)
      && full[n].lastChange <= e.lastChange <= version
      && forall i | 0 <= i < |works| && n in works[i] && !works[i][n].isDeleted ::
          works[i][n].lastChange <= e.lastChange
  {
    hide Maximize;
    if works != [] {
      MaximizedOnce(works[0], full, n);
      MaximizedName(works[1..], Maximize(works[0], full), n, version);
      forall i | 0 <= i < |works| && n in works[i] && !works[i][n].isDeleted
        ensures works[i][n].lastChange <= MaximizeAll(works, full)[n].lastChange
      {
        if i > 0 {
          assert works[1..][i - 1] == works[i];
        }
      }
    }
  }

  lemma {:induction false} WorksAt(groups: seq<string>, work: Work)
    requires forall g | g in groups :: g in work
    ensures |Works(groups, work)| == |groups|
    ensures forall i | 0 <= i < |groups| :: Works(groups, work)[i] == work[groups[i]]
  {
    if groups != [] {
      WorksAt(groups[1..], work);
    }
  }

  // ----- what holds of everything published -----

  ghost predicate ManifestOk(m: Published, fullfiles: set<(int, string)>) {
    forall n | n in m.entries ::
      && WrittenOk(n, m.entries[n]) && m.entries[n].lastChange <= m.version
      && (m.entries[n].Live() ==> (m.entries[n].lastChange, m.entries[n].hash) in fullfiles)
  }

  ghost predicate StateOk(s: State) {
    && s.version >= 0
    && (forall k | k in s.archive ::
         k.1 == s.archive[k].version && 0 < k.1 <= s.version && ManifestOk(s.archive[k], s.fullfiles))
    && (forall g | g in s.bundles && s.bundles[g].version != 0 ::
          (g, s.bundles[g].version) in s.archive && s.archive[(g, s.bundles[g].version)] == s.bundles[g])
    && (s.full.Some? ==> forall n | n in s.full.value.entries :: s.full.value.entries[n].lastChange <= s.version)
  }

  // ----- during the bundle loop -----

  predicate Part(a: Entries, b: Entries) {
    forall n | n in a :: n in b && a[n] == b[n]
  }

  /** A component's records in memory when it has had its turn. */
  predicate WorkOk(in_: Input, w: Entries) {
    forall n | n in w ::
      && w[n].lastChange <= in_.version && (w[n].isGhosted ==> BootPath(n))
      && (w[n].Live() ==> n in in_.image && w[n].hash == in_.image[n].hash)
  }

  /** A shipped record that is older than its manifest stands in the manifest before. */
  predicate Inherited(old_: Entries, n: string, e: Entry) {
    n in old_ && old_[n].Live() && SameFileContents(old_[n], e) && old_[n].lastChange == e.lastChange
  }

  /** A manifest written by this release: what is not new in it was there before. */
  ghost predicate WrittenNow(cfg: Config, s: State, in_: Input, g: string, w: Entries) {
    forall n | n in w ::
      && WrittenOk(n, w[n]) && w[n].lastChange <= in_.version
      && (w[n].Live() ==> NotPruned(cfg, n))
      && (w[n].Live() && w[n].lastChange != in_.version ==> Inherited(OldBundle(s, in_, g).entries, n, w[n]))
  }

  ghost predicate WorkPart(s: State, in_: Input, left: seq<string>, oldWork: Work, newWork: Work) {
    && (forall g | g in in_.groups :: g in oldWork && g in newWork)
    && (forall g | g in oldWork :: g in in_.groups && Part(oldWork[g], OldBundle(s, in_, g).entries))
    && (forall g | g in newWork :: g in in_.groups)
    && (forall g | g in newWork && g in left :: newWork[g] == BundleRaw(in_.image, in_.ShippedBy(g), in_.version))
    && (forall g | g in newWork && g !in left :: WorkOk(in_, newWork[g]))
  }

  /** What the new MoM names is written; what is written is old, or is this release's. */
  ghost predicate ArchivePart(cfg: Config, s: State, in_: Input, left: seq<string>, newWork: Work,
                              bundles: map<string, Published>, archive: map<(string, int), Published>) {
    && (forall g | g in bundles && bundles[g].version != 0 ::
          (g, bundles[g].version) in archive && archive[(g, bundles[g].version)] == bundles[g])
    && (forall k | k in s.archive :: k in archive && archive[k] == s.archive[k])
    && (forall k | k in archive && k !in s.archive ::
          && k.1 == in_.version == archive[k].version && k.0 in newWork && k.0 !in left
          && k.0 in bundles && bundles[k.0] == archive[k]
          && archive[k].entries == newWork[k.0] && WrittenNow(cfg, s, in_, k.0, archive[k].entries))
    && (forall g | g in bundles && bundles[g].version != in_.version :: bundles[g] == OldBundle(s, in_, g))
  }

  ghost predicate LoopOk(cfg: Config, s: State, in_: Input, left: seq<string>, r: Progressing) {
    && r.Running?
    && WorkPart(s, in_, left, r.oldWork, r.newWork)
    && ArchivePart(cfg, s, in_, left, r.newWork, r.bundles, r.archive)
  }

  lemma OldRecords(cfg: Config, s: State, in_: Input, g: string, r: Progressing)
    requires StateOk(s) && Sensible(s, in_) && r.Running? && g in r.oldWork && g in r.newWork
    requires Part(r.oldWork[g], OldBundle(s, in_, g).entries)
    ensures var o := JobOf(s, in_, FullManifest(cfg, s, in_), g, r).old_;
      Part(o, OldBundle(s, in_, g).entries) && forall n | n in o :: WrittenOk(n, o[n]) && o[n].lastChange < in_.version
  {
    hide FullManifest, ConfigPath, StatePath, BootPath, WrittenOk, OldIncludeMap, NewIncludeMap, FlagsOk, AddHashes,
      Marked;
    var o := JobOf(s, in_, FullManifest(cfg, s, in_), g, r).old_;
    forall n | n in o
      ensures n in OldBundle(s, in_, g).entries && o[n] == OldBundle(s, in_, g).entries[n]
      ensures WrittenOk(n, o[n]) && o[n].lastChange < in_.version
    {
      assert n in r.oldWork[g] && o[n] == Marked(r.oldWork[g])[n];
      OldBundleRecord(s, in_, g, n);
      WrittenFlags(n, r.oldWork[g][n]);
      MarkedIsSame(r.oldWork[g], n);
    }
  }

  lemma WrittenFlags(n: string, e: Entry)
    requires WrittenOk(n, e)
    ensures FlagsOk(n, e)
  {
  }

  lemma OldBundleRecord(s: State, in_: Input, g: string, n: string)
    requires StateOk(s) && Sensible(s, in_) && n in OldBundle(s, in_, g).entries
    ensures var e := OldBundle(s, in_, g).entries[n]; WrittenOk(n, e) && e.lastChange < in_.version
  {
    hide WrittenOk;
    assert (g, s.bundles[g].version) in s.archive;
  }

  lemma NewRecords(cfg: Config, s: State, in_: Input, g: string, r: Progressing)
    requires StateOk(s) && Sensible(s, in_) && r.Running? && g in r.oldWork && g in r.newWork
    requires r.newWork[g] == BundleRaw(in_.image, in_.ShippedBy(g), in_.version)
    ensures var m := JobOf(s, in_, FullManifest(cfg, s, in_), g, r).new_;
      forall n | n in m :: NewOk(n, m[n], in_.version) && n in in_.image && m[n].hash == in_.image[n].hash
  {
    hide FullManifest, Walked, MarkEntry, NewOk, OldIncludeMap, NewIncludeMap, StateOk, FlagsOk, SubtractIncludes;
    var full := FullManifest(cfg, s, in_);
    var m := JobOf(s, in_, full, g, r).new_;
    SubtractedPart(r.newWork[g := Marked(AddHashes(r.newWork[g], full))], NewIncludeMap(in_), g);
    forall n | n in m
      ensures NewOk(n, m[n], in_.version) && n in in_.image && m[n].hash == in_.image[n].hash
    {
      assert n in r.newWork[g] && m[n] == Marked(AddHashes(r.newWork[g], full))[n];
      FullHas(cfg, s, in_, n);
      FullName(cfg, s, in_, n);
      NewRecord(n, in_.image[n], in_.version);
    }
  }

  lemma SubtractedPart(work: Work, inc: Includes, g: string)
    requires g in work
    ensures Part(SubtractIncludes(work, inc, g), work[g])
  {
    hide CancelledIn;
  }

  lemma NewRecord(n: string, item: Item, version: int)
    requires item.hash != ZERO_HASH
    ensures var e := MarkEntry(n, Walked(item.kind, "", version).(hash := item.hash));
      NewOk(n, e, version) && e.hash == item.hash
  {
    hide ConfigPath, StatePath, BootPath;
  }

  lemma JobIsOk(cfg: Config, s: State, in_: Input, left: seq<string>, g: string, r: Progressing)
    requires StateOk(s) && Sensible(s, in_) && g in in_.groups && g in left && LoopOk(cfg, s, in_, left, r)
    ensures var job := JobOf(s, in_, FullManifest(cfg, s, in_), g, r);
      JobOk(job) && Part(job.old_, OldBundle(s, in_, g).entries)
      && (forall n | n in job.new_ :: n in in_.image && job.new_[n].hash == in_.image[n].hash)
  {
    hide FullManifest, WrittenOk, NewOk, StateOk, Sensible, Part, WorkOk, WrittenNow;
    OldRecords(cfg, s, in_, g, r);
    NewRecords(cfg, s, in_, g, r);
  }

  lemma OldIsAvailable(s: State, in_: Input, g: string, n: string)
    requires StateOk(s) && n in OldBundle(s, in_, g).entries && OldBundle(s, in_, g).entries[n].Live()
    ensures var e := OldBundle(s, in_, g).entries[n]; (e.lastChange, e.hash) in s.fullfiles
  {
    hide WrittenOk;
    assert (g, s.bundles[g].version) in s.archive;
  }

  lemma ProcessedOk(cfg: Config, s: State, in_: Input, g: string, job: Job)
    requires StateOk(s) && JobOk(job) && Part(job.old_, OldBundle(s, in_, g).entries) && job.version == in_.version
    requires forall n | n in job.new_ :: n in in_.image && job.new_[n].hash == in_.image[n].hash
    ensures var p := job.Process(cfg);
      && (!p.Failed? ==> WorkOk(in_, p.work))
      && (p.Written? ==> WrittenNow(cfg, s, in_, g, p.work))
  {
    hide StateOk, JobOk, Job.Matched, Job.Pruned, OldBundle, WrittenOk, NotPruned, Job.WorthWriting, Job.Same;
    var p := job.Process(cfg);
    if p.Kept? && p.work == job.Matched(cfg) {
      forall n | n in p.work
        ensures p.work[n].lastChange <= in_.version && (p.work[n].isGhosted ==> BootPath(n))
        ensures p.work[n].Live() ==> n in in_.image && p.work[n].hash == in_.image[n].hash
      {
        MatchedName(job, cfg, n);
        if p.work[n].isGhosted {
          OldGhost(job, n);
        }
      }
    } else if !p.Failed? {
      forall n | n in p.work
        ensures p.work[n].lastChange <= in_.version && WrittenOk(n, p.work[n]) && (p.work[n].isGhosted ==> BootPath(n))
        ensures p.work[n].Live() ==> n in in_.image && p.work[n].hash == in_.image[n].hash && NotPruned(cfg, n)
        ensures p.work[n].Live() && p.work[n].lastChange != in_.version ==>
          Inherited(OldBundle(s, in_, g).entries, n, p.work[n])
      {
        PrunedName(job, cfg, n);
        WrittenGhost(n, p.work[n]);
      }
    }
  }

  /** Only boot files are ghosted. */
  lemma WrittenGhost(n: string, e: Entry)
    requires WrittenOk(n, e)
    ensures e.isGhosted ==> BootPath(n)
  {
    hide ConfigPath, StatePath, BootPath, ZERO_HASH;
  }

  lemma OldGhost(job: Job, n: string)
    requires JobOk(job) && n in job.old_ && job.old_[n].isGhosted
    ensures BootPath(n)
  {
    hide WrittenOk;
    WrittenGhost(n, job.old_[n]);
  }

  lemma WorkTurn(s: State, in_: Input, left: seq<string>, g: string, oldWork: Work, newWork: Work, o: Entries,
      w: Entries)
    requires WorkPart(s, in_, [g] + left, oldWork, newWork) && g in in_.groups && g !in left
    requires Part(o, OldBundle(s, in_, g).entries) && WorkOk(in_, w)
    ensures WorkPart(s, in_, left, oldWork[g := o], newWork[g := w])
  {
    hide Part, WorkOk, OldBundle, BundleRaw;
    assert forall x :: x in [g] + left <==> x == g || x in left;
  }

  lemma NotYetWritten(cfg: Config, s: State, in_: Input, left: seq<string>, g: string, newWork: Work,
                      bundles: map<string, Published>, archive: map<(string, int), Published>)
    requires StateOk(s) && Sensible(s, in_) && ArchivePart(cfg, s, in_, [g] + left, newWork, bundles, archive)
    ensures (g, in_.version) !in archive
    ensures var m := OldBundle(s, in_, g); m.version != 0 ==> (g, m.version) in archive && archive[(g, m.version)] == m
  {
    hide WrittenNow, ManifestOk;
    assert (g, in_.version) !in s.archive;
  }

  lemma ArchiveKept(cfg: Config, s: State, in_: Input, left: seq<string>, g: string, newWork: Work,
                    bundles: map<string, Published>, archive: map<(string, int), Published>, w: Entries)
    requires StateOk(s) && Sensible(s, in_) && g !in left && g in newWork
    requires ArchivePart(cfg, s, in_, [g] + left, newWork, bundles, archive)
    ensures ArchivePart(cfg, s, in_, left, newWork[g := w], bundles[g := OldBundle(s, in_, g)], archive)
  {
    hide WrittenNow, StateOk, Sensible, OldBundle;
    NotYetWritten(cfg, s, in_, left, g, newWork, bundles, archive);
    assert forall x :: x in [g] + left <==> x == g || x in left;
  }

  lemma ArchiveWritten(cfg: Config, s: State, in_: Input, left: seq<string>, g: string, newWork: Work,
                       bundles: map<string, Published>, archive: map<(string, int), Published>, m: Published)
    requires StateOk(s) && Sensible(s, in_) && g !in left && g in newWork
    requires ArchivePart(cfg, s, in_, [g] + left, newWork, bundles, archive)
    requires m.version == in_.version && WrittenNow(cfg, s, in_, g, m.entries)
    ensures ArchivePart(cfg, s, in_, left, newWork[g := m.entries], bundles[g := m], archive[(g, in_.version) := m])
  {
    hide WrittenNow, StateOk, OldBundle, Sensible;
    NotYetWritten(cfg, s, in_, left, g, newWork, bundles, archive);
    assert forall x :: x in [g] + left <==> x == g || x in left;
    var archive' := archive[(g, in_.version) := m];
    forall k | k in archive' && k !in s.archive
      ensures k.1 == in_.version == archive'[k].version && k.0 in newWork[g := m.entries] && k.0 !in left
      ensures k.0 in bundles[g := m] && bundles[g := m][k.0] == archive'[k]
      ensures archive'[k].entries == newWork[g := m.entries][k.0] && WrittenNow(cfg, s, in_, k.0, archive'[k].entries)
    {
      if k != (g, in_.version) {
        assert k in archive && k.0 != g;
      }
    }
  }

  lemma TurnOk(cfg: Config, s: State, in_: Input, left: seq<string>, g: string, r: Progressing)
    requires StateOk(s) && Sensible(s, in_) && g in in_.groups && g !in left && LoopOk(cfg, s, in_, [g] + left, r)
    ensures var r' := BundleTurn(cfg, s, in_, FullManifest(cfg, s, in_), g, r); r'.Running? ==>
      LoopOk(cfg, s, in_, left, r')
  {
    hide FullManifest, JobOf, Job.Process, JobOk, WrittenNow, WorkOk, Part, StateOk, Sensible, ArchivePart, OldBundle;
    var full := FullManifest(cfg, s, in_);
    var job := JobOf(s, in_, full, g, r);
    assert job.version == in_.version by { JobVersion(s, in_, full, g, r); }
    JobIsOk(cfg, s, in_, [g] + left, g, r);
    ProcessedOk(cfg, s, in_, g, job);
    var p := job.Process(cfg);
    if !p.Failed? {
      WorkTurn(s, in_, left, g, r.oldWork, r.newWork, job.old_, p.work);
      if p.Kept? {
        ArchiveKept(cfg, s, in_, left, g, r.newWork, r.bundles, r.archive, p.work);
      } else {
        ArchiveWritten(cfg, s, in_, left, g, r.newWork, r.bundles, r.archive,
                       Published(in_.version, in_.format, p.work, in_.IncludesOf(g)));
      }
    }
  }

  lemma JobVersion(s: State, in_: Input, full: Entries, g: string, r: Progressing)
    requires r.Running? && g in r.oldWork && g in r.newWork
    ensures JobOf(s, in_, full, g, r).version == in_.version
  {
  }

  lemma StoppedStays(cfg: Config, s: State, in_: Input, full: Entries, groups: seq<string>)
    ensures BundleTurns(cfg, s, in_, full, groups, Stopped).Stopped?
    decreases groups
  {
    if groups != [] {
      StoppedStays(cfg, s, in_, full, groups[1..]);
    }
  }

  lemma {:induction false} LoopDone(cfg: Config, s: State, in_: Input, groups: seq<string>, r: Progressing)
    requires StateOk(s) && Sensible(s, in_) && Distinct(groups) && (forall g | g in groups :: g in in_.groups)
    requires LoopOk(cfg, s, in_, groups, r)
    ensures var r' := BundleTurns(cfg, s, in_, FullManifest(cfg, s, in_), groups, r); r'.Running? ==>
      LoopOk(cfg, s, in_, [], r')
    decreases |groups|
  {
    hide FullManifest, StateOk, Sensible, LoopOk, BundleTurn;
    if groups != [] {
      var full := FullManifest(cfg, s, in_);
      var g, left := groups[0], groups[1..];
      assert groups == [g] + left;
      assert g !in left by {
        assert forall i | 0 < i < |groups| :: groups[i] != groups[0];
      }
      TurnOk(cfg, s, in_, left, g, r);
      var r' := BundleTurn(cfg, s, in_, full, g, r);
      if r'.Running? {
        LoopDone(cfg, s, in_, left, r');
      } else {
        StoppedStays(cfg, s, in_, full, left);
      }
    }
  }

  lemma {:induction false} OthersDistinct(groups: seq<string>)
    requires Distinct(groups)
    ensures Distinct(Others(groups))
  {
    if groups != [] {
      OthersDistinct(groups[1..]);
      assert forall i | 0 < i < |groups| :: groups[i] != groups[0];
      assert groups[0] !in groups[1..];
    }
  }

  /** The fullfiles of a release cover what its bundle manifests call new. */
  lemma NewIsAvailable(cfg: Config, s: State, in_: Input, groups: seq<string>, newWork: Work, g: string, n: string)
    requires StateOk(s) && Sensible(s, in_) && (forall x | x in groups :: x in newWork && WorkOk(in_, newWork[x]))
    requires g in groups && n in newWork[g] && newWork[g][n].Live() && newWork[g][n].lastChange == in_.version
    requires NotPruned(cfg, n)
    ensures newWork[g][n].hash in
      FullfileHashes(WrittenFull(cfg, in_, FullManifest(cfg, s, in_), Works(groups, newWork)), in_.version)
  {
    hide FullManifest, StateOk, Sensible, MaximizeAll, FlagsOk;
    var full, works := FullManifest(cfg, s, in_), Works(groups, newWork);
    WorksAt(groups, newWork);
    FullHas(cfg, s, in_, n);
    FullName(cfg, s, in_, n);
    MaximizedName(works, full, n, in_.version);
    var i :| 0 <= i < |groups| && groups[i] == g;
    assert works[i] == newWork[g];
    var e := MaximizeAll(works, full)[n];
    assert e.lastChange == in_.version && e.Live() && e.hash == newWork[g][n].hash;
    FlagsKept(n, full[n], e);
    assert PruneEntry(cfg, n, CleanEntry(e, n in in_.fullLinked)).Some?
      by { LiveStays(cfg, n, e, n in in_.fullLinked); }
    var w := WrittenFull(cfg, in_, full, works);
    assert n in w && w[n] == PruneEntry(cfg, n, CleanEntry(e, n in in_.fullLinked)).value;
    LiveStays(cfg, n, e, n in in_.fullLinked);
  }

  lemma FlagsKept(n: string, a: Entry, b: Entry)
    requires FlagsOk(n, a) && b == a.(lastChange := b.lastChange)
    ensures FlagsOk(n, b)
  {
  }

  lemma LiveStays(cfg: Config, n: string, e: Entry, linked: bool)
    requires e.Live() && FlagsOk(n, e) && NotPruned(cfg, n)
    ensures PruneEntry(cfg, n, CleanEntry(e, linked)).Some?
    ensures var p := PruneEntry(cfg, n, CleanEntry(e, linked)).value;
      p.Live() && p.hash == e.hash && p.lastChange == e.lastChange
  {
    hide ConfigPath, StatePath, BootPath, AnyPrefix;
  }

  lemma LoopStarts(cfg: Config, s: State, in_: Input, groups: seq<string>)
    requires StateOk(s) && Sensible(s, in_) && forall g | g in in_.groups :: g in groups
    ensures LoopOk(cfg, s, in_, groups, BeginBundles(s, in_))
  {
    hide StateOk, Sensible, WorkOk, WrittenNow, BundleRaw, OldBundle;
  }

  lemma FullStaysBelow(cfg: Config, s: State, in_: Input, groups: seq<string>, newWork: Work, n: string)
    requires StateOk(s) && Sensible(s, in_) && (forall x | x in groups :: x in newWork && WorkOk(in_, newWork[x]))
    requires n in WrittenFull(cfg, in_, FullManifest(cfg, s, in_), Works(groups, newWork))
    ensures WrittenFull(cfg, in_, FullManifest(cfg, s, in_), Works(groups, newWork))[n].lastChange <= in_.version
  {
    hide FullManifest, StateOk, Sensible, MaximizeAll, FlagsOk, PruneEntry, CleanEntry, Works;
    var full, works := FullManifest(cfg, s, in_), Works(groups, newWork);
    WorksAt(groups, newWork);
    FullName(cfg, s, in_, n);
    MaximizedName(works, full, n, in_.version);
    PruneKeepsVersion(cfg, n, MaximizeAll(works, full)[n], n in in_.fullLinked);
  }

  lemma PruneKeepsVersion(cfg: Config, n: string, e: Entry, linked: bool)
    ensures PruneEntry(cfg, n, CleanEntry(e, linked)).Some? ==>
      PruneEntry(cfg, n, CleanEntry(e, linked)).value.lastChange == e.lastChange
  {
    hide AnyPrefix;
  }

  lemma LoopFacts(cfg: Config, s: State, in_: Input, groups: seq<string>, r: Progressing)
    requires LoopOk(cfg, s, in_, [], r) && groups == [CORE] + Others(in_.groups) && CORE in in_.groups
    ensures (forall g | g in groups :: g in in_.groups) && (forall g | g in r.newWork :: g in groups)
    ensures forall g | g in groups :: g in r.newWork && WorkOk(in_, r.newWork[g])
  {
    hide WorkOk, ArchivePart, Part, OldBundle;
  }

  /** The bundle loop behind a step that publishes. */
  lemma StepLoop(cfg: Config, s: State, in_: Input) returns (r: Progressing)
    requires StateOk(s) && Sensible(s, in_) && CreateUpdate(cfg, s, in_).Some?
    ensures LoopOk(cfg, s, in_, [], r)
    ensures r == BundleTurns(cfg, s, in_, FullManifest(cfg, s, in_), [CORE] + Others(in_.groups), BeginBundles(s, in_))
    ensures var s' := Step(cfg, s, in_);
      s'.version == in_.version && s'.bundles == r.bundles && s'.archive == r.archive
  {
    hide FullManifest, WrittenFull, Works, BundleTurns, BeginBundles, StateOk, LoopOk, FullfileHashes;
    var groups := [CORE] + Others(in_.groups);
    OthersDistinct(in_.groups);
    LoopStarts(cfg, s, in_, groups);
    LoopDone(cfg, s, in_, groups, BeginBundles(s, in_));
    r := BundleTurns(cfg, s, in_, FullManifest(cfg, s, in_), groups, BeginBundles(s, in_));
  }

  lemma StepOk(cfg: Config, s: State, in_: Input)
    requires StateOk(s)
    ensures StateOk(Step(cfg, s, in_))
  {
    hide FullManifest, WrittenFull, Works, BundleTurns, BeginBundles, WorkOk, StateOk, LoopOk, FullfileHashes;
    if Sensible(s, in_) && CreateUpdate(cfg, s, in_).Some? {
      var groups := [CORE] + Others(in_.groups);
      var r := StepLoop(cfg, s, in_);
      LoopFacts(cfg, s, in_, groups, r);
      PublishedOk(cfg, s, in_, groups, r);
    }
  }

  function Fullfiles(s: State, in_: Input, written: Entries): set<(int, string)> {
    s.fullfiles + set h | h in FullfileHashes(written, in_.version) :: (in_.version, h)
  }

  lemma NewManifestOk(cfg: Config, s: State, in_: Input, groups: seq<string>, newWork: Work, g: string, m: Published)
    requires StateOk(s) && Sensible(s, in_) && (forall x | x in groups :: x in newWork && WorkOk(in_, newWork[x]))
    requires g in groups && m.entries == newWork[g] && m.version == in_.version && WrittenNow(cfg, s, in_, g, m.entries)
    ensures ManifestOk(m, Fullfiles(s, in_, WrittenFull(cfg, in_, FullManifest(cfg, s, in_), Works(groups, newWork))))
  {
    hide FullManifest, WrittenFull, Works, WorkOk, WrittenOk, FullfileHashes, StateOk, Sensible, NotPruned;
    forall n | n in m.entries && m.entries[n].Live()
      ensures (m.entries[n].lastChange, m.entries[n].hash) in
        Fullfiles(s, in_, WrittenFull(cfg, in_, FullManifest(cfg, s, in_), Works(groups, newWork)))
    {
      if m.entries[n].lastChange == in_.version {
        NewIsAvailable(cfg, s, in_, groups, newWork, g, n);
      } else {
        OldIsAvailable(s, in_, g, n);
      }
    }
  }

  lemma PublishedOk(cfg: Config, s: State, in_: Input, groups: seq<string>, r: Progressing)
    requires StateOk(s) && Sensible(s, in_) && LoopOk(cfg, s, in_, [], r)
    requires (forall g | g in groups :: g in in_.groups) && (forall g | g in r.newWork :: g in groups)
    requires forall g | g in groups :: g in r.newWork && WorkOk(in_, r.newWork[g])
    ensures var w := WrittenFull(cfg, in_, FullManifest(cfg, s, in_), Works(groups, r.newWork));
      StateOk(State(in_.version, Some(in_.format), Some(Published(in_.version, in_.format, w, [])),
                    r.bundles, r.archive, Fullfiles(s, in_, w)))
  {
    hide FullManifest, WrittenFull, Works, WorkOk, WrittenOk, WrittenNow, FullfileHashes, WorkPart, OldBundle;
    var w := WrittenFull(cfg, in_, FullManifest(cfg, s, in_), Works(groups, r.newWork));
    forall k | k in r.archive
      ensures ManifestOk(r.archive[k], Fullfiles(s, in_, w))
    {
      if k !in s.archive {
        NewManifestOk(cfg, s, in_, groups, r.newWork, k.0, r.archive[k]);
      }
    }
    forall n | n in w
      ensures w[n].lastChange <= in_.version
    {
      FullStaysBelow(cfg, s, in_, groups, r.newWork, n);
    }
  }

  lemma {:induction false} RunOk(cfg: Config, inputs: seq<Input>)
    ensures StateOk(Run(cfg, inputs))
  {
    hide Step, StateOk;
    if inputs == [] {
      EmptyOk();
    } else {
      RunOk(cfg, inputs[..|inputs| - 1]);
      StepOk(cfg, Run(cfg, inputs[..|inputs| - 1]), inputs[|inputs| - 1]);
    }
  }

  lemma EmptyOk()
    ensures StateOk(EMPTY)
  {
  }

  /** For every record of every bundle manifest ever written that is neither deleted nor ghosted, the release
      numbered by its last_change has made a fullfile with its hash. */
  ghost predicate AllAvailable(s: State) {
    forall k, n | k in s.archive && n in s.archive[k].entries && s.archive[k].entries[n].Live() ::
      (s.archive[k].entries[n].lastChange, s.archive[k].entries[n].hash) in s.fullfiles
  }

  lemma OkIsAvailable(s: State)
    requires StateOk(s)
    ensures AllAvailable(s)
  {
    hide WrittenOk;
  }

  /** After any sequence of builds, good or failed, a client can download whatever it is told to. */
  lemma ContentIsAvailable(cfg: Config, inputs: seq<Input>)
    ensures AllAvailable(Run(cfg, inputs))
  {
    hide Run, StateOk, AllAvailable;
    RunOk(cfg, inputs);
    OkIsAvailable(Run(cfg, inputs));
  }

  /** The newest MoM only names bundle versions that were written, or version 0 for an empty bundle. */
  ghost predicate NamesWritten(s: State) {
    forall g | g in s.bundles ::
      var v := s.bundles[g].version; v == 0 || ((g, v) in s.archive && s.archive[(g, v)] == s.bundles[g])
  }

  lemma OkNamesWritten(s: State)
    requires StateOk(s)
    ensures NamesWritten(s)
  {
    hide ManifestOk;
  }

  /** After any sequence of builds, staying at the old version is sound. */
  lemma MomNamesWrittenManifests(cfg: Config, inputs: seq<Input>)
    ensures NamesWritten(Run(cfg, inputs))
  {
    hide Run, StateOk, NamesWritten;
    RunOk(cfg, inputs);
    OkNamesWritten(Run(cfg, inputs));
  }
}
