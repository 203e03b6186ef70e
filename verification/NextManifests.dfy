/** What becomes of every name from one release to the next, over every sequence of builds: in the full manifest and in
    the manifest of every bundle. */
module NextManifests {
  import opened Files
  import opened Heuristics
  import opened Matching
  import opened Pruning
  import opened IncludeLists
  import opened Release
  import opened Availability
  import opened Lifecycle
  import opened Shipping
  import opened History
  import opened Ghosts
  import opened Reading

  // ----- phase 1 is a job without renames -----

  lemma NothingRenamed(m: Entries)
    ensures ApplyRenames(m, map[]) == m
  {
  }

  lemma MarksCommute(old_: Entries, m: Entries, d: Deprecation)
    ensures Marked(RemoveDeprecated(old_, m, d)) == RemoveDeprecated(old_, Marked(m), d)
  {
    hide ConfigPath, StatePath, BootPath;
    assert Deprecated(old_, m, d) == Deprecated(old_, Marked(m), d);
  }

  lemma FullIsJob(cfg: Config, s: State, in_: Input)
    ensures FullManifest(cfg, s, in_) == FullJob(s, in_).WithoutGhosts(cfg)
  {
    hide MarkEntry, Match, RemoveDeprecated, ApplyRenames, OldFull;
    var job := FullJob(s, in_);
    var m := FullMatched(cfg, s, in_);
    NothingRenamed(Marked(m));
    MarksCommute(job.old_, m, BothDeleted);
    MarksCommute(job.old_, if job.bump then RemoveDeprecated(job.old_, m, BothDeleted) else m, BothGhosted);
  }

  lemma FullAllowed(cfg: Config, s: State, in_: Input)
    ensures var job := FullJob(s, in_);
      RenamesAllowed(job.old_, job.new_, Marked(job.Matched(cfg)), job.version, job.outcome.renames)
  {
    hide Job.Matched, Marked;
  }

  /** The sides of that job. */
  lemma FullSides(s: State, in_: Input, n: string)
    requires StateOk(s) && Sensible(s, in_) && FullWritten(s)
    ensures var job, o := FullJob(s, in_), OldFull(s, in_).entries;
      && JobOk(job) && (n in job.new_ <==> n in in_.image)
      && (n in job.old_ <==> n in o) && (n in o ==> job.old_[n] == o[n])
      && (n in in_.image ==> SameItem(job.new_[n], in_.image[n]))
  {
    hide StateOk, Sensible, MarkEntry, WrittenOk, FlagsOk, NewOk;
    FullJobOk(s, in_);
    var o := OldFull(s, in_).entries;
    if n in o {
      WrittenFlags(n, o[n]);
      MarkedIsSame(o, n);
    }
    if n in in_.image {
      MarkIsSame(n, FullRaw(in_.image, in_.version)[n], in_.image[n]);
    }
  }

  lemma MarkIsSame(n: string, e: Entry, item: Item)
    requires SameItem(e, item)
    ensures SameItem(MarkEntry(n, e), item)
  {
    hide ConfigPath, StatePath, BootPath;
  }

  // ----- what the bundles add -----

  /** An entry that no bundle has later than this keeps its release. */
  lemma {:induction false} NotRaised(works: seq<Entries>, full: Entries, n: string)
    requires n in full
    requires forall i | 0 <= i < |works| && n in works[i] ::
      works[i][n].isDeleted || works[i][n].lastChange <= full[n].lastChange
    ensures MaximizeAll(works, full)[n] == full[n]
    decreases |works|
  {
    hide Maximize;
    if works != [] {
      NotRaisedOnce(works[0], full, n);
      forall i | 0 <= i < |works[1..]| && n in works[1..][i]
        ensures works[1..][i][n].isDeleted || works[1..][i][n].lastChange <= Maximize(works[0], full)[n].lastChange
      {
        assert works[1..][i] == works[i + 1];
      }
      NotRaised(works[1..], Maximize(works[0], full), n);
    }
  }

  lemma NotRaisedOnce(w: Entries, full: Entries, n: string)
    requires n in full && (n in w ==> w[n].isDeleted || w[n].lastChange <= full[n].lastChange)
    ensures Maximize(w, full)[n] == full[n]
  {
  }

  /** What is written of a name that the image does not hold. */
  lemma DeadIsWritten(cfg: Config, s: State, in_: Input, works: seq<Entries>, n: string)
    requires StateOk(s) && Sensible(s, in_) && FullWritten(s) && n in FullManifest(cfg, s, in_) && n !in in_.image
    requires forall i | 0 <= i < |works| :: WorkOk(in_, works[i])
    requires FullManifest(cfg, s, in_)[n].isDeleted &&
      (BootPath(n) ==> FullManifest(cfg, s, in_)[n].lastChange == in_.version)
    ensures MaximizeAll(works, FullManifest(cfg, s, in_))[n] == FullManifest(cfg, s, in_)[n]
  {
    hide StateOk, Sensible, FullWritten, FullManifest, MaximizeAll, BootPath;
    var full := FullManifest(cfg, s, in_);
    FullName(cfg, s, in_, n);
    forall i | 0 <= i < |works| && n in works[i]
      ensures works[i][n].isDeleted || works[i][n].lastChange <= full[n].lastChange
    {
      assert WorkOk(in_, works[i]);
      assert works[i][n].Live() || works[i][n].isDeleted || works[i][n].isGhosted;
    }
    NotRaised(works, full, n);
  }

  // ----- one release, one name -----

  /** A name that the image holds: shipped as it is there, unless it is pruned, and since the release of the old entry
      if nothing changed, or a later one for which some bundle lists it. */
  ghost predicate FullShips(cfg: Config, o: Entries, m: Entries, in_: Input, n: string) {
    n in in_.image ==>
      if !NotPruned(cfg, n) then n !in m
      else
      && n in m && m[n].Live() && SameItem(m[n], in_.image[n])
      && (if SameThen(cfg, o, n, in_.image[n])
          then o[n].lastChange <= m[n].lastChange <= in_.version else m[n].lastChange == in_.version)
  }

  /** A name that is not listed any more: a shipped file becomes a tombstone of this release, or a ghost if it is a
      boot file, and a ghost is gone; a tombstone stays as it is, or is gone if the format is a new one. */
  ghost predicate Unlisted(cfg: Config, o: Entries, bump: bool, m: Entries, version: int, n: string) {
    if n !in o || o[n].isGhosted then n !in m
    else if BootPath(n) then o[n].Live() && GhostedSince(m, n, version)
    else if AnyPrefix(n, cfg.banned) then n !in m
    else if o[n].Live() then n in m && m[n].isDeleted && m[n].lastChange == version
    else if bump then n !in m
    else n in m && m[n].isDeleted && m[n].lastChange == o[n].lastChange
  }

  ghost predicate FullDrops(cfg: Config, o: Entries, bump: bool, m: Entries, in_: Input, n: string) {
    n !in in_.image ==> Unlisted(cfg, o, bump, m, in_.version, n)
  }

  ghost predicate FullTable(cfg: Config, o: Entries, bump: bool, m: Entries, in_: Input) {
    (forall n :: FullShips(cfg, o, m, in_, n)) && (forall n :: FullDrops(cfg, o, bump, m, in_, n))
  }

  ghost predicate FullFollows(cfg: Config, s: State, in_: Input, s': State) {
    Publishes(cfg, s, in_) ==>
      && s'.full.Some? && s'.full.value.version == in_.version && s'.full.value.format == in_.format
      && FullTable(cfg, if s.full.Some? then s.full.value.entries else map[],
                   s.full.Some? && s.full.value.format < in_.format, s'.full.value.entries, in_)
  }

  lemma ReleaseFull(cfg: Config, s: State, in_: Input) returns (works: seq<Entries>)
    requires StateOk(s) && Publishes(cfg, s, in_)
    ensures forall i | 0 <= i < |works| :: WorkOk(in_, works[i])
    ensures Step(cfg, s, in_).full ==
      Some(Published(in_.version, in_.format, WrittenFull(cfg, in_, FullManifest(cfg, s, in_), works), []))
  {
    hide FullManifest, WrittenFull, BundleTurns, BeginBundles, WorkOk, StateOk, LoopOk, Works, Step, CreateUpdate;
    var groups := [CORE] + Others(in_.groups);
    var r := StepLoop(cfg, s, in_);
    SensibleCore(s, in_);
    LoopRuns(cfg, s, in_, r);
    LoopFacts(cfg, s, in_, groups, r);
    works := Works(groups, r.newWork);
    WorksAt(groups, r.newWork);
    StepFull(cfg, s, in_, groups, r);
  }

  lemma LoopRuns(cfg: Config, s: State, in_: Input, r: Progressing)
    requires LoopOk(cfg, s, in_, [], r)
    ensures r.Running?
  {
  }

  lemma StepFull(cfg: Config, s: State, in_: Input, groups: seq<string>, r: Progressing)
    requires Publishes(cfg, s, in_) && groups == [CORE] + Others(in_.groups)
    requires r == BundleTurns(cfg, s, in_, FullManifest(cfg, s, in_), groups, BeginBundles(s, in_)) && r.Running?
    requires forall g | g in groups :: g in r.newWork
    ensures Step(cfg, s, in_).full == Some(Published(in_.version, in_.format,
      WrittenFull(cfg, in_, FullManifest(cfg, s, in_), Works(groups, r.newWork)), []))
  {
    hide FullManifest, WrittenFull, BundleTurns, BeginBundles, FullfileHashes, Works, Others, Sensible;
  }

  lemma WrittenName(cfg: Config, in_: Input, full: Entries, works: seq<Entries>, n: string)
    ensures var w := WrittenFull(cfg, in_, full, works);
      if n !in full then n !in w
      else
        var e := PruneEntry(cfg, n, CleanEntry(MaximizeAll(works, full)[n], n in in_.fullLinked));
        (n in w <==> e.Some?) && (n in w ==> w[n] == e.value)
  {
    hide PruneEntry, CleanEntry, MaximizeAll;
  }

  /** The old entry ships the same file, and is not too old to count. */
  predicate SameThen(cfg: Config, o: Entries, n: string, item: Item) {
    n in o && o[n].Live() && SameItem(o[n], item) && o[n].lastChange >= cfg.minversion
  }

  lemma UnchangedIs(cfg: Config, job: Job, n: string, item: Item)
    requires JobOk(job) && n in job.old_ && n in job.new_ && SameItem(job.new_[n], item)
    ensures Unchanged(job.old_[n], job.new_[n], cfg.minversion) <==> SameThen(cfg, job.old_, n, item)
  {
    hide ConfigPath, StatePath, BootPath, ZERO_HASH;
  }

  lemma ShipsSince(cfg: Config, s: State, in_: Input, works: seq<Entries>, n: string)
    requires StateOk(s) && Sensible(s, in_) && FullWritten(s) && forall i | 0 <= i < |works| :: WorkOk(in_, works[i])
    ensures FullShips(cfg, OldFull(s, in_).entries, WrittenFull(cfg, in_, FullManifest(cfg, s, in_), works), in_, n)
  {
    hide StateOk, Sensible, FullWritten, FullManifest, OldFull, FullJob, WrittenFull, MaximizeAll, PruneEntry,
      CleanEntry, NotPruned, FlagsOk, JobOk, Job.Matched, Job.WithoutGhosts, Unchanged, SameItem, RenamesAllowed,
      SameFileContents;
    if n in in_.image && !NotPruned(cfg, n) {
      PrunedAway(cfg, s, in_, works, n);
    } else if n in in_.image {
      var full, job := FullManifest(cfg, s, in_), FullJob(s, in_);
      FullSides(s, in_, n);
      FullJobIs(s, in_);
      FullIsJob(cfg, s, in_);
      FullAllowed(cfg, s, in_);
      FullHas(cfg, s, in_, n);
      FullName(cfg, s, in_, n);
      ShippedMatch(job, cfg, n);
      RemainingName(job, cfg, n);
      SameButRenamed(job.Matched(cfg)[n], full[n]);
      if n in OldFull(s, in_).entries {
        UnchangedIs(cfg, job, n, in_.image[n]);
      }
      MaximizedName(works, full, n, in_.version);
      var e := MaximizeAll(works, full)[n];
      FlagsKept(n, full[n], e);
      WrittenName(cfg, in_, full, works, n);
      LiveStays(cfg, n, e, n in in_.fullLinked);
      SameItems(job.new_[n], full[n], in_.image[n]);
      PrunedItem(cfg, n, e, n in in_.fullLinked, in_.image[n]);
      ItemKept(full[n], e, in_.image[n]);
    }
  }

  lemma PrunedAway(cfg: Config, s: State, in_: Input, works: seq<Entries>, n: string)
    requires StateOk(s) && Sensible(s, in_) && forall i | 0 <= i < |works| :: WorkOk(in_, works[i])
    requires n in in_.image && !NotPruned(cfg, n)
    ensures n !in WrittenFull(cfg, in_, FullManifest(cfg, s, in_), works)
  {
    hide StateOk, Sensible, FullManifest, WrittenFull, MaximizeAll, PruneEntry, CleanEntry, NotPruned, FlagsOk;
    var full := FullManifest(cfg, s, in_);
    FullHas(cfg, s, in_, n);
    FullName(cfg, s, in_, n);
    MaximizedName(works, full, n, in_.version);
    var e := MaximizeAll(works, full)[n];
    FlagsKept(n, full[n], e);
    WrittenName(cfg, in_, full, works, n);
    LiveIsPruned(cfg, n, e, n in in_.fullLinked);
  }

  lemma LiveIsPruned(cfg: Config, n: string, e: Entry, linked: bool)
    requires e.Live() && FlagsOk(n, e) && !NotPruned(cfg, n)
    ensures PruneEntry(cfg, n, CleanEntry(e, linked)).None?
  {
    hide ConfigPath, StatePath, BootPath, AnyPrefix;
  }

  lemma FullJobIs(s: State, in_: Input)
    ensures FullJob(s, in_).version == in_.version && FullJob(s, in_).outcome == Outcome(map[], {})
    ensures FullJob(s, in_).bump <==> OldFull(s, in_).format < in_.format
  {
  }

  lemma SameButRenamed(a: Entry, b: Entry)
    requires SameButRename(a, b) && a.Live()
    ensures b.Live() && b.lastChange == a.lastChange && forall x :: SameFileContents(x, a) ==> SameFileContents(x, b)
  {
  }

  lemma PrunedItem(cfg: Config, n: string, e: Entry, linked: bool, item: Item)
    requires e.Live() && FlagsOk(n, e) && NotPruned(cfg, n)
    ensures PruneEntry(cfg, n, CleanEntry(e, linked)).Some?
    ensures SameItem(PruneEntry(cfg, n, CleanEntry(e, linked)).value, item) <==> SameItem(e, item)
  {
    hide ConfigPath, StatePath, BootPath, AnyPrefix;
  }

  lemma ItemKept(a: Entry, b: Entry, item: Item)
    requires b == a.(lastChange := b.lastChange)
    ensures SameItem(b, item) <==> SameItem(a, item)
  {
  }

  lemma DeadEntry(cfg: Config, n: string, e: Entry, linked: bool)
    requires e.isDeleted && FlagsOk(n, e) && !e.isGhosted
    ensures var p := PruneEntry(cfg, n, CleanEntry(e, linked));
      && (p.Some? <==> !AnyPrefix(n, cfg.banned) || BootPath(n))
      && (p.Some? ==> p.value.lastChange == e.lastChange && (p.value.isGhosted <==> BootPath(n))
                      && (p.value.isDeleted <==> !BootPath(n)))
  {
    hide AnyPrefix, ConfigPath, StatePath, BootPath;
  }

  lemma BootIsLive(n: string, e: Entry)
    requires WrittenOk(n, e) && BootPath(n) && !e.isGhosted
    ensures e.Live()
  {
    hide ConfigPath, StatePath, BootPath, ZERO_HASH;
  }

  lemma NeitherIsFull(cfg: Config, s: State, in_: Input, n: string)
    requires n !in OldFull(s, in_).entries && n !in in_.image
    ensures n !in FullManifest(cfg, s, in_)
  {
    hide ConfigPath, StatePath, BootPath, OldFull;
    if n in FullManifest(cfg, s, in_) {
      FullFromMatched(cfg, s, in_, n);
      assert false;
    }
  }

  lemma OldFullOk(s: State, in_: Input, n: string)
    requires FullWritten(s) && n in OldFull(s, in_).entries
    ensures WrittenOk(n, OldFull(s, in_).entries[n])
  {
    hide WrittenOk;
  }

  lemma DropsSince(cfg: Config, s: State, in_: Input, works: seq<Entries>, n: string)
    requires StateOk(s) && Sensible(s, in_) && FullWritten(s) && forall i | 0 <= i < |works| :: WorkOk(in_, works[i])
    ensures FullDrops(cfg, OldFull(s, in_).entries, OldFull(s, in_).format < in_.format,
                      WrittenFull(cfg, in_, FullManifest(cfg, s, in_), works), in_, n)
  {
    hide StateOk, Sensible, FullWritten, FullManifest, OldFull, FullJob, WrittenFull, MaximizeAll, PruneEntry,
      CleanEntry, FlagsOk, JobOk, Job.Matched, Job.WithoutGhosts, Job.Renamed, WrittenOk, WorkOk, SameItem,
      RenamesAllowed, AnyPrefix, BootPath;
    var full, job, o := FullManifest(cfg, s, in_), FullJob(s, in_), OldFull(s, in_).entries;
    if n !in in_.image {
      WrittenName(cfg, in_, full, works, n);
      if n !in o {
        NeitherIsFull(cfg, s, in_, n);
      } else {
        FullSides(s, in_, n);
        FullJobIs(s, in_);
        FullIsJob(cfg, s, in_);
        FullAllowed(cfg, s, in_);
        OldFullOk(s, in_, n);
        WrittenGhost(n, o[n]);
        DeadName(job, cfg, n);
        if !o[n].isGhosted {
          if BootPath(n) {
            BootIsLive(n, o[n]);
          }
          if n in full {
            DeadIsWritten(cfg, s, in_, works, n);
            DeadEntry(cfg, n, full[n], n in in_.fullLinked);
          }
        }
      }
    }
  }

  lemma OldFullIs(s: State, in_: Input)
    ensures OldFull(s, in_).entries == if s.full.Some? then s.full.value.entries else map[]
    ensures OldFull(s, in_).format < in_.format <==> s.full.Some? && s.full.value.format < in_.format
  {
  }

  lemma ReleaseTable(cfg: Config, s: State, in_: Input, works: seq<Entries>, o: Entries, bump: bool, m: Entries)
    requires StateOk(s) && Sensible(s, in_) && FullWritten(s) && forall i | 0 <= i < |works| :: WorkOk(in_, works[i])
    requires o == OldFull(s, in_).entries && (bump <==> OldFull(s, in_).format < in_.format)
    requires m == WrittenFull(cfg, in_, FullManifest(cfg, s, in_), works)
    ensures FullTable(cfg, o, bump, m, in_)
  {
    hide StateOk, Sensible, FullWritten, FullManifest, OldFull, WrittenFull, WorkOk, FullShips, FullDrops;
    forall n
      ensures FullShips(cfg, o, m, in_, n)
    {
      ShipsSince(cfg, s, in_, works, n);
    }
    forall n
      ensures FullDrops(cfg, o, bump, m, in_, n)
    {
      DropsSince(cfg, s, in_, works, n);
    }
  }

  /** Over every sequence of builds: what becomes of every name. */
  lemma FullFollowsRun(cfg: Config, inputs: seq<Input>, in_: Input)
    ensures FullFollows(cfg, Run(cfg, inputs), in_, Run(cfg, inputs + [in_]))
  {
    hide StateOk, Step, CreateUpdate, FullManifest, WrittenFull, FullTable, FullWritten, OldFull, WorkOk, Sensible;
    RunOk(cfg, inputs);
    RunFull(cfg, inputs);
    var s := Run(cfg, inputs);
    OneMoreBuild(cfg, inputs, in_);
    if Publishes(cfg, s, in_) {
      var works := ReleaseFull(cfg, s, in_);
      OldFullIs(s, in_);
      ReleaseTable(cfg, s, in_, works, OldFull(s, in_).entries, OldFull(s, in_).format < in_.format,
                   WrittenFull(cfg, in_, FullManifest(cfg, s, in_), works));
    }
  }

  /** In a release of a new format every tombstone of the full manifest is of this release, and of a file that the
      previous full manifest shipped and the image no longer holds. */
  ghost predicate FreshFull(s: State, in_: Input, s': State) {
    s'.full.Some? && s.full.Some? && s.full.value.format < in_.format ==>
      forall n | n in s'.full.value.entries && s'.full.value.entries[n].isDeleted ::
        && s'.full.value.entries[n].lastChange == in_.version
        && n !in in_.image && n in s.full.value.entries && s.full.value.entries[n].Live()
  }

  lemma RunLeavesFreshFull(cfg: Config, inputs: seq<Input>, in_: Input)
    ensures var s := Run(cfg, inputs);
      Publishes(cfg, s, in_) ==> FreshFull(s, in_, Run(cfg, inputs + [in_]))
  {
    hide Run, Publishes, BootPath, AnyPrefix, NotPruned, SameItem;
    var s, s' := Run(cfg, inputs), Run(cfg, inputs + [in_]);
    FullFollowsRun(cfg, inputs, in_);
    if Publishes(cfg, s, in_) && s.full.Some? && s.full.value.format < in_.format {
      var o, m := s.full.value.entries, s'.full.value.entries;
      forall n | n in m && m[n].isDeleted
        ensures m[n].lastChange == in_.version && n !in in_.image && n in o && o[n].Live()
      {
        assert FullShips(cfg, o, m, in_, n);
        assert FullDrops(cfg, o, true, m, in_, n);
      }
    }
  }

  // ----- the bundles -----

  /** What subtraction has left of the bundle's old manifest when its turn comes. */
  ghost function OldList(cfg: Config, s: State, in_: Input, g: string): Entries {
    var r := AtTurn(cfg, s, in_, g);
    if r.Running? && g in r.oldWork && g in r.newWork
    then JobOf(s, in_, FullManifest(cfg, s, in_), g, r).old_ else map[]
  }

  /** A name that the bundle lists: shipped as it is in the image, unless it is pruned, and since the release of the
      old entry exactly if nothing changed. What was a directory is one. */
  ghost predicate Listed(cfg: Config, o: Entries, m: Entries, version: int, n: string, item: Item) {
    && (n in o && o[n].Live() && o[n].isDir ==> item.kind.Directory?)
    && if !NotPruned(cfg, n) then n !in m
       else
         && n in m && m[n].Live() && SameItem(m[n], item)
         && m[n].lastChange == if SameThen(cfg, o, n, item) then o[n].lastChange else version
  }

  /** A difference between the two lists. */
  ghost predicate Changes(cfg: Config, o: Entries, l: set<string>, image: Image, n: string) {
    if n in l then n in image && !SameThen(cfg, o, n, image[n]) else n in o && !o[n].isDeleted
  }

  /** A difference that is written down. */
  ghost predicate Leaves(cfg: Config, o: Entries, l: set<string>, image: Image, n: string) {
    && Changes(cfg, o, l, image, n)
    && if n in l then NotPruned(cfg, n) else o[n].Live() && (BootPath(n) || !AnyPrefix(n, cfg.banned))
  }

  /** What a bundle is written for: a difference that is written down; and for all but os-core also a ghost that
      expires, a change of the includes, and any difference at all when a new format takes old tombstones away. */
  ghost predicate Stirs(cfg: Config, o: Entries, l: set<string>, image: Image, isCore: bool, bump: bool,
      includesChanged: bool)
  {
    || (exists n :: Leaves(cfg, o, l, image, n))
    || (!isCore &&
          (|| includesChanged
           || (exists n :: n in o && o[n].isGhosted && n !in l)
           || (bump && (exists n :: Changes(cfg, o, l, image, n)) && exists n :: n in o && o[n].isDeleted && n !in l)))
  }

  ghost predicate BundleTable(cfg: Config, o: Entries, l: set<string>, bump: bool, m: Entries, in_: Input) {
    && (forall n | n in l :: n in in_.image && Listed(cfg, o, m, in_.version, n, in_.image[n]))
    && (forall n | n !in l :: Unlisted(cfg, o, bump, m, in_.version, n))
  }

  /** What is published of a bundle: its old manifest, or a new one that follows from the two lists. */
  ghost predicate BundleFollows(cfg: Config, s: State, in_: Input, s': State, g: string) {
    var o, l, old_ := OldList(cfg, s, in_, g), NewList(cfg, s, in_, g).Keys, OldBundle(s, in_, g);
    var bump := old_.format < in_.format;
    && Part(o, EntriesOf(s, g)) && g in s'.bundles && old_.version < in_.version
    && (s'.bundles[g].version == in_.version <==>
          Stirs(cfg, o, l, in_.image, g == CORE, bump, Changed(OldIncludes(old_.includes), in_.IncludesOf(g))))
    && if s'.bundles[g].version != in_.version then s'.bundles[g] == old_
       else s'.bundles[g].format == in_.format && s'.bundles[g].includes == in_.IncludesOf(g)
            && BundleTable(cfg, o, l, bump, s'.bundles[g].entries, in_)
  }

  ghost predicate BundlesFollow(cfg: Config, s: State, in_: Input, s': State) {
    Publishes(cfg, s, in_) ==> forall g | g in in_.groups :: BundleFollows(cfg, s, in_, s', g)
  }

  /** The items of a bundle's list. */
  ghost predicate Lists(job: Job, image: Image) {
    forall n | n in job.new_ :: n in image && SameItem(job.new_[n], image[n])
  }

  lemma JobListed(cfg: Config, job: Job, image: Image, n: string)
    requires JobOk(job) && Lists(job, image) && job.Process(cfg).Written? && n in job.new_
    ensures Listed(cfg, job.old_, job.Process(cfg).work, job.version, n, image[n])
  {
    hide JobOk, Job.Process, Job.Matched, Job.Pruned, Job.WithoutGhosts, RenamesAllowed, NotPruned, SameItem, Unchanged,
      SameFileContents;
    WrittenIsAllowed(job, cfg);
    if n in job.old_ {
      UnchangedIs(cfg, job, n, image[n]);
      StaysDirectory(cfg, job, n, image[n]);
    }
    if n in job.Pruned(cfg) {
      ShippedName(job, cfg, n);
      PrunedName(job, cfg, n);
      SameItems(job.new_[n], job.Pruned(cfg)[n], image[n]);
    }
    if NotPruned(cfg, n) {
      ShippedRemains(job, cfg, n);
    }
  }

  /** Only a directory may not turn into something else. */
  lemma TypeChangeKinds(a: Entry, b: Entry, was: Item, is_: Item)
    requires SameItem(a, was) && SameItem(b, is_)
    ensures TypeChangeOk(a, b) <==> was.kind != Directory || is_.kind == Directory
  {
  }

  lemma StaysDirectory(cfg: Config, job: Job, n: string, item: Item)
    requires JobOk(job) && job.Process(cfg).Written? && n in job.old_ && n in job.new_ && SameItem(job.new_[n], item)
    ensures job.old_[n].Live() && job.old_[n].isDir ==> item.kind.Directory?
  {
    hide JobOk, Job.Matched, Job.Pruned, Job.WithoutGhosts, RenamesAllowed, NotPruned, Unchanged, FlagsOk, ApplyRenames,
      Job.WorthWriting;
    WrittenIsAllowed(job, cfg);
    ShippedMatch(job, cfg, n);
    assert n in job.Renamed(cfg);
    RenamedName(job, cfg, n);
    Remaining(job, cfg, n);
    OldIsWritten(job, n);
  }

  lemma JobUnlisted(cfg: Config, job: Job, n: string)
    requires JobOk(job) && job.Process(cfg).Written? && n !in job.new_
    ensures Unlisted(cfg, job.old_, job.bump, job.Process(cfg).work, job.version, n)
  {
    hide JobOk, Job.Process, Job.Matched, Job.Pruned, Job.WithoutGhosts, Job.Renamed, RenamesAllowed, AnyPrefix,
      BootPath, FlagsOk, WrittenOk, PruneEntry, CleanEntry;
    WrittenIsAllowed(job, cfg);
    if n !in job.old_ {
      NeitherNor(job, cfg, n);
    } else {
      DeadName(job, cfg, n);
      assert WrittenOk(n, job.old_[n]) by {
        OldIsWritten(job, n);
      }
      if !job.old_[n].isGhosted && BootPath(n) {
        BootIsLive(n, job.old_[n]);
      }
      DeadIsPruned(cfg, job, n);
      if n in job.WithoutGhosts(cfg) {
        DeadEntry(cfg, n, job.WithoutGhosts(cfg)[n], n in job.outcome.linked);
      }
    }
  }

  lemma OldIsWritten(job: Job, n: string)
    requires JobOk(job) && n in job.old_
    ensures WrittenOk(n, job.old_[n])
  {
    hide WrittenOk;
  }

  lemma DeadIsPruned(cfg: Config, job: Job, n: string)
    ensures n !in job.WithoutGhosts(cfg) ==> n !in job.Pruned(cfg)
    ensures n in job.WithoutGhosts(cfg) ==>
      var p := PruneEntry(cfg, n, CleanEntry(job.WithoutGhosts(cfg)[n], n in job.outcome.linked));
      (n in job.Pruned(cfg) <==> p.Some?) && (p.Some? ==> job.Pruned(cfg)[n] == p.value)
  {
    hide Job.WithoutGhosts, PruneEntry, CleanEntry;
  }

  // ----- when a bundle is written -----

  lemma ChangesIs(cfg: Config, job: Job, image: Image, n: string)
    requires JobOk(job) && Lists(job, image)
    ensures n in Differences(job.old_, job.new_, cfg.minversion) <==>
      Changes(cfg, job.old_, job.new_.Keys, image, n)
    ensures n in Differences(job.old_, job.new_, cfg.minversion) && !Vanishes(job, cfg, n) <==>
      Leaves(cfg, job.old_, job.new_.Keys, image, n)
  {
    hide JobOk, Unchanged, SameItem, NotPruned, BootPath, AnyPrefix, SameThen;
    if n in job.old_ && n in job.new_ {
      UnchangedIs(cfg, job, n, image[n]);
    } else if n in job.new_ {
      assert !SameThen(cfg, job.old_, n, image[n]) by {
        NotThere(cfg, job.old_, n, image[n]);
      }
    }
  }

  lemma NotThere(cfg: Config, o: Entries, n: string, item: Item)
    requires n !in o
    ensures !SameThen(cfg, o, n, item)
  {
  }

  /** The old record that a removal takes is that of a name that is not listed. */
  lemma RemovedAre(cfg: Config, job: Job, n: string)
    requires JobOk(job)
    requires RenamesAllowed(job.old_, job.new_, Marked(job.Matched(cfg)), job.version, job.outcome.renames)
    ensures n in Deprecated(job.old_, job.Renamed(cfg), BothDeleted) <==>
      n in job.old_ && job.old_[n].isDeleted && n !in job.new_
    ensures n in Deprecated(job.old_, job.WithoutDeleted(cfg), BothGhosted) <==>
      n in job.old_ && job.old_[n].isGhosted && n !in job.new_
  {
    hide JobOk, Job.Matched, RenamesAllowed, ApplyRenames, Job.WithoutGhosts, FlagsOk;
    if n in job.old_ {
      OldIsOld(job, n);
      if n in job.new_ {
        ShippedMatch(job, cfg, n);
        assert n in job.Renamed(cfg);
        RenamedName(job, cfg, n);
      } else {
        DeadName(job, cfg, n);
      }
    }
  }

  lemma JobStirs(cfg: Config, job: Job, image: Image)
    requires JobOk(job) && Lists(job, image) && !job.Process(cfg).Failed?
    ensures job.Process(cfg).Written? <==>
      Stirs(cfg, job.old_, job.new_.Keys, image, job.isCore, job.bump, job.includesChanged)
  {
    hide JobOk, Lists, Job.Matched, Job.Renamed, Job.WithoutDeleted, Job.WithoutGhosts, Job.Pruned, RenamesAllowed,
      TypesOk, Deprecated, Differences, NewFiles, Changes, Leaves, Vanishes;
    var d := Differences(job.old_, job.new_, cfg.minversion);
    forall n
      ensures n in d <==> Changes(cfg, job.old_, job.new_.Keys, image, n)
      ensures n in d && !Vanishes(job, cfg, n) <==> Leaves(cfg, job.old_, job.new_.Keys, image, n)
    {
      ChangesIs(cfg, job, image, n);
    }
    if !job.Same(cfg) {
      WorthIs(cfg, job);
    }
    Emptiness(d);
    GhostsChange(cfg, job, image);
  }

  lemma Emptiness(d: set<string>)
    ensures |d| == 0 <==> !exists n :: n in d
  {
    if |d| == 0 {
      assert d == {};
    }
  }

  lemma GhostsChange(cfg: Config, job: Job, image: Image)
    requires JobOk(job)
    ensures forall n | n in job.old_ && job.old_[n].isGhosted && n !in job.new_ ::
      Changes(cfg, job.old_, job.new_.Keys, image, n)
  {
    forall n | n in job.old_ && job.old_[n].isGhosted && n !in job.new_
      ensures Changes(cfg, job.old_, job.new_.Keys, image, n)
    {
      OldIsOld(job, n);
    }
  }

  lemma WorthIs(cfg: Config, job: Job)
    requires JobOk(job) && job.Acceptable(cfg)
    ensures job.WorthWriting(cfg) <==>
      || (exists n :: n in Differences(job.old_, job.new_, cfg.minversion) && !Vanishes(job, cfg, n))
      || (!job.isCore &&
           (|| job.includesChanged
            || (exists n :: n in job.old_ && job.old_[n].isGhosted && n !in job.new_)
            || (job.bump && exists n :: n in job.old_ && job.old_[n].isDeleted && n !in job.new_)))
  {
    hide JobOk, Job.Matched, Job.Renamed, Job.WithoutDeleted, Job.WithoutGhosts, Job.Pruned, RenamesAllowed, TypesOk,
      Deprecated, Differences, NewFiles, Vanishes;
    var d := Differences(job.old_, job.new_, cfg.minversion);
    forall n
      ensures n in NewFiles(job.Pruned(cfg), job.version) <==> n in d && !Vanishes(job, cfg, n)
      ensures n in Deprecated(job.old_, job.Renamed(cfg), BothDeleted) <==>
        n in job.old_ && job.old_[n].isDeleted && n !in job.new_
      ensures n in Deprecated(job.old_, job.WithoutDeleted(cfg), BothGhosted) <==>
        n in job.old_ && job.old_[n].isGhosted && n !in job.new_
    {
      NewExactly(job, cfg, n);
      RemovedAre(cfg, job, n);
    }
  }

  // ----- one release, one bundle -----

  lemma JobInputs(s: State, in_: Input, full: Entries, g: string, r: Progressing)
    requires r.Running? && g in r.oldWork && g in r.newWork
    ensures var job, old_ := JobOf(s, in_, full, g, r), OldBundle(s, in_, g);
      && (job.isCore <==> g == CORE) && (job.bump <==> old_.format < in_.format)
      && job.includesChanged == Changed(OldIncludes(old_.includes), in_.IncludesOf(g))
  {
    hide OldBundle, Changed, OldIncludes, OldIncludeMap, NewIncludeMap;
  }

  lemma ListsItems(cfg: Config, s: State, in_: Input, g: string, job: Job)
    requires StateOk(s) && Publishes(cfg, s, in_) && g in in_.groups && job.new_ == NewList(cfg, s, in_, g)
    ensures Lists(job, in_.image)
  {
    hide FullManifest, StateOk, Sensible, LoopOk, JobOf, BundleTurn, OldBundle, AtTurn, Step, CreateUpdate, SameItem;
    var left := ReleaseTurn(cfg, s, in_, g);
    var r := AtTurn(cfg, s, in_, g);
    var end :| Comes(cfg, s, in_, g, left, r, end) && end.bundles == Step(cfg, s, in_).bundles;
    assert ([g] + left)[0] == g;
    forall n | n in job.new_
      ensures n in in_.image && SameItem(job.new_[n], in_.image[n])
    {
      NewItem(cfg, s, in_, [g] + left, g, r, n);
    }
  }

  lemma JobTable(cfg: Config, job: Job, in_: Input)
    requires JobOk(job) && Lists(job, in_.image) && job.Process(cfg).Written? && job.version == in_.version
    ensures BundleTable(cfg, job.old_, job.new_.Keys, job.bump, job.Process(cfg).work, in_)
  {
    hide JobOk, Job.Process, Listed, Unlisted;
    forall n | n in job.new_
      ensures n in in_.image && Listed(cfg, job.old_, job.Process(cfg).work, in_.version, n, in_.image[n])
    {
      JobListed(cfg, job, in_.image, n);
    }
    forall n | n !in job.new_
      ensures Unlisted(cfg, job.old_, job.bump, job.Process(cfg).work, in_.version, n)
    {
      JobUnlisted(cfg, job, n);
    }
  }

  lemma ReleaseBundle(cfg: Config, s: State, in_: Input, g: string)
    requires StateOk(s) && Publishes(cfg, s, in_) && g in in_.groups
    ensures BundleFollows(cfg, s, in_, Step(cfg, s, in_), g)
  {
    hide StateOk, Publishes, JobOk, Job.Process, JobOf, AtTurn, NewList, Part, EntriesOf, OldBundle, Step, Lists,
      BundleTable, Stirs, Changed, OldIncludes, FullManifest, Input.IncludesOf;
    var job := PublishedJob(cfg, s, in_, g);
    var r := AtTurn(cfg, s, in_, g);
    JobInputs(s, in_, FullManifest(cfg, s, in_), g, r);
    ListsItems(cfg, s, in_, g, job);
    JobStirs(cfg, job, in_.image);
    if job.Process(cfg).Written? {
      JobTable(cfg, job, in_);
    }
  }

  /** Over every sequence of builds. */
  lemma BundlesFollowRun(cfg: Config, inputs: seq<Input>, in_: Input)
    ensures BundlesFollow(cfg, Run(cfg, inputs), in_, Run(cfg, inputs + [in_]))
  {
    hide Publishes, Step, StateOk, BundleFollows;
    RunOk(cfg, inputs);
    var s := Run(cfg, inputs);
    OneMoreBuild(cfg, inputs, in_);
    if Publishes(cfg, s, in_) {
      forall g | g in in_.groups
        ensures BundleFollows(cfg, s, in_, Step(cfg, s, in_), g)
      {
        ReleaseBundle(cfg, s, in_, g);
      }
    }
  }

  // ----- the format of the newest MoM -----

  /** A build of an older format publishes nothing, and a release has the format of its build. */
  lemma FormatOfBuild(cfg: Config, inputs: seq<Input>, in_: Input)
    ensures var s, s' := Run(cfg, inputs), Run(cfg, inputs + [in_]);
      && (s.momFormat.Some? && in_.format < s.momFormat.value ==> s' == s)
      && (s' != s ==> s'.momFormat == Some(in_.format) && s'.version == in_.version)
  {
    hide FullManifest, BundleTurns, BeginBundles, WrittenFull, FullfileHashes, Works, Others, Sensible;
    OneMoreBuild(cfg, inputs, in_);
  }

  /** Over every sequence of builds the format never falls. */
  lemma {:induction false} FormatNeverFalls(cfg: Config, inputs: seq<Input>, more: seq<Input>)
    ensures var s, t := Run(cfg, inputs), Run(cfg, inputs + more);
      s.momFormat.Some? ==> t.momFormat.Some? && s.momFormat.value <= t.momFormat.value
    decreases |more|
  {
    hide Run;
    if more == [] {
      assert inputs + more == inputs;
    } else {
      var front, last := more[..|more| - 1], more[|more| - 1];
      FormatNeverFalls(cfg, inputs, front);
      FormatOfBuild(cfg, inputs + front, last);
      assert inputs + front + [last] == inputs + more;
    }
  }
}
