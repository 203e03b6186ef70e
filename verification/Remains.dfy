/** What a rewritten manifest holds of the past: after a format bump only fresh tombstones, and of every rename both
    ends, but for what pruning takes. */
module Remains {
  import opened Files
  import opened Heuristics
  import opened Pruning
  import opened Release
  import opened Availability
  import opened Lifecycle
  import opened Shipping
  import opened History
  import opened Ghosts
  import Processing

  // ----- tombstones -----

  predicate FreshTombstone(old_: Entries, listed: Entries, n: string, e: Entry, version: int) {
    e.lastChange == version && !BootPath(n) && n in old_ && old_[n].Live() && n !in listed
  }

  /** A bundle whose manifest is of an older format keeps that manifest, or has a new one all of whose tombstones are
      of files that this release dropped. */
  ghost predicate OnlyFreshTombstones(cfg: Config, s: State, in_: Input, s': State) {
    Publishes(cfg, s, in_) ==>
      forall g | g in in_.groups && OldBundle(s, in_, g).format < in_.format :: TombstonesOf(cfg, s, in_, s', g)
  }

  ghost predicate TombstonesOf(cfg: Config, s: State, in_: Input, s': State, g: string) {
    && g in s'.bundles
    && if s'.bundles[g].version != in_.version then s'.bundles[g] == OldBundle(s, in_, g)
       else forall n | n in EntriesOf(s', g) && EntriesOf(s', g)[n].isDeleted ::
         FreshTombstone(EntriesOf(s, g), NewList(cfg, s, in_, g), n, EntriesOf(s', g)[n], in_.version)
  }

  lemma PartHas(a: Entries, b: Entries, n: string)
    requires Part(a, b) && n in a
    ensures n in b && a[n] == b[n]
  {
  }

  lemma ReleaseTombstones(cfg: Config, s: State, in_: Input, g: string)
    requires StateOk(s) && Publishes(cfg, s, in_) && g in in_.groups && OldBundle(s, in_, g).format < in_.format
    ensures TombstonesOf(cfg, s, in_, Step(cfg, s, in_), g)
  {
    hide StateOk, Publishes, JobOk, Job.Process, JobOf, AtTurn, NewList, Part, EntriesOf, OldBundle, BootPath, Step;
    var job := PublishedJob(cfg, s, in_, g);
    var m := EntriesOf(Step(cfg, s, in_), g);
    if job.Process(cfg).Written? {
      forall n | n in m && m[n].isDeleted
        ensures FreshTombstone(EntriesOf(s, g), NewList(cfg, s, in_, g), n, m[n], in_.version)
      {
        BumpLeavesFreshTombstones(job, cfg, n);
        PartHas(job.old_, EntriesOf(s, g), n);
      }
    }
  }

  /** Over every sequence of builds. */
  lemma RunLeavesFreshTombstones(cfg: Config, inputs: seq<Input>, in_: Input)
    ensures OnlyFreshTombstones(cfg, Run(cfg, inputs), in_, Run(cfg, inputs + [in_]))
  {
    hide StateOk, Publishes, Step, OldBundle, TombstonesOf;
    RunOk(cfg, inputs);
    var s := Run(cfg, inputs);
    OneMoreBuild(cfg, inputs, in_);
    if Publishes(cfg, s, in_) {
      forall g | g in in_.groups && OldBundle(s, in_, g).format < in_.format
        ensures TombstonesOf(cfg, s, in_, Step(cfg, s, in_), g)
      {
        ReleaseTombstones(cfg, s, in_, g);
      }
    }
  }

  // ----- the marks of renames -----

  /** Pruning takes the record: its path is banned or, unless it is a tombstone, a configuration file's; but it never
      takes a boot file's tombstone, which becomes a ghost. */
  predicate Dropped(cfg: Config, n: string, isDeleted: bool) {
    && !(isDeleted && BootPath(n))
    && (AnyPrefix(n, cfg.banned) || (cfg.stateless && !isDeleted && ConfigPath(n)))
  }

  /** In a published manifest: the other record of a rename. */
  predicate OtherEnd(a: Entry, b: Entry) {
    b.isRename && a.lastChange == b.lastChange && a.hash == b.hash && a.Live() != b.Live()
  }

  ghost predicate HasEnd(m: Entries, n: string) {
    n in m && exists k :: k in m && OtherEnd(m[n], m[k])
  }

  /** The table before pruning has another end of the mark that pruning does not take. */
  ghost predicate EndStays(cfg: Config, t: Entries, n: string) {
    n in t && exists k :: k in t && Processing.Ends(t[n], t[k]) && !Dropped(cfg, k, t[k].isDeleted)
  }

  /** A table as the cleaning leaves it: the bits follow from the paths, and no ghost is left. */
  predicate Unpruned(t: Entries) {
    forall n | n in t :: FlagsOk(n, t[n]) && !t[n].isGhosted
  }

  /** What pruning makes of one record. */
  lemma PrunedExactly(cfg: Config, t: Entries, n: string)
    requires Unpruned(t) && n in t
    ensures n in Prune(cfg, t) <==> !Dropped(cfg, n, t[n].isDeleted)
    ensures n in Prune(cfg, t) ==>
      var a, b := t[n], Prune(cfg, t)[n];
      && b.isRename == a.isRename && b.lastChange == a.lastChange && b.hash == a.hash && (b.Live() <==> !a.isDeleted)
      && (b.isGhosted <==> a.isDeleted && BootPath(n))
  {
    hide AnyPrefix, ConfigPath, StatePath, BootPath;
  }

  /** A mark that is published has its other end in the manifest exactly if the table had one that pruning left. */
  lemma MarksAfterPruning(cfg: Config, t: Entries, n: string)
    requires Unpruned(t) && n in Prune(cfg, t)
    ensures HasEnd(Prune(cfg, t), n) <==> EndStays(cfg, t, n)
  {
    hide Unpruned, Dropped, Prune;
    var m := Prune(cfg, t);
    PrunedExactly(cfg, t, n);
    forall k | k in t
      ensures k in m && OtherEnd(m[n], m[k]) <==> Processing.Ends(t[n], t[k]) && !Dropped(cfg, k, t[k].isDeleted)
    {
      PrunedExactly(cfg, t, k);
    }
    if EndStays(cfg, t, n) {
      var k :| k in t && Processing.Ends(t[n], t[k]) && !Dropped(cfg, k, t[k].isDeleted);
      assert k in m && OtherEnd(m[n], m[k]);
    }
  }

  /** A file that moved into the configuration, as the cleaning leaves both ends of its rename. */
  function MovedToConfig(hash: string, version: int): Entries {
    map["/a" := Entry(false, false, false, true, false, false, false, false, true, hash, version),
        "/etc/a" := Entry(false, true, false, false, false, true, false, false, true, hash, version)]
  }

  lemma ShortPath()
    ensures !ConfigPath("/a") && !StatePath("/a") && !BootPath("/a")
    ensures ConfigPath("/etc/a") && !StatePath("/etc/a") && !BootPath("/etc/a")
  {
    ClassesDisjoint("/etc/a");
    forall i | 0 <= i < |BOOT_PREFIXES|
      ensures !HasPrefix("/a", BOOT_PREFIXES[i])
    {
      BootLetters(i);
    }
    forall i: nat
      ensures i < |STATE_CONTENTS| ==> !HasPrefix("/a", STATE_CONTENTS[i])
      ensures i < |STATE_DIRECTORIES| ==> !HasPrefix("/a", STATE_DIRECTORIES[i])
    {
      StateLetters(i);
    }
    assert !AnyPrefix("/a", BOOT_PREFIXES) && !AnyPrefix("/a", STATE_CONTENTS) && !AnyPrefix("/a", STATE_DIRECTORIES);
  }

  lemma MovedIsPaired(hash: string, version: int)
    ensures Unpruned(MovedToConfig(hash, version)) && Processing.Paired(MovedToConfig(hash, version))
  {
    hide ConfigPath, StatePath, BootPath;
    ShortPath();
    var t := MovedToConfig(hash, version);
    assert Processing.Ends(t["/a"], t["/etc/a"]) && Processing.Ends(t["/etc/a"], t["/a"]);
  }

  lemma MovedIsDropped(hash: string, version: int)
    ensures var t := MovedToConfig(hash, version);
      !EndStays(Config(true, [], 0), t, "/a") && !Dropped(Config(true, [], 0), "/a", true)
  {
    hide ConfigPath, StatePath, BootPath, AnyPrefix;
    ShortPath();
    NothingBanned("/a");
    assert Dropped(Config(true, [], 0), "/etc/a", false);
  }

  /** A file moves into the configuration of a stateless system: the tombstone that is published is marked as renamed,
      and the file is not listed. */
  lemma PrunedEnd(hash: string, version: int)
    ensures var t, m := MovedToConfig(hash, version), Prune(Config(true, [], 0), MovedToConfig(hash, version));
      && Unpruned(t) && Processing.Paired(t)
      && "/a" in m && m["/a"].isRename && !m["/a"].Live() && !HasEnd(m, "/a")
  {
    hide Prune, Unpruned, Processing.Paired, HasEnd, EndStays, Dropped;
    var cfg, t := Config(true, [], 0), MovedToConfig(hash, version);
    MovedIsPaired(hash, version);
    MovedIsDropped(hash, version);
    PrunedExactly(cfg, t, "/a");
    MarksAfterPruning(cfg, t, "/a");
  }

  lemma NothingBanned(n: string)
    ensures !AnyPrefix(n, [])
  {
  }

  /** The bundle's table once its orphans are cleaned, before it is pruned. */
  ghost function Cleaned(cfg: Config, s: State, in_: Input, g: string): Entries {
    var r := AtTurn(cfg, s, in_, g);
    if r.Running? && g in r.oldWork && g in r.newWork then
      var job := JobOf(s, in_, FullManifest(cfg, s, in_), g, r); Clean(job.WithoutGhosts(cfg), job.outcome.linked)
    else map[]
  }

  /** No rename of this release started at a ghost. */
  predicate RenamesNoGhost(s: State, in_: Input, g: string) {
    forall d | d in in_.OutcomeOf(g).renames && d in EntriesOf(s, g) :: !EntriesOf(s, g)[d].isGhosted
  }

  /** The final links are such as `Processing.ProcessBundle` ensures of those that it finds on the records. */
  ghost predicate LinksFound(cfg: Config, s: State, in_: Input, g: string) {
    var r := AtTurn(cfg, s, in_, g);
    r.Running? && g in r.oldWork && g in r.newWork ==>
      var job := JobOf(s, in_, FullManifest(cfg, s, in_), g, r);
      Processing.NoGhostRenamed(job.old_, job.outcome.renames) ==> Processing.Paired(Cleaned(cfg, s, in_, g))
  }

  predicate PrunesNothing(cfg: Config) {
    cfg.banned == [] && !cfg.stateless
  }

  /** In every manifest that a release writes: a mark has its other end exactly if the cleaned table had one that
      pruning left; if no ghost was renamed it had one; and so, if nothing can be pruned, the marks come in pairs. */
  ghost predicate MarksFollow(cfg: Config, s: State, in_: Input, s': State) {
    Publishes(cfg, s, in_) ==>
      forall g, n | g in in_.groups && g in s'.bundles && s'.bundles[g].version == in_.version
          && n in EntriesOf(s', g) ::
        MarkFollows(cfg, s, in_, EntriesOf(s', g), g, n)
  }

  ghost predicate MarkFollows(cfg: Config, s: State, in_: Input, m: Entries, g: string, n: string) {
    var t := Cleaned(cfg, s, in_, g);
    && n in m && n in t && (HasEnd(m, n) <==> EndStays(cfg, t, n))
    && (m[n].isRename && LinksFound(cfg, s, in_, g) && RenamesNoGhost(s, in_, g) ==>
          && (exists k :: k in t && Processing.Ends(t[n], t[k]))
          && (PrunesNothing(cfg) ==> HasEnd(m, n)))
  }

  lemma CleanedIsUnpruned(job: Job, cfg: Config)
    requires JobOk(job)
    requires RenamesAllowed(job.old_, job.new_, Marked(job.Matched(cfg)), job.version, job.outcome.renames)
    ensures Unpruned(Clean(job.WithoutGhosts(cfg), job.outcome.linked))
  {
    hide JobOk, RenamesAllowed, Job.WithoutGhosts, Job.Matched, FlagsOk, SameButRename;
    var t := Clean(job.WithoutGhosts(cfg), job.outcome.linked);
    forall n | n in t
      ensures FlagsOk(n, t[n]) && !t[n].isGhosted
    {
      var e := job.WithoutGhosts(cfg)[n];
      RemainingName(job, cfg, n);
      MatchedName(job, cfg, n);
      FlagsFollow(n, job.Matched(cfg)[n], e);
      CleaningKeeps(n, e, n in job.outcome.linked);
    }
  }

  lemma CleaningKeeps(n: string, e: Entry, linked: bool)
    ensures CleanEntry(e, linked).isGhosted == e.isGhosted && (FlagsOk(n, e) ==> FlagsOk(n, CleanEntry(e, linked)))
  {
    hide ConfigPath, StatePath, BootPath;
  }

  lemma PrunedIs(job: Job, cfg: Config)
    ensures job.Pruned(cfg) == Prune(cfg, Clean(job.WithoutGhosts(cfg), job.outcome.linked))
  {
  }

  lemma NothingDropped(cfg: Config, t: Entries, n: string)
    requires PrunesNothing(cfg) && n in t && exists k :: k in t && Processing.Ends(t[n], t[k])
    ensures EndStays(cfg, t, n)
  {
    hide ConfigPath, BootPath;
    var k :| k in t && Processing.Ends(t[n], t[k]);
    assert !Dropped(cfg, k, t[k].isDeleted);
  }

  lemma NoneIsGhost(job: Job, cfg: Config, s: State, in_: Input, g: string)
    requires JobOk(job) && Part(job.old_, EntriesOf(s, g)) && RenamesNoGhost(s, in_, g)
    requires job.outcome == in_.OutcomeOf(g)
    requires RenamesAllowed(job.old_, job.new_, Marked(job.Matched(cfg)), job.version, job.outcome.renames)
    ensures Processing.NoGhostRenamed(job.old_, job.outcome.renames)
  {
    hide JobOk, Job.Matched, EntriesOf, RenamedFrom, RenamedTo;
    forall d | d in job.outcome.renames
      ensures d in job.old_ && !job.old_[d].isGhosted
    {
      FromEnd(job, cfg, d);
    }
  }

  lemma OutcomeIs(s: State, in_: Input, full: Entries, g: string, r: Progressing)
    requires r.Running? && g in r.oldWork && g in r.newWork
    ensures JobOf(s, in_, full, g, r).outcome == in_.OutcomeOf(g)
  {
    hide OldBundle;
  }

  lemma ReleaseMarks(cfg: Config, s: State, in_: Input, g: string, n: string)
    requires StateOk(s) && Publishes(cfg, s, in_) && g in in_.groups
    requires var s' := Step(cfg, s, in_);
      g in s'.bundles && s'.bundles[g].version == in_.version && n in EntriesOf(s', g)
    ensures MarkFollows(cfg, s, in_, EntriesOf(Step(cfg, s, in_), g), g, n)
  {
    hide StateOk, Publishes, JobOk, Job.Process, Job.WithoutGhosts, Job.Matched, Job.Pruned, RenamesAllowed, JobOf,
      AtTurn, NewList, Part, EntriesOf, OldBundle, Step, Prune, Clean, Unpruned, HasEnd, EndStays, RenamesNoGhost,
      FullManifest, Processing.NoGhostRenamed;
    var job := PublishedJob(cfg, s, in_, g);
    OutcomeIs(s, in_, FullManifest(cfg, s, in_), g, AtTurn(cfg, s, in_, g));
    WrittenIsAllowed(job, cfg);
    CleanedIsUnpruned(job, cfg);
    PrunedIs(job, cfg);
    var t := Cleaned(cfg, s, in_, g);
    assert t == Clean(job.WithoutGhosts(cfg), job.outcome.linked);
    MarksAfterPruning(cfg, t, n);
    assert n in t;
    PrunedExactly(cfg, t, n);
    if t[n].isRename && LinksFound(cfg, s, in_, g) && RenamesNoGhost(s, in_, g) {
      NoneIsGhost(job, cfg, s, in_, g);
      if PrunesNothing(cfg) {
        NothingDropped(cfg, t, n);
      }
    }
  }

  /** Over every sequence of builds. */
  lemma RunKeepsMarks(cfg: Config, inputs: seq<Input>, in_: Input)
    ensures MarksFollow(cfg, Run(cfg, inputs), in_, Run(cfg, inputs + [in_]))
  {
    hide StateOk, Publishes, Step, EntriesOf, MarkFollows;
    RunOk(cfg, inputs);
    var s := Run(cfg, inputs);
    OneMoreBuild(cfg, inputs, in_);
    if Publishes(cfg, s, in_) {
      forall g, n | g in in_.groups && g in Step(cfg, s, in_).bundles && n in EntriesOf(Step(cfg, s, in_), g)
          && Step(cfg, s, in_).bundles[g].version == in_.version
        ensures MarkFollows(cfg, s, in_, EntriesOf(Step(cfg, s, in_), g), g, n)
      {
        ReleaseMarks(cfg, s, in_, g, n);
      }
    }
  }
}
