/** What one component's processing does to a name: when it stays as it was, and how tombstones
    and ghosts come and go. */
module Lifecycle {
  import opened Files
  import opened Heuristics
  import opened Matching
  import opened Pruning
  import opened Release
  import opened Availability

  /** Staying at the old version is sound, and never misses a chance: the count is zero exactly when
      the new manifest is the old one, record by record. */
  lemma ZeroMeansSame(job: Job, cfg: Config)
    requires JobOk(job)
    ensures Differences(job.old_, job.new_, cfg.minversion) == {} <==> job.Matched(cfg) == job.old_
  {
    hide ConfigPath, StatePath, BootPath, ZERO_HASH;
    var m := job.Matched(cfg);
    var d := Differences(job.old_, job.new_, cfg.minversion);
    if d == {} {
      forall n | n in job.new_
        ensures n in job.old_
      {
        assert n in job.old_ || n in d;
      }
      assert m.Keys == job.old_.Keys;
      forall n | n in m
        ensures m[n] == job.old_[n]
      {
        SameName(job, cfg, n);
      }
    }
    if n :| n in d {
      DifferentName(job, cfg, n);
    }
  }

  lemma SameName(job: Job, cfg: Config, n: string)
    requires JobOk(job) && n in job.old_ && n !in Differences(job.old_, job.new_, cfg.minversion)
    ensures n in job.Matched(cfg) && job.Matched(cfg)[n] == job.old_[n]
  {
    hide ConfigPath, StatePath, BootPath, ZERO_HASH;
  }

  lemma DifferentName(job: Job, cfg: Config, n: string)
    requires JobOk(job) && n in Differences(job.old_, job.new_, cfg.minversion)
    ensures n in job.Matched(cfg) && (n in job.old_ ==> job.Matched(cfg)[n] != job.old_[n])
  {
    hide ConfigPath, StatePath, BootPath, ZERO_HASH;
  }

  /** A boot file that subtraction left in the old list, and that is not shipped any more, is ghosted in this
      release. */
  lemma BootFileIsGhosted(job: Job, cfg: Config, n: string)
    requires JobOk(job) && job.Process(cfg).Written?
    requires n in job.old_ && job.old_[n].Live() && BootPath(n) && n !in job.new_
    ensures n in job.Process(cfg).work
    ensures var e := job.Process(cfg).work[n]; e.isGhosted && !e.isDeleted && e.Untyped() && e.lastChange == job.version
  {
    hide ConfigPath, StatePath, ZERO_HASH, AnyPrefix, RenamesAllowed, Job.WorthWriting, TypesOk;
    DeadName(job, cfg, n);
  }

  /** Which records the two removals take. */
  lemma Remaining(job: Job, cfg: Config, n: string)
    requires n in job.Renamed(cfg)
    ensures n in job.WithoutGhosts(cfg) <==>
      var e := job.Renamed(cfg)[n];
      !(n in job.old_ && ((job.bump && job.old_[n].isDeleted && e.isDeleted) || (job.old_[n].isGhosted && e.isGhosted)))
    ensures n in job.WithoutGhosts(cfg) ==> job.WithoutGhosts(cfg)[n] == job.Renamed(cfg)[n]
  {
    hide Job.Renamed;
  }

  /** An old record that is not shipped any more becomes a tombstone; renaming touches its hash only. */
  lemma DeadName(job: Job, cfg: Config, n: string)
    requires JobOk(job) && n in job.old_ && n !in job.new_
    requires RenamesAllowed(job.old_, job.new_, Marked(job.Matched(cfg)), job.version, job.outcome.renames)
    ensures n in job.Renamed(cfg)
    ensures var e := job.Renamed(cfg)[n];
      && e.isDeleted && e.Untyped() && FlagsOk(n, e)
      && (e.isGhosted <==> job.old_[n].isGhosted)
      && e.lastChange == if job.old_[n].isDeleted then job.old_[n].lastChange else job.version
    ensures n in job.WithoutGhosts(cfg) <==> !job.old_[n].isGhosted && !(job.bump && job.old_[n].isDeleted)
    ensures n in job.WithoutGhosts(cfg) ==> job.WithoutGhosts(cfg)[n] == job.Renamed(cfg)[n]
  {
    hide Job.Matched, Job.WithoutGhosts, RenamesAllowed, FlagsOk, JobOk;
    DeadMatch(job, cfg, n);
    assert n in job.Renamed(cfg);
    RenamedName(job, cfg, n);
    FlagsFollow(n, job.Matched(cfg)[n], job.Renamed(cfg)[n]);
    Remaining(job, cfg, n);
  }

  lemma DeadMatch(job: Job, cfg: Config, n: string)
    requires JobOk(job) && n in job.old_ && n !in job.new_
    ensures n in job.Matched(cfg)
    ensures var e := job.Matched(cfg)[n];
      && e.isDeleted && e.Untyped() && FlagsOk(n, e) && (e.isGhosted <==> job.old_[n].isGhosted)
      && e.lastChange == if job.old_[n].isDeleted then job.old_[n].lastChange else job.version
  {
    hide ConfigPath, StatePath, BootPath, ZERO_HASH;
  }

  /** A ghost that subtraction left in the old list is gone from the next manifest of its component, unless the name
      is shipped again. */
  lemma GhostIsDropped(job: Job, cfg: Config, n: string)
    requires JobOk(job) && job.Process(cfg).Written?
    requires n in job.old_ && job.old_[n].isGhosted
    ensures n !in job.new_ ==> n !in job.Process(cfg).work
    ensures n in job.Process(cfg).work ==>
      job.Process(cfg).work[n].Live() && job.Process(cfg).work[n].lastChange == job.version
  {
    hide ConfigPath, StatePath, BootPath, ZERO_HASH, AnyPrefix, RenamesAllowed, Job.WorthWriting, TypesOk,
      Job.WithoutGhosts, Job.Matched;
    if n !in job.new_ {
      DeadName(job, cfg, n);
    } else if n in job.Pruned(cfg) {
      ShippedName(job, cfg, n);
    }
  }

  /** A shipped name keeps its last_change exactly when the old manifest shipped it just the same. */
  lemma ShippedName(job: Job, cfg: Config, n: string)
    requires JobOk(job) && n in job.new_ && n in job.Pruned(cfg)
    requires RenamesAllowed(job.old_, job.new_, Marked(job.Matched(cfg)), job.version, job.outcome.renames)
    ensures var e := job.Pruned(cfg)[n];
      && e.Live() && SameFileContents(job.new_[n], e)
      && e.lastChange == if n in job.old_ && Unchanged(job.old_[n], job.new_[n], cfg.minversion)
                         then job.old_[n].lastChange else job.version
  {
    hide Job.Matched, Job.WithoutGhosts, RenamesAllowed, JobOk, Unchanged;
    assert n in job.WithoutGhosts(cfg);
    var e := job.WithoutGhosts(cfg)[n];
    assert PruneEntry(cfg, n, CleanEntry(e, n in job.outcome.linked)) == Some(job.Pruned(cfg)[n]);
    RemainingName(job, cfg, n);
    ShippedMatch(job, cfg, n);
    hide Job.Pruned;
  }

  lemma ShippedMatch(job: Job, cfg: Config, n: string)
    requires JobOk(job) && n in job.new_
    ensures n in job.Matched(cfg)
    ensures var e := job.Matched(cfg)[n];
      && e.Live() && SameFileContents(job.new_[n], e)
      && e.lastChange == if n in job.old_ && Unchanged(job.old_[n], job.new_[n], cfg.minversion)
                         then job.old_[n].lastChange else job.version
  {
    hide ConfigPath, StatePath, BootPath, ZERO_HASH;
  }

  /** A shipped name that is not pruned reaches the written manifest. */
  lemma ShippedRemains(job: Job, cfg: Config, n: string)
    requires JobOk(job) && n in job.new_ && NotPruned(cfg, n)
    requires RenamesAllowed(job.old_, job.new_, Marked(job.Matched(cfg)), job.version, job.outcome.renames)
    ensures n in job.Pruned(cfg)
  {
    hide Job.Matched, Job.WithoutGhosts, RenamesAllowed, JobOk, FlagsOk, AnyPrefix, ZERO_HASH, PruneEntry, CleanEntry,
      NotPruned;
    ShippedMatch(job, cfg, n);
    MatchedName(job, cfg, n);
    assert n in job.Renamed(cfg);
    RenamedName(job, cfg, n);
    Remaining(job, cfg, n);
    var e := job.WithoutGhosts(cfg)[n];
    FlagsFollow(n, job.Matched(cfg)[n], e);
    LiveStays(cfg, n, e, n in job.outcome.linked);
  }

  /** An old ghost whose time is over, if subtraction left it, is reason enough to write the manifest. */
  lemma GhostForcesWriting(job: Job, cfg: Config, n: string)
    requires JobOk(job) && n in job.old_ && job.old_[n].isGhosted && n !in job.new_
    ensures !job.Process(cfg).Kept?
  {
    hide ConfigPath, StatePath, BootPath, ZERO_HASH, AnyPrefix, RenamesAllowed, TypesOk, Job.Matched, Job.Pruned,
      Job.WithoutGhosts;
    var d := Differences(job.old_, job.new_, cfg.minversion);
    assert n in d;
    if job.Acceptable(cfg) {
      DeadName(job, cfg, n);
      Remaining(job, cfg, n);
      assert n in Deprecated(job.old_, job.WithoutDeleted(cfg), BothGhosted);
    }
  }

  lemma PrunedFrom(job: Job, cfg: Config, n: string)
    requires n in job.Pruned(cfg)
    ensures n in job.WithoutGhosts(cfg)
    ensures job.Pruned(cfg)[n].lastChange == job.WithoutGhosts(cfg)[n].lastChange
    ensures job.Pruned(cfg)[n].isDeleted <==> job.WithoutGhosts(cfg)[n].isDeleted && !job.WithoutGhosts(cfg)[n].isBoot
  {
    hide AnyPrefix, Job.WithoutGhosts;
  }

  /** After a format bump a rewritten manifest holds no tombstone from an earlier release. */
  lemma BumpLeavesFreshTombstones(job: Job, cfg: Config, n: string)
    requires JobOk(job) && job.bump && job.Process(cfg).Written?
    requires n in job.Process(cfg).work && job.Process(cfg).work[n].isDeleted
    ensures job.Process(cfg).work[n].lastChange == job.version && !BootPath(n)
    ensures n in job.old_ && job.old_[n].Live() && n !in job.new_
  {
    hide ConfigPath, StatePath, ZERO_HASH, RenamesAllowed, Job.WorthWriting, TypesOk, Job.WithoutGhosts, Job.Matched,
      Job.Pruned;
    PrunedName(job, cfg, n);
    PrunedFrom(job, cfg, n);
    if n in job.new_ {
      ShippedName(job, cfg, n);
    } else {
      RemainingName(job, cfg, n);
      MatchedName(job, cfg, n);
      DeadName(job, cfg, n);
    }
  }

  /** What a difference leaves nothing behind of: an addition or change that is pruned, an expiring ghost, a
      deletion whose tombstone is banned. */
  predicate Vanishes(job: Job, cfg: Config, n: string) {
    if n in job.new_ then !NotPruned(cfg, n)
    else n in job.old_ && (job.old_[n].isGhosted || (AnyPrefix(n, cfg.banned) && !BootPath(n)))
  }

  lemma DeadPruneEntry(cfg: Config, n: string, e: Entry, linked: bool)
    requires e.isDeleted && FlagsOk(n, e)
    ensures var p := PruneEntry(cfg, n, CleanEntry(e, linked));
      (p.Some? <==> !AnyPrefix(n, cfg.banned) || BootPath(n)) && (p.Some? ==> p.value.lastChange == e.lastChange)
  {
    hide AnyPrefix, ConfigPath, StatePath, BootPath;
  }

  lemma DeadPruned(job: Job, cfg: Config, n: string)
    requires n in job.WithoutGhosts(cfg) && job.WithoutGhosts(cfg)[n].isDeleted && FlagsOk(n, job.WithoutGhosts(cfg)[n])
    ensures n in job.Pruned(cfg) <==> !AnyPrefix(n, cfg.banned) || BootPath(n)
    ensures n in job.Pruned(cfg) ==> job.Pruned(cfg)[n].lastChange == job.WithoutGhosts(cfg)[n].lastChange
  {
    hide AnyPrefix, Job.WithoutGhosts, FlagsOk, PruneEntry, CleanEntry, BootPath;
    DeadPruneEntry(cfg, n, job.WithoutGhosts(cfg)[n], n in job.outcome.linked);
  }

  /** A name makes the manifest new exactly if it is a difference that leaves something behind. */
  lemma NewExactly(job: Job, cfg: Config, n: string)
    requires JobOk(job)
    requires RenamesAllowed(job.old_, job.new_, Marked(job.Matched(cfg)), job.version, job.outcome.renames)
    ensures n in NewFiles(job.Pruned(cfg), job.version) <==>
      n in Differences(job.old_, job.new_, cfg.minversion) && !Vanishes(job, cfg, n)
  {
    hide ConfigPath, StatePath, BootPath, ZERO_HASH, AnyPrefix, RenamesAllowed, Job.Matched, Job.WithoutGhosts,
      Job.Pruned, Unchanged, NotPruned, WrittenOk, NewOk, FlagsOk;
    if n in job.new_ {
      if NotPruned(cfg, n) {
        ShippedRemains(job, cfg, n);
      }
      if n in job.Pruned(cfg) {
        ShippedName(job, cfg, n);
        PrunedName(job, cfg, n);
      }
    } else if n in job.old_ {
      DeadName(job, cfg, n);
      OldIsOld(job, n);
      if n in job.WithoutGhosts(cfg) {
        DeadPruned(job, cfg, n);
      } else if n in job.Pruned(cfg) {
        PrunedFrom(job, cfg, n);
        assert false;
      }
    } else if n in job.Pruned(cfg) {
      PrunedFrom(job, cfg, n);
      RemainingName(job, cfg, n);
      MatchedName(job, cfg, n);
    }
  }

  /** A difference that leaves something behind is reason enough to write the manifest. */
  lemma DifferenceForcesWriting(job: Job, cfg: Config, n: string)
    requires JobOk(job) && n in Differences(job.old_, job.new_, cfg.minversion) && !Vanishes(job, cfg, n)
    ensures !job.Process(cfg).Kept?
  {
    hide Job.Matched, Job.WithoutGhosts, Job.Pruned, JobOk, RenamesAllowed, TypesOk, Vanishes, Differences, NewFiles;
    if job.Acceptable(cfg) {
      NewExactly(job, cfg, n);
    }
    assert |Differences(job.old_, job.new_, cfg.minversion)| > 0;
  }

  lemma OldIsOld(job: Job, n: string)
    requires JobOk(job) && n in job.old_
    ensures job.old_[n].lastChange < job.version && !(job.old_[n].isDeleted && job.old_[n].isGhosted)
  {
  }

  /** The core has no such mercy: the whole run stops exactly when os-core differs only in ways that leave
      nothing behind, for instance when nothing but ghosts expired. */
  lemma CoreStopsExactly(job: Job, cfg: Config)
    requires JobOk(job) && job.isCore && job.Acceptable(cfg)
    ensures var d := Differences(job.old_, job.new_, cfg.minversion);
      job.Process(cfg).Failed? <==> d != {} && forall n | n in d :: Vanishes(job, cfg, n)
  {
    hide Job.Matched, Job.WithoutGhosts, Job.Pruned, Unchanged, NotPruned, JobOk, RenamesAllowed, TypesOk, Vanishes,
      Differences, NewFiles;
    var d := Differences(job.old_, job.new_, cfg.minversion);
    forall n
      ensures n in NewFiles(job.Pruned(cfg), job.version) <==> n in d && !Vanishes(job, cfg, n)
    {
      NewExactly(job, cfg, n);
    }
    assert |d| == 0 <==> d == {};
  }

  /** A rename made in this release still has both ends when orphans are looked for, unless the
      renamed-from file was a ghost: that one is removed first, and the other end keeps a link to a
      record that is in no manifest. */
  lemma RenameKeepsBothEnds(job: Job, cfg: Config, d: string)
    requires JobOk(job) && d in job.outcome.renames
    requires RenamesAllowed(job.old_, job.new_, Marked(job.Matched(cfg)), job.version, job.outcome.renames)
    ensures d in job.WithoutGhosts(cfg) <==> !job.old_[d].isGhosted
    ensures job.outcome.renames[d] in job.WithoutGhosts(cfg)
  {
    hide ConfigPath, StatePath, BootPath, ZERO_HASH, Job.Matched, Job.WithoutGhosts, FlagsOk, WrittenOk, NewOk,
      Job.Renamed;
    var n := job.outcome.renames[d];
    assert RenamedFrom(job.old_, job.new_, Marked(job.Matched(cfg)), job.version, d);
    assert RenamedTo(job.old_, job.new_, Marked(job.Matched(cfg)), job.version, n);
    EndOfRename(job, cfg, n);
    FromEnd(job, cfg, d);
    DeadName(job, cfg, d);
  }

  lemma FromEnd(job: Job, cfg: Config, d: string)
    requires JobOk(job) && RenamedFrom(job.old_, job.new_, Marked(job.Matched(cfg)), job.version, d)
    ensures d in job.old_ && d !in job.new_ && !job.old_[d].isDeleted
  {
    hide ConfigPath, StatePath, BootPath, ZERO_HASH, Job.Matched, FlagsOk, WrittenOk, NewOk;
    MatchedName(job, cfg, d);
    DeadMatch(job, cfg, d);
  }

  lemma EndOfRename(job: Job, cfg: Config, n: string)
    requires JobOk(job) && RenamedTo(job.old_, job.new_, Marked(job.Matched(cfg)), job.version, n)
    requires RenamesAllowed(job.old_, job.new_, Marked(job.Matched(cfg)), job.version, job.outcome.renames)
    ensures n in job.WithoutGhosts(cfg)
  {
    hide ConfigPath, StatePath, BootPath, ZERO_HASH, Job.Matched, RenamesAllowed, FlagsOk, WrittenOk, NewOk,
      Job.WithoutGhosts;
    var m := job.Matched(cfg);
    MatchedName(job, cfg, n);
    RenamedName(job, cfg, n);
    Remaining(job, cfg, n);
  }
}