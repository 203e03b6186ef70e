/** The life of a boot file over the releases: shipped, ghosted in the release that drops it, and gone
    after the next one; and when exactly a bundle that it includes interferes with that, or with what a build
    puts into a bundle. */
module Ghosts {
  import opened Files
  import opened Heuristics
  import opened Matching
  import opened Pruning
  import opened Sorting
  import opened Subtraction
  import opened IncludeLists
  import opened Release
  import opened Availability
  import opened Lifecycle
  import opened Shipping
  import opened History

  // ----- where the loop stands when a bundle's turn comes -----

  ghost function UpTo(cfg: Config, s: State, in_: Input, full: Entries, groups: seq<string>, g: string,
      r: Progressing): Progressing {
    if groups == [] || groups[0] == g then r
    else UpTo(cfg, s, in_, full, groups[1..], g, BundleTurn(cfg, s, in_, full, groups[0], r))
  }

  ghost function AtTurn(cfg: Config, s: State, in_: Input, g: string): Progressing {
    UpTo(cfg, s, in_, FullManifest(cfg, s, in_), [CORE] + Others(in_.groups), g, BeginBundles(s, in_))
  }

  /** What the bundle lists in this build once its includes are subtracted. */
  ghost function NewList(cfg: Config, s: State, in_: Input, g: string): Entries {
    var r := AtTurn(cfg, s, in_, g);
    if r.Running? && g in r.oldWork && g in r.newWork
    then JobOf(s, in_, FullManifest(cfg, s, in_), g, r).new_ else map[]
  }

  /** Another bundle's record, in its list as it stands, is not deleted and has the same is_file bit. */
  predicate Matches(work: Work, c: string, n: string, isFile: bool) {
    c in work && n in work[c] && !work[c][n].isDeleted && work[c][n].isFile == isFile
  }

  /** When the turn of `g` comes, a bundle that it included cancels its published entry. */
  ghost predicate OldCancels(cfg: Config, s: State, in_: Input, g: string, n: string) {
    var r := AtTurn(cfg, s, in_, g);
    && r.Running? && n in EntriesOf(s, g)
    && exists c | c in Closure(OldIncludeMap(s, in_), g) :: Matches(r.oldWork, c, n, EntriesOf(s, g)[n].isFile)
  }

  /** The loop reaches the turn of `g` with its old list as it was published, and what the turn publishes stays. */
  ghost predicate Comes(cfg: Config, s: State, in_: Input, g: string, left: seq<string>, t: Progressing,
      end: Progressing) {
    && t.Running? && LoopOk(cfg, s, in_, [g] + left, t) && g !in left && g in t.oldWork && g in t.newWork
    && t.oldWork[g] == OldBundle(s, in_, g).entries
    && var t' := BundleTurn(cfg, s, in_, FullManifest(cfg, s, in_), g, t);
       t'.Running? && end.Running? && g in t'.bundles && g in end.bundles && end.bundles[g] == t'.bundles[g]
  }

  lemma {:induction false} LaterKeeps(cfg: Config, s: State, in_: Input, full: Entries, groups: seq<string>,
      g: string, r: Progressing)
    requires g !in groups && r.Running? && g in r.bundles && BundleTurns(cfg, s, in_, full, groups, r).Running?
    ensures var end := BundleTurns(cfg, s, in_, full, groups, r); g in end.bundles && end.bundles[g] == r.bundles[g]
    decreases |groups|
  {
    hide JobOf, Job.Process, OldBundle;
    if groups != [] {
      var r' := BundleTurn(cfg, s, in_, full, groups[0], r);
      if r'.Running? {
        LaterKeeps(cfg, s, in_, full, groups[1..], g, r');
      } else {
        StoppedStays(cfg, s, in_, full, groups[1..]);
        assert false;
      }
    }
  }

  lemma TurnRuns(cfg: Config, s: State, in_: Input, full: Entries, groups: seq<string>, r: Progressing)
    requires groups != [] && BundleTurns(cfg, s, in_, full, groups, r).Running?
    ensures BundleTurn(cfg, s, in_, full, groups[0], r).Running?
    ensures BundleTurns(cfg, s, in_, full, groups, r) ==
      BundleTurns(cfg, s, in_, full, groups[1..], BundleTurn(cfg, s, in_, full, groups[0], r))
  {
    hide BundleTurn;
    StoppedStays(cfg, s, in_, full, groups[1..]);
  }

  lemma {:induction false} TurnComes(cfg: Config, s: State, in_: Input, groups: seq<string>, g: string, r: Progressing)
    returns (left: seq<string>)
    requires StateOk(s) && Sensible(s, in_) && Distinct(groups) && (forall x | x in groups :: x in in_.groups)
    requires g in groups
    requires r.Running? && LoopOk(cfg, s, in_, groups, r) && g in r.oldWork
    requires r.oldWork[g] == OldBundle(s, in_, g).entries
    requires BundleTurns(cfg, s, in_, FullManifest(cfg, s, in_), groups, r).Running?
    ensures var full := FullManifest(cfg, s, in_);
      Comes(cfg, s, in_, g, left, UpTo(cfg, s, in_, full, groups, g, r), BundleTurns(cfg, s, in_, full, groups, r))
    decreases |groups|
  {
    hide FullManifest, StateOk, Sensible, LoopOk, BundleTurn, OldBundle;
    var full := FullManifest(cfg, s, in_);
    var x, rest := groups[0], groups[1..];
    assert groups == [x] + rest;
    assert x !in rest by {
      assert forall i | 0 < i < |groups| :: groups[i] != groups[0];
    }
    TurnRuns(cfg, s, in_, full, groups, r);
    var r' := BundleTurn(cfg, s, in_, full, x, r);
    if x == g {
      left := rest;
      LoopHas(cfg, s, in_, groups, r);
      TurnPublishes(cfg, s, in_, full, g, r);
      LaterKeeps(cfg, s, in_, full, rest, g, r');
    } else {
      OthersOld(cfg, s, in_, full, x, r);
      TurnOk(cfg, s, in_, rest, x, r);
      left := TurnComes(cfg, s, in_, rest, g, r');
    }
  }

  /** A turn publishes the old manifest or the one that it writes. */
  lemma TurnPublishes(cfg: Config, s: State, in_: Input, full: Entries, g: string, r: Progressing)
    requires BundleTurn(cfg, s, in_, full, g, r).Running?
    ensures r.Running? && g in r.oldWork && g in r.newWork
    ensures var p, r' := JobOf(s, in_, full, g, r).Process(cfg), BundleTurn(cfg, s, in_, full, g, r);
      && !p.Failed? && g in r'.bundles && g in r'.oldWork && g in r'.newWork
      && r'.bundles == r.bundles[g := r'.bundles[g]]
      && r'.oldWork == r.oldWork[g := JobOf(s, in_, full, g, r).old_] && r'.newWork == r.newWork[g := p.work]
      && r'.bundles[g] ==
           if p.Kept? then OldBundle(s, in_, g) else Published(in_.version, in_.format, p.work, in_.IncludesOf(g))
  {
    hide JobOf, Job.Process, OldBundle;
  }

  /** The turn of a bundle in a release that is published. */
  lemma ReleaseTurn(cfg: Config, s: State, in_: Input, g: string) returns (left: seq<string>)
    requires StateOk(s) && Publishes(cfg, s, in_) && g in in_.groups
    ensures exists end ::
      Comes(cfg, s, in_, g, left, AtTurn(cfg, s, in_, g), end) && end.bundles == Step(cfg, s, in_).bundles
  {
    hide FullManifest, StateOk, Sensible, LoopOk, CreateUpdate, BundleTurns, Step, BundleTurn, OldBundle, Comes, UpTo;
    var end := StepLoop(cfg, s, in_);
    SensibleCore(s, in_);
    AllGroups(in_.groups);
    OthersDistinct(in_.groups);
    var groups := [CORE] + Others(in_.groups);
    LoopStarts(cfg, s, in_, groups);
    LoopRuns(cfg, s, in_, end);
    BeginsOld(s, in_, g);
    left := TurnComes(cfg, s, in_, groups, g, BeginBundles(s, in_));
    assert Comes(cfg, s, in_, g, left, AtTurn(cfg, s, in_, g), end);
  }

  lemma BeginsOld(s: State, in_: Input, g: string)
    requires g in in_.groups
    ensures var r := BeginBundles(s, in_); r.Running? && g in r.oldWork && r.oldWork[g] == OldBundle(s, in_, g).entries
  {
    hide OldBundle, BundleRaw;
  }

  // ----- the old side of the turn -----

  /** What subtraction leaves of a published entry that is not deleted. */
  lemma OldListed(cfg: Config, s: State, in_: Input, g: string, left: seq<string>, r: Progressing, n: string)
    requires StateOk(s) && Sensible(s, in_) && g in in_.groups && LoopOk(cfg, s, in_, [g] + left, r)
    requires r.Running? && g in r.oldWork && g in r.newWork && r.oldWork[g] == OldBundle(s, in_, g).entries
    requires n in EntriesOf(s, g) && !EntriesOf(s, g)[n].isDeleted
    ensures var o, e := JobOf(s, in_, FullManifest(cfg, s, in_), g, r).old_, EntriesOf(s, g)[n];
      && (n in o <==> !exists c | c in Closure(OldIncludeMap(s, in_), g) :: Matches(r.oldWork, c, n, e.isFile))
      && (n in o ==> o[n] == e)
  {
    hide FullManifest, StateOk, Sensible, LoopOk, OldBundle, OldIncludeMap, NewIncludeMap, Closure, MarkEntry,
      EntriesOf, WrittenOk, FlagsOk, AddHashes, BundleTurn;
    OldEntriesOf(s, in_, g);
    var e := EntriesOf(s, g)[n];
    OldBundleRecord(s, in_, g, n);
    WrittenFlags(n, e);
    MarkedIsSame(r.oldWork[g], n);
    var o, inc := r.oldWork[g := Marked(r.oldWork[g])], OldIncludeMap(s, in_);
    assert o[g][n] == e;
    CancelsIffMatches(r.oldWork, o, inc, g, n);
    if g == CORE {
      CoreIncludesNothing(s, in_, n);
    }
  }

  /** Rewriting the bundle's own record does not change who cancels it. */
  lemma CancelsIffMatches(work: Work, o: Work, inc: Includes, g: string, n: string)
    requires g in work && g in o && o == work[g := o[g]] && n in work[g] && n in o[g] && !o[g][n].isDeleted
    requires o[g][n].isFile == work[g][n].isFile && o[g][n].isDeleted == work[g][n].isDeleted
    ensures CancelledIn(o, inc, g, n) <==> exists c | c in Closure(inc, g) :: Matches(work, c, n, work[g][n].isFile)
  {
    hide Closure;
    if c :| c in Closure(inc, g) && Matches(work, c, n, work[g][n].isFile) {
      assert c in o && n in o[c] && Cancels(o[g][n], o[c][n]);
    }
    if CancelledIn(o, inc, g, n) {
      var c :| c in Closure(inc, g) && c in o && n in o[c] && Cancels(o[g][n], o[c][n]);
      assert Matches(work, c, n, work[g][n].isFile);
    }
  }

  /** What subtraction leaves of a file that the build puts into the bundle. */
  lemma NewListed(cfg: Config, s: State, in_: Input, g: string, left: seq<string>, r: Progressing, n: string)
    requires StateOk(s) && Sensible(s, in_) && g in in_.groups && LoopOk(cfg, s, in_, [g] + left, r)
    requires r.Running? && g in r.oldWork && g in r.newWork && n in in_.image
    ensures n in JobOf(s, in_, FullManifest(cfg, s, in_), g, r).new_ <==>
      n in in_.ShippedBy(g)
      && !exists c | c in Closure(NewIncludeMap(in_), g) :: Matches(r.newWork, c, n, in_.image[n].kind.Regular?)
  {
    hide FullManifest, StateOk, Sensible, LoopOk, OldBundle, OldIncludeMap, NewIncludeMap, Closure, BundleTurn;
    LoopHas(cfg, s, in_, [g] + left, r);
    assert ([g] + left)[0] == g;
    var full := FullManifest(cfg, s, in_);
    var o, inc := r.newWork[g := Marked(AddHashes(r.newWork[g], full))], NewIncludeMap(in_);
    assert n in r.newWork[g] <==> n in in_.ShippedBy(g);
    if n in r.newWork[g] {
      Hashed(r.newWork[g], full);
      CancelsIffMatches(r.newWork, o, inc, g, n);
    }
    if g == CORE {
      CoreHasNoIncludes(in_);
    }
  }

  lemma CoreHasNoIncludes(in_: Input)
    requires CORE in in_.groups
    ensures Closure(NewIncludeMap(in_), CORE) == {}
  {
    hide NewIncludes, Reaches;
    forall c | c in Closure(NewIncludeMap(in_), CORE)
      ensures false
    {
      var x := FirstStep(NewIncludeMap(in_), CORE, c);
    }
  }

  lemma CoreIncludesNothing(s: State, in_: Input, n: string)
    requires CORE in in_.groups
    ensures Closure(OldIncludeMap(s, in_), CORE) == {}
  {
    hide OldIncludes, OldBundle, Reaches;
    forall c | c in Closure(OldIncludeMap(s, in_), CORE)
      ensures false
    {
      var x := FirstStep(OldIncludeMap(s, in_), CORE, c);
    }
  }

  // ----- one job -----

  /** A boot file that is gone is ghosted, whatever else the bundle does. */
  lemma GoneIsGhosted(job: Job, cfg: Config, n: string)
    requires JobOk(job) && !job.Process(cfg).Failed?
    requires n in job.old_ && job.old_[n].Live() && BootPath(n) && n !in job.new_
    ensures var p := job.Process(cfg);
      p.Written? && n in p.work && p.work[n].isGhosted && p.work[n].lastChange == job.version
  {
    hide JobOk, Job.Process, BootPath, AnyPrefix, Unchanged;
    assert n in Differences(job.old_, job.new_, cfg.minversion);
    DifferenceForcesWriting(job, cfg, n);
    BootFileIsGhosted(job, cfg, n);
  }

  lemma GhostIsGone(job: Job, cfg: Config, n: string)
    requires JobOk(job) && !job.Process(cfg).Failed?
    requires n in job.old_ && job.old_[n].isGhosted && n !in job.new_
    ensures job.Process(cfg).Written? && n !in job.Process(cfg).work
  {
    hide JobOk, Job.Process;
    GhostForcesWriting(job, cfg, n);
    GhostIsDropped(job, cfg, n);
  }

  /** A name that is listed again is as new as one that never was listed. */
  lemma ListedIsNew(job: Job, cfg: Config, n: string)
    requires JobOk(job) && !job.Process(cfg).Failed? && n in job.new_ && NotPruned(cfg, n)
    requires n in job.old_ ==> job.old_[n].isGhosted
    ensures var p := job.Process(cfg);
      p.Written? && n in p.work && p.work[n].Live() && p.work[n].lastChange == job.version
  {
    hide JobOk, Job.Process, NotPruned;
    if n in job.old_ {
      GhostIsUntyped(job, n);
    }
    assert n in Differences(job.old_, job.new_, cfg.minversion);
    assert !Vanishes(job, cfg, n);
    DifferenceForcesWriting(job, cfg, n);
    WrittenIsAllowed(job, cfg);
    ShippedRemains(job, cfg, n);
    ShippedName(job, cfg, n);
  }

  lemma GhostIsUntyped(job: Job, n: string)
    requires JobOk(job) && n in job.old_ && n in job.new_ && job.old_[n].isGhosted
    ensures !SameFileContents(job.old_[n], job.new_[n])
  {
    hide ConfigPath, StatePath, BootPath, ZERO_HASH;
  }

  lemma NeitherNor(job: Job, cfg: Config, n: string)
    requires JobOk(job) && job.Process(cfg).Written? && n !in job.old_ && n !in job.new_
    ensures n !in job.Process(cfg).work
  {
    hide JobOk, Job.Process, Job.Matched, Job.Pruned, RenamesAllowed;
    WrittenIsAllowed(job, cfg);
    if n in job.Pruned(cfg) {
      PrunedFrom(job, cfg, n);
      RemainingName(job, cfg, n);
      MatchedFrom(job, cfg, n);
    }
  }

  // ----- from one release to the next -----

  predicate GhostedSince(m: Entries, n: string, version: int) {
    n in m && m[n].isGhosted && !m[n].isDeleted && m[n].lastChange == version
  }

  /** What a published release means for a boot file that the bundle's manifest listed, as a shipped file or as
      a ghost: unless an included bundle cancels the old entry, a file that is not listed any more is ghosted now,
      and a ghost is gone; but when one does, and exactly then, nothing notices: the old entry is gone
      without having been a ghost if the bundle is written for another reason, and else stays published. */
  ghost predicate LivesOn(cfg: Config, s: State, in_: Input, s': State, g: string, n: string, cancelled: bool) {
    var old_, m := EntriesOf(s, g), EntriesOf(s', g);
    g in in_.groups && g in s'.bundles && n in old_ && BootPath(n) ==>
      var e := old_[n];
      var listed, rewritten := n in NewList(cfg, s, in_, g), s'.bundles[g].version == in_.version;
      && (e.Live() || e.isGhosted)
      && (listed && NotPruned(cfg, n) && (e.isGhosted || cancelled) ==>
          n in m && m[n].Live() && m[n].lastChange == in_.version)
      && (!listed && e.Live() ==> (GhostedSince(m, n, in_.version) <==> !cancelled))
      && (!listed && e.isGhosted ==> (n !in m <==> !cancelled || rewritten))
      && (!listed && cancelled ==> if rewritten then n !in m else n in m && m[n] == e)
      && (!listed && !cancelled ==> rewritten)
  }

  lemma BootEntry(s: State, in_: Input, g: string, n: string)
    requires StateOk(s) && Sensible(s, in_) && n in EntriesOf(s, g) && BootPath(n)
    ensures !EntriesOf(s, g)[n].isDeleted && (EntriesOf(s, g)[n].isGhosted ==> !EntriesOf(s, g)[n].Live())
  {
    hide StateOk, Sensible, ConfigPath, StatePath, BootPath, ZERO_HASH, EntriesOf;
    OldEntriesOf(s, in_, g);
    OldBundleRecord(s, in_, g, n);
  }

  lemma OldVersion(s: State, in_: Input, g: string)
    requires StateOk(s) && Sensible(s, in_)
    ensures OldBundle(s, in_, g).version < in_.version && in_.version > 0
  {
    hide ManifestOk;
  }

  /** The job of a bundle in a release that is published, and what is published for it. */
  lemma PublishedJob(cfg: Config, s: State, in_: Input, g: string) returns (job: Job)
    requires StateOk(s) && Publishes(cfg, s, in_) && g in in_.groups
    ensures var r := AtTurn(cfg, s, in_, g);
      r.Running? && g in r.oldWork && g in r.newWork && job == JobOf(s, in_, FullManifest(cfg, s, in_), g, r)
    ensures JobOk(job) && Part(job.old_, EntriesOf(s, g)) && job.new_ == NewList(cfg, s, in_, g)
    ensures job.version == in_.version > 0 && (job.bump <==> OldBundle(s, in_, g).format < in_.format)
    ensures var p, s' := job.Process(cfg), Step(cfg, s, in_);
      && !p.Failed? && g in s'.bundles && OldBundle(s, in_, g).version < in_.version
      && s'.bundles[g] ==
           (if p.Kept? then OldBundle(s, in_, g) else Published(in_.version, in_.format, p.work, in_.IncludesOf(g)))
      && EntriesOf(s', g) == if p.Kept? then EntriesOf(s, g) else p.work
  {
    hide FullManifest, StateOk, Sensible, LoopOk, JobOk, Job.Process, JobOf, BundleTurn, OldBundle, AtTurn, Step,
      CreateUpdate, Part;
    var left := ReleaseTurn(cfg, s, in_, g);
    var r := AtTurn(cfg, s, in_, g);
    var end :| Comes(cfg, s, in_, g, left, r, end) && end.bundles == Step(cfg, s, in_).bundles;
    var full := FullManifest(cfg, s, in_);
    job := JobOf(s, in_, full, g, r);
    assert ([g] + left)[0] == g;
    TurnPublishes(cfg, s, in_, full, g, r);
    JobIsOk(cfg, s, in_, [g] + left, g, r);
    JobVersion(s, in_, full, g, r);
    JobFlags(s, in_, full, g, r);
    OldEntriesOf(s, in_, g);
    OldVersion(s, in_, g);
    OldZero(s, in_, g);
  }

  lemma StaysPublished(s: State, in_: Input, s': State, g: string, n: string)
    requires n in EntriesOf(s, g) && g in s'.bundles && s'.bundles[g] == OldBundle(s, in_, g)
    ensures EntriesOf(s', g) == EntriesOf(s, g)
  {
  }

  lemma ReleaseLivesOn(cfg: Config, s: State, in_: Input, g: string, n: string)
    requires StateOk(s) && Publishes(cfg, s, in_)
    requires g in in_.groups && n in EntriesOf(s, g) && BootPath(n)
    ensures LivesOn(cfg, s, in_, Step(cfg, s, in_), g, n, OldCancels(cfg, s, in_, g, n))
  {
    hide FullManifest, StateOk, Sensible, LoopOk, JobOk, Job.Process, JobOf, BundleTurn, OldBundle, AtTurn, BootPath,
      NotPruned, Step, CreateUpdate, SameFileContents, Closure, OldIncludeMap, Matches;
    var left := ReleaseTurn(cfg, s, in_, g);
    var r := AtTurn(cfg, s, in_, g);
    var end :| Comes(cfg, s, in_, g, left, r, end) && end.bundles == Step(cfg, s, in_).bundles;
    var full := FullManifest(cfg, s, in_);
    var job := JobOf(s, in_, full, g, r);
    TurnPublishes(cfg, s, in_, full, g, r);
    BootEntry(s, in_, g, n);
    OldListed(cfg, s, in_, g, left, r, n);
    assert ([g] + left)[0] == g;
    JobIsOk(cfg, s, in_, [g] + left, g, r);
    JobVersion(s, in_, full, g, r);
    OldVersion(s, in_, g);
    OldEntriesOf(s, in_, g);
    var e := EntriesOf(s, g)[n];
    if n in job.new_ {
      if NotPruned(cfg, n) && (e.isGhosted || OldCancels(cfg, s, in_, g, n)) {
        ListedIsNew(job, cfg, n);
      }
    } else if OldCancels(cfg, s, in_, g, n) {
      if job.Process(cfg).Written? {
        NeitherNor(job, cfg, n);
      } else {
        StaysPublished(s, in_, Step(cfg, s, in_), g, n);
      }
    } else if e.Live() {
      GoneIsGhosted(job, cfg, n);
      GhostNotDeleted(job, cfg, n);
    } else {
      GhostIsGone(job, cfg, n);
    }
  }

  lemma GhostNotDeleted(job: Job, cfg: Config, n: string)
    requires JobOk(job) && job.Process(cfg).Written? && n in job.Process(cfg).work && job.Process(cfg).work[n].isGhosted
    ensures !job.Process(cfg).work[n].isDeleted
  {
    hide Job.Matched, Job.Pruned, JobOk, RenamesAllowed, ConfigPath, StatePath, BootPath, ZERO_HASH;
    WrittenIsAllowed(job, cfg);
    PrunedName(job, cfg, n);
  }

  /** The life cycle for every bundle and every boot file, with what the lists are when a bundle's turn comes. */
  ghost predicate AllLiveOnAtTurn(cfg: Config, s: State, in_: Input, s': State) {
    Publishes(cfg, s, in_) ==> forall g, n | g in in_.groups && n in EntriesOf(s, g) && BootPath(n) ::
      LivesOn(cfg, s, in_, s', g, n, OldCancels(cfg, s, in_, g, n))
  }

  lemma LifeCycleAtTurn(cfg: Config, inputs: seq<Input>, in_: Input)
    ensures AllLiveOnAtTurn(cfg, Run(cfg, inputs), in_, Run(cfg, inputs + [in_]))
  {
    hide Publishes, Step, StateOk, LivesOn, BootPath, EntriesOf, OldCancels;
    RunOk(cfg, inputs);
    var s := Run(cfg, inputs);
    OneMoreBuild(cfg, inputs, in_);
    if Publishes(cfg, s, in_) {
      forall g, n | g in in_.groups && n in EntriesOf(s, g) && BootPath(n)
        ensures LivesOn(cfg, s, in_, Step(cfg, s, in_), g, n, OldCancels(cfg, s, in_, g, n))
      {
        ReleaseLivesOn(cfg, s, in_, g, n);
      }
    }
  }

  lemma OneMoreBuild(cfg: Config, inputs: seq<Input>, in_: Input)
    ensures Run(cfg, inputs + [in_]) == Step(cfg, Run(cfg, inputs), in_)
  {
    hide Step;
    var all := inputs + [in_];
    assert all[..|all| - 1] == inputs && all[|all| - 1] == in_;
  }

  // ----- the same, said about published manifests alone -----

  /** The old includes name known bundles and have no cycle; the original neither ends nor survives otherwise. */
  ghost predicate OldAcyclic(s: State, in_: Input) {
    exists rank: map<string, nat> :: Ranked(OldIncludeMap(s, in_), rank)
  }

  function PublishedTables(s: State, in_: Input): (r: Work)
    ensures forall g :: g in r <==> g in in_.groups
  {
    map g | g in in_.groups :: EntriesOf(s, g)
  }

  /** The manifest of a bundle that `g` included has the name as well, not deleted and with the same is_file bit. */
  ghost predicate PublishedCancels(s: State, in_: Input, g: string, n: string) {
    && n in EntriesOf(s, g)
    && exists c | c in Closure(OldIncludeMap(s, in_), g) ::
         Matches(PublishedTables(s, in_), c, n, EntriesOf(s, g)[n].isFile)
  }

  ghost predicate MatchesBelow(work: Work, inc: Includes, c: string, n: string, isFile: bool) {
    exists d :: (d == c || d in Closure(inc, c)) && Matches(work, d, n, isFile)
  }

  /** However far the loop is: what a bundle had at first, it or one that it includes has still. */
  ghost predicate Remain(s: State, in_: Input, oldWork: Work, n: string) {
    forall c, isFile | Matches(PublishedTables(s, in_), c, n, isFile) ::
      MatchesBelow(oldWork, OldIncludeMap(s, in_), c, n, isFile)
  }

  /** What a turn takes from a bundle, one that it includes has. */
  lemma TurnTakes(cfg: Config, s: State, in_: Input, full: Entries, g: string, r: Progressing, n: string, isFile: bool)
    requires BundleTurn(cfg, s, in_, full, g, r).Running? && r.Running? && Matches(r.oldWork, g, n, isFile)
    ensures var r' := BundleTurn(cfg, s, in_, full, g, r);
      || Matches(r'.oldWork, g, n, isFile)
      || exists d | d in Closure(OldIncludeMap(s, in_), g) :: Matches(r.oldWork, d, n, isFile)
  {
    hide Closure, OldIncludeMap, NewIncludeMap, Job.Process, OldBundle, AddHashes, ConfigPath, StatePath, BootPath,
      CancelledIn;
    var o := r.oldWork[g := Marked(r.oldWork[g])];
    CancelsIffMatches(r.oldWork, o, OldIncludeMap(s, in_), g, n);
  }

  lemma TurnKeepsOthers(cfg: Config, s: State, in_: Input, full: Entries, g: string, r: Progressing, d: string,
      n: string, isFile: bool)
    requires BundleTurn(cfg, s, in_, full, g, r).Running? && r.Running? && d != g && Matches(r.oldWork, d, n, isFile)
    ensures Matches(BundleTurn(cfg, s, in_, full, g, r).oldWork, d, n, isFile)
  {
    hide BundleTurn;
    OthersOld(cfg, s, in_, full, g, r);
  }

  lemma RemainStep(cfg: Config, s: State, in_: Input, full: Entries, g: string, r: Progressing, rank: map<string, nat>,
      n: string)
    requires Ranked(OldIncludeMap(s, in_), rank) && BundleTurn(cfg, s, in_, full, g, r).Running? && r.Running?
    requires Remain(s, in_, r.oldWork, n)
    ensures Remain(s, in_, BundleTurn(cfg, s, in_, full, g, r).oldWork, n)
  {
    hide BundleTurn, Ranked, Closure, OldIncludeMap, PublishedTables, Matches;
    var inc, r' := OldIncludeMap(s, in_), BundleTurn(cfg, s, in_, full, g, r);
    forall c, isFile | Matches(PublishedTables(s, in_), c, n, isFile)
      ensures MatchesBelow(r'.oldWork, inc, c, n, isFile)
    {
      assert MatchesBelow(r.oldWork, inc, c, n, isFile);
      var d :| (d == c || d in Closure(inc, c)) && Matches(r.oldWork, d, n, isFile);
      if d != g {
        TurnKeepsOthers(cfg, s, in_, full, g, r, d, n, isFile);
      } else {
        TurnTakes(cfg, s, in_, full, g, r, n, isFile);
        if !Matches(r'.oldWork, g, n, isFile) {
          var e :| e in Closure(inc, g) && Matches(r.oldWork, e, n, isFile);
          Deeper(inc, rank, c, g, e);
          TurnKeepsOthers(cfg, s, in_, full, g, r, e, n, isFile);
        }
      }
    }
  }

  lemma Deeper(inc: Includes, rank: map<string, nat>, c: string, d: string, e: string)
    requires Ranked(inc, rank) && (d == c || d in Closure(inc, c)) && e in Closure(inc, d)
    ensures e != d && e in Closure(inc, c)
  {
    hide Ranked, Reaches;
    ReachesDown(inc, rank, d, e);
    if d != c {
      ReachesTransitive(inc, rank, c, d, e);
    }
  }

  lemma {:induction false} UpToStopped(cfg: Config, s: State, in_: Input, full: Entries, groups: seq<string>, g: string)
    ensures UpTo(cfg, s, in_, full, groups, g, Stopped).Stopped?
    decreases |groups|
  {
    if groups != [] && groups[0] != g {
      UpToStopped(cfg, s, in_, full, groups[1..], g);
    }
  }

  lemma {:induction false} RemainUpTo(cfg: Config, s: State, in_: Input, full: Entries, groups: seq<string>, g: string,
      r: Progressing, rank: map<string, nat>, n: string)
    requires Ranked(OldIncludeMap(s, in_), rank) && UpTo(cfg, s, in_, full, groups, g, r).Running? && r.Running?
    requires Remain(s, in_, r.oldWork, n)
    ensures Remain(s, in_, UpTo(cfg, s, in_, full, groups, g, r).oldWork, n)
    decreases |groups|
  {
    hide BundleTurn, Ranked, OldIncludeMap, Remain;
    if groups != [] && groups[0] != g {
      var r' := BundleTurn(cfg, s, in_, full, groups[0], r);
      if r'.Running? {
        RemainStep(cfg, s, in_, full, groups[0], r, rank, n);
        RemainUpTo(cfg, s, in_, full, groups[1..], g, r', rank, n);
      } else {
        UpToStopped(cfg, s, in_, full, groups[1..], g);
        assert false;
      }
    }
  }

  lemma RemainStarts(s: State, in_: Input, n: string)
    ensures BeginBundles(s, in_).Running? && Remain(s, in_, BeginBundles(s, in_).oldWork, n)
  {
    hide Closure, OldIncludeMap, BundleRaw;
    forall c, isFile | Matches(PublishedTables(s, in_), c, n, isFile)
      ensures MatchesBelow(BeginBundles(s, in_).oldWork, OldIncludeMap(s, in_), c, n, isFile)
    {
      OldEntriesOf(s, in_, c);
      assert Matches(BeginBundles(s, in_).oldWork, c, n, isFile);
    }
  }

  lemma OldListIsPublished(cfg: Config, s: State, in_: Input, left: seq<string>, r: Progressing, c: string, n: string,
      isFile: bool)
    requires LoopOk(cfg, s, in_, left, r) && r.Running? && Matches(r.oldWork, c, n, isFile)
    ensures Matches(PublishedTables(s, in_), c, n, isFile)
  {
    hide LoopOk, OldBundle, EntriesOf;
    LoopHas(cfg, s, in_, left, r);
    OldEntriesOf(s, in_, c);
  }

  /** Subtraction before the turn makes no difference: an entry is cancelled if and only if the published manifest of
      an included bundle has it. */
  lemma CancelsAsPublished(cfg: Config, s: State, in_: Input, g: string, n: string)
    requires StateOk(s) && Publishes(cfg, s, in_) && OldAcyclic(s, in_) && g in in_.groups && n in EntriesOf(s, g)
    ensures OldCancels(cfg, s, in_, g, n) <==> PublishedCancels(s, in_, g, n)
  {
    hide FullManifest, StateOk, Sensible, LoopOk, CreateUpdate, BundleTurn, OldBundle, Ranked, Closure, OldIncludeMap,
      PublishedTables, Matches, EntriesOf, UpTo, Step, BeginBundles, Remain;
    var rank: map<string, nat> :| Ranked(OldIncludeMap(s, in_), rank);
    var inc, isFile := OldIncludeMap(s, in_), EntriesOf(s, g)[n].isFile;
    var left := ReleaseTurn(cfg, s, in_, g);
    var r := AtTurn(cfg, s, in_, g);
    var end :| Comes(cfg, s, in_, g, left, r, end) && end.bundles == Step(cfg, s, in_).bundles;
    if c :| c in Closure(inc, g) && Matches(r.oldWork, c, n, isFile) {
      OldListIsPublished(cfg, s, in_, [g] + left, r, c, n, isFile);
    }
    if c :| c in Closure(inc, g) && Matches(PublishedTables(s, in_), c, n, isFile) {
      RemainStarts(s, in_, n);
      RemainUpTo(cfg, s, in_, FullManifest(cfg, s, in_), [CORE] + Others(in_.groups), g, BeginBundles(s, in_), rank, n);
      var d := StillMatched(s, in_, r.oldWork, c, n, isFile);
      if d != c {
        Deeper(inc, rank, g, c, d);
      }
    }
  }

  lemma StillMatched(s: State, in_: Input, oldWork: Work, c: string, n: string, isFile: bool) returns (d: string)
    requires Remain(s, in_, oldWork, n) && Matches(PublishedTables(s, in_), c, n, isFile)
    ensures (d == c || d in Closure(OldIncludeMap(s, in_), c)) && Matches(oldWork, d, n, isFile)
  {
    hide Closure, OldIncludeMap, PublishedTables, Matches;
    assert MatchesBelow(oldWork, OldIncludeMap(s, in_), c, n, isFile);
    d :| (d == c || d in Closure(OldIncludeMap(s, in_), c)) && Matches(oldWork, d, n, isFile);
  }

  /** The life cycle for every bundle and every boot file, in terms of what was published. */
  ghost predicate AllLiveOn(cfg: Config, s: State, in_: Input, s': State) {
    Publishes(cfg, s, in_) && OldAcyclic(s, in_) ==>
      forall g, n | g in in_.groups && n in EntriesOf(s, g) && BootPath(n) ::
        LivesOn(cfg, s, in_, s', g, n, PublishedCancels(s, in_, g, n))
  }

  /** Over every sequence of builds. */
  lemma GhostLifeCycle(cfg: Config, inputs: seq<Input>, in_: Input)
    ensures AllLiveOn(cfg, Run(cfg, inputs), in_, Run(cfg, inputs + [in_]))
  {
    hide Publishes, Step, StateOk, LivesOn, BootPath, EntriesOf, OldCancels, PublishedCancels, OldAcyclic;
    RunOk(cfg, inputs);
    var s := Run(cfg, inputs);
    OneMoreBuild(cfg, inputs, in_);
    if Publishes(cfg, s, in_) && OldAcyclic(s, in_) {
      forall g, n | g in in_.groups && n in EntriesOf(s, g) && BootPath(n)
        ensures LivesOn(cfg, s, in_, Step(cfg, s, in_), g, n, PublishedCancels(s, in_, g, n))
      {
        ReleaseLivesOn(cfg, s, in_, g, n);
        CancelsAsPublished(cfg, s, in_, g, n);
      }
    }
  }

  // ----- what a build puts into a bundle -----

  /** When the turn of `g` comes, a bundle that it includes cancels what the build put into it. */
  ghost predicate NewCancels(cfg: Config, s: State, in_: Input, g: string, n: string) {
    var r := AtTurn(cfg, s, in_, g);
    && r.Running? && n in in_.image
    && exists c | c in Closure(NewIncludeMap(in_), g) :: Matches(r.newWork, c, n, in_.image[n].kind.Regular?)
  }

  /** Of the files that the build put into a bundle, boot directories included, the bundle lists those that no
      included bundle cancels, and no others; and what it lists, its manifest ships. */
  ghost predicate ShipsUncancelled(cfg: Config, s: State, in_: Input, s': State) {
    Publishes(cfg, s, in_) ==>
      forall g, n | g in in_.groups && n in in_.ShippedBy(g) && n in in_.image && NotPruned(cfg, n) ::
        && (n in NewList(cfg, s, in_, g) <==> !NewCancels(cfg, s, in_, g, n))
        && (n in NewList(cfg, s, in_, g) ==> ShippedIn(s', g, n, in_.image[n].kind.Regular?))
  }

  lemma ReleaseShips(cfg: Config, s: State, in_: Input, g: string, n: string)
    requires StateOk(s) && Publishes(cfg, s, in_) && NotPruned(cfg, n)
    requires g in in_.groups && n in in_.ShippedBy(g) && n in in_.image
    ensures n in NewList(cfg, s, in_, g) <==> !NewCancels(cfg, s, in_, g, n)
    ensures n in NewList(cfg, s, in_, g) ==> ShippedIn(Step(cfg, s, in_), g, n, in_.image[n].kind.Regular?)
  {
    hide FullManifest, StateOk, Sensible, LoopOk, JobOk, Job.Process, JobOf, BundleTurn, OldBundle, AtTurn, NotPruned,
      Step, CreateUpdate, Closure, NewIncludeMap, Matches, Part;
    var left := ReleaseTurn(cfg, s, in_, g);
    var r := AtTurn(cfg, s, in_, g);
    var end :| Comes(cfg, s, in_, g, left, r, end) && end.bundles == Step(cfg, s, in_).bundles;
    var full := FullManifest(cfg, s, in_);
    var job := JobOf(s, in_, full, g, r);
    assert ([g] + left)[0] == g;
    TurnPublishes(cfg, s, in_, full, g, r);
    JobIsOk(cfg, s, in_, [g] + left, g, r);
    NewListed(cfg, s, in_, g, left, r, n);
    if n in job.new_ {
      JobShips(job, cfg, n);
      JobPublishes(job, cfg, OldBundle(s, in_, g).entries, n);
      NewItem(cfg, s, in_, [g] + left, g, r, n);
    }
  }

  lemma RunShipsUncancelled(cfg: Config, inputs: seq<Input>, in_: Input)
    ensures ShipsUncancelled(cfg, Run(cfg, inputs), in_, Run(cfg, inputs + [in_]))
  {
    hide Publishes, Step, StateOk, NewCancels, NotPruned, ShippedIn, NewList;
    RunOk(cfg, inputs);
    var s := Run(cfg, inputs);
    OneMoreBuild(cfg, inputs, in_);
    if Publishes(cfg, s, in_) {
      forall g, n | g in in_.groups && n in in_.ShippedBy(g) && n in in_.image && NotPruned(cfg, n)
        ensures n in NewList(cfg, s, in_, g) <==> !NewCancels(cfg, s, in_, g, n)
        ensures n in NewList(cfg, s, in_, g) ==> ShippedIn(Step(cfg, s, in_), g, n, in_.image[n].kind.Regular?)
      {
        ReleaseShips(cfg, s, in_, g, n);
      }
    }
  }
}
