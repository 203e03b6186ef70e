/** What the image ships in a bundle, the published manifests ship: by the bundle, or by one that it
    includes. Subtraction, matching, renames, pruning and staying at the old version lose nothing together. */
module Shipping {
  import opened Sorting
  import opened Files
  import opened Heuristics
  import opened Matching
  import opened Pruning
  import opened Subtraction
  import opened IncludeLists
  import opened Release
  import opened Availability
  import opened Lifecycle

  /** A name whose entries come and go with the image only. */
  predicate Plain(cfg: Config, n: string) {
    !BootPath(n) && NotPruned(cfg, n)
  }

  /** A name that no ghost can cancel in this build: not a boot file, or a regular one. */
  predicate Sheltered(cfg: Config, in_: Input, n: string) {
    NotPruned(cfg, n) && (BootPath(n) && n in in_.image ==> in_.image[n].kind.Regular?)
  }

  lemma PlainIsSheltered(cfg: Config, in_: Input, n: string)
    requires Plain(cfg, n)
    ensures Sheltered(cfg, in_, n)
  {
  }

  lemma PlainIs(cfg: Config, n: string)
    ensures Plain(cfg, n) <==> !BootPath(n) && NotPruned(cfg, n)
  {
  }

  // ----- one job -----

  /** Processing neither drops nor adds a shipped file. */
  lemma JobShips(job: Job, cfg: Config, n: string)
    requires JobOk(job) && !job.Process(cfg).Failed? && (n in job.new_ ==> NotPruned(cfg, n))
    ensures var w := job.Process(cfg).work;
      && (n in w && w[n].Live() <==> n in job.new_)
      && (n in job.new_ ==> w[n].isFile == job.new_[n].isFile)
  {
    hide Job.Matched, Job.Pruned, JobOk, NotPruned, Job.WorthWriting, RenamesAllowed, TypesOk, Job.WithoutGhosts,
      Traced;
    var w := job.Process(cfg).work;
    if job.Same(cfg) {
      if n in job.new_ {
        ShippedMatch(job, cfg, n);
      }
      if n in w {
        MatchedName(job, cfg, n);
        LiveIsNew(job, n, w[n]);
      }
    } else {
      if n in job.new_ {
        ShippedRemains(job, cfg, n);
        ShippedName(job, cfg, n);
      }
      if n in w {
        PrunedName(job, cfg, n);
        LiveIsNew(job, n, w[n]);
      }
    }
  }

  lemma LiveIsNew(job: Job, n: string, e: Entry)
    ensures Traced(job, n, e) ==> n in job.new_
  {
  }

  lemma NewIsLive(job: Job, n: string)
    requires JobOk(job) && n in job.new_
    ensures job.new_[n].Live()
  {
  }

  /** Only boot files are ever ghosted, and a ghost has no type bits. */
  lemma JobGhost(job: Job, cfg: Config, n: string)
    requires JobOk(job) && !job.Process(cfg).Failed? && n in job.Process(cfg).work && job.Process(cfg).work[n].isGhosted
    ensures BootPath(n) && !job.Process(cfg).work[n].isFile
  {
    hide Job.Matched, Job.Pruned, NotPruned, Job.WorthWriting, RenamesAllowed, TypesOk, Job.WithoutGhosts, Traced,
      ConfigPath, StatePath, BootPath;
    if job.Same(cfg) {
      MatchedName(job, cfg, n);
    } else {
      PrunedName(job, cfg, n);
    }
  }

  lemma NoDifference(job: Job, cfg: Config, n: string)
    requires job.Same(cfg) && n in job.new_
    ensures n in job.old_ && n !in Differences(job.old_, job.new_, cfg.minversion)
  {
    var d := Differences(job.old_, job.new_, cfg.minversion);
    assert d == {};
    assert n !in d;
  }

  /** What the new MoM names for the component ships all that the component ships. */
  lemma JobPublishes(job: Job, cfg: Config, old_: Entries, n: string)
    requires JobOk(job) && !job.Process(cfg).Failed? && Part(job.old_, old_)
    requires n in job.Process(cfg).work && job.Process(cfg).work[n].Live() && (n in job.new_ ==> NotPruned(cfg, n))
    ensures var p := job.Process(cfg); var m := if p.Kept? then old_ else p.work;
      n in m && m[n].Live() && m[n].isFile == p.work[n].isFile
  {
    hide Job.Matched, Job.Pruned, NotPruned, RenamesAllowed, TypesOk, Job.WithoutGhosts, JobOk;
    var p := job.Process(cfg);
    JobShips(job, cfg, n);
    if job.Same(cfg) {
      NoDifference(job, cfg, n);
      SameName(job, cfg, n);
    } else if p.Kept? {
      PrunedName(job, cfg, n);
      assert n !in NewFiles(job.Pruned(cfg), job.version);
    }
  }

  // ----- the bundle loop, for one name -----

  /** The new MoM's manifests ship the name where the bundles whose turn is over ship it. */
  ghost predicate Delivered(left: seq<string>, newWork: Work, bundles: map<string, Published>, n: string) {
    forall g | g in newWork && g !in left && n in newWork[g] && newWork[g][n].Live() ::
      g in bundles && n in bundles[g].entries && bundles[g].entries[n].Live() &&
        bundles[g].entries[n].isFile == newWork[g][n].isFile
  }

  /** Rewriting a bundle's own entries without touching what subtraction looks at changes nothing for it. */
  predicate LooksAlike(a: Entries, b: Entries) {
    a.Keys == b.Keys && forall n | n in a ::
      a[n].Live() == b[n].Live() && a[n].isFile == b[n].isFile && a[n].isDeleted == b[n].isDeleted
  }

  lemma CancelledAlike(work: Work, inc: Includes, g: string, m: Entries, n: string)
    requires g in work && LooksAlike(m, work[g]) && g !in Closure(inc, g)
    ensures CancelledIn(work[g := m], inc, g, n) <==> CancelledIn(work, inc, g, n)
  {
    hide Closure;
    if CancelledIn(work, inc, g, n) {
      var c :| c in Closure(inc, g) && c in work && n in work[c] && Cancels(work[g][n], work[c][n]);
      assert work[g := m][c] == work[c];
    }
    if CancelledIn(work[g := m], inc, g, n) {
      var c :| c in Closure(inc, g) && c in work && n in work[g := m][c] && Cancels(m[n], work[g := m][c][n]);
      assert work[g := m][c] == work[c];
    }
  }

  lemma SubtractShipped(work: Work, inc: Includes, g: string, m: Entries)
    requires g in work && LooksAlike(m, work[g]) && g !in Closure(inc, g)
    ensures Shipped(SubtractIncludes(work[g := m], inc, g)) == Shipped(SubtractIncludes(work, inc, g))
  {
    hide Closure, CancelledIn;
    forall n | n in m
      ensures CancelledIn(work[g := m], inc, g, n) <==> CancelledIn(work, inc, g, n)
    {
      CancelledAlike(work, inc, g, m, n);
    }
  }

  lemma NothingIncluded(work: Work, inc: Includes, g: string)
    requires g in work && g in inc && inc[g] == []
    ensures SubtractIncludes(work, inc, g) == work[g]
  {
    hide Reaches;
    forall c | c in Closure(inc, g)
      ensures false
    {
      var x := FirstStep(inc, g, c);
    }
  }

  lemma Hashed(m: Entries, full: Entries)
    ensures LooksAlike(Marked(AddHashes(m, full)), m)
  {
    hide ConfigPath, StatePath, BootPath;
  }

  lemma NotInOwnClosure(inc: Includes, rank: map<string, nat>, g: string)
    requires Ranked(inc, rank)
    ensures g !in Closure(inc, g)
  {
    hide Ranked, Reaches;
    if g in Closure(inc, g) {
      ReachesDown(inc, rank, g, g);
    }
  }

  /** A job's new side, as far as shipped names go, is what subtraction leaves. */
  lemma JobSubtracts(s: State, in_: Input, full: Entries, g: string, r: Progressing, rank: map<string, nat>)
    requires r.Running? && g in r.oldWork && g in r.newWork && Ranked(NewIncludeMap(in_), rank)
    requires r.newWork.Keys == NewIncludeMap(in_).Keys
    ensures Shipped(JobOf(s, in_, full, g, r).new_) == Shipped(SubtractIncludes(r.newWork, NewIncludeMap(in_), g))
  {
    hide AddHashes, Marked, SubtractIncludes, Ranked, Closure, OldIncludeMap, NewIncludes;
    var inc := NewIncludeMap(in_);
    var m := Marked(AddHashes(r.newWork[g], full));
    Hashed(r.newWork[g], full);
    NotInOwnClosure(inc, rank, g);
    SubtractShipped(r.newWork, inc, g, m);
    if g == CORE {
      NothingIncluded(r.newWork[g := m], inc, g);
    }
  }

  lemma SameShipped(a: Entries, b: Entries, n: string)
    requires n in a && a[n].Live() <==> n in b && b[n].Live()
    requires n in a && n in b && a[n].Live() ==> a[n].isFile == b[n].isFile
    ensures Shipped(Only(a, n)) == Shipped(Only(b, n))
  {
  }

  lemma ShelteredIs(cfg: Config, in_: Input, n: string)
    requires Sheltered(cfg, in_, n)
    ensures NotPruned(cfg, n)
  {
  }

  lemma OnlyShipped(a: Entries, b: Entries, n: string)
    requires Shipped(a) == Shipped(b)
    ensures Shipped(Only(a, n)) == Shipped(Only(b, n))
  {
    assert n in Shipped(a) <==> n in a && a[n].Live();
    assert n in Shipped(b) <==> n in b && b[n].Live();
    forall k
      ensures k in Shipped(Only(a, n)) <==> k in Shipped(Only(b, n))
      ensures k in Shipped(Only(a, n)) ==> Shipped(Only(a, n))[k] == Shipped(Only(b, n))[k]
    {
      if k == n && n in Shipped(a) {
        assert Shipped(a)[n] == Shipped(b)[n];
      }
    }
  }

  /** The bundles as they are walked. */
  function RawWork(in_: Input): (r: Work)
    ensures forall g :: g in r <==> g in in_.groups
  {
    map g | g in in_.groups :: BundleRaw(in_.image, in_.ShippedBy(g), in_.version)
  }

  lemma GhostIsHarmless(cfg: Config, in_: Input, w: Entries, n: string)
    requires Sheltered(cfg, in_, n) && (n in w && w[n].isGhosted ==> BootPath(n) && !w[n].isFile)
    ensures Harmless(OnlyIn(RawWork(in_), n), Only(w, n))
  {
    hide BootPath, NotPruned;
  }

  /** A processed job, seen through one name, is a turn of subtraction. */
  lemma JobIsTurn(cfg: Config, in_: Input, job: Job, inc: Includes, g: string, work: Work, n: string)
    requires JobOk(job) && !job.Process(cfg).Failed? && Sheltered(cfg, in_, n) && g in work
    requires Shipped(job.new_) == Shipped(SubtractIncludes(work, inc, g))
    ensures Turn(OnlyIn(RawWork(in_), n), inc, g, OnlyIn(work, n), OnlyIn(work[g := job.Process(cfg).work], n))
  {
    hide JobOk, Job.Process, NotPruned, BootPath, SubtractIncludes, RawWork, Harmless, Shipped, Only, Sheltered;
    ShelteredIs(cfg, in_, n);
    var w := job.Process(cfg).work;
    JobShips(job, cfg, n);
    if n in w && w[n].isGhosted {
      JobGhost(job, cfg, n);
    }
    GhostIsHarmless(cfg, in_, w, n);
    if n in job.new_ {
      NewIsLive(job, n);
    }
    SameShipped(w, job.new_, n);
    OnlyShipped(job.new_, SubtractIncludes(work, inc, g), n);
    OnlySubtract(work, inc, g, n);
    assert OnlyIn(work[g := w], n) == OnlyIn(work, n)[g := Only(w, n)];
  }

  /** One bundle's turn in the release: a turn of subtraction, which the MoM delivers. */
  lemma TurnShips(cfg: Config, s: State, in_: Input, left: seq<string>, g: string, r: Progressing,
      rank: map<string, nat>, n: string)
    requires StateOk(s) && Sensible(s, in_) && g in in_.groups && g !in left && LoopOk(cfg, s, in_, [g] + left, r)
    requires Sheltered(cfg, in_, n) && Ranked(NewIncludeMap(in_), rank) && r.newWork.Keys == NewIncludeMap(in_).Keys
    requires Delivered([g] + left, r.newWork, r.bundles, n)
    requires BundleTurn(cfg, s, in_, FullManifest(cfg, s, in_), g, r).Running?
    ensures var r' := BundleTurn(cfg, s, in_, FullManifest(cfg, s, in_), g, r);
      && Turn(OnlyIn(RawWork(in_), n), NewIncludeMap(in_), g, OnlyIn(r.newWork, n), OnlyIn(r'.newWork, n))
      && Delivered(left, r'.newWork, r'.bundles, n) && r'.newWork.Keys == r.newWork.Keys
  {
    hide FullManifest, StateOk, Sensible, LoopOk, JobOk, NotPruned, BootPath, JobOf, OldBundle, Ranked,
      SubtractIncludes, Shipped, Part, Job.Process, NewIncludeMap, Turn;
    var full := FullManifest(cfg, s, in_);
    var job := JobOf(s, in_, full, g, r);
    JobIsOk(cfg, s, in_, [g] + left, g, r);
    JobSubtracts(s, in_, full, g, r, rank);
    var p := job.Process(cfg);
    var r' := BundleTurn(cfg, s, in_, full, g, r);
    assert r'.newWork == r.newWork[g := p.work];
    JobIsTurn(cfg, in_, job, NewIncludeMap(in_), g, r.newWork, n);
    if n in p.work && p.work[n].Live() {
      JobPublishes(job, cfg, OldBundle(s, in_, g).entries, n);
    }
    DeliveredTurn(left, g, r.newWork, r.bundles, p.work, r'.bundles[g], n);
    assert r'.bundles == r.bundles[g := r'.bundles[g]];
  }

  lemma DeliveredTurn(left: seq<string>, g: string, newWork: Work, bundles: map<string, Published>, w: Entries,
      m: Published, n: string)
    requires Delivered([g] + left, newWork, bundles, n) && g !in left
    requires n in w && w[n].Live() ==> n in m.entries && m.entries[n].Live() && m.entries[n].isFile == w[n].isFile
    ensures Delivered(left, newWork[g := w], bundles[g := m], n)
  {
    assert forall x :: x in [g] + left <==> x == g || x in left;
  }

  /** The works of a whole loop, seen through one name. */
  lemma {:induction false} LoopPasses(cfg: Config, s: State, in_: Input, groups: seq<string>, r: Progressing,
      rank: map<string, nat>, n: string)
    returns (works: seq<Work>)
    requires StateOk(s) && Sensible(s, in_) && Distinct(groups) && (forall g | g in groups :: g in in_.groups)
    requires r.Running? && LoopOk(cfg, s, in_, groups, r) && Sheltered(cfg, in_, n) && Ranked(NewIncludeMap(in_), rank)
    requires r.newWork.Keys == NewIncludeMap(in_).Keys && Delivered(groups, r.newWork, r.bundles, n)
    requires BundleTurns(cfg, s, in_, FullManifest(cfg, s, in_), groups, r).Running?
    ensures var r' := BundleTurns(cfg, s, in_, FullManifest(cfg, s, in_), groups, r);
      && Pass(OnlyIn(RawWork(in_), n), NewIncludeMap(in_), groups, works) && |works| == |groups| + 1
      && works[0] == OnlyIn(r.newWork, n) && works[|groups|] == OnlyIn(r'.newWork, n)
      && Delivered([], r'.newWork, r'.bundles, n)
    decreases |groups|
  {
    hide FullManifest, StateOk, Sensible, LoopOk, BundleTurn, Sheltered, RawWork, Ranked, Turn, NewIncludeMap,
      Delivered, OnlyIn;
    if groups == [] {
      works := [OnlyIn(r.newWork, n)];
    } else {
      var full := FullManifest(cfg, s, in_);
      var g, left := groups[0], groups[1..];
      assert groups == [g] + left;
      assert g !in left by {
        assert forall i | 0 < i < |groups| :: groups[i] != groups[0];
      }
      var r' := BundleTurn(cfg, s, in_, full, g, r);
      if r'.Stopped? {
        StoppedStays(cfg, s, in_, full, left);
        assert false;
      } else {
        TurnShips(cfg, s, in_, left, g, r, rank, n);
        TurnOk(cfg, s, in_, left, g, r);
        var later := LoopPasses(cfg, s, in_, left, r', rank, n);
        works := [OnlyIn(r.newWork, n)] + later;
        PassExtends(OnlyIn(RawWork(in_), n), NewIncludeMap(in_), g, left, OnlyIn(r.newWork, n), later);
      }
    }
  }

  lemma PassExtends(raw: Work, inc: Includes, g: string, left: seq<string>, work: Work, later: seq<Work>)
    requires Pass(raw, inc, left, later) && Turn(raw, inc, g, work, later[0])
    ensures Pass(raw, inc, [g] + left, [work] + later)
  {
    hide Turn;
    var order, works := [g] + left, [work] + later;
    forall i | 0 <= i < |order|
      ensures Turn(raw, inc, order[i], works[i], works[i + 1])
    {
      if i > 0 {
        assert order[i] == left[i - 1] && works[i] == later[i - 1] && works[i + 1] == later[i];
      }
    }
  }

  lemma AllGroups(groups: seq<string>)
    requires CORE in groups
    ensures forall g :: g in [CORE] + Others(groups) <==> g in groups
  {
  }

  lemma RawFacts(s: State, in_: Input, n: string)
    ensures var r := BeginBundles(s, in_);
      && r.Running? && r.newWork == RawWork(in_) && r.newWork.Keys == NewIncludeMap(in_).Keys && r.bundles == map[]
    ensures forall g | g in RawWork(in_) :: Typical(OnlyIn(RawWork(in_), n)[g])
    ensures forall g | g in in_.groups ::
      && (n in RawWork(in_)[g] <==> n in in_.ShippedBy(g) && n in in_.image)
      && (n in RawWork(in_)[g] ==> RawWork(in_)[g][n].isFile == in_.image[n].kind.Regular? && RawWork(in_)[g][n].Live())
      && (n in RawWork(in_)[g] ==>
           n in OnlyIn(RawWork(in_), n)[g] && OnlyIn(RawWork(in_), n)[g][n] == RawWork(in_)[g][n])
  {
    hide NewIncludes;
  }

  lemma NothingDelivered(s: State, in_: Input, groups: seq<string>, n: string)
    requires forall g | g in in_.groups :: g in groups
    ensures Delivered(groups, RawWork(in_), map[], n)
  {
  }

  lemma SensibleCore(s: State, in_: Input)
    requires Sensible(s, in_)
    ensures CORE in in_.groups && in_.ShippedBy(CORE) <= in_.image.Keys && Distinct(in_.groups)
  {
  }

  lemma LoopRuns(cfg: Config, s: State, in_: Input, r: Progressing)
    requires LoopOk(cfg, s, in_, [], r)
    ensures r.Running?
  {
  }

  ghost predicate Publishes(cfg: Config, s: State, in_: Input) {
    Sensible(s, in_) && CreateUpdate(cfg, s, in_).Some?
  }

  /** The bundle's manifest ships the file. */
  ghost predicate ShippedIn(s: State, c: string, n: string, isFile: bool) {
    c in s.bundles && n in s.bundles[c].entries && s.bundles[c].entries[n].Live() &&
      s.bundles[c].entries[n].isFile == isFile
  }

  lemma OnlyLast(work: Work, c: string, n: string, isFile: bool)
    requires ShipsAs(OnlyIn(work, n), c, n, isFile)
    ensures ShipsAs(work, c, n, isFile)
  {
  }

  lemma DeliveredAll(newWork: Work, bundles: map<string, Published>, c: string, n: string, isFile: bool)
    requires Delivered([], newWork, bundles, n) && ShipsAs(newWork, c, n, isFile)
    ensures c in bundles && n in bundles[c].entries && bundles[c].entries[n].Live()
    ensures bundles[c].entries[n].isFile == isFile
  {
  }

  /** From end to end: after a release with acyclic includes, every file that the build put into a bundle is
      shipped, as a regular file or not just as it was, by the manifest that the new MoM names for that
      bundle or for one of the bundles it includes; unless it is banned, or a directory or link among the boot files,
      which a ghost can cancel. */
  lemma ReleaseLosesNothing(cfg: Config, s: State, in_: Input, rank: map<string, nat>, g: string, n: string)
    requires StateOk(s) && Publishes(cfg, s, in_) && Sheltered(cfg, in_, n) && Ranked(NewIncludeMap(in_), rank)
    requires g in in_.groups && n in in_.ShippedBy(g) && n in in_.image
    ensures exists c ::
      && (c == g || c in Closure(NewIncludeMap(in_), g))
      && ShippedIn(Step(cfg, s, in_), c, n, in_.image[n].kind.Regular?)
  {
    hide FullManifest, StateOk, LoopOk, CreateUpdate, BundleTurns, Step, Sheltered, Ranked, BeginBundles, NewIncludeMap,
      Closure, Pass, Typical, Sensible, RawWork, OnlyIn, Delivered, ShipsAs;
    var inc := NewIncludeMap(in_);
    var r := StepLoop(cfg, s, in_);
    SensibleCore(s, in_);
    AllGroups(in_.groups);
    OthersDistinct(in_.groups);
    var groups := [CORE] + Others(in_.groups);
    LoopStarts(cfg, s, in_, groups);
    LoopRuns(cfg, s, in_, r);
    RawFacts(s, in_, n);
    NothingDelivered(s, in_, groups, n);
    var works := LoopPasses(cfg, s, in_, groups, BeginBundles(s, in_), rank, n);
    NothingIsLost(inc, rank, groups, works, g, n);
    var raw: Entries := works[0][g];
    var c :| (c == g || c in Closure(inc, g)) && ShipsAs(works[|groups|], c, n, raw[n].isFile);
    OnlyLast(r.newWork, c, n, raw[n].isFile);
    DeliveredAll(r.newWork, r.bundles, c, n, raw[n].isFile);
    assert ShippedIn(Step(cfg, s, in_), c, n, in_.image[n].kind.Regular?);
  }

  ghost predicate Acyclic(in_: Input) {
    exists rank: map<string, nat> :: Ranked(NewIncludeMap(in_), rank)
  }

  /** If the build is published, everything that it put into a bundle is shipped by that bundle's manifest or
      by one that it includes. */
  ghost predicate LosesNothing(cfg: Config, s: State, in_: Input, s': State) {
    Publishes(cfg, s, in_) && Acyclic(in_) ==>
      forall g, n | g in in_.groups && n in in_.ShippedBy(g) && n in in_.image && Sheltered(cfg, in_, n) ::
        exists c :: (c == g || c in Closure(NewIncludeMap(in_), g)) && ShippedIn(s', c, n, in_.image[n].kind.Regular?)
  }

  /** The same over every sequence of builds. */
  lemma RunLosesNothing(cfg: Config, inputs: seq<Input>, in_: Input)
    ensures LosesNothing(cfg, Run(cfg, inputs), in_, Run(cfg, inputs + [in_]))
  {
    hide Publishes, Sheltered, Ranked, Step, Closure, StateOk, ShippedIn, NewIncludeMap;
    RunOk(cfg, inputs);
    var s, all := Run(cfg, inputs), inputs + [in_];
    assert all[..|all| - 1] == inputs && all[|all| - 1] == in_;
    assert Run(cfg, all) == Step(cfg, s, in_);
    if Publishes(cfg, s, in_) && Acyclic(in_) {
      var rank: map<string, nat> :| Ranked(NewIncludeMap(in_), rank);
      forall g, n | g in in_.groups && n in in_.ShippedBy(g) && n in in_.image && Sheltered(cfg, in_, n)
        ensures exists c ::
          && (c == g || c in Closure(NewIncludeMap(in_), g))
          && ShippedIn(Step(cfg, s, in_), c, n, in_.image[n].kind.Regular?)
      {
        ReleaseLosesNothing(cfg, s, in_, rank, g, n);
      }
    }
  }
}
