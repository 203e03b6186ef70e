/** Which files that a build put into a bundle no manifest lists: exactly the boot directories and links that meet a
    fresh ghost of an included bundle; said about the last published manifests and the build's input alone. */
module Losses {
  import opened Sorting
  import opened Files
  import opened Heuristics
  import opened Matching
  import opened Pruning
  import opened Subtraction
  import opened IncludeLists
  import opened Release
  import opened Availability
  import opened Lifecycle
  import opened Shipping
  import opened History
  import opened Ghosts

  // ----- the order of the loop -----

  /** The bundles in the order in which they have their turns. */
  function Order(in_: Input): seq<string> {
    [CORE] + Others(in_.groups)
  }

  /** The first `g` of the list has `c` somewhere before it. */
  predicate Before(groups: seq<string>, c: string, g: string) {
    groups != [] && groups[0] != g && (groups[0] == c || Before(groups[1..], c, g))
  }

  lemma {:induction false} BeforeTwice(groups: seq<string>, d: string, c: string, g: string)
    requires Before(groups, d, c) && Before(groups, c, g)
    ensures Before(groups, d, g)
  {
    if groups[0] != d {
      BeforeTwice(groups[1..], d, c, g);
    }
  }

  lemma {:induction false} BeforeIsIn(groups: seq<string>, c: string, g: string)
    requires Before(groups, c, g)
    ensures c in groups
  {
    if groups[0] != c {
      BeforeIsIn(groups[1..], c, g);
    }
  }

  /** A turn rewrites one list. */
  lemma OneWork(cfg: Config, s: State, in_: Input, full: Entries, x: string, r: Progressing)
    requires r.Running? && BundleTurn(cfg, s, in_, full, x, r).Running?
    ensures var r' := BundleTurn(cfg, s, in_, full, x, r);
      x in r'.newWork && forall c | c in r.newWork && c != x :: c in r'.newWork && r'.newWork[c] == r.newWork[c]
  {
    hide JobOf, Job.Process, OldBundle;
  }

  /** What a bundle's list is when another one has its turn: what its own turn left, or what was put in. */
  lemma {:induction false} WorkAt(cfg: Config, s: State, in_: Input, full: Entries, groups: seq<string>, g: string,
      c: string, r: Progressing)
    requires Distinct(groups) && r.Running? && c in r.newWork && UpTo(cfg, s, in_, full, groups, g, r).Running?
    ensures var t := UpTo(cfg, s, in_, full, groups, g, r);
      c in t.newWork &&
      if Before(groups, c, g) then
        var u := BundleTurn(cfg, s, in_, full, c, UpTo(cfg, s, in_, full, groups, c, r));
        u.Running? && c in u.newWork && t.newWork[c] == u.newWork[c]
      else t.newWork[c] == r.newWork[c]
    decreases |groups|
  {
    hide BundleTurn;
    if groups != [] && groups[0] != g {
      var x, rest := groups[0], groups[1..];
      assert x !in rest by {
        assert forall i | 0 < i < |groups| :: groups[i] != groups[0];
      }
      var r' := BundleTurn(cfg, s, in_, full, x, r);
      if r'.Stopped? {
        UpToStopped(cfg, s, in_, full, rest, g);
        assert false;
      } else {
        OneWork(cfg, s, in_, full, x, r);
        WorkAt(cfg, s, in_, full, rest, g, c, r');
        if x == c && Before(rest, c, g) {
          BeforeIsIn(rest, c, g);
          assert false;
        }
      }
    }
  }

  // ----- what a turn leaves -----

  /** A ghost in a processed list is of this release, and so the list was written. */
  lemma WorkGhost(job: Job, cfg: Config, n: string)
    requires JobOk(job) && !job.Process(cfg).Failed? && n in job.Process(cfg).work && job.Process(cfg).work[n].isGhosted
    ensures var p := job.Process(cfg);
      p.Written? && BootPath(n) && p.work[n].lastChange == job.version && !p.work[n].isDeleted && !p.work[n].isFile
  {
    hide JobOk, Job.Matched, Job.Pruned, Job.Acceptable, AnyPrefix, ConfigPath, StatePath, BootPath, ZERO_HASH;
    JobGhost(job, cfg, n);
    if job.Same(cfg) {
      MatchedName(job, cfg, n);
      OldGhostDiffers(job, cfg, n);
      assert false;
    } else {
      FreshGhost(job, cfg, n);
      assert n in NewFiles(job.Pruned(cfg), job.version);
    }
  }

  lemma OldGhostDiffers(job: Job, cfg: Config, n: string)
    requires JobOk(job) && n in job.old_ && job.old_[n].isGhosted && n !in job.new_
    ensures |Differences(job.old_, job.new_, cfg.minversion)| != 0
  {
    hide JobOk, Unchanged;
    OldIsOld(job, n);
    assert n in Differences(job.old_, job.new_, cfg.minversion);
  }

  lemma FreshGhost(job: Job, cfg: Config, n: string)
    requires JobOk(job) && !job.Same(cfg) && job.Acceptable(cfg)
    requires n in job.Pruned(cfg) && job.Pruned(cfg)[n].isGhosted
    ensures job.Pruned(cfg)[n].lastChange == job.version && !job.Pruned(cfg)[n].isDeleted
  {
    hide JobOk, Job.Matched, Job.WithoutGhosts, Job.Pruned, AnyPrefix, ConfigPath, StatePath, BootPath, ZERO_HASH,
      RenamesAllowed, TypesOk;
    PrunedName(job, cfg, n);
    PrunedFrom(job, cfg, n);
    RemainingName(job, cfg, n);
    MatchedName(job, cfg, n);
    if n in job.new_ {
      ShippedName(job, cfg, n);
      assert false;
    } else {
      DeadName(job, cfg, n);
      BootNotDeleted(job, n);
    }
  }

  lemma BootNotDeleted(job: Job, n: string)
    requires JobOk(job) && n in job.old_
    ensures BootPath(n) ==> !job.old_[n].isDeleted
  {
    hide ConfigPath, StatePath, BootPath, ZERO_HASH;
  }

  /** A bundle's list right after its turn. */
  ghost function AfterTurn(cfg: Config, s: State, in_: Input, c: string): Progressing {
    BundleTurn(cfg, s, in_, FullManifest(cfg, s, in_), c, AtTurn(cfg, s, in_, c))
  }

  predicate FileBit(in_: Input, n: string, isFile: bool) {
    n in in_.image && isFile == in_.image[n].kind.Regular?
  }

  /** What a processed list can cancel: what it ships, and, of names without is_file bit, what it just ghosted. */
  ghost predicate Stands(cfg: Config, s: State, in_: Input, c: string, n: string, isFile: bool) {
    || (n in NewList(cfg, s, in_, c) && FileBit(in_, n, isFile))
    || (!isFile && GhostedSince(EntriesOf(Step(cfg, s, in_), c), n, in_.version))
  }

  lemma JobMatches(job: Job, cfg: Config, in_: Input, m: Entries, n: string, isFile: bool)
    requires JobOk(job) && !job.Process(cfg).Failed? && NotPruned(cfg, n) && job.version == in_.version
    requires n in job.new_ ==> FileBit(in_, n, job.new_[n].isFile)
    requires if job.Process(cfg).Kept? then n in m ==> m[n].lastChange < in_.version else m == job.Process(cfg).work
    ensures var w := job.Process(cfg).work;
      n in w && !w[n].isDeleted && w[n].isFile == isFile <==>
        (n in job.new_ && FileBit(in_, n, isFile)) || (!isFile && GhostedSince(m, n, in_.version))
  {
    hide JobOk, Job.Process, NotPruned, BootPath;
    var w := job.Process(cfg).work;
    JobShips(job, cfg, n);
    if n in w && w[n].isGhosted {
      WorkGhost(job, cfg, n);
    }
  }

  lemma OwnWork(cfg: Config, s: State, in_: Input, c: string, n: string, isFile: bool)
    requires StateOk(s) && Publishes(cfg, s, in_) && c in in_.groups && NotPruned(cfg, n)
    ensures var u := AfterTurn(cfg, s, in_, c);
      u.Running? && (Matches(u.newWork, c, n, isFile) <==> Stands(cfg, s, in_, c, n, isFile))
  {
    hide FullManifest, StateOk, Sensible, LoopOk, JobOk, Job.Process, JobOf, BundleTurn, OldBundle, AtTurn, NotPruned,
      Step, CreateUpdate, Part, GhostedSince, EntriesOf;
    var left := ReleaseTurn(cfg, s, in_, c);
    var r := AtTurn(cfg, s, in_, c);
    var end :| Comes(cfg, s, in_, c, left, r, end) && end.bundles == Step(cfg, s, in_).bundles;
    TurnPublishes(cfg, s, in_, FullManifest(cfg, s, in_), c, r);
    var job := PublishedJob(cfg, s, in_, c);
    if n in job.new_ {
      assert ([c] + left)[0] == c;
      NewItem(cfg, s, in_, [c] + left, c, r, n);
    }
    var m := EntriesOf(Step(cfg, s, in_), c);
    if job.Process(cfg).Kept? && n in m {
      IsOld(s, in_, c, n);
    }
    JobMatches(job, cfg, in_, m, n, isFile);
  }

  lemma IsOld(s: State, in_: Input, c: string, n: string)
    requires StateOk(s) && Sensible(s, in_) && n in EntriesOf(s, c)
    ensures EntriesOf(s, c)[n].lastChange < in_.version
  {
    hide StateOk, Sensible, WrittenOk, EntriesOf;
    OldEntriesOf(s, in_, c);
    OldBundleRecord(s, in_, c, n);
  }

  // ----- what cancels what a build put in -----

  /** What cancels the name in `g`, whose turn comes, on the part of `c`. */
  ghost predicate InTheWay(cfg: Config, s: State, in_: Input, g: string, c: string, n: string, isFile: bool) {
    if Before(Order(in_), c, g) then Stands(cfg, s, in_, c, n, isFile)
    else n in in_.ShippedBy(c) && FileBit(in_, n, isFile)
  }

  lemma RawMatches(s: State, in_: Input, c: string, n: string, isFile: bool)
    requires c in in_.groups
    ensures var r := BeginBundles(s, in_);
      && r.Running? && c in r.newWork
      && (Matches(r.newWork, c, n, isFile) <==> n in in_.ShippedBy(c) && FileBit(in_, n, isFile))
  {
    hide RawWork, BeginBundles, OnlyIn, NewIncludeMap;
    RawFacts(s, in_, n);
  }

  lemma TurnIsReached(cfg: Config, s: State, in_: Input, g: string)
    requires StateOk(s) && Publishes(cfg, s, in_) && g in in_.groups
    ensures AtTurn(cfg, s, in_, g).Running? && Distinct(Order(in_))
  {
    hide FullManifest, StateOk, Sensible, LoopOk, BundleTurn, OldBundle, AtTurn, Step, CreateUpdate, BeginBundles;
    var left := ReleaseTurn(cfg, s, in_, g);
    SensibleCore(s, in_);
    OthersDistinct(in_.groups);
  }

  lemma AtTurnMatches(cfg: Config, s: State, in_: Input, g: string, c: string, n: string, isFile: bool)
    requires StateOk(s) && Publishes(cfg, s, in_) && g in in_.groups && c in in_.groups && NotPruned(cfg, n)
    ensures var r := AtTurn(cfg, s, in_, g);
      r.Running? && (Matches(r.newWork, c, n, isFile) <==> InTheWay(cfg, s, in_, g, c, n, isFile))
  {
    hide FullManifest, StateOk, Publishes, BundleTurn, UpTo, NotPruned, Stands, BeginBundles, Before, FileBit, Others,
      Distinct, CORE;
    TurnIsReached(cfg, s, in_, g);
    RawMatches(s, in_, c, n, isFile);
    WorkAt(cfg, s, in_, FullManifest(cfg, s, in_), Order(in_), g, c, BeginBundles(s, in_));
    OwnWork(cfg, s, in_, c, n, isFile);
  }

  lemma CancelsExactly(cfg: Config, s: State, in_: Input, g: string, n: string)
    requires StateOk(s) && Publishes(cfg, s, in_) && g in in_.groups && n in in_.image && NotPruned(cfg, n)
    ensures NewCancels(cfg, s, in_, g, n) <==>
      exists c | c in Closure(NewIncludeMap(in_), g) :: InTheWay(cfg, s, in_, g, c, n, in_.image[n].kind.Regular?)
  {
    hide StateOk, Publishes, NotPruned, AtTurn, InTheWay, Matches, Closure, NewIncludeMap;
    var isFile := in_.image[n].kind.Regular?;
    Known(in_, g);
    AtTurnMatches(cfg, s, in_, g, g, n, isFile);
    forall c | c in Closure(NewIncludeMap(in_), g)
      ensures Matches(AtTurn(cfg, s, in_, g).newWork, c, n, isFile) <==> InTheWay(cfg, s, in_, g, c, n, isFile)
    {
      AtTurnMatches(cfg, s, in_, g, c, n, isFile);
    }
  }

  lemma Known(in_: Input, g: string)
    ensures forall c | c in Closure(NewIncludeMap(in_), g) :: c in in_.groups
  {
    hide Reaches;
  }

  /** A bundle lists only what was put into it. */
  lemma ListsWhatIsPut(cfg: Config, s: State, in_: Input, g: string, n: string)
    requires StateOk(s) && Publishes(cfg, s, in_) && g in in_.groups && n in NewList(cfg, s, in_, g)
    ensures n in in_.ShippedBy(g) && n in in_.image
  {
    hide FullManifest, StateOk, Sensible, LoopOk, JobOk, Job.Process, JobOf, BundleTurn, OldBundle, AtTurn, Step,
      CreateUpdate, Closure, NewIncludeMap, Part, Matches;
    var left := ReleaseTurn(cfg, s, in_, g);
    var r := AtTurn(cfg, s, in_, g);
    var end :| Comes(cfg, s, in_, g, left, r, end) && end.bundles == Step(cfg, s, in_).bundles;
    assert ([g] + left)[0] == g;
    JobIsOk(cfg, s, in_, [g] + left, g, r);
    NewListed(cfg, s, in_, g, left, r, n);
  }

  /** Of the included bundles that a name was put into, one includes no other such. */
  lemma {:induction false} Lowest(in_: Input, rank: map<string, nat>, g: string, c0: string, n: string)
    returns (c: string)
    requires Ranked(NewIncludeMap(in_), rank) && c0 in Closure(NewIncludeMap(in_), g) && n in in_.ShippedBy(c0)
    requires n in in_.image
    ensures c in Closure(NewIncludeMap(in_), g) && c in in_.groups && n in in_.ShippedBy(c)
    ensures forall d | d in Closure(NewIncludeMap(in_), c) :: n !in in_.ShippedBy(d)
    decreases if c0 in rank then rank[c0] else 0
  {
    hide Ranked, Reaches, NewIncludeMap;
    var inc := NewIncludeMap(in_);
    Known(in_, g);
    if d :| d in Closure(inc, c0) && n in in_.ShippedBy(d) {
      ReachesTransitive(inc, rank, g, c0, d);
      ReachesDown(inc, rank, c0, d);
      c := Lowest(in_, rank, g, d, n);
    } else {
      c := c0;
    }
  }

  /** If an included bundle got the name as well, then something cancels it when the turn comes. */
  lemma OverlapCancels(cfg: Config, s: State, in_: Input, rank: map<string, nat>, g: string, c0: string, n: string)
    requires StateOk(s) && Publishes(cfg, s, in_) && g in in_.groups && n in in_.image && NotPruned(cfg, n)
    requires Ranked(NewIncludeMap(in_), rank) && c0 in Closure(NewIncludeMap(in_), g) && n in in_.ShippedBy(c0)
    ensures NewCancels(cfg, s, in_, g, n)
  {
    hide StateOk, Publishes, NotPruned, NewCancels, Closure, NewIncludeMap, Ranked, Before, GhostedSince, NewList, Step;
    var isFile := in_.image[n].kind.Regular?;
    var inc := NewIncludeMap(in_);
    var c := Lowest(in_, rank, g, c0, n);
    CancelsExactly(cfg, s, in_, g, n);
    if !InTheWay(cfg, s, in_, g, c, n, isFile) {
      ReleaseShips(cfg, s, in_, c, n);
      CancelsExactly(cfg, s, in_, c, n);
      var d :| d in Closure(inc, c) && InTheWay(cfg, s, in_, c, d, n, isFile);
      Known(in_, c);
      if n in NewList(cfg, s, in_, d) {
        ListsWhatIsPut(cfg, s, in_, d, n);
        assert false;
      }
      BeforeTwice(Order(in_), d, c, g);
      Further(in_, rank, g, c, d);
      assert InTheWay(cfg, s, in_, g, d, n, isFile);
    }
  }

  lemma Further(in_: Input, rank: map<string, nat>, g: string, c: string, d: string)
    requires Ranked(NewIncludeMap(in_), rank)
    requires c in Closure(NewIncludeMap(in_), g) && d in Closure(NewIncludeMap(in_), c)
    ensures d in Closure(NewIncludeMap(in_), g)
  {
    hide Ranked, Reaches, NewIncludeMap;
    ReachesTransitive(NewIncludeMap(in_), rank, g, c, d);
  }

  // ----- who is ghosted -----

  /** A boot file that the last manifest of the bundle shipped, and none of a bundle that it included. */
  ghost predicate OwnBootFile(s: State, in_: Input, c: string, n: string) {
    BootPath(n) && n in EntriesOf(s, c) && EntriesOf(s, c)[n].Live() && !PublishedCancels(s, in_, c, n)
  }

  lemma GhostedNow(cfg: Config, s: State, in_: Input, c: string, n: string)
    requires StateOk(s) && Publishes(cfg, s, in_) && OldAcyclic(s, in_) && c in in_.groups
    requires n !in NewList(cfg, s, in_, c)
    ensures GhostedSince(EntriesOf(Step(cfg, s, in_), c), n, in_.version) <==> OwnBootFile(s, in_, c, n)
  {
    hide StateOk, Sensible, CreateUpdate, BootPath, EntriesOf, OldCancels, PublishedCancels, OldAcyclic, Step, NewList,
      JobOk, Job.Process, JobOf, AtTurn;
    var job := PublishedJob(cfg, s, in_, c);
    var m := EntriesOf(Step(cfg, s, in_), c);
    if n in EntriesOf(s, c) {
      IsOld(s, in_, c, n);
    }
    if n in EntriesOf(s, c) && BootPath(n) {
      ReleaseLivesOn(cfg, s, in_, c, n);
      CancelsAsPublished(cfg, s, in_, c, n);
    } else if GhostedSince(m, n, in_.version) {
      WorkGhost(job, cfg, n);
      NeitherNor(job, cfg, n);
      assert false;
    }
  }

  // ----- the exact condition -----

  /** A boot directory or link that an included bundle, whose turn comes earlier, ghosts in this release. */
  ghost predicate MeetsGhost(s: State, in_: Input, g: string, n: string) {
    && n in in_.image && !in_.image[n].kind.Regular?
    && exists c | c in Closure(NewIncludeMap(in_), g) && Before(Order(in_), c, g) :: OwnBootFile(s, in_, c, n)
  }

  /** Nothing but a ghost is in the way of a name that no included bundle got. */
  lemma OnlyGhosts(cfg: Config, s: State, in_: Input, g: string, n: string)
    requires StateOk(s) && Publishes(cfg, s, in_) && OldAcyclic(s, in_)
    requires g in in_.groups && n in in_.image && NotPruned(cfg, n) && Ships(in_, g, n).Some?
    ensures NewCancels(cfg, s, in_, g, n) <==> MeetsGhost(s, in_, g, n)
  {
    hide StateOk, Publishes, OldAcyclic, NotPruned, NewCancels, Closure, NewIncludeMap, Before, GhostedSince, NewList,
      Step, OwnBootFile, EntriesOf;
    var isFile := in_.image[n].kind.Regular?;
    Known(in_, g);
    CancelsExactly(cfg, s, in_, g, n);
    forall c | c in Closure(NewIncludeMap(in_), g)
      ensures InTheWay(cfg, s, in_, g, c, n, isFile) <==>
        !isFile && Before(Order(in_), c, g) && OwnBootFile(s, in_, c, n)
    {
      if n in NewList(cfg, s, in_, c) {
        ListsWhatIsPut(cfg, s, in_, c, n);
        assert false;
      } else {
        GhostedNow(cfg, s, in_, c, n);
      }
    }
  }

  lemma ListedExactly(cfg: Config, s: State, in_: Input, g: string, n: string)
    requires StateOk(s) && Publishes(cfg, s, in_) && Acyclic(in_) && OldAcyclic(s, in_)
    requires g in in_.groups && n in in_.image && NotPruned(cfg, n)
    ensures n in NewList(cfg, s, in_, g) <==> Ships(in_, g, n).Some? && !MeetsGhost(s, in_, g, n)
  {
    hide StateOk, Publishes, OldAcyclic, NotPruned, NewCancels, Closure, NewIncludeMap, NewList, MeetsGhost, Ranked;
    var rank: map<string, nat> :| Ranked(NewIncludeMap(in_), rank);
    if n !in in_.ShippedBy(g) {
      if n in NewList(cfg, s, in_, g) {
        ListsWhatIsPut(cfg, s, in_, g, n);
        assert false;
      }
    } else {
      ReleaseShips(cfg, s, in_, g, n);
      if c :| c in Closure(NewIncludeMap(in_), g) && n in in_.ShippedBy(c) {
        OverlapCancels(cfg, s, in_, rank, g, c, n);
      } else {
        OnlyGhosts(cfg, s, in_, g, n);
      }
    }
  }

  ghost predicate LiveIn(s: State, g: string, n: string) {
    n in EntriesOf(s, g) && EntriesOf(s, g)[n].Live()
  }

  /** The bundle keeps its old manifest, and that ships the name. */
  ghost predicate StaysShipped(s: State, in_: Input, s': State, g: string, n: string) {
    g in s'.bundles && s'.bundles[g].version != in_.version && LiveIn(s, g, n)
  }

  lemma ShippedExactly(cfg: Config, s: State, in_: Input, g: string, n: string)
    requires StateOk(s) && Publishes(cfg, s, in_) && g in in_.groups && NotPruned(cfg, n)
    ensures var s' := Step(cfg, s, in_);
      LiveIn(s', g, n) <==> n in NewList(cfg, s, in_, g) || StaysShipped(s, in_, s', g, n)
  {
    hide StateOk, Publishes, NotPruned, NewList, EntriesOf, Step, JobOk, Job.Process, JobOf, AtTurn, OldBundle;
    var job := PublishedJob(cfg, s, in_, g);
    JobShips(job, cfg, n);
    if n in job.new_ {
      JobPublishes(job, cfg, EntriesOf(s, g), n);
    }
  }

  ghost predicate ShippedNowhere(in_: Input, s': State, g: string, n: string) {
    forall m | m == g || m in Closure(NewIncludeMap(in_), g) :: !LiveIn(s', m, n)
  }

  ghost predicate ShipsExactly(s: State, in_: Input, s': State, g: string, n: string) {
    LiveIn(s', g, n) <==> (Ships(in_, g, n).Some? && !MeetsGhost(s, in_, g, n)) || StaysShipped(s, in_, s', g, n)
  }

  /** The bundle is not to list the name, or a ghost is in the way; and no old manifest that stays ships it. */
  ghost predicate DropsIt(s: State, in_: Input, s': State, g: string, n: string) {
    (Ships(in_, g, n).Some? ==> MeetsGhost(s, in_, g, n)) && !StaysShipped(s, in_, s', g, n)
  }

  /** What the published manifests of a release ship of the image, boot files included: a bundle ships what it has to
      list, unless that is a boot directory or link that meets a ghost, and what an old manifest that stays ships; so
      a name is lost to a bundle exactly if it and all that it includes drop it. */
  ghost predicate LostExactly(cfg: Config, s: State, in_: Input, s': State) {
    Publishes(cfg, s, in_) && Acyclic(in_) && OldAcyclic(s, in_) ==>
      forall g, n | g in in_.groups && n in in_.image && NotPruned(cfg, n) ::
        && ShipsExactly(s, in_, s', g, n)
        && (ShippedNowhere(in_, s', g, n) <==>
             forall m | m == g || m in Closure(NewIncludeMap(in_), g) :: DropsIt(s, in_, s', m, n))
  }

  lemma ReleaseShipsExactly(cfg: Config, s: State, in_: Input, g: string, n: string)
    requires StateOk(s) && Publishes(cfg, s, in_) && Acyclic(in_) && OldAcyclic(s, in_)
    requires g in in_.groups && n in in_.image && NotPruned(cfg, n)
    ensures ShipsExactly(s, in_, Step(cfg, s, in_), g, n)
  {
    hide StateOk, Publishes, Acyclic, OldAcyclic, NotPruned, NewList, Step, MeetsGhost, Ships, LiveIn, StaysShipped;
    ListedExactly(cfg, s, in_, g, n);
    ShippedExactly(cfg, s, in_, g, n);
  }

  lemma NowhereExactly(s: State, in_: Input, s': State, g: string, n: string)
    requires g in in_.groups && forall m | m in in_.groups :: ShipsExactly(s, in_, s', m, n)
    ensures ShippedNowhere(in_, s', g, n) <==>
      forall m | m == g || m in Closure(NewIncludeMap(in_), g) :: DropsIt(s, in_, s', m, n)
  {
    hide MeetsGhost, Ships, LiveIn, StaysShipped, Closure, NewIncludeMap;
    Known(in_, g);
    forall m | m == g || m in Closure(NewIncludeMap(in_), g)
      ensures !LiveIn(s', m, n) <==> DropsIt(s, in_, s', m, n)
    {
      assert ShipsExactly(s, in_, s', m, n);
    }
  }

  lemma RunLosesExactly(cfg: Config, inputs: seq<Input>, in_: Input)
    ensures LostExactly(cfg, Run(cfg, inputs), in_, Run(cfg, inputs + [in_]))
  {
    hide StateOk, Publishes, Acyclic, OldAcyclic, NotPruned, Step, ShipsExactly, ShippedNowhere, DropsIt, Closure,
      NewIncludeMap;
    RunOk(cfg, inputs);
    var s := Run(cfg, inputs);
    OneMoreBuild(cfg, inputs, in_);
    if Publishes(cfg, s, in_) && Acyclic(in_) && OldAcyclic(s, in_) {
      var s' := Step(cfg, s, in_);
      forall g, n | g in in_.groups && n in in_.image && NotPruned(cfg, n)
        ensures ShipsExactly(s, in_, s', g, n)
      {
        ReleaseShipsExactly(cfg, s, in_, g, n);
      }
      forall g, n | g in in_.groups && n in in_.image && NotPruned(cfg, n)
        ensures ShippedNowhere(in_, s', g, n) <==>
          forall m | m == g || m in Closure(NewIncludeMap(in_), g) :: DropsIt(s, in_, s', m, n)
      {
        NowhereExactly(s, in_, s', g, n);
      }
    }
  }
}
