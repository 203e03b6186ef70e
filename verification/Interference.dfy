/** Small worlds: three bundles, one boot path, and what any sequence of builds makes of it. They hold the
    inputs on which included bundles interfere with ghosts. */
module Interference {
  import opened Files
  import opened Heuristics
  import opened Matching
  import opened Pruning
  import opened Sorting
  import opened Subtraction
  import opened IncludeLists
  import opened Release
  import opened Availability
  import opened Lifecycle
  import opened Shipping
  import opened History
  import opened Ghosts
  import opened RenameScores

  const PATH: string := "/boot/d"

  const CFG := Config(false, [], 0)

  lemma PathIsBoot()
    ensures BootPath(PATH) && NotPruned(CFG, PATH)
  {
    assert HasPrefix(PATH, BOOT_PREFIXES[0]);
  }

  // ----- what a table says about the path -----

  /** Not listed, shipped since a release, or ghosted in one. */
  datatype What = Absent | Ships(since: int) | Ghost(since: int)

  predicate Says(m: Entries, what: What, item: Item) {
    match what
    case Absent => PATH !in m
    case Ships(v) => PATH in m && m[PATH].Live() && SameItem(m[PATH], item) && m[PATH].lastChange == v
    case Ghost(v) => PATH in m && m[PATH].isGhosted && !m[PATH].isDeleted && !m[PATH].isFile && m[PATH].lastChange == v
  }

  /** The table lists nothing else. */
  predicate Is(m: Entries, what: What, item: Item) {
    (forall n | n in m :: n == PATH) && Says(m, what, item)
  }

  /** One release further on, for a bundle that lists the path or does not. */
  function After(a: What, listed: bool, version: int): What {
    match a
    case Absent => if listed then Ships(version) else Absent
    case Ships(v) => if listed then a else Ghost(version)
    case Ghost(v) => if listed then Ships(version) else Absent
  }

  // ----- one job -----

  predicate Small(job: Job, a: What, listed: bool, item: Item) {
    && job.outcome == Outcome(map[], {}) && !job.bump
    && Is(job.old_, a, item) && Is(job.new_, if listed then Ships(job.version) else Absent, item)
  }

  lemma SmallDiffers(job: Job, a: What, listed: bool, item: Item)
    requires JobOk(job) && Small(job, a, listed, item) && (a.Ships? ==> a.since >= 0)
    ensures var d := Differences(job.old_, job.new_, CFG.minversion);
      d == if After(a, listed, job.version) == a then {} else {PATH}
    ensures RenamesAllowed(job.old_, job.new_, Marked(job.Matched(CFG)), job.version, job.outcome.renames)
  {
    hide ConfigPath, StatePath, BootPath, ZERO_HASH;
  }

  lemma SmallTypes(job: Job, a: What, listed: bool, item: Item)
    requires JobOk(job) && Small(job, a, listed, item)
    requires RenamesAllowed(job.old_, job.new_, Marked(job.Matched(CFG)), job.version, job.outcome.renames)
    ensures TypesOk(job.old_, job.new_, job.WithoutGhosts(CFG))
  {
    hide RenamesAllowed, Job.WithoutGhosts, Job.Matched, FlagsOk, WrittenOk, NewOk;
    forall n | n in job.WithoutGhosts(CFG) && n in job.old_ && HasPeer(job.old_, job.new_, n)
      && !job.old_[n].isDeleted && !job.WithoutGhosts(CFG)[n].isDeleted
      ensures TypeChangeOk(job.old_[n], job.WithoutGhosts(CFG)[n])
    {
      RemainingName(job, CFG, n);
      MatchedName(job, CFG, n);
      SmallMatched(job, a, listed, item);
    }
  }

  lemma SmallMatched(job: Job, a: What, listed: bool, item: Item)
    requires JobOk(job) && Small(job, a, listed, item)
    ensures var m := job.Matched(CFG);
      PATH in m && PATH in job.old_ && HasPeer(job.old_, job.new_, PATH) && !m[PATH].isDeleted ==>
        TypeChangeOk(job.old_[PATH], m[PATH])
  {
    hide ConfigPath, StatePath, BootPath, ZERO_HASH;
  }

  lemma SmallKeys(job: Job, n: string)
    requires JobOk(job) && !job.Process(CFG).Failed? && n in job.Process(CFG).work
    ensures n in job.old_ || n in job.new_
  {
    hide JobOk, Job.Pruned, Job.Matched, RenamesAllowed, TypesOk, Job.WorthWriting;
    if job.Same(CFG) {
      MatchedFrom(job, CFG, n);
    } else {
      PrunedFrom(job, CFG, n);
      RemainingName(job, CFG, n);
      MatchedFrom(job, CFG, n);
    }
  }

  lemma SmallFate(job: Job, a: What, listed: bool, item: Item)
    requires JobOk(job) && Small(job, a, listed, item) && BootPath(PATH) && NotPruned(CFG, PATH)
    requires Differences(job.old_, job.new_, CFG.minversion) ==
      if After(a, listed, job.version) == a then {} else {PATH}
    requires RenamesAllowed(job.old_, job.new_, Marked(job.Matched(CFG)), job.version, job.outcome.renames)
    requires TypesOk(job.old_, job.new_, job.WithoutGhosts(CFG))
    ensures var p := job.Process(CFG);
      && (p.Failed? <==> job.isCore && a.Ghost? && !listed)
      && (p.Kept? ==> After(a, listed, job.version) == a)
      && (p.Written? ==> After(a, listed, job.version) != a || (!job.isCore && job.includesChanged))
  {
    hide JobOk, Job.Matched, Job.WithoutGhosts, Job.Pruned, RenamesAllowed, TypesOk, BootPath, NotPruned, Differences,
      NewFiles;
    var d := Differences(job.old_, job.new_, CFG.minversion);
    assert job.Acceptable(CFG);
    if d == {} {
      assert |d| == 0;
    } else {
      assert |d| == 1;
      if Vanishes(job, CFG, PATH) {
        assert a.Ghost? && !listed;
        if !job.isCore {
          GhostForcesWriting(job, CFG, PATH);
        }
      } else {
        DifferenceForcesWriting(job, CFG, PATH);
      }
      if job.isCore {
        CoreStopsExactly(job, CFG);
      }
    }
  }

  lemma SmallSays(job: Job, a: What, listed: bool, item: Item)
    requires JobOk(job) && Small(job, a, listed, item) && BootPath(PATH) && NotPruned(CFG, PATH)
    requires Differences(job.old_, job.new_, CFG.minversion) ==
      if After(a, listed, job.version) == a then {} else {PATH}
    requires RenamesAllowed(job.old_, job.new_, Marked(job.Matched(CFG)), job.version, job.outcome.renames)
    requires !job.Process(CFG).Failed?
    ensures Says(job.Process(CFG).work, After(a, listed, job.version), item)
  {
    hide JobOk, Job.Matched, Job.WithoutGhosts, Job.Pruned, RenamesAllowed, TypesOk, BootPath, NotPruned, Differences,
      NewFiles, SameFileContents;
    var w := job.Process(CFG).work;
    if listed {
      JobShips(job, CFG, PATH);
      SmallShipped(job, a, item);
    } else if a.Ships? {
      GoneIsGhosted(job, CFG, PATH);
      GhostNotDeleted(job, CFG, PATH);
      JobGhost(job, CFG, PATH);
    } else if a.Ghost? {
      GhostIsGone(job, CFG, PATH);
    } else if PATH in w {
      SmallKeys(job, PATH);
    }
  }

  lemma SmallShipped(job: Job, a: What, item: Item)
    requires JobOk(job) && Small(job, a, true, item) && NotPruned(CFG, PATH) && !job.Process(CFG).Failed?
    requires Differences(job.old_, job.new_, CFG.minversion) == if After(a, true, job.version) == a then {} else {PATH}
    ensures Says(job.Process(CFG).work, After(a, true, job.version), item)
  {
    hide JobOk, Job.Matched, Job.WithoutGhosts, Job.Pruned, RenamesAllowed, TypesOk, BootPath, NotPruned, NewFiles,
      Job.WorthWriting;
    var w := job.Process(CFG).work;
    if job.Same(CFG) {
      ShippedMatch(job, CFG, PATH);
    } else {
      ShippedRemains(job, CFG, PATH);
      ShippedName(job, CFG, PATH);
    }
    assert After(a, true, job.version) == a <==> PATH !in Differences(job.old_, job.new_, CFG.minversion);
  }

  /** What one job makes of the path: the core's run stops exactly when nothing but a ghost expired. */
  lemma SmallJob(job: Job, a: What, listed: bool, item: Item)
    requires JobOk(job) && Small(job, a, listed, item) && (a.Ships? ==> a.since >= 0)
    ensures var p := job.Process(CFG);
      && (p.Failed? <==> job.isCore && a.Ghost? && !listed)
      && (!p.Failed? ==> Is(p.work, After(a, listed, job.version), item))
      && (p.Kept? ==> After(a, listed, job.version) == a)
      && (p.Written? ==> After(a, listed, job.version) != a || (!job.isCore && job.includesChanged))
  {
    hide JobOk, Job.Process, BootPath, NotPruned;
    PathIsBoot();
    SmallDiffers(job, a, listed, item);
    SmallTypes(job, a, listed, item);
    SmallFate(job, a, listed, item);
    if !job.Process(CFG).Failed? {
      forall n | n in job.Process(CFG).work
        ensures n == PATH
      {
        SmallKeys(job, n);
      }
      SmallSays(job, a, listed, item);
    }
  }

  // ----- one turn -----

  /** A bundle that ships at most the path, with the item that the image has there. */
  predicate Ordinary(in_: Input, g: string, item: Item) {
    && PATH in in_.image && in_.image[PATH] == item && in_.OutcomeOf(g) == Outcome(map[], {})
    && forall n | n in in_.ShippedBy(g) :: n == PATH
  }

  predicate IsFile(what: What, item: Item) {
    what.Ships? && item.kind.Regular?
  }

  ghost predicate Hidden(work: Work, inc: Includes, g: string, isFile: bool) {
    exists c | c in Closure(inc, g) :: Matches(work, c, PATH, isFile)
  }

  /** What the manifest says that the new MoM names for the bundle. */
  function Named(held: What, hidden: bool, listed: bool, version: int): What {
    if hidden && !listed then held else After(if hidden then Absent else held, listed, version)
  }

  /** A bundle's old list stands as it was published, in the format of this release, with the includes it has now. */
  ghost predicate Steady(s: State, in_: Input, g: string, r: Progressing) {
    && r.Running? && g in r.oldWork && g in r.newWork && r.oldWork[g] == OldBundle(s, in_, g).entries
    && OldBundle(s, in_, g).format == in_.format
    && (g != CORE && EntriesOf(s, g) != map[] ==>
        !Changed(OldIncludes(OldBundle(s, in_, g).includes), in_.IncludesOf(g)))
  }

  lemma SaysFile(m: Entries, what: What, item: Item)
    requires Is(m, what, item)
    ensures what == Absent <==> m == map[]
    ensures what != Absent ==> PATH in m && !m[PATH].isDeleted && m[PATH].isFile == IsFile(what, item)
  {
    if PATH !in m {
      assert m == map[];
    }
  }

  lemma SmallTurnJob(s: State, in_: Input, left: seq<string>, g: string, r: Progressing, held: What, item: Item)
    requires StateOk(s) && Sensible(s, in_) && g in in_.groups && LoopOk(CFG, s, in_, [g] + left, r)
    requires Steady(s, in_, g, r) && Is(EntriesOf(s, g), held, item) && Ordinary(in_, g, item)
    ensures var job := JobOf(s, in_, FullManifest(CFG, s, in_), g, r);
      var hidden := Hidden(r.oldWork, OldIncludeMap(s, in_), g, IsFile(held, item));
      var listed := PATH in in_.ShippedBy(g) && !Hidden(r.newWork, NewIncludeMap(in_), g, item.kind.Regular?);
      && JobOk(job) && Small(job, if hidden then Absent else held, listed, item)
      && (job.isCore <==> g == CORE) && job.version == in_.version
      && (!job.isCore && job.includesChanged ==> held == Absent)
  {
    hide FullManifest, StateOk, Sensible, LoopOk, JobOk, JobOf, OldIncludeMap, NewIncludeMap, Closure, EntriesOf,
      OldBundle, Matches, SameItem, Changed, OldIncludes, NewIncludes;
    var full := FullManifest(CFG, s, in_);
    var job := JobOf(s, in_, full, g, r);
    assert ([g] + left)[0] == g;
    JobIsOk(CFG, s, in_, [g] + left, g, r);
    JobVersion(s, in_, full, g, r);
    JobFlags(s, in_, full, g, r);
    JobOutcome(s, in_, full, g, r);
    OldEntriesOf(s, in_, g);
    SaysFile(EntriesOf(s, g), held, item);
    if held != Absent {
      OldListed(CFG, s, in_, g, left, r, PATH);
    }
    NewListed(CFG, s, in_, g, left, r, PATH);
    NewOnlyShipped(CFG, s, in_, left, g, r);
    if PATH in job.new_ {
      NewItem(CFG, s, in_, [g] + left, g, r, PATH);
      NewIsLive(job, PATH);
      NewIsNow(job, PATH);
    }
  }

  lemma JobOutcome(s: State, in_: Input, full: Entries, g: string, r: Progressing)
    requires r.Running? && g in r.oldWork && g in r.newWork
    ensures JobOf(s, in_, full, g, r).outcome == in_.OutcomeOf(g)
  {
  }

  lemma NewIsNow(job: Job, n: string)
    requires JobOk(job) && n in job.new_
    ensures job.new_[n].lastChange == job.version
  {
  }

  lemma NewOnlyShipped(cfg: Config, s: State, in_: Input, left: seq<string>, g: string, r: Progressing)
    requires g in in_.groups && LoopOk(cfg, s, in_, [g] + left, r) && r.Running? && g in r.oldWork && g in r.newWork
    ensures forall n | n in JobOf(s, in_, FullManifest(cfg, s, in_), g, r).new_ ::
      n in in_.ShippedBy(g) && n in in_.image
  {
    hide FullManifest, LoopOk, OldBundle, OldIncludeMap, NewIncludeMap, MarkEntry;
    LoopHas(cfg, s, in_, [g] + left, r);
    assert ([g] + left)[0] == g;
    var full := FullManifest(cfg, s, in_);
    var work := r.newWork[g := Marked(AddHashes(r.newWork[g], full))];
    SubtractedPart(work, NewIncludeMap(in_), g);
  }

  lemma SmallTurn(s: State, in_: Input, left: seq<string>, g: string, r: Progressing, held: What, item: Item)
    requires StateOk(s) && Sensible(s, in_) && g in in_.groups && g !in left && LoopOk(CFG, s, in_, [g] + left, r)
    requires Steady(s, in_, g, r) && Is(EntriesOf(s, g), held, item) && Ordinary(in_, g, item)
    requires (held.Ships? ==> held.since >= 0)
    ensures var r' := BundleTurn(CFG, s, in_, FullManifest(CFG, s, in_), g, r);
      var hidden := Hidden(r.oldWork, OldIncludeMap(s, in_), g, IsFile(held, item));
      var listed := PATH in in_.ShippedBy(g) && !Hidden(r.newWork, NewIncludeMap(in_), g, item.kind.Regular?);
      var a := if hidden then Absent else held;
      && (r'.Stopped? <==> g == CORE && a.Ghost? && !listed)
      && (r'.Running? ==>
        && LoopOk(CFG, s, in_, left, r') && g in r'.oldWork && g in r'.newWork && g in r'.bundles
        && r'.oldWork == r.oldWork[g := r'.oldWork[g]] && Is(r'.oldWork[g], a, item)
        && r'.newWork == r.newWork[g := r'.newWork[g]] && Is(r'.newWork[g], After(a, listed, in_.version), item)
        && r'.bundles == r.bundles[g := r'.bundles[g]]
        && Is(r'.bundles[g].entries, Named(held, hidden, listed, in_.version), item)
        && (r'.bundles[g] == OldBundle(s, in_, g)
            || (r'.bundles[g].version == in_.version && r'.bundles[g].format == in_.format &&
                 r'.bundles[g].includes == in_.IncludesOf(g))))
  {
    hide FullManifest, StateOk, Sensible, LoopOk, JobOk, JobOf, Job.Process, OldIncludeMap, NewIncludeMap, Hidden,
      EntriesOf, OldBundle, Ordinary, Is, Small, SameItem, BundleTurn, Changed, OldIncludes;
    var full := FullManifest(CFG, s, in_);
    var job := JobOf(s, in_, full, g, r);
    SmallTurnJob(s, in_, left, g, r, held, item);
    var hidden := Hidden(r.oldWork, OldIncludeMap(s, in_), g, IsFile(held, item));
    var listed := PATH in in_.ShippedBy(g) && !Hidden(r.newWork, NewIncludeMap(in_), g, item.kind.Regular?);
    SmallJob(job, if hidden then Absent else held, listed, item);
    OldEntriesOf(s, in_, g);
    TurnStops(CFG, s, in_, full, g, r);
    SmallOld(job, if hidden then Absent else held, listed, item);
    if !job.Process(CFG).Failed? {
      TurnPublishes(CFG, s, in_, full, g, r);
      TurnOk(CFG, s, in_, left, g, r);
    }
  }

  lemma SmallOld(job: Job, a: What, listed: bool, item: Item)
    requires Small(job, a, listed, item)
    ensures Is(job.old_, a, item)
  {
  }

  lemma TurnStops(cfg: Config, s: State, in_: Input, full: Entries, g: string, r: Progressing)
    requires Steady(s, in_, g, r)
    ensures r.Running? && g in r.oldWork && g in r.newWork
    ensures BundleTurn(cfg, s, in_, full, g, r).Stopped? <==> JobOf(s, in_, full, g, r).Process(cfg).Failed?
  {
    hide JobOf, Job.Process, OldBundle;
  }

  // ----- three bundles -----

  const UPPER: string := "upper"

  const LOWER: string := "lower"

  const GROUPS: seq<string> := [CORE, UPPER, LOWER]

  /** A build in which `ships` put the path into their bundles; the upper bundle includes the lower one. */
  function Build(version: int, ships: set<string>, item: Item): Input {
    Input(version, 1, map[PATH := item], GROUPS, map g | g in ships :: {PATH}, map[UPPER := [LOWER]], map[], {})
  }

  lemma UpperClosure(inc: Includes)
    requires inc.Keys == {CORE, UPPER, LOWER} && inc[CORE] == []
    requires (forall x :: x in inc[LOWER] <==> x == CORE) && (forall x :: x in inc[UPPER] <==> x == CORE || x == LOWER)
    ensures Closure(inc, UPPER) == {CORE, LOWER}
  {
    hide Reaches;
    ReachesStep(inc, UPPER, CORE, CORE);
    ReachesStep(inc, UPPER, LOWER, LOWER);
    forall c | c in Closure(inc, UPPER)
      ensures c in {CORE, LOWER}
    {
      var x := FirstStep(inc, UPPER, c);
      if x == LOWER && c != LOWER {
        LowerClosure(inc);
        assert c in Closure(inc, LOWER);
      } else if x == CORE && c != CORE {
        var y := FirstStep(inc, CORE, c);
      }
    }
  }

  lemma LowerClosure(inc: Includes)
    requires CORE in inc && LOWER in inc && inc[CORE] == [] && forall x :: x in inc[LOWER] <==> x == CORE
    ensures Closure(inc, LOWER) == {CORE}
  {
    hide Reaches;
    ReachesStep(inc, LOWER, CORE, CORE);
    forall c | c in Closure(inc, LOWER)
      ensures c == CORE
    {
      var x := FirstStep(inc, LOWER, c);
      if c != CORE {
        var y := FirstStep(inc, CORE, c);
      }
    }
  }

  /** What the three manifests say that the newest MoM names. */
  datatype Trio = Trio(core: What, upper: What, lower: What)

  /** A record of an included bundle cancels the bundle's own. */
  predicate Covers(other: What, own: What, item: Item) {
    !other.Absent? && !own.Absent? && (IsFile(other, item) <==> IsFile(own, item))
  }

  /** One build further on; nothing when the run stops. */
  function Next(t: Trio, ships: set<string>, version: int, item: Item): Option<Trio> {
    if t.core.Ghost? && CORE !in ships then None else
      var core, new_ := After(t.core, CORE in ships, version), Ships(version);
      Some(Trio(core,
                Named(t.upper, Covers(t.core, t.upper, item) || Covers(t.lower, t.upper, item),
                      UPPER in ships && !Covers(core, new_, item) && LOWER !in ships, version),
                Named(t.lower, Covers(t.core, t.lower, item), LOWER in ships && !Covers(core, new_, item), version)))
  }

  /** What the newest MoM names, once `ships` were built one after the other. */
  function Rest(ships: seq<set<string>>, item: Item): Trio {
    if ships == [] then Trio(Absent, Absent, Absent) else
      var k := |ships| - 1;
      var t := Rest(ships[..k], item);
      var next := Next(t, ships[k], k + 1, item);
      if next.Some? then next.value else t
  }

  function Builds(ships: seq<set<string>>, item: Item): seq<Input> {
    seq(|ships|, i requires 0 <= i < |ships| => Build(i + 1, ships[i], item))
  }

  // ----- the model of releases follows -----

  ghost predicate Stands(s: State, g: string, what: What, item: Item) {
    && Is(EntriesOf(s, g), what, item) && (what.Ships? ==> what.since >= 0)
    && (g in s.bundles && s.bundles[g].version != 0 ==>
          s.bundles[g].format == 1 && (g != CORE ==>
            OldIncludes(s.bundles[g].includes) == Build(0, {}, item).IncludesOf(g)))
  }

  ghost predicate Rests(s: State, t: Trio, item: Item) {
    && StateOk(s) && (s.momFormat.Some? ==> s.momFormat.value <= 1)
    && Stands(s, CORE, t.core, item) && Stands(s, UPPER, t.upper, item) && Stands(s, LOWER, t.lower, item)
  }

  lemma IncludeFacts(version: int, ships: set<string>, item: Item)
    ensures var in_ := Build(version, ships, item);
      && (forall x :: x in in_.IncludesOf(LOWER) <==> x == CORE)
      && (forall x :: x in in_.IncludesOf(UPPER) <==> x == CORE || x == LOWER)
      && (forall x :: x in OldIncludes([]) <==> x == CORE)
      && NewIncludeMap(in_).Keys == {CORE, UPPER, LOWER} && NewIncludeMap(in_)[CORE] == []
  {
    hide NewIncludes;
    var in_ := Build(version, ships, item);
    NewIncludesMembers([LOWER]);
    NewIncludesMembers([]);
    assert Reverse<string>([]) == [];
  }

  lemma OldMapFacts(s: State, version: int, ships: set<string>, item: Item, t: Trio)
    requires Rests(s, t, item)
    ensures var inc := OldIncludeMap(s, Build(version, ships, item));
      && inc.Keys == {CORE, UPPER, LOWER} && inc[CORE] == [] && (forall x :: x in inc[LOWER] <==> x == CORE)
      && (t.upper != Absent ==> forall x :: x in inc[UPPER] <==> x == CORE || x == LOWER)
  {
    hide NewIncludes, OldIncludes, Is, StateOk;
    IncludeFacts(version, ships, item);
    IncludeFacts(0, {}, item);
    SaysFile(EntriesOf(s, UPPER), t.upper, item);
  }

  /** A build of the three bundles, with the includes they have. */
  predicate OfThree(in_: Input) {
    in_.format == 1 && in_.groups == GROUPS && in_.includes == map[UPPER := [LOWER]]
  }

  lemma Waits(s: State, t: Trio, in_: Input, item: Item, g: string, r: Progressing)
    requires Rests(s, t, item) && OfThree(in_) && g in GROUPS && r.Running? && g in r.oldWork && g in r.newWork
    requires r.oldWork[g] == OldBundle(s, in_, g).entries
    ensures Steady(s, in_, g, r)
  {
    hide NewIncludes, OldIncludes, StateOk, Is;
    if EntriesOf(s, g) != map[] && g != CORE {
      assert OldIncludes(OldBundle(s, in_, g).includes) == in_.IncludesOf(g);
    }
  }

  lemma BuildIsOrdinary(version: int, ships: set<string>, item: Item, g: string)
    ensures Ordinary(Build(version, ships, item), g, item)
    ensures PATH in Build(version, ships, item).ShippedBy(g) <==> g in ships
  {
  }

  lemma BuildIsSensible(s: State, version: int, ships: set<string>, item: Item)
    requires version > s.version && item.hash != ZERO_HASH
    ensures Sensible(s, Build(version, ships, item))
    ensures [CORE] + Others(GROUPS) == GROUPS && Distinct(GROUPS)
  {
    hide ZERO_HASH;
    assert GROUPS[1..] == [UPPER, LOWER] && [UPPER, LOWER][1..] == [LOWER] && [LOWER][1..] == [];
    assert Others([LOWER]) == [LOWER];
    assert Others([UPPER, LOWER]) == [UPPER] + [LOWER];
  }

  lemma SaysMatches(work: Work, c: string, what: What, isFile: bool, item: Item)
    requires c in work && Is(work[c], what, item)
    ensures Matches(work, c, PATH, isFile) <==> what != Absent && IsFile(what, item) == isFile
  {
    hide Is;
    SaysFile(work[c], what, item);
  }

  lemma RawMatches(in_: Input, work: Work, c: string, item: Item)
    requires c in work && work[c] == BundleRaw(in_.image, in_.ShippedBy(c), in_.version) && PATH in in_.image
    requires in_.image[PATH] == item
    ensures Matches(work, c, PATH, item.kind.Regular?) <==> PATH in in_.ShippedBy(c)
  {
  }

  /** Who cancels the old entries. */
  lemma OldHidden(s: State, t: Trio, version: int, ships: set<string>, item: Item, work: Work)
    requires Rests(s, t, item) && CORE in work && Is(work[CORE], t.core, item)
    ensures var inc := OldIncludeMap(s, Build(version, ships, item));
      && (Hidden(work, inc, LOWER, IsFile(t.lower, item)) && t.lower != Absent <==> Covers(t.core, t.lower, item))
      && (LOWER in work && Is(work[LOWER], t.lower, item) && t.upper != Absent ==>
            (Hidden(work, inc, UPPER, IsFile(t.upper, item)) <==>
              Covers(t.core, t.upper, item) || Covers(t.lower, t.upper, item)))
  {
    hide Closure, Is, Rests, Matches, OldIncludeMap;
    var inc := OldIncludeMap(s, Build(version, ships, item));
    OldMapFacts(s, version, ships, item, t);
    LowerClosure(inc);
    SaysMatches(work, CORE, t.core, IsFile(t.lower, item), item);
    SaysMatches(work, CORE, t.core, IsFile(t.upper, item), item);
    if LOWER in work && Is(work[LOWER], t.lower, item) && t.upper != Absent {
      UpperClosure(inc);
      SaysMatches(work, LOWER, t.lower, IsFile(t.upper, item), item);
    }
  }

  /** Who cancels what the build puts into the bundles. */
  lemma NewHidden(version: int, ships: set<string>, item: Item, work: Work, core: What)
    requires CORE in work && Is(work[CORE], core, item)
    ensures var in_ := Build(version, ships, item);
      && (Hidden(work, NewIncludeMap(in_), LOWER, item.kind.Regular?) <==> Covers(core, Ships(version), item))
      && (LOWER in work && work[LOWER] == BundleRaw(in_.image, in_.ShippedBy(LOWER), version) ==>
            (Hidden(work, NewIncludeMap(in_), UPPER, item.kind.Regular?) <==>
              Covers(core, Ships(version), item) || LOWER in ships))
  {
    hide Closure, Is, Matches, NewIncludeMap, BundleRaw;
    var in_ := Build(version, ships, item);
    IncludeFacts(version, ships, item);
    MapIs(in_);
    LowerClosure(NewIncludeMap(in_));
    SaysMatches(work, CORE, core, item.kind.Regular?, item);
    BuildIsOrdinary(version, ships, item, LOWER);
    if LOWER in work && work[LOWER] == BundleRaw(in_.image, in_.ShippedBy(LOWER), version) {
      UpperClosure(NewIncludeMap(in_));
      RawMatches(in_, work, LOWER, item);
    }
  }

  lemma MapIs(in_: Input)
    ensures forall g | g in in_.groups :: NewIncludeMap(in_)[g] == in_.IncludesOf(g)
  {
  }

  lemma NothingHidesCore(s: State, in_: Input, work: Work, isFile: bool)
    requires CORE in in_.groups
    ensures !Hidden(work, OldIncludeMap(s, in_), CORE, isFile) && !Hidden(work, NewIncludeMap(in_), CORE, isFile)
  {
    hide Closure, OldIncludeMap, NewIncludeMap, Matches;
    CoreIncludesNothing(s, in_, PATH);
    CoreHasNoIncludes(in_);
  }

  // ----- one build -----

  /** The bundles that are left stand as they begin. */
  ghost predicate Untouched(s: State, in_: Input, left: seq<string>, r: Progressing) {
    && r.Running? && LoopOk(CFG, s, in_, left, r)
    && forall g | g in left ::
         && g in r.oldWork && g in r.newWork && r.oldWork[g] == OldBundle(s, in_, g).entries
         && r.newWork[g] == BundleRaw(in_.image, in_.ShippedBy(g), in_.version)
  }

  ghost predicate Moves(r: Progressing, r': Progressing, g: string) {
    && r.Running? && r'.Running? && g in r'.oldWork && g in r'.newWork && g in r'.bundles
    && r'.oldWork == r.oldWork[g := r'.oldWork[g]] && r'.newWork == r.newWork[g := r'.newWork[g]]
    && r'.bundles == r.bundles[g := r'.bundles[g]]
  }

  lemma UntouchedStep(s: State, in_: Input, left: seq<string>, g: string, r: Progressing, r': Progressing)
    requires Untouched(s, in_, [g] + left, r) && g !in left && Moves(r, r', g) && LoopOk(CFG, s, in_, left, r')
    ensures Untouched(s, in_, left, r')
  {
    hide LoopOk, OldBundle, BundleRaw;
    forall x | x in left
      ensures x in [g] + left && x != g
    {
    }
  }

  /** A turn has published what it should. */
  ghost predicate Done(s: State, in_: Input, g: string, what: What, item: Item, r: Progressing) {
    && r.Running? && g in r.bundles && Is(r.bundles[g].entries, what, item)
    && (r.bundles[g] == OldBundle(s, in_, g)
        || (r.bundles[g].version == in_.version && r.bundles[g].format == in_.format &&
             r.bundles[g].includes == in_.IncludesOf(g)))
  }

  lemma DoneStays(s: State, in_: Input, g: string, what: What, item: Item, r: Progressing, r': Progressing, x: string)
    requires Done(s, in_, g, what, item, r) && Moves(r, r', x) && x != g
    ensures Done(s, in_, g, what, item, r')
  {
    hide OldBundle, Is;
  }

  lemma DoneStands(s: State, t: Trio, version: int, ships: set<string>, item: Item, g: string, what: What,
      r: Progressing, s': State)
    requires Rests(s, t, item) && g in GROUPS && Done(s, Build(version, ships, item), g, what, item, r)
    requires s'.bundles == r.bundles
    requires version > 0 && (what.Ships? ==> what.since >= 0)
    ensures Stands(s', g, what, item) && g in s'.bundles
  {
    hide StateOk, Is, OldIncludes, NewIncludes;
    var in_ := Build(version, ships, item);
    SaysFile(r.bundles[g].entries, what, item);
    if g != CORE && r.bundles[g].includes == in_.IncludesOf(g) {
      HeaderRoundTrip(if g in in_.includes then in_.includes[g] else []);
    }
  }

  lemma OneTurn(s: State, t: Trio, version: int, ships: set<string>, item: Item, left: seq<string>, g: string,
      r: Progressing,
      held: What, hidden: bool, listed: bool) returns (r': Progressing)
    requires Rests(s, t, item) && version > s.version && item.hash != ZERO_HASH && g in GROUPS && g !in left
    requires Untouched(s, Build(version, ships, item), [g] + left, r) && Stands(s, g, held, item)
    requires var in_ := Build(version, ships, item);
      && (held != Absent ==> (hidden <==> Hidden(r.oldWork, OldIncludeMap(s, in_), g, IsFile(held, item))))
      && (listed <==> g in ships && !Hidden(r.newWork, NewIncludeMap(in_), g, item.kind.Regular?))
    ensures var in_ := Build(version, ships, item);
      && r' == BundleTurn(CFG, s, in_, FullManifest(CFG, s, in_), g, r)
      && (r'.Stopped? <==> g == CORE && (if hidden then Absent else held).Ghost? && !listed)
      && (r'.Running? ==>
            && Moves(r, r', g) && Untouched(s, in_, left, r')
            && Done(s, in_, g, Named(held, hidden, listed, version), item, r')
            && Is(r'.oldWork[g], if hidden then Absent else held, item)
            && Is(r'.newWork[g], After(if hidden then Absent else held, listed, version), item))
  {
    hide Is, Hidden, OldIncludeMap, NewIncludeMap, OldBundle, LoopOk, StateOk, Sensible, FullManifest, BundleTurn,
      Steady, Ordinary, EntriesOf, BundleRaw, OldIncludes;
    var in_ := Build(version, ships, item);
    r' := BundleTurn(CFG, s, in_, FullManifest(CFG, s, in_), g, r);
    BuildIsSensible(s, version, ships, item);
    BuildIsOrdinary(version, ships, item, g);
    assert ([g] + left)[0] == g;
    Waits(s, t, in_, item, g, r);
    SmallTurn(s, in_, left, g, r, held, item);
    if r'.Running? {
      UntouchedStep(s, in_, left, g, r, r');
    }
  }

  lemma Begins(s: State, t: Trio, version: int, ships: set<string>, item: Item)
    requires Rests(s, t, item) && version > s.version && item.hash != ZERO_HASH
    ensures Untouched(s, Build(version, ships, item), GROUPS, BeginBundles(s, Build(version, ships, item)))
  {
    hide StateOk, Sensible, LoopOk, OldBundle, BundleRaw, Stands, Build, BeginBundles, ZERO_HASH;
    var in_ := Build(version, ships, item);
    BuildIsSensible(s, version, ships, item);
    BuildGroups(version, ships, item);
    LoopStarts(CFG, s, in_, GROUPS);
    NothingMoved(s, in_);
  }

  lemma BuildGroups(version: int, ships: set<string>, item: Item)
    ensures Build(version, ships, item).groups == GROUPS
  {
  }

  lemma NothingMoved(s: State, in_: Input)
    requires LoopOk(CFG, s, in_, in_.groups, BeginBundles(s, in_))
    ensures BeginBundles(s, in_).Running? && Untouched(s, in_, in_.groups, BeginBundles(s, in_))
  {
    hide LoopOk, OldBundle, BundleRaw;
  }

  lemma ThreeTurns(s: State, in_: Input, full: Entries, r: Progressing, r1: Progressing, r2: Progressing,
      r3: Progressing)
    requires r1 == BundleTurn(CFG, s, in_, full, CORE, r) && r2 == BundleTurn(CFG, s, in_, full, UPPER, r1)
      && r3 == BundleTurn(CFG, s, in_, full, LOWER, r2)
    ensures BundleTurns(CFG, s, in_, full, GROUPS, r) == r3
  {
    hide BundleTurn;
    assert GROUPS[1..] == [UPPER, LOWER] && [UPPER, LOWER][1..] == [LOWER] && [LOWER][1..] == [];
    FirstTurn(CFG, s, in_, full, GROUPS, r);
    FirstTurn(CFG, s, in_, full, [UPPER, LOWER], r1);
    FirstTurn(CFG, s, in_, full, [LOWER], r2);
  }

  /** The upper and the lower bundle's turns. */
  lemma LaterTurns(s: State, t: Trio, version: int, ships: set<string>, item: Item, r1: Progressing)
    returns (r2: Progressing, r: Progressing)
    requires Rests(s, t, item) && version > s.version && item.hash != ZERO_HASH
    requires Next(t, ships, version, item).Some?
    requires var in_, core := Build(version, ships, item), After(t.core, CORE in ships, version);
      && Untouched(s, in_, [UPPER, LOWER], r1) && Done(s, in_, CORE, core, item, r1)
      && CORE in r1.oldWork && Is(r1.oldWork[CORE], t.core, item) && CORE in r1.newWork
      && Is(r1.newWork[CORE], core, item)
    ensures var in_ := Build(version, ships, item); var full := FullManifest(CFG, s, in_);
      && r2 == BundleTurn(CFG, s, in_, full, UPPER, r1) && r == BundleTurn(CFG, s, in_, full, LOWER, r2)
    ensures var in_, n := Build(version, ships, item), Next(t, ships, version, item).value;
      && Untouched(s, in_, [], r) && Done(s, in_, CORE, n.core, item, r)
      && Done(s, in_, UPPER, n.upper, item, r) && Done(s, in_, LOWER, n.lower, item, r)
  {
    hide Is, Hidden, OldIncludeMap, NewIncludeMap, OldBundle, LoopOk, FullManifest, BundleTurn, EntriesOf, StateOk,
      BundleRaw, OldIncludes, Stands, Covers, Done, Build, ZERO_HASH, Untouched;
    var in_ := Build(version, ships, item);
    var core, new_ := After(t.core, CORE in ships, version), Ships(version);
    assert [UPPER] + [LOWER] == [UPPER, LOWER] && [LOWER] + [] == [LOWER];
    BothHidden(s, t, version, ships, item, r1, core);
    r2 := OneTurn(s, t, version, ships, item, [LOWER], UPPER, r1, t.upper,
                  Covers(t.core, t.upper, item) || Covers(t.lower, t.upper, item),
                  UPPER in ships && !Covers(core, new_, item) && LOWER !in ships);
    LowerHidden(s, t, version, ships, item, r2, core);
    r := OneTurn(s, t, version, ships, item, [], LOWER, r2, t.lower, Covers(t.core, t.lower, item),
                 LOWER in ships && !Covers(core, new_, item));
    DoneStays(s, in_, CORE, core, item, r1, r2, UPPER);
    DoneStays(s, in_, CORE, core, item, r2, r, LOWER);
    DoneStays(s, in_, UPPER, Next(t, ships, version, item).value.upper, item, r2, r, LOWER);
  }

  /** The three turns of one build. */
  lemma BuildTurns(s: State, t: Trio, version: int, ships: set<string>, item: Item) returns (r: Progressing)
    requires Rests(s, t, item) && version > s.version && item.hash != ZERO_HASH
    ensures var in_ := Build(version, ships, item);
      r == BundleTurns(CFG, s, in_, FullManifest(CFG, s, in_), GROUPS, BeginBundles(s, in_))
    ensures var in_, n := Build(version, ships, item), Next(t, ships, version, item);
      && (r.Running? <==> n.Some?)
      && (n.Some? ==>
            && LoopOk(CFG, s, in_, [], r) && Done(s, in_, CORE, n.value.core, item, r)
            && Done(s, in_, UPPER, n.value.upper, item, r) && Done(s, in_, LOWER, n.value.lower, item, r))
  {
    hide Is, Hidden, OldIncludeMap, NewIncludeMap, OldBundle, LoopOk, FullManifest, BundleTurn, BeginBundles, StateOk,
      Stands, BundleTurns, Covers, Done, Build, ZERO_HASH, BundleRaw, EntriesOf;
    var in_ := Build(version, ships, item);
    var full, r0 := FullManifest(CFG, s, in_), BeginBundles(s, in_);
    Begins(s, t, version, ships, item);
    BuildGroups(version, ships, item);
    NothingHidesCore(s, in_, r0.oldWork, IsFile(t.core, item));
    NothingHidesCore(s, in_, r0.newWork, item.kind.Regular?);
    assert [CORE] + [UPPER, LOWER] == GROUPS;
    var r1 := OneTurn(s, t, version, ships, item, [UPPER, LOWER], CORE, r0, t.core, false, CORE in ships);
    if r1.Stopped? {
      r := BundleTurns(CFG, s, in_, full, GROUPS, r0);
      FirstTurn(CFG, s, in_, full, GROUPS, r0);
      StoppedStays(CFG, s, in_, full, GROUPS[1..]);
    } else {
      var r2;
      r2, r := LaterTurns(s, t, version, ships, item, r1);
      ThreeTurns(s, in_, full, r0, r1, r2, r);
    }
  }

  /** At the upper bundle's turn, the core has had its turn and the lower bundle has not. */
  lemma BothHidden(s: State, t: Trio, version: int, ships: set<string>, item: Item, r: Progressing, core: What)
    requires Rests(s, t, item) && Untouched(s, Build(version, ships, item), [UPPER, LOWER], r)
    requires CORE in r.oldWork && Is(r.oldWork[CORE], t.core, item) && CORE in r.newWork
    requires Is(r.newWork[CORE], core, item)
    ensures var in_ := Build(version, ships, item);
      && (t.upper != Absent ==>
            (Hidden(r.oldWork, OldIncludeMap(s, in_), UPPER, IsFile(t.upper, item)) <==>
              Covers(t.core, t.upper, item) || Covers(t.lower, t.upper, item)))
      && (Hidden(r.newWork, NewIncludeMap(in_), UPPER, item.kind.Regular?) <==>
          Covers(core, Ships(version), item) || LOWER in ships)
  {
    hide Hidden, OldIncludeMap, NewIncludeMap, LoopOk, StateOk, Is, BundleRaw, OldBundle, EntriesOf, OldIncludes,
      NewIncludes;
    var in_ := Build(version, ships, item);
    assert [UPPER, LOWER][1] == LOWER;
    OldEntriesOf(s, in_, LOWER);
    OldHidden(s, t, version, ships, item, r.oldWork);
    NewHidden(version, ships, item, r.newWork, core);
  }

  lemma LowerHidden(s: State, t: Trio, version: int, ships: set<string>, item: Item, r: Progressing, core: What)
    requires Rests(s, t, item) && r.Running?
    requires CORE in r.oldWork && Is(r.oldWork[CORE], t.core, item) && CORE in r.newWork
    requires Is(r.newWork[CORE], core, item)
    ensures var in_ := Build(version, ships, item);
      && (t.lower != Absent ==>
            (Hidden(r.oldWork, OldIncludeMap(s, in_), LOWER, IsFile(t.lower, item)) <==> Covers(t.core, t.lower, item)))
      && (Hidden(r.newWork, NewIncludeMap(in_), LOWER, item.kind.Regular?) <==> Covers(core, Ships(version), item))
  {
    hide Hidden, OldIncludeMap, NewIncludeMap, StateOk, Is, BundleRaw;
    OldHidden(s, t, version, ships, item, r.oldWork);
    NewHidden(version, ships, item, r.newWork, core);
  }

  lemma AllWorks(s: State, in_: Input, r: Progressing)
    requires LoopOk(CFG, s, in_, [], r)
    ensures forall g | g in in_.groups :: g in r.newWork
  {
    hide Part, WorkOk, OldBundle, ArchivePart;
  }

  lemma Times(s: State, t: Trio, ships: set<string>, version: int, item: Item)
    requires Rests(s, t, item) && version > 0 && Next(t, ships, version, item).Some?
    ensures var n := Next(t, ships, version, item).value;
      && (n.core.Ships? ==> n.core.since >= 0) && (n.upper.Ships? ==> n.upper.since >= 0) && (n.lower.Ships? ==>
          n.lower.since >= 0)
  {
    hide StateOk, Is, OldIncludes, Covers;
  }

  /** One build: the model of releases publishes exactly if the small model does, and rests as it says. */
  lemma BuildStep(s: State, t: Trio, version: int, ships: set<string>, item: Item)
    requires Rests(s, t, item) && version > s.version && item.hash != ZERO_HASH
    ensures var s', n := Step(CFG, s, Build(version, ships, item)), Next(t, ships, version, item);
      && (Publishes(CFG, s, Build(version, ships, item)) <==> n.Some?)
      && (if n.Some? then Rests(s', n.value, item) && s'.version == version && (forall g | g in GROUPS ::
          g in s'.bundles) else s' == s)
  {
    hide Is, OldIncludeMap, NewIncludeMap, OldBundle, LoopOk, Sensible, FullManifest, EntriesOf, WrittenFull,
      FullfileHashes, OldIncludes, BeginBundles, StateOk, Stands, BundleTurns, Done, Next;
    var in_ := Build(version, ships, item);
    BuildIsSensible(s, version, ships, item);
    var r := BuildTurns(s, t, version, ships, item);
    StepOk(CFG, s, in_);
    if r.Running? {
      AllWorks(s, in_, r);
      var n := Next(t, ships, version, item).value;
      VersionsGrow(s, in_);
      Times(s, t, ships, version, item);
      DoneStands(s, t, version, ships, item, CORE, n.core, r, Step(CFG, s, in_));
      DoneStands(s, t, version, ships, item, UPPER, n.upper, r, Step(CFG, s, in_));
      DoneStands(s, t, version, ships, item, LOWER, n.lower, r, Step(CFG, s, in_));
    }
  }

  // ----- whole runs -----

  lemma NothingRests(item: Item)
    ensures Rests(EMPTY, Trio(Absent, Absent, Absent), item)
  {
    EmptyOk();
  }

  /** Every run of the small world goes as `Rest` says, and its last build is published unless `Next` stops it. */
  lemma {:induction false} RunRests(ships: seq<set<string>>, item: Item)
    requires item.hash != ZERO_HASH
    ensures var s := Run(CFG, Builds(ships, item));
      && Rests(s, Rest(ships, item), item) && s.version <= |ships|
      && (ships != [] ==>
            var k := |ships| - 1;
            if Next(Rest(ships[..k], item), ships[k], k + 1, item).Some?
            then s.version == k + 1 && forall g | g in GROUPS :: g in s.bundles
            else s == Run(CFG, Builds(ships[..k], item)))
    decreases |ships|
  {
    hide Rests, Step, Next, Build, ZERO_HASH, Publishes;
    if ships == [] {
      NothingRests(item);
    } else {
      var k := |ships| - 1;
      RunRests(ships[..k], item);
      assert Builds(ships, item)[..k] == Builds(ships[..k], item);
      BuildStep(Run(CFG, Builds(ships[..k], item)), Rest(ships[..k], item), k + 1, ships[k], item);
    }
  }

  lemma RestStep(ships: seq<set<string>>, last: set<string>, item: Item)
    ensures Rest(ships + [last], item) ==
      var n := Next(Rest(ships, item), last, |ships| + 1, item); if n.Some? then n.value else Rest(ships, item)
  {
    hide Next;
    var all := ships + [last];
    assert all[..|all| - 1] == ships;
  }

  const DIRECTORY := Item(Directory, "contents")

  const FILE := Item(Regular, "contents")

  lemma NotZero()
    ensures DIRECTORY.hash != ZERO_HASH && FILE.hash != ZERO_HASH
  {
    assert |ZERO_HASH| == 64 && |"contents"| == 8;
  }

  lemma ThreeBuilds(a: set<string>, b: set<string>, c: set<string>, item: Item) returns (t1: Trio, t2: Trio)
    requires item.hash != ZERO_HASH
    ensures Next(Trio(Absent, Absent, Absent), a, 1, item) == Some(t1)
    ensures var n2 := Next(t1, b, 2, item); t2 == if n2.Some? then n2.value else t1
    ensures var s, n3 := Run(CFG, Builds([a, b, c], item)), Next(t2, c, 3, item);
      && Rests(s, if n3.Some? then n3.value else t2, item)
      && (if n3.Some? then s.version == 3 && (forall g | g in GROUPS ::
          g in s.bundles) else s == Run(CFG, Builds([a, b], item)))
  {
    hide Next, Rests, Run, Builds, ZERO_HASH;
    t1, t2 := Rest([a], item), Rest([a, b], item);
    RestStep([], a, item);
    RestStep([a], b, item);
    RestStep([a, b], c, item);
    assert [] + [a] == [a] && [a] + [b] == [a, b] && [a, b] + [c] == [a, b, c];
    FirstBuild(a, item);
    RunRests([a, b, c], item);
    assert [a, b, c][..2] == [a, b];
  }

  lemma TwoBuilds(a: set<string>, b: set<string>, item: Item) returns (t1: Trio)
    requires item.hash != ZERO_HASH
    ensures Next(Trio(Absent, Absent, Absent), a, 1, item) == Some(t1)
    ensures var s, n2 := Run(CFG, Builds([a, b], item)), Next(t1, b, 2, item);
      Rests(s, if n2.Some? then n2.value else t1, item) && s.version <= 2 && (n2.Some? ==> s.version == 2)
  {
    hide Next, Rests, Run, Builds, ZERO_HASH;
    t1 := Rest([a], item);
    RestStep([], a, item);
    RestStep([a], b, item);
    FirstBuild(a, item);
    RunRests([a, b], item);
    assert [] + [a] == [a] && [a] + [b] == [a, b] && [a, b][..1] == [a];
  }

  lemma FirstBuild(a: set<string>, item: Item)
    ensures Next(Trio(Absent, Absent, Absent), a, 1, item).Some? && Rest([], item) == Trio(Absent, Absent, Absent)
  {
  }

  lemma Shown(s: State, t: Trio, item: Item)
    requires Rests(s, t, item)
    ensures Is(EntriesOf(s, CORE), t.core, item) && Is(EntriesOf(s, UPPER), t.upper, item)
    ensures Is(EntriesOf(s, LOWER), t.lower, item)
  {
    hide StateOk, Is, OldIncludes;
  }

  /** A boot directory moves from the lower bundle into the core, and stays there: its ghost of release 2 is still
      in the manifest that the MoM of release 3 names, as the core's old record cancels it. */
  lemma ExpiredGhostStays()
    ensures var s := Run(CFG, Builds([{LOWER}, {CORE}, {CORE}], DIRECTORY));
      s.version == 3 && GhostedSince(EntriesOf(s, LOWER), PATH, 2)
  {
    hide Run, Rests, EntriesOf;
    NotZero();
    var t1, t2 := ThreeBuilds({LOWER}, {CORE}, {CORE}, DIRECTORY);
    assert t1 == Trio(Absent, Absent, Ships(1));
    assert t2 == Trio(Ships(2), Absent, Ghost(2));
    Shown(Run(CFG, Builds([{LOWER}, {CORE}, {CORE}], DIRECTORY)), Trio(Ships(2), Absent, Ghost(2)), DIRECTORY);
  }

  /** A boot directory of both bundles leaves the lower one and then the upper one: its ghost in the lower bundle
      cancels the upper bundle's live record, so that release 3 still ships a directory that no bundle has. */
  lemma DroppedDirectoryStays()
    ensures var s := Run(CFG, Builds([{UPPER, LOWER}, {UPPER}, {}], DIRECTORY));
      && s.version == 3 && PATH !in EntriesOf(s, LOWER) && PATH !in EntriesOf(s, CORE)
      && PATH in EntriesOf(s, UPPER) && EntriesOf(s, UPPER)[PATH].Live() && EntriesOf(s, UPPER)[PATH].lastChange == 2
  {
    hide Run, Rests, EntriesOf;
    NotZero();
    var t1, t2 := ThreeBuilds({UPPER, LOWER}, {UPPER}, {}, DIRECTORY);
    assert t1 == Trio(Absent, Absent, Ships(1));
    assert t2 == Trio(Absent, Ships(2), Ghost(2));
    assert Next(t2, {}, 3, DIRECTORY) == Some(Trio(Absent, Ships(2), Absent));
    Shown(Run(CFG, Builds([{UPPER, LOWER}, {UPPER}, {}], DIRECTORY)), Trio(Absent, Ships(2), Absent), DIRECTORY);
  }

  /** A boot directory moves from the core into the lower bundle: the core's new ghost cancels it there, and no
      manifest of release 3 ships it. */
  lemma MovedDirectoryIsLost()
    ensures var s := Run(CFG, Builds([{CORE}, {CORE}, {LOWER}], DIRECTORY));
      && s.version == 3 && PATH !in EntriesOf(s, LOWER) && PATH !in EntriesOf(s, UPPER)
      && PATH in EntriesOf(s, CORE) && !EntriesOf(s, CORE)[PATH].Live()
  {
    hide Run, Rests, EntriesOf;
    NotZero();
    var t1, t2 := ThreeBuilds({CORE}, {CORE}, {LOWER}, DIRECTORY);
    assert t1 == t2 == Trio(Ships(1), Absent, Absent);
    assert Next(t2, {LOWER}, 3, DIRECTORY) == Some(Trio(Ghost(3), Absent, Absent));
    Shown(Run(CFG, Builds([{CORE}, {CORE}, {LOWER}], DIRECTORY)), Trio(Ghost(3), Absent, Absent), DIRECTORY);
  }

  /** A regular boot file is out of reach for ghosts: the same moves leave it shipped. */
  lemma MovedFileIsShipped()
    ensures var s := Run(CFG, Builds([{CORE}, {CORE}, {LOWER}], FILE));
      s.version == 3 && PATH in EntriesOf(s, LOWER) && EntriesOf(s, LOWER)[PATH].Live()
  {
    hide Run, Rests, EntriesOf;
    NotZero();
    var t1, t2 := ThreeBuilds({CORE}, {CORE}, {LOWER}, FILE);
    assert t1 == t2 == Trio(Ships(1), Absent, Absent);
    assert Next(t2, {LOWER}, 3, FILE) == Some(Trio(Ghost(3), Absent, Ships(3)));
    Shown(Run(CFG, Builds([{CORE}, {CORE}, {LOWER}], FILE)), Trio(Ghost(3), Absent, Ships(3)), FILE);
  }

  /** A boot file leaves the core, and the next build changes nothing: it is not published, since nothing but the
      core's ghost expired. */
  lemma ExpiredGhostStopsCore(item: Item)
    requires item.hash != ZERO_HASH
    ensures var s := Run(CFG, Builds([{CORE}, {}], item));
      s.version == 2 && GhostedSince(EntriesOf(s, CORE), PATH, 2) && Run(CFG, Builds([{CORE}, {}, {}], item)) == s
  {
    hide Run, Rests, EntriesOf, ZERO_HASH;
    var t1, t2 := ThreeBuilds({CORE}, {}, {}, item);
    assert t1 == Trio(Ships(1), Absent, Absent);
    assert t2 == Trio(Ghost(2), Absent, Absent);
    var t := TwoBuilds({CORE}, {}, item);
    Shown(Run(CFG, Builds([{CORE}, {}], item)), t2, item);
  }

  // ----- a ghost that is taken for a renamed file -----

  const MOVED: string := "/usr/share/d"

  /** A regular boot file went from the lower bundle into the core in release 2; now the lower bundle has a new file,
      and rename detection takes it for the old one. */
  function RenamingBuild(): Input {
    Input(3, 1, map[PATH := FILE, MOVED := Item(Regular, "moved")], GROUPS, map[CORE := {PATH}, LOWER := {MOVED}],
          map[UPPER := [LOWER]], map[LOWER := Outcome(map[PATH := MOVED], {MOVED})], {})
  }

  lemma SameBase(a: Traits, b: Traits)
    requires a.Basename() == b.Basename() && a.size == b.size >= BSDIFF_SIZE && SameFileType(a.filetype, b.filetype)
    ensures RenameScore(a, b) >= ENOUGH
  {
    hide LastSlash, Letters, FirstDot, SamePrefix, Traits.Dirname, Traits.Basename, Traits.AlphaOnly, CommonEnd;
    assert a.size / b.size == 1;
  }

  /** The core still ships the old file, so its size is known although the ghost has no contents: with a
      common basename and one size the two files score enough. */
  lemma GhostQualifies(size: nat, filetype: string)
    requires size >= BSDIFF_SIZE && filetype != ""
    ensures RenameScore(Traits(PATH, ZERO_HASH, size, Some(filetype)),
        Traits(MOVED, "moved", size, Some(filetype))) >= ENOUGH
  {
    hide ZERO_HASH, RenameScore, LastSlash, Traits.Basename;
    var a, b := Traits(PATH, ZERO_HASH, size, Some(filetype)), Traits(MOVED, "moved", size, Some(filetype));
    NameParts(a, "/boot", "d");
    NameParts(b, "/usr/share", "d");
    SameBase(a, b);
  }

  predicate Moved(m: Entries) {
    PATH !in m && MOVED in m && m[MOVED].Live() && m[MOVED].isRename
  }

  lemma RenameIsAllowed(job: Job, v: int)
    requires JobOk(job) && Is(job.old_, Ghost(v), FILE) && job.outcome == Outcome(map[PATH := MOVED], {MOVED})
    requires job.new_.Keys == {MOVED} && job.new_[MOVED].isFile
    ensures RenamesAllowed(job.old_, job.new_, Marked(job.Matched(CFG)), job.version, job.outcome.renames)
    ensures MOVED in job.Renamed(CFG) && job.Renamed(CFG)[MOVED].isRename
    ensures MOVED in Differences(job.old_, job.new_, CFG.minversion)
  {
    hide JobOk, Job.Matched, Marked, ZERO_HASH, PATH, MOVED, RenamedFrom, RenamedTo;
    PathsDiffer();
    MovedEnds(job, v);
    assert MOVED in job.Matched(CFG);
  }

  lemma PathsDiffer()
    ensures PATH != MOVED
  {
  }

  /** The ends of the rename, as matching leaves them. */
  lemma MovedEnds(job: Job, v: int)
    requires JobOk(job) && Is(job.old_, Ghost(v), FILE) && job.new_.Keys == {MOVED} && job.new_[MOVED].isFile
    ensures var m := Marked(job.Matched(CFG));
      && RenamedFrom(job.old_, job.new_, m, job.version, PATH) && RenamedTo(job.old_, job.new_, m, job.version, MOVED)
    ensures MOVED in job.Matched(CFG) && MOVED in Differences(job.old_, job.new_, CFG.minversion)
  {
    hide ConfigPath, StatePath, BootPath, ZERO_HASH, PATH, MOVED, FlagsOk;
    PathsDiffer();
  }

  lemma MovedIsKept()
    ensures NotPruned(CFG, MOVED)
  {
  }

  lemma GhostRenamedJob(job: Job, v: int)
    requires JobOk(job) && Is(job.old_, Ghost(v), FILE) && job.outcome == Outcome(map[PATH := MOVED], {MOVED})
    requires job.new_.Keys == {MOVED} && job.new_[MOVED].isFile && !job.bump && !job.isCore
    ensures job.Process(CFG).Written? && Moved(job.Process(CFG).work)
  {
    hide JobOk, Job.Process, BootPath, Job.Matched, Job.WithoutGhosts, RenamesAllowed, NotPruned, Job.Pruned,
      Differences;
    RenameIsAllowed(job, v);
    MovedIsKept();
    NoTypesLeft(job, v);
    IsProcessed(job);
    DifferenceForcesWriting(job, CFG, MOVED);
    GhostIsGone(job, CFG, PATH);
    ShippedRemains(job, CFG, MOVED);
    ShippedName(job, CFG, MOVED);
    KeepsMark(job, v);
  }

  /** The expiring ghost is gone before types are compared. */
  lemma NoTypesLeft(job: Job, v: int)
    requires JobOk(job) && Is(job.old_, Ghost(v), FILE) && job.new_.Keys == {MOVED} && job.new_[MOVED].isFile
    requires RenamesAllowed(job.old_, job.new_, Marked(job.Matched(CFG)), job.version, job.outcome.renames)
    ensures TypesOk(job.old_, job.new_, job.WithoutGhosts(CFG))
  {
    hide JobOk, Job.Matched, Job.WithoutGhosts, RenamesAllowed;
    DeadName(job, CFG, PATH);
  }

  lemma IsProcessed(job: Job)
    requires RenamesAllowed(job.old_, job.new_, Marked(job.Matched(CFG)), job.version, job.outcome.renames)
    requires TypesOk(job.old_, job.new_, job.WithoutGhosts(CFG)) && !job.isCore
    ensures !job.Process(CFG).Failed? && (job.Process(CFG).Written? ==> job.Process(CFG).work == job.Pruned(CFG))
  {
    hide Job.Matched, Job.WithoutGhosts, RenamesAllowed, TypesOk, Job.Pruned, Differences;
  }

  lemma KeepsMark(job: Job, v: int)
    requires MOVED in job.Pruned(CFG) && MOVED in job.Renamed(CFG) && job.Renamed(CFG)[MOVED].isRename
    requires MOVED in job.outcome.linked
    ensures job.Pruned(CFG)[MOVED].isRename
  {
    hide Job.Renamed, Job.Matched, AnyPrefix;
    assert job.WithoutGhosts(CFG)[MOVED] == job.Renamed(CFG)[MOVED];
  }

  lemma RenamingFacts(s: State)
    requires s.version < 3
    ensures var in_ := RenamingBuild();
      && OfThree(in_) && Sensible(s, in_) && Ordinary(in_, CORE, FILE) && Ordinary(in_, UPPER, FILE)
      && PATH in in_.ShippedBy(CORE) && PATH !in in_.ShippedBy(UPPER) && [CORE] + Others(GROUPS) == GROUPS
  {
    NotZero();
    BuildIsSensible(s, 3, {}, FILE);
    assert |ZERO_HASH| == 64 && |"moved"| == 5;
    hide ZERO_HASH;
  }

  /** The core's and the upper bundle's turns. */
  lemma RenamingStarts(s: State, t: Trio) returns (r1: Progressing, r2: Progressing)
    requires Rests(s, t, FILE) && t == Trio(Ships(2), Absent, Ghost(2)) && s.version < 3
    ensures var in_, full := RenamingBuild(), FullManifest(CFG, s, RenamingBuild());
      && r1 == BundleTurn(CFG, s, in_, full, CORE, BeginBundles(s, in_))
      && r2 == BundleTurn(CFG, s, in_, full, UPPER, r1)
      && Untouched(s, in_, [LOWER], r2) && CORE in r2.oldWork && Is(r2.oldWork[CORE], Ships(2), FILE)
      && CORE in r2.newWork && Is(r2.newWork[CORE], Ships(2), FILE)
  {
    hide Is, OldBundle, LoopOk, Sensible, FullManifest, BundleTurn, BundleRaw, RenamingBuild, OfThree, Untouched,
      Stands, ZERO_HASH, PATH, MOVED, BeginBundles, Ordinary, Hidden, OldIncludeMap, NewIncludeMap, StateOk, IsFile;
    var in_ := RenamingBuild();
    var r0 := BeginBundles(s, in_);
    RenamingFacts(s);
    RenamingIsOfThree();
    RestsOk(s, t);
    LoopStarts(CFG, s, in_, GROUPS);
    NothingMoved(s, in_);
    NothingHidesCore(s, in_, r0.oldWork, IsFile(t.core, FILE));
    NothingHidesCore(s, in_, r0.newWork, FILE.kind.Regular?);
    assert [CORE] + [UPPER, LOWER] == GROUPS && [UPPER] + [LOWER] == [UPPER, LOWER];
    r1 := RenamingPasses(s, t, [UPPER, LOWER], CORE, r0, t.core, true);
    r2 := RenamingPasses(s, t, [LOWER], UPPER, r1, t.upper, false);
  }

  /** A turn of a bundle that has, or has not, what it had, and whose includes do not matter. */
  lemma RenamingPasses(s: State, t: Trio, left: seq<string>, g: string, r: Progressing, held: What, listed: bool)
    returns (r': Progressing)
    requires Rests(s, t, FILE) && s.version < 3 && g in GROUPS && g !in left && Stands(s, g, held, FILE)
    requires var in_ := RenamingBuild();
      && Untouched(s, in_, [g] + left, r) && Ordinary(in_, g, FILE) && OfThree(in_)
      && (if listed then held.Ships? && !Hidden(r.oldWork, OldIncludeMap(s, in_), g, IsFile(held, FILE))
            && PATH in in_.ShippedBy(g) && !Hidden(r.newWork, NewIncludeMap(in_), g, true)
          else held.Absent? && PATH !in in_.ShippedBy(g))
    ensures var in_ := RenamingBuild();
      && r' == BundleTurn(CFG, s, in_, FullManifest(CFG, s, in_), g, r) && Moves(r, r', g)
      && Untouched(s, in_, left, r')
      && Is(r'.oldWork[g], held, FILE) && Is(r'.newWork[g], held, FILE)
  {
    hide Is, Hidden, OldIncludeMap, NewIncludeMap, OldBundle, LoopOk, Sensible, FullManifest, BundleTurn, EntriesOf,
      BundleRaw, OldIncludes, StateOk, Steady, Ordinary, RenamingBuild, OfThree, ZERO_HASH;
    var in_ := RenamingBuild();
    RenamingFacts(s);
    RenamingIsOfThree();
    assert ([g] + left)[0] == g;
    Waits(s, t, in_, FILE, g, r);
    SmallTurn(s, in_, left, g, r, held, FILE);
    r' := BundleTurn(CFG, s, in_, FullManifest(CFG, s, in_), g, r);
    UntouchedStep(s, in_, left, g, r, r');
  }

  lemma RenamingIsOfThree()
    ensures RenamingBuild().groups == GROUPS && RenamingBuild().version == 3 && OfThree(RenamingBuild())
  {
  }

  lemma RenamingLower()
    ensures var in_ := RenamingBuild();
      && in_.ShippedBy(LOWER) == {MOVED} && MOVED in in_.image && in_.image[MOVED].kind.Regular? && in_.format == 1
      && in_.OutcomeOf(LOWER) == Outcome(map[PATH := MOVED], {MOVED})
    ensures PATH != MOVED
  {
  }

  lemma RenamingJob(s: State, t: Trio, r: Progressing)
    requires Rests(s, t, FILE) && t == Trio(Ships(2), Absent, Ghost(2)) && s.version < 3
    requires Untouched(s, RenamingBuild(), [LOWER], r) && CORE in r.oldWork && Is(r.oldWork[CORE], Ships(2), FILE)
    requires CORE in r.newWork && Is(r.newWork[CORE], Ships(2), FILE)
    ensures LOWER in r.oldWork && LOWER in r.newWork
    ensures var p := JobOf(s, RenamingBuild(), FullManifest(CFG, s, RenamingBuild()), LOWER, r).Process(CFG);
      p.Written? && Moved(p.work)
  {
    hide Is, OldIncludeMap, NewIncludeMap, OldBundle, LoopOk, Sensible, FullManifest, EntriesOf, OldIncludes, StateOk,
      JobOk, JobOf, Matches, Closure, Job.Process, RenamingBuild, ZERO_HASH, PATH, MOVED;
    var in_, full := RenamingBuild(), FullManifest(CFG, s, RenamingBuild());
    RenamingFacts(s);
    RenamingIsOfThree();
    RenamingLower();
    assert [LOWER][0] == LOWER && [LOWER] + [] == [LOWER];
    var job := JobOf(s, in_, full, LOWER, r);
    JobIsOk(CFG, s, in_, [LOWER], LOWER, r);
    JobFlags(s, in_, full, LOWER, r);
    JobOutcome(s, in_, full, LOWER, r);
    OldEntriesOf(s, in_, LOWER);
    SaysFile(EntriesOf(s, LOWER), t.lower, FILE);
    RenamingClosures(s, t, in_);
    SaysMatches(r.oldWork, CORE, Ships(2), false, FILE);
    OldListed(CFG, s, in_, LOWER, [], r, PATH);
    NothingElse(r.newWork, CORE, Ships(2), FILE);
    NewListed(CFG, s, in_, LOWER, [], r, MOVED);
    NewOnlyShipped(CFG, s, in_, [], LOWER, r);
    NewItem(CFG, s, in_, [LOWER], LOWER, r, MOVED);
    OldIs(job, EntriesOf(s, LOWER), t.lower);
    Waits(s, t, in_, FILE, LOWER, r);
    assert job.new_.Keys == {MOVED};
    GhostRenamedJob(job, 2);
  }

  lemma OldIs(job: Job, entries: Entries, what: What)
    requires Is(entries, what, FILE) && Part(job.old_, entries) && PATH in job.old_
    ensures Is(job.old_, what, FILE)
  {
  }

  lemma NothingElse(work: Work, c: string, what: What, item: Item)
    requires c in work && Is(work[c], what, item)
    ensures !Matches(work, c, MOVED, true)
  {
    assert MOVED != PATH by { assert |MOVED| != |PATH|; }
  }

  lemma IncludesAlike(s: State, a: Input, b: Input)
    requires a.groups == b.groups && a.format == b.format && a.includes == b.includes
    ensures OldIncludeMap(s, a) == OldIncludeMap(s, b) && NewIncludeMap(a) == NewIncludeMap(b)
  {
    hide OldIncludes, NewIncludes;
  }

  lemma RenamingClosures(s: State, t: Trio, in_: Input)
    requires Rests(s, t, FILE) && in_ == RenamingBuild()
    ensures Closure(OldIncludeMap(s, in_), LOWER) == {CORE} == Closure(NewIncludeMap(in_), LOWER)
  {
    hide StateOk, Is, OldIncludes, NewIncludes, Closure, OldIncludeMap, NewIncludeMap, Rests;
    OldMapFacts(s, 3, {}, FILE, t);
    IncludeFacts(3, {}, FILE);
    MapIs(Build(3, {}, FILE));
    IncludesAlike(s, in_, Build(3, {}, FILE));
    LowerClosure(OldIncludeMap(s, in_));
    LowerClosure(NewIncludeMap(in_));
  }

  lemma RenamingEnds(s: State, t: Trio, r1: Progressing, r2: Progressing)
    requires Rests(s, t, FILE) && s.version < 3 && Untouched(s, RenamingBuild(), [LOWER], r2)
    requires var in_, full := RenamingBuild(), FullManifest(CFG, s, RenamingBuild());
      && r1 == BundleTurn(CFG, s, in_, full, CORE, BeginBundles(s, in_))
      && r2 == BundleTurn(CFG, s, in_, full, UPPER, r1)
      && LOWER in r2.oldWork && LOWER in r2.newWork
      && JobOf(s, in_, full, LOWER, r2).Process(CFG).Written? && Moved(JobOf(s, in_, full, LOWER, r2).Process(CFG).work)
    ensures var s' := Step(CFG, s, RenamingBuild()); s'.version == 3 && Moved(EntriesOf(s', LOWER))
  {
    hide Rests, Moved, FullManifest, BundleTurn, StateOk, Sensible, OldBundle, LoopOk, WrittenFull, FullfileHashes,
      BeginBundles, BundleTurns, JobOf, Job.Process, RenamingBuild;
    var in_, full := RenamingBuild(), FullManifest(CFG, s, RenamingBuild());
    RenamingFacts(s);
    RenamingIsOfThree();
    RestsOk(s, t);
    var r3 := RenamingTurn(s, t, r2);
    ThreeTurns(s, in_, full, BeginBundles(s, in_), r1, r2, r3);
    AllWorks(s, in_, r3);
  }

  /** The lower bundle's turn. */
  lemma RenamingTurn(s: State, t: Trio, r: Progressing) returns (r': Progressing)
    requires Rests(s, t, FILE) && s.version < 3 && Untouched(s, RenamingBuild(), [LOWER], r)
    requires var in_, full := RenamingBuild(), FullManifest(CFG, s, RenamingBuild());
      && LOWER in r.oldWork && LOWER in r.newWork
      && JobOf(s, in_, full, LOWER, r).Process(CFG).Written? && Moved(JobOf(s, in_, full, LOWER, r).Process(CFG).work)
    ensures r' == BundleTurn(CFG, s, RenamingBuild(), FullManifest(CFG, s, RenamingBuild()), LOWER, r)
    ensures LoopOk(CFG, s, RenamingBuild(), [], r') && r'.Running? && LOWER in r'.bundles
    ensures r'.bundles[LOWER].version == 3 && Moved(r'.bundles[LOWER].entries)
  {
    hide Rests, Moved, FullManifest, BundleTurn, StateOk, Sensible, OldBundle, LoopOk, JobOf, Job.Process,
      RenamingBuild;
    var in_, full := RenamingBuild(), FullManifest(CFG, s, RenamingBuild());
    RenamingFacts(s);
    RenamingIsOfThree();
    RestsOk(s, t);
    assert [LOWER][0] == LOWER && [LOWER] + [] == [LOWER];
    r' := BundleTurn(CFG, s, in_, full, LOWER, r);
    Waits(s, t, in_, FILE, LOWER, r);
    TurnStops(CFG, s, in_, full, LOWER, r);
    TurnPublishes(CFG, s, in_, full, LOWER, r);
    TurnOk(CFG, s, in_, [], LOWER, r);
  }

  lemma RestsOk(s: State, t: Trio)
    requires Rests(s, t, FILE)
    ensures StateOk(s) && (s.momFormat.Some? ==> s.momFormat.value <= 1)
  {
  }

  lemma RunLast(inputs: seq<Input>, in_: Input)
    ensures Run(CFG, inputs + [in_]) == Step(CFG, Run(CFG, inputs), in_)
  {
    hide Step;
    var all := inputs + [in_];
    assert all[..|all| - 1] == inputs;
  }

  /** The release with that rename is published. Its manifest of the lower bundle marks the new file as renamed and
      does not list the old one: the ghost went before its rename could be cleaned up. */
  lemma RenameFromGhost()
    ensures var s' := Run(CFG, Builds([{LOWER}, {CORE}], FILE) + [RenamingBuild()]);
      s'.version == 3 && Moved(EntriesOf(s', LOWER))
  {
    hide Run, Rests, EntriesOf, RenamingBuild, Moved, FullManifest, BundleTurn, StateOk, Sensible, OldBundle, LoopOk,
      WrittenFull, FullfileHashes, BeginBundles, BundleTurns, JobOf, Job.Process;
    NotZero();
    var builds := Builds([{LOWER}, {CORE}], FILE);
    var s, t, in_ := Run(CFG, builds), Trio(Ships(2), Absent, Ghost(2)), RenamingBuild();
    var t1 := TwoBuilds({LOWER}, {CORE}, FILE);
    assert t1 == Trio(Absent, Absent, Ships(1));
    assert Next(t1, {CORE}, 2, FILE) == Some(t);
    var r1, r2 := RenamingStarts(s, t);
    RenamingJob(s, t, r2);
    RenamingEnds(s, t, r1, r2);
    RunLast(builds, in_);
  }
}
