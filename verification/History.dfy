/** `last_change` is exact over whole histories, for every bundle. */
module History {
  import opened Sorting
  import opened Files
  import opened Heuristics
  import opened Matching
  import opened Pruning
  import opened Subtraction
  import opened IncludeLists
  import opened Release
  import opened Availability
  import opened Lifecycle
  import opened Shipping

  // ----- the reference: what the builds themselves say -----

  /** What a bundle has to list: what it ships and no bundle that it includes does. */
  ghost function Ships(in_: Input, g: string, n: string): Option<Item> {
    if g in in_.groups && n in in_.ShippedBy(g) && n in in_.image
       && !exists c | c in Closure(NewIncludeMap(in_), g) :: n in in_.ShippedBy(c)
    then Some(in_.image[n]) else None
  }

  ghost function ShippedLast(h: seq<Input>, g: string, n: string): Option<Item> {
    if h == [] then None else Ships(h[|h| - 1], g, n)
  }

  /** The latest release at which the bundle began or ceased to list the name, or its type or hash changed. */
  ghost function LastDifference(h: seq<Input>, g: string, n: string): int {
    if h == [] then 0
    else if Ships(h[|h| - 1], g, n) != ShippedLast(h[..|h| - 1], g, n) then h[|h| - 1].version
    else LastDifference(h[..|h| - 1], g, n)
  }

  ghost predicate EverShipped(h: seq<Input>, g: string, n: string) {
    exists i | 0 <= i < |h| :: Ships(h[i], g, n).Some?
  }

  /** The releases since bundle `g` was last added to the group file. */
  ghost function Since(h: seq<Input>, g: string): seq<Input> {
    if h == [] || g !in h[|h| - 1].groups then [] else Since(h[..|h| - 1], g) + [h[|h| - 1]]
  }

  /** The builds that got published. */
  ghost function Releases(cfg: Config, inputs: seq<Input>): seq<Input> {
    if inputs == [] then [] else
      var before, last := inputs[..|inputs| - 1], inputs[|inputs| - 1];
      Releases(cfg, before) + if Publishes(cfg, Run(cfg, before), last) then [last] else []
  }

  // ----- what a manifest says -----

  predicate SameItem(e: Entry, item: Item) {
    e.isFile == item.kind.Regular? && e.isDir == item.kind.Directory? && e.isLink == item.kind.Symlink? &&
      e.hash == item.hash
  }

  /** The manifest of bundle `g` tells this name's history. */
  ghost predicate Tells(h: seq<Input>, g: string, m: Entries, n: string) {
    if !EverShipped(h, g, n) then n !in m
    else
      && n in m && m[n].lastChange == LastDifference(h, g, n) >= 0
      && (if ShippedLast(h, g, n).Some? then m[n].Live() && SameItem(m[n], ShippedLast(h, g, n).value)
          else m[n].isDeleted)
  }

  function EntriesOf(s: State, g: string): Entries {
    if g in s.bundles && s.bundles[g].version != 0 then s.bundles[g].entries else map[]
  }

  lemma OldEntriesOf(s: State, in_: Input, g: string)
    ensures OldBundle(s, in_, g).entries == EntriesOf(s, g)
  {
  }

  // ----- one name through one job -----

  lemma LastOf(h: seq<Input>, in_: Input, g: string, n: string)
    ensures var h' := h + [in_];
      && ShippedLast(h', g, n) == Ships(in_, g, n)
      && LastDifference(h', g, n) ==
           (if Ships(in_, g, n) != ShippedLast(h, g, n) then in_.version else LastDifference(h, g, n))
      && (EverShipped(h', g, n) <==> EverShipped(h, g, n) || Ships(in_, g, n).Some?)
      && (ShippedLast(h, g, n).Some? ==> EverShipped(h, g, n))
  {
    hide Ships;
    var h' := h + [in_];
    assert h'[..|h'| - 1] == h;
    if EverShipped(h, g, n) {
      var i :| 0 <= i < |h| && Ships(h[i], g, n).Some?;
      assert h'[i] == h[i];
    }
    if Ships(in_, g, n).Some? {
      assert h'[|h|] == in_;
    }
  }

  /** Old and new agree on a shipped name exactly when its item did not change. */
  lemma UnchangedItem(cfg: Config, old_: Entry, new_: Entry, n: string, item: Item, before: Option<Item>)
    requires WrittenOk(n, old_) && NewOk(n, new_, new_.lastChange) && SameItem(new_, item)
    requires old_.lastChange >= cfg.minversion
    requires if before.Some? then old_.Live() && SameItem(old_, before.value) else old_.isDeleted
    ensures Unchanged(old_, new_, cfg.minversion) <==> before == Some(item)
  {
    hide ConfigPath, StatePath, BootPath, ZERO_HASH;
  }

  /** A name that is neither a boot file nor pruned reaches the written manifest. */
  lemma PlainStays(job: Job, cfg: Config, n: string)
    requires JobOk(job) && !job.bump && Plain(cfg, n)
    requires RenamesAllowed(job.old_, job.new_, Marked(job.Matched(cfg)), job.version, job.outcome.renames)
    ensures n in job.Pruned(cfg) <==> n in job.old_ || n in job.new_
    ensures n in job.old_ && n !in job.new_ ==>
      var e := job.Pruned(cfg)[n];
      e.isDeleted && e.lastChange == if job.old_[n].isDeleted then job.old_[n].lastChange else job.version
  {
    hide Job.Matched, Job.WithoutGhosts, RenamesAllowed, JobOk, ConfigPath, StatePath, BootPath, AnyPrefix, ZERO_HASH;
    if n in job.new_ {
      ShippedRemains(job, cfg, n);
    } else if n in job.old_ {
      OldGhostIsBoot(job, n);
      DeadName(job, cfg, n);
    }
    if n in job.Pruned(cfg) {
      PrunedFrom(job, cfg, n);
      RemainingName(job, cfg, n);
      hide Job.Pruned;
      MatchedFrom(job, cfg, n);
    }
  }

  lemma MatchedFrom(job: Job, cfg: Config, n: string)
    requires n in job.Matched(cfg)
    ensures n in job.old_ || n in job.new_
  {
  }

  lemma OldGhostIsBoot(job: Job, n: string)
    requires JobOk(job) && n in job.old_ && !BootPath(n)
    ensures !job.old_[n].isGhosted
  {
  }

  /** What one job means for a name that is neither a boot file nor pruned. */
  ghost predicate NameFacts(job: Job, cfg: Config, h: seq<Input>, in_: Input, g: string, n: string) {
    && (n in job.new_ <==> Ships(in_, g, n).Some?)
    && (n in job.new_ ==> SameItem(job.new_[n], Ships(in_, g, n).value))
    && (n in job.old_ && n in job.new_ ==>
          (Unchanged(job.old_[n], job.new_[n], cfg.minversion) <==> ShippedLast(h, g, n) == Ships(in_, g, n)))
    && job.version == in_.version > 0
  }

  lemma WrittenTells(job: Job, cfg: Config, h: seq<Input>, in_: Input, g: string, n: string)
    requires JobOk(job) && !job.bump && Plain(cfg, n) && NameFacts(job, cfg, h, in_, g, n) && Tells(h, g, job.old_, n)
    requires RenamesAllowed(job.old_, job.new_, Marked(job.Matched(cfg)), job.version, job.outcome.renames)
    ensures Tells(h + [in_], g, job.Pruned(cfg), n)
  {
    hide Job.Matched, Job.Pruned, RenamesAllowed, JobOk, Plain, LastDifference, EverShipped, ShippedLast, Ships,
      Unchanged;
    LastOf(h, in_, g, n);
    PlainStays(job, cfg, n);
    if n in job.new_ {
      ShippedName(job, cfg, n);
    }
  }

  /** A component that stays at its old version has nothing to say about the name. */
  lemma KeptNoDifference(job: Job, cfg: Config, n: string)
    requires JobOk(job) && !job.bump && Plain(cfg, n) && job.Process(cfg).Kept?
    ensures n !in Differences(job.old_, job.new_, cfg.minversion)
  {
    hide Job.Matched, Job.Pruned, RenamesAllowed, JobOk, Plain, Unchanged, TypesOk;
    var d := Differences(job.old_, job.new_, cfg.minversion);
    if job.Same(cfg) {
      assert d == {};
    } else {
      PlainIs(cfg, n);
      PlainStays(job, cfg, n);
      assert n !in NewFiles(job.Pruned(cfg), job.version);
      if n in job.new_ {
        ShippedName(job, cfg, n);
      }
    }
  }

  lemma KeptTells(job: Job, cfg: Config, h: seq<Input>, in_: Input, g: string, n: string)
    requires NameFacts(job, cfg, h, in_, g, n) && Tells(h, g, job.old_, n)
    requires n !in Differences(job.old_, job.new_, cfg.minversion)
    ensures Tells(h + [in_], g, job.old_, n)
  {
    hide LastDifference, EverShipped, ShippedLast, Ships, Unchanged;
    LastOf(h, in_, g, n);
  }

  lemma NewVersion(job: Job, n: string)
    requires JobOk(job) && n in job.new_
    ensures NewOk(n, job.new_[n], job.new_[n].lastChange)
  {
  }

  lemma VersionsGrow(s: State, in_: Input)
    requires StateOk(s) && Sensible(s, in_)
    ensures in_.version > s.version >= 0
  {
  }

  lemma NotPublished(cfg: Config, s: State, in_: Input)
    requires !Publishes(cfg, s, in_)
    ensures Step(cfg, s, in_) == s
  {
  }

  // ----- the two sides of a bundle's job -----

  /** The reference agrees with subtraction: within one image the types agree. */
  lemma ShipsIsSubtracted(in_: Input, g: string, n: string)
    requires g in in_.groups
    ensures Ships(in_, g, n).Some? <==> n in SubtractIncludes(RawWork(in_), NewIncludeMap(in_), g)
  {
    hide Closure, NewIncludes;
    var raw, inc := RawWork(in_), NewIncludeMap(in_);
    if n in raw[g] {
      assert CancelledIn(raw, inc, g, n) <==> exists c | c in Closure(inc, g) :: n in in_.ShippedBy(c) by {
        if c :| c in Closure(inc, g) && n in in_.ShippedBy(c) {
          ClosureKnown(inc, g, c);
          assert n in raw[c] && Cancels(raw[g][n], raw[c][n]);
        }
      }
    }
  }

  lemma ClosureKnown(inc: Includes, g: string, c: string)
    requires c in Closure(inc, g)
    ensures c in inc
  {
  }

  /** The bundles in `done` have been subtracted. */
  ghost predicate Subtracted(in_: Input, newWork: Work, done: set<string>, n: string) {
    && Progress(OnlyIn(RawWork(in_), n), OnlyIn(newWork, n), NewIncludeMap(in_), done)
    && AllHarmless(OnlyIn(RawWork(in_), n), OnlyIn(newWork, n), done)
  }

  lemma OnlyHas(m: Entries, n: string)
    ensures n in Only(m, n) <==> n in m
    ensures n in m ==> Only(m, n)[n] == m[n]
  {
  }

  lemma ShippedHas(m: Entries, n: string)
    ensures n in Shipped(m) <==> n in m && m[n].Live()
  {
  }

  /** The new side: the job lists the name exactly if the reference says so. */
  lemma NewSide(cfg: Config, s: State, in_: Input, left: seq<string>, g: string, r: Progressing, rank: map<string, nat>,
      done: set<string>, n: string)
    requires StateOk(s) && Sensible(s, in_) && g in in_.groups && g in left && LoopOk(cfg, s, in_, left, r)
    requires g !in done
    requires Ranked(NewIncludeMap(in_), rank) && Subtracted(in_, r.newWork, done, n)
    requires r.newWork.Keys == NewIncludeMap(in_).Keys
    ensures n in JobOf(s, in_, FullManifest(cfg, s, in_), g, r).new_ <==> Ships(in_, g, n).Some?
  {
    hide FullManifest, StateOk, Sensible, LoopOk, JobOk, JobOf, Ranked, SubtractIncludes, Closure, NewIncludeMap, Ships,
      Shipped, Only, RawWork, Harmless, Typical;
    LoopHas(cfg, s, in_, left, r);
    var job := JobOf(s, in_, FullManifest(cfg, s, in_), g, r);
    var inc, raw := NewIncludeMap(in_), RawWork(in_);
    JobIsOk(cfg, s, in_, left, g, r);
    JobSubtracts(s, in_, FullManifest(cfg, s, in_), g, r, rank);
    NoGhostAround(OnlyIn(raw, n), OnlyIn(r.newWork, n), inc, done, g);
    TurnIsExact(OnlyIn(raw, n), OnlyIn(r.newWork, n), inc, rank, done, g);
    OnlySubtract(raw, inc, g, n);
    OnlySubtract(r.newWork, inc, g, n);
    OnlyHas(SubtractIncludes(raw, inc, g), n);
    OnlyHas(SubtractIncludes(r.newWork, inc, g), n);
    ShipsIsSubtracted(in_, g, n);
    ShippedHas(job.new_, n);
    ShippedHas(SubtractIncludes(r.newWork, inc, g), n);
    if n in job.new_ {
      NewIsLive(job, n);
    }
    if n in SubtractIncludes(raw, inc, g) {
      RawIsLive(in_, inc, g, n);
    }
  }

  lemma RawIsLive(in_: Input, inc: Includes, g: string, n: string)
    requires g in in_.groups && n in SubtractIncludes(RawWork(in_), inc, g)
    ensures SubtractIncludes(RawWork(in_), inc, g)[n].Live()
  {
    hide Closure;
  }

  lemma LoopHas(cfg: Config, s: State, in_: Input, left: seq<string>, r: Progressing)
    requires LoopOk(cfg, s, in_, left, r)
    ensures r.Running? && (forall g | g in in_.groups :: g in r.oldWork && g in r.newWork)
    ensures forall g | g in in_.groups && g in left ::
      r.newWork[g] == BundleRaw(in_.image, in_.ShippedBy(g), in_.version)
    ensures forall g | g in r.oldWork :: g in in_.groups && Part(r.oldWork[g], OldBundle(s, in_, g).entries)
  {
    hide BundleRaw, OldBundle, Part, WorkOk, ArchivePart;
  }

  lemma NewItem(cfg: Config, s: State, in_: Input, left: seq<string>, g: string, r: Progressing, n: string)
    requires StateOk(s) && Sensible(s, in_) && g in in_.groups && g in left && LoopOk(cfg, s, in_, left, r)
    requires r.Running? && g in r.oldWork && g in r.newWork && n in JobOf(s, in_, FullManifest(cfg, s, in_), g, r).new_
    ensures n in in_.image && SameItem(JobOf(s, in_, FullManifest(cfg, s, in_), g, r).new_[n], in_.image[n])
  {
    hide FullManifest, StateOk, Sensible, LoopOk, FlagsOk, SubtractIncludes, ConfigPath, StatePath, BootPath, OldBundle,
      OldIncludeMap, NewIncludeMap;
    LoopHas(cfg, s, in_, left, r);
    var full := FullManifest(cfg, s, in_);
    var work := r.newWork[g := Marked(AddHashes(r.newWork[g], full))];
    SubtractedPart(work, NewIncludeMap(in_), g);
    assert n in work[g];
    FullHas(cfg, s, in_, n);
    FullName(cfg, s, in_, n);
  }

  // ----- what holds after every release -----

  /** The manifest ships the name exactly if the bundle has to list it, and as it is in the image. */
  ghost predicate ShipsRight(last: Input, g: string, m: Entries, n: string) {
    && (n in m && m[n].Live() <==> Ships(last, g, n).Some?)
    && (Ships(last, g, n).Some? ==> SameItem(m[n], Ships(last, g, n).value))
  }

  function EntriesIn(m: Published): Entries {
    if m.version != 0 then m.entries else map[]
  }

  /** A published bundle ships what it has to, remembers what it included, and tells its history where that is exact. */
  ghost predicate Good(h: seq<Input>, last: Input, g: string, m: Published, n: string, exact: bool) {
    && ShipsRight(last, g, EntriesIn(m), n)
    && (g != CORE ==> OldIncludes(if m.version != 0 then m.includes else []) == last.IncludesOf(g))
    && (exact ==> Tells(h, g, EntriesIn(m), n) && (m.version != 0 ==> m.format == last.format))
  }

  ghost predicate Told(h: seq<Input>, s: State, n: string, exact: bool) {
    if h == [] then s.bundles == map[]
    else
      var last := h[|h| - 1];
      Acyclic(last) && s.bundles.Keys == (set g | g in last.groups)
      && forall g | g in last.groups :: Good(Since(h, g), last, g, s.bundles[g], n, exact)
  }

  lemma SinceGrows(h: seq<Input>, in_: Input, g: string)
    ensures Since(h + [in_], g) == if g in in_.groups then Since(h, g) + [in_] else []
  {
    var h' := h + [in_];
    assert h'[..|h'| - 1] == h;
  }

  lemma SinceLast(h: seq<Input>, g: string, n: string)
    requires h != [] && g in h[|h| - 1].groups
    ensures ShippedLast(Since(h, g), g, n) == Ships(h[|h| - 1], g, n)
  {
    hide Ships;
    assert Since(h, g) == Since(h[..|h| - 1], g) + [h[|h| - 1]];
  }

  lemma NothingSince(g: string, n: string)
    ensures Tells([], g, map[], n)
  {
    hide Ships;
  }

  lemma ToldTells(h: seq<Input>, s: State, g: string, n: string)
    requires Told(h, s, n, true)
    ensures Tells(Since(h, g), g, EntriesOf(s, g), n)
  {
    hide Tells, ShipsRight;
    NothingSince(g, n);
  }

  lemma ToldShips(h: seq<Input>, s: State, g: string, n: string, exact: bool)
    requires Told(h, s, n, exact) && h != [] && g in h[|h| - 1].groups
    ensures g in s.bundles && ShipsRight(h[|h| - 1], g, EntriesOf(s, g), n)
  {
    hide Tells, ShipsRight, Acyclic;
    assert Good(Since(h, g), h[|h| - 1], g, s.bundles[g], n, exact);
  }

  /** A bundle that was there in the last release still includes what it included then. */
  lemma OldMap(h: seq<Input>, s: State, in_: Input, g: string, n: string, exact: bool)
    requires Told(h, s, n, exact) && h != [] && g in h[|h| - 1].groups && g in in_.groups
    ensures OldIncludeMap(s, in_)[g] == NewIncludeMap(h[|h| - 1])[g]
  {
    hide Tells, ShipsRight, NewIncludes, OldIncludes;
    assert Good(Since(h, g), h[|h| - 1], g, s.bundles[g], n, exact);
  }

  lemma {:induction false} PathStays(big: Includes, small: Includes, rank: map<string, nat>, p: seq<string>)
    requires Ranked(small, rank) && (forall b | b in big && b in small :: big[b] == small[b])
    requires Path(big, p) && p[0] in small
    ensures Path(small, p)
    decreases |p|
  {
    assert p[0] in big && p[1] in big[p[0]];
    if |p| > 2 {
      var q := p[1..];
      forall i | 0 <= i < |q| - 1
        ensures q[i] in big && q[i + 1] in big[q[i]]
      {
        assert q[i] == p[i + 1] && q[i + 1] == p[i + 2];
      }
      PathStays(big, small, rank, q);
      forall i | 0 <= i < |p| - 1
        ensures p[i] in small && p[i + 1] in small[p[i]]
      {
        if i > 0 {
          assert q[i - 1] == p[i] && q[i] == p[i + 1];
        }
      }
    }
  }

  /** Bundles that were added since are out of reach for those that were there. */
  lemma ClosureStays(big: Includes, small: Includes, rank: map<string, nat>, g: string, c: string)
    requires Ranked(small, rank) && (forall b | b in big && b in small :: big[b] == small[b])
    requires g in small && c in Closure(big, g)
    ensures c in Closure(small, g)
  {
    hide Ranked;
    var p :| Path(big, p) && p[0] == g && p[|p| - 1] == c;
    PathStays(big, small, rank, p);
    ReachesDown(small, rank, g, c);
  }

  lemma InBundles(h: seq<Input>, s: State, g: string, n: string, exact: bool)
    requires Told(h, s, n, exact) && EntriesOf(s, g) != map[]
    ensures h != [] && g in h[|h| - 1].groups && Acyclic(h[|h| - 1])
  {
    hide Good, Acyclic;
  }

  lemma NoPlainGhost(s: State, in_: Input, g: string, n: string)
    requires StateOk(s) && Sensible(s, in_) && n in EntriesOf(s, g) && !BootPath(n)
    ensures EntriesOf(s, g)[n].Live() <==> !EntriesOf(s, g)[n].isDeleted
  {
    hide StateOk, Sensible, ConfigPath, StatePath, BootPath, ZERO_HASH, EntriesOf;
    OldEntriesOf(s, in_, g);
    OldBundleRecord(s, in_, g, n);
  }

  /** Two published manifests, one of which includes the other, never both ship the name. */
  lemma NoOverlap(h: seq<Input>, s: State, in_: Input, g: string, c: string, n: string, exact: bool)
    requires StateOk(s) && Sensible(s, in_) && Told(h, s, n, exact) && g in in_.groups && !BootPath(n)
    requires c in Closure(OldIncludeMap(s, in_), g)
    requires n in EntriesOf(s, g) && n in EntriesOf(s, c)
    ensures !Cancels(EntriesOf(s, g)[n], EntriesOf(s, c)[n])
  {
    hide StateOk, Sensible, Good, SameItem, Closure, OldIncludeMap, NewIncludeMap, Ships, Told, EntriesOf, Since,
      Ranked, BootPath;
    InBundles(h, s, g, n, exact);
    InBundles(h, s, c, n, exact);
    var last := h[|h| - 1];
    var rank: map<string, nat> :| Ranked(NewIncludeMap(last), rank);
    MapKeys(s, in_);
    MapKeys(s, last);
    forall b | b in OldIncludeMap(s, in_) && b in NewIncludeMap(last)
      ensures OldIncludeMap(s, in_)[b] == NewIncludeMap(last)[b]
    {
      OldMap(h, s, in_, b, n, exact);
    }
    ClosureStays(OldIncludeMap(s, in_), NewIncludeMap(last), rank, g, c);
    ToldShips(h, s, g, n, exact);
    ToldShips(h, s, c, n, exact);
    NoPlainGhost(s, in_, g, n);
    NoPlainGhost(s, in_, c, n);
    OnlyOneShips(last, g, c, n);
  }

  lemma MapKeys(s: State, in_: Input)
    ensures forall g :: g in OldIncludeMap(s, in_) <==> g in in_.groups
    ensures forall g :: g in NewIncludeMap(in_) <==> g in in_.groups
  {
  }

  lemma OnlyOneShips(in_: Input, g: string, c: string, n: string)
    requires c in Closure(NewIncludeMap(in_), g)
    ensures Ships(in_, g, n).None? || Ships(in_, c, n).None?
  {
    hide Closure, NewIncludeMap;
  }

  /** The old side: the published entry, untouched by subtraction. */
  lemma OldSide(cfg: Config, s: State, in_: Input, h: seq<Input>, left: seq<string>, g: string, r: Progressing,
      n: string, exact: bool)
    requires StateOk(s) && Sensible(s, in_) && g in in_.groups && g in left && LoopOk(cfg, s, in_, left, r)
    requires Told(h, s, n, exact) && !BootPath(n)
    requires r.Running? && g in r.oldWork && g in r.newWork && r.oldWork[g] == OldBundle(s, in_, g).entries
    ensures var o := JobOf(s, in_, FullManifest(cfg, s, in_), g, r).old_;
      (n in o <==> n in EntriesOf(s, g)) && (n in o ==> o[n] == EntriesOf(s, g)[n])
  {
    hide FullManifest, StateOk, Sensible, LoopOk, Told, OldBundle, OldIncludeMap, NewIncludeMap, Closure, MarkEntry,
      EntriesOf, WrittenOk, FlagsOk, AddHashes, BootPath;
    LoopHas(cfg, s, in_, left, r);
    OldEntriesOf(s, in_, g);
    var o, inc := r.oldWork[g := Marked(r.oldWork[g])], OldIncludeMap(s, in_);
    if n in r.oldWork[g] {
      OldBundleRecord(s, in_, g, n);
      WrittenFlags(n, r.oldWork[g][n]);
      MarkedIsSame(r.oldWork[g], n);
      if CancelledIn(o, inc, g, n) {
        var c :| c in Closure(inc, g) && c in o && n in o[c] && Cancels(o[g][n], o[c][n]);
        OldEntriesOf(s, in_, c);
        NoOverlap(h, s, in_, g, c, n, exact);
        assert false;
      }
    }
  }

  // ----- one bundle's turn -----

  /** What a job has on its two sides. */
  ghost predicate SideFacts(job: Job, s: State, in_: Input, g: string, n: string) {
    && (n in job.new_ <==> Ships(in_, g, n).Some?)
    && (n in job.new_ ==> SameItem(job.new_[n], Ships(in_, g, n).value))
    && (n in job.old_ <==> n in EntriesOf(s, g)) && (n in job.old_ ==> job.old_[n] == EntriesOf(s, g)[n])
    && job.version == in_.version > 0
  }

  lemma TurnSides(cfg: Config, s: State, in_: Input, h: seq<Input>, left: seq<string>, g: string, r: Progressing,
      rank: map<string, nat>, done: set<string>, n: string, exact: bool)
    requires StateOk(s) && Sensible(s, in_) && g in in_.groups && g in left && LoopOk(cfg, s, in_, left, r)
    requires g !in done
    requires Ranked(NewIncludeMap(in_), rank) && Subtracted(in_, r.newWork, done, n)
    requires r.newWork.Keys == NewIncludeMap(in_).Keys
    requires Told(h, s, n, exact) && !BootPath(n)
    requires r.Running? && g in r.oldWork && g in r.newWork && r.oldWork[g] == OldBundle(s, in_, g).entries
    ensures var job := JobOf(s, in_, FullManifest(cfg, s, in_), g, r); JobOk(job) && SideFacts(job, s, in_, g, n)
  {
    hide FullManifest, StateOk, Sensible, LoopOk, JobOf, Ranked, NewIncludeMap, Ships, Told, Subtracted, OldBundle,
      EntriesOf, SameItem, WrittenOk, NewOk, BootPath;
    var job := JobOf(s, in_, FullManifest(cfg, s, in_), g, r);
    JobIsOk(cfg, s, in_, left, g, r);
    JobVersion(s, in_, FullManifest(cfg, s, in_), g, r);
    NewSide(cfg, s, in_, left, g, r, rank, done, n);
    OldSide(cfg, s, in_, h, left, g, r, n, exact);
    VersionsGrow(s, in_);
    if n in job.new_ {
      NewItem(cfg, s, in_, left, g, r, n);
      ShipsItem(in_, g, n);
    }
  }

  lemma TurnFacts(cfg: Config, s: State, in_: Input, h: seq<Input>, g: string, job: Job, n: string)
    requires JobOk(job) && SideFacts(job, s, in_, g, n) && Told(h, s, n, true) && cfg.minversion <= 0
    ensures NameFacts(job, cfg, Since(h, g), in_, g, n) && Tells(Since(h, g), g, job.old_, n)
  {
    hide Ships, Told, EntriesOf, LastDifference, EverShipped, ShippedLast, SameItem, Unchanged, WrittenOk, NewOk;
    ToldTells(h, s, g, n);
    LastOf(Since(h, g), in_, g, n);
    if n in job.new_ && n in job.old_ {
      NewVersion(job, n);
      UnchangedItem(cfg, job.old_[n], job.new_[n], n, Ships(in_, g, n).value, ShippedLast(Since(h, g), g, n));
    }
  }

  /** A bundle that stays lists what it shipped. */
  lemma KeptShips(job: Job, cfg: Config, n: string)
    requires JobOk(job) && Plain(cfg, n) && job.Process(cfg).Kept?
    ensures n in job.old_ && job.old_[n].Live() <==> n in job.new_
    ensures n in job.new_ ==> SameFileContents(job.old_[n], job.new_[n])
  {
    hide JobOk, Job.Process, SameFileContents, NotPruned, BootPath, AnyPrefix;
    PlainIs(cfg, n);
    if n in Differences(job.old_, job.new_, cfg.minversion) {
      PlainDoesNotVanish(job, cfg, n);
      DifferenceForcesWriting(job, cfg, n);
      assert false;
    }
    if n in job.new_ {
      NewIsLive(job, n);
      SameIsLive(job, cfg, n);
    }
  }

  lemma SameIsLive(job: Job, cfg: Config, n: string)
    requires JobOk(job) && n in job.new_ && n !in Differences(job.old_, job.new_, cfg.minversion)
    ensures n in job.old_ && job.old_[n].Live() && SameFileContents(job.old_[n], job.new_[n])
  {
    hide ConfigPath, StatePath, BootPath, ZERO_HASH;
  }

  lemma PlainDoesNotVanish(job: Job, cfg: Config, n: string)
    requires JobOk(job) && Plain(cfg, n) && n in Differences(job.old_, job.new_, cfg.minversion)
    ensures !Vanishes(job, cfg, n)
  {
    hide ConfigPath, StatePath, BootPath, ZERO_HASH, AnyPrefix;
    if n in job.old_ {
      OldGhostIsBoot(job, n);
    }
  }

  lemma SameItems(a: Entry, b: Entry, item: Item)
    requires SameFileContents(a, b) || SameFileContents(b, a)
    ensures SameItem(a, item) <==> SameItem(b, item)
  {
  }

  /** What the bundle's manifest ships after its turn. */
  lemma TurnRight(job: Job, cfg: Config, s: State, in_: Input, g: string, m: Entries, n: string)
    requires JobOk(job) && SideFacts(job, s, in_, g, n) && Plain(cfg, n) && !job.Process(cfg).Failed?
    requires m == if job.Process(cfg).Kept? then EntriesOf(s, g) else job.Process(cfg).work
    ensures ShipsRight(in_, g, m, n)
  {
    hide JobOk, Job.Process, SameItem, Ships, EntriesOf, SameFileContents, NotPruned, BootPath, Job.Pruned, Job.Matched;
    PlainIs(cfg, n);
    if job.Process(cfg).Kept? {
      KeptShips(job, cfg, n);
      if n in job.new_ {
        SameItems(job.old_[n], job.new_[n], Ships(in_, g, n).value);
      }
    } else {
      JobShips(job, cfg, n);
      if n in job.new_ {
        WrittenIsAllowed(job, cfg);
        ShippedName(job, cfg, n);
        SameItems(job.new_[n], m[n], Ships(in_, g, n).value);
      }
    }
  }

  lemma ShipsItem(in_: Input, g: string, n: string)
    ensures Ships(in_, g, n).Some? ==> n in in_.image && Ships(in_, g, n).value == in_.image[n]
  {
    hide Closure, NewIncludeMap;
  }

  lemma TellsSame(h: seq<Input>, g: string, a: Entries, b: Entries, n: string)
    requires Tells(h, g, a, n) && (n in a <==> n in b) && (n in a ==> a[n] == b[n])
    ensures Tells(h, g, b, n)
  {
    hide LastDifference, EverShipped, ShippedLast, SameItem;
  }

  lemma FormatKept(h: seq<Input>, s: State, in_: Input, g: string, n: string)
    requires Told(h, s, n, true) && (h != [] ==> h[|h| - 1].format == in_.format)
    ensures OldBundle(s, in_, g).format == in_.format
  {
    hide Tells, ShipsRight, OldIncludes, Acyclic;
    if h != [] && g in s.bundles {
      assert Good(Since(h, g), h[|h| - 1], g, s.bundles[g], n, true);
    }
  }

  lemma JobFlags(s: State, in_: Input, full: Entries, g: string, r: Progressing)
    requires r.Running? && g in r.oldWork && g in r.newWork
    ensures var job := JobOf(s, in_, full, g, r);
      && (job.bump <==> OldBundle(s, in_, g).format < in_.format) && (job.isCore <==> g == CORE)
      && (job.includesChanged <==> Changed(OldIncludes(OldBundle(s, in_, g).includes), in_.IncludesOf(g)))
  {
    hide OldIncludeMap, NewIncludeMap, SubtractIncludes, Marked, AddHashes, Changed, OldIncludes, OldBundle;
  }

  /** A bundle that stays remembers the includes it still has; one that is written, those it has now. */
  lemma IncludesTold(in_: Input, old_: Published, g: string, kept: bool, changed: bool)
    requires changed == Changed(OldIncludes(old_.includes), in_.IncludesOf(g)) && (kept ==> !changed) && g != CORE
    ensures OldIncludes(if kept then old_.includes else in_.IncludesOf(g)) == in_.IncludesOf(g)
  {
    hide OldIncludes, NewIncludes;
    if kept {
      SameList(OldIncludes(old_.includes), in_.IncludesOf(g));
    } else {
      HeaderRoundTrip(if g in in_.includes then in_.includes[g] else []);
    }
  }

  lemma KeptMeansUnchanged(job: Job, cfg: Config)
    requires job.Process(cfg).Kept? && !job.isCore
    ensures !job.includesChanged
  {
    hide Job.Matched, Job.Pruned, Job.Acceptable;
  }

  lemma WrittenIsAllowed(job: Job, cfg: Config)
    requires job.Process(cfg).Written?
    ensures RenamesAllowed(job.old_, job.new_, Marked(job.Matched(cfg)), job.version, job.outcome.renames)
    ensures job.Process(cfg).work == job.Pruned(cfg)
  {
    hide Job.Matched, Job.Pruned, RenamesAllowed, TypesOk;
  }

  /** What makes histories exact. */
  ghost predicate Uniform(cfg: Config, in_: Input, h: seq<Input>) {
    cfg.minversion <= 0 && (h != [] ==> h[|h| - 1].format == in_.format)
  }

  /** After its turn a bundle tells the longer history. */
  lemma TurnHistory(cfg: Config, s: State, in_: Input, h: seq<Input>, g: string, job: Job, n: string)
    requires JobOk(job) && SideFacts(job, s, in_, g, n) && Told(h, s, n, true) && Uniform(cfg, in_, h) && Plain(cfg, n)
    requires !job.Process(cfg).Failed? && (job.bump <==> OldBundle(s, in_, g).format < in_.format)
    ensures var p := job.Process(cfg);
      Tells(Since(h, g) + [in_], g, if p.Kept? then EntriesOf(s, g) else p.work, n)
      && OldBundle(s, in_, g).format == in_.format
  {
    hide Told, Plain, JobOk, SideFacts, NameFacts, Tells, Job.Process, Job.Matched, Job.Pruned, RenamesAllowed,
      EntriesOf, OldBundle, Since;
    TurnFacts(cfg, s, in_, h, g, job, n);
    FormatKept(h, s, in_, g, n);
    if job.Process(cfg).Kept? {
      KeptNoDifference(job, cfg, n);
      KeptTells(job, cfg, Since(h, g), in_, g, n);
      SidesOld(job, s, in_, g, n);
      TellsSame(Since(h, g) + [in_], g, job.old_, EntriesOf(s, g), n);
    } else {
      WrittenIsAllowed(job, cfg);
      WrittenTells(job, cfg, Since(h, g), in_, g, n);
    }
  }

  lemma SidesOld(job: Job, s: State, in_: Input, g: string, n: string)
    requires SideFacts(job, s, in_, g, n)
    ensures (n in job.old_ <==> n in EntriesOf(s, g)) && (n in job.old_ ==> job.old_[n] == EntriesOf(s, g)[n])
  {
    hide Ships, EntriesOf;
  }

  lemma TurnTells(cfg: Config, s: State, in_: Input, h: seq<Input>, left: seq<string>, g: string, r: Progressing,
      rank: map<string, nat>, done: set<string>, n: string, exact: bool)
    requires StateOk(s) && Sensible(s, in_) && g in in_.groups && g in left && LoopOk(cfg, s, in_, left, r)
    requires g !in done
    requires Ranked(NewIncludeMap(in_), rank) && Subtracted(in_, r.newWork, done, n)
    requires r.newWork.Keys == NewIncludeMap(in_).Keys
    requires Told(h, s, n, exact) && Plain(cfg, n) && (exact ==> Uniform(cfg, in_, h))
    requires r.Running? && g in r.oldWork && g in r.newWork && r.oldWork[g] == OldBundle(s, in_, g).entries
    requires BundleTurn(cfg, s, in_, FullManifest(cfg, s, in_), g, r).Running?
    ensures var r' := BundleTurn(cfg, s, in_, FullManifest(cfg, s, in_), g, r);
      && g in r'.bundles && r'.bundles == r.bundles[g := r'.bundles[g]]
      && Good(Since(h, g) + [in_], in_, g, r'.bundles[g], n, exact)
  {
    hide FullManifest, StateOk, Sensible, LoopOk, JobOf, Ranked, NewIncludeMap, Told, Subtracted, Plain, JobOk,
      SideFacts, Tells, ShipsRight, Job.Process, Changed, OldIncludes, EntriesOf, NewIncludes, Uniform, Since;
    var full := FullManifest(cfg, s, in_);
    var job, old_ := JobOf(s, in_, full, g, r), OldBundle(s, in_, g);
    PlainIs(cfg, n);
    TurnSides(cfg, s, in_, h, left, g, r, rank, done, n, exact);
    JobFlags(s, in_, full, g, r);
    OldEntriesOf(s, in_, g);
    VersionsGrow(s, in_);
    var p := job.Process(cfg);
    if exact {
      TurnHistory(cfg, s, in_, h, g, job, n);
    }
    TurnRight(job, cfg, s, in_, g, if p.Kept? then EntriesOf(s, g) else p.work, n);
    if g != CORE {
      if p.Kept? {
        KeptMeansUnchanged(job, cfg);
      }
      IncludesTold(in_, old_, g, p.Kept?, job.includesChanged);
    }
    OldZero(s, in_, g);
  }

  lemma OldZero(s: State, in_: Input, g: string)
    ensures var m := OldBundle(s, in_, g); m.version == 0 ==> m.entries == map[] && m.includes == []
  {
  }

  // ----- the bundle loop -----

  /** The bundles in `done` tell the longer history. */
  ghost predicate SoFar(h: seq<Input>, in_: Input, done: set<string>, bundles: map<string, Published>, n: string,
      exact: bool) {
    bundles.Keys == done && forall g | g in done :: Good(Since(h, g) + [in_], in_, g, bundles[g], n, exact)
  }

  /** The bundles in `left` stand as they were. */
  ghost predicate Waiting(s: State, in_: Input, left: seq<string>, r: Progressing, done: set<string>) {
    r.Running? && forall g | g in left ::
      g in r.oldWork && g in r.newWork && g !in done && r.oldWork[g] == OldBundle(s, in_, g).entries
  }

  /** Where the loop stands. */
  ghost predicate Midst(cfg: Config, s: State, in_: Input, h: seq<Input>, groups: seq<string>, r: Progressing,
      done: set<string>, n: string, exact: bool) {
    && r.Running? && LoopOk(cfg, s, in_, groups, r)
    && Subtracted(in_, r.newWork, done, n) && r.newWork.Keys == NewIncludeMap(in_).Keys
    && Delivered(groups, r.newWork, r.bundles, n) && SoFar(h, in_, done, r.bundles, n, exact)
    && Waiting(s, in_, groups, r, done)
  }

  ghost predicate Ready(cfg: Config, s: State, in_: Input, h: seq<Input>, n: string, exact: bool) {
    && StateOk(s) && Sensible(s, in_) && Told(h, s, n, exact) && Plain(cfg, n) && (exact ==> Uniform(cfg, in_, h))
  }

  lemma SubtractedStep(in_: Input, newWork: Work, newWork': Work, rank: map<string, nat>, done: set<string>,
      g: string, n: string)
    requires Ranked(NewIncludeMap(in_), rank) && Subtracted(in_, newWork, done, n) && g in in_.groups && g !in done
    requires Turn(OnlyIn(RawWork(in_), n), NewIncludeMap(in_), g, OnlyIn(newWork, n), OnlyIn(newWork', n))
    ensures Subtracted(in_, newWork', done + {g}, n)
  {
    hide Ranked, NewIncludeMap, Turn, Progress, AllHarmless, RawWork, Only;
    assert g in RawWork(in_);
    TurnProgress(OnlyIn(RawWork(in_), n), OnlyIn(newWork, n), OnlyIn(newWork', n), NewIncludeMap(in_), rank, done, g);
  }

  lemma SoFarStep(h: seq<Input>, in_: Input, done: set<string>, bundles: map<string, Published>, g: string,
      m: Published, n: string, exact: bool)
    requires SoFar(h, in_, done, bundles, n, exact) && Good(Since(h, g) + [in_], in_, g, m, n, exact)
    ensures SoFar(h, in_, done + {g}, bundles[g := m], n, exact)
  {
    hide Good;
  }

  lemma WaitingStep(cfg: Config, s: State, in_: Input, full: Entries, left: seq<string>, g: string, r: Progressing,
      done: set<string>)
    requires Waiting(s, in_, [g] + left, r, done) && g !in left && BundleTurn(cfg, s, in_, full, g, r).Running?
    requires BundleTurn(cfg, s, in_, full, g, r).newWork.Keys == r.newWork.Keys
    ensures Waiting(s, in_, left, BundleTurn(cfg, s, in_, full, g, r), done + {g})
  {
    hide BundleTurn, OldBundle;
    OthersOld(cfg, s, in_, full, g, r);
    var r' := BundleTurn(cfg, s, in_, full, g, r);
    forall x | x in left
      ensures x in r'.oldWork && x in r'.newWork && x !in done + {g} && r'.oldWork[x] == OldBundle(s, in_, x).entries
    {
      assert x in [g] + left;
    }
  }

  lemma WaitingHere(s: State, in_: Input, left: seq<string>, g: string, r: Progressing, done: set<string>)
    requires Waiting(s, in_, [g] + left, r, done)
    ensures g in [g] + left && g in r.oldWork && g in r.newWork && g !in done
    ensures r.oldWork[g] == OldBundle(s, in_, g).entries
  {
    hide OldBundle;
    assert ([g] + left)[0] == g;
  }

  lemma MidstStep(cfg: Config, s: State, in_: Input, h: seq<Input>, left: seq<string>, g: string, r: Progressing,
      rank: map<string, nat>, done: set<string>, n: string, exact: bool)
    requires Ready(cfg, s, in_, h, n, exact) && Ranked(NewIncludeMap(in_), rank) && g in in_.groups && g !in left
    requires Midst(cfg, s, in_, h, [g] + left, r, done, n, exact)
    requires BundleTurn(cfg, s, in_, FullManifest(cfg, s, in_), g, r).Running?
    ensures Midst(cfg, s, in_, h, left, BundleTurn(cfg, s, in_, FullManifest(cfg, s, in_), g, r), done + {g}, n, exact)
  {
    hide FullManifest, StateOk, Sensible, LoopOk, Ranked, NewIncludeMap, Told, Plain, Tells, Good, Delivered,
      BundleTurn, OldBundle, Turn, Progress, AllHarmless, Sheltered, Since, OnlyIn, RawWork, Subtracted, SoFar, Waiting,
      EntriesOf, Uniform;
    var full := FullManifest(cfg, s, in_);
    var r' := BundleTurn(cfg, s, in_, full, g, r);
    WaitingHere(s, in_, left, g, r, done);
    TurnTells(cfg, s, in_, h, [g] + left, g, r, rank, done, n, exact);
    PlainIsSheltered(cfg, in_, n);
    TurnShips(cfg, s, in_, left, g, r, rank, n);
    SubtractedStep(in_, r.newWork, r'.newWork, rank, done, g, n);
    SoFarStep(h, in_, done, r.bundles, g, r'.bundles[g], n, exact);
    TurnOk(cfg, s, in_, left, g, r);
    WaitingStep(cfg, s, in_, full, left, g, r, done);
  }

  lemma OthersOld(cfg: Config, s: State, in_: Input, full: Entries, g: string, r: Progressing)
    requires BundleTurn(cfg, s, in_, full, g, r).Running?
    ensures var r' := BundleTurn(cfg, s, in_, full, g, r);
      r.Running? && forall x | x in r.oldWork && x != g :: x in r'.oldWork && r'.oldWork[x] == r.oldWork[x]
  {
    hide JobOf, Job.Process, OldBundle;
  }

  lemma {:induction false} LoopTells(cfg: Config, s: State, in_: Input, h: seq<Input>, groups: seq<string>,
      r: Progressing, rank: map<string, nat>, done: set<string>, n: string, exact: bool)
    requires Ready(cfg, s, in_, h, n, exact) && Ranked(NewIncludeMap(in_), rank) && Distinct(groups)
    requires (forall g | g in groups :: g in in_.groups)
    requires Midst(cfg, s, in_, h, groups, r, done, n, exact)
    requires BundleTurns(cfg, s, in_, FullManifest(cfg, s, in_), groups, r).Running?
    ensures var r' := BundleTurns(cfg, s, in_, FullManifest(cfg, s, in_), groups, r);
      SoFar(h, in_, done + (set g | g in groups), r'.bundles, n, exact)
    decreases |groups|
  {
    hide FullManifest, BundleTurn, Ready, Ranked, NewIncludeMap, SoFar, LoopOk, Subtracted, Delivered, OldBundle;
    if groups == [] {
      assert done + (set g | g in groups) == done;
    } else {
      var full := FullManifest(cfg, s, in_);
      var g, left := groups[0], groups[1..];
      assert groups == [g] + left;
      assert g !in left by {
        assert forall i | 0 < i < |groups| :: groups[i] != groups[0];
      }
      var r' := BundleTurn(cfg, s, in_, full, g, r);
      if r'.Stopped? {
        StoppedStays(cfg, s, in_, full, left);
        assert false;
      } else {
        MidstStep(cfg, s, in_, h, left, g, r, rank, done, n, exact);
        LoopTells(cfg, s, in_, h, left, r', rank, done + {g}, n, exact);
        assert done + {g} + (set x | x in left) == done + (set x | x in groups);
      }
    }
  }

  lemma NothingSubtracted(s: State, in_: Input, n: string)
    ensures Subtracted(in_, RawWork(in_), {}, n)
  {
    hide OnlyIn, RawWork, SubtractIncludes;
    RawFacts(s, in_, n);
  }

  lemma NobodyDone(s: State, in_: Input, h: seq<Input>, groups: seq<string>, n: string, exact: bool)
    requires forall g :: g in groups <==> g in in_.groups
    ensures SoFar(h, in_, {}, map[], n, exact) && Waiting(s, in_, groups, BeginBundles(s, in_), {})
  {
    hide OldBundle, BundleRaw;
  }

  lemma LoopBegins(cfg: Config, s: State, in_: Input, h: seq<Input>, groups: seq<string>, n: string, exact: bool)
    requires StateOk(s) && Sensible(s, in_) && forall g :: g in groups <==> g in in_.groups
    ensures Midst(cfg, s, in_, h, groups, BeginBundles(s, in_), {}, n, exact)
  {
    hide StateOk, Sensible, LoopOk, OldBundle, RawWork, OnlyIn, Good, SubtractIncludes, Subtracted, SoFar, Waiting,
      Delivered, BeginBundles, NewIncludeMap;
    LoopStarts(cfg, s, in_, groups);
    RawFacts(s, in_, n);
    NothingSubtracted(s, in_, n);
    NobodyDone(s, in_, h, groups, n, exact);
    NothingDelivered(s, in_, groups, n);
  }

  // ----- over all releases -----

  lemma ToldNext(h: seq<Input>, in_: Input, s': State, n: string, exact: bool)
    requires SoFar(h, in_, (set g | g in in_.groups), s'.bundles, n, exact) && Acyclic(in_)
    ensures Told(h + [in_], s', n, exact)
  {
    hide Good, Acyclic, Since;
    var h' := h + [in_];
    assert h'[|h'| - 1] == in_;
    forall g | g in in_.groups
      ensures Since(h', g) == Since(h, g) + [in_]
    {
      SinceGrows(h, in_, g);
    }
  }

  /** One published release. */
  lemma ReleaseTells(cfg: Config, s: State, in_: Input, h: seq<Input>, n: string, exact: bool)
    requires StateOk(s) && Publishes(cfg, s, in_) && Plain(cfg, n) && Acyclic(in_)
    requires Told(h, s, n, exact) && (exact ==> Uniform(cfg, in_, h))
    ensures Told(h + [in_], Step(cfg, s, in_), n, exact)
  {
    hide FullManifest, StateOk, CreateUpdate, BundleTurns, Step, Plain, Ranked, BeginBundles, NewIncludeMap, Midst,
      Good, Tells, Sensible, LoopOk, SoFar, Told, Uniform;
    var rank: map<string, nat> :| Ranked(NewIncludeMap(in_), rank);
    var r := StepLoop(cfg, s, in_);
    SensibleCore(s, in_);
    AllGroups(in_.groups);
    OthersDistinct(in_.groups);
    var groups := [CORE] + Others(in_.groups);
    LoopBegins(cfg, s, in_, h, groups, n, exact);
    LoopRuns(cfg, s, in_, r);
    LoopTells(cfg, s, in_, h, groups, BeginBundles(s, in_), rank, {}, n, exact);
    assert {} + (set g | g in groups) == (set g | g in in_.groups);
    ToldNext(h, in_, Step(cfg, s, in_), n, exact);
  }

  lemma {:induction false} RunIsTold(cfg: Config, inputs: seq<Input>, format: nat, n: string, exact: bool)
    requires Plain(cfg, n) && forall i | 0 <= i < |inputs| :: Acyclic(inputs[i])
    requires exact ==> cfg.minversion <= 0 && forall i | 0 <= i < |inputs| :: inputs[i].format == format
    ensures Told(Releases(cfg, inputs), Run(cfg, inputs), n, exact)
    decreases |inputs|
  {
    hide Step, StateOk, Plain, Publishes, Acyclic, Good, Since;
    if inputs != [] {
      var before, last := inputs[..|inputs| - 1], inputs[|inputs| - 1];
      var s := Run(cfg, before);
      RunIsTold(cfg, before, format, n, exact);
      RunOk(cfg, before);
      if exact {
        LastFormat(cfg, before, format);
      }
      if Publishes(cfg, s, last) {
        ReleaseTells(cfg, s, last, Releases(cfg, before), n, exact);
      } else {
        NotPublished(cfg, s, last);
        assert Releases(cfg, before) + [] == Releases(cfg, before);
      }
    }
  }

  /** With acyclic includes throughout, and any bundles, formats and minversion: after any sequence of builds, a
      manifest that the newest MoM names ships a name that is neither a boot file nor pruned exactly if the
      bundle has to list it, that is, if the last published build put it into the bundle and into none that the
      bundle includes; and with the type and hash that it has in the image. */
  lemma PublishedIsBuilt(cfg: Config, inputs: seq<Input>, g: string, n: string)
    requires Plain(cfg, n) && forall i | 0 <= i < |inputs| :: Acyclic(inputs[i])
    ensures var h, s := Releases(cfg, inputs), Run(cfg, inputs);
      h != [] && g in h[|h| - 1].groups ==> g in s.bundles && ShipsRight(h[|h| - 1], g, EntriesOf(s, g), n)
  {
    hide Told, Run, Releases, ShipsRight, EntriesOf, Plain, Acyclic;
    RunIsTold(cfg, inputs, 0, n, false);
    var h := Releases(cfg, inputs);
    if h != [] && g in h[|h| - 1].groups {
      ToldShips(h, Run(cfg, inputs), g, n, false);
    }
  }

  /** With minversion 0, one format and acyclic includes throughout, and any bundles coming and going: after any
      sequence of builds, for every bundle and every name that is neither a boot file nor pruned, the published
      manifest tells the history since the bundle was last added: it has an entry exactly if the bundle had to
      list the name since then; its last_change is the latest published release in which the bundle began or
      ceased to list it, or its type or hash changed; and it is a tombstone exactly while the bundle does not
      list it. */
  lemma LastChangeSince(cfg: Config, inputs: seq<Input>, format: nat, g: string, n: string)
    requires cfg.minversion <= 0 && Plain(cfg, n)
    requires forall i | 0 <= i < |inputs| :: inputs[i].format == format && Acyclic(inputs[i])
    ensures Tells(Since(Releases(cfg, inputs), g), g, EntriesOf(Run(cfg, inputs), g), n)
  {
    hide Told, Run, Releases, Tells, EntriesOf, Plain, Acyclic, Since;
    RunIsTold(cfg, inputs, format, n, true);
    ToldTells(Releases(cfg, inputs), Run(cfg, inputs), g, n);
  }

  /** Bundles are added, in any order, and never dropped. */
  ghost predicate Growing(h: seq<Input>) {
    forall i, j, g | 0 <= i < j < |h| && g in h[i].groups :: g in h[j].groups
  }

  lemma {:induction false} ReleasesAreInputs(cfg: Config, inputs: seq<Input>)
    ensures forall x | x in Releases(cfg, inputs) :: x in inputs
    ensures Growing(inputs) ==> Growing(Releases(cfg, inputs))
    decreases |inputs|
  {
    hide Publishes, Run;
    if inputs != [] {
      var k := |inputs| - 1;
      ReleasesAreInputs(cfg, inputs[..k]);
      if Growing(inputs) {
        var h := Releases(cfg, inputs);
        assert Growing(inputs[..k]);
        forall i, j, g | 0 <= i < j < |h| && g in h[i].groups
          ensures g in h[j].groups
        {
          var earlier := Releases(cfg, inputs[..k]);
          assert h[i] == earlier[i] && h[i] in inputs[..k];
        }
      }
    }
  }

  lemma {:induction false} NeverThere(h: seq<Input>, g: string, n: string)
    requires Growing(h) && h != [] && g !in h[|h| - 1].groups
    ensures !EverShipped(h, g, n) && ShippedLast(h, g, n) == None
  {
    hide Closure, NewIncludeMap;
    forall i | 0 <= i < |h|
      ensures g !in h[i].groups
    {
    }
  }

  /** Before a bundle is added there is nothing to tell. */
  lemma {:induction false} SinceIsAll(h: seq<Input>, g: string, n: string)
    requires Growing(h)
    ensures EverShipped(Since(h, g), g, n) <==> EverShipped(h, g, n)
    ensures ShippedLast(Since(h, g), g, n) == ShippedLast(h, g, n)
    ensures EverShipped(h, g, n) ==> LastDifference(Since(h, g), g, n) == LastDifference(h, g, n)
    decreases |h|
  {
    hide Ships, EverShipped, LastDifference, ShippedLast;
    if h == [] {
    } else if g in h[|h| - 1].groups {
      var before, last := h[..|h| - 1], h[|h| - 1];
      SinceIsAll(before, g, n);
      assert h == before + [last];
      LastOf(before, last, g, n);
      LastOf(Since(before, g), last, g, n);
    } else {
      NeverThere(h, g, n);
      NothingSinceDropped(g, n);
    }
  }

  lemma NothingSinceDropped(g: string, n: string)
    ensures !EverShipped([], g, n) && ShippedLast([], g, n) == None
  {
  }

  /** While bundles are only ever added, in whatever order the group file lists them, this is their whole
      history: the published last_change is the latest of all published releases in which the bundle began or
      ceased to list the name, or its type or hash changed. */
  lemma LastChangeIsExact(cfg: Config, inputs: seq<Input>, format: nat, g: string, n: string)
    requires cfg.minversion <= 0 && Plain(cfg, n) && Growing(inputs)
    requires forall i | 0 <= i < |inputs| :: inputs[i].format == format && Acyclic(inputs[i])
    ensures Tells(Releases(cfg, inputs), g, EntriesOf(Run(cfg, inputs), g), n)
  {
    hide EverShipped, LastDifference, ShippedLast, SameItem, Run, Releases, Growing, Since, Plain, Acyclic, EntriesOf;
    LastChangeSince(cfg, inputs, format, g, n);
    ReleasesAreInputs(cfg, inputs);
    SinceIsAll(Releases(cfg, inputs), g, n);
  }

  lemma {:induction false} LastFormat(cfg: Config, inputs: seq<Input>, format: nat)
    requires forall i | 0 <= i < |inputs| :: inputs[i].format == format
    ensures var h := Releases(cfg, inputs); h != [] ==> h[|h| - 1].format == format
    decreases |inputs|
  {
    hide Publishes, Run;
    if inputs != [] {
      LastFormat(cfg, inputs[..|inputs| - 1], format);
    }
  }

  // ----- there are releases -----

  /** A first build has nothing to rename. */
  predicate NoRenames(in_: Input) {
    forall g | g in in_.groups :: in_.OutcomeOf(g).renames == map[]
  }

  lemma FirstOld(cfg: Config, in_: Input, left: seq<string>, g: string, r: Progressing)
    requires LoopOk(cfg, EMPTY, in_, left, r) && g in in_.groups
    ensures r.Running? && g in r.oldWork && g in r.newWork && r.oldWork[g] == map[]
    ensures var job := JobOf(EMPTY, in_, FullManifest(cfg, EMPTY, in_), g, r);
      job.old_ == map[] && job.outcome == in_.OutcomeOf(g) && (job.isCore <==> g == CORE)
  {
    hide FullManifest, MarkEntry, NewIncludeMap, OldIncludeMap, WorkOk;
  }

  lemma FirstNew(cfg: Config, in_: Input, left: seq<string>, r: Progressing)
    requires LoopOk(cfg, EMPTY, in_, left, r) && CORE in in_.groups && CORE in left
    requires in_.ShippedBy(CORE) <= in_.image.Keys
    ensures r.Running? && CORE in r.oldWork && CORE in r.newWork
    ensures JobOf(EMPTY, in_, FullManifest(cfg, EMPTY, in_), CORE, r).new_.Keys == in_.ShippedBy(CORE)
  {
    hide FullManifest, MarkEntry, NewIncludeMap, OldIncludeMap, WorkOk, SubtractIncludes;
    LoopHas(cfg, EMPTY, in_, left, r);
  }

  /** Nothing stops a job that begins with an empty manifest, but a core of which pruning leaves nothing. */
  lemma FirstJobRuns(cfg: Config, job: Job)
    requires JobOk(job) && job.old_ == map[] && job.outcome.renames == map[]
    ensures job.Process(cfg).Failed? <==> job.isCore && job.new_ != map[] && forall n | n in job.new_ ::
      !NotPruned(cfg, n)
  {
    hide JobOk, Job.WithoutGhosts, Job.Pruned, NotPruned, Job.Matched;
    assert job.Acceptable(cfg);
    assert Differences(job.old_, job.new_, cfg.minversion) == job.new_.Keys;
    if job.isCore {
      CoreStopsExactly(job, cfg);
    }
  }

  lemma FirstTurnRuns(cfg: Config, in_: Input, left: seq<string>, g: string, r: Progressing)
    requires Sensible(EMPTY, in_) && NoRenames(in_) && g in in_.groups && LoopOk(cfg, EMPTY, in_, [g] + left, r)
    ensures BundleTurn(cfg, EMPTY, in_, FullManifest(cfg, EMPTY, in_), g, r).Running? <==>
      g != CORE || in_.ShippedBy(CORE) == {} || exists n :: n in in_.ShippedBy(CORE) && NotPruned(cfg, n)
  {
    hide FullManifest, StateOk, Sensible, JobOk, LoopOk, JobOf, Job.Process, NotPruned;
    EmptyOk();
    assert ([g] + left)[0] == g;
    FirstOld(cfg, in_, [g] + left, g, r);
    JobIsOk(cfg, EMPTY, in_, [g] + left, g, r);
    FirstJobRuns(cfg, JobOf(EMPTY, in_, FullManifest(cfg, EMPTY, in_), g, r));
    SensibleCore(EMPTY, in_);
    if g == CORE {
      FirstNew(cfg, in_, [g] + left, r);
    }
  }

  lemma {:induction false} FirstOthersRun(cfg: Config, in_: Input, groups: seq<string>, r: Progressing)
    requires Sensible(EMPTY, in_) && NoRenames(in_) && Distinct(groups) && LoopOk(cfg, EMPTY, in_, groups, r)
    requires r.Running?
    requires forall g | g in groups :: g in in_.groups && g != CORE
    ensures BundleTurns(cfg, EMPTY, in_, FullManifest(cfg, EMPTY, in_), groups, r).Running?
    ensures LoopOk(cfg, EMPTY, in_, [], BundleTurns(cfg, EMPTY, in_, FullManifest(cfg, EMPTY, in_), groups, r))
    decreases |groups|
  {
    hide FullManifest, StateOk, Sensible, LoopOk, BundleTurn, NotPruned, NoRenames;
    if groups != [] {
      var g, left := groups[0], groups[1..];
      assert groups == [g] + left;
      assert g !in left by {
        assert forall i | 0 < i < |groups| :: groups[i] != groups[0];
      }
      EmptyOk();
      FirstTurnRuns(cfg, in_, left, g, r);
      TurnOk(cfg, EMPTY, in_, left, g, r);
      FirstOthersRun(cfg, in_, left, BundleTurn(cfg, EMPTY, in_, FullManifest(cfg, EMPTY, in_), g, r));
    }
  }

  lemma FirstTurn(cfg: Config, s: State, in_: Input, full: Entries, groups: seq<string>, r: Progressing)
    requires groups != []
    ensures BundleTurns(cfg, s, in_, full, groups, r) ==
      BundleTurns(cfg, s, in_, full, groups[1..], BundleTurn(cfg, s, in_, full, groups[0], r))
  {
    hide BundleTurn;
  }

  lemma LoopKnows(cfg: Config, s: State, in_: Input, r: Progressing)
    requires LoopOk(cfg, s, in_, [], r)
    ensures r.Running? && forall g | g in in_.groups :: g in r.newWork
  {
    hide Part, WorkOk, OldBundle, ArchivePart;
  }

  /** The run model is not empty: a first build of any bundles is published, if and only if the core ships nothing
      at all or something that is not pruned. */
  lemma FirstBuildIsPublished(cfg: Config, in_: Input)
    requires Sensible(EMPTY, in_) && NoRenames(in_)
    ensures Publishes(cfg, EMPTY, in_) <==> in_.ShippedBy(CORE) == {} || exists n ::
      n in in_.ShippedBy(CORE) && NotPruned(cfg, n)
  {
    hide FullManifest, Sensible, WrittenFull, NotPruned, FullfileHashes, StateOk, LoopOk, BundleTurn, BundleTurns,
      BeginBundles, NoRenames;
    EmptyOk();
    SensibleCore(EMPTY, in_);
    AllGroups(in_.groups);
    OthersDistinct(in_.groups);
    var full, r0 := FullManifest(cfg, EMPTY, in_), BeginBundles(EMPTY, in_);
    var groups, others := [CORE] + Others(in_.groups), Others(in_.groups);
    LoopStarts(cfg, EMPTY, in_, groups);
    FirstTurnRuns(cfg, in_, others, CORE, r0);
    FirstTurn(cfg, EMPTY, in_, full, groups, r0);
    var r1 := BundleTurn(cfg, EMPTY, in_, full, CORE, r0);
    if r1.Running? {
      TurnOk(cfg, EMPTY, in_, others, CORE, r0);
      FirstOthersRun(cfg, in_, others, r1);
      LoopKnows(cfg, EMPTY, in_, BundleTurns(cfg, EMPTY, in_, full, groups, r0));
    } else {
      StoppedStays(cfg, EMPTY, in_, full, others);
    }
  }
}
