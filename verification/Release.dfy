/** One run of swupd_create_update (`main` in src/create_update.c), followed by
    swupd_make_fullfiles, as a step on everything that has been published. */
module Release {
  import opened Sorting
  import opened Files
  import opened Heuristics
  import opened Matching
  import opened Pruning
  import opened Subtraction
  import opened IncludeLists

  // ----- the image of a release -----

  datatype Kind = Regular | Directory | Symlink

  datatype Item = Item(kind: Kind, hash: string)

  type Image = map<string, Item>

  /** A record as directory walking leaves it. */
  function Walked(kind: Kind, hash: string, version: int): Entry {
    Entry(kind.Directory?, kind.Regular?, kind.Symlink?, false, false, false, false, false, false, hash, version)
  }

  function FullRaw(image: Image, version: int): (r: Entries)
    ensures r.Keys == image.Keys
  {
    map n | n in image :: Walked(image[n].kind, image[n].hash, version)
  }

  /** A component is walked without hashing. */
  function BundleRaw(image: Image, names: set<string>, version: int): (r: Entries)
    ensures r.Keys == names * image.Keys
  {
    map n | n in names && n in image :: Walked(image[n].kind, "", version)
  }

  /** `add_component_hashes_to_manifest` */
  function AddHashes(comp: Entries, full: Entries): (r: Entries)
    ensures r.Keys == comp.Keys
  {
    map n | n in comp :: if n in full && !full[n].isDeleted then comp[n].(hash := full[n].hash) else comp[n]
  }

  /** `maximize_version_manifests` */
  function Maximize(bundle: Entries, full: Entries): (r: Entries)
    ensures r.Keys == full.Keys
  {
    map n | n in full ::
      if n in bundle && !bundle[n].isDeleted && bundle[n].lastChange > full[n].lastChange
      then full[n].(lastChange := bundle[n].lastChange) else full[n]
  }

  function MaximizeAll(bundles: seq<Entries>, full: Entries): (r: Entries)
    ensures r.Keys == full.Keys
  {
    if bundles == [] then full else MaximizeAll(bundles[1..], Maximize(bundles[0], full))
  }

  // ----- what rename detection may do -----

  /** The links that rename detection makes: from tombstones to new files. */
  type Renames = map<string, string>

  predicate RenamedFrom(old_: Entries, new_: Entries, m: Entries, version: int, n: string) {
    && n in m && m[n].isDeleted && m[n].lastChange == version
    && HasPeer(old_, new_, n) && !old_[n].isDir && !old_[n].isLink
  }

  predicate RenamedTo(old_: Entries, new_: Entries, m: Entries, version: int, n: string) {
    n in m && m[n].lastChange == version && !m[n].isDeleted && m[n].isFile && !HasPeer(old_, new_, n)
  }

  predicate RenamesAllowed(old_: Entries, new_: Entries, m: Entries, version: int, r: Renames) {
    && (forall d | d in r :: RenamedFrom(old_, new_, m, version, d) && RenamedTo(old_, new_, m, version, r[d]))
    && (forall c, d | c in r && d in r && c != d :: r[c] != r[d])
  }

  function ApplyRenames(m: Entries, r: Renames): (m': Entries)
    ensures m'.Keys == m.Keys
  {
    map n | n in m ::
      if n in r && r[n] in m then m[n].(isRename := true, hash := m[r[n]].hash)
      else if n in r.Values then m[n].(isRename := true) else m[n]
  }

  // ----- type changes -----

  /** `type_has_changed`: all but file to link, file to directory, link to file, link to directory stop the run. */
  predicate TypeChangeOk(a: Entry, b: Entry) {
    || (a.isFile && (b.isFile || b.isDir || b.isLink))
    || (a.isLink && !a.isFile && !a.isDir && (b.isFile || b.isDir || b.isLink))
    || (a.isDir && !a.isFile && b.isDir && !b.isFile)
  }

  predicate TypesOk(old_: Entries, new_: Entries, m: Entries) {
    forall n | n in m && n in old_ && HasPeer(old_, new_, n) && !old_[n].isDeleted && !m[n].isDeleted ::
      TypeChangeOk(old_[n], m[n])
  }

  // ----- one component -----

  /** What is not determined by the manifests: the renames found, and which records have a rename
      partner after the final link. */
  datatype Outcome = Outcome(renames: Renames, linked: set<string>)

  /** A manifest in the output directory. */
  datatype Published = Published(version: int, format: nat, entries: Entries, includes: seq<string>)

  /** Processing stops the run, leaves the component at its old version, or writes it. */
  datatype Processed = Failed | Kept(work: Entries) | Written(work: Entries)

  datatype Job = Job(isCore: bool, old_: Entries, new_: Entries, includesChanged: bool, bump: bool, version: int,
      outcome: Outcome)
  {
    function Matched(cfg: Config): Entries {
      Match(old_, new_, version, cfg.minversion)
    }

    function Renamed(cfg: Config): Entries {
      ApplyRenames(Marked(Matched(cfg)), outcome.renames)
    }

    function WithoutDeleted(cfg: Config): Entries {
      if bump then RemoveDeprecated(old_, Renamed(cfg), BothDeleted) else Renamed(cfg)
    }

    function WithoutGhosts(cfg: Config): Entries {
      RemoveDeprecated(old_, WithoutDeleted(cfg), BothGhosted)
    }

    function Pruned(cfg: Config): Entries {
      Prune(cfg, Clean(WithoutGhosts(cfg), outcome.linked))
    }

    predicate Same(cfg: Config) {
      |Differences(old_, new_, cfg.minversion)| == 0 && (isCore || !includesChanged)
    }

    predicate Acceptable(cfg: Config) {
      && RenamesAllowed(old_, new_, Marked(Matched(cfg)), version, outcome.renames)
      && TypesOk(old_, new_, WithoutGhosts(cfg))
    }

    predicate WorthWriting(cfg: Config) {
      || NewFiles(Pruned(cfg), version) != {}
      || (!isCore && ((bump && Deprecated(old_, Renamed(cfg), BothDeleted) != {})
                      || Deprecated(old_, WithoutDeleted(cfg), BothGhosted) != {}
                      || includesChanged))
    }

    /** From `match_manifests` to `write_manifest`. */
    function Process(cfg: Config): Processed {
      if Same(cfg) then Kept(Matched(cfg))
      else if !Acceptable(cfg) then Failed
      else if WorthWriting(cfg) then Written(Pruned(cfg))
      else if isCore then Failed
      else Kept(Pruned(cfg))
    }
  }

  // ----- one release -----

  datatype Input = Input(
    version: int, format: nat,
    image: Image, groups: seq<string>, shipped: map<string, set<string>>, includes: map<string, seq<string>>,
    outcomes: map<string, Outcome>, fullLinked: set<string>)
  {
    function ShippedBy(g: string): set<string> {
      if g in shipped then shipped[g] else {}
    }

    function IncludesOf(g: string): seq<string> {
      if g == CORE then [] else NewIncludes(if g in includes then includes[g] else [])
    }

    function OutcomeOf(g: string): Outcome {
      if g in outcomes then outcomes[g] else Outcome(map[], {})
    }
  }

  /** The output directory: the full manifest and the bundle versions named by the newest MoM,
      every manifest ever written, and the fullfiles. */
  datatype State = State(
    version: int, momFormat: Option<nat>, full: Option<Published>, bundles: map<string, Published>,
    archive: map<(string, int), Published>, fullfiles: set<(int, string)>)

  const EMPTY: State := State(0, None, None, map[], map[], {})

  /** `manifest_from_file(manifest_subversion(old_MoM, g), g)`: a manifest that does not exist is empty,
      has the current format and version 0. */
  function OldBundle(s: State, in_: Input, g: string): Published {
    if g in s.bundles && s.bundles[g].version != 0 then s.bundles[g] else Published(0, in_.format, map[], [])
  }

  function OldFull(s: State, in_: Input): Published {
    if s.full.Some? then s.full.value else Published(s.version, in_.format, map[], [])
  }

  function FullMatched(cfg: Config, s: State, in_: Input): Entries {
    Match(Marked(OldFull(s, in_).entries), Marked(FullRaw(in_.image, in_.version)), in_.version, cfg.minversion)
  }

  /** Phase 1. */
  function FullManifest(cfg: Config, s: State, in_: Input): Entries {
    var old_ := OldFull(s, in_);
    var oldEntries := Marked(old_.entries);
    var m := FullMatched(cfg, s, in_);
    var m' := if old_.format < in_.format then RemoveDeprecated(oldEntries, m, BothDeleted) else m;
    Marked(RemoveDeprecated(oldEntries, m', BothGhosted))
  }

  /** The bundles during phases 2 and 3: the old and the new manifests as they stand, what the new
      MoM names and what has been written. */
  datatype Progressing = Stopped | Running(oldWork: Work, newWork: Work, bundles: map<string, Published>,
      archive: map<(string, int), Published>)

  ghost function OldIncludeMap(s: State, in_: Input): Includes {
    map g | g in in_.groups :: if g == CORE then [] else OldIncludes(OldBundle(s, in_, g).includes)
  }

  ghost function NewIncludeMap(in_: Input): Includes {
    map g | g in in_.groups :: in_.IncludesOf(g)
  }

  function Settle(in_: Input, old_: Published, g: string, p: Processed, r: Progressing): Progressing
    requires r.Running?
  {
    match p
    case Failed => Stopped
    case Kept(work) => r.(newWork := r.newWork[g := work], bundles := r.bundles[g := old_])
    case Written(work) =>
      var m := Published(in_.version, in_.format, work, in_.IncludesOf(g));
      r.(newWork := r.newWork[g := work], bundles := r.bundles[g := m], archive := r.archive[(g, in_.version) := m])
  }

  /** The job of component `g` when its turn comes. */
  ghost function JobOf(s: State, in_: Input, full: Entries, g: string, r: Progressing): Job
    requires r.Running? && g in r.oldWork && g in r.newWork
  {
    var old_ := OldBundle(s, in_, g);
    var o := r.oldWork[g := Marked(r.oldWork[g])];
    var n := r.newWork[g := Marked(AddHashes(r.newWork[g], full))];
    Job(g == CORE,
        if g == CORE then o[g] else SubtractIncludes(o, OldIncludeMap(s, in_), g),
        if g == CORE then n[g] else SubtractIncludes(n, NewIncludeMap(in_), g),
        Changed(OldIncludes(old_.includes), in_.IncludesOf(g)),
        old_.format < in_.format, in_.version, in_.OutcomeOf(g))
  }

  ghost function BundleTurn(cfg: Config, s: State, in_: Input, full: Entries, g: string, r: Progressing): Progressing {
    if r.Stopped? || g !in r.oldWork || g !in r.newWork then Stopped else
      var job := JobOf(s, in_, full, g, r);
      Settle(in_, OldBundle(s, in_, g), g, job.Process(cfg), r.(oldWork := r.oldWork[g := job.old_]))
  }

  ghost function BundleTurns(cfg: Config, s: State, in_: Input, full: Entries, groups: seq<string>,
      r: Progressing): Progressing {
    if groups == [] then r else BundleTurns(cfg, s, in_, full, groups[1..], BundleTurn(cfg, s, in_, full, groups[0], r))
  }

  function Others(groups: seq<string>): (r: seq<string>)
    ensures forall g :: g in r <==> g in groups && g != CORE
  {
    if groups == [] then []
    else if groups[0] == CORE then Others(groups[1..]) else [groups[0]] + Others(groups[1..])
  }

  function BeginBundles(s: State, in_: Input): Progressing {
    Running(map g | g in in_.groups :: OldBundle(s, in_, g).entries,
            map g | g in in_.groups :: BundleRaw(in_.image, in_.ShippedBy(g), in_.version),
            map[], s.archive)
  }

  function Works(groups: seq<string>, work: Work): (r: seq<Entries>)
    requires forall g | g in groups :: g in work
  {
    if groups == [] then [] else [work[groups[0]]] + Works(groups[1..], work)
  }

  /** Phases 4 and 5: the full manifest as it is written. */
  function WrittenFull(cfg: Config, in_: Input, full: Entries, works: seq<Entries>): Entries {
    Prune(cfg, Clean(MaximizeAll(works, full), in_.fullLinked))
  }

  /** The hashes for which a fullfile of this release is made. */
  function FullfileHashes(full: Entries, version: int): set<string> {
    set n | n in full && full[n].Live() && full[n].lastChange == version :: full[n].hash
  }

  /** The release, or nothing when the run stops before it is complete. */
  ghost function CreateUpdate(cfg: Config, s: State, in_: Input): Option<State> {
    if s.momFormat.Some? && in_.format < s.momFormat.value then None else
      var full := FullManifest(cfg, s, in_);
      var groups := [CORE] + Others(in_.groups);
      var r := BundleTurns(cfg, s, in_, full, groups, BeginBundles(s, in_));
      if r.Stopped? || exists g | g in groups :: g !in r.newWork then None else
        var written := WrittenFull(cfg, in_, full, Works(groups, r.newWork));
        Some(State(in_.version, Some(in_.format), Some(Published(in_.version, in_.format, written, [])),
                   r.bundles, r.archive,
                   s.fullfiles + set h | h in FullfileHashes(written, in_.version) :: (in_.version, h)))
  }

  /** What a build feeds in: a version above all earlier ones, bundles that are parts of the image,
      the core bundle among them, and content hashes that are not the zero hash. */
  predicate Sensible(s: State, in_: Input) {
    && in_.version > s.version
    && CORE in in_.groups && Distinct(in_.groups)
    && (forall g | g in in_.groups :: in_.ShippedBy(g) <= in_.image.Keys)
    && (forall n | n in in_.image :: in_.image[n].hash != ZERO_HASH)
  }

  /** A run that stops early publishes nothing new. */
  ghost function Step(cfg: Config, s: State, in_: Input): State {
    if Sensible(s, in_) && CreateUpdate(cfg, s, in_).Some? then CreateUpdate(cfg, s, in_).value else s
  }

  ghost function Run(cfg: Config, inputs: seq<Input>): State {
    if inputs == [] then EMPTY else Step(cfg, Run(cfg, inputs[..|inputs| - 1]), inputs[|inputs| - 1])
  }
}
