/** A bundle's way from matching to writing (`main` in src/create_update.c, step 6), on the records
    themselves: the value form that the release model uses is what the loops compute. */
module Processing {
  import opened Sorting
  import opened Files
  import opened Heuristics
  import opened Matching
  import opened Pruning
  import opened Release
  import opened RenameScores
  import opened Renames
  import opened Links
  import opened Subtracting
  import opened Rewriting
  import Availability
  import Lifecycle

  // ----- where the two manifests stand between two steps -----

  /** The two inputs of a job, and the records they consist of. */
  datatype Pair = Pair(o1: Entries, o2: Entries, b1: map<string, File>, olds: set<File>, news: set<File>)

  /** A manifest with its table, all of whose records are among `recs`. */
  ghost predicate Table(m: Manifest, table: Entries, recs: set<File>)
    reads m`files, m`count, recs`entry
  {
    m.Valid() && Index(m.files).Values <= recs && (forall f | f in m.files :: f in recs) && Contents(m.files) == table
  }

  ghost predicate OldSide(oldm: Manifest, p: Pair)
    reads oldm`files, oldm`count, p.olds`entry
  {
    p.olds !! p.news && Table(oldm, p.o1, p.olds) && Index(oldm.files) == p.b1
  }

  /** The peers are those of the matching. */
  ghost predicate PeerSide(newm: Manifest, p: Pair)
    reads newm`files, p.news`peer
  {
    && Distinct(Names(newm.files))
    && forall n | n in Index(newm.files) :: var f := Index(newm.files)[n];
         f in p.news && f.peer == if n in p.b1 && HasPeer(p.o1, p.o2, n) then p.b1[n] else null
  }

  ghost predicate Stage(oldm: Manifest, newm: Manifest, p: Pair, cur: Entries)
    reads oldm`files, oldm`count, newm`files, newm`count, p.olds`entry, p.news`entry, p.news`peer
  {
    oldm != newm && OldSide(oldm, p) && PeerSide(newm, p) && Table(newm, cur, p.news)
  }

  lemma TableFacts(m: Manifest, table: Entries, recs: set<File>)
    requires Table(m, table, recs)
    ensures m.Valid() && Distinct(Names(m.files)) && Contents(m.files) == table && Index(m.files).Values <= recs
    ensures forall f | f in m.files :: f in recs
  {
  }

  lemma TableFrom(m: Manifest, table: Entries, recs: set<File>)
    requires m.Valid() && Index(m.files).Values <= recs && Contents(m.files) == table
    ensures Table(m, table, recs)
  {
    hide Distinct, Names, Index, Contents;
    forall f | f in m.files
      ensures f in recs
    {
      RecordOf(m.files, f);
    }
  }

  lemma OldFacts(oldm: Manifest, p: Pair)
    requires OldSide(oldm, p)
    ensures p.olds !! p.news && Table(oldm, p.o1, p.olds) && Index(oldm.files) == p.b1
  {
  }

  lemma OldFrom(oldm: Manifest, p: Pair)
    requires p.olds !! p.news && oldm.Valid() && Contents(oldm.files) == p.o1 && Index(oldm.files) == p.b1
    requires p.b1.Values <= p.olds
    ensures OldSide(oldm, p)
  {
    TableFrom(oldm, p.o1, p.olds);
  }

  lemma PeersFewer(newm: Manifest, p: Pair, idx: map<string, File>)
    requires Distinct(Names(newm.files)) && forall n | n in Index(newm.files) ::
      n in idx && Index(newm.files)[n] == idx[n]
    requires forall n | n in idx ::
      idx[n] in p.news && idx[n].peer == if n in p.b1 && HasPeer(p.o1, p.o2, n) then p.b1[n] else null
    ensures PeerSide(newm, p)
  {
    hide Distinct, Names, Index, HasPeer;
  }

  lemma PeerFacts(newm: Manifest, p: Pair)
    requires PeerSide(newm, p)
    ensures Distinct(Names(newm.files))
    ensures forall n | n in Index(newm.files) :: var f := Index(newm.files)[n];
      f in p.news && f.peer == if n in p.b1 && HasPeer(p.o1, p.o2, n) then p.b1[n] else null
    ensures PeersGiven(p.b1, Index(newm.files), p.o1, p.o2)
  {
    hide Distinct, Names, Index, HasPeer;
  }

  // ----- the links of renames between two steps -----

  /** The records as rename detection left them, by name, the renames that it made, and the new files that it
      looked at. */
  datatype Trace = Trace(idx: map<string, File>, renames: Release.Renames, candidates: set<string>)

  ghost predicate Tracks(newm: Manifest, t: Trace)
    reads newm`files, t.idx.Values`renamePeer
  {
    && Distinct(Names(newm.files))
    && (forall n | n in Index(newm.files) :: n in t.idx && Index(newm.files)[n] == t.idx[n])
    && (forall n | n in t.idx :: t.idx[n].filename == n)
    && Mutual(t.idx, t.renames) && OthersUnlinked(t.idx, t.renames, t.candidates)
  }

  lemma TracksFewer(newm: Manifest, t: Trace, idx: map<string, File>)
    requires Distinct(Names(newm.files)) && forall n | n in Index(newm.files) ::
      n in idx && Index(newm.files)[n] == idx[n]
    requires (forall n | n in idx :: n in t.idx && idx[n] == t.idx[n]) && forall n | n in t.idx ::
      t.idx[n].filename == n
    requires Mutual(t.idx, t.renames) && OthersUnlinked(t.idx, t.renames, t.candidates)
    ensures Tracks(newm, t)
  {
    hide Distinct, Names, Index, Mutual, OthersUnlinked;
  }

  lemma TracksFacts(newm: Manifest, t: Trace)
    requires Tracks(newm, t)
    ensures Distinct(Names(newm.files)) && forall n | n in Index(newm.files) ::
      n in t.idx && Index(newm.files)[n] == t.idx[n]
    ensures forall n | n in t.idx :: t.idx[n].filename == n
    ensures Mutual(t.idx, t.renames) && OthersUnlinked(t.idx, t.renames, t.candidates)
  {
  }

  /** What the table says of the renames, once the ghosts are removed: the new file is there and marked, and so is
      the old one unless it was a ghost; and nothing else is marked as a rename of this release. */
  ghost predicate BothEnds(p: Pair, t: Trace, version: int, cur: Entries) {
    && (forall d | d in t.renames ::
          && t.renames[d] in cur && cur[t.renames[d]].isRename && !cur[t.renames[d]].isDeleted
          && cur[t.renames[d]].lastChange == version
          && (d in cur <==> d in p.o1 && !p.o1[d].isGhosted)
          && (d in cur ==>
               && cur[d].isRename && cur[d].isDeleted && cur[d].lastChange == version
               && cur[d].hash == cur[t.renames[d]].hash))
    && (forall n | n in cur && cur[n].isRename ::
        n in t.renames || n in t.renames.Values || (cur[n].lastChange < version && n !in t.candidates))
  }

  /** The old manifest is of an earlier release, and nothing in the new one is marked or ghosted yet. */
  predicate Fresh(o1: Entries, o2: Entries, version: int) {
    && (forall n | n in o1 :: o1[n].lastChange < version)
    && (forall n | n in o2 :: !o2[n].isRename && !o2[n].isGhosted)
  }

  predicate NoGhostRenamed(o1: Entries, r: Release.Renames) {
    forall d | d in r :: d in o1 && !o1[d].isGhosted
  }

  /** The record of a name that is left. */
  lemma RecordHere(newm: Manifest, p: Pair, t: Trace, cur: Entries, n: string)
    requires Table(newm, cur, p.news) && Tracks(newm, t) && n in cur
    ensures n in t.idx && t.idx[n] in newm.files && t.idx[n].filename == n && t.idx[n].entry == cur[n]
  {
    hide Distinct, Names, Mutual, OthersUnlinked, Index;
    assert n in Index(newm.files);
  }

  lemma RecordOfCur(newm: Manifest, p: Pair, t: Trace, cur: Entries, f: File)
    requires Table(newm, cur, p.news) && Tracks(newm, t) && f in newm.files
    ensures f.filename in cur && f.filename in t.idx && t.idx[f.filename] == f && cur[f.filename] == f.entry
  {
    hide Distinct, Names, Mutual, OthersUnlinked, Index;
    RecordOf(newm.files, f);
  }

  /** If no ghost was renamed, every link leads to the other end of its rename. */
  lemma AllSound(newm: Manifest, p: Pair, t: Trace, cur: Entries)
    requires Table(newm, cur, p.news) && Tracks(newm, t) && BothEnds(p, t, newm.version, cur)
    requires NoGhostRenamed(p.o1, t.renames)
    ensures Sound(Renamed(newm.files))
  {
    hide Table, Tracks;
    TracksFacts(newm, t);
    forall f | f in Renamed(newm.files) && f.renamePeer != null
      ensures f.renamePeer in Renamed(newm.files) && Partners(f, f.renamePeer) && f.renamePeer.renamePeer != null
    {
      RecordOfCur(newm, p, t, cur, f);
      var n := f.filename;
      if n in t.renames {
        RecordHere(newm, p, t, cur, t.renames[n]);
      } else if n in t.renames.Values {
        var d :| d in t.renames && t.renames[d] == n;
        RecordHere(newm, p, t, cur, d);
      }
    }
  }

  /** The new file of a ghost that was renamed keeps its link to a record that is in no manifest. */
  lemma GhostLeavesOrphan(newm: Manifest, p: Pair, t: Trace, cur: Entries, d: string)
    requires Table(newm, cur, p.news) && Tracks(newm, t) && BothEnds(p, t, newm.version, cur)
    requires d in t.renames && d !in cur
    ensures t.renames[d] in t.idx && var f := t.idx[t.renames[d]];
      f in AllBound(newm.files) && f.entry.isRename && f.renamePeer != null && f.renamePeer !in newm.files
  {
    hide Table, Tracks, Renamed;
    TracksFacts(newm, t);
    RecordHere(newm, p, t, cur, t.renames[d]);
    var f := t.idx[t.renames[d]];
    RenamedHas(newm.files);
    forall q | q in Renamed(newm.files) && Partners(f, q)
      ensures q.renamePeer != null
    {
      RecordOfCur(newm, p, t, cur, q);
    }
    if f.renamePeer in newm.files {
      RecordOfCur(newm, p, t, cur, f.renamePeer);
    }
  }

  lemma RenamedHas(files: seq<File>)
    ensures forall f :: f in Renamed(files) <==> f in files && f.entry.isRename
  {
  }

  // ----- the steps -----

  /** `apply_heuristics(newm)` */
  method HeuristicsStep(oldm: Manifest, newm: Manifest, ghost p: Pair, ghost cur: Entries)
    requires Stage(oldm, newm, p, cur)
    modifies p.news`entry
    ensures Stage(oldm, newm, p, Marked(cur))
  {
    hide Distinct, Names, Index, Contents, Marked, OldSide, PeerSide, Table;
    TableFacts(newm, cur, p.news);
    OldFacts(oldm, p);
    ApplyHeuristics(newm);
    assert OldSide(oldm, p) && PeerSide(newm, p);
    TableFrom(newm, Marked(cur), p.news);
  }

  /** `rename_detection(newm)` */
  method RenameStep(oldm: Manifest, newm: Manifest, traits: map<File, Traits>, ghost p: Pair, ghost cur: Entries)
    returns (ghost r: Release.Renames, ghost t: Trace)
    requires Stage(oldm, newm, p, cur) && Ready(newm.files, newm.version, traits)
    modifies p.news`entry, p.news`renamePeer, p.news`renameScore
    ensures RenamesAllowed(p.o1, p.o2, cur, newm.version, r) && Stage(oldm, newm, p, ApplyRenames(cur, r))
    ensures Tracks(newm, t) && t.renames == r && t.idx.Values <= p.news
    ensures BestMatched(p.o1, p.o2, cur, newm.version, r, p.b1, t.idx, traits) && t.idx == old(Index(newm.files))
    ensures forall n | n in t.candidates :: RenamedTo(p.o1, p.o2, cur, newm.version, n)
  {
    hide Distinct, Names, Index, Contents, OldSide, PeerSide, Table, PeersGiven, Ready, RenamesAllowed, ApplyRenames,
      Filter.Holds, Mutual, OthersUnlinked, RenamedTo, Filter.Of, HasPeer, Marked, BestMatched;
    TableFacts(newm, cur, p.news);
    OldFacts(oldm, p);
    TableFacts(oldm, p.o1, p.olds);
    PeerFacts(newm, p);
    Sides(newm.files, newm.version);
    ghost var candidates;
    r, candidates := DetectMatched(oldm, newm, traits, p.o1, p.o2);
    assert OldSide(oldm, p) && PeerSide(newm, p);
    t := Trace.Trace(Index(newm.files), r, candidates);
    TracksFewer(newm, t, t.idx);
    TableFrom(newm, ApplyRenames(cur, r), p.news);
  }

  /** `remove_deprecated_files(oldm, newm, ...)` */
  method RemoveStage(oldm: Manifest, newm: Manifest, d: Deprecation, ghost p: Pair, ghost cur: Entries, ghost t: Trace)
    returns (count: nat)
    requires Stage(oldm, newm, p, cur) && Tracks(newm, t)
    modifies oldm`files, newm`files, newm`count
    ensures Stage(oldm, newm, p, RemoveDeprecated(p.o1, cur, d)) && count == |Deprecated(p.o1, cur, d)|
    ensures Tracks(newm, t)
  {
    hide Distinct, Names, Index, Contents, OldSide, PeerSide, Table, Deprecated, PeersGiven, HasPeer, Tracks, Mutual,
      OthersUnlinked;
    TracksFacts(newm, t);
    OldFacts(oldm, p);
    TableFacts(oldm, p.o1, p.olds);
    TableFacts(newm, cur, p.news);
    PeerFacts(newm, p);
    ghost var idx := Index(newm.files);
    count := RemoveDeprecatedFiles(oldm, newm, d);
    OldFrom(oldm, p);
    TableFrom(newm, RemoveDeprecated(p.o1, cur, d), p.news);
    PeersFewer(newm, p, idx);
    TracksFewer(newm, t, idx);
  }

  lemma SortedStage(oldm: Manifest, newm: Manifest, p: Pair, cur: Entries)
    requires Stage(oldm, newm, p, cur)
    ensures var l := ByVersion(newm.files);
      && Distinct(Names(l)) && |l| == |newm.files| && Index(l) == Index(newm.files) && Contents(l) == cur
      && forall f | f in l :: f in newm.files
  {
    hide Distinct, Names, Index, Contents, OldSide, PeerSide, ByVersion;
    TableFacts(newm, cur, p.news);
    ByVersionRecords(newm.files);
    IndexContents(newm.files, ByVersion(newm.files));
  }

  /** `sort_manifest_by_version(newm)` */
  method SortStage(oldm: Manifest, newm: Manifest, ghost p: Pair, ghost cur: Entries, ghost t: Trace)
    requires Stage(oldm, newm, p, cur) && Tracks(newm, t)
    modifies newm`files
    ensures Stage(oldm, newm, p, cur) && Tracks(newm, t)
  {
    hide Distinct, Names, Index, Contents, OldSide, PeerSide, Table, ByVersion, Tracks, Mutual, OthersUnlinked;
    TracksFacts(newm, t);
    SortedStage(oldm, newm, p, cur);
    TableFacts(newm, cur, p.news);
    PeerFacts(newm, p);
    ghost var idx := Index(newm.files);
    newm.files := ByVersion(newm.files);
    TableFrom(newm, cur, p.news);
    PeersFewer(newm, p, idx);
    TracksFewer(newm, t, idx);
  }

  /** `type_has_changed`, with the transitions that are allowed taken out. */
  predicate TypeHasChanged(f: File)
    reads f, f.peer
  {
    f.peer != null && !f.peer.entry.isDeleted && !f.entry.isDeleted && !TypeChangeOk(f.peer.entry, f.entry)
  }

  /** `type_change_detection`: any such change ends the program. */
  method TypeChangeDetection(m: Manifest) returns (ok: bool)
    ensures ok <==> forall f | f in m.files :: !TypeHasChanged(f)
  {
    hide TypeHasChanged;
    var n := 0;
    for k := 0 to |m.files|
      invariant n >= 0 && (n == 0 <==> forall i | 0 <= i < k :: !TypeHasChanged(m.files[i]))
    {
      if TypeHasChanged(m.files[k]) {
        n := n + 1;
      }
    }
    ok := n == 0;
  }

  lemma TypesByName(oldm: Manifest, newm: Manifest, p: Pair, cur: Entries)
    requires Stage(oldm, newm, p, cur)
    ensures (forall f | f in newm.files :: !TypeHasChanged(f)) <==> TypesOk(p.o1, p.o2, cur)
  {
    hide Distinct, Names, Index, TypeChangeOk, OldSide, PeerSide, Table, Contents;
    TableFacts(newm, cur, p.news);
    OldFacts(oldm, p);
    TableFacts(oldm, p.o1, p.olds);
    PeerFacts(newm, p);
    forall f | f in newm.files
      ensures TypeHasChanged(f) ==> !TypesOk(p.o1, p.o2, cur)
    {
      RecordOf(newm.files, f);
      OneType(oldm, newm, p, cur, f.filename);
    }
    forall n | n in cur && n in p.o1
      ensures Index(newm.files)[n] in newm.files
      ensures HasPeer(p.o1, p.o2, n) && !p.o1[n].isDeleted && !cur[n].isDeleted && !TypeChangeOk(p.o1[n], cur[n]) ==>
        TypeHasChanged(Index(newm.files)[n])
    {
      OneType(oldm, newm, p, cur, n);
    }
  }

  lemma OneType(oldm: Manifest, newm: Manifest, p: Pair, cur: Entries, n: string)
    requires Stage(oldm, newm, p, cur) && n in Index(newm.files)
    ensures n in cur && Index(newm.files)[n] in newm.files
    ensures TypeHasChanged(Index(newm.files)[n]) <==>
      n in p.o1 && HasPeer(p.o1, p.o2, n) && !p.o1[n].isDeleted && !cur[n].isDeleted && !TypeChangeOk(p.o1[n], cur[n])
  {
    hide Distinct, Names, Index, TypeChangeOk, OldSide, PeerSide, Table;
    TableFacts(newm, cur, p.news);
    OldFacts(oldm, p);
    TableFacts(oldm, p.o1, p.olds);
    PeerFacts(newm, p);
    var f := Index(newm.files)[n];
    assert f.entry == Contents(newm.files)[n];
    if n in p.b1 {
      assert p.b1[n].entry == Contents(oldm.files)[n];
    }
  }

  /** `clean_renames(newm)`: no mark is left without its other end, if and only if no rename of this release
      started at a ghost. */
  method CleanStep(oldm: Manifest, newm: Manifest, ghost p: Pair, ghost cur: Entries, ghost t: Trace)
    returns (ghost linked: set<string>)
    requires Stage(oldm, newm, p, cur) && Tracks(newm, t) && t.idx.Values <= p.news
    modifies p.news`entry, p.news`renamePeer
    ensures Stage(oldm, newm, p, Clean(cur, linked))
    ensures BothEnds(p, t, newm.version, cur) ==> (NoOrphans(newm.files) <==> NoGhostRenamed(p.o1, t.renames))
  {
    hide Distinct, Names, Index, Contents, OldSide, PeerSide, Table, Clean, NoOrphans, Sound, Tracks, BothEnds,
      AllBound, Renamed, NoGhostRenamed, LinkedNames;
    TableFacts(newm, cur, p.news);
    OldFacts(oldm, p);
    ghost var orphan := OrphanOf(newm, p, t, cur);
    if BothEnds(p, t, newm.version, cur) && NoGhostRenamed(p.o1, t.renames) {
      AllSound(newm, p, t, cur);
    }
    ghost var files := newm.files;
    RenamedFiles(newm.files);
    CleanRenames(newm);
    linked := LinkedNames(newm.files);
    TableFrom(newm, Clean(cur, linked), p.news);
    if orphan != null {
      IsOrphan(newm.files, orphan);
    }
  }

  lemma RenamedFiles(files: seq<File>)
    ensures forall f | f in Renamed(files) :: f in files
  {
  }

  lemma IsOrphan(files: seq<File>, f: File)
    requires f in files && f.entry.isRename && f.renamePeer != null && f.renamePeer !in files
    ensures !NoOrphans(files)
  {
  }

  /** A record whose other end is gone for good, if a ghost was renamed. */
  lemma OrphanOf(newm: Manifest, p: Pair, t: Trace, cur: Entries) returns (f: File?)
    requires Table(newm, cur, p.news) && Tracks(newm, t)
    ensures BothEnds(p, t, newm.version, cur) && !NoGhostRenamed(p.o1, t.renames) ==> f != null
    ensures f != null ==>
      f in AllBound(newm.files) && f.entry.isRename && f.renamePeer != null && f.renamePeer !in newm.files
  {
    hide Table, Tracks, AllBound;
    f := null;
    if BothEnds(p, t, newm.version, cur) && !NoGhostRenamed(p.o1, t.renames) {
      var d :| d in t.renames && (d !in p.o1 || p.o1[d].isGhosted);
      GhostLeavesOrphan(newm, p, t, cur, d);
      f := t.idx[t.renames[d]];
    }
  }

  /** `prune_manifest(newm)` */
  method PruneStage(oldm: Manifest, newm: Manifest, cfg: Config, ghost p: Pair,
      ghost cur: Entries) returns (newfiles: nat)
    requires Stage(oldm, newm, p, cur)
    modifies newm`files, newm`count, p.news`entry
    ensures Stage(oldm, newm, p, Prune(cfg, cur)) && newfiles == |NewFiles(Prune(cfg, cur), newm.version)|
  {
    hide Distinct, Names, Index, Contents, OldSide, PeerSide, Table, Prune, HasPeer, NewFiles, PeersGiven;
    TableFacts(newm, cur, p.news);
    OldFacts(oldm, p);
    PeerFacts(newm, p);
    ghost var idx := Index(newm.files);
    newfiles := PruneManifest(newm, cfg);
    TableFrom(newm, Prune(cfg, cur), p.news);
    PeersFewer(newm, p, idx);
  }

  // ----- the way of a bundle -----

  /** `match_manifests(oldm, newm)` */
  method MatchStep(oldm: Manifest, newm: Manifest, minversion: int) returns (count: int, ghost p: Pair)
    requires oldm != newm && oldm.Valid() && newm.Valid() && Disjoint(oldm.files, newm.files)
    requires Unlinked(newm.files) && AllNull(newm.files)
    modifies oldm`files, newm`files, newm`count
    modifies Index(oldm.files).Values`peer, Index(newm.files).Values`peer, Index(newm.files).Values`entry
    ensures p.o1 == old(Contents(oldm.files)) && p.o2 == old(Contents(newm.files)) && p.b1 == old(Index(oldm.files))
    ensures Stage(oldm, newm, p, Match(p.o1, p.o2, newm.version, minversion)) && AllNull(newm.files)
    ensures count == |Differences(p.o1, p.o2, minversion)|
    ensures forall n | n in old(Index(newm.files)) ::
      n in Index(newm.files) && Index(newm.files)[n] == old(Index(newm.files))[n]
    ensures forall f | f in p.news :: f in old(Index(newm.files)).Values || fresh(f)
  {
    hide Distinct, Names, Index, Unlinked, Joined, AllNull, Contents, Match, Differences, Disjoint, HasPeer,
      MatchedPair;
    ghost var o1, o2 := Contents(oldm.files), Contents(newm.files);
    count := MatchRecords(oldm, newm, minversion);
    MatchedValid(oldm, newm, o1, o2, minversion);
    p := Pair(o1, o2, Index(oldm.files), Index(oldm.files).Values, Index(newm.files).Values);
    MatchedStage(oldm, newm, p, minversion);
  }

  lemma MatchedValid(oldm: Manifest, newm: Manifest, o1: Entries, o2: Entries, minversion: int)
    requires MatchedPair(oldm, newm, o1, o2, minversion)
    ensures Distinct(Names(oldm.files)) && Distinct(Names(newm.files))
  {
  }

  lemma MatchedStage(oldm: Manifest, newm: Manifest, p: Pair, minversion: int)
    requires oldm != newm && MatchedPair(oldm, newm, p.o1, p.o2, minversion)
    requires p.b1 == Index(oldm.files) && p.olds == p.b1.Values && p.news == Index(newm.files).Values
    ensures Stage(oldm, newm, p, Match(p.o1, p.o2, newm.version, minversion)) && AllNull(newm.files)
  {
    hide Distinct, Names, Index, Contents, Match, HasPeer, AllNull;
    forall n, k | n in p.b1 && k in Index(newm.files)
      ensures p.b1[n] != Index(newm.files)[k]
    {
      assert p.b1[n].filename == n && Index(newm.files)[k].filename == k;
    }
    OldFrom(oldm, p);
    TableFrom(newm, Match(p.o1, p.o2, newm.version, minversion), p.news);
    PeersFewer(newm, p, Index(newm.files));
  }

  /** What the scores look at is known of every record that is read or walked. */
  ghost predicate Described(b1: map<string, File>, o1: Entries, b2: map<string, File>, o2: Entries,
      traits: map<File, Traits>) {
    && (forall n | n in b1 && n in o1 ::
         b1[n] in traits && traits[b1[n]].filename == n && traits[b1[n]].hash == o1[n].hash)
    && (forall n | n in b2 && n in o2 ::
         b2[n] in traits && traits[b2[n]].filename == n && traits[b2[n]].hash == o2[n].hash)
  }

  lemma HashesKept(p: Pair, version: int, minversion: int, n: string)
    requires var cur := Marked(Match(p.o1, p.o2, version, minversion)); n in cur && !cur[n].isDeleted
    ensures n in p.o2 && Marked(Match(p.o1, p.o2, version, minversion))[n].hash == p.o2[n].hash
  {
    hide ConfigPath, StatePath, BootPath;
  }

  lemma NewEntries(newm: Manifest, p: Pair, cur: Entries)
    requires Table(newm, cur, p.news)
    ensures forall f | f in newm.files ::
      && f.filename in cur && cur[f.filename] == f.entry
      && f.filename in Index(newm.files) && Index(newm.files)[f.filename] == f
  {
    hide Distinct, Names, Index;
    forall f | f in newm.files
      ensures f.filename in Index(newm.files) && Index(newm.files)[f.filename] == f
    {
      RecordOf(newm.files, f);
    }
  }

  lemma OldEntries(oldm: Manifest, p: Pair)
    requires OldSide(oldm, p)
    ensures forall n | n in p.b1 :: n in p.o1 && p.b1[n].entry == p.o1[n] && p.b1[n].filename == n
  {
    hide Distinct, Names, Index;
  }

  lemma NewsReady(oldm: Manifest, newm: Manifest, p: Pair, minversion: int, b2: map<string, File>,
      traits: map<File, Traits>)
    requires Table(newm, Marked(Match(p.o1, p.o2, newm.version, minversion)), p.news)
    requires Described(p.b1, p.o1, b2, p.o2, traits) && b2.Keys == p.o2.Keys && Distinct(Names(newm.files))
    requires forall n | n in b2 :: n in Index(newm.files) && Index(newm.files)[n] == b2[n]
    ensures forall f | f in NewFile.Of(newm.files, newm.version) :: f in traits && Describes(traits[f], f)
  {
    hide Distinct, Names, Index, Table, Match, Marked, Contents;
    var cur := Marked(Match(p.o1, p.o2, newm.version, minversion));
    NewEntries(newm, p, cur);
    forall f | f in NewFile.Of(newm.files, newm.version)
      ensures f in traits && Describes(traits[f], f)
    {
      HashesKept(p, newm.version, minversion, f.filename);
    }
  }

  lemma DelsReady(oldm: Manifest, newm: Manifest, p: Pair, b2: map<string, File>, traits: map<File, Traits>)
    requires OldSide(oldm, p) && PeerSide(newm, p) && Described(p.b1, p.o1, b2, p.o2, traits)
    ensures forall f | f in DeletedFile.Of(newm.files, newm.version) ::
      f.peer != null && f.peer in traits && Describes(traits[f.peer], f.peer)
  {
    hide Distinct, Names, Index, OldSide, HasPeer;
    OldEntries(oldm, p);
    forall f | f in DeletedFile.Of(newm.files, newm.version)
      ensures f.peer != null && f.peer in traits && Describes(traits[f.peer], f.peer)
    {
      RecordOf(newm.files, f);
    }
  }

  lemma ReadyNow(oldm: Manifest, newm: Manifest, p: Pair, minversion: int, b2: map<string, File>,
      traits: map<File, Traits>)
    requires Stage(oldm, newm, p, Marked(Match(p.o1, p.o2, newm.version, minversion))) && AllNull(newm.files)
    requires Described(p.b1, p.o1, b2, p.o2, traits) && b2.Keys == p.o2.Keys && Distinct(Names(newm.files))
    requires forall n | n in b2 :: n in Index(newm.files) && Index(newm.files)[n] == b2[n]
    ensures Ready(newm.files, newm.version, traits)
  {
    hide Distinct, Names, Index, OldSide, PeerSide, Table, Match, Marked, Filter.Of, Describes, Described;
    NewsReady(oldm, newm, p, minversion, b2, traits);
    DelsReady(oldm, newm, p, b2, traits);
  }

  /** What happened to the component. */
  datatype Fate = Stopped | Stayed | Wrote

  /** The value form says the same. */
  predicate Agrees(fate: Fate, r: Processed) {
    match fate
    case Stopped => r.Failed?
    case Stayed => r.Kept?
    case Wrote => r.Written?
  }

  lemma Unfolded(job: Job, cfg: Config)
    ensures job.Matched(cfg) == Match(job.old_, job.new_, job.version, cfg.minversion)
    ensures job.Renamed(cfg) == ApplyRenames(Marked(job.Matched(cfg)), job.outcome.renames)
    ensures job.WithoutDeleted(cfg) ==
      if job.bump then RemoveDeprecated(job.old_, job.Renamed(cfg), BothDeleted) else job.Renamed(cfg)
    ensures job.WithoutGhosts(cfg) == RemoveDeprecated(job.old_, job.WithoutDeleted(cfg), BothGhosted)
    ensures job.Pruned(cfg) == Prune(cfg, Clean(job.WithoutGhosts(cfg), job.outcome.linked))
  {
    hide Match, ApplyRenames, RemoveDeprecated, Clean, Prune, Marked;
  }

  /** What a bundle's fate depends on, counted as the source counts it. */
  lemma FateIs(job: Job, cfg: Config, newfiles: nat, oldDeleted: nat, oldGhosted: nat)
    requires !job.isCore && !job.Same(cfg) && job.Acceptable(cfg)
    requires newfiles == |NewFiles(job.Pruned(cfg), job.version)|
    requires oldDeleted == if job.bump then |Deprecated(job.old_, job.Renamed(cfg), BothDeleted)| else 0
    requires oldGhosted == |Deprecated(job.old_, job.WithoutDeleted(cfg), BothGhosted)|
    ensures job.Process(cfg) ==
      if newfiles > 0 || oldDeleted > 0 || oldGhosted > 0 || job.includesChanged
      then Written(job.Pruned(cfg)) else Kept(job.Pruned(cfg))
  {
    hide Job.Matched, Job.Renamed, Job.WithoutDeleted, Job.Pruned, NewFiles, Deprecated, Job.Same, Job.Acceptable;
    if newfiles == 0 {
      assert NewFiles(job.Pruned(cfg), job.version) == {};
    }
    if oldGhosted == 0 {
      assert Deprecated(job.old_, job.WithoutDeleted(cfg), BothGhosted) == {};
    }
  }

  /** From the heuristics to the removal of expired ghosts. */
  method RewriteRecords(oldm: Manifest, newm: Manifest, minversion: int, traits: map<File, Traits>, ghost p: Pair,
      ghost b2: map<string, File>)
    returns (oldDeleted: nat, oldGhosted: nat, ghost r: Release.Renames, ghost renamed: Entries, ghost without: Entries,
             ghost t: Trace)
    requires Stage(oldm, newm, p, Match(p.o1, p.o2, newm.version, minversion)) && AllNull(newm.files)
    requires Described(p.b1, p.o1, b2, p.o2, traits) && b2.Keys == p.o2.Keys && Distinct(Names(newm.files))
    requires forall n | n in b2 :: n in Index(newm.files) && Index(newm.files)[n] == b2[n]
    modifies oldm`files, newm`files, newm`count, p.news`entry, p.news`renamePeer, p.news`renameScore
    ensures RenamesAllowed(p.o1, p.o2, Marked(Match(p.o1, p.o2, newm.version, minversion)), newm.version, r)
    ensures renamed == ApplyRenames(Marked(Match(p.o1, p.o2, newm.version, minversion)), r)
    ensures without == if oldm.format < newm.format then RemoveDeprecated(p.o1, renamed, BothDeleted) else renamed
    ensures oldDeleted == if oldm.format < newm.format then |Deprecated(p.o1, renamed, BothDeleted)| else 0
    ensures oldGhosted == |Deprecated(p.o1, without, BothGhosted)|
    ensures Stage(oldm, newm, p, RemoveDeprecated(p.o1, without, BothGhosted))
    ensures Tracks(newm, t) && t.renames == r && t.idx.Values <= p.news
    ensures BestMatched(p.o1, p.o2, Marked(Match(p.o1, p.o2, newm.version, minversion)), newm.version, r, p.b1, t.idx,
                        traits)
    ensures forall n | n in b2 :: n in t.idx && t.idx[n] == b2[n]
    ensures forall n | n in t.candidates ::
      RenamedTo(p.o1, p.o2, Marked(Match(p.o1, p.o2, newm.version, minversion)), newm.version, n)
  {
    hide Distinct, Names, Index, Stage, Match, Marked, ApplyRenames, RemoveDeprecated, Deprecated, RenamesAllowed,
      Ready, AllNull, Described, HasPeer, Tracks, RenamedTo, BestMatched;
    ghost var cur := Match(p.o1, p.o2, newm.version, minversion);
    HeuristicsStep(oldm, newm, p, cur);
    ReadyNow(oldm, newm, p, minversion, b2, traits);
    r, t := RenameStep(oldm, newm, traits, p, Marked(cur));
    renamed := ApplyRenames(Marked(cur), r);
    without := renamed;
    oldDeleted := 0;
    if oldm.format < newm.format {
      oldDeleted := RemoveStage(oldm, newm, BothDeleted, p, renamed, t);
      without := RemoveDeprecated(p.o1, renamed, BothDeleted);
    }
    oldGhosted := RemoveStage(oldm, newm, BothGhosted, p, without, t);
  }

  /** Every job of a run is fresh in this sense. */
  lemma JobsAreFresh(job: Job)
    requires Availability.JobOk(job)
    ensures Fresh(job.old_, job.new_, job.version)
  {
    hide Availability.WrittenOk;
  }

  /** Everything a bundle's processing depends on, before the outcome is known. */
  function Start(o1: Entries, o2: Entries, includesChanged: bool, bump: bool, version: int, r: Release.Renames,
      linked: set<string>): Job {
    Job(false, o1, o2, includesChanged, bump, version, Outcome(r, linked))
  }

  /** The marks that a table has before renames are detected are of earlier releases. */
  lemma OldMarks(job: Job, cfg: Config, n: string)
    requires Fresh(job.old_, job.new_, job.version) && n in job.Matched(cfg) && job.Matched(cfg)[n].isRename
    ensures job.Matched(cfg)[n].lastChange < job.version
      || (n in job.old_ && job.old_[n].isGhosted && job.Matched(cfg)[n].isGhosted)
  {
    hide StatePath, BootPath, ConfigPath, ZERO_HASH;
  }

  lemma OldEnd(job: Job, cfg: Config, d: string)
    requires Fresh(job.old_, job.new_, job.version)
    requires RenamedFrom(job.old_, job.new_, Marked(job.Matched(cfg)), job.version, d)
    ensures d in job.old_ && !job.old_[d].isDeleted && (job.old_[d].isGhosted ==> job.Matched(cfg)[d].isGhosted)
  {
    hide StatePath, BootPath, ConfigPath, ZERO_HASH;
  }

  lemma NewEnd(job: Job, cfg: Config, n: string)
    requires Fresh(job.old_, job.new_, job.version)
    requires RenamedTo(job.old_, job.new_, Marked(job.Matched(cfg)), job.version, n)
    ensures !job.Matched(cfg)[n].isGhosted
  {
    hide StatePath, BootPath, ConfigPath, ZERO_HASH;
  }

  /** The heuristics look at the path only. */
  lemma MarkKeeps(m: Entries, n: string)
    requires n in m
    ensures n in Marked(m) && var e := Marked(m)[n];
      && e.isDeleted == m[n].isDeleted && e.isGhosted == m[n].isGhosted && e.lastChange == m[n].lastChange
      && e.isRename == m[n].isRename && e.hash == m[n].hash
  {
    hide StatePath, BootPath, ConfigPath;
  }

  /** Renaming touches marks and hashes only. */
  lemma AppliedEntry(m: Entries, r: Release.Renames, n: string)
    requires n in m
    ensures n in ApplyRenames(m, r) && var e := ApplyRenames(m, r)[n];
      && e.isDeleted == m[n].isDeleted && e.isGhosted == m[n].isGhosted && e.lastChange == m[n].lastChange
      && (n in r && r[n] in m ==> e.isRename && e.hash == m[r[n]].hash)
      && (n !in r && n in r.Values ==> e.isRename && e.hash == m[n].hash)
      && (n !in r && n !in r.Values ==> e.isRename == m[n].isRename)
  {
    var e := ApplyRenames(m, r)[n];
    if n in r && r[n] in m {
      assert e == m[n].(isRename := true, hash := m[r[n]].hash);
    } else if n in r.Values {
      assert e == m[n].(isRename := true);
    } else {
      assert e == m[n];
    }
  }

  lemma EndsOfRename(job: Job, cfg: Config, d: string)
    requires Fresh(job.old_, job.new_, job.version) && d in job.outcome.renames
    requires RenamesAllowed(job.old_, job.new_, Marked(job.Matched(cfg)), job.version, job.outcome.renames)
    ensures var n, cur := job.outcome.renames[d], job.WithoutGhosts(cfg);
      && n in cur && cur[n].isRename && !cur[n].isDeleted && cur[n].lastChange == job.version
      && (d in cur <==> d in job.old_ && !job.old_[d].isGhosted)
      && (d in cur ==>
           cur[d].isRename && cur[d].isDeleted && cur[d].lastChange == job.version && cur[d].hash == cur[n].hash)
  {
    hide Job.Matched, Job.WithoutGhosts, Marked, HasPeer, Fresh, ApplyRenames;
    var r := job.outcome.renames;
    var m, n := Marked(job.Matched(cfg)), r[d];
    assert RenamedFrom(job.old_, job.new_, m, job.version, d) && RenamedTo(job.old_, job.new_, m, job.version, n);
    OldEnd(job, cfg, d);
    NewEnd(job, cfg, n);
    MarkKeeps(job.Matched(cfg), d);
    MarkKeeps(job.Matched(cfg), n);
    AppliedEntry(m, r, d);
    assert n in r ==> RenamedFrom(job.old_, job.new_, m, job.version, n);
    assert n in r.Values;
    AppliedEntry(m, r, n);
    Lifecycle.Remaining(job, cfg, d);
    Lifecycle.Remaining(job, cfg, n);
  }

  lemma EndsAreKept(job: Job, cfg: Config, p: Pair, t: Trace)
    requires job.old_ == p.o1 && job.new_ == p.o2 && job.outcome.renames == t.renames
    requires Fresh(job.old_, job.new_, job.version)
    requires RenamesAllowed(job.old_, job.new_, Marked(job.Matched(cfg)), job.version, job.outcome.renames)
    requires forall n | n in t.candidates :: RenamedTo(job.old_, job.new_, Marked(job.Matched(cfg)), job.version, n)
    ensures BothEnds(p, t, job.version, job.WithoutGhosts(cfg))
  {
    hide Job.Matched, Job.WithoutGhosts, Marked, HasPeer, RenamesAllowed, Fresh, ApplyRenames;
    var cur := job.WithoutGhosts(cfg);
    forall d | d in t.renames
      ensures t.renames[d] in cur && cur[t.renames[d]].isRename && !cur[t.renames[d]].isDeleted
      ensures cur[t.renames[d]].lastChange == job.version && (d in cur <==> d in p.o1 && !p.o1[d].isGhosted)
      ensures d in cur ==>
        cur[d].isRename && cur[d].isDeleted && cur[d].lastChange == job.version && cur[d].hash == cur[t.renames[d]].hash
    {
      EndsOfRename(job, cfg, d);
    }
    forall n | n in cur && cur[n].isRename && n !in t.renames && n !in t.renames.Values
      ensures cur[n].lastChange < job.version && n !in t.candidates
    {
      LeftFromMatched(job, cfg, n);
      Lifecycle.Remaining(job, cfg, n);
      MarkKeeps(job.Matched(cfg), n);
      AppliedEntry(Marked(job.Matched(cfg)), t.renames, n);
      OldMarks(job, cfg, n);
    }
  }

  lemma LeftFromMatched(job: Job, cfg: Config, n: string)
    requires n in job.WithoutGhosts(cfg)
    ensures n in job.Matched(cfg) && n in job.Renamed(cfg)
  {
    hide Job.Matched, Marked;
  }

  lemma KeptUnchanged(job: Job, cfg: Config)
    requires |Differences(job.old_, job.new_, cfg.minversion)| == 0 && !job.isCore && !job.includesChanged
    ensures job.Process(cfg) == Kept(job.Matched(cfg))
  {
    hide Job.Matched;
  }

  lemma FailsOnTypes(job: Job, cfg: Config)
    requires !job.Same(cfg) && !TypesOk(job.old_, job.new_, job.WithoutGhosts(cfg))
    ensures job.Process(cfg) == Failed
  {
    hide Job.WithoutGhosts, TypesOk, Job.Same;
  }

  lemma IsAcceptable(job: Job, cfg: Config)
    requires RenamesAllowed(job.old_, job.new_, Marked(job.Matched(cfg)), job.version, job.outcome.renames)
    requires TypesOk(job.old_, job.new_, job.WithoutGhosts(cfg))
    ensures job.Acceptable(cfg)
  {
  }

  lemma IsSame(job: Job, cfg: Config)
    requires |Differences(job.old_, job.new_, cfg.minversion)| == 0 && !job.includesChanged
    ensures job.Same(cfg)
  {
  }

  lemma NotSame(job: Job, cfg: Config)
    requires !job.isCore && (job.includesChanged || |Differences(job.old_, job.new_, cfg.minversion)| != 0)
    ensures !job.Same(cfg)
  {
  }

  /** Every mark in the table has another of the same release and hash, and of the other kind. */
  ghost predicate Paired(m: Entries) {
    forall n | n in m && m[n].isRename :: exists k :: k in m && Ends(m[n], m[k])
  }

  predicate Ends(a: Entry, b: Entry) {
    b.isRename && a.lastChange == b.lastChange && a.hash == b.hash && a.isDeleted != b.isDeleted
  }

  lemma PairedNames(oldm: Manifest, newm: Manifest, p: Pair, cur: Entries)
    requires Stage(oldm, newm, p, cur) && NoOrphans(newm.files)
    ensures Paired(cur)
  {
    hide Distinct, Names, Index, OldSide, PeerSide, Table;
    TableFacts(newm, cur, p.news);
    NewEntries(newm, p, cur);
    forall n | n in cur && cur[n].isRename
      ensures exists k :: k in cur && Ends(cur[n], cur[k])
    {
      var f := Index(newm.files)[n];
      assert f in newm.files && f.entry == cur[n];
      assert Ends(cur[n], cur[f.renamePeer.filename]);
    }
  }

  /** The cleaning, after which the marks come in pairs if no ghost was renamed. */
  method CleanBundle(oldm: Manifest, newm: Manifest, cfg: Config, ghost p: Pair, ghost t: Trace, ghost job: Job)
    returns (ghost linked: set<string>)
    requires job.old_ == p.o1 && job.new_ == p.o2 && job.outcome.renames == t.renames && job.version == newm.version
    requires Stage(oldm, newm, p, job.WithoutGhosts(cfg)) && Tracks(newm, t) && t.idx.Values <= p.news
    requires RenamesAllowed(p.o1, p.o2, Marked(job.Matched(cfg)), newm.version, t.renames)
    requires forall n | n in t.candidates :: RenamedTo(p.o1, p.o2, Marked(job.Matched(cfg)), newm.version, n)
    modifies p.news`entry, p.news`renamePeer
    ensures Stage(oldm, newm, p, Clean(job.WithoutGhosts(cfg), linked))
    ensures Fresh(p.o1, p.o2, job.version) ==> (NoOrphans(newm.files) <==> NoGhostRenamed(p.o1, t.renames))
    ensures Fresh(p.o1, p.o2, job.version) && NoGhostRenamed(p.o1, t.renames) ==>
      Paired(Clean(job.WithoutGhosts(cfg), linked))
  {
    hide Distinct, Names, Index, Contents, Stage, RenamesAllowed, HasPeer, Job.Matched, Job.WithoutGhosts, Clean,
      NoOrphans, Marked, Tracks, BothEnds, Paired, NoGhostRenamed, Fresh, RenamedTo;
    if Fresh(p.o1, p.o2, job.version) {
      EndsAreKept(job, cfg, p, t);
    }
    linked := CleanStep(oldm, newm, p, job.WithoutGhosts(cfg), t);
    if NoOrphans(newm.files) {
      PairedNames(oldm, newm, p, Clean(job.WithoutGhosts(cfg), linked));
    }
  }

  /** What the component's fate and table are, the value form says for the same job; and if it was not the same as
      before and no ghost was renamed, the marks of the table that was pruned come in pairs. */
  ghost predicate Finished(fate: Fate, newm: Manifest, job: Job, cfg: Config)
    reads newm`files, newm`count, newm.files`entry
  {
    && Agrees(fate, job.Process(cfg))
    && (!fate.Stopped? ==> newm.Valid() && Contents(newm.files) == job.Process(cfg).work)
    && (!fate.Stopped? && !job.Same(cfg) && Fresh(job.old_, job.new_, job.version)
        && NoGhostRenamed(job.old_, job.outcome.renames) ==>
          Paired(Clean(job.WithoutGhosts(cfg), job.outcome.linked)))
  }

  /** From the removals to the decision. If no ghost was renamed, the cleaned table's marks come in pairs. */
  method FinishBundle(oldm: Manifest, newm: Manifest, cfg: Config, oldDeleted: nat, oldGhosted: nat,
      includesChanged: bool,
                      ghost p: Pair, ghost r: Release.Renames, ghost t: Trace)
    returns (fate: Fate, ghost job: Job)
    requires var j := Start(p.o1, p.o2, includesChanged, oldm.format < newm.format, newm.version, r, {});
      && Stage(oldm, newm, p, j.WithoutGhosts(cfg)) && !j.Same(cfg)
      && RenamesAllowed(p.o1, p.o2, Marked(j.Matched(cfg)), newm.version, r)
      && oldDeleted == (if j.bump then |Deprecated(p.o1, j.Renamed(cfg), BothDeleted)| else 0)
      && oldGhosted == |Deprecated(p.o1, j.WithoutDeleted(cfg), BothGhosted)|
      && (forall n | n in t.candidates :: RenamedTo(p.o1, p.o2, Marked(j.Matched(cfg)), newm.version, n))
    requires Tracks(newm, t) && t.renames == r && t.idx.Values <= p.news
    modifies newm`files, newm`count, newm`version, p.news`entry, p.news`renamePeer
    ensures job ==
      Start(p.o1, p.o2, includesChanged, oldm.format < newm.format, old(newm.version), r, job.outcome.linked)
    ensures Finished(fate, newm, job, cfg)
    ensures newm.version == if fate.Stayed? then oldm.version else old(newm.version)
  {
    hide Distinct, Names, Index, Contents, Stage, RenamesAllowed, Deprecated, HasPeer, NewFiles, TypesOk, Job.Matched,
      Job.Renamed, Tracks, BothEnds, Paired, NoGhostRenamed, Fresh, RenamedTo, Job.WithoutDeleted, Job.WithoutGhosts,
      Job.Pruned, Job.Process, Job.Same, Job.Acceptable, Clean, Prune, NoOrphans, Sound, TypeHasChanged, Marked;
    ghost var version := newm.version;
    job := Start(p.o1, p.o2, includesChanged, oldm.format < newm.format, version, r, {});
    ghost var cur := job.WithoutGhosts(cfg);
    SortStage(oldm, newm, p, cur, t);
    TypesByName(oldm, newm, p, cur);
    var ok := TypeChangeDetection(newm);
    if !ok {
      FailsOnTypes(job, cfg);
      return Fate.Stopped, job;
    }
    ghost var linked := CleanBundle(oldm, newm, cfg, p, t, job);
    ghost var job0 := job;
    job := Start(p.o1, p.o2, includesChanged, oldm.format < newm.format, version, r, linked);
    SameButLinks(job0, job, cfg);
    Unfolded(job, cfg);
    IsAcceptable(job, cfg);
    var newfiles := PruneStage(oldm, newm, cfg, p, Clean(cur, linked));
    FateIs(job, cfg, newfiles, oldDeleted, oldGhosted);
    if newfiles > 0 || oldDeleted > 0 || oldGhosted > 0 || includesChanged {
      fate := Wrote;
    } else {
      newm.version := oldm.version;
      fate := Stayed;
    }
    PrunedTable(oldm, newm, p, job.Pruned(cfg));
  }

  lemma SameButLinks(a: Job, b: Job, cfg: Config)
    requires b == a.(outcome := Outcome(a.outcome.renames, b.outcome.linked))
    ensures a.Matched(cfg) == b.Matched(cfg) && a.Renamed(cfg) == b.Renamed(cfg)
    ensures a.WithoutDeleted(cfg) == b.WithoutDeleted(cfg)
    ensures a.WithoutGhosts(cfg) == b.WithoutGhosts(cfg) && a.Same(cfg) == b.Same(cfg)
  {
    hide Match, Marked, ApplyRenames, RemoveDeprecated, Differences;
  }

  lemma StageNames(oldm: Manifest, newm: Manifest, p: Pair, cur: Entries)
    requires Stage(oldm, newm, p, cur)
    ensures Distinct(Names(newm.files))
  {
  }

  lemma PrunedTable(oldm: Manifest, newm: Manifest, p: Pair, cur: Entries)
    requires Stage(oldm, newm, p, cur)
    ensures newm.Valid() && Contents(newm.files) == cur
  {
    hide Distinct, Names, Index, Contents, OldSide, PeerSide;
  }

  // ----- which files are renamed, in terms of the two lists -----

  /** A file that only the old list has, shipped or ghosted, and that is neither a directory nor a link. */
  predicate Vanished(o1: Entries, o2: Entries, d: string) {
    d in o1 && d !in o2 && !o1[d].isDeleted && !o1[d].isDir && !o1[d].isLink
  }

  /** A regular file that the old list does not ship. */
  predicate Appeared(o1: Entries, o2: Entries, n: string) {
    n in o2 && o2[n].isFile && (n in o1 ==> o1[n].isDeleted || o1[n].isGhosted)
  }

  lemma RenamedFromIs(job: Job, cfg: Config, n: string)
    requires Availability.JobOk(job)
    ensures RenamedFrom(job.old_, job.new_, Marked(job.Matched(cfg)), job.version, n) <==>
      Vanished(job.old_, job.new_, n)
  {
    hide Availability.JobOk, Job.Matched, Marked;
    if n in job.new_ {
      Lifecycle.ShippedMatch(job, cfg, n);
      MarkKeeps(job.Matched(cfg), n);
    } else if n in job.old_ {
      Lifecycle.DeadMatch(job, cfg, n);
      Lifecycle.OldIsOld(job, n);
      MarkKeeps(job.Matched(cfg), n);
    } else if n in job.Matched(cfg) {
      MatchedHas(job, cfg, n);
    }
  }

  lemma MatchedHas(job: Job, cfg: Config, n: string)
    ensures n in job.Matched(cfg) <==> n in job.old_ || n in job.new_
  {
  }

  lemma RenamedToIs(job: Job, cfg: Config, n: string)
    requires Availability.JobOk(job)
    ensures RenamedTo(job.old_, job.new_, Marked(job.Matched(cfg)), job.version, n) <==> Appeared(job.old_, job.new_, n)
  {
    hide ConfigPath, StatePath, BootPath, ZERO_HASH;
  }

  /** The renames of a bundle: each is of a vanished file to one that appeared, has 15 points or more, and is in no
      other's way; and of any two such files with as many points one is in a rename with at least as many. */
  ghost predicate BestRenames(o1: Entries, o2: Entries, r: Release.Renames, b1: map<string, File>,
      b2: map<string, File>, traits: map<File, Traits>)
  {
    && (forall d | d in r ::
         Vanished(o1, o2, d) && Appeared(o1, o2, r[d]) && ScoreByName(b1, b2, traits, d, r[d]) >= 15)
    && (forall c, d | c in r && d in r && c != d :: r[c] != r[d])
    && (forall d, n | Vanished(o1, o2, d) && Appeared(o1, o2, n) :: ScoreByName(b1, b2, traits, d, n) >= 15 ==>
          Outdone(r, b1, b2, traits, d, n))
  }

  lemma SameScores(b1: map<string, File>, b2: map<string, File>, idx: map<string, File>, traits: map<File, Traits>,
      d: string, n: string)
    requires n in b2 && n in idx && idx[n] == b2[n]
    ensures ScoreByName(b1, b2, traits, d, n) == ScoreByName(b1, idx, traits, d, n)
  {
    hide RenameScore;
  }

  lemma OutdoneBoth(r: Release.Renames, b1: map<string, File>, b2: map<string, File>, idx: map<string, File>,
      traits: map<File, Traits>, d: string, n: string)
    requires n in b2 && (forall k | k in b2 :: k in idx && idx[k] == b2[k]) && (d in r ==> r[d] in b2)
    requires Outdone(r, b1, idx, traits, d, n)
    ensures Outdone(r, b1, b2, traits, d, n)
  {
    hide ScoreByName;
    SameScores(b1, b2, idx, traits, d, n);
    if d in r {
      SameScores(b1, b2, idx, traits, d, r[d]);
    }
    if c: string :| c in r && r[c] == n && ScoreByName(b1, idx, traits, c, n) >= ScoreByName(b1, idx, traits, d, n) {
      SameScores(b1, b2, idx, traits, c, n);
    }
  }

  lemma RenamesAreBest(job: Job, cfg: Config, b1: map<string, File>, b2: map<string, File>, idx: map<string, File>,
      traits: map<File, Traits>)
    requires Availability.JobOk(job) && b2.Keys == job.new_.Keys && forall k | k in b2 :: k in idx && idx[k] == b2[k]
    requires RenamesAllowed(job.old_, job.new_, Marked(job.Matched(cfg)), job.version, job.outcome.renames)
    requires BestMatched(job.old_, job.new_, Marked(job.Matched(cfg)), job.version, job.outcome.renames, b1, idx,
        traits)
    ensures BestRenames(job.old_, job.new_, job.outcome.renames, b1, b2, traits)
  {
    hide Availability.JobOk, Job.Matched, RenamedFrom, RenamedTo, ScoreByName, Outdone, Marked;
    var o1, o2, r := job.old_, job.new_, job.outcome.renames;
    forall d | d in r
      ensures Vanished(o1, o2, d) && Appeared(o1, o2, r[d]) && ScoreByName(b1, b2, traits, d, r[d]) >= 15
    {
      RenamedFromIs(job, cfg, d);
      RenamedToIs(job, cfg, r[d]);
      SameScores(b1, b2, idx, traits, d, r[d]);
    }
    forall d, n | Vanished(o1, o2, d) && Appeared(o1, o2, n) && ScoreByName(b1, b2, traits, d, n) >= 15
      ensures Outdone(r, b1, b2, traits, d, n)
    {
      RenamedFromIs(job, cfg, d);
      RenamedToIs(job, cfg, n);
      SameScores(b1, b2, idx, traits, d, n);
      OutdoneBoth(r, b1, b2, idx, traits, d, n);
    }
  }

  /** A regular file that moved as it was, worth a delta, takes part in a rename of at least its score. */
  lemma MovedFileIsRenamed(o1: Entries, o2: Entries, r: Release.Renames, b1: map<string, File>, b2: map<string, File>,
      traits: map<File, Traits>, d: string, n: string)
    requires BestRenames(o1, o2, r, b1, b2, traits) && Vanished(o1, o2, d) && Appeared(o1, o2, n)
    requires d in b1 && n in b2 && b1[d] in traits && b2[n] in traits
    requires var t, u := traits[b1[d]], traits[b2[n]]; t.hash == u.hash && t.size == u.size >= 200
    ensures Outdone(r, b1, b2, traits, d, n) && (d in r || n in r.Values)
  {
    hide RenameScore;
    MovedFileQualifies(traits[b1[d]], traits[b2[n]]);
    assert ScoreByName(b1, b2, traits, d, n) >= 15;
  }

  /** The way of a component that differs from its old one. */
  method ProcessChanged(oldm: Manifest, newm: Manifest, cfg: Config, includesChanged: bool, traits: map<File, Traits>,
      ghost p: Pair, ghost b2: map<string, File>)
    returns (fate: Fate, ghost job: Job)
    requires Stage(oldm, newm, p, Match(p.o1, p.o2, newm.version, cfg.minversion)) && AllNull(newm.files)
    requires Described(p.b1, p.o1, b2, p.o2, traits) && b2.Keys == p.o2.Keys && Distinct(Names(newm.files))
    requires forall n | n in b2 :: n in Index(newm.files) && Index(newm.files)[n] == b2[n]
    requires includesChanged || |Differences(p.o1, p.o2, cfg.minversion)| != 0
    modifies oldm`files, newm`files, newm`count, newm`version, p.news`entry, p.news`renamePeer, p.news`renameScore
    ensures job == Start(p.o1, p.o2, includesChanged, oldm.format < newm.format, old(newm.version), job.outcome.renames,
                         job.outcome.linked)
    ensures Finished(fate, newm, job, cfg)
    ensures Availability.JobOk(job) ==> BestRenames(p.o1, p.o2, job.outcome.renames, p.b1, b2, traits)
    ensures newm.version == if fate.Stayed? then oldm.version else old(newm.version)
  {
    hide Distinct, Names, Index, Contents, Stage, RenamesAllowed, Deprecated, HasPeer, Job.Matched, Job.Renamed,
      Job.WithoutDeleted, Tracks, BestMatched, BestRenames, Availability.JobOk, RenamedTo, Job.WithoutGhosts, Job.Same,
      AllNull, Described, Match, Marked, Differences, RemoveDeprecated, ApplyRenames, Job.Pruned, Job.Process, Finished;
    var oldDeleted, oldGhosted;
    ghost var r, renamed, without, t;
    oldDeleted, oldGhosted, r, renamed, without, t := RewriteRecords(oldm, newm, cfg.minversion, traits, p, b2);
    ghost var j := Start(p.o1, p.o2, includesChanged, oldm.format < newm.format, newm.version, r, {});
    Unfolded(j, cfg);
    NotSame(j, cfg);
    fate, job := FinishBundle(oldm, newm, cfg, oldDeleted, oldGhosted, includesChanged, p, r, t);
    SameButLinks(j, job, cfg);
    Unfolded(job, cfg);
    if Availability.JobOk(job) {
      RenamesAreBest(job, cfg, p.b1, b2, t.idx, traits);
    }
  }

  lemma StaysFinished(newm: Manifest, job: Job, cfg: Config)
    requires job.Same(cfg) && job.Process(cfg).Kept? && newm.Valid() && Contents(newm.files) == job.Process(cfg).work
    ensures Finished(Stayed, newm, job, cfg)
  {
    hide Job.Same, Job.Process, Distinct, Names, Contents;
  }

  /** Step 6 for one bundle, once its includes are subtracted: whether the run stops, the bundle stays at its old
      version or a new manifest is written, and the table it then has, are what the value form says, for the
      renames and the final links that were found. */
  method ProcessBundle(oldm: Manifest, newm: Manifest, cfg: Config, includesChanged: bool, traits: map<File, Traits>)
    returns (fate: Fate, ghost job: Job)
    requires oldm != newm && oldm.Valid() && newm.Valid() && Disjoint(oldm.files, newm.files)
    requires Unlinked(newm.files) && AllNull(newm.files)
    requires Described(Index(oldm.files), Contents(oldm.files), Index(newm.files), Contents(newm.files), traits)
    modifies oldm`files, newm`files, newm`count, newm`version, Index(oldm.files).Values`peer, Index(newm.files).Values
    ensures job == Start(old(Contents(oldm.files)), old(Contents(newm.files)), includesChanged,
                         oldm.format < newm.format, old(newm.version), job.outcome.renames, job.outcome.linked)
    ensures Finished(fate, newm, job, cfg)
    ensures Availability.JobOk(job) && !job.Same(cfg) ==>
      BestRenames(job.old_, job.new_, job.outcome.renames, old(Index(oldm.files)), old(Index(newm.files)), traits)
    ensures newm.version == if fate.Stayed? then oldm.version else old(newm.version)
  {
    hide Distinct, Names, Index, Contents, Stage, RenamesAllowed, Deprecated, HasPeer, Job.Matched, Job.Renamed,
      Job.WithoutDeleted, BestRenames, Availability.JobOk, Fresh, NoGhostRenamed, Paired, Clean, Tracks, RenamedTo,
      Job.WithoutGhosts, Job.Process, Job.Same, AllNull, Unlinked, Disjoint, Described, Match, Marked, Differences,
      RemoveDeprecated, ApplyRenames, Job.Pruned, Job.Acceptable, Job.WorthWriting, TypesOk, Prune, NewFiles, Finished;
    ghost var b2 := Index(newm.files);
    var count, p := MatchStep(oldm, newm, cfg.minversion);
    job := Start(p.o1, p.o2, includesChanged, oldm.format < newm.format, newm.version, map[], {});
    Unfolded(job, cfg);
    if count == 0 && !includesChanged {
      KeptUnchanged(job, cfg);
      IsSame(job, cfg);
      newm.version := oldm.version;
      PrunedTable(oldm, newm, p, job.Matched(cfg));
      StaysFinished(newm, job, cfg);
      return Stayed, job;
    }
    StageNames(oldm, newm, p, job.Matched(cfg));
    fate, job := ProcessChanged(oldm, newm, cfg, includesChanged, traits, p, b2);
  }
}
