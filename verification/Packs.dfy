/** Which files of a bundle a pack delivers (src/pack.c, `link_renames` in src/rename.c): two passes with
    different conditions, that together take every changed file once. */
module Packs {
  import opened Sorting
  import opened Strings
  import opened Files
  import opened Heuristics
  import opened Matching
  import opened Release
  import opened Availability
  import opened Consistency
  import opened Pruning
  import opened Renames
  import opened Links
  import opened ManifestText

  // ----- the two passes -----

  /** `make_pack_full_files`: shipped files that have nothing older to start from. */
  predicate InFullPass(f: File)
    reads f, f.peer
  {
    && (f.peer == null || f.peer.entry.isDeleted || f.peer.entry.isGhosted)
    && !f.entry.isDeleted && !f.entry.isGhosted && f.renamePeer == null
  }

  /** `make_final_pack` and `consolidate_packs_delta_files`: what is not skipped. */
  predicate InFinalPass(f: File, from: int)
    reads f
  {
    f.entry.lastChange > from && f.peer != null && (f.entry.isFile || f.entry.isDir || f.entry.isLink)
  }

  // ----- two manifests of one history -----

  /** The two manifests of a pack, as they are read: both were written, and belong to one history. */
  ghost predicate OneHistory(older: Entries, newer: Entries, from: int) {
    && (forall n | n in older :: WrittenOk(n, older[n]) && older[n].lastChange <= from)
    && (forall n | n in newer :: WrittenOk(n, newer[n]))
    && AllPositive(older) && ConsistentSince(older, newer, from)
  }

  /** The manifest of bundle `g` in release `v`; version 0 stands for the empty one. */
  ghost function At(s: State, g: string, v: int): Entries {
    if v != 0 && (g, v) in s.archive then s.archive[(g, v)].entries else map[]
  }

  lemma PairOfRun(cfg: Config, inputs: seq<Input>, g: string, v: int, w: int)
    requires (g, w) in Run(cfg, inputs).archive && v < w && (v == 0 || (g, v) in Run(cfg, inputs).archive)
    ensures var s := Run(cfg, inputs); OneHistory(At(s, g, v), At(s, g, w), v)
  {
    hide Run, WrittenOk, AllPositive, ConsistentSince;
    RunOk(cfg, inputs);
    RunPositive(cfg, inputs);
    var s := Run(cfg, inputs);
    assert AllPositive(s.archive[(g, w)].entries);
    if v == 0 {
      NothingInherited(s.archive[(g, w)].entries);
    } else {
      ManifestsAreConsistent(cfg, inputs, g, v, w);
      assert AllPositive(s.archive[(g, v)].entries);
    }
  }

  /** Every two manifests that a bundle ever had, and any manifest with the empty one that stands for version 0. */
  ghost predicate AllOneHistory(s: State) {
    forall g, v, w | (g, w) in s.archive && v < w && (v == 0 || (g, v) in s.archive) ::
      OneHistory(At(s, g, v), At(s, g, w), v)
  }

  /** Whatever two releases a pack leads from and to, its manifests are of one history. */
  lemma {:induction false} RunsMakeOneHistory(cfg: Config, inputs: seq<Input>)
    ensures AllOneHistory(Run(cfg, inputs))
  {
    hide Run, OneHistory, At;
    var s := Run(cfg, inputs);
    forall g, v, w | (g, w) in s.archive && v < w && (v == 0 || (g, v) in s.archive)
      ensures OneHistory(At(s, g, v), At(s, g, w), v)
    {
      PairOfRun(cfg, inputs, g, v, w);
    }
  }

  lemma NothingInherited(newer: Entries)
    requires AllPositive(newer)
    ensures ConsistentSince(map[], newer, 0) && AllPositive(map[])
  {
  }

  /** The older manifest ships the name just as the newer one does. */
  predicate ShippedAlike(older: Entries, newer: Entries, n: string) {
    n in older && n in newer && older[n].Live() && SameFileContents(older[n], newer[n])
  }

  /** What matching makes of a shipped name. */
  lemma MatchedForPack(older: Entries, newer: Entries, from: int, to: int, n: string)
    requires OneHistory(older, newer, from) && n in newer && newer[n].Live()
    ensures var e := Match(older, newer, to, 0)[n];
      && e.Live() && e.Typed()
      && (e.lastChange <= from <==> ShippedAlike(older, newer, n))
    ensures ShippedAlike(older, newer, n) ==> HasPeer(older, newer, n)
    ensures HasPeer(older, newer, n) <==> n in older && older[n].Live()
  {
    hide FlagsOk, ZERO_HASH;
    if newer[n].lastChange <= from {
      assert Inherited(older, n, newer[n]);
    }
  }

  lemma DeadForPack(older: Entries, newer: Entries, from: int, to: int, n: string)
    requires OneHistory(older, newer, from) && n in Match(older, newer, to, 0) && !(n in newer && newer[n].Live())
    ensures var e := Match(older, newer, to, 0)[n]; !e.Live() && e.Untyped()
  {
    hide FlagsOk, ZERO_HASH;
  }

  // ----- link_renames -----

  /** Nothing was linked yet: the peers are those of the matching. */
  ghost predicate Untouched(f: File, peers: map<File, File?>)
    reads f`peer, f`renamePeer
  {
    f in peers && f.peer == peers[f] && f.renamePeer == null
  }

  /** `g` is a renamed-from record of release `to` with the hash of `f`. */
  ghost predicate Source(g: File, f: File, to: int, peers: map<File, File?>)
    reads g`entry, f`entry
  {
    g in peers && peers[g] != null && g.entry.isDeleted && g.entry.lastChange == to && g.entry.hash == f.entry.hash
  }

  /** Of all sources this one has the smallest name; they are all of one release, so it comes first in the order
      by version. */
  ghost predicate FirstSource(g: File, f: File, fs: set<File>, to: int, peers: map<File, File?>)
    reads g`entry, f`entry, fs`entry
  {
    Source(g, f, to, peers) && forall h | h in fs && Source(h, f, to, peers) :: StringLe(g.filename, h.filename)
  }

  /** A renamed-to record without a peer takes the peer of its first source, if there is one. */
  ghost predicate Settled(f: File, fs: set<File>, to: int, peers: map<File, File?>)
    requires f in peers
    reads f, fs`entry
  {
    if peers[f] != null || f.entry.isDeleted || (forall g | g in fs ::
      !Source(g, f, to, peers)) then Untouched(f, peers)
    else exists g | g in fs && FirstSource(g, f, fs, to, peers) :: f.peer == f.renamePeer == peers[g]
  }

  /** The renamed records, their old peers, and the old records, which are not among them. */
  ghost predicate Field(fs: set<File>, olds: set<File>, peers: map<File, File?>) {
    && fs <= peers.Keys && fs !! olds
    && (forall f | f in fs && peers[f] != null :: peers[f] in olds)
  }

  lemma EarliestSource(targets: seq<File>, fs: set<File>, f: File, k: nat, to: int, peers: map<File, File?>)
    requires IsList(targets, fs) && SortedByVersion(targets) && k < |targets| && Source(targets[k], f, to, peers)
    requires forall j | 0 <= j < k :: !Source(targets[j], f, to, peers)
    ensures FirstSource(targets[k], f, fs, to, peers)
  {
    hide IsList;
    forall h | h in fs && Source(h, f, to, peers)
      ensures StringLe(targets[k].filename, h.filename)
    {
      ListHas(targets, fs, h);
      var j :| 0 <= j < |targets| && targets[j] == h;
      assert k <= j;
    }
  }

  /** The inner loop: the first source wins. */
  method LinkRename1(file1: File, targets: seq<File>, to: int, ghost fs: set<File>, ghost olds: set<File>,
      ghost peers: map<File, File?>)
    requires Field(fs, olds, peers) && IsList(targets, fs) && SortedByVersion(targets) && file1 in fs
    requires Untouched(file1, peers)
    requires forall g | g in fs && g.entry.isDeleted :: Untouched(g, peers)
    modifies file1`peer, file1`renamePeer, olds`renamePeer
    ensures Settled(file1, fs, to, peers)
    ensures file1.entry.isDeleted ==> Untouched(file1, peers)
  {
    hide IsList;
    if file1.peer != null || file1.entry.isDeleted {
      return;
    }
    ListMembers(targets, fs);
    for k := 0 to |targets|
      invariant Untouched(file1, peers)
      invariant forall j | 0 <= j < k :: !Source(targets[j], file1, to, peers)
    {
      var file2 := targets[k];
      if file2.peer == null || !file2.entry.isDeleted || file2.entry.lastChange != to {
        continue;
      }
      if file2.entry.hash == file1.entry.hash {
        EarliestSource(targets, fs, file1, k, to, peers);
        file1.renamePeer := file2.peer;
        file1.peer := file2.peer;
        file2.peer.renamePeer := file1;
        return;
      }
    }
    forall g | g in fs
      ensures !Source(g, file1, to, peers)
    {
      ListHas(targets, fs, g);
    }
  }

  /** The records in `done` have been looked at. */
  ghost predicate Halfway(fs: set<File>, done: set<File>, to: int, peers: map<File, File?>)
    requires fs <= peers.Keys
    reads fs
  {
    && (forall f | f in fs && f !in done :: Untouched(f, peers))
    && (forall f | f in fs && f in done :: Settled(f, fs, to, peers))
    && (forall f | f in fs && f.entry.isDeleted :: Untouched(f, peers))
  }

  method LinkNext(file1: File, targets: seq<File>, to: int, ghost fs: set<File>, ghost olds: set<File>,
      ghost peers: map<File, File?>, ghost done: set<File>)
    requires Field(fs, olds, peers) && IsList(targets, fs) && SortedByVersion(targets) && file1 in fs - done
    requires Halfway(fs, done, to, peers)
    modifies fs`peer, fs`renamePeer, olds`renamePeer
    ensures Halfway(fs, done + {file1}, to, peers)
  {
    hide IsList, SortedByVersion, Settled, Untouched;
    LinkRename1(file1, targets, to, fs, olds, peers);
  }

  /** `link_renames`. */
  method LinkRenames(newfiles: seq<File>, to: int, ghost olds: set<File>, ghost peers: map<File, File?>)
    requires Distinct(Names(newfiles)) && Field(Renamed(newfiles), olds, peers)
    requires forall f | f in Renamed(newfiles) :: Untouched(f, peers)
    modifies Renamed(newfiles)`peer, Renamed(newfiles)`renamePeer, olds`renamePeer
    ensures forall f | f in Renamed(newfiles) :: Settled(f, Renamed(newfiles), to, peers)
  {
    hide Distinct, Names, IsList, Filter.Of, Passing, ByVersion, Settled, Untouched, SortedByVersion, Halfway,
      Renamed;
    ghost var fs := Renamed(newfiles);
    RenamedFilter(newfiles);
    var targets := NewFilteredList(newfiles, 0, RenamedFile);
    ByVersionList(targets, fs);
    ByVersionSorts(targets);
    targets := ByVersion(targets);
    ListMembers(targets, fs);
    ghost var done: set<File> := {};
    HalfwayStarts(fs, to, peers);
    for i := 0 to |targets|
      invariant Halfway(fs, done, to, peers) && SortedByVersion(targets)
      invariant forall f | f in fs :: f in done <==> f in targets[..i]
    {
      ScoreNext(targets, fs, i);
      assert targets[..i + 1] == targets[..i] + [targets[i]];
      LinkNext(targets[i], targets, to, fs, olds, peers, done);
      done := done + {targets[i]};
    }
    assert targets[..|targets|] == targets;
    forall f | f in fs
      ensures f in done
    {
      ListHas(targets, fs, f);
    }
    HalfwayEnds(fs, done, to, peers);
  }

  lemma HalfwayStarts(fs: set<File>, to: int, peers: map<File, File?>)
    requires fs <= peers.Keys && forall f | f in fs :: Untouched(f, peers)
    ensures Halfway(fs, {}, to, peers)
  {
  }

  lemma HalfwayEnds(fs: set<File>, done: set<File>, to: int, peers: map<File, File?>)
    requires fs <= peers.Keys && fs <= done && Halfway(fs, done, to, peers)
    ensures forall f | f in fs :: Settled(f, fs, to, peers)
  {
    hide Settled, Untouched;
  }

  // ----- both passes together -----

  /** The record has the peer the matching gave it, or the old record it was renamed from. */
  ghost predicate PeerOrSource(f: File, p: File?)
    reads f`peer, f`renamePeer
  {
    (f.peer == p && f.renamePeer == null) || (p == null && f.peer != null && f.renamePeer != null)
  }

  /** A shipped file is in exactly one pass if it is new or changed, and in none if it is not. */
  lemma CoverName(older: Entries, newer: Entries, from: int, to: int, n: string, f: File, p: File?)
    requires OneHistory(older, newer, from) && n in newer && newer[n].Live() && f.entry == Match(older, newer, to, 0)[n]
    requires p != null <==> HasPeer(older, newer, n)
    requires p != null ==> p.entry == older[n]
    requires PeerOrSource(f, p)
    ensures !(InFullPass(f) && InFinalPass(f, from))
    ensures InFullPass(f) || InFinalPass(f, from) <==> !ShippedAlike(older, newer, n)
  {
    hide OneHistory, Match, SameFileContents;
    MatchedForPack(older, newer, from, to, n);
  }

  /** Every shipped file is taken exactly once if the older manifest does not ship it just the same, and
      never if it does; nothing else is taken. */
  ghost predicate Covered(end: Manifest, older: Entries, newer: Entries, from: int)
    reads end`files, end.files, set f | f in end.files :: f.peer
  {
    && Distinct(Names(end.files)) && newer.Keys <= Index(end.files).Keys
    && forall n | n in Index(end.files) ::
        var f := Index(end.files)[n];
        && !(InFullPass(f) && InFinalPass(f, from))
        && (InFullPass(f) || InFinalPass(f, from) <==> n in newer && newer[n].Live() && !ShippedAlike(older, newer, n))
  }

  lemma DeadIsSkipped(older: Entries, newer: Entries, from: int, to: int, n: string, f: File)
    requires OneHistory(older, newer, from) && n in Match(older, newer, to, 0) && !(n in newer && newer[n].Live())
    requires f.entry == Match(older, newer, to, 0)[n]
    ensures !InFullPass(f) && !InFinalPass(f, from)
  {
    hide OneHistory, Match;
    DeadForPack(older, newer, from, to, n);
  }

  /** The peers that the matching gave. */
  ghost predicate PeersByName(older: Manifest, end: Manifest, o1: Entries, o2: Entries, peers: map<File, File?>)
    reads older`files, end`files, end`version, older.files`entry, end.files`entry
  {
    && Distinct(Names(older.files)) && Distinct(Names(end.files))
    && Contents(older.files) == o1 && Contents(end.files) == Match(o1, o2, end.version, 0)
    && forall n | n in Index(end.files) ::
        var f := Index(end.files)[n];
        && f in peers
        && peers[f] == if HasPeer(o1, o2, n) && n in Index(older.files) then Index(older.files)[n] else null
  }

  /** Every record keeps its peer or has got one from a source. */
  ghost predicate AllEither(files: seq<File>, peers: map<File, File?>)
    reads files`peer, files`renamePeer
  {
    forall f | f in files :: f in peers && PeerOrSource(f, peers[f])
  }

  lemma AllCovered(older: Manifest, end: Manifest, o1: Entries, o2: Entries, peers: map<File, File?>, from: int)
    requires PeersByName(older, end, o1, o2, peers) && AllEither(end.files, peers) && OneHistory(o1, o2, from)
    ensures Covered(end, o1, o2, from)
  {
    hide Distinct, Names, Index, OneHistory, Match, InFullPass, InFinalPass, ShippedAlike, PeerOrSource;
    forall n | n in Index(end.files)
      ensures var f := Index(end.files)[n];
        && !(InFullPass(f) && InFinalPass(f, from))
        && (InFullPass(f) || InFinalPass(f, from) <==> n in o2 && o2[n].Live() && !ShippedAlike(o1, o2, n))
    {
      var f := Index(end.files)[n];
      assert f.entry == Match(o1, o2, end.version, 0)[n];
      if n in o2 && o2[n].Live() {
        CoverName(o1, o2, from, end.version, n, f, peers[f]);
      } else {
        DeadIsSkipped(o1, o2, from, end.version, n, f);
      }
    }
  }

  lemma MatchedField(older: Manifest, end: Manifest, o1: Entries, o2: Entries, peers: map<File, File?>)
    requires MatchedPair(older, end, o1, o2, 0) && peers == map f | f in end.files :: f.peer
    ensures Field(Renamed(end.files), Index(older.files).Values, peers)
    ensures forall f | f in end.files :: f !in Index(older.files).Values && Untouched(f, peers)
    ensures PeersByName(older, end, o1, o2, peers)
  {
    hide Distinct, Names, Index, Match, HasPeer;
    forall f | f in end.files
      ensures f !in Index(older.files).Values && (f.peer == null || f.peer in Index(older.files).Values)
    {
      RecordOf(end.files, f);
    }
    forall n | n in Index(end.files)
      ensures Index(end.files)[n] in end.files
    {
    }
  }

  lemma SettledEither(fs: set<File>, to: int, peers: map<File, File?>)
    requires fs <= peers.Keys && forall f | f in fs :: Settled(f, fs, to, peers)
    ensures forall f | f in fs :: PeerOrSource(f, peers[f])
  {
  }

  /** Every record keeps its peer or gets one from a source. */
  method LinkAll(files: seq<File>, to: int, ghost olds: set<File>, ghost peers: map<File, File?>)
    requires Distinct(Names(files)) && Field(Renamed(files), olds, peers)
    requires forall f | f in files :: f !in olds && Untouched(f, peers)
    modifies Renamed(files)`peer, Renamed(files)`renamePeer, olds`renamePeer
    ensures AllEither(files, peers)
  {
    hide Distinct, Names, Field, Settled;
    ghost var fs := Renamed(files);
    assert fs <= peers.Keys;
    LinkRenames(files, to, olds, peers);
    assert Renamed(files) == fs;
    SettledEither(fs, to, peers);
  }

  /** Linking touches only the renamed records and the old ones. */
  method LinkForPack(older: Manifest, end: Manifest, ghost o1: Entries,
      ghost o2: Entries) returns (ghost peers: map<File, File?>)
    requires MatchedPair(older, end, o1, o2, 0)
    modifies Renamed(end.files)`peer, Renamed(end.files)`renamePeer, Index(older.files).Values`renamePeer
    ensures PeersByName(older, end, o1, o2, peers) && AllEither(end.files, peers)
  {
    hide Distinct, Names, Index, Match, HasPeer, Field, MatchedPair, Contents, Untouched, AllEither, PeersByName;
    peers := map f | f in end.files :: f.peer;
    MatchedField(older, end, o1, o2, peers);
    MatchedNames(older, end, o1, o2);
    LinkAll(end.files, end.version, Index(older.files).Values, peers);
  }

  lemma MatchedNames(older: Manifest, end: Manifest, o1: Entries, o2: Entries)
    requires MatchedPair(older, end, o1, o2, 0)
    ensures Distinct(Names(older.files)) && Distinct(Names(end.files))
  {
  }

  /** `prepare_pack` on the two manifests as they are read: nothing is packed when the older one is missing;
      otherwise the two passes over the newer one cover every changed file once. */
  method PreparePack(older: Manifest, end: Manifest, ghost from: int) returns (ready: bool)
    requires older != end && older.Valid() && end.Valid() && Disjoint(older.files, end.files)
    requires Unlinked(end.files) && AllNull(end.files)
    requires OneHistory(Contents(older.files), Contents(end.files), from)
    modifies older`files, end`files, end`count
    modifies Index(older.files).Values`peer, Index(older.files).Values`renamePeer
    modifies Index(end.files).Values`peer, Index(end.files).Values`renamePeer, Index(end.files).Values`entry
    ensures ready <==> old(older.count) != 0 || older.version <= 0
    ensures ready ==> Covered(end, old(Contents(older.files)), old(Contents(end.files)), from)
    ensures ready ==> Holds(end, Match(old(Contents(older.files)), old(Contents(end.files)), end.version, 0))
  {
    hide Distinct, Names, Index, Contents, Disjoint, Unlinked, AllNull, OneHistory, Covered, MatchedPair, PeersByName,
      AllEither, Match;
    if older.count == 0 && older.version > 0 {
      return false;
    }
    ghost var o1, o2 := Contents(older.files), Contents(end.files);
    ghost var b2 := Index(end.files);
    var count := MatchRecords(older, end, 0);
    MatchedNames(older, end, o1, o2);
    RenamedByName(end.files);
    ghost var peers := LinkForPack(older, end, o1, o2);
    AllCovered(older, end, o1, o2, peers, from);
    HoldsMatch(older, end, o1, o2, peers);
    ready := true;
  }

  ghost predicate Holds(m: Manifest, table: Entries)
    reads m`files, m.files`entry
  {
    Distinct(Names(m.files)) && Contents(m.files) == table
  }

  lemma HoldsMatch(older: Manifest, end: Manifest, o1: Entries, o2: Entries, peers: map<File, File?>)
    requires PeersByName(older, end, o1, o2, peers)
    ensures Holds(end, Match(o1, o2, end.version, 0))
  {
    hide Distinct, Names, Match;
  }

  lemma RenamedByName(files: seq<File>)
    requires Distinct(Names(files))
    ensures forall f | f in Renamed(files) :: f.filename in Index(files) && Index(files)[f.filename] == f
  {
    hide Distinct, Names, Index;
    forall f | f in Renamed(files)
      ensures f.filename in Index(files) && Index(files)[f.filename] == f
    {
      RecordOf(files, f);
    }
  }

  // ----- the loops of the passes -----

  ghost function FullPass(files: seq<File>): set<File>
    reads files, set f | f in files :: f.peer
  {
    set f | f in files && InFullPass(f)
  }

  ghost function FinalPass(files: seq<File>, from: int): set<File>
    reads files
  {
    set f | f in files && InFinalPass(f, from)
  }

  lemma PassStep(files: seq<File>, from: int, k: nat)
    requires Distinct(Names(files)) && k < |files|
    ensures files[k] !in files[..k]
    ensures FullPass(files[..k + 1]) == FullPass(files[..k]) + if InFullPass(files[k]) then {files[k]} else {}
    ensures FinalPass(files[..k + 1], from) ==
      FinalPass(files[..k], from) + if InFinalPass(files[k], from) then {files[k]} else {}
  {
    hide InFullPass, InFinalPass;
    forall i | 0 <= i < k
      ensures files[i] != files[k]
    {
      assert Names(files)[i] != Names(files)[k];
    }
    assert files[..k + 1] == files[..k] + [files[k]];
  }

  lemma PassStart(files: seq<File>, from: int)
    ensures FullPass(files[..0]) == {} && FinalPass(files[..0], from) == {} && IsList([], {})
    ensures files[..|files|] == files
  {
  }

  /** `make_pack_full_files`: the files it stages. */
  method MakePackFullFiles(end: Manifest) returns (staged: seq<File>)
    requires Distinct(Names(end.files))
    ensures IsList(staged, FullPass(end.files))
    ensures forall f :: f in staged <==>
      && f in end.files && (f.peer == null || f.peer.entry.isDeleted || f.peer.entry.isGhosted)
      && !f.entry.isDeleted && !f.entry.isGhosted && f.renamePeer == null
  {
    hide Distinct, Names, InFullPass, FullPass, IsList;
    staged := [];
    PassStart(end.files, 0);
    for k := 0 to |end.files|
      invariant IsList(staged, FullPass(end.files[..k]))
    {
      var file := end.files[k];
      PassStep(end.files, 0, k);
      if InFullPass(file) {
        NotTaken(end.files[..k], 0, file);
        ListAdds(staged, FullPass(end.files[..k]), file);
        assert FullPass(end.files[..k + 1]) == FullPass(end.files[..k]) + {file};
        staged := [file] + staged;
      } else {
        assert FullPass(end.files[..k + 1]) == FullPass(end.files[..k]);
      }
    }
    assert end.files[..|end.files|] == end.files;
    FullPassIs(end.files, staged);
  }

  lemma FullPassIs(files: seq<File>, staged: seq<File>)
    requires IsList(staged, FullPass(files))
    ensures forall f :: f in staged <==>
      && f in files && (f.peer == null || f.peer.entry.isDeleted || f.peer.entry.isGhosted)
      && !f.entry.isDeleted && !f.entry.isGhosted && f.renamePeer == null
  {
    ListIsSet(staged, FullPass(files));
  }

  lemma ListIsSet(l: seq<File>, s: set<File>)
    requires IsList(l, s)
    ensures forall f :: f in l <==> f in s
  {
    forall f
      ensures f in l <==> f in s
    {
      assert f in multiset(l) <==> f in multiset(s);
    }
  }

  lemma FinalPassIs(files: seq<File>, from: int, staged: seq<File>)
    requires IsList(staged, FinalPass(files, from))
    ensures forall f :: f in staged <==>
      && f in files && f.entry.lastChange > from && f.peer != null
      && (f.entry.isFile || f.entry.isDir || f.entry.isLink)
  {
    ListIsSet(staged, FinalPass(files, from));
  }

  lemma NotTaken(files: seq<File>, from: int, f: File)
    requires f !in files
    ensures f !in FullPass(files) && f !in FinalPass(files, from)
  {
  }

  /** `make_final_pack`: the files for which it stages a delta or the whole file. */
  method MakeFinalPack(end: Manifest, from: int) returns (staged: seq<File>)
    requires Distinct(Names(end.files))
    ensures IsList(staged, FinalPass(end.files, from))
    ensures forall f :: f in staged <==>
      && f in end.files && f.entry.lastChange > from && f.peer != null
      && (f.entry.isFile || f.entry.isDir || f.entry.isLink)
  {
    hide Distinct, Names, InFinalPass, FinalPass, IsList;
    staged := [];
    PassStart(end.files, from);
    for k := 0 to |end.files|
      invariant IsList(staged, FinalPass(end.files[..k], from))
    {
      var file := end.files[k];
      PassStep(end.files, from, k);
      if file.entry.lastChange <= from || file.peer == null ||
        (!file.entry.isFile && !file.entry.isDir && !file.entry.isLink) {
        SkippedFile(file, from);
        assert FinalPass(end.files[..k + 1], from) == FinalPass(end.files[..k], from);
        continue;
      }
      SkippedFile(file, from);
      NotTaken(end.files[..k], from, file);
      ListAdds(staged, FinalPass(end.files[..k], from), file);
      assert FinalPass(end.files[..k + 1], from) == FinalPass(end.files[..k], from) + {file};
      staged := [file] + staged;
    }
    assert end.files[..|end.files|] == end.files;
    FinalPassIs(end.files, from, staged);
  }

  lemma SkippedFile(f: File, from: int)
    ensures InFinalPass(f, from) <==>
      !(f.entry.lastChange <= from || f.peer == null || (!f.entry.isFile && !f.entry.isDir && !f.entry.isLink))
  {
  }

  /** How often a pack that went through both passes holds a record. */
  lemma PackedOnce(end: Manifest, older: Entries, newer: Entries, from: int, full: seq<File>, final: seq<File>,
      n: string)
    requires Covered(end, older, newer, from) && IsList(full, FullPass(end.files))
    requires IsList(final, FinalPass(end.files, from))
    requires n in Index(end.files)
    ensures multiset(full + final)[Index(end.files)[n]]
         == if n in newer && newer[n].Live() && !ShippedAlike(older, newer, n) then 1 else 0
  {
    hide Distinct, Names, Index, InFullPass, InFinalPass;
    var f := Index(end.files)[n];
    assert f in end.files;
    assert f in FullPass(end.files) <==> InFullPass(f);
    assert f in FinalPass(end.files, from) <==> InFinalPass(f, from);
    assert multiset(full + final) == multiset(full) + multiset(final);
  }

  // ----- a whole pack, from the manifests of a run -----

  /** Everything that the table ships can be fetched by the release of its last change and its hash. */
  predicate Available(m: Entries, fullfiles: set<(int, string)>) {
    forall n | n in m && m[n].Live() :: (m[n].lastChange, m[n].hash) in fullfiles
  }

  /** Matching takes each shipped entry from one of the two ends. */
  lemma MatchIsAvailable(older: Entries, newer: Entries, from: int, to: int, fullfiles: set<(int, string)>)
    requires OneHistory(older, newer, from) && Available(older, fullfiles) && Available(newer, fullfiles)
    ensures Available(Match(older, newer, to, 0), fullfiles)
  {
    hide FlagsOk, ZERO_HASH, AllPositive, ConsistentSince;
    var m := Match(older, newer, to, 0);
    forall n | n in m && m[n].Live()
      ensures (m[n].lastChange, m[n].hash) in fullfiles
    {
      if n in older && n in newer && Unchanged(older[n], newer[n], 0) {
        assert WrittenOk(n, older[n]) && WrittenOk(n, newer[n]);
      }
    }
  }

  lemma OfRunIsAvailable(cfg: Config, inputs: seq<Input>, g: string, v: int)
    ensures Available(At(Run(cfg, inputs), g, v), Run(cfg, inputs).fullfiles)
  {
    hide Run;
    ContentIsAvailable(cfg, inputs);
  }

  /** Whatever two releases of one run a pack leads from and to: its two manifests are of one history, and what the
      newer one ships once it is matched, it can take from the run's fullfiles. */
  ghost predicate AllPackable(s: State) {
    forall g, v, w | (g, w) in s.archive && v < w && (v == 0 || (g, v) in s.archive) :: Packable(s, g, v, w)
  }

  ghost predicate Packable(s: State, g: string, v: int, w: int) {
    && OneHistory(At(s, g, v), At(s, g, w), v)
    && Available(Match(At(s, g, v), At(s, g, w), w, 0), s.fullfiles)
  }

  lemma RunsArePackable(cfg: Config, inputs: seq<Input>)
    ensures AllPackable(Run(cfg, inputs))
  {
    hide Run, OneHistory, At, Available, Match;
    var s := Run(cfg, inputs);
    forall g, v, w | (g, w) in s.archive && v < w && (v == 0 || (g, v) in s.archive)
      ensures Packable(s, g, v, w)
    {
      PairOfRun(cfg, inputs, g, v, w);
      OfRunIsAvailable(cfg, inputs, g, v);
      OfRunIsAvailable(cfg, inputs, g, w);
      MatchIsAvailable(At(s, g, v), At(s, g, w), v, w, s.fullfiles);
    }
  }

  /** The contents of every record of the list can be fetched. */
  ghost predicate AllFetched(files: seq<File>, fullfiles: set<(int, string)>)
    reads files`entry
  {
    forall f | f in files :: f.entry.Live() && (f.entry.lastChange, f.entry.hash) in fullfiles
  }

  lemma StagedIsFetched(end: Manifest, older: Entries, newer: Entries, from: int, full: seq<File>, final: seq<File>,
      fullfiles: set<(int, string)>)
    requires Covered(end, older, newer, from) && Holds(end, Match(older, newer, end.version, 0))
    requires IsList(full, FullPass(end.files)) && IsList(final, FinalPass(end.files, from))
    requires Available(Match(older, newer, end.version, 0), fullfiles)
    requires forall n | n in newer && newer[n].Live() :: Match(older, newer, end.version, 0)[n].Live()
    ensures AllFetched(full + final, fullfiles)
  {
    hide Distinct, Names, Index, InFullPass, InFinalPass, Match, IsList;
    ListMembers(full, FullPass(end.files));
    ListMembers(final, FinalPass(end.files, from));
    forall f | f in full + final
      ensures f.entry.Live() && (f.entry.lastChange, f.entry.hash) in fullfiles
    {
      assert f in end.files && (InFullPass(f) || InFinalPass(f, from));
      RecordOf(end.files, f);
      assert f.entry == Contents(end.files)[f.filename];
    }
  }

  lemma ShippedStaysLive(older: Entries, newer: Entries, from: int, to: int)
    requires OneHistory(older, newer, from)
    ensures forall n | n in newer && newer[n].Live() :: Match(older, newer, to, 0)[n].Live()
  {
    hide OneHistory, Match;
    forall n | n in newer && newer[n].Live()
      ensures Match(older, newer, to, 0)[n].Live()
    {
      MatchedForPack(older, newer, from, to, n);
    }
  }

  /** How often the pack holds each record: changed files once, all others not at all. */
  ghost predicate HoldsOnce(end: Manifest, staged: seq<File>, older: Entries, newer: Entries)
    reads end`files
  {
    && Distinct(Names(end.files))
    && forall n | n in Index(end.files) ::
        multiset(staged)[Index(end.files)[n]] ==
          if n in newer && newer[n].Live() && !ShippedAlike(older, newer, n) then 1 else 0
  }

  lemma OnceEach(end: Manifest, older: Entries, newer: Entries, from: int, full: seq<File>, final: seq<File>)
    requires Covered(end, older, newer, from) && IsList(full, FullPass(end.files))
    requires IsList(final, FinalPass(end.files, from))
    ensures HoldsOnce(end, full + final, older, newer)
  {
    hide Names, Index, FullPass, FinalPass, ShippedAlike, IsList, Covered;
    CoveredNames(end, older, newer, from);
    forall n | n in Index(end.files)
      ensures multiset(full + final)[Index(end.files)[n]] ==
        if n in newer && newer[n].Live() && !ShippedAlike(older, newer, n) then 1 else 0
    {
      PackedOnce(end, older, newer, from, full, final, n);
    }
  }

  lemma CoveredNames(end: Manifest, older: Entries, newer: Entries, from: int)
    requires Covered(end, older, newer, from)
    ensures Distinct(Names(end.files))
  {
  }

  /** `make_pack`, for two manifests of one run: the passes stage every file that is new or changed once and nothing
      else, and a fullfile of the run holds what they stage. */
  method MakePack(older: Manifest, end: Manifest, from: int, ghost cfg: Config, ghost inputs: seq<Input>,
      ghost g: string)
    returns (ready: bool, staged: seq<File>)
    requires older != end && older.Valid() && end.Valid() && Disjoint(older.files, end.files)
    requires Unlinked(end.files) && AllNull(end.files)
    requires var s := Run(cfg, inputs);
      && (g, end.version) in s.archive && from < end.version && (from == 0 || (g, from) in s.archive)
      && Contents(older.files) == At(s, g, from) && Contents(end.files) == At(s, g, end.version)
    modifies older`files, end`files, end`count
    modifies Index(older.files).Values`peer, Index(older.files).Values`renamePeer
    modifies Index(end.files).Values`peer, Index(end.files).Values`renamePeer, Index(end.files).Values`entry
    ensures ready <==> old(older.count) != 0 || older.version <= 0
    ensures ready ==> AllFetched(staged, Run(cfg, inputs).fullfiles)
    ensures ready ==> HoldsOnce(end, staged, At(Run(cfg, inputs), g, from), At(Run(cfg, inputs), g, end.version))
    ensures !ready ==> staged == []
  {
    hide Distinct, Names, Index, Contents, Disjoint, Unlinked, AllNull, OneHistory, Covered, Run, At, Match, Holds,
      IsList, FullPass, FinalPass, Available, HoldsOnce, AllFetched;
    ghost var s := Run(cfg, inputs);
    ghost var o1, o2 := At(s, g, from), At(s, g, end.version);
    RunsArePackable(cfg, inputs);
    assert Packable(s, g, from, end.version);
    ready := PreparePack(older, end, from);
    if !ready {
      return false, [];
    }
    CoveredNames(end, o1, o2, from);
    var full := MakePackFullFiles(end);
    var final := MakeFinalPack(end, from);
    staged := full + final;
    ShippedStaysLive(o1, o2, from, end.version);
    StagedIsFetched(end, o1, o2, from, full, final, s.fullfiles);
    OnceEach(end, o1, o2, from, full, final);
  }

  // ----- delta tasks -----

  /** What `find_file_in_list` compares. */
  datatype DeltaKey = DeltaKey(hash: string, lastChange: int, peerChange: int)

  /** The name of a delta file in the output directory: `<release>/delta/<old release>-<release>-<old hash>-<hash>`. */
  function DeltaName(peerChange: int, lastChange: int, peerHash: string, hash: string): string {
    PrintInt(lastChange) +
      ("/delta/" + (PrintInt(peerChange) + ("-" + (PrintInt(lastChange) + ("-" + (peerHash + ("-" + hash)))))))
  }

  function KeyOf(f: File): DeltaKey
    requires f.peer != null
    reads f, f.peer
  {
    DeltaKey(f.entry.hash, f.entry.lastChange, f.peer.entry.lastChange)
  }

  function NameOf(f: File): string
    requires f.peer != null
    reads f, f.peer
  {
    DeltaName(f.peer.entry.lastChange, f.entry.lastChange, f.peer.entry.hash, f.entry.hash)
  }

  predicate Without(s: string, c: char) {
    forall i | 0 <= i < |s| :: s[i] != c
  }

  function Until(s: string, c: char): (r: nat)
    ensures r <= |s|
  {
    if s == [] || s[0] == c then 0 else 1 + Until(s[1..], c)
  }

  lemma {:induction false} UntilIs(a: string, c: char, x: string)
    requires Without(a, c)
    ensures Until(a + ([c] + x), c) == |a|
    decreases |a|
  {
    if a != [] {
      assert (a + ([c] + x))[1..] == a[1..] + ([c] + x);
      UntilIs(a[1..], c, x);
    }
  }

  /** The first occurrence of a character cuts a string in one way only. */
  lemma CutsOnce(a: string, b: string, c: char, x: string, y: string)
    requires Without(a, c) && Without(b, c) && a + ([c] + x) == b + ([c] + y)
    ensures a == b && x == y
  {
    UntilIs(a, c, x);
    UntilIs(b, c, y);
    var s := a + ([c] + x);
    assert a == s[..|a|] && x == s[|a| + 1..];
    assert b == s[..|b|] && y == s[|b| + 1..];
  }

  lemma DigitsWithout(n: nat)
    ensures Without(Digits(n), '-') && Without(Digits(n), '/')
  {
  }

  lemma IntBegins(v: int, x: string)
    ensures PrintInt(v) + x != []
    ensures var s := PrintInt(v) + x;
      if v < 0 then s[0] == '-' && s[1..] == Digits(-v) + x else IsDigit(s[0]) && s == Digits(v) + x
  {
    hide Digits;
    if v < 0 {
      assert "-" + Digits(-v) + x == "-" + (Digits(-v) + x);
    }
  }

  lemma IntCuts(v: int, w: int, x: string, y: string)
    requires PrintInt(v) + ("-" + x) == PrintInt(w) + ("-" + y)
    ensures v == w && x == y
  {
    hide Digits, Without, PrintInt;
    IntBegins(v, "-" + x);
    IntBegins(w, "-" + y);
    var n: nat, m: nat := if v < 0 then -v else v, if w < 0 then -w else w;
    DigitsWithout(n);
    DigitsWithout(m);
    CutsOnce(Digits(n), Digits(m), '-', x, y);
    ValueOfDigits(n);
    ValueOfDigits(m);
  }

  lemma IntWithout(v: int)
    ensures Without(PrintInt(v), '/')
  {
    hide Digits;
    DigitsWithout(if v < 0 then -v else v);
  }

  lemma SamePrefix(p: string, x: string, y: string)
    requires p + x == p + y
    ensures x == y
  {
    assert x == (p + x)[|p|..] && y == (p + y)[|p|..];
  }

  lemma SlashCuts(v: int, w: int, x: string, y: string)
    requires PrintInt(v) + ("/delta/" + x) == PrintInt(w) + ("/delta/" + y)
    ensures x == y
  {
    hide PrintInt, Without;
    IntWithout(v);
    IntWithout(w);
    assert forall z: string :: "/delta/" + z == "/" + ("delta/" + z);
    CutsOnce(PrintInt(v), PrintInt(w), '/', "delta/" + x, "delta/" + y);
    SamePrefix("delta/", x, y);
  }

  /** The name tells the two releases and the two hashes, if the old hash has no dash. */
  lemma NameTells(p: int, c: int, h: string, k: string, p': int, c': int, h': string, k': string)
    requires Without(h, '-') && Without(h', '-') && DeltaName(p, c, h, k) == DeltaName(p', c', h', k')
    ensures p == p' && c == c' && h == h' && k == k'
  {
    hide PrintInt, Without;
    var x, y := h + ("-" + k), h' + ("-" + k');
    SlashCuts(c, c', PrintInt(p) + ("-" + (PrintInt(c) + ("-" + x))),
        PrintInt(p') + ("-" + (PrintInt(c') + ("-" + y))));
    IntCuts(p, p', PrintInt(c) + ("-" + x), PrintInt(c') + ("-" + y));
    IntCuts(c, c', x, y);
    CutsOnce(h, h', '-', k, k');
  }

  /** With a dash in it, two pairs of hashes have one name. */
  lemma DashesConfuse(p: int, c: int, h: string, k: string, l: string)
    ensures DeltaName(p, c, h + "-" + k, l) == DeltaName(p, c, h, k + "-" + l)
  {
    hide PrintInt;
    assert (h + "-" + k) + ("-" + l) == h + ("-" + (k + "-" + l));
  }

  lemma NameOfSample(h: string, k: string)
    ensures DeltaName(10, 20, h, k) == "20/delta/10-20-" + h + "-" + k
  {
    hide Digits;
    SampleDigits();
    assert PrintInt(10) == "10" && PrintInt(20) == "20";
    hide PrintInt;
    var x := h + ("-" + k);
    assert "20" + ("/delta/" + ("10" + ("-" + ("20" + ("-" + x))))) == "20/delta/10-20-" + x;
    assert "20/delta/10-20-" + x == "20/delta/10-20-" + h + "-" + k;
  }

  predicate AllHavePeers(files: seq<File>)
    reads files
  {
    forall i | 0 <= i < |files| :: files[i].peer != null
  }

  ghost predicate DistinctKeys(files: seq<File>)
    requires AllHavePeers(files)
    reads files, set f | f in files :: f.peer
  {
    forall i, j | 0 <= i < j < |files| :: KeyOf(files[i]) != KeyOf(files[j])
  }

  predicate HasKey(files: seq<File>, key: DeltaKey)
    requires AllHavePeers(files)
    reads files, set f | f in files :: f.peer
  {
    exists i | 0 <= i < |files| :: KeyOf(files[i]) == key
  }

  lemma NameTellsKey(f: File, x: File)
    requires f.peer != null && x.peer != null && KeyOf(f) != KeyOf(x)
    requires Without(f.peer.entry.hash, '-') && Without(x.peer.entry.hash, '-')
    ensures NameOf(f) != NameOf(x)
  {
    hide DeltaName, Without;
    if NameOf(f) == NameOf(x) {
      NameTells(f.peer.entry.lastChange, f.entry.lastChange, f.peer.entry.hash, f.entry.hash,
                x.peer.entry.lastChange, x.entry.lastChange, x.peer.entry.hash, x.entry.hash);
      assert false;
    }
  }

  /** Distinct keys are distinct output files: the threads of the pool never write the same one. */
  lemma DistinctPaths(files: seq<File>)
    requires AllHavePeers(files) && DistinctKeys(files)
    requires forall i | 0 <= i < |files| :: Without(files[i].peer.entry.hash, '-')
    ensures forall i, j | 0 <= i < j < |files| :: NameOf(files[i]) != NameOf(files[j])
  {
    hide DeltaName, Without;
    forall i, j | 0 <= i < j < |files|
      ensures NameOf(files[i]) != NameOf(files[j])
    {
      NameTellsKey(files[i], files[j]);
    }
  }

  method FindFileInList(files: seq<File>, file: File) returns (found: bool)
    requires AllHavePeers(files) && file.peer != null
    ensures found <==> HasKey(files, KeyOf(file))
  {
    for k := 0 to |files|
      invariant forall i | 0 <= i < k :: KeyOf(files[i]) != KeyOf(file)
    {
      if KeyOf(files[k]) == KeyOf(file) {
        return true;
      }
    }
    return false;
  }

  /** `consolidate_packs_delta_files`: the keys stay distinct, every delta that is missing on disk gets a task for its
      contents and both releases, no other file gets one, and all deltas get made if and only if no two of them
      clash. */
  method ConsolidatePacksDeltaFiles(files: seq<File>, end: seq<File>, from: int,
      onDisk: set<string>) returns (r: seq<File>)
    requires AllHavePeers(files) && DistinctKeys(files)
    ensures AllHavePeers(r) && DistinctKeys(r)
    ensures forall f | f in files :: f in r
    ensures forall f | f in r && f !in files ::
      && f in end && f.peer != null && f.entry.lastChange > from && (f.entry.isFile || f.entry.isDir || f.entry.isLink)
      && DeltaName(f.peer.entry.lastChange, f.entry.lastChange, f.peer.entry.hash, f.entry.hash) !in onDisk
    ensures forall f | f in end && f.peer != null && f.entry.lastChange > from
        && (f.entry.isFile || f.entry.isDir || f.entry.isLink)
        && DeltaName(f.peer.entry.lastChange, f.entry.lastChange, f.peer.entry.hash, f.entry.hash) !in onDisk ::
      exists i | 0 <= i < |r| ::
        r[i].entry.hash == f.entry.hash && r[i].entry.lastChange == f.entry.lastChange
        && r[i].peer.entry.lastChange == f.peer.entry.lastChange
    ensures (forall f | f in end && Wanted(f, from, onDisk) :: Served(r, f)) <==> NoClash(files, end, from, onDisk)
  {
    hide KeyOf, DeltaName, Served, NoClash, DistinctKeys, HasKey;
    r := files;
    for k := 0 to |end|
      invariant AllHavePeers(r) && DistinctKeys(r)
      invariant forall f | f in files :: f in r
      invariant forall f | f in r :: f in files || (f in end && Wanted(f, from, onDisk))
      invariant forall i | 0 <= i < k && Wanted(end[i], from, onDisk) :: HasKey(r, KeyOf(end[i]))
    {
      var file := end[k];
      if file.entry.lastChange <= from || file.peer == null ||
        (!file.entry.isFile && !file.entry.isDir && !file.entry.isLink) {
        continue;
      }
      if DeltaName(file.peer.entry.lastChange, file.entry.lastChange, file.peer.entry.hash, file.entry.hash) in onDisk {
        continue;
      }
      var found := FindFileInList(r, file);
      if !found {
        KeyAdded(r, file);
        r := [file] + r;
      }
    }
    DeltasExactly(files, end, from, onDisk, r);
    KeysSpelledOut(end, from, onDisk, r);
  }

  lemma KeysSpelledOut(end: seq<File>, from: int, onDisk: set<string>, r: seq<File>)
    requires AllHavePeers(r) && forall f | f in end && Wanted(f, from, onDisk) :: HasKey(r, KeyOf(f))
    ensures forall f | f in end && Wanted(f, from, onDisk) ::
      exists i | 0 <= i < |r| ::
        r[i].entry.hash == f.entry.hash && r[i].entry.lastChange == f.entry.lastChange
        && r[i].peer.entry.lastChange == f.peer.entry.lastChange
  {
    hide DeltaName;
    forall f | f in end && Wanted(f, from, onDisk)
      ensures exists i | 0 <= i < |r| ::
        r[i].entry.hash == f.entry.hash && r[i].entry.lastChange == f.entry.lastChange
        && r[i].peer.entry.lastChange == f.peer.entry.lastChange
    {
      var i :| 0 <= i < |r| && KeyOf(r[i]) == KeyOf(f);
    }
  }

  lemma KeyAdded(r: seq<File>, file: File)
    requires AllHavePeers(r) && DistinctKeys(r) && file.peer != null && !HasKey(r, KeyOf(file))
    ensures AllHavePeers([file] + r) && DistinctKeys([file] + r) && HasKey([file] + r, KeyOf(file))
    ensures forall key | HasKey(r, key) :: HasKey([file] + r, key)
  {
    hide KeyOf;
    var r' := [file] + r;
    assert forall i | 0 <= i < |r| :: r'[i + 1] == r[i];
    assert KeyOf(r'[0]) == KeyOf(file);
    forall key | HasKey(r, key)
      ensures HasKey(r', key)
    {
      var i :| 0 <= i < |r| && KeyOf(r[i]) == key;
      assert KeyOf(r'[i + 1]) == key;
    }
    forall i, j | 0 <= i < j < |r'|
      ensures KeyOf(r'[i]) != KeyOf(r'[j])
    {
    }
  }

  // ----- which deltas are made -----

  /** The pack has to deliver the file and its delta is not there yet. */
  predicate Wanted(f: File, from: int, onDisk: set<string>)
    reads f, f.peer
  {
    InFinalPass(f, from) && NameOf(f) !in onDisk
  }

  /** Some task makes the delta of these two contents and these two releases. */
  ghost predicate Served(r: seq<File>, f: File)
    requires f.peer != null && AllHavePeers(r)
    reads r, f, f.peer, set x | x in r :: x.peer
  {
    exists i | 0 <= i < |r| :: KeyOf(r[i]) == KeyOf(f) && r[i].peer.entry.hash == f.peer.entry.hash
  }

  /** The tasks there were, and those that are wanted. */
  ghost predicate Involved(x: File, files: seq<File>, end: seq<File>, from: int, onDisk: set<string>)
    reads x, x.peer
  {
    x.peer != null && (x in files || (x in end && Wanted(x, from, onDisk)))
  }

  /** No wanted file shares its new contents and both releases with another one that has other old contents. */
  ghost predicate NoClash(files: seq<File>, end: seq<File>, from: int, onDisk: set<string>)
    reads files, end, set f | f in files :: f.peer, set f | f in end :: f.peer
  {
    forall f, x | f in end && Wanted(f, from, onDisk) && x in files + end && Involved(x, files, end, from, onDisk) ::
      KeyOf(x) == KeyOf(f) ==> x.peer.entry.hash == f.peer.entry.hash
  }

  /** Of two files with one key and different old contents, at most one gets its delta. */
  lemma OneOfTwo(r: seq<File>, f: File, x: File)
    requires AllHavePeers(r) && DistinctKeys(r) && f.peer != null && x.peer != null
    requires Served(r, f) && Served(r, x) && KeyOf(f) == KeyOf(x)
    ensures f.peer.entry.hash == x.peer.entry.hash
  {
    hide KeyOf;
    var i :| 0 <= i < |r| && KeyOf(r[i]) == KeyOf(f) && r[i].peer.entry.hash == f.peer.entry.hash;
    var j :| 0 <= j < |r| && KeyOf(r[j]) == KeyOf(x) && r[j].peer.entry.hash == x.peer.entry.hash;
    assert i == j;
  }

  /** Every wanted file gets its delta if and only if no two of them clash. */
  lemma DeltasExactly(files: seq<File>, end: seq<File>, from: int, onDisk: set<string>, r: seq<File>)
    requires AllHavePeers(r) && DistinctKeys(r) && forall f | f in files :: f in r
    requires forall f | f in r :: f in files || (f in end && Wanted(f, from, onDisk))
    requires forall f | f in end && Wanted(f, from, onDisk) :: HasKey(r, KeyOf(f))
    ensures (forall f | f in end && Wanted(f, from, onDisk) :: Served(r, f)) <==> NoClash(files, end, from, onDisk)
  {
    hide KeyOf, NameOf;
    if NoClash(files, end, from, onDisk) {
      forall f | f in end && Wanted(f, from, onDisk)
        ensures Served(r, f)
      {
        var i :| 0 <= i < |r| && KeyOf(r[i]) == KeyOf(f);
        assert Involved(r[i], files, end, from, onDisk);
      }
    }
    if forall f | f in end && Wanted(f, from, onDisk) :: Served(r, f) {
      forall f, x | f in end && Wanted(f, from, onDisk) && x in files + end && Involved(x, files, end, from, onDisk)
          && KeyOf(x) == KeyOf(f)
        ensures x.peer.entry.hash == f.peer.entry.hash
      {
        assert Served(r, x) by {
          if x in files {
            var i :| 0 <= i < |r| && r[i] == x;
          }
        }
        OneOfTwo(r, f, x);
      }
    }
  }

  const CHANGED := Entry(false, true, false, false, false, false, false, false, false, "same", 2)

  /** A file with these contents in release 1 that changed in release 2. */
  method ChangedFile(filename: string, hash: string) returns (f: File)
    ensures fresh(f) && f.peer != null && fresh(f.peer) && f.entry == CHANGED
    ensures f.peer.entry == CHANGED.(hash := hash, lastChange := 1)
  {
    f := new File(filename, CHANGED);
    var p := new File(filename, CHANGED.(hash := hash, lastChange := 1));
    f.peer := p;
  }

  lemma NotBoth(r: seq<File>, f: File, x: File)
    requires AllHavePeers(r) && DistinctKeys(r) && f.peer != null && x.peer != null
    requires KeyOf(f) == KeyOf(x) && f.peer.entry.hash != x.peer.entry.hash
    ensures !(Served(r, f) && Served(r, x))
  {
    hide KeyOf, NameOf, Served, DistinctKeys;
    if Served(r, f) && Served(r, x) {
      OneOfTwo(r, f, x);
    }
  }

  /** The tasks where there were none and nothing is on disk yet. */
  method AllDeltas(end: seq<File>, from: int) returns (r: seq<File>)
    ensures AllHavePeers(r) && DistinctKeys(r)
  {
    hide DistinctKeys, AllHavePeers, Wanted, Served, NoClash, DeltaName;
    NoTasks();
    r := ConsolidatePacksDeltaFiles([], end, from, {});
  }

  /** Two files that had different contents in release 1 and have the same in release 2: two deltas are wanted,
      and one of them is not made. */
  method ClashingDeltas() returns (end: seq<File>, r: seq<File>)
    ensures |end| == 2 && end[0].peer != null && end[1].peer != null && AllHavePeers(r)
    ensures Wanted(end[0], 1, {}) && Wanted(end[1], 1, {}) && !(Served(r, end[0]) && Served(r, end[1]))
  {
    hide DistinctKeys, Served, HasKey, AllHavePeers, NameOf, DeltaName;
    var f0 := ChangedFile("/a", "one");
    var f1 := ChangedFile("/b", "other");
    end := [f0, f1];
    r := AllDeltas(end, 1);
    NotBoth(r, f0, f1);
  }

  lemma NoTasks()
    ensures AllHavePeers([]) && DistinctKeys([])
  {
  }
}
