/** `match_manifests` and its helpers (src/manifest.c): the new manifest learns, name by name,
    since when each file is as it is, and keeps a tombstone for what is gone. */
module Matching {
  import opened Strings
  import opened Sorting
  import opened Files

  // ----- the join, one name at a time -----

  predicate SameFileContents(a: Entry, b: Entry) {
    && a.isDir == b.isDir
    && a.isLink == b.isLink
    && a.isDeleted == b.isDeleted
    && a.isFile == b.isFile
    && a.isConfig == b.isConfig
    && a.isState == b.isState
    && a.isBoot == b.isBoot
    && a.hash == b.hash
  }

  /** `add_deleted_file`: what remains of an old entry whose name is not shipped any more. */
  function Tombstone(source: Entry, version: int): Entry {
    var ghosted := source.isGhosted || (source.isBoot && source.isDeleted);
    var keeps := ghosted || source.isDeleted;
    Entry(false, false, false, true, ghosted,
          source.isConfig, source.isState, source.isBoot,
          if keeps then source.isRename else false,
          if keeps then source.hash else ZERO_HASH,
          if source.isDeleted then source.lastChange else version)
  }

  predicate Unchanged(old_: Entry, new_: Entry, minversion: int) {
    SameFileContents(old_, new_) && old_.lastChange >= minversion
  }

  function MatchEntry(old_: Option<Entry>, new_: Option<Entry>, version: int, minversion: int): Option<Entry> {
    match (old_, new_)
    case (Some(a), Some(b)) =>
      if Unchanged(a, b, minversion) then Some(b.(lastChange := a.lastChange, isRename := a.isRename)) else new_
    case (Some(a), None) => Some(Tombstone(a, version))
    case (None, _) => new_
  }

  function Match(old_: Entries, new_: Entries, version: int, minversion: int): (r: Entries)
    ensures r.Keys == old_.Keys + new_.Keys
  {
    map n | n in old_.Keys + new_.Keys :: MatchEntry(Get(old_, n), Get(new_, n), version, minversion).value
  }

  /** Two records count as the same if they differ in three fields at most, which the comparison leaves aside. */
  lemma SameExactly(a: Entry, b: Entry)
    ensures SameFileContents(a, b) <==>
      a.(isGhosted := b.isGhosted, isRename := b.isRename, lastChange := b.lastChange) == b
  {
  }

  /** The tombstone of a shipped file is blank and new; a tombstone stays the one that it is, but for a boot file's,
      which becomes a ghost; and a ghost is deleted in this release. */
  lemma TombstoneOf(e: Entry, version: int)
    ensures e.Live() ==>
      Tombstone(e, version)
        == Entry(false, false, false, true, false, e.isConfig, e.isState, e.isBoot, false, ZERO_HASH, version)
    ensures e.isDeleted && e.Untyped() ==> Tombstone(e, version) == e.(isGhosted := e.isGhosted || e.isBoot)
    ensures e.isGhosted && !e.isDeleted && e.Untyped() ==>
      Tombstone(e, version) == e.(isDeleted := true, lastChange := version)
  {
  }

  /** Added, changed, or newly deleted. */
  predicate Differs(old_: Option<Entry>, new_: Option<Entry>, minversion: int) {
    match (old_, new_)
    case (Some(a), Some(b)) => !Unchanged(a, b, minversion)
    case (Some(a), None) => !a.isDeleted
    case (None, Some(_)) => true
    case (None, None) => false
  }

  function Differences(old_: Entries, new_: Entries, minversion: int): set<string> {
    set n | n in old_.Keys + new_.Keys && Differs(Get(old_, n), Get(new_, n), minversion)
  }

  /** Whether matching links a record of this name with a record of the other manifest. */
  predicate HasPeer(old_: Entries, new_: Entries, name: string) {
    name in old_ && (name !in new_ || old_[name].Live())
  }

  lemma CountStep(differences: set<string>, passed: set<string>, name: string)
    requires name !in passed
    ensures |differences * (passed + {name})| == |differences * passed| + (if name in differences then 1 else 0)
  {
    if name in differences {
      assert differences * (passed + {name}) == differences * passed + {name};
    } else {
      assert differences * (passed + {name}) == differences * passed;
    }
  }

  // ----- the cursors -----

  method AddDeletedFile(source: File, m: Manifest) returns (deleted: File)
    modifies m`files, m`count, source`peer
    ensures fresh(deleted) && deleted.filename == source.filename
    ensures deleted.entry == Tombstone(source.entry, m.version)
    ensures deleted.peer == source && source.peer == deleted && deleted.renamePeer == null && deleted.size == 0
    ensures m.files == [deleted] + old(m.files) && m.count == old(m.count) + 1
  {
    deleted := new File(source.filename, Entry(false, false, false, false, false, false, false, false, false, "", 0));
    deleted.entry := deleted.entry.(hash := ZERO_HASH, isDeleted := true,
      isConfig := source.entry.isConfig, isState := source.entry.isState, isBoot := source.entry.isBoot,
      isGhosted := source.entry.isGhosted || (source.entry.isBoot && source.entry.isDeleted));
    if deleted.entry.isGhosted || source.entry.isDeleted {
      deleted.entry := deleted.entry.(isRename := source.entry.isRename, hash := source.entry.hash);
    }
    deleted.entry := deleted.entry.(
        lastChange := if source.entry.isDeleted then source.entry.lastChange else m.version);
    deleted.peer := source;
    source.peer := deleted;
    m.files := [deleted] + m.files;
    m.count := m.count + 1;
  }

  /** A name that both manifests ship. */
  method MatchPair(file1: File, file2: File, minversion: int) returns (changed: bool)
    requires file1 != file2 && file1.peer == null && file2.peer == null
    modifies file1`peer, file2`peer, file2`entry
    ensures changed == Differs(Some(file1.entry), Some(old(file2.entry)), minversion)
    ensures forall version ::
      Some(file2.entry) == MatchEntry(Some(file1.entry), Some(old(file2.entry)), version, minversion)
    ensures file1.peer == if file1.entry.Live() then file2 else null
    ensures file2.peer == if file1.entry.Live() then file1 else null
  {
    changed := !(SameFileContents(file1.entry, file2.entry) && file1.entry.lastChange >= minversion);
    if !changed {
      file2.entry := file2.entry.(lastChange := file1.entry.lastChange, isRename := file1.entry.isRename);
    }
    if file1.entry.Live() {
      file1.peer := file2;
      file2.peer := file1;
    }
  }

  /** `b` are the records of the list by name. */
  ghost predicate Whole(files: seq<File>, b: map<string, File>) {
    Distinct(Names(files)) && Index(files) == b
  }

  lemma Prepended(files: seq<File>, b: map<string, File>, d: File)
    requires Whole(files, b) && d.filename !in b
    ensures Whole([d] + files, b[d.filename := d])
  {
    var all := [d] + files;
    assert Names(all) == [d.filename] + Names(files);
    forall x, y | 0 <= x < y < |all|
      ensures Names(all)[x] != Names(all)[y]
    {
      if x > 0 {
        assert Names(files)[x - 1] != Names(files)[y - 1];
      } else {
        assert files[y - 1].filename in Index(files);
      }
    }
    IndexIs(all, b[d.filename := d]);
  }

  lemma IndexIs(files: seq<File>, b: map<string, File>)
    requires Distinct(Names(files))
    requires forall f | f in files :: f.filename in b && b[f.filename] == f
    requires forall n | n in b :: b[n] in files && b[n].filename == n
    ensures Index(files) == b
  {
    hide Distinct, Names;
    forall n | n in Index(files)
      ensures n in b && b[n] == Index(files)[n]
    {
      assert Index(files)[n] in files;
    }
  }

  /** Every record of the list is the one its name stands for. */
  ghost predicate Listed(l: seq<File>, names: seq<string>, b: map<string, File>) {
    |names| == |l| && forall k | 0 <= k < |l| :: l[k].filename == names[k] && names[k] in b && b[names[k]] == l[k]
  }

  lemma ListedBeside(l: seq<File>, names: seq<string>, b: map<string, File>, d: File)
    requires Listed(l, names, b) && d.filename !in names
    ensures Listed(l, names, b[d.filename := d])
  {
  }

  /** What does not change during one match: the two tables, the sorted lists, their names,
      the records of the old manifest by name, and the parameters. */
  datatype Join = Join(o1: Entries, o2: Entries, l1: seq<File>, l2: seq<File>, n1: seq<string>, n2: seq<string>,
                       b1: map<string, File>, version: int, minversion: int)
  {
    function Result(name: string): Option<Entry> {
      MatchEntry(Get(o1, name), Get(o2, name), version, minversion)
    }

    ghost function All(): set<string> {
      Differences(o1, o2, minversion)
    }

    ghost predicate Shape() {
      && Listed(l1, n1, b1) && |n2| == |l2|
      && (forall n :: n in n1 <==> n in o1) && (forall n :: n in n2 <==> n in o2)
    }

    /** Every name has its own record, all of them in `mine`. */
    ghost predicate Records(b2: map<string, File>, passed: set<string>, mine: set<File>) {
      && b1.Keys == o1.Keys && b2.Keys == o2.Keys + o1.Keys * passed
      && (forall n | n in b1 :: b1[n].filename == n && b1[n] in mine && (n in b2 ==> b1[n] != b2[n]))
      && (forall n | n in b2 :: b2[n].filename == n && b2[n] in mine)
    }

    /** A passed name has its final value, the others are as they were. */
    ghost predicate Values(b2: map<string, File>, passed: set<string>, mine: set<File>)
      requires Records(b2, passed, mine)
      reads mine
    {
      && (forall n | n in b1 :: b1[n].entry == o1[n])
      && (forall n | n in b2 :: Some(b2[n].entry) == if n in passed then Result(n) else Get(o2, n))
    }

    /** A passed name has its links, the others have none in the new manifest. */
    ghost predicate Peers(b2: map<string, File>, passed: set<string>, mine: set<File>, peers: map<File, File?>)
      requires Records(b2, passed, mine)
    {
      && peers.Keys == mine
      && (forall n | n in b1 && n in passed :: peers[b1[n]] == if HasPeer(o1, o2, n) then b2[n] else null)
      && (forall n | n in b2 :: peers[b2[n]] == if n in passed && HasPeer(o1, o2, n) then b1[n] else null)
    }

    ghost predicate State(b2: map<string, File>, passed: set<string>, mine: set<File>)
      reads mine
    {
      Records(b2, passed, mine) && Values(b2, passed, mine) && Peers(b2, passed, mine, PeersOf(mine))
    }

    /** Between two steps: the cursors stand at i and j. */
    ghost predicate Mid(t: Trace, m2: Manifest, i: nat, j: nat, count: int)
      reads m2, t.mine
    {
      && Shape() && Listed(l2, n2, t.b2)
      && Walk(n1, i, n2, j, t.passed)
      && State(t.b2, t.passed, t.mine)
      && m2.version == version && Whole(m2.files, t.b2) && m2.count == |m2.files|
      && count == |All() * t.passed|
    }
  }

  /** The records of the new manifest by name, all records, and the names passed. */
  datatype Trace = Trace(b2: map<string, File>, mine: set<File>, passed: set<string>)

  /** Records are only added, under new names. */
  ghost predicate Grown(b: map<string, File>, b': map<string, File>) {
    && (forall n | n in b :: n in b' && b'[n] == b[n])
    && (forall n, x | n in b' && n !in b && x in b :: b'[n] != b[x])
  }

  ghost function PeersOf(files: set<File>): map<File, File?>
    reads files
  {
    map f | f in files :: f.peer
  }

  lemma PeersReset(J: Join, b2: map<string, File>, passed: set<string>, mine: set<File>, peers: map<File, File?>,
      name1: string, name2: string)
    requires J.Records(b2, passed, mine) && J.Peers(b2, passed, mine, peers)
    requires name1 in J.b1 && name2 in b2 && name1 !in passed && name2 !in passed
    ensures J.Peers(b2, passed, mine, peers[J.b1[name1] := null][b2[name2] := null])
  {
    hide HasPeer;
  }

  lemma PeersBoth(J: Join, b2: map<string, File>, passed: set<string>, mine: set<File>, peers: map<File, File?>,
      name: string)
    requires J.Records(b2, passed, mine) && J.Records(b2, passed + {name}, mine) && J.Peers(b2, passed, mine, peers)
    requires name in J.b1 && name in b2 && name !in passed
    ensures var linked := HasPeer(J.o1, J.o2, name);
      J.Peers(b2, passed + {name}, mine,
              peers[J.b1[name] := if linked then b2[name] else null][b2[name] := if linked then J.b1[name] else null])
  {
    hide HasPeer;
  }

  lemma PeersLeft(J: Join, b2: map<string, File>, passed: set<string>, mine: set<File>, peers: map<File, File?>,
      name: string, d: File)
    requires J.Records(b2, passed, mine) && J.Records(b2[name := d], passed + {name}, mine + {d})
    requires J.Peers(b2, passed, mine, peers)
    requires name in J.b1 && name !in b2 && name !in passed && d !in mine && HasPeer(J.o1, J.o2, name)
    ensures J.Peers(b2[name := d], passed + {name}, mine + {d}, peers[J.b1[name] := d][d := J.b1[name]])
  {
    hide HasPeer;
  }

  lemma RecordsBoth(J: Join, b2: map<string, File>, passed: set<string>, mine: set<File>, name: string)
    requires J.Records(b2, passed, mine) && name in b2
    ensures J.Records(b2, passed + {name}, mine)
  {
  }

  lemma RecordsLeft(J: Join, b2: map<string, File>, passed: set<string>, mine: set<File>, d: File)
    requires J.Records(b2, passed, mine) && d.filename in J.b1 && d !in mine
    ensures J.Records(b2[d.filename := d], passed + {d.filename}, mine + {d})
  {
  }

  method ResetPeers(file1: File, file2: File, ghost J: Join, ghost b2: map<string, File>, ghost passed: set<string>,
      ghost mine: set<File>)
    requires J.State(b2, passed, mine)
    requires file1.filename in J.b1 && file1 == J.b1[file1.filename] && file1.filename !in passed
    requires file2.filename in b2 && file2 == b2[file2.filename] && file2.filename !in passed
    modifies mine`peer
    ensures J.State(b2, passed, mine)
    ensures file1.peer == null && file2.peer == null
  {
    hide Join.Result, Get, HasPeer, Join.Peers;
    ghost var peers: map<File, File?> := PeersOf(mine);
    file1.peer := null;
    file2.peer := null;
    PeersReset(J, b2, passed, mine, peers, file1.filename, file2.filename);
    assert PeersOf(mine) == peers[file1 := null][file2 := null];
  }

  lemma SharedName(J: Join, name: string)
    requires name in J.o1 && name in J.o2
    ensures J.Result(name) == MatchEntry(Some(J.o1[name]), Some(J.o2[name]), J.version, J.minversion)
    ensures Get(J.o2, name) == Some(J.o2[name])
    ensures name in J.All() <==> Differs(Some(J.o1[name]), Some(J.o2[name]), J.minversion)
    ensures HasPeer(J.o1, J.o2, name) <==> J.o1[name].Live()
  {
    hide MatchEntry, Differs;
  }

  lemma OldName(J: Join, name: string)
    requires name in J.o1 && name !in J.o2
    ensures J.Result(name) == Some(Tombstone(J.o1[name], J.version)) && HasPeer(J.o1, J.o2, name)
  {
    hide Tombstone;
  }

  method LinkBoth(file1: File, file2: File, minversion: int,
                  ghost J: Join, ghost b2: map<string, File>, ghost passed: set<string>, ghost mine: set<File>)
    returns (changed: bool)
    requires J.State(b2, passed, mine) && J.minversion == minversion
    requires file1.filename == file2.filename && file1.filename in J.b1 && file2.filename in b2
    requires file1.filename !in passed
    requires file1 == J.b1[file1.filename] && file2 == b2[file2.filename] && file1.peer == null && file2.peer == null
    modifies mine`peer, b2.Values`entry
    ensures J.State(b2, passed + {file1.filename}, mine)
    ensures changed <==> file1.filename in J.All()
  {
    hide Join.Result, Join.All, MatchEntry, Differs, Get, HasPeer, Differences, Entry.Live, Join.Peers;
    ghost var peers: map<File, File?> := PeersOf(mine);
    SharedName(J, file1.filename);
    changed := MatchPair(file1, file2, minversion);
    RecordsBoth(J, b2, passed, mine, file1.filename);
    PeersBoth(J, b2, passed, mine, peers, file1.filename);
    assert PeersOf(mine) == peers[file1 := file1.peer][file2 := file2.peer];
  }

  method LinkLeft(file1: File, m2: Manifest,
                  ghost J: Join, ghost b2: map<string, File>, ghost passed: set<string>, ghost mine: set<File>)
    returns (d: File)
    requires J.State(b2, passed, mine) && J.version == m2.version
    requires file1.filename in J.b1 && file1 == J.b1[file1.filename] && file1.filename !in passed
    requires file1.filename !in J.o2
    modifies mine`peer, m2`files, m2`count
    ensures fresh(d) && d.filename == file1.filename && d.renamePeer == null
    ensures J.State(b2[d.filename := d], passed + {file1.filename}, mine + {d})
    ensures m2.files == [d] + old(m2.files) && m2.count == old(m2.count) + 1
  {
    hide Join.Result, MatchEntry, Tombstone, Get, HasPeer, Join.Peers;
    ghost var peers: map<File, File?> := PeersOf(mine);
    OldName(J, file1.filename);
    d := AddDeletedFile(file1, m2);
    RecordsLeft(J, b2, passed, mine, d);
    PeersLeft(J, b2, passed, mine, peers, file1.filename, d);
    assert PeersOf(mine + {d}) == peers[file1 := d][d := file1];
  }

  lemma LinkRight(file2: File, J: Join, b2: map<string, File>, passed: set<string>, mine: set<File>)
    requires J.State(b2, passed, mine)
    requires file2.filename in b2 && file2.filename !in passed && file2.filename !in J.o1
    ensures J.State(b2, passed + {file2.filename}, mine)
    ensures file2.filename in J.All()
  {
  }

  lemma OldEntry(file1: File, J: Join, b2: map<string, File>, passed: set<string>, mine: set<File>)
    requires J.State(b2, passed, mine) && file1.filename in J.b1 && file1 == J.b1[file1.filename]
    ensures file1.entry == J.o1[file1.filename]
    ensures file1.filename !in passed && file1.filename !in J.o2 ==> file1.filename !in b2
  {
  }

  lemma LeftDiffers(J: Join, name: string)
    requires name in J.o1 && name !in J.o2
    ensures name in J.All() <==> !J.o1[name].isDeleted
  {
  }

  method ResetBoth(m2: Manifest, file1: File, file2: File, ghost J: Join, ghost t: Trace, ghost i: nat, ghost j: nat,
      ghost count: int)
    requires J.Mid(t, m2, i, j, count)
    requires i < |J.l1| && j < |J.l2| && file1 == J.l1[i] && file2 == J.l2[j]
    modifies t.mine`peer
    ensures J.Mid(t, m2, i, j, count)
    ensures file1.peer == null && file2.peer == null
  {
    hide Join.State, Walk, Join.All, Whole;
    WalkApart(J.n1, i, J.n2, j, t.passed);
    ResetPeers(file1, file2, J, t.b2, t.passed, t.mine);
  }

  method StepBoth(m2: Manifest, file1: File, file2: File, minversion: int, ghost J: Join, ghost t: Trace, ghost i: nat,
      ghost j: nat, ghost count: int)
    returns (changed: bool, ghost t': Trace)
    requires J.Mid(t, m2, i, j, count) && J.minversion == minversion
    requires i < |J.l1| && j < |J.l2| && file1 == J.l1[i] && file2 == J.l2[j] && file1.filename == file2.filename
    requires file1.peer == null && file2.peer == null
    modifies t.mine`peer, t.b2.Values`entry
    ensures t' == t.(passed := t.passed + {file1.filename})
    ensures J.Mid(t', m2, i + 1, j + 1, if changed then count + 1 else count)
  {
    hide Join.State, Walk, Join.All, Whole;
    WalkApart(J.n1, i, J.n2, j, t.passed);
    WalkBoth(J.n1, i, J.n2, j, t.passed);
    changed := LinkBoth(file1, file2, minversion, J, t.b2, t.passed, t.mine);
    CountStep(J.All(), t.passed, file1.filename);
    t' := t.(passed := t.passed + {file1.filename});
  }

  method StepLeft(m2: Manifest, file1: File, ghost J: Join, ghost t: Trace, ghost i: nat, ghost j: nat,
      ghost count: int)
    returns (ghost t': Trace)
    requires J.Mid(t, m2, i, j, count)
    requires i < |J.l1| && file1 == J.l1[i] && (j < |J.l2| ==> Less(file1.filename, J.l2[j].filename))
    modifies t.mine`peer, m2`files, m2`count
    ensures t.mine <= t'.mine && fresh(t'.mine - t.mine) && Grown(t.b2, t'.b2)
    ensures (forall n | n in t'.b2 && n !in t.b2 :: fresh(t'.b2[n]) && t'.b2[n].renamePeer == null)
    ensures file1.entry == old(file1.entry)
    ensures J.Mid(t', m2, i + 1, j, if file1.entry.isDeleted then count else count + 1)
  {
    hide Join.State, Walk, Join.All, Less, Whole;
    OldEntry(file1, J, t.b2, t.passed, t.mine);
    WalkApart(J.n1, i, J.n2, j, t.passed);
    WalkLeft(J.n1, i, J.n2, j, t.passed);
    LeftDiffers(J, file1.filename);
    var deleted := LinkLeft(file1, m2, J, t.b2, t.passed, t.mine);
    CountStep(J.All(), t.passed, file1.filename);
    Prepended(old(m2.files), t.b2, deleted);
    ListedBeside(J.l2, J.n2, t.b2, deleted);
    t' := Trace(t.b2[deleted.filename := deleted], t.mine + {deleted}, t.passed + {deleted.filename});
  }

  lemma StepRight(m2: Manifest, file2: File, J: Join, t: Trace, i: nat, j: nat, count: int)
    returns (t': Trace)
    requires J.Mid(t, m2, i, j, count)
    requires j < |J.l2| && file2 == J.l2[j] && (i < |J.l1| ==> Less(file2.filename, J.l1[i].filename))
    ensures t' == t.(passed := t.passed + {file2.filename})
    ensures J.Mid(t', m2, i, j + 1, count + 1)
  {
    hide Join.State, Walk, Join.All, Less, Whole;
    WalkApart(J.n1, i, J.n2, j, t.passed);
    WalkRight(J.n1, i, J.n2, j, t.passed);
    LinkRight(file2, J, t.b2, t.passed, t.mine);
    CountStep(J.All(), t.passed, file2.filename);
    t' := t.(passed := t.passed + {file2.filename});
  }

  /** The loop of `match_manifests` and its two tails. */
  method MatchSorted(m2: Manifest, l1: seq<File>, l2: seq<File>, minversion: int, ghost J: Join, ghost t0: Trace)
    returns (count: int, mustSort: bool, ghost t: Trace)
    requires J.Mid(t0, m2, 0, 0, 0) && J.minversion == minversion && l1 == J.l1 && l2 == J.l2 && m2.files == l2
    modifies t0.mine`peer, t0.b2.Values`entry, m2`files, m2`count
    ensures t0.mine <= t.mine && fresh(t.mine - t0.mine) && Grown(t0.b2, t.b2)
    ensures (forall n | n in t.b2 && n !in t0.b2 :: fresh(t.b2[n]) && t.b2[n].renamePeer == null)
    ensures J.Mid(t, m2, |l1|, |l2|, count)
    ensures mustSort || m2.files == l2
  {
    var i, j := 0, 0;
    count, mustSort, t := 0, false, t0;
    hide Join.Mid, Join.Shape, Listed, Strcmp;

    while i < |l1| && j < |l2|
      invariant i <= |l1| && j <= |l2| && J.Mid(t, m2, i, j, count)
      invariant t0.mine <= t.mine && fresh(t.mine - t0.mine) && Grown(t0.b2, t.b2)
      invariant (forall n | n in t.b2 && n !in t0.b2 :: fresh(t.b2[n]) && t.b2[n].renamePeer == null)
      invariant (mustSort || m2.files == l2)
      decreases |l1| - i + |l2| - j
    {
      var file1, file2 := l1[i], l2[j];
      ResetBoth(m2, file1, file2, J, t, i, j, count);
      var ret := Strcmp(file1.filename, file2.filename);
      if ret == 0 {
        var changed;
        changed, t := StepBoth(m2, file1, file2, minversion, J, t, i, j, count);
        if changed {
          count := count + 1;
        }
        i, j := i + 1, j + 1;
      } else if ret < 0 {
        t := StepLeft(m2, file1, J, t, i, j, count);
        if !file1.entry.isDeleted {
          count := count + 1;
        }
        mustSort := true;
        i := i + 1;
      } else {
        Antisymmetric(file1.filename, file2.filename);
        t := StepRight(m2, file2, J, t, i, j, count);
        count := count + 1;
        j := j + 1;
      }
    }

    while i < |l1|
      invariant i <= |l1| && j <= |l2| && (i == |l1| || j == |l2|) && J.Mid(t, m2, i, j, count)
      invariant t0.mine <= t.mine && fresh(t.mine - t0.mine) && Grown(t0.b2, t.b2)
      invariant (forall n | n in t.b2 && n !in t0.b2 :: fresh(t.b2[n]) && t.b2[n].renamePeer == null)
      invariant (mustSort || m2.files == l2)
    {
      var file1 := l1[i];
      t := StepLeft(m2, file1, J, t, i, j, count);
      if !file1.entry.isDeleted {
        count := count + 1;
      }
      mustSort := true;
      i := i + 1;
    }

    while j < |l2|
      invariant i == |l1| && j <= |l2| && J.Mid(t, m2, i, j, count)
      invariant t0.mine <= t.mine && fresh(t.mine - t0.mine) && Grown(t0.b2, t.b2)
      invariant (forall n | n in t.b2 && n !in t0.b2 :: fresh(t.b2[n]) && t.b2[n].renamePeer == null)
      invariant (mustSort || m2.files == l2)
    {
      t := StepRight(m2, l2[j], J, t, i, j, count);
      count := count + 1;
      j := j + 1;
    }
  }

  lemma FinishCount(J: Join, t: Trace, m2: Manifest, count: int)
    requires J.Mid(t, m2, |J.l1|, |J.l2|, count)
    ensures forall n :: n in t.passed <==> n in J.o1 || n in J.o2
    ensures count == |J.All()|
  {
    assert |J.n1| == |J.l1| && |J.n2| == |J.l2|;
    hide Join.State, Walk, Listed, Whole, Differs, Join.All;
    WalkEnd(J.n1, J.n2, t.passed);
    AllPassed(J, t.passed);
  }

  lemma AllPassed(J: Join, passed: set<string>)
    requires forall n :: n in passed <==> n in J.o1 || n in J.o2
    ensures J.All() * passed == J.All()
  {
    hide Differs;
  }

  lemma FinishPeers(J: Join, t: Trace, m2: Manifest, count: int)
    requires J.Mid(t, m2, |J.l1|, |J.l2|, count)
    ensures Linked(J.b1, t.b2, J.o1, J.o2)
  {
    hide Walk, Join.Result, Join.All, Join.Shape, Join.Values, Join.Peers, Join.Records, Listed, Whole, HasPeer,
      PeersOf, Linked;
    FinishCount(J, t, m2, count);
    PeersLinked(J, t.b2, t.passed, t.mine);
  }

  lemma PeersLinked(J: Join, b2: map<string, File>, passed: set<string>, mine: set<File>)
    requires J.Records(b2, passed, mine) && J.Peers(b2, passed, mine, PeersOf(mine))
    requires forall n :: n in passed <==> n in J.o1 || n in J.o2
    ensures Linked(J.b1, b2, J.o1, J.o2)
  {
    assert forall n | HasPeer(J.o1, J.o2, n) :: n in J.o1;
    forall n | n in b2
      ensures n in passed
    {
    }
  }

  lemma Finish(J: Join, t: Trace, m2: Manifest, count: int)
    requires J.Mid(t, m2, |J.l1|, |J.l2|, count)
    ensures Whole(m2.files, t.b2) && m2.count == |m2.files| && m2.version == J.version
    ensures t.b2.Keys == J.o1.Keys + J.o2.Keys && count == |J.All()|
    ensures forall n | n in t.b2 :: Some(t.b2[n].entry) == J.Result(n)
    ensures J.b1.Keys == J.o1.Keys && forall n | n in J.b1 :: J.b1[n].entry == J.o1[n]
  {
    hide Walk, Join.Result, Join.All, Join.Shape, Listed, Whole, HasPeer, Join.State;
    FinishCount(J, t, m2, count);
    FinishState(J, t);
  }

  lemma FinishState(J: Join, t: Trace)
    requires J.State(t.b2, t.passed, t.mine) && forall n :: n in t.passed <==> n in J.o1 || n in J.o2
    ensures t.b2.Keys == J.o1.Keys + J.o2.Keys
    ensures forall n | n in t.b2 :: Some(t.b2[n].entry) == J.Result(n)
    ensures J.b1.Keys == J.o1.Keys && forall n | n in J.b1 :: J.b1[n].entry == J.o1[n]
  {
    hide Join.Result, HasPeer;
    assert forall n | n in t.b2 :: n in t.passed;
  }

  /** The records of two matched manifests: linked name by name where the old one was live or
      only the old manifest had the name. */
  ghost predicate Linked(b1: map<string, File>, b2: map<string, File>, o1: Entries, o2: Entries)
    reads b1.Values`peer, b2.Values`peer
  {
    && (forall n | n in b1 :: n in b2 && b1[n].peer == if HasPeer(o1, o2, n) then b2[n] else null)
    && PeersGiven(b1, b2, o1, o2)
  }

  /** The links as the new manifest sees them. */
  ghost predicate PeersGiven(b1: map<string, File>, b2: map<string, File>, o1: Entries, o2: Entries)
    reads b2.Values`peer
  {
    forall n | n in b2 :: b2[n].peer == if n in b1 && HasPeer(o1, o2, n) then b1[n] else null
  }

  lemma OldTable(J: Join, files: seq<File>)
    requires Distinct(Names(files)) && Index(files) == J.b1
    requires J.b1.Keys == J.o1.Keys && forall n | n in J.b1 :: J.b1[n].entry == J.o1[n]
    ensures Contents(files) == J.o1
  {
    hide Distinct, Names;
  }

  lemma MatchTable(J: Join, files: seq<File>)
    requires Distinct(Names(files))
    requires Index(files).Keys == J.o1.Keys + J.o2.Keys
    requires forall n | n in Index(files) :: Some(Index(files)[n].entry) == J.Result(n)
    ensures Contents(files) == Match(J.o1, J.o2, J.version, J.minversion)
  {
    hide MatchEntry, Distinct, Names;
  }

  lemma ListedIndex(l: seq<File>)
    requires Distinct(Names(l))
    ensures Listed(l, Names(l), Index(l))
    ensures forall n :: n in Names(l) <==> n in Index(l)
  {
    hide Distinct;
  }

  lemma StartRecords(J: Join, b2: map<string, File>, mine: set<File>)
    requires Distinct(Names(J.l1)) && Distinct(Names(J.l2)) && J.b1 == Index(J.l1) && b2 == Index(J.l2)
    requires J.o1.Keys == J.b1.Keys && J.o2.Keys == b2.Keys
    requires Disjoint(J.l1, J.l2) && mine == J.b1.Values + b2.Values
    ensures J.Records(b2, {}, mine)
  {
    hide Distinct, Names, Index;
  }

  lemma StartState(J: Join, b2: map<string, File>, mine: set<File>)
    requires Distinct(Names(J.l1)) && Distinct(Names(J.l2)) && J.b1 == Index(J.l1) && b2 == Index(J.l2)
    requires J.o1 == Contents(J.l1) && J.o2 == Contents(J.l2)
    requires Disjoint(J.l1, J.l2) && Unlinked(J.l2)
    requires mine == J.b1.Values + b2.Values
    ensures J.State(b2, {}, mine)
  {
    hide Distinct, Names, Join.Result, HasPeer, Disjoint, Index, Join.Records;
    StartRecords(J, b2, mine);
    assert forall n | n in b2 :: b2[n] in mine;
  }

  lemma Start(m2: Manifest, J: Join, t: Trace)
    requires Ascending(Names(J.l1)) && Distinct(Names(J.l1)) && Ascending(Names(J.l2)) && Distinct(Names(J.l2))
    requires J.n1 == Names(J.l1) && J.b1 == Index(J.l1) && J.o1 == Contents(J.l1)
    requires J.n2 == Names(J.l2) && t.b2 == Index(J.l2) && J.o2 == Contents(J.l2)
    requires Disjoint(J.l1, J.l2) && Unlinked(J.l2)
    requires m2.files == J.l2 && m2.count == |m2.files| && m2.version == J.version
    requires t.mine == J.b1.Values + t.b2.Values && t.passed == {}
    ensures J.Mid(t, m2, 0, 0, 0)
  {
    hide Walk, Ascending, Distinct, Join.State, Join.All, Listed, Disjoint, Unlinked, Names, Index, Contents;
    WalkStart(J.n1, J.n2);
    ListedIndex(J.l1);
    ListedIndex(J.l2);
    StartState(J, t.b2, t.mine);
    assert |J.All() * {}| == 0;
  }

  /** What `match_manifests` leaves behind, from the two tables it was given. */
  ghost predicate Joined(m1: Manifest, m2: Manifest, o1: Entries, o2: Entries, minversion: int)
    reads m1`files, m1`count, m2`files, m2`count, m2`version
    reads m1.files`entry, m1.files`peer, m2.files`entry, m2.files`peer
  {
    && m1.Valid() && m2.Valid()
    && Contents(m1.files) == o1
    && Contents(m2.files) == Match(o1, o2, m2.version, minversion)
    && Linked(Index(m1.files), Index(m2.files), o1, o2)
  }

  lemma Conclude(J: Join, t: Trace, m1: Manifest, m2: Manifest, count: int)
    requires J.Mid(t, m2, |J.l1|, |J.l2|, count)
    requires m1.Valid() && Index(m1.files) == J.b1
    ensures Joined(m1, m2, J.o1, J.o2, J.minversion) && Index(m2.files) == t.b2
    ensures count == |Differences(J.o1, J.o2, J.minversion)|
  {
    hide Join.Mid, Match, Differences, Contents, Index, Linked, HasPeer, Join.Result, Distinct, Names;
    Finish(J, t, m2, count);
    FinishPeers(J, t, m2, count);
    MatchTable(J, m2.files);
    OldTable(J, m1.files);
  }

  /** What is done with the list after the merge: new records at its front call for a sort. */
  method SortIfNecessary(m2: Manifest, mustSort: bool, ghost J: Join, ghost t: Trace, ghost i: nat, ghost j: nat,
      ghost count: int)
    requires J.Mid(t, m2, i, j, count)
    requires mustSort || Ascending(Names(m2.files))
    modifies m2`files
    ensures J.Mid(t, m2, i, j, count) && Ascending(Names(m2.files))
  {
    hide Join.Shape, Join.State, Join.All, Walk, Listed, Ascending, Distinct, Names, Index, Contents, SameRecords;
    if mustSort {
      SortByFilename(m2);
    }
  }

  /** `match_manifests` after its first two sorts. */
  method MatchListed(m1: Manifest, m2: Manifest, minversion: int, ghost o1: Entries,
      ghost o2: Entries) returns (count: int)
    requires m1 != m2 && m1.Valid() && m2.Valid() && Disjoint(m1.files, m2.files)
    requires Ascending(Names(m1.files)) && Ascending(Names(m2.files))
    requires o1 == Contents(m1.files) && o2 == Contents(m2.files)
    requires Unlinked(m2.files)
    modifies m2`files, m2`count, Index(m1.files).Values`peer, Index(m2.files).Values`peer, Index(m2.files).Values`entry
    ensures Joined(m1, m2, o1, o2, minversion) && Ascending(Names(m2.files))
    ensures Grown(old(Index(m2.files)), Index(m2.files))
    ensures forall n | n in Index(m2.files) && n !in old(Index(m2.files)) ::
      fresh(Index(m2.files)[n]) && Index(m2.files)[n].renamePeer == null
    ensures count == |Differences(o1, o2, minversion)|
  {
    hide Ascending, Disjoint, Unlinked, Differences, Join.Mid, Names, Contents, Index, Distinct, Grown, Joined;
    ghost var J := Join(o1, o2, m1.files, m2.files, Names(m1.files), Names(m2.files), Index(m1.files), m2.version,
        minversion);
    ghost var t := Trace(Index(m2.files), J.b1.Values + Index(m2.files).Values, {});
    Start(m2, J, t);
    var mustSort;
    count, mustSort, t := MatchSorted(m2, m1.files, m2.files, minversion, J, t);
    SortIfNecessary(m2, mustSort, J, t, |m1.files|, |J.l2|, count);
    Conclude(J, t, m1, m2, count);
  }

  method SortBoth(m1: Manifest, m2: Manifest)
    requires m1 != m2 && m1.Valid() && m2.Valid() && Disjoint(m1.files, m2.files) && Unlinked(m2.files)
    modifies m1`files, m2`files
    ensures m1.Valid() && m2.Valid() && Disjoint(m1.files, m2.files) && Unlinked(m2.files)
    ensures Ascending(Names(m1.files)) && Ascending(Names(m2.files))
    ensures Index(m1.files) == old(Index(m1.files)) && Contents(m1.files) == old(Contents(m1.files))
    ensures Index(m2.files) == old(Index(m2.files)) && Contents(m2.files) == old(Contents(m2.files))
  {
    hide Ascending, Distinct, Disjoint, Unlinked, Names, Contents, Index, SameRecords;
    SortByFilename(m1);
    SameIndexFacts(m1.files, old(m1.files), m2.files);
    SortByFilename(m2);
    SameIndexFacts(m2.files, old(m2.files), m1.files);
  }

  /** `match_manifests`: the new manifest becomes the join of the two tables, records are linked by
      name, and the result is the number of names that were added, changed or newly deleted. */
  method MatchManifests(m1: Manifest, m2: Manifest, minversion: int) returns (count: int)
    requires m1 != m2 && m1.Valid() && m2.Valid() && Disjoint(m1.files, m2.files)
    requires Unlinked(m2.files)
    modifies m1`files, m2`files, m2`count, Index(m1.files).Values`peer, Index(m2.files).Values`peer,
        Index(m2.files).Values`entry
    ensures Joined(m1, m2, old(Contents(m1.files)), old(Contents(m2.files)), minversion)
    ensures Index(m1.files) == old(Index(m1.files)) && Grown(old(Index(m2.files)), Index(m2.files))
    ensures forall n | n in Index(m2.files) && n !in old(Index(m2.files)) ::
      fresh(Index(m2.files)[n]) && Index(m2.files)[n].renamePeer == null
    ensures count == |Differences(old(Contents(m1.files)), old(Contents(m2.files)), minversion)|
    ensures Ascending(Names(m2.files))
  {
    hide Ascending, Distinct, Disjoint, Unlinked, Joined, Differences, Names, Contents, Index, Grown, SameRecords;
    SortBoth(m1, m2);
    ghost var o1, o2 := Contents(m1.files), Contents(m2.files);
    count := MatchListed(m1, m2, minversion, o1, o2);
  }

  // ----- matching two manifests that were just read or walked -----

  ghost predicate AllNull(files: seq<File>)
    reads files`renamePeer
  {
    forall f | f in files :: f.renamePeer == null
  }

  /** The manifests once they are matched. */
  ghost predicate MatchedPair(older: Manifest, end: Manifest, o1: Entries, o2: Entries, minversion: int)
    reads older`files, older`count, end`files, end`count, end`version, older.files`entry, older.files`peer,
        end.files`entry, end.files`peer, end.files`renamePeer
  {
    Joined(older, end, o1, o2, minversion) && AllNull(end.files) && Disjoint(older.files, end.files)
  }

  lemma AllNullByName(files: seq<File>)
    requires Distinct(Names(files)) && forall n | n in Index(files) :: Index(files)[n].renamePeer == null
    ensures AllNull(files)
  {
    hide Distinct, Names, Index;
    forall f | f in files
      ensures f.renamePeer == null
    {
      RecordOf(files, f);
    }
  }

  lemma NullByName(files: seq<File>)
    requires Distinct(Names(files)) && AllNull(files)
    ensures forall n | n in Index(files) :: Index(files)[n].renamePeer == null
  {
    hide Distinct, Names;
  }

  method MatchRecords(older: Manifest, end: Manifest, minversion: int) returns (count: int)
    requires older != end && older.Valid() && end.Valid() && Disjoint(older.files, end.files)
    requires Unlinked(end.files) && AllNull(end.files)
    modifies older`files, end`files, end`count
    modifies Index(older.files).Values`peer, Index(end.files).Values`peer, Index(end.files).Values`entry
    ensures MatchedPair(older, end, old(Contents(older.files)), old(Contents(end.files)), minversion)
    ensures Index(older.files) == old(Index(older.files))
    ensures count == |Differences(old(Contents(older.files)), old(Contents(end.files)), minversion)|
    ensures forall n | n in old(Index(end.files)) ::
      n in Index(end.files) && Index(end.files)[n] == old(Index(end.files))[n]
    ensures forall n | n in Index(end.files) ::
      Index(end.files)[n] in old(Index(end.files)).Values || fresh(Index(end.files)[n])
  {
    hide Distinct, Names, Index, Unlinked, Joined, AllNull, Contents, Match, Differences, Grown, Disjoint;
    ghost var b1, b2 := Index(older.files), Index(end.files);
    NullByName(end.files);
    DisjointFacts(older.files, end.files);
    count := MatchManifests(older, end, minversion);
    JoinedValid(older, end, old(Contents(older.files)), old(Contents(end.files)), minversion);
    ghost var b2' := Index(end.files);
    StillThere(b2, b2');
    assert forall n | n in b2' :: b2'[n].renamePeer == null;
    AllNullByName(end.files);
    assert forall n | n in b1 && n in b2' :: b1[n] != b2'[n];
    IsDisjoint(older.files, end.files);
  }

  lemma DisjointFacts(a: seq<File>, b: seq<File>)
    requires Distinct(Names(a)) && Distinct(Names(b)) && Disjoint(a, b)
    ensures forall n | n in Index(a) && n in Index(b) :: Index(a)[n] != Index(b)[n]
  {
  }

  lemma IsDisjoint(a: seq<File>, b: seq<File>)
    requires Distinct(Names(a)) && Distinct(Names(b))
    requires forall n | n in Index(a) && n in Index(b) :: Index(a)[n] != Index(b)[n]
    ensures Disjoint(a, b)
  {
  }

  lemma StillThere(b: map<string, File>, b': map<string, File>)
    requires Grown(b, b')
    ensures forall n | n in b :: n in b' && b'[n] == b[n]
  {
  }

  lemma JoinedValid(m1: Manifest, m2: Manifest, o1: Entries, o2: Entries, minversion: int)
    requires Joined(m1, m2, o1, o2, minversion)
    ensures m1.Valid() && m2.Valid()
  {
  }
}
