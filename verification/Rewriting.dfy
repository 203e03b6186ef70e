/** The loops of the release that change records in place: `apply_heuristics` (src/heuristics.c),
    `add_component_hashes_to_manifest` (src/analyze_fs.c), `maximize_version_manifests` and
    `prune_manifest` (src/manifest.c). */
module Rewriting {
  import opened Strings
  import opened Sorting
  import opened Files
  import opened Heuristics
  import opened Pruning
  import opened Release
  import opened Lists
  import opened Subtracting

  // ----- a table that is rewritten name by name -----

  /** The records of the names in `done` hold what the second table says, the others what the first says. */
  ghost predicate Halfway(idx: map<string, File>, o: Entries, o': Entries, done: set<string>)
    requires o.Keys == idx.Keys && o'.Keys == idx.Keys
    reads idx.Values`entry
  {
    forall n | n in idx :: idx[n].filename == n && idx[n].entry == if n in done then o'[n] else o[n]
  }

  lemma HalfwayStarts(l: seq<File>, o': Entries)
    requires Distinct(Names(l)) && o'.Keys == Index(l).Keys
    ensures Halfway(Index(l), Contents(l), o', {})
  {
    hide Distinct, Names, Index;
  }

  lemma HalfwayEnds(l: seq<File>, idx: map<string, File>, o: Entries, o': Entries, done: set<string>)
    requires Distinct(Names(l)) && Index(l) == idx && o.Keys == idx.Keys && o'.Keys == idx.Keys
    requires Halfway(idx, o, o', done) && forall n | n in idx :: n in done || o[n] == o'[n]
    ensures Contents(l) == o'
  {
    hide Distinct, Names, Index;
  }

  lemma HalfwaySkips(idx: map<string, File>, o: Entries, o': Entries, done: set<string>, n: string)
    requires o.Keys == idx.Keys && o'.Keys == idx.Keys && Halfway(idx, o, o', done)
    requires n !in idx || n in done || o[n] == o'[n]
    ensures Halfway(idx, o, o', done + {n})
  {
  }

  /** The names of the first k records. */
  ghost function FirstNames(l: seq<File>, k: nat): set<string>
    requires k <= |l|
  {
    set i | 0 <= i < k :: l[i].filename
  }

  lemma FirstNamesStep(l: seq<File>, k: nat)
    requires Distinct(Names(l)) && k < |l|
    ensures FirstNames(l, k + 1) == FirstNames(l, k) + {l[k].filename} && l[k].filename !in FirstNames(l, k)
  {
    forall i | 0 <= i < k
      ensures l[i].filename != l[k].filename
    {
      assert Names(l)[i] != Names(l)[k];
    }
  }

  lemma FirstNamesEnd(l: seq<File>)
    requires Distinct(Names(l))
    ensures FirstNames(l, 0) == {} && forall n | n in Index(l) :: n in FirstNames(l, |l|)
  {
    hide Distinct, Names;
  }

  // ----- apply_heuristics -----

  method ConfigFileHeuristics(file: File)
    modifies file`entry
    ensures file.entry == old(file.entry).(isConfig := old(file.entry).isConfig || ConfigPath(file.filename))
  {
    if ConfigPath(file.filename) {
      file.entry := file.entry.(isConfig := true);
    }
  }

  method RuntimeStateHeuristics(file: File)
    modifies file`entry
    ensures file.entry == old(file.entry).(isState := old(file.entry).isState || StatePath(file.filename))
  {
    hide AnyPrefix, HasPrefix, SHIPPED_DIRECTORIES, STATE_CONTENTS, STATE_DIRECTORIES;
    if file.filename in SHIPPED_DIRECTORIES {
      return;
    }
    if HasPrefix(file.filename, "/usr/src/kernel/") {
      return;
    }
    if AnyPrefix(file.filename, STATE_CONTENTS) {
      file.entry := file.entry.(isState := true);
      return;
    }
    if AnyPrefix(file.filename, STATE_DIRECTORIES) {
      file.entry := file.entry.(isState := true);
      return;
    }
  }

  method BootFileHeuristics(file: File)
    modifies file`entry
    ensures file.entry == old(file.entry).(isBoot := old(file.entry).isBoot || BootPath(file.filename))
  {
    hide AnyPrefix, BOOT_PREFIXES;
    if BootPath(file.filename) {
      file.entry := file.entry.(isBoot := true);
    }
  }

  method MarkFile(file: File, ghost idx: map<string, File>, ghost o: Entries, ghost done: set<string>)
    requires o.Keys == idx.Keys && Halfway(idx, o, Marked(o), done)
    requires file.filename in idx && idx[file.filename] == file && file.filename !in done
    modifies file`entry
    ensures Halfway(idx, o, Marked(o), done + {file.filename})
  {
    hide ConfigPath, StatePath, BootPath;
    ConfigFileHeuristics(file);
    RuntimeStateHeuristics(file);
    BootFileHeuristics(file);
  }

  /** `apply_heuristics`. */
  method ApplyHeuristics(m: Manifest)
    requires Distinct(Names(m.files))
    modifies Index(m.files).Values`entry
    ensures Contents(m.files) == Marked(old(Contents(m.files)))
  {
    hide Distinct, Names, Index, Contents, Halfway, Marked, FirstNames;
    ghost var l, idx, o := m.files, Index(m.files), Contents(m.files);
    HalfwayStarts(l, Marked(o));
    FirstNamesEnd(l);
    for k := 0 to |m.files|
      invariant Halfway(idx, o, Marked(o), FirstNames(l, k))
    {
      FirstNamesStep(l, k);
      IsRecord(l, k);
      MarkFile(m.files[k], idx, o, FirstNames(l, k));
    }
    HalfwayEnds(l, idx, o, Marked(o), FirstNames(l, |l|));
  }

  // ----- maximize_version_manifests -----

  /** One merge of a bundle with the full manifest, whose records are rewritten. */
  datatype Merge = Merge(l1: seq<File>, l2: seq<File>, n1: seq<string>, n2: seq<string>, idx: map<string, File>,
      o1: Entries, o2: Entries, o': Entries)
  {
    ghost predicate Sides()
      reads l1`entry
    {
      && Distinct(Names(l1)) && Distinct(Names(l2)) && n1 == Names(l1) && n2 == Names(l2)
      && idx == Index(l2) && o2.Keys == idx.Keys && o'.Keys == idx.Keys && Contents(l1) == o1
      && o1.Keys == Index(l1).Keys
      && (forall k | 0 <= k < |l1| :: l1[k] !in idx.Values)
    }

    ghost predicate At(i: nat, j: nat, passed: set<string>)
      reads l1`entry, idx.Values`entry
    {
      && Sides() && Walk(n1, i, n2, j, passed) && i <= |l1| && j <= |l2|
      && Halfway(idx, o2, o', FirstNames(l2, j))
    }
  }

  lemma Beside(g: Merge, i: nat, j: nat, passed: set<string>)
    requires g.At(i, j, passed)
    ensures i < |g.l1| ==>
      g.l1[i].filename in g.o1 && g.o1[g.l1[i].filename] == g.l1[i].entry && g.l1[i] !in g.idx.Values
    ensures j < |g.l2| ==> var n := g.l2[j].filename;
      && n in g.idx && g.idx[n] == g.l2[j] && n !in FirstNames(g.l2, j)
      && FirstNames(g.l2, j + 1) == FirstNames(g.l2, j) + {n} && g.l2[j].entry == g.o2[n]
  {
    hide Distinct, Names, Index, Contents, Walk, FirstNames;
    if i < |g.l1| {
      IsRecord(g.l1, i);
    }
    if j < |g.l2| {
      IsRecord(g.l2, j);
      FirstNamesStep(g.l2, j);
    }
  }

  /** A name of the full manifest that the bundle does not list. */
  lemma OnlyRight(g: Merge, i: nat, j: nat, passed: set<string>)
    requires g.At(i, j, passed) && j < |g.l2| && (i < |g.l1| ==> Less(g.l2[j].filename, g.l1[i].filename))
    ensures g.l2[j].filename !in g.o1
    ensures Walk(g.n1, i, g.n2, j + 1, passed + {g.l2[j].filename})
  {
    hide Distinct, Index, Contents, Walk, FirstNames, Less, Halfway;
    WalkRight(g.n1, i, g.n2, j, passed);
    if g.l2[j].filename in g.o1 {
      InNames(g.l1, g.l2[j].filename);
    }
  }

  lemma InNames(l: seq<File>, n: string)
    requires Distinct(Names(l)) && n in Index(l)
    ensures n in Names(l)
  {
    hide Distinct;
    var i :| 0 <= i < |l| && l[i] == Index(l)[n];
    assert Names(l)[i] == n;
  }

  lemma StepOver(g: Merge, i: nat, j: nat, passed: set<string>)
    requires g.At(i, j, passed) && i < |g.l1| && j < |g.l2| && Less(g.l1[i].filename, g.l2[j].filename)
    ensures g.At(i + 1, j, passed + {g.l1[i].filename})
  {
    hide Distinct, Index, Contents, Walk, FirstNames, Less, Halfway;
    WalkLeft(g.n1, i, g.n2, j, passed);
  }

  /** Names that the first list does not have keep their entries. */
  ghost predicate Local(g: Merge) {
    forall n | n in g.o2 && n !in g.o1 :: n in g.o' && g.o'[n] == g.o2[n]
  }

  lemma MaximizeIsLocal(g: Merge)
    requires g.o' == Maximize(g.o1, g.o2)
    ensures Local(g)
  {
  }

  lemma StepRight(g: Merge, i: nat, j: nat, passed: set<string>)
    requires g.At(i, j, passed) && j < |g.l2| && (i < |g.l1| ==> Less(g.l2[j].filename, g.l1[i].filename))
    requires Local(g)
    ensures g.At(i, j + 1, passed + {g.l2[j].filename})
  {
    hide Distinct, Names, Index, Contents, Walk, FirstNames, Less, Halfway;
    Beside(g, i, j, passed);
    OnlyRight(g, i, j, passed);
    HalfwaySkips(g.idx, g.o2, g.o', FirstNames(g.l2, j), g.l2[j].filename);
  }

  lemma Elsewhere(g: Merge, i: nat, j: nat, passed: set<string>)
    requires g.At(i, j, passed) && j < |g.l2|
    ensures g.l2[j] !in g.l1 && g.Sides() && g.l2[j] == g.idx[g.l2[j].filename]
  {
    hide Distinct, Names, Index, Contents, Walk, FirstNames, Halfway;
    IsRecord(g.l2, j);
  }

  /** What `Maximize` says about a name that both list. */
  lemma LaterRelease(g: Merge, i: nat, j: nat, passed: set<string>)
    requires g.At(i, j, passed) && i < |g.l1| && j < |g.l2| && g.l1[i].filename == g.l2[j].filename
    requires g.o' == Maximize(g.o1, g.o2)
    ensures g.o'[g.l2[j].filename] ==
      if !g.l1[i].entry.isDeleted && g.l1[i].entry.lastChange > g.l2[j].entry.lastChange
      then g.l2[j].entry.(lastChange := g.l1[i].entry.lastChange) else g.l2[j].entry
  {
    hide Distinct, Names, Index, Contents, Walk, FirstNames, Halfway;
    Beside(g, i, j, passed);
  }

  /** A record gets its new entry. */
  method Rewrite(file: File, e: Entry, ghost idx: map<string, File>, ghost o: Entries, ghost o': Entries,
      ghost done: set<string>)
    requires o.Keys == idx.Keys && o'.Keys == idx.Keys && Halfway(idx, o, o', done)
    requires file.filename in idx && idx[file.filename] == file && e == o'[file.filename]
    modifies file`entry
    ensures Halfway(idx, o, o', done + {file.filename})
  {
    file.entry := e;
  }

  /** Both list the name: the full manifest takes the later release. */
  method StepSame(file1: File, file2: File, ghost g: Merge, ghost i: nat, ghost j: nat, ghost passed: set<string>)
    requires g.At(i, j, passed) && i < |g.l1| && j < |g.l2| && file1 == g.l1[i] && file2 == g.l2[j]
    requires file1.filename == file2.filename && g.o' == Maximize(g.o1, g.o2)
    modifies file2`entry
    ensures g.At(i + 1, j + 1, passed + {file1.filename})
  {
    hide Distinct, Names, Index, Walk, FirstNames, Contents, Halfway, Maximize, Merge.Sides;
    Beside(g, i, j, passed);
    Elsewhere(g, i, j, passed);
    LaterRelease(g, i, j, passed);
    SidesFacts(g);
    WalkBoth(g.n1, i, g.n2, j, passed);
    if !file1.entry.isDeleted && file1.entry.lastChange > file2.entry.lastChange {
      Rewrite(file2, file2.entry.(lastChange := file1.entry.lastChange), g.idx, g.o2, g.o', FirstNames(g.l2, j));
    } else {
      HalfwaySkips(g.idx, g.o2, g.o', FirstNames(g.l2, j), file2.filename);
    }
  }

  lemma SidesFacts(g: Merge)
    requires g.Sides()
    ensures g.n1 == Names(g.l1) && g.n2 == Names(g.l2) && g.o2.Keys == g.idx.Keys && g.o'.Keys == g.idx.Keys
  {
    hide Distinct, Names, Index, Contents;
  }

  lemma MergeStarts(l1: seq<File>, l2: seq<File>, o': Entries)
    requires Distinct(Names(l1)) && Distinct(Names(l2)) && Ascending(Names(l1)) && Ascending(Names(l2))
    requires Disjoint(l1, l2)
    requires o'.Keys == Contents(l2).Keys
    ensures Merge(l1, l2, Names(l1), Names(l2), Index(l2), Contents(l1), Contents(l2), o').At(0, 0, {})
  {
    hide Distinct, Names, Index, Contents, Walk, Ascending, Halfway;
    WalkStart(Names(l1), Names(l2));
    HalfwayStarts(l2, o');
    FirstNamesEnd(l2);
    forall k | 0 <= k < |l1|
      ensures l1[k] !in Index(l2).Values
    {
      IsRecord(l1, k);
    }
  }

  lemma MergeEnds(g: Merge, i: nat, j: nat, passed: set<string>)
    requires g.At(i, j, passed) && (i == |g.l1| || j == |g.l2|) && Local(g)
    ensures Contents(g.l1) == g.o1 && Contents(g.l2) == g.o'
    decreases |g.l2| - j
  {
    hide Distinct, Names, Index, Contents, Walk, Halfway, FirstNames, Less;
    if j == |g.l2| {
      FirstNamesEnd(g.l2);
      HalfwayEnds(g.l2, g.idx, g.o2, g.o', FirstNames(g.l2, j));
    } else {
      StepRight(g, i, j, passed);
      MergeEnds(g, i, j + 1, passed + {g.l2[j].filename});
    }
  }

  /** One round of the loop of `maximize_version_manifests`. */
  method MaximizeStep(l1: seq<File>, l2: seq<File>, i: nat, j: nat, ghost g: Merge, ghost passed: set<string>)
    returns (i': nat, j': nat, ghost passed': set<string>)
    requires g.At(i, j, passed) && l1 == g.l1 && l2 == g.l2 && i < |l1| && j < |l2| && g.o' == Maximize(g.o1, g.o2)
    modifies g.idx.Values`entry
    ensures g.At(i', j', passed') && i <= i' <= |l1| && j <= j' <= |l2| && i + j < i' + j'
  {
    hide Distinct, Names, Index, Contents, Merge.At, Maximize, Strcmp, Local;
    var file1: File, file2: File := l1[i], l2[j];
    MaximizeIsLocal(g);
    Elsewhere(g, i, j, passed);
    Beside(g, i, j, passed);
    i', j', passed' := i, j, passed;
    var ret := Strcmp(file1.filename, file2.filename);
    if ret == 0 {
      StepSame(file1, file2, g, i, j, passed);
      i', j', passed' := i + 1, j + 1, passed + {file1.filename};
    } else if ret < 0 {
      StepOver(g, i, j, passed);
      i', passed' := i + 1, passed + {file1.filename};
    } else {
      Antisymmetric(file1.filename, file2.filename);
      StepRight(g, i, j, passed);
      j', passed' := j + 1, passed + {file2.filename};
    }
  }

  /** The loop of `maximize_version_manifests` on two sorted lists. */
  method MaximizeSorted(l1: seq<File>, l2: seq<File>)
    requires Distinct(Names(l1)) && Distinct(Names(l2)) && Ascending(Names(l1)) && Ascending(Names(l2))
    requires Disjoint(l1, l2)
    modifies Index(l2).Values`entry
    ensures Contents(l1) == old(Contents(l1)) && Contents(l2) == Maximize(old(Contents(l1)), old(Contents(l2)))
  {
    hide Distinct, Names, Index, Contents, Ascending, Merge.At, Maximize, Strcmp, Disjoint;
    ghost var o1, o2 := Contents(l1), Contents(l2);
    ghost var g := Merge(l1, l2, Names(l1), Names(l2), Index(l2), o1, o2, Maximize(o1, o2));
    MergeStarts(l1, l2, Maximize(o1, o2));
    var i: nat, j: nat := 0, 0;
    ghost var passed: set<string> := {};
    while i < |l1| && j < |l2|
      invariant g.At(i, j, passed) && i <= |l1| && j <= |l2|
      decreases |l1| - i + |l2| - j
    {
      i, j, passed := MaximizeStep(l1, l2, i, j, g, passed);
    }
    MaximizeIsLocal(g);
    MergeEnds(g, i, j, passed);
  }

  /** `maximize_version_manifests`. */
  method MaximizeVersionManifests(m1: Manifest, m2: Manifest)
    requires m1 != m2 && m1.Valid() && m2.Valid() && Disjoint(m1.files, m2.files)
    modifies m1`files, m2`files, Index(m2.files).Values`entry
    ensures m1.Valid() && Contents(m1.files) == old(Contents(m1.files)) && Index(m1.files) == old(Index(m1.files))
    ensures m2.Valid() && Contents(m2.files) == Maximize(old(Contents(m1.files)), old(Contents(m2.files)))
    ensures Index(m2.files) == old(Index(m2.files))
  {
    hide Distinct, Names, Index, Contents, Ascending, Maximize, SameRecords, Disjoint;
    ghost var l1, l2 := m1.files, m2.files;
    SortByFilename(m1);
    SameIndexFacts(m1.files, l1, m2.files);
    SortByFilename(m2);
    SameIndexFacts(m2.files, l2, m1.files);
    SortedApart(m1, m2);
    MaximizeSorted(m1.files, m2.files);
  }

  // ----- add_component_hashes_to_manifest -----

  /** The names of the full manifest that are deleted: the merge does not look at them. */
  function DeletedNames(m: Entries): set<string> {
    set n | n in m && m[n].isDeleted
  }

  lemma HashesAreLocal(g: Merge, full: Entries)
    requires g.o1 == full - DeletedNames(full) && g.o' == AddHashes(g.o2, full)
    ensures Local(g)
  {
  }

  /** Where the cursor on the full list stands among the records that are not deleted. */
  lemma LiveCursor(l: seq<File>, p: nat, gone: set<string>)
    requires p < |l|
    ensures l[p].filename !in gone ==>
      |Keep(l[..p], gone)| < |Keep(l, gone)| && Keep(l, gone)[|Keep(l[..p], gone)|] == l[p]
      && |Keep(l[..p + 1], gone)| == |Keep(l[..p], gone)| + 1
    ensures l[p].filename in gone ==> |Keep(l[..p + 1], gone)| == |Keep(l[..p], gone)|
  {
    KeepStep(l, p, gone);
    KeepSplits(l, p + 1, gone);
  }

  lemma HashOf(g: Merge, i: nat, j: nat, passed: set<string>, full: Entries)
    requires g.At(i, j, passed) && i < |g.l1| && j < |g.l2| && g.l1[i].filename == g.l2[j].filename
    requires g.o1 == full - DeletedNames(full) && g.o' == AddHashes(g.o2, full)
    ensures g.o'[g.l2[j].filename] == g.l2[j].entry.(hash := g.l1[i].entry.hash)
  {
    hide Distinct, Names, Index, Contents, Walk, FirstNames, Halfway;
    Beside(g, i, j, passed);
  }

  /** `hash_assign(file2->hash, file1->hash)` */
  method StepHash(file2: File, file1: File, ghost g: Merge, ghost i: nat, ghost j: nat, ghost passed: set<string>,
      ghost full: Entries)
    requires g.At(i, j, passed) && i < |g.l1| && j < |g.l2| && file2 == g.l1[i] && file1 == g.l2[j]
    requires file1.filename == file2.filename
    requires g.o1 == full - DeletedNames(full) && g.o' == AddHashes(g.o2, full)
    modifies file1`entry
    ensures g.At(i + 1, j + 1, passed + {file1.filename})
  {
    hide Distinct, Names, Index, Walk, FirstNames, Contents, Halfway, AddHashes, Merge.Sides, DeletedNames;
    Beside(g, i, j, passed);
    Elsewhere(g, i, j, passed);
    HashOf(g, i, j, passed, full);
    SidesFacts(g);
    WalkBoth(g.n1, i, g.n2, j, passed);
    Rewrite(file1, file1.entry.(hash := file2.entry.hash), g.idx, g.o2, g.o', FirstNames(g.l2, j));
  }

  lemma HashesStart(comp: seq<File>, full: seq<File>)
    requires Distinct(Names(comp)) && Distinct(Names(full)) && Ascending(Names(comp)) && Ascending(Names(full))
    requires Disjoint(comp, full)
    ensures var f := Contents(full); var live := Keep(full, DeletedNames(f)); var o := Contents(comp);
      && Merge(live, comp, Names(live), Names(comp), Index(comp), f - DeletedNames(f), o, AddHashes(o, f)).At(0, 0, {})
      && (forall k | 0 <= k < |full| :: full[k] !in Index(comp).Values)
  {
    hide Distinct, Names, Index, Contents, Ascending, AddHashes, DeletedNames, Merge.At, Keep;
    var f := Contents(full);
    var gone := DeletedNames(f);
    KeepNames(full, gone);
    KeepContents(full, gone);
    KeepIndex(full, gone);
    MergeStarts(Keep(full, gone), comp, AddHashes(Contents(comp), f));
    forall k | 0 <= k < |full|
      ensures full[k] !in Index(comp).Values
    {
      IsRecord(full, k);
    }
  }

  /** One round of the loop of `add_component_hashes_to_manifest`: p is the cursor on the full list, i where it
      stands among the records that are not deleted. */
  method HashStep(comp: seq<File>, full: seq<File>, j: nat, p: nat, ghost g: Merge, ghost i: nat,
      ghost passed: set<string>, ghost f: Entries)
    returns (j': nat, p': nat, ghost i': nat, ghost passed': set<string>)
    requires g.At(i, j, passed) && comp == g.l2 && j < |comp| && p < |full| && i == |Keep(full[..p], DeletedNames(f))|
    requires g.l1 == Keep(full, DeletedNames(f)) && g.o1 == f - DeletedNames(f) && g.o' == AddHashes(g.o2, f)
    requires Distinct(Names(full)) && full[p].filename in f && full[p].entry.isDeleted == f[full[p].filename].isDeleted
    modifies g.idx.Values`entry
    ensures j <= j' <= |comp| && p <= p' <= |full| && j + p < j' + p' && i' == |Keep(full[..p'], DeletedNames(f))|
    ensures g.At(i', j', passed')
  {
    hide Distinct, Names, Index, Contents, Merge.At, AddHashes, Strcmp, Local, Keep, DeletedNames, FirstNames, Less,
      Merge.Sides, Walk, Halfway, Ascending, Disjoint;
    LiveCursor(full, p, DeletedNames(f));
    IsDeletedName(f, full[p].filename);
    var file1: File, file2: File := comp[j], full[p];
    j', p', i', passed' := j, p, i, passed;
    var ret := Strcmp(file1.filename, file2.filename);
    if file2.entry.isDeleted {
      p' := p + 1;
      return;
    }
    HashesAreLocal(g, f);
    Elsewhere(g, i, j, passed);
    Beside(g, i, j, passed);
    if ret == 0 {
      StepHash(file2, file1, g, i, j, passed, f);
      j', p', i', passed' := j + 1, p + 1, i + 1, passed + {file1.filename};
    } else if ret < 0 {
      assert Less(file1.filename, file2.filename) by { Smaller(file1.filename, file2.filename); }
      StepRight(g, i, j, passed);
      j', passed' := j + 1, passed + {file1.filename};
    } else {
      Antisymmetric(file1.filename, file2.filename);
      assert Less(file2.filename, file1.filename) by { Smaller(file2.filename, file1.filename); }
      StepOver(g, i, j, passed);
      p', i', passed' := p + 1, i + 1, passed + {file2.filename};
    }
  }

  lemma IsDeletedName(m: Entries, n: string)
    requires n in m
    ensures n in DeletedNames(m) <==> m[n].isDeleted
  {
  }

  lemma HashesEnd(g: Merge, i: nat, j: nat, passed: set<string>, full: seq<File>, p: nat, f: Entries)
    requires g.At(i, j, passed) && p <= |full| && i == |Keep(full[..p], DeletedNames(f))|
    requires (j == |g.l2| || p == |full|)
    requires g.l1 == Keep(full, DeletedNames(f)) && g.o1 == f - DeletedNames(f) && g.o' == AddHashes(g.o2, f)
    ensures Contents(g.l2) == g.o'
  {
    hide Distinct, Names, Index, Contents, Merge.At, AddHashes, Local, Keep, DeletedNames;
    assert full[..|full|] == full;
    HashesAreLocal(g, f);
    MergeEnds(g, i, j, passed);
  }

  /** The entries of a list, as they were. */
  ghost predicate Frozen(l: seq<File>, f: Entries)
    reads l`entry
  {
    forall k | 0 <= k < |l| :: l[k].filename in f && f[l[k].filename] == l[k].entry
  }

  lemma FrozenNow(l: seq<File>)
    requires Distinct(Names(l))
    ensures Frozen(l, Contents(l))
  {
    hide Distinct, Names, Index, Contents;
    forall k | 0 <= k < |l|
      ensures l[k].filename in Contents(l) && Contents(l)[l[k].filename] == l[k].entry
    {
      IsRecord(l, k);
    }
  }

  /** The loop of `add_component_hashes_to_manifest` on two sorted lists. */
  method HashSorted(comp: seq<File>, full: seq<File>)
    requires Distinct(Names(comp)) && Distinct(Names(full)) && Ascending(Names(comp)) && Ascending(Names(full))
    requires Disjoint(comp, full)
    modifies Index(comp).Values`entry
    ensures Contents(full) == old(Contents(full))
    ensures Contents(comp) == AddHashes(old(Contents(comp)), old(Contents(full)))
  {
    hide Distinct, Names, Index, Contents, Ascending, Merge.At, AddHashes, Strcmp, Disjoint, DeletedNames, Keep, Frozen;
    ghost var f, o := Contents(full), Contents(comp);
    ghost var live := Keep(full, DeletedNames(f));
    ghost var g := Merge(live, comp, Names(live), Names(comp), Index(comp), f - DeletedNames(f), o, AddHashes(o, f));
    HashesStart(comp, full);
    FrozenNow(full);
    EmptyKeep(full, DeletedNames(f));
    var j: nat, p: nat := 0, 0;
    ghost var i: nat, passed: set<string> := 0, {};
    while j < |comp| && p < |full|
      invariant g.At(i, j, passed) && j <= |comp| && p <= |full| && i == |Keep(full[..p], DeletedNames(f))|
      invariant Frozen(full, f)
      decreases |comp| - j + |full| - p
    {
      IsFrozen(full, f, p);
      j, p, i, passed := HashStep(comp, full, j, p, g, i, passed, f);
    }
    HashesEnd(g, i, j, passed, full, p, f);
    FrozenContents(full, f);
  }

  lemma EmptyKeep(l: seq<File>, gone: set<string>)
    ensures |Keep(l[..0], gone)| == 0
  {
  }

  lemma IsFrozen(l: seq<File>, f: Entries, p: nat)
    requires Frozen(l, f) && p < |l|
    ensures l[p].filename in f && l[p].entry.isDeleted == f[l[p].filename].isDeleted
  {
  }

  lemma FrozenContents(l: seq<File>, f: Entries)
    requires Distinct(Names(l)) && Frozen(l, f) && f.Keys == Index(l).Keys
    ensures Contents(l) == f
  {
    hide Distinct, Names, Index;
    forall n | n in Index(l)
      ensures Index(l)[n].entry == f[n]
    {
      assert Index(l)[n] in l;
    }
  }

  /** `add_component_hashes_to_manifest`. */
  method AddComponentHashesToManifest(compm: Manifest, fullm: Manifest)
    requires compm != fullm && compm.Valid() && fullm.Valid() && Disjoint(compm.files, fullm.files)
    modifies compm`files, fullm`files, Index(compm.files).Values`entry
    ensures fullm.Valid() && Contents(fullm.files) == old(Contents(fullm.files))
    ensures Index(fullm.files) == old(Index(fullm.files))
    ensures compm.Valid() && Contents(compm.files) == AddHashes(old(Contents(compm.files)), old(Contents(fullm.files)))
    ensures Index(compm.files) == old(Index(compm.files))
  {
    hide Distinct, Names, Index, Contents, Ascending, AddHashes, SameRecords, Disjoint;
    ghost var l1, l2 := compm.files, fullm.files;
    SortByFilename(compm);
    SameIndexFacts(compm.files, l1, fullm.files);
    SortByFilename(fullm);
    SameIndexFacts(fullm.files, l2, compm.files);
    SortedApart(compm, fullm);
    HashSorted(compm.files, fullm.files);
  }

  // ----- prune_manifest -----

  /** The names that pruning deletes. */
  ghost function Banned(cfg: Config, o: Entries): set<string> {
    set n | n in o && PruneEntry(cfg, n, o[n]).None?
  }

  /** The entries before the deletions. */
  ghost function Ghosted(cfg: Config, o: Entries): (r: Entries)
    ensures r.Keys == o.Keys
  {
    map n | n in o :: if PruneEntry(cfg, n, o[n]).Some? then PruneEntry(cfg, n, o[n]).value else o[n]
  }

  lemma PruneSplits(cfg: Config, o: Entries)
    ensures Ghosted(cfg, o) - Banned(cfg, o) == Prune(cfg, o)
  {
    hide PruneEntry;
  }

  lemma PruneOf(cfg: Config, o: Entries, n: string)
    requires n in o
    ensures var e := o[n];
      if cfg.stateless && !e.isDeleted && e.isConfig then n in Banned(cfg, o) && Ghosted(cfg, o)[n] == e
      else if e.isBoot && e.isDeleted then
        n !in Banned(cfg, o) && Ghosted(cfg, o)[n] == e.(isDeleted := false, isGhosted := true)
      else Ghosted(cfg, o)[n] == e && (n in Banned(cfg, o) <==> AnyPrefix(n, cfg.banned))
  {
    hide AnyPrefix;
  }

  /** Where the pruning walk stands. */
  datatype Walk1 = Walk1(cfg: Config, l: seq<File>, idx: map<string, File>, o: Entries)
  {
    ghost predicate At(files: seq<File>, at: nat, i: nat)
      reads idx.Values`entry
    {
      && Distinct(Names(l)) && idx == Index(l) && o.Keys == idx.Keys
      && Pruned(files, at, l, i, Banned(cfg, o)) && Halfway(idx, o, Ghosted(cfg, o), FirstNames(l, i))
    }
  }

  lemma PruneStarts(cfg: Config, l: seq<File>)
    requires Distinct(Names(l))
    ensures Walk1(cfg, l, Index(l), Contents(l)).At(l, 0, 0)
  {
    hide Distinct, Names, Index, Contents, Halfway, Pruned, FirstNames;
    PrunedStart(l, Banned(cfg, Contents(l)));
    FirstNamesEnd(l);
    HalfwayStarts(l, Ghosted(cfg, Contents(l)));
  }

  lemma PruneUnder(w: Walk1, files: seq<File>, at: nat, i: nat)
    requires w.At(files, at, i)
    ensures i <= |w.l| && at <= |files| && (at < |files| <==> i < |w.l|)
    ensures at < |files| ==> var n := files[at].filename;
      files[at] == w.l[i] && n in w.idx && w.idx[n] == files[at] && n in w.o && w.o[n] == files[at].entry
  {
    hide Distinct, Names, Index, Contents, FirstNames, Banned, Ghosted;
    PrunedUnder(files, at, w.l, i, Banned(w.cfg, w.o));
    if at < |files| {
      IsRecord(w.l, i);
      FirstNamesStep(w.l, i);
    }
  }

  lemma PruneMoves(w: Walk1, files: seq<File>, at: nat, i: nat)
    requires w.At(files, at, i) && at < |files|
    ensures i < |w.l| && FirstNames(w.l, i + 1) == FirstNames(w.l, i) + {files[at].filename}
    ensures files[at].filename in Banned(w.cfg, w.o) ==>
      Pruned(files[..at] + files[at + 1..], at, w.l, i + 1, Banned(w.cfg, w.o))
    ensures files[at].filename !in Banned(w.cfg, w.o) ==> Pruned(files, at + 1, w.l, i + 1, Banned(w.cfg, w.o))
  {
    hide Distinct, Names, Index, Contents, FirstNames, Banned, Ghosted, Pruned, Halfway;
    PruneUnder(w, files, at, i);
    FirstNamesStep(w.l, i);
    if files[at].filename in Banned(w.cfg, w.o) {
      PrunedDelete(files, at, w.l, i, Banned(w.cfg, w.o));
    } else {
      PrunedKeep(files, at, w.l, i, Banned(w.cfg, w.o));
    }
  }

  /** One round of the first loop of `prune_manifest`. */
  method PruneStep(files: seq<File>, at: nat, cfg: Config, ghost w: Walk1, ghost i: nat) returns (deleted: bool)
    requires w.At(files, at, i) && at < |files| && cfg == w.cfg
    modifies w.idx.Values`entry
    ensures if deleted then w.At(files[..at] + files[at + 1..], at, i + 1) else w.At(files, at + 1, i + 1)
  {
    hide Distinct, Names, Index, Contents, FirstNames, Banned, Ghosted, Pruned, Halfway, AnyPrefix;
    PruneUnder(w, files, at, i);
    PruneMoves(w, files, at, i);
    var file: File := files[at];
    PruneOf(cfg, w.o, file.filename);
    deleted := false;
    if cfg.stateless && !file.entry.isDeleted && file.entry.isConfig {
      HalfwaySkips(w.idx, w.o, Ghosted(cfg, w.o), FirstNames(w.l, i), file.filename);
      deleted := true;
    } else if file.entry.isBoot && file.entry.isDeleted {
      Rewrite(file, file.entry.(isDeleted := false, isGhosted := true), w.idx, w.o, Ghosted(cfg, w.o),
          FirstNames(w.l, i));
    } else {
      HalfwaySkips(w.idx, w.o, Ghosted(cfg, w.o), FirstNames(w.l, i), file.filename);
      if AnyPrefix(file.filename, cfg.banned) {
        deleted := true;
      }
    }
  }

  lemma PruneEnds(w: Walk1, files: seq<File>, at: nat, i: nat)
    requires w.At(files, at, i) && at == |files|
    ensures files == Keep(w.l, Banned(w.cfg, w.o)) && Contents(w.l) == Ghosted(w.cfg, w.o) && Distinct(Names(w.l))
  {
    hide Distinct, Names, Index, Contents, FirstNames, Banned, Ghosted, Pruned, Halfway, Keep;
    PruneUnder(w, files, at, i);
    PrunedEnd(files, at, w.l, i, Banned(w.cfg, w.o));
    assert i == |w.l|;
    FirstNamesEnd(w.l);
    HalfwayEnds(w.l, w.idx, w.o, Ghosted(w.cfg, w.o), FirstNames(w.l, i));
  }

  /** The first loop. */
  method PruneList(m: Manifest, cfg: Config)
    requires m.Valid()
    modifies m`files, m`count, Index(m.files).Values`entry
    ensures m.Valid() && Contents(m.files) == Prune(cfg, old(Contents(m.files)))
    ensures Index(m.files) == old(Index(m.files)) - Banned(cfg, old(Contents(m.files)))
  {
    hide Distinct, Names, Index, Contents, Walk1.At, Keep, Prune, Banned, Ghosted;
    ghost var l, o := m.files, Contents(m.files);
    ghost var w := Walk1(cfg, l, Index(l), o);
    PruneStarts(cfg, l);
    var at: nat := 0;
    ghost var i: nat := 0;
    PruneUnder(w, m.files, at, i);
    while at < |m.files|
      invariant w.At(m.files, at, i) && at <= |m.files| && m.count == |m.files|
      decreases |m.files| - at
    {
      var deleted := PruneStep(m.files, at, cfg, w, i);
      if deleted {
        m.files := m.files[..at] + m.files[at + 1..];
        m.count := m.count - 1;
      } else {
        at := at + 1;
      }
      i := i + 1;
    }
    PruneEnds(w, m.files, at, i);
    KeepContents(l, Banned(cfg, o));
    KeepIndex(l, Banned(cfg, o));
    PruneSplits(cfg, o);
  }

  /** The second loop of `prune_manifest`: what is left of this release is counted. */
  method CountNew(m: Manifest) returns (newfiles: nat)
    requires Distinct(Names(m.files))
    ensures newfiles == |NewFiles(Contents(m.files), m.version)|
  {
    hide Distinct, Names, Index, Contents, FirstNames, NewFiles, Tally;
    ghost var new_ := NewFiles(Contents(m.files), m.version);
    newfiles := 0;
    TallyStarts(new_);
    FirstNamesEnd(m.files);
    for k := 0 to |m.files|
      invariant Tally(new_, FirstNames(m.files, k), newfiles)
    {
      IsRecord(m.files, k);
      FirstNamesStep(m.files, k);
      IsNew(Contents(m.files), m.version, m.files[k].filename);
      TallyStep(new_, FirstNames(m.files, k), m.files[k].filename, newfiles);
      if m.files[k].entry.lastChange == m.version {
        newfiles := newfiles + 1;
      }
    }
    NewKeys(Contents(m.files), m.version);
    TallyEnds(m.files, new_, newfiles);
  }

  lemma NewKeys(o: Entries, version: int)
    ensures NewFiles(o, version) <= o.Keys
  {
  }

  lemma IsNew(o: Entries, version: int, n: string)
    requires n in o
    ensures n in NewFiles(o, version) <==> o[n].lastChange == version
  {
  }

  lemma TallyEnds(l: seq<File>, new_: set<string>, count: nat)
    requires Distinct(Names(l)) && new_ <= Contents(l).Keys && Tally(new_, FirstNames(l, |l|), count)
    ensures count == |new_|
  {
    hide Distinct, Names, Index, Contents, FirstNames;
    FirstNamesEnd(l);
    assert new_ * FirstNames(l, |l|) == new_;
  }

  /** `prune_manifest`: the result is the number of entries that make the manifest new. */
  method PruneManifest(m: Manifest, cfg: Config) returns (newfiles: nat)
    requires m.Valid()
    modifies m`files, m`count, Index(m.files).Values`entry
    ensures m.Valid() && Contents(m.files) == Prune(cfg, old(Contents(m.files)))
    ensures Index(m.files) == old(Index(m.files)) - Banned(cfg, old(Contents(m.files)))
    ensures newfiles == |NewFiles(Contents(m.files), m.version)|
  {
    hide Distinct, Names, Index, Contents, Prune, Banned, NewFiles;
    PruneList(m, cfg);
    newfiles := CountNew(m);
  }

  // ----- maximize_to_full -----

  /** A bundle beside the full manifest: its own table, its own records. */
  ghost predicate Bundle(m: Manifest, table: Entries, full: map<string, File>)
    reads m`files, m`count, m.files`entry
  {
    && m.Valid() && Contents(m.files) == table
    && forall k | 0 <= k < |m.files| :: m.files[k] !in full.Values
  }

  lemma BundleApart(m: Manifest, table: Entries, full: seq<File>)
    requires Distinct(Names(full)) && Bundle(m, table, Index(full))
    ensures Disjoint(m.files, full)
  {
    hide Distinct, Names, Index, Contents;
    forall n | n in Index(m.files) && n in Index(full)
      ensures Index(m.files)[n] != Index(full)[n]
    {
      var k :| 0 <= k < |m.files| && m.files[k] == Index(m.files)[n];
    }
  }

  /** `maximize_to_full`. */
  method MaximizeToFull(subs: seq<Manifest>, full: Manifest, ghost tables: seq<Entries>)
    requires full.Valid() && Distinct(subs) && full !in subs && |tables| == |subs|
    requires forall i | 0 <= i < |subs| :: Bundle(subs[i], tables[i], Index(full.files))
    modifies subs`files, full`files, Index(full.files).Values`entry
    ensures full.Valid() && Contents(full.files) == MaximizeAll(tables, old(Contents(full.files)))
  {
    hide Distinct, Names, Index, Contents, Maximize, MaximizeAll;
    ghost var idx := Index(full.files);
    ghost var target := MaximizeAll(tables, Contents(full.files));
    assert tables[0..] == tables;
    for k := 0 to |subs|
      invariant full.Valid() && Index(full.files) == idx && MaximizeAll(tables[k..], Contents(full.files)) == target
      invariant forall i | k <= i < |subs| :: Bundle(subs[i], tables[i], idx)
    {
      BundleApart(subs[k], tables[k], full.files);
      MaximizeStepOff(tables, k, Contents(full.files));
      assert forall i | k < i < |subs| :: subs[i] != subs[k] by { OnlyOnce(subs, k); }
      MaximizeVersionManifests(subs[k], full);
    }
    MaximizeNothing(tables, Contents(full.files));
  }

  lemma OnlyOnce(subs: seq<Manifest>, k: nat)
    requires Distinct(subs) && k < |subs|
    ensures forall i | k < i < |subs| :: subs[i] != subs[k]
  {
  }

  lemma MaximizeStepOff(tables: seq<Entries>, k: nat, full: Entries)
    requires k < |tables|
    ensures MaximizeAll(tables[k..], full) == MaximizeAll(tables[k + 1..], Maximize(tables[k], full))
  {
    hide Maximize;
    assert tables[k..][1..] == tables[k + 1..];
  }

  lemma MaximizeNothing(tables: seq<Entries>, full: Entries)
    ensures MaximizeAll(tables[|tables|..], full) == full
  {
  }

  // ----- the order of the bundles -----

  lemma MaximizeCommutes(a: Entries, b: Entries, full: Entries)
    ensures Maximize(a, Maximize(b, full)) == Maximize(b, Maximize(a, full))
  {
    hide Maximize;
    forall n | n in full
      ensures Maximize(a, Maximize(b, full))[n] == Maximize(b, Maximize(a, full))[n]
    {
      EntryCommutes(a, b, full, n);
    }
  }

  /** The later of a release and the one that a bundle has for the name, if its entry is not deleted. */
  function Later(bundle: Entries, n: string, release: int): int {
    if n in bundle && !bundle[n].isDeleted && bundle[n].lastChange > release then bundle[n].lastChange else release
  }

  lemma MaximizedEntry(bundle: Entries, full: Entries, n: string)
    requires n in full
    ensures Maximize(bundle, full)[n] == full[n].(lastChange := Later(bundle, n, full[n].lastChange))
  {
  }

  lemma LaterCommutes(a: Entries, b: Entries, n: string, release: int)
    ensures Later(a, n, Later(b, n, release)) == Later(b, n, Later(a, n, release))
  {
  }

  lemma EntryCommutes(a: Entries, b: Entries, full: Entries, n: string)
    requires n in full
    ensures Maximize(a, Maximize(b, full))[n] == Maximize(b, Maximize(a, full))[n]
  {
    hide Maximize, Later;
    MaximizedEntry(a, full, n);
    MaximizedEntry(b, full, n);
    MaximizedEntry(a, Maximize(b, full), n);
    MaximizedEntry(b, Maximize(a, full), n);
    LaterCommutes(a, b, n, full[n].lastChange);
  }

  lemma {:induction false} MaximizeLast(tables: seq<Entries>, b: Entries, full: Entries)
    ensures MaximizeAll(tables + [b], full) == Maximize(b, MaximizeAll(tables, full))
    ensures MaximizeAll(tables, Maximize(b, full)) == Maximize(b, MaximizeAll(tables, full))
    decreases |tables|
  {
    hide Maximize;
    if tables == [] {
      assert (tables + [b])[1..] == [];
    } else {
      assert (tables + [b])[1..] == tables[1..] + [b];
      MaximizeLast(tables[1..], b, Maximize(tables[0], full));
      MaximizeLast(tables[1..], b, full);
      MaximizeCommutes(b, tables[0], full);
    }
  }

  /** The submanifests are listed last first; the full manifest dominates them in any case. */
  lemma {:induction false} MaximizeBackwards(tables: seq<Entries>, full: Entries)
    ensures MaximizeAll(IncludeLists.Reverse(tables), full) == MaximizeAll(tables, full)
    decreases |tables|
  {
    hide Maximize;
    if tables != [] {
      var back := IncludeLists.Reverse(tables[1..]);
      assert IncludeLists.Reverse(tables) == back + [tables[0]];
      MaximizeLast(back, tables[0], full);
      MaximizeBackwards(tables[1..], full);
      MaximizeLast(tables[1..], tables[0], full);
    } else {
      assert IncludeLists.Reverse(tables) == tables;
    }
  }
}
