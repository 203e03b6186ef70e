/** `subtract_manifests` and `remove_deprecated_files` (src/manifest.c) on the lists themselves. */
module Subtracting {
  import opened Strings
  import opened Sorting
  import opened Files
  import opened Subtraction
  import opened Pruning
  import opened Lists
  import Matching

  /** Two sorted lists, the cursors on them, and the names that are to be deleted from the first. */
  datatype Trip = Trip(l1: seq<File>, l2: seq<File>, n1: seq<string>, n2: seq<string>, gone: set<string>)
  {
    ghost predicate At(files: seq<File>, at: nat, i: nat, j: nat, passed: set<string>) {
      && n1 == Names(l1) && n2 == Names(l2)
      && Walk(n1, i, n2, j, passed) && Pruned(files, at, l1, i, gone)
      && (forall n | n in gone :: n in n2)
    }
  }

  lemma Depart(l1: seq<File>, l2: seq<File>, gone: set<string>)
    requires Ascending(Names(l1)) && Ascending(Names(l2)) && forall n | n in gone :: n in Names(l2)
    ensures Trip(l1, l2, Names(l1), Names(l2), gone).At(l1, 0, 0, 0, {})
  {
    WalkStart(Names(l1), Names(l2));
    PrunedStart(l1, gone);
  }

  lemma Under(t: Trip, files: seq<File>, at: nat, i: nat, j: nat, passed: set<string>)
    requires t.At(files, at, i, j, passed)
    ensures i <= |t.l1| && j <= |t.l2| && at <= |files| && (at < |files| <==> i < |t.l1|)
    ensures (i < |t.l1| ==> files[at] == t.l1[i])
  {
    PrunedUnder(files, at, t.l1, i, t.gone);
  }

  /** Both cursors stand on the same name, which stays. */
  lemma Meet(t: Trip, files: seq<File>, at: nat, i: nat, j: nat, passed: set<string>)
    requires t.At(files, at, i, j, passed) && i < |t.l1| && j < |t.l2| && t.l1[i].filename == t.l2[j].filename
    requires t.l1[i].filename !in t.gone
    ensures t.At(files, at + 1, i + 1, j + 1, passed + {t.l1[i].filename})
  {
    hide Walk, Pruned;
    WalkBoth(t.n1, i, t.n2, j, passed);
    PrunedKeep(files, at, t.l1, i, t.gone);
  }

  /** Both cursors stand on the same name, which goes. */
  lemma Drop(t: Trip, files: seq<File>, at: nat, i: nat, j: nat, passed: set<string>)
    requires t.At(files, at, i, j, passed) && i < |t.l1| && j < |t.l2| && t.l1[i].filename == t.l2[j].filename
    requires t.l1[i].filename in t.gone
    ensures at < |files| && t.At(files[..at] + files[at + 1..], at, i + 1, j + 1, passed + {t.l1[i].filename})
  {
    hide Walk, Pruned;
    PrunedUnder(files, at, t.l1, i, t.gone);
    WalkBoth(t.n1, i, t.n2, j, passed);
    PrunedDelete(files, at, t.l1, i, t.gone);
  }

  lemma Left(t: Trip, files: seq<File>, at: nat, i: nat, j: nat, passed: set<string>)
    requires t.At(files, at, i, j, passed) && i < |t.l1| && j < |t.l2| && Less(t.l1[i].filename, t.l2[j].filename)
    ensures t.At(files, at + 1, i + 1, j, passed + {t.l1[i].filename})
  {
    hide Walk, Pruned, Less;
    WalkLeft(t.n1, i, t.n2, j, passed);
    PrunedKeep(files, at, t.l1, i, t.gone);
  }

  lemma Right(t: Trip, files: seq<File>, at: nat, i: nat, j: nat, passed: set<string>)
    requires t.At(files, at, i, j, passed) && i < |t.l1| && j < |t.l2| && Less(t.l2[j].filename, t.l1[i].filename)
    ensures t.At(files, at, i, j + 1, passed + {t.l2[j].filename})
  {
    hide Walk, Pruned, Less;
    WalkRight(t.n1, i, t.n2, j, passed);
  }

  lemma Arrive(t: Trip, files: seq<File>, at: nat, i: nat, j: nat, passed: set<string>)
    requires t.At(files, at, i, j, passed) && (at == |files| || j == |t.l2|)
    ensures files == Keep(t.l1, t.gone)
  {
    hide Pruned;
    WalkSymmetric(t.n1, i, t.n2, j, passed);
    PrunedUnder(files, at, t.l1, i, t.gone);
    forall k | i <= k < |t.l1|
      ensures t.l1[k].filename !in t.gone
    {
      assert t.n1[k] == t.l1[k].filename;
      if t.n1[k] in t.gone {
        NotAhead(t.n1, i, t.n2, passed, k);
      }
    }
    PrunedEnd(files, at, t.l1, i, t.gone);
  }

  /** With the second list used up, no name ahead in the first occurs in it. */
  lemma NotAhead(a: seq<string>, i: nat, b: seq<string>, passed: set<string>, k: nat)
    requires Walk(a, i, b, |b|, passed) && i <= k < |a|
    ensures a[k] !in b
  {
  }

  // ----- subtract_manifests -----

  /** The names that subtraction takes away. */
  ghost function Lost(a: Entries, b: Entries): set<string> {
    set n | n in a && n in b && Cancels(a[n], b[n])
  }

  lemma LostIsSubtracted(a: Entries, b: Entries)
    ensures a - Lost(a, b) == Subtract(a, b)
  {
  }

  lemma NamesListed(l: seq<File>, gone: set<string>)
    requires Distinct(Names(l)) && gone <= Contents(l).Keys
    ensures forall n | n in gone :: n in Names(l)
  {
    hide Distinct, Contents;
    forall n | n in gone
      ensures n in Names(l)
    {
      assert n in Index(l);
      var i :| 0 <= i < |l| && l[i] == Index(l)[n];
      assert Names(l)[i] == n;
    }
  }

  /** One round of the loop of `subtract_manifests`. */
  method SubtractStep(files: seq<File>, l2: seq<File>, at: nat, j: nat,
                      ghost t: Trip, ghost a: Entries, ghost b: Entries, ghost i: nat, ghost passed: set<string>)
    returns (at': nat, j': nat, deleted: bool, ghost i': nat, ghost passed': set<string>)
    requires t.At(files, at, i, j, passed) && l2 == t.l2 && t.gone == Lost(a, b) && at < |files| && j < |l2|
    requires Distinct(Names(t.l1)) && Distinct(Names(l2)) && Contents(t.l1) == a && Contents(l2) == b
    ensures deleted ==> at' == at && t.At(files[..at] + files[at + 1..], at, i', j', passed')
    ensures !deleted ==> t.At(files, at', i', j', passed')
    ensures j <= j' <= |l2| && if deleted then j < j' else at <= at' <= |files| && at + j < at' + j'
  {
    hide Distinct, Names, Contents, Index, Trip.At, Lost, Keep, Cancels, Strcmp;
    Under(t, files, at, i, j, passed);
    var file1: File, file2: File := files[at], l2[j];
    IsRecord(t.l1, i);
    IsRecord(l2, j);
    var ret := Strcmp(file1.filename, file2.filename);
    deleted := false;
    if ret == 0 {
      IsLost(a, b, file1.filename);
      i', j' := i + 1, j + 1;
      passed' := passed + {file1.filename};
      if file1.entry.isDeleted && file2.entry.isDeleted {
        DeadStay(file1.entry, file2.entry);
        Meet(t, files, at, i, j, passed);
        at' := at + 1;
      } else if file1.entry.isDeleted == file2.entry.isDeleted && file1.entry.isFile == file2.entry.isFile {
        AlikeGo(file1.entry, file2.entry);
        Drop(t, files, at, i, j, passed);
        at', deleted := at, true;
      } else {
        UnlikeStay(file1.entry, file2.entry);
        Meet(t, files, at, i, j, passed);
        at' := at + 1;
      }
    } else if ret < 0 {
      Left(t, files, at, i, j, passed);
      at', i', j', passed' := at + 1, i + 1, j, passed + {file1.filename};
    } else {
      Antisymmetric(file1.filename, file2.filename);
      Right(t, files, at, i, j, passed);
      at', i', j', passed' := at, i, j + 1, passed + {file2.filename};
    }
  }

  /** The loop of `subtract_manifests` on two sorted lists. */
  method SubtractSorted(m1: Manifest, l2: seq<File>)
    requires m1.Valid() && Distinct(Names(l2)) && Ascending(Names(m1.files)) && Ascending(Names(l2))
    modifies m1`files, m1`count
    ensures m1.files == Keep(old(m1.files), Lost(old(Contents(m1.files)), Contents(l2))) && m1.count == |m1.files|
  {
    hide Ascending, Distinct, Names, Contents, Index, Trip.At, Lost, Keep;
    ghost var l1, a, b := m1.files, Contents(m1.files), Contents(l2);
    ghost var t := Trip(l1, l2, Names(l1), Names(l2), Lost(a, b));
    LostKeys(a, b);
    NamesListed(l2, t.gone);
    Depart(l1, l2, t.gone);
    var at: nat, j: nat := 0, 0;
    ghost var i: nat, passed: set<string> := 0, {};
    while at < |m1.files| && j < |l2|
      invariant t.At(m1.files, at, i, j, passed) && m1.count == |m1.files|
      invariant j <= |l2| && at <= |m1.files|
      decreases |m1.files| - at + |l2| - j
    {
      var at': nat, deleted: bool;
      at', j, deleted, i, passed := SubtractStep(m1.files, l2, at, j, t, a, b, i, passed);
      if deleted {
        m1.files := m1.files[..at] + m1.files[at + 1..];
        m1.count := m1.count - 1;
      }
      at := at';
    }
    Arrive(t, m1.files, at, i, j, passed);
  }

  lemma LostKeys(a: Entries, b: Entries)
    ensures Lost(a, b) <= b.Keys && Lost(a, b) <= a.Keys
  {
  }

  lemma IsLost(a: Entries, b: Entries, n: string)
    requires n in a && n in b
    ensures n in Lost(a, b) <==> Cancels(a[n], b[n])
  {
  }

  lemma DeadStay(a: Entry, b: Entry)
    requires a.isDeleted && b.isDeleted
    ensures !Cancels(a, b)
  {
  }

  lemma AlikeGo(a: Entry, b: Entry)
    requires !(a.isDeleted && b.isDeleted) && a.isDeleted == b.isDeleted && a.isFile == b.isFile
    ensures Cancels(a, b)
  {
  }

  lemma UnlikeStay(a: Entry, b: Entry)
    requires !(a.isDeleted == b.isDeleted && a.isFile == b.isFile)
    ensures !Cancels(a, b)
  {
  }

  lemma SortedApart(a: Manifest, b: Manifest)
    requires a.Valid() && b.Valid()
    ensures Distinct(Names(a.files)) && Distinct(Names(b.files)) && a.count == |a.files| && b.count == |b.files|
  {
  }

  lemma KeptTable(m: Manifest, l: seq<File>, gone: set<string>)
    requires Distinct(Names(l)) && Ascending(Names(l)) && m.files == Keep(l, gone) && m.count == |m.files|
    ensures m.Valid() && Ascending(Names(m.files)) && Contents(m.files) == Contents(l) - gone
    ensures Index(m.files) == Index(l) - gone
  {
    hide Ascending, Names, Index, Contents, Keep;
    KeepNames(l, gone);
    KeepIndex(l, gone);
    KeepContents(l, gone);
  }

  /** `subtract_manifests`: the first manifest loses what the second lists just as well; a manifest is
      never subtracted from itself. */
  method SubtractManifests(m1: Manifest, m2: Manifest)
    requires m1.Valid() && m2.Valid()
    modifies m1`files, m1`count, m2`files
    ensures m1.Valid() && m2.Valid()
    ensures m1 != m2 ==> Contents(m1.files) == Subtract(old(Contents(m1.files)), old(Contents(m2.files)))
    ensures m1 == m2 ==> Contents(m1.files) == old(Contents(m1.files))
    ensures m1 != m2 ==> Contents(m2.files) == old(Contents(m2.files)) && m2.count == old(m2.count)
    ensures Index(m2.files).Values <= old(Index(m2.files)).Values
    ensures Index(m1.files).Values <= old(Index(m1.files)).Values
  {
    hide Ascending, Distinct, Names, Contents, Index, Lost, Keep, Subtract, SameRecords;
    ghost var a, b := Contents(m1.files), Contents(m2.files);
    SortByFilename(m1);
    SortByFilename(m2);
    if m1 != m2 {
      ghost var l1 := m1.files;
      SortedApart(m1, m2);
      SubtractSorted(m1, m2.files);
      KeptTable(m1, l1, Lost(a, b));
      LostIsSubtracted(a, b);
    }
  }

  // ----- remove_deprecated_files -----

  lemma IsDeprecated(old_: Entries, new_: Entries, d: Deprecation, n: string)
    requires n in old_ && n in new_
    ensures n in Deprecated(old_, new_, d) <==> d.Applies(old_[n], new_[n])
  {
  }

  lemma DeprecatedKeys(old_: Entries, new_: Entries, d: Deprecation)
    ensures Deprecated(old_, new_, d) <= old_.Keys && Deprecated(old_, new_, d) <= new_.Keys
  {
  }

  /** The number of deletions so far. */
  ghost predicate Tally(gone: set<string>, passed: set<string>, count: nat) {
    count == |gone * passed|
  }

  /** One round of the loop of `remove_deprecated_files`: here the second manifest's list is the one that shrinks. */
  method RemoveStep(l1: seq<File>, files: seq<File>, j: nat, at: nat, d: Deprecation,
      ghost t: Trip, ghost old_: Entries, ghost new_: Entries, ghost i: nat, ghost passed: set<string>,
      ghost count: nat)
    returns (j': nat, at': nat, deleted: bool, ghost i': nat, ghost passed': set<string>)
    requires Tally(t.gone, passed, count)
    requires t.At(files, at, i, j, passed) && l1 == t.l2 && t.gone == Deprecated(old_, new_, d) && at < |files|
    requires j < |l1|
    requires Distinct(Names(t.l1)) && Distinct(Names(l1)) && Contents(t.l1) == new_ && Contents(l1) == old_
    ensures deleted ==> at' == at && t.At(files[..at] + files[at + 1..], at, i', j', passed')
    ensures !deleted ==> t.At(files, at', i', j', passed')
    ensures j <= j' <= |l1| && if deleted then j < j' else at <= at' <= |files| && at + j < at' + j'
    ensures Tally(t.gone, passed', if deleted then count + 1 else count)
  {
    hide Distinct, Names, Contents, Index, Trip.At, Deprecated, Keep, Strcmp, Less, Tally;
    Under(t, files, at, i, j, passed);
    Fresh(t, files, at, i, j, passed);
    DeprecatedKeys(old_, new_, d);
    var file1: File, file2: File := l1[j], files[at];
    IsRecord(t.l1, i);
    IsRecord(l1, j);
    var ret := Strcmp(file1.filename, file2.filename);
    ghost var name;
    deleted := false;
    if ret == 0 {
      IsDeprecated(old_, new_, d, file1.filename);
      i', j', name := i + 1, j + 1, file2.filename;
      if d.Applies(file1.entry, file2.entry) {
        Drop(t, files, at, i, j, passed);
        at', deleted := at, true;
      } else {
        Meet(t, files, at, i, j, passed);
        at' := at + 1;
      }
    } else if ret < 0 {
      assert Less(file1.filename, file2.filename) by { Smaller(file1.filename, file2.filename); }
      Right(t, files, at, i, j, passed);
      at', i', j', name := at, i, j + 1, file1.filename;
      RightStays(t, files, at, i, j, passed);
    } else {
      Antisymmetric(file1.filename, file2.filename);
      assert Less(file2.filename, file1.filename) by { Smaller(file2.filename, file1.filename); }
      Left(t, files, at, i, j, passed);
      at', i', j', name := at + 1, i + 1, j, file2.filename;
      LeftStays(t, files, at, i, j, passed);
    }
    passed' := passed + {name};
    TallyStep(t.gone, passed, name, count);
  }

  lemma Smaller(a: string, b: string)
    requires Strcmp(a, b) < 0
    ensures Less(a, b)
  {
  }

  lemma TallyStep(gone: set<string>, passed: set<string>, name: string, count: nat)
    requires Tally(gone, passed, count) && name !in passed
    ensures Tally(gone, passed + {name}, if name in gone then count + 1 else count)
  {
    Matching.CountStep(gone, passed, name);
  }

  lemma Fresh(t: Trip, files: seq<File>, at: nat, i: nat, j: nat, passed: set<string>)
    requires t.At(files, at, i, j, passed)
    ensures i < |t.l1| ==> t.l1[i].filename !in passed
    ensures j < |t.l2| ==> t.l2[j].filename !in passed
  {
    hide Walk, Pruned;
    WalkApart(t.n1, i, t.n2, j, passed);
  }

  lemma LeftStays(t: Trip, files: seq<File>, at: nat, i: nat, j: nat, passed: set<string>)
    requires t.At(files, at, i, j, passed) && i < |t.l1| && j < |t.l2| && Less(t.l1[i].filename, t.l2[j].filename)
    ensures t.l1[i].filename !in t.gone
  {
    hide Walk, Pruned, Less;
    WalkLeft(t.n1, i, t.n2, j, passed);
  }

  lemma RightStays(t: Trip, files: seq<File>, at: nat, i: nat, j: nat, passed: set<string>)
    requires t.At(files, at, i, j, passed) && i < |t.l1| && j < |t.l2| && Less(t.l2[j].filename, t.l1[i].filename)
    requires t.gone <= Contents(t.l1).Keys && Distinct(Names(t.l1))
    ensures t.l2[j].filename !in t.gone
  {
    hide Walk, Pruned, Less, Contents;
    WalkRight(t.n1, i, t.n2, j, passed);
    NamesListed(t.l1, t.gone);
  }

  lemma TallyStarts(gone: set<string>)
    ensures Tally(gone, {}, 0)
  {
    assert gone * {} == {};
  }

  lemma AllPassed(t: Trip, files: seq<File>, at: nat, i: nat, j: nat, passed: set<string>, count: nat)
    requires t.At(files, at, i, j, passed) && (at == |files| || j == |t.l2|)
    requires (forall n | n in t.gone :: n in t.n1) && Tally(t.gone, passed, count)
    ensures count == |t.gone|
  {
    hide Pruned;
    PrunedUnder(files, at, t.l1, i, t.gone);
    if j == |t.l2| {
      WalkSymmetric(t.n1, i, t.n2, j, passed);
      WalkRest(t.n2, t.n1, i, passed);
    } else {
      WalkRest(t.n1, t.n2, j, passed);
    }
    assert t.gone * passed == t.gone;
  }

  /** The loop of `remove_deprecated_files` on two sorted lists. */
  method RemoveSorted(l1: seq<File>, m2: Manifest, d: Deprecation) returns (count: nat)
    requires m2.Valid() && Distinct(Names(l1)) && Ascending(Names(m2.files)) && Ascending(Names(l1))
    modifies m2`files, m2`count
    ensures m2.files == Keep(old(m2.files), Deprecated(Contents(l1), old(Contents(m2.files)), d))
    ensures m2.count == |m2.files|
    ensures count == |Deprecated(Contents(l1), old(Contents(m2.files)), d)|
  {
    hide Ascending, Distinct, Names, Contents, Index, Trip.At, Deprecated, Keep, Tally;
    ghost var l2, old_, new_ := m2.files, Contents(l1), Contents(m2.files);
    ghost var t := Trip(l2, l1, Names(l2), Names(l1), Deprecated(old_, new_, d));
    DeprecatedKeys(old_, new_, d);
    NamesListed(l1, t.gone);
    NamesListed(l2, t.gone);
    Depart(l2, l1, t.gone);
    var at: nat, j: nat := 0, 0;
    count := 0;
    ghost var i: nat, passed: set<string> := 0, {};
    TallyStarts(t.gone);
    while at < |m2.files| && j < |l1|
      invariant t.At(m2.files, at, i, j, passed) && m2.count == |m2.files| && Tally(t.gone, passed, count)
      invariant j <= |l1| && at <= |m2.files|
      decreases |m2.files| - at + |l1| - j
    {
      var at': nat, deleted: bool;
      j, at', deleted, i, passed := RemoveStep(l1, m2.files, j, at, d, t, old_, new_, i, passed, count);
      if deleted {
        m2.files := m2.files[..at] + m2.files[at + 1..];
        m2.count := m2.count - 1;
        count := count + 1;
      }
      at := at';
    }
    AllPassed(t, m2.files, at, i, j, passed, count);
    Arrive(t, m2.files, at, i, j, passed);
  }

  /** `remove_deprecated_files`. */
  method RemoveDeprecatedFiles(m1: Manifest, m2: Manifest, d: Deprecation) returns (count: nat)
    requires m1 != m2 && m1.Valid() && m2.Valid()
    modifies m1`files, m2`files, m2`count
    ensures m1.Valid() && Contents(m1.files) == old(Contents(m1.files)) && Index(m1.files) == old(Index(m1.files))
    ensures m2.Valid() && Contents(m2.files) == RemoveDeprecated(old(Contents(m1.files)), old(Contents(m2.files)), d)
    ensures Index(m2.files) == old(Index(m2.files)) - Deprecated(old(Contents(m1.files)), old(Contents(m2.files)), d)
    ensures count == |Deprecated(old(Contents(m1.files)), old(Contents(m2.files)), d)|
  {
    hide Ascending, Distinct, Names, Contents, Index, Deprecated, Keep, SameRecords;
    ghost var o1, o2 := Contents(m1.files), Contents(m2.files);
    SortByFilename(m1);
    SortByFilename(m2);
    ghost var l2 := m2.files;
    SortedApart(m1, m2);
    count := RemoveSorted(m1.files, m2, d);
    KeptTable(m2, l2, Deprecated(o1, o2, d));
  }
}
