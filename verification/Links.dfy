/** `final_link` (src/rename.c) and `clean_renames` (src/manifest.c): renames that were carried over from
    older manifests are linked again, and marks that have lost their partner are removed. */
module Links {
  import opened Strings
  import opened Sorting
  import opened Files
  import opened Pruning
  import opened Renames

  // ----- who gets a partner, as values -----

  /** What the linking looks at: a renamed record, and whether it has a partner already. */
  datatype Mark = Mark(lastChange: int, hash: string, isDeleted: bool, had: bool)

  predicate SameRename(a: Mark, b: Mark) {
    a.lastChange == b.lastChange && a.hash == b.hash
  }

  /** A renamed-from and a renamed-to record of one change. */
  predicate Mates(a: Mark, b: Mark) {
    SameRename(a, b) && a.isDeleted != b.isDeleted
  }

  /** Record i has no partner yet when its turn comes. */
  predicate Acts(s: seq<Mark>, i: nat)
    requires i < |s|
    decreases i
  {
    !s[i].had && forall j | 0 <= j < i && Mates(s[i], s[j]) :: !Acts(s, j)
  }

  predicate HasLaterMate(s: seq<Mark>, i: nat, to: nat)
    requires i < |s| && to <= |s|
  {
    exists j | i < j < to :: Mates(s[i], s[j])
  }

  /** Record k has a partner once the records before i have had their turn. */
  predicate LinkedBy(s: seq<Mark>, k: nat, i: nat)
    requires k < |s| && i <= |s|
  {
    || s[k].had
    || (k < i && Acts(s, k) && HasLaterMate(s, k, |s|))
    || exists a | 0 <= a < i && a < k :: Mates(s[k], s[a]) && Acts(s, a)
  }

  predicate FirstOfRename(s: seq<Mark>, f: nat)
    requires f < |s|
  {
    forall k | 0 <= k < f :: !SameRename(s[k], s[f])
  }

  /** No record of this one's change and hash had a partner before. */
  predicate NoneHad(s: seq<Mark>, i: nat)
    requires i < |s|
  {
    forall k | 0 <= k < |s| && SameRename(s[k], s[i]) :: !s[k].had
  }

  /** Only records of the same kind as the first one with this change and hash look for partners. */
  lemma {:induction false} FirstDecides(s: seq<Mark>, f: nat, i: nat)
    requires f <= i < |s| && NoneHad(s, i) && FirstOfRename(s, f) && SameRename(s[f], s[i])
    ensures Acts(s, i) <==> s[i].isDeleted == s[f].isDeleted
    decreases i
  {
    forall j | 0 <= j < i && Mates(s[i], s[j])
      ensures f <= j && (Acts(s, j) <==> s[j].isDeleted == s[f].isDeleted)
    {
      assert SameRename(s[j], s[f]);
      assert f <= j;
      FirstDecides(s, f, j);
    }
    if s[i].isDeleted != s[f].isDeleted {
      assert Mates(s[i], s[f]) && f < i;
    }
  }

  lemma {:induction false} FirstExists(s: seq<Mark>, i: nat) returns (f: nat)
    requires i < |s|
    ensures f <= i && FirstOfRename(s, f) && SameRename(s[f], s[i])
    decreases i
  {
    if FirstOfRename(s, i) {
      f := i;
    } else {
      var k :| 0 <= k < i && SameRename(s[k], s[i]);
      f := FirstExists(s, k);
    }
  }

  /** Exactly which records of carried-over renames find a partner: those with a mate further down, and
      those with a mate that is the first of all records of that change and hash. So a tombstone that
      sorts behind every renamed-to file of its hash loses its mark when another tombstone came first. */
  lemma LinkedExactly(s: seq<Mark>, i: nat)
    requires i < |s| && NoneHad(s, i)
    ensures LinkedBy(s, i, |s|) <==> exists j | 0 <= j < |s| :: Mates(s[i], s[j]) && (i < j || FirstOfRename(s, j))
  {
    var f := FirstExists(s, i);
    FirstDecides(s, f, i);
    FirstDecides(s, f, f);
    forall j | 0 <= j < |s| && Mates(s[i], s[j]) && FirstOfRename(s, j)
      ensures j == f
    {
      assert SameRename(s[f], s[j]) && SameRename(s[j], s[f]);
    }
    forall a | 0 <= a < i && Mates(s[i], s[a])
      ensures Acts(s, a) ==> s[f].isDeleted != s[i].isDeleted
    {
      assert SameRename(s[a], s[f]);
      FirstDecides(s, f, a);
    }
  }

  /** Two tombstones around the one file that both may have become: only the first tombstone is linked,
      and the second is left without a partner although the file is its mate. */
  lemma TombstoneComesLate(lastChange: int, hash: string)
    ensures var dead, live := Mark(lastChange, hash, true, false), Mark(lastChange, hash, false, false);
      var s := [dead, live, dead];
      Mates(s[2], s[1]) && LinkedBy(s, 0, 3) && LinkedBy(s, 1, 3) && !LinkedBy(s, 2, 3)
  {
    var dead, live := Mark(lastChange, hash, true, false), Mark(lastChange, hash, false, false);
    var s := [dead, live, dead];
    LinkedExactly(s, 0);
    LinkedExactly(s, 1);
    LinkedExactly(s, 2);
    assert Mates(s[0], s[1]) && Mates(s[1], s[2]);
    assert SameRename(s[0], s[1]);
    assert !FirstOfRename(s, 1);
  }

  // ----- the records -----

  function MarkOf(f: File): Mark
    reads f`entry, f`renamePeer
  {
    Mark(f.entry.lastChange, f.entry.hash, f.entry.isDeleted, f.renamePeer != null)
  }

  /** Where each record stands in the list. */
  ghost predicate Places(l: seq<File>, at: map<File, nat>) {
    && (forall f | f in at :: at[f] < |l| && l[at[f]] == f)
    && (forall k | 0 <= k < |l| :: l[k] in at && at[l[k]] == k)
  }

  ghost predicate Partners(f: File, p: File)
    reads f`entry, p`entry
  {
    f.entry.lastChange == p.entry.lastChange && f.entry.hash == p.entry.hash && f.entry.isDeleted != p.entry.isDeleted
  }

  /** Every link leads to the other end of the same rename, which is linked as well. */
  ghost predicate Sound(fs: set<File>)
    reads fs`entry, fs`renamePeer
  {
    forall f | f in fs && f.renamePeer != null ::
      f.renamePeer in fs && Partners(f, f.renamePeer) && f.renamePeer.renamePeer != null
  }

  /** The list as the loops see it: its places, and its marks before anything was linked. */
  ghost predicate Listing(l: seq<File>, s: seq<Mark>, at: map<File, nat>)
    reads l`entry
  {
    && Places(l, at) && |s| == |l|
    && (forall k | 0 <= k < |l| ::
          && s[k].lastChange == l[k].entry.lastChange && s[k].hash == l[k].entry.hash
          && s[k].isDeleted == l[k].entry.isDeleted)
  }

  /** Record k has a partner, when the records before i have had their turn and record i has looked at those
      before j. */
  predicate LinkedMidway(s: seq<Mark>, k: nat, i: nat, j: nat)
    requires k < |s| && i < j <= |s|
  {
    LinkedBy(s, k, i) || (k == i && HasLaterMate(s, i, j)) || (i < k < j && Mates(s[k], s[i]))
  }

  ghost predicate Midway(s: seq<Mark>, at: map<File, nat>, i: nat, j: nat)
    requires i < j <= |s| && forall f | f in at :: at[f] < |s|
    reads at.Keys`renamePeer
  {
    forall f | f in at :: f.renamePeer != null <==> LinkedMidway(s, at[f], i, j)
  }

  ghost predicate Turns(s: seq<Mark>, at: map<File, nat>, i: nat)
    requires i <= |s| && forall f | f in at :: at[f] < |s|
    reads at.Keys`renamePeer
  {
    forall f | f in at :: f.renamePeer != null <==> LinkedBy(s, at[f], i)
  }

  lemma NoTurnYet(s: seq<Mark>, k: nat)
    requires k < |s|
    ensures LinkedBy(s, k, 0) <==> s[k].had
  {
  }

  lemma TurnActs(s: seq<Mark>, i: nat)
    requires i < |s|
    ensures LinkedBy(s, i, i) <==> !Acts(s, i)
    ensures Acts(s, i) ==> forall k | 0 <= k < |s| :: LinkedMidway(s, k, i, i + 1) <==> LinkedBy(s, k, i)
    ensures Acts(s, i) ==> forall k | 0 <= k < |s| :: LinkedMidway(s, k, i, |s|) <==> LinkedBy(s, k, i + 1)
    ensures !Acts(s, i) ==> forall k | 0 <= k < |s| :: LinkedBy(s, k, i) <==> LinkedBy(s, k, i + 1)
  {
  }

  lemma PairStep(s: seq<Mark>, i: nat, j: nat)
    requires i < j < |s|
    ensures forall k | 0 <= k < |s| ::
      LinkedMidway(s, k, i, j + 1) <==> LinkedMidway(s, k, i, j) || ((k == i || k == j) && Mates(s[j], s[i]))
  {
    hide LinkedBy, HasLaterMate, Mates;
    LaterStep(s, i, j);
    forall k | 0 <= k < |s|
      ensures LinkedMidway(s, k, i, j + 1) <==> LinkedMidway(s, k, i, j) || ((k == i || k == j) && Mates(s[j], s[i]))
    {
    }
  }

  lemma LaterStep(s: seq<Mark>, i: nat, j: nat)
    requires i < j < |s|
    ensures HasLaterMate(s, i, j + 1) <==> HasLaterMate(s, i, j) || Mates(s[j], s[i])
  {
    if Mates(s[j], s[i]) {
      assert Mates(s[i], s[j]);
    }
    if HasLaterMate(s, i, j + 1) && !HasLaterMate(s, i, j) {
      var m :| i < m < j + 1 && Mates(s[i], s[m]);
      assert m == j;
    }
  }

  /** The record had no partner before, or a mate of its had none. */
  ghost predicate Free(fs: set<File>, before: map<File, File?>, f: File)
    reads fs`entry, f`entry
  {
    f in before && (before[f] == null || exists p | p in fs && p in before :: Partners(f, p) && before[p] == null)
  }

  /** Links are only made, and only where one of the two ends had none before. */
  ghost predicate Relinked(fs: set<File>, before: map<File, File?>)
    reads fs`entry, fs`renamePeer
  {
    forall f | f in fs ::
      f in before && (f.renamePeer == before[f] || Free(fs, before, f)) && (before[f] != null ==> f.renamePeer != null)
  }

  /** `Relinked` and `Sound`, said about the links as they were at some time. */
  ghost predicate RelinkedThen(fs: set<File>, before: map<File, File?>, now: map<File, File?>)
    reads fs`entry
  {
    now.Keys == fs && forall f | f in fs ::
      f in before && (now[f] == before[f] || Free(fs, before, f)) && (before[f] != null ==> now[f] != null)
  }

  ghost predicate SoundThen(fs: set<File>, now: map<File, File?>)
    reads fs`entry, (set f | f in now && now[f] != null :: now[f])`entry
  {
    forall f | f in fs && f in now && now[f] != null ::
      now[f] in fs && Partners(f, now[f]) && now[f] in now && now[now[f]] != null
  }

  ghost predicate OthersKeep(fs: set<File>, now: map<File, File?>, file1: File, file2: File)
    reads fs`renamePeer
  {
    forall f | f in fs && f != file1 && f != file2 :: f in now && f.renamePeer == now[f]
  }

  lemma LinksNow(fs: set<File>, before: map<File, File?>, now: map<File, File?>)
    requires now.Keys == fs && (forall f | f in fs :: now[f] == f.renamePeer) && Relinked(fs, before)
    ensures RelinkedThen(fs, before, now) && (Sound(fs) ==> SoundThen(fs, now))
  {
    hide Free, Partners;
  }

  lemma TieRelinks(fs: set<File>, before: map<File, File?>, now: map<File, File?>, file1: File, file2: File)
    requires file1 in fs && file2 in fs && Partners(file1, file2) && OthersKeep(fs, now, file1, file2)
    requires file1.renamePeer == file2 && file2.renamePeer == file1 && file1 in before && before[file1] == null
    requires RelinkedThen(fs, before, now)
    ensures Relinked(fs, before)
    ensures SoundThen(fs, now) ==> Sound(fs)
  {
    hide Partners;
    PartnersBack(file1, file2);
    assert Free(fs, before, file1) && Free(fs, before, file2);
  }

  method Tie(file1: File, file2: File, ghost fs: set<File>, ghost before: map<File, File?>)
    requires file1 in fs && file2 in fs && Partners(file1, file2) && Relinked(fs, before) && file1 in before
    requires before[file1] == null
    modifies file1`renamePeer, file2`renamePeer
    ensures old(Sound(fs)) ==> Sound(fs)
    ensures Relinked(fs, before)
    ensures forall f | f in fs :: f.renamePeer != null <==> old(f.renamePeer != null) || f == file1 || f == file2
  {
    hide Partners, Relinked, Sound, RelinkedThen, SoundThen;
    ghost var now := map f | f in fs :: f.renamePeer;
    LinksNow(fs, before, now);
    file1.renamePeer := file2;
    file2.renamePeer := file1;
    TieRelinks(fs, before, now, file1, file2);
  }

  lemma PartnersBack(f: File, p: File)
    requires Partners(f, p)
    ensures Partners(p, f) && f != p
  {
  }

  /** One pair of records: linked, or left alone. */
  method LinkPair(l: seq<File>, ghost s: seq<Mark>, ghost at: map<File, nat>, i: nat, j: nat,
      ghost before: map<File, File?>)
    requires Listing(l, s, at) && i < j < |l| && Midway(s, at, i, j)
    requires Relinked(at.Keys, before) && l[i] in before && before[l[i]] == null
    modifies at.Keys`renamePeer
    ensures Midway(s, at, i, j + 1) && (old(Sound(at.Keys)) ==> Sound(at.Keys)) && Relinked(at.Keys, before)
  {
    hide LinkedMidway, Sound, Relinked;
    PairStep(s, i, j);
    var file1: File, file2: File := l[i], l[j];
    assert at[file1] == i && at[file2] == j;
    if file1.entry.lastChange != file2.entry.lastChange {
      return;
    }
    if file1.entry.isDeleted == file2.entry.isDeleted {
      return;
    }
    if file2.entry.hash != file1.entry.hash {
      return;
    }
    Tie(file1, file2, at.Keys, before);
  }

  // ----- the loops -----

  lemma MidwayStarts(s: seq<Mark>, at: map<File, nat>, i: nat)
    requires i < |s| && (forall f | f in at :: at[f] < |s|) && Turns(s, at, i) && Acts(s, i)
    ensures Midway(s, at, i, i + 1)
  {
    hide LinkedBy, LinkedMidway, Acts;
    TurnActs(s, i);
  }

  lemma MidwayEnds(s: seq<Mark>, at: map<File, nat>, i: nat)
    requires i < |s| && (forall f | f in at :: at[f] < |s|) && Midway(s, at, i, |s|) && Acts(s, i)
    ensures Turns(s, at, i + 1)
  {
    hide LinkedBy, LinkedMidway, Acts;
    TurnActs(s, i);
  }

  lemma TurnPasses(s: seq<Mark>, at: map<File, nat>, i: nat)
    requires i < |s| && (forall f | f in at :: at[f] < |s|) && Turns(s, at, i) && !Acts(s, i)
    ensures Turns(s, at, i + 1)
  {
    hide LinkedBy, Acts;
    TurnActs(s, i);
  }

  lemma WhoActs(l: seq<File>, s: seq<Mark>, at: map<File, nat>, i: nat)
    requires Listing(l, s, at) && i < |l| && Turns(s, at, i)
    ensures l[i].renamePeer == null <==> Acts(s, i)
  {
    hide LinkedBy, Acts;
    TurnActs(s, i);
    assert at[l[i]] == i;
  }

  lemma StillFree(fs: set<File>, before: map<File, File?>, f: File)
    requires Relinked(fs, before) && f in fs
    ensures f in before && (f.renamePeer == null ==> before[f] == null)
  {
  }

  lemma NothingRelinked(fs: set<File>, before: map<File, File?>)
    requires forall f | f in fs :: f in before && before[f] == f.renamePeer
    ensures Relinked(fs, before)
  {
  }

  /** The body of `final_link` on the sorted list of renamed records. */
  method LinkSorted(l: seq<File>, ghost s: seq<Mark>, ghost at: map<File, nat>, ghost before: map<File, File?>)
    requires Listing(l, s, at) && Turns(s, at, 0) && Relinked(at.Keys, before)
    modifies at.Keys`renamePeer
    ensures Turns(s, at, |s|) && (old(Sound(at.Keys)) ==> Sound(at.Keys)) && Relinked(at.Keys, before)
  {
    hide Sound, Turns, Midway, Acts, Relinked;
    for i := 0 to |l|
      invariant Listing(l, s, at) && (forall f | f in at :: at[f] < |s|) && Turns(s, at, i)
      invariant (old(Sound(at.Keys)) ==> Sound(at.Keys)) && Relinked(at.Keys, before)
    {
      WhoActs(l, s, at, i);
      StillFree(at.Keys, before, l[i]);
      if l[i].renamePeer != null {
        TurnPasses(s, at, i);
        continue;
      }
      MidwayStarts(s, at, i);
      for j := i + 1 to |l|
        invariant Listing(l, s, at) && (forall f | f in at :: at[f] < |s|) && Midway(s, at, i, j)
        invariant (old(Sound(at.Keys)) ==> Sound(at.Keys)) && Relinked(at.Keys, before)
      {
        LinkPair(l, s, at, i, j, before);
      }
      MidwayEnds(s, at, i);
    }
  }

  function Position(l: seq<File>, f: File): (k: nat)
    requires f in l
    ensures k < |l| && l[k] == f
  {
    if l[0] == f then 0 else 1 + Position(l[1..], f)
  }

  lemma ListPlaces(l: seq<File>, fs: set<File>) returns (at: map<File, nat>)
    requires IsList(l, fs)
    ensures at.Keys == fs && Places(l, at)
  {
    hide IsList;
    forall f | f in fs
      ensures f in l
    {
      ListHas(l, fs, f);
    }
    at := map f | f in fs :: Position(l, f);
    ListMembers(l, fs);
    forall k | 0 <= k < |l|
      ensures at[l[k]] == k
    {
      ScoreNext(l, fs, k);
      if at[l[k]] > k {
        ScoreNext(l, fs, at[l[k]]);
        assert false;
      }
    }
  }

  lemma ByVersionList(files: seq<File>, fs: set<File>)
    requires IsList(files, fs)
    ensures IsList(ByVersion(files), fs)
  {
    var keyed := VersionKeyed(files);
    SortMapped(keyed, VersionLe, (f: File) => f);
    assert Seconds(keyed) == files == Mapped(keyed, (f: File) => f);
    assert ByVersion(files) == Mapped(Sort(keyed, VersionLe), (f: File) => f);
  }

  ghost predicate SortedByVersion(l: seq<File>)
    reads l`entry
  {
    forall i, j | 0 <= i < j < |l| ::
      || l[i].entry.lastChange < l[j].entry.lastChange
      || (l[i].entry.lastChange == l[j].entry.lastChange && Strcmp(l[i].filename, l[j].filename) <= 0)
  }

  lemma ByVersionSorts(files: seq<File>)
    ensures SortedByVersion(ByVersion(files))
  {
    VersionLeIsTotal();
    var keyed := VersionKeyed(files);
    var sorted := Sort(keyed, VersionLe);
    SortIsStable(keyed, VersionLe);
    Permuted(sorted, keyed);
    forall i | 0 <= i < |sorted|
      ensures sorted[i].0 == (sorted[i].1.entry.lastChange, sorted[i].1.filename)
    {
      assert sorted[i] in keyed;
    }
  }

  ghost function MarksOf(l: seq<File>): (r: seq<Mark>)
    reads l
    ensures |r| == |l| && forall k | 0 <= k < |l| :: r[k] == MarkOf(l[k])
  {
    seq(|l|, k requires 0 <= k < |l| reads l => MarkOf(l[k]))
  }

  lemma StartListing(l: seq<File>, at: map<File, nat>)
    requires Places(l, at)
    ensures Listing(l, MarksOf(l), at) && Turns(MarksOf(l), at, 0)
  {
    hide LinkedBy;
    var s := MarksOf(l);
    forall f | f in at
      ensures f.renamePeer != null <==> LinkedBy(s, at[f], 0)
    {
      NoTurnYet(s, at[f]);
    }
  }

  ghost function Renamed(files: seq<File>): set<File>
    reads files`entry
  {
    set f | f in files && f.entry.isRename
  }

  lemma RenamedFilter(files: seq<File>)
    ensures RenamedFile.Of(files, 0) == Renamed(files)
  {
  }

  /** `final_link`: the links that are there stay sound, exactly the records that `LinkedBy` names have one, and
      a record that was linked keeps its link unless a mate of its was not. */
  method FinalLink(files: seq<File>, ghost before: map<File, File?>)
    returns (ghost l: seq<File>, ghost s: seq<Mark>, ghost at: map<File, nat>)
    requires Distinct(Names(files)) && forall f | f in files :: f in before && before[f] == f.renamePeer
    modifies Renamed(files)`renamePeer
    ensures at.Keys == Renamed(files) && Places(l, at) && SortedByVersion(l)
    ensures |s| == |l| && forall f | f in at :: s[at[f]] == old(MarkOf(f))
    ensures Turns(s, at, |s|) && (old(Sound(Renamed(files))) ==> Sound(at.Keys)) && Relinked(at.Keys, before)
  {
    hide Distinct, Names, IsList, Sound, ByVersion, Filter.Of, Passing, Turns, SortedByVersion, Relinked;
    ghost var renamed := Renamed(files);
    RenamedFilter(files);
    var list := NewFilteredList(files, 0, RenamedFile);
    ByVersionList(list, renamed);
    ByVersionSorts(list);
    list := ByVersion(list);
    l := list;
    s := MarksOf(list);
    at := ListPlaces(list, renamed);
    StartListing(list, at);
    NothingRelinked(at.Keys, before);
    LinkSorted(list, s, at, before);
  }

  // ----- clean_renames -----

  /** Every mark that is left has its other end in the same manifest: still marked, of the same change and
      hash, and of the other kind. */
  ghost predicate NoOrphans(files: seq<File>)
    reads files, set f | f in files :: f.renamePeer
  {
    forall f | f in files && f.entry.isRename ::
      && f.renamePeer != null && f.renamePeer in files && f.renamePeer.entry.isRename
      && Partners(f, f.renamePeer)
  }

  /** A record without a partner loses its mark, and a tombstone its hash. */
  predicate LosesMark(e: Entry, e': Entry, linked: bool) {
    && e' == e.(isRename := e'.isRename, hash := e'.hash)
    && (e'.isRename <==> e.isRename && linked)
    && e'.hash == if e.isRename && !linked && e.isDeleted then ZERO_HASH else e.hash
  }

  lemma CleanLosesMark(e: Entry, linked: bool)
    ensures LosesMark(e, CleanEntry(e, linked), linked)
  {
    hide ZERO_HASH;
  }

  /** The loop of `clean_renames`. */
  method CleanMarks(files: seq<File>, ghost before: map<File, Entry>)
    requires forall f | f in files :: f in before && before[f] == f.entry
    modifies (set f | f in files && f.entry.isRename)`entry
    ensures forall f | f in files :: f in before && f.entry == CleanEntry(before[f], f.renamePeer != null)
    ensures forall f | f in files :: LosesMark(before[f], f.entry, f.renamePeer != null)
  {
    hide ZERO_HASH, LosesMark;
    for i := 0 to |files|
      invariant forall f | f in files ::
        f.entry == if f in files[..i] then CleanEntry(before[f], f.renamePeer != null) else before[f]
    {
      var file := files[i];
      assert files[..i + 1] == files[..i] + [file];
      if file.entry.isRename && file.renamePeer == null {
        file.entry := file.entry.(isRename := false);
        if file.entry.isDeleted {
          file.entry := file.entry.(hash := ZERO_HASH);
        }
      }
    }
    MarksLost(files, before);
  }

  lemma MarksLost(files: seq<File>, before: map<File, Entry>)
    requires forall f | f in files :: f in before && f.entry == CleanEntry(before[f], f.renamePeer != null)
    ensures forall f | f in files :: LosesMark(before[f], f.entry, f.renamePeer != null)
  {
    hide CleanEntry, LosesMark;
    forall f | f in files
      ensures LosesMark(before[f], f.entry, f.renamePeer != null)
    {
      CleanLosesMark(before[f], f.renamePeer != null);
    }
  }

  /** The names whose records have a partner. */
  ghost function LinkedNames(files: seq<File>): set<string>
    requires Distinct(Names(files))
    reads files`renamePeer
  {
    set n | n in Index(files) && Index(files)[n].renamePeer != null
  }

  lemma CleanedContents(files: seq<File>, before: map<File, Entry>, old_: Entries)
    requires Distinct(Names(files)) && forall f | f in files ::
      f in before && f.entry == CleanEntry(before[f], f.renamePeer != null)
    requires old_.Keys == Index(files).Keys && forall n | n in old_ :: old_[n] == before[Index(files)[n]]
    ensures Contents(files) == Clean(old_, LinkedNames(files))
  {
    hide Distinct, Names, CleanEntry;
  }

  /** `Sound`, said about the entries as they were. */
  ghost predicate SoundBefore(fs: set<File>, before: map<File, Entry>)
    reads fs`renamePeer
  {
    forall f | f in fs && f.renamePeer != null ::
      && f.renamePeer in fs && f.renamePeer.renamePeer != null && f in before && f.renamePeer in before
      && before[f].lastChange == before[f.renamePeer].lastChange && before[f].hash == before[f.renamePeer].hash
      && before[f].isDeleted != before[f.renamePeer].isDeleted
  }

  lemma SoundEntries(fs: set<File>, before: map<File, Entry>)
    requires Sound(fs) && forall f | f in fs :: f in before && before[f] == f.entry
    ensures SoundBefore(fs, before)
  {
  }

  lemma NoneIsOrphaned(files: seq<File>, before: map<File, Entry>, renamed: set<File>)
    requires forall f | f in files :: f in before && f.entry == CleanEntry(before[f], f.renamePeer != null)
    requires renamed == (set f | f in files && f in before && before[f].isRename) && SoundBefore(renamed, before)
    ensures NoOrphans(files)
  {
  }

  lemma OldContents(files: seq<File>, before: map<File, Entry>)
    requires Distinct(Names(files)) && forall f | f in files :: f in before && before[f] == f.entry
    ensures forall n | n in Contents(files) :: Contents(files)[n] == before[Index(files)[n]]
  {
    hide Distinct, Names;
  }

  /** The record is linked, and so are all its mates. */
  ghost predicate Bound(fs: set<File>, f: File)
    reads fs`entry, fs`renamePeer, f`entry, f`renamePeer
  {
    f in fs && f.renamePeer != null && forall p | p in fs && Partners(f, p) :: p.renamePeer != null
  }

  ghost function AllBound(files: seq<File>): set<File>
    reads files`entry, files`renamePeer
  {
    set f | f in files && Bound(Renamed(files), f)
  }

  lemma BoundLinks(files: seq<File>, before: map<File, File?>)
    requires forall f | f in files :: f in before && before[f] == f.renamePeer
    ensures forall f | f in AllBound(files) ::
      f in Renamed(files) && f in before && before[f] != null && !Free(Renamed(files), before, f)
  {
  }

  lemma BoundStay(fs: set<File>, bound: set<File>, before: map<File, File?>)
    requires Relinked(fs, before) && bound <= fs && forall f | f in bound ::
      f in before && before[f] != null && !Free(fs, before, f)
    ensures forall f | f in bound :: f.renamePeer == before[f] && f.renamePeer != null
  {
    hide Free;
  }

  lemma RenamedAmong(files: seq<File>, before: map<File, Entry>)
    requires forall f | f in files :: f in before && before[f] == f.entry
    ensures (forall f | f in Renamed(files) :: f in files) && Renamed(files) == (set f | f in files && f.entry.isRename)
    ensures Renamed(files) == (set f | f in files && f in before && before[f].isRename)
  {
  }

  lemma LinkedIsKept(e: Entry)
    ensures CleanEntry(e, true) == e
  {
  }

  /** `clean_renames`: if every link that is there leads to the other end of its rename, and in particular if
      there is none yet, no rename is left without its other end; and what was a renamed-from file without
      one is an ordinary tombstone. A link that leads elsewhere stays as it is if the mates of its record are
      linked. */
  method CleanRenames(m: Manifest)
    requires m.Valid()
    modifies Renamed(m.files)`renamePeer, Renamed(m.files)`entry
    ensures old(Sound(Renamed(m.files))) ==> NoOrphans(m.files)
    ensures Contents(m.files) == Clean(old(Contents(m.files)), LinkedNames(m.files))
    ensures forall f | f in m.files :: LosesMark(old(f.entry), f.entry, f.renamePeer != null)
    ensures forall f | f in old(AllBound(m.files)) ::
      f in m.files && f.renamePeer == old(f.renamePeer) && f.entry == old(f.entry)
  {
    hide Distinct, Names, CleanEntry, Turns, SortedByVersion, Places, NoOrphans, LinkedNames, Index, Clean, Sound,
      SoundBefore, LinkedBy, Contents, Bound, Free, Relinked, Renamed, LosesMark;
    ghost var old_ := Contents(m.files);
    ghost var renamed := Renamed(m.files);
    ghost var before, links := map f | f in m.files :: f.entry, map f | f in m.files :: f.renamePeer;
    ghost var bound := AllBound(m.files);
    BoundLinks(m.files, links);
    RenamedAmong(m.files, before);
    OldContents(m.files, before);
    ghost var l, s, at := FinalLink(m.files, links);
    BoundStay(renamed, bound, links);
    ghost var sound := old(Sound(Renamed(m.files)));
    if sound {
      SoundEntries(renamed, before);
    }
    CleanMarks(m.files, before);
    forall f | f in bound
      ensures f.entry == before[f]
    {
      LinkedIsKept(before[f]);
    }
    if sound {
      NoneIsOrphaned(m.files, before, renamed);
    }
    CleanedContents(m.files, before, old_);
  }

  // ----- a tombstone that comes late, on records -----

  /** Of two records of one change the one with the smaller name comes first. */
  lemma FirstByName(l: seq<File>, at: map<File, nat>, f: File, p: File)
    requires Places(l, at) && SortedByVersion(l) && f in at && p in at && f.entry.lastChange == p.entry.lastChange
    requires Strcmp(p.filename, f.filename) > 0
    ensures at[f] < at[p]
  {
    hide Strcmp;
    assert l[at[f]] == f && l[at[p]] == p;
  }

  lemma ThreePlaces(l: seq<File>, at: map<File, nat>, a: File, b: File, c: File)
    requires Places(l, at) && at.Keys == {a, b, c} && at[a] < at[b] < at[c]
    ensures |l| == 3 && at[a] == 0 && at[b] == 1 && at[c] == 2
  {
    assert l[0] in at.Keys && l[1] in at.Keys && l[2] in at.Keys && l[|l| - 1] in at.Keys;
  }

  lemma NamesAscend()
    ensures Strcmp("/b", "/a") > 0 && Strcmp("/c", "/b") > 0
  {
  }

  /** A late tombstone with the file and another tombstone before it, as `final_link` leaves them. */
  lemma LateLinks(l: seq<File>, s: seq<Mark>, at: map<File, nat>, a: File, b: File, c: File)
    requires Places(l, at) && SortedByVersion(l) && at.Keys == {a, b, c} && |s| == |l| && Turns(s, at, |s|)
    requires a.filename == "/a" && b.filename == "/b" && c.filename == "/c"
    requires a.entry.lastChange == b.entry.lastChange == c.entry.lastChange
    requires var v, hash := b.entry.lastChange, b.entry.hash;
      var dead, live := Mark(v, hash, true, false), Mark(v, hash, false, false);
      s[at[a]] == dead && s[at[b]] == live && s[at[c]] == dead
    ensures a.renamePeer != null && b.renamePeer != null && c.renamePeer == null
  {
    hide LinkedBy, Strcmp, SortedByVersion, Places;
    NamesAscend();
    FirstByName(l, at, a, b);
    FirstByName(l, at, b, c);
    ThreePlaces(l, at, a, b, c);
    TombstoneComesLate(b.entry.lastChange, b.entry.hash);
    assert s == [s[0], s[1], s[2]];
  }

  /** Three records of one change and hash, a file "/b" that two others, "/a" and "/c", may have become: `final_link`
      leaves the second tombstone without a partner, although the file is its mate. */
  method LateTombstone(lastChange: int, hash: string) returns (files: seq<File>)
    ensures |files| == 3 && Distinct(Names(files)) && forall f | f in files :: fresh(f)
    ensures files[2].entry.isDeleted && files[2].entry.isRename && Partners(files[2], files[1])
    ensures files[0].renamePeer != null && files[1].renamePeer != null && files[2].renamePeer == null
  {
    hide Turns, SortedByVersion, Relinked, Sound, Places, Renamed;
    var live := Entry(false, true, false, false, false, false, false, false, true, hash, lastChange);
    var dead := Entry(false, false, false, true, false, false, false, false, true, hash, lastChange);
    var a := new File("/a", dead);
    var b := new File("/b", live);
    var c := new File("/c", dead);
    files := [a, b, c];
    assert Names(files) == ["/a", "/b", "/c"];
    AllRenamed(files);
    ghost var l, s, at := FinalLink(files, map[a := null, b := null, c := null]);
    LateLinks(l, s, at, a, b, c);
  }

  lemma AllRenamed(files: seq<File>)
    requires forall f | f in files :: f.entry.isRename
    ensures Renamed(files) == set f | f in files
  {
  }
}
