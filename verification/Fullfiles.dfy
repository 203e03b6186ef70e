/** `get_deduplicated_fullfile_list` and the tasks made from it (src/fullfiles.c): one fullfile for every
    hash that is new in this release, and no two threads that write the same one. */
module Fullfiles {
  import opened Strings
  import opened Sorting
  import opened Files
  import opened Heuristics
  import opened Matching
  import opened Pruning
  import opened Release
  import opened Availability

  // ----- the two loops, as values -----

  /** The second loop. */
  function Uniques(prev: string, rest: seq<Entry>, version: int): seq<Entry>
    decreases |rest|
  {
    if rest == [] then []
    else if rest[0].isDeleted || rest[0].lastChange != version || rest[0].hash == prev
      then Uniques(prev, rest[1..], version)
    else [rest[0]] + Uniques(rest[0].hash, rest[1..], version)
  }

  /** Records before the first one of this release are passed over; the list goes on from there. */
  function Deduplicated(list: seq<Entry>, version: int): seq<Entry> {
    if list == [] then []
    else if list[0].lastChange == version then [list[0]] + Uniques(list[0].hash, list, version)
    else Deduplicated(list[1..], version)
  }

  predicate HashSorted(list: seq<Entry>) {
    forall i, j | 0 <= i < j < |list| :: StringLe(list[i].hash, list[j].hash)
  }

  // ----- the reference: who stands for a hash -----

  function FirstNew(list: seq<Entry>, version: int): Option<Entry> {
    if list == [] then None else if list[0].lastChange == version then Some(list[0]) else FirstNew(list[1..], version)
  }

  /** The first new record with this hash that is not deleted. */
  function FirstKept(list: seq<Entry>, version: int, hash: string): (r: Option<Entry>)
    ensures r.Some? ==> r.value in list && r.value.hash == hash && r.value.lastChange == version && !r.value.isDeleted
  {
    if list == [] then None
    else if !list[0].isDeleted && list[0].lastChange == version && list[0].hash == hash then Some(list[0])
    else FirstKept(list[1..], version, hash)
  }

  /** The first new record of all stands for its hash even if it is deleted. */
  function Representative(list: seq<Entry>, version: int, hash: string): Option<Entry> {
    var first := FirstNew(list, version);
    if first.Some? && first.value.hash == hash then first else FirstKept(list, version, hash)
  }

  function WithHash(list: seq<Entry>, hash: string): (r: seq<Entry>)
    ensures forall i | 0 <= i < |r| :: r[i] in list && r[i].hash == hash
  {
    if list == [] then [] else (if list[0].hash == hash then [list[0]] else []) + WithHash(list[1..], hash)
  }

  lemma {:induction false} NoneKept(list: seq<Entry>, version: int, hash: string)
    requires forall i | 0 <= i < |list| :: list[i].hash != hash
    ensures FirstKept(list, version, hash) == None
  {
    if list != [] {
      NoneKept(list[1..], version, hash);
    }
  }

  lemma Above(prev: string, rest: seq<Entry>)
    requires HashSorted(rest) && rest != [] && StringLe(prev, rest[0].hash) && rest[0].hash != prev
    ensures forall i | 0 <= i < |rest| :: rest[i].hash != prev
  {
    forall i | 0 <= i < |rest|
      ensures rest[i].hash != prev
    {
      if i > 0 && rest[i].hash == prev {
        Antisymmetric(prev, rest[0].hash);
        assert false;
      }
    }
  }

  lemma {:induction false} UniquesOf(prev: string, rest: seq<Entry>, version: int, hash: string)
    requires HashSorted(rest) && forall i | 0 <= i < |rest| :: StringLe(prev, rest[i].hash)
    ensures WithHash(Uniques(prev, rest, version), hash) ==
      if hash == prev then [] else AsList(FirstKept(rest, version, hash))
    decreases |rest|
  {
    hide StringLe;
    if rest != [] {
      if rest[0].isDeleted || rest[0].lastChange != version || rest[0].hash == prev {
        UniquesOf(prev, rest[1..], version, hash);
      } else {
        UniquesOf(rest[0].hash, rest[1..], version, hash);
        var u := Uniques(rest[0].hash, rest[1..], version);
        assert ([rest[0]] + u)[1..] == u;
        Above(prev, rest);
        if hash == prev {
          NoneKept(rest[1..], version, hash);
        }
      }
    }
  }

  /** The list holds exactly one record for each hash that some new record has: its representative. */
  lemma {:induction false} OneForEachHash(list: seq<Entry>, version: int, hash: string)
    requires HashSorted(list)
    ensures WithHash(Deduplicated(list, version), hash) == AsList(Representative(list, version, hash))
  {
    if list != [] {
      if list[0].lastChange == version {
        var u := Uniques(list[0].hash, list, version);
        assert ([list[0]] + u)[1..] == u;
        assert StringLe(list[0].hash, list[0].hash);
        UniquesOf(list[0].hash, list, version, hash);
      } else {
        OneForEachHash(list[1..], version, hash);
      }
    }
  }

  lemma {:induction false} Occurs(list: seq<Entry>, i: nat)
    requires i < |list|
    ensures list[i] in WithHash(list, list[i].hash)
  {
    if i > 0 {
      Occurs(list[1..], i - 1);
    }
  }

  lemma {:induction false} OccursTwice(list: seq<Entry>, i: nat, j: nat)
    requires i < j < |list| && list[i].hash == list[j].hash
    ensures |WithHash(list, list[i].hash)| >= 2
  {
    if i > 0 {
      OccursTwice(list[1..], i - 1, j - 1);
    } else {
      Occurs(list[1..], j - 1);
      assert list[1..][j - 1] == list[j];
      assert WithHash(list[1..], list[0].hash) != [];
    }
  }

  /** No two tasks have the same hash, so no two threads write the same fullfile. */
  lemma DistinctHashes(list: seq<Entry>, version: int)
    requires HashSorted(list)
    ensures var r := Deduplicated(list, version);
      (forall i, j | 0 <= i < j < |r| :: r[i].hash != r[j].hash)
      && forall i | 0 <= i < |r| :: r[i].lastChange == version && r[i] in list
  {
    hide HashSorted, Deduplicated;
    var r := Deduplicated(list, version);
    forall i, j | 0 <= i < j < |r|
      ensures r[i].hash != r[j].hash
    {
      if r[i].hash == r[j].hash {
        OccursTwice(r, i, j);
        OneForEachHash(list, version, r[i].hash);
        assert false;
      }
    }
    forall i | 0 <= i < |r|
      ensures r[i].lastChange == version && r[i] in list
    {
      Occurs(r, i);
      OneForEachHash(list, version, r[i].hash);
      FirstIsNew(list, version);
    }
  }

  lemma {:induction false} FirstIsNew(list: seq<Entry>, version: int)
    ensures FirstNew(list, version).Some? ==>
      FirstNew(list, version).value.lastChange == version && FirstNew(list, version).value in list
  {
    if list != [] {
      FirstIsNew(list[1..], version);
    }
  }

  /** A fullfile for this hash is made: the tasks of ghosts are not submitted, those of deleted files do nothing. */
  predicate Made(tasks: seq<Entry>, hash: string) {
    exists i :: 0 <= i < |tasks| && tasks[i].hash == hash && tasks[i].Live()
  }

  predicate Wanted(list: seq<Entry>, version: int, hash: string) {
    exists i :: 0 <= i < |list| && list[i].hash == hash && list[i].Live() && list[i].lastChange == version
  }

  /** A dead record took the place of the live ones with its hash. */
  predicate Shadowed(list: seq<Entry>, version: int, hash: string) {
    var r := Representative(list, version, hash); r.Some? && !r.value.Live()
  }

  lemma {:induction false} KeptExists(list: seq<Entry>, version: int, i: nat)
    requires i < |list| && !list[i].isDeleted && list[i].lastChange == version
    ensures FirstKept(list, version, list[i].hash).Some?
  {
    if i > 0 {
      KeptExists(list[1..], version, i - 1);
    }
  }

  /** Exactly which fullfiles are made. */
  lemma MadeExactly(list: seq<Entry>, version: int, hash: string)
    requires HashSorted(list)
    ensures Made(Deduplicated(list, version), hash) <==> Wanted(list, version, hash) && !Shadowed(list, version, hash)
  {
    hide HashSorted, Deduplicated;
    var r := Deduplicated(list, version);
    OneForEachHash(list, version, hash);
    FirstIsNew(list, version);
    if i :| 0 <= i < |r| && r[i].hash == hash && r[i].Live() {
      Occurs(r, i);
      var k :| 0 <= k < |list| && list[k] == r[i];
    }
    if i :| 0 <= i < |list| && list[i].hash == hash && list[i].Live() && list[i].lastChange == version {
      KeptExists(list, version, i);
      if !Shadowed(list, version, hash) {
        assert WithHash(r, hash)[0] in r && WithHash(r, hash)[0].Live();
      }
    }
  }

  /** Dead records have the zero hash and live ones do not: nobody is shadowed. */
  predicate DeadAreZero(list: seq<Entry>) {
    forall i | 0 <= i < |list| :: list[i].Live() <==> list[i].hash != ZERO_HASH
  }

  lemma EveryFullfileIsMade(list: seq<Entry>, version: int, hash: string)
    requires HashSorted(list) && DeadAreZero(list)
    ensures Made(Deduplicated(list, version), hash) <==> Wanted(list, version, hash)
  {
    hide HashSorted, Deduplicated, ZERO_HASH;
    MadeExactly(list, version, hash);
    FirstIsNew(list, version);
  }

  /** A renamed-from tombstone carries the hash of a live file. When it comes first of all new records, the
      live file gets no fullfile. */
  lemma TombstoneShadows(tomb: Entry, live: Entry, version: int)
    requires tomb.isDeleted && live.Live() && tomb.hash == live.hash && tomb.lastChange == live.lastChange == version
    ensures HashSorted([tomb, live]) && Wanted([tomb, live], version, live.hash)
    ensures !Made(Deduplicated([tomb, live], version), live.hash)
  {
    var list := [tomb, live];
    assert list[1].Live();
    MadeExactly(list, version, live.hash);
  }

  // ----- the lists -----

  function EntriesOf(files: seq<File>): (r: seq<Entry>)
    reads files
    ensures |r| == |files| && forall i | 0 <= i < |files| :: r[i] == files[i].entry
  {
    seq(|files|, i requires 0 <= i < |files| reads files => files[i].entry)
  }

  lemma SortedEntries<K>(keyed: seq<(K, File)>, le: (K, K) -> bool)
    ensures multiset(EntriesOf(Seconds(Sort(keyed, le)))) == multiset(EntriesOf(Seconds(keyed)))
    ensures multiset(Seconds(Sort(keyed, le))) == multiset(Seconds(keyed))
  {
    hide Sort;
    var table := map f | f in Seconds(keyed) :: f.entry;
    var look := (f: File) => if f in table then table[f] else BLANK;
    SortMapped(keyed, le, look);
    SortMapped(keyed, le, (f: File) => f);
    assert Seconds(keyed) == Mapped(keyed, (f: File) => f);
    assert Seconds(Sort(keyed, le)) == Mapped(Sort(keyed, le), (f: File) => f);
    assert EntriesOf(Seconds(keyed)) == Mapped(keyed, look);
    Permuted(Seconds(Sort(keyed, le)), Seconds(keyed));
    assert EntriesOf(Seconds(Sort(keyed, le))) == Mapped(Sort(keyed, le), look);
  }

  function HashKeyed(files: seq<File>): (r: seq<(string, File)>)
    reads files
    ensures |r| == |files| && forall i | 0 <= i < |files| :: r[i] == (files[i].entry.hash, files[i])
  {
    seq(|files|, i requires 0 <= i < |files| reads files => (files[i].entry.hash, files[i]))
  }

  function ByHash(files: seq<File>): seq<File>
    reads files
  {
    Seconds(Sort(HashKeyed(files), StringLe))
  }

  lemma ByHashSorts(files: seq<File>)
    ensures HashSorted(EntriesOf(ByHash(files)))
    ensures multiset(ByHash(files)) == multiset(files)
  {
    hide StringLe;
    StringLeIsTotal();
    var keyed := HashKeyed(files);
    var sorted := Sort(keyed, StringLe);
    SortIsStable(keyed, StringLe);
    Permuted(sorted, keyed);
    SortedEntries(keyed, StringLe);
    assert Seconds(keyed) == files;
    forall i | 0 <= i < |sorted|
      ensures sorted[i].0 == sorted[i].1.entry.hash
    {
      assert sorted[i] in keyed;
    }
  }

  lemma ByFilenameEntries(files: seq<File>)
    ensures multiset(EntriesOf(ByFilename(files))) == multiset(EntriesOf(files))
  {
    hide FilenameLe;
    SortedEntries(FilenameKeyed(files), FilenameLe);
    assert Seconds(FilenameKeyed(files)) == files;
  }

  /** The records taken so far and those still to come make up the result. */
  ghost predicate Taking(out: seq<File>, prev: string, rest: seq<File>, version: int, all: seq<Entry>)
    reads out, rest
  {
    multiset(EntriesOf(out)) + multiset(Uniques(prev, EntriesOf(rest), version)) == multiset(all)
  }

  lemma EntriesSplit(files: seq<File>)
    requires files != []
    ensures EntriesOf(files)[0] == files[0].entry && EntriesOf(files)[1..] == EntriesOf(files[1..])
  {
  }

  lemma EntriesPrepend(f: File, files: seq<File>)
    ensures EntriesOf([f] + files) == [f.entry] + EntriesOf(files)
    ensures multiset(EntriesOf([f] + files)) == multiset{f.entry} + multiset(EntriesOf(files))
  {
  }

  lemma TakeStep(out: seq<File>, prev: string, rest: seq<File>, version: int, all: seq<Entry>)
    requires Taking(out, prev, rest, version, all) && rest != []
    ensures var e := rest[0].entry;
      if e.isDeleted || e.lastChange != version || e.hash == prev then Taking(out, prev, rest[1..], version, all)
      else Taking([rest[0]] + out, e.hash, rest[1..], version, all)
  {
    EntriesSplit(rest);
    EntriesPrepend(rest[0], out);
    var u := Uniques(rest[0].entry.hash, EntriesOf(rest[1..]), version);
    assert multiset([rest[0].entry] + u) == multiset{rest[0].entry} + multiset(u);
  }

  lemma FirstTaken(rest: seq<File>, version: int)
    requires rest != [] && rest[0].entry.lastChange == version
    ensures Taking([rest[0]], rest[0].entry.hash, rest, version, Deduplicated(EntriesOf(rest), version))
  {
    EntriesSplit(rest);
    EntriesPrepend(rest[0], []);
    var u := Uniques(rest[0].entry.hash, EntriesOf(rest), version);
    assert multiset([rest[0].entry] + u) == multiset{rest[0].entry} + multiset(u);
  }

  lemma NotYet(rest: seq<File>, version: int)
    requires rest != [] && rest[0].entry.lastChange != version
    ensures Deduplicated(EntriesOf(rest), version) == Deduplicated(EntriesOf(rest[1..]), version)
  {
    EntriesSplit(rest);
  }

  /** The loops of `get_deduplicated_fullfile_list`. */
  method Deduplicate(files: seq<File>, version: int) returns (outfiles: seq<File>)
    ensures multiset(EntriesOf(outfiles)) == multiset(Deduplicated(EntriesOf(files), version))
    ensures forall i, j | 0 <= i < j < |outfiles| :: FilenameLe((outfiles[i].filename, outfiles[i].entry.isDeleted),
                                                                (outfiles[j].filename, outfiles[j].entry.isDeleted))
  {
    hide Deduplicated, Taking, ByFilename, EntriesOf, FilenameLe;
    var list := files;
    ghost var all := Deduplicated(EntriesOf(list), version);
    while list != [] && list[0].entry.lastChange != version
      invariant Deduplicated(EntriesOf(list), version) == all
      decreases |list|
    {
      NotYet(list, version);
      list := list[1..];
    }
    outfiles := [];
    NoneNew(version);
    if list != [] {
      FirstTaken(list, version);
      var prev := list[0];
      outfiles := [prev];
      while list != []
        invariant Taking(outfiles, prev.entry.hash, list, version, all)
        decreases |list|
      {
        var file := list[0];
        TakeStep(outfiles, prev.entry.hash, list, version, all);
        list := list[1..];
        if file.entry.isDeleted || file.entry.lastChange != version {
          continue;
        }
        if prev.entry.hash != file.entry.hash {
          outfiles := [file] + outfiles;
          prev := file;
        }
      }
      NothingToCome(outfiles, prev.entry.hash, version, all);
    }
    ByFilenameEntries(outfiles);
    FilenameSorted(outfiles);
    outfiles := ByFilename(outfiles);
  }

  /** `get_deduplicated_fullfile_list`. */
  method GetDeduplicatedFullfileList(m: Manifest) returns (outfiles: seq<File>)
    modifies m`files
    ensures multiset(m.files) == multiset(old(m.files)) && HashSorted(EntriesOf(m.files))
    ensures m.files == old(ByHash(m.files))
    ensures forall i, j | 0 <= i < j < |outfiles| :: FilenameLe((outfiles[i].filename, outfiles[i].entry.isDeleted),
                                                                (outfiles[j].filename, outfiles[j].entry.isDeleted))
    ensures multiset(EntriesOf(outfiles)) == multiset(Deduplicated(EntriesOf(m.files), m.version))
  {
    hide HashSorted, Deduplicated, ByHash, EntriesOf, FilenameLe;
    ByHashSorts(m.files);
    m.files := ByHash(m.files);
    outfiles := Deduplicate(m.files, m.version);
  }

  lemma NoneNew(version: int)
    ensures Deduplicated(EntriesOf([]), version) == [] && EntriesOf([]) == []
  {
  }

  lemma NothingToCome(out: seq<File>, prev: string, version: int, all: seq<Entry>)
    requires Taking(out, prev, [], version, all)
    ensures multiset(EntriesOf(out)) == multiset(all)
  {
  }

  // ----- over all releases -----

  /** The list holds the entries of the table, in any order. */
  ghost predicate Lists(list: seq<Entry>, m: Entries) {
    && (forall i | 0 <= i < |list| :: exists n | n in m :: m[n] == list[i])
    && (forall n | n in m :: m[n] in list)
  }

  predicate ZeroEntry(e: Entry) {
    (e.Live() <==> e.hash != ZERO_HASH) && !e.isRename
  }

  predicate ZeroMeansDead(m: Entries) {
    forall n | n in m :: ZeroEntry(m[n])
  }

  /** The tasks make the fullfiles that a release is recorded with, no more and no less. */
  lemma TasksMakeFullfiles(list: seq<Entry>, m: Entries, version: int, hash: string)
    requires HashSorted(list) && Lists(list, m) && ZeroMeansDead(m)
    ensures Made(Deduplicated(list, version), hash) <==> hash in FullfileHashes(m, version)
  {
    hide HashSorted, Deduplicated, ZERO_HASH, Made;
    forall i | 0 <= i < |list|
      ensures list[i].Live() <==> list[i].hash != ZERO_HASH
    {
      var n :| n in m && m[n] == list[i];
    }
    EveryFullfileIsMade(list, version, hash);
    if hash in FullfileHashes(m, version) {
      var n :| n in m && m[n].Live() && m[n].lastChange == version && m[n].hash == hash;
      assert m[n] in list;
      var i :| 0 <= i < |list| && list[i] == m[n];
      assert Wanted(list, version, hash);
    }
    if Wanted(list, version, hash) {
      var i :| 0 <= i < |list| && list[i].hash == hash && list[i].Live() && list[i].lastChange == version;
      var n :| n in m && m[n] == list[i];
      assert m[n].hash in FullfileHashes(m, version);
    }
  }

  lemma ZeroStays(cfg: Config, n: string, e: Entry, linked: bool)
    requires ZeroEntry(e)
    ensures var p := PruneEntry(cfg, n, CleanEntry(e, linked)); p.Some? ==> ZeroEntry(p.value)
  {
    hide AnyPrefix;
  }

  lemma ZeroMatchEntry(a: Option<Entry>, b: Option<Entry>, version: int, minversion: int)
    requires (a.Some? ==> ZeroEntry(a.value)) && (b.Some? ==> ZeroEntry(b.value))
    ensures var r := MatchEntry(a, b, version, minversion);
      (a.Some? || b.Some? ==> r.Some?) && (r.Some? ==> ZeroEntry(r.value))
  {
  }

  lemma ZeroMarked(n: string, e: Entry)
    requires ZeroEntry(e)
    ensures ZeroEntry(MarkEntry(n, e))
  {
    hide ConfigPath, StatePath, BootPath, ZERO_HASH;
  }

  lemma ZeroMatched(cfg: Config, s: State, in_: Input, n: string)
    requires Sensible(s, in_) && (s.full.Some? ==> ZeroMeansDead(s.full.value.entries)) && n in FullMatched(cfg, s, in_)
    ensures ZeroEntry(FullMatched(cfg, s, in_)[n])
  {
    hide ConfigPath, StatePath, BootPath, ZERO_HASH, MatchEntry, MarkEntry, Tombstone;
    var o, r := OldFull(s, in_).entries, FullRaw(in_.image, in_.version);
    if n in o {
      ZeroMarked(n, o[n]);
    }
    if n in r {
      ZeroMarked(n, r[n]);
    }
    ZeroMatchEntry(Get(Marked(o), n), Get(Marked(r), n), in_.version, cfg.minversion);
  }

  lemma {:induction false} MaximizedOnly(works: seq<Entries>, full: Entries, n: string)
    requires n in full
    ensures MaximizeAll(works, full)[n] == full[n].(lastChange := MaximizeAll(works, full)[n].lastChange)
  {
    if works != [] {
      hide Maximize;
      MaximizedOnce(works[0], full, n);
      MaximizedOnly(works[1..], Maximize(works[0], full), n);
    }
  }

  lemma ZeroWritten(cfg: Config, s: State, in_: Input, works: seq<Entries>)
    requires Sensible(s, in_) && (s.full.Some? ==> ZeroMeansDead(s.full.value.entries))
    ensures ZeroMeansDead(WrittenFull(cfg, in_, FullManifest(cfg, s, in_), works))
  {
    hide FullMatched, FullManifest, Sensible, ConfigPath, StatePath, BootPath, ZERO_HASH, PruneEntry, CleanEntry,
      MaximizeAll;
    var full := FullManifest(cfg, s, in_);
    var w := WrittenFull(cfg, in_, full, works);
    forall n | n in w
      ensures ZeroEntry(w[n])
    {
      FullFromMatched(cfg, s, in_, n);
      ZeroMatched(cfg, s, in_, n);
      MaximizedOnly(works, full, n);
      ZeroStays(cfg, n, MaximizeAll(works, full)[n], n in in_.fullLinked);
    }
  }

  ghost predicate ZeroFull(s: State) {
    s.full.Some? ==> ZeroMeansDead(s.full.value.entries)
  }

  /** In every full manifest ever written the dead entries, and only they, have the zero hash: so the
      work list of a release covers every hash that is new in it. */
  lemma {:induction false} DeadStayZero(cfg: Config, inputs: seq<Input>)
    ensures ZeroFull(Run(cfg, inputs))
  {
    hide FullManifest, WrittenFull, BundleTurns, Sensible, ZeroMeansDead;
    if inputs != [] {
      var before, last := inputs[..|inputs| - 1], inputs[|inputs| - 1];
      var s := Run(cfg, before);
      DeadStayZero(cfg, before);
      if Sensible(s, last) && CreateUpdate(cfg, s, last).Some? {
        var full := FullManifest(cfg, s, last);
        var groups := [IncludeLists.CORE] + Others(last.groups);
        var r := BundleTurns(cfg, s, last, full, groups, BeginBundles(s, last));
        ZeroWritten(cfg, s, last, Works(groups, r.newWork));
      }
    } else {
      assert Run(cfg, inputs).full == None;
    }
  }

  /** The tasks made from the full manifest make exactly the fullfiles that availability counts on, and each
      of them once. */
  ghost predicate Complete(s: State) {
    s.full.Some? ==> forall list, hash | Lists(list, s.full.value.entries) && HashSorted(list) ::
      Made(Deduplicated(list, s.version), hash) <==> hash in FullfileHashes(s.full.value.entries, s.version)
  }

  lemma ZeroIsComplete(s: State)
    requires ZeroFull(s)
    ensures Complete(s)
  {
    hide HashSorted, Deduplicated, FullfileHashes, ZeroMeansDead, Made, Lists;
    if s.full.Some? {
      forall list, hash | Lists(list, s.full.value.entries) && HashSorted(list)
        ensures Made(Deduplicated(list, s.version), hash) <==> hash in FullfileHashes(s.full.value.entries, s.version)
      {
        TasksMakeFullfiles(list, s.full.value.entries, s.version, hash);
      }
    }
  }

  /** After any sequence of builds, no hash of the release goes without its fullfile. */
  lemma EveryReleaseIsComplete(cfg: Config, inputs: seq<Input>)
    ensures Complete(Run(cfg, inputs))
  {
    hide Run, Complete, ZeroFull;
    DeadStayZero(cfg, inputs);
    ZeroIsComplete(Run(cfg, inputs));
  }
}
