/** The records of a manifest (`struct file`, `struct manifest` in include/swupd.h) and the
    pure predicates over them. */
module Files {
  import opened Strings
  import opened Sorting

  datatype Option<+T> = None | Some(value: T)

  /** The hash of everything that has no content: 64 zero characters. */
  const ZERO_HASH: string := "0000000000000000000000000000000000000000000000000000000000000000"

  /** The part of a file record that a manifest line carries, apart from the name. */
  datatype Entry = Entry(
    isDir: bool, isFile: bool, isLink: bool,
    isDeleted: bool, isGhosted: bool,
    isConfig: bool, isState: bool, isBoot: bool, isRename: bool,
    hash: string, lastChange: int)
  {
    /** Neither deleted nor ghosted: a client may have to download it. */
    predicate Live() {
      !isDeleted && !isGhosted
    }

    predicate Untyped() {
      !isDir && !isFile && !isLink
    }

    /** Exactly one of the three type bits, as after a successful stat. */
    predicate Typed() {
      || (isFile && !isDir && !isLink)
      || (isDir && !isFile && !isLink)
      || (isLink && !isFile && !isDir)
    }
  }

  /** A manifest seen as a table from names to entries. */
  type Entries = map<string, Entry>

  function Get(m: Entries, name: string): Option<Entry> {
    if name in m then Some(m[name]) else None
  }

  /** A record without its links. */
  type Line = (string, Entry)

  function AsList<T>(o: Option<T>): seq<T> {
    if o.Some? then [o.value] else []
  }

  /** An entry for records that are in no list. */
  const BLANK := Entry(false, false, false, true, false, false, false, false, false, "", 0)

  class File {
    const filename: string
    var entry: Entry
    var size: nat
    var peer: File?
    var renamePeer: File?
    /** A double in the original; every summand of a score is a whole number. */
    var renameScore: int

    /** A zeroed record, as calloc leaves it, with the given printed part. */
    constructor (filename: string, entry: Entry)
      ensures this.filename == filename && this.entry == entry
      ensures size == 0 && peer == null && renamePeer == null && renameScore == 0
    {
      this.filename := filename;
      this.entry := entry;
      size, peer, renamePeer, renameScore := 0, null, null, 0;
    }
  }

  function Names(files: seq<File>): (r: seq<string>)
    ensures |r| == |files|
    ensures forall i | 0 <= i < |files| :: r[i] == files[i].filename
  {
    seq(|files|, i requires 0 <= i < |files| => files[i].filename)
  }

  /** The records of a list by name. */
  ghost function Index(files: seq<File>): (r: map<string, File>)
    requires Distinct(Names(files))
    ensures forall n | n in r :: r[n].filename == n && r[n] in files
    ensures forall i | 0 <= i < |files| :: files[i].filename in r && r[files[i].filename] == files[i]
  {
    assert forall i, j | 0 <= i < j < |files| :: Names(files)[i] != Names(files)[j];
    map i | 0 <= i < |files| :: files[i].filename := files[i]
  }

  lemma RecordOf(files: seq<File>, f: File)
    requires Distinct(Names(files)) && f in files
    ensures f.filename in Index(files) && Index(files)[f.filename] == f
  {
    hide Distinct;
    var i :| 0 <= i < |files| && files[i] == f;
  }

  /** The table a list of records stands for. */
  ghost function Contents(files: seq<File>): (r: Entries)
    requires Distinct(Names(files))
    reads files`entry
    ensures r.Keys == Index(files).Keys
    ensures forall n | n in r :: r[n] == Index(files)[n].entry
  {
    map n | n in Index(files) :: Index(files)[n].entry
  }

  lemma IsRecord(l: seq<File>, k: nat)
    requires Distinct(Names(l)) && k < |l|
    ensures l[k].filename in Index(l) && Index(l)[l[k].filename] == l[k] && l[k] in Index(l).Values
    ensures l[k].filename in Contents(l) && Contents(l)[l[k].filename] == l[k].entry
  {
    hide Distinct, Names, Index;
  }

  class Manifest {
    const component: string
    var format: nat
    var version: int
    var prevVersion: int
    var count: int
    var contentSize: int
    var files: seq<File>
    var includes: seq<Manifest>

    /** Names are unique and the stored count is the length of the list. */
    ghost predicate Valid()
      reads `files, `count
    {
      Distinct(Names(files)) && count == |files|
    }
  }

  /** Two lists share no record. */
  ghost predicate Disjoint(a: seq<File>, b: seq<File>)
    requires Distinct(Names(a)) && Distinct(Names(b))
  {
    forall n | n in Index(a) && n in Index(b) :: Index(a)[n] != Index(b)[n]
  }

  /** No record of the list is linked with one of another manifest. */
  ghost predicate Unlinked(files: seq<File>)
    requires Distinct(Names(files))
    reads files`peer
  {
    forall n | n in Index(files) :: Index(files)[n].peer == null
  }

  lemma SameIndexFacts(a: seq<File>, b: seq<File>, other: seq<File>)
    requires Distinct(Names(a)) && Distinct(Names(b)) && Distinct(Names(other)) && Index(a) == Index(b)
    ensures Disjoint(a, other) == Disjoint(b, other) && Disjoint(other, a) == Disjoint(other, b)
    ensures Unlinked(a) == Unlinked(b)
  {
    hide Distinct, Names, Index;
  }

  // ----- the sort orders of src/manifest.c -----

  type FilenameKey = (string, bool)

  /** `file_sort_filename`: by name, live before deleted. */
  predicate FilenameLe(a: FilenameKey, b: FilenameKey) {
    Less(a.0, b.0) || (a.0 == b.0 && (a.1 ==> b.1))
  }

  lemma FilenameLeIsTotal()
    ensures TotalPreorder(FilenameLe)
  {
    forall x, y
      ensures FilenameLe(x, y) || FilenameLe(y, x)
    {
      Antisymmetric(x.0, y.0);
    }
    forall x, y, z | FilenameLe(x, y) && FilenameLe(y, z)
      ensures FilenameLe(x, z)
    {
      Transitive(x.0, y.0, z.0);
    }
  }

  type VersionKey = (int, string)

  /** `file_sort_version`: by the release of the last change, then by name. */
  predicate VersionLe(a: VersionKey, b: VersionKey) {
    a.0 < b.0 || (a.0 == b.0 && Strcmp(a.1, b.1) <= 0)
  }

  lemma VersionLeIsTotal()
    ensures TotalPreorder(VersionLe)
  {
    forall x, y
      ensures VersionLe(x, y) || VersionLe(y, x)
    {
      Antisymmetric(x.1, y.1);
    }
    forall x, y, z | VersionLe(x, y) && VersionLe(y, z)
      ensures VersionLe(x, z)
    {
      if x.0 == y.0 == z.0 {
        Transitive(x.1, y.1, z.1);
      }
    }
  }

  function FilenameKeyed(files: seq<File>): (r: seq<(FilenameKey, File)>)
    reads files
    ensures |r| == |files|
    ensures forall i | 0 <= i < |files| :: r[i] == ((files[i].filename, files[i].entry.isDeleted), files[i])
  {
    seq(|files|, i requires 0 <= i < |files| reads files => ((files[i].filename, files[i].entry.isDeleted), files[i]))
  }

  function VersionKeyed(files: seq<File>): (r: seq<(VersionKey, File)>)
    reads files
    ensures |r| == |files|
    ensures forall i | 0 <= i < |files| :: r[i] == ((files[i].entry.lastChange, files[i].filename), files[i])
  {
    seq(|files|, i requires 0 <= i < |files| reads files => ((files[i].entry.lastChange, files[i].filename), files[i]))
  }

  function ByFilename(files: seq<File>): seq<File>
    reads files
  {
    Seconds(Sort(FilenameKeyed(files), FilenameLe))
  }

  function ByVersion(files: seq<File>): seq<File>
    reads files
  {
    Seconds(Sort(VersionKeyed(files), VersionLe))
  }

  /** Same records in another order. */
  ghost predicate SameRecords(a: seq<File>, b: seq<File>) {
    && |a| == |b|
    && (forall i | 0 <= i < |a| :: a[i] in b)
    && (forall i | 0 <= i < |b| :: b[i] in a)
    && (Distinct(Names(a)) <==> Distinct(Names(b)))
  }

  lemma SortedRecords<K>(s: seq<(K, File)>, le: (K, K) -> bool)
    ensures SameRecords(Seconds(Sort(s, le)), Seconds(s))
  {
    var t := Sort(s, le);
    SortMapped(s, le, (f: File) => f);
    SortMapped(s, le, (f: File) => f.filename);
    assert Seconds(t) == Mapped(t, (f: File) => f) && Seconds(s) == Mapped(s, (f: File) => f);
    Permuted(Seconds(t), Seconds(s));
    assert Names(Seconds(t)) == Mapped(t, (f: File) => f.filename);
    assert Names(Seconds(s)) == Mapped(s, (f: File) => f.filename);
    PermutedDistinct(Names(Seconds(t)), Names(Seconds(s)));
  }

  lemma SameIndex(a: seq<File>, b: seq<File>)
    requires SameRecords(a, b) && Distinct(Names(a))
    ensures Index(a) == Index(b)
  {
    forall n | n in Index(a)
      ensures n in Index(b) && Index(a)[n] == Index(b)[n]
    {
      assert Index(a)[n] in b;
    }
    forall n | n in Index(b)
      ensures n in Index(a)
    {
      assert Index(b)[n] in a;
    }
  }

  lemma ByVersionRecords(files: seq<File>)
    ensures SameRecords(ByVersion(files), files)
    ensures Distinct(Names(files)) ==> Index(ByVersion(files)) == Index(files)
  {
    SortedRecords(VersionKeyed(files), VersionLe);
    assert Seconds(VersionKeyed(files)) == files;
    if Distinct(Names(files)) {
      SameIndex(files, ByVersion(files));
    }
  }

  lemma ByFilenameRecords(files: seq<File>)
    ensures SameRecords(ByFilename(files), files)
    ensures Distinct(Names(files)) ==> Index(ByFilename(files)) == Index(files)
  {
    SortedRecords(FilenameKeyed(files), FilenameLe);
    assert Seconds(FilenameKeyed(files)) == files;
    if Distinct(Names(files)) {
      SameIndex(files, ByFilename(files));
    }
  }

  /** The sorted list read as keys: each key is the one of the record beside it. */
  lemma FilenameSorted(files: seq<File>)
    ensures var r := ByFilename(files);
      |r| == |files| && forall i, j | 0 <= i < j < |r| ::
        FilenameLe((r[i].filename, r[i].entry.isDeleted), (r[j].filename, r[j].entry.isDeleted))
  {
    FilenameLeIsTotal();
    var keyed := FilenameKeyed(files);
    var sorted := Sort(keyed, FilenameLe);
    SortIsStable(keyed, FilenameLe);
    Permuted(sorted, keyed);
    forall i | 0 <= i < |sorted|
      ensures sorted[i].0 == (sorted[i].1.filename, sorted[i].1.entry.isDeleted)
    {
      assert sorted[i] in keyed;
    }
  }

  /** Sorting a list with distinct names puts the names in strictly ascending order. */
  lemma ByFilenameAscends(files: seq<File>)
    requires Distinct(Names(files))
    ensures Ascending(Names(ByFilename(files)))
    ensures SameRecords(ByFilename(files), files)
    ensures Index(ByFilename(files)) == Index(files)
  {
    ByFilenameRecords(files);
    FilenameSorted(files);
    var names := Names(ByFilename(files));
    forall i, j | 0 <= i < j < |names|
      ensures Less(names[i], names[j])
    {
      assert names[i] != names[j];
    }
  }

  lemma IndexContents(a: seq<File>, b: seq<File>)
    requires Distinct(Names(a)) && Distinct(Names(b)) && Index(a) == Index(b)
    ensures Contents(a) == Contents(b)
  {
    hide Distinct, Names;
  }

  /** `manifest->files = g_list_sort(manifest->files, file_sort_filename)` with distinct names. */
  method SortByFilename(m: Manifest)
    requires m.Valid()
    modifies m`files
    ensures m.Valid() && Ascending(Names(m.files))
    ensures SameRecords(m.files, old(m.files))
    ensures Index(m.files) == old(Index(m.files)) && Contents(m.files) == old(Contents(m.files))
  {
    hide Distinct, Names, Ascending, ByFilename, SameRecords, Index, Contents;
    ByFilenameAscends(m.files);
    m.files := ByFilename(m.files);
    IndexContents(m.files, old(m.files));
  }
}
