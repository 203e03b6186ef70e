/** `rename_detection` (src/rename.c): new files are matched greedily with files that just
    disappeared, best score first, re-scoring whoever lost its candidate. */
module Renames {
  import opened Sorting
  import opened Files
  import opened RenameScores
  import opened Matching
  import opened Release

  /** The two sides of the matching, their scores, and the records as they were. */
  datatype Problem = Problem(news: set<File>, dels: set<File>, score: map<File, map<File, int>>,
      before: map<File, Entry>)
  {
    ghost predicate Valid() {
      && (forall d | d in dels :: d !in news)
      && (forall d, n | d in dels && n in news :: d in score && n in score[d])
      && before.Keys == news + dels
    }

    /** The score of renaming `d`'s file to `n`. */
    function Of(d: File, n: File): int {
      if d in score && n in score[d] then score[d][n] else -100
    }

    // ----- what has been decided, as values -----

    /** `m` maps each taken deleted file to the new file that got it; `left` are the new files still waiting. */
    ghost predicate Matching(m: map<File, File>, left: set<File>) {
      && Shape(m, left)
      && (forall c, d | c in m && d in m && c != d :: m[c] != m[d])
      && (forall d | d in m :: Of(d, m[d]) >= ENOUGH)
      && (forall d, n | d in m && n in left :: Of(d, n) <= Of(d, m[d]))
      && (forall n | n in news - left :: Settled(m, n))
    }

    ghost predicate Shape(m: map<File, File>, left: set<File>) {
      left <= news && (forall d | d in m :: d in dels && m[d] in news && m[d] !in left)
    }

    /** No deleted file and `n` would both rather have each other. */
    ghost predicate Settled(m: map<File, File>, n: File) {
      forall d | d in dels && Of(d, n) >= ENOUGH ::
        || (d in m && Of(d, m[d]) >= Of(d, n))
        || (exists c: File :: c in m && m[c] == n && Of(c, n) >= Of(d, n))
    }

    // ----- the records -----

    /** A waiting file knows a bound on what it can still get, and a candidate that reaches it. */
    ghost predicate Scored(m: map<File, File>, n: File)
      reads n`renamePeer, n`renameScore
    {
      && (if n.renamePeer == null then n.renameScore == -100
          else n.renamePeer in dels && Of(n.renamePeer, n) == n.renameScore)
      && forall d | d in dels && d !in m :: Of(d, n) <= n.renameScore
    }

    ghost predicate Waiting(m: map<File, File>, left: set<File>)
      reads left`renamePeer, left`renameScore
    {
      forall n | n in left :: Scored(m, n)
    }

    ghost predicate Links(m: map<File, File>, left: set<File>)
      requires Shape(m, left)
      reads dels`renamePeer, news`renamePeer
    {
      && (forall d | d in dels :: d.renamePeer == if d in m then m[d] else null)
      && (forall d | d in m :: m[d].renamePeer == d)
    }

    /** A record once the renames `m` have been made. */
    ghost function After(m: map<File, File>, f: File): Entry
      requires f in before
    {
      if f in m && m[f] in before then before[f].(isRename := true, hash := before[m[f]].hash)
      else if f in m.Values then before[f].(isRename := true)
      else before[f]
    }

    ghost predicate Marks(m: map<File, File>)
      requires Valid()
      reads dels`entry, news`entry
    {
      && (forall n | n in news :: n.entry == After(m, n))
      && (forall d | d in dels :: d.entry == After(m, d))
    }

    ghost predicate State(m: map<File, File>, left: set<File>)
      reads news, dels, left
    {
      && Valid() && Shape(m, left) && Matching(m, left)
      && Waiting(m, left) && Links(m, left) && Marks(m)
    }

    /** The waiting files whose candidate has been taken by another. */
    ghost function Stale(m: map<File, File>, left: set<File>): set<File>
      reads left`renamePeer
    {
      set n | n in left && n.renamePeer != null && n.renamePeer in m
    }

    // ----- the three things that can happen to the first waiting file -----

    lemma Drop(m: map<File, File>, left: set<File>, n: File)
      requires State(m, left) && n in left && (n.renamePeer == null || n.renameScore < ENOUGH)
      ensures State(m, left - {n})
    {
      assert Settled(m, n);
    }

    lemma WaitingIsUnmatched(m: map<File, File>, left: set<File>, n: File)
      requires Matching(m, left) && n in left
      ensures n in news && n !in m.Values
    {
    }

    lemma ExtendedValues(m: map<File, File>, d: File, n: File)
      requires d !in m
      ensures m[d := n].Values == m.Values + {n}
    {
      assert forall c | c in m :: m[d := n][c] == m[c];
      assert m[d := n][d] == n;
    }

    lemma SettledLater(m: map<File, File>, d: File, n: File, x: File)
      requires d !in m && Settled(m, x)
      ensures Settled(m[d := n], x)
    {
      hide Of, ENOUGH;
      var m' := m[d := n];
      forall e | e in dels && Of(e, x) >= ENOUGH
        ensures (e in m' && Of(e, m'[e]) >= Of(e, x)) || (exists c: File ::
          c in m' && m'[c] == x && Of(c, x) >= Of(e, x))
      {
        if !(e in m && Of(e, m[e]) >= Of(e, x)) {
          var c: File :| c in m && m[c] == x && Of(c, x) >= Of(e, x);
          assert c in m' && m'[c] == x;
        }
      }
    }

    lemma SettledNow(m: map<File, File>, left: set<File>, n: File, d: File)
      requires Matching(m, left) && n in left && d !in m && forall c | c in dels && c !in m :: Of(c, n) <= Of(d, n)
      ensures Settled(m[d := n], n)
    {
      hide Of, ENOUGH;
      var m' := m[d := n];
      assert d in m' && m'[d] == n;
      forall e | e in dels && Of(e, n) >= ENOUGH && e in m
        ensures e in m' && Of(e, m'[e]) >= Of(e, n)
      {
      }
    }

    lemma MatchValues(m: map<File, File>, left: set<File>, n: File, d: File, bound: map<File, int>)
      requires Valid() && Matching(m, left) && n in left && d in dels && d !in m
      requires left <= bound.Keys && forall x | x in left ::
        bound[x] <= bound[n] && forall c | c in dels && c !in m :: Of(c, x) <= bound[x]
      requires Of(d, n) == bound[n] >= ENOUGH
      ensures Matching(m[d := n], left - {n})
    {
      hide Of, ENOUGH, Settled;
      SettledNow(m, left, n, d);
      forall x | x in news - (left - {n})
        ensures Settled(m[d := n], x)
      {
        if x != n {
          assert x in news - left;
          SettledLater(m, d, n, x);
        }
      }
    }
  }

  /** The matrix of scores is what `rename_score` says about the old record of a deleted file and a new file. */
  ghost predicate Priced(P: Problem, traits: map<File, Traits>)
    reads P.dels`peer
  {
    forall d, n | d in P.dels && n in P.news ::
      && d.peer != null && d.peer in traits && n in traits
      && P.Of(d, n) == RenameScore(traits[d.peer], traits[n])
  }

  /** A list without repetitions of the members of a set. */
  ghost predicate IsList(l: seq<File>, s: set<File>) {
    multiset(l) == multiset(s)
  }

  lemma ListMembers(l: seq<File>, s: set<File>)
    requires IsList(l, s)
    ensures |l| == |s|
    ensures forall i | 0 <= i < |l| :: l[i] in s
    ensures l == [] <==> s == {}
    ensures l != [] ==> IsList(l[1..], s - {l[0]})
  {
    assert |multiset(l)| == |l| && |multiset(s)| == |s|;
    forall i | 0 <= i < |l|
      ensures l[i] in s
    {
      assert l[i] in multiset(l);
    }
    if l != [] {
      assert l == [l[0]] + l[1..];
      assert multiset(l[1..]) == multiset(s) - multiset{l[0]} == multiset(s - {l[0]});
    }
  }

  lemma ListHas(l: seq<File>, s: set<File>, f: File)
    requires IsList(l, s) && f in s
    ensures f in l
  {
    assert f in multiset(s);
    assert f in multiset(l);
  }

  function ScoreKeyed(files: seq<File>): (r: seq<(int, File)>)
    reads files
    ensures |r| == |files|
    ensures forall i | 0 <= i < |files| :: r[i] == (files[i].renameScore, files[i])
  {
    seq(|files|, i requires 0 <= i < |files| reads files => (files[i].renameScore, files[i]))
  }

  /** `file_sort_score`: the highest score first. */
  predicate ScoreGe(a: int, b: int) {
    a >= b
  }

  function ByScore(files: seq<File>): seq<File>
    reads files
  {
    Seconds(Sort(ScoreKeyed(files), ScoreGe))
  }

  lemma ByScoreSorts(files: seq<File>, s: set<File>)
    requires IsList(files, s)
    ensures var r := ByScore(files);
      IsList(r, s) && |r| == |files| && forall i, j | 0 <= i < j < |r| :: r[i].renameScore >= r[j].renameScore
  {
    var keyed := ScoreKeyed(files);
    var sorted := Sort(keyed, ScoreGe);
    SortIsStable(keyed, ScoreGe);
    SortMapped(keyed, ScoreGe, (f: File) => f);
    assert Seconds(keyed) == files == Mapped(keyed, (f: File) => f);
    assert Seconds(sorted) == Mapped(sorted, (f: File) => f);
    Permuted(sorted, keyed);
    forall i | 0 <= i < |sorted|
      ensures sorted[i].0 == sorted[i].1.renameScore
    {
      assert sorted[i] in keyed;
    }
  }

  /** `score_file`: the best of the deleted files still on the list. */
  method ScoreFile(deleted: seq<File>, file: File, traits: map<File, Traits>, ghost P: Problem, ghost dels: set<File>)
    requires Priced(P, traits) && IsList(deleted, dels) && dels <= P.dels && file in P.news && file.renamePeer == null
    modifies file`renameScore, file`renamePeer
    ensures if file.renamePeer == null then file.renameScore == -100
            else file.renamePeer in dels && P.Of(file.renamePeer, file) == file.renameScore
    ensures forall d | d in dels :: P.Of(d, file) <= file.renameScore
    ensures file.renamePeer != null ==>
      exists k | 0 <= k < |deleted| ::
        deleted[k] == file.renamePeer && forall i | 0 <= i < k :: P.Of(deleted[i], file) < file.renameScore
  {
    hide RenameScore, IsList;
    ListMembers(deleted, dels);
    ghost var first := 0;
    file.renameScore := -100;
    for k := 0 to |deleted|
      invariant if file.renamePeer == null then file.renameScore == -100
                else file.renamePeer in dels && P.Of(file.renamePeer, file) == file.renameScore
      invariant forall i | 0 <= i < k :: P.Of(deleted[i], file) <= file.renameScore
      invariant file.renamePeer != null ==>
        && 0 <= first < k && deleted[first] == file.renamePeer
        && forall i | 0 <= i < first :: P.Of(deleted[i], file) < file.renameScore
    {
      var file2 := deleted[k];
      assert file2 in dels;
      var score := ComputeRenameScore(traits[file2.peer], traits[file]);
      if score > file.renameScore {
        file.renameScore := score;
        file.renamePeer := file2;
        first := k;
      }
    }
    forall d | d in dels
      ensures P.Of(d, file) <= file.renameScore
    {
      ListHas(deleted, dels, d);
    }
  }

  /** A file that lost its candidate is scored again. */
  method Rescore(deleted: seq<File>, file: File, traits: map<File, Traits>, ghost P: Problem, ghost m: map<File, File>,
      ghost left: set<File>)
    requires P.State(m, left) && Priced(P, traits) && IsList(deleted, P.dels - m.Keys)
    requires file in left && file.renamePeer != null && file.renamePeer in m
    modifies file`renameScore, file`renamePeer
    ensures P.State(m, left) && P.Stale(m, left) == old(P.Stale(m, left)) - {file} && file in old(P.Stale(m, left))
  {
    hide Priced, IsList, Problem.Matching, Problem.Of, Problem.Marks;
    P.WaitingIsUnmatched(m, left, file);
    file.renamePeer := null;
    ScoreFile(deleted, file, traits, P, P.dels - m.Keys);
  }

  lemma AfterStep(P: Problem, m: map<File, File>, d: File, n: File)
    requires P.Valid() && n in P.news && d in P.dels && d !in m && n !in m && n !in m.Values
    requires forall c | c in m :: c in P.dels && m[c] in P.news
    ensures P.After(m[d := n], d) == P.After(m, d).(isRename := true, hash := P.After(m, n).hash)
    ensures P.After(m[d := n], n) == P.After(m, n).(isRename := true)
    ensures forall f | f in P.before && f != d && f != n :: P.After(m[d := n], f) == P.After(m, f)
  {
    P.ExtendedValues(m, d, n);
    assert n !in m.Values && d !in m.Values;
    assert m[d := n].Values == m.Values + {n};
    forall f | f in P.before && f != d && f != n
      ensures P.After(m[d := n], f) == P.After(m, f)
    {
      assert f in m <==> f in m[d := n];
      assert f in m.Values <==> f in m[d := n].Values;
    }
  }

  /** The marks and the hash of a rename. */
  method MarkRename(file: File, d: File, ghost P: Problem, ghost m: map<File, File>)
    requires P.Valid() && P.Marks(m) && (forall c | c in m :: c in P.dels && m[c] in P.news)
    requires file in P.news && file !in m.Values && d in P.dels && d !in m
    modifies d`entry, file`entry
    ensures P.Marks(m[d := file])
  {
    hide Problem.After;
    AfterStep(P, m, d, file);
    d.entry := d.entry.(hash := file.entry.hash);
    file.entry := file.entry.(isRename := true);
    d.entry := d.entry.(isRename := true);
  }

  /** A free candidate with enough points: both records point to each other from now on. */
  method LinkRename(file: File, d: File, ghost P: Problem, ghost m: map<File, File>, ghost left: set<File>)
    requires P.State(m, left) && file in left && file.renamePeer == d && d !in m && file.renameScore >= ENOUGH
    requires forall n | n in left :: n.renameScore <= file.renameScore
    modifies d`renamePeer, d`entry, file`entry
    ensures P.State(m[d := file], left - {file})
  {
    hide Problem.Matching, Problem.Of, Problem.Marks;
    P.MatchValues(m, left, file, d, map n | n in left :: n.renameScore);
    P.WaitingIsUnmatched(m, left, file);
    d.renamePeer := file;
    MarkRename(file, d, P, m);
  }

  // ----- the lists the detection starts from -----

  /** The filter functions of `new_filtered_list`. */
  datatype Filter = NewFile | DeletedFile | RenamedFile
  {
    predicate Holds(file: File, version: int)
      reads file, file.peer
    {
      match this
      case NewFile => file.entry.lastChange == version && !file.entry.isDeleted && file.entry.isFile &&
        file.peer == null
      case DeletedFile =>
        && file.entry.isDeleted && file.peer != null && file.entry.lastChange == version
        && !file.peer.entry.isDir && !file.peer.entry.isLink
      case RenamedFile => file.entry.isRename
    }

    ghost function Of(files: seq<File>, version: int): set<File>
      reads files, set f | f in files :: f.peer
    {
      set f | f in files && Holds(f, version)
    }
  }

  /** The records that pass, the last one first. */
  ghost function Passing(files: seq<File>, version: int, filter: Filter): seq<File>
    reads files, set f | f in files :: f.peer
  {
    if files == [] then []
    else
      var front, last := files[..|files| - 1], files[|files| - 1];
      (if filter.Holds(last, version) then [last] else []) + Passing(front, version, filter)
  }

  lemma ListNothing()
    ensures IsList([], {})
  {
  }

  lemma ListAdds(l: seq<File>, s: set<File>, f: File)
    requires IsList(l, s) && f !in s
    ensures IsList([f] + l, s + {f})
  {
    assert multiset([f] + l) == multiset(l) + multiset{f};
  }

  lemma FilterStep(files: seq<File>, version: int, filter: Filter, k: nat)
    requires Distinct(Names(files)) && k < |files|
    ensures files[k] !in filter.Of(files[..k], version)
    ensures filter.Of(files[..k + 1], version)
         == filter.Of(files[..k], version) + if filter.Holds(files[k], version) then {files[k]} else {}
  {
    hide Filter.Holds;
    forall i | 0 <= i < k
      ensures files[i] != files[k]
    {
      assert Names(files)[i] != Names(files)[k];
    }
    assert files[..k + 1] == files[..k] + [files[k]];
  }

  method NewFilteredList(files: seq<File>, version: int, filter: Filter) returns (r: seq<File>)
    requires Distinct(Names(files))
    ensures IsList(r, filter.Of(files, version)) && r == Passing(files, version, filter)
  {
    hide IsList, Filter.Holds, Filter.Of, Distinct;
    ListNothing();
    assert filter.Of(files[..0], version) == {} by { NothingFiltered(files, version, filter); }
    r := [];
    for k := 0 to |files|
      invariant IsList(r, filter.Of(files[..k], version)) && r == Passing(files[..k], version, filter)
    {
      FilterStep(files, version, filter, k);
      assert files[..k + 1][..k] == files[..k];
      if filter.Holds(files[k], version) {
        ListAdds(r, filter.Of(files[..k], version), files[k]);
        assert filter.Of(files[..k + 1], version) == filter.Of(files[..k], version) + {files[k]};
        r := [files[k]] + r;
      } else {
        assert filter.Of(files[..k + 1], version) == filter.Of(files[..k], version);
      }
    }
    assert files[..|files|] == files;
  }

  lemma NothingFiltered(files: seq<File>, version: int, filter: Filter)
    ensures filter.Of(files[..0], version) == {}
  {
  }

  function Without(l: seq<File>, f: File): seq<File> {
    if l == [] then [] else if l[0] == f then l[1..] else [l[0]] + Without(l[1..], f)
  }

  /** `g_list_remove` */
  lemma {:induction false} WithoutMultiset(l: seq<File>, f: File)
    requires f in l
    ensures multiset(Without(l, f)) == multiset(l) - multiset{f}
  {
    assert l == [l[0]] + l[1..];
    if l[0] != f {
      WithoutMultiset(l[1..], f);
    }
  }

  lemma ListWithout(l: seq<File>, s: set<File>, f: File)
    requires IsList(l, s) && f in s
    ensures IsList(Without(l, f), s - {f})
  {
    ListHas(l, s, f);
    WithoutMultiset(l, f);
    assert multiset(s - {f}) == multiset(s) - multiset{f};
  }

  // ----- the detection -----

  ghost predicate SortedByScore(l: seq<File>)
    reads l`renameScore
  {
    forall i, j | 0 <= i < j < |l| :: l[i].renameScore >= l[j].renameScore
  }

  lemma TopScore(l: seq<File>, s: set<File>)
    requires IsList(l, s) && l != [] && SortedByScore(l)
    ensures l[0] in s && SortedByScore(l[1..]) && forall f | f in s :: f.renameScore <= l[0].renameScore
  {
    ListMembers(l, s);
    forall f | f in s
      ensures f.renameScore <= l[0].renameScore
    {
      ListHas(l, s, f);
    }
  }

  /** What `precompute_file_data` collects about a record; the size and the type come from the disk. */
  predicate Describes(t: Traits, f: File)
    reads f`entry
  {
    t.filename == f.filename && t.hash == f.entry.hash
  }

  ghost predicate AllDescribed(news: set<File>, dels: set<File>, traits: map<File, Traits>)
    reads news`entry, dels`peer, set d | d in dels :: d.peer
  {
    && (forall n | n in news :: n in traits && Describes(traits[n], n))
    && (forall d | d in dels :: d.peer != null && d.peer in traits && Describes(traits[d.peer], d.peer))
  }

  ghost function ProblemOf(news: set<File>, dels: set<File>, traits: map<File, Traits>): Problem
    requires AllDescribed(news, dels, traits)
    reads news`entry, dels`entry, dels`peer, set d | d in dels :: d.peer
  {
    Problem(news, dels,
            map d | d in dels :: map n | n in news :: RenameScore(traits[d.peer], traits[n]),
            map f | f in news + dels :: f.entry)
  }

  lemma StartPrices(news: set<File>, dels: set<File>, traits: map<File, Traits>)
    requires AllDescribed(news, dels, traits) && forall d | d in dels :: d !in news
    ensures var P := ProblemOf(news, dels, traits); P.Valid() && Priced(P, traits)
  {
    hide RenameScore, Describes;
  }

  lemma StartMatching(P: Problem)
    ensures P.Shape(map[], P.news) && P.Matching(map[], P.news)
  {
    hide Problem.Of, Problem.Settled;
  }

  lemma StartMarks(news: set<File>, dels: set<File>, traits: map<File, Traits>)
    requires AllDescribed(news, dels, traits) && forall d | d in dels :: d !in news
    ensures var P := ProblemOf(news, dels, traits); P.Valid() && P.Shape(map[], news) && P.Marks(map[])
  {
    hide RenameScore, Describes, Problem.Of, Problem.Matching, Priced, ENOUGH;
    StartPrices(news, dels, traits);
  }

  method ScoreAll(deleted: seq<File>, newFiles: seq<File>, traits: map<File, Traits>, ghost P: Problem)
    requires Priced(P, traits) && IsList(deleted, P.dels) && IsList(newFiles, P.news)
    requires forall n | n in P.news :: n.renamePeer == null
    requires forall d | d in P.dels :: d !in P.news && d.renamePeer == null
    modifies P.news`renameScore, P.news`renamePeer
    ensures P.Waiting(map[], P.news)
    ensures forall d | d in P.dels :: d.renamePeer == null
  {
    hide Priced, IsList, Problem.Of;
    ListMembers(newFiles, P.news);
    for k := 0 to |newFiles|
      invariant forall i | 0 <= i < k :: P.Scored(map[], newFiles[i])
      invariant forall n | n in P.news && n !in newFiles[..k] :: n.renamePeer == null
      invariant forall d | d in P.dels :: d.renamePeer == null
    {
      ScoreNext(newFiles, P.news, k);
      ScoreFile(deleted, newFiles[k], traits, P, P.dels);
    }
    forall n | n in P.news
      ensures P.Scored(map[], n)
    {
      ListHas(newFiles, P.news, n);
    }
  }

  lemma ScoreNext(l: seq<File>, s: set<File>, k: nat)
    requires IsList(l, s) && k < |l|
    ensures l[k] !in l[..k] && forall i | 0 <= i < k :: l[i] != l[k]
  {
    assert l == l[..k] + l[k..] && l[k..][0] == l[k];
    assert multiset(l)[l[k]] == multiset(l[..k])[l[k]] + multiset(l[k..])[l[k]];
    assert multiset(l)[l[k]] == multiset(s)[l[k]] <= 1;
    assert l[k] in multiset(l[k..]);
  }

  /** What the detection works on besides the records: the lists as they are, and the decisions so far. */
  ghost predicate Running(P: Problem, traits: map<File, Traits>, m: map<File, File>, left: set<File>,
                          newFiles: seq<File>, deletedFiles: seq<File>)
    reads P.news, P.dels, left
  {
    P.State(m, left) && Priced(P, traits) && IsList(newFiles, left) && IsList(deletedFiles, P.dels - m.Keys)
  }

  lemma Resorted(P: Problem, traits: map<File, Traits>, m: map<File, File>, left: set<File>, newFiles: seq<File>,
      deletedFiles: seq<File>)
    requires Running(P, traits, m, left, newFiles, deletedFiles)
    ensures Running(P, traits, m, left, ByScore(newFiles), deletedFiles)
    ensures SortedByScore(ByScore(newFiles)) && |ByScore(newFiles)| == |newFiles|
  {
    hide Problem.State, Priced, IsList, ByScore;
    ByScoreSorts(newFiles, left);
  }

  /** `del_first` after a file that stays without a link. */
  lemma Skip(P: Problem, traits: map<File, Traits>, m: map<File, File>, left: set<File>, newFiles: seq<File>,
      deletedFiles: seq<File>)
    requires Running(P, traits, m, left, newFiles, deletedFiles) && newFiles != [] && SortedByScore(newFiles)
    requires newFiles[0].renamePeer == null || newFiles[0].renameScore < ENOUGH
    ensures Running(P, traits, m, left - {newFiles[0]}, newFiles[1..], deletedFiles) && SortedByScore(newFiles[1..])
  {
    hide Problem.State, Priced, IsList, ENOUGH;
    TopScore(newFiles, left);
    ListMembers(newFiles, left);
    P.Drop(m, left, newFiles[0]);
  }

  /** A candidate has a link exactly if it is taken. */
  lemma Candidate(P: Problem, traits: map<File, Traits>, m: map<File, File>, left: set<File>, newFiles: seq<File>,
      deletedFiles: seq<File>)
    requires Running(P, traits, m, left, newFiles, deletedFiles) && newFiles != [] && newFiles[0].renamePeer != null
    ensures newFiles[0] in left && newFiles[0].renamePeer in P.dels
    ensures (newFiles[0].renamePeer.renamePeer != null <==> newFiles[0].renamePeer in m)
  {
    hide Problem.Matching, Problem.Marks, Problem.Of, IsList, Priced;
    ListMembers(newFiles, left);
    assert P.Scored(m, newFiles[0]);
  }

  /** The candidate is free: link it and remove it from the list. */
  method Take(newFiles: seq<File>, deletedFiles: seq<File>, ghost P: Problem, ghost traits: map<File, Traits>,
      ghost m: map<File, File>, ghost left: set<File>)
    returns (deletedFiles': seq<File>, ghost m': map<File, File>)
    requires Running(P, traits, m, left, newFiles, deletedFiles) && newFiles != [] && SortedByScore(newFiles)
    requires newFiles[0].renamePeer != null && newFiles[0].renamePeer !in m && newFiles[0].renameScore >= ENOUGH
    modifies P.dels`renamePeer, P.dels`entry, P.news`entry
    ensures Running(P, traits, m', left - {newFiles[0]}, newFiles[1..], deletedFiles') && SortedByScore(newFiles[1..])
  {
    hide Problem.State, Priced, IsList, ENOUGH;
    var file := newFiles[0];
    var d := file.renamePeer;
    Candidate(P, traits, m, left, newFiles, deletedFiles);
    TopScore(newFiles, left);
    ListMembers(newFiles, left);
    LeftIsNew(P, m, left);
    LinkRename(file, d, P, m, left);
    ListWithout(deletedFiles, P.dels - m.Keys, d);
    m' := m[d := file];
    assert P.dels - m.Keys - {d} == P.dels - m'.Keys;
    deletedFiles' := Without(deletedFiles, d);
  }

  lemma LeftIsNew(P: Problem, m: map<File, File>, left: set<File>)
    requires P.State(m, left)
    ensures left <= P.news
  {
  }

  /** All deleted files are taken: whoever is left over could not have done better. */
  lemma Exhausted(P: Problem, m: map<File, File>, left: set<File>)
    requires P.State(m, left) && P.dels <= m.Keys
    ensures P.State(m, {})
  {
    forall n | n in P.news
      ensures P.Settled(m, n)
    {
      if n in left {
        assert forall d | d in m :: P.Of(d, n) <= P.Of(d, m[d]);
      }
    }
  }

  lemma NothingLeft(P: Problem, traits: map<File, Traits>, m: map<File, File>, left: set<File>, deletedFiles: seq<File>)
    requires Running(P, traits, m, left, [], deletedFiles)
    ensures P.State(m, {})
  {
    ListMembers([], left);
  }

  lemma AllTaken(P: Problem, traits: map<File, Traits>, m: map<File, File>, left: set<File>, newFiles: seq<File>)
    requires Running(P, traits, m, left, newFiles, [])
    ensures P.State(m, {})
  {
    hide Problem.State;
    ListMembers([], P.dels - m.Keys);
    assert forall d | d in P.dels :: d !in P.dels - m.Keys ==> d in m.Keys;
    Exhausted(P, m, left);
  }

  /** A step that re-scores one file keeps everything else. */
  method Retry(newFiles: seq<File>, deletedFiles: seq<File>, traits: map<File, Traits>, ghost P: Problem,
      ghost m: map<File, File>, ghost left: set<File>)
    requires Running(P, traits, m, left, newFiles, deletedFiles) && newFiles != []
    requires newFiles[0].renamePeer != null && newFiles[0].renamePeer in m
    modifies P.news`renamePeer, P.news`renameScore
    ensures Running(P, traits, m, left, newFiles, deletedFiles)
    ensures |P.Stale(m, left)| < old(|P.Stale(m, left)|)
  {
    hide Problem.State, Priced, IsList, Problem.Stale;
    ListMembers(newFiles, left);
    LeftIsNew(P, m, left);
    Rescore(deletedFiles, newFiles[0], traits, P, m, left);
  }

  /** `rename_detection` from its label on. The lists shrink or, before a new start, one more file has a
      candidate that is free. */
  method MatchBestFirst(newFiles0: seq<File>, deletedFiles0: seq<File>, traits: map<File, Traits>, ghost P: Problem)
    returns (ghost m: map<File, File>)
    requires Running(P, traits, map[], P.news, newFiles0, deletedFiles0)
    modifies P.news`renamePeer, P.news`renameScore, P.news`entry, P.dels`renamePeer, P.dels`entry
    ensures P.State(m, {})
  {
    hide Running, SortedByScore, Problem.State, Problem.Stale, ByScore;
    var newFiles, deletedFiles := newFiles0, deletedFiles0;
    ghost var left := P.news;
    m := map[];
    label redo: while true
      invariant Running(P, traits, m, left, newFiles, deletedFiles)
      decreases |newFiles|, |P.Stale(m, left)|
    {
      ghost var length, stale := |newFiles|, |P.Stale(m, left)|;
      Resorted(P, traits, m, left, newFiles, deletedFiles);
      newFiles := ByScore(newFiles);
      while newFiles != []
        invariant Running(P, traits, m, left, newFiles, deletedFiles) && SortedByScore(newFiles)
        invariant |newFiles| < length || (|newFiles| == length && |P.Stale(m, left)| == stale)
        decreases |newFiles|
      {
        var file := newFiles[0];
        if file.renamePeer == null || file.renameScore < ENOUGH {
          Skip(P, traits, m, left, newFiles, deletedFiles);
          newFiles, left := newFiles[1..], left - {file};
          continue;
        }
        Candidate(P, traits, m, left, newFiles, deletedFiles);
        if file.renamePeer.renamePeer != null {
          Retry(newFiles, deletedFiles, traits, P, m, left);
          continue redo;
        }
        deletedFiles, m := Take(newFiles, deletedFiles, P, traits, m, left);
        newFiles, left := newFiles[1..], left - {file};
        if deletedFiles == [] {
          AllTaken(P, traits, m, left, newFiles);
          return;
        }
      }
      NothingLeft(P, traits, m, left, deletedFiles);
      return;
    }
  }

  // ----- the detection as a whole -----

  /** Before the detection no record has a rename partner, and what the scores look at is known. */
  ghost predicate Ready(files: seq<File>, version: int, traits: map<File, Traits>)
    reads files, set f | f in files :: f.peer
  {
    && (forall f | f in files :: f.renamePeer == null)
    && AllDescribed(NewFile.Of(files, version), DeletedFile.Of(files, version), traits)
  }

  /** The renames by name. */
  ghost function ByName(files: seq<File>, pairs: map<File, File>): Renames
    requires Distinct(Names(files))
  {
    map n | n in Index(files) && Index(files)[n] in pairs :: pairs[Index(files)[n]].filename
  }

  lemma Sides(files: seq<File>, version: int)
    ensures forall f | f in NewFile.Of(files, version) :: f in files
    ensures forall f | f in DeletedFile.Of(files, version) :: f in files && f !in NewFile.Of(files, version)
  {
  }

  lemma NothingToDo(P: Problem)
    requires P.Valid() && P.Marks(map[]) && P.Links(map[], {}) && (P.news == {} || P.dels == {})
    ensures P.State(map[], {})
  {
    hide Problem.Of, Problem.After;
  }

  lemma StartRunning(files: seq<File>, version: int, traits: map<File, Traits>, P: Problem)
    requires Ready(files, version, traits)
    requires P == ProblemOf(NewFile.Of(files, version), DeletedFile.Of(files, version), traits)
    ensures P.Valid() && Priced(P, traits) && P.Links(map[], {}) && P.Marks(map[])
    ensures forall f | f in P.news + P.dels :: f in files && f.renamePeer == null
    ensures forall d | d in P.dels :: d !in P.news
  {
    hide Filter.Of, Describes, Priced, Problem.Matching, Problem.Marks, Problem.Valid;
    var news, dels := NewFile.Of(files, version), DeletedFile.Of(files, version);
    Sides(files, version);
    StartPrices(news, dels, traits);
    StartMarks(news, dels, traits);
  }

  lemma ReadyProblem(files: seq<File>, version: int, traits: map<File, Traits>)
    requires Ready(files, version, traits)
    ensures var news, dels := NewFile.Of(files, version), DeletedFile.Of(files, version);
      AllDescribed(news, dels, traits) && ProblemOf(news, dels, traits).news == news &&
        ProblemOf(news, dels, traits).dels == dels
  {
    hide Filter.Of, Describes;
  }

  /** `rename_detection`. */
  method RenameDetection(m: Manifest, traits: map<File, Traits>)
    returns (ghost P: Problem, ghost pairs: map<File, File>)
    requires m.Valid() && Ready(m.files, m.version, traits)
    modifies NewFile.Of(m.files, m.version)`renamePeer, NewFile.Of(m.files, m.version)`renameScore,
        NewFile.Of(m.files, m.version)`entry
    modifies DeletedFile.Of(m.files, m.version)`renamePeer, DeletedFile.Of(m.files, m.version)`entry
    ensures P == old(ProblemOf(NewFile.Of(m.files, m.version), DeletedFile.Of(m.files, m.version), traits))
    ensures P.State(pairs, {}) && Priced(P, traits)
  {
    hide Problem.State, Ready, IsList, Priced, ProblemOf, Filter.Of, Passing, Distinct, Problem.Matching, AllDescribed,
      Problem.Links;
    ReadyProblem(m.files, m.version, traits);
    P := ProblemOf(NewFile.Of(m.files, m.version), DeletedFile.Of(m.files, m.version), traits);
    pairs := map[];
    var newFiles := NewFilteredList(m.files, m.version, NewFile);
    var deletedFiles := NewFilteredList(m.files, m.version, DeletedFile);
    StartRunning(m.files, m.version, traits, P);
    if newFiles == [] || deletedFiles == [] {
      ListMembers(newFiles, P.news);
      ListMembers(deletedFiles, P.dels);
      NothingToDo(P);
      return;
    }
    ScoreAll(deletedFiles, newFiles, traits, P);
    StartState(P, traits, newFiles, deletedFiles);
    pairs := MatchBestFirst(newFiles, deletedFiles, traits, P);
  }

  lemma StartState(P: Problem, traits: map<File, Traits>, newFiles: seq<File>, deletedFiles: seq<File>)
    requires P.Valid() && Priced(P, traits) && P.Marks(map[]) && P.Waiting(map[], P.news)
    requires forall d | d in P.dels :: d.renamePeer == null
    requires IsList(newFiles, P.news) && IsList(deletedFiles, P.dels)
    ensures Running(P, traits, map[], P.news, newFiles, deletedFiles)
  {
    hide Priced, IsList, Problem.Matching, Problem.Marks, Problem.Waiting;
    StartMatching(P);
    var none: map<File, File> := map[];
    assert P.dels - none.Keys == P.dels;
  }

  // ----- what the detection means for the release -----

  lemma AppliedName(files: seq<File>, P: Problem, pairs: map<File, File>, before: Entries, n: string)
    requires Distinct(Names(files)) && P.Valid() && P.Shape(pairs, {}) && forall f | f in P.news + P.dels :: f in files
    requires before.Keys == Index(files).Keys && n in before
    requires forall k | k in before && Index(files)[k] in P.before :: before[k] == P.before[Index(files)[k]]
    ensures ApplyRenames(before, ByName(files, pairs))[n]
         == if Index(files)[n] in P.before then P.After(pairs, Index(files)[n]) else before[n]
  {
    hide Distinct, Problem.Of, Problem.Matching, Names, Index;
    var r, f := ByName(files, pairs), Index(files)[n];
    if f in pairs.Values {
      var d :| d in pairs && pairs[d] == f;
      RecordOf(files, d);
      assert r[d.filename] == n;
    }
    if n in r {
      RecordOf(files, pairs[f]);
    } else if n in r.Values {
      var k :| k in r && r[k] == n;
      RecordOf(files, pairs[Index(files)[k]]);
      assert pairs[Index(files)[k]] == f;
    }
  }

  lemma AppliedByName(files: seq<File>, P: Problem, pairs: map<File, File>, before: Entries)
    requires Distinct(Names(files)) && P.State(pairs, {}) && forall f | f in P.news + P.dels :: f in files
    requires before.Keys == Index(files).Keys
    requires forall n | n in before ::
      before[n] == if Index(files)[n] in P.before then P.before[Index(files)[n]] else Index(files)[n].entry
    ensures Contents(files) == ApplyRenames(before, ByName(files, pairs))
  {
    hide Distinct, Problem.Of, Problem.Matching, Problem.After, Names, Index, ApplyRenames, ByName, Problem.Shape;
    forall n | n in before
      ensures Contents(files)[n] == ApplyRenames(before, ByName(files, pairs))[n]
    {
      AppliedName(files, P, pairs, before, n);
    }
  }

  /** Which records take part, by name. */
  lemma SidesByName(m1: Manifest, files: seq<File>, o1: Entries, o2: Entries, version: int)
    requires Distinct(Names(m1.files)) && Distinct(Names(files)) && Contents(m1.files) == o1
    requires PeersGiven(Index(m1.files), Index(files), o1, o2)
    ensures forall f | f in files :: f.filename in Index(files) && Index(files)[f.filename] == f
    ensures forall f | f in files ::
      f in DeletedFile.Of(files, version) <==> RenamedFrom(o1, o2, Contents(files), version, f.filename)
    ensures forall f | f in files :: f in NewFile.Of(files, version) <==>
      RenamedTo(o1, o2, Contents(files), version, f.filename)
    ensures forall d | d in DeletedFile.Of(files, version) ::
      d.filename in Index(m1.files) && d.peer == Index(m1.files)[d.filename]
  {
    hide Distinct, Names, Index;
    forall f | f in files
      ensures f.filename in Index(files) && Index(files)[f.filename] == f
      ensures f in DeletedFile.Of(files, version) <==> RenamedFrom(o1, o2, Contents(files), version, f.filename)
      ensures f in NewFile.Of(files, version) <==> RenamedTo(o1, o2, Contents(files), version, f.filename)
    {
      RecordOf(files, f);
      if f.filename in o1 {
        assert Index(m1.files)[f.filename].entry == o1[f.filename];
      }
    }
  }

  lemma AllowedByName(files: seq<File>, P: Problem, pairs: map<File, File>, o1: Entries, o2: Entries, before: Entries,
      version: int)
    requires Distinct(Names(files)) && P.Matching(pairs, {}) && forall f | f in P.news + P.dels :: f in files
    requires forall d | d in P.dels :: RenamedFrom(o1, o2, before, version, d.filename)
    requires forall n | n in P.news :: RenamedTo(o1, o2, before, version, n.filename)
    ensures RenamesAllowed(o1, o2, before, version, ByName(files, pairs))
  {
    hide Distinct, Names, Index, RenamedFrom, RenamedTo, Problem.Of, Problem.Settled;
    var r := ByName(files, pairs);
    forall c, d | c in r && d in r && c != d
      ensures r[c] != r[d]
    {
      var e, f := pairs[Index(files)[c]], pairs[Index(files)[d]];
      RecordOf(files, e);
      RecordOf(files, f);
    }
  }

  /** The score of two names, the one an old record's and the other a new record's. */
  ghost function ScoreByName(b1: map<string, File>, b2: map<string, File>, traits: map<File, Traits>, d: string,
      n: string): int {
    if d in b1 && b1[d] in traits && n in b2 && b2[n] in traits then RenameScore(traits[b1[d]], traits[b2[n]]) else -100
  }

  /** One of the two is in a rename with at least the points that this pair would have. */
  ghost predicate Outdone(r: Renames, b1: map<string, File>, b2: map<string, File>, traits: map<File, Traits>,
      d: string, n: string)
  {
    var score := ScoreByName(b1, b2, traits, d, n);
    || (d in r && ScoreByName(b1, b2, traits, d, r[d]) >= score)
    || exists c: string :: c in r && r[c] == n && ScoreByName(b1, b2, traits, c, n) >= score
  }

  /** Every rename has 15 points or more; and of any file that is gone and any new file with as many points, one
      is in a rename with at least as many. */
  ghost predicate BestMatched(o1: Entries, o2: Entries, before: Entries, version: int, r: Renames,
      b1: map<string, File>, b2: map<string, File>, traits: map<File, Traits>)
  {
    && (forall d | d in r :: ScoreByName(b1, b2, traits, d, r[d]) >= 15)
    && (forall d, n | RenamedFrom(o1, o2, before, version, d) && RenamedTo(o1, o2, before, version, n) ::
          ScoreByName(b1, b2, traits, d, n) >= 15 ==> Outdone(r, b1, b2, traits, d, n))
  }

  /** The two sides of the problem are those of the names, and so are its scores. */
  ghost predicate Sided(files: seq<File>, P: Problem, b1: map<string, File>, o1: Entries, o2: Entries, before: Entries,
      version: int, traits: map<File, Traits>)
    requires Distinct(Names(files))
    reads P.dels`peer
  {
    && before.Keys == Index(files).Keys && Priced(P, traits) && (forall f | f in P.news + P.dels :: f in files)
    && (forall d | d in P.dels :: d.filename in b1 && d.peer == b1[d.filename])
    && (forall f | f in files :: f in P.dels <==> RenamedFrom(o1, o2, before, version, f.filename))
    && (forall f | f in files :: f in P.news <==> RenamedTo(o1, o2, before, version, f.filename))
  }

  lemma IsSided(files: seq<File>, P: Problem, b1: map<string, File>, o1: Entries, o2: Entries, before: Entries,
      version: int, traits: map<File, Traits>)
    requires Distinct(Names(files)) && before.Keys == Index(files).Keys && Priced(P, traits)
    requires forall f | f in P.news + P.dels :: f in files
    requires forall d | d in P.dels :: d.filename in b1 && d.peer == b1[d.filename]
    requires forall f | f in files :: f in P.dels <==> RenamedFrom(o1, o2, before, version, f.filename)
    requires forall f | f in files :: f in P.news <==> RenamedTo(o1, o2, before, version, f.filename)
    ensures Sided(files, P, b1, o1, o2, before, version, traits)
  {
    hide Distinct, Names, Index, Priced, RenamedFrom, RenamedTo;
  }

  lemma SidedFiles(files: seq<File>, P: Problem, b1: map<string, File>, o1: Entries, o2: Entries, before: Entries,
      version: int, traits: map<File, Traits>)
    requires Distinct(Names(files)) && Sided(files, P, b1, o1, o2, before, version, traits)
    ensures forall f | f in P.news + P.dels :: f in files
  {
  }

  lemma SidedNames(files: seq<File>, P: Problem, b1: map<string, File>, o1: Entries, o2: Entries, before: Entries,
      version: int, traits: map<File, Traits>)
    requires Distinct(Names(files)) && Sided(files, P, b1, o1, o2, before, version, traits)
    ensures forall d | d in P.dels :: RenamedFrom(o1, o2, before, version, d.filename)
    ensures forall n | n in P.news :: RenamedTo(o1, o2, before, version, n.filename)
  {
    hide Distinct, Names, Index, Priced, RenamedFrom, RenamedTo;
    assert forall f | f in P.dels :: f in P.news + P.dels;
    assert forall f | f in P.news :: f in P.news + P.dels;
  }

  lemma PriceByName(files: seq<File>, P: Problem, b1: map<string, File>, o1: Entries, o2: Entries, before: Entries,
      version: int, traits: map<File, Traits>, d: File, n: File)
    requires Distinct(Names(files)) && Sided(files, P, b1, o1, o2, before, version, traits)
    requires d in P.dels && n in P.news
    ensures P.Of(d, n) == ScoreByName(b1, Index(files), traits, d.filename, n.filename)
    ensures d.filename in Index(files) && Index(files)[d.filename] == d && n.filename in Index(files)
      && Index(files)[n.filename] == n
  {
    hide Distinct, Names, Index, RenameScore, Problem.Of, RenamedFrom, RenamedTo;
    RecordOf(files, d);
    RecordOf(files, n);
  }

  lemma OutdoneByName(files: seq<File>, P: Problem, pairs: map<File, File>, b1: map<string, File>, o1: Entries,
      o2: Entries, before: Entries, version: int, traits: map<File, Traits>, d: File, n: File)
    requires Distinct(Names(files)) && Sided(files, P, b1, o1, o2, before, version, traits)
    requires P.Matching(pairs, {}) && d in P.dels && n in P.news && P.Of(d, n) >= ENOUGH
    ensures Outdone(ByName(files, pairs), b1, Index(files), traits, d.filename, n.filename)
  {
    hide Distinct, Names, Index, Problem.Of, Sided, ScoreByName;
    var r := ByName(files, pairs);
    PriceByName(files, P, b1, o1, o2, before, version, traits, d, n);
    assert P.Settled(pairs, n);
    if d in pairs && P.Of(d, pairs[d]) >= P.Of(d, n) {
      PriceByName(files, P, b1, o1, o2, before, version, traits, d, pairs[d]);
    } else {
      var c: File :| c in pairs && pairs[c] == n && P.Of(c, n) >= P.Of(d, n);
      PriceByName(files, P, b1, o1, o2, before, version, traits, c, n);
      assert c.filename in r && r[c.filename] == n.filename;
    }
  }

  lemma SideOf(files: seq<File>, P: Problem, b1: map<string, File>, o1: Entries, o2: Entries, before: Entries,
      version: int, traits: map<File, Traits>, n: string)
    requires Distinct(Names(files)) && Sided(files, P, b1, o1, o2, before, version, traits) && n in before
    ensures n in Index(files) && Index(files)[n].filename == n && Index(files)[n] in files
    ensures Index(files)[n] in P.dels <==> RenamedFrom(o1, o2, before, version, n)
    ensures Index(files)[n] in P.news <==> RenamedTo(o1, o2, before, version, n)
  {
    hide Distinct, Names, Index, RenamedFrom, RenamedTo;
  }

  lemma OnlyListed(o1: Entries, o2: Entries, before: Entries, version: int, n: string)
    ensures RenamedFrom(o1, o2, before, version, n) || RenamedTo(o1, o2, before, version, n) ==> n in before
  {
  }

  lemma BestByName(files: seq<File>, P: Problem, pairs: map<File, File>, b1: map<string, File>, o1: Entries,
      o2: Entries, before: Entries, version: int, traits: map<File, Traits>)
    requires Distinct(Names(files)) && Sided(files, P, b1, o1, o2, before, version, traits) && P.Matching(pairs, {})
    ensures BestMatched(o1, o2, before, version, ByName(files, pairs), b1, Index(files), traits)
  {
    hide Distinct, Names, Index, RenameScore, Problem.Of, Problem.Settled, Sided, ScoreByName, Outdone, RenamedFrom,
      RenamedTo;
    var r, idx := ByName(files, pairs), Index(files);
    forall d | d in r
      ensures ScoreByName(b1, idx, traits, d, r[d]) >= 15
    {
      PriceByName(files, P, b1, o1, o2, before, version, traits, idx[d], pairs[idx[d]]);
    }
    forall d, n | RenamedFrom(o1, o2, before, version, d) && RenamedTo(o1, o2, before, version, n)
        && ScoreByName(b1, idx, traits, d, n) >= 15
      ensures Outdone(r, b1, idx, traits, d, n)
    {
      OnlyListed(o1, o2, before, version, d);
      OnlyListed(o1, o2, before, version, n);
      SideOf(files, P, b1, o1, o2, before, version, traits, d);
      SideOf(files, P, b1, o1, o2, before, version, traits, n);
      PriceByName(files, P, b1, o1, o2, before, version, traits, idx[d], idx[n]);
      OutdoneByName(files, P, pairs, b1, o1, o2, before, version, traits, idx[d], idx[n]);
    }
  }

  /** The two records of each rename are linked with each other. */
  ghost predicate Mutual(idx: map<string, File>, r: Renames)
    reads idx.Values`renamePeer
  {
    forall d | d in r ::
      d in idx && r[d] in idx && idx[d].renamePeer == idx[r[d]] && idx[r[d]].renamePeer == idx[d]
  }

  /** Of the other records only new files have a partner noted, one that did not score enough. */
  ghost predicate OthersUnlinked(idx: map<string, File>, r: Renames, candidates: set<string>)
    reads idx.Values`renamePeer
  {
    forall n | n in idx && n !in r && n !in r.Values && idx[n].renamePeer != null :: n in candidates
  }

  ghost function NamesOf(fs: set<File>): set<string> {
    set f | f in fs :: f.filename
  }

  lemma MutualByName(files: seq<File>, P: Problem, pairs: map<File, File>)
    requires Distinct(Names(files)) && P.Shape(pairs, {}) && P.Links(pairs, {})
    requires forall f | f in P.news + P.dels :: f in files
    requires forall f | f in files && f !in P.news && f !in P.dels :: f.renamePeer == null
    ensures Mutual(Index(files), ByName(files, pairs))
    ensures OthersUnlinked(Index(files), ByName(files, pairs), NamesOf(P.news))
  {
    hide Distinct, Names, Index;
    var r, idx := ByName(files, pairs), Index(files);
    forall d | d in r
      ensures d in idx && r[d] in idx && idx[d].renamePeer == idx[r[d]] && idx[r[d]].renamePeer == idx[d]
    {
      RecordOf(files, pairs[idx[d]]);
    }
    forall n | n in idx && n !in r && n !in r.Values && idx[n].renamePeer != null
      ensures n in NamesOf(P.news)
    {
      assert idx[n] !in pairs;
      assert idx[n] in P.news;
    }
  }

  lemma StateLinks(P: Problem, pairs: map<File, File>)
    requires P.State(pairs, {})
    ensures P.Shape(pairs, {}) && P.Links(pairs, {})
  {
  }

  lemma ReadyNull(files: seq<File>, version: int, traits: map<File, Traits>)
    requires Ready(files, version, traits)
    ensures forall f | f in files :: f.renamePeer == null
  {
  }

  lemma CandidatesByName(o1: Entries, o2: Entries, before: Entries, version: int, news: set<File>)
    requires forall n | n in news :: RenamedTo(o1, o2, before, version, n.filename)
    ensures forall n | n in NamesOf(news) :: RenamedTo(o1, o2, before, version, n)
  {
    hide RenamedTo;
  }

  /** The detection by name: the table and the links that it leaves. */
  method DetectByName(m: Manifest, traits: map<File, Traits>) returns (ghost P: Problem, ghost pairs: map<File, File>)
    requires m.Valid() && Ready(m.files, m.version, traits)
    modifies NewFile.Of(m.files, m.version)`renamePeer, NewFile.Of(m.files, m.version)`renameScore,
        NewFile.Of(m.files, m.version)`entry
    modifies DeletedFile.Of(m.files, m.version)`renamePeer, DeletedFile.Of(m.files, m.version)`entry
    ensures P.news == old(NewFile.Of(m.files, m.version)) && P.dels == old(DeletedFile.Of(m.files, m.version))
    ensures P.Matching(pairs, {}) && Priced(P, traits)
    ensures Contents(m.files) == ApplyRenames(old(Contents(m.files)), ByName(m.files, pairs))
    ensures Mutual(Index(m.files), ByName(m.files, pairs))
    ensures OthersUnlinked(Index(m.files), ByName(m.files, pairs), NamesOf(P.news))
  {
    hide Distinct, Names, Index, Filter.Of, Ready, Mutual, OthersUnlinked, Problem.State, Problem.Shape,
      Problem.Matching, Problem.Links, ApplyRenames, ByName, AllDescribed, Priced, NamesOf;
    Sides(m.files, m.version);
    ReadyProblem(m.files, m.version, traits);
    ReadyNull(m.files, m.version, traits);
    ghost var before := Contents(m.files);
    P, pairs := RenameDetection(m, traits);
    AppliedByName(m.files, P, pairs, before);
    StateMatching(P, pairs);
    StateLinks(P, pairs);
    MutualByName(m.files, P, pairs);
  }

  /** On two matched manifests the detection does what `Release` allows it to do, and no more, and takes the best
      renames first; the two ends of each rename are linked with each other. */
  method DetectMatched(m1: Manifest, m: Manifest, traits: map<File, Traits>, ghost o1: Entries, ghost o2: Entries)
    returns (ghost r: Renames, ghost candidates: set<string>)
    requires m1.Valid() && Contents(m1.files) == o1 && m.Valid() && PeersGiven(Index(m1.files), Index(m.files), o1, o2)
    requires Ready(m.files, m.version, traits)
    modifies NewFile.Of(m.files, m.version)`renamePeer, NewFile.Of(m.files, m.version)`renameScore,
        NewFile.Of(m.files, m.version)`entry
    modifies DeletedFile.Of(m.files, m.version)`renamePeer, DeletedFile.Of(m.files, m.version)`entry
    ensures RenamesAllowed(o1, o2, old(Contents(m.files)), m.version, r)
    ensures BestMatched(o1, o2, old(Contents(m.files)), m.version, r, Index(m1.files), Index(m.files), traits)
    ensures Contents(m.files) == ApplyRenames(old(Contents(m.files)), r)
    ensures Mutual(Index(m.files), r) && OthersUnlinked(Index(m.files), r, candidates)
    ensures forall n | n in candidates :: RenamedTo(o1, o2, old(Contents(m.files)), m.version, n)
  {
    hide Distinct, Names, Index, Filter.Of, Ready, Mutual, OthersUnlinked, Problem.Matching, PeersGiven, RenamedFrom,
      RenamedTo, RenamesAllowed, ApplyRenames, ByName, BestMatched, Priced, Sided, NamesOf;
    SidesByName(m1, m.files, o1, o2, m.version);
    ghost var b1 := Index(m1.files);
    Sides(m.files, m.version);
    ghost var before := Contents(m.files);
    ghost var P, pairs := DetectByName(m, traits);
    r := ByName(m.files, pairs);
    candidates := NamesOf(P.news);
    IsSided(m.files, P, b1, o1, o2, before, m.version, traits);
    SidedNames(m.files, P, b1, o1, o2, before, m.version, traits);
    SidedFiles(m.files, P, b1, o1, o2, before, m.version, traits);
    AllowedByName(m.files, P, pairs, o1, o2, before, m.version);
    BestByName(m.files, P, pairs, b1, o1, o2, before, m.version, traits);
    CandidatesByName(o1, o2, before, m.version, P.news);
  }

  lemma StateMatching(P: Problem, pairs: map<File, File>)
    requires P.State(pairs, {})
    ensures P.Matching(pairs, {})
  {
  }
}