/** `compute_content_size` (src/manifest.c): when the sizes of bundles that are installed together add up to the
    size of all their files. */
module ContentSize {
  import opened Sorting
  import opened Files
  import opened Subtraction

  const LINK_SIZE_HINT: nat := 1024
  const DIR_SIZE_HINT: nat := 1024

  /** What one record adds. */
  function Contribution(e: Entry, size: nat): nat {
    if e.isDeleted then 0
    else if e.isFile then size
    else if e.isLink then LINK_SIZE_HINT
    else if e.isDir then DIR_SIZE_HINT
    else 0
  }

  /** A deleted record adds nothing, and each other one what its type says, ghost or not. */
  lemma RecordSize(e: Entry, size: nat)
    ensures e.isDeleted ==> Contribution(e, size) == 0
    ensures !e.isDeleted && e.Typed() ==> Contribution(e, size) == if e.isFile then size else 1024
    ensures !e.isDeleted && e.Untyped() ==> Contribution(e, size) == 0
  {
  }

  function SizeOf(files: seq<File>): nat
    reads files`entry, files`size
  {
    if files == [] then 0 else Contribution(files[0].entry, files[0].size) + SizeOf(files[1..])
  }

  lemma {:induction false} SizeAppends(files: seq<File>, k: nat)
    requires k < |files|
    ensures SizeOf(files[..k + 1]) == SizeOf(files[..k]) + Contribution(files[k].entry, files[k].size)
  {
    hide Contribution;
    if k == 0 {
      assert files[..1] == [files[0]] && [files[0]][1..] == [];
    } else {
      SizeAppends(files[1..], k - 1);
      assert files[..k + 1][1..] == files[1..][..k];
      assert files[..k][1..] == files[1..][..k - 1];
    }
  }

  method ComputeContentSize(m: Manifest)
    modifies m`contentSize
    ensures m.contentSize == old(m.contentSize) + SizeOf(m.files)
  {
    var files := m.files;
    for k := 0 to |files|
      invariant m.contentSize == old(m.contentSize) + SizeOf(files[..k]) && m.files == files
    {
      SizeAppends(files, k);
      var file := files[k];
      if !file.entry.isDeleted {
        if file.entry.isFile {
          m.contentSize := m.contentSize + file.size;
        } else if file.entry.isLink {
          m.contentSize := m.contentSize + LINK_SIZE_HINT;
        } else if file.entry.isDir {
          m.contentSize := m.contentSize + DIR_SIZE_HINT;
        }
      }
    }
    assert files[..|files|] == files;
  }

  // ----- the size of what is shipped -----

  function Weight(isFile: bool, size: nat): nat {
    if isFile then size else DIR_SIZE_HINT
  }

  function SizeIn(sizes: map<string, nat>, n: string): nat {
    if n in sizes then sizes[n] else 0
  }

  ghost function Sum(names: set<string>, w: map<string, nat>): nat
    decreases |names|
  {
    if names == {} then 0 else
      var n :| n in names; SizeIn(w, n) + Sum(names - {n}, w)
  }

  lemma {:induction false} SumRemove(names: set<string>, w: map<string, nat>, n: string)
    requires n in names
    ensures Sum(names, w) == SizeIn(w, n) + Sum(names - {n}, w)
    decreases |names|
  {
    hide SizeIn;
    var k :| k in names && Sum(names, w) == SizeIn(w, k) + Sum(names - {k}, w);
    if k != n {
      SumRemove(names - {k}, w, n);
      SumRemove(names - {n}, w, k);
      assert names - {k} - {n} == names - {n} - {k};
    }
  }

  lemma {:induction false} SumSplit(a: set<string>, b: set<string>, w: map<string, nat>)
    requires a !! b
    ensures Sum(a + b, w) == Sum(a, w) + Sum(b, w)
    decreases |a|
  {
    hide SizeIn;
    if a == {} {
      assert a + b == b;
    } else {
      var n :| n in a;
      SumRemove(a, w, n);
      SumRemove(a + b, w, n);
      SumSplit(a - {n}, b, w);
      assert a + b - {n} == a - {n} + b;
    }
  }

  lemma {:induction false} SumAgrees(names: set<string>, v: map<string, nat>, w: map<string, nat>)
    requires forall n | n in names :: SizeIn(v, n) == SizeIn(w, n)
    ensures Sum(names, v) == Sum(names, w)
    decreases |names|
  {
    hide SizeIn;
    if names != {} {
      var n :| n in names;
      SumRemove(names, v, n);
      SumRemove(names, w, n);
      SumAgrees(names - {n}, v, w);
    }
  }

  function Weights(s: map<string, bool>, sizes: map<string, nat>): map<string, nat> {
    map n | n in s :: Weight(s[n], SizeIn(sizes, n))
  }

  /** The sum over all shipped names. */
  ghost function Total(s: map<string, bool>, sizes: map<string, nat>): nat {
    Sum(s.Keys, Weights(s, sizes))
  }

  /** What is shipped has one type, and what is ghosted has none. */
  predicate Shaped(m: Entries) {
    forall n | n in m :: (m[n].Live() ==> m[n].Typed()) && (m[n].isGhosted && !m[n].isDeleted ==> m[n].Untyped())
  }

  ghost predicate SizesAre(files: seq<File>, sizes: map<string, nat>)
    reads files`size
  {
    forall i | 0 <= i < |files| :: files[i].filename in sizes && sizes[files[i].filename] == files[i].size
  }

  lemma TailDistinct(files: seq<File>)
    requires Distinct(Names(files)) && files != []
    ensures Distinct(Names(files[1..])) && files[0].filename !in Index(files[1..])
  {
    var tail := files[1..];
    assert forall i | 0 <= i < |tail| :: Names(tail)[i] == Names(files)[i + 1];
    assert forall i | 0 <= i < |tail| :: Names(tail)[i] != Names(files)[0];
  }

  lemma TailRecords(files: seq<File>)
    requires Distinct(Names(files)) && files != []
    ensures Distinct(Names(files[1..])) && files[0].filename !in Contents(files[1..])
    ensures Contents(files) == Contents(files[1..])[files[0].filename := files[0].entry]
  {
    hide Distinct, Names, Index;
    var tail := files[1..];
    TailDistinct(files);
    forall n | n in Index(tail)
      ensures n in Index(files) && Index(files)[n] == Index(tail)[n]
    {
      assert Index(tail)[n] in files;
      RecordOf(files, Index(tail)[n]);
    }
    forall n | n in Index(files)
      ensures n == files[0].filename || n in Index(tail)
    {
      var f := Index(files)[n];
      assert f == files[0] || f in tail;
      if f in tail {
        RecordOf(tail, f);
      }
    }
  }

  /** The loop adds up exactly what the manifest ships. */
  lemma {:induction false} SizeIsTotal(files: seq<File>, sizes: map<string, nat>)
    requires Distinct(Names(files)) && Shaped(Contents(files)) && SizesAre(files, sizes)
    ensures SizeOf(files) == Total(Shipped(Contents(files)), sizes)
    decreases |files|
  {
    hide Distinct, Names, Index, Contents;
    if files == [] {
      NothingShipped(files);
    } else {
      TailRecords(files);
      var tail, f := files[1..], files[0];
      var c, c' := Contents(tail), Contents(files);
      assert Shaped(c) by {
        assert forall n | n in c :: c[n] == c'[n];
      }
      assert SizesAre(tail, sizes) by {
        assert forall i | 0 <= i < |tail| :: tail[i] == files[i + 1];
      }
      SizeIsTotal(tail, sizes);
      OneMore(c, f.filename, f.entry, f.size, sizes);
    }
  }

  lemma NothingShipped(files: seq<File>)
    requires files == [] && Distinct(Names(files))
    ensures Contents(files) == map[] && Shipped(map[]) == map[]
  {
  }

  lemma OneMore(c: Entries, n: string, e: Entry, size: nat, sizes: map<string, nat>)
    requires n !in c && Shaped(c[n := e]) && n in sizes && sizes[n] == size
    ensures Total(Shipped(c[n := e]), sizes) == Contribution(e, size) + Total(Shipped(c), sizes)
  {
    var s, s' := Shipped(c), Shipped(c[n := e]);
    assert c[n := e][n] == e;
    if e.Live() {
      assert s'.Keys - {n} == s.Keys;
      SumRemove(s'.Keys, Weights(s', sizes), n);
      SumAgrees(s.Keys, Weights(s, sizes), Weights(s', sizes));
    } else {
      assert s' == s;
    }
  }

  // ----- what several bundles were given, and what they list of it -----

  /** For each bundle the files that were put into it, with their is_file bits. */
  type Puts = map<string, map<string, bool>>

  ghost predicate PutBelow(put: Puts, inc: Includes, b: string, n: string) {
    exists c | c in Closure(inc, b) :: c in put && n in put[c]
  }

  /** What a bundle lists of its files: those that no bundle it includes was given. */
  ghost function Listed(put: Puts, inc: Includes, b: string): (r: map<string, bool>)
    requires b in put
  {
    map n | n in put[b] && !PutBelow(put, inc, b, n) :: put[b][n]
  }

  /** Bundles that are installed together: each once, and with each all that it includes. */
  ghost predicate Installed(put: Puts, inc: Includes, bundles: seq<string>) {
    && Distinct(bundles) && (forall i | 0 <= i < |bundles| :: bundles[i] in put)
    && forall i, c | 0 <= i < |bundles| && c in Closure(inc, bundles[i]) :: c in bundles
  }

  /** Bundles that share a name agree on what it is. */
  predicate Agree(put: Puts) {
    forall b, c, n | b in put && c in put && n in put[b] && n in put[c] :: put[b][n] == put[c][n]
  }

  /** All files of the first k bundles. */
  function Together(put: Puts, bundles: seq<string>, k: nat): map<string, bool>
    requires k <= |bundles| && forall i | 0 <= i < |bundles| :: bundles[i] in put
  {
    if k == 0 then map[] else Together(put, bundles, k - 1) + put[bundles[k - 1]]
  }

  lemma {:induction false} TogetherHas(put: Puts, bundles: seq<string>, k: nat, n: string)
    requires k <= |bundles| && (forall i | 0 <= i < |bundles| :: bundles[i] in put) && Agree(put)
    ensures n in Together(put, bundles, k) <==> exists i | 0 <= i < k :: n in put[bundles[i]]
    ensures forall i | 0 <= i < k && n in put[bundles[i]] :: Together(put, bundles, k)[n] == put[bundles[i]][n]
  {
    if k > 0 {
      TogetherHas(put, bundles, k - 1, n);
    }
  }

  /** What each of the bundles lists. */
  ghost function AllListed(put: Puts, inc: Includes): (r: Puts)
    ensures r.Keys == put.Keys && forall b | b in put :: r[b] == Listed(put, inc, b)
  {
    map b | b in put :: Listed(put, inc, b)
  }

  lemma ListedAgree(put: Puts, inc: Includes)
    requires Agree(put)
    ensures Agree(AllListed(put, inc))
  {
    hide PutBelow;
  }

  /** Whatever was put into a bundle is listed by it or by a bundle that it includes. */
  lemma {:induction false} SomeoneLists(put: Puts, inc: Includes, rank: map<string, nat>, b: string, n: string)
    returns (c: string)
    requires Ranked(inc, rank) && b in put && n in put[b]
    ensures (c == b || c in Closure(inc, b)) && c in put && n in Listed(put, inc, c)
    decreases if b in rank then rank[b] else 0
  {
    if PutBelow(put, inc, b, n) {
      var d :| d in Closure(inc, b) && d in put && n in put[d];
      ReachesDown(inc, rank, b, d);
      c := SomeoneLists(put, inc, rank, d, n);
      if c != d {
        ReachesTransitive(inc, rank, b, d, c);
      }
    } else {
      c := b;
    }
  }

  /** Together the bundles list what they were given. */
  lemma ListedTogether(put: Puts, inc: Includes, rank: map<string, nat>, bundles: seq<string>)
    requires Ranked(inc, rank) && Installed(put, inc, bundles) && Agree(put)
    ensures Together(AllListed(put, inc), bundles, |bundles|) == Together(put, bundles, |bundles|)
  {
    hide Ranked, Agree, Closure, Together;
    var lists := AllListed(put, inc);
    ListedAgree(put, inc);
    forall n
      ensures n in Together(lists, bundles, |bundles|) <==> n in Together(put, bundles, |bundles|)
      ensures n in Together(put, bundles, |bundles|) ==>
        Together(lists, bundles, |bundles|)[n] == Together(put, bundles, |bundles|)[n]
    {
      TogetherHas(put, bundles, |bundles|, n);
      TogetherHas(lists, bundles, |bundles|, n);
      if i :| 0 <= i < |bundles| && n in put[bundles[i]] {
        var c := SomeoneLists(put, inc, rank, bundles[i], n);
        assert c in bundles;
        var j :| 0 <= j < |bundles| && bundles[j] == c;
        assert n in lists[bundles[j]] && n in put[bundles[j]];
      }
    }
  }

  // ----- adding up sizes -----

  ghost function SumOfSizes(ships: Puts, bundles: seq<string>, k: nat, sizes: map<string, nat>): nat
    requires k <= |bundles| && forall i | 0 <= i < |bundles| :: bundles[i] in ships
  {
    if k == 0 then 0 else SumOfSizes(ships, bundles, k - 1, sizes) + Total(ships[bundles[k - 1]], sizes)
  }

  lemma {:induction false} SumIsZero(names: set<string>, w: map<string, nat>)
    ensures Sum(names, w) == 0 <==> forall n | n in names :: SizeIn(w, n) == 0
    decreases |names|
  {
    hide SizeIn;
    if names != {} {
      var n :| n in names;
      SumRemove(names, w, n);
      SumIsZero(names - {n}, w);
      assert forall k | k in names :: k == n || k in names - {n};
    }
  }

  /** What two tables have in common is counted twice. */
  lemma TotalOfBoth(a: map<string, bool>, b: map<string, bool>, sizes: map<string, nat>)
    requires forall n | n in a && n in b :: a[n] == b[n]
    ensures Total(a, sizes) + Total(b, sizes) == Total(a + b, sizes) + Sum(a.Keys * b.Keys, Weights(b, sizes))
  {
    hide Sum;
    var both, new_, w := a.Keys * b.Keys, b.Keys - a.Keys, Weights(a + b, sizes);
    assert (a + b).Keys == a.Keys + new_ && b.Keys == both + new_;
    SumSplit(a.Keys, new_, w);
    SumSplit(both, new_, Weights(b, sizes));
    SumAgrees(a.Keys, Weights(a, sizes), w);
    SumAgrees(new_, Weights(b, sizes), w);
  }

  /** Two of the first k bundles list a name that has a size. */
  ghost predicate Twice(ships: Puts, bundles: seq<string>, k: nat, sizes: map<string, nat>)
    requires k <= |bundles| && forall i | 0 <= i < |bundles| :: bundles[i] in ships
  {
    exists i, j, n | 0 <= i < j < k :: SharedBy(ships[bundles[i]], ships[bundles[j]], n, sizes)
  }

  predicate SharedBy(a: map<string, bool>, b: map<string, bool>, n: string, sizes: map<string, nat>) {
    n in a && n in b && Weight(b[n], SizeIn(sizes, n)) > 0
  }

  /** The sum of the sizes is never too small, and too large exactly if a name that has a size is listed twice. */
  lemma {:induction false} SumIsExact(ships: Puts, bundles: seq<string>, k: nat, sizes: map<string, nat>)
    requires k <= |bundles| && (forall i | 0 <= i < |bundles| :: bundles[i] in ships) && Agree(ships)
    ensures SumOfSizes(ships, bundles, k, sizes) >= Total(Together(ships, bundles, k), sizes)
    ensures SumOfSizes(ships, bundles, k, sizes) == Total(Together(ships, bundles, k), sizes) <==>
      !Twice(ships, bundles, k, sizes)
  {
    hide Agree, SizeIn, Sum, Weight, Total;
    if k == 0 {
      NothingTotal(sizes);
    } else {
      var a, b := Together(ships, bundles, k - 1), ships[bundles[k - 1]];
      SumIsExact(ships, bundles, k - 1, sizes);
      forall n
        ensures n in a <==> exists i | 0 <= i < k - 1 :: n in ships[bundles[i]]
        ensures n in a && n in b ==> a[n] == b[n]
      {
        TogetherHas(ships, bundles, k - 1, n);
        TogetherHas(ships, bundles, k, n);
        AgreeOn(ships, bundles, k - 1, n);
      }
      TotalOfBoth(a, b, sizes);
      SumIsZero(a.Keys * b.Keys, Weights(b, sizes));
      LastTwice(ships, bundles, k, sizes);
    }
  }

  lemma NothingTotal(sizes: map<string, nat>)
    ensures Total(map[], sizes) == 0
  {
  }

  lemma AgreeOn(ships: Puts, bundles: seq<string>, k: nat, n: string)
    requires k < |bundles| && (forall i | 0 <= i < |bundles| :: bundles[i] in ships) && Agree(ships)
    ensures n in Together(ships, bundles, k) && n in ships[bundles[k]] ==>
      Together(ships, bundles, k)[n] == ships[bundles[k]][n]
  {
    TogetherHas(ships, bundles, k, n);
  }

  lemma LastTwice(ships: Puts, bundles: seq<string>, k: nat, sizes: map<string, nat>)
    requires 0 < k <= |bundles| && (forall i | 0 <= i < |bundles| :: bundles[i] in ships) && Agree(ships)
    ensures var a, b := Together(ships, bundles, k - 1), ships[bundles[k - 1]];
      Twice(ships, bundles, k, sizes) <==>
        Twice(ships, bundles, k - 1, sizes) || exists n | n in a.Keys * b.Keys :: SizeIn(Weights(b, sizes), n) > 0
  {
    hide Agree, Together, Weight;
    var a, b := Together(ships, bundles, k - 1), ships[bundles[k - 1]];
    forall n
      ensures n in a <==> exists i | 0 <= i < k - 1 :: n in ships[bundles[i]]
    {
      TogetherHas(ships, bundles, k - 1, n);
    }
    if n :| n in a.Keys * b.Keys && SizeIn(Weights(b, sizes), n) > 0 {
      var i :| 0 <= i < k - 1 && n in ships[bundles[i]];
      assert SharedBy(ships[bundles[i]], ships[bundles[k - 1]], n, sizes);
    }
    if Twice(ships, bundles, k, sizes) && !Twice(ships, bundles, k - 1, sizes) {
      var i, j, n :| 0 <= i < j < k && SharedBy(ships[bundles[i]], ships[bundles[j]], n, sizes);
      assert j == k - 1;
      assert n in a.Keys * b.Keys && SizeIn(Weights(b, sizes), n) > 0;
    }
  }

  // ----- what subtraction leaves -----

  function Given(work: Work): (r: Puts)
    ensures r.Keys == work.Keys
  {
    map b | b in work :: Shipped(work[b])
  }

  lemma SubtractedIsListed(raw: Work, inc: Includes, b: string)
    requires b in raw && (forall c | c in raw :: Typical(raw[c])) && Agree(Given(raw))
    ensures Shipped(SubtractIncludes(raw, inc, b)) == Listed(Given(raw), inc, b)
  {
    hide Closure;
    forall n | n in raw[b]
      ensures CancelledIn(raw, inc, b, n) <==> PutBelow(Given(raw), inc, b, n)
    {
      assert Typical(raw[b]);
      if c :| c in Closure(inc, b) && c in raw && n in Given(raw)[c] {
        assert Typical(raw[c]) && Given(raw)[b][n] == Given(raw)[c][n];
        assert Cancels(raw[b][n], raw[c][n]);
      }
      if CancelledIn(raw, inc, b, n) {
        var c :| c in Closure(inc, b) && c in raw && n in raw[c] && Cancels(raw[b][n], raw[c][n]);
        assert Typical(raw[c]);
        assert n in Given(raw)[c];
      }
    }
  }

  lemma {:induction false} SameSums(a: Puts, b: Puts, bundles: seq<string>, k: nat, sizes: map<string, nat>)
    requires k <= |bundles| && forall i | 0 <= i < |bundles| ::
      bundles[i] in a && bundles[i] in b && a[bundles[i]] == b[bundles[i]]
    ensures SumOfSizes(a, bundles, k, sizes) == SumOfSizes(b, bundles, k, sizes)
  {
    hide Total;
    if k > 0 {
      SameSums(a, b, bundles, k - 1, sizes);
    }
  }

  /** Two bundles, neither of which includes the other, that list the same name. */
  ghost predicate Overlap(put: Puts, inc: Includes, bundles: seq<string>, sizes: map<string, nat>)
    requires forall i | 0 <= i < |bundles| :: bundles[i] in put
  {
    exists i, j, n | 0 <= i < j < |bundles|
        && bundles[i] !in Closure(inc, bundles[j]) && bundles[j] !in Closure(inc, bundles[i]) ::
      SharedBy(Listed(put, inc, bundles[i]), Listed(put, inc, bundles[j]), n, sizes)
  }

  lemma TwiceIsOverlap(put: Puts, inc: Includes, bundles: seq<string>, sizes: map<string, nat>)
    requires forall i | 0 <= i < |bundles| :: bundles[i] in put
    ensures Twice(AllListed(put, inc), bundles, |bundles|, sizes) <==> Overlap(put, inc, bundles, sizes)
  {
    hide Closure, Weight;
    var lists := AllListed(put, inc);
    if Twice(lists, bundles, |bundles|, sizes) {
      var i, j, n :| 0 <= i < j < |bundles| && SharedBy(lists[bundles[i]], lists[bundles[j]], n, sizes);
      assert !PutBelow(put, inc, bundles[i], n) && !PutBelow(put, inc, bundles[j], n);
      assert SharedBy(Listed(put, inc, bundles[i]), Listed(put, inc, bundles[j]), n, sizes);
    }
    if Overlap(put, inc, bundles, sizes) {
      var i, j, n :|
        0 <= i < j < |bundles| && bundles[i] !in Closure(inc, bundles[j]) && bundles[j] !in Closure(inc, bundles[i])
        && SharedBy(Listed(put, inc, bundles[i]), Listed(put, inc, bundles[j]), n, sizes);
      assert SharedBy(lists[bundles[i]], lists[bundles[j]], n, sizes);
    }
  }

  /** For bundles that are installed together: the sizes of what they list add up to the size of all their files,
      each counted once, if and only if no two of them that are on no include chain overlap; and else to more. */
  lemma ListedSizes(put: Puts, inc: Includes, rank: map<string, nat>, bundles: seq<string>, sizes: map<string, nat>)
    requires Ranked(inc, rank) && Installed(put, inc, bundles) && Agree(put)
    ensures var sum := SumOfSizes(AllListed(put, inc), bundles, |bundles|, sizes);
      var all := Total(Together(put, bundles, |bundles|), sizes);
      sum >= all && (sum == all <==> !Overlap(put, inc, bundles, sizes))
  {
    hide Ranked, Closure, Total, Together, Agree, Twice, Overlap, SumOfSizes, Listed;
    ListedAgree(put, inc);
    ListedTogether(put, inc, rank, bundles);
    SumIsExact(AllListed(put, inc), bundles, |bundles|, sizes);
    TwiceIsOverlap(put, inc, bundles, sizes);
  }

  /** After the bundles were subtracted, in any order, the sizes of bundles that are installed together add up to the
      size of all their files, each counted once, if and only if no two of them that are on no include chain
      overlap; and else to more. */
  lemma SizesAddUp(inc: Includes, rank: map<string, nat>, order: seq<string>, works: seq<Work>, bundles: seq<string>,
      sizes: map<string, nat>)
    requires Ranked(inc, rank) && Distinct(order) && |works| > 0 && Pass(works[0], inc, order, works)
    requires works[0].Keys == inc.Keys && forall b | b in works[0] :: Typical(works[0][b])
    requires Installed(Given(works[0]), inc, bundles) && Agree(Given(works[0]))
    requires forall i | 0 <= i < |bundles| :: bundles[i] in order
    ensures forall i | 0 <= i < |bundles| :: bundles[i] in works[|order|]
    ensures var put := Given(works[0]);
      var sum := SumOfSizes(Given(works[|order|]), bundles, |bundles|, sizes);
      var all := Total(Together(put, bundles, |bundles|), sizes);
      sum >= all && (sum == all <==> !Overlap(put, inc, bundles, sizes))
  {
    hide Ranked, Agree, Distinct, Shipped, SubtractIncludes, Listed, Overlap, Closure, Total, Together, SumOfSizes;
    PassProgress(inc, rank, order, works, |order|);
    forall i | 0 <= i < |bundles|
      ensures bundles[i] in works[|order|]
      ensures Given(works[|order|])[bundles[i]] == AllListed(Given(works[0]), inc)[bundles[i]]
    {
      SubtractedIsListed(works[0], inc, bundles[i]);
    }
    SameSums(Given(works[|order|]), AllListed(Given(works[0]), inc), bundles, |bundles|, sizes);
    ListedSizes(Given(works[0]), inc, rank, bundles, sizes);
  }

  // ----- along a chain -----

  /** Each bundle includes, directly or not, exactly those before it. */
  ghost predicate Chain(inc: Includes, chain: seq<string>) {
    && Distinct(chain)
    && forall i | 0 <= i < |chain| :: chain[i] in inc && Closure(inc, chain[i]) == (set j | 0 <= j < i :: chain[j])
  }

  /** On a chain there is no overlap, so that the sizes add up. */
  lemma ChainHasNoOverlap(put: Puts, inc: Includes, chain: seq<string>, sizes: map<string, nat>)
    requires Chain(inc, chain) && forall i | 0 <= i < |chain| :: chain[i] in put
    ensures Installed(put, inc, chain) && !Overlap(put, inc, chain, sizes)
  {
    hide Closure, Listed;
  }

  lemma ChainSizesAddUp(inc: Includes, rank: map<string, nat>, order: seq<string>, works: seq<Work>, chain: seq<string>,
      sizes: map<string, nat>)
    requires Ranked(inc, rank) && Distinct(order) && |works| > 0 && Pass(works[0], inc, order, works)
    requires works[0].Keys == inc.Keys && forall b | b in works[0] :: Typical(works[0][b])
    requires Chain(inc, chain) && Agree(Given(works[0])) && forall i | 0 <= i < |chain| :: chain[i] in order
    ensures forall i | 0 <= i < |chain| :: chain[i] in works[|order|] && chain[i] in works[0]
    ensures SumOfSizes(Given(works[|order|]), chain, |chain|, sizes) ==
      Total(Together(Given(works[0]), chain, |chain|), sizes)
  {
    hide Ranked, Agree, Overlap, Closure, Total, Together, SumOfSizes;
    ChainHasNoOverlap(Given(works[0]), inc, chain, sizes);
    SizesAddUp(inc, rank, order, works, chain, sizes);
  }

  /** The core, a bundle, and one that includes it, with the core in every include list as a release has it. */
  lemma ChainOfThree(inc: Includes, core: string, a: string, b: string)
    requires core in inc && a in inc && b in inc && core != a && core != b && a != b
    requires inc[core] == [] && forall x :: x in inc[a] <==> x == core
    requires forall x :: x in inc[b] <==> x == core || x == a
    ensures Chain(inc, [core, a, b])
  {
    hide Reaches;
    ReachesStep(inc, a, core, core);
    ReachesStep(inc, b, core, core);
    ReachesStep(inc, b, a, a);
    forall c, x | x in {core, a, b} && c in Closure(inc, x)
      ensures (x == a && c == core) || (x == b && c in {core, a})
    {
      var y := FirstStep(inc, x, c);
      if y != c {
        var z := FirstStep(inc, y, c);
        if z != c {
          var u := FirstStep(inc, z, c);
        }
      }
    }
    assert Closure(inc, core) == {} && Closure(inc, a) == {core} && Closure(inc, b) == {core, a};
    var chain := [core, a, b];
    assert (set j | 0 <= j < 1 :: chain[j]) == {chain[0]};
    assert (set j | 0 <= j < 2 :: chain[j]) == {chain[0], chain[1]};
  }

  /** Two bundles beside each other that were given one file: its size counts twice. */
  lemma NeighboursOverlap(core: string, a: string, b: string, n: string, size: nat)
    requires core != a && core != b && a != b && size > 0
    ensures var inc := map[core := [], a := [core], b := [core]];
      var put, sizes := map[core := map[], a := map[n := true], b := map[n := true]], map[n := size];
      SumOfSizes(AllListed(put, inc), [core, a, b], 3, sizes) > Total(Together(put, [core, a, b], 3), sizes)
  {
    hide Reaches, Total, SumOfSizes, Together;
    var inc, put := map[core := [], a := [core], b := [core]],
        map[core := map[], a := map[n := true], b := map[n := true]];
    var bundles := [core, a, b];
    forall c, x | x in {core, a, b} && c in Closure(inc, x)
      ensures c == core && x != core
    {
      var y := FirstStep(inc, x, c);
      if y != c {
        var z := FirstStep(inc, y, c);
      }
    }
    assert bundles[0] == core;
    assert SharedBy(Listed(put, inc, bundles[1]), Listed(put, inc, bundles[2]), n, map[n := size]);
    assert Overlap(put, inc, bundles, map[n := size]);
    ListedSizes(put, inc, map[core := 0, a := 1, b := 1], bundles, map[n := size]);
  }
}
