/** `subtract_manifests` and its front end (src/manifest.c): a bundle does not list what the
    bundles it includes, directly or not, already list. */
module Subtraction {
  import opened Sorting
  import opened Files

  // ----- one pair of manifests -----

  /** A record of the first manifest goes away because of this record of the second. Two deleted
      records never cancel: a client needs both to know when to delete the file. */
  predicate Cancels(a: Entry, b: Entry) {
    && !(a.isDeleted && b.isDeleted)
    && a.isDeleted == b.isDeleted && a.isFile == b.isFile
  }

  function Subtract(a: Entries, b: Entries): Entries {
    map n | n in a && !(n in b && Cancels(a[n], b[n])) :: a[n]
  }

  function SubtractEach(a: Entries, bs: seq<Entries>): Entries {
    if bs == [] then a else SubtractEach(Subtract(a, bs[0]), bs[1..])
  }

  ghost predicate Cancelled(a: Entries, bs: seq<Entries>, n: string) {
    n in a && exists i | 0 <= i < |bs| :: n in bs[i] && Cancels(a[n], bs[i][n])
  }

  /** Subtracting one after the other is one filter, whatever the order. */
  lemma {:induction false} SubtractEachFilters(a: Entries, bs: seq<Entries>)
    ensures SubtractEach(a, bs) == map n | n in a && !Cancelled(a, bs, n) :: a[n]
  {
    if bs != [] {
      var a' := Subtract(a, bs[0]);
      SubtractEachFilters(a', bs[1..]);
      forall n | n in a
        ensures Cancelled(a, bs, n) <==> n !in a' || Cancelled(a', bs[1..], n)
      {
        if n in a' && Cancelled(a', bs[1..], n) {
          var i :| 0 <= i < |bs[1..]| && n in bs[1..][i] && Cancels(a'[n], bs[1..][i][n]);
          assert n in bs[i + 1] && Cancels(a[n], bs[i + 1][n]);
        }
        if n in a' && Cancelled(a, bs, n) {
          var i :| 0 <= i < |bs| && n in bs[i] && Cancels(a[n], bs[i][n]);
          assert i > 0 && bs[1..][i - 1] == bs[i];
        }
      }
    }
  }

  // ----- the include relation -----

  type Includes = map<string, seq<string>>

  ghost predicate Path(inc: Includes, p: seq<string>) {
    |p| >= 2 && forall i | 0 <= i < |p| - 1 :: p[i] in inc && p[i + 1] in inc[p[i]]
  }

  /** `b` includes `c`, directly or through others. */
  ghost predicate Reaches(inc: Includes, b: string, c: string) {
    exists p: seq<string> :: Path(inc, p) && p[0] == b && p[|p| - 1] == c
  }

  /** What `get_unique_includes` computes. */
  ghost function Closure(inc: Includes, b: string): set<string> {
    set c | c in inc && Reaches(inc, b, c)
  }

  /** Every include is a known bundle of smaller rank: the relation is closed and has no cycle. */
  ghost predicate Ranked(inc: Includes, rank: map<string, nat>) {
    forall b, c | b in inc && c in inc[b] :: c in inc && b in rank && c in rank && rank[c] < rank[b]
  }

  lemma ReachesStep(inc: Includes, b: string, c: string, d: string)
    requires b in inc && c in inc[b] && (c == d || Reaches(inc, c, d))
    ensures Reaches(inc, b, d)
  {
    if c == d {
      assert Path(inc, [b, c]);
    } else {
      var p :| Path(inc, p) && p[0] == c && p[|p| - 1] == d;
      var q := [b] + p;
      forall i | 0 <= i < |q| - 1
        ensures q[i] in inc && q[i + 1] in inc[q[i]]
      {
        if i > 0 {
          assert q[i] == p[i - 1] && q[i + 1] == p[i];
        }
      }
      assert Path(inc, q) && q[|q| - 1] == d;
    }
  }

  lemma FirstStep(inc: Includes, b: string, d: string) returns (c: string)
    requires Reaches(inc, b, d)
    ensures b in inc && c in inc[b] && (c == d || Reaches(inc, c, d))
  {
    var p :| Path(inc, p) && p[0] == b && p[|p| - 1] == d;
    c := p[1];
    assert p[0] in inc && p[1] in inc[p[0]];
    if |p| > 2 {
      var q := p[1..];
      forall i | 0 <= i < |q| - 1
        ensures q[i] in inc && q[i + 1] in inc[q[i]]
      {
        assert q[i] == p[i + 1] && q[i + 1] == p[i + 2];
      }
      assert Path(inc, q) && q[0] == c && q[|q| - 1] == d;
    }
  }

  lemma {:induction false} ReachesDown(inc: Includes, rank: map<string, nat>, b: string, d: string)
    requires Ranked(inc, rank) && Reaches(inc, b, d)
    ensures b in inc && d in inc && b in rank && d in rank && rank[d] < rank[b]
    decreases if b in rank then rank[b] else 0
  {
    var c := FirstStep(inc, b, d);
    if c != d {
      ReachesDown(inc, rank, c, d);
    }
  }

  lemma {:induction false} ReachesTransitive(inc: Includes, rank: map<string, nat>, b: string, c: string, d: string)
    requires Ranked(inc, rank) && Reaches(inc, b, c) && Reaches(inc, c, d)
    ensures Reaches(inc, b, d)
    decreases if b in rank then rank[b] else 0
  {
    ReachesDown(inc, rank, b, c);
    var x := FirstStep(inc, b, c);
    if x != c {
      ReachesTransitive(inc, rank, x, c, d);
    }
    ReachesStep(inc, b, x, d);
  }

  // ----- a bundle against all it includes -----

  type Work = map<string, Entries>

  ghost predicate CancelledIn(work: Work, inc: Includes, b: string, n: string)
    requires b in work
  {
    n in work[b] && exists c | c in Closure(inc, b) :: c in work && n in work[c] && Cancels(work[b][n], work[c][n])
  }

  /** `subtract_manifests_frontend(m, m)` for bundle `b`. */
  ghost function SubtractIncludes(work: Work, inc: Includes, b: string): Entries
    requires b in work
  {
    map n | n in work[b] && !CancelledIn(work, inc, b, n) :: work[b][n]
  }

  /** Whatever the order in which the hash table yields the included manifests. */
  lemma AnyIterationOrder(work: Work, inc: Includes, b: string, cs: seq<string>)
    requires b in work && (forall c :: c in cs <==> c in Closure(inc, b)) && forall i | 0 <= i < |cs| :: cs[i] in work
    ensures SubtractEach(work[b], seq(|cs|, i requires 0 <= i < |cs| => work[cs[i]])) == SubtractIncludes(work, inc, b)
  {
    var bs := seq(|cs|, i requires 0 <= i < |cs| => work[cs[i]]);
    SubtractEachFilters(work[b], bs);
    forall n | n in work[b]
      ensures Cancelled(work[b], bs, n) <==> CancelledIn(work, inc, b, n)
    {
      if CancelledIn(work, inc, b, n) {
        var c :| c in Closure(inc, b) && c in work && n in work[c] && Cancels(work[b][n], work[c][n]);
        var i :| 0 <= i < |cs| && cs[i] == c;
        assert n in bs[i] && Cancels(work[b][n], bs[i][n]);
      }
      if Cancelled(work[b], bs, n) {
        var i :| 0 <= i < |bs| && n in bs[i] && Cancels(work[b][n], bs[i][n]);
        assert cs[i] in cs;
        assert cs[i] in Closure(inc, b);
      }
    }
  }

  // ----- all bundles, one after the other -----

  /** The names a manifest ships, with the one bit subtraction looks at. */
  function Shipped(m: Entries): map<string, bool> {
    map n | n in m && m[n].Live() :: m[n].isFile
  }

  predicate Typical(m: Entries) {
    forall n | n in m :: m[n].Live()
  }

  /** No ghosted record of the table could cancel a name that some bundle ships: it has no type bits, so
      that only a directory or a link would be in danger. */
  ghost predicate Harmless(raw: Work, m: Entries) {
    forall b, n | b in raw && n in raw[b] && n in m && m[n].isGhosted :: !Cancels(raw[b][n], m[n])
  }

  /** The bundles `done` were processed: each holds, as far as shipped files go, what its original
      contents minus the original contents of all it includes are. The others are untouched. */
  ghost predicate Progress(raw: Work, work: Work, inc: Includes, done: set<string>) {
    && work.Keys == raw.Keys == inc.Keys && done <= raw.Keys
    && (forall b | b in raw :: Typical(raw[b]))
    && (forall b | b in raw && b !in done :: work[b] == raw[b])
    && (forall b | b in done :: Shipped(work[b]) == Shipped(SubtractIncludes(raw, inc, b)))
  }

  /** What a bundle shipped is still shipped by it or by a bundle it includes. */
  lemma {:induction false} Survivor(raw: Work, work: Work, inc: Includes, rank: map<string, nat>, done: set<string>,
      b: string, n: string)
    returns (c: string)
    requires Ranked(inc, rank) && Progress(raw, work, inc, done)
    requires b in raw && n in raw[b]
    ensures (c == b || c in Closure(inc, b)) && c in work && n in work[c]
    ensures work[c][n].Live() && work[c][n].isFile == raw[b][n].isFile
    decreases if b in rank then rank[b] else 0
  {
    assert raw[b][n].Live();
    if b !in done {
      c := b;
    } else if !CancelledIn(raw, inc, b, n) {
      c := b;
      assert n in Shipped(SubtractIncludes(raw, inc, b));
      assert n in Shipped(work[b]);
    } else {
      var d :| d in Closure(inc, b) && d in raw && n in raw[d] && Cancels(raw[b][n], raw[d][n]);
      ReachesDown(inc, rank, b, d);
      c := Survivor(raw, work, inc, rank, done, d, n);
      if c != d {
        ReachesTransitive(inc, rank, b, d, c);
      }
    }
  }

  /** A ghosted record of an included bundle that cancels a name which the included bundles do not ship. */
  ghost predicate GhostCancels(raw: Work, work: Work, inc: Includes, b: string)
    requires b in raw
  {
    exists c, n | c in Closure(inc, b) && c in work && n in work[c] ::
      n in raw[b] && !CancelledIn(raw, inc, b, n) && work[c][n].isGhosted && Cancels(raw[b][n], work[c][n])
  }

  /** A bundle whose turn it is loses exactly the names that its included bundles shipped
      originally, however many of those were already subtracted themselves; except that a ghosted
      record, which has no type bits, can also cancel a directory or a link. */
  lemma TurnIsExact(raw: Work, work: Work, inc: Includes, rank: map<string, nat>, done: set<string>, b: string)
    requires Ranked(inc, rank) && Progress(raw, work, inc, done) && b in raw && b !in done
    ensures SubtractIncludes(work, inc, b) == SubtractIncludes(raw, inc, b) <==> !GhostCancels(raw, work, inc, b)
  {
    forall n | n in raw[b] && CancelledIn(raw, inc, b, n)
      ensures CancelledIn(work, inc, b, n)
    {
      var d :| d in Closure(inc, b) && d in raw && n in raw[d] && Cancels(raw[b][n], raw[d][n]);
      var c := Survivor(raw, work, inc, rank, done, d, n);
      if c != d {
        ReachesTransitive(inc, rank, b, d, c);
      }
      assert raw[b][n].Live();
    }
    forall n | n in raw[b] && CancelledIn(work, inc, b, n) && !CancelledIn(raw, inc, b, n)
      ensures GhostCancels(raw, work, inc, b)
    {
      var c :| c in Closure(inc, b) && c in work && n in work[c] && Cancels(work[b][n], work[c][n]);
      assert raw[b][n].Live();
      if work[c][n].Live() {
        assert n in Shipped(work[c]);
        if c in done {
          assert n in Shipped(SubtractIncludes(raw, inc, c));
        }
        assert Cancels(raw[b][n], raw[c][n]);
        assert false;
      }
    }
    if GhostCancels(raw, work, inc, b) {
      var c, n :| c in Closure(inc, b) && c in work && n in work[c] &&
        n in raw[b] && !CancelledIn(raw, inc, b, n) && work[c][n].isGhosted && Cancels(raw[b][n], work[c][n]);
      assert n in SubtractIncludes(raw, inc, b) && CancelledIn(work, inc, b, n);
      assert n !in SubtractIncludes(work, inc, b);
    }
  }

  /** One bundle's turn: subtraction, then processing that may add dead records, of any kind that does no harm,
      but keeps what is shipped. */
  ghost predicate Turn(raw: Work, inc: Includes, b: string, work: Work, work': Work) {
    && b in work && b in work' && work' == work[b := work'[b]]
    && Harmless(raw, work'[b]) && Shipped(work'[b]) == Shipped(SubtractIncludes(work, inc, b))
  }

  ghost predicate Pass(raw: Work, inc: Includes, order: seq<string>, works: seq<Work>) {
    && |works| == |order| + 1
    && forall i | 0 <= i < |order| :: Turn(raw, inc, order[i], works[i], works[i + 1])
  }

  /** No processed bundle holds a ghosted record that could cancel anything. */
  ghost predicate AllHarmless(raw: Work, work: Work, done: set<string>) {
    forall b | b in done && b in work :: Harmless(raw, work[b])
  }

  /** A turn after others: what it leaves is what the original contents decide. */
  lemma TurnProgress(raw: Work, work: Work, work': Work, inc: Includes, rank: map<string, nat>, done: set<string>,
      b: string)
    requires Ranked(inc, rank) && Progress(raw, work, inc, done) && AllHarmless(raw, work, done) && b in raw
    requires b !in done
    requires Turn(raw, inc, b, work, work')
    ensures SubtractIncludes(work, inc, b) == SubtractIncludes(raw, inc, b)
    ensures Progress(raw, work', inc, done + {b}) && AllHarmless(raw, work', done + {b})
  {
    NoGhostAround(raw, work, inc, done, b);
    TurnIsExact(raw, work, inc, rank, done, b);
  }

  lemma NoGhostAround(raw: Work, work: Work, inc: Includes, done: set<string>, b: string)
    requires Progress(raw, work, inc, done) && AllHarmless(raw, work, done) && b in raw
    ensures !GhostCancels(raw, work, inc, b)
  {
    hide Closure, CancelledIn, Shipped;
  }

  lemma {:induction false} PassProgress(inc: Includes, rank: map<string, nat>, order: seq<string>,
      works: seq<Work>, k: nat)
    requires Ranked(inc, rank) && Distinct(order) && |works| > 0 && Pass(works[0], inc, order, works) && k <= |order|
    requires works[0].Keys == inc.Keys && forall b | b in works[0] :: Typical(works[0][b])
    ensures Progress(works[0], works[k], inc, set i | 0 <= i < k :: order[i])
    ensures AllHarmless(works[0], works[k], set i | 0 <= i < k :: order[i])
  {
    hide Closure, SubtractIncludes, Ranked, Harmless, Shipped;
    if k > 0 {
      PassProgress(inc, rank, order, works, k - 1);
      var done := set i | 0 <= i < k - 1 :: order[i];
      assert Turn(works[0], inc, order[k - 1], works[k - 1], works[k]);
      assert order[k - 1] !in done;
      TurnProgress(works[0], works[k - 1], works[k], inc, rank, done, order[k - 1]);
      assert (set i | 0 <= i < k :: order[i]) == done + {order[k - 1]};
    }
  }

  /** The order in which the bundles are processed does not matter: with no ghost that could cancel
      anything, each ends up shipping its original contents minus the original contents of all it includes. */
  lemma OrderDoesNotMatter(inc: Includes, rank: map<string, nat>, order1: seq<string>, works1: seq<Work>,
      order2: seq<string>, works2: seq<Work>, b: string)
    requires Ranked(inc, rank) && Distinct(order1) && Distinct(order2)
    requires |works1| > 0 && |works2| > 0 && works1[0] == works2[0]
    requires Pass(works1[0], inc, order1, works1) && Pass(works2[0], inc, order2, works2)
    requires works1[0].Keys == inc.Keys && forall c | c in works1[0] :: Typical(works1[0][c])
    requires b in order1 && b in order2
    ensures b in works1[|order1|] && b in works2[|order2|] && b in works1[0]
    ensures Shipped(works1[|order1|][b]) == Shipped(works2[|order2|][b]) == Shipped(SubtractIncludes(works1[0], inc, b))
  {
    PassProgress(inc, rank, order1, works1, |order1|);
    PassProgress(inc, rank, order2, works2, |order2|);
  }

  predicate ShipsAs(work: Work, b: string, n: string, isFile: bool) {
    b in work && n in work[b] && work[b][n].Live() && work[b][n].isFile == isFile
  }

  /** Nothing is lost: after the pass every file a bundle shipped is still shipped, with the same
      is_file bit, by the bundle itself or by one it includes. */
  lemma NothingIsLost(inc: Includes, rank: map<string, nat>, order: seq<string>, works: seq<Work>, b: string, n: string)
    requires Ranked(inc, rank) && Distinct(order) && |works| > 0 && Pass(works[0], inc, order, works)
    requires works[0].Keys == inc.Keys && forall c | c in works[0] :: Typical(works[0][c])
    requires b in works[0] && n in works[0][b]
    ensures exists c :: (c == b || c in Closure(inc, b)) && ShipsAs(works[|order|], c, n, works[0][b][n].isFile)
  {
    PassProgress(inc, rank, order, works, |order|);
    var done := set i | 0 <= i < |order| :: order[i];
    var c := Survivor(works[0], works[|order|], inc, rank, done, b, n);
    assert ShipsAs(works[|order|], c, n, works[0][b][n].isFile);
  }

  lemma PairClosure(inc: Includes, rank: map<string, nat>)
    requires inc == map["base" := [], "top" := ["base"]] && rank == map["base" := 0, "top" := 1]
    ensures Ranked(inc, rank) && Closure(inc, "base") == {} && Closure(inc, "top") == {"base"}
  {
    ReachesStep(inc, "top", "base", "base");
    forall b, d | d in Closure(inc, b)
      ensures b == "top" && d == "base"
    {
      ReachesDown(inc, rank, b, d);
    }
  }

  /** A file that is ghosted in an included bundle and shipped as a directory by the including one
      is dropped although nobody ships it. */
  lemma GhostCancelsDirectory() returns (raw: Work, work: Work, inc: Includes, rank: map<string, nat>)
    ensures Ranked(inc, rank) && Progress(raw, work, inc, {"base"}) && "top" in raw
    ensures SubtractIncludes(work, inc, "top") != SubtractIncludes(raw, inc, "top")
  {
    hide Closure, Ranked, Reaches;
    var dir := Entry(true, false, false, false, false, false, false, true, false, "h", 2);
    var ghosted := Entry(false, false, false, false, true, false, false, true, false, ZERO_HASH, 2);
    raw := map["base" := map[], "top" := map["/boot/efi" := dir]];
    work := raw["base" := map["/boot/efi" := ghosted]];
    inc := map["base" := [], "top" := ["base"]];
    rank := map["base" := 0, "top" := 1];
    PairClosure(inc, rank);
    assert Shipped(work["base"]) == map[] == Shipped(SubtractIncludes(raw, inc, "base"));
    assert !CancelledIn(raw, inc, "top", "/boot/efi");
    assert GhostCancels(raw, work, inc, "top") by {
      assert "base" in Closure(inc, "top") && "/boot/efi" in work["base"];
    }
    TurnIsExact(raw, work, inc, rank, {"base"}, "top");
  }

  // ----- one name at a time -----

  /** What a table says about one name. */
  function Only(m: Entries, n: string): Entries {
    map k | k in m && k == n :: m[k]
  }

  function OnlyIn(work: Work, n: string): (r: Work)
    ensures r.Keys == work.Keys
  {
    map b | b in work :: Only(work[b], n)
  }

  /** Subtraction treats each name for itself. */
  lemma OnlySubtract(work: Work, inc: Includes, b: string, n: string)
    requires b in work
    ensures SubtractIncludes(OnlyIn(work, n), inc, b) == Only(SubtractIncludes(work, inc, b), n)
  {
    hide Closure;
    if n in work[b] {
      assert CancelledIn(OnlyIn(work, n), inc, b, n) <==> CancelledIn(work, inc, b, n) by {
        if CancelledIn(work, inc, b, n) {
          var c :| c in Closure(inc, b) && c in work && n in work[c] && Cancels(work[b][n], work[c][n]);
          assert n in OnlyIn(work, n)[c];
        }
      }
    }
  }
}
