/** `get_unique_includes` and `subtract_manifests_frontend` (src/manifest.c) on the manifests themselves. */
module Including {
  import opened Sorting
  import opened Files
  import opened Subtraction
  import opened Subtracting

  function Components(ms: seq<Manifest>): (r: seq<string>)
    ensures |r| == |ms| && forall i | 0 <= i < |ms| :: r[i] == ms[i].component
  {
    seq(|ms|, i requires 0 <= i < |ms| => ms[i].component)
  }

  /** All manifests that include one another, by component. */
  ghost predicate Known(known: map<string, Manifest>)
    reads known.Values`includes
  {
    forall c | c in known ::
      && known[c].component == c
      && forall i | 0 <= i < |known[c].includes| :: IsKnown(known, known[c].includes[i])
  }

  predicate IsKnown(known: map<string, Manifest>, m: Manifest) {
    m.component in known && known[m.component] == m
  }

  ghost function IncludeMap(known: map<string, Manifest>): (r: Includes)
    reads known.Values`includes
    ensures r.Keys == known.Keys
  {
    map c | c in known :: Components(known[c].includes)
  }

  function RankOf(rank: map<string, nat>, c: string): nat {
    if c in rank then rank[c] else 0
  }

  /** What one include adds: itself and all it includes. */
  ghost function Reached(inc: Includes, c: string): set<string> {
    {c} + Closure(inc, c)
  }

  ghost function ReachedBy(inc: Includes, cs: seq<string>): set<string> {
    if cs == [] then {} else ReachedBy(inc, cs[..|cs| - 1]) + Reached(inc, cs[|cs| - 1])
  }

  lemma {:induction false} ReachedByHas(inc: Includes, cs: seq<string>, d: string)
    ensures d in ReachedBy(inc, cs) <==> exists i | 0 <= i < |cs| :: d in Reached(inc, cs[i])
  {
    hide Reached;
    if cs != [] {
      ReachedByHas(inc, cs[..|cs| - 1], d);
    }
  }

  /** A bundle includes what its includes reach. */
  lemma ClosureIs(inc: Includes, rank: map<string, nat>, b: string)
    requires b in inc && Ranked(inc, rank)
    ensures ReachedBy(inc, inc[b]) == Closure(inc, b)
  {
    hide Reaches, Ranked, ReachedBy;
    forall d
      ensures d in ReachedBy(inc, inc[b]) <==> d in Closure(inc, b)
    {
      ReachedByHas(inc, inc[b], d);
      if i :| 0 <= i < |inc[b]| && d in Reached(inc, inc[b][i]) {
        assert inc[b][i] in inc[b];
        ReachesStep(inc, b, inc[b][i], d);
        ReachesDown(inc, rank, b, d);
      }
      if d in Closure(inc, b) {
        var c := FirstStep(inc, b, d);
        var i :| 0 <= i < |inc[b]| && inc[b][i] == c;
        if c != d {
          assert d in Closure(inc, c);
        }
        assert d in Reached(inc, inc[b][i]);
      }
    }
  }

  /** The hash table holds the known manifests of these names. */
  predicate TableOf(table: map<string, Manifest>, known: map<string, Manifest>, names: set<string>) {
    table.Keys == names && forall c | c in table :: c in known && table[c] == known[c]
  }

  lemma Smaller(known: map<string, Manifest>, rank: map<string, nat>, m: Manifest, k: nat)
    requires Known(known) && Ranked(IncludeMap(known), rank) && IsKnown(known, m) && k < |m.includes|
    ensures RankOf(rank, m.includes[k].component) < RankOf(rank, m.component)
    ensures IsKnown(known, m.includes[k])
  {
    var inc := IncludeMap(known);
    assert inc[m.component][k] == m.includes[k].component;
    assert m.includes[k].component in inc[m.component];
  }

  /** `get_unique_includes`: all bundles included directly or through others, each once, in the order the
      hash table yields them. */
  method GetUniqueIncludes(manifest: Manifest, ghost known: map<string, Manifest>,
      ghost rank: map<string, nat>) returns (includes: seq<Manifest>)
    requires Known(known) && Ranked(IncludeMap(known), rank) && IsKnown(known, manifest)
    ensures forall i | 0 <= i < |includes| :: IsKnown(known, includes[i])
    ensures forall c :: c in Components(includes) <==> c in Closure(IncludeMap(known), manifest.component)
    ensures Distinct(Components(includes))
    decreases RankOf(rank, manifest.component)
  {
    hide Known, Ranked, Closure, RankOf, ReachedBy, TableOf, IncludeMap, Components;
    ghost var inc := IncludeMap(known);
    var l1 := manifest.includes;
    var table: map<string, Manifest> := map[];
    ghost var names: set<string> := {};
    NothingReached(inc, known);
    assert l1[..0] == [];
    for k := 0 to |l1|
      invariant TableOf(table, known, names)
      invariant names == ReachedBy(inc, Components(l1[..k]))
    {
      var m := l1[k];
      Smaller(known, rank, manifest, k);
      var l2 := GetUniqueIncludes(m, known, rank);
      ReachedStep(inc, l1, k);
      Added(table, known, names, m);
      table := AddAll(table[m.component := m], l2, known, names + {m.component}, Closure(inc, m.component));
      names := names + {m.component} + Closure(inc, m.component);
    }
    assert l1[..|l1|] == l1;
    assert inc[manifest.component] == Components(l1) by { MapOf(known, manifest); }
    ClosureIs(inc, rank, manifest.component);
    KnownNames(known, table, names);
    includes := Listing(table, known);
  }

  lemma NothingReached(inc: Includes, known: map<string, Manifest>)
    ensures ReachedBy(inc, Components([])) == {} && TableOf(map[], known, {})
  {
  }

  lemma ReachedStep(inc: Includes, l: seq<Manifest>, k: nat)
    requires k < |l|
    ensures ReachedBy(inc, Components(l[..k + 1])) ==
      ReachedBy(inc, Components(l[..k])) + {l[k].component} + Closure(inc, l[k].component)
  {
    hide Closure;
    assert Components(l[..k + 1])[..k] == Components(l[..k]);
    assert Components(l[..k + 1])[k] == l[k].component;
  }

  lemma Added(table: map<string, Manifest>, known: map<string, Manifest>, names: set<string>, m: Manifest)
    requires TableOf(table, known, names) && IsKnown(known, m)
    ensures TableOf(table[m.component := m], known, names + {m.component})
  {
  }

  lemma KnownNames(known: map<string, Manifest>, table: map<string, Manifest>, names: set<string>)
    requires Known(known) && TableOf(table, known, names)
    ensures TableOf(table, known, table.Keys) && table.Keys == names
    ensures forall c | c in known :: known[c].component == c
  {
  }

  lemma MapOf(known: map<string, Manifest>, m: Manifest)
    requires IsKnown(known, m)
    ensures IncludeMap(known)[m.component] == Components(m.includes)
  {
  }

  method AddAll(table: map<string, Manifest>, l2: seq<Manifest>, ghost known: map<string, Manifest>,
      ghost names: set<string>, ghost more: set<string>)
    returns (r: map<string, Manifest>)
    requires TableOf(table, known, names) && (forall i | 0 <= i < |l2| :: IsKnown(known, l2[i]))
    requires forall c :: c in Components(l2) <==> c in more
    ensures TableOf(r, known, names + more)
  {
    r := table;
    for k := 0 to |l2|
      invariant forall c :: c in r <==> c in names || c in Components(l2)[..k]
      invariant forall c | c in r :: c in known && r[c] == known[c]
    {
      assert Components(l2)[..k + 1] == Components(l2)[..k] + [l2[k].component];
      r := r[l2[k].component := l2[k]];
    }
    assert Components(l2)[..|l2|] == Components(l2);
  }

  lemma NoneTwice()
    ensures Distinct(Components([]))
  {
  }

  lemma OnceMore(c: string, names: seq<string>)
    requires Distinct(names) && c !in names
    ensures Distinct([c] + names)
  {
  }

  /** The hash table's contents, in the order in which its iterator yields them. */
  method Listing(table: map<string, Manifest>, ghost known: map<string, Manifest>) returns (r: seq<Manifest>)
    requires TableOf(table, known, table.Keys) && forall c | c in known :: known[c].component == c
    ensures forall i | 0 <= i < |r| :: IsKnown(known, r[i])
    ensures forall c :: c in Components(r) <==> c in table
    ensures Distinct(Components(r))
  {
    hide Distinct;
    NoneTwice();
    r := [];
    var left := table;
    while left != map[]
      invariant left.Keys <= table.Keys && forall c | c in left :: left[c] == table[c]
      invariant forall i | 0 <= i < |r| :: IsKnown(known, r[i])
      invariant forall c :: c in table <==> c in left || c in Components(r)
      invariant Distinct(Components(r)) && forall c | c in left :: c !in Components(r)
      decreases |left|
    {
      var k :| k in left;
      assert Components([left[k]] + r) == [k] + Components(r);
      OnceMore(k, Components(r));
      r := [left[k]] + r;
      left := left - {k};
    }
  }

  // ----- subtract_manifests_frontend -----

  ghost predicate Holds(m: Manifest, table: Entries)
    reads m`files, m`count, m.files`entry
  {
    m.Valid() && Contents(m.files) == table
  }

  ghost function AllRecords(known: map<string, Manifest>): (r: set<File>)
    reads known.Values`files
    ensures forall c, f | c in known && f in known[c].files :: f in r
  {
    set c, f | c in known && f in known[c].files :: f
  }

  /** The tables of all manifests but the one that is being subtracted from. */
  ghost predicate Others(known: map<string, Manifest>, work: Work, b: string)
    reads known.Values`files, known.Values`count, AllRecords(known)`entry
  {
    forall c | c in known && c != b :: c in work && Holds(known[c], work[c])
  }

  function TablesOf(work: Work, cs: seq<string>): (r: seq<Entries>)
    requires forall i | 0 <= i < |cs| :: cs[i] in work
    ensures |r| == |cs| && forall i | 0 <= i < |cs| :: r[i] == work[cs[i]]
  {
    seq(|cs|, i requires 0 <= i < |cs| => work[cs[i]])
  }

  /** One included manifest is subtracted; the other tables stay as they are. */
  method SubtractOne(m1: Manifest, m: Manifest, ghost known: map<string, Manifest>, ghost work: Work,
      ghost table: Entries)
    requires IsKnown(known, m1) && IsKnown(known, m) && m != m1 && known.Keys == work.Keys
    requires forall c | c in known :: known[c].component == c
    requires Others(known, work, m1.component) && Holds(m1, table)
    modifies m1`files, m1`count, m`files
    ensures Others(known, work, m1.component) && Holds(m1, Subtract(table, work[m.component]))
    ensures Index(m1.files).Values <= old(Index(m1.files)).Values
  {
    hide Distinct, Names, Contents, Index, Subtract;
    assert m.component != m1.component && Holds(m, work[m.component]);
    SubtractManifests(m1, m);
    forall c | c in known && c != m1.component
      ensures Holds(known[c], work[c])
    {
      if c != m.component {
        assert known[c] != m && known[c] != m1;
        assert old(Holds(known[c], work[c]));
      }
    }
  }

  lemma NotItself(inc: Includes, rank: map<string, nat>, b: string, c: string)
    requires Ranked(inc, rank) && c in Closure(inc, b)
    ensures c != b
  {
    hide Ranked, Reaches;
    ReachesDown(inc, rank, b, c);
  }

  lemma EachStep(table: Entries, work: Work, cs: seq<string>, k: nat)
    requires k < |cs| && forall i | 0 <= i < |cs| :: cs[i] in work
    ensures SubtractEach(table, TablesOf(work, cs[k..])) ==
      SubtractEach(Subtract(table, work[cs[k]]), TablesOf(work, cs[k + 1..]))
  {
    hide Subtract;
    assert TablesOf(work, cs[k..])[0] == work[cs[k]];
    assert TablesOf(work, cs[k..])[1..] == TablesOf(work, cs[k + 1..]);
  }

  lemma EachIs(work: Work, inc: Includes, b: string, cs: seq<string>)
    requires b in work && inc.Keys == work.Keys && (forall c :: c in cs <==> c in Closure(inc, b))
    ensures (forall i | 0 <= i < |cs| :: cs[i] in work)
    ensures SubtractEach(work[b], TablesOf(work, cs)) == SubtractIncludes(work, inc, b)
  {
    hide SubtractIncludes, SubtractEach, Reaches;
    forall i | 0 <= i < |cs|
      ensures cs[i] in work
    {
      assert cs[i] in cs;
      assert cs[i] in Closure(inc, b);
    }
    AnyIterationOrder(work, inc, b, cs);
    assert TablesOf(work, cs) == seq(|cs|, i requires 0 <= i < |cs| => work[cs[i]]);
  }

  /** `subtract_manifests_frontend(m, m)`: the manifest loses what the bundles it includes list, whatever the
      order in which the hash table yields them; no other table changes. */
  method SubtractManifestsFrontend(m: Manifest, ghost known: map<string, Manifest>, ghost rank: map<string, nat>,
      ghost work: Work)
    requires Known(known) && Ranked(IncludeMap(known), rank) && IsKnown(known, m) && known.Keys == work.Keys
    requires Others(known, work, m.component) && Holds(m, work[m.component])
    modifies known.Values`files, m`count
    ensures Others(known, work, m.component)
    ensures Holds(m, SubtractIncludes(work, IncludeMap(known), m.component))
    ensures Index(m.files).Values <= old(Index(m.files)).Values
  {
    hide Known, Ranked, Closure, Others, SubtractIncludes, SubtractEach, Contents, Index, Distinct, Names, Subtract,
      IncludeMap;
    ghost var inc := IncludeMap(known);
    OwnNames(known);
    SubtractItself(m, known, work);
    ghost var records := AllRecords(known);
    assert forall f | f in records :: allocated(f);
    var includes := GetUniqueIncludes(m, known, rank);
    assert AllRecords(known) == records;
    ghost var cs := Components(includes);
    EachIs(work, inc, m.component, cs);
    ghost var table := work[m.component];
    assert cs[0..] == cs;
    for k := 0 to |includes|
      invariant Others(known, work, m.component) && Holds(m, table)
      invariant SubtractEach(table, TablesOf(work, cs[k..])) == SubtractIncludes(work, inc, m.component)
      invariant Index(m.files).Values <= old(Index(m.files)).Values
    {
      hide TablesOf, Holds;
      assert cs[k] in cs;
      NotItself(inc, rank, m.component, cs[k]);
      EachStep(table, work, cs, k);
      SubtractOne(m, includes[k], known, work, table);
      table := Subtract(table, work[cs[k]]);
    }
    NothingMore(table, work, cs);
  }

  lemma NothingMore(table: Entries, work: Work, cs: seq<string>)
    requires forall i | 0 <= i < |cs| :: cs[i] in work
    ensures SubtractEach(table, TablesOf(work, cs[|cs|..])) == table
  {
  }

  lemma OwnNames(known: map<string, Manifest>)
    requires Known(known)
    ensures forall c | c in known :: known[c].component == c
  {
  }

  method SubtractItself(m: Manifest, ghost known: map<string, Manifest>, ghost work: Work)
    requires IsKnown(known, m) && known.Keys == work.Keys && forall c | c in known :: known[c].component == c
    requires Others(known, work, m.component) && Holds(m, work[m.component])
    modifies m`files, m`count
    ensures Others(known, work, m.component) && Holds(m, work[m.component])
    ensures Index(m.files).Values <= old(Index(m.files)).Values
  {
    hide Distinct, Names, Contents, Index;
    SubtractManifests(m, m);
    forall c | c in known && c != m.component
      ensures Holds(known[c], work[c])
    {
      assert known[c] != m;
      assert old(Holds(known[c], work[c]));
    }
  }
}
