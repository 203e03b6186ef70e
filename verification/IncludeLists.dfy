/** The includes of a bundle, from its includes file through the manifest header and back
    (`get_sub_manifest_includes`, the resolution loops of `main`, `changed_includes`). */
module IncludeLists {
  import opened Strings
  import opened Sorting

  const CORE: string := "os-core"

  function Keyed(names: seq<string>): (r: seq<(string, string)>)
    ensures |r| == |names| && forall i | 0 <= i < |names| :: r[i] == (names[i], names[i])
  {
    seq(|names|, i requires 0 <= i < |names| => (names[i], names[i]))
  }

  /** The lines of an includes file, sorted; duplicates stay. */
  function ReadIncludes(lines: seq<string>): seq<string> {
    Seconds(Sort(Keyed(lines), StringLe))
  }

  /** The resolution loop: each name is looked up and put in front unless it is there already. */
  function Resolve(names: seq<string>, found: seq<string>): seq<string> {
    if names == [] then found
    else Resolve(names[1..], if names[0] in found then found else [names[0]] + found)
  }

  /** Every bundle includes the core, whether its includes file says so or not. */
  function WithCore(includes: seq<string>): seq<string> {
    if CORE in includes then includes else [CORE] + includes
  }

  /** The include list of a new manifest, in the order in which it is written. */
  function NewIncludes(lines: seq<string>): seq<string> {
    WithCore(Resolve(ReadIncludes(lines), []))
  }

  function Reverse<T>(s: seq<T>): (r: seq<T>)
    ensures |r| == |s| && forall i | 0 <= i < |s| :: r[i] == s[|s| - 1 - i]
  {
    seq(|s|, i requires 0 <= i < |s| => s[|s| - 1 - i])
  }

  /** The include list of an old manifest whose header lists `written`: the parser prepends each line. */
  function OldIncludes(written: seq<string>): seq<string> {
    WithCore(Resolve(Reverse(written), []))
  }

  /** `changed_includes`: position by position. */
  function Changed(old_: seq<string>, new_: seq<string>): bool {
    |old_| != |new_| || exists i | 0 <= i < |old_| && i < |new_| :: old_[i] != new_[i]
  }

  // ----- the canonical order -----

  predicate Descending(names: seq<string>) {
    forall i, j | 0 <= i < j < |names| :: Less(names[j], names[i])
  }

  lemma SortedLines(lines: seq<string>)
    ensures var r := ReadIncludes(lines);
      (forall i, j | 0 <= i < j < |r| :: StringLe(r[i], r[j])) && (forall n :: n in r <==> n in lines)
  {
    var keyed := Keyed(lines);
    var sorted := Sort(keyed, StringLe);
    StringLeIsTotal();
    SortIsStable(keyed, StringLe);
    Permuted(sorted, keyed);
    SortSame(keyed, sorted);
  }

  lemma SortSame(keyed: seq<(string, string)>, sorted: seq<(string, string)>)
    requires |keyed| == |sorted| && forall i | 0 <= i < |sorted| :: sorted[i] in keyed
    requires forall i | 0 <= i < |keyed| :: keyed[i] in sorted && keyed[i].0 == keyed[i].1
    ensures forall i | 0 <= i < |sorted| :: sorted[i].0 == sorted[i].1
    ensures forall n :: n in Seconds(sorted) <==> n in Seconds(keyed)
  {
    forall i | 0 <= i < |sorted|
      ensures sorted[i].0 == sorted[i].1 && sorted[i].1 in Seconds(keyed)
    {
      var j :| 0 <= j < |keyed| && keyed[j] == sorted[i];
      assert Seconds(keyed)[j] == sorted[i].1;
    }
    forall j | 0 <= j < |keyed|
      ensures keyed[j].1 in Seconds(sorted)
    {
      var i :| 0 <= i < |sorted| && sorted[i] == keyed[j];
      assert Seconds(sorted)[i] == keyed[j].1;
    }
  }

  /** Resolving an ascending list in front of smaller names gives a strictly descending one. */
  lemma {:induction false} ResolveDescends(names: seq<string>, found: seq<string>)
    requires forall i, j | 0 <= i < j < |names| :: StringLe(names[i], names[j])
    requires Descending(found) && forall i, j | 0 <= i < |names| && 0 <= j < |found| :: StringLe(found[j], names[i])
    ensures Descending(Resolve(names, found))
    ensures forall n :: n in Resolve(names, found) <==> n in names || n in found
  {
    if names != [] {
      var found' := if names[0] in found then found else [names[0]] + found;
      assert forall n :: n in names <==> n == names[0] || n in names[1..];
      if names[0] !in found {
        assert forall n :: n in found' <==> n == names[0] || n in found;
      }
      ResolveDescends(names[1..], found');
    }
  }

  /** A strictly descending list is determined by its members. */
  lemma {:induction false} DescendingUnique(a: seq<string>, b: seq<string>)
    requires Descending(a) && Descending(b) && forall n :: n in a <==> n in b
    ensures a == b
  {
    assert (|a| > 0 ==> a[0] in b) && (|b| > 0 ==> b[0] in a);
    if a != [] && b != [] {
      if a[0] != b[0] {
        var i :| 0 <= i < |b| && b[i] == a[0];
        var j :| 0 <= j < |a| && a[j] == b[0];
        Antisymmetric(a[0], b[0]);
        assert false;
      }
      forall n
        ensures n in a[1..] <==> n in b[1..]
      {
        assert forall i | 0 < i < |a| :: a[i] != a[0];
        assert forall i | 0 < i < |b| :: b[i] != b[0];
        assert n in a <==> n == a[0] || n in a[1..];
        assert n in b <==> n == b[0] || n in b[1..];
      }
      DescendingUnique(a[1..], b[1..]);
    }
  }

  lemma Canonical(lines: seq<string>)
    ensures var r := Resolve(ReadIncludes(lines), []);
      Descending(r) && Distinct(r) && forall n :: n in r <==> n in lines
  {
    SortedLines(lines);
    ResolveDescends(ReadIncludes(lines), []);
  }

  lemma NewIncludesMembers(lines: seq<string>)
    ensures Distinct(NewIncludes(lines))
    ensures forall n :: n in NewIncludes(lines) <==> n == CORE || n in lines
  {
    Canonical(lines);
    var r := Resolve(ReadIncludes(lines), []);
    assert forall n :: n in [CORE] + r <==> n == CORE || n in r;
  }

  // ----- through the header and back -----

  lemma {:induction false} ResolveDistinct(names: seq<string>, found: seq<string>)
    requires Distinct(names) && forall n | n in names :: n !in found
    ensures Resolve(names, found) == Reverse(names) + found
  {
    hide Distinct;
    if names != [] {
      var rest := names[1..];
      RestIsApart(names, found);
      ResolveDistinct(rest, [names[0]] + found);
      ReverseStep(names);
      assert Reverse(rest) + ([names[0]] + found) == (Reverse(rest) + [names[0]]) + found;
    }
  }

  lemma RestIsApart(names: seq<string>, found: seq<string>)
    requires names != [] && Distinct(names) && forall n | n in names :: n !in found
    ensures Distinct(names[1..]) && forall n | n in names[1..] :: n !in [names[0]] + found
  {
    var rest := names[1..];
    forall n | n in rest
      ensures n !in [names[0]] + found
    {
      var i :| 0 <= i < |rest| && rest[i] == n;
      assert names[i + 1] != names[0];
      assert names[i + 1] in names;
    }
  }

  lemma ReverseStep(names: seq<string>)
    requires names != []
    ensures Reverse(names) == Reverse(names[1..]) + [names[0]]
  {
  }

  /** Writing the includes into a header, parsing them in reverse and resolving them again restores the list. */
  lemma HeaderRoundTrip(lines: seq<string>)
    ensures OldIncludes(NewIncludes(lines)) == NewIncludes(lines)
  {
    var w := NewIncludes(lines);
    NewIncludesMembers(lines);
    assert Distinct(Reverse(w));
    ResolveDistinct(Reverse(w), []);
    assert Reverse(Reverse(w)) == w;
  }

  lemma SameList(a: seq<string>, b: seq<string>)
    ensures Changed(a, b) <==> a != b
  {
  }

  predicate SameMembers(a: seq<string>, b: seq<string>) {
    (forall i | 0 <= i < |a| :: a[i] in b) && (forall i | 0 <= i < |b| :: b[i] in a)
  }

  /** Naming os-core explicitly moves it, except when it sorts after everything else. */
  predicate SameButForCore(a: seq<string>, b: seq<string>) {
    && SameMembers([CORE] + a, [CORE] + b)
    && forall i | 0 <= i < |a| :: a[i] == CORE || Less(a[i], CORE)
  }

  lemma ExplicitCore(withCore: seq<string>, without: seq<string>)
    requires CORE in withCore && CORE !in without
    ensures NewIncludes(withCore) == NewIncludes(without) <==> SameButForCore(withCore, without)
  {
    Canonical(withCore);
    Canonical(without);
    var a, b := Resolve(ReadIncludes(withCore), []), Resolve(ReadIncludes(without), []);
    assert NewIncludes(withCore) == a && NewIncludes(without) == [CORE] + b;
    if a == [CORE] + b {
      forall i | 0 <= i < |withCore|
        ensures withCore[i] in [CORE] + without && (withCore[i] == CORE || Less(withCore[i], CORE))
      {
        assert withCore[i] in a;
        var k :| 0 <= k < |a| && a[k] == withCore[i];
        if k > 0 {
          assert Less(a[k], a[0]) && b[k - 1] in b;
        }
      }
      forall i | 0 <= i < |without|
        ensures without[i] in withCore
      {
        assert without[i] in b;
      }
    }
    if SameButForCore(withCore, without) {
      forall n
        ensures n in a <==> n in [CORE] + b
      {
        CoreMembers(withCore, without, n);
      }
      forall i | 0 <= i < |b|
        ensures Less(b[i], CORE)
      {
        assert b[i] in b && b[i] in a;
        var k :| 0 <= k < |withCore| && withCore[k] == b[i];
      }
      DescendingUnique(a, [CORE] + b);
    }
  }

  /** An includes file that names the core and one bundle that sorts after it gives another list than one that
      names the bundle only. */
  lemma ExplicitCoreMoves()
    ensures NewIncludes(["os-core", "p"]) == ["p", "os-core"] && NewIncludes(["p"]) == ["os-core", "p"]
  {
    var core: string := "os-core";
    assert core[0] == 'o' && "p" != core && Strcmp(core, "p") < 0 && Strcmp("p", core) > 0;
    ReadsOne("p");
    ReadsTwo(core, "p");
    hide ReadIncludes;
    var p: string := "p";
    assert [core, p][1..] == [p] && [p][1..] == [] && [core] + [] == [core] && [p] + [] == [p];
    assert Resolve([core, p], []) == Resolve([p], [core]) == Resolve([], [p] + [core]) == [p, core];
    assert Resolve([p], []) == Resolve([], [p] + []) == [p];
    assert core in [p, core] && core !in [p] && CORE == core;
  }

  lemma ReadsOne(a: string)
    ensures ReadIncludes([a]) == [a]
  {
    var k := Keyed([a]);
    assert k == [(a, a)] && k[1..] == [];
    assert Sort(k, StringLe) == [(a, a)];
  }

  lemma ReadsTwo(a: string, b: string)
    requires Strcmp(a, b) < 0
    ensures ReadIncludes([a, b]) == [a, b]
  {
    var k := Keyed([a, b]);
    assert k == [(a, a), (b, b)] && k[1..] == [(b, b)] && k[1..][1..] == [];
    assert Sort([(b, b)], StringLe) == [(b, b)];
    assert Sort(k, StringLe) == [(a, a), (b, b)];
  }

  lemma CoreMembers(withCore: seq<string>, without: seq<string>, n: string)
    requires CORE in withCore && CORE !in without && SameMembers([CORE] + withCore, [CORE] + without)
    ensures n in withCore <==> n == CORE || n in without
  {
    if n in withCore {
      var i :| 0 <= i < |withCore| && withCore[i] == n;
      assert ([CORE] + withCore)[i + 1] in [CORE] + without;
    }
    if n in without {
      var i :| 0 <= i < |without| && without[i] == n;
      assert ([CORE] + without)[i + 1] in [CORE] + withCore;
    }
  }

  /** The positional comparison decides: a bundle whose includes file held `old_` when it was
      published counts as changed, with an includes file holding `new_`, exactly when the two files
      name different sets of bundles; only the explicit mention of os-core, which is always
      included, can make a difference of its own. */
  lemma ChangedIsDecisive(old_: seq<string>, new_: seq<string>)
    ensures !Changed(OldIncludes(NewIncludes(old_)), NewIncludes(new_)) <==>
      if CORE in old_ && CORE !in new_ then SameButForCore(old_, new_)
      else if CORE !in old_ && CORE in new_ then SameButForCore(new_, old_)
      else SameMembers(old_, new_)
    ensures !Changed(OldIncludes(NewIncludes(old_)), NewIncludes(new_)) ==>
      forall n :: n in NewIncludes(old_) <==> n in NewIncludes(new_)
  {
    HeaderRoundTrip(old_);
    SameList(NewIncludes(old_), NewIncludes(new_));
    if CORE in old_ && CORE !in new_ {
      ExplicitCore(old_, new_);
    } else if CORE !in old_ && CORE in new_ {
      ExplicitCore(new_, old_);
    } else {
      SameCore(old_, new_);
    }
  }

  lemma SameCore(old_: seq<string>, new_: seq<string>)
    requires CORE in old_ <==> CORE in new_
    ensures NewIncludes(old_) == NewIncludes(new_) <==> SameMembers(old_, new_)
  {
    Canonical(old_);
    Canonical(new_);
    var a, b := Resolve(ReadIncludes(old_), []), Resolve(ReadIncludes(new_), []);
    assert NewIncludes(old_) == NewIncludes(new_) <==> a == b by {
      assert ([CORE] + a)[1..] == a && ([CORE] + b)[1..] == b;
    }
    if a == b {
      forall i | 0 <= i < |old_|
        ensures old_[i] in new_
      {
        assert old_[i] in a;
      }
      forall i | 0 <= i < |new_|
        ensures new_[i] in old_
      {
        assert new_[i] in b;
      }
    }
    if SameMembers(old_, new_) {
      DescendingUnique(a, b);
    }
  }
}
