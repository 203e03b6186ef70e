/** Deleting links from a list of records while a cursor walks over it. */
module Lists {
  import opened Strings
  import opened Sorting
  import opened Files

  /** The list without the records whose names are gone. */
  function Keep(l: seq<File>, gone: set<string>): (r: seq<File>)
    ensures |r| <= |l|
  {
    if l == [] then [] else (if l[0].filename in gone then [] else [l[0]]) + Keep(l[1..], gone)
  }

  lemma {:induction false} KeepMembers(l: seq<File>, gone: set<string>)
    ensures forall i | 0 <= i < |Keep(l, gone)| :: Keep(l, gone)[i] in l && Keep(l, gone)[i].filename !in gone
    ensures forall i | 0 <= i < |l| && l[i].filename !in gone :: l[i] in Keep(l, gone)
  {
    if l != [] {
      KeepMembers(l[1..], gone);
      assert l == [l[0]] + l[1..];
    }
  }

  lemma {:induction false} KeepStep(l: seq<File>, k: nat, gone: set<string>)
    requires k < |l|
    ensures Keep(l[..k + 1], gone) == Keep(l[..k], gone) + if l[k].filename in gone then [] else [l[k]]
  {
    if k == 0 {
      assert l[..1] == [l[0]] && [l[0]][1..] == [];
    } else {
      KeepStep(l[1..], k - 1, gone);
      assert l[..k + 1][1..] == l[1..][..k] && l[..k][1..] == l[1..][..k - 1];
    }
  }

  lemma {:induction false} KeepEverything(l: seq<File>, gone: set<string>)
    requires forall i | 0 <= i < |l| :: l[i].filename !in gone
    ensures Keep(l, gone) == l
  {
    if l != [] {
      KeepEverything(l[1..], gone);
    }
  }

  lemma KeepCons(f: File, l: seq<File>, gone: set<string>)
    ensures Keep([f] + l, gone) == (if f.filename in gone then [] else [f]) + Keep(l, gone)
  {
    assert ([f] + l)[1..] == l;
  }

  lemma Associative<T>(a: seq<T>, b: seq<T>, c: seq<T>)
    ensures a + (b + c) == (a + b) + c && [] + c == c
  {
  }

  lemma {:induction false} KeepSplits(l: seq<File>, k: nat, gone: set<string>)
    requires k <= |l|
    ensures Keep(l, gone) == Keep(l[..k], gone) + Keep(l[k..], gone)
  {
    hide Keep;
    if k == 0 {
      assert l[..0] == [] && l[0..] == l;
      KeepEverything([], gone);
    } else {
      var a, b := l[1..][..k - 1], l[k..];
      assert l[1..][k - 1..] == b && l == [l[0]] + l[1..] && l[..k] == [l[0]] + a;
      KeepSplits(l[1..], k - 1, gone);
      KeepCons(l[0], l[1..], gone);
      KeepCons(l[0], a, gone);
      Associative(if l[0].filename in gone then [] else [l[0]], Keep(a, gone), Keep(b, gone));
    }
  }

  /** Where a kept record stood. */
  lemma {:induction false} KeepOrder(l: seq<File>, gone: set<string>, i: nat, j: nat) returns (x: nat, y: nat)
    requires i < j < |Keep(l, gone)|
    ensures x < y < |l| && l[x] == Keep(l, gone)[i] && l[y] == Keep(l, gone)[j]
    decreases |l|
  {
    if l[0].filename in gone {
      x, y := KeepOrder(l[1..], gone, i, j);
      x, y := x + 1, y + 1;
    } else if i > 0 {
      x, y := KeepOrder(l[1..], gone, i - 1, j - 1);
      x, y := x + 1, y + 1;
    } else {
      KeepMembers(l[1..], gone);
      var later := Keep(l[1..], gone);
      assert Keep(l, gone)[j] == later[j - 1];
      var z :| 0 <= z < |l[1..]| && l[1..][z] == later[j - 1];
      x, y := 0, z + 1;
    }
  }

  lemma KeepNames(l: seq<File>, gone: set<string>)
    ensures Distinct(Names(l)) ==> Distinct(Names(Keep(l, gone)))
    ensures Ascending(Names(l)) ==> Ascending(Names(Keep(l, gone)))
  {
    var r := Keep(l, gone);
    if Distinct(Names(l)) {
      forall i, j | 0 <= i < j < |r|
        ensures Names(r)[i] != Names(r)[j]
      {
        var x, y := KeepOrder(l, gone, i, j);
        assert Names(l)[x] != Names(l)[y];
      }
    }
    if Ascending(Names(l)) {
      forall i, j | 0 <= i < j < |r|
        ensures Less(Names(r)[i], Names(r)[j])
      {
        var x, y := KeepOrder(l, gone, i, j);
        assert Less(Names(l)[x], Names(l)[y]);
      }
    }
  }

  lemma {:induction false} KeepIndex(l: seq<File>, gone: set<string>)
    requires Distinct(Names(l))
    ensures Distinct(Names(Keep(l, gone))) && Index(Keep(l, gone)) == Index(l) - gone
  {
    KeepNames(l, gone);
    KeepMembers(l, gone);
    hide Distinct, Names, Index, Keep;
    var r := Keep(l, gone);
    forall n | n in Index(r)
      ensures n !in gone && n in Index(l) && Index(l)[n] == Index(r)[n]
    {
      assert Index(r)[n] in r;
      RecordOf(l, Index(r)[n]);
    }
    forall n | n in Index(l) && n !in gone
      ensures n in Index(r)
    {
      assert Index(l)[n] in l;
      RecordOf(r, Index(l)[n]);
    }
  }

  lemma KeepContents(l: seq<File>, gone: set<string>)
    requires Distinct(Names(l))
    ensures Distinct(Names(Keep(l, gone))) && Contents(Keep(l, gone)) == Contents(l) - gone
  {
    hide Distinct, Names, Index, Keep;
    KeepIndex(l, gone);
  }

  // ----- a walk that deletes -----

  /** The list under the cursor: what was kept, and what is still to come. */
  ghost predicate Pruned(files: seq<File>, at: nat, l: seq<File>, i: nat, gone: set<string>) {
    i <= |l| && files == Keep(l[..i], gone) + l[i..] && at == |Keep(l[..i], gone)|
  }

  lemma PrunedStart(l: seq<File>, gone: set<string>)
    ensures Pruned(l, 0, l, 0, gone)
  {
    assert l[..0] == [] && l[0..] == l;
  }

  lemma PrunedKeep(files: seq<File>, at: nat, l: seq<File>, i: nat, gone: set<string>)
    requires Pruned(files, at, l, i, gone) && i < |l| && l[i].filename !in gone
    ensures at < |files| && files[at] == l[i] && Pruned(files, at + 1, l, i + 1, gone)
  {
    KeepStep(l, i, gone);
    assert l[i..] == [l[i]] + l[i + 1..];
  }

  lemma PrunedDelete(files: seq<File>, at: nat, l: seq<File>, i: nat, gone: set<string>)
    requires Pruned(files, at, l, i, gone) && i < |l| && l[i].filename in gone
    ensures at < |files| && files[at] == l[i] && Pruned(files[..at] + files[at + 1..], at, l, i + 1, gone)
  {
    KeepStep(l, i, gone);
    assert l[i..] == [l[i]] + l[i + 1..];
    assert files[..at] == Keep(l[..i], gone);
    assert files[at + 1..] == l[i + 1..];
  }

  lemma PrunedUnder(files: seq<File>, at: nat, l: seq<File>, i: nat, gone: set<string>)
    requires Pruned(files, at, l, i, gone)
    ensures at <= |files| && (at < |files| <==> i < |l|) && (i < |l| ==> files[at] == l[i])
  {
  }

  /** Nothing of what is left is to go. */
  lemma PrunedEnd(files: seq<File>, at: nat, l: seq<File>, i: nat, gone: set<string>)
    requires Pruned(files, at, l, i, gone) && forall k | i <= k < |l| :: l[k].filename !in gone
    ensures files == Keep(l, gone)
  {
    KeepSplits(l, i, gone);
    KeepEverything(l[i..], gone);
  }
}
