/** `consolidate_submanifests` (src/manifest.c): one list out of the lists of all bundles, with at most
    one record for a name. */
module Consolidation {
  import opened Strings
  import opened Sorting
  import opened Files

  predicate Plain(e: Entry) {
    e.isDeleted && !e.isRename
  }

  predicate RenamedFrom(e: Entry) {
    e.isDeleted && e.isRename
  }

  // ----- the decision between two records of one name -----

  datatype Choice = First | Second | Neither

  /** The cases in the order in which the loop tries them. */
  function Choose(a: Entry, b: Entry): Choice {
    if Plain(b) then First
    else if Plain(a) then Second
    else if RenamedFrom(b) then First
    else if RenamedFrom(a) then Second
    else if a.hash == b.hash then First
    else Neither
  }

  function Meet(cur: Option<Line>, line: Line): Option<Line> {
    if cur.None? then Some(line) else
      match Choose(cur.value.1, line.1)
      case First => cur
      case Second => Some(line)
      case Neither => None
  }

  /** What is left of several records of one name, taken one after the other. */
  function Fold(cur: Option<Line>, group: seq<Line>): Option<Line>
    decreases |group|
  {
    if group == [] then cur else Fold(Meet(cur, group[0]), group[1..])
  }

  function Winner(group: seq<Line>): Option<Line> {
    Fold(None, group)
  }

  // ----- the whole list -----

  /** What the walk keeps of `rest`, when `cur` is the record it stands on. */
  function Walked(cur: Option<Line>, rest: seq<Line>): seq<Line>
    decreases |rest|
  {
    if rest == [] then (if cur.Some? then [cur.value] else [])
    else if cur.Some? && cur.value.0 != rest[0].0 then [cur.value] + Walked(Some(rest[0]), rest[1..])
    else Walked(Meet(cur, rest[0]), rest[1..])
  }

  predicate LineLe(a: Line, b: Line) {
    FilenameLe((a.0, a.1.isDeleted), (b.0, b.1.isDeleted))
  }

  predicate LinesSorted(lines: seq<Line>) {
    forall i, j | 0 <= i < j < |lines| :: LineLe(lines[i], lines[j])
  }

  /** The records of one name. */
  function Group(lines: seq<Line>, name: string): (r: seq<Line>)
    ensures forall i | 0 <= i < |r| :: r[i].0 == name && r[i] in lines
  {
    if lines == [] then [] else (if lines[0].0 == name then [lines[0]] else []) + Group(lines[1..], name)
  }

  lemma {:induction false} NoGroup(lines: seq<Line>, name: string)
    requires forall i | 0 <= i < |lines| :: lines[i].0 != name
    ensures Group(lines, name) == []
  {
    if lines != [] {
      NoGroup(lines[1..], name);
    }
  }

  function With(cur: Option<Line>, rest: seq<Line>): seq<Line> {
    AsList(cur) + rest
  }

  function Of(cur: Option<Line>, name: string): Option<Line> {
    if cur.Some? && cur.value.0 == name then cur else None
  }

  lemma {:induction false} FoldOne(cur: Option<Line>, rest: seq<Line>, name: string)
    requires rest != [] && (cur.Some? ==> cur.value.0 == rest[0].0)
    ensures Fold(Of(cur, name), Group(rest, name)) == Fold(Of(Meet(cur, rest[0]), name), Group(rest[1..], name))
  {
    hide Choose;
    var g := Group(rest[1..], name);
    assert [] + g == g;
    assert ([rest[0]] + g)[1..] == g;
  }

  lemma {:induction false} WalkedGroup(cur: Option<Line>, rest: seq<Line>, name: string)
    requires LinesSorted(With(cur, rest))
    ensures Group(Walked(cur, rest), name) == AsList(Fold(Of(cur, name), Group(rest, name)))
    decreases |rest|
  {
    hide LinesSorted, Meet;
    if rest == [] {
      assert Group(rest, name) == [];
    } else if cur.Some? && cur.value.0 != rest[0].0 {
      NextName(cur.value, rest);
      assert With(Some(rest[0]), rest[1..]) == rest;
      WalkedGroup(Some(rest[0]), rest[1..], name);
      FoldOne(None, rest, name);
      assert Meet(None, rest[0]) == Some(rest[0]) by { MeetNone(rest[0]); }
      var w := Walked(Some(rest[0]), rest[1..]);
      assert ([cur.value] + w)[1..] == w;
      if name == cur.value.0 {
        NoGroup(rest, name);
      }
      assert [] + Group(w, name) == Group(w, name);
    } else {
      MeetSorted(cur, rest);
      FoldOne(cur, rest, name);
      WalkedGroup(Meet(cur, rest[0]), rest[1..], name);
    }
  }

  lemma MeetNone(line: Line)
    ensures Meet(None, line) == Some(line)
  {
  }

  lemma NextName(line: Line, rest: seq<Line>)
    requires LinesSorted([line] + rest) && rest != [] && line.0 != rest[0].0
    ensures LinesSorted(rest) && forall i | 0 <= i < |rest| :: rest[i].0 != line.0
  {
    var all := [line] + rest;
    forall i, j | 0 <= i < j < |rest|
      ensures LineLe(rest[i], rest[j])
    {
      assert LineLe(all[i + 1], all[j + 1]);
    }
    assert LineLe(all[0], all[1]);
    forall i | 0 <= i < |rest|
      ensures rest[i].0 != line.0
    {
      if i > 0 && rest[i].0 == line.0 {
        assert LineLe(all[1], all[i + 1]);
        Antisymmetric(line.0, rest[0].0);
        assert false;
      }
    }
  }

  lemma MeetSorted(cur: Option<Line>, rest: seq<Line>)
    requires LinesSorted(With(cur, rest)) && rest != [] && (cur.Some? ==> cur.value.0 == rest[0].0)
    ensures LinesSorted(With(Meet(cur, rest[0]), rest[1..]))
    ensures Meet(cur, rest[0]).Some? ==> Meet(cur, rest[0]).value.0 == rest[0].0
  {
    hide LineLe, Choose;
    var all, next := With(cur, rest), With(Meet(cur, rest[0]), rest[1..]);
    var k := |all| - |rest|;
    forall i, j | 0 <= i < j < |next|
      ensures LineLe(next[i], next[j])
    {
      var d := |all| - |next|;
      assert next[j] == all[j + d];
      if i > 0 || Meet(cur, rest[0]).None? {
        assert next[i] == all[i + d];
      } else {
        assert next[0] == all[0] || next[0] == all[k];
        assert LineLe(all[0], all[j + d]) && (j + d > k ==> LineLe(all[k], all[j + d]));
      }
    }
  }

  /** The walk decides about each name for itself, and leaves at most one record of it. */
  lemma ConsolidatedGroup(lines: seq<Line>, name: string)
    requires LinesSorted(lines)
    ensures Group(Walked(None, lines), name) == AsList(Winner(Group(lines, name)))
    ensures |Group(Walked(None, lines), name)| <= 1
  {
    assert With(None, lines) == lines;
    WalkedGroup(None, lines, name);
  }

  // ----- the decision for a whole group -----

  /** No two live records of the group disagree on the hash. */
  predicate Agree(group: seq<Line>) {
    forall i, j | 0 <= i < j < |group| && !group[i].1.isDeleted && !group[j].1.isDeleted ::
      group[i].1.hash == group[j].1.hash
  }

  /** `file_sort_filename` puts the live records of a name first. */
  predicate LiveFirst(group: seq<Line>) {
    forall i, j | 0 <= i < j < |group| && group[i].1.isDeleted :: group[j].1.isDeleted
  }

  lemma {:induction false} GroupLiveFirst(lines: seq<Line>, name: string)
    requires LinesSorted(lines)
    ensures LiveFirst(Group(lines, name))
  {
    if lines != [] {
      GroupLiveFirst(lines[1..], name);
      var g := Group(lines, name);
      if lines[0].0 == name && lines[0].1.isDeleted {
        forall j | 0 < j < |g|
          ensures g[j].1.isDeleted
        {
          assert g[j] in lines[1..];
          var i :| 0 <= i < |lines[1..]| && lines[1..][i] == g[j];
          assert LineLe(lines[0], lines[i + 1]);
          assert Strcmp(name, name) == 0;
        }
      }
    }
  }

  /** A live record stays against tombstones and live records of its hash. */
  lemma {:induction false} LiveStays(cur: Line, group: seq<Line>)
    requires !cur.1.isDeleted && forall i | 0 <= i < |group| :: group[i].1.isDeleted || group[i].1.hash == cur.1.hash
    ensures Fold(Some(cur), group) == Some(cur)
  {
    if group != [] {
      LiveStays(cur, group[1..]);
    }
  }

  lemma {:induction false} RenamedStays(cur: Line, group: seq<Line>)
    requires RenamedFrom(cur.1) && forall i | 0 <= i < |group| :: group[i].1.isDeleted
    ensures Fold(Some(cur), group) == Some(cur)
  {
    if group != [] {
      RenamedStays(cur, group[1..]);
    }
  }

  lemma {:induction false} PlainYields(cur: Line, group: seq<Line>)
    requires Plain(cur.1) && forall i | 0 <= i < |group| :: group[i].1.isDeleted
    ensures Fold(Some(cur), group).Some?
    ensures var w := Fold(Some(cur), group).value;
      (exists i | 0 <= i < |group| :: RenamedFrom(group[i].1)) ==> RenamedFrom(w.1) && w in group
    ensures (forall i | 0 <= i < |group| :: !RenamedFrom(group[i].1)) ==> Fold(Some(cur), group) == Some(cur)
  {
    if group != [] {
      if RenamedFrom(group[0].1) {
        RenamedStays(group[0], group[1..]);
      } else {
        PlainYields(cur, group[1..]);
        if i :| 0 <= i < |group| && RenamedFrom(group[i].1) {
          assert RenamedFrom(group[1..][i - 1].1);
        }
      }
    }
  }

  /** The decision table for any number of records: when the live ones agree, the name survives, and the
      survivor is live if one was, else a renamed-from tombstone if there was one, else a plain tombstone. */
  lemma AgreeingGroup(group: seq<Line>)
    requires group != [] && LiveFirst(group) && Agree(group)
    ensures Winner(group).Some? && Winner(group).value in group
    ensures var w := Winner(group).value.1;
      if exists i | 0 <= i < |group| :: !group[i].1.isDeleted then !w.isDeleted
      else if exists i | 0 <= i < |group| :: RenamedFrom(group[i].1) then RenamedFrom(w)
      else Plain(w)
  {
    var first, rest := group[0], group[1..];
    assert Winner(group) == Fold(Some(first), rest);
    assert group == [first] + rest;
    if !first.1.isDeleted {
      forall i | 0 <= i < |rest|
        ensures rest[i].1.isDeleted || rest[i].1.hash == first.1.hash
      {
        assert group[i + 1] == rest[i];
      }
      LiveStays(first, rest);
    } else {
      forall i | 0 <= i < |group|
        ensures group[i].1.isDeleted
      {
      }
      if RenamedFrom(first.1) {
        RenamedStays(first, rest);
      } else {
        PlainYields(first, rest);
        if i :| 0 <= i < |group| && RenamedFrom(group[i].1) {
          assert RenamedFrom(rest[i - 1].1);
        }
      }
    }
  }

  lemma {:induction false} FoldSplits(cur: Option<Line>, a: seq<Line>, b: seq<Line>)
    ensures Fold(cur, a + b) == Fold(Fold(cur, a), b)
    decreases |a|
  {
    if a == [] {
      assert a + b == b;
    } else {
      FoldSplits(Meet(cur, a[0]), a[1..], b);
      assert (a + b)[1..] == a[1..] + b;
    }
  }

  /** Shipping the contents with these hashes, one after the other, comes to nothing: the last disagrees with
      the one before, and that one was not itself left to stand alone by a disagreement. */
  predicate Lost(hashes: seq<string>) {
    var k := |hashes|;
    k > 1 && hashes[k - 1] != hashes[k - 2] && !Lost(hashes[..k - 1])
  }

  function Hashes(group: seq<Line>): (r: seq<string>)
    ensures |r| == |group| && forall i | 0 <= i < |group| :: r[i] == group[i].1.hash
  {
    seq(|group|, i requires 0 <= i < |group| => group[i].1.hash)
  }

  lemma FoldLast(group: seq<Line>)
    requires group != []
    ensures Winner(group) == Meet(Winner(group[..|group| - 1]), group[|group| - 1])
  {
    hide Meet;
    var before, last := group[..|group| - 1], group[|group| - 1];
    assert group == before + [last];
    FoldSplits(None, before, [last]);
    assert [last][1..] == [];
    assert Fold(Winner(before), [last]) == Fold(Meet(Winner(before), last), []);
  }

  lemma HashesBefore(group: seq<Line>, k: nat)
    requires k <= |group|
    ensures Hashes(group)[..k] == Hashes(group[..k])
  {
  }

  /** The hashes alone decide whether live records of one name cancel out; what is left has the last hash. */
  lemma {:induction false} LivesCancel(lives: seq<Line>)
    requires lives != [] && forall i | 0 <= i < |lives| :: !lives[i].1.isDeleted
    ensures Winner(lives).None? <==> Lost(Hashes(lives))
    ensures Winner(lives).Some? ==>
      !Winner(lives).value.1.isDeleted && Winner(lives).value.1.hash == Hashes(lives)[|lives| - 1]
    decreases |lives|
  {
    hide Fold, Winner;
    var k := |lives| - 1;
    var before := lives[..k];
    FoldLast(lives);
    HashesBefore(lives, k);
    if k > 0 {
      LivesCancel(before);
      assert before[k - 1] == lives[k - 1];
    } else {
      assert before == [];
      NothingWins();
    }
  }

  lemma NothingWins()
    ensures Winner([]) == None
  {
  }

  /** The decision for any group: the live records decide, and what is left of them is live and has the hash of
      the last; but exactly when their hashes cancel out, the tombstones decide, and the name counts as deleted
      although bundles ship it, or is gone altogether. */
  lemma GroupSplits(lives: seq<Line>, dead: seq<Line>)
    requires forall i | 0 <= i < |lives| :: !lives[i].1.isDeleted
    requires forall i | 0 <= i < |dead| :: dead[i].1.isDeleted
    ensures Winner(lives + dead) == if lives == [] || Lost(Hashes(lives)) then Winner(dead) else Winner(lives)
    ensures lives != [] && !Lost(Hashes(lives)) ==>
      Winner(lives).Some? && !Winner(lives).value.1.isDeleted &&
        Winner(lives).value.1.hash == Hashes(lives)[|lives| - 1]
    ensures Winner(dead).Some? <==> dead != []
    ensures Winner(dead).Some? ==> Winner(dead).value.1.isDeleted
  {
    FoldSplits(None, lives, dead);
    if lives != [] {
      LivesCancel(lives);
      if Winner(lives).Some? {
        LiveStays(Winner(lives).value, dead);
      }
    }
    if dead != [] {
      AgreeingGroup(dead);
    }
  }

  /** The live records with which a group begins. */
  function Lives(group: seq<Line>): (r: seq<Line>)
    ensures |r| <= |group| && r == group[..|r|] && forall i | 0 <= i < |r| :: !r[i].1.isDeleted
    ensures |r| < |group| ==> group[|r|].1.isDeleted
  {
    if group == [] || group[0].1.isDeleted then [] else
      var rest := Lives(group[1..]);
      assert group[..|rest| + 1] == [group[0]] + group[1..][..|rest|];
      [group[0]] + rest
  }

  /** For the whole list: a name that some bundle ships is still live after the walk exactly if the hashes
      with which it is shipped do not cancel out. */
  lemma StaysShipped(lines: seq<Line>, name: string)
    requires LinesSorted(lines)
    ensures var lives, kept := Lives(Group(lines, name)), Group(Walked(None, lines), name);
      (kept != [] && !kept[0].1.isDeleted) <==> (lives != [] && !Lost(Hashes(lives)))
    ensures forall i | 0 <= i < |Group(lines, name)| && !Group(lines, name)[i].1.isDeleted ::
      Group(lines, name)[i] in Lives(Group(lines, name))
  {
    hide Fold, Walked, LinesSorted, Lost, Winner, Lives, Group;
    var group := Group(lines, name);
    var lives := Lives(group);
    ConsolidatedGroup(lines, name);
    GroupLiveFirst(lines, name);
    var dead := group[|lives|..];
    assert group == lives + dead;
    forall i | |lives| <= i < |group|
      ensures group[i].1.isDeleted && group[i] == dead[i - |lives|]
    {
    }
    forall i | 0 <= i < |group| && !group[i].1.isDeleted
      ensures group[i] in lives
    {
      assert lives[i] == group[i];
    }
    GroupSplits(lives, dead);
  }

  lemma Three(x: Line, y: Line, z: Line)
    ensures Winner([x, y]) == Meet(Some(x), y)
    ensures Winner([x, y, z]) == Meet(Meet(Some(x), y), z)
  {
    hide Choose;
    assert [x, y][1..] == [y] && [y][1..] == [];
    assert Fold(Some(x), [y]) == Fold(Meet(Some(x), y), []);
    assert [x, y, z][1..] == [y, z] && [y, z][1..] == [z] && [z][1..] == [];
    assert Fold(Some(x), [y, z]) == Fold(Meet(Some(x), y), [z]) == Fold(Meet(Meet(Some(x), y), z), []);
  }

  /** Two bundles that ship different contents cancel; a tombstone in a third one is then what is left,
      and so is a third shipped record even when it agrees with one of the two. */
  lemma PairsCancel(name: string, a: Entry, b: Entry, dead: Entry)
    requires !a.isDeleted && !b.isDeleted && a.hash != b.hash && dead.isDeleted
    ensures Winner([(name, a), (name, b)]) == None
    ensures Winner([(name, a), (name, b), (name, dead)]) == Some((name, dead))
    ensures Winner([(name, a), (name, b), (name, b)]) == Some((name, b))
  {
    Three((name, a), (name, b), (name, dead));
    Three((name, a), (name, b), (name, b));
  }

  // ----- the result by name -----

  /** No two live records of the name disagree on the hash. */
  predicate NoConflict(lines: seq<Line>, name: string) {
    forall i, j | 0 <= i < |lines| && 0 <= j < |lines| && lines[i].0 == name == lines[j].0
      && !lines[i].1.isDeleted && !lines[j].1.isDeleted :: lines[i].1.hash == lines[j].1.hash
  }

  lemma {:induction false} GroupHas(lines: seq<Line>, name: string, k: nat)
    requires k < |lines| && lines[k].0 == name
    ensures lines[k] in Group(lines, name)
  {
    if k > 0 {
      GroupHas(lines[1..], name, k - 1);
    }
  }

  lemma GroupMembers(all: seq<Line>, sorted: seq<Line>, name: string)
    requires multiset(sorted) == multiset(all)
    ensures forall k | 0 <= k < |all| && all[k].0 == name :: all[k] in Group(sorted, name)
    ensures forall k | 0 <= k < |Group(sorted, name)| :: Group(sorted, name)[k] in all
  {
    Permuted(sorted, all);
    forall k | 0 <= k < |all| && all[k].0 == name
      ensures all[k] in Group(sorted, name)
    {
      var i :| 0 <= i < |sorted| && sorted[i] == all[k];
      GroupHas(sorted, name, i);
    }
  }

  /** The decision table for the whole list, whatever the number of bundles: a name whose live records
      agree survives exactly once, as a live record if there was one, else as a renamed-from tombstone
      if there was one, else as a plain tombstone. */
  lemma NameSurvives(all: seq<Line>, sorted: seq<Line>, name: string)
    requires multiset(sorted) == multiset(all) && LinesSorted(sorted)
    requires NoConflict(all, name) && exists i :: 0 <= i < |all| && all[i].0 == name
    ensures |Group(Walked(None, sorted), name)| == 1
    ensures var w := Group(Walked(None, sorted), name)[0];
      && w in all && w.0 == name
      && (!w.1.isDeleted <==> exists i :: 0 <= i < |all| && all[i].0 == name && !all[i].1.isDeleted)
      && (Plain(w.1) <==> forall i | 0 <= i < |all| && all[i].0 == name :: Plain(all[i].1))
  {
    hide Fold, Walked, LinesSorted, Group;
    var g := Group(sorted, name);
    ConsolidatedGroup(sorted, name);
    GroupLiveFirst(sorted, name);
    GroupMembers(all, sorted, name);
    AgreeingGroup(g);
  }

  // ----- the records -----

  function LineOf(f: File): Line
    reads f`entry
  {
    (f.filename, f.entry)
  }

  ghost function Lines(files: seq<File>): (r: seq<Line>)
    reads files
    ensures |r| == |files| && forall i | 0 <= i < |files| :: r[i] == LineOf(files[i])
  {
    seq(|files|, i requires 0 <= i < |files| reads files => LineOf(files[i]))
  }

  lemma SortedPermutes(files: seq<File>)
    ensures multiset(Lines(ByFilename(files))) == multiset(Lines(files))
  {
    hide Sort, FilenameLe;
    var table := map f | f in files :: LineOf(f);
    var keyed := FilenameKeyed(files);
    var look := (f: File) => if f in table then table[f] else (f.filename, BLANK);
    SortMapped(keyed, FilenameLe, look);
    assert Lines(files) == Mapped(keyed, look);
    ByFilenameRecords(files);
    assert Lines(ByFilename(files)) == Mapped(Sort(keyed, FilenameLe), look);
  }

  lemma SortedLines(files: seq<File>)
    ensures LinesSorted(Lines(ByFilename(files)))
  {
    hide FilenameLe, ByFilename;
    FilenameSorted(files);
  }

  /** All lists of the submanifests in front of one another. */
  ghost function Gathered(subs: seq<Manifest?>, files: seq<File>): seq<File>
    reads subs`files
    decreases |subs|
  {
    if subs == [] then files
    else Gathered(subs[1..], (if subs[0] == null then [] else subs[0].files) + files)
  }

  /** The list of the last submanifest comes first. */
  lemma {:induction false} LastInFront(subs: seq<Manifest?>, last: Manifest, files: seq<File>)
    ensures Gathered(subs + [last], files) == last.files + Gathered(subs, files)
    decreases |subs|
  {
    if subs == [] {
      assert (subs + [last])[1..] == [];
    } else {
      assert (subs + [last])[1..] == subs[1..] + [last];
      LastInFront(subs[1..], last, (if subs[0] == null then [] else subs[0].files) + files);
    }
  }

  lemma WalkStep(lines: seq<Line>)
    requires |lines| >= 2
    ensures lines[0].0 != lines[1].0 ==> Walked(None, lines) == [lines[0]] + Walked(None, lines[1..])
    ensures lines[0].0 == lines[1].0 ==>
      Walked(None, lines) == (match Choose(lines[0].1, lines[1].1)
                              case First => Walked(None, [lines[0]] + lines[2..])
                              case Second => Walked(None, lines[1..])
                              case Neither => Walked(None, lines[2..]))
  {
    hide Choose;
    var a, b, rest := lines[0], lines[1], lines[2..];
    assert lines[1..][0] == b && lines[1..][1..] == rest && ([a] + rest)[1..] == rest;
    assert Walked(None, lines) == Walked(Some(a), lines[1..]);
    assert Walked(None, lines[1..]) == Walked(Some(b), rest);
    assert Walked(None, [a] + rest) == Walked(Some(a), rest);
  }

  lemma WalkEnds(lines: seq<Line>)
    requires |lines| <= 1
    ensures Walked(None, lines) == lines
  {
    if lines != [] {
      assert lines[1..] == [];
      assert Walked(None, lines) == Walked(Some(lines[0]), []);
    }
  }

  /** The list with its walked part in front still leads to the same result. */
  ghost predicate Towards(files: seq<File>, i: nat, target: seq<Line>)
    reads files
  {
    i <= |files| && Lines(files)[..i] + Walked(None, Lines(files)[i..]) == target
  }

  lemma Splice(files: seq<File>, i: nat)
    requires i + 2 <= |files|
    ensures var l := Lines(files);
      && Lines(files[..i + 1] + files[i + 2..]) == l[..i] + ([l[i]] + l[i..][2..])
      && Lines(files[..i] + files[i + 1..]) == l[..i] + l[i..][1..]
      && Lines(files[..i] + files[i + 2..]) == l[..i] + l[i..][2..]
  {
    hide LineOf;
  }

  /** One round of the loop: the new list and the new cursor. */
  method ConsolidatePair(files: seq<File>, i: nat, ghost target: seq<Line>) returns (files': seq<File>, i': nat)
    requires i + 2 <= |files| && Towards(files, i, target)
    ensures Towards(files', i', target) && |files'| - i' < |files| - i
    ensures forall f | f in files' :: f in files
  {
    hide Walked, Choose;
    var file1: File, file2: File := files[i], files[i + 1];
    ghost var l := Lines(files);
    WalkStep(l[i..]);
    Splice(files, i);
    if file1.filename != file2.filename {
      assert l[..i + 1] == l[..i] + [l[i]];
      return files, i + 1;
    }
    var choice := Choose(file1.entry, file2.entry);
    match choice
    case First =>
      files', i' := files[..i + 1] + files[i + 2..], i;
      assert Lines(files')[..i] == l[..i] && Lines(files')[i..] == [l[i]] + l[i..][2..];
    case Second =>
      files', i' := files[..i] + files[i + 1..], i;
      assert Lines(files')[..i] == l[..i] && Lines(files')[i..] == l[i..][1..];
    case Neither =>
      files', i' := files[..i] + files[i + 2..], i;
      assert Lines(files')[..i] == l[..i] && Lines(files')[i..] == l[i..][2..];
  }

  predicate Separate(subs: seq<Manifest?>) {
    forall i, j | 0 <= i < j < |subs| && subs[i] != null :: subs[i] != subs[j]
  }

  lemma GatherStep(subs: seq<Manifest?>, k: nat, files: seq<File>)
    requires Separate(subs) && k < |subs|
    ensures Gathered(subs[k..], files) ==
      Gathered(subs[k + 1..], (if subs[k] == null then [] else subs[k].files) + files)
    ensures subs[k] != null ==> subs[k] !in subs[k + 1..]
  {
    assert subs[k..][1..] == subs[k + 1..];
  }

  /** The first loop: the lists of the submanifests, each put in front of what was gathered before. */
  method Gather(m: Manifest, subs: seq<Manifest?>)
    requires Separate(subs) && m !in subs
    modifies m`files, subs`files
    ensures m.files == old(Gathered(subs, m.files))
    ensures forall sub | sub in subs && sub != null :: sub.files == []
  {
    ghost var gathered := Gathered(subs, m.files);
    assert subs[0..] == subs;
    for k := 0 to |subs|
      invariant Gathered(subs[k..], m.files) == gathered
      invariant forall j | 0 <= j < k && subs[j] != null :: subs[j].files == []
    {
      hide Gathered;
      GatherStep(subs, k, m.files);
      var sub := subs[k];
      assert [] + m.files == m.files;
      if sub != null {
        m.files := sub.files + m.files;
        sub.files := [];
      }
    }
  }

  lemma TowardsStarts(files: seq<File>)
    ensures Towards(files, 0, Walked(None, Lines(files)))
  {
    assert Lines(files)[0..] == Lines(files);
  }

  lemma TowardsEnds(files: seq<File>, i: nat, target: seq<Line>)
    requires Towards(files, i, target) && i + 1 >= |files|
    ensures Lines(files) == target
  {
    WalkEnds(Lines(files)[i..]);
  }

  /** The sorted list, walked. */
  method ConsolidateSorted(m: Manifest) returns (ghost sorted: seq<Line>)
    modifies m`files
    ensures LinesSorted(sorted) && multiset(sorted) == multiset(old(Lines(m.files)))
    ensures sorted == Lines(ByFilename(old(m.files))) && Lines(m.files) == Walked(None, sorted)
  {
    hide LinesSorted, Walked, Towards, Lines, ByFilename;
    SortedLines(m.files);
    SortedPermutes(m.files);
    m.files := ByFilename(m.files);
    sorted := Lines(m.files);
    ghost var target := Walked(None, sorted);
    var i: nat := 0;
    TowardsStarts(m.files);
    while i + 1 < |m.files|
      invariant Towards(m.files, i, target)
      decreases |m.files| - i
    {
      var files;
      files, i := ConsolidatePair(m.files, i, target);
      m.files := files;
    }
    TowardsEnds(m.files, i, target);
  }

  /** `consolidate_submanifests`. */
  method ConsolidateSubmanifests(m: Manifest, subs: seq<Manifest?>) returns (ghost sorted: seq<Line>)
    requires Separate(subs) && m !in subs
    modifies m`files, subs`files
    ensures LinesSorted(sorted) && multiset(sorted) == multiset(Lines(old(Gathered(subs, m.files))))
    ensures sorted == Lines(ByFilename(old(Gathered(subs, m.files)))) && Lines(m.files) == Walked(None, sorted)
    ensures forall sub | sub in subs && sub != null :: sub.files == []
  {
    hide Gathered, LinesSorted, Walked, Lines, ByFilename;
    Gather(m, subs);
    sorted := ConsolidateSorted(m);
  }
}