/** What is read back of everything that was published: every manifest ever written, and the full manifest,
    survive as text. */
module Reading {
  import opened Files
  import opened Heuristics
  import opened Matching
  import opened Pruning
  import opened Release
  import opened Availability
  import opened IncludeLists
  import opened ManifestText
  import Fullfiles

  // ----- the full manifest is written like the others -----

  ghost predicate FullWritten(s: State) {
    s.full.Some? ==> forall n | n in s.full.value.entries :: WrittenOk(n, s.full.value.entries[n])
  }

  /** Phase 1 as a job: the full manifest is matched and rid of its ghosts like that of a bundle. */
  function FullJob(s: State, in_: Input): Job {
    Job(false, Marked(OldFull(s, in_).entries), Marked(FullRaw(in_.image, in_.version)), false,
        OldFull(s, in_).format < in_.format, in_.version, Outcome(map[], {}))
  }

  lemma FullJobOk(s: State, in_: Input)
    requires StateOk(s) && Sensible(s, in_) && FullWritten(s)
    ensures JobOk(FullJob(s, in_))
  {
    hide ConfigPath, StatePath, BootPath, WrittenOk, NewOk, FlagsOk, MarkEntry, ManifestOk, Walked;
    var job, o := FullJob(s, in_), OldFull(s, in_).entries;
    forall n | n in job.old_
      ensures WrittenOk(n, job.old_[n]) && job.old_[n].lastChange < job.version
    {
      WrittenFlags(n, o[n]);
      MarkedIsSame(o, n);
    }
    forall n | n in job.new_
      ensures NewOk(n, job.new_[n], job.version)
    {
      NewRecord(n, in_.image[n], in_.version);
      WalkedHash(in_.image[n], in_.version);
    }
  }

  lemma WalkedHash(item: Item, version: int)
    ensures Walked(item.kind, "", version).(hash := item.hash) == Walked(item.kind, item.hash, version)
  {
  }

  lemma FullEntry(cfg: Config, s: State, in_: Input, n: string)
    requires StateOk(s) && Sensible(s, in_) && FullWritten(s) && n in FullManifest(cfg, s, in_)
    ensures var e := FullManifest(cfg, s, in_)[n];
      && FlagsOk(n, e) && !e.isGhosted && (e.Live() ==> e.Typed() && e.hash != ZERO_HASH) && (!e.Live() ==> e.Untyped())
  {
    hide StateOk, Sensible, FullWritten, JobOk, FlagsOk, MarkEntry, ConfigPath, StatePath, BootPath, ZERO_HASH, Match;
    FullJobOk(s, in_);
    Availability.FullFromMatched(cfg, s, in_, n);
    assert FullMatched(cfg, s, in_) == FullJob(s, in_).Matched(cfg);
    MatchedName(FullJob(s, in_), cfg, n);
    MarkedIsSame(FullMatched(cfg, s, in_), n);
    assert Marked(FullMatched(cfg, s, in_))[n] == MarkEntry(n, FullMatched(cfg, s, in_)[n]);
  }

  lemma FullIsWritten(cfg: Config, s: State, in_: Input, works: seq<Entries>)
    requires StateOk(s) && Sensible(s, in_) && FullWritten(s)
    ensures var w := WrittenFull(cfg, in_, FullManifest(cfg, s, in_), works); forall n | n in w :: WrittenOk(n, w[n])
  {
    hide StateOk, Sensible, FullWritten, FullManifest, MaximizeAll, PruneEntry, CleanEntry, FlagsOk, WrittenOk,
      NotPruned, ZERO_HASH;
    var full := FullManifest(cfg, s, in_);
    var w := WrittenFull(cfg, in_, full, works);
    forall n | n in w
      ensures WrittenOk(n, w[n])
    {
      FullEntry(cfg, s, in_, n);
      Fullfiles.MaximizedOnly(works, full, n);
      var e := MaximizeAll(works, full)[n];
      FlagsKept(n, full[n], e);
      PrunedValue(cfg, n, e, n in in_.fullLinked);
    }
  }

  lemma {:induction false} RunFull(cfg: Config, inputs: seq<Input>)
    ensures FullWritten(Run(cfg, inputs))
  {
    hide StateOk, Sensible, FullManifest, WrittenFull, BundleTurns, WrittenOk, FullfileHashes;
    if inputs != [] {
      var before, last := inputs[..|inputs| - 1], inputs[|inputs| - 1];
      var s := Run(cfg, before);
      RunFull(cfg, before);
      RunOk(cfg, before);
      if Sensible(s, last) && CreateUpdate(cfg, s, last).Some? {
        var full := FullManifest(cfg, s, last);
        var groups := [CORE] + Others(last.groups);
        var r := BundleTurns(cfg, s, last, full, groups, BeginBundles(s, last));
        FullIsWritten(cfg, s, last, Works(groups, r.newWork));
      }
    } else {
      assert Run(cfg, inputs).full == None;
    }
  }

  // ----- the flags -----

  /** A path is in one class at most, and pruning leaves no entry both deleted and ghosted. */
  ghost predicate AllUnambiguous(m: Entries) {
    forall n | n in m :: Unambiguous(m[n])
  }

  lemma WrittenIsUnambiguous(m: Entries)
    requires forall n | n in m :: WrittenOk(n, m[n])
    ensures AllUnambiguous(m)
  {
    hide ConfigPath, StatePath, BootPath, ZERO_HASH;
    forall n | n in m
      ensures Unambiguous(m[n])
    {
      assert WrittenOk(n, m[n]);
      ClassesDisjoint(n);
    }
  }

  ghost predicate FlagsSurvive(s: State) {
    && (forall k, n | k in s.archive && n in s.archive[k].entries ::
          var e := s.archive[k].entries[n]; ParseFlags(TypeString(e)) == Some(e.(hash := "", lastChange := 0)))
    && (s.full.Some? ==> forall n | n in s.full.value.entries ::
          var e := s.full.value.entries[n]; ParseFlags(TypeString(e)) == Some(e.(hash := "", lastChange := 0)))
  }

  /** After any sequence of builds. */
  lemma AllTables(cfg: Config, inputs: seq<Input>)
    ensures var s := Run(cfg, inputs);
      && (forall k | k in s.archive :: AllUnambiguous(s.archive[k].entries))
      && (s.full.Some? ==> AllUnambiguous(s.full.value.entries))
  {
    hide Run, AllUnambiguous, WrittenOk;
    RunOk(cfg, inputs);
    RunFull(cfg, inputs);
    var s := Run(cfg, inputs);
    forall k | k in s.archive
      ensures AllUnambiguous(s.archive[k].entries)
    {
      assert ManifestOk(s.archive[k], s.fullfiles);
      WrittenIsUnambiguous(s.archive[k].entries);
    }
    if s.full.Some? {
      WrittenIsUnambiguous(s.full.value.entries);
    }
  }

  lemma EntryFlags(m: Entries, n: string)
    requires AllUnambiguous(m) && n in m
    ensures ParseFlags(TypeString(m[n])) == Some(m[n].(hash := "", lastChange := 0))
  {
    hide ParseFlags, TypeString, Unambiguous;
    FlagsRoundTrip(m[n]);
  }

  /** After any sequence of builds, the flags of every entry of every manifest survive the text. */
  lemma PublishedFlagsSurvive(cfg: Config, inputs: seq<Input>)
    ensures FlagsSurvive(Run(cfg, inputs))
  {
    hide Run, AllUnambiguous, ParseFlags, TypeString;
    AllTables(cfg, inputs);
    var s := Run(cfg, inputs);
    forall k, n | k in s.archive && n in s.archive[k].entries
      ensures var e := s.archive[k].entries[n]; ParseFlags(TypeString(e)) == Some(e.(hash := "", lastChange := 0))
    {
      EntryFlags(s.archive[k].entries, n);
    }
    if s.full.Some? {
      forall n | n in s.full.value.entries
        ensures var e := s.full.value.entries[n]; ParseFlags(TypeString(e)) == Some(e.(hash := "", lastChange := 0))
      {
        EntryFlags(s.full.value.entries, n);
      }
    }
  }

  // ----- the tables -----

  function Rows(m: Entries): set<Line> {
    set n | n in m :: (n, m[n])
  }

  /** The list holds each row of the table once, in any order. */
  ghost predicate Listing(lines: seq<Line>, m: Entries) {
    multiset(lines) == multiset(Rows(m))
  }

  /** Names without newlines, hashes of 64 characters without tabs, numbers of 32 bits, lines within the buffer. */
  predicate Fits(line: Line) {
    && IsInt32(line.1.lastChange) && |line.1.hash| == 64 && NoTab(line.1.hash)
    && OneLine(PrintLine(line))
  }

  /** Printed in any order and under any header that fits, the table is read back as it was. */
  ghost predicate ComesBack(m: Entries) {
    forall h, lines: seq<Line>, version | PrintableHeader(h) && Listing(lines, m) && (forall n | n in m ::
      Fits((n, m[n]))) ::
      var r := Parse(Print(h, lines, []), version);
      && r.Parsed? && Listing(r.files, m) && r.nested == []
      && r.format == h.format && r.version == h.version && r.includes == Reverse(h.includes)
  }

  lemma TableComesBack(m: Entries, h: Header, lines: seq<Line>, version: int)
    requires AllUnambiguous(m) && PrintableHeader(h) && Listing(lines, m) && forall n | n in m :: Fits((n, m[n]))
    ensures var r := Parse(Print(h, lines, []), version);
      && r.Parsed? && Listing(r.files, m) && r.nested == []
      && r.format == h.format && r.version == h.version && r.includes == Reverse(h.includes)
  {
    hide Parse, Print, PrintableHeader, Unambiguous, Fits, SortLines, Printable, FilenameLe;
    forall i | 0 <= i < |lines|
      ensures Printable(lines[i])
    {
      assert lines[i] in multiset(lines);
      var n :| n in m && lines[i] == (n, m[n]);
      FitsIsPrintable(m, n);
    }
    RoundTrip(h, lines, [], version);
  }

  lemma FitsIsPrintable(m: Entries, n: string)
    requires AllUnambiguous(m) && n in m && Fits((n, m[n]))
    ensures Printable((n, m[n]))
  {
    hide Unambiguous, IsInt32, OneLine, PrintLine;
  }

  ghost predicate AllComeBack(s: State) {
    && (forall k | k in s.archive :: ComesBack(s.archive[k].entries))
    && (s.full.Some? ==> ComesBack(s.full.value.entries))
  }

  lemma UnambiguousComesBack(m: Entries)
    requires AllUnambiguous(m)
    ensures ComesBack(m)
  {
    hide AllUnambiguous, PrintableHeader, Fits, Parse, Print, Listing;
    forall h, lines: seq<Line>, version | PrintableHeader(h) && Listing(lines, m) && (forall n | n in m ::
      Fits((n, m[n])))
      ensures var r := Parse(Print(h, lines, []), version);
        && r.Parsed? && Listing(r.files, m) && r.nested == []
        && r.format == h.format && r.version == h.version && r.includes == Reverse(h.includes)
    {
      TableComesBack(m, h, lines, version);
    }
  }

  /** After any sequence of builds, every table that was published is what the next build reads. */
  lemma PublishedTablesComeBack(cfg: Config, inputs: seq<Input>)
    ensures AllComeBack(Run(cfg, inputs))
  {
    hide Run, AllUnambiguous, ComesBack;
    AllTables(cfg, inputs);
    var s := Run(cfg, inputs);
    forall k | k in s.archive
      ensures ComesBack(s.archive[k].entries)
    {
      UnambiguousComesBack(s.archive[k].entries);
    }
    if s.full.Some? {
      UnambiguousComesBack(s.full.value.entries);
    }
  }

  // ----- the manifest of manifests -----

  /** The MoM of a state: one line for every bundle, in any order and with any hash, with the release of the bundle's
      newest manifest. */
  ghost predicate NamesVersions(nested: seq<Line>, s: State) {
    && (forall i, j | 0 <= i < j < |nested| :: nested[i].0 != nested[j].0)
    && (forall i | 0 <= i < |nested| ::
          nested[i].0 in s.bundles && nested[i].1.lastChange == s.bundles[nested[i].0].version)
    && (forall g | g in s.bundles :: exists i :: 0 <= i < |nested| && nested[i].0 == g)
  }

  /** The manifest of a bundle that the next run reads: that of the release which the MoM names, if there is one. */
  ghost function OldFromMom(r: Parsed, s: State, in_: Input, g: string): Option<Published>
    requires r.Parsed?
  {
    var v := Subversion(r.nested, g);
    if v == 0 then Some(Published(0, in_.format, map[], []))
    else if (g, v) in s.archive then Some(s.archive[(g, v)]) else None
  }

  ghost predicate ReadsOld(s: State, h: Header, nested: seq<Line>, version: int, in_: Input, g: string) {
    var r := Parse(Print(h, [], nested), version);
    && r.Parsed? && r.files == [] && r.format == h.format && r.version == h.version
    && OldFromMom(r, s, in_, g) == Some(OldBundle(s, in_, g))
  }

  ghost predicate MomComesBack(s: State) {
    forall h, nested: seq<Line>, version, in_: Input, g: string |
      PrintableHeader(h) && (forall i | 0 <= i < |nested| :: PrintableNested(nested[i])) && NamesVersions(nested, s) ::
      ReadsOld(s, h, nested, version, in_, g)
  }

  lemma MomIsRead(s: State, h: Header, nested: seq<Line>, version: int, in_: Input, g: string)
    requires StateOk(s) && PrintableHeader(h) && (forall i | 0 <= i < |nested| :: PrintableNested(nested[i]))
    requires NamesVersions(nested, s)
    ensures ReadsOld(s, h, nested, version, in_, g)
  {
    hide Parse, Print, PrintableHeader, PrintableNested, SortLines, Subversion, ManifestOk;
    RoundTrip(h, [], nested, version);
    PrintedSubversion(h, [], nested, version, g);
    assert multiset(Parse(Print(h, [], nested), version).files) == multiset{};
  }

  /** After any sequence of builds: from the text of the MoM the next build finds, for every bundle, the manifest that
      is matched against the new one. */
  lemma MomOfRunComesBack(cfg: Config, inputs: seq<Input>)
    ensures MomComesBack(Run(cfg, inputs))
  {
    hide Run, StateOk, PrintableHeader, PrintableNested, NamesVersions, ReadsOld;
    RunOk(cfg, inputs);
    var s := Run(cfg, inputs);
    forall h, nested: seq<Line>, version, in_: Input, g: string |
      PrintableHeader(h) && (forall i | 0 <= i < |nested| :: PrintableNested(nested[i])) && NamesVersions(nested, s)
      ensures ReadsOld(s, h, nested, version, in_, g)
    {
      MomIsRead(s, h, nested, version, in_, g);
    }
  }
}
