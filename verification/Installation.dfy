/** What several bundles of one release take on a client: after any sequence of builds, the sizes of the manifests
    that the newest MoM names, for bundles that are installed together. */
module Installation {
  import opened Files
  import opened Subtraction
  import opened Release
  import opened Shipping
  import opened History
  import opened Pruning
  import opened ContentSize

  /** The files that a manifest ships, with their is_file bits; boot files and pruned ones aside. */
  function PlainShipped(cfg: Config, m: Entries): map<string, bool> {
    map n | n in m && m[n].Live() && Plain(cfg, n) :: m[n].isFile
  }

  /** What the build put into each bundle. */
  function PlainPut(cfg: Config, in_: Input): (r: Puts)
    ensures forall g :: g in r <==> g in in_.groups
  {
    map g | g in in_.groups ::
      map n | n in in_.ShippedBy(g) && n in in_.image && Plain(cfg, n) :: in_.image[n].kind.Regular?
  }

  /** What each manifest ships that the MoM names. */
  function Installable(cfg: Config, s: State, in_: Input): (r: Puts)
    ensures forall g :: g in r <==> g in in_.groups
  {
    map g | g in in_.groups :: PlainShipped(cfg, EntriesOf(s, g))
  }

  /** The last build that was published, if there was one. */
  ghost function LastBuild(cfg: Config, inputs: seq<Input>): Option<Input> {
    var h := Releases(cfg, inputs); if h == [] then None else Some(h[|h| - 1])
  }

  lemma PutAgrees(cfg: Config, in_: Input)
    ensures Agree(PlainPut(cfg, in_))
  {
  }

  lemma OneName(cfg: Config, in_: Input, g: string, m: Entries, n: string)
    requires g in in_.groups && Plain(cfg, n) && ShipsRight(in_, g, m, n) && in_.ShippedBy(g) <= in_.image.Keys
    requires forall b | b in in_.groups :: in_.ShippedBy(b) <= in_.image.Keys
    ensures var l := Listed(PlainPut(cfg, in_), NewIncludeMap(in_), g);
      (n in PlainShipped(cfg, m) <==> n in l) && (n in l ==> PlainShipped(cfg, m)[n] == l[n])
  {
    hide Closure, NewIncludeMap, Plain;
    var put := PlainPut(cfg, in_);
    KnownClosure(in_, g);
    assert PutBelow(put, NewIncludeMap(in_), g, n) <==>
      exists c | c in Closure(NewIncludeMap(in_), g) :: n in in_.ShippedBy(c) by {
      if c :| c in Closure(NewIncludeMap(in_), g) && n in in_.ShippedBy(c) {
        assert c in put && n in put[c];
      }
    }
  }

  lemma KnownClosure(in_: Input, g: string)
    ensures forall c | c in Closure(NewIncludeMap(in_), g) :: c in in_.groups
  {
    hide Reaches;
  }

  lemma OnlyPlain(cfg: Config, in_: Input, g: string, m: Entries, n: string)
    requires g in in_.groups && !Plain(cfg, n)
    ensures n !in PlainShipped(cfg, m) && n !in Listed(PlainPut(cfg, in_), NewIncludeMap(in_), g)
  {
    hide Closure, NewIncludeMap, Plain;
  }

  /** The manifests ship what subtraction leaves of what the build put in. */
  lemma ShipsWhatIsListed(cfg: Config, inputs: seq<Input>, g: string)
    requires LastBuild(cfg, inputs).Some? && g in LastBuild(cfg, inputs).value.groups
    requires forall i | 0 <= i < |inputs| :: Acyclic(inputs[i])
    ensures var in_ := LastBuild(cfg, inputs).value;
      PlainShipped(cfg, EntriesOf(Run(cfg, inputs), g)) == Listed(PlainPut(cfg, in_), NewIncludeMap(in_), g)
  {
    hide Run, ShipsRight, PlainShipped, PlainPut, Listed, Acyclic, EntriesOf, Plain, NewIncludeMap, Releases;
    var in_, m := LastBuild(cfg, inputs).value, EntriesOf(Run(cfg, inputs), g);
    BuiltIsSensible(cfg, inputs);
    var l := Listed(PlainPut(cfg, in_), NewIncludeMap(in_), g);
    forall n
      ensures n in PlainShipped(cfg, m) <==> n in l
      ensures n in l ==> PlainShipped(cfg, m)[n] == l[n]
    {
      if Plain(cfg, n) {
        PublishedIsBuilt(cfg, inputs, g, n);
        OneName(cfg, in_, g, m, n);
      } else {
        OnlyPlain(cfg, in_, g, m, n);
      }
    }
  }

  lemma {:induction false} BuiltIsSensible(cfg: Config, inputs: seq<Input>)
    ensures forall in_ | in_ in Releases(cfg, inputs) :: forall g | g in in_.groups ::
      in_.ShippedBy(g) <= in_.image.Keys
    decreases |inputs|
  {
    hide Run, CreateUpdate;
    if inputs != [] {
      BuiltIsSensible(cfg, inputs[..|inputs| - 1]);
    }
  }

  /** After any sequence of builds with acyclic includes, for any bundles of the last release that hold with each
      other all that they include: the sizes of what their manifests ship add up to the size of all that the build
      put into them, each file counted once, if and only if no two of them that are on no include chain list one
      file; and else to more. Boot files and pruned ones are left aside. */
  lemma InstalledSizesAddUp(cfg: Config, inputs: seq<Input>, bundles: seq<string>, sizes: map<string, nat>)
    requires LastBuild(cfg, inputs).Some? && forall i | 0 <= i < |inputs| :: Acyclic(inputs[i])
    requires var in_ := LastBuild(cfg, inputs).value; Installed(PlainPut(cfg, in_), NewIncludeMap(in_), bundles)
    ensures var in_ := LastBuild(cfg, inputs).value;
      var put, inc := PlainPut(cfg, in_), NewIncludeMap(in_);
      && (forall i | 0 <= i < |bundles| :: bundles[i] in in_.groups)
      && var sum := SumOfSizes(Installable(cfg, Run(cfg, inputs), in_), bundles, |bundles|, sizes);
         var all := Total(Together(put, bundles, |bundles|), sizes);
         sum >= all && (sum == all <==> !Overlap(put, inc, bundles, sizes))
  {
    hide Run, Releases, Acyclic, NewIncludeMap, Closure, Total, SumOfSizes, Together, Overlap, Listed, Ranked, PlainPut,
      PlainShipped, EntriesOf, Agree;
    var in_ := LastBuild(cfg, inputs).value;
    var put, inc, got := PlainPut(cfg, in_), NewIncludeMap(in_), Installable(cfg, Run(cfg, inputs), in_);
    forall i | 0 <= i < |bundles|
      ensures got[bundles[i]] == AllListed(put, inc)[bundles[i]]
    {
      ShipsWhatIsListed(cfg, inputs, bundles[i]);
    }
    SameSums(got, AllListed(put, inc), bundles, |bundles|, sizes);
    LastIsAcyclic(cfg, inputs);
    var rank := RankOf(in_);
    PutAgrees(cfg, in_);
    ListedSizes(put, inc, rank, bundles, sizes);
  }

  lemma LastIsAcyclic(cfg: Config, inputs: seq<Input>)
    requires LastBuild(cfg, inputs).Some? && forall i | 0 <= i < |inputs| :: Acyclic(inputs[i])
    ensures Acyclic(LastBuild(cfg, inputs).value)
  {
    hide Acyclic, Releases;
    ReleasesAreInputs(cfg, inputs);
    var h := Releases(cfg, inputs);
    assert h[|h| - 1] in h;
  }

  lemma RankOf(in_: Input) returns (rank: map<string, nat>)
    requires Acyclic(in_)
    ensures Ranked(NewIncludeMap(in_), rank)
  {
    rank :| Ranked(NewIncludeMap(in_), rank);
  }

  // ----- chains of a release -----

  /** In particular they add up along every include chain of a release. */
  lemma InstalledChainAddsUp(cfg: Config, inputs: seq<Input>, chain: seq<string>, sizes: map<string, nat>)
    requires LastBuild(cfg, inputs).Some? && forall i | 0 <= i < |inputs| :: Acyclic(inputs[i])
    requires Chain(NewIncludeMap(LastBuild(cfg, inputs).value), chain)
    ensures var in_ := LastBuild(cfg, inputs).value;
      && (forall i | 0 <= i < |chain| :: chain[i] in in_.groups)
      && SumOfSizes(Installable(cfg, Run(cfg, inputs), in_), chain, |chain|, sizes) ==
           Total(Together(PlainPut(cfg, in_), chain, |chain|), sizes)
  {
    hide Run, Releases, Acyclic, Closure, Total, SumOfSizes, Together, Overlap, PlainPut, Installed, NewIncludeMap;
    var in_ := LastBuild(cfg, inputs).value;
    MapIsKnown(in_);
    ChainHasNoOverlap(PlainPut(cfg, in_), NewIncludeMap(in_), chain, sizes);
    InstalledSizesAddUp(cfg, inputs, chain, sizes);
  }

  lemma MapIsKnown(in_: Input)
    ensures forall g :: g in NewIncludeMap(in_) <==> g in in_.groups
  {
  }

  /** A bundle that includes one that includes nothing but the core: the three are a chain of the release, since
      every bundle of a release includes the core. */
  lemma ReleaseChain(in_: Input, a: string, b: string)
    requires IncludeLists.CORE in in_.groups && a in in_.groups && b in in_.groups
    requires a != IncludeLists.CORE && b != IncludeLists.CORE && a != b
    requires (forall x :: x in in_.IncludesOf(a) <==> x == IncludeLists.CORE)
    requires (forall x :: x in in_.IncludesOf(b) <==> x == IncludeLists.CORE || x == a)
    ensures Chain(NewIncludeMap(in_), [IncludeLists.CORE, a, b])
  {
    hide Reaches, NewIncludeMap;
    var inc := NewIncludeMap(in_);
    MapOf(in_, a);
    MapOf(in_, b);
    MapOf(in_, IncludeLists.CORE);
    ChainOfThree(inc, IncludeLists.CORE, a, b);
  }

  lemma MapOf(in_: Input, g: string)
    requires g in in_.groups
    ensures g in NewIncludeMap(in_) && NewIncludeMap(in_)[g] == in_.IncludesOf(g)
  {
  }
}
