/** Any two manifests of one bundle, from any two releases, belong to one history. */
module Consistency {
  import opened Files
  import opened Release
  import opened Availability
  import opened Pruning

  /** Everything the newer manifest ships unchanged since release `from` is shipped, just the same, by the older one. */
  ghost predicate ConsistentSince(older: Entries, newer: Entries, from: int) {
    forall n | n in newer && newer[n].Live() && newer[n].lastChange <= from :: Inherited(older, n, newer[n])
  }

  ghost predicate HistoryOk(s: State) {
    && (forall g, v | g in s.bundles && s.bundles[g].version != 0 && (g, v) in s.archive :: v <= s.bundles[g].version)
    && (forall g, v, w | (g, v) in s.archive && (g, w) in s.archive && v < w ::
          ConsistentSince(s.archive[(g, v)].entries, s.archive[(g, w)].entries, v))
  }

  /** Nothing that is shipped is older than the first release. */
  ghost predicate PositiveSince(s: State) {
    forall k | k in s.archive :: AllPositive(s.archive[k].entries)
  }

  predicate AllPositive(m: Entries) {
    forall n | n in m && m[n].Live() :: m[n].lastChange > 0
  }

  lemma InheritedTwice(a: Entries, b: Entries, n: string, e: Entry)
    requires Inherited(b, n, e) && Inherited(a, n, b[n])
    ensures Inherited(a, n, e)
  {
  }

  /** A manifest written now, against any older one of the same bundle. */
  lemma WrittenIsConsistent(cfg: Config, s: State, in_: Input, g: string, w: Entries, v: int)
    requires StateOk(s) && HistoryOk(s) && WrittenNow(cfg, s, in_, g, w) && (g, v) in s.archive && v < in_.version
    ensures ConsistentSince(s.archive[(g, v)].entries, w, v)
  {
    hide WrittenOk, NotPruned, ManifestOk;
    var old_ := OldBundle(s, in_, g);
    forall n | n in w && w[n].Live() && w[n].lastChange <= v
      ensures Inherited(s.archive[(g, v)].entries, n, w[n])
    {
      assert Inherited(old_.entries, n, w[n]);
      assert old_ == s.bundles[g] && old_.version != 0;
      assert v <= old_.version;
      if v < old_.version {
        assert ConsistentSince(s.archive[(g, v)].entries, old_.entries, v);
        InheritedTwice(s.archive[(g, v)].entries, old_.entries, n, w[n]);
      }
    }
  }

  lemma StepHistory(cfg: Config, s: State, in_: Input, r: Progressing)
    requires StateOk(s) && HistoryOk(s) && Sensible(s, in_) && LoopOk(cfg, s, in_, [], r)
    ensures forall g, v | g in r.bundles && r.bundles[g].version != 0 && (g, v) in r.archive ::
      v <= r.bundles[g].version
    ensures forall g, v, w | (g, v) in r.archive && (g, w) in r.archive && v < w ::
      ConsistentSince(r.archive[(g, v)].entries, r.archive[(g, w)].entries, v)
  {
    hide WorkPart, WrittenNow, ManifestOk, ConsistentSince;
    forall g, v, w | (g, v) in r.archive && (g, w) in r.archive && v < w
      ensures ConsistentSince(r.archive[(g, v)].entries, r.archive[(g, w)].entries, v)
    {
      if (g, w) !in s.archive {
        assert w == in_.version && (g, v) in s.archive;
        WrittenIsConsistent(cfg, s, in_, g, r.archive[(g, w)].entries, v);
      } else {
        assert w <= s.version && (g, v) in s.archive;
      }
    }
  }

  lemma StepKeepsHistory(cfg: Config, s: State, in_: Input)
    requires StateOk(s) && HistoryOk(s)
    ensures HistoryOk(Step(cfg, s, in_))
  {
    hide LoopOk, StateOk, ConsistentSince, CreateUpdate;
    if Sensible(s, in_) && CreateUpdate(cfg, s, in_).Some? {
      var r := StepLoop(cfg, s, in_);
      StepHistory(cfg, s, in_, r);
    }
  }

  lemma {:induction false} RunHistory(cfg: Config, inputs: seq<Input>)
    ensures StateOk(Run(cfg, inputs)) && HistoryOk(Run(cfg, inputs))
  {
    hide Step, StateOk, HistoryOk;
    RunOk(cfg, inputs);
    if inputs == [] {
      EmptyHistory();
    } else {
      var s := Run(cfg, inputs[..|inputs| - 1]);
      RunHistory(cfg, inputs[..|inputs| - 1]);
      StepKeepsHistory(cfg, s, inputs[|inputs| - 1]);
    }
  }

  lemma EmptyHistory()
    ensures HistoryOk(EMPTY)
  {
  }

  lemma WrittenIsPositive(cfg: Config, s: State, in_: Input, g: string, w: Entries)
    requires StateOk(s) && PositiveSince(s) && Sensible(s, in_) && WrittenNow(cfg, s, in_, g, w)
    ensures AllPositive(w)
  {
    hide WrittenOk, NotPruned, ManifestOk;
    var old_ := OldBundle(s, in_, g);
    forall n | n in w && w[n].Live() && w[n].lastChange != in_.version
      ensures w[n].lastChange > 0
    {
      assert Inherited(old_.entries, n, w[n]);
      assert AllPositive(s.archive[(g, old_.version)].entries);
    }
  }

  lemma {:induction false} RunPositive(cfg: Config, inputs: seq<Input>)
    ensures PositiveSince(Run(cfg, inputs))
  {
    hide StateOk, AllPositive, CreateUpdate, LoopOk, Sensible;
    if inputs != [] {
      var s, last := Run(cfg, inputs[..|inputs| - 1]), inputs[|inputs| - 1];
      RunPositive(cfg, inputs[..|inputs| - 1]);
      RunOk(cfg, inputs[..|inputs| - 1]);
      if Sensible(s, last) && CreateUpdate(cfg, s, last).Some? {
        var r := StepLoop(cfg, s, last);
        StepPositive(cfg, s, last, r);
      }
    } else {
      assert Run(cfg, inputs).archive == map[];
    }
  }

  lemma StepPositive(cfg: Config, s: State, in_: Input, r: Progressing)
    requires StateOk(s) && PositiveSince(s) && Sensible(s, in_) && LoopOk(cfg, s, in_, [], r)
    ensures forall k | k in r.archive :: AllPositive(r.archive[k].entries)
  {
    hide StateOk, Sensible, WorkPart, WrittenNow, AllPositive;
    forall k | k in r.archive
      ensures AllPositive(r.archive[k].entries)
    {
      if k !in s.archive {
        WrittenIsPositive(cfg, s, in_, k.0, r.archive[k].entries);
      }
    }
  }

  /** After any sequence of builds: a record that a bundle manifest ships and dates back to release
      `v` or before is shipped, with the same type, flags, hash and last_change, by the manifest that
      the bundle had in release `v`. */
  lemma ManifestsAreConsistent(cfg: Config, inputs: seq<Input>, g: string, v: int, w: int)
    requires var s := Run(cfg, inputs); (g, v) in s.archive && (g, w) in s.archive && v < w
    ensures var s := Run(cfg, inputs); ConsistentSince(s.archive[(g, v)].entries, s.archive[(g, w)].entries, v)
  {
    hide Run, StateOk, ConsistentSince;
    RunHistory(cfg, inputs);
  }
}
