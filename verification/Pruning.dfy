/** What happens to a new manifest between matching and writing (src/manifest.c):
    `remove_deprecated_files`, `clean_renames`, `prune_manifest`. */
module Pruning {
  import opened Files
  import opened Heuristics

  /** Build and server configuration: OS_IS_STATELESS, and the banned debuginfo prefixes
      (empty when nothing is banned). */
  datatype Config = Config(stateless: bool, banned: seq<string>, minversion: int)

  /** `both_deleted` and `both_ghosted` of src/create_update.c. */
  datatype Deprecation = BothDeleted | BothGhosted
  {
    predicate Applies(old_: Entry, new_: Entry) {
      match this
      case BothDeleted => old_.isDeleted && new_.isDeleted
      case BothGhosted => old_.isGhosted && new_.isGhosted
    }
  }

  function Deprecated(old_: Entries, new_: Entries, d: Deprecation): set<string> {
    set n | n in new_ && n in old_ && d.Applies(old_[n], new_[n])
  }

  function RemoveDeprecated(old_: Entries, new_: Entries, d: Deprecation): Entries {
    new_ - Deprecated(old_, new_, d)
  }

  /** A rename that has lost its partner is none; what is left of a renamed-from file is a plain tombstone. */
  function CleanEntry(e: Entry, linked: bool): Entry {
    if e.isRename && !linked then e.(isRename := false, hash := if e.isDeleted then ZERO_HASH else e.hash) else e
  }

  function Clean(m: Entries, linked: set<string>): (r: Entries)
    ensures r.Keys == m.Keys
  {
    map n | n in m :: CleanEntry(m[n], n in linked)
  }

  function PruneEntry(cfg: Config, name: string, e: Entry): Option<Entry> {
    if cfg.stateless && !e.isDeleted && e.isConfig then None
    else if e.isBoot && e.isDeleted then Some(e.(isDeleted := false, isGhosted := true))
    else if AnyPrefix(name, cfg.banned) then None
    else Some(e)
  }

  function Prune(cfg: Config, m: Entries): (r: Entries)
    ensures r.Keys <= m.Keys
  {
    map n | n in m && PruneEntry(cfg, n, m[n]).Some? :: PruneEntry(cfg, n, m[n]).value
  }

  /** The entries that make a written manifest new. */
  function NewFiles(m: Entries, version: int): set<string> {
    set n | n in m && m[n].lastChange == version
  }
}
