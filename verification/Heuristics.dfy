/** The path prefixes of src/heuristics.c that classify a file as configuration, state or boot file. */
module Heuristics {
  import opened Files

  predicate HasPrefix(path: string, prefix: string) {
    prefix <= path
  }

  predicate AnyPrefix(path: string, prefixes: seq<string>) {
    exists i | 0 <= i < |prefixes| :: HasPrefix(path, prefixes[i])
  }

  predicate ConfigPath(path: string) {
    HasPrefix(path, "/etc/")
  }

  /** Shipped directories whose contents, but not they themselves, are state. */
  const SHIPPED_DIRECTORIES: set<string> :=
    {"/usr/src/debug", "/usr/src/kernel", "/dev", "/home", "/proc", "/root", "/run", "/sys", "/tmp", "/var"}

  const STATE_CONTENTS: seq<string> :=
    ["/dev/", "/home/", "/proc/", "/root/", "/run/", "/sys/", "/tmp/", "/var/", "/usr/src/"]

  const STATE_DIRECTORIES: seq<string> :=
    ["/acct", "/cache", "/data", "/lost+found", "/mnt/asec", "/mnt/obb", "/mnt/shell/emulated", "/mnt/swupd", "/oem",
     "/system/rt/audio", "/system/rt/gfx", "/system/rt/media", "/system/rt/wifi", "/system/etc/firmware/virtual"]

  predicate StatePath(path: string) {
    if path in SHIPPED_DIRECTORIES then false
    else if HasPrefix(path, "/usr/src/kernel/") then false
    else AnyPrefix(path, STATE_CONTENTS) || AnyPrefix(path, STATE_DIRECTORIES)
  }

  const BOOT_PREFIXES: seq<string> :=
    ["/boot/", "/usr/lib/modules/", "/usr/lib/kernel/", "/usr/share/kernel/", "/usr/lib/gummiboot",
     "/usr/bin/gummiboot"]

  predicate BootPath(path: string) {
    AnyPrefix(path, BOOT_PREFIXES)
  }

  lemma BootLetters(i: nat)
    requires i < |BOOT_PREFIXES|
    ensures var p := BOOT_PREFIXES[i];
      |p| > 5 && (p[1] == 'b' || (p[1] == 'u' && p[5] != 's') || (p[1] == 'u' && |p| > 6 && p[6] != 'r'))
  {
    if i == 0 {
      assert BOOT_PREFIXES[i] == "/boot/";
    }
  }

  lemma StateLetters(i: nat)
    ensures i < |STATE_CONTENTS| ==> var p := STATE_CONTENTS[i];
      |p| > 4 && p[1] != 'e' && p[1] != 'b' && (p[1] == 'u' ==> |p| > 6 && p[5] == 's' && p[6] == 'r')
    ensures i < |STATE_DIRECTORIES| ==> var p := STATE_DIRECTORIES[i];
      |p| > 3 && p[1] != 'e' && p[1] != 'b' && p[1] != 'u'
  {
  }

  /** A path has at most one of the three classes, so the one modifier character of a
      manifest line loses nothing. */
  lemma ClassesDisjoint(path: string)
    ensures !(ConfigPath(path) && StatePath(path))
    ensures !(ConfigPath(path) && BootPath(path))
    ensures !(StatePath(path) && BootPath(path))
  {
    if BootPath(path) {
      var i :| 0 <= i < |BOOT_PREFIXES| && HasPrefix(path, BOOT_PREFIXES[i]);
      BootLetters(i);
    }
    if StatePath(path) {
      if AnyPrefix(path, STATE_CONTENTS) {
        var j :| 0 <= j < |STATE_CONTENTS| && HasPrefix(path, STATE_CONTENTS[j]);
        StateLetters(j);
      } else {
        var j :| 0 <= j < |STATE_DIRECTORIES| && HasPrefix(path, STATE_DIRECTORIES[j]);
        StateLetters(j);
      }
    }
  }

  /** A path below a directory, which itself is not. */
  predicate Below(path: string, directory: string) {
    directory + "/" <= path
  }

  /** Configuration is what lies below /etc. */
  lemma ConfigExactly(path: string)
    ensures ConfigPath(path) <==> Below(path, "/etc")
  {
    assert "/etc" + "/" == "/etc/";
  }

  lemma AnyOf(path: string, p: seq<string>)
    ensures |p| == 9 ==> (AnyPrefix(path, p) <==>
      || p[0] <= path || p[1] <= path || p[2] <= path || p[3] <= path || p[4] <= path || p[5] <= path || p[6] <= path
      || p[7] <= path || p[8] <= path)
    ensures |p| == 14 ==> (AnyPrefix(path, p) <==>
      || p[0] <= path || p[1] <= path || p[2] <= path || p[3] <= path || p[4] <= path || p[5] <= path || p[6] <= path
      || p[7] <= path || p[8] <= path || p[9] <= path || p[10] <= path || p[11] <= path || p[12] <= path
      || p[13] <= path)
    ensures |p| == 6 ==> (AnyPrefix(path, p) <==>
      || p[0] <= path || p[1] <= path || p[2] <= path || p[3] <= path || p[4] <= path || p[5] <= path)
  {
    assert forall i | 0 <= i < |p| :: HasPrefix(path, p[i]) <==> p[i] <= path;
  }

  /** Begins with one of fourteen names. */
  predicate CustomPath(path: string) {
    || "/acct" <= path || "/cache" <= path || "/data" <= path || "/lost+found" <= path || "/mnt/asec" <= path
    || "/mnt/obb" <= path || "/mnt/shell/emulated" <= path || "/mnt/swupd" <= path || "/oem" <= path
    || "/system/rt/audio" <= path || "/system/rt/gfx" <= path || "/system/rt/media" <= path
    || "/system/rt/wifi" <= path || "/system/etc/firmware/virtual" <= path
  }

  lemma CustomLetters(path: string)
    requires CustomPath(path)
    ensures |path| > 3 && path[1] in "acdlmos" && (path[1] == 'd' ==> path[2] == 'a') && (path[1] == 's' ==> |path| > 4)
  {
  }

  lemma ContentLetters(path: string)
    requires path in SHIPPED_DIRECTORIES && path != "/usr/src/debug" && path != "/usr/src/kernel"
    ensures |path| <= 5 && path[1] != 'u' && path[|path| - 1] != '/'
  {
  }

  lemma ContentsAre(path: string)
    ensures AnyPrefix(path, STATE_CONTENTS) <==>
      || Below(path, "/dev") || Below(path, "/home") || Below(path, "/proc") || Below(path, "/root")
      || Below(path, "/run") || Below(path, "/sys") || Below(path, "/tmp") || Below(path, "/var")
      || Below(path, "/usr/src")
    ensures AnyPrefix(path, STATE_CONTENTS) ==>
      |path| > 4 && (path[4] == '/' || path[1] == 'u' || (|path| > 5 && path[5] == '/'))
  {
    AnyOf(path, STATE_CONTENTS);
    assert "/dev" + "/" == "/dev/" && "/home" + "/" == "/home/" && "/proc" + "/" == "/proc/";
    assert "/root" + "/" == "/root/" && "/run" + "/" == "/run/" && "/sys" + "/" == "/sys/";
    assert "/tmp" + "/" == "/tmp/" && "/var" + "/" == "/var/" && "/usr/src" + "/" == "/usr/src/";
    hide AnyPrefix;
  }

  lemma BelowUsr(path: string)
    requires |path| > 1 && path[1] == 'u'
    ensures !Below(path, "/dev") && !Below(path, "/home") && !Below(path, "/proc") && !Below(path, "/root")
    ensures !Below(path, "/run") && !Below(path, "/sys") && !Below(path, "/tmp") && !Below(path, "/var")
  {
    assert forall d: string | |d| > 1 && Below(path, d) :: d[1] == (d + "/")[1] == 'u';
  }

  lemma CustomAre(path: string)
    ensures AnyPrefix(path, STATE_DIRECTORIES) <==> CustomPath(path)
  {
    AnyOf(path, STATE_DIRECTORIES);
    hide AnyPrefix;
  }

  lemma NotCustom(path: string)
    requires path in SHIPPED_DIRECTORIES || (|path| > 1 && path[1] == 'u')
    ensures !CustomPath(path)
  {
    if CustomPath(path) {
      CustomLetters(path);
      hide CustomPath;
      assert false;
    }
  }

  /** State is what lies below nine directories, but of /usr/src neither `kernel` with all below it nor `debug` itself;
      and what begins with one of fourteen names. The other eight shipped directories need no exception. */
  lemma StateExactly(path: string)
    ensures StatePath(path) <==>
      || Below(path, "/dev") || Below(path, "/home") || Below(path, "/proc") || Below(path, "/root")
      || Below(path, "/run") || Below(path, "/sys") || Below(path, "/tmp") || Below(path, "/var")
      || (Below(path, "/usr/src") && path != "/usr/src/debug" && path != "/usr/src/kernel"
            && !Below(path, "/usr/src/kernel"))
      || CustomPath(path)
  {
    hide AnyPrefix, STATE_CONTENTS, STATE_DIRECTORIES, CustomPath;
    ContentsAre(path);
    CustomAre(path);
    assert "/usr/src/kernel" + "/" == "/usr/src/kernel/";
    if path in SHIPPED_DIRECTORIES {
      NotCustom(path);
      if path != "/usr/src/debug" && path != "/usr/src/kernel" {
        ContentLetters(path);
      } else {
        BelowUsr(path);
      }
    } else if Below(path, "/usr/src/kernel") {
      NotCustom(path);
      BelowUsr(path);
    }
  }

  /** Boot files lie below four directories, or their path begins with one of two programs' names. */
  lemma BootExactly(path: string)
    ensures BootPath(path) <==>
      || Below(path, "/boot") || Below(path, "/usr/lib/modules") || Below(path, "/usr/lib/kernel")
      || Below(path, "/usr/share/kernel") || "/usr/lib/gummiboot" <= path || "/usr/bin/gummiboot" <= path
  {
    AnyOf(path, BOOT_PREFIXES);
    assert "/boot" + "/" == "/boot/" && "/usr/lib/modules" + "/" == "/usr/lib/modules/";
    assert "/usr/lib/kernel" + "/" == "/usr/lib/kernel/" && "/usr/share/kernel" + "/" == "/usr/share/kernel/";
  }

  /** `apply_heuristics` on one record: bits are only set. */
  function MarkEntry(name: string, e: Entry): Entry {
    e.(isConfig := e.isConfig || ConfigPath(name),
       isState := e.isState || StatePath(name),
       isBoot := e.isBoot || BootPath(name))
  }

  function Marked(m: Entries): (r: Entries)
    ensures r.Keys == m.Keys
  {
    map n | n in m :: MarkEntry(n, m[n])
  }

  /** The modifier bits say exactly what the path says. */
  predicate FlagsOk(name: string, e: Entry) {
    && (e.isConfig <==> ConfigPath(name))
    && (e.isState <==> StatePath(name))
    && (e.isBoot <==> BootPath(name))
  }
}
