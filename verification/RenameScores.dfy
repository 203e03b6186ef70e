/** How similar two files are (`rename_score`, `precompute_file_data` in src/rename.c). */
module RenameScores {
  import opened Files

  /** Below this size a delta is no smaller than the file. */
  const BSDIFF_SIZE := 200

  /** What the score looks at. The type is that of file(1), interned; small files have none. */
  datatype Traits = Traits(filename: string, hash: string, size: nat, filetype: Option<string>)
  {
    function Dirname(): string {
      var k := LastSlash(filename, |filename|);
      if k == 0 then "." else if k == 1 then "/" else filename[..k - 1]
    }

    function Basename(): string {
      filename[LastSlash(filename, |filename|)..]
    }

    function AlphaOnly(): string {
      Letters(filename)
    }
  }

  /** One past the last '/' before position k, or 0. */
  function LastSlash(s: string, k: nat): (r: nat)
    requires k <= |s|
    ensures r <= k && (r > 0 ==> s[r - 1] == '/') && forall i | r <= i < k :: s[i] != '/'
  {
    if k == 0 then 0 else if s[k - 1] == '/' then k else LastSlash(s, k - 1)
  }

  function Letters(s: string): string {
    if s == [] then []
    else (if 'a' <= s[0] <= 'z' || 'A' <= s[0] <= 'Z' then [s[0]] else []) + Letters(s[1..])
  }

  /** The length of the basename up to its first dot, if it has one. */
  function FirstDot(s: string): Option<nat> {
    if s == [] then None
    else if s[0] == '.' then Some(0)
    else match FirstDot(s[1..]) case Some(k) => Some(k + 1) case None => None
  }

  /** `strncmp(a, b, n) == 0` */
  predicate SamePrefix(a: string, b: string, n: nat) {
    if n <= |a| && n <= |b| then a[..n] == b[..n] else a == b
  }

  /** Walking the directories backwards: five points for each '/' in the common end. */
  function CommonEnd(a: string, i: nat, b: string, j: nat): (r: nat)
    requires i <= |a| && j <= |b|
  {
    if i == 0 || j == 0 || a[i - 1] != b[j - 1] then 0
    else (if a[i - 1] == '/' then 5 else 0) + CommonEnd(a, i - 1, b, j - 1)
  }

  /** The sizes are divided as integers, so the tie breaker is a whole number. */
  function SizeRatio(old_: nat, new_: nat): nat
    requires old_ > 0 && new_ > 0
  {
    var s := old_ / new_; if s > 1 then new_ / old_ else s
  }

  function NameScore(old_: Traits, new_: Traits): nat {
    (if old_.Dirname() == new_.Dirname() then 10 else 0)
    + (match FirstDot(old_.Basename())
       case Some(n) => (if SamePrefix(old_.Basename(), new_.Basename(), n) then n else 0)
       case None => 0)
    + (if old_.Basename() == new_.Basename() then 35 else 0)
    + (if old_.AlphaOnly() == new_.AlphaOnly() then 50 else 0)
    + CommonEnd(old_.Dirname(), |old_.Dirname()|, new_.Dirname(), |new_.Dirname()|)
  }

  function SizeScore(old_: nat, new_: nat): int
    requires old_ > 0 && new_ > 0
  {
    (if old_ as real > new_ as real * 1.25 + 1024.0 then -30 else 0)
    + (if (old_ as real) < new_ as real * 0.75 - 1024.0 then -30 else 0)
    + SizeRatio(old_, new_)
  }

  predicate SameFileType(a: Option<string>, b: Option<string>) {
    a.Some? && a == b && a.value != ""
  }

  function RenameScore(old_: Traits, new_: Traits): int {
    if new_.size < BSDIFF_SIZE then -99
    else if old_.size == 0 then -100
    else (if old_.hash == new_.hash then 400 else 0) + NameScore(old_, new_) + SizeScore(old_.size, new_.size)
         - (if SameFileType(old_.filetype, new_.filetype) then 0 else 60)
  }

  const ENOUGH := 15

  /** Moving a file without changing it always counts as a rename once the file is worth a delta;
      a smaller file is never renamed, whatever it looks like. */
  lemma MovedFileQualifies(old_: Traits, new_: Traits)
    requires old_.hash == new_.hash && old_.size == new_.size
    ensures RenameScore(old_, new_) >= ENOUGH <==> new_.size >= BSDIFF_SIZE
  {
    if new_.size >= BSDIFF_SIZE {
      assert old_.size / new_.size == 1;
      assert SizeScore(old_.size, new_.size) >= -60;
    }
  }

  // ----- what the parts of a name are -----

  lemma {:induction false} LastSlashIs(s: string, k: nat, at: nat)
    requires at < k <= |s| && s[at] == '/' && forall i | at < i < k :: s[i] != '/'
    ensures LastSlash(s, k) == at + 1
    decreases k
  {
    if k > at + 1 {
      LastSlashIs(s, k - 1, at);
    }
  }

  /** The directory and the basename of a path. */
  lemma NameParts(t: Traits, dir: string, base: string)
    requires t.filename == dir + "/" + base && dir != "" && '/' !in base
    ensures t.Dirname() == dir && t.Basename() == base
  {
    hide LastSlash;
    var s := t.filename;
    assert s[|dir|] == '/';
    forall i | |dir| < i < |s|
      ensures s[i] != '/'
    {
      assert s[i] == base[i - |dir| - 1];
    }
    LastSlashIs(s, |s|, |dir|);
    assert s[|dir| + 1..] == base && s[..|dir|] == dir;
  }

  /** Files at the top and names without a directory. */
  lemma TopParts(t: Traits, base: string)
    requires '/' !in base && (t.filename == "/" + base || t.filename == base)
    ensures t.Dirname() == (if t.filename == base then "." else "/") && t.Basename() == base
  {
    hide LastSlash;
    var s := t.filename;
    var k := LastSlash(s, |s|);
    if s != base {
      assert s[0] == '/' && forall i | 0 < i < |s| :: s[i] == base[i - 1];
      LastSlashIs(s, |s|, 0);
      assert s[1..] == base;
    } else if k > 0 {
      assert false;
    }
  }

  predicate IsLetter(c: char) {
    'a' <= c <= 'z' || 'A' <= c <= 'Z'
  }

  function LetterOf(c: char): string {
    if IsLetter(c) then [c] else []
  }

  lemma LettersStep(s: string)
    ensures Letters(s) == if s == [] then [] else LetterOf(s[0]) + Letters(s[1..])
  {
  }

  lemma {:induction false} LettersAppend(a: string, b: string)
    ensures Letters(a + b) == Letters(a) + Letters(b)
    decreases |a|
  {
    hide Letters, LetterOf;
    LettersStep(a);
    LettersStep(a + b);
    if a == [] {
      assert a + b == b;
    } else {
      assert (a + b)[1..] == a[1..] + b && (a + b)[0] == a[0];
      LettersAppend(a[1..], b);
      var first, rest := LetterOf(a[0]), Letters(a[1..]);
      assert first + (rest + Letters(b)) == (first + rest) + Letters(b);
    }
  }

  lemma {:induction false} LettersOf(s: string)
    ensures (forall i | 0 <= i < |s| :: !IsLetter(s[i])) ==> Letters(s) == []
    ensures (forall i | 0 <= i < |s| :: IsLetter(s[i])) ==> Letters(s) == s
  {
    if s != [] {
      LettersOf(s[1..]);
      assert s == [s[0]] + s[1..];
    }
  }

  /** Between two names with a common begin and end, the letters in the middle decide. */
  lemma SameLetters(a: Traits, b: Traits, begin: string, x: string, y: string, end: string)
    requires a.filename == begin + x + end && b.filename == begin + y + end
    ensures a.AlphaOnly() == b.AlphaOnly() <==> Letters(x) == Letters(y)
  {
    hide Letters;
    LettersAppend(begin + x, end);
    LettersAppend(begin + y, end);
    LettersAppend(begin, x);
    LettersAppend(begin, y);
    var p, q := Letters(begin), Letters(end);
    if p + Letters(x) + q == p + Letters(y) + q {
      var l := p + Letters(x) + q;
      assert Letters(x) == l[|p|..|l| - |q|] == Letters(y);
    }
  }

  lemma {:induction false} FirstDotIs(s: string, rest: string)
    requires '.' !in s
    ensures FirstDot(s + "." + rest) == Some(|s|) && FirstDot(s) == None
  {
    if s != [] {
      assert (s + "." + rest)[1..] == s[1..] + "." + rest;
      assert forall c | c in s[1..] :: c in s;
      FirstDotIs(s[1..], rest);
    }
  }

  /** The points for a common begin: the length up to the first dot of the old name, if the new one begins with that;
      none if the old name has no dot. */
  function PrefixPoints(old_: string, new_: string): nat {
    match FirstDot(old_)
    case Some(n) => if SamePrefix(old_, new_, n) then n else 0
    case None => 0
  }

  lemma PrefixPointsAre(stem: string, rest: string, new_: string)
    requires '.' !in stem
    ensures PrefixPoints(stem + "." + rest, new_) == if stem <= new_ then |stem| else 0
    ensures PrefixPoints(stem, new_) == 0
  {
    hide FirstDot;
    FirstDotIs(stem, rest);
    var s := stem + "." + rest;
    assert s[..|stem|] == stem;
  }

  function Slashes(s: string): nat {
    if s == [] then 0 else (if s[0] == '/' then 1 else 0) + Slashes(s[1..])
  }

  lemma {:induction false} SlashesAppend(a: string, b: string)
    ensures Slashes(a + b) == Slashes(a) + Slashes(b)
  {
    if a == [] {
      assert a + b == b;
    } else {
      assert (a + b)[1..] == a[1..] + b;
      SlashesAppend(a[1..], b);
    }
  }

  /** The points for a common end, as long as it goes: five for each slash in it. */
  lemma {:induction false} CommonEndIs(a: string, b: string, end: string)
    requires a == [] || b == [] || a[|a| - 1] != b[|b| - 1]
    ensures CommonEnd(a + end, |a + end|, b + end, |b + end|) == 5 * Slashes(end)
    decreases |end|
  {
    CommonEndFrom(a, b, end, |end|);
    assert end[..|end|] == end;
  }

  lemma {:induction false} CommonEndFrom(a: string, b: string, end: string, k: nat)
    requires (a == [] || b == [] || a[|a| - 1] != b[|b| - 1]) && k <= |end|
    ensures CommonEnd(a + end, |a| + k, b + end, |b| + k) == 5 * Slashes(end[..k])
    decreases k
  {
    if k == 0 {
      assert a != [] ==> (a + end)[|a| - 1] == a[|a| - 1];
      assert b != [] ==> (b + end)[|b| - 1] == b[|b| - 1];
    } else {
      CommonEndFrom(a, b, end, k - 1);
      assert (a + end)[|a| + k - 1] == end[k - 1] == (b + end)[|b| + k - 1];
      assert end[..k] == end[..k - 1] + [end[k - 1]];
      SlashesAppend(end[..k - 1], [end[k - 1]]);
      assert [end[k - 1]][1..] == [];
    }
  }

  // ----- one criterion at a time -----

  datatype Criterion = SameHash | SameDirectory | SameStem | SameBase | SameAlphabet | CommonDirectories
    | MuchLarger | MuchSmaller | SameRatio | SameType
  {
    /** The points that two files get by this criterion. */
    function Points(old_: Traits, new_: Traits): int
      requires old_.size > 0 && new_.size > 0
    {
      var d, e, b, c := old_.Dirname(), new_.Dirname(), old_.Basename(), new_.Basename();
      match this
      case SameHash => if old_.hash == new_.hash then 400 else 0
      case SameDirectory => if d == e then 10 else 0
      case SameStem => PrefixPoints(b, c)
      case SameBase => if b == c then 35 else 0
      case SameAlphabet => if Letters(old_.filename) == Letters(new_.filename) then 50 else 0
      case CommonDirectories => CommonEnd(d, |d|, e, |e|)
      case MuchLarger => if 4 * old_.size > 5 * new_.size + 4096 then -30 else 0
      case MuchSmaller => if 4 * old_.size < 3 * new_.size - 4096 then -30 else 0
      case SameRatio => if new_.size <= old_.size < 2 * new_.size then 1 else 0
      case SameType =>
        if old_.filetype.Some? && old_.filetype == new_.filetype && old_.filetype.value != "" then 0 else -60
    }
  }

  /** The two pairs get the same points by every other criterion. */
  predicate AgreeBut(c: Criterion, a: Traits, b: Traits, x: Traits, y: Traits)
    requires a.size > 0 && b.size > 0 && x.size > 0 && y.size > 0
  {
    forall k: Criterion | k != c :: k.Points(a, b) == k.Points(x, y)
  }

  lemma Times(a: nat, b: nat, n: nat)
    requires a <= b
    ensures a * n <= b * n
  {
  }

  lemma Quotient(a: nat, b: nat, q: nat)
    requires b > 0 && q * b <= a < q * b + b
    ensures a / b == q
  {
    var d := a / b;
    assert d * b <= a < d * b + b;
    if d < q {
      Times(d + 1, q, b);
    } else if d > q {
      Times(q + 1, d, b);
    }
  }

  lemma RatioIs(old_: nat, new_: nat)
    requires old_ > 0 && new_ > 0
    ensures SizeRatio(old_, new_) == if new_ <= old_ < 2 * new_ then 1 else 0
  {
    if old_ < new_ {
      Quotient(old_, new_, 0);
    } else if old_ < 2 * new_ {
      Quotient(old_, new_, 1);
    } else {
      Quotient(new_, old_, 0);
      var s := old_ / new_;
      assert old_ < s * new_ + new_;
      if s <= 1 {
        Times(s, 1, new_);
        assert false;
      }
    }
  }

  lemma AllPoints(a: Traits, b: Traits)
    requires a.size > 0 && b.size >= BSDIFF_SIZE
    ensures RenameScore(a, b) ==
      SameHash.Points(a, b) + SameDirectory.Points(a, b) + SameStem.Points(a, b) + SameBase.Points(a, b)
      + SameAlphabet.Points(a, b) + CommonDirectories.Points(a, b) + MuchLarger.Points(a, b) + MuchSmaller.Points(a, b)
      + SameRatio.Points(a, b) + SameType.Points(a, b)
  {
    hide Traits.Dirname, Traits.Basename, Letters, FirstDot, SamePrefix, CommonEnd, SizeRatio;
    RatioIs(a.size, b.size);
  }

  /** Two pairs that agree on every criterion but one have scores that differ by exactly what that one is worth. */
  lemma OneCriterion(c: Criterion, a: Traits, b: Traits, x: Traits, y: Traits)
    requires a.size > 0 && x.size > 0 && b.size >= BSDIFF_SIZE && y.size >= BSDIFF_SIZE && AgreeBut(c, a, b, x, y)
    ensures RenameScore(a, b) - RenameScore(x, y) == c.Points(a, b) - c.Points(x, y)
  {
    hide RenameScore, Criterion.Points;
    AllPoints(a, b);
    AllPoints(x, y);
  }

  /** The score in terms of the two paths, for files of one size and type: 400 points for equal contents, 10 for
      the same directory, the length of the common stem, 35 for the same basename, 50 for the same letters, 5 for
      each directory in the common end, and 1 for the size. */
  lemma ScoreOfNames(old_: Traits, new_: Traits, dirs: (string, string), bases: (string, string),
      begins: (string, string), end: string)
    requires old_.filename == dirs.0 + "/" + bases.0 && new_.filename == dirs.1 + "/" + bases.1
    requires dirs.0 != "" && dirs.1 != "" && '/' !in bases.0 && '/' !in bases.1
    requires dirs.0 == begins.0 + end && dirs.1 == begins.1 + end
    requires var (p, q) := begins; p == "" || q == "" || p[|p| - 1] != q[|q| - 1]
    requires old_.size == new_.size >= BSDIFF_SIZE
    requires old_.filetype.Some? && old_.filetype == new_.filetype && old_.filetype.value != ""
    ensures RenameScore(old_, new_) ==
      (if old_.hash == new_.hash then 400 else 0)
      + (if dirs.0 == dirs.1 then 10 else 0)
      + PrefixPoints(bases.0, bases.1)
      + (if bases.0 == bases.1 then 35 else 0)
      + (if Letters(dirs.0 + "/" + bases.0) == Letters(dirs.1 + "/" + bases.1) then 50 else 0)
      + 5 * Slashes(end)
      + 1
  {
    hide RenameScore, Letters, FirstDot, SamePrefix, PrefixPoints, CommonEnd, LastSlash, Traits.Dirname,
      Traits.Basename, Slashes;
    AllPoints(old_, new_);
    NameParts(old_, dirs.0, bases.0);
    NameParts(new_, dirs.1, bases.1);
    CommonEndIs(begins.0, begins.1, end);
  }

  lemma SameNames(a: Traits, x: Traits, b: Traits, y: Traits)
    requires a.filename == x.filename && b.filename == y.filename
    ensures NameScore(a, b) == NameScore(x, y)
  {
    hide Letters, FirstDot, SamePrefix, CommonEnd, LastSlash;
  }

  /** What other sizes cost: 30 points if the old file is more than a quarter and 1024 bytes larger than the new one,
      30 if it is that much smaller, and the point for the size unless the old one is at least as large and less than
      twice as large; and an old file without contents, or a new one that is too small, never qualifies. */
  lemma OtherSizes(old_: Traits, new_: Traits, size: nat)
    requires old_.size == new_.size
    ensures var other := old_.(size := size);
      RenameScore(other, new_) ==
        if new_.size < BSDIFF_SIZE then -99
        else if size == 0 then -100
        else
          RenameScore(old_, new_) - 1
          - (if 4 * size > 5 * new_.size + 4096 then 30 else 0)
          - (if 4 * size < 3 * new_.size - 4096 then 30 else 0)
          + (if new_.size <= size < 2 * new_.size then 1 else 0)
  {
    hide NameScore, SizeRatio;
    if new_.size >= BSDIFF_SIZE && size > 0 {
      RatioIs(size, new_.size);
      RatioIs(new_.size, new_.size);
      SameNames(old_, old_.(size := size), new_, new_);
    }
  }

  /** A type that is not known to be the same costs 60. */
  lemma OtherType(old_: Traits, new_: Traits, filetype: Option<string>)
    requires old_.size > 0 && new_.size >= BSDIFF_SIZE
    requires old_.filetype.Some? && old_.filetype == new_.filetype && old_.filetype.value != ""
    ensures filetype != old_.filetype ==>
      RenameScore(old_.(filetype := filetype), new_) == RenameScore(old_, new_) - 60
    ensures RenameScore(old_.(filetype := None), new_.(filetype := None)) == RenameScore(old_, new_) - 60
    ensures RenameScore(old_.(filetype := Some("")), new_.(filetype := Some(""))) == RenameScore(old_, new_) - 60
  {
    hide NameScore, SizeScore;
    SameNames(old_, old_.(filetype := filetype), new_, new_);
    SameNames(old_, old_.(filetype := None), new_, new_.(filetype := None));
    SameNames(old_, old_.(filetype := Some("")), new_, new_.(filetype := Some("")));
  }

  /** A file whose path changes in digits and punctuation only is renamed, whatever its new contents. */
  lemma RenumberedFileQualifies(old_: Traits, new_: Traits, begin: string, x: string, y: string, end: string)
    requires old_.filename == begin + x + end && new_.filename == begin + y + end
    requires forall i | 0 <= i < |x| :: !IsLetter(x[i])
    requires forall i | 0 <= i < |y| :: !IsLetter(y[i])
    requires old_.size == new_.size >= BSDIFF_SIZE
    requires old_.filetype.Some? && old_.filetype == new_.filetype && old_.filetype.value != ""
    ensures RenameScore(old_, new_) >= 51 > ENOUGH
  {
    hide Letters, FirstDot, SamePrefix, CommonEnd, LastSlash, Traits.Dirname, Traits.Basename, SizeRatio;
    LettersOf(x);
    LettersOf(y);
    SameLetters(old_, new_, begin, x, y, end);
    RatioIs(old_.size, new_.size);
  }

  /** `rename_score` as it is written: the points are added up in a loop over the directories. */
  method ComputeRenameScore(old_: Traits, new_: Traits) returns (score: int)
    ensures score == RenameScore(old_, new_)
  {
    hide LastSlash, Letters, FirstDot, SamePrefix, Traits.Dirname, Traits.Basename, Traits.AlphaOnly, SizeRatio,
      SameFileType;
    score := 0;
    if old_.hash == new_.hash {
      score := score + 400;
    }
    if new_.size < BSDIFF_SIZE {
      return -99;
    }
    if old_.Dirname() == new_.Dirname() {
      score := score + 10;
    }
    var c := FirstDot(old_.Basename());
    if c.Some? && SamePrefix(old_.Basename(), new_.Basename(), c.value) {
      score := score + c.value;
    }
    if old_.Basename() == new_.Basename() {
      score := score + 35;
    }
    if old_.AlphaOnly() == new_.AlphaOnly() {
      score := score + 50;
    }
    var a, b := old_.Dirname(), new_.Dirname();
    var io, in_ := |a|, |b|;
    ghost var before := score;
    while io > 0 && in_ > 0 && a[io - 1] == b[in_ - 1]
      invariant 0 <= io <= |a| && 0 <= in_ <= |b|
      invariant score + CommonEnd(a, io, b, in_) == before + CommonEnd(a, |a|, b, |b|)
    {
      if a[io - 1] == '/' {
        score := score + 5;
      }
      io, in_ := io - 1, in_ - 1;
    }
    if old_.size as real > new_.size as real * 1.25 + 1024.0 {
      score := score - 30;
    }
    if (old_.size as real) < new_.size as real * 0.75 - 1024.0 {
      score := score - 30;
    }
    if old_.size == 0 || new_.size == 0 {
      return -100;
    }
    score := score + SizeRatio(old_.size, new_.size);
    if !SameFileType(old_.filetype, new_.filetype) {
      score := score - 60;
    }
  }
}
