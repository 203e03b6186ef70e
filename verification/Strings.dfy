/** C strings as `strcmp` sees them, and the arithmetic of two cursors that walk two sorted name lists. */
module Strings {
  import opened Sorting

  /** The sign of `strcmp(a, b)`. */
  function Strcmp(a: string, b: string): (r: int)
    ensures -1 <= r <= 1
    ensures r == 0 <==> a == b
  {
    if a == [] then (if b == [] then 0 else -1)
    else if b == [] then 1
    else if a[0] < b[0] then -1
    else if a[0] > b[0] then 1
    else
      assert a == [a[0]] + a[1..] && b == [b[0]] + b[1..];
      Strcmp(a[1..], b[1..])
  }

  predicate Less(a: string, b: string) {
    Strcmp(a, b) < 0
  }

  /** The first position where the two differ decides, and a string comes after those that it continues. */
  lemma {:induction false} LessIs(a: string, b: string, k: nat)
    requires k <= |a| && k <= |b| && a[..k] == b[..k] && (k < |a| && k < |b| ==> a[k] != b[k])
    ensures Less(a, b) <==> k < |b| && (k == |a| || a[k] < b[k])
    decreases k
  {
    if k > 0 {
      assert a[0] == a[..k][0] == b[..k][0] == b[0];
      assert a[1..][..k - 1] == a[..k][1..] && b[1..][..k - 1] == b[..k][1..];
      LessIs(a[1..], b[1..], k - 1);
    }
  }

  lemma {:induction false} Antisymmetric(a: string, b: string)
    ensures Strcmp(a, b) == -Strcmp(b, a)
  {
    if a != [] && b != [] && a[0] == b[0] {
      Antisymmetric(a[1..], b[1..]);
    }
  }

  lemma {:induction false} Transitive(a: string, b: string, c: string)
    requires Strcmp(a, b) <= 0 && Strcmp(b, c) <= 0
    ensures Strcmp(a, c) <= 0
    ensures Less(a, b) || Less(b, c) ==> Less(a, c)
  {
    if a != [] && b != [] && c != [] && a[0] == b[0] == c[0] {
      Transitive(a[1..], b[1..], c[1..]);
    }
  }

  /** `strcmp` as an order to sort by. */
  predicate StringLe(a: string, b: string) {
    Strcmp(a, b) <= 0
  }

  lemma StringLeIsTotal()
    ensures TotalPreorder(StringLe)
  {
    forall x, y
      ensures StringLe(x, y) || StringLe(y, x)
    {
      Antisymmetric(x, y);
    }
    forall x, y, z | StringLe(x, y) && StringLe(y, z)
      ensures StringLe(x, z)
    {
      Transitive(x, y, z);
    }
  }

  /** Strictly increasing, hence without duplicates. */
  predicate Ascending(names: seq<string>) {
    forall i, j | 0 <= i < j < |names| :: Less(names[i], names[j])
  }

  /** Everything one cursor has passed is smaller than everything the other still has to visit. */
  predicate Frontier(a: seq<string>, i: nat, b: seq<string>, j: nat) {
    && i <= |a| && j <= |b|
    && (forall x, y | 0 <= x < i && j <= y < |b| :: Less(a[x], b[y]))
    && (forall x, y | i <= x < |a| && 0 <= y < j :: Less(b[y], a[x]))
  }

  /** The names the two cursors have passed. */
  ghost function Passed(a: seq<string>, i: nat, b: seq<string>, j: nat): set<string>
    requires i <= |a| && j <= |b|
  {
    (set x | 0 <= x < i :: a[x]) + (set y | 0 <= y < j :: b[y])
  }

  /** Two cursors on two strictly sorted name lists, and the names they have passed. */
  ghost predicate Walk(a: seq<string>, i: nat, b: seq<string>, j: nat, passed: set<string>) {
    Ascending(a) && Ascending(b) && Frontier(a, i, b, j) && passed == Passed(a, i, b, j)
  }

  lemma WalkStart(a: seq<string>, b: seq<string>)
    requires Ascending(a) && Ascending(b)
    ensures Walk(a, 0, b, 0, {})
  {
  }

  lemma WalkSymmetric(a: seq<string>, i: nat, b: seq<string>, j: nat, passed: set<string>)
    requires Walk(a, i, b, j, passed)
    ensures Walk(b, j, a, i, passed)
  {
  }

  /** A name at a cursor has not been passed. */
  lemma WalkApart(a: seq<string>, i: nat, b: seq<string>, j: nat, passed: set<string>)
    requires Walk(a, i, b, j, passed)
    ensures i < |a| ==> a[i] !in passed
    ensures j < |b| ==> b[j] !in passed
  {
  }

  /** Both names are equal: both cursors move. */
  lemma WalkBoth(a: seq<string>, i: nat, b: seq<string>, j: nat, passed: set<string>)
    requires Walk(a, i, b, j, passed)
    requires i < |a| && j < |b| && a[i] == b[j]
    ensures Walk(a, i + 1, b, j + 1, passed + {a[i]})
  {
  }

  /** The left name is smaller, or the right list is used up: only the left cursor moves,
      and the name it passes does not occur on the right. */
  lemma WalkLeft(a: seq<string>, i: nat, b: seq<string>, j: nat, passed: set<string>)
    requires Walk(a, i, b, j, passed)
    requires i < |a| && (j < |b| ==> Less(a[i], b[j]))
    ensures a[i] !in b && Walk(a, i + 1, b, j, passed + {a[i]})
  {
    forall y | j <= y < |b|
      ensures Less(a[i], b[y])
    {
      if j < y {
        Transitive(a[i], b[j], b[y]);
      }
    }
  }

  lemma WalkRight(a: seq<string>, i: nat, b: seq<string>, j: nat, passed: set<string>)
    requires Walk(a, i, b, j, passed)
    requires j < |b| && (i < |a| ==> Less(b[j], a[i]))
    ensures b[j] !in a && Walk(a, i, b, j + 1, passed + {b[j]})
  {
    WalkSymmetric(a, i, b, j, passed);
    WalkLeft(b, j, a, i, passed);
    WalkSymmetric(b, j + 1, a, i, passed + {b[j]});
  }

  lemma WalkEnd(a: seq<string>, b: seq<string>, passed: set<string>)
    requires Walk(a, |a|, b, |b|, passed)
    ensures forall n :: n in passed <==> n in a || n in b
  {
  }

  /** One list is used up: what was not passed of the other does not occur in it. */
  lemma WalkRest(a: seq<string>, b: seq<string>, j: nat, passed: set<string>)
    requires Walk(a, |a|, b, j, passed)
    ensures forall n :: n in a ==> n in passed
  {
  }
}
