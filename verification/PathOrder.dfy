/**
  The order in which lines of a file list are sorted: by directory, subdirectories before the
  files of the directory itself, with a leading '-' ignored.  The comparison is not always
  transitive; this module says exactly when it is.
 */
module PathOrder {

  /** Lines are sequences of code points. */
  type Code = c: int | 0 <= c < 0x11_0000
  type Line = seq<Code>

  const SLASH: Code := 47
  const DASH: Code := 45

  /** Dictionary order, as a sign; the plain comparison of two lines. */
  function Lex(a: seq<int>, b: seq<int>): int {
    if a == [] then (if b == [] then 0 else -1)
    else if b == [] then 1
    else if a[0] < b[0] then -1
    else if a[0] > b[0] then 1
    else Lex(a[1..], b[1..])
  }

  function Strip(s: Line): Line { if s != [] && s[0] == DASH then s[1..] else s }

  /** The length of a line up to and with its last slash. */
  function Cut(x: Line): (n: nat)
    ensures n <= |x| && (n > 0 ==> x[n - 1] == SLASH) && forall i :: n <= i < |x| ==> x[i] != SLASH
  {
    if x == [] then 0 else if x[|x| - 1] == SLASH then |x| else Cut(x[..|x| - 1])
  }

  function Dir(x: Line): Line { if Cut(x) == 0 then x + [SLASH] else x[..Cut(x)] }

  predicate StartsWith(a: Line, b: Line) { |b| <= |a| && a[..|b|] == b }

  /** The comparison of two stripped lines. */
  function CompareStripped(x: Line, y: Line): int {
    if Cut(x) == 0 && Cut(y) == 0 then Lex(x, y)
    else if Dir(x) == Dir(y) then Lex(x, y)
    else if StartsWith(Dir(x), Dir(y)) then -1
    else if StartsWith(Dir(y), Dir(x)) then 1
    else Lex(x, y)
  }

  function Compare(s: Line, t: Line): int {
    if s == [] || t == [] then Lex(s, t) else CompareStripped(Strip(s), Strip(t))
  }

  /* ---- Dictionary order ---- */

  lemma {:induction false} LexSwaps(a: seq<int>, b: seq<int>)
    ensures Lex(a, b) == -Lex(b, a)
    ensures Lex(a, b) == 0 <==> a == b
  {
    if a != [] && b != [] {
      LexSwaps(a[1..], b[1..]);
      assert a == [a[0]] + a[1..] && b == [b[0]] + b[1..];
    }
  }

  lemma {:induction false} LexTransitive(a: seq<int>, b: seq<int>, c: seq<int>)
    requires Lex(a, b) <= 0 && Lex(b, c) <= 0
    ensures Lex(a, c) <= 0
  {
    if a != [] && b != [] && c != [] && a[0] == b[0] == c[0] { LexTransitive(a[1..], b[1..], c[1..]); }
  }

  lemma {:induction false} LexPrefix(p: seq<int>, a: seq<int>, b: seq<int>)
    ensures Lex(p + a, p + b) == Lex(a, b)
  {
    if p == [] {
      assert p + a == a && p + b == b;
    } else {
      assert (p + a)[1..] == p[1..] + a && (p + b)[1..] == p[1..] + b;
      LexPrefix(p[1..], a, b);
    }
  }

  /** Where two sequences first differ decides. */
  lemma {:induction false} LexDecided(a: seq<int>, b: seq<int>, k: nat)
    requires k < |a| && k < |b| && a[..k] == b[..k] && a[k] != b[k]
    ensures Lex(a, b) == if a[k] < b[k] then -1 else 1
  {
    if k > 0 {
      assert a[0] == a[..k][0] == b[..k][0];
      assert a[1..][..k - 1] == a[..k][1..] && b[1..][..k - 1] == b[..k][1..];
      LexDecided(a[1..], b[1..], k - 1);
    }
  }

  lemma {:induction false} LexShorter(a: seq<int>, b: seq<int>)
    requires |a| < |b| && b[..|a|] == a
    ensures Lex(a, b) == -1
  {
    if a != [] {
      assert a[0] == b[..|a|][0];
      assert b[1..][..|a| - 1] == b[..|a|][1..];
      LexShorter(a[1..], b[1..]);
    }
  }

  lemma {:induction false} FirstDifference(a: seq<int>, b: seq<int>) returns (k: nat)
    ensures k <= |a| && k <= |b| && a[..k] == b[..k] && (k < |a| && k < |b| ==> a[k] != b[k])
  {
    if a == [] || b == [] || a[0] != b[0] {
      k := 0;
    } else {
      k := FirstDifference(a[1..], b[1..]);
      assert a[..k + 1] == [a[0]] + a[1..][..k] && b[..k + 1] == [b[0]] + b[1..][..k];
      k := k + 1;
    }
  }

  /* ---- Keys ---- */

  const AFTER_SUBDIRS := 0x11_0000
  const FILES := 0x11_0001

  /** `y` lies in a proper subdirectory of the directory named `x`. */
  predicate Below(y: Line, x: Line) { |x| + 1 < Cut(y) && y[..|x| + 1] == x + [SLASH] }

  /** `y` begins with `x` and goes on with something that sorts before a slash. */
  predicate Between(y: Line, x: Line) { |x| < |y| && y[..|x|] == x && y[|x|] < SLASH }

  ghost predicate HasSubdir(lines: set<Line>, x: Line) {
    exists t :: t in lines && t != [] && Below(Strip(t), x)
  }

  /** What makes the comparison circular: a line without a slash, a line in a proper subdirectory
      of the directory of that name, and a line that sorts between the two. */
  ghost predicate Circular(lines: set<Line>) {
    exists s, u :: s in lines && u in lines && s != [] && u != []
      && Cut(Strip(s)) == 0 && HasSubdir(lines, Strip(s)) && Between(Strip(u), Strip(s))
  }

  /** The directory, then a sign beyond all others, then the base name.  A name without a slash
      stands as it is, or behind the subdirectories of its name if there are any. */
  ghost function StrippedKey(lines: set<Line>, x: Line): seq<int> {
    if Cut(x) > 0 then x[..Cut(x)] + [FILES] + x[Cut(x)..]
    else if HasSubdir(lines, x) then x + [SLASH, AFTER_SUBDIRS]
    else x
  }

  ghost function Key(lines: set<Line>, s: Line): seq<int> {
    if s == [] then [] else [0] + StrippedKey(lines, Strip(s))
  }

  lemma FirstSlash(x: Line, i: nat)
    requires i < |x| && x[i] == SLASH
    ensures Cut(x) > i
  {}

  lemma NoSlashBefore(x: Line, y: Line, k: nat)
    requires Cut(x) == 0 && Cut(y) > 0 && k <= |x| && k <= |y| && x[..k] == y[..k]
    ensures Cut(y) > k
  {
    SameAt(x, y, k, Cut(y) - 1);
  }

  lemma SameAt(x: Line, y: Line, k: nat, i: nat)
    requires k <= |x| && k <= |y| && x[..k] == y[..k]
    ensures i < k ==> x[i] == y[i]
  {
    if i < k { assert x[..k][i] == y[..k][i]; }
  }

  lemma StartsAt(a: Line, b: Line, k: nat)
    requires k < |b|
    ensures StartsWith(a, b) ==> k < |a| && a[k] == b[k]
  {
    if StartsWith(a, b) { assert a[..|b|][k] == b[k]; }
  }

  lemma SlashedLaw(lines: set<Line>, x: Line, y: Line)
    requires Cut(x) > 0 && Cut(y) > 0
    ensures CompareStripped(x, y) == Lex(StrippedKey(lines, x), StrippedKey(lines, y))
  {
    var dx, dy := x[..Cut(x)], y[..Cut(y)];
    var ex, ey := x[Cut(x)..], y[Cut(y)..];
    var kx, ky := dx + [FILES] + ex, dy + [FILES] + ey;
    assert x == dx + ex && y == dy + ey;
    var k := FirstDifference(dx, dy);
    assert kx[..k] == dx[..k] && ky[..k] == dy[..k];
    if k == |dx| == |dy| {
      assert dx == dx[..k] == dy[..k] == dy;
      LexPrefix(dx, ex, ey);
      LexPrefix(dx + [FILES], ex, ey);
    } else if k == |dy| {
      assert dy == dy[..k] && StartsWith(dx, dy) && dx != dy;
      LexDecided(kx, ky, k);
    } else if k == |dx| {
      assert dx == dx[..k] && StartsWith(dy, dx) && dx != dy;
      assert !StartsWith(dx, dy);
      LexDecided(kx, ky, k);
    } else {
      StartsAt(dx, dy, k);
      StartsAt(dy, dx, k);
      assert x[..k] == dx[..k] && y[..k] == dy[..k];
      LexDecided(x, y, k);
      LexDecided(kx, ky, k);
    }
  }

  /** A line without a slash against one that goes on after it. */
  lemma ExtendedLaw(lines: set<Line>, x: Line, ky: seq<int>, c: Code)
    requires Cut(x) == 0 && |x| < |ky| && ky[..|x|] == x && ky[|x|] == c && c != SLASH
    requires c < SLASH ==> !HasSubdir(lines, x)
    ensures Lex(StrippedKey(lines, x), ky) == -1
  {
    if HasSubdir(lines, x) {
      var kx := x + [SLASH, AFTER_SUBDIRS];
      assert kx[..|x|] == x;
      LexDecided(kx, ky, |x|);
    } else {
      LexShorter(x, ky);
    }
  }

  lemma PlainLaw(lines: set<Line>, x: Line, y: Line)
    requires Cut(x) == 0 && Cut(y) == 0
    requires Between(y, x) ==> !HasSubdir(lines, x)
    requires Between(x, y) ==> !HasSubdir(lines, y)
    ensures CompareStripped(x, y) == Lex(StrippedKey(lines, x), StrippedKey(lines, y))
  {
    var kx, ky := StrippedKey(lines, x), StrippedKey(lines, y);
    assert kx[..|x|] == x && ky[..|y|] == y;
    var k := FirstDifference(x, y);
    assert kx[..k] == x[..k] && ky[..k] == y[..k];
    if k == |x| == |y| {
      assert x == x[..k] == y[..k] == y;
      LexSwaps(kx, kx);
      LexSwaps(x, x);
    } else if k == |x| {
      assert x == x[..k];
      assert ky[k] == y[k];
      ExtendedLaw(lines, x, ky, y[k]);
      LexShorter(x, y);
    } else if k == |y| {
      assert y == y[..k];
      assert kx[k] == x[k];
      ExtendedLaw(lines, y, kx, x[k]);
      LexSwaps(kx, ky);
      LexShorter(y, x);
      LexSwaps(x, y);
    } else {
      assert kx[k] == x[k] && ky[k] == y[k];
      LexDecided(x, y, k);
      LexDecided(kx, ky, k);
    }
  }

  lemma MixedLaw(lines: set<Line>, x: Line, y: Line)
    requires Cut(x) == 0 && Cut(y) > 0
    requires Between(y, x) ==> !HasSubdir(lines, x)
    requires Below(y, x) ==> HasSubdir(lines, x)
    ensures CompareStripped(x, y) == Lex(StrippedKey(lines, x), StrippedKey(lines, y))
  {
    var kx, ky := StrippedKey(lines, x), StrippedKey(lines, y);
    var k := FirstDifference(x, y);
    NoSlashBefore(x, y, k);
    assert Dir(y) == y[..Cut(y)] && Dir(x) == x + [SLASH];
    assert ky[..k] == y[..k] && ky[k] == y[k] && kx[..k] == x[..k];
    if k < |x| {
      MixedApart(x, y, k);
      assert kx[k] == x[k];
      LexDecided(x, y, k);
      LexDecided(kx, ky, k);
    } else {
      assert x[..k] == x;
      LexShorter(x, y);
      if y[k] != SLASH {
        MixedApart(x, y, k);
        ExtendedLaw(lines, x, ky, y[k]);
      } else {
        MixedInside(lines, x, y);
      }
    }
  }

  /** Directories that differ at `k` are not one inside the other. */
  lemma MixedApart(x: Line, y: Line, k: nat)
    requires Cut(x) == 0 && Cut(y) > k && k <= |x| && (x + [SLASH])[k] != y[k]
    ensures CompareStripped(x, y) == Lex(x, y)
  {
    var dx, dy := Dir(x), Dir(y);
    assert dx[k] != dy[k];
    StartsAt(dx, dy, k);
    StartsAt(dy, dx, k);
  }

  /** A line inside the directory named `x`: a file there comes after it, a file further down
      before it. */
  lemma InsideCompares(x: Line, y: Line)
    requires Cut(x) == 0 && |x| < Cut(y) && y[..|x|] == x && y[|x|] == SLASH
    ensures CompareStripped(x, y) == if Cut(y) == |x| + 1 then -1 else 1
    ensures Below(y, x) <==> Cut(y) != |x| + 1
    ensures y[..|x| + 1] == x + [SLASH]
  {
    var dx, dy := Dir(x), Dir(y);
    assert y[..|x| + 1] == x + [SLASH] == dx;
    assert dy[..|x| + 1] == y[..|x| + 1];
    LexShorter(x, y);
    assert StartsWith(dy, dx);
  }

  lemma InsideKeys(x: Line, y: Line, kx: seq<int>, ky: seq<int>)
    requires |x| < Cut(y) && y[..|x| + 1] == x + [SLASH] && ky == y[..Cut(y)] + [FILES] + y[Cut(y)..]
    requires kx == x + [SLASH, AFTER_SUBDIRS]
    ensures Lex(kx, ky) == if Cut(y) == |x| + 1 then -1 else 1
  {
    var n := |x| + 1;
    assert ky[..n] == y[..n] && kx[..n] == x + [SLASH] && kx[n] == AFTER_SUBDIRS;
    assert ky[n] == if Cut(y) == n then FILES else y[n];
    LexDecided(kx, ky, n);
  }

  lemma MixedInside(lines: set<Line>, x: Line, y: Line)
    requires Cut(x) == 0 && |x| < Cut(y) && y[..|x|] == x && y[|x|] == SLASH
    requires Below(y, x) ==> HasSubdir(lines, x)
    ensures CompareStripped(x, y) == Lex(StrippedKey(lines, x), StrippedKey(lines, y))
  {
    InsideCompares(x, y);
    var ky := y[..Cut(y)] + [FILES] + y[Cut(y)..];
    if HasSubdir(lines, x) {
      InsideKeys(x, y, x + [SLASH, AFTER_SUBDIRS], ky);
    } else {
      assert ky[..|x|] == y[..|x|];
      LexShorter(x, ky);
    }
  }

  lemma CompareSwaps(s: Line, t: Line)
    ensures Compare(s, t) == -Compare(t, s)
  {
    LexSwaps(s, t);
    LexSwaps(Strip(s), Strip(t));
    if StartsWith(Dir(Strip(s)), Dir(Strip(t))) && StartsWith(Dir(Strip(t)), Dir(Strip(s))) {
      assert Dir(Strip(s)) == Dir(Strip(s))[..|Dir(Strip(t))|] == Dir(Strip(t));
    }
  }

  /** A leading '-' is ignored, in either line. */
  lemma DashIsIgnored(s: Line, t: Line)
    requires s != [] && s[0] != 45 && t != [] && t[0] != 45
    ensures Compare([45] + s, t) == Compare(s, t) == Compare(s, [45] + t) == Compare([45] + s, [45] + t)
  {
    assert ([45] + s)[1..] == s && ([45] + t)[1..] == t;
  }

  /** Unless the lines are circular, comparing lines is comparing their keys. */
  lemma KeyLaw(lines: set<Line>, s: Line, t: Line)
    requires s in lines && t in lines && !Circular(lines)
    ensures Compare(s, t) == Lex(Key(lines, s), Key(lines, t))
  {
    if s != [] && t != [] {
      var x, y := Strip(s), Strip(t);
      LexPrefix([0], StrippedKey(lines, x), StrippedKey(lines, y));
      if Cut(x) > 0 && Cut(y) > 0 {
        SlashedLaw(lines, x, y);
      } else if Cut(x) == 0 && Cut(y) == 0 {
        PlainLaw(lines, x, y);
      } else if Cut(x) == 0 {
        MixedLaw(lines, x, y);
      } else {
        MixedLaw(lines, y, x);
        CompareSwaps(s, t);
        LexSwaps(StrippedKey(lines, x), StrippedKey(lines, y));
      }
    }
  }

  /* ---- When the comparison is an order ---- */

  ghost predicate Transitive(lines: set<Line>) {
    forall a, b, c :: a in lines && b in lines && c in lines && Compare(a, b) <= 0 && Compare(b, c) <= 0 ==>
      Compare(a, c) <= 0
  }

  lemma CircleShows(s: Line, t: Line, u: Line)
    requires s != [] && t != [] && u != []
    requires Cut(Strip(s)) == 0 && Below(Strip(t), Strip(s)) && Between(Strip(u), Strip(s))
    ensures Compare(t, s) == -1 && Compare(s, u) == -1 && Compare(t, u) == 1
  {
    var x, y, z := Strip(s), Strip(t), Strip(u);
    var k := |x|;
    assert Dir(x) == x + [SLASH];
    assert StartsWith(Dir(y), Dir(x)) && Dir(x) != Dir(y) by { assert Dir(y)[..k + 1] == y[..k + 1]; }
    LexShorter(x, z);
    assert y[..k] == y[..k + 1][..k] == x && y[k] == y[..k + 1][k] == SLASH;
    LexDecided(y, z, k);
    if Cut(z) > 0 {
      NoSlashBefore(x, z, k);
      MixedApart(x, z, k);
    }
    assert Dir(z)[k] == z[k] && Dir(y)[k] == SLASH;
    StartsAt(Dir(y), Dir(z), k);
    StartsAt(Dir(z), Dir(y), k);
  }

  /** The comparison is a total preorder on a set of lines exactly when they are not circular. */
  lemma OrderIff(lines: set<Line>)
    ensures Transitive(lines) <==> !Circular(lines)
    ensures forall a, b :: a in lines && b in lines ==> Compare(a, b) == -Compare(b, a)
  {
    forall a, b | a in lines && b in lines ensures Compare(a, b) == -Compare(b, a) {
      CompareSwaps(a, b);
    }
    if Circular(lines) {
      var s, u :| s in lines && u in lines && s != [] && u != []
        && Cut(Strip(s)) == 0 && HasSubdir(lines, Strip(s)) && Between(Strip(u), Strip(s));
      var t :| t in lines && t != [] && Below(Strip(t), Strip(s));
      CircleShows(s, t, u);
    } else {
      forall a, b, c | a in lines && b in lines && c in lines && Compare(a, b) <= 0 && Compare(b, c) <= 0
        ensures Compare(a, c) <= 0
      {
        KeyLaw(lines, a, b);
        KeyLaw(lines, b, c);
        KeyLaw(lines, a, c);
        LexTransitive(Key(lines, a), Key(lines, b), Key(lines, c));
      }
    }
  }

  /** Directory, sign, base name: the key of a line with a slash, whatever the other lines. */
  function PathKey(s: Line): seq<int> {
    if s == [] then []
    else
      var x := Strip(s);
      [0] + (x[..Cut(x)] + [FILES] + x[Cut(x)..])
  }

  ghost predicate Paths(lines: set<Line>) { forall s :: s in lines ==> s == [] || Cut(Strip(s)) > 0 }

  /** On lines that are empty or hold a slash, the comparison is dictionary order by directory,
      then by base name, and so a total preorder. */
  lemma PathsAreOrdered(lines: set<Line>, a: Line, b: Line)
    requires Paths(lines) && a in lines && b in lines
    ensures Compare(a, b) == Lex(PathKey(a), PathKey(b))
    ensures Transitive(lines)
  {
    assert !Circular(lines);
    KeyLaw(lines, a, b);
    PathKeyIsKey(lines, a);
    PathKeyIsKey(lines, b);
    OrderIff(lines);
  }

  lemma PathKeyIsKey(lines: set<Line>, s: Line)
    requires s == [] || Cut(Strip(s)) > 0
    ensures PathKey(s) == Key(lines, s)
  {}

  /** The lines "a/b/c", "a" and "a-b/f" go round in a circle. */
  lemma CircleExample()
    ensures Compare([97, 47, 98, 47, 99], [97]) == -1
    ensures Compare([97], [97, 45, 98, 47, 102]) == -1
    ensures Compare([97, 45, 98, 47, 102], [97, 47, 98, 47, 99]) == -1
  {
    var y: Line, x: Line, z: Line := [97, 47, 98, 47, 99], [97], [97, 45, 98, 47, 102];
    FirstSlash(y, 3);
    assert y[..2] == x + [SLASH];
    assert z[..1] == x;
    CircleShows(x, y, z);
    CompareSwaps(y, z);
  }
}
