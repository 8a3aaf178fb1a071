/** Keep-both: moving incoming entries that clash aside, whole folders with everything under them. */
module KeepBoth {
  import opened Classify

  // ---- numbered names ----

  function Digit(d: nat): char
    requires d < 10
  {
    '0' + d as char
  }

  function Decimal(n: nat): (r: string)
    ensures |r| >= if n < 10 then 1 else 2
  {
    if n < 10 then [Digit(n)] else Decimal(n / 10) + [Digit(n % 10)]
  }

  /** The suffix from the last dot on, or nothing when there is no dot. */
  function Ext(base: Name): (ext: Name)
    ensures |ext| <= |base| && base[|base| - |ext|..] == ext
  {
    if base == "" then ""
    else if base[|base| - 1] == '.' then "."
    else
      var front := Ext(base[..|base| - 1]);
      if front == "" then "" else front + [base[|base| - 1]]
  }

  /** Stem and extension; a name that is all extension counts as all stem. */
  function Split(base: Name): (Name, Name) {
    var ext := Ext(base);
    var stem := base[..|base| - |ext|];
    if stem == "" then (base, "") else (stem, ext)
  }

  function Numbered(stem: Name, n: nat, ext: Name): Name {
    stem + " (" + Decimal(n) + ")" + ext
  }

  /** A different number is a different name on this filesystem. */
  ghost predicate NumbersApart(key: Name -> Name) {
    forall stem, ext, m, n :: m != n ==> key(Numbered(stem, m, ext)) != key(Numbered(stem, n, ext))
  }

  /** The candidate spelling number n, beside the original. */
  function Candidate(rel: Path, n: nat): Path
    requires rel != []
  {
    var (stem, ext) := Split(rel[|rel| - 1]);
    rel[..|rel| - 1] + [Numbered(stem, n, ext)]
  }

  lemma CandidatesApart(key: Name -> Name, rel: Path, m: nat, n: nat)
    requires rel != [] && NumbersApart(key) && m != n
    ensures Keys(key, Candidate(rel, m)) != Keys(key, Candidate(rel, n))
  {
    assert Keys(key, Candidate(rel, m))[|rel| - 1] != Keys(key, Candidate(rel, n))[|rel| - 1];
  }

  /** This spelling is spoken for, in this transfer or on disk. */
  predicate Used(r: Site, taken: set<Path>, path: Path) {
    Keys(r.key, path) in taken || Exists(r, path)
  }

  /** Only finitely many names are used, so a search through distinct ones meets a free name. */
  lemma {:induction false} Pigeonhole(key: Name -> Name, rel: Path, used: set<Path>, n: nat)
    requires rel != [] && NumbersApart(key)
    requires forall m: nat :: 0 < m <= n ==> Keys(key, Candidate(rel, m)) in used
    ensures n <= |used|
    decreases n
  {
    if n > 0 {
      var last := Keys(key, Candidate(rel, n));
      forall m: nat | 0 < m <= n - 1
        ensures Keys(key, Candidate(rel, m)) in used - {last}
      {
        CandidatesApart(key, rel, m, n);
      }
      Pigeonhole(key, rel, used - {last}, n - 1);
    }
  }

  lemma SearchEnds(r: Site, rel: Path, taken: set<Path>, n: nat)
    requires rel != [] && NumbersApart(r.key)
    requires forall m: nat :: 0 < m <= n ==> Used(r, taken, Candidate(rel, m))
    ensures n <= |taken + r.disk.Keys|
  {
    hide Candidate, NumbersApart;
    forall m: nat | 0 < m <= n
      ensures Keys(r.key, Candidate(rel, m)) in taken + r.disk.Keys
    {
      assert Used(r, taken, Candidate(rel, m));
    }
    Pigeonhole(r.key, rel, taken + r.disk.Keys, n);
  }

  /**
   * The first numbered spelling free both in this transfer and on disk. The
   * search ends: distinct numbers are distinct names, and only finitely many
   * names are used.
   */
  method FreeName(r: Site, rel: Path, taken: set<Path>) returns (cand: Path, taken': set<Path>, ghost n: nat)
    requires rel != [] && NumbersApart(r.key)
    ensures n > 0 && cand == Candidate(rel, n) && !Used(r, taken, cand)
    ensures forall m: nat :: 0 < m < n ==> Used(r, taken, Candidate(rel, m))
    ensures taken' == taken + {Keys(r.key, cand)}
  {
    hide NumbersApart, Candidate, Used;
    var i := 1;
    n := 1;
    while true
      invariant n == i >= 1
      invariant forall m: nat :: 0 < m < n ==> Used(r, taken, Candidate(rel, m))
      decreases |taken + r.disk.Keys| + 1 - i
    {
      cand := Candidate(rel, i);
      if !Used(r, taken, cand) {
        taken' := taken + {Keys(r.key, cand)};
        return;
      }
      SearchEnds(r, rel, taken, i);
      i, n := i + 1, n + 1;
    }
  }

  // ---- why numbers stay apart under case folding ----

  function Fold(fold: char -> string, s: string): string {
    if s == "" then "" else Fold(fold, s[..|s| - 1]) + fold(s[|s| - 1])
  }

  lemma FoldLast(fold: char -> string, s: string, c: char)
    ensures Fold(fold, s + [c]) == Fold(fold, s) + fold(c)
  {
    assert (s + [c])[..|s|] == s;
  }

  lemma {:induction false} FoldConcat(fold: char -> string, a: string, b: string)
    ensures Fold(fold, a + b) == Fold(fold, a) + Fold(fold, b)
    decreases |b|
  {
    if b == "" {
      assert a + b == a;
    } else {
      hide Fold;
      var front, c := b[..|b| - 1], b[|b| - 1];
      FoldConcat(fold, a, front);
      FoldLast(fold, a + front, c);
      FoldLast(fold, front, c);
      assert front + [c] == b && a + front + [c] == a + b;
    }
  }

  ghost predicate KeepsDigits(fold: char -> string) {
    forall d: nat :: d < 10 ==> fold(Digit(d)) == [Digit(d)]
  }

  lemma {:induction false} FoldKeepsDecimal(fold: char -> string, n: nat)
    requires KeepsDigits(fold)
    ensures Fold(fold, Decimal(n)) == Decimal(n)
  {
    if n < 10 {
      assert Fold(fold, "") == "";
    } else {
      FoldKeepsDecimal(fold, n / 10);
      assert Decimal(n)[..|Decimal(n)| - 1] == Decimal(n / 10);
    }
  }

  lemma {:induction false} DecimalInjective(m: nat, n: nat)
    requires Decimal(m) == Decimal(n)
    ensures m == n
  {
    var a, b := Decimal(m), Decimal(n);
    assert a[|a| - 1] == b[|b| - 1];
    if m >= 10 && n >= 10 {
      assert a[..|a| - 1] == Decimal(m / 10) && b[..|b| - 1] == Decimal(n / 10);
      DecimalInjective(m / 10, n / 10);
    }
  }

  lemma FoldNumbered(fold: char -> string, stem: Name, n: nat, ext: Name)
    requires KeepsDigits(fold)
    ensures Fold(fold, Numbered(stem, n, ext)) == Fold(fold, stem + " (") + Decimal(n) + Fold(fold, ")" + ext)
  {
    assert Numbered(stem, n, ext) == (stem + " (" + Decimal(n)) + (")" + ext);
    FoldConcat(fold, stem + " (" + Decimal(n), ")" + ext);
    FoldConcat(fold, stem + " (", Decimal(n));
    FoldKeepsDecimal(fold, n);
  }

  /** The number a string of digits says. */
  function Value(s: string): int {
    if s == "" then 0 else 10 * Value(s[..|s| - 1]) + (s[|s| - 1] as int - '0' as int)
  }

  /** The number is printed in decimal, without leading zeros. */
  lemma {:induction false} DecimalReads(n: nat)
    ensures Value(Decimal(n)) == n && (n > 0 ==> Decimal(n)[0] != '0')
    ensures forall i :: 0 <= i < |Decimal(n)| ==> '0' <= Decimal(n)[i] <= '9'
  {
    if n < 10 {
      assert Value("") == 0;
    } else {
      DecimalReads(n / 10);
      assert Decimal(n)[..|Decimal(n)| - 1] == Decimal(n / 10);
    }
  }

  lemma {:induction false} ExtExactly(base: Name)
    ensures Ext(base) == "" <==> '.' !in base
    ensures Ext(base) != "" ==> Ext(base)[0] == '.' && '.' !in Ext(base)[1..]
  {
    if base != "" && base[|base| - 1] != '.' {
      var front := base[..|base| - 1];
      ExtExactly(front);
      assert base == front + [base[|base| - 1]];
      if Ext(front) != "" {
        assert Ext(base)[1..] == Ext(front)[1..] + [base[|base| - 1]];
      }
    }
  }

  /** The extension starts at the last dot, unless that dot starts the name. */
  predicate IsSplit(base: Name, stem: Name, ext: Name) {
    && base == stem + ext && stem != ""
    && (ext == "" ==> '.' !in base[1..])
    && (ext != "" ==> ext[0] == '.' && '.' !in ext[1..])
  }

  lemma SplitExactly(base: Name)
    requires base != ""
    ensures IsSplit(base, Split(base).0, Split(base).1)
  {
    hide Ext;
    var ext := Ext(base);
    ExtExactly(base);
    var stem := base[..|base| - |ext|];
    assert base == stem + ext;
    if stem == "" {
      assert ext == base && base + "" == base;
    } else if ext == "" {
      assert forall k :: 0 <= k < |base[1..]| ==> base[1..][k] == base[k + 1];
    }
  }

  /** The number goes before the extension. */
  lemma NameKeepsExtension(rel: Path, n: nat) returns (stem: Name, ext: Name)
    requires rel != [] && rel[|rel| - 1] != ""
    ensures IsSplit(rel[|rel| - 1], stem, ext)
    ensures Candidate(rel, n) == rel[..|rel| - 1] + [stem + " (" + Decimal(n) + ")" + ext]
  {
    hide Split, IsSplit;
    stem, ext := Split(rel[|rel| - 1]).0, Split(rel[|rel| - 1]).1;
    SplitExactly(rel[|rel| - 1]);
  }

  lemma DecimalsApart(before: string, m: nat, n: nat, after: string)
    requires m != n
    ensures before + Decimal(m) + after != before + Decimal(n) + after
  {
    var x, y := before + Decimal(m) + after, before + Decimal(n) + after;
    if x == y {
      assert |Decimal(m)| == |Decimal(n)|;
      assert Decimal(m) == x[|before|..|before| + |Decimal(m)|];
      assert Decimal(n) == y[|before|..|before| + |Decimal(n)|];
      DecimalInjective(m, n);
    }
  }

  /** A comparison that folds nothing keeps numbered names apart. */
  lemma ExactKeepsNumbersApart()
    ensures NumbersApart((s: Name) => s)
  {
    forall stem: Name, ext: Name, m: nat, n: nat | m != n
      ensures Numbered(stem, m, ext) != Numbered(stem, n, ext)
    {
      assert Numbered(stem, m, ext) == (stem + " (") + Decimal(m) + (")" + ext);
      assert Numbered(stem, n, ext) == (stem + " (") + Decimal(n) + (")" + ext);
      DecimalsApart(stem + " (", m, n, ")" + ext);
    }
  }

  /** Any character-by-character case folding that leaves digits alone keeps numbered names apart. */
  lemma FoldingKeepsNumbersApart(fold: char -> string)
    requires KeepsDigits(fold)
    ensures NumbersApart((s: Name) => Fold(fold, s))
  {
    var key := (s: Name) => Fold(fold, s);
    forall stem: Name, ext: Name, m: nat, n: nat | m != n
      ensures key(Numbered(stem, m, ext)) != key(Numbered(stem, n, ext))
    {
      FoldNumbered(fold, stem, m, ext);
      FoldNumbered(fold, stem, n, ext);
      DecimalsApart(Fold(fold, stem + " ("), m, n, Fold(fold, ")" + ext));
    }
  }
}
