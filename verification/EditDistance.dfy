/** How the command line guesses which subcommand a mistyped word meant. */
module EditDistance {
  import opened Basics

  /** One edit of a word, applied from left to right; no character is edited twice. */
  datatype Edit = Keep | Replace(c: char) | Delete | Insert(c: char) | Swap

  function Cost(script: seq<Edit>): nat {
    if script == [] then 0
    else Cost(script[..|script| - 1]) + (if script[|script| - 1].Keep? then 0 else 1)
  }

  function Extend(s: Option<string>, tail: string): Option<string> {
    match s
    case None => None
    case Some(front) => Some(front + tail)
  }

  /** How many characters of the word an edit uses up. */
  function Takes(e: Edit): nat {
    match e
    case Insert(_) => 0
    case Swap => 2
    case _ => 1
  }

  /** What the edit writes for the end of the word. */
  function Writes(e: Edit, a: string): string
    requires |a| >= Takes(e)
  {
    match e
    case Keep => [a[|a| - 1]]
    case Replace(c) => [c]
    case Delete => []
    case Insert(c) => [c]
    case Swap => [a[|a| - 1], a[|a| - 2]]
  }

  /** What a script makes of a word; None if it does not fit the word. */
  function Apply(script: seq<Edit>, a: string): Option<string> {
    if script == [] then if a == [] then Some([]) else None
    else
      var e := script[|script| - 1];
      if |a| < Takes(e) then None
      else Extend(Apply(script[..|script| - 1], a[..|a| - Takes(e)]), Writes(e, a))
  }

  predicate Swapped(a: string, b: string, i: nat, j: nat)
    requires i <= |a| && j <= |b|
  {
    i > 1 && j > 1 && a[i - 1] == b[j - 2] && a[i - 2] == b[j - 1]
  }

  /** The cheapest way into a cell, from the cell above, the one to the left, the one across, and the one two across. */
  function Best(a: string, b: string, i: nat, j: nat, above: nat, left: nat, across: nat, twoAcross: nat): nat
    requires 1 <= i <= |a| && 1 <= j <= |b|
  {
    var three := Min(Min(above + 1, left + 1), across + if a[i - 1] == b[j - 1] then 0 else 1);
    if Swapped(a, b, i, j) then Min(three, twoAcross + 1) else three
  }

  /** The recurrence the table is filled by: the distance between the first i characters of a and the first j of b. */
  function Prefix(a: string, b: string, i: nat, j: nat): nat
    requires i <= |a| && j <= |b|
  {
    if i == 0 then j
    else if j == 0 then i
    else Best(a, b, i, j, Prefix(a, b, i - 1, j), Prefix(a, b, i, j - 1), Prefix(a, b, i - 1, j - 1),
              if i > 1 && j > 1 then Prefix(a, b, i - 2, j - 2) else 0)
  }

  function Distance(a: string, b: string): nat {
    Prefix(a, b, |a|, |b|)
  }

  // ---- the recurrence is the cheapest script ----

  lemma CostOfLast(script: seq<Edit>, e: Edit)
    ensures Cost(script + [e]) == Cost(script) + (if e.Keep? then 0 else 1)
  {
    assert (script + [e])[..|script|] == script;
  }

  lemma ApplyLast(script: seq<Edit>, e: Edit, a: string)
    requires |a| >= Takes(e)
    ensures Apply(script + [e], a) == Extend(Apply(script, a[..|a| - Takes(e)]), Writes(e, a))
  {
    assert (script + [e])[..|script|] == script;
  }

  lemma Borders(a: string, b: string, i: nat, j: nat)
    requires i <= |a| && j <= |b|
    ensures Prefix(a, b, i, 0) == i && Prefix(a, b, 0, j) == j
  {
  }

  lemma Cell(a: string, b: string, i: nat, j: nat)
    requires 1 <= i <= |a| && 1 <= j <= |b|
    ensures Prefix(a, b, i, j) ==
            Best(a, b, i, j, Prefix(a, b, i - 1, j), Prefix(a, b, i, j - 1), Prefix(a, b, i - 1, j - 1),
                 if i > 1 && j > 1 then Prefix(a, b, i - 2, j - 2) else 0)
  {
    hide Best;
  }

  /** Each way into a cell is an upper bound, and one of them is taken. */
  lemma CellBounds(a: string, b: string, i: nat, j: nat)
    requires 1 <= i <= |a| && 1 <= j <= |b|
    ensures var d := Prefix(a, b, i, j);
            var across := Prefix(a, b, i - 1, j - 1) + if a[i - 1] == b[j - 1] then 0 else 1;
            && d <= Prefix(a, b, i - 1, j) + 1 && d <= Prefix(a, b, i, j - 1) + 1 && d <= across
            && (Swapped(a, b, i, j) ==> d <= Prefix(a, b, i - 2, j - 2) + 1)
            && (d == Prefix(a, b, i - 1, j) + 1 || d == Prefix(a, b, i, j - 1) + 1 || d == across
                || (Swapped(a, b, i, j) && d == Prefix(a, b, i - 2, j - 2) + 1))
  {
    hide Prefix;
    Cell(a, b, i, j);
  }

  /** A script for shorter words, and one edit more. */
  lemma OneMoreEdit(script: seq<Edit>, e: Edit, a: string, b: string, i: nat, j: nat, j1: nat)
    requires Takes(e) <= i <= |a| && j1 <= j <= |b|
    requires Apply(script, a[..i - Takes(e)]) == Some(b[..j1]) && b[j1..j] == Writes(e, a[..i])
    ensures Apply(script + [e], a[..i]) == Some(b[..j]) && Cost(script + [e]) == Cost(script) + (if e.Keep? then 0 else 1)
  {
    hide Apply, Cost;
    assert a[..i][..i - Takes(e)] == a[..i - Takes(e)];
    ApplyLast(script, e, a[..i]);
    CostOfLast(script, e);
    assert b[..j] == b[..j1] + b[j1..j];
  }

  lemma EmptyScript(a: string, b: string)
    ensures Apply([], a[..0]) == Some(b[..0]) && Cost([]) == 0
  {
  }

  /** Some script of that cost turns a into b. */
  lemma {:induction false} CheapestScript(a: string, b: string, i: nat, j: nat) returns (script: seq<Edit>)
    requires i <= |a| && j <= |b|
    ensures Apply(script, a[..i]) == Some(b[..j]) && Cost(script) == Prefix(a, b, i, j)
    decreases i + j
  {
    hide Prefix, Apply, Cost, Best, Min;
    Borders(a, b, i, j);
    EmptyScript(a, b);
    if i == 0 && j == 0 {
      return [];
    }
    if i > 0 && j > 0 {
      CellBounds(a, b, i, j);
    }
    if i == 0 || (j > 0 && Prefix(a, b, i, j) == Prefix(a, b, i, j - 1) + 1) {
      Borders(a, b, i, j - 1);
      script := CheapestScript(a, b, i, j - 1);
      OneMoreEdit(script, Insert(b[j - 1]), a, b, i, j, j - 1);
      script := script + [Insert(b[j - 1])];
    } else if j == 0 || Prefix(a, b, i, j) == Prefix(a, b, i - 1, j) + 1 {
      Borders(a, b, i - 1, j);
      script := CheapestScript(a, b, i - 1, j);
      OneMoreEdit(script, Delete, a, b, i, j, j);
      script := script + [Delete];
    } else if Swapped(a, b, i, j) && Prefix(a, b, i, j) == Prefix(a, b, i - 2, j - 2) + 1 {
      script := CheapestScript(a, b, i - 2, j - 2);
      OneMoreEdit(script, Swap, a, b, i, j, j - 2);
      script := script + [Swap];
    } else {
      var e := if a[i - 1] == b[j - 1] then Keep else Replace(b[j - 1]);
      script := CheapestScript(a, b, i - 1, j - 1);
      OneMoreEdit(script, e, a, b, i, j, j - 1);
      script := script + [e];
    }
  }

  /** The recurrence allows for every last edit. */
  lemma LastEditBound(e: Edit, a: string, b: string, i: nat, j: nat)
    requires i <= |a| && j <= |b| && i >= Takes(e) && j >= |Writes(e, a[..i])|
    requires b[j - |Writes(e, a[..i])|..j] == Writes(e, a[..i])
    ensures Prefix(a, b, i, j) <= Prefix(a, b, i - Takes(e), j - |Writes(e, a[..i])|) + (if e.Keep? then 0 else 1)
  {
    hide Prefix;
    var tail := b[j - |Writes(e, a[..i])|..j];
    Borders(a, b, i, j);
    Borders(a, b, i - Takes(e), j - |Writes(e, a[..i])|);
    if i > 0 && j > 0 {
      CellBounds(a, b, i, j);
    }
    match e
    case Keep => assert tail[0] == b[j - 1];
    case Swap => assert tail[0] == b[j - 2] && tail[1] == b[j - 1];
    case _ =>
  }

  /** No script that turns a into b is cheaper. */
  lemma {:induction false} NoScriptCheaper(script: seq<Edit>, a: string, b: string, i: nat, j: nat)
    requires i <= |a| && j <= |b| && Apply(script, a[..i]) == Some(b[..j])
    ensures Prefix(a, b, i, j) <= Cost(script)
    decreases |script|
  {
    hide Prefix;
    if script == [] {
      NothingToDo(a, b);
    } else {
      var front, e := script[..|script| - 1], script[|script| - 1];
      var i1 := i - Takes(e);
      assert a[..i][..i1] == a[..i1];
      var b1 := Apply(front, a[..i1]).value;
      var tail := Writes(e, a[..i]);
      hide Apply;
      assert b[..j] == b1 + tail;
      assert b1 == b[..j][..|b1|] == b[..|b1|] && tail == b[..j][|b1|..] == b[|b1|..j];
      NoScriptCheaper(front, a, b, i1, |b1|);
      LastEditBound(e, a, b, i, j);
    }
  }

  lemma NothingToDo(a: string, b: string)
    ensures Prefix(a, b, 0, 0) == 0
  {
  }

  // ---- it is a distance ----

  lemma BestSymmetric(a: string, b: string, i: nat, j: nat, above: nat, left: nat, across: nat, twoAcross: nat)
    requires 1 <= i <= |a| && 1 <= j <= |b|
    ensures Best(a, b, i, j, above, left, across, twoAcross) == Best(b, a, j, i, left, above, across, twoAcross)
  {
  }

  lemma {:induction false} PrefixSymmetric(a: string, b: string, i: nat, j: nat)
    requires i <= |a| && j <= |b|
    ensures Prefix(a, b, i, j) == Prefix(b, a, j, i)
    decreases i + j
  {
    hide Best;
    if i > 0 && j > 0 {
      PrefixSymmetric(a, b, i - 1, j);
      PrefixSymmetric(a, b, i, j - 1);
      PrefixSymmetric(a, b, i - 1, j - 1);
      if i > 1 && j > 1 {
        PrefixSymmetric(a, b, i - 2, j - 2);
      }
      BestSymmetric(a, b, i, j, Prefix(a, b, i - 1, j), Prefix(a, b, i, j - 1), Prefix(a, b, i - 1, j - 1),
                    if i > 1 && j > 1 then Prefix(a, b, i - 2, j - 2) else 0);
    }
  }

  lemma {:induction false} PrefixAtLeast(a: string, b: string, i: nat, j: nat)
    requires i <= |a| && j <= |b|
    ensures Prefix(a, b, i, j) >= i - j && Prefix(a, b, i, j) >= j - i
    decreases i + j
  {
    hide Prefix;
    Borders(a, b, i, j);
    if i > 0 && j > 0 {
      CellBounds(a, b, i, j);
      PrefixAtLeast(a, b, i - 1, j);
      PrefixAtLeast(a, b, i, j - 1);
      PrefixAtLeast(a, b, i - 1, j - 1);
      if Swapped(a, b, i, j) {
        PrefixAtLeast(a, b, i - 2, j - 2);
      }
    }
  }

  lemma {:induction false} PrefixZero(a: string, b: string, i: nat, j: nat)
    requires i <= |a| && j <= |b|
    ensures Prefix(a, b, i, j) == 0 <==> a[..i] == b[..j]
    decreases i + j
  {
    hide Prefix;
    Borders(a, b, i, j);
    if i > 0 && j > 0 {
      CellBounds(a, b, i, j);
      PrefixAtLeast(a, b, i - 1, j);
      PrefixAtLeast(a, b, i, j - 1);
      PrefixZero(a, b, i - 1, j - 1);
      assert a[..i] == a[..i - 1] + [a[i - 1]] && b[..j] == b[..j - 1] + [b[j - 1]];
    }
  }

  lemma IsADistance(a: string, b: string)
    ensures Distance(a, b) == Distance(b, a)
    ensures Distance(a, b) == 0 <==> a == b
    ensures Distance(a, b) >= |a| - |b| && Distance(a, b) >= |b| - |a|
  {
    hide Prefix;
    PrefixSymmetric(a, b, |a|, |b|);
    PrefixZero(a, b, |a|, |b|);
    PrefixAtLeast(a, b, |a|, |b|);
    assert a[..|a|] == a && b[..|b|] == b;
  }

  /** Optimal string alignment: the least cost of any script from a to b. */
  ghost predicate IsOptimal(a: string, b: string, d: nat) {
    && (exists script :: Apply(script, a) == Some(b) && Cost(script) == d)
    && (forall script :: Apply(script, a) == Some(b) ==> d <= Cost(script))
  }

  lemma DistanceIsOptimal(a: string, b: string)
    ensures IsOptimal(a, b, Distance(a, b))
  {
    hide Prefix, Apply, Cost;
    var script := CheapestScript(a, b, |a|, |b|);
    assert a[..|a|] == a && b[..|b|] == b;
    forall other | Apply(other, a) == Some(b)
      ensures Distance(a, b) <= Cost(other)
    {
      NoScriptCheaper(other, a, b, |a|, |b|);
    }
  }

  // ---- the table ----

  /** Fills one cell. */
  method FillCell(d: array2<nat>, a: string, b: string, i: nat, j: nat)
    requires 1 <= i <= |a| && 1 <= j <= |b| && d.Length0 == |a| + 1 && d.Length1 == |b| + 1
    requires forall x, y :: 0 <= x <= i && 0 <= y <= j && (x, y) != (i, j) ==> d[x, y] == Prefix(a, b, x, y)
    modifies d
    ensures d[i, j] == Prefix(a, b, i, j)
    ensures forall x, y :: 0 <= x <= |a| && 0 <= y <= |b| && (x, y) != (i, j) ==> d[x, y] == old(d[x, y])
  {
    hide Prefix;
    Cell(a, b, i, j);
    var cost := 1;
    if a[i - 1] == b[j - 1] {
      cost := 0;
    }
    d[i, j] := Min(Min(d[i - 1, j] + 1, d[i, j - 1] + 1), d[i - 1, j - 1] + cost);
    if i > 1 && j > 1 && a[i - 1] == b[j - 2] && a[i - 2] == b[j - 1] {
      d[i, j] := Min(d[i, j], d[i - 2, j - 2] + 1);
    }
  }

  method Compute(a: string, b: string) returns (r: nat)
    ensures r == Distance(a, b) && IsOptimal(a, b, r)
  {
    hide Prefix, IsOptimal;
    var d := new nat[|a| + 1, |b| + 1];
    for i := 0 to |a| + 1
      invariant forall x :: 0 <= x < i ==> d[x, 0] == x
    {
      d[i, 0] := i;
    }
    for j := 0 to |b| + 1
      invariant forall x :: 0 <= x <= |a| ==> d[x, 0] == x
      invariant forall y :: 0 <= y < j ==> d[0, y] == y
    {
      d[0, j] := j;
    }
    forall y | 0 <= y <= |b|
      ensures d[0, y] == Prefix(a, b, 0, y)
    {
      Borders(a, b, 0, y);
    }
    forall x | 0 <= x <= |a|
      ensures d[x, 0] == Prefix(a, b, x, 0)
    {
      Borders(a, b, x, 0);
    }
    for i := 1 to |a| + 1
      invariant forall x, y :: 0 <= x <= |a| && 0 <= y <= |b| && (x < i || y == 0) ==> d[x, y] == Prefix(a, b, x, y)
    {
      for j := 1 to |b| + 1
        invariant forall x, y :: 0 <= x <= |a| && 0 <= y <= |b| && (x < i || y == 0 || (x == i && y < j)) ==> d[x, y] == Prefix(a, b, x, y)
      {
        FillCell(d, a, b, i, j);
      }
    }
    r := d[|a|, |b|];
    DistanceIsOptimal(a, b);
  }

  // ---- the guess ----

  const FAR: nat := 0x4000_0000

  /** Close enough to be a plausible typo: one edit for short words, a quarter of the letters for long ones. */
  predicate Near(w: string, c: string) {
    Distance(w, c) < FAR && Distance(w, c) <= if |c| / 4 > 1 then |c| / 4 else 1
  }

  /** The first of the nearest candidates. */
  ghost predicate FirstNearest(w: string, cands: seq<string>, k: int) {
    && 0 <= k < |cands| && Near(w, cands[k])
    && (forall j :: 0 <= j < |cands| && Near(w, cands[j]) ==> Distance(w, cands[k]) <= Distance(w, cands[j]))
    && (forall j :: 0 <= j < k && Near(w, cands[j]) ==> Distance(w, cands[k]) < Distance(w, cands[j]))
  }

  method Closest(w: string, cands: seq<string>) returns (best: string)
    ensures if exists k :: 0 <= k < |cands| && Near(w, cands[k])
            then exists k :: FirstNearest(w, cands, k) && best == cands[k]
            else best == ""
  {
    hide Distance, IsOptimal;
    var bestD := FAR;
    best := "";
    ghost var at: int := -1;
    for i := 0 to |cands|
      invariant if at < 0 then best == "" && bestD == FAR && forall j :: 0 <= j < i ==> !Near(w, cands[j])
                else FirstNearest(w, cands[..i], at) && best == cands[at] && bestD == Distance(w, best)
    {
      var d := Compute(w, cands[i]);
      assert forall j :: 0 <= j < i ==> cands[..i + 1][j] == cands[..i][j];
      if d < bestD && d <= (if |cands[i]| / 4 > 1 then |cands[i]| / 4 else 1) {
        best, bestD, at := cands[i], d, i;
      }
    }
    assert cands[..|cands|] == cands;
  }
}
