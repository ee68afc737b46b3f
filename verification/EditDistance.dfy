/** The edit distance behind the "closest match" hint of the configuration parser. */
module EditDistance {
  import opened Common

  function Min3(a: nat, b: nat, c: nat): nat {
    if a <= b && a <= c then a else if b <= c then b else c
  }

  /** The usual recurrence, from the ends of the strings. */
  function Lev(s: string, t: string): nat
    decreases |s| + |t|
  {
    if s == [] then |t|
    else if t == [] then |s|
    else
      var s', t' := s[..|s| - 1], t[..|t| - 1];
      if s[|s| - 1] == t[|t| - 1] then Lev(s', t')
      else 1 + Min3(Lev(s', t), Lev(s, t'), Lev(s', t'))
  }

  // ---------------------------------------------------------------------------------------------
  // Edit scripts
  // ---------------------------------------------------------------------------------------------

  /** One edit at a position of a string. */
  datatype Edit = Insert(at: nat, c: char) | Delete(at: nat) | Substitute(at: nat, c: char)

  predicate Applies(e: Edit, s: string) {
    match e
    case Insert(at, _) => at <= |s|
    case Delete(at) => at < |s|
    case Substitute(at, _) => at < |s|
  }

  function Edited(e: Edit, s: string): string
    requires Applies(e, s)
  {
    match e
    case Insert(at, c) => s[..at] + [c] + s[at..]
    case Delete(at) => s[..at] + s[at + 1..]
    case Substitute(at, c) => s[..at] + [c] + s[at + 1..]
  }

  /** A script of edits, applied one after the other, turns s into t. */
  predicate Turns(script: seq<Edit>, s: string, t: string)
    decreases |script|
  {
    if script == [] then s == t
    else Applies(script[0], s) && Turns(script[1..], Edited(script[0], s), t)
  }

  // ---------------------------------------------------------------------------------------------
  // No script is shorter
  // ---------------------------------------------------------------------------------------------

  lemma {:induction false} LevSelf(s: string)
    ensures Lev(s, s) == 0
  {
    if s != [] {
      LevSelf(s[..|s| - 1]);
    }
  }

  /** Neighbouring entries differ by at most one. */
  lemma {:induction false} LevNear(s: string, t: string, c: char)
    ensures Lev(s + [c], t) <= Lev(s, t) + 1
    ensures Lev(s, t) <= Lev(s + [c], t) + 1
    decreases |s| + |t|, 0
  {
    assert (s + [c])[..|s|] == s;
    if t == [] {
    } else {
      var t' := t[..|t| - 1];
      assert t' + [t[|t| - 1]] == t;
      LevNear(s, t', c);
      LevNearRight(s, t', t[|t| - 1]);
    }
  }

  lemma {:induction false} LevNearRight(s: string, t: string, c: char)
    ensures Lev(s, t + [c]) <= Lev(s, t) + 1
    ensures Lev(s, t) <= Lev(s, t + [c]) + 1
    decreases |s| + |t|, 1
  {
    assert (t + [c])[..|t|] == t;
    if s == [] {
    } else {
      var s' := s[..|s| - 1];
      assert s' + [s[|s| - 1]] == s;
      LevNearRight(s', t, c);
      LevNear(s', t, s[|s| - 1]);
    }
  }

  /** The recurrence, for strings given by their last characters. */
  lemma LevStep(s: string, a: char, t: string, d: char)
    ensures Lev(s + [a], t + [d]) == if a == d then Lev(s, t)
                                     else 1 + Min3(Lev(s, t + [d]), Lev(s + [a], t), Lev(s, t))
  {
    assert (s + [a])[..|s|] == s && (t + [d])[..|t|] == t;
  }

  lemma LevEmpty(s: string)
    ensures Lev(s, []) == |s|
  {
  }

  lemma StepNear(a: nat, b: nat, c: nat, a': nat, b': nat, c': nat)
    ensures a <= a' + 1 && b <= b' + 1 && c <= c' + 1 ==> Min3(a, b, c) <= Min3(a', b', c') + 1
    ensures a' <= a + 1 && b' <= b + 1 && c' <= c + 1 ==> Min3(a', b', c') <= Min3(a, b, c) + 1
  {
  }

  /** Inserting or deleting a character anywhere moves the distance by at most one. */
  lemma {:induction false} LevInside(u: string, c: char, v: string, t: string)
    ensures Lev(u + [c] + v, t) <= Lev(u + v, t) + 1
    ensures Lev(u + v, t) <= Lev(u + [c] + v, t) + 1
    decreases |v| + |t|
  {
    hide *;
    if v == [] {
      assert u + [c] + v == u + [c] && u + v == u;
      LevNear(u, t, c);
    } else if t == [] {
      LevEmpty(u + [c] + v);
      LevEmpty(u + v);
    } else {
      var v', a, t', d := v[..|v| - 1], v[|v| - 1], t[..|t| - 1], t[|t| - 1];
      LevInside(u, c, v', t);
      LevInside(u, c, v, t');
      LevInside(u, c, v', t');
      assert t == t' + [d] && v == v' + [a];
      assert u + [c] + v == u + [c] + v' + [a] && u + v == u + v' + [a];
      StepNear(Lev(u + [c] + v', t), Lev(u + [c] + v, t'), Lev(u + [c] + v', t'),
               Lev(u + v', t), Lev(u + v, t'), Lev(u + v', t'));
      LevStep(u + [c] + v', a, t', d);
      LevStep(u + v', a, t', d);
    }
  }

  lemma {:induction false} LevLast(u: string, c: char, d: char, t: string)
    ensures Lev(u + [c], t) <= Lev(u + [d], t) + 1
    decreases |t|
  {
    assert (u + [c])[..|u|] == u == (u + [d])[..|u|];
    if t != [] {
      var t', e := t[..|t| - 1], t[|t| - 1];
      assert t' + [e] == t;
      LevLast(u, c, d, t');
      LevNear(u, t', d);
      LevNearRight(u, t', e);
    }
  }

  /** So does substituting one. */
  lemma {:induction false} LevSubstitute(u: string, c: char, d: char, v: string, t: string)
    ensures Lev(u + [c] + v, t) <= Lev(u + [d] + v, t) + 1
    decreases |v| + |t|
  {
    hide *;
    if v == [] {
      assert u + [c] + v == u + [c] && u + [d] + v == u + [d];
      LevLast(u, c, d, t);
    } else if t == [] {
      LevEmpty(u + [c] + v);
      LevEmpty(u + [d] + v);
    } else {
      var v', a, t', e := v[..|v| - 1], v[|v| - 1], t[..|t| - 1], t[|t| - 1];
      LevSubstitute(u, c, d, v', t);
      LevSubstitute(u, c, d, v, t');
      LevSubstitute(u, c, d, v', t');
      assert t == t' + [e] && v == v' + [a];
      assert u + [c] + v == u + [c] + v' + [a] && u + [d] + v == u + [d] + v' + [a];
      StepNear(Lev(u + [c] + v', t), Lev(u + [c] + v, t'), Lev(u + [c] + v', t'),
               Lev(u + [d] + v', t), Lev(u + [d] + v, t'), Lev(u + [d] + v', t'));
      LevStep(u + [c] + v', a, t', e);
      LevStep(u + [d] + v', a, t', e);
    }
  }

  lemma LevEdit(e: Edit, s: string, t: string)
    requires Applies(e, s)
    ensures Lev(s, t) <= Lev(Edited(e, s), t) + 1
  {
    hide Lev;
    match e
    case Insert(at, c) =>
      assert s == s[..at] + s[at..];
      LevInside(s[..at], c, s[at..], t);
    case Delete(at) =>
      assert s == s[..at] + [s[at]] + s[at + 1..];
      LevInside(s[..at], s[at], s[at + 1..], t);
    case Substitute(at, c) =>
      assert s == s[..at] + [s[at]] + s[at + 1..];
      LevSubstitute(s[..at], s[at], c, s[at + 1..], t);
  }

  /** Every script that turns s into t is at least as long as the distance. */
  lemma {:induction false} NoShorterScript(script: seq<Edit>, s: string, t: string)
    requires Turns(script, s, t)
    ensures Lev(s, t) <= |script|
    decreases |script|
  {
    if script == [] {
      LevSelf(s);
    } else {
      NoShorterScript(script[1..], Edited(script[0], s), t);
      LevEdit(script[0], s, t);
    }
  }

  // ---------------------------------------------------------------------------------------------
  // Some script is that short
  // ---------------------------------------------------------------------------------------------

  /** A script works in front of a common last character. */
  lemma {:induction false} TurnsInFront(script: seq<Edit>, s: string, t: string, c: char)
    requires Turns(script, s, t)
    ensures Turns(script, s + [c], t + [c])
    decreases |script|
  {
    if script != [] {
      var e := script[0];
      EditedInFront(e, s, c);
      TurnsInFront(script[1..], Edited(e, s), t, c);
    }
  }

  lemma EditedInFront(e: Edit, s: string, c: char)
    requires Applies(e, s)
    ensures Applies(e, s + [c]) && Edited(e, s + [c]) == Edited(e, s) + [c]
  {
    match e
    case Insert(at, d) => assert (s + [c])[at..] == s[at..] + [c];
    case Delete(at) => assert (s + [c])[at + 1..] == s[at + 1..] + [c];
    case Substitute(at, d) => assert (s + [c])[at + 1..] == s[at + 1..] + [c];
  }

  lemma TurnsFirst(e: Edit, rest: seq<Edit>, s: string, t: string)
    requires Applies(e, s) && Turns(rest, Edited(e, s), t)
    ensures Turns([e] + rest, s, t)
  {
    assert ([e] + rest)[1..] == rest;
  }

  /** A script of exactly the distance's length. */
  lemma {:induction false} ShortScript(s: string, t: string) returns (script: seq<Edit>)
    ensures Turns(script, s, t) && |script| == Lev(s, t)
    decreases |s| + |t|
  {
    if s == [] && t == [] {
      script := [];
    } else if t == [] || (s != [] && Lev(s, t) == 1 + Lev(s[..|s| - 1], t)) {
      var rest := ShortScript(s[..|s| - 1], t);
      hide Lev;
      script := [Delete(|s| - 1)] + rest;
      assert Edited(Delete(|s| - 1), s) == s[..|s| - 1];
      TurnsFirst(Delete(|s| - 1), rest, s, t);
    } else if s == [] || Lev(s, t) == 1 + Lev(s, t[..|t| - 1]) {
      var rest := ShortScript(s, t[..|t| - 1]);
      hide Lev;
      script := InsertLast(rest, s, t);
    } else {
      var rest := ShortScript(s[..|s| - 1], t[..|t| - 1]);
      hide Lev;
      script := KeepLast(rest, s, t);
    }
  }

  lemma InsertLast(rest: seq<Edit>, s: string, t: string) returns (script: seq<Edit>)
    requires t != [] && Turns(rest, s, t[..|t| - 1])
    ensures Turns(script, s, t) && |script| == |rest| + 1
  {
    var t', c := t[..|t| - 1], t[|t| - 1];
    script := [Insert(|s|, c)] + rest;
    assert t' + [c] == t && Edited(Insert(|s|, c), s) == s + [c];
    TurnsInFront(rest, s, t', c);
    TurnsFirst(Insert(|s|, c), rest, s, t);
  }

  lemma KeepLast(rest: seq<Edit>, s: string, t: string) returns (script: seq<Edit>)
    requires s != [] && t != [] && Turns(rest, s[..|s| - 1], t[..|t| - 1])
    ensures Turns(script, s, t) && |script| == |rest| + if s[|s| - 1] == t[|t| - 1] then 0 else 1
  {
    var s', t', c := s[..|s| - 1], t[..|t| - 1], t[|t| - 1];
    assert s' + [s[|s| - 1]] == s && t' + [c] == t;
    TurnsInFront(rest, s', t', c);
    script := rest;
    if s[|s| - 1] != c {
      var e := Substitute(|s| - 1, c);
      assert Edited(e, s) == s' + [c];
      TurnsFirst(e, rest, s, t);
      script := [e] + rest;
    }
  }

  /** The distance is the least length of a script. */
  lemma LeastScript(s: string, t: string)
    ensures exists script :: Turns(script, s, t) && |script| == Lev(s, t)
    ensures forall script :: Turns(script, s, t) ==> Lev(s, t) <= |script|
  {
    var script := ShortScript(s, t);
    forall other | Turns(other, s, t)
      ensures Lev(s, t) <= |other|
    {
      NoShorterScript(other, s, t);
    }
  }

  // ---------------------------------------------------------------------------------------------
  // One row
  // ---------------------------------------------------------------------------------------------

  /** The row of s being overwritten: entries up to split belong to s, the others still to s without
      its last character. */
  ghost predicate Rows(costs: seq<nat>, s: string, t: string, split: int) {
    && |costs| == |t| + 1 && |s| > 0
    && (forall k :: 0 <= k <= |t| && k <= split ==> costs[k] == Lev(s, t[..k]))
    && (forall k :: 0 <= k <= |t| && split < k ==> costs[k] == Lev(s[..|s| - 1], t[..k]))
  }

  /** The finished row of s. */
  ghost predicate Row(costs: seq<nat>, s: string, t: string) {
    |costs| == |t| + 1 && forall k :: 0 <= k <= |t| ==> costs[k] == Lev(s, t[..k])
  }

  method LevenshteinDistance(s1: string, s2: string) returns (d: nat)
    ensures d == Lev(s1, s2)
  {
    var m, n := |s1|, |s2|;
    if m == 0 || n == 0 {
      return if m >= n then m else n;
    }
    hide *;
    var costs := new nat[n + 1](k => k);
    FirstRow(costs[..], s2);
    var i := 0;
    assert s1[..0] == [];
    while i < m
      invariant 0 <= i <= m
      invariant Row(costs[..], s1[..i], s2)
    {
      OverwriteRow(costs, s1, i, s2);
      i := i + 1;
    }
    RowAt(costs[..], s1[..m], s2, n);
    assert s1[..m] == s1 && s2[..n] == s2;
    return costs[n];
  }

  /** One pass of the outer loop: the row of the first i characters becomes that of one more. */
  method OverwriteRow(costs: array<nat>, s1: string, i: nat, s2: string)
    requires i < |s1| && Row(costs[..], s1[..i], s2)
    modifies costs
    ensures Row(costs[..], s1[..i + 1], s2)
  {
    hide *;
    ghost var was, s := costs[..], s1[..i + 1];
    assert s[..|s| - 1] == s1[..i] && s[|s| - 1] == s1[i];
    RowAt(was, s1[..i], s2, 0);
    costs[0] := i + 1;
    var corner := i;
    assert costs[..] == was[0 := costs[0]];
    RowStarts(was, costs[0], s, s2);
    var j := 0;
    while j < |s2|
      invariant 0 <= j <= |s2| && Rows(costs[..], s, s2, j) && corner == Lev(s[..|s| - 1], s2[..j])
    {
      RowsAt(costs[..], s, s2, j);
      var upper := costs[j + 1];
      Overwrite(costs, s, s1[i], s2, j, corner);
      corner := upper;
      j := j + 1;
    }
    RowEnds(costs[..], s, s2);
  }

  /** The assignment in the inner loop; c is the last character of s. */
  method Overwrite(costs: array<nat>, ghost s: string, c: char, s2: string, j: nat, corner: nat)
    requires |s| > 0 && c == s[|s| - 1] && j < |s2|
    requires Rows(costs[..], s, s2, j) && corner == Lev(s[..|s| - 1], s2[..j])
    modifies costs
    ensures Rows(costs[..], s, s2, j + 1)
  {
    hide *;
    ghost var before := costs[..];
    RowsAt(before, s, s2, j);
    Entry(s, s2, j);
    assert before[j] == costs[j] && before[j + 1] == costs[j + 1];
    MinThree(costs[j], costs[j + 1], corner);
    if c == s2[j] {
      costs[j + 1] := corner;
    } else {
      costs[j + 1] := Min(costs[j], Min(costs[j + 1], corner)) + 1;
    }
    assert costs[..] == before[j + 1 := costs[j + 1]];
    RowsNext(before, s, s2, j, costs[j + 1]);
  }

  lemma FirstRow(costs: seq<nat>, t: string)
    requires |costs| == |t| + 1 && forall k :: 0 <= k <= |t| ==> costs[k] == k
    ensures Row(costs, [], t)
  {
  }

  lemma RowAt(costs: seq<nat>, s: string, t: string, k: nat)
    requires Row(costs, s, t) && k <= |t|
    ensures |costs| == |t| + 1 && costs[k] == Lev(s, t[..k])
  {
    hide Lev;
  }

  lemma RowStarts(was: seq<nat>, zero: nat, s: string, t: string)
    requires zero == |s| > 0 && Row(was, s[..|s| - 1], t)
    ensures |was| == |t| + 1 && Rows(was[0 := zero], s, t, 0)
    ensures Lev(s[..|s| - 1], t[..0]) == |s| - 1
  {
    LevEmpty(s);
    LevEmpty(s[..|s| - 1]);
    assert t[..0] == [];
    hide Lev;
  }

  lemma RowsAt(costs: seq<nat>, s: string, t: string, j: nat)
    requires Rows(costs, s, t, j) && j < |t|
    ensures |costs| == |t| + 1 && |s| > 0
    ensures costs[j] == Lev(s, t[..j]) && costs[j + 1] == Lev(s[..|s| - 1], t[..j + 1])
  {
    hide Lev;
  }

  lemma RowsNext(costs: seq<nat>, s: string, t: string, j: nat, entry: nat)
    requires Rows(costs, s, t, j) && j < |t| && entry == Lev(s, t[..j + 1])
    ensures |costs| == |t| + 1 && Rows(costs[j + 1 := entry], s, t, j + 1)
  {
    hide Lev;
  }

  lemma RowEnds(costs: seq<nat>, s: string, t: string)
    requires Rows(costs, s, t, |t|)
    ensures Row(costs, s, t)
  {
    hide Lev;
  }

  /** Entry j + 1 of the row of s. */
  lemma Entry(s: string, t: string, j: nat)
    requires s != [] && j < |t|
    ensures var s', left, corner := s[..|s| - 1], t[..j + 1], t[..j];
            Lev(s, left) == if s[|s| - 1] == t[j] then Lev(s', corner)
                            else 1 + Min3(Lev(s', left), Lev(s, corner), Lev(s', corner))
  {
    assert s == s[..|s| - 1] + [s[|s| - 1]] && t[..j + 1] == t[..j] + [t[j]];
    LevStep(s[..|s| - 1], s[|s| - 1], t[..j], t[j]);
    hide Lev;
  }

  lemma MinThree(left: nat, upper: nat, corner: nat)
    ensures Min(left, Min(upper, corner)) == Min3(upper, left, corner)
  {
  }

  /** The hint: the first of the known names that is closest to the wrong one. */
  method ClosestName(names: seq<string>, wrong: string) returns (found: string)
    ensures names == [] ==> found == ""
    ensures names != [] ==>
              exists k :: 0 <= k < |names| && found == names[k]
                          && (forall i :: 0 <= i < |names| ==> Lev(names[k], wrong) <= Lev(names[i], wrong))
                          && (forall i :: 0 <= i < k ==> Lev(names[k], wrong) < Lev(names[i], wrong))
  {
    found := "";
    var minDistance: int := -1;
    ghost var at := 0;
    for n := 0 to |names|
      invariant n == 0 ==> minDistance == -1 && found == ""
      invariant n > 0 ==> 0 <= at < n && found == names[at] && minDistance == Lev(names[at], wrong)
      invariant forall i :: 0 <= i < n ==> minDistance <= Lev(names[i], wrong)
      invariant forall i :: 0 <= i < at && i < n ==> minDistance < Lev(names[i], wrong)
    {
      var distance := LevenshteinDistance(names[n], wrong);
      if minDistance < 0 || distance < minDistance {
        found := names[n];
        minDistance := distance;
        at := n;
      }
    }
  }
}
