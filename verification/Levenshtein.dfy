/** The phonetic edit distance of the voice resolver (daemon/voice_resolver.go).

  `LevRunes` keeps the two rows of the dynamic programme in two arrays that are overwritten and
  swapped.  It is proved against `Distance`, the textbook recurrence over prefixes, and `Distance`
  is proved to be what the name promises: the length of a shortest script of single-rune
  insertions, deletions and substitutions.  The metric laws then follow from what can be done
  with scripts: concatenate them and run them backwards.
 */
module Levenshtein {

  type Rune = int
  type Text = seq<Rune>

  function Min(x: nat, y: nat): (m: nat)
    ensures m <= x && m <= y && (m == x || m == y)
  {
    if x < y then x else y
  }

  function Max(x: nat, y: nat): (m: nat)
    ensures x <= m && y <= m && (m == x || m == y)
  {
    if x > y then x else y
  }

  function Init(s: Text): Text
    requires s != []
  {
    s[..|s| - 1]
  }

  function Last(s: Text): Rune
    requires s != []
  {
    s[|s| - 1]
  }

  /** The cost of pairing two runes. */
  function Cost(x: Rune, y: Rune): nat { if x == y then 0 else 1 }

  /** The recurrence the rows tabulate. */
  function Distance(a: Text, b: Text): nat
    decreases |a| + |b|
  {
    if a == [] then |b|
    else if b == [] then |a|
    else Min(Min(Distance(Init(a), b) + 1, Distance(a, Init(b)) + 1),
             Distance(Init(a), Init(b)) + Cost(Last(a), Last(b)))
  }

  /** The cell of the table for the first `i` runes of `a` and the first `j` of `b`. */
  function Cell(a: Text, b: Text, i: nat, j: nat): nat
    requires i <= |a| && j <= |b|
  {
    Distance(a[..i], b[..j])
  }

  lemma CellStep(a: Text, b: Text, i: nat, j: nat)
    requires 1 <= i <= |a| && 1 <= j <= |b|
    ensures Cell(a, b, i, j) ==
            Min(Min(Cell(a, b, i - 1, j) + 1, Cell(a, b, i, j - 1) + 1),
                Cell(a, b, i - 1, j - 1) + Cost(a[i - 1], b[j - 1]))
  {
    assert Init(a[..i]) == a[..i - 1] && Init(b[..j]) == b[..j - 1];
  }

  /** `row` holds row `i` of the table up to column `n`. */
  ghost predicate HoldsRow(row: array<nat>, a: Text, b: Text, i: nat, n: nat)
    requires i <= |a|
    reads row
  {
    n <= |b| && row.Length == |b| + 1 && forall k :: 0 <= k <= n ==> row[k] == Cell(a, b, i, k)
  }

  /** The inner loop: one row from the row above it. */
  method FillRow(a: Text, b: Text, i: nat, prev: array<nat>, cur: array<nat>)
    requires 1 <= i <= |a|
    requires prev != cur && cur.Length == |b| + 1
    requires HoldsRow(prev, a, b, i - 1, |b|)
    modifies cur
    ensures HoldsRow(cur, a, b, i, |b|)
  {
    cur[0] := i;
    var ca := a[i - 1];
    for j := 1 to |b| + 1
      invariant HoldsRow(prev, a, b, i - 1, |b|)
      invariant HoldsRow(cur, a, b, i, j - 1)
    {
      var cost := 1;
      if ca == b[j - 1] {
        cost := 0;
      }
      CellStep(a, b, i, j);
      cur[j] := Min(Min(prev[j] + 1, cur[j - 1] + 1), prev[j - 1] + cost);
    }
  }

  method LevRunes(a: Text, b: Text) returns (d: nat)
    ensures d == Distance(a, b)
  {
    var la, lb := |a|, |b|;
    if la == 0 { return lb; }
    if lb == 0 { return la; }
    var prev := new nat[lb + 1];
    for j := 0 to lb + 1
      invariant forall k :: 0 <= k < j ==> prev[k] == k == Cell(a, b, 0, k)
    {
      prev[j] := j;
    }
    var cur := new nat[lb + 1];
    for i := 1 to la + 1
      invariant fresh(prev) && fresh(cur) && prev != cur && cur.Length == lb + 1
      invariant HoldsRow(prev, a, b, i - 1, lb)
    {
      FillRow(a, b, i, prev, cur);
      prev, cur := cur, prev;
    }
    assert a[..la] == a && b[..lb] == b;
    return prev[lb];
  }

  // ----- Edit scripts -----

  datatype Edit = Insert(at: nat, c: Rune) | Delete(at: nat) | Substitute(at: nat, c: Rune)

  type Script = seq<Edit>

  predicate Applies(e: Edit, s: Text) {
    if e.Insert? then e.at <= |s| else e.at < |s|
  }

  function Apply(e: Edit, s: Text): Text
    requires Applies(e, s)
  {
    match e
    case Insert(at, c) => s[..at] + [c] + s[at..]
    case Delete(at) => s[..at] + s[at + 1..]
    case Substitute(at, c) => s[..at] + [c] + s[at + 1..]
  }

  /** Running the script from left to right turns `s` into `t`. */
  predicate Transforms(es: Script, s: Text, t: Text) {
    if es == [] then s == t
    else Applies(es[0], s) && Transforms(es[1..], Apply(es[0], s), t)
  }

  lemma PrependEdit(e: Edit, es: Script, s: Text, t: Text)
    requires Applies(e, s) && Transforms(es, Apply(e, s), t)
    ensures Transforms([e] + es, s, t)
  {
    assert ([e] + es)[1..] == es;
  }

  lemma AppendEdit(es: Script, e: Edit, s: Text, t: Text)
    requires Applies(e, t) && Transforms(es, s, t)
    ensures Transforms(es + [e], s, Apply(e, t))
  {
    PrependEdit(e, [], t, Apply(e, t));
    ConcatScripts(es, [e], s, t, Apply(e, t));
  }

  lemma Regroup(e: Edit, es: Script, fs: Script)
    ensures [e] + es + fs == [e] + (es + fs)
  {
  }

  lemma {:induction false} ConcatScripts(es: Script, fs: Script, s: Text, t: Text, u: Text)
    requires Transforms(es, s, t) && Transforms(fs, t, u)
    ensures Transforms(es + fs, s, u)
    decreases |es|
  {
    if es == [] {
      assert es + fs == fs;
    } else {
      var e, rest := es[0], es[1..];
      ConcatScripts(rest, fs, Apply(e, s), t, u);
      PrependEdit(e, rest + fs, s, u);
      Regroup(e, rest, fs);
      assert es == [e] + rest;
    }
  }

  lemma ExtendEdit(e: Edit, s: Text, x: Rune)
    requires Applies(e, s)
    ensures Applies(e, s + [x]) && Apply(e, s + [x]) == Apply(e, s) + [x]
  {
    assert (s + [x])[..e.at] == s[..e.at];
    assert (s + [x])[e.at..] == s[e.at..] + [x];
    if !e.Insert? {
      assert (s + [x])[e.at + 1..] == s[e.at + 1..] + [x];
    }
  }

  /** A script never looks at what follows the text it edits. */
  lemma {:induction false} ExtendText(es: Script, s: Text, t: Text, x: Rune)
    requires Transforms(es, s, t)
    ensures Transforms(es, s + [x], t + [x])
  {
    if es != [] {
      ExtendEdit(es[0], s, x);
      ExtendText(es[1..], Apply(es[0], s), t, x);
    }
  }

  lemma DeleteAll(s: Text) returns (es: Script)
    ensures |es| == |s| && Transforms(es, s, [])
  {
    if s == [] {
      es := [];
    } else {
      es := DeleteAll(s[1..]);
      assert Apply(Delete(0), s) == s[1..];
      PrependEdit(Delete(0), es, s, []);
      es := [Delete(0)] + es;
    }
  }

  lemma InsertAll(t: Text) returns (es: Script)
    ensures |es| == |t| && Transforms(es, [], t)
  {
    if t == [] {
      es := [];
    } else {
      es := InsertAll(Init(t));
      es := InsertLast(es, [], t);
    }
  }

  lemma DeleteLast(es: Script, s: Text, t: Text) returns (fs: Script)
    requires s != [] && Transforms(es, Init(s), t)
    ensures |fs| == |es| + 1 && Transforms(fs, s, t)
  {
    assert Apply(Delete(|s| - 1), s) == Init(s);
    PrependEdit(Delete(|s| - 1), es, s, t);
    fs := [Delete(|s| - 1)] + es;
  }

  lemma InsertLast(es: Script, s: Text, t: Text) returns (fs: Script)
    requires t != [] && Transforms(es, s, Init(t))
    ensures |fs| == |es| + 1 && Transforms(fs, s, t)
  {
    assert Apply(Insert(|t| - 1, Last(t)), Init(t)) == t;
    AppendEdit(es, Insert(|t| - 1, Last(t)), s, Init(t));
    fs := es + [Insert(|t| - 1, Last(t))];
  }

  lemma InitAndLast(s: Text)
    requires s != []
    ensures Init(s) + [Last(s)] == s
  {
  }

  lemma KeepLast(es: Script, s: Text, t: Text)
    requires s != [] && t != [] && Last(s) == Last(t) && Transforms(es, Init(s), Init(t))
    ensures Transforms(es, s, t)
  {
    ExtendText(es, Init(s), Init(t), Last(t));
    InitAndLast(s);
    InitAndLast(t);
  }

  lemma SubstitutesLast(s: Text, c: Rune)
    requires s != []
    ensures Apply(Substitute(|s| - 1, c), s) == Init(s) + [c]
  {
  }

  lemma SubstituteLast(es: Script, s: Text, t: Text) returns (fs: Script)
    requires s != [] && t != [] && Transforms(es, Init(s), Init(t))
    ensures |fs| == |es| + 1 && Transforms(fs, s, t)
  {
    var e := Substitute(|s| - 1, Last(t));
    ExtendText(es, Init(s), Init(t), Last(t));
    InitAndLast(t);
    SubstitutesLast(s, Last(t));
    PrependEdit(e, es, s, t);
    fs := [e] + es;
  }

  lemma PairLast(es: Script, s: Text, t: Text) returns (fs: Script)
    requires s != [] && t != [] && Transforms(es, Init(s), Init(t))
    ensures |fs| == |es| + Cost(Last(s), Last(t)) && Transforms(fs, s, t)
  {
    if Last(s) == Last(t) {
      KeepLast(es, s, t);
      fs := es;
    } else {
      fs := SubstituteLast(es, s, t);
    }
  }

  /** A script of `Distance(a, b)` edits exists. */
  lemma {:induction false} ShortestScript(a: Text, b: Text) returns (es: Script)
    ensures |es| == Distance(a, b) && Transforms(es, a, b)
    decreases |a| + |b|
  {
    if a == [] {
      es := InsertAll(b);
    } else if b == [] {
      es := DeleteAll(a);
    } else if Distance(a, b) == Distance(Init(a), b) + 1 {
      es := ShortestScript(Init(a), b);
      es := DeleteLast(es, a, b);
    } else if Distance(a, b) == Distance(a, Init(b)) + 1 {
      es := ShortestScript(a, Init(b));
      es := InsertLast(es, a, b);
    } else {
      es := ShortestScript(Init(a), Init(b));
      es := PairLast(es, a, b);
    }
  }

  /** Growing the first text by one rune moves the distance by at most one. */
  lemma {:induction false} InsertMovesByOne(u: Text, c: Rune, v: Text, b: Text)
    ensures Distance(u + v, b) <= Distance(u + [c] + v, b) + 1
    ensures Distance(u + [c] + v, b) <= Distance(u + v, b) + 1
    decreases |v| + |b|
  {
    var s, t := u + v, u + [c] + v;
    if b == [] {
    } else if v == [] {
      assert Init(t) == u && s == u;
      InsertMovesByOne(u, c, v, Init(b));
      assert u + [c] + v == t;
      LastMovesByOne(u, b);
    } else {
      assert Init(s) == u + Init(v) && Init(t) == u + [c] + Init(v) && Last(s) == Last(t);
      InsertMovesByOne(u, c, Init(v), b);
      InsertMovesByOne(u, c, v, Init(b));
      InsertMovesByOne(u, c, Init(v), Init(b));
    }
  }

  /** Shrinking the second text by its last rune moves the distance by at most one. */
  lemma {:induction false} LastMovesByOne(a: Text, b: Text)
    requires b != []
    ensures Distance(a, b) <= Distance(a, Init(b)) + 1
    ensures Distance(a, Init(b)) <= Distance(a, b) + 1
    decreases |a|
  {
    if a != [] {
      LastMovesByOne(Init(a), b);
    }
  }

  lemma {:induction false} SubstituteMovesByOne(u: Text, x: Rune, y: Rune, v: Text, b: Text)
    ensures Distance(u + [x] + v, b) <= Distance(u + [y] + v, b) + 1
    decreases |v| + |b|
  {
    var s, t := u + [x] + v, u + [y] + v;
    if b == [] {
    } else if v == [] {
      assert Init(s) == u == Init(t);
      SubstituteMovesByOne(u, x, y, v, Init(b));
    } else {
      assert Init(s) == u + [x] + Init(v) && Init(t) == u + [y] + Init(v) && Last(s) == Last(t);
      SubstituteMovesByOne(u, x, y, Init(v), b);
      SubstituteMovesByOne(u, x, y, v, Init(b));
      SubstituteMovesByOne(u, x, y, Init(v), Init(b));
    }
  }

  lemma EditMovesByOne(e: Edit, s: Text, b: Text)
    requires Applies(e, s)
    ensures Distance(s, b) <= Distance(Apply(e, s), b) + 1
  {
    match e
    case Insert(at, c) =>
      assert s == s[..at] + s[at..];
      InsertMovesByOne(s[..at], c, s[at..], b);
    case Delete(at) =>
      assert s == s[..at] + [s[at]] + s[at + 1..];
      InsertMovesByOne(s[..at], s[at], s[at + 1..], b);
    case Substitute(at, c) =>
      assert s == s[..at] + [s[at]] + s[at + 1..];
      SubstituteMovesByOne(s[..at], s[at], c, s[at + 1..], b);
  }

  /** No script is shorter than `Distance`. */
  lemma {:induction false} NoShorterScript(es: Script, a: Text, b: Text)
    requires Transforms(es, a, b)
    ensures Distance(a, b) <= |es|
  {
    if es == [] {
      SelfDistance(a);
    } else {
      EditMovesByOne(es[0], a, b);
      NoShorterScript(es[1..], Apply(es[0], a), b);
    }
  }

  lemma {:induction false} SelfDistance(a: Text)
    ensures Distance(a, a) == 0
    decreases |a|
  {
    if a != [] {
      SelfDistance(Init(a));
    }
  }

  // ----- The metric laws -----

  lemma {:induction false} Identity(a: Text, b: Text)
    ensures Distance(a, b) == 0 <==> a == b
  {
    SelfDistance(a);
    var es := ShortestScript(a, b);
  }

  /** Every edit can be undone by one edit. */
  function Undo(e: Edit, s: Text): Edit
    requires Applies(e, s)
  {
    match e
    case Insert(at, c) => Delete(at)
    case Delete(at) => Insert(at, s[at])
    case Substitute(at, c) => Substitute(at, s[at])
  }

  lemma UndoUndoes(e: Edit, s: Text)
    requires Applies(e, s)
    ensures Applies(Undo(e, s), Apply(e, s)) && Apply(Undo(e, s), Apply(e, s)) == s
  {
    var t := Apply(e, s);
    assert t[..e.at] == s[..e.at];
    match e
    case Insert(at, c) =>
      assert t[at + 1..] == s[at..];
    case Delete(at) =>
      assert t[at..] == s[at + 1..];
      assert s == s[..at] + [s[at]] + s[at + 1..];
    case Substitute(at, c) =>
      assert t[at + 1..] == s[at + 1..];
      assert s == s[..at] + [s[at]] + s[at + 1..];
  }

  lemma {:induction false} Backwards(es: Script, s: Text, t: Text) returns (back: Script)
    requires Transforms(es, s, t)
    ensures |back| == |es| && Transforms(back, t, s)
  {
    if es == [] {
      back := [];
    } else {
      var mid := Apply(es[0], s);
      var rest := Backwards(es[1..], mid, t);
      UndoUndoes(es[0], s);
      AppendEdit(rest, Undo(es[0], s), t, mid);
      back := rest + [Undo(es[0], s)];
    }
  }

  lemma {:induction false} NotFartherBack(a: Text, b: Text)
    ensures Distance(b, a) <= Distance(a, b)
  {
    var es := ShortestScript(a, b);
    var back := Backwards(es, a, b);
    NoShorterScript(back, b, a);
  }

  lemma {:induction false} Symmetry(a: Text, b: Text)
    ensures Distance(a, b) == Distance(b, a)
  {
    NotFartherBack(a, b);
    NotFartherBack(b, a);
  }

  lemma {:induction false} Triangle(a: Text, b: Text, c: Text)
    ensures Distance(a, c) <= Distance(a, b) + Distance(b, c)
  {
    var es := ShortestScript(a, b);
    var fs := ShortestScript(b, c);
    ConcatScripts(es, fs, a, b, c);
    NoShorterScript(es + fs, a, c);
  }

  lemma {:induction false} LengthBounds(a: Text, b: Text)
    ensures |a| <= |b| + Distance(a, b) && |b| <= |a| + Distance(a, b)
    ensures Distance(a, b) <= Max(|a|, |b|)
    decreases |a| + |b|
  {
    if a != [] && b != [] {
      LengthBounds(Init(a), b);
      LengthBounds(a, Init(b));
      LengthBounds(Init(a), Init(b));
    }
  }

  lemma Ratio(d: nat, m: nat)
    requires d <= m && 0 < m
    ensures 0.0 <= d as real / m as real <= 1.0
    ensures d as real / m as real == 0.0 <==> d == 0
  {
    var q := d as real / m as real;
    assert q * m as real == d as real;
  }

  /** The normalised distance the resolver thresholds on. */
  method NormDist(a: Text, b: Text) returns (n: real)
    ensures n == Distance(a, b) as real / Max(Max(|a|, |b|), 1) as real
    ensures 0.0 <= n <= 1.0
    ensures n == 0.0 <==> a == b
  {
    var d := LevRunes(a, b);
    var m := Max(Max(|a|, |b|), 1);
    LengthBounds(a, b);
    Identity(a, b);
    Ratio(d, m);
    n := d as real / m as real;
  }
}
