/** src/cli/help.ts, `distance`: the two-row loop computes the least number of edits. */
module EditDistance {
  import opened Streams

  /** A UTF-16 code unit, and a word of them. */
  newtype CodeUnit = u: int | 0 <= u < 0x1_0000

  type Word = seq<CodeUnit>

  datatype Edit = Insert(at: nat, c: CodeUnit) | Delete(at: nat) | Replace(at: nat, c: CodeUnit)

  predicate Fits(e: Edit, x: Word) { if e.Insert? then e.at <= |x| else e.at < |x| }

  function ApplyEdit(e: Edit, x: Word): Word
    requires Fits(e, x)
  {
    match e
    case Insert(at, c) => x[..at] + [c] + x[at..]
    case Delete(at) => x[..at] + x[at + 1..]
    case Replace(at, c) => x[..at] + [c] + x[at + 1..]
  }

  /** `script` turns `x` into `y`. */
  predicate Turns(script: seq<Edit>, x: Word, y: Word) {
    if script == [] then x == y else Fits(script[0], x) && Turns(script[1..], ApplyEdit(script[0], x), y)
  }

  /** `n` is the least number of edits turning `a` into `b`. */
  ghost predicate IsLeast(n: nat, a: Word, b: Word) {
    && (exists script :: Turns(script, a, b) && |script| == n)
    && (forall script :: Turns(script, a, b) ==> |script| >= n)
  }

  function Last(x: Word): CodeUnit
    requires x != []
  {
    x[|x| - 1]
  }

  function Init(x: Word): Word
    requires x != []
  {
    x[..|x| - 1]
  }

  /** The recurrence the rows hold. */
  function Dist(a: Word, b: Word): nat
    decreases |a| + |b|
  {
    if a == [] then |b|
    else if b == [] then |a|
    else Min(Min(Dist(Init(a), b) + 1, Dist(a, Init(b)) + 1),
             Dist(Init(a), Init(b)) + if Last(a) == Last(b) then 0 else 1)
  }

  method Distance(a: Word, b: Word) returns (d: nat)
    ensures d == Dist(a, b)
    ensures IsLeast(d, a, b)
  {
    hide Dist, IsLeast;
    var prev := seq(|b| + 1, j => j);
    FirstRow(a, b);
    for i := 1 to |a| + 1
      invariant |prev| == |b| + 1
      invariant forall j :: 0 <= j <= |b| ==> prev[j] == Dist(a[..i - 1], b[..j])
    {
      var row := [i];
      FirstColumn(a, b, i);
      for j := 1 to |b| + 1
        invariant |row| == j
        invariant forall k :: 0 <= k < j ==> row[k] == Dist(a[..i], b[..k])
      {
        Cell(a, b, i, j);
        row := row + [Min(Min(prev[j] + 1, row[j - 1] + 1), prev[j - 1] + if a[i - 1] == b[j - 1] then 0 else 1)];
      }
      prev := row;
    }
    d := prev[|b|];
    assert a[..|a|] == a && b[..|b|] == b;
    DistIsLeast(a, b);
  }

  lemma FirstRow(a: Word, b: Word)
    ensures forall j :: 0 <= j <= |b| ==> Dist(a[..0], b[..j]) == j
  {
  }

  lemma FirstColumn(a: Word, b: Word, i: nat)
    requires i <= |a|
    ensures Dist(a[..i], b[..0]) == i
  {
  }

  lemma {:induction false} Cell(a: Word, b: Word, i: nat, j: nat)
    requires 1 <= i <= |a| && 1 <= j <= |b|
    ensures Dist(a[..i], b[..j]) == Min(Min(Dist(a[..i - 1], b[..j]) + 1, Dist(a[..i], b[..j - 1]) + 1),
                                        Dist(a[..i - 1], b[..j - 1]) + if a[i - 1] == b[j - 1] then 0 else 1)
  {
    hide Dist;
    var x, y := a[..i], b[..j];
    assert Init(x) == a[..i - 1] && Init(y) == b[..j - 1] && Last(x) == a[i - 1] && Last(y) == b[j - 1];
    DistStep(x, y);
  }

  lemma {:induction false} DistStep(x: Word, y: Word)
    requires x != [] && y != []
    ensures Dist(x, y) == Min(Min(Dist(Init(x), y) + 1, Dist(x, Init(y)) + 1),
                              Dist(Init(x), Init(y)) + if Last(x) == Last(y) then 0 else 1)
  {
  }

  // ---------- One edit changes the distance by at most one ----------

  lemma SnocParts(x: Word, y: CodeUnit)
    ensures Init(x + [y]) == x && Last(x + [y]) == y
  {
  }

  lemma DropLast(a: Word, p: Word)
    requires a != []
    ensures Dist(a, p) <= Dist(Init(a), p) + 1
  {
  }

  lemma {:induction false} InsertBound(a: Word, p: Word, c: CodeUnit, s: Word)
    ensures Dist(a, p + [c] + s) <= Dist(a, p + s) + 1
    decreases |a| + |s|
  {
    var x, y := p + [c] + s, p + s;
    if s == [] {
      assert x == p + [c] && y == p;
      SnocParts(p, c);
    } else {
      assert Init(x) == p + [c] + Init(s) && Init(y) == p + Init(s) && Last(x) == Last(y);
      InsertBound(a, p, c, Init(s));
      if a != [] {
        InsertBound(Init(a), p, c, s);
        InsertBound(Init(a), p, c, Init(s));
      }
    }
  }

  lemma {:induction false} DeleteBound(a: Word, p: Word, c: CodeUnit, s: Word)
    ensures Dist(a, p + s) <= Dist(a, p + [c] + s) + 1
    decreases |a| + |s|
  {
    var x, y := p + [c] + s, p + s;
    if s == [] {
      assert x == p + [c] && y == p;
      SnocParts(p, c);
      if a != [] {
        DropLast(a, p);
        DeleteBound(Init(a), p, c, s);
      }
    } else {
      assert Init(x) == p + [c] + Init(s) && Init(y) == p + Init(s) && Last(x) == Last(y);
      DeleteBound(a, p, c, Init(s));
      if a != [] {
        DeleteBound(Init(a), p, c, s);
        DeleteBound(Init(a), p, c, Init(s));
      }
    }
  }

  lemma {:induction false} ReplaceBound(a: Word, p: Word, c: CodeUnit, d: CodeUnit, s: Word)
    ensures Dist(a, p + [d] + s) <= Dist(a, p + [c] + s) + 1
    decreases |a| + |s|
  {
    var x, y := p + [c] + s, p + [d] + s;
    if s == [] {
      assert x == p + [c] && y == p + [d];
      SnocParts(p, c);
      SnocParts(p, d);
      if a != [] {
        DropLast(a, p + [d]);
        ReplaceBound(Init(a), p, c, d, s);
      }
    } else {
      assert Init(x) == p + [c] + Init(s) && Init(y) == p + [d] + Init(s) && Last(x) == Last(y);
      ReplaceBound(a, p, c, d, Init(s));
      if a != [] {
        ReplaceBound(Init(a), p, c, d, s);
        ReplaceBound(Init(a), p, c, d, Init(s));
      }
    }
  }

  lemma EditBound(a: Word, e: Edit, x: Word)
    requires Fits(e, x)
    ensures Dist(a, ApplyEdit(e, x)) <= Dist(a, x) + 1
  {
    match e
    case Insert(at, c) =>
      assert x[..at] + x[at..] == x;
      InsertBound(a, x[..at], c, x[at..]);
    case Delete(at) =>
      assert x[..at] + [x[at]] + x[at + 1..] == x;
      DeleteBound(a, x[..at], x[at], x[at + 1..]);
    case Replace(at, c) =>
      assert x[..at] + [x[at]] + x[at + 1..] == x;
      ReplaceBound(a, x[..at], x[at], c, x[at + 1..]);
  }

  lemma {:induction false} ScriptBound(a: Word, script: seq<Edit>, x: Word, y: Word)
    requires Turns(script, x, y)
    ensures Dist(a, y) <= Dist(a, x) + |script|
  {
    if script != [] {
      EditBound(a, script[0], x);
      ScriptBound(a, script[1..], ApplyEdit(script[0], x), y);
    }
  }

  lemma {:induction false} DistSelf(a: Word)
    ensures Dist(a, a) == 0
  {
    if a != [] { DistSelf(Init(a)); }
  }

  // ---------- A script of that length exists ----------

  /** Edits of a prefix leave what follows it alone. */
  lemma {:induction false} TurnsWithSuffix(script: seq<Edit>, x: Word, y: Word, t: Word)
    requires Turns(script, x, y)
    ensures Turns(script, x + t, y + t)
  {
    if script != [] {
      var e := script[0];
      EditWithSuffix(e, x, t);
      hide ApplyEdit;
      TurnsWithSuffix(script[1..], ApplyEdit(e, x), y, t);
    }
  }

  lemma EditWithSuffix(e: Edit, x: Word, t: Word)
    requires Fits(e, x)
    ensures Fits(e, x + t) && ApplyEdit(e, x + t) == ApplyEdit(e, x) + t
  {
    var at := e.at;
    var k := if e.Insert? then at else at + 1;
    assert (x + t)[..at] == x[..at] && (x + t)[k..] == x[k..] + t;
    Assoc(x[..at], if e.Delete? then [] else [e.c], x[k..], t);
    assert x[..at] + [] == x[..at];
  }

  lemma Assoc(p: Word, m: Word, q: Word, t: Word)
    ensures p + m + (q + t) == (p + m + q) + t
  {
  }

  lemma {:induction false} TurnsConcat(s: seq<Edit>, r: seq<Edit>, x: Word, y: Word, z: Word)
    requires Turns(s, x, y) && Turns(r, y, z)
    ensures Turns(s + r, x, z)
  {
    hide ApplyEdit, Fits;
    if s == [] {
      assert s + r == r;
    } else {
      TurnsConcat(s[1..], r, ApplyEdit(s[0], x), y, z);
      assert (s + r)[1..] == s[1..] + r;
    }
  }

  lemma NoTurn(x: Word)
    ensures Turns([], x, x)
  {
  }

  lemma OneTurn(e: Edit, x: Word)
    requires Fits(e, x)
    ensures Turns([e], x, ApplyEdit(e, x))
  {
    assert [e][1..] == [];
  }

  lemma {:induction false} Script(a: Word, b: Word) returns (script: seq<Edit>)
    ensures Turns(script, a, b) && |script| == Dist(a, b)
    decreases |a| + |b|
  {
    hide Turns;
    if a == [] && b == [] {
      script := [];
      NoTurn(a);
    } else if b != [] && (a == [] || Dist(a, b) == Dist(a, Init(b)) + 1) {
      var s := Script(a, Init(b));
      var e := Insert(|b| - 1, Last(b));
      OneTurn(e, Init(b));
      assert ApplyEdit(e, Init(b)) == b;
      TurnsConcat(s, [e], a, Init(b), b);
      script := s + [e];
    } else if b == [] || Dist(a, b) == Dist(Init(a), b) + 1 {
      var s := Script(Init(a), b);
      var e := Delete(|a| - 1);
      OneTurn(e, a);
      assert ApplyEdit(e, a) == Init(a);
      TurnsConcat([e], s, a, Init(a), b);
      script := [e] + s;
    } else {
      var s := Script(Init(a), Init(b));
      assert a == Init(a) + [Last(a)] && b == Init(b) + [Last(b)];
      TurnsWithSuffix(s, Init(a), Init(b), [Last(b)]);
      if Last(a) == Last(b) {
        script := s;
      } else {
        var e := Replace(|a| - 1, Last(b));
        OneTurn(e, a);
        assert ApplyEdit(e, a) == Init(a) + [Last(b)];
        TurnsConcat([e], s, a, Init(a) + [Last(b)], b);
        script := [e] + s;
      }
    }
  }

  lemma DistIsLeast(a: Word, b: Word)
    ensures IsLeast(Dist(a, b), a, b)
  {
    var script := Script(a, b);
    forall s | Turns(s, a, b) ensures |s| >= Dist(a, b) {
      ScriptBound(a, s, a, b);
      DistSelf(a);
    }
  }

  // ---------- Hence a metric ----------

  /** Every edit can be undone by one edit. */
  lemma Undo(e: Edit, x: Word) returns (u: Edit)
    requires Fits(e, x)
    ensures Fits(u, ApplyEdit(e, x)) && ApplyEdit(u, ApplyEdit(e, x)) == x
  {
    match e
    case Insert(at, c) => u := Delete(at); assert ApplyEdit(u, ApplyEdit(e, x)) == x;
    case Delete(at) => u := Insert(at, x[at]); assert ApplyEdit(u, ApplyEdit(e, x)) == x;
    case Replace(at, c) => u := Replace(at, x[at]); assert ApplyEdit(u, ApplyEdit(e, x)) == x;
  }

  lemma {:induction false} UndoAll(script: seq<Edit>, x: Word, y: Word) returns (back: seq<Edit>)
    requires Turns(script, x, y)
    ensures Turns(back, y, x) && |back| == |script|
  {
    if script == [] {
      back := [];
    } else {
      var next := ApplyEdit(script[0], x);
      var b := UndoAll(script[1..], next, y);
      var u := Undo(script[0], x);
      OneTurn(u, next);
      TurnsConcat(b, [u], y, next, x);
      back := b + [u];
    }
  }

  lemma {:induction false} Symmetric(a: Word, b: Word)
    ensures Dist(a, b) == Dist(b, a)
  {
    NotFarther(a, b);
    NotFarther(b, a);
  }

  lemma {:induction false} NotFarther(a: Word, b: Word)
    ensures Dist(b, a) <= Dist(a, b)
  {
    var s := Script(a, b);
    var back := UndoAll(s, a, b);
    ScriptBound(b, back, b, a);
    DistSelf(b);
  }

  lemma {:induction false} Triangle(a: Word, b: Word, c: Word)
    ensures Dist(a, c) <= Dist(a, b) + Dist(b, c)
  {
    var s := Script(b, c);
    ScriptBound(a, s, b, c);
  }

  lemma {:induction false} ZeroIsSame(a: Word, b: Word)
    ensures Dist(a, b) == 0 <==> a == b
  {
    DistSelf(a);
    var s := Script(a, b);
  }
}
