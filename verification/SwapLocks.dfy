/** src/identities/claude-swap-lock.ts: one order for lock directories, and why it cannot deadlock. */
module SwapLocks {
  // ---------- Paths and their order ----------

  /** A character's place in the order of UTF-16 code units: outside the basic plane it begins with a surrogate, and
      surrogates come before U+E000. */
  function Rank(c: char): nat { if '\U{E000}' <= c <= '\U{FFFF}' then c as int + 0x11_0000 else c as int }

  /** JavaScript's string order: by code unit, a prefix first. */
  predicate Less(a: string, b: string) {
    b != "" && (a == "" || Rank(a[0]) < Rank(b[0]) || (a[0] == b[0] && Less(a[1..], b[1..])))
  }

  /** The UTF-16 code units of a character, and of a string. */
  function CharUnits(c: char): (r: seq<nat>)
    ensures c <= '\U{FFFF}' ==> r == [c as int]
    ensures c > '\U{FFFF}' ==>
      && |r| == 2 && 0xd800 <= r[0] < 0xdc00 <= r[1] < 0xe000
      && c as int == 0x1_0000 + 0x400 * (r[0] - 0xd800) + (r[1] - 0xdc00)
  {
    var n := c as int;
    if n < 0x1_0000 then [n] else [0xd800 + (n - 0x1_0000) / 0x400, 0xdc00 + (n - 0x1_0000) % 0x400]
  }

  function Units(s: string): seq<nat> { if s == "" then [] else CharUnits(s[0]) + Units(s[1..]) }

  /** The first place where the two differ decides; a proper prefix comes first. */
  ghost predicate UnitsLess(a: seq<nat>, b: seq<nat>) {
    exists k: nat :: k <= |a| && k < |b| && SameUpTo(a, b, k) && (k < |a| ==> a[k] < b[k])
  }

  predicate SameUpTo(a: seq<nat>, b: seq<nat>, k: nat)
    requires k <= |a| && k <= |b|
  {
    forall i :: 0 <= i < k ==> a[i] == b[i]
  }

  lemma CharUnitsLess(c: char, d: char, a: seq<nat>, b: seq<nat>)
    requires c != d
    ensures UnitsLess(CharUnits(c) + a, CharUnits(d) + b) <==> Rank(c) < Rank(d)
  {
    var (x, y) := (CharUnits(c) + a, CharUnits(d) + b);
    if x[0] == y[0] {
      DiffersAt(x, y, 1);
    } else {
      DiffersAt(x, y, 0);
    }
  }

  lemma DiffersAt(a: seq<nat>, b: seq<nat>, k: nat)
    requires k < |a| && k < |b| && SameUpTo(a, b, k) && a[k] != b[k]
    ensures UnitsLess(a, b) <==> a[k] < b[k]
  {
  }

  lemma SameStart(p: seq<nat>, a: seq<nat>, b: seq<nat>)
    ensures UnitsLess(p + a, p + b) <==> UnitsLess(a, b)
  {
    var (x, y) := (p + a, p + b);
    if k: nat :| k <= |a| && k < |b| && SameUpTo(a, b, k) && (k < |a| ==> a[k] < b[k]) {
      assert SameUpTo(x, y, |p| + k);
    }
    if k: nat :| k <= |x| && k < |y| && SameUpTo(x, y, k) && (k < |x| ==> x[k] < y[k]) {
      assert k >= |p|;
      forall i | 0 <= i < k - |p| ensures a[i] == b[i] { assert x[|p| + i] == y[|p| + i]; }
      assert SameUpTo(a, b, k - |p|);
    }
  }

  /** The order is that of the code units. */
  lemma {:induction false} LessByUnits(a: string, b: string)
    ensures Less(a, b) <==> UnitsLess(Units(a), Units(b))
  {
    hide UnitsLess;
    if a == "" || b == "" {
      EmptyUnits(Units(a), Units(b));
    } else if a[0] == b[0] {
      SameStart(CharUnits(a[0]), Units(a[1..]), Units(b[1..]));
      LessByUnits(a[1..], b[1..]);
    } else {
      CharUnitsLess(a[0], b[0], Units(a[1..]), Units(b[1..]));
    }
  }

  lemma EmptyUnits(a: seq<nat>, b: seq<nat>)
    requires a == [] || b == []
    ensures UnitsLess(a, b) <==> b != []
  {
    if b != [] { assert SameUpTo(a, b, 0); }
  }

  lemma {:induction false} LessTotal(a: string, b: string)
    ensures Less(a, b) || Less(b, a) || a == b
    ensures !(Less(a, b) && Less(b, a)) && !Less(a, a)
  {
    if a != "" { LessTotal(a[1..], a[1..]); }
    if a != "" && b != "" && a[0] == b[0] {
      LessTotal(a[1..], b[1..]);
      if a[1..] == b[1..] { assert a == [a[0]] + a[1..] && b == [b[0]] + b[1..]; }
    }
  }

  lemma {:induction false} LessTransitive(a: string, b: string, c: string)
    requires Less(a, b) && Less(b, c)
    ensures Less(a, c)
  {
    if a != "" && a[0] == b[0] == c[0] { LessTransitive(a[1..], b[1..], c[1..]); }
  }

  const REFRESH_LOCK := "/.oauth_refresh.lock"
  const JSON_LOCK := "/.claude.json.lock"

  /** `join` of a resolved directory and a file name: only the root keeps its own slash. */
  function Join(dir: string, name: string): string { if dir == "/" then name else dir + name }

  function RefreshPath(dir: string): string { Join(dir, REFRESH_LOCK) }

  function JsonPath(dir: string): string { Join(dir, JSON_LOCK) }

  /** A resolved directory: absolute, and without a trailing slash unless it is the root. */
  predicate Resolved(dir: string) { dir != "" && dir[0] == '/' && (dir == "/" || dir[|dir| - 1] != '/') }

  lemma PathInjective(a: string, b: string)
    requires Resolved(a) && Resolved(b) && RefreshPath(a) == RefreshPath(b)
    ensures a == b
  {
    var n := |REFRESH_LOCK|;
    assert |RefreshPath(a)| == n + (if a == "/" then 0 else |a|);
    assert |RefreshPath(b)| == n + (if b == "/" then 0 else |b|);
    if a != "/" && b != "/" {
      assert a == RefreshPath(a)[..|RefreshPath(a)| - n] && b == RefreshPath(b)[..|RefreshPath(b)| - n];
    }
  }

  // ---------- lockOrder ----------

  predicate Ordered(dirs: seq<string>) {
    forall i, j :: 0 <= i < j < |dirs| ==> Less(RefreshPath(dirs[i]), RefreshPath(dirs[j]))
  }

  /** `xs` is ordered; `d` goes in its place unless it is there already. */
  function Insert(xs: seq<string>, d: string): (r: seq<string>)
    ensures |r| <= |xs| + 1
  {
    if xs == [] then [d]
    else if xs[0] == d then xs
    else if Less(RefreshPath(d), RefreshPath(xs[0])) then [d] + xs
    else [xs[0]] + Insert(xs[1..], d)
  }

  /** Resolved, without duplicates, sorted by lock path. */
  function LockOrder(resolve: string -> string, dirs: seq<string>): (o: seq<string>)
    ensures |o| <= |dirs|
  {
    if dirs == [] then [] else Insert(LockOrder(resolve, dirs[1..]), resolve(dirs[0]))
  }

  lemma {:induction false} InsertMembers(xs: seq<string>, d: string)
    ensures forall x :: x in Insert(xs, d) <==> x in xs || x == d
  {
    if xs != [] && xs[0] != d && !Less(RefreshPath(d), RefreshPath(xs[0])) {
      InsertMembers(xs[1..], d);
      assert xs == [xs[0]] + xs[1..];
    }
  }

  lemma {:induction false} InsertOrdered(xs: seq<string>, d: string)
    requires Ordered(xs) && Resolved(d) && forall x :: x in xs ==> Resolved(x)
    ensures Ordered(Insert(xs, d))
  {
    hide Less, RefreshPath;
    if xs != [] && xs[0] != d {
      var p := RefreshPath(d);
      if Less(p, RefreshPath(xs[0])) {
        var r := [d] + xs;
        forall i, j | 0 <= i < j < |r| ensures Less(RefreshPath(r[i]), RefreshPath(r[j])) {
          if i == 0 && j > 1 { LessTransitive(p, RefreshPath(xs[0]), RefreshPath(xs[j - 1])); }
        }
      } else {
        InsertOrdered(xs[1..], d);
        InsertMembers(xs[1..], d);
        LessTotal(p, RefreshPath(xs[0]));
        if p == RefreshPath(xs[0]) { PathInjective(d, xs[0]); }
        var tail := Insert(xs[1..], d);
        var r := [xs[0]] + tail;
        forall i, j | 0 <= i < j < |r| ensures Less(RefreshPath(r[i]), RefreshPath(r[j])) {
          if i == 0 {
            assert r[j] in tail;
            if r[j] != d {
              var k :| 0 <= k < |xs[1..]| && xs[1..][k] == r[j];
              assert xs[k + 1] == r[j];
            }
          }
        }
      }
    }
  }

  /** `lockOrder`: the same directories, each once, in strictly increasing order of their lock paths. */
  lemma {:induction false} LockOrderOrdered(resolve: string -> string, dirs: seq<string>)
    requires forall d :: Resolved(resolve(d))
    ensures Ordered(LockOrder(resolve, dirs))
    ensures forall x :: x in LockOrder(resolve, dirs) <==> exists i :: 0 <= i < |dirs| && resolve(dirs[i]) == x
  {
    if dirs != [] {
      LockOrderOrdered(resolve, dirs[1..]);
      var rest, d := LockOrder(resolve, dirs[1..]), resolve(dirs[0]);
      InsertOrdered(rest, d);
      InsertMembers(rest, d);
      forall x ensures x in Insert(rest, d) <==> exists i :: 0 <= i < |dirs| && resolve(dirs[i]) == x {
        if x in rest {
          var i :| 0 <= i < |dirs| - 1 && resolve(dirs[1..][i]) == x;
          assert resolve(dirs[i + 1]) == x;
        }
        if i :| 0 <= i < |dirs| && resolve(dirs[i]) == x {
          if i > 0 { assert resolve(dirs[1..][i - 1]) == x; }
        }
      }
    }
  }

  /** Sorted and without duplicates, there is only one such list: the order is the same for every caller. */
  lemma {:induction false} OrderUnique(a: seq<string>, b: seq<string>)
    requires Ordered(a) && Ordered(b) && forall x :: x in a <==> x in b
    ensures a == b
  {
    assert b != [] ==> b[0] in b;
    if a != [] {
      assert a[0] in b;
      assert b[0] in a;
      var i :| 0 <= i < |b| && b[i] == a[0];
      var j :| 0 <= j < |a| && a[j] == b[0];
      LessTotal(RefreshPath(a[0]), RefreshPath(b[0]));
      assert a[0] == b[0];
      forall x ensures x in a[1..] <==> x in b[1..] {
        SplitHead(a, x);
        SplitHead(b, x);
      }
      OrderUnique(a[1..], b[1..]);
      assert a == [a[0]] + a[1..] && b == [b[0]] + b[1..];
    }
  }

  lemma SplitHead(a: seq<string>, x: string)
    requires Ordered(a) && a != []
    ensures x in a[1..] <==> x in a && x != a[0]
  {
    LessTotal(RefreshPath(a[0]), RefreshPath(a[0]));
    if x in a && x != a[0] {
      var i :| 0 <= i < |a| && a[i] == x;
      assert a[1..][i - 1] == x;
    }
    if x in a[1..] {
      var i :| 0 <= i < |a| - 1 && a[1..][i] == x;
      assert a[i + 1] == x;
    }
  }

  // ---------- The protocol ----------

  datatype Lock = Refresh(dir: string) | ClaudeJson(dir: string)

  function LockPath(l: Lock): string {
    match l
    case Refresh(dir) => RefreshPath(dir)
    case ClaudeJson(dir) => JsonPath(dir)
  }

  /** Two locks share a directory on disk only when they are the same lock: a lock is its path. */
  lemma LockPathInjective(a: Lock, b: Lock)
    requires Resolved(a.dir) && Resolved(b.dir) && LockPath(a) == LockPath(b)
    ensures a == b
  {
    var p := LockPath(a);
    assert p[|p| - 6] == if a.Refresh? then 'h' else 'n';
    assert p[|p| - 6] == if b.Refresh? then 'h' else 'n';
    if a.Refresh? { PathInjective(a.dir, b.dir); } else { JsonPathInjective(a.dir, b.dir); }
  }

  lemma JsonPathInjective(a: string, b: string)
    requires Resolved(a) && Resolved(b) && JsonPath(a) == JsonPath(b)
    ensures a == b
  {
    var n := |JSON_LOCK|;
    assert |JsonPath(a)| == n + (if a == "/" then 0 else |a|) && |JsonPath(b)| == n + (if b == "/" then 0 else |b|);
    if a != "/" && b != "/" {
      assert a == JsonPath(a)[..|JsonPath(a)| - n] && b == JsonPath(b)[..|JsonPath(b)| - n];
    }
  }

  /** Refresh locks before `.claude.json` locks, each kind by refresh path. */
  predicate Before(a: Lock, b: Lock) {
    match (a, b)
    case (Refresh(x), Refresh(y)) => Less(RefreshPath(x), RefreshPath(y))
    case (Refresh(_), ClaudeJson(_)) => true
    case (ClaudeJson(_), Refresh(_)) => false
    case (ClaudeJson(x), ClaudeJson(y)) => Less(RefreshPath(x), RefreshPath(y))
  }

  /** The locks a call takes, in the order it takes them. */
  predicate Increasing(plan: seq<Lock>) { forall i, j :: 0 <= i < j < |plan| ==> Before(plan[i], plan[j]) }

  /** `withOauthRefreshLocks` over any directories, and `withClaudeLocks` of one. */
  function RefreshPlan(resolve: string -> string, dirs: seq<string>): seq<Lock> {
    var o := LockOrder(resolve, dirs);
    seq(|o|, i requires 0 <= i < |o| => Refresh(o[i]))
  }

  /** As the code takes them: the first of the order, then a call for the rest, which orders them again. */
  function NestedPlan(resolve: string -> string, dirs: seq<string>): seq<Lock>
    decreases |dirs|
  {
    var o := LockOrder(resolve, dirs);
    if o == [] then [] else [Refresh(o[0])] + NestedPlan(resolve, o[1..])
  }

  lemma RestKeepsOrder(resolve: string -> string, dirs: seq<string>)
    requires (forall d :: Resolved(resolve(d))) && (forall d :: resolve(resolve(d)) == resolve(d))
    ensures var o := LockOrder(resolve, dirs); o != [] ==> LockOrder(resolve, o[1..]) == o[1..]
  {
    var o := LockOrder(resolve, dirs);
    if o != [] {
      var rest := o[1..];
      LockOrderOrdered(resolve, dirs);
      LockOrderOrdered(resolve, rest);
      forall k | 0 <= k < |rest| ensures resolve(rest[k]) == rest[k] { assert rest[k] in o; }
      forall x ensures x in LockOrder(resolve, rest) <==> x in rest {
        if x in rest {
          var k :| 0 <= k < |rest| && rest[k] == x;
          assert resolve(rest[k]) == x;
        }
      }
      OrderUnique(LockOrder(resolve, rest), rest);
    }
  }

  /** Ordering the rest again at every level changes nothing: the locks are taken in the order of the whole list. */
  lemma {:induction false} NestedIsFlat(resolve: string -> string, dirs: seq<string>)
    requires (forall d :: Resolved(resolve(d))) && (forall d :: resolve(resolve(d)) == resolve(d))
    ensures NestedPlan(resolve, dirs) == RefreshPlan(resolve, dirs)
    decreases |dirs|
  {
    var o := LockOrder(resolve, dirs);
    if o != [] {
      RestKeepsOrder(resolve, dirs);
      NestedIsFlat(resolve, o[1..]);
      assert RefreshPlan(resolve, dirs) == [Refresh(o[0])] + RefreshPlan(resolve, o[1..]);
    }
  }

  function ClaudePlan(dir: string): seq<Lock> { [Refresh(dir), ClaudeJson(dir)] }

  lemma PlansIncrease(resolve: string -> string, dirs: seq<string>, dir: string)
    requires forall d :: Resolved(resolve(d))
    ensures Increasing(RefreshPlan(resolve, dirs)) && Increasing(ClaudePlan(dir))
  {
    LockOrderOrdered(resolve, dirs);
  }

  lemma BeforeTransitive(a: Lock, b: Lock, c: Lock)
    requires Before(a, b) && Before(b, c)
    ensures Before(a, c)
  {
    if Less(RefreshPath(a.dir), RefreshPath(b.dir)) && Less(RefreshPath(b.dir), RefreshPath(c.dir)) {
      LessTransitive(RefreshPath(a.dir), RefreshPath(b.dir), RefreshPath(c.dir));
    }
  }

  lemma BeforeIrreflexive(a: Lock)
    ensures !Before(a, a)
  {
    LessTotal(RefreshPath(a.dir), RefreshPath(a.dir));
  }

  /** A caller taking its locks, running its callback, giving the locks back in reverse, or finished.
      Who gives up gives back what was taken. */
  datatype Caller =
    | Taking(plan: seq<Lock>, held: nat) | Running(plan: seq<Lock>) | Releasing(plan: seq<Lock>, held: nat) | Done

  function HeldBy(c: Caller): seq<Lock>
    requires CallerOk(c)
  {
    match c
    case Taking(plan, n) => plan[..n]
    case Running(plan) => plan
    case Releasing(plan, n) => plan[..n]
    case Done => []
  }

  predicate CallerOk(c: Caller) {
    match c
    case Taking(plan, n) => n <= |plan| && Increasing(plan)
    case Running(plan) => Increasing(plan)
    case Releasing(plan, n) => n <= |plan| && Increasing(plan)
    case Done => true
  }

  /** The lock directories that exist, with the caller that made each. */
  datatype System = System(callers: seq<Caller>, owner: map<Lock, nat>)

  /** Every existing lock directory has one owner, and callers hold exactly what they own. */
  ghost predicate Inv(s: System) {
    && (forall c :: 0 <= c < |s.callers| ==> CallerOk(s.callers[c]))
    && (forall l :: l in s.owner ==> s.owner[l] < |s.callers| && l in HeldBy(s.callers[s.owner[l]]))
    && (forall c, l :: 0 <= c < |s.callers| && l in HeldBy(s.callers[c]) ==> l in s.owner && s.owner[l] == c)
  }

  /** `mkdir` succeeds exactly when the directory does not exist; then the next lock, the callback, and the way back. */
  ghost predicate Advances(s: System, s': System, c: nat) {
    c < |s.callers| && CallerOk(s.callers[c]) &&
    match s.callers[c]
    case Taking(plan, n) =>
      || (n == |plan| && s' == s.(callers := s.callers[c := Running(plan)]))
      || (n < |plan| && plan[n] !in s.owner
          && s' == System(s.callers[c := Taking(plan, n + 1)], s.owner[plan[n] := c]))
    case Running(plan) => s' == s.(callers := s.callers[c := Releasing(plan, |plan|)])
    case Releasing(plan, n) =>
      if n == 0 then s' == s.(callers := s.callers[c := Done])
      else s' == System(s.callers[c := Releasing(plan, n - 1)], s.owner - {plan[n - 1]})
    case Done => false
  }

  /** A caller gives up on its next lock: it waited too long, or `mkdir` failed for another reason. */
  ghost predicate GivesUp(s: System, s': System, c: nat) {
    && c < |s.callers| && CallerOk(s.callers[c]) && s.callers[c].Taking? && s.callers[c].held < |s.callers[c].plan|
    && s' == s.(callers := s.callers[c := Releasing(s.callers[c].plan, s.callers[c].held)])
  }

  ghost predicate Step(s: System, s': System, c: nat) { Advances(s, s', c) || GivesUp(s, s', c) }

  function Start(plans: seq<seq<Lock>>): System {
    System(seq(|plans|, i requires 0 <= i < |plans| => Taking(plans[i], 0)), map[])
  }

  lemma StartOk(plans: seq<seq<Lock>>)
    requires forall i :: 0 <= i < |plans| ==> Increasing(plans[i])
    ensures Inv(Start(plans))
  {
  }

  lemma Distinct(plan: seq<Lock>, i: nat, j: nat)
    requires Increasing(plan) && i < |plan| && j < |plan| && plan[i] == plan[j]
    ensures i == j
  {
    BeforeIrreflexive(plan[i]);
  }

  lemma SameHeld(s: System, c: nat, next: Caller)
    requires Inv(s) && c < |s.callers| && CallerOk(next) && HeldBy(next) == HeldBy(s.callers[c])
    ensures Inv(s.(callers := s.callers[c := next]))
  {
    hide HeldBy, CallerOk;
  }

  lemma OneMore(s: System, c: nat, next: Caller, l: Lock)
    requires Inv(s) && c < |s.callers| && CallerOk(next) && l !in s.owner
    requires HeldBy(next) == HeldBy(s.callers[c]) + [l]
    ensures Inv(System(s.callers[c := next], s.owner[l := c]))
  {
    hide HeldBy, CallerOk;
    var s' := System(s.callers[c := next], s.owner[l := c]);
    forall d, k | 0 <= d < |s'.callers| && k in HeldBy(s'.callers[d]) ensures k in s'.owner && s'.owner[k] == d {
      if d == c {
        if k != l { assert k in HeldBy(s.callers[c]); }
      } else {
        assert k in HeldBy(s.callers[d]);
      }
    }
  }

  lemma OneLess(s: System, c: nat, next: Caller, l: Lock)
    requires Inv(s) && c < |s.callers| && CallerOk(next)
    requires HeldBy(s.callers[c]) == HeldBy(next) + [l] && l !in HeldBy(next)
    ensures Inv(System(s.callers[c := next], s.owner - {l}))
  {
    hide HeldBy, CallerOk;
    var s' := System(s.callers[c := next], s.owner - {l});
    assert l in HeldBy(s.callers[c]) && s.owner[l] == c;
    forall d, k | 0 <= d < |s'.callers| && k in HeldBy(s'.callers[d]) ensures k in s'.owner && s'.owner[k] == d {
      assert k in HeldBy(s.callers[d]);
    }
    forall k | k in s'.owner ensures s'.owner[k] < |s'.callers| && k in HeldBy(s'.callers[s'.owner[k]]) {
      if s.owner[k] == c { assert k in HeldBy(s.callers[c]); }
    }
  }

  lemma StepKeepsInv(s: System, s': System, c: nat)
    requires Inv(s) && Step(s, s', c)
    ensures Inv(s')
  {
    hide Inv, Increasing;
    var next := s'.callers[c];
    match s.callers[c]
    case Taking(plan, n) =>
      if n == |plan| {
        assert plan[..n] == plan;
        SameHeld(s, c, next);
      } else if next.Taking? {
        assert plan[..n + 1] == plan[..n] + [plan[n]];
        OneMore(s, c, next, plan[n]);
      } else {
        SameHeld(s, c, next);
      }
    case Running(plan) =>
      assert plan[..|plan|] == plan;
      SameHeld(s, c, next);
    case Releasing(plan, n) =>
      if n == 0 {
        assert plan[..0] == [];
        SameHeld(s, c, next);
      } else {
        assert plan[..n] == plan[..n - 1] + [plan[n - 1]];
        LastIsNew(plan, n);
        OneLess(s, c, next, plan[n - 1]);
      }
  }

  lemma LastIsNew(plan: seq<Lock>, n: nat)
    requires Increasing(plan) && 0 < n <= |plan|
    ensures plan[n - 1] !in plan[..n - 1]
  {
    if plan[n - 1] in plan[..n - 1] {
      var i :| 0 <= i < n - 1 && plan[..n - 1][i] == plan[n - 1];
      Distinct(plan, i, n - 1);
    }
  }

  /** Mutual exclusion: no lock is held by two callers, in any reachable state. */
  lemma Exclusive(s: System, a: nat, b: nat, l: Lock)
    requires Inv(s) && a < |s.callers| && b < |s.callers|
    requires l in HeldBy(s.callers[a]) && l in HeldBy(s.callers[b])
    ensures a == b
  {
    assert s.owner[l] == a && s.owner[l] == b;
  }

  /** The lock caller c cannot get now. */
  predicate Blocked(s: System, c: nat) {
    c < |s.callers| && s.callers[c].Taking? && s.callers[c].held < |s.callers[c].plan|
    && s.callers[c].plan[s.callers[c].held] in s.owner
  }

  function Wanted(s: System, c: nat): Lock
    requires Blocked(s, c)
  {
    s.callers[c].plan[s.callers[c].held]
  }

  /** Among a set of callers all blocked, one waits for a lock no other waits beyond. */
  lemma {:induction false} Greatest(s: System, cs: set<nat>) returns (m: nat)
    requires cs != {} && forall c :: c in cs ==> Blocked(s, c)
    ensures m in cs && forall c :: c in cs ==> !Before(Wanted(s, m), Wanted(s, c))
  {
    m :| m in cs;
    if cs == {m} {
      BeforeIrreflexive(Wanted(s, m));
    } else {
      var g := Greatest(s, cs - {m});
      BeforeIrreflexive(Wanted(s, m));
      BeforeIrreflexive(Wanted(s, g));
      if Before(Wanted(s, g), Wanted(s, m)) {
        forall c | c in cs ensures !Before(Wanted(s, m), Wanted(s, c)) {
          if Before(Wanted(s, m), Wanted(s, c)) { BeforeTransitive(Wanted(s, g), Wanted(s, m), Wanted(s, c)); }
        }
      } else {
        m := g;
      }
    }
  }

  /** Who owns the lock a caller waits for is unfinished, and can only be waiting for a later one. */
  lemma OwnerWaitsBeyond(s: System, c: nat)
    requires Inv(s) && Blocked(s, c)
    ensures var o := s.owner[Wanted(s, c)];
      o < |s.callers| && !s.callers[o].Done? && (Blocked(s, o) ==> Before(Wanted(s, c), Wanted(s, o)))
  {
    var l := Wanted(s, c);
    var o := s.owner[l];
    assert l in HeldBy(s.callers[o]);
    if Blocked(s, o) {
      var caller := s.callers[o];
      var i :| 0 <= i < caller.held && caller.plan[..caller.held][i] == l;
    }
  }

  /** No deadlock: while some caller is unfinished, some caller can move without waiting for anybody. */
  lemma NoDeadlock(s: System)
    requires Inv(s) && exists c :: 0 <= c < |s.callers| && !s.callers[c].Done?
    ensures exists c :: 0 <= c < |s.callers| && !s.callers[c].Done? && !Blocked(s, c)
  {
    var open := set c: nat | c < |s.callers| && !s.callers[c].Done?;
    var some :| 0 <= some < |s.callers| && !s.callers[some].Done?;
    assert some in open;
    if forall c :: c in open ==> Blocked(s, c) {
      var m := Greatest(s, open);
      OwnerWaitsBeyond(s, m);
      assert false;
    }
    var c :| c in open && !Blocked(s, c);
    assert 0 <= c < |s.callers|;
  }

  /** Work left: every step takes one unit. */
  function Work(c: Caller): nat
    requires CallerOk(c)
  {
    match c
    case Taking(plan, n) => 2 * (|plan| - n) + n + 3
    case Running(plan) => |plan| + 2
    case Releasing(_, n) => n + 1
    case Done => 0
  }

  function TotalWork(cs: seq<Caller>): nat
    requires forall i :: 0 <= i < |cs| ==> CallerOk(cs[i])
  {
    if cs == [] then 0 else Work(cs[0]) + TotalWork(cs[1..])
  }

  lemma {:induction false} WorkUpdate(cs: seq<Caller>, c: nat, next: Caller)
    requires c < |cs| && CallerOk(next) && forall i :: 0 <= i < |cs| ==> CallerOk(cs[i])
    ensures TotalWork(cs[c := next]) == TotalWork(cs) - Work(cs[c]) + Work(next)
  {
    if c == 0 {
      assert cs[c := next][1..] == cs[1..];
    } else {
      assert cs[c := next][1..] == cs[1..][c - 1 := next];
      WorkUpdate(cs[1..], c - 1, next);
    }
  }

  /** Every step uses up work, so every run ends; and it can only end with everybody finished and no lock left. */
  lemma StepsEnd(s: System, s': System, c: nat)
    requires Inv(s) && Step(s, s', c)
    ensures Inv(s') && TotalWork(s'.callers) < TotalWork(s.callers)
  {
    StepKeepsInv(s, s', c);
    WorkUpdate(s.callers, c, s'.callers[c]);
  }

  ghost predicate Next(s: System, s': System) { exists c: nat :: Step(s, s', c) }

  ghost predicate Run(trace: seq<System>) { forall i :: 0 <= i < |trace| - 1 ==> Next(trace[i], trace[i + 1]) }

  predicate AllDone(s: System) { forall c :: 0 <= c < |s.callers| ==> s.callers[c].Done? }

  /** Somebody can go on without giving up and without waiting for anybody. */
  ghost predicate Live(s: System) { exists c: nat, s' :: Advances(s, s', c) && !Blocked(s, c) }

  /** Any run of any callers keeps mutual exclusion, is no longer than the work they brought, never gets stuck, and
      leaves no lock behind. */
  lemma {:induction false} Runs(plans: seq<seq<Lock>>, trace: seq<System>)
    requires trace != [] && trace[0] == Start(plans) && Run(trace)
    requires forall i :: 0 <= i < |plans| ==> Increasing(plans[i])
    ensures var s := trace[|trace| - 1];
      && Inv(s)
      && TotalWork(s.callers) + |trace| - 1 <= TotalWork(Start(plans).callers)
      && (AllDone(s) || Live(s))
      && (AllDone(s) ==> s.owner == map[])
    decreases |trace|
  {
    hide Step, TotalWork, Blocked, HeldBy;
    var s := trace[|trace| - 1];
    if |trace| == 1 {
      StartOk(plans);
    } else {
      var init := trace[..|trace| - 1];
      assert Run(init);
      Runs(plans, init);
      assert Next(init[|trace| - 2], s);
      var c: nat :| Step(init[|trace| - 2], s, c);
      StepsEnd(init[|trace| - 2], s, c);
    }
    Conclude(s);
  }

  lemma Conclude(s: System)
    requires Inv(s)
    ensures AllDone(s) || Live(s)
    ensures AllDone(s) ==> s.owner == map[]
  {
    if AllDone(s) {
      assert forall l :: l !in s.owner;
    } else {
      NoDeadlock(s);
      hide Advances, Inv;
      var c :| 0 <= c < |s.callers| && !s.callers[c].Done? && !Blocked(s, c);
      var s' := Move(s, c);
    }
  }

  lemma Move(s: System, c: nat) returns (s': System)
    requires Inv(s) && c < |s.callers| && !s.callers[c].Done? && !Blocked(s, c)
    ensures Advances(s, s', c)
  {
    match s.callers[c]
    case Taking(plan, n) =>
      s' := if n == |plan| then s.(callers := s.callers[c := Running(plan)])
            else System(s.callers[c := Taking(plan, n + 1)], s.owner[plan[n] := c]);
    case Running(plan) => s' := s.(callers := s.callers[c := Releasing(plan, |plan|)]);
    case Releasing(plan, n) =>
      s' := if n == 0 then s.(callers := s.callers[c := Done])
            else System(s.callers[c := Releasing(plan, n - 1)], s.owner - {plan[n - 1]});
    case Done => s' := s;
  }
}
