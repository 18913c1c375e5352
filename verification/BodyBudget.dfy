/** src/gateway/body-budget.ts: first-come admission of request bodies under one byte budget. */
module BodyBudget {
  datatype Waiter = Waiter(id: nat, bytes: nat)

  datatype Outcome = Granted | Queued | Refused

  function Ids(ws: seq<Waiter>): seq<nat> {
    if ws == [] then [] else Ids(ws[..|ws| - 1]) + [ws[|ws| - 1].id]
  }

  /** The bytes of a set of reservations. */
  function Total(m: map<nat, nat>): nat {
    if m == map[] then 0 else var k := Least(m.Keys); m[k] + Total(m - {k})
  }

  /** A fixed choice, so that the sum is a function. */
  function Least(s: set<nat>): (k: nat)
    requires s != {}
    ensures IsLeast(k, s)
  {
    LeastExists(s);
    var k :| IsLeast(k, s);
    k
  }

  predicate IsLeast(k: nat, s: set<nat>) { k in s && forall x :: x in s ==> k <= x }

  lemma {:induction false} LeastExists(s: set<nat>)
    requires s != {}
    ensures exists k :: IsLeast(k, s)
  {
    var k :| k in s;
    var rest := s - {k};
    assert s == {k} + rest;
    if rest == {} {
      assert IsLeast(k, s);
    } else {
      LeastExists(rest);
      var l :| IsLeast(l, rest);
      LeastOfTwo(s, k, l);
    }
  }

  lemma LeastOfTwo(s: set<nat>, k: nat, l: nat)
    requires k in s && IsLeast(l, s - {k})
    ensures IsLeast(if k <= l then k else l, s)
  {
    forall x | x in s ensures (if k <= l then k else l) <= x {
      if x != k { assert x in s - {k}; }
    }
  }

  lemma {:induction false} TotalRemove(m: map<nat, nat>, k: nat)
    requires k in m
    ensures Total(m) == m[k] + Total(m - {k})
    decreases m.Keys
  {
    var l := Least(m.Keys);
    if k != l {
      var a, b := m - {k}, m - {l};
      TotalRemove(b, k);
      assert a.Keys == m.Keys - {k} && b.Keys == m.Keys - {l};
      assert l in a.Keys && forall x :: x in a.Keys ==> l <= x;
      assert Least(a.Keys) == l;
      assert a - {l} == b - {k};
    }
  }

  lemma TotalAdd(m: map<nat, nat>, k: nat, v: nat)
    requires k !in m
    ensures Total(m[k := v]) == Total(m) + v
  {
    TotalRemove(m[k := v], k);
    assert m[k := v] - {k} == m;
  }

  /** `xs` without the elements of `out`, in order. */
  function Without(xs: seq<nat>, out: set<nat>): seq<nat> {
    if xs == [] then []
    else
      var init := Without(xs[..|xs| - 1], out);
      if xs[|xs| - 1] in out then init else init + [xs[|xs| - 1]]
  }

  lemma WithoutSnoc(xs: seq<nat>, x: nat, out: set<nat>)
    ensures Without(xs + [x], out) == Without(xs, out) + (if x in out then [] else [x])
  {
    assert (xs + [x])[..|xs|] == xs;
  }

  lemma {:induction false} WithoutNew(xs: seq<nat>, out: set<nat>, x: nat)
    requires x !in xs
    ensures Without(xs, out + {x}) == Without(xs, out)
  {
    if xs != [] { WithoutNew(xs[..|xs| - 1], out, x); }
  }

  /** Dropping one element that occurs once. */
  lemma {:induction false} WithoutOne(xs: seq<nat>, out: set<nat>, a: seq<nat>, x: nat, b: seq<nat>)
    requires Without(xs, out) == a + [x] + b && x !in a && x !in b
    ensures Without(xs, out + {x}) == a + b
    decreases |xs|
  {
    if xs != [] {
      var init, last := xs[..|xs| - 1], xs[|xs| - 1];
      if last in out {
        WithoutOne(init, out, a, x, b);
      } else {
        var w := Without(init, out);
        assert w + [last] == a + [x] + b;
        assert (w + [last])[..|w|] == w;
        if b == [] {
          assert a + [x] + b == a + [x] && (a + [x])[..|a|] == a;
          WithoutAbsent(init, out, x);
          assert a + b == a;
        } else {
          var b' := b[..|b| - 1];
          assert a + [x] + b == (a + [x] + b') + [b[|b| - 1]];
          assert ((a + [x] + b') + [b[|b| - 1]])[..|w|] == a + [x] + b';
          WithoutOne(init, out, a, x, b');
          assert a + b == (a + b') + [last];
        }
      }
    }
  }

  lemma {:induction false} WithoutAbsent(xs: seq<nat>, out: set<nat>, x: nat)
    requires x !in Without(xs, out)
    ensures Without(xs, out + {x}) == Without(xs, out)
  {
    if xs != [] {
      var init, last := xs[..|xs| - 1], xs[|xs| - 1];
      assert Without(xs, out) == if last in out then Without(init, out) else Without(init, out) + [last];
      assert x !in Without(init, out);
      WithoutAbsent(init, out, x);
    }
  }

  lemma IdsSnoc(ws: seq<Waiter>, w: Waiter)
    ensures Ids(ws + [w]) == Ids(ws) + [w.id]
  {
    assert (ws + [w])[..|ws|] == ws;
  }

  lemma {:induction false} IdsConcat(a: seq<Waiter>, b: seq<Waiter>)
    ensures Ids(a + b) == Ids(a) + Ids(b)
  {
    if b == [] {
      assert a + b == a;
    } else {
      var init, last := b[..|b| - 1], b[|b| - 1];
      assert (a + b)[..|a + b| - 1] == a + init;
      IdsConcat(a, init);
      assert Ids(a) + Ids(init) + [last.id] == Ids(a) + (Ids(init) + [last.id]);
    }
  }

  predicate Distinct(xs: seq<nat>) { forall i, j :: 0 <= i < j < |xs| ==> xs[i] != xs[j] }

  class Budget {
    const limit: nat
    var used: nat
    var waiters: seq<Waiter>
    /** The release functions not yet called, each with the bytes it gives back. */
    var holders: map<nat, nat>

    /** Every reservation in order of arrival; grants in order; those refused or aborted. */
    ghost var arrived: seq<nat>
    ghost var granted: seq<nat>
    ghost var left: set<nat>

    ghost predicate Counted()
      reads this
    {
      && used == Total(holders) <= limit
      && (forall i :: 0 <= i < |waiters| ==> waiters[i].bytes <= limit)
      // Grants happen in order of arrival, and those still waiting come after them.
      && granted + Ids(waiters) == Without(arrived, left)
      && Distinct(arrived)
      && (forall k :: k in holders ==> k in granted)
      && (forall k :: k in left ==> k in arrived)
    }

    /** What the order of grants implies for single reservations. */
    lemma Order()
      requires Counted()
      ensures Distinct(granted + Ids(waiters))
      ensures forall k :: k in granted || k in Ids(waiters) ==> k in arrived && k !in left
    {
      NoDuplicates(arrived, left);
      WithoutSubset(arrived, left);
      forall k | k in granted || k in Ids(waiters) ensures k in arrived && k !in left {
        assert k in granted + Ids(waiters);
      }
    }

    /** No wake-up is lost: the head of the queue does not fit. */
    ghost predicate Settled()
      reads this
    {
      waiters == [] || used + waiters[0].bytes > limit
    }

    ghost predicate Valid()
      reads this
    {
      Counted() && Settled()
    }

    constructor (limit: nat)
      ensures Valid() && this.limit == limit && used == 0 && waiters == [] && holders == map[] && arrived == []
    {
      this.limit, used, waiters := limit, 0, [];
      holders, arrived, granted, left := map[], [], [], {};
    }

    /** A new reservation: granted only when nobody waits and it fits, else queued; refused when already aborted. */
    method Reserve(id: nat, bytes: int, aborted: bool) returns (r: Outcome)
      requires Valid() && id !in arrived
      modifies this
      ensures Valid() && arrived == old(arrived) + [id]
      ensures var want := Want(bytes);
        r == if aborted then Refused else if old(waiters) == [] && old(used) + want <= limit then Granted else Queued
      ensures r.Refused? ==>
        used == old(used) && waiters == old(waiters) && granted == old(granted) && holders == old(holders)
      ensures r.Granted? ==>
        granted == old(granted) + [id] && holders == old(holders)[id := Want(bytes)] && waiters == []
      ensures r.Queued? ==> waiters == old(waiters) + [Waiter(id, Want(bytes))]
      ensures r.Queued? ==> granted == old(granted) && holders == old(holders) && used == old(used)
    {
      hide Without, Total, Ids;
      var want := Want(bytes);
      Order();
      WithoutSnoc(arrived, id, left);
      if aborted {
        WithoutNew(arrived, left, id);
        WithoutSnoc(arrived, id, left + {id});
        arrived, left := arrived + [id], left + {id};
        assert granted + Ids(waiters) == Without(arrived, left);
        return Refused;
      }
      arrived := arrived + [id];
      if waiters == [] && used + want <= limit {
        TotalAdd(holders, id, want);
        used := used + want;
        holders, granted := holders[id := want], granted + [id];
        NoIds();
        assert granted + [] == old(granted) + [] + [id];
        return Granted;
      }
      IdsSnoc(waiters, Waiter(id, want));
      waiters := waiters + [Waiter(id, want)];
      assert granted + (old(Ids(waiters)) + [id]) == granted + old(Ids(waiters)) + [id];
      return Queued;
    }

    static lemma NoIds()
      ensures Ids([]) == []
    {
    }

    /** The clamped size: every request fits an empty budget. */
    function Want(bytes: int): (want: nat)
      ensures want <= limit && (0 <= bytes <= limit ==> want == bytes)
      ensures (bytes > limit ==> want == limit) && (bytes < 0 ==> want == 0)
    {
      var b := if bytes < 0 then 0 else bytes;
      if b < limit then b else limit
    }

    static lemma {:induction false} WithoutSubset(xs: seq<nat>, out: set<nat>)
      ensures forall x :: x in Without(xs, out) ==> x in xs && x !in out
    {
      if xs != [] { WithoutSubset(xs[..|xs| - 1], out); }
    }

    static lemma {:induction false} IdsIn(ws: seq<Waiter>)
      ensures |Ids(ws)| == |ws| && forall i :: 0 <= i < |ws| ==> Ids(ws)[i] == ws[i].id
    {
      if ws != [] { IdsIn(ws[..|ws| - 1]); }
    }

    /** The release function of a grant. Releasing again does nothing. */
    method Release(id: nat)
      requires Valid() && id in granted
      modifies this
      ensures Valid() && arrived == old(arrived) && left == old(left)
      ensures id !in old(holders) ==>
        used == old(used) && waiters == old(waiters) && holders == old(holders) && granted == old(granted)
      ensures id in old(holders) ==>
        PumpedFrom(old(used) - old(holders)[id], old(waiters), old(holders) - {id}, old(granted))
    {
      if id !in holders { return; }
      TotalRemove(holders, id);
      used := used - holders[id];
      holders := holders - {id};
      Pump();
    }

    /** A waiter gives up: it leaves the queue, and the ones behind it may now fit. */
    method Abort(id: nat, i: nat)
      requires Valid() && i < |waiters| && waiters[i].id == id
      modifies this
      ensures Valid() && arrived == old(arrived) && left == old(left) + {id}
      ensures PumpedFrom(old(used), old(waiters)[..i] + old(waiters)[i + 1..], old(holders), old(granted))
    {
      hide Without, Total, Ids, Settled, PumpedFrom;
      Leave(id, i);
      waiters := waiters[..i] + waiters[i + 1..];
      left := left + {id};
      Pump();
    }

    /** Taking a waiter out of the queue takes it out of the order, and nothing else. */
    lemma Leave(id: nat, i: nat)
      requires Counted() && i < |waiters| && waiters[i].id == id
      ensures granted + Ids(waiters[..i] + waiters[i + 1..]) == Without(arrived, left + {id})
      ensures id in arrived && id !in granted
    {
      hide Without, Total, Ids, Distinct;
      var before, after := waiters[..i], waiters[i + 1..];
      assert waiters == before + [waiters[i]] + after;
      IdsConcat(before + [waiters[i]], after);
      IdsSnoc(before, waiters[i]);
      IdsConcat(before, after);
      Order();
      var a, b := granted + Ids(before), Ids(after);
      assert granted + Ids(waiters) == a + [id] + b;
      Alone(a, id, b);
      WithoutOne(arrived, left, a, id, b);
      assert a + b == granted + (Ids(before) + Ids(after));
      assert id in Ids(waiters);
    }

    static lemma Alone(a: seq<nat>, x: nat, b: seq<nat>)
      requires Distinct(a + [x] + b)
      ensures x !in a && x !in b
    {
      var all := a + [x] + b;
      assert all[|a|] == x;
      assert forall k :: 0 <= k < |a| ==> all[k] == a[k];
      assert forall k :: 0 <= k < |b| ==> all[|a| + 1 + k] == b[k];
    }

    /** The first waiters, as many as fit one after another, were granted. */
    ghost predicate PumpedFrom(u: int, ws: seq<Waiter>, hs: map<nat, nat>, gs: seq<nat>)
      reads this
    {
      exists n: nat :: n <= |ws| && waiters == ws[n..] && granted == gs + Ids(ws[..n]) && Grows(u, ws[..n], used)
        && holders == HoldersAfter(hs, ws[..n])
    }

    /** Granting `ws` one by one from `u` never passes the limit and ends at `v`. */
    ghost predicate Grows(u: int, ws: seq<Waiter>, v: int) {
      if ws == [] then v == u
      else v <= limit && v >= ws[|ws| - 1].bytes && Grows(u, ws[..|ws| - 1], v - ws[|ws| - 1].bytes)
    }

    static ghost function HoldersAfter(hs: map<nat, nat>, ws: seq<Waiter>): map<nat, nat> {
      if ws == [] then hs else HoldersAfter(hs, ws[..|ws| - 1])[ws[|ws| - 1].id := ws[|ws| - 1].bytes]
    }

    /** Grants waiters in order of arrival while they fit. */
    method Pump()
      requires Counted()
      modifies `used, `waiters, `holders, `granted
      ensures Valid()
      ensures PumpedFrom(old(used), old(waiters), old(holders), old(granted))
    {
      ghost var n := 0;
      assert waiters[..0] == [] && granted + [] == granted;
      while waiters != [] && used + waiters[0].bytes <= limit
        invariant Counted() && n <= |old(waiters)| && waiters == old(waiters)[n..]
        invariant granted == old(granted) + Ids(old(waiters)[..n])
        invariant Grows(old(used), old(waiters)[..n], used)
        invariant holders == HoldersAfter(old(holders), old(waiters)[..n])
        decreases |waiters|
      {
        var w := waiters[0];
        GrantHead();
        assert old(waiters)[..n + 1] == old(waiters)[..n] + [w];
        IdsSnoc(old(waiters)[..n], w);
        assert old(waiters)[..n + 1][..n] == old(waiters)[..n];
        n := n + 1;
      }
    }

    method GrantHead()
      requires Counted() && waiters != [] && used + waiters[0].bytes <= limit
      modifies `used, `waiters, `holders, `granted
      ensures Counted() && waiters == old(waiters)[1..] && used == old(used) + old(waiters)[0].bytes
      ensures granted == old(granted) + [old(waiters)[0].id]
      ensures holders == old(holders)[old(waiters)[0].id := old(waiters)[0].bytes]
    {
      var w := waiters[0];
      assert waiters == [w] + waiters[1..];
      IdsConcat([w], waiters[1..]);
      assert Ids([w]) == [w.id] by { IdsSnoc([], w); }
      Order();
      assert granted + Ids(waiters) == granted + [w.id] + Ids(waiters[1..]);
      Alone(granted, w.id, Ids(waiters[1..]));
      TotalAdd(holders, w.id, w.bytes);
      hide Total, Without, Ids;
      waiters := waiters[1..];
      used := used + w.bytes;
      holders, granted := holders[w.id := w.bytes], granted + [w.id];
      assert granted + Ids(waiters) == old(granted) + ([w.id] + Ids(waiters));
    }

    /** Once every holder has released, nobody is left waiting. */
    lemma AllServed()
      requires Valid() && holders == map[]
      ensures waiters == [] && used == 0 && granted == Without(arrived, left)
    {
      assert granted + [] == granted;
    }

    /** Who arrived first and did not leave is granted first: a newcomer never overtakes. */
    lemma InArrivalOrder(i: nat, j: nat)
      requires Valid() && i < j < |arrived| && arrived[i] !in left && arrived[j] in granted
      ensures arrived[i] in granted
      ensures forall p, q ::
        0 <= p < |granted| && 0 <= q < |granted| && granted[p] == arrived[i] && granted[q] == arrived[j] ==> p < q
    {
      hide Without, Total, Ids;
      var w := Without(arrived, left);
      assert w == granted + Ids(waiters);
      Order();
      var p, q := OrderKept(arrived, left, i, j);
      var q' :| 0 <= q' < |granted| && granted[q'] == arrived[j];
      assert w[q'] == w[q];
      assert p < q == q';
      assert granted[p] == arrived[i];
      forall a, b | 0 <= a < |granted| && 0 <= b < |granted| && granted[a] == arrived[i] && granted[b] == arrived[j]
        ensures a < b
      {
        assert w[a] == w[p] && w[b] == w[q];
      }
    }

    static lemma {:induction false} OrderKept(xs: seq<nat>, out: set<nat>, i: nat, j: nat) returns (p: nat, q: nat)
      requires i < j < |xs| && xs[i] !in out && xs[j] !in out
      ensures p < q < |Without(xs, out)| && Without(xs, out)[p] == xs[i] && Without(xs, out)[q] == xs[j]
      decreases |xs|
    {
      var init := xs[..|xs| - 1];
      if j < |init| {
        p, q := OrderKept(init, out, i, j);
      } else {
        p := Kept(init, out, i);
        q := |Without(init, out)|;
      }
    }

    static lemma {:induction false} Kept(xs: seq<nat>, out: set<nat>, i: nat) returns (p: nat)
      requires i < |xs| && xs[i] !in out
      ensures p < |Without(xs, out)| && Without(xs, out)[p] == xs[i]
    {
      var init := xs[..|xs| - 1];
      if i < |init| { p := Kept(init, out, i); } else { p := |Without(init, out)|; }
    }

    static lemma {:induction false} NoDuplicates(xs: seq<nat>, out: set<nat>)
      requires Distinct(xs)
      ensures Distinct(Without(xs, out))
    {
      if xs != [] {
        NoDuplicates(xs[..|xs| - 1], out);
        WithoutSubset(xs[..|xs| - 1], out);
      }
    }
  }
}
