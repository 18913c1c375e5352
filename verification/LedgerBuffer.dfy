/** src/gateway/ledger-buffer.ts: a bounded write-behind queue; each method is one stretch between two awaits. */
module LedgerBuffer {
  const BATCH_SIZE: nat := 500

  /** Where the flush in progress stands: none, writing a batch, or writing a rejected batch row by row. */
  datatype Phase<T> = Idle | Appending(batch: seq<T>) | Isolating(batch: seq<T>, i: nat)

  /** How the store answers an append. A data error or outage stores nothing. */
  datatype Answer = Stored | DataError | Outage

  predicate Increasing(s: seq<nat>) { forall i, j :: 0 <= i < j < |s| ==> s[i] < s[j] }

  /** `live` is the subsequence of `pushed` at the indices `order`. */
  predicate Picks<T(==)>(live: seq<T>, pushed: seq<T>, order: seq<nat>) {
    && |order| == |live|
    && Increasing(order)
    && forall k :: 0 <= k < |order| ==> order[k] < |pushed| && live[k] == pushed[order[k]]
  }

  function Cut<T>(s: seq<T>, at: nat, n: nat): seq<T>
    requires at + n <= |s|
  {
    s[..at] + s[at + n..]
  }

  /** Losing a stretch of rows leaves a subsequence. */
  lemma CutPicks<T>(live: seq<T>, pushed: seq<T>, order: seq<nat>, at: nat, n: nat)
    requires Picks(live, pushed, order) && at + n <= |live|
    ensures |order| == |live|
    ensures Picks(Cut(live, at, n), pushed, Cut(order, at, n))
  {
  }

  lemma PushPicks<T>(live: seq<T>, pushed: seq<T>, order: seq<nat>, row: T)
    requires Picks(live, pushed, order)
    ensures Picks(live + [row], pushed + [row], order + [|pushed|])
    ensures Picks(live, pushed + [row], order)
  {
  }

  class Ledger<T(==)> {
    const max: nat
    var rows: seq<T>
    var dropped: nat
    var closed: bool
    var phase: Phase<T>
    /** What the store holds. */
    var stored: seq<T>

    ghost var pushed: seq<T>
    ghost var order: seq<nat>

    ghost function InFlight(): seq<T>
      reads `phase
      requires phase.Isolating? ==> phase.i <= |phase.batch|
    {
      match phase
      case Idle => []
      case Appending(b) => b
      case Isolating(b, i) => b[i..]
    }

    /** Not yet written: the batch or its rest, then the queue. */
    ghost function Pending(): seq<T>
      reads `phase, `rows
      requires phase.Isolating? ==> phase.i <= |phase.batch|
    {
      InFlight() + rows
    }

    /** Conservation and order, over every push so far. */
    ghost predicate Valid()
      reads this
    {
      && (phase.Isolating? ==> phase.i < |phase.batch|)
      && (phase.Appending? ==> phase.batch != [])
      && |InFlight()| <= BATCH_SIZE
      && |rows| <= max
      && Picks(stored + InFlight() + rows, pushed, order)
      && |pushed| == |order| + dropped
    }

    constructor (max: nat)
      ensures Valid() && pushed == [] && stored == [] && rows == [] && dropped == 0 && phase.Idle? && !closed
      ensures this.max == max
    {
      this.max, rows, dropped, closed, phase, stored := max, [], 0, false, Idle, [];
      pushed, order := [], [];
    }

    /** A closed ledger counts the row as dropped; else it is queued, at the cost of the oldest when full. */
    method Push(row: T)
      requires Valid()
      modifies `rows, `dropped, `pushed, `order
      ensures Valid() && pushed == old(pushed) + [row]
      ensures closed ==> rows == old(rows) && dropped == old(dropped) + 1
      ensures !closed && |old(rows)| < max ==> rows == old(rows) + [row] && dropped == old(dropped)
      ensures !closed && |old(rows)| == max > 0 ==> rows == old(rows)[1..] + [row] && dropped == old(dropped) + 1
      ensures !closed && max == 0 ==> rows == [] && dropped == old(dropped) + 1
    {
      hide Picks;
      PushPicks(stored + InFlight() + rows, pushed, order, row);
      if closed {
        dropped := dropped + 1;
        pushed := pushed + [row];
        return;
      }
      assert stored + InFlight() + (rows + [row]) == stored + InFlight() + rows + [row];
      rows := rows + [row];
      order := order + [|pushed|];
      pushed := pushed + [row];
      Trim();
    }

    /** Drops the oldest queued rows beyond `max` and counts them. */
    method Trim()
      requires phase.Isolating? ==> phase.i <= |phase.batch|
      requires Picks(stored + InFlight() + rows, pushed, order) && |pushed| == |order| + dropped
      modifies `rows, `dropped, `order
      ensures Picks(stored + InFlight() + rows, pushed, order) && |pushed| == |order| + dropped
      ensures rows == if |old(rows)| > max then old(rows)[|old(rows)| - max..] else old(rows)
      ensures dropped + |rows| == old(dropped) + |old(rows)|
    {
      if |rows| > max {
        var over := |rows| - max;
        ghost var at := |stored| + |InFlight()|;
        CutPicks(stored + InFlight() + rows, pushed, order, at, over);
        assert Cut(stored + InFlight() + rows, at, over) == stored + InFlight() + rows[over..];
        order := Cut(order, at, over);
        rows := rows[over..];
        dropped := dropped + over;
      }
    }

    /** Starts a flush unless one is in progress. */
    method Flush()
      requires Valid()
      modifies `rows, `phase
      ensures Valid()
      ensures !old(phase).Idle? ==> phase == old(phase) && rows == old(rows)
      ensures old(phase).Idle? ==> Took(old(rows))
    {
      if phase.Idle? { Next(); }
    }

    /** The next batch is what was first in the queue; with an empty queue the flush ends. */
    ghost predicate Took(before: seq<T>)
      reads `rows, `phase
    {
      if before == [] then phase.Idle? && rows == []
      else
        && phase.Appending? && before == phase.batch + rows
        && |phase.batch| == (if |before| < BATCH_SIZE then |before| else BATCH_SIZE)
    }

    /** The head of the drain loop. */
    method Next()
      requires Picks(stored + rows, pushed, order) && |pushed| == |order| + dropped && |rows| <= max
      modifies `rows, `phase
      ensures Valid() && Took(old(rows))
    {
      if rows == [] {
        phase := Idle;
        assert stored + [] + rows == stored + rows;
        return;
      }
      var n := if |rows| < BATCH_SIZE then |rows| else BATCH_SIZE;
      assert stored + rows[..n] + rows[n..] == stored + rows;
      assert rows[..n] + rows[n..] == rows;
      phase, rows := Appending(rows[..n]), rows[n..];
    }

    /** The store answered for the batch. */
    method BatchAnswered(a: Answer)
      requires Valid() && phase.Appending?
      modifies `rows, `dropped, `phase, `stored, `order
      ensures Valid()
      ensures a.Stored? ==> stored == old(stored) + old(phase).batch && Took(old(rows)) && dropped == old(dropped)
      ensures a.DataError? ==>
        phase == Isolating(old(phase).batch, 0) && rows == old(rows) && stored == old(stored) && dropped == old(dropped)
      ensures a.Outage? ==> Requeued(old(phase).batch + old(rows), old(dropped)) && stored == old(stored)
    {
      var batch := phase.batch;
      match a
      case Stored =>
        stored := stored + batch;
        Next();
      case DataError => phase := Isolating(batch, 0);
      case Outage => Requeue(batch);
    }

    /** Back to rest with `want` queued, less the oldest beyond `max`. */
    ghost predicate Requeued(want: seq<T>, droppedBefore: nat)
      reads this
    {
      && phase.Idle?
      && rows == (if |want| > max then want[|want| - max..] else want)
      && dropped + |rows| == droppedBefore + |want|
    }

    /** Unwritten rows go back in front of the rows pushed meanwhile. */
    method Requeue(back: seq<T>)
      requires Picks(stored + back + rows, pushed, order) && |pushed| == |order| + dropped
      modifies `rows, `dropped, `phase, `order
      ensures Valid() && Requeued(back + old(rows), old(dropped))
    {
      assert stored + back + rows == stored + [] + (back + rows);
      rows := back + rows;
      phase := Idle;
      Trim();
    }

    /** The store answered for one row of a rejected batch. Only a row it rejects for its data is given up. */
    method RowAnswered(a: Answer)
      requires Valid() && phase.Isolating?
      modifies `rows, `dropped, `phase, `stored, `order
      ensures Valid()
      ensures a.Stored? ==> stored == old(stored) + [old(phase).batch[old(phase).i]] && dropped == old(dropped)
      ensures a.DataError? ==> stored == old(stored) && dropped == old(dropped) + 1
      ensures !a.Outage? ==> old(Pending()) == [old(phase).batch[old(phase).i]] + Pending()
      ensures !a.Outage? ==> if old(phase).i + 1 < |old(phase).batch|
        then phase == Isolating(old(phase).batch, old(phase).i + 1) && rows == old(rows) else Took(old(rows))
      ensures a.Outage? ==>
        Requeued(old(phase).batch[old(phase).i..] + old(rows), old(dropped)) && stored == old(stored)
    {
      hide Picks;
      if a.Outage? {
        Requeue(phase.batch[phase.i..]);
        return;
      }
      Settle(a.Stored?);
      Advance();
    }

    /** The first row in flight joins the stored ones, or is cut out. */
    static lemma OneOff(a: seq<T>, row: T, rest: seq<T>, rows: seq<T>)
      ensures a + ([row] + rest) + rows == (a + [row]) + rest + rows
      ensures Cut(a + ([row] + rest) + rows, |a|, 1) == a + rest + rows
      ensures a + [] == a
    {
    }

    /** The row is stored, or given up and counted. */
    method Settle(store: bool)
      requires Valid() && phase.Isolating?
      modifies `dropped, `stored, `order
      ensures Picks(stored + phase.batch[phase.i + 1..] + rows, pushed, order) && |pushed| == |order| + dropped
      ensures stored == old(stored) + (if store then [phase.batch[phase.i]] else [])
      ensures dropped == old(dropped) + (if store then 0 else 1)
    {
      hide Picks;
      var row := phase.batch[phase.i];
      ghost var rest := phase.batch[phase.i + 1..];
      assert phase.batch[phase.i..] == [row] + rest;
      ghost var live := stored + ([row] + rest) + rows;
      OneOff(stored, row, rest, rows);
      if store {
        stored := stored + [row];
      } else {
        CutPicks(live, pushed, order, |stored|, 1);
        order := Cut(order, |stored|, 1);
        dropped := dropped + 1;
      }
    }

    /** On to the next row of the batch, or to the next batch. */
    method Advance()
      requires phase.Isolating? && phase.i < |phase.batch| <= BATCH_SIZE + phase.i && |rows| <= max
      requires Picks(stored + phase.batch[phase.i + 1..] + rows, pushed, order) && |pushed| == |order| + dropped
      modifies `rows, `phase
      ensures Valid()
      ensures old(Pending()) == [old(phase).batch[old(phase).i]] + Pending()
      ensures if old(phase).i + 1 < |old(phase).batch|
        then phase == Isolating(old(phase).batch, old(phase).i + 1) && rows == old(rows) else Took(old(rows))
    {
      hide Picks;
      var batch, i := phase.batch, phase.i;
      assert batch[i..] + rows == [batch[i]] + (batch[i + 1..] + rows);
      if i + 1 < |batch| {
        phase := Isolating(batch, i + 1);
      } else {
        assert stored + batch[i + 1..] + rows == stored + rows;
        assert batch[i + 1..] + rows == rows;
        Next();
        assert Pending() == old(rows);
      }
    }

    /** Close: no more rows are taken, and a last flush starts (or the running one is awaited). */
    method Close() returns (first: bool)
      requires Valid()
      modifies `closed, `rows, `phase
      ensures Valid() && closed && first == !old(closed)
      ensures if first && old(phase).Idle? then Took(old(rows)) else phase == old(phase) && rows == old(rows)
    {
      if closed { return false; }
      closed := true;
      Flush();
      return true;
    }

    /** After the awaited flush: whatever is still queued is dropped and counted. */
    method CloseEnded()
      requires Valid() && closed && phase.Idle?
      modifies `rows, `dropped, `order
      ensures Valid() && rows == [] && dropped == old(dropped) + |old(rows)|
    {
      CutPicks(stored + [] + rows, pushed, order, |stored|, |rows|);
      assert Cut(stored + [] + rows, |stored|, |rows|) == stored + [] + [];
      order := Cut(order, |stored|, |rows|);
      dropped := dropped + |rows|;
      rows := [];
    }

    /** Every row pushed is stored, in flight, queued or counted as dropped; what is kept is in push order,
        once each. */
    lemma Accounted()
      requires Valid()
      ensures |pushed| == |stored| + |InFlight()| + |rows| + dropped
      ensures |rows| + |InFlight()| <= max + BATCH_SIZE
      ensures exists at: seq<nat> :: Picks(stored, pushed, at)
    {
      assert stored + InFlight() + rows == stored + (InFlight() + rows);
      CutPicks(stored + InFlight() + rows, pushed, order, |stored|, |InFlight()| + |rows|);
      assert Cut(stored + InFlight() + rows, |stored|, |InFlight()| + |rows|) == stored;
      assert Picks(stored, pushed, Cut(order, |stored|, |InFlight()| + |rows|));
    }
  }

  // ---------- A flush against a store that only rejects bad rows ----------

  function Good<T>(rows: seq<T>, bad: T -> bool): seq<T> {
    if rows == [] then [] else (if bad(rows[0]) then [] else [rows[0]]) + Good(rows[1..], bad)
  }

  lemma {:induction false} GoodConcat<T>(a: seq<T>, b: seq<T>, bad: T -> bool)
    ensures Good(a + b, bad) == Good(a, bad) + Good(b, bad)
  {
    if a == [] {
      assert a + b == b;
    } else {
      assert (a + b)[1..] == a[1..] + b;
      GoodConcat(a[1..], b, bad);
    }
  }

  lemma {:induction false} AllGood<T>(rows: seq<T>, bad: T -> bool)
    requires forall i :: 0 <= i < |rows| ==> !bad(rows[i])
    ensures Good(rows, bad) == rows
  {
    if rows != [] {
      forall i | 0 <= i < |rows| - 1 ensures !bad(rows[1..][i]) { assert rows[1..][i] == rows[i + 1]; }
      AllGood(rows[1..], bad);
    }
  }

  /** A bad row cannot block good ones: one flush stores exactly the good rows, in order, and counts the bad ones. */
  method FlushAll<T(==)>(l: Ledger<T>, bad: T -> bool)
    requires l.Valid() && l.phase.Idle?
    modifies l
    ensures l.Valid() && l.phase.Idle? && l.rows == []
    ensures l.stored == old(l.stored) + Good(old(l.rows), bad)
    ensures l.dropped == old(l.dropped) + |old(l.rows)| - |Good(old(l.rows), bad)|
    ensures l.pushed == old(l.pushed) && l.closed == old(l.closed)
  {
    l.Flush();
    Drain(l, bad);
  }

  /** Closing, at rest or while a flush runs: every good row still to be written is stored, in order, only the bad ones
      are dropped, and no row is taken afterwards. */
  method CloseAll<T(==)>(l: Ledger<T>, bad: T -> bool, late: seq<T>)
    requires l.Valid() && !l.closed
    modifies l
    ensures l.Valid() && l.closed && l.phase.Idle? && l.rows == []
    ensures l.stored == old(l.stored) + Good(old(l.Pending()), bad)
    ensures l.dropped == old(l.dropped + |l.Pending()| - |Good(l.Pending(), bad)|) + |late|
    ensures l.pushed == old(l.pushed) + late
  {
    hide Picks, Good;
    var _ := l.Close();
    assert l.Pending() == old(l.Pending());
    Drain(l, bad);
    l.CloseEnded();
    PushLate(l, late);
  }

  /** A closed ledger counts every row pushed as dropped. */
  method PushLate<T(==)>(l: Ledger<T>, late: seq<T>)
    requires l.Valid() && l.closed
    modifies l`rows, l`dropped, l`pushed, l`order
    ensures l.Valid() && l.rows == old(l.rows)
    ensures l.pushed == old(l.pushed) + late && l.dropped == old(l.dropped) + |late|
  {
    hide Picks, Ledger.InFlight;
    for i := 0 to |late|
      invariant l.Valid() && l.rows == old(l.rows)
      invariant l.pushed == old(l.pushed) + late[..i] && l.dropped == old(l.dropped) + i
    {
      l.Push(late[i]);
      assert late[..i + 1] == late[..i] + [late[i]];
    }
    assert late[..|late|] == late;
  }

  /** A running flush goes on until all is written. */
  method Drain<T(==)>(l: Ledger<T>, bad: T -> bool)
    requires l.Valid() && (l.phase.Idle? ==> l.rows == [])
    modifies l
    ensures l.Valid() && l.phase.Idle? && l.rows == []
    ensures l.stored == old(l.stored) + Good(old(l.Pending()), bad)
    ensures l.dropped == old(l.dropped + |l.Pending()| - |Good(l.Pending(), bad)|)
    ensures l.pushed == old(l.pushed) && l.closed == old(l.closed)
  {
    while !l.phase.Idle?
      invariant l.Valid() && l.pushed == old(l.pushed) && l.closed == old(l.closed)
      invariant l.phase.Idle? ==> l.rows == []
      invariant l.stored + Good(l.Pending(), bad) == old(l.stored) + Good(old(l.Pending()), bad)
      invariant l.dropped + |l.Pending()| - |Good(l.Pending(), bad)|
             == old(l.dropped + |l.Pending()| - |Good(l.Pending(), bad)|)
      decreases |l.Pending()|, if l.phase.Appending? then 1 else 0
    {
      if l.phase.Appending? {
        BatchStep(l, bad);
      } else {
        RowStep(l, bad);
      }
    }
  }

  method BatchStep<T(==)>(l: Ledger<T>, bad: T -> bool)
    requires l.Valid() && l.phase.Appending?
    modifies l
    ensures l.Valid() && l.pushed == old(l.pushed) && l.closed == old(l.closed)
    ensures l.phase.Idle? ==> l.rows == []
    ensures l.stored + Good(l.Pending(), bad) == old(l.stored) + Good(old(l.Pending()), bad)
    ensures l.dropped == old(l.dropped)
    ensures |l.Pending()| - |Good(l.Pending(), bad)| == old(|l.Pending()| - |Good(l.Pending(), bad)|)
    ensures |l.Pending()| < old(|l.Pending()|) || (l.Pending() == old(l.Pending()) && l.phase.Isolating?)
  {
    hide Picks;
    var batch := l.phase.batch;
    GoodConcat(batch, l.rows, bad);
    if exists i :: 0 <= i < |batch| && bad(batch[i]) {
      l.BatchAnswered(DataError);
      assert batch[0..] == batch;
    } else {
      AllGood(batch, bad);
      ghost var rows := l.rows;
      hide Good;
      l.BatchAnswered(Stored);
      assert l.Pending() == rows;
    }
  }

  method RowStep<T(==)>(l: Ledger<T>, bad: T -> bool)
    requires l.Valid() && l.phase.Isolating?
    modifies l
    ensures l.Valid() && l.pushed == old(l.pushed) && l.closed == old(l.closed)
    ensures l.phase.Idle? ==> l.rows == []
    ensures l.stored + Good(l.Pending(), bad) == old(l.stored) + Good(old(l.Pending()), bad)
    ensures l.dropped + |l.Pending()| - |Good(l.Pending(), bad)|
         == old(l.dropped + |l.Pending()| - |Good(l.Pending(), bad)|)
    ensures |l.Pending()| < old(|l.Pending()|)
  {
    hide Picks, Good, Ledger.InFlight;
    var row := l.phase.batch[l.phase.i];
    if bad(row) { l.RowAnswered(DataError); } else { l.RowAnswered(Stored); }
    GoodCons(row, l.Pending(), bad);
    assert old(l.stored) + ([row] + Good(l.Pending(), bad)) == old(l.stored) + [row] + Good(l.Pending(), bad);
  }

  lemma GoodCons<T>(row: T, rest: seq<T>, bad: T -> bool)
    ensures Good([row] + rest, bad) == (if bad(row) then [] else [row]) + Good(rest, bad)
    ensures bad(row) ==> Good([row] + rest, bad) == Good(rest, bad)
  {
    assert ([row] + rest)[1..] == rest;
  }
}
