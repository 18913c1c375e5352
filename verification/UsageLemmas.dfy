/** How the whole-text functions of UsageSpec grow when text is added at the end. */
module UsageLemmas {
  import opened Streams
  import opened UsageSpec

  // ---------- Sniffing ----------

  /** Two prefixes of the same text are prefixes of one another. */
  lemma PrefixesOf(b: seq<byte>, c: seq<byte>, f: seq<byte>)
    requires b <= c
    ensures f <= b ==> f <= c
    ensures f <= c && !(f <= b) ==> b < f
    ensures b != [] && f <= c && |f| == 1 ==> f <= b
  {
    if f <= c {
      assert b == c[..|b|] && f == c[..|f|];
      if |b| < |f| { assert b == f[..|b|]; } else { assert f == b[..|f|]; }
    }
  }

  /** A decided prefix stays decided, the same way, whatever follows. */
  lemma SniffStable(b: seq<byte>, more: seq<byte>)
    requires !Sniff(b).Undecided?
    ensures Sniff(b + more) == Sniff(b)
  {
    var c := b + more;
    assert b <= c;
    PrefixesOf(b, c, [COLON]);
    PrefixesOf(b, c, EVENT_FIELD);
    PrefixesOf(b, c, DATA_FIELD);
    PrefixesOf(b, c, ID_FIELD);
    PrefixesOf(b, c, RETRY_FIELD);
  }

  lemma {:induction false} SkipSpaceConcat(a: seq<byte>, b: seq<byte>)
    ensures SkipSpace(a + b) == if SkipSpace(a) == [] then SkipSpace(b) else SkipSpace(a) + b
  {
    if a == [] {
      assert a + b == b;
    } else if IsSpace(a[0]) {
      assert (a + b)[1..] == a[1..] + b;
      SkipSpaceConcat(a[1..], b);
    }
  }

  // ---------- Lines ----------

  lemma {:induction false} FirstBreakConcat(t: string, s: string)
    ensures FirstBreak(t) < |t| ==> FirstBreak(t + s) == FirstBreak(t)
    ensures FirstBreak(t) == |t| ==> FirstBreak(t + s) == |t| + FirstBreak(s)
    ensures s != "" && IsBreak(s[0]) ==> FirstBreak(s) == 0
  {
    if t == "" {
      assert t + s == s;
    } else {
      assert (t + s)[1..] == t[1..] + s;
      FirstBreakConcat(t[1..], s);
    }
  }

  lemma {:induction false} NoBreakIsOneLine(s: string)
    requires NoBreak(s)
    ensures FirstBreak(s) == |s|
  {
    if s != "" {
      assert s[0] == s[0..][0];
      NoBreakIsOneLine(s[1..]);
    }
  }

  /** Where the second line begins does not depend on text added later, unless an LF completes a CR LF. */
  lemma RestConcat(t: string, s: string)
    requires FirstBreak(t) < |t|
    requires s != "" ==> !(s[0] == '\n' && EndsCr(t))
    ensures FirstBreak(t + s) == FirstBreak(t)
    ensures AfterBreak(t + s, FirstBreak(t)) == AfterBreak(t, FirstBreak(t))
    ensures (t + s)[AfterBreak(t, FirstBreak(t))..] == t[AfterBreak(t, FirstBreak(t))..] + s
  {
    hide FirstBreak;
    FirstBreakConcat(t, s);
    var e := FirstBreak(t);
    assert (t + s)[e] == t[e];
    if e + 1 < |t| { assert (t + s)[e + 1] == t[e + 1]; }
  }

  /** `ls` with its last element replaced. */
  function WithLast<T>(ls: seq<T>, last: T): seq<T>
    requires ls != []
  {
    ls[..|ls| - 1] + [last]
  }

  lemma WithLastTail<T>(x: T, ls: seq<T>, last: T)
    requires ls != []
    ensures WithLast([x] + ls, last) == [x] + WithLast(ls, last)
    ensures ([x] + ls)[|ls|] == ls[|ls| - 1]
  {
  }

  /** Text without a break extends the unfinished line. */
  lemma {:induction false} LinesExtend(t: string, s: string)
    requires NoBreak(s)
    ensures Lines(t + s) == WithLast(Lines(t), Lines(t)[|Lines(t)| - 1] + s)
    decreases |t|
  {
    hide FirstBreak;
    var e := FirstBreak(t);
    if e == |t| {
      FirstBreakConcat(t, s);
      NoBreakIsOneLine(s);
    } else {
      RestConcat(t, s);
      var rest := t[AfterBreak(t, e)..];
      LinesExtend(rest, s);
      assert (t + s)[..e] == t[..e];
      WithLastTail(t[..e], Lines(rest), Lines(rest)[|Lines(rest)| - 1] + s);
    }
  }

  /** A break (not the LF of a CR LF) finishes the line and opens an empty one. */
  lemma {:induction false} LinesBreak(t: string, c: char)
    requires IsBreak(c) && !(c == '\n' && EndsCr(t))
    ensures Lines(t + [c]) == Lines(t) + [""]
    decreases |t|
  {
    hide FirstBreak;
    var e := FirstBreak(t);
    if e == |t| {
      FirstBreakConcat(t, [c]);
      assert (t + [c])[..e] == t && (t + [c])[e + 1..] == "";
    } else {
      RestConcat(t, [c]);
      LinesBreak(t[AfterBreak(t, e)..], c);
      assert (t + [c])[..e] == t[..e];
    }
  }

  /** The LF of a CR LF adds nothing, also when it arrives later than its CR. */
  lemma {:induction false} LinesCrLf(t: string)
    requires EndsCr(t)
    ensures Lines(t + "\n") == Lines(t)
    decreases |t|
  {
    hide FirstBreak;
    var e := FirstBreak(t);
    FirstBreakConcat(t, "\n");
    assert e < |t| by {
      assert t[..|t|] == t && !NoBreak(t);
    }
    assert (t + "\n")[..e] == t[..e];
    if t[e] == '\r' && e + 1 == |t| {
      assert (t + "\n")[e + 2..] == "" && t[e + 1..] == "";
    } else {
      var k := AfterBreak(t, e);
      assert k < |t|;
      assert (t + "\n")[k..] == t[k..] + "\n";
      LinesCrLf(t[k..]);
    }
  }

  // ---------- Events ----------

  /** The events of `[x] + ls`, given those of `ls`. */
  function EventsCons(x: string, rest: seq<seq<string>>): seq<seq<string>>
    requires rest != []
  {
    if x == "" then [[]] + rest else [[x] + rest[0]] + rest[1..]
  }

  /** The events of `ls + [l]`, given those of `ls`. */
  function EventsAdd(evs: seq<seq<string>>, l: string): seq<seq<string>>
    requires evs != []
  {
    if l == "" then evs + [[]] else WithLast(evs, evs[|evs| - 1] + [l])
  }

  lemma ConsAddCommute(x: string, rest: seq<seq<string>>, l: string)
    requires rest != []
    ensures EventsCons(x, EventsAdd(rest, l)) == EventsAdd(EventsCons(x, rest), l)
  {
    var a, b := EventsCons(x, EventsAdd(rest, l)), EventsAdd(EventsCons(x, rest), l);
    assert |a| == |b|;
    if |rest| == 1 {
      assert [x] + (rest[0] + [l]) == ([x] + rest[0]) + [l];
    }
    forall i | 0 <= i < |a| ensures a[i] == b[i] {}
  }

  lemma {:induction false} EventsSnoc(ls: seq<string>, l: string)
    ensures Events(ls + [l]) == EventsAdd(Events(ls), l)
  {
    if ls == [] {
      assert ls + [l] == [l] && [l][1..] == [];
      var none: seq<seq<string>> := [[]];
      assert Events([]) == none && none[1..] == [];
      assert [l] + [] == [l];
    } else {
      var ls' := ls + [l];
      assert ls'[1..] == ls[1..] + [l];
      EventsSnoc(ls[1..], l);
      assert Events(ls') == EventsCons(ls[0], Events(ls'[1..]));
      assert Events(ls) == EventsCons(ls[0], Events(ls[1..]));
      ConsAddCommute(ls[0], Events(ls[1..]), l);
    }
  }

  lemma ApplyEventsSnoc(style: Style, g: Given, t: Tally, evs: seq<seq<string>>, ev: seq<string>)
    ensures ApplyEvents(style, g, t, evs + [ev]) == ApplyEvent(style, g, ApplyEvents(style, g, t, evs), ev)
  {
    assert (evs + [ev])[..|evs|] == evs;
  }

  lemma EmptyEventIsNothing(style: Style, g: Given, t: Tally)
    ensures ApplyEvent(style, g, t, []) == t
  {
    assert DataOf([]) == [];
  }

  lemma {:induction false} UnitsConcat(a: string, b: string)
    ensures Units(a + b) == Units(a) + Units(b)
  {
    if b == "" {
      assert a + b == a;
    } else {
      assert (a + b)[..|a + b| - 1] == a + b[..|b| - 1];
      UnitsConcat(a, b[..|b| - 1]);
    }
  }

  lemma EmptyFits()
    ensures !TooLong("")
  {
  }

  lemma HeldSnoc(vs: seq<string>, v: string)
    ensures Held([]) == 0
    ensures Held(vs + [v]) == Held(vs) + Units(v) + 1
  {
    assert (vs + [v])[..|vs|] == vs;
  }

  lemma DataOfSnoc(ev: seq<string>, l: string)
    ensures DataOf(ev + [l]) == DataOf(ev) + (if IsData(l) then [DataValue(l)] else [])
  {
    assert (ev + [l])[..|ev|] == ev;
  }

  /** The data of an event when one more line arrives. */
  lemma DataSnoc(ev: seq<string>, l: string)
    ensures DataOf(ev + [l]) == DataOf(ev) + (if IsData(l) then [DataValue(l)] else [])
    ensures Held(DataOf(ev + [l])) == Held(DataOf(ev)) + (if IsData(l) then Units(DataValue(l)) + 1 else 0)
    ensures Dropped(ev + [l]) <==> Dropped(ev) || TooLong(l) || Held(DataOf(ev + [l])) > MAX_EVENT_BYTES
  {
    hide DataOf, Held, DataValue;
    DataOfSnoc(ev, l);
    if IsData(l) { HeldSnoc(DataOf(ev), DataValue(l)); }
    var all := ev + [l];
    assert DataOf(ev) + [] == DataOf(ev);
    if i :| 0 <= i < |ev| && TooLong(ev[i]) { assert TooLong(all[i]); }
    if i :| 0 <= i < |all| && TooLong(all[i]) { assert i < |ev| ==> TooLong(ev[i]); }
    assert all[|ev|] == l;
  }
}
