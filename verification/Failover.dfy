/** src/gateway/app.ts, `proxy`: member holds, short waits and the failover loop. */
module Failover {
  import opened Streams

  type Name = string

  const MAX_WAITS: nat := 8
  const WAIT_BUDGET_MS: int := 90_000
  const MIN_SLEEP_MS: int := 250
  const CREDENTIAL_HOLD_MS: int := 600_000
  const BURST_DEFAULT_MS: int := 15_000
  const BURST_MAX_MS: int := 60_000
  const EXHAUSTED_DEFAULT_MS: int := 300_000
  const EXHAUSTED_MAX_MS: int := 7 * 24 * 3_600_000

  // ---------- How long a member is held ----------

  /** A retry-after header: a delay in ms, a date in epoch ms, or nothing usable. */
  datatype Retry = NoRetry | Delay(ms: nat) | Date(at: int)

  function BurstHoldUntil(retry: Retry, now: int): (until: int)
    ensures now <= until <= now + BURST_MAX_MS
    ensures retry.NoRetry? ==> until == now + BURST_DEFAULT_MS
    // A delay or a date is kept to, unless it lies more than a minute ahead.
    ensures retry.Delay? ==> if until < now + BURST_MAX_MS then until - now == retry.ms else retry.ms >= BURST_MAX_MS
    ensures retry.Date? ==> if retry.at <= now then until == now
                            else if until < now + BURST_MAX_MS then until == retry.at
                            else retry.at >= now + BURST_MAX_MS
    ensures until == now <==> retry == Delay(0) || (retry.Date? && retry.at <= now)
  {
    var ms := match retry
      case NoRetry => BURST_DEFAULT_MS
      case Delay(d) => d
      case Date(at) => Max(0, at - now);
    now + Min(ms, BURST_MAX_MS)
  }

  /** The reset times an answer names. */
  function Hints(reset: Option<int>, retry: Retry, now: int): set<int> {
    (if reset.Some? then {reset.value} else {}) +
    match retry
    case NoRetry => {}
    case Delay(d) => {now + d}
    case Date(at) => {at}
  }

  /** A reset time counts when it lies ahead, within a week. */
  predicate Usable(at: int, now: int) { now < at <= now + EXHAUSTED_MAX_MS }

  /** The latest usable reset time, else five minutes from now. */
  function ExhaustedUntil(reset: Option<int>, retry: Retry, now: int): (until: int)
    ensures now < until <= now + EXHAUSTED_MAX_MS
    ensures forall h :: h in Hints(reset, retry, now) && now < h <= now + EXHAUSTED_MAX_MS ==> h <= until
    ensures until in Hints(reset, retry, now) ||
            (until == now + EXHAUSTED_DEFAULT_MS &&
             forall h :: h in Hints(reset, retry, now) ==> h <= now || h > now + EXHAUSTED_MAX_MS)
  {
    var a := if reset.Some? && Usable(reset.value, now) then reset.value else now;
    var t := match retry case NoRetry => now case Delay(d) => now + d case Date(at) => at;
    var b := if Usable(t, now) then t else now;
    if Max(a, b) > now then Max(a, b) else now + EXHAUSTED_DEFAULT_MS
  }

  // ---------- The world the request runs in ----------

  /** An upstream answer: its status, whether a 403 body names a quota error, whether exhaustion is proven, and its
      hints. */
  datatype Answer = Answer(status: nat, quotaBody: bool, proves: bool, reset: Option<int>, retry: Retry)

  predicate IsQuota(a: Answer) { a.status == 402 || a.status == 429 || (a.status == 403 && a.quotaBody) }

  /** Whose body is looked at: a 403, and a 429 where the provider states exhaustion there. */
  predicate MayPeek(a: Answer) { a.status == 403 || a.status == 429 }

  /** `Credential` lasts until a person acts when `long`; `Cooldown` is a refresh that may not run now. */
  datatype Failure = Credential(long: bool) | Cooldown | Upstream | Aborted

  predicate IsCredentialFailure(f: Failure) { f.Credential? || f.Cooldown? }

  /** Only a person can mend it. */
  predicate IsLong(f: Failure) { f.Credential? && f.long }

  datatype Attempt = Answered(answer: Answer) | Failed(failure: Failure)

  datatype Pick = Picked(name: Name) | NoHeadroom | OtherReject

  datatype Hold = Hold(long: bool, sig: int)

  function Lookup(holds: map<Name, Hold>, k: Name): Option<Hold> { if k in holds then Some(holds[k]) else None }

  type Shared = (map<Name, int>, map<Name, Hold>)

  /** Answers of the world, numbered in the order they are asked for; any functions at all. */
  datatype World = World(
    pick: (nat, set<Name>) -> Pick,
    credential: (nat, Name) -> Option<Failure>,
    refresh: (nat, Name) -> Option<Failure>,
    fetch: nat -> Option<Answer>,
    inspect: nat -> bool,
    signature: (nat, Name) -> int,
    aborted: nat -> bool,
    clock: nat -> int,
    others: (nat, Shared) -> Shared)
  {
    /** The picker chooses an allowed member that is not excluded; the clock does not run back. */
    ghost predicate Ok(members: set<Name>) {
      && (forall t, ex :: pick(t, ex).Picked? ==> pick(t, ex).name in members && pick(t, ex).name !in ex)
      && (forall s, t :: s <= t ==> clock(s) <= clock(t))
    }
  }

  /** One entry of the hold table looked at: the step, and the hold it then had. */
  datatype Visit = Visit(at: nat, hold: Option<Hold>)

  /** One reading of the hold table: the step it began at, what had been slept, the table, and each entry's visit. */
  datatype Look = Look(at: nat, slept: int, table: map<Name, int>, seen: map<Name, Visit>)

  /** A question to the picker: the reading it follows, the held and the tried members it excludes, and its step. */
  datatype Ask = Ask(look: Look, held: set<Name>, tried: set<Name>, step: nat)

  /** A question, and what the request had done when it was asked. */
  datatype Question = Question(ask: Ask, log: seq<Event>)

  /** A hold set by this request: the member, and the attempt it was set for. */
  datatype Mark = Mark(name: Name, why: Attempt)

  /** What decides about a wait: the step it is asked at, the waits so far, the end of the wait budget, the reading of
      the table, the held members and their kinds of hold, the pick without the short ones, and the table when the
      sleep is chosen. */
  datatype Pause = Pause(at: nat, slept: int, waits: nat, deadline: int, look: Look, held: set<Name>,
                         holds: map<Name, Hold>, picked: nat, table: map<Name, int>) {
    function Short(): set<Name> { set n | n in held && n in holds && !holds[n].long }
  }

  /** The earliest end among the members `short`; a member no longer in the table ends now. */
  ghost predicate Earliest(at: int, short: set<Name>, table: map<Name, int>, now: int) {
    && (forall n :: n in short ==> at <= EndOf(n, table, now))
    && (exists n :: n in short && at == EndOf(n, table, now))
  }

  function EndOf(n: Name, table: map<Name, int>, now: int): int { if n in table then table[n] else now }

  // ---------- What one request did ----------

  /** An attempt: the question that named the member, the steps it took, the sends, and how it ended. Or a wait: the
      question that was refused, and what decided about it. */
  datatype Event =
    | Tried(ask: Ask, name: Name, at: nat, end: nat, sends: nat, result: Attempt)
    | Waited(ask: Ask, pause: Pause, at: nat, ms: int)

  /** The step at which the last event was over. */
  function LastStep(log: seq<Event>): nat {
    if log == [] then 0 else if log[|log| - 1].Tried? then log[|log| - 1].end else log[|log| - 1].at
  }

  /** The attempts that call for a hold. */
  function Due(log: seq<Event>): seq<Mark> {
    if log == [] then []
    else
      var e := log[|log| - 1];
      Due(log[..|log| - 1]) + (if e.Tried? && CallsForHold(e.result) then [Mark(e.name, e.result)] else [])
  }

  predicate CallsForHold(r: Attempt) { if r.Answered? then IsQuota(r.answer) else IsCredentialFailure(r.failure) }

  function Waits(log: seq<Event>): nat {
    if log == [] then 0 else Waits(log[..|log| - 1]) + (if log[|log| - 1].Waited? then 1 else 0)
  }

  function Tries(log: seq<Event>): nat {
    if log == [] then 0 else Tries(log[..|log| - 1]) + (if log[|log| - 1].Tried? then 1 else 0)
  }

  function Sends(log: seq<Event>): nat {
    if log == [] then 0 else Sends(log[..|log| - 1]) + (if log[|log| - 1].Tried? then log[|log| - 1].sends else 0)
  }

  function Slept(log: seq<Event>): int {
    if log == [] then 0 else Slept(log[..|log| - 1]) + (if log[|log| - 1].Waited? then log[|log| - 1].ms else 0)
  }

  /** The members tried since the last wait. */
  function Since(log: seq<Event>): set<Name> {
    if log == [] || log[|log| - 1].Waited? then {} else Since(log[..|log| - 1]) + {log[|log| - 1].name}
  }

  /** The members tried at all. */
  function Names(log: seq<Event>): set<Name> {
    if log == [] then {} else Names(log[..|log| - 1]) + (if log[|log| - 1].Tried? then {log[|log| - 1].name} else {})
  }

  /** How the last event ended, when it was an attempt. */
  function LastTry(log: seq<Event>): Option<Attempt> {
    if log == [] || log[|log| - 1].Waited? then None else Some(log[|log| - 1].result)
  }

  lemma {:induction false} SinceAmongNames(log: seq<Event>)
    ensures Since(log) <= Names(log)
  {
    if log != [] { SinceAmongNames(log[..|log| - 1]); }
  }

  /** Every attempt is of a member not tried since the last wait, with at most `cap` sends. */
  ghost predicate Fresh(log: seq<Event>, members: set<Name>, cap: nat) {
    log == [] ||
    (Fresh(log[..|log| - 1], members, cap) &&
     var e := log[|log| - 1];
     e.Tried? ==> e.name in members && e.name !in Since(log[..|log| - 1]) && e.sends <= cap)
  }

  /** No member is attempted twice without a wait in between. */
  ghost predicate NoRepeat(log: seq<Event>) {
    forall i, j :: 0 <= i < j < |log| && log[i].Tried? && log[j].Tried? && log[i].name == log[j].name ==>
      exists k :: i < k < j && log[k].Waited?
  }

  lemma {:induction false} SinceIsTried(log: seq<Event>, i: nat)
    requires i < |log| && log[i].Tried? && forall k :: i < k < |log| ==> !log[k].Waited?
    ensures log[i].name in Since(log)
  {
    var init := log[..|log| - 1];
    if i < |init| {
      assert init[i] == log[i] && forall k :: i < k < |init| ==> init[k] == log[k];
      SinceIsTried(init, i);
    }
  }

  lemma {:induction false} FreshNoRepeat(log: seq<Event>, members: set<Name>, cap: nat)
    requires Fresh(log, members, cap)
    ensures NoRepeat(log)
  {
    if log != [] {
      var init := log[..|log| - 1];
      FreshNoRepeat(init, members, cap);
      forall i, j | 0 <= i < j < |log| && log[i].Tried? && log[j].Tried? && log[i].name == log[j].name
        ensures exists k :: i < k < j && log[k].Waited?
      {
        assert init[i] == log[i];
        if j < |init| {
          assert init[j] == log[j];
          var k :| i < k < j && init[k].Waited?;
          assert log[k].Waited?;
        } else if forall k :: i < k < |init| ==> !init[k].Waited? {
          SinceIsTried(init, i);
        } else {
          var k :| i < k < |init| && init[k].Waited?;
          assert log[k].Waited?;
        }
      }
    }
  }

  /** Between waits at most every member once: the numeric bound follows. */
  lemma {:induction false} FreshBound(log: seq<Event>, members: set<Name>, cap: nat)
    requires Fresh(log, members, cap)
    ensures Since(log) <= members
    ensures Tries(log) <= Waits(log) * |members| + |Since(log)|
    ensures Sends(log) <= cap * Tries(log)
  {
    if log != [] {
      var init, e := log[..|log| - 1], log[|log| - 1];
      FreshBound(init, members, cap);
      SubsetSize(Since(init), members);
      if e.Waited? {
        assert (Waits(init) + 1) * |members| == Waits(init) * |members| + |members|;
      } else {
        assert cap * (Tries(init) + 1) == cap * Tries(init) + cap;
      }
    }
  }

  lemma {:induction false} SubsetSize<T>(a: set<T>, b: set<T>)
    requires a <= b
    ensures |a| <= |b|
  {
    if a != {} {
      var x :| x in a;
      SubsetSize(a - {x}, b - {x});
    }
  }

  lemma FreshTotals(log: seq<Event>, members: set<Name>, cap: nat)
    requires Fresh(log, members, cap) && Waits(log) <= MAX_WAITS
    ensures Tries(log) <= 9 * |members|
    ensures Sends(log) <= cap * (9 * |members|)
  {
    hide Fresh, Waits, Tries, Sends, Since;
    FreshBound(log, members, cap);
    SubsetSize(Since(log), members);
    MulMonotone(Waits(log), 8, |members|);
    MulMonotone(Tries(log), 9 * |members|, cap);
  }

  lemma MulMonotone(a: nat, b: nat, k: nat)
    requires a <= b
    ensures a * k <= b * k && k * a <= k * b
  {
  }

  /** The last upstream answer in the log. */
  function LastAnswer(log: seq<Event>): Option<Answer> {
    if log == [] then None
    else
      var e := log[|log| - 1];
      if e.Tried? && e.result.Answered? then Some(e.result.answer) else LastAnswer(log[..|log| - 1])
  }

  /** Every upstream answer but the last is a quota answer: a better one is never thrown away. */
  ghost predicate StopsAtFirstGood(log: seq<Event>) {
    log == [] ||
    (StopsAtFirstGood(log[..|log| - 1]) &&
     var before := LastAnswer(log[..|log| - 1]);
     log[|log| - 1].Tried? && log[|log| - 1].result.Answered? && before.Some? ==> IsQuota(before.value))
  }

  lemma LogSnoc(log: seq<Event>, e: Event, members: set<Name>, cap: nat)
    ensures var all := log + [e];
      && Tries(all) == Tries(log) + (if e.Tried? then 1 else 0)
      && Waits(all) == Waits(log) + (if e.Waited? then 1 else 0)
      && Slept(all) == Slept(log) + (if e.Waited? then e.ms else 0)
      && Sends(all) == Sends(log) + (if e.Tried? then e.sends else 0)
      && Since(all) == (if e.Waited? then {} else Since(log) + {e.name})
      && Names(all) == Names(log) + (if e.Tried? then {e.name} else {})
      && Due(all) == Due(log) + (if e.Tried? && CallsForHold(e.result) then [Mark(e.name, e.result)] else [])
      && LastStep(all) == (if e.Tried? then e.end else e.at)
      && LastTry(all) == (if e.Tried? then Some(e.result) else None)
      && LastAnswer(all) == (if e.Tried? && e.result.Answered? then Some(e.result.answer) else LastAnswer(log))
      && (Fresh(all, members, cap) <==>
            Fresh(log, members, cap) && (e.Tried? ==> e.name in members && e.name !in Since(log) && e.sends <= cap))
      && (StopsAtFirstGood(all) <==>
            StopsAtFirstGood(log)
            && (e.Tried? && e.result.Answered? && LastAnswer(log).Some? ==> IsQuota(LastAnswer(log).value)))
  {
    assert (log + [e])[..|log|] == log;
  }

  // ---------- The request ----------

  datatype Reply = Rejected | Final(answer: Answer) | Error(failure: Failure)

  /** How a further member's turn ends: the request ends, the member is skipped, or it answered. */
  datatype Turn = Stop(failure: Failure) | Skip(error: Option<Failure>) | Got(answer: Answer)

  class Request {
    const world: World
    const pool: bool
    const replayable: bool
    const refreshable: bool
    ghost const members: set<Name>
    /** The hold tables were empty when the request came. */
    ghost const cleanStart: bool

    /** The gateway's shared hold tables; other requests change them while this one waits. */
    var exhausted: map<Name, int>
    var holds: map<Name, Hold>

    var t: nat
    var waits: nat
    var slept: int
    var waitStart: int
    ghost var log: seq<Event>
    ghost var startStep: nat
    /** The last reading of the hold table, the last question to the picker, and the last thought of a wait. */
    ghost var look: Look
    ghost var question: Option<Question>
    ghost var pause: Pause
    /** The holds this request has set, in order. */
    ghost var marks: seq<Mark>

    /** The most sends one attempt makes. */
    ghost function Cap(): nat { if replayable then 2 else 1 }

    ghost predicate Valid()
      reads this
    {
      && world.Ok(members)
      && waits == Waits(log) <= MAX_WAITS
      && slept == Slept(log)
      && look.at <= t
      && OwnHolds()
      && Fresh(log, members, Cap())
      && Truthful(log) && LastStep(log) <= t
    }

    /** Every attempt was of the member the picker named, and ended as the world had it; every wait was called for. */
    ghost predicate Truthful(log: seq<Event>) {
      forall i :: 0 <= i < |log| ==> Genuine(log[i], log[..i])
    }

    ghost predicate Genuine(e: Event, before: seq<Event>) {
      match e
      case Tried(ask, name, at, end, sends, result) =>
        && Proper(ask, before) && Asked(ask) == Picked(name) && ask.step < at < end
        && (match result
            case Answered(a) => AnsweredBy(name, at, end, sends, a)
            case Failed(f) => FailedFor(name, at, end, sends, f))
      case Waited(ask, pause, at, ms) =>
        && MayWait(ask, before) && ask.step < pause.at < at && pause.waits == Waits(before)
        && pause.slept == Slept(before) && Considered(pause) && Worthwhile(pause) && SleepOf(pause, ms)
    }

    /** A wait is thought of when the picker has refused: for want of headroom at first, and after an attempt only when
        the last answer is a quota answer that does not prove exhaustion. */
    ghost predicate MayWait(ask: Ask, before: seq<Event>) {
      && Proper(ask, before)
      && if Tries(before) == 0 then Asked(ask).NoHeadroom?
         else
           var a := LastAnswer(before);
           !Asked(ask).Picked? && a.Some? && IsQuota(a.value) && !a.value.proves
    }

    /** The picker is asked to leave out the members tried since the last wait and, in a pool, exactly those a fresh
        look found still held. */
    ghost predicate Proper(a: Ask, before: seq<Event>) {
      && a.look.at <= a.step
      && Since(before) <= a.tried <= Since(before) + {""}
      && Outlasts(a.held, a.look)
      && if pool then
           LastStep(before) <= a.look.at && a.look.seen.Keys == a.look.table.Keys && a.held == HeldIn(a.look)
         else a.held == {}
    }

    ghost function HeldIn(look: Look): set<Name> {
      set k | k in look.seen && k in look.table && Stays(k, look.table[k], look.seen[k], look.slept)
    }

    ghost function Asked(a: Ask): Pick { world.pick(a.step, a.held + a.tried) }

    /** The first send of the attempt that began at `at` was answered 401. */
    ghost predicate Was401(name: Name, at: nat) {
      && world.credential(at, name) == None && !world.aborted(at + 1)
      && world.fetch(at + 1).Some? && world.fetch(at + 1).value.status == 401
    }

    /** Such a 401 and a refresh, with a body that can be sent again: the second send. */
    ghost predicate Retried(name: Name, at: nat) {
      replayable && refreshable && Was401(name, at) && world.refresh(at + 2, name) == None
    }

    /** Why an attempt was answered so: the last send's answer, with a second send only after a 401 and a refresh. A 401
        stands only where no refresh is to be had or none helps, or after it. */
    ghost predicate AnsweredBy(name: Name, at: nat, end: nat, sends: nat, a: Answer) {
      if sends == 2 then
        Retried(name, at) && !world.aborted(at + 3) && world.fetch(at + 3) == Some(a) && end == at + 4
      else
        && sends == 1 && world.credential(at, name) == None && !world.aborted(at + 1) && world.fetch(at + 1) == Some(a)
        && if a.status != 401 || !refreshable then end == at + 2
           else end == at + 3 && (replayable ==> !pool && world.refresh(at + 2, name) == Some(Cooldown))
    }

    /** Why an attempt failed: no credential, a client gone before a send, a send that failed, or a refresh after a 401
        that failed. */
    ghost predicate FailedFor(name: Name, at: nat, end: nat, sends: nat, f: Failure) {
      match sends
      case 0 =>
        || (world.credential(at, name) == Some(f) && end == at + 1)
        || (world.credential(at, name) == None && world.aborted(at + 1) && f == Aborted && end == at + 1)
      case 1 =>
        || (world.credential(at, name) == None && !world.aborted(at + 1) && world.fetch(at + 1) == None
            && f == Upstream && end == at + 2)
        || (Was401(name, at) && replayable && refreshable && world.refresh(at + 2, name) == Some(f)
            && (f.Cooldown? ==> pool) && end == at + 3)
        || (Retried(name, at) && world.aborted(at + 3) && f == Aborted && end == at + 3)
      case 2 =>
        Retried(name, at) && !world.aborted(at + 3) && world.fetch(at + 3) == None && f == Upstream && end == at + 4
      case _ => false
    }

    lemma TruthfulSnoc(log: seq<Event>, e: Event)
      requires Truthful(log) && Genuine(e, log)
      ensures Truthful(log + [e])
    {
      hide Genuine;
      var all := log + [e];
      forall i | 0 <= i < |all| ensures Genuine(all[i], all[..i]) {
        if i < |log| {
          assert all[..i] == log[..i] && Genuine(log[i], log[..i]);
        } else {
          assert all[..i] == log;
        }
      }
    }

    /** The other requests leave the tables alone. */
    ghost predicate Undisturbed() {
      forall n: nat, s: Shared :: world.others(n, s) == s
    }

    lemma StaysPut(n: nat, s: Shared)
      requires Undisturbed()
      ensures world.others(n, s) == s
    {
    }

    /** Left alone from empty tables on, only members this request tried are ever held. */
    ghost predicate OwnHolds()
      reads `exhausted, `look, `log
    {
      Undisturbed() && cleanStart ==> exhausted.Keys + look.table.Keys <= Names(log)
    }

    /** The wait budget: no more than ninety seconds are ever slept. */
    ghost predicate InBudget()
      reads this
    {
      0 <= slept <= WAIT_BUDGET_MS && startStep <= t && waitStart == world.clock(startStep)
    }

    /** Nobody was left outside the members tried since the last wait and those whose hold had not ended. */
    ghost predicate Refused(q: Question) {
      && Proper(q.ask, q.log) && !Asked(q.ask).Picked?
      && (Undisturbed() && cleanStart ==> q.ask.look.table.Keys <= Names(q.log))
    }

    /** Every member in `held` was in the table, with a hold that ended later. */
    ghost predicate Outlasts(held: set<Name>, look: Look) {
      forall k :: k in held ==> k in look.table && look.table[k] > world.clock(look.at) + look.slept
    }

    /** The picker refused, and the request has done nothing since, but for a sleep the client did not outstay. */
    ghost predicate NobodyLeft()
      reads this
    {
      && question.Some? && Refused(question.value) && question.value.ask.step < t
      && (log == question.value.log || (GoneAsleep(question.value.log) && world.aborted(t - 1)))
    }

    ghost predicate GoneAsleep(before: seq<Event>)
      reads this
    {
      exists e: Event :: e.Waited? && log == before + [e]
    }

    /** A wait is not out of the question from the start. */
    ghost predicate Open(p: Pause) { pool && p.waits < MAX_WAITS && !world.aborted(p.at) && TimeLeft(p) > 0 }

    /** Unless it is, the table is looked at afresh. */
    ghost predicate Considered(p: Pause) {
      Open(p) ==> p.at < p.look.at <= p.picked && p.look.slept == p.slept && p.held == HeldIn(p.look)
    }

    /** A wait is worthwhile: the budget allows it, and without the short holds some member would be picked. */
    ghost predicate Worthwhile(p: Pause) {
      Open(p) && p.Short() != {} && world.pick(p.picked, p.held - p.Short()).Picked?
    }

    ghost function TimeLeft(p: Pause): int { p.deadline - (world.clock(p.at) + p.slept) }

    /** It sleeps until the first short hold ends: at least a quarter second, at most what is left of the budget. */
    ghost predicate SleepOf(p: Pause, ms: int) {
      var now := world.clock(p.at) + p.slept;
      exists soonest ::
        Earliest(soonest, p.Short(), p.table, now) && ms == Min(Max(soonest - now, MIN_SLEEP_MS), TimeLeft(p))
    }

    /** A wait was thought of after the refusal; it was not worthwhile, or the client did not outstay it. */
    ghost predicate NoWaitHelps()
      reads this
    {
      && question.Some? && PauseAfter(question.value) && t > 0 && (Worthwhile(pause) ==> world.aborted(t - 1))
    }

    /** The thought came after the question, with what had been slept and waited by then. */
    ghost predicate PauseAfter(q: Question)
      reads `pause, `waitStart
    {
      && pause.at > q.ask.step && pause.waits == Waits(q.log) && pause.slept == Slept(q.log)
      && pause.deadline == waitStart + WAIT_BUDGET_MS && Considered(pause)
    }

    /** Left alone, the tables are still those that decided about the wait. */
    ghost predicate AsDecided()
      reads `pause, `holds, `exhausted
    {
      Undisturbed() && Open(pause) ==> pause.holds == holds && (Worthwhile(pause) ==> pause.table == exhausted)
    }

    constructor (world: World, pool: bool, replayable: bool, refreshable: bool, ghost members: set<Name>,
      shared: Shared)
      requires world.Ok(members)
      ensures Valid() && log == [] && slept == 0 && marks == []
      ensures this.world == world && this.pool == pool && this.replayable == replayable && this.members == members
      ensures cleanStart == (shared == (map[], map[]))
    {
      this.world, this.pool, this.replayable, this.refreshable, this.members := world, pool, replayable, refreshable,
        members;
      cleanStart := shared == (map[], map[]);
      exhausted, holds := shared.0, shared.1;
      t, waits, slept, waitStart := 0, 0, 0, 0;
      log, startStep := [], 0;
      look, question, marks := Look(0, 0, map[], map[]), None, [];
      pause := Pause(0, 0, 0, 0, Look(0, 0, map[], map[]), {}, map[], 0, map[]);
    }

    /** Any await: the world moves on and other requests use the tables. */
    method Await() returns (n: nat)
      modifies `t, `exhausted, `holds
      ensures n == old(t) && t == n + 1 && (exhausted, holds) == world.others(n, (old(exhausted), old(holds)))
      ensures Undisturbed() ==> exhausted == old(exhausted) && holds == old(holds)
    {
      n := t;
      var before: Shared := (exhausted, holds);
      var after := world.others(n, before);
      if Undisturbed() { StaysPut(n, before); }
      t := t + 1;
      exhausted, holds := after.0, after.1;
    }

    method Now() returns (now: int)
      modifies `t
      ensures t == old(t) + 1 && now == world.clock(old(t)) + slept
    {
      now := world.clock(t) + slept;
      t := t + 1;
    }

    /** Names whose hold has not ended; ended holds are removed, and so is a credential hold whose credential
        changed. */
    method ExhaustedNames() returns (out: set<Name>)
      requires world.Ok(members)
      modifies `t, `exhausted, `holds, `look
      ensures t >= old(t) && out <= old(exhausted).Keys
      // Every entry is looked at once, between the beginning and the end, and named exactly when it stays.
      ensures look == Look(old(t), slept, old(exhausted), look.seen) && look.seen.Keys == old(exhausted).Keys
      ensures Judged(old(exhausted), look.seen, out, old(t), t, slept) && Outlasts(out, look)
      // Undisturbed, exactly the others go, from both tables, each by the hold it had.
      ensures Quiet(old(holds)) ==> exhausted == old(exhausted) - (old(exhausted).Keys - out)
      ensures Quiet(old(holds)) ==> holds == old(holds) - (old(exhausted).Keys - out)
      ensures Quiet(old(holds)) ==> AsBefore(look.seen, old(holds))
      ensures Undisturbed() ==> exhausted.Keys <= old(exhausted).Keys
    {
      hide World.Ok, Scanned, Quiet, Judged, AsBefore, Outlasts, Undisturbed;
      out := {};
      var entries := exhausted;
      var rest := entries.Keys;
      ghost var start, before, gone: set<Name>, seen: map<Name, Visit> := t, holds, {}, map[];
      NothingScanned();
      while rest != {}
        invariant rest <= entries.Keys && start <= t && Scanned(entries, before, seen, out, gone, rest, start)
        decreases |rest|
      {
        var k :| k in rest;
        var keep;
        ghost var visit;
        keep, visit := LookAt(k, entries[k], entries, before, seen, out, gone, rest, start);
        seen := seen[k := visit];
        rest := rest - {k};
        if keep { out := out + {k}; } else { gone := gone + {k}; }
      }
      ScanEnds(entries, before, seen, out, gone, start);
      look := Look(start, slept, entries, seen);
      AllOutlast(out, t);
      UndisturbedIsQuiet(before);
      assert Quiet(before) ==> exhausted.Keys <= entries.Keys;
    }

    /** The entries seen so far: those kept are in `out`, those gone are out of both tables. */
    ghost predicate Scanned(entries: map<Name, int>, before: map<Name, Hold>, seen: map<Name, Visit>,
                            out: set<Name>, gone: set<Name>, rest: set<Name>, start: nat)
      reads this
    {
      && Split(entries.Keys, seen.Keys, out, gone, rest) && start <= t
      && Judged(entries, seen, out, start, t, slept)
      && (Quiet(before) ==> Pruned(entries, before, gone) && AsBefore(seen, before))
    }

    lemma NothingScanned()
      ensures Scanned(exhausted, holds, map[], {}, {}, exhausted.Keys, t)
    {
      NothingPruned(exhausted, holds);
    }

    lemma ScanEnds(entries: map<Name, int>, before: map<Name, Hold>, seen: map<Name, Visit>,
                   out: set<Name>, gone: set<Name>, start: nat)
      requires Scanned(entries, before, seen, out, gone, {}, start)
      ensures out <= entries.Keys == seen.Keys && Judged(entries, seen, out, start, t, slept)
      ensures Quiet(before) ==> AsBefore(seen, before)
      ensures Quiet(before) ==> exhausted == entries - (entries.Keys - out) && holds == before - (entries.Keys - out)
    {
      assert gone == entries.Keys - out;
    }

    /** Each visit lies in `start..end`, and its member is in `out` exactly when it stays. */
    ghost predicate Judged(entries: map<Name, int>, seen: map<Name, Visit>, out: set<Name>,
                           start: nat, end: nat, slept: int)
    {
      && out <= seen.Keys <= entries.Keys
      && forall k :: k in seen ==> start <= seen[k].at < end && (k in out <==> Stays(k, entries[k], seen[k], slept))
    }

    /** Each visit found the hold there was in the beginning. */
    static ghost predicate AsBefore(seen: map<Name, Visit>, before: map<Name, Hold>) {
      forall k :: k in seen ==> seen[k].hold == Lookup(before, k)
    }

    lemma JudgeOne(entries: map<Name, int>, seen: map<Name, Visit>, out: set<Name>, start: nat, end: nat, next: nat,
                   k: Name, v: Visit, before: map<Name, Hold>)
      requires Judged(entries, seen, out, start, end, slept)
      requires k in entries && k !in seen && start <= v.at == end < next
      ensures Judged(entries, seen[k := v], if Stays(k, entries[k], v, slept) then out + {k} else out, start, next,
        slept)
      ensures AsBefore(seen, before) && v.hold == Lookup(before, k) ==> AsBefore(seen[k := v], before)
    {
      hide Stays;
    }

    lemma AllOutlast(out: set<Name>, end: nat)
      requires world.Ok(members) && Judged(look.table, look.seen, out, look.at, end, look.slept)
      ensures Outlasts(out, look)
    {
      forall k | k in out ensures k in look.table && look.table[k] > world.clock(look.at) + look.slept {
        assert k in look.seen;
        StaysLater(k, look.table[k], look.seen[k], look.slept, look.at);
      }
    }

    /** The hold had not ended when it was looked at, nor had the credential of a long one changed. */
    ghost predicate Stays(k: Name, until: int, v: Visit, slept: int) {
      && until > world.clock(v.at) + slept
      && (v.hold.Some? && v.hold.value.long ==> world.signature(v.at + 1, k) == v.hold.value.sig)
    }

    lemma StaysLater(k: Name, until: int, v: Visit, slept: int, start: nat)
      requires world.Ok(members) && Stays(k, until, v, slept) && start <= v.at
      ensures until > world.clock(start) + slept
    {
    }

    /** The member's hold is not long, or the other requests leave the tables alone. */
    ghost predicate Calm(holds: map<Name, Hold>, k: Name) {
      || (k in holds ==> !holds[k].long)
      || Undisturbed()
    }

    lemma QuietIsCalm(before: map<Name, Hold>, gone: set<Name>, k: Name)
      requires Quiet(before)
      ensures Calm(before - gone, k)
    {
    }

    lemma UndisturbedIsQuiet(before: map<Name, Hold>)
      ensures Undisturbed() ==> Quiet(before)
    {
    }

    /** Nothing is awaited (no long holds), or the other requests leave the tables alone. */
    ghost predicate Quiet(before: map<Name, Hold>) {
      || (forall k :: k in before ==> !before[k].long)
      || Undisturbed()
    }

    /** The tables are the old ones without the members in `gone`. */
    ghost predicate Pruned(entries: map<Name, int>, before: map<Name, Hold>, gone: set<Name>)
      reads `exhausted, `holds
    {
      exhausted == entries - gone && holds == before - gone
    }

    lemma NothingPruned(entries: map<Name, int>, before: map<Name, Hold>)
      requires exhausted == entries && holds == before
      ensures Pruned(entries, before, {})
    {
      assert entries - {} == entries && before - {} == before;
    }

    static ghost predicate Split(all: set<Name>, seen: set<Name>, out: set<Name>, gone: set<Name>, rest: set<Name>) {
      seen + rest == all && seen == out + gone && out !! gone && seen !! rest
    }

    static lemma MoveOne(all: set<Name>, seen: set<Name>, out: set<Name>, gone: set<Name>, rest: set<Name>, k: Name)
      requires Split(all, seen, out, gone, rest) && k in rest
      ensures k in all && k !in gone && k !in seen
      ensures Split(all, seen + {k}, out + {k}, gone, rest - {k}) && Split(all, seen + {k}, out, gone + {k}, rest - {k})
    {
    }

    lemma Later(a: nat, b: nat)
      requires world.Ok(members) && a <= b
      ensures world.clock(a) <= world.clock(b)
    {
    }

    /** The next entry, with what has been seen so far. */
    method LookAt(k: Name, until: int, ghost entries: map<Name, int>, ghost before: map<Name, Hold>,
                     ghost seen: map<Name, Visit>, ghost out: set<Name>, ghost gone: set<Name>, ghost rest: set<Name>,
                     ghost start: nat)
      returns (keep: bool, ghost visit: Visit)
      requires k in rest && rest <= entries.Keys && entries[k] == until
      requires Scanned(entries, before, seen, out, gone, rest, start)
      modifies `t, `exhausted, `holds
      ensures t > old(t) && visit == Visit(old(t), Lookup(old(holds), k))
      ensures keep <==> Stays(k, until, visit, slept)
      ensures !keep ==> k !in exhausted && k !in holds
      ensures Scanned(entries, before, seen[k := visit], if keep then out + {k} else out,
                      if keep then gone else gone + {k}, rest - {k}, start)
    {
      hide Stays, Split, Judged, AsBefore, Quiet;
      visit := Visit(t, Lookup(holds, k));
      MoveOne(entries.Keys, seen.Keys, out, gone, rest, k);
      assert seen[k := visit].Keys == seen.Keys + {k};
      ghost var quiet := Quiet(before);
      if quiet { QuietIsCalm(before, gone, k); }
      keep := StillHeld(k, until);
      JudgeOne(entries, seen, out, start, visit.at, t, k, visit, before);
      if quiet && !keep { assert exhausted == entries - (gone + {k}) && holds == before - (gone + {k}); }
      if quiet { assert Lookup(before, k) == visit.hold; }
    }

    /** One entry: an ended hold leaves both tables, and so does a credential hold whose file changed. */
    method StillHeld(k: Name, until: int) returns (keep: bool)
      modifies `t, `exhausted, `holds
      ensures t > old(t)
      ensures keep <==> Stays(k, until, Visit(old(t), Lookup(old(holds), k)), slept)
      ensures !keep ==> k !in exhausted && k !in holds
      ensures Calm(old(holds), k) ==>
        && exhausted == (if keep then old(exhausted) else old(exhausted) - {k})
        && holds == (if keep then old(holds) else old(holds) - {k})
    {
      var now := Now();
      if until <= now {
        exhausted, holds := exhausted - {k}, holds - {k};
        return false;
      }
      if k in holds && holds[k].long {
        var sig := holds[k].sig;
        var n := Await();
        if world.signature(n, k) != sig {
          exhausted, holds := exhausted - {k}, holds - {k};
          return false;
        }
      }
      return true;
    }

    method PickIdentity(exclude: set<Name>) returns (p: Pick)
      requires world.Ok(members)
      modifies `t, `exhausted, `holds
      ensures t == old(t) + 1 && p == world.pick(old(t), exclude)
      ensures p.Picked? ==> p.name in members && p.name !in exclude
      ensures Undisturbed() ==> exhausted == old(exhausted) && holds == old(holds)
    {
      var n := Await();
      p := world.pick(n, exclude);
    }

    /** A failed credential holds the member ten minutes when only a person can mend it, with what its file then
        looked like; else briefly. Reading the file is awaited. */
    method HoldCredentialFailure(name: Name, f: Failure)
      modifies `t, `exhausted, `holds, `marks
      ensures t >= old(t) && marks == old(marks) + [Mark(name, Failed(f))]
      ensures Undisturbed() ==> exhausted.Keys <= old(exhausted).Keys + {name}
      ensures var now := world.clock(old(t)) + slept;
        if IsLong(f) then
          var shared := world.others(old(t) + 1, (old(exhausted)[name := now + CREDENTIAL_HOLD_MS], old(holds)));
          exhausted == shared.0 && holds == shared.1[name := Hold(true, world.signature(old(t) + 1, name))]
        else
          exhausted == old(exhausted)[name := now + BURST_DEFAULT_MS] && holds == old(holds)[name := Hold(false, 0)]
    {
      var long := IsLong(f);
      var now := Now();
      exhausted := exhausted[name := now + if long then CREDENTIAL_HOLD_MS else BURST_DEFAULT_MS];
      var sig := 0;
      if long {
        var n := Await();
        sig := world.signature(n, name);
      }
      holds := holds[name := Hold(long, sig)];
      marks := marks + [Mark(name, Failed(f))];
    }

    /** A quota answer holds the member until its reset when exhaustion is proven (or for 402 and 403), else briefly. */
    method HoldQuota(name: Name, a: Answer)
      modifies `t, `exhausted, `holds, `marks
      ensures marks == old(marks) + [Mark(name, Answered(a))]
      ensures t == old(t) + 1 && (IsQuota(a) ==> HeldForQuota(name, a))
      ensures var now := world.clock(old(t)) + slept;
        if a.status == 402 || a.status == 403 || (a.status == 429 && a.proves) then
          exhausted == old(exhausted)[name := ExhaustedUntil(a.reset, a.retry, now)] && holds == old(holds) - {name}
        else if a.status == 429 then
          && exhausted == old(exhausted)[name := BurstHoldUntil(a.retry, now)]
          && holds == old(holds)[name := Hold(false, 0)]
        else
          exhausted == old(exhausted) && holds == old(holds)
    {
      var now := Now();
      if a.status == 402 || a.status == 403 || (a.status == 429 && a.proves) {
        exhausted := exhausted[name := ExhaustedUntil(a.reset, a.retry, now)];
        holds := holds - {name};
      } else if a.status == 429 {
        exhausted := exhausted[name := BurstHoldUntil(a.retry, now)];
        holds := holds[name := Hold(false, 0)];
      }
      marks := marks + [Mark(name, Answered(a))];
    }

    /** What a quota answer leaves in the tables, when nothing has happened since. */
    ghost predicate HeldForQuota(name: Name, a: Answer)
      reads this
    {
      && t > 0 && name in exhausted
      && var now := world.clock(t - 1) + slept;
        if a.status == 429 && !a.proves then
          exhausted[name] == BurstHoldUntil(a.retry, now) && Lookup(holds, name) == Some(Hold(false, 0))
        else exhausted[name] == ExhaustedUntil(a.reset, a.retry, now) && name !in holds
    }

    /** Waits for the first short hold to end, when a member would then be free and the budget allows it. */
    method WaitForShortHold() returns (again: bool)
      requires Valid() && InBudget() && Standing() && MayWait(question.value.ask, log)
      modifies `t, `exhausted, `holds, `waits, `slept, `log, `look, `pause
      ensures Valid() && InBudget() && t >= old(t)
      // It waits exactly when that is worthwhile, by a fresh look at the table.
      ensures pause.at == old(t) && PauseAfter(question.value) && AsDecided()
      ensures waits == if Worthwhile(pause) then old(waits) + 1 else old(waits)
      ensures !Worthwhile(pause) ==> !again && log == old(log) && slept == old(slept)
      ensures Worthwhile(pause) ==> t > old(t) && (again <==> !world.aborted(t - 1))
      ensures Worthwhile(pause) ==>
        && log == old(log) + [Waited(question.value.ask, pause, t - 1, slept - old(slept))]
        && SleepOf(pause, slept - old(slept)) && Since(log) == {}
      ensures LastAnswer(log) == LastAnswer(old(log))
      ensures StopsAtFirstGood(log) == StopsAtFirstGood(old(log))
      ensures Tries(log) == Tries(old(log)) && (Settled(old(log), marks) ==> Settled(log, marks))
    {
      hide Fresh, Waits, Tries, Sends, Slept, Since, LastAnswer, StopsAtFirstGood, World.Ok, Outlasts, SleepOf,
        Truthful, LastStep, Due, Considered, MayWait, Settled, Refused;
      Later(startStep, t);
      var ms := ConsiderWait();
      if ms == None { return false; }
      SleepWithinBudget(ms.value);
      SleepFor(ms.value);
      return !world.aborted(t - 1);
    }

    lemma SleepWithinBudget(ms: int)
      requires Worthwhile(pause) && SleepOf(pause, ms)
      ensures 0 < ms <= TimeLeft(pause)
    {
    }

    lemma SleepUntil(p: Pause, soonest: int)
      requires Earliest(soonest, p.Short(), p.table, world.clock(p.at) + p.slept)
      ensures SleepOf(p, Min(Max(soonest - (world.clock(p.at) + p.slept), MIN_SLEEP_MS), TimeLeft(p)))
    {
    }

    method ConsiderWait() returns (ms: Option<int>)
      requires world.Ok(members)
      modifies `t, `exhausted, `holds, `look, `pause
      ensures t >= old(t) && (look.at <= t || look == old(look))
      ensures pause.at == old(t) && pause.slept == slept && pause.waits == waits
      ensures pause.deadline == waitStart + WAIT_BUDGET_MS && Considered(pause) && AsDecided()
      ensures ms.Some? <==> Worthwhile(pause)
      ensures ms.Some? ==> t > pause.at
      ensures Undisturbed() ==>
        exhausted.Keys <= old(exhausted).Keys && look.table.Keys <= old(exhausted).Keys + old(look).table.Keys
      ensures ms.Some? ==> SleepOf(pause, ms.value)
    {
      hide World.Ok, Earliest, SleepOf, Outlasts, Judged, Quiet, AsBefore, Undisturbed, Stays, HeldIn;
      pause := Pause(t, slept, waits, waitStart + WAIT_BUDGET_MS, look, {}, map[], t, map[]);
      if !pool || waits >= MAX_WAITS || world.aborted(t) { return None; }
      var now := Now();
      var left := waitStart + WAIT_BUDGET_MS - now;
      if left <= 0 { return None; }
      var held := ExhaustedNames();
      ExactlyHeld(held);
      var short := set n | n in held && n in holds && !holds[n].long;
      pause := pause.(look := look, held := held, holds := holds, picked := t);
      assert pause.Short() == short;
      if short == {} { return None; }
      var free := PickIdentity(held - short);
      if !free.Picked? { return None; }
      var chosen := ChooseSleep(short, now, left);
      return Some(chosen);
    }

    /** Until the first short hold ends, within the bounds. */
    method ChooseSleep(short: set<Name>, now: int, left: int) returns (ms: int)
      requires short != {} && short == pause.Short()
      requires now == world.clock(pause.at) + pause.slept && left == TimeLeft(pause)
      modifies `pause
      ensures pause == old(pause).(table := exhausted) && pause.Short() == short && SleepOf(pause, ms)
    {
      hide Earliest, SleepOf;
      pause := pause.(table := exhausted);
      assert pause.Short() == short;
      var soonest := Soonest(short, now);
      SleepUntil(pause, soonest);
      return Min(Max(soonest - now, MIN_SLEEP_MS), left);
    }

    method SleepFor(ms: int)
      requires Valid() && waits < MAX_WAITS && AsDecided()
      requires question.Some? && Genuine(Waited(question.value.ask, pause, t, ms), log)
      modifies `t, `exhausted, `holds, `waits, `slept, `log
      ensures Valid() && waits == old(waits) + 1 && slept == old(slept) + ms && AsDecided()
      ensures t > old(t) && log == old(log) + [Waited(question.value.ask, pause, t - 1, ms)]
      ensures Since(log) == {} && LastAnswer(log) == LastAnswer(old(log)) && Tries(log) == Tries(old(log))
      ensures Names(log) == Names(old(log)) && (Settled(old(log), marks) ==> Settled(log, marks))
      ensures StopsAtFirstGood(log) == StopsAtFirstGood(old(log))
    {
      hide Fresh, Waits, Tries, Sends, Slept, Since, LastAnswer, StopsAtFirstGood, World.Ok, Truthful, LastStep, Due,
        Genuine, Settled, Open, Worthwhile;
      ghost var e := Waited(question.value.ask, pause, t, ms);
      LogSnoc(log, e, members, Cap());
      TruthfulSnoc(log, e);
      WaitIsSettled(log, e, marks);
      waits := waits + 1;
      log := log + [e];
      slept := slept + ms;
      var _ := Await();
    }

    /** The earliest end among held members (now, when the table no longer has one). */
    method Soonest(short: set<Name>, now: int) returns (at: int)
      requires short != {}
      ensures Earliest(at, short, exhausted, now)
    {
      var first :| first in short;
      at := EndOf(first, exhausted, now);
      var rest := short - {first};
      ghost var best := first;
      while rest != {}
        invariant rest <= short && best in short && at == EndOf(best, exhausted, now)
        invariant forall n :: n in short - rest ==> at <= EndOf(n, exhausted, now)
        decreases |rest|
      {
        var k :| k in rest;
        rest := rest - {k};
        var end := EndOf(k, exhausted, now);
        if end < at { at, best := end, k; }
      }
    }

    /** One send. A client already gone gets no upstream call. */
    method Send() returns (sent: bool, r: Attempt)
      modifies `t, `exhausted, `holds
      ensures !sent ==> t == old(t) && r == Failed(Aborted) && world.aborted(t)
      ensures Undisturbed() ==> exhausted.Keys <= old(exhausted).Keys
      ensures sent ==>
        && t == old(t) + 1 && !world.aborted(old(t))
        && r == (if world.fetch(old(t)).Some? then Answered(world.fetch(old(t)).value) else Failed(Upstream))
      ensures r.Failed? ==> !IsCredentialFailure(r.failure)
    {
      if world.aborted(t) { return false, Failed(Aborted); }
      var n := Await();
      var a := world.fetch(n);
      return true, if a.Some? then Answered(a.value) else Failed(Upstream);
    }

    /** The picker has just named this member. */
    ghost predicate Invited(name: Name)
      reads this
    {
      && question.Some? && question.value.log == log && question.value.ask.step < t
      && Proper(question.value.ask, log) && Asked(question.value.ask) == Picked(name)
    }

    /** One attempt, with at most one refresh and retry after a 401; a streamed body is sent at most once. */
    method TryMember(name: Name) returns (r: Attempt)
      requires Valid() && name in members && name !in Since(log) && Invited(name)
      requires LastAnswer(log).Some? ==> IsQuota(LastAnswer(log).value)
      requires StopsAtFirstGood(log) && Settled(log, marks)
      modifies `t, `exhausted, `holds, `log
      ensures Valid() && t > old(t)
      ensures log != [] && log[..|log| - 1] == old(log) && Pending(log, marks, name, r, t)
      ensures Tries(log) == Tries(old(log)) + 1
      ensures Since(log) == Since(old(log)) + {name}
      ensures Names(log) == Names(old(log)) + {name} && LastTry(log) == Some(r)
      ensures LastAnswer(log) == if r.Answered? then Some(r.answer) else LastAnswer(old(log))
      ensures StopsAtFirstGood(log)
    {
      hide Fresh, Waits, Tries, Sends, Slept, Since, LastAnswer, StopsAtFirstGood, Truthful, LastStep, Due, Proper,
        AnsweredBy, FailedFor, CallsForHold;
      ghost var at := t;
      var sends;
      r, sends := Exchange(name);
      ghost var e := Tried(question.value.ask, name, at, t, sends, r);
      LogSnoc(log, e, members, Cap());
      TruthfulSnoc(log, e);
      log := log + [e];
    }

    method Exchange(name: Name) returns (r: Attempt, sends: nat)
      modifies `t, `exhausted, `holds
      ensures t > old(t) && sends <= Cap()
      ensures Undisturbed() ==> exhausted.Keys <= old(exhausted).Keys
      ensures match r
              case Answered(a) => AnsweredBy(name, old(t), t, sends, a)
              case Failed(f) => FailedFor(name, old(t), t, sends, f)
    {
      sends := 0;
      var n := Await();
      var bad := world.credential(n, name);
      if bad.Some? { return Failed(bad.value), 0; }
      var sent;
      sent, r := Send();
      if sent { sends := 1; }
      if r.Failed? || r.answer.status != 401 || !refreshable { return; }
      n := Await();
      var err := world.refresh(n, name);
      if err.Some? {
        if err.value.Cooldown? {
          return if pool && replayable then Failed(err.value) else r, sends;
        }
        return if replayable then Failed(err.value) else r, sends;
      }
      if !replayable { return; }
      sent, r := Send();
      if sent { sends := sends + 1; }
    }

    /** Nothing has been tried yet. */
    ghost predicate Untried()
      reads this
    {
      && Tries(log) == 0 && LastAnswer(log) == None && StopsAtFirstGood(log) && Since(log) == {}
      && marks == [] && Settled(log, marks)
    }

    /** The first member, waiting for short holds while there is no headroom. */
    method PickFirst() returns (picked: Pick)
      requires Valid() && InBudget() && Untried()
      modifies `t, `exhausted, `holds, `waits, `slept, `log, `look, `question, `pause
      ensures Valid() && InBudget() && Untried()
      ensures if picked.Picked? then picked.name in members && Invited(picked.name)
              else NobodyLeft() && picked == Asked(question.value.ask)
      ensures picked.NoHeadroom? ==> NoWaitHelps()
    {
      hide Fresh, Waits, Tries, Sends, Slept, Since, LastAnswer, StopsAtFirstGood, World.Ok, Outlasts, Refused,
        NobodyLeft, Worthwhile, Standing, NoWaitHelps, Truthful, LastStep, Due, Invited, Proper, Asked;
      if pool { picked := NextMember({}); } else { picked := OnlyMember(); }
      while picked.NoHeadroom?
        invariant Valid() && InBudget() && Untried()
        invariant if picked.Picked? then picked.name in members && Invited(picked.name)
                  else Standing() && question.Some? && picked == Asked(question.value.ask)
        decreases MAX_WAITS - waits
      {
        WaitMayHelp();
        var again := TryWaiting();
        if !again { return; }
        picked := NextMember({});
      }
      if !picked.Picked? { StandingMeans(); }
    }

    /** A fresh look at the holds, then a pick outside the held and the tried members. */
    method NextMember(tried: set<Name>) returns (p: Pick)
      requires Valid() && InBudget() && pool && Since(log) <= tried <= Since(log) + {""}
      modifies `t, `exhausted, `holds, `look, `question
      ensures Valid() && InBudget() && t > old(t) && question.Some?
      ensures look.at == old(t) && look.table == old(exhausted) && look.seen.Keys == old(exhausted).Keys
      ensures question.value.ask.look == look && question.value.ask.held == HeldIn(look)
      ensures p.Picked? ==> p.name in members && p.name !in tried && p.name !in HeldIn(look) && Invited(p.name)
      ensures !p.Picked? ==> Standing() && p == Asked(question.value.ask)
    {
      hide Fresh, Waits, Tries, Sends, Slept, Since, World.Ok, Outlasts, Refused, Quiet, AsBefore, Stays, HeldIn,
        Truthful, LastStep, Judged, Invited, Standing;
      var held := ExhaustedNames();
      ExactlyHeld(held);
      p := AskPicker(held, tried);
    }

    /** What the loop over the table names is what stays. */
    lemma ExactlyHeld(held: set<Name>)
      requires look.seen.Keys == look.table.Keys && Judged(look.table, look.seen, held, look.at, t, look.slept)
      ensures held == HeldIn(look)
    {
      hide Stays;
    }

    /** Without a pool there is nobody to leave out. */
    method OnlyMember() returns (p: Pick)
      requires Valid() && InBudget() && !pool && Since(log) == {}
      modifies `t, `exhausted, `holds, `question
      ensures Valid() && InBudget() && t > old(t) && question.Some?
      ensures p.Picked? ==> p.name in members && Invited(p.name)
      ensures !p.Picked? ==> Standing() && p == Asked(question.value.ask)
    {
      hide Fresh, Waits, Tries, Sends, Slept, Since, World.Ok, Refused, Truthful, LastStep, Invited, Standing;
      p := AskPicker({}, {});
    }

    /** Asks the picker, and keeps the question. */
    method AskPicker(held: set<Name>, tried: set<Name>) returns (p: Pick)
      requires world.Ok(members) && Outlasts(held, look) && look.at <= t && Since(log) <= tried <= Since(log) + {""}
      requires if pool then LastStep(log) <= look.at && look.seen.Keys == look.table.Keys && held == HeldIn(look)
               else held == {}
      requires OwnHolds()
      modifies `t, `exhausted, `holds, `question
      ensures t == old(t) + 1 && p == world.pick(old(t), held + tried) && OwnHolds()
      ensures question == Some(Question(Ask(look, held, tried, old(t)), log))
      ensures p.Picked? ==> p.name in members && p.name !in held + tried && Invited(p.name)
      ensures !p.Picked? ==> Standing()
    {
      hide Since, Outlasts, HeldIn, LastStep;
      ghost var n := t;
      p := PickIdentity(held + tried);
      question := Some(Question(Ask(look, held, tried, n), log));
    }

    /** The picker has refused, and nothing was done since. */
    ghost predicate Standing()
      reads this
    {
      question.Some? && Refused(question.value) && question.value.ask.step < t && log == question.value.log
    }

    /** What a refusal means for the request's end. */
    lemma StandingMeans()
      requires Standing()
      ensures NobodyLeft()
    {
    }

    lemma WaitMayHelp()
      requires Standing()
      requires if Tries(log) == 0 then Asked(question.value.ask).NoHeadroom?
               else LastAnswer(log).Some? && IsQuota(LastAnswer(log).value) && !LastAnswer(log).value.proves
      ensures MayWait(question.value.ask, log)
    {
    }

    /** After a refusal: a wait, or the end. */
    method TryWaiting() returns (again: bool)
      requires Valid() && InBudget() && Standing() && MayWait(question.value.ask, log)
      modifies `t, `exhausted, `holds, `waits, `slept, `log, `look, `pause
      ensures Valid() && InBudget() && t >= old(t)
      ensures again ==> pool && waits == old(waits) + 1 && Since(log) == {}
      ensures !again ==> NobodyLeft() && NoWaitHelps() && (log == old(log) || Since(log) == {})
      ensures LastAnswer(log) == LastAnswer(old(log)) && StopsAtFirstGood(log) == StopsAtFirstGood(old(log))
      ensures Tries(log) == Tries(old(log)) && (Settled(old(log), marks) ==> Settled(log, marks))
    {
      hide Fresh, Waits, Tries, Sends, Slept, Since, LastAnswer, StopsAtFirstGood, World.Ok, Outlasts, Refused, SleepOf,
        Truthful, LastStep, Due;
      again := WaitForShortHold();
    }

    /** What each kind of reply takes. */
    ghost predicate Justified(reply: Reply)
      reads this
    {
      match reply
      // A refusal: nobody could be picked, nothing was sent, and for want of headroom no wait would help.
      case Rejected => Tries(log) == 0 && NobodyLeft() && (Asked(question.value.ask).NoHeadroom? ==> NoWaitHelps())
      // The last upstream answer; a quota answer only when the picker had nobody left and, unless exhaustion was
      // proven, no wait would help.
      case Final(a) =>
        && LastAnswer(log) == Some(a)
        && (pool && replayable && IsQuota(a) ==> NobodyLeft() && (a.proves || NoWaitHelps()))
      // An error was raised for a reason of its own; a client that is gone gets none other.
      case Error(f) => exists raised :: Raised(raised) && f == if world.aborted(t) then Aborted else raised
    }

    /** Why an error is raised. In a pool a credential error only when no upstream answered and the picker had nobody
        left, and it is that of the last member held; any other, only for what the last attempt was. */
    ghost predicate Raised(f: Failure)
      reads this
    {
      && Tries(log) > 0
      && if pool && replayable && IsCredentialFailure(f) then
           LastAnswer(log) == None && NobodyLeft() && HeldLast(f)
         else Broken(f)
    }

    /** The last hold set was for this failure. */
    ghost predicate HeldLast(f: Failure)
      reads `marks
    {
      marks != [] && marks[|marks| - 1].why == Failed(f)
    }

    /** The client went away from a failed attempt, the first attempt failed so, or its answer's body could not be
        read. */
    ghost predicate Broken(f: Failure)
      reads this
    {
      && LastTry(log).Some?
      && var r := LastTry(log).value;
        || (f.Aborted? && r.Failed? && world.aborted(t))
        || (r == Failed(f) && Tries(log) == 1)
        || (f.Upstream? && r.Answered? && MayPeek(r.answer) && world.inspect(LastStep(log)))
    }

    /** What is returned or thrown inside; the request's own catch comes after. */
    ghost predicate Outcome(reply: Reply)
      reads this
    {
      if reply.Error? then Raised(reply.failure) else Justified(reply)
    }

    /** The whole request: pick, first attempt, failover. */
    method Serve() returns (reply: Reply)
      requires Valid() && log == [] && slept == 0 && marks == []
      modifies this
      ensures Valid()
      ensures Tries(log) <= 9 * |members| && Sends(log) <= Cap() * (9 * |members|)
      ensures NoRepeat(log)
      ensures 0 <= Slept(log) <= WAIT_BUDGET_MS
      ensures !(pool && replayable) ==> Tries(log) <= 1
      ensures StopsAtFirstGood(log)
      ensures Justified(reply)
      // Left alone from empty tables on, whoever gave up had the picker refuse everybody it had not tried itself.
      ensures Undisturbed() && cleanStart && GivesUp(reply) ==> EveryoneTried()
      // No attempt is of a member that was held, no error comes from a world in which all is well, and every attempt
      // that calls for a hold has set it.
      ensures NeverHeld() && (AllWell() ==> !reply.Error?)
      ensures HoldsSet(reply)
    {
      startStep := t;
      waitStart := Now();
      EmptyLog();
      hide Fresh, Waits, Tries, Sends, Slept, Since, LastAnswer, StopsAtFirstGood, NoRepeat, World.Ok, Justified,
        Outcome, Undisturbed, GivesUp, EveryoneTried, Truthful, LastStep, Due, Invited, AllWell, HoldsSet, NeverHeld;
      var picked := PickFirst();
      if picked.Picked? {
        reply := ServePicked(picked.name);
        ghost var raised := reply;
        if reply.Error? && world.aborted(t) { reply := Error(Aborted); }
        CatchIsJustified(raised, reply);
        } else {
        reply := Rejected;
        RefusalIsJustified();
      }
      Conclude();
      NobodyHeldIsTried();
      NothingGoesWrong(reply);
      if Undisturbed() && cleanStart && GivesUp(reply) { NobodyElse(reply); }
    }

    /** In a pool no attempt is of a member that the look before it found still held. */
    ghost predicate NeverHeld()
      reads this
    {
      pool ==> forall i :: 0 <= i < |log| && log[i].Tried? ==> log[i].name !in HeldIn(log[i].ask.look)
    }

    lemma NobodyHeldIsTried()
      requires Valid()
      ensures NeverHeld()
    {
      hide HeldIn, Fresh, AnsweredBy, FailedFor, Outlasts;
      if pool {
        forall i | 0 <= i < |log| && log[i].Tried? ensures log[i].name !in HeldIn(log[i].ask.look) {
          assert Genuine(log[i], log[..i]);
        }
      }
    }

    /** No credential, refresh or send fails, nobody leaves, and every body can be read. */
    ghost predicate AllWell() {
      && (forall n, k :: world.credential(n, k) == None)
      && (forall n, k :: world.refresh(n, k) == None)
      && (forall n :: world.fetch(n).Some?)
      && (forall n :: !world.aborted(n))
      && (forall n :: !world.inspect(n))
    }

    lemma {:induction false} AllAnswered(log: seq<Event>)
      requires AllWell() && Truthful(log)
      ensures forall i :: 0 <= i < |log| && log[i].Tried? ==> log[i].result.Answered?
    {
      hide Proper;
      forall i | 0 <= i < |log| && log[i].Tried? ensures log[i].result.Answered? {
        assert Genuine(log[i], log[..i]);
      }
    }

    lemma {:induction false} SomeAnswer(log: seq<Event>)
      requires forall i :: 0 <= i < |log| && log[i].Tried? ==> log[i].result.Answered?
      ensures Tries(log) > 0 ==> LastAnswer(log).Some?
      ensures LastTry(log).Some? ==> LastTry(log).value.Answered?
    {
      if log != [] && log[|log| - 1].Waited? { SomeAnswer(log[..|log| - 1]); }
    }

    lemma NothingGoesWrong(reply: Reply)
      requires Valid() && Justified(reply)
      ensures AllWell() ==> !reply.Error?
    {
      hide Fresh, Tries, LastAnswer, LastTry, NobodyLeft;
      if AllWell() {
        AllAnswered(log);
        SomeAnswer(log);
      }
    }

    /** In a pool the holds set are those the attempts call for, in order; the attempt an error ends with may go
        without. Every answer whose body had to be read, could be, but for such a last one. */
    ghost predicate HoldsSet(reply: Reply)
      reads this
    {
      if pool && replayable then
        Settled(log, marks) || (reply.Error? && log != [] && Settled(log[..|log| - 1], marks))
      else marks == []
    }

    ghost predicate Settled(log: seq<Event>, marks: seq<Mark>) { marks == Due(log) && AllGoOn(log) }

    /** No event ends the request. */
    ghost predicate AllGoOn(log: seq<Event>) {
      forall i :: 0 <= i < |log| ==> GoesOn(log[i], Tries(log[..i]) == 0)
    }

    /** A failed attempt ends the request when the client is gone, and the first one does unless it is for the
        credential; an answer does when its body has to be read and cannot be. */
    ghost predicate GoesOn(e: Event, first: bool) {
      e.Tried? ==>
        match e.result
        case Failed(f) => !world.aborted(e.end) && (first ==> IsCredentialFailure(f))
        case Answered(a) => !(MayPeek(a) && world.inspect(e.end))
    }

    lemma AllGoOnSnoc(log: seq<Event>, e: Event)
      requires AllGoOn(log) && GoesOn(e, Tries(log) == 0)
      ensures AllGoOn(log + [e])
    {
      hide GoesOn, Tries;
      var all := log + [e];
      forall i | 0 <= i < |all| ensures GoesOn(all[i], Tries(all[..i]) == 0) {
        assert all[..i] == if i < |log| then log[..i] else log;
      }
    }

    /** The last attempt is still to be dealt with. */
    ghost predicate Pending(log: seq<Event>, marks: seq<Mark>, name: Name, r: Attempt, end: nat) {
      && log != [] && Settled(log[..|log| - 1], marks)
      && var e := log[|log| - 1];
      e.Tried? && e.name == name && e.result == r && e.end == end
    }

    lemma WaitIsSettled(log: seq<Event>, e: Event, marks: seq<Mark>)
      requires e.Waited?
      ensures Settled(log, marks) ==> Settled(log + [e], marks)
    {
      assert (log + [e])[..|log|] == log;
      if AllGoOn(log) { AllGoOnSnoc(log, e); }
    }

    lemma PendingMeans(name: Name, r: Attempt, end: nat)
      requires Pending(log, marks, name, r, end)
      ensures log != [] && Settled(log[..|log| - 1], marks) && LastStep(log) == end
    {
    }

    /** The last attempt is dealt with: it does not end the request, and its hold is the last one set. */
    lemma LastIsSettled(before: seq<Mark>, name: Name, r: Attempt, end: nat)
      requires Pending(log, before, name, r, end)
      requires marks == before + if CallsForHold(r) then [Mark(name, r)] else []
      requires match r
               case Failed(f) => !world.aborted(end) && (Tries(log) == 1 ==> IsCredentialFailure(f))
               case Answered(a) => !(MayPeek(a) && world.inspect(end))
      ensures Settled(log, marks)
    {
      hide CallsForHold, MayPeek;
      var init, e := log[..|log| - 1], log[|log| - 1];
      AllGoOnSnoc(init, e);
      assert log == init + [e];
    }

    /** A refusal, or in a pool a quota answer. */
    ghost predicate GivesUp(reply: Reply) {
      reply.Rejected? || (pool && replayable && reply.Final? && IsQuota(reply.answer))
    }

    ghost predicate EveryoneTried()
      reads this
    {
      exists n: nat, ex: set<Name> :: n < t && Since(log) <= ex <= Names(log) + {""} && !world.pick(n, ex).Picked?
    }

    lemma NobodyElse(reply: Reply)
      requires Justified(reply) && GivesUp(reply) && Undisturbed() && cleanStart
      ensures EveryoneTried()
    {
      var q := question.value;
      var ex := q.ask.held + q.ask.tried;
      SinceAmongNames(q.log);
      assert q.ask.held <= q.ask.look.table.Keys <= Names(q.log);
      if log != q.log {
        var e: Event :| e.Waited? && log == q.log + [e];
        LogSnoc(q.log, e, members, Cap());
      }
      assert Since(log) <= ex <= Names(log) + {""} && !world.pick(q.ask.step, ex).Picked?;
    }

    lemma CatchIsJustified(inner: Reply, reply: Reply)
      requires Outcome(inner)
      requires reply == if inner.Error? && world.aborted(t) then Error(Aborted) else inner
      ensures Justified(reply)
    {
      if inner.Error? { assert Raised(inner.failure); }
    }

    lemma UnreadIsRaised(r: Attempt)
      requires Tries(log) > 0 && LastTry(log) == Some(r)
      requires r.Answered? && MayPeek(r.answer) && world.inspect(LastStep(log))
      ensures Raised(Upstream)
    {
    }

    lemma RefusalIsJustified()
      requires Tries(log) == 0 && NobodyLeft() && (Asked(question.value.ask).NoHeadroom? ==> NoWaitHelps())
      ensures Justified(Rejected)
    {
    }

    /** The first attempt, and in a pool what follows it. */
    method ServePicked(name: Name) returns (reply: Reply)
      requires Valid() && InBudget() && Untried() && name in members && Invited(name)
      modifies `t, `exhausted, `holds, `waits, `slept, `log, `look, `question, `pause, `marks
      ensures Valid() && InBudget() && StopsAtFirstGood(log) && Outcome(reply) && HoldsSet(reply)
      ensures !(pool && replayable) ==> Tries(log) <= 1
    {
      hide Fresh, Waits, Tries, Sends, Slept, Since, LastAnswer, StopsAtFirstGood, World.Ok, IsQuota, Pending,
        NobodyLeft, NoWaitHelps, Names, LastTry, Undisturbed, MayPeek;
      var r := TryMember(name);
      if !(pool && replayable) {
        return if r.Answered? then Final(r.answer) else Error(r.failure);
      }
      if r.Failed? && (world.aborted(t) || !IsCredentialFailure(r.failure)) {
        return Error(if world.aborted(t) then Aborted else r.failure);
      }
      reply := FailOver(name, r);
    }

    /** A further member's turn. One that cannot be tried is skipped; the last upstream answer stays. */
    method TryNext(name: Name) returns (turn: Turn)
      requires Valid() && InBudget() && name in members && name !in Since(log) && Invited(name)
      requires LastAnswer(log).Some? ==> IsQuota(LastAnswer(log).value)
      requires StopsAtFirstGood(log) && Settled(log, marks) && Tries(log) > 0
      modifies `t, `exhausted, `holds, `log, `marks
      ensures Valid() && InBudget() && t >= old(t) && StopsAtFirstGood(log)
      ensures if turn.Stop? then log != [] && Settled(log[..|log| - 1], marks) else Settled(log, marks)
      ensures Since(log) == Since(old(log)) + {name}
      ensures turn.Skip? ==> LastAnswer(log) == LastAnswer(old(log))
      ensures turn.Got? ==> LastAnswer(log) == Some(turn.answer)
      ensures turn.Stop? ==> !IsCredentialFailure(turn.failure) && Raised(turn.failure)
      ensures Tries(log) == Tries(old(log)) + 1
      ensures turn.Skip? ==>
        && LastTry(log).Some? && LastTry(log).value.Failed?
        && match LastTry(log).value.failure
           case Upstream => turn.error == None
           case Aborted => turn.error == None
           case f => turn.error == Some(f) && IsCredentialFailure(f)
      ensures turn.Got? ==> LastTry(log) == Some(Answered(turn.answer))
      // The holds it leaves.
      ensures turn.Got? && IsQuota(turn.answer) ==> HeldForQuota(name, turn.answer)
      ensures turn.Skip? && turn.error.Some? ==> name in holds && holds[name].long == IsLong(turn.error.value)
      ensures turn.Skip? ==> if turn.error.Some? then HeldLast(turn.error.value) else marks == old(marks)
    {
      hide Fresh, Waits, Tries, Sends, Slept, Since, LastAnswer, StopsAtFirstGood, World.Ok, IsQuota, Pending, Names,
        LastTry, Undisturbed, HeldForQuota, MayPeek, Truthful, LastStep, Due, Invited, Settled, Pending;
      ghost var before := marks;
      var r := TryMember(name);
      ghost var end := t;
      PendingMeans(name, r, end);
      if r.Failed? {
        if world.aborted(t) { return Stop(Aborted); }
        if IsCredentialFailure(r.failure) { HoldCredentialFailure(name, r.failure); }
        LastIsSettled(before, name, r, end);
        return Skip(if IsCredentialFailure(r.failure) then Some(r.failure) else None);
      }
      var m := Await();
      if MayPeek(r.answer) && world.inspect(m) { return Stop(Upstream); }
      if IsQuota(r.answer) { HoldQuota(name, r.answer); }
      LastIsSettled(before, name, r, end);
      return Got(r.answer);
    }

    /** After the first attempt in a pool: every quota answer or credential failure hands the request to the next
        member, until one answers well or none is left; the last answer then stands. */
    method FailOver(first: Name, r: Attempt) returns (reply: Reply)
      requires Valid() && InBudget() && pool && replayable
      requires Since(log) == {first} && StopsAtFirstGood(log)
      requires marks == [] && Pending(log, marks, first, r, t)
      requires LastAnswer(log) == if r.Answered? then Some(r.answer) else None
      requires Tries(log) == 1 && LastTry(log) == Some(r)
      requires r.Failed? ==> IsCredentialFailure(r.failure) && !world.aborted(t)
      modifies `t, `exhausted, `holds, `waits, `slept, `log, `look, `question, `pause, `marks
      ensures Valid() && InBudget() && StopsAtFirstGood(log) && !reply.Rejected? && Outcome(reply) && HoldsSet(reply)
    {
      hide Fresh, Waits, Tries, Sends, Slept, Since, LastAnswer, StopsAtFirstGood, World.Ok, HeldForQuota, IsLong,
        Names, LastTry, Undisturbed, Truthful, LastStep, Due, Settled, Pending, CallsForHold, HeldLast, Broken,
        IsCredentialFailure;
      SinceAmongNames(log);
      ghost var end := t;
      PendingMeans(first, r, end);
      var unread := HoldFirst(first, r);
      if unread { UnreadIsRaised(r); return Error(Upstream); }
      LastIsSettled([], first, r, end);
      reply := HandOn(first, r);
    }

    /** The loop over the further members, once the first one's hold is set. */
    method HandOn(first: Name, r: Attempt) returns (reply: Reply)
      requires Valid() && InBudget() && pool && replayable
      requires Since(log) == {first} && StopsAtFirstGood(log) && Settled(log, marks) && Tries(log) > 0
      requires LastAnswer(log) == if r.Answered? then Some(r.answer) else None
      requires r.Failed? ==> IsCredentialFailure(r.failure) && HeldLast(r.failure)
      modifies `t, `exhausted, `holds, `waits, `slept, `log, `look, `question, `pause, `marks
      ensures Valid() && InBudget() && StopsAtFirstGood(log) && !reply.Rejected? && Outcome(reply) && HoldsSet(reply)
    {
      hide Fresh, Waits, Tries, Sends, Slept, Since, LastAnswer, StopsAtFirstGood, World.Ok, IsQuota, NobodyLeft,
        Outlasts, Refused, Worthwhile, NoWaitHelps, SleepOf, HeldForQuota, MayWait, Standing, IsLong, Names, LastTry,
        Undisturbed, Truthful, LastStep, Due, Invited, Settled, HeldIn, Proper, Asked, HeldLast, Broken,
        IsCredentialFailure;
      var cur := if r.Answered? then Some(r.answer) else None;
      var quota := cur.Some? && IsQuota(cur.value);
      var error := if r.Failed? then r.failure else Upstream;
      var tried: set<Name> := {};
      var name := first;
      while quota || cur.None?
        invariant Valid() && InBudget() && StopsAtFirstGood(log) && Settled(log, marks) && Tries(log) > 0
        invariant Since(log) <= tried + {name} <= Since(log) + {""}
        invariant cur == LastAnswer(log) && quota == (cur.Some? && IsQuota(cur.value))
        invariant t >= old(t)
        invariant cur.None? ==> IsCredentialFailure(error) && HeldLast(error)
        decreases MAX_WAITS - waits, members - (tried + {name})
      {
        tried := tried + {name};
        var next := NextMember(tried);
        if !next.Picked? {
          var again := false;
          StandingMeans();
          if quota && !cur.value.proves {
            WaitMayHelp();
            again := TryWaiting();
          }
          if !again { break; }
          tried, name := {}, "";
          continue;
        }
        name := next.name;
        var turn := TryNext(name);
        match turn {
          case Stop(f) => return Error(f);
          case Skip(f) =>
            if f.Some? { error := f.value; }
            tried := tried + {name};
          case Got(a) => cur, quota := Some(a), IsQuota(a);
        }
      }
      return if cur.Some? then Final(cur.value) else Error(error);
    }

    /** The first member's hold, if its answer or failure calls for one; `unread` when its error body cannot be read. */
    method HoldFirst(first: Name, r: Attempt) returns (unread: bool)
      requires r.Failed? ==> IsCredentialFailure(r.failure)
      modifies `t, `exhausted, `holds, `marks
      ensures t >= old(t)
      ensures unread <==>
        r.Answered? && (r.answer.status == 403 || r.answer.status == 429) && world.inspect(old(t))
      ensures marks == old(marks) + if !unread && CallsForHold(r) then [Mark(first, r)] else []
      ensures Undisturbed() ==> exhausted.Keys <= old(exhausted).Keys + {first}
      ensures r.Answered? && !unread && IsQuota(r.answer) ==> HeldForQuota(first, r.answer)
      ensures r.Failed? ==> first in holds && holds[first].long == IsLong(r.failure) && HeldLast(r.failure)
    {
      if r.Failed? {
        HoldCredentialFailure(first, r.failure);
        return false;
      }
      var n := Await();
      if MayPeek(r.answer) && world.inspect(n) { return true; }
      if IsQuota(r.answer) { HoldQuota(first, r.answer); }
      return false;
    }

    lemma EmptyLog()
      ensures Tries([]) == Slept([]) == 0 && LastAnswer([]) == None && StopsAtFirstGood([]) && Since([]) == {}
    {
    }

    ghost method Conclude()
      requires Valid()
      ensures Tries(log) <= 9 * |members| && Sends(log) <= Cap() * (9 * |members|)
      ensures NoRepeat(log)
    {
      FreshTotals(log, members, Cap());
      FreshNoRepeat(log, members, Cap());
    }
  }
}
