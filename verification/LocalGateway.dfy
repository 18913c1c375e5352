/** src/gateway/local.ts: the breaker shared by all requests, and when a request may be sent again. */
module LocalGateway {
  import opened Streams

  datatype Mode = Remote | Direct

  /** How an attempt at the cluster gateway ends. Only a RemoteFailure proves the request was not served. */
  datatype Outcome = Answered | RemoteFailure | RemoteIdle | RemoteOther | ClientGone

  /** What became of a request at the cluster gateway. */
  datatype RemoteUse = Unsent | InFlight(isProbe: bool) | Ended(outcome: Outcome)

  /** A request: whether its body can be sent again, its use of the cluster gateway, whether it may go to the logins,
      and its turns there. */
  datatype Request = Request(replayable: bool, remote: RemoteUse, direct: bool, turns: seq<Turn>)

  class Gateway {
    const remoteKnown: bool
    const breakerMs: nat

    var mode: Mode
    var since: int
    var probeAt: int
    var probing: bool
    /** Every request so far, by arrival number. */
    var requests: map<nat, Request>

    /** The latest clock reading, and when the last probe ended in a RemoteFailure. */
    ghost var clock: int
    ghost var lastProbeFailure: Option<int>

    ghost predicate IsProbe(id: nat)
      reads this
    {
      id in requests && requests[id].remote == InFlight(true)
    }

    ghost predicate Valid()
      reads this
    {
      // Probes in flight: one while `probing`, else none.
      && (probing <==> exists id :: IsProbe(id))
      && (forall a, b :: IsProbe(a) && IsProbe(b) ==> a == b)
      && (probing ==> mode == Direct)
      && (!remoteKnown ==> mode == Direct && forall id :: id in requests ==> requests[id].remote == Unsent)
      && (lastProbeFailure.Some? ==> lastProbeFailure.value <= clock && probeAt >= lastProbeFailure.value + breakerMs)
      && (forall id :: id in requests ==> Replays(requests[id]))
    }

    /** A request goes to a login only if it was never sent to the cluster gateway, or can be sent again and surely was
        not served; a streamed body is sent at most once in all, any body at most twice per member. */
    ghost predicate Replays(r: Request) {
      && (r.direct ==> r.remote == Unsent || (r.remote == Ended(RemoteFailure) && r.replayable))
      && (r.direct && !r.replayable ==> !remoteKnown)
      && (r.turns != [] ==> r.direct)
      && (!r.replayable ==> RemoteSends(r) + TotalSends(r.turns) <= 1)
      && (forall k :: 0 <= k < |r.turns| ==> r.turns[k].sends <= 2)
    }

    constructor (remoteKnown: bool, breakerMs: nat, now: int)
      ensures Valid() && mode == (if remoteKnown then Remote else Direct) && !probing && requests == map[]
      ensures since == now && probeAt == 0
      ensures this.remoteKnown == remoteKnown && this.breakerMs == breakerMs && clock == now && lastProbeFailure == None
    {
      this.remoteKnown, this.breakerMs := remoteKnown, breakerMs;
      mode := if remoteKnown then Remote else Direct;
      since, probeAt, probing := now, 0, false;
      requests, clock, lastProbeFailure := map[], now, None;
    }

    method SetMode(next: Mode, now: int)
      modifies `mode, `since
      ensures mode == next && since == if old(mode) == next then old(since) else now
    {
      if mode == next { return; }
      mode := next;
      since := now;
    }

    /** A request arrives, body read: to the cluster gateway, as the one probe, or straight to a login. */
    method Arrive(id: nat, replayable: bool, now: int) returns (useRemote: bool, isProbe: bool)
      requires Valid() && id !in requests && now >= clock
      modifies `probing, `requests, `clock
      ensures Valid() && clock == now
      ensures isProbe <==> remoteKnown && old(mode) == Direct && replayable && now >= probeAt && !old(probing)
      ensures useRemote <==> isProbe || (remoteKnown && (old(mode) == Remote || !replayable))
      ensures probing == (old(probing) || isProbe)
      ensures isProbe && lastProbeFailure.Some? ==> now >= lastProbeFailure.value + breakerMs
      ensures requests ==
        old(requests)[id := Request(replayable, if useRemote then InFlight(isProbe) else Unsent, !useRemote, [])]
    {
      clock := now;
      isProbe := false;
      useRemote := remoteKnown && (mode == Remote || !replayable);
      if !useRemote && remoteKnown && now >= probeAt && !probing {
        probing, isProbe, useRemote := true, true, true;
      }
      requests := requests[id := Request(replayable, if useRemote then InFlight(isProbe) else Unsent, !useRemote, [])];
      assert !old(IsProbe(id)) && (isProbe <==> IsProbe(id));
      assert forall k :: k != id ==> (IsProbe(k) <==> old(IsProbe(k)));
    }

    /** The attempt at the cluster gateway ends, in whatever order attempts end. */
    method RemoteEnds(id: nat, outcome: Outcome, now: int)
      requires Valid() && id in requests && requests[id].remote.InFlight? && now >= clock
      modifies this
      ensures Valid() && clock == now
      ensures var wasProbe := old(requests)[id].remote.isProbe;
        && probing == (old(probing) && !wasProbe)
        && mode == (if outcome == Answered && wasProbe then Remote
                    else if outcome == RemoteFailure then Direct
                    else old(mode))
        && probeAt == (if outcome == RemoteFailure && (wasProbe || old(mode) == Remote) then now + breakerMs
                       else old(probeAt))
        && lastProbeFailure == (if outcome == RemoteFailure && wasProbe then Some(now) else old(lastProbeFailure))
      // Only a probe's answer closes the breaker; while it is open nothing else moves it.
      ensures old(mode) == Direct && mode == Remote ==> outcome == Answered && old(requests)[id].remote.isProbe
      ensures old(mode) == Direct && !old(requests)[id].remote.isProbe ==>
        mode == Direct && probeAt == old(probeAt) && since == old(since)
      ensures requests == old(requests)[id := old(requests)[id].(remote := Ended(outcome),
        direct := outcome == RemoteFailure && old(requests)[id].replayable)]
    {
      hide TotalSends;
      var r := requests[id];
      var isProbe := r.remote.isProbe;
      clock := now;
      if outcome == Answered {
        RemoteOk(isProbe, now);
      } else {
        if isProbe { probing := false; }
        if outcome == RemoteFailure {
          RemoteFailed(isProbe, now);
          if isProbe { lastProbeFailure := Some(now); }
        }
      }
      requests := requests[id := r.(remote := Ended(outcome), direct := outcome == RemoteFailure && r.replayable)];
      assert isProbe <==> old(IsProbe(id));
      assert forall k :: k != id ==> (IsProbe(k) <==> old(IsProbe(k)));
    }

    /** A request that may go to the logins does. */
    method ServeDirect(id: nat, names: seq<string>, world: World, refreshable: bool) returns (reply: Reply)
      requires Valid() && id in requests && requests[id].direct && requests[id].turns == []
      modifies `requests
      ensures Valid() && id in requests
      ensures requests == old(requests)[id := old(requests)[id].(turns := requests[id].turns)]
      ensures Fair(names, requests[id].replayable, reply, requests[id].turns)
      ensures world.Honest(names, requests[id].turns, reply.Gone?, requests[id].replayable, refreshable)
      ensures reply.SignedOut? ==> exists k :: 0 <= k < |names| && world.SignedOut(names[k])
      ensures world.AllWell() && names != [] ==> reply.Relay?
    {
      hide IsQuota, TotalSends, World.Honest, World.AllWell, World.SignedOut, Decides, NoneGot, TurnsOk, SomeoneOut;
      var r := requests[id];
      var d := new Direct(world, r.replayable, refreshable);
      var rs;
      reply, rs := d.Serve(names);
      requests := requests[id := r.(turns := rs)];
      assert forall k :: IsProbe(k) <==> old(IsProbe(k));
    }

    method RemoteFailed(isProbe: bool, now: int)
      modifies `probing, `probeAt, `mode, `since
      ensures probing == (old(probing) && !isProbe)
      ensures !isProbe && old(mode) == Direct ==> mode == Direct && probeAt == old(probeAt) && since == old(since)
      ensures isProbe || old(mode) == Remote ==> mode == Direct && probeAt == now + breakerMs
    {
      if isProbe {
        probing := false;
      } else if mode == Direct {
        return;
      }
      probeAt := now + breakerMs;
      SetMode(Direct, now);
    }

    method RemoteOk(isProbe: bool, now: int)
      modifies `probing, `mode, `since
      ensures !isProbe ==> probing == old(probing) && mode == old(mode) && since == old(since)
      ensures isProbe ==> !probing && mode == Remote
    {
      if !isProbe { return; }
      probing := false;
      SetMode(Remote, now);
    }
  }

  // ---------- The direct path: one member after another ----------

  datatype Answer = Answer(status: nat, unusable: bool)

  /** 429 and 402 are quota; 403, 400 and 404 only when the body says the login cannot serve this. */
  predicate IsQuota(a: Answer) { a.status == 429 || a.status == 402 || (MayPeek(a) && a.unusable) }

  /** Whose body is looked at. */
  predicate MayPeek(a: Answer) { a.status == 403 || a.status == 400 || a.status == 404 }

  datatype Failure = LoggedOut | Transient | Cooldown | Network

  predicate IsCredentialError(f: Failure) { f.LoggedOut? || f.Transient? }

  /** `Unread`: an answer whose body could not be looked at. */
  datatype Attempt = Got(answer: Answer) | Failed(failure: Failure) | Unread(answer: Answer)

  /** Answers of the world, numbered in the order they are asked for. */
  datatype World = World(
    credential: (nat, string) -> Option<Failure>,
    expired: (nat, string) -> bool,
    refresh: (nat, string) -> Option<Failure>,
    fetch: nat -> Option<Answer>,
    inspect: nat -> bool,
    aborted: nat -> bool)
  {
    /** The turn began with a credential known to be stale. */
    ghost predicate Stale(name: string, at: nat, refreshable: bool) { refreshable && expired(at + 1, name) }

    /** The login may be used: it has a credential, and a stale one was not found signed out. */
    ghost predicate Usable(name: string, at: nat, refreshable: bool) {
      && credential(at, name) == None
      && (Stale(name, at, refreshable) ==> refresh(at + 2, name) != Some(LoggedOut))
    }

    /** The step of the first send. */
    ghost function Send(name: string, at: nat, refreshable: bool): nat {
      at + if Stale(name, at, refreshable) then 3 else 2
    }

    /** The first send was answered 401, which a refresh and a second send may mend. */
    ghost predicate Asks(name: string, at: nat, replayable: bool, refreshable: bool) {
      && replayable && refreshable && Usable(name, at, refreshable)
      && var a := fetch(Send(name, at, refreshable));
      a.Some? && a.value.status == 401
    }

    ghost predicate Retried(name: string, at: nat, replayable: bool, refreshable: bool) {
      Asks(name, at, replayable, refreshable) && refresh(Send(name, at, refreshable) + 1, name) == None
    }

    /** Why a login answered so: the last send's answer. A second send follows a 401 and a refresh; a 401 stands only
        where no refresh is to be had or none helps, or after it. */
    ghost predicate AnsweredBy(turn: Turn, replayable: bool, refreshable: bool, a: Answer) {
      var n := Send(turn.name, turn.at, refreshable);
      if turn.sends == 2 then
        Retried(turn.name, turn.at, replayable, refreshable) && fetch(n + 2) == Some(a) && turn.over == n + 3
      else
        && turn.sends == 1 && Usable(turn.name, turn.at, refreshable) && fetch(n) == Some(a)
        && if Asks(turn.name, turn.at, replayable, refreshable) then
             refresh(n + 1, turn.name) == Some(Cooldown) && turn.over == n + 2
           else turn.over == n + 1
    }

    /** Why a turn failed: no credential, a stale one found signed out, a send that failed, or a refresh after a 401
        that failed. */
    ghost predicate FailedFor(turn: Turn, replayable: bool, refreshable: bool, f: Failure) {
      var n := Send(turn.name, turn.at, refreshable);
      match turn.sends
      case 0 =>
        || (credential(turn.at, turn.name) == Some(f) && turn.over == turn.at + 1)
        || (credential(turn.at, turn.name) == None && Stale(turn.name, turn.at, refreshable)
            && refresh(turn.at + 2, turn.name) == Some(LoggedOut) && f == LoggedOut && turn.over == turn.at + 3)
      case 1 =>
        || (Usable(turn.name, turn.at, refreshable) && fetch(n) == None && f == Network && turn.over == n + 1)
        || (Asks(turn.name, turn.at, replayable, refreshable) && refresh(n + 1, turn.name) == Some(f) && f != Cooldown
            && turn.over == n + 2)
      case 2 =>
        Retried(turn.name, turn.at, replayable, refreshable) && fetch(n + 2) == None && f == Network
        && turn.over == n + 3
      case _ => false
    }

    /** The turn ended as the world had it. */
    ghost predicate Genuine(turn: Turn, replayable: bool, refreshable: bool) {
      match turn.end
      case Failed(f) => FailedFor(turn, replayable, refreshable, f)
      case Got(a) =>
        AnsweredBy(turn, replayable, refreshable, a) && !(replayable && MayPeek(a) && inspect(turn.over))
      case Unread(a) =>
        AnsweredBy(turn, replayable, refreshable, a) && replayable && MayPeek(a) && inspect(turn.over)
    }

    /** The members had their turns in order, each as the world had it; a client that is gone is noticed at once by a
        turn without an answer to relay, and not otherwise. */
    ghost predicate Honest(names: seq<string>, rs: seq<Turn>, gone: bool, replayable: bool, refreshable: bool) {
      && |rs| <= |names|
      && (forall k :: 0 <= k < |rs| ==> rs[k].name == names[k] && Genuine(rs[k], replayable, refreshable))
      && (forall k :: 0 < k < |rs| ==> rs[k].at > rs[k - 1].over)
      && (forall k :: 0 <= k < |rs| && !rs[k].end.Got? ==> (aborted(rs[k].over) <==> gone && k == |rs| - 1))
    }

    /** The member's credential, or a refresh of it, answered that it is signed out. */
    ghost predicate SignedOut(name: string) {
      exists n: nat :: credential(n, name) == Some(LoggedOut) || refresh(n, name) == Some(LoggedOut)
    }

    /** No credential, refresh or send fails, nobody leaves, and every body can be read. */
    ghost predicate AllWell() {
      && (forall n, k :: credential(n, k) == None)
      && (forall n, k :: refresh(n, k) == None)
      && (forall n :: fetch(n).Some?)
      && (forall n :: !aborted(n))
      && (forall n :: !inspect(n))
    }

    lemma HonestSnoc(names: seq<string>, rs: seq<Turn>, turn: Turn, gone: bool, replayable: bool, refreshable: bool)
      requires Honest(names, rs, false, replayable, refreshable) && |rs| < |names| && turn.name == names[|rs|]
      requires Genuine(turn, replayable, refreshable) && (rs != [] ==> turn.at > rs[|rs| - 1].over)
      requires !turn.end.Got? ==> (gone <==> aborted(turn.over))
      ensures Honest(names, rs + [turn], gone, replayable, refreshable)
    {
      hide Genuine;
    }

    /** A turn that ends signed out is of a login that is. */
    lemma SignedOutFor(turn: Turn, replayable: bool, refreshable: bool)
      requires Genuine(turn, replayable, refreshable) && turn.end == Failed(LoggedOut)
      ensures SignedOut(turn.name)
    {
    }

    lemma WellIsAnswered(turn: Turn, replayable: bool, refreshable: bool)
      requires Genuine(turn, replayable, refreshable) && AllWell()
      ensures turn.end.Got?
    {
    }
  }

  datatype Reply = Relay(answer: Answer) | Gone | NoLogin | SignedOut | Failing

  /** One member's turn: the member, the step it began at, how it ended, how often the request was sent to that login,
      and the step by which it was over. */
  datatype Turn = Turn(name: string, at: nat, end: Attempt, sends: nat, over: nat)

  function TotalSends(rs: seq<Turn>): nat {
    if rs == [] then 0 else TotalSends(rs[..|rs| - 1]) + rs[|rs| - 1].sends
  }

  class Direct {
    const world: World
    const replayable: bool
    const refreshable: bool
    var t: nat

    constructor (world: World, replayable: bool, refreshable: bool)
      ensures this.world == world && this.replayable == replayable && this.refreshable == refreshable
    {
      this.world, this.replayable, this.refreshable, t := world, replayable, refreshable, 0;
    }

    method Step() returns (n: nat)
      modifies this
      ensures n == old(t) && t == n + 1
    {
      n := t;
      t := t + 1;
    }

    /** One member: a stale credential is refreshed first, a 401 refreshed and resent once; a streamed body is never
        resent. */
    method Try(name: string) returns (r: Attempt, sends: nat)
      modifies this
      ensures !r.Unread? && sends <= if replayable then 2 else 1
      ensures !replayable && r.Failed? && IsCredentialError(r.failure) ==> sends == 0
      ensures var turn := Turn(name, old(t), r, sends, t);
              match r
              case Failed(f) => world.FailedFor(turn, replayable, refreshable, f)
              case Got(a) => world.AnsweredBy(turn, replayable, refreshable, a)
              case Unread(_) => false
    {
      var n := Step();
      var err := world.credential(n, name);
      if err.Some? { return Failed(err.value), 0; }
      n := Step();
      if world.expired(n, name) && refreshable {
        n := Step();
        err := world.refresh(n, name);
        // Any other refresh error: the old token may still work.
        if err == Some(LoggedOut) { return Failed(LoggedOut), 0; }
      }
      n := Step();
      var a := world.fetch(n);
      if a.None? { return Failed(Network), 1; }
      if a.value.status != 401 || !refreshable || !replayable { return Got(a.value), 1; }
      n := Step();
      err := world.refresh(n, name);
      if err == Some(Cooldown) { return Got(a.value), 1; }
      if err.Some? { return Failed(err.value), 1; }
      n := Step();
      a := world.fetch(n);
      return if a.Some? then Got(a.value) else Failed(Network), 2;
    }

    /** One member's turn; `stop` is the reply when it ends the request. */
    method TakeTurn(name: string) returns (turn: Turn, stop: Option<Reply>)
      modifies this
      ensures turn.name == name && turn.at == old(t) && turn.sends <= if replayable then 2 else 1
      ensures world.Genuine(turn, replayable, refreshable)
      ensures stop.None? ==> t > turn.over
      ensures Stops(turn, stop, replayable)
      // Which answers and failures hand the request on.
      ensures replayable && turn.end.Got? ==>
        var a := turn.end.answer;
        (stop.None? <==> a.status == 429 || a.status == 402
                         || (a.unusable && (a.status == 403 || a.status == 400 || a.status == 404)))
      ensures turn.end.Failed? && !world.aborted(turn.over) ==>
        (stop.None? <==> turn.end.failure.LoggedOut? || turn.end.failure.Transient?)
      ensures !turn.end.Got? ==> (stop == Some(Gone) <==> world.aborted(turn.over))
    {
      hide World.FailedFor, World.Asks, World.Usable, World.Send, World.Retried;
      var at := t;
      var r, sends := Try(name);
      turn := Turn(name, at, r, sends, t);
      if r.Failed? {
        var n := Step();
        var gone := world.aborted(n);
        return turn, if gone then Some(Gone) else if IsCredentialError(r.failure) then None else Some(Failing);
      }
      if !replayable { return turn, Some(Relay(r.answer)); }
      var m := Step();
      if MayPeek(r.answer) && world.inspect(m) {
        return turn.(end := Unread(r.answer)), Some(if world.aborted(m) then Gone else Failing);
      }
      return turn, if IsQuota(r.answer) then None else Some(Relay(r.answer));
    }

    /** The request at each member in turn; `rs` holds the turns taken. */
    method Serve(names: seq<string>) returns (reply: Reply, rs: seq<Turn>)
      modifies this
      ensures Fair(names, replayable, reply, rs)
      ensures world.Honest(names, rs, reply.Gone?, replayable, refreshable)
      // Signed out only when some member's login is; in a world in which all is well, an answer is relayed.
      ensures reply.SignedOut? ==> exists k :: 0 <= k < |names| && world.SignedOut(names[k])
      ensures world.AllWell() && names != [] ==> reply.Relay?
    {
      hide IsQuota, Fair, TotalSends, Stops, World.Honest, World.Genuine, World.AllWell, World.SignedOut;
      rs := [];
      NobodyAsked(replayable, world, names, refreshable);
      if names == [] { return NoLogin, rs; }
      var lastQuota: Option<Answer> := None;
      var dead := false;
      ghost var lastAt := -1;
      for i := 0 to |names|
        invariant |rs| == i && Going(rs, replayable) && world.Honest(names, rs, false, replayable, refreshable)
        invariant rs != [] ==> t > rs[|rs| - 1].over
        invariant lastQuota.None? ==> NoneGot(rs)
        invariant lastQuota.Some? ==>
          Decides(rs, lastAt) && rs[lastAt].end == Got(lastQuota.value) && IsQuota(lastQuota.value)
        invariant dead <==> SomeoneOut(rs)
      {
        var turn, stop := TakeTurn(names[i]);
        world.HonestSnoc(names, rs, turn, stop == Some(Gone), replayable, refreshable);
        if stop.Some? {
          StopIsFair(names, replayable, rs, turn, stop.value);
          Causes(world, names, rs + [turn], stop.value, replayable, refreshable);
          return stop.value, rs + [turn];
        }
        GoesOn(replayable, rs, turn);
        rs := rs + [turn];
        if turn.end.Failed? {
          if turn.end.failure.LoggedOut? { dead := true; }
        } else {
          lastQuota := Some(turn.end.answer);
          lastAt := i;
        }
      }
      reply := if lastQuota.Some? then Relay(lastQuota.value) else if dead then SignedOut else Failing;
      EndIsFair(names, replayable, rs, reply, lastAt);
      Causes(world, names, rs, reply, replayable, refreshable);
    }
  }

  /** Turns after which the next member is asked. */
  ghost predicate Going(rs: seq<Turn>, replayable: bool) {
    && TurnsOk(rs)
    && (!replayable ==> TotalSends(rs) == 0 && NoneGot(rs))
    && (forall k :: 0 <= k < |rs| && rs[k].end.Got? ==> IsQuota(rs[k].end.answer))
  }

  lemma NobodyAsked(replayable: bool, world: World, names: seq<string>, refreshable: bool)
    ensures Going([], replayable) && Fair([], replayable, NoLogin, [])
    ensures world.Honest(names, [], false, replayable, refreshable)
  {
  }

  lemma GoesOn(replayable: bool, rs: seq<Turn>, turn: Turn)
    requires Going(rs, replayable) && Stops(turn, None, replayable) && turn.sends <= 2
    ensures Going(rs + [turn], replayable)
    ensures !turn.end.Unread? && (turn.end.Got? ==> Decides(rs + [turn], |rs|) && IsQuota(turn.end.answer))
    ensures SomeoneOut(rs + [turn]) <==> SomeoneOut(rs) || turn.end == Failed(LoggedOut)
    ensures forall k :: Decides(rs, k) && turn.end.Failed? ==> Decides(rs + [turn], k)
  {
    hide IsQuota;
    var all := rs + [turn];
    assert all[..|rs|] == rs && all[|rs|] == turn;
    if k :| 0 <= k < |rs| && rs[k].end == Failed(LoggedOut) { assert all[k].end == Failed(LoggedOut); }
  }

  /** What the reply says about the world. */
  lemma Causes(world: World, names: seq<string>, rs: seq<Turn>, reply: Reply, replayable: bool, refreshable: bool)
    requires names != [] && Fair(names, replayable, reply, rs)
    requires world.Honest(names, rs, reply.Gone?, replayable, refreshable)
    ensures reply.SignedOut? ==> exists k :: 0 <= k < |names| && world.SignedOut(names[k])
    ensures world.AllWell() ==> reply.Relay?
  {
    hide World.Genuine, World.SignedOut, IsQuota, TotalSends;
    if reply.SignedOut? {
      var k :| 0 <= k < |rs| && rs[k].end == Failed(LoggedOut);
      world.SignedOutFor(rs[k], replayable, refreshable);
    }
    if world.AllWell() {
      forall k | 0 <= k < |rs| ensures rs[k].end.Got? {
        world.WellIsAnswered(rs[k], replayable, refreshable);
      }
    }
  }

  /** Some member is signed out. */
  ghost predicate SomeoneOut(rs: seq<Turn>) { exists k :: 0 <= k < |rs| && rs[k].end == Failed(LoggedOut) }

  lemma StopIsFair(names: seq<string>, replayable: bool, rs: seq<Turn>, turn: Turn, reply: Reply)
    requires Going(rs, replayable) && |rs| < |names|
    requires Stops(turn, Some(reply), replayable) && turn.sends <= if replayable then 2 else 1
    ensures Fair(names, replayable, reply, rs + [turn])
    ensures !reply.Relay? ==> !TurnsOk(rs + [turn]) || reply.Gone?
  {
    hide IsQuota;
    var all := rs + [turn];
    assert all[..|rs|] == rs && all[|rs|] == turn;
    if reply.Relay? { assert Decides(all, |rs|); }
  }

  lemma EndIsFair(names: seq<string>, replayable: bool, rs: seq<Turn>, reply: Reply, last: int)
    requires Going(rs, replayable) && |rs| == |names| > 0
    requires match reply
             case Relay(a) => Decides(rs, last) && rs[last].end == Got(a)
             case SignedOut => NoneGot(rs) && SomeoneOut(rs)
             case Failing => NoneGot(rs) && !SomeoneOut(rs)
             case _ => false
    ensures Fair(names, replayable, reply, rs)
  {
    hide IsQuota;
  }

  /** When a turn ends the request, and how; otherwise the next member gets it. */
  ghost predicate Stops(turn: Turn, stop: Option<Reply>, replayable: bool) {
    && (turn.end.Unread? ==> replayable && MayPeek(turn.end.answer) && stop.Some?)
    && match stop
       case None =>
         if turn.end.Failed? then IsCredentialError(turn.end.failure) && (!replayable ==> turn.sends == 0)
         else replayable && turn.end.Got? && IsQuota(turn.end.answer)
       case Some(Relay(a)) => turn.end == Got(a) && (replayable ==> !IsQuota(a))
       case Some(Gone) => !turn.end.Got?
       case Some(Failing) => turn.end.Unread? || (turn.end.Failed? && !IsCredentialError(turn.end.failure))
       case Some(_) => false
  }

  /** Member k's answer is the last one; every earlier answer was a quota answer. */
  ghost predicate Decides(rs: seq<Turn>, k: int) {
    && 0 <= k < |rs| && rs[k].end.Got?
    && (forall j :: k < j < |rs| ==> rs[j].end.Failed?)
    && (forall j :: 0 <= j < k && rs[j].end.Got? ==> IsQuota(rs[j].end.answer))
  }

  /** What the turns taken at the members `names` come to. */
  ghost predicate Fair(names: seq<string>, replayable: bool, reply: Reply, rs: seq<Turn>) {
    && |rs| <= |names|
    // Sends: at most two per member, and a streamed body at most once in all.
    && (forall k :: 0 <= k < |rs| ==> rs[k].sends <= 2)
    && (!replayable ==> TotalSends(rs) <= 1)
    // The reply: the first answer that is no quota answer (any answer to a streamed body), else the last quota answer.
    && (reply.Relay? ==> exists k :: Decides(rs, k) && rs[k].end == Got(reply.answer))
    && (reply.Relay? && replayable && IsQuota(reply.answer) ==> |rs| == |names|)
    // No answer at all: a login that is signed out wins over a passing failure.
    && (reply.SignedOut? ==> NoneGot(rs) && |rs| == |names| && SomeoneOut(rs))
    && (reply.Failing? ==>
          if TurnsOk(rs) then |rs| == |names| && forall k :: 0 <= k < |rs| ==> rs[k].end == Failed(Transient)
          else !TurnsOk([rs[|rs| - 1]]) && TurnsOk(rs[..|rs| - 1]))
    && (reply.NoLogin? <==> names == [])
    // A client that is gone is noticed when a turn gave no answer to relay.
    && (reply.Gone? ==> rs != [] && !rs[|rs| - 1].end.Got? && TurnsOk(rs[..|rs| - 1]))
    // An answer that may be a quota answer, but whose body cannot be read, ends the request.
    && (forall k :: 0 <= k < |rs| && rs[k].end.Unread? ==>
         k == |rs| - 1 && replayable && MayPeek(rs[k].end.answer) && (reply.Failing? || reply.Gone?))
  }

  ghost predicate NoneGot(rs: seq<Turn>) { forall k :: 0 <= k < |rs| ==> rs[k].end.Failed? }

  /** Turns that let the loop go on: answers, and credential errors. */
  ghost predicate TurnsOk(rs: seq<Turn>) {
    forall k :: 0 <= k < |rs| ==>
      && rs[k].sends <= 2 && !rs[k].end.Unread?
      && (rs[k].end.Failed? ==> IsCredentialError(rs[k].end.failure))
  }

  /** How often a request was sent to the cluster gateway. */
  function RemoteSends(r: Request): nat { if r.remote == Unsent then 0 else 1 }
}
