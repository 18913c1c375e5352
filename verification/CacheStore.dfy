/** src/gateway/cache-store.ts: a write-through cache whose background refreshes overlap its writes. */
module CacheStore {
  import opened Streams

  datatype App = App(name: string, revoked: bool, detail: string)

  datatype Token = Token(app: string, hash: string, expiresAt: Option<string>)

  /** The database: tokens belong to listed apps (a foreign key). */
  datatype Store = Store(apps: map<string, App>, tokens: map<string, seq<Token>>) {
    predicate Ok() { tokens.Keys <= apps.Keys }

    function TokensFor(a: string): seq<Token> { if a in tokens then tokens[a] else [] }
  }

  datatype Write =
    | PutApp(app: App) | AddToken(rec: Token) | ExpireTokens(name: string, at: string) | RevokeApp(name: string)

  function ExpireOne(t: Token, at: string): Token {
    if t.expiresAt.None? then t.(expiresAt := Some(at)) else t
  }

  function Expire(ts: seq<Token>, at: string): seq<Token> {
    seq(|ts|, i requires 0 <= i < |ts| => ExpireOne(ts[i], at))
  }

  /** Expiring keeps the tokens, their order and every expiry there was; the others expire at `at`. */
  lemma ExpireKeeps(ts: seq<Token>, at: string, i: nat)
    requires i < |ts|
    ensures |Expire(ts, at)| == |ts|
    ensures var (before, after) := (ts[i], Expire(ts, at)[i]);
      && after.app == before.app && after.hash == before.hash && after.expiresAt.Some?
      && after.expiresAt.value == if before.expiresAt.Some? then before.expiresAt.value else at
  {
  }

  /** The database accepts the write. */
  predicate Accepts(s: Store, w: Write) { w.AddToken? ==> w.rec.app in s.apps }

  function Commit(s: Store, w: Write): Store
    requires Accepts(s, w)
  {
    match w
    case PutApp(app) => s.(apps := s.apps[app.name := app])
    case AddToken(rec) => s.(tokens := s.tokens[rec.app := s.TokensFor(rec.app) + [rec]])
    case ExpireTokens(name, at) =>
      if name in s.tokens then s.(tokens := s.tokens[name := Expire(s.tokens[name], at)]) else s
    case RevokeApp(name) => if name in s.apps then s.(apps := s.apps[name := s.apps[name].(revoked := true)]) else s
  }

  /** The write in flight: none, sent to the database, or done there but not yet in the cache. */
  datatype Phase = NoWrite | Sent(w: Write) | Committed(w: Write)

  /** A refresh under way: the version it saw, the app list once read, apps whose tokens are still to be read, tokens
      read. */
  datatype Refresh = Refresh(seen: nat, apps: Option<map<string, App>>, todo: set<string>,
                             tokens: map<string, seq<Token>>)

  ghost predicate SameSet(a: seq<Token>, b: seq<Token>) { forall t :: t in a <==> t in b }

  lemma ExpireSameSet(a: seq<Token>, b: seq<Token>, at: string)
    requires SameSet(a, b)
    ensures SameSet(Expire(a, at), Expire(b, at))
  {
    forall t ensures t in Expire(a, at) <==> t in Expire(b, at) {
      if t in Expire(a, at) {
        var i :| 0 <= i < |a| && t == ExpireOne(a[i], at);
        assert a[i] in b;
        var j :| 0 <= j < |b| && b[j] == a[i];
        assert Expire(b, at)[j] == t;
      }
      if t in Expire(b, at) {
        var i :| 0 <= i < |b| && t == ExpireOne(b[i], at);
        assert b[i] in a;
        var j :| 0 <= j < |a| && a[j] == b[i];
        assert Expire(a, at)[j] == t;
      }
    }
  }

  lemma ExpireTwice(a: seq<Token>, at: string)
    ensures Expire(Expire(a, at), at) == Expire(a, at)
  {
  }

  predicate WellFormed(r: Refresh) {
    if r.apps.Some? then r.apps.value.Keys == r.todo + r.tokens.Keys else r.tokens == map[]
  }

  // ---------- Lists, and not only sets ----------

  /** `c` is `l` with its entry `k` listed twice. */
  predicate Repeats(c: seq<Token>, l: seq<Token>, k: nat) { k < |l| && c == l[..k + 1] + l[k..] }

  /** A cached list against the database's, before and after the write in flight. */
  ghost predicate ListOk(c: seq<Token>, older: seq<Token>, newer: seq<Token>, doubled: bool) {
    if doubled then exists k :: Repeats(c, older, k) else c == older || c == newer
  }

  lemma ListSameSet(c: seq<Token>, l: seq<Token>, doubled: bool)
    requires ListOk(c, l, l, doubled)
    ensures SameSet(c, l)
  {
    if doubled {
      var k: nat :| Repeats(c, l, k);
      assert l == l[..k + 1] + l[k + 1..];
      assert l[k..] == [l[k]] + l[k + 1..];
    }
  }

  /** Every part of a view is as in `older` or as in `newer`, but for one token listed twice in the doubled apps. */
  ghost predicate Between(apps: map<string, App>, tokens: map<string, seq<Token>>, doubled: set<string>,
                          older: Store, newer: Store)
  {
    && (apps == older.apps || apps == newer.apps)
    && doubled <= tokens.Keys
    && (forall a :: a in tokens ==> ListOk(tokens[a], older.TokensFor(a), newer.TokensFor(a), a in doubled))
  }

  lemma RepeatLast(l: seq<Token>, t: Token)
    ensures Repeats(l + [t] + [t], l + [t], |l|)
  {
    var n := l + [t];
    assert n[..|l| + 1] == n && n[|l|..] == [t];
  }

  lemma RepeatsThen(c: seq<Token>, l: seq<Token>, k: nat, t: Token)
    requires Repeats(c, l, k)
    ensures Repeats(c + [t], l + [t], k)
  {
    assert (l + [t])[..k + 1] == l[..k + 1] && (l + [t])[k..] == l[k..] + [t];
  }

  lemma RepeatsExpired(c: seq<Token>, l: seq<Token>, k: nat, at: string)
    requires Repeats(c, l, k)
    ensures Repeats(Expire(c, at), Expire(l, at), k)
  {
  }

  /** The entry a write appends, expires or leaves alone: the cached list follows the database's. */
  lemma ListFollows(c: seq<Token>, older: seq<Token>, doubled: bool, at: string)
    requires ListOk(c, older, Expire(older, at), doubled)
    ensures ListOk(Expire(c, at), Expire(older, at), Expire(older, at), doubled)
  {
    if doubled {
      var k :| Repeats(c, older, k);
      RepeatsExpired(c, older, k, at);
    } else {
      ExpireTwice(older, at);
    }
  }

  /** A token resumes over a list that has it already, and is then listed twice, or over one that does not. */
  lemma ListGrows(c: seq<Token>, older: seq<Token>, doubled: bool, t: Token)
    requires ListOk(c, older, older + [t], doubled)
    ensures ListOk(c + [t], older + [t], older + [t], doubled || c == older + [t])
  {
    if doubled {
      var k :| Repeats(c, older, k);
      RepeatsThen(c, older, k, t);
    } else if c == older + [t] {
      RepeatLast(older, t);
    }
  }

  // ---------- The cache makes the same change as the database ----------

  lemma PutCatchesUp(apps: map<string, App>, tokens: map<string, seq<Token>>, doubled: set<string>, older: Store,
    app: App)
    requires older.Ok() && Between(apps, tokens, doubled, older, Commit(older, PutApp(app))) && apps.Keys <= tokens.Keys
    ensures var now := Commit(older, PutApp(app));
      Between(apps[app.name := app], if app.name in tokens then tokens else tokens[app.name := []], doubled, now, now)
  {
    hide ListOk;
    assert forall a :: older.TokensFor(a) == Commit(older, PutApp(app)).TokensFor(a);
    ListsAlike(tokens, doubled, older, Commit(older, PutApp(app)));
    if app.name !in tokens {
      assert app.name !in older.apps && app.name !in older.tokens;
      NothingListed();
    }
  }

  lemma NothingListed()
    ensures ListOk([], [], [], false)
  {
  }

  /** Where the write changes no list, every list is as it was. */
  lemma ListsAlike(tokens: map<string, seq<Token>>, doubled: set<string>, older: Store, newer: Store)
    requires forall a :: older.TokensFor(a) == newer.TokensFor(a)
    requires forall a :: a in tokens ==> ListOk(tokens[a], older.TokensFor(a), newer.TokensFor(a), a in doubled)
    ensures forall a :: a in tokens ==> ListOk(tokens[a], newer.TokensFor(a), newer.TokensFor(a), a in doubled)
  {
  }

  lemma RevokeCatchesUp(apps: map<string, App>, tokens: map<string, seq<Token>>, doubled: set<string>, older: Store,
    name: string)
    requires older.Ok() && Between(apps, tokens, doubled, older, Commit(older, RevokeApp(name)))
    ensures var now := Commit(older, RevokeApp(name));
      Between(if name in apps then apps[name := apps[name].(revoked := true)] else apps, tokens, doubled, now, now)
  {
    hide ListOk;
    assert forall a :: older.TokensFor(a) == Commit(older, RevokeApp(name)).TokensFor(a);
    ListsAlike(tokens, doubled, older, Commit(older, RevokeApp(name)));
  }

  lemma AddCatchesUp(apps: map<string, App>, tokens: map<string, seq<Token>>, doubled: set<string>, older: Store,
    rec: Token)
    requires older.Ok() && rec.app in older.apps && apps.Keys <= tokens.Keys
    requires Between(apps, tokens, doubled, older, Commit(older, AddToken(rec)))
    ensures rec.app in tokens
    ensures var now := Commit(older, AddToken(rec));
      Between(apps, tokens[rec.app := tokens[rec.app] + [rec]],
              doubled + (if tokens[rec.app] == now.TokensFor(rec.app) then {rec.app} else {}), now, now)
  {
    var now := Commit(older, AddToken(rec));
    ListGrows(tokens[rec.app], older.TokensFor(rec.app), rec.app in doubled, rec);
    assert forall a :: a != rec.app ==> older.TokensFor(a) == now.TokensFor(a);
    forall a | a in tokens && a != rec.app 
      ensures ListOk(tokens[a], now.TokensFor(a), now.TokensFor(a), a in doubled) {}
    hide ListOk;
  }

  lemma ExpireCatchesUp(apps: map<string, App>, tokens: map<string, seq<Token>>, doubled: set<string>, older: Store,
                        name: string, at: string)
    requires older.Ok() && apps.Keys <= tokens.Keys
    requires Between(apps, tokens, doubled, older, Commit(older, ExpireTokens(name, at)))
    ensures var now := Commit(older, ExpireTokens(name, at));
      Between(apps, tokens[name := if name in tokens then Expire(tokens[name], at) else []], doubled, now, now)
  {
    var now := Commit(older, ExpireTokens(name, at));
    assert Expire([], at) == [];
    assert now.TokensFor(name) == Expire(older.TokensFor(name), at);
    if name in tokens {
      ListFollows(tokens[name], older.TokensFor(name), name in doubled, at);
    } else {
      assert name !in older.apps && name !in older.tokens;
      NothingListed();
    }
    assert forall a :: a != name ==> older.TokensFor(a) == now.TokensFor(a);
    forall a | a in tokens && a != name ensures ListOk(tokens[a], now.TokensFor(a), now.TokensFor(a), a in doubled) {}
    hide ListOk, Expire;
  }

  class Cached {
    /** The database behind the cache. */
    var inner: Store
    var apps: map<string, App>
    var tokens: map<string, seq<Token>>
    var version: nat
    var loaded: bool
    var writing: Phase
    var refreshes: map<nat, Refresh>
    /** The database before the write in flight was done. */
    ghost var before: Store
    /** The apps for which, since the last install, a token resumed over a list that had it already. */
    ghost var doubled: set<string>

    ghost function Older(): Store
      reads this
    {
      if writing.Committed? then before else inner
    }

    ghost predicate Valid()
      reads this
    {
      && inner.Ok()
      && (writing.Committed? ==> before.Ok() && Accepts(before, writing.w) && inner == Commit(before, writing.w))
      && (!writing.NoWrite? ==> loaded)
      && (!loaded ==> version == 0)
      && (loaded ==> Between(apps, tokens, doubled, Older(), inner) && apps.Keys <= tokens.Keys)
      && (forall id :: id in refreshes ==> Current(refreshes[id]))
    }

    /** Exactly when a cached list is the database's: unless a token was doubled, which an install mends. */
    lemma SameListUnlessDoubled(a: string)
      requires Valid() && loaded && !writing.Committed? && a in apps
      ensures a in tokens && (tokens[a] == inner.TokensFor(a) <==> a !in doubled)
      ensures a in doubled ==> exists k :: Repeats(tokens[a], inner.TokensFor(a), k)
    {
      if a in doubled {
        var k :| Repeats(tokens[a], inner.TokensFor(a), k);
        assert |tokens[a]| == |inner.TokensFor(a)| + 1;
      }
    }

    /** A refresh no write has overtaken holds a view between the database before and after the write in flight. */
    ghost predicate Current(r: Refresh)
      reads this
    {
      && r.seen <= version
      && (r.seen == version && r.apps.Some? ==> Between(r.apps.value, r.tokens, {}, Older(), inner))
      && WellFormed(r)
    }

    /** Whenever no write is between database and cache, the cache is the database. */
    ghost predicate Coherent()
      reads this
    {
      apps == inner.apps && forall a :: a in apps ==> a in tokens && SameSet(tokens[a], inner.TokensFor(a))
    }

    lemma QuietIsCoherent()
      requires Valid() && loaded && !writing.Committed?
      ensures Coherent()
    {
      forall a | a in apps ensures SameSet(tokens[a], inner.TokensFor(a)) {
        ListSameSet(tokens[a], inner.TokensFor(a), a in doubled);
      }
    }

    constructor (inner: Store)
      requires inner.Ok()
      ensures Valid() && !loaded && this.inner == inner && refreshes == map[] && writing.NoWrite?
    {
      this.inner, before := inner, inner;
      apps, tokens, version, loaded, doubled := map[], map[], 0, false, {};
      writing, refreshes := NoWrite, map[];
    }

    /** A write starts. Writes are serialised, and none starts before the first load. */
    method Begin(w: Write)
      requires Valid() && loaded && writing.NoWrite?
      modifies `writing
      ensures Valid() && writing == Sent(w)
    {
      writing := Sent(w);
    }

    /** The database has done the write; the cache has not heard yet. */
    method InnerCommits()
      requires Valid() && writing.Sent? && Accepts(inner, writing.w)
      modifies `writing, `inner, `before
      ensures Valid() && writing == Committed(old(writing).w) && inner == Commit(old(inner), old(writing).w)
    {
      before := inner;
      inner := Commit(inner, writing.w);
      writing := Committed(writing.w);
      assert forall a :: before.TokensFor(a) == old(inner).TokensFor(a);
    }

    /** The database refused or failed: nothing happened anywhere. */
    method InnerFails()
      requires Valid() && writing.Sent?
      modifies `writing
      ensures Valid() && writing.NoWrite?
    {
      writing := NoWrite;
    }

    /** The writer resumes: version up, then the same change to the cache. */
    method Resume()
      requires Valid() && writing.Committed?
      modifies `writing, `version, `apps, `tokens, `doubled
      ensures Valid() && writing.NoWrite? && version == old(version) + 1
      ensures Coherent()
    {
      match writing.w {
        case PutApp(app) => ResumePut(app);
        case AddToken(rec) => ResumeAdd(rec);
        case ExpireTokens(name, at) => ResumeExpire(name, at);
        case RevokeApp(name) => ResumeRevoke(name);
      }
    }

    /** Every refresh began at version `v` or before. */
    ghost predicate Behind(v: nat)
      reads `refreshes
    {
      forall id :: id in refreshes ==> refreshes[id].seen <= v && WellFormed(refreshes[id])
    }

    /** What a writer finds when it resumes. */
    lemma Resuming()
      requires Valid() && writing.Committed?
      ensures loaded && inner.Ok() && before.Ok() && Accepts(before, writing.w) && inner == Commit(before, writing.w)
      ensures Between(apps, tokens, doubled, before, inner) && apps.Keys <= tokens.Keys && Behind(version)
    {
    }

    /** What each write leaves: a cache that agrees with the database everywhere. */
    lemma CaughtUpIsValid()
      requires inner.Ok() && writing.NoWrite? && loaded && version > 0 && Behind(version - 1)
      requires Between(apps, tokens, doubled, inner, inner) && apps.Keys <= tokens.Keys
      ensures Valid() && Coherent()
    {
      assert Valid();
      QuietIsCoherent();
    }

    method ResumePut(app: App)
      requires Valid() && writing == Committed(PutApp(app))
      modifies `writing, `version, `apps, `tokens
      ensures Valid() && writing.NoWrite? && version == old(version) + 1 && Coherent()
      ensures apps == old(apps)[app.name := app]
      ensures tokens == if app.name in old(tokens) then old(tokens) else old(tokens)[app.name := []]
    {
      Resuming();
      PutCatchesUp(apps, tokens, doubled, before, app);
      hide Cached.Valid, Between, Behind, Coherent;
      version := version + 1;
      apps := apps[app.name := app];
      if app.name !in tokens { tokens := tokens[app.name := []]; }
      writing := NoWrite;
      CaughtUpIsValid();
    }

    method ResumeAdd(rec: Token)
      requires Valid() && writing == Committed(AddToken(rec))
      modifies `writing, `version, `apps, `tokens, `doubled
      ensures Valid() && writing.NoWrite? && version == old(version) + 1 && Coherent()
      ensures apps == old(apps) && rec.app in old(tokens)
      ensures tokens == old(tokens)[rec.app := old(tokens)[rec.app] + [rec]]
      ensures doubled == old(doubled) + if old(tokens)[rec.app] == inner.TokensFor(rec.app) then {rec.app} else {}
    {
      Resuming();
      AddCatchesUp(apps, tokens, doubled, before, rec);
      hide Cached.Valid, Between, Behind, Coherent;
      version := version + 1;
      doubled := doubled + if tokens[rec.app] == inner.TokensFor(rec.app) then {rec.app} else {};
      tokens := tokens[rec.app := tokens[rec.app] + [rec]];
      writing := NoWrite;
      CaughtUpIsValid();
    }

    method ResumeExpire(name: string, at: string)
      requires Valid() && writing == Committed(ExpireTokens(name, at))
      modifies `writing, `version, `apps, `tokens
      ensures Valid() && writing.NoWrite? && version == old(version) + 1 && Coherent()
      ensures apps == old(apps)
      ensures tokens == old(tokens)[name := if name in old(tokens) then Expire(old(tokens)[name], at) else []]
    {
      Resuming();
      ExpireCatchesUp(apps, tokens, doubled, before, name, at);
      hide Cached.Valid, Between, Behind, Coherent;
      version := version + 1;
      var held := if name in tokens then tokens[name] else [];
      assert Expire([], at) == [];
      tokens := tokens[name := Expire(held, at)];
      writing := NoWrite;
      CaughtUpIsValid();
    }

    method ResumeRevoke(name: string)
      requires Valid() && writing == Committed(RevokeApp(name))
      modifies `writing, `version, `apps, `tokens
      ensures Valid() && writing.NoWrite? && version == old(version) + 1 && Coherent()
      ensures tokens == old(tokens)
      ensures apps == if name in old(apps) then old(apps)[name := old(apps)[name].(revoked := true)] else old(apps)
    {
      Resuming();
      RevokeCatchesUp(apps, tokens, doubled, before, name);
      hide Cached.Valid, Between, Behind, Coherent;
      version := version + 1;
      if name in apps { apps := apps[name := apps[name].(revoked := true)]; }
      writing := NoWrite;
      CaughtUpIsValid();
    }

    /** A refresh starts; any number may overlap. */
    method WarmStarts(id: nat)
      requires Valid() && id !in refreshes
      modifies `refreshes
      ensures Valid() && refreshes == old(refreshes)[id := Refresh(version, None, {}, map[])]
    {
      refreshes := refreshes[id := Refresh(version, None, {}, map[])];
    }

    method WarmReadsApps(id: nat)
      requires Valid() && id in refreshes && refreshes[id].apps.None?
      modifies `refreshes
      ensures Valid()
      ensures refreshes == old(refreshes)[id := old(refreshes)[id].(apps := Some(inner.apps), todo := inner.apps.Keys)]
    {
      var r := refreshes[id].(apps := Some(inner.apps), todo := inner.apps.Keys);
      assert Current(r);
      refreshes := refreshes[id := r];
    }

    /** The tokens of one listed app are read, each at its own moment. */
    method WarmReadsTokens(id: nat, a: string)
      requires Valid() && id in refreshes && a in refreshes[id].todo
      requires refreshes[id].apps.Some?
      modifies `refreshes
      ensures var r := old(refreshes)[id];
        Valid()
        && refreshes == old(refreshes)[id := r.(todo := r.todo - {a}, tokens := r.tokens[a := inner.TokensFor(a)])]
    {
      var r0 := refreshes[id];
      var r := r0.(todo := r0.todo - {a}, tokens := r0.tokens[a := inner.TokensFor(a)]);
      assert Current(r);
      refreshes := refreshes[id := r];
    }

    /** The refresh is complete: installed unless a write went through since it began. */
    method WarmInstalls(id: nat) returns (installed: bool)
      requires Valid() && id in refreshes && refreshes[id].apps.Some? && refreshes[id].todo == {}
      modifies `apps, `tokens, `loaded, `refreshes, `doubled
      ensures Valid() && loaded && refreshes == old(refreshes) - {id}
      ensures installed == (old(refreshes)[id].seen == version)
      ensures installed ==> apps == old(refreshes)[id].apps.value && tokens == old(refreshes)[id].tokens
      ensures !installed ==> apps == old(apps) && tokens == old(tokens)
      ensures !writing.Committed? ==> Coherent()
      ensures doubled == if installed || !old(loaded) then {} else old(doubled)
    {
      var r := refreshes[id];
      refreshes := refreshes - {id};
      if version != r.seen && loaded { return false; }
      apps, tokens, loaded, doubled := r.apps.value, r.tokens, true, {};
      return true;
    }

    /** The database could not be read: the cache stays. */
    method WarmFails(id: nat)
      requires Valid() && id in refreshes
      modifies `refreshes
      ensures Valid() && refreshes == old(refreshes) - {id}
    {
      refreshes := refreshes - {id};
    }

    method GetApp(name: string) returns (r: Option<App>)
      requires Valid() && loaded
      ensures !writing.Committed? ==> r == if name in inner.apps then Some(inner.apps[name]) else None
    {
      return if name in apps then Some(apps[name]) else None;
    }

    method TokensOf(name: string) returns (r: seq<Token>)
      requires Valid() && loaded
      ensures !writing.Committed? ==> SameSet(r, inner.TokensFor(name))
      ensures !writing.Committed? ==> (r == inner.TokensFor(name) <==> name !in doubled)
    {
      return if name in tokens then tokens[name] else [];
    }
  }

  /** The first load of a database with one app and no tokens. */
  method FirstLoad(inner: Store, app: string) returns (c: Cached)
    requires inner.Ok() && inner.tokens == map[] && inner.apps.Keys == {app}
    ensures fresh(c) && c.Valid() && c.loaded && c.writing.NoWrite? && c.refreshes == map[] && c.inner == inner
  {
    hide Between, SameSet, Cached.Valid, Cached.Coherent;
    c := new Cached(inner);
    c.WarmStarts(0);
    c.WarmReadsApps(0);
    c.WarmReadsTokens(0, app);
    var _ := c.WarmInstalls(0);
  }

  /** Why token lists agree as sets only: a refresh between the database and the cache lists a new token twice. */
  method DuplicateListing(inner: Store, rec: Token) returns (listed: seq<Token>, kept: seq<Token>)
    requires inner.Ok() && rec.app in inner.apps && inner.tokens == map[] && inner.apps.Keys == {rec.app}
    ensures listed == [rec, rec] && kept == [rec]
  {
    hide Between, SameSet, Cached.Valid, Cached.Coherent;
    var c := FirstLoad(inner, rec.app);
    c.Begin(AddToken(rec));
    c.WarmStarts(1);
    c.InnerCommits();
    c.WarmReadsApps(1);
    c.WarmReadsTokens(1, rec.app);
    var _ := c.WarmInstalls(1);
    assert c.tokens[rec.app] == [rec];
    c.ResumeAdd(rec);
    listed, kept := c.tokens[rec.app], c.inner.TokensFor(rec.app);
  }
}
