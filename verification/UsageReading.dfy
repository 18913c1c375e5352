/** What the counts and the model name are, said of the members of the JSON objects a response carries. */
module UsageReading {
  import opened Streams
  import opened UsageSpec
  import opened UsageMeaning

  // ---------- Members ----------

  /** `o` has the object `v` under `key`. */
  predicate HasObject(o: Json, key: string, v: Json) { o.Obj? && key in o.members && o.members[key] == v && v.Obj? }

  predicate HasNoObject(o: Json, key: string) { o.Obj? && (key in o.members ==> !o.members[key].Obj?) }

  /** `o` has under `key` a number whose whole part is `n`. */
  predicate HasCount(o: Json, key: string, n: nat) {
    && o.Obj? && key in o.members && o.members[key].Num? && o.members[key].num.Finite?
    && var x := o.members[key].num.value;
      n as real <= x < (n + 1) as real
  }

  /** What `o` has under `key` is no count: missing, no number, negative, or not finite. */
  predicate HasNoCount(o: Json, key: string) {
    && o.Obj?
    && (key in o.members && o.members[key].Num? ==> o.members[key].num.NonFinite? || o.members[key].num.value < 0.0)
  }

  predicate HasCountOrZero(o: Json, key: string, n: nat) { if HasNoCount(o, key) then n == 0 else HasCount(o, key, n) }

  /** `o` has the non-empty string `name` under `key`. */
  predicate HasName(o: Json, key: string, name: string) {
    o.Obj? && key in o.members && o.members[key] == Json.Str(name) && name != ""
  }

  predicate HasNoName(o: Json, key: string) {
    o.Obj? && (key in o.members && o.members[key].Str? ==> o.members[key].text == "")
  }

  /** `v` is the object `o` has under `key`, or `o` itself when it has none there. */
  predicate Inside(o: Json, key: string, v: Json) { if HasNoObject(o, key) then v == o else HasObject(o, key, v) }

  lemma CountIsRead(o: Json, key: string)
    requires o.Obj?
    ensures forall n: nat :: HasCount(o, key, n) <==> Whole(Member(o, key)) == Some(n)
    ensures HasNoCount(o, key) <==> Whole(Member(o, key)) == None
    ensures forall n: nat :: HasCountOrZero(o, key, n) <==> n == OrZero(Whole(Member(o, key)))
  {
    forall n: nat ensures HasCount(o, key, n) <==> Whole(Member(o, key)) == Some(n) {
      if key in o.members && o.members[key].Num? && o.members[key].num.Finite? {
        FloorIs(o.members[key].num.value, n);
      }
    }
  }

  lemma FloorIs(x: real, n: nat)
    ensures x >= 0.0 && n == x.Floor <==> n as real <= x < (n + 1) as real
  {
  }

  lemma ObjectIsRead(o: Json, key: string)
    requires o.Obj?
    ensures forall v :: HasObject(o, key, v) <==> ObjMember(o, key) == Some(v)
    ensures HasNoObject(o, key) <==> ObjMember(o, key) == None
  {
  }

  // ---------- What one object says ----------

  /** The usage object of `r` gives these counts under the names given. */
  ghost predicate Usage(r: Json, promptKey: string, outputKey: string, detailsKey: string,
                        prompt: nat, output: nat, cached: nat) {
    exists u ::
      && HasObject(r, "usage", u)
      && HasCount(u, promptKey, prompt)
      && HasCountOrZero(u, outputKey, output)
      && if HasNoObject(u, detailsKey) then cached == 0
         else exists d :: HasObject(u, detailsKey, d) && HasCountOrZero(d, "cached_tokens", cached)
  }

  ghost predicate NoUsage(r: Json, promptKey: string) {
    HasNoObject(r, "usage") || exists u :: HasObject(r, "usage", u) && HasNoCount(u, promptKey)
  }

  /** What an OpenAI object says of prompt, output and cached tokens; the Responses API nests it in `response`. */
  ghost predicate OpenAiUsage(style: Style, root: Json, prompt: nat, output: nat, cached: nat) {
    match style
    case OpenAiChat =>
      Usage(root, "prompt_tokens", "completion_tokens", "prompt_tokens_details", prompt, output, cached)
    case OpenAiResponses =>
      exists r :: Inside(root, "response", r)
                  && Usage(r, "input_tokens", "output_tokens", "input_tokens_details", prompt, output, cached)
    case Anthropic => false
  }

  ghost predicate NoOpenAiUsage(style: Style, root: Json) {
    match style
    case OpenAiChat => NoUsage(root, "prompt_tokens")
    case OpenAiResponses => exists r :: Inside(root, "response", r) && NoUsage(r, "input_tokens")
    case Anthropic => true
  }

  /** Anthropic: the usage object of `message`, else that of the root. */
  ghost predicate AnthropicUsageIs(root: Json, u: Json) {
    exists m :: Inside(root, "message", m)
                && if HasNoObject(m, "usage") then HasObject(root, "usage", u) else HasObject(m, "usage", u)
  }

  ghost predicate NoAnthropicUsage(root: Json) {
    HasNoObject(root, "usage") && exists m :: Inside(root, "message", m) && HasNoObject(m, "usage")
  }

  /** The object that names the model: `message`, `response` or the root. */
  predicate NamesModel(style: Style, root: Json, o: Json) {
    match style
    case Anthropic => Inside(root, "message", o)
    case OpenAiResponses => Inside(root, "response", o)
    case OpenAiChat => o == root
  }

  /** The object's model name; none when `name` is None. */
  ghost predicate SaysModel(style: Style, root: Json, name: Option<string>) {
    exists o :: NamesModel(style, root, o)
                && if name.Some? then HasName(o, "model", name.value) else HasNoName(o, "model")
  }

  // ---------- The tally reads just that ----------

  lemma UsageIsRead(r: Json, promptKey: string, outputKey: string, detailsKey: string, reading: Option<Reading>)
    requires r.Obj?
    requires var u := ObjMember(r, "usage");
      reading ==
        if u.None? || Whole(Member(u.value, promptKey)).None? then None
        else
          var d := ObjMember(u.value, detailsKey);
          Some(Reading(Whole(Member(u.value, promptKey)).value, OrZero(Whole(Member(u.value, outputKey))),
                       OrZero(if d.Some? then Whole(Member(d.value, "cached_tokens")) else None)))
    ensures NoUsage(r, promptKey) <==> reading == None
    ensures forall p: nat, q: nat, c: nat ::
      Usage(r, promptKey, outputKey, detailsKey, p, q, c) <==> reading == Some(Reading(p, q, c))
  {
    hide HasCount, HasNoCount, HasCountOrZero, Whole, HasObject, HasNoObject, Member, ObjMember;
    ObjectIsRead(r, "usage");
    var u := ObjMember(r, "usage");
    if u.Some? {
      CountIsRead(u.value, promptKey);
      CountIsRead(u.value, outputKey);
      ObjectIsRead(u.value, detailsKey);
      var d := ObjMember(u.value, detailsKey);
      if d.Some? { CountIsRead(d.value, "cached_tokens"); }
    }
  }

  lemma OpenAiIsRead(style: Style, root: Json)
    requires root.Obj? && !style.Anthropic?
    ensures NoOpenAiUsage(style, root) <==> OpenAiReading(style, root) == None
    ensures forall p: nat, q: nat, c: nat ::
      OpenAiUsage(style, root, p, q, c) <==> OpenAiReading(style, root) == Some(Reading(p, q, c))
  {
    hide Usage, NoUsage, Whole, Member, ObjMember, HasObject, HasNoObject;
    ObjectIsRead(root, "response");
    var r := OpenAiRoot(style, root);
    if style.OpenAiChat? {
      UsageIsRead(r, "prompt_tokens", "completion_tokens", "prompt_tokens_details", OpenAiReading(style, root));
    } else {
      assert forall v :: Inside(root, "response", v) <==> v == r;
      UsageIsRead(r, "input_tokens", "output_tokens", "input_tokens_details", OpenAiReading(style, root));
    }
  }

  lemma AnthropicIsRead(root: Json)
    requires root.Obj?
    ensures NoAnthropicUsage(root) <==> AnthropicUsage(root) == None
    ensures forall u :: AnthropicUsageIs(root, u) <==> AnthropicUsage(root) == Some(u)
  {
    hide Member, ObjMember, HasObject, HasNoObject;
    ObjectIsRead(root, "message");
    ObjectIsRead(root, "usage");
    var m := AnthropicMessage(root);
    ObjectIsRead(m, "usage");
    assert forall v :: Inside(root, "message", v) <==> v == m;
  }

  lemma ModelIsRead(style: Style, root: Json, name: Option<string>)
    requires root.Obj?
    ensures SaysModel(style, root, name) <==>
      name == (var v := Member(if style.Anthropic? then AnthropicMessage(root) else OpenAiRoot(style, root), "model");
               if v.Some? && v.value.Str? && v.value.text != "" then Some(v.value.text) else None)
  {
    ObjectIsRead(root, "message");
    ObjectIsRead(root, "response");
    var o := if style.Anthropic? then AnthropicMessage(root) else OpenAiRoot(style, root);
    assert forall v :: NamesModel(style, root, v) <==> v == o;
    assert o.Obj? && NamesModel(style, root, o);
  }

  // ---------- A whole JSON body ----------

  /** The body is the object `root`. */
  predicate Carries(g: Given, body: seq<byte>, root: Json) {
    0 < |body| <= MAX_JSON_BYTES && g.parse(g.full(body)) == Some(root) && root.Obj?
  }

  /** An OpenAI body: cached tokens are taken out of the prompt, at most all of it. */
  lemma OpenAiBody(style: Style, g: Given, body: seq<byte>, root: Json, prompt: nat, output: nat, cached: nat,
                   name: Option<string>)
    requires !style.Anthropic? && Carries(g, body, root) && SaysModel(style, root, name)
    requires OpenAiUsage(style, root, prompt, output, cached)
    ensures var read := Min(cached, prompt);
      JsonTally(style, g, body) == Tally(Counts(name, prompt - read, output, read, 0), true, false, false)
  {
    hide OpenAiUsage, SaysModel, OpenAiReading;
    OpenAiIsRead(style, root);
    ModelIsRead(style, root, name);
  }

  /** Without usage, or without a prompt count, only the model is taken. */
  lemma OpenAiBodyWithout(style: Style, g: Given, body: seq<byte>, root: Json, name: Option<string>)
    requires !style.Anthropic? && Carries(g, body, root) && NoOpenAiUsage(style, root) && SaysModel(style, root, name)
    ensures JsonTally(style, g, body) == NOTHING.(counts := NO_COUNTS.(model := name))
  {
    hide NoOpenAiUsage, SaysModel, OpenAiReading;
    OpenAiIsRead(style, root);
    ModelIsRead(style, root, name);
  }

  /** An Anthropic body: its four counts, 0 for those it lacks. */
  lemma AnthropicBody(g: Given, body: seq<byte>, root: Json, u: Json, c: Counts)
    requires Carries(g, body, root) && AnthropicUsageIs(root, u) && SaysModel(Anthropic, root, c.model)
    requires HasCountOrZero(u, "input_tokens", c.input) && HasCountOrZero(u, "output_tokens", c.output)
    requires HasCountOrZero(u, "cache_read_input_tokens", c.cacheRead)
    requires HasCountOrZero(u, "cache_creation_input_tokens", c.cacheWrite)
    ensures JsonTally(Anthropic, g, body) == Tally(c, true, false, false)
  {
    hide AnthropicUsageIs, SaysModel, AnthropicUsage, Whole, HasCountOrZero, Member;
    AnthropicIsRead(root);
    ModelIsRead(Anthropic, root, c.model);
    CountIsRead(u, "input_tokens");
    CountIsRead(u, "output_tokens");
    CountIsRead(u, "cache_read_input_tokens");
    CountIsRead(u, "cache_creation_input_tokens");
  }

  lemma AnthropicBodyWithout(g: Given, body: seq<byte>, root: Json, name: Option<string>)
    requires Carries(g, body, root) && NoAnthropicUsage(root) && SaysModel(Anthropic, root, name)
    ensures JsonTally(Anthropic, g, body) == NOTHING.(counts := NO_COUNTS.(model := name))
  {
    hide NoAnthropicUsage, SaysModel, AnthropicUsage;
    AnthropicIsRead(root);
    ModelIsRead(Anthropic, root, name);
  }

  // ---------- The events of a stream ----------

  /** The event delivers the object `root`. */
  predicate Delivers(g: Given, ev: seq<string>, root: Json) {
    var p := Payload(ev);
    p.Some? && g.parse(p.value) == Some(root) && root.Obj?
  }

  lemma RootIsDelivered(g: Given, ev: seq<string>)
    ensures forall root :: Delivers(g, ev, root) <==> Root(g, ev) == Some(root)
  {
    hide Payload;
  }

  /** An OpenAI stream has the counts of the last event with usage, whatever came before. */
  lemma {:induction false} OpenAiStream(style: Style, g: Given, evs: seq<seq<string>>, k: nat, root: Json,
                                        prompt: nat, output: nat, cached: nat)
    requires !style.Anthropic? && k < |evs|
    requires Delivers(g, evs[k], root) && OpenAiUsage(style, root, prompt, output, cached)
    requires forall i, r :: k < i < |evs| && Delivers(g, evs[i], r) ==> NoOpenAiUsage(style, r)
    ensures var t := ApplyEvents(style, g, NOTHING, evs); var read := Min(cached, prompt);
      t.found && t.counts == Counts(t.counts.model, prompt - read, output, read, 0)
  {
    hide OpenAiUsage, NoOpenAiUsage, OpenAiReading, Payload, Root;
    OpenAiIsRead(style, root);
    LastReadingIs(style, g, evs, k, root);
    OpenAiLast(style, g, evs);
  }

  lemma {:induction false} LastReadingIs(style: Style, g: Given, evs: seq<seq<string>>, k: nat, root: Json)
    requires !style.Anthropic? && k < |evs| && root.Obj?
    requires Delivers(g, evs[k], root) && OpenAiReading(style, root).Some?
    requires forall i, r :: k < i < |evs| && Delivers(g, evs[i], r) ==> NoOpenAiUsage(style, r)
    ensures LastReading(style, g, evs) == OpenAiReading(style, root)
  {
    hide NoOpenAiUsage, OpenAiReading, Delivers, Root;
    var last := evs[|evs| - 1];
    RootIsDelivered(g, last);
    if k < |evs| - 1 {
      var r := Root(g, last);
      if r.Some? {
        assert Delivers(g, evs[|evs| - 1], r.value);
        OpenAiIsRead(style, r.value);
      }
      LastReadingIs(style, g, evs[..|evs| - 1], k, root);
    }
  }

  /** Without any usage nothing is counted. */
  lemma {:induction false} OpenAiStreamWithout(style: Style, g: Given, evs: seq<seq<string>>)
    requires !style.Anthropic?
    requires forall i, r :: 0 <= i < |evs| && Delivers(g, evs[i], r) ==> NoOpenAiUsage(style, r)
    ensures var t := ApplyEvents(style, g, NOTHING, evs);
      !t.found && t.counts == NO_COUNTS.(model := t.counts.model)
  {
    hide NoOpenAiUsage, OpenAiReading, Delivers, Root;
    NoReading(style, g, evs);
    OpenAiLast(style, g, evs);
  }

  lemma {:induction false} NoReading(style: Style, g: Given, evs: seq<seq<string>>)
    requires !style.Anthropic?
    requires forall i, r :: 0 <= i < |evs| && Delivers(g, evs[i], r) ==> NoOpenAiUsage(style, r)
    ensures LastReading(style, g, evs) == None
  {
    hide NoOpenAiUsage, OpenAiReading, Delivers, Root;
    if evs != [] {
      var last := evs[|evs| - 1];
      RootIsDelivered(g, last);
      var r := Root(g, last);
      if r.Some? {
        assert Delivers(g, evs[|evs| - 1], r.value);
        OpenAiIsRead(style, r.value);
      }
      NoReading(style, g, evs[..|evs| - 1]);
    }
  }

  /** The event's usage object gives `n` under `key`. */
  ghost predicate Gives(g: Given, ev: seq<string>, key: string, n: nat) {
    exists root, u :: Delivers(g, ev, root) && AnthropicUsageIs(root, u) && HasCountOrZero(u, key, n)
  }

  /** No event gives more than `m` under `key`, and some event gives `m`, or it is 0. */
  ghost predicate IsGreatest(g: Given, evs: seq<seq<string>>, key: string, m: nat) {
    && (forall i, n: nat :: 0 <= i < |evs| && Gives(g, evs[i], key, n) ==> n <= m)
    && (m == 0 || exists i :: 0 <= i < |evs| && Gives(g, evs[i], key, m))
  }

  lemma GivesIsRead(g: Given, ev: seq<string>, key: string)
    ensures forall n: nat :: Gives(g, ev, key, n) ==> AnthropicValue(g, ev, key) == n
    ensures AnthropicValue(g, ev, key) > 0 ==> Gives(g, ev, key, AnthropicValue(g, ev, key))
  {
    hide AnthropicUsageIs, AnthropicUsage, HasCountOrZero, Whole, Member, Delivers, Root;
    RootIsDelivered(g, ev);
    var r := Root(g, ev);
    if r.Some? {
      AnthropicIsRead(r.value);
      var u := AnthropicUsage(r.value);
      if u.Some? { CountIsRead(u.value, key); }
    }
  }

  lemma MaximumIsGreatest(g: Given, evs: seq<seq<string>>, key: string, m: nat)
    requires IsMaximum(g, evs, key, m)
    ensures IsGreatest(g, evs, key, m)
  {
    hide Gives, AnthropicValue;
    forall i, n: nat | 0 <= i < |evs| && Gives(g, evs[i], key, n) ensures n <= m {
      GivesIsRead(g, evs[i], key);
    }
    if m > 0 {
      var i :| 0 <= i < |evs| && AnthropicValue(g, evs[i], key) == m;
      GivesIsRead(g, evs[i], key);
    }
  }

  /** An Anthropic stream has for each count the greatest any event gives. */
  lemma AnthropicStream(g: Given, evs: seq<seq<string>>)
    ensures var c := ApplyEvents(Anthropic, g, NOTHING, evs).counts;
      && IsGreatest(g, evs, "input_tokens", c.input)
      && IsGreatest(g, evs, "output_tokens", c.output)
      && IsGreatest(g, evs, "cache_read_input_tokens", c.cacheRead)
      && IsGreatest(g, evs, "cache_creation_input_tokens", c.cacheWrite)
  {
    hide IsMaximum, IsGreatest;
    AnthropicMaxima(g, evs);
    var c := ApplyEvents(Anthropic, g, NOTHING, evs).counts;
    MaximumIsGreatest(g, evs, "input_tokens", c.input);
    MaximumIsGreatest(g, evs, "output_tokens", c.output);
    MaximumIsGreatest(g, evs, "cache_read_input_tokens", c.cacheRead);
    MaximumIsGreatest(g, evs, "cache_creation_input_tokens", c.cacheWrite);
  }

  /** Usage was found exactly when some event has it. */
  lemma FoundIsUsage(style: Style, g: Given, evs: seq<seq<string>>)
    ensures ApplyEvents(style, g, NOTHING, evs).found <==>
      exists i, root :: 0 <= i < |evs| && Delivers(g, evs[i], root)
                        && if style.Anthropic? then !NoAnthropicUsage(root) else !NoOpenAiUsage(style, root)
  {
    hide NoAnthropicUsage, NoOpenAiUsage, Delivers, Root, AnthropicUsage, OpenAiReading;
    FlagsMeaning(style, g, evs);
    forall i | 0 <= i < |evs|
      ensures HasUsage(style, g, evs[i]) <==>
        exists root :: Delivers(g, evs[i], root)
                       && if style.Anthropic? then !NoAnthropicUsage(root) else !NoOpenAiUsage(style, root)
    {
      RootIsDelivered(g, evs[i]);
      var r := Root(g, evs[i]);
      if r.Some? {
        assert Delivers(g, evs[i], r.value);
        if style.Anthropic? { AnthropicIsRead(r.value); } else { OpenAiIsRead(style, r.value); }
      }
    }
  }

  /** The model is the last name an event gives. */
  lemma StreamModel(style: Style, g: Given, evs: seq<seq<string>>, k: nat, root: Json, name: string)
    requires k < |evs| && Delivers(g, evs[k], root) && SaysModel(style, root, Some(name))
    requires forall i, r :: k < i < |evs| && Delivers(g, evs[i], r) ==> SaysModel(style, r, None)
    ensures ApplyEvents(style, g, NOTHING, evs).counts.model == Some(name)
  {
    hide SaysModel, Delivers, Root;
    RootIsDelivered(g, evs[k]);
    ModelIsRead(style, root, Some(name));
    forall i | k < i < |evs| ensures ModelOf(style, g, evs[i]).None? {
      RootIsDelivered(g, evs[i]);
      var r := Root(g, evs[i]);
      if r.Some? {
        assert Delivers(g, evs[i], r.value);
        ModelIsRead(style, r.value, None);
      }
    }
    ModelIsLast(style, g, evs, k);
  }

  // ---------- Lines, names and flags, spelled out ----------

  /** `v` is what a data line says: all behind the colon, but for one blank. */
  predicate SaysData(line: string, v: string) {
    line == "data: " + v || (line == "data:" + v && (v == "" || v[0] != ' '))
  }

  /** `vs` are the values of the event's data lines, in order; other lines say nothing. */
  predicate SayData(ev: seq<string>, vs: seq<string>) {
    if ev == [] then vs == []
    else
      var init, last := ev[..|ev| - 1], ev[|ev| - 1];
      if |last| >= 5 && last[..5] == "data:" then
        vs != [] && SaysData(last, vs[|vs| - 1]) && SayData(init, vs[..|vs| - 1])
      else SayData(init, vs)
  }

  /** A delivered event carries its data lines, one newline between each two; nothing when there are none, or only
      the closing mark. */
  lemma EventText(ev: seq<string>, vs: seq<string>)
    requires !Dropped(ev) && SayData(ev, vs) && forall i :: 0 <= i < |vs| ==> NoBreak(vs[i])
    ensures Payload(ev).None? <==> vs == [] || vs == ["[DONE]"]
    ensures Payload(ev).Some? ==> Lines(Payload(ev).value) == vs && '\r' !in Payload(ev).value
  {
    hide Join, Lines, Held, Units, NoBreak, SayData, DataOf;
    DataIsSaid(ev, vs);
    if vs != [] { JoinedLines(vs); }
    DoneIsJoined();
  }

  lemma DoneIsJoined()
    ensures Join(["[DONE]"]) == "[DONE]" && Lines("[DONE]") == ["[DONE]"]
  {
    LastLine("[DONE]");
  }

  lemma {:induction false} DataIsSaid(ev: seq<string>, vs: seq<string>)
    requires SayData(ev, vs) && forall i :: 0 <= i < |ev| ==> !TooLong(ev[i])
    ensures DataOf(ev) == vs
  {
    if ev != [] {
      var init, last := ev[..|ev| - 1], ev[|ev| - 1];
      DataIsSaid(init, if IsData(last) then vs[..|vs| - 1] else vs);
    }
  }

  lemma {:induction false} JoinedLines(vs: seq<string>)
    requires vs != [] && forall i :: 0 <= i < |vs| ==> NoBreak(vs[i])
    ensures Lines(Join(vs)) == vs && '\r' !in Join(vs)
  {
    hide Lines, NoBreak;
    if |vs| == 1 {
      LastLine(vs[0]);
    } else {
      JoinedLines(vs[1..]);
      LineOff(vs[0], Join(vs[1..]));
    }
  }

  lemma LastLine(v: string)
    requires NoBreak(v)
    ensures Lines(v) == [v] && '\r' !in v
  {
    hide FirstBreak;
    assert v[..|v|] == v;
    BreaksAt(v, |v|);
  }

  lemma {:induction false} BreaksAt(t: string, e: nat)
    requires e <= |t| && NoBreak(t[..e]) && (e < |t| ==> IsBreak(t[e]))
    ensures FirstBreak(t) == e
  {
    if e > 0 {
      assert t[1..][..e - 1] == t[..e][1..] && t[..e][0] == t[0];
      BreaksAt(t[1..], e - 1);
    }
  }

  lemma LineOff(v: string, rest: string)
    requires NoBreak(v)
    ensures Lines(v + "\n" + rest) == [v] + Lines(rest) && '\r' !in v
  {
    hide FirstBreak;
    var t := v + "\n" + rest;
    assert t[..|v|] == v && t[|v|] == '\n';
    BreaksAt(t, |v|);
    assert t[|v| + 1..] == rest;
  }

  function Ascii(s: string): seq<byte>
    requires forall i :: 0 <= i < |s| ==> s[i] < '\U{80}'
  {
    seq(|s|, i requires 0 <= i < |s| => s[i] as int)
  }

  /** A body with neither type named is read as a stream when it opens with a comment or one of four fields. */
  lemma OpensSpelled(b: seq<byte>)
    ensures OpensSse(b) <==>
      || Ascii(":") <= b || Ascii("event:") <= b || Ascii("data:") <= b || Ascii("id:") <= b || Ascii("retry:") <= b
    ensures MayOpenSse(b) <==> b < Ascii("event:") || b < Ascii("data:") || b < Ascii("id:") || b < Ascii("retry:")
  {
    FieldsSpelled();
    hide Ascii;
  }

  lemma FieldsSpelled()
    ensures Ascii(":") == [COLON] && Ascii("event:") == EVENT_FIELD && Ascii("data:") == DATA_FIELD
    ensures Ascii("id:") == ID_FIELD && Ascii("retry:") == RETRY_FIELD
  {
  }
}
