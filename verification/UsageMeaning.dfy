/** What the tally of an SSE text says about its events. */
module UsageMeaning {
  import opened Streams
  import opened UsageSpec

  /** The JSON object an event delivers, if it delivers one. */
  function Root(g: Given, ev: seq<string>): (r: Option<Json>)
    ensures r.Some? ==> r.value.Obj?
  {
    match Payload(ev)
    case None => None
    case Some(p) => var v := g.parse(p); if v.Some? && v.value.Obj? then v else None
  }

  /** The event was delivered, but its payload is not a JSON object. */
  predicate Unusable(g: Given, ev: seq<string>) { Payload(ev).Some? && Root(g, ev).None? }

  /** The event carries usage in the given style. */
  predicate HasUsage(style: Style, g: Given, ev: seq<string>) {
    var r := Root(g, ev);
    r.Some? && (if style.Anthropic? then AnthropicUsage(r.value).Some? else OpenAiReading(style, r.value).Some?)
  }

  lemma ApplySnoc(style: Style, g: Given, evs: seq<seq<string>>)
    requires evs != []
    ensures ApplyEvents(style, g, NOTHING, evs)
         == ApplyEvent(style, g, ApplyEvents(style, g, NOTHING, evs[..|evs| - 1]), evs[|evs| - 1])
  {
  }

  /** `overflow`, `bad` and `found` say exactly that some event was dropped, unusable, or carried usage. */
  lemma {:induction false} FlagsMeaning(style: Style, g: Given, evs: seq<seq<string>>)
    ensures var t := ApplyEvents(style, g, NOTHING, evs);
      && (t.overflow <==> exists i :: 0 <= i < |evs| && Dropped(evs[i]))
      && (t.bad <==> exists i :: 0 <= i < |evs| && Unusable(g, evs[i]))
      && (t.found <==> exists i :: 0 <= i < |evs| && HasUsage(style, g, evs[i]))
  {
    if evs != [] {
      var init, ev := evs[..|evs| - 1], evs[|evs| - 1];
      FlagsMeaning(style, g, init);
      ApplySnoc(style, g, evs);
      FlagsStep(style, g, ApplyEvents(style, g, NOTHING, init), ev);
      ExistsSnoc(init, ev, e => Dropped(e));
      ExistsSnoc(init, ev, e => Unusable(g, e));
      ExistsSnoc(init, ev, e => HasUsage(style, g, e));
      assert init + [ev] == evs;
    }
  }

  lemma FlagsStep(style: Style, g: Given, t: Tally, ev: seq<string>)
    ensures var u := ApplyEvent(style, g, t, ev);
      && u.overflow == (t.overflow || Dropped(ev))
      && u.bad == (t.bad || Unusable(g, ev))
      && u.found == (t.found || HasUsage(style, g, ev))
  {
    hide Dropped, DataOf, Join;
  }

  lemma ExistsSnoc(init: seq<seq<string>>, ev: seq<string>, p: seq<string> -> bool)
    ensures (exists i :: 0 <= i < |init + [ev]| && p((init + [ev])[i]))
       <==> (exists i :: 0 <= i < |init| && p(init[i])) || p(ev)
  {
    var all := init + [ev];
    if p(ev) { assert p(all[|init|]); }
    if i :| 0 <= i < |init| && p(init[i]) { assert p(all[i]); }
  }

  // ---------- Anthropic: maxima ----------

  /** What an event says for one Anthropic usage field; 0 when it carries no usage. */
  function AnthropicValue(g: Given, ev: seq<string>, key: string): nat {
    var r := Root(g, ev);
    if r.Some? && AnthropicUsage(r.value).Some? then OrZero(Whole(Member(AnthropicUsage(r.value).value, key))) else 0
  }

  /** `m` is the greatest value any event gives for `key` (0 when none does). */
  ghost predicate IsMaximum(g: Given, evs: seq<seq<string>>, key: string, m: nat) {
    && (forall i :: 0 <= i < |evs| ==> AnthropicValue(g, evs[i], key) <= m)
    && (m == 0 || exists i :: 0 <= i < |evs| && AnthropicValue(g, evs[i], key) == m)
  }

  lemma MaximumSnoc(g: Given, evs: seq<seq<string>>, key: string, m: nat)
    requires evs != [] && IsMaximum(g, evs[..|evs| - 1], key, m)
    ensures IsMaximum(g, evs, key, Max(m, AnthropicValue(g, evs[|evs| - 1], key)))
  {
    hide AnthropicValue;
    var init := evs[..|evs| - 1];
    assert forall i :: 0 <= i < |init| ==> init[i] == evs[i];
    if m != 0 {
      var i :| 0 <= i < |init| && AnthropicValue(g, init[i], key) == m;
      assert AnthropicValue(g, evs[i], key) == m;
    }
  }

  /** Anthropic counts are the maxima over the events, in every order and number of events. */
  lemma {:induction false} AnthropicMaxima(g: Given, evs: seq<seq<string>>)
    ensures var c := ApplyEvents(Anthropic, g, NOTHING, evs).counts;
      && IsMaximum(g, evs, "input_tokens", c.input)
      && IsMaximum(g, evs, "output_tokens", c.output)
      && IsMaximum(g, evs, "cache_read_input_tokens", c.cacheRead)
      && IsMaximum(g, evs, "cache_creation_input_tokens", c.cacheWrite)
  {
    if evs != [] {
      var init, ev := evs[..|evs| - 1], evs[|evs| - 1];
      AnthropicMaxima(g, init);
      var c := ApplyEvents(Anthropic, g, NOTHING, init).counts;
      MaximumSnoc(g, evs, "input_tokens", c.input);
      MaximumSnoc(g, evs, "output_tokens", c.output);
      MaximumSnoc(g, evs, "cache_read_input_tokens", c.cacheRead);
      MaximumSnoc(g, evs, "cache_creation_input_tokens", c.cacheWrite);
      AnthropicStep(g, ApplyEvents(Anthropic, g, NOTHING, init), ev);
    }
  }

  lemma AnthropicStep(g: Given, t: Tally, ev: seq<string>)
    ensures var c := ApplyEvent(Anthropic, g, t, ev).counts;
      && c.input == Max(t.counts.input, AnthropicValue(g, ev, "input_tokens"))
      && c.output == Max(t.counts.output, AnthropicValue(g, ev, "output_tokens"))
      && c.cacheRead == Max(t.counts.cacheRead, AnthropicValue(g, ev, "cache_read_input_tokens"))
      && c.cacheWrite == Max(t.counts.cacheWrite, AnthropicValue(g, ev, "cache_creation_input_tokens"))
  {
    hide Dropped, DataOf, Join, Whole, AnthropicUsage, AnthropicMessage;
  }

  // ---------- OpenAI: the last usage event ----------

  function ReadingOf(style: Style, g: Given, ev: seq<string>): Option<Reading> {
    var r := Root(g, ev);
    if r.Some? then OpenAiReading(style, r.value) else None
  }

  /** The reading of the last event that has one. */
  function LastReading(style: Style, g: Given, evs: seq<seq<string>>): Option<Reading> {
    if evs == [] then None
    else
      var r := ReadingOf(style, g, evs[|evs| - 1]);
      if r.Some? then r else LastReading(style, g, evs[..|evs| - 1])
  }

  /** OpenAI counts are those of the last usage event: cached tokens are taken out of the prompt, never
      counted twice. */
  lemma {:induction false} OpenAiLast(style: Style, g: Given, evs: seq<seq<string>>)
    requires !style.Anthropic?
    ensures var t := ApplyEvents(style, g, NOTHING, evs); var c := t.counts;
      match LastReading(style, g, evs)
      case None => !t.found && c.input == c.output == c.cacheRead == c.cacheWrite == 0
      case Some(r) => t.found && c.input + c.cacheRead == r.prompt && c.cacheRead == Min(r.cached, r.prompt)
                      && c.output == r.output && c.cacheWrite == 0
  {
    if evs != [] {
      OpenAiLast(style, g, evs[..|evs| - 1]);
      OpenAiStep(style, g, ApplyEvents(style, g, NOTHING, evs[..|evs| - 1]), evs[|evs| - 1]);
    }
  }

  lemma OpenAiStep(style: Style, g: Given, t: Tally, ev: seq<string>)
    requires !style.Anthropic?
    ensures var u := ApplyEvent(style, g, t, ev); var r := ReadingOf(style, g, ev);
      if r.Some? then u.found && u.counts.(model := None) == SetOpenAi(t, NO_COUNTS, r.value).counts
      else u.found == t.found && u.counts.(model := None) == t.counts.(model := None)
  {
    hide Dropped, DataOf, Join;
  }

  // ---------- The model name ----------

  function ModelOf(style: Style, g: Given, ev: seq<string>): Option<string> {
    var r := Root(g, ev);
    if r.None? then None
    else
      var v := Member(if style.Anthropic? then AnthropicMessage(r.value) else OpenAiRoot(style, r.value), "model");
      if v.Some? && v.value.Str? && v.value.text != "" then Some(v.value.text) else None
  }

  /** The model is the last non-empty name any event gives. */
  lemma {:induction false} ModelIsLast(style: Style, g: Given, evs: seq<seq<string>>, k: int)
    requires -1 <= k < |evs|
    requires k >= 0 ==> ModelOf(style, g, evs[k]).Some?
    requires forall i :: k < i < |evs| ==> ModelOf(style, g, evs[i]).None?
    ensures ApplyEvents(style, g, NOTHING, evs).counts.model == if k < 0 then None else ModelOf(style, g, evs[k])
  {
    if evs != [] {
      var init, ev := evs[..|evs| - 1], evs[|evs| - 1];
      ModelStep(style, g, ApplyEvents(style, g, NOTHING, init), ev);
      if k < |init| { ModelIsLast(style, g, init, k); }
    }
  }

  lemma ModelStep(style: Style, g: Given, t: Tally, ev: seq<string>)
    ensures ApplyEvent(style, g, t, ev).counts.model
         == if ModelOf(style, g, ev).Some? then ModelOf(style, g, ev) else t.counts.model
  {
    hide Dropped, DataOf, Join;
  }
}
