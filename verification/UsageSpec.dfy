/**
 * What the usage tap must report, defined on a whole response body.
 * Nothing here knows about chunks: lines, events and counts are read off the complete text.
 * A `char` is a Unicode scalar value, which is what a decoder emits; lengths are counted in UTF-16 code units.
 */
module UsageSpec {
  import opened Streams

  /** Largest JSON body held for parsing. */
  const MAX_JSON_BYTES: nat := 4 * 1024 * 1024
  /** Largest line, and largest event data, held in SSE mode. */
  const MAX_EVENT_BYTES: nat := 1024 * 1024

  // ---------- JSON values and token counts ----------

  datatype Number = Finite(value: real) | NonFinite

  datatype Json =
    | Null
    | Bool(flag: bool)
    | Num(num: Number)
    | Str(text: string)
    | Arr(items: seq<Json>)
    | Obj(members: map<string, Json>)

  datatype Style = Anthropic | OpenAiResponses | OpenAiChat

  datatype Counts = Counts(model: Option<string>, input: nat, output: nat, cacheRead: nat, cacheWrite: nat)

  const NO_COUNTS := Counts(None, 0, 0, 0, 0)

  /** Everything the tap has concluded so far. */
  datatype Tally = Tally(counts: Counts, found: bool, bad: bool, overflow: bool)

  const NOTHING := Tally(NO_COUNTS, false, false, false)

  datatype Status = StatusOk | StatusNone | Unparseable | Overflow

  function StatusOf(t: Tally): Status {
    if t.overflow then Overflow else if t.found then StatusOk else if t.bad then Unparseable else StatusNone
  }

  /** The UTF-8 decoder and JSON parser, taken as given. `emit` is the text a streaming decoder has
      released after some bytes, `full` the text once the input has ended. */
  datatype Given = Given(emit: seq<byte> -> string, full: seq<byte> -> string, parse: string -> Option<Json>) {
    /** A streaming decoder never takes text back. */
    ghost predicate Streaming() {
      && emit([]) == "" && full([]) == ""
      && (forall a: seq<byte>, b: seq<byte> :: a <= b ==> emit(a) <= emit(b))
      && (forall a: seq<byte> :: emit(a) <= full(a))
    }
  }

  function Member(o: Json, key: string): Option<Json>
    requires o.Obj?
  {
    if key in o.members then Some(o.members[key]) else None
  }

  function ObjMember(o: Json, key: string): Option<Json>
    requires o.Obj?
    ensures ObjMember(o, key).Some? ==> ObjMember(o, key).value.Obj?
  {
    var v := Member(o, key);
    if v.Some? && v.value.Obj? then v else None
  }

  /** A finite, non-negative JSON number, rounded down. */
  function Whole(v: Option<Json>): Option<nat> {
    if v.Some? && v.value.Num? && v.value.num.Finite? && v.value.num.value >= 0.0
    then Some(v.value.num.value.Floor)
    else None
  }

  function OrZero(v: Option<nat>): nat { if v.Some? then v.value else 0 }

  /** Only a non-empty string replaces the model name. */
  function WithModel(c: Counts, v: Option<Json>): Counts {
    if v.Some? && v.value.Str? && v.value.text != "" then c.(model := Some(v.value.text)) else c
  }

  /** Anthropic: the usage object of `message` when there is one, else of the root. */
  function AnthropicMessage(root: Json): (m: Json)
    requires root.Obj?
    ensures m.Obj?
  {
    var m := ObjMember(root, "message");
    if m.Some? then m.value else root
  }

  function AnthropicUsage(root: Json): (u: Option<Json>)
    requires root.Obj?
    ensures u.Some? ==> u.value.Obj?
  {
    var own := ObjMember(AnthropicMessage(root), "usage");
    if own.Some? then own else ObjMember(root, "usage")
  }

  function ApplyAnthropic(t: Tally, root: Json): Tally
    requires root.Obj?
  {
    var c := WithModel(t.counts, Member(AnthropicMessage(root), "model"));
    var u := AnthropicUsage(root);
    if u.None? then t.(counts := c)
    else t.(found := true, counts := c.(
      input := Max(c.input, OrZero(Whole(Member(u.value, "input_tokens")))),
      output := Max(c.output, OrZero(Whole(Member(u.value, "output_tokens")))),
      cacheRead := Max(c.cacheRead, OrZero(Whole(Member(u.value, "cache_read_input_tokens")))),
      cacheWrite := Max(c.cacheWrite, OrZero(Whole(Member(u.value, "cache_creation_input_tokens"))))))
  }

  /** What an OpenAI usage object says: prompt tokens (cached ones included), output, cached. */
  datatype Reading = Reading(prompt: nat, output: nat, cached: nat)

  function SetOpenAi(t: Tally, c: Counts, r: Reading): Tally {
    var read := Min(r.cached, r.prompt);
    t.(found := true, counts := Counts(c.model, r.prompt - read, r.output, read, 0))
  }

  function OpenAiRoot(style: Style, root: Json): (r: Json)
    requires root.Obj?
    ensures r.Obj?
  {
    var r := ObjMember(root, "response");
    if style.OpenAiResponses? && r.Some? then r.value else root
  }

  function OpenAiReading(style: Style, root: Json): Option<Reading>
    requires root.Obj?
  {
    var u := ObjMember(OpenAiRoot(style, root), "usage");
    if u.None? then None else
    var prompt := Whole(Member(u.value, if style.OpenAiResponses? then "input_tokens" else "prompt_tokens"));
    if prompt.None? then None else
    var output := Whole(Member(u.value, if style.OpenAiResponses? then "output_tokens" else "completion_tokens"));
    var details :=
      ObjMember(u.value, if style.OpenAiResponses? then "input_tokens_details" else "prompt_tokens_details");
    var cached := if details.Some? then Whole(Member(details.value, "cached_tokens")) else None;
    Some(Reading(prompt.value, OrZero(output), OrZero(cached)))
  }

  function ApplyOpenAi(style: Style, t: Tally, root: Json): Tally
    requires root.Obj?
  {
    var c := WithModel(t.counts, Member(OpenAiRoot(style, root), "model"));
    var r := OpenAiReading(style, root);
    if r.None? then t.(counts := c) else SetOpenAi(t, c, r.value)
  }

  /** One parsed JSON value (None: it did not parse). */
  function Apply(style: Style, t: Tally, root: Option<Json>): Tally {
    if root.None? || !root.value.Obj? then t.(bad := true)
    else if style.Anthropic? then ApplyAnthropic(t, root.value)
    else ApplyOpenAi(style, t, root.value)
  }

  // ---------- Lines: sections 9.2.5 and 9.2.6 of the WHATWG HTML Living Standard ----------

  predicate IsBreak(c: char) { c == '\r' || c == '\n' }

  predicate NoBreak(t: string) { forall i :: 0 <= i < |t| ==> !IsBreak(t[i]) }

  predicate EndsCr(t: string) { t != "" && t[|t| - 1] == '\r' }

  function FirstBreak(t: string): (e: nat)
    ensures e <= |t| && NoBreak(t[..e])
    ensures e < |t| ==> IsBreak(t[e])
  {
    if t == "" || IsBreak(t[0]) then 0
    else
      var e := 1 + FirstBreak(t[1..]);
      assert t[..e] == [t[0]] + t[1..][..e - 1];
      e
  }

  /** Where the line after a break at `e` begins: CR LF is one break. */
  function AfterBreak(t: string, e: nat): (k: nat)
    requires e < |t| && IsBreak(t[e])
    ensures e < k <= |t|
  {
    if t[e] == '\r' && e + 1 < |t| && t[e + 1] == '\n' then e + 2 else e + 1
  }

  /** The text cut at every CR, LF or CR LF; the last piece is the unfinished line (possibly empty). */
  function Lines(t: string): (ls: seq<string>)
    ensures |ls| >= 1
    decreases |t|
  {
    var e := FirstBreak(t);
    if e == |t| then [t] else [t[..e]] + Lines(t[AfterBreak(t, e)..])
  }

  // ---------- Events ----------

  /** Lines grouped at blank lines; the last group is the unfinished event. */
  function Events(ls: seq<string>): (evs: seq<seq<string>>)
    ensures |evs| >= 1
  {
    if ls == [] then [[]]
    else
      var rest := Events(ls[1..]);
      if ls[0] == "" then [[]] + rest else [[ls[0]] + rest[0]] + rest[1..]
  }

  /** The UTF-16 code units of one character: two outside the basic plane. */
  function UnitsOf(c: char): nat { if c > '\U{FFFF}' then 2 else 1 }

  /** The length of a text as the code measures it. */
  function Units(s: string): nat { if s == "" then 0 else Units(s[..|s| - 1]) + UnitsOf(s[|s| - 1]) }

  predicate TooLong(l: string) { Units(l) > MAX_EVENT_BYTES }

  /** A `data` line of acceptable length. Its colon is required. */
  predicate IsData(l: string) { !TooLong(l) && "data:" <= l }

  function DataValue(l: string): string
    requires IsData(l)
  {
    var v := l[5..];
    if " " <= v then v[1..] else v
  }

  function DataOf(ev: seq<string>): seq<string> {
    if ev == [] then []
    else
      var init := DataOf(ev[..|ev| - 1]);
      if IsData(ev[|ev| - 1]) then init + [DataValue(ev[|ev| - 1])] else init
  }

  /** Code units held for a list of data values, one newline each. */
  function Held(vs: seq<string>): nat {
    if vs == [] then 0 else Held(vs[..|vs| - 1]) + Units(vs[|vs| - 1]) + 1
  }

  /** An event is dropped exactly when it has an over-long line or its data exceeds the cap. */
  predicate Dropped(ev: seq<string>) {
    (exists i :: 0 <= i < |ev| && TooLong(ev[i])) || Held(DataOf(ev)) > MAX_EVENT_BYTES
  }

  function Join(vs: seq<string>): string {
    if vs == [] then "" else if |vs| == 1 then vs[0] else vs[0] + "\n" + Join(vs[1..])
  }

  /** The JSON text an event carries, if it carries one. */
  function Payload(ev: seq<string>): Option<string> {
    var vs := DataOf(ev);
    if Dropped(ev) || vs == [] || Join(vs) == "[DONE]" then None else Some(Join(vs))
  }

  function ApplyEvent(style: Style, g: Given, t: Tally, ev: seq<string>): Tally {
    if Dropped(ev) then t.(overflow := true)
    else match Payload(ev)
      case None => t
      case Some(p) => Apply(style, t, g.parse(p))
  }

  /** Every event applied in order, starting from `t`. */
  function ApplyEvents(style: Style, g: Given, t: Tally, evs: seq<seq<string>>): Tally {
    if evs == [] then t
    else ApplyEvent(style, g, ApplyEvents(style, g, t, evs[..|evs| - 1]), evs[|evs| - 1])
  }

  /** The tally of a whole SSE text. */
  function SseTally(style: Style, g: Given, text: string): Tally {
    ApplyEvents(style, g, NOTHING, Events(Lines(text)))
  }

  /** The tally of a whole JSON body. */
  function JsonTally(style: Style, g: Given, body: seq<byte>): Tally {
    if |body| > MAX_JSON_BYTES then NOTHING.(overflow := true)
    else if body == [] then NOTHING
    else Apply(style, NOTHING, g.parse(g.full(body)))
  }

  // ---------- SSE or JSON ----------

  datatype Mode = Sse | JsonBody | Undecided

  predicate IsSpace(b: byte) { b == 0x20 || b == 0x09 || b == 0x0a || b == 0x0d }

  function SkipSpace(body: seq<byte>): (r: seq<byte>)
    ensures r == [] || !IsSpace(r[0])
    ensures |r| <= |body| && r == body[|body| - |r|..]
    ensures forall i :: 0 <= i < |body| - |r| ==> IsSpace(body[i])
  {
    if body == [] || !IsSpace(body[0]) then body else SkipSpace(body[1..])
  }

  /** `event:`, `data:`, `id:` and `retry:` in ASCII. */
  const EVENT_FIELD: seq<byte> := [0x65, 0x76, 0x65, 0x6e, 0x74, 0x3a]
  const DATA_FIELD: seq<byte> := [0x64, 0x61, 0x74, 0x61, 0x3a]
  const ID_FIELD: seq<byte> := [0x69, 0x64, 0x3a]
  const RETRY_FIELD: seq<byte> := [0x72, 0x65, 0x74, 0x72, 0x79, 0x3a]
  const COLON: byte := 0x3a

  /** The body opens with an SSE field or a comment. */
  predicate OpensSse(b: seq<byte>) {
    [COLON] <= b || EVENT_FIELD <= b || DATA_FIELD <= b || ID_FIELD <= b || RETRY_FIELD <= b
  }

  /** More bytes could still complete an SSE field name. */
  predicate MayOpenSse(b: seq<byte>) {
    b < EVENT_FIELD || b < DATA_FIELD || b < ID_FIELD || b < RETRY_FIELD
  }

  /** How the bytes after the leading white space are read when the upstream names neither type. */
  function Sniff(b: seq<byte>): Mode {
    if OpensSse(b) then Sse else if MayOpenSse(b) then Undecided else JsonBody
  }

  datatype Naming = NamedSse | NamedJson | Unnamed

  /** A content type naming an event stream wins over one naming JSON. */
  function NamingOf(eventStream: bool, json: bool): Naming {
    if eventStream then NamedSse else if json then NamedJson else Unnamed
  }

  function ModeOf(n: Naming, body: seq<byte>): Mode {
    match n
    case NamedSse => Sse
    case NamedJson => JsonBody
    case Unnamed => Sniff(SkipSpace(body))
  }

  /** The bytes that are read once the mode is known. */
  function Content(n: Naming, body: seq<byte>): seq<byte> {
    if n.Unnamed? then SkipSpace(body) else body
  }

  /** The report for a whole response body. */
  function Report(style: Style, g: Given, n: Naming, body: seq<byte>): Tally {
    match ModeOf(n, body)
    case Sse => SseTally(style, g, g.full(Content(n, body)))
    case JsonBody => JsonTally(style, g, Content(n, body))
    case Undecided => NOTHING
  }
}
