/** src/gateway/usage.ts: the tap that reads token usage off a response while it streams by. */
module UsageTap {
  import opened Streams
  import opened UsageSpec
  import opened UsageLemmas

  class Tap {
    const style: Style
    const given: Given
    const naming: Naming

    var tally: Tally
    // Type sniffing
    var sse: bool
    var sniffing: bool
    var held0: seq<byte>
    // The streaming decoder's own memory: the bytes it has been given.
    var decoded: seq<byte>
    // JSON mode
    var parts: seq<seq<byte>>
    var held: nat
    // SSE mode
    var line: string
    var lineTooLong: bool
    var skipLf: bool
    var data: seq<string>
    var dataBytes: nat
    var eventTooBig: bool

    /** The body so far, whether it has ended, and the text since `base` was the tally. */
    ghost var seen: seq<byte>
    ghost var ended: bool
    ghost var text: string
    ghost var base: Tally

    /** The unfinished line and event are what the whole-text functions leave unfinished. */
    ghost predicate SseState()
      reads `text, `base, `line, `lineTooLong, `data, `dataBytes, `eventTooBig, `tally
    {
      var ls := Lines(text);
      var evs := Events(ls[..|ls| - 1]);
      var current := evs[|evs| - 1];
      var done := ApplyEvents(style, given, base, evs[..|evs| - 1]);
      && (lineTooLong <==> TooLong(ls[|ls| - 1]))
      && line == (if lineTooLong then "" else ls[|ls| - 1])
      && EventState(current)
      && tally == done.(overflow := done.overflow || eventTooBig)
    }

    /** `dataBytes` counts every data line of the event; the values are let go once the cap is passed. */
    ghost predicate EventState(current: seq<string>)
      reads `data, `dataBytes, `eventTooBig
    {
      && (eventTooBig <==> Dropped(current))
      && dataBytes == Held(DataOf(current))
      && (!eventTooBig ==> data == DataOf(current))
      && (dataBytes > MAX_EVENT_BYTES ==> data == [])
      && Held(data) <= MAX_EVENT_BYTES
    }

    ghost predicate SseQuiet()
      reads this
    {
      && line == "" && !lineTooLong && !skipLf && data == [] && dataBytes == 0 && !eventTooBig
      && text == "" && decoded == [] && base == NOTHING
    }

    ghost predicate JsonState()
      reads this
    {
      var c := Content(naming, seen);
      && SseQuiet()
      && (tally.overflow <==> |c| > MAX_JSON_BYTES)
      && tally == NOTHING.(overflow := tally.overflow)
      && Flatten(parts) == (if tally.overflow then [] else c)
      && held == |Flatten(parts)|
    }

    /** Every field is a function of the body so far, and of nothing else about how it arrived. */
    ghost predicate Valid()
      reads this
    {
      var c := Content(naming, seen);
      && given.Streaming()
      && (sniffing <==> ModeOf(naming, seen).Undecided?)
      && (sse <==> ModeOf(naming, seen).Sse?)
      && (sniffing ==> held0 == c && c == SkipSpace(seen) && tally == NOTHING && SseQuiet() && parts == [] && held == 0)
      && (!sniffing ==> held0 == [])
      && (sse && !ended ==>
            && decoded == c && text == given.emit(c) && base == NOTHING && skipLf == EndsCr(text)
            && SseState() && parts == [] && held == 0)
      && (!sse && !sniffing && !ended ==> JsonState())
      && (ended ==> EndState())
    }

    /** Before the mode is known: the bytes behind the white space are held, and nothing else is. */
    ghost predicate Deciding()
      reads this
    {
      && given.Streaming() && !ended && sniffing && !sse && ModeOf(naming, seen).Undecided?
      && held0 == Content(naming, seen) == SkipSpace(seen)
      && tally == NOTHING && SseQuiet() && parts == [] && held == 0
    }

    /** After the end: the report of the whole body stands, and nothing is pending. */
    ghost predicate EndState()
      reads this
    {
      && tally == Report(style, given, naming, seen)
      && (sse ==> decoded == [] && text == "" && base == tally && SseState())
      && (!sse && !sniffing ==> tally.overflow || held == 0 || parts == [])
    }

    constructor (style: Style, given: Given, eventStream: bool, json: bool)
      requires given.Streaming()
      ensures Valid() && seen == [] && !ended
      ensures this.style == style && this.given == given && naming == NamingOf(eventStream, json)
    {
      this.style, this.given, naming := style, given, NamingOf(eventStream, json);
      tally := NOTHING;
      sse := eventStream;
      sniffing := !eventStream && !json;
      held0, decoded, parts, held := [], [], [], 0;
      line, lineTooLong, skipLf, data, dataBytes, eventTooBig := "", false, false, [], 0, false;
      seen, ended, text, base := [], false, "", NOTHING;
      new;
      EmptyText();
    }

    lemma EmptyText()
      requires text == "" && tally == base
      requires line == "" && !lineTooLong && data == [] && dataBytes == 0 && !eventTooBig
      ensures SseState()
    {
      assert Lines(text) == [""];
      assert Events([]) == [[]];
      assert [""][..0] == [];
    }

    /** One more chunk of the response. */
    method Write(chunk: seq<byte>)
      requires Valid() && !ended
      modifies this
      ensures Valid() && !ended && seen == old(seen) + chunk
    {
      hide SkipSpace, Sniff, EndState, SseState, EventState;
      var rest := chunk;
      if sniffing {
        var r := SniffMore(chunk);
        if r.None? { return; }
        rest := r.value;
      } else {
        Grow(chunk);
        seen := seen + chunk;
      }
      if sse { WriteSse(rest); } else { WriteJson(rest); }
    }

    /** Once the mode is known, more bytes only extend the content. */
    lemma Grow(chunk: seq<byte>)
      requires !ModeOf(naming, seen).Undecided?
      ensures ModeOf(naming, seen + chunk) == ModeOf(naming, seen)
      ensures Content(naming, seen + chunk) == Content(naming, seen) + chunk
    {
      if naming.Unnamed? {
        SkipSpaceConcat(seen, chunk);
        SniffStable(SkipSpace(seen), chunk);
      }
    }

    /** Decides the mode from the first non-white-space bytes; None while they are still too few.
        At most five bytes are held. */
    method SniffMore(chunk: seq<byte>) returns (r: Option<seq<byte>>)
      requires Deciding()
      modifies this
      ensures seen == old(seen) + chunk && !ended
      ensures r.None? ==> Valid()
      ensures r.Some? ==> !sniffing && held0 == [] && r.value == Content(naming, seen)
      ensures r.Some? ==> !ModeOf(naming, seen).Undecided? && (sse <==> ModeOf(naming, seen).Sse?)
      ensures r.Some? ==> tally == NOTHING && SseQuiet() && parts == [] && held == 0
      ensures |held0| <= 5
    {
      hide SseState, EventState, JsonState, EndState, SkipSpace, Sniff, HeadMode;
      var all := held0 + chunk;
      HeldSuffices(seen, chunk);
      seen := seen + chunk;
      held0 := [];
      var body := SkipSpace(all);
      assert body == Content(naming, seen);
      HeadDecides(body);
      if body == [] { return None; }
      var mode := HeadMode(if |body| < 6 then body else body[..6]);
      if mode == Undecided {
        held0 := body;
        return None;
      }
      sniffing := false;
      sse := mode == Sse;
      return Some(body);
    }

    /** Leading white space that was dropped earlier plays no part. */
    static lemma HeldSuffices(seen: seq<byte>, chunk: seq<byte>)
      ensures SkipSpace(SkipSpace(seen) + chunk) == SkipSpace(seen + chunk)
    {
      SkipSpaceConcat(seen, chunk);
      SkipSpaceConcat(SkipSpace(seen), chunk);
    }

    /** The mode the first six bytes (or fewer, when there are no more yet) point to. */
    static function HeadMode(head: seq<byte>): Mode {
      var isField := EVENT_FIELD <= head || DATA_FIELD <= head || ID_FIELD <= head || RETRY_FIELD <= head;
      var isComment := [COLON] <= head;
      var couldBe := isComment || isField
        || (|head| < 6 && (head <= EVENT_FIELD || head <= DATA_FIELD || head <= ID_FIELD || head <= RETRY_FIELD));
      if !isField && !isComment && couldBe then Undecided else if isField || isComment then Sse else JsonBody
    }

    /** Six bytes are enough to decide, and fewer than six are held. */
    static lemma HeadDecides(body: seq<byte>)
      ensures HeadMode(if |body| < 6 then body else body[..6]) == Sniff(body)
      ensures Sniff(body).Undecided? ==> |body| <= 5
      ensures body == [] ==> Sniff(body).Undecided?
    {
      var head := if |body| < 6 then body else body[..6];
      PrefixesOf(head, body, [COLON]);
      PrefixesOf(head, body, EVENT_FIELD);
      PrefixesOf(head, body, DATA_FIELD);
      PrefixesOf(head, body, ID_FIELD);
      PrefixesOf(head, body, RETRY_FIELD);
    }

    method WriteJson(chunk: seq<byte>)
      requires given.Streaming() && !sse && !sniffing && !ended && held0 == [] && ModeOf(naming, seen).JsonBody?
      requires |chunk| <= |Content(naming, seen)|
      requires var c := Content(naming, seen); var was := c[..|c| - |chunk|];
        && c == was + chunk
        && SseQuiet()
        && (tally.overflow <==> |was| > MAX_JSON_BYTES)
        && tally == NOTHING.(overflow := tally.overflow)
        && Flatten(parts) == (if tally.overflow then [] else was)
        && held == |Flatten(parts)|
      modifies this
      ensures Valid() && seen == old(seen) && !ended
    {
      hide Lines, Events, ApplyEvents, SkipSpace;
      if tally.overflow { return; }
      if held + |chunk| > MAX_JSON_BYTES {
        tally := tally.(overflow := true);
        parts, held := [], 0;
        return;
      }
      FlattenSnoc(parts, chunk);
      parts := parts + [chunk];
      held := held + |chunk|;
    }

    method WriteSse(chunk: seq<byte>)
      requires given.Streaming() && sse && !sniffing && !ended && held0 == [] && ModeOf(naming, seen).Sse?
      requires Content(naming, seen) == decoded + chunk
      requires text == given.emit(decoded) && base == NOTHING && skipLf == EndsCr(text)
      requires parts == [] && held == 0
      requires !SseState() ==> SseQuiet() && tally == NOTHING
      modifies this
      ensures Valid() && seen == old(seen) && !ended
    {
      hide SseState, EventState, JsonState, EndState, SkipSpace, Sniff;
      if !SseState() { EmptyText(); }
      var before := given.emit(decoded);
      var after := given.emit(decoded + chunk);
      assert decoded <= decoded + chunk;
      assert before <= after;
      decoded := decoded + chunk;
      FeedText(after[|before|..]);
      assert text == after;
    }

    /** Text of any length, cut anywhere. */
    method FeedText(s: string)
      requires SseState() && (s != "" ==> skipLf == EndsCr(text))
      modifies `text, `skipLf, `line, `lineTooLong, `data, `dataBytes, `eventTooBig, `tally
      ensures text == old(text) + s && SseState()
      ensures skipLf == if s == "" then old(skipLf) else EndsCr(text)
    {
      hide SseState, Lines, Events;
      var start := 0;
      ghost var fed := text;
      assert old(text) + s[..0] == old(text);
      for i := 0 to |s|
        invariant 0 <= start <= i && SseState()
        invariant fed == old(text) + s[..i] && fed == text + s[start..i]
        invariant NoBreak(s[start..i])
        invariant skipLf == if s == "" then old(skipLf) else EndsCr(fed)
      {
        var ch := s[i];
        assert start < i ==> !EndsCr(fed) by {
          if start < i { assert fed[|fed| - 1] == s[start..i][i - 1 - start]; }
        }
        assert s[..i + 1] == s[..i] + [ch];
        assert s[start..i + 1] == s[start..i] + [ch];
        fed := fed + [ch];
        if skipLf {
          skipLf := false;
          if ch == '\n' {
            SkipLf();
            start := i + 1;
            continue;
          }
        }
        if !IsBreak(ch) { continue; }
        AppendLine(s[start..i]);
        CloseLine(ch);
        if ch == '\r' { skipLf := true; }
        start := i + 1;
      }
      assert s[..|s|] == s && s[start..|s|] == s[start..];
      AppendLine(s[start..]);
    }

    /** The LF of a CR LF is already accounted for. */
    ghost method SkipLf()
      requires SseState() && EndsCr(text)
      modifies `text
      ensures text == old(text) + "\n" && SseState()
    {
      hide Lines, Events, ApplyEvents, EventState;
      LinesCrLf(text);
      text := text + "\n";
    }

    method AppendLine(s: string)
      requires SseState() && NoBreak(s)
      modifies `text, `line, `lineTooLong
      ensures text == old(text) + s && SseState()
    {
      hide Lines, Events, ApplyEvents, Dropped, Held, DataOf, Units;
      LinesExtend(text, s);
      ghost var ls := Lines(text);
      UnitsConcat(ls[|ls| - 1], s);
      assert ls[|ls| - 1] + "" == ls[|ls| - 1];
      ghost var after := Lines(text + s);
      assert after[..|after| - 1] == ls[..|ls| - 1];
      text := text + s;
      if s == "" || lineTooLong { return; }
      if Units(line) + Units(s) > MAX_EVENT_BYTES {
        lineTooLong := true;
        line := "";
        return;
      }
      line := line + s;
    }

    /** A line break: ends the line and opens the next. */
    method CloseLine(ghost ch: char)
      requires SseState() && IsBreak(ch) && !(ch == '\n' && EndsCr(text))
      modifies `text, `line, `lineTooLong, `data, `dataBytes, `eventTooBig, `tally
      ensures text == old(text) + [ch] && SseState()
    {
      hide EventState, Lines, Events, ApplyEvents, Dropped, Held, DataOf, Units, TooLong;
      EmptyFits();
      LinesBreak(text, ch);
      ghost var ls := Lines(text);
      ghost var after := Lines(text + [ch]);
      ghost var finished := ls[..|ls| - 1];
      ghost var last := ls[|ls| - 1];
      assert after[..|after| - 1] == ls && ls == finished + [last];
      ghost var evs := Events(finished);
      EventsSnoc(finished, last);
      ghost var grown := Events(ls);
      EndLine(evs[..|evs| - 1], evs[|evs| - 1], last);
      if last == "" {
        assert grown[..|grown| - 1] == evs;
        assert evs == evs[..|evs| - 1] + [evs[|evs| - 1]];
      } else {
        assert grown[..|grown| - 1] == evs[..|evs| - 1];
      }
      text := text + [ch];
    }

    /** The finished line either closes the event or joins it. */
    method EndLine(ghost done: seq<seq<string>>, ghost current: seq<string>, ghost last: string)
      requires (lineTooLong <==> TooLong(last)) && line == (if lineTooLong then "" else last)
      requires EventState(current)
      requires var d := ApplyEvents(style, given, base, done); tally == d.(overflow := d.overflow || eventTooBig)
      modifies `line, `lineTooLong, `data, `dataBytes, `eventTooBig, `tally
      ensures line == "" && !lineTooLong
      ensures last == "" ==> EventState([]) && tally == ApplyEvents(style, given, base, done + [current])
      ensures last == "" ==> data == [] && !eventTooBig && dataBytes == 0
      ensures last != "" ==> EventState(current + [last])
      ensures last != "" ==>
        var d := ApplyEvents(style, given, base, done); tally == d.(overflow := d.overflow || eventTooBig)
    {
      hide ApplyEvents, DataOf, Dropped, Held, Units, TooLong;
      EmptyFits();
      HeldSnoc(data, "");
      var l, tooLong := line, lineTooLong;
      line, lineTooLong := "", false;
      DataSnoc(current, last);
      if tooLong {
        eventTooBig := true;
        tally := tally.(overflow := true);
        return;
      }
      if l == "" {
        Dispatch(done, current);
        return;
      }
      if !("data:" <= l) { return; }
      var v := l[5..];
      if " " <= v { v := v[1..]; }
      dataBytes := dataBytes + Units(v) + 1;
      if dataBytes > MAX_EVENT_BYTES {
        eventTooBig := true;
        tally := tally.(overflow := true);
        data := [];
        return;
      }
      if !eventTooBig {
        HeldSnoc(data, v);
        data := data + [v];
      }
    }

    /** Ends the event: applied unless it was dropped, empty or the end mark. */
    method Dispatch(ghost done: seq<seq<string>>, ghost current: seq<string>)
      requires EventState(current)
      requires var d := ApplyEvents(style, given, base, done); tally == d.(overflow := d.overflow || eventTooBig)
      modifies `data, `dataBytes, `eventTooBig, `tally
      ensures EventState([]) && data == [] && dataBytes == 0 && !eventTooBig
      ensures tally == ApplyEvents(style, given, base, done + [current])
    {
      hide ApplyEvents, Apply, TooLong, Units, Join, IsData;
      ApplyEventsSnoc(style, given, base, done, current);
      var vs, skip := data, eventTooBig;
      data, dataBytes, eventTooBig := [], 0, false;
      assert DataOf([]) == [];
      if skip || vs == [] { return; }
      var joined := Join(vs);
      if joined == "[DONE]" { return; }
      tally := Apply(style, tally, given.parse(joined));
    }

    /** The counts; ends the body. Further calls change nothing. */
    method Result() returns (counts: Counts)
      requires Valid()
      modifies this
      ensures Valid() && ended && seen == old(seen)
      ensures tally == Report(style, given, naming, seen) && counts == tally.counts
      ensures sse == ModeOf(naming, seen).Sse?
      ensures old(ended) ==> tally == old(tally)
    {
      hide SseState, Lines, Events, ApplyEvents, SkipSpace, Sniff, Apply;
      if sse {
        FinishSse();
      } else if !tally.overflow && held > 0 && parts != [] {
        var buf := Flatten(parts);
        parts := [];
        tally := Apply(style, tally, given.parse(given.full(buf)));
      }
      ended := true;
      return tally.counts;
    }

    /** The decoder's last text, then the end of the text. A second time there is neither. */
    method FinishSse()
      requires Valid() && sse
      modifies `decoded, `text, `base, `skipLf, `line, `lineTooLong, `data, `dataBytes, `eventTooBig, `tally
      ensures EndState()
    {
      hide SseState, Lines, Events, ApplyEvents, EventState, JsonState, SkipSpace, Sniff, JsonTally;
      var rest := given.full(decoded)[|given.emit(decoded)|..];
      decoded := [];
      FeedText(rest);
      assert text == if ended then "" else given.full(Content(naming, seen));
      EndOfText();
      if ended { NoEventsInNothing(); }
      text, base := "", tally;
      EmptyText();
    }

    /** The unfinished line ends, then the unfinished event. */
    method EndOfText()
      requires SseState()
      modifies `line, `lineTooLong, `data, `dataBytes, `eventTooBig, `tally
      ensures line == "" && !lineTooLong && data == [] && dataBytes == 0 && !eventTooBig
      ensures tally == ApplyEvents(style, given, base, Events(Lines(text)))
    {
      hide Lines, Events, ApplyEvents, Dropped, Held, DataOf, Units, TooLong;
      EmptyFits();
      ghost var ls := Lines(text);
      ghost var finished, last := ls[..|ls| - 1], ls[|ls| - 1];
      assert ls == finished + [last];
      ghost var evs := Events(finished);
      ghost var done, current := evs[..|evs| - 1], evs[|evs| - 1];
      assert evs == done + [current];
      EventsSnoc(finished, last);
      EndLine(done, current, last);
      ghost var done', current' := if last == "" then evs else done, if last == "" then [] else current + [last];
      Dispatch(done', current');
      assert done' + [current'] == Events(ls);
    }

    lemma NoEventsInNothing()
      ensures ApplyEvents(style, given, base, Events(Lines(""))) == base
    {
      assert Lines("") == [""];
      assert [""][1..] == [] && Events([]) == [[]];
      assert Events([""]) == [[], []];
      var one: seq<seq<string>> := [[]];
      var two := Events([""]);
      assert two[..1] == one && one[..0] == [] && two[1] == [] && one[0] == [];
      ApplyEventsSnoc(style, given, base, one, []);
      ApplyEventsSnoc(style, given, base, [], []);
      EmptyEventIsNothing(style, given, base);
    }

    method GetStatus() returns (s: Status)
      requires Valid()
      modifies this
      ensures Valid() && ended && seen == old(seen)
      ensures s == StatusOf(Report(style, given, naming, seen))
      // Overflow wins over usage found, and usage found over a part that was not valid.
      ensures s.Overflow? <==> tally.overflow
      ensures s.StatusOk? <==> tally.found && !tally.overflow
      ensures s.Unparseable? <==> tally.bad && !tally.found && !tally.overflow
      ensures old(ended) ==> tally == old(tally)
    {
      var _ := Result();
      return StatusOf(tally);
    }

    /** Bounded memory: what is held never depends on how long the body is. */
    lemma Bounded()
      requires Valid() && !ended
      ensures |held0| <= 5
      ensures Units(line) <= MAX_EVENT_BYTES
      ensures Held(data) <= MAX_EVENT_BYTES
      ensures held == |Flatten(parts)| <= MAX_JSON_BYTES
    {
      if sniffing { HeadDecides(held0); }
    }
  }

  /** A response observed in any chunks: the report is that of the whole body. */
  method Observe(style: Style, given: Given, eventStream: bool, json: bool, chunks: seq<seq<byte>>)
    returns (isSse: bool, report: Tally, status: Status)
    requires given.Streaming()
    ensures var n := NamingOf(eventStream, json); var body := Flatten(chunks);
      isSse == ModeOf(n, body).Sse? && report == Report(style, given, n, body)
    // Overflow wins over usage found, and usage found over a part that was not valid.
    ensures status.Overflow? <==> report.overflow
    ensures status.StatusOk? <==> report.found && !report.overflow
    ensures status.Unparseable? <==> report.bad && !report.found && !report.overflow
  {
    hide Tap.Valid, Report;
    var tap := new Tap(style, given, eventStream, json);
    for i := 0 to |chunks|
      invariant tap.Valid() && !tap.ended
      invariant tap.style == style && tap.given == given && tap.naming == NamingOf(eventStream, json)
      invariant tap.seen == Flatten(chunks[..i])
      invariant fresh(tap)
    {
      assert chunks[..i + 1] == chunks[..i] + [chunks[i]];
      FlattenSnoc(chunks[..i], chunks[i]);
      tap.Write(chunks[i]);
    }
    assert chunks[..|chunks|] == chunks;
    var _ := tap.Result();
    isSse, report := tap.sse, tap.tally;
    status := tap.GetStatus();
  }

  /** Two cuttings of one response: the same mode, counts, flags and status. */
  method ObserveTwice(style: Style, given: Given, eventStream: bool, json: bool, a: seq<seq<byte>>, b: seq<seq<byte>>)
    returns (first: (bool, Tally, Status), second: (bool, Tally, Status))
    requires given.Streaming() && Flatten(a) == Flatten(b)
    ensures first == second
  {
    hide Report, ModeOf, Flatten;
    var s, r, t := Observe(style, given, eventStream, json, a);
    first := (s, r, t);
    s, r, t := Observe(style, given, eventStream, json, b);
    second := (s, r, t);
  }
}
