/** src/cli/live.ts: redrawing a frame in place on a terminal. */
module LiveRender {
  const ESC: char := '\U{001B}'
  const ELLIPSIS: char := '\U{2026}'
  const RESET: string := [ESC, '[', '0', 'm']

  // ---------- Colour escapes and visible text ----------

  predicate IsParam(c: char) { ('0' <= c <= '9') || c == ';' }

  function Params(s: string): (n: nat)
    ensures n <= |s| && (forall i :: 0 <= i < n ==> IsParam(s[i])) && (n < |s| ==> !IsParam(s[n]))
  {
    if s == "" || !IsParam(s[0]) then 0 else 1 + Params(s[1..])
  }

  /** The length of the control sequence `s` starts with; 0 when it starts with none. */
  function ControlLen(s: string): (n: nat)
    ensures n <= |s| && (n > 0 ==> n >= 3)
  {
    if |s| >= 2 && s[0] == ESC && s[1] == '[' then
      var n := Params(s[2..]);
      if 2 + n < |s| then n + 3 else 0
    else 0
  }

  /** The length of the colour escape `s` starts with; 0 when it starts with none. */
  function EscapeLen(s: string): (n: nat)
    ensures n <= |s|
  {
    var n := ControlLen(s);
    if n > 0 && s[n - 1] == 'm' then n else 0
  }

  /** The text a line shows: everything but colour escapes. */
  function Visible(s: string): string
    decreases |s|
  {
    if s == "" then ""
    else
      var n := EscapeLen(s);
      if n > 0 then Visible(s[n..]) else [s[0]] + Visible(s[1..])
  }

  /** The longest start of `s` with `room` visible characters, escapes kept whole. */
  function Keep(s: string, room: nat): string
    decreases |s|
  {
    if s == "" then ""
    else
      var n := EscapeLen(s);
      if n > 0 then s[..n] + Keep(s[n..], room)
      else if room == 0 then ""
      else [s[0]] + Keep(s[1..], room - 1)
  }

  const TAIL: string := [ELLIPSIS] + RESET

  /** Cutting a line (between escapes) and ending it with an ellipsis neither makes nor breaks an escape. */
  lemma EscapeOfCut(s: string, p: string)
    requires p <= s && (EscapeLen(s) > 0 ==> |p| >= EscapeLen(s))
    ensures EscapeLen(p + TAIL) == EscapeLen(s)
  {
    var t := p + TAIL;
    assert p == s[..|p|];
    if |p| < 2 {
      assert t[|p|] == ELLIPSIS;
    } else if p[0] == ESC && p[1] == '[' {
      assert s[0] == p[0] && s[1] == p[1];
      assert t[2..] == p[2..] + TAIL && s[2..][..|p| - 2] == p[2..];
      ParamsOfCut(s[2..], p[2..]);
      var n := Params(s[2..]);
      if 2 + n < |p| {
        assert t[2 + n] == p[2 + n] == s[2 + n];
      } else {
        assert t[|p|] == ELLIPSIS;
      }
    } else {
      assert s[0] == p[0] == t[0] && s[1] == p[1] == t[1];
    }
  }

  lemma {:induction false} ParamsOfCut(s: string, p: string)
    requires p <= s
    ensures Params(p + TAIL) == if Params(s) <= |p| then Params(s) else |p|
  {
    var t := p + TAIL;
    if p == "" {
      assert t == TAIL && !IsParam(t[0]);
    } else {
      assert p == s[..|p|];
      if IsParam(p[0]) {
        assert t[1..] == p[1..] + TAIL;
        ParamsOfCut(s[1..], p[1..]);
      }
    }
  }

  predicate Printable(c: char) { ' ' <= c && c != '\U{007F}' }

  predicate AllPrintable(s: string) { forall i :: 0 <= i < |s| ==> Printable(s[i]) }

  /** A three-letter colour code followed by `rest` is an escape of length four. */
  lemma CodeThen(digit: char, rest: string)
    requires IsParam(digit)
    ensures EscapeLen([ESC, '[', digit, 'm'] + rest) == 4
  {
    var s := [ESC, '[', digit, 'm'] + rest;
    assert s[2..] == [digit, 'm'] + rest;
    assert s[2..][1..] == ['m'] + rest;
    assert Params(s[2..][1..]) == 0;
  }

  lemma {:induction false} PlainThenReset(text: string)
    requires AllPrintable(text)
    ensures Visible(text + RESET) == text
  {
    var s := text + RESET;
    if text == "" {
      CodeThen('0', "");
      assert s == RESET == RESET + "" && RESET[4..] == "";
    } else {
      assert s[0] == text[0] != ESC;
      assert s[1..] == text[1..] + RESET;
      PlainThenReset(text[1..]);
    }
  }

  lemma PrefixOfRest(s: string, n: nat, p: string)
    requires n <= |s| && p <= s[n..]
    ensures s[..n] + p <= s
  {
    assert p == s[n..][..|p|];
    assert s[..n] + p == s[..n + |p|];
  }

  lemma {:induction false} KeepIsPrefix(s: string, room: nat)
    ensures Keep(s, room) <= s
    decreases |s|
  {
    hide EscapeLen;
    if s != "" {
      var n := EscapeLen(s);
      if n > 0 {
        KeepIsPrefix(s[n..], room);
        PrefixOfRest(s, n, Keep(s[n..], room));
      } else if room > 0 {
        KeepIsPrefix(s[1..], room - 1);
        assert s[..1] == [s[0]];
        PrefixOfRest(s, 1, Keep(s[1..], room - 1));
      }
    }
  }

  lemma VisibleStep(s: string)
    requires s != ""
    ensures Visible(s) == if EscapeLen(s) > 0 then Visible(s[EscapeLen(s)..]) else [s[0]] + Visible(s[1..])
  {}

  /** An escape in front of a cut shows nothing. */
  lemma CutBehindEscape(s: string, p: string)
    requires EscapeLen(s) > 0 && p <= s[EscapeLen(s)..]
    ensures Visible(s[..EscapeLen(s)] + p + TAIL) == Visible(p + TAIL)
  {
    hide EscapeLen, Visible;
    var n := EscapeLen(s);
    var t := s[..n] + p + TAIL;
    PrefixOfRest(s, n, p);
    EscapeOfCut(s, s[..n] + p);
    VisibleStep(t);
    assert t[n..] == p + TAIL;
  }

  /** A character in front of a cut shows. */
  lemma CutBehindCharacter(s: string, p: string)
    requires s != "" && EscapeLen(s) == 0 && p <= s[1..]
    ensures Visible([s[0]] + p + TAIL) == [s[0]] + Visible(p + TAIL)
  {
    hide EscapeLen, Visible;
    var t := [s[0]] + p + TAIL;
    assert s[..1] == [s[0]];
    PrefixOfRest(s, 1, p);
    EscapeOfCut(s, [s[0]] + p);
    VisibleStep(t);
    assert t[1..] == p + TAIL;
  }

  lemma CutAtOnce()
    ensures Visible("" + TAIL) == [ELLIPSIS]
  {
    PlainThenReset([ELLIPSIS]);
    assert "" + TAIL == [ELLIPSIS] + RESET;
  }

  lemma {:induction false} VisibleOfKeep(s: string, room: nat)
    requires room <= |Visible(s)|
    ensures Visible(Keep(s, room) + TAIL) == Visible(s)[..room] + [ELLIPSIS]
    decreases |s|
  {
    hide EscapeLen;
    CutAtOnce();
    if s != "" {
      var n := EscapeLen(s);
      if n > 0 {
        VisibleOfKeep(s[n..], room);
        KeepIsPrefix(s[n..], room);
        CutBehindEscape(s, Keep(s[n..], room));
      } else if room > 0 {
        VisibleOfKeep(s[1..], room - 1);
        KeepIsPrefix(s[1..], room - 1);
        CutBehindCharacter(s, Keep(s[1..], room - 1));
        assert Visible(s)[..room] == [s[0]] + Visible(s[1..])[..room - 1];
      }
    }
  }

  /** One step of `Keep` at position `i`. */
  lemma KeepStep(s: string, i: nat, room: nat)
    requires i < |s|
    ensures var n := EscapeLen(s[i..]);
      Keep(s[i..], room) ==
        if n > 0 then s[i..][..n] + Keep(s[i + n..], room)
        else if room == 0 then ""
        else [s[i]] + Keep(s[i + 1..], room - 1)
  {
    var n := EscapeLen(s[i..]);
    assert s[i..][n..] == s[i + n..];
    assert s[i..][1..] == s[i + 1..];
  }

  /** `cut` shows `line`, or its start and an ellipsis when it is too wide. */
  ghost predicate CutTo(line: string, cut: string, width: nat) {
    if |Visible(line)| <= width then cut == line
    else width >= 1 && Visible(cut) == Visible(line)[..width - 1] + [ELLIPSIS]
  }

  lemma CutIsNarrow(line: string, cut: string, width: nat)
    requires CutTo(line, cut, width) && AllPrintable(Visible(line))
    ensures AllPrintable(Visible(cut)) && |Visible(cut)| <= width
  {}

  /** At most `maxWidth` visible columns: the line itself when it fits, else its start, an ellipsis and a reset. */
  method TruncateToWidth(line: string, maxWidth: nat) returns (out: string)
    requires maxWidth >= 1
    ensures CutTo(line, out, maxWidth) && |Visible(out)| <= maxWidth
    // A cut line keeps its escapes whole and ends in a full reset.
    ensures |Visible(line)| > maxWidth ==> out == Keep(line, maxWidth - 1) + TAIL && Keep(line, maxWidth - 1) <= line
  {
    hide EscapeLen, Visible, Keep, AllPrintable;
    if |Visible(line)| <= maxWidth { return line; }
    VisibleOfKeep(line, maxWidth - 1);
    KeepIsPrefix(line, maxWidth - 1);
    var visible, i := 0, 0;
    out := "";
    assert line[0..] == line;
    while i < |line|
      invariant 0 <= i <= |line| && visible <= maxWidth - 1
      invariant Keep(line, maxWidth - 1) == out + Keep(line[i..], maxWidth - 1 - visible)
      decreases |line| - i
    {
      var rest := line[i..];
      var n := EscapeLen(rest);
      KeepStep(line, i, maxWidth - 1 - visible);
      if n > 0 {
        Assoc(out, rest[..n], Keep(line[i + n..], maxWidth - 1 - visible));
        out := out + rest[..n];
        i := i + n;
        continue;
      }
      if visible >= maxWidth - 1 { break; }
      Assoc(out, [line[i]], Keep(line[i + 1..], maxWidth - 2 - visible));
      out := out + [line[i]];
      visible := visible + 1;
      i := i + 1;
    }
    if i == |line| { KeepNothing(line[i..], maxWidth - 1 - visible); }
    assert out + "" == out;
    Assoc(out, [ELLIPSIS], RESET);
    out := out + [ELLIPSIS] + RESET;
  }

  lemma KeepNothing(s: string, room: nat)
    requires s == ""
    ensures Keep(s, room) == ""
  {}

  lemma Assoc(a: string, b: string, c: string)
    ensures a + (b + c) == (a + b) + c
  {}

  // ---------- The terminal ----------

  /** Every row ever written, the first row on screen, and the cursor. `col == width` is a wrap put off until the
      next character. */
  datatype Terminal = Terminal(width: nat, height: nat, rows: seq<string>, top: nat, row: nat, col: nat) {
    predicate Ok() {
      width >= 1 && height >= 1 && row < |rows| && col <= width && top <= row < top + height
    }

    /** Carriage return and line feed; the screen scrolls at its bottom row. */
    function NewLine(): (t: Terminal)
      requires Ok()
      ensures t.Ok()
    {
      var r := row + 1;
      this.(rows := if r < |rows| then rows else rows + [""], row := r, col := 0,
            top := if r < top + height then top else top + 1)
    }

    /** One printable character; written cells to its left exist. */
    function Put(c: char): (t: Terminal)
      requires Ok() && Printable(c)
      ensures t.Ok()
    {
      var t := if col == width then NewLine() else this;
      t.(rows := t.rows[t.row := Overwrite(t.rows[t.row], t.col, c)], col := t.col + 1)
    }

    static function Overwrite(s: string, col: nat, c: char): string {
      if col < |s| then s[col := c] else s + seq(col - |s|, _ => ' ') + [c]
    }

    /** CUU, section 8.3.22 of ECMA-48: it stops at the first row of the screen. */
    function Up(n: nat): (t: Terminal)
      requires Ok()
      ensures t.Ok()
    {
      this.(row := if row - n >= top then row - n else top, col := if col == width then width - 1 else col)
    }

    /** ED, section 8.3.39 of ECMA-48: from the cursor to the end of the screen. */
    function EraseDown(): (t: Terminal)
      requires Ok()
      ensures t.Ok()
    {
      this.(rows := rows[..row] + [if col < |rows[row]| then rows[row][..col] else rows[row]])
    }
  }

  function PutAll(t: Terminal, s: string): (r: Terminal)
    requires t.Ok() && AllPrintable(s)
    ensures r.Ok()
    decreases |s|
  {
    if s == "" then t else PutAll(t.Put(s[0]), s[1..])
  }

  /** A line of text: its escapes take no column. */
  function WriteLines(t: Terminal, lines: seq<string>): (r: Terminal)
    requires t.Ok() && forall i :: 0 <= i < |lines| ==> AllPrintable(Visible(lines[i]))
    ensures r.Ok()
    decreases |lines|
  {
    if lines == [] then t else WriteLines(PutAll(t, Visible(lines[0])).NewLine(), lines[1..])
  }

  // ---------- What a terminal does with text ----------

  predicate IsDigit(c: char) { '0' <= c <= '9' }

  function Number(s: string): nat {
    if s == "" then 0
    else 10 * Number(s[..|s| - 1]) + if IsDigit(s[|s| - 1]) then (s[|s| - 1] - '0') as nat else 0
  }

  /** CUU counts 1 when it is given no number; ED is modelled without a parameter only. */
  function Control(t: Terminal, params: string, final: char): (r: Terminal)
    requires t.Ok()
    ensures r.Ok()
  {
    if final == 'A' then t.Up(if Number(params) == 0 then 1 else Number(params))
    else if final == 'J' && params == "" then t.EraseDown()
    else t
  }

  function Typed(t: Terminal, c: char): (r: Terminal)
    requires t.Ok()
    ensures r.Ok()
  {
    if c == '\n' then t.NewLine() else if Printable(c) then t.Put(c) else t
  }

  function Feed(t: Terminal, s: string): (r: Terminal)
    requires t.Ok()
    ensures r.Ok()
    decreases |s|
  {
    if s == "" then t
    else
      var n := ControlLen(s);
      if n > 0 then Feed(Control(t, s[2..n - 1], s[n - 1]), s[n..]) else Feed(Typed(t, s[0]), s[1..])
  }

  function Decimal(n: nat): (s: string)
    ensures s != "" && (forall i :: 0 <= i < |s| ==> IsDigit(s[i])) && Number(s) == n
  {
    var d := ['0' + (n % 10) as char];
    if n < 10 then
      assert d[..0] == "";
      d
    else
      var s := Decimal(n / 10) + d;
      assert s[..|s| - 1] == Decimal(n / 10);
      s
  }

  const CLEAR_DOWN: string := [ESC, '[', 'J']

  function MoveUpAndClear(lineCount: nat): string {
    if lineCount > 0 then [ESC, '['] + Decimal(lineCount) + ['A'] + CLEAR_DOWN else ""
  }

  function Cleared(t: Terminal, lineCount: nat): (r: Terminal)
    requires t.Ok()
    ensures r.Ok()
  {
    if lineCount > 0 then t.Up(lineCount).EraseDown() else t
  }

  /** Parameters followed by something else are read whole. */
  lemma {:induction false} ParamsThen(p: string, rest: string)
    requires (forall i :: 0 <= i < |p| ==> IsParam(p[i])) && rest != "" && !IsParam(rest[0])
    ensures Params(p + rest) == |p|
    decreases |p|
  {
    if p == "" {
      assert p + rest == rest;
    } else {
      assert (p + rest)[1..] == p[1..] + rest;
      ParamsThen(p[1..], rest);
    }
  }

  lemma FeedControl(t: Terminal, params: string, final: char, rest: string)
    requires t.Ok() && (forall i :: 0 <= i < |params| ==> IsParam(params[i])) && !IsParam(final)
    ensures Feed(t, [ESC, '['] + params + [final] + rest) == Feed(Control(t, params, final), rest)
  {
    var s := [ESC, '['] + params + [final] + rest;
    assert s[2..] == params + ([final] + rest);
    ParamsThen(params, [final] + rest);
    assert ControlLen(s) == |params| + 3;
    assert s[2..|params| + 2] == params && s[|params| + 3..] == rest;
  }

  /** The redraw prefix moves the cursor up by the number it spells and clears what is below. */
  lemma FeedMoveUpAndClear(t: Terminal, lineCount: nat, rest: string)
    requires t.Ok()
    ensures Feed(t, MoveUpAndClear(lineCount) + rest) == Feed(Cleared(t, lineCount), rest)
  {
    hide Feed, ControlLen, Decimal, Number;
    if lineCount == 0 {
      assert "" + rest == rest;
    } else {
      var up := t.Up(lineCount);
      FeedControl(t, Decimal(lineCount), 'A', CLEAR_DOWN + rest);
      FeedControl(up, "", 'J', rest);
      assert [ESC, '['] + "" + ['J'] + rest == CLEAR_DOWN + rest;
      Assoc([ESC, '['] + Decimal(lineCount) + ['A'], CLEAR_DOWN, rest);
    }
  }

  /** A line whose visible text is printable: its escapes take no column, then the next row begins. */
  lemma {:induction false} FeedLine(t: Terminal, line: string, rest: string)
    requires t.Ok() && AllPrintable(Visible(line))
    ensures Feed(t, line + ['\n'] + rest) == Feed(PutAll(t, Visible(line)).NewLine(), rest)
    decreases |line|
  {
    var s := line + ['\n'] + rest;
    if line == "" {
      assert s[1..] == rest;
    } else {
      var n := EscapeLen(line);
      if n > 0 {
        var params := line[2..n - 1];
        assert s == [ESC, '['] + params + ['m'] + (line[n..] + ['\n'] + rest);
        FeedControl(t, params, 'm', line[n..] + ['\n'] + rest);
        FeedLine(t, line[n..], rest);
      } else {
        assert Visible(line)[0] == line[0] && Visible(line)[1..] == Visible(line[1..]);
        assert s[1..] == line[1..] + ['\n'] + rest;
        FeedLine(t.Put(line[0]), line[1..], rest);
      }
    }
  }

  /** The lines joined by line feeds, and one more. */
  function Body(lines: seq<string>): string
    requires lines != []
  {
    lines[0] + ['\n'] + if |lines| == 1 then "" else Body(lines[1..])
  }

  lemma {:induction false} FeedBody(t: Terminal, lines: seq<string>)
    requires t.Ok() && lines != [] && forall i :: 0 <= i < |lines| ==> AllPrintable(Visible(lines[i]))
    ensures Feed(t, Body(lines)) == WriteLines(t, lines)
    decreases |lines|
  {
    hide Visible, AllPrintable, PutAll;
    var next := PutAll(t, Visible(lines[0])).NewLine();
    if |lines| == 1 {
      FeedLine(t, lines[0], "");
      assert WriteLines(next, lines[1..]) == next;
    } else {
      FeedLine(t, lines[0], Body(lines[1..]));
      FeedBody(next, lines[1..]);
    }
  }

  /** The screen ends with exactly `frame` below `above`, the cursor at the start of the row after it. */
  ghost predicate Shows(t: Terminal, above: seq<string>, frame: seq<string>) {
    && t.Ok() && t.height >= 2
    && t.rows == above + frame + [""]
    && t.row == |above| + |frame| && t.col == 0
    && t.top <= |above|
  }

  lemma {:induction false} PutAllShort(t: Terminal, above: seq<string>, p: string, s: string)
    requires t.Ok() && AllPrintable(s) && |p| + |s| <= t.width
    requires t.rows == above + [p] && t.row == |above| && t.col == |p|
    ensures PutAll(t, s) == t.(rows := above + [p + s], col := |p| + |s|)
    decreases |s|
  {
    if s == "" {
      assert p + s == p;
    } else {
      var t' := t.Put(s[0]);
      assert t.rows[t.row] == p;
      assert p + seq(0, _ => ' ') + [s[0]] == p + [s[0]];
      assert t'.rows == above + [p + [s[0]]];
      PutAllShort(t', above, p + [s[0]], s[1..]);
      assert p + [s[0]] + s[1..] == p + s;
    }
  }

  function Shown(lines: seq<string>): seq<string> {
    seq(|lines|, i requires 0 <= i < |lines| => Visible(lines[i]))
  }

  predicate Narrow(lines: seq<string>, width: nat) {
    forall i :: 0 <= i < |lines| ==> AllPrintable(Visible(lines[i])) && |Visible(lines[i])| <= width
  }

  /** Lines no wider than the screen take one row each, and the screen scrolls only as far as they need. */
  lemma {:induction false} WriteLinesShows(t: Terminal, above: seq<string>, frame: seq<string>, lines: seq<string>)
    requires Shows(t, above, frame) && Narrow(lines, t.width) && |frame| + |lines| < t.height
    ensures Shows(WriteLines(t, lines), above, frame + Shown(lines))
    ensures WriteLines(t, lines).width == t.width && WriteLines(t, lines).height == t.height
    decreases |lines|
  {
    hide Visible, AllPrintable, PutAll;
    if lines == [] {
      assert frame + Shown(lines) == frame;
    } else {
      var s := Visible(lines[0]);
      PutAllShort(t, above + frame, "", s);
      assert "" + s == s;
      var t' := PutAll(t, s).NewLine();
      assert t'.rows == above + (frame + [s]) + [""];
      WriteLinesShows(t', above, frame + [s], lines[1..]);
      assert Shown(lines) == [s] + Shown(lines[1..]);
      assert frame + [s] + Shown(lines[1..]) == frame + ([s] + Shown(lines[1..]));
    }
  }

  /** Going up by the frame's height and clearing removes the frame and nothing above it. */
  lemma ClearShows(t: Terminal, above: seq<string>, frame: seq<string>)
    requires Shows(t, above, frame)
    ensures Shows(Cleared(t, |frame|), above, [])
    ensures Cleared(t, |frame|).width == t.width && Cleared(t, |frame|).height == t.height
  {
    if frame == [] {
      assert above + [] + [""] == above + [""];
    } else {
      assert t.rows[..|above|] == above;
      assert above + [] + [""] == above + [""];
    }
  }

  // ---------- The live region ----------

  const DIM: string := [ESC, '[', '2', 'm']

  function MarkerText(omitted: nat): (s: string)
    ensures AllPrintable(s)
  {
    var before := [ELLIPSIS] + " +";
    var lines, option, purpose := " more lines (use ", "--tool=<tool>", " to narrow the report)";
    assert AllPrintable(lines) && AllPrintable(option) && AllPrintable(purpose);
    before + Decimal(omitted) + (lines + option + purpose)
  }

  function Marker(omitted: nat): string {
    DIM + MarkerText(omitted) + RESET
  }

  lemma MarkerShown(omitted: nat)
    ensures Visible(Marker(omitted)) == MarkerText(omitted)
  {
    var text := MarkerText(omitted);
    CodeThen('2', text + RESET);
    assert Marker(omitted) == DIM + (text + RESET);
    assert Marker(omitted)[4..] == text + RESET;
    PlainThenReset(text);
  }

  /** `lines` is what is drawn for `rendered`: every line cut to the width, at most `height - 1` of them, and for the
      lines withheld a marker with their number. */
  ghost predicate Clamped(rendered: seq<string>, lines: seq<string>, width: nat, height: nat)
    requires height >= 2
  {
    && Narrow(lines, width)
    && if |rendered| <= height - 1 then
         |lines| == |rendered| && forall i :: 0 <= i < |lines| ==> CutTo(rendered[i], lines[i], width)
       else
         && |lines| == height - 1
         && (forall i :: 0 <= i < height - 2 ==> CutTo(rendered[i], lines[i], width))
         && CutTo(Marker(|rendered| - (height - 2)), lines[height - 2], width)
  }

  class Live {
    const width: nat
    const height: nat
    var term: Terminal
    var previousLineCount: nat
    /** What stood above when the region began, and the frame now shown. */
    ghost const above: seq<string>
    ghost var frame: seq<string>

    ghost predicate Valid()
      reads this
    {
      && width >= 1 && term.width == width && term.height == height
      && Shows(term, above, frame)
      && previousLineCount == |frame| <= height - 1
    }

    constructor (term: Terminal, ghost above: seq<string>)
      requires Shows(term, above, []) && term.width >= 1
      ensures Valid() && frame == [] && this.above == above && this.term == term
    {
      width, height, this.term, previousLineCount := term.width, term.height, term, 0;
      this.above, frame := above, [];
    }

    /** Every line cut to the width. */
    method CutLines(rendered: seq<string>) returns (lines: seq<string>)
      requires width >= 1 && forall i :: 0 <= i < |rendered| ==> AllPrintable(Visible(rendered[i]))
      ensures |lines| == |rendered| && Narrow(lines, width)
      ensures forall i :: 0 <= i < |lines| ==> CutTo(rendered[i], lines[i], width)
    {
      hide Visible, AllPrintable;
      lines := [];
      for i := 0 to |rendered|
        invariant |lines| == i && Narrow(lines, width)
        invariant forall k :: 0 <= k < i ==> CutTo(rendered[k], lines[k], width)
      {
        var l := TruncateToWidth(rendered[i], width);
        CutIsNarrow(rendered[i], l, width);
        lines := lines + [l];
      }
    }

    /** The frame as it is drawn: every line cut to the width, at most `height - 1` lines, a marker for the rest. */
    method Clamp(rendered: seq<string>) returns (lines: seq<string>)
      requires width >= 1 && height >= 2 && forall i :: 0 <= i < |rendered| ==> AllPrintable(Visible(rendered[i]))
      ensures Clamped(rendered, lines, width, height)
    {
      hide Visible, AllPrintable, Marker, MarkerText, CutTo;
      var maxLines := height - 1;
      lines := CutLines(rendered);
      if |lines| > maxLines {
        var kept := maxLines - 1;
        var omitted := |lines| - kept;
        lines := lines[..kept];
        MarkerShown(omitted);
        var marker := TruncateToWidth(Marker(omitted), width);
        CutIsNarrow(Marker(omitted), marker, width);
        lines := lines + [marker];
      }
    }

    /** One redraw: the old frame gives way to the new one, whatever their heights; nothing above changes. */
    method Draw(rendered: seq<string>) returns (lines: seq<string>)
      requires Valid() && rendered != [] && forall i :: 0 <= i < |rendered| ==> AllPrintable(Visible(rendered[i]))
      modifies this
      ensures Valid() && frame == Shown(lines)
      ensures Clamped(rendered, lines, width, height)
    {
      hide Feed, WriteLines, MoveUpAndClear, Cleared, Body, CutTo, Visible, AllPrintable;
      lines := Clamp(rendered);
      ClearShows(term, above, frame);
      ghost var cleared := Cleared(term, previousLineCount);
      WriteLinesShows(cleared, above, [], lines);
      assert [] + Shown(lines) == Shown(lines);
      FeedMoveUpAndClear(term, previousLineCount, Body(lines));
      FeedBody(cleared, lines);
      term := Feed(term, MoveUpAndClear(previousLineCount) + Body(lines));
      previousLineCount := |lines|;
      frame := Shown(lines);
    }

    /** `eraseOnFinish`: the region is gone and the cursor is where it began. */
    method Erase()
      requires Valid()
      modifies this
      ensures Valid() && frame == [] && term.rows == above + [""] && term.row == |above|
    {
      ClearShows(term, above, frame);
      FeedMoveUpAndClear(term, previousLineCount, "");
      assert MoveUpAndClear(previousLineCount) + "" == MoveUpAndClear(previousLineCount);
      term := Feed(term, MoveUpAndClear(previousLineCount));
      previousLineCount, frame := 0, [];
      assert above + [] == above;
    }
  }

  /** Any sequence of frames, of any height and width: the last one is what the screen ends with. */
  method Animate(term: Terminal, ghost above: seq<string>, frames: seq<seq<string>>)
    returns (end: Terminal, last: seq<string>)
    requires Shows(term, above, []) && term.width >= 1 && frames != []
    requires forall f :: 0 <= f < |frames| ==> frames[f] != []
    requires forall f, i :: 0 <= f < |frames| && 0 <= i < |frames[f]| ==> AllPrintable(Visible(frames[f][i]))
    ensures Shows(end, above, Shown(last)) && Clamped(frames[|frames| - 1], last, term.width, term.height)
  {
    var live := new Live(term, above);
    last := [];
    for f := 0 to |frames|
      invariant live.Valid() && fresh(live) && live.above == above
      invariant live.width == term.width && live.height == term.height
      invariant live.frame == Shown(last) && (f > 0 ==> Clamped(frames[f - 1], last, term.width, term.height))
    {
      last := live.Draw(frames[f]);
    }
    end := live.term;
  }
}
