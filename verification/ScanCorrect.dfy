/** What `scanModel` accepts and answers, on all byte strings and on all well-formed JSON objects. */
module ScanCorrect {
  import opened Streams
  import opened JsonText
  import opened ScanModel

  // ---------- Reading forward over the grammar ----------

  lemma {:induction false} WsThen(ws: seq<byte>, rest: seq<byte>)
    requires AllWs(ws) && (rest != [] ==> !IsWs(rest[0]))
    ensures SkipWs(ws + rest) == rest
  {
    if ws == [] {
      assert ws + rest == rest;
    } else {
      assert (ws + rest)[1..] == ws[1..] + rest;
      WsThen(ws[1..], rest);
    }
  }

  lemma {:induction false} StrThen(body: seq<byte>, rest: seq<byte>)
    requires CoarseStr(body)
    ensures StrTail(body + [QUOTE] + rest) == Some(rest)
  {
    var s := body + [QUOTE] + rest;
    if body == [] {
      assert s[1..] == rest;
    } else if body[0] == BACKSLASH {
      assert s[2..] == body[2..] + [QUOTE] + rest;
      StrThen(body[2..], rest);
    } else {
      assert s[1..] == body[1..] + [QUOTE] + rest;
      StrThen(body[1..], rest);
    }
  }

  /** A plain byte is passed over. */
  lemma ByteThen(b: byte, after: seq<byte>, stack: seq<byte>)
    requires b != QUOTE && !IsBracket(b)
    ensures Nested([b] + after, stack) == Nested(after, stack)
  {
    assert ([b] + after)[1..] == after;
  }

  /** So is a string, brackets in it included. */
  lemma QuotedThen(body: seq<byte>, after: seq<byte>, stack: seq<byte>)
    requires CoarseStr(body)
    ensures Nested(Quoted(body) + after, stack) == Nested(after, stack)
  {
    hide StrTail, CoarseStr;
    assert (Quoted(body) + after)[1..] == body + [QUOTE] + after;
    StrThen(body, after);
  }

  lemma OpenThen(curly: bool, after: seq<byte>, stack: seq<byte>)
    ensures Nested([Open(curly)] + after, stack) == Nested(after, stack + [Close(curly)])
  {
    assert ([Open(curly)] + after)[1..] == after;
  }

  /** A closer that is owed pays what the last opener asked. */
  lemma CloseThen(curly: bool, after: seq<byte>, stack: seq<byte>)
    requires stack != []
    ensures Nested([Close(curly)] + after, stack + [Close(curly)]) == Nested(after, stack)
  {
    assert ([Close(curly)] + after)[1..] == after;
    assert (stack + [Close(curly)])[..|stack|] == stack;
  }

  /** The bracket stack skips a run: the same stack is left, whatever is nested inside. */
  lemma {:induction false} RunThen(r: Run, rest: seq<byte>, stack: seq<byte>)
    requires RunOk(r) && stack != []
    ensures Nested(RunBytes(r) + rest, stack) == Nested(rest, stack)
  {
    hide Nested, CoarseStr;
    var s := RunBytes(r) + rest;
    match r
    case REnd => assert s == rest;
    case RByte(b, tail) =>
      assert s == [b] + (RunBytes(tail) + rest);
      ByteThen(b, RunBytes(tail) + rest, stack);
      RunThen(tail, rest, stack);
    case RStr(body, tail) =>
      assert s == Quoted(body) + (RunBytes(tail) + rest);
      QuotedThen(body, RunBytes(tail) + rest, stack);
      RunThen(tail, rest, stack);
    case RGroup(curly, inner, tail) =>
      var after := [Close(curly)] + (RunBytes(tail) + rest);
      assert s == [Open(curly)] + (RunBytes(inner) + after);
      OpenThen(curly, RunBytes(inner) + after, stack);
      RunThen(inner, after, stack + [Close(curly)]);
      CloseThen(curly, RunBytes(tail) + rest, stack);
      RunThen(tail, rest, stack);
  }

  /** From an opening bracket with an empty stack, exactly the bracketed value is skipped. */
  lemma GroupThen(curly: bool, inner: Run, rest: seq<byte>)
    requires RunOk(inner)
    ensures Nested([Open(curly)] + RunBytes(inner) + [Close(curly)] + rest, []) == Some(rest)
  {
    var after := [Close(curly)] + rest;
    var s := [Open(curly)] + RunBytes(inner) + [Close(curly)] + rest;
    assert s[1..] == RunBytes(inner) + after;
    assert [] + [Close(curly)] == [Close(curly)];
    RunThen(inner, after, [Close(curly)]);
    assert after[1..] == rest;
  }

  lemma {:induction false} SpanThen(lit: seq<byte>, rest: seq<byte>)
    requires forall i :: 0 <= i < |lit| ==> !IsDelimiter(lit[i])
    requires rest == [] || IsDelimiter(rest[0])
    ensures LiteralSpan(lit + rest) == |lit|
  {
    if lit == [] {
      assert lit + rest == rest;
    } else {
      assert (lit + rest)[1..] == lit[1..] + rest;
      SpanThen(lit[1..], rest);
    }
  }

  /** A value is skipped exactly, when a delimiter (or nothing) follows. */
  lemma ValueThen(v: CoarseValue, rest: seq<byte>)
    requires CoarseOk(v) && (rest == [] || IsDelimiter(rest[0]))
    ensures CoarseBytes(v) != [] && !IsWs(CoarseBytes(v)[0])
    ensures ValueTail(CoarseBytes(v) + rest) == Some(rest)
  {
    hide Nested, StrTail, ScansAsLiteral, RunBytes;
    var s := CoarseBytes(v) + rest;
    assert s[0] == CoarseBytes(v)[0] by { if v.CLiteral? { ScannedBytes(v.text); } }
    match v
    case CString(body) =>
      assert s[1..] == body + [QUOTE] + rest;
      StrThen(body, rest);
    case CGroup(curly, inner) => GroupThen(curly, inner, rest);
    case CLiteral(text) =>
      ScannedBytes(text);
      SpanThen(text, rest);
      assert s[..|text|] == text && s[|text|..] == rest;
  }

  /** What the member does to the model: None when it makes the scan give up. */
  function Effect(parse: StringParser, m: CoarseMember, model: Option<string>): Option<Option<string>> {
    if BACKSLASH in m.key then None
    else if m.key != MODEL then Some(model)
    else if !m.value.CString? then Some(None)
    else if parse(Quoted(m.value.body)).None? then None
    else Some(parse(Quoted(m.value.body)))
  }

  function Effects(parse: StringParser, ms: seq<CoarseMember>, model: Option<string>): ScanResult {
    if ms == [] then Ok(model)
    else match Effect(parse, ms[0], model)
      case None => NotOk
      case Some(m) => Effects(parse, ms[1..], m)
  }

  lemma EffectIsNext(parse: StringParser, m: CoarseMember, model: Option<string>)
    requires CoarseOk(m.value) && BACKSLASH !in m.key
    ensures CoarseBytes(m.value) != []
    ensures Effect(parse, m, model) == NextModel(parse, m.key, CoarseBytes(m.value), model)
  {
    if m.value.CLiteral? { ScannedBytes(m.value.text); }
  }

  /** One member followed by a comma or by the closing brace. */
  lemma MemberThen(parse: StringParser, m: CoarseMember, rest: seq<byte>, model: Option<string>)
    requires CoarseMemberOk(m) && rest != [] && (rest[0] == COMMA || rest[0] == RBRACE)
    ensures ScanMember(parse, OneMember(m) + rest, model) ==
      match Effect(parse, m, model)
      case None => Broken
      case Some(e) =>
        if rest[0] == COMMA then More(rest[1..], e) else if SkipWs(rest[1..]) == [] then Last(e) else Broken
  {
    hide SkipWs, StrTail, ValueTail, CoarseOk, CoarseStr, CoarseBytes, NextModel, Effect;
    var s0 := OneMember(m) + rest;
    var tail := m.post + rest;
    var v := CoarseBytes(m.value) + tail;
    var c := [COLON] + (m.gap + v);
    var k := m.mid + c;
    var s := [QUOTE] + (m.key + [QUOTE] + k);
    assert s0 == m.pre + s by { Regroup(m.pre, m.key, m.mid, m.gap, CoarseBytes(m.value), m.post, rest); }
    WsThen(m.pre, s);
    assert s[1..] == m.key + [QUOTE] + k;
    StrThen(m.key, k);
    assert s[1..|s| - |k| - 1] == m.key;
    WsThen(m.mid, c);
    assert c[1..] == m.gap + v;
    assert tail != [] && IsDelimiter(tail[0]);
    ValueThen(m.value, tail);
    WsThen(m.gap, v);
    assert v[..|v| - |tail|] == CoarseBytes(m.value);
    WsThen(m.post, rest);
    if BACKSLASH !in m.key { EffectIsNext(parse, m, model); } else { EscapedKey(parse, m, model); }
  }

  lemma EscapedKey(parse: StringParser, m: CoarseMember, model: Option<string>)
    requires BACKSLASH in m.key
    ensures Effect(parse, m, model).None?
  {
  }

  lemma Regroup(pre: seq<byte>, key: seq<byte>, mid: seq<byte>, gap: seq<byte>, v: seq<byte>, post: seq<byte>,
    rest: seq<byte>)
    ensures pre + Quoted(key) + mid + [COLON] + gap + v + post + rest
         == pre + ([QUOTE] + (key + [QUOTE] + (mid + ([COLON] + (gap + (v + (post + rest)))))))
  {
    var x := gap + (v + (post + rest));
    assert gap + v + post + rest == x;
    assert pre + Quoted(key) + mid + [COLON] + gap + v + post + rest == pre + Quoted(key) + mid + [COLON] + x;
    assert [QUOTE] + (key + [QUOTE] + (mid + ([COLON] + x))) == Quoted(key) + (mid + ([COLON] + x));
    assert pre + Quoted(key) + mid + [COLON] + x == pre + (Quoted(key) + (mid + ([COLON] + x)));
  }

  lemma {:induction false} MembersThen(parse: StringParser, ms: seq<CoarseMember>, after: seq<byte>,
    model: Option<string>)
    requires ms != [] && AllWs(after) && forall i :: 0 <= i < |ms| ==> CoarseMemberOk(ms[i])
    ensures ScanMembers(parse, CoarseMembers(ms) + [RBRACE] + after, model) == Effects(parse, ms, model)
  {
    hide ScanMember, OneMember, Effect, SkipWs;
    var s := CoarseMembers(ms) + [RBRACE] + after;
    if |ms| == 1 {
      var rest := [RBRACE] + after;
      assert s == OneMember(ms[0]) + rest;
      assert rest[1..] == after && after + [] == after;
      WsThen(after, []);
      MemberThen(parse, ms[0], rest, model);
      assert ms[1..] == [];
    } else {
      var next := CoarseMembers(ms[1..]) + [RBRACE] + after;
      var rest := [COMMA] + next;
      assert s == OneMember(ms[0]) + rest;
      assert rest[1..] == next;
      MemberThen(parse, ms[0], rest, model);
      var e := Effect(parse, ms[0], model);
      if e.Some? { MembersThen(parse, ms[1..], after, e.value); }
    }
  }

  /** The scan of a coarse object text is the effect of its members, in order. */
  lemma ScanOfText(parse: StringParser, t: CoarseText)
    requires TextOk(t)
    ensures Scan(parse, TextBytes(t)) == Effects(parse, t.members, None)
  {
    hide Scan, Effects;
    if t.members == [] { ScanOfEmpty(parse, t); } else { ScanOfFull(parse, t); }
  }

  lemma ScanOfEmpty(parse: StringParser, t: CoarseText)
    requires TextOk(t) && t.members == []
    ensures Scan(parse, TextBytes(t)) == Effects(parse, t.members, None)
  {
    hide ScanMembers, SkipWs, CoarseMemberOk, OneMember, Effect;
    var s := [LBRACE] + (t.ws + ([RBRACE] + t.after));
    assert TextBytes(t) == t.before + s;
    WsThen(t.before, s);
    assert s[1..] == t.ws + ([RBRACE] + t.after);
    WsThen(t.ws, [RBRACE] + t.after);
    assert ([RBRACE] + t.after)[1..] == t.after && t.after + [] == t.after;
    WsThen(t.after, []);
  }

  lemma ScanOfFull(parse: StringParser, t: CoarseText)
    requires TextOk(t) && t.members != []
    ensures Scan(parse, TextBytes(t)) == Effects(parse, t.members, None)
  {
    hide ScanMembers, SkipWs, CoarseMemberOk, CoarseMembers, OneMember, Effect, Effects;
    var inside := CoarseMembers(t.members) + [RBRACE] + t.after;
    var s := [LBRACE] + inside;
    assert TextBytes(t) == t.before + s;
    WsThen(t.before, s);
    assert s[1..] == inside;
    FirstMember(t.members, [RBRACE] + t.after);
    assert inside == CoarseMembers(t.members) + ([RBRACE] + t.after);
    MembersSkipWs(parse, inside, None);
    MembersThen(parse, t.members, t.after, None);
  }

  /** Leading white space is skipped once or twice alike. */
  lemma MembersSkipWs(parse: StringParser, s: seq<byte>, model: Option<string>)
    ensures ScanMembers(parse, SkipWs(s), model) == ScanMembers(parse, s, model)
  {
    hide StrTail, ValueTail, NextModel;
    var t := SkipWs(s);
    assert SkipWs(t) == t;
  }

  /** A member list starts, after white space, with a quote. */
  lemma FirstMember(ms: seq<CoarseMember>, rest: seq<byte>)
    requires ms != [] && CoarseMemberOk(ms[0])
    ensures var s := SkipWs(CoarseMembers(ms) + rest); s != [] && s[0] == QUOTE
  {
    hide SkipWs, CoarseBytes;
    var m := ms[0];
    var more := (if |ms| == 1 then [] else [COMMA] + CoarseMembers(ms[1..])) + rest;
    Regroup(m.pre, m.key, m.mid, m.gap, CoarseBytes(m.value), m.post, more);
    var s := [QUOTE] + (m.key + [QUOTE] + (m.mid + ([COLON] + (m.gap + (CoarseBytes(m.value) + (m.post + more))))));
    assert CoarseMembers(ms) + rest == m.pre + s;
    WsThen(m.pre, s);
  }

  // ---------- Reading the grammar back from an accepted scan ----------

  lemma {:induction false} WsShape(s: seq<byte>) returns (ws: seq<byte>)
    ensures AllWs(ws) && s == ws + SkipWs(s)
  {
    if s != [] && IsWs(s[0]) {
      var rest := WsShape(s[1..]);
      ws := [s[0]] + rest;
    } else {
      ws := [];
    }
  }

  lemma {:induction false} StrShape(s: seq<byte>) returns (body: seq<byte>)
    requires StrTail(s).Some?
    ensures CoarseStr(body) && s == body + [QUOTE] + StrTail(s).value
  {
    if s[0] == BACKSLASH {
      var b := StrShape(s[2..]);
      body := s[..2] + b;
      assert body[2..] == b;
    } else if s[0] == QUOTE {
      body := [];
    } else {
      var b := StrShape(s[1..]);
      body := [s[0]] + b;
      assert body[1..] == b;
    }
  }

  /** The runs still owed to a stack, innermost first. */
  function Owed(runs: seq<Run>, stack: seq<byte>): seq<byte>
    requires |runs| == |stack|
  {
    if stack == [] then []
    else RunBytes(runs[|runs| - 1]) + [stack[|stack| - 1]] + Owed(runs[..|runs| - 1], stack[..|stack| - 1])
  }

  predicate RunsOk(runs: seq<Run>) { forall i :: 0 <= i < |runs| ==> RunOk(runs[i]) }

  lemma OwedLast(runs: seq<Run>, stack: seq<byte>, last: Run)
    requires |runs| + 1 == |stack|
    ensures Owed(runs + [last], stack) == RunBytes(last) + [stack[|stack| - 1]] + Owed(runs, stack[..|stack| - 1])
  {
    assert (runs + [last])[..|runs|] == runs;
  }

  /** What the bracket loop skipped is, level by level, a run and its closer. */
  lemma {:induction false} NestedShape(s: seq<byte>, stack: seq<byte>) returns (runs: seq<Run>)
    requires stack != [] && Nested(s, stack).Some?
    ensures |runs| == |stack| && RunsOk(runs) && s == Owed(runs, stack) + Nested(s, stack).value
    decreases |s|
  {
    hide StrTail, Owed;
    var n, rest := |stack|, Nested(s, stack).value;
    var outer := stack[..n - 1];
    if s[0] == QUOTE {
      var body := StrShape(s[1..]);
      var rs := NestedShape(StrTail(s[1..]).value, stack);
      runs := Prepend(s, Quoted(body), stack, rs, RStr(body, rs[n - 1]), rest);
    } else if s[0] == LBRACE || s[0] == LBRACKET {
      var rs := NestedShape(s[1..], stack + [Closer(s[0])]);
      assert s == [s[0]] + s[1..];
      runs := Enclose(s[0] == LBRACE, stack, rs);
      GroupAssoc([s[0]], Owed(rs, stack + [Closer(s[0])]), rest);
    } else if s[0] == RBRACE || s[0] == RBRACKET {
      var rs: seq<Run> := [];
      if n > 1 { rs := NestedShape(s[1..], outer); } else { NothingOwed(); assert outer == []; }
      runs := rs + [REnd];
      OwedLast(rs, stack, REnd);
      assert s == [s[0]] + s[1..];
    } else {
      var rs := NestedShape(s[1..], stack);
      assert s == [s[0]] + s[1..];
      runs := Prepend(s, [s[0]], stack, rs, RByte(s[0], rs[n - 1]), rest);
    }
  }

  lemma NothingOwed()
    ensures Owed([], []) == []
  {
  }

  lemma GroupAssoc(a: seq<byte>, b: seq<byte>, c: seq<byte>)
    ensures a + (b + c) == (a + b) + c
  {
  }

  /** An opening bracket turns the two innermost runs into one, with a group in front. */
  lemma Enclose(curly: bool, stack: seq<byte>, rs: seq<Run>) returns (runs: seq<Run>)
    requires |rs| == |stack| + 1 > 1 && RunsOk(rs)
    ensures |runs| == |stack| && RunsOk(runs)
    ensures Owed(runs, stack) == [Open(curly)] + Owed(rs, stack + [Close(curly)])
  {
    hide Owed;
    var n := |stack|;
    var init, next, inner := rs[..n - 1], rs[n - 1], rs[n];
    assert rs == (init + [next]) + [inner];
    OwedLast(init + [next], stack + [Close(curly)], inner);
    assert (stack + [Close(curly)])[..n] == stack;
    OwedLast(init, stack, next);
    runs := init + [RGroup(curly, inner, next)];
    OwedLast(init, stack, RGroup(curly, inner, next));
    var a, b, c, d := [Open(curly)], RunBytes(inner), [Close(curly)], RunBytes(next);
    var e := [stack[n - 1]] + Owed(init, stack[..n - 1]);
    assert a + (b + c + (d + e)) == (a + b + c + d) + e;
    assert d + [stack[n - 1]] + Owed(init, stack[..n - 1]) == d + e;
    assert (a + b + c + d) + [stack[n - 1]] + Owed(init, stack[..n - 1]) == (a + b + c + d) + e;
  }

  /** Something skipped at the current level goes in front of that level's run. */
  lemma Prepend(s: seq<byte>, head: seq<byte>, stack: seq<byte>, rs: seq<Run>, last: Run, rest: seq<byte>)
    returns (runs: seq<Run>)
    requires |rs| == |stack| > 0 && RunsOk(rs) && RunOk(last)
    requires s == head + (Owed(rs, stack) + rest)
    requires RunBytes(last) == head + RunBytes(rs[|rs| - 1])
    ensures |runs| == |stack| && RunsOk(runs) && s == Owed(runs, stack) + rest
  {
    var init := rs[..|rs| - 1];
    assert rs == init + [rs[|rs| - 1]];
    OwedLast(init, stack, rs[|rs| - 1]);
    OwedLast(init, stack, last);
    runs := init + [last];
    hide Owed;
    var a, b, c := RunBytes(rs[|rs| - 1]), [stack[|stack| - 1]], Owed(init, stack[..|stack| - 1]);
    assert head + (a + b + c + rest) == head + a + b + c + rest;
  }

  lemma GroupShape(s: seq<byte>) returns (inner: Run)
    requires s != [] && (s[0] == LBRACE || s[0] == LBRACKET) && Nested(s, []).Some?
    ensures RunOk(inner) && s == CoarseBytes(CGroup(s[0] == LBRACE, inner)) + Nested(s, []).value
  {
    hide StrTail, Owed;
    var stack, rest := [Closer(s[0])], Nested(s, []).value;
    assert [] + stack == stack;
    var runs := NestedShape(s[1..], stack);
    inner := runs[0];
    assert runs == [] + [inner] && stack[..0] == [];
    OwedLast([], stack, inner);
    NothingOwed();
    assert s == [s[0]] + s[1..];
    assert [s[0]] + (RunBytes(inner) + stack + [] + rest) == [s[0]] + RunBytes(inner) + stack + rest;
  }

  lemma ValueShape(s: seq<byte>) returns (v: CoarseValue)
    requires ValueTail(s).Some? && SkipWs(s) == s
    ensures CoarseOk(v) && s == CoarseBytes(v) + ValueTail(s).value
  {
    hide StrTail, SkipWs, ScansAsLiteral, Nested, LiteralSpan;
    if s != [] && s[0] == QUOTE {
      var body := StrShape(s[1..]);
      v := CString(body);
      assert s == [QUOTE] + s[1..];
    } else if s != [] && (s[0] == LBRACE || s[0] == LBRACKET) {
      var inner := GroupShape(s);
      v := CGroup(s[0] == LBRACE, inner);
    } else {
      v := CLiteral(s[..LiteralSpan(s)]);
    }
  }

  /** An accepted member is a coarse member without a backslash in its key. */
  lemma MemberShape(parse: StringParser, s0: seq<byte>, model: Option<string>)
    returns (m: CoarseMember, rest: seq<byte>)
    requires !ScanMember(parse, s0, model).Broken?
    ensures CoarseMemberOk(m) && s0 == OneMember(m) + rest
    ensures rest != [] && (rest[0] == COMMA || rest[0] == RBRACE)
  {
    hide StrTail, SkipWs, ValueTail, NextModel, CoarseOk, CoarseStr, CoarseBytes, AllWs, Quoted;
    var s := SkipWs(s0);
    var k := StrTail(s[1..]).value;
    var c := SkipWs(k);
    var v := SkipWs(c[1..]);
    var tail := ValueTail(v).value;
    rest := SkipWs(tail);
    var pre := WsShape(s0);
    var mid := WsShape(k);
    var gap := WsShape(c[1..]);
    var post := WsShape(tail);
    SkipTwice(c[1..]);
    var key := StrShape(s[1..]);
    var value := ValueShape(v);
    m := CoarseMember(pre, key, mid, gap, value, post);
    assert s == [QUOTE] + s[1..] && c == [COLON] + c[1..];
    Regroup(pre, key, mid, gap, CoarseBytes(value), post, rest);
    hide *;
    assert s0 == pre + ([QUOTE] + (key + [QUOTE] + (mid + ([COLON] + (gap + (CoarseBytes(value) + (post + rest)))))));
  }

  lemma SkipTwice(s: seq<byte>)
    ensures SkipWs(SkipWs(s)) == SkipWs(s)
  {
  }

  lemma {:induction false} MembersShape(parse: StringParser, s: seq<byte>, model: Option<string>)
    returns (ms: seq<CoarseMember>, after: seq<byte>)
    requires ScanMembers(parse, s, model).Ok?
    ensures ms != [] && AllWs(after) && s == CoarseMembers(ms) + [RBRACE] + after
    ensures forall i :: 0 <= i < |ms| ==> CoarseMemberOk(ms[i])
    decreases |s|
  {
    hide ScanMember, OneMember, CoarseMemberOk, SkipWs, Effect;
    var m, rest := MemberShape(parse, s, model);
    MemberThen(parse, m, rest, model);
    assert rest == [rest[0]] + rest[1..];
    if rest[0] == COMMA {
      var tail;
      tail, after := MembersShape(parse, rest[1..], ScanMember(parse, s, model).model);
      ms := [m] + tail;
      assert ms[1..] == tail;
    } else {
      ms, after := [m], rest[1..];
      var ws := WsShape(after);
      assert ws == after;
    }
  }

  lemma ScanShape(parse: StringParser, b: seq<byte>) returns (t: CoarseText)
    requires Scan(parse, b).Ok?
    ensures TextOk(t) && TextBytes(t) == b
  {
    hide ScanMembers, SkipWs, CoarseMemberOk, CoarseMembers, AllWs;
    var before := WsShape(b);
    var s := SkipWs(b);
    assert s == [LBRACE] + s[1..];
    var inside := SkipWs(s[1..]);
    if inside != [] && inside[0] == RBRACE {
      var ws := WsShape(s[1..]);
      var after := WsShape(inside[1..]);
      assert after == inside[1..];
      t := CoarseText(before, ws, [], after);
      assert inside == [RBRACE] + after;
      assert before + ([LBRACE] + (ws + ([RBRACE] + after))) == before + [LBRACE] + ws + [RBRACE] + after;
    } else {
      MembersSkipWs(parse, s[1..], None);
      var ms, after := MembersShape(parse, s[1..], None);
      t := CoarseText(before, [], ms, after);
      NoWs();
      assert before + ([LBRACE] + (CoarseMembers(ms) + [RBRACE] + after)) ==
        before + [LBRACE] + CoarseMembers(ms) + [RBRACE] + after;
    }
  }

  lemma NoWs()
    ensures AllWs([])
  {
  }

  /** Exactly what `scanModel` accepts, and what it answers. */
  lemma ScanExact(parse: StringParser, b: seq<byte>)
    ensures Scan(parse, b).Ok? <==> exists t :: TextOk(t) && TextBytes(t) == b && Effects(parse, t.members, None).Ok?
    ensures forall t :: TextOk(t) && TextBytes(t) == b ==> Scan(parse, b) == Effects(parse, t.members, None)
  {
    hide TextOk, TextBytes, Scan, Effects;
    forall t | TextOk(t) && TextBytes(t) == b ensures Scan(parse, b) == Effects(parse, t.members, None) {
      ScanOfText(parse, t);
    }
    if Scan(parse, b).Ok? {
      var t := ScanShape(parse, b);
      assert TextOk(t) && TextBytes(t) == b;
    }
  }

  // ---------- Well-formed JSON objects ----------

  datatype ObjectText = ObjectText(before: seq<byte>, ws: seq<byte>, members: Members, after: seq<byte>)

  function ObjectBytes(t: ObjectText): seq<byte> { t.before + Bytes(VObject(t.ws, t.members)) + t.after }

  predicate ObjectOk(t: ObjectText) { AllWs(t.before) && AllWs(t.after) && ValueOk(VObject(t.ws, t.members)) }

  predicate PlainKey(key: seq<StrItem>) { forall i :: 0 <= i < |key| ==> key[i].Plain? }

  predicate PlainKeys(ms: Members) { ms.MNil? || (PlainKey(ms.key) && PlainKeys(ms.tail)) }

  /** JSON.parse on string tokens: every well-formed one parses, and an unescaped one is `model` exactly when its bytes
      are. */
  ghost predicate ReadsStrings(parse: StringParser) {
    && (forall items :: StrOk(items) ==> parse(Quoted(StrBytes(items))).Some?)
    && (forall items :: StrOk(items) && PlainKey(items) ==>
          (parse(Quoted(StrBytes(items))) == Some("model") <==> StrBytes(items) == MODEL))
  }

  /** The value of the last member whose key, escapes resolved, is `model`: the one JSON.parse keeps. */
  function LastModel(parse: StringParser, ms: Members): Option<Value> {
    match ms
    case MNil => None
    case MCons(_, key, _, _, v, _, tail) =>
      if LastModel(parse, tail).Some? then LastModel(parse, tail)
      else if parse(Quoted(StrBytes(key))) == Some("model") then Some(v)
      else None
  }

  /** The `model` of the object: that value if it is a string. */
  function TrueModel(parse: StringParser, ms: Members): Option<string> {
    var v := LastModel(parse, ms);
    if v.Some? && v.value.VString? then parse(Quoted(StrBytes(v.value.items))) else None
  }

  lemma {:induction false} BackslashInKey(items: seq<StrItem>)
    requires StrOk(items)
    ensures BACKSLASH in StrBytes(items) <==> !PlainKey(items)
  {
    if items != [] {
      BackslashInKey(items[1..]);
      var head, tail := ItemBytes(items[0]), StrBytes(items[1..]);
      assert BACKSLASH in head + tail <==> BACKSLASH in head || BACKSLASH in tail;
      assert BACKSLASH in head <==> !items[0].Plain? by {
        if !items[0].Plain? { assert head[0] == BACKSLASH; }
      }
      assert PlainKey(items) <==> items[0].Plain? && PlainKey(items[1..]) by {
        if items[0].Plain? && PlainKey(items[1..]) {
          forall i | 0 <= i < |items| ensures items[i].Plain? { if i > 0 { assert items[i] == items[1..][i - 1]; } }
        }
      }
    }
  }

  lemma {:induction false} EffectsOfMembers(parse: StringParser, ms: Members, model: Option<string>)
    requires MembersOk(ms) && ReadsStrings(parse)
    ensures var r := Effects(parse, CoarseList(ms), model);
      && (r.Ok? <==> PlainKeys(ms))
      && (r.Ok? ==> r.model == if LastModel(parse, ms).Some? then TrueModel(parse, ms) else model)
  {
    hide StrBytes, StrOk, Inside;
    if ms.MCons? {
      BackslashInKey(ms.key);
      var m := CoarseList(ms)[0];
      assert CoarseList(ms)[1..] == CoarseList(ms.tail);
      var e := Effect(parse, m, model);
      if PlainKey(ms.key) {
        assert StrOk(ms.key);
        if ms.value.VString? { assert StrOk(ms.value.items); }
        assert e.Some?;
        EffectsOfMembers(parse, ms.tail, e.value);
      }
    }
  }

  lemma ObjectIsCoarse(t: ObjectText) returns (c: CoarseText)
    requires ObjectOk(t)
    ensures TextOk(c) && TextBytes(c) == ObjectBytes(t) && c.members == CoarseList(t.members)
  {
    hide CoarseMemberOk, CoarseMembers, MemberBytes, AllWs;
    CoarseListOk(t.members);
    c := CoarseText(t.before, t.ws, CoarseList(t.members), t.after);
    var x := if t.members.MNil? then t.ws else MemberBytes(t.members);
    assert t.before + ([LBRACE] + x + [RBRACE]) + t.after == t.before + [LBRACE] + x + [RBRACE] + t.after;
  }

  /** On every well-formed JSON object: accepted exactly when no top-level key is escaped, and then the answer is
      JSON.parse's. */
  lemma ScanOfObject(parse: StringParser, t: ObjectText)
    requires ObjectOk(t) && ReadsStrings(parse)
    ensures Scan(parse, ObjectBytes(t)).Ok? <==> PlainKeys(t.members)
    ensures PlainKeys(t.members) ==> Scan(parse, ObjectBytes(t)) == Ok(TrueModel(parse, t.members))
  {
    hide ReadsStrings;
    var c := ObjectIsCoarse(t);
    ScanOfText(parse, c);
    EffectsOfMembers(parse, t.members, None);
  }

  // ---------- requestModel ----------

  /** The scan, with `slow` (JSON.parse on the whole body) when it gives up. */
  function RequestModel(parse: StringParser, slow: seq<byte> -> Option<string>, body: seq<byte>): Option<string> {
    if body == [] || body[0] != LBRACE then None
    else match Scan(parse, body)
      case Ok(model) => model
      case NotOk => slow(body)
  }

  /** The request's model is JSON.parse's exactly when the body opens with its brace, or there is no model to find. */
  lemma RequestModelExact(parse: StringParser, slow: seq<byte> -> Option<string>, t: ObjectText)
    requires ObjectOk(t) && ReadsStrings(parse)
    requires slow(ObjectBytes(t)) == TrueModel(parse, t.members)
    ensures RequestModel(parse, slow, ObjectBytes(t)) == TrueModel(parse, t.members)
      <==> t.before == [] || TrueModel(parse, t.members).None?
  {
    hide ReadsStrings, Scan, LastModel;
    ScanOfObject(parse, t);
    var b := ObjectBytes(t);
    if t.before == [] {
      assert b[0] == LBRACE;
    } else {
      assert b[0] == t.before[0] && IsWs(b[0]);
    }
  }

  /** One member `"a"` and nothing else. */
  function Around(v: CoarseValue): CoarseText {
    CoarseText([], [], [CoarseMember([], [0x61], [], [], v, [])], [])
  }

  lemma AroundOk(v: CoarseValue)
    requires CoarseOk(v)
    ensures TextOk(Around(v))
  {
    hide CoarseOk;
    assert [0x61][1..] == [];
    assert CoarseStr([0x61]);
  }

  lemma AroundBytes(v: CoarseValue)
    ensures TextBytes(Around(v)) == [0x7b, 0x22, 0x61, 0x22, 0x3a] + CoarseBytes(v) + [0x7d]
  {
    hide CoarseBytes;
    var m := Around(v).members[0];
    assert OneMember(m) == [0x22, 0x61, 0x22, 0x3a] + CoarseBytes(v);
    assert CoarseMembers([m]) == OneMember(m);
  }

  lemma AroundEffect(parse: StringParser, v: CoarseValue)
    ensures Effects(parse, Around(v).members, None) == Ok(None)
  {
    hide CoarseBytes;
    var m := Around(v).members[0];
    assert [m][1..] == [] && BACKSLASH !in m.key && m.key != MODEL;
  }

  /** `{"a":` and `}` around any value of the coarser grammar are accepted. */
  lemma AcceptsAround(parse: StringParser, v: CoarseValue)
    requires CoarseOk(v)
    ensures Scan(parse, [0x7b, 0x22, 0x61, 0x22, 0x3a] + CoarseBytes(v) + [0x7d]) == Ok(None)
  {
    hide *;
    AroundOk(v);
    AroundBytes(v);
    AroundEffect(parse, v);
    ScanOfText(parse, Around(v));
  }

  /** `{"a":[x]}` is no JSON, yet it is accepted: nested values are only matched brackets. */
  lemma AcceptsMalformed(parse: StringParser)
    ensures Scan(parse, [0x7b, 0x22, 0x61, 0x22, 0x3a, 0x5b, 0x78, 0x5d, 0x7d]) == Ok(None)
  {
    var v := CGroup(false, RByte(0x78, REnd));
    assert RunBytes(v.inner) == [0x78];
    AcceptsAround(parse, v);
    hide Scan;
    assert [0x7b, 0x22, 0x61, 0x22, 0x3a] + CoarseBytes(v) + [0x7d] ==
      [0x7b, 0x22, 0x61, 0x22, 0x3a, 0x5b, 0x78, 0x5d, 0x7d];
  }

  /** So is a byte order mark in front of a literal: `{"a":` EF BB BF `1}`. */
  lemma AcceptsMark(parse: StringParser)
    ensures Scan(parse, [0x7b, 0x22, 0x61, 0x22, 0x3a, 0xef, 0xbb, 0xbf, 0x31, 0x7d]) == Ok(None)
  {
    var lit: seq<byte> := [0xef, 0xbb, 0xbf, 0x31];
    assert MARK <= lit && lit[3..] == [0x31];
    assert DigitSpan([0x31]) == 1 && [0x31][1..] == [];
    AcceptsAround(parse, CLiteral(lit));
    hide Scan, ScansAsLiteral;
    assert [0x7b, 0x22, 0x61, 0x22, 0x3a] + lit + [0x7d] ==
      [0x7b, 0x22, 0x61, 0x22, 0x3a, 0xef, 0xbb, 0xbf, 0x31, 0x7d];
  }
}
