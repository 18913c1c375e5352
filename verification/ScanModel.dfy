/** src/gateway/app.ts, `scanModel` and `requestModel`: one index and one bracket stack against the JSON grammar. */
module ScanModel {
  import opened Streams
  import opened JsonText

  datatype ScanResult = NotOk | Ok(model: Option<string>)

  /** `model` in ASCII. */
  const MODEL: seq<byte> := [0x6d, 0x6f, 0x64, 0x65, 0x6c]

  /** JSON.parse on the bytes of one string token. */
  type StringParser = seq<byte> -> Option<string>

  // ---------- The scan as a function of the bytes not yet read ----------

  function SkipWs(s: seq<byte>): (r: seq<byte>)
    ensures |r| <= |s|
    ensures r != [] ==> !IsWs(r[0])
  {
    if s == [] || !IsWs(s[0]) then s else SkipWs(s[1..])
  }

  /** After an opening quote: what follows the closing quote. */
  function StrTail(s: seq<byte>): (r: Option<seq<byte>>)
    ensures r.Some? ==> |r.value| < |s|
  {
    if s == [] then None
    else if s[0] == BACKSLASH then (if |s| < 2 then None else StrTail(s[2..]))
    else if s[0] == QUOTE then Some(s[1..])
    else StrTail(s[1..])
  }

  function Closer(b: byte): byte { if b == LBRACE then RBRACE else RBRACKET }

  /** What follows the bracket that empties the stack; `stack` holds the closers still owed. */
  function Nested(s: seq<byte>, stack: seq<byte>): (r: Option<seq<byte>>)
    ensures r.Some? ==> |r.value| < |s|
    decreases |s|
  {
    if s == [] then None
    else if s[0] == QUOTE then
      var t := StrTail(s[1..]);
      if t.None? then None else Nested(t.value, stack)
    else if s[0] == LBRACE || s[0] == LBRACKET then Nested(s[1..], stack + [Closer(s[0])])
    else if s[0] == RBRACE || s[0] == RBRACKET then
      if stack == [] || stack[|stack| - 1] != s[0] then None
      else if |stack| == 1 then Some(s[1..])
      else Nested(s[1..], stack[..|stack| - 1])
    else Nested(s[1..], stack)
  }

  predicate IsDelimiter(b: byte) { b == COMMA || b == RBRACE || IsWs(b) }

  function LiteralSpan(s: seq<byte>): (n: nat)
    ensures n <= |s|
    ensures n < |s| ==> IsDelimiter(s[n])
    ensures forall i :: 0 <= i < n ==> !IsDelimiter(s[i])
  {
    if s == [] || IsDelimiter(s[0]) then 0 else 1 + LiteralSpan(s[1..])
  }

  /** What follows one value. */
  function ValueTail(s0: seq<byte>): (r: Option<seq<byte>>)
    ensures r.Some? ==> |r.value| < |s0|
  {
    var s := SkipWs(s0);
    if s != [] && s[0] == QUOTE then StrTail(s[1..])
    else if s != [] && (s[0] == LBRACE || s[0] == LBRACKET) then Nested(s, [])
    else
      var n := LiteralSpan(s);
      if ScansAsLiteral(s[..n]) then Some(s[n..]) else None
  }

  /** The model after a member: `raw` is its value's bytes. None: the string does not parse. */
  function NextModel(parse: StringParser, key: seq<byte>, raw: seq<byte>, model: Option<string>): Option<Option<string>>
    requires raw != []
  {
    if key != MODEL then Some(model)
    else if raw[0] != QUOTE then Some(None)
    else if parse(raw).None? then None
    else Some(parse(raw))
  }

  /** One member: broken, followed by another, or the last with nothing after the object. */
  datatype Step = Broken | More(rest: seq<byte>, model: Option<string>) | Last(model: Option<string>)

  /** A key without a backslash, and what follows its colon. */
  datatype Keyed = Keyed(key: seq<byte>, after: seq<byte>)

  function ScanKey(s0: seq<byte>): (r: Option<Keyed>)
    ensures r.Some? ==> |r.value.after| < |s0|
  {
    var s := SkipWs(s0);
    if s == [] || s[0] != QUOTE then None else
    var k := StrTail(s[1..]);
    if k.None? then None else
    var key := s[1..|s| - |k.value| - 1];
    if BACKSLASH in key then None else
    var c := SkipWs(k.value);
    if c == [] || c[0] != COLON then None else Some(Keyed(key, c[1..]))
  }

  function ScanMember(parse: StringParser, s0: seq<byte>, model: Option<string>): (r: Step)
    ensures r.More? ==> |r.rest| < |s0|
  {
    var k := ScanKey(s0);
    if k.None? then Broken else
    var v := SkipWs(k.value.after);
    var r := ValueTail(v);
    if r.None? then Broken else
    var m := NextModel(parse, k.value.key, v[..|v| - |r.value|], model);
    if m.None? then Broken else
    var e := SkipWs(r.value);
    if e == [] then Broken
    else if e[0] == COMMA then More(e[1..], m.value)
    else if e[0] == RBRACE && SkipWs(e[1..]) == [] then Last(m.value)
    else Broken
  }

  function ScanMembers(parse: StringParser, s: seq<byte>, model: Option<string>): ScanResult
    decreases |s|
  {
    match ScanMember(parse, s, model)
    case Broken => NotOk
    case More(rest, m) => ScanMembers(parse, rest, m)
    case Last(m) => Ok(m)
  }

  function Scan(parse: StringParser, b: seq<byte>): ScanResult {
    var s := SkipWs(b);
    if s == [] || s[0] != LBRACE then NotOk else
    var t := SkipWs(s[1..]);
    if t != [] && t[0] == RBRACE then (if SkipWs(t[1..]) == [] then Ok(None) else NotOk)
    else ScanMembers(parse, t, None)
  }

  // ---------- The scan as written: an index that only moves forward ----------

  method Ws(b: seq<byte>, from: nat) returns (i: nat)
    requires from <= |b|
    ensures from <= i <= |b| && b[i..] == SkipWs(b[from..])
  {
    i := from;
    while i < |b| && IsWs(b[i])
      invariant from <= i <= |b|
      invariant SkipWs(b[from..]) == SkipWs(b[i..])
    {
      assert b[i..][1..] == b[i + 1..];
      i := i + 1;
    }
  }

  /** From an opening quote: the index of the closing quote, or -1. */
  method Str(b: seq<byte>, from: nat) returns (e: int)
    requires from < |b|
    ensures e < 0 ==> StrTail(b[from + 1..]).None?
    ensures e >= 0 ==> from < e < |b| && StrTail(b[from + 1..]) == Some(b[e + 1..])
  {
    var j := from + 1;
    while j < |b|
      invariant from < j <= |b| + 1
      invariant StrTail(b[from + 1..]) == if j <= |b| then StrTail(b[j..]) else None
    {
      var c := b[j];
      if c == BACKSLASH {
        assert j + 2 <= |b| ==> b[j..][2..] == b[j + 2..];
        j := j + 2;
      } else if c == QUOTE {
        assert b[j..][1..] == b[j + 1..];
        return j;
      } else {
        assert b[j..][1..] == b[j + 1..];
        j := j + 1;
      }
    }
    return -1;
  }

  /** Skips one bracketed value starting at `from`; -1 when it does not close. */
  method Bracketed(b: seq<byte>, from: nat) returns (i: int)
    requires from < |b|
    ensures i < 0 ==> Nested(b[from..], []).None?
    ensures i >= 0 ==> i <= |b| && Nested(b[from..], []) == Some(b[i..])
  {
    var stack: seq<byte> := [];
    i := from;
    while i < |b|
      invariant from <= i <= |b|
      invariant Nested(b[from..], []) == Nested(b[i..], stack)
    {
      var d := b[i];
      assert b[i..][0] == d && b[i..][1..] == b[i + 1..];
      if d == QUOTE {
        var e := Str(b, i);
        if e < 0 { return -1; }
        i := e + 1;
        continue;
      }
      if d == LBRACE || d == LBRACKET {
        stack := stack + [Closer(d)];
      } else if d == RBRACE || d == RBRACKET {
        if stack == [] || stack[|stack| - 1] != d { return -1; }
        stack := stack[..|stack| - 1];
        if stack == [] { return i + 1; }
      }
      i := i + 1;
    }
    return -1;
  }

  /** Skips one value; -1 when there is none. */
  method SkipValue(b: seq<byte>, from: nat) returns (i: int)
    requires from <= |b|
    ensures i < 0 ==> ValueTail(b[from..]).None?
    ensures i >= 0 ==> i <= |b| && ValueTail(b[from..]) == Some(b[i..])
  {
    hide ScansAsLiteral, SkipWs, StrTail, Nested;
    var start := Ws(b, from);
    if start < |b| && b[start] == QUOTE {
      assert b[start..][1..] == b[start + 1..];
      var e := Str(b, start);
      return if e < 0 then -1 else e + 1;
    }
    if start < |b| && (b[start] == LBRACE || b[start] == LBRACKET) {
      i := Bracketed(b, start);
      return;
    }
    i := start;
    while i < |b| && !IsDelimiter(b[i])
      invariant start <= i <= |b|
      invariant LiteralSpan(b[start..]) == i - start + LiteralSpan(b[i..])
    {
      assert b[i..][1..] == b[i + 1..];
      i := i + 1;
    }
    var lit := b[start..i];
    assert b[start..][..i - start] == lit && b[start..][i - start..] == b[i..];
    if !ScansAsLiteral(lit) { return -1; }
  }

  method ScanModel(parse: StringParser, b: seq<byte>) returns (r: ScanResult)
    ensures r == Scan(parse, b)
  {
    hide ScanMember, SkipWs;
    var i := Ws(b, 0);
    assert b[0..] == b;
    if i == |b| || b[i] != LBRACE { return NotOk; }
    assert b[i..][1..] == b[i + 1..];
    i := Ws(b, i + 1);
    var model: Option<string> := None;
    if i < |b| && b[i] == RBRACE {
      assert b[i..][1..] == b[i + 1..];
      i := Ws(b, i + 1);
      return if i == |b| then Ok(None) else NotOk;
    }
    while true
      invariant i <= |b|
      invariant Scan(parse, b) == ScanMembers(parse, b[i..], model)
      decreases |b| - i
    {
      var ok, end, m := ReadMember(parse, b, i, model);
      if !ok { return NotOk; }
      model := m;
      if b[end] == COMMA {
        i := end + 1;
        continue;
      }
      i := Ws(b, end + 1);
      return if i == |b| then Ok(model) else NotOk;
    }
  }

  /** One pass of the loop, up to the comma or closing brace at `end`. */
  method ReadMember(parse: StringParser, b: seq<byte>, i: nat, model: Option<string>)
    returns (ok: bool, end: nat, m: Option<string>)
    requires i <= |b|
    ensures !ok ==> ScanMember(parse, b[i..], model).Broken?
    ensures ok ==> i <= end < |b| && (b[end] == COMMA || b[end] == RBRACE)
    ensures ok && b[end] == COMMA ==> ScanMember(parse, b[i..], model) == More(b[end + 1..], m)
    ensures ok && b[end] == RBRACE ==>
      ScanMember(parse, b[i..], model) == if SkipWs(b[end + 1..]) == [] then Last(m) else Broken
  {
    hide SkipWs, ScanKey, ValueTail;
    m := model;
    end := i;
    var q, ke, colon := ReadKey(b, i);
    if colon < 0 { return false, end, m; }
    var vStart := Ws(b, colon + 1);
    var isModel := ke - q == 6 && b[q + 1] == 0x6d && b[q + 2] == 0x6f && b[q + 3] == 0x64 && b[q + 4] == 0x65 &&
      b[q + 5] == 0x6c;
    SpellsModel(b, q, ke);
    var after := SkipValue(b, vStart);
    if after < 0 { return false, end, m; }
    assert |b[after..]| < |b[vStart..]|;
    assert b[vStart..][..after - vStart] == b[vStart..after];
    if isModel {
      if b[vStart] == QUOTE {
        m := parse(b[vStart..after]);
        if m.None? { return false, end, m; }
      } else {
        m := None;
      }
    }
    end := Ws(b, after);
    if end == |b| || (b[end] != COMMA && b[end] != RBRACE) { return false, end, m; }
    assert b[end..][1..] == b[end + 1..];
    return true, end, m;
  }

  /** The key between the quotes at `q` and `ke`, and its colon (negative when there is none to use). */
  method ReadKey(b: seq<byte>, i: nat) returns (q: nat, ke: nat, colon: int)
    requires i <= |b|
    ensures colon < 0 ==> ScanKey(b[i..]) == None
    ensures colon >= 0 ==> i <= q < ke < colon < |b| && ScanKey(b[i..]) == Some(Keyed(b[q + 1..ke], b[colon + 1..]))
  {
    hide SkipWs, StrTail;
    ke, colon := 0, -1;
    q := Ws(b, i);
    if q == |b| || b[q] != QUOTE { return; }
    var e := Str(b, q);
    assert b[q..][1..] == b[q + 1..];
    if e < 0 { return; }
    ke := e;
    var escaped := HasBackslash(b, q + 1, ke);
    assert b[q..][1..ke - q] == b[q + 1..ke];
    if escaped { return; }
    var c := Ws(b, ke + 1);
    if c == |b| || b[c] != COLON { return; }
    assert b[c..][1..] == b[c + 1..];
    colon := c;
  }

  lemma SpellsModel(b: seq<byte>, q: nat, ke: nat)
    requires q < ke < |b|
    ensures b[q + 1..ke] == MODEL <==>
      ke - q == 6 && b[q + 1] == 0x6d && b[q + 2] == 0x6f && b[q + 3] == 0x64 && b[q + 4] == 0x65 && b[q + 5] == 0x6c
  {
    var key := b[q + 1..ke];
    if key == MODEL {
      assert key[0] == b[q + 1] && key[1] == b[q + 2] && key[2] == b[q + 3] && key[3] == b[q + 4] && key[4] == b[q + 5];
    }
  }

  method HasBackslash(b: seq<byte>, from: nat, to: nat) returns (found: bool)
    requires from <= to <= |b|
    ensures found <==> BACKSLASH in b[from..to]
  {
    for k := from to to
      invariant BACKSLASH !in b[from..k]
    {
      if b[k] == BACKSLASH {
        assert b[from..to][k - from] == BACKSLASH;
        return true;
      }
    }
    return false;
  }
}
