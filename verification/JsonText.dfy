/**
 * JSON texts as grammar trees and the bytes they stand for (sections 2 to 7 of RFC 8259),
 * beside the coarser texts in which a nested value is only a bracketed run of bytes.
 */
module JsonText {
  import opened Streams

  const QUOTE: byte := 0x22
  const BACKSLASH: byte := 0x5c
  const COMMA: byte := 0x2c
  const COLON: byte := 0x3a
  const LBRACE: byte := 0x7b
  const RBRACE: byte := 0x7d
  const LBRACKET: byte := 0x5b
  const RBRACKET: byte := 0x5d

  predicate IsWs(b: byte) { b == 0x20 || b == 0x0a || b == 0x0d || b == 0x09 }

  predicate AllWs(s: seq<byte>) { forall i :: 0 <= i < |s| ==> IsWs(s[i]) }

  // ---------- Literals and numbers ----------

  predicate IsDigit(b: byte) { 0x30 <= b <= 0x39 }

  /** The number of digits `s` starts with. */
  function DigitSpan(s: seq<byte>): (n: nat)
    ensures n <= |s|
    ensures forall i :: 0 <= i < n ==> IsDigit(s[i])
    ensures n < |s| ==> !IsDigit(s[n])
  {
    if s == [] || !IsDigit(s[0]) then 0 else 1 + DigitSpan(s[1..])
  }

  /** Empty, or `e`/`E`, an optional sign and digits. */
  predicate IsExponent(s: seq<byte>) {
    s == [] ||
    ((s[0] == 0x65 || s[0] == 0x45) &&
     var x := if |s| > 1 && (s[1] == 0x2b || s[1] == 0x2d) then s[2..] else s[1..];
     1 <= |x| == DigitSpan(x))
  }

  /** Empty, or a fraction, an exponent, or both. */
  predicate IsFraction(s: seq<byte>) {
    if s != [] && s[0] == 0x2e then
      var n := DigitSpan(s[1..]);
      n >= 1 && IsExponent(s[1 + n..])
    else IsExponent(s)
  }

  /** `-`? int frac? exp?, with no leading zero. */
  predicate IsNumber(s: seq<byte>) {
    var t := if s != [] && s[0] == 0x2d then s[1..] else s;
    var n := DigitSpan(t);
    n >= 1 && (t[0] == 0x30 ==> n == 1) && IsFraction(t[n..])
  }

  /** A number's parts: its sign, its integer part, the digits of its fraction and its exponent. */
  datatype Number = Number(negative: bool, whole: seq<byte>, frac: seq<byte>, exp: Exponent)

  datatype Exponent = NoExponent | Exponent(mark: byte, sign: seq<byte>, digits: seq<byte>)

  predicate Digits(s: seq<byte>) { forall i :: 0 <= i < |s| ==> IsDigit(s[i]) }

  predicate NumberOk(n: Number) {
    && Digits(n.whole) && Digits(n.frac)
    && (n.whole == [0x30] || (n.whole != [] && n.whole[0] != 0x30))
    && (n.exp.Exponent? ==> ExponentOk(n.exp))
  }

  predicate ExponentOk(e: Exponent)
    requires e.Exponent?
  {
    && (e.mark == 0x65 || e.mark == 0x45)
    && (e.sign == [] || e.sign == [0x2b] || e.sign == [0x2d])
    && e.digits != [] && Digits(e.digits)
  }

  function ExponentBytesOf(e: Exponent): seq<byte> { if e.NoExponent? then [] else [e.mark] + e.sign + e.digits }

  function FractionBytesOf(frac: seq<byte>, exp: Exponent): seq<byte> {
    (if frac == [] then [] else [0x2e] + frac) + ExponentBytesOf(exp)
  }

  function NumberBytes(n: Number): seq<byte> {
    (if n.negative then [0x2d] else []) + n.whole + FractionBytesOf(n.frac, n.exp)
  }

  lemma {:induction false} SpanIs(s: seq<byte>, n: nat)
    requires n <= |s| && Digits(s[..n]) && (n < |s| ==> !IsDigit(s[n]))
    ensures DigitSpan(s) == n
  {
    if n > 0 {
      assert s[1..][..n - 1] == s[..n][1..] && s[..n][0] == s[0];
      SpanIs(s[1..], n - 1);
    }
  }

  lemma ExponentSpelled(e: Exponent)
    requires e.Exponent? ==> ExponentOk(e)
    ensures IsExponent(ExponentBytesOf(e))
  {
    if e.Exponent? {
      var s := ExponentBytesOf(e);
      assert s[1..] == e.sign + e.digits;
      if e.sign != [] { assert s[2..] == e.digits; }
      assert e.digits[..|e.digits|] == e.digits;
      SpanIs(e.digits, |e.digits|);
    }
  }

  lemma FractionSpelled(n: Number)
    requires NumberOk(n)
    ensures IsFraction(FractionBytesOf(n.frac, n.exp))
  {
    hide IsExponent, IsFraction, DigitSpan;
    ExponentSpelled(n.exp);
    var e := ExponentBytesOf(n.exp);
    if n.frac != [] { PointSpelled(n.frac, e); } else { NoPointSpelled(e); }
  }

  lemma NoPointSpelled(e: seq<byte>)
    requires IsExponent(e)
    ensures IsFraction([] + e)
  {
    hide DigitSpan;
    assert [] + e == e;
  }

  lemma PointSpelled(frac: seq<byte>, e: seq<byte>)
    requires frac != [] && Digits(frac) && IsExponent(e) && (e != [] ==> !IsDigit(e[0]))
    ensures IsFraction([0x2e] + frac + e)
  {
    hide IsExponent, DigitSpan;
    var s := [0x2e] + frac + e;
    assert s[1..] == frac + e && s[1..][..|frac|] == frac;
    SpanIs(s[1..], |frac|);
    assert s[1 + |frac|..] == e;
  }

  lemma NumberSpelled(n: Number)
    requires NumberOk(n)
    ensures IsNumber(NumberBytes(n))
  {
    hide IsNumber, IsFraction, DigitSpan;
    FractionSpelled(n);
    var rest := FractionBytesOf(n.frac, n.exp);
    WholeSpelled(n.whole, rest);
    assert [] + n.whole + rest == n.whole + rest;
  }

  lemma WholeSpelled(whole: seq<byte>, rest: seq<byte>)
    requires Digits(whole) && (whole == [0x30] || (whole != [] && whole[0] != 0x30))
    requires IsFraction(rest) && (rest != [] ==> !IsDigit(rest[0]))
    ensures IsNumber(whole + rest) && IsNumber([0x2d] + whole + rest)
  {
    hide IsFraction, DigitSpan;
    var t := whole + rest;
    assert t[..|whole|] == whole && t[|whole|..] == rest && t[0] == whole[0];
    SpanIs(t, |whole|);
    assert ([0x2d] + whole + rest)[1..] == t;
  }

  lemma ExponentParts(s: seq<byte>) returns (e: Exponent)
    requires IsExponent(s)
    ensures (e.Exponent? ==> ExponentOk(e)) && ExponentBytesOf(e) == s
  {
    if s == [] { return NoExponent; }
    var k := if |s| > 1 && (s[1] == 0x2b || s[1] == 0x2d) then 2 else 1;
    e := Exponent(s[0], s[1..k], s[k..]);
    assert s == [s[0]] + s[1..k] + s[k..];
  }

  lemma NumberParts(s: seq<byte>) returns (n: Number)
    requires IsNumber(s)
    ensures NumberOk(n) && NumberBytes(n) == s
  {
    hide IsFraction, DigitSpan, NumberOk, NumberBytes;
    if s[0] == 0x2d {
      n := UnsignedParts(s[1..]);
      Negated(n);
      n := n.(negative := true);
      assert s == [0x2d] + s[1..];
    } else {
      n := UnsignedParts(s);
    }
  }

  lemma Negated(n: Number)
    requires NumberOk(n) && !n.negative
    ensures NumberOk(n.(negative := true)) && NumberBytes(n.(negative := true)) == [0x2d] + NumberBytes(n)
  {
    hide Digits, ExponentOk, FractionBytesOf;
    var rest := FractionBytesOf(n.frac, n.exp);
    assert [] + n.whole + rest == n.whole + rest && [0x2d] + n.whole + rest == [0x2d] + (n.whole + rest);
  }

  lemma UnsignedParts(s: seq<byte>) returns (n: Number)
    requires var i := DigitSpan(s); i >= 1 && (s[0] == 0x30 ==> i == 1) && IsFraction(s[i..])
    ensures NumberOk(n) && !n.negative && NumberBytes(n) == s
  {
    hide IsFraction, DigitSpan, ExponentBytesOf;
    var i := DigitSpan(s);
    var frac, e := FractionParts(s[i..]);
    n := Number(false, s[..i], frac, e);
    assert FractionBytesOf(n.frac, n.exp) == s[i..];
    assert s == s[..i] + s[i..];
  }

  lemma FractionParts(s: seq<byte>) returns (frac: seq<byte>, e: Exponent)
    requires IsFraction(s)
    ensures Digits(frac) && (e.Exponent? ==> ExponentOk(e))
    ensures (if frac == [] then [] else [0x2e] + frac) + ExponentBytesOf(e) == s
  {
    hide IsExponent, DigitSpan, ExponentBytesOf;
    if s != [] && s[0] == 0x2e {
      var n := DigitSpan(s[1..]);
      e := ExponentParts(s[1 + n..]);
      frac := s[1..1 + n];
      assert s[1..][..n] == frac && s == [0x2e] + frac + s[1 + n..];
    } else {
      frac := [];
      e := ExponentParts(s);
    }
  }

  /** The numbers are those of section 6 of RFC 8259. */
  lemma NumberGrammar(s: seq<byte>)
    ensures IsNumber(s) <==> exists n :: NumberOk(n) && NumberBytes(n) == s
  {
    if IsNumber(s) { var _ := NumberParts(s); }
    if n :| NumberOk(n) && NumberBytes(n) == s { NumberSpelled(n); }
  }

  const TRUE: seq<byte> := [0x74, 0x72, 0x75, 0x65]
  const FALSE: seq<byte> := [0x66, 0x61, 0x6c, 0x73, 0x65]
  const NULL: seq<byte> := [0x6e, 0x75, 0x6c, 0x6c]

  predicate IsLiteral(s: seq<byte>)
    ensures IsLiteral(s) ==> s != []
  {
    s == TRUE || s == FALSE || s == NULL || IsNumber(s)
  }

  predicate IsLiteralByte(b: byte) {
    IsDigit(b) || b == 0x2b || b == 0x2d || b == 0x2e || 0x61 <= b <= 0x7a || b == 0x45
  }

  lemma LiteralBytes(s: seq<byte>)
    requires IsLiteral(s)
    ensures s != [] && forall i :: 0 <= i < |s| ==> IsLiteralByte(s[i])
  {
    hide IsFraction, DigitSpan;
    if IsNumber(s) {
      var t := if s[0] == 0x2d then s[1..] else s;
      var n := DigitSpan(t);
      FractionBytes(t[n..]);
      forall i | n <= i < |t| ensures IsLiteralByte(t[i]) { assert t[i] == t[n..][i - n]; }
      assert s[0] == 0x2d ==> forall i :: 1 <= i < |s| ==> s[i] == t[i - 1];
    }
  }

  lemma FractionBytes(s: seq<byte>)
    requires IsFraction(s)
    ensures forall i :: 0 <= i < |s| ==> IsLiteralByte(s[i])
  {
    hide IsExponent, DigitSpan;
    if s != [] && s[0] == 0x2e {
      var n := DigitSpan(s[1..]);
      ExponentBytes(s[1 + n..]);
      forall i | 0 <= i < |s| ensures IsLiteralByte(s[i]) {
        if 1 <= i < 1 + n { assert s[i] == s[1..][i - 1]; }
        if 1 + n <= i { assert s[i] == s[1 + n..][i - 1 - n]; }
      }
    } else {
      ExponentBytes(s);
    }
  }

  lemma ExponentBytes(s: seq<byte>)
    requires IsExponent(s)
    ensures forall i :: 0 <= i < |s| ==> IsLiteralByte(s[i])
  {
    if s != [] {
      var k := if |s| > 1 && (s[1] == 0x2b || s[1] == 0x2d) then 2 else 1;
      forall i | k <= i < |s| ensures IsLiteralByte(s[i]) { assert s[i] == s[k..][i - k]; }
    }
  }

  // ---------- Well-formed values ----------

  datatype StrItem = Plain(b: byte) | Escape(c: byte) | Unicode(hex: seq<byte>)

  predicate IsHex(b: byte) { IsDigit(b) || 0x41 <= b <= 0x46 || 0x61 <= b <= 0x66 }

  predicate ItemOk(i: StrItem) {
    match i
    case Plain(b) => b >= 0x20 && b != QUOTE && b != BACKSLASH
    case Escape(c) =>
      c == QUOTE || c == BACKSLASH || c == 0x2f || c == 0x62 || c == 0x66 || c == 0x6e || c == 0x72 || c == 0x74
    case Unicode(hex) => |hex| == 4 && forall k :: 0 <= k < 4 ==> IsHex(hex[k])
  }

  function ItemBytes(i: StrItem): seq<byte> {
    match i
    case Plain(b) => [b]
    case Escape(c) => [BACKSLASH, c]
    case Unicode(hex) => [BACKSLASH, 0x75] + hex
  }

  /** The bytes between the quotes. */
  function StrBytes(items: seq<StrItem>): seq<byte> {
    if items == [] then [] else ItemBytes(items[0]) + StrBytes(items[1..])
  }

  predicate StrOk(items: seq<StrItem>) { forall i :: 0 <= i < |items| ==> ItemOk(items[i]) }

  function Quoted(body: seq<byte>): seq<byte> { [QUOTE] + body + [QUOTE] }

  datatype Value =
    | VString(items: seq<StrItem>)
    | VLiteral(text: seq<byte>)
    | VArray(ws: seq<byte>, elems: Elems)
    | VObject(ws: seq<byte>, members: Members)

  datatype Elems = ENil | ECons(pre: seq<byte>, value: Value, post: seq<byte>, tail: Elems)

  datatype Members =
    | MNil
    | MCons(pre: seq<byte>, key: seq<StrItem>, mid: seq<byte>, gap: seq<byte>, value: Value, post: seq<byte>,
            tail: Members)

  function Bytes(v: Value): seq<byte> {
    match v
    case VString(items) => Quoted(StrBytes(items))
    case VLiteral(text) => text
    case VArray(ws, elems) => [LBRACKET] + (if elems.ENil? then ws else ElemBytes(elems)) + [RBRACKET]
    case VObject(ws, members) => [LBRACE] + (if members.MNil? then ws else MemberBytes(members)) + [RBRACE]
  }

  function ElemBytes(es: Elems): seq<byte> {
    match es
    case ENil => []
    case ECons(pre, v, post, tail) => pre + Bytes(v) + post + (if tail.ENil? then [] else [COMMA] + ElemBytes(tail))
  }

  function MemberBytes(ms: Members): seq<byte> {
    match ms
    case MNil => []
    case MCons(pre, key, mid, gap, v, post, tail) =>
      pre + Quoted(StrBytes(key)) + mid + [COLON] + gap + Bytes(v) + post
      + (if tail.MNil? then [] else [COMMA] + MemberBytes(tail))
  }

  predicate ValueOk(v: Value) {
    match v
    case VString(items) => StrOk(items)
    case VLiteral(text) => IsLiteral(text)
    case VArray(ws, elems) => AllWs(ws) && ElemsOk(elems)
    case VObject(ws, members) => AllWs(ws) && MembersOk(members)
  }

  predicate ElemsOk(es: Elems) {
    match es
    case ENil => true
    case ECons(pre, v, post, tail) => AllWs(pre) && ValueOk(v) && AllWs(post) && ElemsOk(tail)
  }

  predicate MembersOk(ms: Members) {
    match ms
    case MNil => true
    case MCons(pre, key, mid, gap, v, post, tail) =>
      AllWs(pre) && StrOk(key) && AllWs(mid) && AllWs(gap) && ValueOk(v) && AllWs(post) && MembersOk(tail)
  }

  // ---------- Coarse texts: nested values are bracketed runs ----------

  /** String bytes as a scanner sees them: every backslash takes the next byte along, no bare quote. */
  predicate CoarseStr(s: seq<byte>) {
    if s == [] then true
    else if s[0] == BACKSLASH then |s| >= 2 && CoarseStr(s[2..])
    else s[0] != QUOTE && CoarseStr(s[1..])
  }

  predicate IsBracket(b: byte) { b == LBRACE || b == RBRACE || b == LBRACKET || b == RBRACKET }

  /** A run of plain bytes, strings and matched brackets. */
  datatype Run =
    | REnd
    | RByte(b: byte, tail: Run)
    | RStr(body: seq<byte>, tail: Run)
    | RGroup(curly: bool, inner: Run, tail: Run)

  function Open(curly: bool): byte { if curly then LBRACE else LBRACKET }

  function Close(curly: bool): byte { if curly then RBRACE else RBRACKET }

  function RunBytes(r: Run): seq<byte> {
    match r
    case REnd => []
    case RByte(b, tail) => [b] + RunBytes(tail)
    case RStr(body, tail) => Quoted(body) + RunBytes(tail)
    case RGroup(curly, inner, tail) => [Open(curly)] + RunBytes(inner) + [Close(curly)] + RunBytes(tail)
  }

  predicate RunOk(r: Run) {
    match r
    case REnd => true
    case RByte(b, tail) => b != QUOTE && !IsBracket(b) && RunOk(tail)
    case RStr(body, tail) => CoarseStr(body) && RunOk(tail)
    case RGroup(curly, inner, tail) => RunOk(inner) && RunOk(tail)
  }

  /** A byte order mark: a text decoder drops one at the start of its input. */
  const MARK: seq<byte> := [0xef, 0xbb, 0xbf]

  function Unmarked(s: seq<byte>): seq<byte> { if MARK <= s then s[3..] else s }

  /** The decoded bytes are a literal. */
  predicate ScansAsLiteral(s: seq<byte>) { IsLiteral(Unmarked(s)) }

  predicate IsScannedByte(b: byte) { IsLiteralByte(b) || b == 0xef || b == 0xbb || b == 0xbf }

  lemma ScannedBytes(s: seq<byte>)
    requires ScansAsLiteral(s)
    ensures s != [] && forall i :: 0 <= i < |s| ==> IsScannedByte(s[i])
  {
    hide IsLiteral;
    LiteralBytes(Unmarked(s));
    if MARK <= s {
      assert s[..3] == MARK;
      forall i | 0 <= i < |s| ensures IsScannedByte(s[i]) {
        if i < 3 { assert s[i] == s[..3][i]; } else { assert s[i] == s[3..][i - 3]; }
      }
    }
  }

  /** A literal of the grammar has no mark to drop. */
  lemma LiteralScans(s: seq<byte>)
    requires IsLiteral(s)
    ensures ScansAsLiteral(s)
  {
    hide IsLiteral;
    LiteralBytes(s);
    assert s[0] != MARK[0];
  }

  datatype CoarseValue = CString(body: seq<byte>) | CLiteral(text: seq<byte>) | CGroup(curly: bool, inner: Run)

  datatype CoarseMember =
    CoarseMember(pre: seq<byte>, key: seq<byte>, mid: seq<byte>, gap: seq<byte>, value: CoarseValue, post: seq<byte>)

  function CoarseBytes(v: CoarseValue): seq<byte> {
    match v
    case CString(body) => Quoted(body)
    case CLiteral(text) => text
    case CGroup(curly, inner) => [Open(curly)] + RunBytes(inner) + [Close(curly)]
  }

  predicate CoarseOk(v: CoarseValue) {
    match v
    case CString(body) => CoarseStr(body)
    case CLiteral(text) => ScansAsLiteral(text)
    case CGroup(curly, inner) => RunOk(inner)
  }

  function OneMember(m: CoarseMember): seq<byte> {
    m.pre + Quoted(m.key) + m.mid + [COLON] + m.gap + CoarseBytes(m.value) + m.post
  }

  function CoarseMembers(ms: seq<CoarseMember>): seq<byte> {
    if ms == [] then []
    else OneMember(ms[0]) + (if |ms| == 1 then [] else [COMMA] + CoarseMembers(ms[1..]))
  }

  predicate CoarseMemberOk(m: CoarseMember) {
    AllWs(m.pre) && CoarseStr(m.key) && AllWs(m.mid) && AllWs(m.gap) && CoarseOk(m.value) && AllWs(m.post)
  }

  /** An object text of coarse members; `ws` is used only when there are none. */
  datatype CoarseText = CoarseText(before: seq<byte>, ws: seq<byte>, members: seq<CoarseMember>, after: seq<byte>)

  function TextBytes(t: CoarseText): seq<byte> {
    t.before + [LBRACE] + (if t.members == [] then t.ws else CoarseMembers(t.members)) + [RBRACE] + t.after
  }

  predicate TextOk(t: CoarseText) {
    && AllWs(t.before) && AllWs(t.ws) && AllWs(t.after)
    && forall i :: 0 <= i < |t.members| ==> CoarseMemberOk(t.members[i])
  }

  // ---------- Every well-formed object text is a coarse one ----------

  lemma {:induction false} CoarseStrConcat(a: seq<byte>, b: seq<byte>)
    requires CoarseStr(a) && CoarseStr(b)
    ensures CoarseStr(a + b)
  {
    if a == [] {
      assert a + b == b;
    } else if a[0] == BACKSLASH {
      assert (a + b)[2..] == a[2..] + b;
      CoarseStrConcat(a[2..], b);
    } else {
      assert (a + b)[1..] == a[1..] + b;
      CoarseStrConcat(a[1..], b);
    }
  }

  lemma {:induction false} StrIsCoarse(items: seq<StrItem>)
    requires StrOk(items)
    ensures CoarseStr(StrBytes(items))
  {
    if items != [] {
      StrIsCoarse(items[1..]);
      ItemIsCoarse(items[0]);
      CoarseStrConcat(ItemBytes(items[0]), StrBytes(items[1..]));
    }
  }

  lemma ItemIsCoarse(i: StrItem)
    requires ItemOk(i)
    ensures CoarseStr(ItemBytes(i))
  {
    match i
    case Plain(b) => assert [b][1..] == [];
    case Escape(c) => assert ItemBytes(i)[2..] == [];
    case Unicode(hex) =>
      assert ItemBytes(i)[2..] == hex;
      assert hex == [hex[0], hex[1], hex[2], hex[3]];
      assert hex[1..] == [hex[1], hex[2], hex[3]] && hex[1..][1..] == [hex[2], hex[3]];
      assert hex[1..][1..][1..] == [hex[3]];
      assert CoarseStr([hex[3]]) by { assert [hex[3]][1..] == []; }
      assert CoarseStr([hex[2], hex[3]]);
      assert CoarseStr([hex[1], hex[2], hex[3]]);
  }

  /** Bytes that are neither quotes nor brackets, in front of a run. */
  function PlainRun(p: seq<byte>, tail: Run): Run {
    if p == [] then tail else RByte(p[0], PlainRun(p[1..], tail))
  }

  predicate AllPlain(p: seq<byte>) { forall i :: 0 <= i < |p| ==> p[i] != QUOTE && !IsBracket(p[i]) }

  lemma {:induction false} PlainRunOk(p: seq<byte>, tail: Run)
    requires AllPlain(p) && RunOk(tail)
    ensures RunOk(PlainRun(p, tail)) && RunBytes(PlainRun(p, tail)) == p + RunBytes(tail)
  {
    if p == [] {
      assert p + RunBytes(tail) == RunBytes(tail);
    } else {
      PlainRunOk(p[1..], tail);
      assert p == [p[0]] + p[1..];
    }
  }

  function ValueRun(v: Value, tail: Run): Run
    decreases v, 1
  {
    match v
    case VString(items) => RStr(StrBytes(items), tail)
    case VLiteral(text) => PlainRun(text, tail)
    case VArray(ws, elems) => RGroup(false, Inside(v), tail)
    case VObject(ws, members) => RGroup(true, Inside(v), tail)
  }

  /** What stands between a value's brackets. */
  function Inside(v: Value): Run
    decreases v, 0
  {
    match v
    case VArray(ws, elems) => if elems.ENil? then PlainRun(ws, REnd) else ElemsRun(elems)
    case VObject(ws, members) => if members.MNil? then PlainRun(ws, REnd) else MembersRun(members)
    case _ => REnd
  }

  function ElemsRun(es: Elems): Run {
    match es
    case ENil => REnd
    case ECons(pre, v, post, tail) =>
      PlainRun(pre, ValueRun(v, PlainRun(post, if tail.ENil? then REnd else RByte(COMMA, ElemsRun(tail)))))
  }

  function MembersRun(ms: Members): Run {
    match ms
    case MNil => REnd
    case MCons(pre, key, mid, gap, v, post, tail) =>
      PlainRun(pre, RStr(StrBytes(key), PlainRun(mid, RByte(COLON, PlainRun(gap,
        ValueRun(v, PlainRun(post, if tail.MNil? then REnd else RByte(COMMA, MembersRun(tail)))))))))
  }

  lemma {:induction false} ValueRunOk(v: Value, tail: Run)
    requires ValueOk(v) && RunOk(tail)
    ensures RunOk(ValueRun(v, tail)) && RunBytes(ValueRun(v, tail)) == Bytes(v) + RunBytes(tail)
    decreases v, 1
  {
    match v
    case VString(items) => StrIsCoarse(items);
    case VLiteral(text) => LiteralBytes(text); PlainRunOk(text, tail);
    case VArray(ws, elems) => InsideOk(v);
    case VObject(ws, members) => InsideOk(v);
  }

  lemma {:induction false} InsideOk(v: Value)
    requires ValueOk(v) && (v.VArray? || v.VObject?)
    ensures RunOk(Inside(v)) && Bytes(v) == [Open(v.VObject?)] + RunBytes(Inside(v)) + [Close(v.VObject?)]
    decreases v, 0
  {
    PlainRunOk(v.ws, REnd);
    assert v.ws + [] == v.ws;
    if v.VArray? && v.elems.ECons? { ElemsRunOk(v.elems); }
    if v.VObject? && v.members.MCons? { MembersRunOk(v.members); }
  }

  lemma Assoc(a: seq<byte>, b: seq<byte>, c: seq<byte>, d: seq<byte>)
    ensures a + (b + (c + d)) == a + b + c + d
  {
  }

  lemma {:induction false} ElemsRunOk(es: Elems)
    requires ElemsOk(es)
    ensures RunOk(ElemsRun(es)) && RunBytes(ElemsRun(es)) == ElemBytes(es)
    decreases es, 2
  {
    hide PlainRun, ValueRun, Bytes;
    if es.ECons? {
      ElemsRunOk(es.tail);
      var rest := if es.tail.ENil? then REnd else RByte(COMMA, ElemsRun(es.tail));
      PlainRunOk(es.post, rest);
      ValueRunOk(es.value, PlainRun(es.post, rest));
      PlainRunOk(es.pre, ValueRun(es.value, PlainRun(es.post, rest)));
      Assoc(es.pre, Bytes(es.value), es.post, RunBytes(rest));
    }
  }

  lemma {:induction false} MembersRunOk(ms: Members)
    requires MembersOk(ms)
    ensures RunOk(MembersRun(ms)) && RunBytes(MembersRun(ms)) == MemberBytes(ms)
    decreases ms, 2
  {
    hide PlainRun, ValueRun, Bytes, StrBytes, CoarseStr, Quoted;
    if ms.MCons? {
      MembersRunOk(ms.tail);
      StrIsCoarse(ms.key);
      var r0 := if ms.tail.MNil? then REnd else RByte(COMMA, MembersRun(ms.tail));
      var r1 := PlainRun(ms.post, r0);
      var r2 := ValueRun(ms.value, r1);
      var r3 := RByte(COLON, PlainRun(ms.gap, r2));
      var r4 := RStr(StrBytes(ms.key), PlainRun(ms.mid, r3));
      PlainRunOk(ms.post, r0);
      ValueRunOk(ms.value, r1);
      PlainRunOk(ms.gap, r2);
      PlainRunOk(ms.mid, r3);
      PlainRunOk(ms.pre, r4);
      MemberAssoc(ms.pre, Quoted(StrBytes(ms.key)), ms.mid, ms.gap, Bytes(ms.value), ms.post, RunBytes(r0));
    }
  }

  lemma MemberAssoc(a: seq<byte>, b: seq<byte>, c: seq<byte>, d: seq<byte>, e: seq<byte>, f: seq<byte>, g: seq<byte>)
    ensures a + (b + (c + ([COLON] + (d + (e + (f + g)))))) == a + b + c + [COLON] + d + e + f + g
  {
    Assoc(d, e, f, g);
    var rest := d + e + f + g;
    Assoc(a, b, c, [COLON] + rest);
    assert a + b + c + ([COLON] + rest) == a + b + c + [COLON] + rest;
    assert a + b + c + [COLON] + rest == a + b + c + [COLON] + d + e + f + g;
  }

  function CoarseOf(v: Value): CoarseValue {
    match v
    case VString(items) => CString(StrBytes(items))
    case VLiteral(text) => CLiteral(text)
    case VArray(_, _) => CGroup(false, Inside(v))
    case VObject(_, _) => CGroup(true, Inside(v))
  }

  lemma CoarseOfOk(v: Value)
    requires ValueOk(v)
    ensures CoarseOk(CoarseOf(v)) && CoarseBytes(CoarseOf(v)) == Bytes(v)
  {
    match v
    case VString(items) => StrIsCoarse(items);
    case VLiteral(text) => LiteralScans(text);
    case VArray(_, _) => InsideOk(v);
    case VObject(_, _) => InsideOk(v);
  }

  function CoarseList(ms: Members): seq<CoarseMember> {
    match ms
    case MNil => []
    case MCons(pre, key, mid, gap, v, post, tail) =>
      [CoarseMember(pre, StrBytes(key), mid, gap, CoarseOf(v), post)] + CoarseList(tail)
  }

  lemma {:induction false} CoarseListOk(ms: Members)
    requires MembersOk(ms)
    ensures CoarseMembers(CoarseList(ms)) == MemberBytes(ms)
    ensures (CoarseList(ms) == []) == ms.MNil?
    ensures forall i :: 0 <= i < |CoarseList(ms)| ==> CoarseMemberOk(CoarseList(ms)[i])
  {
    if ms.MCons? {
      CoarseListOk(ms.tail);
      StrIsCoarse(ms.key);
      CoarseOfOk(ms.value);
      assert CoarseList(ms)[1..] == CoarseList(ms.tail);
    }
  }
}
