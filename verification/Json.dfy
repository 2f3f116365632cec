/** The recursive descent parser of src/npm/JsonParser.cpp.

    The specification functions read the remaining input and return what is left of it; the
    class Parser moves a position over the text, as the original does, and is proved against
    them. Doc is the concrete syntax of RFC 8259 (sections 2 to 7), whitespace included, and
    the main results relate it to what the parser returns. */
module Json {
  import opened Common

  /** A number keeps its lexeme: std::stod is not modelled. */
  datatype Json =
    | Null
    | Bool(b: bool)
    | Num(lexeme: string)
    | Str(s: string)
    | Arr(elems: seq<Json>)
    | Obj(members: map<string, Json>)

  // ---------------------------------------------------------------- specification of the parser

  predicate IsWs(c: char) { c == ' ' || c == '\t' || c == '\n' || c == '\r' }

  predicate IsNumChar(c: char) { IsDigit(c) || c == '.' || c == 'e' || c == 'E' || c == '+' || c == '-' }

  function Peek(s: string): char { if s == [] then '\0' else s[0] }

  function Rest(s: string): string { if s == [] then [] else s[1..] }

  function SkipWs(s: string): (r: string)
    ensures |r| <= |s|
  {
    if s != [] && IsWs(s[0]) then SkipWs(s[1..]) else s
  }

  function NumLen(s: string): (n: nat)
    ensures n <= |s|
  {
    if s != [] && IsNumChar(s[0]) then 1 + NumLen(s[1..]) else 0
  }

  /** Drops at most n characters. */
  function Skip(n: nat, s: string): (r: string)
    ensures |r| <= |s|
  {
    if n == 0 || s == [] then s else Skip(n - 1, s[1..])
  }

  function Unescape(e: char): char {
    if e == 'u' then '?' else if e == 'n' then '\n' else if e == 'r' then '\r' else if e == 't' then '\t' else e
  }

  /** The string whose opening quote has been read. */
  function PString(s: string): (r: (string, string))
    ensures |r.1| <= |s|
    decreases |s|
  {
    if s == [] then ("", [])
    else if s[0] == '"' then ("", s[1..])
    else if s[0] == '\\' then
      var e := Peek(s[1..]);
      Prefixed([Unescape(e)], PString(Skip(if e == 'u' then 4 else 0, Rest(s[1..]))))
    else
      Prefixed([s[0]], PString(s[1..]))
  }

  /** A string read in two parts. */
  function Prefixed(before: string, r: (string, string)): (string, string) {
    (before + r.0, r.1)
  }

  lemma PrefixedTwice(a: string, b: string, r: (string, string))
    ensures Prefixed(a + b, r) == Prefixed(a, Prefixed(b, r))
    ensures Prefixed("", r) == r && Prefixed(a, ("", r.1)) == (a, r.1)
  {
    assert (a + b) + r.0 == a + (b + r.0) && "" + r.0 == r.0 && a + "" == a;
  }

  function Expect(word: string, s: string): (r: string)
    ensures |r| <= |s|
  {
    if word == [] || s == [] then s
    else if s[0] == word[0] then Expect(word[1..], s[1..])
    else s[1..]
  }

  function PValue(s: string): (r: (Json, string))
    ensures |r.1| <= |s|
    decreases |s|, 0
  {
    var t := SkipWs(s);
    var c := Peek(t);
    if c == '{' then var (m, r) := PObject(t[1..]); (Obj(m), r)
    else if c == '[' then var (a, r) := PArray(t[1..]); (Arr(a), r)
    else if c == '"' then var (x, r) := PString(t[1..]); (Str(x), r)
    else if c == '-' || IsDigit(c) then (Num(t[..NumLen(t)]), t[NumLen(t)..])
    else if c == 't' then (Bool(true), Expect("true", t))
    else if c == 'f' then (Bool(false), Expect("false", t))
    else if c == 'n' then (Null, Expect("null", t))
    else (Null, t)
  }

  function PObject(s: string): (r: (map<string, Json>, string))
    ensures |r.1| <= |s|
    decreases |s|, 2
  {
    var t := SkipWs(s);
    if Peek(t) == '}' then (map[], t[1..]) else PMembers(t, map[])
  }

  function PMembers(s: string, obj: map<string, Json>): (r: (map<string, Json>, string))
    ensures |r.1| <= |s|
    decreases |s|, 1
  {
    var t := SkipWs(s);
    if Peek(t) != '"' then (obj, t)
    else
      var (key, r) := PString(t[1..]);
      var r1 := SkipWs(r);
      if Peek(r1) != ':' then (obj, Rest(r1))
      else
        var (v, r2) := PValue(SkipWs(r1[1..]));
        var r3 := SkipWs(r2);
        if Peek(r3) == ',' then PMembers(r3[1..], obj[key := v]) else (obj[key := v], Rest(r3))
  }

  function PArray(s: string): (r: (seq<Json>, string))
    ensures |r.1| <= |s|
    decreases |s|, 2
  {
    var t := SkipWs(s);
    if Peek(t) == ']' then ([], t[1..]) else PElems(t, [])
  }

  function PElems(s: string, arr: seq<Json>): (r: (seq<Json>, string))
    ensures |r.1| <= |s|
    decreases |s|, 1
  {
    var (v, r) := PValue(s);
    var r1 := SkipWs(r);
    if Peek(r1) == ',' then PElems(r1[1..], arr + [v]) else (arr + [v], Rest(r1))
  }

  function JsonParse(s: string): Json {
    if SkipWs(s) == [] then Null else PValue(SkipWs(s)).0
  }

  // ---------------------------------------------------------------- the parser object

  class Parser {
    const json: string
    var pos: nat

    constructor (s: string)
      ensures json == s && pos == 0
    {
      json := s;
      pos := 0;
    }

    function Remaining(): string
      requires pos <= |json|
      reads this
    {
      json[pos..]
    }

    method SkipWhitespace()
      requires pos <= |json|
      modifies this
      ensures old(pos) <= pos <= |json| && Remaining() == SkipWs(old(Remaining()))
    {
      while pos < |json| && IsWs(json[pos])
        invariant old(pos) <= pos <= |json| && SkipWs(Remaining()) == SkipWs(old(Remaining()))
      {
        pos := pos + 1;
      }
    }

    function PeekChar(): char
      reads this
    {
      if pos < |json| then json[pos] else '\0'
    }

    method Get() returns (c: char)
      requires pos <= |json|
      modifies this
      ensures old(pos) <= pos <= |json|
      ensures c == Peek(old(Remaining())) && Remaining() == Rest(old(Remaining()))
      ensures old(pos) < |json| ==> pos == old(pos) + 1
    {
      if pos < |json| {
        c := json[pos];
        pos := pos + 1;
      } else {
        c := '\0';
      }
    }

    method ParseString() returns (s: string)
      requires pos < |json|
      modifies this
      ensures old(pos) < pos <= |json|
      ensures (s, Remaining()) == PString(old(Remaining())[1..])
    {
      var c := Get();
      s := "";
      ghost var start := Remaining();
      PrefixedTwice("", "", PString(start));
      while pos < |json|
        invariant old(pos) < pos <= |json|
        invariant PString(start) == Prefixed(s, PString(Remaining()))
        decreases |json| - pos
      {
        c := Get();
        if c == '"' {
          PrefixedTwice(s, "", ("", Remaining()));
          return;
        }
        ghost var before := s;
        if c == '\\' {
          c := ParseEscape();
        }
        s := s + [c];
        PrefixedTwice(before, [c], PString(Remaining()));
      }
      PrefixedTwice(s, "", ("", ""));
    }

    /** The escape whose backslash has just been read, up to the four digits of a \u. */
    method ParseEscape() returns (c: char)
      requires pos <= |json|
      modifies this
      ensures old(pos) <= pos <= |json|
      ensures c == Unescape(Peek(old(Remaining())))
      ensures Remaining() == Skip(if Peek(old(Remaining())) == 'u' then 4 else 0, Rest(old(Remaining())))
    {
      var e := Get();
      if e == 'u' {
        ghost var digits := Remaining();
        var i := 0;
        while i < 4 && pos < |json|
          invariant 0 <= i <= 4 && old(pos) <= pos <= |json|
          invariant Skip(4 - i, Remaining()) == Skip(4, digits)
        {
          var _ := Get();
          i := i + 1;
        }
        c := '?';
      } else if e == 'n' {
        c := '\n';
      } else if e == 'r' {
        c := '\r';
      } else if e == 't' {
        c := '\t';
      } else {
        c := e;
      }
    }

    method ParseNumber() returns (v: Json)
      requires pos < |json| && (json[pos] == '-' || IsDigit(json[pos]))
      modifies this
      ensures old(pos) < pos <= |json|
      ensures (v, Remaining()) == PValue(old(Remaining()))
    {
      var start := pos;
      if PeekChar() == '-' {
        var _ := Get();
      }
      while pos < |json|
        invariant start <= pos <= |json|
        invariant pos == start ==> IsDigit(json[pos])
        invariant NumLen(json[start..]) == pos - start + NumLen(Remaining())
      {
        var c := PeekChar();
        if IsDigit(c) || c == '.' || c == 'e' || c == 'E' || c == '+' || (c == '-' && start < pos) {
          var _ := Get();
        } else {
          break;
        }
      }
      ghost var t, n := json[start..], pos - start;
      NumberIs(t, n);
      assert t[..n] == json[start..pos] && t[n..] == json[pos..];
      v := Num(json[start..pos]);
    }

    method ExpectWord(word: string)
      requires pos <= |json|
      modifies this
      ensures old(pos) <= pos <= |json| && Remaining() == Expect(word, old(Remaining()))
    {
      var w := word;
      while w != [] && pos < |json|
        invariant old(pos) <= pos <= |json| && Expect(w, Remaining()) == Expect(word, old(Remaining()))
        decreases |w|
      {
        var c := Get();
        if c != w[0] {
          return;
        }
        w := w[1..];
      }
    }

    method ParseValue() returns (v: Json)
      requires pos <= |json|
      modifies this
      ensures old(pos) <= pos <= |json|
      ensures (v, Remaining()) == PValue(old(Remaining()))
      decreases |json| - pos, 1
    {
      SkipWhitespace();
      SkipWsTwice(old(Remaining()));
      var c := PeekChar();
      if c == '{' {
        var obj := ParseObject();
        return Obj(obj);
      }
      if c == '[' {
        var arr := ParseArray();
        return Arr(arr);
      }
      if c == '"' {
        var s := ParseString();
        return Str(s);
      }
      if c == '-' || ('0' <= c <= '9') {
        v := ParseNumber();
        return;
      }
      if c == 't' {
        ExpectWord("true");
        return Bool(true);
      }
      if c == 'f' {
        ExpectWord("false");
        return Bool(false);
      }
      if c == 'n' {
        ExpectWord("null");
        return Null;
      }
      return Null;
    }

    method ParseObject() returns (obj: map<string, Json>)
      requires pos < |json|
      modifies this
      ensures old(pos) < pos <= |json|
      ensures (obj, Remaining()) == PObject(old(Remaining())[1..])
      decreases |json| - pos, 0
    {
      obj := map[];
      var c := Get();
      SkipWhitespace();
      if PeekChar() == '}' {
        c := Get();
        return;
      }
      ghost var start := Remaining();
      while true
        invariant old(pos) < pos <= |json|
        invariant PMembers(Remaining(), obj) == PMembers(start, map[])
        decreases |json| - pos
      {
        SkipWhitespace();
        if PeekChar() != '"' { break; }
        var key := ParseString();
        SkipWhitespace();
        c := Get();
        if c != ':' { break; }
        SkipWhitespace();
        var val := ParseValue();
        obj := obj[key := val];
        SkipWhitespace();
        c := Get();
        if c == '}' { break; }
        if c != ',' { break; }
      }
    }

    method ParseArray() returns (arr: seq<Json>)
      requires pos < |json|
      modifies this
      ensures old(pos) < pos <= |json|
      ensures (arr, Remaining()) == PArray(old(Remaining())[1..])
      decreases |json| - pos, 0
    {
      arr := [];
      var c := Get();
      SkipWhitespace();
      if PeekChar() == ']' {
        c := Get();
        return;
      }
      ghost var start := Remaining();
      while true
        invariant old(pos) < pos <= |json|
        invariant PElems(Remaining(), arr) == PElems(start, [])
        decreases |json| - pos
      {
        var val := ParseValue();
        arr := arr + [val];
        SkipWhitespace();
        c := Get();
        if c == ']' { break; }
        if c != ',' { break; }
      }
    }

    method Parse() returns (v: Json)
      requires pos == 0
      modifies this
      ensures v == JsonParse(json)
      ensures pos <= |json|
    {
      SkipWhitespace();
      if pos >= |json| {
        return Null;
      }
      v := ParseValue();
    }
  }

  lemma NumberIs(t: string, n: nat)
    requires t != "" && (t[0] == '-' || IsDigit(t[0])) && n == NumLen(t)
    ensures PValue(t) == (Num(t[..n]), t[n..])
  {
    assert SkipWs(t) == t;
  }

  lemma {:induction false} SkipWsTwice(s: string)
    ensures SkipWs(SkipWs(s)) == SkipWs(s)
    ensures PValue(SkipWs(s)) == PValue(s)
  {
    if s != [] && IsWs(s[0]) { SkipWsTwice(s[1..]); }
  }

  // ---------------------------------------------------------------- concrete syntax

  type Ws = s: string | forall i :: 0 <= i < |s| ==> IsWs(s[i])

  /** A character that may stand for itself: control characters may not. */
  type Plain = c: char | c >= ' ' && c != '"' && c != '\\' witness 'x'

  type EscapeChar = c: char | c in "\"\\/bfnrt" witness 'n'

  type HexChar = c: char | IsDigit(c) || 'a' <= c <= 'f' || 'A' <= c <= 'F' witness '0'

  /** One character of a string as it is written (section 7). */
  datatype Item = Lit(c: Plain) | Esc(e: EscapeChar) | Uni(h0: HexChar, h1: HexChar, h2: HexChar, h3: HexChar)

  /** A number (section 6): optional minus, integer part, fraction and exponent as written. */
  datatype Lexeme = Lexeme(minus: bool, whole: string, frac: string, exp: string) {
    predicate Valid() {
      && AllDigits(whole) && (whole[0] == '0' ==> |whole| == 1)
      && (frac == "" || (frac[0] == '.' && AllDigits(frac[1..])))
      && (exp == "" || ((exp[0] == 'e' || exp[0] == 'E')
            && (AllDigits(exp[1..]) || (|exp| > 1 && (exp[1] == '+' || exp[1] == '-') && AllDigits(exp[2..])))))
    }

    function Text(): string {
      (if minus then "-" else "") + whole + frac + exp
    }
  }

  predicate AllDigits(s: string) {
    s != [] && forall i :: 0 <= i < |s| ==> IsDigit(s[i])
  }

  /** A JSON text without the whitespace around it; every structural position inside carries
      the whitespace written there. */
  datatype Doc =
    | DNull
    | DBool(b: bool)
    | DNum(n: Lexeme)
    | DStr(items: seq<Item>)
    | DEmptyArr(ws: Ws)
    | DArr(elems: Elems)
    | DEmptyObj(ws: Ws)
    | DObj(members: Members)

  datatype Elems =
    | LastElem(pre: Ws, elem: Doc, post: Ws)
    | MoreElems(pre: Ws, elem: Doc, post: Ws, tail: Elems)

  datatype Members =
    | LastMember(pre: Ws, key: seq<Item>, colonPre: Ws, colonPost: Ws, member: Doc, post: Ws)
    | MoreMembers(pre: Ws, key: seq<Item>, colonPre: Ws, colonPost: Ws, member: Doc, post: Ws, tail: Members)

  predicate Wf(d: Doc) {
    match d
    case DNum(n) => n.Valid()
    case DArr(es) => WfElems(es)
    case DObj(ms) => WfMembers(ms)
    case _ => true
  }

  predicate WfElems(es: Elems) {
    Wf(es.elem) && (es.MoreElems? ==> WfElems(es.tail))
  }

  predicate WfMembers(ms: Members) {
    Wf(ms.member) && (ms.MoreMembers? ==> WfMembers(ms.tail))
  }

  // The text of a document followed by k.

  function ItemsText(items: seq<Item>, k: string): string {
    if items == [] then k
    else
      var rest := ItemsText(items[1..], k);
      match items[0]
      case Lit(c) => [c] + rest
      case Esc(e) => ['\\', e] + rest
      case Uni(h0, h1, h2, h3) => ['\\', 'u', h0, h1, h2, h3] + rest
  }

  function Text(d: Doc, k: string): string {
    match d
    case DNull => "null" + k
    case DBool(b) => (if b then "true" else "false") + k
    case DNum(n) => n.Text() + k
    case DStr(items) => ['"'] + ItemsText(items, ['"'] + k)
    case DEmptyArr(ws) => ['['] + (ws + ([']'] + k))
    case DArr(es) => ['['] + ElemsText(es, [']'] + k)
    case DEmptyObj(ws) => ['{'] + (ws + (['}'] + k))
    case DObj(ms) => ['{'] + MembersText(ms, ['}'] + k)
  }

  /** Elements and what closes the array after them. */
  function ElemsText(es: Elems, close: string): string {
    es.pre + Text(es.elem, es.post + (match es
      case LastElem(_, _, _) => close
      case MoreElems(_, _, _, tail) => [','] + ElemsText(tail, close)))
  }

  function MembersText(ms: Members, close: string): string {
    ms.pre + (['"'] + ItemsText(ms.key, ['"'] + (ms.colonPre + ([':'] + (ms.colonPost
      + Text(ms.member, ms.post + (match ms
          case LastMember(_, _, _, _, _, _) => close
          case MoreMembers(_, _, _, _, _, _, tail) => [','] + MembersText(tail, close))))))))
  }

  // The continuation is only a convenience: it is appended to the text.

  lemma {:induction false} ItemsTextAppends(items: seq<Item>, a: string, k: string)
    ensures ItemsText(items, a + k) == ItemsText(items, a) + k
  {
    if items != [] {
      ItemsTextAppends(items[1..], a, k);
      var rest := ItemsText(items[1..], a);
      match items[0]
      case Lit(c) => Assoc([c], rest, k);
      case Esc(e) => Assoc(['\\', e], rest, k);
      case Uni(h0, h1, h2, h3) => Assoc(['\\', 'u', h0, h1, h2, h3], rest, k);
    }
  }

  lemma {:induction false} TextAppends(d: Doc, a: string, k: string)
    ensures Text(d, a + k) == Text(d, a) + k
    decreases d, 0
  {
    match d
    case DNull => Assoc("null", a, k);
    case DBool(b) => Assoc(if b then "true" else "false", a, k);
    case DNum(n) => Assoc(n.Text(), a, k);
    case DStr(items) =>
      Assoc(['"'], a, k);
      ItemsTextAppends(items, ['"'] + a, k);
      Assoc(['"'], ItemsText(items, ['"'] + a), k);
    case DEmptyArr(ws) =>
      Assoc([']'], a, k);
      Assoc(ws, [']'] + a, k);
      Assoc(['['], ws + ([']'] + a), k);
    case DArr(es) =>
      Assoc([']'], a, k);
      ElemsTextAppends(es, [']'] + a, k);
      Assoc(['['], ElemsText(es, [']'] + a), k);
    case DEmptyObj(ws) =>
      Assoc(['}'], a, k);
      Assoc(ws, ['}'] + a, k);
      Assoc(['{'], ws + (['}'] + a), k);
    case DObj(ms) =>
      Assoc(['}'], a, k);
      MembersTextAppends(ms, ['}'] + a, k);
      Assoc(['{'], MembersText(ms, ['}'] + a), k);
  }

  lemma {:induction false} ElemsTextAppends(es: Elems, a: string, k: string)
    ensures ElemsText(es, a + k) == ElemsText(es, a) + k
    decreases es, 1
  {
    ElemTailAppends(es, a, k);
    TextAppends(es.elem, ElemTail(es, a), k);
    Assoc(es.pre, Text(es.elem, ElemTail(es, a)), k);
  }

  lemma {:induction false} ElemTailAppends(es: Elems, a: string, k: string)
    ensures ElemTail(es, a + k) == ElemTail(es, a) + k
    decreases es, 0
  {
    if es.MoreElems? {
      ElemsTextAppends(es.tail, a, k);
      Assoc([','], ElemsText(es.tail, a), k);
    }
    Assoc(es.post, ElemDelim(es, a), k);
  }

  lemma {:induction false} MembersTextAppends(ms: Members, a: string, k: string)
    ensures MembersText(ms, a + k) == MembersText(ms, a) + k
    decreases ms, 2
  {
    FromColonAppends(ms, a, k);
    var c := FromColon(ms, a);
    Assoc(ms.colonPre, c, k);
    Assoc(['"'], ms.colonPre + c, k);
    ItemsTextAppends(ms.key, ['"'] + (ms.colonPre + c), k);
    var items := ItemsText(ms.key, ['"'] + (ms.colonPre + c));
    Assoc(['"'], items, k);
    Assoc(ms.pre, ['"'] + items, k);
  }

  lemma {:induction false} FromColonAppends(ms: Members, a: string, k: string)
    ensures FromColon(ms, a + k) == FromColon(ms, a) + k
    decreases ms, 1
  {
    MemberTailAppends(ms, a, k);
    TextAppends(ms.member, MemberTail(ms, a), k);
    var member := Text(ms.member, MemberTail(ms, a));
    Assoc(ms.colonPost, member, k);
    Assoc([':'], ms.colonPost + member, k);
  }

  lemma {:induction false} MemberTailAppends(ms: Members, a: string, k: string)
    ensures MemberTail(ms, a + k) == MemberTail(ms, a) + k
    decreases ms, 0
  {
    if ms.MoreMembers? {
      MembersTextAppends(ms.tail, a, k);
      Assoc([','], MembersText(ms.tail, a), k);
    }
    Assoc(ms.post, MemberDelim(ms, a), k);
  }

  // What a document means to this parser.

  function CodeChar(i: Item): char {
    match i case Lit(c) => c case Esc(e) => Unescape(e) case Uni(_, _, _, _) => '?'
  }

  function CodeString(items: seq<Item>): string {
    if items == [] then [] else [CodeChar(items[0])] + CodeString(items[1..])
  }

  function Value(d: Doc): Json {
    match d
    case DNull => Null
    case DBool(b) => Bool(b)
    case DNum(n) => Num(n.Text())
    case DStr(items) => Str(CodeString(items))
    case DEmptyArr(_) => Arr([])
    case DArr(es) => Arr(ElemValues(es))
    case DEmptyObj(_) => Obj(map[])
    case DObj(ms) => Obj(MemberValues(ms, map[]))
  }

  function ElemValues(es: Elems): seq<Json> {
    [Value(es.elem)] + if es.LastElem? then [] else ElemValues(es.tail)
  }

  /** Later members of the same name win. */
  function MemberValues(ms: Members, before: map<string, Json>): map<string, Json> {
    var here := before[CodeString(ms.key) := Value(ms.member)];
    if ms.LastMember? then here else MemberValues(ms.tail, here)
  }

  // ---------------------------------------------------------------- parsing what was written

  lemma {:induction false} SkipWsOver(ws: Ws, s: string)
    ensures SkipWs(ws + s) == SkipWs(s)
  {
    if ws == "" {
      assert ws + s == s;
    } else {
      var tail: Ws := ws[1..];
      assert (ws + s)[1..] == tail + s;
      SkipWsOver(tail, s);
    }
  }

  lemma {:induction false} StringBack(items: seq<Item>, k: string)
    ensures PString(ItemsText(items, ['"'] + k)) == (CodeString(items), k)
  {
    if items != [] {
      var rest := ItemsText(items[1..], ['"'] + k);
      var text := ItemsText(items, ['"'] + k);
      StringBack(items[1..], k);
      match items[0]
      case Lit(c) => assert text[1..] == rest;
      case Esc(e) => assert text[1..][1..] == rest && text[1..][0] == e;
      case Uni(h0, h1, h2, h3) =>
        var r4 := text[1..][1..];
        assert r4[0] == h0 && r4[1..][0] == h1;
        assert Skip(4, r4) == Skip(3, r4[1..]) == Skip(2, r4[1..][1..]) == Skip(1, r4[1..][1..][1..])
          == Skip(0, r4[1..][1..][1..][1..]) == rest;
    }
  }

  lemma {:induction false} NumberBack(lex: string, k: string)
    requires forall i :: 0 <= i < |lex| ==> IsNumChar(lex[i])
    requires k == [] || !IsNumChar(k[0])
    ensures NumLen(lex + k) == |lex|
  {
    if lex == [] {
      assert lex + k == k;
    } else {
      assert (lex + k)[1..] == lex[1..] + k;
      NumberBack(lex[1..], k);
    }
  }

  lemma LexemeChars(n: Lexeme)
    requires n.Valid()
    ensures n.Text() != [] && (n.Text()[0] == '-' || IsDigit(n.Text()[0]))
    ensures forall i :: 0 <= i < |n.Text()| ==> IsNumChar(n.Text()[i])
  {
    assert forall i :: 0 <= i < |n.frac| ==> IsNumChar(n.frac[i]) by {
      assert n.frac != "" ==> forall i :: 1 <= i < |n.frac| ==> n.frac[i] == n.frac[1..][i - 1];
    }
    assert forall i :: 0 <= i < |n.exp| ==> IsNumChar(n.exp[i]) by {
      assert n.exp != "" ==> forall i :: 1 <= i < |n.exp| ==> n.exp[i] == n.exp[1..][i - 1];
      assert |n.exp| > 1 ==> forall i :: 2 <= i < |n.exp| ==> n.exp[i] == n.exp[2..][i - 2];
    }
  }

  lemma ExpectBack(word: string, k: string)
    ensures Expect(word, word + k) == k
  {
    if word == [] {
      assert word + k == k;
    } else {
      assert (word + k)[1..] == word[1..] + k;
      ExpectBack(word[1..], k);
    }
  }

  /** The first character of a document is never whitespace or a delimiter. */
  lemma FirstChar(d: Doc, k: string)
    requires Wf(d)
    ensures Text(d, k) != [] && !IsWs(Text(d, k)[0])
    ensures Text(d, k)[0] != ']' && Text(d, k)[0] != '}'
  {
    if d.DNum? { LexemeChars(d.n); }
  }

  predicate Ends(d: Doc, k: string) {
    d.DNum? ==> k == [] || !IsNumChar(k[0])
  }

  /** Reading a written document, with any text after it, gives its value and leaves that text. */
  lemma {:induction false} ValueBack(d: Doc, k: string)
    requires Wf(d) && Ends(d, k)
    ensures PValue(Text(d, k)) == (Value(d), k)
    decreases d, 0
  {
    var t := Text(d, k);
    FirstChar(d, k);
    assert SkipWs(t) == t;
    match d
    case DNull => ExpectBack("null", k);
    case DBool(b) => ExpectBack(if b then "true" else "false", k);
    case DNum(n) =>
      LexemeChars(n);
      NumberBack(n.Text(), k);
      assert t[..|n.Text()|] == n.Text() && t[|n.Text()|..] == k;
    case DStr(items) => StringBack(items, k);
    case DEmptyArr(ws) => SkipWsOver(ws, [']'] + k);
    case DArr(es) =>
      ElemsEnd(es, k);
      ArrayBack(es, [']'] + k);
    case DEmptyObj(ws) => SkipWsOver(ws, ['}'] + k);
    case DObj(ms) =>
      MembersEnd(ms, k);
      ObjectBack(ms, ['}'] + k);
  }

  /** What ends an array or an object for this parser: anything but a comma, or nothing at all. */
  predicate Closes(close: string) {
    close == "" || (!IsWs(close[0]) && close[0] != ',')
  }

  predicate EndsElems(es: Elems, close: string) {
    if es.LastElem? then Ends(es.elem, es.post + close) else EndsElems(es.tail, close)
  }

  predicate EndsMembers(ms: Members, close: string) {
    if ms.LastMember? then Ends(ms.member, ms.post + close) else EndsMembers(ms.tail, close)
  }

  lemma {:induction false} ElemsEnd(es: Elems, k: string)
    ensures EndsElems(es, [']'] + k)
  {
    if es.MoreElems? { ElemsEnd(es.tail, k); }
  }

  lemma {:induction false} MembersEnd(ms: Members, k: string)
    ensures EndsMembers(ms, ['}'] + k)
  {
    if ms.MoreMembers? { MembersEnd(ms.tail, k); }
  }

  /** Reading a written array gives its elements, whatever closes it. */
  lemma {:induction false} ArrayBack(es: Elems, close: string)
    requires WfElems(es) && Closes(close) && EndsElems(es, close)
    ensures PArray(ElemsText(es, close)) == (ElemValues(es), Rest(close))
    decreases es, 2
  {
    var s := ElemsText(es, close);
    SkipWsOver(es.pre, s[|es.pre|..]);
    FirstChar(es.elem, ElemTail(es, close));
    assert s == es.pre + Text(es.elem, ElemTail(es, close));
    assert s[|es.pre|..] == Text(es.elem, ElemTail(es, close));
    assert Peek(SkipWs(s)) != ']';
    SkipWsTwice(s);
    ElemsBack(es, close, []);
    assert PElems(SkipWs(s), []) == PElems(s, []);
    assert [] + ElemValues(es) == ElemValues(es);
  }

  /** What follows an element: whitespace, then the comma or what closes the array. */
  function ElemDelim(es: Elems, close: string): string {
    match es
    case LastElem(_, _, _) => close
    case MoreElems(_, _, _, tail) => [','] + ElemsText(tail, close)
  }

  function ElemTail(es: Elems, close: string): string {
    es.post + ElemDelim(es, close)
  }

  lemma {:induction false} ElemRead(es: Elems, close: string)
    requires WfElems(es) && Closes(close) && EndsElems(es, close)
    ensures PValue(ElemsText(es, close)) == (Value(es.elem), ElemTail(es, close))
    ensures SkipWs(ElemTail(es, close)) == ElemDelim(es, close)
    decreases es, 0
  {
    var elem := Text(es.elem, ElemTail(es, close));
    SkipWsOver(es.pre, elem);
    SkipWsTwice(ElemsText(es, close));
    SkipWsTwice(elem);
    ValueBack(es.elem, ElemTail(es, close));
    SkipWsOver(es.post, ElemDelim(es, close));
  }

  /** One turn of the array loop. */
  lemma ElemsTurn(s: string, v: Json, r: string, delim: string, before: seq<Json>)
    requires PValue(s) == (v, r) && SkipWs(r) == delim
    ensures PElems(s, before)
         == if Peek(delim) == ',' then PElems(delim[1..], before + [v]) else (before + [v], Rest(delim))
  {
  }

  lemma ElemValuesStep(es: Elems, before: seq<Json>)
    ensures var here := before + [Value(es.elem)];
      before + ElemValues(es) == if es.LastElem? then here else here + ElemValues(es.tail)
  {
  }

  lemma {:induction false} ElemsBack(es: Elems, close: string, before: seq<Json>)
    requires WfElems(es) && Closes(close) && EndsElems(es, close)
    ensures PElems(ElemsText(es, close), before) == (before + ElemValues(es), Rest(close))
    decreases es, 1
  {
    var delim := ElemDelim(es, close);
    var here := before + [Value(es.elem)];
    ElemRead(es, close);
    ElemsTurn(ElemsText(es, close), Value(es.elem), ElemTail(es, close), delim, before);
    if es.MoreElems? {
      assert delim[1..] == ElemsText(es.tail, close);
      ElemsBack(es.tail, close, here);
    }
    ElemValuesStep(es, before);
  }

  function MemberDelim(ms: Members, close: string): string {
    match ms
    case LastMember(_, _, _, _, _, _) => close
    case MoreMembers(_, _, _, _, _, _, tail) => [','] + MembersText(tail, close)
  }

  function MemberTail(ms: Members, close: string): string {
    ms.post + MemberDelim(ms, close)
  }

  /** What follows a member's name, from the colon on. */
  function FromColon(ms: Members, close: string): string {
    [':'] + (ms.colonPost + Text(ms.member, MemberTail(ms, close)))
  }

  lemma {:induction false} ObjectBack(ms: Members, close: string)
    requires WfMembers(ms) && Closes(close) && EndsMembers(ms, close)
    ensures PObject(MembersText(ms, close)) == (MemberValues(ms, map[]), Rest(close))
    decreases ms, 1
  {
    var s := MembersText(ms, close);
    SkipWsOver(ms.pre, s[|ms.pre|..]);
    assert s == ms.pre + s[|ms.pre|..];
    SkipWsTwice(s);
    MembersBack(ms, close, map[]);
    assert PMembers(SkipWs(s), map[]) == PMembers(s, map[]);
  }

  lemma NameBack(ms: Members, close: string)
    ensures var t := SkipWs(MembersText(ms, close));
      Peek(t) == '"' && PString(t[1..]) == (CodeString(ms.key), ms.colonPre + FromColon(ms, close))
  {
    var quoted := ItemsText(ms.key, ['"'] + (ms.colonPre + FromColon(ms, close)));
    SkipWsOver(ms.pre, ['"'] + quoted);
    assert SkipWs(['"'] + quoted) == ['"'] + quoted;
    StringBack(ms.key, ms.colonPre + FromColon(ms, close));
  }

  lemma ColonBack(ms: Members, close: string)
    requires Wf(ms.member)
    ensures var t := SkipWs(ms.colonPre + FromColon(ms, close));
      Peek(t) == ':' && SkipWs(t[1..]) == Text(ms.member, MemberTail(ms, close))
  {
    var member := Text(ms.member, MemberTail(ms, close));
    SkipWsOver(ms.colonPre, FromColon(ms, close));
    assert SkipWs(FromColon(ms, close)) == FromColon(ms, close);
    SkipWsOver(ms.colonPost, member);
    FirstChar(ms.member, MemberTail(ms, close));
    assert SkipWs(member) == member;
  }

  lemma {:induction false} MembersBack(ms: Members, close: string, before: map<string, Json>)
    requires WfMembers(ms) && Closes(close) && EndsMembers(ms, close)
    ensures PMembers(MembersText(ms, close), before) == (MemberValues(ms, before), Rest(close))
    decreases ms, 0
  {
    var delim := MemberDelim(ms, close);
    NameBack(ms, close);
    ColonBack(ms, close);
    ValueBack(ms.member, MemberTail(ms, close));
    SkipWsOver(ms.post, delim);
    assert SkipWs(MemberTail(ms, close)) == delim;
    var here := before[CodeString(ms.key) := Value(ms.member)];
    assert PMembers(MembersText(ms, close), before)
        == if Peek(delim) == ',' then PMembers(delim[1..], here) else (here, Rest(delim));
    if ms.MoreMembers? {
      assert delim[1..] == MembersText(ms.tail, close);
      MembersBack(ms.tail, close, here);
    }
  }

  /** Every JSON text of the grammar, with whitespace wherever section 2 allows it, parses to its
      value. */
  lemma ParsesEveryText(pre: Ws, d: Doc, post: Ws)
    requires Wf(d)
    ensures JsonParse(pre + Text(d, post)) == Value(d)
  {
    SkipWsOver(pre, Text(d, post));
    FirstChar(d, post);
    assert SkipWs(Text(d, post)) == Text(d, post);
    ValueBack(d, post);
  }

  // ---------------------------------------------------------------- texts outside the grammar

  /** An array or object that is cut off, or closed by some other character, has the elements or
      members read so far. */
  lemma LooseClose(es: Elems, ms: Members, close: string)
    requires WfElems(es) && WfMembers(ms) && Closes(close) && EndsElems(es, close) && EndsMembers(ms, close)
    ensures JsonParse(['['] + ElemsText(es, close)) == Arr(ElemValues(es))
    ensures JsonParse(['{'] + MembersText(ms, close)) == Obj(MemberValues(ms, map[]))
  {
    ArrayBack(es, close);
    ObjectBack(ms, close);
    var a, o := ['['] + ElemsText(es, close), ['{'] + MembersText(ms, close);
    assert SkipWs(a) == a && a[1..] == ElemsText(es, close);
    assert SkipWs(o) == o && o[1..] == MembersText(ms, close);
  }

  /** A comma before the closing bracket adds a null; before the closing brace it leaves the brace
      unread. */
  lemma TrailingComma(arr: seq<Json>, obj: map<string, Json>, k: string)
    ensures PElems([']'] + k, arr) == (arr + [Null], k)
    ensures PMembers(['}'] + k, obj) == (obj, ['}'] + k)
  {
    var s := [']'] + k;
    assert SkipWs(s) == s && PValue(s) == (Null, s) && Rest(s) == k;
    var t := ['}'] + k;
    assert SkipWs(t) == t;
  }

  /** A name that no colon follows is dropped, and the object ends there. */
  lemma NoColon(key: seq<Item>, k: string, obj: map<string, Json>)
    requires Peek(SkipWs(k)) != ':'
    ensures PMembers(['"'] + ItemsText(key, ['"'] + k), obj) == (obj, Rest(SkipWs(k)))
  {
    var s := ['"'] + ItemsText(key, ['"'] + k);
    assert SkipWs(s) == s && s[1..] == ItemsText(key, ['"'] + k);
    StringBack(key, k);
  }

  /** A string that is cut off has the characters read so far. */
  lemma {:induction false} Unterminated(items: seq<Item>)
    ensures PString(ItemsText(items, "")) == (CodeString(items), "")
  {
    if items != [] {
      Unterminated(items[1..]);
      var rest := ItemsText(items[1..], "");
      var text := ItemsText(items, "");
      match items[0]
      case Lit(c) => assert text[1..] == rest;
      case Esc(e) => assert text[1..][1..] == rest && text[1..][0] == e;
      case Uni(h0, h1, h2, h3) =>
        var r4 := text[1..][1..];
        assert r4[0] == h0 && r4[1..][0] == h1;
        assert Skip(4, r4) == Skip(3, r4[1..]) == Skip(2, r4[1..][1..]) == Skip(1, r4[1..][1..][1..])
          == Skip(0, r4[1..][1..][1..][1..]) == rest;
    }
  }

  /** Words are known by their first letter. Of a word that is misspelt the characters up to and
      including the first wrong one are taken, of one that is cut off all. */
  lemma Misspelt(word: string, n: nat, c: char, k: string)
    requires n < |word| && c != word[n]
    ensures Expect(word, word[..n] + ([c] + k)) == k
    ensures Expect(word, word[..n]) == ""
  {
    if n == 0 {
      assert word[..0] + ([c] + k) == [c] + k && ([c] + k)[1..] == k;
    } else {
      var s := word[..n] + ([c] + k);
      assert s[1..] == word[1..][..n - 1] + ([c] + k) && word[..n][1..] == word[1..][..n - 1];
      Misspelt(word[1..], n - 1, c, k);
    }
  }

  lemma FirstLetter(s: string)
    ensures PValue(['t'] + s).0 == Bool(true) && PValue(['f'] + s).0 == Bool(false) && PValue(['n'] + s).0 == Null
  {
    assert SkipWs(['t'] + s) == ['t'] + s && SkipWs(['f'] + s) == ['f'] + s && SkipWs(['n'] + s) == ['n'] + s;
  }

  /** A number is the longest run of number characters, well formed or not. */
  lemma AnyNumber(lex: string, k: string)
    requires lex != "" && (lex[0] == '-' || IsDigit(lex[0])) && forall i :: 0 <= i < |lex| ==> IsNumChar(lex[i])
    requires k == [] || !IsNumChar(k[0])
    ensures PValue(lex + k) == (Num(lex), k)
  {
    NumberBack(lex, k);
    assert SkipWs(lex + k) == lex + k && (lex + k)[..|lex|] == lex && (lex + k)[|lex|..] == k;
  }

  predicate StartsValue(c: char) {
    c == '{' || c == '[' || c == '"' || c == '-' || IsDigit(c) || c == 't' || c == 'f' || c == 'n'
  }

  /** At any other character, or at the end, the value is null and nothing is taken. */
  lemma Stranger(s: string)
    requires s == "" || (!IsWs(s[0]) && !StartsValue(s[0]))
    ensures PValue(s) == (Null, s)
  {
    assert SkipWs(s) == s;
    var c := Peek(s);
    assert !StartsValue(c);
    assert c != '{' && c != '[' && c != '"' && c != '-' && !IsDigit(c) && c != 't' && c != 'f' && c != 'n';
  }

  // ---------------------------------------------------------------- where the strings differ from the RFC

  function HexValue(c: HexChar): (v: int)
    ensures 0 <= v < 16
  {
    if IsDigit(c) then c as int - '0' as int
    else if 'a' <= c <= 'f' then c as int - 'a' as int + 10
    else c as int - 'A' as int + 10
  }

  /** The code unit that section 7 assigns to a written character. */
  function RfcUnit(i: Item): int {
    match i
    case Lit(c) => c as int
    case Esc(e) =>
      if e == 'b' then 8 else if e == 'f' then 12 else if e == 'n' then 10
      else if e == 'r' then 13 else if e == 't' then 9 else e as int
    case Uni(h0, h1, h2, h3) => HexValue(h0) * 4096 + HexValue(h1) * 256 + HexValue(h2) * 16 + HexValue(h3)
  }

  predicate HighHalf(i: Item) { i.Uni? && 0xD800 <= RfcUnit(i) < 0xDC00 }

  predicate LowHalf(i: Item) { i.Uni? && 0xDC00 <= RfcUnit(i) < 0xE000 }

  function RfcChar(i: Item): char
    requires !HighHalf(i) && !LowHalf(i)
  {
    if i.Lit? then i.c else RfcUnit(i) as char
  }

  function PairChar(high: Item, low: Item): char
    requires HighHalf(high) && LowHalf(low)
  {
    (0x10000 + (RfcUnit(high) - 0xD800) * 0x400 + (RfcUnit(low) - 0xDC00)) as char
  }

  function Prepend(c: char, r: Option<string>): Option<string> {
    if r.None? then r else Some([c] + r.value)
  }

  /** What section 7 makes of a written string, surrogate pairs joined. A surrogate half alone
      stands for no character (section 8.2): None. */
  function RfcString(items: seq<Item>): Option<string> {
    if items == [] then Some("")
    else if HighHalf(items[0]) then
      if |items| > 1 && LowHalf(items[1]) then Prepend(PairChar(items[0], items[1]), RfcString(items[2..])) else None
    else if LowHalf(items[0]) then None
    else Prepend(RfcChar(items[0]), RfcString(items[1..]))
  }

  /** The escapes this parser gets right: all but \b, \f and \uXXXX other than the question mark. */
  predicate Handled(i: Item) {
    match i
    case Lit(_) => true
    case Esc(e) => e != 'b' && e != 'f'
    case Uni(_, _, _, _) => RfcUnit(i) == '?' as int
  }

  predicate AllHandled(items: seq<Item>) {
    forall i :: 0 <= i < |items| ==> Handled(items[i])
  }

  lemma {:induction false} StringLengths(items: seq<Item>)
    ensures |CodeString(items)| == |items|
    ensures RfcString(items).Some? ==> |RfcString(items).value| <= |items|
    decreases |items|
  {
    if items != [] {
      StringLengths(items[1..]);
      if |items| > 1 { StringLengths(items[2..]); }
    }
  }

  lemma OneCharacter(i: Item)
    requires !HighHalf(i) && !LowHalf(i)
    ensures RfcChar(i) == CodeChar(i) <==> Handled(i)
  {
  }

  /** A string is read as the RFC says if and only if it uses only those. */
  lemma {:induction false} StringFaithful(items: seq<Item>)
    ensures RfcString(items) == Some(CodeString(items)) <==> AllHandled(items)
    decreases |items|
  {
    if items != [] {
      StringFaithful(items[1..]);
      StringLengths(items);
      assert items == [items[0]] + items[1..];
      if HighHalf(items[0]) || LowHalf(items[0]) {
        assert !Handled(items[0]);
        if |items| > 1 { StringLengths(items[2..]); }
      } else {
        OneCharacter(items[0]);
        var rest := RfcString(items[1..]);
        assert rest.Some? ==> ([RfcChar(items[0])] + rest.value)[1..] == rest.value;
        assert CodeString(items)[1..] == CodeString(items[1..]);
      }
    }
  }

  lemma BackspaceIsLost()
    ensures CodeString([Esc('b')]) == "b" && RfcString([Esc('b')]) == Some([8 as char])
  {
    var i: Item := Esc('b');
    assert RfcChar(i) == 8 as char && [i][1..] == [];
    assert [8 as char] + "" == [8 as char];
  }

  // ---------------------------------------------------------------- what the RFC makes of a document

  /** The value of a document by the RFC; of several members with a name the last one. */
  function RfcValue(d: Doc): Option<Json> {
    match d
    case DNull => Some(Null)
    case DBool(b) => Some(Bool(b))
    case DNum(n) => Some(Num(n.Text()))
    case DStr(items) => (match RfcString(items) case None => None case Some(s) => Some(Str(s)))
    case DEmptyArr(_) => Some(Arr([]))
    case DArr(es) => (match RfcElems(es) case None => None case Some(vs) => Some(Arr(vs)))
    case DEmptyObj(_) => Some(Obj(map[]))
    case DObj(ms) => (match RfcMembers(ms, map[]) case None => None case Some(m) => Some(Obj(m)))
  }

  function RfcElems(es: Elems): Option<seq<Json>> {
    match RfcValue(es.elem)
    case None => None
    case Some(v) =>
      if es.LastElem? then Some([v])
      else match RfcElems(es.tail) case None => None case Some(vs) => Some([v] + vs)
  }

  function RfcMembers(ms: Members, before: map<string, Json>): Option<map<string, Json>> {
    match RfcString(ms.key)
    case None => None
    case Some(key) =>
      match RfcValue(ms.member)
      case None => None
      case Some(v) => if ms.LastMember? then Some(before[key := v]) else RfcMembers(ms.tail, before[key := v])
  }

  /** All strings and names of the document use only handled escapes. */
  predicate Faithful(d: Doc) {
    match d
    case DStr(items) => AllHandled(items)
    case DArr(es) => FaithfulElems(es)
    case DObj(ms) => FaithfulMembers(ms)
    case _ => true
  }

  predicate FaithfulElems(es: Elems) {
    Faithful(es.elem) && (es.MoreElems? ==> FaithfulElems(es.tail))
  }

  predicate FaithfulMembers(ms: Members) {
    AllHandled(ms.key) && Faithful(ms.member) && (ms.MoreMembers? ==> FaithfulMembers(ms.tail))
  }

  lemma {:induction false} FaithfulValue(d: Doc)
    requires Faithful(d)
    ensures RfcValue(d) == Some(Value(d))
  {
    match d
    case DStr(items) => StringFaithful(items);
    case DArr(es) => FaithfulElemValues(es);
    case DObj(ms) => FaithfulMemberValues(ms, map[]);
    case _ =>
  }

  lemma {:induction false} FaithfulElemValues(es: Elems)
    requires FaithfulElems(es)
    ensures RfcElems(es) == Some(ElemValues(es))
  {
    FaithfulValue(es.elem);
    if es.MoreElems? { FaithfulElemValues(es.tail); }
    assert [Value(es.elem)] + [] == [Value(es.elem)];
  }

  lemma {:induction false} FaithfulMemberValues(ms: Members, before: map<string, Json>)
    requires FaithfulMembers(ms)
    ensures RfcMembers(ms, before) == Some(MemberValues(ms, before))
    decreases ms
  {
    StringFaithful(ms.key);
    FaithfulValue(ms.member);
    if ms.MoreMembers? { FaithfulMemberValues(ms.tail, before[CodeString(ms.key) := Value(ms.member)]); }
  }

  // The converse, for documents in which no object names a member twice.

  function Names(ms: Members): seq<seq<Item>> {
    [ms.key] + if ms.LastMember? then [] else Names(ms.tail)
  }

  function Docs(ms: Members): (ds: seq<Doc>)
    ensures |ds| == |Names(ms)|
  {
    [ms.member] + if ms.LastMember? then [] else Docs(ms.tail)
  }

  /** The names, as the RFC reads them, differ. */
  predicate DistinctNames(ns: seq<seq<Item>>) {
    forall i, j :: 0 <= i < j < |ns| ==> RfcString(ns[i]) != RfcString(ns[j])
  }

  predicate Distinct(d: Doc) {
    match d
    case DArr(es) => DistinctElems(es)
    case DObj(ms) => DistinctNames(Names(ms)) && DistinctMembers(ms)
    case _ => true
  }

  predicate DistinctElems(es: Elems) {
    Distinct(es.elem) && (es.MoreElems? ==> DistinctElems(es.tail))
  }

  predicate DistinctMembers(ms: Members) {
    Distinct(ms.member) && (ms.MoreMembers? ==> DistinctMembers(ms.tail))
  }

  /** Question marks count for, backspaces and form feeds against a string. */
  function Weight(s: string): int {
    if s == "" then 0
    else (if s[0] == '?' then 1 else if s[0] == 8 as char || s[0] == 12 as char then -1 else 0) + Weight(s[1..])
  }

  lemma WeightCons(c: char, s: string)
    ensures Weight([c] + s) == (if c == '?' then 1 else if c == 8 as char || c == 12 as char then -1 else 0) + Weight(s)
  {
    assert ([c] + s)[1..] == s;
  }

  lemma OneWeight(i: Item)
    requires !HighHalf(i) && !LowHalf(i)
    ensures Weight([CodeChar(i)]) >= Weight([RfcChar(i)])
    ensures Weight([CodeChar(i)]) == Weight([RfcChar(i)]) <==> Handled(i)
  {
    WeightCons(CodeChar(i), "");
    WeightCons(RfcChar(i), "");
    assert [CodeChar(i)] + "" == [CodeChar(i)] && [RfcChar(i)] + "" == [RfcChar(i)];
  }

  /** A mishandled escape makes a string heavier, always. */
  lemma {:induction false} WeightGrows(items: seq<Item>)
    requires RfcString(items).Some?
    ensures Weight(CodeString(items)) >= Weight(RfcString(items).value)
    ensures Weight(CodeString(items)) == Weight(RfcString(items).value) <==> AllHandled(items)
    decreases |items|
  {
    if items != [] {
      var i := items[0];
      WeightCons(CodeChar(i), CodeString(items[1..]));
      assert items == [i] + items[1..];
      if HighHalf(i) {
        WeightGrows(items[2..]);
        PairWeight(items);
        assert !Handled(i);
      } else {
        WeightGrows(items[1..]);
        WeightCons(RfcChar(i), RfcString(items[1..]).value);
        OneWeight(i);
        WeightCons(CodeChar(i), "");
        WeightCons(RfcChar(i), "");
        assert [CodeChar(i)] + "" == [CodeChar(i)] && [RfcChar(i)] + "" == [RfcChar(i)];
      }
    }
  }

  lemma PairWeight(items: seq<Item>)
    requires |items| > 1 && HighHalf(items[0]) && LowHalf(items[1]) && RfcString(items[2..]).Some?
    ensures RfcString(items).Some?
    ensures Weight(CodeString(items)) == 2 + Weight(CodeString(items[2..]))
    ensures Weight(RfcString(items).value) == Weight(RfcString(items[2..]).value)
  {
    assert items[1..][0] == items[1] && items[1..][1..] == items[2..];
    WeightCons('?', CodeString(items[1..]));
    WeightCons('?', CodeString(items[2..]));
    WeightCons(PairChar(items[0], items[1]), RfcString(items[2..]).value);
  }

  lemma {:induction false} CodeNames(ms: Members, before: map<string, Json>, key: string)
    ensures key in MemberValues(ms, before) <==> key in before || exists i :: 0 <= i < |Names(ms)| && CodeString(Names(ms)[i]) == key
    decreases ms
  {
    if ms.MoreMembers? {
      CodeNames(ms.tail, before[CodeString(ms.key) := Value(ms.member)], key);
      assert forall i :: 1 <= i < |Names(ms)| ==> Names(ms)[i] == Names(ms.tail)[i - 1];
      assert forall i :: 0 <= i < |Names(ms.tail)| ==> Names(ms.tail)[i] == Names(ms)[i + 1];
    }
    assert Names(ms)[0] == ms.key;
  }

  lemma {:induction false} RfcNames(ms: Members, before: map<string, Json>, key: string)
    requires RfcMembers(ms, before).Some?
    ensures key in RfcMembers(ms, before).value
       <==> key in before || exists i :: 0 <= i < |Names(ms)| && RfcString(Names(ms)[i]) == Some(key)
    decreases ms
  {
    if ms.MoreMembers? {
      RfcNames(ms.tail, before[RfcString(ms.key).value := RfcValue(ms.member).value], key);
      assert forall i :: 1 <= i < |Names(ms)| ==> Names(ms)[i] == Names(ms.tail)[i - 1];
      assert forall i :: 0 <= i < |Names(ms.tail)| ==> Names(ms.tail)[i] == Names(ms)[i + 1];
    }
    assert Names(ms)[0] == ms.key;
  }

  lemma {:induction false} RfcNamesRead(ms: Members, before: map<string, Json>, i: nat)
    requires RfcMembers(ms, before).Some? && i < |Names(ms)|
    ensures RfcString(Names(ms)[i]).Some? && RfcValue(Docs(ms)[i]).Some?
    decreases ms
  {
    if i > 0 {
      TailNames(ms);
      RfcNamesRead(ms.tail, before[RfcString(ms.key).value := RfcValue(ms.member).value], i - 1);
    }
  }

  function Lighter(ws: seq<int>, i: nat): set<int>
    requires i < |ws|
  {
    set k | 0 <= k < |ws| && ws[k] < ws[i]
  }

  lemma FewerLighter(ws: seq<int>, i: nat, j: nat)
    requires i < |ws| && j < |ws| && ws[j] < ws[i]
    ensures |Lighter(ws, j)| < |Lighter(ws, i)|
  {
    assert Lighter(ws, j) <= Lighter(ws, i) && j in Lighter(ws, i) && j !in Lighter(ws, j);
    SubsetSize(Lighter(ws, j), Lighter(ws, i));
  }

  /** wr and wc are the weights of names as the RFC and the code read them, and the k-th name of the
      RFC is the code's name at from[k]. If a mishandled name is always heavier for the code, there is
      none: the lightest for the RFC would have to come from a lighter one. */
  lemma {:induction false} NoneMishandled(wc: seq<int>, wr: seq<int>, ok: seq<bool>, from: seq<int>, i: nat)
    requires |wc| == |wr| == |ok| == |from| && i < |wc|
    requires forall k :: 0 <= k < |from| ==> 0 <= from[k] < |wc| && wc[from[k]] == wr[k] && (ok[from[k]] ==> from[k] == k)
    requires forall k :: 0 <= k < |ok| && !ok[k] ==> wc[k] > wr[k]
    ensures ok[i]
    decreases |Lighter(wr, i)|
  {
    if !ok[i] {
      var j := from[i];
      FewerLighter(wr, i, j);
      NoneMishandled(wc, wr, ok, from, j);
    }
  }

  lemma {:induction false} Untouched(ms: Members, before: map<string, Json>, key: string)
    requires key in before && forall i :: 0 <= i < |Names(ms)| ==> RfcString(Names(ms)[i]) != Some(key)
    requires RfcMembers(ms, before).Some?
    ensures key in RfcMembers(ms, before).value && RfcMembers(ms, before).value[key] == before[key]
    decreases ms
  {
    assert Names(ms)[0] == ms.key;
    if ms.MoreMembers? {
      assert forall i :: 0 <= i < |Names(ms.tail)| ==> Names(ms.tail)[i] == Names(ms)[i + 1];
      Untouched(ms.tail, before[RfcString(ms.key).value := RfcValue(ms.member).value], key);
    }
  }

  lemma {:induction false} CodeUntouched(ms: Members, before: map<string, Json>, key: string)
    requires key in before && forall i :: 0 <= i < |Names(ms)| ==> CodeString(Names(ms)[i]) != key
    ensures key in MemberValues(ms, before) && MemberValues(ms, before)[key] == before[key]
    decreases ms
  {
    assert Names(ms)[0] == ms.key;
    if ms.MoreMembers? {
      assert forall i :: 0 <= i < |Names(ms.tail)| ==> Names(ms.tail)[i] == Names(ms)[i + 1];
      CodeUntouched(ms.tail, before[CodeString(ms.key) := Value(ms.member)], key);
    }
  }

  predicate HandledNames(ns: seq<seq<Item>>) {
    forall k :: 0 <= k < |ns| ==> AllHandled(ns[k])
  }

  lemma TailNames(ms: Members)
    requires ms.MoreMembers?
    ensures Names(ms) == [ms.key] + Names(ms.tail) && Docs(ms) == [ms.member] + Docs(ms.tail)
    ensures DistinctNames(Names(ms)) ==> DistinctNames(Names(ms.tail))
    ensures HandledNames(Names(ms)) ==> HandledNames(Names(ms.tail)) && AllHandled(ms.key)
  {
    var ns := Names(ms);
    assert ns[0] == ms.key && forall k :: 0 <= k < |Names(ms.tail)| ==> Names(ms.tail)[k] == ns[k + 1];
  }

  lemma FirstKept(ms: Members, before: map<string, Json>, before': map<string, Json>)
    requires RfcMembers(ms, before).Some? && DistinctNames(Names(ms)) && HandledNames(Names(ms))
    ensures var key := CodeString(ms.key);
      && key in RfcMembers(ms, before).value && Some(RfcMembers(ms, before).value[key]) == RfcValue(ms.member)
      && key in MemberValues(ms, before') && MemberValues(ms, before')[key] == Value(ms.member)
  {
    var ns, key := Names(ms), CodeString(ms.key);
    assert ns[0] == ms.key;
    StringFaithful(ms.key);
    if ms.MoreMembers? {
      var tail := Names(ms.tail);
      forall k | 0 <= k < |tail| ensures RfcString(tail[k]) != Some(key) && CodeString(tail[k]) != key {
        assert tail[k] == ns[k + 1];
        StringFaithful(ns[k + 1]);
      }
      Untouched(ms.tail, before[key := RfcValue(ms.member).value], key);
      CodeUntouched(ms.tail, before'[key := Value(ms.member)], key);
    }
  }

  /** With handled and distinct names both readings keep every member. */
  lemma {:induction false} MembersKept(ms: Members, before: map<string, Json>, before': map<string, Json>, i: nat)
    requires RfcMembers(ms, before).Some? && DistinctNames(Names(ms)) && HandledNames(Names(ms)) && i < |Names(ms)|
    ensures var key := CodeString(Names(ms)[i]);
      && key in RfcMembers(ms, before).value && Some(RfcMembers(ms, before).value[key]) == RfcValue(Docs(ms)[i])
      && key in MemberValues(ms, before') && MemberValues(ms, before')[key] == Value(Docs(ms)[i])
    decreases ms
  {
    if i == 0 {
      FirstKept(ms, before, before');
    } else {
      TailNames(ms);
      MembersKept(ms.tail, before[RfcString(ms.key).value := RfcValue(ms.member).value],
                  before'[CodeString(ms.key) := Value(ms.member)], i - 1);
    }
  }

  lemma {:induction false} ValueFaithful(d: Doc)
    requires Distinct(d) && RfcValue(d) == Some(Value(d))
    ensures Faithful(d)
    decreases d, 0
  {
    match d
    case DStr(items) => StringFaithful(items);
    case DArr(es) => ElemsFaithful(es);
    case DObj(ms) =>
      forall i | 0 <= i < |Names(ms)| ensures AllHandled(Names(ms)[i]) {
        ObjectNamesHandled(ms, i);
      }
      forall i | 0 <= i < |Names(ms)| ensures RfcValue(Docs(ms)[i]) == Some(Value(Docs(ms)[i])) {
        MembersKept(ms, map[], map[], i);
      }
      MembersFaithful(ms);
    case _ =>
  }

  /** What the RFC reads at k, the code reads at j. */
  predicate IsSource(ns: seq<seq<Item>>, k: int, j: int) {
    0 <= k < |ns| && 0 <= j < |ns| && RfcString(ns[k]) == Some(CodeString(ns[j]))
  }

  lemma SourceIsSelf(ns: seq<seq<Item>>, k: int, j: int)
    requires IsSource(ns, k, j) && DistinctNames(ns) && AllHandled(ns[j])
    ensures j == k
  {
    StringFaithful(ns[j]);
    assert RfcString(ns[j]) == RfcString(ns[k]);
  }

  lemma Heavier(ns: seq<seq<Item>>, k: int, j: int)
    requires IsSource(ns, k, j) && !AllHandled(ns[k])
    ensures Weight(CodeString(ns[k])) > Weight(CodeString(ns[j]))
  {
    WeightGrows(ns[k]);
  }

  lemma NamesHandled(ns: seq<seq<Item>>, from: seq<int>, i: nat)
    requires |from| == |ns| && DistinctNames(ns) && i < |ns|
    requires forall k :: 0 <= k < |ns| ==> IsSource(ns, k, from[k])
    ensures AllHandled(ns[i])
  {
    var wc := seq(|ns|, k requires 0 <= k < |ns| => Weight(CodeString(ns[k])));
    var wr := seq(|ns|, k requires 0 <= k < |ns| => if 0 <= from[k] < |wc| then wc[from[k]] else 0);
    var ok := seq(|ns|, k requires 0 <= k < |ns| => AllHandled(ns[k]));
    forall k | 0 <= k < |ns|
      ensures 0 <= from[k] < |wc| && wc[from[k]] == wr[k] && (ok[from[k]] ==> from[k] == k) && (!ok[k] ==> wc[k] > wr[k])
    {
      assert IsSource(ns, k, from[k]);
      if ok[from[k]] { SourceIsSelf(ns, k, from[k]); }
      if !ok[k] { Heavier(ns, k, from[k]); }
    }
    NoneMishandled(wc, wr, ok, from, i);
  }

  lemma SourceOf(ms: Members, k: nat) returns (j: int)
    requires RfcMembers(ms, map[]) == Some(MemberValues(ms, map[])) && k < |Names(ms)|
    ensures IsSource(Names(ms), k, j)
  {
    RfcNamesRead(ms, map[], k);
    var key := RfcString(Names(ms)[k]).value;
    RfcNames(ms, map[], key);
    CodeNames(ms, map[], key);
    j :| 0 <= j < |Names(ms)| && CodeString(Names(ms)[j]) == key;
  }

  lemma SourcesOf(ms: Members, n: nat) returns (from: seq<int>)
    requires RfcMembers(ms, map[]) == Some(MemberValues(ms, map[])) && n <= |Names(ms)|
    ensures |from| == n && forall k :: 0 <= k < n ==> IsSource(Names(ms), k, from[k])
  {
    if n == 0 {
      from := [];
    } else {
      from := SourcesOf(ms, n - 1);
      var j := SourceOf(ms, n - 1);
      from := from + [j];
    }
  }

  lemma ObjectNamesHandled(ms: Members, i: nat)
    requires DistinctNames(Names(ms)) && RfcMembers(ms, map[]) == Some(MemberValues(ms, map[])) && i < |Names(ms)|
    ensures AllHandled(Names(ms)[i])
  {
    var from := SourcesOf(ms, |Names(ms)|);
    NamesHandled(Names(ms), from, i);
  }

  lemma {:induction false} ElemsFaithful(es: Elems)
    requires DistinctElems(es) && RfcElems(es) == Some(ElemValues(es))
    ensures FaithfulElems(es)
    decreases es, 0
  {
    assert ElemValues(es)[0] == Value(es.elem);
    ValueFaithful(es.elem);
    if es.MoreElems? {
      assert ElemValues(es)[1..] == ElemValues(es.tail) && RfcElems(es).value[1..] == RfcElems(es.tail).value;
      ElemsFaithful(es.tail);
    }
  }

  lemma {:induction false} MembersFaithful(ms: Members)
    requires DistinctMembers(ms) && HandledNames(Names(ms))
    requires forall i :: 0 <= i < |Names(ms)| ==> RfcValue(Docs(ms)[i]) == Some(Value(Docs(ms)[i]))
    ensures FaithfulMembers(ms)
    decreases ms, 0
  {
    var ns, ds := Names(ms), Docs(ms);
    assert ns[0] == ms.key && ds[0] == ms.member;
    ValueFaithful(ms.member);
    if ms.MoreMembers? {
      TailNames(ms);
      var tail := Docs(ms.tail);
      forall i | 0 <= i < |tail| ensures RfcValue(tail[i]) == Some(Value(tail[i])) {
        assert tail[i] == ds[i + 1];
      }
      MembersFaithful(ms.tail);
    }
  }

  /** A JSON text with only handled escapes parses to the value that the RFC gives it, and a text in
      which no object names a member twice parses to that value only then. */
  lemma ParsesAsRfc(pre: Ws, d: Doc, post: Ws)
    requires Wf(d)
    ensures Faithful(d) ==> RfcValue(d) == Some(JsonParse(pre + Text(d, post)))
    ensures Distinct(d) ==> (RfcValue(d) == Some(JsonParse(pre + Text(d, post))) <==> Faithful(d))
  {
    ParsesEveryText(pre, d, post);
    if Faithful(d) { FaithfulValue(d); }
    if Distinct(d) && RfcValue(d) == Some(Value(d)) { ValueFaithful(d); }
  }

  // ---------------------------------------------------------------- a printer

  /** A string that can be written so that this parser reads it back: a control character other than
      newline, return and tab would need an escape that the parser does not decode. */
  predicate Writable(s: string) {
    forall i :: 0 <= i < |s| ==> s[i] >= ' ' || s[i] == '\n' || s[i] == '\r' || s[i] == '\t'
  }

  /** Numbers of v are lexemes of the grammar and its strings are writable. */
  ghost predicate Printable(v: Json) {
    match v
    case Num(lexeme) => exists n: Lexeme :: n.Valid() && n.Text() == lexeme
    case Str(s) => Writable(s)
    case Arr(elems) => forall i :: 0 <= i < |elems| ==> Printable(elems[i])
    case Obj(members) => forall key :: key in members ==> Writable(key) && Printable(members[key])
    case _ => true
  }

  function PrintChar(c: char): (i: Item)
    requires c >= ' ' || c == '\n' || c == '\r' || c == '\t'
    ensures CodeChar(i) == c && Handled(i)
  {
    if c == '\n' then Esc('n') else if c == '\r' then Esc('r') else if c == '\t' then Esc('t')
    else if c == '"' then Esc('"') else if c == '\\' then Esc('\\') else Lit(c)
  }

  function PrintString(s: string): (items: seq<Item>)
    requires Writable(s)
    ensures CodeString(items) == s && AllHandled(items)
  {
    if s == "" then [] else [PrintChar(s[0])] + PrintString(s[1..])
  }

  ghost function Print(v: Json): (d: Doc)
    requires Printable(v)
    ensures Wf(d) && Faithful(d) && Value(d) == v
    decreases v, 0
  {
    match v
    case Null => DNull
    case Bool(b) => DBool(b)
    case Num(lexeme) => var n: Lexeme :| n.Valid() && n.Text() == lexeme; DNum(n)
    case Str(s) => DStr(PrintString(s))
    case Arr(elems) => if elems == [] then DEmptyArr("") else DArr(PrintElems(v, elems))
    case Obj(members) =>
      if members == map[] then DEmptyObj("")
      else
        var ms := PrintMembers(v, members);
        assert MemberValues(ms, map[]) == members;
        DObj(ms)
  }

  ghost function PrintElems(v: Json, elems: seq<Json>): (es: Elems)
    requires elems != [] && forall i :: 0 <= i < |elems| ==> elems[i] < v && Printable(elems[i])
    ensures WfElems(es) && FaithfulElems(es) && ElemValues(es) == elems
    decreases v, 0, |elems|
  {
    if |elems| == 1 then LastElem("", Print(elems[0]), "")
    else MoreElems("", Print(elems[0]), "", PrintElems(v, elems[1..]))
  }

  lemma PutBack(members: map<string, Json>, key: string)
    requires key in members
    ensures forall before: map<string, Json> {:trigger before + members} ::
      before[key := members[key]] + (members - {key}) == before + members
    ensures members - {key} == map[] ==> forall before: map<string, Json> {:trigger before + members} ::
      before[key := members[key]] == before + members
  {
    forall before: map<string, Json>
      ensures before[key := members[key]] + (members - {key}) == before + members
    {
    }
    if members - {key} == map[] {
      assert forall k :: k in members ==> k == key || k in members - {key};
    }
  }

  ghost function PrintMembers(v: Json, members: map<string, Json>): (ms: Members)
    requires members != map[] && forall key :: key in members ==> Writable(key) && members[key] < v && Printable(members[key])
    ensures WfMembers(ms) && FaithfulMembers(ms)
    ensures forall before: map<string, Json> :: MemberValues(ms, before) == before + members
    decreases v, 0, |members|
  {
    var key :| key in members;
    var rest := members - {key};
    PutBack(members, key);
    if rest == map[] then
      LastMember("", PrintString(key), "", "", Print(members[key]), "")
    else
      MoreMembers("", PrintString(key), "", "", Print(members[key]), "", PrintMembers(v, rest))
  }

  // Conversely nothing else can be written at all.

  lemma {:induction false} StringWritable(items: seq<Item>)
    ensures Writable(CodeString(items))
  {
    if items != [] {
      StringWritable(items[1..]);
      var c := CodeChar(items[0]);
      assert c >= ' ' || c == '\n' || c == '\r' || c == '\t';
    }
  }

  lemma {:induction false} ValuePrintable(d: Doc)
    requires Wf(d)
    ensures Printable(Value(d))
  {
    match d
    case DNum(n) => assert n.Valid() && n.Text() == n.Text();
    case DStr(items) => StringWritable(items);
    case DArr(es) => ElemValuesPrintable(es);
    case DObj(ms) => MemberValuesPrintable(ms, map[]);
    case _ =>
  }

  lemma {:induction false} ElemValuesPrintable(es: Elems)
    requires WfElems(es)
    ensures forall i :: 0 <= i < |ElemValues(es)| ==> Printable(ElemValues(es)[i])
  {
    ValuePrintable(es.elem);
    if es.MoreElems? { ElemValuesPrintable(es.tail); }
  }

  lemma {:induction false} MemberValuesPrintable(ms: Members, before: map<string, Json>)
    requires WfMembers(ms) && forall key :: key in before ==> Writable(key) && Printable(before[key])
    ensures forall key :: key in MemberValues(ms, before) ==> Writable(key) && Printable(MemberValues(ms, before)[key])
    decreases ms
  {
    StringWritable(ms.key);
    ValuePrintable(ms.member);
    if ms.MoreMembers? { MemberValuesPrintable(ms.tail, before[CodeString(ms.key) := Value(ms.member)]); }
  }

  /** A value is printable if and only if some JSON text is read as it. */
  lemma PrintableIff(v: Json)
    ensures Printable(v) <==> exists d: Doc :: Wf(d) && Value(d) == v
  {
    if Printable(v) {
      var d := Print(v);
      assert Wf(d) && Value(d) == v;
      assert exists d: Doc :: Wf(d) && Value(d) == v;
    }
    if exists d: Doc :: Wf(d) && Value(d) == v {
      var d: Doc :| Wf(d) && Value(d) == v;
      ValuePrintable(d);
      assert Printable(v);
    }
  }

  /** Round trip: what is printed is a JSON text, by the RFC its value is the one printed, and parsing
      it gives that value back. */
  lemma PrintParse(v: Json)
    requires Printable(v)
    ensures RfcValue(Print(v)) == Some(v) && JsonParse(Text(Print(v), "")) == v
  {
    FaithfulValue(Print(v));
    ParsesEveryText("", Print(v), "");
    assert "" + Text(Print(v), "") == Text(Print(v), "");
  }
}
