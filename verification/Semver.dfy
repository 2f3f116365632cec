/** Version parsing, comparison and selection of src/npm/Semver.cpp. */
module Semver {
  import opened Common

  /** Threw: std::string::substr threw out_of_range. */
  datatype Res<+T> = Threw | Value(v: T)

  datatype Version = Version(major: nat, minor: nat, patch: nat, prerelease: string, build: string)

  datatype ParseResult = OutOfRange | Failed | Parsed(version: Version)

  // ---------------------------------------------------------------- strings and streams

  const INT_MAX := 2147483647

  /** std::string::find of a character; the length stands for npos. */
  function Find(s: string, c: char): (i: nat)
    ensures i <= |s| && (i < |s| ==> s[i] == c)
    ensures forall j :: 0 <= j < i ==> s[j] != c
  {
    if s == "" || s[0] == c then 0 else 1 + Find(s[1..], c)
  }

  function SkipSpace(s: string): string {
    if s != "" && IsSpace(s[0]) then SkipSpace(s[1..]) else s
  }

  function DigitRun(s: string): (n: nat)
    ensures n <= |s|
  {
    if s != "" && IsDigit(s[0]) then 1 + DigitRun(s[1..]) else 0
  }

  function ToNat(s: string): nat
    requires forall i :: 0 <= i < |s| ==> IsDigit(s[i])
  {
    if s == "" then 0
    else
      var last := s[|s| - 1];
      assert IsDigit(last);
      ToNat(s[..|s| - 1]) * 10 + (last as int - '0' as int)
  }

  lemma {:induction false} DigitRunDigits(s: string)
    ensures forall i :: 0 <= i < DigitRun(s) ==> IsDigit(s[i])
  {
    if s != "" && IsDigit(s[0]) {
      DigitRunDigits(s[1..]);
    }
  }

  /** operator>> into an int: the strings that reach it hold no sign, and a value that does not
      fit makes the extraction fail. */
  function ReadInt(s: string): Option<(nat, string)> {
    var t := SkipSpace(s);
    var n := DigitRun(t);
    DigitRunDigits(t);
    if n == 0 || ToNat(t[..n]) > INT_MAX then None else Some((ToNat(t[..n]), t[n..]))
  }

  function ReadChar(s: string): Option<(char, string)> {
    var t := SkipSpace(s);
    if t == "" then None else Some((t[0], t[1..]))
  }

  function ReadNumbers(s: string): Option<(nat, nat, nat)> {
    match ReadInt(s)
    case None => None
    case Some((major, s1)) =>
      match ReadChar(s1)
      case None => None
      case Some((dot1, s2)) =>
        match ReadInt(s2)
        case None => None
        case Some((minor, s3)) =>
          match ReadChar(s3)
          case None => None
          case Some((dot2, s4)) =>
            match ReadInt(s4)
            case None => None
            case Some((patch, _)) =>
              if dot1 == '.' && dot2 == '.' then Some((major, minor, patch)) else None
  }

  // ---------------------------------------------------------------- parse

  function StripV(s: string): string {
    if s != "" && s[0] == 'v' then s[1..] else s
  }

  /** The text of the numbers, the prerelease and the build; None when substr throws. */
  function SplitParts(v: string): Option<(string, string, string)> {
    SplitAt(v, Find(v, '-'), Find(v, '+'))
  }

  function SplitAt(v: string, dash: nat, plus: nat): Option<(string, string, string)>
    requires dash <= |v| && plus <= |v|
  {
    var build := if plus < |v| then v[plus + 1..] else "";
    var v1 := v[..plus];
    if dash == |v| then Some((v1, "", build))
    else if dash + 1 > |v1| then None
    else Some((v1[..dash], v1[dash + 1..], build))
  }

  function ParseStripped(v: string): ParseResult {
    match SplitParts(v)
    case None => OutOfRange
    case Some((numbers, prerelease, build)) => Assemble(ReadNumbers(numbers), prerelease, build)
  }

  function Assemble(numbers: Option<(nat, nat, nat)>, prerelease: string, build: string): ParseResult {
    match numbers
    case None => Failed
    case Some((major, minor, patch)) => Parsed(Version(major, minor, patch, prerelease, build))
  }

  function Parse(version: string): ParseResult {
    ParseStripped(StripV(version))
  }

  /** Semver::parse; its out-parameters are meaningful when it returns true. */
  method ParseVersion(version: string)
    returns (ok: Res<bool>, major: nat, minor: nat, patch: nat, prerelease: string, build: string)
    ensures match Parse(version)
      case OutOfRange => ok == Threw
      case Failed => ok == Value(false)
      case Parsed(w) => ok == Value(true) && w == Version(major, minor, patch, prerelease, build)
  {
    major, minor, patch := 0, 0, 0;
    var v := version;
    if v != "" && v[0] == 'v' {
      v := v[1..];
    }
    var threw;
    threw, v, prerelease, build := TakeApart(v);
    if threw {
      return Threw, major, minor, patch, prerelease, build;
    }
    var numbers := ReadNumbers(v);
    if numbers.None? {
      return Value(false), major, minor, patch, prerelease, build;
    }
    major, minor, patch := numbers.value.0, numbers.value.1, numbers.value.2;
    ok := Value(true);
  }

  /** The part of parse that cuts prerelease and build off. */
  method TakeApart(version: string) returns (threw: bool, v: string, prerelease: string, build: string)
    ensures SplitParts(version) == if threw then None else Some((v, prerelease, build))
  {
    v, prerelease, build := version, "", "";
    var prereleasePos := Find(v, '-');
    var buildPos := Find(v, '+');
    var npos := |v|;
    if buildPos != npos {
      build := v[buildPos + 1..];
      v := v[..buildPos];
    }
    assert v == version[..buildPos];
    if prereleasePos != npos {
      if prereleasePos + 1 > |v| {
        return true, v, prerelease, build;
      }
      prerelease := v[prereleasePos + 1..];
      v := v[..prereleasePos];
    }
    threw := false;
  }

  /** parse throws exactly when the first '+' comes before the first '-'. */
  lemma ThrowsIff(version: string)
    ensures var v := StripV(version);
      Parse(version) == OutOfRange <==> Find(v, '-') < |v| && Find(v, '+') < Find(v, '-')
  {
  }

  // ---------------------------------------------------------------- the texts that parse

  /** One leading v is dropped, and nothing else. */
  lemma StripVMeans(s: string)
    ensures StripV(['v'] + s) == s
    ensures s == "" || s[0] != 'v' ==> StripV(s) == s && Parse(['v'] + s) == Parse(s)
  {
    assert (['v'] + s)[1..] == s;
  }

  predicate IsNumber(d: string) {
    d != "" && forall i :: 0 <= i < |d| ==> IsDigit(d[i])
  }

  /** Blanks, tabs, line feeds, carriage returns, vertical tabs and form feeds. */
  predicate Blank(s: string) {
    forall i :: 0 <= i < |s| ==> s[i] == ' ' || 9 <= s[i] as int <= 13
  }

  /** s is whitespace, a number n that fits an int, and then rest, which continues no number. */
  ghost predicate IntThen(s: string, n: nat, rest: string) {
    exists ws, d {:trigger IntText(s, ws, d, n, rest)} :: IntText(s, ws, d, n, rest)
  }

  predicate IntText(s: string, ws: string, d: string, n: nat, rest: string) {
    Blank(ws) && IsNumber(d) && s == ws + (d + rest) && (rest == "" || !IsDigit(rest[0])) && n == ToNat(d) && n <= 0x7FFF_FFFF
  }

  /** s is whitespace, a dot, and then rest. */
  ghost predicate DotThen(s: string, rest: string) {
    exists ws {:trigger Blank(ws)} :: Blank(ws) && s == ws + (['.'] + rest)
  }

  lemma {:induction false} SkipSpaceSplits(s: string) returns (ws: string)
    ensures Blank(ws) && s == ws + SkipSpace(s) && (SkipSpace(s) == "" || !IsSpace(SkipSpace(s)[0]))
  {
    if s != "" && IsSpace(s[0]) {
      ws := SkipSpaceSplits(s[1..]);
      assert s == [s[0]] + s[1..];
      ws := [s[0]] + ws;
    } else {
      ws := "";
    }
  }

  lemma {:induction false} SkipSpaceOver(ws: string, s: string)
    requires Blank(ws)
    ensures SkipSpace(ws + s) == SkipSpace(s)
  {
    if ws == "" {
      assert ws + s == s;
    } else {
      assert (ws + s)[1..] == ws[1..] + s;
      SkipSpaceOver(ws[1..], s);
    }
  }

  lemma {:induction false} DigitRunEnds(s: string)
    ensures DigitRun(s) < |s| ==> !IsDigit(s[DigitRun(s)])
  {
    if s != "" && IsDigit(s[0]) { DigitRunEnds(s[1..]); }
  }

  lemma ReadIntTakes(s: string)
    requires ReadInt(s).Some?
    ensures IntThen(s, ReadInt(s).value.0, ReadInt(s).value.1)
  {
    var (n, rest) := ReadInt(s).value;
    var ws := SkipSpaceSplits(s);
    var t := SkipSpace(s);
    DigitRunDigits(t);
    DigitRunEnds(t);
    var d := t[..DigitRun(t)];
    assert t == d + rest;
    assert IntText(s, ws, d, n, rest);
  }

  lemma ReadIntGives(s: string, ws: string, d: string, n: nat, rest: string)
    requires IntText(s, ws, d, n, rest)
    ensures ReadInt(s) == Some((n, rest))
  {
    SkipSpaceOver(ws, d + rest);
    assert (d + rest)[0] == d[0];
    DigitRunOver(d, rest);
    assert (d + rest)[..|d|] == d && (d + rest)[|d|..] == rest;
  }

  lemma ReadIntIff(s: string, n: nat, rest: string)
    ensures ReadInt(s) == Some((n, rest)) <==> IntThen(s, n, rest)
  {
    if IntThen(s, n, rest) {
      var ws, d :| IntText(s, ws, d, n, rest);
      ReadIntGives(s, ws, d, n, rest);
    } else if ReadInt(s).Some? {
      ReadIntTakes(s);
    }
  }

  lemma ReadDotIff(s: string, rest: string)
    ensures ReadChar(s) == Some(('.', rest)) <==> DotThen(s, rest)
  {
    if ReadChar(s) == Some(('.', rest)) {
      var ws := SkipSpaceSplits(s);
      assert SkipSpace(s) == ['.'] + rest;
      assert Blank(ws);
    }
    if DotThen(s, rest) {
      var ws :| Blank(ws) && s == ws + (['.'] + rest);
      SkipSpaceOver(ws, ['.'] + rest);
      assert SkipSpace(['.'] + rest) == ['.'] + rest && (['.'] + rest)[1..] == rest;
    }
  }

  /** Three numbers with dots between them, whitespace before any of the five, and anything after. */
  ghost predicate NumbersText(s: string, major: nat, minor: nat, patch: nat) {
    exists s1, s2, s3, s4, s5 ::
      IntThen(s, major, s1) && DotThen(s1, s2) && IntThen(s2, minor, s3) && DotThen(s3, s4) && IntThen(s4, patch, s5)
  }

  lemma ReadNumbersIff(s: string, major: nat, minor: nat, patch: nat)
    ensures ReadNumbers(s) == Some((major, minor, patch)) <==> NumbersText(s, major, minor, patch)
  {
    if ReadNumbers(s) == Some((major, minor, patch)) {
      var s1 := ReadInt(s).value.1;
      var s2 := ReadChar(s1).value.1;
      var s3 := ReadInt(s2).value.1;
      var s4 := ReadChar(s3).value.1;
      var s5 := ReadInt(s4).value.1;
      ReadIntIff(s, major, s1);
      ReadDotIff(s1, s2);
      ReadIntIff(s2, minor, s3);
      ReadDotIff(s3, s4);
      ReadIntIff(s4, patch, s5);
    }
    if NumbersText(s, major, minor, patch) {
      var s1, s2, s3, s4, s5 :|
        IntThen(s, major, s1) && DotThen(s1, s2) && IntThen(s2, minor, s3) && DotThen(s3, s4) && IntThen(s4, patch, s5);
      ReadIntIff(s, major, s1);
      ReadDotIff(s1, s2);
      ReadIntIff(s2, minor, s3);
      ReadDotIff(s3, s4);
      ReadIntIff(s4, patch, s5);
    }
  }

  function PreText(p: Option<string>): string {
    if p.None? then "" else ['-'] + p.value
  }

  function BuildText(b: Option<string>): string {
    if b.None? then "" else ['+'] + b.value
  }

  function OrEmpty(o: Option<string>): string {
    if o.None? then "" else o.value
  }

  /** v consists of numbers n, perhaps a prerelease, and perhaps a build, cut at the first dash and
      the first plus. */
  predicate Parts(v: string, n: string, p: Option<string>, b: Option<string>) {
    && v == n + (PreText(p) + BuildText(b))
    && '-' !in n && '+' !in n && '+' !in OrEmpty(p) && (p.None? ==> '-' !in OrEmpty(b))
  }

  /** An absent prerelease or build counts as an empty one. */
  ghost predicate Cut(v: string, n: string, pre: string, build: string) {
    exists p, b :: Parts(v, n, p, b) && OrEmpty(p) == pre && OrEmpty(b) == build
  }

  lemma {:induction false} FindAbsent(s: string, c: char)
    ensures c !in s <==> Find(s, c) == |s|
  {
    if s != "" {
      FindAbsent(s[1..], c);
      assert s == [s[0]] + s[1..];
    }
  }

  /** Where the separators of such a text are. */
  lemma PartsFinds(v: string, n: string, p: Option<string>, b: Option<string>)
    requires Parts(v, n, p, b)
    ensures Find(v, '-') == if p.Some? then |n| else |v|
    ensures Find(v, '+') == |n| + |PreText(p)| && (Find(v, '+') < |v| <==> b.Some?)
  {
    var pre, tail := PreText(p), BuildText(b);
    FindOver(n, pre + tail, '-');
    FindOver(n, pre + tail, '+');
    FindOver(pre, tail, '+');
    if p.Some? {
      assert (pre + tail)[0] == '-';
    } else {
      assert pre + tail == tail;
      FindAbsent(tail, '-');
    }
  }

  lemma PartsSlices(v: string, n: string, p: Option<string>, b: Option<string>)
    requires Parts(v, n, p, b)
    ensures var plus := |n| + |PreText(p)|; v[..plus] == n + PreText(p) && v[plus..] == BuildText(b)
  {
    Assoc(n, PreText(p), BuildText(b));
  }

  lemma TailSlice(v: string, k: nat, c: char, b: string)
    requires k < |v| && v[k..] == [c] + b
    ensures v[k + 1..] == b
  {
    assert v[k + 1..] == v[k..][1..];
  }

  lemma HeadSlices(n: string, c: char, p: string)
    ensures (n + ([c] + p))[..|n|] == n && (n + ([c] + p))[|n| + 1..] == p
  {
  }

  lemma SplitAtGives(v: string, n: string, p: Option<string>, b: Option<string>, dash: nat, plus: nat)
    requires plus <= |v| && v[..plus] == n + PreText(p) && v[plus..] == BuildText(b)
    requires dash == if p.Some? then |n| else |v|
    ensures dash <= |v| && SplitAt(v, dash, plus) == Some((n, OrEmpty(p), OrEmpty(b)))
  {
    if b.Some? { TailSlice(v, plus, '+', b.value); }
    if p.Some? { HeadSlices(n, '-', p.value); } else { assert n + "" == n; }
  }

  lemma SplitsParts(v: string, n: string, p: Option<string>, b: Option<string>)
    requires Parts(v, n, p, b)
    ensures SplitParts(v) == Some((n, OrEmpty(p), OrEmpty(b)))
  {
    PartsFinds(v, n, p, b);
    PartsSlices(v, n, p, b);
    var dash, plus := Find(v, '-'), Find(v, '+');
    assert plus == |n| + |PreText(p)| && v[..plus] == n + PreText(p) && v[plus..] == BuildText(b);
    SplitAtGives(v, n, p, b, dash, plus);
  }

  lemma TwoParts(v: string, plus: nat)
    requires plus <= |v|
    ensures v == v[..plus] + v[plus..]
    ensures plus < |v| ==> v[plus..] == [v[plus]] + v[plus + 1..]
  {
  }

  lemma NotBefore(v: string, n: string, c: char)
    requires n <= v && |n| <= Find(v, c)
    ensures c !in n
  {
    assert forall i :: 0 <= i < |n| ==> n[i] == v[i];
  }

  lemma NotAfter(v: string, k: nat, c: char)
    requires k <= |v| && c !in v
    ensures c !in v[k..]
  {
    assert v[..k] + v[k..] == v;
  }

  function BuildAt(v: string, plus: nat): Option<string>
    requires plus <= |v|
  {
    if plus < |v| then Some(v[plus + 1..]) else None
  }

  lemma BuildIs(v: string, plus: nat)
    requires plus <= |v| && (plus < |v| ==> v[plus] == '+')
    ensures BuildText(BuildAt(v, plus)) == v[plus..]
  {
    TwoParts(v, plus);
  }

  lemma PreIs(v1: string, dash: nat)
    requires dash < |v1| && v1[dash] == '-'
    ensures PreText(Some(v1[dash + 1..])) == v1[dash..]
  {
    TwoParts(v1, dash);
  }

  lemma JoinThree(v: string, ab: string, a: string, b: string, c: string)
    requires v == ab + c && ab == a + b
    ensures v == a + (b + c)
  {
    Assoc(a, b, c);
  }

  lemma WithPre(v: string, dash: nat, plus: nat)
    requires dash < plus <= |v| && v[dash] == '-' && (plus < |v| ==> v[plus] == '+')
    ensures v == v[..plus][..dash] + (PreText(Some(v[..plus][dash + 1..])) + BuildText(BuildAt(v, plus)))
  {
    var v1 := v[..plus];
    TwoParts(v, plus);
    TwoParts(v1, dash);
    PreIs(v1, dash);
    BuildIs(v, plus);
    JoinThree(v, v1, v1[..dash], v1[dash..], v[plus..]);
  }

  lemma WithoutPre(v: string, plus: nat)
    requires plus <= |v| && (plus < |v| ==> v[plus] == '+')
    ensures v == v[..plus] + (PreText(None) + BuildText(BuildAt(v, plus)))
  {
    TwoParts(v, plus);
    assert "" + BuildText(BuildAt(v, plus)) == v[plus..];
  }

  /** And every text that is not refused is one. */
  lemma SplitIsParts(v: string) returns (p: Option<string>, b: Option<string>)
    requires SplitParts(v).Some?
    ensures Parts(v, SplitParts(v).value.0, p, b)
    ensures OrEmpty(p) == SplitParts(v).value.1 && OrEmpty(b) == SplitParts(v).value.2
  {
    var dash, plus := Find(v, '-'), Find(v, '+');
    b := BuildAt(v, plus);
    if dash < |v| {
      p := Some(v[..plus][dash + 1..]);
      PartsWithPre(v, dash, plus);
    } else {
      p := None;
      PartsWithoutPre(v, plus);
    }
  }

  lemma PartsWithPre(v: string, dash: nat, plus: nat)
    requires dash == Find(v, '-') < plus == Find(v, '+')
    ensures Parts(v, v[..plus][..dash], Some(v[..plus][dash + 1..]), BuildAt(v, plus))
  {
    WithPre(v, dash, plus);
    var v1 := v[..plus];
    NotBefore(v, v1[..dash], '-');
    NotBefore(v, v1[..dash], '+');
    NotBefore(v, v1, '+');
    NotAfter(v1, dash + 1, '+');
  }

  lemma PartsWithoutPre(v: string, plus: nat)
    requires Find(v, '-') == |v| && plus == Find(v, '+')
    ensures Parts(v, v[..plus], None, BuildAt(v, plus))
  {
    WithoutPre(v, plus);
    FindAbsent(v, '-');
    NotBefore(v, v[..plus], '-');
    NotBefore(v, v[..plus], '+');
    if plus < |v| { NotAfter(v, plus + 1, '-'); }
  }

  /** How parse cuts a text: exactly so. */
  lemma SplitPartsIff(v: string, n: string, pre: string, build: string)
    ensures SplitParts(v) == Some((n, pre, build))
       <==> Cut(v, n, pre, build)
  {
    if SplitParts(v) == Some((n, pre, build)) {
      var p, b := SplitIsParts(v);
      assert Cut(v, n, pre, build);
    }
    if Cut(v, n, pre, build) {
      var p, b :| Parts(v, n, p, b) && OrEmpty(p) == pre && OrEmpty(b) == build;
      SplitsParts(v, n, p, b);
    }
  }

  /** The texts that parse, and to what: after an optional v, numbers, prerelease and build. */
  lemma ParseIff(version: string, w: Version)
    ensures Parse(version) == Parsed(w)
       <==> exists n :: Cut(StripV(version), n, w.prerelease, w.build) && NumbersText(n, w.major, w.minor, w.patch)
  {
    var v := StripV(version);
    if Parse(version) == Parsed(w) {
      var n := SplitParts(v).value.0;
      SplitPartsIff(v, n, w.prerelease, w.build);
      ReadNumbersIff(n, w.major, w.minor, w.patch);
      assert Cut(v, n, w.prerelease, w.build) && NumbersText(n, w.major, w.minor, w.patch);
    }
    if exists n :: Cut(v, n, w.prerelease, w.build) && NumbersText(n, w.major, w.minor, w.patch) {
      var n :| Cut(v, n, w.prerelease, w.build) && NumbersText(n, w.major, w.minor, w.patch);
      SplitPartsIff(v, n, w.prerelease, w.build);
      ReadNumbersIff(n, w.major, w.minor, w.patch);
    }
  }

  // ---------------------------------------------------------------- compare

  /** std::string's operator<. */
  predicate Less(a: string, b: string) {
    b != "" && (a == "" || a[0] < b[0] || (a[0] == b[0] && Less(a[1..], b[1..])))
  }

  function ComparePrerelease(a: string, b: string): int {
    if Less(a, b) then -1 else if Less(b, a) then 1 else 0
  }

  function CompareVersions(a: Version, b: Version): int {
    if a.major < b.major then -1
    else if a.major > b.major then 1
    else if a.minor < b.minor then -1
    else if a.minor > b.minor then 1
    else if a.patch < b.patch then -1
    else if a.patch > b.patch then 1
    else if a.prerelease == "" && b.prerelease != "" then 1
    else if a.prerelease != "" && b.prerelease == "" then -1
    else if a.prerelease != "" && b.prerelease != "" then ComparePrerelease(a.prerelease, b.prerelease)
    else 0
  }

  function Compare(v1: string, v2: string): Res<int> {
    CompareResults(Parse(v1), Parse(v2))
  }

  /** The second version is looked at only if the first one parses. */
  function CompareResults(p1: ParseResult, p2: ParseResult): Res<int> {
    match p1
    case OutOfRange => Threw
    case Failed => Value(0)
    case Parsed(a) =>
      match p2
      case OutOfRange => Threw
      case Failed => Value(0)
      case Parsed(b) => Value(CompareVersions(a, b))
  }

  lemma {:induction false} LessTotal(a: string, b: string)
    ensures !(Less(a, b) && Less(b, a))
    ensures Less(a, b) || Less(b, a) || a == b
    ensures a == b ==> !Less(a, b)
  {
    if a != "" && b != "" {
      LessTotal(a[1..], b[1..]);
      assert a == [a[0]] + a[1..] && b == [b[0]] + b[1..];
    }
  }

  lemma {:induction false} LessTransitive(a: string, b: string, c: string)
    requires Less(a, b) && Less(b, c)
    ensures Less(a, c)
  {
    if a != "" && a[0] == b[0] == c[0] { LessTransitive(a[1..], b[1..], c[1..]); }
  }

  /** compare is a total preorder on parsed versions, equal on everything but the build. */
  lemma ComparePreorder(a: Version, b: Version, c: Version)
    ensures CompareVersions(a, b) == -CompareVersions(b, a)
    ensures CompareVersions(a, b) == 0 <==> a.(build := "") == b.(build := "")
    ensures CompareVersions(a, b) <= 0 && CompareVersions(b, c) <= 0 ==> CompareVersions(a, c) <= 0
    ensures CompareVersions(a, b) < 0 && CompareVersions(b, c) <= 0 ==> CompareVersions(a, c) < 0
    ensures CompareVersions(a, b) <= 0 && CompareVersions(b, c) < 0 ==> CompareVersions(a, c) < 0
  {
    LessTotal(a.prerelease, b.prerelease);
    LessTotal(b.prerelease, c.prerelease);
    LessTotal(a.prerelease, c.prerelease);
    if Less(a.prerelease, b.prerelease) && Less(b.prerelease, c.prerelease) {
      LessTransitive(a.prerelease, b.prerelease, c.prerelease);
    }
  }

  /** The order of strings, character by character from the left. */
  predicate StringBefore(a: string, b: string) {
    (|a| < |b| && b[..|a|] == a) || exists k :: 0 <= k < |a| && DifferAt(a, b, k)
  }

  predicate DifferAt(a: string, b: string, k: int) {
    0 <= k < |a| && k < |b| && a[..k] == b[..k] && a[k] < b[k]
  }

  lemma SameHead(a: string, b: string, k: nat)
    requires a != "" && b != ""
    ensures 0 < k <= |a| && k <= |b| && a[..k] == b[..k] ==> a[0] == b[0]
  {
    if 0 < k <= |a| && k <= |b| && a[..k] == b[..k] {
      assert a[..k][0] == a[0] && b[..k][0] == b[0];
    }
  }

  lemma {:induction false} LessIff(a: string, b: string)
    ensures Less(a, b) <==> StringBefore(a, b)
  {
    if a != "" && b != "" {
      LessIff(a[1..], b[1..]);
      if a[0] == b[0] {
        BeforeCons(a, b);
      } else if a[0] < b[0] {
        assert DifferAt(a, b, 0);
      } else {
        forall k | DifferAt(a, b, k) ensures k == 0 || a[0] == b[0] {
          SameHead(a, b, k);
        }
        SameHead(a, b, |a|);
      }
    }
  }

  lemma DifferTail(a: string, b: string, k: int)
    requires a != "" && b != "" && a[0] == b[0] && DifferAt(a, b, k)
    ensures DifferAt(a[1..], b[1..], k - 1)
  {
    assert a[1..][..k - 1] == a[..k][1..] && b[1..][..k - 1] == b[..k][1..];
  }

  lemma DifferWhole(a: string, b: string, k: int)
    requires a != "" && b != "" && a[0] == b[0] && DifferAt(a[1..], b[1..], k)
    ensures DifferAt(a, b, k + 1)
  {
    assert a[..k + 1] == [a[0]] + a[1..][..k] && b[..k + 1] == [b[0]] + b[1..][..k];
  }

  lemma BeforeCons(a: string, b: string)
    requires a != "" && b != "" && a[0] == b[0]
    ensures StringBefore(a, b) <==> StringBefore(a[1..], b[1..])
  {
    assert a == [a[0]] + a[1..];
    if |a| < |b| {
      assert b[..|a|] == [b[0]] + b[1..][..|a| - 1];
      assert b[..|a|][1..] == b[1..][..|a| - 1];
    }
    if k :| DifferAt(a, b, k) {
      DifferTail(a, b, k);
    }
    if k :| DifferAt(a[1..], b[1..], k) {
      DifferWhole(a, b, k);
    }
  }

  /** Major, minor and patch in this order; then a prerelease before the release; then the order of
      strings among prereleases. */
  predicate Precedes(a: Version, b: Version) {
    if a.major != b.major then a.major < b.major
    else if a.minor != b.minor then a.minor < b.minor
    else if a.patch != b.patch then a.patch < b.patch
    else a.prerelease != "" && (b.prerelease == "" || StringBefore(a.prerelease, b.prerelease))
  }

  /** What the sign of compare means. */
  lemma CompareIsOrder(a: Version, b: Version)
    ensures CompareVersions(a, b) < 0 <==> Precedes(a, b)
    ensures CompareVersions(a, b) > 0 <==> Precedes(b, a)
    ensures ComparePrerelease(a.prerelease, b.prerelease) < 0 <==> StringBefore(a.prerelease, b.prerelease)
  {
    LessIff(a.prerelease, b.prerelease);
    LessIff(b.prerelease, a.prerelease);
    LessTotal(a.prerelease, b.prerelease);
  }

  // ---------------------------------------------------------------- ranges

  function RemoveSpaces(s: string): string {
    if s == "" then "" else (if IsSpace(s[0]) then "" else [s[0]]) + RemoveSpaces(s[1..])
  }

  datatype Operator = Eq | Gt | Ge | Lt | Le | Tilde | Caret

  datatype Range = Range(op: Operator, target: string)

  /** None when nothing but whitespace was given. An empty operator behaves as "=". */
  function RangeOf(range: string): Option<Range> {
    SplitOperator(RemoveSpaces(range))
  }

  function SplitOperator(r: string): Option<Range> {
    if r == "" then None
    else if |r| >= 2 && r[0] == '>' && r[1] == '=' then Some(Range(Ge, r[2..]))
    else if |r| >= 2 && r[0] == '<' && r[1] == '=' then Some(Range(Le, r[2..]))
    else if r[0] == '>' then Some(Range(Gt, r[1..]))
    else if r[0] == '<' then Some(Range(Lt, r[1..]))
    else if r[0] == '=' then Some(Range(Eq, r[1..]))
    else if r[0] == '~' then Some(Range(Tilde, r[1..]))
    else if r[0] == '^' then Some(Range(Caret, r[1..]))
    else Some(Range(Eq, r))
  }

  lemma RemoveSpacesStep(range: string, i: nat, text: string)
    requires i < |range|
    ensures text + RemoveSpaces(range[i..])
         == (if IsSpace(range[i]) then text else text + [range[i]]) + RemoveSpaces(range[i + 1..])
  {
    assert range[i..][1..] == range[i + 1..];
    assert text + ([range[i]] + RemoveSpaces(range[i + 1..])) == (text + [range[i]]) + RemoveSpaces(range[i + 1..]);
    assert "" + RemoveSpaces(range[i + 1..]) == RemoveSpaces(range[i + 1..]);
  }

  method RemoveWhitespace(range: string) returns (text: string)
    ensures text == RemoveSpaces(range)
  {
    text := "";
    for i := 0 to |range|
      invariant text + RemoveSpaces(range[i..]) == RemoveSpaces(range)
    {
      RemoveSpacesStep(range, i, text);
      if !IsSpace(range[i]) {
        text := text + [range[i]];
      }
    }
    assert text + "" == text;
  }

  method ParseRange(range: string) returns (r: Option<Range>)
    ensures r == RangeOf(range)
  {
    var text := RemoveWhitespace(range);
    if text == "" {
      return None;
    }
    if |text| >= 2 && text[0] == '>' && text[1] == '=' {
      r := Some(Range(Ge, text[2..]));
    } else if |text| >= 2 && text[0] == '<' && text[1] == '=' {
      r := Some(Range(Le, text[2..]));
    } else if text[0] == '>' {
      r := Some(Range(Gt, text[1..]));
    } else if text[0] == '<' {
      r := Some(Range(Lt, text[1..]));
    } else if text[0] == '=' {
      r := Some(Range(Eq, text[1..]));
    } else if text[0] == '~' {
      r := Some(Range(Tilde, text[1..]));
    } else if text[0] == '^' {
      r := Some(Range(Caret, text[1..]));
    } else {
      r := Some(Range(Eq, text));
    }
  }

  predicate SpaceFree(s: string) {
    forall i :: 0 <= i < |s| ==> !IsSpace(s[i])
  }

  lemma {:induction false} RemoveSpacesConcat(a: string, b: string)
    ensures RemoveSpaces(a + b) == RemoveSpaces(a) + RemoveSpaces(b)
  {
    if a == "" {
      assert a + b == b;
    } else {
      assert (a + b)[1..] == a[1..] + b;
      RemoveSpacesConcat(a[1..], b);
      Assoc(if IsSpace(a[0]) then "" else [a[0]], RemoveSpaces(a[1..]), RemoveSpaces(b));
    }
  }

  lemma {:induction false} RemoveSpacesFree(s: string)
    ensures SpaceFree(RemoveSpaces(s))
    ensures SpaceFree(s) ==> RemoveSpaces(s) == s
    ensures RemoveSpaces(s) == "" <==> Blank(s)
  {
    if s != "" {
      RemoveSpacesFree(s[1..]);
      assert s == [s[0]] + s[1..];
    }
  }

  /** parseRange finds nothing exactly in blank texts. */
  lemma RangeBlank(text: string)
    ensures RangeOf(text) == None <==> Blank(text)
  {
    RemoveSpacesFree(text);
  }

  /** Whitespace never matters, wherever it stands. */
  lemma RangeIgnoresSpaces(text: string)
    ensures RangeOf(RemoveSpaces(text)) == RangeOf(text)
  {
    RemoveSpacesFree(text);
    RemoveSpacesFree(RemoveSpaces(text));
  }

  function OperatorText(op: Operator): string {
    match op
    case Eq => "=" case Gt => ">" case Ge => ">=" case Lt => "<" case Le => "<=" case Tilde => "~" case Caret => "^"
  }

  lemma RemoveAround(a: string, middle: string, c: string)
    requires Blank(a) && Blank(c)
    ensures RemoveSpaces(a + (middle + c)) == RemoveSpaces(middle)
  {
    RemoveSpacesConcat(a, middle + c);
    RemoveSpacesConcat(middle, c);
    RemoveSpacesFree(a);
    RemoveSpacesFree(c);
    assert RemoveSpaces(middle) + "" == RemoveSpaces(middle) && "" + RemoveSpaces(middle) == RemoveSpaces(middle);
  }

  lemma OperatorIsFree(op: Operator)
    ensures RemoveSpaces(OperatorText(op)) == OperatorText(op)
  {
    RemoveSpacesFree(OperatorText(op));
  }

  /** An operator and a target, with whitespace around them, are read as that operator and target. */
  lemma RangeReads(a: string, op: Operator, b: string, target: string, c: string)
    requires Blank(a) && Blank(b) && Blank(c) && SpaceFree(target)
    requires op.Gt? || op.Lt? ==> target == "" || target[0] != '='
    ensures RangeOf(a + (OperatorText(op) + (b + (target + c)))) == Some(Range(op, target))
  {
    var rest := b + (target + c);
    RemoveAround(b, target, c);
    RemoveSpacesFree(target);
    RemoveSpacesConcat(OperatorText(op), rest);
    OperatorIsFree(op);
    assert (OperatorText(op) + rest) + "" == OperatorText(op) + rest;
    RemoveAround(a, OperatorText(op) + rest, "");
    OperatorBack(op, target);
  }

  lemma OperatorBack(op: Operator, target: string)
    requires op.Gt? || op.Lt? ==> target == "" || target[0] != '='
    ensures SplitOperator(OperatorText(op) + target) == Some(Range(op, target))
  {
    var r := OperatorText(op) + target;
    assert r[|OperatorText(op)|..] == target;
    assert forall i :: 0 <= i < |OperatorText(op)| ==> r[i] == OperatorText(op)[i];
  }

  /** A target alone asks for that version. */
  lemma RangeOfTarget(a: string, target: string, c: string)
    requires Blank(a) && Blank(c) && SpaceFree(target)
    requires target != "" && NoOperator(target[0])
    ensures RangeOf(a + (target + c)) == Some(Range(Eq, target))
  {
    RemoveAround(a, target, c);
    RemoveSpacesFree(target);
  }

  predicate NoOperator(c: char) {
    c != '<' && c != '>' && c != '=' && c != '~' && c != '^'
  }

  function Satisfies(version: string, range: string): Res<bool> {
    if range == "*" || range == "latest" then Value(true)
    else
      match RangeOf(range)
      case None => (match Compare(version, range) case Threw => Threw case Value(c) => Value(c == 0))
      case Some(r) =>
        match Compare(version, r.target)
        case Threw => Threw
        case Value(c) => InRange(r.op, c, Parse(version), Parse(r.target))
  }

  /** The branches on the operator, after version and target have been compared. */
  function InRange(op: Operator, c: int, version: ParseResult, target: ParseResult): Res<bool> {
    match op
    case Eq => Value(c == 0)
    case Gt => Value(c > 0)
    case Ge => Value(c >= 0)
    case Lt => Value(c < 0)
    case Le => Value(c <= 0)
    case _ =>
      if target.OutOfRange? then Threw
      else if target.Failed? then Value(false)
      else if version.OutOfRange? then Threw
      else if version.Failed? then Value(false)
      else
        var v, t := version.version, target.version;
        if v.major != t.major then Value(false)
        else if op == Caret && v.major != 0 then Value(true)
        else Value(v.minor == t.minor && v.patch >= t.patch)
  }

  // ---------------------------------------------------------------- findHighest

  /** The loop, with the two questions it asks of the versions as parameters. */
  function Select(versions: seq<string>, sat: string -> Res<bool>, cmp: (string, string) -> Res<int>): Res<string> {
    if versions == [] then Value("")
    else
      match Select(versions[..|versions| - 1], sat, cmp)
      case Threw => Threw
      case Value(highest) => Consider(versions[|versions| - 1], highest, sat, cmp)
  }

  function Consider(version: string, highest: string, sat: string -> Res<bool>, cmp: (string, string) -> Res<int>): Res<string> {
    match sat(version)
    case Threw => Threw
    case Value(false) => Value(highest)
    case Value(true) =>
      if highest == "" then Value(version)
      else
        match cmp(version, highest)
        case Threw => Threw
        case Value(c) => Value(if c > 0 then version else highest)
  }

  function Matcher(range: string): string -> Res<bool> {
    v => Satisfies(v, range)
  }

  function Comparer(): (string, string) -> Res<int> {
    (v1, v2) => Compare(v1, v2)
  }

  function HighestOf(versions: seq<string>, range: string): Res<string> {
    Select(versions, Matcher(range), Comparer())
  }

  lemma {:induction false} ThrewStays(versions: seq<string>, sat: string -> Res<bool>, cmp: (string, string) -> Res<int>, i: nat)
    requires i <= |versions| && Select(versions[..i], sat, cmp) == Threw
    ensures Select(versions, sat, cmp) == Threw
  {
    if i < |versions| {
      assert versions[..|versions| - 1][..i] == versions[..i];
      ThrewStays(versions[..|versions| - 1], sat, cmp, i);
    } else {
      assert versions[..i] == versions;
    }
  }

  method FindHighest(versions: seq<string>, range: string) returns (r: Res<string>)
    ensures r == HighestOf(versions, range)
  {
    var highest := "";
    ghost var sat, cmp := Matcher(range), Comparer();
    for i := 0 to |versions|
      invariant Select(versions[..i], sat, cmp) == Value(highest)
    {
      var version := versions[i];
      assert versions[..i + 1][..i] == versions[..i];
      var s := Satisfies(version, range);
      assert s == sat(version);
      if s.Threw? {
        ThrewStays(versions, sat, cmp, i + 1);
        return Threw;
      }
      if s.v {
        if highest == "" {
          highest := version;
        } else {
          var c := Compare(version, highest);
          assert c == cmp(version, highest);
          if c.Threw? {
            ThrewStays(versions, sat, cmp, i + 1);
            return Threw;
          }
          if c.v > 0 {
            highest := version;
          }
        }
      }
    }
    assert versions[..|versions|] == versions;
    return Value(highest);
  }

  /** The candidate satisfies the range and is not the empty string, which findHighest cannot tell
      from having found nothing. */
  predicate Live(v: string, range: string) {
    v != "" && Satisfies(v, range) == Value(true)
  }

  function Parses(versions: seq<string>): seq<ParseResult> {
    seq(|versions|, i requires 0 <= i < |versions| => Parse(versions[i]))
  }

  function Lives(versions: seq<string>, range: string): seq<bool> {
    seq(|versions|, i requires 0 <= i < |versions| => Live(versions[i], range))
  }

  function VersionOf(p: ParseResult): Version {
    if p.Parsed? then p.version else Version(0, 0, 0, "", "")
  }

  function Versions(ps: seq<ParseResult>): seq<Version> {
    seq(|ps|, i requires 0 <= i < |ps| => VersionOf(ps[i]))
  }

  /** The live candidates that parse. */
  function Good(ps: seq<ParseResult>, live: seq<bool>): seq<bool>
    requires |ps| == |live|
  {
    seq(|ps|, i requires 0 <= i < |ps| => live[i] && ps[i].Parsed?)
  }

  function First(live: seq<bool>): (f: int)
    ensures f == -1 <==> forall i :: 0 <= i < |live| ==> !live[i]
    ensures f != -1 ==> 0 <= f < |live| && live[f] && forall i :: 0 <= i < f ==> !live[i]
  {
    if live == [] then -1
    else
      var init := live[..|live| - 1];
      var f := First(init);
      assert forall i :: 0 <= i < |init| ==> init[i] == live[i];
      if f != -1 then f else if live[|live| - 1] then |live| - 1 else -1
  }

  /** The candidate chosen: the first live one if it does not parse, and otherwise the first maximal
      one among those that do. */
  function Choice(ps: seq<ParseResult>, live: seq<bool>): (k: int)
    requires |ps| == |live|
    ensures -1 <= k < |ps|
  {
    var f := First(live);
    if f == -1 || !ps[f].Parsed? then f else BestOf(Versions(ps), Good(ps, live))
  }

  /** Comparing the live candidate j with what has been chosen since the first one throws. */
  predicate ThrowsAt(ps: seq<ParseResult>, live: seq<bool>, j: int)
    requires |ps| == |live|
  {
    && 0 <= First(live) < j < |ps| && live[j]
    && (ps[j].OutOfRange? || (ps[j].Parsed? && ps[First(live)].OutOfRange?))
  }

  /** k is the first among the maximal fitting versions. */
  ghost predicate FirstMaximal(vs: seq<Version>, fits: seq<bool>, k: int) {
    && 0 <= k < |vs| == |fits| && fits[k]
    && (forall j :: 0 <= j < |vs| && fits[j] ==> CompareVersions(vs[j], vs[k]) <= 0)
    && (forall j :: 0 <= j < k && fits[j] ==> CompareVersions(vs[j], vs[k]) < 0)
  }

  function BestOf(vs: seq<Version>, fits: seq<bool>): (k: int)
    requires |vs| == |fits|
    ensures -1 <= k < |vs|
  {
    if vs == [] then -1
    else
      var n := |vs| - 1;
      var b := BestOf(vs[..n], fits[..n]);
      if fits[n] && (b == -1 || CompareVersions(vs[n], vs[b]) > 0) then n else b
  }

  lemma {:induction false} BestOfIsFirstMaximal(vs: seq<Version>, fits: seq<bool>)
    requires |vs| == |fits|
    ensures BestOf(vs, fits) == -1 <==> forall i :: 0 <= i < |fits| ==> !fits[i]
    ensures BestOf(vs, fits) != -1 ==> FirstMaximal(vs, fits, BestOf(vs, fits))
  {
    if vs != [] {
      var n := |vs| - 1;
      var b := BestOf(vs[..n], fits[..n]);
      BestOfIsFirstMaximal(vs[..n], fits[..n]);
      ComparePreorder(vs[n], vs[n], vs[n]);
      if b != -1 {
        ComparePreorder(vs[b], vs[n], vs[n]);
        forall j | 0 <= j < n && fits[j] && CompareVersions(vs[n], vs[b]) > 0 ensures CompareVersions(vs[j], vs[n]) < 0 {
          assert fits[..n][j] && vs[..n][j] == vs[j];
          ComparePreorder(vs[j], vs[b], vs[n]);
        }
      }
    }
  }

  lemma CompareParsed(v1: string, v2: string, a: Version, b: Version)
    requires Parse(v1) == Parsed(a) && Parse(v2) == Parsed(b)
    ensures v1 != "" && Compare(v1, v2) == Value(CompareVersions(a, b))
  {
  }

  lemma PrefixSlices(ps: seq<ParseResult>, live: seq<bool>)
    requires |ps| == |live| && ps != []
    ensures Versions(ps[..|ps| - 1]) == Versions(ps)[..|ps| - 1]
    ensures Good(ps[..|ps| - 1], live[..|ps| - 1]) == Good(ps, live)[..|ps| - 1]
  {
  }

  lemma {:induction false} BestIsGood(ps: seq<ParseResult>, live: seq<bool>)
    requires |ps| == |live| && exists i :: 0 <= i < |ps| && live[i] && ps[i].Parsed?
    ensures var k := BestOf(Versions(ps), Good(ps, live)); 0 <= k < |ps| && live[k] && ps[k].Parsed?
  {
    BestOfIsFirstMaximal(Versions(ps), Good(ps, live));
    var i :| 0 <= i < |ps| && live[i] && ps[i].Parsed?;
    assert Good(ps, live)[i];
  }

  /** The candidate chosen is live, and parses if and only if the first live one does. */
  lemma ChoiceIsLive(ps: seq<ParseResult>, live: seq<bool>)
    requires |ps| == |live|
    ensures Choice(ps, live) == -1 <==> First(live) == -1
    ensures var k := Choice(ps, live); k != -1 ==> live[k] && (ps[k].Parsed? <==> ps[First(live)].Parsed?)
    ensures var k := Choice(ps, live); k != -1 && !ps[k].Parsed? ==> k == First(live)
  {
    if First(live) != -1 && ps[First(live)].Parsed? { BestIsGood(ps, live); }
  }

  /** One more candidate. */
  lemma ChoiceStep(ps: seq<ParseResult>, live: seq<bool>)
    requires |ps| == |live| && ps != []
    ensures var n := |ps| - 1; var before := Choice(ps[..n], live[..n]);
      Choice(ps, live) ==
        if !live[n] then before
        else if before == -1 then n
        else if ps[n].Parsed? && ps[before].Parsed? && CompareVersions(ps[n].version, ps[before].version) > 0 then n
        else before
  {
    var n := |ps| - 1;
    PrefixSlices(ps, live);
    ChoiceIsLive(ps[..n], live[..n]);
    if First(live[..n]) == -1 && live[n] && ps[n].Parsed? {
      BestOfIsFirstMaximal(Versions(ps[..n]), Good(ps[..n], live[..n]));
    }
  }

  function Outcome(versions: seq<string>, ps: seq<ParseResult>, live: seq<bool>): Res<string>
    requires |ps| == |live| == |versions|
  {
    if exists j :: 0 <= j < |ps| && ThrowsAt(ps, live, j) then Threw
    else Value(if Choice(ps, live) == -1 then "" else versions[Choice(ps, live)])
  }

  lemma OutcomeStep(versions: seq<string>, ps: seq<ParseResult>, live: seq<bool>)
    requires |ps| == |live| == |versions| && ps != []
    ensures var n := |ps| - 1; var first := Outcome(versions[..n], ps[..n], live[..n]); var before := Choice(ps[..n], live[..n]);
      Outcome(versions, ps, live) ==
        if first == Threw || !live[n] then first
        else if before == -1 then Value(versions[n])
        else
          match CompareResults(ps[n], ps[before])
          case Threw => Threw
          case Value(c) => Value(if c > 0 then versions[n] else versions[before])
  {
    ChoiceStep(ps, live);
    ChoiceIsLive(ps[..|ps| - 1], live[..|ps| - 1]);
    ThrowsStep(ps, live);
  }

  /** sat and cmp answer as the parse results and the live flags say. */
  ghost predicate Described(versions: seq<string>, sat: string -> Res<bool>, cmp: (string, string) -> Res<int>,
                            ps: seq<ParseResult>, live: seq<bool>) {
    && |ps| == |live| == |versions|
    && (forall i :: 0 <= i < |versions| ==> sat(versions[i]).Value?)
    && (forall i :: 0 <= i < |versions| ==> live[i] == (versions[i] != "" && sat(versions[i]) == Value(true)))
    && (forall i :: 0 <= i < |versions| ==> versions[i] == "" ==> ps[i] == Failed)
    && (forall i, j | 0 <= i < |versions| && 0 <= j < |versions| :: cmp(versions[i], versions[j]) == CompareResults(ps[i], ps[j]))
  }

  lemma DescribedPrefix(versions: seq<string>, sat: string -> Res<bool>, cmp: (string, string) -> Res<int>,
                        ps: seq<ParseResult>, live: seq<bool>, n: nat)
    requires Described(versions, sat, cmp, ps, live) && n <= |versions|
    ensures Described(versions[..n], sat, cmp, ps[..n], live[..n])
  {
  }

  lemma ConsiderExactly(v: string, highest: string, sat: string -> Res<bool>, cmp: (string, string) -> Res<int>,
                        live: bool, p: ParseResult, q: ParseResult)
    requires sat(v).Value? && live == (v != "" && sat(v) == Value(true)) && (v == "" ==> p == Failed)
    requires highest != "" ==> cmp(v, highest) == CompareResults(p, q)
    ensures Consider(v, highest, sat, cmp) ==
      if !live then Value(highest)
      else if highest == "" then Value(v)
      else match CompareResults(p, q) case Threw => Threw case Value(c) => Value(if c > 0 then v else highest)
  {
  }

  lemma SelectUnfold(versions: seq<string>, sat: string -> Res<bool>, cmp: (string, string) -> Res<int>, highest: string)
    requires versions != [] && Select(versions[..|versions| - 1], sat, cmp) == Value(highest)
    ensures Select(versions, sat, cmp) == Consider(versions[|versions| - 1], highest, sat, cmp)
  {
  }

  /** One more candidate, when the ones before it were gone through without an exception. */
  lemma SelectOneMore(versions: seq<string>, sat: string -> Res<bool>, cmp: (string, string) -> Res<int>,
                      ps: seq<ParseResult>, live: seq<bool>, n: nat, before: int)
    requires Described(versions, sat, cmp, ps, live) && n == |versions| - 1 && -1 <= before < n
    requires before != -1 ==> versions[before] != ""
    requires Select(versions[..n], sat, cmp) == Value(if before == -1 then "" else versions[before])
    ensures Select(versions, sat, cmp) ==
      if !live[n] then Value(if before == -1 then "" else versions[before])
      else if before == -1 then Value(versions[n])
      else match CompareResults(ps[n], ps[before]) case Threw => Threw case Value(c) => Value(if c > 0 then versions[n] else versions[before])
  {
    if before == -1 {
      SelectUnfold(versions, sat, cmp, "");
      ConsiderExactly(versions[n], "", sat, cmp, live[n], ps[n], Failed);
    } else {
      SelectUnfold(versions, sat, cmp, versions[before]);
      ConsiderExactly(versions[n], versions[before], sat, cmp, live[n], ps[n], ps[before]);
    }
  }

  lemma ChoiceIsNamed(versions: seq<string>, sat: string -> Res<bool>, cmp: (string, string) -> Res<int>,
                      ps: seq<ParseResult>, live: seq<bool>)
    requires Described(versions, sat, cmp, ps, live)
    ensures Choice(ps, live) != -1 ==> versions[Choice(ps, live)] != ""
  {
    ChoiceIsLive(ps, live);
  }

  /** What the loop does, without conditions on the candidates. */
  lemma {:induction false} SelectExactly(versions: seq<string>, sat: string -> Res<bool>, cmp: (string, string) -> Res<int>,
                                         ps: seq<ParseResult>, live: seq<bool>)
    requires Described(versions, sat, cmp, ps, live)
    ensures Select(versions, sat, cmp) == Outcome(versions, ps, live)
  {
    if versions != [] {
      var n := |versions| - 1;
      DescribedPrefix(versions, sat, cmp, ps, live, n);
      SelectExactly(versions[..n], sat, cmp, ps[..n], live[..n]);
      OutcomeStep(versions, ps, live);
      if Outcome(versions[..n], ps[..n], live[..n]) != Threw {
        ChoiceIsNamed(versions[..n], sat, cmp, ps[..n], live[..n]);
        SelectOneMore(versions, sat, cmp, ps, live, n, Choice(ps[..n], live[..n]));
      }
    }
  }

  lemma ThrowsStep(ps: seq<ParseResult>, live: seq<bool>)
    requires |ps| == |live| && ps != []
    ensures var n := |ps| - 1;
      (exists j :: 0 <= j < |ps| && ThrowsAt(ps, live, j))
      <==> (exists j :: 0 <= j < n && ThrowsAt(ps[..n], live[..n], j)) || ThrowsAt(ps, live, n)
    ensures var n := |ps| - 1; var before := Choice(ps[..n], live[..n]);
      ThrowsAt(ps, live, n) <==> live[n] && before != -1 && CompareResults(ps[n], ps[before]) == Threw
  {
    var n := |ps| - 1;
    ChoiceIsLive(ps[..n], live[..n]);
    if j :| 0 <= j < |ps| && j < n && ThrowsAt(ps, live, j) {
      assert ThrowsAt(ps[..n], live[..n], j);
    }
    if j :| 0 <= j < n && ThrowsAt(ps[..n], live[..n], j) {
      assert ThrowsAt(ps, live, j);
    }
  }

  lemma {:induction false} SatThrows(versions: seq<string>, sat: string -> Res<bool>, cmp: (string, string) -> Res<int>, i: nat)
    requires i < |versions| && sat(versions[i]) == Threw
    ensures Select(versions, sat, cmp) == Threw
  {
    if i < |versions| - 1 { SatThrows(versions[..|versions| - 1], sat, cmp, i); }
  }

  /** findHighest on every list and range: it throws if the range check of some candidate does or
      the comparison of a later live candidate does; otherwise it returns the candidate of Choice,
      or the empty string if no candidate is live. */
  lemma FindHighestExactly(versions: seq<string>, range: string)
    ensures var ps, live := Parses(versions), Lives(versions, range);
      HighestOf(versions, range) ==
        if exists i :: 0 <= i < |versions| && Satisfies(versions[i], range) == Threw then Threw
        else Outcome(versions, ps, live)
  {
    if i :| 0 <= i < |versions| && Satisfies(versions[i], range) == Threw {
      SatThrows(versions, Matcher(range), Comparer(), i);
    } else {
      forall i | 0 <= i < |versions| ensures Matcher(range)(versions[i]).Value? {
        assert Satisfies(versions[i], range) != Threw;
      }
      forall i, j | 0 <= i < |versions| && 0 <= j < |versions|
        ensures Comparer()(versions[i], versions[j]) == CompareResults(Parses(versions)[i], Parses(versions)[j])
      {
      }
      forall i | 0 <= i < |versions| && versions[i] == "" ensures Parses(versions)[i] == Failed {
        EmptyFails();
      }
      SelectExactly(versions, Matcher(range), Comparer(), Parses(versions), Lives(versions, range));
    }
  }

  lemma EmptyFails()
    ensures Parse("") == Failed
  {
  }

  /** The result is what the documentation of the function suggests: the first maximal version
      among the live candidates that parse, or empty if no candidate is live. */
  ghost predicate Highest(versions: seq<string>, range: string, r: string) {
    var ps, live := Parses(versions), Lives(versions, range);
    if First(live) == -1 then r == ""
    else exists k :: FirstMaximal(Versions(ps), Good(ps, live), k) && versions[k] == r
  }

  /** Unless it throws, findHighest returns that if and only if no candidate is live or the first
      live one parses. */
  lemma FindsFirstMaximal(versions: seq<string>, range: string)
    requires HighestOf(versions, range).Value?
    ensures var ps, live := Parses(versions), Lives(versions, range);
      Highest(versions, range, HighestOf(versions, range).v) <==> First(live) == -1 || ps[First(live)].Parsed?
  {
    var ps, live := Parses(versions), Lives(versions, range);
    FindHighestExactly(versions, range);
    ChoiceIsLive(ps, live);
    BestOfIsFirstMaximal(Versions(ps), Good(ps, live));
    var f := First(live);
    if f != -1 && ps[f].Parsed? {
      BestIsGood(ps, live);
      assert FirstMaximal(Versions(ps), Good(ps, live), Choice(ps, live));
    } else if f != -1 {
      forall k | FirstMaximal(Versions(ps), Good(ps, live), k) ensures versions[k] != versions[f] {
        assert ps[k] == Parse(versions[k]) && ps[f] == Parse(versions[f]);
      }
    }
  }

  /** A first live candidate that does not parse is the result, however high the others are. */
  lemma JunkIsNeverReplaced(versions: seq<string>, range: string)
    requires HighestOf(versions, range).Value?
    requires First(Lives(versions, range)) != -1 && !Parse(versions[First(Lives(versions, range))]).Parsed?
    ensures HighestOf(versions, range) == Value(versions[First(Lives(versions, range))])
  {
    FindHighestExactly(versions, range);
  }

  /** What the operators mean for a version and a target that parse. */
  predicate Admits(op: Operator, a: Version, t: Version) {
    match op
    case Eq => a.(build := "") == t.(build := "")
    case Gt => CompareVersions(t, a) < 0
    case Ge => !(CompareVersions(a, t) < 0)
    case Lt => CompareVersions(a, t) < 0
    case Le => !(CompareVersions(t, a) < 0)
    case Tilde => (a.major, a.minor) == (t.major, t.minor) && a.patch >= t.patch
    case Caret => a.major == t.major && (t.major == 0 ==> a.minor == t.minor && a.patch >= t.patch)
  }

  /** The comparison operators, by the order of versions. */
  lemma OperatorsMean(a: Version, t: Version)
    ensures Admits(Eq, a, t) <==> !Precedes(a, t) && !Precedes(t, a)
    ensures Admits(Gt, a, t) <==> Precedes(t, a)
    ensures Admits(Ge, a, t) <==> !Precedes(a, t)
    ensures Admits(Lt, a, t) <==> Precedes(a, t)
    ensures Admits(Le, a, t) <==> !Precedes(t, a)
    ensures t.major == 0 ==> (Admits(Caret, a, t) <==> Admits(Tilde, a, t))
  {
    CompareIsOrder(a, t);
    CompareIsOrder(t, a);
    ComparePreorder(a, t, t);
  }

  lemma InRangeMeans(op: Operator, a: Version, t: Version)
    ensures InRange(op, CompareVersions(a, t), Parsed(a), Parsed(t)) == Value(Admits(op, a, t))
  {
    ComparePreorder(a, t, t);
  }

  lemma SatisfiesMeans(v: string, range: string, r: Range, a: Version, t: Version)
    requires range != "*" && range != "latest" && RangeOf(range) == Some(r)
    requires Parse(v) == Parsed(a) && Parse(r.target) == Parsed(t)
    ensures Satisfies(v, range) == Value(Admits(r.op, a, t))
  {
    CompareParsed(v, r.target, a, t);
    InRangeMeans(r.op, a, t);
  }

  /** From lo on and below the release major.minor.0, as compare orders versions. */
  predicate Within(v: Version, lo: Version, major: nat, minor: nat) {
    CompareVersions(v, lo) >= 0 && CompareVersions(v, Version(major, minor, 0, "", "")) < 0
  }

  /** v is a prerelease of major.minor.0. */
  predicate PrereleaseOf(v: Version, major: nat, minor: nat) {
    v.major == major && v.minor == minor && v.patch == 0 && v.prerelease != ""
  }

  predicate LowerPrerelease(v: Version, t: Version) {
    v.major == t.major && v.minor == t.minor && v.patch == t.patch && CompareVersions(v, t) < 0
  }

  /** The code's comment says "^1.2.3" means ">=1.2.3 <2.0.0". For a major of at least 1 that is so
      if and only if the version is neither a lower one of the same major nor a prerelease of the
      next major. */
  lemma CaretMeetsItsComment(a: Version, t: Version)
    requires t.major >= 1
    ensures Admits(Caret, a, t) == Within(a, t, t.major + 1, 0)
      <==> !(a.major == t.major && CompareVersions(a, t) < 0) && !PrereleaseOf(a, t.major + 1, 0)
  {
  }

  /** Likewise "~1.2.3" and ">=1.2.3 <1.3.0": the exceptions are a lower prerelease of the target
      itself and a prerelease of the next minor. */
  lemma TildeMeetsItsComment(a: Version, t: Version)
    ensures Admits(Tilde, a, t) == Within(a, t, t.major, t.minor + 1)
      <==> !LowerPrerelease(a, t) && !PrereleaseOf(a, t.major, t.minor + 1)
  {
  }

  /** A version that does not parse is never inside ">", "<", "~" or "^", and always inside the
      other ranges, whatever their target. */
  lemma JunkSatisfies(v: string, range: string)
    requires Parse(v) == Failed && Satisfies(v, range).Value?
    ensures Satisfies(v, range) == Value(true)
      <==> range == "*" || range == "latest" || RangeOf(range) == None || RangeOf(range).value.op in {Eq, Ge, Le}
  {
    if RangeOf(range).Some? {
      var r := RangeOf(range).value;
      JunkInRange(r.op, Parse(r.target));
    }
  }

  lemma JunkInRange(op: Operator, target: ParseResult)
    ensures CompareResults(Failed, target) == Value(0)
    ensures InRange(op, 0, Failed, target) == Value(true) <==> op in {Eq, Ge, Le}
  {
  }

  predicate NotBelow(v: Version, t: Version) {
    v.major == t.major && CompareVersions(v, t) >= 0
  }

  lemma SeriesInRange(op: Operator, p: ParseResult, w: Version)
    requires op == Caret || op == Tilde
    ensures CompareResults(p, Parsed(w)) == Threw <==> p.OutOfRange?
    ensures forall c {:trigger InRange(op, c, p, Parsed(w))} :: !p.OutOfRange? ==>
      (InRange(op, c, p, Parsed(w)) == Value(true) <==> p.Parsed? && Admits(op, p.version, w))
  {
  }

  /** With "^target" or "~target" the live candidates are the versions that parse and are admitted. */
  lemma SeriesFits(v: string, range: string, op: Operator, t: string, w: Version)
    requires RangeOf(range) == Some(Range(op, t)) && range != "*" && range != "latest"
    requires (op == Caret || op == Tilde) && Parse(t) == Parsed(w)
    ensures Live(v, range) <==> Parse(v).Parsed? && Admits(op, Parse(v).version, w)
  {
    SeriesInRange(op, Parse(v), w);
    if v == "" { EmptyFails(); }
  }

  lemma ChoiceNotBelow(ps: seq<ParseResult>, live: seq<bool>, w: Version, c: nat)
    requires |ps| == |live| && c < |ps| && live[c] && forall i :: 0 <= i < |ps| && live[i] ==> ps[i].Parsed?
    requires CompareVersions(ps[c].version, w) >= 0
    ensures var k := Choice(ps, live); k != -1 && live[k] && CompareVersions(ps[k].version, w) >= 0
  {
    BestOfIsFirstMaximal(Versions(ps), Good(ps, live));
    assert Good(ps, live)[c];
    var k := Choice(ps, live);
    assert Good(ps, live)[k];
    assert CompareVersions(Versions(ps)[c], Versions(ps)[k]) <= 0;
    NotBelowTrans(ps[k].version, ps[c].version, w);
  }

  lemma HighestIsChoice(versions: seq<string>, range: string)
    requires HighestOf(versions, range).Value?
    ensures var k := Choice(Parses(versions), Lives(versions, range));
      HighestOf(versions, range).v == if k == -1 then "" else versions[k]
  {
    FindHighestExactly(versions, range);
  }

  /** "^" and "~" can admit versions below the target. Still, whenever some candidate they admit is
      not below it, the version chosen is not below it either. */
  lemma SeriesChoiceNotBelow(versions: seq<string>, range: string, op: Operator, t: string, w: Version, c: nat)
    requires HighestOf(versions, range).Value?
    requires RangeOf(range) == Some(Range(op, t)) && range != "*" && range != "latest"
    requires (op == Caret || op == Tilde) && Parse(t) == Parsed(w)
    requires c < |versions| && Parse(versions[c]).Parsed?
    requires Admits(op, Parse(versions[c]).version, w) && CompareVersions(Parse(versions[c]).version, w) >= 0
    ensures var r := HighestOf(versions, range).v;
      Parse(r).Parsed? && Admits(op, Parse(r).version, w) && CompareVersions(Parse(r).version, w) >= 0
  {
    var ps, live := Parses(versions), Lives(versions, range);
    forall i | 0 <= i < |versions| ensures live[i] == (ps[i].Parsed? && Admits(op, ps[i].version, w)) {
      SeriesFits(versions[i], range, op, t, w);
    }
    ChoiceNotBelow(ps, live, w, c);
    HighestIsChoice(versions, range);
    assert ps[Choice(ps, live)] == Parse(versions[Choice(ps, live)]);
  }

  /** With "^" and a major of at least 1 it is enough that the candidate has the target's major. */
  lemma CaretChoiceNotBelow(versions: seq<string>, range: string, t: string, w: Version, c: nat)
    requires HighestOf(versions, range).Value?
    requires RangeOf(range) == Some(Range(Caret, t)) && range != "*" && range != "latest"
    requires Parse(t) == Parsed(w) && w.major >= 1
    requires c < |versions| && Parse(versions[c]).Parsed? && NotBelow(Parse(versions[c]).version, w)
    ensures var r := HighestOf(versions, range).v; Parse(r).Parsed? && NotBelow(Parse(r).version, w)
  {
    SeriesChoiceNotBelow(versions, range, Caret, t, w, c);
  }

  lemma NotBelowTrans(a: Version, b: Version, t: Version)
    requires CompareVersions(b, a) <= 0 && CompareVersions(b, t) >= 0
    ensures CompareVersions(a, t) >= 0
  {
    ComparePreorder(t, b, a);
    ComparePreorder(b, t, t);
    ComparePreorder(a, t, t);
  }

  // ---------------------------------------------------------------- normalize

  function Digits(n: nat): (s: string)
    ensures s != "" && forall i :: 0 <= i < |s| ==> IsDigit(s[i])
    ensures ToNat(s) == n
  {
    var d := ('0' as int + n % 10) as char;
    if n < 10 then [d]
    else
      assert (Digits(n / 10) + [d])[..|Digits(n / 10)|] == Digits(n / 10);
      Digits(n / 10) + [d]
  }

  function Core(w: Version): string {
    Digits(w.major) + "." + Digits(w.minor) + "." + Digits(w.patch)
  }

  function Normal(w: Version): string {
    var a := Core(w);
    var b := if w.prerelease == "" then a else a + "-" + w.prerelease;
    if w.build == "" then b else b + "+" + w.build
  }

  function Suffix(w: Version): string {
    (if w.prerelease == "" then "" else "-" + w.prerelease) + (if w.build == "" then "" else "+" + w.build)
  }

  lemma NormalShape(w: Version)
    ensures Normal(w) == Core(w) + Suffix(w)
  {
  }

  method Normalize(version: string) returns (r: Res<string>)
    ensures match Parse(version)
      case OutOfRange => r == Threw
      case Failed => r == Value(version)
      case Parsed(w) => r == Value(Normal(w))
  {
    var ok, major, minor, patch, prerelease, build := ParseVersion(version);
    if ok.Threw? {
      return Threw;
    }
    if !ok.v {
      return Value(version);
    }
    var oss := Digits(major) + "." + Digits(minor) + "." + Digits(patch);
    if prerelease != "" {
      oss := oss + "-" + prerelease;
    }
    if build != "" {
      oss := oss + "+" + build;
    }
    return Value(oss);
  }

  lemma {:induction false} FindOver(a: string, b: string, c: char)
    requires c !in a
    ensures Find(a + b, c) == |a| + Find(b, c)
  {
    if a == "" {
      assert a + b == b;
    } else {
      assert (a + b)[1..] == a[1..] + b;
      FindOver(a[1..], b, c);
    }
  }

  lemma {:induction false} DigitRunOver(d: string, rest: string)
    requires forall i :: 0 <= i < |d| ==> IsDigit(d[i])
    requires rest == "" || !IsDigit(rest[0])
    ensures DigitRun(d + rest) == |d|
  {
    if d == "" {
      assert d + rest == rest;
    } else {
      assert (d + rest)[1..] == d[1..] + rest;
      DigitRunOver(d[1..], rest);
    }
  }

  lemma ReadIntBack(n: nat, rest: string)
    requires n <= INT_MAX && (rest == "" || !IsDigit(rest[0]))
    ensures ReadInt(Digits(n) + rest) == Some((n, rest))
  {
    var d := Digits(n);
    DigitRunOver(d, rest);
    assert SkipSpace(d + rest) == d + rest;
    assert (d + rest)[..|d|] == d && (d + rest)[|d|..] == rest;
  }

  lemma ReadDot(rest: string)
    ensures ReadChar("." + rest) == Some(('.', rest))
  {
    assert SkipSpace("." + rest) == "." + rest && ("." + rest)[1..] == rest;
  }

  lemma CoreBack(w: Version)
    requires w.major <= INT_MAX && w.minor <= INT_MAX && w.patch <= INT_MAX
    ensures ReadNumbers(Core(w)) == Some((w.major, w.minor, w.patch))
  {
    var s4 := Digits(w.patch);
    var s2 := Digits(w.minor) + ("." + s4);
    assert Core(w) == Digits(w.major) + ("." + s2);
    ReadIntBack(w.major, "." + s2);
    ReadDot(s2);
    ReadIntBack(w.minor, "." + s4);
    ReadDot(s4);
    assert s4 + "" == s4;
    ReadIntBack(w.patch, "");
  }

  lemma ReadNumbersFit(s: string)
    requires ReadNumbers(s).Some?
    ensures var (major, minor, patch) := ReadNumbers(s).value; major <= INT_MAX && minor <= INT_MAX && patch <= INT_MAX
  {
  }

  lemma SplitPlain(v: string)
    requires SplitParts(v).Some?
    ensures '+' !in SplitParts(v).value.1
  {
    var dash, plus := Find(v, '-'), Find(v, '+');
    if dash < |v| {
      var pre := v[..plus][dash + 1..];
      assert forall i :: 0 <= i < |pre| ==> pre[i] == v[dash + 1 + i];
    }
  }

  /** What parse puts in its outputs: numbers that fit and a prerelease without '+'. */
  lemma ParsedParts(version: string)
    requires Parse(version).Parsed?
    ensures var w := Parse(version).version;
      w.major <= INT_MAX && w.minor <= INT_MAX && w.patch <= INT_MAX && '+' !in w.prerelease
  {
    SplitPlain(StripV(version));
    ReadNumbersFit(SplitParts(StripV(version)).value.0);
  }

  lemma CorePlain(w: Version)
    ensures '-' !in Core(w) && '+' !in Core(w) && Core(w) != "" && Core(w)[0] != 'v'
  {
  }

  /** Parsing the normal form gives back the same version if and only if it has a prerelease or
      its build has no '-'; otherwise parse throws. */
  lemma NormalFormParses(w: Version)
    requires w.major <= INT_MAX && w.minor <= INT_MAX && w.patch <= INT_MAX && '+' !in w.prerelease
    ensures Parse(Normal(w)) == if w.prerelease != "" || '-' !in w.build then Parsed(w) else OutOfRange
  {
    NormalFinds(w);
    var n := Normal(w);
    if w.prerelease != "" || '-' !in w.build {
      NormalPieces(w);
      CoreBack(w);
      ParsePieces(n, w, Core(w));
    } else {
      ThrowsIff(n);
    }
  }

  predicate Pieces(n: string, w: Version, core: string) {
    var dash, plus := Find(n, '-'), Find(n, '+');
    && (if w.build == "" then plus == |n| else plus < |n| && n[plus + 1..] == w.build)
    && (if w.prerelease == "" then dash == |n| && n[..plus] == core
        else dash + 1 <= plus && n[..plus][dash + 1..] == w.prerelease && n[..plus][..dash] == core)
  }

  lemma NormalPieces(w: Version)
    requires '+' !in w.prerelease && (w.prerelease != "" || '-' !in w.build)
    ensures Pieces(Normal(w), w, Core(w))
  {
    NormalFinds(w);
    NormalShape(w);
    Slices(Core(w), w.prerelease, w.build);
  }

  lemma ParsePieces(n: string, w: Version, core: string)
    requires ReadNumbers(core) == Some((w.major, w.minor, w.patch)) && Pieces(n, w, core)
    ensures ParseStripped(n) == Parsed(w)
  {
  }

  /** Where parse finds the separators of a normal form. */
  lemma NormalFinds(w: Version)
    requires '+' !in w.prerelease
    ensures var n := Normal(w); var c := |Core(w)|; var p := c + (if w.prerelease == "" then 0 else 1 + |w.prerelease|);
      && StripV(n) == n
      && |n| == p + (if w.build == "" then 0 else 1 + |w.build|)
      && Find(n, '+') == p
      && (w.prerelease != "" ==> Find(n, '-') == c)
      && (w.prerelease == "" ==> (Find(n, '-') == |n| && '-' !in w.build) || (p < Find(n, '-') < |n| && '-' in w.build))
  {
    NormalShape(w);
    CorePlain(w);
    FindOver(Core(w), Suffix(w), '-');
    FindOver(Core(w), Suffix(w), '+');
    SuffixFinds(w);
  }

  lemma Slices(core: string, pre: string, build: string)
    ensures var n := core + ((if pre == "" then "" else "-" + pre) + (if build == "" then "" else "+" + build));
      var plus := |core| + (if pre == "" then 0 else 1 + |pre|);
      && (build != "" ==> plus + 1 <= |n| && n[plus + 1..] == build)
      && n[..plus] == core + (if pre == "" then "" else "-" + pre)
      && n[..plus][..|core|] == core
      && (pre != "" ==> n[..plus][|core| + 1..] == pre)
  {
  }

  lemma SuffixFinds(w: Version)
    requires '+' !in w.prerelease
    ensures var s := Suffix(w); var pre := if w.prerelease == "" then 0 else 1 + |w.prerelease|;
      && Find(s, '+') == pre && |s| == pre + (if w.build == "" then 0 else 1 + |w.build|)
      && (w.prerelease != "" ==> Find(s, '-') == 0)
      && (w.prerelease == "" ==> Find(s, '-') == (if w.build == "" then 0 else 1 + Find(w.build, '-')))
      && (w.prerelease == "" ==> (Find(s, '-') < |s| <==> '-' in w.build))
  {
    var head := if w.prerelease == "" then "" else "-" + w.prerelease;
    var tail := if w.build == "" then "" else "+" + w.build;
    FindOver(head, tail, '+');
    if w.prerelease == "" {
      assert Suffix(w) == tail;
      if w.build != "" {
        FindOver("+", w.build, '-');
      }
    }
  }

  /** Normal form: for every parseable version with a prerelease or a build without '-', parsing
      normalize(v) gives the same parts, normalize changes nothing more, and compare says equal;
      for the others normalize(v) is a string on which parse throws. */
  lemma NormalForm(version: string)
    requires Parse(version).Parsed?
    ensures var w := Parse(version).version; var n := Normal(w);
      && (Parse(n) == Parse(version) <==> w.prerelease != "" || '-' !in w.build)
      && (Parse(n) == Parse(version) ==> Normal(Parse(n).version) == n && Compare(version, n) == Value(0))
      && (Parse(n) != Parse(version) ==> Parse(n) == OutOfRange)
  {
    ParsedParts(version);
    var w := Parse(version).version;
    NormalFormParses(w);
    ComparePreorder(w, w, w);
  }

  // ---------------------------------------------------------------- inputs at which the code differs from its comments

  const V100 := Version(1, 0, 0, "", "")
  const V123 := Version(1, 2, 3, "", "")
  const V123A := Version(1, 2, 3, "a", "")
  const V123AB := Version(1, 2, 3, "", "a-b")

  lemma OneDigit(n: nat)
    requires n < 10
    ensures Digits(n) == [('0' as int + n) as char]
  {
  }

  lemma SmallCore(w: Version, a: char, b: char, c: char)
    requires w.major < 10 && w.minor < 10 && w.patch < 10
    requires a as int == '0' as int + w.major && b as int == '0' as int + w.minor && c as int == '0' as int + w.patch
    ensures Core(w) == [a, '.', b, '.', c]
  {
    OneDigit(w.major);
    OneDigit(w.minor);
    OneDigit(w.patch);
  }

  /** The texts that the lemmas below are about. */
  lemma Texts()
    ensures Normal(V100) == "1.0.0" && Normal(V123) == "1.2.3"
    ensures Normal(V123A) == "1.2.3-a" && Normal(V123AB) == "1.2.3+a-b"
  {
    SmallCore(V100, '1', '0', '0');
    SmallCore(V123, '1', '2', '3');
    SmallCore(V123A, '1', '2', '3');
    SmallCore(V123AB, '1', '2', '3');
  }

  /** Numbers are decimal. */
  lemma Decimal()
    ensures Digits(10) == "10" && Digits(907) == "907"
  {
    OneDigit(1);
    OneDigit(9);
    assert Digits(90) == Digits(9) + ['0'];
  }

  lemma CoreFree(w: Version)
    ensures SpaceFree(Core(w))
  {
  }

  /** "^" or "~" before a release, and any version: both given in normal form. */
  lemma SeriesAdmits(op: Operator, a: Version, t: Version)
    requires (op == Caret || op == Tilde) && t.prerelease == "" && t.build == "" && a.build == "" && '+' !in a.prerelease
    requires a.major <= INT_MAX && a.minor <= INT_MAX && a.patch <= INT_MAX
    requires t.major <= INT_MAX && t.minor <= INT_MAX && t.patch <= INT_MAX
    ensures Satisfies(Normal(a), OperatorText(op) + Normal(t)) == Value(Admits(op, a, t))
    ensures Compare(Normal(a), Normal(t)) == Value(CompareVersions(a, t))
  {
    NormalFormParses(a);
    NormalFormParses(t);
    CoreFree(t);
    ReadsSeries(op, Normal(t));
    SatisfiesMeans(Normal(a), OperatorText(op) + Normal(t), Range(op, Normal(t)), a, t);
    CompareParsed(Normal(a), Normal(t), a, t);
  }

  lemma ReadsSeries(op: Operator, target: string)
    requires SpaceFree(target) && (op == Caret || op == Tilde)
    ensures RangeOf(OperatorText(op) + target) == Some(Range(op, target))
    ensures OperatorText(op) + target != "*" && OperatorText(op) + target != "latest"
  {
    RangeReads("", op, "", target, "");
    assert "" + (OperatorText(op) + ("" + (target + ""))) == OperatorText(op) + target;
    assert (OperatorText(op) + target)[0] == OperatorText(op)[0];
  }

  lemma Below()
    ensures Admits(Caret, V100, V123) && CompareVersions(V100, V123) == -1
    ensures Admits(Tilde, V123A, V123) && CompareVersions(V123A, V123) == -1
  {
  }

  /** 1.0.0 satisfies "^1.2.3", which compare puts it below. */
  lemma CaretAdmitsLower()
    ensures Satisfies(Normal(V100), OperatorText(Caret) + Normal(V123)) == Value(true)
    ensures Compare(Normal(V100), Normal(V123)) == Value(-1)
  {
    var a, t := V100, V123;
    Below();
    SeriesAdmits(Caret, a, t);
  }

  /** 1.2.3-a satisfies "~1.2.3", which compare puts it below. */
  lemma TildeAdmitsLower()
    ensures Satisfies(Normal(V123A), OperatorText(Tilde) + Normal(V123)) == Value(true)
    ensures Compare(Normal(V123A), Normal(V123)) == Value(-1)
  {
    var b, t := V123A, V123;
    Below();
    assert '+' !in b.prerelease;
    SeriesAdmits(Tilde, b, t);
  }

  /** parse throws on 1.2.3+a-b, a version by clause 10 of Semantic Versioning 2.0.0. */
  lemma ParseThrows()
    ensures Parse(Normal(V123AB)) == OutOfRange
  {
    assert V123AB.build[1] == '-';
    NormalFormParses(V123AB);
  }

  /** 1.2.3-+a-b parses, and its normal form does not. */
  lemma NormalFormLost()
    ensures Parse(Core(V123AB) + ("-+" + V123AB.build)) == Parsed(V123AB) && Parse(Normal(V123AB)) == OutOfRange
  {
    EmptyPrerelease(V123AB);
    ParseThrows();
  }

  /** An empty prerelease is read as none. */
  lemma EmptyPrerelease(w: Version)
    requires w.major <= INT_MAX && w.minor <= INT_MAX && w.patch <= INT_MAX && w.prerelease == "" && w.build != ""
    ensures Parse(Core(w) + ("-+" + w.build)) == Parsed(w)
  {
    var v := Core(w) + ("-+" + w.build);
    CorePlain(w);
    SplitsEmpty(v, Core(w), w.build);
    assert v[0] == Core(w)[0];
    CoreBack(w);
  }

  lemma SplitsEmpty(v: string, core: string, build: string)
    requires v == core + ("-+" + build) && '-' !in core && '+' !in core
    ensures SplitParts(v) == Some((core, "", build))
  {
    var tail := "-+" + build;
    FindOver(core, tail, '-');
    FindOver(core, tail, '+');
    assert tail[0] == '-' && tail[1] == '+' && tail[1..][0] == '+';
    assert Find(tail, '-') == 0 && Find(tail, '+') == 1 + Find(tail[1..], '+') == 1;
    var n := |core|;
    assert v[n + 2..] == build && v[..n + 1][..n] == core && v[..n + 1][n + 1..] == "";
  }

  lemma JunkWins(versions: seq<string>, range: string)
    requires versions != [] && Live(versions[0], range) && Parse(versions[0]) == Failed
    requires forall i :: 0 <= i < |versions| ==> Satisfies(versions[i], range) != Threw && !Parse(versions[i]).OutOfRange?
    ensures HighestOf(versions, range) == Value(versions[0])
  {
    var ps, live := Parses(versions), Lives(versions, range);
    forall i | 0 <= i < |ps| ensures !ps[i].OutOfRange? {
      assert ps[i] == Parse(versions[i]);
    }
    FindHighestExactly(versions, range);
    JunkFirst(ps, live);
  }

  /** With "*" a candidate that is no version at all, first in the list, is chosen over any version. */
  lemma JunkOverVersions(junk: string, v: string)
    requires junk != "" && Parse(junk) == Failed && Parse(v).Parsed?
    ensures HighestOf([junk, v], "*") == Value(junk)
  {
    JunkWins([junk, v], "*");
  }

  lemma JunkFirst(ps: seq<ParseResult>, live: seq<bool>)
    requires |ps| == |live| > 0 && live[0] && ps[0] == Failed && forall i :: 0 <= i < |ps| ==> !ps[i].OutOfRange?
    ensures Choice(ps, live) == 0 && forall j :: 0 <= j < |ps| ==> !ThrowsAt(ps, live, j)
  {
    assert First(live) == 0;
  }

  /** So "x" is chosen over 1.0.0. */
  lemma JunkIsChosen()
    ensures HighestOf(["x", Normal(V100)], "*") == Value("x") && Parse(Normal(V100)).Parsed?
  {
    var junk := "x";
    JunkFails();
    NormalFormParses(V100);
    JunkOverVersions(junk, Normal(V100));
  }

  lemma JunkFails()
    ensures Parse("x") == Failed
  {
    var junk := "x";
    assert junk[1..] == "" && junk[..1] == junk;
    assert Find(junk, '-') == 1 + Find(junk[1..], '-') == 1;
    assert Find(junk, '+') == 1 + Find(junk[1..], '+') == 1;
    assert SkipSpace(junk) == junk && DigitRun(junk) == 0;
  }
}
