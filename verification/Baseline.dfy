/** The baseline file of src/benchmarking/BenchmarkRunner.cpp: one comma separated line a record,
    with backslash escapes in the name. Numbers are kept as the tokens that are written. */
module Baseline {
  import opened Common

  datatype Record = Record(name: string, protojs: string, nodejs: string, speedup: string, memory: string, success: bool)

  const HEADER := "name," + "protojs_time_ms," + "nodejs_time_ms," + "speedup," + "memory_usage_bytes," + "success"

  // ---------------------------------------------------------------- fields

  predicate NeedsEscape(c: char) { c == '\n' || c == '\r' || c == ',' || c == '\\' }

  function Escape(s: string): string {
    if s == "" then "" else (if NeedsEscape(s[0]) then ['\\', s[0]] else [s[0]]) + Escape(s[1..])
  }

  function Unescape(s: string): (r: string)
    ensures |r| <= |s|
    ensures forall c :: c in r ==> c in s
  {
    if s == "" then ""
    else if s[0] == '\\' && |s| > 1 then [s[1]] + Unescape(s[2..])
    else [s[0]] + Unescape(s[1..])
  }

  /** The field reader of loadBaseline: the field, unescaped, and what follows its comma. */
  function Next(s: string): (r: (string, string))
    ensures |r.1| <= |s|
    ensures forall c :: c in r.0 || c in r.1 ==> c in s
    decreases |s|
  {
    if s == "" then ("", "")
    else if s[0] == '\\' && |s| > 1 then var (f, r) := Next(s[2..]); ([s[1]] + f, r)
    else if s[0] == ',' then ("", s[1..])
    else var (f, r) := Next(s[1..]); ([s[0]] + f, r)
  }

  method EscapeField(s: string) returns (out: string)
    ensures out == Escape(s)
  {
    out := "";
    for i := 0 to |s|
      invariant out + Escape(s[i..]) == Escape(s)
    {
      var c := s[i];
      assert s[i..][1..] == s[i + 1..];
      ghost var piece := if NeedsEscape(c) then ['\\', c] else [c];
      Assoc(out, piece, Escape(s[i + 1..]));
      ghost var before := out;
      if c == '\n' || c == '\r' || c == ',' || c == '\\' { out := out + ['\\']; }
      out := out + [c];
      assert out == before + piece;
    }
    assert out + "" == out;
  }

  method UnescapeField(s: string) returns (out: string)
    ensures out == Unescape(s)
  {
    out := "";
    var i := 0;
    while i < |s|
      invariant 0 <= i <= |s| && out + Unescape(s[i..]) == Unescape(s)
    {
      if s[i] == '\\' && i + 1 < |s| {
        assert s[i..][2..] == s[i + 2..] && s[i..][1] == s[i + 1];
        Assoc(out, [s[i + 1]], Unescape(s[i + 2..]));
        out := out + [s[i + 1]];
        i := i + 1;
      } else {
        assert s[i..][1..] == s[i + 1..];
        Assoc(out, [s[i]], Unescape(s[i + 1..]));
        out := out + [s[i]];
      }
      i := i + 1;
    }
    assert out + "" == out;
  }

  method NextField(line: string, start: nat) returns (field: string, pos: nat)
    requires start <= |line|
    ensures start <= pos <= |line| && (field, line[pos..]) == Next(line[start..])
  {
    field, pos := "", start;
    assert field + Next(line[pos..]).0 == Next(line[pos..]).0;
    while pos < |line|
      invariant start <= pos <= |line|
      invariant (field + Next(line[pos..]).0, Next(line[pos..]).1) == Next(line[start..])
    {
      if line[pos] == '\\' && pos + 1 < |line| {
        assert line[pos..][2..] == line[pos + 2..] && line[pos..][1] == line[pos + 1];
        Assoc(field, [line[pos + 1]], Next(line[pos + 2..]).0);
        field := field + [line[pos + 1]];
        pos := pos + 2;
        continue;
      }
      assert line[pos..][1..] == line[pos + 1..];
      if line[pos] == ',' {
        pos := pos + 1;
        assert field + "" == field;
        return;
      }
      Assoc(field, [line[pos]], Next(line[pos + 1..]).0);
      field := field + [line[pos]];
      pos := pos + 1;
    }
    assert field + "" == field;
  }

  /** What is escaped: line feeds, carriage returns, commas and backslashes, and nothing else. */
  lemma {:induction false} EscapeMeans(a: string, b: string)
    ensures Escape(a + b) == Escape(a) + Escape(b)
    ensures forall c :: Escape([c]) == if c as int in {10, 13, 44, 92} then ['\\', c] else [c]
  {
    if a == "" {
      assert a + b == b;
    } else {
      assert (a + b)[1..] == a[1..] + b;
      EscapeMeans(a[1..], b);
      Assoc(if NeedsEscape(a[0]) then ['\\', a[0]] else [a[0]], Escape(a[1..]), Escape(b));
    }
    forall c ensures Escape([c]) == if c as int in {10, 13, 44, 92} then ['\\', c] else [c] {
      assert [c][1..] == [];
    }
  }

  /** unescape(escape(s)) is s for every s. */
  lemma {:induction false} UnescapeEscape(s: string)
    ensures Unescape(Escape(s)) == s
  {
    if s != "" {
      var e := Escape(s);
      var rest := Escape(s[1..]);
      UnescapeEscape(s[1..]);
      assert s == [s[0]] + s[1..];
      if NeedsEscape(s[0]) {
        assert e[2..] == rest && e[0] == '\\' && e[1] == s[0];
      } else {
        assert e[1..] == rest && e[0] == s[0];
      }
    }
  }

  /** The field reader undoes the escaping too, stopping at the comma that follows. */
  lemma {:induction false} NextEscape(s: string, rest: string)
    ensures Next(Escape(s) + ("," + rest)) == (s, rest)
  {
    var line := Escape(s) + ("," + rest);
    if s == "" {
      assert line == "," + rest;
    } else {
      NextEscape(s[1..], rest);
      var more := Escape(s[1..]) + ("," + rest);
      assert s == [s[0]] + s[1..];
      if NeedsEscape(s[0]) {
        assert line == ['\\', s[0]] + more;
        assert line[2..] == more;
      } else {
        assert line == [s[0]] + more;
        assert line[1..] == more;
      }
    }
  }

  predicate Plain(s: string) {
    forall i :: 0 <= i < |s| ==> s[i] != ',' && s[i] != '\\' && s[i] != '\n'
  }

  lemma {:induction false} NextPlain(s: string, rest: string)
    requires Plain(s)
    ensures Next(s + ("," + rest)) == (s, rest)
  {
    var line := s + ("," + rest);
    if s == "" {
      assert line == "," + rest;
    } else {
      NextPlain(s[1..], rest);
      assert s == [s[0]] + s[1..];
      assert line[1..] == s[1..] + ("," + rest);
    }
  }

  // ---------------------------------------------------------------- files

  function SaveLine(r: Record): string {
    LineOf(r, if r.success then "1" else "0")
  }

  /** A line with any text in its last column. */
  function LineOf(r: Record, e: string): string {
    Escape(r.name) + "," + r.protojs + "," + r.nodejs + "," + r.speedup + "," + r.memory + "," + e
  }

  lemma Shift(x: string, field: string, rest: string)
    ensures (x + "," + field) + ("," + rest) == x + ("," + (field + ("," + rest)))
  {
    Assoc(x + ",", field, "," + rest);
    Assoc(x, ",", field + ("," + rest));
  }

  /** A line as a first field followed by the rest. */
  lemma LineShape(r: Record, e: string)
    ensures LineOf(r, e)
         == Escape(r.name) + ("," + (r.protojs + ("," + (r.nodejs + ("," + (r.speedup + ("," + (r.memory + ("," + e)))))))))
  {
    var x1 := Escape(r.name);
    var x2 := x1 + "," + r.protojs;
    var x3 := x2 + "," + r.nodejs;
    var x4 := x3 + "," + r.speedup;
    Assoc(x4 + "," + r.memory, ",", e);
    Shift(x4, r.memory, e);
    Shift(x3, r.speedup, r.memory + ("," + e));
    Shift(x2, r.nodejs, r.speedup + ("," + (r.memory + ("," + e))));
    Shift(x1, r.protojs, r.nodejs + ("," + (r.speedup + ("," + (r.memory + ("," + e))))));
  }

  function SaveLines(rs: seq<Record>): string {
    if rs == [] then "" else SaveLine(rs[0]) + ("\n" + SaveLines(rs[1..]))
  }

  function Save(rs: seq<Record>): string {
    HEADER + ("\n" + SaveLines(rs))
  }

  /** std::getline until it fails. */
  function Lines(text: string): seq<string>
    decreases |text|
  {
    if text == "" then []
    else
      var n := LineLength(text);
      [text[..n]] + (if n < |text| then Lines(text[n + 1..]) else [])
  }

  function LineLength(text: string): (n: nat)
    ensures n <= |text| && (n < |text| ==> text[n] == '\n')
    ensures forall i :: 0 <= i < n ==> text[i] != '\n'
  {
    if text == "" || text[0] == '\n' then 0 else 1 + LineLength(text[1..])
  }

  /** Which tokens std::stod and std::stoull read without throwing. */
  datatype Numbers = Numbers(stod: string -> bool, stoull: string -> bool)

  function ParseLine(nums: Numbers, line: string): Option<Record> {
    var (n, r0) := Next(line);
    var (a, r1) := Next(r0);
    var (b, r2) := Next(r1);
    var (c, r3) := Next(r2);
    var (d, e) := Next(r3);
    if nums.stod(a) && nums.stod(b) && nums.stod(c) && nums.stoull(d) then
      Some(Record(Unescape(n), a, b, c, d, e == "1" || e == "1\n" || e == "1\r"))
    else None
  }

  function ParseLines(nums: Numbers, lines: seq<string>): seq<Record> {
    if lines == [] then []
    else
      (if lines[0] == "" || ParseLine(nums, lines[0]).None? then [] else [ParseLine(nums, lines[0]).value])
      + ParseLines(nums, lines[1..])
  }

  function Load(nums: Numbers, text: string): seq<Record> {
    var lines := Lines(text);
    if lines == [] || lines[0] != HEADER then [] else ParseLines(nums, lines[1..])
  }

  method SaveBaseline(results: seq<Record>) returns (f: string)
    ensures f == Save(results)
  {
    f := HEADER + "\n";
    for i := 0 to |results|
      invariant f + SaveLines(results[i..]) == Save(results)
    {
      var r := results[i];
      assert results[i..][1..] == results[i + 1..];
      var name := EscapeField(r.name);
      var line := name + "," + r.protojs + "," + r.nodejs + "," + r.speedup + "," + r.memory + ","
        + (if r.success then "1" else "0");
      Assoc(f, line, "\n" + SaveLines(results[i + 1..]));
      Assoc(f + line, "\n", SaveLines(results[i + 1..]));
      f := f + line + "\n";
    }
    assert f + "" == f;
  }

  lemma ParseLinesAt(nums: Numbers, lines: seq<string>, i: nat, before: seq<Record>)
    requires i < |lines|
    ensures before + ParseLines(nums, lines[i..])
         == (if lines[i] == "" || ParseLine(nums, lines[i]).None? then before else before + [ParseLine(nums, lines[i]).value])
            + ParseLines(nums, lines[i + 1..])
  {
    assert lines[i..][0] == lines[i] && lines[i..][1..] == lines[i + 1..];
  }

  method LoadBaseline(nums: Numbers, text: string) returns (results: seq<Record>)
    ensures results == Load(nums, text)
  {
    var lines := Lines(text);   // what getline delivers
    results := [];
    if |lines| == 0 || lines[0] != HEADER {
      return;
    }
    ghost var all := ParseLines(nums, lines[1..]);
    for i := 1 to |lines|
      invariant results + ParseLines(nums, lines[i..]) == all
    {
      var line := lines[i];
      ParseLinesAt(nums, lines, i, results);
      if line == "" { continue; }
      var r := LoadLine(nums, line);
      if r.None? { continue; }
      results := results + [r.value];
    }
    assert results + [] == results;
  }

  /** One turn of the loop; None stands for the exception that skips the line. */
  method LoadLine(nums: Numbers, line: string) returns (r: Option<Record>)
    ensures r == ParseLine(nums, line)
  {
    var name, pos := NextField(line, 0);
    assert line[0..] == line;
    name := UnescapeField(name);
    var a, b, c, d;
    a, pos := NextField(line, pos);
    b, pos := NextField(line, pos);
    c, pos := NextField(line, pos);
    d, pos := NextField(line, pos);
    var e := line[pos..];
    if !nums.stod(a) || !nums.stod(b) || !nums.stod(c) || !nums.stoull(d) {
      return None;
    }
    return Some(Record(name, a, b, c, d, e == "1" || e == "1\n" || e == "1\r"));
  }

  // ---------------------------------------------------------------- saved and loaded

  /** Numeric fields that were written by the program: readable, without delimiters. */
  ghost predicate Numeric(nums: Numbers, r: Record) {
    && Plain(r.protojs) && Plain(r.nodejs) && Plain(r.speedup) && Plain(r.memory)
    && nums.stod(r.protojs) && nums.stod(r.nodejs) && nums.stod(r.speedup) && nums.stoull(r.memory)
  }

  /** A line is read back with its name unescaped once too often. It counts as a success if and only
      if its last column is a 1, perhaps with one line end. */
  lemma LineBackWith(nums: Numbers, r: Record, e: string)
    requires Numeric(nums, r)
    ensures ParseLine(nums, LineOf(r, e))
         == Some(r.(name := Unescape(r.name), success := e == ['1'] || e == ['1', '\r'] || e == ['1', '\n']))
  {
    LineShape(r, e);
    NextEscape(r.name, r.protojs + ("," + (r.nodejs + ("," + (r.speedup + ("," + (r.memory + ("," + e))))))));
    NextPlain(r.protojs, r.nodejs + ("," + (r.speedup + ("," + (r.memory + ("," + e))))));
    NextPlain(r.nodejs, r.speedup + ("," + (r.memory + ("," + e))));
    NextPlain(r.speedup, r.memory + ("," + e));
    NextPlain(r.memory, e);
  }

  lemma LineBack(nums: Numbers, r: Record)
    requires Numeric(nums, r)
    ensures SaveLine(r) != "" && ParseLine(nums, SaveLine(r)) == Some(r.(name := Unescape(r.name)))
  {
    LineBackWith(nums, r, if r.success then "1" else "0");
  }

  lemma {:induction false} EscapeNewlines(s: string)
    ensures '\n' in Escape(s) <==> '\n' in s
  {
    if s != "" {
      EscapeNewlines(s[1..]);
      assert s == [s[0]] + s[1..];
    }
  }

  lemma LineNewlines(nums: Numbers, r: Record)
    requires Numeric(nums, r)
    ensures '\n' in SaveLine(r) <==> '\n' in r.name
  {
    EscapeNewlines(r.name);
  }

  lemma {:induction false} LineLengthOver(line: string, rest: string)
    requires '\n' !in line
    ensures LineLength(line + ("\n" + rest)) == |line|
  {
    if line == "" {
      assert line + ("\n" + rest) == "\n" + rest;
    } else {
      assert (line + ("\n" + rest))[1..] == line[1..] + ("\n" + rest);
      LineLengthOver(line[1..], rest);
    }
  }

  lemma FirstLine(line: string, rest: string)
    requires '\n' !in line
    ensures Lines(line + ("\n" + rest)) == [line] + Lines(rest)
  {
    var text := line + ("\n" + rest);
    LineLengthOver(line, rest);
    assert text[..|line|] == line && text[|line| + 1..] == rest;
  }

  function Reread(rs: seq<Record>): seq<Record> {
    if rs == [] then [] else [rs[0].(name := Unescape(rs[0].name))] + Reread(rs[1..])
  }

  lemma {:induction false} LinesBack(nums: Numbers, rs: seq<Record>)
    requires forall r :: r in rs ==> Numeric(nums, r) && '\n' !in r.name
    ensures ParseLines(nums, Lines(SaveLines(rs))) == Reread(rs)
  {
    if rs != [] {
      LineBack(nums, rs[0]);
      LineNewlines(nums, rs[0]);
      FirstLine(SaveLine(rs[0]), SaveLines(rs[1..]));
      LinesBack(nums, rs[1..]);
      assert Lines(SaveLines(rs))[1..] == Lines(SaveLines(rs[1..]));
    }
  }

  lemma HeaderIsOneLine()
    ensures '\n' !in HEADER
  {
    assert '\n' !in "name," && '\n' !in "protojs_time_ms," && '\n' !in "nodejs_time_ms,";
    assert '\n' !in "speedup," && '\n' !in "memory_usage_bytes," && '\n' !in "success";
  }

  lemma SaveBack(nums: Numbers, rs: seq<Record>)
    requires forall r :: r in rs ==> Numeric(nums, r) && '\n' !in r.name
    ensures Load(nums, Save(rs)) == Reread(rs)
  {
    HeaderIsOneLine();
    FirstLine(HEADER, SaveLines(rs));
    assert Lines(Save(rs))[1..] == Lines(SaveLines(rs));
    LinesBack(nums, rs);
  }

  /** The second unescaping leaves a name alone exactly when no backslash in it has a successor. */
  lemma {:induction false} UnescapeFixed(s: string)
    ensures Unescape(s) == s <==> forall i :: 0 <= i < |s| - 1 ==> s[i] != '\\'
  {
    if s != "" {
      if s[0] == '\\' && |s| > 1 {
        assert |Unescape(s)| < |s|;
      } else {
        UnescapeFixed(s[1..]);
        assert s == [s[0]] + s[1..];
        assert Unescape(s)[1..] == Unescape(s[1..]);
        assert forall i :: 0 <= i < |s[1..]| ==> s[1..][i] == s[i + 1];
        assert forall i :: 1 <= i < |s| ==> s[i] == s[1..][i - 1];
      }
    }
  }

  lemma {:induction false} LinesHaveNoNewline(text: string, i: nat)
    requires i < |Lines(text)|
    ensures '\n' !in Lines(text)[i]
    decreases |text|
  {
    var n := LineLength(text);
    if i > 0 {
      LinesHaveNoNewline(text[n + 1..], i - 1);
    }
  }

  lemma {:induction false} LoadedNames(nums: Numbers, lines: seq<string>)
    requires forall l :: l in lines ==> '\n' !in l
    ensures forall r :: r in ParseLines(nums, lines) ==> '\n' !in r.name
  {
    if lines != [] {
      assert lines[0] in lines;
      LoadedNames(nums, lines[1..]);
    }
  }

  lemma {:induction false} RereadSame(rs: seq<Record>)
    ensures Reread(rs) == rs <==> forall r :: r in rs ==> Unescape(r.name) == r.name
  {
    if rs != [] {
      RereadSame(rs[1..]);
      assert rs == [rs[0]] + rs[1..];
      assert Reread(rs)[1..] == Reread(rs[1..]);
      if Reread(rs) == rs {
        assert Reread(rs)[0] == rs[0];
      }
    }
  }

  /** Names that survive: no newline, and no backslash except as the last character. */
  predicate Durable(name: string) {
    '\n' !in name && forall i :: 0 <= i < |name| - 1 ==> name[i] != '\\'
  }

  /** Loading what was saved gives the records back if and only if every name is durable. */
  lemma LoadSave(nums: Numbers, rs: seq<Record>)
    requires forall r :: r in rs ==> Numeric(nums, r)
    ensures Load(nums, Save(rs)) == rs <==> forall r :: r in rs ==> Durable(r.name)
  {
    forall r | r in rs { UnescapeFixed(r.name); }
    if forall r :: r in rs ==> '\n' !in r.name {
      SaveBack(nums, rs);
      RereadSame(rs);
    } else {
      var lines := Lines(Save(rs));
      forall i | 0 <= i < |lines| ensures '\n' !in lines[i] {
        LinesHaveNoNewline(Save(rs), i);
      }
      if lines != [] {
        LoadedNames(nums, lines[1..]);
      }
    }
  }

  lemma HalfHeader()
    ensures "name," + "protojs_time_ms," + "nodejs_time_ms," == "name,protojs_time_ms,nodejs_time_ms,"
  {
    assert "name," + "protojs_time_ms," == "name,protojs_time_ms,";
  }

  /** The header is one fixed line. */
  lemma HeaderIs()
    ensures HEADER == "name,protojs_time_ms,nodejs_time_ms," + "speedup,memory_usage_bytes,success"
  {
    HalfHeader();
    var half := "name,protojs_time_ms,nodejs_time_ms,";
    assert "speedup," + "memory_usage_bytes," == "speedup,memory_usage_bytes,";
    assert "speedup,memory_usage_bytes," + "success" == "speedup,memory_usage_bytes,success";
    Assoc(half, "speedup,", "memory_usage_bytes,");
    Assoc(half, "speedup,memory_usage_bytes,", "success");
  }

  /** The order of the columns, at a record. */
  lemma SavedRecord(r: Record)
    requires r == Record(['x'], ['1'], ['2'], ['3'], ['4'], true)
    ensures Save([r]) == HEADER + "\nx,1,2,3,4,1\n"
  {
    assert r.name[1..] == [];
    assert Escape(r.name) == ['x'] + Escape([]) == ['x'];
    assert SaveLine(r) == "x,1,2,3,4,1";
    assert [r][1..] == [];
    assert SaveLines([r]) == "x,1,2,3,4,1" + ("\n" + SaveLines([]));
  }

  /** Every line is read on its own; one that is blank or has an unreadable number gives no record
      and does no harm to the others. */
  lemma {:induction false} LinesReadAlone(nums: Numbers, a: seq<string>, b: seq<string>)
    ensures ParseLines(nums, a + b) == ParseLines(nums, a) + ParseLines(nums, b)
    ensures forall line :: line == "" || ParseLine(nums, line).None? ==> ParseLines(nums, [line]) == []
  {
    if a == [] {
      assert a + b == b;
    } else {
      assert (a + b)[1..] == a[1..] + b;
      LinesReadAlone(nums, a[1..], b);
      Assoc(if a[0] == "" || ParseLine(nums, a[0]).None? then [] else [ParseLine(nums, a[0]).value],
            ParseLines(nums, a[1..]), ParseLines(nums, b));
    }
    forall line | line == "" || ParseLine(nums, line).None? ensures ParseLines(nums, [line]) == [] {
      assert [line][1..] == [];
    }
  }

  /** A name with a backslash before another character comes back without it. */
  lemma BackslashIsLost(nums: Numbers, r: Record)
    requires Numeric(nums, r) && r.name == ['a', '\\', 'b']
    ensures Load(nums, Save([r])) == [r.(name := ['a', 'b'])]
  {
    SaveBack(nums, [r]);
    assert r.name[1..] == ['\\', 'b'] && r.name[1..][2..] == [];
    assert Unescape(r.name[1..]) == ['b'] + Unescape(r.name[1..][2..]) == ['b'];
    assert Unescape(r.name) == ['a'] + ['b'] == ['a', 'b'];
    assert [r][1..] == [];
  }
}
