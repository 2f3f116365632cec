/** Search, slicing and concatenation of buffers (src/modules/buffer/BufferModule.cpp). */
module Buffers {
  import opened Common

  // ---------------------------------------------------------------- indexOf and includes

  /** The offset the search starts from; negative ones count from the end. */
  function StartOffset(size: nat, byteOffset: int): nat {
    if byteOffset >= 0 then byteOffset else if byteOffset + size >= 0 then byteOffset + size else 0
  }

  predicate OccursAt(buffer: seq<Byte>, pattern: seq<Byte>, i: int) {
    0 <= i && i + |pattern| <= |buffer| && buffer[i..i + |pattern|] == pattern
  }

  /** i is where indexOf(pattern, byteOffset) must point. */
  ghost predicate FirstOccurrence(buffer: seq<Byte>, pattern: seq<Byte>, byteOffset: int, i: int) {
    && pattern != []
    && StartOffset(|buffer|, byteOffset) <= i
    && OccursAt(buffer, pattern, i)
    && forall j :: StartOffset(|buffer|, byteOffset) <= j < i ==> !OccursAt(buffer, pattern, j)
  }

  /** A search from -k starts k bytes before the end, or at the beginning if there are fewer. */
  lemma NegativeOffset(buffer: seq<Byte>, pattern: seq<Byte>, k: nat, i: int)
    requires k > 0
    ensures FirstOccurrence(buffer, pattern, -(k as int), i)
       <==> FirstOccurrence(buffer, pattern, if k <= |buffer| then |buffer| - k else 0, i)
    ensures k <= |buffer| && FirstOccurrence(buffer, pattern, -(k as int), i) ==> i >= |buffer| - k
  {
  }

  method BufferIndexOf(buffer: array<Byte>, searchBytes: seq<Byte>, offset: int) returns (index: int)
    ensures index == -1 || index >= 0
    ensures forall i :: i >= 0 ==> (index == i <==> FirstOccurrence(buffer[..], searchBytes, offset, i))
  {
    if |searchBytes| == 0 {
      return -1;
    }
    var size := buffer.Length;
    var byteOffset := offset;
    if byteOffset < 0 { byteOffset := byteOffset + size; }
    if byteOffset < 0 { byteOffset := 0; }
    if byteOffset >= size {
      return -1;
    }
    var i := byteOffset;
    while i <= size - |searchBytes|
      invariant byteOffset <= i
      invariant forall k :: byteOffset <= k < i ==> !OccursAt(buffer[..], searchBytes, k)
    {
      var match_ := true;
      var j := 0;
      while j < |searchBytes|
        invariant 0 <= j <= |searchBytes| && match_
        invariant forall k :: 0 <= k < j ==> buffer[i + k] == searchBytes[k]
      {
        if buffer[i + j] != searchBytes[j] {
          match_ := false;
          break;
        }
        j := j + 1;
      }
      if match_ {
        assert OccursAt(buffer[..], searchBytes, i);
        return i;
      }
      assert buffer[..][i..i + |searchBytes|][j] != searchBytes[j];
      i := i + 1;
    }
    return -1;
  }

  method BufferIncludes(buffer: array<Byte>, searchBytes: seq<Byte>, offset: int) returns (found: bool)
    ensures searchBytes == [] ==> !found
    ensures searchBytes != [] ==>
      (found <==> exists i :: StartOffset(buffer.Length, offset) <= i && OccursAt(buffer[..], searchBytes, i))
  {
    var index := BufferIndexOf(buffer, searchBytes, offset);
    found := index >= 0;
    if found {
      assert FirstOccurrence(buffer[..], searchBytes, offset, index);
    } else if i :| searchBytes != [] && StartOffset(buffer.Length, offset) <= i && OccursAt(buffer[..], searchBytes, i) {
      ghost var f := LeastOccurrence(buffer[..], searchBytes, offset, i);
      assert false;
    }
  }

  lemma {:induction false} LeastOccurrence(buffer: seq<Byte>, pattern: seq<Byte>, offset: int, i: int) returns (f: int)
    requires pattern != [] && StartOffset(|buffer|, offset) <= i && OccursAt(buffer, pattern, i)
    ensures FirstOccurrence(buffer, pattern, offset, f)
    decreases i
  {
    if j :| StartOffset(|buffer|, offset) <= j < i && OccursAt(buffer, pattern, j) {
      f := LeastOccurrence(buffer, pattern, offset, j);
    } else {
      f := i;
    }
  }

  // ---------------------------------------------------------------- slice and concat

  function SliceStart(size: nat, start: int, end: int): int {
    var s := if start < 0 && start + size < 0 then 0 else if start < 0 then start + size else start;
    if s > end then end else s
  }

  function SliceEnd(size: nat, end: int): int {
    var e := if end < 0 then end + size else end;
    if e > size then size else e
  }

  /** slice(start, end): an end before the beginning leaves nothing to copy. */
  function Slice(buffer: seq<Byte>, start: int, end: int): seq<Byte> {
    var e := SliceEnd(|buffer|, end);
    var s := SliceStart(|buffer|, start, e);
    if s == e then [] else buffer[s..e]
  }

  /** Where an index points: from the end if negative, and never outside. */
  function Clamp(size: nat, k: int): nat {
    if k >= size then size else if k >= 0 then k else if k + size >= 0 then k + size else 0
  }

  /** For all indices: what lies between them, and nothing if they are the wrong way round. */
  lemma SliceIsBetween(buffer: seq<Byte>, start: int, end: int)
    ensures var i, j := Clamp(|buffer|, start), Clamp(|buffer|, end);
      Slice(buffer, start, end) == if i <= j then buffer[i..j] else []
  {
  }

  /** memcpy of n bytes. */
  method Memcpy(dst: array<Byte>, at: nat, src: array<Byte>, from: nat, n: nat)
    requires at + n <= dst.Length && from + n <= src.Length && dst != src
    modifies dst
    ensures dst[..] == old(dst[..at]) + src[from..from + n] + old(dst[at + n..])
  {
    forall i | 0 <= i < n {
      dst[at + i] := src[from + i];
    }
  }

  method BufferSlice(buffer: array<Byte>, startArg: int, endArg: int) returns (r: array<Byte>)
    ensures fresh(r) && r[..] == Slice(buffer[..], startArg, endArg)
  {
    var size := buffer.Length;
    var start, end := startArg, endArg;
    if start < 0 { start := start + size; }
    if end < 0 { end := end + size; }
    if start < 0 { start := 0; }
    if end > size { end := size; }
    if start > end { start := end; }
    var sliceLen := end - start;
    r := new Byte[sliceLen](_ => 0);
    if sliceLen > 0 {
      Memcpy(r, 0, buffer, start, sliceLen);
    }
  }

  function Flatten(parts: seq<seq<Byte>>): seq<Byte> {
    if parts == [] then [] else Flatten(parts[..|parts| - 1]) + parts[|parts| - 1]
  }

  lemma {:induction false} FlattenMonotone(parts: seq<seq<Byte>>, i: nat)
    requires i <= |parts|
    ensures |Flatten(parts[..i])| <= |Flatten(parts)|
  {
    if i < |parts| {
      assert parts[..|parts| - 1][..i] == parts[..i];
      FlattenMonotone(parts[..|parts| - 1], i);
    } else {
      assert parts[..i] == parts;
    }
  }

  lemma FlattenStep(parts: seq<seq<Byte>>, i: nat)
    requires i < |parts|
    ensures Flatten(parts[..i + 1]) == Flatten(parts[..i]) + parts[i]
    ensures |Flatten(parts[..i])| + |parts[i]| <= |Flatten(parts)|
  {
    assert parts[..i + 1][..i] == parts[..i];
    FlattenMonotone(parts, i + 1);
  }

  /** Flattening puts the parts one after the other. */
  lemma {:induction false} FlattenConcat(a: seq<seq<Byte>>, b: seq<seq<Byte>>)
    ensures Flatten(a + b) == Flatten(a) + Flatten(b)
    ensures forall x: seq<Byte> :: Flatten([x]) == x
  {
    if b == [] {
      assert a + b == a && Flatten(a) + [] == Flatten(a);
    } else {
      var n := |b| - 1;
      assert (a + b)[..|a + b| - 1] == a + b[..n];
      FlattenConcat(a, b[..n]);
      Assoc(Flatten(a), Flatten(b[..n]), b[n]);
    }
    forall x: seq<Byte> ensures Flatten([x]) == x {
      assert [x][..0] == [];
      assert [] + x == x;
    }
  }

  /** parts are the contents of the buffers. */
  method BufferConcat(buffers: seq<array<Byte>>, ghost parts: seq<seq<Byte>>) returns (r: array<Byte>)
    requires |parts| == |buffers| && forall k :: 0 <= k < |parts| ==> parts[k] == buffers[k][..]
    ensures fresh(r) && r[..] == Flatten(parts)
  {
    var totalLen := 0;
    for i := 0 to |buffers|
      invariant totalLen == |Flatten(parts[..i])|
    {
      FlattenStep(parts, i);
      totalLen := totalLen + buffers[i].Length;
    }
    assert parts[..|buffers|] == parts;
    r := new Byte[totalLen](_ => 0);
    var offset := 0;
    for i := 0 to |buffers|
      invariant offset == |Flatten(parts[..i])| <= totalLen == r.Length
      invariant fresh(r)
      invariant r[..offset] == Flatten(parts[..i])
    {
      FlattenStep(parts, i);
      assert buffers[i][..] == parts[i];
      offset := CopyAt(r, offset, buffers[i]);
    }
  }

  /** One buffer's memcpy. */
  method CopyAt(r: array<Byte>, offset: nat, buf: array<Byte>) returns (next: nat)
    requires offset + buf.Length <= r.Length && r != buf
    modifies r
    ensures next == offset + buf.Length && r[..next] == old(r[..offset]) + buf[..]
  {
    Memcpy(r, offset, buf, 0, buf.Length);
    next := offset + buf.Length;
    ghost var tail := r[next..];
    assert r[..] == (old(r[..offset]) + buf[..]) + old(r[next..]);
  }

  /** For every integer k, however negative or large, slice(0, k) and slice(k) make the buffer up. */
  lemma SlicesMakeTheBuffer(buffer: seq<Byte>, k: int)
    ensures Slice(buffer, 0, k) + Slice(buffer, k, |buffer|) == buffer
  {
  }

  /** Inside the buffer a slice is the subrange, and negative indices count from the end. */
  lemma SliceMeaning(buffer: seq<Byte>, i: nat, j: nat)
    requires i <= j <= |buffer|
    ensures Slice(buffer, i, j) == buffer[i..j]
    ensures i < |buffer| ==> Slice(buffer, i - |buffer|, j) == buffer[i..j]
    ensures j < |buffer| ==> Slice(buffer, i, j - |buffer|) == buffer[i..j]
  {
  }
}
