/** Day 9: a disk map of alternating file and free-space lengths. Part 1
    expands it into single blocks and moves file blocks one at a time from
    the back into the leftmost free block; part 2 keeps whole spans and
    moves each file, in decreasing id order, into the leftmost free span to
    its left that is large enough. Both answers are the checksum
    Σ position × file id. */
module Day09 {
  import opened Common

  /** A block: the id of the file it holds, or None when it is free. */
  type Cell = Option<nat>

  /** A span of `size` blocks of one file, or of free space. */
  datatype Span = Span(id: Option<nat>, size: nat)

  function Repeat(c: Cell, n: nat): (r: seq<Cell>)
    ensures |r| == n && forall i :: 0 <= i < n ==> r[i] == c
  {
    seq(n, _ => c)
  }

  /** The k-th entry of the disk map is file k / 2 when k is even, free
      space when k is odd. */
  function EntryId(k: nat): Cell
  {
    if k % 2 == 0 then Some(k / 2) else None
  }

  /** The block layout that `make_blocks` builds: every entry expanded into
      that many blocks. */
  function Layout(data: seq<nat>): (blocks: seq<Cell>)
    ensures |blocks| == Sum(data)
  {
    if data == [] then []
    else Layout(data[..|data| - 1]) + Repeat(EntryId(|data| - 1), data[|data| - 1])
  }

  method MakeBlocks(data: seq<nat>) returns (blocks: seq<Cell>)
    ensures blocks == Layout(data)
    ensures |blocks| == Sum(data)
  {
    blocks := [];
    var free, fid := false, 0;
    var k := 0;
    while k < |data|
      invariant 0 <= k <= |data|
      invariant free <==> k % 2 == 1
      invariant fid == (k + 1) / 2
      invariant blocks == Layout(data[..k])
    {
      assert data[..k + 1][..k] == data[..k];
      if free {
        blocks := blocks + Repeat(None, data[k]);
      } else {
        blocks := blocks + Repeat(Some(fid), data[k]);
        fid := fid + 1;
      }
      free := !free;
      k := k + 1;
    }
    assert data[..k] == data;
  }

  lemma {:induction false} RepeatCount(c: Cell, n: nat, x: Cell)
    ensures multiset(Repeat(c, n))[x] == if x == c then n else 0
  {
    if n > 0 {
      RepeatCount(c, n - 1, x);
      assert Repeat(c, n) == Repeat(c, n - 1) + [c];
    }
  }

  /** File k occupies exactly `data[2k]` blocks of the layout, and no other
      ids occur. */
  lemma {:induction false} LayoutFileBlocks(data: seq<nat>, k: nat)
    ensures multiset(Layout(data))[Some(k)] == if 2 * k < |data| then data[2 * k] else 0
  {
    if data != [] {
      var n := |data| - 1;
      LayoutFileBlocks(data[..n], k);
      RepeatCount(EntryId(n), data[n], Some(k));
      assert multiset(Layout(data)) == multiset(Layout(data[..n])) + multiset(Repeat(EntryId(n), data[n]));
      if 2 * k < n {
        assert data[..n][2 * k] == data[2 * k];
      }
    }
  }

  /** Every file block precedes every free block. */
  predicate Compacted(s: seq<Cell>)
  {
    forall i, j :: 0 <= i < j < |s| && s[i].None? ==> s[j].None?
  }

  /** `data[i], data[j] = data[j], data[i]`. */
  method SwapCells(data: array<Cell>, i: int, j: int)
    requires 0 <= i < data.Length && 0 <= j < data.Length
    modifies data
    ensures data[i] == old(data[j]) && data[j] == old(data[i])
    ensures forall k :: 0 <= k < data.Length && k != i && k != j ==> data[k] == old(data[k])
    ensures multiset(data[..]) == multiset(old(data[..]))
  {
    data[i], data[j] := data[j], data[i];
  }

  /** `move_blocks`: `front` looks for the first free block, `back` for the
      last file block, and the two are swapped until the pointers meet. */
  method MoveBlocks(data: array<Cell>)
    modifies data
    ensures multiset(data[..]) == multiset(old(data[..]))
    ensures Compacted(data[..])
  {
    var front, back := 0, data.Length - 1;
    var dst: Option<int>, src: Option<int> := None, None;
    while front < back
      invariant 0 <= front && back < data.Length
      invariant front <= back + 1
      invariant multiset(data[..]) == multiset(old(data[..]))
      invariant forall i :: 0 <= i < front ==> data[i].Some?
      invariant forall i :: back < i < data.Length ==> data[i].None?
      invariant dst.Some? ==> dst.value == front < data.Length && data[front].None?
      invariant src.Some? ==> 0 <= src.value == back && data[back].Some?
      invariant !(dst.Some? && src.Some?)
      decreases back - front
    {
      if src.None? {
        if data[back].Some? {
          src := Some(back);
        } else {
          back := back - 1;
        }
      }
      if dst.None? {
        if data[front].None? {
          dst := Some(front);
        } else {
          front := front + 1;
        }
      }
      if dst.Some? && src.Some? {
        SwapCells(data, dst.value, src.value);
        dst, src := None, None;
        back := back - 1;
        front := front + 1;
      }
    }
  }

  /** `bid * bsize` for a file block at position `i`. */
  function CellValue(c: Cell, i: int): int
  {
    if c.Some? then i * c.value else 0
  }

  /** Σ position × id over the file blocks of `s`, positions counted from
      `base`. */
  function BlockSum(s: seq<Cell>, base: int): int
  {
    if s == [] then 0 else BlockSum(s[..|s| - 1], base) + CellValue(s[|s| - 1], base + |s| - 1)
  }

  method ChecksumBlocks(data: array<Cell>) returns (result: int)
    ensures result == BlockSum(data[..], 0)
  {
    result := 0;
    var i := 0;
    while i < data.Length
      invariant 0 <= i <= data.Length
      invariant result == BlockSum(data[..i], 0)
    {
      assert data[..i + 1][..i] == data[..i];
      if data[i].Some? {
        result := result + i * data[i].value;
      }
      i := i + 1;
    }
    assert data[..i] == data[..];
  }

  /** part1: lay out the blocks, compact them, checksum. */
  method Part1(data: seq<nat>) returns (result: int)
    ensures exists s: seq<Cell> :: multiset(s) == multiset(Layout(data)) && Compacted(s) && result == BlockSum(s, 0)
  {
    var blocks := MakeBlocks(data);
    var disk := new Cell[|blocks|](i requires 0 <= i < |blocks| => blocks[i]);
    assert disk[..] == blocks;
    MoveBlocks(disk);
    result := ChecksumBlocks(disk);
  }

  lemma {:induction false} BlockSumAppend(s: seq<Cell>, t: seq<Cell>, base: int)
    ensures BlockSum(s + t, base) == BlockSum(s, base) + BlockSum(t, base + |s|)
  {
    if t == [] {
      assert s + t == s;
    } else {
      var n := |t| - 1;
      assert (s + t)[..|s + t| - 1] == s + t[..n];
      BlockSumAppend(s, t[..n], base);
    }
  }

  /** `sum(fid * i for i in range(pos, pos + size))`. */
  function SpanSum(fid: nat, pos: int, size: nat): int
  {
    if size == 0 then 0 else SpanSum(fid, pos, size - 1) + fid * (pos + size - 1)
  }

  lemma {:induction false} RepeatBlockSum(c: Cell, n: nat, base: int)
    ensures BlockSum(Repeat(c, n), base) == if c.Some? then SpanSum(c.value, base, n) else 0
  {
    if n > 0 {
      RepeatBlockSum(c, n - 1, base);
      assert Repeat(c, n)[..n - 1] == Repeat(c, n - 1);
    }
  }

  function TotalSize(spans: seq<Span>): nat
  {
    if spans == [] then 0 else TotalSize(spans[..|spans| - 1]) + spans[|spans| - 1].size
  }

  /** The spans written out block by block. */
  function Expand(spans: seq<Span>): (blocks: seq<Cell>)
    ensures |blocks| == TotalSize(spans)
  {
    if spans == [] then []
    else Expand(spans[..|spans| - 1]) + Repeat(spans[|spans| - 1].id, spans[|spans| - 1].size)
  }

  /** `checksum_files`: walk the spans, advancing the position by every
      span's size and adding `SpanSum` for file spans. */
  function FilesChecksum(spans: seq<Span>): int
  {
    if spans == [] then 0
    else
      var last := spans[|spans| - 1];
      var init := spans[..|spans| - 1];
      FilesChecksum(init) + (if last.id.Some? then SpanSum(last.id.value, TotalSize(init), last.size) else 0)
  }

  method ChecksumFiles(spans: seq<Span>) returns (result: int)
    ensures result == FilesChecksum(spans)
  {
    result := 0;
    var pos := 0;
    var k := 0;
    while k < |spans|
      invariant 0 <= k <= |spans|
      invariant pos == TotalSize(spans[..k])
      invariant result == FilesChecksum(spans[..k])
    {
      assert spans[..k + 1][..k] == spans[..k];
      var span := spans[k];
      if span.id.Some? {
        var sum := 0;
        var i := pos;
        while i < pos + span.size
          invariant pos <= i <= pos + span.size
          invariant sum == SpanSum(span.id.value, pos, i - pos)
        {
          sum := sum + span.id.value * i;
          i := i + 1;
        }
        result := result + sum;
      }
      pos := pos + span.size;
      k := k + 1;
    }
    assert spans[..k] == spans;
  }

  /** The span checksum is the block checksum of the expanded layout, so
      both parts score a layout the same way. */
  lemma {:induction false} FilesChecksumIsBlockSum(spans: seq<Span>)
    ensures FilesChecksum(spans) == BlockSum(Expand(spans), 0)
  {
    if spans != [] {
      var init := spans[..|spans| - 1];
      var last := spans[|spans| - 1];
      FilesChecksumIsBlockSum(init);
      BlockSumAppend(Expand(init), Repeat(last.id, last.size), 0);
      RepeatBlockSum(last.id, last.size, |Expand(init)|);
    }
  }

  /** The spans `make_files` builds, one per disk-map entry. */
  function FileMap(data: seq<nat>): (spans: seq<Span>)
    ensures |spans| == |data|
  {
    seq(|data|, k requires 0 <= k < |data| => Span(EntryId(k), data[k]))
  }

  method MakeFiles(data: seq<nat>) returns (spans: seq<Span>)
    ensures spans == FileMap(data)
  {
    spans := [];
    var free, fid := false, 0;
    var k := 0;
    while k < |data|
      invariant 0 <= k <= |data|
      invariant free <==> k % 2 == 1
      invariant fid == (k + 1) / 2
      invariant spans == FileMap(data[..k])
    {
      if free {
        spans := spans + [Span(None, data[k])];
      } else {
        spans := spans + [Span(Some(fid), data[k])];
        fid := fid + 1;
      }
      free := !free;
      k := k + 1;
    }
    assert data[..k] == data;
  }

  /** The two representations agree: the spans of `make_files`, written out,
      are the blocks of `make_blocks`. */
  lemma {:induction false} FileMapExpandsToLayout(data: seq<nat>)
    ensures Expand(FileMap(data)) == Layout(data)
  {
    if data != [] {
      var n := |data| - 1;
      FileMapExpandsToLayout(data[..n]);
      assert FileMap(data)[..n] == FileMap(data[..n]);
    }
  }

  /** `next(i for i, (k, _) in enumerate(blocks) if k == fid)`: the first
      span of file `fid`, or None where the source raises StopIteration. */
  function FindFile(spans: seq<Span>, fid: nat): (r: Option<nat>)
    ensures r.Some? ==> r.value < |spans| && spans[r.value].id == Some(fid)
                        && forall k :: 0 <= k < r.value ==> spans[k].id != Some(fid)
    ensures r.None? ==> forall k :: 0 <= k < |spans| ==> spans[k].id != Some(fid)
  {
    if spans == [] then None
    else if spans[0].id == Some(fid) then Some(0)
    else match FindFile(spans[1..], fid)
      case None => None
      case Some(i) => Some(i + 1)
  }

  /** A free span that can take `fsize` blocks. */
  predicate Fits(s: Span, fsize: nat)
  {
    s.id.None? && s.size >= fsize
  }

  /** The `for ei, (eid, esize) in enumerate(blocks)` search from `ei` on:
      skip file spans, stop at the first free span right of `fi`, take the
      first free span that is large enough. */
  function FitFrom(spans: seq<Span>, ei: nat, fi: nat, fsize: nat): (r: Option<nat>)
    ensures r.Some? ==> ei <= r.value < |spans|
    decreases |spans| - ei
  {
    if ei >= |spans| then None
    else if spans[ei].id.Some? then FitFrom(spans, ei + 1, fi, fsize)
    else if ei > fi then None
    else if spans[ei].size >= fsize then Some(ei)
    else FitFrom(spans, ei + 1, fi, fsize)
  }

  /** The search finds the leftmost large-enough free span at or before
      `fi`, and fails exactly when there is none. */
  lemma {:induction false} FitFromIsLeftmost(spans: seq<Span>, ei: nat, fi: nat, fsize: nat)
    requires fi < |spans|
    ensures FitFrom(spans, ei, fi, fsize).Some? ==>
      var e := FitFrom(spans, ei, fi, fsize).value;
      ei <= e <= fi && Fits(spans[e], fsize) && forall k :: ei <= k < e ==> !Fits(spans[k], fsize)
    ensures FitFrom(spans, ei, fi, fsize).None? ==> forall k :: ei <= k <= fi ==> !Fits(spans[k], fsize)
    decreases |spans| - ei
  {
    if ei < |spans| && (spans[ei].id.Some? || (ei <= fi && spans[ei].size < fsize)) {
      FitFromIsLeftmost(spans, ei + 1, fi, fsize);
    }
  }

  /** `blocks[fi] = (None, fsize)` then `blocks[ei] = (fid, fsize)`. */
  function Swap(spans: seq<Span>, fi: nat, ei: nat): seq<Span>
    requires fi < |spans| && ei < |spans|
  {
    spans[fi := Span(None, spans[fi].size)][ei := Span(spans[fi].id, spans[fi].size)]
  }

  /** `list.insert(k, x)`. */
  function InsertAt(s: seq<Span>, k: nat, x: Span): seq<Span>
    requires k <= |s|
  {
    s[..k] + [x] + s[k..]
  }

  /** Put file span `fi` into free span `ei`: the old place becomes free,
      and a leftover of the free span is inserted right after the file. */
  function Relocate(spans: seq<Span>, fi: nat, ei: nat): seq<Span>
    requires fi < |spans| && ei < |spans|
  {
    var leftover := spans[ei].size - spans[fi].size;
    if leftover > 0 then InsertAt(Swap(spans, fi, ei), ei + 1, Span(None, leftover)) else Swap(spans, fi, ei)
  }

  /** One round of `move_files` for file `fid`; None where `next` fails. */
  function MoveFile(spans: seq<Span>, fid: nat): Option<seq<Span>>
  {
    var found := FindFile(spans, fid);
    if found.None? then None
    else
      var fi := found.value;
      var fit := FitFrom(spans, 0, fi, spans[fi].size);
      if fit.None? then Some(spans) else Some(Relocate(spans, fi, fit.value))
  }

  /** `while fid > 0`: move files `fid`, `fid - 1`, ..., 1 in turn. */
  function MoveAll(spans: seq<Span>, fid: nat): Option<seq<Span>>
    decreases fid
  {
    if fid == 0 then Some(spans)
    else
      var next := MoveFile(spans, fid);
      if next.None? then None else MoveAll(next.value, fid - 1)
  }

  /** One round of `MoveAll`: move file `fid`, then the files below it. */
  lemma MoveAllStep(spans: seq<Span>, fid: nat)
    ensures fid == 0 ==> MoveAll(spans, fid) == Some(spans)
    ensures fid > 0 && MoveFile(spans, fid).None? ==> MoveAll(spans, fid).None?
    ensures fid > 0 && MoveFile(spans, fid).Some? ==> MoveAll(spans, fid) == MoveAll(MoveFile(spans, fid).value, fid - 1)
  {
  }

  /** The multiset of file spans (id and size) of a layout. */
  function FileSpans(spans: seq<Span>): multiset<Span>
  {
    if spans == [] then multiset{}
    else FileSpans(spans[..|spans| - 1]) + (if spans[|spans| - 1].id.Some? then multiset{spans[|spans| - 1]} else multiset{})
  }

  lemma {:induction false} AppendMeasures(s: seq<Span>, t: seq<Span>)
    ensures TotalSize(s + t) == TotalSize(s) + TotalSize(t)
    ensures FileSpans(s + t) == FileSpans(s) + FileSpans(t)
  {
    if t == [] {
      assert s + t == s;
    } else {
      var n := |t| - 1;
      assert (s + t)[..|s + t| - 1] == s + t[..n];
      AppendMeasures(s, t[..n]);
    }
  }

  /** The file span `x` contributes, if any. */
  function FileOf(x: Span): multiset<Span>
  {
    if x.id.Some? then multiset{x} else multiset{}
  }

  lemma SingleMeasures(x: Span)
    ensures TotalSize([x]) == x.size && FileSpans([x]) == FileOf(x)
  {
    assert [x][..0] == [];
  }

  /** Replacing the span at `i` changes the measures by that span only. */
  lemma UpdateMeasures(s: seq<Span>, i: nat, x: Span)
    requires i < |s|
    ensures TotalSize(s[i := x]) == TotalSize(s) - s[i].size + x.size
    ensures FileSpans(s[i := x]) == FileSpans(s) - FileOf(s[i]) + FileOf(x)
  {
    assert s == s[..i] + [s[i]] + s[i + 1..];
    assert s[i := x] == s[..i] + [x] + s[i + 1..];
    AppendMeasures(s[..i], [s[i]]);
    AppendMeasures(s[..i] + [s[i]], s[i + 1..]);
    AppendMeasures(s[..i], [x]);
    AppendMeasures(s[..i] + [x], s[i + 1..]);
    SingleMeasures(s[i]);
    SingleMeasures(x);
  }

  /** Inserting a span adds exactly that span to the measures. */
  lemma InsertMeasures(s: seq<Span>, k: nat, x: Span)
    requires k <= |s|
    ensures TotalSize(InsertAt(s, k, x)) == TotalSize(s) + x.size
    ensures FileSpans(InsertAt(s, k, x)) == FileSpans(s) + FileOf(x)
  {
    assert s == s[..k] + s[k..];
    AppendMeasures(s[..k], s[k..]);
    AppendMeasures(s[..k], [x]);
    AppendMeasures(s[..k] + [x], s[k..]);
    SingleMeasures(x);
  }

  lemma FileSpansContains(s: seq<Span>, i: nat)
    requires i < |s|
    ensures FileOf(s[i]) <= FileSpans(s)
  {
    assert s == s[..i] + [s[i]] + s[i + 1..];
    AppendMeasures(s[..i], [s[i]]);
    AppendMeasures(s[..i] + [s[i]], s[i + 1..]);
    SingleMeasures(s[i]);
  }

  /** The two assignments of a relocation: the file's place becomes free
      and the free span takes the file. */
  lemma SwapInMeasures(spans: seq<Span>, fi: nat, ei: nat)
    requires fi < |spans| && ei < |spans| && spans[fi].id.Some? && spans[ei].id.None?
    ensures FileSpans(Swap(spans, fi, ei)) == FileSpans(spans)
    ensures TotalSize(Swap(spans, fi, ei)) + spans[ei].size == TotalSize(spans) + spans[fi].size
  {
    var fsize := spans[fi].size;
    var file := Span(spans[fi].id, fsize);
    var s1 := spans[fi := Span(None, fsize)];
    FileSpansContains(spans, fi);
    UpdateMeasures(spans, fi, Span(None, fsize));
    UpdateMeasures(s1, ei, file);
    assert s1[ei] == spans[ei];
  }

  /** Relocating a file into a free span keeps the disk size and the
      multiset of file spans: the file leaves its place as free space and
      reappears, whole, in the free span, with any leftover inserted as
      free space. */
  lemma RelocateConserves(spans: seq<Span>, fi: nat, ei: nat)
    requires fi < |spans| && ei < |spans| && spans[fi].id.Some?
    requires Fits(spans[ei], spans[fi].size)
    ensures TotalSize(Relocate(spans, fi, ei)) == TotalSize(spans)
    ensures FileSpans(Relocate(spans, fi, ei)) == FileSpans(spans)
  {
    var swapped := Swap(spans, fi, ei);
    SwapInMeasures(spans, fi, ei);
    var leftover := spans[ei].size - spans[fi].size;
    if leftover > 0 {
      var free := Span(None, leftover);
      assert Relocate(spans, fi, ei) == InsertAt(swapped, ei + 1, free);
      InsertMeasures(swapped, ei + 1, free);
      assert FileOf(free) == multiset{};
    } else {
      assert Relocate(spans, fi, ei) == swapped;
    }
  }

  /** Each round keeps the disk size and the file spans. */
  lemma MoveFileConserves(spans: seq<Span>, fid: nat)
    requires MoveFile(spans, fid).Some?
    ensures TotalSize(MoveFile(spans, fid).value) == TotalSize(spans)
    ensures FileSpans(MoveFile(spans, fid).value) == FileSpans(spans)
  {
    var fi := FindFile(spans, fid).value;
    FitFromIsLeftmost(spans, 0, fi, spans[fi].size);
    var fit := FitFrom(spans, 0, fi, spans[fi].size);
    if fit.Some? {
      RelocateConserves(spans, fi, fit.value);
    }
  }

  lemma {:induction false} MoveAllConserves(spans: seq<Span>, fid: nat)
    requires MoveAll(spans, fid).Some?
    ensures TotalSize(MoveAll(spans, fid).value) == TotalSize(spans)
    ensures FileSpans(MoveAll(spans, fid).value) == FileSpans(spans)
    decreases fid
  {
    if fid > 0 {
      MoveFileConserves(spans, fid);
      MoveAllConserves(MoveFile(spans, fid).value, fid - 1);
    }
  }

  /** A file only moves left: it lands in a free span before its old one. */
  lemma MoveFileGoesLeft(spans: seq<Span>, fid: nat)
    requires MoveFile(spans, fid).Some?
    ensures var fi := FindFile(spans, fid).value;
            var r := FitFrom(spans, 0, fi, spans[fi].size);
            r.Some? ==> r.value < fi && Fits(spans[r.value], spans[fi].size)
                        && forall k :: 0 <= k < r.value ==> !Fits(spans[k], spans[fi].size)
  {
    var fi := FindFile(spans, fid).value;
    FitFromIsLeftmost(spans, 0, fi, spans[fi].size);
  }

  /** File 0 at the front is never moved by a round for a positive id. */
  lemma MoveFileKeepsFirstFile(spans: seq<Span>, fid: nat)
    requires fid > 0 && |spans| > 0 && spans[0].id == Some(0)
    requires MoveFile(spans, fid).Some?
    ensures |MoveFile(spans, fid).value| > 0 && MoveFile(spans, fid).value[0] == spans[0]
  {
    var fi := FindFile(spans, fid).value;
    FitFromIsLeftmost(spans, 0, fi, spans[fi].size);
  }

  /** The list that `move_files` rearranges in place. */
  class FileList {
    var spans: seq<Span>

    /** `make_files`. */
    constructor (data: seq<nat>)
      ensures spans == FileMap(data)
    {
      var built := MakeFiles(data);
      spans := built;
    }

    /** `max(fid for fid, _ in blocks if fid is not None)`; None where the
        source's `max` of nothing raises. */
    method MaxFileId() returns (m: Option<nat>)
      ensures m.None? <==> forall k :: 0 <= k < |spans| ==> spans[k].id.None?
      ensures m.Some? ==> (exists k :: 0 <= k < |spans| && spans[k].id == Some(m.value))
                          && forall k :: 0 <= k < |spans| && spans[k].id.Some? ==> spans[k].id.value <= m.value
    {
      m := None;
      var k := 0;
      while k < |spans|
        invariant 0 <= k <= |spans|
        invariant m.None? <==> forall j :: 0 <= j < k ==> spans[j].id.None?
        invariant m.Some? ==> (exists j :: 0 <= j < k && spans[j].id == Some(m.value))
                              && forall j :: 0 <= j < k && spans[j].id.Some? ==> spans[j].id.value <= m.value
      {
        if spans[k].id.Some? && (m.None? || spans[k].id.value > m.value) {
          m := spans[k].id;
        }
        k := k + 1;
      }
    }

    /** One round of the `while fid > 0` loop. */
    method MoveFileRound(fid: nat) returns (ok: bool)
      modifies this
      ensures ok <==> MoveFile(old(spans), fid).Some?
      ensures ok ==> spans == MoveFile(old(spans), fid).value
      ensures !ok ==> spans == old(spans)
    {
      var fi := 0;
      while fi < |spans| && spans[fi].id != Some(fid)
        invariant 0 <= fi <= |spans|
        invariant forall k :: 0 <= k < fi ==> spans[k].id != Some(fid)
      {
        fi := fi + 1;
      }
      if fi == |spans| {
        return false;
      }
      assert FindFile(spans, fid) == Some(fi);
      var fsize := spans[fi].size;
      var ei := 0;
      while ei < |spans|
        invariant 0 <= ei <= |spans|
        invariant FitFrom(spans, ei, fi, fsize) == FitFrom(spans, 0, fi, fsize)
        decreases |spans| - ei
      {
        var (eid, esize) := (spans[ei].id, spans[ei].size);
        if eid.Some? {
          ei := ei + 1;
          continue;
        }
        if ei > fi {
          break;
        }
        if esize >= fsize {
          FitFromIsLeftmost(spans, ei, fi, fsize);
          var s := spans[fi := Span(None, fsize)];
          s := s[ei := Span(Some(fid), fsize)];
          assert s == Swap(spans, fi, ei);
          if esize - fsize > 0 {
            s := s[..ei + 1] + [Span(None, esize - fsize)] + s[ei + 1..];
          }
          spans := s;
          return true;
        }
        ei := ei + 1;
      }
      return true;
    }

    /** `move_files`: defragment in order of decreasing file id. */
    method MoveFiles() returns (ok: bool)
      modifies this
      ensures var top := MaxId(old(spans));
              ok <==> top.Some? && MoveAll(old(spans), top.value).Some?
      ensures ok ==> spans == MoveAll(old(spans), MaxId(old(spans)).value).value
    {
      hide MoveAll, MoveFile, MaxId;
      var top := MaxFileId();
      MaxIdCharacterized(spans, top);
      if top.None? {
        return false;
      }
      var fid := top.value;
      while fid > 0
        invariant MoveAll(old(spans), top.value) == MoveAll(spans, fid)
        decreases fid
      {
        MoveAllStep(spans, fid);
        var moved := MoveFileRound(fid);
        if !moved {
          return false;
        }
        fid := fid - 1;
      }
      MoveAllStep(spans, fid);
      return true;
    }
  }

  /** The largest file id of a layout, if it has any file. */
  function MaxId(spans: seq<Span>): (m: Option<nat>)
    ensures m.None? <==> forall k :: 0 <= k < |spans| ==> spans[k].id.None?
    ensures m.Some? ==> (exists k :: 0 <= k < |spans| && spans[k].id == Some(m.value))
                        && forall k :: 0 <= k < |spans| && spans[k].id.Some? ==> spans[k].id.value <= m.value
  {
    if spans == [] then None
    else
      var rest := MaxId(spans[1..]);
      assert forall k :: 1 <= k < |spans| ==> spans[k] == spans[1..][k - 1];
      match spans[0].id
      case None => rest
      case Some(i) =>
        if rest.Some? && rest.value > i then rest
        else Some(i)
  }

  /** Anything with the characterization of `MaxId` is `MaxId`. */
  lemma MaxIdCharacterized(spans: seq<Span>, m: Option<nat>)
    requires m.None? <==> forall k :: 0 <= k < |spans| ==> spans[k].id.None?
    requires m.Some? ==> (exists k :: 0 <= k < |spans| && spans[k].id == Some(m.value))
                         && forall k :: 0 <= k < |spans| && spans[k].id.Some? ==> spans[k].id.value <= m.value
    ensures m == MaxId(spans)
  {
    var r := MaxId(spans);
    if m.Some? {
      var k :| 0 <= k < |spans| && spans[k].id == Some(m.value);
      var j :| 0 <= j < |spans| && spans[j].id == Some(r.value);
      assert m.value <= r.value && r.value <= m.value;
    }
  }

  /** part2: build the spans, defragment them in place, checksum. None where
      the source raises (no file at all, or a file id missing). */
  method Part2(data: seq<nat>) returns (result: Option<int>)
    ensures var top := MaxId(FileMap(data));
            result.Some? <==> top.Some? && MoveAll(FileMap(data), top.value).Some?
    ensures result.Some? ==> result.value == FilesChecksum(MoveAll(FileMap(data), MaxId(FileMap(data)).value).value)
    ensures result.Some? ==> (exists s: seq<Span> :: TotalSize(s) == TotalSize(FileMap(data))
                               && FileSpans(s) == FileSpans(FileMap(data)) && result.value == FilesChecksum(s))
  {
    var disk := new FileList(data);
    var ok := disk.MoveFiles();
    if !ok {
      return None;
    }
    MoveAllConserves(FileMap(data), MaxId(FileMap(data)).value);
    var sum := ChecksumFiles(disk.spans);
    result := Some(sum);
  }
}
