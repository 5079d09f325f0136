/**
 * The section walk over an open bank file.
 *
 * The file is its bytes and a read cursor. `read_structure` copies the next
 * sizeof(T) bytes over a packed record; `extract_file` reads one section
 * header after another, adds each header's `size` to a running total and
 * seeks over the payload, until a header read fails.
 *
 * The walk is specified by `WalkFrom`, a function of the bytes, the start
 * cursor and the header buffer's starting contents; `ExtractFile` is proved
 * to compute exactly its total and final cursor.
 */
module Extract {
  import opened Bytes
  import opened Structs

  /** The header buffer before the first read: `Section content_section{}`
      is zero-initialised. */
  const EmptySection: seq<byte> := [0, 0, 0, 0, 0, 0, 0, 0]

  // ---------------------------------------------------------------------
  // Reading at a cursor

  /** How many of `len` requested bytes a read at cursor `pos` obtains: all
      of them when they are there, otherwise what is left before the end. */
  function Available(data: seq<byte>, pos: nat, len: nat): (n: nat)
    ensures n <= len
    ensures n > 0 ==> pos + n <= |data|
    ensures n == len <==> len == 0 || pos + len <= |data|
    ensures n < len ==> |data| <= pos + n
  {
    if pos >= |data| then 0
    else if |data| - pos < len then |data| - pos
    else len
  }

  /** The caller's buffer after a read at `pos`: the bytes obtained
      overwrite its front and the rest keep their former contents. */
  function Fill(data: seq<byte>, pos: nat, buf: seq<byte>): (r: seq<byte>)
    ensures |r| == |buf|
    ensures pos + |buf| <= |data| ==> r == data[pos..pos + |buf|]
    ensures pos >= |data| ==> r == buf
  {
    var n := Available(data, pos, |buf|);
    if n == 0 then buf else data[pos..pos + n] + buf[n..]
  }

  /** A header whose last four bytes are those of the zeroed buffer says
      size 0. */
  lemma ZeroSize(s: seq<byte>)
    requires |s| == SectionSize && s[4..] == EmptySection[4..]
    ensures DecodeSection(s).size == 0
  {
    assert s[4..8] == [0, 0, 0, 0];
  }

  /** The bytes of the buffer from `k` on lie past the end of the file, so a
      read leaves them as they were. */
  lemma FillKeepsTail(data: seq<byte>, pos: nat, buf: seq<byte>, k: nat)
    requires k <= |buf| && |data| <= pos + k
    ensures Fill(data, pos, buf)[k..] == buf[k..]
  {
  }

  /** A read that starts inside the file but runs past its end copies the
      bytes that are left over the front of the buffer and keeps the rest. */
  lemma FillPartial(data: seq<byte>, pos: nat, buf: seq<byte>)
    requires pos < |data| < pos + |buf|
    ensures Fill(data, pos, buf) == data[pos..] + buf[|data| - pos..]
  {
  }

  // ---------------------------------------------------------------------
  // The walk as a function

  /** One header the walk read: the cursor it was read at and what it says. */
  datatype Step = Step(offset: nat, section: Section)
  {
    /** The cursor after seeking over this section's payload. */
    function Next(): nat {
      offset + SectionSize + section.size
    }
  }

  /** A finished walk: the headers read, in order; the cursor of the header
      read that failed; the header buffer as that read left it. */
  datatype Walk = Walk(steps: seq<Step>, stop: nat, last: seq<byte>)

  /** The walk from cursor `pos` with the header buffer holding `buf`. Every
      header it reads lies wholly inside the file, and it stops at a cursor
      from which no whole header can be read. */
  function WalkFrom(data: seq<byte>, pos: nat, buf: seq<byte>): (w: Walk)
    requires |buf| == SectionSize
    ensures |w.last| == SectionSize
    ensures pos <= w.stop && |data| < w.stop + SectionSize
    decreases if pos <= |data| then |data| - pos else 0
  {
    if pos + SectionSize <= |data| then
      var header := data[pos..pos + SectionSize];
      var section := DecodeSection(header);
      var rest := WalkFrom(data, pos + SectionSize + section.size, header);
      Walk([Step(pos, section)] + rest.steps, rest.stop, rest.last)
    else
      Walk([], pos, Fill(data, pos, buf))
  }

  /** The sum of the sizes of the headers read. */
  function SumSizes(steps: seq<Step>): nat
  {
    if steps == [] then 0
    else SumSizes(steps[..|steps| - 1]) + steps[|steps| - 1].section.size
  }

  /** The running u64 `total` after adding the size of each header read, in
      order, starting from 0. However the additions wrapped on the way, it is
      the sum of the sizes modulo 2^64. */
  function RunningTotal(steps: seq<Step>): (t: u64)
    ensures t == SumSizes(steps) % U64Modulus
  {
    if steps == [] then 0
    else
      var init := steps[..|steps| - 1];
      var size := steps[|steps| - 1].section.size;
      ModAddModulus(SumSizes(init), size);
      AddU64(RunningTotal(init), size)
  }

  /** `total` when the walk ends: every header's size, plus the size field of
      the buffer the failing read left behind, modulo 2^64. */
  function WalkTotal(w: Walk): (t: u64)
    requires |w.last| == SectionSize
    ensures t == (SumSizes(w.steps) + DecodeSection(w.last).size) % U64Modulus
  {
    ModAddModulus(SumSizes(w.steps), DecodeSection(w.last).size);
    AddU64(RunningTotal(w.steps), DecodeSection(w.last).size)
  }

  ghost function Prepend(done: seq<Step>, w: Walk): Walk
  {
    Walk(done + w.steps, w.stop, w.last)
  }

  /** A whole header at the cursor: it is read, and the walk goes on past
      its payload with the buffer holding it. */
  lemma WalkReads(done: seq<Step>, data: seq<byte>, pos: nat, buf: seq<byte>,
                  header: seq<byte>, section: Section, next: nat)
    requires |buf| == SectionSize && pos + SectionSize <= |data|
    requires header == data[pos..pos + SectionSize] && section == DecodeSection(header)
    requires next == pos + SectionSize + section.size
    ensures Prepend(done, WalkFrom(data, pos, buf))
         == Prepend(done + [Step(pos, section)], WalkFrom(data, next, header))
  {
    var rest := WalkFrom(data, next, header);
    assert WalkFrom(data, pos, buf).steps == [Step(pos, section)] + rest.steps;
    assert done + ([Step(pos, section)] + rest.steps) == (done + [Step(pos, section)]) + rest.steps;
  }

  /** No whole header at the cursor: the walk stops there, with the buffer
      as the failing read leaves it. */
  lemma WalkStops(done: seq<Step>, data: seq<byte>, pos: nat, buf: seq<byte>)
    requires |buf| == SectionSize && |data| < pos + SectionSize
    ensures Prepend(done, WalkFrom(data, pos, buf)) == Walk(done, pos, Fill(data, pos, buf))
  {
    assert done + [] == done;
  }

  // ---------------------------------------------------------------------
  // Properties of the walk

  /** The first header is read at the start cursor and each next one just
      past the previous payload; the failing read is just past the last
      payload. */
  lemma {:induction false} WalkChain(data: seq<byte>, pos: nat, buf: seq<byte>)
    requires |buf| == SectionSize
    ensures var w := WalkFrom(data, pos, buf);
      && (w.steps == [] ==> w.stop == pos)
      && (w.steps != [] ==> w.steps[0].offset == pos && w.stop == w.steps[|w.steps| - 1].Next())
      && (forall i :: 0 <= i < |w.steps| - 1 ==> w.steps[i + 1].offset == w.steps[i].Next())
    decreases if pos <= |data| then |data| - pos else 0
  {
    if pos + SectionSize <= |data| {
      var header := data[pos..pos + SectionSize];
      var section := DecodeSection(header);
      var next := pos + SectionSize + section.size;
      var rest := WalkFrom(data, next, header);
      WalkReads([], data, pos, buf, header, section, next);
      WalkChain(data, next, header);
      var w := WalkFrom(data, pos, buf);
      assert w.steps == [Step(pos, section)] + rest.steps && w.stop == rest.stop;
      forall i | 0 <= i < |w.steps| - 1
        ensures w.steps[i + 1].offset == w.steps[i].Next()
      {
        if i > 0 { assert w.steps[i] == rest.steps[i - 1]; }
      }
    }
  }

  /** Every header the walk reads lies wholly inside the file, at or after
      the start cursor, and says what the eight bytes at its cursor say. */
  lemma {:induction false} HeadersInFile(data: seq<byte>, pos: nat, buf: seq<byte>)
    requires |buf| == SectionSize
    ensures var w := WalkFrom(data, pos, buf);
      forall i :: 0 <= i < |w.steps| ==>
        && pos <= w.steps[i].offset
        && w.steps[i].offset + SectionSize <= |data|
        && w.steps[i].section == DecodeSection(data[w.steps[i].offset..w.steps[i].offset + SectionSize])
    decreases if pos <= |data| then |data| - pos else 0
  {
    if pos + SectionSize <= |data| {
      var header := data[pos..pos + SectionSize];
      var section := DecodeSection(header);
      var next := pos + SectionSize + section.size;
      var rest := WalkFrom(data, next, header);
      WalkReads([], data, pos, buf, header, section, next);
      HeadersInFile(data, next, header);
      var w := WalkFrom(data, pos, buf);
      assert w.steps == [Step(pos, section)] + rest.steps;
      forall i | 0 <= i < |w.steps|
        ensures && pos <= w.steps[i].offset
                && w.steps[i].offset + SectionSize <= |data|
                && w.steps[i].section == DecodeSection(data[w.steps[i].offset..w.steps[i].offset + SectionSize])
      {
        if i > 0 { assert w.steps[i] == rest.steps[i - 1]; }
      }
    }
  }

  /** No header is ever read from inside a declared payload: every later
      header, and the failing read, lie at or past the end of each payload. */
  lemma {:induction false} HeadersOutsidePayloads(data: seq<byte>, pos: nat, buf: seq<byte>)
    requires |buf| == SectionSize
    ensures var w := WalkFrom(data, pos, buf);
      && (forall i :: 0 <= i < |w.steps| ==> pos <= w.steps[i].offset && w.steps[i].Next() <= w.stop)
      && (forall i, j :: 0 <= i < j < |w.steps| ==> w.steps[i].Next() <= w.steps[j].offset)
    decreases if pos <= |data| then |data| - pos else 0
  {
    if pos + SectionSize <= |data| {
      var header := data[pos..pos + SectionSize];
      var section := DecodeSection(header);
      var next := pos + SectionSize + section.size;
      var rest := WalkFrom(data, next, header);
      WalkReads([], data, pos, buf, header, section, next);
      HeadersOutsidePayloads(data, next, header);
      var w := WalkFrom(data, pos, buf);
      assert w.steps == [Step(pos, section)] + rest.steps && w.stop == rest.stop;
      assert w.steps[0].Next() == next <= rest.stop;
      forall i | 0 <= i < |w.steps|
        ensures pos <= w.steps[i].offset && w.steps[i].Next() <= w.stop
      {
        if i > 0 {
          assert w.steps[i] == rest.steps[i - 1];
        }
      }
      forall i, j | 0 <= i < j < |w.steps|
        ensures w.steps[i].Next() <= w.steps[j].offset
      {
        assert w.steps[j] == rest.steps[j - 1];
        if i > 0 {
          assert w.steps[i] == rest.steps[i - 1];
        }
      }
    }
  }

  /** Each header read moves the cursor on by at least the header's eight
      bytes, so a file of n bytes yields at most n / 8 headers and the walk
      ends on every finite file, zero-size sections included. */
  lemma {:induction false} WalkLength(data: seq<byte>, pos: nat, buf: seq<byte>)
    requires |buf| == SectionSize
    ensures var w := WalkFrom(data, pos, buf);
      && pos + SectionSize * |w.steps| <= w.stop
      && (w.steps != [] ==> pos + SectionSize * |w.steps| <= |data|)
    decreases if pos <= |data| then |data| - pos else 0
  {
    if pos + SectionSize <= |data| {
      var header := data[pos..pos + SectionSize];
      var next := pos + SectionSize + DecodeSection(header).size;
      WalkLength(data, next, header);
    }
  }

  /** A file too short to hold one header yields no header; when it holds at
      most four bytes the size field of the buffer stays zero, so `total`
      ends at 0, as it does on an empty file. */
  lemma ShortFile(data: seq<byte>)
    requires |data| < SectionSize
    ensures WalkFrom(data, 0, EmptySection).steps == []
    ensures |data| <= 4 ==> WalkTotal(WalkFrom(data, 0, EmptySection)) == 0
  {
    WalkStops([], data, 0, EmptySection);
    if |data| <= 4 {
      FillKeepsTail(data, 0, EmptySection, 4);
      ZeroSize(Fill(data, 0, EmptySection));
    }
  }

  /** When the last seek lands at or past the end of the file (exactly at the
      end, or beyond it when the last size overshoots), the failing read
      obtains no byte and the buffer still holds the last header read,
      so `total` counts that header's size a second time. */
  lemma {:induction false} CleanEndCountsLastSizeTwice(data: seq<byte>, pos: nat, buf: seq<byte>)
    requires |buf| == SectionSize
    requires WalkFrom(data, pos, buf).steps != []
    requires WalkFrom(data, pos, buf).stop >= |data|
    ensures var w := WalkFrom(data, pos, buf);
      && DecodeSection(w.last) == w.steps[|w.steps| - 1].section
      && WalkTotal(w) == AddU64(RunningTotal(w.steps), w.steps[|w.steps| - 1].section.size)
    decreases if pos <= |data| then |data| - pos else 0
  {
    var header := data[pos..pos + SectionSize];
    var next := pos + SectionSize + DecodeSection(header).size;
    var w := WalkFrom(data, pos, buf);
    var rest := WalkFrom(data, next, header);
    assert w.steps == [Step(pos, DecodeSection(header))] + rest.steps;
    if rest.steps != [] {
      CleanEndCountsLastSizeTwice(data, next, header);
      assert w.steps[|w.steps| - 1] == rest.steps[|rest.steps| - 1];
    } else {
      assert rest.last == header;
    }
  }

  /** A file holding one `BKHD` section of size 4 and nothing after it: the
      walk reads that one header, its failing read lands exactly on the end
      of the file, and `total` ends at 8, not 4. */
  lemma OneSectionCountedTwice()
    ensures var data := [0x42, 0x4B, 0x48, 0x44, 4, 0, 0, 0, 1, 2, 3, 4];
      var w := WalkFrom(data, 0, EmptySection);
      && w.steps == [Step(0, Section([0x42, 0x4B, 0x48, 0x44], 4))]
      && w.stop == 12
      && WalkTotal(w) == 8
  {
    var data: seq<byte> := [0x42, 0x4B, 0x48, 0x44, 4, 0, 0, 0, 1, 2, 3, 4];
    var header := data[0..8];
    assert header == [0x42, 0x4B, 0x48, 0x44, 4, 0, 0, 0];
    assert header[0..4] == [0x42, 0x4B, 0x48, 0x44] && header[4..8] == [4, 0, 0, 0];
    WalkReads([], data, 0, EmptySection, header, DecodeSection(header), 12);
    WalkStops([Step(0, DecodeSection(header))], data, 12, header);
    assert Fill(data, 12, header) == header;
    assert RunningTotal([Step(0, DecodeSection(header))]) == 4;
  }

  // ---------------------------------------------------------------------
  // The file and the walk as the program runs them

  /** An open bank file: its bytes and the read cursor. The cursor may be
      moved past the end, after which reads obtain nothing. */
  class BnkStream {
    const data: seq<byte>
    var pos: nat

    constructor (data: seq<byte>)
      ensures this.data == data && pos == 0
    {
      this.data := data;
      pos := 0;
    }

    /** `read_structure`: copy the next `buf.Length` bytes over the record
        in `buf`. It succeeds exactly when all of them were there; whatever
        was obtained is in the buffer and the cursor moves past it. */
    method ReadStructure(buf: array<byte>) returns (success: bool)
      modifies this, buf
      ensures success <==> buf.Length == 0 || old(pos) + buf.Length <= |data|
      ensures buf[..] == Fill(data, old(pos), old(buf[..]))
      ensures pos == old(pos) + Available(data, old(pos), buf.Length)
    {
      var n := Available(data, pos, buf.Length);
      forall i | 0 <= i < n {
        buf[i] := data[pos + i];
      }
      pos := pos + n;
      success := n == buf.Length;
    }

    /** `seek` relative to the current position. */
    method SeekCur(offset: nat)
      modifies this
      ensures pos == old(pos) + offset
    {
      pos := pos + offset;
    }
  }

  /** `extract_file`: walk the section headers from the cursor and return
      the running `total` as it stands when the walk stops. The result and
      the final cursor are those of `WalkFrom` from the start cursor and a
      zeroed header, whatever `swapByteOrder` says: the flag is never read. */
  method ExtractFile(file: BnkStream, swapByteOrder: bool) returns (total: u64)
    modifies file
    ensures var w := WalkFrom(file.data, old(file.pos), EmptySection);
      && total == WalkTotal(w)
      && file.pos == w.stop + Available(file.data, w.stop, SectionSize)
  {
    var contentSection := new byte[SectionSize](_ => 0);
    assert contentSection[..] == EmptySection;
    total := 0;
    ghost var whole := WalkFrom(file.data, file.pos, EmptySection);
    ghost var done: seq<Step> := [];
    assert done + whole.steps == whole.steps;
    while true
      invariant contentSection.Length == SectionSize && fresh(contentSection)
      invariant total == RunningTotal(done)
      invariant whole == Prepend(done, WalkFrom(file.data, file.pos, contentSection[..]))
      decreases if file.pos <= |file.data| then |file.data| - file.pos else 0
    {
      ghost var before := file.pos;
      ghost var held := contentSection[..];
      var success := file.ReadStructure(contentSection);
      var section := DecodeSection(contentSection[..]);
      total := AddU64(total, section.size);
      if !success {
        assert whole == Walk(done, before, contentSection[..]) by {
          WalkStops(done, file.data, before, held);
        }
        break;
      }
      ghost var header := file.data[before..before + SectionSize];
      assert contentSection[..] == header;
      file.SeekCur(section.size);
      ghost var step := Step(before, section);
      WalkReads(done, file.data, before, held, header, section, file.pos);
      assert RunningTotal(done + [step]) == total by {
        assert (done + [step])[..|done|] == done;
      }
      done := done + [step];
    }
  }
}
