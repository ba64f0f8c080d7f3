/** The archive reader `tarContents` (index.ts:27-56): a walk over a byte
    buffer in 512-byte header blocks laid out as in the ustar interchange
    format of the pax utility (POSIX.1-2017): the entry name in bytes 0-99,
    its size as octal text in bytes 124-135, the content right after the
    header, padded to a whole number of blocks. Only these two fields are
    read. */
module Tar {
  import opened Wrappers
  import opened Strings
  import opened Octal

  const BlockSize: nat := 512
  const NameEnd: nat := 100
  const SizeStart: nat := 124
  const SizeEnd: nat := 136

  /** One yielded `{ name, content }` pair. */
  datatype Entry = Entry(name: string, content: seq<byte>)

  // ---------------------------------------------------------------------
  // Header fields
  // ---------------------------------------------------------------------

  /** Bytes `lo` to `hi - 1` of a header shown as text, one character per
      byte. */
  function Field(header: seq<byte>, lo: nat, hi: nat): (text: string)
    requires lo <= hi <= |header|
    ensures |text| == hi - lo
  {
    seq(hi - lo, i requires 0 <= i < hi - lo => header[lo + i] as int as char)
  }

  /** A field is the bytes between its bounds decoded one character per
      byte. */
  lemma FieldDecodes(header: seq<byte>, lo: nat, hi: nat)
    requires lo <= hi <= |header|
    ensures Field(header, lo, hi) == DecodeBytes(header[lo..hi])
  {
  }

  /** Bytes 0-99 of the header as text, cut at the first NUL. The name is
      empty exactly when the header starts with a NUL byte. */
  function HeaderName(header: seq<byte>): (name: string)
    requires |header| == BlockSize
    ensures |name| <= NameEnd
    ensures |name| == 0 <==> header[0] == 0
  {
    CutAtNul(Field(header, 0, NameEnd))
  }

  /** Bytes 124-135 of the header as text, with `/\0.*$/` removed and
      trimmed. */
  function SizeText(header: seq<byte>): string
    requires |header| == BlockSize
  {
    Trim(RegexCutAtNul(Field(header, SizeStart, SizeEnd)))
  }

  /** `parseInt(sizeOctal, 8) || 0` exactly as index.ts:44-46 computes it:
      the size text parsed as octal, a leading minus sign included; NaN
      reads as 0. */
  function ParsedSize(header: seq<byte>): (size: int)
    requires |header| == BlockSize
    ensures header[SizeStart] == 0 ==> size == 0
    ensures size < 0 ==> '-' in SizeText(header)
  {
    var field := Field(header, SizeStart, SizeEnd);
    var cut := RegexCutAtNul(field);
    assert header[SizeStart] == 0 && |cut| > 0 ==> cut[0] == field[0] == '\0';
    assert |cut| > 0 && !IsWhitespace(cut[0]) ==> SkipWhitespace(cut, 0) == 0;
    ParseOctalOrZero(SizeText(header))
  }

  /** The size field read in one pass over bytes 124-135. */
  function ScannedSize(header: seq<byte>): int
    requires |header| == BlockSize
  {
    ScanOctal(Field(header, SizeStart, SizeEnd), 0, Blank)
  }

  /** The one-pass reading the model walks with is the size index.ts:44-46
      computes. */
  lemma SizeReadsAsParsed(header: seq<byte>)
    requires |header| == BlockSize
    ensures ScannedSize(header) == ParsedSize(header)
  {
    var field := Field(header, SizeStart, SizeEnd);
    CutAndTrimIgnored(field, |RegexCutAtNul(field)|);
  }

  /** The content length the model uses: the parsed size, with a negative
      value read as 0 like any other unusable field. */
  function EntrySize(header: seq<byte>): (size: nat)
    requires |header| == BlockSize
  {
    var size := ScannedSize(header);
    if size < 0 then 0 else size
  }

  /** The content length is the size index.ts:44-46 parses, a negative
      one read as 0; an all-NUL size field gives 0. */
  lemma EntrySizeReadsParsed(header: seq<byte>)
    requires |header| == BlockSize
    ensures ParsedSize(header) >= 0 ==> EntrySize(header) == ParsedSize(header)
    ensures ParsedSize(header) < 0 ==> EntrySize(header) == 0
    ensures header[SizeStart] == 0 ==> EntrySize(header) == 0
  {
    SizeReadsAsParsed(header);
  }

  // ---------------------------------------------------------------------
  // Record layout
  // ---------------------------------------------------------------------

  /** `Math.ceil(size / 512)` for any integer size. */
  function CeilBlocks(size: int): (n: int)
    ensures size <= n * 512 < size + BlockSize
  {
    -((-size) / 512)
  }

  /** Where the next header starts: after this header and the content
      rounded up to whole blocks. The walk always moves forward by at least
      one block, and stays on the same 512-byte grid. */
  function NextOffset(offset: nat, size: nat): (next: nat)
    ensures offset + BlockSize + size <= next < offset + 2 * 512 + size
    ensures (next - offset) % 512 == 0
  {
    var blocks := CeilBlocks(size);
    offset + BlockSize + blocks * 512
  }

  /** `data.slice(from, to)` for `from <= data.length`: clipped to the end
      of the buffer. */
  function Slice(data: seq<byte>, from: nat, to: nat): (s: seq<byte>)
    requires from <= |data| && from <= to
    ensures |s| == (if to <= |data| then to else |data|) - from
  {
    var end := if to <= |data| then to else |data|;
    seq(end - from, i requires 0 <= i < end - from => data[from + i])
  }

  /** The 512 bytes of the header block at `offset`. */
  function HeaderAt(data: seq<byte>, offset: nat): (header: seq<byte>)
    requires offset + BlockSize <= |data|
    ensures |header| == BlockSize
  {
    seq(BlockSize, i requires 0 <= i < BlockSize => data[offset + i])
  }

  /** Whether the walk ends at `offset`: no whole block is left, or the
      header's name is empty, which it is exactly when the header's first
      byte is NUL (see `HeaderName`). */
  predicate StopsAt(data: seq<byte>, offset: nat) {
    offset + BlockSize > |data| || data[offset] == 0
  }

  /** The entry yielded for the header at `offset`. */
  function EntryAt(data: seq<byte>, offset: nat): Entry
    requires offset + BlockSize <= |data|
  {
    var header := HeaderAt(data, offset);
    var start := offset + BlockSize;
    Entry(HeaderName(header), Slice(data, start, start + EntrySize(header)))
  }

  /** Where the header after the one at `offset` starts. */
  function NextAt(data: seq<byte>, offset: nat): nat
    requires offset + BlockSize <= |data|
  {
    NextOffset(offset, EntrySize(HeaderAt(data, offset)))
  }

  // ---------------------------------------------------------------------
  // The walk in the abstract
  // ---------------------------------------------------------------------

  /** A walk over header positions, the shape of the loop in
      `tarContents`: `stops(o)` says whether the walk ends at the header at
      `o`, `next(o)` where the header after it starts and `at(o)` what is
      yielded for it. */
  datatype Walker = Walker(bound: nat, stops: nat -> bool, next: nat -> nat, at: nat -> Entry)

  /** Every header that does not stop the walk lies below the bound, and
      the walk moves forward from it. */
  ghost predicate Advances(w: Walker) {
    forall o: nat :: !w.stops(o) ==> o < w.bound && o < w.next(o)
  }

  /** Every header that does not stop the walk is followed by one a whole
      number of blocks, at least one, further on. */
  ghost predicate OnGrid(w: Walker) {
    forall o: nat :: !w.stops(o) ==> o + BlockSize <= w.next(o) && (w.next(o) - o) % 512 == 0
  }

  /** The positions of the headers read from `offset` on, the one the walk
      stops at included. */
  function Visited(w: Walker, offset: nat): (os: seq<nat>)
    requires Advances(w)
    ensures |os| >= 1 && os[0] == offset
    decreases w.bound - offset
  {
    if w.stops(offset) then [offset] else [offset] + Visited(w, w.next(offset))
  }

  /** What the walk yields from `offset` on, in order. */
  function Yield(w: Walker, offset: nat): seq<Entry>
    requires Advances(w)
    decreases w.bound - offset
  {
    if w.stops(offset) then [] else [w.at(offset)] + Yield(w, w.next(offset))
  }

  /** The walk reads one header more than it yields entries, and the last
      header it reads stops it. */
  lemma {:induction false} WalkLength(w: Walker, offset: nat)
    requires Advances(w)
    ensures |Visited(w, offset)| == |Yield(w, offset)| + 1
    ensures w.stops(Visited(w, offset)[|Yield(w, offset)|])
    decreases w.bound - offset
  {
    if !w.stops(offset) {
      WalkLength(w, w.next(offset));
    }
  }

  /** The `k`-th entry yielded is the one read at the `k`-th header, which
      does not stop the walk and is followed by the `k + 1`-th. */
  lemma {:induction false} WalkStep(w: Walker, offset: nat, k: nat)
    requires Advances(w)
    requires k < |Yield(w, offset)|
    ensures var os := Visited(w, offset);
      && k + 1 < |os|
      && !w.stops(os[k])
      && Yield(w, offset)[k] == w.at(os[k])
      && os[k + 1] == w.next(os[k])
    decreases k
  {
    WalkLength(w, offset);
    if k > 0 {
      WalkStep(w, w.next(offset), k - 1);
    }
  }

  /** On a grid walk every header read lies a whole number of blocks, at
      least `k`, after the first: the positions strictly increase. */
  lemma {:induction false} WalkGrid(w: Walker, offset: nat, k: nat)
    requires Advances(w) && OnGrid(w)
    requires k < |Visited(w, offset)|
    ensures (Visited(w, offset)[k] - offset) % 512 == 0
    ensures Visited(w, offset)[k] >= offset + k * 512
    decreases k
  {
    if k > 0 {
      var next := w.next(offset);
      WalkGrid(w, next, k - 1);
      SameGrid(Visited(w, next)[k - 1], next, offset);
    }
  }

  /** Two steps along the 512-byte grid stay on it. */
  lemma SameGrid(a: int, b: int, c: int)
    requires (a - b) % 512 == 0 && (b - c) % 512 == 0
    ensures (a - c) % 512 == 0
  {
    var q1, q2 := (a - b) / 512, (b - c) / 512;
    assert a - c == 512 * (q1 + q2);
  }

  /** A walk that from `os[0]` reads `es[k]` at the header `os[k]`, moves
      from each such header to the next in `os`, and stops at the last one,
      yields exactly `es`. */
  lemma {:induction false} WalkReads(w: Walker, os: seq<nat>, es: seq<Entry>)
    requires Advances(w)
    requires |os| == |es| + 1
    requires forall k :: 0 <= k < |es| ==>
               !w.stops(os[k]) && w.at(os[k]) == es[k] && w.next(os[k]) == os[k + 1]
    requires w.stops(os[|es|])
    ensures Yield(w, os[0]) == es
    decreases |es|
  {
    if |es| > 0 {
      WalkReads(w, os[1..], es[1..]);
      assert es == [es[0]] + es[1..];
    }
  }

  // ---------------------------------------------------------------------
  // The reader
  // ---------------------------------------------------------------------

  /** The walk `tarContents` makes over `data`. Past a stopping header the
      step and the entry are never used; they are given fixed values. */
  function Reader(data: seq<byte>): Walker {
    Walker(|data|,
      (o: nat) => StopsAt(data, o),
      (o: nat) => if StopsAt(data, o) then o + BlockSize else NextAt(data, o),
      (o: nat) => if StopsAt(data, o) then Entry([], []) else EntryAt(data, o))
  }

  /** The reader moves forward: every header it does not stop at lies in
      the buffer and is followed by one further on. */
  lemma ReaderAdvances(data: seq<byte>)
    ensures Advances(Reader(data))
  {
    var w := Reader(data);
    forall o: nat | !w.stops(o)
      ensures o < w.bound && o < w.next(o)
    {
      assert w.next(o) == NextAt(data, o);
    }
  }

  /** The reader moves a whole number of blocks, at least one, from every
      header it does not stop at. */
  lemma ReaderOnGrid(data: seq<byte>)
    ensures OnGrid(Reader(data))
  {
    var w := Reader(data);
    forall o: nat | !w.stops(o)
      ensures o + BlockSize <= w.next(o) && (w.next(o) - o) % 512 == 0
    {
      assert w.next(o) == NextAt(data, o);
    }
  }

  /** The entries yielded from the header at `offset` on. */
  function Entries(data: seq<byte>, offset: nat): seq<Entry> {
    ReaderAdvances(data);
    Yield(Reader(data), offset)
  }

  /** The offsets of every header the walk reads from `offset` on, the one
      at which it stops included. */
  function HeaderOffsets(data: seq<byte>, offset: nat): seq<nat> {
    ReaderAdvances(data);
    Visited(Reader(data), offset)
  }

  /** At a header that does not stop the walk, its entry comes first and
      the entries from the next header follow. */
  lemma EntriesUnfold(data: seq<byte>, offset: nat)
    requires !StopsAt(data, offset)
    ensures Entries(data, offset) == [EntryAt(data, offset)] + Entries(data, NextAt(data, offset))
  {
    ReaderAdvances(data);
  }

  /** One step of the walk: after the entry at a header that does not stop
      it come the entries from the next header on. */
  lemma EntriesStep(data: seq<byte>, done: seq<Entry>, offset: nat, e: Entry, next: nat)
    requires done + Entries(data, offset) == Entries(data, 0)
    requires !StopsAt(data, offset)
    requires e == EntryAt(data, offset) && next == NextAt(data, offset)
    ensures (done + [e]) + Entries(data, next) == Entries(data, 0)
  {
    EntriesUnfold(data, offset);
    AppendAssoc(done, [e], Entries(data, next));
  }

  /** Once the walk stops, what was collected is everything. */
  lemma EntriesEnd(data: seq<byte>, done: seq<Entry>, offset: nat)
    requires done + Entries(data, offset) == Entries(data, 0)
    requires StopsAt(data, offset)
    ensures done == Entries(data, 0)
  {
    assert |Entries(data, offset)| == 0;
    assert done + Entries(data, offset) == done;
  }

  /** A header whose name is empty stops the walk. */
  lemma EmptyNameStops(data: seq<byte>, offset: nat)
    requires offset + BlockSize <= |data| && |HeaderName(HeaderAt(data, offset))| == 0
    ensures StopsAt(data, offset)
  {
    assert HeaderAt(data, offset)[0] == data[offset];
  }

  /** `tarContents(data)`: the loop of index.ts:35-55, collecting what the
      generator yields in order. */
  method TarContents(data: seq<byte>) returns (entries: seq<Entry>)
    ensures entries == Entries(data, 0)
  {
    var offset: nat := 0;
    entries := [];
    while offset + BlockSize <= |data|
      invariant entries + Entries(data, offset) == Entries(data, 0)
      decreases |data| - offset
    {
      var header := HeaderAt(data, offset);
      var name := HeaderName(header);
      if |name| == 0 {
        EmptyNameStops(data, offset);
        EntriesEnd(data, entries, offset);
        break;
      }
      var size := EntrySize(header);
      var contentStart := offset + BlockSize;
      var contentEnd := contentStart + size;
      var content := Slice(data, contentStart, contentEnd);
      var entry := Entry(name, content);
      var totalSize := BlockSize + CeilBlocks(size) * 512;
      var next := offset + totalSize;
      EntriesStep(data, entries, offset, entry, next);
      entries := entries + [entry];
      offset := next;
    }
    if offset + BlockSize > |data| {
      EntriesEnd(data, entries, offset);
    }
  }

  // ---------------------------------------------------------------------
  // What the reader yields
  // ---------------------------------------------------------------------

  /** Entry `k` is the one decoded at the `k`-th header read: its name and
      its content right after the header, cut at the end of the buffer.
      That header does not stop the walk (it fits in the buffer and its
      name is not empty), and the next header read lies past the content
      rounded up to whole blocks. */
  lemma EntryDecoded(data: seq<byte>, offset: nat, k: nat)
    requires k < |Entries(data, offset)|
    ensures var os := HeaderOffsets(data, offset);
      && k + 1 < |os|
      && !StopsAt(data, os[k])
      && Entries(data, offset)[k] == EntryAt(data, os[k])
      && os[k + 1] == NextAt(data, os[k])
  {
    ReaderAdvances(data);
    WalkStep(Reader(data), offset, k);
  }

  /** The walk stops at the first header that has no whole block left or
      an empty name, and only there. */
  lemma WalkEnds(data: seq<byte>, offset: nat)
    ensures var os := HeaderOffsets(data, offset);
      && |os| == |Entries(data, offset)| + 1
      && StopsAt(data, os[|os| - 1])
      && forall k :: 0 <= k < |os| - 1 ==> !StopsAt(data, os[k])
  {
    ReaderAdvances(data);
    WalkLength(Reader(data), offset);
    var os := HeaderOffsets(data, offset);
    forall k | 0 <= k < |os| - 1
      ensures !StopsAt(data, os[k])
    {
      EntryDecoded(data, offset, k);
    }
  }

  /** The headers read from offset 0 lie on the 512-byte grid, in strictly
      increasing order. */
  lemma OffsetsOnGrid(data: seq<byte>, k: nat)
    requires k < |HeaderOffsets(data, 0)|
    ensures HeaderOffsets(data, 0)[k] % 512 == 0
    ensures HeaderOffsets(data, 0)[k] >= k * 512
    ensures k + 1 < |HeaderOffsets(data, 0)| ==> HeaderOffsets(data, 0)[k] < HeaderOffsets(data, 0)[k + 1]
  {
    ReaderAdvances(data);
    ReaderOnGrid(data);
    WalkGrid(Reader(data), 0, k);
    WalkEnds(data, 0);
    if k + 1 < |HeaderOffsets(data, 0)| {
      EntryDecoded(data, 0, k);
    }
  }

  /** Every yielded entry has a non-empty name of at most 100 characters,
      none of them NUL. */
  lemma EntryNamed(data: seq<byte>, offset: nat, k: nat)
    requires k < |Entries(data, offset)|
    ensures var e := Entries(data, offset)[k];
      0 < |e.name| <= NameEnd && forall j :: 0 <= j < |e.name| ==> e.name[j] != '\0'
  {
    EntryDecoded(data, offset, k);
    var o := HeaderOffsets(data, offset)[k];
    assert HeaderAt(data, o)[0] == data[o];
    CutAtNulNoNul(Field(HeaderAt(data, o), 0, NameEnd));
  }

  // ---------------------------------------------------------------------
  // Round trip against an archive writer
  // ---------------------------------------------------------------------

  function Zeros(n: nat): (z: seq<byte>)
    ensures |z| == n
  {
    seq(n, _ => 0)
  }

  /** `n` as exactly `width` octal digits, zero-padded on the left. */
  function OctalDigits(n: nat, width: nat): (ds: string)
    requires n < Pow8(width)
    ensures |ds| == width
  {
    if width == 0 then "" else OctalDigits(n / 8, width - 1) + [('0' as int + n % 8) as char]
  }

  /** The digits `OctalDigits` writes are octal digits and denote `n`. */
  lemma {:induction false} OctalDigitsDenote(n: nat, width: nat)
    requires n < Pow8(width)
    ensures AllOctal(OctalDigits(n, width))
    ensures OctalValue(OctalDigits(n, width)) == n
  {
    if width > 0 {
      var high := OctalDigits(n / 8, width - 1);
      var ds := OctalDigits(n, width);
      OctalDigitsDenote(n / 8, width - 1);
      OctalAccSnoc(ds, 0, width - 1, 0);
      OctalAccAgree(high, ds, 0, width - 1, 0);
    }
  }

  /** An entry a header can carry: a name of 1 to 100 characters, each one
      byte and none NUL, and a size that fits 11 octal digits. */
  predicate WellFormed(e: Entry) {
    && 0 < |e.name| <= NameEnd
    && (forall k :: 0 <= k < |e.name| ==> e.name[k] != '\0' && e.name[k] as int < 256)
    && |e.content| < Pow8(11)
  }

  /** A header block for `e`: the name NUL-padded to 100 bytes, zeros up to
      byte 124, the size as 11 octal digits and a NUL, zeros to the end. */
  function EncodeHeader(e: Entry): (h: seq<byte>)
    requires WellFormed(e)
    ensures |h| == BlockSize
  {
    OctalDigitsDenote(|e.content|, 11);
    EncodeBytes(e.name) + Zeros(SizeStart - |e.name|)
      + EncodeBytes(OctalDigits(|e.content|, 11)) + Zeros(BlockSize - 135)
  }

  /** The content followed by zeros up to a whole number of blocks. */
  function Padded(content: seq<byte>): (p: seq<byte>)
    ensures |p| == CeilBlocks(|content|) * 512
    ensures p[..|content|] == content
  {
    content + Zeros(CeilBlocks(|content|) * 512 - |content|)
  }

  /** The record written for `e`: its header, then its padded content. */
  function Record(e: Entry): (r: seq<byte>)
    requires WellFormed(e)
    ensures |r| == BlockSize + CeilBlocks(|e.content|) * 512
  {
    EncodeHeader(e) + Padded(e.content)
  }

  /** Byte blocks laid one after the other. */
  function Concat(blocks: seq<seq<byte>>): (data: seq<byte>) {
    if |blocks| == 0 then [] else blocks[0] + Concat(blocks[1..])
  }

  /** The blocks before the `i`-th, the `i`-th and those after it, laid one
      after the other, are all the blocks laid one after the other. */
  lemma {:induction false} ConcatSplit(blocks: seq<seq<byte>>, i: nat)
    requires i < |blocks|
    ensures Concat(blocks) == Concat(blocks[..i]) + (blocks[i] + Concat(blocks[i + 1..]))
    decreases i
  {
    if i > 0 {
      var tail := blocks[1..];
      ConcatSplit(tail, i - 1);
      assert blocks[..i][1..] == tail[..i - 1];
      assert tail[i - 1] == blocks[i] && tail[i..] == blocks[i + 1..];
      AppendAssoc(blocks[0], Concat(tail[..i - 1]), blocks[i] + Concat(blocks[i + 1..]));
    }
  }

  /** The records of `es`, in order. */
  function Records(es: seq<Entry>): (blocks: seq<seq<byte>>)
    requires forall k :: 0 <= k < |es| ==> WellFormed(es[k])
    ensures |blocks| == |es|
  {
    seq(|es|, k requires 0 <= k < |es| => Record(es[k]))
  }

  /** An archive holding `es` in order: their records one after the other. */
  function Archive(es: seq<Entry>): seq<byte>
    requires forall k :: 0 <= k < |es| ==> WellFormed(es[k])
  {
    Concat(Records(es))
  }

  /** What may follow the last record: less than a block, or a block whose
      name field starts with NUL (the end-of-archive blocks). */
  predicate EndsArchive(tail: seq<byte>) {
    |tail| < BlockSize || tail[0] == 0
  }

  /** The header written for `e` reads back as `e`'s name. */
  lemma HeaderNameDecodes(e: Entry)
    requires WellFormed(e)
    ensures HeaderName(EncodeHeader(e)) == e.name
  {
    var h := EncodeHeader(e);
    var pad := Zeros(NameEnd - |e.name|);
    FieldDecodes(h, 0, NameEnd);
    assert h[0..NameEnd] == EncodeBytes(e.name) + pad;
    assert DecodeBytes(h[0..NameEnd]) == e.name + DecodeBytes(pad);
    CutAtNulPrefix(e.name, DecodeBytes(pad));
  }

  /** The header written for `e` reads back as `e`'s size. */
  lemma HeaderSizeDecodes(e: Entry)
    requires WellFormed(e)
    ensures EntrySize(EncodeHeader(e)) == |e.content|
  {
    var h := EncodeHeader(e);
    var digits := OctalDigits(|e.content|, 11);
    FieldDecodes(h, SizeStart, SizeEnd);
    assert h[SizeStart..SizeEnd] == EncodeBytes(digits) + [0];
    OctalDigitsDenote(|e.content|, 11);
    assert Field(h, SizeStart, SizeEnd) == digits + ['\0'];
    ScanDigitsThenStop(digits, ['\0']);
  }

  /** A record written for `e` after the bytes `pre` is read back as `e`,
      and the walk goes on right after it. */
  lemma RecordAt(data: seq<byte>, pre: seq<byte>, e: Entry, rest: seq<byte>)
    requires WellFormed(e)
    requires data == pre + (Record(e) + rest)
    ensures !StopsAt(data, |pre|)
    ensures EntryAt(data, |pre|) == e
    ensures NextAt(data, |pre|) == |pre| + |Record(e)|
  {
    var offset := |pre|;
    var h, p := EncodeHeader(e), Padded(e.content);
    assert data[offset..] == h + p + rest;
    assert data[offset..][..BlockSize] == h;
    assert HeaderAt(data, offset) == h;
    HeaderNameDecodes(e);
    HeaderSizeDecodes(e);
    assert data[offset..][BlockSize..][..|e.content|] == p[..|e.content|];
    var start := offset + BlockSize;
    assert Slice(data, start, start + |e.content|) == e.content;
  }

  /** The `k`-th record of an archive is read back as the `k`-th entry,
      and the walk goes on at the record after it. */
  lemma RecordInArchive(es: seq<Entry>, tail: seq<byte>, k: nat)
    requires forall i :: 0 <= i < |es| ==> WellFormed(es[i])
    requires k < |es|
    ensures var data, o := Archive(es) + tail, |Concat(Records(es)[..k])|;
      && !StopsAt(data, o)
      && EntryAt(data, o) == es[k]
      && NextAt(data, o) == |Concat(Records(es)[..k + 1])|
  {
    var blocks := Records(es);
    var pre, rest := Concat(blocks[..k]), Concat(blocks[k + 1..]) + tail;
    ConcatSplit(blocks, k);
    AppendAssoc(pre, blocks[k] + Concat(blocks[k + 1..]), tail);
    AppendAssoc(blocks[k], Concat(blocks[k + 1..]), tail);
    RecordAt(Archive(es) + tail, pre, es[k], rest);
    var front := blocks[..k + 1];
    ConcatSplit(front, k);
    assert front[..k] == blocks[..k] && front[k + 1..] == [];
  }

  /** Right after the last record of an archive the walk stops. */
  lemma ArchiveEnds(es: seq<Entry>, tail: seq<byte>)
    requires forall k :: 0 <= k < |es| ==> WellFormed(es[k])
    requires EndsArchive(tail)
    ensures StopsAt(Archive(es) + tail, |Concat(Records(es)[..|es|])|)
  {
    var data, o := Archive(es) + tail, |Archive(es)|;
    assert Records(es)[..|es|] == Records(es);
    if o + BlockSize <= |data| {
      assert data[o] == tail[0];
    }
  }

  /** Archive round trip: an archive written from well-formed entries and
      closed by an end marker (or by the end of the buffer) reads back as
      the same entries, in the same order. */
  lemma ArchiveRoundTrip(es: seq<Entry>, tail: seq<byte>)
    requires forall k :: 0 <= k < |es| ==> WellFormed(es[k])
    requires EndsArchive(tail)
    ensures Entries(Archive(es) + tail, 0) == es
  {
    var data, blocks := Archive(es) + tail, Records(es);
    var os := seq(|es| + 1, k requires 0 <= k <= |es| => |Concat(blocks[..k])|);
    var w := Reader(data);
    forall k | 0 <= k < |es|
      ensures !w.stops(os[k]) && w.at(os[k]) == es[k] && w.next(os[k]) == os[k + 1]
    {
      RecordInArchive(es, tail, k);
    }
    ArchiveEnds(es, tail);
    assert blocks[..0] == [];
    ReaderAdvances(data);
    WalkReads(w, os, es);
  }

  // ---------------------------------------------------------------------
  // A negative size, as written
  // ---------------------------------------------------------------------

  /** Where index.ts:53-54 puts the next header, with the parsed size used
      as it is, negative or not. */
  function AsWrittenNext(data: seq<byte>, offset: nat): int
    requires offset + BlockSize <= |data|
  {
    offset + BlockSize + CeilBlocks(ParsedSize(HeaderAt(data, offset))) * 512
  }

  /** A one-block archive whose header names "a" and has "-1000" (octal
      for -512) in its size field. */
  function NegativeSizeArchive(): (data: seq<byte>)
    ensures |data| == BlockSize
  {
    [97] + Zeros(SizeStart - 1) + [45, 49, 48, 48, 48] + Zeros(BlockSize - SizeStart - 5)
  }

  /** The size field of `NegativeSizeArchive` parses to -512. */
  lemma NegativeSizeParsed()
    ensures ParsedSize(NegativeSizeArchive()) == -512
  {
    var header := NegativeSizeArchive();
    var field := Field(header, SizeStart, SizeEnd);
    var text := ['-', '1', '0', '0', '0'];
    assert field[..5] == text;
    assert field[5] == '\0';
    ScanPrefix(field, 5, 0, Blank);
    assert ScanOctal(text, 0, Blank) == -512;
    SizeReadsAsParsed(header);
  }

  /** The header of `NegativeSizeArchive` does not end the walk, and as
      written the walk's next header is the same one again; the model reads
      the size as 0 and moves one block on. */
  lemma NegativeSizeLoops()
    ensures !StopsAt(NegativeSizeArchive(), 0)
    ensures ParsedSize(HeaderAt(NegativeSizeArchive(), 0)) == -512
    ensures AsWrittenNext(NegativeSizeArchive(), 0) == 0
    ensures NextAt(NegativeSizeArchive(), 0) == BlockSize
  {
    var data := NegativeSizeArchive();
    assert HeaderAt(data, 0) == data;
    NegativeSizeParsed();
    EntrySizeReadsParsed(data);
  }
}
