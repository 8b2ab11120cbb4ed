/** Reading the pixel payload of an uncompressed data file: the file cursor,
    the output buffer, and the loop that copies the selected z slices while
    coalescing adjacent reads and skips into single `read` and `seek` calls
    (reader.py:159-196, pymetaio/io.py:157-194). */
module Payload {
  import opened Wrappers
  import opened Values
  import opened Coerce

  function Min(a: int, b: int): int {
    if a <= b then a else b
  }

  /** `f.read(n)` at offset `pos` of a file holding `c`: the `n` bytes from
      `pos`, cut short at the end of the file. */
  function Window(c: seq<byte>, pos: nat, n: nat): (w: seq<byte>)
    ensures |w| <= n
  {
    c[Min(pos, |c|)..Min(pos + n, |c|)]
  }

  /** A read that fits in the file returns exactly the `n` bytes at `pos`;
      a read from the end or beyond returns nothing. */
  lemma WindowBounds(c: seq<byte>, pos: nat, n: nat)
    ensures pos + n <= |c| ==> Window(c, pos, n) == c[pos..pos + n] && |Window(c, pos, n)| == n
    ensures pos >= |c| ==> Window(c, pos, n) == []
  {
  }

  /** Two offsets from which every read returns the same bytes: they are
      equal, or both lie at or beyond the end of the file. */
  predicate SameView(c: seq<byte>, p: nat, q: nat) {
    p == q || (p >= |c| && q >= |c|)
  }

  /** One read of `a + b` bytes returns what a read of `a` bytes followed
      by a read of `b` bytes returns. */
  lemma WindowSplit(c: seq<byte>, pos: nat, a: nat, b: nat)
    ensures Window(c, pos, a + b) == Window(c, pos, a) + Window(c, pos + a, b)
  {
  }

  lemma WindowSameView(c: seq<byte>, p: nat, q: nat, n: nat)
    requires SameView(c, p, q)
    ensures Window(c, p, n) == Window(c, q, n)
  {
  }

  /** After a read the cursor stands where a read on an endless file would
      have left it, or both are at or past the end. */
  lemma ReadView(c: seq<byte>, p: nat, n: nat)
    ensures SameView(c, p + |Window(c, p, n)|, p + n)
  {
  }

  /** An open data file (`datapath.open('rb')`): its content and the
      cursor. */
  class DataFile {
    const content: seq<byte>
    var pos: nat

    constructor (content: seq<byte>)
      ensures this.content == content && pos == 0
    {
      this.content := content;
      pos := 0;
    }

    /** `f.seek(n, 1)`: moving past the end is allowed. */
    method Seek(n: nat)
      modifies this
      ensures pos == old(pos) + n
    {
      pos := pos + n;
    }

    /** `f.read(n)`: at most `n` bytes; the cursor moves past what was
      read. */
    method Read(n: nat) returns (w: seq<byte>)
      modifies this
      ensures w == Window(content, old(pos), n)
      ensures pos == old(pos) + |w|
    {
      w := Window(content, pos, n);
      pos := pos + |w|;
    }
  }

  /** `io.BytesIO()`: the buffer the slices are collected in. */
  class Buffer {
    var bytes: seq<byte>

    constructor ()
      ensures bytes == []
    {
      bytes := [];
    }

    method Write(w: seq<byte>)
      modifies this
      ensures bytes == old(bytes) + w
    {
      bytes := bytes + w;
    }
  }

  /** The slice whose header starts at `pos`: its data when selected,
      nothing otherwise. */
  function Piece(c: seq<byte>, pos: nat, h: nat, inc: nat, selected: bool): seq<byte> {
    if selected then Window(c, pos + h, inc) else []
  }

  lemma PieceIs(c: seq<byte>, pos: nat, h: nat, inc: nat, got: seq<byte>)
    ensures Piece(c, pos, h, inc, true) == Window(c, pos + h, inc)
    ensures got + Piece(c, pos, h, inc, false) == got
  {
    assert got + [] == got;
  }

  /** The bytes the loop is meant to deliver: from offset `pos`, each of
      the slices in turn is a header of `h` bytes followed by `inc` bytes of
      data, and the data of the slices marked in `sel` is kept, in order. */
  function Selected(c: seq<byte>, pos: nat, h: nat, inc: nat, sel: seq<bool>): seq<byte>
    decreases |sel|
  {
    if sel == [] then []
    else Piece(c, pos, h, inc, sel[0]) + Selected(c, pos + h + inc, h, inc, sel[1..])
  }

  function Count(sel: seq<bool>): nat {
    if sel == [] then 0 else (if sel[0] then 1 else 0) + Count(sel[1..])
  }

  /** When the file holds every slice, `inc` bytes are delivered for each
      selected slice. */
  lemma {:induction false} SelectedLength(c: seq<byte>, pos: nat, h: nat, inc: nat, sel: seq<bool>)
    requires pos + |sel| * (h + inc) <= |c|
    ensures |Selected(c, pos, h, inc, sel)| == Count(sel) * inc
    decreases |sel|
  {
    if sel != [] {
      var rest := sel[1..];
      assert |sel| * (h + inc) == |rest| * (h + inc) + (h + inc);
      assert pos + h + inc + |rest| * (h + inc) <= |c|;
      SelectedLength(c, pos + h + inc, h, inc, rest);
      var tail := Selected(c, pos + h + inc, h, inc, rest);
      if sel[0] {
        assert |Window(c, pos + h, inc)| == inc;
        assert (Count(rest) + 1) * inc == Count(rest) * inc + inc;
        assert |Selected(c, pos, h, inc, sel)| == inc + |tail|;
      } else {
        assert Selected(c, pos, h, inc, sel) == tail;
      }
    }
  }

  /** When every slice is selected and there are no per-slice headers, the
      loop delivers one contiguous read. */
  lemma {:induction false} SelectedAll(c: seq<byte>, pos: nat, inc: nat, sel: seq<bool>)
    requires forall j :: 0 <= j < |sel| ==> sel[j]
    ensures Selected(c, pos, 0, inc, sel) == Window(c, pos, |sel| * inc)
    decreases |sel|
  {
    if sel != [] {
      SelectedAll(c, pos + inc, inc, sel[1..]);
      MulSucc(|sel[1..]|, inc);
      WindowSplit(c, pos, inc, |sel[1..]| * inc);
    }
  }

  /** Distributes a multiplication over a successor. */
  lemma MulSucc(n: nat, k: nat)
    ensures (n + 1) * k == n * k + k
    ensures n * k >= 0
  {
  }

  /** Sequence concatenation is associative. */
  lemma Concat3(a: seq<byte>, b: seq<byte>, c: seq<byte>)
    ensures (a + b) + c == a + (b + c)
  {
  }

  lemma SelectedStep(c: seq<byte>, pos: nat, h: nat, inc: nat, sel: seq<bool>, j: nat)
    requires j < |sel|
    ensures Selected(c, pos, h, inc, sel[j..])
         == Piece(c, pos, h, inc, sel[j]) + Selected(c, pos + h + inc, h, inc, sel[j + 1..])
  {
    assert sel[j..][0] == sel[j] && sel[j..][1..] == sel[j + 1..];
  }

  function HeaderBytes(perSlice: Option<nat>): nat {
    if perSlice.Some? then perSlice.value else 0
  }

  /** What the loop has delivered once the pending read is done: the
      buffer followed by the `read` bytes at the cursor. */
  ghost function Delivered(f: DataFile, data: Buffer, read: nat): seq<byte>
    reads f, data
  {
    data.bytes + Window(f.content, f.pos, read)
  }

  /** With no read pending, what has been delivered is the buffer. */
  lemma DeliveredNothing(f: DataFile, data: Buffer)
    ensures Delivered(f, data, 0) == data.bytes
  {
    assert Window(f.content, f.pos, 0) == [];
  }

  /** Delivers the pending read: `data.write(f.read(read))`. */
  method FlushRead(f: DataFile, data: Buffer, read: nat)
    modifies f, data
    ensures data.bytes == old(Delivered(f, data, read))
    ensures SameView(f.content, f.pos, old(f.pos) + read)
  {
    var w := f.Read(read);
    data.Write(w);
    ReadView(f.content, old(f.pos), read);
  }

  /** The per-slice header (reader.py:178-181): the pending read is
      delivered and the header joins the pending skip, which is applied
      first when the sum would exceed `max`. `v` is where the header
      starts. */
  method SkipHeader(f: DataFile, data: Buffer, read: nat, seek: nat, hps: nat, inc: nat, max: nat, ghost v: nat)
    returns (seek': nat)
    requires read == 0 || seek == 0
    requires inc <= max && hps <= max && seek <= max - inc
    requires SameView(f.content, f.pos + read + seek, v)
    modifies f, data
    ensures seek' <= max - inc
    ensures SameView(f.content, f.pos + seek', v + hps)
    ensures Delivered(f, data, 0) == old(Delivered(f, data, read))
  {
    FlushRead(f, data, read);
    seek' := seek;
    if seek' > max - hps {
      f.Seek(seek');
      seek' := 0;
    }
    seek' := seek' + hps;
    if seek' > max - inc {
      f.Seek(seek');
      seek' := 0;
    }
    DeliveredNothing(f, data);
  }

  /** A selected slice (reader.py:182-188): the pending skip is applied
      and the slice joins the pending read, which is delivered once another
      slice could overflow it. `v` is where the slice starts. */
  method TakeSlice(f: DataFile, data: Buffer, read: nat, seek: nat, inc: nat, max: nat, ghost v: nat)
    returns (read': nat)
    requires read == 0 || seek == 0
    requires inc <= max && read <= max - inc
    requires SameView(f.content, f.pos + read + seek, v)
    modifies f, data
    ensures read' <= max - inc
    ensures SameView(f.content, f.pos + read', v + inc)
    ensures Delivered(f, data, read') == old(Delivered(f, data, read)) + Window(f.content, v, inc)
  {
    ghost var d, p := data.bytes, f.pos;
    ghost var want := Delivered(f, data, read) + Window(f.content, v, inc);
    TakeStep(f.content, d, p, read, seek, inc, v);
    f.Seek(seek);
    read' := read + inc;
    assert Delivered(f, data, read') == want;
    if read' > max - inc {
      FlushRead(f, data, read');
      read' := 0;
      DeliveredNothing(f, data);
    }
  }

  /** The arithmetic of a selected slice, on plain values: after skipping
      `seek`, reading `read + inc` bytes gives the pending read followed by
      the slice. */
  lemma TakeStep(c: seq<byte>, d: seq<byte>, p: nat, read: nat, seek: nat, inc: nat, v: nat)
    requires read == 0 || seek == 0
    requires SameView(c, p + read + seek, v)
    ensures d + Window(c, p + seek, read + inc) == d + Window(c, p, read) + Window(c, v, inc)
    ensures SameView(c, p + seek + read + inc, v + inc)
  {
    assert Window(c, p + seek, read) == Window(c, p, read);
    WindowSameView(c, p + seek + read, v, inc);
    WindowSplit(c, p + seek, read, inc);
    assert (d + Window(c, p, read)) + Window(c, v, inc) == d + (Window(c, p, read) + Window(c, v, inc));
  }

  /** A slice left out (reader.py:189-195): the pending read is delivered
      and the slice joins the pending skip, which is applied once another
      slice could overflow it. `v` is where the slice starts. */
  method SkipSlice(f: DataFile, data: Buffer, read: nat, seek: nat, inc: nat, max: nat, ghost v: nat)
    returns (seek': nat)
    requires read == 0 || seek == 0
    requires inc <= max && seek <= max - inc
    requires SameView(f.content, f.pos + read + seek, v)
    modifies f, data
    ensures seek' <= max - inc
    ensures SameView(f.content, f.pos + seek', v + inc)
    ensures Delivered(f, data, 0) == old(Delivered(f, data, read))
  {
    FlushRead(f, data, read);
    seek' := seek + inc;
    if seek' > max - inc {
      f.Seek(seek');
      seek' := 0;
    }
    DeliveredNothing(f, data);
  }

  /** One iteration of reader.py:177-195 with the guard completed: the
      slice's header is skipped and its data is read when `selected` and
      skipped otherwise. `v` is where the slice's header starts. */
  method CopyStep(f: DataFile, data: Buffer, read: nat, seek: nat, perSlice: Option<nat>, inc: nat, selected: bool,
                  max: nat, ghost v: nat, ghost got: seq<byte>)
    returns (read': nat, seek': nat)
    requires inc <= max && HeaderBytes(perSlice) <= max
    requires read == 0 || seek == 0
    requires read <= max - inc && seek <= max - inc
    requires SameView(f.content, f.pos + read + seek, v)
    requires Delivered(f, data, read) == got
    modifies f, data
    ensures read' == 0 || seek' == 0
    ensures read' <= max - inc && seek' <= max - inc
    ensures SameView(f.content, f.pos + read' + seek', v + HeaderBytes(perSlice) + inc)
    ensures Delivered(f, data, read') == got + Piece(f.content, v, HeaderBytes(perSlice), inc, selected)
  {
    read', seek' := read, seek;
    if perSlice.Some? {
      seek' := SkipHeader(f, data, read', seek', perSlice.value, inc, max, v);
      read' := 0;
    }
    read', seek' := CopySlice(f, data, read', seek', inc, selected, max, v + HeaderBytes(perSlice), got);
  }

  /** The slice itself (reader.py:182-195), once its header is skipped:
      taken when `selected` and skipped otherwise. `v` is where the
      slice's data starts. */
  method CopySlice(f: DataFile, data: Buffer, read: nat, seek: nat, inc: nat, selected: bool, max: nat,
                   ghost v: nat, ghost got: seq<byte>)
    returns (read': nat, seek': nat)
    requires read == 0 || seek == 0
    requires inc <= max && read <= max - inc && seek <= max - inc
    requires SameView(f.content, f.pos + read + seek, v)
    requires Delivered(f, data, read) == got
    modifies f, data
    ensures read' == 0 || seek' == 0
    ensures read' <= max - inc && seek' <= max - inc
    ensures SameView(f.content, f.pos + read' + seek', v + inc)
    ensures Delivered(f, data, read') == got + (if selected then Window(f.content, v, inc) else [])
  {
    if selected {
      read' := TakeSlice(f, data, read, seek, inc, max, v);
      seek' := 0;
    } else {
      seek' := SkipSlice(f, data, read, seek, inc, max, v);
      read' := 0;
      assert got + [] == got;
    }
  }

  /** The copy loop (reader.py:176-196, pymetaio/io.py:174-194) with its
      counter overflow guards completed: `read` and `seek` hold the bytes
      still to be read and skipped, are never both pending, and never
      exceed `max`, the largest value of the counters' type. It delivers
      exactly the selected slices, in order. */
  method CopySlices(f: DataFile, data: Buffer, perSlice: Option<nat>, inc: nat, sel: seq<bool>, max: nat)
    requires inc <= max && HeaderBytes(perSlice) <= max
    modifies f, data
    ensures data.bytes == old(data.bytes) + Selected(f.content, old(f.pos), HeaderBytes(perSlice), inc, sel)
  {
    ghost var c := f.content;
    ghost var h := HeaderBytes(perSlice);
    ghost var total := data.bytes + Selected(c, f.pos, h, inc, sel);
    ghost var v: nat := f.pos;
    ghost var got := data.bytes;
    var read: nat, seek: nat := 0, 0;
    var j := 0;
    while j < |sel|
      invariant j <= |sel|
      invariant read == 0 || seek == 0
      invariant read <= max - inc && seek <= max - inc
      invariant SameView(c, f.pos + read + seek, v)
      invariant Delivered(f, data, read) == got
      invariant total == got + Selected(c, v, h, inc, sel[j..])
    {
      ghost var piece := Piece(c, v, h, inc, sel[j]);
      ghost var rest := Selected(c, v + h + inc, h, inc, sel[j + 1..]);
      assert total == (got + piece) + rest by {
        SelectedStep(c, v, h, inc, sel, j);
        Concat3(got, piece, rest);
      }
      read, seek := CopyStep(f, data, read, seek, perSlice, inc, sel[j], max, v, got);
      got, v, j := got + piece, v + h + inc, j + 1;
    }
    assert total == got by {
      assert sel[j..] == [];
    }
    FlushRead(f, data, read);
  }

  // ------------------------------------------------- the loop as written

  /** The state of the loop: cursor, bytes delivered, and the two
      counters. */
  datatype Loop = Loop(pos: nat, out: seq<byte>, read: nat, seek: nat)

  /** `np.uintp` arithmetic: results wrap modulo 2^64. */
  function WrapUintp(x: nat): nat {
    if x < 0x1_0000_0000_0000_0000 then x else WrapUintp(x - 0x1_0000_0000_0000_0000)
  }

  /** WrapUintp is reduction modulo 2^64. */
  lemma {:induction false} WrapUintpIsMod(x: nat)
    ensures WrapUintp(x) == x % 0x1_0000_0000_0000_0000
  {
    if x >= 0x1_0000_0000_0000_0000 {
      WrapUintpIsMod(x - 0x1_0000_0000_0000_0000);
    }
  }

  /** One iteration of reader.py:177-195 as written: the per-slice header
      is added to `seek` without a guard. */
  function StepAsWritten(c: seq<byte>, st: Loop, perSlice: Option<nat>, inc: nat, selected: bool): Loop {
    var mid := HeaderPhase(c, st, perSlice);
    if selected then TakeAsWritten(c, mid, inc) else SkipAsWritten(c, mid, inc)
  }

  /** reader.py:178-180, done only for files with per-slice headers. */
  function HeaderPhase(c: seq<byte>, st: Loop, perSlice: Option<nat>): Loop {
    if perSlice.Some? then HeaderAsWritten(c, st, perSlice.value) else st
  }

  /** reader.py:178-180: the pending read is delivered and the header
      joins the pending skip. */
  function HeaderAsWritten(c: seq<byte>, st: Loop, hps: nat): Loop {
    var w := Window(c, st.pos, st.read);
    Loop(st.pos + |w|, st.out + w, 0, WrapUintp(st.seek + hps))
  }

  /** reader.py:182-188: the pending skip is applied and the slice joins
      the pending read, which is delivered once another slice could
      overflow it. */
  function TakeAsWritten(c: seq<byte>, st: Loop, inc: nat): Loop {
    var pos := st.pos + st.seek;
    var read := WrapUintp(st.read + inc);
    if read > UINTP_MAX - inc then
      var w := Window(c, pos, read);
      Loop(pos + |w|, st.out + w, 0, 0)
    else Loop(pos, st.out, read, 0)
  }

  /** reader.py:189-195: the pending read is delivered and the slice joins
      the pending skip, which is applied once another slice could overflow
      it. */
  function SkipAsWritten(c: seq<byte>, st: Loop, inc: nat): Loop {
    var w := Window(c, st.pos, st.read);
    var seek := WrapUintp(st.seek + inc);
    if seek > UINTP_MAX - inc then Loop(st.pos + |w| + seek, st.out + w, 0, 0)
    else Loop(st.pos + |w|, st.out + w, 0, seek)
  }

  function LoopAsWritten(c: seq<byte>, st: Loop, perSlice: Option<nat>, inc: nat, sel: seq<bool>): Loop
    decreases |sel|
  {
    if sel == [] then st
    else LoopAsWritten(c, StepAsWritten(c, st, perSlice, inc, sel[0]), perSlice, inc, sel[1..])
  }

  /** What a state of the loop as written has delivered once its pending
      read is done. */
  function Flushed(c: seq<byte>, st: Loop): seq<byte> {
    st.out + Window(c, st.pos, st.read)
  }

  /** What reader.py:176-196 delivers from a file positioned at `pos`. */
  function CopyAsWritten(c: seq<byte>, pos: nat, perSlice: Option<nat>, inc: nat, sel: seq<bool>): seq<byte> {
    Flushed(c, LoopAsWritten(c, Loop(pos, [], 0, 0), perSlice, inc, sel))
  }

  /** A state of the loop as written that has delivered `got` so far: the
      cursor, moved by the pending skip and read, is where the next slice
      starts (`v`), and the pending read completes `got`. */
  predicate Tracks(c: seq<byte>, st: Loop, v: nat, got: seq<byte>) {
    && (st.read == 0 || st.seek == 0)
    && SameView(c, st.pos + st.read + st.seek, v)
    && st.out + Window(c, st.pos, st.read) == got
  }

  /** While the counters stay below 2^64, one iteration as written over a
      selected slice delivers that slice, and the guards keep both
      counters at most `UINTP_MAX - inc`. */
  lemma TakeStepTracks(c: seq<byte>, st: Loop, perSlice: Option<nat>, inc: nat, v: nat, got: seq<byte>)
    ensures StepKeeps(c, st, StepAsWritten(c, st, perSlice, inc, true), HeaderBytes(perSlice), inc, true, v, got)
  {
    var h := HeaderBytes(perSlice);
    if Tracks(c, st, v, got) && st.read + inc <= UINTP_MAX && st.seek + h + inc <= UINTP_MAX {
      HeaderPhaseTracks(c, st, perSlice, v, got);
      SelectedTracks(c, HeaderPhase(c, st, perSlice), inc, v + h, got);
      PieceIs(c, v, h, inc, got);
    }
  }

  /** The same for a slice that is not selected: nothing is delivered. */
  lemma SkipStepTracks(c: seq<byte>, st: Loop, perSlice: Option<nat>, inc: nat, v: nat, got: seq<byte>)
    ensures StepKeeps(c, st, StepAsWritten(c, st, perSlice, inc, false), HeaderBytes(perSlice), inc, false, v, got)
  {
    var h := HeaderBytes(perSlice);
    if Tracks(c, st, v, got) && st.read + inc <= UINTP_MAX && st.seek + h + inc <= UINTP_MAX {
      HeaderPhaseTracks(c, st, perSlice, v, got);
      SkippedTracks(c, HeaderPhase(c, st, perSlice), inc, v + h, got);
      PieceIs(c, v, h, inc, got);
    }
  }

  lemma HeaderPhaseTracks(c: seq<byte>, st: Loop, perSlice: Option<nat>, v: nat, got: seq<byte>)
    requires Tracks(c, st, v, got)
    requires st.seek + HeaderBytes(perSlice) <= UINTP_MAX
    ensures var m := HeaderPhase(c, st, perSlice);
      && Tracks(c, m, v + HeaderBytes(perSlice), got)
      && m.read <= st.read && m.seek == st.seek + HeaderBytes(perSlice)
  {
    if perSlice.Some? {
      HeaderTracks(c, st, perSlice.value, v, got);
    }
  }

  lemma WrapSmall(x: nat)
    requires x <= UINTP_MAX
    ensures WrapUintp(x) == x
  {
  }

  /** Delivering the pending read and adding the header to the pending
      skip keeps the loop on track. */
  lemma HeaderTracks(c: seq<byte>, st: Loop, h: nat, v: nat, got: seq<byte>)
    requires Tracks(c, st, v, got)
    requires st.seek + h <= UINTP_MAX
    ensures var n := HeaderAsWritten(c, st, h);
      Tracks(c, n, v + h, got) && n.read == 0 && n.seek == st.seek + h
  {
    WrapSmall(st.seek + h);
    var w := Window(c, st.pos, st.read);
    ReadView(c, st.pos, st.read);
    assert Window(c, st.pos + |w|, 0) == [];
    assert (st.out + w) + [] == st.out + w;
  }

  /** Applying the pending skip keeps the loop on track. */
  lemma SeekTracks(c: seq<byte>, st: Loop, v: nat, got: seq<byte>)
    requires Tracks(c, st, v, got) && st.read == 0
    ensures Tracks(c, Loop(st.pos + st.seek, st.out, 0, 0), v, got)
  {
    assert Window(c, st.pos, 0) == [] && Window(c, st.pos + st.seek, 0) == [];
  }

  /** Applying the pending skip and adding a slice to the pending read
      delivers that slice. */
  lemma TakeTracks(c: seq<byte>, st: Loop, inc: nat, v: nat, got: seq<byte>)
    requires Tracks(c, st, v, got)
    ensures Tracks(c, Loop(st.pos + st.seek, st.out, st.read + inc, 0), v + inc, got + Window(c, v, inc))
  {
    TakeStep(c, st.out, st.pos, st.read, st.seek, inc, v);
  }

  lemma SelectedTracks(c: seq<byte>, st: Loop, inc: nat, v: nat, got: seq<byte>)
    requires Tracks(c, st, v, got)
    requires st.read + inc <= UINTP_MAX
    ensures var n := TakeAsWritten(c, st, inc);
      && Tracks(c, n, v + inc, got + Window(c, v, inc))
      && n.read + n.seek <= st.read + inc
      && n.read <= UINTP_MAX - inc && n.seek == 0
  {
    var taken := Loop(st.pos + st.seek, st.out, st.read + inc, 0);
    TakeAsWrittenIs(c, st, inc);
    TakeTracks(c, st, inc, v, got);
    if taken.read > UINTP_MAX - inc {
      HeaderTracks(c, taken, 0, v + inc, got + Window(c, v, inc));
    }
  }

  /** Without wrap-around, taking a slice is a skip followed by a read,
      delivered at once when the read is full. */
  lemma TakeAsWrittenIs(c: seq<byte>, st: Loop, inc: nat)
    requires st.read + inc <= UINTP_MAX
    ensures var taken := Loop(st.pos + st.seek, st.out, st.read + inc, 0);
      TakeAsWritten(c, st, inc) == if taken.read > UINTP_MAX - inc then HeaderAsWritten(c, taken, 0) else taken
  {
    WrapSmall(st.read + inc);
    WrapSmall(0);
  }

  lemma SkippedTracks(c: seq<byte>, st: Loop, inc: nat, v: nat, got: seq<byte>)
    requires Tracks(c, st, v, got)
    requires st.seek + inc <= UINTP_MAX
    ensures var n := SkipAsWritten(c, st, inc);
      && Tracks(c, n, v + inc, got)
      && n.seek <= st.seek + inc
      && n.read == 0 && n.seek <= UINTP_MAX - inc
  {
    var skipped := HeaderAsWritten(c, st, inc);
    SkipAsWrittenIs(c, st, inc);
    HeaderTracks(c, st, inc, v, got);
    if skipped.seek > UINTP_MAX - inc {
      SeekTracks(c, skipped, v + inc, got);
    }
  }

  /** Without wrap-around, skipping a slice is a delivery followed by a
      skip, applied at once when the skip is full. */
  lemma SkipAsWrittenIs(c: seq<byte>, st: Loop, inc: nat)
    requires st.seek + inc <= UINTP_MAX
    ensures var skipped := HeaderAsWritten(c, st, inc);
      && skipped.seek == st.seek + inc
      && SkipAsWritten(c, st, inc)
         == if skipped.seek > UINTP_MAX - inc then Loop(skipped.pos + skipped.seek, skipped.out, 0, 0) else skipped
  {
    WrapSmall(st.seek + inc);
  }

  /** `n * w`, built up one slice at a time. */
  function Span(n: nat, w: nat): nat {
    if n == 0 then 0 else Span(n - 1, w) + w
  }

  lemma {:induction false} SpanIsProduct(n: nat, w: nat)
    ensures Span(n, w) == n * w
  {
    if n > 0 {
      SpanIsProduct(n - 1, w);
      assert (n - 1) * w + w == n * w;
    }
  }

  /** The loop run with an arbitrary iteration `step`; LoopAsWritten is
      this run with StepAsWritten. */
  function Iterate(step: (Loop, bool) -> Loop, st: Loop, sel: seq<bool>): Loop
    decreases |sel|
  {
    if sel == [] then st else Iterate(step, step(st, sel[0]), sel[1..])
  }

  function AsWrittenStep(c: seq<byte>, perSlice: Option<nat>, inc: nat): (Loop, bool) -> Loop {
    (st: Loop, selected: bool) => StepAsWritten(c, st, perSlice, inc, selected)
  }

  lemma {:induction false} LoopIsIterate(c: seq<byte>, st: Loop, perSlice: Option<nat>, inc: nat, sel: seq<bool>)
    ensures LoopAsWritten(c, st, perSlice, inc, sel) == Iterate(AsWrittenStep(c, perSlice, inc), st, sel)
    decreases |sel|
  {
    if sel != [] {
      LoopIsIterate(c, StepAsWritten(c, st, perSlice, inc, sel[0]), perSlice, inc, sel[1..]);
    }
  }

  /** What a loop iteration must do to keep the loop on track: started
      on track with room in both counters, it delivers the slice when `b`
      and keeps both counters at most `UINTP_MAX - inc`. */
  predicate StepKeeps(c: seq<byte>, st: Loop, n: Loop, h: nat, inc: nat, b: bool, v: nat, got: seq<byte>) {
    Tracks(c, st, v, got) && st.read + inc <= UINTP_MAX && st.seek + h + inc <= UINTP_MAX ==>
      && Tracks(c, n, v + h + inc, got + Piece(c, v, h, inc, b))
      && n.read + n.seek <= st.read + st.seek + h + inc
      && n.read <= UINTP_MAX - inc && n.seek <= UINTP_MAX - inc
  }

  /** StepKeeps holds of every iteration of `step`. */
  ghost predicate StepsTrack(c: seq<byte>, step: (Loop, bool) -> Loop, h: nat, inc: nat) {
    forall st: Loop, v: nat, got: seq<byte>, b: bool ::
      StepKeeps(c, st, step(st, b), h, inc, b, v, got)
  }

  lemma AsWrittenStepTracks(c: seq<byte>, perSlice: Option<nat>, inc: nat)
    ensures StepsTrack(c, AsWrittenStep(c, perSlice, inc), HeaderBytes(perSlice), inc)
  {
    var step := AsWrittenStep(c, perSlice, inc);
    forall st: Loop, v: nat, got: seq<byte>, b: bool
      ensures StepKeeps(c, st, step(st, b), HeaderBytes(perSlice), inc, b, v, got)
    {
      if b {
        TakeStepTracks(c, st, perSlice, inc, v, got);
      } else {
        SkipStepTracks(c, st, perSlice, inc, v, got);
      }
    }
  }

  /** Counters that cannot wrap over the remaining `slices`: either no
      per-slice header, so that the guards alone keep them in range, or at
      most `UINTP_MAX` bytes still to cover. */
  predicate Fits(st: Loop, h: nat, inc: nat, bounded: bool, slices: nat) {
    if bounded then st.read + st.seek + Span(slices, h + inc) <= UINTP_MAX
    else h == 0 && st.read <= UINTP_MAX - inc && st.seek <= UINTP_MAX - inc
  }

  /** An iteration that keeps the loop on track, run over the slices,
      delivers exactly the selected ones. */
  lemma {:induction false} IterateTracks(c: seq<byte>, step: (Loop, bool) -> Loop, h: nat, inc: nat, bounded: bool,
                                         st: Loop, sel: seq<bool>, v: nat, got: seq<byte>)
    requires StepsTrack(c, step, h, inc)
    requires Tracks(c, st, v, got) && Fits(st, h, inc, bounded, |sel|)
    ensures Flushed(c, Iterate(step, st, sel)) == got + Selected(c, v, h, inc, sel)
    decreases |sel|
  {
    if sel == [] {
      assert got + [] == got;
    } else {
      var n := step(st, sel[0]);
      var piece := Piece(c, v, h, inc, sel[0]);
      var rest := Selected(c, v + h + inc, h, inc, sel[1..]);
      assert StepKeeps(c, st, n, h, inc, sel[0], v, got);
      IterateTracks(c, step, h, inc, bounded, n, sel[1..], v + h + inc, got + piece);
      IterateStep(c, step, st, sel, h, inc, v, got);
    }
  }

  /** One unfolding of IterateTracks' conclusion: the first iteration
      delivers the first slice's piece and the rest delivers the rest. */
  lemma IterateStep(c: seq<byte>, step: (Loop, bool) -> Loop, st: Loop, sel: seq<bool>, h: nat, inc: nat,
                    v: nat, got: seq<byte>)
    requires sel != []
    requires Flushed(c, Iterate(step, step(st, sel[0]), sel[1..]))
          == (got + Piece(c, v, h, inc, sel[0])) + Selected(c, v + h + inc, h, inc, sel[1..])
    ensures Flushed(c, Iterate(step, st, sel)) == got + Selected(c, v, h, inc, sel)
  {
    Concat3(got, Piece(c, v, h, inc, sel[0]), Selected(c, v + h + inc, h, inc, sel[1..]));
  }

  /** The loop as written delivers exactly the selected slices, as
      CopySlices does, whenever its counters cannot wrap: always when the
      slices have no per-slice header, and otherwise when the slices span
      at most `UINTP_MAX` bytes. */
  lemma AsWrittenWithoutWrap(c: seq<byte>, pos: nat, perSlice: Option<nat>, inc: nat, sel: seq<bool>)
    requires inc <= UINTP_MAX
    requires perSlice.Some? ==> |sel| * (perSlice.value + inc) <= UINTP_MAX
    ensures CopyAsWritten(c, pos, perSlice, inc, sel) == Selected(c, pos, HeaderBytes(perSlice), inc, sel)
  {
    var h := HeaderBytes(perSlice);
    var st := Loop(pos, [], 0, 0);
    SpanIsProduct(|sel|, h + inc);
    assert Tracks(c, st, pos, []);
    LoopIsIterate(c, st, perSlice, inc, sel);
    AsWrittenStepTracks(c, perSlice, inc);
    IterateTracks(c, AsWrittenStep(c, perSlice, inc), h, inc, perSlice.Some?, st, sel, pos, []);
    assert [] + Selected(c, pos, h, inc, sel) == Selected(c, pos, h, inc, sel);
  }

  /** With `HeaderSizePerSlice = 2^63` and one-byte slices, the skip of
      the first slice and both headers add up to 2^64 + 1 bytes, which the
      unguarded `seek += HeaderSizePerSlice` wraps to 1: the loop reads the
      second byte of the file where the selected slice lies beyond its
      end. */
  lemma SeekWrapCounterexample()
    ensures var c: seq<byte> := [1, 2, 3, 4];
      var sel := [false, true];
      && CopyAsWritten(c, 0, Some(0x8000_0000_0000_0000), 1, sel) == [2]
      && Selected(c, 0, 0x8000_0000_0000_0000, 1, sel) == []
  {
    SeekWrapRead();
    SeekWrapIntended();
  }

  /** The loop as written delivers the second byte of the file. */
  lemma SeekWrapRead()
    ensures CopyAsWritten([1, 2, 3, 4], 0, Some(0x8000_0000_0000_0000), 1, [false, true]) == [2]
  {
    var c: seq<byte> := [1, 2, 3, 4];
    SeekWrapLoop(c);
    WindowBounds(c, 1, 1);
    assert c[1..2] == [2];
  }

  /** The two iterations leave a read of one byte pending at offset 1. */
  lemma SeekWrapLoop(c: seq<byte>)
    ensures LoopAsWritten(c, Loop(0, [], 0, 0), Some(0x8000_0000_0000_0000), 1, [false, true]) == Loop(1, [], 1, 0)
  {
    var perSlice := Some(0x8000_0000_0000_0000);
    var s1, s2 := Loop(0, [], 0, 0x8000_0000_0000_0001), Loop(1, [], 1, 0);
    SeekWrapSkip(c);
    SeekWrapTake(c);
    assert [false, true][1..] == [true] && [true][1..] == [];
    assert LoopAsWritten(c, s1, perSlice, 1, [true]) == LoopAsWritten(c, s2, perSlice, 1, []);
  }

  /** The selected slice lies past the end of the file: nothing is meant
      to be delivered. */
  lemma SeekWrapIntended()
    ensures Selected([1, 2, 3, 4], 0, 0x8000_0000_0000_0000, 1, [false, true]) == []
  {
    var c: seq<byte> := [1, 2, 3, 4];
    assert [false, true][1..] == [true] && [true][1..] == [];
    assert Selected(c, 0x8000_0000_0000_0001, 0x8000_0000_0000_0000, 1, [true])
        == Window(c, 0x1_0000_0000_0000_0001, 1) + [];
  }

  /** The first slice, skipped: the header and the slice join the
      pending skip. */
  lemma SeekWrapSkip(c: seq<byte>)
    ensures StepAsWritten(c, Loop(0, [], 0, 0), Some(0x8000_0000_0000_0000), 1, false)
         == Loop(0, [], 0, 0x8000_0000_0000_0001)
  {
    assert Window(c, 0, 0) == [];
  }

  /** The second slice, selected: its header wraps the pending skip to 1,
      and the slice is read from offset 1. */
  lemma SeekWrapTake(c: seq<byte>)
    ensures StepAsWritten(c, Loop(0, [], 0, 0x8000_0000_0000_0001), Some(0x8000_0000_0000_0000), 1, true)
         == Loop(1, [], 1, 0)
  {
    assert Window(c, 0, 0) == [];
    assert WrapUintp(0x8000_0000_0000_0001 + 0x8000_0000_0000_0000) == 1;
  }
}
