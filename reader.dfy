/** The reader: the typecast of the raw header (reader.py:97-120,
    pymetaio/io.py:97-118), the shape and size of the payload, the checks
    on the slice selection and on memory mapping, the per-file payload, and
    the assembly of the result (reader.py:122-209, pymetaio/io.py:120-208). */
module Reader {
  import opened Wrappers
  import opened Text
  import opened Tags
  import opened Values
  import opened Coerce
  import opened Header
  import opened Payload

  // ------------------------------------------------------------- typecast

  /** The typecast loop from `meta` over the raw keys `ks`: each value is
      converted by its tag's category, and the first conversion that fails
      ends the loop with its error. */
  function CastFrom(gen: Generation, meta: Dict, ks: seq<string>, raw: Dict, rt: Runtime): Result<Dict>
    decreases |ks|
  {
    if ks == [] then Success(meta)
    else
      var v :- CastIn(gen, ks[0], raw.Get(ks[0]), rt);
      CastFrom(gen, meta.Put(ks[0], v), ks[1..], raw, rt)
  }

  /** `meta = dict.fromkeys(TAGS, None)` followed by the typecast of every
      raw entry in the order the header gave them. */
  function Typecast(gen: Generation, raw: Dict, rt: Runtime): Result<Dict> {
    TagsDistinct();
    CastFrom(gen, FromKeys(TAGS, Null), raw.keys, raw, rt)
  }

  /** The typecast loop itself (reader.py:98-120, pymetaio/io.py:98-118). */
  method TypecastEntries(gen: Generation, raw: Dict, rt: Runtime) returns (r: Result<Dict>)
    ensures r == Typecast(gen, raw, rt)
  {
    TagsDistinct();
    var meta := FromKeys(TAGS, Null);
    var i := 0;
    while i < |raw.keys|
      invariant i <= |raw.keys|
      invariant CastFrom(gen, meta, raw.keys[i..], raw, rt) == Typecast(gen, raw, rt)
    {
      var k := raw.keys[i];
      assert raw.keys[i..][0] == k && raw.keys[i..][1..] == raw.keys[i + 1..];
      var v := CastIn(gen, k, raw.Get(k), rt);
      if v.Failure? {
        return Failure(v.error);
      }
      meta := meta.Put(k, v.value);
      i := i + 1;
    }
    return Success(meta);
  }

  /** The loop succeeds exactly when every raw entry converts; then each
      raw key holds its converted value, every other key keeps its value,
      and the dict stays well formed. */
  lemma {:induction false} CastFromSpec(gen: Generation, meta: Dict, ks: seq<string>, raw: Dict, rt: Runtime)
    requires meta.Valid()
    ensures var r := CastFrom(gen, meta, ks, raw, rt);
      && (r.Success? <==> forall k :: k in ks ==> CastIn(gen, k, raw.Get(k), rt).Success?)
      && (r.Success? ==>
            && r.value.Valid()
            && (forall k :: r.value.Has(k) <==> meta.Has(k) || k in ks)
            && (forall k :: k in ks ==> r.value.Get(k) == CastIn(gen, k, raw.Get(k), rt).value)
            && (forall k :: k !in ks ==> r.value.Get(k) == meta.Get(k)))
    decreases |ks|
  {
    if ks != [] {
      var k := ks[0];
      var v := CastIn(gen, k, raw.Get(k), rt);
      assert forall k' :: k' in ks <==> k' == k || k' in ks[1..];
      if v.Success? {
        meta.PutValid(k, v.value);
        CastFromSpec(gen, meta.Put(k, v.value), ks[1..], raw, rt);
      }
    }
  }

  /** The typecast dict holds every table tag, `None` where the header did
      not give it, and each header key with its converted value. */
  lemma TypecastSpec(gen: Generation, raw: Dict, rt: Runtime)
    ensures var r := Typecast(gen, raw, rt);
      && (r.Success? <==> forall k :: k in raw.keys ==> CastIn(gen, k, raw.Get(k), rt).Success?)
      && (r.Success? ==>
            && r.value.Valid()
            && (forall k :: r.value.Has(k) <==> IsTag(k) || k in raw.keys)
            && (forall k :: k in raw.keys ==> r.value.Get(k) == CastIn(gen, k, raw.Get(k), rt).value)
            && (forall k :: k !in raw.keys ==> r.value.Get(k) == Null))
  {
    TagsDistinct();
    CastFromSpec(gen, FromKeys(TAGS, Null), raw.keys, raw, rt);
  }

  // ---------------------------------------------------------------- shape

  /** `meta.get(key) or default` for an integer tag. */
  function IntOr(meta: Dict, key: string, default: int): int {
    match meta.Get(key)
    case Int(n) => if n != 0 then n else default
    case _ => default
  }

  /** The payload's shape: `DimSize` reversed, with a channel axis appended
      when there is more than one channel (reader.py:123-125,
      pymetaio/io.py:121-123). Without `DimSize` the reader fails on
      `None.copy()` (metaimageio) or on `None[::-1]` (pymetaio). */
  function Shape(gen: Generation, meta: Dict): Result<seq<int>> {
    var dims := meta.Get("DimSize");
    if !dims.IntVec? then Failure(Error(if gen == Current then AttributeError else TypeError, MissingTag))
    else
      var c := IntOr(meta, "ElementNumberOfChannels", 1);
      Success(Reverse(dims.ns) + (if c > 1 then [c] else []))
  }

  /** The shape lists the dimensions fastest-last: the first axis is the
      last `DimSize` entry, and a multi-channel image ends with its channel
      count. */
  lemma ShapeSpec(gen: Generation, meta: Dict)
    ensures Shape(gen, meta).Success? <==> meta.Get("DimSize").IntVec?
    ensures Shape(gen, meta).Success? ==>
      var dims := meta.Get("DimSize").ns;
      var shape := Shape(gen, meta).value;
      var c := IntOr(meta, "ElementNumberOfChannels", 1);
      && |shape| == |dims| + (if c > 1 then 1 else 0)
      && (forall i :: 0 <= i < |dims| ==> shape[i] == dims[|dims| - 1 - i])
      && (c > 1 ==> shape[|shape| - 1] == c)
  {
  }

  /** `np.dtype(meta['ElementType'])`: `np.dtype(None)` is float64. */
  function ElementKind(meta: Dict): Kind {
    var v := meta.Get("ElementType");
    if v.Dtype? then v.kind else Float64
  }

  function Prod(s: seq<int>): int {
    if s == [] then 1 else s[0] * Prod(s[1..])
  }

  /** `np.prod(shape[1:]) * element_size` in the counters' type: wrapped
      to 64 bits unsigned in metaimageio; in pymetaio (signed) only sizes
      that fit without wrapping are modelled. */
  function Increment(gen: Generation, shape: seq<int>, size: nat): (r: Result<nat>)
    ensures r.Success? ==> r.value <= CounterMax(gen)
  {
    var n := Prod(if shape == [] then [] else shape[1..]) * size;
    if gen == Current then Success(n % (UINTP_MAX + 1))
    else if 0 <= n <= INTP_MAX then Success(n)
    else Failure(Error(OverflowError, SizeOverflow))
  }

  /** The largest value of the `read` and `seek` counters: `np.uintp`
      (metaimageio) or `np.intp` (pymetaio). */
  function CounterMax(gen: Generation): nat {
    if gen == Current then UINTP_MAX else INTP_MAX
  }

  // --------------------------------------------------------------- slices

  predicate StrictlyIncreasing(s: seq<int>) {
    forall i :: 0 <= i < |s| - 1 ==> s[i] < s[i + 1]
  }

  /** The selection checks (reader.py:151-154, pymetaio/io.py:149-152):
      strictly increasing, and first and last within `[0, depth)`. */
  function CheckSlices(gen: Generation, slices: seq<int>, depth: int): Result<seq<int>> {
    if !StrictlyIncreasing(slices) then Failure(CheckError(gen, SlicesNotIncreasing))
    else if slices != [] && (slices[0] < 0 || slices[|slices| - 1] >= depth) then
      Failure(CheckError(gen, SlicesOutOfBounds))
    else Success(slices)
  }

  /** The same checks on a shape that may be empty: only the bound test
      of a selection whose first index is not negative reads `shape[0]`,
      and it raises `IndexError` when the shape has no axis. */
  function CheckSelection(gen: Generation, slices: seq<int>, shape: seq<int>): Result<seq<int>> {
    if shape != [] then CheckSlices(gen, slices, shape[0])
    else if !StrictlyIncreasing(slices) then Failure(CheckError(gen, SlicesNotIncreasing))
    else if slices != [] && slices[0] < 0 then Failure(CheckError(gen, SlicesOutOfBounds))
    else if slices != [] then Failure(Error(IndexError, EmptyShape))
    else Success(slices)
  }

  /** In a strictly increasing selection every index lies between the
      first and the last. */
  lemma IncreasingBounds(s: seq<int>, i: nat)
    requires StrictlyIncreasing(s) && i < |s|
    ensures s[0] <= s[i] <= s[|s| - 1]
  {
    LowerBound(s, i);
    UpperBound(s, i);
  }

  lemma {:induction false} LowerBound(s: seq<int>, i: nat)
    requires StrictlyIncreasing(s) && i < |s|
    ensures s[0] <= s[i]
  {
    if i > 0 {
      LowerBound(s, i - 1);
    }
  }

  lemma {:induction false} UpperBound(s: seq<int>, i: nat)
    requires StrictlyIncreasing(s) && i < |s|
    ensures s[i] <= s[|s| - 1]
    decreases |s| - i
  {
    if i < |s| - 1 {
      UpperBound(s, i + 1);
    }
  }

  /** The checks accept a selection exactly when it is strictly increasing
      and every index names a slice of the z axis. */
  lemma CheckSlicesSpec(gen: Generation, slices: seq<int>, depth: int)
    ensures CheckSlices(gen, slices, depth).Success?
        <==> StrictlyIncreasing(slices) && forall i :: 0 <= i < |slices| ==> 0 <= slices[i] < depth
  {
    if StrictlyIncreasing(slices) && slices != [] {
      forall i | 0 <= i < |slices|
        ensures slices[0] <= slices[i] <= slices[|slices| - 1]
      {
        IncreasingBounds(slices, i);
      }
    }
  }

  /** `range(depth)` passes the checks: omitting `slices` selects every
      slice of the z axis. */
  lemma AllSlices(gen: Generation, depth: int)
    ensures CheckSlices(gen, Range(0, depth, 1), depth).Success?
    ensures forall i :: 0 <= i < |Range(0, depth, 1)| ==> Range(0, depth, 1)[i] == i
  {
    RangeSpec(0, depth, 1);
    CheckSlicesSpec(gen, Range(0, depth, 1), depth);
  }

  // ----------------------------------------------------- memory mapping

  /** What the reader returns as the image: nothing for an empty
      selection, an array built from the payload bytes, or a memory map of a
      data file from an offset (the map itself is not modelled). */
  datatype Image =
    | NoImage
    | Loaded(array: NdArray)
    | Mapped(path: string, offset: int, shape: seq<int>, kind: Kind)

  /** The memory-map test on `slices`: `is not None` in metaimageio,
      truthiness in pymetaio. */
  predicate SlicesGiven(gen: Generation, slices: Option<seq<int>>) {
    slices.Some? && (gen == Current || slices.value != [])
  }

  /** The memory-mapped read (reader.py:127-145, pymetaio/io.py:125-143):
      the rejections in the order they are made, then the mapped file and
      the offset of its data. */
  function MapImage(gen: Generation, meta: Dict, shape: seq<int>, slices: Option<seq<int>>,
                    islocal: bool, metaSize: nat): Result<Image> {
    var edf := meta.Get(ELEMENT_DATA_FILE);
    if BigEndian(meta) then Failure(CheckError(gen, ByteOrderWithMemmap))
    else if Truthy(meta.Get("CompressedData")) then Failure(CheckError(gen, CompressedWithMemmap))
    else if meta.Get("HeaderSizePerSlice") != Null then Failure(CheckError(gen, PerSliceHeaderWithMemmap))
    else if !edf.Paths? then Failure(Error(TypeError, MissingTag))
    else if |edf.ps| != 1 then Failure(CheckError(gen, MultipleFilesWithMemmap))
    else if SlicesGiven(gen, slices) then Failure(CheckError(gen, SlicesWithMemmap))
    else
      var offset := (if islocal then metaSize else 0) + IntOr(meta, "HeaderSize", 0);
      Success(Mapped(edf.ps[0], offset, shape, ElementKind(meta)))
  }

  /** Memory mapping is refused exactly when a byte-order flag,
      compression, per-slice headers, other than one data file, or a
      selection is present; otherwise the data begin after the header of a
      `LOCAL` file, plus `HeaderSize`. */
  lemma MapImageSpec(gen: Generation, meta: Dict, shape: seq<int>, slices: Option<seq<int>>,
                     islocal: bool, metaSize: nat)
    ensures var edf := meta.Get(ELEMENT_DATA_FILE);
      var r := MapImage(gen, meta, shape, slices, islocal, metaSize);
      && (r.Success? <==>
            && !BigEndian(meta) && !Truthy(meta.Get("CompressedData"))
            && meta.Get("HeaderSizePerSlice") == Null
            && edf.Paths? && |edf.ps| == 1 && !SlicesGiven(gen, slices))
      && (r.Success? ==>
            && r.value.Mapped? && r.value.path == edf.ps[0]
            && r.value.offset == (if islocal then metaSize else 0) + IntOr(meta, "HeaderSize", 0))
  {
  }

  /** An empty selection: metaimageio refuses it with memory mapping,
      pymetaio maps the file as if no selection were given. */
  lemma EmptySelectionMapped(meta: Dict, shape: seq<int>, islocal: bool, metaSize: nat)
    requires MapImage(Legacy, meta, shape, None, islocal, metaSize).Success?
    ensures MapImage(Legacy, meta, shape, Some([]), islocal, metaSize)
         == MapImage(Legacy, meta, shape, None, islocal, metaSize)
    ensures MapImage(Current, meta, shape, Some([]), islocal, metaSize)
         == Failure(Error(ValueError, SlicesWithMemmap))
  {
  }

  // ------------------------------------------------------------ the plan

  /** What the payload loop needs from the metadata: the data files, where
      their data begin (the header of a `LOCAL` file, then `HeaderSize`),
      compression, the per-slice header, the slice size `inc`, whether the
      shape has a z axis and its extent, the checked selection, and the
      counters' maximum. */
  datatype Plan = Plan(
    gen: Generation,
    paths: seq<string>,
    skip: nat,
    headerSize: nat,
    compressed: bool,
    compressedSize: Option<nat>,
    perSlice: Option<nat>,
    inc: nat,
    hasZ: bool,
    zdim: int,
    slices: seq<int>,
    max: nat)

  /** The counters never exceed their maximum on their own. */
  predicate Fits(plan: Plan) {
    plan.inc <= plan.max && HeaderBytes(plan.perSlice) <= plan.max
  }

  /** The slices each data file holds: all of the z axis for one file,
      one slice per file otherwise (`shape[0] = 1`, reader.py:155-156). */
  function Depth(plan: Plan): nat {
    if |plan.paths| > 1 then 1 else if plan.zdim > 0 then plan.zdim else 0
  }

  /** The slices of data file `i` the loop keeps (reader.py:183): in a
      single file those listed in the selection, in a series the file's
      one slice when its index is listed. */
  function Selection(plan: Plan, i: nat): (sel: seq<bool>)
    ensures |sel| == Depth(plan)
  {
    seq(Depth(plan), j => if |plan.paths| == 1 then j in plan.slices else i in plan.slices)
  }

  /** An integer tag used as a byte count. Negative counts are possible
      only in pymetaio; the model rejects them. */
  function SizeTag(meta: Dict, key: string): Result<Option<nat>> {
    match meta.Get(key)
    case Int(n) => if n < 0 then Failure(Error(ValueError, NegativeSize)) else Success(Some(n))
    case _ => Success(None)
  }

  /** The steps of the plain read before the files are opened
      (reader.py:147-157, pymetaio/io.py:145-155). */
  function PlanOf(gen: Generation, meta: Dict, shape: seq<int>, slices: Option<seq<int>>,
                  islocal: bool, metaSize: nat): (r: Result<Plan>)
    ensures r.Success? && IntegersInRange(gen, meta) ==> Fits(r.value)
  {
    var inc :- Increment(gen, shape, ItemSize(ElementKind(meta)));
    var chosen :- if slices.Some? then Success(slices.value)
                  else if shape == [] then Failure(Error(IndexError, EmptyShape))
                  else Success(Range(0, shape[0], 1));
    var _ :- CheckSelection(gen, chosen, shape);
    FilePlan(gen, meta, inc, shape, chosen, islocal, metaSize)
  }

  /** The part of the plan read from the data-file and size tags, once the
      increment and the selection are known. */
  function FilePlan(gen: Generation, meta: Dict, inc: nat, shape: seq<int>, chosen: seq<int>,
                    islocal: bool, metaSize: nat): (r: Result<Plan>)
    ensures r.Success? ==>
      && r.value.gen == gen && r.value.inc == inc && r.value.max == CounterMax(gen)
      && r.value.hasZ == (shape != []) && (shape != [] ==> r.value.zdim == shape[0])
      && r.value.slices == chosen
      && (shape == [] ==> |r.value.paths| <= 1)
      && meta.Get(ELEMENT_DATA_FILE) == Paths(r.value.paths)
      && r.value.skip == (if islocal then metaSize else 0)
    ensures r.Success? && IntegersInRange(gen, meta) ==> HeaderBytes(r.value.perSlice) <= r.value.max
  {
    var edf := meta.Get(ELEMENT_DATA_FILE);
    if !edf.Paths? then Failure(Error(TypeError, MissingTag))
    else if |edf.ps| > 1 && shape == [] then Failure(Error(IndexError, EmptyShape))
    else
      var hs :- SizeTag(meta, "HeaderSize");
      var hps :- SizeTag(meta, "HeaderSizePerSlice");
      var cds :- SizeTag(meta, "CompressedDataSize");
      assert CategoryOf("HeaderSizePerSlice") == IntegerTag;
      Success(Plan(gen, edf.ps, if islocal then metaSize else 0, if hs.Some? then hs.value else 0,
                   Truthy(meta.Get("CompressedData")), cds, hps, inc, shape != [],
                   if shape != [] then shape[0] else 0, chosen, CounterMax(gen)))
  }

  /** The integer tags of a typecast dict lie in the range of the
      generation's integer type. */
  ghost predicate IntegersInRange(gen: Generation, meta: Dict) {
    forall k :: CategoryOf(k) == IntegerTag && meta.Get(k).Int? ==>
      IntegerRange(gen).0 <= meta.Get(k).i <= IntegerRange(gen).1
  }

  /** An integer tag converts to an integer of the generation's range. */
  lemma CastInRange(gen: Generation, k: string, raw: Value, rt: Runtime)
    requires CategoryOf(k) == IntegerTag && CastIn(gen, k, raw, rt).Success?
    ensures CastIn(gen, k, raw, rt).value.Int?
    ensures IntegerRange(gen).0 <= CastIn(gen, k, raw, rt).value.i <= IntegerRange(gen).1
  {
  }

  lemma TypecastInRange(gen: Generation, raw: Dict, rt: Runtime)
    requires Typecast(gen, raw, rt).Success?
    ensures IntegersInRange(gen, Typecast(gen, raw, rt).value)
  {
    TypecastSpec(gen, raw, rt);
    var meta := Typecast(gen, raw, rt).value;
    forall k | CategoryOf(k) == IntegerTag && meta.Get(k).Int?
      ensures IntegerRange(gen).0 <= meta.Get(k).i <= IntegerRange(gen).1
    {
      if k in raw.keys {
        CastInRange(gen, k, raw.Get(k), rt);
      }
    }
  }

  // -------------------------------------------------------- the payload

  /** The bytes one data file contributes (reader.py:163-196,
      pymetaio/io.py:161-194): after skipping to the data, either the
      decompressed `CompressedDataSize` bytes, after the checks compression
      makes, or the selected slices. */
  function FileBytes(plan: Plan, i: nat, content: seq<byte>, rt: Runtime): Result<seq<byte>> {
    var start := plan.skip + plan.headerSize;
    if plan.compressed then
      if plan.compressedSize.None? then Failure(CheckError(plan.gen, MissingCompressedDataSize))
      else if plan.perSlice.Some? then Failure(CheckError(plan.gen, PerSliceHeaderWithCompression))
      else if |plan.paths| == 1 && !plan.hasZ then Failure(Error(IndexError, EmptyShape))
      else if |plan.paths| == 1 && plan.slices != Range(0, plan.zdim, 1) then
        Failure(CheckError(plan.gen, SlicesWithCompression))
      else
        match rt.decompress(Window(content, start, plan.compressedSize.value))
        case None => Failure(Error(ZlibError, CorruptStream))
        case Some(d) => Success(d)
    else if !plan.hasZ then Failure(Error(IndexError, EmptyShape))
    else Success(Selected(content, start, HeaderBytes(plan.perSlice), plan.inc, Selection(plan, i)))
  }

  /** Compressed data (reader.py:167-174, pymetaio/io.py:165-172): a
      missing `CompressedDataSize`, a `HeaderSizePerSlice`, and with one
      data file a selection other than every slice are each refused with
      the generation's error, whatever the file holds and before anything
      is decompressed; otherwise the file contributes exactly the
      decompressed `CompressedDataSize` bytes after the headers. */
  lemma CompressedChecks(plan: Plan, i: nat, content: seq<byte>, rt: Runtime)
    requires plan.compressed
    ensures plan.compressedSize.None?
      ==> FileBytes(plan, i, content, rt) == Failure(CheckError(plan.gen, MissingCompressedDataSize))
    ensures plan.compressedSize.Some? && plan.perSlice.Some?
      ==> FileBytes(plan, i, content, rt) == Failure(CheckError(plan.gen, PerSliceHeaderWithCompression))
    ensures plan.compressedSize.Some? && plan.perSlice.None? && |plan.paths| == 1 && !plan.hasZ
      ==> FileBytes(plan, i, content, rt) == Failure(Error(IndexError, EmptyShape))
    ensures plan.compressedSize.Some? && plan.perSlice.None? && |plan.paths| == 1 && plan.hasZ
            && plan.slices != Range(0, plan.zdim, 1)
      ==> FileBytes(plan, i, content, rt) == Failure(CheckError(plan.gen, SlicesWithCompression))
    ensures var r := FileBytes(plan, i, content, rt);
      r.Success? <==>
        && plan.compressedSize.Some? && plan.perSlice.None?
        && (|plan.paths| == 1 ==> plan.hasZ && plan.slices == Range(0, plan.zdim, 1))
        && rt.decompress(Window(content, plan.skip + plan.headerSize, plan.compressedSize.value)).Some?
    ensures var r := FileBytes(plan, i, content, rt);
      r.Success? ==> r.value == rt.decompress(Window(content, plan.skip + plan.headerSize, plan.compressedSize.value)).value
  {
  }

  /** In particular an empty selection of a non-empty z axis is refused
      for a single compressed file: `() != tuple(range(shape[0]))`. */
  lemma EmptySelectionCompressed(plan: Plan, i: nat, content: seq<byte>, rt: Runtime)
    requires plan.compressed && plan.compressedSize.Some? && plan.perSlice.None?
    requires |plan.paths| == 1 && plan.slices == [] && plan.hasZ && plan.zdim > 0
    ensures FileBytes(plan, i, content, rt) == Failure(CheckError(plan.gen, SlicesWithCompression))
  {
    assert Range(0, plan.zdim, 1)[0] == 0;
  }

  /** The payload of the data files from the `i`-th on, in order; the
      first file that is missing or fails ends the read with its error. */
  function PayloadFrom(plan: Plan, files: map<string, seq<byte>>, i: nat, rt: Runtime): Result<seq<byte>>
    decreases |plan.paths| - i
  {
    if i >= |plan.paths| then Success([])
    else if plan.paths[i] !in files then Failure(Error(FileNotFoundError, MissingFile))
    else
      var head :- FileBytes(plan, i, files[plan.paths[i]], rt);
      var rest :- PayloadFrom(plan, files, i + 1, rt);
      Success(head + rest)
  }

  /** A result with `prefix` put in front of its bytes. */
  function Prepend(prefix: seq<byte>, r: Result<seq<byte>>): Result<seq<byte>> {
    if r.Success? then Success(prefix + r.value) else r
  }

  lemma PayloadStep(plan: Plan, files: map<string, seq<byte>>, i: nat, rt: Runtime, before: seq<byte>)
    requires i < |plan.paths| && plan.paths[i] in files
    requires FileBytes(plan, i, files[plan.paths[i]], rt).Success?
    ensures Prepend(before, PayloadFrom(plan, files, i, rt))
         == Prepend(before + FileBytes(plan, i, files[plan.paths[i]], rt).value, PayloadFrom(plan, files, i + 1, rt))
  {
    var head := FileBytes(plan, i, files[plan.paths[i]], rt).value;
    var rest := PayloadFrom(plan, files, i + 1, rt);
    if rest.Success? {
      assert before + (head + rest.value) == (before + head) + rest.value;
    }
  }

  /** One data file (reader.py:160-196, pymetaio/io.py:158-194): the
      cursor is moved past the embedded header and `HeaderSize`, then its
      bytes are appended to `data`; `r` reports success or the error. */
  method ReadFile(plan: Plan, i: nat, content: seq<byte>, rt: Runtime, data: Buffer) returns (r: Result<seq<byte>>)
    requires Fits(plan) && i < |plan.paths|
    modifies data
    ensures r == FileBytes(plan, i, content, rt)
    ensures r.Success? ==> data.bytes == old(data.bytes) + r.value
  {
    var f := new DataFile(content);
    f.Seek(plan.skip);
    f.Seek(plan.headerSize);
    if plan.compressed {
      if plan.compressedSize.None? {
        return Failure(CheckError(plan.gen, MissingCompressedDataSize));
      }
      if plan.perSlice.Some? {
        return Failure(CheckError(plan.gen, PerSliceHeaderWithCompression));
      }
      if |plan.paths| == 1 && !plan.hasZ {
        return Failure(Error(IndexError, EmptyShape));
      }
      if |plan.paths| == 1 && plan.slices != Range(0, plan.zdim, 1) {
        return Failure(CheckError(plan.gen, SlicesWithCompression));
      }
      var w := f.Read(plan.compressedSize.value);
      var d := rt.decompress(w);
      if d.None? {
        return Failure(Error(ZlibError, CorruptStream));
      }
      data.Write(d.value);
      return Success(d.value);
    } else if !plan.hasZ {
      return Failure(Error(IndexError, EmptyShape));
    } else {
      var before := data.bytes;
      CopySlices(f, data, plan.perSlice, plan.inc, Selection(plan, i), plan.max);
      return Success(data.bytes[|before|..]);
    }
  }

  /** The file loop (reader.py:159-196, pymetaio/io.py:157-194): every data
      file in turn adds its bytes to one buffer; the first failure ends it. */
  method ReadPayload(plan: Plan, files: map<string, seq<byte>>, rt: Runtime) returns (r: Result<seq<byte>>)
    requires Fits(plan)
    ensures r == PayloadFrom(plan, files, 0, rt)
  {
    var data := new Buffer();
    var i := 0;
    ghost var whole := PayloadFrom(plan, files, 0, rt);
    assert Prepend(data.bytes, whole) == whole by {
      if whole.Success? { assert [] + whole.value == whole.value; }
    }
    while i < |plan.paths|
      invariant i <= |plan.paths|
      invariant Prepend(data.bytes, PayloadFrom(plan, files, i, rt)) == whole
    {
      var path := plan.paths[i];
      if path !in files {
        return Failure(Error(FileNotFoundError, MissingFile));
      }
      ghost var before := data.bytes;
      var got := ReadFile(plan, i, files[path], rt, data);
      if got.Failure? {
        return Failure(got.error);
      }
      PayloadStep(plan, files, i, rt, before);
      i := i + 1;
    }
    assert data.bytes + [] == data.bytes;
    return Success(data.bytes);
  }

  // ---------------------------------------------------------- the result

  /** The array made from the payload (reader.py:197-203,
      pymetaio/io.py:195-201): nothing for an empty selection; otherwise the
      z extent becomes the number of selected slices, the bytes must fill
      that shape exactly, and a big-endian payload is swapped to native
      order. */
  function Assemble(plan: Plan, shape: seq<int>, kind: Kind, msb: bool, data: seq<byte>): Result<Image> {
    if plan.slices == [] then Success(NoImage)
    else
      var dims := [|plan.slices|] + (if shape == [] then [] else shape[1..]);
      if (exists i :: 0 <= i < |dims| && dims[i] < 0) || |data| != Prod(dims) * ItemSize(kind) then
        Failure(Error(ValueError, ReshapeMismatch))
      else
        Success(Loaded(NdArray(dims, kind, if msb then ByteSwap(data, ItemSize(kind)) else data)))
  }

  /** The plain read: the plan, the payload of every data file, and the
      array (reader.py:146-205, pymetaio/io.py:144-203). */
  function LoadImage(gen: Generation, meta: Dict, shape: seq<int>, slices: Option<seq<int>>,
                     islocal: bool, metaSize: nat, files: map<string, seq<byte>>, rt: Runtime): Result<Image> {
    var plan :- PlanOf(gen, meta, shape, slices, islocal, metaSize);
    LoadPlan(plan, shape, ElementKind(meta), BigEndian(meta), files, rt)
  }

  /** The payload that `plan` describes, made into an array. */
  function LoadPlan(plan: Plan, shape: seq<int>, kind: Kind, msb: bool,
                    files: map<string, seq<byte>>, rt: Runtime): Result<Image> {
    var data :- PayloadFrom(plan, files, 0, rt);
    Assemble(plan, shape, kind, msb, data)
  }

  /** The metadata handed back (reader.py:205-209, pymetaio/io.py:203-208):
      the `None` entries are dropped; metaimageio drops `ElementDataFile`
      too, pymetaio keeps only its first file name. */
  function Finish(gen: Generation, meta: Dict): Result<Dict>
    requires meta.Valid()
  {
    if gen == Current then
      meta.PutValid(ELEMENT_DATA_FILE, Null);
      Success(WithoutNulls(meta.Put(ELEMENT_DATA_FILE, Null)))
    else
      var out := WithoutNulls(meta);
      if !out.Has(ELEMENT_DATA_FILE) then Failure(Error(KeyError, MissingTag))
      else match out.Get(ELEMENT_DATA_FILE)
        case Paths(ps) =>
          if ps == [] then Failure(Error(IndexError, NoDataFile))
          else Success(out.Put(ELEMENT_DATA_FILE, Str(ps[0])))
        case _ => Success(out)
  }

  /** What a read returns: the image and its metadata. */
  datatype Output = Output(image: Image, meta: Dict)

  /** The image, memory-mapped or read (reader.py:127-205,
      pymetaio/io.py:125-203). */
  function ImageOf(gen: Generation, meta: Dict, shape: seq<int>, slices: Option<seq<int>>, hdr: Scan,
                   files: map<string, seq<byte>>, memmap: bool, rt: Runtime): Result<Image> {
    if memmap then MapImage(gen, meta, shape, slices, hdr.islocal, hdr.size)
    else LoadImage(gen, meta, shape, slices, hdr.islocal, hdr.size, files, rt)
  }

  /** Either way of reading the image needs `ElementDataFile` to be a list
      of file names. */
  lemma ImageNeedsFiles(gen: Generation, meta: Dict, shape: seq<int>, slices: Option<seq<int>>, hdr: Scan,
                        files: map<string, seq<byte>>, memmap: bool, rt: Runtime)
    requires ImageOf(gen, meta, shape, slices, hdr, files, memmap, rt).Success?
    ensures meta.Get(ELEMENT_DATA_FILE).Paths?
  {
    if !memmap {
      assert PlanOf(gen, meta, shape, slices, hdr.islocal, hdr.size).Success?;
    }
  }

  /** Everything after the header loop, from the raw header `hdr`. */
  function Decode(gen: Generation, hdr: Scan, files: map<string, seq<byte>>,
                  slices: Option<seq<int>>, memmap: bool, rt: Runtime): Result<Output> {
    var meta :- Typecast(gen, hdr.meta, rt);
    TypecastSpec(gen, hdr.meta, rt);
    var shape :- Shape(gen, meta);
    var image :- ImageOf(gen, meta, shape, slices, hdr, files, memmap, rt);
    var out :- Finish(gen, meta);
    Success(Output(image, out))
  }

  /** `read(filepath, slices, memmap)` (reader.py:58-209) and
      `read_image` (pymetaio/io.py:58-208): `files` maps each path to the
      content of that file. */
  function Read(gen: Generation, filepath: string, files: map<string, seq<byte>>,
                slices: Option<seq<int>>, memmap: bool, rt: Runtime): Result<Output> {
    if filepath !in files then Failure(Error(FileNotFoundError, MissingFile))
    else
      var hdr :- ReadHeader(gen, files[filepath], filepath, rt);
      Decode(gen, hdr, files, slices, memmap, rt)
  }

  /** The reader as the source runs it: the header loop, the typecast
      loop, and the file loop, composed in order. */
  method ReadImage(gen: Generation, filepath: string, files: map<string, seq<byte>>,
                   slices: Option<seq<int>>, memmap: bool, rt: Runtime) returns (r: Result<Output>)
    ensures r == Read(gen, filepath, files, slices, memmap, rt)
  {
    if filepath !in files {
      return Failure(Error(FileNotFoundError, MissingFile));
    }
    var hdr := ScanHeader(gen, files[filepath], filepath, rt);
    if hdr.Failure? {
      return Failure(hdr.error);
    }
    var meta := TypecastEntries(gen, hdr.value.meta, rt);
    if meta.Failure? {
      return Failure(meta.error);
    }
    TypecastSpec(gen, hdr.value.meta, rt);
    TypecastInRange(gen, hdr.value.meta, rt);
    var shape := Shape(gen, meta.value);
    if shape.Failure? {
      return Failure(shape.error);
    }
    var image: Result<Image>;
    if memmap {
      image := ImageOf(gen, meta.value, shape.value, slices, hdr.value, files, memmap, rt);
    } else {
      var plan := PlanOf(gen, meta.value, shape.value, slices, hdr.value.islocal, hdr.value.size);
      if plan.Failure? {
        return Failure(plan.error);
      }
      var data := ReadPayload(plan.value, files, rt);
      if data.Failure? {
        return Failure(data.error);
      }
      image := Assemble(plan.value, shape.value, ElementKind(meta.value), BigEndian(meta.value), data.value);
    }
    if image.Failure? {
      return Failure(image.error);
    }
    var out := Finish(gen, meta.value);
    if out.Failure? {
      return Failure(out.error);
    }
    return Success(Output(image.value, out.value));
  }

  // ------------------------------------------------------------ properties

  /** The metadata handed back has no `None` entry. metaimageio keeps every
      other entry and drops `ElementDataFile`; pymetaio fails without a data
      file and otherwise replaces the list by its first name. */
  lemma FinishSpec(gen: Generation, meta: Dict)
    requires meta.Valid()
    ensures var r := Finish(gen, meta); var edf := meta.Get(ELEMENT_DATA_FILE);
      && (gen == Current ==> r.Success?)
      && (gen == Legacy ==> (r.Success? <==> edf != Null && edf != Paths([])))
      && (r.Success? ==>
            && r.value.Valid()
            && (forall k :: r.value.Has(k) <==>
                  meta.Has(k) && meta.Get(k) != Null && (gen == Legacy || k != ELEMENT_DATA_FILE))
            && (forall k :: r.value.Has(k) ==> r.value.Get(k) != Null)
            && (forall k :: k != ELEMENT_DATA_FILE && r.value.Has(k) ==> r.value.Get(k) == meta.Get(k))
            && (gen == Legacy ==> r.value.Get(ELEMENT_DATA_FILE) == (if edf.Paths? then Str(edf.ps[0]) else edf)))
  {
    if gen == Current {
      FinishCurrent(meta);
    } else {
      FinishLegacy(meta);
    }
  }

  lemma FinishCurrent(meta: Dict)
    requires meta.Valid()
    ensures var r := Finish(Current, meta);
      && r.Success? && r.value.Valid()
      && (forall k :: r.value.Has(k) <==> meta.Has(k) && meta.Get(k) != Null && k != ELEMENT_DATA_FILE)
      && (forall k :: r.value.Has(k) ==> r.value.Get(k) != Null)
      && (forall k :: k != ELEMENT_DATA_FILE && r.value.Has(k) ==> r.value.Get(k) == meta.Get(k))
  {
    meta.PutValid(ELEMENT_DATA_FILE, Null);
  }

  lemma FinishLegacy(meta: Dict)
    requires meta.Valid()
    ensures var r := Finish(Legacy, meta); var edf := meta.Get(ELEMENT_DATA_FILE);
      && (r.Success? <==> edf != Null && edf != Paths([]))
      && (r.Success? ==>
            && r.value.Valid()
            && (forall k :: r.value.Has(k) <==> meta.Has(k) && meta.Get(k) != Null)
            && (forall k :: r.value.Has(k) ==> r.value.Get(k) != Null)
            && (forall k :: k != ELEMENT_DATA_FILE && r.value.Has(k) ==> r.value.Get(k) == meta.Get(k))
            && r.value.Get(ELEMENT_DATA_FILE) == (if edf.Paths? then Str(edf.ps[0]) else edf))
  {
    var out := WithoutNulls(meta);
    if out.Has(ELEMENT_DATA_FILE) {
      if out.Get(ELEMENT_DATA_FILE).Paths? && out.Get(ELEMENT_DATA_FILE).ps != [] {
        out.PutValid(ELEMENT_DATA_FILE, Str(out.Get(ELEMENT_DATA_FILE).ps[0]));
      }
    }
  }

  /** A successful read hands back metadata without `None` entries, and
      with `ElementDataFile` removed (metaimageio) or reduced to a single
      file name (pymetaio). */
  lemma ReadMeta(gen: Generation, filepath: string, files: map<string, seq<byte>>,
                 slices: Option<seq<int>>, memmap: bool, rt: Runtime)
    requires Read(gen, filepath, files, slices, memmap, rt).Success?
    ensures var out := Read(gen, filepath, files, slices, memmap, rt).value.meta;
      && out.Valid()
      && (forall k :: out.Has(k) ==> out.Get(k) != Null)
      && (gen == Current ==> !out.Has(ELEMENT_DATA_FILE))
      && (gen == Legacy ==> out.Get(ELEMENT_DATA_FILE).Str?)
  {
    var hdr := ReadHeader(gen, files[filepath], filepath, rt).value;
    DecodeMeta(gen, hdr, files, slices, memmap, rt);
  }

  lemma DecodeMeta(gen: Generation, hdr: Scan, files: map<string, seq<byte>>,
                   slices: Option<seq<int>>, memmap: bool, rt: Runtime)
    requires Decode(gen, hdr, files, slices, memmap, rt).Success?
    ensures var out := Decode(gen, hdr, files, slices, memmap, rt).value.meta;
      && out.Valid()
      && (forall k :: out.Has(k) ==> out.Get(k) != Null)
      && (gen == Current ==> !out.Has(ELEMENT_DATA_FILE))
      && (gen == Legacy ==> out.Get(ELEMENT_DATA_FILE).Str?)
  {
    TypecastSpec(gen, hdr.meta, rt);
    var meta := Typecast(gen, hdr.meta, rt).value;
    var shape := Shape(gen, meta).value;
    ImageNeedsFiles(gen, meta, shape, slices, hdr, files, memmap, rt);
    FinishSpec(gen, meta);
  }

  /** Which of the `n` positions from `lo` on a list of indices flags. */
  function Flags(lo: int, n: nat, s: seq<int>): (r: seq<bool>)
    ensures |r| == n
    ensures forall j :: 0 <= j < n ==> r[j] == (lo + j in s)
    decreases n
  {
    if n == 0 then [] else [lo in s] + Flags(lo + 1, n - 1, s)
  }

  /** A strictly increasing list of indices within `[lo, lo + n)` flags
      exactly as many of those `n` positions as it has entries. */
  lemma {:induction false} CountFlags(lo: int, n: nat, s: seq<int>)
    requires StrictlyIncreasing(s)
    requires forall i :: 0 <= i < |s| ==> lo <= s[i] < lo + n
    ensures Count(Flags(lo, n, s)) == |s|
    decreases n
  {
    if n > 0 {
      assert Flags(lo, n, s)[1..] == Flags(lo + 1, n - 1, s);
      if s != [] && s[0] == lo {
        var tail := s[1..];
        TailAbove(s);
        assert Flags(lo + 1, n - 1, s) == Flags(lo + 1, n - 1, tail);
        CountFlags(lo + 1, n - 1, tail);
      } else {
        forall i | 0 <= i < |s|
          ensures lo + 1 <= s[i]
        {
          LowerBound(s, i);
        }
        assert lo !in s;
        CountFlags(lo + 1, n - 1, s);
      }
    }
  }

  /** Past its head, a strictly increasing list holds larger entries only. */
  lemma TailAbove(s: seq<int>)
    requires StrictlyIncreasing(s) && s != []
    ensures StrictlyIncreasing(s[1..])
    ensures forall i :: 1 <= i < |s| ==> s[0] < s[i]
    ensures forall x :: x > s[0] ==> (x in s <==> x in s[1..])
  {
    forall i | 1 <= i < |s|
      ensures s[0] < s[i]
    {
      LowerBound(s[1..], i - 1);
    }
    assert s == [s[0]] + s[1..];
  }

  /** In a single data file, the loop keeps one slice per selected index. */
  lemma SelectionCount(plan: Plan)
    requires |plan.paths| == 1 && StrictlyIncreasing(plan.slices)
    requires forall i :: 0 <= i < |plan.slices| ==> 0 <= plan.slices[i] < plan.zdim
    ensures Count(Selection(plan, 0)) == |plan.slices|
  {
    var n := Depth(plan);
    if plan.slices != [] {
      assert 0 <= plan.slices[0] < plan.zdim;
    }
    assert Selection(plan, 0) == Flags(0, n, plan.slices);
    CountFlags(0, n, plan.slices);
  }

  /** A plan holds a selection the checks accepted: the one given, or
      every slice of the z axis, strictly increasing within `[0, shape[0])`;
      it reads the files `ElementDataFile` lists. */
  lemma PlanSpec(gen: Generation, meta: Dict, shape: seq<int>, slices: Option<seq<int>>,
                 islocal: bool, metaSize: nat)
    requires PlanOf(gen, meta, shape, slices, islocal, metaSize).Success?
    ensures var plan := PlanOf(gen, meta, shape, slices, islocal, metaSize).value;
      && plan.hasZ == (shape != []) && (shape != [] ==> plan.zdim == shape[0])
      && (slices.Some? ==> plan.slices == slices.value)
      && (slices.None? ==> shape != [] && plan.slices == Range(0, shape[0], 1))
      && (shape == [] ==> plan.slices == [] && |plan.paths| <= 1)
      && StrictlyIncreasing(plan.slices)
      && (forall i :: 0 <= i < |plan.slices| ==> 0 <= plan.slices[i] < plan.zdim)
      && meta.Get(ELEMENT_DATA_FILE) == Paths(plan.paths)
      && plan.skip == (if islocal then metaSize else 0)
  {
    var plan := PlanOf(gen, meta, shape, slices, islocal, metaSize).value;
    assert CheckSelection(gen, plan.slices, shape).Success?;
    if shape != [] {
      CheckSlicesSpec(gen, plan.slices, shape[0]);
    }
  }

  /** With an empty shape (an empty `DimSize` and one channel) the plain
      read fails only where `shape[0]` is read: when no selection is given,
      and in the bound test of a selection whose first index is not
      negative. A selection that is not increasing, or starts below zero,
      is refused with the same error as with any shape. Only the empty
      selection of at most one data file gets past the checks. */
  lemma EmptyShapePlan(gen: Generation, meta: Dict, slices: Option<seq<int>>, islocal: bool, metaSize: nat)
    requires ItemSize(ElementKind(meta)) <= INTP_MAX
    ensures var r := PlanOf(gen, meta, [], slices, islocal, metaSize);
      && (slices.None? ==> r == Failure(Error(IndexError, EmptyShape)))
      && (slices.Some? && !StrictlyIncreasing(slices.value) ==> r == Failure(CheckError(gen, SlicesNotIncreasing)))
      && (slices.Some? && StrictlyIncreasing(slices.value) && slices.value != [] && slices.value[0] < 0 ==>
            r == Failure(CheckError(gen, SlicesOutOfBounds)))
      && (slices.Some? && StrictlyIncreasing(slices.value) && slices.value != [] && slices.value[0] >= 0 ==>
            r == Failure(Error(IndexError, EmptyShape)))
      && (r.Success? ==> slices == Some([]) && !r.value.hasZ && r.value.slices == [] && |r.value.paths| <= 1)
  {
    IncrementNoAxis(gen, ElementKind(meta));
  }

  /** Without a z axis `shape[1:]` is empty, so a slice is one element. */
  lemma IncrementNoAxis(gen: Generation, k: Kind)
    requires ItemSize(k) <= INTP_MAX
    ensures Increment(gen, [], ItemSize(k)) == Success(ItemSize(k))
  {
    assert Prod([]) == 1;
  }

  /** Each data file read with an empty shape fails on `range(shape[0])`,
      or, when compressed, on the comparison with it, after the two checks
      that come first. */
  lemma EmptyShapeFile(plan: Plan, i: nat, content: seq<byte>, rt: Runtime)
    requires !plan.hasZ
    requires !plan.compressed || (plan.compressedSize.Some? && plan.perSlice.None? && |plan.paths| == 1)
    ensures FileBytes(plan, i, content, rt) == Failure(Error(IndexError, EmptyShape))
  {
  }

  /** `ElementDataFile = LIST` with no names and an empty selection pass
      every check with an empty shape; the file loop runs no iteration and
      no image is returned. */
  lemma EmptyShapeNoFiles(gen: Generation, meta: Dict, islocal: bool, metaSize: nat,
                          files: map<string, seq<byte>>, rt: Runtime)
    requires meta.Get(ELEMENT_DATA_FILE) == Paths([]) && ItemSize(ElementKind(meta)) <= INTP_MAX
    requires SizeTag(meta, "HeaderSize").Success? && SizeTag(meta, "HeaderSizePerSlice").Success?
    requires SizeTag(meta, "CompressedDataSize").Success?
    ensures LoadImage(gen, meta, [], Some([]), islocal, metaSize, files, rt) == Success(NoImage)
  {
    IncrementNoAxis(gen, ElementKind(meta));
    var plan := PlanOf(gen, meta, [], Some([]), islocal, metaSize);
    assert plan.Success? && plan.value.paths == [];
  }

  /** One uncompressed data file that holds every slice delivers `inc`
      bytes per selected slice, and nothing else. */
  lemma SingleFilePayload(plan: Plan, files: map<string, seq<byte>>, rt: Runtime)
    requires |plan.paths| == 1 && !plan.compressed && plan.hasZ && plan.paths[0] in files
    requires StrictlyIncreasing(plan.slices)
    requires forall i :: 0 <= i < |plan.slices| ==> 0 <= plan.slices[i] < plan.zdim
    requires plan.skip + plan.headerSize + Depth(plan) * (HeaderBytes(plan.perSlice) + plan.inc)
             <= |files[plan.paths[0]]|
    ensures var bytes := Selected(files[plan.paths[0]], plan.skip + plan.headerSize,
                                  HeaderBytes(plan.perSlice), plan.inc, Selection(plan, 0));
      && PayloadFrom(plan, files, 0, rt) == Success(bytes)
      && |bytes| == |plan.slices| * plan.inc
  {
    var content := files[plan.paths[0]];
    var sel := Selection(plan, 0);
    var bytes := Selected(content, plan.skip + plan.headerSize, HeaderBytes(plan.perSlice), plan.inc, sel);
    SelectionCount(plan);
    SelectedLength(content, plan.skip + plan.headerSize, HeaderBytes(plan.perSlice), plan.inc, sel);
    assert FileBytes(plan, 0, content, rt) == Success(bytes);
    assert PayloadFrom(plan, files, 1, rt) == Success([]);
    assert bytes + [] == bytes;
  }

  /** `n` planes of `rest`-shaped items of `size` bytes fill the shape
      `[n] + rest`. */
  lemma FillsShape(n: nat, rest: seq<int>, size: nat, len: nat)
    requires len == n * (Prod(rest) * size)
    ensures len == Prod([n] + rest) * size
  {
    assert ([n] + rest)[1..] == rest;
    assert n * (Prod(rest) * size) == (n * Prod(rest)) * size;
  }

  /** A non-empty selection whose bytes fill the shape exactly is
      reshaped, and swapped to native order when the file is big-endian. */
  lemma AssembleLoaded(plan: Plan, shape: seq<int>, kind: Kind, msb: bool, data: seq<byte>)
    requires plan.slices != [] && shape != []
    requires forall i :: 1 <= i < |shape| ==> shape[i] >= 0
    requires |data| == |plan.slices| * (Prod(shape[1..]) * ItemSize(kind))
    ensures Assemble(plan, shape, kind, msb, data)
         == Success(Loaded(NdArray([|plan.slices|] + shape[1..], kind,
                                   if msb then ByteSwap(data, ItemSize(kind)) else data)))
  {
    var dims := [|plan.slices|] + shape[1..];
    FillsShape(|plan.slices|, shape[1..], ItemSize(kind), |data|);
    forall i | 0 <= i < |dims|
      ensures dims[i] >= 0
    {
      if i > 0 {
        assert dims[i] == shape[i];
      }
    }
  }

  /** A plain read of one uncompressed data file that holds every slice,
      when the slice size does not wrap: the image has one z plane per
      selected slice and holds exactly the bytes of those slices, in native
      order. */
  lemma SingleFileLoad(plan: Plan, shape: seq<int>, kind: Kind, msb: bool,
                       files: map<string, seq<byte>>, rt: Runtime)
    requires |plan.paths| == 1 && !plan.compressed && plan.hasZ && plan.paths[0] in files
    requires plan.slices != [] && StrictlyIncreasing(plan.slices)
    requires forall i :: 0 <= i < |plan.slices| ==> 0 <= plan.slices[i] < plan.zdim
    requires plan.skip + plan.headerSize + Depth(plan) * (HeaderBytes(plan.perSlice) + plan.inc)
             <= |files[plan.paths[0]]|
    requires shape != [] && forall i :: 1 <= i < |shape| ==> shape[i] >= 0
    requires plan.inc == Prod(shape[1..]) * ItemSize(kind)
    ensures var bytes := Selected(files[plan.paths[0]], plan.skip + plan.headerSize,
                                  HeaderBytes(plan.perSlice), plan.inc, Selection(plan, 0));
      && |bytes| == |plan.slices| * plan.inc
      && LoadPlan(plan, shape, kind, msb, files, rt)
         == Success(Loaded(NdArray([|plan.slices|] + shape[1..], kind,
                                   if msb then ByteSwap(bytes, ItemSize(kind)) else bytes)))
  {
    SingleFilePayload(plan, files, rt);
    var bytes := Selected(files[plan.paths[0]], plan.skip + plan.headerSize, HeaderBytes(plan.perSlice),
                          plan.inc, Selection(plan, 0));
    AssembleLoaded(plan, shape, kind, msb, bytes);
  }

  /** An empty selection gives no image, though every data file is still
      opened and read. */
  lemma EmptySelectionNoImage(plan: Plan, shape: seq<int>, kind: Kind, msb: bool,
                              files: map<string, seq<byte>>, rt: Runtime)
    requires plan.slices == []
    ensures var payload := PayloadFrom(plan, files, 0, rt);
      LoadPlan(plan, shape, kind, msb, files, rt)
      == if payload.Success? then Success(NoImage) else Failure(payload.error)
  {
  }
}
