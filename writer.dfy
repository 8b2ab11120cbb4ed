/** The writer: `write` (writer.py:57-167) and its older form
    `write_image` (pymetaio/io.py:211-311). The metadata is filled in
    place: defaults, the caller's keys, the data file, the channel
    adjustment and the compressed size; each entry is then turned into a
    header line, the header is written line by line, and the payload is
    written after it or into its own file. */
module Writer {
  import opened Wrappers
  import opened Text
  import opened Tags
  import opened Values
  import opened Coerce
  import opened Header
  import Reader
  import opened Paths

  // ------------------------------------------------------------ defaults

  /** `np.ones(n)`. */
  function Ones(n: nat): seq<Real> {
    seq(n, _ => ONE)
  }

  /** The tags the writer gives a value before the caller's keys. */
  const DEFAULTED: seq<string> :=
    ["ObjectType", "NDims", "BinaryData", "BinaryDataByteOrderMSB", "ElementSpacing", "DimSize", "ElementType"]

  /** The value the writer gives the tag `k` before the caller's keys. */
  function DefaultValue(image: Option<NdArray>, k: string): Value {
    var n := if image.Some? then |image.value.shape| else 3;
    if k == "ObjectType" then Str("Image")
    else if k == "NDims" then Int(n)
    else if k == "BinaryData" then Bool(true)
    else if k == "BinaryDataByteOrderMSB" then Bool(false)
    else if k == "ElementSpacing" then FloatVec(Ones(n))
    else if k == "DimSize" then IntVec(if image.Some? then Reverse(image.value.shape) else [0, 0, 0])
    else if k == "ElementType" then Dtype(if image.Some? then image.value.kind else Float64)
    else Null
  }

  /** The metadata before the caller's keys (writer.py:60-74,
      pymetaio/io.py:214-227): every tag, unset except an image object of
      three dimensions, binary and little-endian, with unit spacing, an
      empty extent and `float` elements; with an image, its dimensions, its
      shape reversed and its element kind. Read back, the defaults give the
      image's shape. */
  function Defaults(image: Option<NdArray>): (d: Dict)
    ensures d.Valid() && d.keys == TAGS
    ensures forall k :: k !in DEFAULTED ==> d.Get(k) == Null
    ensures d.Get("ObjectType") == Str("Image") && d.Get("BinaryData") == Bool(true)
    ensures d.Get("BinaryDataByteOrderMSB") == Bool(false)
    ensures var n := if image.Some? then |image.value.shape| else 3;
      d.Get("NDims") == Int(n) && d.Get("ElementSpacing") == FloatVec(Ones(n))
    ensures d.Get("DimSize") == IntVec(if image.Some? then Reverse(image.value.shape) else [0, 0, 0])
    ensures d.Get("ElementType") == Dtype(if image.Some? then image.value.kind else Float64)
    ensures image.Some? ==> Reader.Shape(Current, d) == Success(image.value.shape)
  {
    var d := TagDict(image);
    DefaultsFlags(image, d);
    DefaultsDims(image, d);
    DefaultsShape(image, d);
    DefaultsUnset(image, d);
    if image.Some? then DefaultsRead(image, d); d else d
  }

  /** With an image, a dict holding the defaults is read back as its shape. */
  lemma DefaultsRead(image: Option<NdArray>, d: Dict)
    requires image.Some?
    requires forall k :: d.Get(k) == DefaultValue(image, k)
    ensures Reader.Shape(Current, d) == Success(image.value.shape)
  {
    DefaultsShape(image, d);
    assert d.Get("ElementNumberOfChannels") == DefaultValue(image, "ElementNumberOfChannels");
    ShapeOfReversed(d, image.value.shape);
  }

  lemma DefaultsFlags(image: Option<NdArray>, d: Dict)
    requires forall k :: d.Get(k) == DefaultValue(image, k)
    ensures d.Get("ObjectType") == Str("Image") && d.Get("BinaryData") == Bool(true)
    ensures d.Get("BinaryDataByteOrderMSB") == Bool(false)
  {
    assert d.Get("ObjectType") == DefaultValue(image, "ObjectType");
    assert d.Get("BinaryData") == DefaultValue(image, "BinaryData");
    assert d.Get("BinaryDataByteOrderMSB") == DefaultValue(image, "BinaryDataByteOrderMSB");
  }

  lemma DefaultsDims(image: Option<NdArray>, d: Dict)
    requires forall k :: d.Get(k) == DefaultValue(image, k)
    ensures var n := if image.Some? then |image.value.shape| else 3;
      d.Get("NDims") == Int(n) && d.Get("ElementSpacing") == FloatVec(Ones(n))
  {
    assert d.Get("NDims") == DefaultValue(image, "NDims");
    assert d.Get("ElementSpacing") == DefaultValue(image, "ElementSpacing");
  }

  lemma DefaultsShape(image: Option<NdArray>, d: Dict)
    requires forall k :: d.Get(k) == DefaultValue(image, k)
    ensures d.Get("DimSize") == IntVec(if image.Some? then Reverse(image.value.shape) else [0, 0, 0])
    ensures d.Get("ElementType") == Dtype(if image.Some? then image.value.kind else Float64)
  {
    assert d.Get("DimSize") == DefaultValue(image, "DimSize");
    assert d.Get("ElementType") == DefaultValue(image, "ElementType");
    DefaultDimSize(image);
    DefaultElementType(image);
  }

  lemma DefaultDimSize(image: Option<NdArray>)
    ensures DefaultValue(image, "DimSize") == IntVec(if image.Some? then Reverse(image.value.shape) else [0, 0, 0])
  {
  }

  lemma DefaultElementType(image: Option<NdArray>)
    ensures DefaultValue(image, "ElementType") == Dtype(if image.Some? then image.value.kind else Float64)
  {
  }

  lemma DefaultsUnset(image: Option<NdArray>, d: Dict)
    requires forall k :: d.Get(k) == DefaultValue(image, k)
    ensures forall k :: k !in DEFAULTED ==> d.Get(k) == Null
  {
    forall k | k !in DEFAULTED
      ensures d.Get(k) == Null
    {
      assert d.Get(k) == DefaultValue(image, k);
    }
  }

  /** A single-channel `DimSize` holding a shape reversed is read back as
      that shape. */
  lemma ShapeOfReversed(d: Dict, shape: seq<int>)
    requires d.Get("DimSize") == IntVec(Reverse(shape)) && d.Get("ElementNumberOfChannels") == Null
    ensures Reader.Shape(Current, d) == Success(shape)
  {
    ReverseReverse(shape);
    assert Reverse(Reverse(shape)) + [] == shape;
  }

  /** A dict holding every tag, in order, with its default value. */
  function TagDict(image: Option<NdArray>): (d: Dict)
    ensures d.Valid() && d.keys == TAGS
    ensures forall k :: d.Get(k) == DefaultValue(image, k)
  {
    TagsDistinct();
    DefaultedTags();
    Dict(TAGS, map k | k in TAGS :: DefaultValue(image, k))
  }

  /** Every defaulted name is a tag. */
  lemma DefaultedTags()
    ensures forall k :: k in DEFAULTED ==> k in TAGS
  {
    assert TAGS[1] == "ObjectType" && TAGS[4] == "NDims" && TAGS[10] == "BinaryData";
    assert TAGS[11] == "BinaryDataByteOrderMSB" && TAGS[22] == "ElementSpacing";
    assert TAGS[23] == "DimSize" && TAGS[32] == "ElementType";
  }

  // ----------------------------------------------------- the caller's keys

  /** The name a caller's key is stored under (writer.py:78-82,
      pymetaio/io.py:231-236): the table's spelling when it matches a tag
      ignoring case; otherwise the key itself in metaimageio, and nothing
      in pymetaio, which drops it. */
  function StoredName(gen: Generation, key: string): Option<string> {
    if gen == Current || Recognised(key) then Some(Canonical(key)) else None
  }

  /** The naming rule of a generation, as a function. */
  function Names(gen: Generation): string -> Option<string> {
    key => StoredName(gen, key)
  }

  /** One caller's key, stored under its name when it has one. */
  function Apply(meta: Dict, name: Option<string>, v: Value): Dict {
    if name.Some? then meta.Put(name.value, v) else meta
  }

  /** The caller's keys `ks` of `kw`, applied in order under the names
      `names` gives them. */
  function Overridden(meta: Dict, kw: Dict, ks: seq<string>, names: string -> Option<string>): Dict
    decreases |ks|
  {
    if ks == [] then meta
    else
      var key := ks[|ks| - 1];
      Apply(Overridden(meta, kw, ks[..|ks| - 1], names), names(key), kw.Get(key))
  }

  /** The override loop (writer.py:77-82, pymetaio/io.py:230-236). */
  method ApplyOverrides(gen: Generation, meta: MetaDict, kw: Dict)
    requires meta.Valid()
    modifies meta
    ensures meta.Valid()
    ensures meta.Snapshot() == Overridden(old(meta.Snapshot()), kw, kw.keys, Names(gen))
  {
    ghost var start := meta.Snapshot();
    var i := 0;
    while i < |kw.keys|
      invariant i <= |kw.keys| && meta.Valid()
      invariant meta.Snapshot() == Overridden(start, kw, kw.keys[..i], Names(gen))
    {
      var key := kw.keys[i];
      var name := StoredName(gen, key);
      if name.Some? {
        meta.Put(name.value, kw.Get(key));
      }
      assert kw.keys[..i + 1][..i] == kw.keys[..i];
      i := i + 1;
    }
    assert kw.keys[..i] == kw.keys;
  }

  /** Some key among `ks` is stored under `k`. */
  predicate Stored(k: string, ks: seq<string>, names: string -> Option<string>) {
    exists j :: 0 <= j < |ks| && names(ks[j]) == Some(k)
  }

  /** No key after `ks[j]` is stored under the same name. */
  predicate LastFor(ks: seq<string>, j: nat, names: string -> Option<string>)
    requires j < |ks|
  {
    forall i :: j < i < |ks| ==> names(ks[i]) != names(ks[j])
  }

  /** The keys stored by `ks` are those stored by all but its last, and
      the last one's. */
  lemma StoredStep(k: string, ks: seq<string>, names: string -> Option<string>)
    requires ks != []
    ensures Stored(k, ks, names) <==> Stored(k, ks[..|ks| - 1], names) || names(ks[|ks| - 1]) == Some(k)
  {
    var n := |ks| - 1;
    if Stored(k, ks[..n], names) {
      var j :| 0 <= j < n && names(ks[..n][j]) == Some(k);
      assert ks[j] == ks[..n][j];
    }
    if Stored(k, ks, names) {
      var j :| 0 <= j < |ks| && names(ks[j]) == Some(k);
      if j < n {
        assert ks[..n][j] == ks[j];
      }
    }
  }

  /** After the caller's keys, the dict is still well formed, the existing
      keys keep their order, new keys follow them, and a key is present
      exactly when it was before or a caller's key is stored under it. */
  lemma {:induction false} OverriddenKeys(meta: Dict, kw: Dict, ks: seq<string>, names: string -> Option<string>)
    requires meta.Valid()
    ensures var r := Overridden(meta, kw, ks, names);
      && r.Valid()
      && |meta.keys| <= |r.keys| && r.keys[..|meta.keys|] == meta.keys
      && (forall k :: r.Has(k) <==> meta.Has(k) || Stored(k, ks, names))
    decreases |ks|
  {
    if ks != [] {
      var n := |ks| - 1;
      OverriddenKeys(meta, kw, ks[..n], names);
      var m := Overridden(meta, kw, ks[..n], names);
      var name := names(ks[n]);
      if name.Some? {
        m.PutValid(name.value, kw.Get(ks[n]));
      }
      forall k {
        StoredStep(k, ks, names);
      }
    }
  }

  /** A key no caller's key is stored under keeps its value. */
  lemma {:induction false} OverriddenKeeps(meta: Dict, kw: Dict, ks: seq<string>, names: string -> Option<string>, k: string)
    requires !Stored(k, ks, names)
    ensures Overridden(meta, kw, ks, names).Get(k) == meta.Get(k)
    decreases |ks|
  {
    if ks != [] {
      StoredStep(k, ks, names);
      OverriddenKeeps(meta, kw, ks[..|ks| - 1], names, k);
    }
  }

  /** The last caller's key stored under a name gives that name its
      value. */
  lemma {:induction false} OverriddenLastWins(meta: Dict, kw: Dict, ks: seq<string>, names: string -> Option<string>, j: nat)
    requires j < |ks| && names(ks[j]).Some? && LastFor(ks, j, names)
    ensures Overridden(meta, kw, ks, names).Get(names(ks[j]).value) == kw.Get(ks[j])
    decreases |ks|
  {
    var n := |ks| - 1;
    var front := ks[..n];
    if j < n {
      assert front[j] == ks[j];
      assert LastFor(front, j, names) by {
        forall i | j < i < |front|
          ensures names(front[i]) != names(front[j])
        {
          assert front[i] == ks[i];
        }
      }
      OverriddenLastWins(meta, kw, front, names, j);
    }
  }

  /** pymetaio stores only table tags: starting from the table, the keys
      afterwards are exactly the tags. */
  lemma LegacyOnlyTags(meta: Dict, kw: Dict)
    requires meta.Valid() && meta.keys == TAGS
    ensures forall k :: Overridden(meta, kw, kw.keys, Names(Legacy)).Has(k) <==> IsTag(k)
  {
    OverriddenKeys(meta, kw, kw.keys, Names(Legacy));
    forall k | Stored(k, kw.keys, Names(Legacy))
      ensures IsTag(k)
    {
      var j :| 0 <= j < |kw.keys| && Names(Legacy)(kw.keys[j]) == Some(k);
      LegacyNamesTags(kw.keys[j]);
    }
  }

  lemma LegacyNamesTags(key: string)
    ensures StoredName(Legacy, key).Some? ==> IsTag(StoredName(Legacy, key).value)
  {
    CanonicalSpec(key);
  }

  // ----------------------------------------------------------- data file

  /** The sibling file name extension for the payload. */
  function RawSuffix(meta: Dict): string {
    if Truthy(meta.Get("CompressedData")) then ".zraw" else ".raw"
  }

  /** The default `ElementDataFile` (writer.py:85-89, pymetaio/io.py:239-243):
      `LOCAL` for a `.mha` header, otherwise the header path with the suffix
      `.zraw` or `.raw`, of which metaimageio keeps only the name.
      `with_suffix` raises `ValueError` for a path with an empty name. */
  function DataFileDefault(gen: Generation, meta: Dict, filepath: string): Result<Dict> {
    if meta.Get(ELEMENT_DATA_FILE) != Null then Success(meta)
    else if Suffix(filepath) == ".mha" then Success(meta.Put(ELEMENT_DATA_FILE, Str("LOCAL")))
    else
      var sibling :- WithSuffix(filepath, RawSuffix(meta));
      Success(meta.Put(ELEMENT_DATA_FILE, Str(if gen == Current then Name(sibling) else sibling)))
  }

  // ------------------------------------------------------------ channels

  /** `value[:-1]` on the values that support slicing; any other value
      raises `TypeError`. */
  function DropLast(v: Value): Result<Value> {
    match v
    case IntVec(ns) => Success(IntVec(if ns == [] then [] else ns[..|ns| - 1]))
    case FloatVec(xs) => Success(FloatVec(if xs == [] then [] else xs[..|xs| - 1]))
    case Str(s) => Success(Str(if s == [] then [] else s[..|s| - 1]))
    case Paths(ps) => Success(Paths(if ps == [] then [] else ps[..|ps| - 1]))
    case _ => Failure(Error(TypeError, UnexpectedValue))
  }

  /** The channel adjustment of metaimageio (writer.py:92-94): with more
      than one channel, `DimSize` loses its last entry and `NDims`
      decreases by one. pymetaio has no such step. */
  function Channels(gen: Generation, meta: Dict): Result<Dict> {
    if gen == Legacy then Success(meta)
    else match meta.Get("ElementNumberOfChannels")
      case Null => Success(meta)
      case Bool(_) => Success(meta)
      case Int(n) =>
        if n <= 1 then Success(meta)
        else
          var dims :- DropLast(meta.Get("DimSize"));
          var nd :- LessOne(meta.Get("NDims"));
          Success(meta.Put("DimSize", dims).Put("NDims", nd))
      case _ => Failure(Error(TypeError, UnexpectedValue))
  }

  /** `value - 1` on a scalar: an integer, or a bool, which Python counts
      as 0 or 1. */
  function LessOne(v: Value): Result<Value> {
    match v
    case Int(d) => Success(Int(d - 1))
    case Bool(b) => Success(Int(if b then 0 else -1))
    case _ => Failure(Error(TypeError, UnexpectedValue))
  }

  /** The adjustment drops the entry of the array's first axis: `DimSize`
      is the shape reversed, so its last entry is `shape[0]`, and what
      remains is the rest of the shape, reversed. */
  lemma ChannelsDropFirstAxis(meta: Dict, shape: seq<int>, c: int, d: int)
    requires shape != [] && c > 1
    requires meta.Get("DimSize") == IntVec(Reverse(shape))
    requires meta.Get("ElementNumberOfChannels") == Int(c) && meta.Get("NDims") == Int(d)
    ensures Channels(Current, meta).Success?
    ensures Channels(Current, meta).value.Get("DimSize") == IntVec(Reverse(shape[1..]))
    ensures Channels(Current, meta).value.Get("NDims") == Int(d - 1)
  {
    var r := Reverse(shape);
    assert r[..|r| - 1] == Reverse(shape[1..]);
  }

  /** A caller's bool `NDims` takes part in the subtraction as 0 or 1:
      `True - 1 == 0`, `False - 1 == -1`. */
  lemma ChannelsBoolDims(meta: Dict, c: int, b: bool)
    requires c > 1 && meta.Get("ElementNumberOfChannels") == Int(c) && meta.Get("NDims") == Bool(b)
    requires meta.Get("DimSize").IntVec?
    ensures Channels(Current, meta).Success?
    ensures Channels(Current, meta).value.Get("NDims") == Int(if b then 0 else -1)
    ensures Channels(Current, meta).value.Get("DimSize") == DropLast(meta.Get("DimSize")).value
  {
  }

  // ------------------------------------------------------------- payload

  /** Where the payload goes (writer.py:97-108, pymetaio/io.py:246-257):
      appended to the header file for `LOCAL`, otherwise into the named
      file. `.upper()` comes first, so a list of file names, or any value
      other than a string, fails there with `AttributeError`. */
  datatype Target = Target(path: string, append: bool)

  function DataTarget(meta: Dict, filepath: string): Result<Target> {
    match meta.Get(ELEMENT_DATA_FILE)
    case Str(s) => Success(if Upper(s) == "LOCAL" then Target(filepath, true) else Target(s, false))
    case _ => Failure(Error(AttributeError, DataFileNotAString))
  }

  /** zlib's level: 2 in metaimageio, the library default in pymetaio. */
  function Level(gen: Generation): int {
    if gen == Current then 2 else -1
  }

  /** The bytes written for the image (writer.py:113-119,
      pymetaio/io.py:298-304): byte-swapped when a byte-order flag is set,
      cast to `ElementType`, and compressed when `CompressedData` is set. */
  function Chunk(gen: Generation, meta: Dict, image: NdArray, rt: Runtime): Result<seq<byte>> {
    var et := meta.Get("ElementType");
    if !et.Dtype? then Failure(Error(TypeError, UnexpectedValue))
    else
      var native := if BigEndian(meta) then ByteSwap(image.data, ItemSize(image.kind)) else image.data;
      var raw := rt.cast(native, image.kind, et.kind);
      Success(if Truthy(meta.Get("CompressedData")) then rt.compress(Level(gen), raw) else raw)
  }

  /** `CompressedDataSize` set to `n` when compressing. */
  function WithSize(meta: Dict, n: int): Dict {
    if Truthy(meta.Get("CompressedData")) then meta.Put("CompressedDataSize", Int(n)) else meta
  }

  // -------------------------------------------------------- the header

  /** The header entries of the keys `ks`, in order (writer.py:123-148,
      pymetaio/io.py:260-283): unset tags are skipped, and the first value
      that cannot be written ends the loop with its error. */
  function Serialised(gen: Generation, meta: Dict, ks: seq<string>, rt: Runtime): Result<seq<(string, string)>>
    decreases |ks|
  {
    if ks == [] then Success([])
    else
      var front :- Serialised(gen, meta, ks[..|ks| - 1], rt);
      var k := ks[|ks| - 1];
      if meta.Get(k) == Null then Success(front)
      else
        var text :- CastOut(gen, k, meta.Get(k), rt);
        Success(front + [(k, text)])
  }

  /** The serialisation loop: `meta_out` built entry by entry. */
  method SerialiseEntries(gen: Generation, meta: Dict, rt: Runtime) returns (r: Result<seq<(string, string)>>)
    ensures r == Serialised(gen, meta, meta.keys, rt)
  {
    var out: seq<(string, string)> := [];
    var i := 0;
    while i < |meta.keys|
      invariant i <= |meta.keys|
      invariant Serialised(gen, meta, meta.keys[..i], rt) == Success(out)
    {
      var k := meta.keys[i];
      SerialisedStep(gen, meta, meta.keys, i, rt);
      if meta.Get(k) != Null {
        var text := CastOut(gen, k, meta.Get(k), rt);
        if text.Failure? {
          ghost var j := i + 1;
          FailureStays(gen, meta, meta.keys, j, rt);
          return Failure(text.error);
        }
        out := out + [(k, text.value)];
      }
      i := i + 1;
    }
    assert meta.keys[..i] == meta.keys;
    return Success(out);
  }

  /** One more key: skipped when unset, otherwise its text appended. */
  lemma SerialisedStep(gen: Generation, meta: Dict, ks: seq<string>, i: nat, rt: Runtime)
    requires i < |ks|
    ensures var prev := Serialised(gen, meta, ks[..i], rt);
      var k := ks[i];
      Serialised(gen, meta, ks[..i + 1], rt) ==
        if prev.Failure? || meta.Get(k) == Null then prev
        else if CastOut(gen, k, meta.Get(k), rt).Failure? then Failure(CastOut(gen, k, meta.Get(k), rt).error)
        else Success(prev.value + [(k, CastOut(gen, k, meta.Get(k), rt).value)])
  {
    assert ks[..i + 1][..i] == ks[..i];
  }

  /** A prefix that fails makes the whole list fail with the same error. */
  lemma {:induction false} FailureStays(gen: Generation, meta: Dict, ks: seq<string>, j: nat, rt: Runtime)
    requires j <= |ks| && Serialised(gen, meta, ks[..j], rt).Failure?
    ensures Serialised(gen, meta, ks, rt) == Serialised(gen, meta, ks[..j], rt)
    decreases |ks| - j
  {
    if j < |ks| {
      assert ks[..j + 1][..j] == ks[..j];
      FailureStays(gen, meta, ks, j + 1, rt);
    } else {
      assert ks[..j] == ks;
    }
  }

  /** The entries hold the set keys in their order, one entry per key,
      each with the text written for its value; they exist exactly when
      every set value can be written. */
  lemma {:induction false} SerialisedSpec(gen: Generation, meta: Dict, ks: seq<string>, rt: Runtime)
    ensures var r := Serialised(gen, meta, ks, rt);
      && (r.Success? <==> forall k :: k in ks && meta.Get(k) != Null ==> CastOut(gen, k, meta.Get(k), rt).Success?)
      && (r.Success? ==>
            && |r.value| <= |ks|
            && EntryKeys(r.value) == KeepNonNull(ks, meta.vals)
            && (Distinct(ks) ==> Distinct(EntryKeys(r.value)))
            && (forall e :: e in r.value ==> e.0 in ks && meta.Get(e.0) != Null
                                             && CastOut(gen, e.0, meta.Get(e.0), rt) == Success(e.1))
            && (forall k :: k in ks && meta.Get(k) != Null ==> exists e :: e in r.value && e.0 == k))
    decreases |ks|
  {
    SerialisedOk(gen, meta, ks, rt);
    SerialisedSound(gen, meta, ks, rt);
    SerialisedComplete(gen, meta, ks, rt);
    SerialisedKeys(gen, meta, ks, rt);
  }

  /** The keys of header entries, in order. */
  function EntryKeys(es: seq<(string, string)>): seq<string>
    decreases |es|
  {
    if es == [] then [] else EntryKeys(es[..|es| - 1]) + [es[|es| - 1].0]
  }

  /** The entries follow the order of the keys: one per key whose value is
      set, as `meta_out` keeps `meta`'s insertion order. */
  lemma {:induction false} SerialisedKeys(gen: Generation, meta: Dict, ks: seq<string>, rt: Runtime)
    ensures var r := Serialised(gen, meta, ks, rt);
      r.Success? ==> EntryKeys(r.value) == KeepNonNull(ks, meta.vals)
    decreases |ks|
  {
    var r := Serialised(gen, meta, ks, rt);
    if ks != [] && r.Success? {
      var n := |ks| - 1;
      var k := ks[n];
      var front := Serialised(gen, meta, ks[..n], rt);
      SerialisedKeys(gen, meta, ks[..n], rt);
      KeepNonNullAppend(ks[..n], [k], meta.vals);
      assert ks[..n] + [k] == ks;
      assert [k][1..] == [];
      if meta.Get(k) != Null {
        var e := (k, CastOut(gen, k, meta.Get(k), rt).value);
        assert r.value == front.value + [e];
        assert (front.value + [e])[..|front.value|] == front.value;
      }
    }
  }

  lemma {:induction false} SerialisedSound(gen: Generation, meta: Dict, ks: seq<string>, rt: Runtime)
    ensures var r := Serialised(gen, meta, ks, rt);
      r.Success? ==>
        && |r.value| <= |ks|
        && (forall e :: e in r.value ==> e.0 in ks && meta.Get(e.0) != Null
                                         && CastOut(gen, e.0, meta.Get(e.0), rt) == Success(e.1))
    decreases |ks|
  {
    if ks != [] {
      var n := |ks| - 1;
      SerialisedSound(gen, meta, ks[..n], rt);
      assert forall k :: k in ks[..n] ==> k in ks;
    }
  }

  lemma {:induction false} SerialisedComplete(gen: Generation, meta: Dict, ks: seq<string>, rt: Runtime)
    ensures var r := Serialised(gen, meta, ks, rt);
      r.Success? ==> forall k :: k in ks && meta.Get(k) != Null ==> exists e :: e in r.value && e.0 == k
    decreases |ks|
  {
    if ks != [] {
      var n := |ks| - 1;
      SerialisedComplete(gen, meta, ks[..n], rt);
      assert forall k :: k in ks <==> k in ks[..n] || k == ks[n] by {
        assert ks == ks[..n] + [ks[n]];
      }
    }
  }

  lemma {:induction false} SerialisedOk(gen: Generation, meta: Dict, ks: seq<string>, rt: Runtime)
    ensures Serialised(gen, meta, ks, rt).Success? <==>
              forall k :: k in ks && meta.Get(k) != Null ==> CastOut(gen, k, meta.Get(k), rt).Success?
    decreases |ks|
  {
    if ks != [] {
      var n := |ks| - 1;
      SerialisedOk(gen, meta, ks[..n], rt);
      assert forall k :: k in ks <==> k in ks[..n] || k == ks[n] by {
        assert ks == ks[..n] + [ks[n]];
      }
    }
  }

  /** One header line. */
  function Line(key: string, text: string): string {
    key + " = " + text + "\n"
  }

  /** The header file: each entry's line, encoded, in order. */
  function EncodedHeader(entries: seq<(string, string)>, rt: Runtime): seq<byte>
    decreases |entries|
  {
    if entries == [] then []
    else EncodedHeader(entries[..|entries| - 1], rt) + rt.encode(Line(entries[|entries| - 1].0, entries[|entries| - 1].1))
  }

  /** A written line reads back as its key, in the table's spelling, and
      the written text, when the key is not a comment, holds no `=`, and
      neither has surrounding whitespace. */
  lemma LineReadsBack(key: string, text: string)
    requires key != [] && key[0] != '#' && Trimmed(key) && Trimmed(text)
    requires forall i :: 0 <= i < |key| ==> key[i] != '='
    ensures var h := ParseLine(Line(key, text));
      && !h.skipped && h.key == Canonical(key) && h.value == text
  {
    SplitAssignment(key, text);
    LineNotComment(key, text);
  }

  lemma LineNotComment(key: string, text: string)
    requires key != [] && key[0] != '#'
    ensures Line(key, text) != "" && !StartsWith(Line(key, text), "#")
  {
    assert Line(key, text)[0] == key[0];
  }

  /** A table tag is read back as itself. */
  lemma TagLineReadsBack(i: nat, text: string)
    requires i < |TAGS| && Trimmed(text)
    requires TAGS[i] != [] && TAGS[i][0] != '#' && Trimmed(TAGS[i])
    requires forall j :: 0 <= j < |TAGS[i]| ==> TAGS[i][j] != '='
    ensures ParseLine(Line(TAGS[i], text)).key == TAGS[i]
  {
    LineReadsBack(TAGS[i], text);
    CanonicalOfTag(i);
  }

  // ------------------------------------------------------------- writing

  /** The files of a directory, by path, and the two ways the writer opens
      them: truncated (`'w'`, `'wb'`) or at their end (`'ab'`). */
  class Disk {
    var files: map<string, seq<byte>>

    constructor (files: map<string, seq<byte>>)
      ensures this.files == files
    {
      this.files := files;
    }

    method Create(path: string)
      modifies this
      ensures files == old(files)[path := []]
    {
      files := files[path := []];
    }

    method Append(path: string, data: seq<byte>)
      modifies this
      ensures files == old(files)[path := Contents(old(files), path) + data]
    {
      files := files[path := Contents(files, path) + data];
    }
  }

  /** A file's content, empty when it does not exist yet. */
  function Contents(files: map<string, seq<byte>>, path: string): seq<byte> {
    if path in files then files[path] else []
  }

  /** The payload stored at its target. */
  function Store(files: map<string, seq<byte>>, t: Target, data: seq<byte>): map<string, seq<byte>> {
    files[t.path := (if t.append then Contents(files, t.path) else []) + data]
  }

  /** The header write (writer.py:151-153, pymetaio/io.py:286-288): the
      file is truncated and each line is written in turn. */
  method WriteHeader(disk: Disk, filepath: string, entries: seq<(string, string)>, rt: Runtime)
    modifies disk
    ensures disk.files == old(disk.files)[filepath := EncodedHeader(entries, rt)]
  {
    disk.Create(filepath);
    var i := 0;
    while i < |entries|
      invariant i <= |entries|
      invariant disk.files == old(disk.files)[filepath := EncodedHeader(entries[..i], rt)]
    {
      disk.Append(filepath, rt.encode(Line(entries[i].0, entries[i].1)));
      assert entries[..i + 1][..i] == entries[..i];
      i := i + 1;
    }
    assert entries[..i] == entries;
  }

  /** The payload write (writer.py:157-162, pymetaio/io.py:294-306). */
  method StoreChunk(disk: Disk, t: Target, data: seq<byte>)
    modifies disk
    ensures disk.files == Store(old(disk.files), t, data)
  {
    if !t.append {
      disk.Create(t.path);
    }
    disk.Append(t.path, data);
  }

  /** What a write leaves: its result and the files. */
  datatype Outcome = Outcome(result: Result<Dict>, files: map<string, seq<byte>>)

  /** The metadata once defaults, the caller's keys, the data file and the
      channels are settled (writer.py:60-94, pymetaio/io.py:214-243). */
  function Metadata(gen: Generation, filepath: string, image: Option<NdArray>, kw: Dict): (r: Result<Dict>)
    ensures r.Success? ==> r.value.Valid()
  {
    OverriddenKeys(Defaults(image), kw, kw.keys, Names(gen));
    var m := Overridden(Defaults(image), kw, kw.keys, Names(gen));
    DataFileDefaultValid(gen, m, filepath);
    var d :- DataFileDefault(gen, m, filepath);
    ChannelsValid(gen, d);
    Channels(gen, d)
  }

  lemma DataFileDefaultValid(gen: Generation, meta: Dict, filepath: string)
    requires meta.Valid()
    ensures DataFileDefault(gen, meta, filepath).Success? ==> DataFileDefault(gen, meta, filepath).value.Valid()
  {
    var d := DataFileDefault(gen, meta, filepath);
    if d.Success? && d.value != meta {
      meta.PutValid(ELEMENT_DATA_FILE, d.value.Get(ELEMENT_DATA_FILE));
    }
  }

  lemma ChannelsValid(gen: Generation, meta: Dict)
    requires meta.Valid()
    ensures Channels(gen, meta).Success? ==> Channels(gen, meta).value.Valid()
  {
    var r := Channels(gen, meta);
    if r.Success? && r.value != meta {
      var dims := DropLast(meta.Get("DimSize")).value;
      meta.PutValid("DimSize", dims);
      meta.Put("DimSize", dims).PutValid("NDims", r.value.Get("NDims"));
    }
  }

  /** `CompressedDataSize` assignments keep the dict well formed. */
  lemma WithSizeValid(meta: Dict, n: int)
    requires meta.Valid()
    ensures WithSize(meta, n).Valid()
  {
    if Truthy(meta.Get("CompressedData")) {
      meta.PutValid("CompressedDataSize", Int(n));
    }
  }

  /** The size counted for one payload: zeroed, then increased by its
      length. */
  function Counted(meta: Dict, chunk: seq<byte>): (r: Dict)
    requires meta.Valid()
    ensures r.Valid()
  {
    WithSizeValid(meta, 0);
    WithSizeValid(WithSize(meta, 0), |chunk|);
    WithSize(WithSize(meta, 0), |chunk|)
  }

  /** The header alone, written when there is no image. */
  function HeaderOnly(gen: Generation, filepath: string, meta: Dict, rt: Runtime,
                      files: map<string, seq<byte>>): Outcome
    requires meta.Valid()
  {
    var es := Serialised(gen, meta, meta.keys, rt);
    if es.Failure? then Outcome(Failure(es.error), files)
    else Outcome(Success(WithoutNulls(meta)), files[filepath := EncodedHeader(es.value, rt)])
  }

  /** metaimageio with an image: the payload and its size come first, then
      the header, then the payload; every error comes before any file is
      touched. */
  function WriteCurrent(filepath: string, meta: Dict, image: NdArray, t: Target, rt: Runtime,
                        files: map<string, seq<byte>>): Outcome
    requires meta.Valid()
  {
    var chunk := Chunk(Current, WithSize(meta, 0), image, rt);
    if chunk.Failure? then Outcome(Failure(chunk.error), files)
    else
      var m := Counted(meta, chunk.value);
      var es := Serialised(Current, m, m.keys, rt);
      if es.Failure? then Outcome(Failure(es.error), files)
      else Outcome(Success(WithoutNulls(m)),
                   Store(files[filepath := EncodedHeader(es.value, rt)], t, chunk.value))
  }

  /** pymetaio with an image: the header is written first, with the size
      the caller gave; the payload, its size and its file come after, so a
      payload error leaves the header written. */
  function WriteLegacy(filepath: string, meta: Dict, image: NdArray, t: Target, rt: Runtime,
                       files: map<string, seq<byte>>): Outcome
    requires meta.Valid()
  {
    var es := Serialised(Legacy, meta, meta.keys, rt);
    if es.Failure? then Outcome(Failure(es.error), files)
    else
      var written := files[filepath := EncodedHeader(es.value, rt)];
      var chunk := Chunk(Legacy, WithSize(meta, 0), image, rt);
      if chunk.Failure? then Outcome(Failure(chunk.error), written)
      else Outcome(Success(WithoutNulls(Counted(meta, chunk.value))), Store(written, t, chunk.value))
  }

  /** `write` (writer.py:57-167) and `write_image` (pymetaio/io.py:211-311)
      on the directory `files`: the metadata, then the writes each
      generation makes in its own order. */
  function WriteSpec(gen: Generation, filepath: string, image: Option<NdArray>, kw: Dict,
                     rt: Runtime, files: map<string, seq<byte>>): Outcome {
    WriteFrom(gen, filepath, image, Metadata(gen, filepath, image, kw), rt, files)
  }

  /** The writes once the metadata is settled, or its error. */
  function WriteFrom(gen: Generation, filepath: string, image: Option<NdArray>, meta: Result<Dict>,
                     rt: Runtime, files: map<string, seq<byte>>): Outcome
    requires meta.Success? ==> meta.value.Valid()
  {
    if meta.Failure? then Outcome(Failure(meta.error), files)
    else if image.None? then HeaderOnly(gen, filepath, meta.value, rt, files)
    else
      var t := DataTarget(meta.value, filepath);
      if t.Failure? then Outcome(Failure(t.error), files)
      else if gen == Current then WriteCurrent(filepath, meta.value, image.value, t.value, rt, files)
      else WriteLegacy(filepath, meta.value, image.value, t.value, rt, files)
  }

  /** The default data file, set in place; on an error the dict is left
      as it was. */
  method SetDataFile(gen: Generation, meta: MetaDict, filepath: string) returns (r: Result<Dict>)
    requires meta.Valid()
    modifies meta
    ensures r == DataFileDefault(gen, old(meta.Snapshot()), filepath)
    ensures r.Success? ==> meta.Valid() && meta.Snapshot() == r.value
    ensures r.Failure? ==> meta.Snapshot() == old(meta.Snapshot())
  {
    var d := meta.Snapshot();
    r := Success(d);
    if d.Get(ELEMENT_DATA_FILE) == Null {
      if Suffix(filepath) == ".mha" {
        meta.Put(ELEMENT_DATA_FILE, Str("LOCAL"));
      } else {
        var sibling := WithSuffix(filepath, RawSuffix(d));
        if sibling.Failure? {
          return Failure(sibling.error);
        }
        meta.Put(ELEMENT_DATA_FILE, Str(if gen == Current then Name(sibling.value) else sibling.value));
      }
      r := Success(meta.Snapshot());
    }
  }

  /** The channel adjustment, in place; on an error the dict is left as it
      was. */
  method AdjustChannels(gen: Generation, meta: MetaDict) returns (r: Result<Dict>)
    requires meta.Valid()
    modifies meta
    ensures r == Channels(gen, old(meta.Snapshot()))
    ensures r.Success? ==> meta.Valid() && meta.Snapshot() == r.value
    ensures r.Failure? ==> meta.Snapshot() == old(meta.Snapshot())
  {
    r := Channels(gen, meta.Snapshot());
    if r.Success? && r.value != meta.Snapshot() {
      var d := meta.Snapshot();
      meta.Put("DimSize", r.value.Get("DimSize"));
      meta.Put("NDims", r.value.Get("NDims"));
      assert meta.Snapshot() == d.Put("DimSize", r.value.Get("DimSize")).Put("NDims", r.value.Get("NDims"));
    }
  }

  /** `CompressedDataSize` set in place when compressing. */
  method SetSize(meta: MetaDict, n: int)
    requires meta.Valid()
    modifies meta
    ensures meta.Valid() && meta.Snapshot() == WithSize(old(meta.Snapshot()), n)
  {
    if Truthy(meta.Snapshot().Get("CompressedData")) {
      meta.Put("CompressedDataSize", Int(n));
    }
  }

  /** `write` and `write_image`: the metadata is built in one dict, updated
      in place, and the files are written in each generation's order. */
  method Write(gen: Generation, filepath: string, image: Option<NdArray>, kw: Dict, rt: Runtime, disk: Disk)
    returns (r: Result<Dict>)
    modifies disk
    ensures r == WriteSpec(gen, filepath, image, kw, rt, old(disk.files)).result
    ensures disk.files == WriteSpec(gen, filepath, image, kw, rt, old(disk.files)).files
  {
    var meta, adjusted := BuildMetadata(gen, filepath, image, kw);
    r := WriteWith(gen, filepath, image, meta, adjusted, rt, disk);
  }

  /** The writes, from the settled metadata held in `meta`. */
  method WriteWith(gen: Generation, filepath: string, image: Option<NdArray>, meta: MetaDict,
                   adjusted: Result<Dict>, rt: Runtime, disk: Disk)
    returns (r: Result<Dict>)
    requires adjusted.Success? ==> meta.Valid() && meta.Snapshot() == adjusted.value
    modifies meta, disk
    ensures r == WriteFrom(gen, filepath, image, adjusted, rt, old(disk.files)).result
    ensures disk.files == WriteFrom(gen, filepath, image, adjusted, rt, old(disk.files)).files
  {
    if adjusted.Failure? {
      return Failure(adjusted.error);
    }
    if image.None? {
      r := WriteHeaderOnly(gen, filepath, meta, rt, disk);
      return;
    }
    var t := DataTarget(meta.Snapshot(), filepath);
    if t.Failure? {
      return Failure(t.error);
    }
    if gen == Current {
      r := WriteWithImageCurrent(filepath, meta, image.value, t.value, rt, disk);
    } else {
      r := WriteWithImageLegacy(filepath, meta, image.value, t.value, rt, disk);
    }
  }

  /** The metadata phase, in one fresh dict. */
  method BuildMetadata(gen: Generation, filepath: string, image: Option<NdArray>, kw: Dict)
    returns (meta: MetaDict, r: Result<Dict>)
    ensures fresh(meta) && r == Metadata(gen, filepath, image, kw)
    ensures r.Success? ==> meta.Valid() && meta.Snapshot() == r.value
  {
    meta := new MetaDict(Defaults(image));
    ApplyOverrides(gen, meta, kw);
    OverriddenKeys(Defaults(image), kw, kw.keys, Names(gen));
    r := SetDataFile(gen, meta, filepath);
    if r.Success? {
      r := AdjustChannels(gen, meta);
    }
  }

  /** The header alone. */
  method WriteHeaderOnly(gen: Generation, filepath: string, meta: MetaDict, rt: Runtime, disk: Disk)
    returns (r: Result<Dict>)
    requires meta.Valid()
    modifies disk
    ensures r == HeaderOnly(gen, filepath, meta.Snapshot(), rt, old(disk.files)).result
    ensures disk.files == HeaderOnly(gen, filepath, meta.Snapshot(), rt, old(disk.files)).files
  {
    var entries := SerialiseEntries(gen, meta.Snapshot(), rt);
    if entries.Failure? {
      return Failure(entries.error);
    }
    WriteHeader(disk, filepath, entries.value, rt);
    r := Success(WithoutNulls(meta.Snapshot()));
  }

  /** metaimageio's order: payload and size, header, payload file. */
  method WriteWithImageCurrent(filepath: string, meta: MetaDict, image: NdArray, t: Target, rt: Runtime, disk: Disk)
    returns (r: Result<Dict>)
    requires meta.Valid()
    modifies meta, disk
    ensures r == WriteCurrent(filepath, old(meta.Snapshot()), image, t, rt, old(disk.files)).result
    ensures disk.files == WriteCurrent(filepath, old(meta.Snapshot()), image, t, rt, old(disk.files)).files
  {
    SetSize(meta, 0);
    var chunk := Chunk(Current, meta.Snapshot(), image, rt);
    if chunk.Failure? {
      return Failure(chunk.error);
    }
    SetSize(meta, |chunk.value|);
    var entries := SerialiseEntries(Current, meta.Snapshot(), rt);
    if entries.Failure? {
      return Failure(entries.error);
    }
    WriteHeader(disk, filepath, entries.value, rt);
    StoreChunk(disk, t, chunk.value);
    r := Success(WithoutNulls(meta.Snapshot()));
  }

  /** pymetaio's order: header, then payload, size and payload file. */
  method WriteWithImageLegacy(filepath: string, meta: MetaDict, image: NdArray, t: Target, rt: Runtime, disk: Disk)
    returns (r: Result<Dict>)
    requires meta.Valid()
    modifies meta, disk
    ensures r == WriteLegacy(filepath, old(meta.Snapshot()), image, t, rt, old(disk.files)).result
    ensures disk.files == WriteLegacy(filepath, old(meta.Snapshot()), image, t, rt, old(disk.files)).files
  {
    var entries := SerialiseEntries(Legacy, meta.Snapshot(), rt);
    if entries.Failure? {
      return Failure(entries.error);
    }
    WriteHeader(disk, filepath, entries.value, rt);
    SetSize(meta, 0);
    var chunk := Chunk(Legacy, meta.Snapshot(), image, rt);
    if chunk.Failure? {
      return Failure(chunk.error);
    }
    SetSize(meta, |chunk.value|);
    StoreChunk(disk, t, chunk.value);
    r := Success(WithoutNulls(meta.Snapshot()));
  }

  // ---------------------------------------------------------- properties

  /** metaimageio raises every error before it opens a file: a failed
      write leaves the directory as it was. */
  lemma CurrentFailureWritesNothing(filepath: string, image: Option<NdArray>, meta: Result<Dict>, rt: Runtime,
                                    files: map<string, seq<byte>>)
    requires meta.Success? ==> meta.value.Valid()
    requires WriteFrom(Current, filepath, image, meta, rt, files).result.Failure?
    ensures WriteFrom(Current, filepath, image, meta, rt, files).files == files
  {
    if meta.Success? && image.Some? && DataTarget(meta.value, filepath).Success? {
      var t := DataTarget(meta.value, filepath).value;
      assert WriteFrom(Current, filepath, image, meta, rt, files)
          == WriteCurrent(filepath, meta.value, image.value, t, rt, files);
    }
  }

  /** pymetaio can fail after writing the header: a failed write changes at
      most the header file. */
  lemma LegacyFailureWritesHeaderOnly(filepath: string, image: Option<NdArray>, meta: Result<Dict>, rt: Runtime,
                                      files: map<string, seq<byte>>)
    requires meta.Success? ==> meta.value.Valid()
    requires WriteFrom(Legacy, filepath, image, meta, rt, files).result.Failure?
    ensures var after := WriteFrom(Legacy, filepath, image, meta, rt, files).files;
      after == files || (filepath in after && after == files[filepath := after[filepath]])
  {
    if meta.Success? && image.Some? && DataTarget(meta.value, filepath).Success? {
      var t := DataTarget(meta.value, filepath).value;
      assert WriteFrom(Legacy, filepath, image, meta, rt, files)
          == WriteLegacy(filepath, meta.value, image.value, t, rt, files);
    }
  }

  /** The payload is at the end of its file, and is all of it unless it is
      appended to the header. */
  lemma StoredAtEnd(files: map<string, seq<byte>>, t: Target, data: seq<byte>)
    ensures var after := Store(files, t, data);
      && t.path in after && |data| <= |after[t.path]|
      && after[t.path][|after[t.path]| - |data|..] == data
      && (!t.append ==> after[t.path] == data)
  {
    var after := Store(files, t, data);
    var prefix := if t.append then Contents(files, t.path) else [];
    assert after[t.path] == prefix + data;
    assert (prefix + data)[|prefix|..] == data;
  }

  /** With compression, the counted size is the payload's length and the
      returned dict keeps it. */
  lemma CountedSize(meta: Dict, chunk: seq<byte>)
    requires meta.Valid() && Truthy(meta.Get("CompressedData"))
    ensures Counted(meta, chunk).Get("CompressedDataSize") == Int(|chunk|)
    ensures WithoutNulls(Counted(meta, chunk)).Get("CompressedDataSize") == Int(|chunk|)
  {
    var m := Counted(meta, chunk);
    meta.PutValid("CompressedDataSize", Int(0));
    assert m.Get("CompressedDataSize") == Int(|chunk|);
    assert m.Has("CompressedDataSize");
  }

  /** The recorded size is the payload's: with compression, the returned
      `CompressedDataSize` is the length of the bytes stored at the end of
      the payload file, which holds nothing else unless it is the header
      file itself. */
  lemma RecordedSizeIsPayload(gen: Generation, filepath: string, meta: Dict, image: NdArray, t: Target,
                              rt: Runtime, files: map<string, seq<byte>>)
    requires meta.Valid() && Truthy(meta.Get("CompressedData"))
    requires var out := WriteFrom(gen, filepath, Some(image), Success(meta), rt, files);
      out.result.Success? && DataTarget(meta, filepath) == Success(t)
    ensures var out := WriteFrom(gen, filepath, Some(image), Success(meta), rt, files);
      var chunk := Chunk(gen, WithSize(meta, 0), image, rt).value;
      && out.result.value.Get("CompressedDataSize") == Int(|chunk|)
      && t.path in out.files && |chunk| <= |out.files[t.path]|
      && out.files[t.path][|out.files[t.path]| - |chunk|..] == chunk
      && (!t.append ==> out.files[t.path] == chunk)
  {
    var chunk := Chunk(gen, WithSize(meta, 0), image, rt).value;
    CountedSize(meta, chunk);
    var es := Serialised(gen, meta, meta.keys, rt);
    if gen == Current {
      var m := Counted(meta, chunk);
      var header := EncodedHeader(Serialised(Current, m, m.keys, rt).value, rt);
      StoredAtEnd(files[filepath := header], t, chunk);
    } else {
      StoredAtEnd(files[filepath := EncodedHeader(es.value, rt)], t, chunk);
    }
  }

  /** metaimageio writes the size into the header: the header's entries
      hold `CompressedDataSize` as the payload's length. */
  lemma CurrentHeaderRecordsSize(filepath: string, meta: Dict, image: NdArray, t: Target, rt: Runtime,
                                 files: map<string, seq<byte>>)
    requires meta.Valid() && Truthy(meta.Get("CompressedData"))
    requires WriteCurrent(filepath, meta, image, t, rt, files).result.Success?
    ensures var chunk := Chunk(Current, WithSize(meta, 0), image, rt).value;
      var m := Counted(meta, chunk);
      && Serialised(Current, m, m.keys, rt).Success?
      && ("CompressedDataSize", FormatInt(|chunk|)) in Serialised(Current, m, m.keys, rt).value
  {
    var chunk := Chunk(Current, WithSize(meta, 0), image, rt).value;
    CountedSize(meta, chunk);
    var m := Counted(meta, chunk);
    SizeEntry(Current, m, |chunk|, rt);
  }

  /** A set integer size is written as its decimal text. */
  lemma SizeEntry(gen: Generation, m: Dict, n: int, rt: Runtime)
    requires m.Valid() && m.Get("CompressedDataSize") == Int(n)
    requires Serialised(gen, m, m.keys, rt).Success?
    ensures ("CompressedDataSize", FormatInt(n)) in Serialised(gen, m, m.keys, rt).value
  {
    assert "CompressedDataSize" in m.keys;
    SerialisedSpec(gen, m, m.keys, rt);
    var es := Serialised(gen, m, m.keys, rt).value;
    var e :| e in es && e.0 == "CompressedDataSize";
    SizeIsInteger();
  }

  /** `CompressedDataSize` is an integer tag. */
  lemma SizeIsInteger()
    ensures CategoryOf("CompressedDataSize") == IntegerTag
  {
  }

  /** pymetaio counts the compressed size after writing the header: when
      the caller gave none, the header has no `CompressedDataSize` entry
      although the returned dict holds the payload's length. */
  lemma LegacyHeaderMissesSize(filepath: string, meta: Dict, image: NdArray, t: Target, rt: Runtime,
                               files: map<string, seq<byte>>)
    requires meta.Valid() && Truthy(meta.Get("CompressedData")) && meta.Get("CompressedDataSize") == Null
    requires WriteLegacy(filepath, meta, image, t, rt, files).result.Success?
    ensures var chunk := Chunk(Legacy, WithSize(meta, 0), image, rt).value;
      && WriteLegacy(filepath, meta, image, t, rt, files).result.value.Get("CompressedDataSize") == Int(|chunk|)
      && forall e :: e in Serialised(Legacy, meta, meta.keys, rt).value ==> e.0 != "CompressedDataSize"
  {
    var chunk := Chunk(Legacy, WithSize(meta, 0), image, rt).value;
    var m := Counted(meta, chunk);
    meta.PutValid("CompressedDataSize", Int(0));
    assert m.Get("CompressedDataSize") == Int(|chunk|);
    SerialisedSpec(Legacy, meta, meta.keys, rt);
  }

  /** The default data file is named after the header: `LOCAL` for a
      `.mha` header, otherwise the header's stem with `.raw` or `.zraw`, as
      a bare name in metaimageio and in the header's directory in pymetaio.
      A header path with an empty name (`""`, `.`, `/`) that is not `.mha`
      is a `ValueError`. A data file the caller gave is kept. */
  lemma DataFileNamedAfterHeader(gen: Generation, meta: Dict, filepath: string)
    ensures meta.Get(ELEMENT_DATA_FILE) != Null ==> DataFileDefault(gen, meta, filepath) == Success(meta)
    ensures meta.Get(ELEMENT_DATA_FILE) == Null && Suffix(filepath) == ".mha" ==>
      DataFileDefault(gen, meta, filepath) == Success(meta.Put(ELEMENT_DATA_FILE, Str("LOCAL")))
    ensures meta.Get(ELEMENT_DATA_FILE) == Null && Suffix(filepath) != ".mha" && Name(filepath) == "" ==>
      DataFileDefault(gen, meta, filepath) == Failure(Error(ValueError, EmptyName))
    ensures meta.Get(ELEMENT_DATA_FILE) == Null && Suffix(filepath) != ".mha" && Name(filepath) != "" ==>
      DataFileDefault(gen, meta, filepath).Success?
    ensures meta.Get(ELEMENT_DATA_FILE) == Null && Suffix(filepath) != ".mha" && Name(filepath) != "" && gen == Current ==>
      DataFileDefault(gen, meta, filepath).value.Get(ELEMENT_DATA_FILE) ==
        Str(Name(filepath)[..|Name(filepath)| - |Suffix(filepath)|] + RawSuffix(meta))
    ensures meta.Get(ELEMENT_DATA_FILE) == Null && Suffix(filepath) != ".mha" && Name(filepath) != "" && gen == Legacy ==>
      var v := DataFileDefault(gen, meta, filepath).value.Get(ELEMENT_DATA_FILE);
      && v.Str?
      && Name(v.s) == Name(filepath)[..|Name(filepath)| - |Suffix(filepath)|] + RawSuffix(meta)
      && Root(v.s) == Root(filepath)
      && Parts(v.s)[..|Parts(v.s)| - 1] == Parts(filepath)[..|Parts(filepath)| - 1]
  {
    SiblingName(filepath, RawSuffix(meta));
  }

  /** metaimageio names the default data file after the header's name
      alone, so a trailing slash on the header path changes nothing:
      `out/` gives `out.raw`. */
  lemma DataFileTrailingSlash(meta: Dict, filepath: string)
    ensures DataFileDefault(Current, meta, filepath + "/") == DataFileDefault(Current, meta, filepath)
  {
    NameTrailingSlash(filepath);
    SiblingName(filepath, RawSuffix(meta));
    SiblingName(filepath + "/", RawSuffix(meta));
  }

  /** With several channels, the reader sees the written image without its
      first axis and with the channel count appended: a channel image
      written by metaimageio does not read back with its own shape. */
  lemma ChannelsReadBack(meta: Dict, shape: seq<int>, c: int, d: int)
    requires shape != [] && c > 1
    requires meta.Get("DimSize") == IntVec(Reverse(shape))
    requires meta.Get("ElementNumberOfChannels") == Int(c) && meta.Get("NDims") == Int(d)
    ensures Channels(Current, meta).Success?
    ensures Reader.Shape(Current, Channels(Current, meta).value) == Success(shape[1..] + [c])
  {
    ChannelsDropFirstAxis(meta, shape, c, d);
    ReverseReverse(shape[1..]);
  }

  // ------------------------------------------------------- header order

  /** The settled metadata holds every tag first, in the table's order,
      then, once each, the names the caller's keys are stored under that
      are not tags; pymetaio has no such names (writer.py:60-94,
      pymetaio/io.py:214-243). */
  lemma MetadataKeys(gen: Generation, filepath: string, image: Option<NdArray>, kw: Dict)
    requires Metadata(gen, filepath, image, kw).Success?
    ensures var m := Metadata(gen, filepath, image, kw).value;
      |TAGS| <= |m.keys| && m.keys[..|TAGS|] == TAGS
    ensures var extra := Metadata(gen, filepath, image, kw).value.keys[|TAGS|..];
      && Distinct(extra)
      && (forall k :: k in extra <==> k !in TAGS && Stored(k, kw.keys, Names(gen)))
      && (gen == Legacy ==> extra == [])
  {
    MetadataKeepsKeys(gen, filepath, image, kw);
    OverriddenExtra(Defaults(image), kw, Names(gen));
    var extra := Overridden(Defaults(image), kw, kw.keys, Names(gen)).keys[|TAGS|..];
    if gen == Legacy && extra != [] {
      LegacyStoredTag(kw.keys, extra[0]);
    }
  }

  /** Starting from every tag, the caller's keys add the names they are
      stored under that are not tags, after the tags and each once. */
  lemma OverriddenExtra(d: Dict, kw: Dict, names: string -> Option<string>)
    requires d.Valid() && d.keys == TAGS
    ensures var o := Overridden(d, kw, kw.keys, names);
      && |TAGS| <= |o.keys| && o.keys[..|TAGS|] == TAGS
      && Distinct(o.keys[|TAGS|..])
      && (forall k :: k in o.keys[|TAGS|..] <==> k !in TAGS && Stored(k, kw.keys, names))
  {
    OverriddenKeys(d, kw, kw.keys, names);
    TagsFirst(Overridden(d, kw, kw.keys, names));
  }

  /** pymetaio stores a caller's key only under a tag. */
  lemma LegacyStoredTag(ks: seq<string>, k: string)
    requires Stored(k, ks, Names(Legacy))
    ensures k in TAGS
  {
    var j :| 0 <= j < |ks| && Names(Legacy)(ks[j]) == Some(k);
    LegacyNamesTags(ks[j]);
  }

  /** Settling the data file and the channels only assigns tags, which
      the dict already holds: the keys are those after the caller's. */
  lemma MetadataKeepsKeys(gen: Generation, filepath: string, image: Option<NdArray>, kw: Dict)
    requires Metadata(gen, filepath, image, kw).Success?
    ensures Metadata(gen, filepath, image, kw).value.keys == Overridden(Defaults(image), kw, kw.keys, Names(gen)).keys
  {
    var o := Overridden(Defaults(image), kw, kw.keys, Names(gen));
    OverriddenKeys(Defaults(image), kw, kw.keys, Names(gen));
    DataFileIsTag();
    DefaultedTags();
    SettledKeys(gen, o, filepath);
  }

  lemma SettledKeys(gen: Generation, meta: Dict, filepath: string)
    requires meta.Has(ELEMENT_DATA_FILE) && meta.Has("DimSize") && meta.Has("NDims")
    ensures var d := DataFileDefault(gen, meta, filepath);
      d.Success? && Channels(gen, d.value).Success? ==> Channels(gen, d.value).value.keys == meta.keys
  {
    DataFileDefaultKeys(gen, meta, filepath);
    var d := DataFileDefault(gen, meta, filepath);
    if d.Success? {
      ChannelsKeys(gen, d.value);
    }
  }

  lemma DataFileDefaultKeys(gen: Generation, meta: Dict, filepath: string)
    requires meta.Has(ELEMENT_DATA_FILE)
    ensures var d := DataFileDefault(gen, meta, filepath);
      d.Success? ==> d.value.keys == meta.keys && d.value.Has("DimSize") == meta.Has("DimSize") && d.value.Has("NDims") == meta.Has("NDims")
  {
  }

  lemma ChannelsKeys(gen: Generation, meta: Dict)
    requires meta.Has("DimSize") && meta.Has("NDims")
    ensures Channels(gen, meta).Success? ==> Channels(gen, meta).value.keys == meta.keys
  {
  }

  /** In a dict that starts with every tag, the keys after the tags are
      the other keys it holds, each once. */
  lemma TagsFirst(m: Dict)
    requires m.Valid() && |TAGS| <= |m.keys| && m.keys[..|TAGS|] == TAGS
    ensures Distinct(m.keys[|TAGS|..])
    ensures forall k :: k in m.keys[|TAGS|..] <==> m.Has(k) && k !in TAGS
  {
    var extra := m.keys[|TAGS|..];
    forall k
      ensures k in extra <==> m.Has(k) && k !in TAGS
    {
      if k in extra {
        var i :| 0 <= i < |extra| && extra[i] == k;
        assert m.keys[|TAGS| + i] == k;
      }
      if m.Has(k) && k !in TAGS {
        var i :| 0 <= i < |m.keys| && m.keys[i] == k;
        assert extra[i - |TAGS|] == k;
      }
    }
  }

  /** The dict the header is written from: the settled metadata, with
      metaimageio's counted size when it writes an image. */
  function HeaderDict(gen: Generation, meta: Dict, image: Option<NdArray>, rt: Runtime): Dict
    requires meta.Valid()
  {
    if gen == Current && image.Some? && Chunk(Current, WithSize(meta, 0), image.value, rt).Success?
    then Counted(meta, Chunk(Current, WithSize(meta, 0), image.value, rt).value)
    else meta
  }

  /** A write that succeeds has serialised its header dict, and the header
      file starts with those lines unless the data file is the header's own
      path opened for writing; for metaimageio the lines' keys are the
      returned dict's keys (writer.py:150-167, pymetaio/io.py:285-311). */
  lemma HeaderWritten(gen: Generation, filepath: string, image: Option<NdArray>, meta: Dict, rt: Runtime,
                      files: map<string, seq<byte>>)
    requires meta.Valid()
    requires WriteFrom(gen, filepath, image, Success(meta), rt, files).result.Success?
    ensures image.Some? ==> DataTarget(meta, filepath).Success?
    ensures var h := HeaderDict(gen, meta, image, rt);
      var es := Serialised(gen, h, h.keys, rt);
      var out := WriteFrom(gen, filepath, image, Success(meta), rt, files);
      && es.Success? && filepath in out.files
      && (gen == Current ==> EntryKeys(es.value) == out.result.value.keys)
      && (image.None? || DataTarget(meta, filepath).value != Target(filepath, false) ==>
            EncodedHeader(es.value, rt) <= out.files[filepath])
  {
    var h := HeaderDict(gen, meta, image, rt);
    var es := Serialised(gen, h, h.keys, rt);
    SerialisedKeys(gen, h, h.keys, rt);
    if image.Some? {
      var t := DataTarget(meta, filepath).value;
      var header := EncodedHeader(es.value, rt);
      var chunk := Chunk(gen, WithSize(meta, 0), image.value, rt).value;
      var written := files[filepath := header];
      assert WriteFrom(gen, filepath, image, Success(meta), rt, files).files == Store(written, t, chunk);
      if t.path == filepath && t.append {
        assert Store(written, t, chunk)[filepath] == header + chunk;
      }
    }
  }

  /** The header's lines come one per set key, in the dict's order: the
      tags in the table's order, then the caller's other keys
      (writer.py:123-153, pymetaio/io.py:260-288). The settled metadata
      starts with every tag (MetadataKeys), so a `LOCAL` data file is
      followed by the caller's extra keys in metaimageio. */
  lemma HeaderKeyOrder(gen: Generation, filepath: string, image: Option<NdArray>, meta: Dict, rt: Runtime,
                       files: map<string, seq<byte>>)
    requires meta.Valid() && |TAGS| <= |meta.keys| && meta.keys[..|TAGS|] == TAGS
    requires WriteFrom(gen, filepath, image, Success(meta), rt, files).result.Success?
    ensures var h := HeaderDict(gen, meta, image, rt);
      && h.keys == meta.keys && Serialised(gen, h, h.keys, rt).Success?
      && EntryKeys(Serialised(gen, h, h.keys, rt).value)
         == KeepNonNull(TAGS, h.vals) + KeepNonNull(meta.keys[|TAGS|..], h.vals)
  {
    HeaderWritten(gen, filepath, image, meta, rt, files);
    TagsHeld(meta);
    HeaderDictKeys(gen, meta, image, rt);
    var h := HeaderDict(gen, meta, image, rt);
    SerialisedKeys(gen, h, h.keys, rt);
    KeepNonNullAppend(TAGS, meta.keys[|TAGS|..], h.vals);
  }

  /** A dict that starts with every tag holds the size entry. */
  lemma TagsHeld(m: Dict)
    requires m.Valid() && |TAGS| <= |m.keys| && m.keys[..|TAGS|] == TAGS
    ensures m.Has("CompressedDataSize") && m.keys == TAGS + m.keys[|TAGS|..]
  {
    assert TAGS[9] == "CompressedDataSize";
    assert m.keys[9] == "CompressedDataSize";
  }

  /** Counting the size keeps the keys of a dict that holds the entry. */
  lemma HeaderDictKeys(gen: Generation, meta: Dict, image: Option<NdArray>, rt: Runtime)
    requires meta.Valid() && meta.Has("CompressedDataSize")
    ensures HeaderDict(gen, meta, image, rt).keys == meta.keys
  {
  }

  // ------------------------------------------------------------ payload

  /** The bytes a successful write with an image stores (writer.py:113-119,
      157-162; pymetaio/io.py:294-306): the image's bytes, each item's byte
      order reversed when a byte-order flag is set and kept otherwise, cast
      to `ElementType`, and compressed when `CompressedData` is set. They
      end the data file, and are all of it unless appended to the header. */
  lemma StoredPayload(gen: Generation, filepath: string, meta: Dict, image: NdArray, rt: Runtime,
                      files: map<string, seq<byte>>)
    requires meta.Valid()
    requires WriteFrom(gen, filepath, Some(image), Success(meta), rt, files).result.Success?
    ensures meta.Get("ElementType").Dtype? && DataTarget(meta, filepath).Success?
    ensures var t := DataTarget(meta, filepath).value;
      var out := WriteFrom(gen, filepath, Some(image), Success(meta), rt, files).files;
      var ordered := if BigEndian(meta) then ByteSwap(image.data, ItemSize(image.kind)) else image.data;
      var raw := rt.cast(ordered, image.kind, meta.Get("ElementType").kind);
      var stored := if Truthy(meta.Get("CompressedData")) then rt.compress(Level(gen), raw) else raw;
      && t.path in out && |stored| <= |out[t.path]|
      && out[t.path][|out[t.path]| - |stored|..] == stored
      && (!t.append ==> out[t.path] == stored)
  {
    WriteStores(gen, filepath, meta, image, rt, files);
    var h := HeaderDict(gen, meta, Some(image), rt);
    var written := files[filepath := EncodedHeader(Serialised(gen, h, h.keys, rt).value, rt)];
    StoredAtEnd(written, DataTarget(meta, filepath).value, Chunk(gen, meta, image, rt).value);
  }

  /** A successful write with an image stores the chunk of the settled
      metadata at its target, after the header is written. */
  lemma WriteStores(gen: Generation, filepath: string, meta: Dict, image: NdArray, rt: Runtime,
                    files: map<string, seq<byte>>)
    requires meta.Valid()
    requires WriteFrom(gen, filepath, Some(image), Success(meta), rt, files).result.Success?
    ensures DataTarget(meta, filepath).Success? && Chunk(gen, meta, image, rt).Success?
    ensures var h := HeaderDict(gen, meta, Some(image), rt);
      && Serialised(gen, h, h.keys, rt).Success?
      && WriteFrom(gen, filepath, Some(image), Success(meta), rt, files).files
         == Store(files[filepath := EncodedHeader(Serialised(gen, h, h.keys, rt).value, rt)],
                  DataTarget(meta, filepath).value, Chunk(gen, meta, image, rt).value)
  {
    ChunkBytes(gen, meta, image, rt);
  }

  /** Zeroing the size leaves the flags and the element type the chunk
      depends on. */
  lemma ChunkBytes(gen: Generation, meta: Dict, image: NdArray, rt: Runtime)
    ensures Chunk(gen, WithSize(meta, 0), image, rt) == Chunk(gen, meta, image, rt)
  {
    var m0 := WithSize(meta, 0);
    assert m0.Get("ElementType") == meta.Get("ElementType");
    assert m0.Get("CompressedData") == meta.Get("CompressedData");
    assert BigEndian(m0) == BigEndian(meta);
  }

  // ------------------------------------------------- a list of data files

  /** Each name on a line of its own. */
  function NameLines(ps: seq<string>): seq<string> {
    seq(|ps|, i requires 0 <= i < |ps| => ps[i] + "\n")
  }

  /** A list of data files is written as the line `ElementDataFile = LIST`
      followed by one line per name, in order (writer.py:141-144). */
  lemma {:induction false} ListTextLines(ps: seq<string>)
    ensures Line(ELEMENT_DATA_FILE, ListText(ps)) == Flatten([Line(ELEMENT_DATA_FILE, "LIST")] + NameLines(ps))
    decreases |ps|
  {
    var first := Line(ELEMENT_DATA_FILE, "LIST");
    if ps == [] {
      assert [first] + NameLines(ps) == [first];
      assert [first][1..] == [];
    } else {
      var n := |ps| - 1;
      var last := ps[n] + "\n";
      ListTextLines(ps[..n]);
      var ls := [first] + NameLines(ps[..n]);
      assert [first] + NameLines(ps) == ls + [last];
      FlattenAppend(ls, [last]);
      assert [last][1..] == [];
      assert Line(ELEMENT_DATA_FILE, ListText(ps)) == Line(ELEMENT_DATA_FILE, ListText(ps[..n])) + last;
    }
  }

  /** Read back, those lines give the list again: after the `LIST` line
      every later line is appended, stripped, to the data-file list
      (reader.py:81-85, pymetaio/io.py:81-85). The names must be free of
      surrounding whitespace, must not start with `#`, and must not read as
      an `ElementDataFile` assignment themselves. */
  lemma ListReadsBack(gen: Generation, st: Scan, ps: seq<string>, filepath: string, rt: Runtime)
    requires !st.islist && !st.islocal
    requires forall i :: 0 <= i < |ps| ==> Trimmed(ps[i]) && (ps[i] == [] || ps[i][0] != '#')
    requires forall i :: 0 <= i < |ps| ==> ParseLine(ps[i] + "\n").key != ELEMENT_DATA_FILE
    ensures var r := ScanFrom(gen, st, [Line(ELEMENT_DATA_FILE, "LIST")] + NameLines(ps), ParseLine, filepath, rt);
      && r.Success? && r.value.islist && !r.value.islocal
      && r.value.meta.Get(ELEMENT_DATA_FILE) == Paths(ps)
  {
    ListLineParses();
    ListIsUpper();
    forall i | 0 <= i < |ps|
      ensures !ParseLine(ps[i] + "\n").skipped && ParseLine(ps[i] + "\n").text == ps[i]
    {
      NameLineParses(ps[i]);
    }
    ListReadsBackWith(gen, st, Line(ELEMENT_DATA_FILE, "LIST"), ps, ParseLine, filepath, rt);
  }

  /** The written `LIST` line reads as a `LIST` data file. */
  lemma ListLineParses()
    ensures var h := ParseLine(Line(ELEMENT_DATA_FILE, "LIST"));
      !h.skipped && h.key == ELEMENT_DATA_FILE && h.value == "LIST"
  {
    LineReadsBack(ELEMENT_DATA_FILE, "LIST");
    DataFileIsTag();
  }

  lemma ListIsUpper()
    ensures Upper("LIST") == "LIST"
  {
    UpperWithoutLowercase("LIST");
  }

  /** ListReadsBack for any line parser that reads the lines that way. */
  lemma ListReadsBackWith(gen: Generation, st: Scan, first: string, ps: seq<string>, parse: string -> HeaderLine,
                          filepath: string, rt: Runtime)
    requires !st.islist && !st.islocal
    requires !parse(first).skipped && parse(first).key == ELEMENT_DATA_FILE && Upper(parse(first).value) == "LIST"
    requires forall i :: 0 <= i < |ps| ==>
      !parse(ps[i] + "\n").skipped && parse(ps[i] + "\n").text == ps[i] && parse(ps[i] + "\n").key != ELEMENT_DATA_FILE
    ensures var r := ScanFrom(gen, st, [first] + NameLines(ps), parse, filepath, rt);
      && r.Success? && r.value.islist && !r.value.islocal
      && r.value.meta.Get(ELEMENT_DATA_FILE) == Paths(ps)
  {
    var texts := [first] + NameLines(ps);
    ListStarts(gen, st, |first|, parse(first), filepath, rt);
    var s1 := ScanLine(gen, st, |first|, parse(first), filepath, rt).value;
    assert texts[0] == first && texts[1..] == NameLines(ps);
    ScanFromCons(gen, st, texts, parse, filepath, rt);
    ListAccumulates(gen, s1, NameLines(ps), parse, filepath, rt);
    NamesListed(ps, parse);
    assert [] + ps == ps;
  }

  /** Names whose lines `parse` reads back as themselves are listed
      again from their lines. */
  lemma {:induction false} NamesListed(ps: seq<string>, parse: string -> HeaderLine)
    requires forall i :: 0 <= i < |ps| ==> !parse(ps[i] + "\n").skipped && parse(ps[i] + "\n").text == ps[i]
    ensures ListedNames(NameLines(ps), parse) == ps
    decreases |ps|
  {
    if ps != [] {
      var ls := NameLines(ps);
      assert ls[0] == ps[0] + "\n" && ls[1..] == NameLines(ps[1..]);
      ListedCons(ls, parse);
      NamesListed(ps[1..], parse);
      assert ps == [ps[0]] + ps[1..];
    }
  }

  /** A trimmed name that is no comment is read back from its line. */
  lemma NameLineParses(p: string)
    requires Trimmed(p) && (p == [] || p[0] != '#')
    ensures !ParseLine(p + "\n").skipped && ParseLine(p + "\n").text == p
  {
    var l := p + "\n";
    StripPadding("", p, "\n");
    assert "" + p + "\n" == l;
    assert l[..1] == [l[0]];
  }

  lemma ListedCons(texts: seq<string>, parse: string -> HeaderLine)
    requires texts != [] && !parse(texts[0]).skipped
    ensures ListedNames(texts, parse) == [parse(texts[0]).text] + ListedNames(texts[1..], parse)
  {
  }
}
