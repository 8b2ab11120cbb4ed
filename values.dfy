/** The values the codec handles: bytes, opaque floats, the heterogeneous
    metadata values of a Python dict, the insertion-ordered dict itself,
    arrays, and the foreign collaborators (zlib, numpy casts, text
    encoding, `%` formatting, float printing) as an explicit parameter. */
module Values {
  import opened Wrappers
  import opened Text
  import opened Tags

  type byte = b: int | 0 <= b < 256

  /** A Python float, kept as its IEEE-754 binary64 bit pattern. No
      arithmetic is done on it anywhere in the codec. */
  datatype Real = Real(bits: int)

  const ZERO: Real := Real(0)
  const ONE: Real := Real(0x3FF0_0000_0000_0000)

  /** One metadata value. The categories of the tag table map onto these
      variants; `Null` is Python's `None`, used for tags that are unset. */
  datatype Value =
    | Null
    | Str(s: string)
    | Int(i: int)
    | Bool(b: bool)
    | Float(f: Real)
    | FloatVec(xs: seq<Real>)
    | IntVec(ns: seq<int>)
    | Matrix(cells: seq<Real>)     // a 3 x 3 float array, row-major
    | Dtype(kind: Kind)
    | Paths(ps: seq<string>)       // a Python list of file names

  /** Python truthiness, as used by `meta.get(...)` in conditions. */
  predicate Truthy(v: Value) {
    match v
    case Null => false
    case Str(s) => s != ""
    case Int(i) => i != 0
    case Bool(b) => b
    case Float(f) => f != ZERO
    case FloatVec(xs) => xs != []
    case IntVec(ns) => ns != []
    case Matrix(cells) => cells != []
    case Dtype(_) => true
    case Paths(ps) => ps != []
  }

  /** A Python dict: keys in insertion order, and the mapping. */
  datatype Dict = Dict(keys: seq<string>, vals: map<string, Value>) {

    ghost predicate Valid() {
      Distinct(keys) && (forall k :: k in vals <==> k in keys)
    }

    predicate Has(k: string) {
      k in vals
    }

    /** `d.get(k)`: `None` when the key is absent. */
    function Get(k: string): Value {
      if k in vals then vals[k] else Null
    }

    /** `d[k] = v`: an existing key keeps its position, a new key goes last. */
    function Put(k: string, v: Value): (d: Dict)
      ensures d.vals == vals[k := v]
      ensures d.keys == if k in vals then keys else keys + [k]
    {
      if k in vals then Dict(keys, vals[k := v]) else Dict(keys + [k], vals[k := v])
    }

    /** Assignment keeps the keys unique and in step with the mapping. */
    lemma PutValid(k: string, v: Value)
      requires Valid()
      ensures Put(k, v).Valid()
    {
    }

    /** A second assignment to the same key overwrites the first and leaves
        the key where the first put it. */
    lemma PutTwice(k: string, v: Value, w: Value)
      ensures Put(k, v).Put(k, w) == Put(k, w)
    {
    }
  }

  /** `dict.fromkeys(ks, v)`. */
  function FromKeys(ks: seq<string>, v: Value): (d: Dict)
    requires Distinct(ks)
    ensures d.Valid() && d.keys == ks
    ensures forall k :: k in ks ==> d.Get(k) == v
  {
    Dict(ks, map k | k in ks :: v)
  }

  /** The table has no repeated entry: entries that differ in case only
      would already clash in `UPPER_TAGS`. */
  lemma TagsDistinct()
    ensures Distinct(TAGS)
  {
    UpperTagsDistinct();
    forall i, j | 0 <= i < j < |TAGS|
      ensures TAGS[i] != TAGS[j]
    {
      UpperTag(i);
      UpperTag(j);
    }
  }

  function KeepNonNull(ks: seq<string>, vals: map<string, Value>): (r: seq<string>)
    ensures forall k :: k in r <==> k in ks && k in vals && vals[k] != Null
    ensures Distinct(ks) ==> Distinct(r)
  {
    if ks == [] then []
    else if ks[0] in vals && vals[ks[0]] != Null then [ks[0]] + KeepNonNull(ks[1..], vals)
    else KeepNonNull(ks[1..], vals)
  }

  /** Filtering a concatenation filters each part. */
  lemma {:induction false} KeepNonNullAppend(a: seq<string>, b: seq<string>, vals: map<string, Value>)
    ensures KeepNonNull(a + b, vals) == KeepNonNull(a, vals) + KeepNonNull(b, vals)
  {
    if a == [] {
      assert a + b == b;
    } else {
      assert (a + b)[0] == a[0] && (a + b)[1..] == a[1..] + b;
      KeepNonNullAppend(a[1..], b, vals);
    }
  }

  /** `{x: y for x, y in d.items() if y is not None}`: the same order,
      without the `None` entries. */
  function WithoutNulls(d: Dict): (r: Dict)
    requires d.Valid()
    ensures r.Valid()
    ensures forall k :: r.Has(k) <==> d.Has(k) && d.vals[k] != Null
    ensures forall k :: r.Has(k) ==> k in d.vals && r.vals[k] == d.vals[k]
  {
    var ks := KeepNonNull(d.keys, d.vals);
    Dict(ks, map k | k in ks :: d.vals[k])
  }

  /** Either byte-order flag is set: the payload is big-endian. */
  predicate BigEndian(meta: Dict) {
    Truthy(meta.Get("BinaryDataByteOrderMSB")) || Truthy(meta.Get("ElementByteOrderMSB"))
  }

  /** A dict that a caller owns and the codec updates in place. */
  class MetaDict {
    var keys: seq<string>
    var vals: map<string, Value>

    function Snapshot(): Dict
      reads this
    {
      Dict(keys, vals)
    }

    constructor (d: Dict)
      ensures Snapshot() == d
    {
      keys, vals := d.keys, d.vals;
    }

    ghost predicate Valid()
      reads this
    {
      Snapshot().Valid()
    }

    method Put(k: string, v: Value)
      requires Valid()
      modifies this
      ensures Valid()
      ensures Snapshot() == old(Snapshot()).Put(k, v)
    {
      Snapshot().PutValid(k, v);
      var d := Snapshot().Put(k, v);
      keys, vals := d.keys, d.vals;
    }
  }

  function Map<A, B>(f: A -> B, s: seq<A>): seq<B> {
    seq(|s|, i requires 0 <= i < |s| => f(s[i]))
  }

  /** An array read from or written to a payload: its shape, its numpy
      kind, and its raw bytes in C order. */
  datatype NdArray = NdArray(shape: seq<int>, kind: Kind, data: seq<byte>)

  function Reverse<T>(s: seq<T>): (r: seq<T>)
    ensures |r| == |s|
    ensures forall i :: 0 <= i < |s| ==> r[i] == s[|s| - 1 - i]
  {
    if s == [] then [] else Reverse(s[1..]) + [s[0]]
  }

  lemma ReverseReverse<T>(s: seq<T>)
    ensures Reverse(Reverse(s)) == s
  {
  }

  /** numpy `byteswap`: the byte order of every `width`-byte element is
      reversed. */
  function ByteSwap(data: seq<byte>, width: nat): (r: seq<byte>)
    ensures |r| == |data|
    decreases |data|
  {
    if width == 0 || |data| <= width then Reverse(data)
    else Reverse(data[..width]) + ByteSwap(data[width..], width)
  }

  /** Within every whole `width`-byte item, byte `o` of the result is
      byte `width - 1 - o` of the item: each item's bytes are reversed in
      place and the items keep their order. */
  lemma ByteSwapItems(data: seq<byte>, width: nat, g: nat, o: nat)
    requires 0 <= o < width && (g + 1) * width <= |data|
    ensures g * width + width <= |data|
    ensures ByteSwap(data, width)[g * width + o] == data[g * width + width - 1 - o]
  {
    ItemStartOf(g, width);
    ByteSwapAt(data, width, g * width, o);
  }

  /** `base` is a whole number of `width`-byte items. */
  predicate ItemStart(base: nat, width: nat)
    decreases base
  {
    base == 0 || (0 < width <= base && ItemStart(base - width, width))
  }

  lemma {:induction false} ItemStartOf(g: nat, width: nat)
    ensures ItemStart(g * width, width)
    ensures (g + 1) * width == g * width + width
  {
    if g > 0 && width > 0 {
      ItemStartOf(g - 1, width);
      assert g * width - width == (g - 1) * width;
    }
  }

  /** ByteSwapItems, with the item's start given as an offset. */
  lemma {:induction false} ByteSwapAt(data: seq<byte>, width: nat, base: nat, o: nat)
    requires 0 <= o < width && base + width <= |data| && ItemStart(base, width)
    ensures ByteSwap(data, width)[base + o] == data[base + width - 1 - o]
    decreases base
  {
    if base == 0 {
      ByteSwapFirst(data, width, o);
    } else {
      var rest, k := data[width..], base - width;
      ByteSwapAt(rest, width, k, o);
      assert rest[k + width - 1 - o] == data[base + width - 1 - o];
      ByteSwapLater(data, width, base + o);
    }
  }

  /** The first item is reversed. */
  lemma ByteSwapFirst(data: seq<byte>, width: nat, o: nat)
    requires 0 <= o < width <= |data|
    ensures ByteSwap(data, width)[o] == data[width - 1 - o]
  {
    if |data| > width {
      var a := Reverse(data[..width]);
      assert ByteSwap(data, width) == a + ByteSwap(data[width..], width);
      assert (a + ByteSwap(data[width..], width))[o] == a[o];
    }
  }

  /** Past the first item, the swap is the swap of the rest. */
  lemma ByteSwapLater(data: seq<byte>, width: nat, k: nat)
    requires 0 < width < |data| && width <= k < |data|
    ensures ByteSwap(data, width)[k] == ByteSwap(data[width..], width)[k - width]
  {
    var a := Reverse(data[..width]);
    var b := ByteSwap(data[width..], width);
    assert ByteSwap(data, width) == a + b;
    assert |a| == width;
    assert (a + b)[k] == b[k - width];
  }

  /** Swapping twice restores the bytes: what the writer swaps for a
      big-endian file the reader swaps back. */
  lemma {:induction false} ByteSwapInvolution(data: seq<byte>, width: nat)
    ensures ByteSwap(ByteSwap(data, width), width) == data
    decreases |data|
  {
    if width == 0 || |data| <= width {
      ReverseReverse(data);
    } else {
      var head := Reverse(data[..width]);
      var tail := ByteSwap(data[width..], width);
      var once := head + tail;
      assert |once| > width;
      assert once[..width] == head && once[width..] == tail;
      ReverseReverse(data[..width]);
      ByteSwapInvolution(data[width..], width);
      assert data == data[..width] + data[width..];
    }
  }

  /** The foreign collaborators of the codec, which the model does not
      look inside: text decoding and encoding, Python `%` formatting,
      float parsing and printing, `str` of container values, numpy's
      `astype(...).tobytes()`, and zlib. */
  datatype Runtime = Runtime(
    decode: seq<byte> -> string,
    encode: string -> seq<byte>,
    format: (string, int) -> string,
    parseFloat: string -> Option<Real>,
    showFloat: Real -> string,
    repr: Value -> string,
    cast: (seq<byte>, Kind, Kind) -> seq<byte>,
    compress: (int, seq<byte>) -> seq<byte>,
    decompress: seq<byte> -> Option<seq<byte>>)

  /** The float printer produces tokens that `split()` keeps whole and that
      the float parser reads back (Python's `repr` of a float round-trips). */
  ghost predicate FloatsRoundTrip(rt: Runtime) {
    forall x :: IsToken(rt.showFloat(x)) && rt.parseFloat(rt.showFloat(x)) == Some(x)
  }
}
