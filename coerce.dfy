/** The type-coercion layer: header text to typed values on read
    (reader.py:97-120, pymetaio/io.py:97-118) and typed values back to
    header text on write (writer.py:122-148, pymetaio/io.py:259-283), with
    the round trips between them. */
module Coerce {
  import opened Wrappers
  import opened Text
  import opened Tags
  import opened Values

  const UINTP_MAX: int := 0xFFFF_FFFF_FFFF_FFFF
  const INTP_MIN: int := -0x8000_0000_0000_0000
  const INTP_MAX: int := 0x7FFF_FFFF_FFFF_FFFF

  /** Range of the integer type integer tags are converted to: `np.uintp`
      in metaimageio, `np.intp` in pymetaio (64-bit platform). */
  function IntegerRange(gen: Generation): (int, int) {
    if gen == Current then (0, UINTP_MAX) else (INTP_MIN, INTP_MAX)
  }

  /** `np.uintp(value)` / `np.intp(value)` of a header string. */
  function ParseScalarInt(gen: Generation, s: string): (r: Result<int>)
    ensures r.Success? ==> IntegerRange(gen).0 <= r.value <= IntegerRange(gen).1
  {
    match ParseInt(s)
    case None => Failure(Error(ValueError, NotAnInteger))
    case Some(n) =>
      if IntegerRange(gen).0 <= n <= IntegerRange(gen).1 then Success(n)
      else Failure(Error(OverflowError, IntegerOutOfRange))
  }

  /** `np.array(tokens, dtype=int)`: every token an int64. */
  function ParseInts(tokens: seq<string>): (r: Result<seq<int>>)
    ensures r.Success? ==> |r.value| == |tokens|
  {
    if tokens == [] then Success([])
    else
      match ParseInt(tokens[0])
      case None => Failure(Error(ValueError, NotAnInteger))
      case Some(n) =>
        if !(INTP_MIN <= n <= INTP_MAX) then Failure(Error(OverflowError, IntegerOutOfRange))
        else
          match ParseInts(tokens[1..])
          case Failure(e) => Failure(e)
          case Success(ns) => Success([n] + ns)
  }

  /** `np.array(tokens, dtype=float)`. */
  function ParseFloats(tokens: seq<string>, rt: Runtime): (r: Result<seq<Real>>)
    ensures r.Success? ==> |r.value| == |tokens|
  {
    if tokens == [] then Success([])
    else
      match rt.parseFloat(tokens[0])
      case None => Failure(Error(ValueError, NotAFloat))
      case Some(x) =>
        match ParseFloats(tokens[1..], rt)
        case Failure(e) => Failure(e)
        case Success(xs) => Success([x] + xs)
  }

  /** The transpose of a 3 x 3 matrix stored row-major. */
  function Transpose3<T>(c: seq<T>): (t: seq<T>)
    requires |c| == 9
    ensures |t| == 9
  {
    [c[0], c[3], c[6], c[1], c[4], c[7], c[2], c[5], c[8]]
  }

  /** Transposing is a permutation of the nine cells that undoes itself. */
  lemma Transpose3Involution<T>(c: seq<T>)
    requires |c| == 9
    ensures Transpose3(Transpose3(c)) == c
    ensures forall r, k :: 0 <= r < 3 && 0 <= k < 3 ==> Transpose3(c)[3 * r + k] == c[3 * k + r]
  {
    assert c == [c[0], c[1], c[2], c[3], c[4], c[5], c[6], c[7], c[8]];
  }

  function AsString(v: Value): Result<string> {
    if v.Str? then Success(v.s) else Failure(Error(AttributeError, UnexpectedValue))
  }

  /** The typecast of one header entry on read (reader.py:99-120,
      pymetaio/io.py:99-118). Text tags, the data-file list and (in
      metaimageio) unknown keys pass through; the other categories are
      converted from the header string. */
  function CastIn(gen: Generation, key: string, raw: Value, rt: Runtime): Result<Value> {
    match CategoryOf(key)
    case TextTag => Success(raw)
    case DataFileTag => Success(raw)
    case ExtraTag => Success(raw)
    case IntegerTag =>
      var s :- AsString(raw);
      var n :- ParseScalarInt(gen, s);
      Success(Int(n))
    case BooleanTag =>
      var s :- AsString(raw);
      Success(Bool(Upper(s) == "TRUE"))
    case FloatVectorTag =>
      var s :- AsString(raw);
      var xs :- ParseFloats(Split(s), rt);
      Success(FloatVec(xs))
    case FloatMatrixTag =>
      var s :- AsString(raw);
      var xs :- ParseFloats(Split(s), rt);
      if |xs| != 9 then Failure(Error(ValueError, NotThreeByThree))
      else if gen == Current then Success(Matrix(Transpose3(xs)))
      else Success(Matrix(xs))
    case IntVectorTag =>
      var s :- AsString(raw);
      var ns :- ParseInts(Split(s));
      Success(IntVec(ns))
    case FloatScalarTag =>
      var s :- AsString(raw);
      (match rt.parseFloat(s)
       case None => Failure(Error(ValueError, NotAFloat))
       case Some(x) => Success(Float(x)))
    case ElementTypeTag =>
      var s :- AsString(raw);
      match DecodeType(s)
      case None => Failure(CheckError(gen, UnsupportedElementType))
      case Some(k) => Success(Dtype(k))
  }

  // ------------------------------------------------------------- writing

  function BoolText(b: bool): string {
    if b then "True" else "False"
  }

  /** Python `str(value)`. Containers and dtypes are printed by numpy and
      Python, which the model leaves to `rt.repr`. */
  function Render(v: Value, rt: Runtime): string {
    match v
    case Str(s) => s
    case Int(i) => FormatInt(i)
    case Bool(b) => BoolText(b)
    case Float(f) => rt.showFloat(f)
    case _ => rt.repr(v)
  }

  /** `[str(x) for x in np.ravel(value)]`. */
  function Ravel(v: Value, rt: Runtime): seq<string> {
    match v
    case FloatVec(xs) => Map(rt.showFloat, xs)
    case IntVec(ns) => Map(FormatInt, ns)
    case Matrix(cells) => Map(rt.showFloat, cells)
    case Paths(ps) => ps
    case Null => []
    case _ => [Render(v, rt)]
  }

  /** `np.transpose(value)`: a 3 x 3 matrix is transposed, every other
      value (one-dimensional or scalar) is its own transpose. */
  function TransposeValue(v: Value): Value {
    if v.Matrix? && |v.cells| == 9 then Matrix(Transpose3(v.cells)) else v
  }

  /** `'LIST'` followed by one path per line (writer.py:141-144). */
  function ListText(ps: seq<string>): string {
    if ps == [] then "LIST" else ListText(ps[..|ps| - 1]) + "\n" + ps[|ps| - 1]
  }

  /** The header text of one non-`None` metadata entry on write
      (writer.py:124-148, pymetaio/io.py:261-283). */
  function CastOut(gen: Generation, key: string, v: Value, rt: Runtime): Result<string> {
    match CategoryOf(key)
    case TextTag => Success(Render(v, rt))
    case IntegerTag => Success(Render(v, rt))
    case BooleanTag => Success(Render(v, rt))
    case FloatScalarTag => Success(Render(v, rt))
    case FloatVectorTag => Success(Join(Ravel(v, rt)))
    case IntVectorTag => Success(Join(Ravel(v, rt)))
    case FloatMatrixTag =>
      if gen == Current then Success(Join(Ravel(TransposeValue(v), rt)))
      else Success(Join(Ravel(v, rt)))
    case ElementTypeTag =>
      if !v.Dtype? then Failure(Error(TypeError, UnexpectedValue))
      else
        (match EncodeType(v.kind)
         case None => Failure(CheckError(gen, UnsupportedElementType))
         case Some(code) => Success(code))
    case DataFileTag =>
      if v.Paths? then Success(ListText(v.ps)) else Success(Render(v, rt))
    case ExtraTag =>
      if gen == Current then Success(Render(v, rt))
      else Failure(CheckError(gen, UnrecognizedTag))
  }

  // --------------------------------------------------------- round trips

  /** A boolean tag is true exactly when its upper-cased text is `TRUE`
      (reader.py:105, pymetaio/io.py:105). */
  lemma BooleanIn(gen: Generation, key: string, s: string, rt: Runtime)
    requires CategoryOf(key) == BooleanTag
    ensures CastIn(gen, key, Str(s), rt) == Success(Bool(Upper(s) == "TRUE"))
  {
  }

  /** A boolean written as `str(b)` reads back as `b`. */
  lemma BooleanRoundTrip(gen: Generation, key: string, b: bool, rt: Runtime)
    requires CategoryOf(key) == BooleanTag
    ensures CastOut(gen, key, Bool(b), rt).Success?
    ensures CastIn(gen, key, Str(CastOut(gen, key, Bool(b), rt).value), rt) == Success(Bool(b))
  {
    var u := Upper(BoolText(b));
    if b {
      assert u == "TRUE" by {
        assert u[0] == 'T' && u[1] == 'R' && u[2] == 'U' && u[3] == 'E';
      }
    } else {
      assert |u| == 5;
    }
  }

  /** An integer tag inside the generation's integer range reads back as
      written. */
  lemma IntegerRoundTrip(gen: Generation, key: string, n: int, rt: Runtime)
    requires CategoryOf(key) == IntegerTag
    requires IntegerRange(gen).0 <= n <= IntegerRange(gen).1
    ensures CastOut(gen, key, Int(n), rt).Success?
    ensures CastIn(gen, key, Str(CastOut(gen, key, Int(n), rt).value), rt) == Success(Int(n))
  {
    ParseFormatInt(n);
  }

  lemma {:induction false} ParseIntsOfFormatted(ns: seq<int>)
    requires forall i :: 0 <= i < |ns| ==> INTP_MIN <= ns[i] <= INTP_MAX
    ensures ParseInts(Map(FormatInt, ns)) == Success(ns)
  {
    if ns != [] {
      ParseFormatInt(ns[0]);
      assert Map(FormatInt, ns)[1..] == Map(FormatInt, ns[1..]);
      ParseIntsOfFormatted(ns[1..]);
      assert [ns[0]] + ns[1..] == ns;
    }
  }

  /** An integer array (`DimSize`, `SequenceID`) of int64 entries written
      space-separated reads back entry for entry. */
  lemma IntArrayRoundTrip(gen: Generation, key: string, ns: seq<int>, rt: Runtime)
    requires CategoryOf(key) == IntVectorTag
    requires forall i :: 0 <= i < |ns| ==> INTP_MIN <= ns[i] <= INTP_MAX
    ensures CastOut(gen, key, IntVec(ns), rt).Success?
    ensures CastIn(gen, key, Str(CastOut(gen, key, IntVec(ns), rt).value), rt) == Success(IntVec(ns))
  {
    var tokens := Map(FormatInt, ns);
    SplitJoin(tokens);
    ParseIntsOfFormatted(ns);
  }

  lemma {:induction false} ParseFloatsOfShown(xs: seq<Real>, rt: Runtime)
    requires FloatsRoundTrip(rt)
    ensures ParseFloats(Map(rt.showFloat, xs), rt) == Success(xs)
  {
    if xs != [] {
      assert Map(rt.showFloat, xs)[1..] == Map(rt.showFloat, xs[1..]);
      ParseFloatsOfShown(xs[1..], rt);
      assert [xs[0]] + xs[1..] == xs;
    }
  }

  /** The element type written by the writer reads back as the same kind;
      a kind outside the table is refused with the generation's error. */
  lemma ElementTypeRoundTrip(gen: Generation, key: string, k: Kind, rt: Runtime)
    requires CategoryOf(key) == ElementTypeTag
    ensures CastOut(gen, key, Dtype(k), rt).Success? <==> !k.OtherKind?
    ensures k.OtherKind? ==>
      CastOut(gen, key, Dtype(k), rt) == Failure(CheckError(gen, UnsupportedElementType))
    ensures !k.OtherKind? ==>
      CastIn(gen, key, Str(CastOut(gen, key, Dtype(k), rt).value), rt) == Success(Dtype(k))
  {
    EncodeTypeDefined(k);
    if !k.OtherKind? {
      DecodeEncodeType(k);
    }
  }

  /** An element type the reader accepts is written back as its upper-cased
      code; one it refuses raises the generation's error. */
  lemma ElementTypeReadBack(gen: Generation, key: string, s: string, rt: Runtime)
    requires CategoryOf(key) == ElementTypeTag
    ensures DecodeType(s).None? ==>
      CastIn(gen, key, Str(s), rt) == Failure(CheckError(gen, UnsupportedElementType))
    ensures DecodeType(s).Some? ==>
      CastIn(gen, key, Str(s), rt).Success? &&
      CastOut(gen, key, CastIn(gen, key, Str(s), rt).value, rt) == Success(Upper(s))
  {
    if DecodeType(s).Some? {
      EncodeDecodeType(s);
    }
  }

  /** An orientation-family matrix written and read back is unchanged in
      both generations: metaimageio transposes on write and on read,
      pymetaio on neither. */
  lemma OrientationRoundTrip(gen: Generation, key: string, cells: seq<Real>, rt: Runtime)
    requires CategoryOf(key) == FloatMatrixTag
    requires |cells| == 9
    requires FloatsRoundTrip(rt)
    ensures CastOut(gen, key, Matrix(cells), rt).Success?
    ensures CastIn(gen, key, Str(CastOut(gen, key, Matrix(cells), rt).value), rt) == Success(Matrix(cells))
  {
    var written := if gen == Current then Transpose3(cells) else cells;
    var tokens := Map(rt.showFloat, written);
    OrientationOut(gen, key, cells, rt);
    SplitJoin(tokens);
    ParseFloatsOfShown(written, rt);
    OrientationIn(gen, key, Join(tokens), rt);
    Transpose3Involution(cells);
  }

  /** On write, metaimageio prints the transpose of a matrix, pymetaio
      the matrix itself, both in row-major order. */
  lemma OrientationOut(gen: Generation, key: string, cells: seq<Real>, rt: Runtime)
    requires CategoryOf(key) == FloatMatrixTag
    requires |cells| == 9
    ensures CastOut(gen, key, Matrix(cells), rt) ==
              Success(Join(Map(rt.showFloat, if gen == Current then Transpose3(cells) else cells)))
  {
  }

  /** On read, metaimageio stores the transpose of the nine values in file
      order, pymetaio stores them as they are. */
  lemma OrientationIn(gen: Generation, key: string, s: string, rt: Runtime)
    requires CategoryOf(key) == FloatMatrixTag
    requires ParseFloats(Split(s), rt).Success?
    ensures var xs := ParseFloats(Split(s), rt).value;
      CastIn(gen, key, Str(s), rt) ==
        if |xs| != 9 then Failure(Error(ValueError, NotThreeByThree))
        else Success(Matrix(if gen == Current then Transpose3(xs) else xs))
  {
  }

  /** A float vector reads back as written. */
  lemma FloatVectorRoundTrip(gen: Generation, key: string, xs: seq<Real>, rt: Runtime)
    requires CategoryOf(key) == FloatVectorTag
    requires FloatsRoundTrip(rt)
    ensures CastOut(gen, key, FloatVec(xs), rt).Success?
    ensures CastIn(gen, key, Str(CastOut(gen, key, FloatVec(xs), rt).value), rt) == Success(FloatVec(xs))
  {
    var tokens := Map(rt.showFloat, xs);
    SplitJoin(tokens);
    ParseFloatsOfShown(xs, rt);
  }

  /** Unknown keys: metaimageio writes them verbatim, pymetaio refuses them. */
  lemma ExtraOut(gen: Generation, key: string, v: Value, rt: Runtime)
    requires !IsTag(key)
    ensures gen == Current ==> CastOut(gen, key, v, rt) == Success(Render(v, rt))
    ensures gen == Legacy ==> CastOut(gen, key, v, rt) == Failure(Error(IOError, UnrecognizedTag))
  {
    CategoryOfTable(key);
  }
}
