/** The tag vocabulary of MetaImage headers and the element-type table.

    `TAGS` is the closed list of recognised header keys in their canonical
    spelling and in the order the writer emits them (reader.py:9-43,
    writer.py:8-42 and, under the name `MHD_TAGS`, pymetaio/io.py:9-43:
    the three tables are identical). `TYPES` maps the textual element-type
    codes to numpy scalar kinds (reader.py:45-55, writer.py:44-54,
    pymetaio/io.py:45-55, again identical). */
module Tags {
  import opened Wrappers
  import opened Text

  const TAGS: seq<string> := [
    "Comment", "ObjectType", "ObjectSubType", "TransformType", "NDims",
    "Name", "ID", "ParentID", "CompressedData", "CompressedDataSize",
    "BinaryData", "BinaryDataByteOrderMSB", "ElementByteOrderMSB", "Color",
    "Position", "Offset", "Origin", "Orientation", "Rotation",
    "TransformMatrix", "CenterOfRotation", "AnatomicalOrientation",
    "ElementSpacing", "DimSize", "HeaderSize", "HeaderSizePerSlice",
    "Modality", "SequenceID", "ElementMin", "ElementMax",
    "ElementNumberOfChannels", "ElementSize", "ElementType", "ElementDataFile"]

  const ELEMENT_DATA_FILE := "ElementDataFile"

  predicate Distinct<T(==)>(s: seq<T>) {
    forall i, j :: 0 <= i < j < |s| ==> s[i] != s[j]
  }

  /** `[x.upper() for x in TAGS]`, the list the key lookup searches;
      `UpperTag` proves it equal to the table upper-cased entry by entry. */
  const UPPER_TAGS: seq<string> := [
    "COMMENT", "OBJECTTYPE", "OBJECTSUBTYPE", "TRANSFORMTYPE", "NDIMS", "NAME",
    "ID", "PARENTID", "COMPRESSEDDATA", "COMPRESSEDDATASIZE", "BINARYDATA",
    "BINARYDATABYTEORDERMSB", "ELEMENTBYTEORDERMSB", "COLOR", "POSITION",
    "OFFSET", "ORIGIN", "ORIENTATION", "ROTATION", "TRANSFORMMATRIX",
    "CENTEROFROTATION", "ANATOMICALORIENTATION", "ELEMENTSPACING", "DIMSIZE",
    "HEADERSIZE", "HEADERSIZEPERSLICE", "MODALITY", "SEQUENCEID", "ELEMENTMIN",
    "ELEMENTMAX", "ELEMENTNUMBEROFCHANNELS", "ELEMENTSIZE", "ELEMENTTYPE",
    "ELEMENTDATAFILE"]

  lemma UpperTags0(i: nat)
    requires 0 <= i < 3
    ensures Upper(TAGS[i]) == UPPER_TAGS[i]
  {
    if i == 0 { assert Upper("Comment") == "COMMENT"; }
    else if i == 1 { assert Upper("ObjectType") == "OBJECTTYPE"; }
    else if i == 2 { assert Upper("ObjectSubType") == "OBJECTSUBTYPE"; }
  }

  lemma UpperTags3(i: nat)
    requires 3 <= i < 6
    ensures Upper(TAGS[i]) == UPPER_TAGS[i]
  {
    if i == 3 { assert Upper("TransformType") == "TRANSFORMTYPE"; }
    else if i == 4 { assert Upper("NDims") == "NDIMS"; }
    else if i == 5 { assert Upper("Name") == "NAME"; }
  }

  lemma UpperTags6(i: nat)
    requires 6 <= i < 9
    ensures Upper(TAGS[i]) == UPPER_TAGS[i]
  {
    if i == 6 { assert Upper("ID") == "ID"; }
    else if i == 7 { assert Upper("ParentID") == "PARENTID"; }
    else if i == 8 { assert Upper("CompressedData") == "COMPRESSEDDATA"; }
  }

  lemma UpperTags9(i: nat)
    requires 9 <= i < 12
    ensures Upper(TAGS[i]) == UPPER_TAGS[i]
  {
    if i == 9 { assert Upper("CompressedDataSize") == "COMPRESSEDDATASIZE"; }
    else if i == 10 { assert Upper("BinaryData") == "BINARYDATA"; }
    else if i == 11 { UpperTag11(); }
  }

  lemma UpperTag11()
    ensures Upper(TAGS[11]) == UPPER_TAGS[11]
  {
    assert Upper("BinaryDataByteOrderMSB") == "BINARYDATABYTEORDERMSB";
  }

  lemma UpperTags12(i: nat)
    requires 12 <= i < 15
    ensures Upper(TAGS[i]) == UPPER_TAGS[i]
  {
    if i == 12 { assert Upper("ElementByteOrderMSB") == "ELEMENTBYTEORDERMSB"; }
    else if i == 13 { assert Upper("Color") == "COLOR"; }
    else if i == 14 { assert Upper("Position") == "POSITION"; }
  }

  lemma UpperTags15(i: nat)
    requires 15 <= i < 18
    ensures Upper(TAGS[i]) == UPPER_TAGS[i]
  {
    if i == 15 { assert Upper("Offset") == "OFFSET"; }
    else if i == 16 { assert Upper("Origin") == "ORIGIN"; }
    else if i == 17 { assert Upper("Orientation") == "ORIENTATION"; }
  }

  lemma UpperTags18(i: nat)
    requires 18 <= i < 21
    ensures Upper(TAGS[i]) == UPPER_TAGS[i]
  {
    if i == 18 { assert Upper("Rotation") == "ROTATION"; }
    else if i == 19 { assert Upper("TransformMatrix") == "TRANSFORMMATRIX"; }
    else if i == 20 { assert Upper("CenterOfRotation") == "CENTEROFROTATION"; }
  }

  lemma UpperTags21(i: nat)
    requires 21 <= i < 24
    ensures Upper(TAGS[i]) == UPPER_TAGS[i]
  {
    if i == 21 { assert Upper("AnatomicalOrientation") == "ANATOMICALORIENTATION"; }
    else if i == 22 { assert Upper("ElementSpacing") == "ELEMENTSPACING"; }
    else if i == 23 { assert Upper("DimSize") == "DIMSIZE"; }
  }

  lemma UpperTags24(i: nat)
    requires 24 <= i < 27
    ensures Upper(TAGS[i]) == UPPER_TAGS[i]
  {
    if i == 24 { assert Upper("HeaderSize") == "HEADERSIZE"; }
    else if i == 25 { assert Upper("HeaderSizePerSlice") == "HEADERSIZEPERSLICE"; }
    else if i == 26 { assert Upper("Modality") == "MODALITY"; }
  }

  lemma UpperTags27(i: nat)
    requires 27 <= i < 30
    ensures Upper(TAGS[i]) == UPPER_TAGS[i]
  {
    if i == 27 { assert Upper("SequenceID") == "SEQUENCEID"; }
    else if i == 28 { assert Upper("ElementMin") == "ELEMENTMIN"; }
    else if i == 29 { assert Upper("ElementMax") == "ELEMENTMAX"; }
  }

  lemma UpperTags30(i: nat)
    requires 30 <= i < 33
    ensures Upper(TAGS[i]) == UPPER_TAGS[i]
  {
    if i == 30 { assert Upper("ElementNumberOfChannels") == "ELEMENTNUMBEROFCHANNELS"; }
    else if i == 31 { assert Upper("ElementSize") == "ELEMENTSIZE"; }
    else if i == 32 { assert Upper("ElementType") == "ELEMENTTYPE"; }
  }

  lemma UpperTags33(i: nat)
    requires 33 <= i < 34
    ensures Upper(TAGS[i]) == UPPER_TAGS[i]
  {
    if i == 33 { assert Upper("ElementDataFile") == "ELEMENTDATAFILE"; }
  }

  /** Upper-casing the table entry by entry gives `UPPER_TAGS`. */
  lemma UpperTag(i: nat)
    requires i < |TAGS|
    ensures Upper(TAGS[i]) == UPPER_TAGS[i]
  {
    if i < 3 { UpperTags0(i); }
    else if i < 6 { UpperTags3(i); }
    else if i < 9 { UpperTags6(i); }
    else if i < 12 { UpperTags9(i); }
    else if i < 15 { UpperTags12(i); }
    else if i < 18 { UpperTags15(i); }
    else if i < 21 { UpperTags18(i); }
    else if i < 24 { UpperTags21(i); }
    else if i < 27 { UpperTags24(i); }
    else if i < 30 { UpperTags27(i); }
    else if i < 33 { UpperTags30(i); }
    else { UpperTags33(i); }
  }

  /** No two tags differ only in case. */
  lemma UpperTagsDistinct()
    ensures Distinct(UPPER_TAGS)
  {
    UpperRowsDistinct0();
    UpperRowsDistinct6();
    UpperRowsDistinct12();
    UpperRowsDistinct18();
    UpperRowsDistinct24();
  }

  lemma UpperRowsDistinct0()
    ensures forall i, j :: 0 <= i < 6 && i < j < |UPPER_TAGS| ==> UPPER_TAGS[i] != UPPER_TAGS[j]
  {
    UpperRowsDistinct00();
    UpperRowsDistinct03();
  }

  lemma UpperRowsDistinct00()
    ensures forall i, j :: 0 <= i < 3 && i < j < |UPPER_TAGS| ==> UPPER_TAGS[i] != UPPER_TAGS[j]
  {
  }

  lemma UpperRowsDistinct03()
    ensures forall i, j :: 3 <= i < 6 && i < j < |UPPER_TAGS| ==> UPPER_TAGS[i] != UPPER_TAGS[j]
  {
  }

  lemma UpperRowsDistinct6()
    ensures forall i, j :: 6 <= i < 12 && i < j < |UPPER_TAGS| ==> UPPER_TAGS[i] != UPPER_TAGS[j]
  {
  }

  lemma UpperRowsDistinct12()
    ensures forall i, j :: 12 <= i < 18 && i < j < |UPPER_TAGS| ==> UPPER_TAGS[i] != UPPER_TAGS[j]
  {
  }

  lemma UpperRowsDistinct18()
    ensures forall i, j :: 18 <= i < 24 && i < j < |UPPER_TAGS| ==> UPPER_TAGS[i] != UPPER_TAGS[j]
  {
  }

  lemma UpperRowsDistinct24()
    ensures forall i, j :: 24 <= i < 34 && i < j < |UPPER_TAGS| ==> UPPER_TAGS[i] != UPPER_TAGS[j]
  {
  }

  /** The canonical spelling of a header key: the table entry at
      `[x.upper() for x in TAGS].index(key.upper())`, or `key` itself when
      the lookup fails (reader.py:76-79, writer.py:78-81, pymetaio/io.py:76-80
      and 231-234). */
  function Canonical(key: string): string {
    CanonicalFrom(key, Upper(key), TAGS, UPPER_TAGS)
  }

  /** The search itself, over the remaining `tags` and their upper-case
      spellings `uppers`: the first entry whose spelling is `u`. */
  function CanonicalFrom(key: string, u: string, tags: seq<string>, uppers: seq<string>): string
    requires |tags| == |uppers|
  {
    if uppers == [] then key
    else if uppers[0] == u then tags[0]
    else CanonicalFrom(key, u, tags[1..], uppers[1..])
  }

  /** The search returns the entry at the first index where the upper-case
      spelling matches, as `list.index` finds it. */
  lemma {:induction false} CanonicalFromIndex(key: string, u: string, tags: seq<string>, uppers: seq<string>)
    requires |tags| == |uppers|
    ensures var i := IndexOf(uppers, u);
      CanonicalFrom(key, u, tags, uppers) == if i < |tags| then tags[i] else key
  {
    if uppers != [] && uppers[0] != u {
      CanonicalFromIndex(key, u, tags[1..], uppers[1..]);
    }
  }

  predicate IsTag(key: string) {
    key in TAGS
  }

  /** True when `key` matches some table entry ignoring case. */
  predicate Recognised(key: string) {
    Upper(key) in UPPER_TAGS
  }

  lemma TagRecognised(key: string)
    requires IsTag(key)
    ensures Recognised(key)
  {
    var j :| 0 <= j < |TAGS| && TAGS[j] == key;
    UpperTag(j);
  }

  lemma IndexOfUpperTag(i: nat)
    requires i < |TAGS|
    ensures IndexOf(UPPER_TAGS, Upper(TAGS[i])) == i
  {
    UpperTag(i);
    UpperTagsDistinct();
  }

  /** A key that matches a tag ignoring case is replaced by that table
      entry; any other key is kept verbatim. Either way the upper-cased key
      is unchanged, and canonicalising twice changes nothing. */
  lemma CanonicalSpec(key: string)
    ensures Recognised(key) <==> IsTag(Canonical(key))
    ensures !Recognised(key) ==> Canonical(key) == key
    ensures Upper(Canonical(key)) == Upper(key)
    ensures Canonical(Canonical(key)) == Canonical(key)
  {
    CanonicalFromIndex(key, Upper(key), TAGS, UPPER_TAGS);
    var i := IndexOf(UPPER_TAGS, Upper(key));
    if i < |TAGS| {
      CanonicalFromIndex(TAGS[i], Upper(TAGS[i]), TAGS, UPPER_TAGS);
      UpperTag(i);
      IndexOfUpperTag(i);
    } else if IsTag(key) {
      TagRecognised(key);
    }
  }

  /** A key spelled exactly as in the table is its own canonical form. */
  lemma CanonicalOfTag(i: nat)
    requires i < |TAGS|
    ensures Canonical(TAGS[i]) == TAGS[i]
  {
    CanonicalFromIndex(TAGS[i], Upper(TAGS[i]), TAGS, UPPER_TAGS);
    IndexOfUpperTag(i);
  }

  // ------------------------------------------------------------ categories

  /** The semantic category of a tag, from the MET_* comments of the table. */
  datatype Category =
    | TextTag           // MET_STRING
    | IntegerTag        // MET_INT
    | BooleanTag        // MET_STRING holding TRUE / FALSE
    | FloatVectorTag    // MET_FLOAT_ARRAY
    | FloatMatrixTag    // MET_FLOAT_MATRIX (3 x 3)
    | IntVectorTag      // MET_INT_ARRAY
    | FloatScalarTag    // MET_FLOAT
    | ElementTypeTag    // MET_STRING holding a TYPES code
    | DataFileTag       // ElementDataFile
    | ExtraTag          // any key outside the table

  function CategoryOf(key: string): Category {
    if key in ["Comment", "ObjectType", "ObjectSubType", "TransformType", "Name",
               "AnatomicalOrientation", "Modality"] then TextTag
    else if key in ["NDims", "ID", "ParentID", "CompressedDataSize", "HeaderSize",
                    "HeaderSizePerSlice", "ElementNumberOfChannels"] then IntegerTag
    else if key in ["CompressedData", "BinaryData", "BinaryDataByteOrderMSB",
                    "ElementByteOrderMSB"] then BooleanTag
    else if key in ["Color", "Position", "Offset", "Origin", "CenterOfRotation",
                    "ElementSpacing", "ElementSize"] then FloatVectorTag
    else if key in ["Orientation", "Rotation", "TransformMatrix"] then FloatMatrixTag
    else if key in ["DimSize", "SequenceID"] then IntVectorTag
    else if key in ["ElementMin", "ElementMax"] then FloatScalarTag
    else if key == "ElementType" then ElementTypeTag
    else if key == ELEMENT_DATA_FILE then DataFileTag
    else ExtraTag
  }

  /** The categories partition the table: a key is outside the table exactly
      when it falls into no named category. */
  lemma CategoryOfTable(key: string)
    ensures CategoryOf(key) == ExtraTag <==> !IsTag(key)
  {
  }

  const POSITION_TAGS: seq<string> := ["Position", "Offset", "Origin"]
  const ORIENTATION_TAGS: seq<string> := ["Orientation", "Rotation", "TransformMatrix"]

  // --------------------------------------------------------- element types

  /** numpy scalar kinds. `OtherKind` stands for every dtype outside the
      table (bool, float16, complex, ...), with its item size. */
  datatype Kind =
    | Int8 | UInt8 | Int16 | UInt16 | Int32 | UInt32 | Int64 | UInt64
    | Float32 | Float64
    | OtherKind(name: string, size: nat)

  const TYPES: seq<(string, Kind)> := [
    ("MET_CHAR", Int8), ("MET_UCHAR", UInt8), ("MET_SHORT", Int16),
    ("MET_USHORT", UInt16), ("MET_INT", Int32), ("MET_UINT", UInt32),
    ("MET_LONG", Int64), ("MET_ULONG", UInt64), ("MET_FLOAT", Float32),
    ("MET_DOUBLE", Float64)]

  /** `np.dtype(kind).itemsize`. */
  function ItemSize(k: Kind): nat {
    match k
    case Int8 => 1
    case UInt8 => 1
    case Int16 => 2
    case UInt16 => 2
    case Int32 => 4
    case UInt32 => 4
    case Int64 => 8
    case UInt64 => 8
    case Float32 => 4
    case Float64 => 8
    case OtherKind(_, size) => size
  }

  function DecodeTypeFrom(u: string, i: nat): (r: Option<Kind>)
    requires i <= |TYPES|
    ensures r.Some? <==> exists j :: i <= j < |TYPES| && TYPES[j].0 == u
    ensures r.Some? ==> exists j :: i <= j < |TYPES| && TYPES[j] == (u, r.value)
    decreases |TYPES| - i
  {
    if i == |TYPES| then None
    else if TYPES[i].0 == u then Some(TYPES[i].1)
    else DecodeTypeFrom(u, i + 1)
  }

  /** The reader's lookup: the kind of the first `TYPES` entry whose code
      equals the upper-cased value (reader.py:116, pymetaio/io.py:116). */
  function DecodeType(value: string): Option<Kind> {
    DecodeTypeFrom(Upper(value), 0)
  }

  function EncodeTypeFrom(k: Kind, i: nat): (r: Option<string>)
    requires i <= |TYPES|
    ensures r.Some? <==> exists j :: i <= j < |TYPES| && TYPES[j].1 == k
    ensures r.Some? ==> exists j :: i <= j < |TYPES| && TYPES[j] == (r.value, k)
    decreases |TYPES| - i
  {
    if i == |TYPES| then None
    else if TYPES[i].1 == k then Some(TYPES[i].0)
    else EncodeTypeFrom(k, i + 1)
  }

  /** The writer's lookup: the code of the first `TYPES` entry whose kind is
      the value's dtype (`np.issubdtype` between concrete dtypes is
      equality) (writer.py:137, pymetaio/io.py:272). */
  function EncodeType(k: Kind): Option<string> {
    EncodeTypeFrom(k, 0)
  }

  /** Exactly the ten table kinds have a code. */
  lemma EncodeTypeDefined(k: Kind)
    ensures EncodeType(k).Some? <==> !k.OtherKind?
  {
    if !k.OtherKind? {
      var j := match k
        case Int8 => 0 case UInt8 => 1 case Int16 => 2 case UInt16 => 3
        case Int32 => 4 case UInt32 => 5 case Int64 => 6 case UInt64 => 7
        case Float32 => 8 case Float64 => 9;
      assert TYPES[j].1 == k;
    }
  }

  lemma UpperOfCode(j: nat)
    requires j < |TYPES|
    ensures Upper(TYPES[j].0) == TYPES[j].0
  {
    UpperWithoutLowercase(TYPES[j].0);
  }

  /** No code and no kind appears twice in the table. */
  lemma CodesDistinct()
    ensures forall a, b :: 0 <= a < b < |TYPES| ==> TYPES[a].0 != TYPES[b].0
  {
  }

  lemma KindsDistinct()
    ensures forall a, b :: 0 <= a < b < |TYPES| ==> TYPES[a].1 != TYPES[b].1
  {
  }

  /** Writing a kind's code and reading it back gives the kind. */
  lemma DecodeEncodeType(k: Kind)
    requires !k.OtherKind?
    ensures EncodeType(k).Some?
    ensures DecodeType(EncodeType(k).value) == Some(k)
  {
    EncodeTypeDefined(k);
    var code := EncodeType(k).value;
    var j :| 0 <= j < |TYPES| && TYPES[j] == (code, k);
    UpperOfCode(j);
    var r := DecodeType(code);
    var j' :| 0 <= j' < |TYPES| && TYPES[j'] == (code, r.value);
    CodesDistinct();
  }

  /** Reading a code accepted by the reader and writing the kind back gives
      the upper-cased code. */
  lemma EncodeDecodeType(value: string)
    requires DecodeType(value).Some?
    ensures EncodeType(DecodeType(value).value) == Some(Upper(value))
  {
    var k := DecodeType(value).value;
    var j :| 0 <= j < |TYPES| && TYPES[j] == (Upper(value), k);
    var r := EncodeType(k);
    var j' :| 0 <= j' < |TYPES| && TYPES[j'] == (r.value, k);
    KindsDistinct();
  }
}
