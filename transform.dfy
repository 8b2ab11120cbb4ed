/** The helpers that turn the spatial tags of a metadata dict into one 4 x 4
    affine transform and back (metaimageio/util.py). Only which tag supplies
    which block of the matrix, the ambiguity errors and the updates of the
    dict are modelled: the blocks themselves stay opaque values, and the
    matrix product and inverse that combine them are not computed. */
module Transform {
  import opened Wrappers
  import opened Tags
  import opened Values

  /** The blocks `get_transform` multiplies together as
      `translation . center . rotation . inverse(center)`. `None` stands
      for a block left as the identity matrix. */
  datatype Placement = Placement(
    translation: Option<Value>,   // fills column 3 of the first matrix
    rotation: Option<Value>,      // fills the upper-left 3 x 3 block
    center: Option<Value>)        // fills column 3 of the centering matrix

  /** `int('A' in meta) + int('B' in meta) + ...`: how many of `keys` the
      dict holds, whatever their values (a key mapped to `None` counts). */
  function CountPresent(meta: Dict, keys: seq<string>): (n: nat)
    ensures n <= |keys|
    ensures n == 0 <==> forall k :: k in keys ==> !meta.Has(k)
  {
    if keys == [] then 0
    else (if meta.Has(keys[0]) then 1 else 0) + CountPresent(meta, keys[1..])
  }

  /** Two different positions of `keys` are both held by the dict. */
  ghost predicate Ambiguous(meta: Dict, keys: seq<string>) {
    exists i, j :: 0 <= i < j < |keys| && meta.Has(keys[i]) && meta.Has(keys[j])
  }

  /** The `if ... elif ... elif` chain: the value of the first of `keys`
      the dict holds, `None` when it holds none of them. */
  function FirstPresent(meta: Dict, keys: seq<string>): Option<Value> {
    if keys == [] then None
    else if meta.Has(keys[0]) then Some(meta.Get(keys[0]))
    else FirstPresent(meta, keys[1..])
  }

  /** `get_transform(meta)`: an ambiguous position is reported before an
      ambiguous orientation; the center of rotation is optional. */
  function GetTransform(meta: Dict): Result<Placement> {
    if CountPresent(meta, POSITION_TAGS) > 1 then
      Failure(Error(ValueError, AmbiguousPosition))
    else if CountPresent(meta, ORIENTATION_TAGS) > 1 then
      Failure(Error(ValueError, AmbiguousOrientation))
    else
      Success(Placement(
        FirstPresent(meta, POSITION_TAGS),
        FirstPresent(meta, ORIENTATION_TAGS),
        if meta.Has("CenterOfRotation") then Some(meta.Get("CenterOfRotation")) else None))
  }

  // ------------------------------------------------------- reading tags

  /** Counting more than one present key is the same as finding two
      distinct positions that are both present. */
  lemma CountAmbiguous(meta: Dict, keys: seq<string>)
    ensures CountPresent(meta, keys) > 1 <==> Ambiguous(meta, keys)
  {
    if CountPresent(meta, keys) > 1 {
      CountFindsTwo(meta, keys);
    }
    if Ambiguous(meta, keys) {
      var i, j :| 0 <= i < j < |keys| && meta.Has(keys[i]) && meta.Has(keys[j]);
      CountAtLeastTwo(meta, keys, i, j);
    }
  }

  lemma {:induction false} CountFindsTwo(meta: Dict, keys: seq<string>)
    requires CountPresent(meta, keys) > 1
    ensures Ambiguous(meta, keys)
  {
    var rest := keys[1..];
    if meta.Has(keys[0]) {
      var k :| k in rest && meta.Has(k);
      var j :| 0 <= j < |rest| && rest[j] == k;
      assert meta.Has(keys[0]) && meta.Has(keys[j + 1]);
    } else {
      CountFindsTwo(meta, rest);
      var i, j :| 0 <= i < j < |rest| && meta.Has(rest[i]) && meta.Has(rest[j]);
      assert meta.Has(keys[i + 1]) && meta.Has(keys[j + 1]);
    }
  }

  lemma {:induction false} CountAtLeastTwo(meta: Dict, keys: seq<string>, i: nat, j: nat)
    requires i < j < |keys| && meta.Has(keys[i]) && meta.Has(keys[j])
    ensures CountPresent(meta, keys) > 1
  {
    var rest := keys[1..];
    if i == 0 {
      assert rest[j - 1] in rest;
    } else {
      CountAtLeastTwo(meta, rest, i - 1, j - 1);
    }
  }

  /** Precedence: the chain takes the earliest present key. */
  lemma {:induction false} FirstPresentEarliest(meta: Dict, keys: seq<string>, i: nat)
    requires i < |keys| && meta.Has(keys[i])
    requires forall j :: 0 <= j < i ==> !meta.Has(keys[j])
    ensures FirstPresent(meta, keys) == Some(meta.Get(keys[i]))
  {
    if i > 0 {
      assert !meta.Has(keys[0]);
      FirstPresentEarliest(meta, keys[1..], i - 1);
    }
  }

  /** The chain finds nothing exactly when no key is present. */
  lemma {:induction false} FirstPresentNone(meta: Dict, keys: seq<string>)
    ensures FirstPresent(meta, keys).None? <==> forall k :: k in keys ==> !meta.Has(k)
  {
    if keys != [] {
      FirstPresentNone(meta, keys[1..]);
      assert forall k :: k in keys <==> k == keys[0] || k in keys[1..];
    }
  }

  /** Without ambiguity the chain takes the one present key, whichever it is. */
  lemma FirstPresentOnly(meta: Dict, keys: seq<string>, i: nat)
    requires i < |keys| && meta.Has(keys[i])
    requires !Ambiguous(meta, keys)
    ensures FirstPresent(meta, keys) == Some(meta.Get(keys[i]))
  {
    forall j | 0 <= j < i
      ensures !meta.Has(keys[j])
    {
      assert !(meta.Has(keys[i]) && meta.Has(keys[j]));
    }
    FirstPresentEarliest(meta, keys, i);
  }

  /** What `get_transform` promises: it fails exactly on an ambiguous family
      (position first), and otherwise each block comes from the one tag of
      its family that is present, or is the identity when none is. */
  lemma GetTransformSpec(meta: Dict)
    ensures GetTransform(meta).Failure? <==>
              Ambiguous(meta, POSITION_TAGS) || Ambiguous(meta, ORIENTATION_TAGS)
    ensures Ambiguous(meta, POSITION_TAGS) ==>
              GetTransform(meta) == Failure(Error(ValueError, AmbiguousPosition))
    ensures !Ambiguous(meta, POSITION_TAGS) && Ambiguous(meta, ORIENTATION_TAGS) ==>
              GetTransform(meta) == Failure(Error(ValueError, AmbiguousOrientation))
    ensures GetTransform(meta).Success? ==>
              var p := GetTransform(meta).value;
              (p.translation.None? <==> forall k :: k in POSITION_TAGS ==> !meta.Has(k)) &&
              (forall i :: 0 <= i < |POSITION_TAGS| && meta.Has(POSITION_TAGS[i]) ==>
                 p.translation == Some(meta.Get(POSITION_TAGS[i]))) &&
              (p.rotation.None? <==> forall k :: k in ORIENTATION_TAGS ==> !meta.Has(k)) &&
              (forall i :: 0 <= i < |ORIENTATION_TAGS| && meta.Has(ORIENTATION_TAGS[i]) ==>
                 p.rotation == Some(meta.Get(ORIENTATION_TAGS[i]))) &&
              (p.center.Some? <==> meta.Has("CenterOfRotation"))
  {
    CountAmbiguous(meta, POSITION_TAGS);
    CountAmbiguous(meta, ORIENTATION_TAGS);
    FirstPresentNone(meta, POSITION_TAGS);
    FirstPresentNone(meta, ORIENTATION_TAGS);
    if GetTransform(meta).Success? {
      forall i | 0 <= i < |POSITION_TAGS| && meta.Has(POSITION_TAGS[i])
        ensures FirstPresent(meta, POSITION_TAGS) == Some(meta.Get(POSITION_TAGS[i]))
      {
        FirstPresentOnly(meta, POSITION_TAGS, i);
      }
      forall i | 0 <= i < |ORIENTATION_TAGS| && meta.Has(ORIENTATION_TAGS[i])
        ensures FirstPresent(meta, ORIENTATION_TAGS) == Some(meta.Get(ORIENTATION_TAGS[i]))
      {
        FirstPresentOnly(meta, ORIENTATION_TAGS, i);
      }
    }
  }

  // ------------------------------------------------------- writing tags

  /** `transform[:3, 3]` of a row-major 4 x 4 matrix. */
  function TranslationPart(cells: seq<Real>): (v: Value)
    requires |cells| == 16
    ensures v.FloatVec? && |v.xs| == 3
    ensures forall r :: 0 <= r < 3 ==> v.xs[r] == cells[4 * r + 3]
  {
    FloatVec([cells[3], cells[7], cells[11]])
  }

  /** `transform[:3, :3]` of a row-major 4 x 4 matrix, as a row-major 3 x 3. */
  function RotationPart(cells: seq<Real>): (v: Value)
    requires |cells| == 16
    ensures v.Matrix? && |v.cells| == 9
    ensures forall i :: 0 <= i < 9 ==> v.cells[i] == cells[4 * (i / 3) + i % 3]
  {
    Matrix(cells[0..3] + cells[4..7] + cells[8..11])
  }

  /** `np.zeros(3)`. */
  const ORIGIN_CENTER: Value := FloatVec([ZERO, ZERO, ZERO])

  /** The dict `set_transform` leaves behind, or the error it raises with
      the dict untouched. */
  function SetTransformSpec(meta: Dict, cells: seq<Real>, positionKey: string,
                            orientationKey: string): Result<Dict>
    requires |cells| == 16
  {
    if CountPresent(meta, POSITION_TAGS) > 0 then
      Failure(Error(ValueError, PositionDefined))
    else if CountPresent(meta, ORIENTATION_TAGS) > 0 then
      Failure(Error(ValueError, OrientationDefined))
    else
      Success(meta.Put(positionKey, TranslationPart(cells))
                  .Put(orientationKey, RotationPart(cells))
                  .Put("CenterOfRotation", ORIGIN_CENTER))
  }

  /** `set_transform(meta, transform, position_key, orientation_key)`: the
      dict is updated in place, and on success it is also what is returned. */
  method SetTransform(meta: MetaDict, cells: seq<Real>, positionKey: string,
                      orientationKey: string) returns (r: Result<MetaDict>)
    requires |cells| == 16 && meta.Valid()
    modifies meta
    ensures meta.Valid()
    ensures r.Success? ==> r.value == meta
    ensures var spec := SetTransformSpec(old(meta.Snapshot()), cells, positionKey, orientationKey);
            (r.Failure? <==> spec.Failure?) &&
            (r.Failure? ==> r.error == spec.error && meta.Snapshot() == old(meta.Snapshot())) &&
            (r.Success? ==> meta.Snapshot() == spec.value)
  {
    var snapshot := meta.Snapshot();
    if CountPresent(snapshot, POSITION_TAGS) > 0 {
      return Failure(Error(ValueError, PositionDefined));
    }
    if CountPresent(snapshot, ORIENTATION_TAGS) > 0 {
      return Failure(Error(ValueError, OrientationDefined));
    }
    meta.Put(positionKey, TranslationPart(cells));
    meta.Put(orientationKey, RotationPart(cells));
    meta.Put("CenterOfRotation", ORIGIN_CENTER);
    return Success(meta);
  }

  /** What `set_transform` promises: it refuses a dict that already places
      the image, and otherwise stores the two blocks of the transform and a
      zero center, keeps the dict well formed and leaves every other key
      alone. A later key wins when the caller passes colliding key names. */
  lemma SetTransformStores(meta: Dict, cells: seq<Real>, positionKey: string,
                           orientationKey: string)
    requires |cells| == 16 && meta.Valid()
    ensures var r := SetTransformSpec(meta, cells, positionKey, orientationKey);
            (r.Success? <==> (forall k :: k in POSITION_TAGS ==> !meta.Has(k)) &&
                             (forall k :: k in ORIENTATION_TAGS ==> !meta.Has(k))) &&
            (r.Success? ==>
               r.value.Valid() &&
               r.value.Get("CenterOfRotation") == ORIGIN_CENTER &&
               (orientationKey != "CenterOfRotation" ==>
                  r.value.Get(orientationKey) == RotationPart(cells)) &&
               (positionKey != orientationKey && positionKey != "CenterOfRotation" ==>
                  r.value.Get(positionKey) == TranslationPart(cells)) &&
               (forall k :: k != positionKey && k != orientationKey && k != "CenterOfRotation" ==>
                  r.value.Get(k) == meta.Get(k) && (r.value.Has(k) <==> meta.Has(k))) &&
               r.value.keys[..|meta.keys|] == meta.keys)
  {
    var r := SetTransformSpec(meta, cells, positionKey, orientationKey);
    if r.Success? {
      var d1 := meta.Put(positionKey, TranslationPart(cells));
      var d2 := d1.Put(orientationKey, RotationPart(cells));
      PutEffect(meta, positionKey, TranslationPart(cells));
      PutEffect(d1, orientationKey, RotationPart(cells));
      PutEffect(d2, "CenterOfRotation", ORIGIN_CENTER);
      PrefixOfPrefix(meta.keys, d1.keys, d2.keys);
      PrefixOfPrefix(meta.keys, d2.keys, r.value.keys);
    }
  }

  /** A prefix of a prefix is a prefix. */
  lemma PrefixOfPrefix<T>(a: seq<T>, b: seq<T>, c: seq<T>)
    requires |a| <= |b| <= |c| && b[..|a|] == a && c[..|b|] == b
    ensures c[..|a|] == a
  {
    assert c[..|a|] == c[..|b|][..|a|];
  }

  /** One assignment keeps the dict well formed, extends its key order and
      changes the one key. */
  lemma PutEffect(d: Dict, k: string, v: Value)
    requires d.Valid()
    ensures d.Put(k, v).Valid() && d.Put(k, v).Get(k) == v && d.Put(k, v).Has(k)
    ensures |d.keys| <= |d.Put(k, v).keys| && d.Put(k, v).keys[..|d.keys|] == d.keys
    ensures forall o :: o != k ==> d.Put(k, v).Get(o) == d.Get(o) && (d.Put(k, v).Has(o) <==> d.Has(o))
  {
    d.PutValid(k, v);
  }

  /** Round trip: placing a transform under the default keys and reading
      it back yields exactly the transform's translation and rotation
      blocks, centred on the origin. */
  lemma SetThenGet(meta: Dict, cells: seq<Real>)
    requires |cells| == 16 && meta.Valid()
    requires forall k :: k in POSITION_TAGS ==> !meta.Has(k)
    requires forall k :: k in ORIENTATION_TAGS ==> !meta.Has(k)
    ensures SetTransformSpec(meta, cells, "Position", "Orientation").Success?
    ensures GetTransform(SetTransformSpec(meta, cells, "Position", "Orientation").value) ==
              Success(Placement(Some(TranslationPart(cells)), Some(RotationPart(cells)),
                                Some(ORIGIN_CENTER)))
  {
    assert POSITION_TAGS[1] == "Offset" && POSITION_TAGS[2] == "Origin";
    assert ORIENTATION_TAGS[1] == "Rotation" && ORIENTATION_TAGS[2] == "TransformMatrix";
    assert !meta.Has(POSITION_TAGS[1]) && !meta.Has(POSITION_TAGS[2]);
    assert !meta.Has(ORIENTATION_TAGS[1]) && !meta.Has(ORIENTATION_TAGS[2]);
    var d := SetTransformSpec(meta, cells, "Position", "Orientation").value;
    assert d.vals == meta.vals["Position" := TranslationPart(cells)]
                              ["Orientation" := RotationPart(cells)]
                              ["CenterOfRotation" := ORIGIN_CENTER];
    GetTransformPlaced(d);
  }

  /** A dict holding only the default position and orientation tags of
      their families reads back those two values and its center. */
  lemma GetTransformPlaced(d: Dict)
    requires d.Has("Position") && !d.Has("Offset") && !d.Has("Origin")
    requires d.Has("Orientation") && !d.Has("Rotation") && !d.Has("TransformMatrix")
    requires d.Has("CenterOfRotation")
    ensures GetTransform(d) == Success(Placement(Some(d.Get("Position")),
              Some(d.Get("Orientation")), Some(d.Get("CenterOfRotation"))))
  {
    assert CountPresent(d, POSITION_TAGS[2..]) == 0;
    assert CountPresent(d, POSITION_TAGS) == 1;
    assert CountPresent(d, ORIENTATION_TAGS[2..]) == 0;
    assert CountPresent(d, ORIENTATION_TAGS) == 1;
  }
}
