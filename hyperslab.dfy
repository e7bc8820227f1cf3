/** The hyperslab query engine: named coordinate bounds become per-dimension
    offsets and lengths, a bound is resolved to the first matching index of
    the dimension's coordinate variable, and the selected elements are
    serialised little-endian under a tag naming their kind. */
module Hyperslab {
  import opened Base
  import opened Dataset
  import opened Codec

  /** A closed bound on one named dimension. */
  datatype Coordinate = Coordinate(name: string, min: real, max: real)

  /** The answer to a slice query: the kind's name and the packed bytes. */
  datatype Answer = Answer(tag: string, value: seq<Byte>)

  datatype Error =
    | LibraryError                  // an accessor of the netCDF library failed
    | VariableNotFound(name: string)
    | CoordinateNotFound(name: string)
    | ValueNotFound(value: real)
    | TypeMismatch(kind: Kind)
    | Panicked                      // a runtime panic: recovered in Lookup, uncaught in the prototype

  // ------------------------------------------------------------ indexOf

  /** The kinds indexOf scans. */
  predicate Searchable(k: Kind)
  {
    k in {SHORT, INT, INT64, FLOAT, DOUBLE}
  }

  /** Whether stored value x of a coordinate variable of kind k is within
      the tolerance of the bound converted to that kind. */
  predicate Matches(fl: FloatOps, k: Kind, x: int, value: real)
  {
    match k
    case SHORT => IntNear(2, x, ToInt(2, value))
    case INT => IntNear(4, x, ToInt(4, value))
    case INT64 => IntNear(8, x, ToInt(8, value))
    case FLOAT => fl.near32(x, value)
    case DOUBLE => fl.near64(x, value)
    case _ => false
  }

  function FirstMatch(fl: FloatOps, k: Kind, xs: seq<int>, value: real, i: nat): (r: Result<nat, Error>)
    requires i <= |xs|
    ensures r.Ok? ==> i <= r.value < |xs| && Matches(fl, k, xs[r.value], value)
    ensures r.Ok? ==> forall j :: i <= j < r.value ==> !Matches(fl, k, xs[j], value)
    ensures r.Err? <==> forall j :: i <= j < |xs| ==> !Matches(fl, k, xs[j], value)
    ensures r.Err? ==> r.error == ValueNotFound(value)
    decreases |xs| - i
  {
    if i == |xs| then Err(ValueNotFound(value))
    else if Matches(fl, k, xs[i], value) then Ok(i)
    else FirstMatch(fl, k, xs, value, i + 1)
  }

  /** indexOf(value, cv): the first index whose stored value matches the
      bound; "Value not found" when none does or the kind is not scanned. */
  function IndexOfValue(fl: FloatOps, value: real, cv: Variable): (r: Result<nat, Error>)
    ensures r.Ok? <==>
      Searchable(cv.kind) && exists j :: 0 <= j < |cv.values| && Matches(fl, cv.kind, cv.values[j], value)
    ensures r.Ok? ==> r.value < |cv.values| && Matches(fl, cv.kind, cv.values[r.value], value)
    ensures r.Ok? ==> forall j :: 0 <= j < r.value ==> !Matches(fl, cv.kind, cv.values[j], value)
    ensures r.Err? ==> r.error == ValueNotFound(value)
  {
    if !Searchable(cv.kind) then Err(ValueNotFound(value))
    else FirstMatch(fl, cv.kind, cv.values, value, 0)
  }

  method IndexOf(fl: FloatOps, value: real, cv: Variable) returns (r: Result<nat, Error>)
    ensures r == IndexOfValue(fl, value, cv)
  {
    if !Searchable(cv.kind) {
      return Err(ValueNotFound(value));
    }
    var i := 0;
    while i < |cv.values|
      invariant 0 <= i <= |cv.values|
      invariant forall j :: 0 <= j < i ==> !Matches(fl, cv.kind, cv.values[j], value)
    {
      if Matches(fl, cv.kind, cv.values[i], value) {
        return Ok(i);
      }
      i := i + 1;
    }
    return Err(ValueNotFound(value));
  }

  /** The byte width at which an integer kind is converted and compared. */
  function IntWidth(k: Kind): nat
  {
    match k
    case SHORT => 2
    case INT => 4
    case INT64 => 8
    case _ => 0
  }

  /** For SHORT, INT and INT64 the tolerance test is exact equality with
      the bound truncated (and wrapped) to the kind's width. */
  lemma IndexOfIntegerExact(fl: FloatOps, value: real, cv: Variable)
    requires cv.kind in {SHORT, INT, INT64}
    requires forall j :: 0 <= j < |cv.values| ==> SignedFits(IntWidth(cv.kind), cv.values[j])
    ensures var r := IndexOfValue(fl, value, cv);
      && (r.Ok? ==> cv.values[r.value] == ToInt(IntWidth(cv.kind), value))
      && (r.Ok? ==> forall j :: 0 <= j < r.value ==> cv.values[j] != ToInt(IntWidth(cv.kind), value))
      && (r.Err? <==> forall j :: 0 <= j < |cv.values| ==> cv.values[j] != ToInt(IntWidth(cv.kind), value))
  {
    var w := IntWidth(cv.kind);
    var t := ToInt(w, value);
    forall j | 0 <= j < |cv.values|
      ensures Matches(fl, cv.kind, cv.values[j], value) <==> cv.values[j] == t
    {
      IntNearIsEquality(w, cv.values[j], t);
    }
  }

  // ------------------------------------------------- offsetsWithLengths

  /** The first dimension whose name reads as `name`, scanning from j; a
      dimension whose name cannot be read before that is a library error. */
  function DimIndex(dims: seq<Dim>, name: string, j: nat): (r: Result<nat, Error>)
    requires j <= |dims|
    ensures r.Ok? ==> j <= r.value < |dims| && dims[r.value].name == Got(name)
    ensures r.Ok? ==> forall k :: j <= k < r.value ==> dims[k].name.Got? && dims[k].name != Got(name)
    ensures r == Err(CoordinateNotFound(name)) <==>
      forall k :: j <= k < |dims| ==> dims[k].name.Got? && dims[k].name != Got(name)
    ensures r.Err? ==> r.error == CoordinateNotFound(name) || r.error == LibraryError
    decreases |dims| - j
  {
    if j == |dims| then Err(CoordinateNotFound(name))
    else match dims[j].name
      case Failed => Err(LibraryError)
      case Got(n) => if n == name then Ok(j) else DimIndex(dims, name, j + 1)
  }

  /** The (offset, length) one coordinate asks for: indices of its bounds in
      the same-named coordinate variable, or the bounds themselves,
      truncated, when there is no such variable. */
  function CoordBound(fl: FloatOps, ds: Dataset, c: Coordinate): Result<(int, int), Error>
  {
    var cv := FindVar(ds, c.name);
    if cv.None? then Ok((Trunc(c.min), Trunc(c.max - c.min) + 1))
    else
      var iMin := IndexOfValue(fl, c.min, cv.value);
      var iMax := IndexOfValue(fl, c.max, cv.value);
      if iMin.Err? then Err(iMin.error)
      else if iMax.Err? then Err(iMax.error)
      else Ok((iMin.value, iMax.value - iMin.value + 1))
  }

  /** The body of the match branch of offsetsWithLengths: look up the
      coordinate variable and resolve both bounds, Min first. */
  method ResolveBound(fl: FloatOps, ds: Dataset, c: Coordinate) returns (r: Result<(int, int), Error>)
    ensures r == CoordBound(fl, ds, c)
  {
    var cv := FindVar(ds, c.name);
    if cv.None? {
      return Ok((Trunc(c.min), Trunc(c.max - c.min) + 1));
    }
    var iMin := IndexOf(fl, c.min, cv.value);
    if iMin.Err? {
      assert CoordBound(fl, ds, c) == Err(iMin.error);
      return Err(iMin.error);
    }
    var iMax := IndexOf(fl, c.max, cv.value);
    if iMax.Err? {
      assert CoordBound(fl, ds, c) == Err(iMax.error);
      return Err(iMax.error);
    }
    var a: int := iMin.value;
    var z: int := iMax.value;
    var len: int := z - a + 1;
    r := Ok((a, len));
  }

  /** Apply the coordinates in order to the running offsets and lengths. */
  function ApplyCoords(fl: FloatOps, ds: Dataset, dims: seq<Dim>, coords: seq<Coordinate>,
                       offsets: seq<int>, lens: seq<int>): (r: Result<(seq<int>, seq<int>), Error>)
    requires |offsets| == |dims| && |lens| == |dims|
    ensures r.Ok? ==> |r.value.0| == |dims| && |r.value.1| == |dims|
  {
    if coords == [] then Ok((offsets, lens))
    else match DimIndex(dims, coords[0].name, 0)
      case Err(e) => Err(e)
      case Ok(i) =>
        match CoordBound(fl, ds, coords[0])
        case Err(e) => Err(e)
        case Ok(b) => ApplyCoords(fl, ds, dims, coords[1..], offsets[i := b.0], lens[i := b.1])
  }

  /** offsetsWithLengths(df, coords, v): every dimension starts at offset 0
      with its declared length, then each coordinate overrides the first
      dimension bearing its name. */
  function Bounds(fl: FloatOps, ds: Dataset, coords: seq<Coordinate>, v: Variable)
    : Result<(seq<int>, seq<int>), Error>
  {
    if v.dims.Failed? then Err(LibraryError)
    else match Shape(v.dims.got)
      case None => Err(LibraryError)
      case Some(shape) => ApplyCoords(fl, ds, v.dims.got, coords, seq(|shape|, _ => 0), shape)
  }

  method OffsetsWithLengths(fl: FloatOps, ds: Dataset, coords: seq<Coordinate>, v: Variable)
    returns (r: Result<(seq<int>, seq<int>), Error>)
    ensures r == Bounds(fl, ds, coords, v)
  {
    if v.dims.Failed? {
      return Err(LibraryError);
    }
    var dims := v.dims.got;
    var offsets := new int[|dims|](_ => 0);
    var lens := new int[|dims|](_ => 0);

    for i := 0 to |dims|
      invariant forall j :: 0 <= j < i ==> dims[j].len == Got(lens[j])
      invariant offsets[..] == seq(|dims|, _ => 0)
    {
      match dims[i].len
      case Failed =>
        assert Shape(dims).None?;
        return Err(LibraryError);
      case Got(l) =>
        lens[i] := l;
    }
    var shape := Shape(dims);
    assert shape.Some?;
    assert shape.value == lens[..];

    for k := 0 to |coords|
      invariant Bounds(fl, ds, coords, v) == ApplyCoords(fl, ds, dims, coords[k..], offsets[..], lens[..])
    {
      var c := coords[k];
      assert coords[k..][0] == c && coords[k..][1..] == coords[k + 1..];
      var i := 0;
      var found := false;
      while i < |dims| && !found
        invariant 0 <= i <= |dims|
        invariant !found ==> DimIndex(dims, c.name, 0) == DimIndex(dims, c.name, i)
        invariant found ==> DimIndex(dims, c.name, 0) == Ok(i)
        decreases |dims| - i, if found then 0 else 1
      {
        match dims[i].name
        case Failed =>
          return Err(LibraryError);
        case Got(n) =>
          if n == c.name {
            found := true;
          } else {
            i := i + 1;
          }
      }
      if !found {
        return Err(CoordinateNotFound(c.name));
      }
      var b := ResolveBound(fl, ds, c);
      if b.Err? {
        return Err(b.error);
      }
      var (o, l) := b.value;
      ghost var offs0, lens0 := offsets[..], lens[..];
      assert ApplyCoords(fl, ds, dims, coords[k..], offs0, lens0)
          == ApplyCoords(fl, ds, dims, coords[k + 1..], offs0[i := o], lens0[i := l]);
      offsets[i] := o;
      lens[i] := l;
      assert offsets[..] == offs0[i := o] && lens[..] == lens0[i := l];
    }
    return Ok((offsets[..], lens[..]));
  }

  /** ApplyCoords leaves alone every dimension that no coordinate picks. */
  lemma {:induction false} ApplyCoordsUntouched(fl: FloatOps, ds: Dataset, dims: seq<Dim>, coords: seq<Coordinate>,
                                                offsets: seq<int>, lens: seq<int>, i: nat)
    requires |offsets| == |dims| && |lens| == |dims| && i < |dims|
    requires ApplyCoords(fl, ds, dims, coords, offsets, lens).Ok?
    requires forall k :: 0 <= k < |coords| ==> DimIndex(dims, coords[k].name, 0) != Ok(i)
    ensures var b := ApplyCoords(fl, ds, dims, coords, offsets, lens).value;
      b.0[i] == offsets[i] && b.1[i] == lens[i]
  {
    if coords != [] {
      var j := DimIndex(dims, coords[0].name, 0).value;
      var b := CoordBound(fl, ds, coords[0]).value;
      assert j != i by { assert DimIndex(dims, coords[0].name, 0) != Ok(i); }
      ApplyCoordsUntouched(fl, ds, dims, coords[1..], offsets[j := b.0], lens[j := b.1], i);
    }
  }

  /** The last coordinate that picks a dimension decides its bound. */
  lemma {:induction false} ApplyCoordsLastWins(fl: FloatOps, ds: Dataset, dims: seq<Dim>, coords: seq<Coordinate>,
                                               offsets: seq<int>, lens: seq<int>, k: nat, i: nat)
    requires |offsets| == |dims| && |lens| == |dims| && i < |dims| && k < |coords|
    requires ApplyCoords(fl, ds, dims, coords, offsets, lens).Ok?
    requires DimIndex(dims, coords[k].name, 0) == Ok(i)
    requires forall k' :: k < k' < |coords| ==> DimIndex(dims, coords[k'].name, 0) != Ok(i)
    ensures var b := ApplyCoords(fl, ds, dims, coords, offsets, lens).value;
      CoordBound(fl, ds, coords[k]) == Ok((b.0[i], b.1[i]))
  {
    var j := DimIndex(dims, coords[0].name, 0).value;
    var b := CoordBound(fl, ds, coords[0]).value;
    if k == 0 {
      ApplyCoordsUntouched(fl, ds, dims, coords[1..], offsets[j := b.0], lens[j := b.1], i);
    } else {
      ApplyCoordsLastWins(fl, ds, dims, coords[1..], offsets[j := b.0], lens[j := b.1], k - 1, i);
    }
  }

  /** Every coordinate of a successful query names a dimension of the
      variable: a coordinate naming none is never silently ignored. */
  lemma {:induction false} ApplyCoordsAllNamed(fl: FloatOps, ds: Dataset, dims: seq<Dim>, coords: seq<Coordinate>,
                                               offsets: seq<int>, lens: seq<int>)
    requires |offsets| == |dims| && |lens| == |dims|
    requires ApplyCoords(fl, ds, dims, coords, offsets, lens).Ok?
    ensures forall k :: 0 <= k < |coords| ==> exists i :: 0 <= i < |dims| && dims[i].name == Got(coords[k].name)
  {
    if coords != [] {
      var j := DimIndex(dims, coords[0].name, 0).value;
      var b := CoordBound(fl, ds, coords[0]).value;
      ApplyCoordsAllNamed(fl, ds, dims, coords[1..], offsets[j := b.0], lens[j := b.1]);
      forall k | 0 <= k < |coords|
        ensures exists i :: 0 <= i < |dims| && dims[i].name == Got(coords[k].name)
      {
        if k == 0 {
          assert dims[j].name == Got(coords[0].name);
        } else {
          assert coords[k] == coords[1..][k - 1];
        }
      }
    }
  }

  /** A query with a coordinate that names no dimension fails, returning
      no offsets and no lengths. */
  lemma UnknownCoordinateFails(fl: FloatOps, ds: Dataset, coords: seq<Coordinate>, v: Variable, k: nat)
    requires k < |coords| && v.dims.Got?
    requires forall i :: 0 <= i < |v.dims.got| ==> v.dims.got[i].name != Got(coords[k].name)
    ensures Bounds(fl, ds, coords, v).Err?
  {
    var dims := v.dims.got;
    var shape := Shape(dims);
    if shape.Some? {
      var zeros := seq(|shape.value|, _ => 0);
      if ApplyCoords(fl, ds, dims, coords, zeros, shape.value).Ok? {
        ApplyCoordsAllNamed(fl, ds, dims, coords, zeros, shape.value);
      }
    }
  }

  /** When the coordinates before k all resolve, a coordinate k that names
      no dimension (all names readable) fails with CoordinateNotFound. */
  lemma {:induction false} ApplyCoordsNotFound(fl: FloatOps, ds: Dataset, dims: seq<Dim>, coords: seq<Coordinate>,
                                               offsets: seq<int>, lens: seq<int>, k: nat)
    requires |offsets| == |dims| && |lens| == |dims| && k < |coords|
    requires forall k' :: 0 <= k' < k ==> DimIndex(dims, coords[k'].name, 0).Ok? && CoordBound(fl, ds, coords[k']).Ok?
    requires forall i :: 0 <= i < |dims| ==> dims[i].name.Got? && dims[i].name != Got(coords[k].name)
    ensures ApplyCoords(fl, ds, dims, coords, offsets, lens) == Err(CoordinateNotFound(coords[k].name))
  {
    if k > 0 {
      var j := DimIndex(dims, coords[0].name, 0).value;
      var b := CoordBound(fl, ds, coords[0]).value;
      forall k' | 0 <= k' < k - 1
        ensures DimIndex(dims, coords[1..][k'].name, 0).Ok? && CoordBound(fl, ds, coords[1..][k']).Ok?
      {
        assert coords[1..][k'] == coords[k' + 1];
      }
      ApplyCoordsNotFound(fl, ds, dims, coords[1..], offsets[j := b.0], lens[j := b.1], k - 1);
    }
  }

  /** offsetsWithLengths gives a dimension that no coordinate picks
      offset 0 and its declared length. */
  lemma BoundsUnconstrained(fl: FloatOps, ds: Dataset, coords: seq<Coordinate>, v: Variable, i: nat)
    requires Bounds(fl, ds, coords, v).Ok?
    requires v.dims.Got? && i < |v.dims.got|
    requires forall k :: 0 <= k < |coords| ==> DimIndex(v.dims.got, coords[k].name, 0) != Ok(i)
    ensures var b := Bounds(fl, ds, coords, v).value;
      |b.0| == |b.1| == |v.dims.got| && b.0[i] == 0 && v.dims.got[i].len == Got(b.1[i])
  {
    var shape := Shape(v.dims.got).value;
    ApplyCoordsUntouched(fl, ds, v.dims.got, coords, seq(|shape|, _ => 0), shape, i);
  }

  /** The dimension picked last by coordinate k gets, when a same-named
      coordinate variable exists, offset indexOf(Min) and length
      indexOf(Max) - indexOf(Min) + 1 (with no check that this is
      positive), and otherwise offset trunc(Min) and length
      trunc(Max - Min) + 1, the difference truncated as a whole. */
  lemma BoundsLastCoordinate(fl: FloatOps, ds: Dataset, coords: seq<Coordinate>, v: Variable, k: nat, i: nat)
    requires Bounds(fl, ds, coords, v).Ok?
    requires v.dims.Got? && i < |v.dims.got| && k < |coords|
    requires DimIndex(v.dims.got, coords[k].name, 0) == Ok(i)
    requires forall k' :: k < k' < |coords| ==> DimIndex(v.dims.got, coords[k'].name, 0) != Ok(i)
    ensures var b := Bounds(fl, ds, coords, v).value;
      var c := coords[k];
      |b.0| == |b.1| == |v.dims.got| &&
      match FindVar(ds, c.name)
      case None => b.0[i] == Trunc(c.min) && b.1[i] == Trunc(c.max - c.min) + 1
      case Some(cv) =>
        IndexOfValue(fl, c.min, cv) == Ok(b.0[i]) && IndexOfValue(fl, c.max, cv).Ok? &&
        b.1[i] == IndexOfValue(fl, c.max, cv).value - b.0[i] + 1
  {
    var shape := Shape(v.dims.got).value;
    ApplyCoordsLastWins(fl, ds, v.dims.got, coords, seq(|shape|, _ => 0), shape, k, i);
  }

  // ---------------------------------------------------------- getSlice

  /** getSlice(v, offsets, lens): read product(lens) elements of the
      hyperslab and serialise them under the kind's name. */
  function Slice(v: Variable, offsets: seq<int>, lens: seq<int>): Result<Answer, Error>
  {
    if !Encodable(v.kind) then Err(TypeMismatch(v.kind))
    else if Product(lens) < 0 then Err(Panicked)
    else match ReadArray(v, offsets, lens)
      case None => Err(LibraryError)
      case Some(data) => Ok(Answer(KindName(v.kind), Encode(v.kind, data)))
  }

  method GetSlice(v: Variable, offsets: seq<int>, lens: seq<int>) returns (r: Result<Answer, Error>)
    ensures r == Slice(v, offsets, lens)
  {
    var total := 1;
    for i := 0 to |lens|
      invariant total == Product(lens[..i])
    {
      assert lens[..i + 1][..i] == lens[..i];
      total := total * lens[i];
    }
    assert lens[..|lens|] == lens;
    if !Encodable(v.kind) {
      return Err(TypeMismatch(v.kind));
    }
    if total < 0 {
      return Err(Panicked);
    }
    var data := ReadArray(v, offsets, lens);
    if data.None? {
      return Err(LibraryError);
    }
    var buf: seq<Byte> := [];
    for j := 0 to |data.value|
      invariant buf == Encode(v.kind, data.value[..j])
    {
      assert data.value[..j + 1][..j] == data.value[..j];
      buf := buf + EncodeElem(v.kind, data.value[j]);
    }
    assert data.value[..|data.value|] == data.value;
    return Ok(Answer(KindName(v.kind), buf));
  }

  /** A successful slice is tagged with the kind's name, holds
      width x product(lens) bytes, and decodes to the elements read. */
  lemma SliceShape(v: Variable, offsets: seq<int>, lens: seq<int>)
    requires Slice(v, offsets, lens).Ok?
    requires forall j :: 0 <= j < |v.values| ==> Encodable(v.kind) && InRange(v.kind, v.values[j])
    ensures Encodable(v.kind)
    ensures Slice(v, offsets, lens).value.tag == KindName(v.kind)
    ensures |Slice(v, offsets, lens).value.value| == Width(v.kind) * Product(lens)
    ensures ReadArray(v, offsets, lens).Some?
    ensures Decode(v.kind, Slice(v, offsets, lens).value.value) == ReadArray(v, offsets, lens).value
  {
    var data := ReadArray(v, offsets, lens).value;
    EncodeLength(v.kind, data);
    ReadArrayFromValues(v, offsets, lens);
    DecodeEncode(v.kind, data);
  }

  /** Every element of a hyperslab is one of the variable's values. */
  lemma ReadArrayFromValues(v: Variable, offsets: seq<int>, lens: seq<int>)
    requires ReadArray(v, offsets, lens).Some?
    ensures forall j :: 0 <= j < |ReadArray(v, offsets, lens).value| ==> ReadArray(v, offsets, lens).value[j] in v.values
  {
    var shape := Shape(v.dims.got).value;
    SlabFromValues(shape, v.values, offsets, lens);
  }

  lemma {:induction false} SlabFromValues(shape: seq<nat>, values: seq<int>, offsets: seq<int>, lens: seq<int>)
    requires Slab(shape, values, offsets, lens).Some?
    ensures forall j :: 0 <= j < |Slab(shape, values, offsets, lens).value| ==> Slab(shape, values, offsets, lens).value[j] in values
    decreases |shape|, 1, 0
  {
    if shape != [] {
      RowsFromValues(shape, values, Product(shape[1..]), offsets, lens, offsets[0], offsets[0] + lens[0]);
    }
  }

  lemma {:induction false} RowsFromValues(shape: seq<nat>, values: seq<int>, stride: nat,
                                          offsets: seq<int>, lens: seq<int>, lo: int, hi: int)
    requires |shape| >= 1 && |offsets| == |shape| && |lens| == |shape|
    requires 0 <= lo <= hi && hi * stride <= |values|
    requires Rows(shape, values, stride, offsets, lens, lo, hi).Some?
    ensures forall j :: 0 <= j < |Rows(shape, values, stride, offsets, lens, lo, hi).value| ==>
      Rows(shape, values, stride, offsets, lens, lo, hi).value[j] in values
    decreases |shape|, 0, hi - lo
  {
    if lo < hi {
      RowBounds(lo, hi, stride);
      var row := values[lo * stride..(lo + 1) * stride];
      SlabFromValues(shape[1..], row, offsets[1..], lens[1..]);
      RowsFromValues(shape, values, stride, offsets, lens, lo + 1, hi);
      var a := Slab(shape[1..], row, offsets[1..], lens[1..]).value;
      var b := Rows(shape, values, stride, offsets, lens, lo + 1, hi).value;
      forall j | 0 <= j < |a + b| ensures (a + b)[j] in values {
        if j < |a| {
          assert a[j] in row;
        } else {
          assert (a + b)[j] == b[j - |a|];
        }
      }
    }
  }

  /** Kinds outside BYTE, CHAR, SHORT, INT, INT64, FLOAT and DOUBLE fail
      with "Type mismatch" naming the kind. */
  lemma SliceTypeMismatch(v: Variable, offsets: seq<int>, lens: seq<int>)
    ensures !Encodable(v.kind) <==> Slice(v, offsets, lens) == Err(TypeMismatch(v.kind))
  {
  }

  // ------------------------------------------------------------ Lookup

  /** Lookup(f, varname, coords) on an opened dataset. */
  function Query(fl: FloatOps, ds: Dataset, varname: string, coords: seq<Coordinate>): Result<Answer, Error>
  {
    match FindVar(ds, varname)
    case None => Err(VariableNotFound(varname))
    case Some(v) =>
      match Bounds(fl, ds, coords, v)
      case Err(e) => Err(e)
      case Ok(b) => Slice(v, b.0, b.1)
  }

  method Lookup(fl: FloatOps, ds: Dataset, varname: string, coords: seq<Coordinate>) returns (r: Result<Answer, Error>)
    ensures r == Query(fl, ds, varname, coords)
  {
    var v := FindVar(ds, varname);
    if v.None? {
      return Err(VariableNotFound(varname));
    }
    var b := OffsetsWithLengths(fl, ds, coords, v.value);
    if b.Err? {
      return Err(b.error);
    }
    r := GetSlice(v.value, b.value.0, b.value.1);
  }

  /** A query whose coordinate names no dimension of the variable never
      succeeds. */
  lemma QueryUnknownCoordinate(fl: FloatOps, ds: Dataset, varname: string, coords: seq<Coordinate>, k: nat)
    requires k < |coords|
    requires FindVar(ds, varname).Some? && FindVar(ds, varname).value.dims.Got?
    requires var dims := FindVar(ds, varname).value.dims.got;
      forall i :: 0 <= i < |dims| ==> dims[i].name != Got(coords[k].name)
    ensures Query(fl, ds, varname, coords).Err?
  {
    UnknownCoordinateFails(fl, ds, coords, FindVar(ds, varname).value, k);
  }

  // ------------------------------------------------------- worked cases

  function Dimension(name: string, len: nat): Dim
  {
    Dim(Got(name), Got(len))
  }

  /** With no coordinates, a variable over (time 5, lat 4, lon 3) is read
      whole: offsets 0, 0, 0, lengths 5, 4, 3, 60 elements. */
  lemma NoCoordinatesSelectsAll(fl: FloatOps, ds: Dataset, v: Variable)
    requires v.dims == Got([Dimension("time", 5), Dimension("lat", 4), Dimension("lon", 3)])
    ensures Bounds(fl, ds, [], v) == Ok(([0, 0, 0], [5, 4, 3]))
    ensures Product(Bounds(fl, ds, [], v).value.1) == 60
  {
    ShapeOf(v.dims.got, [5, 4, 3]);
    assert seq(3, _ => 0) == [0, 0, 0];
    assert Product([5]) == 5 by { assert [5][..0] == []; }
    assert Product([5, 4]) == 20 by { assert [5, 4][..1] == [5]; }
    assert [5, 4, 3][..2] == [5, 4];
  }

  /** A descending INT coordinate variable lat = 40, 30, 20, 10, 0. */
  function Latitudes(): Variable
  {
    Variable(Got("lat"), INT, Got([Dimension("lat", 5)]), [40, 30, 20, 10, 0], [])
  }

  /** Min == Max on a value stored at index 3 selects offset 3, length 1. */
  lemma DegenerateBoundSelectsOneIndex(fl: FloatOps)
    ensures Bounds(fl, Dataset([], [Latitudes()]), [Coordinate("lat", 10.0, 10.0)], Latitudes())
         == Ok(([3], [1]))
  {
    var cv := Latitudes();
    var ds := Dataset([], [cv]);
    var c := Coordinate("lat", 10.0, 10.0);
    assert FindVar(ds, "lat") == Some(cv);
    IndexAt(fl, 10.0, cv, 3);
    assert CoordBound(fl, ds, c) == Ok((3, 1));
    LatitudeBounds(fl, ds, c);
  }

  /** Nothing checks that index(Max) >= index(Min): on a descending
      coordinate variable the length comes out negative. */
  lemma DescendingBoundsGiveNegativeLength(fl: FloatOps)
    ensures Bounds(fl, Dataset([], [Latitudes()]), [Coordinate("lat", 10.0, 30.0)], Latitudes())
         == Ok(([3], [-1]))
  {
    var cv := Latitudes();
    var ds := Dataset([], [cv]);
    var c := Coordinate("lat", 10.0, 30.0);
    assert FindVar(ds, "lat") == Some(cv);
    IndexAt(fl, 10.0, cv, 3);
    IndexAt(fl, 30.0, cv, 1);
    assert CoordBound(fl, ds, c) == Ok((3, -1));
    LatitudeBounds(fl, ds, c);
  }

  /** Without a coordinate variable the difference Max - Min is truncated,
      not each bound: [0.5, 1.4] gives length 1 where 1 - 0 + 1 = 2. */
  lemma LiteralBoundsTruncateTheDifference(fl: FloatOps, v: Variable)
    requires v.dims == Got([Dimension("x", 10)])
    ensures Bounds(fl, Dataset([], []), [Coordinate("x", 0.5, 1.4)], v) == Ok(([0], [1]))
    ensures Bounds(fl, Dataset([], []), [Coordinate("x", 0.5, 1.4)], v).value.1[0] != Trunc(1.4) - Trunc(0.5) + 1
  {
    var c := Coordinate("x", 0.5, 1.4);
    ShapeOf(v.dims.got, [10]);
    assert Trunc(0.9) == 0;
    assert CoordBound(fl, Dataset([], []), c) == Ok((0, 1));
    assert DimIndex(v.dims.got, "x", 0) == Ok(0);
    assert seq(1, _ => 0) == [0];
    assert [c][1..] == [] && [0][0 := 0] == [0] && [10][0 := 1] == [1];
    assert ApplyCoords(fl, Dataset([], []), v.dims.got, [c], [0], [10])
        == ApplyCoords(fl, Dataset([], []), v.dims.got, [], [0], [1]);
  }

  /** Bounds on the one-dimensional Latitudes() is the bound of its coordinate. */
  lemma LatitudeBounds(fl: FloatOps, ds: Dataset, c: Coordinate)
    requires c.name == "lat" && CoordBound(fl, ds, c).Ok?
    ensures var b := CoordBound(fl, ds, c).value;
      Bounds(fl, ds, [c], Latitudes()) == Ok(([b.0], [b.1]))
  {
    var dims := Latitudes().dims.got;
    var b := CoordBound(fl, ds, c).value;
    ShapeOf(dims, [5]);
    assert DimIndex(dims, "lat", 0) == Ok(0);
    assert seq(1, _ => 0) == [0];
    assert [c][1..] == [] && [0][0 := b.0] == [b.0] && [5][0 := b.1] == [b.1];
    assert ApplyCoords(fl, ds, dims, [c], [0], [5]) == ApplyCoords(fl, ds, dims, [], [b.0], [b.1]);
  }

  /** The value at index i of an INT variable of small integers is found
      at i when no earlier value equals it. */
  lemma IndexAt(fl: FloatOps, value: real, cv: Variable, i: nat)
    requires cv.kind == INT && i < |cv.values| && value == cv.values[i] as real
    requires forall j :: 0 <= j < |cv.values| ==> 0 <= cv.values[j] < 1000
    requires forall j :: 0 <= j < i ==> cv.values[j] != cv.values[i]
    ensures IndexOfValue(fl, value, cv) == Ok(i)
  {
    assert Pow256(4) == 0x1_0000_0000 by {
      assert Pow256(2) == 0x1_0000;
    }
    assert Trunc(value) == cv.values[i];
    assert ToInt(4, value) == cv.values[i];
    IndexOfIntegerExact(fl, value, cv);
  }
}
