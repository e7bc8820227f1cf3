/** The netCDF dataset as the rest of the model sees it: an immutable value
    standing for an opened file. The library's accessors that the source
    checks for errors (a dimension's name and length, a variable's name and
    its list of dimensions) are fields that may hold a failure. */
module Dataset {
  import opened Base

  /** The netCDF external data types (nc_type). */
  datatype Kind = BYTE | CHAR | SHORT | INT | FLOAT | DOUBLE
                | UBYTE | USHORT | UINT | INT64 | UINT64 | STRING

  /** The outcome of one accessor of the netCDF library. */
  datatype Lib<+T> = Got(got: T) | Failed

  datatype Dim = Dim(name: Lib<string>, len: Lib<nat>)

  /** An attribute: a name, a kind and its values, each held as an integer
      interpreted per kind (a signed value for the integer kinds, the raw
      IEEE-754 bit pattern for FLOAT and DOUBLE, a byte for CHAR). */
  datatype Attr = Attr(name: string, kind: Kind, values: seq<int>)

  /** A variable: its values are held flat, in row-major order, each
      interpreted per kind as for attributes. */
  datatype Variable = Variable(name: Lib<string>, kind: Kind, dims: Lib<seq<Dim>>,
                               values: seq<int>, attrs: seq<Attr>)

  datatype Dataset = Dataset(attrs: seq<Attr>, vars: seq<Variable>)

  /** The kinds the hyperslab encoder knows, with their width in bytes. */
  predicate Encodable(k: Kind)
  {
    k in {BYTE, CHAR, SHORT, INT, INT64, FLOAT, DOUBLE}
  }

  function Width(k: Kind): (w: nat)
    requires Encodable(k)
    ensures 1 <= w <= 8
  {
    match k
    case BYTE => 1
    case CHAR => 1
    case SHORT => 2
    case INT => 4
    case INT64 => 8
    case FLOAT => 4
    case DOUBLE => 8
  }

  /** The tag the query engine puts on a result of this kind. */
  function KindName(k: Kind): string
  {
    match k
    case BYTE => "BYTE"
    case CHAR => "CHAR"
    case SHORT => "SHORT"
    case INT => "INT"
    case FLOAT => "FLOAT"
    case DOUBLE => "DOUBLE"
    case UBYTE => "UBYTE"
    case USHORT => "USHORT"
    case UINT => "UINT"
    case INT64 => "INT64"
    case UINT64 => "UINT64"
    case STRING => "STRING"
  }

  /** df.Var(name): the first variable whose name reads as `name`. */
  function FindVar(ds: Dataset, name: string): (r: Option<Variable>)
    ensures r.Some? ==> r.value in ds.vars && r.value.name == Got(name)
    ensures r.None? ==> forall i :: 0 <= i < |ds.vars| ==> ds.vars[i].name != Got(name)
  {
    FindVarFrom(ds.vars, name, 0)
  }

  function FindVarFrom(vs: seq<Variable>, name: string, i: nat): (r: Option<Variable>)
    requires i <= |vs|
    ensures r.Some? ==> r.value in vs[i..] && r.value.name == Got(name)
    ensures r.None? ==> forall j :: i <= j < |vs| ==> vs[j].name != Got(name)
    decreases |vs| - i
  {
    if i == |vs| then None
    else if vs[i].name == Got(name) then Some(vs[i])
    else FindVarFrom(vs, name, i + 1)
  }

  /** The declared lengths of a list of dimensions, when every one reads. */
  function Shape(dims: seq<Dim>): (r: Option<seq<nat>>)
    ensures r.Some? ==> |r.value| == |dims|
    ensures r.Some? ==> forall i :: 0 <= i < |dims| ==> dims[i].len == Got(r.value[i])
    ensures r.None? ==> exists i :: 0 <= i < |dims| && dims[i].len.Failed?
  {
    if dims == [] then Some([])
    else match (dims[0].len, Shape(dims[1..]))
      case (Got(n), Some(rest)) => Some([n] + rest)
      case (Failed, _) => None
      case (_, None) =>
        var i :| 0 <= i < |dims[1..]| && dims[1..][i].len.Failed?;
        assert dims[i + 1].len.Failed?;
        None
  }

  /** Dimensions whose lengths all read have exactly those lengths as shape. */
  lemma ShapeOf(dims: seq<Dim>, lens: seq<nat>)
    requires |lens| == |dims| && forall i :: 0 <= i < |dims| ==> dims[i].len == Got(lens[i])
    ensures Shape(dims) == Some(lens)
  {
    assert Shape(dims).value == lens;
  }

  /** The library's hyperslab read (nc_get_vara): the elements of the box
      that starts at `offsets` and spans `lens`, in row-major order; None
      when the box leaves the array or the request does not fit the shape. */
  function Slab(shape: seq<nat>, values: seq<int>, offsets: seq<int>, lens: seq<int>): Option<seq<int>>
    decreases |shape|, 1, 0
  {
    if |offsets| != |shape| || |lens| != |shape| then None
    else if shape == [] then (if |values| == 1 then Some(values) else None)
    else
      var stride := Product(shape[1..]);
      if offsets[0] < 0 || lens[0] < 0 || offsets[0] + lens[0] > shape[0]
         || stride < 0 || |values| != shape[0] * stride
      then None
      else Rows(shape, values, stride, offsets, lens, offsets[0], offsets[0] + lens[0])
  }

  /** Rows lo .. hi-1 of the outermost dimension, each cut down recursively. */
  function Rows(shape: seq<nat>, values: seq<int>, stride: nat, offsets: seq<int>, lens: seq<int>,
                lo: int, hi: int): Option<seq<int>>
    requires |shape| >= 1 && |offsets| == |shape| && |lens| == |shape|
    requires 0 <= lo <= hi && hi * stride <= |values|
    decreases |shape|, 0, hi - lo
  {
    if lo == hi then Some([])
    else
      RowBounds(lo, hi, stride);
      var row := values[lo * stride..(lo + 1) * stride];
      match (Slab(shape[1..], row, offsets[1..], lens[1..]),
             Rows(shape, values, stride, offsets, lens, lo + 1, hi))
      case (Some(a), Some(b)) => Some(a + b)
      case _ => None
  }

  lemma RowBounds(lo: int, hi: int, stride: nat)
    requires 0 <= lo < hi
    ensures 0 <= lo * stride <= (lo + 1) * stride <= hi * stride
  {
    var d: nat := hi - lo - 1;
    assert (lo + 1) * stride == lo * stride + stride;
    assert hi * stride == (lo + 1) * stride + d * stride;
    assert d * stride >= 0;
    assert lo * stride >= 0;
  }

  /** A successful read yields exactly product(lens) elements. */
  lemma {:induction false} SlabLength(shape: seq<nat>, values: seq<int>, offsets: seq<int>, lens: seq<int>)
    requires Slab(shape, values, offsets, lens).Some?
    ensures |Slab(shape, values, offsets, lens).value| == Product(lens)
    decreases |shape|, 1, 0
  {
    if shape != [] {
      var stride := Product(shape[1..]);
      RowsLength(shape, values, stride, offsets, lens, offsets[0], offsets[0] + lens[0]);
      ProductCons(lens[0], lens[1..]);
      assert [lens[0]] + lens[1..] == lens;
    }
  }

  lemma {:induction false} RowsLength(shape: seq<nat>, values: seq<int>, stride: nat,
                                      offsets: seq<int>, lens: seq<int>, lo: int, hi: int)
    requires |shape| >= 1 && |offsets| == |shape| && |lens| == |shape|
    requires 0 <= lo <= hi && hi * stride <= |values|
    requires Rows(shape, values, stride, offsets, lens, lo, hi).Some?
    ensures |Rows(shape, values, stride, offsets, lens, lo, hi).value| == (hi - lo) * Product(lens[1..])
    decreases |shape|, 0, hi - lo
  {
    if lo < hi {
      RowBounds(lo, hi, stride);
      var row := values[lo * stride..(lo + 1) * stride];
      var p := Product(lens[1..]);
      SlabLength(shape[1..], row, offsets[1..], lens[1..]);
      RowsLength(shape, values, stride, offsets, lens, lo + 1, hi);
      var a := Slab(shape[1..], row, offsets[1..], lens[1..]).value;
      var b := Rows(shape, values, stride, offsets, lens, lo + 1, hi).value;
      assert Rows(shape, values, stride, offsets, lens, lo, hi).value == a + b;
      assert |a| == p && |b| == (hi - (lo + 1)) * p;
      assert (hi - lo) * p == p + (hi - (lo + 1)) * p by {
        assert hi - lo == 1 + (hi - (lo + 1));
      }
    }
  }

  /** v.ReadArray(offsets, lens): the library read of a variable's hyperslab. */
  function ReadArray(v: Variable, offsets: seq<int>, lens: seq<int>): (r: Option<seq<int>>)
    ensures r.Some? ==> |r.value| == Product(lens)
  {
    if v.dims.Failed? then None
    else match Shape(v.dims.got)
      case None => None
      case Some(shape) =>
        var r := Slab(shape, v.values, offsets, lens);
        if r.Some? then SlabLength(shape, v.values, offsets, lens); r else r
  }
}
