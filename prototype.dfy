/** The older prototype of the engine: a metadata walker that tolerates
    unreadable dimensions and variables, a tagged value holder, and a query
    path whose matching policy differs from the hyperslab engine's
    (coordinates naming no dimension are ignored, the first matching
    coordinate wins, and a bound that matches nothing falls back to an
    index instead of failing). */
module Prototype {
  import opened Base
  import opened Dataset
  import opened Codec
  import opened Hyperslab
  import Metadata

  const MaxInt32: int := 0x7FFF_FFFF

  // ----------------------------------------------------------- GetAttValue

  /** GetAttValue(a): element 0 of an INT or FLOAT attribute, the text of a
      CHAR one; any other kind is a type mismatch. Element 0 of an empty
      numeric attribute is an index panic. */
  function GetAttValue(a: Attr): (r: Result<Metadata.Value, Error>)
    ensures r.Ok? <==> a.kind == CHAR || (a.kind in {INT, FLOAT} && |a.values| >= 1)
    ensures r.Err? ==> r.error == if a.kind in {INT, FLOAT} then Panicked else TypeMismatch(a.kind)
  {
    match a.kind
    case CHAR => Ok(Metadata.Text(a.values))
    case INT => if |a.values| == 0 then Err(Panicked) else Ok(Metadata.Int(a.values[0]))
    case FLOAT => if |a.values| == 0 then Err(Panicked) else Ok(Metadata.Float(a.values[0]))
    case _ => Err(TypeMismatch(a.kind))
  }

  /** On INT, CHAR and FLOAT the prototype reads what attrValue reads; it
      refuses SHORT and DOUBLE attributes that attrValue accepts. */
  lemma GetAttValueAgreesWithAttrValue(a: Attr)
    ensures a.kind in {INT, CHAR, FLOAT} && |a.values| >= 1 ==>
      GetAttValue(a).Ok? && Metadata.AttrValue(a) == Ok(GetAttValue(a).value)
    ensures a.kind == CHAR ==> Metadata.AttrValue(a) == Ok(GetAttValue(a).value)
    ensures a.kind in {SHORT, DOUBLE} && |a.values| >= 1 ==>
      GetAttValue(a) == Err(TypeMismatch(a.kind)) && Metadata.AttrValue(a).Ok?
  {
  }

  // ----------------------------------------------------------- ValueHolder

  /** The fields of a ValueHolder: the text, the ints and the floats read
      from an attribute, the type tag (None for Go's zero type) and the
      free-form value. */
  datatype Holder = Holder(c: seq<int>, i: seq<int>, f: seq<int>, t: Option<Kind>, any: Option<Metadata.Value>)

  const Zero: Holder := Holder([], [], [], None, None)

  /** GetValue: the field the type tag selects; element 0 of the ints or
      floats (a panic when they are empty); nil for any other tag. */
  function GetValue(h: Holder): (r: Result<Option<Metadata.Value>, Error>)
    ensures r.Err? <==> (h.t == Some(INT) && h.i == []) || (h.t == Some(FLOAT) && h.f == [])
    ensures r.Ok? && r.value.Some? ==> h.t.Some? && h.t.value in {CHAR, INT, FLOAT, STRING}
  {
    match h.t
    case Some(CHAR) => Ok(Some(Metadata.Text(h.c)))
    case Some(INT) => if h.i == [] then Err(Panicked) else Ok(Some(Metadata.Int(h.i[0])))
    case Some(FLOAT) => if h.f == [] then Err(Panicked) else Ok(Some(Metadata.Float(h.f[0])))
    case Some(STRING) => Ok(h.any)
    case _ => Ok(None)
  }

  /** The holder after SetValue(a): the tag becomes the attribute's kind
      and, for CHAR, INT and FLOAT, the matching field takes its values. */
  function Assigned(h: Holder, a: Attr): Holder
  {
    h.(t := Some(a.kind),
       c := if a.kind == CHAR then a.values else h.c,
       i := if a.kind == INT then a.values else h.i,
       f := if a.kind == FLOAT then a.values else h.f)
  }

  class ValueHolder {
    var c: seq<int>
    var i: seq<int>
    var f: seq<int>
    var t: Option<Kind>
    var any: Option<Metadata.Value>

    function Snapshot(): Holder
      reads this
    {
      Holder(c, i, f, t, any)
    }

    constructor()
      ensures Snapshot() == Zero
    {
      c, i, f, t, any := [], [], [], None, None;
    }

    method SetValue(a: Attr)
      modifies this
      ensures Snapshot() == Assigned(old(Snapshot()), a)
    {
      t := Some(a.kind);
      match a.kind
      case CHAR => c := a.values;
      case INT => i := a.values;
      case FLOAT => f := a.values;
      case _ =>
    }
  }

  /** GetValue after SetValue(a) is GetAttValue(a) for CHAR, INT and FLOAT,
      the free-form value for STRING, and nil for every other kind. */
  lemma GetAfterSet(h: Holder, a: Attr)
    ensures a.kind in {CHAR, INT, FLOAT} ==>
      GetValue(Assigned(h, a)) == match GetAttValue(a) { case Ok(x) => Ok(Some(x)) case Err(e) => Err(e) }
    ensures a.kind == STRING ==> GetValue(Assigned(h, a)) == Ok(h.any)
    ensures a.kind !in {CHAR, INT, FLOAT, STRING} ==> GetValue(Assigned(h, a)) == Ok(None)
  {
  }

  // ------------------------------------------------------ NetcdfFileHandler

  /** filepath.Base: the last element of a slash-separated path, trailing
      slashes ignored; "." for the empty path and "/" for a path of
      slashes only. */
  function PathBase(p: string): (b: string)
    ensures |b| >= 1
    ensures b != "/" ==> '/' !in b
  {
    if p == "" then "."
    else
      var q := TrimSlashes(p);
      if q == "" then "/" else LastElement(q)
  }

  function TrimSlashes(p: string): (q: string)
    ensures q == [] || q[|q| - 1] != '/'
    ensures |q| <= |p| && q == p[..|q|]
  {
    if p == [] || p[|p| - 1] != '/' then p else TrimSlashes(p[..|p| - 1])
  }

  /** What follows the last slash. */
  function LastElement(q: string): (e: string)
    ensures '/' !in e
    ensures q != [] && q[|q| - 1] != '/' ==> e != []
    ensures |e| <= |q| && e == q[|q| - |e|..]
  {
    if q == [] || q[|q| - 1] == '/' then [] else LastElement(q[..|q| - 1]) + [q[|q| - 1]]
  }

  /** The base of dir/name is name, for a name without slashes. */
  lemma PathBaseOfJoin(dir: string, name: string)
    requires name != [] && '/' !in name
    ensures PathBase(dir + "/" + name) == name
  {
    var p := dir + "/" + name;
    assert TrimSlashes(p) == p;
    LastElementOfSuffix(dir + "/", name);
  }

  lemma {:induction false} LastElementOfSuffix(pre: string, name: string)
    requires '/' !in name && pre != [] && pre[|pre| - 1] == '/'
    ensures LastElement(pre + name) == name
  {
    if name != [] {
      var s := pre + name;
      assert s[..|s| - 1] == pre + name[..|name| - 1];
      LastElementOfSuffix(pre, name[..|name| - 1]);
    } else {
      assert pre + name == pre;
    }
  }

  /** A catalog entry of the prototype: the holder Save reads its value from. */
  datatype ProtoEntry = ProtoEntry(fileId: string, tag: Metadata.Tag, key: string, value: Holder)

  /** The A entries: a fresh holder set from each global attribute. */
  function GlobalPart(fid: string, attrs: seq<Attr>): (r: seq<ProtoEntry>)
    ensures |r| == |attrs|
    ensures forall k :: 0 <= k < |attrs| ==>
      r[k] == ProtoEntry(fid, Metadata.A, attrs[k].name, Assigned(Zero, attrs[k]))
  {
    if attrs == [] then []
    else GlobalPart(fid, attrs[..|attrs| - 1]) + [ProtoEntry(fid, Metadata.A, attrs[|attrs| - 1].name, Assigned(Zero, attrs[|attrs| - 1]))]
  }

  /** The variable's attribute map, filled with GetAttValue. */
  function AnyMap(attrs: seq<Attr>): (r: Result<map<string, Metadata.Value>, Error>)
    ensures r.Ok? <==> forall k :: 0 <= k < |attrs| ==> GetAttValue(attrs[k]).Ok?
  {
    if attrs == [] then Ok(map[])
    else
      var last := attrs[|attrs| - 1];
      var init := attrs[..|attrs| - 1];
      assert forall k :: 0 <= k < |init| ==> init[k] == attrs[k];
      var m := AnyMap(init);
      var x := GetAttValue(last);
      if m.Err? then m else if x.Err? then Err(x.error) else Ok(m.value[last.name := x.value])
  }

  /** The map stops at the first attribute that fails, with its error. */
  lemma {:induction false} AnyMapStops(attrs: seq<Attr>, j: nat, e: Error)
    requires j < |attrs| && AnyMap(attrs[..j]).Ok? && GetAttValue(attrs[j]) == Err(e)
    ensures AnyMap(attrs) == Err(e)
  {
    var init := attrs[..|attrs| - 1];
    if j < |attrs| - 1 {
      assert init[..j] == attrs[..j];
      AnyMapStops(init, j, e);
    } else {
      assert init == attrs[..j];
    }
  }

  predicate Readable(d: Dim)
  {
    d.name.Got? && d.len.Got?
  }

  /** The dimensions that yield a D entry: those whose name and length
      both read, in declared order. */
  function Emitted(dims: seq<Dim>): (r: seq<Dim>)
    ensures forall k :: 0 <= k < |r| ==> Readable(r[k])
    ensures forall d :: d in dims && Readable(d) ==> d in r
    ensures forall d :: d in r ==> d in dims
  {
    if dims == [] then []
    else
      var init := Emitted(dims[..|dims| - 1]);
      assert forall d :: d in dims ==> d in dims[..|dims| - 1] || d == dims[|dims| - 1];
      if Readable(dims[|dims| - 1]) then init + [dims[|dims| - 1]] else init
  }

  /** The D entry of a readable dimension: an INT holder with int32(len). */
  function DimEntry(fid: string, d: Dim): ProtoEntry
    requires Readable(d)
  {
    ProtoEntry(fid, Metadata.D, d.name.got, Zero.(t := Some(INT), i := [Wrap(d.len.got, 4)]))
  }

  function DimNames(ds: seq<Dim>): (r: seq<string>)
    requires forall k :: 0 <= k < |ds| ==> Readable(ds[k])
    ensures |r| == |ds| && forall k :: 0 <= k < |ds| ==> ds[k].name.Got? && r[k] == ds[k].name.got
  {
    if ds == [] then [] else
      assert Readable(ds[|ds| - 1]);
      DimNames(ds[..|ds| - 1]) + [ds[|ds| - 1].name.got]
  }

  function DimPart(fid: string, ds: seq<Dim>): (r: seq<ProtoEntry>)
    requires forall k :: 0 <= k < |ds| ==> Readable(ds[k])
    ensures |r| == |ds| && forall k :: 0 <= k < |ds| ==> r[k] == DimEntry(fid, ds[k])
  {
    if ds == [] then [] else DimPart(fid, ds[..|ds| - 1]) + [DimEntry(fid, ds[|ds| - 1])]
  }

  /** The dimensions of a variable as the walker sees them: none when the
      list cannot be read (that error is not checked). */
  function DimsOf(v: Variable): seq<Dim>
  {
    if v.dims.Got? then v.dims.got else []
  }

  /** The entries of one variable: its D entries first, then V (the names
      of the emitted dimensions joined by a space), then VA (the JSON of
      its attributes). A variable whose name does not read is skipped;
      None aborts the whole walk. */
  function ProtoBlock(fid: string, v: Variable, marshal: Metadata.Marshal): Option<seq<ProtoEntry>>
  {
    if v.name.Failed? then Some([])
    else
      var name := v.name.got;
      var any := AnyMap(v.attrs);
      if any.Err? then None
      else
        var ds := Emitted(DimsOf(v));
        match marshal(any.value)
        case None => None
        case Some(js) =>
          Some(DimPart(fid, ds)
               + [ProtoEntry(fid, Metadata.V, name, Zero.(t := Some(STRING), any := Some(Metadata.Str(Join(DimNames(ds), " "))))),
                  ProtoEntry(fid, Metadata.VA, name, Zero.(t := Some(STRING), any := Some(Metadata.Json(js))))])
  }

  function VarPart(fid: string, vars: seq<Variable>, marshal: Metadata.Marshal): (r: Option<seq<ProtoEntry>>)
    ensures r.Some? <==> forall k :: 0 <= k < |vars| ==> ProtoBlock(fid, vars[k], marshal).Some?
  {
    if vars == [] then Some([])
    else
      var init := vars[..|vars| - 1];
      assert forall k :: 0 <= k < |init| ==> init[k] == vars[k];
      var es := VarPart(fid, init, marshal);
      var b := ProtoBlock(fid, vars[|vars| - 1], marshal);
      if es.None? || b.None? then None else Some(es.value + b.value)
  }

  lemma {:induction false} VarPartStops(fid: string, vars: seq<Variable>, marshal: Metadata.Marshal, j: nat)
    requires j < |vars| && ProtoBlock(fid, vars[j], marshal).None?
    ensures VarPart(fid, vars, marshal).None?
  {
  }

  lemma VarPartStep(fid: string, vars: seq<Variable>, marshal: Metadata.Marshal, k: nat)
    requires k < |vars| && VarPart(fid, vars[..k], marshal).Some? && ProtoBlock(fid, vars[k], marshal).Some?
    ensures VarPart(fid, vars[..k + 1], marshal)
         == Some(VarPart(fid, vars[..k], marshal).value + ProtoBlock(fid, vars[k], marshal).value)
  {
    assert vars[..k + 1][..k] == vars[..k];
  }

  /** The entries NetcdfFileHandler would save for an opened dataset, or
      None when it gives up before saving anything. */
  function Handler(fid: string, ds: Dataset, marshal: Metadata.Marshal): Option<seq<ProtoEntry>>
  {
    match VarPart(fid, ds.vars, marshal)
    case None => None
    case Some(es) => Some(GlobalPart(fid, ds.attrs) + es)
  }

  method NetcdfFileHandler(path: string, handle: Lib<Dataset>, marshal: Metadata.Marshal)
    returns (r: Option<seq<ProtoEntry>>)
    ensures handle.Failed? ==> r.None?
    ensures handle.Got? ==> r == Handler(PathBase(path), handle.got, marshal)
  {
    if handle.Failed? {
      return None;
    }
    var df := handle.got;
    var fid := PathBase(path);
    var mds := GlobalAttributes(fid, df.attrs);
    var vmds := WalkVariables(fid, df.vars, marshal);
    if vmds.None? {
      return None;
    }
    return Some(mds + vmds.value);
  }

  /** The walker's loop over variables; None when it gives up. */
  method WalkVariables(fid: string, vars: seq<Variable>, marshal: Metadata.Marshal) returns (r: Option<seq<ProtoEntry>>)
    ensures r == VarPart(fid, vars, marshal)
  {
    var mds: seq<ProtoEntry> := [];
    for k := 0 to |vars|
      invariant VarPart(fid, vars[..k], marshal) == Some(mds)
    {
      var b := VariableEntries(fid, vars[k], marshal);
      if b.None? {
        VarPartStops(fid, vars, marshal, k);
        return None;
      }
      VarPartStep(fid, vars, marshal, k);
      mds := mds + b.value;
    }
    assert vars[..|vars|] == vars;
    return Some(mds);
  }

  /** The walker's loop over global attributes: one holder per attribute. */
  method GlobalAttributes(fid: string, attrs: seq<Attr>) returns (mds: seq<ProtoEntry>)
    ensures mds == GlobalPart(fid, attrs)
  {
    mds := [];
    for k := 0 to |attrs|
      invariant mds == GlobalPart(fid, attrs[..k])
    {
      var a := attrs[k];
      var h := new ValueHolder();
      h.SetValue(a);
      assert attrs[..k + 1][..k] == attrs[..k];
      mds := mds + [ProtoEntry(fid, Metadata.A, a.name, h.Snapshot())];
    }
    assert attrs[..|attrs|] == attrs;
  }

  /** The body of the walker's loop over variables. */
  method VariableEntries(fid: string, v: Variable, marshal: Metadata.Marshal) returns (r: Option<seq<ProtoEntry>>)
    ensures r == ProtoBlock(fid, v, marshal)
  {
    if v.name.Failed? {
      return Some([]);
    }
    var name := v.name.got;
    var any := FillAny(v.attrs);
    if any.Err? {
      return None;
    }
    var dimstring, dmds := WalkDims(fid, DimsOf(v));
    var js := marshal(any.value);
    if js.None? {
      return None;
    }
    var md := ProtoEntry(fid, Metadata.V, name, Zero.(t := Some(STRING), any := Some(Metadata.Str(Join(dimstring, " ")))));
    var mv := ProtoEntry(fid, Metadata.VA, name, Zero.(t := Some(STRING), any := Some(Metadata.Json(js.value))));
    return Some(dmds + [md, mv]);
  }

  /** The loop over a variable's attributes, filling the `any` map. */
  method FillAny(attrs: seq<Attr>) returns (r: Result<map<string, Metadata.Value>, Error>)
    ensures r == AnyMap(attrs)
  {
    var any: map<string, Metadata.Value> := map[];
    for j := 0 to |attrs|
      invariant AnyMap(attrs[..j]) == Ok(any)
    {
      var x := GetAttValue(attrs[j]);
      if x.Err? {
        AnyMapStops(attrs, j, x.error);
        return Err(x.error);
      }
      assert attrs[..j + 1][..j] == attrs[..j];
      any := any[attrs[j].name := x.value];
    }
    assert attrs[..|attrs|] == attrs;
    return Ok(any);
  }

  /** The loop over a variable's dimensions: the names and D entries of
      those whose name and length read; the others are skipped. */
  method WalkDims(fid: string, dims: seq<Dim>) returns (dimstring: seq<string>, dmds: seq<ProtoEntry>)
    ensures dimstring == DimNames(Emitted(dims))
    ensures dmds == DimPart(fid, Emitted(dims))
  {
    dimstring, dmds := [], [];
    for j := 0 to |dims|
      invariant dimstring == DimNames(Emitted(dims[..j]))
      invariant dmds == DimPart(fid, Emitted(dims[..j]))
    {
      var d := dims[j];
      assert dims[..j + 1][..j] == dims[..j];
      if d.name.Failed? {
        continue;
      }
      if d.len.Failed? {
        continue;
      }
      dimstring := dimstring + [d.name.got];
      dmds := dmds + [DimEntry(fid, d)];
    }
    assert dims[..|dims|] == dims;
  }

  /** Per variable: the D entries of the readable dimensions come first,
      then V naming exactly those dimensions, then VA. */
  lemma ProtoBlockOrder(fid: string, v: Variable, marshal: Metadata.Marshal)
    requires v.name.Got? && ProtoBlock(fid, v, marshal).Some?
    ensures var b := ProtoBlock(fid, v, marshal).value;
      var ds := Emitted(DimsOf(v));
      && |b| == |ds| + 2
      && (forall k :: 0 <= k < |ds| ==> b[k].tag == Metadata.D && b[k].key == ds[k].name.got)
      && b[|ds|].tag == Metadata.V && b[|ds| + 1].tag == Metadata.VA
      && b[|ds|].key == v.name.got && b[|ds| + 1].key == v.name.got
      && GetValue(b[|ds|].value) == Ok(Some(Metadata.Str(Join(DimNames(ds), " "))))
  {
    var ds := Emitted(DimsOf(v));
    var dp := DimPart(fid, ds);
    var b := ProtoBlock(fid, v, marshal).value;
    assert b[..|dp|] == dp;
    forall k | 0 <= k < |ds|
      ensures b[k].tag == Metadata.D && b[k].key == ds[k].name.got
    {
      assert b[k] == dp[k] == DimEntry(fid, ds[k]);
    }
  }

  /** A variable whose name does not read contributes nothing; one whose
      list of dimensions does not read gets no D entries and an empty V. */
  lemma SkippedParts(fid: string, v: Variable, marshal: Metadata.Marshal)
    ensures v.name.Failed? ==> ProtoBlock(fid, v, marshal) == Some([])
    ensures v.name.Got? && v.dims.Failed? && ProtoBlock(fid, v, marshal).Some? ==>
      var b := ProtoBlock(fid, v, marshal).value;
      |b| == 2 && GetValue(b[0].value) == Ok(Some(Metadata.Str("")))
  {
  }

  /** A D entry saves int32 of the length: the length itself below 2^31,
      wrapped to a negative number from 2^31 on. */
  lemma DimValueIsInt32(fid: string, d: Dim)
    requires Readable(d)
    ensures GetValue(DimEntry(fid, d).value) == Ok(Some(Metadata.Int(Wrap(d.len.got, 4))))
    ensures d.len.got <= MaxInt32 ==> Wrap(d.len.got, 4) == d.len.got
    ensures d.len.got == MaxInt32 + 1 ==> Wrap(d.len.got, 4) == -MaxInt32 - 1
  {
    assert Pow256(4) == 0x1_0000_0000 by {
      assert Pow256(2) == 0x1_0000;
    }
  }

  // ------------------------------------------------------------- FindValue

  /** Whether the loop's `dif < mindif` holds for element x: always for
      INT, for FLOAT only when the float32 difference is finite. */
  predicate Closer(fl: FloatOps, k: Kind, x: int, value: real)
  {
    k == INT || fl.finite32(x, value)
  }

  /** The last index whose difference counts as closer, MaxInt32 when none
      does: `mindif` is never lowered, so `min` is just the last index
      where `dif < mindif` held. */
  function LastCloser(fl: FloatOps, k: Kind, xs: seq<int>, value: real): (r: int)
    ensures r == MaxInt32 || (0 <= r < |xs| && Closer(fl, k, xs[r], value))
    ensures r != MaxInt32 ==> forall j :: r < j < |xs| ==> !Closer(fl, k, xs[j], value)
    ensures r == MaxInt32 && |xs| <= MaxInt32 ==> forall j :: 0 <= j < |xs| ==> !Closer(fl, k, xs[j], value)
  {
    if xs == [] then MaxInt32
    else if Closer(fl, k, xs[|xs| - 1], value) then |xs| - 1
    else LastCloser(fl, k, xs[..|xs| - 1], value)
  }

  /** FindValue(value, v): the first matching index; without a match the
      fallback index and no error; -1 and "Value not found" for any kind
      but INT and FLOAT. */
  function FindValueOf(fl: FloatOps, value: real, cv: Variable): (r: (int, Option<Error>))
    ensures r.1.Some? <==> cv.kind !in {INT, FLOAT}
    ensures r.1.Some? ==> r == (-1, Some(ValueNotFound(value)))
  {
    if cv.kind !in {INT, FLOAT} then (-1, Some(ValueNotFound(value)))
    else match FirstMatch(fl, cv.kind, cv.values, value, 0)
      case Ok(j) => (j, None)
      case Err(_) => (LastCloser(fl, cv.kind, cv.values, value), None)
  }

  method FindValue(fl: FloatOps, value: real, cv: Variable) returns (idx: int, err: Option<Error>)
    ensures (idx, err) == FindValueOf(fl, value, cv)
  {
    if cv.kind !in {INT, FLOAT} {
      return -1, Some(ValueNotFound(value));
    }
    var data := cv.values;
    var min := MaxInt32;
    for i := 0 to |data|
      invariant forall j :: 0 <= j < i ==> !Matches(fl, cv.kind, data[j], value)
      invariant min == LastCloser(fl, cv.kind, data[..i], value)
    {
      assert data[..i + 1][..i] == data[..i];
      if Closer(fl, cv.kind, data[i], value) {
        min := i;
      }
      if Matches(fl, cv.kind, data[i], value) {
        return i, None;
      }
    }
    assert data[..|data|] == data;
    return min, None;
  }

  /** On INT and FLOAT a match is found exactly where indexOf finds it; on
      a miss FindValue answers with an index where indexOf fails. */
  lemma FindValueAgreesWithIndexOf(fl: FloatOps, value: real, cv: Variable)
    requires cv.kind in {INT, FLOAT}
    ensures IndexOfValue(fl, value, cv).Ok? ==> FindValueOf(fl, value, cv) == (IndexOfValue(fl, value, cv).value, None)
    ensures IndexOfValue(fl, value, cv).Err? ==>
      FindValueOf(fl, value, cv) == (LastCloser(fl, cv.kind, cv.values, value), None)
  {
  }

  /** For INT the fallback is the last index, or MaxInt32 when the variable
      is empty. */
  lemma {:induction false} IntFallbackIsLastIndex(fl: FloatOps, xs: seq<int>, value: real)
    ensures LastCloser(fl, INT, xs, value) == if xs == [] then MaxInt32 else |xs| - 1
  {
  }

  /** For INT the match is the first value equal to int32(value). */
  lemma FindValueIntExact(fl: FloatOps, value: real, cv: Variable)
    requires cv.kind == INT
    requires forall j :: 0 <= j < |cv.values| ==> SignedFits(4, cv.values[j])
    ensures var target := ToInt(4, value);
      var r := FindValueOf(fl, value, cv);
      && r.1 == None
      && ((exists j :: 0 <= j < |cv.values| && cv.values[j] == target) ==>
            0 <= r.0 < |cv.values| && cv.values[r.0] == target
            && forall j :: 0 <= j < r.0 ==> cv.values[j] != target)
      && ((forall j :: 0 <= j < |cv.values| ==> cv.values[j] != target) ==>
            r.0 == if cv.values == [] then MaxInt32 else |cv.values| - 1)
  {
    IndexOfIntegerExact(fl, value, cv);
    IntFallbackIsLastIndex(fl, cv.values, value);
  }

  // --------------------------------------------------------------- GetData

  predicate DataKind(k: Kind)
  {
    k in {SHORT, INT, FLOAT, DOUBLE}
  }

  /** GetData(v, offsets, lens): read product(lens) elements and serialise
      them under the kind's name, for SHORT, INT, FLOAT and DOUBLE only. */
  function GetDataOf(v: Variable, offsets: seq<int>, lens: seq<int>): Result<Answer, Error>
  {
    if !DataKind(v.kind) then Err(TypeMismatch(v.kind))
    else if Product(lens) < 0 then Err(Panicked)
    else match ReadArray(v, offsets, lens)
      case None => Err(LibraryError)
      case Some(data) => Ok(Answer(KindName(v.kind), Encode(v.kind, data)))
  }

  method GetData(v: Variable, offsets: seq<int>, lens: seq<int>) returns (r: Result<Answer, Error>)
    ensures r == GetDataOf(v, offsets, lens)
  {
    var total := 1;
    for i := 0 to |lens|
      invariant total == Product(lens[..i])
    {
      assert lens[..i + 1][..i] == lens[..i];
      total := total * lens[i];
    }
    assert lens[..|lens|] == lens;
    if !DataKind(v.kind) {
      return Err(TypeMismatch(v.kind));
    }
    if total < 0 {
      return Err(Panicked);
    }
    var data := ReadArray(v, offsets, lens);
    if data.None? {
      return Err(LibraryError);
    }
    var buf: seq<Byte> := [];
    for j := 0 to |data.value|
      invariant buf == Encode(v.kind, data.value[..j])
    {
      assert data.value[..j + 1][..j] == data.value[..j];
      buf := buf + EncodeElem(v.kind, data.value[j]);
    }
    assert data.value[..|data.value|] == data.value;
    return Ok(Answer(KindName(v.kind), buf));
  }

  /** GetData answers as getSlice does on SHORT, INT, FLOAT and DOUBLE, and
      refuses BYTE, CHAR and INT64, which getSlice serves. */
  lemma GetDataAgreesWithSlice(v: Variable, offsets: seq<int>, lens: seq<int>)
    ensures DataKind(v.kind) ==> GetDataOf(v, offsets, lens) == Slice(v, offsets, lens)
    ensures v.kind in {BYTE, CHAR, INT64} ==>
      GetDataOf(v, offsets, lens) == Err(TypeMismatch(v.kind)) && Slice(v, offsets, lens) != Err(TypeMismatch(v.kind))
  {
  }

  // --------------------------------------------------------------- Extract

  /** The first coordinate bearing a name. */
  function FirstNamed(coords: seq<Coordinate>, n: string): (r: Option<nat>)
    ensures r.Some? ==> r.value < |coords| && coords[r.value].name == n
    ensures r.Some? ==> forall k :: 0 <= k < r.value ==> coords[k].name != n
    ensures r.None? ==> forall k :: 0 <= k < |coords| ==> coords[k].name != n
  {
    if coords == [] then None
    else if coords[0].name == n then Some(0)
    else match FirstNamed(coords[1..], n)
      case None => None
      case Some(k) => Some(k + 1)
  }

  /** The (offset, length) Extract gives one dimension. The Min lookup's
      error is not checked; only the Max lookup's is. A length that does
      not read counts as 0. */
  function DimBound(fl: FloatOps, ds: Dataset, coords: seq<Coordinate>, d: Dim): Result<(int, int), Error>
  {
    if d.name.Failed? then Err(LibraryError)
    else
      var l := if d.len.Got? then d.len.got else 0;
      match FirstNamed(coords, d.name.got)
      case None => Ok((0, l))
      case Some(k) => CoordBounds(fl, ds, coords[k])
  }

  /** The bound one coordinate sets: the FindValue indices of Min and Max
      in the same-named variable, or the bounds themselves, truncated. */
  function CoordBounds(fl: FloatOps, ds: Dataset, c: Coordinate): Result<(int, int), Error>
  {
    match FindVar(ds, c.name)
    case None => Ok((Trunc(c.min), Trunc(c.max - c.min) + 1))
    case Some(vv) =>
      var lo := FindValueOf(fl, c.min, vv);
      var hi := FindValueOf(fl, c.max, vv);
      if hi.1.Some? then Err(hi.1.value) else Ok((lo.0, hi.0 - lo.0 + 1))
  }

  method ResolveCoordinate(fl: FloatOps, ds: Dataset, c: Coordinate) returns (r: Result<(int, int), Error>)
    ensures r == CoordBounds(fl, ds, c)
  {
    var vv := FindVar(ds, c.name);
    if vv.None? {
      return Ok((Trunc(c.min), Trunc(c.max - c.min) + 1));
    }
    var iMin, _ := FindValue(fl, c.min, vv.value);
    var iMax, err := FindValue(fl, c.max, vv.value);
    if err.Some? {
      return Err(err.value);
    }
    var len: int := iMax - iMin + 1;
    return Ok((iMin, len));
  }

  /** The offsets and lengths of all dimensions; the first failing
      dimension's error. */
  function DimBounds(fl: FloatOps, ds: Dataset, coords: seq<Coordinate>, dims: seq<Dim>)
    : (r: Result<(seq<int>, seq<int>), Error>)
    ensures r.Ok? ==> |r.value.0| == |dims| && |r.value.1| == |dims|
    ensures r.Ok? ==> forall i :: 0 <= i < |dims| ==> DimBound(fl, ds, coords, dims[i]) == Ok((r.value.0[i], r.value.1[i]))
    ensures r.Ok? <==> forall i :: 0 <= i < |dims| ==> DimBound(fl, ds, coords, dims[i]).Ok?
  {
    if dims == [] then Ok(([], []))
    else match DimBound(fl, ds, coords, dims[0])
      case Err(e) => Err(e)
      case Ok(b) =>
        match DimBounds(fl, ds, coords, dims[1..])
        case Err(e) => Err(e)
        case Ok(rest) =>
          assert forall i :: 1 <= i < |dims| ==> dims[i] == dims[1..][i - 1];
          Ok(([b.0] + rest.0, [b.1] + rest.1))
  }

  /** DimBounds stops at the first dimension that fails, with its error. */
  lemma {:induction false} DimBoundsStops(fl: FloatOps, ds: Dataset, coords: seq<Coordinate>, dims: seq<Dim>, i: nat, e: Error)
    requires i < |dims| && DimBound(fl, ds, coords, dims[i]) == Err(e)
    requires forall j :: 0 <= j < i ==> DimBound(fl, ds, coords, dims[j]).Ok?
    ensures DimBounds(fl, ds, coords, dims) == Err(e)
  {
    if i > 0 {
      DimBoundsStops(fl, ds, coords, dims[1..], i - 1, e);
    }
  }

  /** The whole of Extract on an opened dataset. */
  function ExtractOf(fl: FloatOps, ds: Dataset, varname: string, coords: seq<Coordinate>): Result<Answer, Error>
  {
    match FindVar(ds, varname)
    case None => Err(VariableNotFound(varname))
    case Some(v) =>
      if v.dims.Failed? then Err(LibraryError)
      else match DimBounds(fl, ds, coords, v.dims.got)
        case Err(e) => Err(e)
        case Ok(b) => GetDataOf(v, b.0, b.1)
  }

  method Extract(fl: FloatOps, ds: Dataset, varname: string, coords: seq<Coordinate>) returns (r: Result<Answer, Error>)
    ensures r == ExtractOf(fl, ds, varname, coords)
  {
    var v := FindVar(ds, varname);
    if v.None? {
      return Err(VariableNotFound(varname));
    }
    if v.value.dims.Failed? {
      return Err(LibraryError);
    }
    var vdims := v.value.dims.got;
    var offsets := new int[|vdims|](_ => 0);
    var lens := new int[|vdims|](_ => 0);
    for i := 0 to |vdims|
      invariant forall j :: 0 <= j < i ==> DimBound(fl, ds, coords, vdims[j]) == Ok((offsets[j], lens[j]))
    {
      var b := ResolveDim(fl, ds, coords, vdims[i]);
      if b.Err? {
        DimBoundsStops(fl, ds, coords, vdims, i, b.error);
        return Err(b.error);
      }
      offsets[i], lens[i] := b.value.0, b.value.1;
    }
    var b := DimBounds(fl, ds, coords, vdims);
    assert b.Ok?;
    assert b.value.0 == offsets[..] && b.value.1 == lens[..];
    r := GetData(v.value, offsets[..], lens[..]);
  }

  /** The body of Extract's loop over dimensions: the first coordinate
      bearing the dimension's name decides (the inner loop breaks there). */
  method ResolveDim(fl: FloatOps, ds: Dataset, coords: seq<Coordinate>, d: Dim) returns (r: Result<(int, int), Error>)
    ensures r == DimBound(fl, ds, coords, d)
  {
    if d.name.Failed? {
      return Err(LibraryError);
    }
    var n := d.name.got;
    var l := if d.len.Got? then d.len.got else 0;
    var k := 0;
    while k < |coords|
      invariant 0 <= k <= |coords|
      invariant forall k' :: 0 <= k' < k ==> coords[k'].name != n
    {
      if n == coords[k].name {
        assert FirstNamed(coords, n) == Some(k);
        r := ResolveCoordinate(fl, ds, coords[k]);
        return;
      }
      k := k + 1;
    }
    assert FirstNamed(coords, n).None?;
    return Ok((0, l));
  }

  /** A dimension no coordinate names keeps offset 0 and its full length. */
  lemma UnconstrainedDimension(fl: FloatOps, ds: Dataset, coords: seq<Coordinate>, d: Dim)
    requires d.name.Got? && d.len.Got?
    requires forall k :: 0 <= k < |coords| ==> coords[k].name != d.name.got
    ensures DimBound(fl, ds, coords, d) == Ok((0, d.len.got))
  {
  }

  /** A coordinate naming no dimension of the variable is ignored: adding
      it changes nothing (where the hyperslab engine fails). */
  lemma UnknownCoordinateIgnored(fl: FloatOps, ds: Dataset, coords: seq<Coordinate>, c: Coordinate, dims: seq<Dim>)
    requires forall i :: 0 <= i < |dims| ==> dims[i].name != Got(c.name)
    ensures DimBounds(fl, ds, coords + [c], dims) == DimBounds(fl, ds, coords, dims)
  {
    forall i | 0 <= i < |dims|
      ensures DimBound(fl, ds, coords + [c], dims[i]) == DimBound(fl, ds, coords, dims[i])
    {
      if dims[i].name.Got? {
        FirstNamedAppend(coords, c, dims[i].name.got);
      }
    }
    DimBoundsPointwise(fl, ds, coords + [c], coords, dims);
  }

  /** The first coordinate naming a dimension wins: any coordinate added
      after it is ignored for that dimension. */
  lemma FirstCoordinateWins(fl: FloatOps, ds: Dataset, coords: seq<Coordinate>, c: Coordinate, d: Dim)
    requires d.name.Got? && exists k :: 0 <= k < |coords| && coords[k].name == d.name.got
    ensures DimBound(fl, ds, coords + [c], d) == DimBound(fl, ds, coords, d)
  {
    FirstNamedAppend(coords, c, d.name.got);
  }

  lemma {:induction false} FirstNamedAppend(coords: seq<Coordinate>, c: Coordinate, n: string)
    requires c.name != n || exists k :: 0 <= k < |coords| && coords[k].name == n
    ensures FirstNamed(coords + [c], n) == FirstNamed(coords, n)
  {
    if coords != [] {
      assert (coords + [c])[1..] == coords[1..] + [c];
      if coords[0].name != n {
        if c.name == n {
          var k :| 0 <= k < |coords| && coords[k].name == n;
          assert coords[1..][k - 1].name == n;
        }
        FirstNamedAppend(coords[1..], c, n);
      }
    }
  }

  lemma {:induction false} DimBoundsPointwise(fl: FloatOps, ds: Dataset, cs: seq<Coordinate>, cs': seq<Coordinate>, dims: seq<Dim>)
    requires forall i :: 0 <= i < |dims| ==> DimBound(fl, ds, cs, dims[i]) == DimBound(fl, ds, cs', dims[i])
    ensures DimBounds(fl, ds, cs, dims) == DimBounds(fl, ds, cs', dims)
  {
    if dims != [] {
      DimBoundsPointwise(fl, ds, cs, cs', dims[1..]);
    }
  }

  /** The unchecked error of the Min lookup never goes unnoticed: it
      occurs exactly when the Max lookup fails too. */
  lemma MinErrorComesWithMaxError(fl: FloatOps, lo: real, hi: real, vv: Variable)
    ensures FindValueOf(fl, lo, vv).1.Some? <==> FindValueOf(fl, hi, vv).1.Some?
  {
  }
}
