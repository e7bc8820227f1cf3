/** The metadata flattener: a dataset becomes an ordered list of catalog
    entries (file id, tag, key, value). Global attributes come first (tag
    A); then, per variable, a V entry listing its dimensions, a VA entry
    holding the JSON of its attributes, and one D entry per dimension.
    Every error aborts the whole extraction. */
module Metadata {
  import opened Base
  import opened Dataset

  /** The entry types "A", "D", "V" and "VA". */
  datatype Tag = A | D | V | VA

  function TagName(t: Tag): string
  {
    match t
    case A => "A"
    case D => "D"
    case V => "V"
    case VA => "VA"
  }

  /** What an entry's value holds: element 0 of a numeric attribute (a
      FLOAT or DOUBLE as its bit pattern), the bytes of a CHAR attribute,
      a formatted string, or the bytes of a JSON document. */
  datatype Value =
    | Short(x: int)
    | Int(x: int)
    | Float(bits: int)
    | Double(bits: int)
    | Text(chars: seq<int>)
    | Str(s: string)
    | Json(bytes: seq<Byte>)

  datatype Entry = Entry(fileId: string, tag: Tag, key: string, value: Value)

  datatype MetaError =
    | LibraryError      // an accessor of the netCDF library failed
    | TypeMismatch      // an attribute of a kind attrValue does not read
    | IndexOutOfRange   // element 0 of an empty numeric attribute (a panic)
    | MarshalError      // json.Marshal failed
    | ExecError         // the insert statement failed

  // ------------------------------------------------------------ attrValue

  /** The kind a value was read as, when it is an attribute value. */
  function KindOf(v: Value): Option<Kind>
  {
    match v
    case Short(_) => Some(SHORT)
    case Int(_) => Some(INT)
    case Float(_) => Some(FLOAT)
    case Double(_) => Some(DOUBLE)
    case Text(_) => Some(CHAR)
    case _ => None
  }

  /** The stored elements a value carries. */
  function Payload(v: Value): seq<int>
  {
    match v
    case Short(x) => [x]
    case Int(x) => [x]
    case Float(b) => [b]
    case Double(b) => [b]
    case Text(cs) => cs
    case _ => []
  }

  predicate Numeric(k: Kind)
  {
    k in {SHORT, INT, FLOAT, DOUBLE}
  }

  /** attrValue(a): the first element of a SHORT, INT, FLOAT or DOUBLE
      attribute, the whole text of a CHAR one, "Type mismatch" otherwise. */
  function AttrValue(a: Attr): (r: Result<Value, MetaError>)
    ensures r.Ok? <==> a.kind == CHAR || (Numeric(a.kind) && |a.values| >= 1)
    ensures r.Ok? ==> KindOf(r.value) == Some(a.kind)
    ensures r.Ok? ==> Payload(r.value) == if a.kind == CHAR then a.values else a.values[..1]
    ensures r.Err? ==> r.error == if Numeric(a.kind) then IndexOutOfRange else TypeMismatch
  {
    if a.kind == CHAR then Ok(Text(a.values))
    else if !Numeric(a.kind) then Err(TypeMismatch)
    else if |a.values| == 0 then Err(IndexOutOfRange)
    else match a.kind
      case SHORT => Ok(Short(a.values[0]))
      case INT => Ok(Int(a.values[0]))
      case FLOAT => Ok(Float(a.values[0]))
      case DOUBLE => Ok(Double(a.values[0]))
  }

  // ------------------------------------------------ extractGlobalAttributes

  /** Index i is where a scan of the attributes stops: every attribute
      before it reads and attribute i fails with error e. */
  predicate AttrFailsFirstAt(attrs: seq<Attr>, i: int, e: MetaError)
  {
    && 0 <= i < |attrs|
    && AttrValue(attrs[i]) == Err(e)
    && forall j :: 0 <= j < i ==> AttrValue(attrs[j]).Ok?
  }

  /** The A entries of the global attributes, in index order. */
  function GlobalEntries(id: string, attrs: seq<Attr>): (r: Result<seq<Entry>, MetaError>)
    ensures r.Ok? <==> forall i :: 0 <= i < |attrs| ==> AttrValue(attrs[i]).Ok?
    ensures r.Ok? ==> |r.value| == |attrs|
    ensures r.Ok? ==> forall i :: 0 <= i < |attrs| ==>
      AttrValue(attrs[i]).Ok? && r.value[i] == Entry(id, A, attrs[i].name, AttrValue(attrs[i]).value)
    ensures r.Err? ==> exists i :: AttrFailsFirstAt(attrs, i, r.error)
  {
    if attrs == [] then Ok([])
    else
      var last := attrs[|attrs| - 1];
      var init := attrs[..|attrs| - 1];
      assert forall i :: 0 <= i < |init| ==> init[i] == attrs[i];
      var prefix := GlobalEntries(id, init);
      var x := AttrValue(last);
      if prefix.Err? then
        var i :| AttrFailsFirstAt(init, i, prefix.error);
        assert AttrFailsFirstAt(attrs, i, prefix.error);
        Err(prefix.error)
      else if x.Err? then
        assert AttrFailsFirstAt(attrs, |attrs| - 1, x.error);
        Err(x.error)
      else
        Ok(prefix.value + [Entry(id, A, last.name, x.value)])
  }

  /** The scan stops at one place only. */
  lemma AttrFailsFirstAtUnique(attrs: seq<Attr>, i: int, j: int, e: MetaError, e': MetaError)
    requires AttrFailsFirstAt(attrs, i, e) && AttrFailsFirstAt(attrs, j, e')
    ensures i == j && e == e'
  {
  }

  method ExtractGlobalAttributes(id: string, ds: Dataset) returns (r: Result<seq<Entry>, MetaError>)
    ensures r == GlobalEntries(id, ds.attrs)
  {
    var attrs := ds.attrs;
    var mds: seq<Entry> := [];
    for i := 0 to |attrs|
      invariant GlobalEntries(id, attrs[..i]) == Ok(mds)
    {
      var av := AttrValue(attrs[i]);
      if av.Err? {
        GlobalEntriesStopsAt(id, attrs, i, av.error);
        return Err(av.error);
      }
      GlobalEntriesStep(id, attrs, i);
      mds := mds + [Entry(id, A, attrs[i].name, av.value)];
    }
    assert attrs[..|attrs|] == attrs;
    return Ok(mds);
  }

  /** One more readable attribute extends the extraction by its entry. */
  lemma GlobalEntriesStep(id: string, attrs: seq<Attr>, i: nat)
    requires i < |attrs| && GlobalEntries(id, attrs[..i]).Ok? && AttrValue(attrs[i]).Ok?
    ensures GlobalEntries(id, attrs[..i + 1]) ==
            Ok(GlobalEntries(id, attrs[..i]).value + [Entry(id, A, attrs[i].name, AttrValue(attrs[i]).value)])
  {
    assert attrs[..i + 1][..i] == attrs[..i];
  }

  /** The extraction stops at the first unreadable attribute, with its
      error. */
  lemma GlobalEntriesStopsAt(id: string, attrs: seq<Attr>, i: nat, e: MetaError)
    requires i < |attrs| && GlobalEntries(id, attrs[..i]).Ok? && AttrValue(attrs[i]) == Err(e)
    ensures GlobalEntries(id, attrs) == Err(e)
  {
    assert forall j :: 0 <= j < i ==> attrs[..i][j] == attrs[j];
    assert AttrFailsFirstAt(attrs, i, e);
    var g := GlobalEntries(id, attrs);
    var j :| AttrFailsFirstAt(attrs, j, g.error);
    AttrFailsFirstAtUnique(attrs, i, j, e, g.error);
  }

  // ---------------------------------------------- extractVariableAttributes

  /** The attribute map of a variable, built attribute by attribute. */
  function AttrMap(attrs: seq<Attr>): (r: Result<map<string, Value>, MetaError>)
    ensures r.Ok? <==> forall i :: 0 <= i < |attrs| ==> AttrValue(attrs[i]).Ok?
    ensures r.Err? ==> exists i :: AttrFailsFirstAt(attrs, i, r.error)
  {
    if attrs == [] then Ok(map[])
    else
      var last := attrs[|attrs| - 1];
      var init := attrs[..|attrs| - 1];
      assert forall i :: 0 <= i < |init| ==> init[i] == attrs[i];
      var prefix := AttrMap(init);
      var x := AttrValue(last);
      if prefix.Err? then
        var i :| AttrFailsFirstAt(init, i, prefix.error);
        assert AttrFailsFirstAt(attrs, i, prefix.error);
        Err(prefix.error)
      else if x.Err? then
        assert AttrFailsFirstAt(attrs, |attrs| - 1, x.error);
        Err(x.error)
      else
        Ok(prefix.value[last.name := x.value])
  }

  /** The map has one key per attribute name. */
  lemma {:induction false} AttrMapKeys(attrs: seq<Attr>)
    requires AttrMap(attrs).Ok?
    ensures AttrMap(attrs).value.Keys == set i | 0 <= i < |attrs| :: attrs[i].name
  {
    if attrs != [] {
      var init := attrs[..|attrs| - 1];
      AttrMapKeys(init);
      assert forall i :: 0 <= i < |init| ==> init[i] == attrs[i];
      assert (set i | 0 <= i < |attrs| :: attrs[i].name)
          == (set i | 0 <= i < |init| :: init[i].name) + {attrs[|attrs| - 1].name};
    }
  }

  /** Under each name the map holds the value of the last attribute
      bearing that name. */
  lemma {:induction false} AttrMapValues(attrs: seq<Attr>, i: nat)
    requires AttrMap(attrs).Ok? && i < |attrs|
    requires forall j :: i < j < |attrs| ==> attrs[j].name != attrs[i].name
    ensures AttrValue(attrs[i]).Ok?
    ensures attrs[i].name in AttrMap(attrs).value
    ensures AttrMap(attrs).value[attrs[i].name] == AttrValue(attrs[i]).value
  {
    var init := attrs[..|attrs| - 1];
    if i < |attrs| - 1 {
      AttrMapValues(init, i);
    }
  }

  method ExtractVariableAttributes(v: Variable) returns (r: Result<map<string, Value>, MetaError>)
    ensures r == AttrMap(v.attrs)
  {
    var attrs := v.attrs;
    var m: map<string, Value> := map[];
    for j := 0 to |attrs|
      invariant AttrMap(attrs[..j]) == Ok(m)
    {
      var av := AttrValue(attrs[j]);
      if av.Err? {
        var g := AttrMap(attrs);
        assert AttrFailsFirstAt(attrs, j, av.error);
        var i :| AttrFailsFirstAt(attrs, i, g.error);
        AttrFailsFirstAtUnique(attrs, i, j, g.error, av.error);
        return Err(av.error);
      }
      assert attrs[..j + 1][..j] == attrs[..j];
      m := m[attrs[j].name := av.value];
    }
    assert attrs[..|attrs|] == attrs;
    return Ok(m);
  }

  // ---------------------------------------------- extractVariableDimensions

  predicate Readable(d: Dim)
  {
    d.name.Got? && d.len.Got?
  }

  /** The D entries of a list of dimensions: key the name, value the
      length in decimal. */
  function DimEntries(id: string, dims: seq<Dim>): (r: Result<seq<Entry>, MetaError>)
    ensures r.Ok? <==> forall i :: 0 <= i < |dims| ==> Readable(dims[i])
    ensures r.Ok? ==> |r.value| == |dims|
    ensures r.Ok? ==> forall i :: 0 <= i < |dims| ==>
      Readable(dims[i]) && r.value[i] == Entry(id, D, dims[i].name.got, Str(DecimalString(dims[i].len.got)))
    ensures r.Err? ==> r.error == LibraryError
  {
    if dims == [] then Ok([])
    else
      var last := dims[|dims| - 1];
      match DimEntries(id, dims[..|dims| - 1])
      case Err(e) => Err(e)
      case Ok(es) =>
        if !Readable(last) then Err(LibraryError)
        else Ok(es + [Entry(id, D, last.name.got, Str(DecimalString(last.len.got)))])
  }

  /** extractVariableDimensions(v): fails when the list of dimensions
      itself cannot be read. */
  function VariableDimensions(id: string, v: Variable): Result<seq<Entry>, MetaError>
  {
    if v.dims.Failed? then Err(LibraryError) else DimEntries(id, v.dims.got)
  }

  method ExtractVariableDimensions(id: string, v: Variable) returns (r: Result<seq<Entry>, MetaError>)
    ensures r == VariableDimensions(id, v)
  {
    if v.dims.Failed? {
      return Err(LibraryError);
    }
    var dims := v.dims.got;
    var mds: seq<Entry> := [];
    for i := 0 to |dims|
      invariant DimEntries(id, dims[..i]) == Ok(mds)
    {
      var d := dims[i];
      assert dims[..i + 1][..i] == dims[..i];
      if d.name.Failed? {
        return Err(LibraryError);
      }
      var n := d.name.got;
      if d.len.Failed? {
        return Err(LibraryError);
      }
      var l := d.len.got;
      mds := mds + [Entry(id, D, n, Str(DecimalString(l)))];
    }
    assert dims[..|dims|] == dims;
    return Ok(mds);
  }

  /** A D entry's value reads back, with strconv.ParseInt, as the
      dimension's length whenever that fits in 64 bits. */
  lemma DimValueParses(id: string, dims: seq<Dim>, i: nat)
    requires i < |dims| && DimEntries(id, dims).Ok?
    requires dims[i].len.got <= MaxInt64
    ensures DimEntries(id, dims).value[i].value.Str?
    ensures ParseInt(DimEntries(id, dims).value[i].value.s) == Some(dims[i].len.got)
  {
    ParseDecimal(dims[i].len.got);
  }

  // --------------------------------------------------------------- joinKeys

  function Keys(mds: seq<Entry>): (ks: seq<string>)
    ensures |ks| == |mds| && forall i :: 0 <= i < |mds| ==> ks[i] == mds[i].key
  {
    if mds == [] then [] else Keys(mds[..|mds| - 1]) + [mds[|mds| - 1].key]
  }

  /** joinKeys(mds, sep): the keys in order, separated by sep. */
  method JoinKeys(mds: seq<Entry>, sep: string) returns (res: string)
    ensures res == Join(Keys(mds), sep)
  {
    var keys: seq<string> := [];
    for i := 0 to |mds|
      invariant keys == Keys(mds[..i])
    {
      assert mds[..i + 1][..i] == mds[..i];
      keys := keys + [mds[i].key];
    }
    assert mds[..|mds|] == mds;
    return Join(keys, sep);
  }

  /** When no key contains the separator character, splitting the joined
      keys gives back every key in order; no entries give "". */
  lemma JoinKeysSplits(mds: seq<Entry>, c: char)
    requires forall i :: 0 <= i < |mds| ==> c !in mds[i].key
    ensures mds == [] ==> Join(Keys(mds), [c]) == ""
    ensures mds != [] ==> Split(Join(Keys(mds), [c]), c) == Keys(mds)
  {
    if mds != [] {
      SplitJoin(Keys(mds), c);
    }
  }

  // ------------------------------------------------------- extractVariables

  /** json.Marshal of an attribute map: left uninterpreted. */
  type Marshal = map<string, Value> -> Option<seq<Byte>>

  /** The entries of one variable: V (its dimension names joined by a
      space), VA (the JSON of its attributes), then its D entries. */
  function VarBlock(id: string, v: Variable, marshal: Marshal): Result<seq<Entry>, MetaError>
  {
    if v.name.Failed? then Err(LibraryError)
    else
      var name := v.name.got;
      var dmds := VariableDimensions(id, v);
      if dmds.Err? then Err(dmds.error)
      else
        var attrs := AttrMap(v.attrs);
        if attrs.Err? then Err(attrs.error)
        else match marshal(attrs.value)
          case None => Err(MarshalError)
          case Some(json) =>
            Ok([Entry(id, V, name, Str(Join(Keys(dmds.value), " "))), Entry(id, VA, name, Json(json))] + dmds.value)
  }

  /** How many entries a variable contributes. */
  function BlockSize(v: Variable): nat
  {
    2 + (if v.dims.Got? then |v.dims.got| else 0)
  }

  function TotalSize(vars: seq<Variable>): nat
  {
    if vars == [] then 0 else TotalSize(vars[..|vars| - 1]) + BlockSize(vars[|vars| - 1])
  }

  /** A variable's block: V and VA under the variable's name, its D
      entries in declared order, and the V value naming exactly those
      dimensions when no name contains a space. */
  lemma VarBlockShape(id: string, v: Variable, marshal: Marshal)
    requires VarBlock(id, v, marshal).Ok?
    ensures var b := VarBlock(id, v, marshal).value;
      && |b| == BlockSize(v)
      && b[0].tag == V && b[1].tag == VA
      && b[0].key == v.name.got && b[1].key == v.name.got
      && (forall i :: 0 <= i < |b| ==> b[i].fileId == id)
      && forall i :: 2 <= i < |b| ==> b[i].tag == D && b[i].key == v.dims.got[i - 2].name.got
  {
    var b := VarBlock(id, v, marshal).value;
    var dmds := DimEntries(id, v.dims.got).value;
    var json := marshal(AttrMap(v.attrs).value).value;
    var name := v.name.got;
    assert b == [Entry(id, V, name, Str(Join(Keys(dmds), " "))), Entry(id, VA, name, Json(json))] + dmds;
    forall i | 0 <= i < |b|
      ensures b[i].fileId == id
      ensures i >= 2 ==> b[i].tag == D && b[i].key == v.dims.got[i - 2].name.got
    {
      if i >= 2 {
        assert b[i] == dmds[i - 2];
      }
    }
  }

  /** The V entry's value lists the dimension names, and splitting it on
      spaces gives them back when no name holds a space. */
  lemma VarBlockDims(id: string, v: Variable, marshal: Marshal)
    requires VarBlock(id, v, marshal).Ok?
    ensures var b := VarBlock(id, v, marshal).value;
      v.dims.got != [] && (forall i :: 0 <= i < |v.dims.got| ==> ' ' !in v.dims.got[i].name.got) ==>
        |b| >= 2 && b[0].value == Str(Join(Keys(b[2..]), " ")) && Split(b[0].value.s, ' ') == Keys(b[2..])
  {
    var b := VarBlock(id, v, marshal).value;
    var dmds := VariableDimensions(id, v).value;
    assert b[2..] == dmds;
    if v.dims.got != [] && (forall i :: 0 <= i < |v.dims.got| ==> ' ' !in v.dims.got[i].name.got) {
      JoinKeysSplits(dmds, ' ');
    }
  }

  predicate BlockFailsFirstAt(id: string, vars: seq<Variable>, marshal: Marshal, i: int, e: MetaError)
  {
    && 0 <= i < |vars|
    && VarBlock(id, vars[i], marshal) == Err(e)
    && forall j :: 0 <= j < i ==> VarBlock(id, vars[j], marshal).Ok?
  }

  /** The entries of all variables, block after block in index order. */
  function VarEntries(id: string, vars: seq<Variable>, marshal: Marshal): (r: Result<seq<Entry>, MetaError>)
    ensures r.Ok? <==> forall i :: 0 <= i < |vars| ==> VarBlock(id, vars[i], marshal).Ok?
    ensures r.Err? ==> exists i :: BlockFailsFirstAt(id, vars, marshal, i, r.error)
  {
    if vars == [] then Ok([])
    else
      var init := vars[..|vars| - 1];
      assert forall i :: 0 <= i < |init| ==> init[i] == vars[i];
      var prefix := VarEntries(id, init, marshal);
      var block := VarBlock(id, vars[|vars| - 1], marshal);
      if prefix.Err? then
        var i :| BlockFailsFirstAt(id, init, marshal, i, prefix.error);
        assert BlockFailsFirstAt(id, vars, marshal, i, prefix.error);
        Err(prefix.error)
      else if block.Err? then
        assert BlockFailsFirstAt(id, vars, marshal, |vars| - 1, block.error);
        Err(block.error)
      else
        Ok(prefix.value + block.value)
  }

  /** One more successful block extends the extraction. */
  lemma VarEntriesStep(id: string, vars: seq<Variable>, marshal: Marshal, i: nat, b: seq<Entry>)
    requires i < |vars| && VarEntries(id, vars[..i], marshal).Ok?
    requires VarBlock(id, vars[i], marshal) == Ok(b)
    ensures VarEntries(id, vars[..i + 1], marshal) == Ok(VarEntries(id, vars[..i], marshal).value + b)
  {
    assert vars[..i + 1][..i] == vars[..i];
  }

  /** The extraction stops at the first variable whose block fails, with
      that block's error. */
  lemma VarEntriesStopsAt(id: string, vars: seq<Variable>, marshal: Marshal, i: nat, e: MetaError)
    requires i < |vars| && VarEntries(id, vars[..i], marshal).Ok?
    requires VarBlock(id, vars[i], marshal) == Err(e)
    ensures VarEntries(id, vars, marshal) == Err(e)
  {
    assert forall j :: 0 <= j < i ==> vars[..i][j] == vars[j];
    assert BlockFailsFirstAt(id, vars, marshal, i, e);
    var r := VarEntries(id, vars, marshal);
    var k :| BlockFailsFirstAt(id, vars, marshal, k, r.error);
  }

  /** The result has 2 + ndims entries per variable. */
  lemma {:induction false} VarEntriesCount(id: string, vars: seq<Variable>, marshal: Marshal)
    requires VarEntries(id, vars, marshal).Ok?
    ensures |VarEntries(id, vars, marshal).value| == TotalSize(vars)
  {
    if vars != [] {
      VarEntriesCount(id, vars[..|vars| - 1], marshal);
      VarBlockShape(id, vars[|vars| - 1], marshal);
    }
  }

  /** Entries of a file's variables: none carries tag A, every one
      carries the file id. */
  predicate VariableTagged(es: seq<Entry>, id: string)
  {
    forall k :: 0 <= k < |es| ==> es[k].tag != A && es[k].fileId == id
  }

  /** No variable entry carries tag A, and every one carries the file id. */
  lemma {:induction false} VarEntriesTags(id: string, vars: seq<Variable>, marshal: Marshal)
    requires VarEntries(id, vars, marshal).Ok?
    ensures VariableTagged(VarEntries(id, vars, marshal).value, id)
  {
    if vars != [] {
      var init := vars[..|vars| - 1];
      VarEntriesTags(id, init, marshal);
      var es := VarEntries(id, init, marshal).value;
      var b := VarBlock(id, vars[|vars| - 1], marshal).value;
      BlockTagged(id, vars[|vars| - 1], marshal);
      assert VarEntries(id, vars, marshal).value == es + b;
      TaggedConcat(es, b, id);
    }
  }

  lemma BlockTagged(id: string, v: Variable, marshal: Marshal)
    requires VarBlock(id, v, marshal).Ok?
    ensures VariableTagged(VarBlock(id, v, marshal).value, id)
  {
    VarBlockShape(id, v, marshal);
    var b := VarBlock(id, v, marshal).value;
    forall k | 0 <= k < |b|
      ensures b[k].tag != A
    {
      if k >= 2 {
        assert b[k].tag == D;
      }
    }
  }

  lemma TaggedConcat(es: seq<Entry>, b: seq<Entry>, id: string)
    requires VariableTagged(es, id) && VariableTagged(b, id)
    ensures VariableTagged(es + b, id)
  {
    forall k | 0 <= k < |es + b|
      ensures (es + b)[k].tag != A && (es + b)[k].fileId == id
    {
      if k >= |es| {
        assert (es + b)[k] == b[k - |es|];
      }
    }
  }

  method ExtractVariables(id: string, ds: Dataset, marshal: Marshal) returns (r: Result<seq<Entry>, MetaError>)
    ensures r == VarEntries(id, ds.vars, marshal)
  {
    var vars := ds.vars;
    var mds: seq<Entry> := [];
    for i := 0 to |vars|
      invariant VarEntries(id, vars[..i], marshal) == Ok(mds)
    {
      var v := vars[i];
      assert vars[..i + 1][..i] == vars[..i];
      if v.name.Failed? {
        VarEntriesStopsAt(id, vars, marshal, i, LibraryError);
        return Err(LibraryError);
      }
      var name := v.name.got;
      var dmds := ExtractVariableDimensions(id, v);
      if dmds.Err? {
        VarEntriesStopsAt(id, vars, marshal, i, dmds.error);
        return Err(dmds.error);
      }
      var attrs := ExtractVariableAttributes(v);
      if attrs.Err? {
        VarEntriesStopsAt(id, vars, marshal, i, attrs.error);
        return Err(attrs.error);
      }
      var dimNames := JoinKeys(dmds.value, " ");
      var vmd := Entry(id, V, name, Str(dimNames));
      var ajs := marshal(attrs.value);
      if ajs.None? {
        VarEntriesStopsAt(id, vars, marshal, i, MarshalError);
        return Err(MarshalError);
      }
      var vamd := Entry(id, VA, name, Json(ajs.value));
      assert VarBlock(id, v, marshal) == Ok([vmd, vamd] + dmds.value);
      VarEntriesStep(id, vars, marshal, i, [vmd, vamd] + dmds.value);
      mds := mds + [vmd, vamd];
      mds := mds + dmds.value;
      assert mds == VarEntries(id, vars[..i], marshal).value + ([vmd, vamd] + dmds.value);
    }
    assert vars[..|vars|] == vars;
    return Ok(mds);
  }

  // ----------------------------------------------------------------- Insert

  /** The whole extraction: global entries, then variable entries; no
      entries at all when either part fails. */
  function Extraction(id: string, ds: Dataset, marshal: Marshal): Result<seq<Entry>, MetaError>
  {
    var g := GlobalEntries(id, ds.attrs);
    if g.Err? then Err(g.error)
    else
      var vs := VarEntries(id, ds.vars, marshal);
      if vs.Err? then Err(vs.error) else Ok(g.value + vs.value)
  }

  /** A successful extraction holds one A entry per global attribute, in
      order and first, then 2 + ndims entries per variable, all under the
      file's id. */
  lemma ExtractionLayout(id: string, ds: Dataset, marshal: Marshal)
    requires Extraction(id, ds, marshal).Ok?
    ensures var es := Extraction(id, ds, marshal).value;
      && |es| == |ds.attrs| + TotalSize(ds.vars)
      && (forall k :: 0 <= k < |es| ==> es[k].fileId == id && (es[k].tag == A <==> k < |ds.attrs|))
      && (forall k :: 0 <= k < |ds.attrs| ==> es[k].key == ds.attrs[k].name)
  {
    var g := GlobalEntries(id, ds.attrs).value;
    var vs := VarEntries(id, ds.vars, marshal).value;
    VarEntriesCount(id, ds.vars, marshal);
    VarEntriesTags(id, ds.vars, marshal);
    ConcatLayout(id, ds.attrs, g, vs);
  }

  lemma ConcatLayout(id: string, attrs: seq<Attr>, g: seq<Entry>, vs: seq<Entry>)
    requires |g| == |attrs|
    requires forall k :: 0 <= k < |g| ==> g[k].fileId == id && g[k].tag == A && g[k].key == attrs[k].name
    requires forall k :: 0 <= k < |vs| ==> vs[k].tag != A && vs[k].fileId == id
    ensures forall k :: 0 <= k < |g + vs| ==> (g + vs)[k].fileId == id && ((g + vs)[k].tag == A <==> k < |attrs|)
    ensures forall k :: 0 <= k < |attrs| ==> (g + vs)[k].key == attrs[k].name
  {
  }

  /** The prepared insert statement and the rows it has written so far.
      Whether the database accepts a row is given, not modelled. */
  class Statement {
    var rows: seq<Entry>
    const accepts: Entry -> bool

    constructor(accepts: Entry -> bool)
      ensures rows == [] && this.accepts == accepts
    {
      rows := [];
      this.accepts := accepts;
    }

    /** stmt.Exec of one entry: written when the database accepts it. */
    method Exec(e: Entry) returns (ok: bool)
      modifies this
      ensures ok == accepts(e)
      ensures rows == if ok then old(rows) + [e] else old(rows)
    {
      ok := accepts(e);
      if ok {
        rows := rows + [e];
      }
    }
  }

  /** How many leading entries the database accepts before the first it
      refuses. */
  function Accepted(mds: seq<Entry>, accepts: Entry -> bool): (n: nat)
    ensures n <= |mds|
    ensures forall i :: 0 <= i < n ==> accepts(mds[i])
    ensures n < |mds| ==> !accepts(mds[n])
  {
    if mds == [] || !accepts(mds[0]) then 0 else 1 + Accepted(mds[1..], accepts)
  }

  /** insertMetadata(mds, stmt): the entries in order, stopping at the
      first that fails; the ones before it stay written. */
  method InsertMetadata(mds: seq<Entry>, stmt: Statement) returns (r: Result<(), MetaError>)
    modifies stmt
    ensures stmt.rows == old(stmt.rows) + mds[..Accepted(mds, stmt.accepts)]
    ensures r.Ok? <==> Accepted(mds, stmt.accepts) == |mds|
    ensures r.Err? ==> r.error == ExecError
  {
    var n := Accepted(mds, stmt.accepts);
    for i := 0 to |mds|
      invariant i <= n
      invariant stmt.rows == old(stmt.rows) + mds[..i]
    {
      var ok := stmt.Exec(mds[i]);
      if !ok {
        return Err(ExecError);
      }
      assert mds[..i + 1] == mds[..i] + [mds[i]];
    }
    return Ok(());
  }

  /** Insert: open the file, extract, then write every entry. Nothing is
      written when the file does not open or the extraction fails. */
  method Insert(id: string, handle: Lib<Dataset>, marshal: Marshal, stmt: Statement)
    returns (r: Result<(), MetaError>)
    modifies stmt
    ensures handle.Failed? ==> r == Err(LibraryError) && stmt.rows == old(stmt.rows)
    ensures handle.Got? && Extraction(id, handle.got, marshal).Err? ==>
      r == Err(Extraction(id, handle.got, marshal).error) && stmt.rows == old(stmt.rows)
    ensures handle.Got? && Extraction(id, handle.got, marshal).Ok? ==>
      var es := Extraction(id, handle.got, marshal).value;
      && stmt.rows == old(stmt.rows) + es[..Accepted(es, stmt.accepts)]
      && (r.Ok? <==> Accepted(es, stmt.accepts) == |es|)
  {
    if handle.Failed? {
      return Err(LibraryError);
    }
    var ds := handle.got;
    var mds: seq<Entry> := [];
    var gamds := ExtractGlobalAttributes(id, ds);
    if gamds.Err? {
      return Err(gamds.error);
    }
    mds := mds + gamds.value;
    assert mds == gamds.value;
    var vmds := ExtractVariables(id, ds, marshal);
    if vmds.Err? {
      return Err(vmds.error);
    }
    mds := mds + vmds.value;
    assert Extraction(id, ds, marshal) == Ok(mds);
    r := InsertMetadata(mds, stmt);
  }
}
