/** The migration tool's copy loop: the rows of the SQL metadata table,
    read in (path, type, key) order, are converted to typed records and
    written to the key-value store in batches keyed by path. A batch is
    flushed when the path changes or the row counter reaches the table's
    row count; the flush happens before the current row is buffered. */
module Migration {
  import opened Base
  import Metadata

  /** A row of the SQL table; the value column is read as text. */
  datatype Row = Row(path: string, typ: string, key: string, val: string)

  datatype Value = Text(s: string) | Number(n: int) | Blob(b: string) | Nil

  /** The tool's Metadata record: the type is absent for an unknown tag. */
  datatype Record = Record(path: string, tag: Option<Metadata.Tag>, key: string, value: Value)

  /** One kv.Set: the batch gob-encoded under its key. */
  datatype Write = Write(key: string, batch: seq<Record>)

  function TagOf(typ: string): (t: Option<Metadata.Tag>)
    ensures t.Some? <==> typ in {"A", "D", "V", "VA"}
    ensures t.Some? ==> Metadata.TagName(t.value) == typ
  {
    if typ == "A" then Some(Metadata.A)
    else if typ == "D" then Some(Metadata.D)
    else if typ == "V" then Some(Metadata.V)
    else if typ == "VA" then Some(Metadata.VA)
    else None
  }

  /** The conversion of one row; None when a D value does not parse as a
      base-10 int64, which ends the program. */
  function Convert(r: Row): (res: Option<Record>)
    ensures res.None? <==> r.typ == "D" && ParseInt(r.val).None?
    ensures res.Some? ==> res.value.path == r.path && res.value.key == r.key
                          && res.value.tag == TagOf(r.typ)
    ensures res.Some? && r.typ == "D" ==> res.value.value == Number(ParseInt(r.val).value)
    ensures res.Some? && r.typ in {"A", "V"} ==> res.value.value == Text(r.val)
    ensures res.Some? && r.typ == "VA" ==> res.value.value == Blob(r.val)
    ensures res.Some? && r.typ !in {"A", "D", "V", "VA"} ==> res.value.value == Nil
  {
    var t := TagOf(r.typ);
    if r.typ == "D" then
      match ParseInt(r.val)
      case None => None
      case Some(n) => Some(Record(r.path, t, r.key, Number(n)))
    else if r.typ == "A" || r.typ == "V" then Some(Record(r.path, t, r.key, Text(r.val)))
    else if r.typ == "VA" then Some(Record(r.path, t, r.key, Blob(r.val)))
    else Some(Record(r.path, t, r.key, Nil))
  }

  /** A dimension entry as the flattener writes it (its length in decimal)
      migrates to the same length as a number. */
  lemma DimMigrates(path: string, key: string, n: nat)
    requires n <= MaxInt64
    ensures Convert(Row(path, "D", key, DecimalString(n))) == Some(Record(path, Some(Metadata.D), key, Number(n)))
  {
    ParseDecimal(n);
  }

  predicate Converts(rows: seq<Row>)
  {
    forall i :: 0 <= i < |rows| ==> Convert(rows[i]).Some?
  }

  function Records(rows: seq<Row>): (recs: seq<Record>)
    requires Converts(rows)
    ensures |recs| == |rows| && forall i :: 0 <= i < |rows| ==> recs[i] == Convert(rows[i]).value
  {
    if rows == [] then [] else Records(rows[..|rows| - 1]) + [Convert(rows[|rows| - 1]).value]
  }

  /** All the records of a run of writes, in write order. */
  function Flatten(ws: seq<Write>): seq<Record>
  {
    if ws == [] then [] else Flatten(ws[..|ws| - 1]) + ws[|ws| - 1].batch
  }

  // ------------------------------------------------------ the loop as written

  /** The loop variables after some rows: previous, the buffer mds, the
      writes issued, and whether the program has stopped on a fatal error. */
  datatype State = State(previous: string, mds: seq<Record>, writes: seq<Write>, fatal: bool)

  /** One iteration for row number i (counted from 1) of total. */
  function StepRow(st: State, r: Row, i: nat, total: nat): State
  {
    if st.fatal then st
    else match Convert(r)
      case None => st.(fatal := true)
      case Some(md) =>
        var current := r.path;
        var previous := if st.previous == "" then current else st.previous;
        if current != previous || i == total then
          State(current, [md], st.writes + [Write(previous, st.mds)], false)
        else
          State(current, st.mds + [md], st.writes, false)
  }

  /** The state after the first k rows. */
  function Run(rows: seq<Row>, k: nat): State
    requires k <= |rows|
  {
    if k == 0 then State("", [], [], false)
    else StepRow(Run(rows, k - 1), rows[k - 1], k, |rows|)
  }

  function Migrate(rows: seq<Row>): State
  {
    Run(rows, |rows|)
  }

  lemma {:induction false} FatalStays(rows: seq<Row>, k: nat, m: nat)
    requires k <= m <= |rows| && Run(rows, k).fatal
    ensures Run(rows, m) == Run(rows, k)
    decreases m - k
  {
    if k < m {
      FatalStays(rows, k, m - 1);
    }
  }

  /** The loop of the migration tool, over the rows of the query. */
  method MigrateRows(rows: seq<Row>) returns (writes: seq<Write>, fatal: bool)
    ensures writes == Migrate(rows).writes && fatal == Migrate(rows).fatal
  {
    var total := |rows|;
    var previous := "";
    var mds: seq<Record> := [];
    writes := [];
    var i := 0;
    while i < |rows|
      invariant 0 <= i <= |rows|
      invariant Run(rows, i) == State(previous, mds, writes, false)
    {
      i := i + 1;
      var md := Convert(rows[i - 1]);
      if md.None? {
        FatalStays(rows, i, |rows|);
        return writes, true;
      }
      var current := rows[i - 1].path;
      if previous == "" {
        previous := current;
      }
      if current != previous || i == total {
        writes := writes + [Write(previous, mds)];
        mds := [];
      }
      mds := mds + [md.value];
      previous := current;
    }
    return writes, false;
  }

  /** What the loop keeps: the writes and the buffer together hold the
      records of the rows read so far, in order; it stops exactly on a row
      that does not convert. */
  lemma {:induction false} RunHolds(rows: seq<Row>, k: nat)
    requires k <= |rows|
    ensures !Run(rows, k).fatal <==> Converts(rows[..k])
    ensures !Run(rows, k).fatal ==> Flatten(Run(rows, k).writes) + Run(rows, k).mds == Records(rows[..k])
  {
    if k > 0 {
      RunHolds(rows, k - 1);
      var pre := rows[..k - 1];
      var r := rows[k - 1];
      assert rows[..k] == pre + [r];
      var st := Run(rows, k - 1);
      if st.fatal {
        assert Run(rows, k) == st;
        assert !Converts(rows[..k]) by {
          assert !Converts(pre);
        }
      } else if Convert(r).None? {
        assert Run(rows, k).fatal;
        assert !Converts(rows[..k]) by {
          assert rows[..k][k - 1] == r;
        }
      } else {
        var md := Convert(r).value;
        assert Converts(rows[..k]);
        assert Records(rows[..k]) == Records(pre) + [md];
        var previous := if st.previous == "" then r.path else st.previous;
        if r.path != previous || k == |rows| {
          assert Run(rows, k) == State(r.path, [md], st.writes + [Write(previous, st.mds)], false);
          FlattenSnoc(st.writes, Write(previous, st.mds));
        } else {
          assert Run(rows, k) == State(r.path, st.mds + [md], st.writes, false);
        }
      }
    }
  }

  lemma FlattenSnoc(ws: seq<Write>, w: Write)
    ensures Flatten(ws + [w]) == Flatten(ws) + w.batch
  {
    assert (ws + [w])[..|ws|] == ws;
  }

  /** The final row is never written: a run that converts every row
      writes exactly the records of all rows but the last, in order, and
      leaves the last one in the buffer. */
  lemma LastRowNeverWritten(rows: seq<Row>)
    requires |rows| >= 1 && Converts(rows)
    ensures !Migrate(rows).fatal
    ensures Flatten(Migrate(rows).writes) == Records(rows[..|rows| - 1])
    ensures Migrate(rows).mds == [Convert(rows[|rows| - 1]).value]
  {
    var n := |rows|;
    assert rows[..n] == rows;
    RunHolds(rows, n);
    RunHolds(rows, n - 1);
    var st := Run(rows, n - 1);
    var current := rows[n - 1].path;
    var previous := if st.previous == "" then current else st.previous;
    assert Migrate(rows).writes == st.writes + [Write(previous, st.mds)];
    FlattenSnoc(st.writes, Write(previous, st.mds));
  }

  /** A file with two attribute rows: one write, holding only the first. */
  lemma TwoRowsOneLost()
    ensures var rows := [Row("f.nc", "A", "title", "x"), Row("f.nc", "A", "units", "y")];
            Migrate(rows).writes == [Write("f.nc", [Record("f.nc", Some(Metadata.A), "title", Text("x"))])]
  {
    var rows := [Row("f.nc", "A", "title", "x"), Row("f.nc", "A", "units", "y")];
    assert Run(rows, 1) == State("f.nc", [Record("f.nc", Some(Metadata.A), "title", Text("x"))], [], false);
  }

  /** Positions 1 <= j < |rows| where the path differs from the row before. */
  function Changes(rows: seq<Row>): nat
  {
    if |rows| < 2 then 0
    else Changes(rows[..|rows| - 1]) + (if rows[|rows| - 1].path != rows[|rows| - 2].path then 1 else 0)
  }

  predicate NamedPaths(rows: seq<Row>)
  {
    forall i :: 0 <= i < |rows| ==> rows[i].path != ""
  }

  /** Before the last row, a write happens exactly at each path change,
      and previous holds the path of the row just read. */
  lemma {:induction false} WritesBeforeEnd(rows: seq<Row>, k: nat)
    requires 1 <= k < |rows| && NamedPaths(rows) && Converts(rows)
    ensures |Run(rows, k).writes| == Changes(rows[..k]) && Run(rows, k).previous == rows[k - 1].path
            && !Run(rows, k).fatal
  {
    var r := rows[k - 1];
    var md := Convert(r).value;
    var st := Run(rows, k - 1);
    if k == 1 {
      assert Run(rows, 1) == State(r.path, [md], [], false);
    } else {
      WritesBeforeEnd(rows, k - 1);
      assert st.previous == rows[k - 2].path != "";
      assert rows[..k][..k - 1] == rows[..k - 1];
      assert Changes(rows[..k]) == Changes(rows[..k - 1]) + (if r.path != st.previous then 1 else 0);
      if r.path != st.previous {
        assert Run(rows, k) == State(r.path, [md], st.writes + [Write(st.previous, st.mds)], false);
      } else {
        assert Run(rows, k) == State(r.path, st.mds + [md], st.writes, false);
      }
    }
  }

  /** Before the last row, the buffer holds rows of previous's path and
      every write holds only rows of its key's path. */
  lemma {:induction false} KeyedBeforeEnd(rows: seq<Row>, k: nat)
    requires 1 <= k < |rows| && NamedPaths(rows) && Converts(rows)
    ensures var st := Run(rows, k);
            (forall j :: 0 <= j < |st.mds| ==> st.mds[j].path == st.previous)
            && (forall w, j :: 0 <= w < |st.writes| && 0 <= j < |st.writes[w].batch| ==>
                  st.writes[w].batch[j].path == st.writes[w].key)
  {
    if k > 1 {
      KeyedBeforeEnd(rows, k - 1);
      WritesBeforeEnd(rows, k - 1);
    }
  }

  /** The number of writes is the number of path changes, plus one unless
      the last row itself starts a new path (the final flush and a path
      change coincide there). */
  lemma WriteCount(rows: seq<Row>)
    requires |rows| >= 1 && NamedPaths(rows) && Converts(rows)
    ensures var last := |rows| - 1;
            |Migrate(rows).writes| ==
            Changes(rows) + (if last >= 1 && rows[last].path != rows[last - 1].path then 0 else 1)
  {
    var n := |rows|;
    assert rows[..n] == rows;
    RunHolds(rows, n - 1);
    if n > 1 {
      WritesBeforeEnd(rows, n - 1);
      assert rows[..n - 1] == rows[..n][..n - 1];
    }
  }

  /** Every write holds only records of its key's path. */
  lemma WritesKeyedByPath(rows: seq<Row>)
    requires |rows| >= 1 && NamedPaths(rows) && Converts(rows)
    ensures var ws := Migrate(rows).writes;
            forall w, j :: 0 <= w < |ws| && 0 <= j < |ws[w].batch| ==> ws[w].batch[j].path == ws[w].key
  {
    var n := |rows|;
    RunHolds(rows, n - 1);
    var st := Run(rows, n - 1);
    var previous := if st.previous == "" then rows[n - 1].path else st.previous;
    if n > 1 {
      WritesBeforeEnd(rows, n - 1);
      KeyedBeforeEnd(rows, n - 1);
      assert previous == st.previous;
    }
    assert Migrate(rows).writes == st.writes + [Write(previous, st.mds)];
  }

  // --------------------------------------------------- the intended grouping

  /** Add one record to a grouping: it joins the last batch when that
      batch is under its path and opens a new batch otherwise. */
  function AddTo(g: seq<Write>, r: Record): (ws: seq<Write>)
    ensures ws != [] && ws[|ws| - 1].key == r.path
  {
    if g != [] && g[|g| - 1].key == r.path then g[..|g| - 1] + [Write(r.path, g[|g| - 1].batch + [r])]
    else g + [Write(r.path, [r])]
  }

  /** One write per maximal run of records with the same path, every
      record included. */
  function Group(recs: seq<Record>): (ws: seq<Write>)
    ensures recs == [] <==> ws == []
  {
    if recs == [] then [] else AddTo(Group(recs[..|recs| - 1]), recs[|recs| - 1])
  }

  /** Every batch non-empty and made of records of the path it is under. */
  predicate Keyed(ws: seq<Write>)
  {
    forall w :: 0 <= w < |ws| ==> ws[w].batch != [] && forall j :: 0 <= j < |ws[w].batch| ==> ws[w].batch[j].path == ws[w].key
  }

  /** Neighbouring batches under different paths. */
  predicate Alternating(ws: seq<Write>)
  {
    forall w :: 0 < w < |ws| ==> ws[w - 1].key != ws[w].key
  }

  lemma FlattenAddTo(g: seq<Write>, r: Record)
    ensures Flatten(AddTo(g, r)) == Flatten(g) + [r]
  {
    if g != [] && g[|g| - 1].key == r.path {
      var front := g[..|g| - 1];
      var lastW := g[|g| - 1];
      var ws := front + [Write(r.path, lastW.batch + [r])];
      assert ws[..|ws| - 1] == front;
      assert g[..|g| - 1] == front;
      assert Flatten(g) == Flatten(front) + lastW.batch;
      assert Flatten(ws) == Flatten(front) + (lastW.batch + [r]);
    } else {
      var ws := g + [Write(r.path, [r])];
      assert ws[..|ws| - 1] == g;
    }
  }

  lemma KeyedAddTo(g: seq<Write>, r: Record)
    requires Keyed(g)
    ensures Keyed(AddTo(g, r))
  {
  }

  lemma AlternatingAddTo(g: seq<Write>, r: Record)
    requires Alternating(g)
    ensures Alternating(AddTo(g, r))
  {
  }

  /** The grouping writes every record once, in order. */
  lemma {:induction false} GroupFlatten(recs: seq<Record>)
    ensures Flatten(Group(recs)) == recs
  {
    if recs != [] {
      var init := recs[..|recs| - 1];
      var r := recs[|recs| - 1];
      var g := Group(init);
      calc {
        Flatten(Group(recs));
        Flatten(AddTo(g, r));
        { FlattenAddTo(g, r); }
        Flatten(g) + [r];
        { GroupFlatten(init); }
        init + [r];
      }
      assert init + [r] == recs;
    }
  }

  /** Each batch of the grouping is non-empty and holds only records of
      the path it is written under, and neighbouring batches are under
      different paths. */
  lemma {:induction false} GroupKeyed(recs: seq<Record>)
    ensures Keyed(Group(recs)) && Alternating(Group(recs))
  {
    if recs != [] {
      var init := recs[..|recs| - 1];
      GroupKeyed(init);
      KeyedAddTo(Group(init), recs[|recs| - 1]);
      AlternatingAddTo(Group(init), recs[|recs| - 1]);
    }
  }

  /** The corrected loop's state after the records recs: the buffer mds
      is the open last batch of their grouping, and writes the batches
      before it. */
  predicate Open(writes: seq<Write>, mds: seq<Record>, recs: seq<Record>)
  {
    (mds == [] ==> writes == [] && recs == [])
    && (mds != [] ==> writes + [Write(mds[0].path, mds)] == Group(recs))
  }

  /** Buffer one record, flushing first when its path differs from the
      buffered ones. */
  method Push(writes: seq<Write>, mds: seq<Record>, md: Record, ghost recs: seq<Record>)
    returns (writes': seq<Write>, mds': seq<Record>)
    requires Open(writes, mds, recs)
    ensures Open(writes', mds', recs + [md])
  {
    assert (recs + [md])[..|recs|] == recs;
    assert Group(recs + [md]) == AddTo(Group(recs), md);
    if mds != [] && md.path != mds[0].path {
      writes' := writes + [Write(mds[0].path, mds)];
      mds' := [md];
    } else if mds != [] {
      var g := writes + [Write(mds[0].path, mds)];
      assert g[..|g| - 1] == writes;
      writes' := writes;
      mds' := mds + [md];
      assert mds'[0] == mds[0];
    } else {
      writes' := writes;
      mds' := [md];
    }
  }

  /** The loop with the final flush it evidently intends: flush the buffer
      on a path change and once more after the last row. */
  method MigrateGrouped(rows: seq<Row>) returns (writes: seq<Write>, fatal: bool)
    ensures fatal <==> !Converts(rows)
    ensures !fatal ==> writes == Group(Records(rows))
  {
    var mds: seq<Record> := [];
    writes := [];
    var i := 0;
    while i < |rows|
      invariant 0 <= i <= |rows|
      invariant Converts(rows[..i])
      invariant Open(writes, mds, Records(rows[..i]))
    {
      var md := Convert(rows[i]);
      if md.None? {
        return writes, true;
      }
      assert rows[..i + 1] == rows[..i] + [rows[i]];
      assert Records(rows[..i + 1]) == Records(rows[..i]) + [md.value];
      writes, mds := Push(writes, mds, md.value, Records(rows[..i]));
      i := i + 1;
    }
    assert rows[..i] == rows;
    if mds != [] {
      writes := writes + [Write(mds[0].path, mds)];
    }
    return writes, false;
  }
}
