/** The catalog synchroniser: watcher events become changes to the
    metadata table. A create inserts the file's extracted rows, a remove
    deletes the rows of its path, and a rename "old -> new" deletes the
    rows of old and then inserts those of new. The events are applied one
    after the other in arrival order. */
module Catalog {
  import opened Base
  import opened Watcher

  /** A row of the metadata table (path, type, key, value). */
  datatype Row = Row(path: string, tag: string, key: string, value: string)

  /** What the catalog relies on and the model does not compute: the
      relative path the file service gives a full path, the metadata
      extraction of a file (None when it fails), and whether the table
      accepts an INSERT of a row. */
  datatype Env = Env(relPath: string -> string,
                     extract: string -> Option<seq<Row>>,
                     accepts: Row -> bool)

  datatype Failure = ExtractFailed | InsertFailed(row: Row)

  const Separator: string := " -> "

  // --------------------------------------------------------- strings.Split

  /** strings.Split(s, sep) for a non-empty separator: the pieces between
      the occurrences of sep, found left to right without overlap. */
  function SplitOn(s: string, sep: string): (r: seq<string>)
    requires sep != []
    ensures |r| >= 1
    decreases |s|
  {
    if |s| >= |sep| && s[..|sep|] == sep then [""] + SplitOn(s[|sep|..], sep)
    else if s == [] then [""]
    else
      var rest := SplitOn(s[1..], sep);
      [[s[0]] + rest[0]] + rest[1..]
  }

  lemma {:induction false} SplitOnNoArrow(a: string)
    requires '>' !in a
    ensures SplitOn(a, Separator) == [a]
  {
    if a != [] {
      if |a| >= 4 {
        assert a[..4][2] != '>';
      }
      SplitOnNoArrow(a[1..]);
      assert [a[0]] + a[1..] == a;
    }
  }

  lemma {:induction false} SplitOnArrow(a: string, t: string)
    requires '>' !in a
    ensures SplitOn(a + Separator + t, Separator) == [a] + SplitOn(t, Separator)
  {
    var s := a + Separator + t;
    if a == [] {
      assert s[..4] == Separator && s[4..] == t;
    } else {
      assert s[..4][2] != '>' by {
        if |a| > 2 {
          assert s[2] == a[2];
        } else {
          assert s[2] == Separator[2 - |a|];
        }
      }
      assert s[1..] == a[1..] + Separator + t;
      SplitOnArrow(a[1..], t);
      assert [a[0]] + a[1..] == a;
    }
  }

  /** The rename text the watcher produces splits back into its two
      paths when neither path contains '>'. */
  lemma RenameSplits(from: string, to: string)
    requires '>' !in from && '>' !in to
    ensures SplitOn(Arrow(from, to), Separator) == [from, to]
  {
    SplitOnArrow(from, to);
    SplitOnNoArrow(to);
  }

  /** A path that itself contains " -> " is cut apart: the rewatch rename
      of "a -> b" reads as a rename of a to b. */
  lemma ArrowInPathMisSplits(a: string, b: string)
    requires '>' !in a && '>' !in b
    ensures SplitOn(Arrow(a + Separator + b, a + Separator + b), Separator) == [a, b, a, b]
  {
    var k := a + Separator + b;
    assert Arrow(k, k) == a + Separator + (b + Separator + (a + Separator + b));
    SplitOnArrow(a, b + Separator + (a + Separator + b));
    SplitOnArrow(b, a + Separator + b);
    RenameSplits(a, b);
  }

  // ------------------------------------------------------ the table model

  /** How many of the rows are inserted before the first refused one. */
  function Accepted(mds: seq<Row>, accepts: Row -> bool): (n: nat)
    ensures n <= |mds|
    ensures forall j :: 0 <= j < n ==> accepts(mds[j])
    ensures n < |mds| ==> !accepts(mds[n])
  {
    if mds == [] || !accepts(mds[0]) then 0 else 1 + Accepted(mds[1..], accepts)
  }

  /** The rows insertMetadata leaves in the table for a full path: none
      when extraction fails, otherwise the rows up to the first refused
      INSERT. */
  function Inserted(env: Env, full: string): seq<Row>
  {
    match env.extract(full)
    case None => []
    case Some(mds) => mds[..Accepted(mds, env.accepts)]
  }

  /** DELETE FROM metadata WHERE path = p. */
  function Without(rows: seq<Row>, p: string): seq<Row>
  {
    if rows == [] then []
    else
      var r := rows[|rows| - 1];
      Without(rows[..|rows| - 1], p) + (if r.path == p then [] else [r])
  }

  /** The delete removes every row of the path and keeps every other row
      as many times as it was there. */
  lemma {:induction false} WithoutCounts(rows: seq<Row>, p: string, r: Row)
    ensures multiset(Without(rows, p))[r] == if r.path == p then 0 else multiset(rows)[r]
  {
    if rows != [] {
      var init := rows[..|rows| - 1];
      WithoutCounts(init, p, r);
      assert rows == init + [rows[|rows| - 1]];
    }
  }

  lemma {:induction false} WithoutAppend(a: seq<Row>, b: seq<Row>, p: string)
    ensures Without(a + b, p) == Without(a, p) + Without(b, p)
  {
    if b != [] {
      var last := b[|b| - 1];
      assert (a + b)[..|a + b| - 1] == a + b[..|b| - 1];
      WithoutAppend(a, b[..|b| - 1], p);
    } else {
      assert a + b == a;
    }
  }

  lemma {:induction false} WithoutNone(rows: seq<Row>, p: string)
    requires forall i :: 0 <= i < |rows| ==> rows[i].path != p
    ensures Without(rows, p) == rows
  {
    if rows != [] {
      var init := rows[..|rows| - 1];
      WithoutNone(init, p);
      assert rows[|rows| - 1].path != p;
      assert Without(rows, p) == init + [rows[|rows| - 1]];
      assert init + [rows[|rows| - 1]] == rows;
    }
  }

  lemma {:induction false} WithoutAll(rows: seq<Row>, p: string)
    requires forall i :: 0 <= i < |rows| ==> rows[i].path == p
    ensures Without(rows, p) == []
  {
    if rows != [] {
      WithoutAll(rows[..|rows| - 1], p);
    }
  }

  lemma {:induction false} WithoutLeavesNoRow(rows: seq<Row>, p: string)
    ensures forall i :: 0 <= i < |Without(rows, p)| ==> Without(rows, p)[i].path != p
  {
    if rows != [] {
      WithoutLeavesNoRow(rows[..|rows| - 1], p);
    }
  }

  /** An event the listener can dispatch: a rename must carry the
      separator, since the listener reads the second piece. */
  predicate Dispatchable(e: WatcherEvent)
  {
    e.op == Rename ==> |SplitOn(e.fullPath, Separator)| >= 2
  }

  /** The table after one event. */
  function Step(env: Env, rows: seq<Row>, e: WatcherEvent): seq<Row>
    requires Dispatchable(e)
  {
    match e.op
    case Create => rows + Inserted(env, e.fullPath)
    case Remove => Without(rows, env.relPath(e.fullPath))
    case Rename =>
      var tks := SplitOn(e.fullPath, Separator);
      Without(rows, env.relPath(tks[0])) + Inserted(env, tks[1])
    case _ => rows
  }

  /** The table after a run of events, applied in arrival order. */
  function Replay(env: Env, rows: seq<Row>, events: seq<WatcherEvent>): seq<Row>
    requires forall i :: 0 <= i < |events| ==> Dispatchable(events[i])
  {
    if events == [] then rows
    else Step(env, Replay(env, rows, events[..|events| - 1]), events[|events| - 1])
  }

  /** Two creates of the same file with no remove between them leave its
      rows in the table twice. */
  lemma CreateTwiceDuplicates(env: Env, rows: seq<Row>, full: string)
    ensures Replay(env, rows, [WatcherEvent(full, Create), WatcherEvent(full, Create)])
            == rows + Inserted(env, full) + Inserted(env, full)
  {
    var evs := [WatcherEvent(full, Create), WatcherEvent(full, Create)];
    assert evs[..1][..0] == [];
    assert Replay(env, rows, evs[..1]) == rows + Inserted(env, full);
  }

  /** A rewatch rename of k deletes every row of k's relative path and
      then inserts a fresh extraction of k. */
  lemma RewatchRefreshes(env: Env, rows: seq<Row>, k: string)
    requires '>' !in k
    ensures Dispatchable(WatcherEvent(Arrow(k, k), Rename))
    ensures Step(env, rows, WatcherEvent(Arrow(k, k), Rename))
            == Without(rows, env.relPath(k)) + Inserted(env, k)
  {
    RenameSplits(k, k);
  }

  /** When the extraction's rows carry the file's own relative path, a
      second rewatch of the same file changes nothing more. */
  lemma RewatchIdempotent(env: Env, rows: seq<Row>, k: string)
    requires '>' !in k
    requires var ins := Inserted(env, k); forall i :: 0 <= i < |ins| ==> ins[i].path == env.relPath(k)
    ensures var e := WatcherEvent(Arrow(k, k), Rename);
            Dispatchable(e) && Step(env, Step(env, rows, e), e) == Step(env, rows, e)
  {
    var p := env.relPath(k);
    var ins := Inserted(env, k);
    RewatchRefreshes(env, rows, k);
    RewatchRefreshes(env, Without(rows, p) + ins, k);
    RefreshTwice(rows, p, ins);
  }

  /** Dropping a path's rows and appending fresh rows of that path is the
      same whether done once or twice. */
  lemma RefreshTwice(rows: seq<Row>, p: string, ins: seq<Row>)
    requires forall i :: 0 <= i < |ins| ==> ins[i].path == p
    ensures Without(Without(rows, p) + ins, p) + ins == Without(rows, p) + ins
  {
    WithoutAppend(Without(rows, p), ins, p);
    WithoutLeavesNoRow(rows, p);
    WithoutNone(Without(rows, p), p);
    WithoutAll(ins, p);
    assert Without(ins, p) == [];
    assert Without(Without(rows, p), p) + [] == Without(rows, p);
  }

  // ------------------------------------------------------- the listener

  class Catalog {
    const env: Env
    var rows: seq<Row>

    constructor(env: Env, rows: seq<Row>)
      ensures this.env == env && this.rows == rows
    {
      this.env := env;
      this.rows := rows;
    }

    /** Storage.insertMetadata: extract, then INSERT row by row, stopping
        at the first refused row with the earlier rows left in place. */
    method InsertMetadata(full: string) returns (err: Option<Failure>)
      modifies this
      ensures rows == old(rows) + Inserted(env, full)
      ensures env.extract(full).None? ==> err == Some(ExtractFailed)
      ensures env.extract(full).Some? ==>
                var mds := env.extract(full).value;
                var n := Accepted(mds, env.accepts);
                err == if n < |mds| then Some(InsertFailed(mds[n])) else None
    {
      var mds := env.extract(full);
      if mds.None? {
        return Some(ExtractFailed);
      }
      ghost var n := Accepted(mds.value, env.accepts);
      var i := 0;
      while i < |mds.value|
        invariant 0 <= i <= n
        invariant rows == old(rows) + mds.value[..i]
      {
        var md := mds.value[i];
        if !env.accepts(md) {
          return Some(InsertFailed(md));
        }
        rows := rows + [md];
        assert mds.value[..i + 1] == mds.value[..i] + [md];
        i := i + 1;
      }
      assert mds.value[..i] == mds.value;
      return None;
    }

    /** Storage.cleanMetadata: delete the rows of the file's relative path. */
    method CleanMetadata(full: string)
      modifies this
      ensures rows == Without(old(rows), env.relPath(full))
    {
      var p := env.relPath(full);
      var kept := [];
      var i := 0;
      while i < |rows|
        invariant 0 <= i <= |rows|
        invariant kept == Without(rows[..i], p)
      {
        assert rows[..i + 1][..i] == rows[..i];
        if rows[i].path != p {
          kept := kept + [rows[i]];
        }
        i := i + 1;
      }
      assert rows[..i] == rows;
      rows := kept;
    }

    /** One turn of Storage.listen: dispatch on the event's op. */
    method Dispatch(e: WatcherEvent)
      requires Dispatchable(e)
      modifies this
      ensures rows == Step(env, old(rows), e)
    {
      match e.op
      case Create =>
        var _ := InsertMetadata(e.fullPath);
      case Remove =>
        CleanMetadata(e.fullPath);
      case Rename =>
        var tks := SplitOn(e.fullPath, Separator);
        CleanMetadata(tks[0]);
        var _ := InsertMetadata(tks[1]);
      case _ =>
    }

    /** Storage.listen over a run of events, in arrival order. */
    method Listen(events: seq<WatcherEvent>)
      requires forall i :: 0 <= i < |events| ==> Dispatchable(events[i])
      modifies this
      ensures rows == Replay(env, old(rows), events)
    {
      var i := 0;
      while i < |events|
        invariant 0 <= i <= |events|
        invariant rows == Replay(env, old(rows), events[..i])
      {
        assert events[..i + 1][..i] == events[..i];
        Dispatch(events[i]);
        i := i + 1;
      }
      assert events[..i] == events;
    }
  }
}
