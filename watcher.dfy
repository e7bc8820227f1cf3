/** The directory watcher's event pump: on start it may synthesise a
    rename "k -> k" for every watched file (rewatch), then it forwards the
    polling watcher's live events for files until the watcher closes or
    reports an error. The channel it writes to is an output sequence. */
module Watcher {

  datatype Op = Create | Write | Remove | Rename | Chmod | Move

  /** What Watch sends on its Events channel. */
  datatype WatcherEvent = WatcherEvent(fullPath: string, op: Op)

  /** What the polling watcher delivers: a change to a path (a directory
      or not), an error (fatal), or the close signal. */
  datatype Signal = Changed(path: string, op: Op, isDir: bool) | Failed | Closed

  /** fmt.Sprintf("%s -> %s", from, to). */
  function Arrow(from: string, to: string): string
  {
    from + " -> " + to
  }

  /** The synthetic renames for the watched files, visited in `order`;
      `watched` maps each watched path to whether it is a directory. */
  function Rewatch(watched: map<string, bool>, order: seq<string>): (evs: seq<WatcherEvent>)
    requires forall i :: 0 <= i < |order| ==> order[i] in watched
    ensures |evs| <= |order|
    ensures forall j :: 0 <= j < |evs| ==> evs[j].op == Rename
  {
    if order == [] then []
    else
      var k := order[|order| - 1];
      Rewatch(watched, order[..|order| - 1]) + (if watched[k] then [] else [WatcherEvent(Arrow(k, k), Rename)])
  }

  /** How often an event occurs in a sequence of events. */
  function Count(evs: seq<WatcherEvent>, e: WatcherEvent): nat
  {
    if evs == [] then 0 else Count(evs[..|evs| - 1], e) + (if evs[|evs| - 1] == e then 1 else 0)
  }

  lemma ArrowInjective(a: string, b: string)
    requires Arrow(a, a) == Arrow(b, b)
    ensures a == b
  {
    assert |a| == |b|;
    assert Arrow(a, a)[..|a|] == a;
    assert Arrow(b, b)[..|b|] == b;
  }

  /** Each watched file that is not a directory gets exactly one rename
      event, and nothing else gets one, when the order visits every
      watched path once. */
  lemma {:induction false} RewatchOncePerFile(watched: map<string, bool>, order: seq<string>, k: string)
    requires forall i :: 0 <= i < |order| ==> order[i] in watched
    requires forall i, j :: 0 <= i < j < |order| ==> order[i] != order[j]
    ensures Count(Rewatch(watched, order), WatcherEvent(Arrow(k, k), Rename)) ==
            (if k in order && !watched[k] then 1 else 0)
  {
    if order != [] {
      var init := order[..|order| - 1];
      var last := order[|order| - 1];
      RewatchOncePerFile(watched, init, k);
      var r := Rewatch(watched, init);
      if !watched[last] {
        var ev := WatcherEvent(Arrow(last, last), Rename);
        assert Rewatch(watched, order) == r + [ev];
        assert (r + [ev])[..|r|] == r;
      } else {
        assert Rewatch(watched, order) == r;
      }
      if last == k {
        assert k !in init;
      } else if !watched[last] && Arrow(last, last) == Arrow(k, k) {
        ArrowInjective(last, k);
      }
      assert k in order <==> k in init || k == last;
    }
  }

  /** Go's `range` over the watched map: every watched path exactly once,
      in an order the runtime picks. */
  predicate RangeOrder(watched: map<string, bool>, order: seq<string>)
  {
    (forall i :: 0 <= i < |order| ==> order[i] in watched)
    && (forall i, j :: 0 <= i < j < |order| ==> order[i] != order[j])
    && (forall k :: k in watched ==> k in order)
  }

  /** Whatever order the range takes, each watched file that is not a
      directory gets exactly one rename, and no other path gets one. */
  lemma RewatchEveryFile(watched: map<string, bool>, order: seq<string>, k: string)
    requires RangeOrder(watched, order)
    ensures Count(Rewatch(watched, order), WatcherEvent(Arrow(k, k), Rename)) ==
            (if k in watched && !watched[k] then 1 else 0)
  {
    RewatchOncePerFile(watched, order, k);
  }

  /** Where the live stream ends: the first error or close signal. */
  function Stop(signals: seq<Signal>): (n: nat)
    ensures n <= |signals|
    ensures forall i :: 0 <= i < n ==> signals[i].Changed?
    ensures n < |signals| ==> !signals[n].Changed?
  {
    if signals == [] || !signals[0].Changed? then 0 else 1 + Stop(signals[1..])
  }

  /** The changes to files among `changes`, forwarded unchanged. */
  function Forwarded(changes: seq<Signal>): (evs: seq<WatcherEvent>)
    requires forall i :: 0 <= i < |changes| ==> changes[i].Changed?
    ensures |evs| <= |changes|
  {
    if changes == [] then []
    else
      var s := changes[|changes| - 1];
      Forwarded(changes[..|changes| - 1]) + (if s.isDir then [] else [WatcherEvent(s.path, s.op)])
  }

  /** The live part of Watch: the file changes before the stream ends. */
  function Live(signals: seq<Signal>): seq<WatcherEvent>
  {
    Forwarded(signals[..Stop(signals)])
  }

  /** A run in which only changes to files arrive forwards every one of
      them, path and op unchanged, in arrival order. */
  lemma {:induction false} ForwardedFiles(changes: seq<Signal>)
    requires forall i :: 0 <= i < |changes| ==> changes[i].Changed? && !changes[i].isDir
    ensures |Forwarded(changes)| == |changes|
    ensures forall i :: 0 <= i < |changes| ==>
              Forwarded(changes)[i] == WatcherEvent(changes[i].path, changes[i].op)
  {
    if changes != [] {
      ForwardedFiles(changes[..|changes| - 1]);
    }
  }

  /** Changes to directories are never forwarded. */
  lemma {:induction false} ForwardedSkipsDirectories(changes: seq<Signal>)
    requires forall i :: 0 <= i < |changes| ==> changes[i].Changed? && changes[i].isDir
    ensures Forwarded(changes) == []
  {
    if changes != [] {
      ForwardedSkipsDirectories(changes[..|changes| - 1]);
    }
  }

  /** Watcher.Watch: the synthetic renames (when rewatch is set) and then
      the live events; `fatal` tells whether the stream ended on an error
      (log.Fatal) rather than on close. */
  method Watch(rewatch: bool, watched: map<string, bool>, order: seq<string>, signals: seq<Signal>)
    returns (out: seq<WatcherEvent>, fatal: bool)
    requires RangeOrder(watched, order)
    ensures out == (if rewatch then Rewatch(watched, order) else []) + Live(signals)
    ensures fatal <==> Stop(signals) < |signals| && signals[Stop(signals)].Failed?
  {
    out := [];
    if rewatch {
      var i := 0;
      while i < |order|
        invariant 0 <= i <= |order|
        invariant out == Rewatch(watched, order[..i])
      {
        assert order[..i + 1][..i] == order[..i];
        if !watched[order[i]] {
          out := out + [WatcherEvent(Arrow(order[i], order[i]), Rename)];
        }
        i := i + 1;
      }
      assert order[..i] == order;
    }
    ghost var synthetic := out;
    var j := 0;
    fatal := false;
    while j < |signals|
      invariant 0 <= j <= Stop(signals)
      invariant out == synthetic + Forwarded(signals[..j])
    {
      match signals[j]
      case Closed =>
        return;
      case Failed =>
        fatal := true;
        return;
      case Changed(path, op, isDir) =>
        assert signals[..j + 1][..j] == signals[..j];
        if !isDir {
          out := out + [WatcherEvent(path, op)];
        }
      j := j + 1;
    }
  }
}
