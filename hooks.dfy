/** The event-hook façade over the file service: handlers are registered
    per event type, and after a file operation succeeds the handlers of its
    event type run in registration order until one fails. A handler is a
    value whose outcome on an event is given; the model records which
    handlers ran. */
module Hooks {
  import opened Base
  import Files

  /** The event types (a Go string type). */
  type EventType = string

  const SaveEvent: EventType := "SAVE"
  const DeleteEvent: EventType := "DELETE"
  const ReadEvent: EventType := "READ"

  datatype Event = Event(file: Files.File, kind: EventType)

  /** A registered handler: a name to trace it by, and the error (if any)
      it returns for an event. */
  datatype Handler = Handler(id: string, run: Event -> Option<string>)

  type Registry = map<EventType, seq<Handler>>

  /** s.handlers[evt]: the list of an event type, empty when absent. */
  function HandlersOf(m: Registry, evt: EventType): seq<Handler>
  {
    if evt in m then m[evt] else []
  }

  /** The registry after On(evt, h). */
  function Register(m: Registry, evt: EventType, h: Handler): Registry
  {
    m[evt := HandlersOf(m, evt) + [h]]
  }

  /** On appends to its own event type's list and leaves every other list
      alone. */
  lemma RegisterAppends(m: Registry, evt: EventType, h: Handler, other: EventType)
    ensures HandlersOf(Register(m, evt, h), evt) == HandlersOf(m, evt) + [h]
    ensures other != evt ==> HandlersOf(Register(m, evt, h), other) == HandlersOf(m, other)
  {
  }

  function Ids(hs: seq<Handler>): (ids: seq<string>)
    ensures |ids| == |hs| && forall i :: 0 <= i < |hs| ==> ids[i] == hs[i].id
  {
    if hs == [] then [] else Ids(hs[..|hs| - 1]) + [hs[|hs| - 1].id]
  }

  /** The position of the first handler that fails on e, |hs| if none. */
  function FirstFailure(hs: seq<Handler>, e: Event): (k: nat)
    ensures k <= |hs|
    ensures forall j :: 0 <= j < k ==> hs[j].run(e).None?
    ensures k < |hs| ==> hs[k].run(e).Some?
  {
    if hs == [] then 0
    else if hs[0].run(e).Some? then 0
    else 1 + FirstFailure(hs[1..], e)
  }

  /** Which handlers a trigger runs and what it returns, stated through
      the first failure: everything up to and including it runs, and its
      error is returned; with no failure all run and the result is nil. */
  predicate Triggered(hs: seq<Handler>, e: Event, err: Option<string>, ran: seq<string>)
  {
    var k := FirstFailure(hs, e);
    if k < |hs| then ran == Ids(hs[..k + 1]) && err == hs[k].run(e)
    else ran == Ids(hs) && err == None
  }

  /** The same outcome computed handler by handler: run the first, stop on
      its error, otherwise carry on with the rest. */
  function Fire(hs: seq<Handler>, e: Event): (Option<string>, seq<string>)
  {
    if hs == [] then (None, [])
    else if hs[0].run(e).Some? then (hs[0].run(e), [hs[0].id])
    else
      var rest := Fire(hs[1..], e);
      (rest.0, [hs[0].id] + rest.1)
  }

  /** The handler-by-handler run and the first-failure statement agree. */
  lemma {:induction false} FireTriggered(hs: seq<Handler>, e: Event)
    ensures Triggered(hs, e, Fire(hs, e).0, Fire(hs, e).1)
  {
    if hs != [] && hs[0].run(e).None? {
      FireTriggered(hs[1..], e);
      var k := FirstFailure(hs[1..], e);
      if k < |hs[1..]| {
        assert hs[..k + 2] == [hs[0]] + hs[1..][..k + 1];
        IdsCons(hs[0], hs[1..][..k + 1]);
      } else {
        assert hs == [hs[0]] + hs[1..];
        IdsCons(hs[0], hs[1..]);
      }
    } else if hs != [] {
      assert hs[..1] == [hs[0]];
    }
  }

  lemma IdsCons(h: Handler, hs: seq<Handler>)
    ensures Ids([h] + hs) == [h.id] + Ids(hs)
  {
  }

  /** The file service operation a Save, Delete or Read performs, with the
      error it reports for the resolved file. */
  type Operation = Files.File -> Option<string>

  class Storage {
    const dir: string
    const md5: string -> Files.Digest
    var handlers: Registry

    constructor(dir: string, md5: string -> Files.Digest)
      ensures this.dir == dir && this.md5 == md5 && handlers == map[]
    {
      this.dir := dir;
      this.md5 := md5;
      handlers := map[];
    }

    /** Storage.On: append h to the handlers of evt. */
    method On(evt: EventType, h: Handler)
      modifies this
      ensures handlers == Register(old(handlers), evt, h)
    {
      var hs := [];
      if evt in handlers {
        hs := handlers[evt];
      }
      hs := hs + [h];
      handlers := handlers[evt := hs];
    }

    /** Storage.Resolve: the file service's resolution of a path. */
    function Resolve(path: string): (f: Files.File)
      ensures f.virtualPath == path
    {
      Files.Resolve(dir, md5, path)
    }

    /** Storage.trigger: run the handlers of e's type in order, returning
        the first error; `ran` lists the handlers invoked. */
    method Trigger(e: Event) returns (err: Option<string>, ran: seq<string>)
      ensures Triggered(HandlersOf(handlers, e.kind), e, err, ran)
    {
      var hs := HandlersOf(handlers, e.kind);
      ghost var k := FirstFailure(hs, e);
      err := None;
      ran := [];
      var i := 0;
      while i < |hs|
        invariant 0 <= i <= k
        invariant ran == Ids(hs[..i])
        invariant err == None
      {
        err := hs[i].run(e);
        ran := ran + [hs[i].id];
        assert hs[..i + 1] == hs[..i] + [hs[i]];
        if err.Some? {
          return;
        }
        i := i + 1;
      }
      assert hs[..i] == hs;
    }

    /** Storage.apply: resolve the path, run the operation, and when it
        succeeds trigger evt on the resolved file. A failed operation runs
        no handler and reports nil. */
    method Apply(path: string, op: Operation, evt: EventType) returns (err: Option<string>, ran: seq<string>)
      ensures op(Resolve(path)).Some? ==> err == None && ran == []
      ensures op(Resolve(path)).None? ==>
                Triggered(HandlersOf(handlers, evt), Event(Resolve(path), evt), err, ran)
    {
      var f := Resolve(path);
      var opErr := op(f);
      if opErr.Some? {
        return None, [];
      }
      err, ran := Trigger(Event(f, evt));
    }

    method Save(path: string, write: Operation) returns (err: Option<string>, ran: seq<string>)
      ensures write(Resolve(path)).Some? ==> err == None && ran == []
      ensures write(Resolve(path)).None? ==>
                Triggered(HandlersOf(handlers, SaveEvent), Event(Resolve(path), SaveEvent), err, ran)
    {
      err, ran := Apply(path, write, SaveEvent);
    }

    method Delete(path: string, remove: Operation) returns (err: Option<string>, ran: seq<string>)
      ensures remove(Resolve(path)).Some? ==> err == None && ran == []
      ensures remove(Resolve(path)).None? ==>
                Triggered(HandlersOf(handlers, DeleteEvent), Event(Resolve(path), DeleteEvent), err, ran)
    {
      err, ran := Apply(path, remove, DeleteEvent);
    }

    method Read(path: string, read: Operation) returns (err: Option<string>, ran: seq<string>)
      ensures read(Resolve(path)).Some? ==> err == None && ran == []
      ensures read(Resolve(path)).None? ==>
                Triggered(HandlersOf(handlers, ReadEvent), Event(Resolve(path), ReadEvent), err, ran)
    {
      err, ran := Apply(path, read, ReadEvent);
    }
  }

  /** The save wiring of the server: a clean handler registered before an
      insert handler. When the clean fails the insert never runs and the
      clean's error is returned; when it succeeds both run and the insert's
      outcome is returned. */
  lemma CleanBeforeInsert(clean: Handler, insert: Handler, e: Event)
    requires e.kind == SaveEvent
    ensures var hs := HandlersOf(Register(Register(map[], SaveEvent, clean), SaveEvent, insert), SaveEvent);
            hs == [clean, insert] &&
            (clean.run(e).Some? ==> Triggered(hs, e, clean.run(e), [clean.id])) &&
            (clean.run(e).None? ==> Triggered(hs, e, insert.run(e), [clean.id, insert.id]))
  {
    var hs := [clean, insert];
    RegisteredTwice(clean, insert);
    if clean.run(e).Some? {
      assert FirstFailure(hs, e) == 0;
      assert hs[..1] == [clean];
      assert Ids([clean]) == [clean.id];
    } else {
      assert hs[1..] == [insert];
      assert FirstFailure(hs, e) == 1 + FirstFailure([insert], e);
      assert Ids(hs) == [clean.id, insert.id] by {
        assert hs[..1] == [clean];
      }
      if insert.run(e).Some? {
        assert FirstFailure(hs, e) == 1;
        assert hs[..2] == hs;
      } else {
        assert FirstFailure([insert], e) == 1 + FirstFailure([], e);
        assert FirstFailure(hs, e) == 2;
      }
    }
  }

  lemma RegisteredTwice(first: Handler, second: Handler)
    ensures HandlersOf(Register(Register(map[], SaveEvent, first), SaveEvent, second), SaveEvent) == [first, second]
  {
    var m1 := Register(map[], SaveEvent, first);
    assert HandlersOf(m1, SaveEvent) == [first];
    assert HandlersOf(Register(m1, SaveEvent, second), SaveEvent) == [first] + [second];
  }
}
