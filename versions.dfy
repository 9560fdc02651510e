/** The page's version list: saving a snapshot of the shared document appends
    it once the server has accepted it, and loading the server's list replaces
    the local one. The server, the clock and the snapshot encoder are inputs. */
module Versions {
  import opened Wrappers

  newtype Byte = x: int | 0 <= x < 256

  /** One saved version: when it was taken, the encoded snapshot, and the id of
      the client that took it (entries loaded from the server carry whatever the
      server returns, which need not carry one). */
  datatype Version = Version(time: int, snapshot: seq<Byte>, clientId: Option<nat>)

  /** The body posted to the server's save endpoint: snapshot and time, no client id. */
  datatype SaveRequest = SaveRequest(snapshot: seq<Byte>, time: int)

  /** What happens to the list: a save whose post succeeded or failed, or a load
      of the server's list that answered (`Some`) or failed (`None`). */
  datatype Event =
    | Created(time: int, snapshot: seq<Byte>, clientId: nat, saved: bool)
    | Fetched(response: Option<seq<Version>>)

  /** The list after one event: `createVersion` appends only after the post
      returns, and `fetchSnapshots` overwrites the list with the server's answer. */
  function Step(versions: seq<Version>, e: Event): (r: seq<Version>)
    ensures e.Created? && e.saved ==>
      |r| == |versions| + 1 && r[..|versions|] == versions
      && r[|versions|] == Version(e.time, e.snapshot, Some(e.clientId))
    ensures e.Created? && !e.saved ==> r == versions
    ensures e.Fetched? ==> r == (if e.response.Some? then e.response.value else versions)
  {
    match e
    case Created(time, snapshot, clientId, saved) =>
      if saved then versions + [Version(time, snapshot, Some(clientId))] else versions
    case Fetched(response) =>
      if response.Some? then response.value else versions
  }

  /** The list after a run of events, in order. */
  function Run(versions: seq<Version>, events: seq<Event>): seq<Version>
    decreases |events|
  {
    if events == [] then versions else Run(Step(versions, events[0]), events[1..])
  }

  /** A successful load among the events. */
  predicate Loads(events: seq<Event>)
  {
    exists i :: 0 <= i < |events| && events[i].Fetched? && events[i].response.Some?
  }

  /** The version a single event appends: one for a successful save, none otherwise. */
  function Saved(e: Event): seq<Version>
  {
    if e.Created? && e.saved then [Version(e.time, e.snapshot, Some(e.clientId))] else []
  }

  /** The versions that successful saves among the events append, in order. */
  function SavedVersions(events: seq<Event>): seq<Version>
    decreases |events|
  {
    if events == [] then [] else Saved(events[0]) + SavedVersions(events[1..])
  }

  /** Any event other than a successful load appends what it saved, if anything. */
  lemma StepAppendsSaved(versions: seq<Version>, e: Event)
    requires !(e.Fetched? && e.response.Some?)
    ensures Step(versions, e) == versions + Saved(e)
  {
    if !(e.Created? && e.saved) {
      assert versions + [] == versions;
    }
  }

  /** A run without a successful load has none in its tail, and its first event is not one. */
  lemma NoLoadsTail(events: seq<Event>)
    requires events != [] && !Loads(events)
    ensures !Loads(events[1..])
    ensures !(events[0].Fetched? && events[0].response.Some?)
  {
    forall i | 0 <= i < |events[1..]|
      ensures !(events[1..][i].Fetched? && events[1..][i].response.Some?)
    {
      assert events[1..][i] == events[i + 1];
    }
  }

  lemma {:induction false} RunAppend(versions: seq<Version>, a: seq<Event>, b: seq<Event>)
    ensures Run(versions, a + b) == Run(Run(versions, a), b)
    decreases |a|
  {
    if a == [] {
      assert a + b == b;
    } else {
      assert (a + b)[0] == a[0];
      assert (a + b)[1..] == a[1..] + b;
      RunAppend(Step(versions, a[0]), a[1..], b);
    }
  }

  /** Without a successful load, the list only grows: it is the old list followed
      by the versions of the saves that succeeded, in the order they were made;
      failed saves and failed loads leave no trace. */
  lemma {:induction false} OnlySavesAppend(versions: seq<Version>, events: seq<Event>)
    requires !Loads(events)
    ensures Run(versions, events) == versions + SavedVersions(events)
    decreases |events|
  {
    if events == [] {
      assert versions + [] == versions;
    } else {
      var e, rest := events[0], events[1..];
      NoLoadsTail(events);
      var step := Step(versions, e);
      StepAppendsSaved(versions, e);
      OnlySavesAppend(step, rest);
      assert Run(versions, events) == Run(step, rest);
      assert SavedVersions(events) == Saved(e) + SavedVersions(rest);
      assert versions + Saved(e) + SavedVersions(rest) == versions + (Saved(e) + SavedVersions(rest));
    }
  }

  /** A successful load discards everything before it: the list afterwards
      depends only on the server's answer and the events that follow. */
  lemma LoadReplaces(versions: seq<Version>, before: seq<Event>, data: seq<Version>, after: seq<Event>)
    ensures Run(versions, before + [Fetched(Some(data))] + after) == Run(data, after)
  {
    RunAppend(versions, before + [Fetched(Some(data))], after);
    RunAppend(versions, before, [Fetched(Some(data))]);
  }

  /** The page's version list, initially empty. */
  class VersionList {
    var versions: seq<Version>

    constructor()
      ensures versions == []
    {
      versions := [];
    }

    /** `createVersion`: returns the body it posts; `saved` is whether the post
        succeeded, and only then is the new version appended. */
    method CreateVersion(time: int, snapshot: seq<Byte>, clientId: nat, saved: bool) returns (request: SaveRequest)
      modifies this
      ensures request == SaveRequest(snapshot, time)
      ensures versions == Step(old(versions), Created(time, snapshot, clientId, saved))
    {
      request := SaveRequest(snapshot, time);
      if !saved {
        return;
      }
      versions := versions + [Version(time, snapshot, Some(clientId))];
    }

    /** `fetchSnapshots`: `response` is the server's list, or `None` when the request failed. */
    method FetchSnapshots(response: Option<seq<Version>>)
      modifies this
      ensures versions == Step(old(versions), Fetched(response))
    {
      if response.Some? {
        versions := response.value;
      }
    }
  }
}
