/**
  The event tailer of the stack wait (`print_events`): of the events the provider lists, newest
  first, it prints the ones stamped no earlier than the start of the wait window and not printed
  before, oldest first, and remembers their ids.
 */
module StackEvents {

  /** One entry of `describe_stack_events`; the timestamp is in seconds on the wait's clock. */
  datatype Event = Event(
    eventId: string, timestamp: int, resourceStatus: string, resourceType: string,
    logicalResourceId: string, resourceStatusReason: string)

  /** The `filter` of `print_events`, against the ids processed before the call. */
  function Unprocessed(start: int, processed: set<string>, all: seq<Event>): (r: seq<Event>)
    ensures |r| <= |all|
    ensures forall e :: e in r <==> e in all && e.timestamp >= start && e.eventId !in processed
  {
    if all == [] then []
    else
      var rest := Unprocessed(start, processed, all[1..]);
      if all[0].timestamp >= start && all[0].eventId !in processed then [all[0]] + rest else rest
  }

  function Reverse(s: seq<Event>): (r: seq<Event>)
    ensures |r| == |s| && forall i :: 0 <= i < |s| ==> r[i] == s[|s| - 1 - i]
  {
    if s == [] then [] else Reverse(s[1..]) + [s[0]]
  }

  /** The events one call of `print_events` prints, in printing order: an event is printed
      exactly when it is listed, stamped no earlier than `start` and not processed before. */
  function NewEvents(start: int, processed: set<string>, all: seq<Event>): (printed: seq<Event>)
    ensures |printed| <= |all|
    ensures forall e {:trigger e in printed} :: e in printed <==> e in all && e.timestamp >= start && e.eventId !in processed
  {
    var u := Unprocessed(start, processed, all);
    var r := Reverse(u);
    assert forall e :: e in r <==> e in u by {
      forall e ensures e in r <==> e in u {
        if e in r {
          var i :| 0 <= i < |r| && r[i] == e;
          assert u[|u| - 1 - i] == e;
        }
        if e in u {
          var i :| 0 <= i < |u| && u[i] == e;
          assert r[|u| - 1 - i] == e;
        }
      }
    }
    r
  }

  /** The ids of a sequence of events. */
  function Ids(events: seq<Event>): set<string>
  {
    set i | 0 <= i < |events| :: events[i].eventId
  }

  /** No id occurs twice. */
  predicate DistinctIds(events: seq<Event>)
  {
    forall i, j :: 0 <= i < j < |events| ==> events[i].eventId != events[j].eventId
  }

  /** Newest first, as the provider lists them. */
  predicate NewestFirst(events: seq<Event>)
  {
    forall i, j :: 0 <= i < j < |events| ==> events[i].timestamp >= events[j].timestamp
  }

  /** Oldest first, as they are printed. */
  predicate OldestFirst(events: seq<Event>)
  {
    forall i, j :: 0 <= i < j < |events| ==> events[i].timestamp <= events[j].timestamp
  }

  /** `print_events`: prints the new events and adds each printed id to the processed set. */
  method PrintEvents(start: int, processed: set<string>, all: seq<Event>) returns (processedAfter: set<string>, printed: seq<Event>)
    ensures printed == NewEvents(start, processed, all)
    ensures processedAfter == processed + Ids(printed)
  {
    var unprocessed := Unprocessed(start, processed, all);
    printed := [];
    processedAfter := processed;
    var k := |unprocessed|;
    while k > 0
      invariant 0 <= k <= |unprocessed|
      invariant |printed| == |unprocessed| - k
      invariant forall i :: 0 <= i < |printed| ==> printed[i] == unprocessed[|unprocessed| - 1 - i]
      invariant processedAfter == processed + Ids(printed)
    {
      k := k - 1;
      assert Ids(printed + [unprocessed[k]]) == Ids(printed) + {unprocessed[k].eventId} by {
        var p := printed + [unprocessed[k]];
        assert forall i :: 0 <= i < |printed| ==> p[i] == printed[i];
        assert p[|printed|] == unprocessed[k];
      }
      printed := printed + [unprocessed[k]];
      processedAfter := processedAfter + {unprocessed[k].eventId};
    }
  }

  /** Filtering keeps distinct ids distinct. */
  lemma {:induction false} UnprocessedKeepsDistinct(start: int, processed: set<string>, all: seq<Event>)
    requires DistinctIds(all)
    ensures DistinctIds(Unprocessed(start, processed, all))
  {
    if all != [] {
      assert DistinctIds(all[1..]);
      UnprocessedKeepsDistinct(start, processed, all[1..]);
      var rest := Unprocessed(start, processed, all[1..]);
      forall e | e in rest ensures e.eventId != all[0].eventId {
        var j :| 0 <= j < |all[1..]| && all[1..][j] == e;
        assert all[j + 1] == e;
      }
      if all[0].timestamp >= start && all[0].eventId !in processed {
        var r := [all[0]] + rest;
        forall i, j | 0 <= i < j < |r| ensures r[i].eventId != r[j].eventId {
          assert r[j] == rest[j - 1] && r[j] in rest;
        }
      }
    }
  }

  /** Filtering keeps newest-first order. */
  lemma {:induction false} UnprocessedKeepsOrder(start: int, processed: set<string>, all: seq<Event>)
    requires NewestFirst(all)
    ensures NewestFirst(Unprocessed(start, processed, all))
  {
    if all != [] {
      assert NewestFirst(all[1..]);
      UnprocessedKeepsOrder(start, processed, all[1..]);
      var rest := Unprocessed(start, processed, all[1..]);
      forall e | e in all[1..] ensures all[0].timestamp >= e.timestamp {
        var j :| 0 <= j < |all[1..]| && all[1..][j] == e;
        assert all[j + 1] == e;
      }
      if all[0].timestamp >= start && all[0].eventId !in processed {
        var r := [all[0]] + rest;
        forall i, j | 0 <= i < j < |r| ensures r[i].timestamp >= r[j].timestamp {
          assert r[j] == rest[j - 1];
          assert rest[j - 1] in all[1..];
        }
      }
    }
  }

  /** One call prints no id twice when the listing has distinct ids, and prints oldest first
      when the provider lists newest first; ties keep the reverse of the listing order. */
  lemma NewEventsShape(start: int, processed: set<string>, all: seq<Event>)
    ensures DistinctIds(all) ==> DistinctIds(NewEvents(start, processed, all))
    ensures NewestFirst(all) ==> OldestFirst(NewEvents(start, processed, all))
  {
    var u := Unprocessed(start, processed, all);
    if DistinctIds(all) {
      UnprocessedKeepsDistinct(start, processed, all);
    }
    if NewestFirst(all) {
      UnprocessedKeepsOrder(start, processed, all);
    }
  }

  /** Repeated calls on the same processed set never print an id twice: whatever the second
      listing holds, nothing printed by the first call is printed again. */
  lemma RepeatedCallsDoNotRepeat(start: int, processed: set<string>, first: seq<Event>, second: seq<Event>)
    ensures var printed := NewEvents(start, processed, first);
      forall e :: e in NewEvents(start, processed + Ids(printed), second) ==> e.eventId !in Ids(printed) && e.eventId !in processed
  {
  }

  /** Two fresh events listed newest first are printed oldest first and both ids are
      remembered; a second call on the same listing then prints nothing. */
  lemma TailExample(t0: int)
    ensures var e2 := Event("e2", t0 + 5, "", "", "", "");
      var e1 := Event("e1", t0 + 2, "", "", "", "");
      && NewEvents(t0, {}, [e2, e1]) == [e1, e2]
      && Ids([e1, e2]) == {"e1", "e2"}
      && NewEvents(t0, {"e1", "e2"}, [e2, e1]) == []
  {
    var e2 := Event("e2", t0 + 5, "", "", "", "");
    var e1 := Event("e1", t0 + 2, "", "", "", "");
    assert [e2, e1][1..] == [e1];
    assert Unprocessed(t0, {}, [e2, e1]) == [e2, e1];
    assert Unprocessed(t0, {"e1", "e2"}, [e2, e1]) == [];
    var ids := Ids([e1, e2]);
    assert [e1, e2][0].eventId == "e1" && [e1, e2][1].eventId == "e2";
    assert ids == {"e1", "e2"};
  }
}
