/** The log recorders of loader_logger.cpp: default ones, with id zero, and one per debug messenger. */
module LoaderLogging {

  /** A recorder's UniqueId is its messenger's handle, or zero. */
  datatype Recorder = Recorder(uniqueId: nat, sink: string)

  type Instance = nat

  function Kept(recorders: seq<Recorder>, removed: set<nat>): seq<Recorder> {
    if recorders == [] then []
    else (if recorders[0].uniqueId in removed then [] else [recorders[0]]) + Kept(recorders[1..], removed)
  }

  function Defaults(recorders: seq<Recorder>): seq<Recorder> {
    if recorders == [] then []
    else (if recorders[0].uniqueId == 0 then [recorders[0]] else []) + Defaults(recorders[1..])
  }

  /** The ids of the recorders that belong to a messenger. */
  ghost function MessengerIds(recorders: seq<Recorder>): set<nat> {
    set r | r in recorders && r.uniqueId != 0 :: r.uniqueId
  }

  lemma {:induction false} KeptMembers(recorders: seq<Recorder>, removed: set<nat>, r: Recorder)
    ensures r in Kept(recorders, removed) <==> r in recorders && r.uniqueId !in removed
  {
    if recorders != [] {
      KeptMembers(recorders[1..], removed, r);
      assert recorders == [recorders[0]] + recorders[1..];
    }
  }

  lemma KeptIds(recorders: seq<Recorder>, removed: set<nat>)
    ensures MessengerIds(Kept(recorders, removed)) == MessengerIds(recorders) - removed
  {
    forall id
      ensures id in MessengerIds(Kept(recorders, removed)) <==> id in MessengerIds(recorders) && id !in removed
    {
      if id in MessengerIds(recorders) && id !in removed {
        var r :| r in recorders && r.uniqueId == id;
        KeptMembers(recorders, removed, r);
      }
      if id in MessengerIds(Kept(recorders, removed)) {
        var r :| r in Kept(recorders, removed) && r.uniqueId == id;
        KeptMembers(recorders, removed, r);
      }
    }
  }

  /** Default recorders stay, in order. */
  lemma {:induction false} KeptDefaults(recorders: seq<Recorder>, removed: set<nat>)
    requires 0 !in removed
    ensures Defaults(Kept(recorders, removed)) == Defaults(recorders)
  {
    hide Kept, Defaults;
    if recorders == [] {
      NothingKept(removed);
    } else {
      var r, rest := recorders[0], recorders[1..];
      assert recorders == [r] + rest;
      KeptDefaults(rest, removed);
      Cons(r, rest, removed);
      Cons(r, Kept(rest, removed), removed);
      assert [] + Kept(rest, removed) == Kept(rest, removed) && [] + Defaults(rest) == Defaults(rest);
    }
  }

  lemma NothingKept(removed: set<nat>)
    ensures Kept([], removed) == [] && Defaults([]) == []
  {}

  lemma Cons(r: Recorder, rest: seq<Recorder>, removed: set<nat>)
    ensures Kept([r] + rest, removed) == (if r.uniqueId in removed then [] else [r]) + Kept(rest, removed)
    ensures Defaults([r] + rest) == (if r.uniqueId == 0 then [r] else []) + Defaults(rest)
  {
    assert ([r] + rest)[1..] == rest;
  }

  lemma {:induction false} KeptAppended(recorders: seq<Recorder>, r: Recorder, removed: set<nat>)
    ensures Kept(recorders + [r], removed) == Kept(recorders, removed) + if r.uniqueId in removed then [] else [r]
    ensures Defaults(recorders + [r]) == Defaults(recorders) + if r.uniqueId == 0 then [r] else []
  {
    hide Kept, Defaults;
    NothingKept(removed);
    if recorders == [] {
      Cons(r, [], removed);
      assert [] + [r] == [r] + [];
    } else {
      var first, rest := recorders[0], recorders[1..];
      KeptAppended(rest, r, removed);
      assert recorders == [first] + rest && recorders + [r] == [first] + (rest + [r]);
      Cons(first, rest, removed);
      Cons(first, rest + [r], removed);
    }
  }

  lemma IdsAppended(recorders: seq<Recorder>, r: Recorder)
    ensures MessengerIds(recorders + [r]) == MessengerIds(recorders) + if r.uniqueId == 0 then {} else {r.uniqueId}
  {
    var all := recorders + [r];
    assert forall x :: x in all <==> x in recorders || x == r;
    forall id
      ensures id in MessengerIds(all) <==> id in MessengerIds(recorders) || (id != 0 && id == r.uniqueId)
    {
      if id != 0 && id == r.uniqueId { assert r in all; }
      if id in MessengerIds(recorders) {
        var x :| x in recorders && x.uniqueId == id;
        assert x in all;
      }
    }
  }

  /** The ids recorded for an instance. */
  function IdsOf(byInstance: map<Instance, set<nat>>, instance: Instance): set<nat> {
    if instance in byInstance then byInstance[instance] else {}
  }

  class LoaderLogger {
    var recorders: seq<Recorder>
    var recordersByInstance: map<Instance, set<nat>>

    constructor (defaults: seq<Recorder>)
      requires forall r | r in defaults :: r.uniqueId == 0
      ensures recorders == defaults && recordersByInstance == map[]
    {
      recorders, recordersByInstance := [], map[];
      new;
      for i := 0 to |defaults|
        invariant recorders == defaults[..i] && recordersByInstance == map[]
      {
        AddLogRecorder(defaults[i]);
      }
    }

    method AddLogRecorder(recorder: Recorder)
      modifies this`recorders
      ensures recorders == old(recorders) + [recorder]
    {
      recorders := recorders + [recorder];
    }

    method AddLogRecorderForXrInstance(instance: Instance, recorder: Recorder)
      modifies this
      ensures recorders == old(recorders) + [recorder]
      ensures recordersByInstance ==
        old(recordersByInstance)[instance := IdsOf(old(recordersByInstance), instance) + {recorder.uniqueId}]
    {
      var ids := if instance in recordersByInstance then recordersByInstance[instance] else {};
      recordersByInstance := recordersByInstance[instance := ids + {recorder.uniqueId}];
      recorders := recorders + [recorder];
    }

    /** vector_remove_if_and_erase on the recorders. */
    method Erase(removed: set<nat>)
      modifies this`recorders
      ensures recorders == Kept(old(recorders), removed)
    {
      var kept: seq<Recorder> := [];
      for i := 0 to |recorders|
        invariant recorders == old(recorders) && kept == Kept(recorders[..i], removed)
      {
        KeptAppended(recorders[..i], recorders[i], removed);
        assert recorders[..i + 1] == recorders[..i] + [recorders[i]];
        if recorders[i].uniqueId !in removed {
          kept := kept + [recorders[i]];
        }
      }
      assert recorders[..|recorders|] == recorders;
      recorders := kept;
    }

    method RemoveLogRecorder(uniqueId: nat)
      modifies this
      ensures recorders == Kept(old(recorders), {uniqueId})
      ensures recordersByInstance == map h | h in old(recordersByInstance) :: old(recordersByInstance)[h] - {uniqueId}
    {
      Erase({uniqueId});
      var left := recordersByInstance.Keys;
      while left != {}
        invariant left <= recordersByInstance.Keys == old(recordersByInstance).Keys
        invariant recorders == Kept(old(recorders), {uniqueId})
        invariant forall h | h in recordersByInstance ::
          recordersByInstance[h] ==
            if h in left then old(recordersByInstance)[h] else old(recordersByInstance)[h] - {uniqueId}
        decreases |left|
      {
        var h :| h in left;
        if uniqueId in recordersByInstance[h] {
          recordersByInstance := recordersByInstance[h := recordersByInstance[h] - {uniqueId}];
        }
        left := left - {h};
      }
    }

    method RemoveLogRecordersForXrInstance(instance: Instance)
      modifies this
      ensures recorders == Kept(old(recorders), IdsOf(old(recordersByInstance), instance))
      ensures recordersByInstance == old(recordersByInstance) - {instance}
    {
      if instance in recordersByInstance {
        Erase(recordersByInstance[instance]);
        recordersByInstance := recordersByInstance - {instance};
      } else {
        KeepAll(recorders);
      }
    }

    static lemma {:induction false} KeepAll(recorders: seq<Recorder>)
      ensures Kept(recorders, {}) == recorders
    {
      if recorders != [] {
        KeepAll(recorders[1..]);
      }
    }
  }
}
