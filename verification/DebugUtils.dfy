/** The debug-utils bookkeeping of object_info.cpp: object names, session labels, callback data. */
module DebugUtils {
  import opened Wrappers

  const OBJECT_TYPE_SESSION: int := 2

  datatype Key = Key(handle: int, objectType: int)

  datatype ObjectInfo = ObjectInfo(key: Key, name: string)

  datatype Label = Label(labelName: string)

  // ---------- Object names: a vector that behaves as a map ----------

  /** The map a vector of infos stands for: a search from the front finds the first match. */
  ghost function NamesOf(infos: seq<ObjectInfo>): map<Key, string> {
    if infos == [] then map[] else NamesOf(infos[1..])[infos[0].key := infos[0].name]
  }

  ghost predicate DistinctKeys(infos: seq<ObjectInfo>) {
    forall i, j | 0 <= i < j < |infos| :: infos[i].key != infos[j].key
  }

  function Without(infos: seq<ObjectInfo>, key: Key): seq<ObjectInfo> {
    if infos == [] then []
    else (if infos[0].key == key then [] else [infos[0]]) + Without(infos[1..], key)
  }

  lemma {:induction false} NamesKeys(infos: seq<ObjectInfo>, key: Key)
    ensures key in NamesOf(infos) <==> exists i | 0 <= i < |infos| :: infos[i].key == key
  {
    if infos != [] {
      NamesKeys(infos[1..], key);
      if i :| 0 <= i < |infos| && infos[i].key == key {
        if i > 0 {
          assert infos[1..][i - 1].key == key;
        }
      }
    }
  }

  /** The first match is the one that counts. */
  lemma {:induction false} NamesFirst(infos: seq<ObjectInfo>, i: nat)
    requires i < |infos| && forall j | 0 <= j < i :: infos[j].key != infos[i].key
    ensures infos[i].key in NamesOf(infos) && NamesOf(infos)[infos[i].key] == infos[i].name
  {
    if i > 0 {
      NamesFirst(infos[1..], i - 1);
    }
  }

  lemma {:induction false} NamesRenamed(infos: seq<ObjectInfo>, i: nat, name: string)
    requires i < |infos| && DistinctKeys(infos)
    ensures var renamed := infos[i := infos[i].(name := name)];
      DistinctKeys(renamed) && NamesOf(renamed) == NamesOf(infos)[infos[i].key := name]
  {
    if i > 0 {
      NamesRenamed(infos[1..], i - 1, name);
      assert infos[i := infos[i].(name := name)][1..] == infos[1..][i - 1 := infos[i].(name := name)];
    }
  }

  lemma {:induction false} NamesAppended(infos: seq<ObjectInfo>, info: ObjectInfo)
    requires info.key !in NamesOf(infos)
    ensures NamesOf(infos + [info]) == NamesOf(infos)[info.key := info.name]
  {
    if infos != [] {
      NamesAppended(infos[1..], info);
      assert (infos + [info])[1..] == infos[1..] + [info];
    } else {
      assert ([info])[1..] == [];
    }
  }

  lemma {:induction false} WithoutMembers(infos: seq<ObjectInfo>, key: Key, info: ObjectInfo)
    ensures info in Without(infos, key) <==> info in infos && info.key != key
  {
    if infos != [] {
      WithoutMembers(infos[1..], key, info);
      assert info in infos <==> info == infos[0] || info in infos[1..];
    }
  }

  lemma {:induction false} NamesWithout(infos: seq<ObjectInfo>, key: Key)
    ensures NamesOf(Without(infos, key)) == NamesOf(infos) - {key}
  {
    if infos != [] {
      NamesWithout(infos[1..], key);
      var rest := Without(infos[1..], key);
      if infos[0].key != key {
        assert Without(infos, key) == [infos[0]] + rest;
        assert ([infos[0]] + rest)[1..] == rest;
      } else {
        assert Without(infos, key) == rest;
      }
    }
  }

  lemma {:induction false} WithoutDistinct(infos: seq<ObjectInfo>, key: Key)
    requires DistinctKeys(infos)
    ensures DistinctKeys(Without(infos, key))
  {
    if infos != [] {
      WithoutDistinct(infos[1..], key);
      var rest := Without(infos[1..], key);
      forall j | 0 <= j < |rest|
        ensures infos[0].key != rest[j].key
      {
        WithoutMembers(infos[1..], key, rest[j]);
      }
    }
  }

  lemma {:induction false} WithoutAppended(infos: seq<ObjectInfo>, info: ObjectInfo, key: Key)
    ensures Without(infos + [info], key) == Without(infos, key) + if info.key == key then [] else [info]
  {
    hide Without;
    WithoutNone(key);
    if infos == [] {
      WithoutCons(info, [], key);
      assert infos + [info] == [info] + [];
    } else {
      var first, rest := infos[0], infos[1..];
      assert infos == [first] + rest && infos + [info] == [first] + (rest + [info]);
      WithoutAppended(rest, info, key);
      WithoutCons(first, rest, key);
      WithoutCons(first, rest + [info], key);
    }
  }

  lemma WithoutNone(key: Key)
    ensures Without([], key) == []
  {}

  lemma WithoutCons(first: ObjectInfo, rest: seq<ObjectInfo>, key: Key)
    ensures Without([first] + rest, key) == (if first.key == key then [] else [first]) + Without(rest, key)
  {
    assert ([first] + rest)[1..] == rest;
  }

  class ObjectInfoCollection {
    var infos: seq<ObjectInfo>

    ghost predicate Valid()
      reads this
    {
      DistinctKeys(infos) && forall info | info in infos :: info.name != ""
    }

    ghost function Names(): map<Key, string>
      reads this
    {
      NamesOf(infos)
    }

    constructor ()
      ensures Valid() && Names() == map[]
    {
      infos := [];
    }

    predicate Empty()
      reads this
      ensures Empty() <==> Names() == map[]
    {
      assert infos != [] ==> infos[0].key in NamesOf(infos);
      infos == []
    }

    /** LookUpStoredObjectInfo: an index for the pointer, -1 for nullptr. */
    method LookUpStoredObjectInfo(key: Key) returns (at: int)
      ensures at == -1 <==> key !in Names()
      ensures at != -1 ==> 0 <= at < |infos| && infos[at].key == key && Names()[key] == infos[at].name
    {
      var it := 0;
      while it < |infos|
        invariant 0 <= it <= |infos|
        invariant forall i | 0 <= i < it :: infos[i].key != key
      {
        if infos[it].key == key {
          NamesFirst(infos, it);
          return it;
        }
        it := it + 1;
      }
      NamesKeys(infos, key);
      return -1;
    }

    /** RemoveObject, through vector_remove_if_and_erase. */
    method RemoveObject(key: Key)
      requires Valid()
      modifies this
      ensures Valid() && Names() == old(Names()) - {key}
    {
      var kept: seq<ObjectInfo> := [];
      var i := 0;
      while i < |infos|
        invariant 0 <= i <= |infos| && infos == old(infos)
        invariant kept == Without(infos[..i], key)
      {
        WithoutAppended(infos[..i], infos[i], key);
        assert infos[..i + 1] == infos[..i] + [infos[i]];
        if infos[i].key != key {
          kept := kept + [infos[i]];
        }
        i := i + 1;
      }
      assert infos[..i] == infos;
      NamesWithout(infos, key);
      WithoutDistinct(infos, key);
      forall info | info in kept
        ensures info in infos
      {
        WithoutMembers(infos, key, info);
      }
      infos := kept;
    }

    /** An empty name removes the object; any other name adds or renames it. */
    method AddObjectName(key: Key, name: string)
      requires Valid()
      modifies this
      ensures Valid()
      ensures Names() == if name == "" then old(Names()) - {key} else old(Names())[key := name]
    {
      if name == "" {
        RemoveObject(key);
        return;
      }
      var at := LookUpStoredObjectInfo(key);
      if at != -1 {
        NamesRenamed(infos, at, name);
        infos := infos[at := infos[at].(name := name)];
        return;
      }
      NamesKeys(infos, key);
      NamesAppended(infos, ObjectInfo(key, name));
      infos := infos + [ObjectInfo(key, name)];
    }

    /** LookUpObjectName: the info with its stored name, if there is one. */
    method LookUpObjectName(info: ObjectInfo) returns (found: bool, named: ObjectInfo)
      ensures found <==> info.key in Names()
      ensures named.key == info.key && named.name == if info.key in Names() then Names()[info.key] else info.name
    {
      var at := LookUpStoredObjectInfo(info.key);
      if at != -1 {
        return true, info.(name := infos[at].name);
      }
      return false, info;
    }
  }

  ghost function Named(names: map<Key, string>, info: ObjectInfo): ObjectInfo {
    if info.key in names then info.(name := names[info.key]) else info
  }

  // ---------- Session labels: a region stack with a transient individual label on top ----------

  datatype SessionLabel = SessionLabel(debugUtilsLabel: Label, isIndividual: bool)

  /** Only the last entry can be an individual labelInfo. */
  predicate WellFormed(list: seq<SessionLabel>) {
    forall i | 0 <= i < |list| - 1 :: !list[i].isIndividual
  }

  function LabelsOf(list: seq<SessionLabel>): seq<Label> {
    seq(|list|, i requires 0 <= i < |list| => list[i].debugUtilsLabel)
  }

  datatype LabelState = LabelState(regions: seq<Label>, individual: Option<Label>) {
    function Step(op: LabelOp): LabelState {
      match op
      case BeginRegion(labelInfo) => LabelState(regions + [labelInfo], None)
      case EndRegion => LabelState(if regions == [] then [] else regions[..|regions| - 1], None)
      case Insert(labelInfo) => LabelState(regions, Some(labelInfo))
      case Delete => NO_LABELS
    }

    /** What a callback sees: the individual label, then the regions from the innermost out. */
    function Exported(): seq<Label> {
      (if individual.Some? then [individual.value] else []) + Reverse(regions)
    }
  }

  datatype LabelOp = BeginRegion(labelInfo: Label) | EndRegion | Insert(labelInfo: Label) | Delete

  const NO_LABELS := LabelState([], None)

  function StateOf(list: seq<SessionLabel>): LabelState {
    if list != [] && list[|list| - 1].isIndividual then
      LabelState(LabelsOf(list[..|list| - 1]), Some(list[|list| - 1].debugUtilsLabel))
    else
      LabelState(LabelsOf(list), None)
  }

  function Reverse<T>(s: seq<T>): (r: seq<T>)
    ensures |r| == |s| && forall i | 0 <= i < |s| :: r[i] == s[|s| - 1 - i]
  {
    if s == [] then [] else [s[|s| - 1]] + Reverse(s[..|s| - 1])
  }

  function Run(state: LabelState, ops: seq<LabelOp>): LabelState
    decreases |ops|
  {
    if ops == [] then state else Run(state.Step(ops[0]), ops[1..])
  }

  /** Begins less ends, or -1 once an end has no begin of this run to match or the labels are deleted. */
  function Nesting(depth: nat, ops: seq<LabelOp>): int
    decreases |ops|
  {
    if ops == [] then depth
    else match ops[0]
      case BeginRegion(_) => Nesting(depth + 1, ops[1..])
      case EndRegion => if depth == 0 then -1 else Nesting(depth - 1, ops[1..])
      case Insert(_) => Nesting(depth, ops[1..])
      case Delete => -1
  }

  predicate Balanced(ops: seq<LabelOp>) { Nesting(0, ops) == 0 }

  /** A run that never ends a region it did not begin leaves the regions below alone. */
  lemma {:induction false} RunKeepsBase(base: seq<Label>, top: seq<Label>, individual: Option<Label>, ops: seq<LabelOp>)
    requires Nesting(|top|, ops) >= 0
    ensures var after := Run(LabelState(base + top, individual), ops).regions;
      base <= after && |after| == |base| + Nesting(|top|, ops)
    decreases |ops|
  {
    if ops != [] {
      match ops[0]
      case BeginRegion(labelInfo) =>
        assert base + top + [labelInfo] == base + (top + [labelInfo]);
        RunKeepsBase(base, top + [labelInfo], None, ops[1..]);
      case EndRegion =>
        assert (base + top)[..|base + top| - 1] == base + top[..|top| - 1];
        RunKeepsBase(base, top[..|top| - 1], None, ops[1..]);
      case Insert(labelInfo) =>
        RunKeepsBase(base, top, Some(labelInfo), ops[1..]);
    }
  }

  /** Any balanced run of begins, inserts and ends restores the region stack. */
  lemma BalancedRestores(state: LabelState, ops: seq<LabelOp>)
    requires Balanced(ops)
    ensures Run(state, ops).regions == state.regions
  {
    assert state.regions + [] == state.regions;
    RunKeepsBase(state.regions, [], state.individual, ops);
  }

  /** An individual label lives exactly until the next operation. */
  lemma {:induction false} IndividualIsLast(state: LabelState, ops: seq<LabelOp>)
    requires ops != []
    ensures var last := ops[|ops| - 1];
      Run(state, ops).individual == if last.Insert? then Some(last.labelInfo) else None
    decreases |ops|
  {
    if |ops| > 1 {
      IndividualIsLast(state.Step(ops[0]), ops[1..]);
    } else {
      assert ops[1..] == [];
    }
  }

  /** The ends that no earlier begin of the run matches. */
  function UnmatchedEnds(ops: seq<LabelOp>): nat {
    if ops == [] then 0
    else
      var rest := UnmatchedEnds(ops[1..]);
      match ops[0]
      case BeginRegion(_) => if rest == 0 then 0 else rest - 1
      case EndRegion => rest + 1
      case _ => rest
  }

  /** The labels of the begins that no later end of the run matches, in order. */
  function OpenLabels(ops: seq<LabelOp>): seq<Label> {
    if ops == [] then []
    else if ops[0].BeginRegion? && UnmatchedEnds(ops[1..]) == 0 then [ops[0].labelInfo] + OpenLabels(ops[1..])
    else OpenLabels(ops[1..])
  }

  /** The regions that `ended` ends leave, and `open` above them. */
  function Leaves(regions: seq<Label>, ended: nat, open: seq<Label>): seq<Label> {
    regions[..if ended <= |regions| then |regions| - ended else 0] + open
  }

  lemma LeavesBegun(regions: seq<Label>, l: Label, ended: nat, open: seq<Label>)
    ensures Leaves(regions + [l], ended, open) ==
            if ended == 0 then Leaves(regions, 0, [l] + open) else Leaves(regions, ended - 1, open)
  {}

  lemma LeavesEnded(regions: seq<Label>, ended: nat, open: seq<Label>)
    ensures Leaves(if regions == [] then [] else regions[..|regions| - 1], ended, open) ==
            Leaves(regions, ended + 1, open)
  {
    if ended < |regions| {
      var n := |regions| - 1;
      assert regions[..n][..n - ended] == regions[..n - ended];
    }
  }

  lemma {:induction false} RunLeavesOpen(state: LabelState, ops: seq<LabelOp>)
    requires forall i | 0 <= i < |ops| :: !ops[i].Delete?
    ensures Run(state, ops).regions == Leaves(state.regions, UnmatchedEnds(ops), OpenLabels(ops))
    decreases |ops|
  {
    LeavesNothing();
    if ops == [] {
      assert state.regions[..|state.regions|] + [] == state.regions;
    } else {
      var rest := ops[1..];
      hide OpenLabels, UnmatchedEnds, Leaves;
      LeavesFirst(ops);
      RunLeavesOpen(state.Step(ops[0]), rest);
      match ops[0]
      case BeginRegion(l) => LeavesBegun(state.regions, l, UnmatchedEnds(rest), OpenLabels(rest));
      case EndRegion => LeavesEnded(state.regions, UnmatchedEnds(rest), OpenLabels(rest));
      case Insert(_) =>
    }
  }

  /** The regions after any run: those below that its unmatched ends leave, and the labels it leaves open. */
  lemma RunLeaves(state: LabelState, ops: seq<LabelOp>)
    requires forall i | 0 <= i < |ops| :: !ops[i].Delete?
    ensures var n := |state.regions|;
      var kept := if UnmatchedEnds(ops) <= n then n - UnmatchedEnds(ops) else 0;
      Run(state, ops).regions == state.regions[..kept] + OpenLabels(ops)
  {
    hide Run, UnmatchedEnds, OpenLabels;
    RunLeavesOpen(state, ops);
  }

  lemma LeavesNothing()
    ensures UnmatchedEnds([]) == 0 && OpenLabels([]) == []
  {}

  lemma LeavesFirst(ops: seq<LabelOp>)
    requires ops != []
    ensures var op, ended, open := ops[0], UnmatchedEnds(ops[1..]), OpenLabels(ops[1..]);
      && UnmatchedEnds(ops) == (match op
                                case BeginRegion(_) => if ended == 0 then 0 else ended - 1
                                case EndRegion => ended + 1
                                case _ => ended)
      && OpenLabels(ops) == if op.BeginRegion? && ended == 0 then [op.labelInfo] + open else open
  {}

  lemma {:induction false} RunConcat(state: LabelState, a: seq<LabelOp>, b: seq<LabelOp>)
    ensures Run(state, a + b) == Run(Run(state, a), b)
    decreases |a|
  {
    if a == [] {
      assert a + b == b;
    } else {
      assert (a + b)[1..] == a[1..] + b;
      RunConcat(state.Step(a[0]), a[1..], b);
    }
  }

  /** Deleting a session's labels makes it start over: nothing before counts any more. */
  lemma DeleteForgets(state: LabelState, before: seq<LabelOp>, after: seq<LabelOp>)
    ensures Run(state, before + [Delete] + after) == Run(NO_LABELS, after)
    ensures Balanced(after) ==> Run(state, before + [Delete] + after).regions == []
  {
    RunConcat(state, before + [Delete], after);
    RunConcat(state, before, [Delete]);
    assert [Delete][1..] == [];
    if Balanced(after) {
      BalancedRestores(NO_LABELS, after);
    }
  }

  // ---------- Many sessions at once ----------

  function StateIn(sessions: map<int, LabelState>, session: int): LabelState {
    if session in sessions then sessions[session] else NO_LABELS
  }

  datatype SessionOp = SessionOp(session: int, op: LabelOp)

  /** One operation of the class: ending a region of an unknown session does not make the session known. */
  function Apply(sessions: map<int, LabelState>, o: SessionOp): map<int, LabelState> {
    if o.op.EndRegion? && o.session !in sessions then sessions
    else if o.op.Delete? then sessions - {o.session}
    else sessions[o.session := StateIn(sessions, o.session).Step(o.op)]
  }

  /** What a look-up finds after one operation on a session: a label that is begun or inserted in front of the regions
      from the innermost out, and after an end those without the innermost. */
  lemma LookUpAfter(sessions: map<int, LabelState>, session: int, l: Label)
    ensures var regions := StateIn(sessions, session).regions;
      var n := |regions|;
      && StateIn(Apply(sessions, SessionOp(session, BeginRegion(l))), session).Exported() == [l] + Reverse(regions)
      && StateIn(Apply(sessions, SessionOp(session, Insert(l))), session).Exported() == [l] + Reverse(regions)
      && StateIn(Apply(sessions, SessionOp(session, EndRegion)), session).Exported() ==
           (if n == 0 then [] else Reverse(regions[..n - 1]))
      && StateIn(Apply(sessions, SessionOp(session, Delete)), session).Exported() == []
  {
    AppliedTo(sessions, session, BeginRegion(l));
    AppliedTo(sessions, session, Insert(l));
    AppliedTo(sessions, session, EndRegion);
    AppliedTo(sessions, session, Delete);
    ExportedAfter(StateIn(sessions, session), l);
    hide LabelState.Step, LabelState.Exported, StateIn, Apply, Reverse;
  }

  lemma AppliedTo(sessions: map<int, LabelState>, session: int, op: LabelOp)
    ensures StateIn(Apply(sessions, SessionOp(session, op)), session) == StateIn(sessions, session).Step(op)
  {}

  lemma ExportedAfter(state: LabelState, l: Label)
    ensures state.Step(BeginRegion(l)).Exported() == [l] + Reverse(state.regions)
    ensures state.Step(Insert(l)).Exported() == [l] + Reverse(state.regions)
    ensures state.Step(EndRegion).Exported() ==
            if state.regions == [] then [] else Reverse(state.regions[..|state.regions| - 1])
    ensures state.Step(Delete).Exported() == []
  {
    hide Reverse;
    Reversed(state.regions, l);
    EmptyFront(Reverse(state.regions + [l]));
    EmptyFront(Reverse(state.regions));
    if state.regions != [] {
      EmptyFront(Reverse(state.regions[..|state.regions| - 1]));
    }
  }

  lemma EmptyFront(labels: seq<Label>)
    ensures [] + labels == labels
  {}

  lemma Reversed(regions: seq<Label>, l: Label)
    ensures Reverse(regions + [l]) == [l] + Reverse(regions)
    ensures Reverse<Label>([]) == []
  {
    assert (regions + [l])[..|regions|] == regions;
  }

  /** What is exported, label by label. */
  lemma ExportedAt(state: LabelState, i: nat)
    requires i < |state.regions|
    ensures var e := state.Exported();
      var r := state.regions[|state.regions| - 1 - i];
      if state.individual.Some? then |e| == |state.regions| + 1 && e[0] == state.individual.value && e[i + 1] == r
      else |e| == |state.regions| && e[i] == r
  {}

  /** Other sessions are left alone, and only a begin or an insert makes a session known. */
  lemma ApplyElsewhere(sessions: map<int, LabelState>, o: SessionOp)
    ensures var after := Apply(sessions, o);
      && (forall x | x != o.session :: (x in after <==> x in sessions) && (x in after ==> after[x] == sessions[x]))
      && (o.session in after <==>
            match o.op
            case BeginRegion(_) => true
            case Insert(_) => true
            case EndRegion => o.session in sessions
            case Delete => false)
  {}

  function RunAll(sessions: map<int, LabelState>, ops: seq<SessionOp>): map<int, LabelState>
    decreases |ops|
  {
    if ops == [] then sessions else RunAll(Apply(sessions, ops[0]), ops[1..])
  }

  function OpsOf(ops: seq<SessionOp>, session: int): seq<LabelOp> {
    if ops == [] then []
    else (if ops[0].session == session then [ops[0].op] else []) + OpsOf(ops[1..], session)
  }

  /** However the operations of many sessions interleave, each session runs as if it were alone. */
  lemma {:induction false} SessionsIndependent(sessions: map<int, LabelState>, ops: seq<SessionOp>, session: int)
    ensures StateIn(RunAll(sessions, ops), session) == Run(StateIn(sessions, session), OpsOf(ops, session))
    decreases |ops|
  {
    if ops != [] {
      var rest := OpsOf(ops[1..], session);
      SessionsIndependent(Apply(sessions, ops[0]), ops[1..], session);
      if ops[0].session == session {
        assert OpsOf(ops, session) == [ops[0].op] + rest;
        assert ([ops[0].op] + rest)[1..] == rest;
      } else {
        assert OpsOf(ops, session) == rest;
      }
    }
  }

  /** So a session whose own operations balance gets its regions back, whatever the others do meanwhile. */
  lemma InterleavedBalancedRestores(sessions: map<int, LabelState>, ops: seq<SessionOp>, session: int)
    requires Balanced(OpsOf(ops, session))
    ensures StateIn(RunAll(sessions, ops), session).regions == StateIn(sessions, session).regions
  {
    SessionsIndependent(sessions, ops, session);
    BalancedRestores(StateIn(sessions, session), OpsOf(ops, session));
  }

  // ---------- Callback data ----------

  datatype CallbackData = CallbackData(message: string, objects: seq<ObjectInfo>, sessionLabels: seq<Label>)

  ghost function NamedAll(names: map<Key, string>, objects: seq<ObjectInfo>): seq<ObjectInfo> {
    seq(|objects|, i requires 0 <= i < |objects| => Named(names, objects[i]))
  }

  /** The labels of every session among the objects, in object order. */
  function AllLabels(sessions: map<int, LabelState>, objects: seq<ObjectInfo>): seq<Label> {
    if objects == [] then []
    else
      var last := objects[|objects| - 1].key;
      AllLabels(sessions, objects[..|objects| - 1]) +
      if last.objectType == OBJECT_TYPE_SESSION then StateIn(sessions, last.handle).Exported() else []
  }

  lemma NothingListed(sessions: map<int, LabelState>)
    ensures AllLabels(sessions, []) == []
  {}

  lemma AllLabelsNext(sessions: map<int, LabelState>, objects: seq<ObjectInfo>, i: nat)
    requires i < |objects|
    ensures AllLabels(sessions, objects[..i + 1]) == AllLabels(sessions, objects[..i]) +
      if objects[i].key.objectType == OBJECT_TYPE_SESSION then StateIn(sessions, objects[i].key.handle).Exported()
      else []
  {
    assert objects[..i + 1][..i] == objects[..i];
  }

  ghost predicate AnyNamed(names: map<Key, string>, objects: seq<ObjectInfo>) {
    exists i | 0 <= i < |objects| :: objects[i].key in names
  }

  /** When WrapCallbackData exports its own copy. */
  ghost predicate Augments(names: map<Key, string>, sessions: map<int, LabelState>, objects: seq<ObjectInfo>) {
    names != map[] && (AnyNamed(names, objects) || AllLabels(sessions, objects) != [])
  }

  ghost function Wrapped(names: map<Key, string>, sessions: map<int, LabelState>, data: CallbackData): CallbackData {
    if Augments(names, sessions, data.objects) then
      data.(objects := NamedAll(names, data.objects), sessionLabels := AllLabels(sessions, data.objects))
    else
      data
  }

  /** Names never get lost in wrapping: each exported object carries its stored name, or its own if none is stored, and
      the message and the objects themselves are kept. */
  lemma WrappedNames(names: map<Key, string>, sessions: map<int, LabelState>, data: CallbackData)
    ensures var objects := Wrapped(names, sessions, data).objects;
      && Wrapped(names, sessions, data).message == data.message
      && |objects| == |data.objects|
      && forall i | 0 <= i < |objects| ::
           var o := data.objects[i];
           objects[i].key == o.key && objects[i].name == if o.key in names then names[o.key] else o.name
  {
    if !Augments(names, sessions, data.objects) {
      forall i | 0 <= i < |data.objects|
        ensures data.objects[i].key !in names
      {
        if data.objects[i].key in names {
          assert AnyNamed(names, data.objects);
        }
      }
    }
  }

  /** The labels of all sessions among the objects, one object more at a time. */
  lemma AllLabelsLast(sessions: map<int, LabelState>, objects: seq<ObjectInfo>, o: ObjectInfo)
    ensures AllLabels(sessions, []) == []
    ensures AllLabels(sessions, objects + [o]) == AllLabels(sessions, objects) +
      if o.key.objectType == 2 && o.key.handle in sessions then sessions[o.key.handle].Exported() else []
  {
    assert (objects + [o])[..|objects|] == objects;
  }

  lemma {:induction false} NoLabelsIff(sessions: map<int, LabelState>, objects: seq<ObjectInfo>)
    ensures AllLabels(sessions, objects) == [] <==> forall i | 0 <= i < |objects| :: !HasLabels(sessions, objects[i])
  {
    hide AllLabels, HasLabels, StateIn, LabelState.Exported;
    if objects == [] {
      NothingListed(sessions);
    } else {
      var n := |objects| - 1;
      NoLabelsIff(sessions, objects[..n]);
      assert objects[..n + 1] == objects && forall i | 0 <= i < n :: objects[..n][i] == objects[i];
      AllLabelsNext(sessions, objects, n);
      HasLabelsIff(sessions, objects[n]);
    }
  }

  lemma HasLabelsIff(sessions: map<int, LabelState>, info: ObjectInfo)
    ensures HasLabels(sessions, info) <==>
            info.key.objectType == OBJECT_TYPE_SESSION && StateIn(sessions, info.key.handle).Exported() != []
  {}

  predicate HasLabels(sessions: map<int, LabelState>, info: ObjectInfo) {
    info.key.objectType == OBJECT_TYPE_SESSION && StateIn(sessions, info.key.handle) != NO_LABELS
  }

  /** Whether some object has a name at all, and one of these has a name or is a session with labels. */
  ghost predicate SomethingToAdd(names: map<Key, string>, sessions: map<int, LabelState>, objects: seq<ObjectInfo>) {
    names != map[] && exists i | 0 <= i < |objects| :: objects[i].key in names || HasLabels(sessions, objects[i])
  }

  lemma SomethingToAddIff(names: map<Key, string>, sessions: map<int, LabelState>, objects: seq<ObjectInfo>)
    ensures SomethingToAdd(names, sessions, objects) <==>
      && names != map[]
      && exists o | o in objects ::
           o.key in names ||
           (o.key.objectType == 2 && o.key.handle in sessions && sessions[o.key.handle].Exported() != [])
  {
    if i :| 0 <= i < |objects| && (objects[i].key in names || HasLabels(sessions, objects[i])) {
      assert objects[i] in objects;
    }
  }

  /** Labels do: exactly then the sessions' labels are exported, unless the caller already gave those very labels, and
      otherwise the caller keeps its own. */
  lemma WrappedLabels(names: map<Key, string>, sessions: map<int, LabelState>, data: CallbackData)
    ensures var exported, all := Wrapped(names, sessions, data).sessionLabels, AllLabels(sessions, data.objects);
      && (exported == all <==> SomethingToAdd(names, sessions, data.objects) || data.sessionLabels == all)
      && (exported == data.sessionLabels <==>
          !SomethingToAdd(names, sessions, data.objects) || data.sessionLabels == all)
  {
    NoLabelsIff(sessions, data.objects);
    assert SomethingToAdd(names, sessions, data.objects) <==> Augments(names, sessions, data.objects) by {
      if i :| 0 <= i < |data.objects| && data.objects[i].key in names {
        assert AnyNamed(names, data.objects);
      }
    }
  }

  /** One session inside one label region, and no named object: the callback loses the region. */
  lemma LostLabel()
    ensures
      var session := ObjectInfo(Key(7, OBJECT_TYPE_SESSION), "");
      var sessions := map[7 := LabelState([Label("frame")], None)];
      var data := CallbackData("", [session], []);
      AllLabels(sessions, data.objects) == [Label("frame")] && Wrapped(map[], sessions, data).sessionLabels == []
  {
    var session := ObjectInfo(Key(7, OBJECT_TYPE_SESSION), "");
    assert AllLabels(map[7 := LabelState([Label("frame")], None)], []) == [];
    assert [session][..0] == [];
    assert Reverse([Label("frame")]) == [Label("frame")];
  }

  /** A label of the caller's own, on an object that is no session: it is kept while nothing is named, and gone once
      the object has a name. */
  lemma OwnLabelLost()
    ensures
      var info := ObjectInfo(Key(3, 1), "");
      var data := CallbackData("", [info], [Label("own")]);
      && Wrapped(map[], map[], data).sessionLabels == [Label("own")]
      && Wrapped(map[info.key := "main"], map[], data).sessionLabels == []
  {
    var info := ObjectInfo(Key(3, 1), "");
    var data := CallbackData("", [info], [Label("own")]);
    assert data.objects[0].key in map[info.key := "main"];
    assert SomethingToAdd(map[info.key := "main"], map[], data.objects);
    assert [info][..0] == [];
    assert AllLabels(map[], data.objects) == [];
    WrappedLabels(map[info.key := "main"], map[], data);
    WrappedLabels(map[], map[], data);
  }

  // ---------- The class ----------

  class DebugUtilsData {
    var sessionLabels: map<int, seq<SessionLabel>>
    const objectInfo: ObjectInfoCollection

    ghost predicate Valid()
      reads this, objectInfo
    {
      objectInfo.Valid() && forall session | session in sessionLabels :: WellFormed(sessionLabels[session])
    }

    /** Every session that has a label list, with the state the list stands for. */
    ghost function Sessions(): map<int, LabelState>
      reads this
    {
      map session | session in sessionLabels :: StateOf(sessionLabels[session])
    }

    ghost function Names(): map<Key, string>
      reads this, objectInfo
    {
      objectInfo.Names()
    }

    constructor ()
      ensures Valid() && fresh(objectInfo) && Sessions() == map[] && Names() == map[]
    {
      sessionLabels := map[];
      objectInfo := new ObjectInfoCollection();
    }

    static function RemoveIndividualLabel(list: seq<SessionLabel>): (r: seq<SessionLabel>)
      ensures WellFormed(list) ==> StateOf(r) == LabelState(StateOf(list).regions, None)
      ensures WellFormed(list) ==> forall i | 0 <= i < |r| :: !r[i].isIndividual
    {
      if list != [] && list[|list| - 1].isIndividual then list[..|list| - 1] else list
    }

    method BeginLabelRegion(session: int, labelInfo: Label)
      requires Valid()
      modifies this`sessionLabels
      ensures Valid() && Names() == old(Names())
      ensures Sessions() == Apply(old(Sessions()), SessionOp(session, BeginRegion(labelInfo)))
    {
      var list := if session in sessionLabels then sessionLabels[session] else [];
      list := RemoveIndividualLabel(list);
      ghost var before := list;
      list := list + [SessionLabel(labelInfo, false)];
      assert LabelsOf(list) == LabelsOf(before) + [labelInfo];
      sessionLabels := sessionLabels[session := list];
    }

    method EndLabelRegion(session: int)
      requires Valid()
      modifies this`sessionLabels
      ensures Valid() && Names() == old(Names())
      ensures Sessions() == Apply(old(Sessions()), SessionOp(session, EndRegion))
    {
      if session !in sessionLabels {
        return;
      }
      var list := RemoveIndividualLabel(sessionLabels[session]);
      ghost var before := list;
      if list != [] {
        list := list[..|list| - 1];
        assert LabelsOf(list) == LabelsOf(before)[..|before| - 1];
      }
      sessionLabels := sessionLabels[session := list];
    }

    method InsertLabel(session: int, labelInfo: Label)
      requires Valid()
      modifies this`sessionLabels
      ensures Valid() && Names() == old(Names())
      ensures Sessions() == Apply(old(Sessions()), SessionOp(session, Insert(labelInfo)))
    {
      var list := if session in sessionLabels then sessionLabels[session] else [];
      list := RemoveIndividualLabel(list);
      ghost var before := list;
      list := list + [SessionLabel(labelInfo, true)];
      assert list[..|list| - 1] == before;
      assert StateOf(list) == LabelState(StateOf(before).regions, Some(labelInfo));
      sessionLabels := sessionLabels[session := list];
    }

    method DeleteSessionLabels(session: int)
      requires Valid()
      modifies this`sessionLabels
      ensures Valid() && Names() == old(Names())
      ensures Sessions() == Apply(old(Sessions()), SessionOp(session, Delete))
    {
      sessionLabels := sessionLabels - {session};
    }

    method AddObjectName(key: Key, name: string)
      requires Valid()
      modifies objectInfo
      ensures Valid() && Sessions() == old(Sessions())
      ensures Names() == if name == "" then old(Names()) - {key} else old(Names())[key := name]
    {
      objectInfo.AddObjectName(key, name);
    }

    /** A deleted session takes its labels along; any other object only its name. */
    method DeleteObject(key: Key)
      requires Valid()
      modifies this`sessionLabels, objectInfo
      ensures Valid() && Names() == old(Names()) - {key}
      ensures Sessions() ==
        if key.objectType == OBJECT_TYPE_SESSION then Apply(old(Sessions()), SessionOp(key.handle, Delete))
        else old(Sessions())
    {
      objectInfo.RemoveObject(key);
      if key.objectType == OBJECT_TYPE_SESSION {
        if key.handle in sessionLabels {
          sessionLabels := sessionLabels - {key.handle};
        } else {
          assert Sessions() - {key.handle} == Sessions();
        }
      }
    }

    /** Appends the session's labels to out, last entry first. */
    method LookUpSessionLabels(session: int, out: seq<Label>) returns (labels: seq<Label>)
      requires Valid()
      ensures labels == out + StateIn(Sessions(), session).Exported()
    {
      labels := out;
      if session in sessionLabels {
        var list := sessionLabels[session];
        var i := |list|;
        while i > 0
          invariant 0 <= i <= |list|
          invariant labels == out + Reverse(LabelsOf(list[i..]))
        {
          i := i - 1;
          assert list[i..] == [list[i]] + list[i + 1..];
          assert Reverse(LabelsOf(list[i..])) == Reverse(LabelsOf(list[i + 1..])) + [list[i].debugUtilsLabel];
          labels := labels + [list[i].debugUtilsLabel];
        }
        assert list[0..] == list;
        ExportedIsReverse(list);
      }
    }

    static lemma ExportedIsReverse(list: seq<SessionLabel>)
      ensures StateOf(list).Exported() == Reverse(LabelsOf(list))
    {
    }

    method PopulateNamesAndLabels(objects: seq<ObjectInfo>) returns (named: seq<ObjectInfo>, labels: seq<Label>)
      requires Valid()
      ensures |named| == |objects| && forall i | 0 <= i < |named| ::
        var o := objects[i];
        named[i].key == o.key && named[i].name == if o.key in Names() then Names()[o.key] else o.name
      ensures labels == AllLabels(Sessions(), objects)
    {
      hide AllLabels, StateIn, LabelState.Exported, StateOf, NamesOf;
      named, labels := objects, [];
      NothingListed(Sessions());
      for i := 0 to |objects|
        invariant |named| == |objects| && forall j | i <= j < |objects| :: named[j] == objects[j]
        invariant forall j | 0 <= j < i :: named[j] == Named(Names(), objects[j])
        invariant labels == AllLabels(Sessions(), objects[..i])
      {
        var _, info := objectInfo.LookUpObjectName(named[i]);
        named := named[i := info];
        AllLabelsNext(Sessions(), objects, i);
        if named[i].key.objectType == OBJECT_TYPE_SESSION {
          labels := LookUpSessionLabels(named[i].key.handle, labels);
        }
      }
      assert objects[..|objects|] == objects;
    }

    /** WrapCallbackData into a fresh AugmentedCallbackData; the result is what it exports. */
    method WrapCallbackData(data: CallbackData) returns (exported: CallbackData)
      requires Valid()
      ensures exported == Wrapped(Names(), Sessions(), data)
    {
      var objects := data.objects;
      if objectInfo.Empty() || |objects| == 0 {
        return data;
      }
      var nameFound := false;
      var labels: seq<Label> := [];
      hide AllLabels, StateIn, LabelState.Exported, StateOf, NamesOf;
      NothingListed(Sessions());
      for i := 0 to |objects|
        invariant nameFound <==> exists j | 0 <= j < i :: objects[j].key in Names()
        invariant labels == AllLabels(Sessions(), objects[..i])
      {
        var at := objectInfo.LookUpStoredObjectInfo(objects[i].key);
        nameFound := nameFound || at != -1;
        AllLabelsNext(Sessions(), objects, i);
        if objects[i].key.objectType == OBJECT_TYPE_SESSION {
          labels := LookUpSessionLabels(objects[i].key.handle, labels);
        }
      }
      assert objects[..|objects|] == objects;
      if !nameFound && labels == [] {
        return data;
      }
      var newObjects := objects;
      for i := 0 to |newObjects|
        invariant |newObjects| == |objects| && forall j | i <= j < |objects| :: newObjects[j] == objects[j]
        invariant forall j | 0 <= j < i :: newObjects[j] == Named(Names(), objects[j])
      {
        var _, info := objectInfo.LookUpObjectName(newObjects[i]);
        newObjects := newObjects[i := info];
      }
      assert newObjects == NamedAll(Names(), objects);
      return data.(objects := newObjects, sessionLabels := labels);
    }
  }
}
