/** Ownership of global references by jni::Object (jnipp.cpp), on attached threads. */
module JniObjects {

  /** A jobject; zero is the null reference. */
  type Ref = nat

  /** The three fields of an object. */
  datatype Fields = Fields(handle: Ref, cls: Ref, isGlobal: bool) {
    predicate OwnsHandle() { isGlobal && handle != 0 }

    /** Whether deleting what the object owns, once for each field, deletes only live references. */
    predicate HeldIn(live: set<Ref>) {
      && (OwnsHandle() ==> handle in live && handle != cls)
      && (cls != 0 ==> cls in live)
    }
  }

  const NULL_FIELDS := Fields(0, 0, false)

  // ---------- The Java environment ----------

  /** The global references, the local ones of the thread, and whether JNI was ever handed anything else. */
  datatype Jvm = Jvm(live: set<Ref>, locals: set<Ref>, misused: bool) {
    /** A reference that JNI functions accept. */
    predicate Usable(ref: Ref) { ref == 0 || ref in live || ref in locals }

    /** A name NewGlobalRef may return: null when memory is exhausted, or a reference not in use. */
    predicate CanName(name: Ref) { name == 0 || (name !in live && name !in locals) }

    function AfterNew(ref: Ref, name: Ref): Jvm {
      Jvm(live + if NewRef(ref, name) == 0 then {} else {name}, locals, misused || !Usable(ref))
    }

    /** After deleting what an object of these fields owns, once for each field. */
    function AfterDitch(f: Fields): Jvm {
      Jvm(live - Refs(f), locals, misused || !f.HeldIn(live))
    }

    function AfterDeleteGlobal(ref: Ref): Jvm {
      if ref == 0 then this else Jvm(live - {ref}, locals, misused || ref !in live)
    }

    function AfterDeleteLocal(ref: Ref): Jvm {
      Jvm(live, locals - {ref}, misused || (ref != 0 && ref !in locals))
    }

    /** After making a global reference to the class of an object, which must not be null. */
    function AfterNewClass(ref: Ref, name: Ref): Jvm {
      Jvm(live + if name == 0 then {} else {name}, locals, misused || ref == 0 || !Usable(ref))
    }
  }

  /** What NewGlobalRef returns for a reference: null for null. */
  function NewRef(ref: Ref, name: Ref): Ref { if ref == 0 then 0 else name }

  /** The global references an object owns. */
  function Refs(f: Fields): set<Ref> {
    (if f.OwnsHandle() then {f.handle} else {}) + if f.cls != 0 then {f.cls} else {}
  }

  /** The same, as often as its fields name them. */
  function Owned(f: Fields): multiset<Ref> {
    (if f.OwnsHandle() then multiset{f.handle} else multiset{}) + if f.cls != 0 then multiset{f.cls} else multiset{}
  }

  /** Copy assignment, where NewGlobalRef returns `name`. A null source leaves the old handle in place. */
  function CopyAssigned(a: Fields, b: Fields, name: Ref): Fields {
    if a.handle == b.handle then a
    else if b.handle == 0 then Fields(a.handle, 0, false)
    else Fields(name, 0, true)
  }

  function AfterCopyAssign(jvm: Jvm, a: Fields, b: Fields, name: Ref): Jvm {
    if a.handle == b.handle then jvm else jvm.AfterDitch(a).AfterNew(b.handle, name)
  }

  /** Exactly when copy assignment makes the target null as its source is: not over a live target. */
  lemma CopyAssignedNullIff(a: Fields, b: Fields, name: Ref)
    requires b.handle == 0
    ensures CopyAssigned(a, b, name).handle == 0 <==> a.handle == 0
    ensures a.handle != 0 ==> CopyAssigned(a, b, name) == Fields(a.handle, 0, false)
  {}

  /** Exactly when copy assignment from a source that JNI accepts hands JNI a reference that it has deleted before:
      the source is a temporary on the target's own class reference. */
  lemma CopyAssignMisusesIff(jvm: Jvm, a: Fields, b: Fields, name: Ref)
    requires !jvm.misused && a.HeldIn(jvm.live) && jvm.live !! jvm.locals && jvm.Usable(b.handle)
    ensures AfterCopyAssign(jvm, a, b, name).misused <==> a.handle != b.handle && b.handle != 0 && b.handle == a.cls
  {}

  class Env {
    var live: set<Ref>
    var locals: set<Ref>
    var misused: bool

    function View(): Jvm
      reads this
    {
      Jvm(live, locals, misused)
    }

    constructor (locals: set<Ref>)
      ensures View() == Jvm({}, locals, false)
    {
      live, this.locals, misused := {}, locals, false;
    }

    /** Handing JNI a reference that it does not accept is undefined; the model goes on and remembers it. */
    method Use(ref: Ref)
      modifies this`misused
      ensures misused == (old(misused) || !View().Usable(ref))
    {
      if ref != 0 && ref !in live && ref !in locals {
        misused := true;
      }
    }

    method NewGlobalRef(ref: Ref, name: Ref) returns (r: Ref)
      modifies this
      ensures r == NewRef(ref, name) && View() == old(View()).AfterNew(ref, name)
    {
      Use(ref);
      r := if ref == 0 then 0 else name;
      if r != 0 {
        live := live + {r};
      }
    }

    /** GetObjectClass, and NewGlobalRef on the local reference that lives only until it is deleted again. */
    method NewClassRef(ref: Ref, name: Ref) returns (r: Ref)
      modifies this
      ensures r == name && View() == old(View()).AfterNewClass(ref, name)
    {
      Use(ref);
      if ref == 0 {
        misused := true;
      }
      r := name;
      if r != 0 {
        live := live + {r};
      }
    }

    /** Null is ignored. */
    method DeleteGlobalRef(ref: Ref)
      modifies this
      ensures View() == old(View()).AfterDeleteGlobal(ref)
    {
      if ref != 0 {
        if ref !in live {
          misused := true;
        }
        live := live - {ref};
      }
    }

    method DeleteLocalRef(ref: Ref)
      modifies this
      ensures View() == old(View()).AfterDeleteLocal(ref)
    {
      if ref != 0 && ref !in locals {
        misused := true;
      }
      locals := locals - {ref};
    }
  }

  // ---------- Objects ----------

  class Object {
    var fields: Fields

    constructor ()
      ensures fields == NULL_FIELDS
    {
      fields := NULL_FIELDS;
    }

    /** Object(ref, flags): a temporary keeps the reference it is given, any other makes it global. */
    constructor FromRef(env: Env, ref: Ref, temporary: bool, deleteLocalInput: bool, name: Ref)
      modifies env
      ensures fields == FromRefFields(ref, temporary, name)
      ensures env.View() == AfterFromRef(old(env.View()), ref, temporary, deleteLocalInput, name)
    {
      fields := Fields(ref, 0, !temporary);
      new;
      if !fields.isGlobal {
        return;
      }
      var handle := env.NewGlobalRef(ref, name);
      fields := fields.(handle := handle);
      if deleteLocalInput {
        env.DeleteLocalRef(ref);
      }
    }

    /** isNull hands JNI the handle as well. */
    method IsNull(env: Env) returns (isNull: bool)
      modifies env
      ensures isNull == (fields.handle == 0)
      ensures env.View() == old(env.View()).(misused := env.misused)
      ensures env.misused == (old(env.misused) || !old(env.View()).Usable(fields.handle))
    {
      if fields.handle == 0 {
        return true;
      }
      env.Use(fields.handle);
      return false;
    }

    constructor Copy(env: Env, other: Object, name: Ref)
      modifies env
      ensures fields == CopiedFields(other.fields, name)
      ensures env.View() == old(env.View()).AfterNew(other.fields.handle, name)
    {
      fields := NULL_FIELDS;
      new;
      var isNull := other.IsNull(env);
      fields := fields.(isGlobal := !isNull);
      if !isNull {
        var handle := env.NewGlobalRef(other.fields.handle, name);
        fields := fields.(handle := handle);
      }
    }

    constructor Move(other: Object)
      modifies other
      ensures fields == old(other.fields) && other.fields == NULL_FIELDS
    {
      fields := other.fields;
      new;
      other.fields := NULL_FIELDS;
    }

    /** The destructor. */
    method Destroy(env: Env)
      modifies env
      ensures env.View() == old(env.View()).AfterDitch(fields)
    {
      if fields.isGlobal && fields.handle != 0 {
        env.DeleteGlobalRef(fields.handle);
      }
      if fields.cls != 0 {
        env.DeleteGlobalRef(fields.cls);
      }
    }

    /** The common start of both assignments. */
    method Ditch(env: Env)
      modifies env
      ensures env.View() == old(env.View()).AfterDitch(fields)
    {
      if fields.isGlobal {
        env.DeleteGlobalRef(fields.handle);
      }
      if fields.cls != 0 {
        env.DeleteGlobalRef(fields.cls);
      }
    }

    method CopyAssign(env: Env, other: Object, name: Ref)
      modifies this, env
      ensures fields == CopyAssigned(old(fields), old(other.fields), name)
      ensures env.View() == AfterCopyAssign(old(env.View()), old(fields), old(other.fields), name)
      ensures other != this ==> other.fields == old(other.fields)
    {
      if fields.handle != other.fields.handle {
        Ditch(env);
        var isNull := other.IsNull(env);
        fields := fields.(isGlobal := !isNull);
        if fields.isGlobal {
          var handle := env.NewGlobalRef(other.fields.handle, name);
          fields := fields.(handle := handle);
        }
        fields := fields.(cls := 0);
      }
    }

    method MoveAssign(env: Env, other: Object)
      modifies this, other, env
      ensures old(fields.handle) == old(other.fields.handle) ==>
        fields == old(fields) && other.fields == old(other.fields) && env.View() == old(env.View())
      ensures old(fields.handle) != old(other.fields.handle) ==>
        && fields == old(other.fields) && other.fields == NULL_FIELDS
        && env.View() == old(env.View()).AfterDitch(old(fields))
    {
      if fields.handle != other.fields.handle {
        Ditch(env);
        fields := other.fields;
        other.fields := NULL_FIELDS;
      }
    }

    /** getClass: the class reference is made once and kept. */
    method GetClass(env: Env, name: Ref) returns (cls: Ref)
      modifies this, env
      ensures cls == fields.cls && fields == old(fields).(cls := if old(fields.cls) == 0 then name else old(fields.cls))
      ensures env.View() ==
        if old(fields.cls) == 0 then old(env.View()).AfterNewClass(fields.handle, name) else old(env.View())
    {
      if fields.cls == 0 {
        var cls := env.NewClassRef(fields.handle, name);
        fields := fields.(cls := cls);
      }
      return fields.cls;
    }
  }

  function FromRefFields(ref: Ref, temporary: bool, name: Ref): Fields {
    if temporary then Fields(ref, 0, false) else Fields(NewRef(ref, name), 0, true)
  }

  function AfterFromRef(jvm: Jvm, ref: Ref, temporary: bool, deleteLocalInput: bool, name: Ref): Jvm {
    if temporary then jvm
    else
      var made := jvm.AfterNew(ref, name);
      if deleteLocalInput then made.AfterDeleteLocal(ref) else made
  }

  function CopiedFields(f: Fields, name: Ref): Fields { Fields(NewRef(f.handle, name), 0, f.handle != 0) }

  // ---------- Programs ----------

  /** One operation on the objects of a program, named by their position; `name` is what NewGlobalRef returns. */
  datatype Step =
    | DefaultStep
    | NewStep(ref: Ref, temporary: bool, deleteLocalInput: bool, name: Ref)
    | CopyStep(source: nat, name: Ref)
    | MoveStep(source: nat)
    | CopyAssignStep(target: nat, source: nat, name: Ref)
    | MoveAssignStep(target: nat, source: nat)
    | GetClassStep(target: nat, name: Ref)
    | DestroyStep(target: nat)

  datatype State = State(objects: seq<Fields>, jvm: Jvm)

  /** The objects of the operation exist, and a new reference gets a name that is free at that moment. */
  predicate Possible(s: State, step: Step) {
    match step
    case DefaultStep => true
    case NewStep(_, _, _, name) => s.jvm.CanName(name)
    case CopyStep(source, name) => source < |s.objects| && s.jvm.CanName(name)
    case MoveStep(source) => source < |s.objects|
    case CopyAssignStep(target, source, name) =>
      target < |s.objects| && source < |s.objects| && s.jvm.AfterDitch(s.objects[target]).CanName(name)
    case MoveAssignStep(target, source) => target < |s.objects| && source < |s.objects|
    case GetClassStep(target, name) => target < |s.objects| && s.jvm.CanName(name)
    case DestroyStep(target) => target < |s.objects|
  }

  function After(s: State, step: Step): State
    requires Possible(s, step)
  {
    match step
    case DefaultStep => State(s.objects + [NULL_FIELDS], s.jvm)
    case NewStep(ref, temporary, deleteLocalInput, name) =>
      State(s.objects + [FromRefFields(ref, temporary, name)],
            AfterFromRef(s.jvm, ref, temporary, deleteLocalInput, name))
    case CopyStep(source, name) =>
      State(s.objects + [CopiedFields(s.objects[source], name)], s.jvm.AfterNew(s.objects[source].handle, name))
    case MoveStep(source) => State(s.objects[source := NULL_FIELDS] + [s.objects[source]], s.jvm)
    case CopyAssignStep(target, source, name) =>
      var a, b := s.objects[target], s.objects[source];
      State(s.objects[target := CopyAssigned(a, b, name)], AfterCopyAssign(s.jvm, a, b, name))
    case MoveAssignStep(target, source) =>
      var a, b := s.objects[target], s.objects[source];
      if a.handle == b.handle then s
      else State(s.objects[target := b][source := NULL_FIELDS], s.jvm.AfterDitch(a))
    case GetClassStep(target, name) =>
      var f := s.objects[target];
      if f.cls != 0 then s
      else State(s.objects[target := f.(cls := name)], s.jvm.AfterNewClass(f.handle, name))
    case DestroyStep(target) =>
      State(Without(s.objects, target), s.jvm.AfterDitch(s.objects[target]))
  }

  /** Making objects, field by field, and the references there are afterwards. */
  lemma ConstructionIs(s: State, step: Step)
    requires Possible(s, step)
    ensures var t := After(s, step);
      match step
      case DefaultStep => t == State(s.objects + [Fields(0, 0, false)], s.jvm)
      case NewStep(ref, temporary, deleteLocalInput, name) =>
        if temporary then t == State(s.objects + [Fields(ref, 0, false)], s.jvm)
        else
          && t.objects == s.objects + [Fields(if ref == 0 then 0 else name, 0, true)]
          && t.jvm.live == s.jvm.live + (if ref == 0 || name == 0 then {} else {name})
          && t.jvm.locals == if deleteLocalInput then s.jvm.locals - {ref} else s.jvm.locals
      case CopyStep(source, name) =>
        var h := s.objects[source].handle;
        && t.objects == s.objects + [Fields(if h == 0 then 0 else name, 0, h != 0)]
        && t.jvm.live == s.jvm.live + (if h == 0 || name == 0 then {} else {name}) && t.jvm.locals == s.jvm.locals
      case MoveStep(source) =>
        t == State(s.objects[source := Fields(0, 0, false)] + [s.objects[source]], s.jvm)
      case _ => true
  {
    if step.NewStep? && step.ref == 0 {
      assert s.jvm.live + {} == s.jvm.live;
    }
  }

  /** The other operations: assignments do nothing between equal handles, and delete what the target owned first. */
  lemma OperationIs(s: State, step: Step)
    requires Possible(s, step)
    ensures var t := After(s, step);
      var gone := (f: Fields) =>
        (if f.isGlobal && f.handle != 0 then {f.handle} else {}) + (if f.cls != 0 then {f.cls} else {});
      match step
      case CopyAssignStep(target, source, name) =>
        var a, b := s.objects[target], s.objects[source];
        if a.handle == b.handle then t == s
        else
          && t.objects ==
             s.objects[target := if b.handle == 0 then Fields(a.handle, 0, false) else Fields(name, 0, true)]
          && t.jvm.live == s.jvm.live - gone(a) + (if b.handle == 0 || name == 0 then {} else {name})
          && t.jvm.locals == s.jvm.locals
      case MoveAssignStep(target, source) =>
        var a, b := s.objects[target], s.objects[source];
        if a.handle == b.handle then t == s
        else
          && t.objects == s.objects[target := b][source := Fields(0, 0, false)]
          && t.jvm.live == s.jvm.live - gone(a) && t.jvm.locals == s.jvm.locals
      case GetClassStep(target, name) =>
        var f := s.objects[target];
        if f.cls != 0 then t == s
        else
          && t.objects == s.objects[target := Fields(f.handle, name, f.isGlobal)]
          && t.jvm.live == s.jvm.live + (if name == 0 then {} else {name}) && t.jvm.locals == s.jvm.locals
      case DestroyStep(target) =>
        && t.objects == s.objects[..target] + s.objects[target + 1..]
        && t.jvm.live == s.jvm.live - gone(s.objects[target]) && t.jvm.locals == s.jvm.locals
      case _ => true
  {
    hide Fields.HeldIn, Jvm.Usable;
  }

  predicate PossibleAll(s: State, steps: seq<Step>)
    decreases |steps|
  {
    steps == [] || (Possible(s, steps[0]) && PossibleAll(After(s, steps[0]), steps[1..]))
  }

  function AfterAll(s: State, steps: seq<Step>): State
    requires PossibleAll(s, steps)
    decreases |steps|
  {
    if steps == [] then s else AfterAll(After(s, steps[0]), steps[1..])
  }

  /** The state before step i of a run. */
  function Before(s: State, steps: seq<Step>, i: nat): (t: State)
    requires PossibleAll(s, steps) && i <= |steps|
    ensures i < |steps| ==> Possible(t, steps[i])
    decreases |steps|
  {
    if i == 0 then s else Before(After(s, steps[0]), steps[1..], i - 1)
  }

  // ---------- Ownership ----------

  function Without<T>(s: seq<T>, i: nat): (r: seq<T>)
    requires i < |s|
    ensures |r| == |s| - 1 && forall k | 0 <= k < |r| :: r[k] == s[if k < i then k else k + 1]
  {
    s[..i] + s[i + 1..]
  }

  /** What all objects own, as often as their fields name it. */
  function AllOwned(objects: seq<Fields>): multiset<Ref> {
    if objects == [] then multiset{}
    else AllOwned(objects[..|objects| - 1]) + Owned(objects[|objects| - 1])
  }

  /** Each live global reference is owned by exactly one field of exactly one object, and nothing else is owned. */
  ghost predicate OwnedOnce(s: State) {
    && 0 !in s.jvm.live && 0 !in s.jvm.locals && s.jvm.live !! s.jvm.locals
    && AllOwned(s.objects) == multiset(s.jvm.live)
  }

  lemma OwnedAppended(objects: seq<Fields>, f: Fields)
    ensures AllOwned(objects + [f]) == AllOwned(objects) + Owned(f)
  {
    assert (objects + [f])[..|objects|] == objects;
  }

  lemma {:induction false} OwnedAt(objects: seq<Fields>, i: nat)
    requires i < |objects|
    ensures AllOwned(objects) == AllOwned(objects[..i] + objects[i + 1..]) + Owned(objects[i])
  {
    hide AllOwned, Owned;
    var n := |objects| - 1;
    var front, last := objects[..n], objects[n];
    assert objects == front + [last];
    OwnedAppended(front, last);
    if i < n {
      OwnedAt(front, i);
      OwnedAppended(front[..i] + front[i + 1..], last);
      assert objects[..i] + objects[i + 1..] == front[..i] + front[i + 1..] + [last];
    } else {
      assert objects[..i] + objects[i + 1..] == front;
    }
  }

  lemma OwnedUpdated(objects: seq<Fields>, i: nat, f: Fields)
    requires i < |objects|
    ensures Owned(objects[i]) <= AllOwned(objects)
    ensures AllOwned(objects[i := f]) == AllOwned(objects) - Owned(objects[i]) + Owned(f)
  {
    hide AllOwned, Owned;
    OwnedAt(objects, i);
    OwnedAt(objects[i := f], i);
    assert objects[i := f][..i] + objects[i := f][i + 1..] == objects[..i] + objects[i + 1..];
  }

  lemma IsHeld(s: State, i: nat)
    requires OwnedOnce(s) && i < |s.objects|
    ensures s.objects[i].HeldIn(s.jvm.live)
  {
    var f := s.objects[i];
    OwnedUpdated(s.objects, i, f);
    hide AllOwned;
    assert Owned(f) <= multiset(s.jvm.live);
    if f.OwnsHandle() {
      assert f.cls == f.handle ==> Owned(f)[f.handle] == 2;
      assert 1 <= Owned(f)[f.handle] <= multiset(s.jvm.live)[f.handle] <= 1;
    }
    if f.cls != 0 {
      assert 1 <= Owned(f)[f.cls] <= multiset(s.jvm.live)[f.cls];
    }
  }

  lemma Ditched(live: set<Ref>, f: Fields)
    requires f.HeldIn(live)
    ensures multiset(live - Refs(f)) == multiset(live) - Owned(f)
  {
    forall r ensures multiset(live - Refs(f))[r] == (multiset(live) - Owned(f))[r] {
      assert Owned(f)[r] == if r in Refs(f) then 1 else 0;
    }
  }

  lemma Named(live: set<Ref>, name: Ref)
    requires name !in live
    ensures multiset(live + {name}) == multiset(live) + multiset{name}
  {}

  lemma NamedOwned(live: set<Ref>, ref: Ref, name: Ref)
    requires name == 0 || name !in live
    ensures multiset(live + if NewRef(ref, name) == 0 then {} else {name}) ==
            multiset(live) + Owned(Fields(NewRef(ref, name), 0, true))
  {
    if name != 0 {
      Named(live, name);
    }
    assert live + {} == live;
  }

  /** Every operation keeps this, whatever it is given and even if it misuses JNI. */
  lemma KeepsOwnedOnce(s: State, step: Step)
    requires OwnedOnce(s) && Possible(s, step)
    ensures OwnedOnce(After(s, step))
  {
    match step {
      case CopyAssignStep(target, source, name) => KeepsCopied(s, target, source, name);
      case MoveAssignStep(target, source) => KeepsMoved(s, target, source);
      case GetClassStep(target, name) => KeepsClass(s, target, name);
      case DestroyStep(target) => KeepsDestroyed(s, target);
      case _ => KeepsConstructed(s, step);
    }
  }

  lemma KeepsConstructed(s: State, step: Step)
    requires OwnedOnce(s) && Possible(s, step)
    requires step.DefaultStep? || step.NewStep? || step.CopyStep? || step.MoveStep?
    ensures OwnedOnce(After(s, step))
  {
    hide AllOwned;
    match step {
      case DefaultStep => OwnedAppended(s.objects, NULL_FIELDS);
      case NewStep(ref, temporary, _, name) =>
        if temporary {
          OwnedAppended(s.objects, Fields(ref, 0, false));
        } else {
          KeepsNamed(s, ref, name);
        }
      case CopyStep(source, name) =>
        KeepsNamed(s, s.objects[source].handle, name);
        if s.objects[source].handle == 0 {
          OwnedAppended(s.objects, NULL_FIELDS);
        }
      case MoveStep(source) =>
        OwnedUpdated(s.objects, source, NULL_FIELDS);
        OwnedAppended(s.objects[source := NULL_FIELDS], s.objects[source]);
    }
  }

  lemma KeepsNamed(s: State, ref: Ref, name: Ref)
    requires OwnedOnce(s) && s.jvm.CanName(name)
    ensures OwnedOnce(State(s.objects + [Fields(NewRef(ref, name), 0, true)], s.jvm.AfterNew(ref, name)))
  {
    hide AllOwned;
    OwnedAppended(s.objects, Fields(NewRef(ref, name), 0, true));
    NamedOwned(s.jvm.live, ref, name);
  }

  lemma OwnedCopied(a: Fields, b: Fields, name: Ref)
    requires a.handle != b.handle
    ensures Owned(CopyAssigned(a, b, name)) == Owned(Fields(NewRef(b.handle, name), 0, true))
  {}

  lemma KeepsCopied(s: State, target: nat, source: nat, name: Ref)
    requires OwnedOnce(s) && Possible(s, CopyAssignStep(target, source, name))
    ensures OwnedOnce(After(s, CopyAssignStep(target, source, name)))
  {
    hide AllOwned, Owned;
    var a, b := s.objects[target], s.objects[source];
    if a.handle != b.handle {
      OwnedCopied(a, b, name);
      OwnedUpdated(s.objects, target, CopyAssigned(a, b, name));
      IsHeld(s, target);
      Ditched(s.jvm.live, a);
      NamedOwned(s.jvm.live - Refs(a), b.handle, name);
    } else {
      assert s.objects[target := a] == s.objects;
    }
  }

  lemma KeepsMoved(s: State, target: nat, source: nat)
    requires OwnedOnce(s) && target < |s.objects| && source < |s.objects|
    ensures OwnedOnce(After(s, MoveAssignStep(target, source)))
  {
    hide AllOwned;
    var a, b := s.objects[target], s.objects[source];
    if a.handle != b.handle {
      OwnedUpdated(s.objects, target, b);
      OwnedUpdated(s.objects[target := b], source, NULL_FIELDS);
      IsHeld(s, target);
      Ditched(s.jvm.live, a);
    }
  }

  lemma KeepsClass(s: State, target: nat, name: Ref)
    requires OwnedOnce(s) && Possible(s, GetClassStep(target, name))
    ensures OwnedOnce(After(s, GetClassStep(target, name)))
  {
    hide AllOwned;
    var f := s.objects[target];
    if f.cls == 0 {
      OwnedUpdated(s.objects, target, f.(cls := name));
      if name != 0 {
        Named(s.jvm.live, name);
        assert Owned(f.(cls := name)) == Owned(f) + multiset{name};
      }
    }
  }

  lemma KeepsDestroyed(s: State, target: nat)
    requires OwnedOnce(s) && target < |s.objects|
    ensures OwnedOnce(After(s, DestroyStep(target)))
  {
    hide AllOwned;
    OwnedAt(s.objects, target);
    IsHeld(s, target);
    Ditched(s.jvm.live, s.objects[target]);
  }

  // ---------- When JNI is misused ----------

  /** What a caller can see before the operation: it would hand JNI a reference that JNI does not accept. */
  predicate Unsafe(s: State, step: Step)
    requires Possible(s, step)
  {
    match step
    case NewStep(ref, temporary, deleteLocalInput, _) =>
      !temporary && (!s.jvm.Usable(ref) || (deleteLocalInput && ref != 0 && ref !in s.jvm.locals))
    case CopyStep(source, _) => !s.jvm.Usable(s.objects[source].handle)
    case CopyAssignStep(target, source, _) =>
      var a, b := s.objects[target], s.objects[source];
      a.handle != b.handle && b.handle != 0 && (!s.jvm.Usable(b.handle) || b.handle == a.cls)
    case GetClassStep(target, _) =>
      var f := s.objects[target];
      f.cls == 0 && (f.handle == 0 || !s.jvm.Usable(f.handle))
    case _ => false
  }

  /** An operation misuses JNI exactly when it is unsafe; in particular none deletes a reference that is not live. */
  lemma MisusesIff(s: State, step: Step)
    requires OwnedOnce(s) && Possible(s, step)
    ensures After(s, step).jvm.misused <==> s.jvm.misused || Unsafe(s, step)
  {
    hide AllOwned;
    match step {
      case CopyAssignStep(target, source, name) =>
        var a, b := s.objects[target], s.objects[source];
        IsHeld(s, target);
        if s.jvm.Usable(b.handle) {
          CopyAssignMisusesIff(s.jvm.(misused := false), a, b, name);
        }
      case MoveAssignStep(target, _) => IsHeld(s, target);
      case DestroyStep(target) => IsHeld(s, target);
      case _ =>
    }
  }

  /** Exactly when a run misuses JNI, and what every run keeps. */
  lemma {:induction false} RunMisusesIff(s: State, steps: seq<Step>)
    requires OwnedOnce(s) && PossibleAll(s, steps)
    ensures OwnedOnce(AfterAll(s, steps))
    ensures AfterAll(s, steps).jvm.misused <==>
            s.jvm.misused || exists i | 0 <= i < |steps| :: Unsafe(Before(s, steps, i), steps[i])
    decreases |steps|
  {
    hide OwnedOnce, After, Possible, Unsafe;
    if steps != [] {
      var next, rest := After(s, steps[0]), steps[1..];
      KeepsOwnedOnce(s, steps[0]);
      MisusesIff(s, steps[0]);
      RunMisusesIff(next, rest);
      assert forall i | 0 <= i < |rest| :: Before(next, rest, i) == Before(s, steps, i + 1) && rest[i] == steps[i + 1];
      assert Before(s, steps, 0) == s;
      if i :| 0 <= i < |steps| && Unsafe(Before(s, steps, i), steps[i]) {
        if i > 0 {
          assert Unsafe(Before(next, rest, i - 1), rest[i - 1]);
        }
      }
      if i :| 0 <= i < |rest| && Unsafe(Before(next, rest, i), rest[i]) {
        assert Unsafe(Before(s, steps, i + 1), steps[i + 1]);
      }
    }
  }

  /** JNI accepts every handle. */
  predicate NoDangling(s: State) {
    forall i | 0 <= i < |s.objects| :: s.jvm.Usable(s.objects[i].handle)
  }

  /** No object but those at the positions `except` has its handle among `gone`. */
  predicate NoneHolds(objects: seq<Fields>, except: set<nat>, gone: set<Ref>) {
    forall i | 0 <= i < |objects| && i !in except :: objects[i].handle !in gone
  }

  /** Temporaries are made from references that JNI accepts, and no reference goes that another object holds: not a
      local one that is deleted, and none that an object gives up. A new reference may take the name of an old one. */
  predicate Keeps(s: State, step: Step)
    requires Possible(s, step)
  {
    match step
    case NewStep(ref, temporary, deleteLocalInput, _) =>
      if temporary then s.jvm.Usable(ref)
      else deleteLocalInput && ref in s.jvm.locals ==> NoneHolds(s.objects, {}, {ref})
    case CopyAssignStep(target, source, name) =>
      var a, b := s.objects[target], s.objects[source];
      a.handle != b.handle ==>
        && NoneHolds(s.objects, {target}, Refs(a) - {NewRef(b.handle, name)})
        && (b.handle == 0 ==> !a.OwnsHandle() && a.handle !in Refs(a))
    case MoveAssignStep(target, source) =>
      var a, b := s.objects[target], s.objects[source];
      a.handle != b.handle ==> NoneHolds(s.objects, {target, source}, Refs(a)) && b.handle !in Refs(a)
    case DestroyStep(target) => NoneHolds(s.objects, {target}, Refs(s.objects[target]))
    case _ => true
  }

  /** Exactly when an operation leaves no handle dangling, where none was before. */
  lemma KeepsIff(s: State, step: Step)
    requires OwnedOnce(s) && NoDangling(s) && Possible(s, step)
    ensures NoDangling(After(s, step)) <==> Keeps(s, step)
  {
    hide AllOwned;
    match step {
      case NewStep(ref, temporary, deleteLocalInput, name) => KeepsNewIff(s, ref, temporary, deleteLocalInput, name);
      case CopyAssignStep(target, source, name) => KeepsCopyAssignIff(s, target, source, name);
      case MoveAssignStep(target, source) => KeepsMoveAssignIff(s, target, source);
      case DestroyStep(target) => KeepsDestroyIff(s, target);
      case _ =>
    }
  }

  lemma KeepsNewIff(s: State, ref: Ref, temporary: bool, deleteLocalInput: bool, name: Ref)
    requires OwnedOnce(s) && NoDangling(s) && Possible(s, NewStep(ref, temporary, deleteLocalInput, name))
    ensures var step := NewStep(ref, temporary, deleteLocalInput, name);
      NoDangling(After(s, step)) <==> Keeps(s, step)
  {
    hide AllOwned;
    var t := After(s, NewStep(ref, temporary, deleteLocalInput, name));
    assert t.objects[|s.objects|] == FromRefFields(ref, temporary, name);
    assert forall i | 0 <= i < |s.objects| :: t.objects[i] == s.objects[i];
  }

  lemma KeepsCopyAssignIff(s: State, target: nat, source: nat, name: Ref)
    requires OwnedOnce(s) && NoDangling(s) && Possible(s, CopyAssignStep(target, source, name))
    ensures var step := CopyAssignStep(target, source, name);
      NoDangling(After(s, step)) <==> Keeps(s, step)
  {
    hide AllOwned;
    var a, b := s.objects[target], s.objects[source];
    var t := After(s, CopyAssignStep(target, source, name));
    IsHeld(s, target);
    assert t.objects[target] == CopyAssigned(a, b, name);
    assert forall i | 0 <= i < |s.objects| && i != target :: t.objects[i] == s.objects[i];
  }

  lemma KeepsMoveAssignIff(s: State, target: nat, source: nat)
    requires OwnedOnce(s) && NoDangling(s) && target < |s.objects| && source < |s.objects|
    ensures NoDangling(After(s, MoveAssignStep(target, source))) <==> Keeps(s, MoveAssignStep(target, source))
  {
    hide AllOwned;
    var a, b := s.objects[target], s.objects[source];
    var t := After(s, MoveAssignStep(target, source));
    IsHeld(s, target);
    if a.handle != b.handle {
      assert t.objects[target] == b && t.objects[source] == NULL_FIELDS;
      assert forall i | 0 <= i < |s.objects| && i != target && i != source :: t.objects[i] == s.objects[i];
    }
  }

  lemma KeepsDestroyIff(s: State, target: nat)
    requires OwnedOnce(s) && NoDangling(s) && target < |s.objects|
    ensures NoDangling(After(s, DestroyStep(target))) <==> Keeps(s, DestroyStep(target))
  {
    hide AllOwned;
    var t := After(s, DestroyStep(target));
    IsHeld(s, target);
    forall i | 0 <= i < |s.objects| && i != target
      ensures t.objects[if i < target then i else i - 1] == s.objects[i]
    {}
  }

  /** What the caller passes is acceptable in itself: a reference that JNI gave out, deleted as a local one only if it
      is one, and an object to take the class of. */
  predicate GoodArguments(s: State, step: Step)
    requires Possible(s, step)
  {
    match step
    case NewStep(ref, temporary, deleteLocalInput, _) =>
      temporary || (s.jvm.Usable(ref) && (deleteLocalInput ==> ref == 0 || ref in s.jvm.locals))
    case GetClassStep(target, _) => s.objects[target].handle != 0 || s.objects[target].cls != 0
    case _ => true
  }

  /** A copy assignment whose source is a temporary on the target's own class reference. */
  predicate AssignsOwnClass(s: State, step: Step)
    requires Possible(s, step)
  {
    && step.CopyAssignStep?
    && var a, b := s.objects[step.target], s.objects[step.source];
       a.handle != b.handle && b.handle != 0 && b.handle == a.cls
  }

  /** Where no handle dangles, JNI is misused exactly by the caller's own arguments and by that assignment. */
  lemma UnsafeIff(s: State, step: Step)
    requires NoDangling(s) && Possible(s, step)
    ensures Unsafe(s, step) <==> !GoodArguments(s, step) || AssignsOwnClass(s, step)
  {
    if step.GetClassStep? {
      assert s.jvm.Usable(s.objects[step.target].handle);
    } else if step.CopyStep? || step.CopyAssignStep? {
      assert s.jvm.Usable(s.objects[step.source].handle);
    }
  }

  /** No handle dangles, and JNI was not misused. */
  predicate Clean(s: State) { NoDangling(s) && !s.jvm.misused }

  predicate Careful(s: State, step: Step)
    requires Possible(s, step)
  {
    Keeps(s, step) && GoodArguments(s, step) && !AssignsOwnClass(s, step)
  }

  /** Every state of a run is clean. */
  ghost predicate StaysClean(s: State, steps: seq<Step>)
    requires PossibleAll(s, steps)
  {
    forall i | 0 <= i <= |steps| :: Clean(Before(s, steps, i))
  }

  /** Every operation of a run is careful in the state before it. */
  ghost predicate AllCareful(s: State, steps: seq<Step>)
    requires PossibleAll(s, steps)
  {
    forall i | 0 <= i < |steps| :: Careful(Before(s, steps, i), steps[i])
  }

  lemma StaysCleanNext(s: State, steps: seq<Step>)
    requires PossibleAll(s, steps) && steps != []
    ensures StaysClean(s, steps) <==> Clean(s) && StaysClean(After(s, steps[0]), steps[1..])
  {
    hide After, Possible, Clean;
    var next, rest := After(s, steps[0]), steps[1..];
    assert Before(s, steps, 0) == s;
    assert forall i | 0 <= i <= |rest| :: Before(next, rest, i) == Before(s, steps, i + 1);
    if Clean(s) && StaysClean(next, rest) {
      forall i | 0 <= i <= |steps| ensures Clean(Before(s, steps, i)) {
        assert i > 0 ==> Before(s, steps, i) == Before(next, rest, i - 1);
      }
    }
  }

  lemma AllCarefulNext(s: State, steps: seq<Step>)
    requires PossibleAll(s, steps) && steps != []
    ensures AllCareful(s, steps) <==> Careful(s, steps[0]) && AllCareful(After(s, steps[0]), steps[1..])
  {
    hide After, Possible, Careful;
    var next, rest := After(s, steps[0]), steps[1..];
    assert Before(s, steps, 0) == s;
    assert forall i | 0 <= i < |rest| :: Before(next, rest, i) == Before(s, steps, i + 1) && rest[i] == steps[i + 1];
    if Careful(s, steps[0]) && AllCareful(next, rest) {
      forall i | 0 <= i < |steps| ensures Careful(Before(s, steps, i), steps[i]) {
        if i > 0 {
          assert Before(s, steps, i) == Before(next, rest, i - 1) && steps[i] == rest[i - 1];
        }
      }
    }
  }

  /** Exactly the careful runs stay clean. */
  lemma {:induction false} CarefulRunIff(s: State, steps: seq<Step>)
    requires OwnedOnce(s) && Clean(s) && PossibleAll(s, steps)
    ensures StaysClean(s, steps) <==> AllCareful(s, steps)
    decreases |steps|
  {
    if steps == [] {
      assert Before(s, steps, 0) == s;
    } else {
      hide OwnedOnce, After, Possible, Careful, Clean, StaysClean, AllCareful;
      var next, rest := After(s, steps[0]), steps[1..];
      KeepsOwnedOnce(s, steps[0]);
      CleanIff(s, steps[0]);
      StaysCleanNext(s, steps);
      AllCarefulNext(s, steps);
      if Clean(next) {
        CarefulRunIff(next, rest);
      } else {
        CleanFirst(next, rest);
      }
    }
  }

  lemma CleanFirst(s: State, steps: seq<Step>)
    requires PossibleAll(s, steps)
    ensures StaysClean(s, steps) ==> Clean(s)
  {
    assert Before(s, steps, 0) == s;
  }

  lemma CleanIff(s: State, step: Step)
    requires OwnedOnce(s) && Clean(s) && Possible(s, step)
    ensures Clean(After(s, step)) <==> Careful(s, step)
  {
    hide OwnedOnce, After, Keeps, Unsafe, GoodArguments, AssignsOwnClass, NoDangling;
    KeepsIff(s, step);
    MisusesIff(s, step);
    UnsafeIff(s, step);
  }

  /** The temporary on a class reference that getMethod and getField make and drop again: careful in every state, and
      afterwards all is as before. */
  lemma ClassTemporary(s: State, i: nat)
    requires OwnedOnce(s) && i < |s.objects| && s.objects[i].cls != 0
    ensures var make, drop := NewStep(s.objects[i].cls, true, false, 0), DestroyStep(|s.objects|);
      && Careful(s, make) && Careful(After(s, make), drop)
      && After(After(s, make), drop) == s
  {
    hide AllOwned;
    IsHeld(s, i);
    var made := After(s, NewStep(s.objects[i].cls, true, false, 0));
    assert made.objects[|s.objects|] == Fields(s.objects[i].cls, 0, false);
    assert Without(made.objects, |s.objects|) == s.objects;
    assert s.jvm.AfterDitch(Fields(s.objects[i].cls, 0, false)) == s.jvm;
  }

  /** Once all objects are gone, so are all global references. */
  lemma NothingLeaks(s: State)
    requires OwnedOnce(s) && s.objects == []
    ensures s.jvm.live == {}
  {
    forall r ensures r !in s.jvm.live {
      assert r in s.jvm.live <==> r in multiset(s.jvm.live);
    }
  }

  // ---------- Two inputs that misuse JNI ----------

  lemma AfterCons(s: State, step: Step, rest: seq<Step>)
    requires Possible(s, step) && PossibleAll(After(s, step), rest)
    ensures PossibleAll(s, [step] + rest) && AfterAll(s, [step] + rest) == AfterAll(After(s, step), rest)
  {
    assert ([step] + rest)[1..] == rest;
  }

  lemma AfterThree(s: State, a: Step, b: Step, c: Step)
    requires Possible(s, a) && Possible(After(s, a), b) && Possible(After(After(s, a), b), c)
    ensures PossibleAll(s, [a, b, c]) && AfterAll(s, [a, b, c]) == After(After(After(s, a), b), c)
  {
    hide After, Possible;
    AfterCons(After(After(s, a), b), c, []);
    AfterCons(After(s, a), b, [c]);
    AfterCons(s, a, [b, c]);
    assert [c] + [] == [c] && [b] + [c] == [b, c] && [a] + [b, c] == [a, b, c];
  }

  /** An object, its class, and a temporary on that class: assigning the temporary to the object misuses JNI, although
      each reference was live when it was used. */
  lemma AssignOwnClass(local: Ref, object0: Ref, class0: Ref, name: Ref)
    requires 0 < local < object0 < class0 < name
    ensures var s := State([], Jvm({}, {local}, false));
      var steps := [NewStep(local, false, false, object0), GetClassStep(0, class0), NewStep(class0, true, false, 0)];
      && PossibleAll(s, steps)
      && var t := AfterAll(s, steps);
         && t == State([Fields(object0, class0, true), Fields(class0, 0, false)],
                       Jvm({object0, class0}, {local}, false))
         && OwnedOnce(t) && t.jvm.Usable(class0)
         && Possible(t, CopyAssignStep(0, 1, name)) && After(t, CopyAssignStep(0, 1, name)).jvm.misused
  {
    var s := State([], Jvm({}, {local}, false));
    var a, b, c := NewStep(local, false, false, object0), GetClassStep(0, class0), NewStep(class0, true, false, 0);
    var s1 := After(s, a);
    assert s1 == State([Fields(object0, 0, true)], Jvm({object0}, {local}, false));
    var s2 := After(s1, b);
    assert s2 == State([Fields(object0, class0, true)], Jvm({object0, class0}, {local}, false));
    var s3 := After(s2, c);
    assert s3 == State([Fields(object0, class0, true), Fields(class0, 0, false)],
        Jvm({object0, class0}, {local}, false));
    AfterThree(s, a, b, c);
    RunMisusesIff(s, [a, b, c]);
  }

  /** An object that a null one is assigned to: copying it then misuses JNI. */
  lemma CopyAfterNull(local: Ref, object0: Ref, name: Ref)
    requires 0 < local < object0 < name
    ensures var s := State([], Jvm({}, {local}, false));
      var steps := [NewStep(local, false, false, object0), DefaultStep, CopyAssignStep(0, 1, 0)];
      && PossibleAll(s, steps)
      && var t := AfterAll(s, steps);
         && t == State([Fields(object0, 0, false), NULL_FIELDS], Jvm({}, {local}, false)) && OwnedOnce(t)
         && Possible(t, CopyStep(0, name)) && After(t, CopyStep(0, name)).jvm.misused
  {
    var s := State([], Jvm({}, {local}, false));
    var a, b, c := NewStep(local, false, false, object0), DefaultStep, CopyAssignStep(0, 1, 0);
    var s1 := After(s, a);
    assert s1 == State([Fields(object0, 0, true)], Jvm({object0}, {local}, false));
    var s2 := After(s1, b);
    assert s2 == State([Fields(object0, 0, true), NULL_FIELDS], Jvm({object0}, {local}, false));
    var s3 := After(s2, c);
    assert s3 == State([Fields(object0, 0, false), NULL_FIELDS], Jvm({}, {local}, false));
    AfterThree(s, a, b, c);
    RunMisusesIff(s, [a, b, c]);
  }

  // ---------- Programs that run ----------

  ghost function FieldsOf(objects: seq<Object>): (r: seq<Fields>)
    reads objects
    ensures |r| == |objects| && forall i | 0 <= i < |r| :: r[i] == objects[i].fields
  {
    seq(|objects|, i requires 0 <= i < |objects| reads objects => objects[i].fields)
  }

  ghost predicate Distinct(objects: seq<Object>) {
    forall i, j | 0 <= i < j < |objects| :: objects[i] != objects[j]
  }

  lemma FieldsAppended(objects: seq<Object>, o: Object)
    ensures FieldsOf(objects + [o]) == FieldsOf(objects) + [o.fields]
  {}

  lemma DistinctAppended(objects: seq<Object>, o: Object)
    requires Distinct(objects) && o !in objects
    ensures Distinct(objects + [o])
  {}

  lemma DistinctWithout(objects: seq<Object>, i: nat)
    requires Distinct(objects) && i < |objects|
    ensures Distinct(Without(objects, i)) && forall o | o in Without(objects, i) :: o in objects
  {}

  lemma FieldsWithout(objects: seq<Object>, i: nat)
    requires i < |objects|
    ensures FieldsOf(Without(objects, i)) == Without(FieldsOf(objects), i)
  {}

  class Program {
    const env: Env
    var objects: seq<Object>

    ghost function View(): State
      reads this, env, objects
    {
      State(FieldsOf(objects), env.View())
    }

    ghost predicate Valid()
      reads this, env, objects
    {
      OwnedOnce(View()) && Distinct(objects)
    }

    constructor (locals: set<Ref>)
      requires 0 !in locals
      ensures Valid() && View() == State([], Jvm({}, locals, false)) && fresh(env)
    {
      env := new Env(locals);
      objects := [];
    }

    method Remove(target: nat)
      requires Valid() && target < |objects|
      modifies this`objects, env
      ensures Valid() && View() == After(old(View()), DestroyStep(target))
      ensures objects == Without(old(objects), target) && forall o | o in objects :: o in old(objects)
    {
      ghost var before := View();
      hide OwnedOnce, FieldsOf, Without, Distinct;
      KeepsOwnedOnce(before, DestroyStep(target));
      DistinctWithout(objects, target);
      objects[target].Destroy(env);
      assert FieldsOf(objects) == before.objects;
      FieldsWithout(objects, target);
      objects := Without(objects, target);
    }

    /** The constructions: one more object, and it is new. */
    method Construct(step: Step) returns (o: Object)
      requires Valid() && Possible(View(), step)
      requires step.DefaultStep? || step.NewStep? || step.CopyStep? || step.MoveStep?
      modifies env, objects
      ensures fresh(o) && objects == old(objects)
      ensures o !in old(objects)
      ensures State(FieldsOf(objects) + [o.fields], env.View()) == After(old(View()), step)
    {
      if step.DefaultStep? {
        o := new Object();
      } else if step.NewStep? {
        o := new Object.FromRef(env, step.ref, step.temporary, step.deleteLocalInput, step.name);
      } else if step.CopyStep? {
        o := new Object.Copy(env, objects[step.source], step.name);
      } else {
        o := new Object.Move(objects[step.source]);
      }
    }

    method Add(step: Step)
      requires Valid() && Possible(View(), step)
      requires step.DefaultStep? || step.NewStep? || step.CopyStep? || step.MoveStep?
      modifies this`objects, env, objects
      ensures Valid() && View() == After(old(View()), step)
      ensures forall o | o in objects :: o in old(objects) || fresh(o)
    {
      hide OwnedOnce, After, Possible, FieldsOf, Distinct;
      KeepsOwnedOnce(View(), step);
      var o := Construct(step);
      DistinctAppended(objects, o);
      FieldsAppended(objects, o);
      objects := objects + [o];
    }

    /** The assignments, and the first use of a class. */
    method Update(step: Step)
      requires Valid() && Possible(View(), step)
      requires step.CopyAssignStep? || step.MoveAssignStep? || step.GetClassStep?
      modifies env, objects
      ensures Valid() && objects == old(objects) && View() == After(old(View()), step)
    {
      hide OwnedOnce, FieldsOf;
      KeepsOwnedOnce(View(), step);
      var target := objects[step.target];
      if step.CopyAssignStep? {
        target.CopyAssign(env, objects[step.source], step.name);
      } else if step.MoveAssignStep? {
        target.MoveAssign(env, objects[step.source]);
      } else {
        var _ := target.GetClass(env, step.name);
      }
      assert View().objects == After(old(View()), step).objects;
    }

    /** One operation, of any kind and on any objects. */
    method Perform(step: Step)
      requires Valid() && Possible(View(), step)
      modifies this`objects, env, objects
      ensures Valid() && View() == After(old(View()), step)
      ensures forall o | o in objects :: o in old(objects) || fresh(o)
    {
      hide OwnedOnce, After, FieldsOf, Distinct;
      if step.CopyAssignStep? || step.MoveAssignStep? || step.GetClassStep? {
        Update(step);
      } else if step.DestroyStep? {
        Remove(step.target);
      } else {
        Add(step);
      }
    }

    /** Any run of operations. */
    method Run(steps: seq<Step>)
      requires Valid() && PossibleAll(View(), steps)
      modifies this`objects, env, objects
      ensures Valid() && View() == AfterAll(old(View()), steps)
    {
      hide OwnedOnce, After, Possible, FieldsOf, Distinct;
      for i := 0 to |steps|
        invariant Valid() && forall o | o in objects :: o in old(objects) || fresh(o)
        invariant PossibleAll(View(), steps[i..]) && AfterAll(View(), steps[i..]) == AfterAll(old(View()), steps)
      {
        assert steps[i..][0] == steps[i] && steps[i..][1..] == steps[i + 1..];
        assert forall k | 0 <= k < |objects| :: objects[k] in objects;
        Perform(steps[i]);
      }
    }

    /** The destructors of all objects: no global reference is left, and JNI is not misused by it. */
    method DestroyAll()
      requires Valid()
      modifies this`objects, env
      ensures Valid() && objects == [] && env.live == {} && env.misused == old(env.misused)
    {
      while objects != []
        invariant Valid() && env.misused == old(env.misused)
        decreases |objects|
      {
        MisusesIff(View(), DestroyStep(|objects| - 1));
        Remove(|objects| - 1);
      }
      NothingLeaks(View());
    }
  }
}
