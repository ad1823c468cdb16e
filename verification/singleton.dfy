/** The adapter's lifetime: one static instance pointer, set by `Create`
    only when empty and cleared by `Destroy`. */
module Singleton {
  import opened Common
  import opened Toolkit

  /** An adapter instance: its identity and the screen rectangle its
      constructor sets from the window size. */
  datatype Instance = Instance(id: nat, screen: Rect)

  /** The static instance pointer, the identity the next allocation receives,
      and the instances removed from the engine's UI tree so far. */
  datatype Registry = Registry(singleton: Option<Instance>, nextId: nat, removed: seq<Instance>)

  /** The registry before the first `Create`: a null pointer. */
  const Initial: Registry := Registry(None, 0, [])

  /** A call of `Create` with a window size, or of `Destroy`. */
  datatype Op = CreateOp(width: Int32, height: Int32) | DestroyOp

  /** The registry after a run of calls, in order. */
  function Apply(reg: Registry, ops: seq<Op>): (r: Registry)
    ensures reg.nextId <= r.nextId
    ensures |reg.removed| <= |r.removed| && r.removed[..|reg.removed|] == reg.removed
  {
    if |ops| == 0 then reg
    else
      var m := Apply(reg, ops[..|ops| - 1]);
      match ops[|ops| - 1]
      case CreateOp(w, h) => Create(m, w, h)
      case DestroyOp => Destroy(m)
  }

  /** Allocates the instance, covering a `width` by `height` screen, unless
      one already exists. */
  function Create(reg: Registry, width: Int32, height: Int32): (r: Registry)
    ensures reg.singleton.Some? ==> r == reg
    ensures reg.singleton.None? ==>
      && r.singleton == Some(Instance(reg.nextId, Rect(0, 0, width, height)))
      && r.nextId == reg.nextId + 1
      && r.removed == reg.removed
  {
    if reg.singleton.None? then
      reg.(singleton := Some(Instance(reg.nextId, Rect(0, 0, width, height))), nextId := reg.nextId + 1)
    else reg
  }

  /** Removes an existing instance from the UI tree and clears the pointer;
      does nothing when there is none. */
  function Destroy(reg: Registry): (r: Registry)
    ensures r.singleton.None?
    ensures reg.singleton.Some? ==> r.removed == reg.removed + [reg.singleton.value] && r.nextId == reg.nextId
    ensures reg.singleton.None? ==> r == reg
  {
    match reg.singleton
    case None => reg
    case Some(inst) => reg.(singleton := None, removed := reg.removed + [inst])
  }

  /** Every identity handed out so far is below `nextId`. */
  ghost predicate Fresh(reg: Registry) {
    && (reg.singleton.Some? ==> reg.singleton.value.id < reg.nextId)
    && (forall i :: 0 <= i < |reg.removed| ==> reg.removed[i].id < reg.nextId)
  }

  /** A second `Create` changes nothing, whatever size it asks for. */
  lemma CreateIdempotent(reg: Registry, w1: Int32, h1: Int32, w2: Int32, h2: Int32)
    ensures Create(Create(reg, w1, h1), w2, h2) == Create(reg, w1, h1)
    ensures Create(reg, w1, h1).singleton.Some?
  {
  }

  /** A second `Destroy` changes nothing. */
  lemma DestroyIdempotent(reg: Registry)
    ensures Destroy(Destroy(reg)) == Destroy(reg)
  {
  }

  /** `Create` and `Destroy` keep identities fresh, so an instance created after
      a `Destroy` is a new object, never one that was removed. */
  lemma RecreateIsNew(reg: Registry, width: Int32, height: Int32)
    requires Fresh(reg)
    ensures Fresh(Destroy(reg)) && Fresh(Create(reg, width, height))
    ensures var r := Create(Destroy(reg), width, height);
      forall i :: 0 <= i < |r.removed| ==> r.removed[i] != r.singleton.value
  {
    var d := Destroy(reg);
    assert forall i :: 0 <= i < |d.removed| ==> d.removed[i].id < d.nextId by {
      forall i | 0 <= i < |d.removed|
        ensures d.removed[i].id < d.nextId
      {
        if i < |reg.removed| {
          assert d.removed[i] == reg.removed[i];
        }
      }
    }
  }

  /** Starting from a null pointer, identities stay fresh through any run of
      calls, so every instance created is distinct from all removed ones. */
  lemma {:induction false} AlwaysFresh(ops: seq<Op>)
    ensures Fresh(Apply(Initial, ops))
    ensures var r := Apply(Initial, ops);
      r.singleton.Some? ==> forall i :: 0 <= i < |r.removed| ==> r.removed[i] != r.singleton.value
  {
    if |ops| > 0 {
      var m := Apply(Initial, ops[..|ops| - 1]);
      AlwaysFresh(ops[..|ops| - 1]);
      match ops[|ops| - 1]
      case CreateOp(w, h) => RecreateIsNew(m, w, h);
      case DestroyOp => RecreateIsNew(m, 0, 0);
    }
  }
}
