/**
 * The meteor object pool: a list of reusable game objects, each of which is
 * either active (in play) or inactive (parked, ready for reuse).
 *
 * A pooled object is represented by its position in the list together with
 * its active flag. The pool only ever appends, so a position names the same
 * object for the whole lifetime of the pool; the engine's `Instantiate` is
 * "append an entry" and `SetActive(b)` is a write of the flag.
 */
module Pooling {

  /** Index of the first inactive entry, or |flags| when every entry is active. */
  function FirstInactive(flags: seq<bool>): (i: nat)
    ensures i <= |flags|
    ensures forall j :: 0 <= j < i ==> flags[j]
    ensures i < |flags| ==> !flags[i]
  {
    if flags == [] || !flags[0] then 0 else 1 + FirstInactive(flags[1..])
  }

  /** Number of active entries. */
  function CountActive(flags: seq<bool>): (n: nat)
    ensures n <= |flags|
    ensures n == |flags| <==> forall j :: 0 <= j < |flags| ==> flags[j]
  {
    if flags == [] then 0 else (if flags[0] then 1 else 0) + CountActive(flags[1..])
  }

  /** The pool after a `GetPooledObject` call and the entry that call hands out. */
  datatype Acquired = Acquired(pool: seq<bool>, index: nat)

  /**
   * What `GetPooledObject` does: hand out the lowest inactive entry and leave
   * the pool as it is; when every entry is active, append one new inactive
   * entry and hand that out.
   */
  function Acquire(flags: seq<bool>): (a: Acquired)
    // the entry handed out belongs to the pool and is inactive
    ensures a.index < |a.pool| && !a.pool[a.index]
    // existing entries are neither removed, reordered nor flipped
    ensures |flags| <= |a.pool| <= |flags| + 1
    ensures forall j :: 0 <= j < |flags| ==> a.pool[j] == flags[j]
    // reuse: the lowest inactive entry, pool unchanged
    ensures (exists j :: 0 <= j < |flags| && !flags[j]) ==>
              a.pool == flags && forall j :: 0 <= j < a.index ==> flags[j]
    // grow on miss: one new inactive entry at the end, and it is the one handed out
    ensures (forall j :: 0 <= j < |flags| ==> flags[j]) ==>
              a.pool == flags + [false] && a.index == |flags|
  {
    var i := FirstInactive(flags);
    if i < |flags| then Acquired(flags, i) else Acquired(flags + [false], |flags|)
  }

  /** Writes the active flag of entry `i`; an index outside the pool names no pooled object. */
  function SetActive(flags: seq<bool>, i: nat, active: bool): (r: seq<bool>)
    ensures |r| == |flags|
    ensures forall j :: 0 <= j < |r| ==> r[j] == if j == i then active else flags[j]
  {
    if i < |flags| then flags[i := active] else flags
  }

  /** What the meteor spawner does with the pool. */
  datatype Event =
    | Spawn          // take an object from the pool and activate it
    | Despawn(i: nat) // a meteor left the screen: deactivate entry i

  function Step(flags: seq<bool>, e: Event): seq<bool>
  {
    match e
    case Spawn =>
      var a := Acquire(flags);
      a.pool[a.index := true]
    case Despawn(i) => SetActive(flags, i, false)
  }

  function Run(flags: seq<bool>, events: seq<Event>): seq<bool>
    decreases |events|
  {
    if events == [] then flags else Run(Step(flags, events[0]), events[1..])
  }

  function Spawns(events: seq<Event>): nat
  {
    if events == [] then 0 else (if events[0].Spawn? then 1 else 0) + Spawns(events[1..])
  }

  lemma {:induction false} CountActiveSet(flags: seq<bool>, i: nat, active: bool)
    requires i < |flags|
    ensures CountActive(flags[i := active]) ==
              CountActive(flags) - (if flags[i] then 1 else 0) + (if active then 1 else 0)
  {
    if i > 0 {
      assert flags[i := active][1..] == flags[1..][i - 1 := active];
      CountActiveSet(flags[1..], i - 1, active);
    }
  }

  lemma {:induction false} CountActiveAppendInactive(flags: seq<bool>)
    ensures CountActive(flags + [false]) == CountActive(flags)
  {
    if flags != [] {
      assert (flags + [false])[1..] == flags[1..] + [false];
      CountActiveAppendInactive(flags[1..]);
    }
  }

  /**
   * A spawn activates exactly one more object, and it grows the pool exactly
   * when every object was already active.
   */
  lemma SpawnActivatesOne(flags: seq<bool>)
    ensures CountActive(Step(flags, Spawn)) == CountActive(flags) + 1
    ensures |Step(flags, Spawn)| == if CountActive(flags) == |flags| then |flags| + 1 else |flags|
  {
    var a := Acquire(flags);
    if CountActive(flags) == |flags| {
      CountActiveAppendInactive(flags);
    }
    CountActiveSet(a.pool, a.index, true);
  }

  /** Two calls with no activation in between hand out the same entry, and the second changes nothing. */
  lemma AcquireIdempotent(flags: seq<bool>)
    ensures Acquire(Acquire(flags).pool) == Acquire(flags)
  {
  }

  /** What one spawner event can do to the pool's length and active count. */
  lemma StepBounds(flags: seq<bool>, e: Event)
    ensures var n := if e.Spawn? then 1 else 0;
      |flags| <= |Step(flags, e)| <= |flags| + n &&
      CountActive(Step(flags, e)) <= CountActive(flags) + n &&
      (|Step(flags, e)| == |flags| || |Step(flags, e)| == CountActive(flags) + n)
  {
    match e
    case Spawn =>
      SpawnActivatesOne(flags);
    case Despawn(i) =>
      if i < |flags| {
        CountActiveSet(flags, i, false);
      }
  }

  /** Over any run of the spawner the pool never shrinks and grows by at most one entry per spawn. */
  lemma {:induction false} RunGrowth(flags: seq<bool>, events: seq<Event>)
    ensures |flags| <= |Run(flags, events)| <= |flags| + Spawns(events)
    decreases |events|
  {
    if events != [] {
      StepBounds(flags, events[0]);
      RunGrowth(Step(flags, events[0]), events[1..]);
    }
  }

  /** Over any run of the spawner at most one object becomes active per spawn. */
  lemma {:induction false} RunActiveBound(flags: seq<bool>, events: seq<Event>)
    ensures CountActive(Run(flags, events)) <= CountActive(flags) + Spawns(events)
    decreases |events|
  {
    if events != [] {
      StepBounds(flags, events[0]);
      RunActiveBound(Step(flags, events[0]), events[1..]);
    }
  }

  /** Running the first k + 1 events is running the first event and then k of the rest. */
  lemma RunPrefix(flags: seq<bool>, events: seq<Event>, k: nat)
    requires k < |events|
    ensures Run(flags, events[..k + 1]) == Run(Step(flags, events[0]), events[1..][..k])
  {
    assert events[..k + 1][0] == events[0];
    assert events[..k + 1][1..] == events[1..][..k];
  }

  /**
   * The pool tracks peak use: if no more than `bound` objects are ever
   * active at once during a run, and the pool starts within `bound`, it
   * never holds more than `bound` entries, because it grows only when every
   * object is in use.
   */
  lemma {:induction false} RunSizeBound(flags: seq<bool>, events: seq<Event>, bound: int)
    requires |flags| <= bound
    requires forall k :: 0 <= k <= |events| ==> CountActive(Run(flags, events[..k])) <= bound
    ensures |Run(flags, events)| <= bound
    decreases |events|
  {
    if events != [] {
      var next, rest := Step(flags, events[0]), events[1..];
      assert Run(flags, events) == Run(next, rest);
      assert CountActive(next) <= bound by {
        RunPrefix(flags, events, 0);
        assert Run(flags, events[..1]) == next;
      }
      assert |next| <= bound by {
        StepBounds(flags, events[0]);
        if events[0].Spawn? {
          SpawnActivatesOne(flags);
        }
      }
      forall k | 0 <= k <= |rest|
        ensures CountActive(Run(next, rest[..k])) <= bound
      {
        RunPrefix(flags, events, k);
        assert CountActive(Run(flags, events[..k + 1])) <= bound;
      }
      RunSizeBound(next, rest, bound);
    }
  }

  function Max(a: int, b: int): int
  {
    if a < b then b else a
  }

  /** The component that owns the pool. */
  class ObjectPooling {
    /** The active flag of every pooled object, in list order. */
    var pool: seq<bool>

    /** `Start`: pre-fill the pool with `poolSize` inactive objects (none when `poolSize` is not positive). */
    constructor Start(poolSize: int)
      ensures |pool| == Max(poolSize, 0)
      ensures forall j :: 0 <= j < |pool| ==> !pool[j]
    {
      pool := [];
      new;
      var i := 0;
      while i < poolSize
        invariant 0 <= i && (i <= poolSize || i == 0)
        invariant |pool| == i
        invariant forall j :: 0 <= j < |pool| ==> !pool[j]
      {
        pool := pool + [false];
        i := i + 1;
      }
    }

    /** Returns the first inactive pooled object, or a newly appended one when all are active. */
    method GetPooledObject() returns (index: nat)
      modifies this
      ensures Acquired(pool, index) == Acquire(old(pool))
    {
      var i := 0;
      while i < |pool|
        invariant i <= |pool|
        invariant forall j :: 0 <= j < i ==> pool[j]
      {
        if !pool[i] {
          return i;
        }
        i := i + 1;
      }
      pool := pool + [false];
      index := |pool| - 1;
    }

    /** The caller puts the object it was handed into play. */
    method Activate(i: nat)
      requires i < |pool|
      modifies this
      ensures pool == SetActive(old(pool), i, true)
    {
      pool := pool[i := true];
    }

    /** An object leaves play and returns to the pool. */
    method Deactivate(i: nat)
      requires i < |pool|
      modifies this
      ensures pool == SetActive(old(pool), i, false)
    {
      pool := pool[i := false];
    }
  }

  /**
   * The meteor spawner's use of the pool: take an object and put it into
   * play. The object handed out was parked and is now the one in play.
   */
  method SpawnMeteor(objectPool: ObjectPooling) returns (meteor: nat)
    modifies objectPool
    ensures objectPool.pool == Step(old(objectPool.pool), Spawn)
    ensures meteor < |objectPool.pool| && objectPool.pool[meteor]
    ensures meteor < |old(objectPool.pool)| ==> !old(objectPool.pool)[meteor]
  {
    meteor := objectPool.GetPooledObject();
    objectPool.Activate(meteor);
  }
}
