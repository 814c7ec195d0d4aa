/**
 * The health and ammunition counters of a ship. All of the arithmetic is on
 * C#'s 32-bit `int`; death ends the object's lifetime, which is represented
 * here by an `alive` flag that becomes false.
 */
module Vitals {

  /** C#'s 32-bit `int`. */
  newtype int32 = x: int | -0x8000_0000 <= x < 0x8000_0000

  /** The counters as unbounded integers, and whether the object still exists. */
  datatype Stats = Stats(maxHealth: int, currentHealth: int, maxAmmo: int, currentAmmo: int, alive: bool)

  /** Ammunition is within its bounds. */
  predicate AmmoInRange(s: Stats)
  {
    0 <= s.currentAmmo <= s.maxAmmo
  }

  /** A living object has health left. */
  predicate Healthy(s: Stats)
  {
    s.alive ==> s.currentHealth > 0
  }

  /** `Start`: both counters are filled to their maxima. */
  function Started(s: Stats): (t: Stats)
    ensures t.currentHealth == t.maxHealth == s.maxHealth
    ensures t.currentAmmo == t.maxAmmo == s.maxAmmo
    ensures t.alive == s.alive
    ensures s.maxAmmo >= 0 ==> AmmoInRange(t)
    ensures s.maxHealth > 0 ==> Healthy(t)
  {
    s.(currentHealth := s.maxHealth, currentAmmo := s.maxAmmo)
  }

  /** `Die`: the object is destroyed; its counters are left as they were. */
  function Died(s: Stats): (t: Stats)
    ensures !t.alive
    ensures t == Stats(s.maxHealth, s.currentHealth, s.maxAmmo, s.currentAmmo, false)
  {
    s.(alive := false)
  }

  /**
   * `TakeDamage`: health drops by exactly `damage` (a negative damage heals,
   * and nothing clamps the result), and the object dies when health is no
   * longer positive. Ammunition is not touched.
   */
  function Damaged(s: Stats, damage: int): (t: Stats)
    ensures t.currentHealth == s.currentHealth - damage
    ensures t.alive <==> s.alive && t.currentHealth > 0
    ensures t.maxHealth == s.maxHealth && t.maxAmmo == s.maxAmmo && t.currentAmmo == s.currentAmmo
    ensures Healthy(t)
  {
    var hit := s.(currentHealth := s.currentHealth - damage);
    if hit.currentHealth <= 0 then Died(hit) else hit
  }

  /**
   * `UseAmmo`: one round is spent when there is one; otherwise ("out of
   * ammo") nothing changes. Health is not touched.
   */
  function Fired(s: Stats): (t: Stats)
    ensures s.currentAmmo > 0 ==> t.currentAmmo == s.currentAmmo - 1
    ensures s.currentAmmo <= 0 ==> t == s
    ensures t.maxHealth == s.maxHealth && t.currentHealth == s.currentHealth
    ensures t.maxAmmo == s.maxAmmo && t.alive == s.alive
    ensures AmmoInRange(s) ==> AmmoInRange(t)
  {
    if s.currentAmmo > 0 then s.(currentAmmo := s.currentAmmo - 1) else s
  }

  /** `Reload`: ammunition is refilled to the maximum, whatever it was. Health is not touched. */
  function Reloaded(s: Stats): (t: Stats)
    ensures t.currentAmmo == t.maxAmmo == s.maxAmmo
    ensures t.maxHealth == s.maxHealth && t.currentHealth == s.currentHealth && t.alive == s.alive
    ensures s.maxAmmo >= 0 ==> AmmoInRange(t)
  {
    s.(currentAmmo := s.maxAmmo)
  }

  /** Reloading twice is the same as reloading once. */
  lemma ReloadIdempotent(s: Stats)
    ensures Reloaded(Reloaded(s)) == Reloaded(s)
  {
  }

  /** A call to one of the component's public methods; no script in the game calls them. */
  datatype Action = Hit(damage: int) | Shoot | Reload

  function Apply(s: Stats, a: Action): Stats
  {
    match a
    case Hit(damage) => Damaged(s, damage)
    case Shoot => Fired(s)
    case Reload => Reloaded(s)
  }

  function Run(s: Stats, actions: seq<Action>): Stats
    decreases |actions|
  {
    if actions == [] then s else Run(Apply(s, actions[0]), actions[1..])
  }

  function TotalDamage(actions: seq<Action>): int
  {
    if actions == [] then 0
    else (if actions[0].Hit? then actions[0].damage else 0) + TotalDamage(actions[1..])
  }

  /** Ammunition that starts within its bounds stays within them, so it never goes negative. */
  lemma {:induction false} AmmoStaysInRange(s: Stats, actions: seq<Action>)
    requires AmmoInRange(s)
    ensures AmmoInRange(Run(s, actions))
    decreases |actions|
  {
    if actions != [] {
      AmmoStaysInRange(Apply(s, actions[0]), actions[1..]);
    }
  }

  /**
   * Health after any run is the starting health minus the sum of all damage
   * taken; the maxima never change.
   */
  lemma {:induction false} HealthAfterRun(s: Stats, actions: seq<Action>)
    ensures Run(s, actions).currentHealth == s.currentHealth - TotalDamage(actions)
    ensures Run(s, actions).maxHealth == s.maxHealth && Run(s, actions).maxAmmo == s.maxAmmo
    decreases |actions|
  {
    if actions != [] {
      HealthAfterRun(Apply(s, actions[0]), actions[1..]);
    }
  }

  /**
   * Whatever happens afterwards, a destroyed object stays destroyed; and from
   * a state where a living object has health left (for instance after `Start`
   * with a positive `maxHealth`), a living object keeps having health left.
   */
  lemma {:induction false} DeathIsFinal(s: Stats, actions: seq<Action>)
    requires Healthy(s)
    ensures !s.alive ==> !Run(s, actions).alive
    ensures Healthy(Run(s, actions))
    decreases |actions|
  {
    if actions != [] {
      DeathIsFinal(Apply(s, actions[0]), actions[1..]);
    }
  }

  /** The component; the engine's `Destroy(gameObject)` is modelled by clearing `alive`. */
  class HealthAndAmmo {
    var maxHealth: int32
    var currentHealth: int32
    var maxAmmo: int32
    var currentAmmo: int32
    var alive: bool

    function State(): Stats
      reads this
    {
      Stats(maxHealth as int, currentHealth as int, maxAmmo as int, currentAmmo as int, alive)
    }

    /** The field initialisers: maxima of 100 health and 10 rounds, counters at C#'s default of zero. */
    constructor ()
      ensures State() == Stats(100, 0, 10, 0, true)
    {
      maxHealth, currentHealth := 100, 0;
      maxAmmo, currentAmmo := 10, 0;
      alive := true;
    }

    method Start()
      modifies this
      ensures State() == Started(old(State()))
    {
      currentHealth := maxHealth;
      currentAmmo := maxAmmo;
    }

    /** The caller's damage must not overflow C#'s `int`. */
    method TakeDamage(damage: int32)
      requires -0x8000_0000 <= currentHealth as int - damage as int < 0x8000_0000
      modifies this
      ensures State() == Damaged(old(State()), damage as int)
    {
      currentHealth := currentHealth - damage;
      if currentHealth <= 0 {
        Die();
      }
    }

    method UseAmmo()
      modifies this
      ensures State() == Fired(old(State()))
    {
      if currentAmmo > 0 {
        currentAmmo := currentAmmo - 1;
      }
    }

    method Reload()
      modifies this
      ensures State() == Reloaded(old(State()))
    {
      currentAmmo := maxAmmo;
    }

    method Die()
      modifies this
      ensures State() == Died(old(State()))
    {
      alive := false;
    }
  }
}
