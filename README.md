# Meteor pool and ship counters of a 2D space shooter

This project models the two pieces of the game whose behaviour is exact sequential logic and proves properties about them:

- **The object pool** (`ObjectPooling`), in `pooling.dfy`, module `Pooling`. This is the list of reusable meteors. `Start` pre-fills it with `poolSize` inactive objects. `GetPooledObject` returns the first inactive object in list order. When every object is active it instead appends a new inactive object and returns that one. The meteor spawner activates the object it is given, and meteors are deactivated when they leave the screen.
- **The health and ammunition counters** (`HealthAndAmmo`), in `vitals.dfy`, module `Vitals`. `TakeDamage` subtracts damage from health and destroys the object once health is no longer positive. `UseAmmo` spends a round when one is left. `Reload` refills ammunition to its maximum.

Both components update their fields in place, so each is a Dafny `class`.

- `ObjectPooling.pool` is a `seq<bool>` holding the active flag of each pooled object, in list order. The pool only ever appends, so a position identifies the same object for the pool's whole lifetime. The engine's `Instantiate` becomes "append an entry" and `SetActive(b)` becomes a write of the flag.
- `HealthAndAmmo` keeps C#'s 32-bit `int` fields as a newtype `int32`. Its `alive` flag stands for the object not yet having been passed to `Destroy`.

Each class method is proved against a pure specification function:

- `Acquire` specifies `GetPooledObject`.
- `Started`, `Damaged`, `Fired`, `Reloaded` and `Died` specify the counter methods.

Lemmas about sequences of events state what holds over many calls:

- `Step`/`Run` with `Spawn` and `Despawn` events model the meteor spawner's use of the pool.
- `Apply`/`Run` with `Hit`, `Shoot` and `Reload` actions model any sequence of calls to the component's public `TakeDamage`, `UseAmmo` and `Reload`. No script in the game calls them, so these sequences are not taken from the game.

Nothing clamps health: `TakeDamage` subtracts without any bound (Assets/Script/HealthAndAmmo.cs:19), so health can end up negative.

## Model

| member | source | states |
|---|---|---|
| `Pooling.FirstInactive` | Assets/Script/ObjectPooling.cs:27-33 | the scan stops at an inactive entry, and every entry before it is active; it reaches the end only when every entry is active |
| `Pooling.Acquire` | Assets/Script/ObjectPooling.cs:24-40 | the entry handed out is in the pool and is inactive; existing entries are never removed, reordered or flipped, and the pool grows by at most one; if any entry is inactive, the pool is unchanged and the lowest inactive entry is handed out; if all are active, exactly one inactive entry is appended and handed out |
| `Pooling.AcquireIdempotent` | Assets/Script/ObjectPooling.cs:27-39 | a second call with no activation in between hands out the same entry and leaves the pool as the first call left it |
| `Pooling.SetActive` | Assets/Script/MeteorSpawner.cs:36 | writing an object's active flag changes that entry only and keeps the pool's length |
| `Pooling.SpawnActivatesOne` | Assets/Script/MeteorSpawner.cs:31-37 | taking an object and activating it raises the number of active objects by exactly one, and grows the pool exactly when every object was already active |
| `Pooling.StepBounds` | Assets/Script/ObjectPooling.cs:36-38 | one spawner event never shrinks the pool; a spawn grows it by at most one entry, only when it was full, and activates at most one object; a despawn keeps the length and does not raise the active count |
| `Pooling.RunGrowth` | Assets/Script/ObjectPooling.cs:36-38 | over any sequence of spawns and despawns the pool never shrinks and holds at most its initial size plus the number of spawns |
| `Pooling.RunActiveBound` | Assets/Script/MeteorSpawner.cs:31-37 | over any sequence of events the number of active objects rises by at most the number of spawns |
| `Pooling.RunSizeBound` | Assets/Script/ObjectPooling.cs:27-39 | the pool tracks peak use: if it starts within a bound and no more than that many objects are active at any point of a run, it never holds more entries than the bound, because it grows only when every object is in use |
| `Pooling.ObjectPooling.Start` | Assets/Script/ObjectPooling.cs:12-22 | after start the pool holds exactly `max(poolSize, 0)` entries, all inactive |
| `Pooling.ObjectPooling.GetPooledObject` | Assets/Script/ObjectPooling.cs:24-40 | the first-match scan with append-on-miss leaves the pool and returns the index exactly as `Acquire` specifies |
| `Pooling.ObjectPooling.Activate` | Assets/Script/MeteorSpawner.cs:36 | activates the given pooled object and changes nothing else |
| `Pooling.ObjectPooling.Deactivate` | Assets/Script/Meteor.cs:51 | deactivates the given pooled object and changes nothing else (the same write happens at Assets/Script/MeteorSpawner.cs:51) |
| `Pooling.SpawnMeteor` | Assets/Script/MeteorSpawner.cs:31-37 | the spawner gets an object that was inactive or is new, and puts it into play; the pool becomes `Step(old pool, Spawn)` |
| `Vitals.Started` | Assets/Script/HealthAndAmmo.cs:10-14 | start sets health to its maximum and ammunition to its maximum; with non-negative maximum ammo the ammo is in range, and with positive maximum health a living object has health left |
| `Vitals.Died` | Assets/Script/HealthAndAmmo.cs:47-52 | dying destroys the object and leaves every counter as it was |
| `Vitals.Damaged` | Assets/Script/HealthAndAmmo.cs:17-24 | health drops by exactly the damage, with no clamping; the object is destroyed if and only if health after the subtraction is at most zero (or it was already destroyed); ammunition and maxima are untouched |
| `Vitals.Fired` | Assets/Script/HealthAndAmmo.cs:27-38 | with ammunition left, exactly one round is spent; with none, nothing changes; health is untouched; `0 <= ammo <= max` is preserved |
| `Vitals.Reloaded` | Assets/Script/HealthAndAmmo.cs:41-44 | ammunition becomes the maximum whatever it was before; health is untouched; with non-negative maximum the ammo is in range |
| `Vitals.ReloadIdempotent` | Assets/Script/HealthAndAmmo.cs:41-44 | reloading twice is the same as reloading once |
| `Vitals.AmmoStaysInRange` | Assets/Script/HealthAndAmmo.cs:27-44 | if `0 <= ammo <= max` holds at the start, it holds after any sequence of hits, shots and reloads, so ammunition never goes negative |
| `Vitals.HealthAfterRun` | Assets/Script/HealthAndAmmo.cs:17-24 | after any sequence of actions, health is the starting health minus the total damage dealt; shots and reloads never change health, and the maxima never change |
| `Vitals.DeathIsFinal` | Assets/Script/HealthAndAmmo.cs:17-24 | a destroyed object stays destroyed whatever happens next; from a state where a living object has health left (for instance after `Start` with positive `maxHealth`), a living object keeps having health left |
| `Vitals.HealthAndAmmo.constructor` | Assets/Script/HealthAndAmmo.cs:5-8 | the field initialisers: maximum health 100, maximum ammo 10, counters at zero until `Start` |
| `Vitals.HealthAndAmmo.Start` | Assets/Script/HealthAndAmmo.cs:10-14 | the new state is `Started` of the old one |
| `Vitals.HealthAndAmmo.TakeDamage` | Assets/Script/HealthAndAmmo.cs:17-24 | on 32-bit fields, the new state is `Damaged` of the old one; `Die` is called exactly when health falls to zero or below |
| `Vitals.HealthAndAmmo.UseAmmo` | Assets/Script/HealthAndAmmo.cs:27-38 | the new state is `Fired` of the old one |
| `Vitals.HealthAndAmmo.Reload` | Assets/Script/HealthAndAmmo.cs:41-44 | the new state is `Reloaded` of the old one |
| `Vitals.HealthAndAmmo.Die` | Assets/Script/HealthAndAmmo.cs:47-52 | the new state is `Died` of the old one |

## Left out

- Vitals.HealthAndAmmo.TakeDamage: requires that `currentHealth - damage` fits in a 32-bit `int`. C#'s unchecked wrap-around on overflow is not modelled.
- Engine services are abstracted away:
  - `Instantiate` of the meteor prefab becomes appending an entry.
  - `Destroy(gameObject)` becomes clearing `alive`.
  - `activeInHierarchy` becomes the object's own active flag. Parent objects in the scene hierarchy are not modelled.
  - The deferral of `Destroy` to the end of the frame is not modelled.
- The pool's objects carry no data beyond their active flag. The prefab reference, positions and transforms are not modelled.
- The pool's state before `Start` is not modelled. The constructor is `Start`, and it takes `poolSize` as a parameter instead of an editor-set field.
- `Pooling.SetActive` on an index outside the pool changes nothing. The spawner only deactivates objects it took from the pool, so this case does not arise in the game.
- The "Out of ammo!" and "has died." debug log messages are I/O and are not modelled.
- These parts of the game are not part of this model:
  - meteor fall speed, position and the spawn timer (floating point, per-frame time);
  - `UpdateMeteors` beyond its deactivation write;
  - player movement and shooting, enemy patrol and respawn, power-ups, pickups, the HUD and the game timer.
