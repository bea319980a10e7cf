# Storage fill-threshold postfix

A Dafny model of the fill-threshold postfix that this game mod attaches to the
host game's `StoreUtility.NoStorageBlockersIn` check. The host decides whether a
cell is free of things that block storing a thing there (`true` means free). The
postfix then may tighten that answer, but never relaxes it:

- a cell the host already found blocked stays blocked, and nothing else is read;
- otherwise the fill percentage is 100, or the value configured for the cell's
  slot group when the cell has a slot group with settings;
- the replaceable extension hook `CustomFilledEnough` is asked with that
  percentage. At start-up it always abstains. A verdict it gives becomes the
  result;
- when the hook abstains, the cell is blocked if some storable thing on it
  holds at least `stackLimit * fillPercent / 100` items.

The model lives in `storage_blockers.dfy`, module `StorageBlockers`:

- `NoStorageBlockersInPatch` is a class whose field `customFilledEnough` is the
  process-wide hook. `None` stands for a null field, which the source's `?.Invoke`
  treats as abstaining. Its method `FilledEnough` is the postfix. The by-reference
  result slot becomes an input `result` and an output `r`.
- The host's cell, map and thing are replaced by what the postfix reads from
  them. `Site` holds the cell coordinate, the optional slot group with its
  optional settings, and the things listed at the cell, each as a
  `(storable, stackCount)` record. `Candidate` holds the stack limit of the
  thing to store.
- `AnyBlocker` is the pure `Any` test over the things on the cell.
- `FilledEnoughSpec` states the whole decision declaratively. The lemmas about
  the postfix are stated about it.

## Notes on the behaviour

- `true` means free, and a hook verdict of `true` lets the cell through.
- At 0% a cell with nothing on it stays free (`ZeroFill`).
- The hook is asked at every fill percentage, 100 included (`HookSeesFillPercent`).

## Model

| member | source | states |
|---|---|---|
| `StorageBlockers.NoStorageBlockersInPatch.constructor` | Source/RSA/Patches/Storage/StoreUtility_NoStorageBlockersIn.cs:23 | the hook field starts out holding the hook that always abstains |
| `StorageBlockers.NoStorageBlockersInPatch.FilledEnough` | Source/RSA/Patches/Storage/StoreUtility_NoStorageBlockersIn.cs:27-42 | the imperative postfix leaves `true` only if the host said `true`, and its result is exactly the declarative decision `FilledEnoughSpec` under the hook currently installed |
| `StorageBlockers.Abstain` | Source/RSA/Patches/Storage/StoreUtility_NoStorageBlockersIn.cs:23 | the start-up hook gives no verdict for any cell, thing or percentage; `DefaultHookRule` states what the postfix then computes |
| `StorageBlockers.FillPercentAt` | Source/RSA/Patches/Storage/StoreUtility_NoStorageBlockersIn.cs:30-35 | the fill percentage is 100 when the cell has no slot group or null settings, and the configured value otherwise; `HookSeesFillPercent` states it for the whole postfix |
| `StorageBlockers.Consult` | Source/RSA/Patches/Storage/StoreUtility_NoStorageBlockersIn.cs:37 | a null hook field gives no verdict, and an installed hook's answer is passed on unchanged |
| `StorageBlockers.Blocks` | Source/RSA/Patches/Storage/StoreUtility_NoStorageBlockersIn.cs:41 | a thing blocks only if it is storable; the test is `stackCount >= stackLimit * fillPercent / 100` over reals, and `ScaledIntegerTest` states its exact integer form |
| `StorageBlockers.FilledEnoughSpec` | Source/RSA/Patches/Storage/StoreUtility_NoStorageBlockersIn.cs:27-42 | the decision as one expression; its result implies the host's answer, so "blocked" is never turned into "free" |
| `StorageBlockers.AnyBlocker` | Source/RSA/Patches/Storage/StoreUtility_NoStorageBlockersIn.cs:41 | the cell has a blocker iff some thing listed at it is storable and has `stackCount >= stackLimit * fillPercent / 100` |
| `StorageBlockers.BlockedStaysBlocked` | Source/RSA/Patches/Storage/StoreUtility_NoStorageBlockersIn.cs:29 | a host answer of `false` stays `false` for every slot group, list of things and hook |
| `StorageBlockers.HookSeesFillPercent` | Source/RSA/Patches/Storage/StoreUtility_NoStorageBlockersIn.cs:30-37 | the hook and the stack rule get 100 when the cell has no slot group or null settings, and the configured percentage otherwise |
| `StorageBlockers.VerdictOverrides` | Source/RSA/Patches/Storage/StoreUtility_NoStorageBlockersIn.cs:37-39 | on a free cell a non-null hook verdict is the result exactly, whatever the stack rule would say |
| `StorageBlockers.DefaultHookRule` | Source/RSA/Patches/Storage/StoreUtility_NoStorageBlockersIn.cs:23 | under the start-up hook, or a null hook field, the result is `result && !AnyBlocker(...)` at the cell's fill percentage |
| `StorageBlockers.HalfFullExample` | Source/RSA/Patches/Storage/StoreUtility_NoStorageBlockersIn.cs:41 | with stack limit 75 at 50%, a storable stack of 38 blocks the cell and one of 37 does not |
| `StorageBlockers.NonStorableIgnored` | Source/RSA/Patches/Storage/StoreUtility_NoStorageBlockersIn.cs:41 | two lists of things that agree on storability and on the counts of storable things give the same stack-rule answer, so the count of a non-storable thing never matters |
| `StorageBlockers.NonStorableNeverBlocks` | Source/RSA/Patches/Storage/StoreUtility_NoStorageBlockersIn.cs:41 | a cell holding only non-storable things has no blocker, whatever their counts |
| `StorageBlockers.AnyBlockerMonotone` | Source/RSA/Patches/Storage/StoreUtility_NoStorageBlockersIn.cs:41 | raising the fill percentage never creates a blocker |
| `StorageBlockers.DefaultRuleMonotone` | Source/RSA/Patches/Storage/StoreUtility_NoStorageBlockersIn.cs:30-41 | under the start-up hook, raising the slot group's configured fill percentage never turns a free cell into a blocked one |
| `StorageBlockers.ScaledIntegerTest` | Source/RSA/Patches/Storage/StoreUtility_NoStorageBlockersIn.cs:41 | for a whole percentage `p` the comparison is exactly `storable && 100 * stackCount >= stackLimit * p` |
| `StorageBlockers.AtLeastFullKeepsHostAnswer` | Source/RSA/Patches/Storage/StoreUtility_NoStorageBlockersIn.cs:30-41 | under the start-up hook, at a fill percentage of 100 or more, the host's answer is kept on every cell where no storable thing holds a full stack |
| `StorageBlockers.FullPercentIsFullStack` | Source/RSA/Patches/Storage/StoreUtility_NoStorageBlockersIn.cs:30-41 | at the default 100% a thing blocks iff it is storable and holds at least a full stack |
| `StorageBlockers.ZeroFill` | Source/RSA/Patches/Storage/StoreUtility_NoStorageBlockersIn.cs:41 | at 0% any storable thing with a non-negative count blocks, while an empty cell stays free |

## Left out

- Harmony patching (`[HarmonyPatch]`, `[HarmonyPostfix]`): the postfix is a plain method from the host's answer to the new answer.
- The host lookups `GetSlotGroup`, `StorageSettings_Mapping.Get`, `ThingsListAt` and `EverStorable` are not modelled. Their outputs are inputs of the model (`Site`). `StorageSettings_Mapping` is not part of this model.
- Single-precision float rounding in `stackLimit * (fillPercent / 100f)`: the comparison is modelled exactly over reals.
- The `volatile` qualifier on the hook field, and thread safety when the hook is swapped: concurrency is not modelled.
- Chaining hooks (`existing ?? custom`) and the capacity-based hook built in Source/RSA/[CustomLogic]/HoldMultipleThings.cs: they depend on a foreign assembly found by reflection, so no chaining laws are stated. The model takes any hook as a total function.
- The bills-tab UI (Source/_ITab_Bills.cs) and the mod bootstrap and settings window (Source/RSA/RSAMod.cs): drawing and plumbing with no contract apart from the host.
