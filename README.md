# Reactive pipeline core of Ractive, modelled in Dafny

This project models three self-contained pieces of Ractive's reactive
update pipeline and proves properties about them:

- **Keypath resolution** (`src/shared/resolveRef.js`). It maps a template
  reference to a keypath in the data store.
  - Relative references (`.`, `../`, `./x`, `.x`) are resolved against the
    fragment's inner context. Too many `../` prefixes are an error.
  - Other references are looked up in the fragment chain, nearest first.
    Then come the root data, then the parent component, then the fallbacks.
  - Modules `Keypaths` (`keypaths.dfy`) and `ResolveRef` (`resolve_ref.dfy`).
- **The frame scheduler** (`src/shared/animations.js`). One queue of
  animations is advanced once per display frame. Finished entries are
  removed in place, with index compensation. The driver asks for exactly
  one further frame, or goes idle. Module `Animations` (`animations.dfy`).
- **Array helpers** (`src/utils/array.js`): `arrayContains`,
  `arrayContentsMatch` and `removeFromArray`. Module `ArrayUtils`
  (`arrays.dfy`).

`Wrappers` (`wrappers.dfy`) holds `Option` (a value or JavaScript's
`undefined`) and `Result` (a value, or the message of a thrown error).

## How the source maps onto the model

- **Code that changes state is imperative Dafny.**
  - The scheduler is a class `Scheduler`. Its fields are `queue`, `running`,
    a `framesRequested` counter (standing for `requestAnimationFrame`,
    which is not modelled), a `framesServed` counter and logs of the
    `tick`/`stop` calls.
  - Its methods are `Tick`, `Add`, `Abort` and `OnFrame` (the frame
    callback). Each states its whole new state in terms of pure functions
    (`Survivors`, `Calls`, `StopOrder`).
  - `Valid()` says three things hold at rest. The scheduler runs exactly
    when the queue is non-empty. Exactly one frame is pending while it
    runs. None is pending when it is idle.
- **Animations are records.** `Animation` holds `id`, `root` and
  `keypath`. What an animation's own `tick(now)` returns is an oracle
  parameter, `continues`. `now` (from `getTime`) is a parameter too, one per
  pass.
- **A view instance is a class `Ractive`.** Resolution changes only two of
  its fields: `viewmodel`, a map from keypath to a small `Value` datatype,
  and `bindings`, a log of the `createComponentBinding` calls.
  - Its `parent`, `isolated` flag, root-data keys (`data`) and the chain of
    its component's host fragment (`host`) are constants.
  - `ResolveUnrestricted` recurses into the parent instance, as the source
    does. It is proved equal to the pure function `Unrestricted`, which
    works over the list of instance states (`Scope`s), nearest first.
- **Fragments are values.** Each holds a `context` and `indexRefs`. The
  fragment chain is a sequence, nearest first.
- **Relative references.** `ResolveAncestorReference` pops context
  segments in a loop. It is proved equal to the pure function `Ancestor`.
- **JavaScript arrays** are a class `JsArray` whose `items` sequence
  `removeFromArray` reassigns. `isArray` is modelled by the `Operand`
  datatype: an array, or anything else.

Three behaviours of the code that are easy to misread:
- A restricted reference with no context has a leading `.` *or* `./`
  stripped, not only `./`.
- `abort` only calls `stop`. It never removes entries itself.
- A parent keypath that is the empty string is falsy in `if (keypath)`, so
  it creates no binding.

## Model

| member | source | states |
|---|---|---|
| `ArrayUtils.ArrayContains` | src/utils/array.js:3-11 | true iff some element equals the value; false for an empty array |
| `ArrayUtils.ArrayContentsMatch` | src/utils/array.js:13-32 | false if either argument is not an array or the lengths differ; true iff both are arrays of equal length that agree at every position |
| `ArrayUtils.SameContentsIsEquality` | src/utils/array.js:24-31 | agreeing position by position at equal length is exactly list equality |
| `ArrayUtils.SameContentsSymmetric` | src/utils/array.js:24-31 | the contents comparison is symmetric |
| `ArrayUtils.IndexOf` | src/utils/array.js:35 | -1 iff the member is absent; otherwise an index holding it, with no earlier occurrence |
| `ArrayUtils.RemoveFromArray` | src/utils/array.js:34-39 | the array afterwards is the old one with its first occurrence of the member taken out (`WithoutFirst`) |
| `ArrayUtils.SpliceAtIndexOf` | src/utils/array.js:35-38 | splicing out the element at `indexOf` is the same as removing the first occurrence |
| `ArrayUtils.WithoutFirstAbsent` | src/utils/array.js:37 | an absent member leaves the array unchanged |
| `ArrayUtils.WithoutFirstPresent` | src/utils/array.js:35-39 | a present member makes the array one shorter; exactly one copy of it goes; later duplicates and every other element stay, in order |
| `Animations.Scheduler.constructor` | src/shared/animations.js:11-13 | the scheduler starts idle with an empty queue and no frame requested |
| `Animations.Scheduler.Tick` | src/shared/animations.js:14-33 | one `tick(now)` per entry in index order with one shared `now`; the queue becomes exactly the entries whose tick answered true, in order; a non-empty queue requests one more frame and keeps `running`; an empty one clears `running` and requests none; a queue of distinct identities stays distinct |
| `Animations.Scheduler.Add` | src/shared/animations.js:35-42 | on a running scheduler, only appends; on an idle one, sets `running` and runs one synchronous pass over the appended animation; keeps `Valid` |
| `Animations.Scheduler.OnFrame` | src/shared/animations.js:28-29 | the requested frame callback runs one pass and keeps `Valid`: running iff entries remain, with one frame pending iff running; a queue of distinct identities stays distinct |
| `Animations.Scheduler.Abort` | src/shared/animations.js:45-55 | `stop` is called on all and only the entries whose root and keypath both match, from the last index to the first; the queue is untouched |
| `Animations.SurvivorsMembership` | src/shared/animations.js:19-26 | an animation is kept by a pass iff it was queued and its tick answered true |
| `Animations.SurvivorsComplete` | src/shared/animations.js:19-26 | no continuing entry is skipped by the in-place removal |
| `Animations.SourceIndex` | src/shared/animations.js:19-26 | each kept entry comes from a position of the old queue whose tick answered true |
| `Animations.SourceIndexIncreasing` | src/shared/animations.js:19-26 | kept entries keep their original relative order |
| `Animations.SurvivorsEmpty` | src/shared/animations.js:28-32 | the scheduler goes idle after a pass iff every tick answered false |
| `Animations.SurvivorsDistinct` | src/shared/animations.js:19-26 | a pass keeps the identities in the queue distinct |
| `Animations.StopOrderMembership` | src/shared/animations.js:48-54 | abort stops exactly the matching entries |
| `Animations.StopOrderIsReversedMatching` | src/shared/animations.js:46-54 | abort visits the matching entries in reverse index order |
| `Animations.AnimationLifecycle` | src/shared/animations.js:14-42 | an animation whose tick answers true n-1 times, then false, is ticked exactly n times, once per frame in time order; the scheduler ends idle, empty, with no frame pending |
| `Keypaths.JoinSplit` | src/shared/resolveRef.js:85-99 | joining the segments of a split restores the keypath |
| `Keypaths.SplitJoin` | src/shared/resolveRef.js:85-99 | splitting a join of dot-free segments restores the segments |
| `Keypaths.Split` | src/shared/resolveRef.js:85 | a split has at least one segment, and no segment contains a dot |
| `Keypaths.JoinEnds` | src/shared/resolveRef.js:99 | `join('.')` on the context keys: no segments give the empty string, otherwise the result starts with the first segment and ends with the last |
| `Keypaths.LeadingParentsOf` | src/shared/resolveRef.js:88-96 | a reference made of N `../` and a remainder has exactly N prefixes popped, leaving that remainder |
| `Keypaths.JoinSnoc` | src/shared/resolveRef.js:98-99 | pushing a segment and joining appends a dot and the segment |
| `Keypaths.ResolveAncestorReference` | src/shared/resolveRef.js:79-108 | the segment-popping loop gives exactly `Ancestor`, including the thrown error |
| `Keypaths.DotIsInnerContext` | src/shared/resolveRef.js:83 | `.` is the inner context, unchanged |
| `Keypaths.AncestorPops` | src/shared/resolveRef.js:85-99 | N `../` under a context of at least N segments drop its last N segments and append the remainder, joined with dots |
| `Keypaths.AncestorOverflow` | src/shared/resolveRef.js:89-92 | more `../` than context segments, including with no context, is the "too many ../" error and no keypath |
| `Keypaths.RestrictedReferences` | src/shared/resolveRef.js:102-107 | `.x` and `./x` agree; with no context they give `x`; under context `c` they give `c.x` |
| `Keypaths.AncestorExamples` | src/shared/resolveRef.js:83-99 | `../../x` under `a.b.c` is `a.x`; under `a` it is the error; `.` under `a.b` is `a.b` |
| `ResolveRef.ResolveRef` | src/shared/resolveRef.js:12-21 | a reference starting with `.` goes to the ancestor resolver; any other is resolved by the unrestricted walk; the result and the new instance states are `Resolve` |
| `ResolveRef.ResolveUnrestricted` | src/shared/resolveRef.js:23-77 | the walk, root lookup, parent step and fallbacks, with their viewmodel writes and bindings, are exactly `Unrestricted` |
| `ResolveRef.FindContext` | src/shared/resolveRef.js:26-39 | the do-while returns `context + '.' + ref` for the nearest matching fragment; otherwise nothing, and whether any fragment had a context |
| `ResolveRef.NearestMatch` | src/shared/resolveRef.js:26-39 | the chosen fragment has a context whose value is an object holding the key, and no nearer fragment does; none is chosen only if no fragment matches |
| `ResolveRef.Unrestricted` | src/shared/resolveRef.js:24-77 | resolution never changes an instance's root data, `isolated` flag or host chain, nor the number of instances |
| `ResolveRef.RelativeReference` | src/shared/resolveRef.js:19-21 | a `.`-reference is the ancestor resolution of the inner context and changes no instance; `.` alone is that context |
| `ResolveRef.NearestContextWins` | src/shared/resolveRef.js:26-39 | the nearest matching fragment gives `context + '.' + ref`, shadowing farther ones, and nothing changes |
| `ResolveRef.ContextlessFragmentSkipped` | src/shared/resolveRef.js:27-31 | a fragment without a context in front of the chain changes neither the result nor any instance |
| `ResolveRef.PrimitiveContextNeverMatches` | src/shared/resolveRef.js:34-38 | a context whose value is not an object never matches; in front of a chain that has a context it changes nothing |
| `ResolveRef.RootDataResolves` | src/shared/resolveRef.js:41-44 | with no fragment matching, a first segment owned by the root data returns the reference itself, with no change |
| `ResolveRef.NoContextChainIsReference` | src/shared/resolveRef.js:68-72 | with no fragment having a context, the reference is returned as is, unless the index-reference shortcut applies |
| `ResolveRef.DefinedValueFallback` | src/shared/resolveRef.js:70-76 | an instance with a context chain that cannot look up any further returns the reference iff its viewmodel holds a defined value there, and undefined otherwise |
| `ResolveRef.IndexRefShortcut` | src/shared/resolveRef.js:48-57 | in a non-isolated child whose host fragment has the reference as an index ref, that index is stored under the reference, the result is undefined, and other instances are untouched |
| `ResolveRef.ParentBinding` | src/shared/resolveRef.js:58-66 | when the parent resolves to keypath `k`, the child copies the parent's value at `k` under the reference and records a binding to `k`; it then returns the reference unless it has a context chain and that value is undefined |
| `ResolveRef.WritesOnlyReference` | src/shared/resolveRef.js:48-66 | across all instances, resolution writes only the reference's own keypath and only adds bindings |

## Left out

- `normaliseKeypath` is not part of this model. References are taken to be
  already normalised. The parent step can therefore go straight to the
  unrestricted walk: the same reference cannot start with `.`.
- `getInnerContext` is not part of this model. Its result is the
  `innerContext` parameter of `ResolveRef.ResolveRef`.
- `viewmodel.get` (including its `evaluateWrapped` option) is a lookup in a
  map. `viewmodel.set` is a map update. Neither notifies dependants.
- `key in parentValue` reads the prototype chain of the value. The model
  keeps only the key set that `in` sees, in `Value.Object`. Functions count
  as objects. `null` counts as a primitive.
- `createComponentBinding` is not part of this model. Each call is recorded
  as a `Binding` in the child's log.
- The `indexRefBindings[keypath] = keypath` write (src/shared/resolveRef.js:54)
  is not modelled. It uses `keypath` while that variable is still undefined.
- `ResolveRef.ResolveRef` requires a non-empty fragment chain. For
  references that do not start with `.`, the source reads `fragment.context`
  on its first step (src/shared/resolveRef.js:27), so it needs a fragment.
  A reference starting with `.` hands the fragment to `getInnerContext`
  (src/shared/resolveRef.js:20), which is not part of this model, and the
  chain is not read. The precondition is therefore stronger than the source
  needs on that path.
- `requestAnimationFrame` and `getTime` are not part of this model. A
  request is a counter increment. The time is a parameter. `OnFrame` stands
  for the browser delivering the requested callback.
- The bodies of the animations' `tick` and `stop` are outside the core.
  `tick` is the `continues` oracle. `stop` is recorded in `stops`, so
  anything it does to the queue is not modelled. The reverse order of
  `abort` is therefore stated, but nothing depends on it here.
- Animations that throw inside `tick` are not modelled.
- `ArrayUtils.ArrayContentsMatch`: the source's strict `!==`
  (src/utils/array.js:26) is modelled as Dafny's equality, which is
  reflexive. So `NaN`, which is never strictly equal to itself, is not
  captured. JavaScript also compares objects by identity, while the model's
  element type may compare structurally.
- `ArrayUtils.IndexOf`: the same limit applies to the strict equality of
  `indexOf` (src/utils/array.js:35). `NaN` and object identity are not
  captured.
- `ArrayUtils.RemoveFromArray`: it finds its element with `indexOf`, so the
  same limit on strict equality applies.
- `Animations.Scheduler.Tick`: the `continues` oracle depends only on the
  animation record and `now`. So two queue entries holding the same record
  answer alike within one pass. The source's `add` does not check for
  duplicates (src/shared/animations.js:36). The model assumes that each
  queued animation has its own identity. `Tick` and `OnFrame` keep a queue
  of distinct identities distinct, but `Add` does not require the new
  animation to be absent. A `tick` that calls `add` or `abort` during a pass
  is not modelled either: the oracle cannot touch the queue, so in the model
  a pass never adds an entry. In the source an entry added mid-pass is
  pushed onto the queue (src/shared/animations.js:36) without a nested pass,
  since `running` is already set (src/shared/animations.js:38). The loop
  re-reads `queue.length` at every step (src/shared/animations.js:19), so
  the new entry is ticked in that same pass with the same `now`. `Add` and
  `OnFrame` run their pass through `Tick`, so this limit covers them too.
- `arrayContains` compares with JavaScript's loose `==`. The model uses
  equality on a single element type, so no coercion happens between
  different types.
- `src/virtualdom/items/Element/prototype/render.js` (DOM construction),
  `src/virtualdom/items/Section/_Section.js` (a constructor and a method
  table whose merge/splice/update code lives in other files) and
  `test/__tests/magic.js` (a DOM test harness) are not part of this model.
  So the section reconciliation engine is not modelled either.
