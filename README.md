# Shortcut manager model

A Dafny model of the keyboard-shortcut manager of a desktop popup UI: the
composable `useShortcuts` (`src/frontend/composables/useShortcuts.ts`). It covers
four parts. The formatters turn a key combination into a canonical "magic key"
string and a platform display string. The config store holds the shortcut map
and loads, saves and resets it through the config service. Two read-only
scans work over that map: the conflict check and the lookup by action, with
the display text of each action built on the lookup. The live binder keeps a
list of stop functions for the key listeners of one action and swaps them
whenever the binding of that action changes.

Files and modules:

- `types.dfy`, module `ShortcutTypes`: key combinations, bindings, the ordered
  shortcut map (`Shortcuts`, a sequence of entries with distinct ids, in
  `Object.entries` order), service outcomes, and the three watched actions
  with their tags, fallback combos and default texts.
- `formatter.dfy`, module `Formatter`: `MagicKey` (`shortcutKeyToMagicKey`)
  and `DisplayString` (`shortcutKeyToString`), both built as the source builds
  them (optional parts, then `join`). The contract of `MagicKey` and the lemma
  `DisplayStringForm` spell out the output of each. `Split` undoes `join` when
  no part holds the separator. Through it the canonical string is proved
  injective on key names without "+"; with a "+" in the key name it is not.
- `queries.dfy`, module `ShortcutQueries`: the first-match scans `FirstConflict`
  and `FirstByAction`, the action texts, the single-entry write `Put`
  (`shortcuts[id] = binding`), and the lemma that the conflict check keeps
  canonical strings unique.
- `store.dfy`, module `ShortcutStore`: class `Store` with the `shortcuts` field.
  Load, save and reset replace or write it. The two scans appear as loops
  proved equal to the functions above.
- `binder.dfy`, module `LiveBinder`: class `ActionBinder` with the `stops` list.
  It is one class for the three copies `useQuickSubmitShortcut`,
  `useEnhanceShortcut` and `useContinueShortcut`, which differ only in the
  action and its fallbacks.

Environment as parameters: the platform flag is `isMac: bool`. Each config
service call is an explicit outcome (`Outcome`, `LoadOutcome`). The key
detection capability is `signalFor: string -> Option<SignalId>`. The reactive
runtime's set of running key watchers is the field `live`. Calling a stop
function removes its handle from `live` and is recorded in the ghost log
`stopped`.

Behaviour of the code that the model keeps:

- When a reset succeeds and the reload that follows fails, the reset reports
  success. The reload swallows its own failure (`useShortcuts.ts:25-33`,
  `:51-60`). `ResetShortcutsToDefault` states this.
- On a Mac the display string runs the glyphs into the key with no separator,
  e.g. "⌘Enter". The fixed default texts use "+" on every platform, e.g.
  "⌘+回车 快速发送". The two forms differ, and the model keeps both as written.
- Enhance's second fallback is the string "Meta+Shift+Enter". The canonical
  string of that chord is "Shift+Meta+Enter" (`EnhanceMetaFallbackOutOfOrder`).
  For key names without "+" the formatter never produces the fallback string
  (`MetaShiftFallbackNotCanonical`). A key name with "+" can produce it: the
  key "Shift+Enter" with Meta gives exactly that string. The model listens to
  the string as written.
- After a binding change, Vue first runs the cleanup that the previous run
  registered with `onCleanup`. The callback then calls `cleanup()` again, so
  cleanup runs twice. The second run stops nothing, and `BindingChanged`
  proves that each earlier listener is stopped exactly once.

## Model

| member | source | states |
|---|---|---|
| Formatter.MagicKey | src/frontend/composables/useShortcuts.ts:92-106 | the canonical string is Ctrl+, Alt+, Shift+, Meta+ for the set flags, in that order, then the key; with no modifier it is exactly the key; it takes no platform input |
| Formatter.DisplayString | src/frontend/composables/useShortcuts.ts:63-89 | off a Mac the display string, built by its own word list and join, equals the canonical string of `shortcutKeyToMagicKey` |
| Formatter.DisplayStringForm | src/frontend/composables/useShortcuts.ts:63-89 | on a Mac: the glyphs ⌘ ⌃ ⌥ ⇧ of the set modifiers, in that order, then the key, with no separator; elsewhere: the Ctrl+ Alt+ Shift+ Meta+ words of the set modifiers, then the key |
| Formatter.SplitJoin | src/frontend/composables/useShortcuts.ts:104-105 | splitting `parts.join(sep)` at `sep` gives back the parts when none holds `sep` (round trip of the join) |
| Formatter.SplitMagicKey | src/frontend/composables/useShortcuts.ts:92-106 | splitting the canonical string at "+" gives the modifier labels in order and then the key, for a key without "+" |
| Formatter.MagicKeyInjective | src/frontend/composables/useShortcuts.ts:92-106 | two combinations whose keys hold no "+" have equal canonical strings if and only if they are the same combination |
| Formatter.MagicKeyAmbiguousWithPlusInKey | src/frontend/composables/useShortcuts.ts:92-106 | with a "+" in the key name, Ctrl with "Enter" and no modifier with "Ctrl+Enter" share one canonical string |
| ShortcutQueries.FirstConflict | src/frontend/composables/useShortcuts.ts:109-123 | none if and only if no entry other than the excluded id has the candidate's canonical string; otherwise the name of the first such entry in iteration order, never one with the excluded id |
| ShortcutQueries.FirstByAction | src/frontend/composables/useShortcuts.ts:126-133 | none if and only if no binding has the action; otherwise the first binding in iteration order whose action matches |
| ShortcutQueries.ShortcutText | src/frontend/composables/useShortcuts.ts:136-160 | "<display string> <name>" of the first binding with the action, or the action's fixed platform default when no binding has it |
| ShortcutQueries.Lookup | src/frontend/composables/useShortcuts.ts:42 | `shortcuts[id]` is absent if and only if no entry has the id; otherwise it is the binding stored under that id |
| ShortcutQueries.Put | src/frontend/composables/useShortcuts.ts:42 | writing an entry keeps the ids distinct; an existing id keeps its position and gets the new binding, a new id goes at the end, and every other entry stays where and what it was |
| ShortcutQueries.PutLookup | src/frontend/composables/useShortcuts.ts:42 | after the write, the written id reads the new binding and every other id reads what it read before |
| ShortcutQueries.SaveAfterCheckKeepsUnique | src/frontend/composables/useShortcuts.ts:109-123 | if the map has unique canonical strings and the conflict check (excluding the binding's own id) finds nothing, writing the binding keeps them unique |
| ShortcutStore.Store.constructor | src/frontend/composables/useShortcuts.ts:10-12 | the config starts with no shortcuts |
| ShortcutStore.Store.LoadShortcutConfig | src/frontend/composables/useShortcuts.ts:25-33 | a successful load replaces the whole map; a failed load leaves the map as it was and raises nothing |
| ShortcutStore.Store.SaveShortcutBinding | src/frontend/composables/useShortcuts.ts:36-48 | on service success the map is the old map with that one entry written and all other entries unchanged; on failure the same error is returned and the map is unchanged |
| ShortcutStore.Store.ResetShortcutsToDefault | src/frontend/composables/useShortcuts.ts:51-60 | the result is the reset call's own outcome; a failed reset leaves the map unchanged and does not reload; after a successful reset the map is the reloaded config, or unchanged if the reload failed |
| ShortcutStore.Store.CheckShortcutConflict | src/frontend/composables/useShortcuts.ts:109-123 | the early-return scan over the entries returns exactly FirstConflict of the stored map |
| ShortcutStore.Store.GetShortcutByAction | src/frontend/composables/useShortcuts.ts:126-133 | the early-return scan returns exactly FirstByAction of the stored map |
| LiveBinder.WithSignal | src/frontend/composables/useShortcuts.ts:170-173 | a combo is kept exactly when the key-detection capability has a signal for it; a combo without a signal is skipped |
| LiveBinder.Wanted | src/frontend/composables/useShortcuts.ts:184-194 | every binding state asks for at least one combo string, and never for the same string twice; the strings without a signal are then dropped, so a state can end up with no listener |
| LiveBinder.Calls | src/frontend/composables/useShortcuts.ts:174-177 | the callback never runs more often than there are installed listeners; on a press it runs at all exactly when some listener watches the changed signal |
| LiveBinder.ActionBinder.constructor | src/frontend/composables/useShortcuts.ts:163-198 | installing the binder runs the watch at once: the listeners are those the initial binding asks for, and no stop has been called |
| LiveBinder.ActionBinder.Cleanup | src/frontend/composables/useShortcuts.ts:168 | every stop function in `stops` is called once, in order; afterwards `stops` is empty and the runtime runs none of this binder's listeners; a second call stops nothing |
| LiveBinder.ActionBinder.WatchCombo | src/frontend/composables/useShortcuts.ts:170-179 | with a signal for the combo, one fresh listener on that signal is appended to `stops` and runs; without one, nothing changes |
| LiveBinder.ActionBinder.WatchAll | src/frontend/composables/useShortcuts.ts:190-194 | the fallback calls append, in order, one fresh listener per fallback combo that has a signal |
| LiveBinder.ActionBinder.Install | src/frontend/composables/useShortcuts.ts:184-194 | clear first, then the installed combos are exactly the canonical string of the binding (when it has a signal) or exactly the fallbacks that have signals; only fresh listeners remain |
| LiveBinder.ActionBinder.BindingChanged | src/frontend/composables/useShortcuts.ts:181-197 | on a binding change every previously active listener is stopped exactly once, even though cleanup runs twice; none of them stays running; at most one listener is active when the binding is resolved |
| LiveBinder.ActionBinder.Dispose | src/frontend/composables/useShortcuts.ts:195 | teardown of the owning scope runs the registered cleanup: nothing stays installed or running and no further change is delivered |
| LiveBinder.ResolvedFiresOnlyBoundCombo | src/frontend/composables/useShortcuts.ts:174-188 | once a binding is resolved, a change of one signal to pressed fires the callback at most once, and it fires exactly when that signal is the signal of the bound combination, so fallback combos no longer fire |
| LiveBinder.UnresolvedFiresFallbacks | src/frontend/composables/useShortcuts.ts:166-194 | while no binding is resolved, a change of one signal to pressed fires the callback if and only if that signal belongs to one of the action's fallback combos, and when the fallback strings have different signals it fires at most once |
| LiveBinder.FallbacksAreCanonical | src/frontend/composables/useShortcuts.ts:192-193 | the submit and continue fallbacks, and enhance's first, are the canonical strings of Ctrl+Enter, Meta+Enter, Alt+Enter and Ctrl+Shift+Enter |
| LiveBinder.EnhanceMetaFallbackOutOfOrder | src/frontend/composables/useShortcuts.ts:229 | enhance's second fallback "Meta+Shift+Enter" is not the canonical string of its chord, which is "Shift+Meta+Enter" |
| LiveBinder.MetaShiftFallbackNotCanonical | src/frontend/composables/useShortcuts.ts:92-106 | no combination whose key name holds no "+" has "Meta+Shift+Enter" (useShortcuts.ts:229) as its canonical string |

## Left out

- The config service calls (`get_shortcut_config`, `update_shortcut_binding`, `reset_shortcuts_to_default`) are foreign IPC. Each is an outcome parameter.
- `console.error` logging has no effect on state.
- Platform detection through `navigator.platform` (`useShortcuts.ts:17-22`) is environment input. `isMac` is a parameter.
- `useMagicKeys` and Vue reactivity are library code. A signal is an id from `signalFor`. A signal's new value arrives as the `pressed` argument of `Calls`. The false-to-true edge detection and the change detection of `watch` belong to the library. `BindingChanged` is called once per change that Vue delivers. The binding `b` given to the `ActionBinder` constructor and to `BindingChanged` stands for `FirstByAction(store.shortcuts, action.Name())`, the `computed` over `getShortcutByAction` (`useShortcuts.ts:164`, `:203`, `:239`). No lemma joins `Store` and `ActionBinder`; every binder property holds for any `b`.
- LiveBinder.UnresolvedFiresFallbacks: the at-most-once promise holds when the key library gives different fallback strings different signals. Whether it does is library behaviour, so the lemma states it as a condition. The promise covers the change of one signal.
- One key event that changes several signals at once is not modelled. In the source every fallback has its own watch, so a chord that turns two fallback signals true together runs the callback once per changed signal. Examples are Ctrl+Meta+Enter for submit and Ctrl+Meta+Shift+Enter for enhance. `Calls` counts the runs for one changed signal.
- The `if (pressed)` guard of the per-key watch is written directly into `Calls`: a new value of false counts no run.
- The `callback` passed to the binders is opaque. The model counts how often it would run (`Calls`) and not what it does.
- Async interleaving between awaited service calls is not modelled. Each store operation is atomic.
- ShortcutQueries.Put: the key "__proto__" is not modelled. In the source, writing it calls the prototype setter: the map's prototype becomes the binding and no own entry is added, so `Object.entries` and `Object.values` never see it. `Put` appends an entry for it like any other new key.
- ShortcutQueries.PutLookup: the key "__proto__" is not modelled. After such a write the source's other keys read through the new prototype, so they do not all read what they read before. `PutLookup` promises that they do.
- ShortcutStore.Store.SaveShortcutBinding: the key "__proto__" is not modelled. In the source a successful save under that id changes the map's prototype and adds no entry. The model's new state is `Put` of the old map, which has the entry.
- Object key order: JavaScript iterates integer-like keys first, in numeric order. The model uses insertion order for every key (the loaded config's order, then new keys appended at the end).
- Which effect scope owns the inner per-key watchers is a Vue detail. `Dispose` models only the teardown through the registered `onCleanup`.
- Formatter.MagicKeyInjective: holds only for key names without "+". `MagicKeyAmbiguousWithPlusInKey` shows the restriction is needed.
- src/frontend/components/popup/__tests__/shortcut-submit.spec.ts tests a different subsystem (popup response snapshots) and is not part of this model.
- vite.config.js and vitest.config.ts are build configuration and are not part of this model.
