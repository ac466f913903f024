/** The config store of the shortcut manager: the in-memory shortcut map,
    refreshed from or written through the config service. Each service call
    is an explicit outcome parameter. */
module ShortcutStore {
  import opened ShortcutTypes
  import opened ShortcutQueries

  class Store {
    /** `shortcutConfig.value.shortcuts`, in iteration order. */
    var shortcuts: Shortcuts

    /** The config starts out with no shortcuts. */
    constructor ()
      ensures shortcuts == []
    {
      shortcuts := [];
    }

    /** `loadShortcutConfig`: a successful load replaces the whole map; a
        failed one is swallowed and leaves the map as it was. */
    method LoadShortcutConfig(outcome: LoadOutcome)
      modifies this
      ensures outcome.Loaded? ==> shortcuts == outcome.config
      ensures outcome.LoadFailed? ==> shortcuts == old(shortcuts)
    {
      if outcome.Loaded? {
        shortcuts := outcome.config;
      }
    }

    /** `saveShortcutBinding`: the service is told first; only when it
        succeeds is the one entry written. A failure is passed back to the
        caller and the map is left alone. */
    method SaveShortcutBinding(id: string, binding: ShortcutBinding, outcome: Outcome) returns (r: Outcome)
      modifies this
      ensures r == outcome
      ensures outcome.Ok? ==> shortcuts == Put(old(shortcuts), id, binding)
      ensures outcome.Ok? ==> Lookup(shortcuts, id) == Some(binding)
      ensures outcome.Ok? ==> forall k :: k != id ==> Lookup(shortcuts, k) == Lookup(old(shortcuts), k)
      ensures outcome.Err? ==> shortcuts == old(shortcuts)
    {
      if outcome.Err? {
        return outcome;
      }
      shortcuts := Put(shortcuts, id, binding);
      forall k {
        PutLookup(old(shortcuts), id, binding, k);
      }
      r := Ok;
    }

    /** `resetShortcutsToDefault`: a failed reset is passed back and nothing
        is reloaded; after a successful reset the config is reloaded, and as
        that reload swallows its own failure the reset then reports success. */
    method ResetShortcutsToDefault(resetOutcome: Outcome, reload: LoadOutcome) returns (r: Outcome)
      modifies this
      ensures r == resetOutcome
      ensures resetOutcome.Ok? && reload.Loaded? ==> shortcuts == reload.config
      ensures resetOutcome.Err? || reload.LoadFailed? ==> shortcuts == old(shortcuts)
    {
      if resetOutcome.Err? {
        return resetOutcome;
      }
      LoadShortcutConfig(reload);
      r := Ok;
    }

    /** `checkShortcutConflict`: scan the entries in order, skip `excludeId`,
        and return the name of the first entry with the same canonical string. */
    method CheckShortcutConflict(newBinding: ShortcutBinding, excludeId: Option<string>) returns (r: Option<string>)
      ensures r == FirstConflict(shortcuts, newBinding.keyCombination, excludeId)
    {
      var i := 0;
      while i < |shortcuts|
        invariant 0 <= i <= |shortcuts|
        invariant FirstConflict(shortcuts[i..], newBinding.keyCombination, excludeId)
               == FirstConflict(shortcuts, newBinding.keyCombination, excludeId)
      {
        var e := shortcuts[i];
        assert shortcuts[i..][1..] == shortcuts[i + 1..];
        if Clashes(e, newBinding.keyCombination, excludeId) {
          return Some(e.binding.name);
        }
        i := i + 1;
      }
      r := None;
    }

    /** `getShortcutByAction`: the first binding in order whose action tag matches. */
    method GetShortcutByAction(action: string) returns (r: Option<ShortcutBinding>)
      ensures r == FirstByAction(shortcuts, action)
    {
      var i := 0;
      while i < |shortcuts|
        invariant 0 <= i <= |shortcuts|
        invariant FirstByAction(shortcuts[i..], action) == FirstByAction(shortcuts, action)
      {
        var b := shortcuts[i].binding;
        assert shortcuts[i..][1..] == shortcuts[i + 1..];
        if b.action == action {
          return Some(b);
        }
        i := i + 1;
      }
      r := None;
    }
  }
}
