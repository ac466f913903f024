/** The values the shortcut manager works on: key combinations, bindings,
    the ordered shortcut map, and the outcomes of the config service. */
module ShortcutTypes {

  datatype Option<+T> = None | Some(value: T)

  /** A chord: a logical key name plus four modifier flags. */
  datatype ShortcutKey = ShortcutKey(key: string, ctrl: bool, alt: bool, shift: bool, meta: bool)

  /** One configurable shortcut. `action` is the action tag ("submit", "enhance", ...). */
  datatype ShortcutBinding = ShortcutBinding(
    id: string,
    name: string,
    description: string,
    action: string,
    keyCombination: ShortcutKey,
    enabled: bool,
    scope: string)

  /** One key/value pair of the shortcut map. */
  datatype Entry = Entry(id: string, binding: ShortcutBinding)

  /** No two entries of the map share an id. */
  predicate DistinctIds(s: seq<Entry>) {
    forall i, j :: 0 <= i < j < |s| ==> s[i].id != s[j].id
  }

  /** The shortcut map in its iteration order: an object's keys are unique and
      `Object.entries` visits them in a fixed order, so the map is a sequence
      of entries with distinct ids. */
  type Shortcuts = s: seq<Entry> | DistinctIds(s) witness []

  /** Result of a config-service call that returns nothing. */
  datatype Outcome = Ok | Err(message: string)

  /** Result of the "get_shortcut_config" call. */
  datatype LoadOutcome = Loaded(config: Shortcuts) | LoadFailed(message: string)

  /** The three actions that get a display text and a live key binder. */
  datatype Watched = Submit | Enhance | Continue {

    /** The action tag a binding carries for this action. */
    function Name(): string {
      match this
      case Submit => "submit"
      case Enhance => "enhance"
      case Continue => "continue"
    }

    /** Canonical strings listened to while no binding for the action is known. */
    function Fallbacks(): seq<string> {
      match this
      case Submit => ["Ctrl+Enter", "Meta+Enter"]
      case Enhance => ["Ctrl+Shift+Enter", "Meta+Shift+Enter"]
      case Continue => ["Alt+Enter"]
    }

    /** The text shown while no binding for the action is known. */
    function DefaultText(isMac: bool): string {
      match this
      case Submit => if isMac then "⌘+回车 快速发送" else "Ctrl+回车 快速发送"
      case Enhance => if isMac then "⌘+⇧+回车 增强" else "Ctrl+Shift+回车 增强"
      case Continue => if isMac then "⌥+回车 继续" else "Alt+回车 继续"
    }
  }
}
