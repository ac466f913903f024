/** Read-only views of the shortcut map: the conflict scan, lookup by action,
    the per-action display texts, and the single-entry write `shortcuts[id] = b`. */
module ShortcutQueries {
  import opened ShortcutTypes
  import opened Formatter

  /** Entry `e` clashes with `candidate`: it is not the excluded entry and
      its canonical string equals the candidate's. */
  predicate Clashes(e: Entry, candidate: ShortcutKey, excludeId: Option<string>)
  {
    && (excludeId.None? || e.id != excludeId.value)
    && MagicKey(e.binding.keyCombination) == MagicKey(candidate)
  }

  /** `i` is the position of the first entry that clashes with `candidate`. */
  predicate FirstClashAt(s: seq<Entry>, candidate: ShortcutKey, excludeId: Option<string>, i: int)
  {
    && 0 <= i < |s| && Clashes(s[i], candidate, excludeId)
    && forall j :: 0 <= j < i ==> !Clashes(s[j], candidate, excludeId)
  }

  /** The name of the first clashing entry in iteration order, if any. */
  function FirstConflict(s: seq<Entry>, candidate: ShortcutKey, excludeId: Option<string>): (r: Option<string>)
    ensures r.None? <==> forall i :: 0 <= i < |s| ==> !Clashes(s[i], candidate, excludeId)
    ensures r.Some? ==> exists i :: FirstClashAt(s, candidate, excludeId, i) && s[i].binding.name == r.value
  {
    if s == [] then None
    else if Clashes(s[0], candidate, excludeId) then
      assert FirstClashAt(s, candidate, excludeId, 0);
      Some(s[0].binding.name)
    else
      var r := FirstConflict(s[1..], candidate, excludeId);
      assert forall i :: 1 <= i < |s| ==> s[i] == s[1..][i - 1];
      assert r.Some? ==> exists i :: FirstClashAt(s, candidate, excludeId, i) && s[i].binding.name == r.value by {
        if r.Some? {
          var i :| FirstClashAt(s[1..], candidate, excludeId, i) && s[1..][i].binding.name == r.value;
          assert FirstClashAt(s, candidate, excludeId, i + 1);
        }
      }
      r
  }

  /** `i` is the position of the first binding tagged `action`. */
  predicate FirstWithAction(s: seq<Entry>, action: string, i: int)
  {
    && 0 <= i < |s| && s[i].binding.action == action
    && forall j :: 0 <= j < i ==> s[j].binding.action != action
  }

  /** The first binding in iteration order whose action tag is `action`, if any. */
  function FirstByAction(s: seq<Entry>, action: string): (r: Option<ShortcutBinding>)
    ensures r.None? <==> forall i :: 0 <= i < |s| ==> s[i].binding.action != action
    ensures r.Some? ==> exists i :: FirstWithAction(s, action, i) && s[i].binding == r.value
  {
    if s == [] then None
    else if s[0].binding.action == action then
      assert FirstWithAction(s, action, 0);
      Some(s[0].binding)
    else
      var r := FirstByAction(s[1..], action);
      assert forall i :: 1 <= i < |s| ==> s[i] == s[1..][i - 1];
      assert r.Some? ==> exists i :: FirstWithAction(s, action, i) && s[i].binding == r.value by {
        if r.Some? {
          var i :| FirstWithAction(s[1..], action, i) && s[1..][i].binding == r.value;
          assert FirstWithAction(s, action, i + 1);
        }
      }
      r
  }

  /** Whatever position holds the first binding tagged `action`, the lookup returns that binding. */
  lemma {:induction false} FirstByActionAt(s: seq<Entry>, action: string)
    ensures forall i :: FirstWithAction(s, action, i) ==> FirstByAction(s, action) == Some(s[i].binding)
  {
    if s != [] && s[0].binding.action != action {
      FirstByActionAt(s[1..], action);
      forall i | FirstWithAction(s, action, i)
        ensures FirstByAction(s, action) == Some(s[i].binding)
      {
        assert FirstWithAction(s[1..], action, i - 1);
      }
    }
  }

  /** The display text of an action: "<display string> <name>" of the first
      binding tagged with the action, or the action's fixed platform default
      when there is none. */
  function ShortcutText(s: seq<Entry>, w: Watched, isMac: bool): (r: string)
    ensures (forall i :: 0 <= i < |s| ==> s[i].binding.action != w.Name()) ==> r == w.DefaultText(isMac)
    ensures forall i :: FirstWithAction(s, w.Name(), i) ==>
              r == DisplayString(s[i].binding.keyCombination, isMac) + " " + s[i].binding.name
  {
    FirstByActionAt(s, w.Name());
    match FirstByAction(s, w.Name())
    case None => w.DefaultText(isMac)
    case Some(b) => DisplayString(b.keyCombination, isMac) + " " + b.name
  }

  /** The position of key `id` in the map, or -1 when it is absent. */
  function IdIndex(s: seq<Entry>, id: string): (r: int)
    ensures -1 <= r < |s|
    ensures r >= 0 ==> s[r].id == id
    ensures r < 0 ==> forall i :: 0 <= i < |s| ==> s[i].id != id
  {
    if s == [] then -1
    else if s[|s| - 1].id == id then |s| - 1
    else IdIndex(s[..|s| - 1], id)
  }

  /** `shortcuts[id]`: the binding stored under `id`, if any. */
  function Lookup(s: Shortcuts, id: string): (r: Option<ShortcutBinding>)
    ensures r.None? <==> forall i :: 0 <= i < |s| ==> s[i].id != id
    ensures forall i :: 0 <= i < |s| && s[i].id == id ==> r == Some(s[i].binding)
  {
    var k := IdIndex(s, id);
    if k < 0 then None else Some(s[k].binding)
  }

  /** `shortcuts[id] = b`: an existing key keeps its place and gets the new
      value, a new key is added at the end, every other entry stays. */
  function Put(s: Shortcuts, id: string, b: ShortcutBinding): (r: Shortcuts)
    ensures |s| <= |r| <= |s| + 1
    ensures forall i :: 0 <= i < |s| ==> r[i] == if s[i].id == id then Entry(id, b) else s[i]
    ensures |r| == |s| + 1 <==> forall i :: 0 <= i < |s| ==> s[i].id != id
    ensures |r| == |s| + 1 ==> r[|s|] == Entry(id, b)
  {
    var k := IdIndex(s, id);
    if k < 0 then
      s + [Entry(id, b)]
    else
      var r := s[k := Entry(id, b)];
      assert forall i :: 0 <= i < |s| ==> r[i].id == s[i].id;
      r
  }

  /** After `shortcuts[id] = b`, the key `id` reads `b` and every other key
      reads what it read before. */
  lemma PutLookup(s: Shortcuts, id: string, b: ShortcutBinding, k: string)
    ensures Lookup(Put(s, id, b), k) == if k == id then Some(b) else Lookup(s, k)
  {
    var r := Put(s, id, b);
    if k == id {
      if |r| == |s| {
        var i :| 0 <= i < |s| && s[i].id == id;
        assert r[i] == Entry(id, b);
      } else {
        assert r[|s|] == Entry(id, b);
      }
    } else if Lookup(s, k).Some? {
      var i :| 0 <= i < |s| && s[i].id == k;
      assert r[i] == s[i];
    } else {
      assert forall i :: 0 <= i < |r| ==> r[i].id != k by {
        forall i | 0 <= i < |r| ensures r[i].id != k {
          if i < |s| { assert r[i] == if s[i].id == id then Entry(id, b) else s[i]; }
        }
      }
    }
  }

  /** No two stored bindings share a canonical string. */
  predicate UniqueCombos(s: seq<Entry>)
  {
    forall i, j :: 0 <= i < j < |s| ==>
      MagicKey(s[i].binding.keyCombination) != MagicKey(s[j].binding.keyCombination)
  }

  /** The conflict check is what keeps canonical strings unique: writing a
      binding that the check (excluding its own id) passes leaves the map
      free of duplicate combinations. */
  lemma SaveAfterCheckKeepsUnique(s: Shortcuts, id: string, b: ShortcutBinding)
    requires UniqueCombos(s)
    requires FirstConflict(s, b.keyCombination, Some(id)).None?
    ensures UniqueCombos(Put(s, id, b))
  {
    var r := Put(s, id, b);
    forall i, j | 0 <= i < j < |r|
      ensures MagicKey(r[i].binding.keyCombination) != MagicKey(r[j].binding.keyCombination)
    {
      if j == |s| {
        assert r[i] == s[i] && s[i].id != id;
        assert !Clashes(s[i], b.keyCombination, Some(id));
      } else if s[i].id == id {
        assert r[j] == s[j] && !Clashes(s[j], b.keyCombination, Some(id));
      } else if s[j].id == id {
        assert r[i] == s[i] && !Clashes(s[i], b.keyCombination, Some(id));
      }
    }
  }
}
