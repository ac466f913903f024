/** The live binder behind `useQuickSubmitShortcut`, `useEnhanceShortcut` and
    `useContinueShortcut`. The three are one algorithm that differs only in
    the action and its fallback combos, so they are one class here, made
    with a `Watched` action. The key-detection capability is `signalFor`:
    the reactive signal of a canonical string, or none for an unknown chord. */
module LiveBinder {
  import opened ShortcutTypes
  import opened Formatter

  /** Identity of one reactive key signal. */
  type SignalId = nat

  /** One installed key watcher: the handle its stop function stops, the
      canonical string it was installed for, and the signal it watches. */
  datatype Listener = Listener(handle: nat, combo: string, signal: SignalId)

  /** The canonical strings a binding state asks for: the bound combination
      when a binding is resolved, the action's fallbacks otherwise. */
  function Wanted(w: Watched, b: Option<ShortcutBinding>): (r: seq<string>)
    ensures |r| >= 1 && DistinctStrings(r)
  {
    match b
    case Some(x) => [MagicKey(x.keyCombination)]
    case None => w.Fallbacks()
  }

  /** The strings of `combos` that have a signal, in order. */
  function WithSignal(combos: seq<string>, signalFor: string -> Option<SignalId>): (r: seq<string>)
    ensures |r| <= |combos|
    ensures forall c :: c in r <==> c in combos && signalFor(c).Some?
  {
    if combos == [] then []
    else
      var rest := WithSignal(combos[1..], signalFor);
      assert forall c :: c in combos <==> c == combos[0] || c in combos[1..];
      if signalFor(combos[0]).Some? then [combos[0]] + rest else rest
  }

  function Combos(ls: seq<Listener>): (r: seq<string>)
    ensures |r| == |ls| && forall i :: 0 <= i < |ls| ==> r[i] == ls[i].combo
  {
    seq(|ls|, i requires 0 <= i < |ls| => ls[i].combo)
  }

  function HandleSeq(ls: seq<Listener>): (r: seq<nat>)
    ensures |r| == |ls| && forall i :: 0 <= i < |ls| ==> r[i] == ls[i].handle
  {
    seq(|ls|, i requires 0 <= i < |ls| => ls[i].handle)
  }

  function Handles(ls: seq<Listener>): set<nat>
  {
    set l | l in ls :: l.handle
  }

  /** With distinct handles, stopping the listener at `i` leaves the handles after it. */
  lemma HandlesAfterStop(ls: seq<Listener>, i: nat)
    requires i < |ls|
    requires forall a, b :: 0 <= a < b < |ls| ==> ls[a].handle != ls[b].handle
    ensures Handles(ls[i..]) - {ls[i].handle} == Handles(ls[i + 1..])
  {
    assert ls[i..] == [ls[i]] + ls[i + 1..];
    forall l | l in ls[i + 1..] ensures l.handle != ls[i].handle {
      var k :| i + 1 <= k < |ls| && ls[k] == l;
    }
  }

  /** Distinct handles, all issued below `next`, each on the signal of its combo. */
  ghost predicate WellFormed(ls: seq<Listener>, next: nat, signalFor: string -> Option<SignalId>)
  {
    && (forall i, j :: 0 <= i < j < |ls| ==> ls[i].handle != ls[j].handle)
    && (forall i :: 0 <= i < |ls| ==>
          ls[i].handle < next && signalFor(ls[i].combo) == Some(ls[i].signal))
  }

  /** Every handle in `ls` was issued at or after `floor`. */
  ghost predicate HandlesFrom(ls: seq<Listener>, floor: nat)
  {
    forall k :: 0 <= k < |ls| ==> floor <= ls[k].handle
  }

  /** Appending a listener with the next fresh handle keeps the list well formed
      and adds exactly its handle and its combo. */
  lemma WellFormedSnoc(ls: seq<Listener>, l: Listener, signalFor: string -> Option<SignalId>, floor: nat)
    requires WellFormed(ls, l.handle, signalFor) && signalFor(l.combo) == Some(l.signal)
    requires HandlesFrom(ls, floor) && floor <= l.handle
    ensures WellFormed(ls + [l], l.handle + 1, signalFor) && HandlesFrom(ls + [l], floor)
    ensures Handles(ls + [l]) == Handles(ls) + {l.handle}
    ensures Combos(ls + [l]) == Combos(ls) + [l.combo]
  {
    var next := ls + [l];
    assert forall x :: x in next <==> x in ls || x == l;
    assert forall i :: 0 <= i < |ls| ==> next[i] == ls[i];
  }

  /** How many times the callback runs when signal `sig` takes the new value
      `pressed`: once per installed listener on that signal, and never for
      a new value of false. On a press it runs at all exactly when some
      listener watches that signal. */
  function Calls(ls: seq<Listener>, sig: SignalId, pressed: bool): (r: nat)
    ensures r <= |ls|
    ensures pressed ==> (r > 0 <==> exists i :: 0 <= i < |ls| && ls[i].signal == sig)
  {
    if ls == [] || !pressed then 0
    else
      var rest := Calls(ls[1..], sig, pressed);
      assert forall i :: 1 <= i < |ls| ==> ls[i] == ls[1..][i - 1];
      assert ls[0].signal != sig && (exists i :: 0 <= i < |ls| && ls[i].signal == sig) ==> rest > 0 by {
        if ls[0].signal != sig && exists i :: 0 <= i < |ls| && ls[i].signal == sig {
          var i :| 0 <= i < |ls| && ls[i].signal == sig;
          assert ls[1..][i - 1].signal == sig;
        }
      }
      (if ls[0].signal == sig then 1 else 0) + rest
  }

  /** Listeners on pairwise different signals: a change of one signal reaches
      at most one of them. */
  lemma {:induction false} CallsAtMostOne(ls: seq<Listener>, sig: SignalId)
    requires forall i, j :: 0 <= i < j < |ls| ==> ls[i].signal != ls[j].signal
    ensures Calls(ls, sig, true) <= 1
  {
    if ls != [] {
      CallsAtMostOne(ls[1..], sig);
      if ls[0].signal == sig {
        assert forall i :: 0 <= i < |ls[1..]| ==> ls[1..][i] == ls[i + 1];
      }
    }
  }

  /** No string occurs twice. */
  predicate DistinctStrings(cs: seq<string>)
  {
    forall i, j :: 0 <= i < j < |cs| ==> cs[i] != cs[j]
  }

  /** Different strings of `combos` that have a signal have different signals. */
  predicate SignalsDistinct(combos: seq<string>, signalFor: string -> Option<SignalId>)
  {
    forall c1, c2 :: c1 in combos && c2 in combos && c1 != c2 && signalFor(c1).Some? ==> signalFor(c1) != signalFor(c2)
  }

  /** Keeping only the strings with a signal keeps them pairwise different. */
  lemma {:induction false} WithSignalDistinct(combos: seq<string>, signalFor: string -> Option<SignalId>)
    requires DistinctStrings(combos)
    ensures DistinctStrings(WithSignal(combos, signalFor))
  {
    if combos != [] {
      assert forall i :: 0 <= i < |combos[1..]| ==> combos[1..][i] == combos[i + 1];
      WithSignalDistinct(combos[1..], signalFor);
      assert combos[0] !in combos[1..];
    }
  }

  class ActionBinder {
    /** The action watched, with its tag and fallback combos. */
    const action: Watched
    /** The key-detection capability: a signal per recognised canonical string. */
    const signalFor: string -> Option<SignalId>
    /** `stops`: the listeners this binder has installed and not yet stopped. */
    var stops: seq<Listener>
    /** The handles the reactive runtime still runs (stopping one removes it). */
    var live: set<nat>
    /** Next fresh handle to give to an installed listener. */
    var nextHandle: nat
    /** The outer watch is running (the owning scope has not been torn down). */
    var watching: bool
    /** The binding the outer watch last delivered. */
    ghost var resolved: Option<ShortcutBinding>
    /** Every stop call made so far, in order. */
    ghost var stopped: seq<nat>

    /** `stops` holds distinct, already issued handles of listeners on the
        right signals. */
    ghost predicate StopsWellFormed()
      reads this
    {
      WellFormed(stops, nextHandle, signalFor)
    }

    /** ... and the runtime runs exactly the listeners in `stops`. */
    ghost predicate Sound()
      reads this
    {
      StopsWellFormed() && live == Handles(stops)
    }

    /** While watching, the installed listeners are exactly those the last
        binding asks for that have a signal; after teardown there are none. */
    ghost predicate Valid()
      reads this
    {
      && Sound()
      && (watching ==> Combos(stops) == WithSignal(Wanted(action, resolved), signalFor))
      && (!watching ==> stops == [])
    }

    /** `use*Shortcut(callback)`: start watching the binding of `action`;
        the watch fires at once with the binding known right now. */
    constructor (action: Watched, signalFor: string -> Option<SignalId>, initial: Option<ShortcutBinding>)
      ensures Valid() && watching && resolved == initial
      ensures this.action == action && this.signalFor == signalFor
      ensures stopped == []
    {
      this.action := action;
      this.signalFor := signalFor;
      stops := [];
      live := {};
      nextHandle := 0;
      watching := true;
      resolved := initial;
      stopped := [];
      new;
      Install(initial);
    }

    /** `cleanup`: call every stop function in `stops`, then empty `stops`. */
    method Cleanup()
      requires Sound()
      modifies this
      ensures Sound() && stops == [] && live == {}
      ensures stopped == old(stopped) + HandleSeq(old(stops))
      ensures nextHandle == old(nextHandle) && watching == old(watching) && resolved == old(resolved)
    {
      var i := 0;
      while i < |stops|
        invariant 0 <= i <= |stops|
        invariant live == Handles(stops[i..])
        invariant stopped == old(stopped) + HandleSeq(stops[..i])
        invariant nextHandle == old(nextHandle) && watching == old(watching) && resolved == old(resolved)
        invariant stops == old(stops) && StopsWellFormed()
      {
        var h := stops[i].handle;
        HandlesAfterStop(stops, i);
        live := live - {h};
        stopped := stopped + [h];
        assert HandleSeq(stops[..i + 1]) == HandleSeq(stops[..i]) + [h];
        i := i + 1;
      }
      assert stops[..i] == stops;
      stops := [];
    }

    /** Every listener in `stops` has a handle issued at or after `floor`. */
    ghost predicate IssuedSince(floor: nat)
      reads this
    {
      HandlesFrom(stops, floor)
    }

    /** `watchCombo`: install one listener on the signal of `combo`, or do
        nothing when the capability has no signal for it. */
    method WatchCombo(combo: string, ghost floor: nat)
      requires Sound() && IssuedSince(floor) && floor <= nextHandle
      modifies this
      ensures Sound() && IssuedSince(floor) && floor <= nextHandle
      ensures signalFor(combo).None? ==> stops == old(stops) && nextHandle == old(nextHandle)
      ensures signalFor(combo).Some? ==>
                stops == old(stops) + [Listener(old(nextHandle), combo, signalFor(combo).value)]
                && nextHandle == old(nextHandle) + 1
      ensures Combos(stops) == Combos(old(stops)) + if signalFor(combo).Some? then [combo] else []
      ensures watching == old(watching) && resolved == old(resolved) && stopped == old(stopped)
    {
      var sig := signalFor(combo);
      if sig.None? {
        return;
      }
      var l := Listener(nextHandle, combo, sig.value);
      WellFormedSnoc(stops, l, signalFor, floor);
      stops := stops + [l];
      live := live + {l.handle};
      nextHandle := nextHandle + 1;
    }

    /** The fallback calls `watchCombo(c)` for each fallback `c`, in order,
        right after the cleanup has emptied `stops`. */
    method WatchAll(combos: seq<string>)
      requires Sound() && stops == []
      modifies this
      ensures Sound() && IssuedSince(old(nextHandle))
      ensures Combos(stops) == WithSignal(combos, signalFor)
      ensures watching == old(watching) && resolved == old(resolved) && stopped == old(stopped)
    {
      ghost var floor := nextHandle;
      var i := 0;
      while i < |combos|
        invariant 0 <= i <= |combos|
        invariant Sound() && IssuedSince(floor) && floor <= nextHandle
        invariant watching == old(watching) && resolved == old(resolved) && stopped == old(stopped)
        invariant Combos(stops) == WithSignal(combos[..i], signalFor)
      {
        WithSignalSnoc(combos[..i], combos[i], signalFor);
        assert combos[..i + 1] == combos[..i] + [combos[i]];
        WatchCombo(combos[i], floor);
        i := i + 1;
      }
      assert combos[..i] == combos;
    }

    /** The body of the watch callback: clear, then install one listener
        for the bound combination, or the action's fallbacks when no
        binding is resolved. */
    method Install(b: Option<ShortcutBinding>)
      requires Sound() && watching
      modifies this
      ensures Valid() && watching && resolved == b
      ensures stopped == old(stopped) + HandleSeq(old(stops))
      ensures IssuedSince(old(nextHandle))
    {
      Cleanup();
      resolved := b;
      if b.Some? {
        var m := MagicKey(b.value.keyCombination);
        WatchCombo(m, nextHandle);
        assert Wanted(action, b) == [m];
        WithSignalOne(m, signalFor);
      } else {
        assert Wanted(action, b) == action.Fallbacks();
        WatchAll(action.Fallbacks());
      }
    }

    /** A change of the resolved binding: Vue first runs the cleanup the
        previous run registered with `onCleanup`, then the callback, which
        clears again before installing. Every listener active before the
        change is stopped exactly once, and only fresh listeners remain. */
    method BindingChanged(b: Option<ShortcutBinding>)
      requires Valid() && watching
      modifies this
      ensures Valid() && watching && resolved == b
      ensures stopped == old(stopped) + HandleSeq(old(stops))
      ensures forall i :: 0 <= i < |stops| ==> old(nextHandle) <= stops[i].handle
      ensures b.Some? ==> |stops| <= 1
      ensures live !! Handles(old(stops))
    {
      Cleanup();
      ghost var afterHook := stopped;
      Install(b);
      assert stopped == afterHook;
      forall h | h in live ensures h !in Handles(old(stops)) {
        var k :| 0 <= k < |stops| && stops[k].handle == h;
      }
    }

    /** Teardown of the owning scope: the outer watch stops and runs the
        registered cleanup once; nothing is left installed. */
    method Dispose()
      requires Valid()
      modifies this
      ensures Valid() && !watching && stops == [] && live == {}
      ensures stopped == old(stopped) + HandleSeq(old(stops))
    {
      Cleanup();
      watching := false;
    }

    /** How many times the callback runs when signal `sig` takes the value `pressed`. */
    function Callbacks(sig: SignalId, pressed: bool): nat
      reads this
    {
      Calls(stops, sig, pressed)
    }
  }

  lemma WithSignalOne(m: string, signalFor: string -> Option<SignalId>)
    ensures WithSignal([m], signalFor) == if signalFor(m).Some? then [m] else []
  {
    assert [m][1..] == [];
  }

  lemma WithSignalSnoc(combos: seq<string>, c: string, signalFor: string -> Option<SignalId>)
    ensures WithSignal(combos + [c], signalFor)
         == WithSignal(combos, signalFor) + (if signalFor(c).Some? then [c] else [])
  {
    if combos != [] {
      assert (combos + [c])[1..] == combos[1..] + [c];
      WithSignalSnoc(combos[1..], c, signalFor);
    }
  }

  /** Once a binding is resolved, one key signal turning true fires the
      callback at most once, and it does so exactly when it is the signal of
      the bound combination: the fallback combos no longer fire. */
  lemma ResolvedFiresOnlyBoundCombo(binder: ActionBinder, sig: SignalId)
    requires binder.Valid() && binder.watching && binder.resolved.Some?
    ensures binder.Callbacks(sig, true) <= 1
    ensures binder.Callbacks(sig, true) == 1
        <==> binder.signalFor(MagicKey(binder.resolved.value.keyCombination)) == Some(sig)
  {
    var m := MagicKey(binder.resolved.value.keyCombination);
    var ls := binder.stops;
    assert binder.Callbacks(sig, true) == Calls(ls, sig, true);
    assert Combos(ls) == WithSignal([m], binder.signalFor);
    assert m in WithSignal([m], binder.signalFor) <==> binder.signalFor(m).Some?;
    if |ls| == 0 {
      assert binder.signalFor(m).None?;
    } else {
      assert ls[0].combo == m;
      assert ls[1..] == [];
      assert binder.signalFor(m) == Some(ls[0].signal);
    }
  }

  /** While no binding is resolved, one key signal turning true fires the
      callback exactly when it is the signal of one of the action's fallback
      combos, and at most once when the fallbacks have different signals. */
  lemma UnresolvedFiresFallbacks(binder: ActionBinder, sig: SignalId)
    requires binder.Valid() && binder.watching && binder.resolved.None?
    ensures binder.Callbacks(sig, true) > 0
        <==> exists c :: c in binder.action.Fallbacks() && binder.signalFor(c) == Some(sig)
    ensures SignalsDistinct(binder.action.Fallbacks(), binder.signalFor) ==> binder.Callbacks(sig, true) <= 1
  {
    var ls := binder.stops;
    var wanted := WithSignal(binder.action.Fallbacks(), binder.signalFor);
    assert Combos(ls) == wanted;
    if exists c :: c in binder.action.Fallbacks() && binder.signalFor(c) == Some(sig) {
      var c :| c in binder.action.Fallbacks() && binder.signalFor(c) == Some(sig);
      assert c in wanted;
      var i :| 0 <= i < |ls| && Combos(ls)[i] == c;
      assert ls[i].signal == sig;
    }
    if binder.Callbacks(sig, true) > 0 {
      var i :| 0 <= i < |ls| && ls[i].signal == sig;
      assert Combos(ls)[i] in wanted;
    }
    if SignalsDistinct(binder.action.Fallbacks(), binder.signalFor) {
      assert Wanted(binder.action, None) == binder.action.Fallbacks();
      WithSignalDistinct(binder.action.Fallbacks(), binder.signalFor);
      forall i, j | 0 <= i < j < |ls| ensures ls[i].signal != ls[j].signal {
        assert Combos(ls)[i] in wanted && Combos(ls)[j] in wanted;
      }
      CallsAtMostOne(ls, sig);
    }
  }

  /** The fallback strings of submit and continue, and the first of
      enhance, are the canonical strings of the intended chords, so they
      address the same signals a binding with that chord would. */
  lemma FallbacksAreCanonical()
    ensures Submit.Fallbacks() == [MagicKey(ShortcutKey("Enter", true, false, false, false)),
                                   MagicKey(ShortcutKey("Enter", false, false, false, true))]
    ensures Enhance.Fallbacks()[0] == MagicKey(ShortcutKey("Enter", true, false, true, false))
    ensures Continue.Fallbacks() == [MagicKey(ShortcutKey("Enter", false, true, false, false))]
  {
    assert MagicKey(ShortcutKey("Enter", true, false, false, false)) == "Ctrl+" + "" + "" + "" + "Enter";
    assert MagicKey(ShortcutKey("Enter", false, false, false, true)) == "" + "" + "" + "Meta+" + "Enter";
    assert MagicKey(ShortcutKey("Enter", true, false, true, false)) == "Ctrl+" + "" + "Shift+" + "" + "Enter";
    assert MagicKey(ShortcutKey("Enter", false, true, false, false)) == "" + "Alt+" + "" + "" + "Enter";
    assert "Ctrl+" + "" + "" + "" + "Enter" == "Ctrl+Enter";
    assert "" + "" + "" + "Meta+" + "Enter" == "Meta+Enter";
    assert "Ctrl+" + "" + "Shift+" + "" + "Enter" == "Ctrl+Shift+Enter";
    assert "" + "Alt+" + "" + "" + "Enter" == "Alt+Enter";
  }

  /** The second enhance fallback names its modifiers Meta before Shift,
      while the canonical string of that chord puts Shift before Meta: the
      two strings differ. */
  lemma EnhanceMetaFallbackOutOfOrder()
    ensures Enhance.Fallbacks()[1] != MagicKey(ShortcutKey("Enter", false, false, true, true))
    ensures MagicKey(ShortcutKey("Enter", false, false, true, true)) == "Shift+Meta+Enter"
  {
    assert MagicKey(ShortcutKey("Enter", false, false, true, true)) == "" + "" + "Shift+" + "Meta+" + "Enter";
    assert "" + "" + "Shift+" + "Meta+" + "Enter" == "Shift+Meta+Enter";
    assert Enhance.Fallbacks()[1][1] == 'e' != 'h' == "Shift+Meta+Enter"[1];
  }

  /** The second enhance fallback cut at "+" is the three parts Meta, Shift, Enter. */
  lemma SplitMetaShiftEnter()
    ensures Split(Enhance.Fallbacks()[1], '+') == ["Meta", "Shift", "Enter"]
  {
    assert Enhance.Fallbacks()[1] == "Meta" + ['+'] + ("Shift" + ['+'] + "Enter");
    SplitWithoutSep("Enter", '+');
    SplitAtFirstSep("Shift", "Enter", '+');
    SplitAtFirstSep("Meta", "Shift" + ['+'] + "Enter", '+');
  }

  /** "Meta" is pushed last, so it never stands before another modifier word. */
  lemma MetaWordIsLast(k: ShortcutKey)
    ensures forall i :: 0 <= i < |ModifierWords(k)| - 1 ==> ModifierWords(k)[i] != "Meta"
  {
  }

  /** For key names without "+" the formatter never produces the second
      enhance fallback: no canonical string has "Meta" as its first of three
      parts. */
  lemma MetaShiftFallbackNotCanonical(k: ShortcutKey)
    requires '+' !in k.key
    ensures MagicKey(k) != Enhance.Fallbacks()[1]
  {
    SplitMagicKey(k);
    SplitMetaShiftEnter();
    MetaWordIsLast(k);
    var p := ModifierWords(k) + [k.key];
    assert |p| != 3 || p[0] != "Meta";
  }
}
