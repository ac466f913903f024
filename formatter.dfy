/** The two string forms of a key combination: the canonical "magic key"
    string (listener id and equality key) and the platform display string. */
module Formatter {
  import opened ShortcutTypes

  /** `parts.join(sep)`: the parts with `sep` between neighbours. */
  function Join(parts: seq<string>, sep: string): string
  {
    if |parts| == 0 then ""
    else if |parts| == 1 then parts[0]
    else parts[0] + sep + Join(parts[1..], sep)
  }

  /** Every part followed by `sep`: how the modifiers read in front of the key. */
  function Prefixed(mods: seq<string>, sep: string): string
  {
    if mods == [] then "" else mods[0] + sep + Prefixed(mods[1..], sep)
  }

  /** `s` when `on`, otherwise nothing. */
  function Tag(on: bool, s: string): string
  {
    if on then s else ""
  }

  /** The one-element list `[w]` when `on`, otherwise the empty list. */
  function Opt(on: bool, w: string): seq<string>
  {
    if on then [w] else []
  }

  lemma {:induction false} JoinBeforeLast(mods: seq<string>, last: string, sep: string)
    ensures Join(mods + [last], sep) == Prefixed(mods, sep) + last
  {
    if mods != [] {
      assert (mods + [last])[1..] == mods[1..] + [last];
      JoinBeforeLast(mods[1..], last, sep);
    }
  }

  lemma {:induction false} PrefixedAppend(a: seq<string>, b: seq<string>, sep: string)
    ensures Prefixed(a + b, sep) == Prefixed(a, sep) + Prefixed(b, sep)
  {
    if a != [] {
      assert (a + b)[0] == a[0] && (a + b)[1..] == a[1..] + b;
      PrefixedAppend(a[1..], b, sep);
    } else {
      assert a + b == b;
    }
  }

  lemma PrefixedOpt(on: bool, w: string, sep: string)
    ensures Prefixed(Opt(on, w), sep) == Tag(on, w + sep)
  {
    if on {
      assert Prefixed([w], sep) == w + sep + Prefixed([], sep);
    }
  }

  /** Four optional modifier labels in a fixed order, followed by the key,
      joined by `sep`, written out as one concatenation. */
  lemma FourModifiersThenKey(a: seq<string>, b: seq<string>, c: seq<string>, d: seq<string>,
                             key: string, sep: string)
    ensures Join(a + b + c + d + [key], sep)
         == Prefixed(a, sep) + Prefixed(b, sep) + Prefixed(c, sep) + Prefixed(d, sep) + key
  {
    JoinBeforeLast(a + b + c + d, key, sep);
    PrefixedAppend(a + b + c, d, sep);
    PrefixedAppend(a + b, c, sep);
    PrefixedAppend(a, b, sep);
  }

  /** The word labels of the set modifiers, in the order Ctrl, Alt, Shift, Meta. */
  function ModifierWords(k: ShortcutKey): seq<string>
  {
    Opt(k.ctrl, "Ctrl") + Opt(k.alt, "Alt") + Opt(k.shift, "Shift") + Opt(k.meta, "Meta")
  }

  /** The glyphs of the set modifiers, in the order Command, Control, Option, Shift. */
  function ModifierGlyphs(k: ShortcutKey): seq<string>
  {
    Opt(k.meta, "⌘") + Opt(k.ctrl, "⌃") + Opt(k.alt, "⌥") + Opt(k.shift, "⇧")
  }

  lemma WordsThenKey(k: ShortcutKey)
    ensures Join(ModifierWords(k) + [k.key], "+")
         == Tag(k.ctrl, "Ctrl+") + Tag(k.alt, "Alt+") + Tag(k.shift, "Shift+") + Tag(k.meta, "Meta+") + k.key
  {
    FourModifiersThenKey(Opt(k.ctrl, "Ctrl"), Opt(k.alt, "Alt"), Opt(k.shift, "Shift"),
                         Opt(k.meta, "Meta"), k.key, "+");
    PrefixedOpt(k.ctrl, "Ctrl", "+");
    PrefixedOpt(k.alt, "Alt", "+");
    PrefixedOpt(k.shift, "Shift", "+");
    PrefixedOpt(k.meta, "Meta", "+");
    assert "Ctrl" + "+" == "Ctrl+" && "Alt" + "+" == "Alt+";
    assert "Shift" + "+" == "Shift+" && "Meta" + "+" == "Meta+";
  }

  lemma GlyphsThenKey(k: ShortcutKey)
    ensures Join(ModifierGlyphs(k) + [k.key], "")
         == Tag(k.meta, "⌘") + Tag(k.ctrl, "⌃") + Tag(k.alt, "⌥") + Tag(k.shift, "⇧") + k.key
  {
    FourModifiersThenKey(Opt(k.meta, "⌘"), Opt(k.ctrl, "⌃"), Opt(k.alt, "⌥"),
                         Opt(k.shift, "⇧"), k.key, "");
    PrefixedOpt(k.meta, "⌘", "");
    PrefixedOpt(k.ctrl, "⌃", "");
    PrefixedOpt(k.alt, "⌥", "");
    PrefixedOpt(k.shift, "⇧", "");
    assert "⌘" + "" == "⌘" && "⌃" + "" == "⌃" && "⌥" + "" == "⌥" && "⇧" + "" == "⇧";
  }

  /** `shortcutKeyToMagicKey`: the platform-independent canonical string,
      the word labels of the set modifiers and then the key, joined by "+".
      Spelled out: the set modifiers in the order Ctrl, Alt, Shift, Meta, each
      followed by "+", and the key last; with no modifier it is exactly the key. */
  function MagicKey(k: ShortcutKey): (r: string)
    ensures r == Tag(k.ctrl, "Ctrl+") + Tag(k.alt, "Alt+") + Tag(k.shift, "Shift+")
                 + Tag(k.meta, "Meta+") + k.key
    ensures !(k.ctrl || k.alt || k.shift || k.meta) ==> r == k.key
  {
    WordsThenKey(k);
    Join(ModifierWords(k) + [k.key], "+")
  }

  /** `shortcutKeyToString`: on a Mac the glyphs of the set modifiers and the
      key with no separator; elsewhere the word labels and the key joined by
      "+", which is exactly the canonical string. */
  function DisplayString(k: ShortcutKey, isMac: bool): (r: string)
    ensures !isMac ==> r == MagicKey(k)
  {
    if isMac then Join(ModifierGlyphs(k) + [k.key], "")
    else Join(Opt(k.ctrl, "Ctrl") + Opt(k.alt, "Alt") + Opt(k.shift, "Shift") + Opt(k.meta, "Meta") + [k.key], "+")
  }

  /** The display string spelled out: on a Mac the glyphs ⌘ ⌃ ⌥ ⇧ of the set
      modifiers, in that order, run straight into the key; elsewhere it reads
      Ctrl+, Alt+, Shift+, Meta+ for the set modifiers and then the key. */
  lemma DisplayStringForm(k: ShortcutKey, isMac: bool)
    ensures isMac ==> DisplayString(k, isMac) == Tag(k.meta, "⌘") + Tag(k.ctrl, "⌃") + Tag(k.alt, "⌥")
                                                 + Tag(k.shift, "⇧") + k.key
    ensures !isMac ==> DisplayString(k, isMac) == Tag(k.ctrl, "Ctrl+") + Tag(k.alt, "Alt+")
                                                  + Tag(k.shift, "Shift+") + Tag(k.meta, "Meta+") + k.key
  {
    if isMac {
      GlyphsThenKey(k);
    } else {
      WordsThenKey(k);
    }
  }

  /** Cutting a string at every `sep`: the inverse of joining parts that do
      not contain `sep`. */
  function Split(s: string, sep: char): (r: seq<string>)
    ensures |r| >= 1
  {
    if s == [] then [""]
    else if s[0] == sep then [""] + Split(s[1..], sep)
    else
      var t := Split(s[1..], sep);
      [[s[0]] + t[0]] + t[1..]
  }

  lemma {:induction false} SplitWithoutSep(p: string, sep: char)
    requires sep !in p
    ensures Split(p, sep) == [p]
  {
    if p != [] {
      SplitWithoutSep(p[1..], sep);
      assert [p[0]] + p[1..] == p;
    }
  }

  lemma {:induction false} SplitAtFirstSep(p: string, rest: string, sep: char)
    requires sep !in p
    ensures Split(p + [sep] + rest, sep) == [p] + Split(rest, sep)
  {
    if p != [] {
      var s := p + [sep] + rest;
      assert s[0] == p[0] != sep && s[1..] == p[1..] + [sep] + rest;
      SplitAtFirstSep(p[1..], rest, sep);
      assert [p[0]] + p[1..] == p;
    } else {
      assert p + [sep] + rest == [sep] + rest;
    }
  }

  /** Round trip: splitting a join recovers the parts, when no part holds the separator. */
  lemma {:induction false} SplitJoin(parts: seq<string>, sep: char)
    requires |parts| >= 1
    requires forall i :: 0 <= i < |parts| ==> sep !in parts[i]
    ensures Split(Join(parts, [sep]), sep) == parts
  {
    if |parts| == 1 {
      SplitWithoutSep(parts[0], sep);
    } else {
      SplitAtFirstSep(parts[0], Join(parts[1..], [sep]), sep);
      SplitJoin(parts[1..], sep);
    }
  }

  lemma ModifierWordsAreFlags(k: ShortcutKey)
    ensures ("Ctrl" in ModifierWords(k) <==> k.ctrl) && ("Alt" in ModifierWords(k) <==> k.alt)
    ensures ("Shift" in ModifierWords(k) <==> k.shift) && ("Meta" in ModifierWords(k) <==> k.meta)
    ensures forall i :: 0 <= i < |ModifierWords(k)| ==> '+' !in ModifierWords(k)[i]
  {
  }

  /** Splitting the canonical string at "+" gives back the modifier labels and
      the key, provided the key name holds no "+". */
  lemma SplitMagicKey(k: ShortcutKey)
    requires '+' !in k.key
    ensures Split(MagicKey(k), '+') == ModifierWords(k) + [k.key]
  {
    ModifierWordsAreFlags(k);
    SplitJoin(ModifierWords(k) + [k.key], '+');
  }

  /** Two combinations are the same shortcut exactly when their canonical
      strings are equal, as long as no key name holds "+". */
  lemma MagicKeyInjective(k1: ShortcutKey, k2: ShortcutKey)
    requires '+' !in k1.key && '+' !in k2.key
    ensures MagicKey(k1) == MagicKey(k2) <==> k1 == k2
  {
    if MagicKey(k1) == MagicKey(k2) {
      SplitMagicKey(k1);
      SplitMagicKey(k2);
      var p1, p2 := ModifierWords(k1) + [k1.key], ModifierWords(k2) + [k2.key];
      assert p1 == p2;
      assert k1.key == p1[|p1| - 1] == p2[|p2| - 1] == k2.key;
      assert ModifierWords(k1) == p1[..|p1| - 1] == p2[..|p2| - 1] == ModifierWords(k2);
      ModifierWordsAreFlags(k1);
      ModifierWordsAreFlags(k2);
    }
  }

  /** Without the restriction on key names the canonical string is ambiguous:
      Ctrl with the key "Enter" and no modifier with the key "Ctrl+Enter"
      read the same. */
  lemma MagicKeyAmbiguousWithPlusInKey()
    ensures MagicKey(ShortcutKey("Enter", true, false, false, false))
         == MagicKey(ShortcutKey("Ctrl+Enter", false, false, false, false))
  {
    assert "Ctrl+" + "" + "" + "" + "Enter" == "Ctrl+Enter";
  }
}
