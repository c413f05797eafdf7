/**
 * The launcher's global hotkey (`mylauncher/hotkey.py`): the modifier string
 * parsed into a Quartz flag mask, the key name resolved to a virtual key code,
 * the key-down match that consumes the event, and the running guard of the
 * event-tap manager.
 */
module Hotkey {
  import opened Text
  import opened Optional

  /** A Quartz event flag word. */
  type Flags = bv64

  /** The four Quartz modifier masks: four distinct single bits. */
  const MaskShift: Flags := 1 << 17
  const MaskControl: Flags := 1 << 18
  const MaskAlternate: Flags := 1 << 19
  const MaskCommand: Flags := 1 << 20

  /** The modifier names `_parse_modifiers` recognises. */
  predicate KnownModifier(token: string) {
    token == "cmd" || token == "ctrl" || token == "alt" || token == "shift"
  }

  /** `{m.strip().lower() for m in modifier_str.split('+')}`. */
  function ModifierTokens(modifierStr: string): set<string> {
    set m | m in Split(modifierStr, '+') :: Lower(Strip(m))
  }

  /**
   * The flag mask of a set of modifier names: a modifier's bit is set exactly
   * when its name is in the set, and no other bit is ever set.
   */
  function ModifierMask(tokens: set<string>): (r: Flags)
    ensures (r & MaskCommand != 0) <==> "cmd" in tokens
    ensures (r & MaskControl != 0) <==> "ctrl" in tokens
    ensures (r & MaskAlternate != 0) <==> "alt" in tokens
    ensures (r & MaskShift != 0) <==> "shift" in tokens
    ensures r & !(MaskCommand | MaskControl | MaskAlternate | MaskShift) == 0
    ensures r == 0 <==> forall t :: t in tokens ==> !KnownModifier(t)
  {
    (if "cmd" in tokens then MaskCommand else 0) |
    (if "ctrl" in tokens then MaskControl else 0) |
    (if "alt" in tokens then MaskAlternate else 0) |
    (if "shift" in tokens then MaskShift else 0)
  }

  /** `_parse_modifiers`: OR in the bit of each recognised modifier name. */
  method ParseModifiers(modifierStr: string) returns (flag: Flags)
    ensures flag == ModifierMask(ModifierTokens(modifierStr))
  {
    var modifiers := ModifierTokens(modifierStr);
    flag := 0;
    if "cmd" in modifiers {
      flag := flag | MaskCommand;
    }
    if "ctrl" in modifiers {
      flag := flag | MaskControl;
    }
    if "alt" in modifiers {
      flag := flag | MaskAlternate;
    }
    if "shift" in modifiers {
      flag := flag | MaskShift;
    }
  }

  /** The names of `a + "+" + b` are the names of `a` and those of `b`. */
  lemma TokensConcat(a: string, b: string)
    ensures ModifierTokens(a + "+" + b) == ModifierTokens(a) + ModifierTokens(b)
  {
    SplitConcat(a, b, '+');
    assert a + "+" + b == a + ['+'] + b;
  }

  /** The order of the modifiers does not matter: `cmd+shift` is `shift+cmd`. */
  lemma ModifierOrderIrrelevant(a: string, b: string)
    ensures ModifierMask(ModifierTokens(a + "+" + b)) == ModifierMask(ModifierTokens(b + "+" + a))
  {
    TokensConcat(a, b);
    TokensConcat(b, a);
    assert ModifierTokens(a + "+" + b) == ModifierTokens(b + "+" + a);
  }

  /** Repeating the modifiers does not matter: `cmd+cmd` is `cmd`. */
  lemma ModifierDuplicatesIrrelevant(a: string)
    ensures ModifierMask(ModifierTokens(a + "+" + a)) == ModifierMask(ModifierTokens(a))
  {
    TokensConcat(a, a);
    assert ModifierTokens(a + "+" + a) == ModifierTokens(a);
  }

  /** A part without `+` gives one name. */
  lemma TokensSingle(u: string)
    requires '+' !in u
    ensures ModifierTokens(u) == {Lower(Strip(u))}
  {
    SplitNoSep(u, '+');
    assert forall m :: m in Split(u, '+') <==> m == u;
  }

  /** A name that is not a recognised modifier adds no bit. */
  lemma MaskIgnoresUnknown(tokens: set<string>, u: string)
    requires !KnownModifier(u)
    ensures ModifierMask(tokens + {u}) == ModifierMask(tokens)
  {
    assert "cmd" in tokens + {u} <==> "cmd" in tokens;
    assert "ctrl" in tokens + {u} <==> "ctrl" in tokens;
    assert "alt" in tokens + {u} <==> "alt" in tokens;
    assert "shift" in tokens + {u} <==> "shift" in tokens;
  }

  /** A part that is not a recognised modifier name does not matter. */
  lemma UnknownModifierIgnored(a: string, u: string)
    requires '+' !in u && !KnownModifier(Lower(Strip(u)))
    ensures ModifierMask(ModifierTokens(a + "+" + u)) == ModifierMask(ModifierTokens(a))
  {
    TokensConcat(a, u);
    TokensSingle(u);
    MaskIgnoresUnknown(ModifierTokens(a), Lower(Strip(u)));
  }

  /** The key codes of the named keys whose code does not depend on the keyboard layout. */
  const SpecialKeys: map<string, int> := map[
    "tab" := 48, "space" := 49, "return" := 36, "enter" := 36,
    "escape" := 53, "esc" := 53, "delete" := 51, "backspace" := 51,
    "up" := 126, "down" := 125, "left" := 123, "right" := 124,
    "f1" := 122, "f2" := 120, "f3" := 99, "f4" := 118, "f5" := 96, "f6" := 97,
    "f7" := 98, "f8" := 100, "f9" := 101, "f10" := 109, "f11" := 103, "f12" := 111
  ]

  /** The key code used when the key name cannot be resolved ('D' on a US keyboard). */
  const FallbackVk: int := 2

  /**
   * `{v: k for k, v in vk_to_char.items()}`: the layout's entries, in the order
   * the dictionary yields them, inverted; a later entry overwrites an earlier one
   * with the same character.
   */
  function CharToVk(layout: seq<(int, string)>): (m: map<string, int>)
    ensures forall k :: 0 <= k < |layout| ==> layout[k].1 in m
    ensures forall c :: c in m ==> (m[c], c) in layout
    decreases |layout|
  {
    if layout == [] then map[]
    else
      var init := layout[..|layout| - 1];
      var last := layout[|layout| - 1];
      assert layout == init + [last];
      CharToVk(init)[last.1 := last.0]
  }

  /** The code a character maps to is the one of its last entry in the layout. */
  lemma {:induction false} CharToVkLast(layout: seq<(int, string)>, k: nat)
    requires k < |layout|
    requires forall j :: k < j < |layout| ==> layout[j].1 != layout[k].1
    ensures CharToVk(layout)[layout[k].1] == layout[k].0
    decreases |layout|
  {
    if k < |layout| - 1 {
      var init := layout[..|layout| - 1];
      assert init[k] == layout[k];
      CharToVkLast(init, k);
    }
  }

  /**
   * The key code `__init__` settles on for a key name: a special key's fixed code,
   * else a code the layout gives that character, else the fallback.
   */
  function ResolveKey(keyName: string, layout: seq<(int, string)>): (vk: int)
    ensures Lower(keyName) in SpecialKeys ==> vk == SpecialKeys[Lower(keyName)]
    ensures Lower(keyName) !in SpecialKeys ==>
      (vk, Lower(keyName)) in layout ||
      (vk == FallbackVk && forall k :: 0 <= k < |layout| ==> layout[k].1 != Lower(keyName))
  {
    var name := Lower(keyName);
    if name in SpecialKeys then SpecialKeys[name]
    else
      var charToVk := CharToVk(layout);
      if name in charToVk then charToVk[name] else FallbackVk
  }

  /** A special key never consults the keyboard layout. */
  lemma SpecialKeyIgnoresLayout(keyName: string, layout1: seq<(int, string)>, layout2: seq<(int, string)>)
    requires Lower(keyName) in SpecialKeys
    ensures ResolveKey(keyName, layout1) == ResolveKey(keyName, layout2)
  {
  }

  /** A layout character resolves to the code of its last entry (the last one wins on a collision). */
  lemma ResolveLastEntry(keyName: string, layout: seq<(int, string)>, k: nat)
    requires Lower(keyName) !in SpecialKeys
    requires k < |layout| && layout[k].1 == Lower(keyName)
    requires forall j :: k < j < |layout| ==> layout[j].1 != Lower(keyName)
    ensures ResolveKey(keyName, layout) == layout[k].0
  {
    CharToVkLast(layout, k);
  }

  /** Every required modifier bit is held. */
  predicate HasRequiredMods(flags: Flags, modFlags: Flags) {
    (flags & modFlags) == modFlags
  }

  /** The callback's test: the required modifiers are held and the key code is the hotkey's. */
  predicate Matches(flags: Flags, modFlags: Flags, keycode: int, hotkeyVk: int) {
    keycode == hotkeyVk && HasRequiredMods(flags, modFlags)
  }

  /** A required modifier bit must be held. */
  lemma RequiredModifierHeld(flags: Flags, modFlags: Flags, m: Flags)
    requires HasRequiredMods(flags, modFlags) && modFlags & m != 0
    ensures flags & m != 0
  {
  }

  /** Extra held modifiers never prevent a match. */
  lemma ExtraModifiersAllowed(flags: Flags, extra: Flags, modFlags: Flags)
    requires HasRequiredMods(flags, modFlags)
    ensures HasRequiredMods(flags | extra, modFlags)
  {
  }

  /** What the event tap sees. */
  datatype Event =
    | KeyDown(keycode: int, flags: Flags)
    | OtherEvent(kind: int)

  /** `HotkeyManager`: the configured chord and whether the event tap is running. */
  class HotkeyManager {
    const modFlags: Flags
    const hotkeyVk: int
    var running: bool

    /**
     * `__init__`: the modifiers and key come from the configuration and the
     * character layout from the keyboard; nothing runs yet.
     */
    constructor (modifiers: string, keyName: string, layout: seq<(int, string)>)
      ensures modFlags == ModifierMask(ModifierTokens(modifiers))
      ensures hotkeyVk == ResolveKey(keyName, layout)
      ensures !running
    {
      var flags := ParseModifiers(modifiers);
      var name := Lower(keyName);
      var vk: int;
      if name in SpecialKeys {
        vk := SpecialKeys[name];
      } else {
        var charToVk := CharToVk(layout);
        if name in charToVk {
          vk := charToVk[name];
        } else {
          vk := FallbackVk;
        }
      }
      modFlags := flags;
      hotkeyVk := vk;
      running := false;
    }

    /** `start`: a second start while running does nothing. */
    method Start()
      modifies this
      ensures running
      ensures old(running) ==> unchanged(this)
    {
      if running {
        return;
      }
      running := true;
    }

    /** `stop`. */
    method Stop()
      modifies this
      ensures !running
    {
      running := false;
    }

    /**
     * The event-tap callback: a matching key-down is consumed (`None`) and fires
     * the hotkey; every other event passes through unchanged.
     */
    method Callback(event: Event) returns (passed: Option<Event>, fired: bool)
      ensures fired <==> event.KeyDown? && Matches(event.flags, modFlags, event.keycode, hotkeyVk)
      ensures fired ==> passed == None
      ensures !fired ==> passed == Some(event)
    {
      if event.KeyDown? {
        var hasRequiredMods := HasRequiredMods(event.flags, modFlags);
        if event.keycode == hotkeyVk && hasRequiredMods {
          return None, true;
        }
      }
      return Some(event), false;
    }
  }
}
