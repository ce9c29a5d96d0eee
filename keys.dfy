/**
 * `get_key_code`: from a key name to a Qt key code. The Qt codes are kept
 * abstract: `CharKey(c)` stands for `Qt.Key_<c>`, the other constructors for
 * the named `Qt.Key_*` members the special-key table uses.
 */
module Keys {
  import opened Wrappers
  import opened Text

  datatype KeyCode =
    | CharKey(c: char)
    | Space | Return | Enter | Backspace | Delete | Escape | Tab
    | Up | Down | Left | Right | Home | End | PageUp | PageDown
    | F1 | F2 | F3 | F4 | F5 | F6 | F7 | F8 | F9 | F10 | F11 | F12

  /** `Qt` has a member `Key_<c>` for a single character `c` exactly for A-Z and 0-9. */
  predicate IsQtCharKey(c: char) {
    IsAsciiUpper(c) || IsDigit(c)
  }

  predicate ValidKeyCode(k: KeyCode) {
    k.CharKey? ==> IsQtCharKey(k.c)
  }

  /** The `special_keys` table of `get_key_code`. */
  const SpecialKeys: map<string, KeyCode> := map[
    "space" := Space, "return" := Return, "enter" := Enter, "backspace" := Backspace,
    "delete" := Delete, "escape" := Escape, "tab" := Tab,
    "up" := Up, "down" := Down, "left" := Left, "right" := Right,
    "home" := Home, "end" := End, "pageup" := PageUp, "pagedown" := PageDown,
    "f1" := F1, "f2" := F2, "f3" := F3, "f4" := F4, "f5" := F5, "f6" := F6,
    "f7" := F7, "f8" := F8, "f9" := F9, "f10" := F10, "f11" := F11, "f12" := F12
  ]

  /** The lower-case name of a key code: the one token `get_key_code` resolves to it. */
  function KeyName(k: KeyCode): (name: string)
    ensures |name| >= 1
    ensures k.CharKey? <==> |name| == 1
  {
    match k
    case CharKey(c) => [LowerChar(c)]
    case Space => "space"
    case Return => "return"
    case Enter => "enter"
    case Backspace => "backspace"
    case Delete => "delete"
    case Escape => "escape"
    case Tab => "tab"
    case Up => "up"
    case Down => "down"
    case Left => "left"
    case Right => "right"
    case Home => "home"
    case End => "end"
    case PageUp => "pageup"
    case PageDown => "pagedown"
    case F1 => "f1"
    case F2 => "f2"
    case F3 => "f3"
    case F4 => "f4"
    case F5 => "f5"
    case F6 => "f6"
    case F7 => "f7"
    case F8 => "f8"
    case F9 => "f9"
    case F10 => "f10"
    case F11 => "f11"
    case F12 => "f12"
  }

  /** Every entry of the table is a named key filed under its own name. */
  lemma SpecialKeysNamed(name: string)
    requires name in SpecialKeys
    ensures !SpecialKeys[name].CharKey? && KeyName(SpecialKeys[name]) == name
  {
  }

  /** Every named key is in the table under its name. */
  lemma NamedKeyInTable(k: KeyCode)
    requires !k.CharKey?
    ensures KeyName(k) in SpecialKeys && SpecialKeys[KeyName(k)] == k
  {
    match k
    case Space => assert SpecialKeys["space"] == Space;
    case Return => assert SpecialKeys["return"] == Return;
    case Enter => assert SpecialKeys["enter"] == Enter;
    case Backspace => assert SpecialKeys["backspace"] == Backspace;
    case Delete => assert SpecialKeys["delete"] == Delete;
    case Escape => assert SpecialKeys["escape"] == Escape;
    case Tab => assert SpecialKeys["tab"] == Tab;
    case Up => assert SpecialKeys["up"] == Up;
    case Down => assert SpecialKeys["down"] == Down;
    case Left => assert SpecialKeys["left"] == Left;
    case Right => assert SpecialKeys["right"] == Right;
    case Home => assert SpecialKeys["home"] == Home;
    case End => assert SpecialKeys["end"] == End;
    case PageUp => assert SpecialKeys["pageup"] == PageUp;
    case PageDown => assert SpecialKeys["pagedown"] == PageDown;
    case F1 => assert SpecialKeys["f1"] == F1;
    case F2 => assert SpecialKeys["f2"] == F2;
    case F3 => assert SpecialKeys["f3"] == F3;
    case F4 => assert SpecialKeys["f4"] == F4;
    case F5 => assert SpecialKeys["f5"] == F5;
    case F6 => assert SpecialKeys["f6"] == F6;
    case F7 => assert SpecialKeys["f7"] == F7;
    case F8 => assert SpecialKeys["f8"] == F8;
    case F9 => assert SpecialKeys["f9"] == F9;
    case F10 => assert SpecialKeys["f10"] == F10;
    case F11 => assert SpecialKeys["f11"] == F11;
    case F12 => assert SpecialKeys["f12"] == F12;
  }

  /**
   * `get_key_code(key)`: a one-character key resolves to `Key_<KEY.upper()>`
   * when Qt has that member; a longer key is looked up, lower-cased, in the
   * special-key table. A code found is one whose name is the key, lower-cased.
   */
  function GetKeyCode(key: string): (r: Option<KeyCode>)
    ensures r.Some? ==> ValidKeyCode(r.value) && KeyName(r.value) == Lower(key)
  {
    if |key| == 1 then
      var u := UpperChar(key[0]);
      if IsQtCharKey(u) then
        CaseRoundTrip(key[0]);
        Some(CharKey(u))
      else None
    else
      var lowered := Lower(key);
      if lowered in SpecialKeys then
        SpecialKeysNamed(lowered);
        Some(SpecialKeys[lowered])
      else None
  }

  /** Conversely, a key whose lower-cased form is the name of a code resolves to that code. */
  lemma GetKeyCodeOfName(key: string, k: KeyCode)
    requires ValidKeyCode(k) && Lower(key) == KeyName(k)
    ensures GetKeyCode(key) == Some(k)
  {
    if k.CharKey? {
      assert LowerChar(key[0]) == LowerChar(k.c);
      CaseRoundTrip(key[0]);
      CaseRoundTrip(k.c);
    } else {
      NamedKeyInTable(k);
    }
  }

  /** Exactly the names of key codes resolve, and each to its own code. */
  lemma GetKeyCodeExactly(key: string, k: KeyCode)
    requires ValidKeyCode(k)
    ensures GetKeyCode(key) == Some(k) <==> Lower(key) == KeyName(k)
  {
    if Lower(key) == KeyName(k) {
      GetKeyCodeOfName(key, k);
    }
  }

  lemma KeyNameLowerCase(k: KeyCode)
    ensures Lower(KeyName(k)) == KeyName(k)
  {
  }

  /** A key name holds no `+` and no whitespace at either end. */
  lemma KeyNamePlain(k: KeyCode)
    requires ValidKeyCode(k)
    ensures var name := KeyName(k); '+' !in name && !IsSpace(name[0]) && !IsSpace(name[|name| - 1])
  {
  }
}
