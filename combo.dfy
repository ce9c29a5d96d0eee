/**
 * Key-combination descriptors such as `"Ctrl+Shift+z"`:
 * `parse_key_combination` and the decision `send_key_event` takes.
 */
module Combo {
  import opened Wrappers
  import opened Text
  import opened Keys

  /** The tokens of a combo: its `+`-separated parts, each stripped and lower-cased. */
  function Tokens(combo: string): (toks: seq<string>)
    ensures |toks| > 0
  {
    var parts := Split(combo, '+');
    seq(|parts|, i requires 0 <= i < |parts| => Lower(Strip(parts[i])))
  }

  predicate IsModifierToken(t: string) {
    t == "ctrl" || t == "control" || t == "shift" || t == "alt"
  }

  /** `"control"` is recorded as `"ctrl"`; the other modifiers as themselves. */
  function CanonicalModifier(t: string): string
    requires IsModifierToken(t)
  {
    if t == "control" then "ctrl" else t
  }

  /**
   * The modifier list of `parse_key_combination`: one entry per modifier
   * token, in order, each one of `"ctrl"`, `"shift"` and `"alt"`.
   */
  function ModifiersOf(toks: seq<string>): (mods: seq<string>)
    ensures |mods| <= |toks|
    ensures forall i :: 0 <= i < |mods| ==> mods[i] == "ctrl" || mods[i] == "shift" || mods[i] == "alt"
    ensures "ctrl" in mods <==> "ctrl" in toks || "control" in toks
    ensures "shift" in mods <==> "shift" in toks
    ensures "alt" in mods <==> "alt" in toks
    ensures Count(mods, "ctrl") == Count(toks, "ctrl") + Count(toks, "control")
    ensures Count(mods, "shift") == Count(toks, "shift")
    ensures Count(mods, "alt") == Count(toks, "alt")
  {
    if toks == [] then []
    else
      var init := toks[..|toks| - 1];
      var t := toks[|toks| - 1];
      assert toks == init + [t];
      CountSnoc(init, t, "ctrl");
      CountSnoc(init, t, "control");
      CountSnoc(init, t, "shift");
      CountSnoc(init, t, "alt");
      var mods := ModifiersOf(init);
      if IsModifierToken(t) then
        var m := CanonicalModifier(t);
        CountSnoc(mods, m, "ctrl");
        CountSnoc(mods, m, "shift");
        CountSnoc(mods, m, "alt");
        mods + [m]
      else mods
  }

  /** A single token contributes its canonical modifier, or nothing. */
  lemma ModifiersOfSingle(t: string)
    ensures ModifiersOf([t]) == if IsModifierToken(t) then [CanonicalModifier(t)] else []
  {
    assert [t][..0] == [];
  }

  /** The modifiers of two token runs are those of the first followed by those of the second. */
  lemma {:induction false} ModifiersOfConcat(a: seq<string>, b: seq<string>)
    ensures ModifiersOf(a + b) == ModifiersOf(a) + ModifiersOf(b)
  {
    if b == [] {
      assert a + b == a;
    } else {
      var b' := b[..|b| - 1];
      var t := b[|b| - 1];
      assert (a + b)[..|a + b| - 1] == a + b';
      assert (a + b)[|a + b| - 1] == t;
      ModifiersOfConcat(a, b');
      var last := if IsModifierToken(t) then [CanonicalModifier(t)] else [];
      assert ModifiersOf(b) == ModifiersOf(b') + last;
      AppendAssociative(ModifiersOf(a), ModifiersOf(b'), last);
    }
  }

  /** Repeated modifiers are kept: `ctrl` and `control` each add a `ctrl`. */
  lemma DuplicateModifiersKept(toks: seq<string>)
    requires toks == ["ctrl", "control", "z"]
    ensures ModifiersOf(toks) == ["ctrl", "ctrl"]
  {
    assert toks[..2][..1] == ["ctrl"] && toks[..2][..1][..0] == [];
    assert toks[..2] == ["ctrl", "control"];
  }

  /** The key of `parse_key_combination`: the last token that is not a modifier. */
  function KeyOf(toks: seq<string>): (key: Option<string>)
    ensures key.None? <==> forall i :: 0 <= i < |toks| ==> IsModifierToken(toks[i])
    ensures key.Some? ==>
      exists i :: 0 <= i < |toks| && toks[i] == key.value && !IsModifierToken(toks[i])
                  && forall j :: i < j < |toks| ==> IsModifierToken(toks[j])
  {
    if toks == [] then None
    else
      var init := toks[..|toks| - 1];
      var t := toks[|toks| - 1];
      if IsModifierToken(t) then
        var key := KeyOf(init);
        assert forall i :: 0 <= i < |init| ==> init[i] == toks[i];
        key
      else Some(t)
  }

  /**
   * `parse_key_combination(combo)`: walks the tokens, appending each modifier
   * and overwriting the key with each other token.
   */
  method ParseKeyCombination(combo: string) returns (modifiers: seq<string>, key: Option<string>)
    ensures modifiers == ModifiersOf(Tokens(combo))
    ensures key == KeyOf(Tokens(combo))
  {
    var parts := Split(combo, '+');
    ghost var toks := Tokens(combo);
    modifiers := [];
    key := None;
    for i := 0 to |parts|
      invariant modifiers == ModifiersOf(toks[..i])
      invariant key == KeyOf(toks[..i])
    {
      var part := Lower(Strip(parts[i]));
      assert part == toks[i];
      ParseStep(toks, i);
      modifiers, key := ParseToken(modifiers, key, part);
    }
    assert toks[..|parts|] == toks;
  }

  /** The loop body of `parse_key_combination`: one stripped, lower-cased token. */
  method ParseToken(modifiers: seq<string>, key: Option<string>, part: string)
    returns (modifiers': seq<string>, key': Option<string>)
    ensures modifiers' == modifiers + (if IsModifierToken(part) then [CanonicalModifier(part)] else [])
    ensures key' == if IsModifierToken(part) then key else Some(part)
  {
    modifiers', key' := modifiers, key;
    if part == "ctrl" || part == "control" {
      modifiers' := modifiers + ["ctrl"];
    } else if part == "shift" {
      modifiers' := modifiers + ["shift"];
    } else if part == "alt" {
      modifiers' := modifiers + ["alt"];
    } else {
      key' := Some(part);
    }
  }

  /** One more token extends the modifiers by its canonical form, or replaces the key. */
  lemma ParseStep(toks: seq<string>, i: nat)
    requires i < |toks|
    ensures ModifiersOf(toks[..i + 1])
            == ModifiersOf(toks[..i]) + (if IsModifierToken(toks[i]) then [CanonicalModifier(toks[i])] else [])
    ensures KeyOf(toks[..i + 1]) == if IsModifierToken(toks[i]) then KeyOf(toks[..i]) else Some(toks[i])
  {
    var next := toks[..i + 1];
    assert next[..|next| - 1] == toks[..i] && next[|next| - 1] == toks[i];
  }

  /** The press/release pair `send_key_event` delivers: a key code and its modifier flags. */
  datatype KeyStroke = KeyStroke(code: KeyCode, ctrl: bool, shift: bool, alt: bool)

  /**
   * `send_key_event(combo)`, with the presence of a focus widget as an input:
   * the key stroke it sends, or `None` when it sends nothing. It sends
   * exactly when the combo is non-empty, its key token is non-empty and
   * resolves to a key code, and a widget has focus.
   */
  function SendKeyEvent(combo: string, focusPresent: bool): (r: Option<KeyStroke>)
    ensures r.Some? ==> focusPresent && ValidKeyCode(r.value.code)
    ensures r.Some? ==> KeyOf(Tokens(combo)) == Some(KeyName(r.value.code))
    ensures r.Some? ==>
      var toks := Tokens(combo);
      && r.value.ctrl == ("ctrl" in toks || "control" in toks)
      && r.value.shift == ("shift" in toks)
      && r.value.alt == ("alt" in toks)
  {
    if combo == "" then None
    else
      var toks := Tokens(combo);
      var mods := ModifiersOf(toks);
      match KeyOf(toks)
      case None => None
      case Some(key) =>
        if key == "" then None
        else
          match GetKeyCode(key)
          case None => None
          case Some(code) =>
            if focusPresent then
              TokenIsLowerCase(combo, key);
              Some(KeyStroke(code, "ctrl" in mods, "shift" in mods, "alt" in mods))
            else None
  }

  lemma TokenIsLowerCase(combo: string, t: string)
    requires t in Tokens(combo)
    ensures Lower(t) == t
  {
    var parts := Split(combo, '+');
    var i :| 0 <= i < |parts| && t == Lower(Strip(parts[i]));
    LowerIdempotent(Strip(parts[i]));
  }

  /**
   * Conversely, with focus, a combo whose last non-modifier token is the
   * name of a key code sends that code, flagged with the modifiers present.
   */
  lemma SendKeyEventOfKeyName(combo: string, k: KeyCode)
    requires ValidKeyCode(k) && KeyOf(Tokens(combo)) == Some(KeyName(k))
    ensures var toks := Tokens(combo);
            SendKeyEvent(combo, true)
              == Some(KeyStroke(k, "ctrl" in toks || "control" in toks, "shift" in toks, "alt" in toks))
  {
    KeyNameLowerCase(k);
    GetKeyCodeOfName(KeyName(k), k);
  }

  /**
   * With focus, a combo sends a key stroke exactly when its last
   * non-modifier token is the name of a key code.
   */
  lemma SendKeyEventExactly(combo: string, focusPresent: bool)
    ensures SendKeyEvent(combo, focusPresent).Some?
            <==> focusPresent && exists k :: ValidKeyCode(k) && KeyOf(Tokens(combo)) == Some(KeyName(k))
  {
    if focusPresent && exists k :: ValidKeyCode(k) && KeyOf(Tokens(combo)) == Some(KeyName(k)) {
      var k :| ValidKeyCode(k) && KeyOf(Tokens(combo)) == Some(KeyName(k));
      SendKeyEventOfKeyName(combo, k);
    }
  }

  /** `word + "+" + rest` when `present`, else `rest`. */
  function Prefixed(present: bool, word: string, rest: string): string {
    if present then word + "+" + rest else rest
  }

  /** The text of a combo for a key stroke, in the style of the default mappings. */
  function ComboText(ks: KeyStroke): string {
    Prefixed(ks.ctrl, "Ctrl", Prefixed(ks.shift, "Shift", Prefixed(ks.alt, "Alt", KeyName(ks.code))))
  }

  lemma {:induction false} TokensAfterPiece(x: string, y: string)
    requires '+' !in x
    ensures Tokens(x + "+" + y) == [Lower(Strip(x))] + Tokens(y)
  {
    SplitAfterPiece(x, '+', y);
  }

  lemma TokensOfKeyName(k: KeyCode)
    requires ValidKeyCode(k)
    ensures Tokens(KeyName(k)) == [KeyName(k)]
  {
    var name := KeyName(k);
    KeyNamePlain(k);
    SplitUnseparated(name, '+');
    StripOfUnspaced(name);
    KeyNameLowerCase(k);
  }

  lemma KeyNameNotModifier(k: KeyCode)
    requires ValidKeyCode(k)
    ensures !IsModifierToken(KeyName(k))
  {
  }

  /** The tokens of the modifier prefix `ComboText` writes, in order. */
  function ModifierTokens(ks: KeyStroke): seq<string> {
    (if ks.ctrl then ["ctrl"] else []) + (if ks.shift then ["shift"] else []) + (if ks.alt then ["alt"] else [])
  }

  lemma TokensWithPrefix(present: bool, word: string, tok: string, rest: string, restToks: seq<string>)
    requires '+' !in word && Lower(Strip(word)) == tok && Tokens(rest) == restToks
    ensures Tokens(Prefixed(present, word, rest)) == (if present then [tok] else []) + restToks
  {
    if present {
      TokensAfterPiece(word, rest);
    }
  }

  lemma CtrlWord() ensures '+' !in "Ctrl" && Lower(Strip("Ctrl")) == "ctrl" { StripOfUnspaced("Ctrl"); }
  lemma ShiftWord() ensures '+' !in "Shift" && Lower(Strip("Shift")) == "shift" { StripOfUnspaced("Shift"); }
  lemma AltWord() ensures '+' !in "Alt" && Lower(Strip("Alt")) == "alt" { StripOfUnspaced("Alt"); }

  lemma TokensOfComboText(ks: KeyStroke)
    requires ValidKeyCode(ks.code)
    ensures Tokens(ComboText(ks)) == ModifierTokens(ks) + [KeyName(ks.code)]
  {
    var name := KeyName(ks.code);
    var altPart := Prefixed(ks.alt, "Alt", name);
    var altToks := (if ks.alt then ["alt"] else []) + [name];
    assert Tokens(altPart) == altToks by {
      TokensOfKeyName(ks.code);
      AltWord();
      TokensWithPrefix(ks.alt, "Alt", "alt", name, [name]);
    }
    var shiftPart := Prefixed(ks.shift, "Shift", altPart);
    var shiftToks := (if ks.shift then ["shift"] else []) + altToks;
    assert Tokens(shiftPart) == shiftToks by {
      ShiftWord();
      TokensWithPrefix(ks.shift, "Shift", "shift", altPart, altToks);
    }
    assert Tokens(ComboText(ks)) == (if ks.ctrl then ["ctrl"] else []) + shiftToks by {
      CtrlWord();
      TokensWithPrefix(ks.ctrl, "Ctrl", "ctrl", shiftPart, shiftToks);
    }
  }

  lemma ParsedComboText(ks: KeyStroke)
    requires ValidKeyCode(ks.code)
    ensures var toks := ModifierTokens(ks) + [KeyName(ks.code)];
            && KeyOf(toks) == Some(KeyName(ks.code))
            && ("ctrl" in toks || "control" in toks) == ks.ctrl
            && ("shift" in toks) == ks.shift
            && ("alt" in toks) == ks.alt
  {
    var toks := ModifierTokens(ks) + [KeyName(ks.code)];
    KeyNameNotModifier(ks.code);
    assert toks[..|toks| - 1] == ModifierTokens(ks);
  }

  /** Sending the text of a key stroke, with focus, sends that key stroke. */
  lemma ComboTextRoundTrip(ks: KeyStroke)
    requires ValidKeyCode(ks.code)
    ensures SendKeyEvent(ComboText(ks), true) == Some(ks)
  {
    TokensOfComboText(ks);
    ParsedComboText(ks);
    SendKeyEventOfKeyName(ComboText(ks), ks.code);
  }

  /** A single token with no `+` and no surrounding whitespace is its own lower-cased token. */
  lemma TokensOfWord(word: string)
    requires word != [] && '+' !in word && !IsSpace(word[0]) && !IsSpace(word[|word| - 1])
    ensures Tokens(word) == [Lower(word)]
  {
    assert Tokens(word) == [Lower(Strip(word))] by {
      SplitUnseparated(word, '+');
    }
    assert Strip(word) == word by {
      StripOfUnspaced(word);
    }
  }

  // The example lemmas below take their literal strings as parameters fixed by
  // `requires`: this keeps the verifier from evaluating the string functions on
  // literals eagerly, which is far more expensive than the proofs themselves.

  lemma ReturnWord() ensures Lower("Return") == "return" {}
  lemma UnknownWord() ensures Lower("Unknown123") == "unknown123" && Lower("unknown123") == "unknown123" {}

  /** `"Ctrl+Shift+z"` parses to modifiers `ctrl`, `shift` and key `z`, and sends Ctrl+Shift+Z. */
  lemma CtrlShiftZText(ks: KeyStroke)
    requires ks == KeyStroke(CharKey('Z'), true, true, false)
    ensures ComboText(ks) == "Ctrl+Shift+z"
  {
    assert KeyName(ks.code) == "z";
  }

  lemma CtrlShiftZTokens(c: string, ks: KeyStroke)
    requires c == "Ctrl+Shift+z" && ks == KeyStroke(CharKey('Z'), true, true, false)
    ensures Tokens(c) == ["ctrl", "shift", "z"]
  {
    assert Tokens(ComboText(ks)) == ["ctrl", "shift", "z"] by {
      TokensOfComboText(ks);
      assert KeyName(ks.code) == "z" && ModifierTokens(ks) == ["ctrl", "shift"];
    }
    CtrlShiftZText(ks);
  }

  lemma CtrlShiftZParsed()
    ensures ModifiersOf(["ctrl", "shift", "z"]) == ["ctrl", "shift"]
    ensures KeyOf(["ctrl", "shift", "z"]) == Some("z")
  {
    assert ["ctrl", "shift", "z"][..2] == ["ctrl", "shift"];
    assert ["ctrl", "shift"][..1] == ["ctrl"] && ["ctrl"][..0] == [];
  }

  lemma CtrlShiftZSends()
    ensures SendKeyEvent("Ctrl+Shift+z", true) == Some(KeyStroke(CharKey('Z'), true, true, false))
  {
    var ks := KeyStroke(CharKey('Z'), true, true, false);
    CtrlShiftZText(ks);
    ComboTextRoundTrip(ks);
  }

  lemma CtrlShiftZExample()
    ensures Tokens("Ctrl+Shift+z") == ["ctrl", "shift", "z"]
    ensures ModifiersOf(Tokens("Ctrl+Shift+z")) == ["ctrl", "shift"]
    ensures KeyOf(Tokens("Ctrl+Shift+z")) == Some("z")
    ensures SendKeyEvent("Ctrl+Shift+z", true) == Some(KeyStroke(CharKey('Z'), true, true, false))
  {
    CtrlShiftZTokens("Ctrl+Shift+z", KeyStroke(CharKey('Z'), true, true, false));
    CtrlShiftZParsed();
    CtrlShiftZSends();
  }

  lemma ReturnTokens()
    ensures Tokens("Return") == ["return"]
  {
    TokensOfWord("Return");
    ReturnWord();
  }

  lemma ReturnResolves()
    ensures GetKeyCode("return") == Some(Return)
  {
    KeyNameLowerCase(Return);
    GetKeyCodeOfName("return", Return);
  }

  lemma ReturnParsed()
    ensures ModifiersOf(["return"]) == [] && KeyOf(["return"]) == Some("return")
  {
    assert ["return"][..0] == [];
  }

  /** `"Return"` has no modifiers and the key `return`, which is the Return key. */
  lemma ReturnExample()
    ensures Tokens("Return") == ["return"]
    ensures ModifiersOf(Tokens("Return")) == [] && KeyOf(Tokens("Return")) == Some("return")
    ensures SendKeyEvent("Return", true) == Some(KeyStroke(Return, false, false, false))
  {
    ReturnTokens();
    ReturnParsed();
    ReturnResolves();
  }

  /** A key token that names no key, as in `"Ctrl+Unknown123"`, sends nothing. */
  lemma UnknownKeyWordTokens(y: string)
    requires y == "Unknown123"
    ensures Tokens(y) == ["unknown123"]
  {
    assert y[0] == 'U' && y[|y| - 1] == '3';
    assert '+' !in y;
    TokensOfWord(y);
    UnknownWord();
  }

  lemma UnknownTokens(c: string, x: string, y: string)
    requires x == "Ctrl" && y == "Unknown123" && c == x + "+" + y
    ensures Tokens(c) == ["ctrl", "unknown123"]
  {
    CtrlWord();
    TokensAfterPiece(x, y);
    UnknownKeyWordTokens(y);
  }

  lemma UnknownParsed()
    ensures KeyOf(["ctrl", "unknown123"]) == Some("unknown123")
  {
    assert ["ctrl", "unknown123"][..1] == ["ctrl"];
  }

  lemma UnknownUnresolved(k: string)
    requires k == "unknown123"
    ensures GetKeyCode(k) == None
  {
    UnknownWord();
    assert k !in SpecialKeys;
  }

  lemma UnknownKeyExample(focusPresent: bool)
    ensures Tokens("Ctrl+Unknown123") == ["ctrl", "unknown123"]
    ensures SendKeyEvent("Ctrl+Unknown123", focusPresent) == None
  {
    UnknownTokens("Ctrl+Unknown123", "Ctrl", "Unknown123");
    UnknownParsed();
    UnknownUnresolved("unknown123");
  }

  /**
   * The default combo of the A button, a single space, strips to an empty
   * key token, so sending it never produces a key event.
   */
  lemma DefaultSpaceComboSendsNothing(focusPresent: bool)
    ensures Tokens(" ") == [""]
    ensures SendKeyEvent(" ", focusPresent) == None
  {
    SplitUnseparated(" ", '+');
    assert AllSpace(" ");
    assert Strip(" ") == "";
  }

  /** A combo that is nothing but modifiers has no key and sends nothing. */
  lemma ModifiersOnlySendNothing(combo: string, focusPresent: bool)
    requires forall i :: 0 <= i < |Tokens(combo)| ==> IsModifierToken(Tokens(combo)[i])
    ensures KeyOf(Tokens(combo)) == None
    ensures SendKeyEvent(combo, focusPresent) == None
  {
  }
}
