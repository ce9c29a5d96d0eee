/**
 * The constant tables of the add-on and the edits the settings dialog makes
 * to the button-to-combo mapping table.
 */
module Config {
  import opened Text

  /** `DEFAULT_MAPPINGS`: the table used when no configuration can be loaded. */
  const DefaultMappings: map<string, string> := map[
    "A" := " ",
    "B" := "Return",
    "X" := "z",
    "Y" := "x",
    "LEFT" := "Left",
    "RIGHT" := "Right",
    "UP" := "Up",
    "DOWN" := "Down",
    "LEFT_SHOULDER" := "Ctrl+Shift+z",
    "RIGHT_SHOULDER" := "Ctrl+z",
    "START" := "Return",
    "SELECT" := "Backspace",
    "LEFT_TRIGGER" := "Ctrl+Shift+z",
    "RIGHT_TRIGGER" := "Ctrl+y"
  ]

  /** The names of `CONTROLLER_BUTTONS`, indexed by button number. */
  const ButtonNames: seq<string> := [
    "A", "B", "X", "Y", "LEFT_SHOULDER", "RIGHT_SHOULDER",
    "SELECT", "START", "LEFT_STICK", "RIGHT_STICK", "LEFT_TRIGGER", "RIGHT_TRIGGER"
  ]

  /** `CONTROLLER_BUTTONS`: button number to button name. */
  const ControllerButtons: map<int, string> := map n | 0 <= n < |ButtonNames| :: ButtonNames[n]

  /** The direction names the axes are mapped under. */
  const DirectionNames: seq<string> := ["UP", "DOWN", "LEFT", "RIGHT"]

  /** The entries of the dialog's button chooser, in order: the button names, then the directions. */
  const ButtonChoices: seq<string> := ButtonNames + DirectionNames

  /** Every button number has its own name. */
  lemma ButtonNamesDistinct()
    ensures forall i, j :: 0 <= i < j < |ButtonNames| ==> ButtonNames[i] != ButtonNames[j]
  {
  }

  /** `CONTROLLER_BUTTONS` is injective: a button name identifies its number. */
  lemma ControllerButtonsInjective(n: int, k: int)
    requires n in ControllerButtons && k in ControllerButtons
    requires ControllerButtons[n] == ControllerButtons[k]
    ensures n == k
  {
    ButtonNamesDistinct();
  }

  /** No direction is also the name of a button. */
  lemma DirectionsAreNotButtons(n: int)
    requires n in ControllerButtons
    ensures ControllerButtons[n] !in DirectionNames
  {
  }

  /** Every default entry is one the dialog offers, and the two stick buttons have no default. */
  lemma DefaultsAreChoices()
    ensures forall b :: b in DefaultMappings ==> b in ButtonChoices
    ensures "LEFT_STICK" !in DefaultMappings && "RIGHT_STICK" !in DefaultMappings
  {
  }

  /**
   * `add_mapping` and `update_mapping`: the typed combo text is stripped, and
   * the entry for `button` is set to it only when both are non-empty.
   */
  function SetMapping(m: map<string, string>, button: string, text: string): (r: map<string, string>)
    ensures button != "" && Strip(text) != "" ==> button in r && r[button] == Strip(text)
    ensures button == "" || Strip(text) == "" ==> r == m
    ensures r.Keys == m.Keys || r.Keys == m.Keys + {button}
    ensures forall b :: b in m && b != button ==> b in r && r[b] == m[b]
  {
    var combo := Strip(text);
    if button != "" && combo != "" then m[button := combo] else m
  }

  /** `remove_mapping`: the entry for `button` is deleted when present; nothing else changes. */
  function RemoveMapping(m: map<string, string>, button: string): (r: map<string, string>)
    ensures r.Keys == m.Keys - {button}
    ensures forall b :: b in r ==> r[b] == m[b]
    ensures button !in m ==> r == m
  {
    if button in m then m - {button} else m
  }

  /** The table holds only entries the dialog offers. */
  predicate KeysAreChoices(m: map<string, string>) {
    forall b :: b in m ==> b in ButtonChoices
  }

  /** Editing through the dialog's chooser keeps the table within the offered entries. */
  lemma SetMappingKeepsChoices(m: map<string, string>, button: string, text: string)
    requires KeysAreChoices(m) && button in ButtonChoices
    ensures KeysAreChoices(SetMapping(m, button, text))
  {
  }

  lemma RemoveMappingKeepsChoices(m: map<string, string>, button: string)
    requires KeysAreChoices(m)
    ensures KeysAreChoices(RemoveMapping(m, button))
  {
  }

  /** Setting the same entry twice is the same as setting it once. */
  lemma SetMappingIdempotent(m: map<string, string>, button: string, text: string)
    ensures SetMapping(SetMapping(m, button, text), button, text) == SetMapping(m, button, text)
  {
  }

  /** Removing after a set undoes the set and the entry that was there before. */
  lemma RemoveAfterSet(m: map<string, string>, button: string, text: string)
    ensures RemoveMapping(SetMapping(m, button, text), button) == RemoveMapping(m, button)
  {
  }

  /** A set entry is always stripped and non-empty, so it is dispatched when its button fires. */
  lemma SetEntryStrippedNonEmpty(m: map<string, string>, button: string, text: string)
    requires button != "" && Strip(text) != ""
    ensures var r := SetMapping(m, button, text);
            r[button] != "" && Strip(r[button]) == r[button]
  {
    var s := Strip(text);
    StripEnds(text);
    assert SetMapping(m, button, text)[button] == s;
    assert !IsSpace(s[0]) && !IsSpace(s[|s| - 1]);
    StripOfUnspaced(s);
  }
}
