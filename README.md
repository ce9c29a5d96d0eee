# 8BitDo controller remapper: a verified model of its input translation

The add-on reads raw Linux joystick records from `/dev/input/js*`. Each
record is eight bytes in the `"@IhBB"` layout: a timestamp, a signed 16-bit
value, a type byte and a number byte. The add-on turns every *rising edge*
into the key combination configured for it. A rising edge is a named button
going down, or a stick pushed past half deflection toward one of its four
directions. The combination is text such as `"Ctrl+Shift+z"`. It is parsed
into modifiers and a key name, the name is resolved to a Qt key code, and a
press/release pair goes to the widget that has focus. A settings dialog edits
the button-to-combination table in place.

The model has eight modules:

- `Text`: the string primitives the code relies on, namely `str.strip`,
  ASCII `str.lower`/`str.upper`, `str.split` and `str(n)`.
- `Joystick`: the record layout and the drain of one batch of reads.
- `Keys`: `get_key_code`. Qt key codes are kept abstract.
- `Combo`: `parse_key_combination`, as a loop proved against
  `ModifiersOf`/`KeyOf`, and the decision `send_key_event` takes.
- `Config`: the constant tables and the dialog's pure map edits.
- `Input`: the specification of edge detection. `HandleEvent` is one record and
  `Run` is a sequence of records. The module also holds the one-fire-per-press
  properties.
- `Remapper`: the classes `ControllerRemapper` and `ConfigDialog`. Their
  methods update `mappings`, `last_state`, the running flag and a trace of the
  combos handed to `send_key_event`, and are proved against `Input`, `Config`
  and `Joystick`.
- `Defaults`: the default table end to end.

The model follows the code in these places:

- `last_state` is only emptied by `__init__`. `start` does not reset it, so a
  button left down across a stop and start does not fire again right away.
- The modifiers list keeps duplicates: `"ctrl+control+z"` yields `ctrl` twice.
  Only the presence of each modifier reaches the key event.
- The key is the *last* non-modifier token, which may be empty, as in `"ctrl+"`.
  An empty or unknown key sends nothing.
- The default combination of the A button is a single space. It strips to an
  empty key token, so pressing A with the default table sends no key event
  (`Defaults.DefaultAButtonSendsNothing`).
- A stick direction's flag is only cleared by a record in the deadzone.
  Moving the stick straight from one side to the other leaves the first flag
  set, so moving it back does not fire that direction again
  (`Input.FlipWithoutDeadzone`).
- The button bit is tested before the axis bit. The init bit (`0x80`) is not
  filtered, so the synthetic records the driver sends on open are handled like
  live ones.

## Model

| member | source | states |
|---|---|---|
| `Joystick.Decode` | `__init__.py:261` | no contract; `struct.unpack("@IhBB")` little-endian, the value read as two's complement; its properties are `Joystick.DecodeEncode` and `Joystick.EncodeDecode` |
| `Joystick.Encode` | `__init__.py:68-69` | always eight bytes, the record size; the packing the kernel writes, inverse to `Decode` by `Joystick.DecodeEncode` and `Joystick.EncodeDecode` |
| `Joystick.DecodeEncode` | `__init__.py:261` | unpacking the eight bytes packed from any event gives that event back |
| `Joystick.EncodeDecode` | `__init__.py:68-69` | every eight-byte record is the packing of the event it unpacks to, so the format is a bijection |
| `Joystick.Drained` | `__init__.py:254-261` | the records decoded by one drain are exactly the full eight-byte reads before the first failed, empty or short read, decoded in order |
| `Joystick.DrainedStopsAtShortRead` | `__init__.py:256-259` | after a failed, empty or short read nothing more is decoded, whatever follows |
| `Text.Strip` | `__init__.py:127` | no contract; its properties are `Text.StripEnds`, `Text.StripShape` and `Text.StripEmpty` |
| `Text.StripEnds` | `__init__.py:127` | the result of `strip()` neither starts nor ends with whitespace |
| `Text.StripShape` | `__init__.py:127` | `strip()` removes some whitespace from the front and some from the back and nothing else |
| `Text.StripEmpty` | `__init__.py:423` | `strip()` gives the empty string exactly when the input is all whitespace |
| `Text.Split` | `__init__.py:123` | at least one piece, even for the empty string; its other properties are `Text.SplitProperties` and `Text.SplitJoin` |
| `Text.SplitProperties` | `__init__.py:123` | no piece of `split("+")` holds a `+`, and joining the pieces with `+` gives the input back |
| `Text.SplitJoin` | `__init__.py:123` | splitting undoes joining pieces that hold no separator |
| `Text.DecimalString` | `__init__.py:269` | non-empty, all decimal digits, and no leading zero except for `0` itself; read back by `Text.DecimalRoundTrip` |
| `Text.DecimalRoundTrip` | `__init__.py:269` | the decimal text of a button number reads back as that number |
| `Text.Lower` | `__init__.py:127` | the same length as the input, with every ASCII capital replaced by its small letter and every other character kept; its other properties are `Text.LowerIdempotent` and `Keys.GetKeyCodeExactly` |
| `Text.LowerIdempotent` | `__init__.py:127` | lower-casing twice is lower-casing once |
| `Keys.GetKeyCode` | `__init__.py:138-179` | a key resolves only to a Qt code that exists and whose name is the key, lower-cased |
| `Keys.GetKeyCodeOfName` | `__init__.py:142-179` | conversely, a key whose lower-cased form names a code resolves to that code, in any capitalisation |
| `Keys.GetKeyCodeExactly` | `__init__.py:138-179` | a key resolves to a code exactly when its lower-cased form is that code's name |
| `Keys.SpecialKeysNamed` | `__init__.py:149-177` | every entry of the special-key table is a named key filed under its own name |
| `Keys.NamedKeyInTable` | `__init__.py:149-177` | every named key is in the table under its name |
| `Combo.Tokens` | `__init__.py:123-127` | at least one token; its other properties are `Combo.TokenIsLowerCase`, `Combo.TokensAfterPiece`, `Combo.ComboTextRoundTrip` and the examples below |
| `Combo.ParseKeyCombination` | `__init__.py:122-136` | the loop returns exactly `ModifiersOf` and `KeyOf` of the stripped, lower-cased `+`-separated tokens |
| `Combo.ParseToken` | `__init__.py:128-135` | one loop step appends the canonical modifier (`ctrl` for both `ctrl` and `control`, `shift`, `alt`) and keeps the key, or leaves the modifiers and makes the token the key |
| `Combo.ModifiersOf` | `__init__.py:124-133` | every entry is `ctrl`, `shift` or `alt`; `ctrl` occurs once per `ctrl` or `control` token, and `shift` and `alt` once per token of their own, so duplicates are kept |
| `Combo.ModifiersOfSingle` | `__init__.py:127-133` | one token contributes its canonical modifier (`control` as `ctrl`), or nothing when it is not a modifier |
| `Combo.ModifiersOfConcat` | `__init__.py:126-133` | the modifiers of two runs of tokens are those of the first followed by those of the second, so the list keeps token order |
| `Combo.DuplicateModifiersKept` | `__init__.py:128-129` | the tokens `ctrl`, `control`, `z` give the modifier list `ctrl`, `ctrl` |
| `Combo.KeyOf` | `__init__.py:134-135` | no key exactly when every token is a modifier; otherwise the key is a non-modifier token after which only modifiers follow |
| `Combo.SendKeyEvent` | `__init__.py:181-209` | a key stroke is sent only with focus, for a code whose name is the key token, with each modifier flag set exactly when that modifier is among the tokens |
| `Combo.SendKeyEventOfKeyName` | `__init__.py:185-200` | conversely, with focus, a combo whose key token names a code sends that code with the modifiers present |
| `Combo.SendKeyEventExactly` | `__init__.py:181-209` | a stroke is sent exactly when a widget has focus and the key token names a key code |
| `Combo.ComboTextRoundTrip` | `__init__.py:122-136` | writing any key stroke as `Ctrl+Shift+Alt+key` text and sending it sends that stroke |
| `Combo.CtrlShiftZExample` | `__init__.py:37` | `"Ctrl+Shift+z"` tokenises to `ctrl`, `shift`, `z`, parses to modifiers `ctrl`, `shift` and key `z`, and sends Ctrl+Shift+Z |
| `Combo.ReturnExample` | `__init__.py:30` | `"Return"` parses to no modifiers and key `return`, and sends the Return key |
| `Combo.UnknownKeyExample` | `__init__.py:195-198` | `"Ctrl+Unknown123"` has the key `unknown123`, which resolves to nothing, so nothing is sent |
| `Combo.DefaultSpaceComboSendsNothing` | `__init__.py:29` | the combo `" "` has the single token `""`, so it sends nothing |
| `Combo.ModifiersOnlySendNothing` | `__init__.py:195` | a combo made only of modifiers has no key and sends nothing |
| `Config.ControllerButtonsInjective` | `__init__.py:51-64` | distinct button numbers have distinct names |
| `Config.DirectionsAreNotButtons` | `__init__.py:51-64` | no button is named like a stick direction |
| `Config.DefaultsAreChoices` | `__init__.py:28-43` | every default entry is a button or direction the dialog offers; the two stick buttons have none |
| `Config.SetMapping` | `__init__.py:421-427` | with a chosen button and non-blank text the entry becomes the stripped text; otherwise the table is unchanged; no other entry changes |
| `Config.RemoveMapping` | `__init__.py:437-442` | the chosen button's entry is removed, when there is one, and nothing else changes |
| `Config.SetMappingKeepsChoices` | `__init__.py:387-389` | editing through the chooser keeps the table within the offered buttons and directions |
| `Config.RemoveMappingKeepsChoices` | `__init__.py:437-440` | removing keeps the table within the offered entries |
| `Config.SetMappingIdempotent` | `__init__.py:429-435` | adding or updating the same entry twice is the same as doing it once |
| `Config.RemoveAfterSet` | `__init__.py:421-442` | removing after setting leaves the table as removing alone would |
| `Config.SetEntryStrippedNonEmpty` | `__init__.py:423-425` | an entry the dialog sets is non-empty and already stripped |
| `Input.Engage` | `__init__.py:286-294` | no contract; its properties are `Input.AxisEngage` and `Input.DirectionFiresOncePerPush` |
| `Input.Deflect` | `__init__.py:285-306` | no contract; its properties are `Input.AxisEngage` and `Input.AxisDeadzone` |
| `Input.HandleEvent` | `__init__.py:263-329` | no contract; its properties are `Input.ButtonEdge`, `Input.ButtonStateTracksValue`, `Input.AxisEngage`, `Input.AxisDeadzone`, `Input.UnhandledRecord`, `Input.ButtonBitFirst` and `Input.InitBitIgnored` |
| `Input.NegativeThreshold` | `__init__.py:283-286` | `value / 32767.0 < -0.5` holds exactly for `value <= -16384` |
| `Input.PositiveThreshold` | `__init__.py:283-295` | `value / 32767.0 > 0.5` holds exactly for `value >= 16384` |
| `Input.DeadzoneExactly` | `__init__.py:304-306` | a value falls in the deadzone exactly when `-16384 < value < 16384` |
| `Input.ButtonEdge` | `__init__.py:263-277` | a button record fires exactly when the button has a name, the value is non-zero and it was not already down, and it fires that name |
| `Input.ButtonStateTracksValue` | `__init__.py:279` | after a button record, named or not, its key holds `bool(value)` and no other key changes |
| `Input.AxisEngage` | `__init__.py:285-303` | a record past the threshold sets the direction's flag and fires that direction exactly when the flag was clear; nothing else changes |
| `Input.AxisDeadzone` | `__init__.py:304-306` | a record in the deadzone removes both flags of its axis and fires nothing |
| `Input.UnhandledRecord` | `__init__.py:281-329` | a record with neither bit, or an axis record for an axis other than 0 and 1, changes nothing |
| `Input.ButtonBitFirst` | `__init__.py:263` | with the button bit set, the axis bit makes no difference |
| `Input.InitBitIgnored` | `__init__.py:47` | setting the init bit changes nothing about how a record is handled |
| `Input.ButtonKeyInjective` | `__init__.py:269` | distinct button numbers have distinct `button_N` keys |
| `Input.ButtonKeyIsNoFlag` | `__init__.py:287` | a button key never collides with an axis flag key |
| `Input.FlagKeyInjective` | `__init__.py:287-319` | the four axis flag keys are distinct |
| `Input.ButtonNameIsNoDirection` | `__init__.py:291` | a button never dispatches a direction's mapping entry |
| `Input.Run` | `__init__.py:254-329` | handling `n` records fires at most `n` inputs |
| `Input.RunAppend` | `__init__.py:254-329` | handling two batches in turn is handling them as one, with the fired inputs concatenated |
| `Input.Dispatch` | `__init__.py:274-277` | a fired input sends at most one combo, exactly when it has a non-empty entry, and that entry is what is sent |
| `Input.Dispatches` | `__init__.py:274-277` | at most one combo per fired input; its other properties are `Input.DispatchesAreMapped` and `Input.DispatchesAppend`, which keeps firing order |
| `Input.DispatchesAreMapped` | `__init__.py:274-277` | every combo dispatched is a non-empty value of the table |
| `Input.ButtonFiresOncePerPress` | `__init__.py:268-279` | over any records a named button fires at most once per release, plus once if it started up |
| `Input.HeldButtonNeverRefires` | `__init__.py:268-279` | a button already down that is never released never fires again and stays down |
| `Input.DirectionFiresOncePerPush` | `__init__.py:285-329` | a direction fires at most once per return of its stick to the deadzone, plus once if its flag started clear |
| `Input.HeldDirectionNeverRefires` | `__init__.py:285-329` | a held direction that never returns to the deadzone never fires again |
| `Input.AxisSweepExample` | `__init__.py:285-306` | axis 0 swept from full left through centre to 0.6 right fires LEFT then RIGHT, once each |
| `Input.FlipWithoutDeadzone` | `__init__.py:285-306` | left, right, left with no record in the deadzone fires LEFT and RIGHT only and leaves both flags set |
| `Remapper.ControllerRemapper.constructor` | `__init__.py:100-116` | the stored table when one loads, else the defaults; stopped, no device, empty `last_state` |
| `Remapper.ControllerRemapper.DetectController` | `__init__.py:211-233` | succeeds exactly when a device is found, opens, and is switched to non-blocking mode; a device that opened is held even when the mode switch fails |
| `Remapper.ControllerRemapper.SendKeyEvent` | `__init__.py:277` | the combo handed to `send_key_event` is appended to the trace; what the host then does with it is `Combo.SendKeyEvent` |
| `Remapper.ControllerRemapper.DispatchMapped` | `__init__.py:274-277` | sends the entry for a fired input when it is present and non-empty, nothing otherwise |
| `Remapper.ControllerRemapper.EngageDirection` | `__init__.py:286-294` | the flag is set and the direction dispatched when the flag was clear, as `Input.Engage` says |
| `Remapper.ControllerRemapper.HandleAxis` | `__init__.py:285-306` | the new `last_state` and the combos sent are those of `Input.Deflect` |
| `Remapper.ControllerRemapper.HandleRecord` | `__init__.py:263-329` | the new `last_state` and the combos sent are those of `Input.HandleEvent` |
| `Remapper.ControllerRemapper.ProcessControllerInput` | `__init__.py:249-332` | with no device nothing changes; otherwise `last_state` and the combos sent are those of `Input.Run` over the drained records |
| `Remapper.ControllerRemapper.Drain` | `__init__.py:253-332` | the loop consumes reads until one fails, is empty or is short, and leaves the state `Run` gives for the full records before it |
| `Remapper.ControllerRemapper.Start` | `__init__.py:352-359` | always succeeds; when already running nothing changes, otherwise one worker is started |
| `Remapper.ControllerRemapper.Stop` | `__init__.py:361-365` | afterwards the remapper is stopped and holds no worker |
| `Remapper.ConfigDialog.constructor` | `__init__.py:369-371` | the dialog edits the remapper it was given |
| `Remapper.ConfigDialog.AddMapping` | `__init__.py:421-427` | the remapper's table becomes `Config.SetMapping` of the old one |
| `Remapper.ConfigDialog.UpdateMapping` | `__init__.py:429-435` | the remapper's table becomes `Config.SetMapping` of the old one, as for adding |
| `Remapper.ConfigDialog.RemoveMapping` | `__init__.py:437-442` | the remapper's table becomes `Config.RemoveMapping` of the old one |
| `Defaults.PressFires` | `__init__.py:263-277` | a press of a named button that is up fires that button's name |
| `Defaults.DefaultAButtonSendsNothing` | `__init__.py:29` | pressing A fires `A`, dispatches `" "`, and no key stroke results |
| `Defaults.DefaultBButtonSendsReturn` | `__init__.py:30` | pressing B dispatches `"Return"`, which lands as a plain Return |
| `Defaults.DefaultLeftShoulderSendsRedo` | `__init__.py:37` | pressing the left shoulder dispatches `"Ctrl+Shift+z"`, which lands as Ctrl+Shift+Z |

## Left out

- Device discovery (`find_joystick_device`, `is_8bitdo_controller`), `ioctl`, `fcntl` and opening the file are not modelled. `DetectController` takes their outcomes as inputs. `is_8bitdo_controller` accepts any device it can open, so its outcome is part of `deviceFound`.
- The second, unreachable copy of the open sequence in `detect_controller` (after its `try` block returns) is not modelled.
- `run_loop`, the worker thread and its timing are not modelled: the 10 ms sleeps and the 1 s join timeout. `Start` and `Stop` only keep the running flag and whether a worker is recorded. Concurrency between the worker and the dialog is not modelled.
- Real reads are replaced by a sequence of read results, one per `read(8)`, each at most eight bytes. An `OSError` is `ReadFailed`. Both `None` and `b""` are an empty chunk.
- Native byte order is taken to be little-endian, as on the platforms the add-on targets. Without padding, `"@IhBB"` is eight bytes.
- The float division `value / 32767.0` is modelled over exact reals. `Input.NegativeThreshold` and `Input.PositiveThreshold` show the comparisons match integer thresholds. The exact quotients nearest to ±0.5 are about 1.5e-5 away from it, far more than a float's rounding error, so the rounded quotient falls on the same side.
- Qt key codes and the key events themselves are abstract. `Combo.SendKeyEvent` returns the stroke that would be delivered, and the focus widget is a boolean input. Whether the installed Qt binding exposes the `Qt.Key_*` names is not modelled. No modelled Qt code is zero, so the truthiness test on `key_code` only rejects a missing code.
- Text.Lower: case mapping covers ASCII letters only; Python's full Unicode `lower()` and `upper()` are not modelled. The model therefore differs from the code on non-ASCII letters whose case mapping lands in ASCII.
  - The code upper-cases the key `ſ` (U+017F) to `S` and `ı` (U+0131) to `I`, so these reach `Qt.Key_S` and `Qt.Key_I`. The model resolves them to nothing.
  - The code lower-cases the Kelvin sign (U+212A) to `k`, so the key `\u212a` reaches `Qt.Key_K`, and `bac\u212aspace` reaches `Qt.Key_Backspace`. The model resolves both to nothing.
  - Other non-ASCII letters, such as `ß`, whose upper case is two characters, resolve to nothing in both.
- JSON persistence (`save_config`, the file read in `load_config`) is not modelled. The constructor takes the table that was loaded, or `None` when none could be. A stored file whose values are not strings is not modelled.
- The dialog's widgets, `setup_ui`, `refresh_list`, `open_config` and the menu wiring are not modelled. The chosen button and the typed text are method inputs.
- `AXIS_BUTTONS` and `event_queue` are never used by the code and are not modelled. The printed log lines are not modelled either.
