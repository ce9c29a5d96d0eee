/**
 * What one joystick record does to the `last_state` table and which mapped
 * input, if any, it fires: the specification the remapper's drain loop is
 * proved against, and the edge-detection properties that follow from it.
 */
module Input {
  import opened Wrappers
  import opened Text
  import opened Joystick
  import opened Config

  /** `last_state`: key to last seen state. */
  type InputState = map<string, bool>

  /** `last_state.get(key, False)`. */
  predicate IsActive(state: InputState, key: string) {
    key in state && state[key]
  }

  /** The `last_state` key of a button, `f"button_{n}"`. */
  function ButtonKey(n: byte): string {
    "button_" + DecimalString(n)
  }

  /** The four stick directions, each with its own flag and mapping entry. */
  datatype Direction = Left | Right | Up | Down

  /** The `last_state` key of a direction. */
  function FlagKey(d: Direction): string {
    match d
    case Left => "axis_0_LEFT"
    case Right => "axis_0_RIGHT"
    case Up => "axis_1_UP"
    case Down => "axis_1_DOWN"
  }

  /** The mapping entry a direction dispatches. */
  function DirectionName(d: Direction): string {
    match d
    case Left => "LEFT"
    case Right => "RIGHT"
    case Up => "UP"
    case Down => "DOWN"
  }

  /** The axis number a direction belongs to. */
  function AxisOf(d: Direction): byte {
    if d == Left || d == Right then 0 else 1
  }

  /** Left and up are the negative ends of their axes. */
  predicate IsNegative(d: Direction) {
    d == Left || d == Up
  }

  /** `value / 32767.0`, computed exactly. */
  function Normalized(v: i16): real {
    v as real / 32767.0
  }

  /** The deflection a record needs to engage direction `d`. */
  predicate Toward(d: Direction, v: i16) {
    if IsNegative(d) then Normalized(v) < -0.5 else Normalized(v) > 0.5
  }

  predicate InDeadzone(v: i16) {
    !(Normalized(v) < -0.5) && !(Normalized(v) > 0.5)
  }

  predicate IsButtonEvent(e: JsEvent) {
    e.kind & JsEventButton != 0
  }

  /** A record handled as an axis: the button bit, checked first, is clear. */
  predicate IsAxisEvent(e: JsEvent) {
    e.kind & JsEventButton == 0 && e.kind & JsEventAxis != 0
  }

  /** The new table, and the name of the mapping entry a rising edge fired. */
  datatype Step = Step(state: InputState, edge: Option<string>)

  /** A stick pushed past the threshold toward `d`: its flag is set; it fires if it was clear. */
  function Engage(state: InputState, d: Direction): Step {
    var key := FlagKey(d);
    Step(state[key := true], if IsActive(state, key) then None else Some(DirectionName(d)))
  }

  /** One axis record: engage the negative or the positive direction, or clear both in the deadzone. */
  function Deflect(state: InputState, x: real, neg: Direction, pos: Direction): Step {
    if x < -0.5 then Engage(state, neg)
    else if x > 0.5 then Engage(state, pos)
    else Step(state - {FlagKey(neg), FlagKey(pos)}, None)
  }

  /** The effect of one record on `last_state`, and the input it fires. */
  function HandleEvent(state: InputState, e: JsEvent): Step {
    if IsButtonEvent(e) then
      var key := ButtonKey(e.number);
      var pressed := e.value != 0;
      var named := e.number as int in ControllerButtons;
      Step(state[key := pressed],
           if named && pressed && !IsActive(state, key) then Some(ControllerButtons[e.number as int]) else None)
    else if e.kind & JsEventAxis != 0 then
      if e.number == 0 then Deflect(state, Normalized(e.value), Left, Right)
      else if e.number == 1 then Deflect(state, Normalized(e.value), Up, Down)
      else Step(state, None)
    else Step(state, None)
  }

  datatype RunResult = RunResult(state: InputState, edges: seq<string>)

  /** A sequence of records handled in order: the final table and the inputs fired. */
  function Run(state: InputState, evs: seq<JsEvent>): (r: RunResult)
    ensures |r.edges| <= |evs|
  {
    if evs == [] then RunResult(state, [])
    else
      var prev := Run(state, evs[..|evs| - 1]);
      var step := HandleEvent(prev.state, evs[|evs| - 1]);
      RunResult(step.state, prev.edges + OptionToSeq(step.edge))
  }

  /** `mappings.get(name)`, dispatched only when present and non-empty. */
  function Dispatch(mappings: map<string, string>, name: string): (combos: seq<string>)
    ensures |combos| <= 1
    ensures combos != [] <==> name in mappings && mappings[name] != ""
    ensures combos != [] ==> combos[0] == mappings[name]
  {
    if name in mappings && mappings[name] != "" then [mappings[name]] else []
  }

  /** The combos handed to `send_key_event` for a sequence of fired inputs. */
  function Dispatches(mappings: map<string, string>, names: seq<string>): (combos: seq<string>)
    ensures |combos| <= |names|
  {
    if names == [] then []
    else Dispatches(mappings, names[..|names| - 1]) + Dispatch(mappings, names[|names| - 1])
  }

  /** Every combo dispatched is a non-empty value of the table. */
  lemma {:induction false} DispatchesAreMapped(mappings: map<string, string>, names: seq<string>)
    ensures forall i :: 0 <= i < |Dispatches(mappings, names)| ==>
              Dispatches(mappings, names)[i] != "" && Dispatches(mappings, names)[i] in mappings.Values
  {
    if names != [] {
      var name := names[|names| - 1];
      var earlier := Dispatches(mappings, names[..|names| - 1]);
      var last := Dispatch(mappings, name);
      DispatchesAreMapped(mappings, names[..|names| - 1]);
      assert Dispatches(mappings, names) == earlier + last;
      forall i | 0 <= i < |earlier + last|
        ensures (earlier + last)[i] != "" && (earlier + last)[i] in mappings.Values
      {
        if i >= |earlier| {
          assert (earlier + last)[i] == last[0] == mappings[name];
          assert mappings[name] in mappings.Values;
        } else {
          assert (earlier + last)[i] == earlier[i];
        }
      }
    }
  }

  // ---------------------------------------------------------------------------
  // Keys of the table

  lemma ButtonKeyInjective(n: byte, k: byte)
    requires ButtonKey(n) == ButtonKey(k)
    ensures n == k
  {
    assert DecimalString(n) == ButtonKey(n)[7..];
    assert DecimalString(k) == ButtonKey(k)[7..];
    DecimalStringInjective(n, k);
  }

  /** Button keys and direction flags never collide. */
  lemma ButtonKeyIsNoFlag(n: byte, d: Direction)
    ensures ButtonKey(n) != FlagKey(d)
  {
    assert ButtonKey(n)[0] == 'b';
  }

  lemma FlagKeyInjective(d: Direction, d': Direction)
    requires FlagKey(d) == FlagKey(d')
    ensures d == d'
  {
  }

  /** Button names and direction names never collide. */
  lemma ButtonNameIsNoDirection(n: int, d: Direction)
    requires n in ControllerButtons
    ensures ControllerButtons[n] != DirectionName(d)
  {
    DirectionsAreNotButtons(n);
    assert DirectionName(d) in DirectionNames;
  }

  // ---------------------------------------------------------------------------
  // Thresholds

  /** The float test `value / 32767.0 < -0.5` holds exactly for `value <= -16384`. */
  lemma NegativeThreshold(v: i16)
    ensures Normalized(v) < -0.5 <==> v <= -16384
  {
    var x := Normalized(v);
    assert x * 32767.0 == v as real;
    if v <= -16384 {
      assert x * 32767.0 <= -16384.0;
    } else {
      assert x * 32767.0 >= -16383.0;
    }
  }

  /** The float test `value / 32767.0 > 0.5` holds exactly for `value >= 16384`. */
  lemma PositiveThreshold(v: i16)
    ensures Normalized(v) > 0.5 <==> v >= 16384
  {
    var x := Normalized(v);
    assert x * 32767.0 == v as real;
    if v >= 16384 {
      assert x * 32767.0 >= 16384.0;
    } else {
      assert x * 32767.0 <= 16383.0;
    }
  }

  lemma DeadzoneExactly(v: i16)
    ensures InDeadzone(v) <==> -16384 < v < 16384
  {
    NegativeThreshold(v);
    PositiveThreshold(v);
  }

  // ---------------------------------------------------------------------------
  // One record

  /**
   * A button record fires exactly when the button has a name, the value is
   * non-zero and the button was not already down; it fires that name.
   */
  lemma ButtonEdge(state: InputState, e: JsEvent)
    requires IsButtonEvent(e)
    ensures var s := HandleEvent(state, e);
            && (s.edge.Some? <==> e.number as int in ControllerButtons && e.value != 0 && !IsActive(state, ButtonKey(e.number)))
            && (s.edge.Some? ==> s.edge.value == ControllerButtons[e.number as int])
  {
  }

  /** After a button record the button's key holds `bool(value)`, for every button number; no other key changes. */
  lemma ButtonStateTracksValue(state: InputState, e: JsEvent)
    requires IsButtonEvent(e)
    ensures var s := HandleEvent(state, e);
            && ButtonKey(e.number) in s.state && s.state[ButtonKey(e.number)] == (e.value != 0)
            && s.state.Keys == state.Keys + {ButtonKey(e.number)}
            && forall k :: k in state && k != ButtonKey(e.number) ==> s.state[k] == state[k]
  {
  }

  /**
   * An axis record past the threshold sets its direction's flag and fires
   * that direction exactly when the flag was clear; no other key changes.
   */
  lemma AxisEngage(state: InputState, e: JsEvent, d: Direction)
    requires IsAxisEvent(e) && e.number == AxisOf(d) && Toward(d, e.value)
    ensures var s := HandleEvent(state, e);
            && IsActive(s.state, FlagKey(d))
            && s.state.Keys == state.Keys + {FlagKey(d)}
            && (forall k :: k in state && k != FlagKey(d) ==> s.state[k] == state[k])
            && (s.edge.Some? <==> !IsActive(state, FlagKey(d)))
            && (s.edge.Some? ==> s.edge.value == DirectionName(d))
  {
    var x := Normalized(e.value);
    if d == Right || d == Down {
      assert !(x < -0.5);
    }
  }

  /** An axis 0 or 1 record in the deadzone removes both of the axis's flags and fires nothing. */
  lemma AxisDeadzone(state: InputState, e: JsEvent, neg: Direction, pos: Direction)
    requires IsAxisEvent(e) && InDeadzone(e.value)
    requires (neg, pos) == (Left, Right) || (neg, pos) == (Up, Down)
    requires e.number == AxisOf(neg)
    ensures var s := HandleEvent(state, e);
            && s.edge.None?
            && s.state.Keys == state.Keys - {FlagKey(neg), FlagKey(pos)}
            && forall k :: k in s.state ==> s.state[k] == state[k]
  {
  }

  /** Axis records for axes other than 0 and 1, and records with neither bit, change nothing. */
  lemma UnhandledRecord(state: InputState, e: JsEvent)
    requires !IsButtonEvent(e)
    requires e.kind & JsEventAxis == 0 || (e.number != 0 && e.number != 1)
    ensures HandleEvent(state, e) == Step(state, None)
  {
  }

  /** The button bit is tested first: with it set, the axis bit makes no difference. */
  lemma ButtonBitFirst(state: InputState, e: JsEvent)
    requires IsButtonEvent(e)
    ensures HandleEvent(state, e) == HandleEvent(state, e.(kind := JsEventButton))
    ensures HandleEvent(state, e.(kind := e.kind | JsEventAxis)) == HandleEvent(state, e)
  {
  }

  /** The init bit does not suppress handling: a synthetic initial record acts as a live one. */
  lemma InitBitIgnored(state: InputState, e: JsEvent)
    ensures HandleEvent(state, e.(kind := e.kind | JsEventInit)) == HandleEvent(state, e)
  {
    var e' := e.(kind := e.kind | JsEventInit);
    assert e'.kind & JsEventButton == e.kind & JsEventButton;
    assert e'.kind & JsEventAxis == e.kind & JsEventAxis;
  }

  // ---------------------------------------------------------------------------
  // Sequences of records

  lemma {:induction false} RunAppend(state: InputState, a: seq<JsEvent>, b: seq<JsEvent>)
    ensures var ra := Run(state, a);
            var rb := Run(ra.state, b);
            Run(state, a + b) == RunResult(rb.state, ra.edges + rb.edges)
  {
    if b == [] {
      assert a + b == a;
    } else {
      var b' := b[..|b| - 1];
      var last := b[|b| - 1];
      assert (a + b)[..|a + b| - 1] == a + b';
      assert (a + b)[|a + b| - 1] == last;
      RunAppend(state, a, b');
      var ra := Run(state, a);
      var rb' := Run(ra.state, b');
      var step := HandleEvent(rb'.state, last);
      AppendAssociative(ra.edges, rb'.edges, OptionToSeq(step.edge));
    }
  }

  /** Handling one more record of a sequence extends the run by one step. */
  lemma RunExtend(state: InputState, evs: seq<JsEvent>, i: nat)
    requires i < |evs|
    ensures var prev := Run(state, evs[..i]);
            var step := HandleEvent(prev.state, evs[i]);
            Run(state, evs[..i + 1]) == RunResult(step.state, prev.edges + OptionToSeq(step.edge))
  {
    assert evs[..i + 1][..i] == evs[..i];
  }

  lemma {:induction false} DispatchesAppend(mappings: map<string, string>, a: seq<string>, b: seq<string>)
    ensures Dispatches(mappings, a + b) == Dispatches(mappings, a) + Dispatches(mappings, b)
  {
    if b == [] {
      assert a + b == a;
    } else {
      var b' := b[..|b| - 1];
      assert (a + b)[..|a + b| - 1] == a + b';
      assert (a + b)[|a + b| - 1] == b[|b| - 1];
      DispatchesAppend(mappings, a, b');
      AppendAssociative(Dispatches(mappings, a), Dispatches(mappings, b'), Dispatch(mappings, b[|b| - 1]));
    }
  }

  /** One more record extends both the table and the dispatched combos of a run by one step. */
  lemma DispatchesExtend(mappings: map<string, string>, state: InputState, evs: seq<JsEvent>, i: nat)
    requires i < |evs|
    ensures var prev := Run(state, evs[..i]);
            var step := HandleEvent(prev.state, evs[i]);
            var next := Run(state, evs[..i + 1]);
            && next.state == step.state
            && Dispatches(mappings, next.edges)
               == Dispatches(mappings, prev.edges) + Dispatches(mappings, OptionToSeq(step.edge))
  {
    var prev := Run(state, evs[..i]);
    RunExtend(state, evs, i);
    DispatchesAppend(mappings, prev.edges, OptionToSeq(HandleEvent(prev.state, evs[i]).edge));
  }

  /** 1 when the key is clear, 0 when it is set. */
  function Inactive(state: InputState, key: string): nat {
    if IsActive(state, key) then 0 else 1
  }

  predicate IsRelease(e: JsEvent, n: byte) {
    IsButtonEvent(e) && e.number == n && e.value == 0
  }

  /** The number of release records for button `n`. */
  function Releases(evs: seq<JsEvent>, n: byte): (c: nat)
    ensures c <= |evs|
  {
    if evs == [] then 0
    else Releases(evs[..|evs| - 1], n) + (if IsRelease(evs[|evs| - 1], n) then 1 else 0)
  }

  predicate IsRecentering(e: JsEvent, d: Direction) {
    IsAxisEvent(e) && e.number == AxisOf(d) && InDeadzone(e.value)
  }

  /** The number of records that bring the stick of `d` back into the deadzone. */
  function Recenterings(evs: seq<JsEvent>, d: Direction): (c: nat)
    ensures c <= |evs|
  {
    if evs == [] then 0
    else Recenterings(evs[..|evs| - 1], d) + (if IsRecentering(evs[|evs| - 1], d) then 1 else 0)
  }

  lemma CountAppendOption(xs: seq<string>, o: Option<string>, x: string)
    ensures Count(xs + OptionToSeq(o), x) == Count(xs, x) + (if o == Some(x) then 1 else 0)
  {
    if o.None? {
      assert xs + OptionToSeq(o) == xs;
    } else {
      assert (xs + [o.value])[..|xs|] == xs;
    }
  }

  /** How one record moves the press-count potential of button `n`. */
  lemma ButtonStep(state: InputState, e: JsEvent, n: byte)
    requires n as int in ControllerButtons
    ensures ButtonPotentialKept(state, e, n)
  {
    if !IsButtonEvent(e) {
      ButtonStepOnAxis(state, e, n);
    } else if e.number != n {
      ButtonStepOnOtherButton(state, e, n);
    }
  }

  /** Firing button `n` costs one unit of the potential its releases and its clear flag provide. */
  ghost predicate ButtonPotentialKept(state: InputState, e: JsEvent, n: byte)
    requires n as int in ControllerButtons
  {
    var s := HandleEvent(state, e);
    (if s.edge == Some(ControllerButtons[n as int]) then 1 else 0) + Inactive(s.state, ButtonKey(n))
      <= (if IsRelease(e, n) then 1 else 0) + Inactive(state, ButtonKey(n))
  }

  lemma ButtonStepOnOtherButton(state: InputState, e: JsEvent, n: byte)
    requires n as int in ControllerButtons && IsButtonEvent(e) && e.number != n
    ensures ButtonPotentialKept(state, e, n)
  {
    var s := HandleEvent(state, e);
    if ButtonKey(e.number) == ButtonKey(n) {
      ButtonKeyInjective(e.number, n);
    }
    if s.edge == Some(ControllerButtons[n as int]) {
      ControllerButtonsInjective(e.number as int, n as int);
    }
  }

  lemma ButtonStepOnAxis(state: InputState, e: JsEvent, n: byte)
    requires n as int in ControllerButtons && !IsButtonEvent(e)
    ensures ButtonPotentialKept(state, e, n)
  {
    if e.kind & JsEventAxis != 0 && e.number == 0 {
      ButtonKeyIsNoFlag(n, Left);
      ButtonKeyIsNoFlag(n, Right);
      ButtonNameIsNoDirection(n as int, Left);
      ButtonNameIsNoDirection(n as int, Right);
    } else if e.kind & JsEventAxis != 0 && e.number == 1 {
      ButtonKeyIsNoFlag(n, Up);
      ButtonKeyIsNoFlag(n, Down);
      ButtonNameIsNoDirection(n as int, Up);
      ButtonNameIsNoDirection(n as int, Down);
    }
  }

  /**
   * A named button fires at most once per press: over any records, the
   * times it fires are bounded by its releases, plus one if it started up.
   */
  lemma {:induction false} ButtonFiresOncePerPress(state: InputState, evs: seq<JsEvent>, n: byte)
    requires n as int in ControllerButtons
    ensures var r := Run(state, evs);
            Count(r.edges, ControllerButtons[n as int]) + Inactive(r.state, ButtonKey(n))
              <= Releases(evs, n) + Inactive(state, ButtonKey(n))
  {
    if evs != [] {
      var init := evs[..|evs| - 1];
      var prev := Run(state, init);
      var step := HandleEvent(prev.state, evs[|evs| - 1]);
      ButtonFiresOncePerPress(state, init, n);
      ButtonStep(prev.state, evs[|evs| - 1], n);
      CountAppendOption(prev.edges, step.edge, ControllerButtons[n as int]);
    }
  }

  /** A button held down, and not released, never fires again. */
  lemma HeldButtonNeverRefires(state: InputState, evs: seq<JsEvent>, n: byte)
    requires n as int in ControllerButtons
    requires IsActive(state, ButtonKey(n)) && Releases(evs, n) == 0
    ensures ControllerButtons[n as int] !in Run(state, evs).edges
    ensures IsActive(Run(state, evs).state, ButtonKey(n))
  {
    ButtonFiresOncePerPress(state, evs, n);
  }

  /** How one record moves the press-count potential of direction `d`. */
  lemma DirectionStep(state: InputState, e: JsEvent, d: Direction)
    ensures var s := HandleEvent(state, e);
            (if s.edge == Some(DirectionName(d)) then 1 else 0) + Inactive(s.state, FlagKey(d))
              <= (if IsRecentering(e, d) then 1 else 0) + Inactive(state, FlagKey(d))
  {
    var s := HandleEvent(state, e);
    if IsButtonEvent(e) {
      ButtonKeyIsNoFlag(e.number, d);
      if e.number as int in ControllerButtons {
        ButtonNameIsNoDirection(e.number as int, d);
      }
    } else if e.kind & JsEventAxis != 0 && (e.number == 0 || e.number == 1) {
      var (neg, pos) := if e.number == 0 then (Left, Right) else (Up, Down);
      if FlagKey(neg) == FlagKey(d) {
        FlagKeyInjective(neg, d);
      }
      if FlagKey(pos) == FlagKey(d) {
        FlagKeyInjective(pos, d);
      }
    }
  }

  /**
   * A direction fires at most once per push: the times it fires are bounded
   * by the returns of its stick to the deadzone, plus one if its flag started clear.
   */
  lemma {:induction false} DirectionFiresOncePerPush(state: InputState, evs: seq<JsEvent>, d: Direction)
    ensures var r := Run(state, evs);
            Count(r.edges, DirectionName(d)) + Inactive(r.state, FlagKey(d))
              <= Recenterings(evs, d) + Inactive(state, FlagKey(d))
  {
    if evs != [] {
      var init := evs[..|evs| - 1];
      var prev := Run(state, init);
      var step := HandleEvent(prev.state, evs[|evs| - 1]);
      DirectionFiresOncePerPush(state, init, d);
      DirectionStep(prev.state, evs[|evs| - 1], d);
      CountAppendOption(prev.edges, step.edge, DirectionName(d));
    }
  }

  /** A direction held, and never re-centred, never fires again. */
  lemma HeldDirectionNeverRefires(state: InputState, evs: seq<JsEvent>, d: Direction)
    requires IsActive(state, FlagKey(d)) && Recenterings(evs, d) == 0
    ensures DirectionName(d) !in Run(state, evs).edges
    ensures IsActive(Run(state, evs).state, FlagKey(d))
  {
    DirectionFiresOncePerPush(state, evs, d);
  }

  // ---------------------------------------------------------------------------
  // Examples

  /** A live record for axis 0 with the given value. */
  function AxisZero(v: i16): JsEvent {
    JsEvent(0, v, JsEventAxis, 0)
  }

  lemma SweepFirstHalf(evs: seq<JsEvent>)
    requires evs == [AxisZero(-32767), AxisZero(-19660)]
    ensures Run(map[], evs) == RunResult(map["axis_0_LEFT" := true], ["LEFT"])
  {
    NegativeThreshold(-32767);
    NegativeThreshold(-19660);
    assert evs[..1][..0] == [];
    assert evs[..2] == evs;
    assert Run(map[], evs[..1]) == RunResult(map["axis_0_LEFT" := true], ["LEFT"]);
  }

  lemma SweepSecondHalf(state: InputState, evs: seq<JsEvent>)
    requires state == map["axis_0_LEFT" := true]
    requires evs == [AxisZero(0), AxisZero(19660)]
    ensures Run(state, evs) == RunResult(map["axis_0_RIGHT" := true], ["RIGHT"])
  {
    PositiveThreshold(19660);
    assert evs[..1][..0] == [];
    assert evs[..2] == evs;
    assert Run(state, evs[..1]) == RunResult(map[], []);
  }

  /**
   * Axis 0 swept through -1.0, -0.6, 0.0 and 0.6 of full scale fires LEFT on
   * entering the negative range and RIGHT on entering the positive one; the
   * pass through the centre fires nothing and clears the LEFT flag.
   */
  lemma AxisSweepExample(evs: seq<JsEvent>)
    requires evs == [AxisZero(-32767), AxisZero(-19660), AxisZero(0), AxisZero(19660)]
    ensures Run(map[], evs).edges == ["LEFT", "RIGHT"]
  {
    var a := evs[..2];
    var b := evs[2..];
    assert a + b == evs;
    SweepFirstHalf(a);
    SweepSecondHalf(map["axis_0_LEFT" := true], b);
    RunAppend(map[], a, b);
  }

  /**
   * A stick flipped from one side to the other without a record in the
   * deadzone leaves the first direction's flag set, so flipping back does
   * not fire it again: left, right, left fires only LEFT and RIGHT.
   */
  lemma FlipWithoutDeadzone(evs: seq<JsEvent>)
    requires evs == [AxisZero(-20000), AxisZero(20000), AxisZero(-20000)]
    ensures var r := Run(map[], evs);
            r.edges == ["LEFT", "RIGHT"] && IsActive(r.state, FlagKey(Left)) && IsActive(r.state, FlagKey(Right))
  {
    NegativeThreshold(-20000);
    PositiveThreshold(20000);
    assert evs[..1][..0] == [];
    assert evs[..2][..1] == evs[..1];
    assert evs[..3] == evs;
    var s1 := map["axis_0_LEFT" := true];
    var s2 := s1["axis_0_RIGHT" := true];
    assert Run(map[], evs[..1]) == RunResult(s1, ["LEFT"]);
    assert Run(map[], evs[..2]) == RunResult(s2, ["LEFT", "RIGHT"]);
    assert HandleEvent(s2, evs[2]) == Step(s2, None);
  }
}
