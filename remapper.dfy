/**
 * The stateful objects of the add-on: the remapper, which drains the device
 * and dispatches combos on rising edges, and the settings dialog, which
 * edits the remapper's mapping table in place.
 */
module Remapper {
  import opened Wrappers
  import opened Joystick
  import opened Config
  import opened Input

  class ControllerRemapper {
    /** Button or direction name to key-combo text. */
    var mappings: map<string, string>
    var running: bool
    /** Whether a worker thread is recorded in `thread`. */
    var hasThread: bool
    /** How many worker threads `Start` has launched; proof bookkeeping with no field in the add-on. */
    ghost var threadsStarted: nat
    /** Whether `js_device` holds an open device. */
    var deviceOpen: bool
    var lastState: InputState
    /** Every combo handed to `send_key_event`, in order; proof bookkeeping with no field in the add-on. */
    ghost var sent: seq<string>

    /**
     * `__init__`: the stored table when one could be loaded, the defaults
     * otherwise; stopped, with an empty state table.
     */
    constructor(stored: Option<map<string, string>>)
      ensures stored.Some? ==> mappings == stored.value
      ensures stored.None? ==> mappings == DefaultMappings
      ensures !running && !hasThread && threadsStarted == 0 && !deviceOpen
      ensures lastState == map[] && sent == []
    {
      mappings := if stored.Some? then stored.value else DefaultMappings;
      running := false;
      hasThread := false;
      threadsStarted := 0;
      deviceOpen := false;
      lastState := map[];
      sent := [];
    }

    /**
     * `detect_controller`, with the outcomes of its system calls as inputs:
     * whether a device was found and passed the identity check, whether
     * opening it succeeded, and whether switching it to non-blocking mode
     * succeeded. A device that opened stays held even when the mode switch
     * then fails and the call reports failure.
     */
    method DetectController(deviceFound: bool, openSucceeded: bool, modeSet: bool) returns (ok: bool)
      modifies this`deviceOpen
      ensures ok == (deviceFound && openSucceeded && modeSet)
      ensures deviceOpen == (old(deviceOpen) || (deviceFound && openSucceeded))
    {
      if !deviceFound {
        return false;
      }
      if !openSucceeded {
        return false;
      }
      deviceOpen := true;
      if !modeSet {
        return false;
      }
      return true;
    }

    /** Hands a combo to `send_key_event`; what the host then does with it is `Combo.SendKeyEvent`. */
    method SendKeyEvent(combo: string)
      modifies this`sent
      ensures sent == old(sent) + [combo]
    {
      sent := sent + [combo];
    }

    /** `mappings.get(name)`, sent when it is non-empty. */
    method DispatchMapped(name: string)
      modifies this`sent
      ensures sent == old(sent) + Dispatch(mappings, name)
    {
      if name in mappings {
        var combo := mappings[name];
        if combo != "" {
          SendKeyEvent(combo);
        }
      }
    }

    /** One direction past its threshold: fire on a clear flag, then set the flag. */
    method EngageDirection(d: Direction)
      modifies this`lastState, this`sent
      ensures var step := Engage(old(lastState), d);
              lastState == step.state && sent == old(sent) + Dispatches(mappings, OptionToSeq(step.edge))
    {
      var key := FlagKey(d);
      var last := key in lastState && lastState[key];
      if !last {
        DispatchMapped(DirectionName(d));
        assert OptionToSeq(Some(DirectionName(d)))[..0] == [];
      }
      lastState := lastState[key := true];
    }

    /** The branch for one axis: the negative end, the positive end, or the deadzone. */
    method HandleAxis(x: real, neg: Direction, pos: Direction)
      modifies this`lastState, this`sent
      ensures var step := Deflect(old(lastState), x, neg, pos);
              lastState == step.state && sent == old(sent) + Dispatches(mappings, OptionToSeq(step.edge))
    {
      if x < -0.5 {
        EngageDirection(neg);
      } else if x > 0.5 {
        EngageDirection(pos);
      } else {
        lastState := lastState - {FlagKey(neg)};
        lastState := lastState - {FlagKey(pos)};
      }
    }

    /** The body of the drain loop for one decoded record. */
    method HandleRecord(e: JsEvent)
      modifies this`lastState, this`sent
      ensures var step := HandleEvent(old(lastState), e);
              lastState == step.state && sent == old(sent) + Dispatches(mappings, OptionToSeq(step.edge))
    {
      if e.kind & JsEventButton != 0 {
        var buttonNum := e.number;
        var buttonState := e.value != 0;
        var key := ButtonKey(buttonNum);
        if buttonNum as int in ControllerButtons && buttonState {
          var last := key in lastState && lastState[key];
          if !last {
            var name := ControllerButtons[buttonNum as int];
            DispatchMapped(name);
            assert OptionToSeq(Some(name))[..0] == [];
          }
        }
        lastState := lastState[key := buttonState];
      } else if e.kind & JsEventAxis != 0 {
        var axisValue := Normalized(e.value);
        if e.number == 0 {
          HandleAxis(axisValue, Left, Right);
        } else if e.number == 1 {
          HandleAxis(axisValue, Up, Down);
        }
      }
    }

    /**
     * `process_controller_input`: with no open device nothing happens;
     * otherwise the device is drained.
     */
    method ProcessControllerInput(results: seq<ReadResult>)
      requires forall i :: 0 <= i < |results| ==> WithinRecordSize(results[i])
      modifies this`lastState, this`sent
      ensures !deviceOpen ==> lastState == old(lastState) && sent == old(sent)
      ensures deviceOpen ==>
                var r := Run(old(lastState), Drained(results));
                lastState == r.state && sent == old(sent) + Dispatches(mappings, r.edges)
    {
      if !deviceOpen {
        return;
      }
      Drain(results);
    }

    /**
     * The drain loop: the results of successive `read(8)` calls are consumed
     * until one fails, is empty or is shorter than a record; each full record
     * is decoded and handled in turn.
     */
    method Drain(results: seq<ReadResult>)
      requires forall i :: 0 <= i < |results| ==> WithinRecordSize(results[i])
      modifies this`lastState, this`sent
      ensures var r := Run(old(lastState), Drained(results));
              lastState == r.state && sent == old(sent) + Dispatches(mappings, r.edges)
    {
      ghost var evs := Drained(results);
      ghost var start := lastState;
      ghost var sentBefore := sent;
      assert evs[..0] == [];
      var i := 0;
      while i < |results|
        invariant 0 <= i <= |evs|
        invariant Reflects(start, sentBefore, evs[..i])
        decreases |results| - i
      {
        var data := results[i];
        if data.ReadFailed? {
          break;
        }
        if |data.bytes| == 0 {
          break;
        }
        if |data.bytes| < EventSize {
          break;
        }
        var e := Decode(data.bytes);
        assert i < |evs| && e == evs[i];
        HandleNext(e, start, sentBefore, evs, i);
        i := i + 1;
      }
      assert i == |evs|;
      assert evs[..i] == evs;
    }

    /** The table and the trace are what handling `evs` from `start` gives. */
    ghost predicate Reflects(start: InputState, sentBefore: seq<string>, evs: seq<JsEvent>)
      reads this
    {
      var r := Run(start, evs);
      lastState == r.state && sent == sentBefore + Dispatches(mappings, r.edges)
    }

    /** Handles the next record of `evs`, keeping the table and trace in step with the run. */
    method HandleNext(e: JsEvent, ghost start: InputState, ghost sentBefore: seq<string>, ghost evs: seq<JsEvent>, ghost i: nat)
      requires i < |evs| && e == evs[i] && Reflects(start, sentBefore, evs[..i])
      modifies this`lastState, this`sent
      ensures Reflects(start, sentBefore, evs[..i + 1])
    {
      ghost var prev := Run(start, evs[..i]);
      ghost var step := HandleEvent(prev.state, e);
      ghost var earlier := Dispatches(mappings, prev.edges);
      ghost var now := Dispatches(mappings, OptionToSeq(step.edge));
      HandleRecord(e);
      DispatchesExtend(mappings, start, evs, i);
      AppendAssociative(sentBefore, earlier, now);
    }

    /** `start`: a second call while running launches nothing and changes nothing. */
    method Start() returns (ok: bool)
      modifies this`running, this`hasThread, this`threadsStarted
      ensures ok && running
      ensures old(running) ==> hasThread == old(hasThread) && threadsStarted == old(threadsStarted)
      ensures !old(running) ==> hasThread && threadsStarted == old(threadsStarted) + 1
    {
      if running {
        return true;
      }
      running := true;
      hasThread := true;
      threadsStarted := threadsStarted + 1;
      return true;
    }

    /** `stop`: clear the flag, and forget the worker after joining it. */
    method Stop()
      modifies this`running, this`hasThread
      ensures !running && !hasThread
    {
      running := false;
      if hasThread {
        hasThread := false;
      }
    }
  }

  class ConfigDialog {
    const remapper: ControllerRemapper

    constructor(remapper: ControllerRemapper)
      ensures this.remapper == remapper
    {
      this.remapper := remapper;
    }

    /** `add_mapping`: the chosen button and the typed text. */
    method AddMapping(button: string, text: string)
      modifies remapper`mappings
      ensures remapper.mappings == SetMapping(old(remapper.mappings), button, text)
    {
      var combo := Text.Strip(text);
      if button != "" && combo != "" {
        remapper.mappings := remapper.mappings[button := combo];
      }
    }

    /** `update_mapping`, which behaves exactly as `add_mapping`. */
    method UpdateMapping(button: string, text: string)
      modifies remapper`mappings
      ensures remapper.mappings == SetMapping(old(remapper.mappings), button, text)
    {
      var combo := Text.Strip(text);
      if button != "" && combo != "" {
        remapper.mappings := remapper.mappings[button := combo];
      }
    }

    /** `remove_mapping`: the chosen button's entry goes, when there is one. */
    method RemoveMapping(button: string)
      modifies remapper`mappings
      ensures remapper.mappings == Config.RemoveMapping(old(remapper.mappings), button)
    {
      if button in remapper.mappings {
        remapper.mappings := remapper.mappings - {button};
      }
    }
  }
}
