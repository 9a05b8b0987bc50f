/**
 * The control program of monitor_control.c as an object: its globals
 * (`current_monitor`, `dest_addr`) and the locals of `main` that the loop
 * carries (`last_*_state`, `last_monitor_state[]`, `last_check`), plus the
 * LEDs, the display and the datagrams sent. Each method is proved to do what
 * the corresponding function of `Panel` says.
 */
module Controller {
  import opened Common
  import opened Panel
  import PanelProperties
  import Liveness

  class MonitorControl {
    const cfg: Config
    var current: int
    var dest: Endpoint
    var lastDo: int
    var lastDown: int
    var lastUp: int
    var lastDone: int
    const lastKeys: array<int>
    var leds: Leds
    var lastCheck: int
    var screen: Screen
    var sent: seq<Datagram>
    var exitCode: Option<int>

    ghost predicate Valid()
      reads this
    {
      cfg.Wf() && lastKeys.Length == NUM_KEYS
    }

    /** The state as a value. */
    ghost function Snapshot(): State
      reads this, lastKeys
    {
      State(current, dest, lastDo, lastDown, lastUp, lastDone, lastKeys[..], leds, lastCheck, screen, sent, exitCode)
    }

    /**
     * `main` from `set_monitor(current_monitor)` to lighting the red LED
     * (monitor_control.c:223-241); `reply` answers the first liveness check.
     */
    constructor (cfg: Config, reply: Option<seq<byte>>)
      requires cfg.Wf()
      ensures Valid() && fresh(lastKeys)
      ensures Snapshot() == Start(cfg, reply)
    {
      this.cfg := cfg;
      current := 0;
      dest := UNSET;
      lastDo, lastDown, lastUp, lastDone := 1, 1, 1, 1;
      lastKeys := new int[NUM_KEYS] [1, 1, 1];
      leds := Leds(false, false, false);
      lastCheck := 0;
      screen := Screen(0, Blank);
      sent := [];
      exitCode := None;
      new;
      SetMonitor(0);
      if exitCode.None? {
        var connected := CheckMonitor(reply);
        screen := Screen(0, if connected then Connected else Blank);
        leds := OneHot(0);
      }
    }

    /** `set_monitor(idx)` (monitor_control.c:89-101). */
    method SetMonitor(idx: int)
      requires Valid()
      modifies this
      ensures Valid()
      ensures Snapshot() == Select(cfg, old(Snapshot()), idx)
    {
      if idx < 0 || idx >= MAX_MONITORS {
        return;
      }
      current := idx;
      if !cfg.parses(cfg.ips[current]) {
        exitCode := Some(BAD_ADDRESS_EXIT);
        return;
      }
      dest := Endpoint(cfg.ips[current], cfg.WirePort());
    }

    /** One `sendto` of `payload` to the current destination. */
    method SendToMonitor(payload: string)
      modifies this`sent
      ensures sent == old(sent) + [Datagram(dest, payload)]
    {
      sent := sent + [Datagram(dest, payload)];
    }

    /** `check_monitor()` (monitor_control.c:127-149): ping, then match the reply. */
    method CheckMonitor(reply: Option<seq<byte>>) returns (alive: bool)
      modifies this`sent
      ensures sent == old(sent) + [Datagram(dest, Liveness.PING)]
      ensures alive == Liveness.IsPong(reply)
    {
      SendToMonitor(Liveness.PING);
      alive := Liveness.IsPong(reply);
    }

    /** The reaction to one command button whose recorded level was `last` (e.g. monitor_control.c:246-254). */
    method HandleCommand(level: int, last: int, payload: string, status: Status)
      requires Valid()
      modifies this`sent, this`screen
      ensures Valid()
      ensures Snapshot() == Command(old(Snapshot()), level, last, payload, status)
    {
      if level == 0 && last != 0 {
        SendToMonitor(payload);
        screen := Screen(current, status);
      }
    }

    /** The four command buttons (monitor_control.c:244-294). */
    method PollCommands(r: Readings)
      requires Valid()
      modifies this
      ensures Valid()
      ensures Snapshot() == Commands(old(Snapshot()), r)
    {
      ghost var s0 := Snapshot();
      HandleCommand(r.doSw, lastDo, "do", Working);
      lastDo := r.doSw;
      ghost var s1 := Snapshot();
      HandleCommand(r.down, lastDown, "down", Lowering);
      lastDown := r.down;
      ghost var s2 := Snapshot();
      HandleCommand(r.up, lastUp, "up", Raising);
      lastUp := r.up;
      ghost var s3 := Snapshot();
      HandleCommand(r.done, lastDone, "done", Finished);
      lastDone := r.done;
      assert s1 == Command(s0, r.doSw, s0.lastDo, "do", Working).(lastDo := r.doSw);
      assert s2 == Command(s1, r.down, s1.lastDown, "down", Lowering).(lastDown := r.down);
      assert s3 == Command(s2, r.up, s2.lastUp, "up", Raising).(lastUp := r.up);
    }

    /** The monitor-key loop (monitor_control.c:297-322); stops when `set_monitor` exits. */
    method PollKeys(keys: seq<int>)
      requires Valid() && exitCode.None? && |keys| == NUM_KEYS
      modifies this, lastKeys
      ensures Valid()
      ensures Snapshot() == Keys(cfg, old(Snapshot()), keys, NUM_KEYS)
    {
      ghost var a := Snapshot();
      for i := 0 to NUM_KEYS
        invariant Valid() && exitCode.None?
        invariant Snapshot() == Keys(cfg, a, keys, i)
      {
        var val := keys[i];
        ghost var before := Snapshot();
        if val == 0 && lastKeys[i] != 0 {
          SetMonitor(i);
          if exitCode.Some? {
            // exit(1) inside set_monitor: nothing more runs
            assert Snapshot() == Keys(cfg, a, keys, i + 1);
            PanelProperties.KeysStopAfterExit(cfg, a, keys, i + 1, NUM_KEYS);
            return;
          }
          // display_monitor_status(i) pings; the screen it draws is redrawn below
          SendToMonitor(Liveness.PING);
          SendToMonitor(KeyPayload(i));
          screen := Screen(i, Chosen);
          leds := OneHot(i);
        }
        lastKeys[i] := val;
        assert Snapshot() == KeyStep(cfg, before, keys, i);
      }
    }

    /** The periodic liveness refresh (monitor_control.c:325-336). */
    method RefreshStatus(r: Readings)
      requires Valid()
      modifies this
      ensures Valid()
      ensures Snapshot() == Refresh(old(Snapshot()), r)
    {
      if r.now - lastCheck >= CHECK_PERIOD {
        var connected := CheckMonitor(r.reply);
        screen := Screen(current, if connected then Connected else Blank);
        lastCheck := r.later;
      }
    }

    /** One iteration of `while(1)` (monitor_control.c:243-339). */
    method Cycle(r: Readings)
      requires Valid() && exitCode.None? && |r.keys| == NUM_KEYS
      modifies this, lastKeys
      ensures Valid()
      ensures Snapshot() == Step(cfg, old(Snapshot()), r)
    {
      PollCommands(r);
      PollKeys(r.keys);
      if exitCode.None? {
        RefreshStatus(r);
      }
    }
  }
}
