/**
 * The decision logic of the main loop of monitor_control.c, as functions on
 * an explicit state record.
 *
 * One cycle of `while(1)` (monitor_control.c:243-339) edge-detects the four
 * command buttons DO, DOWN, UP and DONE and sends their payloads, then
 * edge-detects the three monitor keys (each press selects a monitor, pings
 * it, notifies it with "m1".."m3" and lights its LED), then refreshes the
 * liveness line of the display when five seconds have passed. The debounced
 * levels, the two clock readings and the liveness reply are the cycle's
 * inputs; sending is recorded by appending to `sent`.
 */
module Panel {
  import opened Common
  import Liveness

  /** MAX_MONITORS and NUM_KEYS (monitor_control.c:19-20). */
  const MAX_MONITORS := 3
  const NUM_KEYS := 3
  /** The refresh period in seconds (monitor_control.c:325). */
  const CHECK_PERIOD := 5
  /** The exit status of a configured address that does not parse (monitor_control.c:98). */
  const BAD_ADDRESS_EXIT := 1

  /** A resolved destination, `dest_addr`. */
  datatype Endpoint = Endpoint(ip: string, port: int)

  /** The zero-filled `dest_addr` before the first `set_monitor`. */
  const UNSET := Endpoint("0.0.0.0", 0)

  /** One `sendto` on the UDP socket. */
  datatype Datagram = Datagram(to: Endpoint, payload: string)

  /** The word on the second display line. */
  datatype Status =
    | Working    // DO pressed
    | Lowering   // DOWN pressed
    | Raising    // UP pressed
    | Finished   // DONE pressed
    | Chosen     // a monitor key pressed
    | Connected  // the liveness check answered
    | Blank      // the liveness check did not answer: a line of spaces

  /** The display: the first line names monitor `monitor + 1`, the second shows `status`. */
  datatype Screen = Screen(monitor: int, status: Status)

  /** The red, yellow and green LEDs (monitor 1, 2, 3). */
  datatype Leds = Leds(red: bool, yellow: bool, green: bool)

  /**
   * The configuration: the monitor addresses, the port, and which address
   * strings `inet_pton` accepts as IPv4 addresses.
   */
  datatype Config = Config(ips: seq<string>, port: int, parses: string -> bool)
  {
    predicate Wf() { |ips| == MAX_MONITORS }

    /** The port `htons(monitor_port)` puts on the wire: the int cut to its low 16 bits. */
    function WirePort(): (p: int)
      ensures 0 <= p < 0x1_0000
      ensures 0 <= port < 0x1_0000 ==> p == port
      ensures (p - port) % 0x1_0000 == 0
    {
      port % 0x1_0000
    }
  }

  /**
   * The inputs of one cycle: the debounced levels in reading order (negative
   * when a read failed), `time(NULL)` at the refresh test and after the
   * refresh, and the datagram the refresh's ping brought back.
   */
  datatype Readings = Readings(
    doSw: int, down: int, up: int, done: int, keys: seq<int>,
    now: int, later: int, reply: Option<seq<byte>>)

  /** The process state the loop carries from cycle to cycle. */
  datatype State = State(
    current: int,            // current_monitor
    dest: Endpoint,          // dest_addr
    lastDo: int, lastDown: int, lastUp: int, lastDone: int,
    lastKeys: seq<int>,      // last_monitor_state[]
    leds: Leds,
    lastCheck: int,          // last_check
    screen: Screen,
    sent: seq<Datagram>,     // every datagram sent so far, in order
    exitCode: Option<int>)   // Some(c) once the process has called exit(c)

  /** Exactly LED `i` on. */
  function OneHot(i: int): Leds
  {
    Leds(i == 0, i == 1, i == 2)
  }

  /** An edge: the level reads 0 (pressed) and the recorded level did not. */
  predicate Pressed(level: int, last: int)
  {
    level == 0 && last != 0
  }

  /** `"m%d"` of `i + 1`. */
  function KeyPayload(i: int): (p: string)
    requires 0 <= i < NUM_KEYS
    ensures |p| == 2 && p[0] == 'm' && p[1] as int - '0' as int == i + 1
  {
    ['m', ('1' as int + i) as char]
  }

  /** The four command payloads, none of which is a probe or a key notification. */
  predicate IsCommand(p: string)
  {
    p == "do" || p == "down" || p == "up" || p == "done"
  }

  function Send(s: State, payload: string): State
  {
    s.(sent := s.sent + [Datagram(s.dest, payload)])
  }

  /** `set_monitor(idx)` (monitor_control.c:89-101). */
  function Select(cfg: Config, s: State, idx: int): (t: State)
    requires cfg.Wf()
    ensures idx < 0 || idx >= MAX_MONITORS ==> t == s
    ensures 0 <= idx < MAX_MONITORS ==>
      t.current == idx &&
      (t.exitCode.None? <==> s.exitCode.None? && cfg.parses(cfg.ips[idx])) &&
      (cfg.parses(cfg.ips[idx]) ==> t.dest == Endpoint(cfg.ips[idx], cfg.WirePort()) && t.exitCode == s.exitCode) &&
      (!cfg.parses(cfg.ips[idx]) ==> t.dest == s.dest && t.exitCode == Some(BAD_ADDRESS_EXIT))
    ensures t.(current := s.current, dest := s.dest, exitCode := s.exitCode) == s
  {
    if idx < 0 || idx >= MAX_MONITORS then s
    else if cfg.parses(cfg.ips[idx]) then s.(current := idx, dest := Endpoint(cfg.ips[idx], cfg.WirePort()))
    else s.(current := idx, exitCode := Some(BAD_ADDRESS_EXIT))
  }

  /** One command button (e.g. monitor_control.c:245-255): on an edge send `payload` and show `status`. */
  function Command(s: State, level: int, last: int, payload: string, status: Status): (t: State)
    ensures s.sent <= t.sent && |t.sent| <= |s.sent| + 1
  {
    if Pressed(level, last) then Send(s, payload).(screen := Screen(s.current, status)) else s
  }

  /** The four command buttons, in the order the loop reads them (monitor_control.c:245-294). */
  function Commands(s: State, r: Readings): (t: State)
    ensures s.sent <= t.sent && |t.sent| <= |s.sent| + 4
  {
    var s1 := Command(s, r.doSw, s.lastDo, "do", Working).(lastDo := r.doSw);
    var s2 := Command(s1, r.down, s1.lastDown, "down", Lowering).(lastDown := r.down);
    var s3 := Command(s2, r.up, s2.lastUp, "up", Raising).(lastUp := r.up);
    Command(s3, r.done, s3.lastDone, "done", Finished).(lastDone := r.done)
  }

  /**
   * A press of monitor key `i` (monitor_control.c:300-318): select the
   * monitor, ping it (display_monitor_status), notify it, show it and light
   * its LED. An address that does not parse ends the process inside
   * `set_monitor`.
   */
  function PressKey(cfg: Config, s: State, i: int): (t: State)
    requires cfg.Wf() && 0 <= i < NUM_KEYS
    ensures s.sent <= t.sent
    ensures t.exitCode.Some? ==> t.sent == s.sent
    ensures t.exitCode.None? ==> |t.sent| == |s.sent| + 2
  {
    var t := Select(cfg, s, i);
    if t.exitCode.Some? then t
    else Send(Send(t, Liveness.PING), KeyPayload(i)).(screen := Screen(i, Chosen), leds := OneHot(i))
  }

  /** One iteration of the monitor-key loop (monitor_control.c:298-321). */
  function KeyStep(cfg: Config, s: State, keys: seq<int>, i: int): (t: State)
    requires cfg.Wf() && 0 <= i < NUM_KEYS && |keys| == NUM_KEYS && |s.lastKeys| == NUM_KEYS
    ensures |t.lastKeys| == NUM_KEYS && s.sent <= t.sent
  {
    if !Pressed(keys[i], s.lastKeys[i]) then s.(lastKeys := s.lastKeys[i := keys[i]])
    else
      var t := PressKey(cfg, s, i);
      if t.exitCode.Some? then t else t.(lastKeys := t.lastKeys[i := keys[i]])
  }

  /** The first `n` iterations of the monitor-key loop; nothing runs after an exit. */
  function Keys(cfg: Config, s: State, keys: seq<int>, n: nat): (t: State)
    requires cfg.Wf() && n <= NUM_KEYS && |keys| == NUM_KEYS && |s.lastKeys| == NUM_KEYS
    ensures |t.lastKeys| == NUM_KEYS && s.sent <= t.sent
    ensures s.exitCode.Some? ==> t == s
  {
    if n == 0 then s
    else
      var t := Keys(cfg, s, keys, n - 1);
      if t.exitCode.Some? then t else KeyStep(cfg, t, keys, n - 1)
  }

  /** Whether the periodic refresh runs (monitor_control.c:325). */
  predicate RefreshDue(s: State, now: int)
  {
    now - s.lastCheck >= CHECK_PERIOD
  }

  /** The periodic liveness refresh (monitor_control.c:325-336). */
  function Refresh(s: State, r: Readings): (t: State)
    ensures RefreshDue(s, r.now) <==> |t.sent| == |s.sent| + 1
    ensures !RefreshDue(s, r.now) ==> t == s
    ensures s.sent <= t.sent && t.lastKeys == s.lastKeys
  {
    if RefreshDue(s, r.now) then
      Send(s, Liveness.PING).(
        screen := Screen(s.current, if Liveness.IsPong(r.reply) then Connected else Blank),
        lastCheck := r.later)
    else s
  }

  /** One whole cycle of the main loop. */
  function Step(cfg: Config, s: State, r: Readings): (t: State)
    requires cfg.Wf() && |s.lastKeys| == NUM_KEYS && |r.keys| == NUM_KEYS
    ensures |t.lastKeys| == NUM_KEYS && s.sent <= t.sent
  {
    var t := Keys(cfg, Commands(s, r), r.keys, NUM_KEYS);
    if t.exitCode.Some? then t else Refresh(t, r)
  }

  /**
   * The state when the loop is entered (monitor_control.c:223-241):
   * `set_monitor(0)`, the first status display with its ping, every
   * recorded level 1, `last_check` 0 and the red LED lit.
   */
  function Start(cfg: Config, reply: Option<seq<byte>>): (t: State)
    requires cfg.Wf()
    ensures t.exitCode.None? <==> cfg.parses(cfg.ips[0])
    ensures t.exitCode.None? ==> t.current == 0 && t.sent == [Datagram(t.dest, Liveness.PING)]
    ensures t.exitCode.Some? ==> t.sent == []
    ensures |t.lastKeys| == NUM_KEYS
  {
    var s0 := State(0, UNSET, 1, 1, 1, 1, [1, 1, 1], Leds(false, false, false), 0, Screen(0, Blank), [], None);
    var s1 := Select(cfg, s0, 0);
    if s1.exitCode.Some? then s1
    else Send(s1, Liveness.PING).(
      screen := Screen(0, if Liveness.IsPong(reply) then Connected else Blank),
      leds := OneHot(0))
  }

  // ---------------------------------------------------------------------------
  // Reference definitions the properties below are stated with.

  /** Every configured address parses, so no key press can end the process. */
  predicate AllParse(cfg: Config)
    requires cfg.Wf()
  {
    forall i :: 0 <= i < MAX_MONITORS ==> cfg.parses(cfg.ips[i])
  }

  /** The running loop's invariant: a valid selection, its address, its LED and its number on screen. */
  predicate Inv(cfg: Config, s: State)
    requires cfg.Wf()
  {
    && |s.lastKeys| == NUM_KEYS
    && s.exitCode.None?
    && 0 <= s.current < MAX_MONITORS
    && cfg.parses(cfg.ips[s.current])
    && s.dest == Endpoint(cfg.ips[s.current], cfg.WirePort())
    && s.leds == OneHot(s.current)
    && s.screen.monitor == s.current
  }

  /** The command payloads a cycle sends, in the fixed order DO, DOWN, UP, DONE. */
  function FiredCommands(s: State, r: Readings): seq<string>
  {
    (if Pressed(r.doSw, s.lastDo) then ["do"] else []) +
    (if Pressed(r.down, s.lastDown) then ["down"] else []) +
    (if Pressed(r.up, s.lastUp) then ["up"] else []) +
    (if Pressed(r.done, s.lastDone) then ["done"] else [])
  }

  /** The same payloads addressed to `dest`. */
  function AddressedTo(dest: Endpoint, payloads: seq<string>): (ds: seq<Datagram>)
    ensures |ds| == |payloads|
  {
    if payloads == [] then [] else [Datagram(dest, payloads[0])] + AddressedTo(dest, payloads[1..])
  }

  /** The highest-numbered monitor key with an edge this cycle, or -1. */
  function NewestKey(lastKeys: seq<int>, keys: seq<int>): int
    requires |lastKeys| == NUM_KEYS && |keys| == NUM_KEYS
  {
    if Pressed(keys[2], lastKeys[2]) then 2
    else if Pressed(keys[1], lastKeys[1]) then 1
    else if Pressed(keys[0], lastKeys[0]) then 0
    else -1
  }
}
