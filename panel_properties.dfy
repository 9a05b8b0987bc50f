/**
 * What one cycle of the main loop does, proved about `Panel.Step`:
 * the traffic it sends and its order, the levels it records, which monitor
 * ends up selected, when the process exits, and the invariant it keeps.
 */
module PanelProperties {
  import opened Common
  import opened Panel
  import Liveness

  /** The endpoint of monitor `i`. */
  function MonitorAt(cfg: Config, i: int): Endpoint
    requires cfg.Wf() && 0 <= i < MAX_MONITORS
  {
    Endpoint(cfg.ips[i], cfg.WirePort())
  }

  /** The datagrams the first `n` monitor keys send: a ping and "m<i+1>" to each newly pressed one. */
  function KeyDatagrams(cfg: Config, lastKeys: seq<int>, keys: seq<int>, n: nat): seq<Datagram>
    requires cfg.Wf() && n <= NUM_KEYS && |lastKeys| == NUM_KEYS && |keys| == NUM_KEYS
  {
    if n == 0 then []
    else
      KeyDatagrams(cfg, lastKeys, keys, n - 1) +
      (if Pressed(keys[n - 1], lastKeys[n - 1])
       then [Datagram(MonitorAt(cfg, n - 1), Liveness.PING), Datagram(MonitorAt(cfg, n - 1), KeyPayload(n - 1))]
       else [])
  }

  /** The highest of the first `n` keys with an edge, or -1. */
  function NewestBelow(lastKeys: seq<int>, keys: seq<int>, n: nat): (m: int)
    requires n <= NUM_KEYS && |lastKeys| == NUM_KEYS && |keys| == NUM_KEYS
    ensures -1 <= m < n
  {
    if n == 0 then -1
    else if Pressed(keys[n - 1], lastKeys[n - 1]) then n - 1
    else NewestBelow(lastKeys, keys, n - 1)
  }

  /** Some key among the first `n` has an edge and an address that does not parse. */
  predicate BadPress(cfg: Config, lastKeys: seq<int>, keys: seq<int>, n: nat)
    requires cfg.Wf() && n <= NUM_KEYS && |lastKeys| == NUM_KEYS && |keys| == NUM_KEYS
  {
    exists i :: 0 <= i < n && Pressed(keys[i], lastKeys[i]) && !cfg.parses(cfg.ips[i])
  }

  /** One command button: at most its payload is sent and the screen redrawn; nothing else changes. */
  lemma CommandEffect(s: State, level: int, last: int, payload: string, status: Status)
    ensures var a := Command(s, level, last, payload, status);
      && a.sent == s.sent + AddressedTo(s.dest, if Pressed(level, last) then [payload] else [])
      && a.current == s.current && a.dest == s.dest && a.leds == s.leds && a.lastCheck == s.lastCheck
      && a.exitCode == s.exitCode && a.lastKeys == s.lastKeys
      && a.lastDo == s.lastDo && a.lastDown == s.lastDown && a.lastUp == s.lastUp && a.lastDone == s.lastDone
      && a.screen == if Pressed(level, last) then Screen(s.current, status) else s.screen
  {
  }

  lemma CommandsEffect(s: State, r: Readings)
    ensures var a := Commands(s, r);
      && a.sent == s.sent + AddressedTo(s.dest, FiredCommands(s, r))
      && a.current == s.current && a.dest == s.dest && a.leds == s.leds && a.lastCheck == s.lastCheck
      && a.exitCode == s.exitCode && a.lastKeys == s.lastKeys
      && a.lastDo == r.doSw && a.lastDown == r.down && a.lastUp == r.up && a.lastDone == r.done
      && a.screen == (
        if Pressed(r.done, s.lastDone) then Screen(s.current, Finished)
        else if Pressed(r.up, s.lastUp) then Screen(s.current, Raising)
        else if Pressed(r.down, s.lastDown) then Screen(s.current, Lowering)
        else if Pressed(r.doSw, s.lastDo) then Screen(s.current, Working)
        else s.screen)
  {
    var f1 := if Pressed(r.doSw, s.lastDo) then ["do"] else [];
    var f2 := if Pressed(r.down, s.lastDown) then ["down"] else [];
    var f3 := if Pressed(r.up, s.lastUp) then ["up"] else [];
    var f4 := if Pressed(r.done, s.lastDone) then ["done"] else [];
    assert FiredCommands(s, r) == f1 + f2 + f3 + f4;
    var s1 := Command(s, r.doSw, s.lastDo, "do", Working).(lastDo := r.doSw);
    CommandEffect(s, r.doSw, s.lastDo, "do", Working);
    var s2 := Command(s1, r.down, s1.lastDown, "down", Lowering).(lastDown := r.down);
    CommandEffect(s1, r.down, s1.lastDown, "down", Lowering);
    var s3 := Command(s2, r.up, s2.lastUp, "up", Raising).(lastUp := r.up);
    CommandEffect(s2, r.up, s2.lastUp, "up", Raising);
    var s4 := Command(s3, r.done, s3.lastDone, "done", Finished).(lastDone := r.done);
    CommandEffect(s3, r.done, s3.lastDone, "done", Finished);
    assert Commands(s, r) == s4;
    AddressedToAppendFour(s.dest, s.sent, f1, f2, f3, f4);
  }

  lemma AddressedToAppendFour(d: Endpoint, base: seq<Datagram>, f1: seq<string>, f2: seq<string>, f3: seq<string>, f4: seq<string>)
    ensures base + AddressedTo(d, f1) + AddressedTo(d, f2) + AddressedTo(d, f3) + AddressedTo(d, f4)
         == base + AddressedTo(d, f1 + f2 + f3 + f4)
  {
    AddressedToAppend(d, f1, f2);
    AddressedToAppend(d, f1 + f2, f3);
    AddressedToAppend(d, f1 + f2 + f3, f4);
    Regroup(base, AddressedTo(d, f1), AddressedTo(d, f2), AddressedTo(d, f3), AddressedTo(d, f4));
  }

  lemma Regroup(base: seq<Datagram>, a1: seq<Datagram>, a2: seq<Datagram>, a3: seq<Datagram>, a4: seq<Datagram>)
    ensures base + a1 + a2 + a3 + a4 == base + (a1 + a2 + a3 + a4)
  {
  }

  lemma {:induction false} AddressedToAppend(d: Endpoint, p: seq<string>, q: seq<string>)
    ensures AddressedTo(d, p + q) == AddressedTo(d, p) + AddressedTo(d, q)
  {
    if p != [] {
      assert (p + q)[1..] == p[1..] + q;
      AddressedToAppend(d, p[1..], q);
    } else {
      assert p + q == q;
    }
  }

  /** One iteration of the monitor-key loop. */
  lemma KeyStepEffect(cfg: Config, p: State, keys: seq<int>, i: int)
    requires cfg.Wf() && 0 <= i < NUM_KEYS && |keys| == NUM_KEYS && |p.lastKeys| == NUM_KEYS && p.exitCode.None?
    ensures var t := KeyStep(cfg, p, keys, i);
      && t.lastDo == p.lastDo && t.lastDown == p.lastDown && t.lastUp == p.lastUp && t.lastDone == p.lastDone
      && t.lastCheck == p.lastCheck
      && (t.exitCode.Some? <==> Pressed(keys[i], p.lastKeys[i]) && !cfg.parses(cfg.ips[i]))
      && (t.exitCode.Some? ==> t.exitCode == Some(BAD_ADDRESS_EXIT) && t.sent == p.sent)
      && (t.exitCode.None? ==> t.lastKeys == p.lastKeys[i := keys[i]])
      && (!Pressed(keys[i], p.lastKeys[i]) ==>
            t.sent == p.sent && t.current == p.current && t.dest == p.dest && t.leds == p.leds && t.screen == p.screen)
      && (t.exitCode.None? && Pressed(keys[i], p.lastKeys[i]) ==>
            && t.sent == p.sent + [Datagram(MonitorAt(cfg, i), Liveness.PING), Datagram(MonitorAt(cfg, i), KeyPayload(i))]
            && t.current == i && t.dest == MonitorAt(cfg, i) && t.leds == OneHot(i) && t.screen == Screen(i, Chosen))
  {
  }

  /** What the monitor-key loop keeps and records, and when it ends the process. */
  lemma {:induction false} KeysFrame(cfg: Config, a: State, keys: seq<int>, n: nat)
    requires cfg.Wf() && n <= NUM_KEYS && |keys| == NUM_KEYS && |a.lastKeys| == NUM_KEYS && a.exitCode.None?
    ensures var t := Keys(cfg, a, keys, n);
      && t.lastDo == a.lastDo && t.lastDown == a.lastDown && t.lastUp == a.lastUp && t.lastDone == a.lastDone
      && t.lastCheck == a.lastCheck
      && (t.exitCode.None? ==> t.lastKeys == keys[..n] + a.lastKeys[n..])
      && (t.exitCode.Some? <==> BadPress(cfg, a.lastKeys, keys, n))
      && (t.exitCode.Some? ==> t.exitCode == Some(BAD_ADDRESS_EXIT))
  {
    if n > 0 {
      KeysFrame(cfg, a, keys, n - 1);
      var p := Keys(cfg, a, keys, n - 1);
      var i := n - 1;
      if p.exitCode.Some? {
        var j :| 0 <= j < n - 1 && Pressed(keys[j], a.lastKeys[j]) && !cfg.parses(cfg.ips[j]);
        assert BadPress(cfg, a.lastKeys, keys, n);
      } else {
        assert p.lastKeys[i] == a.lastKeys[i];
        KeyStepEffect(cfg, p, keys, i);
        var t := KeyStep(cfg, p, keys, i);
        assert Keys(cfg, a, keys, n) == t;
        if t.exitCode.None? {
          RecordLevel(keys, a.lastKeys, n);
        } else {
          assert BadPress(cfg, a.lastKeys, keys, n);
        }
      }
    }
  }

  /** Recording level n - 1 extends the recorded prefix by one key. */
  lemma RecordLevel(keys: seq<int>, last: seq<int>, n: nat)
    requires 1 <= n <= |keys| == |last|
    ensures (keys[..n - 1] + last[n - 1..])[n - 1 := keys[n - 1]] == keys[..n] + last[n..]
  {
  }

  /** Once a key press has ended the process, the rest of the key loop changes nothing. */
  lemma {:induction false} KeysStopAfterExit(cfg: Config, a: State, keys: seq<int>, n: nat, m: nat)
    requires cfg.Wf() && n <= m <= NUM_KEYS && |keys| == NUM_KEYS && |a.lastKeys| == NUM_KEYS
    requires Keys(cfg, a, keys, n).exitCode.Some?
    ensures Keys(cfg, a, keys, m) == Keys(cfg, a, keys, n)
    decreases m - n
  {
    if n < m {
      KeysStopAfterExit(cfg, a, keys, n, m - 1);
    }
  }

  /** The monitor-key loop only appends, and never a command payload. */
  lemma {:induction false} KeysSendNoCommands(cfg: Config, a: State, keys: seq<int>, n: nat)
    requires cfg.Wf() && n <= NUM_KEYS && |keys| == NUM_KEYS && |a.lastKeys| == NUM_KEYS && a.exitCode.None?
    ensures var t := Keys(cfg, a, keys, n);
      && a.sent <= t.sent
      && (forall k :: |a.sent| <= k < |t.sent| ==> !IsCommand(t.sent[k].payload))
  {
    if n > 0 {
      KeysSendNoCommands(cfg, a, keys, n - 1);
      var p := Keys(cfg, a, keys, n - 1);
      if p.exitCode.None? {
        KeyStepSendsNoCommands(cfg, p, keys, n - 1);
      }
    }
  }

  /** One iteration of the monitor-key loop appends at most a ping and a key payload. */
  lemma KeyStepSendsNoCommands(cfg: Config, p: State, keys: seq<int>, i: int)
    requires cfg.Wf() && 0 <= i < NUM_KEYS && |keys| == NUM_KEYS && |p.lastKeys| == NUM_KEYS && p.exitCode.None?
    ensures var t := KeyStep(cfg, p, keys, i);
      && p.sent <= t.sent
      && (forall k :: |p.sent| <= k < |t.sent| ==> !IsCommand(t.sent[k].payload))
  {
    KeyStepEffect(cfg, p, keys, i);
    assert !IsCommand(KeyPayload(i));
    assert !IsCommand(Liveness.PING);
  }

  /** The monitor-key loop when no pressed key has a bad address: selection, LEDs, display and traffic. */
  lemma {:induction false} KeysEffect(cfg: Config, a: State, keys: seq<int>, n: nat)
    requires cfg.Wf() && n <= NUM_KEYS && |keys| == NUM_KEYS && |a.lastKeys| == NUM_KEYS && a.exitCode.None?
    requires !BadPress(cfg, a.lastKeys, keys, n)
    ensures var t := Keys(cfg, a, keys, n);
      var m := NewestBelow(a.lastKeys, keys, n);
      && t.exitCode.None?
      && t.sent == a.sent + KeyDatagrams(cfg, a.lastKeys, keys, n)
      && (m < 0 ==> t.current == a.current && t.dest == a.dest && t.leds == a.leds && t.screen == a.screen)
      && (m >= 0 ==> t.current == m && t.dest == MonitorAt(cfg, m) && t.leds == OneHot(m) && t.screen == Screen(m, Chosen))
  {
    if n > 0 {
      assert !BadPress(cfg, a.lastKeys, keys, n - 1);
      KeysEffect(cfg, a, keys, n - 1);
      KeysFrame(cfg, a, keys, n - 1);
      var p := Keys(cfg, a, keys, n - 1);
      assert p.lastKeys[n - 1] == a.lastKeys[n - 1];
      KeyStepEffect(cfg, p, keys, n - 1);
    }
  }

  /** The loop's invariant holds when it is entered, unless `set_monitor(0)` already exited. */
  lemma StartEstablishesInv(cfg: Config, reply: Option<seq<byte>>)
    requires cfg.Wf()
    ensures var s := Start(cfg, reply);
      && (cfg.parses(cfg.ips[0]) ==> Inv(cfg, s) && s.current == 0 && s.sent == [Datagram(MonitorAt(cfg, 0), Liveness.PING)])
      && (!cfg.parses(cfg.ips[0]) ==> s.exitCode == Some(BAD_ADDRESS_EXIT))
      && s.lastDo == 1 && s.lastDown == 1 && s.lastUp == 1 && s.lastDone == 1 && s.lastKeys == [1, 1, 1]
      && s.lastCheck == 0
  {
  }

  /**
   * A cycle ends the process exactly when some monitor key is newly pressed
   * and its configured address does not parse.
   */
  lemma StepExits(cfg: Config, s: State, r: Readings)
    requires cfg.Wf() && |s.lastKeys| == NUM_KEYS && |r.keys| == NUM_KEYS && s.exitCode.None?
    ensures var t := Step(cfg, s, r);
      && (t.exitCode.Some? <==> BadPress(cfg, s.lastKeys, r.keys, NUM_KEYS))
      && (t.exitCode.Some? ==> t.exitCode == Some(BAD_ADDRESS_EXIT))
  {
    CommandsEffect(s, r);
    KeysFrame(cfg, Commands(s, r), r.keys, NUM_KEYS);
  }

  /** With every address valid the loop never exits. */
  lemma AllParseNeverExits(cfg: Config, s: State, r: Readings)
    requires cfg.Wf() && AllParse(cfg) && |s.lastKeys| == NUM_KEYS && |r.keys| == NUM_KEYS && s.exitCode.None?
    ensures Step(cfg, s, r).exitCode.None?
  {
    StepExits(cfg, s, r);
  }

  /**
   * Command payloads go out first, in the order DO, DOWN, UP, DONE, to the
   * destination selected before the cycle, one per edge; nothing sent later
   * in the cycle is a command. This holds on the exit path too.
   */
  lemma CommandsFirst(cfg: Config, s: State, r: Readings)
    requires cfg.Wf() && |s.lastKeys| == NUM_KEYS && |r.keys| == NUM_KEYS && s.exitCode.None?
    ensures var t := Step(cfg, s, r);
      var f := FiredCommands(s, r);
      && s.sent <= t.sent
      && |t.sent| >= |s.sent| + |f|
      && t.sent[|s.sent|..|s.sent| + |f|] == AddressedTo(s.dest, f)
      && forall k :: |s.sent| + |f| <= k < |t.sent| ==> !IsCommand(t.sent[k].payload)
  {
    CommandsEffect(s, r);
    var a := Commands(s, r);
    AfterCommandsNoCommands(cfg, a, r);
    PrefixSlice(s.sent, AddressedTo(s.dest, FiredCommands(s, r)), Step(cfg, s, r).sent);
  }

  /** The key loop and the refresh that follow the command phase send no command. */
  lemma AfterCommandsNoCommands(cfg: Config, a: State, r: Readings)
    requires cfg.Wf() && |a.lastKeys| == NUM_KEYS && |r.keys| == NUM_KEYS && a.exitCode.None?
    ensures var k := Keys(cfg, a, r.keys, NUM_KEYS);
      var t := if k.exitCode.Some? then k else Refresh(k, r);
      && a.sent <= t.sent
      && forall j :: |a.sent| <= j < |t.sent| ==> !IsCommand(t.sent[j].payload)
  {
    KeysSendNoCommands(cfg, a, r.keys, NUM_KEYS);
    assert !IsCommand(Liveness.PING);
  }

  /** A prefix `base + mid` of `all` is found again by slicing `all`. */
  lemma PrefixSlice(base: seq<Datagram>, mid: seq<Datagram>, all: seq<Datagram>)
    requires base + mid <= all
    ensures all[|base|..|base| + |mid|] == mid
  {
    assert all[..|base| + |mid|] == base + mid;
    assert all[|base|..|base| + |mid|] == (base + mid)[|base|..];
  }

  /**
   * Every datagram of a cycle that does not exit: the commands to the old
   * destination, then for each newly pressed monitor key in index order a
   * ping and its "m<i+1>" to that monitor, then the periodic ping when due.
   */
  lemma StepTraffic(cfg: Config, s: State, r: Readings)
    requires cfg.Wf() && Inv(cfg, s) && |r.keys| == NUM_KEYS
    requires Step(cfg, s, r).exitCode.None?
    ensures var t := Step(cfg, s, r);
      t.sent == s.sent + AddressedTo(s.dest, FiredCommands(s, r)) + KeyDatagrams(cfg, s.lastKeys, r.keys, NUM_KEYS)
                + (if RefreshDue(s, r.now) then [Datagram(t.dest, Liveness.PING)] else [])
  {
    CommandsEffect(s, r);
    StepExits(cfg, s, r);
    KeysEffect(cfg, Commands(s, r), r.keys, NUM_KEYS);
    KeysFrame(cfg, Commands(s, r), r.keys, NUM_KEYS);
  }

  /**
   * The state after a cycle that does not exit: the invariant still holds;
   * the highest newly pressed monitor key is selected, with its LED alone
   * lit (no press keeps the selection); every level read is recorded; the
   * refresh ran exactly when five seconds had passed.
   */
  lemma StepState(cfg: Config, s: State, r: Readings)
    requires cfg.Wf() && Inv(cfg, s) && |r.keys| == NUM_KEYS
    requires Step(cfg, s, r).exitCode.None?
    ensures var t := Step(cfg, s, r);
      var m := NewestKey(s.lastKeys, r.keys);
      && Inv(cfg, t)
      && t.current == (if m >= 0 then m else s.current)
      && t.leds == OneHot(t.current)
      && t.lastDo == r.doSw && t.lastDown == r.down && t.lastUp == r.up && t.lastDone == r.done
      && t.lastKeys == r.keys
      && t.lastCheck == (if RefreshDue(s, r.now) then r.later else s.lastCheck)
      && (RefreshDue(s, r.now) ==> t.screen == Screen(t.current, if Liveness.IsPong(r.reply) then Connected else Blank))
  {
    CommandsEffect(s, r);
    StepExits(cfg, s, r);
    KeysEffect(cfg, Commands(s, r), r.keys, NUM_KEYS);
    KeysFrame(cfg, Commands(s, r), r.keys, NUM_KEYS);
    NewestKeyIsLoopResult(s.lastKeys, r.keys);
    assert r.keys[..NUM_KEYS] == r.keys;
  }

  /** The highest-index-wins rule is what running the key loop in index order gives. */
  lemma NewestKeyIsLoopResult(lastKeys: seq<int>, keys: seq<int>)
    requires |lastKeys| == NUM_KEYS && |keys| == NUM_KEYS
    ensures NewestKey(lastKeys, keys) == NewestBelow(lastKeys, keys, NUM_KEYS)
  {
    assert NewestBelow(lastKeys, keys, 1) == (if Pressed(keys[0], lastKeys[0]) then 0 else -1);
  }

  /**
   * A button held down is reported once: after a cycle that read it as 0,
   * the next cycle sends its command only if that cycle's level is 0 and
   * the previous one was not.
   */
  lemma HeldButtonFiresOnce(cfg: Config, s: State, r1: Readings, r2: Readings)
    requires cfg.Wf() && Inv(cfg, s) && |r1.keys| == NUM_KEYS
    requires Step(cfg, s, r1).exitCode.None?
    ensures var t := Step(cfg, s, r1);
      && ("do" in FiredCommands(t, r2) <==> r2.doSw == 0 && r1.doSw != 0)
      && ("down" in FiredCommands(t, r2) <==> r2.down == 0 && r1.down != 0)
      && ("up" in FiredCommands(t, r2) <==> r2.up == 0 && r1.up != 0)
      && ("done" in FiredCommands(t, r2) <==> r2.done == 0 && r1.done != 0)
  {
    StepState(cfg, s, r1);
  }

  /** Every recorded level starts at 1, so a button already held on the first cycle fires on it. */
  lemma FirstCycleFires(cfg: Config, reply: Option<seq<byte>>, r: Readings)
    requires cfg.Wf() && |r.keys| == NUM_KEYS
    ensures var s := Start(cfg, reply);
      && ("do" in FiredCommands(s, r) <==> r.doSw == 0)
      && ("down" in FiredCommands(s, r) <==> r.down == 0)
      && ("up" in FiredCommands(s, r) <==> r.up == 0)
      && ("done" in FiredCommands(s, r) <==> r.done == 0)
      && (forall i :: 0 <= i < NUM_KEYS ==> (Pressed(r.keys[i], s.lastKeys[i]) <==> r.keys[i] == 0))
      && (RefreshDue(s, r.now) <==> r.now >= CHECK_PERIOD)
  {
  }
}
