/** The fleet of program monitors of `monitoring/monitor_manager.py`: a
    name-to-monitor table that `create_monitors` fills from configurations,
    and bulk operations that start, stop, pause or resume every monitor in
    it and count the ones they acted on. */
module Fleet {
  import opened Basics
  import opened Desktop
  import opened Recognition
  import opened ProgramMonitoring

  /** What the manager can observe of one monitor. */
  datatype MonitorView = MonitorView(liveness: Liveness, running: bool, paused: bool, hwnd: int, title: string)

  type Views = map<string, MonitorView>

  /** The view of a monitor just built from `config`. */
  function FreshView(config: Config): (v: MonitorView)
    ensures v.liveness == NotStarted && !v.running && !v.paused && v.hwnd == 0
  {
    MonitorView(NotStarted, false, false, 0, SettingsOf(config).title)
  }

  /** A configuration without a (non-empty) `name` is skipped. */
  predicate Named(config: Config)
  {
    config.name.Some? && config.name.value != ""
  }

  // ---------------------------------------------------------------------
  // create_monitors
  // ---------------------------------------------------------------------

  /** `create_monitors` over `configs`, in order: the table it leaves and
      the count it returns. A name whose monitor is alive is kept; an absent
      or dead one is replaced by a fresh monitor and counted. */
  function Created(v: Views, configs: seq<Config>): (r: (Views, nat))
    ensures v.Keys <= r.0.Keys
    ensures r.1 <= |configs|
  {
    if configs == [] then (v, 0)
    else
      var prev := Created(v, configs[..|configs| - 1]);
      var c := configs[|configs| - 1];
      if !Named(c) then prev
      else if c.name.value in prev.0 && prev.0[c.name.value].liveness == Alive then prev
      else (prev.0[c.name.value := FreshView(c)], prev.1 + 1)
  }

  /** A key the table did not have is the name of one of the configurations. */
  lemma {:induction false} CreatedNewKeysNamed(v: Views, configs: seq<Config>)
    ensures forall n :: n in Created(v, configs).0 && n !in v ==>
              exists i :: 0 <= i < |configs| && Named(configs[i]) && configs[i].name.value == n
  {
    if configs != [] {
      var init := configs[..|configs| - 1];
      CreatedNewKeysNamed(v, init);
      forall n | n in Created(v, configs).0 && n !in v
        ensures exists i :: 0 <= i < |configs| && Named(configs[i]) && configs[i].name.value == n
      {
        if n in Created(v, init).0 {
          var i :| 0 <= i < |init| && Named(init[i]) && init[i].name.value == n;
          assert configs[i] == init[i];
        } else {
          assert Named(configs[|configs| - 1]) && configs[|configs| - 1].name.value == n;
        }
      }
    }
  }

  /** A configuration without a name changes nothing and is not counted. */
  lemma CreatedSkipsUnnamed(v: Views, configs: seq<Config>, c: Config)
    requires !Named(c)
    ensures Created(v, configs + [c]) == Created(v, configs)
  {
    assert (configs + [c])[..|configs|] == configs;
  }

  /** A named configuration whose monitor is alive changes nothing and is
      not counted; one whose monitor is absent or not alive puts a fresh
      monitor under its name, replacing any earlier one, and is counted. */
  lemma CreatedStep(v: Views, configs: seq<Config>, c: Config)
    requires Named(c)
    ensures var prev, n := Created(v, configs), c.name.value;
            && (n in prev.0 && prev.0[n].liveness == Alive ==> Created(v, configs + [c]) == prev)
            && (!(n in prev.0 && prev.0[n].liveness == Alive) ==>
                  Created(v, configs + [c]) == (prev.0[n := FreshView(c)], prev.1 + 1))
  {
    var cs := configs + [c];
    assert cs[..|cs| - 1] == configs;
    assert cs[|cs| - 1] == c;
  }

  /** A monitor that is alive is never replaced. */
  lemma {:induction false} CreatedKeepsAlive(v: Views, configs: seq<Config>)
    ensures forall n :: n in v && v[n].liveness == Alive ==> n in Created(v, configs).0 && Created(v, configs).0[n] == v[n]
  {
    if configs != [] {
      CreatedKeepsAlive(v, configs[..|configs| - 1]);
    }
  }

  /** Two configurations with one name, whose monitor is not alive, are
      both counted, and the second one is the monitor kept. */
  lemma CreatedCountsDuplicates(v: Views, c1: Config, c2: Config)
    requires Named(c1) && c2.name == c1.name
    requires !(c1.name.value in v && v[c1.name.value].liveness == Alive)
    ensures Created(v, [c1, c2]).1 == 2
    ensures Created(v, [c1, c2]).0 == v[c1.name.value := FreshView(c2)]
  {
    var n := c1.name.value;
    assert [c1, c2][..1] == [c1];
    assert [c1][..0] == [];
    assert Created(v, [c1][..0]) == (v, 0);
    var first := Created(v, [c1]);
    assert first == (v[n := FreshView(c1)], 1);
    assert first.0[n].liveness == NotStarted;
  }

  // ---------------------------------------------------------------------
  // The bulk operations, on views
  // ---------------------------------------------------------------------

  /** `start_all_monitors`, `stop_all_monitors`, `pause_all_monitors` and
      `resume_all_monitors`: each visits every monitor and counts the ones
      it acted on. */
  datatype BulkOp = StartAll | StopAll | PauseAll | ResumeAll

  /** Whether `op` acts on (and counts) a monitor in state `m`. `start()` is
      called on every monitor that is not alive, but on a finished thread it
      raises, is caught and is not counted, so only a never-started monitor
      counts. */
  predicate Acts(op: BulkOp, m: MonitorView)
  {
    match op
    case StartAll => m.liveness == NotStarted
    case StopAll => m.liveness == Alive
    case PauseAll => m.liveness == Alive && !m.paused
    case ResumeAll => m.liveness == Alive && m.paused
  }

  /** The state `op` leaves one monitor in. */
  function Apply(op: BulkOp, m: MonitorView): (r: MonitorView)
    ensures !Acts(op, m) ==> r == m
    ensures r.hwnd == m.hwnd && r.title == m.title
    ensures op != StartAll ==> r.liveness == m.liveness
    ensures op == StopAll && Acts(op, m) ==> !r.running && r.paused == m.paused
    ensures op == PauseAll && Acts(op, m) ==> r.paused && r.running == m.running
    ensures op == ResumeAll && Acts(op, m) ==> !r.paused && r.running == m.running
    ensures op == StartAll && Acts(op, m) ==> r.liveness == Alive && r.running && r.paused == m.paused
  {
    if !Acts(op, m) then m
    else match op
      case StartAll => m.(liveness := Alive, running := true)
      case StopAll => m.(running := false)
      case PauseAll => m.(paused := true)
      case ResumeAll => m.(paused := false)
  }

  /** The names `op` counts. */
  function Selected(op: BulkOp, v: Views): set<string>
  {
    set n | n in v && Acts(op, v[n])
  }

  /** The names whose thread is in state `l`. */
  function Living(v: Views, l: Liveness): set<string>
  {
    set n | n in v && v[n].liveness == l
  }

  /** The table after `op`. */
  function Bulk(op: BulkOp, v: Views): (r: Views)
    ensures r.Keys == v.Keys
    ensures forall n :: n in v ==> r[n] == Apply(op, v[n])
  {
    map n | n in v :: Apply(op, v[n])
  }

  /** Pointwise facts about a bulk pass give the whole table and the count. */
  lemma BulkOfPointwise(op: BulkOp, v0: Views, v1: Views, counted: set<string>)
    requires v1.Keys == v0.Keys
    requires forall n :: n in v0 ==> v1[n] == Apply(op, v0[n])
    requires counted <= v0.Keys && forall n :: n in v0 ==> (n in counted <==> Acts(op, v0[n]))
    ensures v1 == Bulk(op, v0) && counted == Selected(op, v0)
  {
  }

  /** After `start_all_monitors` every monitor that had never run is alive
      and running, a finished one is still finished (a thread cannot be
      restarted), and the count is the number of never-started monitors. */
  lemma StartAllOutcome(v: Views)
    ensures var r := Bulk(StartAll, v);
            && Living(r, NotStarted) == {}
            && Living(r, Alive) == Living(v, Alive) + Living(v, NotStarted)
            && Living(r, Finished) == Living(v, Finished)
            && Selected(StartAll, v) == Living(v, NotStarted)
            && (forall n :: n in Living(v, NotStarted) ==> r[n].running)
  {
  }

  /** A second `start_all_monitors` starts nothing. */
  lemma StartAllTwiceStartsNothing(v: Views)
    ensures Selected(StartAll, Bulk(StartAll, v)) == {}
    ensures Bulk(StartAll, Bulk(StartAll, v)) == Bulk(StartAll, v)
  {
  }

  /** Stopping, pausing and resuming never change a thread's liveness. */
  lemma BulkKeepsLiveness(op: BulkOp, v: Views, l: Liveness)
    requires op != StartAll
    ensures Living(Bulk(op, v), l) == Living(v, l)
  {
  }

  /** `stop_all_monitors` clears `running` of every alive monitor and counts
      exactly the alive ones. */
  lemma StopAllOutcome(v: Views)
    ensures Selected(StopAll, v) == Living(v, Alive)
    ensures forall n :: n in Living(v, Alive) ==> !Bulk(StopAll, v)[n].running
  {
  }

  /** After `pause_all_monitors` every alive monitor is paused; the count
      (alive and unpaused) and the alive monitors already paused make up
      all the alive monitors. */
  lemma PauseAllOutcome(v: Views)
    ensures Selected(PauseAll, Bulk(PauseAll, v)) == {}
    ensures Selected(ResumeAll, Bulk(PauseAll, v)) == Living(v, Alive)
    ensures |Selected(PauseAll, v)| + |Selected(ResumeAll, v)| == |Living(v, Alive)|
  {
    var v1, v2 := Selected(PauseAll, v), Selected(ResumeAll, v);
    assert v1 + v2 == Living(v, Alive);
    assert v1 !! v2;
  }

  /** Resuming right after pausing counts every alive monitor and leaves
      none of them paused. */
  lemma {:induction false} ResumeAfterPause(v: Views)
    ensures |Selected(ResumeAll, Bulk(PauseAll, v))| == |Living(v, Alive)|
    ensures Selected(ResumeAll, Bulk(ResumeAll, Bulk(PauseAll, v))) == {}
    ensures Selected(PauseAll, Bulk(ResumeAll, Bulk(PauseAll, v))) == Living(v, Alive)
  {
    PauseAllOutcome(v);
    BulkKeepsLiveness(PauseAll, v, Alive);
  }

  // ---------------------------------------------------------------------
  // get_monitor_status
  // ---------------------------------------------------------------------

  /** One entry of `get_monitor_status`. */
  datatype Status = Status(alive: bool, paused: Option<bool>, hwnd: Option<int>, windowTitle: string)

  function StatusOf(m: MonitorView): (s: Status)
    ensures s.alive <==> m.liveness == Alive
    ensures s.paused.None? <==> !s.alive
    ensures s.hwnd.None? <==> !s.alive
    ensures s.alive ==> s.paused == Some(m.paused) && s.hwnd == Some(m.hwnd)
    ensures s.windowTitle == m.title
  {
    var alive := m.liveness == Alive;
    Status(alive, if alive then Some(m.paused) else None, if alive then Some(m.hwnd) else None, m.title)
  }

  // ---------------------------------------------------------------------
  // The manager object
  // ---------------------------------------------------------------------

  function Snap(m: ProgramMonitor): MonitorView
    reads m
  {
    MonitorView(m.liveness, m.running, m.paused, m.hwnd, m.settings.title)
  }

  /** `MonitorManager`: the name-to-monitor table. */
  class MonitorManager {
    var monitors: map<string, ProgramMonitor>

    /** No monitor object is registered under two names. */
    predicate Valid()
      reads this
    {
      forall a, b :: a in monitors && b in monitors && a != b ==> monitors[a] != monitors[b]
    }

    function View(): (v: Views)
      reads this, monitors.Values
      ensures v.Keys == monitors.Keys
    {
      map n | n in monitors :: Snap(monitors[n])
    }

    constructor ()
      ensures monitors == map[] && Valid()
    {
      monitors := map[];
    }

    /** `create_monitors()`, with the configurations given. */
    method CreateMonitors(configs: seq<Config>, listing: seq<DirEntry>) returns (count: nat)
      requires Valid()
      modifies this
      ensures Valid()
      ensures View() == Created(old(View()), configs).0 && count == Created(old(View()), configs).1
    {
      ghost var v0 := View();
      count := 0;
      for i := 0 to |configs|
        invariant Valid()
        invariant View() == Created(v0, configs[..i]).0 && count == Created(v0, configs[..i]).1
      {
        assert configs[..i + 1][..i] == configs[..i];
        var config := configs[i];
        if config.name.Some? && config.name.value != "" {
          var name := config.name.value;
          if !(name in monitors && monitors[name].liveness == Alive) {
            ghost var before := View();
            var monitor := new ProgramMonitor(config, listing);
            assert monitor !in monitors.Values;
            monitors := monitors[name := monitor];
            assert View() == before[name := FreshView(config)];
            count := count + 1;
          }
        }
      }
      assert configs[..|configs|] == configs;
    }

    /** `op` on the monitor registered as `name`; no other monitor changes. */
    method ApplyNamed(op: BulkOp, name: string) returns (acted: bool)
      requires Valid() && name in monitors
      modifies monitors[name]
      ensures Snap(monitors[name]) == Apply(op, old(Snap(monitors[name])))
      ensures acted <==> Acts(op, old(Snap(monitors[name])))
      ensures forall n :: n in monitors && n != name ==> Snap(monitors[n]) == old(Snap(monitors[n]))
    {
      var monitor := monitors[name];
      acted := false;
      match op
      case StartAll =>
        if monitor.liveness != Alive {
          acted := monitor.Start();
        }
      case StopAll =>
        if monitor.liveness == Alive {
          monitor.Stop();
          acted := true;
        }
      case PauseAll =>
        if monitor.liveness == Alive && !monitor.paused {
          monitor.Pause();
          acted := true;
        }
      case ResumeAll =>
        if monitor.liveness == Alive && monitor.paused {
          monitor.Resume();
          acted := true;
        }
      forall n | n in monitors && n != name
        ensures Snap(monitors[n]) == old(Snap(monitors[n]))
      {
        assert monitors[n] != monitor;
      }
    }

    /** The loop over the table shared by the bulk operations, stated
        monitor by monitor. */
    method ApplyEach(op: BulkOp) returns (count: nat, ghost counted: set<string>)
      requires Valid()
      modifies monitors.Values
      ensures forall n :: n in monitors ==> Snap(monitors[n]) == Apply(op, old(Snap(monitors[n])))
      ensures counted <= monitors.Keys && count == |counted|
      ensures forall n :: n in monitors ==> (n in counted <==> Acts(op, old(Snap(monitors[n]))))
    {
      counted := {};
      var todo := monitors.Keys;
      count := 0;
      while todo != {}
        invariant todo <= monitors.Keys
        invariant forall n :: n in monitors && n !in todo ==> Snap(monitors[n]) == Apply(op, old(Snap(monitors[n])))
        invariant forall n :: n in todo ==> Snap(monitors[n]) == old(Snap(monitors[n]))
        invariant counted !! todo && counted <= monitors.Keys && count == |counted|
        invariant forall n :: n in monitors && n !in todo ==> (n in counted <==> Acts(op, old(Snap(monitors[n]))))
        decreases todo
      {
        var name :| name in todo;
        var acted := ApplyNamed(op, name);
        if acted {
          count := count + 1;
          counted := counted + {name};
        }
        todo := todo - {name};
      }
    }

    /** A bulk operation on the whole table. */
    method ApplyAll(op: BulkOp) returns (count: nat)
      requires Valid()
      modifies monitors.Values
      ensures View() == Bulk(op, old(View()))
      ensures count == |Selected(op, old(View()))|
    {
      ghost var counted;
      count, counted := ApplyEach(op);
      ghost var v0, v1 := old(View()), View();
      assert forall n :: n in v0 ==> v0[n] == old(Snap(monitors[n]));
      assert forall n :: n in v1 ==> v1[n] == Snap(monitors[n]);
      BulkOfPointwise(op, v0, v1, counted);
    }

    /** `start_all_monitors()`. */
    method StartAllMonitors() returns (count: nat)
      requires Valid()
      modifies monitors.Values
      ensures View() == Bulk(StartAll, old(View()))
      ensures count == |Selected(StartAll, old(View()))|
    {
      count := ApplyAll(StartAll);
    }

    /** `stop_all_monitors()`; the bounded `join` is not modelled. */
    method StopAllMonitors() returns (count: nat)
      requires Valid()
      modifies monitors.Values
      ensures View() == Bulk(StopAll, old(View()))
      ensures count == |Selected(StopAll, old(View()))|
    {
      count := ApplyAll(StopAll);
    }

    /** `pause_all_monitors()`. */
    method PauseAllMonitors() returns (count: nat)
      requires Valid()
      modifies monitors.Values
      ensures View() == Bulk(PauseAll, old(View()))
      ensures count == |Selected(PauseAll, old(View()))|
    {
      count := ApplyAll(PauseAll);
    }

    /** `resume_all_monitors()`. */
    method ResumeAllMonitors() returns (count: nat)
      requires Valid()
      modifies monitors.Values
      ensures View() == Bulk(ResumeAll, old(View()))
      ensures count == |Selected(ResumeAll, old(View()))|
    {
      count := ApplyAll(ResumeAll);
    }

    /** `get_monitor_status()`: one entry per name. */
    method GetMonitorStatus() returns (status: map<string, Status>)
      ensures status.Keys == monitors.Keys
      ensures forall n :: n in monitors ==> status[n] == StatusOf(View()[n])
    {
      var todo := monitors.Keys;
      status := map[];
      while todo != {}
        invariant todo <= monitors.Keys
        invariant status.Keys == monitors.Keys - todo
        invariant forall n :: n in status ==> status[n] == StatusOf(Snap(monitors[n]))
        decreases todo
      {
        var name :| name in todo;
        var monitor := monitors[name];
        var alive := monitor.liveness == Alive;
        status := status[name := Status(alive, if alive then Some(monitor.paused) else None,
                                        if alive then Some(monitor.hwnd) else None, monitor.settings.title)];
        todo := todo - {name};
      }
    }
  }
}
