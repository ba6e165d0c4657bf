/** A session that reaches the states the results of MenuProofs speak about. */
module Session {
  import opened Base
  import opened Radix
  import opened NumberReader
  import opened Devices
  import opened Commissioning
  import opened Menu
  import opened MenuProofs

  lemma Typed(n: nat)
    ensures var text := Text(Digits(n, 10));
      && text != [] && ReadIntOf(text, -1) == n
      && !ReadQ(text) && !ReadE(text) && !ReadLf(text)
  {
    var text := Text(Digits(n, 10));
    ReadsPrintedDecimal("", n, "", -1);
    hide ReadIntOf, Digits;
    assert text == [] + (text + []);
    assert text[0] == DigitChar(Digits(n, 10)[0]);
  }

  // A number typed as it is printed.
  function Key(n: nat): Event {
    KeyLine(Text(Digits(n, 10)))
  }

  lemma RunMore(m: Machine, events: seq<(Event, Env)>, e: Event, env: Env, next: Machine)
    requires AdmissibleRun(m, events) && FreshTimer(Run(m, events).target, env.cs.timer) && e.KeyLine?
    requires Step(Run(m, events), e, env) == next
    ensures AdmissibleRun(m, events + [(e, env)])
    ensures Run(m, events + [(e, env)]) == next
  {
    hide Step;
    assert (events + [(e, env)])[..|events|] == events;
  }

  // The states after each line of the session.
  function AfterType(m: Machine): Machine { m.(selected := 2, endpointStep := 2) }

  function AfterId(m: Machine): Machine {
    m.(devices := EndpointAdded(m.devices, PROFILE_HA, ON_OFF_LIGHT, 19), endpointStep := 1)
  }

  function AfterSetUp(m: Machine): Machine { EnterNetwork(m.(records := m.records + [Saved(m.devices)])) }

  function AfterTarget(m: Machine, cs: Replies): Machine {
    m.(target := TargetRun(m.target, m.devices, TargetBegin, cs).state)
  }

  // The target machine gets going as soon as one device supports it and takes the start.
  lemma TargetBegins(devs: seq<TestDevice>, i: nat, cs: Replies)
    requires i < |devs| && Supports(devs[i], Target)
    requires cs.start == SOk && cs.timer.id > 0
    ensures TargetRun(IDLE_TARGET, devs, TargetBegin, cs).state.testing
  {
    hide Supports;
    assert NextSupporting(devs, Target, 0) <= i;
  }

  // A light with its default id, no further device, the main menu, target start.
  lemma SetUp(env: Env)
    requires env.local.None? && env.initialize == SOk
    ensures var m0 := Boot(env);
      var m1 := AfterType(m0);
      var m2 := AfterId(m1);
      var m3 := AfterSetUp(m2);
      var m4 := EnterMain(m3);
      && Step(m0, Key(3), env) == m1
      && Step(m1, KeyLine("\n"), env) == m2
      && Step(m2, Key(0), env) == m3
      && Step(m3, Key(8), env) == m4
      && Step(m4, Key(8), env) == AfterTarget(m4, env.cs)
  {
    Typed(3);
    Typed(0);
    Typed(8);
    var m0 := Boot(env);
    var m1 := AfterType(m0);
    var m2 := AfterId(m1);
    var m3 := AfterSetUp(m2);
    FirstLines(m0, Key(3), env);
    NextLines(m2, Key(0), env);
    MenuLines(m3, EnterMain(m3), Key(8), env);
    hide Step, EndpointAdded, Saved, TargetRun, ReadIntOf, Text, Digits;
  }

  lemma FirstLines(m: Machine, e: Event, env: Env)
    requires !m.quit && m.current == Endpoint && m.endpointStep == 1 && m.devices == []
    requires e.KeyLine? && ReadIntOf(e.line, -1) == 3
    ensures Step(m, e, env) == AfterType(m)
    ensures Step(AfterType(m), KeyLine("\n"), env) == AfterId(AfterType(m))
  {
    hide ReadIntOf, EndpointAdded;
  }

  lemma NextLines(m: Machine, e: Event, env: Env)
    requires !m.quit && m.current == Endpoint && m.endpointStep == 1 && m.devices != []
    requires e.KeyLine? && ReadIntOf(e.line, -1) == 0 && env.initialize == SOk
    ensures Step(m, e, env) == AfterSetUp(m)
  {
    hide ReadIntOf, Saved;
  }

  lemma MenuLines(m: Machine, m': Machine, e: Event, env: Env)
    requires !m.quit && m.current == Network && m.networkStep == 1
    requires !m'.quit && m'.current == Main && m'.mainStep == 1
    requires e.KeyLine? && ReadIntOf(e.line, -1) == 8 && !ReadQ(e.line) && !ReadE(e.line) && !ReadLf(e.line)
    ensures Step(m, e, env) == EnterMain(m)
    ensures Step(m', e, env) == AfterTarget(m', env.cs)
  {
    hide ReadIntOf, TargetRun;
  }

  // Five lines, one after the other.
  lemma FiveLines(ms: seq<Machine>, es: seq<Event>, env: Env) returns (events: seq<(Event, Env)>)
    requires |ms| == 6 && |es| == 5
    requires forall i :: 0 <= i < 5 ==>
      es[i].KeyLine? && Step(ms[i], es[i], env) == ms[i + 1] && FreshTimer(ms[i].target, env.cs.timer)
    ensures AdmissibleRun(ms[0], events) && Run(ms[0], events) == ms[5]
    ensures forall i :: 0 <= i < |events| ==> events[i].1 == env
  {
    hide Step;
    events := [];
    var i := 0;
    while i < 5
      invariant i <= 5 && AdmissibleRun(ms[0], events) && Run(ms[0], events) == ms[i]
      invariant forall k :: 0 <= k < |events| ==> events[k].1 == env
    {
      RunMore(ms[0], events, es[i], env, ms[i + 1]);
      events := events + [(es[i], env)];
      i := i + 1;
    }
  }

  // The six states of the session, and that they are what they should be.
  lemma SessionStates(env: Env) returns (ms: seq<Machine>, es: seq<Event>)
    requires env.local.None? && env.initialize == SOk && env.cs.start == SOk && env.cs.timer == TimerReply(true, 1)
    ensures |ms| == 6 && |es| == 5 && ms[0] == Boot(env)
    ensures forall i :: 0 <= i < 5 ==>
      es[i].KeyLine? && Step(ms[i], es[i], env) == ms[i + 1] && FreshTimer(ms[i].target, env.cs.timer)
    ensures Operational(ms[5]) && WellSaved(ms[5].saved) && ms[5].target.testing
  {
    EmptyIsWellSaved();
    var m0 := Boot(env);
    var m1 := AfterType(m0);
    var m2 := AfterId(m1);
    var m3 := AfterSetUp(m2);
    var m4 := EnterMain(m3);
    SetUp(env);
    TargetBegins(m4.devices, 0, env.cs);
    assert m0.target == m1.target == m2.target == m3.target == m4.target == IDLE_TARGET && m4.saved == [];
    var m5 := AfterTarget(m4, env.cs);
    assert Operational(m5) && m5.saved == [] && m5.target.testing;
    hide *;
    ms, es := Listed(m0, m1, m2, m3, m4, m5, Key(3), KeyLine("\n"), Key(0), Key(8), env);
  }

  lemma EmptyIsWellSaved()
    ensures WellSaved([])
  {
  }

  lemma Listed(m0: Machine, m1: Machine, m2: Machine, m3: Machine, m4: Machine, m5: Machine,
               e0: Event, e1: Event, e2: Event, e3: Event, env: Env)
    returns (ms: seq<Machine>, es: seq<Event>)
    requires e0.KeyLine? && e1.KeyLine? && e2.KeyLine? && e3.KeyLine?
    requires Step(m0, e0, env) == m1 && Step(m1, e1, env) == m2 && Step(m2, e2, env) == m3
    requires Step(m3, e3, env) == m4 && Step(m4, e3, env) == m5
    requires m0.target == m1.target == m2.target == m3.target == m4.target == IDLE_TARGET
    ensures |ms| == 6 && |es| == 5 && ms[0] == m0 && ms[5] == m5
    ensures forall i :: 0 <= i < 5 ==>
      es[i].KeyLine? && Step(ms[i], es[i], env) == ms[i + 1] && FreshTimer(ms[i].target, env.cs.timer)
  {
    hide Step;
    ms := [m0, m1, m2, m3, m4, m5];
    es := [e0, e1, e2, e3, e3];
  }

  // They bring the target machine to testing, with a timer pending.
  lemma SessionExists(cs: Replies) returns (events: seq<(Event, Env)>)
    requires cs.start == SOk && cs.timer == TimerReply(true, 1)
    ensures var boot := Boot(Env(None, SOk, cs, []));
      && AdmissibleRun(boot, events) && HonestRun(events)
      && Operational(Run(boot, events)) && WellSaved(Run(boot, events).saved)
      && Run(boot, events).target.testing
  {
    var env := Env(None, SOk, cs, []);
    hide Step, Boot, Run, AdmissibleRun, Operational, WellSaved, FreshTimer;
    var ms, es := SessionStates(env);
    events := FiveLines(ms, es, env);
  }
}
