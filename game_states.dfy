// The application-state machine of game.cpp, as functions over a snapshot of
// the machine: the current AppState, the calls made so far into the engine and
// the gameplay hooks (a trace of events), and whether the process has exited.
module AppStates {

  /** AppState (game.h). */
  datatype AppState = None | Initializing | Playing | Quitting | Terminate

  /** The engine's input command; its contents are opaque to the state machine. */
  datatype InputCommand = InputCommand(id: nat)

  /** A config property as engine::config::read_property returns it: a value or null. */
  datatype Property = Missing | Value(text: string)

  /** What the state machine reads from its environment: the [game]
      atlas_filename property and whether the build embeds Lua (HAS_LUA or
      HAS_LUAJIT). */
  datatype Config = Config(atlasFilename: Property, luaBuild: bool)

  /** One call out of the state machine, in the order it is made. The enter
      and leave hooks record the app_state they find when they are called. */
  datatype Event =
    | InitSprites(atlasFilename: string)  // engine::init_sprites
    | InitializeLua                       // initialize_lua, in Lua builds
    | PlayingEnter(seen: AppState)        // game_state_playing_enter
    | PlayingLeave(seen: AppState)        // game_state_playing_leave
    | PlayingUpdate(t: real, dt: real)    // game_state_playing_update
    | PlayingInput(command: InputCommand) // game_state_playing_on_input
    | PlayingRender                       // game_state_playing_render
    | PlayingRenderImgui                  // game_state_playing_render_imgui
    | EngineTerminate                     // engine::terminate
    | FatalMissingAtlas                   // log_fatal for a missing atlas_filename

  /** A snapshot: the game's app_state, the trace of calls made so far, and
      whether log_fatal has ended the process. */
  datatype Machine = Machine(state: AppState, trace: seq<Event>, exited: bool)

  /** A freshly constructed Game: app_state is None and nothing has been called. */
  function Fresh(): Machine {
    Machine(None, [], false)
  }

  // ---------------------------------------------------------------------------
  // The entry points
  // ---------------------------------------------------------------------------

  /** transition: a no-op towards the current state and out of Terminate;
      otherwise the leave hook of the old state, the write of app_state, then
      the enter action of the new state. Entering Initializing loads the sprite
      atlas and chains into Playing; a missing atlas_filename is fatal. */
  function Transition(m: Machine, to: AppState, cfg: Config): Machine
    requires !m.exited
    decreases if to == Initializing then 1 else 0
  {
    if m.state == to || m.state == Terminate then m
    else
      var left := if m.state == Playing then m.trace + [PlayingLeave(m.state)] else m.trace;
      match to
      case None => Machine(None, left, false)
      case Initializing =>
        (match cfg.atlasFilename
         case Missing => Machine(Initializing, left + [FatalMissingAtlas], true)
         case Value(file) =>
           var loaded := left + [InitSprites(file)] + (if cfg.luaBuild then [InitializeLua] else []);
           Transition(Machine(Initializing, loaded, false), Playing, cfg))
      case Playing => Machine(Playing, left + [PlayingEnter(to)], false)
      case Quitting => Machine(Quitting, left, false)
      case Terminate => Machine(Terminate, left + [EngineTerminate], false)
  }

  /** update: None starts initializing, Playing runs the update hook,
      Quitting terminates; Initializing and Terminate do nothing. */
  function Update(m: Machine, t: real, dt: real, cfg: Config): Machine
    requires !m.exited
  {
    match m.state
    case None => Transition(m, Initializing, cfg)
    case Playing => m.(trace := m.trace + [PlayingUpdate(t, dt)])
    case Quitting => Transition(m, Terminate, cfg)
    case _ => m
  }

  /** on_input: forwarded to the playing hook only in Playing. */
  function OnInput(m: Machine, command: InputCommand): Machine {
    if m.state == Playing then m.(trace := m.trace + [PlayingInput(command)]) else m
  }

  /** render: forwarded to the playing hook only in Playing. */
  function Render(m: Machine): Machine {
    if m.state == Playing then m.(trace := m.trace + [PlayingRender]) else m
  }

  /** render_imgui: forwarded to the playing hook only in Playing. */
  function RenderImgui(m: Machine): Machine {
    if m.state == Playing then m.(trace := m.trace + [PlayingRenderImgui]) else m
  }

  /** on_shutdown: asks for Quitting. */
  function OnShutdown(m: Machine, cfg: Config): Machine
    requires !m.exited
  {
    Transition(m, Quitting, cfg)
  }

  /** One call of an entry point on a live game. */
  datatype Call =
    | CallUpdate(t: real, dt: real)
    | CallOnInput(command: InputCommand)
    | CallRender
    | CallRenderImgui
    | CallOnShutdown
    | CallTransition(to: AppState)

  function Apply(m: Machine, c: Call, cfg: Config): Machine
    requires !m.exited
  {
    match c
    case CallUpdate(t, dt) => Update(m, t, dt, cfg)
    case CallOnInput(command) => OnInput(m, command)
    case CallRender => Render(m)
    case CallRenderImgui => RenderImgui(m)
    case CallOnShutdown => OnShutdown(m, cfg)
    case CallTransition(to) => Transition(m, to, cfg)
  }

  /** A sequence of calls; once the process has exited nothing more runs. */
  function Run(m: Machine, calls: seq<Call>, cfg: Config): Machine
    decreases |calls|
  {
    if calls == [] || m.exited then m else Run(Apply(m, calls[0], cfg), calls[1..], cfg)
  }

  // ---------------------------------------------------------------------------
  // The rules of transition, one call at a time
  // ---------------------------------------------------------------------------

  /** A transition to the state the game is already in changes nothing and calls nothing. */
  lemma SelfTransitionIsNoOp(m: Machine, cfg: Config)
    requires !m.exited
    ensures Transition(m, m.state, cfg) == m
  {
  }

  /** Terminate cannot be left: no entry point changes the state or calls anything. */
  lemma TerminateIsAbsorbing(m: Machine, c: Call, cfg: Config)
    requires !m.exited && m.state == Terminate
    ensures Apply(m, c, cfg) == m
  {
  }

  /** Every transition only appends to the trace. */
  lemma TransitionExtendsTrace(m: Machine, to: AppState, cfg: Config)
    requires !m.exited
    ensures m.trace <= Transition(m, to, cfg).trace
  {
  }

  /** Leaving Playing for another state calls the leave hook once, before
      anything else and while app_state is still Playing; leaving any other
      state calls no leave hook. */
  lemma LeaveHookOnlyOutOfPlaying(m: Machine, to: AppState, cfg: Config)
    requires !m.exited && m.state != to && m.state != Terminate
    ensures var r := Transition(m, to, cfg);
            var leave := if m.state == Playing then [PlayingLeave(Playing)] else [];
            && r.trace[..|m.trace| + |leave|] == m.trace + leave
            && forall e <- r.trace[|m.trace| + |leave|..] :: !e.PlayingLeave?
  {
    var r := Transition(m, to, cfg);
    var leave: seq<Event> := if m.state == Playing then [PlayingLeave(Playing)] else [];
    var rest := EnteredCalls(m, to, cfg);
    var before := m.trace + leave;
    assert r.trace == before + rest;
    assert r.trace[..|before|] == before;
    assert r.trace[|before|..] == rest;
  }

  /** transition(Initializing) with an atlas loads the sprites (then Lua, in a
      Lua build) and ends in Playing, having called the enter hook once. */
  lemma InitializingChainsIntoPlaying(m: Machine, file: string, cfg: Config)
    requires !m.exited && m.state != Initializing && m.state != Terminate
    requires cfg.atlasFilename == Value(file)
    ensures var left := if m.state == Playing then m.trace + [PlayingLeave(Playing)] else m.trace;
            Transition(m, Initializing, cfg) ==
              Machine(Playing,
                      left + [InitSprites(file)] + (if cfg.luaBuild then [InitializeLua] else []) + [PlayingEnter(Playing)],
                      false)
  {
  }

  /** transition(Initializing) without atlas_filename ends the process before
      any sprite is loaded. */
  lemma MissingAtlasIsFatal(m: Machine, cfg: Config)
    requires !m.exited && m.state != Initializing && m.state != Terminate
    requires cfg.atlasFilename == Missing
    ensures var r := Transition(m, Initializing, cfg);
            r.exited && r.state == Initializing &&
            r.trace == (if m.state == Playing then m.trace + [PlayingLeave(Playing)] else m.trace) + [FatalMissingAtlas]
  {
  }

  /** Entering Terminate calls engine::terminate once, after the leave hook if any. */
  lemma EnteringTerminateTerminatesEngine(m: Machine, cfg: Config)
    requires !m.exited && m.state != Terminate
    ensures var r := Transition(m, Terminate, cfg);
            r.state == Terminate && !r.exited &&
            r.trace == (if m.state == Playing then m.trace + [PlayingLeave(Playing)] else m.trace) + [EngineTerminate]
  {
  }

  /** update moves None through Initializing to Playing, Quitting to Terminate,
      runs the update hook in Playing and does nothing in Initializing or Terminate. */
  lemma UpdateRules(m: Machine, t: real, dt: real, cfg: Config)
    requires !m.exited
    ensures var r := Update(m, t, dt, cfg);
            && (m.state == None && cfg.atlasFilename.Value? ==>
                  r.state == Playing && !r.exited &&
                  r.trace == m.trace + [InitSprites(cfg.atlasFilename.text)]
                             + (if cfg.luaBuild then [InitializeLua] else []) + [PlayingEnter(Playing)])
            && (m.state == None && cfg.atlasFilename.Missing? ==> r.exited)
            && (m.state == Quitting ==> r == Machine(Terminate, m.trace + [EngineTerminate], false))
            && (m.state == Playing ==> r == m.(trace := m.trace + [PlayingUpdate(t, dt)]))
            && (m.state == Initializing || m.state == Terminate ==> r == m)
  {
  }

  /** on_shutdown ends in Quitting from every state but Terminate, which it cannot leave. */
  lemma OnShutdownRules(m: Machine, cfg: Config)
    requires !m.exited
    ensures var r := OnShutdown(m, cfg);
            && (m.state == Terminate ==> r == m)
            && (m.state != Terminate ==>
                  r == Machine(Quitting, if m.state == Playing then m.trace + [PlayingLeave(Playing)] else m.trace, false))
  {
  }

  /** on_input, render and render_imgui call into the playing hooks only in
      Playing, and never change the state. In Playing each calls its own hook
      once, and on_input passes the command on. */
  lemma HooksOnlyWhilePlaying(m: Machine, command: InputCommand)
    ensures OnInput(m, command) ==
              if m.state == Playing then m.(trace := m.trace + [PlayingInput(command)]) else m
    ensures Render(m) == if m.state == Playing then m.(trace := m.trace + [PlayingRender]) else m
    ensures RenderImgui(m) == if m.state == Playing then m.(trace := m.trace + [PlayingRenderImgui]) else m
    ensures OnInput(m, command).state == m.state
    ensures Render(m).state == m.state && RenderImgui(m).state == m.state
    ensures OnInput(m, command).trace != m.trace <==> m.state == Playing
    ensures Render(m).trace != m.trace <==> m.state == Playing
    ensures RenderImgui(m).trace != m.trace <==> m.state == Playing
  {
  }

  // ---------------------------------------------------------------------------
  // The calling protocol over any sequence of calls
  // ---------------------------------------------------------------------------

  /** Where a trace stands with respect to the playing hooks. */
  datatype Phase =
    | Idle      // not playing: outside every enter/leave pair
    | Loading   // sprites loaded, the enter hook must follow
    | Active    // between the enter hook and the leave hook
    | Ended     // engine::terminate has been called; nothing may follow
    | Dead      // log_fatal has ended the process; nothing may follow
    | Broken    // the trace broke the protocol

  /** The protocol as an automaton: the enter and leave hooks alternate,
      starting with enter; update, input and render hooks only come between
      them; sprite loading is followed by the enter hook; nothing follows
      engine::terminate or log_fatal. */
  function Step(p: Phase, e: Event): Phase {
    match p
    case Idle =>
      (match e
       case InitSprites(_) => Loading
       case PlayingEnter(seen) => if seen == Playing then Active else Broken
       case EngineTerminate => Ended
       case FatalMissingAtlas => Dead
       case _ => Broken)
    case Loading =>
      (match e
       case InitializeLua => Loading
       case PlayingEnter(seen) => if seen == Playing then Active else Broken
       case _ => Broken)
    case Active =>
      (match e
       case PlayingLeave(seen) => if seen == Playing then Idle else Broken
       case PlayingUpdate(_, _) => Active
       case PlayingInput(_) => Active
       case PlayingRender => Active
       case PlayingRenderImgui => Active
       case _ => Broken)
    case _ => Broken
  }

  /** The phase reached by reading a trace from phase p. */
  function Scan(p: Phase, trace: seq<Event>): Phase
    decreases |trace|
  {
    if trace == [] then p else Scan(Step(p, trace[0]), trace[1..])
  }

  /** The phase a machine's trace must be in. */
  function PhaseOf(m: Machine): Phase {
    if m.exited then Dead
    else match m.state
      case Playing => Active
      case Terminate => Ended
      case _ => Idle
  }

  /** Initializing is never a resting state: a transition into it either
      chains into Playing or ends the process. */
  ghost predicate Settled(m: Machine) {
    m.exited <==> m.state == Initializing
  }

  /** The protocol invariant: the state is settled and the trace, read from
      Idle, is in the phase the state calls for. */
  ghost predicate FollowsProtocol(m: Machine) {
    Settled(m) && Scan(Idle, m.trace) == PhaseOf(m)
  }

  lemma {:induction false} ScanAppend(p: Phase, a: seq<Event>, b: seq<Event>)
    ensures Scan(p, a + b) == Scan(Scan(p, a), b)
    decreases |a|
  {
    if a == [] {
      assert a + b == b;
    } else {
      assert (a + b)[1..] == a[1..] + b;
      ScanAppend(Step(p, a[0]), a[1..], b);
    }
  }

  /** One call keeps the protocol: its new events lead from the phase of the
      old machine to the phase of the new one. */
  lemma ApplyFollowsProtocol(m: Machine, c: Call, cfg: Config)
    requires !m.exited && Settled(m)
    ensures var r := Apply(m, c, cfg);
            Settled(r) && m.trace <= r.trace && Scan(PhaseOf(m), r.trace[|m.trace|..]) == PhaseOf(r)
  {
    var r := Apply(m, c, cfg);
    var delta := r.trace[|m.trace|..];
    match c
    case CallUpdate(t, dt) =>
      if m.state == None {
        TransitionFollowsProtocol(m, Initializing, cfg);
      } else if m.state == Quitting {
        TransitionFollowsProtocol(m, Terminate, cfg);
      } else if m.state == Playing {
        assert delta == [PlayingUpdate(t, dt)];
      }
    case CallOnInput(command) =>
      if m.state == Playing { assert delta == [PlayingInput(command)]; }
    case CallRender =>
      if m.state == Playing { assert delta == [PlayingRender]; }
    case CallRenderImgui =>
      if m.state == Playing { assert delta == [PlayingRenderImgui]; }
    case CallOnShutdown =>
      TransitionFollowsProtocol(m, Quitting, cfg);
    case CallTransition(to) =>
      TransitionFollowsProtocol(m, to, cfg);
  }

  lemma TransitionFollowsProtocol(m: Machine, to: AppState, cfg: Config)
    requires !m.exited && Settled(m)
    ensures var r := Transition(m, to, cfg);
            Settled(r) && m.trace <= r.trace && Scan(PhaseOf(m), r.trace[|m.trace|..]) == PhaseOf(r)
  {
    var r := Transition(m, to, cfg);
    if m.state == to || m.state == Terminate {
      assert r.trace[|m.trace|..] == [];
    } else {
      var leave: seq<Event> := if m.state == Playing then [PlayingLeave(Playing)] else [];
      var rest := EnteredCalls(m, to, cfg);
      LeaveThenEnter(m, r, leave, rest);
    }
  }

  /** The calls a transition makes after the leave hook: none of them is a
      leave hook, and they lead from Idle to the phase of the new state. */
  lemma EnteredCalls(m: Machine, to: AppState, cfg: Config) returns (rest: seq<Event>)
    requires !m.exited && m.state != to && m.state != Terminate
    ensures var r := Transition(m, to, cfg);
            && Settled(r)
            && r.trace == (if m.state == Playing then m.trace + [PlayingLeave(Playing)] else m.trace) + rest
            && (forall e <- rest :: !e.PlayingLeave?)
            && Scan(Idle, rest) == PhaseOf(r)
  {
    match to {
      case Initializing =>
        match cfg.atlasFilename {
          case Missing =>
            rest := [FatalMissingAtlas];
          case Value(file) =>
            var lua: seq<Event> := if cfg.luaBuild then [InitializeLua] else [];
            rest := [InitSprites(file)] + lua + [PlayingEnter(Playing)];
            LoadingScan(file, lua);
        }
      case Playing => rest := [PlayingEnter(Playing)];
      case Terminate => rest := [EngineTerminate];
      case _ => rest := [];
    }
  }

  /** A leave hook (when leaving Playing) followed by calls leading from Idle
      to the new phase leads from the old phase to the new one. */
  lemma LeaveThenEnter(m: Machine, r: Machine, leave: seq<Event>, rest: seq<Event>)
    requires leave == if m.state == Playing && !m.exited then [PlayingLeave(Playing)] else []
    requires m.state != Terminate && !m.exited
    requires r.trace == m.trace + leave + rest && Scan(Idle, rest) == PhaseOf(r)
    ensures m.trace <= r.trace && Scan(PhaseOf(m), r.trace[|m.trace|..]) == PhaseOf(r)
  {
    assert r.trace[|m.trace|..] == leave + rest;
    assert Scan(PhaseOf(m), leave) == Idle;
    ScanAppend(PhaseOf(m), leave, rest);
  }

  /** Loading the sprites, then Lua or not, then the enter hook leads from Idle to Active. */
  lemma LoadingScan(file: string, lua: seq<Event>)
    requires lua == [] || lua == [InitializeLua]
    ensures Scan(Idle, [InitSprites(file)] + lua + [PlayingEnter(Playing)]) == Active
  {
    ScanAppend(Idle, [InitSprites(file)], lua + [PlayingEnter(Playing)]);
    ScanAppend(Loading, lua, [PlayingEnter(Playing)]);
    assert [InitSprites(file)] + lua + [PlayingEnter(Playing)] == [InitSprites(file)] + (lua + [PlayingEnter(Playing)]);
  }

  /** Any sequence of calls on a machine that follows the protocol leaves one
      that still follows it. */
  lemma {:induction false} RunFollowsProtocol(m: Machine, calls: seq<Call>, cfg: Config)
    requires FollowsProtocol(m)
    ensures FollowsProtocol(Run(m, calls, cfg))
    decreases |calls|
  {
    if calls != [] && !m.exited {
      var r := Apply(m, calls[0], cfg);
      ApplyFollowsProtocol(m, calls[0], cfg);
      assert r.trace == m.trace + r.trace[|m.trace|..];
      ScanAppend(Idle, m.trace, r.trace[|m.trace|..]);
      RunFollowsProtocol(r, calls[1..], cfg);
    }
  }

  /** From a freshly constructed game, whatever the engine calls: the enter and
      leave hooks alternate starting with enter, the playing hooks run only
      between them, and nothing is called after engine::terminate or log_fatal. */
  lemma GameFollowsProtocol(calls: seq<Call>, cfg: Config)
    ensures FollowsProtocol(Run(Fresh(), calls, cfg))
  {
    RunFollowsProtocol(Fresh(), calls, cfg);
  }

  /** Reading a trace that keeps to the protocol, engine::terminate is called
      once if the trace reaches Ended and never otherwise; the enter hook has
      run once more than the leave hook exactly while Active. */
  lemma {:induction false} ScanCounts(p: Phase, trace: seq<Event>)
    requires p == Idle || p == Active
    requires Scan(p, trace) != Broken
    ensures multiset(trace)[EngineTerminate] == if Scan(p, trace) == Ended then 1 else 0
    ensures multiset(trace)[PlayingEnter(Playing)] + (if p == Active then 1 else 0)
            == multiset(trace)[PlayingLeave(Playing)] + (if Scan(p, trace) == Active then 1 else 0)
    decreases |trace|
  {
    if trace != [] {
      var q := Step(p, trace[0]);
      assert trace == [trace[0]] + trace[1..];
      if q == Loading {
        LoadingCounts(trace[1..]);
      } else if q == Ended || q == Dead {
        assert trace[1..] == [] by {
          if trace[1..] != [] { BrokenStaysBroken(trace[2..]); }
        }
      } else if q == Broken {
        BrokenStaysBroken(trace[1..]);
      } else {
        ScanCounts(q, trace[1..]);
      }
    }
  }

  /** After the sprites are loaded, only Lua initialization may come before the
      enter hook; the counts then continue from Active. */
  lemma {:induction false} LoadingCounts(trace: seq<Event>)
    requires Scan(Loading, trace) != Broken
    ensures multiset(trace)[EngineTerminate] == if Scan(Loading, trace) == Ended then 1 else 0
    ensures multiset(trace)[PlayingEnter(Playing)]
            == multiset(trace)[PlayingLeave(Playing)] + (if Scan(Loading, trace) == Active then 1 else 0)
    ensures Scan(Loading, trace) != Idle || multiset(trace)[PlayingEnter(Playing)] > 0
    decreases |trace|
  {
    if trace != [] {
      var q := Step(Loading, trace[0]);
      assert trace == [trace[0]] + trace[1..];
      if q == Loading {
        LoadingCounts(trace[1..]);
      } else if q == Active {
        ScanCounts(Active, trace[1..]);
      } else {
        BrokenStaysBroken(trace[1..]);
      }
    }
  }

  lemma {:induction false} BrokenStaysBroken(trace: seq<Event>)
    ensures Scan(Broken, trace) == Broken
    decreases |trace|
  {
    if trace != [] {
      BrokenStaysBroken(trace[1..]);
    }
  }

  /** Whatever the engine calls, engine::terminate runs exactly once if the
      game ends in Terminate and never otherwise, and the enter hook has run
      once more than the leave hook exactly when the game is in Playing. */
  lemma TerminateCalledOnce(calls: seq<Call>, cfg: Config)
    ensures var r := Run(Fresh(), calls, cfg);
            && multiset(r.trace)[EngineTerminate] == (if r.state == Terminate then 1 else 0)
            && multiset(r.trace)[PlayingEnter(Playing)]
               == multiset(r.trace)[PlayingLeave(Playing)] + (if r.state == Playing && !r.exited then 1 else 0)
  {
    var r := Run(Fresh(), calls, cfg);
    GameFollowsProtocol(calls, cfg);
    ScanCounts(Idle, r.trace);
  }
}
