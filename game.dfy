// The callbacks of game.cpp, as the engine invokes them on a Game object.
// Each entry point changes game.appState in place and records every call it
// makes into the engine or the gameplay hooks on engine.trace; its contract
// ties the new state to the state-machine functions of AppStates.
module Game {
  import opened AppStates

  /** The engine as the callbacks see it: the calls made into it and into the
      gameplay hooks, in order, and whether log_fatal has ended the process. */
  class Engine {
    var trace: seq<Event>
    var exited: bool

    constructor()
      ensures trace == [] && !exited
    {
      trace := [];
      exited := false;
    }

    /** A call into the engine or a gameplay hook. */
    method Call(e: Event)
      modifies this
      ensures trace == old(trace) + [e] && exited == old(exited)
    {
      trace := trace + [e];
    }

    /** log_fatal: logs the message and ends the process. */
    method Fatal(e: Event)
      modifies this
      ensures trace == old(trace) + [e] && exited
    {
      trace := trace + [e];
      exited := true;
    }
  }

  /** Game (game.h), reduced to what the callbacks use: app_state, which they
      update, and the configuration they read. */
  class Game {
    var appState: AppState
    const config: Config

    /** The constructor starts in AppState::None. Reading and parsing the
        config file is I/O and is represented by the given configuration. */
    constructor(config: Config)
      ensures appState == None && this.config == config
    {
      appState := None;
      this.config := config;
    }
  }

  /** The engine and the game as one state-machine snapshot. */
  function Snapshot(engine: Engine, game: Game): Machine
    reads engine, game
  {
    Machine(game.appState, engine.trace, engine.exited)
  }

  /** A new engine and a newly constructed Game: the snapshot every protocol
      theorem of AppStates starts from. */
  method Start(config: Config) returns (engine: Engine, game: Game)
    ensures fresh(engine) && fresh(game) && game.config == config
    ensures Snapshot(engine, game) == Fresh()
  {
    engine := new Engine();
    game := new Game(config);
  }

  /** transition. A null game pointer makes it a no-op. */
  method Transition(engine: Engine, game: Game?, to: AppState)
    requires !engine.exited
    modifies engine, game
    decreases if to == Initializing then 1 else 0
    ensures game == null ==> engine.trace == old(engine.trace) && !engine.exited
    ensures game != null ==>
              Snapshot(engine, game) == AppStates.Transition(old(Snapshot(engine, game)), to, game.config)
  {
    if game == null {
      return;
    }
    if game.appState == to {
      return;
    }

    // Leaving the current state; the leave hook still sees the old state.
    match game.appState {
      case Terminate => return;
      case Playing => engine.Call(PlayingLeave(game.appState));
      case _ =>
    }

    game.appState := to;

    // Entering the new state.
    match game.appState {
      case None =>
      case Initializing =>
        match game.config.atlasFilename {
          case Missing =>
            engine.Fatal(FatalMissingAtlas);
          case Value(file) =>
            engine.Call(InitSprites(file));
            if game.config.luaBuild {
              engine.Call(InitializeLua);
            }
            Transition(engine, game, Playing);
        }
      case Playing => engine.Call(PlayingEnter(game.appState));
      case Quitting =>
      case Terminate => engine.Call(EngineTerminate);
    }
  }

  /** update. A null game pointer makes it a no-op. */
  method Update(engine: Engine, game: Game?, t: real, dt: real)
    requires !engine.exited
    modifies engine, game
    ensures game == null ==> engine.trace == old(engine.trace) && !engine.exited
    ensures game != null ==>
              Snapshot(engine, game) == AppStates.Update(old(Snapshot(engine, game)), t, dt, game.config)
  {
    if game == null {
      return;
    }
    match game.appState {
      case None => Transition(engine, game, Initializing);
      case Playing => engine.Call(PlayingUpdate(t, dt));
      case Quitting => Transition(engine, game, Terminate);
      case _ =>
    }
  }

  /** on_input. A null game pointer makes it a no-op. */
  method OnInput(engine: Engine, game: Game?, command: InputCommand)
    modifies engine
    ensures game == null ==> engine.trace == old(engine.trace) && engine.exited == old(engine.exited)
    ensures game != null ==> Snapshot(engine, game) == AppStates.OnInput(old(Snapshot(engine, game)), command)
  {
    if game == null {
      return;
    }
    match game.appState {
      case Playing => engine.Call(PlayingInput(command));
      case _ =>
    }
  }

  /** render. The source dereferences the game pointer without a check, so it must not be null. */
  method Render(engine: Engine, game: Game)
    modifies engine
    ensures Snapshot(engine, game) == AppStates.Render(old(Snapshot(engine, game)))
  {
    match game.appState {
      case Playing => engine.Call(PlayingRender);
      case _ =>
    }
  }

  /** render_imgui. The source dereferences the game pointer without a check, so it must not be null. */
  method RenderImgui(engine: Engine, game: Game)
    modifies engine
    ensures Snapshot(engine, game) == AppStates.RenderImgui(old(Snapshot(engine, game)))
  {
    match game.appState {
      case Playing => engine.Call(PlayingRenderImgui);
      case _ =>
    }
  }

  /** on_shutdown: asks for Quitting; a null game pointer makes it a no-op. */
  method OnShutdown(engine: Engine, game: Game?)
    requires !engine.exited
    modifies engine, game
    ensures game == null ==> engine.trace == old(engine.trace) && !engine.exited
    ensures game != null ==>
              Snapshot(engine, game) == AppStates.OnShutdown(old(Snapshot(engine, game)), game.config)
  {
    Transition(engine, game, Quitting);
  }
}
