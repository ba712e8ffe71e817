# giraffe: the native core, modelled in Dafny

The giraffe prototypes drive a 2D predator-and-prey simulation from embedded
scripting runtimes. Two pieces of native C++ logic carry behaviour of their
own, and this project models both:

- **util.h.** The array-removal helpers `swap_pop` and `shift_pop` remove the
  element at an index from a `foundation::Array` in place. The vector helpers
  `circles_overlap` and `truncate` serve the steering code.
- **game.cpp.** The application-state machine: `transition`, `update`,
  `on_input`, `render`, `render_imgui` and `on_shutdown`, over the `AppState`
  values None, Initializing, Playing, Quitting and Terminate. The `Game`
  constructor starts it in None.

Files:

- `util_geometry.dfy` (module `Util`): `circles_overlap` and `truncate` over
  real 2D vectors. Lemmas show that the squared test is the geometric overlap
  of two discs and bound the length of a truncated vector.
- `util_array.dfy` (module `Foundation`): a class `Array<T>` (an `array<T>`
  buffer plus a `size`), and methods `SwapPop` and `ShiftPop` that work on it
  in place. Each is proved against a function on the element sequence
  (`SwapPopped`, `ShiftPopped`). Lemmas about those functions give the
  multiset and order guarantees.
- `game_states.dfy` (module `AppStates`): the state machine as functions over
  a snapshot `Machine(state, trace, exited)`. Every call into the engine or a
  gameplay hook is an `Event` appended to `trace`. Lemmas state the rules of
  each entry point. An automaton over the trace (`Step`, `Scan`) states the
  calling protocol, and it is proved for every sequence of calls from a fresh
  game: enter and leave hooks alternate, the playing hooks run only between
  them, nothing follows `engine::terminate`, and `engine::terminate` runs at
  most once.
- `game.dfy` (module `Game`): classes `Engine` (the trace and whether the
  process has exited) and `Game` (the `appState` field and the
  configuration), and the entry points as methods. Each method changes
  `game.appState` and `engine.trace` in place. Its `ensures` equates the new
  snapshot with the `AppStates` function of the old one.

Calls the state machine makes into code outside it become events:
`game_state_playing_enter`, `_leave`, `_update`, `_on_input`, `_render`,
`_render_imgui`, `engine::init_sprites`, `initialize_lua` (in Lua builds) and
`engine::terminate`. The `log_fatal` for a missing `[game] atlas_filename` is
the event `FatalMissingAtlas`, and it ends the process. The enter and leave
hook events carry the `app_state` the hook finds when it is called, so the
model records whether `transition` calls the leave hook before or after it
overwrites `app_state`. The configuration the constructor reads from disk is
a value: `Config(atlasFilename, luaBuild)`.

## Model

| member | source | states |
|---|---|---|
| `Util.CirclesOverlap` | src/util.h:14-20 | the squared test as written; its meaning is stated by `CirclesOverlapMeaning`, `TouchingCirclesOverlap` and `OverlapIffCommonPoint` |
| `Util.CirclesOverlapMeaning` | src/util.h:14-20 | circles_overlap holds iff dx² + dy² <= (r1 + r2)², and swapping (p1, r1) with (p2, r2) does not change the answer |
| `Util.TouchingCirclesOverlap` | src/util.h:17-19 | circles whose centres are exactly r1 + r2 apart count as overlapping (the comparison is `<=`) |
| `Util.OverlapIffCommonPoint` | src/util.h:14-20 | for non-negative radii, the squared test holds iff the two closed discs share a point |
| `Util.Truncate` | src/util.h:22-29 | a vector of length <= max_length, or of length 0, comes back unchanged; otherwise the result has squared length max_length², lies on the same line (zero cross product) and has dot product max_length·length with the input, so it points the same way when max_length >= 0 |
| `Util.TruncateBounded` | src/util.h:22-29 | with max_length >= 0 the result is never longer than max_length |
| `Util.TruncateIdempotent` | src/util.h:22-29 | with max_length >= 0, truncating an already truncated vector changes nothing |
| `Foundation.SwapPop` | src/util.h:33-41 | requires index < size; the size drops by one, the elements become `SwapPopped` of the old ones, the removed element is left in the slot just past the new end, and the buffer beyond it is untouched |
| `Foundation.ShiftPop` | src/util.h:43-56 | requires index < size; the adjacent-swap loop plus pop_back leaves exactly the old elements without the one at index, in order; the removed element is left just past the new end, and the buffer beyond it is untouched |
| `Foundation.SwapPoppedShape` | src/util.h:33-40 | after swap_pop the size is one less; if index was not the last position, the old last element sits at index; every other position below the new size is unchanged |
| `Foundation.SwapPoppedMultiset` | src/util.h:39-40 | after swap_pop the multiset of elements is the original minus one occurrence of a[index] |
| `Foundation.ShiftPoppedShape` | src/util.h:51-55 | after shift_pop the size is one less, positions below index are unchanged and every later element has moved down by one |
| `Foundation.ShiftPoppedReinsert` | src/util.h:43-55 | inserting the removed element back at index restores the original sequence, so the remaining elements keep their relative order |
| `Foundation.ShiftPoppedMultiset` | src/util.h:51-55 | after shift_pop the multiset of elements is the original minus one occurrence of a[index] |
| `Foundation.SwapAndShiftAgree` | src/util.h:33-56 | both removals keep the same elements; when index is the last position they give the same sequence |
| `AppStates.Fresh` | src/game.cpp:32-38 | the snapshot of a newly constructed game: app_state None, nothing called; `GameFollowsProtocol` and `TerminateCalledOnce` start from it, and `Game.Start` ties the constructors to it |
| `AppStates.Transition` | src/game.cpp:145-207 | transition as written; its rules are stated by `SelfTransitionIsNoOp`, `TerminateIsAbsorbing`, `TransitionExtendsTrace`, `LeaveHookOnlyOutOfPlaying`, `InitializingChainsIntoPlaying`, `MissingAtlasIsFatal`, `EnteringTerminateTerminatesEngine` and `TransitionFollowsProtocol` |
| `AppStates.Update` | src/game.cpp:68-92 | update as written; its rules are stated by `UpdateRules`, `TerminateIsAbsorbing` and `ApplyFollowsProtocol` |
| `AppStates.OnInput` | src/game.cpp:94-111 | on_input as written: in Playing it calls game_state_playing_on_input once with the command, otherwise nothing; stated by `HooksOnlyWhilePlaying` and `ApplyFollowsProtocol` |
| `AppStates.Render` | src/game.cpp:113-125 | render as written: in Playing it calls game_state_playing_render once, otherwise nothing; stated by `HooksOnlyWhilePlaying` and `ApplyFollowsProtocol` |
| `AppStates.RenderImgui` | src/game.cpp:127-139 | render_imgui as written: in Playing it calls game_state_playing_render_imgui once, otherwise nothing; stated by `HooksOnlyWhilePlaying` and `ApplyFollowsProtocol` |
| `AppStates.OnShutdown` | src/game.cpp:141-143 | on_shutdown as written; its rules are stated by `OnShutdownRules`, `TerminateIsAbsorbing` and `ApplyFollowsProtocol` |
| `AppStates.SelfTransitionIsNoOp` | src/game.cpp:152-154 | a transition to the current state changes nothing and fires no hook |
| `AppStates.TerminateIsAbsorbing` | src/game.cpp:158-160 | in Terminate, no entry point (update, on_input, render, render_imgui, on_shutdown, transition) changes the state or calls anything |
| `AppStates.TransitionExtendsTrace` | src/game.cpp:145-207 | a transition only appends calls; it never takes back one already made |
| `AppStates.LeaveHookOnlyOutOfPlaying` | src/game.cpp:156-169 | leaving Playing for another state calls the playing-leave hook once, while app_state is still Playing (before it is overwritten) and before every other call of the transition; leaving any other state calls no leave hook |
| `AppStates.InitializingChainsIntoPlaying` | src/game.cpp:176-195 | transition(Initializing) with an atlas calls init_sprites, then initialize_lua in a Lua build, then chains into Playing and calls the enter hook once; it ends in Playing |
| `AppStates.MissingAtlasIsFatal` | src/game.cpp:176-181 | without atlas_filename, transition(Initializing) ends the process with the fatal log, before any sprite is loaded |
| `AppStates.EnteringTerminateTerminatesEngine` | src/game.cpp:201-204 | entering Terminate calls engine::terminate exactly once, after the leave hook when leaving Playing |
| `AppStates.UpdateRules` | src/game.cpp:68-92 | update from None ends in Playing through Initializing (sprites loaded, enter hook called); from Quitting it ends in Terminate; in Playing it calls the update hook and keeps the state; in Initializing or Terminate it does nothing |
| `AppStates.OnShutdownRules` | src/game.cpp:141-143 | on_shutdown ends in Quitting from every state but Terminate (after the leave hook when leaving Playing), and has no effect from Terminate |
| `AppStates.HooksOnlyWhilePlaying` | src/game.cpp:94-139 | on_input, render and render_imgui never change the state; in Playing each appends exactly its own hook call (game_state_playing_on_input with the given command, game_state_playing_render, game_state_playing_render_imgui), and in every other state each calls nothing |
| `AppStates.TransitionFollowsProtocol` | src/game.cpp:145-207 | every transition keeps the calling protocol: its calls lead the trace automaton from the old state's phase to the new one's, and Initializing is never left as a resting state |
| `AppStates.ApplyFollowsProtocol` | src/game.cpp:68-207 | every entry point keeps the calling protocol in the same sense |
| `AppStates.RunFollowsProtocol` | src/game.cpp:68-207 | any sequence of entry-point calls keeps the calling protocol |
| `AppStates.GameFollowsProtocol` | src/game.cpp:32-207 | from a freshly constructed game (state None), whatever the engine calls, the enter and leave hooks alternate starting with enter and each finds app_state Playing, the update, input and render hooks run only between them, and nothing is called after engine::terminate or the fatal log |
| `AppStates.TerminateCalledOnce` | src/game.cpp:145-207 | from a fresh game, whatever the engine calls, engine::terminate has run exactly once if the game is in Terminate and never otherwise; the enter hook has run once more than the leave hook exactly while the game is in Playing |
| `Game.Game.constructor` | src/game.cpp:32-38 | a new game starts in AppState None |
| `Game.Start` | src/game.cpp:32-38 | a new engine and a newly constructed game form the snapshot `AppStates.Fresh()`, from which the protocol theorems start |
| `Game.Transition` | src/game.cpp:145-207 | with a null game pointer nothing happens; otherwise the game's state and the engine's trace become what `AppStates.Transition` gives for the old ones, so the leave hook runs before `app_state` is written and the enter hook after |
| `Game.Update` | src/game.cpp:68-92 | with a null game pointer nothing happens; otherwise the new state and trace are `AppStates.Update` of the old ones |
| `Game.OnInput` | src/game.cpp:94-111 | with a null game pointer nothing happens; otherwise the new state and trace are `AppStates.OnInput` of the old ones |
| `Game.Render` | src/game.cpp:113-125 | the new state and trace are `AppStates.Render` of the old ones |
| `Game.RenderImgui` | src/game.cpp:127-139 | the new state and trace are `AppStates.RenderImgui` of the old ones |
| `Game.OnShutdown` | src/game.cpp:141-143 | with a null game pointer nothing happens; otherwise the new state and trace are `AppStates.OnShutdown` (a transition to Quitting) of the old ones |

## Left out

- Floating point: `circles_overlap` and `truncate` are modelled over `real`, so single-precision rounding, overflow and NaN are not captured.
- Util.Truncate: takes `glm::length(vector)` as its parameter `length`, with the requirement that it is the true Euclidean length. glm is a foreign library, and Dafny has no square root to compute it.
- Util.OverlapIffCommonPoint: holds only for non-negative radii. `circles_overlap` itself accepts any radii, and with a negative r1 + r2 its squared test no longer means overlap.
- Foundation.SwapPop: `index` is a `nat`, not a `uint32_t`. The source's `assert(size > index)` becomes the precondition, so `size - 1` never wraps.
- Foundation.ShiftPop: the same holds for its `uint32_t` loop counter.
- Allocation and growth of `foundation::Array` are not part of this model; only `size` and the buffer matter to the two removals.
- Game.Transition: requires that `log_fatal` has not ended the process, because no code runs after it. `log_fatal` is defined in the engine library, which is not part of this model; the model takes it to end the process.
- Game.Update: requires the same, for the same reason.
- Game.OnShutdown: requires the same, for the same reason.
- The `Game` constructor's file reading and INI parsing (and their fatal logs), the destructor, and all `log_info` calls are I/O. The configuration they produce is the `Config` value.
- The `assert(game->action_binds != nullptr)` in `on_input` is not modelled. The constructor always sets `action_binds`.
- The gameplay hooks (`game_state_playing_*`) are opaque events. What they do is not modelled. The hooks' C++ and Lua implementations are not part of this model.
- A `transition` requested from inside a call that `transition` itself makes is not modelled: from the leave hook, from `engine::init_sprites` or from `initialize_lua`. The Lua binding `Engine.transition` (src/if_game.cpp:1695-1703) lets a script do this. A nested call from the leave hook completes, and the outer call then overwrites `app_state` (src/game.cpp:162-169). The protocol theorems cover only sequences of top-level entry-point calls (`Call`, `Run`), and such a nested request is not one of them.
- `AppState` has only its five values. The Lua binding casts any integer to `AppState` (src/if_game.cpp:1698), and a value outside the five is not modelled.
- Game.Render: takes a non-null `Game`, because `render` dereferences the game pointer without a null check (src/game.cpp:113-116). A null pointer there is undefined behaviour in the source.
- Game.RenderImgui: takes a non-null `Game` for the same reason (src/game.cpp:127-130).
- The scripting glue (Lua, Sol2, AngelScript, Zig FFI) is registration code over foreign runtimes and has no behaviour of its own. `truncate_vec2` in the Zig variant duplicates `truncate`.
- The steering behaviours (arrival, separation, avoidance) live in scripts that are not part of this model.
