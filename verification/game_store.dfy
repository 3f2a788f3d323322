/**
 * The game state containers of both platformer server generations
 * (`models/GameStore.java` and `game/GameStore.java`), and the start event
 * they carry: one subscribed callback, run every time the event is
 * triggered.
 *
 * A callback is modelled by an identifier; running it appends that
 * identifier to the event's log of runs, which is how its effect becomes
 * observable in the model.
 */
module GameStores {
  import opened Platforms
  import opened PlayerStores

  const TICK_DELAY_MS := 20
  const TICKS_PER_SECOND := 1000 / TICK_DELAY_MS
  const INIT_PLATFORM_GRAVITY := 7
  const LEVELUP_PLATFORM_GRAVITY := 2

  /** In seconds. */
  const PLATFORM_SPEEDUP_INTERVAL := 15

  /** The subscribed callback; the default one does nothing. */
  datatype StartAction = NoAction | Action(id: nat)

  datatype StartEvent = StartEvent(action: StartAction, runs: seq<nat>)

  /** `onStartEvent(action)`: the new callback replaces the old one; nothing runs. */
  function OnStartEvent(e: StartEvent, a: StartAction): (r: StartEvent)
    ensures r.action == a
    ensures r.runs == e.runs
  {
    e.(action := a)
  }

  /** `tiggerStartEvent()`: the subscribed callback runs once. */
  function TriggerStartEvent(e: StartEvent): (r: StartEvent)
    ensures r.action == e.action
    ensures e.action.NoAction? ==> r.runs == e.runs
    ensures e.action.Action? ==> r.runs == e.runs + [e.action.id]
  {
    match e.action
    case NoAction => e
    case Action(id) => e.(runs := e.runs + [id])
  }

  /** Only one action is subscribed at a time: the latest subscription is the one that runs. */
  lemma LatestSubscriptionWins(e: StartEvent, a: StartAction, id: nat)
    ensures OnStartEvent(OnStartEvent(e, a), Action(id)) == OnStartEvent(e, Action(id))
    ensures TriggerStartEvent(OnStartEvent(OnStartEvent(e, a), Action(id))).runs == e.runs + [id]
  {
  }

  /** The current generation's game state. Sessions are identified by their ids. */
  datatype GameStore = GameStore(
    sessions: set<string>,
    players: map<string, PlayerStore>,
    platforms: seq<Platform>,
    gameAgeSeconds: int,
    tickCount: int,
    platformGravity: int,
    startEvent: StartEvent)

  /** The builder defaults. */
  function NewGameStore(): (s: GameStore)
    ensures s.sessions == {} && s.players == map[] && s.platforms == []
    ensures s.gameAgeSeconds == 0 && s.tickCount == 0
    ensures s.platformGravity == INIT_PLATFORM_GRAVITY
    ensures s.startEvent == StartEvent(NoAction, [])
  {
    GameStore({}, map[], [], 0, 0, INIT_PLATFORM_GRAVITY, StartEvent(NoAction, []))
  }

  /**
   * The clock invariant the tick processor keeps: the tick counter stays
   * within one second, and the platform gravity has risen by the level-up
   * step once per completed speed-up interval.
   */
  predicate ValidClock(s: GameStore)
  {
    && 0 <= s.tickCount < TICKS_PER_SECOND
    && 0 <= s.gameAgeSeconds
    && s.platformGravity == INIT_PLATFORM_GRAVITY
         + LEVELUP_PLATFORM_GRAVITY * (s.gameAgeSeconds / PLATFORM_SPEEDUP_INTERVAL)
  }

  lemma NewGameStoreIsValid()
    ensures ValidClock(NewGameStore())
  {
  }

  /** The first generation's game state: no clock beyond the tick counter, fixed gravity. */
  datatype LegacyGameStore = LegacyGameStore(
    sessions: set<string>,
    players: map<string, PlayerStore>,
    platforms: seq<Platform>,
    tickCount: int,
    startEvent: StartEvent)

  function NewLegacyGameStore(): (s: LegacyGameStore)
    ensures s.sessions == {} && s.players == map[] && s.platforms == []
    ensures s.tickCount == 0
    ensures s.startEvent == StartEvent(NoAction, [])
  {
    LegacyGameStore({}, map[], [], 0, StartEvent(NoAction, []))
  }
}
