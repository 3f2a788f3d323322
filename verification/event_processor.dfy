/**
 * Client events of the current platformer server
 * (`clients/EventProcessor.java`) and the updates they produce
 * (`clients/updates/`). Processing an event reads the store and returns an
 * update; applying the update is the only thing that changes the store.
 *
 * The random choices of the source are parameters: the draws of the initial
 * platform layout and the colour of a new player.
 */
module EventProcessor {
  import opened Common
  import opened Platforms
  import opened PlayerStores
  import opened GameStores

  const PLAYER_MOVE_SPEED := 20
  const PLAYER_JUMP_SPEED := 40
  const MAX_PLAYER_COUNT := 15
  const MAX_NAME_LENGTH := 25

  /** A jump may start only while the vertical velocity lies in [0, JUMP_CUTOFF). */
  const JUMP_CUTOFF := 2 * PLATFORM_GRAVITY

  datatype Control = Up | Down | Left | Right

  /** The payload of a socket message; `OtherPayload` carries the name of any other case. */
  datatype ClientEvent =
    | ControlChange(pressedControls: seq<Control>)
    | Join(name: string)
    | OtherPayload(payloadCase: string)

  datatype GameUpdate =
    | UpdateVelocity(clientId: string, xVelocity: int, yVelocity: int)
    | CreatePlayer(client: string, player: PlayerStore)
    | CreateFirstPlayer(client: string, player: PlayerStore, platforms: seq<Platform>)
    | ErrorUpdate(message: string)

  /** The horizontal velocity chosen by the pressed controls: right wins over left. */
  function NewXVelocity(pressed: set<Control>): (vx: int)
    ensures Right in pressed <==> vx == PLAYER_MOVE_SPEED
    ensures Right !in pressed && Left in pressed <==> vx == -PLAYER_MOVE_SPEED
    ensures Right !in pressed && Left !in pressed <==> vx == 0
  {
    if Right in pressed then PLAYER_MOVE_SPEED
    else if Left in pressed then -PLAYER_MOVE_SPEED
    else 0
  }

  /**
   * The vertical velocity: pressing up jumps if the player is resting or
   * falling slowly; releasing up stops an upward motion; otherwise the
   * velocity is kept.
   */
  function NewYVelocity(pressed: set<Control>, oldYVelocity: int): (vy: int)
    ensures vy == -PLAYER_JUMP_SPEED && oldYVelocity != -PLAYER_JUMP_SPEED
      ==> Up in pressed && 0 <= oldYVelocity < JUMP_CUTOFF
    ensures Up in pressed && 0 <= oldYVelocity < JUMP_CUTOFF ==> vy == -PLAYER_JUMP_SPEED
    ensures Up in pressed && !(0 <= oldYVelocity < JUMP_CUTOFF) ==> vy == oldYVelocity
    ensures Up !in pressed ==> vy >= 0 && vy == (if oldYVelocity < 0 then 0 else oldYVelocity)
  {
    var isPressingUp := Up in pressed;
    var canJump := 0 <= oldYVelocity && oldYVelocity < JUMP_CUTOFF;
    if isPressingUp && canJump then -PLAYER_JUMP_SPEED
    else if !isPressingUp && oldYVelocity < 0 then 0
    else oldYVelocity
  }

  function ControlSet(pressed: seq<Control>): set<Control>
  {
    set c | c in pressed
  }

  /** `processControlChange`. */
  function ProcessControlChange(client: string, pressed: seq<Control>, store: GameStore): (u: GameUpdate)
    ensures client !in store.players <==> u.ErrorUpdate?
    ensures u.ErrorUpdate? ==> u.message == "No player exists for client " + client
    ensures u.UpdateVelocity? ==>
      && u.clientId == client
      && u.xVelocity in {-PLAYER_MOVE_SPEED, 0, PLAYER_MOVE_SPEED}
      && u.xVelocity == NewXVelocity(ControlSet(pressed))
      && u.yVelocity == NewYVelocity(ControlSet(pressed), store.players[client].yVelocity)
  {
    if client !in store.players then
      ErrorUpdate("No player exists for client " + client)
    else
      var oldYVelocity := store.players[client].yVelocity;
      var pressedControls := ControlSet(pressed);
      UpdateVelocity(client, NewXVelocity(pressedControls), NewYVelocity(pressedControls, oldYVelocity))
  }

  /** The update depends only on which controls are pressed, not on their order or repetitions. */
  lemma ControlOrderIrrelevant(client: string, a: seq<Control>, b: seq<Control>, store: GameStore)
    requires forall c :: c in a <==> c in b
    ensures ProcessControlChange(client, a, store) == ProcessControlChange(client, b, store)
  {
    assert ControlSet(a) == ControlSet(b);
  }

  /** One step of the platform choice: keep the old candidate unless the new one is higher and leaves spawn room. */
  function Pick(best: Platform, curr: Platform): Platform
  {
    if best.y <= curr.y then best
    else if curr.y < SPAWN_HEIGHT then best
    else curr
  }

  /**
   * `choosePlatformForPlayer`: the stream reduction with `Pick`, from the
   * first platform. If the first platform leaves no spawn room it is kept;
   * otherwise the result is the highest platform among those that leave
   * room, the earliest one on a tie.
   */
  function ChoosePlatform(ps: seq<Platform>): (r: Platform)
    requires |ps| > 0
    ensures exists i :: 0 <= i < |ps| && ps[i] == r && forall j :: 0 <= j < i ==> ps[j].y != r.y
    ensures ps[0].y < SPAWN_HEIGHT ==> r == ps[0]
    ensures ps[0].y >= SPAWN_HEIGHT ==>
      && r.y >= SPAWN_HEIGHT
      && forall i :: 0 <= i < |ps| && ps[i].y >= SPAWN_HEIGHT ==> r.y <= ps[i].y
    decreases |ps|
  {
    if |ps| == 1 then ps[0]
    else
      var init := ps[..|ps| - 1];
      var acc := ChoosePlatform(init);
      assert forall i :: 0 <= i < |init| ==> init[i] == ps[i];
      Pick(acc, ps[|ps| - 1])
  }

  /** `processJoin`, checks in source order. */
  function ProcessJoin(client: string, name: string, store: GameStore, draws: seq<Draw>, color: string): (u: GameUpdate)
    requires ValidInitDraws(draws) && HexColor(color)
    ensures u.ErrorUpdate? <==> !CanJoin(client, name, store.players)
    ensures |name| == 0 ==> u == ErrorUpdate("Username cannot be blank")
    ensures |name| > MAX_NAME_LENGTH ==> u == ErrorUpdate("Username is too long")
    ensures 0 < |name| <= MAX_NAME_LENGTH && |store.players| >= MAX_PLAYER_COUNT
      ==> u == ErrorUpdate("Player limit reached: " + NatToDecimal(|store.players|))
    ensures 0 < |name| <= MAX_NAME_LENGTH && |store.players| < MAX_PLAYER_COUNT
      && client in store.players
      ==> u == ErrorUpdate("Client is already playing: " + client)
    ensures 0 < |name| <= MAX_NAME_LENGTH && |store.players| < MAX_PLAYER_COUNT
      && client !in store.players && NameTaken(name, store.players)
      ==> u == ErrorUpdate("Username already in use: " + name)
    ensures u.CreateFirstPlayer? <==> CanJoin(client, name, store.players) && |store.players| == 0
    ensures u.CreatePlayer? ==> u.client == client && u.player.name == name
    ensures u.CreateFirstPlayer? ==>
      && u.client == client && u.player.name == name
      && (|store.platforms| == 0 ==> |u.platforms| == INIT_PLATFORM_COUNT)
      && (|store.platforms| > 0 ==> u.platforms == store.platforms)
  {
    if |name| == 0 then ErrorUpdate("Username cannot be blank")
    else if |name| > MAX_NAME_LENGTH then ErrorUpdate("Username is too long")
    else if |store.players| >= MAX_PLAYER_COUNT then
      ErrorUpdate("Player limit reached: " + NatToDecimal(|store.players|))
    else if client in store.players then
      ErrorUpdate("Client is already playing: " + client)
    else if NameTaken(name, store.players) then
      ErrorUpdate("Username already in use: " + name)
    else
      var choicePlatforms := if |store.platforms| == 0 then SpawnInitPlatforms(draws) else store.platforms;
      var newPlayer := CreateAbovePlatform(name, color, ChoosePlatform(choicePlatforms));
      if |store.players| == 0 then CreateFirstPlayer(client, newPlayer, choicePlatforms)
      else CreatePlayer(client, newPlayer)
  }

  /** Some player already uses the name, ignoring case. */
  predicate NameTaken(name: string, players: map<string, PlayerStore>): (taken: bool)
    ensures taken <==> exists k :: k in players && ToLowerAsciiString(players[k].name) == ToLowerAsciiString(name)
  {
    exists k :: k in players && EqualsIgnoreCase(players[k].name, name)
  }

  /**
   * When a join is accepted: a name of 1 to 25 characters, room for one more
   * player, a new client, and no player whose name lower-cases to the same.
   */
  predicate CanJoin(client: string, name: string, players: map<string, PlayerStore>): (ok: bool)
    ensures ok <==>
      && 0 < |name| <= MAX_NAME_LENGTH
      && |players| + 1 <= MAX_PLAYER_COUNT
      && client !in players
      && forall k :: k in players ==> ToLowerAsciiString(players[k].name) != ToLowerAsciiString(name)
  {
    && 0 < |name| <= MAX_NAME_LENGTH
    && |players| < MAX_PLAYER_COUNT
    && client !in players
    && !NameTaken(name, players)
  }

  /** The new player of an accepted join is spawned above the platform chosen from the layout it joins. */
  lemma JoinSpawnsAboveChosenPlatform(client: string, name: string, store: GameStore, draws: seq<Draw>, color: string)
    requires ValidInitDraws(draws) && HexColor(color)
    requires CanJoin(client, name, store.players)
    ensures var u := ProcessJoin(client, name, store, draws, color);
      var layout := if |store.platforms| == 0 then SpawnInitPlatforms(draws) else store.platforms;
      (u.CreatePlayer? || u.CreateFirstPlayer?)
      && u.player == CreateAbovePlatform(name, color, ChoosePlatform(layout))
      && (u.CreateFirstPlayer? ==> u.platforms == layout)
  {
  }

  /** `processEvent`: dispatch on the payload case. */
  function ProcessEvent(client: string, event: ClientEvent, store: GameStore, draws: seq<Draw>, color: string): (u: GameUpdate)
    requires ValidInitDraws(draws) && HexColor(color)
    ensures event.OtherPayload? ==> u == ErrorUpdate("Unsupported event type: " + event.payloadCase)
    ensures event.ControlChange? ==> u == ProcessControlChange(client, event.pressedControls, store)
    ensures event.Join? ==> u == ProcessJoin(client, event.name, store, draws, color)
    ensures u.UpdateVelocity? ==> u.clientId in store.players
  {
    match event
    case ControlChange(pressed) => ProcessControlChange(client, pressed, store)
    case Join(name) => ProcessJoin(client, name, store, draws, color)
    case OtherPayload(payloadCase) => ErrorUpdate("Unsupported event type: " + payloadCase)
  }

  /** `reply()`: only errors answer the client. */
  function Reply(u: GameUpdate): (r: Option<string>)
    ensures r.Some? <==> u.ErrorUpdate?
    ensures r.Some? ==> r.value == u.message
  {
    match u
    case ErrorUpdate(message) => Some(message)
    case _ => None
  }

  /**
   * `applyTo(store)`. Setting the velocity of a client without a player
   * throws in the source; that is the failure here.
   */
  function ApplyTo(u: GameUpdate, store: GameStore): (r: Result<GameStore>)
    ensures r.Failure? <==> u.UpdateVelocity? && u.clientId !in store.players
    ensures r.Failure? ==> r.error == "no player for id: " + u.clientId
    ensures u.ErrorUpdate? ==> r == Success(store)
    ensures r.Success? && !u.CreateFirstPlayer? ==>
      r.value == store.(players := r.value.players)
    ensures r.Success? && u.UpdateVelocity? ==>
      && r.value.players.Keys == store.players.Keys
      && r.value.players[u.clientId] == store.players[u.clientId].(xVelocity := u.xVelocity, yVelocity := u.yVelocity)
      && forall k :: k in store.players && k != u.clientId ==> r.value.players[k] == store.players[k]
    ensures (u.CreatePlayer? || u.CreateFirstPlayer?) ==>
      && r.Success?
      && r.value.players.Keys == store.players.Keys + {u.client}
      && r.value.players[u.client] == u.player
      && forall k :: k in store.players && k != u.client ==> r.value.players[k] == store.players[k]
    ensures u.CreateFirstPlayer? ==>
      r.value == store.(players := r.value.players, platforms := u.platforms,
                        startEvent := TriggerStartEvent(store.startEvent))
  {
    match u
    case UpdateVelocity(clientId, vx, vy) =>
      if clientId !in store.players then Failure("no player for id: " + clientId)
      else
        var p := store.players[clientId];
        Success(store.(players := store.players[clientId := p.(xVelocity := vx, yVelocity := vy)]))
    case CreatePlayer(client, player) =>
      Success(store.(players := store.players[client := player]))
    case CreateFirstPlayer(client, player, platforms) =>
      Success(store.(players := store.players[client := player], platforms := platforms,
                     startEvent := TriggerStartEvent(store.startEvent)))
    case ErrorUpdate(_) => Success(store)
  }

  /** Every update the processor produces applies to the store it was produced from. */
  lemma ProcessedUpdatesApply(client: string, event: ClientEvent, store: GameStore, draws: seq<Draw>, color: string)
    requires ValidInitDraws(draws) && HexColor(color)
    ensures ApplyTo(ProcessEvent(client, event, store, draws, color), store).Success?
  {
  }

  /**
   * The join invariant: at most MAX_PLAYER_COUNT players, and no two
   * different clients play under names equal ignoring case.
   */
  predicate JoinInvariant(players: map<string, PlayerStore>)
  {
    && |players| <= MAX_PLAYER_COUNT
    && forall a, b :: a in players && b in players && a != b
         ==> !EqualsIgnoreCase(players[a].name, players[b].name)
  }

  /** Processing any event and applying the result keeps the join invariant. */
  lemma ProcessEventKeepsJoinInvariant(client: string, event: ClientEvent, store: GameStore, draws: seq<Draw>, color: string)
    requires ValidInitDraws(draws) && HexColor(color)
    requires JoinInvariant(store.players)
    ensures JoinInvariant(ApplyTo(ProcessEvent(client, event, store, draws, color), store).value.players)
  {
    var u := ProcessEvent(client, event, store, draws, color);
    if u.CreatePlayer? || u.CreateFirstPlayer? {
      AddingJoinedPlayerKeepsInvariant(client, u.player, store.players);
    } else if u.UpdateVelocity? {
      var s' := ApplyTo(u, store).value;
      assert forall k :: k in s'.players ==> s'.players[k].name == store.players[k].name;
    }
  }

  /** Inserting the player of an accepted join keeps the join invariant. */
  lemma AddingJoinedPlayerKeepsInvariant(client: string, player: PlayerStore, before: map<string, PlayerStore>)
    requires JoinInvariant(before)
    requires CanJoin(client, player.name, before)
    ensures JoinInvariant(before[client := player])
  {
    var players := before[client := player];
    assert players.Keys == before.Keys + {client};
    assert |players.Keys| == |before.Keys| + 1;
    forall a, b | a in players && b in players && a != b
      ensures !EqualsIgnoreCase(players[a].name, players[b].name)
    {
      if a == client {
        EqualsIgnoreCaseProperties(players[b].name, player.name, player.name);
      }
    }
  }

  /** Applying the same CreatePlayer twice is the same as applying it once. */
  lemma CreatePlayerIdempotent(client: string, player: PlayerStore, store: GameStore)
    ensures var once := ApplyTo(CreatePlayer(client, player), store).value;
      ApplyTo(CreatePlayer(client, player), once) == Success(once)
  {
    var players := store.players[client := player];
    assert players[client := player] == players;
  }

  /** The first player's creation runs the subscribed start action exactly once. */
  lemma CreateFirstPlayerStartsOnce(client: string, player: PlayerStore, platforms: seq<Platform>, store: GameStore, id: nat)
    requires store.startEvent.action == Action(id)
    ensures ApplyTo(CreateFirstPlayer(client, player, platforms), store).value.startEvent.runs
      == store.startEvent.runs + [id]
  {
  }
}
