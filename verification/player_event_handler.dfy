/**
 * Client events of the first platformer server generation
 * (`players/PlayerEventHandler.java`) and its updates
 * (`players/updates/`), which act on the player map alone.
 *
 * The velocity rule is the same as the current generation's and is shared
 * with `EventProcessor`. The join differs: the new player spawns at a random
 * cell in the top third of the screen (`PlayerStore.createRandomPlayer`), and the created update carries an error flag that suppresses the
 * insertion. The source passes "is this the first player" as that flag; the
 * join as written is `ProcessJoinAsWritten`, the corrected one `ProcessJoin`.
 */
module PlayerEventHandler {
  import opened Common
  import opened Platforms
  import opened PlayerStores
  import opened GameStores
  import EventProcessor

  datatype PlayerUpdate =
    | UpdateVelocity(clientId: string, xVelocity: int, yVelocity: int)
    | CreatePlayer(isError: bool, client: string, player: PlayerStore)
    | ErrorUpdate(message: string)

  /** `processControlChange` of this generation: the same rule, on the player map. */
  function ProcessControlChange(client: string, pressed: seq<EventProcessor.Control>, players: map<string, PlayerStore>): (u: PlayerUpdate)
    ensures client !in players <==> u.ErrorUpdate?
    ensures u.ErrorUpdate? ==> u.message == "No player exists for client " + client
    ensures u.UpdateVelocity? ==>
      && u.clientId == client
      && u.xVelocity == EventProcessor.NewXVelocity(EventProcessor.ControlSet(pressed))
      && u.yVelocity == EventProcessor.NewYVelocity(EventProcessor.ControlSet(pressed), players[client].yVelocity)
  {
    if client !in players then ErrorUpdate("No player exists for client " + client)
    else
      var pressedControls := EventProcessor.ControlSet(pressed);
      UpdateVelocity(client, EventProcessor.NewXVelocity(pressedControls),
        EventProcessor.NewYVelocity(pressedControls, players[client].yVelocity))
  }

  /** The random draws of a new player: its colour and its spawn cell. */
  datatype Spawn = Spawn(color: string, xCell: int, yCell: int)

  predicate ValidSpawn(sp: Spawn)
  {
    && HexColor(sp.color)
    && 0 <= sp.xCell < WIDTH / PLAYER_WIDTH
    && 0 <= sp.yCell < MAX_SPAWN_HEIGHT / PLAYER_HEIGHT
  }

  /** The validation part of `processJoin`: the error for a refused join, if any. */
  function JoinError(client: string, name: string, players: map<string, PlayerStore>): (e: Option<string>)
    ensures e.None? <==> EventProcessor.CanJoin(client, name, players)
    ensures |name| == 0 ==> e == Some("Username cannot be blank")
    ensures |name| > EventProcessor.MAX_NAME_LENGTH ==> e == Some("Username is too long")
    ensures 0 < |name| <= EventProcessor.MAX_NAME_LENGTH && |players| >= EventProcessor.MAX_PLAYER_COUNT
      ==> e == Some("Player limit reached: " + NatToDecimal(|players|))
    ensures 0 < |name| <= EventProcessor.MAX_NAME_LENGTH && |players| < EventProcessor.MAX_PLAYER_COUNT
      && client in players
      ==> e == Some("Client is already playing: " + client)
    ensures 0 < |name| <= EventProcessor.MAX_NAME_LENGTH && |players| < EventProcessor.MAX_PLAYER_COUNT
      && client !in players && EventProcessor.NameTaken(name, players)
      ==> e == Some("Username already in use: " + name)
  {
    if |name| == 0 then Some("Username cannot be blank")
    else if |name| > EventProcessor.MAX_NAME_LENGTH then Some("Username is too long")
    else if |players| >= EventProcessor.MAX_PLAYER_COUNT then
      Some("Player limit reached: " + NatToDecimal(|players|))
    else if client in players then Some("Client is already playing: " + client)
    else if EventProcessor.NameTaken(name, players) then Some("Username already in use: " + name)
    else None
  }

  /** `processJoin` as written: the error flag is "the map is empty". */
  function ProcessJoinAsWritten(client: string, name: string, players: map<string, PlayerStore>, sp: Spawn): (u: PlayerUpdate)
    requires ValidSpawn(sp)
    ensures u.ErrorUpdate? <==> !EventProcessor.CanJoin(client, name, players)
    ensures u.CreatePlayer? ==> u.isError == (|players| == 0) && u.client == client && u.player.name == name
  {
    match JoinError(client, name, players)
    case Some(message) => ErrorUpdate(message)
    case None =>
      var isFirstPlayer := |players| == 0;
      CreatePlayer(isFirstPlayer, client, PlayerStores.CreateRandomPlayer(name, sp.color, sp.xCell, sp.yCell))
  }

  /** `processJoin` corrected: an accepted join is never flagged as an error. */
  function ProcessJoin(client: string, name: string, players: map<string, PlayerStore>, sp: Spawn): (u: PlayerUpdate)
    requires ValidSpawn(sp)
    ensures u.ErrorUpdate? <==> !EventProcessor.CanJoin(client, name, players)
    ensures u.CreatePlayer? ==> !u.isError && u.client == client && u.player.name == name
    ensures u.CreatePlayer? ==> u.player == PlayerStores.CreateRandomPlayer(name, sp.color, sp.xCell, sp.yCell)
  {
    match JoinError(client, name, players)
    case Some(message) => ErrorUpdate(message)
    case None => CreatePlayer(false, client, PlayerStores.CreateRandomPlayer(name, sp.color, sp.xCell, sp.yCell))
  }

  /** `processEvent` as written: joins go through `ProcessJoinAsWritten`. */
  function ProcessEventAsWritten(client: string, event: EventProcessor.ClientEvent, players: map<string, PlayerStore>, sp: Spawn): (u: PlayerUpdate)
    requires ValidSpawn(sp)
    ensures event.OtherPayload? ==> u == ErrorUpdate("Unsupported event type: " + event.payloadCase)
    ensures event.ControlChange? ==> u == ProcessControlChange(client, event.pressedControls, players)
    ensures event.Join? ==> u == ProcessJoinAsWritten(client, event.name, players, sp)
  {
    match event
    case ControlChange(pressed) => ProcessControlChange(client, pressed, players)
    case Join(name) => ProcessJoinAsWritten(client, name, players, sp)
    case OtherPayload(payloadCase) => ErrorUpdate("Unsupported event type: " + payloadCase)
  }

  /** `processEvent`, with the corrected join. */
  function ProcessEvent(client: string, event: EventProcessor.ClientEvent, players: map<string, PlayerStore>, sp: Spawn): (u: PlayerUpdate)
    requires ValidSpawn(sp)
    ensures event.OtherPayload? ==> u == ErrorUpdate("Unsupported event type: " + event.payloadCase)
    ensures event.ControlChange? ==> u == ProcessControlChange(client, event.pressedControls, players)
    ensures event.Join? ==> u == ProcessJoin(client, event.name, players, sp)
  {
    match event
    case ControlChange(pressed) => ProcessControlChange(client, pressed, players)
    case Join(name) => ProcessJoin(client, name, players, sp)
    case OtherPayload(payloadCase) => ErrorUpdate("Unsupported event type: " + payloadCase)
  }

  /** `applyTo(players)`; a velocity update for an unknown client throws in the source. */
  function ApplyTo(u: PlayerUpdate, players: map<string, PlayerStore>): (r: Result<map<string, PlayerStore>>)
    ensures r.Failure? <==> u.UpdateVelocity? && u.clientId !in players
    ensures r.Failure? ==> r.error == "session not in state: " + u.clientId
    ensures u.ErrorUpdate? || (u.CreatePlayer? && u.isError) ==> r == Success(players)
    ensures u.CreatePlayer? && !u.isError ==>
      && r.Success?
      && r.value.Keys == players.Keys + {u.client}
      && r.value[u.client] == u.player
      && forall k :: k in players && k != u.client ==> r.value[k] == players[k]
    ensures r.Success? && u.UpdateVelocity? ==>
      && r.value.Keys == players.Keys
      && r.value[u.clientId] == players[u.clientId].(xVelocity := u.xVelocity, yVelocity := u.yVelocity)
      && forall k :: k in players && k != u.clientId ==> r.value[k] == players[k]
  {
    match u
    case UpdateVelocity(clientId, vx, vy) =>
      if clientId !in players then Failure("session not in state: " + clientId)
      else Success(players[clientId := players[clientId].(xVelocity := vx, yVelocity := vy)])
    case CreatePlayer(isError, client, player) =>
      if !isError then Success(players[client := player]) else Success(players)
    case ErrorUpdate(_) => Success(players)
  }

  /**
   * As written, a join on an empty map is flagged as an error and inserts
   * nothing: the map stays empty, so no player can ever join.
   */
  lemma FirstJoinIsDropped(client: string, name: string, sp: Spawn)
    requires ValidSpawn(sp)
    ensures ApplyTo(ProcessJoinAsWritten(client, name, map[], sp), map[]) == Success(map[])
  {
  }

  /** The concrete join of the handler's unit test ("client1" joining as "testName") is lost. */
  lemma FirstJoinIsDroppedExample()
    ensures var sp := Spawn("#000000", 0, 0);
      var u := ProcessJoinAsWritten("client1", "testName", map[], sp);
      u.CreatePlayer? && u.isError && ApplyTo(u, map[]) == Success(map[])
  {
    var sp := Spawn("#000000", 0, 0);
    assert HexColor(sp.color);
    assert EventProcessor.CanJoin("client1", "testName", map[]);
  }

  /**
   * The dispatcher as written and the corrected one produce the same update
   * for every event, except that an accepted join into an empty map is
   * flagged as an error as written.
   */
  lemma AsWrittenDiffersOnlyInFirstJoinFlag(client: string, event: EventProcessor.ClientEvent, players: map<string, PlayerStore>, sp: Spawn)
    requires ValidSpawn(sp)
    ensures var u := ProcessEvent(client, event, players, sp);
      ProcessEventAsWritten(client, event, players, sp)
        == if u.CreatePlayer? then u.(isError := |players| == 0) else u
  {
  }

  /** Corrected, an accepted join inserts the new player under its client and keeps everyone else. */
  lemma JoinInsertsPlayer(client: string, name: string, players: map<string, PlayerStore>, sp: Spawn)
    requires ValidSpawn(sp)
    requires EventProcessor.CanJoin(client, name, players)
    ensures var r := ApplyTo(ProcessJoin(client, name, players, sp), players);
      && r.Success?
      && r.value == players[client := PlayerStores.CreateRandomPlayer(name, sp.color, sp.xCell, sp.yCell)]
      && client in r.value && r.value[client].name == name
  {
  }

  /** Corrected, processing any event and applying the result keeps the join invariant. */
  lemma ProcessEventKeepsJoinInvariant(client: string, event: EventProcessor.ClientEvent, players: map<string, PlayerStore>, sp: Spawn)
    requires ValidSpawn(sp)
    requires EventProcessor.JoinInvariant(players)
    ensures EventProcessor.JoinInvariant(ApplyTo(ProcessEvent(client, event, players, sp), players).value)
  {
    var u := ProcessEvent(client, event, players, sp);
    if u.CreatePlayer? {
      EventProcessor.AddingJoinedPlayerKeepsInvariant(client, u.player, players);
    } else if u.UpdateVelocity? {
      var r := ApplyTo(u, players).value;
      assert forall k :: k in r ==> r[k].name == players[k].name;
    }
  }

  /** `players/updates/CreateFirstPlayer.applyTo`: insert, install the layout, trigger the start event. */
  function ApplyCreateFirstPlayer(client: string, player: PlayerStore, platforms: seq<Platform>, store: LegacyGameStore): (r: LegacyGameStore)
    ensures r.players.Keys == store.players.Keys + {client} && r.players[client] == player
    ensures forall k :: k in store.players && k != client ==> r.players[k] == store.players[k]
    ensures r.platforms == platforms
    ensures r.startEvent == TriggerStartEvent(store.startEvent)
    ensures r.sessions == store.sessions && r.tickCount == store.tickCount
  {
    store.(players := store.players[client := player], platforms := platforms,
           startEvent := TriggerStartEvent(store.startEvent))
  }
}
