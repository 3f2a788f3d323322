/**
 * Client messages and disconnects of the legacy TypeScript server
 * (`legacy-ts-server/src/clients/eventHandler.ts`), acting on the game
 * repository. Each handler returns the message to send back and the
 * repository afterwards.
 *
 * JSON decoding is not modelled: a raw message arrives either as the text
 * of the parse error or as its decoded type tag and pressed controls.
 */
module LegacyEventHandler {
  import opened Common
  import EventProcessor
  import opened TsPlayers
  import opened TsRepository
  import opened JsMaps

  /** The only message type a client may send. */
  const PLAYER_CONTROL_UPDATE := "playerControlUpdate"

  datatype RawMessage =
    | Unparsable(parseError: string)
    | Parsed(messageType: string, pressedControls: seq<EventProcessor.Control>)

  /**
   * `playerUpdateResponse`: a running game gives the client's player the
   * velocity of its pressed controls and answers with the game update.
   */
  function PlayerUpdateResponse(clientId: string, pressed: seq<EventProcessor.Control>, r: Repo): (res: (Outbound, Repo))
    ensures !r.isRunning ==> res == (ServerError("Game is not running"), r)
    ensures r.isRunning && clientId !in Keys(r.entries) ==>
      res == (ServerError("Client '" + clientId + "' has no associated player"), r)
    ensures r.isRunning && clientId in Keys(r.entries) ==>
      && res.1 == SetVelocity(r, clientId, GetPlayerVelocity(pressed))
      && res.0 == GetUpdate(res.1)
  {
    if !r.isRunning then (ServerError("Game is not running"), r)
    else match GetPlayer(r, clientId)
      case None => (ServerError("Client '" + clientId + "' has no associated player"), r)
      case Some(_) =>
        var r' := SetVelocity(r, clientId, GetPlayerVelocity(pressed));
        (GetUpdate(r'), r')
  }

  /** `handleClientMessage`: parse errors and unknown types are answered with a server error. */
  function HandleClientMessage(clientId: string, message: RawMessage, r: Repo): (res: (Outbound, Repo))
    ensures message.Unparsable? ==> res == (ServerError("JSON parse error: " + message.parseError), r)
    ensures message.Parsed? && message.messageType != PLAYER_CONTROL_UPDATE ==>
      res == (ServerError("Unsupported message type: " + message.messageType), r)
    ensures res.0.ServerError? ==> res.1 == r
    ensures message.Parsed? && message.messageType == PLAYER_CONTROL_UPDATE ==>
      res == PlayerUpdateResponse(clientId, message.pressedControls, r)
  {
    match message
    case Unparsable(e) => (ServerError("JSON parse error: " + e), r)
    case Parsed(messageType, pressed) =>
      if messageType == PLAYER_CONTROL_UPDATE then PlayerUpdateResponse(clientId, pressed, r)
      else (ServerError("Unsupported message type: " + messageType), r)
  }

  /**
   * `handleClientDisconnect`: the client's player is removed (a missing one
   * is only logged), the game stops once no player is left, and the answer
   * is the game update.
   */
  function HandleClientDisconnect(clientId: string, r: Repo): (res: (Outbound, Repo))
    ensures Keys(res.1.entries) == Keys(r.entries) - {clientId}
    ensures forall e :: e in res.1.entries <==> e in r.entries && e.0 != clientId
    ensures res.1.age == r.age
    ensures res.1.isRunning <==> r.isRunning && |res.1.entries| > 0
    ensures res.0 == GetUpdate(res.1)
  {
    var (deleted, _) := DeletePlayer(r, clientId);
    var r' := if PlayerCount(deleted) == 0 then deleted.(isRunning := false) else deleted;
    assert |r'.entries| == 0 <==> PlayerCount(deleted) == 0;
    (GetUpdate(r'), r')
  }

  /** Velocity is not part of the game update. */
  lemma SetVelocityKeepsUpdate(r: Repo, clientId: string, v: (int, int))
    ensures GetUpdate(SetVelocity(r, clientId, v)) == GetUpdate(r)
  {
    var r' := SetVelocity(r, clientId, v);
    forall i | 0 <= i < |r.entries|
      ensures GetAllPlayersState(r')[i] == GetAllPlayersState(r)[i]
    {
      StateIgnoresVelocity(r.entries[i].1, v.0, v.1);
    }
  }

  /**
   * A control update reaches exactly the sender's player, and changes
   * nothing the game update shows: velocity becomes visible only through
   * the next tick's movement.
   */
  lemma ControlUpdateSetsOnlyVelocity(clientId: string, pressed: seq<EventProcessor.Control>, r: Repo, k: string)
    requires r.isRunning && clientId in Keys(r.entries)
    ensures var res := PlayerUpdateResponse(clientId, pressed, r);
      var v := GetPlayerVelocity(pressed);
      && GetPlayer(res.1, clientId) == Some(GetPlayer(r, clientId).value.(vx := v.0, vy := v.1))
      && (k != clientId ==> GetPlayer(res.1, k) == GetPlayer(r, k))
      && Keys(res.1.entries) == Keys(r.entries)
      && res.0 == GetUpdate(r)
  {
    var v := GetPlayerVelocity(pressed);
    var f := (p: TsPlayer) => p.(vx := v.0, vy := v.1);
    GetAfterUpdate(r.entries, clientId, f, clientId);
    GetAfterUpdate(r.entries, clientId, f, k);
    UpdateKeepsKeys(r.entries, clientId, f);
    SetVelocityKeepsUpdate(r, clientId, v);
  }

  /**
   * A client that joined a game still holding other players and then
   * disconnects leaves the repository as it found it.
   */
  lemma JoinThenDisconnect(r: Repo, nextId: nat, clientId: string, sp: Spawn, a: Arena)
    requires ValidArena(a) && ValidSpawn(sp, a)
    requires clientId !in Keys(r.entries) && |r.entries| > 0
    ensures var created := CreatePlayer(r, nextId, clientId, sp, a).0;
      created.Success? && HandleClientDisconnect(clientId, created.value.0).1 == r
  {
    CreateThenDelete(r, nextId, clientId, sp, a);
  }

  /** The game stops on a disconnect exactly when the leaving client was the last one with a player. */
  lemma DisconnectStopsGameIffLast(r: Repo, clientId: string)
    requires r.isRunning
    ensures !HandleClientDisconnect(clientId, r).1.isRunning <==> Keys(r.entries) <= {clientId}
  {
    var r' := HandleClientDisconnect(clientId, r).1;
    if |r'.entries| > 0 {
      assert r'.entries[0].0 in Keys(r.entries) - {clientId};
    } else {
      assert Keys(r'.entries) == {};
    }
  }
}
