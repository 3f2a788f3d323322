/**
 * The in-memory game repository of the TypeScript server
 * (`server/src/game/localGameRepository.ts`), also the repository the
 * legacy TypeScript server's handlers and game loop work on.
 *
 * The player store is a JavaScript `Map` from client id to player, which
 * iterates in insertion order. The player-id
 * counter is a module-level variable shared by all repositories; it is
 * passed in and returned. The random colour and position draws are the
 * parameter `Spawn`.
 */
module TsRepository {
  import opened Common
  import opened Bounds
  import opened TsPlayers
  import opened JsMaps

  datatype Repo = Repo(entries: seq<(string, TsPlayer)>, age: int, isRunning: bool)

  /** The messages the TypeScript servers send to clients. */
  datatype Outbound =
    | GameUpdate(serverAge: int, players: seq<PlayerState>)
    | GameOverUpdate(reason: string)
    | ServerError(message: string)

  predicate Valid(r: Repo)
  {
    DistinctKeys(r.entries)
  }

  /** A new repository: no players, age 0, not running. */
  function NewRepo(): (r: Repo)
    ensures Valid(r) && r.entries == [] && r.age == 0 && !r.isRunning
  {
    Repo([], 0, false)
  }

  /** `randomInt(bound, step)` draws a multiple of `step` below `bound`: `cell * step < bound`. */
  datatype Spawn = Spawn(color: string, xCell: nat, yCell: nat)

  predicate ValidSpawn(sp: Spawn, a: Arena)
  {
    sp.xCell * a.playerWidth < a.width && sp.yCell * a.playerHeight < a.height
  }

  /**
   * `createPlayer(clientId)`: the id counter advances even when the client
   * already has a player, in which case the call fails.
   */
  function CreatePlayer(r: Repo, nextId: nat, clientId: string, sp: Spawn, a: Arena): (res: (Result<(Repo, TsPlayer)>, nat))
    requires ValidArena(a) && ValidSpawn(sp, a)
    ensures res.1 == nextId + 1
    ensures res.0.Failure? <==> clientId in Keys(r.entries)
    ensures res.0.Failure? ==> res.0.error == "Id already exists: " + clientId
    ensures res.0.Success? ==>
      var (r', p) := res.0.value;
      && r' == r.(entries := r.entries + [(clientId, p)])
      && p.id == NatToDecimal(nextId) && p.color == sp.color
      && p.age == 0 && p.vx == 0 && p.vy == 0
      && p.x % a.playerWidth == 0 && p.y % a.playerHeight == 0
      && 0 <= p.x < a.width && 0 <= p.y < a.height
  {
    var playerId := NatToDecimal(nextId);
    if clientId in Keys(r.entries) then
      (Failure("Id already exists: " + clientId), nextId + 1)
    else
      ModOfMultiple(sp.xCell, a.playerWidth);
      ModOfMultiple(sp.yCell, a.playerHeight);
      var p := TsPlayer(playerId, sp.color, 0, sp.xCell * a.playerWidth, sp.yCell * a.playerHeight, 0, 0);
      (Success((r.(entries := Put(r.entries, clientId, p)), p)), nextId + 1)
  }

  /** When the arena is a whole number of player sizes, every spawn lies fully inside it. */
  lemma SpawnInsideWhenArenaDivides(sp: Spawn, a: Arena)
    requires ValidArena(a) && ValidSpawn(sp, a)
    requires a.width % a.playerWidth == 0 && a.height % a.playerHeight == 0
    ensures InsideAxis(sp.xCell * a.playerWidth, a.playerWidth, a.width)
    ensures InsideAxis(sp.yCell * a.playerHeight, a.playerHeight, a.height)
  {
    CellFits(sp.xCell, a.playerWidth, a.width);
    CellFits(sp.yCell, a.playerHeight, a.height);
  }

  lemma CellFits(cell: nat, size: int, bound: int)
    requires 0 < size && cell * size < bound && bound % size == 0
    ensures cell * size + size <= bound
  {
    var q := bound / size;
    assert bound == q * size;
    assert cell < q;
    assert q * size - cell * size - size == (q - cell - 1) * size;
  }

  /** Player ids from different counter values differ. */
  lemma IdsAreUnique(m: nat, n: nat)
    requires m != n
    ensures NatToDecimal(m) != NatToDecimal(n)
  {
    if NatToDecimal(m) == NatToDecimal(n) {
      NatToDecimalInjective(m, n);
    }
  }

  /** `deletePlayer(clientId)`: whether a player was removed, and the repository without it. */
  function DeletePlayer(r: Repo, clientId: string): (res: (Repo, bool))
    ensures res.1 <==> clientId in Keys(r.entries)
    ensures res.0 == r.(entries := res.0.entries)
    ensures Keys(res.0.entries) == Keys(r.entries) - {clientId}
    ensures forall e :: e in res.0.entries <==> e in r.entries && e.0 != clientId
  {
    (r.(entries := Delete(r.entries, clientId)), clientId in Keys(r.entries))
  }

  /** Creating a player and deleting it again gives back the repository (the counter has moved on). */
  lemma CreateThenDelete(r: Repo, nextId: nat, clientId: string, sp: Spawn, a: Arena)
    requires ValidArena(a) && ValidSpawn(sp, a)
    requires clientId !in Keys(r.entries)
    ensures var created := CreatePlayer(r, nextId, clientId, sp, a).0;
      created.Success? && DeletePlayer(created.value.0, clientId) == (r, true)
  {
    var created := CreatePlayer(r, nextId, clientId, sp, a).0;
    DeleteAfterPut(r.entries, clientId, created.value.1);
  }

  /** Deleting a client without a player reports it and changes nothing. */
  lemma DeleteAbsentPlayer(r: Repo, clientId: string)
    requires clientId !in Keys(r.entries)
    ensures DeletePlayer(r, clientId) == (r, false)
  {
    DeleteAbsent(r.entries, clientId);
  }

  /** Creating and deleting keep each client with at most one player. */
  lemma CreateKeepsValid(r: Repo, nextId: nat, clientId: string, sp: Spawn, a: Arena)
    requires ValidArena(a) && ValidSpawn(sp, a) && Valid(r)
    ensures var created := CreatePlayer(r, nextId, clientId, sp, a).0;
      created.Success? ==> Valid(created.value.0)
  {
    var created := CreatePlayer(r, nextId, clientId, sp, a).0;
    if created.Success? {
      PutKeepsDistinct(r.entries, clientId, created.value.1);
    }
  }

  lemma DeleteKeepsValid(r: Repo, clientId: string)
    requires Valid(r)
    ensures Valid(DeletePlayer(r, clientId).0)
  {
    DeleteKeepsDistinct(r.entries, clientId);
  }

  /** `getPlayer(clientId)`: the player of the client, or nothing. */
  function GetPlayer(r: Repo, clientId: string): (p: Option<TsPlayer>)
    ensures p.None? <==> clientId !in Keys(r.entries)
    ensures p.Some? ==> (clientId, p.value) in r.entries
  {
    Get(r.entries, clientId)
  }

  /** A created player is found under its client id, and no other lookup changes. */
  lemma CreateThenGet(r: Repo, nextId: nat, clientId: string, sp: Spawn, a: Arena, k: string)
    requires ValidArena(a) && ValidSpawn(sp, a)
    requires clientId !in Keys(r.entries)
    ensures var created := CreatePlayer(r, nextId, clientId, sp, a).0;
      && created.Success?
      && GetPlayer(created.value.0, clientId) == Some(created.value.1)
      && (k != clientId ==> GetPlayer(created.value.0, k) == GetPlayer(r, k))
  {
    var created := CreatePlayer(r, nextId, clientId, sp, a).0;
    GetAfterPut(r.entries, clientId, created.value.1, clientId);
    GetAfterPut(r.entries, clientId, created.value.1, k);
  }

  /** `getAllPlayers()`: the players in insertion order. */
  function GetAllPlayers(r: Repo): (ps: seq<TsPlayer>)
    ensures |ps| == |r.entries|
    ensures forall i :: 0 <= i < |ps| ==> ps[i] == r.entries[i].1
  {
    Values(r.entries)
  }

  /** `getAllPlayersState()`: the public state of every player, in insertion order. */
  function GetAllPlayersState(r: Repo): (ss: seq<PlayerState>)
    ensures |ss| == |r.entries|
    ensures forall i :: 0 <= i < |ss| ==> ss[i] == PlayerToPlayerState(r.entries[i].1)
  {
    var ps := GetAllPlayers(r);
    seq(|ps|, i requires 0 <= i < |ps| => PlayerToPlayerState(ps[i]))
  }

  /** `playerCount()`: the size of the player map. */
  function PlayerCount(r: Repo): (n: nat)
    ensures n == |r.entries|
  {
    |r.entries|
  }

  /** In a valid repository the count is the number of distinct clients. */
  lemma PlayerCountIsClientCount(r: Repo)
    requires Valid(r)
    ensures PlayerCount(r) == |Keys(r.entries)|
  {
    DistinctKeysCount(r.entries);
  }

  /** Each successful creation adds exactly one player; a deletion that reports success removes one. */
  lemma CountsFollowCreateAndDelete(r: Repo, nextId: nat, clientId: string, sp: Spawn, a: Arena)
    requires ValidArena(a) && ValidSpawn(sp, a) && Valid(r)
    ensures var created := CreatePlayer(r, nextId, clientId, sp, a).0;
      created.Success? ==> PlayerCount(created.value.0) == PlayerCount(r) + 1
    ensures DeletePlayer(r, clientId).1 ==> PlayerCount(DeletePlayer(r, clientId).0) == PlayerCount(r) - 1
  {
    if clientId in Keys(r.entries) {
      var e :| e in r.entries && e.0 == clientId;
      var i :| 0 <= i < |r.entries| && r.entries[i] == e;
      DeleteCount(r.entries, clientId, i);
    }
  }

  /** In a map with distinct keys, deleting a present key shortens it by one. */
  lemma {:induction false} DeleteCount(m: seq<(string, TsPlayer)>, k: string, i: nat)
    requires DistinctKeys(m) && i < |m| && m[i].0 == k
    ensures |Delete(m, k)| == |m| - 1
    decreases |m|
  {
    KeysCons(m);
    if i == 0 {
      DeleteAbsent(m[1..], k);
    } else {
      DeleteCount(m[1..], k, i - 1);
    }
  }

  /** `getUpdate()`: the game update message for the current state. */
  function GetUpdate(r: Repo): (u: Outbound)
    ensures u.GameUpdate? && u.serverAge == r.age
    ensures u.players == GetAllPlayersState(r)
  {
    GameUpdate(r.age, GetAllPlayersState(r))
  }

  /** The velocity assignment the handlers make through the player `getPlayer` returns. */
  function SetVelocity(r: Repo, clientId: string, v: (int, int)): (r': Repo)
    ensures r' == r.(entries := r'.entries)
    ensures |r'.entries| == |r.entries|
    ensures forall i :: 0 <= i < |r.entries| ==>
      r'.entries[i] == if r.entries[i].0 == clientId
        then (clientId, r.entries[i].1.(vx := v.0, vy := v.1))
        else r.entries[i]
  {
    r.(entries := Update(r.entries, clientId, (p: TsPlayer) => p.(vx := v.0, vy := v.1)))
  }

  /** Moving every player once, as the game loop does through `getAllPlayers()`. */
  function MoveAll(r: Repo, a: Arena): (r': Repo)
    ensures r' == r.(entries := r'.entries)
    ensures |r'.entries| == |r.entries|
    ensures forall i :: 0 <= i < |r.entries| ==>
      r'.entries[i] == (r.entries[i].0, MovePlayer(r.entries[i].1, a))
  {
    r.(entries := MapValues(r.entries, (p: TsPlayer) => MovePlayer(p, a)))
  }
}
