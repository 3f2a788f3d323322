# keep-jumping, modelled in Dafny

keep-jumping is a multiplayer browser platformer. Players join under a
name, steer a square with the arrow keys, and land on platforms that fall
down the screen and speed up over time. A player who falls to the ground
is out. The repository holds several generations of the server, and this
project models the game logic of each:

- **The current Java platformer** (`server/.../models`, `engine`,
  `clients`). It covers the player record `PlayerStore`: spawning, the
  per-tick step with clamping, gravity and landing on platforms, score and
  cloning. It also covers the platform record, the game store with its
  clock and start event, and the tick processor: time, falling platforms,
  per-player step, removal of grounded players, the ping message and the
  platform-spawn decision. Last comes the event processor: control changes,
  joins with their validation and the first-player layout, and the updates
  that apply to the store.
- **The first Java platformer** (`players`, `platforms`, `game`). It has
  its own player step, platform and tick handler, and its own
  `PlayerEventHandler` with updates that act on the player map.
- **The java-server**: free-flying squares in an 800 x 500 arena, with
  velocity from the pressed keys.
- **The TypeScript server's** player and in-memory game repository.
- **The legacy TypeScript server's** message and disconnect handlers, its
  game loop and its client bridge.

Everything is modelled with immutable datatypes and pure functions.
- The Java methods mutate their receiver. Here they return the new value.
- Randomness becomes bounded parameters. The draws of
  `nextInt(n)` / `randomInt` are naturals below `n`, and the colour is any
  string of the `HexColor` shape.
- A Java exception or a TypeScript `throw` becomes the `Failure` of a
  `Result`.
- Integers are unbounded. Java's truncating `%` and `/` are written out as
  `JavaRem` and `JavaDiv`.
- A Java `HashMap`'s iteration order is not fixed. Where it shows, the
  model takes it as a parameter (`CreateGamePing`) or returns a set
  (`playersToRemove`).
- A JavaScript `Map` iterates in insertion order. It is modelled once, in
  `JsMaps`, as a sequence of key/value entries.

Modules follow the source: `Common`, `Bounds`, `Platforms`, `PlayerStores`,
`LegacyPlayers`, `GameStores`, `TickProcessor`, `GameEventHandler`,
`EventProcessor`, `PlayerEventHandler`, `JavaServer`, `JsMaps`, `TsPlayers`,
`TsRepository`, `LegacyEventHandler`, `GameLoop`, `ClientBridge`.

Paths in the table below are relative to the repository root.

## Model

| member | source | states |
|---|---|---|
| Common.JavaRem | server/src/main/java/io/github/aggarcia/engine/TickProcessor.java:43 | Java's `%`: agrees with the mathematical remainder on non-negative dividends, stays strictly between -b and b, and is zero exactly when b divides a |
| Common.NatToDecimal | server/src/game/localGameRepository.ts:57-60 | decimal rendering of a counter: at least one character, all digits, two or more for values of 10 and up |
| Common.NatToDecimalInjective | server/src/game/localGameRepository.ts:57-60 | distinct counters render to distinct strings, which is what makes generated ids unique |
| Common.DecimalRoundTrip | server/src/game/localGameRepository.ts:57-60 | reading a rendered counter back as a decimal number gives the counter |
| Common.EqualsIgnoreCaseProperties | server/src/main/java/io/github/aggarcia/clients/EventProcessor.java:148-152 | the case-insensitive name comparison is an equivalence: reflexive, symmetric and transitive |
| Common.EqualsIgnoreCase | server/src/main/java/io/github/aggarcia/clients/EventProcessor.java:148-152 | two names compare equal ignoring case exactly when their lower-cased forms are the same string |
| Common.JavaDiv | server/src/main/java/io/github/aggarcia/models/PlayerStore.java:118 | Java's truncating `/`: the Euclidean quotient for non-negative dividends, and for negative ones the quotient rounded toward zero, so r * b lies in (a - b, a] or [a, a + b) |
| Bounds.Saturate | server/src/main/java/io/github/aggarcia/models/PlayerStore.java:149-196 | clamping into [lo, hi]: in range, identity inside, the nearest bound outside |
| Bounds.StepWithin | server/src/game/player.ts:33-43 | a rejecting step either takes the whole move or none, and takes it exactly when the moved box stays inside the limit |
| Bounds.StepWithinStaysInside | server/src/game/player.ts:37-42 | a rejecting step never takes an in-bounds box out of bounds |
| Bounds.StepWithinAtWall | server/src/game/player.ts:37-42 | against a wall with outward velocity the coordinate stays put |
| Platforms.GenerateAtHeight | server/src/main/java/io/github/aggarcia/models/GamePlatform.java:24-34 | fails with "Platform height out of bounds: h" exactly when h is outside [0, HEIGHT]; otherwise a platform at height h with width in [300, 600) lying fully inside the screen |
| Platforms.GenerateAtHeightCoversAll | server/src/main/java/io/github/aggarcia/models/GamePlatform.java:24-34 | every well-shaped platform at a legal height is produced by some draw |
| Platforms.CreateRandomPlatform | server/src/main/java/io/github/aggarcia/platforms/GamePlatform.java:24-29 | the older generator is generation at height 0 |
| Platforms.ToNextTick | server/src/main/java/io/github/aggarcia/engine/TickProcessor.java:52 | a platform falls by the gravity and keeps width and x |
| Platforms.ToNextTickFixed | server/src/main/java/io/github/aggarcia/models/GamePlatform.java:39-41 | the no-argument fall moves the platform down by PLATFORM_GRAVITY (5), width and x unchanged |
| Platforms.ToNextTickComposes | server/src/main/java/io/github/aggarcia/platforms/GamePlatform.java:34-36 | two falls add up; the fixed fall is the gravity-5 case of the parameterised one |
| Platforms.MoveAndCull | server/src/main/java/io/github/aggarcia/engine/TickProcessor.java:50-57 | every result is a fallen input at or above the ground, and every input whose fall stays at or above the ground is kept |
| Platforms.MoveAndCullKeepsOrder | server/src/main/java/io/github/aggarcia/engine/TickProcessor.java:50-57 | moving and culling distributes over concatenation, so survivors keep their list order |
| Platforms.MoveAndCullKeepsAllInBounds | server/src/main/java/io/github/aggarcia/game/GameEventHandler.java:49-55 | when nothing falls out, the result is the input fallen position by position |
| Platforms.InitHeightsCount | server/src/main/java/io/github/aggarcia/game/GameEventHandler.java:87-97 | the initial layout has 7 heights (0, 175, ..., 1050 below 1080) |
| Platforms.SpawnInitPlatforms | server/src/main/java/io/github/aggarcia/clients/EventProcessor.java:203-213 | seven well-shaped platforms at heights k * 175 in order, and every multiple of 175 below HEIGHT gets one |
| PlayerStores.CreateRandomPlayer | server/src/main/java/io/github/aggarcia/models/PlayerStore.java:72-98 | a still, unscored, changed player at a cell-aligned position with the box inside the screen horizontally and y in the top third of the playable height |
| PlayerStores.CreateRandomPlayerCoversSpawnBand | server/src/main/java/io/github/aggarcia/models/PlayerStore.java:81-85 | every cell-aligned position in the spawn band is a possible spawn |
| PlayerStores.CreateAbovePlatform | server/src/main/java/io/github/aggarcia/models/PlayerStore.java:107-131 | the player is centred on the platform (gaps differ by at most one, under truncating division) with 100 pixels between its bottom and the platform top |
| PlayerStores.ClampX | server/src/main/java/io/github/aggarcia/models/PlayerStore.java:153-166 | x moves by xVelocity and saturates at the walls, where xVelocity is zeroed; hasChanged rises iff x moved |
| PlayerStores.FallY | server/src/main/java/io/github/aggarcia/models/PlayerStore.java:168-182 | gravity is added, y moves and saturates to [floor, MAX_PLAYER_Y], a clamp zeroes yVelocity; hasChanged rises iff y moved |
| PlayerStores.TouchingMeansOverlap | server/src/main/java/io/github/aggarcia/models/PlayerStore.java:222-245 | for a platform of non-negative width, touching is: the platform top strictly inside the player's vertical extent and the horizontal extents overlapping |
| PlayerStores.PassingThroughIsCrossing | server/src/main/java/io/github/aggarcia/models/PlayerStore.java:204-214 | a player whose top passed from above a platform to below it while overlapping horizontally has crossed it |
| PlayerStores.CrossingMeansPassingTop | server/src/main/java/io/github/aggarcia/models/PlayerStore.java:204-214 | for a player that did not move up, crossing a platform is exactly: horizontal overlap, a real move, and the platform top between the old and the new top |
| PlayerStores.Fallen | server/src/main/java/io/github/aggarcia/models/PlayerStore.java:153-182 | the position before collision correction: x saturated into the screen and y the clamped fall target, within [MIN_PLAYER_Y, MAX_PLAYER_Y] |
| PlayerStores.LandAll | server/src/main/java/io/github/aggarcia/models/PlayerStore.java:184-194 | collision correction changes only y and yVelocity; if the player collides (falling and touching or crossing) with any platform it ends on top of one of them with the platform gravity, and if it collides with none it is unchanged |
| PlayerStores.MoveToNextTick | server/src/main/java/io/github/aggarcia/models/PlayerStore.java:149-196 | x saturated into the screen; score, name, colour kept; hasChanged raised when x moved or the clamped fall target differs from the old y (even if a landing then puts the player back at that y); a player whose fallen position collides with some platform lands on one with the platform gravity, and one that collides with none ends at the clamped fall |
| PlayerStores.MoveToNextTickAlone | server/src/main/java/io/github/aggarcia/models/PlayerStore.java:136-138 | without platforms the step is the clamped fall, staying within [MIN_PLAYER_Y, MAX_PLAYER_Y] |
| PlayerStores.HasChangedOnlyOnMovement | server/src/main/java/io/github/aggarcia/models/PlayerStore.java:149-196 | the step never lowers hasChanged, and an in-bounds still player whose velocity cancels gravity keeps it lowered whatever the platforms |
| PlayerStores.LandingOnOnePlatform | server/src/main/java/io/github/aggarcia/models/PlayerStore.java:184-194 | a falling player touching or crossing the one platform is put on its top with the platform gravity, x unaffected |
| PlayerStores.RestingOnFloorIsFixpoint | server/src/main/java/io/github/aggarcia/models/PlayerStore.java:149-196 | a still player on the floor stays exactly as it is |
| PlayerStores.LandingNeedsFalling | server/src/main/java/io/github/aggarcia/models/PlayerStore.java:190 | without downward velocity nothing lands |
| PlayerStores.AddToScore | server/src/main/java/io/github/aggarcia/models/PlayerStore.java:251-254 | the score grows by exactly the points, nothing else changes |
| PlayerStores.AddToScoreAccumulates | server/src/main/java/io/github/aggarcia/models/PlayerStore.java:251-254 | successive additions add up |
| PlayerStores.Clone | server/src/main/java/io/github/aggarcia/models/PlayerStore.java:256-266 | the copy has every field of the original except xVelocity, which the builder leaves at 0 |
| PlayerStores.CloneIsFaithfulIffNoXVelocity | server/src/main/java/io/github/aggarcia/models/PlayerStore.java:256-266 | a clone equals its original exactly when xVelocity is 0; cloning is idempotent |
| PlayerStores.LandsOnPlatformExample | server/src/test/java/io/github/aggarcia/models/PlayerStoreTest.java:241-253 | the unit tests' collision: a player at (200, 200) just above a platform ends on it with y velocity equal to the platform gravity and hasChanged set |
| LegacyPlayers.CreateRandomPlayer | server/src/main/java/io/github/aggarcia/players/Player.java:59-85 | a still, unscored, changed player at a cell-aligned position anywhere in the arena |
| LegacyPlayers.CreateRandomPlayerCoversCells | server/src/main/java/io/github/aggarcia/players/Player.java:59-85 | every cell-aligned in-arena position is a possible spawn |
| LegacyPlayers.LandAllTouching | server/src/main/java/io/github/aggarcia/players/Player.java:142-148 | only y and yVelocity change; a player touching some platform while falling ends on top of one of them with velocity PLATFORM_GRAVITY, and one touching none is unchanged |
| LegacyPlayers.MoveToNextTick | server/src/main/java/io/github/aggarcia/players/Player.java:102-150 | the first generation's step: x saturated, score and identity kept; a fallen player touching some platform while falling lands on one with PLATFORM_GRAVITY, otherwise y is the fall clamped to [0, MAX_PLAYER_Y] |
| LegacyPlayers.Fallen | server/src/main/java/io/github/aggarcia/players/Player.java:112-140 | the position before collision correction: x saturated into the screen and y the fall clamped to [0, MAX_PLAYER_Y] |
| LegacyPlayers.LandingOnOnePlatform | server/src/main/java/io/github/aggarcia/players/Player.java:142-148 | with one platform, a falling player touching it stands on it with PLATFORM_GRAVITY, otherwise only the fall applies |
| LegacyPlayers.GenerationsDifferOnlyInFloor | server/src/main/java/io/github/aggarcia/players/Player.java:102-150 | away from platforms the two generations agree unless the fall goes above y = 0, where the first stops at 0 |
| LegacyPlayers.ToPlayerState | server/src/main/java/io/github/aggarcia/players/Player.java:197-205 | the public record carries name, colour, score and position |
| LegacyPlayers.ToPlayerStateIgnoresVelocity | server/src/main/java/io/github/aggarcia/players/Player.java:197-217 | cloning does not change what clients see |
| LegacyPlayers.RestingOnFloorIsFixpoint | server/src/main/java/io/github/aggarcia/players/Player.java:102-150 | a still player on the floor stays where it is |
| LegacyPlayers.NoLandingWithoutFalling | server/src/main/java/io/github/aggarcia/players/Player.java:144 | without downward velocity nothing lands |
| GameStores.OnStartEvent | server/src/main/java/io/github/aggarcia/models/GameStore.java:86-88 | subscribing replaces the callback and runs nothing |
| GameStores.TriggerStartEvent | server/src/main/java/io/github/aggarcia/models/GameStore.java:76-78 | triggering runs the subscribed callback once, the default one being a no-op |
| GameStores.LatestSubscriptionWins | server/src/main/java/io/github/aggarcia/game/GameStore.java:59-71 | only the latest subscription runs on a trigger |
| GameStores.NewGameStore | server/src/main/java/io/github/aggarcia/models/GameStore.java:44-71 | the builder defaults: empty, age 0, tick 0, gravity 7, no-op start action |
| GameStores.NewGameStoreIsValid | server/src/main/java/io/github/aggarcia/models/GameStore.java:57-63 | a fresh store satisfies the clock invariant |
| GameStores.NewLegacyGameStore | server/src/main/java/io/github/aggarcia/game/GameStore.java:33-54 | the first generation's defaults |
| TickProcessor.AddOneSecond | server/src/main/java/io/github/aggarcia/engine/TickProcessor.java:85-93 | the age grows by one, and the gravity rises by 2 exactly when the new age is a multiple of 15 |
| TickProcessor.AdvanceClock | server/src/main/java/io/github/aggarcia/engine/TickProcessor.java:43-47 | the tick counter advances modulo 50, and a second is added exactly when it wraps to 0 |
| TickProcessor.AdvanceClockKeepsValid | server/src/main/java/io/github/aggarcia/engine/TickProcessor.java:43-47 | a tick keeps the clock invariant (counter in range, gravity = 7 + 2 * (age / 15)) |
| TickProcessor.ClockAfterTicks | server/src/main/java/io/github/aggarcia/engine/TickProcessor.java:43-47 | after n ticks from a fresh store the counter is n mod 50, the age n / 50 and the gravity 7 + 2 * (n / 50 / 15) |
| TickProcessor.TickPlayer | server/src/main/java/io/github/aggarcia/engine/TickProcessor.java:60-75 | a ticked player is the platformer step with hasChanged cleared, differing only in score: 5 more exactly on a new second while above the ground; on the ground exactly at MAX_PLAYER_Y |
| TickProcessor.AdvanceToNextTick | server/src/main/java/io/github/aggarcia/engine/TickProcessor.java:41-79 | the update is always needed; every kept player is exactly its `TickPlayer` step; the clock advances; platforms fall and are culled with the new gravity; every player keeps its key, has hasChanged cleared and x saturated into the screen, and gains 5 points exactly on a new second unless removed; the removal set is exactly the players now on the ground |
| TickProcessor.AdvanceToNextTickKeepsValid | server/src/main/java/io/github/aggarcia/engine/TickProcessor.java:41-79 | a tick keeps the clock invariant and leaves the stored platforms to the caller |
| TickProcessor.CreateGamePing | server/src/main/java/io/github/aggarcia/engine/TickProcessor.java:100-130 | the ping carries the age, as many players as the map holds, every player of the map and nothing else, and the platforms in order |
| TickProcessor.ToPingPlayer | server/src/main/java/io/github/aggarcia/engine/TickProcessor.java:103-110 | a player's ping entry carries its colour, name, score and position |
| TickProcessor.PingIgnoresOnlyMotionState | server/src/main/java/io/github/aggarcia/engine/TickProcessor.java:103-110 | two players have the same ping entry exactly when they agree on everything except the velocities and the change flag |
| TickProcessor.SmallestY | server/src/main/java/io/github/aggarcia/engine/TickProcessor.java:160-163 | the minimum platform y, or 0 for no platforms |
| TickProcessor.ShouldSpawnPlatform | server/src/main/java/io/github/aggarcia/engine/TickProcessor.java:157-173 | never when some platform is within 100 of the top or there are none, always when all are more than 350 below it, otherwise exactly when the draw is a multiple of 25 |
| GameEventHandler.Survivors | server/src/main/java/io/github/aggarcia/game/GameEventHandler.java:57-73 | the survivors are exactly the stepped players still above the ground |
| GameEventHandler.SurvivorsKeepOrder | server/src/main/java/io/github/aggarcia/game/GameEventHandler.java:57-73 | survivors keep their collection order |
| GameEventHandler.AdvanceToNextTick | server/src/main/java/io/github/aggarcia/game/GameEventHandler.java:35-80 | the counter advances modulo 50, platforms fall by 5 and are culled, and the remaining players are the survivors |
| GameEventHandler.SurvivorScore | server/src/main/java/io/github/aggarcia/game/GameEventHandler.java:70-72 | a survivor's score rises by 5 exactly on a second boundary |
| GameEventHandler.Step | server/src/main/java/io/github/aggarcia/game/GameEventHandler.java:57-73 | a stepped player is the first generation's step with hasChanged cleared, scored 5 more exactly on a second boundary while above the ground |
| EventProcessor.NewXVelocity | server/src/main/java/io/github/aggarcia/clients/EventProcessor.java:100-105 | right wins over left at speed 20; neither means 0 |
| EventProcessor.NewYVelocity | server/src/main/java/io/github/aggarcia/clients/EventProcessor.java:107-117 | up jumps at -40 when the velocity is in [0, 10); releasing up stops upward motion; otherwise the velocity is kept |
| EventProcessor.ProcessControlChange | server/src/main/java/io/github/aggarcia/clients/EventProcessor.java:77-119 | an error exactly for a client without a player, otherwise the velocity update of its pressed controls |
| EventProcessor.ControlOrderIrrelevant | server/src/main/java/io/github/aggarcia/clients/EventProcessor.java:98-105 | only the set of pressed controls matters |
| EventProcessor.ChoosePlatform | server/src/main/java/io/github/aggarcia/clients/EventProcessor.java:177-196 | keeps the first platform if it leaves no spawn room, otherwise the highest platform that leaves room, the earliest on a tie |
| EventProcessor.ProcessJoin | server/src/main/java/io/github/aggarcia/clients/EventProcessor.java:130-169 | an error exactly when the join is not allowed, and then the first failing check's message: blank, too long, player limit, client already playing, username already in use; the first player gets the layout and spawns above the chosen platform |
| EventProcessor.CanJoin | server/src/main/java/io/github/aggarcia/clients/EventProcessor.java:132-156 | a join is allowed exactly for a name of 1 to 25 characters, fewer than 15 players, a new client and no player whose name lower-cases to the same |
| EventProcessor.NameTaken | server/src/main/java/io/github/aggarcia/clients/EventProcessor.java:148-152 | a name is taken exactly when some player's name lower-cases to the same string |
| EventProcessor.JoinSpawnsAboveChosenPlatform | server/src/main/java/io/github/aggarcia/clients/EventProcessor.java:159-168 | an accepted player is created above the platform chosen from the layout it joins |
| EventProcessor.ProcessEvent | server/src/main/java/io/github/aggarcia/clients/EventProcessor.java:45-65 | dispatch on the payload case, with an error for unsupported cases |
| EventProcessor.Reply | server/src/main/java/io/github/aggarcia/clients/updates/ErrorUpdate.java:31-33 | only error updates answer the client |
| EventProcessor.ApplyTo | server/src/main/java/io/github/aggarcia/clients/updates/UpdateVelocity.java:18-28 | a velocity update for an unknown client fails with "no player for id: "; creations insert; the first creation also installs the platforms and triggers the start event |
| EventProcessor.ProcessedUpdatesApply | server/src/main/java/io/github/aggarcia/clients/EventProcessor.java:45-65 | every update the processor produces applies without failure to its store |
| EventProcessor.ProcessEventKeepsJoinInvariant | server/src/main/java/io/github/aggarcia/clients/EventProcessor.java:130-169 | at most 15 players with names distinct ignoring case, kept by every processed event |
| EventProcessor.AddingJoinedPlayerKeepsInvariant | server/src/main/java/io/github/aggarcia/clients/updates/CreatePlayer.java:21-23 | inserting an accepted player keeps the join invariant |
| EventProcessor.CreatePlayerIdempotent | server/src/main/java/io/github/aggarcia/clients/updates/CreatePlayer.java:21-23 | applying a creation twice equals applying it once |
| EventProcessor.CreateFirstPlayerStartsOnce | server/src/main/java/io/github/aggarcia/clients/updates/CreateFirstPlayer.java:16-20 | the first player's creation runs the subscribed start action exactly once |
| PlayerEventHandler.ProcessControlChange | server/src/main/java/io/github/aggarcia/players/PlayerEventHandler.java:69-111 | an error exactly for a client without a player, else the shared velocity rule |
| PlayerEventHandler.JoinError | server/src/main/java/io/github/aggarcia/players/PlayerEventHandler.java:122-148 | no error exactly when the join is allowed; otherwise the first failing check's message: blank, too long, player limit, client already playing, username already in use |
| PlayerEventHandler.ProcessJoinAsWritten | server/src/main/java/io/github/aggarcia/players/PlayerEventHandler.java:150-152 | an accepted join's update carries isError = (the map is empty) |
| PlayerEventHandler.ProcessJoin | server/src/main/java/io/github/aggarcia/players/PlayerEventHandler.java:122-153 | corrected: an accepted join is never flagged and carries the platformer's random player spawned in the top third |
| PlayerEventHandler.ProcessEvent | server/src/main/java/io/github/aggarcia/players/PlayerEventHandler.java:37-57 | dispatch on the payload case, with the corrected join |
| PlayerEventHandler.ProcessEventAsWritten | server/src/main/java/io/github/aggarcia/players/PlayerEventHandler.java:37-57 | dispatch on the payload case as written, joins through the flagged join |
| PlayerEventHandler.AsWrittenDiffersOnlyInFirstJoinFlag | server/src/main/java/io/github/aggarcia/players/PlayerEventHandler.java:37-57 | the dispatcher as written and the corrected one agree on every event except the error flag of an accepted join into an empty map |
| PlayerEventHandler.ApplyTo | server/src/main/java/io/github/aggarcia/players/updates/UpdateVelocity.java:12-21 | a velocity update for an unknown client fails with "session not in state: "; otherwise only that client's velocities change, keys and every other player kept; a creation inserts unless flagged; errors change nothing |
| PlayerEventHandler.FirstJoinIsDropped | server/src/main/java/io/github/aggarcia/players/PlayerEventHandler.java:150-152 | as written, the first join on an empty map inserts nothing |
| PlayerEventHandler.FirstJoinIsDroppedExample | server/src/test/java/io/github/aggarcia/players/PlayerEventHandlerTest.java:57-61 | the unit test's join ("client1" as "testName") is flagged and lost |
| PlayerEventHandler.JoinInsertsPlayer | server/src/main/java/io/github/aggarcia/players/updates/CreatePlayer.java:16-20 | corrected, an accepted join inserts the player under its client and keeps everyone else |
| PlayerEventHandler.ProcessEventKeepsJoinInvariant | server/src/main/java/io/github/aggarcia/players/PlayerEventHandler.java:37-57 | every processed event keeps the join invariant |
| PlayerEventHandler.ApplyCreateFirstPlayer | server/src/main/java/io/github/aggarcia/players/updates/CreateFirstPlayer.java:16-20 | inserts the player, installs the platforms, triggers the start event |
| JavaServer.CreateRandomPlayer | java-server/src/main/java/com/example/game/players/Player.java:40-53 | as written: a still player whose corner is anywhere in the 800 x 500 arena |
| JavaServer.CreateRandomPlayerInside | java-server/src/main/java/com/example/game/players/Player.java:40-53 | corrected: the whole box lies inside the arena |
| JavaServer.CreateRandomPlayerInsideCoversArena | java-server/src/main/java/com/example/game/players/Player.java:40-53 | every in-arena position is a corrected spawn |
| JavaServer.MoveToNextTick | java-server/src/main/java/com/example/game/players/Player.java:59-69 | each axis takes its step only if the box stays in the arena; inside stays inside |
| JavaServer.SpawnAtEdgeIsStuck | java-server/src/main/java/com/example/game/players/Player.java:49-50 | a spawn the as-written generator allows (x = 795) sticks out and can never move horizontally |
| JavaServer.CorrectedSpawnStaysInside | java-server/src/main/java/com/example/game/players/Player.java:59-69 | corrected spawns stay inside whatever the velocities |
| JavaServer.ComputeVelocity | java-server/src/main/java/com/example/game/sessions/MessageHandler.java:46-71 | right wins over left and down over up, at speed 10; neither means 0 |
| JavaServer.AdvanceToNextTick | java-server/src/main/java/com/example/game/sessions/MessageHandler.java:78-95 | moving players move, still ones are untouched, the counter advances modulo 50, and an update is needed on a wrap or when someone moves |
| JavaServer.SkippingStillPlayersIsSound | java-server/src/main/java/com/example/game/sessions/MessageHandler.java:86-92 | skipping still players agrees with moving everyone |
| JavaServer.ToPlayerState | java-server/src/main/java/com/example/game/players/Player.java:75-82 | the public record carries colour, position and age |
| JavaServer.StillPlayerStateUnchanged | java-server/src/main/java/com/example/game/players/Player.java:59-82 | a still player looks the same after a tick |
| JsMaps.Get | server/src/game/localGameRepository.ts:46 | absent exactly for a missing key; a found value is stored under the key |
| JsMaps.GetDistinct | server/src/game/localGameRepository.ts:46 | with distinct keys each entry is what a lookup of its key returns |
| JsMaps.Put | server/src/game/localGameRepository.ts:34 | `set` adds the key; a new key is appended, a present one is replaced in place, other entries unchanged |
| JsMaps.Delete | server/src/game/localGameRepository.ts:38 | `delete` removes exactly the entries of the key |
| JsMaps.Values | server/src/game/localGameRepository.ts:44 | the values in insertion order |
| JsMaps.GetAfterPut | server/src/game/localGameRepository.ts:34-46 | a lookup after `set` finds the new value under its key and the old lookups elsewhere |
| JsMaps.DeleteAfterPut | server/src/game/localGameRepository.ts:34-38 | deleting a just-added key restores the map |
| JsMaps.DeleteAbsent | server/src/game/localGameRepository.ts:38 | deleting an absent key changes nothing |
| JsMaps.PutKeepsDistinct | server/src/game/localGameRepository.ts:34 | `set` keeps keys distinct |
| JsMaps.DeleteKeepsDistinct | server/src/game/localGameRepository.ts:38 | `delete` keeps keys distinct |
| JsMaps.GetAfterUpdate | legacy-ts-server/src/clients/eventHandler.ts:47-51 | a mutation through the object `get` returns shows in lookups of that key only |
| JsMaps.UpdateKeepsKeys | legacy-ts-server/src/clients/eventHandler.ts:47-51 | such a mutation keeps the keys |
| TsPlayers.MovePlayer | server/src/game/player.ts:33-43 | each axis takes its step only if the box stays in the arena; inside stays inside |
| TsPlayers.Dedup | server/src/game/player.ts:54 | a JavaScript `Set` of the controls: the same members, each once, in first-occurrence order |
| TsPlayers.ApplyControls | server/src/game/player.ts:58-71 | each axis is 0 exactly when none of its controls occurs, and otherwise the speed of one that does |
| TsPlayers.GetPlayerVelocity | server/src/game/player.ts:52-73 | without conflicting controls each axis moves at speed 10 in the pressed direction or not at all |
| TsPlayers.DuplicatesIgnored | server/src/game/player.ts:49-54 | repeating a pressed control changes nothing |
| TsPlayers.ConflictFollowsFirstOccurrence | server/src/game/player.ts:54-73 | for every list holding both opposite controls of an axis, that axis moves toward the control whose first press comes later |
| TsPlayers.HorizontalConflict | server/src/game/player.ts:58-65 | with both Right and Left pressed, the x velocity points toward the one whose first press comes later |
| TsPlayers.VerticalConflict | server/src/game/player.ts:58-71 | with both Down and Up pressed, the y velocity points toward the one whose first press comes later |
| TsPlayers.ConflictExamples | server/src/game/player.ts:54-73 | the rule on three concrete lists, repeats included |
| TsPlayers.PlayerToPlayerState | server/src/game/player.ts:80-87 | the public state carries colour, position and age |
| TsPlayers.StateIgnoresVelocity | server/src/game/player.ts:75-87 | velocity is invisible to clients |
| TsRepository.NewRepo | server/src/game/localGameRepository.ts:15-17 | empty, age 0, not running |
| TsRepository.CreatePlayer | server/src/game/localGameRepository.ts:19-36 | the counter always advances; fails with "Id already exists: " exactly for a client with a player; otherwise appends a still, age-0 player with the counter's id at a cell-aligned position inside the drawing range |
| TsRepository.SpawnInsideWhenArenaDivides | server/src/game/localGameRepository.ts:27-30 | when the arena is a whole number of player sizes every spawn lies fully inside |
| TsRepository.IdsAreUnique | server/src/game/localGameRepository.ts:57-60 | distinct counter values give distinct player ids |
| TsRepository.DeletePlayer | server/src/game/localGameRepository.ts:38 | reports whether the client had a player and removes exactly its entry |
| TsRepository.CreateThenDelete | server/src/game/localGameRepository.ts:19-38 | creating and deleting a player gives back the repository |
| TsRepository.DeleteAbsentPlayer | server/src/game/localGameRepository.ts:38 | deleting a client without a player reports false and changes nothing |
| TsRepository.CreateKeepsValid | server/src/game/localGameRepository.ts:19-36 | each client keeps at most one player |
| TsRepository.DeleteKeepsValid | server/src/game/localGameRepository.ts:38 | deleting keeps clients distinct |
| TsRepository.GetPlayer | server/src/game/localGameRepository.ts:46 | the client's player, or nothing exactly when it has none |
| TsRepository.CreateThenGet | server/src/game/localGameRepository.ts:19-46 | a created player is found under its client, other lookups unchanged |
| TsRepository.GetAllPlayers | server/src/game/localGameRepository.ts:44 | the players in insertion order |
| TsRepository.GetAllPlayersState | server/src/game/localGameRepository.ts:40-42 | the public state of each player, in insertion order |
| TsRepository.CountsFollowCreateAndDelete | server/src/game/localGameRepository.ts:48 | the count rises by one on a creation and falls by one on a reported deletion |
| TsRepository.PlayerCount | server/src/game/localGameRepository.ts:48 | the number of stored players |
| TsRepository.PlayerCountIsClientCount | server/src/game/localGameRepository.ts:48 | in a valid repository the count is the number of distinct clients: one player per client |
| JsMaps.DistinctKeysCount | server/src/game/localGameRepository.ts:48 | a map with distinct keys has exactly one entry per key, so `size` counts keys |
| TsRepository.GetUpdate | server/src/game/localGameRepository.ts:50-54 | a game update with the age and every player's state |
| TsRepository.SetVelocity | legacy-ts-server/src/clients/eventHandler.ts:51 | only the client's player gets the velocity; everything else is unchanged |
| TsRepository.MoveAll | legacy-ts-server/src/game/gameLoop.ts:56-58 | every player moves once, order and clients unchanged |
| LegacyEventHandler.PlayerUpdateResponse | legacy-ts-server/src/clients/eventHandler.ts:39-53 | "Game is not running" when stopped, "Client '...' has no associated player" for a client without one, otherwise the velocity is set and the update returned |
| LegacyEventHandler.HandleClientMessage | legacy-ts-server/src/clients/eventHandler.ts:7-24 | parse errors and unknown types give server errors and change nothing; "playerControlUpdate" goes to the update response |
| LegacyEventHandler.HandleClientDisconnect | legacy-ts-server/src/clients/eventHandler.ts:26-37 | the client's player is removed, the game stops exactly when none is left, and the update is returned |
| LegacyEventHandler.SetVelocityKeepsUpdate | legacy-ts-server/src/clients/eventHandler.ts:51-52 | the returned update is the same as before the control change |
| LegacyEventHandler.ControlUpdateSetsOnlyVelocity | legacy-ts-server/src/clients/eventHandler.ts:39-53 | a control update reaches exactly the sender's player and changes nothing the update shows |
| LegacyEventHandler.JoinThenDisconnect | legacy-ts-server/src/clients/eventHandler.ts:26-37 | a client who joins a populated game and disconnects leaves the repository as it was |
| LegacyEventHandler.DisconnectStopsGameIffLast | legacy-ts-server/src/clients/eventHandler.ts:33-35 | a running game stops on a disconnect exactly when the leaver was the last client with a player |
| GameLoop.Period | legacy-ts-server/src/game/gameLoop.ts:8 | ticks per game second, 1000 / delay rounded up, at least 1 |
| GameLoop.ReachesSecondIff | legacy-ts-server/src/game/gameLoop.ts:8 | comparing with the fractional TICKS_PER_SECOND is comparing count * delay with 1000 |
| GameLoop.ReachesSecondAtPeriod | legacy-ts-server/src/game/gameLoop.ts:32-33 | a count reaches a second exactly from the period on |
| GameLoop.PeriodWhenDelayDivides | legacy-ts-server/src/game/gameLoop.ts:8 | for a delay dividing 1000 the period is 1000 / delay |
| GameLoop.NextGameTick | legacy-ts-server/src/game/gameLoop.ts:52-60 | the age rises exactly when the next count reaches a second, every player moves, an update is always needed |
| GameLoop.MoveTimes | legacy-ts-server/src/game/gameLoop.ts:56-58 | repeated movement keeps age, running flag and clients |
| GameLoop.MoveTimesKeepsInside | legacy-ts-server/src/game/gameLoop.ts:56-58 | players inside the arena stay inside for any number of ticks |
| GameLoop.StateAfter | legacy-ts-server/src/game/gameLoop.ts:21-36 | after n ticks the game runs with age n / period |
| GameLoop.BelowLimit | legacy-ts-server/src/game/gameLoop.ts:26 | the age is below the limit exactly while fewer than limit periods of ticks have run |
| GameLoop.LoopStep | legacy-ts-server/src/game/gameLoop.ts:27-34 | one loop pass leads from the state after n ticks to the state after n + 1, resetting the counter exactly on a second |
| GameLoop.RunGameLoop | legacy-ts-server/src/game/gameLoop.ts:18-43 | exactly limit * period ticks, each followed by the update of that moment, then the game stops at age = limit and "Time Limit Reached" is broadcast |
| ClientBridge.PadStart3 | legacy-ts-server/src/clients/clientBridge.ts:5 | `padStart(3, "0")`: zeros in front of the string up to length 3 |
| ClientBridge.InstanceId | legacy-ts-server/src/clients/clientBridge.ts:5 | three decimal digits |
| ClientBridge.InstanceIdRoundTrip | legacy-ts-server/src/clients/clientBridge.ts:5 | the instance id reads back as the draw |
| ClientBridge.ClientIdsDiffer | legacy-ts-server/src/clients/clientBridge.ts:74-79 | ids from different counter values differ |
| ClientBridge.ClientId | legacy-ts-server/src/clients/clientBridge.ts:74-79 | an id is the instance id, a colon, then decimal digits that read back as the counter |
| ClientBridge.NewBridge | legacy-ts-server/src/clients/clientBridge.ts:5-9 | an empty bridge with counter 0 is valid |
| ClientBridge.Size | legacy-ts-server/src/clients/clientBridge.ts:46 | the number of stored sockets |
| ClientBridge.AddClient | legacy-ts-server/src/clients/clientBridge.ts:48-52 | stores the socket under `<instance>:<counter>`, returns that id and advances the counter |
| ClientBridge.AddClientIsFresh | legacy-ts-server/src/clients/clientBridge.ts:48-52 | in a valid bridge the new id is fresh, so the socket is appended, the size grows by one and validity is kept |
| ClientBridge.RemoveClient | legacy-ts-server/src/clients/clientBridge.ts:54 | reports whether the id was present and removes it |
| ClientBridge.RemoveKeepsValid | legacy-ts-server/src/clients/clientBridge.ts:54 | removing keeps the bridge valid |
| ClientBridge.AddThenRemove | legacy-ts-server/src/clients/clientBridge.ts:48-54 | adding and removing a client leaves only the advanced counter |
| ClientBridge.Send | legacy-ts-server/src/clients/clientBridge.ts:62-68 | fails with "Client ... doesn't exist" exactly for an unknown id, otherwise delivers to that client's socket |
| ClientBridge.SendReachesAddedClient | legacy-ts-server/src/clients/clientBridge.ts:48-68 | a message to a just-added client reaches its socket, and fails once the client is removed |
| ClientBridge.Broadcast | legacy-ts-server/src/clients/clientBridge.ts:56-60 | one delivery per stored socket in insertion order, each what `send` to that client does |

## Left out

- Integer overflow: Java `int` and JavaScript numbers are unbounded here;
  no value in normal play comes near the limits.
- Concurrency: `synchronized` blocks, the game-loop threads and the async
  sleep of the legacy loop. Every operation is modelled as atomic. So
  `GameLoop.RunGameLoop` ends only at the time limit, never because a
  disconnect stopped the game during a sleep.
- Serialization: protobuf and JSON encoding and decoding, the socket
  messages and `Serializer`. Client events arrive already decoded, and
  outgoing messages are datatypes or text.
- Logging (`System.out`, `console`), the idle-timeout shutdown and the
  HTTP/WebSocket wiring (`ClientHandler`, `ConnectionHandler`, `App`,
  `app.ts`).
- `models/GameStore`'s `unprocessedLosers` queue and `instanceId`. They
  are used only by the client handler.
- `GameLoop` classes of the Java servers: they schedule ticks and
  broadcast; the tick logic they call is modelled.
- The TypeScript constants file (arena and player sizes, tick delay,
  time limit) and the legacy server's own `player.ts` are not part of
  this model. The sizes are the parameter `Arena` and the TypeScript
  server's `player.ts` stands in for the legacy one, which the handlers
  import under the same names.
- Common.EqualsIgnoreCase: `equalsIgnoreCase` is modelled on ASCII
  letters only, and name length is counted in characters, not UTF-16
  units. Common.EqualsIgnoreCaseProperties is stated on that model.
- The first generation's `players/PlayerStore` is not part of this model.
  Its join calls `PlayerStore.createRandomPlayer(name)` from that package.
  PlayerEventHandler.ProcessJoin uses the current generation's
  `PlayerStores.CreateRandomPlayer` instead: it has the same name and
  signature and spawns in the top third of the screen. The first
  generation's own `Player.createRandomPlayer` is modelled separately
  (`LegacyPlayers.CreateRandomPlayer`).
- `randomHexColor` can produce fewer than six hex digits because it does
  not pad. Colours in the TypeScript model are arbitrary strings.
- java-server `Player.clone` copies every field, so it is the identity on
  the immutable model. Only the Java platformer's clone, which drops
  xVelocity, is modelled (`PlayerStores.Clone`).
- The first generation's `GameEventHandler.spawnInitPlatforms` calls
  `generateAtHeight`, which that generation's `platforms/GamePlatform` does
  not define. The layout is modelled once, by `Platforms.SpawnInitPlatforms`
  on the current platform record, and its spawn decision once, by
  `TickProcessor.ShouldSpawnPlatform`; the two Java copies are identical.
- The first generation's player class has the same fields as
  `PlayerStore`, so `LegacyPlayers` reuses the `PlayerStore` datatype.
- TickProcessor.TickPlayer: clearing `hasChanged` only when set is the
  same as always clearing it, and the model always clears it.
- TickProcessor.CreateGamePing: the order of players in a ping is the
  hash-map order, taken as a parameter. The contract states that each
  player appears, not the order.

## Findings

| source | as written | input that shows it | evidently intended | confidence | as-written member | corrected member |
|---|---|---|---|---|---|---|
| server/src/main/java/io/github/aggarcia/players/PlayerEventHandler.java:150-152 | an accepted join builds `CreatePlayer(isFirstPlayer, ...)`, and the first argument is the update's error flag, so the join into an empty map is flagged as an error and `applyTo` inserts nothing; the map stays empty and every later join is again "first" | client "client1" joins as "testName" into an empty map: the update has isError = true and the map stays empty (the handler's unit test expects isError = false) | an accepted join is never an error; the first player is inserted | high (not executed) | PlayerEventHandler.ProcessJoinAsWritten, PlayerEventHandler.FirstJoinIsDropped, PlayerEventHandler.FirstJoinIsDroppedExample | PlayerEventHandler.ProcessJoin, PlayerEventHandler.JoinInsertsPlayer |
| java-server/src/main/java/com/example/game/players/Player.java:49-50 | the spawn corner is drawn with `nextInt(WIDTH)` and `nextInt(HEIGHT)`, so a 20 x 20 player can stick out of the right or bottom edge | x = 795: the box reaches 815 in an 800-wide arena, and every horizontal step is rejected, so the player can never move sideways | draw from `nextInt(WIDTH - PLAYER_WIDTH + 1)` and `nextInt(HEIGHT - PLAYER_HEIGHT + 1)` so the box starts inside | medium (not executed) | JavaServer.CreateRandomPlayer, JavaServer.SpawnAtEdgeIsStuck | JavaServer.CreateRandomPlayerInside, JavaServer.CorrectedSpawnStaysInside |
