/** The records the registration command reads: game servers and their two
    lifecycle states, players, and the live roster a started server reports. */
module Model {
  import opened Results

  /** A chat-platform user id. */
  type UserId = nat

  /** A Dominions nation id, as used both by the static catalogue and by a live game. */
  type NationId = nat

  /** The game era a lobby is set to; it decides which catalogue nations are on offer. */
  datatype Era = Early | Middle | Late

  /** A lobby waiting for players: its owner, its capacity and its era. */
  datatype LobbyState = LobbyState(owner: UserId, playerCount: int, era: Era)

  /** A running game: where the game server listens and the last turn seen. */
  datatype StartedState = StartedState(address: string, lastSeenTurn: int)

  /** Exactly one lifecycle state per server. A started server may still carry
      the lobby it came from, which registration ignores. */
  datatype GameServerState =
    | Lobby(lobby: LobbyState)
    | Started(started: StartedState, formerLobby: Option<LobbyState>)

  /** A game server as stored, identified by its alias. */
  datatype GameServer = GameServer(alias: string, state: GameServerState)

  /** A registered player; `turnNotifications` is on for every new player. */
  datatype Player = Player(discordUserId: UserId, turnNotifications: bool)

  /** One nation of a running game's roster. The roster has no era. */
  datatype RosterNation = RosterNation(id: NationId, name: string)

  /** What a running game server reports: its roster and its current turn,
      which is -1 before the game has begun. */
  datatype GameData = GameData(nations: seq<RosterNation>, turn: int)

  /** The turn value a game server reports while pretenders are still being uploaded. */
  const NotStartedTurn: int := -1
}
