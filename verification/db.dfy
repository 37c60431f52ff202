/** The persistent store, reduced to what registration touches: servers by
    alias, the players table and the server/player/nation table, with the
    schema's two uniqueness rules. */
module Db {
  import opened Results
  import opened Model

  /** One `server_players` row: the server's alias, the player, the nation claimed. */
  datatype ServerPlayer = ServerPlayer(serverAlias: string, userId: UserId, nationId: NationId)

  /** The store's refusals. */
  datatype DbError =
    | NoServerForAlias(alias: string)
    | DuplicatePlayer(userId: UserId)
    | DuplicateServerNation(alias: string, nationId: NationId)

  /** Server states keyed by their (unique) alias, and the two row sets. */
  datatype Store = Store(
    servers: map<string, GameServerState>,
    players: set<Player>,
    serverPlayers: set<ServerPlayer>)

  /** `discord_user_id` is UNIQUE on `players`. */
  ghost predicate PlayerIdsUnique(players: set<Player>) {
    forall p, q :: p in players && q in players && p.discordUserId == q.discordUserId ==> p == q
  }

  /** `(server_id, nation_id)` is UNIQUE on `server_players`. */
  ghost predicate ServerNationsUnique(rows: set<ServerPlayer>) {
    forall a, b :: a in rows && b in rows && a.serverAlias == b.serverAlias && a.nationId == b.nationId ==> a == b
  }

  /** The store's row-level integrity. */
  ghost predicate Valid(st: Store) {
    PlayerIdsUnique(st.players) && ServerNationsUnique(st.serverPlayers)
  }

  /** Some player row carries this user id. */
  predicate HasPlayer(st: Store, user: UserId) {
    exists p :: p in st.players && p.discordUserId == user
  }

  /** Some row of this server already claims this nation. */
  predicate NationTaken(st: Store, alias: string, nation: NationId) {
    exists sp :: sp in st.serverPlayers && sp.serverAlias == alias && sp.nationId == nation
  }

  /** Looks a server up by its alias. */
  function GameForAlias(st: Store, alias: string): (r: Result<GameServer, DbError>)
    ensures r.Ok? <==> alias in st.servers
    ensures r.Ok? ==> r.value.alias == alias && r.value.state == st.servers[alias]
    ensures r.Err? ==> r.error == NoServerForAlias(alias)
  {
    if alias in st.servers then Ok(GameServer(alias, st.servers[alias])) else Err(NoServerForAlias(alias))
  }

  /** The rows of one server: who holds which nation there. */
  function PlayersWithNations(st: Store, alias: string): (r: set<ServerPlayer>)
    ensures r <= st.serverPlayers
    ensures forall sp :: sp in st.serverPlayers && sp.serverAlias == alias ==> sp in r
    ensures forall sp :: sp in r ==> sp.serverAlias == alias
    ensures Valid(st) ==> forall a, b :: a in r && b in r && a.nationId == b.nationId ==> a == b
  {
    set sp | sp in st.serverPlayers && sp.serverAlias == alias
  }

  /** How many nations are claimed in one server. */
  function AssignmentCount(st: Store, alias: string): nat {
    |PlayersWithNations(st, alias)|
  }

  /** Adds a player row; refused when the user id is already present. */
  function InsertPlayer(st: Store, p: Player): (r: Result<Store, DbError>)
    ensures r.Err? <==> HasPlayer(st, p.discordUserId)
    ensures r.Err? ==> r.error == DuplicatePlayer(p.discordUserId)
    ensures r.Ok? ==> r.value == st.(players := st.players + {p}) && p !in st.players
    ensures r.Ok? && Valid(st) ==> Valid(r.value)
  {
    if HasPlayer(st, p.discordUserId) then Err(DuplicatePlayer(p.discordUserId))
    else Ok(st.(players := st.players + {p}))
  }

  /** Adds a server/player/nation row; refused when the nation is already
      claimed in that server. */
  function InsertServerPlayer(st: Store, alias: string, user: UserId, nation: NationId): (r: Result<Store, DbError>)
    ensures r.Err? <==> NationTaken(st, alias, nation)
    ensures r.Err? ==> r.error == DuplicateServerNation(alias, nation)
    ensures r.Ok? ==> r.value == st.(serverPlayers := st.serverPlayers + {ServerPlayer(alias, user, nation)})
    ensures r.Ok? ==> ServerPlayer(alias, user, nation) !in st.serverPlayers
    ensures r.Ok? ==> AssignmentCount(r.value, alias) == AssignmentCount(st, alias) + 1
    ensures r.Ok? && Valid(st) ==> Valid(r.value)
  {
    if NationTaken(st, alias, nation) then Err(DuplicateServerNation(alias, nation))
    else
      var row := ServerPlayer(alias, user, nation);
      var st' := st.(serverPlayers := st.serverPlayers + {row});
      assert PlayersWithNations(st', alias) == PlayersWithNations(st, alias) + {row};
      Ok(st')
  }
}
