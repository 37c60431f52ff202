/** The registration decision of the `!register` command: look the server up,
    resolve the nation query against the catalogue (lobby) or the live roster
    (started game), and write the player row and then the claim row. */
module Registration {
  import opened Results
  import opened Text
  import opened Model
  import opened Nations
  import opened Db

  /** Why a registration was refused. */
  datatype RegisterError =
    | StoreError(dbError: DbError)
    | LobbyFull
    | AmbiguousNation(query: string)
    | NationNotFound(query: string, pretenderHint: bool)
    | NationAlreadyInLobby(nationName: string)
    | GameServerUnreachable(reason: string)

  /** What a successful registration reports: the nation, and its era when it
      came from the catalogue. */
  datatype Registered = Registered(nationId: NationId, nationName: string, era: Option<Era>)

  /** The reply together with the store as the call leaves it. */
  datatype Outcome = Outcome(result: Result<Registered, RegisterError>, store: Store)

  /** The live query of a started game server, by address: its data or a transport error. */
  type GameDataSource = string -> Result<GameData, string>

  /** The store with a fresh player row (notifications on) and its claim row. */
  function WithRows(st: Store, alias: string, user: UserId, nation: NationId): Store {
    st.(players := st.players + {Player(user, true)},
        serverPlayers := st.serverPlayers + {ServerPlayer(alias, user, nation)})
  }

  /** The two writes shared by both branches, in order and without a
      transaction: the player row, then, only if that succeeded, the claim row.
      A refused claim leaves the new player row behind. */
  function InsertPlayerAndAssignment(st: Store, alias: string, user: UserId, nation: NationId, reg: Registered): (o: Outcome)
    ensures o.result.Ok? <==> !HasPlayer(st, user) && !NationTaken(st, alias, nation)
    ensures o.result.Ok? ==> o.result.value == reg && o.store == WithRows(st, alias, user, nation)
    ensures HasPlayer(st, user) ==> o == Outcome(Err(StoreError(DuplicatePlayer(user))), st)
    ensures !HasPlayer(st, user) && NationTaken(st, alias, nation) ==>
              o == Outcome(Err(StoreError(DuplicateServerNation(alias, nation))),
                           st.(players := st.players + {Player(user, true)}))
    ensures Valid(st) ==> Valid(o.store)
  {
    match InsertPlayer(st, Player(user, true))
    case Err(e) => Outcome(Err(StoreError(e)), st)
    case Ok(withPlayer) =>
      match InsertServerPlayer(withPlayer, alias, user, nation)
      case Err(e) => Outcome(Err(StoreError(e)), withPlayer)
      case Ok(withClaim) => Outcome(Ok(reg), withClaim)
  }

  /** Registration in a lobby: capacity first, then the era-filtered catalogue
      match, then the lobby's own check that the nation is free, then the writes. */
  function RegisterInLobby(user: UserId, query: string, alias: string, lobby: LobbyState, st: Store, catalog: Catalog): (o: Outcome)
    ensures AssignmentCount(st, alias) >= lobby.playerCount ==> o == Outcome(Err(LobbyFull), st)
    ensures o.result.Err? ==> o.store == st
    ensures var cands := LobbyCandidates(catalog, lobby.era, query);
            var hasRoom := AssignmentCount(st, alias) < lobby.playerCount;
            && (o.result == Err(LobbyFull) <==> !hasRoom)
            && (o.result == Err(AmbiguousNation(query)) <==> hasRoom && |cands| > 1)
            && (o.result == Err(NationNotFound(query, false)) <==> hasRoom && cands == [])
            && (hasRoom && |cands| == 1 && NationTaken(st, alias, cands[0].id) ==>
                  o.result == Err(NationAlreadyInLobby(cands[0].name)))
            && (hasRoom && |cands| == 1 && !NationTaken(st, alias, cands[0].id) && HasPlayer(st, user) ==>
                  o.result == Err(StoreError(DuplicatePlayer(user))))
            && (o.result.Ok? <==>
                  hasRoom && |cands| == 1 && !NationTaken(st, alias, cands[0].id) && !HasPlayer(st, user))
            && (o.result.Ok? ==>
                  && hasRoom && |cands| == 1
                  && !NationTaken(st, alias, cands[0].id) && !HasPlayer(st, user)
                  && o.result.value == Registered(cands[0].id, cands[0].name, Some(cands[0].era))
                  && o.store == WithRows(st, alias, user, cands[0].id))
    ensures Valid(st) ==> Valid(o.store)
  {
    var taken := PlayersWithNations(st, alias);
    if |taken| >= lobby.playerCount then Outcome(Err(LobbyFull), st)
    else
      match Resolve(LobbyCandidates(catalog, lobby.era, query))
      case Ambiguous => Outcome(Err(AmbiguousNation(query)), st)
      case NotFound => Outcome(Err(NationNotFound(query, false)), st)
      case Unique(n) =>
        if exists sp :: sp in taken && sp.nationId == n.id then
          Outcome(Err(NationAlreadyInLobby(n.name)), st)
        else
          InsertPlayerAndAssignment(st, alias, user, n.id, Registered(n.id, n.name, Some(n.era)))
  }

  /** Registration in a started game: fetch the live roster, match over all of
      it, and write without checking first whether the nation is taken. */
  function RegisterInStarted(user: UserId, query: string, alias: string, started: StartedState, st: Store, fetch: GameDataSource): (o: Outcome)
    ensures fetch(started.address).Err? ==>
              o == Outcome(Err(GameServerUnreachable(fetch(started.address).error)), st)
    ensures fetch(started.address).Ok? ==>
              var data := fetch(started.address).value;
              var cands := RosterCandidates(data.nations, query);
              && (o.result == Err(AmbiguousNation(query)) <==> |cands| > 1)
              && (o.result.Err? && o.result.error.NationNotFound? <==> cands == [])
              && (cands == [] ==> o.result == Err(NationNotFound(query, data.turn == NotStartedTurn)))
              && (|cands| == 1 && HasPlayer(st, user) ==>
                    o == Outcome(Err(StoreError(DuplicatePlayer(user))), st))
              && (|cands| == 1 && !HasPlayer(st, user) && NationTaken(st, alias, cands[0].id) ==>
                    && o.result == Err(StoreError(DuplicateServerNation(alias, cands[0].id)))
                    && o.store == st.(players := st.players + {Player(user, true)}))
              && (o.result.Ok? <==>
                    |cands| == 1 && !NationTaken(st, alias, cands[0].id) && !HasPlayer(st, user))
              && (o.result.Ok? ==>
                    && |cands| == 1
                    && !NationTaken(st, alias, cands[0].id) && !HasPlayer(st, user)
                    && o.result.value == Registered(cands[0].id, cands[0].name, None)
                    && o.store == WithRows(st, alias, user, cands[0].id))
    ensures o.result.Err? && !o.result.error.StoreError? ==> o.store == st
    ensures !o.result.Ok? ==> o.store.serverPlayers == st.serverPlayers
    ensures Valid(st) ==> Valid(o.store)
  {
    match fetch(started.address)
    case Err(reason) => Outcome(Err(GameServerUnreachable(reason)), st)
    case Ok(data) =>
      match Resolve(RosterCandidates(data.nations, query))
      case Ambiguous => Outcome(Err(AmbiguousNation(query)), st)
      case NotFound => Outcome(Err(NationNotFound(query, data.turn == NotStartedTurn)), st)
      case Unique(n) => InsertPlayerAndAssignment(st, alias, user, n.id, Registered(n.id, n.name, None))
  }

  /** `register_player_helper`: find the server by alias and branch on its state.
      The query reaching here is already lower-cased by the command. */
  function RegisterPlayerHelper(user: UserId, query: string, alias: string, st: Store, catalog: Catalog, fetch: GameDataSource): (o: Outcome)
    ensures alias !in st.servers ==> o == Outcome(Err(StoreError(NoServerForAlias(alias))), st)
    ensures alias in st.servers && st.servers[alias].Lobby? ==>
              o == RegisterInLobby(user, query, alias, st.servers[alias].lobby, st, catalog)
    ensures alias in st.servers && st.servers[alias].Started? ==>
              o == RegisterInStarted(user, query, alias, st.servers[alias].started, st, fetch)
    ensures o.store.servers == st.servers
    ensures st.players <= o.store.players && st.serverPlayers <= o.store.serverPlayers
    ensures o.result.Ok? ==>
              && !HasPlayer(st, user) && !NationTaken(st, alias, o.result.value.nationId)
              && o.store == WithRows(st, alias, user, o.result.value.nationId)
    ensures !o.result.Ok? ==> o.store.serverPlayers == st.serverPlayers
    ensures HasPlayer(st, user) ==> !o.result.Ok? && o.store == st
    ensures Valid(st) ==> Valid(o.store)
  {
    match GameForAlias(st, alias)
    case Err(e) => Outcome(Err(StoreError(e)), st)
    case Ok(server) =>
      match server.state
      case Lobby(lobby) => RegisterInLobby(user, query, server.alias, lobby, st, catalog)
      case Started(started, _) => RegisterInStarted(user, query, server.alias, started, st, fetch)
  }

  /** `register_player`: lower-case the query argument, then register. Whatever
      nation is registered matches the raw query case-insensitively by prefix. */
  function RegisterPlayer(user: UserId, rawQuery: string, alias: string, st: Store, catalog: Catalog, fetch: GameDataSource): (o: Outcome)
    ensures o == RegisterPlayerHelper(user, LowerStr(rawQuery), alias, st, catalog, fetch)
    ensures o.result.Ok? ==> CaseInsensitivePrefix(rawQuery, o.result.value.nationName)
  {
    var o := RegisterPlayerHelper(user, LowerStr(rawQuery), alias, st, catalog, fetch);
    if o.result.Ok? then
      MatchIsCaseInsensitive(o.result.value.nationName, rawQuery);
      o
    else o
  }
}
