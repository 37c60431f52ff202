/** Worked registrations on small concrete stores. */
module Scenarios {
  import opened Results
  import opened Text
  import opened Model
  import opened Nations
  import opened Db
  import opened Registration

  /** A data source for stores that hold no started server. */
  function Offline(address: string): Result<GameData, string> {
    Err("connection refused")
  }

  /** Two early-era nations, as in the lobby walk-through. */
  const EarlyCatalog: Catalog := [CatalogNation(1, "Ermor", Early), CatalogNation(2, "Arcoscephale", Early)]

  /** A store holding one early-era lobby for two players and no rows yet. */
  const EmptyLobby: Store := Store(map["game" := Lobby(LobbyState(7, 2, Early))], {}, {})

  // Name-matching facts for the two catalogue nations, proved position by position.

  lemma ArcoscephaleMatchesArco()
    ensures NameMatches("Arcoscephale", "arco")
  {
    var name := "Arcoscephale";
    assert name[0] == 'A' && name[1] == 'r' && name[2] == 'c' && name[3] == 'o';
    MatchByCharacters(name, "arco");
  }

  lemma ErmorMatchesEr()
    ensures NameMatches("Ermor", "er")
  {
    var lowered := LowerStr("Ermor");
    assert lowered[0] == 'e' && lowered[1] == 'r';
    assert lowered[..2] == "er";
  }

  lemma ErmorMissesArco()
    ensures !NameMatches("Ermor", "arco")
  {
    assert LowerStr("Ermor")[0] == 'e';
  }

  lemma ArcoscephaleMissesEr()
    ensures !NameMatches("Arcoscephale", "er")
  {
    assert LowerStr("Arcoscephale")[0] == 'a';
  }

  lemma NameFacts()
    ensures NameMatches("Arcoscephale", "arco") && !NameMatches("Ermor", "arco")
    ensures NameMatches("Ermor", "er") && !NameMatches("Arcoscephale", "er")
  {
    ArcoscephaleMatchesArco();
    ErmorMatchesEr();
    ErmorMissesArco();
    ArcoscephaleMissesEr();
  }

  // The lobby candidate lists for the two queries of the walk-through.

  lemma ArcoCandidates()
    ensures LobbyCandidates(EarlyCatalog, Early, "arco") == [EarlyCatalog[1]]
  {
    NameFacts();
    var keep := LobbyFilter(Early, "arco");
    assert !keep(EarlyCatalog[0]) && keep(EarlyCatalog[1]);
    assert Filter(EarlyCatalog[2..], keep) == [];
    assert Filter(EarlyCatalog[1..], keep) == [EarlyCatalog[1]];
  }

  lemma ErCandidates()
    ensures LobbyCandidates(EarlyCatalog, Early, "er") == [EarlyCatalog[0]]
  {
    NameFacts();
    var keep := LobbyFilter(Early, "er");
    assert keep(EarlyCatalog[0]) && !keep(EarlyCatalog[1]);
    assert Filter(EarlyCatalog[2..], keep) == [];
    assert Filter(EarlyCatalog[1..], keep) == [];
  }

  /** Registration through the command reaches the lobby branch with the
      lower-cased query. Stated over variables so that concrete scenarios can
      use it without unfolding the whole decision. */
  lemma ThroughLobby(user: UserId, rawQuery: string, alias: string, st: Store, catalog: Catalog, fetch: GameDataSource)
    requires alias in st.servers && st.servers[alias].Lobby?
    ensures RegisterPlayer(user, rawQuery, alias, st, catalog, fetch)
              == RegisterInLobby(user, LowerStr(rawQuery), alias, st.servers[alias].lobby, st, catalog)
  {
  }

  /** A lobby claim with room, one candidate, a free nation and a new user succeeds. */
  lemma LobbyClaimSucceeds(user: UserId, query: string, alias: string, lobby: LobbyState, st: Store, catalog: Catalog, k: nat)
    requires k < |catalog| && LobbyCandidates(catalog, lobby.era, query) == [catalog[k]]
    requires AssignmentCount(st, alias) < lobby.playerCount
    requires !NationTaken(st, alias, catalog[k].id) && !HasPlayer(st, user)
    ensures var o := RegisterInLobby(user, query, alias, lobby, st, catalog);
            && o.result == Ok(Registered(catalog[k].id, catalog[k].name, Some(catalog[k].era)))
            && o.store == WithRows(st, alias, user, catalog[k].id)
  {
  }

  // The walk-through, one registration at a time.

  lemma FirstClaimInLobby()
    ensures var o := RegisterInLobby(10, "arco", "game", LobbyState(7, 2, Early), EmptyLobby, EarlyCatalog);
            && o.result == Ok(Registered(2, "Arcoscephale", Some(Early)))
            && o.store == WithRows(EmptyLobby, "game", 10, 2)
  {
    ArcoCandidates();
    assert AssignmentCount(EmptyLobby, "game") == 0 by {
      assert PlayersWithNations(EmptyLobby, "game") == {};
    }
    LobbyClaimSucceeds(10, "arco", "game", LobbyState(7, 2, Early), EmptyLobby, EarlyCatalog, 1);
  }

  lemma FirstClaim()
    ensures var o1 := RegisterPlayer(10, "Arco", "game", EmptyLobby, EarlyCatalog, Offline);
            && o1.result == Ok(Registered(2, "Arcoscephale", Some(Early)))
            && o1.store == WithRows(EmptyLobby, "game", 10, 2)
  {
    assert LowerStr("Arco") == "arco";
    ThroughLobby(10, "Arco", "game", EmptyLobby, EarlyCatalog, Offline);
    FirstClaimInLobby();
  }

  lemma AfterFirstClaim()
    ensures var s1 := WithRows(EmptyLobby, "game", 10, 2);
            AssignmentCount(s1, "game") == 1 && !NationTaken(s1, "game", 1) && !HasPlayer(s1, 11)
  {
    var s1 := WithRows(EmptyLobby, "game", 10, 2);
    assert PlayersWithNations(s1, "game") == {ServerPlayer("game", 10, 2)};
  }

  lemma AfterSecondClaim()
    ensures AssignmentCount(WithRows(WithRows(EmptyLobby, "game", 10, 2), "game", 11, 1), "game") == 2
  {
    var s2 := WithRows(WithRows(EmptyLobby, "game", 10, 2), "game", 11, 1);
    assert PlayersWithNations(s2, "game") == {ServerPlayer("game", 10, 2), ServerPlayer("game", 11, 1)};
  }

  /** A lobby without room refuses any query. */
  lemma LobbyFullStep(user: UserId, rawQuery: string, alias: string, st: Store, catalog: Catalog, fetch: GameDataSource)
    requires alias in st.servers && st.servers[alias].Lobby?
    requires AssignmentCount(st, alias) >= st.servers[alias].lobby.playerCount
    ensures RegisterPlayer(user, rawQuery, alias, st, catalog, fetch) == Outcome(Err(LobbyFull), st)
  {
  }

  lemma SecondClaimInLobby()
    ensures var s1 := WithRows(EmptyLobby, "game", 10, 2);
            var o2 := RegisterInLobby(11, "er", "game", LobbyState(7, 2, Early), s1, EarlyCatalog);
            && o2.result == Ok(Registered(1, "Ermor", Some(Early)))
            && o2.store == WithRows(s1, "game", 11, 1)
  {
    var s1 := WithRows(EmptyLobby, "game", 10, 2);
    ErCandidates();
    AfterFirstClaim();
    LobbyClaimSucceeds(11, "er", "game", LobbyState(7, 2, Early), s1, EarlyCatalog, 0);
  }

  lemma SecondClaim()
    ensures var s1 := WithRows(EmptyLobby, "game", 10, 2);
            var o2 := RegisterPlayer(11, "er", "game", s1, EarlyCatalog, Offline);
            && o2.result == Ok(Registered(1, "Ermor", Some(Early)))
            && o2.store == WithRows(s1, "game", 11, 1)
  {
    var s1 := WithRows(EmptyLobby, "game", 10, 2);
    assert LowerStr("er") == "er";
    ThroughLobby(11, "er", "game", s1, EarlyCatalog, Offline);
    SecondClaimInLobby();
  }

  /** An early-era lobby for two: "Arco" registers Arcoscephale, "er" then
      registers Ermor for another user, and a third user finds the lobby full
      whatever nation they ask for. */
  lemma LobbyFillsUp(query: string)
    ensures var o1 := RegisterPlayer(10, "Arco", "game", EmptyLobby, EarlyCatalog, Offline);
            var o2 := RegisterPlayer(11, "er", "game", o1.store, EarlyCatalog, Offline);
            var o3 := RegisterPlayer(12, query, "game", o2.store, EarlyCatalog, Offline);
            && o1.result == Ok(Registered(2, "Arcoscephale", Some(Early)))
            && o2.result == Ok(Registered(1, "Ermor", Some(Early)))
            && o3 == Outcome(Err(LobbyFull), o2.store)
  {
    FirstClaim();
    SecondClaim();
    var s2 := WithRows(WithRows(EmptyLobby, "game", 10, 2), "game", 11, 1);
    AfterSecondClaim();
    LobbyFullStep(12, query, "game", s2, EarlyCatalog, Offline);
  }

  /** A live roster holding Pangaea only. */
  const PangaeaRoster: seq<RosterNation> := [RosterNation(5, "Pangaea")]

  /** A store holding one started game and no rows yet. */
  const StartedGame: Store := Store(map["game" := Started(StartedState("host:1234", 0), None)], {}, {})

  /** The game server before the first turn (turn -1). */
  function Pregame(address: string): Result<GameData, string> {
    Ok(GameData(PangaeaRoster, -1))
  }

  /** The game server at turn 3. */
  function Running(address: string): Result<GameData, string> {
    Ok(GameData(PangaeaRoster, 3))
  }

  /** A started game whose roster holds only Pangaea: "p" registers it; "x"
      is not found, with the pretender hint only while the turn is -1. */
  lemma StartedRoster()
    ensures RegisterPlayer(10, "p", "game", StartedGame, [], Pregame).result == Ok(Registered(5, "Pangaea", None))
    ensures RegisterPlayer(10, "x", "game", StartedGame, [], Pregame).result == Err(NationNotFound("x", true))
    ensures RegisterPlayer(10, "x", "game", StartedGame, [], Running).result == Err(NationNotFound("x", false))
  {
    assert LowerStr("p") == "p" && LowerStr("x") == "x";
    assert LowerStr("Pangaea")[..1] == "p";
    assert RosterCandidates(PangaeaRoster, "p") == PangaeaRoster;
    assert RosterCandidates(PangaeaRoster, "x") == [];
  }

  /** A started game whose server cannot be reached refuses the registration
      and writes nothing. */
  lemma UnreachableGameWritesNothing()
    ensures RegisterPlayer(10, "p", "game", StartedGame, [], Offline)
              == Outcome(Err(GameServerUnreachable("connection refused")), StartedGame)
  {
  }
}
