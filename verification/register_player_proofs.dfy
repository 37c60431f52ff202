/** Properties of registration that relate several calls or restate an
    outcome in terms independent of the implementation. */
module RegistrationProofs {
  import opened Results
  import opened Text
  import opened Model
  import opened Nations
  import opened Db
  import opened Registration

  /** The catalogue nations of an era that a raw (not yet lower-cased) query
      prefixes, ignoring case. */
  ghost function RawLobbyMatches(catalog: Catalog, era: Era, rawQuery: string): set<CatalogNation> {
    set n | n in catalog && n.era == era && CaseInsensitivePrefix(rawQuery, n.name)
  }

  /** In a lobby with room, the outcome of a raw query is decided by how many
      nations of the lobby's era it prefixes case-insensitively: several is
      ambiguous, none is not found, and a success registers the only one. */
  lemma LobbyOutcomeByRawQuery(user: UserId, rawQuery: string, alias: string, st: Store, catalog: Catalog, fetch: GameDataSource)
    requires DistinctIds(catalog)
    requires alias in st.servers && st.servers[alias].Lobby?
    requires AssignmentCount(st, alias) < st.servers[alias].lobby.playerCount
    ensures var o := RegisterPlayer(user, rawQuery, alias, st, catalog, fetch);
            var era := st.servers[alias].lobby.era;
            var m := RawLobbyMatches(catalog, era, rawQuery);
            && (o.result == Err(AmbiguousNation(LowerStr(rawQuery))) <==> |m| > 1)
            && (o.result == Err(NationNotFound(LowerStr(rawQuery), false)) <==> m == {})
            && (o.result.Ok? ==>
                  m == {CatalogNation(o.result.value.nationId, o.result.value.nationName, era)})
  {
    var era := st.servers[alias].lobby.era;
    var query := LowerStr(rawQuery);
    forall n | n in catalog
      ensures NameMatches(n.name, query) <==> CaseInsensitivePrefix(rawQuery, n.name)
    {
      MatchIsCaseInsensitive(n.name, rawQuery);
    }
    assert RawLobbyMatches(catalog, era, rawQuery) == LobbyMatches(catalog, era, query);
    LobbyResolution(catalog, era, query);
  }

  /** A registration adds exactly one claim to its server when it succeeds and
      none otherwise; no other server's claims change. */
  lemma AssignmentCountStep(user: UserId, query: string, alias: string, st: Store, catalog: Catalog, fetch: GameDataSource, other: string)
    ensures var o := RegisterPlayerHelper(user, query, alias, st, catalog, fetch);
            AssignmentCount(o.store, other) ==
              AssignmentCount(st, other) + (if o.result.Ok? && other == alias then 1 else 0)
  {
    var o := RegisterPlayerHelper(user, query, alias, st, catalog, fetch);
    if o.result.Ok? {
      var row := ServerPlayer(alias, user, o.result.value.nationId);
      assert row !in st.serverPlayers;
      if other == alias {
        assert PlayersWithNations(o.store, other) == PlayersWithNations(st, other) + {row};
      } else {
        assert PlayersWithNations(o.store, other) == PlayersWithNations(st, other);
      }
    }
  }

  /** A lobby that is within its capacity stays within it after any registration. */
  lemma LobbyCapacityKept(user: UserId, query: string, alias: string, st: Store, catalog: Catalog, fetch: GameDataSource)
    requires alias in st.servers && st.servers[alias].Lobby?
    requires AssignmentCount(st, alias) <= st.servers[alias].lobby.playerCount
    ensures var o := RegisterPlayerHelper(user, query, alias, st, catalog, fetch);
            AssignmentCount(o.store, alias) <= st.servers[alias].lobby.playerCount
  {
  }

  /** Player ids are global: once a user has registered anywhere, a second
      registration by that user, on any server and with any query, is refused
      and writes nothing. */
  lemma SecondRegistrationRefused(
    user: UserId, q1: string, a1: string, q2: string, a2: string,
    st: Store, catalog: Catalog, fetch1: GameDataSource, fetch2: GameDataSource)
    requires RegisterPlayer(user, q1, a1, st, catalog, fetch1).result.Ok?
    ensures var s1 := RegisterPlayer(user, q1, a1, st, catalog, fetch1).store;
            var o2 := RegisterPlayer(user, q2, a2, s1, catalog, fetch2);
            !o2.result.Ok? && o2.store == s1
  {
  }

  /** A nation is claimed at most once per server: after a successful claim,
      no later registration in that server succeeds with the same nation. */
  lemma NationClaimedOnce(
    u1: UserId, q1: string, u2: UserId, q2: string, alias: string,
    st: Store, catalog: Catalog, fetch1: GameDataSource, fetch2: GameDataSource)
    requires RegisterPlayerHelper(u1, q1, alias, st, catalog, fetch1).result.Ok?
    ensures var o1 := RegisterPlayerHelper(u1, q1, alias, st, catalog, fetch1);
            var o2 := RegisterPlayerHelper(u2, q2, alias, o1.store, catalog, fetch2);
            o2.result.Ok? ==> o2.result.value.nationId != o1.result.value.nationId
  {
  }

  /** In a lobby, the pre-check makes a refused claim row impossible, so a
      lobby registration never leaves a player row without its claim. */
  lemma LobbyNeverOrphansPlayer(user: UserId, query: string, alias: string, st: Store, catalog: Catalog, fetch: GameDataSource)
    requires alias in st.servers && st.servers[alias].Lobby?
    ensures var o := RegisterPlayerHelper(user, query, alias, st, catalog, fetch);
            !o.result.Ok? ==> o.store == st
  {
  }

  /** In a started game the claim is not pre-checked: resolving to a nation
      that is already claimed there is refused by the store, after the new
      player row has been written. */
  lemma StartedDuplicateKeepsPlayerRow(user: UserId, query: string, alias: string, st: Store, catalog: Catalog, fetch: GameDataSource)
    requires alias in st.servers && st.servers[alias].Started?
    requires fetch(st.servers[alias].started.address).Ok?
    requires var data := fetch(st.servers[alias].started.address).value;
             var cands := RosterCandidates(data.nations, query);
             |cands| == 1 && NationTaken(st, alias, cands[0].id) && !HasPlayer(st, user)
    ensures var o := RegisterPlayerHelper(user, query, alias, st, catalog, fetch);
            && o.result.Err? && o.result.error.StoreError?
            && o.result.error.dbError.DuplicateServerNation?
            && o.store.serverPlayers == st.serverPlayers
            && o.store.players == st.players + {Player(user, true)}
            && HasPlayer(o.store, user)
  {
  }
}
