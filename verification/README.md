# Player registration for Dominions 5 game servers

A Dafny model of the registration decision of the Dominions 5 status bot:
the `!register` chat command, with which a user claims a nation in a game
server. The server is looked up by its alias and is in one of two states.

- **Lobby**: a waiting room with an era and a player cap. The query is matched
  against the static nation catalogue, restricted to the lobby's era.
- **Started game**: the query is matched against the live roster that the
  running game server reports. There is no era filter.

In both states the query must be a case-insensitive **prefix** of exactly one
nation name. Several matches are ambiguous. None is not found; in a started
game whose turn is still -1, that error hints that no pretender has been
uploaded yet.

On success, two rows are written, in order and without a transaction:

1. a player row, with turn notifications on;
2. a (server, player, nation) claim row.

The store enforces two uniqueness rules from its schema:

- a chat user id appears once in `players`, across all servers;
- a (server, nation) pair appears once in `server_players`.

The lobby also checks its capacity and checks that the nation is free before
writing. The started branch does no such pre-check and relies on the store.
So in a started game, a claim on a taken nation is refused only after the new
player row is written. That row stays behind, and the user can never register
again (`RegistrationProofs.StartedDuplicateKeepsPlayerRow`).

Modules:

- `Results`: result and option values.
- `Text`: ASCII lower-casing, prefix tests, case-insensitive matching.
- `Model`: servers, lobby and started states, players, the live roster.
- `Nations`: the catalogue, candidate filtering, resolution to one nation.
- `Db`: the store and its two uniqueness rules.
- `Registration`: the decision. `RegisterPlayer` is the command: it lower-cases
  the query and calls `RegisterPlayerHelper`, which looks the server up and
  branches to `RegisterInLobby` or `RegisterInStarted`.
- `RegistrationProofs`: properties relating several calls.
- `Scenarios`: worked examples on concrete stores.

Two behaviours of the code, modelled as they are written:

- An existing user id is never reused. The players table declares `discord_user_id` UNIQUE (src/db/test_helpers.rs:79-81), so inserting a second player row for the same user fails, and a user who has registered in one server cannot register in another.
- A started-game claim on a taken nation can leave a player row behind (see above).

## Model

| member | source | states |
|---|---|---|
| Text.Lower | src/commands/servers/register_player/mod.rs:31 | One lower-cased character is never a capital; a capital moves to its small letter and every other character is kept |
| Text.LowerStr | src/commands/servers/register_player/mod.rs:127 | The lower-cased query has the same length, each character is lower-cased, and no capital letter is left |
| Text.MatchIsCaseInsensitive | src/commands/servers/register_player/mod.rs:31-32 | `NameMatches`, the per-name test of both filters (here and at line 81), is exactly case-insensitive prefix matching once the query is lower-cased: lower-casing the query and then each name makes the match exactly "the query prefixes the name, ignoring case", in both directions |
| Text.UnloweredQueryMatchesNothing | src/commands/servers/register_player/mod.rs:127 | A query that still has a capital letter matches no name, which is why the command lower-cases the query first |
| Text.PrefixNotSubstring | src/commands/servers/register_player/mod.rs:32 | Matching is by prefix and not by substring: "er" matches "Ermor" but not "Early Ermor", which contains "er" |
| Nations.Filter | src/commands/servers/register_player/mod.rs:28-34 | Filtering keeps exactly the elements that satisfy the condition and adds no others |
| Nations.FilterMultiplicity | src/commands/servers/register_player/mod.rs:78-84 | The filter keeps every copy of a kept entry and none of a dropped one, so the collected length the ambiguity test reads counts repeated entries |
| Nations.LobbyCandidates | src/commands/servers/register_player/mod.rs:28-34 | A nation is a lobby candidate if and only if it is in the catalogue, has the lobby's era, and its lower-cased name starts with the query |
| Nations.RosterCandidates | src/commands/servers/register_player/mod.rs:78-82 | A nation is a started-game candidate if and only if it is on the roster and its lower-cased name starts with the query; era plays no part |
| Nations.Resolve | src/commands/servers/register_player/mod.rs:35-45 | No candidate is not found, several are ambiguous with no tie-break, and a unique result is the single candidate |
| Nations.FilterCountsMatches | src/commands/servers/register_player/mod.rs:28-35 | On a catalogue without repeats, the number of candidates equals the number of distinct matching nations |
| Nations.LobbyResolution | src/commands/servers/register_player/mod.rs:28-45 | With distinct catalogue ids, lobby resolution is decided by the set of matching nations: empty means not found, two or more means ambiguous, one means that nation |
| Nations.RosterResolution | src/commands/servers/register_player/mod.rs:78-97 | On a roster without repeats, started-game resolution is decided by the set of matching roster nations: empty means not found, two or more means ambiguous, one means that nation |
| Db.PlayersWithNations | src/commands/servers/register_player/mod.rs:23-24 | A server's claims are exactly the rows with its alias; in a valid store each nation appears once among them, so their number (`AssignmentCount`, the `len()` the capacity test reads) counts the distinct nations claimed |
| Db.GameForAlias | src/commands/servers/register_player/mod.rs:19 | The lookup succeeds exactly when a server has the alias, and returns that server's state; otherwise it fails with no-server-for-alias |
| Db.InsertPlayer | src/db/test_helpers.rs:79-81 | A player insert is refused exactly when the user id is already present; otherwise it adds only that row and keeps user ids unique |
| Db.InsertServerPlayer | src/db/test_helpers.rs:83 | A claim insert is refused exactly when the server already has that nation; otherwise it adds one new row, raises that server's count by one, and keeps (server, nation) unique |
| Registration.InsertPlayerAndAssignment | src/commands/servers/register_player/mod.rs:57-65 | The player row (notifications on) is written first, and the claim row only if that succeeded. A known user writes nothing. A taken nation leaves only the player row. Success writes both rows. Store integrity is kept |
| Registration.RegisterInLobby | src/commands/servers/register_player/mod.rs:22-73 | A full lobby is refused before any matching. Ambiguous, not-found, already-in-lobby and known-user outcomes hold exactly in their cases. No refusal writes anything. Success registers the single era-matching candidate and writes its two rows |
| Registration.RegisterInStarted | src/commands/servers/register_player/mod.rs:74-118 | A failed roster fetch is reported with nothing written. Candidates come from the whole roster. Not-found carries the pretender hint exactly when the turn is -1. A known user gets the store's duplicate-player error with nothing written. A taken nation is refused by the store after the player row is written |
| Registration.RegisterPlayerHelper | src/commands/servers/register_player/mod.rs:12-120 | An unknown alias is refused unchanged, and otherwise the call dispatches on the server state. Success adds exactly the player row and the claim row. Claims change only on success. A user already in the store always fails with nothing written. Integrity is kept |
| Registration.RegisterPlayer | src/commands/servers/register_player/mod.rs:122-147 | The command lower-cases the query before the decision, and any nation it registers is prefixed by the raw query, ignoring case |
| RegistrationProofs.LobbyOutcomeByRawQuery | src/commands/servers/register_player/mod.rs:28-44 | In a lobby with room, the raw query is ambiguous exactly when it prefixes two or more era nations (ignoring case), and not found exactly when it prefixes none; success registers the only one |
| RegistrationProofs.AssignmentCountStep | src/commands/servers/register_player/mod.rs:57-65 | A registration raises its server's claim count by exactly one on success and leaves every count unchanged otherwise |
| RegistrationProofs.LobbyCapacityKept | src/commands/servers/register_player/mod.rs:23-26 | A lobby within its player cap stays within it after any registration |
| RegistrationProofs.SecondRegistrationRefused | src/commands/servers/register_player/mod.rs:100-106 | After a user registers once, any later registration by that user, on any server, is refused and writes nothing |
| RegistrationProofs.NationClaimedOnce | src/commands/servers/register_player/mod.rs:45-65 | After a nation is claimed in a server, no later registration there succeeds with the same nation |
| RegistrationProofs.LobbyNeverOrphansPlayer | src/commands/servers/register_player/mod.rs:45-65 | A refused lobby registration leaves the store exactly as it was |
| RegistrationProofs.StartedDuplicateKeepsPlayerRow | src/commands/servers/register_player/mod.rs:99-110 | In a started game, resolving to a taken nation is refused by the store, but the new player row stays and the user counts as registered |
| Scenarios.LobbyFillsUp | src/commands/servers/register_player/mod.rs:22-73 | In an early-era lobby for two, "Arco" registers Arcoscephale and "er" registers Ermor; a third user is refused as lobby-full whatever the query |
| Scenarios.StartedRoster | src/commands/servers/register_player/mod.rs:84-97 | With Pangaea as the only roster nation, "p" registers it and "x" is not found, with the pretender hint at turn -1 and without it at turn 3 |
| Scenarios.UnreachableGameWritesNothing | src/commands/servers/register_player/mod.rs:75 | An unreachable game server refuses the registration with the store unchanged |

## Left out

- Text.LowerStr: lower-cases ASCII capitals only. Rust's `to_lowercase` is Unicode-aware, and full case mapping is not modelled.
- Chat plumbing is not modelled: the chat context, message and argument parsing, `alias_from_arg_or_channel_name`, and the missing-database-connection error (mod.rs:128-137). The alias and user id are plain inputs.
- Replies and logging are not modelled (mod.rs:66-71, 107, 111-116). A failed lobby reply turns the result into an error after the rows are written; the model reports success there.
- Error texts are not modelled. Each error is a constructor that carries the query or nation name, plus the pretender hint flag.
- The roster fetch `get_game_data` is a function parameter from address to game data or a transport error. The network call is not modelled.
- The store keeps only its uniqueness rules. SQL, connection pooling and migrations are left out. So are storage failures other than the two duplicate refusals, and the test counters of src/db/test_helpers.rs.
- Row ids are not modelled. Claim rows are keyed by server alias and user id, not by row ids.
- Transactions and concurrent registrations are not modelled (the TODOs at mod.rs:61 and :105). The model is sequential.
- `players_nations.len() as i32` is compared without 32-bit wrap-around. The cast only differs past 2^31 rows.
- The `as usize` and `as u32` casts of nation ids are not modelled. Ids are unbounded naturals.
- The catalogue `NATIONS_BY_ID` is not part of this model. It is an input sequence in the map's iteration order. Lemmas that need its keys to be distinct say so (`DistinctIds`).
