# Ping-pong manager: the bracket engine in Dafny

A model of the tournament engine of the ping-pong manager web application
(`app.py`). The database is three in-memory tables: players (`Jugador`),
two-player teams (`Equipo`) and matches (`Partido`). Each table has its own
fresh-id counter. The route handlers that change these tables are methods of
the class `Aplicacion.Torneo`:

- `crear_llaves` builds a single-elimination first round from the selected
  players, in singles or in doubles;
- `avanzar_ronda` pairs the winners of the latest round into the next one;
- `marcar_ganador` records a result;
- `registrar`, `eliminar_jugador` and `editar_jugador` maintain the players;
- `toggle_seleccion` and `limpiar_seleccion` maintain the roster selection;
- `reset` deletes every match.

The read-only pages are pure functions:

- the singles standings (`posiciones`);
- the doubles standings (`posiciones_dobles`);
- the per-player match count and the id-to-name dictionary of `index`.

Files and modules:

- `registros.dfy` (`Registros`): the record shapes, `str.strip`, the lookups
  and the filters the handlers run.
- `llaves.dfy` (`Llaves`): the pairing of a list of ids into matches, the
  doubles teams, the latest round and its winners, and the recording of a
  result, with their lemmas.
- `orden.dfy` (`Orden`): Python's stable `sorted(..., reverse=True)` on
  integer tuple keys.
- `posiciones.dfy` (`Posiciones`): the standings, the match count and the
  names dictionary.
- `torneo.dfy` (`Aplicacion`): the class `Torneo` and its handler methods.

`Torneo.Valid` is kept by every handler:

- ids are unique within each table;
- every id is below its table's counter;
- every match is in round 1 or later;
- a decided match was won by one of its two sides.

Each handler's contract gives its whole new state in terms of the functions
of `Registros` and `Llaves`. The lemmas beside those functions state what
the application promises about them.

In these places the model follows the code:

- `crear_llaves` leaves the players' selection flags as they were.
- `editar_jugador` does not check the new name against the other players
  (see Findings).
- An unknown mode passed to `crear_llaves` still passes the guards, wipes
  the matches and the teams, and creates nothing.

## Model

| member | source | states |
|---|---|---|
| Registros.Primero | app.py:106 | the index of the first row that matches, no earlier row matching; None exactly when no row matches |
| Registros.Seleccionados | app.py:160 | a player is in the selection exactly when it is a selected player of the table |
| Registros.SeleccionadosConcat | app.py:160 | the selection is taken row by row, so it keeps the table order |
| Registros.SeleccionadosMultiplicidad | app.py:160 | each selected player occurs in the selection as often as in the table, and an unselected one not at all |
| Registros.SinJugador | app.py:124 | exactly the matches where the id is neither local nor visitor, whatever the mode |
| Registros.SinJugadorConcat | app.py:124 | the cascade delete works row by row: filtering a concatenation filters each part |
| Registros.SinJugadorIdsDistintos | app.py:124 | the cascade delete keeps match ids unique |
| Registros.QuitarIzquierda | app.py:101 | `lstrip` drops a whitespace prefix and nothing more; what is left starts with a non-space |
| Registros.QuitarDerecha | app.py:101 | `rstrip` drops a whitespace suffix and nothing more; what is left ends with a non-space |
| Registros.Strip | app.py:101 | the result is empty exactly when the input is all whitespace; otherwise it starts and ends with a non-space |
| Registros.StripIdempotente | app.py:134 | stripping twice is stripping once |
| Registros.OrdenSinRepetidos | app.py:160-179 | a shuffle of the selected players holds distinct players, all of them selected players of the table |
| Llaves.Emparejar | app.py:182-189 | pairing n ids gives n/2 matches, all in the given round and mode, 0-0 and undecided |
| Llaves.EmparejarEn | app.py:182-189 | match k pairs id 2k (local) with id 2k+1 (visitor) and takes the k-th fresh id |
| Llaves.EmparejarIds | app.py:183-189 | the new matches take consecutive fresh ids |
| Llaves.EmparejarAgregar | app.py:182-189 | one more iteration of the pairing loop appends exactly one match between the next two ids |
| Llaves.EmparejarUnaVez | app.py:182-189 | with distinct ids, the id at position j plays in match j/2 and in no other one; an odd last id plays no match |
| Llaves.EmparejarJugadores | app.py:182-189 | the same, for a list of players paired by their ids |
| Llaves.EmparejarParticipantes | app.py:182-189 | every new match pits two different ids of the list |
| Llaves.EquiposDobles | app.py:194-206 | two teams per full group of four players; the remainder forms no team |
| Llaves.EquiposDoblesEn | app.py:194-204 | group k forms team 2k from players 4k and 4k+1 and team 2k+1 from 4k+2 and 4k+3, each named "A / B" |
| Llaves.EquiposDoblesMiembros | app.py:192-204 | with distinct players, each team has two different members, and the 1 to 3 players left over are in no team |
| Llaves.EquiposDoblesDeOrden | app.py:194-204 | both members of every team are players of the shuffled roster |
| Llaves.EquiposDoblesIds | app.py:205-207 | the teams take consecutive fresh ids |
| Llaves.PartidosDoblesEn | app.py:209-215 | group k yields n/4 matches in all; match k is the round-1 doubles match between team 2k (local) and team 2k+1 |
| Llaves.ConResultado | app.py:144-151 | both scores and the detail are stored; the local side wins when its score is strictly greater, otherwise the visitor, a tie included; the winner is a side of the match, and the id, sides, round and mode are kept |
| Llaves.MaxRonda | app.py:225 | the largest round in a non-empty table, which some match has |
| Llaves.UltimaRonda | app.py:225 | 1 on an empty table; otherwise no match is in a later round, and when every round is at least 1 some match is in that round |
| Llaves.RondaDe | app.py:228 | exactly the matches of round r |
| Llaves.Ganadores | app.py:237 | at most one winner per match |
| Llaves.GanadoresCompletos | app.py:243 | the check `len(ganadores) != len(partidos_anteriores)` holds exactly when some match of the round is undecided |
| Llaves.GanadoresEnOrden | app.py:237 | in a fully decided round, winner i is the winner of match i |
| Llaves.SiguienteRondaEnOrden | app.py:247-257 | in the next round, match i pits the winner of match 2i (local) against the winner of match 2i+1, each a side of that match |
| Llaves.RondaAgregada | app.py:225-228 | after appending matches of round r+1 to rounds up to r, r+1 is the latest round and holds exactly the appended matches |
| Llaves.NuevaRonda | app.py:246-257 | the matches an advance appends: half as many as the winners, all in the next round and undecided |
| Llaves.NuevaRondaEsUltima | app.py:225-257 | the appended round becomes the latest round, and the next advance reads exactly its matches |
| Orden.InsertarPermuta | app.py:285 | an insertion adds exactly one row |
| Orden.InsertarDescendente | app.py:285 | an insertion keeps the rows in non-increasing key order |
| Orden.InsertarEstable | app.py:285 | an inserted row goes in front of the rows with an equal key |
| Orden.OrdenarCorrecto | app.py:285 | the sort is a permutation, in non-increasing key order, and rows with equal keys keep their input order |
| Posiciones.ComoLocal | app.py:269 | exactly the matches with the player as local |
| Posiciones.ComoVisitante | app.py:270 | exactly the matches with the player as visitor |
| Posiciones.Victorias | app.py:274 | a player's win count over the whole match table is at most the number of matches |
| Posiciones.TablaPosicionesCorrecta | app.py:265-285 | the singles table is a permutation of the per-player rows, ordered by wins and then by set difference, both descending, with ties in player order |
| Posiciones.FilaUnaPasada | app.py:272-273 | sets for is the player's own score summed as local and as visitor; sets against is the opponent's score in those same matches; the difference is for minus against |
| Posiciones.RondaNuevaNoCambiaFila | app.py:250-257 | appending 0-0 undecided matches (a new round) changes no player's row |
| Posiciones.VictoriasAcotadas | app.py:274 | when winners are sides of their matches, a player wins at most the matches they play |
| Posiciones.CascadaNoAfectaFila | app.py:124 | deleting one player's matches leaves unchanged the row of any player who never met them |
| Posiciones.CascadaLocal | app.py:124 | that delete keeps the other player's local matches |
| Posiciones.CascadaVisitante | app.py:124 | that delete keeps the other player's visitor matches |
| Posiciones.CascadaVictorias | app.py:124 | that delete keeps the other player's win count |
| Posiciones.VictoriasDobles | app.py:302 | a team's doubles wins are at most its wins in any mode |
| Posiciones.TablaDoblesCorrecta | app.py:299-305 | the doubles table is a permutation of the per-team rows, by wins descending, with ties in team order |
| Posiciones.VictoriasDoblesAcotadas | app.py:302 | when winners are sides of their matches, a team wins at most the doubles matches it plays |
| Posiciones.EquiposDe | app.py:84 | exactly the ids of the teams the player belongs to |
| Posiciones.CascadaNoAfectaCuenta | app.py:124 | deleting one player's matches leaves unchanged the index total of a player who, alone or in a team, never met them |
| Posiciones.CascadaSingles | app.py:124 | that delete keeps the other player's singles count |
| Posiciones.CascadaDobles | app.py:124 | that delete keeps the doubles count of teams that never met the deleted player |
| Posiciones.PartidosJugadosAcotado | app.py:76-90 | the singles and doubles counts never count a match twice, so a player's total is at most the number of matches |
| Posiciones.CuentasDisjuntas | app.py:78-88 | the singles count plus the doubles count is at most the number of matches |
| Posiciones.Diccionario | app.py:92-93 | the dictionary's keys are exactly the given keys |
| Posiciones.DiccionarioEn | app.py:92-93 | a key gets the value of its last assignment |
| Posiciones.Nombres | app.py:91-93 | every player id and team id has a name; a team id shows the team's name, over a player with the same id |
| Aplicacion.EditarRepiteNombre | app.py:130-138 | renaming player 2 of "Ana" and "Luis" to "Ana" is accepted and leaves two players named "Ana" |
| Aplicacion.EditarDuplicaNombre | app.py:130-138 | the same rename through the handler on a tournament with exactly those two players leaves two players named "Ana" |
| Aplicacion.LlaveSinglesUnaVez | app.py:179-189 | in round 1 of singles, the shuffled players at positions 2k and 2k+1 meet in match k and in no other one; an odd last player plays no match |
| Aplicacion.LlaveSinglesParticipantes | app.py:160-189 | every round-1 singles match pits two different selected players |
| Aplicacion.LlaveDobles | app.py:191-204 | every doubles team pairs two different selected players; the leftover players are in no team |
| Aplicacion.Avance | app.py:225-244 | an advance happens only when the latest round has matches |
| Aplicacion.AvanceCorrecto | app.py:237-244 | an advance happens exactly when the latest round has at least two matches, all decided; "incomplete" exactly when two or more are decided and some is not; an advance creates half as many matches as the round has |
| Aplicacion.AvanceDejaRondaNueva | app.py:246-259 | after an advance, the new matches form the latest round, one above the previous one, and are what the next advance reads |
| Aplicacion.Torneo.constructor | app.py:62-63 | a fresh database: three empty tables, counters at 1 |
| Aplicacion.Torneo.InsertarPartido | app.py:183-189 | a new match row gets the next id and the column defaults; nothing else changes |
| Aplicacion.Torneo.AgregarParejas | app.py:182-189 | the pairing loop appends exactly the pairing of the ids; the other tables are kept |
| Aplicacion.Torneo.CargarDobles | app.py:191-215 | the doubles loop leaves exactly the teams of the groups of four and one match between each group's two teams; both counters advance by the rows created |
| Aplicacion.Torneo.CrearLlaves | app.py:156-218 | too few players for the mode changes nothing; otherwise the old matches and teams are gone and only the new round 1 exists: n/2 singles matches, or 2·(n/4) teams and n/4 doubles matches, with the counters advanced by the rows created; the players are kept |
| Aplicacion.Torneo.AvanzarRonda | app.py:221-260 | the outcome is `Avance` of the matches before the call; no advance changes nothing; an advance appends exactly the next round, keeps every existing match and advances only the match counter |
| Aplicacion.Torneo.MarcarGanador | app.py:140-154 | an unknown id changes nothing; otherwise only that match changes, to `ConResultado` |
| Aplicacion.Torneo.Registrar | app.py:98-114 | an empty stripped name or an existing name changes nothing; otherwise an unselected player with the next id is appended; unique names are kept |
| Aplicacion.Torneo.EliminarJugador | app.py:117-127 | an unknown id changes nothing; otherwise exactly the player's row goes, the other players keep their order, every match with that id as local or visitor goes, and teams are kept |
| Aplicacion.Torneo.EditarJugador | app.py:130-138 | an unknown id or an empty stripped name changes nothing; otherwise only that player's name changes, without a duplicate check |
| Aplicacion.Torneo.EditarJugadorSinRepetir | app.py:130-138 | as `EditarJugador`, but a name another player has is also rejected, so unique names are kept |
| Aplicacion.Torneo.ToggleSeleccion | app.py:308-314 | an unknown id changes nothing; otherwise only that player's selection flag flips |
| Aplicacion.Torneo.LimpiarSeleccion | app.py:316-321 | every player is unselected, nothing else changes, and no player is selected afterwards |
| Aplicacion.Torneo.Reset | app.py:289-295 | every match is deleted; players, teams and counters are kept |
| Aplicacion.FiltrarPartidos | app.py:124 | the row-by-row delete leaves exactly the matches without the id |
| Aplicacion.FormarDobles | app.py:194-215 | the loop over groups of four builds exactly the doubles teams and their round-1 matches |
| Aplicacion.AgregarJugador | app.py:105-113 | appending a player with the next id and a new name keeps ids unique and fresh and names unique |
| Aplicacion.ReemplazarFila | app.py:133-136 | updating the row `query.get` found keeps ids unique and fresh, and no other row has that id |
| Aplicacion.RenombrarSinRepetir | app.py:136 | renaming to a name no other player has keeps names unique |
| Aplicacion.QuitarUno | app.py:125 | deleting the player's row keeps exactly the other rows, and ids stay unique |
| Aplicacion.SinSeleccionados | app.py:319 | with every flag cleared, the selection is empty |

## Left out

- Flask routing, redirects, templates and the flash messages: the model
  returns an outcome value where the application redirects.
- Login, `Usuario`, password hashing, the profile page and the default
  admin: authentication, which calls into libraries that are not part of
  this model.
- Avatar upload and file removal: file-system I/O.
- `random.shuffle`: the shuffled order is a parameter of `CrearLlaves`,
  required to be a permutation of the selected players.
- Form parsing: scores are integer parameters, so a non-numeric score
  (a `ValueError`, a server error) is not modelled, nor is a missing form
  field (`None.strip()`). The set detail is an opaque string.
- MarcarGanador: stores any integer score. A score outside SQLite's 64-bit
  INTEGER range makes the commit fail with `OverflowError`, so nothing is
  stored; that error path is not modelled, because scores are unbounded
  integers here.
- `get_or_404`: a missing match returns `false` and changes nothing.
- SQLAlchemy session mechanics (`add`, `flush`, `commit`): each handler
  is one atomic state change.
- SQLite gives a new row max(id)+1, so the id of a deleted newest row is
  reused, and ids restart at 1 after a wipe. The model's counters only
  grow, so a player registered after the newest player was deleted does
  not inherit that player's teams in the index count (app.py:84-88).
- The length limits of the string columns (`String(50)` and the others)
  are not enforced.
- Registros.Strip: its own contract states when the result is empty and that
  it is whitespace-free at both ends, not that it is the middle slice of the
  input; the contracts of QuitarIzquierda and QuitarDerecha state that.
- Posiciones.Nombres: requires unique ids in both tables, which the primary
  keys guarantee and `Torneo.Valid` keeps.
- The printing and the `db.metadata.clear()` at start-up are process
  plumbing.

## Findings

| source | as written | input that shows it | evidently intended | confidence | as-written member | corrected member |
|---|---|---|---|---|---|---|
| app.py:130-138 | `editar_jugador` renames a player to any non-empty name, including one another player already has | players 1 "Ana" and 2 "Luis"; renaming player 2 to "Ana" leaves two players named "Ana" | the duplicate check `registrar` makes (app.py:105-109) also applies to a rename | low, not executed | Aplicacion.EditarRepiteNombre, Aplicacion.EditarDuplicaNombre | Aplicacion.Torneo.EditarJugadorSinRepetir |
