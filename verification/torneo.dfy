/**
 The tournament database and the route handlers that change it. A
 `Torneo` holds the three tables in insertion order (the order in which
 SQLite returns rows to a query without ORDER BY) and, per table, the id the
 next inserted row receives. Each handler is a method whose contract gives
 the whole new state, in terms of the functions of `Registros` and `Llaves`,
 and keeps `Valid`: ids are unique and fresh, and every match belongs to
 round 1 or later and, once decided, was won by one of its two sides.
 */
module Aplicacion {
  import opened Registros
  import opened Llaves

  /** Outcome of `registrar`: the new row's id, or why the form was rejected. */
  datatype ResultadoRegistro = Registrado(id: int) | NombreVacio | NombreRepetido

  /** Outcome of `crear_llaves`: the number of first-round matches, or too few selected players. */
  datatype ResultadoLlaves = Creadas(partidos: nat) | FaltanJugadores

  /** Outcome of `avanzar_ronda`: each early redirect, or the number of matches created. */
  datatype ResultadoAvance = SinPartidos | FaltanGanadores | RondaIncompleta | Avanzada(partidos: nat)

  /** No two players share a name. `registrar` keeps this; `editar_jugador` does not. */
  predicate NombresUnicos(js: seq<Jugador>)
  {
    forall i, k :: 0 <= i < k < |js| ==> js[i].nombre != js[k].nombre
  }

  /**
   Renaming the second of two players to the first one's name is accepted
   by `editar_jugador` and leaves two players with the same name.
   */
  lemma EditarRepiteNombre()
    ensures var js := [Jugador(1, "Ana", false), Jugador(2, "Luis", false)];
      && NombresUnicos(js)
      && Strip("Ana") == "Ana"
      && !NombresUnicos(js[1 := js[1].(nombre := Strip("Ana"))])
  {
    var js := [Jugador(1, "Ana", false), Jugador(2, "Luis", false)];
    assert !EsEspacio('A') && !EsEspacio('a');
    assert js[1 := js[1].(nombre := "Ana")][0].nombre == js[1 := js[1].(nombre := "Ana")][1].nombre;
  }

  /**
   The same rename through the handler itself: with players 1 "Ana" and
   2 "Luis", renaming player 2 to "Ana" leaves two players named "Ana".
   */
  method EditarDuplicaNombre(t: Torneo)
    requires t.Valid() && t.jugadores == [Jugador(1, "Ana", false), Jugador(2, "Luis", false)]
    modifies t
    ensures !NombresUnicos(t.jugadores)
  {
    ghost var antes := t.jugadores;
    assert Strip("Ana") == "Ana" by {
      EditarRepiteNombre();
    }
    assert antes[1] in antes && antes[1].id == 2;
    var editado := t.EditarJugador(2, "Ana");
    SegundoRenombrado(antes, editado, t.jugadores);
  }

  /** The table `editar_jugador` leaves behind in `EditarDuplicaNombre`. */
  lemma SegundoRenombrado(antes: seq<Jugador>, editado: bool, despues: seq<Jugador>)
    requires antes == [Jugador(1, "Ana", false), Jugador(2, "Luis", false)]
    requires editado && |despues| == |antes|
    requires forall i :: 0 <= i < |despues| ==>
      despues[i] == (if editado && antes[i].id == 2 then antes[i].(nombre := Strip("Ana")) else antes[i])
    ensures !NombresUnicos(despues)
  {
    EditarRepiteNombre();
    assert despues[0] == antes[0];
    assert despues[1] == antes[1].(nombre := "Ana");
  }

  /** Some selected player of `js` has id `id`. */
  predicate EsSeleccionado(js: seq<Jugador>, id: int)
  {
    exists a :: a in js && a.seleccionado && a.id == id
  }

  /**
   Round 1 of singles over a shuffle of the selected players: the players
   at positions 2k and 2k+1 meet in match k and in no other one, and an odd
   last player plays no match.
   */
  lemma LlaveSinglesUnaVez(js: seq<Jugador>, orden: seq<Jugador>, primerId: int)
    requires Distintos(IdsJugadores(js))
    requires multiset(orden) == multiset(Seleccionados(js))
    ensures var r := Emparejar(IdsJugadores(orden), 1, SINGLES, primerId);
      forall j, k :: 0 <= j < |orden| && 0 <= k < |r| ==>
        (Involucra(r[k], orden[j].id) <==> j < 2 * |r| && k == j / 2)
  {
    OrdenSinRepetidos(js, orden);
    EmparejarJugadores(orden, 1, SINGLES, primerId);
  }

  /** Every round-1 singles match pits two different selected players. */
  lemma LlaveSinglesParticipantes(js: seq<Jugador>, orden: seq<Jugador>, primerId: int)
    requires Distintos(IdsJugadores(js))
    requires multiset(orden) == multiset(Seleccionados(js))
    ensures forall p :: p in Emparejar(IdsJugadores(orden), 1, SINGLES, primerId) ==>
      (p.idLocal != p.idVisitante && EsSeleccionado(js, p.idLocal) && EsSeleccionado(js, p.idVisitante))
  {
    var ids := IdsJugadores(orden);
    var r := Emparejar(ids, 1, SINGLES, primerId);
    OrdenSinRepetidos(js, orden);
    EmparejarParticipantes(ids, 1, SINGLES, primerId);
    forall p | p in r ensures EsSeleccionado(js, p.idLocal) && EsSeleccionado(js, p.idVisitante) {
      var x :| 0 <= x < |ids| && ids[x] == p.idLocal;
      var y :| 0 <= y < |ids| && ids[y] == p.idVisitante;
      assert orden[x] in orden && orden[y] in orden;
    }
  }

  /**
   Round 1 of doubles over a shuffle of the selected players: each team
   pairs two different selected players, and the 1 to 3 players left over
   after the last full group of four are in no team.
   */
  lemma LlaveDobles(js: seq<Jugador>, orden: seq<Jugador>, primerId: int)
    requires Distintos(IdsJugadores(js))
    requires multiset(orden) == multiset(Seleccionados(js))
    ensures forall e :: e in EquiposDobles(orden, primerId) ==>
      (e.jugador1Id != e.jugador2Id && EsSeleccionado(js, e.jugador1Id) && EsSeleccionado(js, e.jugador2Id))
    ensures forall j, e :: 4 * (|orden| / 4) <= j < |orden| && e in EquiposDobles(orden, primerId) ==>
      (e.jugador1Id != orden[j].id && e.jugador2Id != orden[j].id)
  {
    var es := EquiposDobles(orden, primerId);
    OrdenSinRepetidos(js, orden);
    EquiposDoblesMiembros(orden, primerId);
    EquiposDoblesDeOrden(orden, primerId);
    forall e | e in es ensures EsSeleccionado(js, e.jugador1Id) && EsSeleccionado(js, e.jugador2Id) {
      var a :| a in orden && a.id == e.jugador1Id;
      var b :| b in orden && b.id == e.jugador2Id;
      assert a in js && b in js;
    }
  }

  /**
   The outcome of `avanzar_ronda` on the matches table `ps`: the latest
   round is empty, has fewer than two winners, is not finished, or is
   paired into the next round.
   */
  function Avance(ps: seq<Partido>): (r: ResultadoAvance)
    ensures r.Avanzada? ==> RondaActual(ps) != []
  {
    var ronda := RondaActual(ps);
    var ganadores := Ganadores(ronda);
    if ronda == [] then SinPartidos
    else if |ganadores| < 2 then FaltanGanadores
    else if |ganadores| != |ronda| then RondaIncompleta
    else Avanzada(|ronda| / 2)
  }

  /**
   A round is paired into the next exactly when it has at least two matches
   and all of them are decided; it is reported incomplete exactly when some
   match is undecided although two or more have winners.
   */
  lemma AvanceCorrecto(ps: seq<Partido>)
    ensures var ronda := RondaActual(ps);
      Avance(ps).Avanzada? <==> |ronda| >= 2 && forall k :: 0 <= k < |ronda| ==> ronda[k].ganadorId.Some?
    ensures var ronda := RondaActual(ps);
      Avance(ps) == RondaIncompleta <==>
        |Ganadores(ronda)| >= 2 && exists k :: 0 <= k < |ronda| && ronda[k].ganadorId.None?
    ensures Avance(ps).Avanzada? ==> Avance(ps).partidos == |RondaActual(ps)| / 2
  {
    GanadoresCompletos(RondaActual(ps));
  }

  /**
   After an advance, the appended matches form the latest round, one above
   the previous latest, and they are exactly what the next advance reads.
   */
  lemma AvanceDejaRondaNueva(ps: seq<Partido>, sig: int)
    requires forall p :: p in ps ==> p.ronda >= 1
    requires Avance(ps).Avanzada?
    ensures UltimaRonda(ps + NuevaRonda(ps, sig)) == UltimaRonda(ps) + 1
    ensures RondaActual(ps + NuevaRonda(ps, sig)) == NuevaRonda(ps, sig)
  {
    AvanceCorrecto(ps);
    NuevaRondaEsUltima(ps, NuevaRonda(ps, sig));
  }

  /** Player ids are unique and below the next id to hand out. */
  ghost predicate JugadoresValidos(js: seq<Jugador>, sig: int)
  {
    Distintos(IdsJugadores(js)) && forall j :: j in js ==> j.id < sig
  }

  /** Team ids are unique and below the next id to hand out. */
  ghost predicate EquiposValidos(es: seq<Equipo>, sig: int)
  {
    Distintos(IdsEquipos(es)) && forall e :: e in es ==> e.id < sig
  }

  /**
   Match ids are unique and below the next id to hand out; every match is
   in a round from 1 on and its winner, if any, is one of its two sides.
   */
  ghost predicate PartidosValidos(ps: seq<Partido>, sig: int)
  {
    && Distintos(IdsPartidos(ps))
    && (forall p :: p in ps ==> p.id < sig)
    && (forall p :: p in ps ==> p.ronda >= 1 && GanadorValido(p))
  }

  class Torneo {
    var jugadores: seq<Jugador>
    var equipos: seq<Equipo>
    var partidos: seq<Partido>
    var sigJugadorId: int
    var sigEquipoId: int
    var sigPartidoId: int

    ghost predicate Valid()
      reads this
    {
      && JugadoresValidos(jugadores, sigJugadorId)
      && EquiposValidos(equipos, sigEquipoId)
      && PartidosValidos(partidos, sigPartidoId)
    }

    /** `db.create_all()` on a fresh database: three empty tables, ids starting at 1. */
    constructor ()
      ensures Valid()
      ensures jugadores == [] && equipos == [] && partidos == []
      ensures sigJugadorId == 1 && sigEquipoId == 1 && sigPartidoId == 1
    {
      jugadores, equipos, partidos := [], [], [];
      sigJugadorId, sigEquipoId, sigPartidoId := 1, 1, 1;
    }

    /** `db.session.add(Partido(...))`: the row gets the next id and the column defaults. */
    method InsertarPartido(local: int, visitante: int, ronda: int, modo: string)
      requires Valid() && ronda >= 1
      modifies this
      ensures Valid()
      ensures partidos == old(partidos) + [NuevoPartido(old(sigPartidoId), local, visitante, ronda, modo)]
      ensures sigPartidoId == old(sigPartidoId) + 1
      ensures jugadores == old(jugadores) && equipos == old(equipos)
      ensures sigJugadorId == old(sigJugadorId) && sigEquipoId == old(sigEquipoId)
    {
      var p := NuevoPartido(sigPartidoId, local, visitante, ronda, modo);
      var r := partidos + [p];
      forall i, k | 0 <= i < k < |r| ensures IdsPartidos(r)[i] != IdsPartidos(r)[k] {
        assert IdsPartidos(r)[i] == r[i].id && IdsPartidos(r)[k] == r[k].id;
        assert r[i] == partidos[i] && r[i] in partidos;
        if k < |partidos| {
          assert IdsPartidos(partidos)[i] == r[i].id && IdsPartidos(partidos)[k] == r[k].id;
        }
      }
      partidos := r;
      sigPartidoId := sigPartidoId + 1;
    }

    /**
     The pairing loop `for i in range(0, len(ids) - 1, 2)` shared by
     `crear_llaves` (singles) and `avanzar_ronda`: ids 2k and 2k+1 meet in
     the k-th new match; an odd last id gets no match.
     */
    method AgregarParejas(ids: seq<int>, ronda: int, modo: string)
      requires Valid() && ronda >= 1
      modifies this
      ensures Valid()
      ensures partidos == old(partidos) + Emparejar(ids, ronda, modo, old(sigPartidoId))
      ensures sigPartidoId == old(sigPartidoId) + |ids| / 2
      ensures jugadores == old(jugadores) && equipos == old(equipos)
      ensures sigJugadorId == old(sigJugadorId) && sigEquipoId == old(sigEquipoId)
    {
      var k := 0;
      while k < |ids| / 2
        invariant 0 <= k <= |ids| / 2
        invariant Valid()
        invariant |partidos| == |old(partidos)| + k && partidos[..|old(partidos)|] == old(partidos)
        invariant forall m :: 0 <= m < k ==>
          partidos[|old(partidos)| + m] == NuevoPartido(old(sigPartidoId) + m, ids[2 * m], ids[2 * m + 1], ronda, modo)
        invariant sigPartidoId == old(sigPartidoId) + k
        invariant jugadores == old(jugadores) && equipos == old(equipos)
        invariant sigJugadorId == old(sigJugadorId) && sigEquipoId == old(sigEquipoId)
      {
        InsertarPartido(ids[2 * k], ids[2 * k + 1], ronda, modo);
        k := k + 1;
      }
      var nuevos := Emparejar(ids, ronda, modo, old(sigPartidoId));
      forall m | 0 <= m < |nuevos| ensures partidos[|old(partidos)| + m] == nuevos[m] {
        EmparejarEn(ids, ronda, modo, old(sigPartidoId), m);
      }
      assert partidos == old(partidos) + nuevos;
    }

    /**
     The doubles branch of `crear_llaves`: the teams and matches of
     `FormarDobles`, with ids from the counters, replace both tables.
     */
    method CargarDobles(orden: seq<Jugador>)
      requires Valid()
      modifies this
      ensures Valid()
      ensures equipos == EquiposDobles(orden, old(sigEquipoId))
      ensures partidos == Emparejar(IdsEquipos(equipos), 1, DOBLES, old(sigPartidoId))
      ensures jugadores == old(jugadores) && sigJugadorId == old(sigJugadorId)
      ensures sigEquipoId == old(sigEquipoId) + |equipos| && sigPartidoId == old(sigPartidoId) + |partidos|
    {
      var nuevosEquipos, nuevosPartidos := FormarDobles(orden, sigEquipoId, sigPartidoId);
      EquiposDoblesIds(orden, sigEquipoId);
      EmparejarIds(IdsEquipos(nuevosEquipos), 1, DOBLES, sigPartidoId);
      TablasNuevasValidas(nuevosEquipos, nuevosPartidos, sigEquipoId, sigPartidoId);
      equipos, partidos := nuevosEquipos, nuevosPartidos;
      sigEquipoId := sigEquipoId + |nuevosEquipos|;
      sigPartidoId := sigPartidoId + |nuevosPartidos|;
    }

    /**
     `crear_llaves(modo)` with `orden` the selected players after
     `random.shuffle`. Too few selected players for the mode changes nothing.
     Otherwise both the matches and the teams are wiped; singles pairs
     consecutive players of `orden`; doubles forms two teams from each full
     group of four and one match between them; any other mode creates
     nothing. The players' table, selection flags included, is left alone.
     */
    method CrearLlaves(modo: string, orden: seq<Jugador>) returns (res: ResultadoLlaves)
      requires Valid()
      requires multiset(orden) == multiset(Seleccionados(jugadores))
      modifies this
      ensures Valid()
      ensures jugadores == old(jugadores) && sigJugadorId == old(sigJugadorId)
      ensures (modo == SINGLES && |orden| < 2) || (modo == DOBLES && |orden| < 4) ==>
        res == FaltanJugadores && unchanged(this)
      ensures modo == SINGLES && |orden| >= 2 ==>
        && res == Creadas(|orden| / 2)
        && equipos == [] && sigEquipoId == old(sigEquipoId)
        && partidos == Emparejar(IdsJugadores(orden), 1, SINGLES, old(sigPartidoId))
        && sigPartidoId == old(sigPartidoId) + |partidos|
      ensures modo == DOBLES && |orden| >= 4 ==>
        && res == Creadas(|orden| / 4)
        && equipos == EquiposDobles(orden, old(sigEquipoId))
        && partidos == Emparejar(IdsEquipos(equipos), 1, DOBLES, old(sigPartidoId))
        && sigEquipoId == old(sigEquipoId) + |equipos| && sigPartidoId == old(sigPartidoId) + |partidos|
      ensures modo != SINGLES && modo != DOBLES ==>
        res == Creadas(0) && equipos == [] && partidos == []
        && sigEquipoId == old(sigEquipoId) && sigPartidoId == old(sigPartidoId)
    {
      var seleccionados := Seleccionados(jugadores);
      var cant := |seleccionados|;
      assert cant == |orden| by {
        assert |multiset(orden)| == |multiset(seleccionados)|;
      }
      if modo == SINGLES && cant < 2 {
        return FaltanJugadores;
      }
      if modo == DOBLES && cant < 4 {
        return FaltanJugadores;
      }
      partidos := [];
      equipos := [];
      if modo == SINGLES {
        AgregarParejas(IdsJugadores(orden), 1, SINGLES);
        res := Creadas(cant / 2);
      } else if modo == DOBLES {
        CargarDobles(orden);
        res := Creadas(cant / 4);
      } else {
        res := Creadas(0);
      }
    }

    /**
     `avanzar_ronda`: reads the matches of the latest round (`max(ronda) or
     1`). It stops when that round is empty, when fewer than two of its
     matches have a winner, or when some match is still undecided;
     otherwise it pairs the winners in order into round `ultima + 1`, in the
     mode of the round's first match, which then becomes the latest round.
     */
    method AvanzarRonda() returns (res: ResultadoAvance)
      requires Valid()
      modifies this
      ensures Valid()
      ensures res == Avance(old(partidos))
      ensures !res.Avanzada? ==> unchanged(this)
      ensures res.Avanzada? ==> partidos == old(partidos) + NuevaRonda(old(partidos), old(sigPartidoId))
      ensures res.Avanzada? ==> sigPartidoId == old(sigPartidoId) + |NuevaRonda(old(partidos), old(sigPartidoId))|
      ensures jugadores == old(jugadores) && equipos == old(equipos)
      ensures sigJugadorId == old(sigJugadorId) && sigEquipoId == old(sigEquipoId)
    {
      var ultima := UltimaRonda(partidos);
      var anteriores := RondaActual(partidos);
      if anteriores == [] {
        return SinPartidos;
      }
      var modoActual := anteriores[0].modo;
      var ganadores := Ganadores(anteriores);
      if |ganadores| < 2 {
        return FaltanGanadores;
      }
      if |ganadores| != |anteriores| {
        return RondaIncompleta;
      }
      UltimaRondaPositiva(partidos);
      ghost var nuevos := NuevaRonda(partidos, sigPartidoId);
      assert nuevos == Emparejar(ganadores, ultima + 1, modoActual, sigPartidoId);
      AgregarParejas(ganadores, ultima + 1, modoActual);
      res := Avanzada(|anteriores| / 2);
    }

    /**
     `marcar_ganador`: an unknown match id is a 404 and changes nothing.
     Otherwise the match gets both scores and the detail string, and the
     local side wins exactly when its score is strictly greater; a tie goes
     to the visitor.
     */
    method MarcarGanador(partidoId: int, sLocal: int, sVisitante: int, detalle: string) returns (encontrado: bool)
      requires Valid()
      modifies this
      ensures Valid()
      ensures encontrado <==> exists p :: p in old(partidos) && p.id == partidoId
      ensures !encontrado ==> unchanged(this)
      ensures jugadores == old(jugadores) && equipos == old(equipos)
      ensures sigJugadorId == old(sigJugadorId) && sigEquipoId == old(sigEquipoId) && sigPartidoId == old(sigPartidoId)
      ensures |partidos| == |old(partidos)|
      ensures forall i :: 0 <= i < |partidos| && old(partidos)[i].id != partidoId ==> partidos[i] == old(partidos)[i]
      ensures forall i :: 0 <= i < |partidos| && old(partidos)[i].id == partidoId ==>
        partidos[i] == ConResultado(old(partidos)[i], sLocal, sVisitante, detalle)
    {
      var k := PartidoPorId(partidos, partidoId);
      if k.None? {
        assert forall p :: p in partidos ==> p.id != partidoId;
        return false;
      }
      var i := k.value;
      var nuevo := ConResultado(partidos[i], sLocal, sVisitante, detalle);
      var r := partidos[i := nuevo];
      forall m | 0 <= m < |r| && m != i ensures partidos[m].id != partidoId {
        assert IdsPartidos(partidos)[m] == partidos[m].id && IdsPartidos(partidos)[i] == partidos[i].id;
      }
      forall a, b | 0 <= a < b < |r| ensures IdsPartidos(r)[a] != IdsPartidos(r)[b] {
        assert IdsPartidos(r)[a] == IdsPartidos(partidos)[a] && IdsPartidos(r)[b] == IdsPartidos(partidos)[b];
      }
      forall p | p in r ensures p.id < sigPartidoId && p.ronda >= 1 && GanadorValido(p) {
        var m :| 0 <= m < |r| && r[m] == p;
        assert m != i ==> p == partidos[m];
        assert partidos[m] in partidos;
      }
      partidos := r;
      encontrado := true;
    }

    /**
     `registrar`: the submitted name is stripped; an empty result or a name
     already in the table is rejected; otherwise a new unselected player
     is appended with the next id. Unique names are preserved.
     */
    method Registrar(nombreForm: string) returns (res: ResultadoRegistro)
      requires Valid()
      modifies this
      ensures Valid()
      ensures old(NombresUnicos(jugadores)) ==> NombresUnicos(jugadores)
      ensures var nombre := Strip(nombreForm);
        if nombre == [] then res == NombreVacio && unchanged(this)
        else if exists j :: j in old(jugadores) && j.nombre == nombre then res == NombreRepetido && unchanged(this)
        else
          && res == Registrado(old(sigJugadorId))
          && jugadores == old(jugadores) + [Jugador(old(sigJugadorId), nombre, false)]
          && sigJugadorId == old(sigJugadorId) + 1
          && equipos == old(equipos) && partidos == old(partidos)
          && sigEquipoId == old(sigEquipoId) && sigPartidoId == old(sigPartidoId)
    {
      var nombre := Strip(nombreForm);
      if nombre == [] {
        return NombreVacio;
      }
      var existente := PorNombre(jugadores, nombre);
      if existente.Some? {
        assert jugadores[existente.value] in jugadores;
        return NombreRepetido;
      }
      assert forall j :: j in jugadores ==> j.nombre != nombre;
      var nuevo := Jugador(sigJugadorId, nombre, false);
      var r := jugadores + [nuevo];
      AgregarJugador(jugadores, sigJugadorId, nombre);
      jugadores := r;
      sigJugadorId := sigJugadorId + 1;
      res := Registrado(nuevo.id);
    }

    /**
     `eliminar_jugador`: an unknown id changes nothing. Otherwise every
     match with that id as local or visitor is deleted (whatever its mode:
     a doubles match whose team id equals the player id goes too), and then
     the player's row. Teams are kept.
     */
    method EliminarJugador(id: int) returns (eliminado: bool)
      requires Valid()
      modifies this
      ensures Valid()
      ensures eliminado <==> exists j :: j in old(jugadores) && j.id == id
      ensures !eliminado ==> unchanged(this)
      ensures eliminado ==>
        && partidos == SinJugador(old(partidos), id)
        && |jugadores| == |old(jugadores)| - 1
        && (forall j :: j in jugadores <==> j in old(jugadores) && j.id != id)
        && exists k :: 0 <= k < |old(jugadores)| && old(jugadores)[k].id == id
             && jugadores == old(jugadores)[..k] + old(jugadores)[k + 1..]
      ensures equipos == old(equipos)
      ensures sigJugadorId == old(sigJugadorId) && sigEquipoId == old(sigEquipoId) && sigPartidoId == old(sigPartidoId)
    {
      var encontrado := PorId(jugadores, id);
      if encontrado.None? {
        assert forall j :: j in jugadores ==> j.id != id;
        return false;
      }
      var k := encontrado.value;
      var quedan := FiltrarPartidos(partidos, id);
      SinJugadorIdsDistintos(partidos, id);
      partidos := quedan;
      QuitarUno(jugadores, k);
      jugadores := jugadores[..k] + jugadores[k + 1..];
      assert old(jugadores)[k].id == id;
      eliminado := true;
    }

    /**
     `editar_jugador`: the new name is stripped; an unknown id or an empty
     name changes nothing; otherwise the player is renamed. The name is not
     checked against the other players.
     */
    method EditarJugador(id: int, nuevoForm: string) returns (editado: bool)
      requires Valid()
      modifies this
      ensures Valid()
      ensures var nuevo := Strip(nuevoForm);
        editado <==> (exists j :: j in old(jugadores) && j.id == id) && nuevo != []
      ensures !editado ==> unchanged(this)
      ensures equipos == old(equipos) && partidos == old(partidos)
      ensures sigJugadorId == old(sigJugadorId) && sigEquipoId == old(sigEquipoId) && sigPartidoId == old(sigPartidoId)
      ensures |jugadores| == |old(jugadores)|
      ensures forall i :: 0 <= i < |jugadores| ==>
        jugadores[i] == (if editado && old(jugadores)[i].id == id then old(jugadores)[i].(nombre := Strip(nuevoForm)) else old(jugadores)[i])
    {
      var encontrado := PorId(jugadores, id);
      var nuevo := Strip(nuevoForm);
      if encontrado.None? || nuevo == [] {
        assert encontrado.None? ==> forall j :: j in jugadores ==> j.id != id;
        return false;
      }
      var k := encontrado.value;
      assert jugadores[k] in jugadores;
      ReemplazarFila(jugadores, k, jugadores[k].(nombre := nuevo), sigJugadorId);
      jugadores := jugadores[k := jugadores[k].(nombre := nuevo)];
      editado := true;
    }

    /**
     `editar_jugador` as its duplicate check in `registrar` suggests it was
     meant to be: a name already used by another player is also rejected,
     so unique names are preserved.
     */
    method EditarJugadorSinRepetir(id: int, nuevoForm: string) returns (editado: bool)
      requires Valid()
      modifies this
      ensures Valid()
      ensures old(NombresUnicos(jugadores)) ==> NombresUnicos(jugadores)
      ensures var nuevo := Strip(nuevoForm);
        editado <==> && (exists j :: j in old(jugadores) && j.id == id) && nuevo != []
                     && !(exists j :: j in old(jugadores) && j.id != id && j.nombre == nuevo)
      ensures !editado ==> unchanged(this)
      ensures equipos == old(equipos) && partidos == old(partidos)
      ensures sigJugadorId == old(sigJugadorId) && sigEquipoId == old(sigEquipoId) && sigPartidoId == old(sigPartidoId)
      ensures |jugadores| == |old(jugadores)|
      ensures forall i :: 0 <= i < |jugadores| ==>
        jugadores[i] == (if editado && old(jugadores)[i].id == id then old(jugadores)[i].(nombre := Strip(nuevoForm)) else old(jugadores)[i])
    {
      var encontrado := PorId(jugadores, id);
      var nuevo := Strip(nuevoForm);
      if encontrado.None? || nuevo == [] {
        assert encontrado.None? ==> forall j :: j in jugadores ==> j.id != id;
        return false;
      }
      var otro := Primero(jugadores, (j: Jugador) => j.id != id && j.nombre == nuevo);
      if otro.Some? {
        assert jugadores[otro.value] in jugadores;
        return false;
      }
      assert forall j :: j in jugadores && j.id != id ==> j.nombre != nuevo by {
        forall j | j in jugadores && j.id != id ensures j.nombre != nuevo {
          var m :| 0 <= m < |jugadores| && jugadores[m] == j;
        }
      }
      var k := encontrado.value;
      assert jugadores[k] in jugadores;
      ReemplazarFila(jugadores, k, jugadores[k].(nombre := nuevo), sigJugadorId);
      if NombresUnicos(jugadores) {
        RenombrarSinRepetir(jugadores, k, nuevo);
      }
      jugadores := jugadores[k := jugadores[k].(nombre := nuevo)];
      editado := true;
    }

    /** `toggle_seleccion`: flips the selection flag of the player with that id, if any. */
    method ToggleSeleccion(id: int) returns (encontrado: bool)
      requires Valid()
      modifies this
      ensures Valid()
      ensures encontrado <==> exists j :: j in old(jugadores) && j.id == id
      ensures !encontrado ==> unchanged(this)
      ensures equipos == old(equipos) && partidos == old(partidos)
      ensures sigJugadorId == old(sigJugadorId) && sigEquipoId == old(sigEquipoId) && sigPartidoId == old(sigPartidoId)
      ensures |jugadores| == |old(jugadores)|
      ensures forall i :: 0 <= i < |jugadores| ==>
        jugadores[i] == (if old(jugadores)[i].id == id then old(jugadores)[i].(seleccionado := !old(jugadores)[i].seleccionado) else old(jugadores)[i])
    {
      var k := PorId(jugadores, id);
      if k.None? {
        assert forall j :: j in jugadores ==> j.id != id;
        return false;
      }
      var i := k.value;
      assert jugadores[i] in jugadores;
      ReemplazarFila(jugadores, i, jugadores[i].(seleccionado := !jugadores[i].seleccionado), sigJugadorId);
      jugadores := jugadores[i := jugadores[i].(seleccionado := !jugadores[i].seleccionado)];
      encontrado := true;
    }

    /** `limpiar_seleccion`: every player is unselected; nothing else changes. */
    method LimpiarSeleccion()
      requires Valid()
      modifies this
      ensures Valid()
      ensures Seleccionados(jugadores) == []
      ensures |jugadores| == |old(jugadores)|
      ensures forall i :: 0 <= i < |jugadores| ==> jugadores[i] == old(jugadores)[i].(seleccionado := false)
      ensures equipos == old(equipos) && partidos == old(partidos)
      ensures sigJugadorId == old(sigJugadorId) && sigEquipoId == old(sigEquipoId) && sigPartidoId == old(sigPartidoId)
    {
      var i := 0;
      while i < |jugadores|
        invariant 0 <= i <= |jugadores| == |old(jugadores)|
        invariant forall m :: 0 <= m < i ==> jugadores[m] == old(jugadores)[m].(seleccionado := false)
        invariant forall m :: i <= m < |jugadores| ==> jugadores[m] == old(jugadores)[m]
        invariant equipos == old(equipos) && partidos == old(partidos)
        invariant sigJugadorId == old(sigJugadorId) && sigEquipoId == old(sigEquipoId) && sigPartidoId == old(sigPartidoId)
      {
        jugadores := jugadores[i := jugadores[i].(seleccionado := false)];
        i := i + 1;
      }
      assert IdsJugadores(jugadores) == IdsJugadores(old(jugadores));
      forall j | j in jugadores ensures j.id < sigJugadorId && !j.seleccionado {
        var m :| 0 <= m < |jugadores| && jugadores[m] == j;
        assert old(jugadores)[m] in old(jugadores);
      }
      SinSeleccionados(jugadores);
    }

    /** `reset`: deletes every match; players, teams and ids are kept. */
    method Reset()
      requires Valid()
      modifies this
      ensures Valid()
      ensures partidos == []
      ensures jugadores == old(jugadores) && equipos == old(equipos)
      ensures sigJugadorId == old(sigJugadorId) && sigEquipoId == old(sigEquipoId) && sigPartidoId == old(sigPartidoId)
    {
      partidos := [];
    }
  }

  /**
   The query `Partido.query.filter(id_local == id | id_visitante == id).delete()`
   as a scan of the table: the rows that do not involve `id`, in order.
   */
  method FiltrarPartidos(ps: seq<Partido>, id: int) returns (quedan: seq<Partido>)
    ensures quedan == SinJugador(ps, id)
  {
    quedan := [];
    var i := 0;
    while i < |ps|
      invariant 0 <= i <= |ps|
      invariant quedan == SinJugador(ps[..i], id)
    {
      assert ps[..i + 1] == ps[..i] + [ps[i]];
      SinJugadorConcat(ps[..i], [ps[i]], id);
      assert [ps[i]][1..] == [];
      assert SinJugador([ps[i]], id) == if Involucra(ps[i], id) then [] else [ps[i]];
      if !Involucra(ps[i], id) {
        quedan := quedan + [ps[i]];
      }
      i := i + 1;
    }
    assert ps[..i] == ps;
  }

  lemma GrupoCompleto(n: nat, k: nat)
    requires k < n / 4
    ensures 4 * k + 4 <= n
  {
  }

  /**
   The doubles loop of `crear_llaves`: each full group of four players of
   `orden` gives two teams, with the next two team ids, and one round-1
   match between them, with the next match id.
   */
  method FormarDobles(orden: seq<Jugador>, primerEquipoId: int, primerPartidoId: int)
    returns (es: seq<Equipo>, ps: seq<Partido>)
    ensures es == EquiposDobles(orden, primerEquipoId)
    ensures ps == Emparejar(IdsEquipos(es), 1, DOBLES, primerPartidoId)
  {
    ghost var todos := EquiposDobles(orden, primerEquipoId);
    es, ps := [], [];
    var k := 0;
    while k < |orden| / 4
      invariant 0 <= k <= |orden| / 4
      invariant es == todos[..2 * k]
      invariant ps == Emparejar(IdsEquipos(es), 1, DOBLES, primerPartidoId)
    {
      PasoEquipos(orden, primerEquipoId, k);
      var i := 4 * k;
      var a := Equipo(primerEquipoId + 2 * k, NombreEquipo(orden[i], orden[i + 1]), orden[i].id, orden[i + 1].id);
      var b := Equipo(primerEquipoId + 2 * k + 1, NombreEquipo(orden[i + 2], orden[i + 3]), orden[i + 2].id, orden[i + 3].id);
      ghost var ids := IdsEquipos(es);
      PasoDobles(ids, a.id, b.id, k, primerPartidoId);
      es := es + [a, b];
      assert IdsEquipos(es) == ids + [a.id, b.id];
      ps := ps + [NuevoPartido(primerPartidoId + k, a.id, b.id, 1, DOBLES)];
      k := k + 1;
    }
    assert todos[..2 * k] == todos;
  }

  /**
   Rows numbered consecutively from fresh counters have unique ids below
   the advanced counters; new matches are undecided round-1 matches.
   */
  lemma TablasNuevasValidas(es: seq<Equipo>, ps: seq<Partido>, primerEquipoId: int, primerPartidoId: int)
    requires forall t :: 0 <= t < |es| ==> es[t].id == primerEquipoId + t
    requires forall k :: 0 <= k < |ps| ==> ps[k].id == primerPartidoId + k
    requires forall p :: p in ps ==> p.ronda == 1 && p.ganadorId == None
    ensures Distintos(IdsEquipos(es)) && Distintos(IdsPartidos(ps))
    ensures forall e :: e in es ==> e.id < primerEquipoId + |es|
    ensures forall p :: p in ps ==> p.id < primerPartidoId + |ps| && p.ronda >= 1 && GanadorValido(p)
  {
    forall i, j | 0 <= i < j < |es| ensures IdsEquipos(es)[i] != IdsEquipos(es)[j] {
      assert IdsEquipos(es)[i] == es[i].id && IdsEquipos(es)[j] == es[j].id;
    }
    forall i, j | 0 <= i < j < |ps| ensures IdsPartidos(ps)[i] != IdsPartidos(ps)[j] {
      assert IdsPartidos(ps)[i] == ps[i].id && IdsPartidos(ps)[j] == ps[j].id;
    }
  }

  /** One more group of the doubles loop adds exactly the next match of the pairing. */
  lemma PasoDobles(ids: seq<int>, x: int, y: int, k: nat, primerId: int)
    requires |ids| == 2 * k
    ensures Emparejar(ids + [x, y], 1, DOBLES, primerId)
         == Emparejar(ids, 1, DOBLES, primerId) + [NuevoPartido(primerId + k, x, y, 1, DOBLES)]
  {
    MitadDelDoble(k);
    EmparejarAgregar(ids, x, y, 1, DOBLES, primerId);
  }

  /** One more group of the doubles loop adds exactly the next two teams. */
  lemma PasoEquipos(orden: seq<Jugador>, primerId: int, k: nat)
    requires k < |orden| / 4
    ensures 4 * k + 4 <= |orden|
    ensures var todos := EquiposDobles(orden, primerId);
      todos[..2 * k + 2] == todos[..2 * k]
        + [Equipo(primerId + 2 * k, NombreEquipo(orden[4 * k], orden[4 * k + 1]), orden[4 * k].id, orden[4 * k + 1].id),
           Equipo(primerId + 2 * k + 1, NombreEquipo(orden[4 * k + 2], orden[4 * k + 3]), orden[4 * k + 2].id, orden[4 * k + 3].id)]
  {
    GrupoCompleto(|orden|, k);
    var todos := EquiposDobles(orden, primerId);
    EquiposDoblesEn(orden, primerId, k);
    PrefijoCrece(todos, 2 * k);
    PrefijoCrece(todos, 2 * k + 1);
  }

  lemma MitadDelDoble(k: nat)
    ensures (2 * k) % 2 == 0 && (2 * k) / 2 == k
  {
  }

  lemma PrefijoCrece<T>(s: seq<T>, n: nat)
    requires n < |s|
    ensures s[..n + 1] == s[..n] + [s[n]]
  {
  }

  /** With unique ids, the row `query.get(id)` finds is the only one with that id. */
  lemma MismoIdMismaFila(js: seq<Jugador>, k: nat)
    requires Distintos(IdsJugadores(js)) && k < |js|
    ensures forall i :: 0 <= i < |js| && js[i].id == js[k].id ==> i == k
  {
    forall i | 0 <= i < |js| && js[i].id == js[k].id ensures i == k {
      assert IdsJugadores(js)[i] == js[i].id && IdsJugadores(js)[k] == js[k].id;
    }
  }

  /**
   Appending a player with the next id keeps the ids unique and below the
   advanced counter, and a name nobody has keeps the names unique.
   */
  lemma AgregarJugador(js: seq<Jugador>, sig: int, nombre: string)
    requires JugadoresValidos(js, sig)
    requires forall j :: j in js ==> j.nombre != nombre
    ensures JugadoresValidos(js + [Jugador(sig, nombre, false)], sig + 1)
    ensures NombresUnicos(js) ==> NombresUnicos(js + [Jugador(sig, nombre, false)])
  {
    var r := js + [Jugador(sig, nombre, false)];
    forall i, k | 0 <= i < k < |r|
      ensures IdsJugadores(r)[i] != IdsJugadores(r)[k]
      ensures NombresUnicos(js) ==> r[i].nombre != r[k].nombre
    {
      assert IdsJugadores(r)[i] == r[i].id && IdsJugadores(r)[k] == r[k].id;
      assert r[i] == js[i] && r[i] in js;
      if k < |js| {
        assert IdsJugadores(js)[i] == r[i].id && IdsJugadores(js)[k] == r[k].id;
      }
    }
  }

  /**
   Replacing the row at `k` by one with the same id keeps the ids unique
   and below the counter; with unique ids, no other row has that id.
   */
  lemma ReemplazarFila(js: seq<Jugador>, k: nat, nueva: Jugador, sig: int)
    requires JugadoresValidos(js, sig) && k < |js| && nueva.id == js[k].id
    ensures JugadoresValidos(js[k := nueva], sig)
    ensures forall i :: 0 <= i < |js| && i != k ==> js[i].id != js[k].id
  {
    var r := js[k := nueva];
    assert IdsJugadores(r) == IdsJugadores(js);
    MismoIdMismaFila(js, k);
    forall j | j in r ensures j.id < sig {
      var m :| 0 <= m < |r| && r[m] == j;
      assert js[m] in js;
    }
  }

  /** Renaming row `k` to a name no other row has keeps names unique. */
  lemma RenombrarSinRepetir(js: seq<Jugador>, k: nat, nuevo: string)
    requires NombresUnicos(js) && k < |js|
    requires forall i :: 0 <= i < |js| && i != k ==> js[i].nombre != nuevo
    ensures NombresUnicos(js[k := js[k].(nombre := nuevo)])
  {
  }

  /** Deleting the row at `k` keeps the other rows, and ids stay unique. */
  lemma QuitarUno(js: seq<Jugador>, k: nat)
    requires Distintos(IdsJugadores(js)) && k < |js|
    ensures var r := js[..k] + js[k + 1..];
      && |r| == |js| - 1
      && Distintos(IdsJugadores(r))
      && (forall j :: j in r <==> j in js && j.id != js[k].id)
  {
    var r := js[..k] + js[k + 1..];
    assert forall i :: 0 <= i < |r| ==> r[i] == js[if i < k then i else i + 1];
    MismoIdMismaFila(js, k);
    forall a, b | 0 <= a < b < |r| ensures IdsJugadores(r)[a] != IdsJugadores(r)[b] {
      var x, y := if a < k then a else a + 1, if b < k then b else b + 1;
      assert IdsJugadores(js)[x] == r[a].id && IdsJugadores(js)[y] == r[b].id;
    }
    forall j | j in js && j.id != js[k].id ensures j in r {
      var m :| 0 <= m < |js| && js[m] == j;
      assert m != k;
      assert r[if m < k then m else m - 1] == j;
    }
  }

  lemma {:induction false} SinSeleccionados(js: seq<Jugador>)
    requires forall j :: j in js ==> !j.seleccionado
    ensures Seleccionados(js) == []
  {
    if js != [] {
      assert js[0] in js;
      assert forall j :: j in js[1..] ==> j in js;
      SinSeleccionados(js[1..]);
    }
  }
}
