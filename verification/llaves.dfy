/**
 The single-elimination bracket as functions on the tables: pairing a list
 of participant ids two at a time (round 1 of singles, and every later
 round), forming doubles teams four players at a time, and reading the
 latest round and its winners.
 */
module Llaves {
  import opened Registros

  /**
   The matches `for i in range(0, len(ids) - 1, 2)` creates: match k pits
   ids[2k] (local) against ids[2k+1] (visitor), and a trailing odd id gets
   no match. Ids of the new rows are drawn from `primerId` on.
   */
  function Emparejar(ids: seq<int>, ronda: int, modo: string, primerId: int): (r: seq<Partido>)
    ensures |r| == |ids| / 2
    ensures forall p :: p in r ==> p.ronda == ronda && p.modo == modo && p.ganadorId == None
    ensures forall p :: p in r ==> p.scoreLocal == 0 && p.scoreVisitante == 0
    decreases |ids|
  {
    if |ids| < 2 then []
    else [NuevoPartido(primerId, ids[0], ids[1], ronda, modo)] + Emparejar(ids[2..], ronda, modo, primerId + 1)
  }

  lemma {:induction false} EmparejarEn(ids: seq<int>, ronda: int, modo: string, primerId: int, k: nat)
    requires k < |ids| / 2
    ensures Emparejar(ids, ronda, modo, primerId)[k]
         == NuevoPartido(primerId + k, ids[2 * k], ids[2 * k + 1], ronda, modo)
    decreases |ids|
  {
    if k > 0 {
      EmparejarEn(ids[2..], ronda, modo, primerId + 1, k - 1);
    }
  }

  /** Match k of a pairing gets id `primerId + k`. */
  lemma EmparejarIds(ids: seq<int>, ronda: int, modo: string, primerId: int)
    ensures var r := Emparejar(ids, ronda, modo, primerId);
      forall k :: 0 <= k < |r| ==> r[k].id == primerId + k
  {
    var r := Emparejar(ids, ronda, modo, primerId);
    forall k | 0 <= k < |r| ensures r[k].id == primerId + k {
      EmparejarEn(ids, ronda, modo, primerId, k);
    }
  }

  /** Appending two ids to an even-length list appends one match between them. */
  lemma {:induction false} EmparejarAgregar(ids: seq<int>, a: int, b: int, ronda: int, modo: string, primerId: int)
    requires |ids| % 2 == 0
    ensures Emparejar(ids + [a, b], ronda, modo, primerId)
         == Emparejar(ids, ronda, modo, primerId) + [NuevoPartido(primerId + |ids| / 2, a, b, ronda, modo)]
    decreases |ids|
  {
    var largo := ids + [a, b];
    if |ids| == 0 {
      assert largo == [a, b] && largo[2..] == [];
    } else {
      var resto := ids[2..];
      assert largo[0] == ids[0] && largo[1] == ids[1] && largo[2..] == resto + [a, b];
      EmparejarAgregar(resto, a, b, ronda, modo, primerId + 1);
      var cabeza := [NuevoPartido(primerId, ids[0], ids[1], ronda, modo)];
      var ultimo := NuevoPartido(primerId + |ids| / 2, a, b, ronda, modo);
      assert primerId + 1 + |resto| / 2 == primerId + |ids| / 2;
      calc {
        Emparejar(largo, ronda, modo, primerId);
        cabeza + Emparejar(resto + [a, b], ronda, modo, primerId + 1);
        cabeza + (Emparejar(resto, ronda, modo, primerId + 1) + [ultimo]);
        (cabeza + Emparejar(resto, ronda, modo, primerId + 1)) + [ultimo];
        Emparejar(ids, ronda, modo, primerId) + [ultimo];
      }
    }
  }

  /**
   With distinct ids, the id at position j is in match j/2 and in no other
   one when j is one of the paired positions, and in no match at all when it
   is the trailing odd one; every match pits two different ids of the list.
   */
  lemma EmparejarUnaVez(ids: seq<int>, ronda: int, modo: string, primerId: int, j: nat)
    requires Distintos(ids)
    requires j < |ids|
    ensures var r := Emparejar(ids, ronda, modo, primerId);
      forall k :: 0 <= k < |r| ==> (Involucra(r[k], ids[j]) <==> j < 2 * |r| && k == j / 2)
  {
    var r := Emparejar(ids, ronda, modo, primerId);
    forall k | 0 <= k < |r|
      ensures Involucra(r[k], ids[j]) <==> j < 2 * |r| && k == j / 2
    {
      EmparejarEn(ids, ronda, modo, primerId, k);
      assert Involucra(r[k], ids[j]) <==> 2 * k == j || 2 * k + 1 == j;
    }
  }

  /** `EmparejarUnaVez` for a list of players paired by id. */
  lemma EmparejarJugadores(orden: seq<Jugador>, ronda: int, modo: string, primerId: int)
    requires Distintos(IdsJugadores(orden))
    ensures var r := Emparejar(IdsJugadores(orden), ronda, modo, primerId);
      forall j, k :: 0 <= j < |orden| && 0 <= k < |r| ==>
        (Involucra(r[k], orden[j].id) <==> j < 2 * |r| && k == j / 2)
  {
    var ids := IdsJugadores(orden);
    var r := Emparejar(ids, ronda, modo, primerId);
    forall j, k | 0 <= j < |orden| && 0 <= k < |r|
      ensures Involucra(r[k], orden[j].id) <==> j < 2 * |r| && k == j / 2
    {
      assert ids[j] == orden[j].id;
      EmparejarUnaVez(ids, ronda, modo, primerId, j);
      assert ids[j] == orden[j].id;
    }
  }

  lemma EmparejarParticipantes(ids: seq<int>, ronda: int, modo: string, primerId: int)
    requires Distintos(ids)
    ensures forall p :: p in Emparejar(ids, ronda, modo, primerId) ==>
      p.idLocal in ids && p.idVisitante in ids && p.idLocal != p.idVisitante
  {
    var r := Emparejar(ids, ronda, modo, primerId);
    forall p | p in r
      ensures p.idLocal in ids && p.idVisitante in ids && p.idLocal != p.idVisitante
    {
      var k :| 0 <= k < |r| && r[k] == p;
      EmparejarEn(ids, ronda, modo, primerId, k);
    }
  }

  /** The team name the bracket builds: `f"{a.nombre} / {b.nombre}"`. */
  function NombreEquipo(a: Jugador, b: Jugador): string
  {
    a.nombre + " / " + b.nombre
  }

  /**
   The teams `for i in range(0, (cant // 4) * 4, 4)` creates: two teams per
   complete group of four, the remainder dropped. Ids are drawn from
   `primerId` on.
   */
  function EquiposDobles(orden: seq<Jugador>, primerId: int): (r: seq<Equipo>)
    ensures |r| == 2 * (|orden| / 4)
    decreases |orden|
  {
    if |orden| < 4 then []
    else [Equipo(primerId, NombreEquipo(orden[0], orden[1]), orden[0].id, orden[1].id),
          Equipo(primerId + 1, NombreEquipo(orden[2], orden[3]), orden[2].id, orden[3].id)]
         + EquiposDobles(orden[4..], primerId + 2)
  }

  /** The first team of group k is players 4k and 4k+1; the second, 4k+2 and 4k+3. */
  lemma {:induction false} EquiposDoblesEn(orden: seq<Jugador>, primerId: int, k: nat)
    requires k < |orden| / 4
    ensures var r := EquiposDobles(orden, primerId);
      && r[2 * k] == Equipo(primerId + 2 * k, NombreEquipo(orden[4 * k], orden[4 * k + 1]),
                            orden[4 * k].id, orden[4 * k + 1].id)
      && r[2 * k + 1] == Equipo(primerId + 2 * k + 1, NombreEquipo(orden[4 * k + 2], orden[4 * k + 3]),
                                orden[4 * k + 2].id, orden[4 * k + 3].id)
    decreases |orden|
  {
    if k > 0 {
      EquiposDoblesEn(orden[4..], primerId + 2, k - 1);
    }
  }

  /**
   With distinct player ids, every team pairs two different players, and a
   player of the remainder (position 4*(n/4) or later) is in no team.
   */
  lemma EquiposDoblesMiembros(orden: seq<Jugador>, primerId: int)
    requires Distintos(IdsJugadores(orden))
    ensures forall e :: e in EquiposDobles(orden, primerId) ==> e.jugador1Id != e.jugador2Id
    ensures forall j, e :: 4 * (|orden| / 4) <= j < |orden| && e in EquiposDobles(orden, primerId) ==>
      e.jugador1Id != orden[j].id && e.jugador2Id != orden[j].id
  {
    var r := EquiposDobles(orden, primerId);
    var ids := IdsJugadores(orden);
    forall e | e in r
      ensures e.jugador1Id != e.jugador2Id
      ensures forall j :: 4 * (|orden| / 4) <= j < |orden| ==> e.jugador1Id != orden[j].id && e.jugador2Id != orden[j].id
    {
      var t :| 0 <= t < |r| && r[t] == e;
      var k := t / 2;
      EquiposDoblesEn(orden, primerId, k);
      assert ids[4 * k] == orden[4 * k].id && ids[4 * k + 1] == orden[4 * k + 1].id;
      assert ids[4 * k + 2] == orden[4 * k + 2].id && ids[4 * k + 3] == orden[4 * k + 3].id;
      forall j | 4 * (|orden| / 4) <= j < |orden|
        ensures e.jugador1Id != orden[j].id && e.jugador2Id != orden[j].id
      {
        assert ids[j] == orden[j].id;
      }
    }
  }

  /** Both members of every doubles team are players of `orden`. */
  lemma EquiposDoblesDeOrden(orden: seq<Jugador>, primerId: int)
    ensures forall e :: e in EquiposDobles(orden, primerId) ==>
      (exists a :: a in orden && a.id == e.jugador1Id) && (exists b :: b in orden && b.id == e.jugador2Id)
  {
    var es := EquiposDobles(orden, primerId);
    forall e | e in es
      ensures exists a :: a in orden && a.id == e.jugador1Id
      ensures exists b :: b in orden && b.id == e.jugador2Id
    {
      var t :| 0 <= t < |es| && es[t] == e;
      var k := t / 2;
      EquiposDoblesEn(orden, primerId, k);
      var a, b := if t == 2 * k then orden[4 * k] else orden[4 * k + 2],
                  if t == 2 * k then orden[4 * k + 1] else orden[4 * k + 3];
      assert a in orden && b in orden;
    }
  }

  /** Team t of the doubles bracket gets id `primerId + t`. */
  lemma EquiposDoblesIds(orden: seq<Jugador>, primerId: int)
    ensures var r := EquiposDobles(orden, primerId);
      forall t :: 0 <= t < |r| ==> r[t].id == primerId + t
  {
    var r := EquiposDobles(orden, primerId);
    forall t | 0 <= t < |r| ensures r[t].id == primerId + t {
      EquiposDoblesEn(orden, primerId, t / 2);
    }
  }

  /**
   Round 1 of doubles: group k yields one match between its two teams,
   the first team local.
   */
  lemma PartidosDoblesEn(orden: seq<Jugador>, primerEquipoId: int, primerPartidoId: int, k: nat)
    requires k < |orden| / 4
    ensures var ps := Emparejar(IdsEquipos(EquiposDobles(orden, primerEquipoId)), 1, DOBLES, primerPartidoId);
      |ps| == |orden| / 4
      && ps[k] == NuevoPartido(primerPartidoId + k, primerEquipoId + 2 * k, primerEquipoId + 2 * k + 1, 1, DOBLES)
  {
    var es := EquiposDobles(orden, primerEquipoId);
    EquiposDoblesEn(orden, primerEquipoId, k);
    EmparejarEn(IdsEquipos(es), 1, DOBLES, primerPartidoId, k);
  }

  /** `max(Partido.ronda)` over a non-empty table. */
  function MaxRonda(ps: seq<Partido>): (m: int)
    requires ps != []
    ensures forall p :: p in ps ==> p.ronda <= m
    ensures exists p :: p in ps && p.ronda == m
  {
    if |ps| == 1 then ps[0].ronda
    else
      var resto := MaxRonda(ps[1..]);
      if ps[0].ronda >= resto then ps[0].ronda else resto
  }

  /**
   `db.session.query(db.func.max(Partido.ronda)).scalar() or 1`: the highest
   round, or 1 when the table is empty (or, literally, when that maximum is 0).
   */
  function UltimaRonda(ps: seq<Partido>): (r: int)
    ensures ps == [] ==> r == 1
    ensures forall p :: p in ps ==> p.ronda <= r
    ensures (forall p :: p in ps ==> p.ronda >= 1) && ps != [] ==> exists p :: p in ps && p.ronda == r
  {
    if ps == [] then 1
    else
      var m := MaxRonda(ps);
      if m == 0 then 1 else m
  }

  /** `Partido.query.filter_by(ronda=r).all()`, in table order. */
  function RondaDe(ps: seq<Partido>, r: int): (q: seq<Partido>)
    ensures forall p :: p in q <==> p in ps && p.ronda == r
    ensures |q| <= |ps|
  {
    if ps == [] then []
    else (if ps[0].ronda == r then [ps[0]] else []) + RondaDe(ps[1..], r)
  }

  /** The matches `avanzar_ronda` reads: those of the latest round. */
  function RondaActual(ps: seq<Partido>): (q: seq<Partido>)
  {
    RondaDe(ps, UltimaRonda(ps))
  }

  /** `[p.ganador_id for p in ps if p.ganador_id is not None]`. */
  function Ganadores(ps: seq<Partido>): (g: seq<int>)
    ensures |g| <= |ps|
  {
    if ps == [] then []
    else (if ps[0].ganadorId.Some? then [ps[0].ganadorId.value] else []) + Ganadores(ps[1..])
  }

  /**
   The advancer's test `len(ganadores) != len(partidos_anteriores)` is
   exactly "some match of the round is undecided".
   */
  lemma {:induction false} GanadoresCompletos(ps: seq<Partido>)
    ensures |Ganadores(ps)| == |ps| <==> forall k :: 0 <= k < |ps| ==> ps[k].ganadorId.Some?
  {
    if ps != [] {
      GanadoresCompletos(ps[1..]);
      assert forall k :: 1 <= k < |ps| ==> ps[k] == ps[1..][k - 1];
    }
  }

  /** In a fully decided round the winners list is the round's winners in match order. */
  lemma {:induction false} GanadoresEnOrden(ps: seq<Partido>, i: nat)
    requires forall k :: 0 <= k < |ps| ==> ps[k].ganadorId.Some?
    requires i < |ps|
    ensures |Ganadores(ps)| == |ps| && Ganadores(ps)[i] == ps[i].ganadorId.value
  {
    GanadoresCompletos(ps);
    if i > 0 {
      assert forall k :: 0 <= k < |ps| - 1 ==> ps[1..][k] == ps[k + 1];
      GanadoresEnOrden(ps[1..], i - 1);
    }
  }

  /**
   Advancing a fully decided round: new match i pits the winner of match 2i
   (local) against the winner of match 2i+1 (visitor), each of whom played
   in that match.
   */
  lemma SiguienteRondaEnOrden(ronda: seq<Partido>, r: int, modo: string, primerId: int, i: nat)
    requires forall k :: 0 <= k < |ronda| ==> ronda[k].ganadorId.Some? && GanadorValido(ronda[k])
    requires i < |ronda| / 2
    ensures var nuevos := Emparejar(Ganadores(ronda), r, modo, primerId);
      && |nuevos| == |ronda| / 2
      && nuevos[i].idLocal == ronda[2 * i].ganadorId.value
      && nuevos[i].idVisitante == ronda[2 * i + 1].ganadorId.value
      && Involucra(ronda[2 * i], nuevos[i].idLocal)
      && Involucra(ronda[2 * i + 1], nuevos[i].idVisitante)
  {
    GanadoresEnOrden(ronda, 2 * i);
    GanadoresEnOrden(ronda, 2 * i + 1);
    EmparejarEn(Ganadores(ronda), r, modo, primerId, i);
  }

  lemma {:induction false} RondaDeConcat(a: seq<Partido>, b: seq<Partido>, r: int)
    ensures RondaDe(a + b, r) == RondaDe(a, r) + RondaDe(b, r)
  {
    if a != [] {
      assert (a + b)[0] == a[0] && (a + b)[1..] == a[1..] + b;
      RondaDeConcat(a[1..], b, r);
      var x := if a[0].ronda == r then [a[0]] else [];
      calc {
        RondaDe(a + b, r);
        x + RondaDe(a[1..] + b, r);
        x + (RondaDe(a[1..], r) + RondaDe(b, r));
        (x + RondaDe(a[1..], r)) + RondaDe(b, r);
        RondaDe(a, r) + RondaDe(b, r);
      }
    } else {
      assert a + b == b;
    }
  }

  lemma {:induction false} RondaDeTodos(a: seq<Partido>, r: int)
    requires forall p :: p in a ==> p.ronda == r
    ensures RondaDe(a, r) == a
  {
    if a != [] {
      assert forall p :: p in a[1..] ==> p in a;
      RondaDeTodos(a[1..], r);
    }
  }

  lemma {:induction false} RondaDeVacia(ps: seq<Partido>, r: int)
    requires forall p :: p in ps ==> p.ronda < r
    ensures RondaDe(ps, r) == []
  {
    if ps != [] {
      assert ps[0] in ps;
      assert forall p :: p in ps[1..] ==> p in ps;
      RondaDeVacia(ps[1..], r);
    }
  }

  lemma MaxRondaConcat(ps: seq<Partido>, nuevos: seq<Partido>, r: int)
    requires forall p :: p in ps ==> p.ronda <= r
    requires forall p :: p in nuevos ==> p.ronda == r + 1
    requires nuevos != []
    ensures MaxRonda(ps + nuevos) == r + 1
  {
    var todos := ps + nuevos;
    var m := MaxRonda(todos);
    assert todos[|ps|] == nuevos[0];
    assert m >= r + 1;
    var q :| q in todos && q.ronda == m;
    assert q in ps || q in nuevos;
  }

  lemma RondaAgregada(ps: seq<Partido>, nuevos: seq<Partido>, r: int)
    requires r >= 0 && forall p :: p in ps ==> p.ronda <= r
    requires nuevos != [] && forall p :: p in nuevos ==> p.ronda == r + 1
    ensures UltimaRonda(ps + nuevos) == r + 1
    ensures RondaDe(ps + nuevos, r + 1) == nuevos
  {
    MaxRondaConcat(ps, nuevos, r);
    RondaDeConcat(ps, nuevos, r + 1);
    RondaDeTodos(nuevos, r + 1);
    RondaDeVacia(ps, r + 1);
    assert RondaDe(ps + nuevos, r + 1) == [] + nuevos;
  }

  lemma UltimaRondaPositiva(ps: seq<Partido>)
    requires forall p :: p in ps ==> p.ronda >= 1
    ensures UltimaRonda(ps) >= 1
  {
    if ps != [] {
      assert ps[0] in ps && ps[0].ronda <= MaxRonda(ps);
    }
  }

  /**
   The matches `avanzar_ronda` appends: the winners of the latest round,
   paired in order into the next round, in the mode of its first match.
   */
  function NuevaRonda(ps: seq<Partido>, primerId: int): (r: seq<Partido>)
    requires RondaActual(ps) != []
    ensures |r| == |Ganadores(RondaActual(ps))| / 2
    ensures forall p :: p in r ==> p.ronda == UltimaRonda(ps) + 1 && p.ganadorId == None
  {
    Emparejar(Ganadores(RondaActual(ps)), UltimaRonda(ps) + 1, RondaActual(ps)[0].modo, primerId)
  }

  /**
   After round r+1 has been appended, it is the latest round and exactly
   its matches are what the next advance reads.
   */
  lemma NuevaRondaEsUltima(ps: seq<Partido>, nuevos: seq<Partido>)
    requires forall p :: p in ps ==> p.ronda >= 1
    requires nuevos != [] && forall p :: p in nuevos ==> p.ronda == UltimaRonda(ps) + 1
    ensures UltimaRonda(ps + nuevos) == UltimaRonda(ps) + 1
    ensures RondaActual(ps + nuevos) == nuevos
  {
    var r := UltimaRonda(ps);
    assert r >= 0 && forall p :: p in ps ==> p.ronda <= r by {
      UltimaRondaPositiva(ps);
    }
    assert UltimaRonda(ps + nuevos) == r + 1 && RondaDe(ps + nuevos, r + 1) == nuevos by {
      RondaAgregada(ps, nuevos, r);
    }
  }

  /**
   The match after `marcar_ganador` with scores `sl`-`sv` and detail
   `detalle`: the local side wins when its score is strictly greater, and
   the visitor otherwise, a tie included. Identity, sides, round and mode
   are kept.
   */
  function ConResultado(p: Partido, sl: int, sv: int, detalle: string): (r: Partido)
    ensures r.id == p.id && r.idLocal == p.idLocal && r.idVisitante == p.idVisitante
    ensures r.ronda == p.ronda && r.modo == p.modo
    ensures r.scoreLocal == sl && r.scoreVisitante == sv && r.puntosDetalle == detalle
    ensures r.ganadorId.Some? && GanadorValido(r)
    ensures sl > sv ==> r.ganadorId == Some(p.idLocal)
    ensures sl <= sv ==> r.ganadorId == Some(p.idVisitante)
  {
    p.(scoreLocal := sl, scoreVisitante := sv, puntosDetalle := detalle,
       ganadorId := Some(if sl > sv then p.idLocal else p.idVisitante))
  }
}
