/**
 The read-only views: the singles standings table, the doubles standings
 table, the per-player match count and the id-to-name dictionary of the
 index page. Every one of them is recomputed from the tables on each read.
 */
module Posiciones {
  import opened Registros
  import opened Orden

  /** `Partido.query.filter_by(id_local=id).all()`. */
  function ComoLocal(ps: seq<Partido>, id: int): (r: seq<Partido>)
    ensures forall p :: p in r <==> p in ps && p.idLocal == id
  {
    if ps == [] then []
    else (if ps[0].idLocal == id then [ps[0]] else []) + ComoLocal(ps[1..], id)
  }

  /** `Partido.query.filter_by(id_visitante=id).all()`. */
  function ComoVisitante(ps: seq<Partido>, id: int): (r: seq<Partido>)
    ensures forall p :: p in r <==> p in ps && p.idVisitante == id
  {
    if ps == [] then []
    else (if ps[0].idVisitante == id then [ps[0]] else []) + ComoVisitante(ps[1..], id)
  }

  /** `sum([p.score_local for p in ps])`. */
  function SumaLocal(ps: seq<Partido>): int
  {
    if ps == [] then 0 else ps[0].scoreLocal + SumaLocal(ps[1..])
  }

  /** `sum([p.score_visitante for p in ps])`. */
  function SumaVisitante(ps: seq<Partido>): int
  {
    if ps == [] then 0 else ps[0].scoreVisitante + SumaVisitante(ps[1..])
  }

  /** `Partido.query.filter_by(ganador_id=id).count()`: every mode counts. */
  function Victorias(ps: seq<Partido>, id: int): (n: nat)
    ensures n <= |ps|
  {
    if ps == [] then 0
    else (if ps[0].ganadorId == Some(id) then 1 else 0) + Victorias(ps[1..], id)
  }

  /** One row of the singles table. */
  datatype Fila = Fila(nombre: string, victorias: int, setsF: int, setsC: int, diferencia: int)

  /** The row `posiciones` builds for one player. */
  function FilaDe(j: Jugador, ps: seq<Partido>): Fila
  {
    var l := ComoLocal(ps, j.id);
    var v := ComoVisitante(ps, j.id);
    var f := SumaLocal(l) + SumaVisitante(v);
    var c := SumaVisitante(l) + SumaLocal(v);
    Fila(j.nombre, Victorias(ps, j.id), f, c, f - c)
  }

  /** The rows in player-table order, before sorting. */
  function Filas(js: seq<Jugador>, ps: seq<Partido>): seq<Fila>
  {
    seq(|js|, i requires 0 <= i < |js| => FilaDe(js[i], ps))
  }

  /** The sort key `(x['victorias'], x['diferencia'])`. */
  function ClaveFila(f: Fila): Clave
  {
    Clave(f.victorias, f.diferencia)
  }

  /** The singles standings page. */
  function TablaPosiciones(js: seq<Jugador>, ps: seq<Partido>): seq<Fila>
  {
    Ordenar(Filas(js, ps), ClaveFila)
  }

  /**
   The singles table holds exactly one row per player, ordered by wins and
   then by set difference, both descending; players equal on both keep the
   player-table order.
   */
  lemma TablaPosicionesCorrecta(js: seq<Jugador>, ps: seq<Partido>)
    ensures var t := TablaPosiciones(js, ps);
      && multiset(t) == multiset(Filas(js, ps))
      && (forall i, k :: 0 <= i < k < |t| ==>
            t[i].victorias > t[k].victorias
            || (t[i].victorias == t[k].victorias && t[i].diferencia >= t[k].diferencia))
      && forall v, d :: ConClave(t, ClaveFila, Clave(v, d)) == ConClave(Filas(js, ps), ClaveFila, Clave(v, d))
  {
    var t := TablaPosiciones(js, ps);
    OrdenarCorrecto(Filas(js, ps), ClaveFila);
    forall i, k | 0 <= i < k < |t|
      ensures t[i].victorias > t[k].victorias
           || (t[i].victorias == t[k].victorias && t[i].diferencia >= t[k].diferencia)
    {
      assert !Supera(ClaveFila(t[k]), ClaveFila(t[i]));
    }
  }

  /** Sets for a player in one pass over the matches. */
  function SetsAFavor(ps: seq<Partido>, id: int): int
  {
    if ps == [] then 0
    else
      var comoLocal := if ps[0].idLocal == id then ps[0].scoreLocal else 0;
      var comoVisitante := if ps[0].idVisitante == id then ps[0].scoreVisitante else 0;
      comoLocal + comoVisitante + SetsAFavor(ps[1..], id)
  }

  function SetsEnContra(ps: seq<Partido>, id: int): int
  {
    if ps == [] then 0
    else
      var comoLocal := if ps[0].idLocal == id then ps[0].scoreVisitante else 0;
      var comoVisitante := if ps[0].idVisitante == id then ps[0].scoreLocal else 0;
      comoLocal + comoVisitante + SetsEnContra(ps[1..], id)
  }

  /**
   The row's sets for (own score as local plus own score as visitor) and
   sets against (the opponent's score in those same matches) agree with the
   one-pass sums, and the difference is for minus against.
   */
  lemma {:induction false} FilaUnaPasada(j: Jugador, ps: seq<Partido>)
    ensures FilaDe(j, ps).setsF == SetsAFavor(ps, j.id)
    ensures FilaDe(j, ps).setsC == SetsEnContra(ps, j.id)
    ensures FilaDe(j, ps).diferencia == SetsAFavor(ps, j.id) - SetsEnContra(ps, j.id)
  {
    if ps != [] {
      FilaUnaPasada(j, ps[1..]);
      var p := ps[0];
      var l := ComoLocal(ps[1..], j.id);
      var v := ComoVisitante(ps[1..], j.id);
      if p.idLocal == j.id {
        SumasPrimero(p, l);
      } else {
        assert ComoLocal(ps, j.id) == l;
      }
      if p.idVisitante == j.id {
        SumasPrimero(p, v);
      } else {
        assert ComoVisitante(ps, j.id) == v;
      }
    }
  }

  lemma SumasPrimero(p: Partido, s: seq<Partido>)
    ensures SumaLocal([p] + s) == p.scoreLocal + SumaLocal(s)
    ensures SumaVisitante([p] + s) == p.scoreVisitante + SumaVisitante(s)
  {
    assert ([p] + s)[0] == p && ([p] + s)[1..] == s;
  }

  lemma {:induction false} SetsConcat(a: seq<Partido>, b: seq<Partido>, id: int)
    ensures SetsAFavor(a + b, id) == SetsAFavor(a, id) + SetsAFavor(b, id)
    ensures SetsEnContra(a + b, id) == SetsEnContra(a, id) + SetsEnContra(b, id)
    ensures Victorias(a + b, id) == Victorias(a, id) + Victorias(b, id)
  {
    if a == [] {
      assert a + b == b;
    } else {
      assert (a + b)[0] == a[0] && (a + b)[1..] == a[1..] + b;
      SetsConcat(a[1..], b, id);
    }
  }

  lemma {:induction false} SetsSinResultados(n: seq<Partido>, id: int)
    requires forall p :: p in n ==> p.scoreLocal == 0 && p.scoreVisitante == 0 && p.ganadorId == None
    ensures SetsAFavor(n, id) == 0 && SetsEnContra(n, id) == 0 && Victorias(n, id) == 0
  {
    if n != [] {
      assert n[0] in n;
      assert forall p :: p in n[1..] ==> p in n;
      SetsSinResultados(n[1..], id);
    }
  }

  /**
   Appending matches with no result (a new bracket round: 0-0, no winner)
   leaves every player's row as it was.
   */
  lemma RondaNuevaNoCambiaFila(j: Jugador, ps: seq<Partido>, n: seq<Partido>)
    requires forall p :: p in n ==> p.scoreLocal == 0 && p.scoreVisitante == 0 && p.ganadorId == None
    ensures FilaDe(j, ps + n) == FilaDe(j, ps)
  {
    FilaUnaPasada(j, ps + n);
    FilaUnaPasada(j, ps);
    SetsConcat(ps, n, j.id);
    SetsSinResultados(n, j.id);
  }

  /** A player wins at most the matches they play, when every winner is a participant. */
  lemma {:induction false} VictoriasAcotadas(ps: seq<Partido>, id: int)
    requires forall p :: p in ps ==> GanadorValido(p)
    ensures Victorias(ps, id) <= |ComoLocal(ps, id)| + |ComoVisitante(ps, id)|
  {
    if ps != [] {
      assert ps[0] in ps;
      assert forall p :: p in ps[1..] ==> p in ps;
      VictoriasAcotadas(ps[1..], id);
    }
  }

  /**
   Deleting player b's matches does not touch the row of a player j who
   never met b: j's local and visitor matches and j's wins are the same
   sequences as before. This is why deleting a player leaves the other
   players' standings alone.
   */
  lemma CascadaNoAfectaFila(j: Jugador, ps: seq<Partido>, b: int)
    requires forall k :: 0 <= k < |ps| ==> GanadorValido(ps[k]) && (Involucra(ps[k], b) ==> !Involucra(ps[k], j.id))
    ensures FilaDe(j, SinJugador(ps, b)) == FilaDe(j, ps)
  {
    CascadaLocal(j.id, ps, b);
    CascadaVisitante(j.id, ps, b);
    CascadaVictorias(j.id, ps, b);
  }

  lemma {:induction false} CascadaLocal(id: int, ps: seq<Partido>, b: int)
    requires forall k :: 0 <= k < |ps| ==> Involucra(ps[k], b) ==> !Involucra(ps[k], id)
    ensures ComoLocal(SinJugador(ps, b), id) == ComoLocal(ps, id)
  {
    if ps != [] {
      var cola := ps[1..];
      assert forall k :: 0 <= k < |cola| ==> cola[k] == ps[k + 1];
      CascadaLocal(id, cola, b);
      var resto := SinJugador(cola, b);
      if Involucra(ps[0], b) {
        assert SinJugador(ps, b) == resto;
      } else {
        var r := [ps[0]] + resto;
        assert SinJugador(ps, b) == r;
        assert r[0] == ps[0] && r[1..] == resto;
      }
    }
  }

  lemma {:induction false} CascadaVisitante(id: int, ps: seq<Partido>, b: int)
    requires forall k :: 0 <= k < |ps| ==> Involucra(ps[k], b) ==> !Involucra(ps[k], id)
    ensures ComoVisitante(SinJugador(ps, b), id) == ComoVisitante(ps, id)
  {
    if ps != [] {
      var cola := ps[1..];
      assert forall k :: 0 <= k < |cola| ==> cola[k] == ps[k + 1];
      CascadaVisitante(id, cola, b);
      var resto := SinJugador(cola, b);
      if Involucra(ps[0], b) {
        assert SinJugador(ps, b) == resto;
      } else {
        var r := [ps[0]] + resto;
        assert SinJugador(ps, b) == r;
        assert r[0] == ps[0] && r[1..] == resto;
      }
    }
  }

  lemma {:induction false} CascadaVictorias(id: int, ps: seq<Partido>, b: int)
    requires forall k :: 0 <= k < |ps| ==> GanadorValido(ps[k]) && (Involucra(ps[k], b) ==> !Involucra(ps[k], id))
    ensures Victorias(SinJugador(ps, b), id) == Victorias(ps, id)
  {
    if ps != [] {
      var cola := ps[1..];
      assert forall k :: 0 <= k < |cola| ==> cola[k] == ps[k + 1];
      CascadaVictorias(id, cola, b);
      var resto := SinJugador(cola, b);
      if Involucra(ps[0], b) {
        assert SinJugador(ps, b) == resto;
      } else {
        var r := [ps[0]] + resto;
        assert SinJugador(ps, b) == r;
        assert r[0] == ps[0] && r[1..] == resto;
      }
    }
  }

  /** One row of the doubles table. */
  datatype FilaDobles = FilaDobles(nombre: string, victorias: int)

  /** `Partido.query.filter_by(ganador_id=id, modo='dobles').count()`. */
  function VictoriasDobles(ps: seq<Partido>, id: int): (n: nat)
    ensures n <= Victorias(ps, id)
  {
    if ps == [] then 0
    else (if ps[0].ganadorId == Some(id) && ps[0].modo == DOBLES then 1 else 0) + VictoriasDobles(ps[1..], id)
  }

  function FilasDobles(es: seq<Equipo>, ps: seq<Partido>): seq<FilaDobles>
  {
    seq(|es|, i requires 0 <= i < |es| => FilaDobles(es[i].nombre, VictoriasDobles(ps, es[i].id)))
  }

  /** The sort key `x['victorias']`. */
  function ClaveDobles(f: FilaDobles): Clave
  {
    Clave(f.victorias, 0)
  }

  /** The doubles standings page. */
  function TablaDobles(es: seq<Equipo>, ps: seq<Partido>): seq<FilaDobles>
  {
    Ordenar(FilasDobles(es, ps), ClaveDobles)
  }

  /**
   The doubles table holds exactly one row per team, by wins descending,
   teams with equal wins in team-table order.
   */
  lemma TablaDoblesCorrecta(es: seq<Equipo>, ps: seq<Partido>)
    ensures var t := TablaDobles(es, ps);
      && multiset(t) == multiset(FilasDobles(es, ps))
      && (forall i, k :: 0 <= i < k < |t| ==> t[i].victorias >= t[k].victorias)
      && forall v :: ConClave(t, ClaveDobles, Clave(v, 0)) == ConClave(FilasDobles(es, ps), ClaveDobles, Clave(v, 0))
  {
    var t := TablaDobles(es, ps);
    OrdenarCorrecto(FilasDobles(es, ps), ClaveDobles);
    forall i, k | 0 <= i < k < |t| ensures t[i].victorias >= t[k].victorias {
      assert !Supera(ClaveDobles(t[k]), ClaveDobles(t[i]));
    }
  }

  /** `[e.id for e in equipos if e.jugador1_id == id or e.jugador2_id == id]`. */
  function EquiposDe(id: int, es: seq<Equipo>): (r: seq<int>)
    ensures forall x :: x in r <==> exists e :: e in es && e.id == x && (e.jugador1Id == id || e.jugador2Id == id)
  {
    if es == [] then []
    else (if es[0].jugador1Id == id || es[0].jugador2Id == id then [es[0].id] else [])
         + EquiposDe(id, es[1..])
  }

  /** The singles count of `index`: matches in mode singles with the player as local or visitor. */
  function CuentaSingles(ps: seq<Partido>, id: int): nat
  {
    if ps == [] then 0
    else (if Involucra(ps[0], id) && ps[0].modo == SINGLES then 1 else 0) + CuentaSingles(ps[1..], id)
  }

  /** The doubles count of `index`: matches in mode doubles with one of the player's teams in them. */
  function CuentaDobles(ps: seq<Partido>, mis: seq<int>): nat
  {
    if ps == [] then 0
    else (if (ps[0].idLocal in mis || ps[0].idVisitante in mis) && ps[0].modo == DOBLES then 1 else 0)
         + CuentaDobles(ps[1..], mis)
  }

  /** The `total` that `index` shows for one player. */
  function PartidosJugados(j: Jugador, es: seq<Equipo>, ps: seq<Partido>): nat
  {
    CuentaSingles(ps, j.id) + CuentaDobles(ps, EquiposDe(j.id, es))
  }

  /**
   The two counts never count one match twice, since a match has one mode:
   a player's total is at most the number of matches.
   */
  lemma PartidosJugadosAcotado(j: Jugador, es: seq<Equipo>, ps: seq<Partido>)
    ensures PartidosJugados(j, es, ps) <= |ps|
  {
    CuentasDisjuntas(ps, j.id, EquiposDe(j.id, es));
  }

  /**
   Deleting player b's matches leaves the index total of a player j alone
   when no deleted match has j, or one of j's teams, on either side.
   */
  lemma CascadaNoAfectaCuenta(j: Jugador, es: seq<Equipo>, ps: seq<Partido>, b: int)
    requires forall k :: 0 <= k < |ps| ==> Involucra(ps[k], b) ==>
      !Involucra(ps[k], j.id) && ps[k].idLocal !in EquiposDe(j.id, es) && ps[k].idVisitante !in EquiposDe(j.id, es)
    ensures PartidosJugados(j, es, SinJugador(ps, b)) == PartidosJugados(j, es, ps)
  {
    CascadaSingles(j.id, ps, b);
    CascadaDobles(EquiposDe(j.id, es), ps, b);
  }

  lemma {:induction false} CascadaSingles(id: int, ps: seq<Partido>, b: int)
    requires forall k :: 0 <= k < |ps| ==> Involucra(ps[k], b) ==> !Involucra(ps[k], id)
    ensures CuentaSingles(SinJugador(ps, b), id) == CuentaSingles(ps, id)
  {
    if ps != [] {
      var cola := ps[1..];
      assert forall k :: 0 <= k < |cola| ==> cola[k] == ps[k + 1];
      CascadaSingles(id, cola, b);
      var resto := SinJugador(cola, b);
      if Involucra(ps[0], b) {
        assert SinJugador(ps, b) == resto;
      } else {
        var r := [ps[0]] + resto;
        assert SinJugador(ps, b) == r;
        assert r[0] == ps[0] && r[1..] == resto;
      }
    }
  }

  lemma {:induction false} CascadaDobles(mis: seq<int>, ps: seq<Partido>, b: int)
    requires forall k :: 0 <= k < |ps| ==> Involucra(ps[k], b) ==> ps[k].idLocal !in mis && ps[k].idVisitante !in mis
    ensures CuentaDobles(SinJugador(ps, b), mis) == CuentaDobles(ps, mis)
  {
    if ps != [] {
      var cola := ps[1..];
      assert forall k :: 0 <= k < |cola| ==> cola[k] == ps[k + 1];
      CascadaDobles(mis, cola, b);
      var resto := SinJugador(cola, b);
      if Involucra(ps[0], b) {
        assert SinJugador(ps, b) == resto;
      } else {
        var r := [ps[0]] + resto;
        assert SinJugador(ps, b) == r;
        assert r[0] == ps[0] && r[1..] == resto;
      }
    }
  }

  lemma {:induction false} CuentasDisjuntas(ps: seq<Partido>, id: int, mis: seq<int>)
    ensures CuentaSingles(ps, id) + CuentaDobles(ps, mis) <= |ps|
  {
    assert SINGLES[0] != DOBLES[0];
    if ps != [] {
      CuentasDisjuntas(ps[1..], id, mis);
    }
  }

  /**
   A team's doubles wins are at most its doubles matches, when every winner
   is a participant.
   */
  lemma {:induction false} VictoriasDoblesAcotadas(ps: seq<Partido>, equipo: int)
    requires forall p :: p in ps ==> GanadorValido(p)
    ensures VictoriasDobles(ps, equipo) <= CuentaDobles(ps, [equipo])
  {
    if ps != [] {
      assert ps[0] in ps;
      assert forall p :: p in ps[1..] ==> p in ps;
      VictoriasDoblesAcotadas(ps[1..], equipo);
    }
  }

  /**
   A dictionary built by assigning `vs[i]` to `ks[i]` in order, as a Python
   dict comprehension or `dict.update` does: a key repeated later overrides.
   */
  function Diccionario<V>(ks: seq<int>, vs: seq<V>): (m: map<int, V>)
    requires |ks| == |vs|
    ensures forall x :: x in m <==> x in ks
  {
    if ks == [] then map[]
    else
      var resto := Diccionario(ks[1..], vs[1..]);
      assert ks == [ks[0]] + ks[1..];
      map[ks[0] := vs[0]] + resto
  }

  /** The value of a key is the one given at its last occurrence. */
  lemma {:induction false} DiccionarioEn<V>(ks: seq<int>, vs: seq<V>, i: nat)
    requires |ks| == |vs| && i < |ks| && ks[i] !in ks[i + 1..]
    ensures ks[i] in Diccionario(ks, vs) && Diccionario(ks, vs)[ks[i]] == vs[i]
  {
    if i > 0 {
      assert ks[1..][i - 1] == ks[i] && vs[1..][i - 1] == vs[i] && ks[1..][i..] == ks[i + 1..];
      DiccionarioEn(ks[1..], vs[1..], i - 1);
    }
  }

  /**
   The `nombres` dictionary of `index`: player names by id, then team names
   by id over them. A team id equal to a player id shows the team's name.
   */
  function Nombres(js: seq<Jugador>, es: seq<Equipo>): (m: map<int, string>)
    requires Distintos(IdsJugadores(js)) && Distintos(IdsEquipos(es))
    ensures forall x :: x in m <==> x in IdsJugadores(js) || x in IdsEquipos(es)
    ensures forall e :: e in es ==> e.id in m && m[e.id] == e.nombre
    ensures forall j :: j in js && j.id !in IdsEquipos(es) ==> j.id in m && m[j.id] == j.nombre
  {
    var porJugador := Diccionario(IdsJugadores(js), seq(|js|, i requires 0 <= i < |js| => js[i].nombre));
    var porEquipo := Diccionario(IdsEquipos(es), seq(|es|, i requires 0 <= i < |es| => es[i].nombre));
    assert forall e :: e in es ==> e.id in porEquipo && porEquipo[e.id] == e.nombre by {
      forall e | e in es ensures e.id in porEquipo && porEquipo[e.id] == e.nombre {
        var i :| 0 <= i < |es| && es[i] == e;
        assert IdsEquipos(es)[i] == e.id;
        assert IdsEquipos(es)[i] !in IdsEquipos(es)[i + 1..];
        DiccionarioEn(IdsEquipos(es), seq(|es|, i requires 0 <= i < |es| => es[i].nombre), i);
      }
    }
    assert forall j :: j in js ==> j.id in porJugador && porJugador[j.id] == j.nombre by {
      forall j | j in js ensures j.id in porJugador && porJugador[j.id] == j.nombre {
        var i :| 0 <= i < |js| && js[i] == j;
        assert IdsJugadores(js)[i] == j.id;
        assert IdsJugadores(js)[i] !in IdsJugadores(js)[i + 1..];
        DiccionarioEn(IdsJugadores(js), seq(|js|, i requires 0 <= i < |js| => js[i].nombre), i);
      }
    }
    porJugador + porEquipo
  }
}
