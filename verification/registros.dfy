/**
 The three tables of the tournament database (players, doubles teams and
 matches) as value records, with the row-level queries the route handlers
 run on them: lookups by id or name, the "selected" filter, the cascade
 filter used when a player is deleted, and Python's `str.strip`.
 */
module Registros {

  datatype Option<T> = None | Some(value: T)

  /** The two values of the `modo` column and of the bracket route parameter. */
  const SINGLES: string := "singles"
  const DOBLES: string := "dobles"

  /** A row of `Jugador`. */
  datatype Jugador = Jugador(id: int, nombre: string, seleccionado: bool)

  /** A row of `Equipo`: a doubles pair named "A / B". */
  datatype Equipo = Equipo(id: int, nombre: string, jugador1Id: int, jugador2Id: int)

  /**
   A row of `Partido`. `idLocal`, `idVisitante` and `ganadorId` are raw
   integers: player ids in singles, team ids in doubles.
   */
  datatype Partido = Partido(
    id: int,
    idLocal: int,
    idVisitante: int,
    ronda: int,
    ganadorId: Option<int>,
    modo: string,
    scoreLocal: int,
    scoreVisitante: int,
    puntosDetalle: string)

  /** A match as the bracket code creates it: no winner, column defaults for scores and detail. */
  function NuevoPartido(id: int, local: int, visitante: int, ronda: int, modo: string): Partido
  {
    Partido(id, local, visitante, ronda, None, modo, 0, 0, "")
  }

  /** The filter `(id_local == x) | (id_visitante == x)`. */
  predicate Involucra(p: Partido, x: int)
  {
    p.idLocal == x || p.idVisitante == x
  }

  /** A decided match was won by one of its two participants. */
  predicate GanadorValido(p: Partido)
  {
    p.ganadorId.Some? ==> Involucra(p, p.ganadorId.value)
  }

  predicate Distintos(xs: seq<int>)
  {
    forall i, j :: 0 <= i < j < |xs| ==> xs[i] != xs[j]
  }

  function IdsJugadores(js: seq<Jugador>): seq<int>
  {
    seq(|js|, i requires 0 <= i < |js| => js[i].id)
  }

  function IdsEquipos(es: seq<Equipo>): seq<int>
  {
    seq(|es|, i requires 0 <= i < |es| => es[i].id)
  }

  function IdsPartidos(ps: seq<Partido>): seq<int>
  {
    seq(|ps|, i requires 0 <= i < |ps| => ps[i].id)
  }

  /**
   The index of the first row satisfying `cumple`: what `query.get(id)` and
   `filter_by(...).first()` return, in table order.
   */
  function Primero<T>(s: seq<T>, cumple: T -> bool): (r: Option<nat>)
    ensures r.Some? ==> r.value < |s| && cumple(s[r.value])
    ensures r.Some? ==> forall i :: 0 <= i < r.value ==> !cumple(s[i])
    ensures r.None? ==> forall i :: 0 <= i < |s| ==> !cumple(s[i])
  {
    if s == [] then None
    else if cumple(s[0]) then Some(0)
    else match Primero(s[1..], cumple)
      case None => None
      case Some(k) => Some(k + 1)
  }

  function PorId(js: seq<Jugador>, id: int): Option<nat>
  {
    Primero(js, (j: Jugador) => j.id == id)
  }

  function PorNombre(js: seq<Jugador>, nombre: string): Option<nat>
  {
    Primero(js, (j: Jugador) => j.nombre == nombre)
  }

  function PartidoPorId(ps: seq<Partido>, id: int): Option<nat>
  {
    Primero(ps, (p: Partido) => p.id == id)
  }

  /** `Jugador.query.filter_by(seleccionado=True).all()`, in table order. */
  function Seleccionados(js: seq<Jugador>): (r: seq<Jugador>)
    ensures forall j :: j in r <==> j in js && j.seleccionado
    ensures |r| <= |js|
  {
    if js == [] then []
    else (if js[0].seleccionado then [js[0]] else []) + Seleccionados(js[1..])
  }

  /** The selection is taken row by row, so it keeps the table order. */
  lemma {:induction false} SeleccionadosConcat(a: seq<Jugador>, b: seq<Jugador>)
    ensures Seleccionados(a + b) == Seleccionados(a) + Seleccionados(b)
  {
    if a == [] {
      assert a + b == b;
    } else {
      assert (a + b)[0] == a[0] && (a + b)[1..] == a[1..] + b;
      SeleccionadosConcat(a[1..], b);
      var x := if a[0].seleccionado then [a[0]] else [];
      calc {
        Seleccionados(a + b);
        x + Seleccionados(a[1..] + b);
        x + (Seleccionados(a[1..]) + Seleccionados(b));
        (x + Seleccionados(a[1..])) + Seleccionados(b);
        Seleccionados(a) + Seleccionados(b);
      }
    }
  }

  /** The matches that survive `Partido.query.filter(id_local == id | id_visitante == id).delete()`. */
  function SinJugador(ps: seq<Partido>, id: int): (r: seq<Partido>)
    ensures forall p :: p in r <==> p in ps && !Involucra(p, id)
    ensures |r| <= |ps|
  {
    if ps == [] then []
    else (if Involucra(ps[0], id) then [] else [ps[0]]) + SinJugador(ps[1..], id)
  }

  lemma {:induction false} SinJugadorConcat(a: seq<Partido>, b: seq<Partido>, id: int)
    ensures SinJugador(a + b, id) == SinJugador(a, id) + SinJugador(b, id)
  {
    if a != [] {
      assert (a + b)[0] == a[0] && (a + b)[1..] == a[1..] + b;
      SinJugadorConcat(a[1..], b, id);
      var x := if Involucra(a[0], id) then [] else [a[0]];
      calc {
        SinJugador(a + b, id);
        x + SinJugador(a[1..] + b, id);
        x + (SinJugador(a[1..], id) + SinJugador(b, id));
        (x + SinJugador(a[1..], id)) + SinJugador(b, id);
        SinJugador(a, id) + SinJugador(b, id);
      }
    } else {
      assert a + b == b;
    }
  }

  lemma ColaDistinta(ps: seq<Partido>)
    requires ps != [] && Distintos(IdsPartidos(ps))
    ensures Distintos(IdsPartidos(ps[1..]))
    ensures forall q :: q in ps[1..] ==> q.id != ps[0].id
  {
    var cola := ps[1..];
    forall i, j | 0 <= i < j < |cola| ensures IdsPartidos(cola)[i] != IdsPartidos(cola)[j] {
      assert IdsPartidos(ps)[i + 1] == cola[i].id && IdsPartidos(ps)[j + 1] == cola[j].id;
    }
    forall q | q in cola ensures q.id != ps[0].id {
      var k :| 0 <= k < |cola| && cola[k] == q;
      assert IdsPartidos(ps)[0] == ps[0].id && IdsPartidos(ps)[k + 1] == q.id;
    }
  }

  /** Putting a row in front of rows with other ids keeps the ids distinct. */
  lemma DelanteDistinto(p: Partido, resto: seq<Partido>)
    requires Distintos(IdsPartidos(resto))
    requires forall q :: q in resto ==> q.id != p.id
    ensures Distintos(IdsPartidos([p] + resto))
  {
    var r := [p] + resto;
    forall i, j | 0 <= i < j < |r| ensures IdsPartidos(r)[i] != IdsPartidos(r)[j] {
      assert IdsPartidos(r)[i] == r[i].id && IdsPartidos(r)[j] == r[j].id;
      assert r[j] == resto[j - 1];
      if i == 0 {
        assert resto[j - 1] in resto;
      } else {
        assert r[i] == resto[i - 1];
        assert IdsPartidos(resto)[i - 1] == r[i].id && IdsPartidos(resto)[j - 1] == r[j].id;
      }
    }
  }

  /** The cascade filter keeps the table order, so the match ids stay distinct. */
  lemma {:induction false} SinJugadorIdsDistintos(ps: seq<Partido>, id: int)
    requires Distintos(IdsPartidos(ps))
    ensures Distintos(IdsPartidos(SinJugador(ps, id)))
  {
    if ps != [] {
      ColaDistinta(ps);
      SinJugadorIdsDistintos(ps[1..], id);
      var resto := SinJugador(ps[1..], id);
      if !Involucra(ps[0], id) {
        DelanteDistinto(ps[0], resto);
        assert SinJugador(ps, id) == [ps[0]] + resto;
      } else {
        assert SinJugador(ps, id) == resto;
      }
    }
  }

  /** Python's `str.isspace` for one character: the characters `str.strip()` removes. */
  predicate EsEspacio(c: char)
  {
    var n := c as int;
    (9 <= n <= 13) || (28 <= n <= 32) || n == 0x85 || n == 0xA0 || n == 0x1680
    || (0x2000 <= n <= 0x200A) || n == 0x2028 || n == 0x2029 || n == 0x202F
    || n == 0x205F || n == 0x3000
  }

  /** `str.lstrip()`: drops the leading whitespace and nothing else. */
  function QuitarIzquierda(s: string): (r: string)
    ensures |r| <= |s| && r == s[|s| - |r|..]
    ensures forall i :: 0 <= i < |s| - |r| ==> EsEspacio(s[i])
    ensures r != [] ==> !EsEspacio(r[0])
  {
    if s != [] && EsEspacio(s[0]) then QuitarIzquierda(s[1..]) else s
  }

  /** `str.rstrip()`: drops the trailing whitespace and nothing else. */
  function QuitarDerecha(s: string): (r: string)
    ensures |r| <= |s| && r == s[..|r|]
    ensures forall i :: |r| <= i < |s| ==> EsEspacio(s[i])
    ensures r != [] ==> !EsEspacio(r[|r| - 1])
  {
    if s != [] && EsEspacio(s[|s| - 1]) then QuitarDerecha(s[..|s| - 1]) else s
  }

  /**
   `str.strip()`. The result is empty exactly when the input is all
   whitespace (the test `if not nombre`), and otherwise neither starts nor
   ends with whitespace.
   */
  function Strip(s: string): (r: string)
    ensures r == [] <==> forall i :: 0 <= i < |s| ==> EsEspacio(s[i])
    ensures r != [] ==> !EsEspacio(r[0]) && !EsEspacio(r[|r| - 1])
    ensures |r| <= |s|
  {
    var izq := QuitarIzquierda(s);
    var r := QuitarDerecha(izq);
    assert r == [] ==> izq == [];
    r
  }

  /** Stripping twice is stripping once. */
  lemma StripIdempotente(s: string)
    ensures Strip(Strip(s)) == Strip(s)
  {
    var t := Strip(s);
    if t != [] {
      assert QuitarIzquierda(t) == t;
      assert QuitarDerecha(t) == t;
    }
  }

  /** Each selected player is in the selection as many times as in the table; no other one is. */
  lemma {:induction false} SeleccionadosMultiplicidad(js: seq<Jugador>, x: Jugador)
    ensures multiset(Seleccionados(js))[x] == if x.seleccionado then multiset(js)[x] else 0
  {
    if js != [] {
      var cola := js[1..];
      var cabeza := if js[0].seleccionado then [js[0]] else [];
      SeleccionadosMultiplicidad(cola, x);
      assert multiset(js) == multiset([js[0]]) + multiset(cola) by {
        assert js == [js[0]] + cola;
      }
      assert multiset(Seleccionados(js)) == multiset(cabeza) + multiset(Seleccionados(cola));
    }
  }

  lemma {:induction false} IdsDistintosSinRepetir(js: seq<Jugador>, x: Jugador)
    requires Distintos(IdsJugadores(js))
    ensures multiset(js)[x] <= 1
  {
    if js != [] {
      var cola := js[1..];
      assert Distintos(IdsJugadores(cola)) by {
        forall i, j | 0 <= i < j < |cola| ensures IdsJugadores(cola)[i] != IdsJugadores(cola)[j] {
          assert IdsJugadores(js)[i + 1] == cola[i].id && IdsJugadores(js)[j + 1] == cola[j].id;
        }
      }
      IdsDistintosSinRepetir(cola, x);
      assert js == [js[0]] + cola;
      forall k | 0 <= k < |cola| ensures cola[k] != js[0] {
        assert IdsJugadores(js)[0] == js[0].id && IdsJugadores(js)[k + 1] == cola[k].id;
      }
    }
  }

  lemma MismoIdMismoJugador(js: seq<Jugador>, a: Jugador, b: Jugador)
    requires Distintos(IdsJugadores(js))
    requires a in js && b in js
    ensures a.id == b.id ==> a == b
  {
    var x :| 0 <= x < |js| && js[x] == a;
    var y :| 0 <= y < |js| && js[y] == b;
    assert IdsJugadores(js)[x] == a.id && IdsJugadores(js)[y] == b.id;
  }

  lemma DosVeces<T>(s: seq<T>, i: nat, k: nat)
    requires i < k < |s| && s[i] == s[k]
    ensures multiset(s)[s[k]] >= 2
  {
    assert s == s[..k] + [s[k]] + s[k + 1..];
    assert s[..k][i] == s[k];
  }

  /**
   A shuffle of the selected players of a table with distinct ids has
   distinct ids: no player can be drawn twice into the bracket.
   */
  lemma OrdenSinRepetidos(js: seq<Jugador>, orden: seq<Jugador>)
    requires Distintos(IdsJugadores(js))
    requires multiset(orden) == multiset(Seleccionados(js))
    ensures Distintos(IdsJugadores(orden))
    ensures forall j :: j in orden ==> j in js && j.seleccionado
  {
    forall j | j in orden ensures j in js && j.seleccionado {
      assert j in multiset(orden);
      assert j in Seleccionados(js);
    }
    forall i, k | 0 <= i < k < |orden| ensures orden[i] != orden[k] {
      if orden[i] == orden[k] {
        DosVeces(orden, i, k);
        SeleccionadosMultiplicidad(js, orden[k]);
        IdsDistintosSinRepetir(js, orden[k]);
      }
    }
    forall i, k | 0 <= i < k < |orden| ensures IdsJugadores(orden)[i] != IdsJugadores(orden)[k] {
      MismoIdMismoJugador(js, orden[i], orden[k]);
    }
  }
}
