/**
 Python's `sorted(s, key=clave, reverse=True)` on integer keys compared
 lexicographically: a stable sort into non-increasing key order. Stable
 means that rows with equal keys keep their original relative order.
 */
module Orden {

  /** A sort key: the tuple `(primaria, secundaria)`. */
  datatype Clave = Clave(primaria: int, secundaria: int)

  /** `a > b` on key tuples. */
  predicate Supera(a: Clave, b: Clave)
  {
    a.primaria > b.primaria || (a.primaria == b.primaria && a.secundaria > b.secundaria)
  }

  /** No row has a key greater than a row before it. */
  predicate Descendente<T>(s: seq<T>, clave: T -> Clave)
  {
    forall i, j :: 0 <= i < j < |s| ==> !Supera(clave(s[j]), clave(s[i]))
  }

  /** The rows of `s` whose key is `c`, in their order in `s`. */
  function ConClave<T>(s: seq<T>, clave: T -> Clave, c: Clave): seq<T>
  {
    if s == [] then []
    else (if clave(s[0]) == c then [s[0]] else []) + ConClave(s[1..], clave, c)
  }

  /** Puts `x` after every row of `s` whose key is greater than its own. */
  function Insertar<T>(x: T, s: seq<T>, clave: T -> Clave): seq<T>
  {
    if s == [] then [x]
    else if Supera(clave(s[0]), clave(x)) then [s[0]] + Insertar(x, s[1..], clave)
    else [x] + s
  }

  function Ordenar<T>(s: seq<T>, clave: T -> Clave): seq<T>
  {
    if s == [] then [] else Insertar(s[0], Ordenar(s[1..], clave), clave)
  }

  lemma {:induction false} InsertarPermuta<T>(x: T, s: seq<T>, clave: T -> Clave)
    ensures multiset(Insertar(x, s, clave)) == multiset(s) + multiset{x}
  {
    if s != [] && Supera(clave(s[0]), clave(x)) {
      InsertarPermuta(x, s[1..], clave);
      assert s == [s[0]] + s[1..];
    }
  }

  lemma {:induction false} InsertarDescendente<T>(x: T, s: seq<T>, clave: T -> Clave)
    requires Descendente(s, clave)
    ensures Descendente(Insertar(x, s, clave), clave)
  {
    if s != [] {
      if Supera(clave(s[0]), clave(x)) {
        var cola := s[1..];
        assert Descendente(cola, clave) by {
          forall i, j | 0 <= i < j < |cola| ensures !Supera(clave(cola[j]), clave(cola[i])) {
            assert cola[i] == s[i + 1] && cola[j] == s[j + 1];
          }
        }
        InsertarDescendente(x, cola, clave);
        InsertarPermuta(x, cola, clave);
        var t := Insertar(x, cola, clave);
        var r := [s[0]] + t;
        forall i, j | 0 <= i < j < |r| ensures !Supera(clave(r[j]), clave(r[i])) {
          if i == 0 {
            assert r[j] == t[j - 1];
            assert t[j - 1] in multiset(t);
            assert r[j] == x || r[j] in cola;
            if r[j] != x {
              var m :| 0 <= m < |cola| && cola[m] == r[j];
              assert s[m + 1] == r[j];
            }
          } else {
            assert r[i] == t[i - 1] && r[j] == t[j - 1];
          }
        }
      } else {
        var r := [x] + s;
        forall i, j | 0 <= i < j < |r| ensures !Supera(clave(r[j]), clave(r[i])) {
          if i == 0 {
            assert r[j] == s[j - 1];
            if j > 1 {
              assert !Supera(clave(s[j - 1]), clave(s[0]));
            }
          } else {
            assert r[i] == s[i - 1] && r[j] == s[j - 1];
          }
        }
      }
    }
  }

  lemma {:induction false} ConClavePrimero<T>(x: T, s: seq<T>, clave: T -> Clave, c: Clave)
    ensures ConClave([x] + s, clave, c) == (if clave(x) == c then [x] else []) + ConClave(s, clave, c)
  {
    assert ([x] + s)[0] == x && ([x] + s)[1..] == s;
  }

  /** Inserting `x` in front of its key class keeps every key class in order. */
  lemma {:induction false} InsertarEstable<T>(x: T, s: seq<T>, clave: T -> Clave, c: Clave)
    ensures ConClave(Insertar(x, s, clave), clave, c)
         == (if clave(x) == c then [x] else []) + ConClave(s, clave, c)
  {
    if s == [] {
      ConClavePrimero(x, s, clave, c);
    } else if Supera(clave(s[0]), clave(x)) {
      var resto := Insertar(x, s[1..], clave);
      InsertarEstable(x, s[1..], clave, c);
      ConClavePrimero(s[0], resto, clave, c);
      var enX := if clave(x) == c then [x] else [];
      var enS0 := if clave(s[0]) == c then [s[0]] else [];
      assert ConClave(s, clave, c) == enS0 + ConClave(s[1..], clave, c);
      assert enX == [] || enS0 == [];
      calc {
        ConClave(Insertar(x, s, clave), clave, c);
        ConClave([s[0]] + resto, clave, c);
        enS0 + (enX + ConClave(s[1..], clave, c));
        enX + (enS0 + ConClave(s[1..], clave, c));
      }
    } else {
      ConClavePrimero(x, s, clave, c);
    }
  }

  /**
   `Ordenar` is `sorted(..., reverse=True)`: a permutation of its input, in
   non-increasing key order, with rows of equal key in their input order.
   */
  lemma {:induction false} OrdenarCorrecto<T>(s: seq<T>, clave: T -> Clave)
    ensures multiset(Ordenar(s, clave)) == multiset(s)
    ensures Descendente(Ordenar(s, clave), clave)
    ensures forall c :: ConClave(Ordenar(s, clave), clave, c) == ConClave(s, clave, c)
  {
    if s != [] {
      OrdenarCorrecto(s[1..], clave);
      var t := Ordenar(s[1..], clave);
      InsertarPermuta(s[0], t, clave);
      InsertarDescendente(s[0], t, clave);
      assert s == [s[0]] + s[1..];
      forall c ensures ConClave(Ordenar(s, clave), clave, c) == ConClave(s, clave, c) {
        InsertarEstable(s[0], t, clave, c);
        ConClavePrimero(s[0], s[1..], clave, c);
      }
    }
  }
}
