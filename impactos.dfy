/**
 * What the weapons do to a list of fleas.  Both weapons hit fleas with
 * impactar and write the outcome back at the flea's position: a dead (normal)
 * flea is removed, a mutant is replaced by a new normal flea at its place.
 * The lists they leave are described here as sequences of Resto entries,
 * which are values and can be reasoned about without the heap.
 */
module Impactos {
  import opened Pulgas

  /** One position of a flea list after the hits: the same flea, or a new normal flea where origen stood. */
  datatype Resto = Igual(pulga: Pulga) | Nueva(origen: Pulga)

  /**
   * The list R is described by E: a kept flea is the very same object, and
   * each Nueva position holds a normal flea of the right size at the position
   * of its origen, a flea of L, and was itself not in L.
   */
  ghost predicate Encaja(R: seq<Pulga>, E: seq<Resto>, L: seq<Pulga>)
    reads R, L
  {
    && |R| == |E|
    && forall j :: 0 <= j < |R| ==>
         match E[j]
         case Igual(p) => R[j] == p && p in L
         case Nueva(o) =>
           && o in L && R[j] !in L && R[j].variante == PulgaNormal && R[j].Dimensionada()
           && R[j].x == o.x && R[j].y == o.y
  }

  /** The description of an untouched list. */
  function Intactas(L: seq<Pulga>): (E: seq<Resto>)
    ensures |E| == |L| && forall j :: 0 <= j < |L| ==> E[j] == Igual(L[j])
  {
    if L == [] then [] else [Igual(L[0])] + Intactas(L[1..])
  }

  /** A list is described as untouched exactly when it is the list itself. */
  lemma EncajaIntactas(R: seq<Pulga>, L: seq<Pulga>)
    ensures Encaja(R, Intactas(L), L) <==> R == L
  {
    if Encaja(R, Intactas(L), L) {
      assert forall j :: 0 <= j < |R| ==> R[j] == L[j];
    }
  }

  /** The first position of E that keeps flea t, or |E| when there is none. */
  function PrimerIgual(E: seq<Resto>, t: Pulga): (r: nat)
    ensures r <= |E|
    ensures r < |E| ==> E[r] == Igual(t)
    ensures forall j :: 0 <= j < r ==> E[j] != Igual(t)
  {
    if E == [] then 0
    else if E[0] == Igual(t) then 0
    else 1 + PrimerIgual(E[1..], t)
  }

  /** impactar applied to flea t standing at position j of E. */
  function Golpear(E: seq<Resto>, j: nat, t: Pulga): seq<Resto>
    requires j < |E|
  {
    match TrasImpacto(t.variante)
    case None => E[..j] + E[j + 1..]
    case Some(_) => E[j := Nueva(t)]
  }

  /**
   * The list L after the fleas of the multiset m were hit, each in the order
   * the hits come: hitting flea t acts on the first position still holding t,
   * so the first m[p] positions of each flea p are the ones hit.
   */
  function Esperado(L: seq<Pulga>, m: multiset<Pulga>): seq<Resto>
  {
    if L == [] then []
    else
      var p := L[0];
      if m[p] == 0 then [Igual(p)] + Esperado(L[1..], m)
      else if p.variante == PulgaNormal then Esperado(L[1..], m - multiset{p})
      else [Nueva(p)] + Esperado(L[1..], m - multiset{p})
  }

  /** With nothing hit, the list is untouched. */
  lemma {:induction false} EsperadoSinObjetivos(L: seq<Pulga>)
    ensures Esperado(L, multiset{}) == Intactas(L)
  {
    if L != [] {
      EsperadoSinObjetivos(L[1..]);
    }
  }

  /** A flea of L that is not among the hit ones is still in the list. */
  lemma {:induction false} EsperadoConserva(L: seq<Pulga>, m: multiset<Pulga>, p: Pulga)
    requires p in L && p !in m
    ensures Igual(p) in Esperado(L, m)
  {
    if L[0] != p {
      assert p in L[1..] by { var j :| 0 <= j < |L| && L[j] == p; assert L[1..][j - 1] == p; }
      EsperadoConserva(L[1..], if m[L[0]] == 0 then m else m - multiset{L[0]}, p);
    }
  }

  lemma PrimerIgualTrasPrefijo(h: seq<Resto>, E: seq<Resto>, t: Pulga)
    requires forall k :: 0 <= k < |h| ==> h[k] != Igual(t)
    ensures PrimerIgual(h + E, t) == |h| + PrimerIgual(E, t)
  {
    var r := PrimerIgual(h + E, t);
    var q := PrimerIgual(E, t);
    assert forall j :: |h| <= j < |h| + q ==> (h + E)[j] == E[j - |h|] != Igual(t);
    if q < |E| {
      assert (h + E)[|h| + q] == Igual(t);
    }
  }

  lemma GolpearTrasPrefijo(h: seq<Resto>, E: seq<Resto>, j: nat, t: Pulga)
    requires j < |E|
    ensures Golpear(h + E, |h| + j, t) == h + Golpear(E, j, t)
  {
    if TrasImpacto(t.variante).None? {
      assert (h + E)[..|h| + j] == h + E[..j];
      assert (h + E)[|h| + j + 1..] == E[j + 1..];
    }
  }

  lemma QuitarUno(a: multiset<Pulga>, b: multiset<Pulga>, p: Pulga)
    requires a <= multiset{p} + b
    ensures a - multiset{p} <= b
  {
    forall q ensures (a - multiset{p})[q] <= b[q] {
      if q == p {
        assert a[q] <= 1 + b[q];
      } else {
        assert a[q] <= b[q];
      }
    }
  }

  /**
   * Hitting one more flea t moves from the list described by Esperado(L, m) to
   * the one described by Esperado(L, m + {t}): t is found at the first
   * position that still keeps it, and impactar acts there.
   */
  lemma {:induction false} EsperadoPaso(L: seq<Pulga>, m: multiset<Pulga>, t: Pulga)
    requires m + multiset{t} <= multiset(L)
    ensures PrimerIgual(Esperado(L, m), t) < |Esperado(L, m)|
    ensures Esperado(L, m + multiset{t}) == Golpear(Esperado(L, m), PrimerIgual(Esperado(L, m), t), t)
    decreases |L|, 2
  {
    assert t in multiset(L);
    assert L == [L[0]] + L[1..];
    assert multiset(L) == multiset{L[0]} + multiset(L[1..]);
    QuitarUno(m + multiset{t}, multiset(L[1..]), L[0]);
    if L[0] == t && m[t] == 0 {
      EsperadoPasoAqui(L, m, t);
    } else if m[L[0]] == 0 {
      EsperadoPasoConserva(L, m, t);
    } else {
      EsperadoPasoGolpea(L, m, t);
    }
  }

  /** The case of EsperadoPaso where position 0 of L is the one hit. */
  lemma EsperadoPasoAqui(L: seq<Pulga>, m: multiset<Pulga>, t: Pulga)
    requires L != [] && L[0] == t && m[t] == 0
    ensures PrimerIgual(Esperado(L, m), t) < |Esperado(L, m)|
    ensures Esperado(L, m + multiset{t}) == Golpear(Esperado(L, m), PrimerIgual(Esperado(L, m), t), t)
  {
    var resto := Esperado(L[1..], m);
    assert Esperado(L, m) == [Igual(t)] + resto;
    EsperadoPrimeraGolpeada(L, m, t);
    GolpearCabeza(resto, t);
  }

  /** Hitting the first flea of L once more than m does: it goes away, or a new flea takes its place. */
  lemma EsperadoPrimeraGolpeada(L: seq<Pulga>, m: multiset<Pulga>, t: Pulga)
    requires L != [] && L[0] == t && m[t] == 0
    ensures Esperado(L, m + multiset{t}) ==
      if t.variante == PulgaNormal then Esperado(L[1..], m) else [Nueva(t)] + Esperado(L[1..], m)
  {
    assert (m + multiset{t})[t] > 0;
    assert m + multiset{t} - multiset{t} == m;
  }

  /** impactar on a flea kept at the head of the list. */
  lemma GolpearCabeza(resto: seq<Resto>, t: Pulga)
    ensures PrimerIgual([Igual(t)] + resto, t) == 0
    ensures Golpear([Igual(t)] + resto, 0, t) == if t.variante == PulgaNormal then resto else [Nueva(t)] + resto
  {
    if t.variante == PulgaNormal {
      assert resto == ([Igual(t)] + resto)[1..];
    }
  }

  /** The case of EsperadoPaso where position 0 of L is kept. */
  lemma {:induction false} EsperadoPasoConserva(L: seq<Pulga>, m: multiset<Pulga>, t: Pulga)
    requires L != [] && L[0] != t && m[L[0]] == 0
    requires m + multiset{t} - multiset{L[0]} <= multiset(L[1..])
    ensures PrimerIgual(Esperado(L, m), t) < |Esperado(L, m)|
    ensures Esperado(L, m + multiset{t}) == Golpear(Esperado(L, m), PrimerIgual(Esperado(L, m), t), t)
    decreases |L|, 1
  {
    var m1 := m + multiset{t};
    assert m1 - multiset{L[0]} == m1;
    PasoTrasPrefijo(L, m, t, [Igual(L[0])], m);
  }

  /** The case of EsperadoPaso where position 0 of L is among the fleas already hit. */
  lemma {:induction false} EsperadoPasoGolpea(L: seq<Pulga>, m: multiset<Pulga>, t: Pulga)
    requires L != [] && m[L[0]] > 0
    requires m + multiset{t} - multiset{L[0]} <= multiset(L[1..])
    ensures PrimerIgual(Esperado(L, m), t) < |Esperado(L, m)|
    ensures Esperado(L, m + multiset{t}) == Golpear(Esperado(L, m), PrimerIgual(Esperado(L, m), t), t)
    decreases |L|, 1
  {
    var p := L[0];
    var m0 := m - multiset{p};
    assert m + multiset{t} - multiset{p} == m0 + multiset{t};
    PasoTrasPrefijo(L, m, t, if p.variante == PulgaNormal then [] else [Nueva(p)], m0);
  }

  /** EsperadoPaso on L from EsperadoPaso on L[1..], when position 0 contributes h and leaves m0 to the rest. */
  lemma {:induction false} PasoTrasPrefijo(L: seq<Pulga>, m: multiset<Pulga>, t: Pulga, h: seq<Resto>, m0: multiset<Pulga>)
    requires L != [] && m0 + multiset{t} <= multiset(L[1..])
    requires forall k :: 0 <= k < |h| ==> h[k] != Igual(t)
    requires Esperado(L, m) == h + Esperado(L[1..], m0)
    requires Esperado(L, m + multiset{t}) == h + Esperado(L[1..], m0 + multiset{t})
    ensures PrimerIgual(Esperado(L, m), t) < |Esperado(L, m)|
    ensures Esperado(L, m + multiset{t}) == Golpear(Esperado(L, m), PrimerIgual(Esperado(L, m), t), t)
    decreases |L|, 0
  {
    EsperadoPaso(L[1..], m0, t);
    PrimerIgualTrasPrefijo(h, Esperado(L[1..], m0), t);
    GolpearTrasPrefijo(h, Esperado(L[1..], m0), PrimerIgual(Esperado(L[1..], m0), t), t);
  }

  /** In a list described by E, indexOf finds a flea of L exactly where E first keeps it. */
  lemma EncajaIndice(R: seq<Pulga>, E: seq<Resto>, L: seq<Pulga>, t: Pulga)
    requires Encaja(R, E, L) && t in L
    ensures IndiceDe(R, t) == (if PrimerIgual(E, t) == |E| then -1 else PrimerIgual(E, t))
  {
    assert forall j :: 0 <= j < |R| ==> (R[j] == t <==> E[j] == Igual(t));
  }

  /** Removing position j of a described list removes position j of its description. */
  lemma EncajaQuitar(R: seq<Pulga>, E: seq<Resto>, L: seq<Pulga>, j: nat)
    requires Encaja(R, E, L) && j < |R|
    ensures Encaja(R[..j] + R[j + 1..], E[..j] + E[j + 1..], L)
  {
    var R', E' := R[..j] + R[j + 1..], E[..j] + E[j + 1..];
    forall k | 0 <= k < |R'| ensures R'[k] == R[if k < j then k else k + 1] && E'[k] == E[if k < j then k else k + 1] {
    }
  }

  /** Writing a new normal flea q at position j of a described list. */
  lemma EncajaPoner(R: seq<Pulga>, E: seq<Resto>, L: seq<Pulga>, j: nat, q: Pulga, o: Pulga)
    requires Encaja(R, E, L) && j < |R|
    requires o in L && q !in L && q.variante == PulgaNormal && q.Dimensionada() && q.x == o.x && q.y == o.y
    ensures Encaja(R[j := q], E[j := Nueva(o)], L)
  {
  }

  /** Removing a position keeps a list free of repeats. */
  lemma DistintasQuitar(R: seq<Pulga>, j: nat)
    requires Distintas(R) && j < |R|
    ensures Distintas(R[..j] + R[j + 1..])
  {
    var R' := R[..j] + R[j + 1..];
    forall a, b | 0 <= a < b < |R'| ensures R'[a] != R'[b] {
      assert R'[a] == R[if a < j then a else a + 1];
      assert R'[b] == R[if b < j then b else b + 1];
    }
  }

  /** Writing a flea that is not in the list keeps it free of repeats. */
  lemma DistintasPoner(R: seq<Pulga>, j: nat, q: Pulga)
    requires Distintas(R) && j < |R| && q !in R
    ensures Distintas(R[j := q])
  {
  }

  /** Every flea of a list that fits a description is an original one or a new normal flea. */
  lemma EncajaProcedencia(R: seq<Pulga>, E: seq<Resto>, L: seq<Pulga>)
    requires Encaja(R, E, L)
    ensures forall p :: p in R ==> p in L || (p.variante == PulgaNormal && p.Dimensionada())
  {
    forall p | p in R
      ensures p in L || (p.variante == PulgaNormal && p.Dimensionada())
    {
      var j :| 0 <= j < |R| && R[j] == p;
      assert j < |E|;
    }
  }

  /**
   * The common step of both weapons: the flea at position i is hit with
   * impactar; a dead flea is removed (muerta), a degraded one is written back
   * at position i.
   */
  method ImpactarEn(lista: seq<Pulga>, i: nat, ghost E: seq<Resto>, ghost L: seq<Pulga>)
    returns (resultado: seq<Pulga>, muerta: bool)
    requires i < |lista| && lista[i] in L && Encaja(lista, E, L)
    ensures Encaja(resultado, Golpear(E, i, lista[i]), L)
    ensures muerta <==> lista[i].variante == PulgaNormal
    ensures |resultado| + (if muerta then 1 else 0) == |lista|
    ensures Distintas(lista) ==> Distintas(resultado)
  {
    var golpeada := lista[i].Impactar();
    if golpeada == null {
      EncajaQuitar(lista, E, L, i);
      if Distintas(lista) {
        DistintasQuitar(lista, i);
      }
      resultado, muerta := lista[..i] + lista[i + 1..], true;
    } else {
      EncajaPoner(lista, E, L, i, golpeada, lista[i]);
      if Distintas(lista) {
        DistintasPoner(lista, i, golpeada);
      }
      resultado, muerta := lista[i := golpeada], false;
    }
  }
}
