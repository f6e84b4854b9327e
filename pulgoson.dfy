/**
 * The missile (Pulgoson): it hits max(1, n / 2) fleas of a list of n,
 * chosen as the front of a shuffled copy of the list.  Each chosen flea is
 * looked up by identity in the current list and hit there.
 */
module Pulgoson {
  import opened Pulgas
  import opened Impactos

  /** Math.max(1, n / 2). */
  function NumeroAtaques(n: nat): (k: nat)
    ensures k >= 1 && k >= n / 2 && (k == 1 || k == n / 2)
  {
    if n / 2 > 1 then n / 2 else 1
  }

  /** The fleas the missile hits: the first NumeroAtaques(n) of the shuffled copy, or all of it if shorter. */
  function Objetivos(mezcla: seq<Pulga>): (t: seq<Pulga>)
    ensures t <= mezcla
    ensures |t| == if NumeroAtaques(|mezcla|) <= |mezcla| then NumeroAtaques(|mezcla|) else |mezcla|
  {
    var k := NumeroAtaques(|mezcla|);
    if k <= |mezcla| then mezcla[..k] else mezcla
  }

  /** A non-empty field loses at least one and at most half (but at least one) of its fleas to the missile's hits. */
  lemma ObjetivosCuantos(mezcla: seq<Pulga>)
    ensures |mezcla| == 0 ==> Objetivos(mezcla) == []
    ensures |mezcla| >= 1 ==> |Objetivos(mezcla)| == NumeroAtaques(|mezcla|) >= 1
    ensures |mezcla| >= 2 ==> 2 * |Objetivos(mezcla)| <= |mezcla|
  {
  }

  /** The number of normal fleas in s. */
  function Normales(s: seq<Pulga>): (n: nat)
    ensures n <= |s|
  {
    if s == [] then 0
    else Normales(s[..|s| - 1]) + if s[|s| - 1].variante == PulgaNormal then 1 else 0
  }

  /**
   * atacar(pulgas, x, y), with mezcla the order Collections.shuffle gave the
   * copy.  The point (x, y) is ignored.  The result is the list with the
   * chosen fleas hit in turn; the kills are the normal fleas among them.
   */
  method Atacar(pulgas: seq<Pulga>, mezcla: seq<Pulga>) returns (resultado: seq<Pulga>, eliminadas: nat)
    requires multiset(mezcla) == multiset(pulgas)
    ensures pulgas == [] ==> resultado == [] && eliminadas == 0
    ensures Encaja(resultado, Esperado(pulgas, multiset(Objetivos(mezcla))), pulgas)
    ensures eliminadas == Normales(Objetivos(mezcla)) <= |Objetivos(mezcla)|
    ensures |resultado| + eliminadas == |pulgas|
    ensures Distintas(pulgas) ==> Distintas(resultado)
    ensures forall p :: p in resultado ==> p in pulgas || (p.variante == PulgaNormal && p.Dimensionada())
  {
    if |pulgas| == 0 {
      SinPulgas(mezcla);
      return pulgas, 0;
    }
    var numeroAtaques := NumeroAtaques(|pulgas|);
    eliminadas := 0;
    var copia := mezcla;
    assert |copia| == |pulgas| by {
      assert |multiset(copia)| == |multiset(pulgas)|;
    }
    resultado := pulgas;
    EsperadoSinObjetivos(pulgas);
    EncajaIntactas(pulgas, pulgas);
    ghost var k := if numeroAtaques <= |copia| then numeroAtaques else |copia|;
    assert Objetivos(copia) == copia[..k];
    var i := 0;
    ghost var hechos: multiset<Pulga> := multiset{};
    while i < numeroAtaques && i < |copia|
      invariant 0 <= i <= k && hechos == multiset(copia[..i])
      invariant Encaja(resultado, Esperado(pulgas, hechos), pulgas)
      invariant eliminadas == Normales(copia[..i])
      invariant |resultado| + eliminadas == |pulgas|
      invariant Distintas(pulgas) ==> Distintas(resultado)
    {
      var muerta;
      PrefijoSiguiente(copia, pulgas, i);
      resultado, muerta := AtacarBlanco(resultado, copia, i, pulgas);
      if muerta {
        eliminadas := eliminadas + 1;
      }
      hechos := hechos + multiset{copia[i]};
      i := i + 1;
    }
    assert i == k;
    assert hechos == multiset(Objetivos(mezcla));
    EncajaProcedencia(resultado, Esperado(pulgas, hechos), pulgas);
  }

  /**
   * One turn of the attack loop: the i-th flea of the shuffled copy is looked
   * up by identity in the current list and, when found, hit there.  It is
   * always found, so the list becomes the one with one more target hit.
   */
  method AtacarBlanco(resultado: seq<Pulga>, copia: seq<Pulga>, i: nat, ghost pulgas: seq<Pulga>)
    returns (siguiente: seq<Pulga>, muerta: bool)
    requires multiset(copia) == multiset(pulgas) && i < |copia|
    requires Encaja(resultado, Esperado(pulgas, multiset(copia[..i])), pulgas)
    ensures Encaja(siguiente, Esperado(pulgas, multiset(copia[..i + 1])), pulgas)
    ensures muerta <==> copia[i].variante == PulgaNormal
    ensures |siguiente| + (if muerta then 1 else 0) == |resultado|
    ensures Distintas(resultado) ==> Distintas(siguiente)
  {
    var pulga := copia[i];
    PrefijoSiguiente(copia, pulgas, i);
    BlancoEncontrado(resultado, pulgas, multiset(copia[..i]), pulga);
    var indiceOriginal := IndiceDe(resultado, pulga);
    siguiente, muerta := resultado, false;
    if indiceOriginal != -1 {
      siguiente, muerta := ImpactarEn(resultado, indiceOriginal, Esperado(pulgas, multiset(copia[..i])), pulgas);
    }
  }

  /**
   * The next target is still in the list: indexOf finds it at the first
   * position that keeps it, and hitting it there gives the list with one more
   * target hit.
   */
  lemma BlancoEncontrado(resultado: seq<Pulga>, pulgas: seq<Pulga>, hechos: multiset<Pulga>, pulga: Pulga)
    requires Encaja(resultado, Esperado(pulgas, hechos), pulgas)
    requires hechos + multiset{pulga} <= multiset(pulgas) && pulga in pulgas
    ensures 0 <= IndiceDe(resultado, pulga) < |resultado|
    ensures resultado[IndiceDe(resultado, pulga)] == pulga
    ensures Esperado(pulgas, hechos + multiset{pulga}) ==
      Golpear(Esperado(pulgas, hechos), IndiceDe(resultado, pulga), pulga)
  {
    EsperadoPaso(pulgas, hechos, pulga);
    EncajaIndice(resultado, Esperado(pulgas, hechos), pulgas, pulga);
  }

  /** With no fleas there is nothing to shoot at and nothing is expected to change. */
  lemma SinPulgas(mezcla: seq<Pulga>)
    requires |multiset(mezcla)| == 0
    ensures Objetivos(mezcla) == [] && Normales([]) == 0
    ensures Esperado([], multiset(Objetivos(mezcla))) == []
  {
    assert |mezcla| == 0 by {
      assert |multiset(mezcla)| == 0;
    }
  }

  /** Taking one more flea of the shuffled copy: the counts of the prefix grow by that flea. */
  lemma PrefijoSiguiente(copia: seq<Pulga>, pulgas: seq<Pulga>, i: nat)
    requires multiset(copia) == multiset(pulgas) && i < |copia|
    ensures multiset(copia[..i + 1]) == multiset(copia[..i]) + multiset{copia[i]} <= multiset(pulgas)
    ensures copia[i] in pulgas
    ensures Normales(copia[..i + 1]) == Normales(copia[..i]) + if copia[i].variante == PulgaNormal then 1 else 0
  {
    assert copia[..i + 1] == copia[..i] + [copia[i]];
    assert copia[..i + 1][..i] == copia[..i];
    assert copia == copia[..i + 1] + copia[i + 1..];
    assert copia[i] in multiset(pulgas);
  }
}
