/**
 * The pistol (Pulguipium): a shot at (x, y) hits the first flea in list
 * order whose box contains the point, if any.
 */
module Pulguipium {
  import opened Pulgas
  import opened Impactos

  /** The first position whose flea contains (x, y), or |pulgas| when none does. */
  function PrimeraEnPunto(pulgas: seq<Pulga>, x: int, y: int): (i: nat)
    reads pulgas
    ensures i <= |pulgas|
    ensures forall j :: 0 <= j < i ==> !pulgas[j].ContienePunto(x, y)
    ensures i < |pulgas| ==> pulgas[i].ContienePunto(x, y)
  {
    if pulgas == [] then 0
    else if pulgas[0].ContienePunto(x, y) then 0
    else 1 + PrimeraEnPunto(pulgas[1..], x, y)
  }

  /** The kills of a shot at (x, y): one when the first flea containing the point is a normal flea. */
  function Bajas(pulgas: seq<Pulga>, x: int, y: int): (n: nat)
    reads pulgas
    ensures n <= 1
    ensures n == 1 <==> exists i :: 0 <= i < |pulgas| && pulgas[i].ContienePunto(x, y) &&
                                     pulgas[i].variante == PulgaNormal &&
                                     forall j :: 0 <= j < i ==> !pulgas[j].ContienePunto(x, y)
  {
    var i := PrimeraEnPunto(pulgas, x, y);
    if i < |pulgas| && pulgas[i].variante == PulgaNormal then 1 else 0
  }

  /**
   * What a shot leaves of the list L, when i is the position of the first
   * flea containing the point: L with the flea at i hit, or L untouched when
   * there is no such flea (i == |L|).
   */
  function Disparo(L: seq<Pulga>, i: nat): seq<Resto>
    requires i <= |L|
  {
    if i < |L| then Golpear(Intactas(L), i, L[i]) else Intactas(L)
  }

  /** PrimeraEnPunto is the only position before which no flea contains the point and at which one does. */
  lemma {:induction false} PrimeraEnPuntoUnica(pulgas: seq<Pulga>, x: int, y: int, i: nat)
    requires i <= |pulgas|
    requires forall j :: 0 <= j < i ==> !pulgas[j].ContienePunto(x, y)
    requires i < |pulgas| ==> pulgas[i].ContienePunto(x, y)
    ensures PrimeraEnPunto(pulgas, x, y) == i
  {
    if i > 0 {
      PrimeraEnPuntoUnica(pulgas[1..], x, y, i - 1);
    }
  }

  /**
   * atacar(pulgas, x, y): the list after the shot and the number of fleas
   * killed.  The first flea containing the point is hit: a normal flea is
   * removed (one kill), a mutant is replaced in place by a normal flea at its
   * position (no kill); without such a flea nothing changes.
   */
  method Atacar(pulgas: seq<Pulga>, x: int, y: int) returns (resultado: seq<Pulga>, eliminadas: nat)
    ensures Encaja(resultado, Disparo(pulgas, PrimeraEnPunto(pulgas, x, y)), pulgas)
    ensures PrimeraEnPunto(pulgas, x, y) == |pulgas| ==> resultado == pulgas
    ensures eliminadas == Bajas(pulgas, x, y) && |resultado| + eliminadas == |pulgas|
    ensures Distintas(pulgas) ==> Distintas(resultado)
    ensures forall p :: p in resultado ==> p in pulgas || (p.variante == PulgaNormal && p.Dimensionada())
  {
    for i := 0 to |pulgas|
      invariant forall j :: 0 <= j < i ==> !pulgas[j].ContienePunto(x, y)
    {
      var pulga := pulgas[i];
      if pulga.ContienePunto(x, y) {
        PrimeraEnPuntoUnica(pulgas, x, y, i);
        EncajaIntactas(pulgas, pulgas);
        var muerta;
        resultado, muerta := ImpactarEn(pulgas, i, Intactas(pulgas), pulgas);
        EncajaProcedencia(resultado, Golpear(Intactas(pulgas), i, pulgas[i]), pulgas);
        return resultado, if muerta then 1 else 0;
      }
    }
    PrimeraEnPuntoUnica(pulgas, x, y, |pulgas|);
    EncajaIntactas(pulgas, pulgas);
    return pulgas, 0;
  }
}
