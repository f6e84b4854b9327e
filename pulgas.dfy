/**
 * The flea entity: its axis-aligned box, the overlap and hit tests, the random
 * jump, and the impact rule of the two concrete kinds of flea (a mutant becomes
 * a normal flea at the same spot, a normal flea dies).
 */
module Pulgas {
  import opened Opcion

  /** Sizes fixed by the two concrete flea classes. */
  const ANCHO_NORMAL := 40
  const ALTO_NORMAL := 40
  const ANCHO_MUTANTE := 50
  const ALTO_MUTANTE := 50

  /**
   * A stream of draws standing for a java.util.Random object: the k-th call
   * nextInt(bound) of an operation yields s(k) % bound.  Any sequence of
   * in-range results is some stream (values already in range come back as
   * they are), so every behaviour of the generator is covered.
   */
  type Sorteos = nat -> nat

  /** Random.nextInt(cota) as the k-th draw of the stream. */
  function SiguienteEntero(s: Sorteos, k: nat, cota: int): (r: int)
    requires cota > 0
    ensures 0 <= r < cota
  {
    s(k) % cota
  }

  /** An axis-aligned box: top-left corner (x, y), width and height. */
  datatype Caja = Caja(x: int, y: int, ancho: int, alto: int) {

    /** Overlap test of colisiona: strict on both axes. */
    predicate Solapa(otra: Caja) {
      x < otra.x + otra.ancho && x + ancho > otra.x &&
      y < otra.y + otra.alto && y + alto > otra.y
    }

    /** Hit test of contienePunto: inclusive on both edges of both axes. */
    predicate Contiene(px: int, py: int) {
      px >= x && px <= x + ancho && py >= y && py <= y + alto
    }

    /** The unit cell at (px, py) lies inside the box (half-open bounds). */
    predicate TieneCelda(px: int, py: int) {
      x <= px < x + ancho && y <= py < y + alto
    }
  }

  /** Two boxes of positive size overlap exactly when they share a unit cell, i.e. their interiors meet. */
  lemma SolapaSiCompartenCelda(a: Caja, b: Caja)
    requires a.ancho > 0 && a.alto > 0 && b.ancho > 0 && b.alto > 0
    ensures a.Solapa(b) <==> exists px, py :: a.TieneCelda(px, py) && b.TieneCelda(px, py)
  {
    if a.Solapa(b) {
      var px := if a.x < b.x then b.x else a.x;
      var py := if a.y < b.y then b.y else a.y;
      assert a.TieneCelda(px, py) && b.TieneCelda(px, py);
    }
  }

  /** Overlap is symmetric. */
  lemma SolapaSimetrica(a: Caja, b: Caja)
    ensures a.Solapa(b) <==> b.Solapa(a)
  {
  }

  /** A box with positive width and height overlaps itself. */
  lemma SolapaConsigo(a: Caja)
    requires a.ancho > 0 && a.alto > 0
    ensures a.Solapa(a)
  {
  }

  /**
   * Two boxes that only share the vertical edge x = a.x + a.ancho do not
   * collide, yet every point of that edge common to both counts as a hit on
   * both: overlap is strict while the hit test is inclusive.
   */
  lemma BordeCompartido(a: Caja, b: Caja, py: int)
    requires a.ancho >= 0 && b.ancho >= 0
    requires b.x == a.x + a.ancho
    requires a.y <= py <= a.y + a.alto && b.y <= py <= b.y + b.alto
    ensures !a.Solapa(b) && !b.Solapa(a)
    ensures a.Contiene(b.x, py) && b.Contiene(b.x, py)
  {
  }

  /** The far corner is a hit, one past it is not. */
  lemma EsquinaLejana(c: Caja)
    requires c.ancho >= 0 && c.alto >= 0
    ensures c.Contiene(c.x + c.ancho, c.y + c.alto)
    ensures !c.Contiene(c.x + c.ancho + 1, c.y) && !c.Contiene(c.x, c.y + c.alto + 1)
  {
  }

  /** The two concrete flea classes. */
  datatype Variante = PulgaNormal | PulgaMutante

  function AnchoDe(v: Variante): int {
    if v == PulgaNormal then ANCHO_NORMAL else ANCHO_MUTANTE
  }

  function AltoDe(v: Variante): int {
    if v == PulgaNormal then ALTO_NORMAL else ALTO_MUTANTE
  }

  /** What an impact leaves of a flea of variant v: None when it dies. */
  function TrasImpacto(v: Variante): (r: Option<Variante>)
    ensures r.None? ==> v == PulgaNormal
    ensures r.Some? ==> r.value == PulgaNormal && AnchoDe(r.value) < AnchoDe(v) && AltoDe(r.value) < AltoDe(v)
  {
    match v
    case PulgaNormal => None
    case PulgaMutante => Some(PulgaNormal)
  }

  /** Number of impacts that eliminate a flea of variant v. */
  function Resistencia(v: Variante): (n: nat)
    decreases if v == PulgaMutante then 1 else 0
  {
    match TrasImpacto(v)
    case None => 1
    case Some(w) => 1 + Resistencia(w)
  }

  /** One impact kills a normal flea; a mutant survives the first and dies at the second. */
  lemma ImpactosHastaMorir()
    ensures Resistencia(PulgaNormal) == 1
    ensures TrasImpacto(PulgaMutante) == Some(PulgaNormal) && Resistencia(PulgaMutante) == 2
  {
  }

  /** A degraded flea is strictly smaller than the mutant it came from. */
  lemma DegradadaMasPequena()
    ensures AnchoDe(TrasImpacto(PulgaMutante).value) < AnchoDe(PulgaMutante)
    ensures AltoDe(TrasImpacto(PulgaMutante).value) < AltoDe(PulgaMutante)
  {
  }

  /**
   * A flea.  Only the position moves (saltar); the size and the concrete
   * class are fixed when the flea is built.
   */
  class Pulga {
    var x: int
    var y: int
    const ancho: int
    const alto: int
    const variante: Variante

    /** new PulgaNormal(x, y): the base constructor stores x, y and the 40x40 size as given. */
    constructor Normal(x: int, y: int)
      ensures this.x == x && this.y == y
      ensures ancho == ANCHO_NORMAL && alto == ALTO_NORMAL && variante == PulgaNormal
      ensures Dimensionada()
    {
      this.x, this.y := x, y;
      ancho, alto := ANCHO_NORMAL, ALTO_NORMAL;
      variante := PulgaNormal;
    }

    /** new PulgaMutante(x, y): the base constructor stores x, y and the 50x50 size as given. */
    constructor Mutante(x: int, y: int)
      ensures this.x == x && this.y == y
      ensures ancho == ANCHO_MUTANTE && alto == ALTO_MUTANTE && variante == PulgaMutante
      ensures Dimensionada()
    {
      this.x, this.y := x, y;
      ancho, alto := ANCHO_MUTANTE, ALTO_MUTANTE;
      variante := PulgaMutante;
    }

    /** The size is the one its class fixes (every flea is built by one of the two constructors). */
    predicate Dimensionada() {
      ancho == AnchoDe(variante) && alto == AltoDe(variante)
    }

    function Limites(): Caja
      reads this
    {
      Caja(x, y, ancho, alto)
    }

    /** Collision is mutual, and a flea of positive size collides with itself. */
    predicate Colisiona(otra: Pulga)
      reads this, otra
      ensures Colisiona(otra) <==> otra.Limites().Solapa(Limites())
      ensures otra == this && ancho > 0 && alto > 0 ==> Colisiona(otra)
    {
      Limites().Solapa(otra.Limites())
    }

    /** For a box of positive size, a hit is a point on one of the corners of a unit cell of the box. */
    predicate ContienePunto(puntoX: int, puntoY: int)
      reads this
      ensures ancho > 0 && alto > 0 ==>
        (ContienePunto(puntoX, puntoY) <==>
           || Limites().TieneCelda(puntoX, puntoY) || Limites().TieneCelda(puntoX - 1, puntoY)
           || Limites().TieneCelda(puntoX, puntoY - 1) || Limites().TieneCelda(puntoX - 1, puntoY - 1))
    {
      Limites().Contiene(puntoX, puntoY)
    }

    /** saltar(maxX, maxY): x := nextInt(maxX - ancho), y := nextInt(maxY - alto), draws k and k + 1. */
    method Saltar(maxX: int, maxY: int, s: Sorteos, k: nat)
      requires maxX > ancho && maxY > alto
      modifies this
      ensures x == SiguienteEntero(s, k, maxX - ancho) && y == SiguienteEntero(s, k + 1, maxY - alto)
      ensures 0 <= x < maxX - ancho && 0 <= y < maxY - alto
      ensures 0 <= x && x + ancho < maxX && 0 <= y && y + alto < maxY
    {
      x := SiguienteEntero(s, k, maxX - ancho);
      y := SiguienteEntero(s, k + 1, maxY - alto);
    }

    /**
     * impactar: a normal flea returns null (it dies); a mutant returns a new
     * normal flea at its own position.  The flea itself is left as it is.
     */
    method Impactar() returns (resultado: Pulga?)
      ensures TrasImpacto(variante).None? <==> resultado == null
      ensures resultado != null ==>
                fresh(resultado) && resultado.variante == TrasImpacto(variante).value &&
                resultado.x == x && resultado.y == y && resultado.Dimensionada()
    {
      if variante == PulgaNormal {
        resultado := null;
      } else {
        resultado := new Pulga.Normal(x, y);
      }
    }
  }

  /** No object occurs twice. */
  predicate Distintas<T(==)>(s: seq<T>) {
    forall i, j :: 0 <= i < j < |s| ==> s[i] != s[j]
  }

  /** ArrayList.indexOf by identity: the first position of p, or -1. */
  function IndiceDe<T(==)>(lista: seq<T>, p: T): (r: int)
    ensures -1 <= r < |lista|
    ensures r == -1 <==> p !in lista
    ensures r >= 0 ==> lista[r] == p && p !in lista[..r]
  {
    if lista == [] then -1
    else if lista[0] == p then 0
    else
      var r := IndiceDe(lista[1..], p);
      assert lista[1..][..r + 1] == lista[1..r + 2] by {
        if r >= 0 {}
      }
      if r == -1 then -1 else r + 1
  }

  /** The boxes of a list of fleas, position by position. */
  function Cajas(lista: seq<Pulga>): seq<Caja>
    reads lista
  {
    seq(|lista|, i requires 0 <= i < |lista| reads lista => lista[i].Limites())
  }
}
