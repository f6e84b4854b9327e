/**
 * The field: a list of fleas that is added to, removed from, cleared and made
 * to jump in place.  The value-level functions below say where each flea ends
 * up and which draws of the random stream are used; the methods of Campo are
 * proved against them.
 */
module Campos {
  import opened Pulgas

  /** Retry bound of agregarPulgaNormal, agregarPulgaMutante and hacerSaltarPulgas. */
  const MAX_INTENTOS := 50

  /** The box a flea of size (w, h) gets from two draws at k and k + 1 in a field W x H. */
  function CajaSorteada(s: Sorteos, k: nat, w: int, h: int, W: int, H: int): (c: Caja)
    requires W > w && H > h
    ensures c.ancho == w && c.alto == h
    ensures 0 <= c.x < W - w && 0 <= c.y < H - h
  {
    Caja(SiguienteEntero(s, k, W - w), SiguienteEntero(s, k + 1, H - h), w, h)
  }

  /** b overlaps some box of cs other than the one at position excluida (-1: none excluded). */
  predicate ChocaCon(b: Caja, cs: seq<Caja>, excluida: int) {
    exists j :: 0 <= j < |cs| && j != excluida && b.Solapa(cs[j])
  }

  /** No two boxes of the list overlap. */
  predicate SinSolapes(cs: seq<Caja>) {
    forall i, j :: 0 <= i < |cs| && 0 <= j < |cs| && i != j ==> !cs[i].Solapa(cs[j])
  }

  /** Appending a box that overlaps none of the list keeps the list free of overlaps. */
  lemma SinSolapesAlAgregar(cs: seq<Caja>, b: Caja)
    requires SinSolapes(cs) && !ChocaCon(b, cs, -1)
    ensures SinSolapes(cs + [b])
  {
    var ds := cs + [b];
    forall i, j | 0 <= i < |ds| && 0 <= j < |ds| && i != j
      ensures !ds[i].Solapa(ds[j])
    {
      if j == |cs| {
        assert !b.Solapa(cs[i]);
        SolapaSimetrica(b, cs[i]);
      } else if i == |cs| {
        assert !b.Solapa(cs[j]);
      }
    }
  }

  /** Moving box k to a place where it overlaps no other box keeps the list free of overlaps. */
  lemma SinSolapesAlMover(cs: seq<Caja>, k: nat, b: Caja)
    requires k < |cs| && SinSolapes(cs) && !ChocaCon(b, cs[k := b], k)
    ensures SinSolapes(cs[k := b])
  {
    var ds := cs[k := b];
    forall i, j | 0 <= i < |ds| && 0 <= j < |ds| && i != j
      ensures !ds[i].Solapa(ds[j])
    {
      if i == k {
        assert !b.Solapa(ds[j]);
      } else if j == k {
        assert !b.Solapa(ds[i]);
        SolapaSimetrica(b, ds[i]);
      }
    }
  }

  /*
   * Spawning.  Attempt i draws at 2i and 2i + 1; the first attempt whose box
   * overlaps no listed flea is the one that is added.
   */

  /** The box of spawn attempt i for a flea of size (w, h). */
  function CajaDeIntento(s: Sorteos, i: nat, w: int, h: int, W: int, H: int): Caja
    requires W > w && H > h
  {
    CajaSorteada(s, 2 * i, w, h, W, H)
  }

  /** Spawn attempt i lands on a listed flea. */
  predicate Ocupado(cs: seq<Caja>, w: int, h: int, W: int, H: int, s: Sorteos, i: nat)
    requires W > w && H > h
  {
    ChocaCon(CajaDeIntento(s, i, w, h, W, H), cs, -1)
  }

  /** The first attempt from i on whose box fits, or MAX_INTENTOS when none does. */
  function PrimerHueco(cs: seq<Caja>, w: int, h: int, W: int, H: int, s: Sorteos, i: nat): (r: nat)
    requires W > w && H > h && i <= MAX_INTENTOS
    ensures i <= r <= MAX_INTENTOS
    ensures forall j :: i <= j < r ==> Ocupado(cs, w, h, W, H, s, j)
    ensures r < MAX_INTENTOS ==> !Ocupado(cs, w, h, W, H, s, r)
    decreases MAX_INTENTOS - i
  {
    if i == MAX_INTENTOS then i
    else if !Ocupado(cs, w, h, W, H, s, i) then i
    else PrimerHueco(cs, w, h, W, H, s, i + 1)
  }

  /** The attempt r is the first free one as soon as all before it are taken and it is free (or past the last). */
  lemma PrimerHuecoUnico(cs: seq<Caja>, w: int, h: int, W: int, H: int, s: Sorteos, r: nat)
    requires W > w && H > h && r <= MAX_INTENTOS
    requires forall j :: 0 <= j < r ==> Ocupado(cs, w, h, W, H, s, j)
    requires r < MAX_INTENTOS ==> !Ocupado(cs, w, h, W, H, s, r)
    ensures PrimerHueco(cs, w, h, W, H, s, 0) == r
  {
  }

  /*
   * The jump pass of hacerSaltarPulgas, as written.  The listed flea k jumps
   * once (two draws).  If it then overlaps another listed flea, the loop
   * variable is rebound to a throwaway 40x40 flea, and each further retry
   * jumps only that throwaway, against all listed fleas, until one fits or
   * 50 attempts in all are spent.  The retries use up draws but write nothing
   * back, so flea k keeps the box of its first jump.
   */

  /** Every box can jump in a W x H field and is at least as large as the throwaway flea. */
  predicate Saltables(cs: seq<Caja>, W: int, H: int) {
    forall j :: 0 <= j < |cs| ==>
      ANCHO_NORMAL <= cs[j].ancho < W && ALTO_NORMAL <= cs[j].alto < H
  }

  /** Draw cursor after at most n retries of the throwaway flea, starting at draw u. */
  function Reintentos(cs: seq<Caja>, W: int, H: int, s: Sorteos, u: nat, n: nat): (r: nat)
    requires W > ANCHO_NORMAL && H > ALTO_NORMAL
    ensures u <= r <= u + 2 * n
    decreases n
  {
    if n == 0 then u
    else if ChocaCon(CajaSorteada(s, u, ANCHO_NORMAL, ALTO_NORMAL, W, H), cs, -1)
    then Reintentos(cs, W, H, s, u + 2, n - 1)
    else u + 2
  }

  /** Boxes and draw cursor after a step of the pass. */
  datatype Tras = Tras(cajas: seq<Caja>, cursor: nat)

  /** The turn of flea k, starting at draw u. */
  function SaltoDe(cs: seq<Caja>, k: nat, W: int, H: int, s: Sorteos, u: nat): (t: Tras)
    requires k < |cs| && Saltables(cs, W, H)
    ensures |t.cajas| == |cs| && Saltables(t.cajas, W, H)
    ensures u + 2 <= t.cursor
  {
    var b := CajaSorteada(s, u, cs[k].ancho, cs[k].alto, W, H);
    var ds := cs[k := b];
    if ChocaCon(b, ds, k) then Tras(ds, Reintentos(ds, W, H, s, u + 2, MAX_INTENTOS - 1))
    else Tras(ds, u + 2)
  }

  /** SaltoDe unfolded, for the box b of the first jump. */
  lemma SaltoDeAbierto(cs: seq<Caja>, k: nat, W: int, H: int, s: Sorteos, u: nat, b: Caja)
    requires k < |cs| && Saltables(cs, W, H)
    requires b == CajaSorteada(s, u, cs[k].ancho, cs[k].alto, W, H)
    ensures SaltoDe(cs, k, W, H, s, u).cajas == cs[k := b]
    ensures SaltoDe(cs, k, W, H, s, u).cursor ==
      if ChocaCon(b, cs[k := b], k) then Reintentos(cs[k := b], W, H, s, u + 2, MAX_INTENTOS - 1) else u + 2
  {
  }

  /** Reintentos unfolded once, for a known outcome choca of the collision test. */
  lemma ReintentoAbierto(cs: seq<Caja>, W: int, H: int, s: Sorteos, u: nat, n: nat, choca: bool)
    requires W > ANCHO_NORMAL && H > ALTO_NORMAL && n > 0
    requires choca == ChocaCon(CajaSorteada(s, u, ANCHO_NORMAL, ALTO_NORMAL, W, H), cs, -1)
    ensures Reintentos(cs, W, H, s, u, n) == if choca then Reintentos(cs, W, H, s, u + 2, n - 1) else u + 2
  {
  }

  /**
   * Attempt i of the turn of flea k, which drew from cursor v the box b and
   * found the listed boxes cs: the first attempt moves flea k, later ones move
   * the throwaway flea only.  Afterwards the listed boxes are those of the turn,
   * and the cursor of the turn is v + 2 if the box fits, or what the remaining
   * retries from v + 2 give if it collides.
   */
  lemma TrasIntento(antes: seq<Caja>, k: nat, W: int, H: int, s: Sorteos, u: nat, tras: Tras,
                    i: nat, v: nat, b: Caja, cs: seq<Caja>, choca: bool)
    requires k < |antes| && Saltables(antes, W, H) && i < MAX_INTENTOS
    requires tras == SaltoDe(antes, k, W, H, s, u)
    requires i == 0 ==>
      && v == u && b == CajaSorteada(s, u, antes[k].ancho, antes[k].alto, W, H)
      && cs == antes[k := b] && choca == ChocaCon(b, cs, k)
    requires i > 0 ==>
      && cs == tras.cajas
      && b == CajaSorteada(s, v, ANCHO_NORMAL, ALTO_NORMAL, W, H) && choca == ChocaCon(b, cs, -1)
      && Reintentos(cs, W, H, s, v, MAX_INTENTOS - i) == tras.cursor
    ensures cs == tras.cajas
    ensures !choca ==> v + 2 == tras.cursor
    ensures choca ==> Reintentos(cs, W, H, s, v + 2, MAX_INTENTOS - (i + 1)) == tras.cursor
  {
    if i == 0 {
      SaltoDeAbierto(antes, k, W, H, s, u, b);
    } else {
      ReintentoAbierto(cs, W, H, s, v, MAX_INTENTOS - i, choca);
    }
  }

  /** The turns of fleas k, k + 1, ... in list order, starting at draw u. */
  function Pasada(cs: seq<Caja>, W: int, H: int, s: Sorteos, u: nat, k: nat): (t: Tras)
    requires k <= |cs| && Saltables(cs, W, H)
    decreases |cs| - k
  {
    if k == |cs| then Tras(cs, u)
    else
      var t := SaltoDe(cs, k, W, H, s, u);
      Pasada(t.cajas, W, H, s, t.cursor, k + 1)
  }

  /** Pasada unfolded once: the turn of flea k, then the rest of the pass. */
  lemma PasadaPaso(cs: seq<Caja>, W: int, H: int, s: Sorteos, u: nat, k: nat)
    requires k < |cs| && Saltables(cs, W, H)
    ensures Pasada(cs, W, H, s, u, k) ==
      Pasada(SaltoDe(cs, k, W, H, s, u).cajas, W, H, s, SaltoDe(cs, k, W, H, s, u).cursor, k + 1)
  {
  }

  /** A pass with no flea left to move changes nothing. */
  lemma PasadaFin(cs: seq<Caja>, W: int, H: int, s: Sorteos, u: nat)
    requires Saltables(cs, W, H)
    ensures Pasada(cs, W, H, s, u, |cs|).cajas == cs
  {
  }

  /**
   * After the pass every flea from k on has jumped exactly once: its box is the
   * one given by a single pair of draws, so it lies inside the field with its
   * size unchanged; the fleas before k are untouched.
   */
  lemma {:induction false} PasadaDentroDelCampo(cs: seq<Caja>, W: int, H: int, s: Sorteos, u: nat, k: nat)
    requires k <= |cs| && Saltables(cs, W, H)
    ensures var t := Pasada(cs, W, H, s, u, k);
      && |t.cajas| == |cs|
      && t.cajas[..k] == cs[..k]
      && forall j :: k <= j < |cs| ==>
           && t.cajas[j].ancho == cs[j].ancho && t.cajas[j].alto == cs[j].alto
           && 0 <= t.cajas[j].x && t.cajas[j].x + t.cajas[j].ancho < W
           && 0 <= t.cajas[j].y && t.cajas[j].y + t.cajas[j].alto < H
           && exists c :: u <= c && t.cajas[j] == CajaSorteada(s, c, cs[j].ancho, cs[j].alto, W, H)
    decreases |cs| - k
  {
    if k < |cs| {
      var t1 := SaltoDe(cs, k, W, H, s, u);
      var b := CajaSorteada(s, u, cs[k].ancho, cs[k].alto, W, H);
      assert t1.cajas == cs[k := b];
      PasadaDentroDelCampo(t1.cajas, W, H, s, t1.cursor, k + 1);
      var t := Pasada(cs, W, H, s, u, k);
      assert t == Pasada(t1.cajas, W, H, s, t1.cursor, k + 1);
      assert t.cajas[..k + 1] == t1.cajas[..k + 1];
      assert t.cajas[k] == b;
      forall j | k <= j < |cs|
        ensures exists c :: u <= c && t.cajas[j] == CajaSorteada(s, c, cs[j].ancho, cs[j].alto, W, H)
      {
        if j == k {
          assert u <= u && t.cajas[j] == CajaSorteada(s, u, cs[j].ancho, cs[j].alto, W, H);
        } else {
          var c :| t1.cursor <= c && t.cajas[j] == CajaSorteada(s, c, t1.cajas[j].ancho, t1.cajas[j].alto, W, H);
          assert u <= c;
        }
      }
      assert t.cajas[..k] == t1.cajas[..k];
    }
  }

  /** Fleas of the test of SaltoRompeSeparacion: far apart before the pass. */
  function CajasEjemplo(): seq<Caja> {
    [Caja(0, 0, 40, 40), Caja(100, 100, 40, 40)]
  }

  /** Draws of the test: flea 0 lands at (200, 200), flea 1 at (210, 210), the throwaway at (500, 500). */
  function SorteosEjemplo(k: nat): nat {
    if k < 2 then 200 else if k < 4 then 210 else 500
  }

  /**
   * The pass does not keep the fleas apart: two fleas that did not overlap
   * overlap afterwards, because the colliding flea keeps its first jump.
   */
  lemma SaltoRompeSeparacion()
    ensures SinSolapes(CajasEjemplo())
    ensures !SinSolapes(Pasada(CajasEjemplo(), 800, 600, SorteosEjemplo, 0, 0).cajas)
  {
    var cs := CajasEjemplo();
    var s := SorteosEjemplo;
    var b0 := Caja(200, 200, 40, 40);
    var b1 := Caja(210, 210, 40, 40);
    assert CajaSorteada(s, 0, 40, 40, 800, 600) == b0;
    var ds := cs[0 := b0];
    assert !ChocaCon(b0, ds, 0) by {
      forall j | 0 <= j < |ds| && j != 0 ensures !b0.Solapa(ds[j]) {
        assert j == 1;
      }
    }
    var t0 := SaltoDe(cs, 0, 800, 600, s, 0);
    assert t0 == Tras(ds, 2);
    assert CajaSorteada(s, 2, 40, 40, 800, 600) == b1;
    var es := ds[1 := b1];
    assert b1.Solapa(es[0]);
    assert ChocaCon(b1, es, 1);
    var tirada := CajaSorteada(s, 4, 40, 40, 800, 600);
    assert tirada == Caja(500, 500, 40, 40);
    assert !ChocaCon(tirada, es, -1) by {
      forall j | 0 <= j < |es| ensures !tirada.Solapa(es[j]) {
        assert j == 0 || j == 1;
      }
    }
    assert Reintentos(es, 800, 600, s, 4, MAX_INTENTOS - 1) == 6;
    var t1 := SaltoDe(ds, 1, 800, 600, s, 2);
    assert t1 == Tras(es, 6);
    assert Pasada(cs, 800, 600, s, 0, 0) == Pasada(es, 800, 600, s, 6, 2);
    assert Pasada(cs, 800, 600, s, 0, 0).cajas == es;
    assert es[0].Solapa(es[1]);
  }

  /** Fleas of the two classes that are smaller than the field can all jump in it. */
  lemma CajasSaltables(pulgas: seq<Pulga>, W: int, H: int)
    requires forall p :: p in pulgas ==> p.Dimensionada() && p.ancho < W && p.alto < H
    ensures Saltables(Cajas(pulgas), W, H)
  {
    forall j | 0 <= j < |pulgas|
      ensures ANCHO_NORMAL <= Cajas(pulgas)[j].ancho < W && ALTO_NORMAL <= Cajas(pulgas)[j].alto < H
    {
      assert pulgas[j] in pulgas;
    }
  }

  class Campo {
    const ancho: int
    const alto: int
    var pulgas: seq<Pulga>

    /** The list holds each flea once, and every flea has the size of its class. */
    ghost predicate Valid()
      reads this
    {
      Distintas(pulgas) && forall p :: p in pulgas ==> p.Dimensionada()
    }

    constructor (ancho: int, alto: int)
      ensures this.ancho == ancho && this.alto == alto
      ensures pulgas == [] && Valid()
    {
      this.ancho, this.alto := ancho, alto;
      pulgas := [];
    }

    /**
     * agregarPulga: appends the flea unless it collides with a listed one.
     * The field bounds are not checked.
     */
    method AgregarPulga(pulga: Pulga) returns (agregada: bool)
      requires Valid() && pulga.Dimensionada()
      modifies this
      ensures Valid()
      ensures agregada <==> !ChocaCon(pulga.Limites(), old(Cajas(pulgas)), -1)
      ensures pulgas == if agregada then old(pulgas) + [pulga] else old(pulgas)
      ensures SinSolapes(old(Cajas(pulgas))) ==> SinSolapes(Cajas(pulgas))
    {
      ghost var cs := Cajas(pulgas);
      for i := 0 to |pulgas|
        invariant forall j :: 0 <= j < i ==> !pulga.Colisiona(pulgas[j])
      {
        if pulga.Colisiona(pulgas[i]) {
          assert pulga.Limites().Solapa(cs[i]);
          return false;
        }
      }
      assert !ChocaCon(pulga.Limites(), cs, -1) by {
        forall j | 0 <= j < |cs| ensures !pulga.Limites().Solapa(cs[j]) {
          assert !pulga.Colisiona(pulgas[j]);
        }
      }
      // A flea overlaps itself, so a flea that collides with nobody is not listed yet.
      SolapaConsigo(pulga.Limites());
      assert forall j :: 0 <= j < |pulgas| ==> pulgas[j] != pulga by {
        forall j | 0 <= j < |pulgas| ensures pulgas[j] != pulga {
          assert !pulga.Limites().Solapa(cs[j]);
        }
      }
      pulgas := pulgas + [pulga];
      assert Cajas(pulgas) == cs + [pulga.Limites()];
      if SinSolapes(cs) {
        SinSolapesAlAgregar(cs, pulga.Limites());
      }
      return true;
    }

    /** The outcome of a spawn of variant v with draws s, from the list antes with boxes cajasAntes. */
    ghost predicate AltaAlAzar(antes: seq<Pulga>, cajasAntes: seq<Caja>, v: Variante, s: Sorteos, agregada: bool)
      reads this, pulgas
      requires ancho > AnchoDe(v) && alto > AltoDe(v)
    {
      var r := PrimerHueco(cajasAntes, AnchoDe(v), AltoDe(v), ancho, alto, s, 0);
      && agregada == (r < MAX_INTENTOS)
      && if agregada then
           && |pulgas| == |antes| + 1 && pulgas[..|antes|] == antes
           && pulgas[|antes|].variante == v
           && pulgas[|antes|].Limites() == CajaDeIntento(s, r, AnchoDe(v), AltoDe(v), ancho, alto)
         else pulgas == antes
    }

    /** agregarPulgaNormal: at most 50 random places for a 40x40 flea; the first free one is taken. */
    method AgregarPulgaNormal(s: Sorteos) returns (agregada: bool)
      requires Valid() && ancho > ANCHO_NORMAL && alto > ALTO_NORMAL
      modifies this
      ensures Valid()
      ensures AltaAlAzar(old(pulgas), old(Cajas(pulgas)), PulgaNormal, s, agregada)
      ensures SinSolapes(old(Cajas(pulgas))) ==> SinSolapes(Cajas(pulgas))
    {
      ghost var cs := Cajas(pulgas);
      var w, h := AnchoDe(PulgaNormal), AltoDe(PulgaNormal);
      var i := 0;
      while i < MAX_INTENTOS
        invariant 0 <= i <= MAX_INTENTOS
        invariant pulgas == old(pulgas) && Cajas(pulgas) == cs && Valid()
        invariant forall j :: 0 <= j < i ==> Ocupado(cs, w, h, ancho, alto, s, j)
      {
        var x := SiguienteEntero(s, 2 * i, ancho - w);
        var y := SiguienteEntero(s, 2 * i + 1, alto - h);
        var nuevaPulga := new Pulga.Normal(x, y);
        assert nuevaPulga.Limites() == CajaDeIntento(s, i, w, h, ancho, alto);
        agregada := AgregarPulga(nuevaPulga);
        if agregada {
          PrimerHuecoUnico(cs, w, h, ancho, alto, s, i);
          assert pulgas[|old(pulgas)|] == nuevaPulga;
          return;
        }
        i := i + 1;
      }
      PrimerHuecoUnico(cs, w, h, ancho, alto, s, i);
      agregada := false;
    }

    /** agregarPulgaMutante: at most 50 random places for a 50x50 flea; the first free one is taken. */
    method AgregarPulgaMutante(s: Sorteos) returns (agregada: bool)
      requires Valid() && ancho > ANCHO_MUTANTE && alto > ALTO_MUTANTE
      modifies this
      ensures Valid()
      ensures AltaAlAzar(old(pulgas), old(Cajas(pulgas)), PulgaMutante, s, agregada)
      ensures SinSolapes(old(Cajas(pulgas))) ==> SinSolapes(Cajas(pulgas))
    {
      ghost var cs := Cajas(pulgas);
      var w, h := AnchoDe(PulgaMutante), AltoDe(PulgaMutante);
      var i := 0;
      while i < MAX_INTENTOS
        invariant 0 <= i <= MAX_INTENTOS
        invariant pulgas == old(pulgas) && Cajas(pulgas) == cs && Valid()
        invariant forall j :: 0 <= j < i ==> Ocupado(cs, w, h, ancho, alto, s, j)
      {
        var x := SiguienteEntero(s, 2 * i, ancho - w);
        var y := SiguienteEntero(s, 2 * i + 1, alto - h);
        var nuevaPulga := new Pulga.Mutante(x, y);
        assert nuevaPulga.Limites() == CajaDeIntento(s, i, w, h, ancho, alto);
        agregada := AgregarPulga(nuevaPulga);
        if agregada {
          PrimerHuecoUnico(cs, w, h, ancho, alto, s, i);
          assert pulgas[|old(pulgas)|] == nuevaPulga;
          return;
        }
        i := i + 1;
      }
      PrimerHuecoUnico(cs, w, h, ancho, alto, s, i);
      agregada := false;
    }

    /** The inner scan of hacerSaltarPulgas: does pulga collide with a listed flea other than itself? */
    method ChocaConOtra(pulga: Pulga, ghost propia: int) returns (choca: bool)
      requires Distintas(pulgas)
      requires propia == -1 ==> pulga !in pulgas
      requires propia != -1 ==> 0 <= propia < |pulgas| && pulgas[propia] == pulga
      ensures choca == ChocaCon(pulga.Limites(), Cajas(pulgas), propia)
    {
      ghost var cs := Cajas(pulgas);
      for i := 0 to |pulgas|
        invariant forall j :: 0 <= j < i && j != propia ==> !pulga.Limites().Solapa(cs[j])
      {
        var otra := pulgas[i];
        if pulga != otra && pulga.Colisiona(otra) {
          assert i != propia && pulga.Limites().Solapa(cs[i]);
          return true;
        }
      }
      return false;
    }

    /**
     * The jump and the scan in the body of the retry loop of hacerSaltarPulgas:
     * pulga jumps with draws u and u + 1, then is tested against the listed
     * fleas other than itself (propia is its position, or -1 when it is not
     * listed).
     */
    method SaltarYProbar(pulga: Pulga, ghost propia: int, s: Sorteos, u: nat) returns (choca: bool)
      requires Distintas(pulgas) && pulga.ancho < ancho && pulga.alto < alto
      requires propia == -1 ==> pulga !in pulgas
      requires propia != -1 ==> 0 <= propia < |pulgas| && pulgas[propia] == pulga
      modifies pulga
      ensures pulga.Limites() == CajaSorteada(s, u, pulga.ancho, pulga.alto, ancho, alto)
      ensures Cajas(pulgas) ==
        if propia == -1 then old(Cajas(pulgas)) else old(Cajas(pulgas))[propia := pulga.Limites()]
      ensures choca == ChocaCon(pulga.Limites(), Cajas(pulgas), propia)
    {
      ghost var antes := Cajas(pulgas);
      pulga.Saltar(ancho, alto, s, u);
      assert forall j :: 0 <= j < |pulgas| && j != propia ==> pulgas[j] != pulga;
      assert Cajas(pulgas) == if propia == -1 then antes else antes[propia := pulga.Limites()];
      choca := ChocaConOtra(pulga, propia);
    }

    /**
     * The whole body of the retry loop of hacerSaltarPulgas: save the
     * position, jump and scan; on a collision the loop variable is rebound to
     * a new normal flea at the saved position, which leaves the listed fleas
     * as they are.  siguiente is the value of the loop variable afterwards.
     */
    method Intento(pulga: Pulga, ghost propia: int, s: Sorteos, u: nat) returns (choca: bool, siguiente: Pulga)
      requires Distintas(pulgas) && pulga.ancho < ancho && pulga.alto < alto
      requires propia == -1 ==> pulga !in pulgas
      requires propia != -1 ==> 0 <= propia < |pulgas| && pulgas[propia] == pulga
      modifies pulga
      ensures pulga.Limites() == CajaSorteada(s, u, pulga.ancho, pulga.alto, ancho, alto)
      ensures Cajas(pulgas) ==
        if propia == -1 then old(Cajas(pulgas)) else old(Cajas(pulgas))[propia := pulga.Limites()]
      ensures choca == ChocaCon(pulga.Limites(), Cajas(pulgas), propia)
      ensures choca ==>
        && fresh(siguiente) && siguiente.variante == PulgaNormal && siguiente.Dimensionada()
        && siguiente.x == old(pulga.x) && siguiente.y == old(pulga.y)
      ensures !choca ==> siguiente == pulga
    {
      // Save the position before the jump.
      var xOriginal, yOriginal := pulga.x, pulga.y;
      choca := SaltarYProbar(pulga, propia, s, u);
      siguiente := pulga;
      if choca {
        siguiente := new Pulga.Normal(xOriginal, yOriginal);
      }
    }

    /** One turn of the for-each loop of hacerSaltarPulgas, for the flea at position k. */
    method SaltarUna(k: nat, s: Sorteos, u: nat) returns (siguiente: nat)
      requires Distintas(pulgas) && k < |pulgas| && Saltables(Cajas(pulgas), ancho, alto)
      modifies pulgas[k]
      ensures Cajas(pulgas) == SaltoDe(old(Cajas(pulgas)), k, ancho, alto, s, u).cajas
      ensures siguiente == SaltoDe(old(Cajas(pulgas)), k, ancho, alto, s, u).cursor
    {
      ghost var antes := Cajas(pulgas);
      ghost var tras := SaltoDe(antes, k, ancho, alto, s, u);
      var pulga := pulgas[k];
      var posicionValida := false;
      var i := 0;
      siguiente := u;
      while i < MAX_INTENTOS && !posicionValida
        invariant 0 <= i <= MAX_INTENTOS
        invariant Cajas(pulgas) == if i == 0 then antes else tras.cajas
        invariant i == 0 ==> pulga == pulgas[k] && !posicionValida && siguiente == u
        invariant i > 0 && posicionValida ==> siguiente == tras.cursor
        invariant i > 0 && !posicionValida ==>
          && fresh(pulga) && pulga.ancho == ANCHO_NORMAL && pulga.alto == ALTO_NORMAL
          && Reintentos(tras.cajas, ancho, alto, s, siguiente, MAX_INTENTOS - i) == tras.cursor
      {
        var choca, otra := Intento(pulga, if i == 0 then k else -1, s, siguiente);
        TrasIntento(antes, k, ancho, alto, s, u, tras, i, siguiente, pulga.Limites(), Cajas(pulgas), choca);
        siguiente := siguiente + 2;
        posicionValida := !choca;
        pulga := otra;
        i := i + 1;
      }
    }

    /**
     * hacerSaltarPulgas, as written: the list keeps its fleas and their order,
     * and the boxes become those of the pass (Pasada).  Nothing restores a flea
     * that lands on another, so the pass may leave fleas overlapping.
     */
    method HacerSaltarPulgas(s: Sorteos)
      requires Valid()
      requires forall p :: p in pulgas ==> p.ancho < ancho && p.alto < alto
      modifies pulgas
      ensures pulgas == old(pulgas) && Valid()
      ensures Saltables(old(Cajas(pulgas)), ancho, alto)
      ensures Cajas(pulgas) == Pasada(old(Cajas(pulgas)), ancho, alto, s, 0, 0).cajas
    {
      ghost var inicio := Cajas(pulgas);
      CajasSaltables(pulgas, ancho, alto);
      var u: nat := 0;
      ghost var cs := inicio;
      for k := 0 to |pulgas|
        invariant Cajas(pulgas) == cs && |cs| == |pulgas| && Saltables(cs, ancho, alto)
        invariant Pasada(cs, ancho, alto, s, u, k) == Pasada(inicio, ancho, alto, s, 0, 0)
      {
        ghost var t := SaltoDe(cs, k, ancho, alto, s, u);
        PasadaPaso(cs, ancho, alto, s, u, k);
        u := SaltarUna(k, s, u);
        cs := t.cajas;
      }
      PasadaFin(cs, ancho, alto, s, u);
    }

    /**
     * The turn of flea k with the restore written back to the listed flea: a
     * jump that lands on another flea is undone before the next attempt.
     */
    method ReubicarUna(k: nat, s: Sorteos, u: nat) returns (siguiente: nat)
      requires Distintas(pulgas) && k < |pulgas| && pulgas[k].ancho < ancho && pulgas[k].alto < alto
      modifies pulgas[k]
      ensures Cajas(pulgas) == old(Cajas(pulgas))[k := pulgas[k].Limites()]
      ensures || pulgas[k].Limites() == old(pulgas[k].Limites())
              || (0 <= pulgas[k].x < ancho - pulgas[k].ancho && 0 <= pulgas[k].y < alto - pulgas[k].alto)
      ensures SinSolapes(old(Cajas(pulgas))) ==> SinSolapes(Cajas(pulgas))
    {
      ghost var antes := Cajas(pulgas);
      var pulga := pulgas[k];
      var posicionValida := false;
      var i := 0;
      siguiente := u;
      while i < MAX_INTENTOS && !posicionValida
        invariant Cajas(pulgas) == antes[k := pulga.Limites()]
        invariant !posicionValida ==> pulga.Limites() == antes[k]
        invariant posicionValida ==> 0 <= pulga.x < ancho - pulga.ancho && 0 <= pulga.y < alto - pulga.alto
        invariant SinSolapes(antes) ==> SinSolapes(Cajas(pulgas))
      {
        var xOriginal, yOriginal := pulga.x, pulga.y;
        var choca := SaltarYProbar(pulga, k, s, siguiente);
        siguiente := siguiente + 2;
        posicionValida := !choca;
        if choca {
          pulga.x, pulga.y := xOriginal, yOriginal;
          assert Cajas(pulgas) == antes;
        } else if SinSolapes(antes) {
          SinSolapesAlMover(antes, k, pulga.Limites());
        }
        i := i + 1;
      }
    }

    /**
     * The jump pass with the restore written back to the listed flea: a flea
     * whose jump lands on another goes back to where it was before retrying.
     */
    method HacerSaltarPulgasCorregido(s: Sorteos)
      requires Valid()
      requires forall p :: p in pulgas ==> p.ancho < ancho && p.alto < alto
      modifies pulgas
      ensures pulgas == old(pulgas) && Valid()
      ensures SinSolapes(old(Cajas(pulgas))) ==> SinSolapes(Cajas(pulgas))
      ensures forall j :: 0 <= j < |pulgas| ==>
        || pulgas[j].Limites() == old(pulgas[j].Limites())
        || (0 <= pulgas[j].x < ancho - pulgas[j].ancho && 0 <= pulgas[j].y < alto - pulgas[j].alto)
    {
      ghost var inicio := Cajas(pulgas);
      var u: nat := 0;
      for k := 0 to |pulgas|
        invariant SinSolapes(inicio) ==> SinSolapes(Cajas(pulgas))
        invariant forall j :: k <= j < |pulgas| ==> Cajas(pulgas)[j] == inicio[j]
        invariant forall j :: 0 <= j < k ==>
          || Cajas(pulgas)[j] == inicio[j]
          || (0 <= pulgas[j].x < ancho - pulgas[j].ancho && 0 <= pulgas[j].y < alto - pulgas[j].alto)
      {
        assert pulgas[k] in pulgas;
        u := ReubicarUna(k, s, u);
      }
    }

    /** eliminarPulga: ArrayList.remove(Object) drops the first occurrence by identity, if any. */
    method EliminarPulga(pulga: Pulga)
      requires Valid()
      modifies this
      ensures Valid()
      ensures var i := IndiceDe(old(pulgas), pulga);
        pulgas == if i == -1 then old(pulgas) else old(pulgas)[..i] + old(pulgas)[i + 1..]
      ensures pulga !in pulgas
    {
      var i := IndiceDe(pulgas, pulga);
      if i != -1 {
        pulgas := pulgas[..i] + pulgas[i + 1..];
      }
    }

    /** pulgasRestantes: the number of listed fleas. */
    function PulgasRestantes(): (n: nat)
      reads this
      ensures n == 0 <==> pulgas == []
    {
      |pulgas|
    }

    /** limpiarCampo: empties the list. */
    method LimpiarCampo()
      modifies this
      ensures pulgas == [] && PulgasRestantes() == 0 && Valid()
    {
      pulgas := [];
    }
  }
}
