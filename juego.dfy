/**
 * The game session (Juego): an 800 x 600 field, the two weapons, the score,
 * the best score and the active flag.  Shots and jumps are ignored while the
 * game is inactive; adding a flea starts it; a shot that empties the field
 * ends it, and ending the game commits a better score to the store.
 */
module Juegos {
  import opened Opcion
  import opened Pulgas
  import opened Campos
  import opened Impactos
  import opened Persistencia
  import Pulguipium
  import Pulgoson

  /** Field size of the game. */
  const ANCHO_CAMPO := 800
  const ALTO_CAMPO := 600

  class Juego {
    const campo: Campo
    const persistencia: Almacen
    var puntaje: int
    var maxPuntaje: int
    var juegoActivo: bool

    /** The field has the game's size and is itself valid. */
    ghost predicate Valid()
      reads this, campo
    {
      campo.Valid() && campo.ancho == ANCHO_CAMPO && campo.alto == ALTO_CAMPO
    }

    /**
     * What finalizar leaves of the best score, given its value maxAntes and
     * the store's content guardadoAntes before: a better score replaces the
     * best one and is saved; otherwise neither changes.
     */
    ghost predicate MaximoAlFinal(maxAntes: int, guardadoAntes: Option<int>)
      reads this, persistencia
    {
      if puntaje > maxAntes then maxPuntaje == puntaje && persistencia.guardado == Some(puntaje)
      else maxPuntaje == maxAntes && persistencia.guardado == guardadoAntes
    }

    /**
     * What verificarFinJuego leaves in a game that was active: the game ends
     * (finalizar) exactly when no flea is left.
     */
    ghost predicate FinSiVacio(maxAntes: int, guardadoAntes: Option<int>)
      reads this, campo, persistencia
    {
      if campo.pulgas == [] then !juegoActivo && MaximoAlFinal(maxAntes, guardadoAntes)
      else juegoActivo && maxPuntaje == maxAntes && persistencia.guardado == guardadoAntes
    }

    /**
     * new Juego(): an empty field, score 0, inactive, and the best score
     * loaded from the store built over the given file.
     */
    constructor (archivo: Archivo)
      ensures Valid() && fresh(campo) && fresh(persistencia)
      ensures campo.pulgas == [] && puntaje == 0 && !juegoActivo
      ensures persistencia.guardado == (if archivo.Ausente? then Some(0) else archivo.legible)
      ensures maxPuntaje == persistencia.Cargar()
    {
      var almacen := new Almacen(archivo);
      campo := new Campo(ANCHO_CAMPO, ALTO_CAMPO);
      persistencia := almacen;
      puntaje := 0;
      maxPuntaje := almacen.Cargar();
      juegoActivo := false;
    }

    /** iniciar: the game becomes active (the flea generator is not modelled). */
    method Iniciar()
      modifies this
      ensures juegoActivo
      ensures puntaje == old(puntaje) && maxPuntaje == old(maxPuntaje)
    {
      juegoActivo := true;
    }

    /**
     * reiniciar: empty field, score 0, best score reloaded from the store,
     * active.  The store is not touched, so the state reached does not depend
     * on the state before, and a second call in a row reaches the same state.
     */
    method Reiniciar()
      requires Valid()
      modifies this, campo
      ensures Valid() && unchanged(persistencia)
      ensures campo.pulgas == [] && puntaje == 0 && maxPuntaje == persistencia.Cargar() && juegoActivo
    {
      campo.LimpiarCampo();
      puntaje := 0;
      maxPuntaje := persistencia.Cargar();
      Iniciar();
    }

    /** finalizar: the game becomes inactive; a better score becomes the best one and is saved. */
    method Finalizar()
      modifies this, persistencia
      ensures !juegoActivo && puntaje == old(puntaje)
      ensures MaximoAlFinal(old(maxPuntaje), old(persistencia.guardado))
    {
      juegoActivo := false;
      if puntaje > maxPuntaje {
        maxPuntaje := puntaje;
        persistencia.Guardar(maxPuntaje);
      }
    }

    /** verificarFinJuego: an active game with no flea left is ended. */
    method VerificarFinJuego()
      modifies this, persistencia
      ensures puntaje == old(puntaje)
      ensures old(juegoActivo) ==> FinSiVacio(old(maxPuntaje), old(persistencia.guardado))
      ensures !old(juegoActivo) ==> unchanged(this, persistencia)
    {
      if campo.PulgasRestantes() == 0 && juegoActivo {
        Finalizar();
      }
    }

    /** actualizarPuntaje: adds the points to the score. */
    method ActualizarPuntaje(puntos: int)
      modifies this
      ensures puntaje == old(puntaje) + puntos
      ensures maxPuntaje == old(maxPuntaje) && juegoActivo == old(juegoActivo)
    {
      puntaje := puntaje + puntos;
    }

    /**
     * dispararPistola(x, y): in an active game, the pistol shoots at (x, y)
     * on the field's own list, the kills are added to the score and the game
     * ends if the field is left empty.  An inactive game ignores the shot.
     */
    method DispararPistola(x: int, y: int)
      requires Valid()
      modifies this, campo, persistencia
      ensures Valid()
      ensures !old(juegoActivo) ==> unchanged(this, campo, persistencia)
      ensures old(juegoActivo) ==>
        && Encaja(campo.pulgas, Pulguipium.Disparo(old(campo.pulgas), old(Pulguipium.PrimeraEnPunto(campo.pulgas, x, y))), old(campo.pulgas))
        && puntaje == old(puntaje) + old(Pulguipium.Bajas(campo.pulgas, x, y))
        && FinSiVacio(old(maxPuntaje), old(persistencia.guardado))
    {
      if !juegoActivo {
        return;
      }
      var resultado, pulgasEliminadas := Pulguipium.Atacar(campo.pulgas, x, y);
      campo.pulgas := resultado;
      ActualizarPuntaje(pulgasEliminadas);
      VerificarFinJuego();
    }

    /**
     * dispararMisil: in an active game, the missile hits max(1, n/2) fleas of
     * the field, taken in the order of mezcla (the shuffled copy of the list,
     * a permutation of it); kills are added and the game ends if the field is
     * left empty.  An inactive game ignores the shot.
     */
    method DispararMisil(mezcla: seq<Pulga>)
      requires Valid()
      requires juegoActivo ==> multiset(mezcla) == multiset(campo.pulgas)
      modifies this, campo, persistencia
      ensures Valid()
      ensures !old(juegoActivo) ==> unchanged(this, campo, persistencia)
      ensures old(juegoActivo) ==>
        && Encaja(campo.pulgas, Esperado(old(campo.pulgas), multiset(Pulgoson.Objetivos(mezcla))), old(campo.pulgas))
        && puntaje == old(puntaje) + Pulgoson.Normales(Pulgoson.Objetivos(mezcla))
        && FinSiVacio(old(maxPuntaje), old(persistencia.guardado))
    {
      if !juegoActivo {
        return;
      }
      var resultado, pulgasEliminadas := Pulgoson.Atacar(campo.pulgas, mezcla);
      campo.pulgas := resultado;
      ActualizarPuntaje(pulgasEliminadas);
      VerificarFinJuego();
    }

    /** agregarPulgaNormal: starts an inactive game, then spawns a normal flea at random. */
    method AgregarPulgaNormal(s: Sorteos) returns (agregada: bool)
      requires Valid()
      modifies this, campo
      ensures Valid() && juegoActivo
      ensures puntaje == old(puntaje) && maxPuntaje == old(maxPuntaje)
      ensures campo.AltaAlAzar(old(campo.pulgas), old(Cajas(campo.pulgas)), PulgaNormal, s, agregada)
    {
      ghost var antes, cajas := campo.pulgas, Cajas(campo.pulgas);
      if !juegoActivo {
        Iniciar();
      }
      assert campo.pulgas == antes && Cajas(campo.pulgas) == cajas;
      agregada := campo.AgregarPulgaNormal(s);
    }

    /** agregarPulgaMutante: starts an inactive game, then spawns a mutant flea at random. */
    method AgregarPulgaMutante(s: Sorteos) returns (agregada: bool)
      requires Valid()
      modifies this, campo
      ensures Valid() && juegoActivo
      ensures puntaje == old(puntaje) && maxPuntaje == old(maxPuntaje)
      ensures campo.AltaAlAzar(old(campo.pulgas), old(Cajas(campo.pulgas)), PulgaMutante, s, agregada)
    {
      ghost var antes, cajas := campo.pulgas, Cajas(campo.pulgas);
      if !juegoActivo {
        Iniciar();
      }
      assert campo.pulgas == antes && Cajas(campo.pulgas) == cajas;
      agregada := campo.AgregarPulgaMutante(s);
    }

    /**
     * hacerSaltarPulgas: in an active game, the field's jump pass as written
     * (Pasada); an inactive game ignores it.  Every flea of the game's field
     * is small enough to jump in it.
     */
    method HacerSaltarPulgas(s: Sorteos)
      requires Valid()
      modifies campo.pulgas
      ensures Valid() && campo.pulgas == old(campo.pulgas)
      ensures Saltables(old(Cajas(campo.pulgas)), ANCHO_CAMPO, ALTO_CAMPO)
      ensures old(juegoActivo) ==>
        Cajas(campo.pulgas) == Pasada(old(Cajas(campo.pulgas)), ANCHO_CAMPO, ALTO_CAMPO, s, 0, 0).cajas
      ensures !old(juegoActivo) ==> Cajas(campo.pulgas) == old(Cajas(campo.pulgas))
    {
      CajasSaltables(campo.pulgas, ANCHO_CAMPO, ALTO_CAMPO);
      if !juegoActivo {
        return;
      }
      campo.HacerSaltarPulgas(s);
    }
  }
}
