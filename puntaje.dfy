/**
 * The score counter (Puntaje): the current score and the best one, which is
 * loaded from its store when the counter is built and written back each time
 * the current score passes it.
 */
module Puntajes {
  import opened Opcion
  import opened Persistencia

  class Puntaje {
    var actual: int
    var maximo: int
    const almacen: Almacen

    /** new Puntaje(...) over its score file: actual starts at 0, maximo is what the file holds (0 on error). */
    constructor (almacen: Almacen)
      ensures this.almacen == almacen
      ensures actual == 0 && maximo == almacen.Cargar()
    {
      this.almacen := almacen;
      actual := 0;
      maximo := almacen.Cargar();
    }

    /**
     * aumentar: one more point; when the current score passes the best one,
     * the best one follows it and is saved, otherwise nothing is saved.
     */
    method Aumentar()
      modifies this, almacen
      ensures actual == old(actual) + 1
      ensures maximo == if actual > old(maximo) then actual else old(maximo)
      ensures maximo >= actual && maximo >= old(maximo)
      ensures actual > old(maximo) ==> almacen.guardado == Some(maximo) && almacen.Cargar() == maximo
      ensures actual <= old(maximo) ==> almacen.guardado == old(almacen.guardado)
    {
      actual := actual + 1;
      if actual > maximo {
        maximo := actual;
        almacen.Guardar(maximo);
      }
    }
  }
}
