/**
 * The score files (PersistenciaScore, and the file Puntaje reads and writes),
 * reduced to a cell: what a read of the file would parse, if anything.
 * Reading falls back to 0; writing overwrites.
 */
module Persistencia {
  import opened Opcion

  /** The state of the file when the store is built. */
  datatype Archivo =
    | Ausente                            // no file of that name
    | Presente(legible: Option<int>)     // a file whose first line parses (Some) or not (None)

  class Almacen {
    /** The number the file holds, or None when reading it fails. */
    var guardado: Option<int>

    /**
     * new PersistenciaScore(nombre): a missing file is created holding 0; an
     * existing one is kept as it is.
     */
    constructor (archivo: Archivo)
      ensures guardado == if archivo.Ausente? then Some(0) else archivo.legible
    {
      guardado := if archivo.Ausente? then Some(0) else archivo.legible;
    }

    /** cargarMaxPuntaje: the stored number, or 0 when there is none. */
    function Cargar(): (v: int)
      reads this
      ensures guardado == Some(v) || (guardado == None && v == 0)
    {
      match guardado
      case Some(v) => v
      case None => 0
    }

    /** guardarMaxPuntaje: overwrites the file with the number; a later read gives it back. */
    method Guardar(puntaje: int)
      modifies this
      ensures guardado == Some(puntaje)
      ensures Cargar() == puntaje
    {
      guardado := Some(puntaje);
    }
  }
}
