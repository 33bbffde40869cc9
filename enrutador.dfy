/**
 * A router of the network. The network keeps its routers by value in a map
 * from name to router, so a router is a value here and updating its table
 * yields the updated router.
 */
module Enrutadores {

  /**
   * `tablaEnrutamiento` maps a destination to the cost of reaching it and
   * `siguienteSalto` maps it to the neighbour to forward through.
   */
  datatype Enrutador = Enrutador(
    nombre: string,
    tablaEnrutamiento: map<string, int>,
    siguienteSalto: map<string, string>)
  {
    /** Both tables agree with `otro`'s on destination `x`: same presence, same value. */
    predicate MismaRuta(otro: Enrutador, x: string) {
      && (x in tablaEnrutamiento <==> x in otro.tablaEnrutamiento)
      && (x in tablaEnrutamiento ==> tablaEnrutamiento[x] == otro.tablaEnrutamiento[x])
      && (x in siguienteSalto <==> x in otro.siguienteSalto)
      && (x in siguienteSalto ==> siguienteSalto[x] == otro.siguienteSalto[x])
    }

    /**
     * Records `costo` and `salto` for `destino`, whether or not there was an
     * entry before; every other destination keeps its entries.
     */
    function ActualizarTablaDeEnrutamiento(destino: string, costo: int, salto: string): (r: Enrutador)
      ensures r.nombre == nombre
      ensures destino in r.tablaEnrutamiento && r.tablaEnrutamiento[destino] == costo
      ensures destino in r.siguienteSalto && r.siguienteSalto[destino] == salto
      ensures forall x :: x != destino ==> r.MismaRuta(this, x)
    {
      Enrutador(nombre, tablaEnrutamiento[destino := costo], siguienteSalto[destino := salto])
    }
  }

  /** A router just added to the network: both tables empty. */
  function Nuevo(nombre: string): (r: Enrutador)
    ensures r.nombre == nombre && r.tablaEnrutamiento == map[] && r.siguienteSalto == map[]
  {
    Enrutador(nombre, map[], map[])
  }
}
