/**
  `CarrilBiciManager`: the registry object with its two mutable maps. Every
  method is proved against the transition of module `Tramos` that specifies
  it, so the properties proved there carry over to the object.
 */
module CarrilBici {
  import opened Tramos

  class CarrilBiciManager {
    /** Name of the segment -> its length in km. */
    var tramos: map<string, real>
    /** Name of the segment -> its state (possibly null). */
    var estadoTramos: map<string, JString>

    /** The registry this object holds. */
    function Estado(): Registro
      reads this
    {
      Registro(tramos, estadoTramos)
    }

    /** The object invariant: the registry invariant of the two maps. */
    ghost predicate Valid()
      reads this
    {
      Tramos.Valid(Estado())
    }

    constructor ()
      ensures Valid()
      ensures Estado() == Vacio()
    {
      tramos := map[];
      estadoTramos := map[];
    }

    /** `añadirTramo`: a failure changes nothing; a success puts the name into both maps. */
    method AnadirTramo(nombre: JString, longitud: real) returns (r: Result<()>)
      requires Valid()
      modifies this
      ensures Valid()
      ensures Paso(r, Estado()) == Tramos.AnadirTramo(old(Estado()), nombre, longitud)
    {
      if nombre.None? || EsBlanco(nombre.value) {
        return Err(IllegalArgument(MsgNombreVacio));
      }
      if longitud <= 0.0 {
        return Err(IllegalArgument(MsgLongitudNoPositiva));
      }
      tramos := tramos[nombre.value := longitud];
      estadoTramos := estadoTramos[nombre.value := Some(EnServicio)];
      r := Ok(());
    }

    /** `actualizarEstado`: checks the name against `tramos`, then writes `estadoTramos` only. */
    method ActualizarEstado(nombre: JString, nuevoEstado: JString) returns (r: Result<()>)
      requires Valid()
      modifies this
      ensures Valid()
      ensures Paso(r, Estado()) == Tramos.ActualizarEstado(old(Estado()), nombre, nuevoEstado)
    {
      if nombre.None? || nombre.value !in tramos {
        return Err(NoSuchElement(MsgTramoNoExiste + ": " + Texto(nombre)));
      }
      estadoTramos := estadoTramos[nombre.value := nuevoEstado];
      r := Ok(());
    }

    /** `cambiarEstado`: delegates to `actualizarEstado`, so it has the same effect and errors. */
    method CambiarEstado(nombre: JString, estado: JString) returns (r: Result<()>)
      requires Valid()
      modifies this
      ensures Valid()
      ensures Paso(r, Estado()) == Tramos.ActualizarEstado(old(Estado()), nombre, estado)
    {
      r := ActualizarEstado(nombre, estado);
    }

    /** `consultarEstado`: reads `estadoTramos` and changes nothing. */
    method ConsultarEstado(nombre: JString) returns (r: Result<JString>)
      ensures r == Tramos.ConsultarEstado(Estado(), nombre)
    {
      if nombre.None? || nombre.value !in estadoTramos {
        return Err(NoSuchElement(MsgTramoNoExiste));
      }
      r := Ok(estadoTramos[nombre.value]);
    }

    /** `longitudTotal`: adds up the lengths, one segment at a time, in any order. */
    method LongitudTotal() returns (total: real)
      ensures total == SumaLongitudes(tramos)
      ensures tramos == map[] ==> total == 0.0
      ensures Valid() && tramos != map[] ==> total > 0.0
    {
      total := 0.0;
      var resto := tramos;
      while resto != map[]
        invariant total + SumaLongitudes(resto) == SumaLongitudes(tramos)
        decreases |resto|
      {
        assert resto.Keys != {};
        var n :| n in resto;
        SumaQuitar(resto, n);
        total := total + resto[n];
        assert (resto - {n}).Keys == resto.Keys - {n};
        resto := resto - {n};
      }
      if Valid() {
        SumaPositiva(tramos);
      }
    }

    /** `obtenerTramos`: the lengths as a value the caller cannot use to change the registry. */
    method ObtenerTramos() returns (vista: map<string, real>)
      ensures vista.Keys == tramos.Keys
      ensures forall n :: n in vista ==> vista[n] == tramos[n]
      ensures Valid() ==> vista.Keys == estadoTramos.Keys && forall n :: n in vista ==> vista[n] > 0.0
    {
      vista := tramos;
    }

    /** `generarInforme`: the header, the separator, one line per segment in
        the iteration order `orden` of the key set, and the total line. */
    method GenerarInforme(fmt: real -> string) returns (informe: string, ghost orden: seq<string>)
      requires Valid()
      ensures Enumera(orden, tramos.Keys)
      ensures informe == Informe(Estado(), orden, fmt)
    {
      ghost var reg := Estado();
      informe := Cabecera + Separador;
      orden := [];
      var pendientes := tramos.Keys;
      while pendientes != {}
        invariant pendientes <= reg.tramos.Keys
        invariant forall i, j :: 0 <= i < j < |orden| ==> orden[i] != orden[j]
        invariant forall n :: n in orden <==> n in reg.tramos && n !in pendientes
        invariant informe == Cabecera + Separador + Lineas(reg, orden, fmt)
        decreases pendientes
      {
        var n :| n in pendientes;
        var linea := LineaTramo(n, tramos[n], estadoTramos[n], fmt);
        LineasConcat(reg, orden, [n], fmt);
        assert Lineas(reg, [n], fmt) == linea + Lineas(reg, [], fmt);
        Asociar(Cabecera + Separador, Lineas(reg, orden, fmt), linea);
        informe := informe + linea;
        orden := orden + [n];
        pendientes := pendientes - {n};
      }
      assert forall k :: k in orden <==> k in reg.tramos;
      var total := LongitudTotal();
      informe := informe + LineaTotal(total, fmt);
    }
  }

  /** The concrete uses of the registry: a new registry is empty, an added
      segment is "En servicio", invalid names and lengths are rejected, and
      unknown names are not found. */
  method Escenarios()
  {
    var m := new CarrilBiciManager();
    var total := m.LongitudTotal();
    assert total == 0.0;

    var consulta := m.ConsultarEstado(Some("Inexistente"));
    assert consulta == Err(NoSuchElement(MsgTramoNoExiste));

    var r := m.AnadirTramo(Some(""), 1.0);
    assert r == Err(IllegalArgument(MsgNombreVacio));
    r := m.AnadirTramo(None, 1.0);
    assert r.Err?;
    assert !EsBlanco("X") by { assert !EsEspacio("X"[0]); }
    r := m.AnadirTramo(Some("X"), -2.0);
    assert r == Err(IllegalArgument(MsgLongitudNoPositiva));
    assert m.tramos == map[];

    assert !EsBlanco("Tramo A") by { assert !EsEspacio("Tramo A"[0]); }
    r := m.AnadirTramo(Some("Tramo A"), 3.5);
    assert r == Ok(());
    var estado := m.ConsultarEstado(Some("Tramo A"));
    assert estado == Ok(Some(EnServicio));
    total := m.LongitudTotal();
    SumaQuitar(m.tramos, "Tramo A");
    assert m.tramos - {"Tramo A"} == map[];
    assert total == 3.5;

    r := m.ActualizarEstado(Some("Tramo B"), Some("Cerrado"));
    assert r.Err?;
  }
}
