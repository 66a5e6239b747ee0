/**
  The bike-lane registry of `CarrilBiciManager` as a value: the two parallel
  maps (`tramos`: name -> length in km, `estadoTramos`: name -> state), the
  operations on them as pure transitions, the sum of the lengths, the text of
  the report, and the properties the registry promises.

  Java `null` appears in the source both as an argument (a null name is
  rejected explicitly) and as a storable state, so strings that may be null
  are `JString = Option<string>`, `None` standing for `null`.
 */
module Tramos {

  datatype Option<+T> = None | Some(value: T)

  /** A Java `String` reference: `None` is `null`. */
  type JString = Option<string>

  /** The two exceptions the registry throws, with their messages. */
  datatype Error =
    | IllegalArgument(message: string)
    | NoSuchElement(message: string)

  datatype Result<+T> = Ok(value: T) | Err(error: Error)

  /** The two maps of the registry. Keys are never null: only `AnadirTramo` inserts keys, and it rejects null. */
  datatype Registro = Registro(tramos: map<string, real>, estadoTramos: map<string, JString>)

  /** The outcome of a state-changing operation together with the registry it leaves. */
  datatype Paso = Paso(resultado: Result<()>, despues: Registro)

  const EnServicio: string := "En servicio"
  const MsgNombreVacio: string := "El nombre del tramo no puede estar vacío"
  const MsgLongitudNoPositiva: string := "La longitud debe ser mayor que cero"
  const MsgTramoNoExiste: string := "El tramo indicado no existe"

  /** How string concatenation renders a possibly-null string. */
  function Texto(s: JString): string
  {
    match s
    case None => "null"
    case Some(t) => t
  }

  /** `Character.isWhitespace`: the ASCII separators and controls U+001C..U+001F,
      and the Unicode space, line and paragraph separators except the no-break
      spaces U+00A0, U+2007 and U+202F. */
  predicate EsEspacio(c: char)
  {
    || c == '\t' || c == '\n' || c == '\U{B}' || c == '\U{C}' || c == '\r'
    || ('\U{1C}' <= c <= '\U{1F}')
    || c == ' '
    || c == '\U{1680}'
    || ('\U{2000}' <= c <= '\U{2006}')
    || ('\U{2008}' <= c <= '\U{200A}')
    || c == '\U{2028}' || c == '\U{2029}' || c == '\U{205F}' || c == '\U{3000}'
  }

  /** `String.isBlank`: empty, or whitespace only. */
  predicate EsBlanco(s: string)
  {
    forall i :: 0 <= i < |s| ==> EsEspacio(s[i])
  }

  /** The name check of `añadirTramo`: null or blank. */
  predicate NombreInvalido(nombre: JString)
  {
    nombre.None? || EsBlanco(nombre.value)
  }

  /** `isBlank` as Java decides it: the empty string, tabs, line ends and the
      ideographic space are blank; a letter and the no-break space U+00A0 are not. */
  lemma BlancoComoJava()
    ensures EsBlanco("") && EsBlanco(" \t\n\r") && EsBlanco("\U{3000}\U{2028}")
    ensures !EsBlanco("Tramo A") && !EsBlanco(" A ")
    ensures !EsBlanco("\U{A0}") && !EsBlanco("\U{2007}") && !EsBlanco("\U{202F}")
  {
    assert !EsEspacio("Tramo A"[0]);
    assert !EsEspacio(" A "[1]);
    assert !EsEspacio("\U{A0}"[0]);
    assert !EsEspacio("\U{2007}"[0]);
    assert !EsEspacio("\U{202F}"[0]);
  }

  /** The registry invariant: both maps have the same key set, every length is
      positive and no name is blank. */
  ghost predicate Valid(reg: Registro)
  {
    && reg.tramos.Keys == reg.estadoTramos.Keys
    && (forall n :: n in reg.tramos ==> reg.tramos[n] > 0.0)
    && (forall n :: n in reg.tramos ==> !EsBlanco(n))
  }

  /** The registry a fresh `CarrilBiciManager` holds. */
  function Vacio(): (reg: Registro)
    ensures Valid(reg)
    ensures |reg.tramos| == 0 && |reg.estadoTramos| == 0
  {
    Registro(map[], map[])
  }

  /** `añadirTramo(nombre, longitud)`: the name check first, then the length
      check; on success the length is stored and the state reset to
      "En servicio", overwriting an earlier segment of the same name. */
  function AnadirTramo(reg: Registro, nombre: JString, longitud: real): (p: Paso)
    ensures p.resultado.Err? <==> NombreInvalido(nombre) || longitud <= 0.0
    ensures p.resultado.Err? ==> p.despues == reg
    ensures NombreInvalido(nombre) ==> p.resultado == Err(IllegalArgument(MsgNombreVacio))
    ensures !NombreInvalido(nombre) && longitud <= 0.0 ==> p.resultado == Err(IllegalArgument(MsgLongitudNoPositiva))
    ensures Valid(reg) ==> Valid(p.despues)
  {
    if nombre.None? || EsBlanco(nombre.value) then
      Paso(Err(IllegalArgument(MsgNombreVacio)), reg)
    else if longitud <= 0.0 then
      Paso(Err(IllegalArgument(MsgLongitudNoPositiva)), reg)
    else
      Paso(Ok(()), Registro(reg.tramos[nombre.value := longitud],
                            reg.estadoTramos[nombre.value := Some(EnServicio)]))
  }

  /** `actualizarEstado(nombre, nuevoEstado)`: existence is checked against
      `tramos`; the new state is not validated. */
  function ActualizarEstado(reg: Registro, nombre: JString, nuevoEstado: JString): (p: Paso)
    ensures p.resultado.Err? <==> !(nombre.Some? && nombre.value in reg.tramos)
    ensures p.resultado.Err? ==>
      p.despues == reg && p.resultado.error == NoSuchElement(MsgTramoNoExiste + ": " + Texto(nombre))
    ensures p.despues.tramos == reg.tramos
    ensures Valid(reg) ==> Valid(p.despues)
  {
    if nombre.None? || nombre.value !in reg.tramos then
      Paso(Err(NoSuchElement(MsgTramoNoExiste + ": " + Texto(nombre))), reg)
    else
      Paso(Ok(()), Registro(reg.tramos, reg.estadoTramos[nombre.value := nuevoEstado]))
  }

  /** `consultarEstado(nombre)`: existence is checked against `estadoTramos`. */
  function ConsultarEstado(reg: Registro, nombre: JString): (r: Result<JString>)
    ensures r.Ok? <==> nombre.Some? && nombre.value in reg.estadoTramos
    ensures r.Ok? ==> r.value == reg.estadoTramos[nombre.value]
    ensures r.Err? ==> r.error == NoSuchElement(MsgTramoNoExiste)
  {
    if nombre.None? || nombre.value !in reg.estadoTramos then
      Err(NoSuchElement(MsgTramoNoExiste))
    else
      Ok(reg.estadoTramos[nombre.value])
  }

  // ---------------------------------------------------------------------------
  // Properties of single operations

  /** A successful add stores the length, resets the state to "En servicio" and
      leaves every other segment as it was; the key set grows by the name. */
  lemma AnadirTramoEfecto(reg: Registro, nombre: string, longitud: real, otro: string)
    requires !EsBlanco(nombre) && longitud > 0.0
    requires otro != nombre
    ensures var p := AnadirTramo(reg, Some(nombre), longitud);
      && p.resultado == Ok(())
      && p.despues.tramos.Keys == reg.tramos.Keys + {nombre}
      && p.despues.tramos[nombre] == longitud
      && ConsultarEstado(p.despues, Some(nombre)) == Ok(Some(EnServicio))
      && (otro in p.despues.tramos <==> otro in reg.tramos)
      && (otro in reg.tramos ==> p.despues.tramos[otro] == reg.tramos[otro])
      && (otro in p.despues.estadoTramos <==> otro in reg.estadoTramos)
      && (otro in reg.estadoTramos ==> p.despues.estadoTramos[otro] == reg.estadoTramos[otro])
  {
  }

  /** Re-adding an existing name keeps the number of segments, overwrites the
      length and resets the state, whatever it was. */
  lemma AnadirTramoSobrescribe(reg: Registro, nombre: string, longitud: real, estado: JString)
    requires Valid(reg) && nombre in reg.tramos
    requires longitud > 0.0
    ensures var p := ActualizarEstado(reg, Some(nombre), estado);
      var q := AnadirTramo(p.despues, Some(nombre), longitud);
      && q.resultado == Ok(())
      && q.despues.tramos.Keys == reg.tramos.Keys
      && |q.despues.tramos| == |reg.tramos|
      && q.despues.tramos[nombre] == longitud
      && ConsultarEstado(q.despues, Some(nombre)) == Ok(Some(EnServicio))
  {
    var q := AnadirTramo(ActualizarEstado(reg, Some(nombre), estado).despues, Some(nombre), longitud);
    assert q.despues.tramos.Keys == reg.tramos.Keys;
  }

  /** After a successful state update, querying the segment returns the new
      state; the lengths and every other state are untouched. */
  lemma ConsultarTrasActualizar(reg: Registro, nombre: string, nuevoEstado: JString, otro: string)
    requires Valid(reg) && nombre in reg.tramos
    requires otro != nombre
    ensures var p := ActualizarEstado(reg, Some(nombre), nuevoEstado);
      && p.resultado == Ok(())
      && ConsultarEstado(p.despues, Some(nombre)) == Ok(nuevoEstado)
      && p.despues.tramos == reg.tramos
      && ConsultarEstado(p.despues, Some(otro)) == ConsultarEstado(reg, Some(otro))
  {
  }

  /** `actualizarEstado` checks `tramos` and `consultarEstado` checks
      `estadoTramos`; under the invariant both reject exactly the same names. */
  lemma ComprobacionesCoinciden(reg: Registro, nombre: JString, nuevoEstado: JString)
    requires Valid(reg)
    ensures ActualizarEstado(reg, nombre, nuevoEstado).resultado.Err? <==> ConsultarEstado(reg, nombre).Err?
  {
  }

  // ---------------------------------------------------------------------------
  // Sequences of operations

  /** A call a client can make on the registry. `Cambiar` is `cambiarEstado`,
      which delegates to `actualizarEstado`. */
  datatype Operacion =
    | Anadir(nombre: JString, longitud: real)
    | Actualizar(nombre: JString, estado: JString)
    | Cambiar(nombre: JString, estado: JString)
    | Consultar(nombre: JString)

  /** The registry left by one call; a failed call leaves it unchanged. */
  function Aplicar(reg: Registro, op: Operacion): (r: Registro)
    ensures op.Consultar? ==> r == reg
    ensures r.tramos.Keys >= reg.tramos.Keys
  {
    match op
    case Anadir(n, l) => AnadirTramo(reg, n, l).despues
    case Actualizar(n, s) => ActualizarEstado(reg, n, s).despues
    case Cambiar(n, s) => ActualizarEstado(reg, n, s).despues
    case Consultar(_) => reg
  }

  /** The registry left by a sequence of calls. */
  function Ejecutar(reg: Registro, ops: seq<Operacion>): Registro
    decreases |ops|
  {
    if ops == [] then reg else Ejecutar(Aplicar(reg, ops[0]), ops[1..])
  }

  /** The invariant holds after construction and after any sequence of calls. */
  lemma {:induction false} EjecutarPreservaValid(reg: Registro, ops: seq<Operacion>)
    requires Valid(reg)
    ensures Valid(Ejecutar(reg, ops))
    decreases |ops|
  {
    if ops != [] {
      var siguiente := Aplicar(reg, ops[0]);
      assert Valid(siguiente) by {
        match ops[0]
        case Anadir(n, l) =>
        case Actualizar(n, s) =>
        case Cambiar(n, s) =>
        case Consultar(_) =>
      }
      EjecutarPreservaValid(siguiente, ops[1..]);
    }
  }

  /** Segments are never removed: a name once present stays present. */
  lemma {:induction false} EjecutarConservaTramos(reg: Registro, ops: seq<Operacion>, nombre: string)
    requires nombre in reg.tramos
    ensures nombre in Ejecutar(reg, ops).tramos
    decreases |ops|
  {
    if ops != [] {
      EjecutarConservaTramos(Aplicar(reg, ops[0]), ops[1..], nombre);
    }
  }

  /** A name that no call of a sequence adds successfully stays unknown: updating and
      querying it keep failing with `NoSuchElementException`. */
  lemma {:induction false} NoAnadidoNoExiste(reg: Registro, ops: seq<Operacion>, nombre: string, s: JString)
    requires Valid(reg) && nombre !in reg.tramos
    requires forall i :: 0 <= i < |ops| ==> !(ops[i].Anadir? && ops[i].nombre == Some(nombre) && ops[i].longitud > 0.0)
    ensures ActualizarEstado(Ejecutar(reg, ops), Some(nombre), s).resultado.Err?
    ensures ConsultarEstado(Ejecutar(reg, ops), Some(nombre)).Err?
    decreases |ops|
  {
    if ops != [] {
      var siguiente := Aplicar(reg, ops[0]);
      assert Valid(siguiente) && nombre !in siguiente.tramos by {
        match ops[0]
        case Anadir(n, l) =>
        case Actualizar(n, e) =>
        case Cambiar(n, e) =>
        case Consultar(_) =>
      }
      NoAnadidoNoExiste(siguiente, ops[1..], nombre, s);
    } else {
      assert nombre !in reg.estadoTramos;
    }
  }

  // ---------------------------------------------------------------------------
  // Total length: the sum of the values of `tramos`

  /** Some key of a non-empty map. */
  ghost function Elegir(m: map<string, real>): (k: string)
    requires m != map[]
    ensures k in m
  {
    assert m.Keys != {};
    var k :| k in m; k
  }

  /** No value of the map is negative. */
  ghost predicate NoNegativas(m: map<string, real>)
  {
    forall n :: n in m ==> m[n] >= 0.0
  }

  /** The sum of all lengths, independent of any iteration order (see `SumaQuitar`). */
  ghost function SumaLongitudes(m: map<string, real>): (total: real)
    ensures NoNegativas(m) ==> total >= 0.0
    decreases |m|
  {
    if m == map[] then 0.0
    else
      var k := Elegir(m);
      assert |m - {k}| < |m| by { assert (m - {k}).Keys == m.Keys - {k}; }
      m[k] + SumaLongitudes(m - {k})
  }

  /** Taking out any one key splits the sum: the order in which the values are
      added does not matter. */
  lemma {:induction false} SumaQuitar(m: map<string, real>, k: string)
    requires k in m
    ensures SumaLongitudes(m) == m[k] + SumaLongitudes(m - {k})
    decreases |m|
  {
    var j := Elegir(m);
    if j != k {
      assert (m - {j}).Keys == m.Keys - {j};
      assert (m - {k}).Keys == m.Keys - {k};
      SumaQuitar(m - {j}, k);
      SumaQuitar(m - {k}, j);
      assert m - {j} - {k} == m - {k} - {j};
    }
  }

  /** Positive lengths give a positive sum as soon as one segment exists:
      the chosen length is positive and the rest of the sum is not negative. */
  lemma SumaPositiva(m: map<string, real>)
    requires forall n :: n in m ==> m[n] > 0.0
    ensures m == map[] ==> SumaLongitudes(m) == 0.0
    ensures m != map[] ==> SumaLongitudes(m) > 0.0
  {
  }

  /** Storing a value under a key replaces that key's share of the sum. */
  lemma SumaActualizar(m: map<string, real>, k: string, v: real)
    ensures SumaLongitudes(m[k := v]) == SumaLongitudes(m) - (if k in m then m[k] else 0.0) + v
  {
    var m' := m[k := v];
    SumaQuitar(m', k);
    if k in m {
      SumaQuitar(m, k);
    }
    assert m' - {k} == m - {k};
    if k !in m {
      assert m - {k} == m;
    }
  }

  /** The total length after a successful add: a new name adds its length, a
      re-added name replaces its old length. */
  lemma TotalTrasAnadir(reg: Registro, nombre: string, longitud: real)
    requires !EsBlanco(nombre) && longitud > 0.0
    ensures SumaLongitudes(AnadirTramo(reg, Some(nombre), longitud).despues.tramos)
         == SumaLongitudes(reg.tramos) + longitud - (if nombre in reg.tramos then reg.tramos[nombre] else 0.0)
  {
    SumaActualizar(reg.tramos, nombre, longitud);
  }

  // ---------------------------------------------------------------------------
  // The report of `generarInforme`

  const Cabecera: string := "INFORME DE CARRILES BICI - Bahía de Cádiz\n"
  const Separador: string := "===========================================\n"

  /** The line of one segment; `fmt` is the rendering of a `double`. */
  function LineaTramo(nombre: string, longitud: real, estado: JString, fmt: real -> string): (linea: string)
    ensures |linea| == |nombre| + |fmt(longitud)| + |Texto(estado)| + 11
  {
    "- " + nombre + " (" + fmt(longitud) + " km): " + Texto(estado) + "\n"
  }

  /** The closing line with the total length. */
  function LineaTotal(total: real, fmt: real -> string): (linea: string)
    ensures |linea| == |fmt(total)| + 20
  {
    "Longitud total: " + fmt(total) + " km\n"
  }

  /** `orden` lists every key of `keys` exactly once: an iteration order of the key set. */
  ghost predicate Enumera(orden: seq<string>, keys: set<string>)
  {
    && (forall i, j :: 0 <= i < j < |orden| ==> orden[i] != orden[j])
    && (forall n :: n in orden <==> n in keys)
  }

  /** The segment lines for the names of `orden`, in that order. A state
      missing from `estadoTramos` would render as `null`. */
  function Lineas(reg: Registro, orden: seq<string>, fmt: real -> string): string
    requires forall i :: 0 <= i < |orden| ==> orden[i] in reg.tramos
    decreases |orden|
  {
    if orden == [] then ""
    else
      var n := orden[0];
      LineaTramo(n, reg.tramos[n], if n in reg.estadoTramos then reg.estadoTramos[n] else None, fmt)
        + Lineas(reg, orden[1..], fmt)
  }

  /** The text of two orders one after the other is the two texts joined. */
  lemma {:induction false} LineasConcat(reg: Registro, a: seq<string>, b: seq<string>, fmt: real -> string)
    requires forall i :: 0 <= i < |a| ==> a[i] in reg.tramos
    requires forall i :: 0 <= i < |b| ==> b[i] in reg.tramos
    ensures Lineas(reg, a + b, fmt) == Lineas(reg, a, fmt) + Lineas(reg, b, fmt)
    decreases |a|
  {
    if a != [] {
      assert (a + b)[0] == a[0];
      assert (a + b)[1..] == a[1..] + b;
      LineasConcat(reg, a[1..], b, fmt);
    } else {
      assert a + b == b;
    }
  }

  /** The whole report for a given iteration order of the keys. */
  ghost function Informe(reg: Registro, orden: seq<string>, fmt: real -> string): (informe: string)
    requires forall i :: 0 <= i < |orden| ==> orden[i] in reg.tramos
    ensures Cabecera + Separador <= informe
  {
    Cabecera + Separador + Lineas(reg, orden, fmt) + LineaTotal(SumaLongitudes(reg.tramos), fmt)
  }

  /** Every segment of the order has its own line in the report, carrying its
      name, length and state, between the separator and the total line; with
      the order of `GenerarInforme`, which enumerates the key set, every
      segment of the registry is somewhere in the order. */
  lemma InformeContieneTramo(reg: Registro, orden: seq<string>, fmt: real -> string, i: nat)
    requires Valid(reg) && forall j :: 0 <= j < |orden| ==> orden[j] in reg.tramos
    requires i < |orden|
    ensures orden[i] in reg.tramos && orden[i] in reg.estadoTramos
    ensures Informe(reg, orden, fmt)
         == Cabecera + Separador + Lineas(reg, orden[..i], fmt)
            + LineaTramo(orden[i], reg.tramos[orden[i]], reg.estadoTramos[orden[i]], fmt)
            + Lineas(reg, orden[i + 1..], fmt) + LineaTotal(SumaLongitudes(reg.tramos), fmt)
  {
    var nombre := orden[i];
    var izquierda, derecha := orden[..i], orden[i + 1..];
    assert orden == (izquierda + [nombre]) + derecha;
    LineasConcat(reg, izquierda, [nombre], fmt);
    LineasConcat(reg, izquierda + [nombre], derecha, fmt);
    var a, b := Lineas(reg, izquierda, fmt), Lineas(reg, derecha, fmt);
    var linea := LineaTramo(nombre, reg.tramos[nombre], reg.estadoTramos[nombre], fmt);
    assert Lineas(reg, [nombre], fmt) == linea by {
      assert Lineas(reg, [nombre], fmt) == linea + Lineas(reg, [], fmt);
    }
    var cs := Cabecera + Separador;
    Asociar(cs, a + linea, b);
    Asociar(cs, a, linea);
  }

  /** The number of line ends in a text. */
  ghost function Saltos(s: string): nat
    decreases |s|
  {
    if s == [] then 0 else (if s[0] == '\n' then 1 else 0) + Saltos(s[1..])
  }

  /** Line ends of joined texts add up. */
  lemma {:induction false} SaltosConcat(a: string, b: string)
    ensures Saltos(a + b) == Saltos(a) + Saltos(b)
    decreases |a|
  {
    if a == [] {
      assert a + b == b;
    } else {
      assert (a + b)[1..] == a[1..] + b;
      SaltosConcat(a[1..], b);
    }
  }

  /** A text without the character '\n' holds no line end. */
  lemma {:induction false} NingunSalto(s: string)
    requires '\n' !in s
    ensures Saltos(s) == 0
    decreases |s|
  {
    if s != [] {
      assert forall c :: c in s[1..] ==> c in s;
      NingunSalto(s[1..]);
    }
  }

  /** A text that ends in its only line end holds exactly one. */
  lemma UnSalto(s: string)
    requires |s| > 0 && s[|s| - 1] == '\n' && '\n' !in s[..|s| - 1]
    ensures Saltos(s) == 1
  {
    assert s == s[..|s| - 1] + ['\n'];
    NingunSalto(s[..|s| - 1]);
    SaltosConcat(s[..|s| - 1], ['\n']);
    assert Saltos(['\n']) == 1 + Saltos([]);
  }

  /** The title line is one line. */
  lemma SaltosCabecera()
    ensures Saltos(Cabecera) == 1
  {
    UnSalto(Cabecera);
  }

  /** The separator line is one line. */
  lemma SaltosSeparador()
    ensures Saltos(Separador) == 1
  {
    var raya := "===========================================";
    assert Separador == raya + "\n";
    UnSalto(raya + "\n");
  }

  /** An order that lists every key of a set exactly once is as long as the set is large. */
  lemma {:induction false} EnumeraCardinal(orden: seq<string>, keys: set<string>)
    requires Enumera(orden, keys)
    ensures |orden| == |keys|
    decreases |orden|
  {
    if orden == [] {
      assert forall n :: n !in keys by {
        forall n ensures n !in keys { assert n !in orden; }
      }
      assert keys == {};
    } else {
      var resto := keys - {orden[0]};
      forall n ensures n in orden[1..] <==> n in resto {
        if n in orden[1..] {
          var j :| 0 <= j < |orden[1..]| && orden[1..][j] == n;
          assert orden[j + 1] == n;
        }
        if n in resto {
          assert n in orden;
          var j :| 0 <= j < |orden| && orden[j] == n;
          assert j != 0 && orden[1..][j - 1] == n;
        }
      }
      assert Enumera(orden[1..], resto);
      EnumeraCardinal(orden[1..], resto);
    }
  }

  /** No name, state or rendered length of the registry holds a line end. */
  ghost predicate SinSaltos(reg: Registro, fmt: real -> string)
  {
    forall n :: n in reg.tramos ==>
      && Saltos(n) == 0
      && (n in reg.estadoTramos ==> Saltos(Texto(reg.estadoTramos[n])) == 0)
      && Saltos(fmt(reg.tramos[n])) == 0
  }

  /** A segment line whose parts hold no line end holds exactly one. */
  lemma LineaSaltos(nombre: string, longitud: real, estado: JString, fmt: real -> string)
    requires Saltos(nombre) == 0 && Saltos(fmt(longitud)) == 0 && Saltos(Texto(estado)) == 0
    ensures Saltos(LineaTramo(nombre, longitud, estado, fmt)) == 1
  {
    var x1 := "- " + nombre;
    NingunSalto("- ");
    SaltosConcat("- ", nombre);
    var x2 := x1 + " (";
    NingunSalto(" (");
    SaltosConcat(x1, " (");
    var x3 := x2 + fmt(longitud);
    SaltosConcat(x2, fmt(longitud));
    var x4 := x3 + " km): ";
    NingunSalto(" km): ");
    SaltosConcat(x3, " km): ");
    var x5 := x4 + Texto(estado);
    SaltosConcat(x4, Texto(estado));
    UnSalto("\n");
    SaltosConcat(x5, "\n");
  }

  /** The label before the total holds no line end. */
  lemma SaltosRotuloTotal()
    ensures Saltos("Longitud total: ") == 0
  {
    NingunSalto("Longitud total: ");
  }

  /** The unit after the total ends the line. */
  lemma SaltosUnidad()
    ensures Saltos(" km\n") == 1
  {
    UnSalto(" km\n");
  }

  /** The total line is one line when the rendered total holds no line end. */
  lemma LineaTotalSaltos(total: real, fmt: real -> string)
    requires Saltos(fmt(total)) == 0
    ensures Saltos(LineaTotal(total, fmt)) == 1
  {
    var t := fmt(total);
    SaltosRotuloTotal();
    SaltosUnidad();
    assert Saltos("Longitud total: " + t) == 0 by { SaltosConcat("Longitud total: ", t); }
    SaltosConcat("Longitud total: " + t, " km\n");
  }

  /** With no line end inside the parts, the segment text has one line end per name of the order. */
  lemma {:induction false} LineasSaltos(reg: Registro, orden: seq<string>, fmt: real -> string)
    requires Valid(reg) && SinSaltos(reg, fmt)
    requires forall i :: 0 <= i < |orden| ==> orden[i] in reg.tramos
    ensures Saltos(Lineas(reg, orden, fmt)) == |orden|
    decreases |orden|
  {
    if orden != [] {
      var n := orden[0];
      LineaSaltos(n, reg.tramos[n], reg.estadoTramos[n], fmt);
      SaltosConcat(LineaTramo(n, reg.tramos[n], reg.estadoTramos[n], fmt), Lineas(reg, orden[1..], fmt));
      LineasSaltos(reg, orden[1..], fmt);
    }
  }

  /** The report has one line per segment besides the title, separator and
      total lines: when no name, state or rendered number holds a line end,
      it holds exactly `|tramos| + 3` line ends. */
  lemma InformeLineas(reg: Registro, orden: seq<string>, fmt: real -> string)
    requires Valid(reg) && Enumera(orden, reg.tramos.Keys)
    requires SinSaltos(reg, fmt) && Saltos(fmt(SumaLongitudes(reg.tramos))) == 0
    ensures Saltos(Informe(reg, orden, fmt)) == |reg.tramos| + 3
  {
    var lineas, total := Lineas(reg, orden, fmt), LineaTotal(SumaLongitudes(reg.tramos), fmt);
    assert Saltos(lineas) == |reg.tramos| by {
      EnumeraCardinal(orden, reg.tramos.Keys);
      LineasSaltos(reg, orden, fmt);
    }
    assert Saltos(total) == 1 by { LineaTotalSaltos(SumaLongitudes(reg.tramos), fmt); }
    assert Saltos(Cabecera + Separador) == 2 by {
      SaltosCabecera();
      SaltosSeparador();
      SaltosConcat(Cabecera, Separador);
    }
    SaltosConcat(Cabecera + Separador, lineas);
    SaltosConcat(Cabecera + Separador + lineas, total);
  }

  /** Concatenation of strings is associative; stated once so that the
      report proofs need not rediscover it. */
  lemma Asociar(x: string, y: string, z: string)
    ensures x + (y + z) == x + y + z
  {
  }
}
