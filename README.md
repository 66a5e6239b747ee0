# CarrilBiciManager, modelled in Dafny

`CarrilBiciManager` is an in-memory registry of bike-lane segments ("tramos").
It keeps two parallel maps:

- `tramos` maps a segment name to its length in km.
- `estadoTramos` maps the same name to a free-form state.

Clients can add a segment. The name must not be null or blank and the length must be positive.
They can update the state of an existing segment, through `actualizarEstado` or its alias
`cambiarEstado`. They can query a state, sum the lengths, read the lengths, and render a text report.

The model has two modules:

- `Tramos` (`tramos.dfy`) treats the registry as a value, `Registro(tramos, estadoTramos)`.
  It gives each operation as a pure transition that returns a `Result` (`IllegalArgument` or
  `NoSuchElement`, carrying the source's messages) and the registry it leaves.
  It also defines the invariant `Valid`: equal key sets, positive lengths and non-blank names.
  Further, it defines the sum of the lengths `SumaLongitudes`, the report text `Informe`,
  and the lemmas about them.
- `CarrilBici` (`carril_bici_manager.dfy`) holds the class `CarrilBiciManager`.
  Its two map fields are updated in place. Each method is proved against the transition in `Tramos`.
  `longitudTotal` and `generarInforme` are loops over the key set, proved equal to
  `SumaLongitudes` and `Informe`. The method `Escenarios` is a client that walks through
  the basic uses: an empty registry, an add, rejected adds and unknown names.

Java `null` is modelled as `None` of `JString = Option<string>`. A null name is rejected by the add.
The other operations report it as not found, since it is never a key. The source accepts
a null state in `actualizarEstado`; the model stores it, and the report renders it as `null`.
`String.isBlank` is modelled with the exact character set of `Character.isWhitespace`.

Details of the code the model keeps:

- The initial state is "En servicio".
- The report title is "INFORME DE CARRILES BICI - Bahía de Cádiz".
- The report lists the keys in the map's iteration order, which the model leaves arbitrary.
- A null state is accepted and stored.

## Model

| member | source | states |
|---|---|---|
| `Tramos.BlancoComoJava` | src/Examen/CarrilBiciManager.java:50 | `EsBlanco`/`EsEspacio` follow `isBlank`: the empty string and strings of tabs, line ends, U+3000 and U+2028 are blank; a string with a letter is not, nor are the no-break spaces U+00A0, U+2007 and U+202F |
| `Tramos.Vacio` | src/Examen/CarrilBiciManager.java:35-38 | the fresh registry has two empty maps and satisfies the invariant |
| `Tramos.AnadirTramo` | src/Examen/CarrilBiciManager.java:49-58 | fails exactly when the name is null or blank or the length is <= 0; the name check takes precedence, with its own message; a failure leaves the registry unchanged; the invariant is preserved |
| `Tramos.ActualizarEstado` | src/Examen/CarrilBiciManager.java:71-76 | fails with NoSuchElement exactly when the name is not a key of `tramos`; a failure changes nothing; `tramos` is never changed; the invariant is preserved |
| `Tramos.ConsultarEstado` | src/Examen/CarrilBiciManager.java:95-100 | succeeds exactly when the name is a key of `estadoTramos` and then returns the stored state; otherwise NoSuchElement |
| `Tramos.AnadirTramoEfecto` | src/Examen/CarrilBiciManager.java:56-57 | a successful add stores the length and makes the state query return "En servicio"; the key set grows by the name; every other entry of both maps is unchanged |
| `Tramos.AnadirTramoSobrescribe` | src/Examen/CarrilBiciManager.java:56-57 | re-adding an existing name, whatever its state was, keeps the key set; it overwrites the length and resets the state to "En servicio" |
| `Tramos.ConsultarTrasActualizar` | src/Examen/CarrilBiciManager.java:71-76 | after a successful update, the query returns the new state; `tramos` and the states of all other names are unchanged |
| `Tramos.ComprobacionesCoinciden` | src/Examen/CarrilBiciManager.java:72-96 | under the invariant, the existence check on `tramos` (update) and on `estadoTramos` (query) reject exactly the same names |
| `Tramos.Aplicar` | src/Examen/CarrilBiciManager.java:49-100 | no call removes a segment; a query leaves the registry unchanged |
| `Tramos.EjecutarPreservaValid` | src/Examen/CarrilBiciManager.java:35-76 | after any sequence of calls, the two maps have equal key sets, every length is > 0 and no name is blank |
| `Tramos.EjecutarConservaTramos` | src/Examen/CarrilBiciManager.java:49-86 | a segment, once present, stays present through any sequence of calls |
| `Tramos.NoAnadidoNoExiste` | src/Examen/CarrilBiciManager.java:71-100 | after any sequence of calls none of which adds the name successfully, updating or querying that name fails |
| `Tramos.SumaLongitudes` | src/Examen/CarrilBiciManager.java:103 | the sum of the values of the lengths map; it is never negative when no value is negative |
| `Tramos.SumaQuitar` | src/Examen/CarrilBiciManager.java:103 | the sum of the lengths does not depend on the order of summation: it splits as any one value plus the sum of the rest |
| `Tramos.SumaPositiva` | src/Examen/CarrilBiciManager.java:102-104 | with positive lengths, the sum is 0 for an empty map and strictly positive otherwise |
| `Tramos.SumaActualizar` | src/Examen/CarrilBiciManager.java:103 | storing a value under a key replaces that key's share of the sum |
| `Tramos.TotalTrasAnadir` | src/Examen/CarrilBiciManager.java:49-104 | after a successful add, the total grows by the new length, less the old length when the name was already present |
| `Tramos.LineaTramo` | src/Examen/CarrilBiciManager.java:114-116 | the line of one segment is `"- "`, the name, `" ("`, the rendered length, `" km): "`, the state (`null` for a null state) and a line end; its length is the sum of the parts plus 11 |
| `Tramos.LineaTotal` | src/Examen/CarrilBiciManager.java:118 | the total line is `"Longitud total: "`, the rendered total and `" km"` with a line end; its length is that of the rendered total plus 20 |
| `Tramos.Informe` | src/Examen/CarrilBiciManager.java:110-119 | the report for a key order: the title line and the 43-character separator line, which it always starts with, then the segment lines in that order, then the total line of the sum of the lengths |
| `Tramos.LineaSaltos` | src/Examen/CarrilBiciManager.java:114-116 | a segment line whose name, rendered length and state hold no line end holds exactly one |
| `Tramos.LineasSaltos` | src/Examen/CarrilBiciManager.java:113-117 | under the same condition for every segment, the segment lines of an order hold one line end per name of the order |
| `Tramos.EnumeraCardinal` | src/Examen/CarrilBiciManager.java:113 | an order that lists every key exactly once has as many entries as there are segments |
| `Tramos.InformeLineas` | src/Examen/CarrilBiciManager.java:110-119 | when no name, state or rendered number holds a line end, the report holds exactly one line end per segment plus three (title, separator, total) |
| `Tramos.LineasConcat` | src/Examen/CarrilBiciManager.java:113-117 | the segment lines of two orders in sequence are the two texts joined |
| `Tramos.InformeContieneTramo` | src/Examen/CarrilBiciManager.java:110-119 | the report is the header, the separator, the lines before a segment, that segment's line (name, length, state), the lines after it and the total line |
| `CarrilBici.CarrilBiciManager.constructor` | src/Examen/CarrilBiciManager.java:35-38 | the new object holds the empty registry and satisfies the invariant |
| `CarrilBici.CarrilBiciManager.AnadirTramo` | src/Examen/CarrilBiciManager.java:49-58 | the result and the new maps are those of `Tramos.AnadirTramo`; the invariant is kept |
| `CarrilBici.CarrilBiciManager.ActualizarEstado` | src/Examen/CarrilBiciManager.java:71-76 | the result and the new maps are those of `Tramos.ActualizarEstado`; the invariant is kept |
| `CarrilBici.CarrilBiciManager.CambiarEstado` | src/Examen/CarrilBiciManager.java:84-86 | has exactly the effect and the errors of `actualizarEstado` |
| `CarrilBici.CarrilBiciManager.ConsultarEstado` | src/Examen/CarrilBiciManager.java:95-100 | returns what `Tramos.ConsultarEstado` gives for the current maps, and changes nothing |
| `CarrilBici.CarrilBiciManager.LongitudTotal` | src/Examen/CarrilBiciManager.java:102-104 | the loop returns the sum of all lengths; this is 0 for an empty registry and > 0 once a segment exists |
| `CarrilBici.CarrilBiciManager.ObtenerTramos` | src/Examen/CarrilBiciManager.java:106-108 | returns the lengths map as a value, with the same keys as the states and only positive lengths |
| `CarrilBici.CarrilBiciManager.GenerarInforme` | src/Examen/CarrilBiciManager.java:110-120 | the report starts with the header and the separator, then has one line per segment in an order that lists every key exactly once, and ends with the total line |

## Left out

- IEEE-754 `double`: lengths and the total are exact reals. The model does not represent NaN or infinities. A NaN length passes the `longitud <= 0` check in the source (line 53) and is stored. The model does not cover rounding or the compensated summation of the stream sum (line 103).
- `Double.toString` rendering of numbers in the report (lines 115 and 118): `GenerarInforme` takes the number rendering as a parameter `fmt`.
- HashMap iteration order (line 113): the order is the ghost out-parameter `orden`, which is any enumeration of the key set. Because of this, the model does not prove that two reports of an unchanged registry are identical.
- `Collections.unmodifiableMap` (line 107): `ObtenerTramos` returns the map as a value. A Dafny value cannot be used to change the object, which is the read-only guarantee, but there is no live view that follows later changes.
- Exceptions are modelled as `Result` values returned to the caller. Stack unwinding is not modelled.
- Concurrency: the class is not synchronised, and the model is sequential.
