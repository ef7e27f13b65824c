/** The commerce-management view-model (`ManageComerciosViewModel`): the
    loaded commerces with their locales and user counts, the filters and
    the country list, the commerce form with its locales, and the commands
    that create, update, toggle and delete commerces. */
module AdminComercios {
  import opened Wrappers
  import opened Text
  import opened Sorting
  import opened Almacen
  import opened ServicioArchivos

  // ---------------------------------------------------------------------
  // The loaded commerces

  /** A loaded `ComercioModel`: its row, its locales ordered by name and
      the user count of the join query. */
  datatype Comercio = Comercio(fila: ComercioFila, locales: seq<LocalFila>, totalUsuarios: nat)

  /** What the load loop builds for commerce row `f`. */
  function Cargado(t: Tablas, f: ComercioFila): Comercio
  {
    Comercio(f, LocalesDe(t, f.id), ContarUsuariosDelComercio(t, f.id))
  }

  function CargarFilas(t: Tablas, filas: seq<ComercioFila>): (r: seq<Comercio>)
    ensures |r| == |filas|
    ensures forall i :: 0 <= i < |filas| ==> r[i] == Cargado(t, filas[i])
  {
    if filas == [] then [] else CargarFilas(t, filas[..|filas| - 1]) + [Cargado(t, filas[|filas| - 1])]
  }

  /** The list `CargarDatosDesdeBaseDatos` builds when nothing fails: the
      commerces by name, each with its locales and its user count. */
  function Vista(t: Tablas): (r: seq<Comercio>)
    ensures |r| == |t.comercios|
  {
    CargarFilas(t, ComerciosPorNombre(t))
  }

  predicate NombreLe(a: Comercio, b: Comercio)
  {
    StrLe(a.fila.datos.nombre, b.fila.datos.nombre)
  }

  lemma NombreLeOrden()
    ensures TotalPreorder(NombreLe)
  {
    forall a: Comercio, b: Comercio
      ensures NombreLe(a, b) || NombreLe(b, a)
    {
      StrLeTotal(a.fila.datos.nombre, b.fila.datos.nombre);
    }
    forall a: Comercio, b: Comercio, c: Comercio | NombreLe(a, b) && NombreLe(b, c)
      ensures NombreLe(a, c)
    {
      StrLeTransitive(a.fila.datos.nombre, b.fila.datos.nombre, c.fila.datos.nombre);
    }
  }

  /** The loaded list holds one entry per commerce row, ordered by name;
      each entry carries exactly the locales of its commerce and the join
      count of its users. */
  lemma VistaCorrecta(t: Tablas)
    ensures Sorted(Vista(t), NombreLe)
    ensures forall c :: c in Vista(t) <==> c.fila in t.comercios && c == Cargado(t, c.fila)
    ensures forall c :: c in Vista(t) ==>
      (forall l :: l in c.locales <==> l in t.locales && l.idComercio == c.fila.id)
  {
    OrdenesPorNombre();
    var filas := ComerciosPorNombre(t);
    SortByCorrect(t.comercios, NombreComercioLe);
    SortByMembers(t.comercios, NombreComercioLe);
    var v := Vista(t);
    forall c | c in v
      ensures c.fila in t.comercios && c == Cargado(t, c.fila)
      ensures forall l :: l in c.locales <==> l in t.locales && l.idComercio == c.fila.id
    {
      var i :| 0 <= i < |v| && v[i] == c;
      assert filas[i] in filas;
      LocalesDeCorrecto(t, c.fila.id);
    }
    forall c: Comercio | c.fila in t.comercios && c == Cargado(t, c.fila)
      ensures c in v
    {
      var i :| 0 <= i < |filas| && filas[i] == c.fila;
      assert v[i] == c;
    }
  }

  // ---------------------------------------------------------------------
  // Counters

  function TotalComercios(cs: seq<Comercio>): nat
  {
    |cs|
  }

  predicate EsActivo(c: Comercio)
  {
    c.fila.datos.activo
  }

  function ComerciosActivos(cs: seq<Comercio>): nat
  {
    CountWhere(cs, EsActivo)
  }

  function ComerciosInactivos(cs: seq<Comercio>): nat
  {
    CountWhere(cs, Not(EsActivo))
  }

  /** `Comercios.Sum(c => c.CantidadLocales)`. */
  function TotalLocales(cs: seq<Comercio>): nat
  {
    if cs == [] then 0 else |cs[0].locales| + TotalLocales(cs[1..])
  }

  /** Every commerce is counted as active or as inactive, never both. */
  lemma ContadoresCuadran(cs: seq<Comercio>)
    ensures ComerciosActivos(cs) + ComerciosInactivos(cs) == TotalComercios(cs)
    ensures ComerciosActivos(cs) <= TotalComercios(cs) && ComerciosInactivos(cs) <= TotalComercios(cs)
  {
    CountWhereComplement(cs, EsActivo);
  }

  // ---------------------------------------------------------------------
  // Filters

  /** The search text, the country and the state chosen in the filter bar. */
  datatype Filtros = Filtros(busqueda: string, pais: string, estado: string)

  const Todos: string := "Todos"

  /** The lower-cased search text `b` occurs in the lower-cased name of the
      commerce or in the lower-cased name or code of one of its locales. */
  predicate CoincideBusqueda(c: Comercio, b: string)
  {
    || Contains(ToLower(c.fila.datos.nombre), b)
    || exists i :: 0 <= i < |c.locales| &&
         (Contains(ToLower(c.locales[i].datos.nombre), b) || Contains(ToLower(c.locales[i].datos.codigo), b))
  }

  /** The three filters of `AplicarFiltros`, each skipped when it is not
      set: a blank search, an empty or "Todos" country, an empty or "Todos"
      state. A state other than "Activo" selects the inactive ones. */
  predicate PasaFiltros(c: Comercio, f: Filtros)
  {
    && (IsBlank(f.busqueda) || CoincideBusqueda(c, ToLower(f.busqueda)))
    && (f.pais == "" || f.pais == Todos || c.fila.datos.pais == f.pais)
    && (f.estado == "" || f.estado == Todos || c.fila.datos.activo == (f.estado == "Activo"))
  }

  function Criterio(f: Filtros): Comercio -> bool
  {
    c => PasaFiltros(c, f)
  }

  /** The filtered list, ordered by name. */
  function Filtrados(cs: seq<Comercio>, f: Filtros): seq<Comercio>
  {
    SortBy(Filter(cs, Criterio(f)), NombreLe)
  }

  /** The filtered list is ordered by name and holds exactly the commerces
      that pass every filter, each as often as in the loaded list. */
  lemma FiltradosCorrecto(cs: seq<Comercio>, f: Filtros)
    ensures Sorted(Filtrados(cs, f), NombreLe)
    ensures multiset(Filtrados(cs, f)) == multiset(Filter(cs, Criterio(f)))
    ensures forall c :: c in Filtrados(cs, f) <==> c in cs && PasaFiltros(c, f)
  {
    NombreLeOrden();
    SortByCorrect(Filter(cs, Criterio(f)), NombreLe);
    SortByMembers(Filter(cs, Criterio(f)), NombreLe);
  }

  /** With no filter set every commerce passes, so the filtered list is the
      whole list by name: what the load shows before any filter is
      applied. */
  lemma SinFiltros(cs: seq<Comercio>, pais: string, estado: string)
    requires pais == "" || pais == Todos
    requires estado == "" || estado == Todos
    ensures Filtrados(cs, Filtros("", pais, estado)) == SortBy(cs, NombreLe)
  {
    FilterAll(cs, Criterio(Filtros("", pais, estado)));
  }

  // ---------------------------------------------------------------------
  // Countries

  function Paises(cs: seq<Comercio>): (r: seq<string>)
    ensures |r| == |cs| && forall i :: 0 <= i < |cs| ==> r[i] == cs[i].fila.datos.pais
  {
    if cs == [] then [] else [cs[0].fila.datos.pais] + Paises(cs[1..])
  }

  predicate NoVacio(p: string)
  {
    p != ""
  }

  /** `Comercios.Select(c => c.Pais).Distinct().OrderBy(p => p)`. */
  function PaisesOrdenados(cs: seq<Comercio>): seq<string>
  {
    SortBy(FirstOccurrences(Paises(cs)), StrLe)
  }

  /** The country list: "Todos", then the non-empty countries. */
  function PaisesDisponibles(cs: seq<Comercio>): seq<string>
  {
    [Todos] + Filter(PaisesOrdenados(cs), NoVacio)
  }

  /** The list starts with "Todos"; the rest is in ascending order, has no
      repetition and holds exactly the non-empty countries of the loaded
      commerces (so a commerce in a country named "Todos" makes that
      entry appear twice). */
  lemma PaisesDisponiblesCorrecto(cs: seq<Comercio>)
    ensures var r := PaisesDisponibles(cs);
      && |r| >= 1 && r[0] == Todos
      && Sorted(r[1..], StrLe) && Distinct(r[1..])
      && forall p :: p in r[1..] <==> p != "" && exists i :: 0 <= i < |cs| && cs[i].fila.datos.pais == p
  {
    var d := FirstOccurrences(Paises(cs));
    var o := PaisesOrdenados(cs);
    var r := PaisesDisponibles(cs);
    StrLeTotalPreorder();
    SortByCorrect(d, StrLe);
    SortByMembers(d, StrLe);
    FilterSorted(o, NoVacio, StrLe);
    DistinctSubMultiset(d, o);
    FilterSubMultiset(o, NoVacio);
    DistinctSubMultiset(o, Filter(o, NoVacio));
    assert r[1..] == Filter(o, NoVacio);
    forall p
      ensures p in r[1..] <==> p != "" && exists i :: 0 <= i < |cs| && cs[i].fila.datos.pais == p
    {
      if p in Paises(cs) {
        var i :| 0 <= i < |Paises(cs)| && Paises(cs)[i] == p;
        assert cs[i].fila.datos.pais == p;
      }
      if exists i :: 0 <= i < |cs| && cs[i].fila.datos.pais == p {
        var i :| 0 <= i < |cs| && cs[i].fila.datos.pais == p;
        assert Paises(cs)[i] == p;
      }
    }
  }

  // ---------------------------------------------------------------------
  // Locale code

  /** `PadRight(3, 'X')`. */
  function Rellenar(s: string): (r: string)
  {
    if |s| >= 3 then s else s + seq(3 - |s|, _ => 'X')
  }

  /** The three letters of a locale code: "XXX" for an empty name, otherwise
      the first (at most three) letters of the name, upper-cased and padded
      with 'X'. */
  function Prefijo(nombre: string): (r: string)
    ensures |r| == 3
  {
    if nombre == "" then "XXX"
    else
      var l := Filter(nombre, IsLetter);
      Rellenar(ToUpper(l[..if |l| < 3 then |l| else 3]))
  }

  /** The prefix is the upper-cased first letters of the name followed by
      'X' up to three characters; a name without letters gives "XXX". */
  lemma PrefijoCorrecto(nombre: string)
    ensures var l := Filter(nombre, IsLetter);
      var k := if |l| < 3 then |l| else 3;
      && Prefijo(nombre)[..k] == ToUpper(l[..k])
      && (forall i :: k <= i < 3 ==> Prefijo(nombre)[i] == 'X')
    ensures (forall i :: 0 <= i < |nombre| ==> !IsLetter(nombre[i])) ==> Prefijo(nombre) == "XXX"
  {
    var l := Filter(nombre, IsLetter);
    if forall i :: 0 <= i < |nombre| ==> !IsLetter(nombre[i]) {
      FilterNone(nombre, IsLetter);
    }
  }

  /** `string.Join("", digitos)` over values 0..9. */
  function DigitosTexto(ds: seq<nat>): (r: string)
    requires forall i :: 0 <= i < |ds| ==> ds[i] < 10
    ensures |r| == |ds|
    ensures forall i :: 0 <= i < |ds| ==> r[i] == DigitChar(ds[i])
  {
    if ds == [] then [] else DigitosTexto(ds[..|ds| - 1]) + [DigitChar(ds[|ds| - 1])]
  }

  /** The code of a new locale for name `nombre`: the prefix, then the first
      four different values of the random draws `tiradas`. */
  function CodigoLocal(nombre: string, tiradas: seq<nat>): string
    requires forall d :: d in tiradas ==> d < 10
    requires |FirstOccurrences(tiradas)| >= 4
  {
    var ds := FirstOccurrences(tiradas)[..4];
    assert forall i :: 0 <= i < 4 ==> ds[i] in FirstOccurrences(tiradas);
    Prefijo(nombre) + DigitosTexto(ds)
  }

  /** While fewer than four different values have been drawn, a draw is
      left, and it adds its value unless that value was drawn before. */
  lemma SiguienteTirada(tiradas: seq<nat>, i: nat)
    requires i <= |tiradas| && |FirstOccurrences(tiradas[..i])| < 4 <= |FirstOccurrences(tiradas)|
    ensures i < |tiradas|
    ensures var u := FirstOccurrences(tiradas[..i]);
      FirstOccurrences(tiradas[..i + 1]) == if tiradas[i] in u then u else u + [tiradas[i]]
  {
    assert tiradas[..|tiradas|] == tiradas;
    FirstOccurrencesStep(tiradas, i);
  }

  /** Once the draws up to `i` hold four different values, those are the
      first four different values of all the draws. */
  lemma PrimerasCuatro(tiradas: seq<nat>, i: nat)
    requires i <= |tiradas| && forall d :: d in tiradas ==> d < 10
    requires |FirstOccurrences(tiradas)| >= 4 && |FirstOccurrences(tiradas[..i])| == 4
    ensures FirstOccurrences(tiradas[..i]) == FirstOccurrences(tiradas)[..4]
    ensures forall k :: 0 <= k < 4 ==> FirstOccurrences(tiradas[..i])[k] < 10
  {
    var usados := FirstOccurrences(tiradas[..i]);
    FirstOccurrencesPrefix(tiradas, i);
    forall k | 0 <= k < 4
      ensures usados[k] < 10
    {
      assert usados[k] in tiradas[..i];
      var j :| 0 <= j < i && tiradas[j] == usados[k];
      assert tiradas[j] in tiradas;
    }
  }

  /** A locale code has seven characters: the prefix, then four digits
      that are pairwise different. */
  lemma CodigoLocalForma(nombre: string, tiradas: seq<nat>)
    requires forall d :: d in tiradas ==> d < 10
    requires |FirstOccurrences(tiradas)| >= 4
    ensures var c := CodigoLocal(nombre, tiradas);
      && |c| == 7
      && c[..3] == Prefijo(nombre)
      && (forall i :: 3 <= i < 7 ==> IsDigit(c[i]))
      && (forall i, j :: 3 <= i < j < 7 ==> c[i] != c[j])
      && (forall i :: 3 <= i < 7 ==> DigitValue(c[i]) in tiradas)
  {
    var c := CodigoLocal(nombre, tiradas);
    var ds := FirstOccurrences(tiradas)[..4];
    assert forall i :: 0 <= i < 4 ==> ds[i] in FirstOccurrences(tiradas);
    assert c[3..] == DigitosTexto(ds);
    forall i, j | 3 <= i < j < 7
      ensures c[i] != c[j]
    {
      assert ds[i - 3] != ds[j - 3];
      assert c[i] == DigitChar(ds[i - 3]) && c[j] == DigitChar(ds[j - 3]);
    }
    forall i | 3 <= i < 7
      ensures DigitValue(c[i]) in tiradas
    {
      assert ds[i - 3] in FirstOccurrences(tiradas);
    }
  }

  // ---------------------------------------------------------------------
  // The form

  /** The commerce form fields. */
  datatype Formulario = Formulario(
    nombre: string,
    srl: string,
    direccion: string,
    telefono: string,
    mail: string,
    pais: string,
    observaciones: string,
    comision: real,
    activo: bool)

  /** The form after `LimpiarFormulario`. */
  const FormularioVacio := Formulario("", "", "", "", "", "", "", 0.0, true)

  /** A locale of the form (`LocalFormModel`): the key it was loaded with,
      its owner and its columns. */
  datatype LocalForm = LocalForm(idLocal: int, idComercio: int, datos: DatosLocal)

  /** The column values the `INSERT` and the `UPDATE` write: the form text
      as it is, the notes always as a value (the field is never null). */
  function DatosDe(f: Formulario): DatosComercio
  {
    DatosComercio(f.nombre, f.srl, f.direccion, f.telefono, f.mail, f.pais, Some(f.observaciones), f.comision, f.activo)
  }

  /** `CargarDatosEnFormulario` on the commerce fields: null notes become
      the empty text. */
  function FormularioDe(d: DatosComercio): Formulario
  {
    Formulario(d.nombre, d.srl, d.direccion, d.telefono, d.mail, d.pais,
               if d.observaciones.Some? then d.observaciones.value else "", d.comision, d.activo)
  }

  /** Loading a commerce into the form and writing the form back gives the
      same columns, except that null notes are written as empty text. */
  lemma FormularioIdaYVuelta(d: DatosComercio)
    ensures d.observaciones.Some? ==> DatosDe(FormularioDe(d)) == d
    ensures d.observaciones.None? ==> DatosDe(FormularioDe(d)) == d.(observaciones := Some(""))
    ensures FormularioDe(DatosDe(FormularioDe(d))) == FormularioDe(d)
  {
  }

  /** The locales of a loaded commerce as form entries. */
  function LocalesFormDe(c: Comercio): (r: seq<LocalForm>)
    ensures |r| == |c.locales|
    ensures forall i :: 0 <= i < |r| ==>
      r[i].idLocal == c.locales[i].id && r[i].idComercio == c.fila.id && r[i].datos == c.locales[i].datos
  {
    seq(|c.locales|, i requires 0 <= i < |c.locales| => LocalForm(c.locales[i].id, c.fila.id, c.locales[i].datos))
  }

  /** A new locale of the form: the generated code, the name and active;
      `LocalFormModel` is not part of this model, so its other columns
      are taken to start empty, unset, zero and off. */
  function LocalNuevo(codigo: string, nombre: string): DatosLocal
  {
    DatosLocal(codigo, nombre, "", "", None, None, None, None, None, 0, true, false, false, false, false)
  }

  // ---------------------------------------------------------------------
  // Creation

  /** The rows inserted for the form's locales: consecutive keys from
      `primero`, owner `idComercio`, the columns of each entry, in order. */
  function FilasLocales(idComercio: int, primero: int, ls: seq<LocalForm>): (r: seq<LocalFila>)
    ensures |r| == |ls|
    ensures forall i :: 0 <= i < |ls| ==> r[i] == LocalFila(primero + i, idComercio, ls[i].datos)
  {
    if ls == [] then []
    else FilasLocales(idComercio, primero, ls[..|ls| - 1]) + [LocalFila(primero + |ls| - 1, idComercio, ls[|ls| - 1].datos)]
  }

  /** The tables after a committed creation of commerce `id`. */
  function Creado(t: Tablas, id: int, d: DatosComercio, ahora: int, primero: int, ls: seq<LocalForm>): Tablas
  {
    t.(comercios := t.comercios + [ComercioFila(id, d, ahora, ahora)],
       locales := t.locales + FilasLocales(id, primero, ls))
  }

  /** Inserting the next locale of the form extends a partial creation by
      one row; the new commerce exists all along. */
  lemma CreadoPaso(t: Tablas, id: int, d: DatosComercio, ahora: int, primero: int, ls: seq<LocalForm>, i: nat)
    requires i < |ls|
    ensures var u := Creado(t, id, d, ahora, primero, ls[..i]);
      && ExisteComercio(u, id)
      && u.(locales := u.locales + [LocalFila(primero + i, id, ls[i].datos)])
         == Creado(t, id, d, ahora, primero, ls[..i + 1])
  {
    var u := Creado(t, id, d, ahora, primero, ls[..i]);
    assert u.comercios[|t.comercios|].id == id;
    assert ls[..i + 1][..i] == ls[..i];
  }

  /** After the creation of a commerce whose key was free, its locales are
      exactly the new rows, in the order of the form; nothing else
      belongs to it. */
  lemma CreadoCorrecto(t: Tablas, id: int, d: DatosComercio, ahora: int, primero: int, ls: seq<LocalForm>)
    requires Integra(t) && !ExisteComercio(t, id)
    ensures var u := Creado(t, id, d, ahora, primero, ls);
      && ExisteComercio(u, id)
      && Filter(u.locales, DeComercio(id)) == FilasLocales(id, primero, ls)
      && forall l :: l in LocalesDe(u, id) <==> l in FilasLocales(id, primero, ls)
  {
    var u := Creado(t, id, d, ahora, primero, ls);
    assert u.comercios[|t.comercios|].id == id;
    assert forall i :: 0 <= i < |t.locales| ==> t.locales[i].idComercio != id;
    SoloNuevas(t.locales, FilasLocales(id, primero, ls), id);
    LocalesDeCorrecto(u, id);
  }

  /** Of old rows none of which belongs to `id`, followed by new rows that
      all do, the rows of `id` are exactly the new ones. */
  lemma SoloNuevas(viejas: seq<LocalFila>, nuevas: seq<LocalFila>, id: int)
    requires forall i :: 0 <= i < |viejas| ==> viejas[i].idComercio != id
    requires forall i :: 0 <= i < |nuevas| ==> nuevas[i].idComercio == id
    ensures Filter(viejas + nuevas, DeComercio(id)) == nuevas
  {
    FilterNone(viejas, DeComercio(id));
    FilterAll(nuevas, DeComercio(id));
    FilterConcat(viejas, nuevas, DeComercio(id));
  }

  /** Whether a creation failing at step `falla` commits: step 0 is the
      commerce `INSERT`, step `1 + i` the `INSERT` of locale `i`, step
      `1 + n` the `COMMIT`; later steps never come. */
  predicate Confirma(falla: Option<nat>, n: nat)
  {
    falla.None? || falla.value > n + 1
  }

  /** How many locale `INSERT`s of a creation with `n` form locales run
      before the step `falla` throws: each one draws a key from the locale
      sequence, and a rollback does not give it back. */
  function LocalesInsertados(falla: Option<nat>, n: nat): (r: nat)
    ensures r <= n
    ensures Confirma(falla, n) ==> r == n
    ensures falla.Some? && 0 < falla.value <= n ==> r == falla.value - 1
  {
    if falla.None? || falla.value > n then n
    else if falla.value == 0 then 0
    else falla.value - 1
  }

  // ---------------------------------------------------------------------
  // State change in memory

  function ConActivo(c: Comercio, activo: bool): Comercio
  {
    c.(fila := c.fila.(datos := c.fila.datos.(activo := activo)))
  }

  /** Every loaded entry of commerce `id` (the object the command received,
      wherever a list holds it) takes the flag `activo`. */
  function ConEstado(cs: seq<Comercio>, id: int, activo: bool): (r: seq<Comercio>)
    ensures |r| == |cs|
    ensures forall i :: 0 <= i < |cs| ==> r[i] == if cs[i].fila.id == id then ConActivo(cs[i], activo) else cs[i]
  {
    if cs == [] then []
    else [if cs[0].fila.id == id then ConActivo(cs[0], activo) else cs[0]] + ConEstado(cs[1..], id, activo)
  }

  /** Toggling twice in memory restores the list: the second call negates
      the flag the first one wrote. */
  lemma {:induction false} DobleCambioEnMemoria(cs: seq<Comercio>, id: int, a: bool)
    requires forall i :: 0 <= i < |cs| && cs[i].fila.id == id ==> cs[i].fila.datos.activo == a
    ensures ConEstado(ConEstado(cs, id, !a), id, a) == cs
  {
    if cs != [] {
      DobleCambioEnMemoria(cs[1..], id, a);
    }
  }

  /** Toggling twice in the table restores every flag; only the
      modification stamps of the toggled rows move. */
  lemma DobleCambioEnTabla(s: seq<ComercioFila>, id: int, a: bool, t1: int, t2: int)
    requires forall i :: 0 <= i < |s| && s[i].id == id ==> s[i].datos.activo == a
    ensures var r := ActualizarActivo(ActualizarActivo(s, id, !a, t1), id, a, t2);
      && |r| == |s|
      && forall i :: 0 <= i < |s| ==>
           r[i] == if s[i].id == id then s[i].(fechaModificacion := t2) else s[i]
  {
  }

  /** Toggling changes neither the number of commerces nor the locale
      total. */
  lemma {:induction false} ConEstadoConservaTotales(cs: seq<Comercio>, id: int, activo: bool)
    ensures TotalComercios(ConEstado(cs, id, activo)) == TotalComercios(cs)
    ensures TotalLocales(ConEstado(cs, id, activo)) == TotalLocales(cs)
  {
    if cs != [] {
      ConEstadoConservaTotales(cs[1..], id, activo);
      assert ConEstado(cs, id, activo)[1..] == ConEstado(cs[1..], id, activo);
    }
  }

  // ---------------------------------------------------------------------
  // The view-model

  /** The messages the view-model shows (the localized texts are not
      modelled). */
  datatype Mensaje =
    | NombreObligatorio
    | EmailObligatorio
    | ComercioActualizado
    | ComercioCreado
    | ErrorGuardar
    | ComercioEliminado
    | ErrorEliminar
    | EstadoCambiado(activo: bool)
    | ErrorEstado
    | ErrorCarga

  /** Where a load throws: opening the connection or the commerce query
      (before the list is cleared), or reading the locales or the user
      count of the `k`-th commerce (a `k` past the last commerce never
      comes). */
  datatype FallaCarga = CargaSinFalla | FallaConsulta | FallaEnComercio(k: nat)

  predicate CargaCompleta(falla: FallaCarga, n: nat)
  {
    falla.CargaSinFalla? || (falla.FallaEnComercio? && falla.k >= n)
  }

  /** The loaded list, the shown list and the countries (`c`, `f`, `p`)
      after a load from `t`, given those before it (`c0`, `f0`, `p0`): a
      failed query keeps all three; a failure at the `k`-th commerce keeps
      the first `k` entries and the old shown list and countries; a
      complete load gives the whole view, all of it shown by name, and its
      countries. */
  predicate Recargadas(t: Tablas, falla: FallaCarga,
                       c0: seq<Comercio>, f0: seq<Comercio>, p0: seq<string>,
                       c: seq<Comercio>, f: seq<Comercio>, p: seq<string>)
  {
    if falla == FallaConsulta then c == c0 && f == f0 && p == p0
    else if CargaCompleta(falla, |t.comercios|) then
      c == Vista(t) && f == SortBy(c, NombreLe) && p == PaisesDisponibles(c)
    else c == Vista(t)[..falla.k] && f == f0 && p == p0
  }

  /** Where `EliminarComercio` throws: opening its connection, or the
      `DELETE` of the commerce row. */
  datatype FallaEliminar = EliminarSinFalla | FallaConexionEliminar | FallaDelete

  /** The two fields the save requires: a name and a contact e-mail that
      are not blank. */
  predicate FormularioCompleto(f: Formulario)
  {
    !IsBlank(f.nombre) && !IsBlank(f.mail)
  }

  /** What a save writes: the key of the commerce to update (edit mode
      with a selection), or none for a creation. */
  function Edicion(seleccionado: Option<Comercio>, modoEdicion: bool): (r: Option<int>)
    ensures r.Some? <==> modoEdicion && seleccionado.Some?
    ensures r.Some? ==> r.value == seleccionado.value.fila.id
  {
    if modoEdicion && seleccionado.Some? then Some(seleccionado.value.fila.id) else None
  }

  /** Whether the write of a save commits: the update unless its statement
      throws, the creation unless one of its `n + 2` steps throws. */
  predicate Escribe(edicion: Option<int>, fallaCreacion: Option<nat>, fallaUpdate: bool, n: nat)
  {
    if edicion.Some? then !fallaUpdate else Confirma(fallaCreacion, n)
  }

  /** The commerce and locale key sequences after a save, from `c0` and
      `l0`: an update draws no key; a creation draws the commerce key
      unless its first step throws, and one locale key per locale
      inserted, whether or not it commits. */
  predicate SecuenciasTras(edicion: Option<int>, fallaCreacion: Option<nat>, n: nat,
                           c0: int, l0: int, c: int, l: int)
  {
    if edicion.Some? then c == c0 && l == l0
    else c == c0 + (if fallaCreacion == Some(0) then 0 else 1) && l == l0 + LocalesInsertados(fallaCreacion, n)
  }

  /** The tables after a committed save: the selected row rewritten with
      the form's columns, or the new commerce `nuevo` with its locales
      keyed from `primero`. */
  function Guardado(t: Tablas, edicion: Option<int>, d: DatosComercio, ahora: int,
                    nuevo: int, primero: int, ls: seq<LocalForm>): (r: Tablas)
    ensures edicion.Some? ==> r.locales == t.locales && |r.comercios| == |t.comercios|
    ensures edicion.None? ==> r.comercios == t.comercios + [ComercioFila(nuevo, d, ahora, ahora)]
  {
    match edicion
    case Some(id) => t.(comercios := ActualizarDatos(t.comercios, id, d, ahora))
    case None => Creado(t, nuevo, d, ahora, primero, ls)
  }

  class ManageComerciosViewModel {
    const db: BaseDatos
    const servicio: ArchivoService
    var comercios: seq<Comercio>
    var comerciosFiltrados: seq<Comercio>
    var paisesDisponibles: seq<string>
    var seleccionado: Option<Comercio>
    var form: Formulario
    var localesForm: seq<LocalForm>
    var filtros: Filtros
    var modoEdicion: bool
    var esModoCreacion: bool
    var mostrarFormulario: bool
    var mostrarPanelDerecho: bool
    var mensaje: Option<Mensaje>

    /** The attachment service works on the same database. */
    ghost predicate Valid()
      reads this, db
    {
      db.Valid() && servicio.db == db
    }

    /** The state before the load the constructor starts without waiting
        for it (that load is a separate `CargarDatosDesdeBaseDatos` call
        here): nothing loaded, an empty form and both filters at "Todos". */
    constructor (db: BaseDatos, disco: Carpeta)
      requires db.Valid()
      ensures Valid() && this.db == db && servicio.disco == disco
      ensures comercios == [] && comerciosFiltrados == [] && paisesDisponibles == []
      ensures filtros == Filtros("", Todos, Todos) && form == FormularioVacio && localesForm == []
      ensures seleccionado.None? && !modoEdicion && !esModoCreacion
      ensures !mostrarFormulario && !mostrarPanelDerecho && mensaje.None?
    {
      this.db := db;
      servicio := new ArchivoService(db, disco);
      comercios := [];
      comerciosFiltrados := [];
      paisesDisponibles := [];
      seleccionado := None;
      form := FormularioVacio;
      localesForm := [];
      filtros := Filtros("", Todos, Todos);
      modoEdicion := false;
      esModoCreacion := false;
      mostrarFormulario := false;
      mostrarPanelDerecho := false;
      mensaje := None;
    }

    // -- Loading

    /** `CargarDatosDesdeBaseDatos`: reads the commerces by name and adds
        each, with its locales and user count, to the cleared list; then
        fills the countries and shows every commerce, whatever the filters
        say. A failure keeps what was added so far and shows an error. */
    method CargarDatosDesdeBaseDatos(falla: FallaCarga)
      modifies this`comercios, this`comerciosFiltrados, this`paisesDisponibles, this`mensaje
      ensures falla == FallaConsulta ==>
        comercios == old(comercios) && comerciosFiltrados == old(comerciosFiltrados)
        && paisesDisponibles == old(paisesDisponibles) && mensaje == Some(ErrorCarga)
      ensures falla.FallaEnComercio? && falla.k < |db.tablas.comercios| ==>
        comercios == Vista(db.tablas)[..falla.k] && comerciosFiltrados == old(comerciosFiltrados)
        && paisesDisponibles == old(paisesDisponibles) && mensaje == Some(ErrorCarga)
      ensures CargaCompleta(falla, |db.tablas.comercios|) ==>
        comercios == Vista(db.tablas) && comerciosFiltrados == SortBy(comercios, NombreLe)
        && paisesDisponibles == PaisesDisponibles(comercios) && mensaje == old(mensaje)
    {
      if falla == FallaConsulta {
        mensaje := Some(ErrorCarga);
        return;
      }
      var filas := ComerciosPorNombre(db.tablas);
      ghost var vista := Vista(db.tablas);
      comercios := [];
      var i := 0;
      while i < |filas|
        invariant 0 <= i <= |filas| == |vista|
        invariant comercios == vista[..i]
        invariant falla.FallaEnComercio? ==> falla.k >= i
        invariant comerciosFiltrados == old(comerciosFiltrados) && paisesDisponibles == old(paisesDisponibles)
        invariant mensaje == old(mensaje)
      {
        if falla == FallaEnComercio(i) {
          mensaje := Some(ErrorCarga);
          return;
        }
        TakeStep(vista, i);
        comercios := comercios + [Cargado(db.tablas, filas[i])];
        i := i + 1;
      }
      assert vista[..i] == vista;
      InicializarFiltros();
    }

    /** `InicializarFiltros`: the countries, and the whole list by name. */
    method InicializarFiltros()
      modifies this`paisesDisponibles, this`comerciosFiltrados
      ensures paisesDisponibles == PaisesDisponibles(comercios)
      ensures comerciosFiltrados == SortBy(comercios, NombreLe)
    {
      CargarPaisesDisponibles();
      var orden := SortBy(comercios, NombreLe);
      comerciosFiltrados := [];
      var i := 0;
      while i < |orden|
        invariant 0 <= i <= |orden| && comerciosFiltrados == orden[..i]
        invariant paisesDisponibles == PaisesDisponibles(comercios)
      {
        TakeStep(orden, i);
        comerciosFiltrados := comerciosFiltrados + [orden[i]];
        i := i + 1;
      }
      assert orden[..i] == orden;
    }

    /** `CargarPaisesDisponibles`: "Todos", then each distinct country in
        order, skipping the empty one. */
    method CargarPaisesDisponibles()
      modifies this`paisesDisponibles
      ensures paisesDisponibles == PaisesDisponibles(comercios)
    {
      var paises := PaisesOrdenados(comercios);
      paisesDisponibles := [Todos];
      var i := 0;
      while i < |paises|
        invariant 0 <= i <= |paises|
        invariant paisesDisponibles == [Todos] + Filter(paises[..i], NoVacio)
      {
        FilterPrefixStep([Todos], paises, i, NoVacio);
        if paises[i] != "" {
          paisesDisponibles := paisesDisponibles + [paises[i]];
        }
        i := i + 1;
      }
      assert paises[..i] == paises;
    }

    // -- Filters

    /** `AplicarFiltros`: refills the shown list with the commerces that
        pass the filters, by name. */
    method AplicarFiltros()
      modifies this`comerciosFiltrados
      ensures comerciosFiltrados == Filtrados(comercios, filtros)
      ensures Sorted(comerciosFiltrados, NombreLe)
      ensures forall c :: c in comerciosFiltrados <==> c in comercios && PasaFiltros(c, filtros)
    {
      var orden := Filtrados(comercios, filtros);
      FiltradosCorrecto(comercios, filtros);
      comerciosFiltrados := [];
      var i := 0;
      while i < |orden|
        invariant 0 <= i <= |orden| && comerciosFiltrados == orden[..i]
      {
        comerciosFiltrados := comerciosFiltrados + [orden[i]];
        i := i + 1;
      }
      assert orden[..i] == orden;
    }

    // -- Form and panel

    /** `LimpiarFormulario`. */
    method LimpiarFormulario()
      modifies this`form, this`localesForm
      ensures form == FormularioVacio && localesForm == []
    {
      form := FormularioVacio;
      localesForm := [];
    }

    /** `CargarDatosEnFormulario`: the commerce fields, then each of its
        locales as a form entry. */
    method CargarDatosEnFormulario(c: Comercio)
      modifies this`form, this`localesForm
      ensures form == FormularioDe(c.fila.datos)
      ensures localesForm == LocalesFormDe(c)
    {
      form := FormularioDe(c.fila.datos);
      localesForm := [];
      ghost var todos := LocalesFormDe(c);
      var i := 0;
      while i < |c.locales|
        invariant 0 <= i <= |c.locales| && localesForm == todos[..i]
        invariant form == FormularioDe(c.fila.datos)
      {
        TakeStep(todos, i);
        localesForm := localesForm + [LocalForm(c.locales[i].id, c.fila.id, c.locales[i].datos)];
        i := i + 1;
      }
      assert todos[..i] == todos;
    }

    /** `MostrarFormularioComercio`: an empty form in creation mode. */
    method MostrarFormularioComercio()
      modifies this`form, this`localesForm, this`esModoCreacion, this`modoEdicion
      modifies this`mostrarFormulario, this`mostrarPanelDerecho
      ensures form == FormularioVacio && localesForm == []
      ensures esModoCreacion && !modoEdicion && mostrarFormulario && mostrarPanelDerecho
    {
      LimpiarFormulario();
      esModoCreacion := true;
      modoEdicion := false;
      mostrarFormulario := true;
      mostrarPanelDerecho := true;
    }

    /** `EditarComercio`: selects the commerce and loads it into the form in
        edit mode. */
    method EditarComercio(c: Comercio)
      modifies this`seleccionado, this`form, this`localesForm, this`esModoCreacion, this`modoEdicion
      modifies this`mostrarFormulario, this`mostrarPanelDerecho
      ensures seleccionado == Some(c)
      ensures form == FormularioDe(c.fila.datos) && localesForm == LocalesFormDe(c)
      ensures !esModoCreacion && modoEdicion && mostrarFormulario && mostrarPanelDerecho
    {
      seleccionado := Some(c);
      CargarDatosEnFormulario(c);
      esModoCreacion := false;
      modoEdicion := true;
      mostrarFormulario := true;
      mostrarPanelDerecho := true;
    }

    /** `CerrarPanelDerecho`: hides the panel, drops the selection and
        clears the form; the edit flag is left as it is. */
    method CerrarPanelDerecho()
      modifies this`mostrarPanelDerecho, this`mostrarFormulario, this`seleccionado, this`form, this`localesForm
      ensures !mostrarPanelDerecho && !mostrarFormulario && seleccionado.None?
      ensures form == FormularioVacio && localesForm == []
    {
      mostrarPanelDerecho := false;
      mostrarFormulario := false;
      seleccionado := None;
      LimpiarFormulario();
    }

    // -- Locales of the form

    /** `GenerarCodigoLocal`, with the values of `random.Next(0, 10)` given
        as `tiradas`: the prefix of the form's name, then the digits added
        to the set until it holds four. The set is enumerated in insertion
        order. */
    method GenerarCodigoLocal(tiradas: seq<nat>) returns (codigo: string)
      requires forall d :: d in tiradas ==> d < 10
      requires |FirstOccurrences(tiradas)| >= 4
      ensures codigo == CodigoLocal(form.nombre, tiradas)
    {
      var letras := Prefijo(form.nombre);
      var usados: seq<nat> := [];
      var i := 0;
      while |usados| < 4
        invariant 0 <= i <= |tiradas|
        invariant usados == FirstOccurrences(tiradas[..i]) && |usados| <= 4
        decreases |tiradas| - i
      {
        SiguienteTirada(tiradas, i);
        if tiradas[i] !in usados {
          usados := usados + [tiradas[i]];
        }
        i := i + 1;
      }
      PrimerasCuatro(tiradas, i);
      codigo := letras + DigitosTexto(usados);
    }

    /** `AgregarLocal`: a new entry named after its position, with a
        generated code. */
    method AgregarLocal(tiradas: seq<nat>)
      requires forall d :: d in tiradas ==> d < 10
      requires |FirstOccurrences(tiradas)| >= 4
      modifies this`localesForm
      ensures localesForm == old(localesForm)
        + [LocalForm(0, 0, LocalNuevo(CodigoLocal(form.nombre, tiradas), "Local " + IntToString(|old(localesForm)| + 1)))]
    {
      var codigo := GenerarCodigoLocal(tiradas);
      localesForm := localesForm + [LocalForm(0, 0, LocalNuevo(codigo, "Local " + IntToString(|localesForm| + 1)))];
    }

    /** `EliminarLocal`: removes the entry at position `k`; a position past
        the end removes nothing. */
    method EliminarLocal(k: nat)
      modifies this`localesForm
      ensures k < |old(localesForm)| ==> localesForm == old(localesForm)[..k] + old(localesForm)[k + 1..]
      ensures k >= |old(localesForm)| ==> localesForm == old(localesForm)
    {
      if k < |localesForm| {
        localesForm := localesForm[..k] + localesForm[k + 1..];
      }
    }

    // -- Store commands

    /** `CrearNuevoComercio`: in one transaction, the commerce `INSERT`,
        then one `INSERT` per form locale in list order, then the `COMMIT`;
        the step `falla` throws (see `Confirma`), and then the transaction
        is rolled back, while the keys drawn so far stay drawn. */
    method CrearNuevoComercio(ahora: int, falla: Option<nat>) returns (ok: bool)
      requires Valid()
      modifies db
      ensures Valid()
      ensures ok <==> Confirma(falla, |localesForm|)
      ensures ok ==> db.tablas == Creado(old(db.tablas), old(db.siguienteComercio), DatosDe(form), ahora,
                                         old(db.siguienteLocal), localesForm)
      ensures !ok ==> db.tablas == old(db.tablas)
      ensures db.siguienteComercio == old(db.siguienteComercio) + (if falla == Some(0) then 0 else 1)
      ensures db.siguienteLocal == old(db.siguienteLocal) + LocalesInsertados(falla, |localesForm|)
      ensures db.siguienteArchivo == old(db.siguienteArchivo)
    {
      var n := |localesForm|;
      if falla == Some(0) {
        return false;
      }
      var t0 := db.tablas;
      var id := db.InsertarComercio(DatosDe(form), ahora);
      var completo := InsertarLocalesForm(t0, id, ahora, falla);
      if !completo || falla == Some(1 + n) {
        db.Restaurar(t0);
        return false;
      }
      ok := true;
    }

    /** The locale `INSERT`s of `CrearNuevoComercio`, in list order, after
        the commerce row: stops at the one `falla` names, and otherwise
        leaves the creation complete. */
    method InsertarLocalesForm(t0: Tablas, id: int, ahora: int, falla: Option<nat>) returns (completo: bool)
      requires db.Valid() && db.siguienteComercio == id + 1
      requires db.tablas == Creado(t0, id, DatosDe(form), ahora, db.siguienteLocal, [])
      requires falla.Some? ==> falla.value > 0
      modifies db
      ensures db.Valid()
      ensures db.siguienteComercio == id + 1
      ensures db.siguienteLocal == old(db.siguienteLocal) + LocalesInsertados(falla, |localesForm|)
      ensures db.siguienteArchivo == old(db.siguienteArchivo)
      ensures completo <==> falla.None? || falla.value > |localesForm|
      ensures completo ==> db.tablas == Creado(t0, id, DatosDe(form), ahora, old(db.siguienteLocal), localesForm)
    {
      ghost var primero := db.siguienteLocal;
      var i := 0;
      while i < |localesForm|
        invariant 0 <= i <= |localesForm|
        invariant db.Valid()
        invariant db.siguienteComercio == id + 1 && db.siguienteLocal == primero + i
        invariant db.siguienteArchivo == old(db.siguienteArchivo)
        invariant db.tablas == Creado(t0, id, DatosDe(form), ahora, primero, localesForm[..i])
        invariant falla.Some? ==> falla.value > i
      {
        if falla == Some(1 + i) {
          return false;
        }
        CreadoPaso(t0, id, DatosDe(form), ahora, primero, localesForm, i);
        var r := db.InsertarLocal(id, localesForm[i].datos);
        i := i + 1;
      }
      assert localesForm[..i] == localesForm;
      completo := true;
    }

    /** `ActualizarComercio`: nothing without a selection; otherwise the
        `UPDATE` of the selected commerce's row with the form columns,
        which throws when `falla` holds. Locales are not touched and a
        missing row is not reported. */
    method ActualizarComercio(ahora: int, falla: bool) returns (ok: bool)
      requires Valid()
      modifies db`tablas
      ensures Valid()
      ensures seleccionado.None? ==> ok && db.tablas == old(db.tablas)
      ensures seleccionado.Some? ==> ok == !falla
      ensures seleccionado.Some? && !falla ==>
        db.tablas == old(db.tablas).(comercios := ActualizarDatos(old(db.tablas.comercios), seleccionado.value.fila.id, DatosDe(form), ahora))
      ensures seleccionado.Some? && falla ==> db.tablas == old(db.tablas)
    {
      if seleccionado.None? {
        return true;
      }
      if falla {
        return false;
      }
      var filas := db.ActualizarComercio(seleccionado.value.fila.id, DatosDe(form), ahora);
      ok := true;
    }

    /** `CambiarEstadoComercio`: writes the negation of the flag the
        received commerce shows, then, once the `UPDATE` has returned,
        changes that flag in memory wherever the commerce is held. */
    method CambiarEstadoComercio(c: Comercio, ahora: int, falla: bool)
      requires Valid()
      modifies this`comercios, this`comerciosFiltrados, this`seleccionado, this`mensaje, db`tablas
      ensures Valid()
      ensures falla ==>
        db.tablas == old(db.tablas) && comercios == old(comercios) && comerciosFiltrados == old(comerciosFiltrados)
        && seleccionado == old(seleccionado) && mensaje == Some(ErrorEstado)
      ensures !falla ==>
        var nuevo := !c.fila.datos.activo;
        && db.tablas == old(db.tablas).(comercios := ActualizarActivo(old(db.tablas.comercios), c.fila.id, nuevo, ahora))
        && comercios == ConEstado(old(comercios), c.fila.id, nuevo)
        && comerciosFiltrados == ConEstado(old(comerciosFiltrados), c.fila.id, nuevo)
        && (old(seleccionado).Some? && old(seleccionado).value.fila.id == c.fila.id ==>
              seleccionado == Some(ConActivo(old(seleccionado).value, nuevo)))
        && (old(seleccionado).None? || old(seleccionado).value.fila.id != c.fila.id ==> seleccionado == old(seleccionado))
        && mensaje == Some(EstadoCambiado(nuevo))
    {
      var nuevo := !c.fila.datos.activo;
      if falla {
        mensaje := Some(ErrorEstado);
        return;
      }
      var filas := db.ActualizarEstadoComercio(c.fila.id, nuevo, ahora);
      comercios := ConEstado(comercios, c.fila.id, nuevo);
      comerciosFiltrados := ConEstado(comerciosFiltrados, c.fila.id, nuevo);
      if seleccionado.Some? && seleccionado.value.fila.id == c.fila.id {
        seleccionado := Some(ConActivo(seleccionado.value, nuevo));
      }
      mensaje := Some(EstadoCambiado(nuevo));
    }

    /** `EliminarComercio`: opens a connection (which throws at
        `FallaConexionEliminar`), deletes the commerce's attachments (that
        call never throws; its own failures are `corte` and `fallas`), then
        the `DELETE` of the row with its cascade (which throws at
        `FallaDelete`), then reloads. */
    method EliminarComercio(c: Comercio, corte: Option<nat>, fallas: seq<FallaBorrado>,
                            falla: FallaEliminar, carga: FallaCarga)
      requires Valid()
      modifies this`comercios, this`comerciosFiltrados, this`paisesDisponibles, this`mensaje
      modifies db`tablas, servicio.disco
      ensures Valid()
      ensures falla == FallaConexionEliminar ==>
        db.tablas == old(db.tablas) && servicio.disco.ficheros == old(servicio.disco.ficheros)
        && comercios == old(comercios) && comerciosFiltrados == old(comerciosFiltrados)
        && paisesDisponibles == old(paisesDisponibles) && mensaje == Some(ErrorEliminar)
      ensures falla != FallaConexionEliminar ==>
        var l := old(Listado(db.tablas, c.fila.id));
        var lote := BorrarDesde(old(db.tablas), old(servicio.disco.ficheros), Ids(l[..Leidas(|l|, corte)]), fallas, 0);
        && servicio.disco.ficheros == lote.disco
        && db.tablas == (if falla == FallaDelete then lote.tablas else Cascada(lote.tablas, c.fila.id))
      ensures falla == FallaDelete ==>
        comercios == old(comercios) && comerciosFiltrados == old(comerciosFiltrados)
        && paisesDisponibles == old(paisesDisponibles) && mensaje == Some(ErrorEliminar)
      ensures falla == EliminarSinFalla ==>
        && !ExisteComercio(db.tablas, c.fila.id)
        && (forall l :: l in db.tablas.locales ==> l.idComercio != c.fila.id)
        && mensaje == Some(ComercioEliminado)
        && Recargadas(db.tablas, carga, old(comercios), old(comerciosFiltrados), old(paisesDisponibles),
                      comercios, comerciosFiltrados, paisesDisponibles)
    {
      if falla == FallaConexionEliminar {
        mensaje := Some(ErrorEliminar);
        return;
      }
      var eliminados := servicio.EliminarArchivosDeComercio(c.fila.id, corte, fallas);
      assert comercios == old(comercios) && comerciosFiltrados == old(comerciosFiltrados)
        && paisesDisponibles == old(paisesDisponibles);
      if falla == FallaDelete {
        mensaje := Some(ErrorEliminar);
        return;
      }
      BorrarYRecargar(c.fila.id, carga);
    }

    /** The commerce `DELETE` (with its cascade) and the reload that follows
        it in `EliminarComercio`. */
    method BorrarYRecargar(id: int, carga: FallaCarga)
      requires Valid()
      modifies this`comercios, this`comerciosFiltrados, this`paisesDisponibles, this`mensaje, db`tablas
      ensures Valid()
      ensures db.tablas == Cascada(old(db.tablas), id)
      ensures !ExisteComercio(db.tablas, id) && (forall l :: l in db.tablas.locales ==> l.idComercio != id)
      ensures mensaje == Some(ComercioEliminado)
      ensures Recargadas(db.tablas, carga, old(comercios), old(comerciosFiltrados), old(paisesDisponibles),
                         comercios, comerciosFiltrados, paisesDisponibles)
    {
      CascadaIntegra(db.tablas, id);
      db.BorrarComercio(id);
      CargarDatosDesdeBaseDatos(carga);
      mensaje := Some(ComercioEliminado);
    }

    /** The branch of `GuardarComercio` that writes: an update in edit mode
        with a selection, a creation otherwise. */
    method Persistir(ahora: int, fallaCreacion: Option<nat>, fallaUpdate: bool) returns (ok: bool)
      requires Valid()
      modifies db
      ensures Valid()
      ensures ok == Escribe(Edicion(seleccionado, modoEdicion), fallaCreacion, fallaUpdate, |localesForm|)
      ensures db.tablas == if ok then Guardado(old(db.tablas), Edicion(seleccionado, modoEdicion), DatosDe(form), ahora,
                                               old(db.siguienteComercio), old(db.siguienteLocal), localesForm)
                           else old(db.tablas)
      ensures SecuenciasTras(Edicion(seleccionado, modoEdicion), fallaCreacion, |localesForm|,
                             old(db.siguienteComercio), old(db.siguienteLocal), db.siguienteComercio, db.siguienteLocal)
      ensures db.siguienteArchivo == old(db.siguienteArchivo)
    {
      if modoEdicion && seleccionado.Some? {
        ok := ActualizarComercio(ahora, fallaUpdate);
      } else {
        ok := CrearNuevoComercio(ahora, fallaCreacion);
      }
    }

    /** `GuardarComercio`: a blank name, then a blank e-mail, stop it with a
        message and nothing else changes. Otherwise it updates the selected
        commerce when in edit mode with a selection and creates one from the
        form in every other case; on success it reloads, closes the panel
        and reports by `modoEdicion` alone, and on an exception it reports
        the error and leaves the panel as it was. */
    method GuardarComercio(ahora: int, fallaCreacion: Option<nat>, fallaUpdate: bool, carga: FallaCarga)
      requires Valid()
      modifies this`comercios, this`comerciosFiltrados, this`paisesDisponibles, this`mensaje
      modifies this`mostrarPanelDerecho, this`mostrarFormulario, this`seleccionado, this`form, this`localesForm
      modifies db
      ensures Valid()
      ensures !FormularioCompleto(old(form)) ==>
        && mensaje == Some(if IsBlank(old(form.nombre)) then NombreObligatorio else EmailObligatorio)
        && db.tablas == old(db.tablas) && comercios == old(comercios) && seleccionado == old(seleccionado)
        && form == old(form) && localesForm == old(localesForm) && mostrarPanelDerecho == old(mostrarPanelDerecho)
        && comerciosFiltrados == old(comerciosFiltrados) && paisesDisponibles == old(paisesDisponibles)
        && mostrarFormulario == old(mostrarFormulario)
        && db.siguienteComercio == old(db.siguienteComercio) && db.siguienteLocal == old(db.siguienteLocal)
      ensures FormularioCompleto(old(form)) ==>
        SecuenciasTras(Edicion(old(seleccionado), modoEdicion), fallaCreacion, |old(localesForm)|,
                       old(db.siguienteComercio), old(db.siguienteLocal), db.siguienteComercio, db.siguienteLocal)
      ensures db.siguienteArchivo == old(db.siguienteArchivo)
      ensures FormularioCompleto(old(form)) ==>
        var edicion := Edicion(old(seleccionado), modoEdicion);
        var ok := Escribe(edicion, fallaCreacion, fallaUpdate, |old(localesForm)|);
        && db.tablas == (if ok then Guardado(old(db.tablas), edicion, DatosDe(old(form)), ahora,
                                             old(db.siguienteComercio), old(db.siguienteLocal), old(localesForm))
                         else old(db.tablas))
        && (!ok ==>
              && mensaje == Some(ErrorGuardar) && comercios == old(comercios)
              && seleccionado == old(seleccionado) && form == old(form) && localesForm == old(localesForm)
              && mostrarPanelDerecho == old(mostrarPanelDerecho) && mostrarFormulario == old(mostrarFormulario)
              && comerciosFiltrados == old(comerciosFiltrados) && paisesDisponibles == old(paisesDisponibles))
        && (ok ==>
              && mensaje == Some(if modoEdicion then ComercioActualizado else ComercioCreado)
              && !mostrarPanelDerecho && !mostrarFormulario && seleccionado.None?
              && form == FormularioVacio && localesForm == []
              && Recargadas(db.tablas, carga, old(comercios), old(comerciosFiltrados), old(paisesDisponibles),
                            comercios, comerciosFiltrados, paisesDisponibles))
    {
      if IsBlank(form.nombre) {
        mensaje := Some(NombreObligatorio);
        return;
      }
      if IsBlank(form.mail) {
        mensaje := Some(EmailObligatorio);
        return;
      }
      GuardarValidado(ahora, fallaCreacion, fallaUpdate, carga);
    }

    /** The part of `GuardarComercio` after both checks pass: the write,
        then the error message, or the reload with the panel closed. */
    method GuardarValidado(ahora: int, fallaCreacion: Option<nat>, fallaUpdate: bool, carga: FallaCarga)
      requires Valid() && FormularioCompleto(form)
      modifies this`comercios, this`comerciosFiltrados, this`paisesDisponibles, this`mensaje
      modifies this`mostrarPanelDerecho, this`mostrarFormulario, this`seleccionado, this`form, this`localesForm
      modifies db
      ensures Valid()
      ensures SecuenciasTras(Edicion(old(seleccionado), modoEdicion), fallaCreacion, |old(localesForm)|,
                             old(db.siguienteComercio), old(db.siguienteLocal), db.siguienteComercio, db.siguienteLocal)
      ensures db.siguienteArchivo == old(db.siguienteArchivo)
      ensures var edicion := Edicion(old(seleccionado), modoEdicion);
        var ok := Escribe(edicion, fallaCreacion, fallaUpdate, |old(localesForm)|);
        && db.tablas == (if ok then Guardado(old(db.tablas), edicion, DatosDe(old(form)), ahora,
                                             old(db.siguienteComercio), old(db.siguienteLocal), old(localesForm))
                         else old(db.tablas))
        && (!ok ==>
              && mensaje == Some(ErrorGuardar) && comercios == old(comercios)
              && seleccionado == old(seleccionado) && form == old(form) && localesForm == old(localesForm)
              && mostrarPanelDerecho == old(mostrarPanelDerecho) && mostrarFormulario == old(mostrarFormulario)
              && comerciosFiltrados == old(comerciosFiltrados) && paisesDisponibles == old(paisesDisponibles))
        && (ok ==>
              && mensaje == Some(if modoEdicion then ComercioActualizado else ComercioCreado)
              && !mostrarPanelDerecho && !mostrarFormulario && seleccionado.None?
              && form == FormularioVacio && localesForm == []
              && Recargadas(db.tablas, carga, old(comercios), old(comerciosFiltrados), old(paisesDisponibles),
                            comercios, comerciosFiltrados, paisesDisponibles))
    {
      var ok := Persistir(ahora, fallaCreacion, fallaUpdate);
      assert comercios == old(comercios) && comerciosFiltrados == old(comerciosFiltrados)
        && paisesDisponibles == old(paisesDisponibles) && seleccionado == old(seleccionado)
        && form == old(form) && localesForm == old(localesForm);
      TrasEscribir(ok, carga);
    }

    /** The end of `GuardarComercio` once the write has run: the error
        message after an exception, otherwise `RecargarYCerrar`. */
    method TrasEscribir(ok: bool, carga: FallaCarga)
      modifies this`comercios, this`comerciosFiltrados, this`paisesDisponibles, this`mensaje
      modifies this`mostrarPanelDerecho, this`mostrarFormulario, this`seleccionado, this`form, this`localesForm
      ensures !ok ==>
        && mensaje == Some(ErrorGuardar) && comercios == old(comercios)
        && seleccionado == old(seleccionado) && form == old(form) && localesForm == old(localesForm)
        && mostrarPanelDerecho == old(mostrarPanelDerecho) && mostrarFormulario == old(mostrarFormulario)
        && comerciosFiltrados == old(comerciosFiltrados) && paisesDisponibles == old(paisesDisponibles)
      ensures ok ==>
        && mensaje == Some(if modoEdicion then ComercioActualizado else ComercioCreado)
        && !mostrarPanelDerecho && !mostrarFormulario && seleccionado.None?
        && form == FormularioVacio && localesForm == []
        && Recargadas(db.tablas, carga, old(comercios), old(comerciosFiltrados), old(paisesDisponibles),
                      comercios, comerciosFiltrados, paisesDisponibles)
    {
      if !ok {
        mensaje := Some(ErrorGuardar);
        return;
      }
      RecargarYCerrar(carga);
    }

    /** What `GuardarComercio` does after a committed write: the reload,
        the closing of the panel and the message, chosen by `modoEdicion`. */
    method RecargarYCerrar(carga: FallaCarga)
      modifies this`comercios, this`comerciosFiltrados, this`paisesDisponibles, this`mensaje
      modifies this`mostrarPanelDerecho, this`mostrarFormulario, this`seleccionado, this`form, this`localesForm
      ensures mensaje == Some(if modoEdicion then ComercioActualizado else ComercioCreado)
      ensures !mostrarPanelDerecho && !mostrarFormulario && seleccionado.None?
      ensures form == FormularioVacio && localesForm == []
      ensures Recargadas(db.tablas, carga, old(comercios), old(comerciosFiltrados), old(paisesDisponibles),
                         comercios, comerciosFiltrados, paisesDisponibles)
    {
      CargarDatosDesdeBaseDatos(carga);
      CerrarPanelDerecho();
      mensaje := Some(if modoEdicion then ComercioActualizado else ComercioCreado);
    }
  }
}
