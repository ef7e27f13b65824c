/** The relational tables and the file folder the view-models and the
    attachment service work on, held in memory. Each SQL statement or file
    call of the source is one method here. */
module Almacen {
  import opened Wrappers
  import opened Sorting
  import opened ArchivoModel

  /** The columns of `comercios` that the form writes. */
  datatype DatosComercio = DatosComercio(
    nombre: string,
    srl: string,
    direccion: string,
    telefono: string,
    mail: string,
    pais: string,
    observaciones: Option<string>,
    comision: real,
    activo: bool)

  /** A row of `comercios`; the two timestamps are set by the server. */
  datatype ComercioFila = ComercioFila(
    id: int,
    datos: DatosComercio,
    fechaRegistro: int,
    fechaModificacion: int)

  /** The columns of `locales` other than its key and owner. */
  datatype DatosLocal = DatosLocal(
    codigo: string,
    nombre: string,
    direccion: string,
    numero: string,
    escalera: Option<string>,
    piso: Option<string>,
    telefono: Option<string>,
    email: Option<string>,
    observaciones: Option<string>,
    maxUsuarios: int,
    activo: bool,
    moduloDivisas: bool,
    moduloPackAlimentos: bool,
    moduloBilletesAvion: bool,
    moduloPackViajes: bool)

  datatype LocalFila = LocalFila(id: int, idComercio: int, datos: DatosLocal)

  /** The columns of `usuarios` the user count reads. */
  datatype UsuarioFila = UsuarioFila(id: int, activo: bool)

  /** A row of `permisos_locales_usuarios`. */
  datatype Permiso = Permiso(idUsuario: int, idLocal: int)

  /** The contents of all tables at one moment. */
  datatype Tablas = Tablas(
    comercios: seq<ComercioFila>,
    locales: seq<LocalFila>,
    usuarios: seq<UsuarioFila>,
    permisos: seq<Permiso>,
    archivos: seq<Archivo>)

  predicate ExisteComercio(t: Tablas, id: int)
  {
    exists i :: 0 <= i < |t.comercios| && t.comercios[i].id == id
  }

  predicate ExisteLocal(t: Tablas, id: int)
  {
    exists i :: 0 <= i < |t.locales| && t.locales[i].id == id
  }

  predicate ExisteUsuario(t: Tablas, id: int)
  {
    exists i :: 0 <= i < |t.usuarios| && t.usuarios[i].id == id
  }

  /** Primary keys are unique and the foreign keys of `locales` and of the
      permissions hold. */
  ghost predicate Integra(t: Tablas)
  {
    && (forall i, j :: 0 <= i < j < |t.comercios| ==> t.comercios[i].id != t.comercios[j].id)
    && (forall i, j :: 0 <= i < j < |t.locales| ==> t.locales[i].id != t.locales[j].id)
    && (forall i, j :: 0 <= i < j < |t.usuarios| ==> t.usuarios[i].id != t.usuarios[j].id)
    && (forall i, j :: 0 <= i < j < |t.archivos| ==> t.archivos[i].idArchivo != t.archivos[j].idArchivo)
    && (forall i :: 0 <= i < |t.locales| ==> ExisteComercio(t, t.locales[i].idComercio))
    && (forall i :: 0 <= i < |t.permisos| ==>
          ExisteLocal(t, t.permisos[i].idLocal) && ExisteUsuario(t, t.permisos[i].idUsuario))
  }

  // ---------------------------------------------------------------------
  // Queries

  predicate NombreComercioLe(a: ComercioFila, b: ComercioFila)
  {
    StrLe(a.datos.nombre, b.datos.nombre)
  }

  predicate NombreLocalLe(a: LocalFila, b: LocalFila)
  {
    StrLe(a.datos.nombre, b.datos.nombre)
  }

  lemma OrdenesPorNombre()
    ensures TotalPreorder(NombreComercioLe)
    ensures TotalPreorder(NombreLocalLe)
  {
    forall a: ComercioFila, b: ComercioFila
      ensures NombreComercioLe(a, b) || NombreComercioLe(b, a)
    {
      StrLeTotal(a.datos.nombre, b.datos.nombre);
    }
    forall a: ComercioFila, b: ComercioFila, c: ComercioFila | NombreComercioLe(a, b) && NombreComercioLe(b, c)
      ensures NombreComercioLe(a, c)
    {
      StrLeTransitive(a.datos.nombre, b.datos.nombre, c.datos.nombre);
    }
    forall a: LocalFila, b: LocalFila
      ensures NombreLocalLe(a, b) || NombreLocalLe(b, a)
    {
      StrLeTotal(a.datos.nombre, b.datos.nombre);
    }
    forall a: LocalFila, b: LocalFila, c: LocalFila | NombreLocalLe(a, b) && NombreLocalLe(b, c)
      ensures NombreLocalLe(a, c)
    {
      StrLeTransitive(a.datos.nombre, b.datos.nombre, c.datos.nombre);
    }
  }

  /** `SELECT … FROM comercios ORDER BY nombre_comercio`. */
  function ComerciosPorNombre(t: Tablas): seq<ComercioFila>
  {
    SortBy(t.comercios, NombreComercioLe)
  }

  /** `WHERE id_comercio = @IdComercio` on `locales`. */
  function DeComercio(idComercio: int): LocalFila -> bool
  {
    (l: LocalFila) => l.idComercio == idComercio
  }

  /** `SELECT … FROM locales WHERE id_comercio = @IdComercio ORDER BY nombre_local`. */
  function LocalesDe(t: Tablas, idComercio: int): seq<LocalFila>
  {
    SortBy(Filter(t.locales, DeComercio(idComercio)), NombreLocalLe)
  }

  lemma LocalesDeCorrecto(t: Tablas, idComercio: int)
    ensures Sorted(LocalesDe(t, idComercio), NombreLocalLe)
    ensures forall l :: l in LocalesDe(t, idComercio) <==> l in t.locales && l.idComercio == idComercio
  {
    OrdenesPorNombre();
    var p := DeComercio(idComercio);
    SortByCorrect(Filter(t.locales, p), NombreLocalLe);
    SortByMembers(Filter(t.locales, p), NombreLocalLe);
  }

  /** Number of rows of `s` with id `id` that are active. */
  function UsuariosActivosCon(s: seq<UsuarioFila>, id: int): nat
  {
    if s == [] then 0 else (if s[0].id == id && s[0].activo then 1 else 0) + UsuariosActivosCon(s[1..], id)
  }

  /** Number of rows of `s` with id `id` that belong to commerce `idComercio`. */
  function LocalesDelComercioCon(s: seq<LocalFila>, id: int, idComercio: int): nat
  {
    if s == [] then 0
    else (if s[0].id == id && s[0].idComercio == idComercio then 1 else 0) + LocalesDelComercioCon(s[1..], id, idComercio)
  }

  /** `SELECT COUNT(*) FROM usuarios u JOIN permisos_locales_usuarios plu
      ON u.id_usuario = plu.id_usuario JOIN locales l ON plu.id_local =
      l.id_local WHERE l.id_comercio = @IdComercio AND u.activo`: every
      permission row contributes the number of (user, locale) rows it joins
      with. */
  function ContarJoin(t: Tablas, permisos: seq<Permiso>, idComercio: int): nat
  {
    if permisos == [] then 0
    else
      UsuariosActivosCon(t.usuarios, permisos[0].idUsuario)
        * LocalesDelComercioCon(t.locales, permisos[0].idLocal, idComercio)
      + ContarJoin(t, permisos[1..], idComercio)
  }

  function ContarUsuariosDelComercio(t: Tablas, idComercio: int): nat
  {
    ContarJoin(t, t.permisos, idComercio)
  }

  predicate UsuarioActivo(t: Tablas, id: int)
  {
    exists i :: 0 <= i < |t.usuarios| && t.usuarios[i].id == id && t.usuarios[i].activo
  }

  predicate LocalDelComercio(t: Tablas, id: int, idComercio: int)
  {
    exists i :: 0 <= i < |t.locales| && t.locales[i].id == id && t.locales[i].idComercio == idComercio
  }

  /** Under a unique key the user rows matching an id number at most one. */
  lemma {:induction false} UsuariosActivosConUnico(s: seq<UsuarioFila>, id: int)
    requires forall i, j :: 0 <= i < j < |s| ==> s[i].id != s[j].id
    ensures UsuariosActivosCon(s, id)
      == if exists i :: 0 <= i < |s| && s[i].id == id && s[i].activo then 1 else 0
  {
    if s != [] {
      var r := s[1..];
      UsuariosActivosConUnico(r, id);
      assert forall i :: 0 <= i < |r| ==> r[i] == s[i + 1];
      if exists i :: 0 <= i < |s| && s[i].id == id && s[i].activo {
        var i :| 0 <= i < |s| && s[i].id == id && s[i].activo;
        if i > 0 {
          assert r[i - 1].id == id && r[i - 1].activo;
        }
      }
    }
  }

  lemma {:induction false} LocalesDelComercioConUnico(s: seq<LocalFila>, id: int, idComercio: int)
    requires forall i, j :: 0 <= i < j < |s| ==> s[i].id != s[j].id
    ensures LocalesDelComercioCon(s, id, idComercio)
      == if exists i :: 0 <= i < |s| && s[i].id == id && s[i].idComercio == idComercio then 1 else 0
  {
    if s != [] {
      var r := s[1..];
      LocalesDelComercioConUnico(r, id, idComercio);
      assert forall i :: 0 <= i < |r| ==> r[i] == s[i + 1];
      if exists i :: 0 <= i < |s| && s[i].id == id && s[i].idComercio == idComercio {
        var i :| 0 <= i < |s| && s[i].id == id && s[i].idComercio == idComercio;
        if i > 0 {
          assert r[i - 1].id == id && r[i - 1].idComercio == idComercio;
        }
      }
    }
  }

  /** The permission rows the join keeps: the user is active and the
      locale belongs to the commerce. */
  function PermisosQueCuentan(t: Tablas, permisos: seq<Permiso>, idComercio: int): nat
  {
    if permisos == [] then 0
    else
      (if UsuarioActivo(t, permisos[0].idUsuario) && LocalDelComercio(t, permisos[0].idLocal, idComercio) then 1 else 0)
      + PermisosQueCuentan(t, permisos[1..], idComercio)
  }

  /** Under unique keys the join count is the number of permission rows
      whose user is active and whose locale belongs to the commerce: it
      counts rows, not distinct users. */
  lemma {:induction false} ContarJoinCuentaPermisos(t: Tablas, permisos: seq<Permiso>, idComercio: int)
    requires Integra(t)
    ensures ContarJoin(t, permisos, idComercio) == PermisosQueCuentan(t, permisos, idComercio)
  {
    if permisos != [] {
      UsuariosActivosConUnico(t.usuarios, permisos[0].idUsuario);
      LocalesDelComercioConUnico(t.locales, permisos[0].idLocal, idComercio);
      ContarJoinCuentaPermisos(t, permisos[1..], idComercio);
    }
  }

  /** One active user with permissions on two locales of the same commerce
      is counted twice. */
  lemma UnUsuarioContadoDosVeces()
    ensures var d := DatosLocal("", "", "", "", None, None, None, None, None, 0, true, false, false, false, false);
      var t := Tablas(
        [ComercioFila(1, DatosComercio("", "", "", "", "", "", None, 0.0, true), 0, 0)],
        [LocalFila(10, 1, d), LocalFila(11, 1, d)],
        [UsuarioFila(7, true)],
        [Permiso(7, 10), Permiso(7, 11)],
        []);
      Integra(t) && ContarUsuariosDelComercio(t, 1) == 2
  {
    var d := DatosLocal("", "", "", "", None, None, None, None, None, 0, true, false, false, false, false);
    var t := Tablas(
        [ComercioFila(1, DatosComercio("", "", "", "", "", "", None, 0.0, true), 0, 0)],
        [LocalFila(10, 1, d), LocalFila(11, 1, d)],
        [UsuarioFila(7, true)],
        [Permiso(7, 10), Permiso(7, 11)],
        []);
    assert ExisteComercio(t, t.locales[0].idComercio) && ExisteComercio(t, t.locales[1].idComercio) by {
      assert t.comercios[0].id == 1;
    }
    assert ExisteLocal(t, 10) && ExisteLocal(t, 11) && ExisteUsuario(t, 7) by {
      assert t.locales[0].id == 10 && t.locales[1].id == 11 && t.usuarios[0].id == 7;
    }
  }

  // ---------------------------------------------------------------------
  // The database

  /** The PostgreSQL database: the tables and the next value of each
      `serial` key. Sequences are not transactional, so a rolled-back
      insert still consumes its key. */
  class BaseDatos {
    var tablas: Tablas
    var siguienteComercio: int
    var siguienteLocal: int
    var siguienteArchivo: int

    ghost predicate Valid()
      reads this
    {
      && Integra(tablas)
      && (forall i :: 0 <= i < |tablas.comercios| ==> tablas.comercios[i].id < siguienteComercio)
      && (forall i :: 0 <= i < |tablas.locales| ==> tablas.locales[i].id < siguienteLocal)
      && (forall i :: 0 <= i < |tablas.archivos| ==> tablas.archivos[i].idArchivo < siguienteArchivo)
    }

    constructor (t: Tablas, sigComercio: int, sigLocal: int, sigArchivo: int)
      requires Integra(t)
      requires forall i :: 0 <= i < |t.comercios| ==> t.comercios[i].id < sigComercio
      requires forall i :: 0 <= i < |t.locales| ==> t.locales[i].id < sigLocal
      requires forall i :: 0 <= i < |t.archivos| ==> t.archivos[i].idArchivo < sigArchivo
      ensures Valid()
      ensures tablas == t && siguienteComercio == sigComercio
      ensures siguienteLocal == sigLocal && siguienteArchivo == sigArchivo
    {
      tablas := t;
      siguienteComercio := sigComercio;
      siguienteLocal := sigLocal;
      siguienteArchivo := sigArchivo;
    }

    /** `INSERT INTO comercios … RETURNING id_comercio`; both timestamps
        take the server's current time `ahora`. */
    method InsertarComercio(d: DatosComercio, ahora: int) returns (id: int)
      requires Valid()
      modifies this
      ensures Valid()
      ensures id == old(siguienteComercio) && !ExisteComercio(old(tablas), id)
      ensures tablas == old(tablas).(comercios := old(tablas.comercios) + [ComercioFila(id, d, ahora, ahora)])
      ensures siguienteComercio == id + 1
      ensures siguienteLocal == old(siguienteLocal) && siguienteArchivo == old(siguienteArchivo)
    {
      id := siguienteComercio;
      var nueva := tablas.(comercios := tablas.comercios + [ComercioFila(id, d, ahora, ahora)]);
      assert forall i :: 0 <= i < |tablas.locales| ==> ExisteComercio(nueva, tablas.locales[i].idComercio) by {
        forall i | 0 <= i < |tablas.locales|
          ensures ExisteComercio(nueva, tablas.locales[i].idComercio)
        {
          var k :| 0 <= k < |tablas.comercios| && tablas.comercios[k].id == tablas.locales[i].idComercio;
          assert nueva.comercios[k] == tablas.comercios[k];
        }
      }
      assert forall i :: 0 <= i < |tablas.permisos| ==>
        ExisteLocal(nueva, tablas.permisos[i].idLocal) && ExisteUsuario(nueva, tablas.permisos[i].idUsuario);
      tablas := nueva;
      siguienteComercio := siguienteComercio + 1;
    }

    /** `INSERT INTO locales …`: fails on the foreign key when no commerce
        has id `idComercio`, leaving the tables as they were. */
    method InsertarLocal(idComercio: int, d: DatosLocal) returns (r: Result<int, ()>)
      requires Valid()
      modifies this
      ensures Valid()
      ensures r.Success? <==> ExisteComercio(old(tablas), idComercio)
      ensures r.Success? ==> r.value == old(siguienteLocal) && !ExisteLocal(old(tablas), r.value)
      ensures r.Success? ==> tablas == old(tablas).(locales := old(tablas.locales) + [LocalFila(r.value, idComercio, d)])
      ensures r.Failure? ==> tablas == old(tablas)
      ensures siguienteLocal == old(siguienteLocal) + 1
      ensures siguienteComercio == old(siguienteComercio) && siguienteArchivo == old(siguienteArchivo)
    {
      var id := siguienteLocal;
      siguienteLocal := siguienteLocal + 1;
      if !ExisteComercio(tablas, idComercio) {
        return Failure(());
      }
      AgregarLocalIntegra(tablas, LocalFila(id, idComercio, d), id);
      var nueva := tablas.(locales := tablas.locales + [LocalFila(id, idComercio, d)]);
      tablas := nueva;
      r := Success(id);
    }

    /** `ROLLBACK`: the tables return to the snapshot taken at `BEGIN`;
        the key sequences keep their values. */
    method Restaurar(t: Tablas)
      requires Valid() && Integra(t)
      requires forall i :: 0 <= i < |t.comercios| ==> t.comercios[i].id < siguienteComercio
      requires forall i :: 0 <= i < |t.locales| ==> t.locales[i].id < siguienteLocal
      requires forall i :: 0 <= i < |t.archivos| ==> t.archivos[i].idArchivo < siguienteArchivo
      modifies this`tablas
      ensures Valid() && tablas == t
    {
      tablas := t;
    }

    /** `UPDATE comercios SET <every form column>, fecha_ultima_modificacion
        = CURRENT_TIMESTAMP WHERE id_comercio = @Id`; returns the number of
        rows changed. */
    method ActualizarComercio(id: int, d: DatosComercio, ahora: int) returns (filas: nat)
      requires Valid()
      modifies this`tablas
      ensures Valid()
      ensures tablas == old(tablas).(comercios := ActualizarDatos(old(tablas.comercios), id, d, ahora))
      ensures filas == FilasComercio(old(tablas.comercios), id)
    {
      var nueva := tablas.(comercios := ActualizarDatos(tablas.comercios, id, d, ahora));
      MismasClavesComercio(tablas, nueva.comercios);
      filas := FilasComercio(tablas.comercios, id);
      tablas := nueva;
    }

    /** `UPDATE comercios SET activo = @Estado, fecha_ultima_modificacion =
        CURRENT_TIMESTAMP WHERE id_comercio = @Id`. */
    method ActualizarEstadoComercio(id: int, activo: bool, ahora: int) returns (filas: nat)
      requires Valid()
      modifies this`tablas
      ensures Valid()
      ensures tablas == old(tablas).(comercios := ActualizarActivo(old(tablas.comercios), id, activo, ahora))
      ensures filas == FilasComercio(old(tablas.comercios), id)
    {
      var nueva := tablas.(comercios := ActualizarActivo(tablas.comercios, id, activo, ahora));
      MismasClavesComercio(tablas, nueva.comercios);
      filas := FilasComercio(tablas.comercios, id);
      tablas := nueva;
    }

    /** `DELETE FROM comercios WHERE id_comercio = @Id`, with the schema's
        cascade removing the commerce's locales and the permissions on
        them. Attachment rows are not cascaded. */
    method BorrarComercio(id: int)
      requires Valid()
      modifies this`tablas
      ensures Valid()
      ensures tablas == Cascada(old(tablas), id)
    {
      CascadaIntegra(tablas, id);
      tablas := Cascada(tablas, id);
    }

    /** `INSERT INTO archivos_comercios … RETURNING id_archivo`; the new
        row is active and stamped with the server time `ahora`. */
    method InsertarArchivo(a: Archivo, ahora: int) returns (id: int)
      requires Valid()
      modifies this
      ensures Valid()
      ensures id == old(siguienteArchivo)
      ensures tablas == old(tablas).(archivos := old(tablas.archivos) + [a.(idArchivo := id, fechaSubida := ahora, activo := true)])
      ensures siguienteArchivo == id + 1
      ensures siguienteComercio == old(siguienteComercio) && siguienteLocal == old(siguienteLocal)
    {
      id := siguienteArchivo;
      var nueva := tablas.(archivos := tablas.archivos + [a.(idArchivo := id, fechaSubida := ahora, activo := true)]);
      assert forall i :: 0 <= i < |tablas.locales| ==> ExisteComercio(nueva, tablas.locales[i].idComercio);
      assert forall i :: 0 <= i < |tablas.permisos| ==>
        ExisteLocal(nueva, tablas.permisos[i].idLocal) && ExisteUsuario(nueva, tablas.permisos[i].idUsuario);
      tablas := nueva;
      siguienteArchivo := siguienteArchivo + 1;
    }

    /** `UPDATE archivos_comercios SET activo = false WHERE id_archivo =
        @Id`: no filter on `activo`, so an already inactive row counts. */
    method DesactivarArchivo(id: int) returns (filas: nat)
      requires Valid()
      modifies this`tablas
      ensures Valid()
      ensures tablas == old(tablas).(archivos := Desactivar(old(tablas.archivos), id))
      ensures filas == FilasArchivo(old(tablas.archivos), id)
    {
      DesactivarValido(tablas, id, siguienteArchivo);
      var nueva := tablas.(archivos := Desactivar(tablas.archivos, id));
      filas := FilasArchivo(tablas.archivos, id);
      tablas := nueva;
    }
  }

  /** A locale row with a fresh key and an existing owner keeps the tables
      consistent: permissions still reach their locales. */
  lemma AgregarLocalIntegra(t: Tablas, fila: LocalFila, siguiente: int)
    requires Integra(t) && ExisteComercio(t, fila.idComercio)
    requires forall i :: 0 <= i < |t.locales| ==> t.locales[i].id < siguiente
    requires fila.id == siguiente
    ensures var u := t.(locales := t.locales + [fila]);
      Integra(u) && forall i :: 0 <= i < |u.locales| ==> u.locales[i].id < siguiente + 1
  {
    var u := t.(locales := t.locales + [fila]);
    forall i | 0 <= i < |t.permisos|
      ensures ExisteLocal(u, t.permisos[i].idLocal)
    {
      var k :| 0 <= k < |t.locales| && t.locales[k].id == t.permisos[i].idLocal;
      assert u.locales[k] == t.locales[k];
    }
    assert forall i :: 0 <= i < |t.locales| ==> u.locales[i] == t.locales[i];
  }

  /** Soft deletion keeps every key, so the tables stay consistent and
      every attachment key stays below the next one to be issued. */
  lemma DesactivarValido(t: Tablas, id: int, siguiente: int)
    requires Integra(t) && forall i :: 0 <= i < |t.archivos| ==> t.archivos[i].idArchivo < siguiente
    ensures var u := t.(archivos := Desactivar(t.archivos, id));
      Integra(u) && forall i :: 0 <= i < |u.archivos| ==> u.archivos[i].idArchivo < siguiente
  {
    var u := t.(archivos := Desactivar(t.archivos, id));
    assert forall i :: 0 <= i < |t.archivos| ==> u.archivos[i].idArchivo == t.archivos[i].idArchivo;
  }

  // ---------------------------------------------------------------------
  // Row updates

  /** The number of rows an `UPDATE … WHERE id_comercio = @Id` reaches. */
  function FilasComercio(s: seq<ComercioFila>, id: int): (n: nat)
    ensures n > 0 <==> exists i :: 0 <= i < |s| && s[i].id == id
  {
    if s == [] then 0
    else
      assert forall i :: 0 < i < |s| ==> s[i] == s[1..][i - 1];
      (if s[0].id == id then 1 else 0) + FilasComercio(s[1..], id)
  }

  /** The number of rows an `UPDATE … WHERE id_archivo = @Id` reaches. */
  function FilasArchivo(s: seq<Archivo>, id: int): (n: nat)
    ensures n > 0 <==> exists i :: 0 <= i < |s| && s[i].idArchivo == id
  {
    if s == [] then 0
    else
      assert forall i :: 0 < i < |s| ==> s[i] == s[1..][i - 1];
      (if s[0].idArchivo == id then 1 else 0) + FilasArchivo(s[1..], id)
  }

  /** The rows with id `id` take the form columns and the stamp `ahora`;
      the other rows are kept. */
  function ActualizarDatos(s: seq<ComercioFila>, id: int, d: DatosComercio, ahora: int): (r: seq<ComercioFila>)
    ensures |r| == |s|
    ensures forall i :: 0 <= i < |s| ==>
      r[i] == (if s[i].id == id then s[i].(datos := d, fechaModificacion := ahora) else s[i])
  {
    if s == [] then []
    else
      [if s[0].id == id then s[0].(datos := d, fechaModificacion := ahora) else s[0]]
      + ActualizarDatos(s[1..], id, d, ahora)
  }

  /** Rewriting commerce rows without changing their keys keeps the
      tables consistent. */
  lemma MismasClavesComercio(t: Tablas, c: seq<ComercioFila>)
    requires Integra(t)
    requires |c| == |t.comercios| && forall i :: 0 <= i < |c| ==> c[i].id == t.comercios[i].id
    ensures Integra(t.(comercios := c))
  {
    var n := t.(comercios := c);
    forall i | 0 <= i < |t.locales|
      ensures ExisteComercio(n, t.locales[i].idComercio)
    {
      var k :| 0 <= k < |t.comercios| && t.comercios[k].id == t.locales[i].idComercio;
      assert n.comercios[k].id == t.comercios[k].id;
    }
    assert forall i :: 0 <= i < |t.permisos| ==> ExisteLocal(n, t.permisos[i].idLocal) && ExisteUsuario(n, t.permisos[i].idUsuario);
  }

  function ActualizarActivo(s: seq<ComercioFila>, id: int, activo: bool, ahora: int): (r: seq<ComercioFila>)
    ensures |r| == |s|
    ensures forall i :: 0 <= i < |s| ==>
      r[i] == (if s[i].id == id then s[i].(datos := s[i].datos.(activo := activo), fechaModificacion := ahora) else s[i])
  {
    if s == [] then []
    else
      [if s[0].id == id then s[0].(datos := s[0].datos.(activo := activo), fechaModificacion := ahora) else s[0]]
      + ActualizarActivo(s[1..], id, activo, ahora)
  }

  function Desactivar(s: seq<Archivo>, id: int): (r: seq<Archivo>)
    ensures |r| == |s|
    ensures forall i :: 0 <= i < |s| ==> r[i] == if s[i].idArchivo == id then s[i].(activo := false) else s[i]
  {
    if s == [] then []
    else [if s[0].idArchivo == id then s[0].(activo := false) else s[0]] + Desactivar(s[1..], id)
  }

  /** The tables after deleting commerce `id` with the foreign-key cascade. */
  function Cascada(t: Tablas, id: int): (r: Tablas)
  {
    var locales := Filter(t.locales, (l: LocalFila) => l.idComercio == id);
    t.(comercios := Filter(t.comercios, (c: ComercioFila) => c.id != id),
       locales := Filter(t.locales, (l: LocalFila) => l.idComercio != id),
       permisos := Filter(t.permisos, (p: Permiso) => !exists i :: 0 <= i < |locales| && locales[i].id == p.idLocal))
  }

  /** The cascade leaves no trace of the commerce, keeps every other row
      and keeps the keys unique. */
  lemma CascadaIntegra(t: Tablas, id: int)
    requires Integra(t)
    ensures Integra(Cascada(t, id))
    ensures !ExisteComercio(Cascada(t, id), id)
    ensures forall l :: l in Cascada(t, id).locales ==> l.idComercio != id
    ensures forall c :: c in t.comercios && c.id != id ==> c in Cascada(t, id).comercios
    ensures forall l :: l in t.locales && l.idComercio != id ==> l in Cascada(t, id).locales
    ensures Cascada(t, id).archivos == t.archivos && Cascada(t, id).usuarios == t.usuarios
  {
    var r := Cascada(t, id);
    FilterKeepsDistinct(t.comercios, (c: ComercioFila) => c.id != id, (c: ComercioFila) => c.id);
    FilterKeepsDistinct(t.locales, (l: LocalFila) => l.idComercio != id, (l: LocalFila) => l.id);
    CascadaLocales(t, id);
    CascadaPermisos(t, id);
    assert forall i :: 0 <= i < |r.comercios| ==> r.comercios[i] in r.comercios;
  }

  lemma CascadaLocales(t: Tablas, id: int)
    requires Integra(t)
    ensures forall i :: 0 <= i < |Cascada(t, id).locales| ==>
      ExisteComercio(Cascada(t, id), Cascada(t, id).locales[i].idComercio)
  {
    var r := Cascada(t, id);
    forall i | 0 <= i < |r.locales|
      ensures ExisteComercio(r, r.locales[i].idComercio)
    {
      var l := r.locales[i];
      assert l in t.locales && l.idComercio != id;
      var k :| 0 <= k < |t.locales| && t.locales[k] == l;
      var m :| 0 <= m < |t.comercios| && t.comercios[m].id == l.idComercio;
      assert t.comercios[m] in r.comercios;
    }
  }

  lemma CascadaPermisos(t: Tablas, id: int)
    requires Integra(t)
    ensures forall i :: 0 <= i < |Cascada(t, id).permisos| ==>
      ExisteLocal(Cascada(t, id), Cascada(t, id).permisos[i].idLocal)
      && ExisteUsuario(Cascada(t, id), Cascada(t, id).permisos[i].idUsuario)
  {
    var r := Cascada(t, id);
    forall i | 0 <= i < |r.permisos|
      ensures ExisteLocal(r, r.permisos[i].idLocal) && ExisteUsuario(r, r.permisos[i].idUsuario)
    {
      PermisoSobrevive(t, id, r.permisos[i]);
    }
  }

  /** A permission the cascade keeps still points at a locale and a user
      that exist. */
  lemma PermisoSobrevive(t: Tablas, id: int, p: Permiso)
    requires Integra(t) && p in Cascada(t, id).permisos
    ensures ExisteLocal(Cascada(t, id), p.idLocal) && ExisteUsuario(Cascada(t, id), p.idUsuario)
  {
    var r := Cascada(t, id);
    var borrados := Filter(t.locales, (l: LocalFila) => l.idComercio == id);
    assert p in t.permisos && !exists j :: 0 <= j < |borrados| && borrados[j].id == p.idLocal;
    var k :| 0 <= k < |t.permisos| && t.permisos[k] == p;
    var m :| 0 <= m < |t.locales| && t.locales[m].id == p.idLocal;
    var l := t.locales[m];
    NoEstaPorClave(borrados, l);
    assert l in r.locales;
    var j :| 0 <= j < |r.locales| && r.locales[j] == l;
  }

  /** A locale whose key no row of `s` has is not in `s`. */
  lemma NoEstaPorClave(s: seq<LocalFila>, l: LocalFila)
    requires !exists j :: 0 <= j < |s| && s[j].id == l.id
    ensures l !in s
  {
  }

  // ---------------------------------------------------------------------
  // The file folder

  /** The file system as seen by the attachment service: each existing
      path with the length of its contents in bytes. Directories are not
      modelled. */
  class Carpeta {
    var ficheros: map<string, nat>

    constructor (m: map<string, nat>)
      ensures ficheros == m
    {
      ficheros := m;
    }

    /** `File.Copy(origen, destino, overwrite: true)`. */
    method Copiar(origen: string, destino: string)
      requires origen in ficheros
      modifies this
      ensures ficheros == old(ficheros)[destino := old(ficheros)[origen]]
    {
      ficheros := ficheros[destino := ficheros[origen]];
    }

    /** `File.Delete(ruta)`. */
    method Borrar(ruta: string)
      modifies this
      ensures ficheros == old(ficheros) - {ruta}
    {
      ficheros := ficheros - {ruta};
    }
  }
}
