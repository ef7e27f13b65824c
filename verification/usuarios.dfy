/** The user administration screen (`ManageUsersViewModel`): the user list
    and its statistics, the user form with its validation, and the
    assignment of locales to the user being edited. */
module AdminUsuarios {
  import opened Wrappers
  import opened Text
  import opened Sorting
  import AdminComercios

  /** `UserModel`, restricted to the fields this screen reads or writes. */
  datatype Usuario = Usuario(
    idUsuario: int,
    numeroUsuario: string,
    nombre: string,
    apellidos: string,
    correo: string,
    telefono: Option<string>,
    observaciones: Option<string>,
    esFlotante: bool,
    activo: bool)

  /** A locale as the search lists it (`LocalFormModel`). */
  type Local = AdminComercios.LocalForm

  /** The texts the screen flashes; the user-specific ones carry the user
      whose full name they show. */
  datatype Mensaje =
    | CamposObligatorios
    | PasswordObligatoria
    | SinLocales
    | UsuarioActualizado
    | UsuarioCreado
    | Activado(usuario: Usuario)
    | Desactivado(usuario: Usuario)
    | Eliminado(usuario: Usuario)

  function EstaActivo(u: Usuario): bool { u.activo }

  function EsFlotante(u: Usuario): bool { u.esFlotante }

  // ---------------------------------------------------------------------
  // Statistics

  /** The three counters the screen shows. */
  datatype Resumen = Resumen(total: int, activos: int, flotantes: int)

  /** `ActualizarEstadisticas`: the size of the list and how many of its
      users are active and floating. */
  function ResumenDe(us: seq<Usuario>): (r: Resumen)
    ensures r.total == |us|
    ensures 0 <= r.activos <= r.total && 0 <= r.flotantes <= r.total
  {
    CountWhereAtMost(us, EstaActivo);
    CountWhereAtMost(us, EsFlotante);
    Resumen(|us|, CountWhere(us, EstaActivo), CountWhere(us, EsFlotante))
  }

  // ---------------------------------------------------------------------
  // Removal by equality and in-place change

  /** The first position of `x` in `s`. */
  function Posicion<T(==)>(s: seq<T>, x: T): (k: nat)
    requires x in s
    ensures k < |s| && s[k] == x && x !in s[..k]
  {
    if s[0] == x then 0
    else
      var k := 1 + Posicion(s[1..], x);
      assert s[..k] == [s[0]] + s[1..][..k - 1];
      k
  }

  /** `Collection<T>.Remove`: the first occurrence of `x` is dropped, and
      nothing else; without one the list stays as it is. */
  function Quitar<T(==)>(s: seq<T>, x: T): (r: seq<T>)
    ensures x !in s ==> r == s
    ensures x in s ==> |r| == |s| - 1 && r == s[..Posicion(s, x)] + s[Posicion(s, x) + 1..]
    ensures multiset(r) == multiset(s) - multiset{x}
  {
    if x in s then
      var k := Posicion(s, x);
      assert s == s[..k] + [x] + s[k + 1..];
      s[..k] + s[k + 1..]
    else s
  }

  /** The user after `usuario.Activo = !usuario.Activo`. */
  function Alternado(u: Usuario): (r: Usuario)
    ensures r.activo != u.activo && r.(activo := u.activo) == u
  {
    u.(activo := !u.activo)
  }

  /** The list after the state of `u` is flipped in place: the entry of
      `u` changes, and nothing changes when `u` is not in the list. */
  function ConAlternado(us: seq<Usuario>, u: Usuario): (r: seq<Usuario>)
    ensures |r| == |us|
    ensures u !in us ==> r == us
    ensures u in us ==> r == us[Posicion(us, u) := Alternado(u)]
  {
    if u in us then us[Posicion(us, u) := Alternado(u)] else us
  }

  /** Flipping a user that is listed moves the active count by one in the
      direction of the new state, and leaves the other counters. */
  lemma AlternarResumen(us: seq<Usuario>, u: Usuario)
    requires u in us
    ensures var antes, despues := ResumenDe(us), ResumenDe(ConAlternado(us, u));
      && despues.total == antes.total
      && despues.activos == antes.activos + (if u.activo then -1 else 1)
      && despues.flotantes == antes.flotantes
  {
    var k := Posicion(us, u);
    CountWhereUpdate(us, k, Alternado(u), EstaActivo);
    CountWhereUpdate(us, k, Alternado(u), EsFlotante);
  }

  /** Removing a listed user lowers the total by one, and the active and
      floating counts by what that user added. */
  lemma QuitarResumen(us: seq<Usuario>, u: Usuario)
    requires u in us
    ensures var antes, despues := ResumenDe(us), ResumenDe(Quitar(us, u));
      && despues.total == antes.total - 1
      && despues.activos == antes.activos - (if u.activo then 1 else 0)
      && despues.flotantes == antes.flotantes - (if u.esFlotante then 1 else 0)
  {
    var k := Posicion(us, u);
    CountWhereRemove(us, k, EstaActivo);
    CountWhereRemove(us, k, EsFlotante);
  }

  // ---------------------------------------------------------------------
  // Assigned locales

  /** No two assigned locales share an `IdLocal`. */
  predicate IdsUnicos(ls: seq<Local>)
  {
    forall i, j :: 0 <= i < |ls| && 0 <= j < |ls| && i != j ==> ls[i].idLocal != ls[j].idLocal
  }

  /** Some assigned locale has the id of `l` (`LocalesAsignados.Any`). */
  predicate Asignado(ls: seq<Local>, l: Local)
  {
    exists i :: 0 <= i < |ls| && ls[i].idLocal == l.idLocal
  }

  /** The assigned list after `SeleccionarLocal(l)`. */
  function ConLocal(ls: seq<Local>, l: Local): (r: seq<Local>)
    ensures Asignado(ls, l) ==> r == ls
    ensures !Asignado(ls, l) ==> r == ls + [l]
    ensures Asignado(r, l)
  {
    if Asignado(ls, l) then ls else
      assert (ls + [l])[|ls|] == l;
      ls + [l]
  }

  /** Selecting a locale keeps the assigned ids unique. */
  lemma ConLocalUnicos(ls: seq<Local>, l: Local)
    requires IdsUnicos(ls)
    ensures IdsUnicos(ConLocal(ls, l))
  {
    if !Asignado(ls, l) {
      var r := ls + [l];
      forall i, j | 0 <= i < |r| && 0 <= j < |r| && i != j
        ensures r[i].idLocal != r[j].idLocal
      {
        if i == |ls| {
          assert r[j] == ls[j];
        } else if j == |ls| {
          assert r[i] == ls[i];
        } else {
          assert r[i] == ls[i] && r[j] == ls[j];
        }
      }
    }
  }

  /** Removing an assigned locale keeps the assigned ids unique. */
  lemma QuitarUnicos(ls: seq<Local>, l: Local)
    requires IdsUnicos(ls)
    ensures IdsUnicos(Quitar(ls, l))
  {
    if l in ls {
      var k := Posicion(ls, l);
      var r := Quitar(ls, l);
      forall i, j | 0 <= i < |r| && 0 <= j < |r| && i != j
        ensures r[i].idLocal != r[j].idLocal
      {
        var i' := if i < k then i else i + 1;
        var j' := if j < k then j else j + 1;
        assert r[i] == ls[i'] && r[j] == ls[j'];
      }
    }
  }

  // ---------------------------------------------------------------------
  // Form validation

  /** The checks of `GuardarUsuarioAsync`, in order: the four required
      fields, the password of a new user, at least one locale. */
  function Validacion(numero: string, nombre: string, apellidos: string, correo: string, password: string,
                      modoEdicion: bool, asignados: nat): (r: Option<Mensaje>)
    ensures r == Some(CamposObligatorios) <==>
      IsBlank(numero) || IsBlank(nombre) || IsBlank(apellidos) || IsBlank(correo)
    ensures r == Some(PasswordObligatoria) <==>
      !IsBlank(numero) && !IsBlank(nombre) && !IsBlank(apellidos) && !IsBlank(correo)
      && !modoEdicion && IsBlank(password)
    ensures r == Some(SinLocales) <==>
      !IsBlank(numero) && !IsBlank(nombre) && !IsBlank(apellidos) && !IsBlank(correo)
      && (modoEdicion || !IsBlank(password)) && asignados == 0
    ensures r.None? <==>
      !IsBlank(numero) && !IsBlank(nombre) && !IsBlank(apellidos) && !IsBlank(correo)
      && (modoEdicion || !IsBlank(password)) && asignados > 0
  {
    if IsBlank(numero) || IsBlank(nombre) || IsBlank(apellidos) || IsBlank(correo) then Some(CamposObligatorios)
    else if !modoEdicion && IsBlank(password) then Some(PasswordObligatoria)
    else if asignados == 0 then Some(SinLocales)
    else None
  }

  /** `value ?? string.Empty`. */
  function TextoO(o: Option<string>): string
  {
    if o.Some? then o.value else ""
  }

  /** The form fields (`FormNumeroUsuario` … `FormActivo`). */
  datatype FormUsuario = FormUsuario(
    numeroUsuario: string,
    nombre: string,
    apellidos: string,
    correo: string,
    telefono: string,
    password: string,
    observaciones: string,
    esFlotante: bool,
    activo: bool)

  /** The cleared form: empty texts, not floating, active. */
  const FormVacio := FormUsuario("", "", "", "", "", "", "", false, true)

  /** The form filled from a user for editing: a missing phone or note
      becomes empty text, and the password is blank. */
  function FormDe(u: Usuario): (f: FormUsuario)
    ensures f.numeroUsuario == u.numeroUsuario && f.nombre == u.nombre && f.apellidos == u.apellidos
    ensures f.correo == u.correo && f.esFlotante == u.esFlotante && f.activo == u.activo
    ensures f.password == ""
    ensures u.telefono.Some? ==> f.telefono == u.telefono.value
    ensures u.telefono.None? ==> f.telefono == ""
    ensures u.observaciones.Some? ==> f.observaciones == u.observaciones.value
    ensures u.observaciones.None? ==> f.observaciones == ""
  {
    FormUsuario(u.numeroUsuario, u.nombre, u.apellidos, u.correo, TextoO(u.telefono), "",
                TextoO(u.observaciones), u.esFlotante, u.activo)
  }

  /** What validation looks at in a form. */
  function ValidacionDe(f: FormUsuario, modoEdicion: bool, asignados: nat): Option<Mensaje>
  {
    Validacion(f.numeroUsuario, f.nombre, f.apellidos, f.correo, f.password, modoEdicion, asignados)
  }

  // ---------------------------------------------------------------------
  // The view-model

  class ManageUsersViewModel {
    var usuarios: seq<Usuario>
    var mostrarFormulario: bool
    var mostrarMensaje: bool
    var mensaje: Option<Mensaje>
    var tituloFormulario: string
    var modoEdicion: bool

    var form: FormUsuario

    var busquedaLocal: string
    var mostrarResultadosBusqueda: bool
    var resultadosBusquedaLocales: seq<Local>
    var localesAsignados: seq<Local>

    var totalUsuarios: int
    var usuariosActivos: int
    var usuariosFlotantes: int

    var usuarioEnEdicion: Option<Usuario>

    function Contadores(): Resumen
      reads this
    {
      Resumen(totalUsuarios, usuariosActivos, usuariosFlotantes)
    }

    /** The counters describe the list, and the assigned locales have
        distinct ids. */
    ghost predicate Valid()
      reads this
    {
      Contadores() == ResumenDe(usuarios) && IdsUnicos(localesAsignados)
    }

    /** An empty screen with the form in its cleared state; the load the
        constructor starts is the separate `CargarUsuarios` call. */
    constructor ()
      ensures Valid() && usuarios == [] && localesAsignados == []
      ensures tituloFormulario == "Crear Usuario" && !modoEdicion && !mostrarFormulario
      ensures form == FormVacio && usuarioEnEdicion.None?
    {
      usuarios := [];
      mostrarFormulario := false;
      mostrarMensaje := false;
      mensaje := None;
      tituloFormulario := "Crear Usuario";
      modoEdicion := false;
      form := FormVacio;
      busquedaLocal := "";
      mostrarResultadosBusqueda := false;
      resultadosBusquedaLocales := [];
      localesAsignados := [];
      totalUsuarios := 0;
      usuariosActivos := 0;
      usuariosFlotantes := 0;
      usuarioEnEdicion := None;
    }

    /** `MostrarMensajeTemporalmente`, without the later hiding. */
    method MostrarMensajeTemporalmente(m: Mensaje)
      modifies this`mensaje, this`mostrarMensaje
      ensures mensaje == Some(m) && mostrarMensaje
    {
      mensaje := Some(m);
      mostrarMensaje := true;
    }

    /** `ActualizarEstadisticas`. */
    method ActualizarEstadisticas()
      modifies this`totalUsuarios, this`usuariosActivos, this`usuariosFlotantes
      ensures Contadores() == ResumenDe(usuarios)
    {
      totalUsuarios := |usuarios|;
      usuariosActivos := CountWhere(usuarios, EstaActivo);
      usuariosFlotantes := CountWhere(usuarios, EsFlotante);
    }

    /** `CargarUsuariosAsync`, with the loaded users given: the list is
        replaced and the counters recomputed. */
    method CargarUsuarios(cargados: seq<Usuario>)
      requires IdsUnicos(localesAsignados)
      modifies this`usuarios, this`totalUsuarios, this`usuariosActivos, this`usuariosFlotantes
      ensures Valid() && usuarios == cargados
    {
      usuarios := cargados;
      ActualizarEstadisticas();
    }

    /** `LimpiarFormulario`: the cleared form, no assigned locales, no
        search, nobody being edited. */
    method LimpiarFormulario()
      modifies this`form, this`localesAsignados, this`resultadosBusquedaLocales, this`busquedaLocal,
        this`mostrarResultadosBusqueda, this`usuarioEnEdicion
      ensures form == FormVacio && localesAsignados == []
      ensures resultadosBusquedaLocales == [] && busquedaLocal == ""
      ensures !mostrarResultadosBusqueda && usuarioEnEdicion.None?
    {
      form := FormVacio;
      localesAsignados := [];
      resultadosBusquedaLocales := [];
      busquedaLocal := "";
      mostrarResultadosBusqueda := false;
      usuarioEnEdicion := None;
    }

    /** `MostrarFormularioCrear`: a cleared form, shown in creation mode. */
    method MostrarFormularioCrear()
      requires Valid()
      modifies this`form, this`localesAsignados, this`resultadosBusquedaLocales, this`busquedaLocal,
        this`mostrarResultadosBusqueda, this`usuarioEnEdicion
      modifies this`tituloFormulario, this`modoEdicion, this`mostrarFormulario
      ensures Valid()
      ensures form == FormVacio && localesAsignados == [] && usuarioEnEdicion.None?
      ensures resultadosBusquedaLocales == [] && busquedaLocal == "" && !mostrarResultadosBusqueda
      ensures tituloFormulario == "Crear Usuario" && !modoEdicion && mostrarFormulario
    {
      LimpiarFormulario();
      tituloFormulario := "Crear Usuario";
      modoEdicion := false;
      mostrarFormulario := true;
    }

    /** `CerrarFormulario`: hides the form and clears it; the title and
        the edit mode are left as they were. */
    method CerrarFormulario()
      requires Valid()
      modifies this`form, this`localesAsignados, this`resultadosBusquedaLocales, this`busquedaLocal,
        this`mostrarResultadosBusqueda, this`usuarioEnEdicion, this`mostrarFormulario
      ensures Valid()
      ensures !mostrarFormulario
      ensures form == FormVacio && localesAsignados == [] && usuarioEnEdicion.None?
      ensures resultadosBusquedaLocales == [] && busquedaLocal == "" && !mostrarResultadosBusqueda
    {
      mostrarFormulario := false;
      LimpiarFormulario();
    }

    /** `GuardarUsuarioAsync`, with the users the reload returns given. A
        failed check shows its message and changes nothing else. Otherwise
        nothing is stored: the success message is shown, the list is
        reloaded and the form closed. The title and the edit mode are never
        changed. */
    method GuardarUsuario(cargados: seq<Usuario>)
      requires Valid()
      modifies this`mensaje, this`mostrarMensaje, this`usuarios
      modifies this`totalUsuarios, this`usuariosActivos, this`usuariosFlotantes
      modifies this`form, this`localesAsignados, this`resultadosBusquedaLocales, this`busquedaLocal,
        this`mostrarResultadosBusqueda, this`usuarioEnEdicion, this`mostrarFormulario
      ensures Valid()
      ensures var v := ValidacionDe(old(form), modoEdicion, |old(localesAsignados)|);
        v.Some? ==>
          && mensaje == v && mostrarMensaje && usuarios == old(usuarios) && form == old(form)
          && localesAsignados == old(localesAsignados) && mostrarFormulario == old(mostrarFormulario)
          && usuarioEnEdicion == old(usuarioEnEdicion) && busquedaLocal == old(busquedaLocal)
          && resultadosBusquedaLocales == old(resultadosBusquedaLocales)
          && mostrarResultadosBusqueda == old(mostrarResultadosBusqueda)
      ensures var v := ValidacionDe(old(form), modoEdicion, |old(localesAsignados)|);
        v.None? ==>
          && mensaje == Some(if modoEdicion then UsuarioActualizado else UsuarioCreado) && mostrarMensaje
          && usuarios == cargados && !mostrarFormulario
          && form == FormVacio && localesAsignados == [] && usuarioEnEdicion.None?
          && resultadosBusquedaLocales == [] && busquedaLocal == "" && !mostrarResultadosBusqueda
    {
      var v := ValidacionDe(form, modoEdicion, |localesAsignados|);
      if v.Some? {
        MostrarMensajeTemporalmente(v.value);
        return;
      }
      MostrarMensajeTemporalmente(if modoEdicion then UsuarioActualizado else UsuarioCreado);
      CargarUsuarios(cargados);
      CerrarFormulario();
    }

    /** `EditarUsuarioAsync`: the form takes the user's fields and opens
        in edit mode. The assigned locales are not loaded. */
    method EditarUsuario(u: Usuario)
      modifies this`usuarioEnEdicion, this`form, this`tituloFormulario, this`modoEdicion, this`mostrarFormulario
      ensures usuarioEnEdicion == Some(u) && form == FormDe(u)
      ensures tituloFormulario == "Editar Usuario" && modoEdicion && mostrarFormulario
    {
      usuarioEnEdicion := Some(u);
      form := FormDe(u);
      tituloFormulario := "Editar Usuario";
      modoEdicion := true;
      mostrarFormulario := true;
    }

    /** `CambiarEstadoUsuarioAsync`: the user's state is flipped where it
        is listed, the message names the new state, and the counters are
        recomputed. */
    method CambiarEstadoUsuario(u: Usuario)
      requires Valid()
      modifies this`usuarios, this`mensaje, this`mostrarMensaje,
        this`totalUsuarios, this`usuariosActivos, this`usuariosFlotantes
      ensures Valid()
      ensures usuarios == ConAlternado(old(usuarios), u)
      ensures mensaje == Some(if u.activo then Desactivado(Alternado(u)) else Activado(Alternado(u))) && mostrarMensaje
      ensures u in old(usuarios) ==>
        totalUsuarios == old(totalUsuarios) && usuariosFlotantes == old(usuariosFlotantes)
        && usuariosActivos == old(usuariosActivos) + (if u.activo then -1 else 1)
      ensures u !in old(usuarios) ==> Contadores() == old(Contadores())
    {
      var nuevo := Alternado(u);
      if u in usuarios {
        AlternarResumen(usuarios, u);
      }
      usuarios := ConAlternado(usuarios, u);
      MostrarMensajeTemporalmente(if nuevo.activo then Activado(nuevo) else Desactivado(nuevo));
      ActualizarEstadisticas();
    }

    /** `EliminarUsuarioAsync`: the first entry equal to the user is
        removed, the message names the user, and the counters are
        recomputed. */
    method EliminarUsuario(u: Usuario)
      requires Valid()
      modifies this`usuarios, this`mensaje, this`mostrarMensaje,
        this`totalUsuarios, this`usuariosActivos, this`usuariosFlotantes
      ensures Valid()
      ensures usuarios == Quitar(old(usuarios), u)
      ensures mensaje == Some(Eliminado(u)) && mostrarMensaje
      ensures u in old(usuarios) ==>
        totalUsuarios == old(totalUsuarios) - 1
        && usuariosActivos == old(usuariosActivos) - (if u.activo then 1 else 0)
        && usuariosFlotantes == old(usuariosFlotantes) - (if u.esFlotante then 1 else 0)
      ensures u !in old(usuarios) ==> Contadores() == old(Contadores())
    {
      if u in usuarios {
        QuitarResumen(usuarios, u);
      }
      usuarios := Quitar(usuarios, u);
      MostrarMensajeTemporalmente(Eliminado(u));
      ActualizarEstadisticas();
    }

    /** `BuscarLocalAsync`, with the locales the search returns given: a
        blank search only hides the results. */
    method BuscarLocal(encontrados: seq<Local>)
      modifies this`resultadosBusquedaLocales, this`mostrarResultadosBusqueda
      ensures IsBlank(busquedaLocal) ==>
        !mostrarResultadosBusqueda && resultadosBusquedaLocales == old(resultadosBusquedaLocales)
      ensures !IsBlank(busquedaLocal) ==>
        resultadosBusquedaLocales == encontrados && (mostrarResultadosBusqueda <==> encontrados != [])
    {
      if IsBlank(busquedaLocal) {
        mostrarResultadosBusqueda := false;
        return;
      }
      resultadosBusquedaLocales := encontrados;
      mostrarResultadosBusqueda := |resultadosBusquedaLocales| > 0;
    }

    /** `SeleccionarLocal`: adds the locale unless one with its id is
        already assigned; the search is always cleared and hidden. */
    method SeleccionarLocal(l: Local)
      requires Valid()
      modifies this`localesAsignados, this`busquedaLocal, this`mostrarResultadosBusqueda,
        this`resultadosBusquedaLocales
      ensures Valid()
      ensures localesAsignados == ConLocal(old(localesAsignados), l)
      ensures busquedaLocal == "" && !mostrarResultadosBusqueda && resultadosBusquedaLocales == []
    {
      ConLocalUnicos(localesAsignados, l);
      if !Asignado(localesAsignados, l) {
        localesAsignados := localesAsignados + [l];
      }
      busquedaLocal := "";
      mostrarResultadosBusqueda := false;
      resultadosBusquedaLocales := [];
    }

    /** `QuitarLocalAsignado`: removes that entry only. */
    method QuitarLocalAsignado(l: Local)
      requires Valid()
      modifies this`localesAsignados
      ensures Valid()
      ensures localesAsignados == Quitar(old(localesAsignados), l)
    {
      QuitarUnicos(localesAsignados, l);
      localesAsignados := Quitar(localesAsignados, l);
    }
  }
}
