/** The login screen (`LoginViewModel`): field validation, the command
    gate, the fixed table of demo credentials, the session data handed to
    navigation, and the failed-attempt counter that blocks the user. */
module Login {
  import opened Wrappers
  import opened Text

  /** The error texts the screen shows, by localisation key; `Ninguno` is
      the empty message. */
  datatype Mensaje =
    | Ninguno
    | UsuarioRequerido
    | PasswordRequerida
    | PasswordCorta
    | OficinaRequerida
    | Bloqueo(minutos: int)
    | Incorrecta(restantes: int)
    | ErrorInicio

  /** The shortest password validation accepts. */
  const LongitudMinima := 8

  /** Failed attempts that block the user. */
  const MaximoIntentos := 5

  /** Minutes a blocked user is told to wait. */
  const MinutosBloqueo := 15

  // ---------------------------------------------------------------------
  // Validation

  /** `CanLogin` on the field values: not loading, not blocked, and the
      three fields hold something other than white space. */
  predicate PuedeIniciar(cargando: bool, bloqueado: bool, usuario: string, password: string, oficina: string)
  {
    !cargando && !bloqueado && !IsBlank(usuario) && !IsBlank(password) && !IsBlank(oficina)
  }

  /** `ValidarCampos`: the first failing check, in the order user,
      password present, password length, office; `None` when all pass. */
  function Validacion(usuario: string, password: string, oficina: string): (r: Option<Mensaje>)
    ensures r.None? <==>
      !IsBlank(usuario) && !IsBlank(password) && |password| >= LongitudMinima && !IsBlank(oficina)
    ensures r == Some(UsuarioRequerido) <==> IsBlank(usuario)
    ensures r == Some(PasswordRequerida) <==> !IsBlank(usuario) && IsBlank(password)
    ensures r == Some(PasswordCorta) <==>
      !IsBlank(usuario) && !IsBlank(password) && |password| < LongitudMinima
    ensures r == Some(OficinaRequerida) <==>
      !IsBlank(usuario) && !IsBlank(password) && |password| >= LongitudMinima && IsBlank(oficina)
  {
    if IsBlank(usuario) then Some(UsuarioRequerido)
    else if IsBlank(password) then Some(PasswordRequerida)
    else if |password| < LongitudMinima then Some(PasswordCorta)
    else if IsBlank(oficina) then Some(OficinaRequerida)
    else None
  }

  /** Behind the command gate only the length check can still fail. */
  lemma GateDejaSoloLongitud(cargando: bool, bloqueado: bool, usuario: string, password: string, oficina: string)
    requires PuedeIniciar(cargando, bloqueado, usuario, password, oficina)
    ensures Validacion(usuario, password, oficina) == (if |password| < LongitudMinima then Some(PasswordCorta) else None)
  {
  }

  // ---------------------------------------------------------------------
  // Credentials

  /** Which kind of account a credential opens. */
  datatype Acceso = AdminSistema | Normal

  /** The accepted (number, password) pairs. */
  const Credenciales: set<(string, string)> := {
    ("0001", "Admin123!"), ("0002", "Admin123!"),
    ("9999", "Test1234!"), ("1001", "Admin123!"), ("1002", "Usuario123!")
  }

  /** The credential check of `LoginAsync`, on the number and password as
      typed (neither is trimmed): the system administrators 0001 and 0002,
      or one of the three ordinary accounts. */
  function Autenticar(numero: string, password: string): (r: Option<Acceso>)
    ensures r.Some? <==> (numero, password) in Credenciales
    ensures r == Some(AdminSistema) <==> r.Some? && (numero == "0001" || numero == "0002")
  {
    var admin := (numero == "0001" || numero == "0002") && password == "Admin123!";
    var normal := (numero == "9999" && password == "Test1234!")
      || (numero == "1001" && password == "Admin123!")
      || (numero == "1002" && password == "Usuario123!");
    if admin then Some(AdminSistema) else if normal then Some(Normal) else None
  }

  /** Every accepted credential passes validation once an office is given:
      the numbers are not blank and the passwords are long enough. */
  lemma CredencialPasaValidacion(numero: string, password: string, oficina: string)
    requires Autenticar(numero, password).Some? && !IsBlank(oficina)
    ensures Validacion(numero, password, oficina).None?
  {
    assert !IsWhiteSpace(numero[0]);
    assert !IsWhiteSpace(password[0]);
  }

  // ---------------------------------------------------------------------
  // Roles and names

  /** `DeterminarTipoUsuario`. */
  function TipoUsuario(numero: string): (r: string)
    ensures r == (if numero == "1001" then "ADMIN" else "EMPLEADO")
  {
    if numero == "1001" then "ADMIN"
    else if numero == "1002" then "EMPLEADO"
    else if numero == "1003" then "EMPLEADO"
    else if numero == "9999" then "EMPLEADO"
    else "EMPLEADO"
  }

  /** `DeterminarRol`. */
  function Rol(numero: string): (r: string)
    ensures r == (if numero == "1001" then "Administrador" else "Empleado")
  {
    if numero == "1001" then "Administrador"
    else if numero == "1002" then "Empleado"
    else if numero == "1003" then "Empleado"
    else if numero == "9999" then "Empleado"
    else "Empleado"
  }

  /** The numbers that have a demo name. */
  const Conocidos: set<string> := {"0001", "0002", "1001", "1002", "1003", "1004", "9999"}

  /** The demo names of the known numbers. */
  const NombresDemo: map<string, string> :=
    map["0001" := "Admin Principal", "0002" := "Admin Secundario", "1001" := "Juan Pérez",
        "1002" := "María González", "1003" := "Carlos Rodríguez", "1004" := "Ana Martínez",
        "9999" := "Test User"]

  /** `GetUserNameFromNumber`: the demo name, or "Usuario" and the number. */
  function NombreDeUsuario(numero: string): (r: string)
    ensures numero in NombresDemo ==> r == NombresDemo[numero]
    ensures numero !in Conocidos ==> r == "Usuario " + numero
    ensures numero in Conocidos ==> |r| > 0 && r[0] != 'U'
  {
    if numero == "0001" then "Admin Principal"
    else if numero == "0002" then "Admin Secundario"
    else if numero == "1001" then "Juan Pérez"
    else if numero == "1002" then "María González"
    else if numero == "1003" then "Carlos Rodríguez"
    else if numero == "1004" then "Ana Martínez"
    else if numero == "9999" then "Test User"
    else "Usuario " + numero
  }

  /** Different numbers are never shown under the same name. */
  lemma NombreDeUsuarioInyectivo(a: string, b: string)
    requires NombreDeUsuario(a) == NombreDeUsuario(b)
    ensures a == b
  {
    var r := NombreDeUsuario(a);
    if a !in Conocidos && b !in Conocidos {
      assert a == r[8..] == b;
    }
  }

  // ---------------------------------------------------------------------
  // Session data

  /** `LoginSuccessData`; the token is "token-" and a fresh GUID. */
  datatype Sesion = Sesion(
    nombre: string,
    numero: string,
    codigoLocal: string,
    token: string,
    tipo: string,
    rol: string,
    adminSistema: bool)

  /** Where a successful login navigates. */
  datatype Destino = PanelAdministracion(sesion: Sesion) | PanelUsuario(sesion: Sesion)

  /** The session built after a successful login: the office code is the
      upper-cased text as typed; a system administrator gets the fixed
      system role, anyone else the role of the number. */
  function SesionDe(numero: string, oficina: string, guid: string, acceso: Acceso): (r: Sesion)
    ensures r.numero == numero && r.nombre == NombreDeUsuario(numero)
    ensures r.codigoLocal == ToUpper(oficina)
    ensures |r.codigoLocal| == |oficina| && forall i :: 0 <= i < |r.codigoLocal| ==> !IsLower(r.codigoLocal[i])
    ensures r.token == "token-" + guid
    ensures r.adminSistema <==> acceso == AdminSistema
    ensures r.adminSistema ==> r.tipo == "ADMIN_SISTEMA" && r.rol == "Administrador_Sistema"
    ensures !r.adminSistema ==> r.tipo == TipoUsuario(numero) && r.rol == Rol(numero)
    ensures !r.adminSistema ==> (r.tipo == "ADMIN" <==> numero == "1001") && r.rol != "Administrador_Sistema"
  {
    var base := Sesion(NombreDeUsuario(numero), numero, ToUpper(oficina), "token-" + guid, "", "", false);
    if acceso == AdminSistema then base.(tipo := "ADMIN_SISTEMA", rol := "Administrador_Sistema", adminSistema := true)
    else base.(tipo := TipoUsuario(numero), rol := Rol(numero))
  }

  /** For an accepted credential: the administration panel opens exactly
      for the numbers 0001 and 0002; every other account gets the type and
      role of its number, which single out 1001; the office code is already
      in upper case, so upper-casing it again changes nothing. */
  lemma SesionDeCredencial(numero: string, password: string, oficina: string, guid: string)
    requires Autenticar(numero, password).Some?
    ensures var s := SesionDe(numero, oficina, guid, Autenticar(numero, password).value);
      && (DestinoDe(s).PanelAdministracion? <==> numero == "0001" || numero == "0002")
      && s.tipo == (if numero == "0001" || numero == "0002" then "ADMIN_SISTEMA"
                    else if numero == "1001" then "ADMIN" else "EMPLEADO")
      && s.rol == (if numero == "0001" || numero == "0002" then "Administrador_Sistema"
                   else if numero == "1001" then "Administrador" else "Empleado")
      && ToUpper(s.codigoLocal) == s.codigoLocal
  {
    ToUpperIdempotent(oficina);
  }

  /** The dashboard a session opens. */
  function DestinoDe(s: Sesion): (d: Destino)
    ensures d.sesion == s && (d.PanelAdministracion? <==> s.adminSistema)
  {
    if s.adminSistema then PanelAdministracion(s) else PanelUsuario(s)
  }

  // ---------------------------------------------------------------------
  // Failed attempts

  /** The lockout fields: failed attempts, blocked flag, minutes to wait. */
  datatype Intentos = Intentos(fallidos: int, bloqueado: bool, minutos: int)

  /** The fields of a fresh screen. */
  const Inicial := Intentos(0, false, 0)

  /** The lockout fields agree with each other: the user is blocked exactly
      when five or more attempts failed, and then waits 15 minutes. */
  predicate Coherente(e: Intentos)
  {
    e.fallidos >= 0 && (e.bloqueado <==> e.fallidos >= MaximoIntentos) && (e.bloqueado ==> e.minutos == MinutosBloqueo)
  }

  /** `ManejarLoginFallido`: one more failed attempt; from the fifth on the
      user is blocked for 15 minutes, before that the message tells how
      many attempts remain. */
  function Fallo(e: Intentos): (r: (Intentos, Mensaje))
    ensures r.0.fallidos == e.fallidos + 1
    ensures Coherente(e) ==> Coherente(r.0)
    ensures r.0.fallidos >= MaximoIntentos ==> r.0.bloqueado && r.1 == Bloqueo(MinutosBloqueo)
    ensures Coherente(e) && !r.0.bloqueado ==>
      r.1 == Incorrecta(MaximoIntentos - r.0.fallidos) && 1 <= r.1.restantes <= 4
  {
    var n := e.fallidos + 1;
    if n >= MaximoIntentos then (Intentos(n, true, MinutosBloqueo), Bloqueo(MinutosBloqueo))
    else (Intentos(n, e.bloqueado, e.minutos), Incorrecta(MaximoIntentos - n))
  }

  /** A successful login: no failed attempts and not blocked; the minutes
      are left as they were. */
  function Exito(e: Intentos): (r: Intentos)
    ensures Coherente(r) && r.fallidos == 0 && r.minutos == e.minutos
  {
    Intentos(0, false, e.minutos)
  }

  /** `n` failed logins in a row. */
  function Fallos(e: Intentos, n: nat): Intentos
    decreases n
  {
    if n == 0 then e else Fallos(Fallo(e).0, n - 1)
  }

  lemma {:induction false} FallosSeguidos(e: Intentos, n: nat)
    requires Coherente(e)
    ensures Fallos(e, n).fallidos == e.fallidos + n && Coherente(Fallos(e, n))
    decreases n
  {
    if n > 0 {
      FallosSeguidos(Fallo(e).0, n - 1);
    }
  }

  /** From a fresh screen, failed logins block the user exactly from the
      fifth one on. */
  lemma QuintoFalloBloquea(n: nat)
    ensures Fallos(Inicial, n).bloqueado <==> n >= MaximoIntentos
  {
    FallosSeguidos(Inicial, n);
  }

  // ---------------------------------------------------------------------
  // The view-model

  class LoginViewModel {
    var numeroUsuario: string
    var password: string
    var codigoLocal: string
    var recordarSesion: bool
    var isLoading: bool
    var mensajeError: Mensaje
    var mostrarError: bool
    var intentosFallidos: int
    var usuarioBloqueado: bool
    var tiempoBloqueoRestante: int

    function EstadoIntentos(): Intentos
      reads this
    {
      Intentos(intentosFallidos, usuarioBloqueado, tiempoBloqueoRestante)
    }

    ghost predicate Valid()
      reads this
    {
      Coherente(EstadoIntentos())
    }

    /** `CanLogin`, the gate of the login command. */
    predicate CanLogin()
      reads this
    {
      PuedeIniciar(isLoading, usuarioBloqueado, numeroUsuario, password, codigoLocal)
    }

    /** A fresh screen; `CargarDatosGuardados` leaves the defaults. */
    constructor ()
      ensures Valid() && EstadoIntentos() == Inicial
      ensures numeroUsuario == "" && password == "" && codigoLocal == ""
      ensures !recordarSesion && !isLoading && mensajeError == Ninguno && !mostrarError
    {
      numeroUsuario := "";
      password := "";
      codigoLocal := "";
      recordarSesion := false;
      isLoading := false;
      mensajeError := Ninguno;
      mostrarError := false;
      intentosFallidos := 0;
      usuarioBloqueado := false;
      tiempoBloqueoRestante := 0;
    }

    method MostrarMensajeError(m: Mensaje)
      modifies this`mensajeError, this`mostrarError
      ensures mensajeError == m && mostrarError
    {
      mensajeError := m;
      mostrarError := true;
    }

    /** `ValidarCampos`: shows the first failing check's message. */
    method ValidarCampos() returns (ok: bool)
      modifies this`mensajeError, this`mostrarError
      ensures var v := Validacion(numeroUsuario, password, codigoLocal);
        && (ok <==> v.None?)
        && (v.Some? ==> mensajeError == v.value && mostrarError)
        && (v.None? ==> mensajeError == old(mensajeError) && mostrarError == old(mostrarError))
    {
      if IsBlank(numeroUsuario) {
        MostrarMensajeError(UsuarioRequerido);
        return false;
      }
      if IsBlank(password) {
        MostrarMensajeError(PasswordRequerida);
        return false;
      }
      if |password| < LongitudMinima {
        MostrarMensajeError(PasswordCorta);
        return false;
      }
      if IsBlank(codigoLocal) {
        MostrarMensajeError(OficinaRequerida);
        return false;
      }
      return true;
    }

    /** `ManejarLoginFallido`. */
    method ManejarLoginFallido()
      modifies this`intentosFallidos, this`usuarioBloqueado, this`tiempoBloqueoRestante,
        this`mensajeError, this`mostrarError
      ensures EstadoIntentos() == Fallo(old(EstadoIntentos())).0
      ensures mensajeError == Fallo(old(EstadoIntentos())).1 && mostrarError
    {
      intentosFallidos := intentosFallidos + 1;
      if intentosFallidos >= MaximoIntentos {
        usuarioBloqueado := true;
        tiempoBloqueoRestante := MinutosBloqueo;
        MostrarMensajeError(Bloqueo(tiempoBloqueoRestante));
      } else {
        var restantes := MaximoIntentos - intentosFallidos;
        MostrarMensajeError(Incorrecta(restantes));
      }
    }

    /** `LoginAsync`, with the GUID of the token given and `fallaNavegacion`
        standing for an exception raised while navigating. The message is
        cleared, the fields are validated, and the credentials are checked
        as typed. A success resets the lockout and navigates with the
        session; a failure counts one more attempt. The form is kept and
        loading is off at the end. Nothing here looks at the blocked flag:
        only the command gate does. */
    method LoginAsync(guid: string, fallaNavegacion: bool) returns (destino: Option<Destino>)
      requires Valid()
      modifies this
      ensures Valid() && !isLoading
      ensures numeroUsuario == old(numeroUsuario) && password == old(password)
      ensures codigoLocal == old(codigoLocal) && recordarSesion == old(recordarSesion)
      ensures var v := Validacion(numeroUsuario, password, codigoLocal);
        v.Some? ==>
          destino.None? && mensajeError == v.value && mostrarError && EstadoIntentos() == old(EstadoIntentos())
      ensures var acceso := Autenticar(numeroUsuario, password);
        Validacion(numeroUsuario, password, codigoLocal).None? && acceso.None? ==>
          destino.None? && EstadoIntentos() == Fallo(old(EstadoIntentos())).0
          && mensajeError == Fallo(old(EstadoIntentos())).1 && mostrarError
      ensures var acceso := Autenticar(numeroUsuario, password);
        Validacion(numeroUsuario, password, codigoLocal).None? && acceso.Some? ==>
          && EstadoIntentos() == Exito(old(EstadoIntentos()))
          && (fallaNavegacion ==> destino.None? && mensajeError == ErrorInicio && mostrarError)
          && (!fallaNavegacion ==>
                destino == Some(DestinoDe(SesionDe(numeroUsuario, codigoLocal, guid, acceso.value)))
                && mensajeError == Ninguno && !mostrarError)
    {
      isLoading := true;
      mostrarError := false;
      mensajeError := Ninguno;
      var valido := ValidarCampos();
      if valido {
        destino := Autenticarse(guid, fallaNavegacion);
      } else {
        destino := None;
      }
      isLoading := false;
    }

    /** The part of `LoginAsync` after validation: the credential check,
        then the reset of the lockout and the navigation, or one more
        failed attempt. */
    method Autenticarse(guid: string, fallaNavegacion: bool) returns (destino: Option<Destino>)
      requires Valid()
      modifies this`intentosFallidos, this`usuarioBloqueado, this`tiempoBloqueoRestante,
        this`mensajeError, this`mostrarError
      ensures Valid()
      ensures var acceso := Autenticar(numeroUsuario, password);
        acceso.None? ==>
          destino.None? && EstadoIntentos() == Fallo(old(EstadoIntentos())).0
          && mensajeError == Fallo(old(EstadoIntentos())).1 && mostrarError
      ensures var acceso := Autenticar(numeroUsuario, password);
        acceso.Some? ==>
          && EstadoIntentos() == Exito(old(EstadoIntentos()))
          && (fallaNavegacion ==> destino.None? && mensajeError == ErrorInicio && mostrarError)
          && (!fallaNavegacion ==>
                destino == Some(DestinoDe(SesionDe(numeroUsuario, codigoLocal, guid, acceso.value)))
                && mensajeError == old(mensajeError) && mostrarError == old(mostrarError))
    {
      var acceso := Autenticar(numeroUsuario, password);
      if acceso.Some? {
        intentosFallidos := 0;
        usuarioBloqueado := false;
        var sesion := SesionDe(numeroUsuario, codigoLocal, guid, acceso.value);
        if fallaNavegacion {
          mensajeError := ErrorInicio;
          mostrarError := true;
          destino := None;
        } else {
          destino := Some(DestinoDe(sesion));
        }
      } else {
        ManejarLoginFallido();
        destino := None;
      }
    }

    /** `LimpiarFormulario`: empties the three fields and hides the error;
        the lockout is kept. */
    method LimpiarFormulario()
      modifies this`numeroUsuario, this`password, this`codigoLocal, this`mostrarError, this`mensajeError
      ensures numeroUsuario == "" && password == "" && codigoLocal == ""
      ensures !mostrarError && mensajeError == Ninguno
      ensures EstadoIntentos() == old(EstadoIntentos())
    {
      numeroUsuario := "";
      password := "";
      codigoLocal := "";
      mostrarError := false;
      mensajeError := Ninguno;
    }
  }
}
