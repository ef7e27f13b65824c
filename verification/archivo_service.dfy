/** `ArchivoService`: the attachments of a commerce, stored as files in a
    folder and as rows of `archivos_comercios`. */
module ServicioArchivos {
  import opened Wrappers
  import opened Text
  import opened Sorting
  import opened ArchivoModel
  import opened Almacen
  import opened TiposMime

  /** The folder uploads are copied into. */
  const CarpetaArchivos: string := "archivos_comercios"

  /** The directory separator `Path` uses. */
  const Separador: char := '/'

  // ---------------------------------------------------------------------
  // Paths

  /** `Path.GetFileName`: the part of the path after its last separator. */
  function NombreFichero(ruta: string): (r: string)
    ensures |r| <= |ruta| && r == ruta[|ruta| - |r|..]
    ensures Separador !in r
    ensures |r| < |ruta| ==> ruta[|ruta| - |r| - 1] == Separador
  {
    if ruta == [] || ruta[|ruta| - 1] == Separador then []
    else NombreFichero(ruta[..|ruta| - 1]) + [ruta[|ruta| - 1]]
  }

  /** The position of the last '.' in `n`, if any. */
  function UltimoPunto(n: string): (r: Option<nat>)
    ensures r.None? <==> '.' !in n
    ensures r.Some? ==> r.value < |n| && n[r.value] == '.' && '.' !in n[r.value + 1..]
  {
    if n == [] then None
    else if n[|n| - 1] == '.' then Some(|n| - 1)
    else
      var r := UltimoPunto(n[..|n| - 1]);
      assert n == n[..|n| - 1] + [n[|n| - 1]];
      r
  }

  /** The extension of a file name: from its last '.' to its end, or empty
      when the name has no '.' or ends with one. */
  function ExtensionDe(n: string): string
  {
    match UltimoPunto(n)
    case None => []
    case Some(k) => if k == |n| - 1 then [] else n[k..]
  }

  /** An extension is empty or a '.' followed by at least one character
      and no other '.'; it ends the name, and it is empty only when the name
      has no '.' or ends with one. */
  lemma ExtensionDeForma(n: string)
    ensures var r := ExtensionDe(n);
      && (r == [] || (r[0] == '.' && |r| >= 2 && '.' !in r[1..]))
      && |r| <= |n| && r == n[|n| - |r|..]
      && ('.' in n && n[|n| - 1] != '.' ==> r != [])
  {
    match UltimoPunto(n)
    case None =>
    case Some(k) =>
      assert n[k..][1..] == n[k + 1..];
  }

  /** `Path.GetExtension`: the extension of the file name of the path. */
  function Extension(ruta: string): string
  {
    ExtensionDe(NombreFichero(ruta))
  }

  // ---------------------------------------------------------------------
  // Unique names

  /** A local date and time as `DateTime.Now` gives it. */
  datatype FechaHora = FechaHora(anio: nat, mes: nat, dia: nat, hora: nat, minuto: nat, segundo: nat)

  predicate FechaValida(f: FechaHora)
  {
    1 <= f.anio <= 9999 && 1 <= f.mes <= 12 && 1 <= f.dia <= 31
    && f.hora < 24 && f.minuto < 60 && f.segundo < 60
  }

  /** The date formatted as `yyyyMMdd_HHmmss`. */
  function Sello(f: FechaHora): (r: string)
    ensures |r| == 15 && r[8] == '_'
    ensures AllDigits(r[..8]) && AllDigits(r[9..])
  {
    var r := FixedDigits(f.anio, 4) + FixedDigits(f.mes, 2) + FixedDigits(f.dia, 2)
      + "_" + FixedDigits(f.hora, 2) + FixedDigits(f.minuto, 2) + FixedDigits(f.segundo, 2);
    assert r[..8] == FixedDigits(f.anio, 4) + FixedDigits(f.mes, 2) + FixedDigits(f.dia, 2);
    assert r[9..] == FixedDigits(f.hora, 2) + FixedDigits(f.minuto, 2) + FixedDigits(f.segundo, 2);
    r
  }

  /** `Guid.ToString("N")`: 32 lower-case hexadecimal digits. */
  predicate GuidN(g: string)
  {
    |g| == 32 && forall i :: 0 <= i < |g| ==> IsLowerHex(g[i])
  }

  /** `{idComercio}_{yyyyMMdd_HHmmss}_{first 8 digits of the guid}{extension}`. */
  function NombreUnico(idComercio: int, f: FechaHora, guid: string, extension: string): (r: string)
    requires GuidN(guid)
  {
    IntToString(idComercio) + "_" + Sello(f) + "_" + guid[..8] + extension
  }

  /** The name splits back into its parts: the commerce id, the time stamp,
      the random digits and the extension. */
  lemma NombreUnicoPartes(idComercio: int, f: FechaHora, guid: string, extension: string)
    requires GuidN(guid)
    ensures var r := NombreUnico(idComercio, f, guid, extension);
      var n := |IntToString(idComercio)|;
      && |r| == n + 25 + |extension|
      && r[..n] == IntToString(idComercio) && r[n] == '_'
      && r[n + 1..n + 16] == Sello(f) && r[n + 16] == '_'
      && r[n + 17..n + 25] == guid[..8]
      && (forall i :: n + 17 <= i < n + 25 ==> IsLowerHex(r[i]))
      && r[n + 25..] == extension
  {
  }

  /** The id part ends at the first '_': an integer rendering has none. */
  lemma {:induction false} PrefijoHastaGuion(a: string, x: string, b: string, y: string)
    requires '_' !in a && '_' !in b
    requires a + x == b + y && |x| > 0 && |y| > 0 && x[0] == '_' && y[0] == '_'
    ensures a == b
  {
    var r := a + x;
    assert a == r[..|a|] && b == r[..|b|];
  }

  /** Two uploads get the same name only with the same commerce, time
      stamp, random digits and extension. */
  lemma NombreUnicoInyectivo(id1: int, f1: FechaHora, g1: string, e1: string,
                             id2: int, f2: FechaHora, g2: string, e2: string)
    requires GuidN(g1) && GuidN(g2)
    requires NombreUnico(id1, f1, g1, e1) == NombreUnico(id2, f2, g2, e2)
    ensures id1 == id2 && Sello(f1) == Sello(f2) && g1[..8] == g2[..8] && e1 == e2
  {
    var r := NombreUnico(id1, f1, g1, e1);
    var a, b := IntToString(id1), IntToString(id2);
    NombreUnicoPartes(id1, f1, g1, e1);
    NombreUnicoPartes(id2, f2, g2, e2);
    assert r == a + r[|a|..] && r == b + r[|b|..];
    assert '_' !in a && '_' !in b;
    PrefijoHastaGuion(a, r[|a|..], b, r[|b|..]);
    IntToStringInjective(id1, id2);
  }

  /** `Path.Combine(CarpetaArchivos, nombre)`. */
  function RutaDestino(nombre: string): string
  {
    CarpetaArchivos + [Separador] + nombre
  }

  /** A stored name has no directory separator, so it is the file name of
      its path. */
  lemma {:induction false} NombreFicheroTras(p: string, n: string)
    requires |p| > 0 && p[|p| - 1] == Separador && Separador !in n
    ensures NombreFichero(p + n) == n
    decreases |n|
  {
    if n != [] {
      var m := n[..|n| - 1];
      assert (p + n)[..|p + n| - 1] == p + m;
      NombreFicheroTras(p, m);
      assert n == m + [n[|n| - 1]];
    } else {
      assert p + n == p;
    }
  }

  /** The last '.' of a name is at `k` when there is one at `k` and none
      after it. */
  lemma {:induction false} UltimoPuntoEn(n: string, k: nat)
    requires k < |n| && n[k] == '.' && forall j :: k < j < |n| ==> n[j] != '.'
    ensures UltimoPunto(n) == Some(k)
    decreases |n|
  {
    if n[|n| - 1] != '.' {
      UltimoPuntoEn(n[..|n| - 1], k);
    }
  }

  /** A name made of a prefix without '.' and an extension has that
      extension. */
  lemma ExtensionTras(p: string, e: string)
    requires '.' !in p
    requires e == [] || (e[0] == '.' && |e| >= 2 && '.' !in e[1..])
    ensures ExtensionDe(p + e) == e
  {
    if e == [] {
      assert p + e == p;
    } else {
      var n := p + e;
      forall j | |p| < j < |n|
        ensures n[j] != '.'
      {
        assert n[j] == e[1..][j - |p| - 1];
      }
      UltimoPuntoEn(n, |p|);
      assert n[|p|..] == e;
    }
  }

  /** The characters of the generated name before the extension are digits,
      '-', '_' or lower-case hexadecimal: never '.' nor the separator. */
  lemma PrefijoSinPunto(idComercio: int, f: FechaHora, guid: string)
    requires GuidN(guid)
    ensures var q := IntToString(idComercio) + "_" + Sello(f) + "_" + guid[..8];
      '.' !in q && Separador !in q
  {
    var a := IntToString(idComercio);
    var q := a + "_" + Sello(f) + "_" + guid[..8];
    var st := Sello(f);
    forall i | 0 <= i < |q|
      ensures q[i] != '.' && q[i] != Separador
    {
      if i < |a| {
        assert q[i] == a[i];
      } else if i == |a| || i == |a| + 16 {
      } else if i < |a| + 16 {
        assert q[i] == st[i - |a| - 1];
        if i - |a| - 1 < 8 {
          assert st[..8][i - |a| - 1] == st[i - |a| - 1];
        } else if i - |a| - 1 > 8 {
          assert st[9..][i - |a| - 10] == st[i - |a| - 1];
        }
      } else {
        assert q[i] == guid[i - |a| - 17];
      }
    }
  }

  /** The extension of a path has the shape of one and no separator. */
  lemma ExtensionSinSeparador(ruta: string)
    ensures var e := Extension(ruta);
      && Separador !in e
      && (e == [] || (e[0] == '.' && |e| >= 2 && '.' !in e[1..]))
  {
    var nf := NombreFichero(ruta);
    ExtensionDeForma(nf);
    SufijoSin(nf, ExtensionDe(nf), Separador);
  }

  /** A suffix of a text lacks every character the text lacks. */
  lemma SufijoSin(s: string, e: string, c: char)
    requires |e| <= |s| && e == s[|s| - |e|..] && c !in s
    ensures c !in e
  {
    forall i | 0 <= i < |e|
      ensures e[i] != c
    {
      assert e[i] == s[|s| - |e| + i];
    }
  }

  /** The stored file keeps the extension of the original, and its file
      name is the generated name. */
  lemma RutaDestinoConserva(idComercio: int, f: FechaHora, guid: string, rutaLocal: string)
    requires GuidN(guid)
    ensures var nombre := NombreUnico(idComercio, f, guid, Extension(rutaLocal));
      && NombreFichero(RutaDestino(nombre)) == nombre
      && Extension(RutaDestino(nombre)) == Extension(rutaLocal)
  {
    var e := Extension(rutaLocal);
    var q := IntToString(idComercio) + "_" + Sello(f) + "_" + guid[..8];
    var nombre := NombreUnico(idComercio, f, guid, e);
    assert nombre == q + e;
    PrefijoSinPunto(idComercio, f, guid);
    ExtensionSinSeparador(rutaLocal);
    assert Separador !in nombre;
    NombreFicheroTras(CarpetaArchivos + [Separador], nombre);
    ExtensionTras(q, e);
  }

  // ---------------------------------------------------------------------
  // Queries on the attachment rows

  /** The rows the listing selects. */
  function Listable(idComercio: int): Archivo -> bool
  {
    (a: Archivo) => a.idComercio == idComercio && a.activo
  }

  /** `ORDER BY fecha_subida DESC`. */
  predicate MasReciente(a: Archivo, b: Archivo)
  {
    a.fechaSubida >= b.fechaSubida
  }

  /** The rows of the listing query, in the order it returns them. */
  function Listado(t: Tablas, idComercio: int): seq<Archivo>
  {
    SortBy(Filter(t.archivos, Listable(idComercio)), MasReciente)
  }

  /** The listing holds exactly the active rows of the commerce, each as
      often as in the table, newest first. */
  lemma ListadoCorrecto(t: Tablas, idComercio: int)
    ensures Sorted(Listado(t, idComercio), MasReciente)
    ensures multiset(Listado(t, idComercio)) == multiset(Filter(t.archivos, Listable(idComercio)))
    ensures forall a :: a in Listado(t, idComercio) <==> a in t.archivos && a.idComercio == idComercio && a.activo
  {
    assert TotalPreorder(MasReciente);
    SortByCorrect(Filter(t.archivos, Listable(idComercio)), MasReciente);
    SortByMembers(Filter(t.archivos, Listable(idComercio)), MasReciente);
  }

  /** The number of rows a reader that stops after `corte` rows (when it
      fails) delivers out of `n`. */
  function Leidas(n: nat, corte: Option<nat>): (r: nat)
    ensures r <= n
    ensures corte.None? ==> r == n
  {
    if corte.Some? && corte.value < n then corte.value else n
  }

  /** `SELECT ruta_archivo … WHERE id_archivo = @Id` read with
      `ExecuteScalar`: the path of the first row with that id. */
  function RutaDe(s: seq<Archivo>, id: int): (r: Option<string>)
    ensures r.None? <==> forall i :: 0 <= i < |s| ==> s[i].idArchivo != id
    ensures r.Some? ==> exists i :: 0 <= i < |s| && s[i].idArchivo == id && s[i].rutaArchivo == r.value
  {
    if s == [] then None
    else if s[0].idArchivo == id then Some(s[0].rutaArchivo)
    else
      var r := RutaDe(s[1..], id);
      assert forall i :: 0 < i < |s| ==> s[i] == s[1..][i - 1];
      r
  }

  /** The same query restricted to `activo = true`. */
  function RutaActiva(s: seq<Archivo>, id: int): (r: Option<string>)
    ensures r.None? <==> forall i :: 0 <= i < |s| ==> !(s[i].idArchivo == id && s[i].activo)
    ensures r.Some? ==> exists i :: 0 <= i < |s| && s[i].idArchivo == id && s[i].activo && s[i].rutaArchivo == r.value
  {
    if s == [] then None
    else if s[0].idArchivo == id && s[0].activo then Some(s[0].rutaArchivo)
    else
      var r := RutaActiva(s[1..], id);
      assert forall i :: 0 < i < |s| ==> s[i] == s[1..][i - 1];
      r
  }

  /** Soft deletion keeps every path. */
  lemma {:induction false} RutaDeDesactivar(s: seq<Archivo>, id: int, x: int)
    ensures RutaDe(Desactivar(s, id), x) == RutaDe(s, x)
  {
    if s != [] {
      assert Desactivar(s, id)[1..] == Desactivar(s[1..], id);
      RutaDeDesactivar(s[1..], id, x);
    }
  }

  // ---------------------------------------------------------------------
  // Deleting one attachment

  /** Where `EliminarArchivo` may throw: opening the connection, deleting
      the physical file, or running the `UPDATE`. */
  datatype FallaBorrado = SinFalla | FallaConexion | FallaFichero | FallaUpdate

  /** The result of a delete and the tables and folder it leaves. */
  datatype Efecto = Efecto(ok: bool, tablas: Tablas, disco: map<string, nat>)

  /** `EliminarArchivo`: the path comes from any row with the id, active or
      not; the physical file is deleted only when the path is non-empty and
      exists; then the row is marked inactive, and the result says whether a
      row was reached. Any exception gives `false`. */
  function EfectoBorrar(t: Tablas, d: map<string, nat>, id: int, f: FallaBorrado): Efecto
  {
    if f == FallaConexion then Efecto(false, t, d)
    else
      var ruta := RutaDe(t.archivos, id);
      var borra := ruta.Some? && ruta.value != [] && ruta.value in d;
      if borra && f == FallaFichero then Efecto(false, t, d)
      else
        var d2 := if borra then d - {ruta.value} else d;
        if f == FallaUpdate then Efecto(false, t, d2)
        else Efecto(FilasArchivo(t.archivos, id) > 0, t.(archivos := Desactivar(t.archivos, id)), d2)
  }

  /** Without a fault the result says whether a row with the id exists;
      afterwards no such row is active and every other row is kept. */
  lemma BorrarSinFalla(t: Tablas, d: map<string, nat>, id: int)
    ensures var e := EfectoBorrar(t, d, id, SinFalla);
      && (e.ok <==> exists i :: 0 <= i < |t.archivos| && t.archivos[i].idArchivo == id)
      && |e.tablas.archivos| == |t.archivos|
      && (forall i :: 0 <= i < |t.archivos| ==>
            e.tablas.archivos[i] == if t.archivos[i].idArchivo == id then t.archivos[i].(activo := false) else t.archivos[i])
      && e.tablas.(archivos := t.archivos) == t
  {
  }

  /** Under unique ids, a delete without a fault removes the file of the
      row with that id, when its path is not empty, and no other file. */
  lemma BorrarSinFallaFichero(t: Tablas, d: map<string, nat>, id: int, i: nat)
    requires forall j, k :: 0 <= j < k < |t.archivos| ==> t.archivos[j].idArchivo != t.archivos[k].idArchivo
    requires i < |t.archivos| && t.archivos[i].idArchivo == id && t.archivos[i].rutaArchivo != []
    ensures EfectoBorrar(t, d, id, SinFalla).disco == d - {t.archivos[i].rutaArchivo}
  {
    RutaDeUnica(t.archivos, id, i);
    var ruta := t.archivos[i].rutaArchivo;
    if ruta !in d {
      assert d - {ruta} == d;
    }
  }

  /** Under unique ids, the path read for an id is the path of its row. */
  lemma {:induction false} RutaDeUnica(s: seq<Archivo>, id: int, i: nat)
    requires forall j, k :: 0 <= j < k < |s| ==> s[j].idArchivo != s[k].idArchivo
    requires i < |s| && s[i].idArchivo == id
    ensures RutaDe(s, id) == Some(s[i].rutaArchivo)
  {
    if i > 0 {
      assert s[0].idArchivo != id;
      RutaDeUnica(s[1..], id, i - 1);
    }
  }

  /** The missing physical file is tolerated: without a fault the delete
      still reaches the row and leaves the folder as it was. */
  lemma BorrarToleraFaltante(t: Tablas, d: map<string, nat>, id: int)
    requires RutaDe(t.archivos, id).None? || RutaDe(t.archivos, id).value !in d
    ensures var e := EfectoBorrar(t, d, id, SinFalla);
      && e.disco == d
      && (e.ok <==> exists i :: 0 <= i < |t.archivos| && t.archivos[i].idArchivo == id)
  {
  }

  /** A repeated delete changes nothing more and, the `UPDATE` having no
      `activo` filter, returns the same result: `true` for an existing
      row. */
  lemma BorrarRepetido(t: Tablas, d: map<string, nat>, id: int)
    ensures var e1 := EfectoBorrar(t, d, id, SinFalla);
      var e2 := EfectoBorrar(e1.tablas, e1.disco, id, SinFalla);
      e2 == e1
  {
    var e1 := EfectoBorrar(t, d, id, SinFalla);
    RutaDeDesactivar(t.archivos, id, id);
    DesactivarIdempotente(t.archivos, id);
    FilasArchivoDesactivar(t.archivos, id);
    var ruta := RutaDe(t.archivos, id);
    if ruta.Some? && ruta.value != [] && ruta.value in d {
      assert ruta.value !in e1.disco;
    } else {
      assert e1.disco == d;
    }
  }

  /** Soft-deleting twice is soft-deleting once. */
  lemma DesactivarIdempotente(s: seq<Archivo>, id: int)
    ensures Desactivar(Desactivar(s, id), id) == Desactivar(s, id)
  {
    var r := Desactivar(s, id);
    assert forall i :: 0 <= i < |r| ==> Desactivar(r, id)[i] == r[i];
  }

  /** Soft deletion keeps the keys, so an `UPDATE` by key reaches as many
      rows before and after it. */
  lemma FilasArchivoDesactivar(s: seq<Archivo>, id: int)
    ensures FilasArchivo(Desactivar(s, id), id) > 0 <==> FilasArchivo(s, id) > 0
  {
    var r := Desactivar(s, id);
    assert forall i :: 0 <= i < |s| ==> r[i].idArchivo == s[i].idArchivo;
  }

  /** The physical delete is attempted only for a non-empty path that
      exists; when it is not, a fault there cannot happen and the delete
      runs as without one. */
  lemma FallaFicheroSinFichero(t: Tablas, d: map<string, nat>, id: int)
    requires RutaDe(t.archivos, id).None? || RutaDe(t.archivos, id).value == [] || RutaDe(t.archivos, id).value !in d
    ensures EfectoBorrar(t, d, id, FallaFichero) == EfectoBorrar(t, d, id, SinFalla)
  {
  }

  /** A fault that happens gives `false` and leaves the rows as they were,
      so a failed physical delete leaves the row active; only a failed
      `UPDATE` comes after the file was deleted. */
  lemma BorrarConFalla(t: Tablas, d: map<string, nat>, id: int, f: FallaBorrado)
    requires f == FallaConexion || f == FallaUpdate
      || (f == FallaFichero && RutaDe(t.archivos, id).Some? && RutaDe(t.archivos, id).value != []
          && RutaDe(t.archivos, id).value in d)
    ensures var e := EfectoBorrar(t, d, id, f);
      && !e.ok && e.tablas == t
      && (f != FallaUpdate ==> e.disco == d)
  {
  }

  // ---------------------------------------------------------------------
  // Deleting all attachments of a commerce

  /** The fault injected into the `k`-th delete; none past the end. */
  function FallaDe(fallas: seq<FallaBorrado>, k: nat): FallaBorrado
  {
    if k < |fallas| then fallas[k] else SinFalla
  }

  /** The ids of the listed rows, in order. */
  function Ids(s: seq<Archivo>): (r: seq<int>)
    ensures |r| == |s| && forall i :: 0 <= i < |s| ==> r[i] == s[i].idArchivo
  {
    if s == [] then [] else [s[0].idArchivo] + Ids(s[1..])
  }

  /** The number of successful deletes and the final state. */
  datatype Lote = Lote(n: nat, tablas: Tablas, disco: map<string, nat>)

  /** The deletes of `ids[k..]`, one after another, the `j`-th with the
      fault `FallaDe(fallas, j)`, counting those that returned `true`. */
  function BorrarDesde(t: Tablas, d: map<string, nat>, ids: seq<int>, fallas: seq<FallaBorrado>, k: nat): Lote
    decreases |ids| - k
  {
    if k >= |ids| then Lote(0, t, d)
    else
      var e := EfectoBorrar(t, d, ids[k], FallaDe(fallas, k));
      var r := BorrarDesde(e.tablas, e.disco, ids, fallas, k + 1);
      Lote((if e.ok then 1 else 0) + r.n, r.tablas, r.disco)
  }

  /** One delete, then the rest. */
  lemma BorrarDesdePaso(t: Tablas, d: map<string, nat>, ids: seq<int>, fallas: seq<FallaBorrado>, k: nat)
    requires k < |ids|
    ensures var e := EfectoBorrar(t, d, ids[k], FallaDe(fallas, k));
      var r := BorrarDesde(e.tablas, e.disco, ids, fallas, k + 1);
      BorrarDesde(t, d, ids, fallas, k) == Lote((if e.ok then 1 else 0) + r.n, r.tablas, r.disco)
  {
  }

  /** The count never exceeds the number of listed rows. */
  lemma {:induction false} BorrarDesdeAcotado(t: Tablas, d: map<string, nat>, ids: seq<int>, fallas: seq<FallaBorrado>, k: nat)
    requires k <= |ids|
    ensures BorrarDesde(t, d, ids, fallas, k).n <= |ids| - k
    decreases |ids| - k
  {
    if k < |ids| {
      var e := EfectoBorrar(t, d, ids[k], FallaDe(fallas, k));
      BorrarDesdeAcotado(e.tablas, e.disco, ids, fallas, k + 1);
    }
  }

  /** No fault is injected from `k` on. */
  predicate SinFallasDesde(fallas: seq<FallaBorrado>, k: nat)
  {
    forall j :: k <= j < |fallas| ==> fallas[j] == SinFalla
  }

  /** What the bulk delete keeps of each row: its key, its commerce, and
      an `activo` flag that can only be cleared. */
  ghost predicate SoloDesactiva(t: Tablas, u: Tablas)
  {
    && u.(archivos := t.archivos) == t
    && |u.archivos| == |t.archivos|
    && forall i :: 0 <= i < |t.archivos| ==>
         u.archivos[i] == t.archivos[i] || u.archivos[i] == t.archivos[i].(activo := false)
  }

  lemma SoloDesactivaTransitiva(t: Tablas, m: Tablas, u: Tablas)
    requires SoloDesactiva(t, m) && SoloDesactiva(m, u)
    ensures SoloDesactiva(t, u)
  {
    forall i | 0 <= i < |t.archivos|
      ensures u.archivos[i] == t.archivos[i] || u.archivos[i] == t.archivos[i].(activo := false)
    {
    }
  }

  /** A single delete, faulty or not, at most clears `activo` flags. */
  lemma EfectoSoloDesactiva(t: Tablas, d: map<string, nat>, id: int, falla: FallaBorrado)
    ensures SoloDesactiva(t, EfectoBorrar(t, d, id, falla).tablas)
  {
    if EfectoBorrar(t, d, id, falla).tablas != t {
      BorrarSinFalla(t, d, id);
    }
  }

  /** Deletes only clear `activo` flags. */
  lemma {:induction false} BorrarDesdeSoloDesactiva(t: Tablas, d: map<string, nat>, ids: seq<int>, fallas: seq<FallaBorrado>, k: nat)
    requires k <= |ids|
    ensures SoloDesactiva(t, BorrarDesde(t, d, ids, fallas, k).tablas)
    decreases |ids| - k
  {
    if k < |ids| {
      var e := EfectoBorrar(t, d, ids[k], FallaDe(fallas, k));
      EfectoSoloDesactiva(t, d, ids[k], FallaDe(fallas, k));
      BorrarDesdeSoloDesactiva(e.tablas, e.disco, ids, fallas, k + 1);
      SoloDesactivaTransitiva(t, e.tablas, BorrarDesde(t, d, ids, fallas, k).tablas);
    } else {
      assert t.(archivos := t.archivos) == t;
    }
  }

  /** Without faults, every row whose id is among the remaining ones ends
      up inactive. */
  lemma {:induction false} BorrarDesdeApaga(t: Tablas, d: map<string, nat>, ids: seq<int>, fallas: seq<FallaBorrado>, k: nat)
    requires k <= |ids| && SinFallasDesde(fallas, k)
    ensures |BorrarDesde(t, d, ids, fallas, k).tablas.archivos| == |t.archivos|
    ensures forall i :: 0 <= i < |t.archivos| && t.archivos[i].idArchivo in ids[k..] ==>
      !BorrarDesde(t, d, ids, fallas, k).tablas.archivos[i].activo
    decreases |ids| - k
  {
    BorrarDesdeSoloDesactiva(t, d, ids, fallas, k);
    if k < |ids| {
      assert FallaDe(fallas, k) == SinFalla;
      var e := EfectoBorrar(t, d, ids[k], SinFalla);
      BorrarDesdePaso(t, d, ids, fallas, k);
      var u := BorrarDesde(e.tablas, e.disco, ids, fallas, k + 1).tablas;
      assert BorrarDesde(t, d, ids, fallas, k).tablas == u;
      BorrarSinFalla(t, d, ids[k]);
      BorrarDesdeApaga(e.tablas, e.disco, ids, fallas, k + 1);
      BorrarDesdeSoloDesactiva(e.tablas, e.disco, ids, fallas, k + 1);
      ApagaPaso(t.archivos, e.tablas.archivos, u.archivos, ids, k);
    }
  }

  /** One step of `BorrarDesdeApaga`: the delete of `ids[k]` turns off its
      rows, the later deletes turn off those of `ids[k + 1..]` and turn
      nothing back on. */
  lemma ApagaPaso(a: seq<Archivo>, b: seq<Archivo>, c: seq<Archivo>, ids: seq<int>, k: nat)
    requires k < |ids| && |b| == |a| && |c| == |a|
    requires forall i :: 0 <= i < |a| ==>
      b[i] == if a[i].idArchivo == ids[k] then a[i].(activo := false) else a[i]
    requires forall i :: 0 <= i < |b| ==> c[i] == b[i] || c[i] == b[i].(activo := false)
    requires forall i :: 0 <= i < |b| && b[i].idArchivo in ids[k + 1..] ==> !c[i].activo
    ensures forall i :: 0 <= i < |a| && a[i].idArchivo in ids[k..] ==> !c[i].activo
  {
    forall i | 0 <= i < |a| && a[i].idArchivo in ids[k..]
      ensures !c[i].activo
    {
      if a[i].idArchivo != ids[k] {
        var j :| k <= j < |ids| && ids[j] == a[i].idArchivo;
        assert ids[k + 1..][j - k - 1] == ids[j];
      }
    }
  }

  /** Without faults every delete of an existing row returns `true`. */
  lemma {:induction false} BorrarDesdeCompleto(t: Tablas, d: map<string, nat>, ids: seq<int>, fallas: seq<FallaBorrado>, k: nat)
    requires k <= |ids| && SinFallasDesde(fallas, k)
    requires forall j :: k <= j < |ids| ==> exists i :: 0 <= i < |t.archivos| && t.archivos[i].idArchivo == ids[j]
    ensures BorrarDesde(t, d, ids, fallas, k).n == |ids| - k
    decreases |ids| - k
  {
    if k < |ids| {
      var e := EfectoBorrar(t, d, ids[k], SinFalla);
      BorrarSinFalla(t, d, ids[k]);
      forall j | k + 1 <= j < |ids|
        ensures exists i :: 0 <= i < |e.tablas.archivos| && e.tablas.archivos[i].idArchivo == ids[j]
      {
        var i :| 0 <= i < |t.archivos| && t.archivos[i].idArchivo == ids[j];
        assert e.tablas.archivos[i].idArchivo == ids[j];
      }
      BorrarDesdeCompleto(e.tablas, e.disco, ids, fallas, k + 1);
    }
  }

  /** The rows listed are exactly the active rows of the commerce. */
  lemma ListadoMiembros(t: Tablas, idComercio: int)
    ensures forall a :: a in Listado(t, idComercio) <==> a in t.archivos && a.idComercio == idComercio && a.activo
  {
    ListadoCorrecto(t, idComercio);
  }

  /** Without faults every listed row is deleted with success. */
  lemma BorrarTodoCuenta(t: Tablas, d: map<string, nat>, idComercio: int, fallas: seq<FallaBorrado>)
    requires SinFallasDesde(fallas, 0)
    ensures var ids := Ids(Listado(t, idComercio));
      BorrarDesde(t, d, ids, fallas, 0).n == |ids|
  {
    var lista := Listado(t, idComercio);
    var ids := Ids(lista);
    ListadoMiembros(t, idComercio);
    forall j | 0 <= j < |ids|
      ensures exists i :: 0 <= i < |t.archivos| && t.archivos[i].idArchivo == ids[j]
    {
      assert lista[j] in t.archivos;
    }
    BorrarDesdeCompleto(t, d, ids, fallas, 0);
  }

  /** Without faults no active attachment of the commerce is left. */
  lemma BorrarTodoApaga(t: Tablas, d: map<string, nat>, idComercio: int, fallas: seq<FallaBorrado>)
    requires SinFallasDesde(fallas, 0)
    ensures var l := BorrarDesde(t, d, Ids(Listado(t, idComercio)), fallas, 0);
      forall a :: a in l.tablas.archivos ==> !(a.idComercio == idComercio && a.activo)
  {
    var lista := Listado(t, idComercio);
    var ids := Ids(lista);
    var l := BorrarDesde(t, d, ids, fallas, 0);
    ListadoMiembros(t, idComercio);
    BorrarDesdeApaga(t, d, ids, fallas, 0);
    BorrarDesdeSoloDesactiva(t, d, ids, fallas, 0);
    forall i | 0 <= i < |t.archivos|
      ensures !(l.tablas.archivos[i].idComercio == idComercio && l.tablas.archivos[i].activo)
    {
      var a := t.archivos[i];
      if a.idComercio == idComercio && a.activo {
        var j :| 0 <= j < |lista| && lista[j] == a;
        assert ids[j] == a.idArchivo;
        assert ids[0..] == ids;
      }
    }
  }

  /** After a complete listing and no fault, the commerce has no active
      attachment left, and the count is the number of rows listed. */
  lemma BorrarTodoSinFallas(t: Tablas, d: map<string, nat>, idComercio: int, fallas: seq<FallaBorrado>)
    requires SinFallasDesde(fallas, 0)
    ensures var ids := Ids(Listado(t, idComercio));
      var l := BorrarDesde(t, d, ids, fallas, 0);
      && l.n == |ids|
      && forall a :: a in l.tablas.archivos ==> !(a.idComercio == idComercio && a.activo)
  {
    BorrarTodoCuenta(t, d, idComercio, fallas);
    BorrarTodoApaga(t, d, idComercio, fallas);
  }

  // ---------------------------------------------------------------------
  // Uploading

  /** Where `SubirArchivo` may throw after the existence check: the copy,
      or the connection and the `INSERT`. */
  datatype FallaSubida = SubidaSinFalla | FallaCopia | FallaInsert

  /** The exception `SubirArchivo` rethrows. */
  datatype ErrorSubida = NoEncontrado | ErrorCopia | ErrorInsert

  /** The row `SubirArchivo` inserts for a source of `tamano` bytes, before
      the database assigns its key and upload time. */
  function FilaSubida(idComercio: int, rutaLocal: string, descripcion: Option<string>, usuario: string,
                      f: FechaHora, guid: string, tamano: nat): Archivo
    requires GuidN(guid)
  {
    var nombre := NombreUnico(idComercio, f, guid, Extension(rutaLocal));
    Archivo(0, idComercio, nombre, NombreFichero(rutaLocal), Some(ObtenerTipoMime(Extension(rutaLocal))),
            Some(tamano), RutaDestino(nombre), descripcion, 0, Some(usuario), true)
  }

  /** The inserted row points at a file of the storage folder whose file
      name is the stored name, and that file keeps the extension of the
      source. */
  lemma FilaSubidaRuta(idComercio: int, rutaLocal: string, descripcion: Option<string>, usuario: string,
                       f: FechaHora, guid: string, tamano: nat)
    requires GuidN(guid)
    ensures var a := FilaSubida(idComercio, rutaLocal, descripcion, usuario, f, guid, tamano);
      && a.rutaArchivo[..|CarpetaArchivos| + 1] == CarpetaArchivos + [Separador]
      && NombreFichero(a.rutaArchivo) == a.nombreArchivo
      && Extension(a.rutaArchivo) == Extension(rutaLocal)
  {
    RutaDestinoConserva(idComercio, f, guid, rutaLocal);
  }

  /** The stored name starts with the commerce id and a '_'; the original
      name is the last component of the source path; the type is the
      generic one exactly when the extension is not a known one. */
  lemma FilaSubidaNombres(idComercio: int, rutaLocal: string, descripcion: Option<string>, usuario: string,
                          f: FechaHora, guid: string, tamano: nat)
    requires GuidN(guid)
    ensures var a := FilaSubida(idComercio, rutaLocal, descripcion, usuario, f, guid, tamano);
      && a.nombreArchivo[..|IntToString(idComercio)| + 1] == IntToString(idComercio) + "_"
      && rutaLocal[|rutaLocal| - |a.nombreOriginal|..] == a.nombreOriginal && Separador !in a.nombreOriginal
      && (a.tipoArchivo.value != Generico <==> ToLower(Extension(rutaLocal)) in Reconocidas)
  {
    var e := Extension(rutaLocal);
    var a := FilaSubida(idComercio, rutaLocal, descripcion, usuario, f, guid, tamano);
    assert a.nombreArchivo == NombreUnico(idComercio, f, guid, e);
    assert a.nombreOriginal == NombreFichero(rutaLocal);
    assert a.tipoArchivo.value == ObtenerTipoMime(e);
    NombreUnicoEmpiezaPorId(idComercio, f, guid, e);
    TipoMimeGenerico(e);
  }

  /** The stored name starts with the commerce id and a '_'. */
  lemma NombreUnicoEmpiezaPorId(idComercio: int, f: FechaHora, guid: string, extension: string)
    requires GuidN(guid)
    ensures var a := IntToString(idComercio);
      NombreUnico(idComercio, f, guid, extension)[..|a| + 1] == a + "_"
  {
    NombreUnicoPartes(idComercio, f, guid, extension);
    var a := IntToString(idComercio);
    var r := NombreUnico(idComercio, f, guid, extension);
    assert r[..|a| + 1] == r[..|a|] + [r[|a|]];
  }

  // ---------------------------------------------------------------------
  // The service

  /** `ArchivoService`: every call works on the database and the folder it
      is given. Creating the storage folder is not modelled. */
  class ArchivoService {
    const db: BaseDatos
    const disco: Carpeta

    constructor (db: BaseDatos, disco: Carpeta)
      ensures this.db == db && this.disco == disco
    {
      this.db := db;
      this.disco := disco;
    }

    /** `ObtenerArchivosPorComercio`: the rows of the listing query, read one
        by one; a reader that fails after `corte` rows ends the loop and the
        rows read so far are returned. */
    method ObtenerArchivosPorComercio(idComercio: int, corte: Option<nat>) returns (archivos: seq<Archivo>)
      ensures var l := Listado(db.tablas, idComercio);
        archivos == l[..Leidas(|l|, corte)]
      ensures corte.None? ==> archivos == Listado(db.tablas, idComercio)
      ensures Sorted(archivos, MasReciente)
      ensures forall a :: a in archivos ==> a in db.tablas.archivos && a.idComercio == idComercio && a.activo
    {
      var filas := Listado(db.tablas, idComercio);
      ListadoCorrecto(db.tablas, idComercio);
      var n := Leidas(|filas|, corte);
      archivos := [];
      var i := 0;
      while i < n
        invariant 0 <= i <= n && archivos == filas[..i]
      {
        TakeStep(filas, i);
        archivos := archivos + [filas[i]];
        i := i + 1;
      }
      assert forall a :: a in archivos ==> a in filas;
    }

    /** `SubirArchivo` with the clock (`ahora`), the random digits (`guid`),
        the server's time stamp and the point where it throws given. A
        missing source throws before anything is done; otherwise the file is
        copied under the generated name, and the row is inserted with the
        copy's size and the MIME type of the extension. A failed insert
        leaves the copied file in place. */
    method SubirArchivo(idComercio: int, rutaLocal: string, descripcion: Option<string>, usuario: string,
                        ahora: FechaHora, guid: string, horaServidor: int, falla: FallaSubida)
      returns (r: Result<int, ErrorSubida>)
      requires db.Valid() && GuidN(guid)
      modifies db, disco
      ensures db.Valid()
      ensures rutaLocal !in old(disco.ficheros) ==>
        r == Failure(NoEncontrado) && db.tablas == old(db.tablas) && disco.ficheros == old(disco.ficheros)
      ensures rutaLocal in old(disco.ficheros) && falla == FallaCopia ==>
        r == Failure(ErrorCopia) && db.tablas == old(db.tablas) && disco.ficheros == old(disco.ficheros)
      ensures rutaLocal in old(disco.ficheros) && falla != FallaCopia ==>
        var destino := RutaDestino(NombreUnico(idComercio, ahora, guid, Extension(rutaLocal)));
        disco.ficheros == old(disco.ficheros)[destino := old(disco.ficheros)[rutaLocal]]
      ensures rutaLocal in old(disco.ficheros) && falla == FallaInsert ==>
        r == Failure(ErrorInsert) && db.tablas == old(db.tablas)
      ensures rutaLocal in old(disco.ficheros) && falla == SubidaSinFalla ==>
        && r == Success(old(db.siguienteArchivo))
        && db.tablas == old(db.tablas).(archivos := old(db.tablas.archivos)
             + [FilaSubida(idComercio, rutaLocal, descripcion, usuario, ahora, guid, old(disco.ficheros)[rutaLocal])
                  .(idArchivo := r.value, fechaSubida := horaServidor)])
      ensures db.siguienteArchivo == old(db.siguienteArchivo) + (if r.Success? then 1 else 0)
      ensures r.Success? <==> rutaLocal in old(disco.ficheros) && falla == SubidaSinFalla
      ensures db.siguienteComercio == old(db.siguienteComercio) && db.siguienteLocal == old(db.siguienteLocal)
    {
      if rutaLocal !in disco.ficheros {
        return Failure(NoEncontrado);
      }
      var extension := Extension(rutaLocal);
      var destino := RutaDestino(NombreUnico(idComercio, ahora, guid, extension));
      if falla == FallaCopia {
        return Failure(ErrorCopia);
      }
      disco.Copiar(rutaLocal, destino);
      var tamano := disco.ficheros[destino];
      if falla == FallaInsert {
        return Failure(ErrorInsert);
      }
      var id := db.InsertarArchivo(FilaSubida(idComercio, rutaLocal, descripcion, usuario, ahora, guid, tamano), horaServidor);
      r := Success(id);
    }

    /** `EliminarArchivo`, throwing at `falla`. */
    method EliminarArchivo(idArchivo: int, falla: FallaBorrado) returns (ok: bool)
      requires db.Valid()
      modifies db`tablas, disco
      ensures db.Valid()
      ensures var e := EfectoBorrar(old(db.tablas), old(disco.ficheros), idArchivo, falla);
        ok == e.ok && db.tablas == e.tablas && disco.ficheros == e.disco
    {
      if falla == FallaConexion {
        return false;
      }
      var ruta := RutaDe(db.tablas.archivos, idArchivo);
      if ruta.Some? && ruta.value != [] && ruta.value in disco.ficheros {
        if falla == FallaFichero {
          return false;
        }
        disco.Borrar(ruta.value);
      }
      ok := MarcarInactivo(idArchivo, falla == FallaUpdate);
    }

    /** The `UPDATE … SET activo = false` of `EliminarArchivo`, which throws
        when `falla` holds; the result says whether a row was reached. */
    method MarcarInactivo(idArchivo: int, falla: bool) returns (ok: bool)
      requires db.Valid()
      modifies db`tablas
      ensures db.Valid()
      ensures falla ==> !ok && db.tablas == old(db.tablas)
      ensures !falla ==>
        ok == (FilasArchivo(old(db.tablas.archivos), idArchivo) > 0)
        && db.tablas == old(db.tablas).(archivos := Desactivar(old(db.tablas.archivos), idArchivo))
    {
      if falla {
        return false;
      }
      var filas := db.DesactivarArchivo(idArchivo);
      ok := filas > 0;
    }

    /** `ObtenerRutaArchivo`: the path of an active row with the id, `null`
        when there is none or the query fails. Nothing changes. */
    method ObtenerRutaArchivo(idArchivo: int, falla: bool) returns (r: Option<string>)
      ensures r == if falla then None else RutaActiva(db.tablas.archivos, idArchivo)
      ensures r.Some? ==>
        exists i :: 0 <= i < |db.tablas.archivos| && db.tablas.archivos[i].idArchivo == idArchivo
          && db.tablas.archivos[i].activo && db.tablas.archivos[i].rutaArchivo == r.value
    {
      if falla {
        return None;
      }
      r := RutaActiva(db.tablas.archivos, idArchivo);
    }

    /** `EliminarArchivosDeComercio`: lists the active attachments (the
        reader failing after `corte` rows) and deletes each, the `k`-th
        throwing at `FallaDe(fallas, k)`, counting the deletes that returned
        `true`. Neither call throws, so the method always returns the
        count. */
    method EliminarArchivosDeComercio(idComercio: int, corte: Option<nat>, fallas: seq<FallaBorrado>)
      returns (eliminados: nat)
      requires db.Valid()
      modifies db`tablas, disco
      ensures db.Valid()
      ensures var l := old(Listado(db.tablas, idComercio));
        var ids := Ids(l[..Leidas(|l|, corte)]);
        var lote := BorrarDesde(old(db.tablas), old(disco.ficheros), ids, fallas, 0);
        eliminados == lote.n && db.tablas == lote.tablas && disco.ficheros == lote.disco
      ensures eliminados <= Leidas(|old(Listado(db.tablas, idComercio))|, corte)
    {
      var archivos := ObtenerArchivosPorComercio(idComercio, corte);
      BorrarDesdeAcotado(db.tablas, disco.ficheros, Ids(archivos), fallas, 0);
      eliminados := BorrarLote(archivos, fallas);
    }

    /** The counting loop of `EliminarArchivosDeComercio`: each listed
        attachment is deleted in list order, the `i`-th with the fault
        `FallaDe(fallas, i)`, and the `true` results are counted. */
    method BorrarLote(archivos: seq<Archivo>, fallas: seq<FallaBorrado>) returns (eliminados: nat)
      requires db.Valid()
      modifies db`tablas, disco
      ensures db.Valid()
      ensures var lote := BorrarDesde(old(db.tablas), old(disco.ficheros), Ids(archivos), fallas, 0);
        eliminados == lote.n && db.tablas == lote.tablas && disco.ficheros == lote.disco
    {
      ghost var ids := Ids(archivos);
      ghost var t0, d0 := db.tablas, disco.ficheros;
      eliminados := 0;
      var i := 0;
      while i < |archivos|
        invariant 0 <= i <= |archivos|
        invariant db.Valid()
        invariant var resto := BorrarDesde(db.tablas, disco.ficheros, ids, fallas, i);
          BorrarDesde(t0, d0, ids, fallas, 0) == Lote(eliminados + resto.n, resto.tablas, resto.disco)
      {
        BorrarDesdePaso(db.tablas, disco.ficheros, ids, fallas, i);
        var ok := EliminarArchivo(archivos[i].idArchivo, FallaDe(fallas, i));
        if ok {
          eliminados := eliminados + 1;
        }
        i := i + 1;
      }
    }
  }
}
