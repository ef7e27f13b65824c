/** An attachment of a commerce (`ArchivoComercioModel`) and the texts the
    user interface derives from it: the size label, the icon and the
    tooltip. */
module ArchivoModel {
  import opened Wrappers
  import opened Text

  /** One row of `archivos_comercios`. `fechaSubida` is a timestamp in
      seconds; the size is a nullable 64-bit count of bytes. */
  datatype Archivo = Archivo(
    idArchivo: int,
    idComercio: int,
    nombreArchivo: string,
    nombreOriginal: string,
    tipoArchivo: Option<string>,
    tamanoBytes: Option<int>,
    rutaArchivo: string,
    descripcion: Option<string>,
    fechaSubida: int,
    subidoPor: Option<string>,
    activo: bool)

  // ---------------------------------------------------------------------
  // Size label

  datatype Unidad = B | KB | MB | GB

  /** Bytes per unit. */
  function Escala(u: Unidad): (r: int)
    ensures r >= 1
  {
    match u
    case B => 1
    case KB => 1024
    case MB => 1024 * 1024
    case GB => 1024 * 1024 * 1024
  }

  /** The choice `TamanoFormateado` makes: no size, or the byte count and
      the unit it is shown in. */
  datatype Tamano = NoDisponible | Medida(bytes: int, unidad: Unidad)

  /** The unit is the largest one (up to GB) whose scale does not exceed the
      size, so the shown quantity `bytes / Escala(unidad)` lies in
      [1, 1024); bytes below 1024, negative ones included, stay in bytes. */
  function ElegirTamano(tamano: Option<int>): (r: Tamano)
    ensures r.NoDisponible? <==> tamano.None?
    ensures r.Medida? ==> r.bytes == tamano.value
    ensures r.Medida? && r.unidad != B ==> Escala(r.unidad) <= r.bytes
    ensures r.Medida? && r.unidad != GB ==> r.bytes < 1024 * Escala(r.unidad)
  {
    match tamano
    case None => NoDisponible
    case Some(n) =>
      if n < 1024 then Medida(n, B)
      else if n < 1024 * 1024 then Medida(n, KB)
      else if n < 1024 * 1024 * 1024 then Medida(n, MB)
      else Medida(n, GB)
  }

  /** Rank of a unit, in increasing size. */
  function Rango(u: Unidad): nat
  {
    match u
    case B => 0
    case KB => 1
    case MB => 2
    case GB => 3
  }

  /** The buckets are ordered: a larger size never gets a smaller unit. */
  lemma ElegirTamanoMonotono(a: int, b: int)
    requires a <= b
    ensures Rango(ElegirTamano(Some(a)).unidad) <= Rango(ElegirTamano(Some(b)).unidad)
  {
  }

  function Sufijo(u: Unidad): string
  {
    match u
    case B => " B"
    case KB => " KB"
    case MB => " MB"
    case GB => " GB"
  }

  /** `TamanoFormateado`: "N/A", the exact byte count, or the scaled
      quantity with two decimals, which `cifras` supplies (floating-point
      formatting is outside this model). */
  function TamanoFormateado(tamano: Option<int>, cifras: string): (r: string)
    ensures tamano.None? ==> r == "N/A"
    ensures tamano.Some? && tamano.value < 1024 ==> r == IntToString(tamano.value) + " B"
    ensures tamano.Some? && 1024 <= tamano.value < 1024 * 1024 ==> r == cifras + " KB"
    ensures tamano.Some? && 1024 * 1024 <= tamano.value < 1024 * 1024 * 1024 ==> r == cifras + " MB"
    ensures tamano.Some? && 1024 * 1024 * 1024 <= tamano.value ==> r == cifras + " GB"
  {
    match ElegirTamano(tamano)
    case NoDisponible => "N/A"
    case Medida(n, u) => (if u == B then IntToString(n) else cifras) + Sufijo(u)
  }

  /** Two different byte counts below 1024 never get the same label. */
  lemma TamanoEnBytesInyectivo(a: int, b: int, cifras: string)
    requires a < 1024 && b < 1024
    requires TamanoFormateado(Some(a), cifras) == TamanoFormateado(Some(b), cifras)
    ensures a == b
  {
    var sa, sb := IntToString(a), IntToString(b);
    assert sa + " B" == sb + " B";
    assert |sa| == |sb|;
    assert sa == (sa + " B")[..|sa|];
    IntToStringInjective(a, b);
  }

  // ---------------------------------------------------------------------
  // Icon

  datatype Icono = Clip | Pdf | Imagen | Texto | Documento | Hoja | Comprimido

  /** The emoji the user interface shows for each icon. */
  function Glifo(i: Icono): string
  {
    match i
    case Clip => "\U{1F4CE}"
    case Pdf => "\U{1F4C4}"
    case Imagen => "\U{1F5BC}\U{FE0F}"
    case Texto => "\U{1F4DD}"
    case Documento => "\U{1F4C3}"
    case Hoja => "\U{1F4CA}"
    case Comprimido => "\U{1F4E6}"
  }

  /** Some keyword of `claves` occurs in `t`. */
  predicate ContieneAlguna(t: string, claves: seq<string>)
  {
    claves != [] && (Contains(t, claves[0]) || ContieneAlguna(t, claves[1..]))
  }

  /** The icon rules in the order they are tried: keywords and the icon
      they give. */
  const Reglas: seq<(seq<string>, Icono)> := [
    (["pdf"], Pdf),
    (["image", "png", "jpg", "jpeg"], Imagen),
    (["text", "txt"], Texto),
    (["word", "doc"], Documento),
    (["excel", "xls"], Hoja),
    (["zip", "rar"], Comprimido)
  ]

  /** The icon of the first rule from `i` on whose keywords occur in `t`. */
  function PrimeraRegla(t: string, i: nat): Icono
    decreases |Reglas| - i
  {
    if i >= |Reglas| then Clip
    else if ContieneAlguna(t, Reglas[i].0) then Reglas[i].1
    else PrimeraRegla(t, i + 1)
  }

  /** The first-match rule: the result is the icon of a rule that matches
      and no earlier rule matches, or the clip when no rule matches. */
  lemma {:induction false} PrimeraReglaEsLaPrimera(t: string, i: nat)
    requires i <= |Reglas|
    ensures PrimeraRegla(t, i) == Clip <==>
      forall j :: i <= j < |Reglas| ==> !ContieneAlguna(t, Reglas[j].0)
    ensures PrimeraRegla(t, i) != Clip ==>
      exists j :: i <= j < |Reglas| && ContieneAlguna(t, Reglas[j].0)
        && PrimeraRegla(t, i) == Reglas[j].1
        && forall m :: i <= m < j ==> !ContieneAlguna(t, Reglas[m].0)
    decreases |Reglas| - i
  {
    if i < |Reglas| && !ContieneAlguna(t, Reglas[i].0) {
      PrimeraReglaEsLaPrimera(t, i + 1);
    }
  }

  /** What each rule of the table asks of `t`, written out. */
  lemma ReglasDesplegadas(t: string)
    ensures ContieneAlguna(t, Reglas[0].0) <==> Contains(t, "pdf")
    ensures ContieneAlguna(t, Reglas[1].0) <==>
      Contains(t, "image") || Contains(t, "png") || Contains(t, "jpg") || Contains(t, "jpeg")
    ensures ContieneAlguna(t, Reglas[2].0) <==> Contains(t, "text") || Contains(t, "txt")
    ensures ContieneAlguna(t, Reglas[3].0) <==> Contains(t, "word") || Contains(t, "doc")
    ensures ContieneAlguna(t, Reglas[4].0) <==> Contains(t, "excel") || Contains(t, "xls")
    ensures ContieneAlguna(t, Reglas[5].0) <==> Contains(t, "zip") || Contains(t, "rar")
  {
    Alguna(t, "image", ["png", "jpg", "jpeg"]);
    Alguna(t, "png", ["jpg", "jpeg"]);
    Alguna(t, "jpg", ["jpeg"]);
    Alguna(t, "text", ["txt"]);
    Alguna(t, "word", ["doc"]);
    Alguna(t, "excel", ["xls"]);
    Alguna(t, "zip", ["rar"]);
  }

  lemma Alguna(t: string, c: string, resto: seq<string>)
    ensures ContieneAlguna(t, [c] + resto) <==> Contains(t, c) || ContieneAlguna(t, resto)
  {
    assert ([c] + resto)[1..] == resto;
  }

  /** `IconoArchivo`: the clip for a missing or empty type, otherwise the
      first matching rule on the lower-cased type, the clip as fallback. */
  function IconoArchivo(tipo: Option<string>): (r: Icono)
    ensures tipo.None? || tipo.value == [] ==> r == Clip
    ensures tipo.Some? && tipo.value != [] ==> r == PrimeraRegla(ToLower(tipo.value), 0)
  {
    if tipo.None? || tipo.value == [] then Clip
    else
      var t := ToLower(tipo.value);
      ReglasDesplegadas(t);
      if Contains(t, "pdf") then Pdf
      else if Contains(t, "image") || Contains(t, "png") || Contains(t, "jpg") || Contains(t, "jpeg") then Imagen
      else if Contains(t, "text") || Contains(t, "txt") then Texto
      else if Contains(t, "word") || Contains(t, "doc") then Documento
      else if Contains(t, "excel") || Contains(t, "xls") then Hoja
      else if Contains(t, "zip") || Contains(t, "rar") then Comprimido
      else Clip
  }

  /** The icon does not depend on the case of the type. */
  lemma IconoIgnoraMayusculas(t: string)
    ensures IconoArchivo(Some(t)) == IconoArchivo(Some(ToLower(t)))
  {
    ToLowerIdempotent(t);
  }

  // ---------------------------------------------------------------------
  // Tooltip

  /** `InformacionCompleta`: five lines. A null type prints as nothing and a
      null uploader as "Desconocido". The size line is `TamanoFormateado`,
      whose scaled quantity `cifras` supplies; the date label is given, as
      date formatting is outside this model. */
  function InformacionCompleta(a: Archivo, cifras: string, fechaTexto: string): (r: string)
  {
    a.nombreOriginal + "\n"
    + "Tamaño: " + TamanoFormateado(a.tamanoBytes, cifras) + "\n"
    + "Tipo: " + (if a.tipoArchivo.Some? then a.tipoArchivo.value else "") + "\n"
    + "Subido: " + fechaTexto + "\n"
    + "Por: " + (if a.subidoPor.Some? then a.subidoPor.value else "Desconocido")
  }

  /** The tooltip starts with the original name on its own line and ends
      with the uploader, or "Desconocido" when there is none. */
  lemma InformacionCompletaBordes(a: Archivo, cifras: string, fechaTexto: string)
    ensures var r := InformacionCompleta(a, cifras, fechaTexto);
      var por := if a.subidoPor.Some? then a.subidoPor.value else "Desconocido";
      && |r| >= |a.nombreOriginal| + 1 + |"Por: " + por|
      && r[..|a.nombreOriginal| + 1] == a.nombreOriginal + "\n"
      && r[|r| - |"Por: " + por|..] == "Por: " + por
  {
  }

  /** The second line of the tooltip is the size label: "N/A" for a null
      size, the exact byte count for a size below 1024. */
  lemma InformacionCompletaTamano(a: Archivo, cifras: string, fechaTexto: string)
    ensures var r := InformacionCompleta(a, cifras, fechaTexto);
      var linea := "Tamaño: " + TamanoFormateado(a.tamanoBytes, cifras) + "\n";
      var k := |a.nombreOriginal| + 1;
      && |r| >= k + |linea|
      && r[k..k + |linea|] == linea
      && (a.tamanoBytes.None? ==> linea == "Tamaño: N/A\n")
      && (a.tamanoBytes.Some? && a.tamanoBytes.value < 1024 ==>
            linea == "Tamaño: " + IntToString(a.tamanoBytes.value) + " B\n")
  {
  }
}
