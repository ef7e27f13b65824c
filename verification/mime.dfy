/** `ObtenerTipoMime` of `ArchivoService`: the MIME type recorded for an
    uploaded file, chosen by its extension. */
module TiposMime {
  import opened Wrappers
  import opened Text
  import opened ArchivoModel

  /** The long MIME types are written as joined pieces: the verifier reads
      the characters of a joined string far more readily than those of one
      long literal, and the proofs below look inside these types. */
  const Generico: string := "application/" + "octet-stream"

  function Docx(): string
  {
    "application/" + "vnd.openxml" + "formats-" + "officedoc" + "ument." + "wordprocess" + "ingml." + "document"
  }

  function Xlsx(): string
  {
    "application/" + "vnd.openxml" + "formats-" + "officedoc" + "ument." + "spreadsheet" + "ml.sheet"
  }

  /** The table of `ObtenerTipoMime`, on an extension already in lower case. */
  function TipoDeMinusculas(l: string): string
  {
    match l
    case ".pdf" => "application/pdf"
    case ".png" => "image/png"
    case ".jpg" => "image/jpeg"
    case ".jpeg" => "image/jpeg"
    case ".gif" => "image/gif"
    case ".txt" => "text/plain"
    case ".doc" => "application/msword"
    case ".docx" => Docx()
    case ".xls" => "application/vnd.ms-excel"
    case ".xlsx" => Xlsx()
    case ".zip" => "application/zip"
    case ".rar" => "application/x-rar-compressed"
    case _ => Generico
  }

  /** `ObtenerTipoMime`: the extension is lower-cased, then looked up. */
  function ObtenerTipoMime(extension: string): (r: string)
  {
    TipoDeMinusculas(ToLower(extension))
  }

  /** The extensions with a MIME type of their own. */
  const Reconocidas: set<string> :=
    {".pdf", ".png", ".jpg", ".jpeg", ".gif", ".txt", ".doc", ".docx", ".xls", ".xlsx", ".zip", ".rar"}

  /** The types the source's switch names, one per recognised extension. */
  const Tabla: map<string, string> :=
    map[".pdf" := "application/pdf", ".png" := "image/png", ".jpg" := "image/jpeg", ".jpeg" := "image/jpeg",
        ".gif" := "image/gif", ".txt" := "text/plain", ".doc" := "application/msword", ".docx" := Docx(),
        ".xls" := "application/vnd.ms-excel", ".xlsx" := Xlsx(), ".zip" := "application/zip",
        ".rar" := "application/x-rar-compressed"]

  /** The lookup is the table on the lower-cased extension, and the
      generic type elsewhere; the table covers exactly the recognised
      extensions, and none of its types is the generic one. */
  lemma TipoMimeEsLaTabla(extension: string)
    ensures Tabla.Keys == Reconocidas
    ensures var l := ToLower(extension);
      ObtenerTipoMime(extension) == if l in Tabla then Tabla[l] else Generico
    ensures ToLower(extension) in Tabla ==> Tabla[ToLower(extension)] != Generico
  {
    TablaReconocidas();
    TablaEnMinusculas(ToLower(extension));
    TipoMimeGenerico(extension);
  }

  lemma TablaReconocidas()
    ensures Tabla.Keys == Reconocidas
  {
  }

  /** The switch on a lower-case extension is the table. */
  lemma TablaEnMinusculas(l: string)
    ensures TipoDeMinusculas(l) == if l in Tabla then Tabla[l] else Generico
  {
    TablaReconocidas();
    if l !in Reconocidas {
      assert TipoDeMinusculas(l) == Generico;
    }
  }

  /** The mapping ignores case. */
  lemma TipoMimeIgnoraMayusculas(extension: string)
    ensures ObtenerTipoMime(extension) == ObtenerTipoMime(ToLower(extension))
  {
    var l := ToLower(extension);
    ToLowerIdempotent(extension);
    assert ToLower(l) == l;
  }

  /** Exactly the twelve known extensions, in any case, get a specific
      type; everything else gets the generic one. */
  lemma TipoMimeGenerico(extension: string)
    ensures ObtenerTipoMime(extension) != Generico <==> ToLower(extension) in Reconocidas
  {
    var l := ToLower(extension);
    assert |Generico| == 24 && |Docx()| == 71 && |Xlsx()| == 65;
    if l == ".xls" {
      assert ObtenerTipoMime(extension)[12] == 'v' && Generico[12] == 'o';
    } else if l in Reconocidas {
      assert |ObtenerTipoMime(extension)| != 24;
    } else {
      assert ObtenerTipoMime(extension) == Generico;
    }
  }

  /** ".jpg" and ".jpeg", and no other extension, give "image/jpeg". */
  lemma TipoMimeJpeg(extension: string)
    ensures ObtenerTipoMime(extension) == "image/jpeg" <==> ToLower(extension) in {".jpg", ".jpeg"}
  {
  }

  /** The spreadsheet type of ".xlsx" contains "officedocument", so the
      icon rules, which test "doc" before "xls", show it as a document. */
  lemma XlsxTieneIconoDeDocumento()
    ensures IconoArchivo(Some(ObtenerTipoMime(".xlsx"))) == Documento
  {
    TipoXlsx();
    IconoXlsx();
  }

  lemma TipoXlsx()
    ensures ObtenerTipoMime(".xlsx") == Xlsx()
  {
    assert ToLower(".xlsx") == ".xlsx";
  }

  lemma IconoXlsx()
    ensures IconoArchivo(Some(Xlsx())) == Documento
  {
    var x := Xlsx();
    XlsxEnMinusculas();
    XlsxSinClavesPrevias();
    XlsxConDoc();
    IconoDeDocumento(x);
  }

  /** "officedocument" holds "doc". */
  lemma XlsxConDoc()
    ensures Contains(Xlsx(), "doc")
  {
    assert MatchesAt(Xlsx(), "doc", 37);
  }

  /** A lower-case type with "doc" and none of the keywords of the earlier
      rules gets the document icon. */
  lemma IconoDeDocumento(t: string)
    requires t != [] && ToLower(t) == t && Contains(t, "doc")
    requires !Contains(t, "pdf") && !Contains(t, "image") && !Contains(t, "png")
    requires !Contains(t, "jpg") && !Contains(t, "jpeg") && !Contains(t, "text") && !Contains(t, "txt")
    ensures IconoArchivo(Some(t)) == Documento
  {
  }

  lemma XlsxEnMinusculas()
    ensures ToLower(Xlsx()) == Xlsx()
  {
    var x := Xlsx();
    XlsxSinMayusculasDesde32();
    assert NoUpperFrom(x, 24);
    assert NoUpperFrom(x, 16);
    assert NoUpperFrom(x, 8);
    assert NoUpperFrom(x, 0);
    NoUpperToLower(x);
  }

  lemma XlsxSinMayusculasDesde32()
    ensures NoUpperFrom(Xlsx(), 32)
  {
    var x := Xlsx();
    assert NoUpperFrom(x, 56);
    assert NoUpperFrom(x, 48);
    assert NoUpperFrom(x, 40);
  }

  /** None of the keywords of the rules before "doc" occurs in the
      spreadsheet type: each of them holds "df", "g", "j" or "xt", and
      none of those does. */
  lemma XlsxSinClavesPrevias()
    ensures var x := Xlsx();
      && !Contains(x, "pdf") && !Contains(x, "image") && !Contains(x, "png")
      && !Contains(x, "jpg") && !Contains(x, "jpeg") && !Contains(x, "text") && !Contains(x, "txt")
  {
    var x := Xlsx();
    XlsxSinDf();
    XlsxSinG();
    XlsxSinJ();
    XlsxSinXt();
    assert "pdf"[1..3] == "df" && "text"[2..4] == "xt" && "txt"[1..3] == "xt";
    assert "image"[3..4] == "g" && "png"[2..3] == "g" && "jpg"[0..1] == "j" && "jpeg"[0..1] == "j";
    SinTrozo(x, "pdf", 1, 3);
    SinTrozo(x, "image", 3, 4);
    SinTrozo(x, "png", 2, 3);
    SinTrozo(x, "jpg", 0, 1);
    SinTrozo(x, "jpeg", 0, 1);
    SinTrozo(x, "text", 2, 4);
    SinTrozo(x, "txt", 1, 3);
  }

  /** A string one of whose pieces is not in `s` is not in `s` either. */
  lemma SinTrozo(s: string, t: string, a: nat, b: nat)
    requires a <= b <= |t| && !Contains(s, t[a..b])
    ensures !Contains(s, t)
  {
    if Contains(s, t) {
      ContieneTrozo(s, t, a, b);
    }
  }

  /** A piece of a string that occurs in `s` occurs in `s` too. */
  lemma ContieneTrozo(s: string, t: string, a: nat, b: nat)
    requires a <= b <= |t| && Contains(s, t)
    ensures Contains(s, t[a..b])
  {
    var j: nat :| j <= |s| && MatchesAt(s, t, j);
    var w := s[j..j + |t|];
    assert forall k :: 0 <= k < b - a ==> s[j + a..j + b][k] == w[a + k] == t[a..b][k];
    assert MatchesAt(s, t[a..b], j + a);
  }

  /** A piece of one or two characters found in neither `a` nor `b`, and
      not formed by the last character of `a` with the first of `b`, is not
      in `a + b`. */
  lemma NoContieneConcat(a: string, b: string, t: string)
    requires 1 <= |t| <= 2 && !Contains(a, t) && !Contains(b, t)
    requires !Union(a, b, t)
    ensures !Contains(a + b, t)
  {
    if Contains(a + b, t) {
      var j: nat :| j <= |a + b| && MatchesAt(a + b, t, j);
      if j + |t| <= |a| {
        assert (a + b)[j..j + |t|] == a[j..j + |t|];
        assert MatchesAt(a, t, j);
      } else if j >= |a| {
        assert (a + b)[j..j + |t|] == b[j - |a|..j - |a| + |t|];
        assert MatchesAt(b, t, j - |a|);
      } else {
        assert false;
      }
    }
  }

  /** The last character of `a` followed by the first of `b` spell `t`. */
  predicate Union(a: string, b: string, t: string)
  {
    |t| == 2 && a != [] && b != [] && a[|a| - 1] == t[0] && b[0] == t[1]
  }

  /** The first `n` chunks joined in order. */
  function Une(cs: seq<string>, n: nat): (r: string)
    requires n <= |cs|
    ensures n > 0 && cs[n - 1] != [] ==> r != [] && r[|r| - 1] == cs[n - 1][|cs[n - 1]| - 1]
  {
    if n == 0 then []
    else if n == 1 then cs[0]
    else Une(cs, n - 1) + cs[n - 1]
  }

  /** A piece of at most two characters that is in no chunk and across no
      join is not in the joined string. */
  lemma {:induction false} NoContieneUne(cs: seq<string>, t: string, n: nat)
    requires 1 <= |t| <= 2 && n <= |cs|
    requires forall k :: 0 <= k < |cs| ==> cs[k] != [] && !Contains(cs[k], t)
    requires forall k :: 0 <= k && k + 1 < |cs| ==> !Union(cs[k], cs[k + 1], t)
    ensures !Contains(Une(cs, n), t)
  {
    if n > 1 {
      NoContieneUne(cs, t, n - 1);
      assert !Union(cs[n - 2], cs[n - 1], t);
      NoContieneConcat(Une(cs, n - 1), cs[n - 1], t);
    }
  }

  function TrozosXlsx(): seq<string>
  {
    ["application/", "vnd.openxml", "formats-", "officedoc", "ument.", "spreadsheet", "ml.sheet"]
  }

  /** A piece of at most two characters that is in no chunk of the
      spreadsheet type and across no join is not in that type. */
  lemma XlsxSin(t: string)
    requires 1 <= |t| <= 2
    requires !Scan("application/", t, 0, 0) && !Scan("vnd.openxml", t, 0, 0) && !Scan("formats-", t, 0, 0)
    requires !Scan("officedoc", t, 0, 0) && !Scan("ument.", t, 0, 0) && !Scan("spreadsheet", t, 0, 0)
    requires !Scan("ml.sheet", t, 0, 0)
    requires !Union("application/", "vnd.openxml", t) && !Union("vnd.openxml", "formats-", t)
    requires !Union("formats-", "officedoc", t) && !Union("officedoc", "ument.", t)
    requires !Union("ument.", "spreadsheet", t) && !Union("spreadsheet", "ml.sheet", t)
    ensures !Contains(Xlsx(), t)
  {
    var cs := TrozosXlsx();
    TrozosSinPieza(t);
    assert forall k :: 0 <= k && k + 1 < |cs| ==> !Union(cs[k], cs[k + 1], t);
    NoContieneUne(cs, t, 7);
    assert Une(cs, 7) == Xlsx();
  }

  lemma TrozosSinPieza(t: string)
    requires !Scan("application/", t, 0, 0) && !Scan("vnd.openxml", t, 0, 0) && !Scan("formats-", t, 0, 0)
    requires !Scan("officedoc", t, 0, 0) && !Scan("ument.", t, 0, 0) && !Scan("spreadsheet", t, 0, 0)
    requires !Scan("ml.sheet", t, 0, 0)
    ensures forall k :: 0 <= k < |TrozosXlsx()| ==> TrozosXlsx()[k] != [] && !Contains(TrozosXlsx()[k], t)
  {
    var cs := TrozosXlsx();
    forall k | 0 <= k < |cs|
      ensures cs[k] != [] && !Contains(cs[k], t)
    {
      ScanIsContains(cs[k], t);
    }
  }

  lemma XlsxSinDf()
    ensures !Contains(Xlsx(), "df")
  {
    XlsxSin("df");
  }

  lemma XlsxSinG()
    ensures !Contains(Xlsx(), "g")
  {
    XlsxSin("g");
  }

  lemma XlsxSinJ()
    ensures !Contains(Xlsx(), "j")
  {
    XlsxSin("j");
  }

  lemma XlsxSinXt()
    ensures !Contains(Xlsx(), "xt")
  {
    XlsxSin("xt");
  }
}
