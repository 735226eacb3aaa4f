/**
 * The data side of src/geoidep_python.py: the meteorological bulletin table
 * turned into alert rows, the alert number and year pulled out of a row, the
 * WFS request for an alert's geometry and the checks on its response, and the
 * static district and province tables used when the boundary download fails.
 *
 * The network, the HTML parser, zip extraction and shapefile reading are not
 * modelled; they enter as values (the table's cell texts, an HTTP response) or
 * as function parameters (reading a shapefile out of a zip archive). Geometry
 * is a type parameter `G`: nothing here looks inside it.
 */
module GeoIdep {
  import opened Common

  newtype byte = x: int | 0 <= x < 256

  /** What `requests.get` hands back: the status code and the body. */
  datatype HttpResponse = HttpResponse(status: int, content: seq<byte>)

  /** One row of the bulletin table, fields in column order. */
  datatype AlertRow = AlertRow(
    aviso: string, nro: string, emision: string, inicio: string,
    fin: string, duracion: string, nivel: string)

  /** The column names of the bulletin table, in the order of AlertRow's fields. */
  const Columns: seq<string> := ["aviso", "nro", "emision", "inicio", "fin", "duracion", "nivel"]

  /** The scraped table as a data frame: column names and rows. */
  datatype AlertTable = AlertTable(columns: seq<string>, rows: seq<AlertRow>)

  /** One feature of an alert's shapefile: its `nivel` attribute and its shape. */
  datatype Feature<G> = Feature(nivel: string, geom: G)

  /** An alert's shapefile read as a frame: whether it has a `nivel` column, and its features. */
  datatype Layer<G> = Layer(hasNivel: bool, features: seq<Feature<G>>)

  /** A district boundary: ubigeo code, district name, shape. */
  datatype District<G> = District(ubigeo: string, nombdist: string, geom: G)

  /** A province boundary: department and province codes, province name, shape. */
  datatype Province<G> = Province(ccdd: string, ccpp: string, nombprov: string, geom: G)

  // ---------------------------------------------------------------------------
  // The bulletin table (senamhi_get_meteorological_table)
  // ---------------------------------------------------------------------------

  /** A table row with at least seven cells, read cell by cell into the seven fields. */
  function RowOf(cells: seq<string>): (r: AlertRow)
    requires |cells| >= 7
    ensures [r.aviso, r.nro, r.emision, r.inicio, r.fin, r.duracion, r.nivel] == cells[..7]
  {
    AlertRow(cells[0], cells[1], cells[2], cells[3], cells[4], cells[5], cells[6])
  }

  /**
   * The alert rows read from the body rows of the table (the header already
   * removed): rows with fewer than seven cells are dropped, the others become
   * alert rows, in order.
   */
  function TableRows(trs: seq<seq<string>>): (r: seq<AlertRow>)
    ensures |r| <= |trs|
    ensures forall i :: 0 <= i < |trs| && |trs[i]| >= 7 ==> RowOf(trs[i]) in r
    ensures forall k :: 0 <= k < |r| ==> exists i :: 0 <= i < |trs| && |trs[i]| >= 7 && r[k] == RowOf(trs[i])
  {
    if |trs| == 0 then []
    else
      var init := TableRows(trs[..|trs| - 1]);
      var last := trs[|trs| - 1];
      assert forall i :: 0 <= i < |trs| - 1 ==> trs[..|trs| - 1][i] == trs[i];
      if |last| >= 7 then init + [RowOf(last)] else init
  }

  /** Reading two runs of rows one after the other gives the two results one after the other. */
  lemma {:induction false} TableRowsAppend(a: seq<seq<string>>, b: seq<seq<string>>)
    ensures TableRows(a + b) == TableRows(a) + TableRows(b)
  {
    if |b| > 0 {
      var b' := b[..|b| - 1];
      assert (a + b)[..|a + b| - 1] == a + b';
      TableRowsAppend(a, b');
    } else {
      assert a + b == a;
    }
  }

  /** A single row yields its alert row when it has at least seven cells, nothing otherwise. */
  lemma TableRowsSingle(tr: seq<string>)
    ensures TableRows([tr]) == if |tr| >= 7 then [RowOf(tr)] else []
  {
    assert [tr][..0] == [];
  }

  /**
   * The bulletin table as senamhi_get_meteorological_table builds it. `page`
   * holds the cell texts of every `tr` of the page's first table, header first;
   * None stands for a page without a table or a request that raised. The
   * columns are always the seven names, also when no row qualifies.
   */
  method MeteorologicalTable(page: Option<seq<seq<string>>>) returns (t: AlertTable)
    ensures t.columns == Columns
    ensures page.None? || |page.value| == 0 ==> t.rows == []
    ensures page.Some? && |page.value| > 0 ==> t.rows == TableRows(page.value[1..])
  {
    var rows: seq<AlertRow> := [];
    if page.Some? && |page.value| > 0 {
      var trs := page.value[1..];
      for i := 0 to |trs|
        invariant rows == TableRows(trs[..i])
      {
        var cells := trs[i];
        if |cells| >= 7 {
          rows := rows + [RowOf(cells)];
        }
        assert trs[..i + 1][..i] == trs[..i];
      }
      assert trs[..|trs|] == trs;
    }
    t := AlertTable(Columns, rows);
  }

  // ---------------------------------------------------------------------------
  // Alert number, year and the WFS request (senamhi_get_spatial_alerts)
  // ---------------------------------------------------------------------------

  /** The characters `[0-9]` matches. */
  predicate IsDigit(c: char)
  {
    '0' <= c <= '9'
  }

  predicate AllDigits(s: string)
  {
    forall i :: 0 <= i < |s| ==> IsDigit(s[i])
  }

  /** `re.sub(r'[^0-9]', '', nro)`: every character that is not a digit removed. */
  function ExtractNro(s: string): (r: string)
    ensures AllDigits(r)
    ensures |r| <= |s|
  {
    if |s| == 0 then []
    else (if IsDigit(s[0]) then [s[0]] else []) + ExtractNro(s[1..])
  }

  /** Removing the non-digits of a concatenation removes them from each part. */
  lemma {:induction false} ExtractNroAppend(a: string, b: string)
    ensures ExtractNro(a + b) == ExtractNro(a) + ExtractNro(b)
  {
    if |a| == 0 {
      assert a + b == b;
    } else {
      assert (a + b)[1..] == a[1..] + b;
      ExtractNroAppend(a[1..], b);
    }
  }

  /** A single character is kept exactly when it is a digit. */
  lemma ExtractNroSingle(c: char)
    ensures ExtractNro([c]) == if IsDigit(c) then [c] else []
  {
  }

  /** A string of digits is its own alert number; so extracting twice changes nothing. */
  lemma {:induction false} ExtractNroOfDigits(s: string)
    requires AllDigits(s)
    ensures ExtractNro(s) == s
  {
    if |s| > 0 {
      ExtractNroOfDigits(s[1..]);
      assert s == [s[0]] + s[1..];
    }
  }

  /** Each digit occurs in the alert number as often as in the input, each other character never. */
  lemma {:induction false} ExtractNroCounts(s: string, c: char)
    ensures multiset(ExtractNro(s))[c] == if IsDigit(c) then multiset(s)[c] else 0
  {
    if |s| > 0 {
      ExtractNroCounts(s[1..], c);
      assert s == [s[0]] + s[1..];
      assert multiset(s) == multiset([s[0]]) + multiset(s[1..]);
    }
  }

  const FallbackYear := "2025"

  /** `re.match(r'^(\d{4})', emision)`: the first four characters when they are digits, else 2025. */
  function ExtractYear(emision: string): (r: string)
    ensures |r| == 4 && AllDigits(r)
    ensures |emision| >= 4 && AllDigits(emision[..4]) ==> r == emision[..4]
    ensures !(|emision| >= 4 && AllDigits(emision[..4])) ==> r == FallbackYear
  {
    if |emision| >= 4 && AllDigits(emision[..4]) then emision[..4] else FallbackYear
  }

  /** SENAMHI_WFS_URL up to its `{nro}` placeholder. */
  const WfsPrefix := "https://idesep.Senamhi.gob.pe/geoserver/g_aviso/ows?service=WFS&version=1.0.0&request=GetFeature&typeName=g_aviso&outputFormat=SHAPE-ZIP&maxFeatures=50&viewparams=qry:"

  /** What the template puts between `{nro}` and `{year}`. */
  const WfsSeparator := "_1_"

  /** SENAMHI_WFS_URL.format(nro=nro, year=year). */
  function WfsUrl(nro: string, year: string): (url: string)
    ensures |url| == |WfsPrefix| + |nro| + |WfsSeparator| + |year|
    ensures url[..|WfsPrefix|] == WfsPrefix
  {
    WfsPrefix + nro + WfsSeparator + year
  }

  /** Reads the alert number and the four-character year back out of a WFS request. */
  function ParseWfsUrl(url: string): Option<(string, string)>
  {
    var p := |WfsPrefix|;
    if |url| < p + 7 || url[..p] != WfsPrefix then None
    else
      var n := |url|;
      if url[n - 7..n - 4] != WfsSeparator then None
      else Some((url[p..n - 7], url[n - 4..]))
  }

  /** The request names the alert and the year it was built from. */
  lemma WfsUrlRoundTrip(nro: string, year: string)
    requires |year| == 4
    ensures ParseWfsUrl(WfsUrl(nro, year)) == Some((nro, year))
  {
    var url := WfsUrl(nro, year);
    var p, n := |WfsPrefix|, |url|;
    assert url[p..n - 7] == nro;
    assert url[n - 7..n - 4] == WfsSeparator;
    assert url[n - 4..] == year;
  }

  /** Every request that parses is the template filled with what it parses to. */
  lemma ParseWfsUrlSound(url: string)
    requires ParseWfsUrl(url).Some?
    ensures |ParseWfsUrl(url).value.1| == 4
    ensures WfsUrl(ParseWfsUrl(url).value.0, ParseWfsUrl(url).value.1) == url
  {
    var p, n := |WfsPrefix|, |url|;
    var nro, year := url[p..n - 7], url[n - 4..];
    assert ParseWfsUrl(url) == Some((nro, year));
    assert url[..p] == WfsPrefix && url[n - 7..n - 4] == WfsSeparator;
    assert url == url[..p] + nro + url[n - 7..n - 4] + year;
  }

  /** The request senamhi_get_spatial_alerts sends for one alert row. */
  function AlertUrl(row: AlertRow): (url: string)
    ensures ParseWfsUrl(url) == Some((ExtractNro(row.nro), ExtractYear(row.emision)))
  {
    WfsUrlRoundTrip(ExtractNro(row.nro), ExtractYear(row.emision));
    WfsUrl(ExtractNro(row.nro), ExtractYear(row.emision))
  }

  /** The zip magic number `PK` at the start of a body. */
  predicate IsZip(content: seq<byte>)
  {
    |content| >= 2 && content[0] == 0x50 && content[1] == 0x4B
  }

  /**
   * The geometry of one alert, or None. `get` answers a request (None: it
   * raised, e.g. on timeout); `readShapefile` unpacks a zip body and reads its
   * first shapefile (None: no .shp inside, or reading raised).
   */
  function SpatialAlerts<G>(row: AlertRow, get: string -> Option<HttpResponse>,
                            readShapefile: seq<byte> -> Option<Layer<G>>): (r: Option<Layer<G>>)
    ensures r.Some? ==>
      && get(AlertUrl(row)).Some?
      && get(AlertUrl(row)).value.status == 200
      && IsZip(get(AlertUrl(row)).value.content)
      && r == readShapefile(get(AlertUrl(row)).value.content)
    ensures get(AlertUrl(row)).None? ==> r.None?
    ensures get(AlertUrl(row)).Some? && get(AlertUrl(row)).value.status != 200 ==> r.None?
    ensures get(AlertUrl(row)).Some? && !IsZip(get(AlertUrl(row)).value.content) ==> r.None?
    ensures get(AlertUrl(row)).Some? && get(AlertUrl(row)).value.status == 200 && IsZip(get(AlertUrl(row)).value.content)
            ==> r == readShapefile(get(AlertUrl(row)).value.content)
  {
    match get(AlertUrl(row))
    case None => None
    case Some(resp) =>
      if resp.status != 200 then None
      else if !IsZip(resp.content) then None
      else readShapefile(resp.content)
  }

  // ---------------------------------------------------------------------------
  // Static fallback tables (_create_moquegua_districts, _create_moquegua_provinces)
  // ---------------------------------------------------------------------------

  const FallbackUbigeos: seq<string> := [
    "180101", "180102", "180103", "180104", "180105", "180106",
    "180201", "180202", "180203", "180204", "180205",
    "180301", "180302", "180303", "180304", "180305", "180306",
    "180307", "180308", "180309", "180310"]

  const FallbackDistrictNames: seq<string> := [
    "MOQUEGUA", "CARUMAS", "CUCHUMBAYA", "SAMEGUA", "SAN CRISTOBAL", "TORATA",
    "OMATE", "CHOJATA", "COALAQUE", "ICHUÑA", "LA CAPILLA",
    "ILO", "EL ALGARROBAL", "PACOCHA", "MATALAQUE", "PUQUINA", "QUINISTAQUILLAS",
    "UBINAS", "YUNGA", "LLOQUE", "SAN ANTONIO"]

  const FallbackDistrictLats: seq<real> := [
    -17.195, -16.780, -17.100, -17.177, -17.077, -17.077,
    -16.670, -16.500, -16.550, -16.150, -16.600,
    -17.640, -17.600, -17.650, -16.750, -16.620, -16.580,
    -16.370, -16.700, -16.650, -17.150]

  const FallbackDistrictLons: seq<real> := [
    -70.935, -70.700, -70.800, -70.917, -70.846, -70.846,
    -70.970, -70.700, -70.650, -70.500, -70.750,
    -71.338, -71.300, -71.350, -70.900, -70.950, -70.900,
    -70.850, -70.800, -70.850, -70.900]

  /** Buffer radius, in degrees, of a fallback district's disc. */
  const DistrictRadius: real := 0.15

  /** Buffer radius, in degrees, of a fallback province's disc. */
  const ProvinceRadius: real := 0.3

  const FallbackCcdd: seq<string> := ["18", "18", "18"]
  const FallbackCcpp: seq<string> := ["01", "02", "03"]
  const FallbackProvinceNames: seq<string> := ["MARISCAL NIETO", "GENERAL SANCHEZ CERRO", "ILO"]
  const FallbackProvinceLats: seq<real> := [-17.195, -16.620, -17.640]
  const FallbackProvinceLons: seq<real> := [-70.935, -70.950, -71.338]

  /** The four columns of the district table have one entry per district. */
  lemma FallbackDistrictColumnsAgree()
    ensures |FallbackUbigeos| == |FallbackDistrictNames| == |FallbackDistrictLats| == |FallbackDistrictLons| == 21
  {
  }

  /** The district codes are 21 distinct six-digit codes of department 18. */
  lemma FallbackUbigeosWellFormed()
    ensures NoDuplicates(FallbackUbigeos)
    ensures forall i :: 0 <= i < |FallbackUbigeos| ==>
      |FallbackUbigeos[i]| == 6 && AllDigits(FallbackUbigeos[i]) && FallbackUbigeos[i][..2] == "18"
  {
  }

  /**
   * The fallback districts (a disc of radius 0.15 around each point). `disc`
   * builds `Point(lon, lat).buffer(radius)`.
   */
  function FallbackDistricts<G>(disc: (real, real, real) -> G): (r: seq<District<G>>)
    ensures |r| == 21
    ensures forall i :: 0 <= i < 21 ==>
      r[i] == District(FallbackUbigeos[i], FallbackDistrictNames[i],
                       disc(FallbackDistrictLons[i], FallbackDistrictLats[i], DistrictRadius))
  {
    seq(21, i requires 0 <= i < 21 =>
      District(FallbackUbigeos[i], FallbackDistrictNames[i],
               disc(FallbackDistrictLons[i], FallbackDistrictLats[i], DistrictRadius)))
  }

  /** The fallback provinces of department 18 (a disc of radius 0.3 each). */
  function FallbackProvinces<G>(disc: (real, real, real) -> G): (r: seq<Province<G>>)
    ensures |r| == 3
    ensures forall i :: 0 <= i < 3 ==>
      r[i] == Province(FallbackCcdd[i], FallbackCcpp[i], FallbackProvinceNames[i],
                       disc(FallbackProvinceLons[i], FallbackProvinceLats[i], ProvinceRadius))
  {
    seq(3, i requires 0 <= i < 3 =>
      Province(FallbackCcdd[i], FallbackCcpp[i], FallbackProvinceNames[i],
               disc(FallbackProvinceLons[i], FallbackProvinceLats[i], ProvinceRadius)))
  }

  /** get_districts: the downloaded boundaries, or the fallback table when the download failed. */
  function GetDistricts<G>(download: Option<seq<District<G>>>, disc: (real, real, real) -> G): seq<District<G>>
  {
    if download.Some? then download.value else FallbackDistricts(disc)
  }

  /** get_provinces: the downloaded boundaries, or the fallback table when the download failed. */
  function GetProvinces<G>(download: Option<seq<Province<G>>>, disc: (real, real, real) -> G): seq<Province<G>>
  {
    if download.Some? then download.value else FallbackProvinces(disc)
  }
}
