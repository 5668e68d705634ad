/** What get_sref.py asks for: for every (core, perturbation) pair, taken in
    the order of the script's two nested loops, the download URL and the two
    local file names (the raw GRIB2 download and its NetCDF conversion). */
module SrefPlan {
  import opened Text
  import opened Query

  /** The initialisation time, reduced to the calendar fields the URL uses. */
  datatype InitTime = InitTime(year: nat, month: nat, day: nat, hour: nat)

  predicate ValidInit(t: InitTime) {
    1 <= t.year <= 9999 && 1 <= t.month <= 12 && 1 <= t.day <= 31 && t.hour <= 23
  }

  /** The subregion; each bound is kept as the text that '{:f}' makes of it. */
  datatype BoundingBox = BoundingBox(left: string, right: string, top: string, bottom: string)

  datatype RunParameters = RunParameters(
    init: InitTime, box: BoundingBox, cores: seq<string>, perts: seq<string>)

  const Cores: seq<string> := ["arw", "nmb"]
  const Perts: seq<string> :=
    ["ctl", "n1", "n2", "n3", "n4", "n5", "n6", "p1", "p2", "p3", "p4", "p5", "p6"]

  /** The script's constants: 2015-11-20 21Z, longitudes -125.5 to -65.5,
      latitudes 24.5 to 50. */
  const Fixed: RunParameters := RunParameters(
    InitTime(2015, 11, 20, 21),
    BoundingBox("-125.500000", "-65.500000", "50.000000", "24.500000"),
    Cores, Perts)

  // ---------------------------------------------------------------------------
  // The URL

  const Endpoint: string := "http://nomads.ncep.noaa.gov/cgi-bin/filter_srefbc.pl"

  /** `{init:%H}` */
  function HourStamp(t: InitTime): string {
    Padded(t.hour, 2)
  }

  /** `{init:%Y%m%d}` */
  function DateStamp(t: InitTime): string {
    Padded(t.year, 4) + Padded(t.month, 2) + Padded(t.day, 2)
  }

  /** For a valid time the hour takes two digits and the date eight, and the
      digits read back as the hour, year, month and day. */
  lemma StampsRoundTrip(t: InitTime)
    requires ValidInit(t)
    ensures |HourStamp(t)| == 2 && ValueOf(HourStamp(t)) == t.hour
    ensures var d := DateStamp(t);
      |d| == 8 && AllDigits(d) &&
      ValueOf(d[..4]) == t.year && ValueOf(d[4..6]) == t.month && ValueOf(d[6..]) == t.day
  {
    PaddedRoundTrip(t.hour, 2);
    PaddedRoundTrip(t.year, 4);
    PaddedRoundTrip(t.month, 2);
    PaddedRoundTrip(t.day, 2);
    var d := DateStamp(t);
    assert d[..4] == Padded(t.year, 4);
    assert d[4..6] == Padded(t.month, 2);
    assert d[6..] == Padded(t.day, 2);
  }

  /** The name of the remote file: `sref_{core}.t{HH}z.pgrb212.{pert}.grib2`. */
  function FileValue(t: InitTime, core: string, pert: string): string {
    "sref_" + core + ".t" + HourStamp(t) + "z.pgrb212." + pert + ".grib2"
  }

  /** The remote directory, URL-escaped: `/sref.{YYYYMMDD}/{HH}/pgrb_biasc`. */
  function DirValue(t: InitTime): string {
    "%2Fsref." + DateStamp(t) + "%2F" + HourStamp(t) + "%2Fpgrb_biasc"
  }

  /** The vertical levels and the variables the request selects. */
  const LevelKeys: seq<string> := [
    "lev_2_m_above_ground", "lev_10_m_above_ground", "lev_surface", "lev_850_mb",
    "lev_mean_sea_level"]
  const VariableKeys: seq<string> := [
    "var_HGT", "var_PRMSL", "var_TMP", "var_UGRD", "var_VGRD", "var_APCP"]
  const BoxKeys: seq<string> := ["leftlon", "rightlon", "toplat", "bottomlat"]

  /** The query keys, in the order the template writes them. */
  const QueryKeys: seq<string> :=
    ["file"] + LevelKeys + VariableKeys + ["subregion"] + BoxKeys + ["dir"]

  function QueryValues(p: RunParameters, core: string, pert: string): (vs: seq<string>)
    ensures |vs| == |QueryKeys|
  {
    [FileValue(p.init, core, pert)]
    + ["on", "on", "on", "on", "on", "on", "on", "on", "on", "on", "on"]
    + [""]
    + [p.box.left, p.box.right, p.box.top, p.box.bottom]
    + [DirValue(p.init)]
  }

  function Zip(keys: seq<string>, values: seq<string>): (fs: seq<Field>)
    requires |keys| == |values|
    ensures |fs| == |keys|
    decreases |keys|
  {
    if keys == [] then [] else [Field(keys[0], values[0])] + Zip(keys[1..], values[1..])
  }

  lemma {:induction false} ZipAt(keys: seq<string>, values: seq<string>)
    requires |keys| == |values|
    ensures forall i :: 0 <= i < |keys| ==> Zip(keys, values)[i] == Field(keys[i], values[i])
    decreases |keys|
  {
    if keys != [] {
      ZipAt(keys[1..], values[1..]);
    }
  }

  function Fields(p: RunParameters, core: string, pert: string): (fs: seq<Field>)
    ensures |fs| == |QueryKeys|
  {
    Zip(QueryKeys, QueryValues(p, core, pert))
  }

  /** `base.format(**curdat)` */
  function Url(p: RunParameters, core: string, pert: string): string {
    Endpoint + "?" + QueryString(Fields(p, core, pert))
  }

  predicate PlainBox(b: BoundingBox) {
    '&' !in b.left && '&' !in b.right && '&' !in b.top && '&' !in b.bottom
  }

  predicate PlainKeys(keys: seq<string>) {
    forall k | k in keys :: '&' !in k && '=' !in k
  }

  lemma LevelKeysPlain()
    ensures PlainKeys(LevelKeys)
  {
  }

  lemma VariableKeysPlain()
    ensures PlainKeys(VariableKeys)
  {
  }

  lemma BoxKeysPlain()
    ensures PlainKeys(["file", "subregion"] + BoxKeys + ["dir"])
  {
  }

  lemma KeysPlain()
    ensures forall i | 0 <= i < |QueryKeys| :: '&' !in QueryKeys[i] && '=' !in QueryKeys[i]
  {
    LevelKeysPlain();
    VariableKeysPlain();
    BoxKeysPlain();
    forall i | 0 <= i < |QueryKeys|
      ensures '&' !in QueryKeys[i] && '=' !in QueryKeys[i]
    {
      var k := QueryKeys[i];
      assert k in QueryKeys;
      assert k in LevelKeys || k in VariableKeys || k in ["file", "subregion"] + BoxKeys + ["dir"];
    }
  }

  lemma FileValuePlain(t: InitTime, core: string, pert: string)
    requires '&' !in core && '&' !in pert
    ensures '&' !in FileValue(t, core, pert)
  {
    assert AllDigits(HourStamp(t));
  }

  lemma DirValuePlain(t: InitTime)
    ensures '&' !in DirValue(t)
  {
    assert AllDigits(HourStamp(t)) && AllDigits(DateStamp(t));
  }

  lemma ValuesPlain(p: RunParameters, core: string, pert: string)
    requires '&' !in core && '&' !in pert && PlainBox(p.box)
    ensures forall i | 0 <= i < |QueryKeys| :: '&' !in QueryValues(p, core, pert)[i]
  {
    FileValuePlain(p.init, core, pert);
    DirValuePlain(p.init);
    var vs := QueryValues(p, core, pert);
    forall i | 0 <= i < |QueryKeys|
      ensures '&' !in vs[i]
    {
      if 1 <= i <= 11 {
        assert vs[i] == "on";
      } else if i == 12 {
        assert vs[i] == "";
      }
    }
  }

  /** The URL is the endpoint, '?', and a query that reads back as exactly
      the template's fields, in order. */
  lemma UrlQuery(p: RunParameters, core: string, pert: string)
    requires '&' !in core && '&' !in pert && PlainBox(p.box)
    ensures Endpoint + "?" <= Url(p, core, pert)
    ensures ParseQuery(Url(p, core, pert)[|Endpoint| + 1..]) == Fields(p, core, pert)
  {
    var fs := Fields(p, core, pert);
    var vs := QueryValues(p, core, pert);
    var q := QueryString(fs);
    assert Url(p, core, pert) == (Endpoint + "?") + q;
    assert Url(p, core, pert)[|Endpoint| + 1..] == q;
    KeysPlain();
    ValuesPlain(p, core, pert);
    ZipAt(QueryKeys, vs);
    forall i | 0 <= i < |fs|
      ensures Plain(fs[i])
    {
      assert fs[i] == Field(QueryKeys[i], vs[i]);
    }
    QueryRoundTrip(fs);
  }

  /** The first field names the remote file derived from the pair and the
      initialisation time, the last one the remote directory, and between
      them the subregion is left empty. */
  lemma FileAndDirFields(p: RunParameters, core: string, pert: string)
    ensures var fs := Fields(p, core, pert);
      fs[0] == Field("file", FileValue(p.init, core, pert)) &&
      fs[12] == Field("subregion", "") &&
      fs[17] == Field("dir", DirValue(p.init))
  {
    ZipAt(QueryKeys, QueryValues(p, core, pert));
  }

  /** Every level the request names is switched on. */
  lemma LevelFields(p: RunParameters, core: string, pert: string)
    ensures var fs := Fields(p, core, pert);
      forall i :: 0 <= i < 5 ==> fs[1 + i] == Field(LevelKeys[i], "on")
  {
    ZipAt(QueryKeys, QueryValues(p, core, pert));
  }

  /** Every variable the request names is switched on. */
  lemma VariableFields(p: RunParameters, core: string, pert: string)
    ensures var fs := Fields(p, core, pert);
      forall i :: 0 <= i < 6 ==> fs[6 + i] == Field(VariableKeys[i], "on")
  {
    ZipAt(QueryKeys, QueryValues(p, core, pert));
  }

  /** The bounding box is passed as given, west, east, north, south. */
  lemma BoxFields(p: RunParameters, core: string, pert: string)
    ensures var fs := Fields(p, core, pert);
      fs[13] == Field("leftlon", p.box.left) && fs[14] == Field("rightlon", p.box.right) &&
      fs[15] == Field("toplat", p.box.top) && fs[16] == Field("bottomlat", p.box.bottom)
  {
    ZipAt(QueryKeys, QueryValues(p, core, pert));
  }

  /** The hour and date of the script's run, 2015-11-20 21Z. */
  lemma FixedStamps()
    ensures HourStamp(Fixed.init) == "21" && DateStamp(Fixed.init) == "20151120"
  {
  }

  /** The remote file of the script's first request. */
  lemma FirstFile()
    ensures FileValue(Fixed.init, "arw", "ctl") == "sref_arw.t21z.pgrb212.ctl.grib2"
  {
    FixedStamps();
  }

  /** The remote directory of every request of the script. */
  lemma FixedDir()
    ensures DirValue(Fixed.init) == "%2Fsref.20151120%2F21%2Fpgrb_biasc"
  {
    FixedStamps();
  }

  // ---------------------------------------------------------------------------
  // Local file names

  /** `'sref_{core:s}_{pert:s}.grb2'.format(**curdat)` */
  function RawName(core: string, pert: string): string {
    "sref_" + core + "_" + pert + ".grb2"
  }

  /** `filename.replace('grb2', 'nc')` */
  function ConvertedName(core: string, pert: string): string {
    Replace(RawName(core, pert), "grb2", "nc")
  }

  /** When neither identifier contains "grb2", the only occurrence is the
      extension, so the converted name is the raw name with ".nc" in place of
      ".grb2". */
  lemma ConvertedShape(core: string, pert: string)
    requires !Occurs(core, "grb2") && !Occurs(pert, "grb2")
    ensures ConvertedName(core, pert) == "sref_" + core + "_" + pert + ".nc"
  {
    var a := "sref_" + core + "_" + pert + ".";
    var raw := RawName(core, pert);
    var c, q := |core|, |pert|;
    assert raw == a + "grb2";
    assert raw[0] == 's' && raw[4] == '_' && raw[5 + c] == '_' && raw[6 + c + q] == '.';
    NoMatchOver(raw, "grb2", 0);
    NoMatchOver(raw, "grb2", 4);
    NoMatchOver(raw, "grb2", 5 + c);
    NoMatchOver(raw, "grb2", 6 + c + q);
    assert raw[5..5 + c] == core;
    assert raw[6 + c..6 + c + q] == pert;
    forall i | 0 <= i < |a|
      ensures !MatchAt(raw, "grb2", i)
    {
      if 5 <= i && i + 4 <= 5 + c && MatchAt(raw, "grb2", i) {
        MatchInside(raw, "grb2", 5, 5 + c, i);
      } else if 6 + c <= i && i + 4 <= 6 + c + q && MatchAt(raw, "grb2", i) {
        MatchInside(raw, "grb2", 6 + c, 6 + c + q, i);
      }
    }
    ReplaceKeepsPrefix(a, "grb2", "grb2", "nc");
    assert Replace("grb2", "grb2", "nc") == "nc";
  }

  /** The (core, pert) pair a local name `sref_{core}_{pert}{ext}` was made
      from, cutting at the first '_' after the prefix. */
  function ParseName(name: string, ext: string): Option<(string, string)> {
    if |name| >= 5 + |ext| && "sref_" <= name && EndsWith(name, ext)
    then SplitFirst(name[5..|name| - |ext|], '_')
    else None
  }

  lemma ParseLocalName(core: string, pert: string, ext: string)
    requires '_' !in core
    ensures ParseName("sref_" + core + "_" + pert + ext, ext) == Some((core, pert))
  {
    var name := "sref_" + core + "_" + pert + ext;
    assert name == "sref_" + (core + ['_'] + pert) + ext;
    assert name[5..|name| - |ext|] == core + ['_'] + pert;
    SplitFirstAt(core, pert, '_');
  }

  /** Both local names give back the pair they were made from. */
  lemma NamesIdentifyPair(core: string, pert: string)
    requires '_' !in core && !Occurs(core, "grb2") && !Occurs(pert, "grb2")
    ensures ParseName(RawName(core, pert), ".grb2") == Some((core, pert))
    ensures ParseName(ConvertedName(core, pert), ".nc") == Some((core, pert))
  {
    ParseLocalName(core, pert, ".grb2");
    ConvertedShape(core, pert);
    ParseLocalName(core, pert, ".nc");
  }

  // ---------------------------------------------------------------------------
  // The plan

  /** One iteration of the inner loop: the pair and its two local file names.
      The URL the iteration requests is Url(p, core, pert). */
  datatype Task = Task(core: string, pert: string, raw: string, converted: string)

  function MakeTask(core: string, pert: string): Task {
    Task(core, pert, RawName(core, pert), ConvertedName(core, pert))
  }

  /** The pairs that `for core in cores: for pert in perts` visits, in order. */
  function Pairs(cores: seq<string>, perts: seq<string>): seq<(string, string)>
    decreases |cores|
  {
    if cores == [] then []
    else seq(|perts|, j requires 0 <= j < |perts| => (cores[0], perts[j])) + Pairs(cores[1..], perts)
  }

  function TasksOf(pairs: seq<(string, string)>): (ts: seq<Task>)
    ensures |ts| == |pairs|
    decreases |pairs|
  {
    if pairs == [] then [] else [MakeTask(pairs[0].0, pairs[0].1)] + TasksOf(pairs[1..])
  }

  lemma {:induction false} TasksOfAt(pairs: seq<(string, string)>)
    ensures forall k :: 0 <= k < |pairs| ==> TasksOf(pairs)[k] == MakeTask(pairs[k].0, pairs[k].1)
    decreases |pairs|
  {
    if pairs != [] {
      TasksOfAt(pairs[1..]);
    }
  }

  /** One task per visited pair, in the order of the visits. */
  function Plan(p: RunParameters): seq<Task> {
    TasksOf(Pairs(p.cores, p.perts))
  }

  lemma MulSmall(a: int, n: int)
    requires n > 0 && -n < a * n < n
    ensures a == 0
  {
    assert a >= 1 ==> a * n >= n;
    assert a <= -1 ==> a * n <= -n;
  }

  /** Quotient and remainder are the only ones with k == q * n + r and 0 <= r < n. */
  lemma DivModUnique(k: int, n: int, q: int, r: int)
    requires n > 0 && 0 <= r < n && k == q * n + r
    ensures k / n == q && k % n == r
  {
    var q', r' := k / n, k % n;
    assert k == q' * n + r' && 0 <= r' < n;
    assert (q - q') * n == r' - r;
    MulSmall(q - q', n);
  }

  lemma DivModShift(k: int, n: int)
    requires 0 < n <= k
    ensures (k - n) / n == k / n - 1 && (k - n) % n == k % n
  {
    var q, r := k / n, k % n;
    assert k == q * n + r;
    assert k - n == (q - 1) * n + r;
    DivModUnique(k - n, n, q - 1, r);
  }

  lemma SameDivMod(k1: int, k2: int, n: int)
    requires n > 0
    ensures k1 / n == k2 / n && k1 % n == k2 % n ==> k1 == k2
  {
    assert k1 == (k1 / n) * n + k1 % n;
    assert k2 == (k2 / n) * n + k2 % n;
  }

  lemma MulStep(m: int, n: int)
    ensures m * n == n + (m - 1) * n
  {
  }

  lemma GridIndex(i: int, j: int, m: int, n: int)
    requires 0 <= i < m && 0 <= j < n
    ensures 0 <= i * n + j < m * n
  {
    assert (i + 1) * n <= m * n by {
      assert m * n == (i + 1) * n + (m - i - 1) * n;
    }
  }

  /** The nested loops visit |cores| * |perts| pairs. */
  lemma {:induction false} PairsLength(cores: seq<string>, perts: seq<string>)
    ensures |Pairs(cores, perts)| == |cores| * |perts|
    decreases |cores|
  {
    if cores != [] {
      PairsLength(cores[1..], perts);
      MulStep(|cores|, |perts|);
    }
  }

  /** The visits are core-major: visit k is the pair
      (cores[k / |perts|], perts[k % |perts|]), so every perturbation of one
      core comes before any of the next. */
  lemma {:induction false} PairsAt(cores: seq<string>, perts: seq<string>)
    ensures forall k | 0 <= k < |Pairs(cores, perts)| ::
      |perts| > 0 && k / |perts| < |cores| &&
      Pairs(cores, perts)[k] == (cores[k / |perts|], perts[k % |perts|])
    decreases |cores|
  {
    if cores != [] {
      var n := |perts|;
      var row := seq(n, j requires 0 <= j < n => (cores[0], perts[j]));
      var rest := Pairs(cores[1..], perts);
      var ps := Pairs(cores, perts);
      assert ps == row + rest;
      PairsAt(cores[1..], perts);
      forall k | 0 <= k < |ps|
        ensures n > 0 && k / n < |cores| && ps[k] == (cores[k / n], perts[k % n])
      {
        if k < n {
          DivModUnique(k, n, 0, k);
          assert ps[k] == row[k];
        } else {
          var k' := k - n;
          assert ps[k] == rest[k'];
          DivModShift(k, n);
          assert cores[1..][k' / n] == cores[k / n];
        }
      }
    } else {
      assert Pairs(cores, perts) == [];
    }
  }

  /** Iteration k of the nested loops handles the pair
      (cores[k / |perts|], perts[k % |perts|]). */
  lemma PlanAt(p: RunParameters, k: int)
    requires 0 <= k < |Plan(p)|
    ensures |p.perts| > 0 && 0 <= k / |p.perts| < |p.cores|
    ensures Plan(p)[k] == MakeTask(p.cores[k / |p.perts|], p.perts[k % |p.perts|])
  {
    var pairs := Pairs(p.cores, p.perts);
    PairsAt(p.cores, p.perts);
    TasksOfAt(pairs);
    assert pairs[k] == (p.cores[k / |p.perts|], p.perts[k % |p.perts|]);
  }

  lemma PlanSize(p: RunParameters)
    ensures |Plan(p)| == |p.cores| * |p.perts|
  {
    PairsLength(p.cores, p.perts);
  }

  // ---------------------------------------------------------------------------
  // Distinct names

  predicate Distinct(xs: seq<string>) {
    forall i, j :: 0 <= i < j < |xs| ==> xs[i] != xs[j]
  }

  /** Axes on which the file names tell the pairs apart: no identifier is
      repeated, no core contains the '_' that separates it from the
      perturbation, and no identifier contains "grb2". */
  predicate WellFormedAxes(cores: seq<string>, perts: seq<string>) {
    && Distinct(cores) && Distinct(perts)
    && (forall c | c in cores :: '_' !in c && !Occurs(c, "grb2"))
    && (forall q | q in perts :: !Occurs(q, "grb2"))
  }

  /** Two iterations that handle the same pair are the same iteration. */
  lemma PairIdentifiesIteration(p: RunParameters, k1: int, k2: int)
    requires Distinct(p.cores) && Distinct(p.perts)
    requires 0 <= k1 < |Plan(p)| && 0 <= k2 < |Plan(p)|
    ensures Plan(p)[k1].core == Plan(p)[k2].core && Plan(p)[k1].pert == Plan(p)[k2].pert ==> k1 == k2
  {
    PlanAt(p, k1);
    PlanAt(p, k2);
    var n := |p.perts|;
    var i1, j1, i2, j2 := k1 / n, k1 % n, k2 / n, k2 % n;
    assert p.cores[i1] == p.cores[i2] ==> i1 == i2;
    assert p.perts[j1] == p.perts[j2] ==> j1 == j2;
    SameDivMod(k1, k2, n);
  }

  /** On well-formed axes every raw name ends in ".grb2" and every converted
      name in ".nc", and no two iterations share a raw or a converted name. */
  lemma PlanNames(p: RunParameters)
    requires WellFormedAxes(p.cores, p.perts)
    ensures forall k | 0 <= k < |Plan(p)| ::
      EndsWith(Plan(p)[k].raw, ".grb2") && EndsWith(Plan(p)[k].converted, ".nc")
    ensures forall k1, k2 | 0 <= k1 < k2 < |Plan(p)| ::
      Plan(p)[k1].raw != Plan(p)[k2].raw && Plan(p)[k1].converted != Plan(p)[k2].converted
  {
    var plan := Plan(p);
    forall k | 0 <= k < |plan|
      ensures EndsWith(plan[k].raw, ".grb2") && EndsWith(plan[k].converted, ".nc")
    {
      PlanAt(p, k);
      var t := plan[k];
      ConvertedShape(t.core, t.pert);
      var stem := "sref_" + t.core + "_" + t.pert;
      assert t.raw == stem + ".grb2" && t.converted == stem + ".nc";
    }
    forall k1, k2 | 0 <= k1 < k2 < |plan|
      ensures plan[k1].raw != plan[k2].raw && plan[k1].converted != plan[k2].converted
    {
      PlanAt(p, k1);
      PlanAt(p, k2);
      var t1, t2 := plan[k1], plan[k2];
      NamesIdentifyPair(t1.core, t1.pert);
      NamesIdentifyPair(t2.core, t2.pert);
      PairIdentifiesIteration(p, k1, k2);
    }
  }

  /** Two iterations of one run that handle the same pair derive the same
      task; its URL, Url(p, core, pert), depends on nothing else either. */
  lemma SamePairSameTask(p: RunParameters, k1: int, k2: int)
    requires 0 <= k1 < |Plan(p)| && 0 <= k2 < |Plan(p)|
    requires Plan(p)[k1].core == Plan(p)[k2].core && Plan(p)[k1].pert == Plan(p)[k2].pert
    ensures Plan(p)[k1] == Plan(p)[k2]
  {
    PlanAt(p, k1);
    PlanAt(p, k2);
  }

  /** The script's own axes are well formed. */
  lemma FixedAxes()
    ensures WellFormedAxes(Cores, Perts)
  {
  }

  /** The script runs 2 * 13 = 26 iterations. */
  lemma FixedPlanSize()
    ensures |Plan(Fixed)| == 26
  {
    PlanSize(Fixed);
  }

  /** The script's iterations: the 13 perturbations of "arw", then the 13 of
      "nmb", each with raw name `sref_{core}_{pert}.grb2` and NetCDF name
      `sref_{core}_{pert}.nc`, no NetCDF name used twice. */
  lemma FixedPlan()
    ensures |Plan(Fixed)| == 26
    ensures forall k | 0 <= k < 26 ::
      Plan(Fixed)[k].core == (if k < 13 then "arw" else "nmb") && Plan(Fixed)[k].pert == Perts[k % 13]
    ensures forall k | 0 <= k < 26 ::
      var t := Plan(Fixed)[k];
      t.raw == "sref_" + t.core + "_" + t.pert + ".grb2" &&
      t.converted == "sref_" + t.core + "_" + t.pert + ".nc"
    ensures forall k1, k2 | 0 <= k1 < k2 < 26 :: Plan(Fixed)[k1].converted != Plan(Fixed)[k2].converted
  {
    FixedPlanSize();
    FixedAxes();
    PlanNames(Fixed);
    forall k | 0 <= k < 26
      ensures Plan(Fixed)[k].core == (if k < 13 then "arw" else "nmb") && Plan(Fixed)[k].pert == Perts[k % 13]
      ensures var t := Plan(Fixed)[k];
        t.raw == "sref_" + t.core + "_" + t.pert + ".grb2" &&
        t.converted == "sref_" + t.core + "_" + t.pert + ".nc"
    {
      PlanAt(Fixed, k);
      if k < 13 {
        DivModUnique(k, 13, 0, k);
      } else {
        DivModUnique(k, 13, 1, k - 13);
      }
      var t := Plan(Fixed)[k];
      ConvertedShape(t.core, t.pert);
    }
  }
}
