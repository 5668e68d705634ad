# get_sref.py: the download plan and the fetch-and-convert loop

`get_sref.py` downloads the bias-corrected SREF ensemble from the NOMADS
GRIB filter for one initialisation time (2015-11-20 21Z) and one subregion
(longitudes -125.5 to -65.5, latitudes 24.5 to 50). It empties the working
directory of `*.nc` and `*.grib2` files. Then, for every model core
(`arw`, `nmb`) and every perturbation (`ctl`, `n1`…`n6`, `p1`…`p6`), taken
core by core, it:

- fills in the URL template;
- names the local raw file `sref_{core}_{pert}.grb2`;
- names the NetCDF file by replacing `grb2` with `nc` in the raw name;
- skips the pair when that NetCDF file already exists;
- otherwise downloads the raw file and runs `wgrib2` to convert it.

The model has four modules:

- `Text` (`text.dfy`) holds the string operations the script takes from
  Python: zero-padded decimals for the `%H`, `%m`, `%d` and `%Y`
  directives, and `str.replace` with Python's semantics, including the
  empty pattern.
- `Query` (`query.dfy`) builds a URL query string from `key=value` fields.
  It also has a reader that splits the string back, as the partner of the
  writer.
- `SrefPlan` (`plan.dfy`) covers what each iteration derives: the URL (the
  template filled field by field), the raw and NetCDF names, and the
  plan. The plan is the sequence of tasks in the order of the two nested
  loops.
- `SrefDriver` (`driver.dfy`) covers what the script does with the plan.
  `Execute` is the specification: a run as a function of the directory and
  one `Outcome` per iteration. An outcome says that the download raised,
  or that it succeeded and the converter did or did not leave the NetCDF
  file behind. The class `WorkDir` holds the directory as a set of names
  and the log of the downloads. Its methods are the cleanup, the
  download, the conversion, the loop body and the nested loops, and each
  is proved against `Clean` and `Execute`.

Together the lemmas show the following:

- the loops visit |cores| × |perts| pairs, core-major, which is 26 for the
  script;
- each URL reads back as exactly the template's 18 fields, in the
  template's order;
- the file names give back their pair, and no two iterations share a
  name;
- after the cleanup no iteration is skipped: the run downloads the plan in
  order up to the first failing download.

There is a consequence for re-runs. The cleanup deletes every `.nc` file,
so a second run of the script downloads all 26 files again
(`RerunWithCleanup`). The existence check only skips work when the loop
runs without the cleanup (`RerunWithoutCleanup`). The model follows the
code here, which has the cleanup. Two more places where the model follows
the code:

- The cleanup's second pattern is `*.grib2`, while the raw files end in
  `.grb2`, so raw downloads survive the cleanup.
- The NetCDF name replaces every occurrence of `grb2`, not only the
  extension. `ConvertedShape` states when the two readings agree.

## Model

| member | source | states |
|---|---|---|
| Text.PaddedRoundTrip | get_sref.py:18 | a number below 10^width is rendered in exactly `width` digits that read back as the number (the `%H`, `%m`, `%d`, `%Y` fields) |
| Text.ReplaceKeepsPrefix | get_sref.py:35 | `str.replace` copies unchanged a leading part in which no occurrence of the pattern starts |
| Text.ReplaceWithoutOccurrence | get_sref.py:35 | `str.replace` leaves a string without an occurrence of a non-empty pattern as it is |
| Query.QueryRoundTrip | get_sref.py:18 | a non-empty list of fields without '&' or '=' in the keys and no '&' in the values, joined as `k=v&k=v…`, is read back as exactly that list, in order |
| SrefPlan.StampsRoundTrip | get_sref.py:18 | for a valid time the hour stamp has 2 digits and the date stamp 8, which read back as hour, year, month and day |
| SrefPlan.FixedStamps | get_sref.py:7 | for 2015-11-20 21Z the hour stamp is "21" and the date stamp "20151120" |
| SrefPlan.UrlQuery | get_sref.py:18 | the URL is the filter endpoint, '?', and a query that reads back as exactly the template's fields in the template's order |
| SrefPlan.FileAndDirFields | get_sref.py:18 | field 0 is `file=sref_{core}.t{HH}z.pgrb212.{pert}.grib2`, field 12 is an empty `subregion`, field 17 is `dir=%2Fsref.{YYYYMMDD}%2F{HH}%2Fpgrb_biasc` |
| SrefPlan.LevelFields | get_sref.py:18 | fields 1 to 5 switch on the five levels, in the template's order |
| SrefPlan.VariableFields | get_sref.py:18 | fields 6 to 11 switch on the six variables, in the template's order |
| SrefPlan.BoxFields | get_sref.py:18 | fields 13 to 16 carry the west, east, north and south bounds as given |
| SrefPlan.ValuesPlain | get_sref.py:18 | no field value of the template contains '&' when core, perturbation and bounds do not |
| SrefPlan.KeysPlain | get_sref.py:18 | no key of the template contains '&' or '=' |
| SrefPlan.FirstFile | get_sref.py:18 | the first request's file is `sref_arw.t21z.pgrb212.ctl.grib2` |
| SrefPlan.FixedDir | get_sref.py:18 | every request of the script asks for directory `%2Fsref.20151120%2F21%2Fpgrb_biasc` |
| SrefPlan.ConvertedShape | get_sref.py:34-35 | when neither identifier contains "grb2", replacing "grb2" by "nc" in the raw name gives `sref_{core}_{pert}.nc` |
| SrefPlan.ParseLocalName | get_sref.py:34 | a name `sref_{core}_{pert}{ext}` with no '_' in the core is read back as its pair |
| SrefPlan.NamesIdentifyPair | get_sref.py:34-35 | both the raw and the NetCDF name of a pair are read back as that pair |
| SrefPlan.PairsLength | get_sref.py:24-25 | the nested loops visit |cores| × |perts| pairs |
| SrefPlan.PairsAt | get_sref.py:24-25 | visit k is the pair (cores[k / |perts|], perts[k % |perts|]): every perturbation of one core comes before the next core |
| SrefPlan.PlanAt | get_sref.py:24-35 | task k of the plan is the task of the pair (cores[k / |perts|], perts[k % |perts|]) |
| SrefPlan.PlanSize | get_sref.py:24-25 | the plan has |cores| × |perts| tasks |
| SrefPlan.PairIdentifiesIteration | get_sref.py:24-25 | with no repeated core or perturbation, two iterations that handle the same pair are the same iteration |
| SrefPlan.SamePairSameTask | get_sref.py:26-35 | two iterations that handle the same pair derive the same task: names and URL depend only on the run's parameters and the pair |
| SrefPlan.PlanNames | get_sref.py:34-35 | on well-formed axes every raw name ends in ".grb2", every NetCDF name in ".nc", and no two iterations share a raw or a NetCDF name |
| SrefPlan.FixedAxes | get_sref.py:15-16 | the script's cores and perturbations are distinct, no core has a '_', no identifier contains "grb2" |
| SrefPlan.FixedPlanSize | get_sref.py:15-16 | the script runs 2 × 13 = 26 iterations |
| SrefPlan.FixedPlan | get_sref.py:15-35 | the script's 26 tasks are the 13 perturbations of "arw" then of "nmb", named `sref_{core}_{pert}.grb2` and `sref_{core}_{pert}.nc`, with 26 different NetCDF names |
| SrefDriver.FirstFailure | get_sref.py:39 | the position of the first failing download: every earlier download succeeds and the one at that position fails, or none fails |
| SrefDriver.ExecuteAborted | get_sref.py:39 | after a failed download (an uncaught exception) nothing more happens |
| SrefDriver.ExecuteFrom | get_sref.py:24-41 | the run from iteration k is iteration k followed by the run from k + 1 |
| SrefDriver.ExecuteAllPresent | get_sref.py:36-37 | when every NetCDF file is present, a run downloads nothing and leaves the directory as it is |
| SrefDriver.FreshAfterFetch | get_sref.py:39-41 | downloading and converting one task writes no NetCDF file of a later task |
| SrefDriver.FreshRun | get_sref.py:24-41 | a run that meets no skip downloads the tasks in order up to the first failing download, stops there, and the directory gains exactly their raw files and the NetCDF files produced |
| SrefDriver.ProducedAll | get_sref.py:41 | when every conversion succeeds, every NetCDF file of the tasks is produced |
| SrefDriver.SuffixesDiffer | get_sref.py:21-22 | a ".grb2" name is not a ".nc" name and matches neither cleanup pattern |
| SrefDriver.CleanNames | get_sref.py:21-22 | the cleanup deletes every NetCDF name of the plan and keeps a raw name exactly when it was there |
| SrefDriver.CleanIdempotent | get_sref.py:21-22 | cleaning twice is cleaning once, and the cleanup only deletes |
| SrefDriver.CleanRun | get_sref.py:21-41 | after the cleanup no iteration is skipped: the run downloads the plan in order up to the first failure, aborts exactly when one fails, and adds the raw and produced NetCDF files |
| SrefDriver.CompleteRun | get_sref.py:21-41 | after the cleanup, with no failing download, the run downloads the whole plan and adds every raw file |
| SrefDriver.RerunWithoutCleanup | get_sref.py:36-37 | without the cleanup, a second run after a complete one skips every iteration and changes nothing |
| SrefDriver.RawsSurviveClean | get_sref.py:21-22 | the cleanup keeps every raw file of the plan |
| SrefDriver.RerunWithCleanup | get_sref.py:21-41 | with the cleanup, a second run after a complete one downloads all tasks again, and the first run's raw files survive the cleanup |
| SrefDriver.PlanIndex | get_sref.py:24-25 | inner iteration j for cores[i] is plan position i × |perts| + j |
| SrefDriver.WorkDir.Remove | get_sref.py:21-22 | `rm -f *{suffix}` deletes exactly the names ending in the suffix |
| SrefDriver.WorkDir.Cleanup | get_sref.py:21-22 | the directory becomes Clean of the old directory: names ending in ".nc" or ".grib2" are gone, the rest stay |
| SrefDriver.WorkDir.Retrieve | get_sref.py:39 | a successful download adds the raw name and logs the task; nothing else changes |
| SrefDriver.WorkDir.Convert | get_sref.py:41 | the conversion adds at most the task's own NetCDF name; nothing else changes |
| SrefDriver.WorkDir.Visit | get_sref.py:36-41 | the loop body: skip when the NetCDF file exists, otherwise download and convert, or report the failing download; the new state is Step of the old |
| SrefDriver.WorkDir.FetchAll | get_sref.py:24-41 | the nested loops leave the directory and the log that Execute specifies for the plan, and report completion exactly when no download failed |
| SrefDriver.WorkDir.RunScript | get_sref.py:21-41 | the whole script downloads the 26 tasks in order up to the first failure; the directory keeps what survived the cleanup and gains the raw and produced NetCDF files |

## Left out

- The HTTP transfer (`urllib.request.urlretrieve`) is not modelled. Each iteration gets an `Outcome` instead, and a failing download ends the run, as the uncaught exception does.
- SrefDriver.WorkDir.Retrieve: a download that fails part-way may leave a partial raw file behind; the model leaves the directory unchanged on failure.
- The `wgrib2` converter and its GRIB2 to NetCDF semantics are left out. The model keeps only whether the NetCDF name appears. The exit status is ignored, as in the script.
- The float formatting of the bounds (`{left:f}` and so on) is not modelled. The bounds are the strings that formatting gives ("-125.500000", "-65.500000", "50.000000", "24.500000").
- `datetime` is reduced to year, month, day and hour. `%Y` is modelled as at least four zero-padded digits; what Python prints for years below 1000 depends on the platform.
- Shell details of `rm -f` and its globs are left out: dotfiles, directories, quoting and `os.system` process behaviour. The cleanup is a suffix filter on the set of names.
- The directory is a set of names; file contents are not modelled. A corrupt or empty NetCDF file counts as present, as in the script.
- Other processes changing the directory while the script runs are not modelled.
- A `Task` holds the pair and its two local names. The URL of an iteration is `Url(p, core, pert)`; the log records tasks, not URLs.
- The full literal URL of each request is not stated as one string. The lemmas state its fields one by one, the first request's file value and the directory value.

