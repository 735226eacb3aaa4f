# Moquegua alerts: a Dafny model of the alert pipeline and its history store

This project models the batch core of the Moquegua weather-alert system and proves
properties of it in Dafny. The core has three parts.

1. **The SENAMHI bulletin side** (`src/geoidep_python.py`, module `GeoIdep` in
   `geoidep.dfy`):
   - the bulletin table, turned row by row into seven-field alert rows;
   - the alert number and year, taken out of a row;
   - the WFS request for an alert's shapefile, and the checks on its response;
   - the static district and province tables used when the boundary download fails.
2. **The pipeline** (`src/get_alerts.py`, module `GetAlerts` in `alerts.dfy`):
   - `get_moquegua_alerts` keeps the alerts that end today or later;
   - it selects the districts of department 18 and left-joins them to their province names;
   - it intersects each alert's non-background features with the districts;
   - it emits one duplicate-free record per (alert, district);
   - `save_to_database` writes each distinct alert, with its status and its district list, into the store.
3. **The alert history store** (`src/database.py`, class `Database.AlertDatabase` in
   `database.dfy`):
   - the two SQLite tables `alerts_history` and `affected_districts` are held as
     sequences in rowid order, together with their AUTOINCREMENT counters;
   - the upsert, the replacement of child rows, the status update, the cleanup and
     the three queries are methods on them.

`common.dfy` (module `Common`) holds the shared pieces:
- `Option`;
- pandas' keep-first `drop_duplicates`;
- boolean-mask selection (`Filter`);
- `ConcatMap`, the list built by a loop that extends one list per element.

Everything outside the process is passed in as a parameter. In `alerts.dfy` these parameters are bundled in `Env`:
- the HTTP client;
- the shapefile reader;
- `pd.to_datetime`, as a day number;
- `make_valid`;
- the `intersects` predicate of the spatial join.

A parameter that returns `None` stands for a call that raised. Geometry is a type
parameter `G` that nothing looks inside. "Today" is a day number. The cutoff that
`date('now', '-N days')` computes is a date string. The `DATE` columns have NUMERIC
affinity, but an ISO date string does not convert to a number, so date strings are stored
and compared as text, with the lexicographic order on characters (SQLite's BINARY collation).

## Model

| member | source | states |
|---|---|---|
| Common.DropDuplicates | src/get_alerts.py:138-139 | The result has no repeated row, every row of the input is in it, every row of it is from the input, and it is no longer than the input |
| Common.DropDuplicatesOfDistinct | src/get_alerts.py:139 | A table without repeated rows is unchanged by drop_duplicates |
| Common.DropDuplicatesIdempotent | src/get_alerts.py:139 | Dropping duplicates a second time changes nothing |
| Common.DropDuplicatesKeepsOrder | src/get_alerts.py:139 | Kept rows appear in the order of their first occurrences in the input (keep='first') |
| Common.Filter | src/get_alerts.py:45 | A mask selection keeps exactly the elements satisfying the mask, never more than the input |
| Common.FilterAppend | src/get_alerts.py:45 | Mask selection on a concatenation is the concatenation of the selections: source order is kept |
| Common.ConcatMapFrom | src/get_alerts.py:79-126 | Every element of the accumulated list comes from the list of one input element |
| Common.ConcatMapHas | src/get_alerts.py:79-126 | Every element of every per-element list lands in the accumulated list |
| Common.ConcatMapAppend | src/get_alerts.py:79-126 | Accumulating over a concatenation is accumulating over each part, in order |
| GeoIdep.RowOf | src/geoidep_python.py:61-69 | Cells 0..6 of a row become aviso, nro, emision, inicio, fin, duracion, nivel in that order |
| GeoIdep.TableRows | src/geoidep_python.py:58-69 | Every row with at least seven cells yields an alert row, and every alert row comes from such a row; none is invented |
| GeoIdep.TableRowsAppend | src/geoidep_python.py:58-69 | Row parsing works row by row: the rows of a concatenation are those of each part, in order |
| GeoIdep.MeteorologicalTable | src/geoidep_python.py:32-81 | The columns are always the seven names; with no table (or a failed request) there are no rows; otherwise the rows are those parsed from every row after the header |
| GeoIdep.ExtractNro | src/geoidep_python.py:95-96 | The alert number consists of digits only and is no longer than the input |
| GeoIdep.ExtractNroAppend | src/geoidep_python.py:96 | Digit extraction distributes over concatenation, so the digits keep their original order |
| GeoIdep.ExtractNroOfDigits | src/geoidep_python.py:96 | A string of digits is its own alert number, so extraction is idempotent |
| GeoIdep.ExtractNroCounts | src/geoidep_python.py:96 | Every digit occurs in the result exactly as often as in the input, every other character never |
| GeoIdep.ExtractYear | src/geoidep_python.py:98-101 | The year is four digits: the first four characters of emision when all are digits, otherwise '2025' |
| GeoIdep.WfsUrl | src/geoidep_python.py:29 | The request starts with the template's fixed part and has its length plus those of nro, '_1_' and year |
| GeoIdep.WfsUrlRoundTrip | src/geoidep_python.py:104 | A request built from nro and a four-character year parses back to exactly that nro and year |
| GeoIdep.ParseWfsUrlSound | src/geoidep_python.py:29 | Every string that parses as a request is the template filled with what it parses to |
| GeoIdep.AlertUrl | src/geoidep_python.py:94-104 | The request for an alert row names that row's extracted number and year |
| GeoIdep.SpatialAlerts | src/geoidep_python.py:111-157 | A status-200 response whose body starts with PK yields exactly what the shapefile reader gives, and only such a response yields a geometry; a request that raised, a non-200 status or a non-zip body gives none |
| GeoIdep.FallbackDistrictColumnsAgree | src/geoidep_python.py:217-233 | The ubigeo, name, lat and lon lists of the district table all have 21 entries |
| GeoIdep.FallbackUbigeosWellFormed | src/geoidep_python.py:218-221 | The 21 fallback ubigeos are distinct six-digit codes starting with "18" |
| GeoIdep.FallbackDistricts | src/geoidep_python.py:213-240 | The fallback districts are the 21 table entries in order, each a disc of radius 0.15 around its point |
| GeoIdep.FallbackProvinces | src/geoidep_python.py:243-259 | The fallback provinces are the three table entries of department 18 in order, each a disc of radius 0.3 |
| GetAlerts.ActiveAlerts | src/get_alerts.py:43-45 | Exactly the alerts whose end day is today or later are kept, and only those |
| GetAlerts.ActiveAlertsAppend | src/get_alerts.py:45 | The active filter keeps source order: on a concatenation it is the concatenation of the results |
| GetAlerts.ActiveAlertsBoundary | src/get_alerts.py:45 | The comparison is inclusive: an alert ending today is active, one that ended yesterday is not |
| GetAlerts.RegionDistricts | src/get_alerts.py:56 | Exactly the districts whose ubigeo starts with "18" are selected |
| GetAlerts.ProvinceMap | src/get_alerts.py:61-63 | prov_map holds each (ccdd + ccpp, nombprov) pair of the provinces once, and nothing else |
| GetAlerts.WithCode | src/get_alerts.py:66-67 | An entry of the map is selected exactly when it has the code; there are none exactly when no entry has it |
| GetAlerts.JoinDistrict | src/get_alerts.py:66-67 | As many merged rows as matching map entries, or one row with no province when none matches. Each row carries the district and a province that agrees with the map, and every matching entry's name appears in a row |
| GetAlerts.LeftJoin | src/get_alerts.py:66-67 | Every merged row is an input district. Its province is missing exactly when no code matches the district's first four characters, and is otherwise a map name for that code. Every (district, matching map entry) pair gives a row with that entry's name, so two names for one code give two rows. There are at least as many rows as districts |
| GetAlerts.LeftJoinKeepsDistricts | src/get_alerts.py:67 | The merge is a left join: every district appears in the result |
| GetAlerts.WithCodeAtMostOne | src/get_alerts.py:63 | When codes are unique in the map, at most one entry has a given code |
| GetAlerts.LeftJoinOnePerDistrict | src/get_alerts.py:66-67 | When codes are unique in the map, the merge yields exactly one row per district, in district order |
| GetAlerts.RepairDistricts | src/get_alerts.py:70 | make_valid succeeds on the districts exactly when it succeeds on every shape, and then replaces each shape by its repair, keeping the rest |
| GetAlerts.RepairFeatures | src/get_alerts.py:91 | make_valid succeeds on the features exactly when it succeeds on every shape, and then replaces each shape by its repair, keeping the nivel |
| GetAlerts.NonBackground | src/get_alerts.py:94-95 | Exactly the features whose nivel is not 'Nivel 1' are kept |
| GetAlerts.Hits | src/get_alerts.py:102-107 | A district has join rows, all equal to itself, exactly when it intersects some feature |
| GetAlerts.SpatialJoinComplete | src/get_alerts.py:102-107 | Every district that intersects some feature appears in the inner spatial join |
| GetAlerts.SpatialJoinSound | src/get_alerts.py:102-107 | Every row of the spatial join is a district paired with a feature it intersects |
| GetAlerts.SpatialJoin | src/get_alerts.py:102-107 | No contract of its own; characterised by SpatialJoinComplete, SpatialJoinSound and NoHits |
| GetAlerts.NoHits | src/get_alerts.py:109-111 | When no district intersects any feature, the spatial join is empty, so the alert is skipped |
| GetAlerts.NoFeaturesNoRecords | src/get_alerts.py:86-99 | An alert without features to intersect contributes no record |
| GetAlerts.AllRecordsAppend | src/get_alerts.py:79-131 | The records of a sequence of alerts are those of each alert, in order: a skipped alert does not stop later ones |
| GetAlerts.ProcessAlert | src/get_alerts.py:82-131 | The body of the loop for one alert appends exactly the records that alert contributes: none when it is skipped, otherwise one per spatial-join row |
| GetAlerts.MoqueguaAlerts | src/get_alerts.py:31-143 | No contract of its own; computed by GetMoqueguaAlerts, characterised by MoqueguaRecordOrigin, MoqueguaRecordComplete, MoqueguaNoDuplicates, MoqueguaUnparsableDate and MoqueguaNothingActive |
| GetAlerts.GetMoqueguaAlerts | src/get_alerts.py:31-143 | The imperative loop computes the pipeline: fails when an end date does not parse or a district repair raises, is empty without active alerts, otherwise gives the deduplicated records of all active alerts |
| GetAlerts.MakeRecord | src/get_alerts.py:116-126 | No contract of its own; characterised by AlertRecordOrigin |
| GetAlerts.AlertRecordOrigin | src/get_alerts.py:116-126 | A record of an alert copies its five columns, names MOQUEGUA, and comes from a prepared district that intersects a kept feature |
| GetAlerts.AlertRecordComplete | src/get_alerts.py:102-126 | Every prepared district that intersects a kept feature of an alert yields a record of that alert |
| GetAlerts.AlertFeatures | src/get_alerts.py:84-99 | No contract of its own; characterised by NoFeaturesNoRecords, BackgroundNeverJoined and AlertRecordOrigin |
| GetAlerts.PreparedDistricts | src/get_alerts.py:56-70 | No contract of its own; characterised by PreparedDistrictOrigin and MoqueguaSteps |
| GetAlerts.PreparedDistrictOrigin | src/get_alerts.py:56-70 | A prepared district is a district of the region with its code and name, carrying the province prov_map gives for its code |
| GetAlerts.MoqueguaSteps | src/get_alerts.py:43-139 | A successful non-empty run parsed every date, repaired every district, and is the deduplicated record list of the active alerts |
| GetAlerts.AllRecordsSource | src/get_alerts.py:79-126 | Every accumulated record was made from one of the processed alerts with one prepared district |
| GetAlerts.MoqueguaRecordSource | src/get_alerts.py:43-139 | Each output record was made from an active alert of the bulletin and a prepared district of the run |
| GetAlerts.MoqueguaRecordOrigin | src/get_alerts.py:43-139 | Each output record names MOQUEGUA, copies the columns of a bulletin alert ending today or later, and names a district of department 18 with the province prov_map gives its code, or none when no code matches |
| GetAlerts.MoqueguaRecordComplete | src/get_alerts.py:43-139 | Every active alert is listed with every prepared district that intersects one of its kept features |
| GetAlerts.MoqueguaNoDuplicates | src/get_alerts.py:138-139 | The output has no repeated record, and deduplicating it again changes nothing |
| GetAlerts.MoqueguaUnparsableDate | src/get_alerts.py:43 | One end date that does not parse makes the whole run fail |
| GetAlerts.MoqueguaNothingActive | src/get_alerts.py:49-51 | Without an active alert the run returns the empty table whatever the districts, provinces and geometry are |
| GetAlerts.OnlyBackgroundNoRecords | src/get_alerts.py:94-99 | A shapefile with a nivel column and only 'Nivel 1' features contributes no record |
| GetAlerts.BackgroundNeverJoined | src/get_alerts.py:94-95 | With a nivel column, no 'Nivel 1' feature reaches the spatial join |
| GetAlerts.TwoOfThreeDistricts | src/get_alerts.py:94-126 | An alert whose single 'Nivel 3' shape meets districts A and C but not B yields exactly the records for A and C, in that order |
| GetAlerts.TwoOfThreeJoin | src/get_alerts.py:102-107 | The spatial join of A, B, C with a shape meeting A and C only is exactly A, C |
| GetAlerts.FallbackProvinceMap | src/geoidep_python.py:247-250 | The fallback provinces give prov_map 1801 MARISCAL NIETO, 1802 GENERAL SANCHEZ CERRO, 1803 ILO |
| GetAlerts.FallbackCodes | src/geoidep_python.py:218-221 | The first four digits of the fallback ubigeos are 1801 for six districts, 1802 for five, 1803 for ten |
| GetAlerts.FallbackRegion | src/get_alerts.py:56 | Every fallback district passes the "18" prefix filter |
| GetAlerts.FallbackJoinShape | src/get_alerts.py:56-67 | The merge on the fallback tables yields one row per fallback district, in order |
| GetAlerts.FallbackJoinComplete | src/geoidep_python.py:218-250 | On the fallback tables every one of the 21 districts finds its province, the one whose code is its ubigeo's first four digits; the merge never yields a missing province. Since the table gives MATALAQUE, PUQUINA, QUINISTAQUILLAS, UBINAS, YUNGA, LLOQUE and SAN ANTONIO the ubigeos 180304-180310, they are reported in the province ILO |
| GetAlerts.UniqueAlerts | src/get_alerts.py:155 | The unique alerts contain no repeated (Aviso, Nro, Nivel, Inicio, Fin) and are no more than the records |
| GetAlerts.UniqueAlertsCover | src/get_alerts.py:155 | Every record's five alert columns are among the unique alerts |
| GetAlerts.UniqueAlertsOrigin | src/get_alerts.py:155 | Every unique alert is the five alert columns of some record |
| GetAlerts.Status | src/get_alerts.py:159-160 | The status is 'active' exactly when the end day is today or later, and 'expired' exactly otherwise |
| GetAlerts.Districts | src/get_alerts.py:174-185 | The district dictionaries are the records' Distrito, Provincia and Departamento, one per record, in order |
| GetAlerts.DistrictsForSelects | src/get_alerts.py:174-176 | The districts for a number are those of every record with that Nro, whatever its Inicio, and only those |
| GetAlerts.DistrictsForAppend | src/get_alerts.py:174-176 | The selection by Nro keeps table order |
| GetAlerts.SaveAlert | src/get_alerts.py:157-187 | One pass of the loop succeeds exactly when Fin parses and every district has a province. When Fin parses, the alert's history row holds its key, Aviso, Nivel, Fin and the status 'active' iff Fin is today or later. On success the alert is stored with exactly the districts of its number, and alerts stored before stay stored. Every other history row and its child rows stay as they were |
| GetAlerts.KeptOutsideStep | src/get_alerts.py:157-187 | Saving one more unique alert, which touches only its own key, leaves every alert outside the saved ones untouched |
| GetAlerts.KeptOutsideWiden | src/get_alerts.py:157-187 | Touching only the alerts of a prefix of the unique alerts is touching only alerts of the whole list |
| GetAlerts.WrittenStep | src/get_alerts.py:157-171 | After saving the next unique alert, every saved alert whose key does not come again keeps its written row with its status; the one just saved has its new row |
| GetAlerts.SaveAll | src/get_alerts.py:157-187 | The loop succeeds exactly when every unique alert can be written. Then every one has its history row with exactly the districts of its number, and each alert whose key (Nro, Inicio) does not come again later holds its Aviso, Nivel, Fin and Fin-derived status. Whether it succeeds or not, history rows of other keys and their child rows are unchanged, and every added row has the key of a unique alert |
| GetAlerts.SaveToDatabase | src/get_alerts.py:146-187 | An empty table changes nothing. Otherwise saving succeeds exactly when every unique alert can be written, and then each has its history row carrying exactly the districts of its number. The last unique alert of each key wins: its row holds its Aviso, Nivel, Fin and the status 'active' iff Fin is today or later. Alerts whose key is not in the table keep their rows and child rows |
| Database.LexLessIrreflexive | src/database.py:147 | No date string sorts before itself |
| Database.LexLessTransitive | src/database.py:147 | The text order is transitive |
| Database.LexLessTotal | src/database.py:147 | Any two distinct date strings are ordered one way or the other |
| Database.SortDesc | src/database.py:147 | Sorting gives the same multiset of rows; SortDescCorrect adds the descending order |
| Database.SortDescCorrect | src/database.py:147 | ORDER BY ... DESC returns a permutation of its input rows, with no row sorting before a later one |
| Database.Upserted | src/database.py:77-112 | No contract of its own; characterised by AddAlertExisting, AddAlertNew, AddAlertKeepsInvariant and UpsertKeepsOthers |
| Database.FindAlert | src/database.py:77-82 | The lookup finds the first row with this (nro, inicio), or reports that none has it |
| Database.AddAlertExisting | src/database.py:84-98 | On an existing (nro, inicio) add_alert returns that row's id, overwrites only aviso, nivel, fin and status, and adds no row |
| Database.AddAlertNew | src/database.py:99-112 | On a new (nro, inicio) add_alert appends one row with the six values and returns an id no existing row has |
| Database.AddAlertKeepsInvariant | src/database.py:77-112 | add_alert keeps one row per (nro, inicio) and distinct ids below the counter; the alert's row then holds the returned id and exactly the six values passed |
| Database.WithStatus | src/database.py:183-187 | Every row with this nro gets the new status; every other row is unchanged |
| Database.WithStatusKeepsInvariant | src/database.py:183-187 | A status update keeps keys and ids, hence the table invariant |
| Database.CleanupExact | src/database.py:195-198 | Cleanup keeps a row exactly when its inicio is not before the cutoff, and keeps no other row |
| Database.FilterKeepsInvariant | src/database.py:195-198 | Deleting rows keeps one row per (nro, inicio) and distinct ids |
| Database.CleanupLeavesOrphans | src/database.py:191-198 | After cleanup, no kept row carries the id of a deleted alert, so that alert's child rows point at no alert |
| Database.WithoutChildrenOwn | src/database.py:124 | The DELETE removes every child row of the alert |
| Database.WithoutChildrenOther | src/database.py:124 | The DELETE keeps the child rows of every other alert, in order |
| Database.NewChildren | src/database.py:127-136 | The inserted rows have ids next, next + 1, ... and all point at the alert |
| Database.NewChildrenOf | src/database.py:127-136 | The inserted rows are, for the alert, exactly the districts in order, and for any other alert nothing |
| Database.ReplaceChildrenExact | src/database.py:118-139 | After add_affected_districts the alert's child rows are exactly the given districts in order; every other alert keeps its child rows |
| Database.InsertChildren | src/database.py:127-136 | The insert loop succeeds exactly when every district has a province, and then appends one row per district with consecutive ids |
| Database.ReplaceKeepsChildIds | src/database.py:124-136 | Replacing child rows keeps child ids increasing and below the advanced counter |
| Database.JoinOne | src/database.py:168-172 | The joined rows for one alert are its child rows with that district, one joined row per child row, in rowid order, duplicates included |
| Database.JoinOneKeepsDuplicates | src/database.py:168-172 | Two equal child rows of one alert give two joined rows: the join does not deduplicate |
| Database.DistrictJoin | src/database.py:168-172 | A row is in the join exactly when it pairs an alert with one of its child rows for district d |
| Database.DistrictJoinAppend | src/database.py:168-172 | The join over a concatenation of alert rows is the join over each part, in order |
| Database.DistrictJoinSingle | src/database.py:168-172 | One alert row contributes exactly its JoinOne rows; with DistrictJoinAppend the join is, alert by alert, one row per matching child row |
| Database.StoredAfterUpsert | src/database.py:77-112 | add_alert never loses a stored alert or its districts |
| Database.StoredAfterReplace | src/database.py:118-139 | add_affected_districts stores its alert with the new districts and keeps every other stored alert |
| Database.UpsertKeepsOthers | src/database.py:77-112 | add_alert leaves every history row of another key unchanged, keeps the key of the alert's row, and adds only a row with that key |
| Database.UpsertReplaceKeepsOthers | src/database.py:68-139 | add_alert followed by add_affected_districts for its id leaves other alerts' rows and child rows unchanged |
| Database.AlertDatabase.constructor | src/database.py:16-66 | A new store has both tables empty and satisfies the invariant |
| Database.AlertDatabase.AddAlert | src/database.py:68-116 | The upsert keyed by (nro, inicio): the new table and counter and the returned id are those of the update or insert branch; the invariant is kept, the alert's row holds the returned id and the six values passed, and affected_districts is untouched |
| Database.AlertDatabase.AddAffectedDistricts | src/database.py:118-139 | With every province present, the alert's child rows are replaced by the districts in order and the counter advances by their number; otherwise nothing changes; alerts_history is untouched |
| Database.AlertDatabase.GetActiveAlerts | src/database.py:141-151 | Returns exactly the rows with status 'active', each as often as in the table, latest inicio first |
| Database.AlertDatabase.GetAlertHistory | src/database.py:153-163 | Returns exactly the rows with inicio not before the cutoff, latest first |
| Database.AlertDatabase.GetDistrictHistory | src/database.py:165-177 | Returns the join rows of district d, each as often as in the join, latest first; every row is a stored alert with that district |
| Database.AlertDatabase.UpdateAlertStatus | src/database.py:179-189 | Every row with this nro gets the status, nothing else changes, and the invariant is kept |
| Database.AlertDatabase.CleanupOldAlerts | src/database.py:191-200 | Deletes exactly the history rows with inicio before the cutoff, keeps their order and the invariant, and leaves affected_districts as it is |

## Left out

- HTTP requests, HTML parsing with BeautifulSoup, `get_text(strip=True)`, zip extraction and shapefile or GeoJSON reading are not modelled. The bulletin page enters as the list of cell texts of each table row, with `None` for a page without a table or a request that raised. `requests.get` and the shapefile reader are function parameters.
- Real geometry is not modelled: `make_valid`, `Point.buffer` and the `intersects` test of `gpd.sjoin` are parameters. The fallback tables' discs are built by a `disc(lon, lat, radius)` parameter.
- `pd.to_datetime` and `pd.Timestamp.now().normalize()` are a parse parameter and a day number. Comparing a timestamp with today's midnight is modelled as comparing its day with today.
- The source raises on the first end date that does not parse. The run then fails as a whole (`MoqueguaUnparsableDate`); such dates are not skipped with a warning.
- GetAlerts.SpatialJoin: the row order of `gpd.sjoin` is assumed to be district order, then feature order within a district.
- An exception raised by `sjoin` itself, or inside the record loop, is not modelled. Only failures of the fetch, the shapefile reader and `make_valid` enter as `None`.
- A `make_valid` failure on the district shapes raises outside the `try` block, so the whole run fails (`None`); that is what the code does.
- Python's `\d` also matches non-ASCII digits. `GeoIdep.ExtractYear` treats only `0`-`9` as digits. `[^0-9]` in the number extraction is exactly ASCII.
- Database.AlertDatabase.constructor models only `init_database` on a new file (both tables empty). Opening an existing file is modelled by starting from any state that satisfies `Valid()`.
- SQLite connections, commits, the `created_at`/`updated_at` timestamps and the two indexes are not modelled. `date('now', '-N days')` is a cutoff string passed in.
- Database.AlertDatabase.AddAffectedDistricts: a district whose province is missing (NaN after the left merge) violates NOT NULL. The connection is then closed without commit, so the deletion is dropped too: the method returns `false` and changes nothing.
- GetAlerts.SaveToDatabase: the source raises on that failure, or on an end date that does not parse, and stops. The model returns `false` at that point, and alerts written before stay written. On failure the contract states only that alerts outside the table are untouched, not which of the table's alerts were written.
- GetAlerts.SaveToDatabase: the store is passed in rather than opened from the configured path.
- The district list for an alert is selected by `Nro` only, as the code does, so two alerts with the same number and different `Inicio` share districts (`DistrictsForSelects`).
- GeoIdep.GetDistricts and GeoIdep.GetProvinces only choose between a downloaded table (a parameter) and the fallback table. The download itself is not modelled, so they carry no contract of their own.
- Progress printing, the CSV export, `load_config`, `main`, the Streamlit app, map rendering, the R bridge, the scheduler and the one-off download and verification scripts are not part of this model.
