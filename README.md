# CSE Job Heatmap — a Dafny model of its data path

The job heatmap has three moving parts. A loader script reads the scraped
job CSV, fills in missing text fields and places every job on the map. A
job is placed at the first known Indian city its location names, plus a
small random jitter, or near India's centre when it names none. Each job
also gets a weight, boosted by its salary. The backend's `GET /api/jobs`
handler renames the stored documents into transport records. The React
page keeps the response when it is an array. It counts jobs per city and
sorts the cities by count. It turns located jobs into heat points, shows
the seven busiest cities in a bar chart, and lists the first five jobs as
chips with normalised titles.

This project models that data path in Dafny and proves what each step
promises:

- `values.dfy`: JavaScript field values with their truthiness, the transport record, and `Option`/`Result`.
- `server.dfy`: the backend projection and its 500 branch.
- `stable_sort.dfy`: the stable sort that `Array.prototype.sort` performs.
- `city_counts.dfy`:
  - the `forEach` tally, as a method with a loop;
  - the key order of `Object.entries`;
  - the sort by count.
- `heat_points.dfy`: the heat-layer points.
- `job_summary.dfy`: the strings of one "Latest Jobs" chip.
- `app.dfy`:
  - the load effect;
  - the values the page hands to its widgets;
  - a lemma that follows a stored weight through the backend to the map.
- `heatmap_geo.dfy`:
  - the city lookup with its jitter;
  - the column defaults;
  - the weight rule;
  - the loader script as a method.

Randomness is an input here. Each `random()` draw is a parameter in `[0, 1)`, and
`random.uniform(a, b)` is `a + (b - a) * u`, as CPython computes it. The
store read, the HTTP request and the CSV read are inputs as well. The store
read arrives as a `Result`, and the request's outcome as a `Result`. The CSV
arrives as a table of cells.

The loader script takes its city table as a parameter. `IndiaCities` holds the
script's ten cities, in the script's order. The lemmas about specific
cities use that table.

## Model

| member | source | states |
|---|---|---|
| Server.ToTransport | backend/server.js:31-39 | every transport record carries a truthy weight |
| Server.RoundTrip | backend/server.js:31-39 | reading a transport record back gives the stored document exactly when its stored weight is truthy; whatever the weight, every other field comes back unchanged, so the renaming loses nothing but a falsy weight |
| Server.WeightDefault | backend/server.js:38 | the sent weight equals the stored one exactly when that is truthy; an absent or zero weight is sent as 1 |
| Server.ListJobs | backend/server.js:28-44 | status 200 exactly when the store read succeeds, then one record per stored document, the i-th built from the i-th, every weight truthy; otherwise 500 with the body `Failed to load jobs` and no job list |
| Server.SingleRecordScenario | backend/server.js:30-40 | one stored record comes back renamed, weight 2 kept |
| Server.EmptyStoreScenario | backend/server.js:30-40 | an empty collection is a 200 with an empty list |
| StableSort.SortPerm | frontend/src/App.js:54 | the sort's output is a permutation of its input |
| StableSort.SortSorted | frontend/src/App.js:54 | the output is ordered by the key |
| StableSort.SortStable | frontend/src/App.js:54 | elements with equal keys keep their input order |
| StableSort.SortUnique | frontend/src/App.js:54 | any sequence ordered by the key, with the same elements per key in the same order, is the sort's output, so the result is fully determined |
| CityCounts.ComputeCityCounts | frontend/src/App.js:45-54 | the `forEach` loop over the data followed by `Object.entries`, `map` and `sort` yields `StatsOf(data)` |
| CityCounts.TallyFacts | frontend/src/App.js:46-50 | after the loop a city is a key exactly when its job count is positive, its value is that count, and the record of key creations lists each key once |
| CityCounts.CountPositive | frontend/src/App.js:47-48 | a city's count is positive exactly when some job has a truthy location equal to it |
| CityCounts.OwnKeysOrder | frontend/src/App.js:52 | `Object.entries` lists each key once: array-index keys first in ascending numeric order, then the other keys in creation order |
| CityCounts.StatsSorted | frontend/src/App.js:52-54 | the city counts are non-increasing |
| CityCounts.StatsMeaning | frontend/src/App.js:45-53 | each pair counts the jobs whose location is exactly its city, with no case or space folding; a city has a pair exactly when it has a job; no city has two pairs |
| CityCounts.StatsTotal | frontend/src/App.js:46-50 | the counts add up to the number of jobs with a truthy location |
| CityCounts.StatsTieOrder | frontend/src/App.js:52-54 | cities with equal counts keep `Object.entries` order, and any non-increasing arrangement with that tie order is the page's `stats` |
| CityCounts.UnlocatedIgnored | frontend/src/App.js:47 | a job with an empty or absent location changes nothing, wherever it stands |
| CityCounts.NamedCitiesKeepOrder | frontend/src/App.js:52 | city names are no array indices, so they keep creation order |
| CityCounts.TwoCitiesScenario | frontend/src/App.js:45-54 | two jobs in Bangalore and one in Pune give `[Bangalore 2, Pune 1]` |
| HeatPoints.HeatPoints | frontend/src/App.js:64-66 | there are never more points than jobs, and every point has a nonzero latitude, longitude and weight |
| HeatPoints.HeatPointsAppend | frontend/src/App.js:64-66 | the points of a concatenation are the points of its parts, in order |
| HeatPoints.HeatPointsCount | frontend/src/App.js:65 | there is one point per job with both coordinates truthy |
| HeatPoints.PointsFromKept | frontend/src/App.js:64-66 | the k-th point is `[lat, lng, weight or 1]` of the k-th job with both coordinates truthy, in input order, and no such job is skipped |
| HeatPoints.ZeroCoordinateDropped | frontend/src/App.js:65 | a job with latitude 0 or longitude 0 gives no point |
| JobSummary.Trim | frontend/src/App.js:125-127 | a trimmed string is empty or has no whitespace at either end |
| JobSummary.TrimKeepsMiddle | frontend/src/App.js:125-127 | `trim()` returns a contiguous slice of its input and everything it cuts off at either end is whitespace |
| JobSummary.CollapseShape | frontend/src/App.js:125 | replacing whitespace runs keeps every visible character and leaves only single `' '` characters as whitespace |
| JobSummary.NormalizeShape | frontend/src/App.js:125 | the displayed title has no whitespace at either end, no two whitespace characters in a row, only `' '` as whitespace, and the raw title's visible characters |
| JobSummary.WordsAreWords | frontend/src/App.js:125 | the words of a title are non-empty runs of non-whitespace characters |
| JobSummary.NormalizeWords | frontend/src/App.js:125 | the displayed title is the raw title's maximal non-whitespace runs, in order, joined by single spaces |
| JobSummary.NormalizeIdempotent | frontend/src/App.js:125 | normalising a normalised title changes nothing |
| JobSummary.DefaultsTrimmed | frontend/src/App.js:126-127 | the defaults `Unknown` and `India` are unchanged by trimming |
| JobSummary.Shorten | frontend/src/App.js:135 | the shown title is a prefix of the title of exactly `min(32, length)` characters, and is the whole title exactly when it fits |
| JobSummary.Summary | frontend/src/App.js:124-136 | the shown title is the prefix of `min(32, length)` characters of the normalised title; `…` follows exactly when that title is longer than 32; the salary is shown exactly when it is non-empty and not `NaN`; a missing company shows `Unknown`, a missing location `India`; a present company or location shows its trimmed text |
| App.Load | frontend/src/App.js:38-61 | a failed request and a non-array response both leave `jobs` and `stats` empty; an array response becomes `jobs`, with `stats` computed from it |
| App.Render | frontend/src/App.js:86-136 | the heat points are `HeatPoints.HeatPoints(jobs)`, so at most as many as jobs; the chart is `Chart(stats)`, the prefix of `stats` of `min(7, cities)` bars, so every city when there are fewer than seven; the list shows `min(5, jobs)` chips, the i-th for the i-th job |
| App.Chart | frontend/src/App.js:112 | `stats.slice(0, 7)`: the prefix of `stats` of exactly `min(7, cities)` bars, so every city when there are fewer than seven |
| App.ChartShowsLargest | frontend/src/App.js:112 | no city left off the chart has more jobs than a city on it |
| App.StoredWeightsReachMap | frontend/src/App.js:64-66 | for a successful response the points are the stored documents with both coordinates truthy, in store order, each weighted by its stored weight when truthy and 1 otherwise |
| HeatmapGeo.LowerAppend | scraper/heatmap_geo.py:19 | lowercasing works character by character |
| HeatmapGeo.LowerIdempotent | scraper/heatmap_geo.py:19 | lowercasing a lowercased string changes nothing |
| HeatmapGeo.LowerOfUpper | scraper/heatmap_geo.py:19 | upper-casing ASCII letters first does not change the lowercase form |
| HeatmapGeo.ContainsIff | scraper/heatmap_geo.py:21 | `needle in hay` holds exactly when the needle occurs at some position |
| HeatmapGeo.MatchFrom | scraper/heatmap_geo.py:20-21 | the match is a city whose lowercased name occurs in the location, and no earlier city's does; no match means no city's does |
| HeatmapGeo.MatchIgnoresCase | scraper/heatmap_geo.py:19-21 | the location in capitals, or lowercased, is placed at the same city |
| HeatmapGeo.DelhiFirst | scraper/heatmap_geo.py:6-21 | a location naming Delhi is placed at Delhi, whatever else (Noida, say) it names |
| HeatmapGeo.NoCityWithout | scraper/heatmap_geo.py:5-16 | a lowercased location without the letters e, o, g, y, u and h names none of the ten cities |
| HeatmapGeo.IndiaMatchesNothing | scraper/heatmap_geo.py:5-16 | the default location `India` names no known city |
| HeatmapGeo.Uniform | scraper/heatmap_geo.py:23-24 | `random.uniform(a, b)` lies in `[a, b]` |
| HeatmapGeo.GeoBounds | scraper/heatmap_geo.py:18-29 | a location naming a city is placed within ±0.015 of the first such city's centre in both coordinates; any other within ±1 of (20.5937, 78.9629) |
| HeatmapGeo.GetGeoCoords | scraper/heatmap_geo.py:18-29 | the loop with its early return yields the placement `GeoSpec` describes |
| HeatmapGeo.PlaceAll | scraper/heatmap_geo.py:41-45 | the i-th appended coordinates are the placement of the i-th location |
| HeatmapGeo.MaxAmount | scraper/heatmap_geo.py:55 | the maximum skips missing amounts: none exactly when no row has an amount, otherwise one of the amounts and at least every amount |
| HeatmapGeo.Increment | scraper/heatmap_geo.py:55 | a missing amount adds 0 |
| HeatmapGeo.Add | scraper/heatmap_geo.py:55 | the weight stays finite exactly when the increment is, and is then the sum |
| HeatmapGeo.Load | scraper/heatmap_geo.py:35-57 | the corrected script, which reads an absent column as all-missing, yields `Docs`: defaulted text fields, placed coordinates and boosted weights, row by row; the script as written is `HeatmapGeo.LoadAsWritten` |
| HeatmapGeo.DefaultsApplied | scraper/heatmap_geo.py:35-38 | a missing field, or a field of an absent column, becomes `Untitled`, `Unknown`, `India` or the empty string; a present field is kept |
| HeatmapGeo.MissingLocationNearIndia | scraper/heatmap_geo.py:37 | a job without a location is placed within ±1 of India's centre |
| HeatmapGeo.LocatedNearCity | scraper/heatmap_geo.py:42-45 | a job whose location names a city is placed within ±0.015 of that city |
| HeatmapGeo.WeightsInRange | scraper/heatmap_geo.py:50-55 | with non-negative amounts and a positive maximum every weight lies in [1.0, 1.5]; no amount gives 1.0; the largest amount gives 1.5 |
| HeatmapGeo.WeightsOnConversionFailure | scraper/heatmap_geo.py:53-57 | an absent `min_amount` column or a non-numeric amount leaves every weight at 1.0 |
| HeatmapGeo.LoadAsWritten | scraper/heatmap_geo.py:35-38 | the script as written completes exactly when all four text columns exist, and then gives `Docs` |
| HeatmapGeo.NoSalaryColumnStopsLoad | scraper/heatmap_geo.py:38 | a CSV without a `salary_string` column stops the script as written, while the defaulting rule gives an empty salary |

## Left out

- I/O is not modelled:
  - the MongoDB connection, `Job.find()`, Express routing and `app.listen`;
  - the axios request;
  - the CSV read, and the MongoDB `delete_many`/`insert_many`;
  - all console output.
  - Their outcomes are inputs: `Result` values and a table of cells.
- React is not modelled: state, effects, the loading screen, Leaflet and Recharts. Only the values handed to the widgets are modelled (`App.Render`).
- `App.ResponseData.JobArray` holds only job records. An array element such as `null` cannot be represented; in `frontend/src/App.js:42-48` it is stored by `setJobs` and then makes `job.location` throw inside `.then`, which the `catch` reports.
- App.Render: the header's `stats[0]?.city` and `stats[0]?.count || 0` are not modelled.
- Keys that `Object.prototype` already carries are not modelled. A location such as `toString` or `__proto__` makes `cityStats[loc] || 0` read an inherited value; the model treats every location as a fresh key.
- Strings are sequences of characters, not UTF-16 code units. `.length` and `.slice(0, 32)` on text outside the Basic Multilingual Plane are not modelled.
- Numbers are reals. Floating-point rounding, NaN and JSON's handling of infinities are not modelled:
  - a stored weight of `NaN` counts as truthy here;
  - an infinite loader weight has no counterpart in the backend's numeric field.
- HeatmapGeo.Lower: Python's `str.lower` is modelled only for the characters whose lowercase form contains an ASCII letter: `A`–`Z`, `İ` (to `i` plus a combining dot) and the Kelvin sign. Every other character is kept. This changes no match against the ASCII city names.
- HeatmapGeo.Increment: its own contract states only that a missing amount adds 0. The bounds of the boost are stated by `HeatmapGeo.WeightsInRange`.
- pandas parsing is summarised as a table of cells:
  - `Missing` stands for any field pandas reads as NaN (an empty field, `NA`, `nan`, …);
  - numeric text columns are read as their text;
  - `min_amount` is a number, empty, or not numeric.
- `random()` is not modelled. Each draw is a parameter in `[0, 1)`, and the model fixes the order of the draws: latitude, then longitude, row by row.
- The city table is a parameter of the lookup. The concrete lemmas use the script's ten-city table.
- `scraper/scrape_jobs.py` is not part of this model. Salary extraction relies on Python's `re` semantics.

## Findings

| source | as written | input that shows it | evidently intended | confidence | as-written member | corrected member |
|---|---|---|---|---|---|---|
| scraper/heatmap_geo.py:35-38 | `df.get(name, "")` returns the string `""` when the CSV lacks the column, and `"".fillna(...)` raises `AttributeError`. The script stops before anything is stored. | A CSV without a `salary_string` column. The scraper writes one when no job description yielded a salary. | An absent column is read as all-missing and gets its default, the same as a missing field. | not executed; high | HeatmapGeo.LoadAsWritten | HeatmapGeo.Load |
