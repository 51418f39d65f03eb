# pagmon heart-rate monitor, modelled in Dafny

pagmon polls the Pulsoid service for the wearer's latest heart rate and writes it to a local
file that other software, such as a streaming overlay, reads. It has two output modes, chosen
once at start-up from the file name:

- **Overwrite mode.** Each sample goes into a smoothing window: the samples of the last
  `smoothing_interval` seconds, whose floor average is the smoothed rate. That rate is multiplied
  by a warm-up ramp, which depends on the time since start-up, and by a constant base multiplier.
  The result, truncated to an integer, replaces the file's content.
- **CSV mode.** The file name's extension is `csv`. Each raw sample whose rate differs from the
  previous one fetched is appended as a `measured_at;heart_rate` row. An empty file first gets
  the header `UNIX millis timestamp;heartrate`.

At start-up, missing configuration sections and options are filled in with defaults.

The project models the heart-rate pipeline of `pagmon/__main__.py`. The modules are:

- `Wrappers` holds `Option`.
- `HeartRates` holds the `HeartRate` sample.
- `Decimal` is Python's `str(int)` together with a parser that inverts it.
- `Smoothing` is the smoothing window and its average.
- `Scaling` is the ramp multiplier and the truncated final value.
- `HeartRateFile` holds the mode choice, the overwrite content and the CSV append.
- `Config` fills in configuration defaults.
- `Monitor` holds one pass of the polling loop, the loop over a sequence of passes, and the
  `Pulsoid` class. The class carries the fields the program updates: ramp multiplier, window and
  output file content.

The network request and the clock are inputs. Each pass of the loop is a `Tick` that carries the
sample the request returned (`None` when it failed). It also carries the two monotonic clock
readings the pass makes: one for the ramp and one for the window. The output file is modelled
by its text content.

Some behaviour of the code is easy to overlook. The model follows the code in each case:

- A file named exactly `csv` selects CSV mode, because `split(".")[-1]` of a name without a dot
  is the whole name.
- The overwrite value is truncated toward zero by `int()`, not floored. The two differ only for
  negative products.
- A ramp duration of zero or less is not rejected. With a clock that never runs backwards, the
  clamped branch is then always taken and no division happens.
- Nothing checks that the maximum multiplier is at least 1.
- The two write methods (`_write_heartrate`, `_write_heartrate_csv`) catch no exceptions, and
  neither does `run`. A file that cannot be opened or written therefore ends the polling loop
  instead of being skipped like a failed request.

The ramp reproduces the program's jump at the end of the warm-up. Before the end it is
`max * elapsed / duration + 1`, which approaches `max + 1`; from the end on it is exactly `max`.
`Scaling.RampOvershootsBeforeBoundary` shows that, for a positive maximum, the ramp exceeds `max`
before the end.

## Model

| member | source | states |
|---|---|---|
| Decimal.IntToStringRoundTrip | pagmon/__main__.py:102 | the decimal text written for an integer parses back to that integer |
| Smoothing.Retained | pagmon/__main__.py:135-137 | an entry survives eviction exactly when it was in the window and is at most `smoothing_interval` old; the window never grows |
| Smoothing.RetainedCounts | pagmon/__main__.py:135-137 | eviction keeps every fresh entry as many times as the window held it, duplicates included, and no stale entry |
| Smoothing.RetainedIsSubsequence | pagmon/__main__.py:135-137 | eviction keeps the survivors in their original order and unmodified |
| Smoothing.RetainedAllFresh | pagmon/__main__.py:135-137 | when nothing is stale the window is left exactly as it was |
| Smoothing.RetainedNoneFresh | pagmon/__main__.py:135-137 | when everything is stale the window is emptied |
| Smoothing.Populated | pagmon/__main__.py:130-140 | after an update the window is non-empty and ends with the new sample; every earlier entry is fresh (all are, for a non-negative interval); the earlier entries are a subsequence of the old window |
| Smoothing.PopulatedKeepsFresh | pagmon/__main__.py:130-140 | before the new sample, the updated window is the evicted old window: every fresh old entry, as often as it occurred and in order, and no stale one |
| Smoothing.SmoothedHeartRateBounds | pagmon/__main__.py:39-48 | for a non-empty window the smoothed rate is the floor of the mean, so it lies between the smallest and largest rate in the window |
| Smoothing.ZeroIntervalPassesThrough | pagmon/__main__.py:130-140 | with interval 0 and older entries only, the window becomes just the new sample and the smoothed rate is that sample's rate |
| Smoothing.EvictionScenario | pagmon/__main__.py:130-140 | with a 10 s interval, samples 60, 70, 80 at 0, 5 and 12 s leave the last two, average 75 |
| Scaling.RampMultiplier | pagmon/__main__.py:113-127 | ramping off gives exactly 1.0; from the end of the warm-up on it is exactly the maximum |
| Scaling.RampBeforeBoundary | pagmon/__main__.py:126-127 | before the end of the warm-up the ramp is `max * (elapsed / duration) + 1`, which is exactly 1 at elapsed 0 |
| Scaling.RampMonotone | pagmon/__main__.py:126-127 | for a non-negative maximum the ramp never decreases during the warm-up |
| Scaling.RampBelowMaxPlusOne | pagmon/__main__.py:126-127 | for a positive maximum, during the warm-up the ramp is at least 1 and stays strictly below `max + 1` (for a maximum of 0 it is exactly 1 = `max + 1`, see `Scaling.RampZeroMaximum`) |
| Scaling.RampZeroMaximum | pagmon/__main__.py:126-127 | with a maximum of 0, the warm-up ramp is exactly 1 throughout |
| Scaling.RampOvershootsBeforeBoundary | pagmon/__main__.py:121-127 | for a positive maximum and a positive duration, the time `duration * max / (max + 1)` falls within the warm-up, the ramp there already exceeds `max`, and at the end of the warm-up it is exactly `max`, so it drops |
| Scaling.Truncate | pagmon/__main__.py:105 | `int()` drops the fractional part, rounding toward zero on both sides of 0 |
| Scaling.MultipliedHeartRateBounds | pagmon/__main__.py:105 | the written value is the exact product of smoothed rate, ramp and base with its fractional part dropped |
| Scaling.UnscaledPassesThrough | pagmon/__main__.py:104-105 | with ramping off and base 1.0 the smoothed rate is written unchanged |
| Scaling.MultipliedExample | pagmon/__main__.py:105 | smoothed 80, ramp 2.0 and base 1.0 give 160 |
| HeartRateFile.FileExtensionShape | pagmon/__main__.py:88 | the extension holds no dot, ends the name, and is either the whole name or follows a dot |
| HeartRateFile.ExtensionAfterDot | pagmon/__main__.py:88 | the dot-free text after a name's final dot is its extension |
| HeartRateFile.ExtensionOfDotFreeName | pagmon/__main__.py:88 | a name without a dot is its own extension |
| HeartRateFile.CsvModeIff | pagmon/__main__.py:63 | the extension is `csv` exactly when the name is `csv` or ends in `.csv` |
| HeartRateFile.CsvRowRoundTrip | pagmon/__main__.py:97 | every CSV row reads back as the sample it was written from |
| Decimal.NatToString | pagmon/__main__.py:102 | the text of a natural number is digits only, with no leading zero; zero is `0` |
| Decimal.IntToString | pagmon/__main__.py:102 | the text of an integer starts with `-` exactly when it is negative, has no leading zero, and holds no `;`, newline or `.` |
| HeartRateFile.OverwriteContent | pagmon/__main__.py:99-102 | the overwrite content parses back as the value written and is its canonical decimal text: a minus sign only for a negative value, no leading zero |
| HeartRateFile.CsvAppend | pagmon/__main__.py:90-97 | an append keeps the old content, then writes the header if and only if the file was empty, then exactly one row |
| HeartRateFile.CsvAppendAllContent | pagmon/__main__.py:90-97 | a series of appends writes the header at most once (only when the file was empty and something is written), followed by one row per sample in order |
| Config.DefaultOptionsWellFormed | pagmon/__main__.py:172-187 | the eight defaults name distinct options, each in the Login or Settings section |
| Config.DefaultsOfHoldsEntries | pagmon/__main__.py:172-187 | when no option is listed twice, every listed default is in the defaults map under its section and option with its own text |
| Config.DefaultsHoldTable | pagmon/__main__.py:172-187 | each of the eight defaults (`api_token` `YOUR_API_TOKEN`, `heart_rate_file` `heart_rate.txt`, `polling_interval` `0.5`, `smoothing_interval` `10`, `base_multiplier` `1.0`, `ramping_mode` `True`, `ramping_max_multiplier` `3.0`, `seconds_till_max_ramping` `360`) is in the defaults map with that text |
| Config.FillSpec | pagmon/__main__.py:165-187 | filling keeps every section and every set option, adds each absent default and nothing else |
| Config.WithDefaults | pagmon/__main__.py:165-187 | the filled configuration has Login and Settings; every set option keeps its text; every absent default option gets its default; nothing else is added |
| Config.WithDefaultsIdempotent | pagmon/__main__.py:165-187 | filling in defaults twice gives the same configuration as once |
| Config.AddRequiredSections | pagmon/__main__.py:167-170 | missing Login and Settings sections are added empty and nothing else changes |
| Config.EnsureConfig | pagmon/__main__.py:165-187 | the step-by-step additions produce exactly the filled configuration |
| Monitor.StepSpec | pagmon/__main__.py:67-84 | a failed request changes nothing; a successful one becomes the latest rate; CSV mode leaves ramp and window alone and changes the file exactly when the rate differs from the latest, keeping the old content and ending with a row that reads back as the sample; overwrite mode sets the ramp from the clock, sets the window to the update of the old one (the evicted old window followed by the sample) and writes a file that reads back as the scaled smoothed rate |
| Monitor.DeduplicatedRows | pagmon/__main__.py:81-84 | CSV rows never repeat a rate twice in a row, the first differs from the rate fetched before, each is a fetched sample, and the last holds the last rate fetched |
| Monitor.FailedPollsIgnored | pagmon/__main__.py:67-69 | running only the successful passes gives the same final state |
| Monitor.CsvRun | pagmon/__main__.py:78-84 | a CSV run leaves ramp and window alone, ends with the last rate fetched, and writes the header (once, into an empty file) followed by the deduplicated rows |
| Monitor.OverwriteRun | pagmon/__main__.py:71-77 | after an overwrite run with a successful request, the newest window entry carries the last rate fetched and the file reads back as the scaled smoothed rate of that window; without one, nothing changes |
| Monitor.DeduplicatedExample | pagmon/__main__.py:81-84 | rates 60, 60, 62, 62, 65 give rows for the first 60, the first 62 and the 65 |
| Monitor.OverwriteExample | pagmon/__main__.py:99-105 | smoothed rate 80 with ramp 2.0 and base 1.0 writes the text `160` |
| Monitor.CsvExample | pagmon/__main__.py:78-84 | fetching 60, 60, 62, 62, 65 into an empty CSV file writes the header and three rows |
| Monitor.Pulsoid.constructor | pagmon/__main__.py:22-37 | a new monitor starts with ramp 1.0 and an empty window |
| Monitor.Pulsoid.GetSmoothedHeartRate | pagmon/__main__.py:39-48 | returns 0 for an empty window, otherwise a value between the smallest and largest rate in it |
| Monitor.Pulsoid.SetMultipliedHeartRate | pagmon/__main__.py:104-111 | returns the truncated product of the smoothed rate, the current ramp and the base |
| Monitor.Pulsoid.SetCurrentRampingMultiplier | pagmon/__main__.py:113-127 | sets only the ramp field, to the ramp for the elapsed time |
| Monitor.Pulsoid.PopulatePollsWithinInterval | pagmon/__main__.py:130-140 | sets only the window, to the old window with stale entries evicted and the sample appended |
| Monitor.Pulsoid.GetHeartRateFileExtension | pagmon/__main__.py:86-88 | returns `csv` exactly when the file name is `csv` or ends in `.csv` |
| Monitor.Pulsoid.WriteHeartRate | pagmon/__main__.py:99-102 | replaces the file content with text that parses back as the value |
| Monitor.Pulsoid.WriteHeartRateCsv | pagmon/__main__.py:90-97 | appends the header (to an empty file only) and one row |
| Monitor.Pulsoid.PollOnce | pagmon/__main__.py:67-84 | one pass of the loop body updates the object exactly as one step does |
| Monitor.Pulsoid.Run | pagmon/__main__.py:62-84 | chooses the mode once from the file name; the loop leaves the object and the returned latest rate equal to running the passes one after another |

## Left out

- HTTP: fetching a sample (`get_heartrate`), checking the token and building the client are left
  out. A pass receives the request's result as an optional sample.
- `pagmon/main.py` is not part of this model.
- Reading and writing the configuration file (`process_ini_file`, `config.write`) and the unused
  `save_heart_rate` are left out. Configuration is a map from section to option to text.
- Config.WithDefaults: configparser's DEFAULT section, its lower-casing of option names and
  options without a value are not modelled.
- Config.EnsureConfig: the source's eight straight-line `has_option`/`set` statements are written
  as one pass over a table of the eight defaults, in source order.
- Converting option text to numbers and booleans (`float(...)`, `.lower() == "true"`) is left
  out. The monitor takes its settings already typed.
- `time.sleep(polling_interval)` is left out, so `pollingInterval` is carried but not used. Clock
  readings arrive with each pass.
- Monitor.Pulsoid.Run: the `while True` loop is run over a finite sequence of passes. Each
  pass's ramp clock reading is required to be no earlier than start-up, since the clock is
  monotonic.
- Scaling.RampMultiplier: times and multipliers are exact reals, so binary floating-point
  rounding of the division and the products is not modelled.
- Console output (`print` of failures and of the log line) is left out; it does not affect state.
- Monitor.Pulsoid.SetMultipliedHeartRate: it does not take the raw rate, which the source uses
  only for the log line, or read the clock, whose reading is only printed.
- Real file I/O is left out. The output file is its text content, and every write succeeds.
  A failed open or write, which ends the polling loop, is not modelled; nor are concurrent
  readers.
