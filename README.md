# TPM series pipeline of the benchmark plotting scripts

The repository's plotting scripts read load-test result files (a JSON object
whose engine label, `MySQL tpm` or `PostgreSQL tpm`, maps timestamp strings
`YYYY-MM-DD HH:MM:SS` to transactions-per-minute counts) and draw comparison
charts. Before anything is drawn, every file goes through the same pipeline,
and this project models that pipeline and proves what it delivers:

1. `load_data` picks the series out of the document. `scripts/script_my.py`
   indexes `MySQL tpm` and raises when it is missing.
   `scripts/script_between_db.py` takes the `MySQL tpm` series when it is
   present and non-empty, and otherwise whatever `PostgreSQL tpm` holds, or
   nothing.
2. `extract_data` flattens the map into two aligned lists, with the keys in
   ascending string order.
3. `convert_to_relative_time_in_minutes` rebases every timestamp against the
   first one.
4. `filter_data` walks the zipped lists with a consecutive-zero counter. It
   stops before the second zero-TPM sample in a row. `scripts/script_my.py`
   also stops before any sample later than 16 minutes.

Modules:

- `LexOrder` (`lex_order.dfy`): Python's `<` on strings, the order `sorted`
  uses. Its recursive definition is proved equal to the first-difference
  rule. It is proved irreflexive, transitive and total, and a set of strings
  is proved to have a single strictly ascending enumeration.
- `Series` (`series.dfy`): the types and the two steps that are the same
  text in both scripts, `extract_data` and
  `convert_to_relative_time_in_minutes`. Both are methods with loops that
  append to lists, as in the scripts. The keys are put in order by a
  selection over the key set, which stands in for Python's `sorted`.
- `Truncation` (`truncation.dfy`): the specification of `filter_data`. The
  predicate `IsCut` says where the scan ends, for a cap that may be absent.
  `ZeroRun` gives the meaning of `zero_count`. The lemmas prove the cut is
  unique, the kept prefix is clean, filtering is idempotent and a clean
  series is kept whole.
- `ScriptMy` (`script_my.dfy`) and `ScriptBetweenDb`
  (`script_between_db.dfy`): each script's own `load_data` and
  `filter_data`. Each `filter_data` is a loop that keeps `zero_count` as its
  state.

Times are whole seconds since the first sample, not float minutes. For a
whole number of seconds `t`, `t / 60 > 16` holds exactly when `t > 960`, so
the cap of `scripts/script_my.py:48` is `CapSeconds = 960`. Parsing a
timestamp is a parameter `parse: string -> Option<int>`. It returns seconds
on a fixed epoch, or `None` where the library parser raises. The hypothesis
`MonotoneParse` says that the parser orders zero-padded
`YYYY-MM-DD HH:MM:SS` strings (`FixedFormat`) as their strings are ordered.
It is needed only by the lemma that relative times never go backwards, and
that lemma asks for zero-padded keys.

Error paths and fallbacks in the code:

- `scripts/script_between_db.py:10` returns `None` when neither label holds
  a series, and `ScriptBetweenDb.LoadData` keeps that. Its `or` also skips a
  present but empty `MySQL tpm` series.
- `scripts/script_my.py:12` raises when `MySQL tpm` is missing. This is
  `Failure(MissingKey("MySQL tpm"))`.
- `times[0]` raises on an empty list. This is `Failure(EmptySeries)` in
  `Series.RelativeTimes`.

## Model

| member | source | states |
|---|---|---|
| LexOrder.Less | scripts/script_my.py:20 | Python's `str <`, which `sorted` uses on the keys: true exactly when `a` is a proper prefix of `b`, or `a` has the smaller character at the first position where the two differ. |
| LexOrder.LessIrreflexive | scripts/script_my.py:20 | No timestamp string sorts before itself. |
| LexOrder.LessTransitive | scripts/script_my.py:20 | Python's string order is transitive. |
| LexOrder.LessTotal | scripts/script_my.py:20 | Any two different strings are ordered one way or the other, so `sorted` has a strict total order to follow. |
| LexOrder.SortedEnumerationUnique | scripts/script_between_db.py:18 | Two strictly ascending lists with the same elements are equal: the sorted order is determined by the key set alone. |
| Series.Minimum | scripts/script_my.py:20 | Returns a member of a non-empty key set that is smaller than every other member. |
| Series.SortedKeys | scripts/script_my.py:20 | Yields every key of the map exactly once, strictly ascending, as many as the map has entries. |
| Series.ExtractData | scripts/script_my.py:15-24 | Two lists as long as the map; `times` holds exactly the map's keys in strictly ascending order; `tpmValues[i]` is the map's value at `times[i]`. |
| Series.ExtractDataDetermined | scripts/script_between_db.py:13-22 | Any two results meeting `ExtractData`'s contract for the same map are the same lists, so that contract pins the output down completely (this covers the identical copy in this script). |
| Series.Rebase | scripts/script_my.py:32-35 | Same length; the first element is 0; the difference between any two elements equals the difference between the originals. |
| Series.RelativeTimes | scripts/script_my.py:27-37 | Fails on an empty list; otherwise fails exactly when some timestamp is malformed, naming the first malformed one; on success it returns each parsed time minus the first parsed time. |
| Series.RebaseKeepsOrder | scripts/script_between_db.py:30-33 | The relative times are non-decreasing exactly when the parsed times are (both directions). |
| Series.SortedTimesNonDecreasing | scripts/script_my.py:29-35 | For zero-padded `YYYY-MM-DD HH:MM:SS` keys in ascending string order and a parser that orders such strings by time, the relative times never decrease. |
| Truncation.ZeroRun | scripts/script_my.py:44-54 | The counter is the length of the run of zeros that ends the series: those samples are all zero, and the sample before them is not. |
| Truncation.ZeroRunStep | scripts/script_between_db.py:45-48 | A zero sample increments the counter, and any non-zero sample resets it to 0. |
| Truncation.CutUnique | scripts/script_my.py:46-61 | Only one index can be where the scan ends. |
| Truncation.CutKeepsClean | scripts/script_my.py:48-61 | Every kept time is within the cap, and no two adjacent kept TPM values are both zero. |
| Truncation.CutIdempotent | scripts/script_between_db.py:44-55 | Scanning the kept prefix again keeps all of it, so filtering a filtered series returns it unchanged. |
| Truncation.CleanSeriesKeptWhole | scripts/script_between_db.py:51-55 | If no time is over the cap and no two adjacent TPM values are zero, the scan keeps the whole zipped length. |
| Truncation.RampDownStopsBeforeSecondZero | scripts/script_between_db.py:50-55 | TPM `[5, 0, 0, 7]` at 0, 1, 2 and 3 minutes is cut after two samples, before the second zero. |
| Truncation.AllZeroKeepsFirst | scripts/script_my.py:51-61 | An all-zero series keeps only its first sample. |
| ScriptMy.LoadData | scripts/script_my.py:9-12 | Succeeds exactly when `MySQL tpm` is present, with the series stored there; otherwise fails with a missing-key error naming it. |
| ScriptMy.CapStopsPastSixteenMinutes | scripts/script_my.py:48-49 | A sample at exactly 16 minutes (960 s) is kept, and the next one, at 961 s, ends the scan. |
| ScriptMy.FilterData | scripts/script_my.py:40-63 | Returns equal-length prefixes of both inputs, no longer than either input. Every kept time is at most 960 s, and no two adjacent kept TPM values are both zero. The cut is exact: at the first index not kept, the time exceeds 960 s or the TPM is the second zero in a row. A series already within the cap and free of zero pairs is kept whole. |
| ScriptBetweenDb.Get | scripts/script_between_db.py:10 | `dict.get`: a value exactly when the key is present, and then the value stored under it. |
| ScriptBetweenDb.Truthy | scripts/script_between_db.py:10 | The test `or` applies to the first lookup: false for `None` and for the empty dict, true otherwise. |
| ScriptBetweenDb.LoadData | scripts/script_between_db.py:7-10 | A non-empty `MySQL tpm` series is returned. Otherwise the `PostgreSQL tpm` value is returned as it is, even when empty. The result is `None` exactly when neither applies. Any result is one of the two lookups. |
| ScriptBetweenDb.LoadDataExtendsScriptMy | scripts/script_between_db.py:10 | Where the MySQL-only loader finds a non-empty series, this loader returns the same series. Where this loader finds nothing, the MySQL-only loader fails or finds an empty series. |
| ScriptBetweenDb.FilterData | scripts/script_between_db.py:38-57 | Returns equal-length prefixes of both inputs, and no two adjacent kept TPM values are both zero. The cut is exact: the first index not kept holds the second zero in a row. An input with no two adjacent zeros is returned whole, up to the shorter list's length. |

## Left out

- `generate_comparison_plot` in both scripts: figure setup, ticks, legend, `savefig` and `show` belong to the plotting library. This includes the calls to the conversion and the filter made from inside it.
- Creating the `graphs` directory at `scripts/script_my.py:112-113`: file-system I/O.
- `open` and `json.load` in `load_data`: file I/O and the JSON parser. The model starts from the parsed document. A value under an engine label is modelled only as a timestamp-to-count object. The truthiness of other JSON values (`null`, numbers, lists) is not modelled.
- `datetime.strptime` and calendar arithmetic: the parser is the parameter `parse`. Its monotonicity is the hypothesis `MonotoneParse`. It is not proved for any concrete parser.
- Series.RelativeTimes: works in whole seconds rather than the float minutes `delta.total_seconds() / 60`, so float rounding is not modelled. Dividing by 60 does not change the order, and it maps the cap of 16 minutes to exactly 960 s.
- The `re.search(r'(\d+)Vu', ...)` label extraction at `scripts/script_my.py:78-81`: regular-expression engine, display only.
- The hard-coded file lists and the top-level driver code (`scripts/script_my.py:122-160`, `scripts/script_between_db.py:100-112`): configuration and glue.
- The `int(tpm)` conversion and its error path: TPM values are modelled as integers that are already validated.
- Series.SortedTimesNonDecreasing: holds only for zero-padded keys. The library parser also accepts unpadded fields such as `9:59:00`. String order puts `10:00:00` before `9:59:00`, so such keys can give relative times that decrease.
- The order that `sorted` actually uses (a Timsort over key-value pairs) is not modelled. `Series.SortedKeys` computes the same result, the one strictly ascending enumeration of the keys, by repeated minimum selection.
