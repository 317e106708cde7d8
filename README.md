# Dosimeter dose engine — a Dafny model

This project models the dose engine of a web application that archives in-flight
radiation measurements. Aircrew dosimeters of three kinds record files:

- an EPDN2 gamma/neutron counter;
- a Liulin spectrometer;
- a Hawk telemetry monitor.

A flight log lists the legs an aircraft flew. The engine:

- turns each device file into timestamped samples;
- attaches each sample to the leg whose airborne window holds it;
- integrates the samples of one file over each leg into a dose with a low-LET and a high-LET part;
- computes dose-rate series;
- converts metric-prefixed units;
- anchors the clock times of a flight-log row on the leg's date;
- builds the flight search filter.

Modules:

- `Wrappers`: Option, Result and the error kinds.
- `Text`: the Python string operations the engine relies on (`strip`, `split`, `" ".join`, `replace`, slicing, `int`).
- `PyValues`: spreadsheet cells and `isnotnan`.
- `Calendar`: instants as seconds, and `date_inc`.
- `UnitConversion`: `unitConv`.
- `Flights`: flight legs and `getFlightAt`.
- `Doses`: integrated doses and rate series.
- `Epdn2`, `Liulin`, `Hawk`: each device kind's serial number, file import (`save_file`), `integrate_dose` and `dose_rate`.
- `Collecting`: the walk shared by the flight-log import and `idose_flights`.
- `FlightLog`: `add_date_time` and `save_flight_file`.
- `Orchestration`: `idose_flights`.
- `Search`: `search_querry`.

Loops in the source are methods with loop invariants. Each method is proved equal to a
specification function, and the properties the engine promises are lemmas about those
functions. Straight-line code is functions and lemmas.

Library calls are parameters of the model:

- the time-zone offset (`zone`);
- `dateparser.parse` and `strptime` (`Env`);
- the stored samples of a flight and a device kind's `integrate_dose` (`Device`);
- the database's evaluation of one lookup term (`holds`).

Instants are whole seconds. Doses, rates and calibration factors are reals.

## Model

| member | source | states |
|---|---|---|
| Flights.FlightAtSpec | main/models.py:17-23 | no leg is found exactly when no leg's [time_off, time_on] window holds the instant; a leg found holds it and no earlier leg does |
| Flights.FirstCoverWins | main/models.py:18-23 | the first leg in list order whose window holds the instant is the one returned |
| Flights.FlightAtInclusiveBounds | main/models.py:18-19 | both bounds count: a leg disjoint from its predecessors is found at its own wheels-off and wheels-on instants |
| Flights.FlightAtOutside | main/models.py:20-21 | an instant before every wheels-off or after every wheels-on gives no leg |
| Flights.OneLegExample | main/models.py:17-23 | a 2-hour leg holds samples at +10 min and +1 h but not at +3 h |
| Calendar.CombineSplits | main/utils.py:60 | combining a day and a time of day gives back that day and that time of day |
| Calendar.DateIncProperties | main/utils.py:59-63 | date_inc keeps the clock time, lands on date's day or the next, lies in [date - 1h, date + 1 day), and moves to the next day exactly when the same-day instant is more than an hour before date |
| PyValues.IsNotNanExactly | main/utils.py:52-56 | isnotnan is false exactly for a NaN float, and true for a whole column |
| UnitConversion.UnitConv | main/utils.py:8-32 | a conversion fails only with an unknown prefix |
| UnitConversion.UnitConvKnown | main/utils.py:32 | between known units the value is scaled by 10^(pow(u1) - pow(u2)) |
| UnitConversion.UnitConvFailsIff | main/utils.py:9-32 | the conversion fails exactly when a prefix is missing from the table, naming the first missing prefix |
| UnitConversion.UnitConvIdentity | main/utils.py:32 | converting to the same known unit is the identity |
| UnitConversion.UnitConvCompose | main/utils.py:32 | converting a→b then b→c equals converting a→c |
| UnitConversion.UnitConvRoundTrip | main/utils.py:32 | converting a→b→a gives the value back |
| UnitConversion.UnitConvExamples | main/utils.py:19-20 | the prefix is all but the last character: "da" scales by ten, "m" by a thousandth, a one-letter unit not at all |
| UnitConversion.MicroSignUnknownAsWritten | main/utils.py:24 | with the table as written, every conversion to or from a unit spelled with the single micro sign fails |
| UnitConversion.MicroSignKnownWhenAdded | main/utils.py:24 | with the micro sign in the table, micro units convert like "u" units |
| Text.StripSpec | main/models.py:180 | strip() leaves the slice between the leading and the trailing whitespace, with no whitespace at its ends |
| Text.SplitOnFields | main/views.py:264 | no field of split(sep) holds the separator |
| Text.SplitOnJoin | main/views.py:264 | joining the fields of split(sep) with sep gives the string back |
| Text.FirstField | main/models.py:165-167 | the first field of split(' ') is the text before the first space |
| Text.LastField | main/views.py:58-59 | the last field of split(' ') is the text after the last space |
| Text.SplitWs | main/views.py:266 | every field of split() is non-empty and free of whitespace |
| Text.SplitWsKeepsText | main/views.py:266 | split() keeps every non-whitespace character, in order |
| Text.NormalizeSpaceProperties | main/views.py:89-91 | " ".join(s.split()) has no leading, trailing or doubled space and loses no non-whitespace character |
| Text.NormalizeSpaceIdempotent | main/views.py:89-91 | normalising twice is normalising once |
| Text.SplitWsJoinSpace | main/views.py:89-91 | splitting words joined by single spaces gives the words back |
| Text.ReplaceChar | main/models.py:180 | replace(" ", ";") changes exactly the spaces |
| Text.DigitsSome | main/models.py:204 | int() reads a digit string exactly when it is non-empty and all digits |
| Text.ParseShowNat | main/models.py:204 | int() reads back the decimal digits of a natural number |
| Epdn2.SerialNum | main/models.py:86-87 | the serial number is a prefix of the file name; it is shorter exactly when the base name (after the last '/') has a dot after some character other than a dot, and the cut then falls at a dot with no '.' or '/' after it, so the extension is removed from the last dot of the base name |
| Epdn2.SerialNumExamples | main/models.py:86-87 | "1234567.txt" gives "1234567"; ".txt" and "1234567" stay whole |
| Epdn2.ParseFile | main/models.py:89-106 | save_file's loop from the second-to-last row up to the first stores exactly Samples(rows) |
| Epdn2.EmitShape | main/models.py:96-105 | the walk fails exactly when a row it reads has an unreadable time; each sample shows an increase and is the difference of some row and its successor |
| Epdn2.EmitComplete | main/models.py:100-105 | every pair of consecutive rows whose counters rose gives its sample |
| Epdn2.EmitChronological | main/models.py:96-99 | rows listed newest first are stored oldest first, none earlier than the first row walked |
| Epdn2.SamplesSucceeds | main/models.py:91-99 | the import fails exactly when the file is empty or one of its times does not parse |
| Epdn2.SamplesSound | main/models.py:100-105 | each stored sample shows an increase and is the difference of a row and the next row; there are fewer samples than rows |
| Epdn2.SamplesComplete | main/models.py:100-105 | every pair of consecutive rows whose counters rose is stored |
| Epdn2.SamplesChronological | main/models.py:96-105 | a file listed newest first is stored in chronological order |
| Epdn2.EmitTelescopes | main/models.py:100-102 | with counters that never decrease, the samples of a run add up to the counters' rise over it |
| Epdn2.SamplesTelescope | main/models.py:100-105 | with monotone counters, the stored gamma and neutron sums equal the rise between the oldest and the newest row: dropped rows lose no dose |
| Epdn2.DeltaExamples | main/models.py:100-105 | readings 100 then 140 give one gamma sample of 40; equal readings give none |
| Epdn2.IntegrateDose | main/models.py:108-114 | low-LET is the gamma sum, high-LET the neutron sum, the total their sum (the dose `Integrated` gives, which the device of `idose_flights` uses) |
| Epdn2.SumsAppend | main/models.py:111-113 | the sums over two runs of samples add up |
| Epdn2.Offsets | main/models.py:128 | each sample's offset is its time minus the reference instant |
| Epdn2.ChannelStep | main/models.py:125-141 | one sample's step of a channel: a zero amount is skipped, the first non-zero one only sets the previous time, later ones add amount / hours since the previous one |
| Epdn2.DoseRatePoints | main/models.py:116-143 | the dose_rate loop builds exactly the offsets and both channels' rate points |
| Epdn2.ChannelPointsValues | main/models.py:125-141 | on samples strictly after the reference and increasing in time, point j of a channel sits at the offset of its (j+1)-th non-zero sample and is that sample's amount per hour since the j-th non-zero sample; the sample times strictly increase |
| Epdn2.NonZeroFromSpec | main/models.py:129-141 | the samples a channel reads are exactly its non-zero ones, each once, in order |
| Epdn2.ChannelPointsCount | main/models.py:129-141 | on samples strictly after the reference and strictly increasing in time, no division by zero occurs and each channel has one point per non-zero sample but its first |
| Liulin.SerialNum | main/models.py:164-167 | the serial number is the first line up to its first space, and fails exactly when that line is not ASCII |
| Liulin.SpectrumOf | main/models.py:180 | the stored spectrum exists exactly for an ASCII line and holds no space |
| Liulin.SpectrumOfFields | main/models.py:180 | the stored spectrum is the stripped line with ';' for each space |
| Liulin.ParseFile | main/models.py:169-190 | the block loop stores exactly Samples(lines) |
| Liulin.SamplesBlocks | main/models.py:171-189 | an import succeeds when the first block's instant parses and every block reads; it then holds one sample per two-line block, shifted by the one offset, carrying the block's spectrum |
| Liulin.WeightedIsProduct | main/models.py:204 | the weighted count in tenths is ten times count × (40.7 + 81.4 (i - 1)) |
| Liulin.SumsStayNone | main/models.py:202-206 | a channel that does not read makes the whole split fail |
| Liulin.ChannelStep | main/models.py:202-206 | one channel adds its weighted count to the low part up to channel 12 and to the high part above |
| Liulin.ChannelLets | main/models.py:202-206 | the channel loop computes exactly the split of channels 1 to 255 |
| Liulin.ChannelZeroIgnored | main/models.py:202 | channel 0 is never read |
| Liulin.FieldZeroIgnored | main/models.py:200-206 | two spectra that differ only in their first field have the same split |
| Liulin.LowFromLowChannels | main/models.py:203-204 | the low-LET part depends on channels 1 to 12 only |
| Liulin.HighFromHighChannels | main/models.py:205-206 | the high-LET part depends on channels 13 and above only |
| Liulin.QuietHighChannels | main/models.py:205-206 | zero counts above channel 12 give a zero high-LET part |
| Liulin.Divide | main/models.py:207-209 | the shares bLET/tLET·tot and hLET/tLET·tot add up to tot; a zero weighted total is a ZeroDivision failure |
| Liulin.ExposedIsProduct | main/models.py:198-201 | the accumulated dose is the summed dose rate times the exposure interval |
| Liulin.IntegratedOf | main/models.py:192-209 | with every spectrum read, integrate_dose divides the exposed dose by the summed split |
| Liulin.IntegrateDose | main/models.py:192-209 | the loop computes exactly Integrated(data) |
| Liulin.SumLetsFails | main/models.py:199-206 | one unreadable spectrum makes the integration fail |
| Liulin.IntegratedNone | main/models.py:196-197 | integrate_dose gives None exactly when there are fewer than two samples |
| Liulin.IntegratedAddsUp | main/models.py:198-209 | the total is the summed dose rate times the first interval, and the LET parts add up to it |
| Liulin.RateEntryAddsUp | main/models.py:222-226 | each entry's low and high rates add up to the sample's dose |
| Liulin.DoseRate | main/models.py:211-227 | dose_rate succeeds exactly when every entry does, with one entry per sample, in order |
| Hawk.SerialNum | main/models.py:258-263 | the serial number is the stripped text after the last ':' of the fourth line, less four characters at each end; it fails exactly when that line is not ASCII |
| Hawk.HeaderFromIff | main/models.py:266-269 | from a point where every earlier line was read, the header end found is exactly the first line starting with ',' |
| Hawk.HeaderEndIff | main/models.py:266-269 | the header end is exactly the first line starting with ',' after lines that all read |
| Hawk.SkipHeader | main/models.py:266-269 | the readline loop stops at exactly HeaderEnd(lines) |
| Hawk.Frame | main/models.py:270-271 | the CSV rows are the lines after the header end and the line after it, in order |
| Hawk.InForce | main/models.py:280-281 | the coefficient found is the last one whose start is on or before the day; none exactly when all start later |
| Hawk.InForceIsLatest | main/models.py:405-416 | ordered by start, the coefficient in force has the latest start not after the day |
| Hawk.ConvAllSucceeds | main/models.py:287-292 | a row's conversions succeed exactly when each one does; otherwise a prefix was unknown |
| Hawk.ConvAllAt | main/models.py:287-292 | the k-th converted value is the k-th conversion |
| Hawk.SampleOfConverts | main/models.py:284-297 | a row converts exactly when its instant parses, its five units convert and a coefficient is in force; the missing coefficient is reported only when everything else succeeded |
| Hawk.SampleOfRecord | main/models.py:284-296 | the record holds the row's instant shifted by the offset, the leg covering it, its Q factor, bas = gamma·bas_LET and haut = (dose_equ − gamma)·haut_LET |
| Hawk.SampleOfValues | main/models.py:287-292 | the five measurements are the row's cells converted to V, µA, C, µG and µS |
| Hawk.ConvertFailsAt | main/models.py:282-297 | the first row that fails ends the import with its error |
| Hawk.ConvertRows | main/models.py:282-297 | the row loop computes exactly Convert(rows, |rows| - 1) |
| Hawk.ConvertSpec | main/models.py:282-297 | the rows convert exactly when each does, giving their records in row order |
| Hawk.SamplesOfFrame | main/models.py:265-282 | once the header end is known, the import is decided by the CSV rows after it |
| Hawk.ParseFile | main/models.py:265-298 | save_file stores exactly Samples(lines) |
| Hawk.SamplesAnchored | main/models.py:276-286 | a successful import stores one record per data row but the last, each shifted by the first row's UTC offset and attached to its leg |
| Hawk.SamplesCalibrated | main/models.py:279-295 | every stored record is calibrated by the coefficient in force on the first row's day |
| Hawk.ConvKnown | main/models.py:287-292 | a reading whose unit and target are known converts |
| Hawk.TargetsKnownWhenAdded | main/models.py:287-292 | with the micro sign in the table, all five target units are known |
| Hawk.AsWrittenRowFails | main/models.py:287-288 | as written, no row converts; with known volt and current units the failure names the micro sign |
| Hawk.AsWrittenFails | main/models.py:282-292 | as written, every import of two or more data rows whose first instant parses fails |
| Hawk.CorrectedImportSucceeds | main/models.py:282-298 | with the micro sign in the table, an import with readable rows and a coefficient in force stores one record per data row but the last |
| Hawk.MissingCalibrationFails | main/models.py:280-295 | with no coefficient in force, an import of two or more rows whose first row converts fails with MissingCalibration |
| Hawk.SingleRowStoresNothing | main/models.py:282 | a single data row is never converted, so nothing is stored, with or without a coefficient |
| Hawk.IntegrateDose | main/models.py:300-306 | the LET parts are summed over the records and the total is their sum (the dose `Integrated` gives, which the device of `idose_flights` uses) |
| Hawk.SumsAppend | main/models.py:303-305 | the sums over two runs of records add up |
| Hawk.CalibratedSums | main/models.py:293-306 | over records of one coefficient, integrated low-LET = Σgamma·bas_LET and high-LET = (Σdose_equ − Σgamma)·haut_LET |
| Hawk.DoseRate | main/models.py:308-324 | one entry per record, each rated over the time since the previous record, or since the reference for the first record |
| Hawk.Rate | main/models.py:312-322 | one loop body computes RateEntry |
| Hawk.RateEntryInverse | main/models.py:312-322 | total = bas + haut; both rates are 0 when no time has passed, else rate × hours gives the LET part back |
| Hawk.RateReintegrates | main/models.py:308-324 | when no record shares its instant with the previous one, the rates times the elapsed hours add up to the integrated dose |
| Hawk.ReintegratedStep | main/models.py:312-323 | one more record with elapsed time adds back its two LET parts |
| Hawk.SumsStep | main/models.py:303-305 | the sums over n records extend those over n - 1 by record n - 1 |
| FlightLog.AddDateTimeAnchors | main/views.py:44-46 | add_date_time fails exactly when strptime does; otherwise the instant has the parsed clock time on the date's day or the next, within [date - 1h, date + 1 day), and is on the next day exactly when that clock time on the date's day is more than an hour before the date |
| FlightLog.AnchoredUnique | main/utils.py:59-63 | an instant anchored on a date is exactly `date_inc`'s value, so the anchoring contract fixes each leg instant |
| FlightLog.LastFiveSuffix | main/views.py:83-86 | [-5::] is the last five characters, or all of a shorter cell |
| FlightLog.LegOfSelects | main/views.py:73-74 | under either NaN check, a row gives a leg exactly when its OFF cell is not NaN, its ON cell starts with 'A' and the leg builds |
| FlightLog.BuildLegSpec | main/views.py:75-95 | a leg builds exactly when its cells are text, its date and five clock times parse. It departs at the parsed date. Arrival (HH:MM:SS) and OUT/OFF/ON/IN (last five characters, HH:MM) are anchored on that date by `date_inc`'s rule: the clock time on the date's day, or on the next day exactly when that is more than an hour before the date. Number and airports are whitespace-normalised |
| FlightLog.SaveFlightFile | main/views.py:50-100 | the import stores exactly FlightFileOf: the header fields, then the legs of the selected rows; the year-rollover branch changes nothing |
| FlightLog.ImportedLeg | main/views.py:72-95 | leg j of a successful import is built from row Kept[j]: OFF present, ON starting with 'A', departing at its parsed date, normalised fields |
| FlightLog.ImportComplete | main/views.py:72-74 | a successful import keeps exactly the rows whose OFF is present and whose ON starts with 'A' |
| FlightLog.WholeColumnAbortsOnMissingOn | main/views.py:73-74 | as written, a row with OFF present and ON missing makes the whole import fail |
| FlightLog.PerCellSkipsMissingOn | main/views.py:73-74 | testing the ON cell itself skips a row whose ON is missing |
| FlightLog.PerCellImports | main/views.py:72-95 | with the per-cell test every readable log imports, keeping exactly the A rows with OFF present |
| Collecting.KeptSpec | main/views.py:130-139 | the kept indices are exactly the items that give a value, once each, in increasing order |
| Collecting.CollectSpec | main/views.py:130-139 | the walk succeeds exactly when no item raises; it then holds the values of the giving items, in order |
| Collecting.CollectFailsAt | main/views.py:98-100 | one failing item makes the whole walk fail |
| Collecting.CollectStopsAt | main/views.py:134-135 | after a successful prefix, the first failing item's error ends the walk |
| Orchestration.IdoseFlights | main/views.py:127-140 | the loop computes exactly IDoses(flights) |
| Orchestration.IDosesSpec | main/views.py:130-139 | it raises exactly when integrate_dose raises for a flight with samples. Otherwise there is one record per flight with samples and a dose, and no other, in flight order, tagged with the data file and that flight |
| Orchestration.NoSamplesNoRecords | main/views.py:134 | flights without samples give no record |
| Orchestration.TotalDeviceDoses | main/views.py:127-140 | a device whose integration always gives a dose never makes the view raise, and records exactly the flights holding samples, in flight order |
| Orchestration.Epdn2Doses | main/views.py:127-140 | for an EPDN2 file the view never raises and records exactly the flights holding samples, in order, each with its gamma sum as low-LET, its neutron sum as high-LET and their sum as total |
| Orchestration.HawkDoses | main/views.py:127-140 | for a Hawk file the view never raises and records exactly the flights holding samples, in order, each with its summed low-LET and high-LET parts and their sum as total |
| Orchestration.LiulinDoses | main/views.py:127-140 | for a Liulin file the view raises exactly when a flight with two or more samples fails to integrate; otherwise it records exactly those flights, in order, each total being the flight's exposed dose and its LET parts adding up to it |
| Search.SearchQuery | main/views.py:262-269 | the two nested loops build exactly QueryOf(s) |
| Search.AllOfMeaning | main/views.py:265-267 | an alternative's query is empty only without terms, and holds when all its terms hold |
| Search.AnyOfMeaning | main/views.py:263-268 | the query is empty exactly when no alternative has a term. Otherwise it holds when some alternative with terms has all of them holding; term-less alternatives are dropped |
| Search.SearchMeaning | main/views.py:262-269 | a search text keeps every flight when it has no term, else a flight some '/'-alternative's terms all match |
| Search.SearchExamples | main/views.py:262-269 | "" is the empty Q, "x/" equals "x", "a b/c" is (a AND b) OR c |

## Left out

- Text.ParseInt reads surrounding whitespace, an optional sign and a non-empty run of ASCII digits. Python's `int()` also accepts '_' between digits and non-ASCII decimal digits; a Liulin spectrum field written that way is `BadSpectrum` in the model, where the source reads it.
- File reading (`pandas.read_csv`, `readline`, `seek`, the text decodings) is not modelled. A file is given as its lines, or rows, already split into the cells the code reads. An instant that does not parse is `None`. Counters and measurements are numbers, and EPDN2 counters are whole numbers. Missing (NaN), non-numeric or fractional readings are not modelled. In the source, a NaN counter difference fails the `> 0` test (main/models.py:100-102), a non-numeric counter makes the subtraction raise, and a fractional difference is truncated when stored.
- `dateparser.parse` and `strptime` are parameters (`Env`, and the parsed `local` instants). Which strings they accept is not modelled.
- The pytz offset of `Europe/Paris` is the parameter `zone`. Each parser evaluates it once, at the row the source uses: the last row for EPDN2, the first block for Liulin, the first row for Hawk.
- Floating point and the database's `DecimalField(14, 7)` rounding are not modelled. Doses, rates and factors are `real`.
- Liulin channel weights are held exactly in tenths of the source's decimal weights. This is a scaling that the bLET/tLET ratios cancel.
- EPDN2 `dose_rate`: the `np.interp` step (main/models.py:144-146) is a numerical library call. The model stops at the (x, y) rate points.
- Dose-rate `time` lists are the offset in seconds from the reference instant, not the `'0000-01-01 ' + str(timedelta)` text.
- The Django ORM is not modelled: `bulk_create`, `filter`, `.last()`, `delete`, and database column limits such as `max_length=32`. A file's stored samples and legs are sequences given in stored order. Coefficients are a sequence given in order of their start date, the ordering declared at main/models.py:414-415; `Hawk.InForceIsLatest` states the in-force coefficient under that order, while `Hawk.InForce`, `Hawk.Samples` and `Hawk.ParseFile` take the sequence as given. A failed import is a `Failure`, and the source's deletion of the half-made file is not modelled.
- `idose_flights` receives the device kind as a `Device` value instead of looking it up in `deviceDict` (main/views.py:128). The three kinds are `Orchestration.Epdn2Device`, `LiulinDevice` and `HawkDevice`. Each integrates with the function (`Integrated`) that its module's `IntegrateDose` method is proved to compute. The samples of the file on a flight are a parameter of each device, not the ORM filter.
- `search_querry`'s lookup name `elem` and the database's evaluation of one `elem=term` lookup are the predicate `holds`. How `__contains` compares text, which depends on the database, is not modelled.
- Hawk with no coefficient in force: the import fails only when a row is converted (main/models.py:293). A file with a single data row stores nothing and succeeds (`Hawk.SingleRowStoresNothing`).
- Flight-log year rollover: the branch at main/views.py:80-81 never takes effect, because `old_date` stays `None` and the result of `date.replace` is discarded (`FlightLog.SaveFlightFile`).
- Flight-log anchoring: every field is anchored on the leg date parsed from "Date TdL" and "Dep..1".
- HTTP views, authentication, templates, `save_data_file`, the `search_` view's date bounds and export, `get_devices_versions`, `time_func` and `convertTimezone` are not part of this model.

## Findings

| source | as written | input that shows it | evidently intended | confidence | as-written member | corrected member |
|---|---|---|---|---|---|---|
| main/utils.py:24 | the micro prefix key is "Âµ" (U+00C2 U+00B5, a UTF-8 micro sign read as Latin-1), while the Hawk import converts to "µA", "µG", "µS" with the single U+00B5 | any Hawk file with two data rows whose first instant parses: `unitConv(current, unit, "µA")` looks up "µ" and raises KeyError, so no Hawk file with two or more data rows whose first instant parses imports | the key "µ" (U+00B5) next to "u" | high, not executed | Hawk.AsWrittenFails | Hawk.CorrectedImportSucceeds |
| main/views.py:73 | `isnotnan(df["ON"])` tests the whole ON column, which is never a NaN float | a log row with an OFF time and an empty ON cell (NaN): `df["ON"][idx][0]` raises TypeError and the whole flight log is rejected | `isnotnan(df["ON"][idx])`, which skips that row | medium, not executed | FlightLog.WholeColumnAbortsOnMissingOn | FlightLog.PerCellImports |
