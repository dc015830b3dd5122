# TEA-Adolescente prediction service — a verified model of its core

The service answers `GET /predict?token=…&ID=…` for a submitted screening
form. It fetches the submission, and returns the stored result when the ID
has been answered before. Otherwise it renames the form's columns, turns
the row into the feature vector the trained network expects, scores it,
classifies the probability against the operating threshold, and stores the
result in a bounded in-memory dictionary.

This project models four pieces of `app.py`:

- the column renamer (`Columns`);
- the feature transformer `transform_new` (`Transform`, over the frame model in `Frames`);
- the threshold decision and severity bands (`Classifier`);
- the FIFO result store `resultados` (`Cache`).

It also models the request flow that ties them together (`Pipeline`). The
model takes the source's own form:

- The band chain and the renamer are pure functions.
- `transform_new` is an imperative method: its two loops over fixed column lists become `for` loops with invariants. It is proved equal to a chain of step functions (`Transformed`).
- The result store is a class whose `seq` of keys and `map` of entries are updated in place. `Put` is proved equal to the pure `Inserted`, and the request handler `Predict` to the pure `Respond`.

Files:

- `base.dfy`: `Option`/`Result` and duplicate-free sequences.
- `classifier.dfy`, `columns.dfy`, `frames.dfy`, `transform.dfy`, `cache.dfy`, `pipeline.dfy`: one module each.

The model follows the code, including where it fails on input or behaves
unexpectedly:

- The transformer fails when a yes/no question holds anything but "Sim" or "Não" (`astype('int8')` of NaN raises). It also fails when `Col12` holds anything but "Masculino" or "Feminino", and when `Col11` holds text other than "?" that is not a number ("?" has already become NaN by then). It does not pass these values on.
- A threshold with no band table is not rejected at start-up. Each request that reaches the classification fails instead, because the label stays unbound when the result is stored.
- The record is fetched before the store is consulted (line 163 before line 186). An ID that is no longer in the spreadsheet is therefore not found even when its result is stored.

## Model

| member | source | states |
|---|---|---|
| Classifier.Decide | app.py:216-222 | class 1 with the label "TEA" exactly when the probability is strictly above the threshold; otherwise, equal to the threshold included, class 0 with the label "Não TEA" |
| Classifier.Classify | app.py:225-273 | a band is bound exactly when the threshold is 0.5, 0.45 or 0.4 and the probability is in [0, 1]; otherwise none is |
| Classifier.Table | app.py:319-370 | a band table, with the boundaries the result page prints and the bands the branch chain assigns, exists exactly for the three supported thresholds |
| Classifier.Locate | app.py:227-273 | the row an if/elif chain over a table finds: the first row holding p, and none when no row does |
| Classifier.TablesArePartitions | app.py:319-370 | each supported table starts at 0, ends at 1, and each row is non-empty and ends where the next begins |
| Classifier.PartitionOrdered | app.py:227-273 | in such a table an earlier band ends no later than a later band starts |
| Classifier.PartitionRowBounds | app.py:227-273 | every band lies within [0, 1] |
| Classifier.PartitionUnique | app.py:227-273 | no probability lies in two bands |
| Classifier.PartitionCoversFrom | app.py:227-273 | a probability in [0, 1] at or above a band's lower bound falls in that band or a later one |
| Classifier.LocateTotal | app.py:227-273 | a table gives a band exactly to the probabilities in [0, 1] |
| Classifier.LocateIs | app.py:227-273 | the band found is the unique band holding p |
| Classifier.LocateAtLeast | app.py:227-273 | p's band is at or above band k exactly when p is at least band k's lower bound |
| Classifier.LocateMonotone | app.py:227-273 | the band index never decreases as p grows |
| Classifier.BandIndex | app.py:227-273 | a supported threshold and p in [0, 1] give a band index whose row holds p |
| Classifier.ClassifyMatchesTable | app.py:225-273 | the branch chain gives exactly the band of the table row holding p, its rows bounded as the result page prints them, and nothing when there is no table or no row |
| Classifier.BandsPartitionUnitInterval | app.py:225-273 | for each supported threshold, each p in [0, 1] gets exactly one band |
| Classifier.BandIndexMonotone | app.py:225-273 | severity never decreases as the probability grows |
| Classifier.DecisionAgreesWithBands | app.py:216-273 | a positive decision comes exactly with the third band or above, except at p equal to the threshold, which is in the third band but negative |
| Classifier.BoundaryScenarios | app.py:227-256 | 0.25 is Leve and 0.75 Alta at 0.5; 0.5 is Leve at 0.45; p = t is "Não TEA"; 1.5 and threshold 0.3 bind nothing |
| Columns.BeforeDot | app.py:192 | `split('.')[0]` is the longest prefix without a '.', followed by a '.' unless it is the whole name |
| Columns.Decimal | app.py:192 | the numeral of n is non-empty, all digits and has no leading zero |
| Columns.Format02 | app.py:192 | `:02d` gives at least two digits, with a leading '0' exactly for n below 10 and none once longer than two |
| Columns.DecimalRoundTrip | app.py:192 | reading back the numeral of n gives n |
| Columns.LeadingZero | app.py:192 | a leading zero does not change a numeral's value |
| Columns.Format02RoundTrip | app.py:192 | the padded numeral still reads back as n |
| Columns.Relabel | app.py:191-195 | a name whose text before the first '.' is all digits becomes "Col" followed by at least two digits that read back as that number, padded to two digits and no further; any other name is kept |
| Columns.NumberedName | app.py:192 | the new name is "Col" followed by at least two digits that read back as the number before the first '.', padded to two digits and no further |
| Columns.StartsWithQuestion | app.py:190 | a header starting with "1. ", "2. " or "3. " has only that digit before its first '.' |
| Columns.NeedsRename | app.py:190 | when the switch fires, some header has only digits before its first '.' |
| Columns.NumberedHeaderSwitches | app.py:190 | one header starting with "1. " switches the renaming on |
| Columns.RenameChangesIffNeeded | app.py:190-196 | the headers change exactly when one of them starts with "1. ", "2. " or "3. " |
| Columns.RenameColumns | app.py:190-196 | same number of columns in the same order; when some name starts with "1. ", "2. " or "3. " every name is relabelled, otherwise all names are kept |
| Columns.NumberedPrefix | app.py:190-194 | a name starting with a one-digit question number has that digit before its first '.' |
| Columns.RelabelNotNumbered | app.py:190-195 | a relabelled name never starts with "1. ", "2. " or "3. " |
| Columns.RenameIdempotent | app.py:190-196 | renaming twice is renaming once |
| Columns.RelabelOneDigit | app.py:192 | "1. x" becomes "Col01" |
| Columns.RelabelTwoDigits | app.py:192 | "12. y" becomes "Col12" |
| Columns.RelabelKeepsWord | app.py:192-193 | "Idade" has no number before a '.' and is kept |
| Columns.RenameExamples | app.py:190-196 | ["1. x", "12. y", "Idade"] becomes ["Col01", "Col12", "Idade"] |
| Columns.RenameEach | app.py:190-196 | once switched on, the renaming relabels each of three headers in place |
| Frames.IndexOf | app.py:18 | the first column carrying a label: it has that label and no earlier column does |
| Frames.IndexOfUnique | app.py:18 | with unique labels, a column's label finds that column back |
| Frames.SetCell | app.py:18 | `df[name] = c` keeps every label, puts c under name and leaves every other column as it was |
| Frames.LookupFront | app.py:34-35 | a column whose label is unique in the front part of a frame is what the label finds after anything is appended |
| Frames.Lookup | app.py:21-23 | `df[name]` is the cell of a column with that label; with unique labels, of every column with that label |
| Transform.Code | app.py:18 | a two-valued code map gives a code exactly for its two texts: 0 for the first, and 1 exactly for the second |
| Transform.YesNoCode | app.py:18 | `{'Sim': 1, 'Não': 0}`: "Não" gives 0, "Sim" gives 1, anything else NaN |
| Transform.SexCode | app.py:21 | `{'Masculino': 0, 'Feminino': 1}`: "Masculino" gives 0, "Feminino" gives 1, anything else NaN |
| Transform.EncodeYesNo | app.py:16-18 | succeeds exactly when every yes/no question present holds "Sim" or "Não"; then the labels are kept, each yes/no column holds 1 for "Sim" and 0 for "Não", and every other column is as it was; otherwise it raises the int cast error |
| Transform.ReplacePlaceholder | app.py:19 | exactly the cells holding "?" become NaN; no "?" is left, labels and all other cells are kept |
| Transform.EncodeSex | app.py:20-21 | fails (int cast of NaN) exactly when Col12 is present and holds neither "Masculino" nor "Feminino"; otherwise Col12 holds its code, nothing else changes, and a frame without Col12 is unchanged |
| Transform.AsFloat | app.py:23 | a number is kept and NaN stays NaN; text gives the number it reads as, and the cast fails, naming the text, exactly when it is not a number |
| Transform.ScaleAge | app.py:22-23 | fails exactly when Col11 is present and its float cast fails, with that error; otherwise Col11 holds its scaled number, or stays NaN, and nothing else changes |
| Transform.Numeric | app.py:25 | `to_numeric` with coercion agrees with the float cast wherever that gives a number; NaN and text that is not a number add 0 to the sum |
| Transform.RowSumSnoc | app.py:25 | adding one more cell at the back of a row adds its value to the row sum |
| Transform.PrefixSum | app.py:24-25 | the positional sum of the first n cells equals their row sum front to back, each cell adding its Numeric value (NaN and unreadable text add 0) |
| Transform.PrefixSumBounds | app.py:25 | the positional sum of the first n cells is non-negative when every summand is, and at most n when every summand is at most 1 |
| Transform.AddTotal | app.py:24-25 | Col18 is appended after the unchanged columns exactly when there are at least ten columns and no Col18; otherwise the frame is unchanged; unique labels stay unique |
| Transform.FillNa | app.py:29 | `fillna('missing')` turns NaN into "missing" and keeps any other cell |
| Transform.FillCategories | app.py:26-29 | no categorical column is left NaN: a NaN one becomes "missing", a filled one keeps its value, and every other column is unchanged |
| Transform.Present | app.py:30 | the categorical columns present, without repeats, in the order of the list |
| Transform.Select | app.py:32 | `df[present]` has one column per requested label, in order, each holding the cell under that label |
| Transform.Drop | app.py:34 | exactly the columns whose label is not dropped remain, in their original order, none added |
| Transform.EncodeCategories | app.py:30-35 | the only failure is the encoder's; with no categorical column present the frame is unchanged; otherwise it succeeds exactly when the encoder does, giving the remaining columns in order followed by the encoder's columns |
| Transform.Reindex | app.py:36 | succeeds exactly when labels are unique; one cell per feature in order; a missing feature is 0, a present one is the cell under its label |
| Transform.Prepared | app.py:14-23 | on success the input had unique labels and the labels are kept |
| Transform.Finished | app.py:24-35 | the only failure is the encoder's; every non-categorical column of the coded frame survives unchanged |
| Transform.Wide | app.py:14-35 | repeated labels fail as such, a success had unique labels, and once coding succeeds the only failure left is the encoder's |
| Transform.Transformed | app.py:13-37 | repeated labels fail as such; with unique labels an unanswered yes/no question fails the int cast; a result has one cell per feature |
| Transform.ApplyYesNo | app.py:16-18 | the loop over the yes/no columns gives the same frame, or the same error, as EncodeYesNo |
| Transform.FillMissingCategories | app.py:26-29 | the loop over the categorical columns gives FillCategories |
| Transform.TransformNew | app.py:13-37 | the step-by-step method gives exactly Transformed |
| Transform.TransformedConforms | app.py:36 | a result has exactly the features of the list in order, 0 for a feature not computed and the computed cell otherwise |
| Transform.ReindexIdentity | app.py:36 | reindexing onto a frame's own labels gives back its row |
| Transform.ReindexIgnoresOrder | app.py:34-36 | the aligned row depends on the labelled cells only, not on their order |
| Transform.UnansweredYesNoFails | app.py:16-18 | a yes/no question holding anything but "Sim" or "Não" makes transform_new raise |
| Transform.UnknownSexFails | app.py:20-21 | Col12 holding anything but "Masculino" or "Feminino" makes transform_new raise |
| Transform.PrefixSumCountsYes | app.py:25 | summing 0/1 codes counts the "Sim" answers |
| Transform.PreparedYesNo | app.py:16-23 | a yes/no question keeps its position through lines 14-23 and holds its 0/1 code |
| Transform.FirstTenCoded | app.py:16-23 | when the first ten columns are Col01–Col10, they hold 1 for "Sim" and 0 for "Não" after coding |
| Transform.FinishedAddsTotal | app.py:24-35 | Col18 survives the categorical steps holding the sum of the first ten columns |
| Transform.FilledTotal | app.py:24-29 | after lines 24-29 Col18 is the only column with its label and holds the sum of the first ten columns |
| Transform.EncodingKeeps | app.py:30-35 | a non-categorical column alone under its label is what the label finds after the one-hot step |
| Transform.TotalCountsYesAnswers | app.py:14-35 | when the first ten columns are Col01–Col10, Col18 is the number of "Sim" answers among them |
| Cache.Inserted | app.py:277-287 | storing keeps the store well formed: an existing ID keeps its place; a new ID goes last, and at capacity the oldest is dropped |
| Cache.InsertedKeepsOthers | app.py:277-287 | every other surviving entry is unchanged and no key comes back |
| Cache.InsertedSlides | app.py:277-287 | one more distinct ID slides the window of the newest capacity IDs |
| Cache.SlideStep | app.py:277-287 | the induction step of first in, first out |
| Cache.InsertedAll | app.py:277-287 | after storing distinct IDs into an empty store it holds exactly the newest capacity of them, oldest first |
| Cache.EvictionScenario | app.py:286-287 | with capacity 3, storing a, b, c, d leaves b, c, d and a is gone |
| Cache.EntriesWithinCapacity | app.py:285-287 | a store that keeps its invariant (within capacity, each key once, the map holding exactly the listed keys) holds at most capacity entries (`len(resultados)`) |
| Cache.ResultCache.constructor | app.py:46-47 | an empty store with the given capacity |
| Cache.ResultCache.Get | app.py:186-187 | a hit exactly for a stored ID, with its entry; nothing changes |
| Cache.ResultCache.Put | app.py:277-287 | the in-place update gives exactly Inserted and keeps the store well formed |
| Pipeline.RenameFrame | app.py:190-196 | the labels become RenameColumns of the labels; the values and their order are untouched |
| Pipeline.RenameFrameIdempotent | app.py:190-196 | renaming a renamed record changes nothing |
| Pipeline.Compute | app.py:189-282 | a result exactly when transform and network succeed, the threshold is supported and the probability is in [0, 1]; it carries the network's probability, its band and the request time |
| Pipeline.Respond | app.py:163-289 | not found leaves the store; a hit returns the stored entry unchanged; a failure stores nothing; a success is what the store then holds under the ID |
| Pipeline.NewStore | app.py:46-47 | the service starts with an empty store bounded at 5000 |
| Pipeline.StoreWithinBound | app.py:285-287 | after any request the service holds at most 5000 results |
| Pipeline.RespondIsStable | app.py:186-187 | once an ID succeeded, asking again returns the same result and store whatever the network, threshold or clock then say |
| Pipeline.RespondStoresNew | app.py:277-289 | a first success stores the result under the ID, last, within capacity |
| Pipeline.Predict | app.py:163-289 | the handler on the in-memory store gives the same answer and new store as Respond |

## Left out

- HTTP routing, the access token, the missing-ID page, the HTML pages and the debug prints are request plumbing. The model starts after the token and ID checks. A failure is a `Failure` value, where the service answers 404 or 500.
- Fetching the spreadsheet (`get_latest_form_data`) is network I/O. Its outcome is the `record` parameter, where `None` means not found. A spreadsheet holding the same ID twice is not modelled.
- Loading the scaler, the encoder, the feature list, the network and the threshold from disk is left out. They are parameters: `Params`, `featureCols`, `score` and `t`.
- `model.predict` is a foreign network. It is the `score` function, which may fail; nothing requires its probability to lie in [0, 1].
- The fitted scaler and one-hot encoder are opaque. `Params.scale` maps one value, is taken to keep NaN as NaN, and is taken never to raise. `Params.encode` returns the encoded columns with their names or fails; whether unseen categories raise is not stated.
- Text read as a number is the `Params.parseNumber` parameter. It stands for both `astype(float)` (line 23) and `to_numeric(errors='coerce')` (line 25): the two parsers are taken to agree. Text that reads as NaN or infinity ("nan", "inf") is not modelled, as a real holds neither.
- Probabilities are reals, not IEEE doubles. For the threshold 0.4 the double `3*Delta` is 0.6000000000000001, so the double 0.6 is "Leve" in the source but "Moderada" here. Everywhere else the boundaries agree.
- NaN probabilities are not modelled. In the source they bind no band, so the request fails.
- `datetime.now()` is the `now` parameter, already formatted.
- The Excel export (lines 201-206) is switched off by a constant and is not modelled.
- The binary decision is only printed (line 297). `Classifier.Decide` models it, but the request flow does not carry it.
- Concurrent requests sharing the store are not modelled; the store is used sequentially.
- Columns.AllDigits: digits are the ASCII digits; `str.isdigit` also accepts other Unicode digits.
- Transform.Prepared: a frame with a repeated label is rejected up front. pandas raises on it at the encoder or the reindex, and may raise earlier with a different message; a repeated categorical label is dropped before the reindex, so there only the encoder can fail.
- Transform.Prepared: the yes/no code is kept as a number, not as an 8-bit integer; the values are 0 and 1 either way.
