# MorphoLang core in Dafny

MorphoLang describes a desired biological outcome ("induce an eye in *Xenopus
laevis*") as a record: the target morphology, the bioelectric state the tissue
must enter (a spatial domain and a two-number membrane-voltage range in mV), the
hardware drivers (ion channels, drugs) that can produce that state, and
references. This project models three parts of the engine built on these records:

- **Forward compiler** (`BioCompiler`): `find_subroutine` looks up the first
  record for an (organ, species) pair, case-insensitively, and `generate_protocol`
  lowers a record into a lab protocol. The protocol has a header, PHASE 1 (the
  target state), PHASE 2 (one OPTION block per driver), an optional Sources line
  and PHASE 3 (safety).
- **Inverse predictor** (`BioDecoder`): `predict` returns, in store order, every
  record that passes three checks against an observed voltage: an optional species
  check, a fuzzy spatial-domain check (either string contains the other, after
  lower-casing) and an inclusive check against the sorted voltage range.
  `generate_report` renders the matches.
- **State validator** (`BioStateValidator.verify_state`): decides whether the
  observed mean voltage is inside the target range. If it is not, it reports the
  distance to the nearer bound.

Files:

- `optional.dfy`: the `Option` type.
- `text.dfy`: ASCII `lower`/`upper`, substring containment, `join`, `c * n` and
  `str` of a natural number.
- `schema.dfy`: the record and `sorted()` on a voltage range.
- `seqs.dfy`: generic facts about filtering and about concatenating blocks.
- `experiment_gen.dfy`, `predict_morphology.dfy`, `dye_decode.dfy`: the three
  source files.

Each `for` statement of the source is a Dafny `method` with a `for` loop. The
method is proved equal to a specification function: `FirstMatch`,
`ProtocolLines`, `Predicted` or `ReportLines`. The list comprehension that
collects the biomarker genes is the function `Genes`. The lemmas then prove the
promised properties about those functions. `verify_state` has no loop, so it is a function.

## Model

| member | source | states |
|---|---|---|
| ExperimentGen.FirstMatchIndex | compiler/experiment_gen.py:30-36 | absent exactly when no record matches both organ and species after lower-casing; otherwise the position of a matching record with no matching record before it (first match wins) |
| ExperimentGen.FindSubroutine | compiler/experiment_gen.py:27-36 | the scan returns the first matching record in store order, `None` exactly when no record matches, and a returned record is in the store |
| ExperimentGen.FirstMatchCaseInsensitive | compiler/experiment_gen.py:33-34 | queries that agree after lower-casing find the same record |
| ExperimentGen.FirstMatchExample | compiler/experiment_gen.py:33-34 | ("EYE", "xenopus laevis") and ("eye", "Xenopus laevis") find the same record |
| ExperimentGen.FirstMatchOwnTarget | compiler/experiment_gen.py:30-35 | asking for a stored record's own organ and species, in any case, finds a record with that target at or before it |
| ExperimentGen.FirstMatchOwnRecord | compiler/experiment_gen.py:30-35 | when no two records share a target up to case, asking for a record's own target returns that record |
| ExperimentGen.GenerateProtocol | compiler/experiment_gen.py:38-81 | the appended lines, joined with newlines, are the protocol: header, PHASE 1, PHASE 2 with the OPTION blocks, the optional Sources line, PHASE 3 |
| ExperimentGen.DriverBlockAt | compiler/experiment_gen.py:63-66 | driver k is rendered as OPTION k+1 at lines 3k..3k+2 of the driver section |
| ExperimentGen.ProtocolLength | compiler/experiment_gen.py:45-79 | the protocol has 15 + 3·(number of drivers) lines, plus one when the record has references |
| ExperimentGen.ProtocolOpening | compiler/experiment_gen.py:46-61 | the exact twelve lines before the OPTION blocks: header, PHASE 1 and the PHASE 2 heading; a missing `notes` renders as the empty string |
| ExperimentGen.ProtocolOption | compiler/experiment_gen.py:63-66 | driver k appears as OPTION k+1 with its name, type and mechanism; a missing dosage reads "See paper" |
| ExperimentGen.ProtocolClosing | compiler/experiment_gen.py:73-79 | the protocol ends with the three PHASE 3 lines; with references, the Sources line follows the last OPTION block |
| ExperimentGen.ProtocolSourcesIff | compiler/experiment_gen.py:73-74 | some line starts with "\n  Sources: " if and only if the record has `metadata` with `references` |
| ExperimentGen.ProtocolTimestampOnly | compiler/experiment_gen.py:47 | two protocols of the same record differ at most in the `generated:` line |
| ExperimentGen.ProtocolHasOption | compiler/experiment_gen.py:63-64 | for a record of a well-formed store (at least one driver each) the protocol offers OPTION 1 at line 12 |
| PredictMorphology.Predict | compiler/predict_morphology.py:26-59 | the loop, with its two `continue` guards and the final range test before the append, returns exactly the filter of the store by the three checks |
| PredictMorphology.PredictedMembers | compiler/predict_morphology.py:42-57 | a record is returned if and only if it is in the store and passes all three checks; the result is no longer than the store |
| PredictMorphology.PredictedInLibraryOrder | compiler/predict_morphology.py:42-59 | the result is the store read at strictly increasing positions, and these are exactly the positions of the passing records |
| PredictMorphology.PredictedKeepsWellFormed | compiler/predict_morphology.py:42-57 | the result of a well-formed store (unique ids, drivers present) is well-formed |
| PredictMorphology.SpeciesFilterSkipped | compiler/predict_morphology.py:45 | no species and the empty species give the same result |
| PredictMorphology.EmptyDomainMatchesAll | compiler/predict_morphology.py:50-51 | the empty query domain passes the domain check for every record |
| PredictMorphology.DomainMatchExample | compiler/predict_morphology.py:50-51 | "ectoderm" passes the domain check against "ventral_ectoderm" |
| PredictMorphology.VoltageCheckOrderFree | compiler/predict_morphology.py:55-56 | a voltage passes if and only if it lies between the two bounds, both ends included, in either written order |
| PredictMorphology.OwnStateIsPredicted | compiler/predict_morphology.py:42-57 | a query with a record's own domain and species and a voltage inside its range returns that record |
| PredictMorphology.MidpointIsPredicted | compiler/predict_morphology.py:55-56 | the midpoint of a record's range, with its own domain and species, returns that record |
| PredictMorphology.GenerateReport | compiler/predict_morphology.py:61-86 | no matches give the fixed no-match message; otherwise the appended lines joined with newlines are the report |
| PredictMorphology.BlocksLength | compiler/predict_morphology.py:72-83 | the PREDICTION blocks take as many lines as the block sizes of the matches add up to |
| PredictMorphology.SumBlockSizesCount | compiler/predict_morphology.py:76-83 | each match takes four lines, plus one when it has biomarkers |
| PredictMorphology.ReportShape | compiler/predict_morphology.py:66-85 | a report has 5 + 4·(matches) + (matches with biomarkers) lines, states the match count on line 2 and ends with the dashed line |
| PredictMorphology.ReportBlockAt | compiler/predict_morphology.py:72-83 | the block of match i follows the four header lines and the blocks of the earlier matches |
| PredictMorphology.PredictionBlockLines | compiler/predict_morphology.py:76-83 | a block has heading, species, mechanism and confidence lines, and a Verifiers line exactly when the match has biomarkers |
| PredictMorphology.ReportPrediction | compiler/predict_morphology.py:72-83 | match i appears as PREDICTION #i+1, with its lines at their position in the report |
| PredictMorphology.PredictedKeepsNotes | compiler/predict_morphology.py:42-57 | when every stored record has `notes`, every match has them, so the report can be rendered |
| PredictMorphology.ReportOfPrediction | compiler/predict_morphology.py:69 | when the matches have `notes`, the report of `predict`'s result announces as many matches as were found |
| DyeDecode.VerifyState | verification/dye_decode.py:46-82 | no data exactly when the mean is absent; success exactly when the mean lies between the two bounds, inclusive; otherwise a strictly positive deviation: lower bound minus mean below the range, mean minus upper bound above it |
| DyeDecode.Outcome | verification/dye_decode.py:56-82 | the pass flag is true exactly on success |
| DyeDecode.AbsentMapFails | verification/dye_decode.py:56-57 | a missing map gives (false, "FAILURE: No Vmem map data.") |
| DyeDecode.VerdictOrderFree | verification/dye_decode.py:68 | swapping the two written bounds changes nothing in the verdict |
| DyeDecode.DeviationIsDistance | verification/dye_decode.py:72-80 | the deviation is the distance to the nearest voltage of the range, reached at one of the bounds |
| DyeDecode.VerdictAgreesWithPredictor | verification/dye_decode.py:68-71 | the validator succeeds exactly when the predictor's voltage check passes for the same value and range |
| DyeDecode.WrittenRangeExample | verification/dye_decode.py:90-91 | with the range written [-30, -50], -40 mV succeeds, and -60 mV and -20 mV both deviate by 10 mV |
| Schema.SortedBounds | compiler/predict_morphology.py:55 | `sorted()` of the range gives the two bounds, smaller first |
| Schema.SortedBoundsSymmetric | verification/dye_decode.py:68 | sorting forgets the written order of the bounds |
| Text.NatToString | compiler/experiment_gen.py:64 | the decimal rendering of a number is a non-empty string of digits, one digit long exactly below 10 |
| Text.NatToStringInjective | compiler/predict_morphology.py:76 | distinct numbers render differently, so OPTION and PREDICTION numbers tell their entries apart |

## Left out

- Library loading (`_load_library` in both compiler classes, `load_subroutine`): file checks, JSON decoding and prints. The store is a `seq<Record>` parameter.
- All `print` calls. They have no effect on any returned value.
- `datetime.now().strftime(...)` in the protocol header: the timestamp string is a parameter of `GenerateProtocol`.
- `analyze_image` (image read, blur, linear calibration) and `np.mean`: the mean voltage is an `Option<real>` input, absent when no map was read. The calibration fields are used only there.
- Python's rendering of numbers (`str` of a float or int in f-strings, the `:.2f` deviation): parameters `show` and `fmt` of type `real -> string`. Driver and match numbers use a decimal rendering of naturals.
- DyeDecode.Outcome: returns the deviation through `fmt`; the two-decimal format itself is not modelled.
- Case mapping beyond ASCII: `Lower` and `Upper` change only `A`-`Z` and `a`-`z`.
- Records with a voltage range of other than two numbers: the type rules them out, as the store's integrity test demands (tests/test_database.py:80-96).
- Missing nested keys that the core reads (`organ`, `species`, `action`, `spatial_domain`, `duration_hours`, a driver's `name`, `type` and `mechanism_of_action`): the types rule them out. The store's tests do not check these keys. The source raises `KeyError` on them, for example at compiler/experiment_gen.py:33 for any record scanned before the match. `metadata` is an `Option`, as `generate_protocol` tests for it (compiler/experiment_gen.py:73), although the store's tests require it.
- Voltages, durations and the mean are reals. There is no NaN or infinity. In the source, a NaN mean (`np.mean` of an empty or NaN-bearing map) fails all three comparisons of `verify_state` and reaches the `diff = 0` branch, returning a mismatch with deviation 0.00 mV. The model proves that branch unreachable for reals.
- Python prints an integer bound such as `-50` and a float bound such as `-50.0` differently. As reals they are equal, so one `show` per call cannot render a report or protocol that mixes both kinds.
- Record sections that none of the modelled functions read (`developmental_context`, `control_loop`, `delivery_method`, `temporal_profile`, `expected_expression`) are absent or unused.
- The program's tests expect further protocol phases: "PHASE 0: DEVELOPMENTAL CONTEXT" and "Ratiometric Voltage Imaging" (tests/test_compiler.py:53,56), and a homeostatic-maintenance phase with monitoring schedule, feedback decision tree and stop conditions (tests/test_control_loop.py:24-28, 44-46). `generate_protocol` emits none of them, and the model follows the code. The test that no "WARNING: GLOBAL REMODELING RISK" appears (tests/test_control_loop.py:37) holds for the code as written.
- PredictMorphology.GenerateReport: requires every match to have `notes`, since the source reads that key unconditionally and fails without it.
- The command-line and example scripts.
