# Optical spectroscopy quality control, modelled in Dafny

The system analyses transmission spectra of optical materials. A spectrum is transmission in percent as a
function of wavelength in nanometres. The system has three parts:

- **Synthetic spectrum generator.** A database of eight materials (Sellmeier coefficients, refractive index,
  absorption edges, peak transmission) drives a physical model: Sellmeier dispersion, Fresnel reflection
  loss at two surfaces, Beer-Lambert absorption through the sample thickness, then optional defects
  (broadband loss, a Gaussian absorption band, or Rayleigh-like scatter).
- **CSV loader.** It normalises column names, rejects tables that lack the required columns, collects range
  and missing-value warnings, and answers per-sample and per-material queries.
- **Quality classifier.** For each sample it computes peak and average transmission, visible-range
  uniformity, transmission bandwidth, defect locations, a quality grade (Excellent / Good / Fair / Poor)
  and a pass/fail verdict with explanatory notes.

The Dafny project has eight modules:

- `Wrappers`: `Option` and `Result`.
- `Analytic`: `exp` and `sqrt` as function parameters, with the properties the proofs rely on.
- `RealSeqs`: the numpy reductions used, namely sum, mean, max, min, clip, `where` and `sorted`.
- `Frames`: an in-memory table of cells. A cell is a number, a text or missing.
- `DataGenerator`: `src/data_generator.py`.
- `LoaderChecks`: the pure column-name and validation rules of `src/data_loader.py`.
- `DataLoader`: the loader class, `SpectroscopyDataLoader`.
- `QualityClassifier`: `src/quality_classifier.py`.

Pure code is modelled as functions with lemmas. Loops become methods, each proved equal to a specification
function. Examples are the clustering loop of defect detection, the per-sample loop of `analyze_dataframe`,
and the absorption and defect loops of the generator.

The loader keeps its state in two fields, the loaded table and the validation messages. It is a class whose
methods update those fields.

The generator's random noise is a parameter: a sequence of per-point noise values. The classifier's gradient
and moving-average kernels also arrive as parameters (`QualityClassifier.Kernels`), because the numeric
smoothing is not modelled.

Points about the code that the model reproduces:

- `calculate_metrics` has no short-circuit for an empty spectrum; `np.max` fails on one. It also fails for
  spectra shorter than the 20-point moving average (see "## Left out"). At least 20 points is therefore a
  precondition of the metrics, and of every sample in `analyze_dataframe`.
- The spectrum is not sorted by wavelength before analysis.
- Defect detection is "cluster the sharp gradient drops, take each cluster's middle point, then add
  absorption-band points not within 50 nm of a location already found". It is not an interior scan that
  skips five points.
- The generator does not reject a negative thickness. Its bounds therefore need `thickness_mm >= 0`.

## Model

| member | source | states |
|---|---|---|
| QualityClassifier.ClassifyGrade | src/quality_classifier.py:264-273 | Excellent exactly when the average is at least 90, Good exactly in [80, 90), Fair exactly in [70, 80), Poor exactly below 70 |
| QualityClassifier.ClassifyGradeMonotone | src/quality_classifier.py:74-79 | a higher average never gets a lower grade |
| QualityClassifier.ClassifyGradeIsBestReached | src/quality_classifier.py:264-273 | the grade chosen is the best one whose threshold the average reaches: its threshold is met and every better grade's threshold is not |
| QualityClassifier.VisibleIndices | src/quality_classifier.py:126-127 | the mask's indices, ascending, are exactly those whose wavelength lies in [400, 700] nm |
| QualityClassifier.VisibleTransmission | src/quality_classifier.py:126-129 | the visible selection has one entry per visible index, in index order with repetitions kept, each the transmission at that index; it is non-empty exactly when some wavelength lies in [400, 700] nm |
| QualityClassifier.VisibleTransmissionMembers | src/quality_classifier.py:126-129 | a value occurs in the visible selection exactly when it is the transmission of some point in [400, 700] nm |
| QualityClassifier.Uniformity | src/quality_classifier.py:143-148 | the score lies in [0, 100]; it is 0 when no point is visible or the visible mean is not positive |
| QualityClassifier.UniformityOfConstant | src/quality_classifier.py:143-146 | a flat positive visible spectrum scores exactly 100 |
| QualityClassifier.Bandwidth | src/quality_classifier.py:191-194 | the bandwidth is 0 when no point reaches the threshold |
| QualityClassifier.BandwidthFirstLast | src/quality_classifier.py:196-202 | the bandwidth is the wavelength of the last point at or above the threshold minus that of the first |
| QualityClassifier.BandwidthAscending | src/quality_classifier.py:184-202 | on an ascending grid the bandwidth is between 0 and the grid's span, and at least the distance between any two points at or above the threshold |
| QualityClassifier.SharpDrops | src/quality_classifier.py:228 | the indices, ascending, are exactly those whose smoothed gradient is below -0.5 |
| QualityClassifier.AbsorptionBands | src/quality_classifier.py:250-253 | the indices, ascending, are exactly those lying more than 10 points of percent below the local mean |
| QualityClassifier.RunsPartition | src/quality_classifier.py:231-241 | the clusters concatenate back to the drops; each cluster's neighbours are fewer than 10 indices apart; consecutive clusters are at least 10 apart |
| QualityClassifier.RunPartitionUnique | src/quality_classifier.py:231-241 | any partition with those properties is the one computed, so the clustering is fully determined by them |
| QualityClassifier.RunsOfDrops | src/quality_classifier.py:231-241 | a non-empty drop list gives between 1 and as many clusters as drops, all indices within the spectrum |
| QualityClassifier.ClusterDrops | src/quality_classifier.py:231-241 | the loop produces exactly the specified clustering |
| QualityClassifier.ClusterCenters | src/quality_classifier.py:244-246 | the loop produces each cluster's middle-index wavelength, in cluster order |
| QualityClassifier.AddUniqueAppended | src/quality_classifier.py:255-260 | every appended location is a candidate at least 50 nm from every location before it |
| QualityClassifier.AddUniqueCovers | src/quality_classifier.py:255-260 | every candidate ends up within 50 nm of some location |
| QualityClassifier.AddBandLocations | src/quality_classifier.py:255-260 | the loop appends band wavelengths exactly as the deduplication specifies |
| QualityClassifier.DefectLocations | src/quality_classifier.py:262 | the locations are sorted, and at least one is present whenever a sharp drop exists |
| QualityClassifier.DefectLocationsMembers | src/quality_classifier.py:204-262 | every cluster centre is a reported location, and every reported location is a cluster centre or an absorption-band wavelength |
| QualityClassifier.DefectLocationsCoverBands | src/quality_classifier.py:248-262 | every absorption-band point lies within 50 nm of a reported location |
| QualityClassifier.DetectDefects | src/quality_classifier.py:204-262 | the method returns the specified defect locations |
| QualityClassifier.NoteRules | src/quality_classifier.py:128-167 | the visible-range note appears exactly when no point is visible; the defect-count note exactly when defects exist, carrying their count; the threshold note exactly when the average is below the threshold; the defects-failure note exactly when defects exist; at most four notes |
| QualityClassifier.CollectNotes | src/quality_classifier.py:119-167 | the notes are appended in the order the source appends them |
| QualityClassifier.MetricsProperties | src/quality_classifier.py:100-182 | for a spectrum of at least 20 points: the peak is the largest transmission; both averages lie between min and max; the uncovered-visible note appears exactly when no point is visible, and then the visible average is the full average and uniformity is 0; uniformity is in [0, 100]; the defect count is the number of sorted locations; the grade classifies the visible average; the sample passes exactly when that average reaches the threshold and no defect is found |
| QualityClassifier.MetricsAverages | src/quality_classifier.py:125-135 | both averages lie between the smallest and the largest transmission |
| QualityClassifier.AvgVisibleBounds | src/quality_classifier.py:126-131 | the visible average, or its full-spectrum fallback, lies between the smallest and the largest transmission |
| QualityClassifier.MetricsCoverage | src/quality_classifier.py:128-148 | the uncovered-visible note appears exactly when no point is visible, and then the visible average falls back to the full average and uniformity is 0 |
| QualityClassifier.MetricsVerdict | src/quality_classifier.py:151-167 | uniformity is in [0, 100]; the defect count matches the sorted locations; the grade and the pass verdict follow the visible average and the defect count |
| QualityClassifier.CalculateMetrics | src/quality_classifier.py:100-182 | for a spectrum of at least 20 points, the method computes exactly the specified metrics record |
| QualityClassifier.SamplesProperties | src/quality_classifier.py:288-293 | with a sample_id column, the samples are that column's distinct values in first-appearance order; without one, the single sample is the first material |
| QualityClassifier.SampleFrameColumns | src/quality_classifier.py:296-303 | each sample's sub-table keeps the spectrum columns and has at least one row |
| QualityClassifier.SummarisesNext | src/quality_classifier.py:295-322 | appending the next sample's row keeps the results a prefix-wise summary of the samples |
| QualityClassifier.AnalyzeSample | src/quality_classifier.py:296-322 | one summary row is the sample's metrics, restricted to the reported fields, with the material read from the sample's first row |
| QualityClassifier.AnalyzeDataframe | src/quality_classifier.py:275-324 | for samples of at least 20 points each whose first row names a material, there is one row per distinct sample, in sample order, and row i is sample i's summary |
| DataGenerator.MaterialDatabaseValid | src/data_generator.py:56-153 | every material has peak transmission in (0, 1], a UV cut-off below its IR cut-off, a positive base absorption and a visible index of at least 1 |
| DataGenerator.DefectProfilesValid | src/data_generator.py:170-219 | every defect profile has a known type and a loss in [0, 1]; absorption bands carry a centre and a positive width |
| DataGenerator.SellmeierN | src/data_generator.py:235-241 | the index is at least 1; it is the square root of the Sellmeier sum when that sum is at least 1, and 1 otherwise |
| DataGenerator.RefractiveIndex | src/data_generator.py:331-334 | with Sellmeier coefficients the index is at least 1; without them it is the material's visible index |
| DataGenerator.FusedSilicaIndexAt550 | src/data_generator.py:71-81 | the fused-silica Sellmeier index at 550 nm lies in [1.45, 1.47] |
| DataGenerator.FresnelLoss | src/data_generator.py:243-246 | for an index of at least 1 the two-surface transmission factor is in (0, 1], and exactly 1 for index 1 |
| DataGenerator.AbsorptionAt | src/data_generator.py:248-272 | the coefficient is at least the base, and equals it exactly outside both edge regions |
| DataGenerator.AbsorptionRegions | src/data_generator.py:248-272 | inside the UV region the UV term is added, inside the IR region the IR term, in both regions both terms; both terms are positive |
| DataGenerator.AbsorptionRisesTowardUvEdge | src/data_generator.py:264-266 | in the UV region, a shorter wavelength absorbs strictly more |
| DataGenerator.AbsorptionRisesTowardIrEdge | src/data_generator.py:268-270 | in the IR region, a longer wavelength absorbs strictly more |
| DataGenerator.BeerLambertDecreasing | src/data_generator.py:337-342 | through a sample of positive thickness, a larger absorption coefficient gives strictly lower transmission, for any index of at least 1 and peak in (0, 1] |
| DataGenerator.TransmissionFallsTowardUvEdge | src/data_generator.py:330-342 | for a constant-index material and positive thickness, outside the IR region, a shorter wavelength inside the UV region transmits strictly less |
| DataGenerator.TransmissionFallsTowardIrEdge | src/data_generator.py:330-342 | for a constant-index material and positive thickness, outside the UV region, a longer wavelength inside the IR region transmits strictly less |
| DataGenerator.AbsorptionCoefficient | src/data_generator.py:248-272 | the array method yields, point by point, the specified coefficient |
| DataGenerator.AddUvAbsorption | src/data_generator.py:261-266 | after the UV pass each entry is the base plus the UV term where it applies |
| DataGenerator.AddIrAbsorption | src/data_generator.py:268-270 | after the IR pass each entry is the full coefficient |
| DataGenerator.BeerLambert | src/data_generator.py:337-342 | for a non-negative thickness the transmission is positive and at most the peak |
| DataGenerator.IntrinsicTransmission | src/data_generator.py:327-342 | for a non-negative thickness the defect-free transmission is in (0, peak] |
| DataGenerator.Gaussian | src/data_generator.py:285-287 | the band profile lies in (0, 1] |
| DataGenerator.ScatterLoss | src/data_generator.py:289-294 | for a non-negative loss, the scatter factor is between 0 and twice the loss |
| DataGenerator.ApplyDefectPointwise | src/data_generator.py:274-296 | broadband multiplies by one minus the loss; an unknown type leaves the spectrum unchanged; an attenuating defect keeps each non-negative point between 0 and its old value |
| DataGenerator.ApplyDefectsConcat | src/data_generator.py:345-350 | applying two defect lists in turn equals applying their concatenation |
| DataGenerator.KnownKeys | src/data_generator.py:345-347 | the known keys are exactly the listed keys present in the defect table |
| DataGenerator.ApplyDefectsSkipsUnknown | src/data_generator.py:345-350 | defect names not in the table have no effect |
| DataGenerator.ApplyDefectsAttenuate | src/data_generator.py:345-350 | defects never raise a non-negative transmission, nor make it negative |
| DataGenerator.ApplyDefectsInOrder | src/data_generator.py:345-350 | the defect loop applies the listed defects in order |
| DataGenerator.IntrinsicTransmissionOver | src/data_generator.py:330-342 | the loop computes the specified defect-free spectrum |
| DataGenerator.DefaultWavelengths | src/data_generator.py:324-325 | the default grid has 1151 points, 200 nm to 2500 nm in 2 nm steps |
| DataGenerator.DefaultGridOffPoles | src/data_generator.py:324-334 | no material's Sellmeier sum has a pole on the default grid |
| DataGenerator.IntrinsicSpectrum | src/data_generator.py:327-342 | the spectrum is as long as the grid and, for a non-negative thickness, every point is in (0, peak] |
| DataGenerator.Percent | src/data_generator.py:353-357 | every percentage is clipped to [0, 100]; with zero noise it is 100 times the fraction |
| DataGenerator.SpectrumOfProperties | src/data_generator.py:298-367 | the output keeps the grid, has one point per wavelength in [0, 100], names the material, and flags defects exactly when some are requested, listed comma-joined or "none"; noise-free with non-negative thickness, no point exceeds 100 times the peak |
| DataGenerator.SpectrumOfNoiseFree | src/data_generator.py:337-357 | without noise and with non-negative thickness, no point exceeds 100 times the material's peak transmission |
| DataGenerator.GenerateSpectrum | src/data_generator.py:298-367 | an unknown material is the error; a known one yields the specified spectrum over the given or the default grid |
| LoaderChecks.LowerChar | src/data_loader.py:78 | lower-casing leaves no upper-case ASCII letter, shifts each one by 32 and keeps every other character |
| LoaderChecks.Strip | src/data_loader.py:78 | the result has no surrounding white space and an already trimmed name is unchanged |
| LoaderChecks.StripInfix | src/data_loader.py:78 | the stripped name is a contiguous part of the name with only white space before and after it |
| LoaderChecks.NormalizeColumnProperties | src/data_loader.py:78 | a normalised name is lower-case, trimmed and space-free, and normalising twice changes nothing |
| LoaderChecks.NormalizedIsFixed | src/data_loader.py:78 | an already normalised name is left unchanged |
| LoaderChecks.MissingRequired | src/data_loader.py:81-83 | a column is reported missing exactly when it is required and absent; nothing is missing exactly when all required columns are present |
| LoaderChecks.CountsByCheck | src/data_loader.py:110-131 | each range warning appears once exactly when its test on the minimum or maximum fails, and never otherwise |
| LoaderChecks.RangeValues | src/data_loader.py:110-131 | each range warning carries the minimum or maximum it reports |
| LoaderChecks.ValidationRangeRules | src/data_loader.py:107-131 | over a table, the range warnings follow the present wavelengths and transmissions, with missing cells skipped |
| LoaderChecks.NanWarningsRules | src/data_loader.py:134-140 | every NaN warning names a listed column and its positive count, and every listed column with missing cells gets one |
| LoaderChecks.NanWarningsInOrder | src/data_loader.py:134-140 | for listed columns without repetition, the NaN warnings follow the order of the list, so no column is reported twice |
| LoaderChecks.ValidationNanRules | src/data_loader.py:133-140 | over a table, each required column with missing cells is reported exactly once with its count, in the order wavelength, transmission, material; no other column is reported |
| LoaderChecks.NanChecks | src/data_loader.py:134-140 | the loop yields the specified NaN warnings in column order |
| DataLoader.Normalize | src/data_loader.py:78 | rows are unchanged, column j is the normalised form of raw column j, every name is normalised, and a well-formed table stays well formed |
| DataLoader.SpectroscopyDataLoader.constructor | src/data_loader.py:43-52 | a new loader holds no table and no messages |
| DataLoader.SpectroscopyDataLoader.ValidateData | src/data_loader.py:97-145 | the message list is replaced by the table's validation warnings |
| DataLoader.SpectroscopyDataLoader.AppendRangeWarnings | src/data_loader.py:109-131 | the four range checks append their warnings to the list in order |
| DataLoader.SpectroscopyDataLoader.LoadCsv | src/data_loader.py:54-95 | a table lacking required columns is rejected with the missing set and no state change; otherwise the normalised table is stored and returned, and validated when the loader is set to validate |
| DataLoader.SpectroscopyDataLoader.GetSample | src/data_loader.py:178-201 | no table, no sample_id column and an unknown id are the three errors; otherwise the result has the same columns and the rows with that id, in table order with repetitions kept |
| DataLoader.SpectroscopyDataLoader.GetMaterial | src/data_loader.py:203-223 | no table and an unknown material are the errors; otherwise the result has the rows of that material, in table order with repetitions kept |
| DataLoader.SpectroscopyDataLoader.ListMaterials | src/data_loader.py:225-229 | no table is the error; otherwise it lists each material of the table exactly once |
| DataLoader.SpectroscopyDataLoader.ListSamples | src/data_loader.py:231-237 | no table is the error; without a sample_id column the list is empty; otherwise it lists each id exactly once |
| DataLoader.SelectedNonEmpty | src/data_loader.py:194-199 | a selection by value is non-empty exactly when the value occurs in the column |
| DataLoader.ListingOrder | src/data_loader.py:225-237 | the materials and ids are listed in the order in which they first appear |
| Frames.Unique | src/data_loader.py:229 | the distinct values hold exactly the values of the column, with no repetition |
| Frames.UniqueFirstAppearance | src/data_loader.py:229 | the distinct values come in order of first appearance |
| Frames.SelectRowsMembers | src/data_loader.py:194-196 | selecting rows keeps exactly the rows whose cell is the value, in table order with repetitions kept |
| Frames.RowsWhereInOrder | src/data_loader.py:194-196 | the kept rows are the rows at the matching indices, ascending |
| Frames.CountMissing | src/data_loader.py:134 | the count is the number of missing cells, so it is positive exactly when the column has one |
| RealSeqs.Sort | src/quality_classifier.py:262 | the result is ascending and a permutation of the input |

## Left out

- Random noise is not generated. The generator takes the per-point noise as a parameter. `generate_dataset`
  (random materials, thicknesses and defects, file output) is not modelled.
- `np.exp` and `np.sqrt` are function parameters. Only the properties used are assumed: positivity, the
  bounds of the exponential of a non-positive number, and sqrt squares back and is monotone. All arithmetic
  is on exact reals; IEEE rounding, NaN propagation and infinities are not modelled.
- `np.gradient` with its smoothing, and the 20-tap moving average, are abstract inputs (`Kernels`) with only
  their length fixed. Spectra of 1 to 19 points fail in the source. For one point, `np.gradient` raises an
  error. For 2 to 19 points, the moving average in 'same' mode returns 20 samples and the subtraction
  fails.
- QualityClassifier.CalculateMetrics, QualityClassifier.Metrics and QualityClassifier.AnalyzeDataframe do
  not model that error. They require at least 20 points (`LOCAL_MEAN_WINDOW`) per spectrum instead, and make
  no promise for shorter ones.
- DataGenerator.AbsorptionRisesTowardUvEdge and DataGenerator.AbsorptionRisesTowardIrEdge: for the materials
  with Sellmeier coefficients only the absorption half of the decay toward each edge is claimed. Their
  Fresnel factor changes with n(λ), so the fall of the transmission itself is proved only for
  constant-index materials (`TransmissionFallsTowardUvEdge`, `TransmissionFallsTowardIrEdge`).
- The generator requires wavelengths away from the Sellmeier poles and non-zero wavelengths for scatter.
  The source would divide by zero there; those inputs are preconditions.
- Notes are kept as a datatype (`Note`). Their text, the "%.1f" formatting of the threshold note and the
  "; " join of the summary row are not modelled.
- In numeric columns the model takes cells to be numbers or missing (`Validatable`). A text cell there makes
  pandas' min and max raise an error, which is not modelled.
- Lower-casing and stripping cover ASCII only. The set of white-space characters is Python's ASCII set.
  Unicode case mapping and Unicode white space are not modelled.
- Two raw columns can normalise to the same name. The source then misbehaves: `df['wavelength_nm']` is a
  table, not a column, so the range test in `_validate_data` (src/data_loader.py:111) raises a ValueError
  (the truth value of a Series is ambiguous), and the `sample_id` mask of `get_sample`
  (src/data_loader.py:194-196) masks the table cell by cell instead of selecting rows. The model does not
  reproduce that: `Column` takes the first column of that name.
- Sample ids are text cells; `str()` of a numeric id is not modelled.
- QualityClassifier.AnalyzeDataframe and QualityClassifier.AnalyzeSample require every wavelength and
  transmission cell to be a number, and the first material cell of each sample to be a text. Material cells
  in later rows are unconstrained, as the source reads only the first (src/quality_classifier.py:303). A
  missing first material, which pandas reads as NaN and the source copies into the summary row (or turns
  into the id "nan" when there is no sample_id column), is not modelled. Missing spectrum cells would enter
  the metrics as NaN, and NaN arithmetic is not modelled either.
- The validation warnings are a datatype, not the messages' text; the log output is left out.
- File I/O and CSV parsing are left out: the loader takes an already-read table, and a missing file is not a
  case. The following are not part of this model: `load_multiple_files`, `get_summary`, logging,
  `generate_report`, `main`, `src/visualization.py` and `src/spectrum_analyzer.py`.
- `calculate_metrics` computes `peak_wavelength` (`np.argmax`) at src/quality_classifier.py:123 into a local
  that is never used, so it has no effect and is not modelled.
- The generator's `DataFrame` repeats its constant columns on every row. `DataGenerator.Spectrum` keeps them
  once.
