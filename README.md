# Pharmacophore inference: batching, labelling and DX output

This project models the inference core of the Pharmnn pharmacophore
predictor (`inference.py`) and proves properties of that model. The
inference script streams the `(center, grid)` samples of each
protein–ligand complex through one reused input buffer of `batch_size`
grids. It runs the trained network on every full buffer and on the final
partial one, and rounds the sigmoid outputs. For each center it writes one
line `labels,x,y,z,ligand,protein`. When asked to, it also writes one
OpenDX scalar-field file per pharmacophore category.

Modules, one per file:

- `text.dfy` (`Text`): joining, splitting and counting characters in
  strings; decimal numerals and their parsing; `str.replace`.
- `samples.dfy` (`Samples`): centers, samples and complexes as the data
  source yields them.
- `vocabulary.dfy` (`Vocabulary`): the six categories, `feat_to_int` and
  `int_to_feat`.
- `rounding.dfy` (`Rounding`): `np.round` (round half to even) and the
  `"%0.5f"` format with its parser.
- `batching.dfy` (`Batching`): the batching loop of `predict` over the
  reused buffer (an `array`), proved against a reference cutting of the
  stream into batches.
- `tabular.dfy` (`Tabular`): multi-label selection (`point_predictions`)
  and the tabular line.
- `volume.dfy` (`Volume`): `write_dx` and the DX file names.
- `pipeline.dfy` (`Pipeline`): `predict` over all complexes, and the test
  data file chosen by `infer`.

How the model is proved:

- The imperative parts are methods proved against specification functions:
  - `Batching.StreamComplex`, the batching loop;
  - `Tabular.PointPredictions` and `Tabular.WriteComplexLines`, the output
    loops;
  - `Volume.WriteDx` and `Volume.WriteData`, the writer;
  - `Pipeline.WriteVolumes`, `Pipeline.PredictComplex` and
    `Pipeline.Predict`.
- The spec functions:
  - `Chunks`, `BatchPredictions`, `ActiveNames`, `ComplexTable`, `DxText`,
    `Step` and `Run`;
  - each has lemmas stating what the source promises about it.
- What the writers produce is proved to read back:
  - splitting the tabular text on newlines and commas gives each center's
    fields;
  - splitting a DX file gives its header lines;
  - parsing the header gives the grid counts and the origin;
  - the data lines give the values three to a line, each within half a
    unit of the fifth decimal.

Behaviours of the code a reader might not expect, which the model keeps:

- **DX data ending:** the code writes a space, not a newline, after the
  last value when the count is not a multiple of three. The file then ends
  in a space (`Volume.DxDataEnding`).
- **Lattice check:** nothing in the code checks that the centers form a
  regular lattice. The header gives the distinct-value counts and minima
  of whatever centers it is given.
- **DX file names:** the pipeline uses the name as written,
  `Volume.DxFileName`. For a protein path without '/', the files go to
  "/" + prefix + "_" + category + ".dx", outside `top_dir`. The corrected
  name `Volume.DxFileNameFixed` is stated and proved beside it (see
  Findings).
- **DX writes replace files:** `Output.volumes` is the log of DX writes in
  order, not a set of distinct files. Every write opens its path with
  `'w'`. Complexes whose proteins share a directory write the same six
  paths, and an empty complex's truncation hits the first of them. A later
  write replaces the earlier file; `Pipeline.OnDisk` gives what remains.

## Model

| member | source | states |
|---|---|---|
| Vocabulary.VocabularyBijection | inference.py:63-65 | `feat_to_int` and `int_to_feat` are inverse bijections between positions 0..5 and the six distinct category names |
| Vocabulary.CategoryIndex | inference.py:63-65 | position i and the i-th category are related by both dictionaries |
| Vocabulary.IntToFeatSize | inference.py:151 | `len(int_to_feat)` is the number of categories |
| Vocabulary.CategoryNamesArePlain | inference.py:63 | no category name is empty or holds ':', ',', '/', a space or a newline |
| Batching.StreamComplex | inference.py:126-144 | the loop writes each grid to `buffer[b]`, calls the model on every full buffer and on the valid prefix `[0, b)` at the end when `b != 0`. Its calls are exactly the reference batches of the stream. The centers are the streamed centers, and the predictions are the model outputs concatenated in call order |
| Batching.AccumulateChunks | inference.py:130-139 | after any prefix of the stream, the calls made are the batches of the longest whole-batch prefix, and the buffer holds the remaining grids, fewer than N |
| Batching.FinalFlush | inference.py:141-144 | flushing a non-empty buffer at the end completes the reference batches |
| Batching.ChunkSizes | inference.py:130-144 | with M samples and batch size N, there are ceil(M/N) calls; all but the last get N samples; the last gets M mod N, or N when N divides M; an empty stream makes no call |
| Batching.ChunkElement | inference.py:131-137 | sample k travels in call k / N at position k mod N |
| Batching.FlattenChunks | inference.py:130-144 | concatenating the calls gives back the stream: nothing lost, repeated or reordered |
| Batching.PredictionsCount | inference.py:135-144 | a model returning one vector per grid yields one prediction per sample |
| Batching.PredictionsAligned | inference.py:133-144 | the k-th prediction is the model's output for sample k, in the call and at the position that carried it |
| Rounding.RoundHalfEven | inference.py:145 | the result is the nearest integer, and an exact tie goes to the even one |
| Rounding.RoundHalfEvenUnique | inference.py:145 | exactly one integer is nearest with ties to even, so the rounding is determined |
| Rounding.RoundProbability | inference.py:145 | a probability rounds to 0 or 1, and to 1 exactly when it exceeds one half |
| Rounding.RoundThresholdExamples | inference.py:145 | 0.49999 rounds to 0, 0.50001 to 1, 0.5 to 0, and 1.5 and 2.5 to 2 |
| Rounding.Fixed5 | inference.py:88-89 | `"%0.5f"` text is at least seven characters and has a dot before exactly five decimals; it holds only a minus sign, the dot and digits |
| Rounding.UnitsTextParse | inference.py:88-89 | fixed-point text of a count of 1e-5 units parses back to that count, with its sign |
| Rounding.Fixed5RoundTrip | inference.py:88-89 | `"%0.5f" % x` parses back within 0.000005 of x |
| Rounding.Fixed5Zero | inference.py:88-89 | `"%0.5f" % 0` is "0.00000" |
| Rounding.Fixed5One | inference.py:88-89 | `"%0.5f" % 1` is "1.00000", the text of a rounded active value |
| Tabular.RoundRows | inference.py:145 | `np.round(predicted).astype(int)` keeps the number of rows and the length of each |
| Tabular.PointPredictions | inference.py:150-153 | the loop over `range(len(int_to_feat))` collects exactly the active names of the row |
| Tabular.ActiveNamesBelowOrdered | inference.py:151-153 | after the first m indices, every name collected has an index below m, in strictly increasing order |
| Tabular.ActiveNamesBelowMembers | inference.py:151-153 | after the first m indices, category i is collected if and only if i < m and its entry is 1 |
| Tabular.ActiveNamesExact | inference.py:149-153 | every name is a category; category i is named if and only if its rounded entry is 1; names appear in vocabulary order; the list is empty exactly when no entry is 1 |
| Tabular.LabelFieldRoundTrip | inference.py:154 | `':'.join(point_predictions)` is empty exactly when nothing is active, otherwise splits back on ':' into the names, and holds no ',' or newline |
| Tabular.LineRoundTrip | inference.py:154 | when no field holds ',' or a newline, the line splits on ',' into labels, x, y, z, ligand and protein, and holds no newline |
| Tabular.WriteComplexLines | inference.py:149-154 | the loop over `zip(centers, intpredicted)` writes exactly the complex's table text |
| Tabular.TableIsJoin | inference.py:149-154 | the text for m lines is their bodies joined by newlines, plus a final newline |
| Tabular.ComplexTableLines | inference.py:149-154 | the complex's text splits on newlines into one line per center plus an empty tail. Line k splits on ',' into the k-th center's label field, coordinates, ligand and protein |
| Tabular.TableNewlines | inference.py:149-154 | the text for m pairs holds exactly m newlines |
| Volume.Column | inference.py:90-92 | `centers[:, axis]` has one entry per center |
| Volume.UniqueSize | inference.py:90-96 | a non-empty column has between 1 and as many distinct values as entries |
| Volume.SeqMin | inference.py:98-100 | the minimum is an entry of the column and no entry is smaller |
| Volume.WriteDx | inference.py:87-115 | without centers, nothing is written (the source fails); otherwise the text is the seven header lines followed by the data section |
| Volume.WriteData | inference.py:108-115 | the loop appends each formatted value and its separator: a newline after every third value, a space otherwise |
| Volume.CountsRead | inference.py:90-106 | the counts field splits into three numerals that parse back to the distinct-coordinate counts along x, y and z, each between 1 and the number of centers |
| Volume.OriginRead | inference.py:98-104 | the origin field splits into three texts, each within 0.000005 of the axis minimum; that minimum is one of the coordinates and no center lies below it |
| Volume.HeaderLinesPlain | inference.py:103-107 | no header line holds a newline when `str(resolution)` holds none |
| Volume.DxTextLines | inference.py:103-115 | a DX file splits on newlines into the seven header lines followed by the lines of the data section |
| Volume.DataTextLines | inference.py:108-115 | the data section splits on newlines into full rows of three values, then the unfinished last line |
| Volume.DataRead | inference.py:108-115 | the data section has one line per three values plus one; line r splits on spaces into three texts within 0.000005 of values 3r, 3r+1 and 3r+2 |
| Volume.DxDataEnding | inference.py:112-115 | the data section ends in a newline exactly when the number of values is a multiple of three, and in a space otherwise |
| Volume.DirPartSplit | inference.py:159 | a path is its directory part, '/' and its base name; without a '/' the directory part is empty |
| Volume.DxFileNameRooted | inference.py:159-160 | as written, a protein path without '/' gives the name "/" + prefix + "_" + category + ".dx", dropping `top_dir` |
| Volume.DxFileNameRootedExample | inference.py:159-160 | top_dir "out", protein "p.pdb", prefix "pred" and category Aromatic give "/pred_Aromatic.dx" |
| Volume.DxFileNameFixedCorrect | inference.py:158-160 | the corrected name equals the source's whenever the protein path holds '/'; otherwise it starts with `top_dir` and ends with "/" + the file name |
| Volume.DxFileNameInjective | inference.py:158-160 | two categories get the same as-written DX file name if and only if they are the same category, for any `top_dir`, protein path and prefix |
| Volume.StemInjective | inference.py:159 | names that differ only in the category part are equal if and only if the categories are |
| Volume.DxFileNameFixedInjective | inference.py:158-160 | the corrected names are distinct across categories too |
| Pipeline.BatchPredictionsWide | inference.py:135-144 | a model returning one vector per grid, each with an entry per category, gives predictions that all have one |
| Pipeline.PredictionsShape | inference.py:130-145 | a complex's predictions are one per sample, each with an entry per category |
| Pipeline.Feature | inference.py:162 | `predictions[:, i]` has one value per center |
| Pipeline.DxValues | inference.py:146-147 | `round_pred` changes the values, never their number or shape |
| Pipeline.ComplexVolumes | inference.py:158-163 | a complex with centers gets one DX write per category, each to the category's as-written name |
| Pipeline.StepEffect | inference.py:123-163 | one complex stops the run exactly when DX output is on and it has no samples. In that case the only write is the emptying of the first category's as-written DX file. Without DX output no file is written; otherwise one write per category |
| Pipeline.WriteVolumes | inference.py:158-163 | the loop over `range(len(int_to_feat))` writes exactly the complex's DX files under their as-written names, in category order |
| Pipeline.PredictComplex | inference.py:123-163 | one pass of the loop over complexes appends exactly what `Step` prescribes |
| Pipeline.Predict | inference.py:117-163 | `predict` over all complexes, with one buffer, produces exactly `Run` and stops at the first complex that fails |
| Pipeline.RunNext | inference.py:123-163 | after a prefix that did not stop, the next complex applies one `Step` |
| Pipeline.RunStops | inference.py:155-163 | once the run has stopped, later complexes change nothing |
| Pipeline.RunSnoc | inference.py:123-163 | the last complex stops the run, or adds its DX files, as `Step` says |
| Pipeline.RunAborted | inference.py:155-163 | the run stops if and only if DX output is on and some complex has no samples |
| Pipeline.TableLineCount | inference.py:149-154 | when the run completes and no name or coordinate text holds a newline, the output file has one line per sample over all complexes |
| Pipeline.TableIgnoresRounding | inference.py:145-147 | `round_pred` changes neither the output file nor whether the run stops |
| Pipeline.VolumeCount | inference.py:155-163 | without DX output no DX file is written; with it, a completed run makes six DX writes per complex (complexes sharing a protein directory write to the same six paths) |
| Pipeline.ComplexVolumesShape | inference.py:156-162 | the six as-written DX names of one complex are six distinct paths, and each file carries one value per center |
| Pipeline.OnDiskLatest | inference.py:160-163 | a path written in the log holds the text of its last write; an earlier write to the same path is replaced |
| Pipeline.TestDataPathCases | inference.py:59-61 | a given test file is used as is; without one, a training name that does not mention "train" is reused unchanged |
| Pipeline.TestDataPathExample | inference.py:60-61 | training file "train.txt" gives test file "test.txt" |

## Left out

- `infer`'s file handling is not modelled. It opens the two output files and calls `predict` once for the training split and once for the test split. Each split is a separate run of `Pipeline.Predict`. File opening, closing and the progress messages are I/O.
- The data source is not modelled. `get_dataset`, `get_complexes` and `binding_site_grids` become the `entries` parameter: the complexes in order, each with its stream of samples. `dataset.resolution` becomes the `resolution` parameter, and `dataset.dims` only fixes the buffer's element type.
- The network (`torch.load`, `eval`, CUDA, `no_grad`, `sigmoid`, `detach().cpu().tolist()`) is not modelled. It becomes a function `net` from a batch of grids to one prediction vector per grid. `Pipeline.ModelContract` requires one vector per grid with at least one entry per category; the source indexes `predict[i]` for every category.
- `str()` of a float is not modelled. It becomes the parameter `show`, used for the center coordinates and for the resolution. Python's shortest round-trip float repr is not modelled. The properties that split lines require only that `show` writes no ',' or newline.
- Floating point is not modelled: values are reals. `np.round` and `"%0.5f"` are modelled exactly on the real value of the double. Negative zero, NaN and infinities are not represented.
- Volume.Unique: `np.unique` is modelled as the set of distinct values of a column. Only its size and minimum are used.
- `Config.batchSize` must be positive. With 0, the source fails at the first grid it writes to the buffer.
- After a run stops, the error propagates out of `predict`. What `infer` does next is not modelled: the test split is never evaluated, and the output file is left unclosed.
- Volume.WriteDx: the header is built as one text and written in one piece. The source writes it in five writes that produce the same text.
- argparse, wandb, the random seed, model construction and the other command-line options do not reach the core and are not modelled.

## Findings

| source | as written | input that shows it | evidently intended | confidence | as-written member | corrected member |
|---|---|---|---|---|---|---|
| inference.py:159-160 | The DX file name is `'/'.join(protein.split('/')[:-1]) + '/' + prefix + "_" + label + ".dx"`, then joined under `top_dir`. For a protein path without '/', the directory part is empty, so the name starts with '/'. `os.path.join` then drops `top_dir`, and the file goes to the filesystem root. | top_dir "out", protein "p.pdb", prefix "pred", category Aromatic gives "/pred_Aromatic.dx" | the file goes under `top_dir` ("out/pred_Aromatic.dx"); the directory part and its '/' are added only when the protein path has one | medium, not executed | Volume.DxFileNameRootedExample | Volume.DxFileNameFixedCorrect |
