/**
 * `predict` over a whole dataset: for every complex, stream its grids
 * through the batch accumulator, write one tabular line per center, and,
 * when volumetric output is requested, write one DX file per category.
 * Also the choice of the test data file in `infer`.
 */
module Pipeline {
  import opened Text
  import opened Rounding
  import opened Vocabulary
  import opened Samples
  import opened Batching
  import opened Tabular
  import opened Volume

  /** The command-line options `predict` reads. */
  datatype Config = Config(batchSize: nat, createDx: bool, roundPred: bool, prefixDx: string, topDir: string)

  /** What the data source yields for one complex: the pair, and its stream of (center, grid) samples. */
  datatype Entry<G> = Entry(complex: Complex, samples: seq<Sample<G>>)

  /** A DX file written: its path and its text. */
  datatype VolumeFile = VolumeFile(path: string, text: string)

  /**
   * What `predict` produces: the text of the output file, the log of DX
   * file writes in write order, and whether the run stopped early (the
   * source raises on a complex without samples when DX output is
   * requested). Complexes that share a protein directory write the same six
   * paths, so a later write replaces an earlier file: `OnDisk` gives the
   * files that remain.
   */
  datatype Output = Output(table: string, volumes: seq<VolumeFile>, aborted: bool)

  /** The files left on disk by a log of writes: each path holds the text of its last write. */
  function OnDisk(writes: seq<VolumeFile>): map<string, string>
  {
    if writes == [] then map[]
    else OnDisk(writes[..|writes| - 1])[writes[|writes| - 1].path := writes[|writes| - 1].text]
  }

  /**
   * A path on disk holds the text of the last write to it; a write that a
   * later one to the same path follows is lost.
   */
  lemma {:induction false} OnDiskLatest(writes: seq<VolumeFile>, k: nat)
    requires k < |writes|
    requires forall j :: k < j < |writes| ==> writes[j].path != writes[k].path
    ensures writes[k].path in OnDisk(writes) && OnDisk(writes)[writes[k].path] == writes[k].text
    decreases |writes|
  {
    if k < |writes| - 1 {
      var init := writes[..|writes| - 1];
      assert init[k] == writes[k];
      forall j | k < j < |init|
        ensures init[j].path != init[k].path
      {
        assert init[j] == writes[j];
      }
      OnDiskLatest(init, k);
    }
  }

  /** The model contract: one prediction vector per grid, each with an entry per category. */
  ghost predicate ModelContract<G(!new)>(net: Model<G>)
  {
    && LengthPreserving(net)
    && forall batch: seq<G>, k :: 0 <= k < |net(batch)| ==> |net(batch)[k]| >= |Category|
  }

  /** Every prediction vector has an entry per category. */
  predicate Wide(predicted: seq<seq<real>>)
  {
    forall k :: 0 <= k < |predicted| ==> |predicted[k]| >= |Category|
  }

  /** The predictions of one complex, batch by batch, in stream order. */
  function Predictions<G>(net: Model<G>, samples: seq<Sample<G>>, n: nat): seq<seq<real>>
    requires n > 0
  {
    BatchPredictions(net, Chunks(Grids(samples), n))
  }

  lemma {:induction false} BatchPredictionsWide<G(!new)>(net: Model<G>, calls: seq<seq<G>>)
    requires ModelContract(net)
    ensures Wide(BatchPredictions(net, calls))
  {
    if calls != [] {
      var init, last := calls[..|calls| - 1], calls[|calls| - 1];
      BatchPredictionsWide(net, init);
      var before := BatchPredictions(net, init);
      forall k | 0 <= k < |before| + |net(last)|
        ensures |(before + net(last))[k]| >= |Category|
      {
        if k >= |before| {
          assert (before + net(last))[k] == net(last)[k - |before|];
        }
      }
    }
  }

  /**
   * Under the model contract a complex yields exactly one prediction vector
   * per sample, each with an entry per category.
   */
  lemma PredictionsShape<G(!new)>(net: Model<G>, samples: seq<Sample<G>>, n: nat)
    requires n > 0 && ModelContract(net)
    ensures |Predictions(net, samples, n)| == |samples|
    ensures Wide(Predictions(net, samples, n))
  {
    PredictionsCount(net, Grids(samples), n);
    BatchPredictionsWide(net, Chunks(Grids(samples), n));
  }

  /** `predictions[:, i]`: entry i of every prediction vector. */
  function Feature(values: seq<seq<real>>, i: nat): (col: seq<real>)
    requires forall k :: 0 <= k < |values| ==> i < |values[k]|
    ensures |col| == |values|
  {
    seq(|values|, k requires 0 <= k < |values| => values[k][i])
  }

  /** The values the DX files carry: the predictions, rounded to 0 or 1 when `round_pred` is set. */
  function DxValues(roundPred: bool, predicted: seq<seq<real>>): (values: seq<seq<real>>)
    ensures |values| == |predicted|
    ensures forall k :: 0 <= k < |values| ==> |values[k]| == |predicted[k]|
  {
    if roundPred then
      seq(|predicted|, k requires 0 <= k < |predicted| =>
        seq(|predicted[k]|, i requires 0 <= i < |predicted[k]| => RoundHalfEven(predicted[k][i]) as real))
    else predicted
  }

  /** The six DX files of one complex, one per category, in vocabulary order. */
  function ComplexVolumes(cfg: Config, centers: seq<Center>, values: seq<seq<real>>, protein: string, resolution: real, show: real -> string): (files: seq<VolumeFile>)
    requires centers != [] && Wide(values)
    ensures |files| == |Category|
  {
    seq(|Category|, i requires 0 <= i < |Category| =>
      VolumeFile(DxFileName(cfg.topDir, protein, cfg.prefixDx, Category[i]),
                 DxText(centers, Feature(values, i), resolution, show)))
  }

  /**
   * The file left behind when a complex without samples stops the run: the
   * first category's DX file is opened for writing, and so emptied, before
   * its values are indexed.
   */
  function Truncated(cfg: Config, protein: string): VolumeFile
  {
    VolumeFile(DxFileName(cfg.topDir, protein, cfg.prefixDx, Category[0]), "")
  }

  /** The effect of one complex on what has been written so far. */
  function Step<G(!new)>(cfg: Config, net: Model<G>, prev: Output, e: Entry<G>, resolution: real, show: real -> string): Output
    requires cfg.batchSize > 0 && ModelContract(net)
  {
    var predicted := Predictions(net, e.samples, cfg.batchSize);
    PredictionsShape(net, e.samples, cfg.batchSize);
    var rows := RoundRows(predicted);
    var table := prev.table + ComplexTable(Centers(e.samples), rows, e.complex.ligand, e.complex.protein, show);
    if !cfg.createDx then Output(table, prev.volumes, false)
    else if e.samples == [] then Output(table, prev.volumes + [Truncated(cfg, e.complex.protein)], true)
    else
      var values := DxValues(cfg.roundPred, predicted);
      Output(table, prev.volumes + ComplexVolumes(cfg, Centers(e.samples), values, e.complex.protein, resolution, show), false)
  }

  /** A complex stops the run exactly when DX output is requested and it has no samples; it only appends. */
  lemma StepEffect<G(!new)>(cfg: Config, net: Model<G>, prev: Output, e: Entry<G>, resolution: real, show: real -> string)
    requires cfg.batchSize > 0 && ModelContract(net)
    ensures Step(cfg, net, prev, e, resolution, show).aborted <==> cfg.createDx && e.samples == []
    ensures !cfg.createDx ==> Step(cfg, net, prev, e, resolution, show).volumes == prev.volumes
    ensures cfg.createDx && e.samples != [] ==>
      |Step(cfg, net, prev, e, resolution, show).volumes| == |prev.volumes| + |Category|
    ensures cfg.createDx && e.samples == [] ==>
      Step(cfg, net, prev, e, resolution, show).volumes == prev.volumes + [Truncated(cfg, e.complex.protein)]
  {
  }

  /** What `predict` has written after the given complexes; nothing changes once the run has stopped. */
  function Run<G(!new)>(cfg: Config, net: Model<G>, entries: seq<Entry<G>>, resolution: real, show: real -> string): Output
    requires cfg.batchSize > 0 && ModelContract(net)
  {
    if entries == [] then Output("", [], false)
    else
      var prev := Run(cfg, net, entries[..|entries| - 1], resolution, show);
      if prev.aborted then prev else Step(cfg, net, prev, entries[|entries| - 1], resolution, show)
  }

  // ---------------------------------------------------------------------------
  // The imperative `predict`

  /** The DX files of one complex, one per index of `int_to_feat`. */
  method WriteVolumes(cfg: Config, centers: seq<Center>, values: seq<seq<real>>, protein: string, resolution: real, show: real -> string)
    returns (files: seq<VolumeFile>)
    requires centers != [] && Wide(values)
    ensures files == ComplexVolumes(cfg, centers, values, protein, resolution, show)
  {
    IntToFeatSize();
    files := [];
    var i := 0;
    ghost var all := ComplexVolumes(cfg, centers, values, protein, resolution, show);
    while i < |IntToFeat()|
      invariant i <= |Category|
      invariant files == all[..i]
    {
      CategoryIndex(i);
      var name := DxFileName(cfg.topDir, protein, cfg.prefixDx, IntToFeat()[i]);
      var file := WriteDx(centers, Feature(values, i), resolution, show);
      ComplexVolumesAt(cfg, centers, values, protein, resolution, show, i);
      TakeSnoc(all, i);
      files := files + [VolumeFile(name, file.value)];
      i := i + 1;
    }
    assert all[..i] == all;
  }

  lemma ComplexVolumesAt(cfg: Config, centers: seq<Center>, values: seq<seq<real>>, protein: string, resolution: real, show: real -> string, i: nat)
    requires centers != [] && Wide(values) && i < |Category|
    ensures ComplexVolumes(cfg, centers, values, protein, resolution, show)[i]
      == VolumeFile(DxFileName(cfg.topDir, protein, cfg.prefixDx, Category[i]), DxText(centers, Feature(values, i), resolution, show))
  {
  }

  lemma TakeSnoc<T>(s: seq<T>, i: nat)
    requires i < |s|
    ensures s[..i + 1] == s[..i] + [s[i]]
  {
  }

  /** One iteration of `predict`'s loop over the complexes, with the shared input buffer. */
  method PredictComplex<G(!new)>(buffer: array<G>, cfg: Config, net: Model<G>, prev: Output, e: Entry<G>, resolution: real, show: real -> string)
    returns (out: Output)
    requires buffer.Length == cfg.batchSize > 0 && ModelContract(net)
    modifies buffer
    ensures out == Step(cfg, net, prev, e, resolution, show)
  {
    var centers, predicted, calls := StreamComplex(buffer, e.samples, net);
    PredictionsShape(net, e.samples, cfg.batchSize);
    var rows := RoundRows(predicted);
    var text := WriteComplexLines(centers, rows, e.complex.ligand, e.complex.protein, show);
    var table := prev.table + text;
    if !cfg.createDx {
      return Output(table, prev.volumes, false);
    }
    if |centers| == 0 {
      CategoryIndex(0);
      var name := DxFileName(cfg.topDir, e.complex.protein, cfg.prefixDx, IntToFeat()[0]);
      return Output(table, prev.volumes + [VolumeFile(name, "")], true);
    }
    var values := DxValues(cfg.roundPred, predicted);
    var files := WriteVolumes(cfg, centers, values, e.complex.protein, resolution, show);
    return Output(table, prev.volumes + files, false);
  }

  /**
   * `predict`: one buffer of `batch_size` grids, allocated once and reused
   * for every complex, then the complexes in order until the last one or
   * until the run stops.
   */
  method Predict<G(!new)>(cfg: Config, net: Model<G>, entries: seq<Entry<G>>, resolution: real, show: real -> string, zero: G)
    returns (out: Output)
    requires cfg.batchSize > 0 && ModelContract(net)
    ensures out == Run(cfg, net, entries, resolution, show)
  {
    var buffer := new G[cfg.batchSize](_ => zero);
    out := Output("", [], false);
    var j := 0;
    while j < |entries|
      invariant j <= |entries|
      invariant out == Run(cfg, net, entries[..j], resolution, show)
      invariant !out.aborted
    {
      RunNext(cfg, net, entries, j, resolution, show);
      out := PredictComplex(buffer, cfg, net, out, entries[j], resolution, show);
      j := j + 1;
      if out.aborted {
        RunStops(cfg, net, entries, j, resolution, show);
        return;
      }
    }
    assert entries[..j] == entries;
  }

  lemma RunNext<G(!new)>(cfg: Config, net: Model<G>, entries: seq<Entry<G>>, j: nat, resolution: real, show: real -> string)
    requires cfg.batchSize > 0 && ModelContract(net)
    requires j < |entries| && !Run(cfg, net, entries[..j], resolution, show).aborted
    ensures Run(cfg, net, entries[..j + 1], resolution, show)
      == Step(cfg, net, Run(cfg, net, entries[..j], resolution, show), entries[j], resolution, show)
  {
    assert entries[..j + 1][..j] == entries[..j];
  }

  lemma {:induction false} RunStops<G(!new)>(cfg: Config, net: Model<G>, entries: seq<Entry<G>>, j: nat, resolution: real, show: real -> string)
    requires cfg.batchSize > 0 && ModelContract(net)
    requires j <= |entries| && Run(cfg, net, entries[..j], resolution, show).aborted
    ensures Run(cfg, net, entries, resolution, show) == Run(cfg, net, entries[..j], resolution, show)
    decreases |entries|
  {
    if j < |entries| {
      var init := entries[..|entries| - 1];
      assert init[..j] == entries[..j];
      RunStops(cfg, net, init, j, resolution, show);
    } else {
      assert entries[..j] == entries;
    }
  }

  // ---------------------------------------------------------------------------
  // What a run promises

  /** Whether any complex among the entries has no samples. */
  predicate SomeEmpty<G>(entries: seq<Entry<G>>)
  {
    exists k :: 0 <= k < |entries| && entries[k].samples == []
  }

  /** A run stops early exactly when DX output is requested and some complex has no samples. */
  lemma {:induction false} RunAborted<G(!new)>(cfg: Config, net: Model<G>, entries: seq<Entry<G>>, resolution: real, show: real -> string)
    requires cfg.batchSize > 0 && ModelContract(net)
    ensures Run(cfg, net, entries, resolution, show).aborted <==> cfg.createDx && SomeEmpty(entries)
  {
    if entries != [] {
      RunAborted(cfg, net, entries[..|entries| - 1], resolution, show);
      RunSnoc(cfg, net, entries, resolution, show);
      SomeEmptySnoc(entries);
    }
  }

  /** What the last complex adds to the run: the stop flag and the DX files, from those of the earlier complexes. */
  lemma RunSnoc<G(!new)>(cfg: Config, net: Model<G>, entries: seq<Entry<G>>, resolution: real, show: real -> string)
    requires cfg.batchSize > 0 && ModelContract(net) && entries != []
    ensures var prev, out := Run(cfg, net, entries[..|entries| - 1], resolution, show), Run(cfg, net, entries, resolution, show);
      && (out.aborted <==> prev.aborted || (cfg.createDx && entries[|entries| - 1].samples == []))
      && (!cfg.createDx ==> out.volumes == prev.volumes)
      && (cfg.createDx && !out.aborted ==> |out.volumes| == |prev.volumes| + |Category|)
  {
    var prev := Run(cfg, net, entries[..|entries| - 1], resolution, show);
    StepEffect(cfg, net, prev, entries[|entries| - 1], resolution, show);
  }

  lemma SomeEmptySnoc<G>(entries: seq<Entry<G>>)
    requires entries != []
    ensures SomeEmpty(entries) <==> SomeEmpty(entries[..|entries| - 1]) || entries[|entries| - 1].samples == []
  {
    var init := entries[..|entries| - 1];
    if SomeEmpty(init) {
      var k :| 0 <= k < |init| && init[k].samples == [];
      assert entries[k] == init[k];
    }
    if SomeEmpty(entries) && !SomeEmpty(init) {
      var k :| 0 <= k < |entries| && entries[k].samples == [];
    }
  }

  /** The number of samples over all complexes. */
  function TotalSamples<G>(entries: seq<Entry<G>>): nat
  {
    if entries == [] then 0 else TotalSamples(entries[..|entries| - 1]) + |entries[|entries| - 1].samples|
  }

  /** No text that ends up on a line holds a newline. */
  ghost predicate OneLineInputs<G>(entries: seq<Entry<G>>, show: real -> string)
  {
    && (forall x: real :: '\n' !in show(x))
    && forall k :: 0 <= k < |entries| ==> '\n' !in entries[k].complex.ligand && '\n' !in entries[k].complex.protein
  }

  /**
   * The output file holds one line per streamed center over all complexes
   * processed: as many newlines as samples, when no name or coordinate text
   * holds a newline.
   */
  lemma {:induction false} TableLineCount<G(!new)>(cfg: Config, net: Model<G>, entries: seq<Entry<G>>, resolution: real, show: real -> string)
    requires cfg.batchSize > 0 && ModelContract(net)
    requires OneLineInputs(entries, show)
    ensures !Run(cfg, net, entries, resolution, show).aborted ==>
      CountChar('\n', Run(cfg, net, entries, resolution, show).table) == TotalSamples(entries)
  {
    if entries != [] {
      var init, e := entries[..|entries| - 1], entries[|entries| - 1];
      assert OneLineInputs(init, show) by {
        forall k | 0 <= k < |init|
          ensures '\n' !in init[k].complex.ligand && '\n' !in init[k].complex.protein
        {
          assert init[k] == entries[k];
        }
      }
      TableLineCount(cfg, net, init, resolution, show);
      var prev := Run(cfg, net, init, resolution, show);
      if !prev.aborted {
        var predicted := Predictions(net, e.samples, cfg.batchSize);
        PredictionsShape(net, e.samples, cfg.batchSize);
        var rows := RoundRows(predicted);
        var centers := Centers(e.samples);
        TableNewlines(centers, rows, |centers|, e.complex.ligand, e.complex.protein, show);
        CountCharAppend('\n', prev.table, ComplexTable(centers, rows, e.complex.ligand, e.complex.protein, show));
      }
    }
  }

  /** `round_pred` changes only the DX values: the output file and whether the run stops do not depend on it. */
  lemma {:induction false} TableIgnoresRounding<G(!new)>(cfg: Config, net: Model<G>, entries: seq<Entry<G>>, resolution: real, show: real -> string)
    requires cfg.batchSize > 0 && ModelContract(net)
    ensures Run(cfg.(roundPred := true), net, entries, resolution, show).table == Run(cfg.(roundPred := false), net, entries, resolution, show).table
    ensures Run(cfg.(roundPred := true), net, entries, resolution, show).aborted == Run(cfg.(roundPred := false), net, entries, resolution, show).aborted
  {
    if entries != [] {
      TableIgnoresRounding(cfg, net, entries[..|entries| - 1], resolution, show);
    }
  }

  /**
   * Without DX output no file is written; with it, a run that does not stop
   * writes exactly six DX files per complex.
   */
  lemma {:induction false} VolumeCount<G(!new)>(cfg: Config, net: Model<G>, entries: seq<Entry<G>>, resolution: real, show: real -> string)
    requires cfg.batchSize > 0 && ModelContract(net)
    ensures !cfg.createDx ==> Run(cfg, net, entries, resolution, show).volumes == []
    ensures cfg.createDx && !Run(cfg, net, entries, resolution, show).aborted ==>
      |Run(cfg, net, entries, resolution, show).volumes| == |Category| * |entries|
  {
    if entries != [] {
      VolumeCount(cfg, net, entries[..|entries| - 1], resolution, show);
      RunSnoc(cfg, net, entries, resolution, show);
      assert |Category| * |entries| == |Category| * (|entries| - 1) + |Category|;
    }
  }

  /**
   * The six DX files of a complex go to six different paths, one per
   * category, and each carries one value per center: as many values as the
   * item count its header announces.
   */
  lemma ComplexVolumesShape(cfg: Config, centers: seq<Center>, values: seq<seq<real>>, protein: string, resolution: real, show: real -> string)
    requires centers != [] && Wide(values) && |values| == |centers|
    ensures forall i, j :: 0 <= i < j < |Category| ==>
      ComplexVolumes(cfg, centers, values, protein, resolution, show)[i].path != ComplexVolumes(cfg, centers, values, protein, resolution, show)[j].path
    ensures forall i :: 0 <= i < |Category| ==> |Feature(values, i)| == |centers|
  {
    VocabularyBijection();
    forall i, j | 0 <= i < j < |Category|
      ensures DxFileName(cfg.topDir, protein, cfg.prefixDx, Category[i]) != DxFileName(cfg.topDir, protein, cfg.prefixDx, Category[j])
    {
      DxFileNameInjective(cfg.topDir, protein, cfg.prefixDx, Category[i], Category[j]);
    }
  }

  // ---------------------------------------------------------------------------
  // The test data file of `infer`

  /** The test data file: the one given, or else the training file with every "train" replaced by "test". */
  function TestDataPath(trainData: string, testData: string): string
  {
    if testData != "" then testData else ReplaceAll(trainData, "train", "test")
  }

  /**
   * A given test file is used as is; without one, a training file name that
   * does not mention "train" is reused unchanged, so both evaluations read
   * the same file.
   */
  lemma TestDataPathCases(trainData: string, testData: string)
    ensures testData != "" ==> TestDataPath(trainData, testData) == testData
    ensures testData == "" && !Occurs("train", trainData) ==> TestDataPath(trainData, testData) == trainData
  {
    if testData == "" && !Occurs("train", trainData) {
      ReplaceAllAbsent(trainData, "train", "test");
    }
  }

  lemma TestDataPathExample()
    ensures TestDataPath("train.txt", "") == "test.txt"
  {
  }
}
