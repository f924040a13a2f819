/**
 * Multi-label selection and the tabular output of `predict`: every
 * prediction vector is rounded, the categories whose rounded value is 1 are
 * named and joined with ':', and one line
 * `labels,x,y,z,ligand,protein` is written per streamed center.
 */
module Tabular {
  import opened Text
  import opened Vocabulary
  import opened Rounding
  import opened Samples

  /** `np.round(predicted).astype(int)`, one row per prediction vector. */
  function RoundRows(predicted: seq<seq<real>>): (rows: seq<seq<int>>)
    ensures |rows| == |predicted|
    ensures forall k :: 0 <= k < |rows| ==> |rows[k]| == |predicted[k]|
  {
    seq(|predicted|, k requires 0 <= k < |predicted| =>
      seq(|predicted[k]|, i requires 0 <= i < |predicted[k]| => RoundHalfEven(predicted[k][i])))
  }

  /** A rounded row has an entry for every category. */
  predicate Covers(row: seq<int>)
  {
    |row| >= |Category|
  }

  /**
   * The names of the categories among the first m whose rounded value is 1,
   * in index order (`int_to_feat[i]` is `Category[i]`, see
   * `Vocabulary.CategoryIndex`).
   */
  function ActiveNamesBelow(row: seq<int>, m: nat): seq<string>
    requires Covers(row) && m <= |Category|
  {
    if m == 0 then []
    else ActiveNamesBelow(row, m - 1) + (if row[m - 1] == 1 then [Category[m - 1]] else [])
  }

  /** `point_predictions` for one rounded row. */
  function ActiveNames(row: seq<int>): seq<string>
    requires Covers(row)
  {
    ActiveNamesBelow(row, |Category|)
  }

  /** Position of a category name in the vocabulary (`feat_to_int`). */
  function IndexOf(name: string): nat
    requires name in FeatToInt()
  {
    FeatToInt()[name]
  }

  /** Every name among the first m is a category of index below m, in strictly increasing index order. */
  lemma {:induction false} ActiveNamesBelowOrdered(row: seq<int>, m: nat)
    requires Covers(row) && m <= |Category|
    ensures forall k :: 0 <= k < |ActiveNamesBelow(row, m)| ==>
      ActiveNamesBelow(row, m)[k] in FeatToInt() && IndexOf(ActiveNamesBelow(row, m)[k]) < m
    ensures forall a, b :: 0 <= a < b < |ActiveNamesBelow(row, m)| ==>
      ActiveNamesBelow(row, m)[a] in FeatToInt() && ActiveNamesBelow(row, m)[b] in FeatToInt() &&
      IndexOf(ActiveNamesBelow(row, m)[a]) < IndexOf(ActiveNamesBelow(row, m)[b])
  {
    if m > 0 {
      ActiveNamesBelowOrdered(row, m - 1);
      var before := ActiveNamesBelow(row, m - 1);
      var names := ActiveNamesBelow(row, m);
      CategoryIndex(m - 1);
      forall k | 0 <= k < |names|
        ensures names[k] in FeatToInt() && IndexOf(names[k]) < m
      {
        if k < |before| {
          assert names[k] == before[k];
        }
      }
      forall a, b | 0 <= a < b < |names|
        ensures names[a] in FeatToInt() && names[b] in FeatToInt() && IndexOf(names[a]) < IndexOf(names[b])
      {
        assert names[a] == before[a];
        if b < |before| {
          assert names[b] == before[b];
        }
      }
    }
  }

  /** A category of index below m is named among the first m exactly when its entry rounds to 1. */
  lemma {:induction false} ActiveNamesBelowMembers(row: seq<int>, m: nat)
    requires Covers(row) && m <= |Category|
    ensures forall i :: 0 <= i < |Category| ==> (Category[i] in ActiveNamesBelow(row, m) <==> i < m && row[i] == 1)
  {
    VocabularyBijection();
    if m > 0 {
      ActiveNamesBelowMembers(row, m - 1);
    }
  }

  /**
   * The label field names exactly the categories whose rounded value is 1:
   * each name is a category, a category is named if and only if its entry
   * rounds to 1, names appear in strictly increasing vocabulary order (a
   * subsequence of the vocabulary, never re-sorted), and the list is empty
   * exactly when no entry rounds to 1.
   */
  lemma ActiveNamesExact(row: seq<int>)
    requires Covers(row)
    ensures forall k :: 0 <= k < |ActiveNames(row)| ==> ActiveNames(row)[k] in Category
    ensures forall i :: 0 <= i < |Category| ==> (Category[i] in ActiveNames(row) <==> row[i] == 1)
    ensures forall a, b :: 0 <= a < b < |ActiveNames(row)| ==>
      ActiveNames(row)[a] in FeatToInt() && ActiveNames(row)[b] in FeatToInt() &&
      IndexOf(ActiveNames(row)[a]) < IndexOf(ActiveNames(row)[b])
    ensures ActiveNames(row) == [] <==> forall i :: 0 <= i < |Category| ==> row[i] != 1
  {
    var names := ActiveNames(row);
    ActiveNamesBelowOrdered(row, |Category|);
    ActiveNamesBelowMembers(row, |Category|);
    forall k | 0 <= k < |names|
      ensures names[k] in Category
    {
      var i := IndexOf(names[k]);
      CategoryIndex(i);
      VocabularyBijection();
      assert IntToFeat()[FeatToInt()[names[k]]] == names[k];
    }
    if names != [] {
      assert names[0] in Category;
      var i :| 0 <= i < |Category| && Category[i] == names[0];
      assert row[i] == 1;
    }
  }

  /**
   * The loop that builds `point_predictions` for one rounded row: every
   * index of `int_to_feat` in turn, appending its name when the entry is 1.
   */
  method PointPredictions(row: seq<int>) returns (names: seq<string>)
    requires Covers(row)
    ensures names == ActiveNames(row)
  {
    IntToFeatSize();
    names := [];
    var i := 0;
    while i < |IntToFeat()|
      invariant i <= |Category|
      invariant names == ActiveNamesBelow(row, i)
    {
      CategoryIndex(i);
      if row[i] == 1 {
        names := names + [IntToFeat()[i]];
      }
      i := i + 1;
    }
  }

  /** `':'.join(point_predictions)`. */
  function LabelField(row: seq<int>): string
    requires Covers(row)
  {
    Join(':', ActiveNames(row))
  }

  /**
   * The label field is empty exactly when no category is active, and
   * otherwise splits on ':' back into the active names.
   */
  lemma LabelFieldRoundTrip(row: seq<int>)
    requires Covers(row)
    ensures LabelField(row) == "" <==> ActiveNames(row) == []
    ensures ActiveNames(row) != [] ==> Split(':', LabelField(row)) == ActiveNames(row)
    ensures ',' !in LabelField(row) && '\n' !in LabelField(row)
  {
    var names := ActiveNames(row);
    ActiveNamesExact(row);
    CategoryNamesArePlain();
    forall k | 0 <= k < |names|
      ensures PlainName(names[k])
    {
      assert names[k] in Category;
    }
    if names != [] {
      SplitJoin(':', names);
      assert PlainName(names[0]);
      assert |Join(':', names)| >= |names[0]|;
    }
    JoinNoSep(':', ',', names);
    JoinNoSep(':', '\n', names);
  }

  /** One output line without its newline: labels, the three coordinates, ligand and protein. */
  function LineBody(labels: string, c: Center, ligand: string, protein: string, show: real -> string): string
  {
    labels + "," + show(c.x) + "," + show(c.y) + "," + show(c.z) + "," + ligand + "," + protein
  }

  /** The six comma-separated fields of a line. */
  function LineFields(labels: string, c: Center, ligand: string, protein: string, show: real -> string): seq<string>
  {
    [labels, show(c.x), show(c.y), show(c.z), ligand, protein]
  }

  /** No field holds a comma or a newline. */
  predicate PlainFields(fields: seq<string>)
  {
    forall k :: 0 <= k < |fields| ==> ',' !in fields[k] && '\n' !in fields[k]
  }

  /**
   * When no field holds a comma or a newline, a line is read back field by
   * field: splitting it on ',' yields the label field, x, y, z, ligand and
   * protein, in that order, and the line itself holds no newline.
   */
  lemma LineRoundTrip(labels: string, c: Center, ligand: string, protein: string, show: real -> string)
    requires PlainFields(LineFields(labels, c, ligand, protein, show))
    ensures Split(',', LineBody(labels, c, ligand, protein, show)) == LineFields(labels, c, ligand, protein, show)
    ensures '\n' !in LineBody(labels, c, ligand, protein, show)
  {
    var fields := LineFields(labels, c, ligand, protein, show);
    var body := LineBody(labels, c, ligand, protein, show);
    assert Join(',', fields[5..]) == protein;
    assert Join(',', fields[4..]) == ligand + "," + protein;
    assert Join(',', fields[3..]) == show(c.z) + "," + ligand + "," + protein;
    assert Join(',', fields[2..]) == show(c.y) + "," + show(c.z) + "," + ligand + "," + protein;
    assert Join(',', fields[1..]) == show(c.x) + "," + show(c.y) + "," + show(c.z) + "," + ligand + "," + protein;
    assert Join(',', fields) == body;
    SplitJoin(',', fields);
    JoinNoSep(',', '\n', fields);
  }

  /** The text written for the first m pairs of `zip(centers, intpredicted)`. */
  function TableUpTo(centers: seq<Center>, rows: seq<seq<int>>, m: nat, ligand: string, protein: string, show: real -> string): string
    requires m <= |centers| && m <= |rows|
    requires forall k :: 0 <= k < |rows| ==> Covers(rows[k])
  {
    if m == 0 then ""
    else
      TableUpTo(centers, rows, m - 1, ligand, protein, show)
      + LineBody(LabelField(rows[m - 1]), centers[m - 1], ligand, protein, show) + "\n"
  }

  function Min(a: nat, b: nat): nat
  {
    if a <= b then a else b
  }

  /** The text written for one complex: one line per pair of `zip(centers, intpredicted)`. */
  function ComplexTable(centers: seq<Center>, rows: seq<seq<int>>, ligand: string, protein: string, show: real -> string): string
    requires forall k :: 0 <= k < |rows| ==> Covers(rows[k])
  {
    TableUpTo(centers, rows, Min(|centers|, |rows|), ligand, protein, show)
  }

  /** The output loop over `zip(centers, intpredicted)` for one complex. */
  method WriteComplexLines(centers: seq<Center>, rows: seq<seq<int>>, ligand: string, protein: string, show: real -> string)
    returns (text: string)
    requires forall k :: 0 <= k < |rows| ==> Covers(rows[k])
    ensures text == ComplexTable(centers, rows, ligand, protein, show)
  {
    text := "";
    var m := Min(|centers|, |rows|);
    var k := 0;
    while k < m
      invariant k <= m
      invariant text == TableUpTo(centers, rows, k, ligand, protein, show)
    {
      var names := PointPredictions(rows[k]);
      var c := centers[k];
      var line := Join(':', names) + "," + show(c.x) + "," + show(c.y) + "," + show(c.z) + "," + ligand + "," + protein + "\n";
      assert line == LineBody(LabelField(rows[k]), c, ligand, protein, show) + "\n";
      text := text + line;
      k := k + 1;
    }
  }

  /** The line bodies of the first m pairs. */
  function Bodies(centers: seq<Center>, rows: seq<seq<int>>, m: nat, ligand: string, protein: string, show: real -> string): (bs: seq<string>)
    requires m <= |centers| && m <= |rows|
    requires forall k :: 0 <= k < |rows| ==> Covers(rows[k])
    ensures |bs| == m
  {
    if m == 0 then [] else Bodies(centers, rows, m - 1, ligand, protein, show) + [LineBody(LabelField(rows[m - 1]), centers[m - 1], ligand, protein, show)]
  }

  lemma {:induction false} TableIsJoin(centers: seq<Center>, rows: seq<seq<int>>, m: nat, ligand: string, protein: string, show: real -> string)
    requires 0 < m <= |centers| && m <= |rows|
    requires forall k :: 0 <= k < |rows| ==> Covers(rows[k])
    ensures TableUpTo(centers, rows, m, ligand, protein, show) == Join('\n', Bodies(centers, rows, m, ligand, protein, show)) + "\n"
  {
    var bs := Bodies(centers, rows, m, ligand, protein, show);
    if m > 1 {
      TableIsJoin(centers, rows, m - 1, ligand, protein, show);
      JoinSnoc('\n', bs);
      assert bs[..m - 1] == Bodies(centers, rows, m - 1, ligand, protein, show);
    }
  }

  /**
   * For one complex whose centers and predictions are aligned, the written
   * text is exactly one line per center, in center order: splitting it on
   * newlines gives, for each k, the line of the k-th center labelled from
   * the k-th rounded prediction (and a final empty field after the last
   * newline), and each such line reads back into its six fields.
   */
  lemma ComplexTableLines(centers: seq<Center>, rows: seq<seq<int>>, ligand: string, protein: string, show: real -> string, k: nat)
    requires |centers| == |rows| && k < |centers|
    requires forall j :: 0 <= j < |rows| ==> Covers(rows[j])
    requires forall x: real :: ',' !in show(x) && '\n' !in show(x)
    requires ',' !in ligand && '\n' !in ligand && ',' !in protein && '\n' !in protein
    ensures |Split('\n', ComplexTable(centers, rows, ligand, protein, show))| == |centers| + 1
    ensures Split(',', Split('\n', ComplexTable(centers, rows, ligand, protein, show))[k])
      == LineFields(LabelField(rows[k]), centers[k], ligand, protein, show)
  {
    var m := |centers|;
    var bs := Bodies(centers, rows, m, ligand, protein, show);
    TableIsJoin(centers, rows, m, ligand, protein, show);
    forall j | 0 <= j < m
      ensures '\n' !in bs[j]
      ensures Split(',', bs[j]) == LineFields(LabelField(rows[j]), centers[j], ligand, protein, show)
    {
      BodyRead(centers, rows, m, ligand, protein, show, j);
    }
    SplitAppend('\n', Join('\n', bs), "");
    SplitJoin('\n', bs);
    assert Join('\n', bs) + "\n" == Join('\n', bs) + ['\n'] + "";
  }

  lemma BodyRead(centers: seq<Center>, rows: seq<seq<int>>, m: nat, ligand: string, protein: string, show: real -> string, j: nat)
    requires j < m <= |centers| && m <= |rows|
    requires forall k :: 0 <= k < |rows| ==> Covers(rows[k])
    requires forall x: real :: ',' !in show(x) && '\n' !in show(x)
    requires ',' !in ligand && '\n' !in ligand && ',' !in protein && '\n' !in protein
    ensures '\n' !in Bodies(centers, rows, m, ligand, protein, show)[j]
    ensures Split(',', Bodies(centers, rows, m, ligand, protein, show)[j])
      == LineFields(LabelField(rows[j]), centers[j], ligand, protein, show)
  {
    BodiesAt(centers, rows, m, ligand, protein, show, j);
    LabelFieldRoundTrip(rows[j]);
    LineRoundTrip(LabelField(rows[j]), centers[j], ligand, protein, show);
  }

  lemma {:induction false} BodiesAt(centers: seq<Center>, rows: seq<seq<int>>, m: nat, ligand: string, protein: string, show: real -> string, j: nat)
    requires j < m <= |centers| && m <= |rows|
    requires forall k :: 0 <= k < |rows| ==> Covers(rows[k])
    ensures Bodies(centers, rows, m, ligand, protein, show)[j] == LineBody(LabelField(rows[j]), centers[j], ligand, protein, show)
  {
    if j < m - 1 {
      BodiesAt(centers, rows, m - 1, ligand, protein, show, j);
    }
  }

  /** A line body holds no newline when none of its fields does. */
  lemma LineBodyOneLine(labels: string, c: Center, ligand: string, protein: string, show: real -> string)
    requires '\n' !in labels && '\n' !in show(c.x) && '\n' !in show(c.y) && '\n' !in show(c.z)
    requires '\n' !in ligand && '\n' !in protein
    ensures '\n' !in LineBody(labels, c, ligand, protein, show)
  {
  }

  /** The text for the first m pairs holds exactly m newlines: one line per center. */
  lemma {:induction false} TableNewlines(centers: seq<Center>, rows: seq<seq<int>>, m: nat, ligand: string, protein: string, show: real -> string)
    requires m <= |centers| && m <= |rows|
    requires forall k :: 0 <= k < |rows| ==> Covers(rows[k])
    requires forall x: real :: '\n' !in show(x)
    requires '\n' !in ligand && '\n' !in protein
    ensures CountChar('\n', TableUpTo(centers, rows, m, ligand, protein, show)) == m
  {
    if m > 0 {
      var before := TableUpTo(centers, rows, m - 1, ligand, protein, show);
      var c := centers[m - 1];
      var body := LineBody(LabelField(rows[m - 1]), c, ligand, protein, show);
      TableNewlines(centers, rows, m - 1, ligand, protein, show);
      assert CountChar('\n', body) == 0 by {
        LabelFieldRoundTrip(rows[m - 1]);
        LineBodyOneLine(LabelField(rows[m - 1]), c, ligand, protein, show);
        CountCharAbsent('\n', body);
      }
      CountCharAppend('\n', before, body);
      CountCharAppend('\n', before + body, "\n");
    }
  }
}
