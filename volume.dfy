/**
 * The volumetric output of the inference script: `write_dx`, which writes
 * one category's predictions over the grid centers of a complex as an
 * OpenDX scalar field (a header describing the grid, then the values three
 * to a line), and the name of the file each category is written to.
 */
module Volume {
  import opened Text
  import opened Rounding
  import opened Samples

  datatype Option<T> = None | Some(value: T)

  datatype Axis = X | Y | Z

  function Coord(c: Center, a: Axis): real
  {
    match a
    case X => c.x
    case Y => c.y
    case Z => c.z
  }

  /** `centers[:, axis]`. */
  function Column(centers: seq<Center>, a: Axis): (col: seq<real>)
    ensures |col| == |centers|
  {
    seq(|centers|, k requires 0 <= k < |centers| => Coord(centers[k], a))
  }

  /** `np.unique` of a column, as the set of its distinct values. */
  function Unique(col: seq<real>): set<real>
  {
    set v | v in col
  }

  /** There are at least one and at most as many distinct values as entries in a non-empty column. */
  lemma {:induction false} UniqueSize(col: seq<real>)
    ensures |Unique(col)| <= |col|
    ensures col != [] ==> |Unique(col)| >= 1
  {
    if col != [] {
      var init := col[..|col| - 1];
      UniqueSize(init);
      assert col == init + [col[|col| - 1]];
      assert Unique(col) == Unique(init) + {col[|col| - 1]};
    }
  }

  /** The smallest entry of a non-empty column. */
  function SeqMin(col: seq<real>): (m: real)
    requires col != []
    ensures m in col
    ensures forall k :: 0 <= k < |col| ==> m <= col[k]
  {
    if |col| == 1 then col[0]
    else
      var rest := SeqMin(col[1..]);
      if col[0] <= rest then col[0] else rest
  }

  /** `num_x`, `num_y`, `num_z`: the number of distinct coordinates along an axis. */
  function Count(centers: seq<Center>, a: Axis): nat
  {
    |Unique(Column(centers, a))|
  }

  /** `origin_x`, `origin_y`, `origin_z`: the smallest coordinate along each axis. */
  function Origin(centers: seq<Center>): Center
    requires centers != []
  {
    Center(SeqMin(Column(centers, X)), SeqMin(Column(centers, Y)), SeqMin(Column(centers, Z)))
  }

  /** The three grid counts, space-separated. */
  function CountsField(centers: seq<Center>): string
  {
    NatToString(Count(centers, X)) + " " + NatToString(Count(centers, Y)) + " " + NatToString(Count(centers, Z))
  }

  /** The three origin coordinates in `"%0.5f"`, space-separated. */
  function OriginField(o: Center): string
  {
    Fixed5(o.x) + " " + Fixed5(o.y) + " " + Fixed5(o.z)
  }

  // The fixed words that open each header line of a DX file.
  const GridPositions := "object 1 class gridpositions counts "
  const GridConnections := "object 2 class gridconnections counts "
  const ItemsHead := "object 3 class array type double rank 0 items [ "
  const ItemsTail := "] data follows"

  /** The seven header lines of a DX file, without their newlines. */
  function HeaderLines(centers: seq<Center>, resolution: real, show: real -> string): seq<string>
    requires centers != []
  {
    [ GridPositions + CountsField(centers),
      "origin " + OriginField(Origin(centers)),
      "delta " + show(resolution) + " 0 0",
      "delta 0 " + show(resolution) + " 0",
      "delta 0 0 " + show(resolution),
      GridConnections + CountsField(centers),
      ItemsHead + NatToString(|centers|) + ItemsTail ]
  }

  /** What follows the `count`-th value: a newline after every third value, a space otherwise. */
  function Separator(count: nat): string
  {
    if count % 3 == 0 then "\n" else " "
  }

  /** The data section for values already formatted: each followed by its separator. */
  function DataText(words: seq<string>): string
  {
    if words == [] then ""
    else DataText(words[..|words| - 1]) + words[|words| - 1] + Separator(|words|)
  }

  /** Every value through the formatter, in order. */
  function Formatted(vals: seq<real>, prettyFloat: real -> string): (words: seq<string>)
    ensures |words| == |vals|
  {
    seq(|vals|, k requires 0 <= k < |vals| => prettyFloat(vals[k]))
  }

  /** The data section: every value in `"%0.5f"`, each followed by its separator. */
  function DxData(vals: seq<real>): string
  {
    DataText(Formatted(vals, Fixed5))
  }

  /** The whole text of a DX file for a non-empty set of centers. */
  function DxText(centers: seq<Center>, vals: seq<real>, resolution: real, show: real -> string): string
    requires centers != []
  {
    Lines(HeaderLines(centers, resolution, show)) + DxData(vals)
  }

  lemma AppendAssoc(a: string, b: string, c: string, d: string)
    ensures a + b + c + d == a + (b + c + d)
  {
  }

  lemma DataTextSnoc(words: seq<string>, count: nat)
    requires count < |words|
    ensures DataText(words[..count + 1]) == DataText(words[..count]) + words[count] + Separator(count + 1)
  {
    assert words[..count + 1][..count] == words[..count];
  }

  /**
   * `write_dx`: the text written for one category. Without centers the
   * source fails taking the coordinate columns of the empty array, before
   * anything is written.
   */
  method WriteDx(centers: seq<Center>, predicted: seq<real>, resolution: real, show: real -> string)
    returns (file: Option<string>)
    ensures file == None <==> centers == []
    ensures centers != [] ==> file == Some(DxText(centers, predicted, resolution, show))
  {
    if centers == [] {
      return None;
    }
    // The five header writes: grid counts, origin, the three deltas, the
    // connections and the item count, each line ending in a newline.
    var header := Lines(HeaderLines(centers, resolution, show));
    var text := WriteData(header, predicted, Fixed5);
    return Some(text);
  }

  /**
   * The loop of `write_dx` over the predictions, appending each value
   * (through `pretty_float`) and its separator to `text`.
   */
  method WriteData(text: string, predicted: seq<real>, prettyFloat: real -> string) returns (out: string)
    ensures out == text + DataText(Formatted(predicted, prettyFloat))
  {
    out := text;
    var count := 0;
    ghost var words := Formatted(predicted, prettyFloat);
    ghost var data := "";
    while count < |predicted|
      invariant count <= |predicted|
      invariant data == DataText(words[..count])
      invariant out == text + data
    {
      var word := prettyFloat(predicted[count]);
      out := out + word;
      count := count + 1;
      if count % 3 == 0 {
        out := out + "\n";
      } else {
        out := out + " ";
      }
      DataTextSnoc(words, count - 1);
      AppendAssoc(text, data, word, Separator(count));
      data := data + word + Separator(count);
    }
    assert words[..count] == words;
  }

  // ---------------------------------------------------------------------------
  // Reading the header back

  /** No text produced by `show` holds a newline. */
  predicate OneLine(t: string)
  {
    '\n' !in t
  }

  /** A text that reads back within half a unit of the fifth decimal of `v`. */
  predicate Near(w: string, v: real)
  {
    |w| >= 7 && -0.000005 <= ParseFixed5(w) - v <= 0.000005
  }

  /** A `"%0.5f"` text holds neither a space nor a newline. */
  lemma Fixed5Plain(v: real)
    ensures ' ' !in Fixed5(v) && '\n' !in Fixed5(v)
  {
    var s := Fixed5(v);
    forall i | 0 <= i < |s|
      ensures s[i] != ' ' && s[i] != '\n'
    {
    }
  }

  lemma NumeralPlain(n: nat)
    ensures ' ' !in NatToString(n) && '\n' !in NatToString(n)
  {
    var s := NatToString(n);
    forall i | 0 <= i < |s|
      ensures s[i] != ' ' && s[i] != '\n'
    {
    }
  }

  /**
   * The grid counts field reads back as the number of distinct coordinates
   * along x, y and z, each between 1 and the number of centers.
   */
  lemma CountsRead(centers: seq<Center>)
    requires centers != []
    ensures |Split(' ', CountsField(centers))| == 3
    ensures ParseNat(Split(' ', CountsField(centers))[0]) == Count(centers, X)
    ensures ParseNat(Split(' ', CountsField(centers))[1]) == Count(centers, Y)
    ensures ParseNat(Split(' ', CountsField(centers))[2]) == Count(centers, Z)
    ensures forall a :: 1 <= Count(centers, a) <= |centers|
  {
    var nx, ny, nz := Count(centers, X), Count(centers, Y), Count(centers, Z);
    NumeralPlain(nx);
    NumeralPlain(ny);
    NumeralPlain(nz);
    SplitThree(' ', NatToString(nx), NatToString(ny), NatToString(nz));
    ParseNatToString(nx);
    ParseNatToString(ny);
    ParseNatToString(nz);
    forall a
      ensures 1 <= Count(centers, a) <= |centers|
    {
      UniqueSize(Column(centers, a));
    }
  }

  /**
   * The origin field reads back, within half a unit of its fifth decimal,
   * as the smallest coordinate along each axis; that coordinate is one of
   * the centers' and no center lies below it.
   */
  lemma OriginRead(centers: seq<Center>)
    requires centers != []
    ensures var w := Split(' ', OriginField(Origin(centers)));
      |w| == 3 && Near(w[0], Origin(centers).x) && Near(w[1], Origin(centers).y) && Near(w[2], Origin(centers).z)
    ensures forall a :: Coord(Origin(centers), a) in Unique(Column(centers, a))
    ensures forall a, k :: 0 <= k < |centers| ==> Coord(Origin(centers), a) <= Coord(centers[k], a)
  {
    var o := Origin(centers);
    Fixed5Plain(o.x);
    Fixed5Plain(o.y);
    Fixed5Plain(o.z);
    SplitThree(' ', Fixed5(o.x), Fixed5(o.y), Fixed5(o.z));
    Fixed5RoundTrip(o.x);
    Fixed5RoundTrip(o.y);
    Fixed5RoundTrip(o.z);
    forall a
      ensures Coord(o, a) in Unique(Column(centers, a))
      ensures forall k :: 0 <= k < |centers| ==> Coord(o, a) <= Coord(centers[k], a)
    {
      OriginAxis(centers, a);
    }
  }

  lemma OriginAxis(centers: seq<Center>, a: Axis)
    requires centers != []
    ensures Coord(Origin(centers), a) in Unique(Column(centers, a))
    ensures forall k :: 0 <= k < |centers| ==> Coord(Origin(centers), a) <= Coord(centers[k], a)
  {
    var col := Column(centers, a);
    var m := SeqMin(col);
    assert Coord(Origin(centers), a) == m;
    forall k | 0 <= k < |centers|
      ensures m <= Coord(centers[k], a)
    {
      assert col[k] == Coord(centers[k], a);
    }
  }

  lemma ConcatOneLine(a: string, b: string, c: string)
    requires OneLine(a) && OneLine(b) && OneLine(c)
    ensures OneLine(a + b + c) && OneLine(a + b)
  {
  }

  lemma CountsOneLine(centers: seq<Center>)
    ensures OneLine(CountsField(centers))
  {
    NumeralPlain(Count(centers, X));
    NumeralPlain(Count(centers, Y));
    NumeralPlain(Count(centers, Z));
    ConcatOneLine(NatToString(Count(centers, X)), " ", NatToString(Count(centers, Y)));
    ConcatOneLine(NatToString(Count(centers, X)) + " " + NatToString(Count(centers, Y)), " ", NatToString(Count(centers, Z)));
  }

  lemma OriginOneLine(o: Center)
    ensures OneLine(OriginField(o))
  {
    Fixed5Plain(o.x);
    Fixed5Plain(o.y);
    Fixed5Plain(o.z);
    ConcatOneLine(Fixed5(o.x), " ", Fixed5(o.y));
    ConcatOneLine(Fixed5(o.x) + " " + Fixed5(o.y), " ", Fixed5(o.z));
  }

  lemma KeywordsOneLine()
    ensures OneLine(GridPositions) && OneLine(GridConnections) && OneLine(ItemsHead) && OneLine(ItemsTail)
    ensures OneLine("origin ") && OneLine("delta ") && OneLine("delta 0 ") && OneLine("delta 0 0 ")
    ensures OneLine(" 0 0") && OneLine(" 0") && OneLine("")
  {
    LiteralOneLine(GridPositions);
    LiteralOneLine(GridConnections);
    LiteralOneLine(ItemsHead);
    LiteralOneLine(ItemsTail);
  }

  lemma LiteralOneLine(s: string)
    requires forall i :: 0 <= i < |s| ==> s[i] != '\n'
    ensures OneLine(s)
  {
  }

  lemma HeaderLinesPlain(centers: seq<Center>, resolution: real, show: real -> string)
    requires centers != [] && OneLine(show(resolution))
    ensures forall i :: 0 <= i < |HeaderLines(centers, resolution, show)| ==> '\n' !in HeaderLines(centers, resolution, show)[i]
  {
    var counts, origin, items, res := CountsField(centers), OriginField(Origin(centers)), NatToString(|centers|), show(resolution);
    CountsOneLine(centers);
    OriginOneLine(Origin(centers));
    NumeralPlain(|centers|);
    KeywordsOneLine();
    ConcatOneLine(GridPositions, counts, "");
    ConcatOneLine("origin ", origin, "");
    ConcatOneLine("delta ", res, " 0 0");
    ConcatOneLine("delta 0 ", res, " 0");
    ConcatOneLine("delta 0 0 ", res, "");
    ConcatOneLine(GridConnections, counts, "");
    ConcatOneLine(ItemsHead, items, ItemsTail);
  }

  /**
   * A DX file splits on newlines into the seven header lines, followed by
   * the lines of the data section.
   */
  lemma DxTextLines(centers: seq<Center>, vals: seq<real>, resolution: real, show: real -> string)
    requires centers != [] && OneLine(show(resolution))
    ensures Split('\n', DxText(centers, vals, resolution, show))
      == HeaderLines(centers, resolution, show) + Split('\n', DxData(vals))
  {
    HeaderLinesPlain(centers, resolution, show);
    SplitLines(HeaderLines(centers, resolution, show), DxData(vals));
  }

  // ---------------------------------------------------------------------------
  // Reading the data section back

  /** Words holding neither a space nor a newline. */
  predicate PlainWords(words: seq<string>)
  {
    forall k :: 0 <= k < |words| ==> ' ' !in words[k] && '\n' !in words[k]
  }

  lemma FormattedPlain(vals: seq<real>)
    ensures PlainWords(Formatted(vals, Fixed5))
  {
    forall k | 0 <= k < |vals|
      ensures ' ' !in Formatted(vals, Fixed5)[k] && '\n' !in Formatted(vals, Fixed5)[k]
    {
      Fixed5Plain(vals[k]);
    }
  }

  /** Three words on one line. */
  function Row(a: string, b: string, c: string): string
  {
    a + " " + b + " " + c
  }

  /** Fewer than three words, each followed by a space: the unfinished last line. */
  function Trailing(words: seq<string>): string
  {
    if words == [] then "" else words[0] + " " + Trailing(words[1..])
  }

  /**
   * The lines of the data section as a reader sees them: a full row for
   * every three values, then the unfinished line of the remaining ones
   * (empty when the count is a multiple of three).
   */
  function DataLines(words: seq<string>): (ls: seq<string>)
    ensures |ls| == |words| / 3 + 1
    decreases |words|
  {
    if |words| < 3 then [Trailing(words)]
    else [Row(words[0], words[1], words[2])] + DataLines(words[3..])
  }

  lemma {:induction false} DataTextAppend(a: seq<string>, b: seq<string>)
    requires |a| % 3 == 0
    ensures DataText(a + b) == DataText(a) + DataText(b)
  {
    if b == [] {
      assert a + b == a;
    } else {
      var init, w := b[..|b| - 1], b[|b| - 1];
      DataTextAppend(a, init);
      assert (a + b)[..|a + b| - 1] == a + init;
      assert (a + b)[|a + b| - 1] == w;
      assert Separator(|a + b|) == Separator(|b|) by {
        ShiftByThrees(|a| / 3, |b|);
        assert |a| == 3 * (|a| / 3);
      }
      assert DataText(a + b) == DataText(a) + DataText(init) + w + Separator(|b|);
      AppendAssoc(DataText(a), DataText(init), w, Separator(|b|));
    }
  }

  lemma {:induction false} ShiftByThrees(q: nat, m: nat)
    ensures (3 * q + m) % 3 == m % 3
  {
    if q > 0 {
      ShiftByThrees(q - 1, m);
      assert 3 * q + m == (3 * (q - 1) + m) + 3;
    }
  }

  lemma ShortData(words: seq<string>)
    requires |words| < 3
    ensures DataText(words) == Trailing(words)
  {
    if |words| == 1 {
      calc {
        DataText(words);
        == { assert words[..0] == []; }
        "" + words[0] + Separator(1);
        == { assert "" + words[0] == words[0]; }
        words[0] + " ";
        == { assert words[1..] == []; }
        Trailing(words);
      }
    } else if |words| == 2 {
      var w1 := words[..1];
      calc {
        DataText(words);
        == { assert words[..|words| - 1] == w1; }
        DataText(w1) + words[1] + Separator(2);
        == { ShortData(w1); assert w1 == [words[0]]; }
        words[0] + " " + words[1] + " ";
        == { assert words[1..] == [words[1]]; ShortData(words[1..]); }
        words[0] + " " + Trailing(words[1..]);
      }
    }
  }

  lemma FullRow(words: seq<string>)
    requires |words| == 3
    ensures DataText(words) == Row(words[0], words[1], words[2]) + ['\n']
  {
    var w2, w1 := words[..2], words[..1];
    assert w2[..1] == w1 && w1[..0] == [];
    assert w2[1] == words[1] && w1[0] == words[0];
    assert DataText(w1) == words[0] + " ";
    assert DataText(w2) == DataText(w1) + words[1] + " ";
    assert DataText(words) == DataText(w2) + words[2] + "\n";
  }

  lemma {:induction false} TrailingPlain(words: seq<string>)
    requires PlainWords(words)
    ensures '\n' !in Trailing(words)
  {
    if words != [] {
      TrailingPlain(words[1..]);
    }
  }

  /** The data section splits on newlines into the rows of three values and the unfinished last line. */
  lemma {:induction false} DataTextLines(words: seq<string>)
    requires PlainWords(words)
    ensures Split('\n', DataText(words)) == DataLines(words)
    decreases |words|
  {
    if |words| < 3 {
      ShortData(words);
      TrailingPlain(words);
      SplitNoSep('\n', Trailing(words));
    } else {
      var head, rest := words[..3], words[3..];
      assert words == head + rest;
      DataTextAppend(head, rest);
      FullRow(head);
      var row := Row(words[0], words[1], words[2]);
      assert '\n' !in row;
      SplitAppend('\n', row, DataText(rest));
      SplitNoSep('\n', row);
      DataTextLines(rest);
    }
  }

  lemma {:induction false} DataLinesAt(words: seq<string>, r: nat)
    requires r < |words| / 3
    ensures DataLines(words)[r] == Row(words[3 * r], words[3 * r + 1], words[3 * r + 2])
    decreases r
  {
    if r > 0 {
      DataLinesAt(words[3..], r - 1);
    }
  }

  /**
   * The data section holds every value in order, three to a line: it has
   * one line per three values plus the unfinished last one, and line r
   * splits on spaces into three texts that read back, within half a unit
   * of the fifth decimal, as values 3r, 3r+1 and 3r+2.
   */
  lemma DataRead(vals: seq<real>, r: nat)
    requires r < |vals| / 3
    ensures |Split('\n', DxData(vals))| == |vals| / 3 + 1
    ensures var w := Split(' ', Split('\n', DxData(vals))[r]);
      |w| == 3 && Near(w[0], vals[3 * r]) && Near(w[1], vals[3 * r + 1]) && Near(w[2], vals[3 * r + 2])
  {
    var words := Formatted(vals, Fixed5);
    FormattedPlain(vals);
    DataTextLines(words);
    DataLinesAt(words, r);
    var a, b, c := words[3 * r], words[3 * r + 1], words[3 * r + 2];
    SplitThree(' ', a, b, c);
    Fixed5RoundTrip(vals[3 * r]);
    Fixed5RoundTrip(vals[3 * r + 1]);
    Fixed5RoundTrip(vals[3 * r + 2]);
  }

  /**
   * The data section ends in a newline exactly when the number of values is
   * a positive multiple of three; otherwise it ends in a space.
   */
  lemma DxDataEnding(vals: seq<real>)
    requires vals != []
    ensures |DxData(vals)| > 0
    ensures DxData(vals)[|DxData(vals)| - 1] == (if |vals| % 3 == 0 then '\n' else ' ')
  {
  }

  // ---------------------------------------------------------------------------
  // File names

  /** `'/'.join(protein.split('/')[:-1])`: the directory part of the protein's path. */
  function DirPart(protein: string): string
  {
    var parts := Split('/', protein);
    Join('/', parts[..|parts| - 1])
  }

  /** The last component of the protein's path. */
  function BaseName(protein: string): string
  {
    var parts := Split('/', protein);
    parts[|parts| - 1]
  }

  /** The path is its directory part, a slash and its base name; without a slash the directory part is empty. */
  lemma DirPartSplit(protein: string)
    ensures '/' !in BaseName(protein)
    ensures '/' in protein ==> protein == DirPart(protein) + "/" + BaseName(protein)
    ensures '/' !in protein ==> DirPart(protein) == "" && BaseName(protein) == protein
  {
    var parts := Split('/', protein);
    SplitLastHasNoSep('/', protein);
    JoinSplit('/', protein);
    if '/' in protein {
      JoinSnoc('/', parts);
    } else {
      SplitNoSep('/', protein);
    }
  }

  function EndsWith(s: string, suffix: string): bool
  {
    |suffix| <= |s| && s[|s| - |suffix|..] == suffix
  }

  /** `os.path.join(a, b)` on POSIX paths: an absolute `b` replaces `a`. */
  function PosixJoin(a: string, b: string): string
  {
    if |b| > 0 && b[0] == '/' then b
    else if a == "" || a[|a| - 1] == '/' then a + b
    else a + "/" + b
  }

  /** The DX file of one category, named after the protein's directory, the prefix and the category. */
  function DxFile(prefix: string, feature: string): string
  {
    prefix + "_" + feature + ".dx"
  }

  /** The name the source gives the DX file of one category. */
  function DxFileName(topDir: string, protein: string, prefix: string, feature: string): string
  {
    PosixJoin(topDir, DirPart(protein) + "/" + DxFile(prefix, feature))
  }

  /**
   * As written, a protein path without a slash puts every DX file at the
   * filesystem root: the name starts with '/', so the join drops `top_dir`.
   */
  lemma DxFileNameRooted(topDir: string, protein: string, prefix: string, feature: string)
    requires '/' !in protein
    ensures DxFileName(topDir, protein, prefix, feature) == "/" + DxFile(prefix, feature)
  {
    DirPartSplit(protein);
  }

  lemma DxFileNameRootedExample()
    ensures DxFileName("out", "p.pdb", "pred", "Aromatic") == "/pred_Aromatic.dx"
  {
    var protein := "p.pdb";
    NoSlash(protein);
    DxFileNameRooted("out", protein, "pred", "Aromatic");
  }

  lemma NoSlash(s: string)
    requires forall i :: 0 <= i < |s| ==> s[i] != '/'
    ensures '/' !in s
  {
  }

  /**
   * The evidently intended name: the protein's directory part goes in front
   * only when the protein's path has one. `predict` itself uses `DxFileName`.
   */
  function DxFileNameFixed(topDir: string, protein: string, prefix: string, feature: string): string
  {
    var file := DxFile(prefix, feature);
    PosixJoin(topDir, if '/' in protein then DirPart(protein) + "/" + file else file)
  }

  /**
   * The corrected name agrees with the source whenever the protein's path
   * holds a slash, and otherwise puts the file inside `top_dir` (unless the
   * prefix is itself an absolute path).
   */
  lemma DxFileNameFixedCorrect(topDir: string, protein: string, prefix: string, feature: string)
    ensures '/' in protein ==> DxFileNameFixed(topDir, protein, prefix, feature) == DxFileName(topDir, protein, prefix, feature)
    ensures '/' !in protein && topDir != "" && (prefix == "" || prefix[0] != '/') ==>
      var r := DxFileNameFixed(topDir, protein, prefix, feature);
      |topDir| <= |r| && r[..|topDir|] == topDir && EndsWith(r, "/" + DxFile(prefix, feature))
  {
    var file := DxFile(prefix, feature);
    if '/' !in protein && topDir != "" && (prefix == "" || prefix[0] != '/') {
      assert file[0] != '/';
      var r := DxFileNameFixed(topDir, protein, prefix, feature);
      if topDir[|topDir| - 1] == '/' {
        assert r == topDir + file;
        assert r[|r| - |file| - 1..] == [topDir[|topDir| - 1]] + file;
      } else {
        assert r == topDir + "/" + file;
        assert r[|r| - |file| - 1..] == "/" + file;
      }
    }
  }

  lemma PosixJoinSuffix(a: string, b: string, t: string)
    requires b != []
    ensures PosixJoin(a, b + t) == PosixJoin(a, b) + t
  {
    assert (b + t)[0] == b[0];
    if b[0] != '/' {
      if a == "" || a[|a| - 1] == '/' {
        assert a + (b + t) == a + b + t;
      } else {
        assert a + "/" + (b + t) == a + "/" + b + t;
      }
    }
  }

  /** Different categories get different file names, so no category's DX file of a complex overwrites another's. */
  lemma DxFileNameInjective(topDir: string, protein: string, prefix: string, l1: string, l2: string)
    ensures DxFileName(topDir, protein, prefix, l1) == DxFileName(topDir, protein, prefix, l2) <==> l1 == l2
  {
    var head := DirPart(protein) + "/" + prefix + "_";
    forall l
      ensures DxFileName(topDir, protein, prefix, l) == PosixJoin(topDir, head) + l + ".dx"
    {
      assert DirPart(protein) + "/" + DxFile(prefix, l) == head + (l + ".dx");
      PosixJoinSuffix(topDir, head, l + ".dx");
    }
    StemInjective(PosixJoin(topDir, head), l1, l2);
  }

  /** The corrected names are distinct across categories too. */
  lemma DxFileNameFixedInjective(topDir: string, protein: string, prefix: string, l1: string, l2: string)
    ensures DxFileNameFixed(topDir, protein, prefix, l1) == DxFileNameFixed(topDir, protein, prefix, l2) <==> l1 == l2
  {
    var head := (if '/' in protein then DirPart(protein) + "/" else "") + prefix + "_";
    assert head != [];
    forall l
      ensures DxFileNameFixed(topDir, protein, prefix, l) == PosixJoin(topDir, head) + l + ".dx"
    {
      var file := DxFile(prefix, l);
      assert (if '/' in protein then DirPart(protein) + "/" + file else file) == head + (l + ".dx");
      PosixJoinSuffix(topDir, head, l + ".dx");
    }
    StemInjective(PosixJoin(topDir, head), l1, l2);
  }

  /** Two names with the same stem and the ".dx" extension are equal exactly when their middle parts are. */
  lemma StemInjective(stem: string, l1: string, l2: string)
    ensures stem + l1 + ".dx" == stem + l2 + ".dx" <==> l1 == l2
  {
    if stem + l1 + ".dx" == stem + l2 + ".dx" {
      var n1, n2 := stem + l1 + ".dx", stem + l2 + ".dx";
      assert |l1| == |l2|;
      assert l1 == n1[|stem|..|stem| + |l1|];
      assert l2 == n2[|stem|..|stem| + |l2|];
    }
  }
}
