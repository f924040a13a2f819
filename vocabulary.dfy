/**
 * The fixed label vocabulary of the inference script: six pharmacophore
 * categories, and the two dictionaries `feat_to_int` and `int_to_feat` built
 * from their positions.
 */
module Vocabulary {

  /** The categories, in the order that fixes their indices. */
  const Category: seq<string> :=
    ["Aromatic", "HydrogenAcceptor", "HydrogenDonor", "Hydrophobic", "NegativeIon", "PositiveIon"]

  /** `feat_to_int`: each category name to its position. */
  function FeatToInt(): map<string, nat>
  {
    map i | 0 <= i < |Category| :: Category[i] := i
  }

  /** `int_to_feat`: each position to its category name. */
  function IntToFeat(): map<nat, string>
  {
    map i | 0 <= i < |Category| :: Category[i]
  }

  /** No two positions carry the same name. */
  predicate Distinct(names: seq<string>)
  {
    forall i, j :: 0 <= i < j < |names| ==> names[i] != names[j]
  }

  /**
   * The two dictionaries are inverse bijections between the positions
   * 0..5 and the six names, in both directions.
   */
  lemma VocabularyBijection()
    ensures Distinct(Category)
    ensures forall i: nat :: i in IntToFeat() <==> i < |Category|
    ensures FeatToInt().Keys == set i | 0 <= i < |Category| :: Category[i]
    ensures forall i :: 0 <= i < |Category| ==> FeatToInt()[IntToFeat()[i]] == i
    ensures forall c :: c in FeatToInt() ==> c in IntToFeat().Values && IntToFeat()[FeatToInt()[c]] == c
  {
    var m := FeatToInt();
    forall i | 0 <= i < |Category|
      ensures Category[i] in m && m[Category[i]] == i
    {
      assert Category[i] in m;
      var j := m[Category[i]];
      assert 0 <= j < |Category| && Category[j] == Category[i];
    }
    forall c | c in m
      ensures c in IntToFeat().Values && IntToFeat()[m[c]] == c
    {
      var i :| 0 <= i < |Category| && Category[i] == c;
      assert IntToFeat()[i] == c;
    }
  }

  /** Both dictionaries relate position i and the i-th category, one entry per category. */
  lemma CategoryIndex(i: nat)
    requires i < |Category|
    ensures Category[i] in FeatToInt() && FeatToInt()[Category[i]] == i
    ensures i in IntToFeat() && IntToFeat()[i] == Category[i]
  {
    VocabularyBijection();
  }

  /** `len(int_to_feat)` is the number of categories. */
  lemma IntToFeatSize()
    ensures |IntToFeat()| == |Category|
  {
    assert IntToFeat().Keys == {0, 1, 2, 3, 4, 5};
  }

  /** A name is a non-empty text holding none of the separators of the output formats. */
  predicate PlainName(name: string)
  {
    && |name| > 0
    && ':' !in name && ',' !in name && '/' !in name && '\n' !in name && ' ' !in name
  }

  lemma CategoryNamesArePlain()
    ensures forall i :: 0 <= i < |Category| ==> PlainName(Category[i])
  {
  }
}
