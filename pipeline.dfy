/** The two halves of the pipeline side by side: the ingester publishes the
    columns that the transformation job reads, and a worked example of the
    whole transformation on two recalls. */
module Pipeline {
  import opened Wrappers
  import opened Grouping
  import Normalize
  import opened Transform
  import opened JoinProperties

  /** Every published message has exactly the columns of the transformation's
      input schema. */
  lemma MessageMatchesSchema(r: Normalize.NormalizedRecord)
    ensures Normalize.ToMessage(r).Keys == set c | c in Schema
    ensures Normalize.OutputKeys == Schema && NoDups(Schema)
  {
  }

  lemma SumOfTwo<T>(a: T, b: T, f: T -> int)
    ensures Sum([a, b], f) == f(a) + f(b)
  {
    assert [a, b][1..] == [b] && [b][1..] == [];
    assert Sum([b], f) == f(b) + Sum([], f);
  }

  /** The first toy recall of the worked example: March 2023, a 50-character
      risk description, no compensation, no distributor list. */
  predicate IsToyA(r: Recall) {
    r == Recall(Some("R1"), Some("Toys"), Some(seq(50, _ => 'x')), None, Some(Date(2023, 3, 10)), None)
  }

  /** The second toy recall: March 2023, a 150-character risk description,
      compensation offered, no distributor list. */
  predicate IsToyB(r: Recall) {
    r == Recall(Some("R2"), Some("Toys"), Some(seq(150, _ => 'x')), Some("Refund"), Some(Date(2023, 3, 20)), None)
  }

  /** Both toy recalls pass the filter and form the one group (Toys, March). */
  lemma ToyGroups(r1: Recall, r2: Recall)
    requires IsToyA(r1) && IsToyB(r2)
    ensures Filtered([r1, r2]) == [r1, r2]
    ensures AggKeys([r1, r2]) == [GroupKey(Some("Toys"), Some(3))]
    ensures GroupOf([r1, r2], GroupKey(Some("Toys"), Some(3))) == [r1, r2]
  {
    ToyFiltered(r1, r2);
    ToyKeys(r1, r2);
    ToyGroupOf(r1, r2);
  }

  /** Both toy recalls are from 2023 and pass the filter. */
  lemma ToyFiltered(r1: Recall, r2: Recall)
    requires IsToyA(r1) && IsToyB(r2)
    ensures Filtered([r1, r2]) == [r1, r2]
  {
    var xs := [r1, r2];
    assert Eligible(r1) && Eligible(r2);
    assert xs[1..] == [r2];
  }

  /** Both toy recalls have the key (Toys, March), the only group key. */
  lemma ToyKeys(r1: Recall, r2: Recall)
    requires IsToyA(r1) && IsToyB(r2)
    ensures AggKeys([r1, r2]) == [GroupKey(Some("Toys"), Some(3))]
  {
    var xs := [r1, r2];
    var k := GroupKey(Some("Toys"), Some(3));
    assert GroupKeyOf(r1) == k && GroupKeyOf(r2) == k;
    assert xs[..1] == [r1];
    assert KeysOf([r1], GroupKeyOf) == [k] by {
      assert [r1][..0] == [];
    }
    assert [k][1..] == [];
    assert SortByMonth([k]) == InsertByMonth(k, []);
  }

  /** The group (Toys, March) holds both toy recalls. */
  lemma ToyGroupOf(r1: Recall, r2: Recall)
    requires IsToyA(r1) && IsToyB(r2)
    ensures GroupOf([r1, r2], GroupKey(Some("Toys"), Some(3))) == [r1, r2]
  {
    var xs := [r1, r2];
    assert GroupKeyOf(r1) == GroupKey(Some("Toys"), Some(3));
    assert GroupKeyOf(r2) == GroupKey(Some("Toys"), Some(3));
    assert xs[1..] == [r2];
  }

  /** The aggregates of the toy group: two recalls, one high-risk (only the
      150-character description is longer than 100), one compensated, risk
      length average 200 / 2, and size(null) = -1 distributors. */
  lemma ToySummary(r1: Recall, r2: Recall)
    requires IsToyA(r1) && IsToyB(r2)
    ensures Summarize([r1, r2], GroupKey(Some("Toys"), Some(3)))
            == AggRow(GroupKey(Some("Toys"), Some(3)), 2, 1, 1, 200, 2, Some(-1), Some(-1))
  {
    var xs := [r1, r2];
    assert xs[1..] == [r2];
    SumOfTwo(r1, r2, Recalled);
    SumOfTwo(r1, r2, HighRiskFlag);
    SumOfTwo(r1, r2, Compensated);
    SumOfTwo(r1, r2, RiskLengthValue);
    SumOfTwo(r1, r2, HasRiskLength);
    assert MaxOf(xs, NumDistributors) == Some(-1) && MinOf(xs, NumDistributors) == Some(-1);
  }

  /** The aggregation of the two toy recalls is the one summary row. */
  lemma ToyAggregation(r1: Recall, r2: Recall)
    requires IsToyA(r1) && IsToyB(r2)
    ensures Aggregation([r1, r2]) == [AggRow(GroupKey(Some("Toys"), Some(3)), 2, 1, 1, 200, 2, Some(-1), Some(-1))]
  {
    ToyGroups(r1, r2);
    ToySummary(r1, r2);
  }

  /** The whole transformation on the two toy recalls: one output row whose
      trend counts equal its own totals. */
  lemma TwoToysExample(r1: Recall, r2: Recall)
    requires IsToyA(r1) && IsToyB(r2)
    ensures Aggregation([r1, r2]) == [AggRow(GroupKey(Some("Toys"), Some(3)), 2, 1, 1, 200, 2, Some(-1), Some(-1))]
    ensures |TransformData([r1, r2])| == 1
    ensures TransformData([r1, r2])[0].monthlyRecalls == Some(2)
    ensures TransformData([r1, r2])[0].monthlyHighRisks == Some(1)
  {
    ToyAggregation(r1, r2);
    ToyInYear(r1, r2);
    OneRowJoin([r1, r2], 2023, AggRow(GroupKey(Some("Toys"), Some(3)), 2, 1, 1, 200, 2, Some(-1), Some(-1)));
  }

  /** Both toy recalls that pass the filter are from 2023. */
  lemma ToyInYear(r1: Recall, r2: Recall)
    requires IsToyA(r1) && IsToyB(r2)
    ensures AllInYear(Filtered([r1, r2]), 2023)
  {
    ToyFiltered(r1, r2);
  }

  /** A single-year aggregation of one row `a` with a category joins to one
      result row that carries the totals of `a`. */
  lemma OneRowJoin(rows: seq<Recall>, year: int, a: AggRow)
    requires AllInYear(Filtered(rows), year)
    requires Aggregation(rows) == [a] && a.key.category.Some?
    ensures |TransformData(rows)| == 1
    ensures TransformData(rows)[0].monthlyRecalls == Some(a.totalRecalls)
    ensures TransformData(rows)[0].monthlyHighRisks == Some(a.totalHighRisks)
  {
    SingleYearJoin(rows, year);
  }
}
