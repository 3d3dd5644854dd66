/** How the page and the result view fit together: what the view shows for
    the fallback record, and the badge it shows for the name the page
    passes in. */
module ResultView {
  import opened Options
  import opened Types
  import opened Normaliser
  import opened AnalyzePage
  import opened AnalysisResult

  /** The typed view of the fallback record: the name, three "0g"
      quantities, four empty lists and nothing else. */
  lemma FallbackTypedView(foodName: string)
    ensures ToFoodAnalysis(FallbackRecord(foodName)) ==
      Some(FoodAnalysis(None, foodName, ZeroGrams, ZeroGrams, ZeroGrams,
                        None, None, None, None, [], [], [], [], None))
  {
    var r := FallbackRecord(foodName);
    assert Id !in r && Calories !in r && Protein !in r && Carbs !in r && Fat !in r && Recommendations !in r;
    assert AsStrings([]) == Some([]);
  }

  /** A silent fallback shows zero calories and zero of every macro. */
  lemma FallbackShowsZero(foodName: string)
    ensures var a := ToFoodAnalysis(FallbackRecord(foodName)).value;
      && ProteinValue(a) == 0.0 && CarbsValue(a) == 0.0 && FatValue(a) == 0.0
      && CaloriesValue(a) == 0.0
  {
    FallbackTypedView(foodName);
    ZeroGramsReadsZero();
  }

  /** The badge is never empty: when the record has no name the page's
      display name stands in, and that is never empty. */
  lemma BadgeNeverEmpty(a: FoodAnalysis, foodName: string, file: Option<ImageFile>)
    ensures BadgeLabel(a, DisplayName(foodName, file)) != []
  {
  }
}
