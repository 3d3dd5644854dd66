/** The shape of an analysis record (`FoodAnalysis` in lib/types.ts). At run
    time the record is a plain object, modelled as a map from property names
    to JSON values; `FoodAnalysis` is its typed view. */
module Types {
  import opened Options
  import opened Json

  const FoodName := "food_name"
  const ProteinContent := "protein_content"
  const FatContent := "fat_content"
  const CarbohydrateContent := "carbohydrate_content"
  const Vitamins := "vitamins"
  const Minerals := "minerals"
  const HealthBenefits := "health_benefits"
  const CommonUses := "common_uses"
  const Calories := "calories"
  const Protein := "protein"
  const Carbs := "carbs"
  const Fat := "fat"
  const Recommendations := "recommendations"
  const Id := "id"

  /** An analysis record as the page holds it: an object's properties. */
  type Record = map<string, Json>

  /** The typed view. `id` is declared required in lib/types.ts, but the
      normaliser never sets it itself and only copies one the reply
      carries, so it is optional here. */
  datatype FoodAnalysis = FoodAnalysis(
    id: Option<string>,
    foodName: string,
    proteinContent: string,
    fatContent: string,
    carbohydrateContent: string,
    calories: Option<real>,
    protein: Option<real>,
    carbs: Option<real>,
    fat: Option<real>,
    vitamins: seq<string>,
    minerals: seq<string>,
    healthBenefits: seq<string>,
    commonUses: seq<string>,
    recommendations: Option<string>)

  /** The strings of an array whose every element is a string. */
  function AsStrings(xs: seq<Json>): (r: Option<seq<string>>)
    ensures r.Some? ==> |r.value| == |xs| && forall i :: 0 <= i < |xs| ==> xs[i] == Str(r.value[i])
    ensures r.None? ==> exists i :: 0 <= i < |xs| && !xs[i].Str?
  {
    if |xs| == 0 then Some([])
    else if !xs[0].Str? then None
    else
      match AsStrings(xs[1..])
      case None => None
      case Some(rest) => Some([xs[0].s] + rest)
  }

  function StrValues(ss: seq<string>): (vs: seq<Json>)
    ensures |vs| == |ss| && forall i :: 0 <= i < |ss| ==> vs[i] == Str(ss[i])
  {
    seq(|ss|, i requires 0 <= i < |ss| => Str(ss[i]))
  }

  /** A `string` property. */
  function StringField(r: Record, k: string): Option<string> {
    if k in r && r[k].Str? then Some(r[k].s) else None
  }

  /** A `string[]` property. */
  function StringsField(r: Record, k: string): Option<seq<string>> {
    if k in r && r[k].Arr? then AsStrings(r[k].items) else None
  }

  /** An optional `number` property: absent or `null` reads as no value,
      a number as itself, anything else does not fit the type. */
  function OptionalNumberField(r: Record, k: string): Option<Option<real>> {
    if k !in r || r[k] == Null then Some(None)
    else if r[k].Num? then Some(Some(r[k].n))
    else None
  }

  /** An optional `string` property, read like `OptionalNumberField`. */
  function OptionalStringField(r: Record, k: string): Option<Option<string>> {
    if k !in r || r[k] == Null then Some(None)
    else if r[k].Str? then Some(Some(r[k].s))
    else None
  }

  /** Every declared property of the record has its declared type: the
      four names and quantities are strings, the four lists are arrays of
      strings, and each optional property is absent, `null`, or of its type. */
  ghost predicate HasTypedView(r: Record) {
    && (FoodName in r && r[FoodName].Str?)
    && (ProteinContent in r && r[ProteinContent].Str?)
    && (FatContent in r && r[FatContent].Str?)
    && (CarbohydrateContent in r && r[CarbohydrateContent].Str?)
    && (forall k :: k in {Vitamins, Minerals, HealthBenefits, CommonUses} ==>
          k in r && r[k].Arr? && forall i :: 0 <= i < |r[k].items| ==> r[k].items[i].Str?)
    && (forall k :: k in {Calories, Protein, Carbs, Fat} && k in r ==> r[k].Null? || r[k].Num?)
    && (forall k :: k in {Id, Recommendations} && k in r ==> r[k].Null? || r[k].Str?)
  }

  /** The typed view of a record, when every declared property has its
      declared type. Properties the interface does not declare are ignored. */
  function ToFoodAnalysis(r: Record): (a: Option<FoodAnalysis>)
    ensures a.Some? ==> FoodName in r && r[FoodName] == Str(a.value.foodName)
    ensures a.Some? ==> ProteinContent in r && r[ProteinContent] == Str(a.value.proteinContent)
    ensures a.Some? ==> FatContent in r && r[FatContent] == Str(a.value.fatContent)
    ensures a.Some? ==> CarbohydrateContent in r && r[CarbohydrateContent] == Str(a.value.carbohydrateContent)
    ensures a.Some? ==> && StringsField(r, Vitamins) == Some(a.value.vitamins)
                        && StringsField(r, Minerals) == Some(a.value.minerals)
                        && StringsField(r, HealthBenefits) == Some(a.value.healthBenefits)
                        && StringsField(r, CommonUses) == Some(a.value.commonUses)
    ensures a.Some? ==> && OptionalStringField(r, Id) == Some(a.value.id)
                        && OptionalNumberField(r, Calories) == Some(a.value.calories)
                        && OptionalNumberField(r, Protein) == Some(a.value.protein)
                        && OptionalNumberField(r, Carbs) == Some(a.value.carbs)
                        && OptionalNumberField(r, Fat) == Some(a.value.fat)
                        && OptionalStringField(r, Recommendations) == Some(a.value.recommendations)
    ensures a.None? <==> !HasTypedView(r)
  {
    var id := OptionalStringField(r, Id);
    var name := StringField(r, FoodName);
    var pc := StringField(r, ProteinContent);
    var fc := StringField(r, FatContent);
    var cc := StringField(r, CarbohydrateContent);
    var cal := OptionalNumberField(r, Calories);
    var p := OptionalNumberField(r, Protein);
    var c := OptionalNumberField(r, Carbs);
    var f := OptionalNumberField(r, Fat);
    var vit := StringsField(r, Vitamins);
    var min := StringsField(r, Minerals);
    var hb := StringsField(r, HealthBenefits);
    var cu := StringsField(r, CommonUses);
    var rec := OptionalStringField(r, Recommendations);
    if && id.Some? && name.Some? && pc.Some? && fc.Some? && cc.Some?
       && cal.Some? && p.Some? && c.Some? && f.Some?
       && vit.Some? && min.Some? && hb.Some? && cu.Some? && rec.Some?
    then
      Some(FoodAnalysis(id.value, name.value, pc.value, fc.value, cc.value,
                        cal.value, p.value, c.value, f.value,
                        vit.value, min.value, hb.value, cu.value, rec.value))
    else None
  }

  /** Every property name the interface declares. */
  const DeclaredKeys: set<string> := {
    Id, FoodName, ProteinContent, FatContent, CarbohydrateContent, Calories, Protein, Carbs, Fat,
    Vitamins, Minerals, HealthBenefits, CommonUses, Recommendations}

  /** The record a typed value stands for; optional properties that have no
      value are absent. */
  function FromFoodAnalysis(a: FoodAnalysis): (r: Record)
  {
    map k | k in DeclaredKeys && PropertyOf(a, k).Some? :: PropertyOf(a, k).value
  }

  /** The property `k` of the record a typed value stands for. */
  function PropertyOf(a: FoodAnalysis, k: string): Option<Json> {
    if k == FoodName then Some(Str(a.foodName))
    else if k == ProteinContent then Some(Str(a.proteinContent))
    else if k == FatContent then Some(Str(a.fatContent))
    else if k == CarbohydrateContent then Some(Str(a.carbohydrateContent))
    else if k == Vitamins then Some(Arr(StrValues(a.vitamins)))
    else if k == Minerals then Some(Arr(StrValues(a.minerals)))
    else if k == HealthBenefits then Some(Arr(StrValues(a.healthBenefits)))
    else if k == CommonUses then Some(Arr(StrValues(a.commonUses)))
    else if k == Id then (if a.id.Some? then Some(Str(a.id.value)) else None)
    else if k == Calories then (if a.calories.Some? then Some(Num(a.calories.value)) else None)
    else if k == Protein then (if a.protein.Some? then Some(Num(a.protein.value)) else None)
    else if k == Carbs then (if a.carbs.Some? then Some(Num(a.carbs.value)) else None)
    else if k == Fat then (if a.fat.Some? then Some(Num(a.fat.value)) else None)
    else if k == Recommendations then (if a.recommendations.Some? then Some(Str(a.recommendations.value)) else None)
    else None
  }

  lemma {:induction false} AsStringsOfStrValues(ss: seq<string>)
    ensures AsStrings(StrValues(ss)) == Some(ss)
  {
    if |ss| > 0 {
      assert StrValues(ss)[1..] == StrValues(ss[1..]);
      AsStringsOfStrValues(ss[1..]);
      assert ss == [ss[0]] + ss[1..];
    }
  }

  lemma ReadBackStrings(a: FoodAnalysis)
    ensures var r := FromFoodAnalysis(a);
      && StringField(r, FoodName) == Some(a.foodName)
      && StringField(r, ProteinContent) == Some(a.proteinContent)
      && StringField(r, FatContent) == Some(a.fatContent)
      && StringField(r, CarbohydrateContent) == Some(a.carbohydrateContent)
  {
  }

  lemma ReadBackArrays(a: FoodAnalysis)
    ensures var r := FromFoodAnalysis(a);
      && StringsField(r, Vitamins) == Some(a.vitamins)
      && StringsField(r, Minerals) == Some(a.minerals)
      && StringsField(r, HealthBenefits) == Some(a.healthBenefits)
      && StringsField(r, CommonUses) == Some(a.commonUses)
  {
    AsStringsOfStrValues(a.vitamins);
    AsStringsOfStrValues(a.minerals);
    AsStringsOfStrValues(a.healthBenefits);
    AsStringsOfStrValues(a.commonUses);
  }

  lemma ReadBackOptionals(a: FoodAnalysis)
    ensures var r := FromFoodAnalysis(a);
      && OptionalStringField(r, Id) == Some(a.id)
      && OptionalNumberField(r, Calories) == Some(a.calories)
      && OptionalNumberField(r, Protein) == Some(a.protein)
      && OptionalNumberField(r, Carbs) == Some(a.carbs)
      && OptionalNumberField(r, Fat) == Some(a.fat)
      && OptionalStringField(r, Recommendations) == Some(a.recommendations)
  {
  }

  /** Reading back the record of a typed value gives that value. */
  lemma TypedViewRoundTrip(a: FoodAnalysis)
    ensures ToFoodAnalysis(FromFoodAnalysis(a)) == Some(a)
  {
    ReadBackStrings(a);
    ReadBackArrays(a);
    ReadBackOptionals(a);
  }
}
