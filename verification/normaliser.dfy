/** `processMistralResponse` of app/analyze/page.tsx: turns the model's reply
    into an analysis record, never failing. The reply is trimmed, cut down to
    the span from its first `{` to its last `}` when there is one, parsed as
    JSON, and the eight fields the page needs are filled with defaults where
    the parsed value is falsy. Any exception inside yields a fixed record. */
module Normaliser {
  import opened Options
  import opened JsText
  import opened Json
  import opened Types

  /** The default of the three quantity strings. */
  const ZeroGrams := "0g"

  /** The eight properties the normaliser always sets. */
  const FilledFields: set<string> := {
    FoodName, ProteinContent, FatContent, CarbohydrateContent,
    Vitamins, Minerals, HealthBenefits, CommonUses}

  /** The value a filled property takes when the parsed one is falsy; the
      name defaults to the text field's current content. */
  function Default(k: string, foodName: string): Json
    requires k in FilledFields
  {
    if k == FoodName then Str(foodName)
    else if k == ProteinContent || k == FatContent || k == CarbohydrateContent then Str(ZeroGrams)
    else Arr([])
  }

  /** The record returned from the `catch` block. */
  function FallbackRecord(foodName: string): (r: Record)
    ensures r.Keys == FilledFields
    ensures forall k :: k in r ==> r[k] == Default(k, foodName)
  {
    map[
      FoodName := Str(foodName),
      ProteinContent := Str(ZeroGrams),
      FatContent := Str(ZeroGrams),
      CarbohydrateContent := Str(ZeroGrams),
      Vitamins := Arr([]),
      Minerals := Arr([]),
      HealthBenefits := Arr([]),
      CommonUses := Arr([])]
  }

  // ---------------------------------------------------------------------------
  // Choosing the JSON candidate
  // ---------------------------------------------------------------------------

  /** Some `{` comes before some `}`. */
  ghost predicate HasBracePair(t: string) {
    exists i, j :: 0 <= i < j < |t| && t[i] == '{' && t[j] == '}'
  }

  /** The text handed to `JSON.parse`: the span from the first `{` to the last
      `}` inclusive when the first comes before the last, else all of `t`. */
  function Candidate(t: string): (c: string)
    ensures !HasBracePair(t) ==> c == t
    ensures HasBracePair(t) ==> 2 <= |c| <= |t| && c[0] == '{' && c[|c| - 1] == '}'
  {
    var start := IndexOf(t, '{');
    var end := LastIndexOf(t, '}');
    if start.Some? && end.Some? && end.value > start.value then
      t[start.value..end.value + 1]
    else
      t
  }

  /** A `{` at `i` and a `}` at `j` bound the first `{` from above and the
      last `}` from below. */
  lemma BraceBounds(t: string, i: nat, j: nat)
    requires i < j < |t| && t[i] == '{' && t[j] == '}'
    ensures IndexOf(t, '{').Some? && IndexOf(t, '{').value <= i
    ensures LastIndexOf(t, '}').Some? && LastIndexOf(t, '}').value >= j
  {
  }

  /** When `i` holds the first `{`, `j` the last `}`, and `i < j`, the
      candidate is exactly the slice from `i` to `j` inclusive. */
  lemma CandidateIsBraceSpan(t: string, i: nat, j: nat)
    requires i < j < |t| && t[i] == '{' && t[j] == '}'
    requires '{' !in t[..i] && '}' !in t[j + 1..]
    ensures Candidate(t) == t[i..j + 1]
  {
    BraceBounds(t, i, j);
  }

  /** Trimming first does not move the braces: when the text has a brace
      pair, the candidate of the trimmed text is the candidate of the text. */
  lemma CandidateOfTrim(s: string)
    requires HasBracePair(s)
    ensures Candidate(Trim(s)) == Candidate(s)
  {
    var a, b := OuterBraces(s);
    var lo, hi := TrimBounds(s);
    assert !IsJsSpace(s[a]) && !IsJsSpace(s[b]);
    BraceSpanInsideSlice(s, lo, hi, a, b);
    CandidateIsBraceSpan(s, a, b);
  }

  /** The first `{` and the last `}` of a text with a brace pair. */
  lemma OuterBraces(s: string) returns (a: nat, b: nat)
    requires HasBracePair(s)
    ensures a < b < |s| && s[a] == '{' && s[b] == '}' && '{' !in s[..a] && '}' !in s[b + 1..]
  {
    var x, y :| 0 <= x < y < |s| && s[x] == '{' && s[y] == '}';
    BraceBounds(s, x, y);
    a, b := IndexOf(s, '{').value, LastIndexOf(s, '}').value;
  }

  /** Where the trimmed text sits in `s`: every character that is not white
      space lies inside it. */
  lemma TrimBounds(s: string) returns (lo: nat, hi: nat)
    ensures lo <= hi <= |s| && Trim(s) == s[lo..hi]
    ensures forall p :: 0 <= p < |s| && !IsJsSpace(s[p]) ==> lo <= p < hi
  {
    var r := Trim(s);
    var i0: nat :| TrimAt(r, s, i0);
    NonSpaceInsideTrim(s, r, i0);
    lo, hi := i0, i0 + |r|;
  }

  /** Every character that is not white space lies inside the trimmed part. */
  lemma NonSpaceInsideTrim(s: string, r: string, i0: nat)
    requires TrimAt(r, s, i0)
    ensures forall p :: 0 <= p < |s| && !IsJsSpace(s[p]) ==> i0 <= p < i0 + |r|
  {
  }

  /** A slice of `s` that contains the first `{` and the last `}` of `s`
      has the same candidate. */
  lemma BraceSpanInsideSlice(s: string, lo: nat, hi: nat, a: nat, b: nat)
    requires lo <= a < b < hi <= |s|
    requires s[a] == '{' && s[b] == '}' && '{' !in s[..a] && '}' !in s[b + 1..]
    ensures Candidate(s[lo..hi]) == s[a..b + 1]
  {
    SliceKeepsBraces(s, lo, hi, a, b);
    CandidateIsBraceSpan(s[lo..hi], a - lo, b - lo);
  }

  /** The brace facts of `s` carry over to a slice that holds both braces. */
  lemma SliceKeepsBraces(s: string, lo: nat, hi: nat, a: nat, b: nat)
    requires lo <= a < b < hi <= |s|
    requires s[a] == '{' && s[b] == '}' && '{' !in s[..a] && '}' !in s[b + 1..]
    ensures var r := s[lo..hi];
      && r[a - lo] == '{' && r[b - lo] == '}'
      && '{' !in r[..a - lo] && '}' !in r[b - lo + 1..]
      && r[a - lo..b - lo + 1] == s[a..b + 1]
  {
    var r := s[lo..hi];
    assert r[a - lo] == s[a] && r[b - lo] == s[b];
    NotInSlice(s[..a], '{', lo, a);
    assert r[..a - lo] == s[..a][lo..a];
    NotInSlice(s[b + 1..], '}', 0, hi - b - 1);
    assert r[b - lo + 1..] == s[b + 1..][0..hi - b - 1];
    SliceOfSlice(s, lo, hi, a, b + 1);
  }

  /** A slice of a slice is a slice of the whole. */
  lemma SliceOfSlice(s: string, lo: nat, hi: nat, x: nat, y: nat)
    requires lo <= x <= y <= hi <= |s|
    ensures s[lo..hi][x - lo..y - lo] == s[x..y]
  {
    assert forall k :: 0 <= k < y - x ==> s[lo..hi][x - lo..y - lo][k] == s[x + k] == s[x..y][k];
  }

  /** A character missing from a string is missing from each of its slices. */
  lemma NotInSlice(t: string, c: char, lo: nat, hi: nat)
    requires lo <= hi <= |t| && c !in t
    ensures c !in t[lo..hi]
  {
    assert forall k :: 0 <= k < hi - lo ==> t[lo..hi][k] == t[lo + k];
  }

  /** An object wrapped in prose is extracted exactly when the prose before
      it has no `{` and the prose after it has no `}`; braces inside the
      object itself do not matter. */
  lemma CandidateOfWrappedObject(prefix: string, body: string, suffix: string)
    requires 2 <= |body| && body[0] == '{' && body[|body| - 1] == '}'
    requires '{' !in prefix && '}' !in suffix
    ensures Candidate(Trim(prefix + body + suffix)) == body
  {
    var s := prefix + body + suffix;
    var i := |prefix|;
    var j := |prefix| + |body| - 1;
    assert s[i] == '{' && s[j] == '}';
    CandidateOfTrim(s);
    assert s[..i] == prefix && s[j + 1..] == suffix && s[i..j + 1] == body;
    CandidateIsBraceSpan(s, i, j);
  }

  /** A `}` in the prose after the object stretches the candidate past the
      object's end, so the object alone is not what gets parsed. */
  lemma CandidateOverrunsTrailingBrace(prefix: string, body: string, suffix: string)
    requires 2 <= |body| && body[0] == '{' && body[|body| - 1] == '}'
    requires '}' in suffix
    ensures |Candidate(prefix + body + suffix)| > |body|
  {
    var s := prefix + body + suffix;
    var i := |prefix|;
    var q :| 0 <= q < |suffix| && suffix[q] == '}';
    var j := |prefix| + |body| + q;
    assert s[i] == '{' && s[j] == '}';
    BraceBounds(s, i, j);
  }

  // ---------------------------------------------------------------------------
  // Filling the defaults
  // ---------------------------------------------------------------------------

  /** The eight property definitions of the returned object literal: each is
      `analysis.<field> || <default>`. */
  function Overrides(v: Json, foodName: string): (m: Record)
    requires !v.Null?
    ensures m.Keys == FilledFields
  {
    map k | k in FilledFields :: Or(Get(v, k), Default(k, foodName))
  }

  /** The object literal `{...analysis, food_name: ..., ...}` built from a
      parsed value that is not `null`: the value's own properties, then the
      eight definitions, later ones winning. */
  function Fill(v: Json, foodName: string): (r: Record)
    requires !v.Null?
    ensures r.Keys == OwnProps(v).Keys + FilledFields
    ensures forall k :: k in OwnProps(v) && k !in FilledFields ==> r[k] == OwnProps(v)[k]
    ensures forall k :: k in FilledFields ==>
      r[k] == (if k in OwnProps(v) && Truthy(OwnProps(v)[k]) then OwnProps(v)[k] else Default(k, foodName))
  {
    OwnProps(v) + Overrides(v, foodName)
  }

  /** Every filled property is truthy except possibly the name, which is
      either truthy or the text field's content. */
  lemma FilledFieldsTruthy(v: Json, foodName: string)
    requires !v.Null?
    ensures forall k :: k in FilledFields && k != FoodName ==> Truthy(Fill(v, foodName)[k])
    ensures Truthy(Fill(v, foodName)[FoodName]) || Fill(v, foodName)[FoodName] == Str(foodName)
  {
  }

  /** Filling is idempotent: filling the record it returns changes nothing. */
  lemma FillIdempotent(v: Json, foodName: string)
    requires !v.Null?
    ensures Fill(Obj(Fill(v, foodName)), foodName) == Fill(v, foodName)
  {
    var r := Fill(v, foodName);
    var r2 := Fill(Obj(r), foodName);
    assert r2.Keys == r.Keys;
    forall k | k in r ensures r2[k] == r[k] {
      if k in FilledFields && !Truthy(r[k]) {
        assert r[k] == Default(k, foodName);
      }
    }
  }

  /** Filling an empty object gives exactly the fallback record. */
  lemma FillEmptyObject(foodName: string)
    ensures Fill(Obj(map[]), foodName) == FallbackRecord(foodName)
  {
    var r := Fill(Obj(map[]), foodName);
    var f := FallbackRecord(foodName);
    assert r.Keys == f.Keys;
    forall k | k in r ensures r[k] == f[k] {
      assert r[k] == Default(k, foodName);
    }
  }

  /** Spreading a boolean or a number copies nothing and every field reads as
      `undefined`, so the result is the fallback record too. */
  lemma FillScalar(v: Json, foodName: string)
    requires v.Bool? || v.Num?
    ensures Fill(v, foodName) == FallbackRecord(foodName)
  {
    var r := Fill(v, foodName);
    var f := FallbackRecord(foodName);
    assert r.Keys == f.Keys;
    forall k | k in r ensures r[k] == f[k] {
      assert r[k] == Default(k, foodName);
    }
  }

  /** Parsing yields a string or an array: the spread copies its characters
      or elements under index keys, while the eight fields read `undefined`
      (no field name is an index key) and take their defaults. */
  lemma FillIndexed(v: Json, foodName: string)
    requires v.Str? || v.Arr?
    ensures forall k :: k in FilledFields ==> Fill(v, foodName)[k] == Default(k, foodName)
    ensures forall k :: k in OwnProps(v) ==> Fill(v, foodName)[k] == OwnProps(v)[k]
  {
    assert !IsDigit(FoodName[0]) && !IsDigit(ProteinContent[0]) && !IsDigit(FatContent[0]);
    assert !IsDigit(CarbohydrateContent[0]) && !IsDigit(Vitamins[0]) && !IsDigit(Minerals[0]);
    assert !IsDigit(HealthBenefits[0]) && !IsDigit(CommonUses[0]);
    forall k | k in FilledFields ensures k !in OwnProps(v) {
      NonDigitKeyNotOwned(v, k, 0);
    }
  }

  // ---------------------------------------------------------------------------
  // The whole normaliser
  // ---------------------------------------------------------------------------

  /** The record, tagged with whether the parse succeeded. The page does not
      tell the two apart; the tag only makes the silent fallback visible. */
  datatype Normalised = Parsed(record: Record) | FellBack(record: Record)

  /** `processMistralResponse(content)` with `foodName` the text field's
      current content. `parse` is `JSON.parse`, `None` meaning it threw. The
      reply content is any JSON value: when it is not a string, `.trim()`
      throws inside the `try` and the fallback record is returned. */
  function ProcessResponse(content: Json, foodName: string, parse: string -> Option<Json>): (n: Normalised)
    ensures FilledFields <= n.record.Keys
    ensures n.FellBack? ==> n.record == FallbackRecord(foodName)
    ensures n.FellBack? <==>
      (!content.Str? || parse(Candidate(Trim(content.s))).None? || parse(Candidate(Trim(content.s))) == Some(Null))
    ensures n.Parsed? ==> n.record == Fill(parse(Candidate(Trim(content.s))).value, foodName)
  {
    match content
    case Str(text) =>
      (match parse(Candidate(Trim(text)))
       case None => FellBack(FallbackRecord(foodName))        // JSON.parse threw
       case Some(Null) => FellBack(FallbackRecord(foodName))  // reading a property of null threw
       case Some(v) => Parsed(Fill(v, foodName)))
    case _ => FellBack(FallbackRecord(foodName))              // trim is not a function
  }

  /** A reply that is an object wrapped in prose without stray braces is
      parsed from the object alone, whatever surrounds it. */
  lemma WrappedObjectParsed(prefix: string, body: string, suffix: string, foodName: string,
                            parse: string -> Option<Json>, v: Json)
    requires 2 <= |body| && body[0] == '{' && body[|body| - 1] == '}'
    requires '{' !in prefix && '}' !in suffix
    requires parse(body) == Some(v) && !v.Null?
    ensures ProcessResponse(Str(prefix + body + suffix), foodName, parse) == Parsed(Fill(v, foodName))
  {
    CandidateOfWrappedObject(prefix, body, suffix);
  }

  /** A reply without braces that neither starts nor ends with white space
      is handed to the parser unchanged. */
  lemma BracelessCandidate(s: string)
    requires '{' !in s
    requires s == [] || (!IsJsSpace(s[0]) && !IsJsSpace(s[|s| - 1]))
    ensures Candidate(Trim(s)) == s
  {
    assert s[0..|s|] == s;
    assert TrimAt(s, s, 0);
    TrimOfUnique(Trim(s), s, s);
  }

  /** A parsed object that holds only some of the eight fields, each with a
      truthy value, gives the fallback record updated with those values. */
  lemma FillPartialObject(m: map<string, Json>, foodName: string)
    requires m.Keys <= FilledFields
    requires forall k :: k in m ==> Truthy(m[k])
    ensures Fill(Obj(m), foodName) == FallbackRecord(foodName) + m
  {
    var r := Fill(Obj(m), foodName);
    var e := FallbackRecord(foodName) + m;
    assert r.Keys == e.Keys;
    forall k | k in r ensures r[k] == e[k] {
      if k !in m {
        assert r[k] == Default(k, foodName);
      }
    }
  }

  /** Prose around an object that sets some of the eight fields to truthy
      values: those values are kept and the other fields take their
      defaults. */
  lemma PartialObjectInProse(prefix: string, body: string, suffix: string, m: map<string, Json>,
                             foodName: string, parse: string -> Option<Json>)
    requires 2 <= |body| && body[0] == '{' && body[|body| - 1] == '}'
    requires '{' !in prefix && '}' !in suffix
    requires parse(body) == Some(Obj(m))
    requires m.Keys <= FilledFields && forall k :: k in m ==> Truthy(m[k])
    ensures ProcessResponse(Str(prefix + body + suffix), foodName, parse) == Parsed(FallbackRecord(foodName) + m)
  {
    WrappedObjectParsed(prefix, body, suffix, foodName, parse, Obj(m));
    FillPartialObject(m, foodName);
  }

  /** A plain-text reply the parser rejects falls back to the record named
      by the text field. */
  lemma NonJsonReplyFallsBack(parse: string -> Option<Json>)
    requires parse("no data").None?
    ensures ProcessResponse(Str("no data"), "Olma", parse) == FellBack(FallbackRecord("Olma"))
  {
    BracelessCandidate("no data");
  }

  /** A candidate that parses to `{}` gives a record equal to the fallback. */
  lemma EmptyObjectLikeFallback(content: Json, foodName: string, parse: string -> Option<Json>)
    requires content.Str? && parse(Candidate(Trim(content.s))) == Some(Obj(map[]))
    ensures ProcessResponse(content, foodName, parse).record == FallbackRecord(foodName)
  {
    FillEmptyObject(foodName);
  }
}
