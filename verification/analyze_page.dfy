/** The decisions of the analysis page (app/analyze/page.tsx) around the
    normaliser: the input guards of the two flows, the check on the shape of
    the chat-completion reply, and the name handed to the result view. The
    network request is not modelled: a flow receives the reply body as a
    parameter (`None` when the request or `response.json()` threw). */
module AnalyzePage {
  import opened Options
  import opened JsText
  import opened Json
  import opened Types
  import opened Normaliser

  /** The selected image file; only its name matters here. */
  datatype ImageFile = ImageFile(name: string)

  /** What one click on a flow's button ends in: a validation message and
      no request, the generic failure message, or an analysis shown. */
  datatype Outcome =
    | NoRequest(message: string)
    | Failed(message: string)
    | Analysed(analysis: Normalised)

  const EnterFoodName := "Please enter a food name"
  const UploadImage := "Please upload an image"
  const TextFailed := "Failed to analyze food."
  const ImageFailed := "Failed to analyze food image."

  /** The name guard `!foodName.trim()` fails: a request may be sent. */
  predicate TextInputReady(foodName: string)
    ensures TextInputReady(foodName) <==> Truthy(Str(Trim(foodName)))
  {
    Trim(foodName) != []
  }

  /** The name guard lets a request through exactly when the name has a
      character that is not white space. */
  lemma TextInputReadyIff(foodName: string)
    ensures TextInputReady(foodName) <==> exists k :: 0 <= k < |foodName| && !IsJsSpace(foodName[k])
  {
    TrimEmptyIff(foodName);
  }

  /** What `v?.[0]` reads on a value that is not nullish: an array's first
      element, a string's first character, an object's member "0". */
  ghost function IndexZero(v: Json): Option<Json> {
    match v
    case Arr(xs) => if |xs| > 0 then Some(xs[0]) else None
    case Str(s) => if |s| > 0 then Some(Str([s[0]])) else None
    case Obj(f) => if "0" in f then Some(f["0"]) else None
    case _ => None
  }

  /** The content the page accepts, read off the shape of the reply: an
      object with `choices` whose element 0 is an object with a `message`
      object holding a truthy `content`. Only objects carry the named
      members. */
  ghost function AcceptedContent(data: Json): Option<Json> {
    if data.Obj? && "choices" in data.fields then
      match IndexZero(data.fields["choices"])
      case Some(Obj(choice)) =>
        if "message" in choice && choice["message"].Obj? && "content" in choice["message"].fields
           && Truthy(choice["message"].fields["content"])
        then Some(choice["message"].fields["content"])
        else None
      case _ => None
    else None
  }

  /** `data?.choices?.[0]?.message?.content`, when truthy. */
  function ReplyContent(data: Json): (c: Option<Json>)
    ensures c.Some? ==> Truthy(c.value)
    ensures c == AcceptedContent(data)
  {
    var choices := OptGet(Some(data), "choices");
    var first := OptGet(choices, "0");
    var message := OptGet(first, "message");
    var content := OptGet(message, "content");
    IndexZeroRead(choices);
    NamedMemberRead(first, "message");
    NamedMemberRead(message, "content");
    if TruthyRead(content) then content else None
  }

  /** Reading "0" is `IndexZero`. */
  lemma IndexZeroRead(x: Option<Json>)
    ensures x.Some? && !x.value.Null? ==> OptGet(x, "0") == IndexZero(x.value)
  {
    assert NatToString(0) == "0";
  }

  /** A member whose name is not an index key is found only on objects. */
  lemma NamedMemberRead(x: Option<Json>, key: string)
    requires |key| > 0 && !IsDigit(key[0])
    ensures x.Some? && !x.value.Obj? ==> OptGet(x, key) == None
  {
    if x.Some? && !x.value.Obj? && !x.value.Null? {
      NonDigitKeyNotOwned(x.value, key, 0);
    }
  }

  /** A chat-completion reply whose first choice carries a non-empty
      message content yields that content; an empty one is
      rejected. The choice and the message may carry any other members
      (`index`, `finish_reason`, `role`, ...). */
  lemma ReplyContentOfChatReply(fields: map<string, Json>, choices: seq<Json>,
                                choice: map<string, Json>, message: map<string, Json>, text: string)
    requires "choices" in fields && fields["choices"] == Arr(choices)
    requires |choices| > 0 && choices[0] == Obj(choice)
    requires "message" in choice && choice["message"] == Obj(message)
    requires "content" in message && message["content"] == Str(text)
    ensures ReplyContent(Obj(fields)) == (if text == [] then None else Some(Str(text)))
  {
  }

  /** A reply without choices, or with an empty list of them, fails. */
  lemma ReplyContentMissing(rest: map<string, Json>)
    ensures "choices" !in rest ==> ReplyContent(Obj(rest)) == None
    ensures ReplyContent(Obj(rest["choices" := Arr([])])) == None
  {
    assert "0" !in IndexProps([]);
  }

  /** The reply part shared by both flows: the shape check, then the
      normaliser. Any exception after the request lands in the `catch`. */
  function HandleReply(reply: Option<Json>, foodName: string, parse: string -> Option<Json>, failure: string): (o: Outcome)
    ensures !o.NoRequest?
    ensures o.Failed? <==> reply.None? || AcceptedContent(reply.value).None?
    ensures o.Failed? ==> o.message == failure
    ensures o.Analysed? ==> o.analysis == ProcessResponse(AcceptedContent(reply.value).value, foodName, parse)
  {
    if reply.None? then Failed(failure)
    else
      match ReplyContent(reply.value)
      case None => Failed(failure)
      case Some(content) => Analysed(ProcessResponse(content, foodName, parse))
  }

  /** `analyzeByText`. */
  function AnalyzeByText(foodName: string, reply: Option<Json>, parse: string -> Option<Json>): (o: Outcome)
    ensures o.NoRequest? <==> !TextInputReady(foodName)
    ensures o.NoRequest? ==> o.message == EnterFoodName
    ensures o.Failed? <==> TextInputReady(foodName) && (reply.None? || ReplyContent(reply.value).None?)
    ensures o.Failed? ==> o.message == TextFailed
    ensures TextInputReady(foodName) && reply.Some? && ReplyContent(reply.value).Some? ==>
      o == Analysed(ProcessResponse(ReplyContent(reply.value).value, foodName, parse))
    ensures o.Analysed? ==> FilledFields <= o.analysis.record.Keys
  {
    if !TextInputReady(foodName) then NoRequest(EnterFoodName)
    else HandleReply(reply, foodName, parse, TextFailed)
  }

  /** `analyzeByImage`. The normaliser's fallback name is still the text
      field's content, whatever it holds. */
  function AnalyzeByImage(foodName: string, file: Option<ImageFile>, reply: Option<Json>, parse: string -> Option<Json>): (o: Outcome)
    ensures o.NoRequest? <==> file.None?
    ensures o.NoRequest? ==> o.message == UploadImage
    ensures o.Failed? <==> file.Some? && (reply.None? || ReplyContent(reply.value).None?)
    ensures o.Failed? ==> o.message == ImageFailed
    ensures file.Some? && reply.Some? && ReplyContent(reply.value).Some? ==>
      o == Analysed(ProcessResponse(ReplyContent(reply.value).value, foodName, parse))
    ensures o.Analysed? ==> FilledFields <= o.analysis.record.Keys
  {
    if file.None? then NoRequest(UploadImage)
    else HandleReply(reply, foodName, parse, ImageFailed)
  }

  /** Without a usable name the text flow ends the same whatever the server
      would have replied: no request is issued. */
  lemma NoTextRequestWithoutName(foodName: string, r1: Option<Json>, r2: Option<Json>, p1: string -> Option<Json>, p2: string -> Option<Json>)
    requires !TextInputReady(foodName)
    ensures AnalyzeByText(foodName, r1, p1) == AnalyzeByText(foodName, r2, p2) == NoRequest(EnterFoodName)
  {
  }

  /** Without a file the image flow ends the same whatever the server would
      have replied: no request is issued. */
  lemma NoImageRequestWithoutFile(foodName: string, r1: Option<Json>, r2: Option<Json>, p1: string -> Option<Json>, p2: string -> Option<Json>)
    ensures AnalyzeByImage(foodName, None, r1, p1) == AnalyzeByImage(foodName, None, r2, p2) == NoRequest(UploadImage)
  {
  }

  /** When the image reply does not parse, the record is named after the
      text field, not after the image: empty if the field is empty. */
  lemma ImageFallbackUsesTextField(foodName: string, file: ImageFile, data: Json, parse: string -> Option<Json>)
    requires ReplyContent(data).Some? && ReplyContent(data).value.Str?
    requires parse(Candidate(Trim(ReplyContent(data).value.s))).None?
    ensures AnalyzeByImage(foodName, Some(file), Some(data), parse) == Analysed(FellBack(FallbackRecord(foodName)))
    ensures AnalyzeByImage(foodName, Some(file), Some(data), parse).analysis.record[FoodName] == Str(foodName)
  {
  }

  /** The default shown name when neither the text field nor a file name
      gives one. */
  const DefaultDisplayName := "Ovqat"

  /** `foodName || (file?.name.split('.')[0] || "Ovqat")`: the name passed to
      the result view. */
  function DisplayName(foodName: string, file: Option<ImageFile>): (r: string)
    ensures |r| > 0
    ensures foodName != [] ==> r == foodName
    ensures foodName == [] && file.None? ==> r == DefaultDisplayName
    ensures foodName == [] && file.Some? && Split(file.value.name, '.')[0] != [] ==> r == Split(file.value.name, '.')[0]
    ensures foodName == [] && file.Some? && r != DefaultDisplayName ==>
      |r| <= |file.value.name| && r == file.value.name[..|r|] && '.' !in r && (|r| == |file.value.name| || file.value.name[|r|] == '.')
  {
    if foodName != [] then foodName
    else if file.None? then DefaultDisplayName
    else
      var stem := Split(file.value.name, '.')[0];
      SplitFirstPiece(file.value.name, '.');
      if stem != [] then stem else DefaultDisplayName
  }

  /** With an empty text field, the stem before the first dot names the
      result when it is not empty. */
  lemma DisplayNameStem(name: string, i: nat)
    requires 0 < i <= |name| && '.' !in name[..i] && (i == |name| || name[i] == '.')
    ensures DisplayName("", Some(ImageFile(name))) == name[..i]
  {
    SplitFirstPiece(name, '.');
  }

  /** A file name that starts with a dot (or is empty) has an empty stem,
      so the default name is shown. */
  lemma DisplayNameDotFile(name: string)
    requires name == [] || name[0] == '.'
    ensures DisplayName("", Some(ImageFile(name))) == DefaultDisplayName
  {
    SplitFirstPiece(name, '.');
  }
}
