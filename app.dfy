/** The request-handling core of the pantry-photo service (app.py): the prompt
    sent to the vision model, the greedy extraction of a JSON list from the
    model's free-text reply, the early returns that turn each outcome into an
    HTTP status and body, and the placeholder recipe lookup.

    The vision model, `json.loads` and Python's rendering of the image-data
    dictionary are calls into code outside this model; they are parameters
    here:
    - `render` is the text the f-string in `generate_prompt` puts in place of
      `{image_data}`;
    - `generate` is `model.generate_content([prompt, image_data]).text`;
    - `parse` is `json.loads` applied to the extracted span, `None` standing
      for a `json.JSONDecodeError`. */
module App {
  import opened Wrappers
  import opened JsonValue

  // ------------------------------------------------------------------------
  // Prompt construction (`generate_prompt`)

  /** The image descriptor built by the handler and sent beside the prompt. */
  datatype ImageData = ImageData(mimeType: string, data: string)

  /** The MIME type the handler always claims for the uploaded image. */
  const JpegMimeType: string := "image/jpeg"

  // The template, piece by piece, as the f-string writes it: the
  // instructions about the marker, repeats, the answer's form and the empty
  // answer are whole sentences of their own.
  const Indent: string := "        "
  const PromptIntro: string := "\n        Analyze the ingredients present in this image of a pantry.\n        Please detect all the distinct ingredients or food items in the picture.\n        When you are unsure or there are multiple possibilities, provide those as well,\n"
  const MarkerSentence: string := "marked with a `?` at the end of the ingredient."
  const PromptMarker: string := Indent + MarkerSentence
  const NoRepeatsSentence: string := "Make sure there are no repeated ingredients."
  const PromptNoRepeats: string := " " + NoRepeatsSentence + "\n\n"
  const FormatSentence: string := "Give me a response in the form of a JSON list."
  const PromptFormat: string := Indent + FormatSentence + " Here is the image data "
  const PromptExample: string := "\n\n        For example:\n        [\n        \"ingredient 1\", \"ingredient 2\", \"ingredient 3\", \"possible ingredient?\",...\n        ]\n\n"
  const EmptySentence: string := "return an empty list."
  const PromptEmpty: string := Indent + "If no ingredients are found or nothing is detectable, " + EmptySentence + "\n" + Indent

  /** The template text before the `{image_data}` placeholder. */
  const PromptHead: string := PromptIntro + PromptMarker + PromptNoRepeats + PromptFormat

  /** The template text after the `{image_data}` placeholder. */
  const PromptTail: string := PromptExample + PromptEmpty

  /** `t` occurs in `s` starting at index `k`. */
  ghost predicate OccursAt(s: string, t: string, k: int)
  {
    0 <= k && k + |t| <= |s| && s[k..k + |t|] == t
  }

  /** `t` occurs somewhere in `s`. */
  ghost predicate Contains(s: string, t: string)
  {
    exists k :: OccursAt(s, t, k)
  }

  /** The instruction text for the vision model: the fixed template with the
      rendering of the image data in place of the placeholder. */
  function GeneratePrompt(image: ImageData, render: ImageData -> string): (p: string)
    ensures |p| == |PromptHead| + |render(image)| + |PromptTail|
    ensures OccursAt(p, PromptHead, 0)
    ensures OccursAt(p, render(image), |PromptHead|)
    ensures OccursAt(p, PromptTail, |PromptHead| + |render(image)|)
  {
    PromptHead + render(image) + PromptTail
  }

  /** Prompts are equal exactly when the renderings of the image data are:
      the prompt depends on the image data only through its rendering, and
      no two renderings give the same prompt. */
  lemma PromptDeterminedByRendering(a: ImageData, b: ImageData, render: ImageData -> string)
    ensures GeneratePrompt(a, render) == GeneratePrompt(b, render) <==> render(a) == render(b)
  {
  }

  /** A piece of one part of a concatenation is a piece of the whole, at
      the offset of that part. */
  lemma OccursInConcat(a: string, b: string, t: string, k: int)
    ensures OccursAt(a, t, k) ==> OccursAt(a + b, t, k)
    ensures OccursAt(b, t, k) ==> OccursAt(a + b, t, |a| + k)
  {
  }

  /** A piece set between two others occurs at the end of the first. */
  lemma OccursBetween(a: string, t: string, b: string)
    ensures OccursAt(a + t + b, t, |a|)
  {
  }

  /** What the template head holds, every prompt holds at the same place. */
  lemma HeadInPrompt(image: ImageData, render: ImageData -> string, t: string, k: int)
    requires OccursAt(PromptHead, t, k)
    ensures Contains(GeneratePrompt(image, render), t)
  {
    OccursInConcat(PromptHead, render(image), t, k);
    OccursInConcat(PromptHead + render(image), PromptTail, t, k);
  }

  /** What the template tail holds, every prompt holds after the rendering. */
  lemma TailInPrompt(image: ImageData, render: ImageData -> string, t: string, k: int)
    requires OccursAt(PromptTail, t, k)
    ensures Contains(GeneratePrompt(image, render), t)
  {
    OccursInConcat(PromptHead + render(image), PromptTail, t, k);
  }

  /** The prompt asks for uncertain items to be marked with a trailing `?`. */
  lemma PromptNamesUncertaintyMarker(image: ImageData, render: ImageData -> string)
    ensures Contains(GeneratePrompt(image, render), MarkerSentence)
  {
    var t := MarkerSentence;
    OccursBetween(Indent, t, "");
    assert Indent + t + "" == PromptMarker;
    OccursInConcat(PromptIntro, PromptMarker, t, |Indent|);
    OccursInConcat(PromptIntro + PromptMarker, PromptNoRepeats, t, |PromptIntro| + |Indent|);
    OccursInConcat(PromptIntro + PromptMarker + PromptNoRepeats, PromptFormat, t, |PromptIntro| + |Indent|);
    HeadInPrompt(image, render, t, |PromptIntro| + |Indent|);
  }

  /** The prompt asks for no repeated ingredients. */
  lemma PromptAsksForNoRepeats(image: ImageData, render: ImageData -> string)
    ensures Contains(GeneratePrompt(image, render), NoRepeatsSentence)
  {
    var t, before := NoRepeatsSentence, PromptIntro + PromptMarker;
    OccursBetween(" ", t, "\n\n");
    OccursInConcat(before, PromptNoRepeats, t, 1);
    OccursInConcat(before + PromptNoRepeats, PromptFormat, t, |before| + 1);
    HeadInPrompt(image, render, t, |before| + 1);
  }

  /** The prompt asks for the answer in the form of a JSON list. */
  lemma PromptAsksForJsonList(image: ImageData, render: ImageData -> string)
    ensures Contains(GeneratePrompt(image, render), FormatSentence)
  {
    var t, before := FormatSentence, PromptIntro + PromptMarker + PromptNoRepeats;
    OccursBetween(Indent, t, " Here is the image data ");
    OccursInConcat(before, PromptFormat, t, |Indent|);
    HeadInPrompt(image, render, t, |before| + |Indent|);
  }

  /** The prompt asks for an empty list when nothing is detected. */
  lemma PromptAsksForEmptyList(image: ImageData, render: ImageData -> string)
    ensures Contains(GeneratePrompt(image, render), EmptySentence)
  {
    var t := EmptySentence;
    var lead := Indent + "If no ingredients are found or nothing is detectable, ";
    OccursBetween(lead, t, "\n");
    OccursInConcat(lead + t + "\n", Indent, t, |lead|);
    OccursInConcat(PromptExample, PromptEmpty, t, |lead|);
    TailInPrompt(image, render, t, |PromptExample| + |lead|);
  }

  // ------------------------------------------------------------------------
  // JSON list extraction (`re.search(r"\[.*\]", text, re.DOTALL)`)

  /** The span of a match, as Python's `Match.span()`: `start` inclusive,
      `end` exclusive. */
  datatype Span = Span(start: nat, end: nat)

  /** The index of the first occurrence of `c` in `s`, if there is one. */
  function FirstIndexOf(s: string, c: char): (r: Option<nat>)
    ensures r.Some? ==> r.value < |s| && s[r.value] == c
    ensures forall k :: 0 <= k < |s| && (r.None? || k < r.value) ==> s[k] != c
  {
    if s == [] then None
    else if s[0] == c then Some(0)
    else
      match FirstIndexOf(s[1..], c)
      case None => None
      case Some(i) => Some(i + 1)
  }

  /** The index of the last occurrence of `c` in `s`, if there is one. */
  function LastIndexOf(s: string, c: char): (r: Option<nat>)
    ensures r.Some? ==> r.value < |s| && s[r.value] == c
    ensures forall k :: 0 <= k < |s| && (r.None? || r.value < k) ==> s[k] != c
  {
    if s == [] then None
    else if s[|s| - 1] == c then Some(|s| - 1)
    else LastIndexOf(s[..|s| - 1], c)
  }

  /** `s[i..k]` is a match of the pattern `\[.*\]` under DOTALL: it opens
      with `[`, closes with a later `]`, and since `.` matches every
      character, newlines included, anything may lie between. */
  ghost predicate IsMatch(s: string, i: int, k: int)
  {
    0 <= i && i + 2 <= k <= |s| && s[i] == '[' && s[k - 1] == ']'
  }

  /** The regex search: Python returns the leftmost match, and the greedy
      `.*` makes it the longest one from there. The result is a match, there
      is one exactly when some match exists, and it covers every other
      match. */
  function SearchList(text: string): (r: Option<Span>)
    ensures r.Some? <==> exists i, k :: IsMatch(text, i, k)
    ensures r.Some? ==> IsMatch(text, r.value.start, r.value.end)
    ensures r.Some? ==> forall i, k :: IsMatch(text, i, k) ==> r.value.start <= i && k <= r.value.end
  {
    match (FirstIndexOf(text, '['), LastIndexOf(text, ']'))
    case (Some(i), Some(j)) =>
      if i < j then
        assert IsMatch(text, i, j + 1);
        Some(Span(i, j + 1))
      else None
    case _ => None
  }

  /** The matched text, as `match.group(0)`: a contiguous piece of the text
      that opens with `[` and closes with `]`. */
  function MatchedText(text: string, m: Span): (span: string)
    requires IsMatch(text, m.start, m.end)
    ensures |span| == m.end - m.start >= 2
    ensures OccursAt(text, span, m.start)
    ensures span[0] == '[' && span[|span| - 1] == ']'
  {
    text[m.start..m.end]
  }

  /** `i` is the first `[` of the text, `j` its last `]`, and `i` comes first. */
  ghost predicate FirstOpenLastClose(text: string, i: int, j: int)
  {
    && 0 <= i < j < |text|
    && text[i] == '[' && text[j] == ']'
    && (forall k :: 0 <= k < i ==> text[k] != '[')
    && (forall k :: j < k < |text| ==> text[k] != ']')
  }

  /** A match exists exactly when some `[` comes before some `]`. */
  lemma ListFoundIffBracketPair(text: string)
    ensures SearchList(text).Some? <==>
      exists i, j :: 0 <= i < j < |text| && text[i] == '[' && text[j] == ']'
  {
  }

  /** The match runs from the first `[` of the whole text to its last `]`,
      and only such a pair of indices is the match. */
  lemma MatchIsFirstOpenToLastClose(text: string, i: nat, j: nat)
    ensures SearchList(text) == Some(Span(i, j + 1)) <==> FirstOpenLastClose(text, i, j)
  {
  }

  // ------------------------------------------------------------------------
  // Placeholder recipe lookup (`get_recipes`)

  /** The record the handler returns under the `recipe` key. */
  datatype Recipe = Recipe(title: string, description: string)

  /** The one record `get_recipes` knows. */
  const ChickenFriedRice: Recipe :=
    Recipe("Chicken Fried Rice", "Combine the ingredients and fry in a wok, delicious!")

  /** The names that must all be in the list for that record. */
  const FriedRiceIngredients: set<string> := {"Chicken", "Rice", "Soy Sauce"}

  /** The recipe for a parsed ingredient list: the fixed record exactly when
      each of the three names is an element of the list, compared as exact
      strings; otherwise none. */
  function GetRecipes(ingredients: seq<Json>): (r: Option<Recipe>)
    ensures r.Some? <==> forall name :: name in FriedRiceIngredients ==> JString(name) in ingredients
    ensures r.Some? ==> r.value == ChickenFriedRice
  {
    if JString("Chicken") in ingredients && JString("Rice") in ingredients && JString("Soy Sauce") in ingredients
    then Some(ChickenFriedRice)
    else None
  }

  /** Only membership matters: a list with at least the elements of another
      (in any order, with anything else besides) finds whatever that one
      finds. */
  lemma RecipesKeepWithMoreItems(xs: seq<Json>, ys: seq<Json>)
    requires forall x :: x in xs ==> x in ys
    ensures GetRecipes(xs).Some? ==> GetRecipes(ys) == GetRecipes(xs)
  {
  }

  /** Reordering the list does not change the recipe found. */
  lemma RecipesIgnoreOrder(xs: seq<Json>, ys: seq<Json>)
    requires multiset(xs) == multiset(ys)
    ensures GetRecipes(xs) == GetRecipes(ys)
  {
    forall x | x in xs ensures x in ys {
      assert x in multiset(xs);
    }
    forall y | y in ys ensures y in xs {
      assert y in multiset(ys);
    }
    RecipesKeepWithMoreItems(xs, ys);
    RecipesKeepWithMoreItems(ys, xs);
  }

  /** A name carrying the uncertainty marker does not stand for the name
      itself: without an exact "Chicken" there is no recipe. */
  lemma UncertainNameDoesNotCount(xs: seq<Json>)
    requires JString("Chicken") !in xs
    ensures GetRecipes(xs + [JString("Chicken?")]) == None
  {
  }

  // ------------------------------------------------------------------------
  // The `/analyze-image` handler (`analyze_image`)

  /** The decoded JSON body of the request: its keys and their string values. */
  type RequestBody = map<string, string>

  /** What the handler sends back as JSON. */
  datatype Payload =
    | Error(message: string)
    | Analysis(ingredients: seq<Json>, recipe: Option<Recipe>)

  /** An HTTP status with its JSON payload. */
  datatype Response = Response(status: nat, payload: Payload)

  const NoImageMessage: string := "No image data provided"
  const EmptyReplyMessage: string := "Empty response from Gemini"
  const NoListPrefix: string := "Could not extract JSON list from response: "
  const NotParsedPrefix: string := "Could not parse JSON response: "

  /** There is a body and it has an `image` key (an empty body has none). */
  predicate HasImage(body: Option<RequestBody>)
  {
    body.Some? && "image" in body.value
  }

  /** The image descriptor built from the request. */
  function ImageOf(body: Option<RequestBody>): (image: ImageData)
    requires HasImage(body)
    ensures image.mimeType == JpegMimeType && image.data == body.value["image"]
  {
    ImageData(JpegMimeType, body.value["image"])
  }

  /** The vision model's reply text for the request's prompt and image. */
  function Reply(body: Option<RequestBody>, render: ImageData -> string,
                 generate: (string, ImageData) -> string): string
    requires HasImage(body)
  {
    var image := ImageOf(body);
    generate(GeneratePrompt(image, render), image)
  }

  /** The handler's early returns, in their order: no image (400), empty
      reply (500), no list span (500), span not decodable (500), and
      otherwise 200 with the decoded list and its recipe. */
  function AnalyzeImage(body: Option<RequestBody>, render: ImageData -> string,
                        generate: (string, ImageData) -> string,
                        parse: string -> Option<seq<Json>>): (r: Response)
    ensures r.status in {200, 400, 500}
    ensures r.status == 400 <==> !HasImage(body)
    ensures r.status == 200 <==> r.payload.Analysis?
    ensures r.payload.Analysis? ==> r.payload.recipe == GetRecipes(r.payload.ingredients)
  {
    if !HasImage(body) then Response(400, Error(NoImageMessage))
    else
      var text := Reply(body, render, generate);
      if text == "" then Response(500, Error(EmptyReplyMessage))
      else
        match SearchList(text)
        case None => Response(500, Error(NoListPrefix + text))
        case Some(m) =>
          match parse(MatchedText(text, m))
          case None => Response(500, Error(NotParsedPrefix + text))
          case Some(ingredients) => Response(200, Analysis(ingredients, GetRecipes(ingredients)))
  }

  /** A request without a body or without an `image` key is answered 400
      whatever the prompt renderer, the model and the decoder would do: the
      handler returns before building a prompt or calling the model. */
  lemma MissingImageRejected(body: Option<RequestBody>,
                             render: ImageData -> string, generate: (string, ImageData) -> string,
                             parse: string -> Option<seq<Json>>,
                             render': ImageData -> string, generate': (string, ImageData) -> string,
                             parse': string -> Option<seq<Json>>)
    requires !HasImage(body)
    ensures AnalyzeImage(body, render, generate, parse) == Response(400, Error(NoImageMessage))
    ensures AnalyzeImage(body, render, generate, parse) == AnalyzeImage(body, render', generate', parse')
  {
  }

  /** The handler reads the body only through its `image` value: two bodies
      with the same image get the same answer, whatever other keys (such as
      recipe filters) they carry. */
  lemma AnswerDependsOnlyOnImage(b1: Option<RequestBody>, b2: Option<RequestBody>,
                                 render: ImageData -> string, generate: (string, ImageData) -> string,
                                 parse: string -> Option<seq<Json>>)
    requires HasImage(b1) && HasImage(b2) && b1.value["image"] == b2.value["image"]
    ensures AnalyzeImage(b1, render, generate, parse) == AnalyzeImage(b2, render, generate, parse)
  {
  }

  /** An empty reply is answered 500 with the empty-response message, and the
      decoder is never consulted. */
  lemma EmptyReplyRejected(body: Option<RequestBody>, render: ImageData -> string,
                           generate: (string, ImageData) -> string,
                           parse: string -> Option<seq<Json>>, parse': string -> Option<seq<Json>>)
    requires HasImage(body) && Reply(body, render, generate) == ""
    ensures AnalyzeImage(body, render, generate, parse) == Response(500, Error(EmptyReplyMessage))
    ensures AnalyzeImage(body, render, generate, parse) == AnalyzeImage(body, render, generate, parse')
  {
  }

  /** A non-empty reply in which no `[` comes before a `]` is answered 500
      with the extraction message followed by the whole reply, and the
      decoder is never consulted. */
  lemma NoBracketPairRejected(body: Option<RequestBody>, render: ImageData -> string,
                              generate: (string, ImageData) -> string,
                              parse: string -> Option<seq<Json>>, parse': string -> Option<seq<Json>>)
    requires HasImage(body)
    requires var text := Reply(body, render, generate);
      && text != ""
      && forall i, j :: 0 <= i < j < |text| ==> !(text[i] == '[' && text[j] == ']')
    ensures var text := Reply(body, render, generate);
      AnalyzeImage(body, render, generate, parse) == Response(500, Error(NoListPrefix + text))
    ensures AnalyzeImage(body, render, generate, parse) == AnalyzeImage(body, render, generate, parse')
  {
  }

  /** Whitespace is a character like any other for the emptiness test: a
      reply of only spaces, tabs and newlines is not the empty reply, and is
      answered with the extraction message instead. */
  lemma WhitespaceReplyFallsThrough(body: Option<RequestBody>, render: ImageData -> string,
                                    generate: (string, ImageData) -> string,
                                    parse: string -> Option<seq<Json>>)
    requires HasImage(body)
    requires var text := Reply(body, render, generate);
      text != "" && forall k :: 0 <= k < |text| ==> text[k] in {' ', '\t', '\n', '\r'}
    ensures var text := Reply(body, render, generate);
      AnalyzeImage(body, render, generate, parse) == Response(500, Error(NoListPrefix + text))
  {
  }

  /** When the span from the first `[` to the last `]` does not decode, the
      answer is 500 with the decode message followed by the whole reply. */
  lemma UndecodableSpanRejected(body: Option<RequestBody>, render: ImageData -> string,
                                generate: (string, ImageData) -> string,
                                parse: string -> Option<seq<Json>>, i: nat, j: nat)
    requires HasImage(body)
    requires var text := Reply(body, render, generate);
      FirstOpenLastClose(text, i, j) && parse(text[i..j + 1]).None?
    ensures var text := Reply(body, render, generate);
      AnalyzeImage(body, render, generate, parse) == Response(500, Error(NotParsedPrefix + text))
  {
  }

  /** The answer is 200 exactly when there is an image, the reply has a `[`
      before a `]`, and the span from its first `[` to its last `]` decodes;
      the decoded list is then returned unchanged (markers, duplicates and
      spacing kept) with the recipe found for it. */
  lemma SuccessPassesListThrough(body: Option<RequestBody>, render: ImageData -> string,
                                 generate: (string, ImageData) -> string,
                                 parse: string -> Option<seq<Json>>)
    ensures var r := AnalyzeImage(body, render, generate, parse);
      r.status == 200 <==>
        && HasImage(body)
        && exists i, j :: FirstOpenLastClose(Reply(body, render, generate), i, j)
                       && parse(Reply(body, render, generate)[i..j + 1]).Some?
    ensures var r := AnalyzeImage(body, render, generate, parse);
      forall i, j ::
        (HasImage(body) && FirstOpenLastClose(Reply(body, render, generate), i, j)
         && parse(Reply(body, render, generate)[i..j + 1]).Some?) ==>
        r == Response(200, Analysis(parse(Reply(body, render, generate)[i..j + 1]).value,
                                    GetRecipes(parse(Reply(body, render, generate)[i..j + 1]).value)))
  {
    if HasImage(body) {
      var text := Reply(body, render, generate);
      forall i, j | FirstOpenLastClose(text, i, j) ensures SearchList(text) == Some(Span(i, j + 1)) {
        MatchIsFirstOpenToLastClose(text, i, j);
      }
      if AnalyzeImage(body, render, generate, parse).status == 200 {
        var m := SearchList(text).value;
        MatchIsFirstOpenToLastClose(text, m.start, m.end - 1);
      }
    }
  }

  /** A reply in which the model wrapped its list in a markdown fence. */
  const FencedReply: string := "```json\n" + FencedList + "\n```"

  /** The list inside that fence. */
  const FencedList: string := "[\"Chicken\", \"Rice\", \"Soy Sauce\"]"

  /** The fence's first `[` and last `]` enclose exactly the list. */
  lemma FencedReplyBrackets()
    ensures FirstOpenLastClose(FencedReply, 8, 39)
    ensures FencedReply[8..40] == FencedList
  {
  }

  /** For a fenced reply the span is the list inside the fence, which is
      decoded and returned; it names all three fried-rice ingredients, so the
      placeholder recipe comes with it. */
  lemma FencedReplyScenario(body: Option<RequestBody>, render: ImageData -> string,
                            generate: (string, ImageData) -> string,
                            parse: string -> Option<seq<Json>>)
    requires HasImage(body) && Reply(body, render, generate) == FencedReply
    requires parse(FencedList) == Some([JString("Chicken"), JString("Rice"), JString("Soy Sauce")])
    ensures AnalyzeImage(body, render, generate, parse) ==
      Response(200, Analysis([JString("Chicken"), JString("Rice"), JString("Soy Sauce")], Some(ChickenFriedRice)))
  {
    FencedReplyBrackets();
    MatchIsFirstOpenToLastClose(FencedReply, 8, 39);
    var items := [JString("Chicken"), JString("Rice"), JString("Soy Sauce")];
    assert items[0] == JString("Chicken") && items[1] == JString("Rice") && items[2] == JString("Soy Sauce");
  }
}
