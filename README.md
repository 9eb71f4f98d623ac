# Pantry-photo ingredient extraction, modelled in Dafny

The service takes a photo of a pantry, asks a vision-capable text model for
the ingredients it shows, and answers with those ingredients plus a
placeholder recipe. All of its decision logic is in `app.py`:

- `generate_prompt` wraps the rendering of the image-data dictionary in a
  fixed instruction text;
- `analyze_image` returns early, in a fixed order: no image (400), empty
  model reply (500), no JSON list span in the reply (500), a span that does
  not decode (500), and otherwise 200 with the decoded list passed through
  unchanged;
- the span is found with `re.search(r"\[.*\]", text, re.DOTALL)`, a greedy
  pattern: it runs from the first `[` of the whole reply to its last `]`,
  provided some `[` comes before some `]`;
- `get_recipes` returns one fixed record exactly when "Chicken", "Rice" and
  "Soy Sauce" are all elements of the list.

Everything here is pure and written as functions and lemmas in module `App`
(`app.dfy`). Module `JsonValue` (`json.dfy`) holds the values `json.loads`
returns, and module `Wrappers` (`wrappers.dfy`) holds `Option`.

Three things outside the model are parameters of `App.AnalyzeImage`:
- `render` stands for Python's rendering of the image-data dictionary;
- `generate` stands for the Gemini call, `model.generate_content(...).text`;
- `parse` stands for `json.loads` on the extracted span, with `None` for a
  `JSONDecodeError`.

Because they are parameters, the model can state that a request without
an image never reaches the model, the renderer or the decoder. It can
also state that an empty reply never reaches the decoder.

Details of that behaviour that the model keeps:
- the list span runs from the first `[` of the whole reply to its last `]`,
  as the greedy pattern gives it, even when the reply holds several lists;
- an empty reply is caught, but a reply of only whitespace is not, so it
  gets the "Could not extract JSON list" error;
- the decoded list is returned exactly as decoded: `?` markers, duplicates
  and spacing are kept;
- the answer carries one `recipe` field, the fixed record or null.

## Model

| member | source | states |
|---|---|---|
| App.GeneratePrompt | app.py:21-36 | the prompt is the fixed template head, then the rendering of the image data, then the fixed template tail; the rendering sits at the offset where `{image_data}` stands |
| App.PromptDeterminedByRendering | app.py:21-28 | two prompts are equal exactly when the two renderings are equal, so equal image data gives equal prompts and the rendering can be read back from the prompt |
| App.PromptAsksForJsonList | app.py:28 | every prompt holds the whole sentence "Give me a response in the form of a JSON list.", whatever the rendering |
| App.PromptNamesUncertaintyMarker | app.py:25-26 | every prompt holds the whole instruction "marked with a `?` at the end of the ingredient.", whatever the rendering |
| App.PromptAsksForNoRepeats | app.py:26 | every prompt holds the sentence "Make sure there are no repeated ingredients.", whatever the rendering |
| App.PromptAsksForEmptyList | app.py:35 | every prompt holds the instruction "return an empty list." for when nothing is detected, whatever the rendering |
| App.FirstIndexOf | app.py:70 | gives the index of the first occurrence of a character, or none when it does not occur |
| App.LastIndexOf | app.py:70 | gives the index of the last occurrence of a character, or none when it does not occur |
| App.SearchList | app.py:70-71 | the regex search finds a match exactly when some match of `\[.*\]` (DOTALL) exists; the result is a match and covers every other match, so it is the leftmost and, from there, the longest |
| App.MatchedText | app.py:73 | `match.group(0)` is the reply's own characters from the match start on, of length at least 2, opening with `[` and closing with `]` |
| App.ListFoundIffBracketPair | app.py:70-71 | a span is found if and only if some `[` comes before some `]`; newlines in between do not matter |
| App.MatchIsFirstOpenToLastClose | app.py:70-73 | the span found is from index i to index j inclusive exactly when i is the first `[` of the reply, j its last `]`, and i < j |
| App.GetRecipes | app.py:96-105 | returns a recipe exactly when every one of "Chicken", "Rice" and "Soy Sauce" is an element of the list, and that recipe is the fixed "Chicken Fried Rice" record |
| App.RecipesKeepWithMoreItems | app.py:100 | only membership counts: a list holding at least the elements of one that finds the recipe finds the same recipe, whatever else it holds |
| App.RecipesIgnoreOrder | app.py:100 | a reordering of the list finds the same recipe |
| App.UncertainNameDoesNotCount | app.py:100 | "Chicken?" does not stand for "Chicken": without an exact "Chicken" no recipe is found |
| App.AnswerDependsOnlyOnImage | app.py:52-58 | two bodies with the same `image` value get the same answer: the handler reads nothing else from the body, so other keys never change it |
| App.AnalyzeImage | app.py:46-87 | the status is 200, 400 or 500; 400 exactly when the body or its `image` key is missing; 200 exactly when the payload is an analysis, whose recipe is the one found for its ingredients |
| App.MissingImageRejected | app.py:52-53 | without a body or an `image` key the answer is 400 "No image data provided", the same for every renderer, model and decoder |
| App.EmptyReplyRejected | app.py:66-67 | an empty reply is answered 500 "Empty response from Gemini", the same for every decoder |
| App.NoBracketPairRejected | app.py:70-77 | a non-empty reply with no `[` before a `]` is answered 500 with "Could not extract JSON list from response: " followed by the whole reply, the same for every decoder |
| App.WhitespaceReplyFallsThrough | app.py:66-77 | a non-empty reply of only spaces, tabs and newlines gets the extraction error, not the empty-response error |
| App.UndecodableSpanRejected | app.py:72-75 | when the span from the first `[` to the last `]` does not decode, the answer is 500 with "Could not parse JSON response: " followed by the whole reply |
| App.SuccessPassesListThrough | app.py:72-87 | the answer is 200 exactly when there is an image and the span from the reply's first `[` to its last `]` exists and decodes; the decoded list is then returned unchanged, with the recipe found for it |
| App.FencedReplyScenario | app.py:69-87 | a reply with the list inside a markdown fence is answered 200 with that list and, since it names all three ingredients, the "Chicken Fried Rice" record |

## Left out

- Flask routing, static-file serving, CORS and `app.run` (app.py:11-12, 37-43, 107-108): HTTP plumbing.
- Loading the API key, the startup error when it is missing, and configuring the Gemini model (app.py:9, 14-19): process set-up that the handler never changes.
- The Gemini call itself (app.py:63): a network client, modelled as the `generate` parameter that gives the reply text.
- The internals of `json.loads` (app.py:73): modelled as the `parse` parameter. It gives a list because a JSON text that opens with `[` and closes with `]` can only decode to an array.
- Python's rendering of the image-data dictionary inside the f-string (app.py:28): modelled as the `render` parameter.
- `print` logging (app.py:48-64, 79, 93): side effects with no bearing on the answer.
- The two catch-all `except Exception` handlers (app.py:89-94): they answer 500 for failures raised inside foreign calls. Examples are a failing model call, a `request.get_json()` failure, or a decoder error other than `JSONDecodeError`.
- Request bodies that are not JSON objects, and `image` values that are not strings: the body is modelled as a map from keys to strings. Non-object bodies that are empty or falsy (`[]`, `""`, `0`, `false`), or that do not hold `image` (`["x"]`, `"abc"`), are answered 400 "No image data provided" like a body without the key. The rest reach the outer catch-all handler (app.py:92-94): `["image"]` and `"an image"` fail at `data['image']`, and `5` and `true` fail at the `in` test. A non-string `image` value can fail in the logging slice `base64_image[:10]`.
- Serialising the answer with `jsonify`: the answer is modelled as a status and a payload datatype.
- The browser scripts `script.js` and `recipe.js`: UI code, with no logic of its own worth verifying. `recipe.js` asks for a `/recipe-details/<id>` route that `app.py` does not define.
- A real recipe search: `get_recipes` is a placeholder that calls no recipe service (app.py:97-99). Its one membership rule is modelled, and nothing beyond it exists to model.
- Characters are Dafny `char` values compared one by one. Python compares code points the same way, so no Unicode normalisation is involved.
