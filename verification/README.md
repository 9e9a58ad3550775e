# Swagger 1.2 to Swagger 2.0 conversion, modelled in Dafny

This project models `convert_swagger_12_to_20` in `SwaggerConvert.py` and proves what it does. The function takes the URL of a Swagger 1.2 resource listing (`.../api-docs`). It reads the listing and then fetches the API declaration of every controller the listing references. From these it builds one Swagger 2.0 document:

- a `tags` list, with one tag per distinct controller name;
- a `paths` table, keyed by URL template and then by lower-cased HTTP method;
- a `definitions` table translated from the listing's `models`;
- the header fields `swagger`, `info`, `host`, `basePath` and `schemes`.

The model is functional. The Swagger 1.2 input and the Swagger 2.0 output are immutable datatypes. Every conversion rule is a pure function whose contract states the rule, and lemmas relate the whole conversion to independent reference definitions.

Modules, one per file:

- `Wrappers` (`wrappers.dfy`): `Option`. It stands for JSON keys that may be missing or null, and for the empty result `{}`.
- `Text` (`text.dfy`): the string operations the converter uses: `endswith`, `split("/")[-1]`, `replace(pat, "")`, `rstrip("/")` and ASCII `lower()`.
- `Seqs` (`seqs.dfy`): indexing into concatenations, and a flat map over a sequence with the position of each element in it.
- `Decimal` (`decimal.dfy`): `str(int)`. A response code becomes its key through it, and it is proved injective.
- `Table` (`table.dfy`): filling a JSON object key by key, where a later key overwrites an earlier one.
- `Swagger12` (`swagger12.dfy`) and `Swagger20` (`swagger20.dfy`): the input and output documents. `Swagger20` also holds the `paths` insertion and the final clean-up sweep.
- `Translate` (`translate.dfy`): translation of parameters, responses, operations, properties and models.
- `Tags` (`tags.dfy`): the tag name of a controller path, and an independent reference definition of the tag list ("the first tag of each name, in order").
- `Convert` (`convert.dfy`): the loop over the listing and the whole conversion.

The network is abstracted:

- The root listing is an input: `Some(listing)`, or `None` when its fetch failed.
- The per-controller fetch is a `Resolver`, a function from a controller path to an optional declaration. `None` stands for the `{}` that `fetch_api_details` returns on failure.
- `urlparse` is not modelled. The URL is given together with its scheme, netloc and path.

The source's single loop over `input_data["apis"]` does two things per controller reference. It records the tag, then inserts the operations of the fetched declaration. The model splits this in two steps:

- `Convert.Items` pairs each reference with its tag and with the insertions its declaration makes.
- `Convert.Loop` folds `Convert.Step` over these items. `Step` first records the tag (`RecordTag`) and then performs the insertions (`InsertEntries`).

The result is the same as the source's loop, because a fetch does not read or change the loop's state. `Convert.Contributions` lists all insertions of the listing, reference by reference, as a flat map of `Convert.ControllerEntries`; the lemmas about where a given operation lands are stated against it.

Some details of the code that are easy to get wrong:

- A response with no model has `"schema": null` (`schemaRef == None`). The key is not omitted.
- A model with no required property has `"required": null` (`required == None`). The key is not omitted.
- The clean-up sweep touches neither of these.
- `basePath` is the whole URL path, of which only trailing '/' characters are cut; nothing else is removed from it.
- A parameter's `format` is carried whenever the key is present, even with the value null. A property's `format` is carried only when it is a non-empty string.
- Every occurrence of `-controller` in the last path segment is removed, not only a trailing one.
- `definitions` come from the root listing's `models`, not from the declarations.

## Model

| member | source | states |
|---|---|---|
| Text.EndsWithAppend | SwaggerConvert.py:22 | every URL of the form `a + "api-docs"` passes the URL check |
| Text.EndsWithSplit | SwaggerConvert.py:22 | a URL that passes the URL check is some string followed by "api-docs" |
| Text.LastSegment | SwaggerConvert.py:61 | the result is a suffix of the input that holds no '/', and it is either the whole input or preceded by a '/', which is what `split("/")[-1]` returns |
| Text.LastSegmentAfterSlash | SwaggerConvert.py:61 | for `a + "/" + b`, where `b` has no '/', the last segment is `b`, whatever `a` holds |
| Text.RemoveAll | SwaggerConvert.py:61 | `replace(pat, "")` never makes a string longer |
| Text.RemoveAllKeepsChars | SwaggerConvert.py:61 | deleting occurrences never introduces a character that was not in the input |
| Text.RemoveAllAbsent | SwaggerConvert.py:61 | a string without any occurrence of the pattern is returned unchanged |
| Text.RemoveAllSplices | SwaggerConvert.py:61 | for a pattern whose occurrences cannot overlap, an occurrence is deleted wherever it sits: everything before the first occurrence is kept and the scan resumes right after it |
| Text.RstripSlash | SwaggerConvert.py:29 | `rstrip('/')` returns a prefix of the input that does not end in '/', and only '/' characters were cut |
| Text.ToLower | SwaggerConvert.py:77 | lower-casing keeps the length, leaves no upper-case ASCII letter, keeps every other character in place, and maps 'A'..'Z' to 'a'..'z' |
| Text.ToLowerFixesLower | SwaggerConvert.py:87 | a type name already in lower case is emitted unchanged |
| Decimal.NatToDecimal | SwaggerConvert.py:96 | `str(n)` of a natural number is a non-empty string of decimal digits with no leading zero; it starts with '0' only for 0 |
| Decimal.NatToDecimalUnique | SwaggerConvert.py:96 | every digit string without a leading zero that denotes `n` is `str(n)`, so the rendering is the canonical one |
| Decimal.IntToDecimal | SwaggerConvert.py:96 | `str(code)` starts with '-' exactly for a negative code; the digits that follow have no leading zero, and "-0" never occurs |
| Decimal.NatToDecimalRoundTrip | SwaggerConvert.py:96 | reading the digits of `str(n)` back gives `n` |
| Decimal.DecimalRoundTrip | SwaggerConvert.py:96 | `str(n)` of any integer, sign included, parses back to `n` |
| Decimal.DecimalInjective | SwaggerConvert.py:96 | two response codes share a `responses` key only when they are equal, so a duplicate key arises exactly from a duplicate code |
| Table.Assign | SwaggerConvert.py:97 | after assigning a sequence of keys, the last key assigned is present, and there are no more keys than assignments |
| Table.AssignKeys | SwaggerConvert.py:131 | the keys of an object filled key by key are exactly the keys assigned |
| Table.AssignLastWins | SwaggerConvert.py:97 | each key holds the value of its last assignment: a later duplicate overwrites an earlier one |
| Swagger20.Insert | SwaggerConvert.py:114-116 | inserting creates the path's table when it is missing, sets `paths[path][method]`, and leaves every other (path, method) entry unchanged |
| Swagger20.InsertAll | SwaggerConvert.py:113-116 | a run of insertions never removes a path |
| Swagger20.InsertAllWritten | SwaggerConvert.py:113-116 | after a run of insertions every inserted (path, method) is set, and it holds the inserted operation unless a later insertion is bound for the same (path, method) |
| Swagger20.InsertAllKeys | SwaggerConvert.py:113-116 | after a run of insertions the paths are exactly the earlier paths and the paths inserted into: no other path, and so no empty method table, appears |
| Swagger20.LastWriter | SwaggerConvert.py:113-116 | finds the last insertion bound for (path, method), or reports that none is |
| Swagger20.InsertAllLastWriteWins | SwaggerConvert.py:113-116 | after a run of insertions, each (path, method) holds the operation of the last insertion bound for it, or what it held before when there was none |
| Swagger20.InsertAllAppend | SwaggerConvert.py:74-116 | inserting the operations of one declaration after another is inserting their concatenation |
| Swagger20.CleanOperation | SwaggerConvert.py:143-146 | after the sweep an operation has neither an empty `responses` nor an empty `parameters` key; a non-empty key is kept as it was, and no other field changes |
| Swagger20.CleanOperationKeepsTidy | SwaggerConvert.py:140-146 | an operation that already satisfies the sweep passes it unchanged, so the sweep is idempotent |
| Swagger20.Cleanup | SwaggerConvert.py:141-146 | the sweep keeps every path and every method, replaces each operation by its cleaned form, and leaves every operation with no empty `responses` or `parameters` key |
| Translate.TranslateParameter | SwaggerConvert.py:82-90 | `in` is `paramType` and `required` is copied; a missing description reads as ""; `type` is the ASCII lower-casing of the given type, or "string" when it is missing, so it is lower case and unchanged when already lower case; `format` is present exactly when the source has the key, and has its value, null included |
| Translate.TranslateParameters | SwaggerConvert.py:81-91 | one translated parameter per source parameter, in source order |
| Translate.TranslateResponse | SwaggerConvert.py:97-100 | the description is the message, or "No description" when the message is null or empty, so it is never empty; the schema is a reference to "#/definitions/" + model exactly when the response model is a non-empty string, and null otherwise |
| Translate.ResponseAssignments | SwaggerConvert.py:95-97 | the response loop assigns, in message order, `str(code)` to the translated message |
| Translate.TranslateResponsesKeys | SwaggerConvert.py:94-100 | the `responses` keys are exactly the decimal forms of the messages' codes |
| Translate.TranslateResponsesLastWins | SwaggerConvert.py:94-100 | each code's entry is the translation of the last message with that code |
| Translate.TranslateResponses | SwaggerConvert.py:94-100 | there are no more responses than messages, and `responses` is empty exactly when there are no response messages |
| Translate.TranslateOperation | SwaggerConvert.py:103-111 | the operation's `tags` is exactly `[tag]`; summary, notes (as `description`), `consumes` and `produces` are copied; `parameters` and `responses` are present and hold the translated lists, `responses` being empty exactly when there are no messages |
| Translate.TranslateProperty | SwaggerConvert.py:123-128 | the property type is the ASCII lower-casing of the given type, so it is lower case, of the same length, and unchanged when already lower case; a missing description reads as ""; `format` is carried exactly when it is a non-empty string |
| Translate.RequiredNames | SwaggerConvert.py:121-130 | a name is listed exactly when some property with that name is flagged required; no more names than properties |
| Translate.RequiredNamesAppend | SwaggerConvert.py:122-130 | the required list is built property by property, so it follows the property order |
| Translate.PropertyAssignments | SwaggerConvert.py:122-131 | the property loop assigns, in property order, each name to its translated property |
| Translate.TranslateProperties | SwaggerConvert.py:120-131 | there are no more entries than properties, and `properties` is empty exactly when the model has none |
| Translate.TranslatePropertiesKeys | SwaggerConvert.py:120-131 | the `properties` keys are exactly the property names |
| Translate.TranslatePropertiesLastWins | SwaggerConvert.py:122-131 | each property entry is the translation of the last definition with its name |
| Translate.TranslateModel | SwaggerConvert.py:133-138 | a definition has type "object" and the translated properties; `required` is null exactly when no property is flagged, and is otherwise the non-empty list of flagged names in order; a missing model description reads as "" |
| Translate.TranslateModels | SwaggerConvert.py:119-138 | the definitions have exactly the listing's model names, each holding the translation of its model |
| Tags.TagName | SwaggerConvert.py:61 | the tag name is no longer than the controller path |
| Tags.TagNameOfPlainSegment | SwaggerConvert.py:61 | a last segment without "-controller" is itself the tag name |
| Tags.TagNameOfController | SwaggerConvert.py:61 | ".../x-controller" is tagged "x" |
| Tags.TagNameRemovesEveryOccurrence | SwaggerConvert.py:61 | "-controller" is deleted wherever it occurs in the last segment, not only at its end |
| Tags.TagNameHasNoSlash | SwaggerConvert.py:61 | a tag name never contains '/' |
| Tags.TagOf | SwaggerConvert.py:61-66 | the tag a reference asks for has a name without '/', no longer than the reference's path, and the reference's own description |
| Tags.Candidates | SwaggerConvert.py:59-66 | the references ask for one tag each |
| Tags.CandidatesAt | SwaggerConvert.py:59-66 | the tag the i-th reference asks for is its tag name with its own description |
| Tags.TagNamesMember | SwaggerConvert.py:62-67 | a name is in the name set of a tag list exactly when some tag carries it |
| Tags.NameSetMember | SwaggerConvert.py:58-67 | a name is among the listing's tag names exactly when some controller path yields it |
| Tags.NameSetSnoc | SwaggerConvert.py:67 | one more reference adds its tag name to the set of names seen |
| Tags.IsFirstIffUnseen | SwaggerConvert.py:62 | a tag is the first of its name exactly when its name was not seen before it |
| Tags.FirstTags | SwaggerConvert.py:58-67 | the first tag of each name, in order, has pairwise distinct names and exactly the names of the whole list |
| Tags.FirstTagsExtend | SwaggerConvert.py:62-67 | one more tag extends the list exactly when its name has not been seen, and leaves it unchanged otherwise |
| Tags.FirstTagsHasFirst | SwaggerConvert.py:62-66 | every tag that is the first of its name is kept, description included |
| Tags.FirstTagsFromFirst | SwaggerConvert.py:62-66 | every kept tag is the first tag of its name |
| Tags.DistinctNamesCount | SwaggerConvert.py:62-67 | a tag list with distinct names has as many entries as names |
| Tags.FirstTagsCount | SwaggerConvert.py:58-67 | there are exactly as many kept tags as distinct names |
| Convert.OperationEntries | SwaggerConvert.py:75-77 | each operation of an endpoint is bound, in order, for the endpoint's path and its lower-cased method, and is translated with the controller's tag |
| Convert.EndpointEntries | SwaggerConvert.py:74-104 | a declaration makes one insertion per operation of its endpoints, and every one is tagged with exactly the controller's tag |
| Convert.EndpointEntriesAt | SwaggerConvert.py:74-116 | operation `j` of endpoint `i` is inserted, translated, at the endpoint's path and its lower-cased method, right after the operations of the endpoints before it: every operation of the declaration is inserted, in (endpoint, operation) order |
| Convert.EndpointEntriesFrom | SwaggerConvert.py:74-77 | conversely, every insertion of a declaration sits at the position of some operation `j` of some endpoint `i`: the nested loops insert nothing but the declaration's operations |
| Convert.ControllerEntries | SwaggerConvert.py:71-77 | every insertion of a controller reference is tagged with its tag name alone; a successful fetch inserts exactly one entry per operation of the declaration, and a failed fetch, read as `{}`, inserts none |
| Convert.ControllerEntriesAt | SwaggerConvert.py:70-116 | when the fetch succeeds, every operation of every endpoint of the declaration is among the reference's insertions, translated with the reference's tag name, bound for the endpoint's path and lower-cased method, in (endpoint, operation) order |
| Convert.Items | SwaggerConvert.py:59-71 | one item per controller reference |
| Convert.RecordTag | SwaggerConvert.py:62-67 | recording a tag extends the tag list by at most that tag, leaves the list unchanged exactly when the name was seen already, marks the name seen and does not touch `paths` |
| Convert.Step | SwaggerConvert.py:59-116 | one iteration adds at most one tag, exactly when its name is unseen, marks the name seen, and performs the item's insertions on `paths` |
| Convert.Loop | SwaggerConvert.py:59-116 | the loop adds at most one tag per item |
| Convert.InsertEntries | SwaggerConvert.py:113-116 | inserting operations changes neither the tag list nor the set of seen names |
| Convert.RecordTagExtends | SwaggerConvert.py:62-67 | recording the next tag keeps the tag list equal to the first tags met so far, and the seen set equal to their names |
| Convert.LoopTags | SwaggerConvert.py:58-67 | the loop's tag list is the reference definition of first tags, and its seen set holds every name met; neither depends on the insertions |
| Convert.LoopPaths | SwaggerConvert.py:74-116 | the loop's `paths` table is the result of performing all insertions in order on an empty table |
| Convert.ItemTagsAreCandidates | SwaggerConvert.py:59-66 | the items ask for the references' tags, in listing order |
| Convert.ContributionsSnoc | SwaggerConvert.py:59-116 | the insertions of a listing are those of all but its last reference, followed by those of the last one |
| Convert.ContributionsAreInsertions | SwaggerConvert.py:59-116 | the loop over the items performs exactly the listing's insertions, reference by reference, in listing order |
| Convert.ContributionsAt | SwaggerConvert.py:59-116 | the insertions of reference `i` all happen, in order, right after those of the references before it |
| Convert.FetchedOperationContributed | SwaggerConvert.py:59-116 | every operation of every endpoint of a successfully fetched declaration is inserted, at a known position, translated with the reference's tag name and bound for the endpoint's path and lower-cased method |
| Convert.ContributionFrom | SwaggerConvert.py:59-116 | conversely, every insertion of the listing is that of some operation of some endpoint of a declaration fetched for one of the references, translated with that reference's tag name and bound for the endpoint's path and lower-cased method |
| Convert.ContributionsOrdered | SwaggerConvert.py:59-77 | insertions follow the listing's order: every insertion of a reference comes before every insertion of a later reference, so an insertion that comes after one of a given reference belongs to that reference or a later one |
| Convert.ContributionsTagged | SwaggerConvert.py:61-104 | every insertion carries exactly one tag, the tag name of one of the listing's references |
| Convert.Run | SwaggerConvert.py:58-116 | the loop over the listing yields at most one tag per reference |
| Convert.RunTags | SwaggerConvert.py:58-71 | the loop's tag list is the list of first tags of the listing's references, whatever the fetches return |
| Convert.RunPaths | SwaggerConvert.py:59-116 | the loop's `paths` table is all the listing's insertions performed in order |
| Convert.Convert | SwaggerConvert.py:20-55 | the result is empty exactly when the URL does not end in "api-docs" or the listing fetch failed; otherwise `swagger` is "2.0", `host` is the netloc, `schemes` is `[scheme]`, `basePath` is the path with trailing '/' cut, `info.version` is `apiVersion` or "1.0" and the other `info` keys are kept, and each model becomes the definition of the same name |
| Convert.ConvertTags | SwaggerConvert.py:58-67 | the document's tags are the first tags of the references, with distinct names covering every tag name of the listing, one tag per name |
| Convert.ConvertTagsIgnoreFetches | SwaggerConvert.py:58-71 | two resolvers give the same tag list: tags are recorded before, and whatever the outcome of, each fetch |
| Convert.NoFetchNoContributions | SwaggerConvert.py:16-18 | when every declaration fetch fails, no operation is inserted |
| Convert.ConvertWithoutFetches | SwaggerConvert.py:58-74 | when every declaration fetch fails, the document has no paths but still lists the first tag of every name |
| Convert.ConvertTagsIncludeFirst | SwaggerConvert.py:62-66 | the first reference of every tag name contributes its tag, with its own description |
| Convert.FirstTagsOfCandidates | SwaggerConvert.py:62-66 | every tag of the reference list of first tags is the tag of the first reference with its name |
| Convert.ConvertTagsFromFirst | SwaggerConvert.py:62-66 | every tag of the document is the tag of the first reference with its name, so a later reference with the same name changes nothing |
| Convert.ConvertKeepsInsertion | SwaggerConvert.py:113-146 | every insertion leaves its (path, method) set in the document, and that entry is the insertion's cleaned operation unless a later insertion is bound for the same (path, method) |
| Convert.ConvertInsertsFetchedOperations | SwaggerConvert.py:70-116 | for every successfully fetched declaration, each endpoint's path is a path of the document and holds each of its operations' lower-cased methods; when no later insertion is bound for the same (path, method), the entry is the operation translated with the reference's tag name and cleaned |
| Convert.ConvertOperationsFromDeclarations | SwaggerConvert.py:59-116 | conversely, every (path, method) of the document comes from a fetched declaration: some reference was fetched, one of its endpoints has that path and an operation with that lower-cased method, and the document holds that operation translated with the reference's tag name and cleaned |
| Convert.ConvertPathsLastWriteWins | SwaggerConvert.py:113-146 | each (path, method) of the document holds the cleaned operation of the last insertion bound for it, and is absent when there was none; the document has a path exactly when some insertion was bound for it |
| Convert.ConvertPathsNonEmpty | SwaggerConvert.py:114-116 | no path of the document has an empty method table |
| Convert.ConvertOperationsTaggedAndTidy | SwaggerConvert.py:104-146 | every operation of the document is tagged with exactly one of the listing's tag names, and has no empty `parameters` or `responses` key |

## Left out

- HTTP fetching: `requests.get` and `raise_for_status` for the listing and the declarations, and the exception handling around them. These are network I/O. The listing is an input, and each declaration comes from a resolver function. The URL `base_url + path` that `fetch_api_details` builds is not modelled either: the resolver receives the controller path.
- `urlparse`: its behaviour is library code. The URL's scheme, netloc and path are inputs. Only the `rstrip('/')` of the path is modelled.
- Console and file output: the `print` messages, and the `__main__` block that asks for a URL and writes `swagger.json` with `json.dump`.
- Python's Unicode-aware `lower()`: modelled as ASCII lower-casing.
- `KeyError` crashes on missing mandatory keys, such as an operation without `summary`. Such keys are required fields of the input datatypes, so those inputs cannot be written. JSON values are typed by their expected shape: `info` is a map of strings, `required` is a boolean and `code` is an integer.
- Translate.TranslateResponse: `message` and `responseModel` are read with `resp[...]`, and `None` stands for the value null there. An absent key, on which lines 98-99 raise `KeyError`, is the crash not modelled: the model treats it like null.
- Convert.Convert: a key present with the value null is read as absent, so a null `apiVersion` gives "1.0" here, where the code emits null.
- Translate.TranslateParameter: for the same reason, a null `description` gives "" here, where the code emits null. A null `type` gives "string" here, where line 87 calls `lower()` on null and raises `AttributeError`; that crash is not modelled.
- Translate.TranslateProperty: for the same reason, a null property `description` gives "" here, where line 125 emits null.
- Translate.TranslateModel: for the same reason, a null model `description` gives "" here, where the code emits null. Truthiness tests such as `message or ...` are unaffected, since null and "" are both falsy.
- The in-place aliasing of the input's `info` object, which the code mutates when it sets `version`. The key order of the emitted JSON objects is also left out, since maps are unordered. The order of the `tags` list and of each `required` list is modelled.
- Translate.RequiredNames: a model's properties are a sequence of (name, definition) pairs, so the model also admits a repeated name, which a parsed JSON object cannot hold. The required list then repeats the name, while `properties` keeps its last definition.
