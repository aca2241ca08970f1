# PAMA imaging order support — a Dafny model

This project models the non-visual logic of the PAMA imaging component
(`src/components/Pama/pama.jsx`). That component helps a clinician pick an imaging study
and reasons for it from a fixed terminology, and it takes a PAMA appropriateness rating
from a CDS host. The model covers:

- **Rating extraction** (`actionToRating`), in module `RatingExtractor`. The ratings are
  taken from the `extension` entries of an updated FHIR resource whose `url` is
  `http://fhir.org/argonaut/Extension/pama-rating`. There is one rating per coding of the
  extension's `valueCodeableConcept`, and each carries the resource's `id`. The places
  where the JavaScript would throw a `TypeError` are an explicit `Fault`:
  - an update without `resource`;
  - a rating extension without `valueCodeableConcept`;
  - a `valueCodeableConcept` without a `coding` array.
- **First-wins dispatch** (`dispatchUpdates`), in module `Dispatch`. Extraction is
  flat-mapped over a batch and only the first rating is kept. It becomes one
  `APPLY_PAMA_RATING` action. The store's `dispatch` callback is a `Dispatcher` object
  that records every action it is handed.
- **The trigger handler** (`pamaTriggerHandler`), in module `TriggerHandler`:
  - `onSystemActions` keeps only actions of type `update`;
  - `onMessage` acts only on `scratchpad.update` messages. It reads `payload || {}` as an
    update record, so a message with no payload, or a payload without `resource`, faults
    with `MissingResource` and does not yield an empty result;
  - `generateContext` builds a Bundle holding one draft ServiceRequest;
  - the two registrations (`pama/order-select`, `pama/order-sign`) are a map from trigger
    point to handler value. The order-sign handler is the base handler with
    `needExplicitTrigger` replaced.
- **Search support**, in modules `SearchText` and `CodeSearch`:
  - the `search` text of an indexed coding. The first `(...)` group is removed, exactly as
    the regular expression `/\(.*?\)/` matches it. Then the first "Computed tomography"
    gains " CT" and the first "Magnetic resonance" gains " MRI";
  - the `byCode` lookup, where on a duplicate code the last coding wins;
  - turning the index's result refs back into codings;
  - `toSelectOption`, and `onSearchCore`, which caps results at 50.

Four behaviours of the code are easy to miss; the model keeps each of them:

- Extraction faults on a rating extension without `valueCodeableConcept` or `coding`. It
  does not treat such data as "no rating".
- The `byCode` lookup keeps the last coding for a duplicate code. It does not reject the
  terminology.
- `onMessage` reads the payload's `resource` field. It does not read the payload as the
  resource itself.
- A fault in any update of a batch throws before anything is dispatched. This holds even
  when an earlier update already carried a rating (`Dispatch.BatchFaultIff`).

## Model

| member | source | states |
|---|---|---|
| `RatingExtractor.ExtensionsOf` | src/components/Pama/pama.jsx:53 | a resource without `extension` contributes no extensions; otherwise its extension list is read as it is |
| `RatingExtractor.PamaExtensions` | src/components/Pama/pama.jsx:53-56 | the URL filter never lengthens the list, and every extension it keeps has the PAMA rating URI |
| `RatingExtractor.RatingsOfCodings` | src/components/Pama/pama.jsx:58-59 | one rating per coding, in coding order: rating i is the code of coding i and carries the resource id |
| `RatingExtractor.ActionToRating` | src/components/Pama/pama.jsx:51-60 | an update without a resource faults with MissingResource and only then; a resource without `extension` yields no ratings; every rating extracted carries the resource's id |
| `RatingExtractor.RatingsOf` | src/components/Pama/pama.jsx:57-59 | every rating produced by the flatMap over rating extensions carries the given resource id; it never reports a missing resource |
| `RatingExtractor.RatingsOfCons` | src/components/Pama/pama.jsx:57-59 | one flatMap step: it succeeds iff the leading extension is readable and the rest succeed, and then the leading extension's ratings come first |
| `RatingExtractor.RatingsOfOkIff` | src/components/Pama/pama.jsx:57-59 | the flatMap succeeds iff every extension it reads has a `valueCodeableConcept` with a `coding` array |
| `RatingExtractor.PamaExtensionsMembers` | src/components/Pama/pama.jsx:53-56 | the URL filter keeps exactly the extensions whose url is the PAMA rating URI |
| `RatingExtractor.PamaExtensionsAppend` | src/components/Pama/pama.jsx:53-56 | the URL filter distributes over concatenation of extension lists |
| `RatingExtractor.ExtractionOkIff` | src/components/Pama/pama.jsx:52-59 | extraction from a resource succeeds iff every extension with the rating URI is readable; extensions with other URIs never cause a fault |
| `RatingExtractor.IgnoresOtherExtensions` | src/components/Pama/pama.jsx:53-56 | inserting an extension with any other URI anywhere leaves the extraction result unchanged |
| `RatingExtractor.ExtractionCount` | src/components/Pama/pama.jsx:53-59 | a successful extraction yields exactly as many ratings as the rating extensions have codings |
| `RatingExtractor.ExtractionAt` | src/components/Pama/pama.jsx:53-59 | coding j of rating extension k becomes the rating at position (codings of earlier rating extensions) + j, with that coding's code and the resource id, so extension-then-coding order is kept (`RatingAt`) |
| `Dispatch.ToAction` | src/components/Pama/pama.jsx:65-69 | the `APPLY_PAMA_RATING` action carries the rating and the resource id of the extracted rating |
| `Dispatch.Actions` | src/components/Pama/pama.jsx:65-69 | one action per rating, in order, each carrying that rating and its resource id |
| `Dispatch.FlatRatings` | src/components/Pama/pama.jsx:63 | the flatMap over a batch succeeds only when every update extracts cleanly, and a fault it reports is the fault of some update of the batch |
| `Dispatch.Dispatcher.Dispatch` | src/components/Pama/pama.jsx:65-69 | handing an action to `dispatch` appends exactly that action to what has been dispatched |
| `Dispatch.Dispatched` | src/components/Pama/pama.jsx:62-69 | a batch that does not fault dispatches at most one action |
| `Dispatch.DispatchUpdates` | src/components/Pama/pama.jsx:62-69 | the method emits exactly the actions of `Dispatched` for the batch after what was already emitted, and completes normally or with the fault the batch raises |
| `Dispatch.BatchFaultIff` | src/components/Pama/pama.jsx:62-63 | a batch faults iff some update in it faults, wherever it stands |
| `Dispatch.FlatRatingsFirst` | src/components/Pama/pama.jsx:62-64 | when all updates extract cleanly, the first rating of the flattened batch is the first rating of the first update that has one |
| `Dispatch.DispatchFirstWins` | src/components/Pama/pama.jsx:62-69 | under those conditions exactly one action is dispatched, and it carries that first rating and its resource id |
| `Dispatch.DispatchExactlyOneIff` | src/components/Pama/pama.jsx:62-69 | a batch that does not fault dispatches one action iff some update in it yields a rating, and none otherwise |
| `TriggerHandler.SystemActionUpdates` | src/components/Pama/pama.jsx:74 | the type filter never lengthens the batch, and every update it passes on is the resource of some action of type `update` |
| `TriggerHandler.MessageUpdates` | src/components/Pama/pama.jsx:78-80 | a message yields one update iff its type is `scratchpad.update` and none otherwise; that update reads the payload's resource, and nothing when there is no payload (`payload || {}`) |
| `TriggerHandler.MessageDispatch` | src/components/Pama/pama.jsx:77-83 | a message whose type is not `scratchpad.update` dispatches nothing; a `scratchpad.update` with no payload or a payload without resource faults with MissingResource; otherwise the payload is dispatched as a one-update batch |
| `TriggerHandler.OnSystemActions` | src/components/Pama/pama.jsx:73-76 | emits exactly what the filtered batch dispatches, and completes with its outcome |
| `TriggerHandler.OnMessage` | src/components/Pama/pama.jsx:77-83 | emits exactly what `MessageDispatch` gives for the message, and completes with its outcome |
| `TriggerHandler.SystemActionUpdatesAppend` | src/components/Pama/pama.jsx:74 | the type filter distributes over concatenation of action batches |
| `TriggerHandler.NonUpdateActionIgnored` | src/components/Pama/pama.jsx:74-75 | an action whose type is not `update`, inserted anywhere in a batch, never changes what is dispatched |
| `TriggerHandler.UpdateActionsKept` | src/components/Pama/pama.jsx:74-75 | a batch of `update` actions reaches extraction whole and in order |
| `TriggerHandler.GenerateContext` | src/components/Pama/pama.jsx:84-110 | the context is a Bundle with exactly one ServiceRequest, which is the one the selections name. It has status draft and intent plan, and its code holds the study coding with its display as text. Its subject is `Patient/` + patient id. It has one reason entry per reason coding, in order, each with that coding's display as text |
| `TriggerHandler.ContextRoundTrip` | src/components/Pama/pama.jsx:84-110 | reading the draft back out of the generated context gives the study coding, the reason codings and the patient id unchanged |
| `TriggerHandler.PamaTriggerHandler` | src/components/Pama/pama.jsx:71-111 | the base handler does not need an explicit trigger and its three operations are the modelled `onSystemActions`, `onMessage` and `generateContext` |
| `TriggerHandler.OrderSignHandler` | src/components/Pama/pama.jsx:115-118 | the order-sign handler has the same three operations as the base handler, and its trigger mode is `TRIGGER_ORDER_SIGN` instead of automatic (false) |
| `TriggerHandler.Registrations` | src/components/Pama/pama.jsx:113-118 | the registry has exactly the two trigger points; the order-sign entry is the order-select entry with only `needExplicitTrigger` replaced, and the two trigger modes differ |
| `SearchText.CloseFrom` | src/components/Pama/pama.jsx:32 | finds the first `)` from a position when no line terminator comes before it, and otherwise reports that no `)` can close a group there |
| `SearchText.FirstGroupFrom` | src/components/Pama/pama.jsx:32 | returns the leftmost match of `\(.*?\)`, or none when no position starts a match |
| `SearchText.GroupEndUnique` | src/components/Pama/pama.jsx:32 | a match that starts at a given `(` has only one end |
| `SearchText.FirstGroupUnique` | src/components/Pama/pama.jsx:32 | the leftmost match is unique |
| `SearchText.StripFirstGroup` | src/components/Pama/pama.jsx:32 | a display without `(`, or with no match at all, is unchanged; otherwise exactly the leftmost `(...)` group is cut out |
| `SearchText.IndexOfFrom` | src/components/Pama/pama.jsx:33-34 | finds the first occurrence of a phrase from a position, or reports that there is none |
| `SearchText.IndexOf` | src/components/Pama/pama.jsx:33-34 | an occurrence is found iff the phrase occurs, and it is the first one |
| `SearchText.ReplaceFirst` | src/components/Pama/pama.jsx:33-34 | with no occurrence the text is unchanged; otherwise exactly the first occurrence is replaced |
| `SearchText.SuffixFirst` | src/components/Pama/pama.jsx:33-34 | replacing a phrase by itself plus a suffix inserts the suffix right after its first occurrence, leaving phrase + suffix there |
| `SearchText.CtSuffixKeepsMagneticResonance` | src/components/Pama/pama.jsx:33-34 | adding " CT" never destroys an occurrence of "Magnetic resonance" |
| `SearchText.MriSuffixKeepsComputedTomographyCt` | src/components/Pama/pama.jsx:33-34 | adding " MRI" never destroys an occurrence of "Computed tomography CT" |
| `SearchText.SearchText` | src/components/Pama/pama.jsx:31-34 | a display with no `(` and neither imaging phrase is indexed unchanged |
| `SearchText.SearchTextAbbreviations` | src/components/Pama/pama.jsx:31-34 | after the group is stripped, each of the two phrases that still occurs appears in the search text followed by its abbreviation |
| `CodeSearch.LastWinsStep` | src/components/Pama/pama.jsx:41 | storing one more entry keeps the lookup's keys equal to the codes seen, with the last coding per code winning |
| `CodeSearch.HasLastWithCode` | src/components/Pama/pama.jsx:41 | every code of the terminology has a last coding carrying it, the one `Object.fromEntries` keeps |
| `CodeSearch.ByCode` | src/components/Pama/pama.jsx:41 | the keys are exactly the codes of the codings; each key maps to a coding of the list with that code, namely the last one carrying it |
| `CodeSearch.Materialise` | src/components/Pama/pama.jsx:43-45 | one coding per ref, in the index's order, each the one the lookup stores under that ref |
| `CodeSearch.SearchResults` | src/components/Pama/pama.jsx:41-45 | each ref the index returns becomes one coding of the terminology whose code is that ref, in the index's order, and it is the last coding carrying that code |
| `CodeSearch.ToSelectOption` | src/components/Pama/pama.jsx:120-124 | the option wraps the coding as its data, shows its display as label and selects its code as value |
| `CodeSearch.OnSearchCore` | src/components/Pama/pama.jsx:126-129 | returns min(50, number of matches) options, each wrapping the match at the same position |
| `CodeSearch.OnSearchCoreRecoversMatches` | src/components/Pama/pama.jsx:126-129 | the options' codings are a prefix of the matches, and all of them when there are at most 50 |

## Left out

- The lunr full-text index is not part of this model (`src/components/Pama/pama.jsx:24-39` and `:43`). That covers its analyser, ranking and tie-breaking. `CodeSearch.SearchResults` takes the refs the index returns as given. The documents handed to the index (`{...c, search}`) are represented only by their `search` text (`SearchText.SearchText`).
- The 200 ms `debounce-promise` wrapper (`:131`) and the `Promise.resolve` in `onSearchCore` (`:128`) are timers and promises. `OnSearchCore` returns the options directly.
- React rendering, the `Pama` component and styling (`:133-223`) are UI. The Redux wiring (`:225-259`) is a thin set of action-object wrappers over an external store.
- `cdsExecution.registerTriggerHandler` (`:113-118`) is an external registry. Only the handler values and the map they form are modelled. A handler's operations are represented by what they dispatch (or, for `generateContext`, return).
- Loading the JSON terminology (`:17-21`) and building the two searchers (`:48-49`) are static data input. The codings are parameters.
- `onSystemActions`'s `state` argument is unused by the code and is not a parameter.
- JavaScript faults outside the three modelled ones are not modelled. The model's inputs are well-typed records, so none of these can arise in it:
  - an absent or `null` `systemActions` array, or a `null` entry in it (`:74`, where `({ type })` destructures each entry);
  - a truthy `extension` or `coding` that is not an array (`:54`, `:58`), and a `null` entry in either array (`:55`, `:58`);
  - a truthy `payload` that is not an object (`:80`), and an absent or `null` `data` in `onMessage` (`:78-79`);
  - a store state missing `pama`, `serviceRequest`, `studyCoding` or `patientState` (`:96-102`).
- Coding fields and the patient id are always strings here. A missing `code` or `display`, which JavaScript would carry as `undefined`, is not represented.
- Characters are Unicode scalar values, not UTF-16 code units. A display containing surrogate pairs is not distinguished.
- `CodeSearch.SearchResults`: requires every ref to be the code of some coding. The index's refs are the `code` fields of the documents added to it, so this holds. A foreign ref, which JavaScript would spread from `undefined` into `{}`, is not modelled.
