# E-waste classifier backend and upload card, modelled in Dafny

This project models the core of an e-waste classification service. It covers:

- the category taxonomy shared by training and inference;
- the tolerant model loader;
- the post-processing of the network's probability vector into a label, a confidence and a probability dict;
- the rule-based price table;
- the matching of a category against the recycler table's comma-separated `accepted_items`;
- the `/predict/` endpoint, which composes these into a 400 / 200 / 500 outcome;
- the training script's class order, index map, batching, step counting and saved artifact;
- the front end's upload card, a small state machine over the card and the requests in flight, whose history keeps the five most recently answered uploads, the last answer first.

The model contains no numerics. The network is reduced to its head width and an abstract parameter value. The probability vector, the decoded image, the recycler rows and the outcome of the browser's `fetch` are all parameters.

Modules follow the source files:

| module | file | models |
|---|---|---|
| `Base` | base.dfy | `Option` and `Result` (a SQL NULL, a Python exception), `Range`, `Take` (`slice`/`[:n]`), `ZipMap` (a dict comprehension) |
| `Text` | text.dfy | Python's ASCII `lower`, `strip` and `split(",")`, code-point string order, and `sorted` as a stable insertion sort |
| `Network` | network.dfy | the classifier as seen from outside: head width, `state_dict`, strict `load_state_dict`, the objects `torch.load` returns |
| `Match` | match.dfy | `backend/app/api/match.py` |
| `ModelUtils` | model_utils.dfy | `backend/app/core/model_utils.py` |
| `TrainModel` | train_model.dfy | `backend/train_model.py` |
| `Predict` | predict.dfy | `backend/app/api/predict.py` and the response schema it constructs |
| `UploadCard` | upload_card.dfy | `ewaste-frontend/src/components/UploadCard.jsx` |

Python exceptions are modelled as `Err` values. Two kinds of code raise them.

The endpoint catches these and turns them into its 500 answer:

- `None.split` on a NULL `accepted_items`;
- `argmax` of an empty vector;
- `probs[i]` past the end of a short vector.

The offline training script catches nothing, so these stop the run before anything is saved:

- `ImageFolder` finding no class folder, or one that holds no image;
- the loss meeting a label beyond the nine-way head, which happens when there are more than nine class folders.

## Model

| member | source | states |
|---|---|---|
| `Match.EstimatePrice` | backend/app/api/match.py:12-23 | the price is the table price of the key the category spells in any letter case, 100 when no key matches, and always one of the table's prices or 100 |
| `Match.PriceKeysAreLower` | backend/app/api/match.py:13-22 | every key of the price table is its own lower-case form, so a lookup after `lower()` can reach each one |
| `Match.PriceIgnoresCase` | backend/app/api/match.py:23 | two spellings that differ only in letter case get the same price |
| `Match.PriceOfLowered` | backend/app/api/predict.py:42-45 | pricing the lower-cased label, as the endpoint does, gives the price of the raw label, and every price is positive |
| `Match.PriceOfLowerCase` | backend/app/api/match.py:23 | a lower-case category gets its table entry when it is a key and the default 100 otherwise |
| `Match.PriceExamples` | backend/app/api/match.py:14-18 | "Mobile" costs 300, "TELEVISION" 1500, "mouse" 80 |
| `Match.Categories` | backend/app/api/match.py:40 | one normalised category per comma-separated segment, and at least one even for an empty field |
| `Match.ToRecycler` | backend/app/api/match.py:42-54 | the matched record carries the normalised category list and the two integer flags as booleans (NULL and 0 are false), and copies every other column |
| `Match.FindRecyclers` | backend/app/api/match.py:30-55 | the scan raises exactly when some row's `accepted_items` is NULL, and never returns more records than rows |
| `Match.FindRecyclersSelects` | backend/app/api/match.py:37-55 | the result is an ordered selection of the rows: strictly increasing row indices, record `k` built from row `picked[k]`, and row `i` picked exactly when it accepts the category |
| `Match.FindRecyclersIgnoresCase` | backend/app/api/match.py:35 | matching depends on the category only up to letter case |
| `Match.AcceptedIffSomeSegment` | backend/app/api/match.py:39-41 | a row accepts a category exactly when one of its comma-separated segments, stripped, spells the category in some letter case |
| `Match.PaddedCategoryNeverMatches` | backend/app/api/match.py:35-41 | a category that begins or ends with whitespace never matches, because only the segments are stripped |
| `Match.EmptyAcceptedMatchesOnlyEmpty` | backend/app/api/match.py:39-41 | an empty `accepted_items` (the insert default) is the single category "" and accepts only the empty category |
| `Match.SingleCategory` | backend/app/api/match.py:40 | a lower-case category with no comma and no surrounding whitespace, stored alone, is the row's one category |
| `Match.OneAcceptingRow` | backend/app/api/match.py:38-55 | a table of one accepting row yields exactly that row's record |
| `Match.AcceptsIgnoresCase` | backend/app/api/match.py:35-41 | whether a row accepts a category (`Match.Accepts`, the test at lines 40-41) depends on the category only up to letter case |
| `Match.SoleCategoryAccepts` | backend/app/api/match.py:39-41 | a row whose only category is `w` accepts every spelling that lower-cases to `w` |
| `Text.LowerStr` | backend/app/api/match.py:35 | `lower()` keeps the length and leaves no upper-case letter |
| `Text.LowerStrIdempotent` | backend/app/api/match.py:40 | lower-casing twice is lower-casing once, and a lower-case string is unchanged |
| `Text.LowerStrEqIff` | backend/app/api/match.py:41 | `a.lower() == b.lower()` holds exactly when `a` and `b` agree character by character up to case |
| `Text.LowerToCaseVariant` | backend/app/api/match.py:23 | the lower form of a string is the lower-case string it equals up to case |
| `Text.Strip` | backend/app/api/match.py:40 | `strip()` never lengthens, and its result starts and ends with a non-whitespace character |
| `Text.StripIsTrimmedInfix` | backend/app/api/match.py:40 | `strip()` removes an all-whitespace prefix and suffix and nothing else, and yields "" exactly for all-whitespace input |
| `Text.TrimStartDropsSpace` | backend/app/api/match.py:40 | the leading trim removes an all-whitespace prefix and keeps the rest |
| `Text.TrimEndDropsSpace` | backend/app/api/match.py:40 | the trailing trim removes an all-whitespace suffix and keeps the rest |
| `Text.Split` | backend/app/api/match.py:40 | `split(",")` yields at least one segment and no segment holds a comma |
| `Text.JoinSplit` | backend/app/api/match.py:40 | joining the segments with the separator restores the string |
| `Text.SplitJoin` | backend/app/api/match.py:40 | splitting a join of comma-free segments gives the segments back |
| `Text.StrLessIrreflexive` | backend/train_model.py:20 | no string sorts before itself |
| `Text.StrLessTransitive` | backend/train_model.py:20 | the string order used by `sorted` is transitive |
| `Text.StrLessTotal` | backend/train_model.py:20 | any two distinct strings are ordered one way or the other |
| `Text.NeighboursStrictlyAscending` | backend/train_model.py:20-30 | strict order between neighbours extends to every pair |
| `Text.Insert` | backend/train_model.py:20 | insertion adds exactly the one element |
| `Text.InsertAscending` | backend/train_model.py:20 | inserting into an ascending list keeps it ascending |
| `Text.Sorted` | backend/train_model.py:20 | `sorted` keeps the length; that it returns an ascending permutation is `Text.SortedAscending` |
| `Text.Sort` | backend/train_model.py:20 | `sorted` returns a permutation of its argument |
| `Text.SortAscending` | backend/train_model.py:20 | the result of `sorted` is ascending |
| `Text.SortOfAscending` | backend/train_model.py:20 | sorting an ascending list returns it unchanged |
| `Text.SortedAscending` | backend/train_model.py:20-30 | `sorted` of any list is an ascending permutation of it |
| `Text.SortedOfAscending` | backend/train_model.py:20-30 | `sorted` of an ascending list is that list |
| `Base.Take` | ewaste-frontend/src/components/UploadCard.jsx:54 | `slice(0, n)` keeps the first `min(n, length)` elements in order |
| `Base.Range` | backend/train_model.py:61 | `enumerate` numbers the positions `0..n-1` |
| `Base.ZipMap` | backend/app/core/model_utils.py:103-106 | the dict comprehension has every key, and each entry's value is the value at the last position of that key |
| `Base.ZipMapDistinct` | backend/app/core/model_utils.py:103-106 | with distinct keys every key maps to the value at its own position |
| `ModelUtils.GetClassNames` | backend/app/core/model_utils.py:35-46 | the inference class list has nine entries; their order and distinctness are `ModelUtils.ClassNamesSorted` |
| `ModelUtils.NeighbourNamesOrdered` | backend/app/core/model_utils.py:36-46 | each class name sorts strictly before the next |
| `ModelUtils.ClassNamesSorted` | backend/app/core/model_utils.py:35-46 | the class list has nine entries, strictly ascending in code-point order and hence distinct, none of them "Unknown" |
| `ModelUtils.SelectState` | backend/app/core/model_utils.py:63-66 | the loader hands `load_state_dict` the `model_state` entry of a dict that has one, and the whole checkpoint otherwise |
| `ModelUtils.LoadModel` | backend/app/core/model_utils.py:51-77 | loading the checkpoint never raises: the classes are always the fixed list and the head as wide as it; a missing or unreadable file keeps the fresh pretrained model; a failed `load_state_dict` keeps the fresh head but, for a parameter map, the map's backbone; a missing file is reported as such; each successful branch carries the loaded parameter map |
| `ModelUtils.CompositeLoadsModelState` | backend/app/core/model_utils.py:63-64 | a dict with a fitting `model_state` loads that entry |
| `ModelUtils.BareLoadsWhole` | backend/app/core/model_utils.py:65-66 | a fitting bare parameter map loads whole |
| `ModelUtils.WidthMismatchKeepsBackbone` | backend/app/core/model_utils.py:56-71 | a parameter map of another head width, bare or wrapped, fails to load, and the model returned has that map's backbone under the fresh nine-way head |
| `ModelUtils.CompositeIgnoresOtherEntries` | backend/app/core/model_utils.py:63-64 | two composite artifacts that agree on `model_state` load alike, whatever their saved class lists |
| `ModelUtils.ArgMax` | backend/app/core/model_utils.py:99 | `argmax` returns an index holding the largest value with only smaller values before it |
| `ModelUtils.ArgMaxUnique` | backend/app/core/model_utils.py:99 | the first index of the maximum is the only index with that property, so `argmax` is determined by it |
| `ModelUtils.Classify` | backend/app/core/model_utils.py:99-108 | post-processing fails exactly for an empty vector or one shorter than the class list; otherwise the confidence is the vector's maximum, the label is a class or "Unknown", the dict's keys are the classes, and with distinct classes each maps to its probability |
| `ModelUtils.ClassifyLabelIsArgMax` | backend/app/core/model_utils.py:99-101 | the label is the class at the arg-max index, or "Unknown" past the class list, and the confidence is the probability there |
| `ModelUtils.ClassifyWithMatchingWidth` | backend/app/core/model_utils.py:99-106 | with one probability per class the label is always a real class and the dict holds the confidence under it |
| `ModelUtils.ClassifyUnknownExample` | backend/app/core/model_utils.py:100-106 | a vector wider than the class list can give "Unknown", which is absent from the dict |
| `Network.BuildModel` | backend/app/core/model_utils.py:55-56 | the built model has the requested head width, the ImageNet backbone and a randomly initialised head |
| `Network.LoadStateDict` | backend/app/core/model_utils.py:64-66 | strict loading raises unless it gets a parameter map of the model's head width, which it then restores whole; a map of another width still hands over its backbone before raising, and anything else leaves the model untouched |
| `Network.StateDictOf` | backend/train_model.py:108 | `state_dict()` records the head width, the backbone and the head of the model; `Network.StateDictRoundTrip` shows that loading it back restores the model |
| `Network.StateDictRoundTrip` | backend/train_model.py:107-108 | loading a model's `state_dict` into a model of the same width raises nothing and restores it |
| `TrainModel.ClassNames` | backend/train_model.py:20-30 | `CLASS_NAMES` holds exactly the nine literals, as a multiset; that it is ascending and equals the inference list is `TrainModel.TrainingOrderMatchesInference` |
| `TrainModel.ClassNamesIsSortedLiterals` | backend/train_model.py:20-30 | `CLASS_NAMES` is an ascending permutation of the nine literals |
| `TrainModel.TrainingOrderMatchesInference` | backend/train_model.py:20-30 | the training class list equals the inference list element for element, so index `i` means the same class on both sides |
| `TrainModel.ClassNamesShape` | backend/train_model.py:20-30 | `CLASS_NAMES` has nine distinct entries |
| `TrainModel.ClassToIdx` | backend/train_model.py:61 | every key of `class_to_idx` is the name at its index |
| `TrainModel.ClassToIdxOfDistinct` | backend/train_model.py:61 | over distinct names the index map is a bijection between the names and their positions |
| `TrainModel.ClassToIdxBijection` | backend/train_model.py:61 | for `CLASS_NAMES` the index map is a bijection onto `0..8` |
| `TrainModel.OverrideClasses` | backend/train_model.py:57-61 | after the override the dataset's classes are `CLASS_NAMES`, indexed by position, and the images keep the label indices of the scan |
| `TrainModel.OverrideOnMatchingScan` | backend/train_model.py:59-61 | when the scan already found the fixed classes the override changes nothing |
| `TrainModel.CeilDiv` | backend/train_model.py:66 | the batch count is the fewest batches of 16 that cover the dataset |
| `TrainModel.Batches` | backend/train_model.py:66 | an epoch has `ceil(n/16)` batches, each non-empty and at most 16, all but the last full |
| `TrainModel.BatchesConcat` | backend/train_model.py:66 | the batches of an epoch, put back together, are the epoch's sample order, so no image is dropped or repeated |
| `TrainModel.ConcatOfNonEmpty` | backend/train_model.py:57 | non-empty class folders give at least one image per folder |
| `TrainModel.ScanLabels` | backend/train_model.py:57 | there is one label per image; the images of folder `c`, which come right after those of the folders before it, are each labelled `c`; every label is below the number of folders |
| `TrainModel.LabelBeyondHead` | backend/train_model.py:90-95 | the loss meets a label the head of width `w` cannot output exactly when there are more than `w` non-empty folders |
| `TrainModel.ScanLabelsInRange` | backend/train_model.py:72-95 | over non-empty folders some label is beyond a head of width `w` exactly when there are more than `w` folders, which is when the loss raises |
| `TrainModel.TrainedNet` | backend/train_model.py:71-72 | the trained head is as wide as `CLASS_NAMES`, nine, and both backbone and head carry learned values |
| `TrainModel.SavedArtifact` | backend/train_model.py:107-110 | the artifact is a dict holding the parameter map under `model_state` and the class list under `class_names` |
| `TrainModel.RunEpoch` | backend/train_model.py:90-97 | one epoch takes `ceil(n/16)` optimizer steps and passes all `n` samples of its order through the model |
| `TrainModel.RunEpochs` | backend/train_model.py:81-97 | ten epochs take `10 * ceil(n/16)` optimizer steps and pass `10 * n` samples through the model |
| `TrainModel.Train` | backend/train_model.py:57-110 | the script fails exactly when there is no class folder, an empty one, or more folders than `CLASS_NAMES` has names; otherwise it counts the steps and samples above and saves the composite artifact |
| `TrainModel.SavedArtifactLoads` | backend/train_model.py:107-110 | the saved artifact is loaded by the inference loader's composite branch, restores the trained network, and carries the same class list |
| `Predict.Status` | backend/app/api/predict.py:33-65 | 200 exactly for a success, 400 for a bad request, 500 for a server error |
| `Predict.PredictImage` | backend/app/api/predict.py:14-66 | an undecodable upload answers 400 "Invalid image file."; every 500 carries the fixed message; a success carries price confidence 0.8, the price of its label, and a class name or "Unknown" as label |
| `Predict.PredictOutcome` | backend/app/api/predict.py:24-66 | for the intended endpoint: 400 exactly when decoding fails; 500 exactly when the vector is shorter than the class list or a row has NULL `accepted_items`; 200 otherwise |
| `Predict.DecodeFailureSkipsClassifier` | backend/app/api/predict.py:29-36 | on a decoding failure neither the classifier nor the recycler table affects the answer |
| `Predict.PredictSuccessFields` | backend/app/api/predict.py:39-58 | a success reports the raw label with its case kept, passes confidence and probabilities through unchanged, and prices and matches that label |
| `Predict.PredictWithMatchingWidth` | backend/app/api/predict.py:39-58 | for the intended endpoint: with one probability per class and no NULL row the answer is a success naming a real class whose dict entry is the confidence |
| `Predict.LoadedModelPredicts` | backend/app/api/predict.py:39-58 | for the intended endpoint: when the network is the one `load_model` returned and a forward pass yields one value per head output, a decoded image with no NULL row always gives a success naming a real class, whatever the artifact held |
| `Predict.PredictRecyclersAccept` | backend/app/api/predict.py:48 | the returned recyclers are exactly the accepting rows in table order, each listing the lower-cased label among its categories |
| `Predict.MatchRecordNeverValidates` | backend/app/schemas.py:10-16 | the records `find_recyclers` builds lack the `location` field `RecyclerInfo` requires |
| `Predict.PredictImageAsWritten` | backend/app/api/predict.py:51-66 | as written, a 200 answer always has an empty recycler list |
| `Predict.AsWrittenFailsOnEveryMatch` | backend/app/api/predict.py:51-66 | as written, every request that matches a recycler answers 500 and every other request is answered as intended |
| `Predict.OneMatchAsWritten` | backend/app/api/predict.py:48-66 | a one-row table accepting the classified label gives 200 with that row as intended, and 500 as written |
| `Predict.MobileRowAcceptsMobile` | backend/app/api/match.py:35-41 | a row storing exactly "mobile" accepts the label "Mobile" |
| `Predict.MobileUploadWithOneRecycler` | backend/app/api/predict.py:48-58 | a concrete request, "Mobile" against a row accepting "mobile", gives 200 with the recycler as intended and 500 as written |
| `UploadCard.HandleFileChange` | ewaste-frontend/src/components/UploadCard.jsx:17-20 | selecting a file sets it and clears the result, leaving loading and history alone |
| `UploadCard.HandleInputChange` | ewaste-frontend/src/components/UploadCard.jsx:95-101 | the dialog selects its first file, and a dialog with no file clears the selection |
| `UploadCard.HandleDrop` | ewaste-frontend/src/components/UploadCard.jsx:23-27 | a drop with files selects the first; a drop without files changes nothing |
| `UploadCard.ResponseOkIffSuccess` | ewaste-frontend/src/components/UploadCard.jsx:46 | `response.ok` holds exactly for the endpoint's success answer |
| `UploadCard.PushHistory` | ewaste-frontend/src/components/UploadCard.jsx:52-55 | the new entry comes first, followed by the previous entries in order, and the history is `min(5, old length + 1)` long |
| `UploadCard.StartPredict` | ewaste-frontend/src/components/UploadCard.jsx:31-40 | without a file nothing happens; with one, only `loading` is set |
| `UploadCard.FinishPredict` | ewaste-frontend/src/components/UploadCard.jsx:41-61 | loading is cleared in every case; a failure changes nothing else; a success shows the response and pushes it with the captured file |
| `UploadCard.HandlePredict` | ewaste-frontend/src/components/UploadCard.jsx:31-62 | a click without a file is a no-op, and with a file loading ends false |
| `UploadCard.HandlePredictEffect` | ewaste-frontend/src/components/UploadCard.jsx:31-62 | failures keep result and history; a success shows the response and makes it the newest of at most five entries, the older ones following in order |
| `UploadCard.Step` | ewaste-frontend/src/components/UploadCard.jsx:17-62 | choosing or dropping files leaves the requests, `loading` and the history alone; only a click adds a request, at most one; every event keeps "loading implies a request in flight" |
| `UploadCard.Run` | ewaste-frontend/src/components/UploadCard.jsx:17-62 | a run of events adds at most one request per event, and none without a click |
| `UploadCard.ClickSendsRequest` | ewaste-frontend/src/components/UploadCard.jsx:31-45 | a click with a file selected sets `loading`, sends a request for that file and changes nothing else |
| `UploadCard.RunKeepsLoadingHasRequest` | ewaste-frontend/src/components/UploadCard.jsx:40-61 | throughout any session, whenever the card shows "Predicting..." some request is in flight |
| `UploadCard.OverlapClearsLoading` | ewaste-frontend/src/components/UploadCard.jsx:59-61 | with two requests in flight, the first to settle clears `loading` although another is still in flight |
| `UploadCard.ClickThenSettle` | ewaste-frontend/src/components/UploadCard.jsx:31-62 | a click whose request settles before anything else happens has exactly the effect of `handlePredict` |
| `UploadCard.ReplyAfterReselect` | ewaste-frontend/src/components/UploadCard.jsx:48-55 | a file chosen during the request is shown with the earlier file's response, and the history entry names the earlier file |
| `UploadCard.Reverse` | ewaste-frontend/src/components/UploadCard.jsx:52-55 | last-answer-first order reverses the order in which uploads were recorded |
| `UploadCard.StepHistory` | ewaste-frontend/src/components/UploadCard.jsx:52-55 | each event keeps the history the five-entry window over everything recorded, the last answer first |
| `UploadCard.RunHistory` | ewaste-frontend/src/components/UploadCard.jsx:52-55 | over any session, overlapping requests included, the history is the recorded uploads in reverse order of arrival followed by the earlier history, cut at five |
| `UploadCard.SessionHistory` | ewaste-frontend/src/components/UploadCard.jsx:13-55 | from a freshly mounted card the history is the last five answered uploads, the last answer first, and never longer than five |
| `UploadCard.ArrivalOrdersHistory` | ewaste-frontend/src/components/UploadCard.jsx:52-55 | two overlapping requests answered in the reverse of their click order appear in the history in answer order |

## What the code saves or labels but never uses

- **Saved class list.** The training script saves `class_names` beside the weights (backend/train_model.py:107-110). The loader reads only `model_state` (backend/app/core/model_utils.py:63-64) and always returns `get_class_names()` (backend/app/core/model_utils.py:52, 77). So the saved list is never compared with the inference list: `ModelUtils.CompositeIgnoresOtherEntries` shows that it plays no part. The two lists agree anyway (`TrainModel.TrainingOrderMatchesInference`).
- **"Unknown" label.** backend/app/core/model_utils.py:100 falls back to "Unknown" for a top index past the class list. But lines 103-106 read `probs[i]` for every class, so a vector shorter than the class list raises there first. "Unknown" can therefore arise only from a vector wider than the list. `ModelUtils.Classify` fails for the shorter case, and `ModelUtils.ClassifyUnknownExample` shows the wider one. A saved head of another width never reaches classification: strict loading rejects it and the head stays nine wide (`ModelUtils.WidthMismatchKeepsBackbone`).
- **Scanned labels.** backend/train_model.py:60-61 replaces the scanned class list and index map, but the labels `ImageFolder` already gave the images stay as they were (`TrainModel.OverrideClasses`). With more folders than class names, training fails (`TrainModel.Train`).

## Findings

| source | as written | input that shows it | evidently intended | confidence | as-written member | corrected member |
|---|---|---|---|---|---|---|
| backend/app/api/predict.py:51-58 | The handler builds `PredictionResponse`, which validates each match record as `RecyclerInfo` (backend/app/schemas.py:10-16). That schema requires a `location` field. The records built by `find_recyclers` carry `lat` and `lon` but no `location`, so validation raises. The broad `except` turns this into 500 "Internal server error. Check backend logs." | One recycler row with `accepted_items` "mobile", and a network output that puts all its probability on "Mobile" (`Predict.MobileUploadWithOneRecycler`) | 200 with the matched recycler in `recyclers` | not executed; high, since a missing required field is a validation error in pydantic | `Predict.PredictImageAsWritten` | `Predict.PredictImage` |

The rest of the model, including the upload card, uses the corrected `Predict.PredictImage`.

## Left out

- **Numerics.** These are floating point inside foreign libraries, so none of them is modelled:
  - the ResNet-18 backbone beyond its head width;
  - the forward pass and softmax;
  - the image transforms and augmentation;
  - cross-entropy, Adam and the average loss printed per epoch.

  The probability vector is an input, and the values of the backbone and the head are abstract: ImageNet weights, a random initialisation, or `Learned(run)`.
- **Pretrained weights.** `models.resnet18(weights=...DEFAULT)` (backend/app/core/model_utils.py:55) runs outside the loader's `try` and may download the ImageNet weights. A failure there raises out of `load_model`. The model assumes the backbone is always built.
- **Image decoding.** `Image.open(...).convert("RGB")` is reduced to its outcome: an image, or `None` when it raises.
- **Persistence.** `torch.load` and `torch.save` are reduced to the object they read or write. Reading the file, the device placement and `model.eval()` are not modelled.
- **The recycler table.** The SQLite table is a parameter: `find_recyclers` receives the rows that `get_all_recyclers` would return. Connections and queries are foreign code.
- **Serving and the browser.** The FastAPI routing, the JSON encoding of responses, and the browser's `fetch`, `FormData`, object URLs, `alert` and rendering are not modelled. The outcome of the `fetch` is an input.
- **Form fields.** `brand`, `age_months` and `condition` are accepted by the endpoint but never used, so the model has no parameters for them.
- **The JSON body.** A response that is `ok` but whose body fails to parse as JSON would also reach the `catch`. This is not modelled: the endpoint always sends JSON.
- **Side effects.** Logs, tracebacks, `print` calls and the tqdm progress bar are not modelled.
- **Unicode case and whitespace.** `lower()` and `strip()` are modelled for ASCII letters and Python's ASCII whitespace only.
- **Shuffling.** The random shuffle of each epoch is a parameter: any permutation of the images.
- `Match.Categories`: its contract gives only the number of categories. What each category is, a stripped and lower-cased segment, is stated by `Match.AcceptedIffSomeSegment`.
- `TrainModel.Train`: the images are counted and batched but never looked at. The learned parameters are the abstract `Learned(run)`, independent of the data. When a label is out of range, the model reports the failure without counting the batches the first epoch ran before reaching that image, since the run saves nothing either way.
- `Text.Sorted`: its contract gives only the length. That the result is an ascending permutation is stated by `Text.SortedAscending`.
- `Predict.PredictOutcome`: a failure of `db.get_all_recyclers()` (backend/app/api/match.py:34), such as an unreachable database file, also answers 500. The model cannot see it, because the rows are a parameter.
- **Other endpoints and files.** The `/match/test` endpoint, the database seeding scripts, `App.jsx` and `Navbar.jsx` are not part of this model.
