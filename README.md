# Event controller: records, images and responses

This project models the event controller of a small HTTP API, `src/controllers/event.js`. The controller has four handlers. `getAll` lists the stored events. `add` creates an event and can upload an image for it. `update` merges new field values into an existing event and can replace its image. `del` removes an event. Each handler works with two collaborators:

- an event repository (Mongoose `Event.find`, `findById`, `save`, `remove`);
- a remote media store (`uploadImage` and `deleteImage` of the Cloudinary helper).

Each handler answers every request with an HTTP status and one response envelope, `{ timestamp, message, data, error }`.

The model has three modules:

- `Records` (records.dfy) defines the event record, the request body, JavaScript truthiness as the controller uses it on these fields, and the truthy-or-keep merge of lines 75-79.
- `Lifecycle` (lifecycle.dfy) gives each handler as a function. The function takes the stored state, the request and the collaborators' replies. It returns the outcome (status, timestamp, message, payload, error detail), the new state, and the calls made to the collaborators, in order. The invariant (every record under its own id, both asset fields set or both unset) is here. So are the properties of single requests and the lemmas that relate several.
- `Controller` (controller.dfy) holds the class `EventController`. Its fields are the repository map, the next id, the set of asset ids the media store holds, and a ghost log of collaborator calls. There is one method per handler, written step by step like the source. Each collaborator call is its own method that either fails or takes effect. Each handler's postcondition says that its response, its new state and the calls it appended are exactly those the matching `Lifecycle` function gives.

Collaborator failures are inputs. A `Replies` value says, for one request, whether the repository read, `save`, `remove` or the image delete throws, and what the upload returns (nothing when it throws). Every thrown error leads to 500 `Internal server error`, and the error detail names the call that threw. The request timestamp is an opaque string passed in. The validation result is the list of validation errors, passed in.

A document that `findById` loads is a copy. The handler changes that copy field by field, and `save` writes it back. The model therefore keeps the loaded event as a datatype value in a local variable. It updates that value in place and stores it with the save.

Two points where the model follows the code rather than a looser description of the system:

- A description of the system says that a failed create leaves no new remote asset. In the code, `add` uploads first (line 46) and saves afterwards (line 51). When the save throws, the uploaded asset stays in the media store and no record names it. `AddStep` states this case as written.
- The description of the media store says a delete fails for an id the store does not hold. The Cloudinary helper is not part of this model, so `MediaDelete` follows that description. Together with the delete-before-upload order of `update`, this gives `FailedReplaceBlocksLaterReplace`. Once an upload fails after the old image was deleted, the record names a deleted asset, and the next image replacement for that record fails with 500. So does each later one, for as long as no upload hands that asset id back; upload ids are not assumed fresh.

## Model

| member | source | states |
|---|---|---|
| Records.MergeFields | src/controllers/event.js:75-79 | each of title, status, description, dateStart, dateEnd becomes the supplied value when it is truthy and keeps the stored value otherwise; id, imageUrl and imageId are untouched; paired asset fields stay paired |
| Records.MergeNothingIsIdentity | src/controllers/event.js:75-79 | a body with no truthy field leaves the record unchanged |
| Records.MergeIdempotent | src/controllers/event.js:75-79 | merging the same body twice equals merging it once |
| Records.MergeOwnContentIsIdentity | src/controllers/event.js:75-79 | sending back a record's own contents changes nothing |
| Records.MergeCannotClear | src/controllers/event.js:75-79 | no body can clear a field holding a truthy value: an empty or absent value counts as not supplied |
| Lifecycle.GetAllStep | src/controllers/event.js:12-22 | getAll changes nothing and calls `find` once; when find throws the result is 500 with the error; otherwise 200 `Get event success`, stamped with the request time, with every stored event and nothing else |
| Lifecycle.AddStep | src/controllers/event.js:24-58 | validation errors give 400 with the error list, no collaborator call and no state change; a failed request stores nothing; without a file there is one save, of a record whose five content fields are the body's and whose asset fields are unset, and 200 `Add event success` returns it under a fresh id; with a file the upload is the first call; a failed upload gives 500, with nothing saved and no asset added; a successful upload is followed by exactly one save, of a record whose imageUrl and imageId are both the returned reference, and the asset stays in the media store even when that save fails; the invariant is kept |
| Lifecycle.UpdateTouchesOnlyId | src/controllers/event.js:60-98 | update keeps the invariant, hands out no id, neither adds nor removes a record, changes no record but the requested one, and leaves that one as it was when it fails |
| Lifecycle.UpdateStep | src/controllers/event.js:60-98 | update hands out no id; with no validation error, a record found under the id and no collaborator failing, it returns 200 `Event updated` with the merged record and stores that record under the id; with a file, its asset fields are the uploaded reference; the calls are `findById`, then the delete of the old asset when there is one, then exactly one upload when a file came, and the save last; its failure paths are stated by `UpdateEarlyExits`, `UpdateWithoutFileKeepsImage` and `UpdateReplacesImage` |
| Lifecycle.SaveMerged | src/controllers/event.js:81-94 | after the merge, update writes only the merged record, under its own id, and nothing when it fails; the invariant is kept; when no collaborator fails it returns 200 with the saved record, which carries the uploaded reference when a file came, after exactly the delete (when there is an old asset), upload and save calls |
| Lifecycle.UpdateEarlyExits | src/controllers/event.js:62-73 | validation errors give 400 with no call and no change; otherwise the first call is `findById`; a thrown lookup gives 500, and a missing record gives 404 `Event not found!`, both with no further call and no change |
| Lifecycle.UpdateStoresMerge | src/controllers/event.js:75-94 | update answers 200 exactly when there is no validation error, the record is found, and neither the save nor (with a file) the delete or upload fails; a 200 update returns `Event updated` with the stored record, which keeps its id, has every content field equal to the truthy-or-keep merge of the body into the old record, and keeps the old asset fields without a file or takes the uploaded reference with one |
| Lifecycle.UpdateWithoutFileKeepsImage | src/controllers/event.js:81-92 | without a file, the calls are exactly the lookup and one save of the merged record; imageUrl and imageId keep their old values; the media store is untouched; a thrown save gives 500 with nothing changed |
| Lifecycle.UpdateReplacesImage | src/controllers/event.js:81-97 | with a file and an old imageId, deleting the old asset is the call right after the lookup and the upload comes right after it; with no old imageId the upload comes straight after the lookup; a failed delete gives 500 with no upload and no change; a failed upload after a delete leaves the old asset gone while the stored record still names it; a failed upload with no old asset to delete gives 500 with nothing changed and no call after the upload; after a successful upload the calls are exactly the lookup, the delete when there is an old asset, the one upload and the save, whether or not the save throws; a successful upload sets both asset fields from the returned reference; the save then gives 200 with those fields stored, or 500 with no record changed when it throws |
| Lifecycle.UpdateWithNothingIsNoOp | src/controllers/event.js:75-94 | an update with no truthy field and no file returns the stored record unchanged and changes no state |
| Lifecycle.DeleteStep | src/controllers/event.js:100-117 | del never touches the media store (the record's asset is left in place); the first call is `findById`; a thrown lookup gives 500, and a missing id gives 404, with no remove and no change; for an existing id it removes that key and no other and returns 200 `Delete event success` with `{ eventId }`, or 500 with nothing removed when the remove throws; the invariant is kept |
| Lifecycle.Handle | src/controllers/event.js:11-118 | any request keeps the invariant, never lowers the next id, and may only add records under ids not handed out before |
| Lifecycle.RunPreservesInv | src/controllers/event.js:11-118 | every sequence of requests keeps records under their own ids with paired asset fields |
| Lifecycle.RunNeverReusesIds | src/controllers/event.js:34-51 | an id that was handed out and holds no record never holds one again, whatever requests follow |
| Lifecycle.AddThenDeleteRestores | src/controllers/event.js:31-112 | deleting the event that a file-less add just created returns 200 with its id and gives back the original repository and media store |
| Lifecycle.FailedReplaceBlocksLaterReplace | src/controllers/event.js:84-97 | after an update whose delete succeeded and whose upload failed, the record still names the deleted asset, and the next update with a file fails on the delete and changes nothing |
| Controller.EventController.RepoFind | src/controllers/event.js:15 | logs the call; fails or yields every stored event |
| Controller.EventController.RepoFindById | src/controllers/event.js:70 | logs the call; fails, finds nothing, or yields the stored record |
| Controller.EventController.RepoNew | src/controllers/event.js:34-40 | builds the record from the body under the next id, with no asset, and advances the id |
| Controller.EventController.RepoSave | src/controllers/event.js:51 | logs the call; fails with no change, or writes the record under its own id |
| Controller.EventController.RepoRemove | src/controllers/event.js:110 | logs the call; fails with no change, or removes the record's id |
| Controller.EventController.MediaUpload | src/controllers/event.js:46 | logs the call; returns the store's reply and adds its asset id to the store when it succeeds |
| Controller.EventController.MediaDelete | src/controllers/event.js:85 | logs the call; succeeds only for a held id and no failure, and then removes it from the store |
| Controller.EventController.GetAll | src/controllers/event.js:12-22 | the response, state and call log are those of `GetAllStep`; the invariant is kept |
| Controller.EventController.Add | src/controllers/event.js:24-58 | the response, state and call log are those of `AddStep`; the invariant is kept |
| Controller.EventController.Update | src/controllers/event.js:60-99 | the response, state and call log are those of `UpdateStep`; the invariant is kept |
| Controller.EventController.SaveMergedEvent | src/controllers/event.js:81-97 | the response, state and call log of the image replacement and save are those of `SaveMerged` |
| Controller.EventController.Del | src/controllers/event.js:100-117 | the response, state and call log are those of `DeleteStep`; the invariant is kept |

## Left out

- Timestamp formatting with `moment-timezone` (lines 13, 25, 61, 101): the request time is an opaque input copied into the envelope.
- The `express-validator` rules (lines 2, 26, 62): the validation result is the list of its errors, given as input.
- Mongoose internals: query execution, schema casting and validation at save time, and how `_id` is generated. Any exception from `find`, `findById`, `save` or `remove` is one boolean in `Replies`. Ids are natural numbers handed out in order when the document is built (line 34), so an add that fails after that point still uses up an id. A malformed id that makes `findById` throw is covered by the lookup failing.
- The Cloudinary helper (`src/helper/cloudinary.js` is not part of this model): an upload returns whatever reference `Replies` holds, and nothing is assumed about that id being fresh. A delete of an id the store does not hold is assumed to throw; `FailedReplaceBlocksLaterReplace` rests on that assumption.
- `LOGGER.Error` and the inner shape of `RESPONSE` and of the thrown error objects: the error detail records only which call threw.
- Async/await and the event loop: every `await` is one sequential step that may fail. Concurrent requests are not modelled; the code has no locking.
- General JavaScript truthiness: fields are absent or a string, and truthy means present and non-empty. Dates are opaque strings.
- Lifecycle.GetAllStep: the listing is a set of events, so the order in which `find` returns them is not modelled.
- The staged upload file (`req.file.path`) is only passed to the upload; reading it and cleaning it up are not modelled.
