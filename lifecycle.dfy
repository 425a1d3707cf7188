/** What each handler of the event controller does, as a function from the
    stored state, the request and the collaborators' replies to the response,
    the new state and the calls made to the collaborators, in order. */
module Lifecycle {
  import opened Records

  const ImageFolder := "event/images"

  const MsgListed := "Get event success"
  const MsgInvalid := "Value in body missing the validation requirement"
  const MsgInternal := "Internal server error"
  const MsgAdded := "Add event success"
  const MsgNotFound := "Event not found!"
  const MsgUpdated := "Event updated"
  const MsgDeleted := "Delete event success"

  /** What the media store returns for an upload: a public URL and an opaque id. */
  datatype AssetRef = AssetRef(url: string, id: string)

  /** The staged file of a multipart request, `req.file`. */
  datatype FileRef = FileRef(path: string)

  /** How the collaborators answer during one request: whether the repository
      read (`find` / `findById`), `save`, `remove` or the asset delete throws,
      and what the upload returns (`None` when it throws). */
  datatype Replies = Replies(findFails: bool, upload: Option<AssetRef>, deleteFails: bool, saveFails: bool, removeFails: bool)

  /** One call into a collaborator. */
  datatype Call =
    | Find
    | FindById(id: Id)
    | UploadImage(path: string, folder: string)
    | DeleteImage(assetId: string)
    | Save(event: Event)
    | Remove(id: Id)

  /** The collaborator call whose error reached the catch block. */
  datatype Fault = FindFailed | UploadFailed | DeleteFailed | SaveFailed | RemoveFailed

  datatype Payload = NoData | Listed(events: set<Event>) | Record(event: Event) | Deleted(eventId: Id)

  datatype Detail = NoError | Invalid(errors: seq<string>) | Thrown(fault: Fault)

  /** The HTTP status and the response envelope `{ timestamp, message, data, error }`. */
  datatype Outcome = Outcome(code: int, time: string, message: string, data: Payload, error: Detail)

  /** The repository (records by id, and the next id it hands out) and the
      media store (the ids of the assets it holds). */
  datatype State = State(repo: map<Id, Event>, live: set<string>, nextId: Id)

  datatype Step = Step(out: Outcome, post: State, calls: seq<Call>)

  /** Every record sits under its own id, below the next id to hand out, with
      its asset fields paired. */
  ghost predicate Inv(s: State)
  {
    forall k :: k in s.repo ==> s.repo[k].id == k && k < s.nextId && Paired(s.repo[k])
  }

  function Rejected(time: string, errors: seq<string>): Outcome
  {
    Outcome(400, time, MsgInvalid, NoData, Invalid(errors))
  }

  function NotFound(time: string): Outcome
  {
    Outcome(404, time, MsgNotFound, NoData, NoError)
  }

  function Failure(time: string, f: Fault): Outcome
  {
    Outcome(500, time, MsgInternal, NoData, Thrown(f))
  }

  function Success(time: string, message: string, data: Payload): Outcome
  {
    Outcome(200, time, message, data, NoError)
  }

  /** `await event.save()` and the 200 reply, the last step of add and update. */
  function SaveThenReply(s: State, time: string, message: string, e: Event, calls: seq<Call>, replies: Replies): Step
  {
    if replies.saveFails then Step(Failure(time, SaveFailed), s, calls + [Save(e)])
    else Step(Success(time, message, Record(e)), s.(repo := s.repo[e.id := e]), calls + [Save(e)])
  }

  /** The record with both asset fields taken from an upload's reference. */
  function WithImage(e: Event, image: AssetRef): Event
  {
    e.(imageUrl := Some(image.url), imageId := Some(image.id))
  }

  /** Upload the file, copy the returned reference into both asset fields, then save. */
  function UploadThenSave(s: State, time: string, message: string, e: Event, file: FileRef, calls: seq<Call>, replies: Replies): Step
  {
    var calls' := calls + [UploadImage(file.path, ImageFolder)];
    match replies.upload
    case None => Step(Failure(time, UploadFailed), s, calls')
    case Some(image) =>
      SaveThenReply(s.(live := s.live + {image.id}), time, message, WithImage(e, image), calls', replies)
  }

  /** `controller.getAll`. */
  function GetAllStep(s: State, time: string, replies: Replies): (st: Step)
    ensures st.post == s && st.calls == [Find]
    ensures replies.findFails ==> st.out == Failure(time, FindFailed)
    ensures !replies.findFails ==>
              && st.out.code == 200 && st.out.time == time && st.out.message == MsgListed && st.out.error == NoError
              && st.out.data.Listed?
              && forall e :: e in st.out.data.events <==> exists k :: k in s.repo && s.repo[k] == e
  {
    if replies.findFails then Step(Failure(time, FindFailed), s, [Find])
    else Step(Success(time, MsgListed, Listed(s.repo.Values)), s, [Find])
  }

  /** `controller.add`. */
  function AddStep(s: State, time: string, errors: seq<string>, body: Body, file: Option<FileRef>, replies: Replies): (st: Step)
    ensures Inv(s) ==> Inv(st.post)
    ensures st.post.nextId == if errors == [] then s.nextId + 1 else s.nextId
    ensures forall k :: k in st.post.repo && k !in s.repo ==> k == s.nextId
    // a failed request stores nothing
    ensures st.out.code != 200 ==> st.post.repo == s.repo
    // validation failure: 400 before any collaborator is called
    ensures errors != [] ==> st.out == Rejected(time, errors) && st.post == s && st.calls == []
    // no file: one save of a record built from the body, with no asset
    ensures errors == [] && file.None? ==>
              && st.post.live == s.live
              && |st.calls| == 1 && st.calls[0].Save?
              && var e := st.calls[0].event;
                 && e.id == s.nextId && Content(e) == body && e.imageUrl.None? && e.imageId.None?
                 && if replies.saveFails then st.out == Failure(time, SaveFailed) && st.post.repo == s.repo
                    else st.out == Success(time, MsgAdded, Record(e)) && st.post.repo == s.repo[e.id := e]
    // a file: the upload comes first, and nothing is saved when it fails
    ensures errors == [] && file.Some? ==>
              && |st.calls| >= 1 && st.calls[0] == UploadImage(file.value.path, ImageFolder)
              && (replies.upload.None? ==>
                    st.out == Failure(time, UploadFailed) && st.post.repo == s.repo && st.post.live == s.live && |st.calls| == 1)
    // a successful upload: then exactly one save, of a record whose asset fields are the returned reference
    ensures errors == [] && file.Some? && replies.upload.Some? ==>
              var image := replies.upload.value;
              && st.post.live == s.live + {image.id}
              && |st.calls| == 2 && st.calls[1].Save?
              && var e := st.calls[1].event;
                 && e.id == s.nextId && Content(e) == body
                 && e.imageUrl == Some(image.url) && e.imageId == Some(image.id)
                 && if replies.saveFails then st.out == Failure(time, SaveFailed) && st.post.repo == s.repo
                    else st.out == Success(time, MsgAdded, Record(e)) && st.post.repo == s.repo[e.id := e]
  {
    if errors != [] then Step(Rejected(time, errors), s, [])
    else
      var e := NewRecord(s.nextId, body);
      var s1 := s.(nextId := s.nextId + 1);
      match file
      case None => SaveThenReply(s1, time, MsgAdded, e, [], replies)
      case Some(f) => UploadThenSave(s1, time, MsgAdded, e, f, [], replies)
  }

  /** Whether `update` finds, and then keeps, the old asset when asked to replace it. */
  predicate DeleteBlocks(s: State, was: Event, replies: Replies)
  {
    Truthy(was.imageId) && (replies.deleteFails || was.imageId.value !in s.live)
  }

  /** The rest of `update` once the record is merged: with a file, delete the
      old asset if the record names one, then upload; then save. */
  function SaveMerged(s: State, time: string, e: Event, file: Option<FileRef>, replies: Replies): (st: Step)
    ensures st.post.nextId == s.nextId
    // only the merged record is written, under its own id, and nothing when the request fails
    ensures Inv(s) && e.id in s.repo && Paired(e) ==>
              && Inv(st.post)
              && st.post.repo.Keys == s.repo.Keys
              && (st.out.code == 200 ==> st.out.data.Record? && st.post.repo == s.repo[e.id := st.out.data.event])
              && (st.out.code != 200 ==> st.post.repo == s.repo)
    // every collaborator succeeds: one upload when a file came, after deleting the old asset, then 200 and the record saved
    ensures !replies.saveFails && (file.Some? ==> !DeleteBlocks(s, e, replies) && replies.upload.Some?) ==>
              var saved := if file.Some? then WithImage(e, replies.upload.value) else e;
              && st.out == Success(time, MsgUpdated, Record(saved))
              && st.post.repo == s.repo[e.id := saved]
              && st.calls == match file
                             case None => [Save(saved)]
                             case Some(f) =>
                               (if Truthy(e.imageId) then [DeleteImage(e.imageId.value)] else [])
                               + [UploadImage(f.path, ImageFolder), Save(saved)]
  {
    match file
    case None => SaveThenReply(s, time, MsgUpdated, e, [], replies)
    case Some(f) =>
      if Truthy(e.imageId) then
        if replies.deleteFails || e.imageId.value !in s.live then Step(Failure(time, DeleteFailed), s, [DeleteImage(e.imageId.value)])
        else UploadThenSave(s.(live := s.live - {e.imageId.value}), time, MsgUpdated, e, f, [DeleteImage(e.imageId.value)], replies)
      else UploadThenSave(s, time, MsgUpdated, e, f, [], replies)
  }

  /** `controller.update`. */
  function UpdateStep(s: State, time: string, errors: seq<string>, id: Id, body: Body, file: Option<FileRef>, replies: Replies): (st: Step)
    ensures st.post.nextId == s.nextId
    // a found record and collaborators that all succeed: 200 `Event updated` with the merged
    // record, which is stored under `id`; with a file its asset fields are the uploaded reference,
    // and exactly one upload is made, after the delete of the old asset when there is one
    ensures Inv(s) && errors == [] && !replies.findFails && id in s.repo && !replies.saveFails
            && (file.Some? ==> !DeleteBlocks(s, s.repo[id], replies) && replies.upload.Some?) ==>
              var merged := MergeFields(s.repo[id], body);
              var saved := if file.Some? then WithImage(merged, replies.upload.value) else merged;
              && st.out == Success(time, MsgUpdated, Record(saved))
              && st.post.repo == s.repo[id := saved]
              && st.calls == [FindById(id)]
                             + match file
                               case None => [Save(saved)]
                               case Some(f) =>
                                 (if Truthy(s.repo[id].imageId) then [DeleteImage(s.repo[id].imageId.value)] else [])
                                 + [UploadImage(f.path, ImageFolder), Save(saved)]
  {
    if errors != [] then Step(Rejected(time, errors), s, [])
    else if replies.findFails then Step(Failure(time, FindFailed), s, [FindById(id)])
    else if id !in s.repo then Step(NotFound(time), s, [FindById(id)])
    else
      var st := SaveMerged(s, time, MergeFields(s.repo[id], body), file, replies);
      st.(calls := [FindById(id)] + st.calls)
  }

  /** `update` keeps the invariant, hands out no id, never adds or removes a
      record, touches no record but `id`, and leaves that one as it was when
      it fails. */
  lemma UpdateTouchesOnlyId(s: State, time: string, errors: seq<string>, id: Id, body: Body, file: Option<FileRef>, replies: Replies)
    requires Inv(s)
    ensures var st := UpdateStep(s, time, errors, id, body, file, replies);
            && Inv(st.post)
            && st.post.nextId == s.nextId
            && st.post.repo.Keys == s.repo.Keys
            && (forall k :: k in s.repo && k != id ==> st.post.repo[k] == s.repo[k])
            && (st.out.code != 200 ==> st.post.repo == s.repo)
  {
  }

  /** `update` stops early on a validation failure (400, nothing called), on a
      failing lookup (500) and on a missing record (404), changing nothing. */
  lemma UpdateEarlyExits(s: State, time: string, errors: seq<string>, id: Id, body: Body, file: Option<FileRef>, replies: Replies)
    ensures var st := UpdateStep(s, time, errors, id, body, file, replies);
            && (errors != [] ==> st.out == Rejected(time, errors) && st.post == s && st.calls == [])
            && (errors == [] ==> |st.calls| >= 1 && st.calls[0] == FindById(id))
            && (errors == [] && replies.findFails ==>
                  st.out == Failure(time, FindFailed) && st.post == s && st.calls == [FindById(id)])
            && (errors == [] && !replies.findFails && id !in s.repo ==>
                  st.out == NotFound(time) && st.post == s && st.calls == [FindById(id)])
  {
  }

  /** A successful update stores and returns the truthy-or-keep merge of the
      body into the old record. */
  lemma UpdateStoresMerge(s: State, time: string, errors: seq<string>, id: Id, body: Body, file: Option<FileRef>, replies: Replies)
    requires Inv(s)
    // 200 exactly when no validation error, the record is found, and no collaborator fails
    ensures var st := UpdateStep(s, time, errors, id, body, file, replies);
            st.out.code == 200 <==>
              && errors == [] && !replies.findFails && id in s.repo && !replies.saveFails
              && (file.Some? ==> !DeleteBlocks(s, s.repo[id], replies) && replies.upload.Some?)
    ensures var st := UpdateStep(s, time, errors, id, body, file, replies);
            st.out.code == 200 ==>
              && id in s.repo && st.out == Success(time, MsgUpdated, Record(st.post.repo[id]))
              && st.post.repo[id].id == id
              && (forall f :: Stored(st.post.repo[id], f) == MergeField(Supplied(body, f), Stored(s.repo[id], f)))
              && (file.None? ==> st.post.repo[id].imageUrl == s.repo[id].imageUrl && st.post.repo[id].imageId == s.repo[id].imageId)
              && (file.Some? ==> replies.upload.Some? && st.post.repo[id] == WithImage(st.post.repo[id], replies.upload.value))
  {
  }

  /** Without a file, update leaves the asset fields and the media store alone,
      and a thrown save answers 500 with nothing changed. */
  lemma UpdateWithoutFileKeepsImage(s: State, time: string, id: Id, body: Body, replies: Replies)
    requires Inv(s) && !replies.findFails && id in s.repo
    ensures var st := UpdateStep(s, time, [], id, body, None, replies);
            && st.post.live == s.live
            && st.calls == [FindById(id), Save(MergeFields(s.repo[id], body))]
            && st.calls[1].event.imageUrl == s.repo[id].imageUrl && st.calls[1].event.imageId == s.repo[id].imageId
            && (!replies.saveFails ==> st.post.repo == s.repo[id := st.calls[1].event])
            && (replies.saveFails ==> st.out == Failure(time, SaveFailed) && st.post == s)
  {
  }

  /** With a file, update deletes the old asset (when the record names one)
      before it uploads; a failed delete stops it with nothing uploaded or
      stored; a failed upload after a delete leaves the record naming the
      deleted asset, and one with no old asset to delete changes nothing;
      a successful upload sets both asset fields from the
      returned reference, and they are stored unless the save throws. */
  lemma UpdateReplacesImage(s: State, time: string, id: Id, body: Body, file: FileRef, replies: Replies)
    requires Inv(s) && !replies.findFails && id in s.repo
    ensures var st := UpdateStep(s, time, [], id, body, Some(file), replies);
            var was := s.repo[id];
            var upload := UploadImage(file.path, ImageFolder);
            && (Truthy(was.imageId) ==> |st.calls| >= 2 && st.calls[1] == DeleteImage(was.imageId.value))
            && (Truthy(was.imageId) && |st.calls| >= 3 ==> st.calls[2] == upload)
            && (!Truthy(was.imageId) ==> |st.calls| >= 2 && st.calls[1] == upload)
            && (DeleteBlocks(s, was, replies) ==> st.out == Failure(time, DeleteFailed) && st.post == s && |st.calls| == 2)
            && (Truthy(was.imageId) && !DeleteBlocks(s, was, replies) && replies.upload.None? ==>
                  && st.out == Failure(time, UploadFailed)
                  && st.post.live == s.live - {was.imageId.value}
                  && st.post.repo == s.repo && |st.calls| == 3)
            && (!Truthy(was.imageId) && replies.upload.None? ==>
                  st.out == Failure(time, UploadFailed) && st.post == s && |st.calls| == 2)
            && (!DeleteBlocks(s, was, replies) && replies.upload.Some? ==>
                  var image := replies.upload.value;
                  && st.calls == [FindById(id)] + (if Truthy(was.imageId) then [DeleteImage(was.imageId.value)] else [])
                                 + [upload, Save(WithImage(MergeFields(was, body), image))]
                  && st.calls[|st.calls| - 1].Save?
                  && st.calls[|st.calls| - 1].event.imageUrl == Some(image.url)
                  && st.calls[|st.calls| - 1].event.imageId == Some(image.id)
                  && st.post.live == (if Truthy(was.imageId) then s.live - {was.imageId.value} else s.live) + {image.id}
                  && (!replies.saveFails ==>
                        && st.out.code == 200
                        && st.post.repo[id].imageUrl == Some(image.url)
                        && st.post.repo[id].imageId == Some(image.id))
                  && (replies.saveFails ==> st.out == Failure(time, SaveFailed) && st.post.repo == s.repo))
  {
  }

  /** `controller.del`. */
  function DeleteStep(s: State, time: string, id: Id, replies: Replies): (st: Step)
    ensures Inv(s) ==> Inv(st.post)
    // the media store is never touched: the record's asset stays where it is
    ensures st.post.live == s.live && st.post.nextId == s.nextId
    ensures st.out.code != 200 ==> st.post == s
    ensures |st.calls| >= 1 && st.calls[0] == FindById(id)
    ensures replies.findFails ==> st.out == Failure(time, FindFailed) && st.post == s && st.calls == [FindById(id)]
    // no record: 404 and no remove
    ensures !replies.findFails && id !in s.repo ==> st.out == NotFound(time) && st.post == s && st.calls == [FindById(id)]
    // a record: that key and no other is removed, and `{ eventId }` is returned
    ensures Inv(s) && !replies.findFails && id in s.repo ==>
              && st.calls == [FindById(id), Remove(id)]
              && if replies.removeFails then st.out == Failure(time, RemoveFailed)
                 else st.out == Success(time, MsgDeleted, Deleted(id)) && st.post.repo == s.repo - {id}
  {
    if replies.findFails then Step(Failure(time, FindFailed), s, [FindById(id)])
    else if id !in s.repo then Step(NotFound(time), s, [FindById(id)])
    else
      var e := s.repo[id];
      if replies.removeFails then Step(Failure(time, RemoveFailed), s, [FindById(id), Remove(e.id)])
      else Step(Success(time, MsgDeleted, Deleted(id)), s.(repo := s.repo - {e.id}), [FindById(id), Remove(e.id)])
  }

  /** One request to one of the four handlers. */
  datatype Request =
    | ListEvents(time: string)
    | AddEvent(time: string, errors: seq<string>, body: Body, file: Option<FileRef>)
    | UpdateEvent(time: string, errors: seq<string>, id: Id, body: Body, file: Option<FileRef>)
    | DeleteEvent(time: string, id: Id)

  /** A request together with how the collaborators answer it. */
  datatype Exchange = Exchange(request: Request, replies: Replies)

  function Handle(s: State, x: Exchange): (st: Step)
    ensures Inv(s) ==> Inv(st.post)
    ensures st.post.nextId >= s.nextId
    ensures Inv(s) ==> forall k :: k in st.post.repo && k !in s.repo ==> k >= s.nextId
  {
    match x.request
    case ListEvents(time) => GetAllStep(s, time, x.replies)
    case AddEvent(time, errors, body, file) => AddStep(s, time, errors, body, file, x.replies)
    case UpdateEvent(time, errors, id, body, file) =>
      var st := UpdateStep(s, time, errors, id, body, file, x.replies);
      assert Inv(s) ==> Inv(st.post) && st.post.repo.Keys == s.repo.Keys by {
        if Inv(s) {
          UpdateTouchesOnlyId(s, time, errors, id, body, file, x.replies);
        }
      }
      st
    case DeleteEvent(time, id) => DeleteStep(s, time, id, x.replies)
  }

  /** The state after handling the exchanges one after the other. */
  function Run(s: State, xs: seq<Exchange>): State
    decreases |xs|
  {
    if xs == [] then s else Run(Handle(s, xs[0]).post, xs[1..])
  }

  /** Every sequence of requests keeps the invariant: each record stays under
      its own id and never holds one asset field without the other. */
  lemma {:induction false} RunPreservesInv(s: State, xs: seq<Exchange>)
    requires Inv(s)
    ensures Inv(Run(s, xs))
    decreases |xs|
  {
    if xs != [] {
      RunPreservesInv(Handle(s, xs[0]).post, xs[1..]);
    }
  }

  /** An id that was handed out and no longer holds a record never holds one
      again: ids are not reused. */
  lemma {:induction false} RunNeverReusesIds(s: State, xs: seq<Exchange>, k: Id)
    requires Inv(s) && k < s.nextId && k !in s.repo
    ensures k !in Run(s, xs).repo
    decreases |xs|
  {
    if xs != [] {
      var post := Handle(s, xs[0]).post;
      RunNeverReusesIds(post, xs[1..], k);
    }
  }

  /** Deleting the record that a file-less add just created gives back the
      repository as it was, and neither request touches the media store. */
  lemma AddThenDeleteRestores(s: State, t1: string, body: Body, r1: Replies, t2: string, r2: Replies)
    requires Inv(s) && !r1.saveFails && !r2.findFails && !r2.removeFails
    ensures var added := AddStep(s, t1, [], body, None, r1);
            && added.out.data.Record?
            && var deleted := DeleteStep(added.post, t2, added.out.data.event.id, r2);
               && deleted.out == Success(t2, MsgDeleted, Deleted(s.nextId))
               && deleted.post.repo == s.repo && deleted.post.live == s.live
  {
  }

  /** The delete-before-upload risk: once an update with a file has deleted the
      old asset and then failed to upload, the record still names an asset the
      media store no longer holds, and the next update with a file fails on
      the delete and changes nothing; so does each later one for as long as no
      upload hands that asset id back. That second conclusion rests on the
      assumption that the media store refuses to delete an id it does not hold
      (see `Controller.EventController.MediaDelete`). */
  lemma FailedReplaceBlocksLaterReplace(
    s: State, t1: string, id: Id, b1: Body, f1: FileRef, r1: Replies,
    t2: string, b2: Body, f2: FileRef, r2: Replies)
    requires Inv(s) && id in s.repo && Truthy(s.repo[id].imageId) && s.repo[id].imageId.value in s.live
    requires !r1.findFails && !r1.deleteFails && r1.upload.None?
    requires !r2.findFails
    ensures var first := UpdateStep(s, t1, [], id, b1, Some(f1), r1);
            && first.out == Failure(t1, UploadFailed)
            && first.post.repo[id] == s.repo[id]
            && s.repo[id].imageId.value !in first.post.live
            && var second := UpdateStep(first.post, t2, [], id, b2, Some(f2), r2);
               second.out == Failure(t2, DeleteFailed) && second.post == first.post
  {
  }

  /** An update that supplies no truthy field and no file stores the record
      unchanged and returns it. */
  lemma UpdateWithNothingIsNoOp(s: State, time: string, id: Id, body: Body, replies: Replies)
    requires Inv(s) && id in s.repo && NothingSupplied(body)
    requires !replies.findFails && !replies.saveFails
    ensures var st := UpdateStep(s, time, [], id, body, None, replies);
            st.out == Success(time, MsgUpdated, Record(s.repo[id])) && st.post == s
  {
    MergeNothingIsIdentity(s.repo[id], body);
    assert s.repo[id := s.repo[id]] == s.repo;
  }
}
