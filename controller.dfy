/** The controller itself: one object holding the repository and the media
    store, with one method per handler that takes the source's steps in order
    and is proved to do what the Lifecycle functions say. */
module Controller {
  import opened Records
  import opened Lifecycle

  /** What `Event.findById` yields: an error, no document, or a copy of the record. */
  datatype Lookup = LookupFailed | Missing | Found(event: Event)

  class EventController {
    var repo: map<Id, Event>
    var live: set<string>
    var nextId: Id
    /** Every collaborator call made so far, in order. */
    ghost var calls: seq<Call>

    function Snapshot(): State
      reads this
    {
      State(repo, live, nextId)
    }

    ghost predicate Valid()
      reads this
    {
      Inv(Snapshot())
    }

    constructor ()
      ensures Valid() && Snapshot() == State(map[], {}, 0) && calls == []
    {
      repo, live, nextId := map[], {}, 0;
      calls := [];
    }

    // The collaborators: each call is logged, and either throws or takes effect.

    /** `await Event.find()` */
    method RepoFind(replies: Replies) returns (r: Option<set<Event>>)
      modifies this`calls
      ensures calls == old(calls) + [Find]
      ensures r == if replies.findFails then None else Some(repo.Values)
    {
      calls := calls + [Find];
      if replies.findFails {
        return None;
      }
      return Some(repo.Values);
    }

    /** `await Event.findById(eventId)` */
    method RepoFindById(id: Id, replies: Replies) returns (r: Lookup)
      modifies this`calls
      ensures calls == old(calls) + [FindById(id)]
      ensures r == if replies.findFails then LookupFailed else if id in repo then Found(repo[id]) else Missing
    {
      calls := calls + [FindById(id)];
      if replies.findFails {
        return LookupFailed;
      }
      if id !in repo {
        return Missing;
      }
      return Found(repo[id]);
    }

    /** Building a new document from the body; it gets its id when it is built. */
    method RepoNew(body: Body) returns (e: Event)
      modifies this`nextId
      ensures e == NewRecord(old(nextId), body) && nextId == old(nextId) + 1
    {
      e := NewRecord(nextId, body);
      nextId := nextId + 1;
    }

    /** `await event.save()`: writes the record under its own id. */
    method RepoSave(e: Event, replies: Replies) returns (ok: bool)
      modifies this`repo, this`calls
      ensures calls == old(calls) + [Save(e)]
      ensures ok == !replies.saveFails
      ensures repo == if ok then old(repo)[e.id := e] else old(repo)
    {
      calls := calls + [Save(e)];
      if replies.saveFails {
        return false;
      }
      repo := repo[e.id := e];
      return true;
    }

    /** `await event.remove()`: deletes the record under its own id. */
    method RepoRemove(e: Event, replies: Replies) returns (ok: bool)
      modifies this`repo, this`calls
      ensures calls == old(calls) + [Remove(e.id)]
      ensures ok == !replies.removeFails
      ensures repo == if ok then old(repo) - {e.id} else old(repo)
    {
      calls := calls + [Remove(e.id)];
      if replies.removeFails {
        return false;
      }
      repo := repo - {e.id};
      return true;
    }

    /** `await cloudinaryAPI.uploadImage(imagePath, imageFolder)` */
    method MediaUpload(path: string, folder: string, replies: Replies) returns (r: Option<AssetRef>)
      modifies this`live, this`calls
      ensures calls == old(calls) + [UploadImage(path, folder)]
      ensures r == replies.upload
      ensures live == if r.Some? then old(live) + {r.value.id} else old(live)
    {
      calls := calls + [UploadImage(path, folder)];
      r := replies.upload;
      if r.Some? {
        live := live + {r.value.id};
      }
    }

    /** `await cloudinaryAPI.deleteImage(imageId)`: fails on an id the store does not hold. */
    method MediaDelete(assetId: string, replies: Replies) returns (ok: bool)
      modifies this`live, this`calls
      ensures calls == old(calls) + [DeleteImage(assetId)]
      ensures ok == (!replies.deleteFails && assetId in old(live))
      ensures live == if ok then old(live) - {assetId} else old(live)
    {
      calls := calls + [DeleteImage(assetId)];
      if replies.deleteFails || assetId !in live {
        return false;
      }
      live := live - {assetId};
      return true;
    }

    // The handlers.

    /** `controller.getAll` */
    method GetAll(time: string, replies: Replies) returns (out: Outcome)
      requires Valid()
      modifies this`calls
      ensures Valid()
      ensures var st := GetAllStep(old(Snapshot()), time, replies);
              out == st.out && Snapshot() == st.post && calls == old(calls) + st.calls
    {
      var events := RepoFind(replies);
      if events.None? {
        return Failure(time, FindFailed);
      }
      return Success(time, MsgListed, Listed(events.value));
    }

    /** `controller.add` */
    method Add(time: string, errors: seq<string>, body: Body, file: Option<FileRef>, replies: Replies) returns (out: Outcome)
      requires Valid()
      modifies this
      ensures Valid()
      ensures var st := AddStep(old(Snapshot()), time, errors, body, file, replies);
              out == st.out && Snapshot() == st.post && calls == old(calls) + st.calls
    {
      if errors != [] {
        return Rejected(time, errors);
      }
      var event := RepoNew(body);
      if file.Some? {
        var image := MediaUpload(file.value.path, ImageFolder, replies);
        if image.None? {
          return Failure(time, UploadFailed);
        }
        event := event.(imageUrl := Some(image.value.url));
        event := event.(imageId := Some(image.value.id));
      }
      var saved := RepoSave(event, replies);
      if !saved {
        return Failure(time, SaveFailed);
      }
      return Success(time, MsgAdded, Record(event));
    }

    /** `controller.update` */
    method Update(time: string, errors: seq<string>, id: Id, body: Body, file: Option<FileRef>, replies: Replies) returns (out: Outcome)
      requires Valid()
      modifies this
      ensures Valid()
      ensures var st := UpdateStep(old(Snapshot()), time, errors, id, body, file, replies);
              out == st.out && Snapshot() == st.post && calls == old(calls) + st.calls
    {
      UpdateTouchesOnlyId(Snapshot(), time, errors, id, body, file, replies);
      if errors != [] {
        return Rejected(time, errors);
      }
      var found := RepoFindById(id, replies);
      if found.LookupFailed? {
        return Failure(time, FindFailed);
      }
      if found.Missing? {
        return NotFound(time);
      }
      var event := found.event;
      event := event.(title := MergeField(body.title, event.title),
                      status := MergeField(body.status, event.status),
                      description := MergeField(body.description, event.description),
                      dateStart := MergeField(body.dateStart, event.dateStart),
                      dateEnd := MergeField(body.dateEnd, event.dateEnd));
      out := SaveMergedEvent(time, event, file, replies);
    }

    /** The rest of `update` once the record is merged (the `if (req.file)`
        block and the save). */
    method SaveMergedEvent(time: string, merged: Event, file: Option<FileRef>, replies: Replies) returns (out: Outcome)
      modifies this`live, this`repo, this`calls
      ensures var st := SaveMerged(old(Snapshot()), time, merged, file, replies);
              out == st.out && Snapshot() == st.post && calls == old(calls) + st.calls
    {
      var event := merged;
      if file.Some? {
        if Truthy(event.imageId) {
          var deleted := MediaDelete(event.imageId.value, replies);
          if !deleted {
            return Failure(time, DeleteFailed);
          }
        }
        var image := MediaUpload(file.value.path, ImageFolder, replies);
        if image.None? {
          return Failure(time, UploadFailed);
        }
        event := event.(imageUrl := Some(image.value.url));
        event := event.(imageId := Some(image.value.id));
      }
      var saved := RepoSave(event, replies);
      if !saved {
        return Failure(time, SaveFailed);
      }
      return Success(time, MsgUpdated, Record(event));
    }

    /** `controller.del` */
    method Del(time: string, id: Id, replies: Replies) returns (out: Outcome)
      requires Valid()
      modifies this
      ensures Valid()
      ensures var st := DeleteStep(old(Snapshot()), time, id, replies);
              out == st.out && Snapshot() == st.post && calls == old(calls) + st.calls
    {
      var found := RepoFindById(id, replies);
      if found.LookupFailed? {
        return Failure(time, FindFailed);
      }
      if found.Missing? {
        return NotFound(time);
      }
      var removed := RepoRemove(found.event, replies);
      if !removed {
        return Failure(time, RemoveFailed);
      }
      return Success(time, MsgDeleted, Deleted(id));
    }
  }
}
