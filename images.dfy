/**
 * Profile-image bookkeeping: a new image is ACTIVE when it belongs to a user
 * and PENDING otherwise, the user's previous ACTIVE image is demoted to
 * PENDING on a best-effort basis, and a sweep deletes PENDING images older
 * than one day. Whether a file or bucket operation succeeds is a parameter.
 */
module Images {
  import opened Base
  import opened Query

  /** `timedelta(days=1)` in seconds. */
  const OneDay: int := 86400

  datatype SaveType = Local | Gcp
  datatype UseType = UserProfile
  datatype State = Active | Pending

  /** A row of the image table. */
  datatype Image = Image(id: nat, name: string, saveType: SaveType, useType: UseType,
                         state: State, userId: Option<int>, createdAt: int)

  /** Uploading the new file failed; the request's changes are rolled back. */
  datatype ImageError = UploadFailed

  /** How `remove_previous_image` ends: normally, or by raising from the file or bucket deletion. */
  datatype RemovalOutcome = Completed | RemovalRaised

  /** The primary key of an image. */
  function ImageId(img: Image): int
  {
    img.id
  }

  /** Image ids grow with storage order, so no two rows share an id, and all lie below `nextId`. */
  ghost predicate IdsIncreasing(rows: seq<Image>, nextId: nat)
  {
    KeysIncreasing(rows, ImageId, nextId)
  }

  /** Each user has at most one ACTIVE image. */
  ghost predicate OneActivePerUser(rows: seq<Image>)
  {
    forall i, j ::
      (0 <= i < |rows| && 0 <= j < |rows| && rows[i].state == Active && rows[j].state == Active
       && rows[i].userId == rows[j].userId) ==> i == j
  }

  function ById(imageId: nat): Image -> bool
  {
    (img: Image) => img.id == imageId
  }

  /** The previous-image filter: the same `user_id` (None matches a missing user) and ACTIVE. */
  function ActiveOf(userId: Option<int>): Image -> bool
  {
    (img: Image) => img.userId == userId && img.state == Active
  }

  /** The image `save_profile_img` adds. */
  function NewProfileImage(id: nat, imgName: string, saveType: SaveType, userId: Option<int>, now: int): (img: Image)
    ensures img.state == Active <==> TruthyInt(userId)
    ensures img.id == id && img.name == imgName && img.saveType == saveType && img.userId == userId
    ensures img.useType == UserProfile && img.createdAt == now
  {
    Image(id, imgName, saveType, UserProfile, if userId.Some? && userId.value != 0 then Active else Pending, userId, now)
  }

  /** The table with every row whose id is `imageId` set to PENDING. */
  function Demoted(rows: seq<Image>, imageId: nat): (r: seq<Image>)
    ensures |r| == |rows|
    ensures forall i :: 0 <= i < |rows| && rows[i].id != imageId ==> r[i] == rows[i]
    ensures forall i :: 0 <= i < |rows| && rows[i].id == imageId ==> r[i] == rows[i].(state := Pending)
  {
    seq(|rows|, i requires 0 <= i < |rows| => if rows[i].id == imageId then rows[i].(state := Pending) else rows[i])
  }

  /** The table once the previous ACTIVE image of `userId`, if any, has been handled. */
  function AfterDemotion(rows: seq<Image>, userId: Option<int>, removalOk: bool): seq<Image>
  {
    match First(rows, ActiveOf(userId))
    case None => rows
    case Some(prev) => if removalOk then Demoted(rows, prev.id) else rows
  }

  /** A PENDING image created strictly before `cutoff`. */
  predicate IsStalePending(img: Image, cutoff: int)
  {
    img.state == Pending && img.createdAt < cutoff
  }

  /** The sweep's filter: `state == PENDING and created_at < cutoff`. */
  function SelectedBySweep(cutoff: int): Image -> bool
  {
    (img: Image) => IsStalePending(img, cutoff)
  }

  /** The complement of the sweep's filter. */
  function KeptBySweep(cutoff: int): Image -> bool
  {
    (img: Image) => !IsStalePending(img, cutoff)
  }

  /** A delete by id: the rows whose id is not in `ids`. */
  function IdNotIn(ids: set<nat>): Image -> bool
  {
    (img: Image) => img.id !in ids
  }

  /** The rows the sweep keeps, in storage order. */
  function Fresh(rows: seq<Image>, cutoff: int): (r: seq<Image>)
    ensures forall x :: x in r ==> x in rows && !IsStalePending(x, cutoff)
    ensures forall x :: x in rows && !IsStalePending(x, cutoff) ==> x in r
  {
    Where(rows, KeptBySweep(cutoff))
  }

  /** The rows the sweep selects for deletion, in storage order. */
  function Stale(rows: seq<Image>, cutoff: int): (r: seq<Image>)
    ensures forall x :: x in r ==> x in rows && IsStalePending(x, cutoff)
    ensures forall x :: x in rows && IsStalePending(x, cutoff) ==> x in r
  {
    Where(rows, SelectedBySweep(cutoff))
  }

  /** The rows whose id is not in `ids`, in storage order. */
  function WithoutIds(rows: seq<Image>, ids: set<nat>): (r: seq<Image>)
    ensures forall x :: x in r ==> x in rows && x.id !in ids
    ensures forall x :: x in rows && x.id !in ids ==> x in r
  {
    Where(rows, IdNotIn(ids))
  }

  function IdsOf(rows: seq<Image>): set<nat>
  {
    set x | x in rows :: x.id
  }

  class ImageService {
    /** The image table in storage order. */
    var images: seq<Image>
    /** The id the database hands to the next inserted image. */
    var nextId: nat

    ghost predicate Valid()
      reads this
    {
      IdsIncreasing(images, nextId)
    }

    constructor ()
      ensures Valid() && images == [] && nextId == 0
    {
      images := [];
      nextId := 0;
    }

    /**
     * `remove_previous_image`: when the image exists, deletes its file
     * (`ioOk` says whether that succeeds) and then sets it PENDING; a failing
     * deletion raises before the update. An unknown id changes nothing.
     */
    method RemovePreviousImage(prevImageId: nat, saveType: SaveType, ioOk: bool) returns (outcome: RemovalOutcome)
      requires Valid()
      modifies this
      ensures Valid() && nextId == old(nextId)
      ensures First(old(images), ById(prevImageId)).None? ==> outcome == Completed && images == old(images)
      ensures First(old(images), ById(prevImageId)).Some? && !ioOk ==> outcome == RemovalRaised && images == old(images)
      ensures First(old(images), ById(prevImageId)).Some? && ioOk ==> outcome == Completed && images == Demoted(old(images), prevImageId)
    {
      var prevImage := First(images, ById(prevImageId));
      if prevImage.None? {
        return Completed;
      }
      if !ioOk {
        return RemovalRaised;
      }
      images := Demoted(images, prevImageId);
      outcome := Completed;
    }

    /**
     * `save_profile_img`: looks up the user's ACTIVE image, adds the new
     * image, then demotes the previous one, swallowing a failed removal
     * (`removalOk`). A failed upload (`uploadOk`) raises before the commit,
     * so the table is left as it was.
     */
    method SaveProfileImg(imgName: string, saveType: SaveType, userId: Option<int>, now: int, removalOk: bool, uploadOk: bool)
      returns (r: Result<Image, ImageError>)
      requires Valid()
      modifies this
      ensures Valid()
      ensures !uploadOk ==> r == Err(UploadFailed) && images == old(images) && nextId == old(nextId)
      ensures uploadOk ==> r == Ok(NewProfileImage(old(nextId), imgName, saveType, userId, now))
      ensures uploadOk ==> images == AfterDemotion(old(images), userId, removalOk) + [r.value] && nextId == old(nextId) + 1
    {
      var savedImages, savedNextId := images, nextId;
      var prevImage := First(images, ActiveOf(userId));
      var newImage := NewProfileImage(nextId, imgName, saveType, userId, now);
      AddImage(newImage);
      if prevImage.Some? {
        var prev := prevImage.value;
        PreviousImageFoundAfterAdd(savedImages, savedNextId, newImage, prev);
        var outcome := RemovePreviousImage(prev.id, prev.saveType, removalOk);
      }
      if !uploadOk {
        images, nextId := savedImages, savedNextId;
        return Err(UploadFailed);
      }
      r := Ok(newImage);
    }

    /** `session.add` followed by `flush`: the new row is stored under the next id. */
    method AddImage(img: Image)
      requires Valid() && img.id == nextId
      modifies this
      ensures Valid()
      ensures images == old(images) + [img] && nextId == old(nextId) + 1
    {
      images := images + [img];
      nextId := nextId + 1;
    }

    /**
     * `remove_old_pending_images`: selects the PENDING images created
     * strictly before one day ago and deletes them one by one.
     */
    method RemoveOldPendingImages(now: int)
      requires Valid()
      modifies this
      ensures Valid() && nextId == old(nextId)
      ensures images == Fresh(old(images), now - OneDay)
    {
      var cutoff := now - OneDay;
      ghost var original := images;
      var oldPending := Stale(images, cutoff);
      var i := 0;
      SweepStart(original, oldPending);
      while i < |oldPending|
        invariant 0 <= i <= |oldPending|
        invariant nextId == old(nextId)
        invariant images == WithoutIds(original, IdsOf(oldPending[..i]))
      {
        var image := oldPending[i];
        SweepStep(original, oldPending, i);
        images := WithoutIds(images, {image.id});
        i := i + 1;
      }
      SweepDone(original, nextId, cutoff, oldPending[..i]);
    }
  }

  /**
   * The previous image, looked up before the new image was added, is still
   * found by id afterwards, and demoting it leaves the new image untouched.
   */
  lemma PreviousImageFoundAfterAdd(rows: seq<Image>, nextId: nat, newImage: Image, prev: Image)
    requires IdsIncreasing(rows, nextId) && prev in rows && newImage.id == nextId
    ensures First(rows + [newImage], ById(prev.id)).Some?
    ensures Demoted(rows + [newImage], prev.id) == Demoted(rows, prev.id) + [newImage]
  {
    assert prev in rows + [newImage] && ById(prev.id)(prev);
    assert newImage.id != prev.id;
  }

  /** Dropping no id keeps the whole table. */
  lemma WithoutNoIds(rows: seq<Image>)
    ensures WithoutIds(rows, {}) == rows
  {
    WhereAll(rows, IdNotIn({}));
  }

  /** Dropping ids in two steps drops their union. */
  lemma WithoutMore(rows: seq<Image>, ids: set<nat>, id: nat)
    ensures WithoutIds(WithoutIds(rows, ids), {id}) == WithoutIds(rows, ids + {id})
  {
    WhereTwice(rows, IdNotIn(ids), IdNotIn({id}), IdNotIn(ids + {id}));
  }

  /** Before the sweep's loop nothing has been deleted. */
  lemma SweepStart(rows: seq<Image>, selected: seq<Image>)
    ensures WithoutIds(rows, IdsOf(selected[..0])) == rows
  {
    assert IdsOf(selected[..0]) == {};
    WithoutNoIds(rows);
  }

  /** One turn of the sweep's loop deletes the id of the next selected image. */
  lemma SweepStep(rows: seq<Image>, selected: seq<Image>, i: nat)
    requires i < |selected|
    ensures WithoutIds(WithoutIds(rows, IdsOf(selected[..i])), {selected[i].id}) == WithoutIds(rows, IdsOf(selected[..i + 1]))
  {
    WithoutMore(rows, IdsOf(selected[..i]), selected[i].id);
    assert selected[..i + 1] == selected[..i] + [selected[i]];
    assert IdsOf(selected[..i + 1]) == IdsOf(selected[..i]) + {selected[i].id};
  }

  /** After the sweep's loop exactly the fresh rows remain, ids still increasing. */
  lemma SweepDone(rows: seq<Image>, nextId: nat, cutoff: int, deleted: seq<Image>)
    requires IdsIncreasing(rows, nextId) && deleted == Stale(rows, cutoff)
    ensures WithoutIds(rows, IdsOf(deleted)) == Fresh(rows, cutoff)
    ensures IdsIncreasing(Fresh(rows, cutoff), nextId)
  {
    SweepRemovesStale(rows, nextId, cutoff);
    WhereKeepsKeysIncreasing(rows, ImageId, nextId, KeptBySweep(cutoff));
  }

  /** Deleting rows by id is the same as keeping the fresh rows, when exactly the stale rows carry a deleted id. */
  lemma DropByIdsIsFresh(rows: seq<Image>, ids: set<nat>, cutoff: int)
    requires forall x :: x in rows ==> (x.id in ids <==> IsStalePending(x, cutoff))
    ensures WithoutIds(rows, ids) == Fresh(rows, cutoff)
  {
    WhereSame(rows, IdNotIn(ids), KeptBySweep(cutoff));
  }

  /** With unique ids, deleting the ids of the stale rows deletes exactly the stale rows. */
  lemma SweepRemovesStale(rows: seq<Image>, nextId: nat, cutoff: int)
    requires IdsIncreasing(rows, nextId)
    ensures WithoutIds(rows, IdsOf(Stale(rows, cutoff))) == Fresh(rows, cutoff)
  {
    var ids := IdsOf(Stale(rows, cutoff));
    forall x | x in rows ensures x.id in ids <==> IsStalePending(x, cutoff) {
      if x.id in ids {
        var y :| y in Stale(rows, cutoff) && y.id == x.id;
        var i :| 0 <= i < |rows| && rows[i] == x;
        var j :| 0 <= j < |rows| && rows[j] == y;
        assert i == j;
      }
    }
    DropByIdsIsFresh(rows, ids, cutoff);
  }

  /** The sweep deletes exactly the PENDING images created before the cutoff; every other image survives. */
  lemma SweepKeepsExactlyFresh(rows: seq<Image>, cutoff: int, x: Image)
    requires x in rows
    ensures x in Fresh(rows, cutoff) <==> !(x.state == Pending && x.createdAt < cutoff)
  {
  }

  /** When the removal succeeds, saving a profile image keeps each user at one ACTIVE image at most. */
  lemma SaveKeepsOneActive(rows: seq<Image>, newImage: Image, userId: Option<int>)
    requires OneActivePerUser(rows)
    requires newImage.userId == userId && (newImage.state == Active ==> TruthyInt(userId))
    ensures OneActivePerUser(AfterDemotion(rows, userId, true) + [newImage])
  {
    var after := AfterDemotion(rows, userId, true);
    var all := after + [newImage];
    forall i | 0 <= i < |after| && after[i].state == Active
      ensures after[i].userId != userId
    {
      match First(rows, ActiveOf(userId))
      case None =>
        assert !ActiveOf(userId)(rows[i]);
      case Some(prev) =>
        var k :| 0 <= k < |rows| && rows[k] == prev;
    }
    forall i, j | 0 <= i < |all| && 0 <= j < |all| && all[i].state == Active && all[j].state == Active
      && all[i].userId == all[j].userId
      ensures i == j
    {
      if i < |after| && j < |after| {
        assert after[i].state == Active && after[j].state == Active;
      }
    }
  }

  /**
   * The demotion is best effort: when a user with an ACTIVE image saves a
   * new one and removing the previous file fails, both images are ACTIVE.
   */
  lemma FailedRemovalLeavesTwoActive(rows: seq<Image>, id: nat, imgName: string, saveType: SaveType, userId: Option<int>, now: int)
    requires TruthyInt(userId) && First(rows, ActiveOf(userId)).Some?
    ensures !OneActivePerUser(AfterDemotion(rows, userId, false) + [NewProfileImage(id, imgName, saveType, userId, now)])
  {
    var prev := First(rows, ActiveOf(userId)).value;
    var all := AfterDemotion(rows, userId, false) + [NewProfileImage(id, imgName, saveType, userId, now)];
    var k :| 0 <= k < |rows| && rows[k] == prev;
    assert all[k] == prev && all[|rows|].state == Active && all[|rows|].userId == userId;
  }
}
