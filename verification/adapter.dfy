/**
 * The list adapter of the photo screen: a full list of rows, a filtered list,
 * and a flag saying which of the two is on screen.
 */
module Adapter {
  import opened Wrappers
  import opened Rows

  /** The filter's test: a PHOTO row whose photo exists and was taken by `camera`. */
  predicate Matches(row: PhotoRow, camera: string)
  {
    row.rowType == PHOTO && row.photo.Some? && row.photo.value.camera.name == camera
  }

  /** The rows of `rows` that pass the camera test, in their original order. */
  function CameraFilter(rows: seq<PhotoRow>, camera: string): (r: seq<PhotoRow>)
    ensures |r| <= |rows|
    ensures forall i :: 0 <= i < |r| ==> Matches(r[i], camera) && r[i] in rows
  {
    if rows == [] then []
    else
      var last := rows[|rows| - 1];
      CameraFilter(rows[..|rows| - 1], camera) + (if Matches(last, camera) then [last] else [])
  }

  /** Filtering a concatenation filters each part: the kept rows stay in their original order. */
  lemma {:induction false} CameraFilterAppend(a: seq<PhotoRow>, b: seq<PhotoRow>, camera: string)
    ensures CameraFilter(a + b, camera) == CameraFilter(a, camera) + CameraFilter(b, camera)
    decreases |b|
  {
    if b == [] {
      assert a + b == a;
    } else {
      var b' := b[..|b| - 1];
      assert (a + b)[..|a + b| - 1] == a + b';
      assert (a + b)[|a + b| - 1] == b[|b| - 1];
      CameraFilterAppend(a, b', camera);
    }
  }

  /** The filter keeps every copy of a matching row and no copy of any other row. */
  lemma {:induction false} CameraFilterCounts(rows: seq<PhotoRow>, camera: string, row: PhotoRow)
    ensures multiset(CameraFilter(rows, camera))[row] == if Matches(row, camera) then multiset(rows)[row] else 0
  {
    if rows != [] {
      var init := rows[..|rows| - 1];
      assert rows == init + [rows[|rows| - 1]];
      CameraFilterCounts(init, camera, row);
    }
  }

  /**
   * Filtering what a filter kept by another camera keeps nothing: this is why
   * each switch of camera filters the full list and never the filtered one.
   */
  lemma {:induction false} CameraFilterCompose(rows: seq<PhotoRow>, a: string, b: string)
    ensures CameraFilter(CameraFilter(rows, a), b) == if a == b then CameraFilter(rows, a) else []
  {
    if rows != [] {
      var init := rows[..|rows| - 1];
      var last := rows[|rows| - 1];
      CameraFilterCompose(init, a, b);
      CameraFilterAppend(CameraFilter(init, a), if Matches(last, a) then [last] else [], b);
    }
  }

  /** The list without the element at `i`: what `ArrayList.removeAt(i)` leaves. */
  function RemoveAt(rows: seq<PhotoRow>, i: int): (r: seq<PhotoRow>)
    requires 0 <= i < |rows|
    ensures |r| == |rows| - 1
    ensures forall j :: 0 <= j < i ==> r[j] == rows[j]
    ensures forall j :: i <= j < |r| ==> r[j] == rows[j + 1]
  {
    rows[..i] + rows[i + 1..]
  }

  /**
   * The diff callback handed to the list-diffing utility. The constructor takes
   * the NEW rows first and the OLD rows second.
   */
  datatype PhotoRowDiffCallback = PhotoRowDiffCallback(newRows: seq<PhotoRow>, oldRows: seq<PhotoRow>)
  {
    function GetOldListSize(): (n: nat)
      ensures n == |oldRows|
    {
      |oldRows|
    }

    function GetNewListSize(): (n: nat)
      ensures n == |newRows|
    {
      |newRows|
    }

    /** Two rows stand for the same item exactly when they have the same row type. */
    function AreItemsTheSame(oldItemPosition: int, newItemPosition: int): (same: bool)
      requires 0 <= oldItemPosition < |oldRows| && 0 <= newItemPosition < |newRows|
      ensures same <==> oldRows[oldItemPosition].rowType == newRows[newItemPosition].rowType
      ensures AreContentsTheSame(oldItemPosition, newItemPosition) ==> same
    {
      oldRows[oldItemPosition].rowType == newRows[newItemPosition].rowType
    }

    /** Two rows have the same contents exactly when all three fields agree. */
    function AreContentsTheSame(oldItemPosition: int, newItemPosition: int): (same: bool)
      requires 0 <= oldItemPosition < |oldRows| && 0 <= newItemPosition < |newRows|
      ensures same <==> (var o, n := oldRows[oldItemPosition], newRows[newItemPosition];
                         o.rowType == n.rowType && o.photo == n.photo && o.header == n.header)
    {
      oldRows[oldItemPosition] == newRows[newItemPosition]
    }
  }

  /**
   * What the adapter tells the list view: a computed diff that is dispatched,
   * or the removal of one position. The list view's reaction is not modelled.
   */
  datatype Notification = Diffed(callback: PhotoRowDiffCallback) | ItemRemoved(position: int)

  class PhotoAdapter {
    var photoList: seq<PhotoRow>
    var filteredPhotoList: seq<PhotoRow>
    var filtering: bool
    /** Every notification sent so far, oldest first. */
    var notifications: seq<Notification>

    /** The list on screen: the filtered one while filtering, the full one otherwise. */
    ghost function Displayed(): seq<PhotoRow>
      reads this
    {
      if filtering then filteredPhotoList else photoList
    }

    constructor (photoList: seq<PhotoRow>)
      ensures this.photoList == photoList && filteredPhotoList == [] && !filtering
      ensures notifications == []
      ensures Displayed() == photoList
    {
      this.photoList := photoList;
      filteredPhotoList := [];
      filtering := false;
      notifications := [];
    }

    /** The number of rows on screen. */
    function GetItemCount(): (n: nat)
      reads this
      ensures n == |Displayed()|
      ensures filtering ==> n == |filteredPhotoList|
      ensures !filtering ==> n == |photoList|
    {
      if filtering then |filteredPhotoList| else |photoList|
    }

    /** The row bound at `position`, from the list that GetItemCount measures. */
    function GetPhotoRow(position: int): (row: PhotoRow)
      reads this
      requires 0 <= position < GetItemCount()
      ensures row == Displayed()[position]
      ensures row in Displayed()
    {
      if filtering then filteredPhotoList[position] else photoList[position]
    }

    /** The view type at `position`: the ordinal of that row's type. */
    function GetItemViewType(position: int): (viewType: nat)
      reads this
      requires 0 <= position < GetItemCount()
      ensures viewType == Ordinal(GetPhotoRow(position).rowType)
      ensures viewType == 0 <==> Displayed()[position].rowType == PHOTO
    {
      if filtering then Ordinal(filteredPhotoList[position].rowType)
      else Ordinal(photoList[position].rowType)
    }

    /** Shows only the photos of one camera, always filtering the full list. */
    method SwitchCamera(camera: string)
      modifies this
      ensures filtering
      ensures filteredPhotoList == CameraFilter(photoList, camera)
      ensures photoList == old(photoList)
      ensures Displayed() == CameraFilter(old(photoList), camera)
      ensures notifications == old(notifications) + [Diffed(PhotoRowDiffCallback(filteredPhotoList, old(photoList)))]
    {
      filtering := true;
      var newPhotos := CameraFilter(photoList, camera);
      notifications := notifications + [Diffed(PhotoRowDiffCallback(newPhotos, photoList))];
      filteredPhotoList := newPhotos;
    }

    /** Leaves filtering mode and empties the filtered list. */
    method ClearFilter()
      modifies this
      ensures !filtering && filteredPhotoList == []
      ensures photoList == old(photoList) && notifications == old(notifications)
      ensures Displayed() == old(photoList)
    {
      filtering := false;
      filteredPhotoList := [];
    }

    /** Replaces the full list and drops any filter. */
    method UpdatePhotos(photos: seq<PhotoRow>)
      modifies this
      ensures photoList == photos
      ensures !filtering && filteredPhotoList == []
      ensures Displayed() == photos
      ensures notifications == old(notifications) + [Diffed(PhotoRowDiffCallback(photos, old(photoList)))]
    {
      notifications := notifications + [Diffed(PhotoRowDiffCallback(photos, photoList))];
      photoList := photos;
      ClearFilter();
    }

    /**
     * SwitchCamera with the diff taken against the rows on screen, so that the
     * diff's old size is the item count the list view last saw.
     */
    method SwitchCameraOnScreen(camera: string)
      modifies this
      ensures filtering
      ensures filteredPhotoList == CameraFilter(photoList, camera)
      ensures photoList == old(photoList)
      ensures notifications == old(notifications) + [Diffed(PhotoRowDiffCallback(filteredPhotoList, old(Displayed())))]
      ensures notifications[|notifications| - 1].callback.GetOldListSize() == old(GetItemCount())
      ensures notifications[|notifications| - 1].callback.GetNewListSize() == GetItemCount()
    {
      var shown := if filtering then filteredPhotoList else photoList;
      var newPhotos := CameraFilter(photoList, camera);
      notifications := notifications + [Diffed(PhotoRowDiffCallback(newPhotos, shown))];
      filtering := true;
      filteredPhotoList := newPhotos;
    }

    /**
     * UpdatePhotos with the diff taken against the rows on screen, so that the
     * diff's old size is the item count the list view last saw.
     */
    method UpdatePhotosOnScreen(photos: seq<PhotoRow>)
      modifies this
      ensures photoList == photos
      ensures !filtering && filteredPhotoList == []
      ensures notifications == old(notifications) + [Diffed(PhotoRowDiffCallback(photos, old(Displayed())))]
      ensures notifications[|notifications| - 1].callback.GetOldListSize() == old(GetItemCount())
      ensures notifications[|notifications| - 1].callback.GetNewListSize() == GetItemCount()
    {
      var shown := if filtering then filteredPhotoList else photoList;
      notifications := notifications + [Diffed(PhotoRowDiffCallback(photos, shown))];
      photoList := photos;
      ClearFilter();
    }

    /** Removes the row at `row` from the list on screen; the other list is untouched. */
    method RemoveRow(row: int)
      requires 0 <= row < GetItemCount()
      modifies this
      ensures filtering == old(filtering)
      ensures Displayed() == RemoveAt(old(Displayed()), row)
      ensures old(filtering) ==> photoList == old(photoList)
      ensures !old(filtering) ==> filteredPhotoList == old(filteredPhotoList)
      ensures GetItemCount() == old(GetItemCount()) - 1
      ensures notifications == old(notifications) + [ItemRemoved(row)]
    {
      if filtering {
        filteredPhotoList := RemoveAt(filteredPhotoList, row);
      } else {
        photoList := RemoveAt(photoList, row);
      }
      notifications := notifications + [ItemRemoved(row)];
    }
  }

  /** Two photo rows, one from camera "A" and one from camera "B". */
  function TwoCameras(): (rows: seq<PhotoRow>)
    ensures |rows| == 2 && CameraFilter(rows, "A") == [rows[0]]
  {
    var a := PhotoRow(PHOTO, Some(Photo(Camera("A", "Camera A"), "a.jpg", "2017-01-01")), None);
    var b := PhotoRow(PHOTO, Some(Photo(Camera("B", "Camera B"), "b.jpg", "2017-01-01")), None);
    assert [a, b][..1] == [a];
    [a, b]
  }

  /**
   * Switching camera twice as SwitchCamera does: the second diff claims an old
   * list of two rows while the list view shows one.
   */
  method SecondSwitchDiff() returns (shown: nat, oldSize: nat)
    ensures shown == 1 && oldSize == 2
  {
    var adapter := new PhotoAdapter(TwoCameras());
    adapter.SwitchCamera("A");
    shown := adapter.GetItemCount();
    adapter.SwitchCamera("B");
    oldSize := adapter.notifications[|adapter.notifications| - 1].callback.GetOldListSize();
  }

  /**
   * New rows arriving while filtering, as UpdatePhotos handles them: the diff
   * claims an old list of two rows while the list view shows one.
   */
  method UpdateWhileFilteredDiff() returns (shown: nat, oldSize: nat)
    ensures shown == 1 && oldSize == 2
  {
    var adapter := new PhotoAdapter(TwoCameras());
    adapter.SwitchCamera("A");
    shown := adapter.GetItemCount();
    adapter.UpdatePhotos([]);
    oldSize := adapter.notifications[|adapter.notifications| - 1].callback.GetOldListSize();
  }

  /** The same two steps with the corrected methods: the diff's old size is the count on screen. */
  method SecondSwitchOnScreenDiff() returns (shown: nat, oldSize: nat)
    ensures shown == 1 && oldSize == shown
  {
    var adapter := new PhotoAdapter(TwoCameras());
    adapter.SwitchCameraOnScreen("A");
    shown := adapter.GetItemCount();
    adapter.SwitchCameraOnScreen("B");
    oldSize := adapter.notifications[|adapter.notifications| - 1].callback.GetOldListSize();
  }

  /** The same two steps with the corrected methods: the diff's old size is the count on screen. */
  method UpdateWhileFilteredOnScreenDiff() returns (shown: nat, oldSize: nat)
    ensures shown == 1 && oldSize == shown
  {
    var adapter := new PhotoAdapter(TwoCameras());
    adapter.SwitchCameraOnScreen("A");
    shown := adapter.GetItemCount();
    adapter.UpdatePhotosOnScreen([]);
    oldSize := adapter.notifications[|adapter.notifications| - 1].callback.GetOldListSize();
  }
}
