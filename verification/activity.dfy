/**
 * The photo screen: grouping the downloaded photos into rows, the two spinner
 * listeners that pick a rover and a camera, and the swipe handler that
 * removes rows.
 */
module Activity {
  import opened Wrappers
  import opened Rows
  import opened Grouping
  import opened Adapter

  /**
   * Groups the photos by camera full name: for each name, a HEADER row and then
   * that camera's PHOTO rows in input order. The names come out in the
   * iteration order of a hash map, which is not fixed; `order` records the
   * order this run chose, and any order listing each name once may occur.
   */
  method SortPhotos(photos: seq<Photo>) returns (newPhotos: seq<PhotoRow>, ghost order: seq<string>)
    ensures IsKeyOrder(order, photos)
    ensures newPhotos == Grouped(photos, order)
    ensures |newPhotos| == |photos| + |Names(photos)|
    ensures multiset(PhotosOf(newPhotos)) == multiset(photos)
    ensures forall k :: multiset(HeadersOf(newPhotos))[k] == if k in Names(photos) then 1 else 0
  {
    var groups := GroupByName(photos);
    newPhotos := [];
    order := [];
    var remaining := groups.Keys;
    while remaining != {}
      invariant remaining <= groups.Keys
      invariant forall key :: key in order ==> key in groups && key !in remaining
      invariant forall key :: key in groups && key !in remaining ==> key in order
      invariant NoDuplicates(order)
      invariant newPhotos == Grouped(photos, order)
      decreases remaining
    {
      var key :| key in remaining;
      var value := groups[key];
      ghost var before := newPhotos;
      newPhotos := AppendGroup(newPhotos, key, value);
      GroupedSnoc(photos, order, key);
      BlockSnoc(before, photos, key);
      NoDuplicatesSnoc(order, key);
      forall k | k in order + [key] ensures k in groups && k !in remaining - {key} {
        if k != key {
          assert k in order;
        }
      }
      order := order + [key];
      remaining := remaining - {key};
    }
    SortedLength(photos, order);
    SortedPhotos(photos, order);
    SortedHeaders(photos, order);
  }

  /** One turn of the second pass of SortPhotos: a header row for `key`, then a PHOTO row per photo. */
  method AppendGroup(rows: seq<PhotoRow>, key: string, value: seq<Photo>) returns (newRows: seq<PhotoRow>)
    ensures newRows == rows + [HeaderRow(key)] + PhotoRows(value)
  {
    newRows := rows + [HeaderRow(key)];
    ghost var prefix := newRows;
    for j := 0 to |value|
      invariant newRows == prefix + PhotoRows(value[..j])
    {
      PhotoRowsSnoc(value, j);
      newRows := newRows + [PhotoRowOf(value[j])];
    }
    assert value[..|value|] == value;
  }

  /** The first pass of SortPhotos: each camera full name mapped to its photos, in input order. */
  method GroupByName(photos: seq<Photo>) returns (groups: map<string, seq<Photo>>)
    ensures groups.Keys == Names(photos)
    ensures forall key :: key in groups ==> groups[key] == Select(photos, key)
  {
    groups := map[];
    for i := 0 to |photos|
      invariant groups.Keys == Names(photos[..i])
      invariant forall key :: key in groups ==> groups[key] == Select(photos[..i], key)
    {
      var photo := photos[i];
      assert photos[..i + 1] == photos[..i] + [photo];
      NamesSnoc(photos[..i], photo);
      if FullName(photo) !in groups {
        SelectAbsent(photos[..i], FullName(photo));
        groups := groups[FullName(photo) := []];
      }
      groups := groups[FullName(photo) := groups[FullName(photo)] + [photo]];
      forall key | key in groups ensures groups[key] == Select(photos[..i + 1], key) {
        SelectSnoc(photos[..i], photo, key);
      }
    }
    assert photos[..|photos|] == photos;
  }

  /** ASCII case folding of one character. */
  function LowerChar(c: char): char
  {
    if 'A' <= c <= 'Z' then (c as int - 'A' as int + 'a' as int) as char else c
  }

  /** A string with its upper-case ASCII letters turned to lower case. */
  function ToLower(s: string): (r: string)
    ensures |r| == |s|
    ensures forall i :: 0 <= i < |r| ==> !('A' <= r[i] <= 'Z')
    ensures forall i :: 0 <= i < |r| && !('A' <= s[i] <= 'Z') ==> r[i] == s[i]
    ensures forall i :: 0 <= i < |r| && 'A' <= s[i] <= 'Z' ==> r[i] == (s[i] as int - 'A' as int + 'a' as int) as char
  {
    if s == [] then [] else ToLower(s[..|s| - 1]) + [LowerChar(s[|s| - 1])]
  }

  /** Lowering a name that is already lowered changes nothing. */
  lemma ToLowerIdempotent(s: string)
    ensures ToLower(ToLower(s)) == ToLower(s)
  {
    // Follows from ToLower's pointwise ensures: a lowered name has no letter A-Z left to change.
  }

  class MainActivity {
    var currentRover: string
    var currentRoverPosition: int
    var currentCameraPosition: int
    /** The list view's adapter: null until the first photos have arrived. */
    var adapter: PhotoAdapter?
    /** The names listed by the rover spinner. */
    const roverStrings: seq<string>
    /** The camera names that the camera spinner's positions stand for. */
    const cameraStrings: seq<string>
    /** The rovers whose photos have been requested, oldest first. */
    var photoRequests: seq<string>

    constructor (roverStrings: seq<string>, cameraStrings: seq<string>)
      ensures currentRover == "curiosity" && currentRoverPosition == 0 && currentCameraPosition == 0
      ensures adapter == null && photoRequests == []
      ensures this.roverStrings == roverStrings && this.cameraStrings == cameraStrings
    {
      currentRover := "curiosity";
      currentRoverPosition := 0;
      currentCameraPosition := 0;
      adapter := null;
      this.roverStrings := roverStrings;
      this.cameraStrings := cameraStrings;
      photoRequests := [];
    }

    /** Asks for the current rover's photos; the request and its reply are not modelled. */
    method LoadPhotos()
      modifies this`photoRequests
      ensures photoRequests == old(photoRequests) + [currentRover]
    {
      photoRequests := photoRequests + [currentRover];
    }

    /**
     * The reply to a request, once it succeeded: the first list of photos
     * creates the adapter, any later one replaces the adapter's rows.
     */
    method OnPhotosReceived(photos: seq<Photo>)
      modifies this, adapter
      ensures adapter != null
      ensures exists order :: IsKeyOrder(order, photos) && adapter.photoList == Grouped(photos, order)
      ensures !adapter.filtering && adapter.filteredPhotoList == []
      ensures old(adapter) == null ==> fresh(adapter) && adapter.notifications == []
      ensures old(adapter) != null ==>
        && adapter == old(adapter)
        && adapter.notifications ==
             old(adapter.notifications) + [Diffed(PhotoRowDiffCallback(adapter.photoList, old(adapter.photoList)))]
      ensures currentRover == old(currentRover) && currentRoverPosition == old(currentRoverPosition)
      ensures currentCameraPosition == old(currentCameraPosition) && photoRequests == old(photoRequests)
    {
      var rows;
      ghost var order;
      rows, order := SortPhotos(photos);
      if adapter == null {
        adapter := new PhotoAdapter(rows);
      } else {
        adapter.UpdatePhotos(rows);
      }
      assert IsKeyOrder(order, photos) && adapter.photoList == Grouped(photos, order);
    }

    /**
     * The rover spinner's listener: a new position switches rover and reloads;
     * the position is recorded either way.
     */
    method OnRoverSelected(position: int)
      requires position != currentRoverPosition ==> 0 <= position < |roverStrings|
      modifies this
      ensures currentRoverPosition == position
      ensures old(currentRoverPosition) != position ==>
        currentRover == ToLower(roverStrings[position]) && photoRequests == old(photoRequests) + [currentRover]
      ensures old(currentRoverPosition) == position ==>
        currentRover == old(currentRover) && photoRequests == old(photoRequests)
      ensures adapter == old(adapter) && currentCameraPosition == old(currentCameraPosition)
    {
      if currentRoverPosition != position {
        currentRover := ToLower(roverStrings[position]);
        LoadPhotos();
      }
      currentRoverPosition := position;
    }

    /**
     * The camera spinner's listener: once there is an adapter, a new position
     * filters it by that camera; the position is recorded either way.
     */
    method OnCameraSelected(position: int)
      requires adapter != null && position != currentCameraPosition ==> 0 <= position < |cameraStrings|
      modifies this, adapter
      ensures currentCameraPosition == position
      ensures adapter == old(adapter) && currentRover == old(currentRover)
      ensures currentRoverPosition == old(currentRoverPosition) && photoRequests == old(photoRequests)
      ensures adapter != null && old(currentCameraPosition) != position ==>
        && adapter.filtering
        && adapter.photoList == old(adapter.photoList)
        && adapter.filteredPhotoList == CameraFilter(adapter.photoList, cameraStrings[position])
        && adapter.notifications ==
             old(adapter.notifications) + [Diffed(PhotoRowDiffCallback(adapter.filteredPhotoList, old(adapter.photoList)))]
      ensures adapter != null && old(currentCameraPosition) == position ==> unchanged(adapter)
    {
      if adapter != null && currentCameraPosition != position {
        adapter.SwitchCamera(cameraStrings[position]);
      }
      currentCameraPosition := position;
    }
  }

  /** Removes a row when it is swiped left or right; rows cannot be dragged. */
  class SwipeHandler {
    const adapter: PhotoAdapter

    constructor (adapter: PhotoAdapter)
      ensures this.adapter == adapter
    {
      this.adapter := adapter;
    }

    /** A drag onto another row is always refused. */
    function OnMove(): (accepted: bool)
      ensures !accepted
    {
      false
    }

    /** The swiped row leaves the list on screen. */
    method OnSwiped(adapterPosition: int)
      requires 0 <= adapterPosition < adapter.GetItemCount()
      modifies adapter
      ensures adapter.filtering == old(adapter.filtering)
      ensures adapter.Displayed() == RemoveAt(old(adapter.Displayed()), adapterPosition)
      ensures adapter.GetItemCount() == old(adapter.GetItemCount()) - 1
      ensures old(adapter.filtering) ==> adapter.photoList == old(adapter.photoList)
      ensures !old(adapter.filtering) ==> adapter.filteredPhotoList == old(adapter.filteredPhotoList)
      ensures adapter.notifications == old(adapter.notifications) + [ItemRemoved(adapterPosition)]
    {
      adapter.RemoveRow(adapterPosition);
    }
  }
}
