/**
 * The row records shared by the adapter and by the grouping of photos:
 * `RowType`, `PhotoRow`, and the minimal part of `Photo` the app reads.
 */
module Rows {
  import opened Wrappers

  /** The two kinds of row, declared in this order: PHOTO first, HEADER second. */
  datatype RowType = PHOTO | HEADER

  /** The enum's `ordinal`: its position in the declaration. */
  function Ordinal(t: RowType): (n: nat)
    ensures n < 2
    ensures n == 0 <==> t == PHOTO
    ensures n == 1 <==> t == HEADER
  {
    match t
    case PHOTO => 0
    case HEADER => 1
  }

  /** The camera a photo was taken with: its short `name` and its `full_name`. */
  datatype Camera = Camera(name: string, fullName: string)

  /**
   * A rover photo. Only the camera is inspected; the image address and the
   * earth date are carried along untouched.
   */
  datatype Photo = Photo(camera: Camera, imgSrc: string, earthDate: string)

  /**
   * One row of the list. `photo` and `header` are both nullable and nothing in
   * the type ties their presence to `rowType`. Equality is structural over the
   * three fields, as for a Kotlin data class.
   */
  datatype PhotoRow = PhotoRow(rowType: RowType, photo: Option<Photo>, header: Option<string>)
}
