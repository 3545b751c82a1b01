/**
 * What the photo screen's `sortPhotos` produces: for every distinct camera
 * full name, one HEADER row followed by that camera's PHOTO rows.
 *
 * The order in which the names come out is the iteration order of a hash map,
 * which the program does not fix. Every definition here therefore takes that
 * order as a parameter `order`, and every property is proved for each `order`
 * that lists each distinct full name exactly once (IsKeyOrder).
 */
module Grouping {
  import opened Wrappers
  import opened Rows

  /** The grouping key: the photo's camera full name. */
  function FullName(p: Photo): string
  {
    p.camera.fullName
  }

  /** The photos whose full name is `key`, in input order. */
  function Select(photos: seq<Photo>, key: string): (r: seq<Photo>)
    ensures |r| <= |photos|
    ensures forall i :: 0 <= i < |r| ==> FullName(r[i]) == key && r[i] in photos
  {
    if photos == [] then []
    else
      var last := photos[|photos| - 1];
      Select(photos[..|photos| - 1], key) + (if FullName(last) == key then [last] else [])
  }

  /** Selecting from a concatenation selects from each part: a group keeps its photos' input order. */
  lemma {:induction false} SelectAppend(a: seq<Photo>, b: seq<Photo>, key: string)
    ensures Select(a + b, key) == Select(a, key) + Select(b, key)
    decreases |b|
  {
    if b == [] {
      assert a + b == a;
    } else {
      var b' := b[..|b| - 1];
      assert (a + b)[..|a + b| - 1] == a + b';
      assert (a + b)[|a + b| - 1] == b[|b| - 1];
      SelectAppend(a, b', key);
    }
  }

  /** A group holds every copy of each photo with its key and nothing else. */
  lemma {:induction false} SelectCounts(photos: seq<Photo>, key: string, p: Photo)
    ensures multiset(Select(photos, key))[p] == if FullName(p) == key then multiset(photos)[p] else 0
  {
    if photos != [] {
      var init := photos[..|photos| - 1];
      assert photos == init + [photos[|photos| - 1]];
      SelectCounts(init, key, p);
    }
  }

  /** The distinct full names of the photos: the keys of the grouping map. */
  function Names(photos: seq<Photo>): set<string>
  {
    set p | p in photos :: FullName(p)
  }

  /** A name no photo has selects nothing. */
  lemma SelectAbsent(photos: seq<Photo>, key: string)
    requires key !in Names(photos)
    ensures Select(photos, key) == []
  {
  }

  /** One more photo adds its name to the names. */
  lemma NamesSnoc(photos: seq<Photo>, p: Photo)
    ensures Names(photos + [p]) == Names(photos) + {FullName(p)}
  {
  }

  /** One more photo joins the end of its own group and no other. */
  lemma SelectSnoc(photos: seq<Photo>, p: Photo, key: string)
    ensures Select(photos + [p], key) == Select(photos, key) + (if FullName(p) == key then [p] else [])
  {
    assert (photos + [p])[..|photos|] == photos;
  }

  predicate NoDuplicates(order: seq<string>)
  {
    forall i, j :: 0 <= i < j < |order| ==> order[i] != order[j]
  }

  /** A name not yet listed can be appended without creating a duplicate. */
  lemma NoDuplicatesSnoc(order: seq<string>, key: string)
    requires NoDuplicates(order) && key !in order
    ensures NoDuplicates(order + [key])
  {
    var o := order + [key];
    forall i, j | 0 <= i < j < |o| ensures o[i] != o[j] {
      if j == |order| {
        assert o[i] == order[i] && o[i] in order;
      }
    }
  }

  /** `order` lists every distinct full name of `photos` exactly once. */
  ghost predicate IsKeyOrder(order: seq<string>, photos: seq<Photo>)
  {
    NoDuplicates(order) && forall k :: k in order <==> k in Names(photos)
  }

  function HeaderRow(key: string): PhotoRow
  {
    PhotoRow(HEADER, None, Some(key))
  }

  function PhotoRowOf(p: Photo): PhotoRow
  {
    PhotoRow(PHOTO, Some(p), None)
  }

  /** One PHOTO row per photo, in order. */
  function PhotoRows(ps: seq<Photo>): (r: seq<PhotoRow>)
    ensures |r| == |ps|
    ensures forall i :: 0 <= i < |ps| ==> r[i] == PhotoRowOf(ps[i])
  {
    if ps == [] then [] else PhotoRows(ps[..|ps| - 1]) + [PhotoRowOf(ps[|ps| - 1])]
  }

  /** One more photo adds its row at the end. */
  lemma PhotoRowsSnoc(ps: seq<Photo>, j: int)
    requires 0 <= j < |ps|
    ensures PhotoRows(ps[..j + 1]) == PhotoRows(ps[..j]) + [PhotoRowOf(ps[j])]
  {
    assert ps[..j + 1][..j] == ps[..j];
  }

  /** The rows emitted for one key: its header, then its photos. */
  function Block(photos: seq<Photo>, key: string): seq<PhotoRow>
  {
    [HeaderRow(key)] + PhotoRows(Select(photos, key))
  }

  /** The rows emitted when the map yields its keys in `order`. */
  function Grouped(photos: seq<Photo>, order: seq<string>): seq<PhotoRow>
  {
    if order == [] then []
    else Grouped(photos, order[..|order| - 1]) + Block(photos, order[|order| - 1])
  }

  /** One more key adds its block at the end. */
  lemma GroupedSnoc(photos: seq<Photo>, order: seq<string>, key: string)
    ensures Grouped(photos, order + [key]) == Grouped(photos, order) + Block(photos, key)
  {
    assert (order + [key])[..|order|] == order;
  }

  /** Emitting a key's header and then its photos one by one appends its block. */
  lemma BlockSnoc(before: seq<PhotoRow>, photos: seq<Photo>, key: string)
    ensures before + [HeaderRow(key)] + PhotoRows(Select(photos, key)) == before + Block(photos, key)
  {
  }

  /** The groups of `order`, concatenated. */
  function Gathered(photos: seq<Photo>, order: seq<string>): seq<Photo>
  {
    if order == [] then []
    else Gathered(photos, order[..|order| - 1]) + Select(photos, order[|order| - 1])
  }

  /** The photos that the PHOTO rows carry, in row order. */
  function PhotosOf(rows: seq<PhotoRow>): seq<Photo>
  {
    if rows == [] then []
    else
      var last := rows[|rows| - 1];
      PhotosOf(rows[..|rows| - 1]) + (if last.rowType == PHOTO && last.photo.Some? then [last.photo.value] else [])
  }

  /** The names that the HEADER rows carry, in row order. */
  function HeadersOf(rows: seq<PhotoRow>): seq<string>
  {
    if rows == [] then []
    else
      var last := rows[|rows| - 1];
      HeadersOf(rows[..|rows| - 1]) + (if last.rowType == HEADER && last.header.Some? then [last.header.value] else [])
  }

  lemma {:induction false} RowsAppend(a: seq<PhotoRow>, b: seq<PhotoRow>)
    ensures PhotosOf(a + b) == PhotosOf(a) + PhotosOf(b)
    ensures HeadersOf(a + b) == HeadersOf(a) + HeadersOf(b)
    decreases |b|
  {
    if b == [] {
      assert a + b == a;
    } else {
      var b' := b[..|b| - 1];
      assert (a + b)[..|a + b| - 1] == a + b';
      assert (a + b)[|a + b| - 1] == b[|b| - 1];
      RowsAppend(a, b');
    }
  }

  lemma {:induction false} PhotoRowsParts(ps: seq<Photo>)
    ensures PhotosOf(PhotoRows(ps)) == ps
    ensures HeadersOf(PhotoRows(ps)) == []
  {
    if ps != [] {
      var init := ps[..|ps| - 1];
      PhotoRowsParts(init);
      RowsAppend(PhotoRows(init), [PhotoRowOf(ps[|ps| - 1])]);
      assert ps == init + [ps[|ps| - 1]];
    }
  }

  /** A block reads back as one header and its group. */
  lemma BlockParts(photos: seq<Photo>, key: string)
    ensures PhotosOf(Block(photos, key)) == Select(photos, key)
    ensures HeadersOf(Block(photos, key)) == [key]
  {
    PhotoRowsParts(Select(photos, key));
    RowsAppend([HeaderRow(key)], PhotoRows(Select(photos, key)));
    assert HeadersOf([HeaderRow(key)]) == [key] by {
      assert [HeaderRow(key)][..0] == [];
    }
    assert PhotosOf([HeaderRow(key)]) == [] by {
      assert [HeaderRow(key)][..0] == [];
    }
  }

  /** Read back, the PHOTO rows of the grouped rows give the groups one after another. */
  lemma {:induction false} GroupedPhotos(photos: seq<Photo>, order: seq<string>)
    ensures PhotosOf(Grouped(photos, order)) == Gathered(photos, order)
  {
    if order != [] {
      var init := order[..|order| - 1];
      var key := order[|order| - 1];
      var before := Grouped(photos, init);
      var block := Block(photos, key);
      GroupedPhotos(photos, init);
      BlockParts(photos, key);
      RowsAppend(before, block);
    }
  }

  /** Read back, the HEADER rows of the grouped rows give the keys in order. */
  lemma {:induction false} GroupedHeaders(photos: seq<Photo>, order: seq<string>)
    ensures HeadersOf(Grouped(photos, order)) == order
  {
    if order != [] {
      var init := order[..|order| - 1];
      var key := order[|order| - 1];
      assert HeadersOf(Grouped(photos, order)) == HeadersOf(Grouped(photos, init)) + [key] by {
        BlockParts(photos, key);
        RowsAppend(Grouped(photos, init), Block(photos, key));
      }
      GroupedHeaders(photos, init);
      assert order == init + [key];
    }
  }

  /** One header per key plus the photos of every group. */
  lemma {:induction false} GroupedLength(photos: seq<Photo>, order: seq<string>)
    ensures |Grouped(photos, order)| == |order| + |Gathered(photos, order)|
  {
    if order != [] {
      GroupedLength(photos, order[..|order| - 1]);
    }
  }

  /** With no repeated key, the groups together hold each photo whose key is listed, as often as the input does. */
  lemma {:induction false} GatheredCounts(photos: seq<Photo>, order: seq<string>, p: Photo)
    requires NoDuplicates(order)
    ensures multiset(Gathered(photos, order))[p] == if FullName(p) in order then multiset(photos)[p] else 0
  {
    if order != [] {
      var init := order[..|order| - 1];
      var key := order[|order| - 1];
      assert NoDuplicates(init);
      assert key !in init;
      GatheredCounts(photos, init, p);
      SelectCounts(photos, key, p);
      assert order == init + [key];
    }
  }

  /** A sequence without repetitions has as many distinct elements as it has elements. */
  lemma {:induction false} DistinctCount(order: seq<string>)
    requires NoDuplicates(order)
    ensures |set k | k in order| == |order|
  {
    if order != [] {
      var init := order[..|order| - 1];
      var key := order[|order| - 1];
      assert NoDuplicates(init);
      DistinctCount(init);
      assert (set k | k in order) == (set k | k in init) + {key};
      assert key !in init;
    }
  }

  /** A sequence without repetitions holds each listed element once. */
  lemma {:induction false} DistinctOccurrences(order: seq<string>, key: string)
    requires NoDuplicates(order)
    ensures multiset(order)[key] == if key in order then 1 else 0
  {
    if order != [] {
      var init := order[..|order| - 1];
      var last := order[|order| - 1];
      assert NoDuplicates(init);
      DistinctOccurrences(init, key);
      assert order == init + [last];
    }
  }

  /**
   * The output has one row per photo plus one per distinct full name; in
   * particular an empty input gives an empty output.
   */
  lemma SortedLength(photos: seq<Photo>, order: seq<string>)
    requires IsKeyOrder(order, photos)
    ensures |Grouped(photos, order)| == |photos| + |Names(photos)|
    ensures photos == [] ==> Grouped(photos, order) == []
  {
    GroupedLength(photos, order);
    forall p ensures multiset(Gathered(photos, order))[p] == multiset(photos)[p] {
      GatheredCounts(photos, order, p);
    }
    assert multiset(Gathered(photos, order)) == multiset(photos);
    assert |Gathered(photos, order)| == |multiset(Gathered(photos, order))| == |multiset(photos)| == |photos|;
    DistinctCount(order);
    assert (set k | k in order) == Names(photos);
  }

  /** Every row is either a header for a listed key or a row for an input photo. */
  lemma {:induction false} GroupedShape(photos: seq<Photo>, order: seq<string>)
    ensures forall row :: row in Grouped(photos, order) ==>
      || (row.rowType == HEADER && row.photo == None && row.header.Some? && row.header.value in order)
      || (row.rowType == PHOTO && row.header == None && row.photo.Some? && row.photo.value in photos)
  {
    if order != [] {
      var init := order[..|order| - 1];
      var key := order[|order| - 1];
      GroupedShape(photos, init);
      forall row | row in Block(photos, key)
        ensures || (row.rowType == HEADER && row.photo == None && row.header.Some? && row.header.value in order)
                || (row.rowType == PHOTO && row.header == None && row.photo.Some? && row.photo.value in photos)
      {
        if row != HeaderRow(key) {
          var i :| 0 <= i < |PhotoRows(Select(photos, key))| && PhotoRows(Select(photos, key))[i] == row;
        }
      }
    }
  }

  /**
   * The HEADER rows name the keys in `order`, so each distinct full name has
   * exactly one header; a header carries no photo and a photo row no header.
   */
  lemma SortedHeaders(photos: seq<Photo>, order: seq<string>)
    requires IsKeyOrder(order, photos)
    ensures HeadersOf(Grouped(photos, order)) == order
    ensures forall k :: multiset(HeadersOf(Grouped(photos, order)))[k] == if k in Names(photos) then 1 else 0
    ensures forall row :: row in Grouped(photos, order) && row.rowType == HEADER ==>
      row.photo == None && row.header.Some? && row.header.value in Names(photos)
  {
    GroupedHeaders(photos, order);
    GroupedShape(photos, order);
    forall k ensures multiset(order)[k] == if k in Names(photos) then 1 else 0 {
      DistinctOccurrences(order, k);
    }
  }

  /** Every input photo is carried by exactly one PHOTO row (as often as it occurs), and such a row has no header. */
  lemma SortedPhotos(photos: seq<Photo>, order: seq<string>)
    requires IsKeyOrder(order, photos)
    ensures multiset(PhotosOf(Grouped(photos, order))) == multiset(photos)
    ensures forall row :: row in Grouped(photos, order) && row.rowType == PHOTO ==>
      row.header == None && row.photo.Some? && row.photo.value in photos
  {
    GroupedPhotos(photos, order);
    GroupedShape(photos, order);
    forall p ensures multiset(Gathered(photos, order))[p] == multiset(photos)[p] {
      GatheredCounts(photos, order, p);
    }
  }

  /** The rows for the first `n` keys come first. */
  lemma {:induction false} GroupedPrefix(photos: seq<Photo>, order: seq<string>, n: nat)
    requires n <= |order|
    ensures Grouped(photos, order[..n]) <= Grouped(photos, order)
    decreases |order|
  {
    if n < |order| {
      var init := order[..|order| - 1];
      assert order[..n] == init[..n];
      GroupedPrefix(photos, init, n);
    } else {
      assert order[..n] == order;
    }
  }

  /** The rows for the first `m + 1` keys: those for the first `m`, then the block of key `m`. */
  lemma GroupedStep(photos: seq<Photo>, order: seq<string>, m: nat)
    requires m < |order|
    ensures Grouped(photos, order[..m + 1]) == Grouped(photos, order[..m]) + Block(photos, order[m])
  {
    assert order[..m + 1][..m] == order[..m];
  }

  /** Where `before + [header] + group` starts a list, the list holds the header and then the group. */
  lemma BlockInside(rows: seq<PhotoRow>, before: seq<PhotoRow>, header: PhotoRow, group: seq<PhotoRow>)
    requires before + ([header] + group) <= rows
    ensures |before| + 1 + |group| <= |rows|
    ensures rows[|before|] == header
    ensures rows[|before| + 1..|before| + 1 + |group|] == group
  {
    var upto := before + ([header] + group);
    assert upto[|before|] == header;
    assert upto[|before| + 1..] == group;
    assert rows[|before| + 1..|before| + 1 + |group|] == upto[|before| + 1..];
  }

  /** Where `upto + [header] + more` starts a list, the row right after `upto` is the header. */
  lemma NextHeader(rows: seq<PhotoRow>, upto: seq<PhotoRow>, header: PhotoRow, more: seq<PhotoRow>)
    requires upto + ([header] + more) <= rows
    ensures |upto| < |rows| && rows[|upto|] == header
  {
    assert (upto + ([header] + more))[|upto|] == header;
  }

  /** Where the rows of the `m`-th key start in the output. */
  function Offset(photos: seq<Photo>, order: seq<string>, m: nat): nat
    requires m <= |order|
  {
    |Grouped(photos, order[..m])|
  }

  lemma BlockContents(photos: seq<Photo>, order: seq<string>, m: nat)
    requires m < |order|
    ensures Offset(photos, order, m) + 1 + |Select(photos, order[m])| == Offset(photos, order, m + 1) <= |Grouped(photos, order)|
    ensures Grouped(photos, order)[Offset(photos, order, m)] == HeaderRow(order[m])
    ensures Grouped(photos, order)[Offset(photos, order, m) + 1..Offset(photos, order, m + 1)] == PhotoRows(Select(photos, order[m]))
  {
    var rows := Grouped(photos, order);
    var before := Grouped(photos, order[..m]);
    var group := PhotoRows(Select(photos, order[m]));
    var upto := Grouped(photos, order[..m + 1]);
    assert upto == before + ([HeaderRow(order[m])] + group) by {
      GroupedStep(photos, order, m);
    }
    assert upto <= rows by {
      GroupedPrefix(photos, order, m + 1);
    }
    BlockInside(rows, before, HeaderRow(order[m]), group);
  }

  lemma BlockEnd(photos: seq<Photo>, order: seq<string>, m: nat)
    requires m < |order|
    ensures Offset(photos, order, m + 1) <= |Grouped(photos, order)|
    ensures Offset(photos, order, m + 1) == |Grouped(photos, order)|
         || Grouped(photos, order)[Offset(photos, order, m + 1)].rowType == HEADER
  {
    var rows := Grouped(photos, order);
    var upto := Grouped(photos, order[..m + 1]);
    GroupedPrefix(photos, order, m + 1);
    if m + 1 < |order| {
      GroupedPrefix(photos, order, m + 2);
      GroupedStep(photos, order, m + 1);
      NextHeader(rows, upto, HeaderRow(order[m + 1]), PhotoRows(Select(photos, order[m + 1])));
    } else {
      assert order[..m + 1] == order;
    }
  }

  /**
   * The rows of the `m`-th key start at Offset(photos, order, m): its header,
   * then all and only the photos with that full name in input order, and then
   * either the end of the output or the next header.
   */
  lemma SortedBlocks(photos: seq<Photo>, order: seq<string>, m: nat)
    requires m < |order|
    ensures Offset(photos, order, m) + 1 + |Select(photos, order[m])| == Offset(photos, order, m + 1) <= |Grouped(photos, order)|
    ensures Grouped(photos, order)[Offset(photos, order, m)] == HeaderRow(order[m])
    ensures Grouped(photos, order)[Offset(photos, order, m) + 1..Offset(photos, order, m + 1)] == PhotoRows(Select(photos, order[m]))
    ensures Offset(photos, order, m + 1) == |Grouped(photos, order)|
         || Grouped(photos, order)[Offset(photos, order, m + 1)].rowType == HEADER
  {
    BlockContents(photos, order, m);
    BlockEnd(photos, order, m);
  }
}
