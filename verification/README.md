# Mars rover photo browser: the list logic

The Mars rover app downloads rover photos and shows them in a scrolling list. Each camera's photos sit under a header row. A spinner picks the rover and another picks a camera to filter by. A swipe removes a row. Three small pieces of plain logic sit under the Android glue, and this project models them and proves what they do:

- **The list adapter** (`PhotoAdapter`). It holds:
  - a full list of rows;
  - a filtered list;
  - a flag saying which of the two is on screen.

  Its operations are switching to one camera, clearing the filter, replacing the rows and removing a row. Its reads are the row count, the row at a position and that row's view type. It also carries a diff callback that compares old and new rows.

  The adapter exists in two copies that behave identically. The earlier copy names the filter `filterCamera` and the filtered list `filteredPhotos`; the later one names them `switchCamera` and `filteredPhotoList`. Both are modelled by one class. The table below cites whichever copy shows a member best.
- **The photo screen** (`MainActivity`):
  - `sortPhotos` groups the photos by the camera's full name. For each name it emits a HEADER row followed by that camera's PHOTO rows.
  - The reply handler builds the adapter, or refreshes it.
  - The rover and camera spinner listeners act only when the selected position changes.
  - The swipe handler removes the swiped row and refuses every drag.
- **The view holder's id index** (`DefaultViewHolder` in Java, the same class in Kotlin, and `PhotoViewHolder`). On creation it walks the item view's tree and fills a map from view id to view. Its typed accessors then look an id up and fail in two cases:
  - first, when the id is missing;
  - then, when the view is of the wrong class.

  The three copies behave identically and are modelled by one class.

Modules:

- `Wrappers`: the `Option`, `Result` and `Outcome` types.
- `Rows`: `RowType`, `PhotoRow` and the minimal `Photo` record. The filter reads `camera.name` and the grouping reads `camera.full_name`. The image address and earth date are carried along untouched.
- `Adapter`:
  - the camera filter, `CameraFilter`;
  - the diff callback;
  - `PhotoAdapter`, a class whose methods reassign its list fields. Each method states the new state, including that the other list is unchanged.
- `Grouping`: a specification of the grouped rows and the lemmas about them.
  - The groups come out in a hash map's iteration order, which the code does not fix. So the rows are described as `Grouped(photos, order)` for an order of the distinct names, and every lemma holds for every order that lists each name exactly once (`IsKeyOrder`).
- `Activity`: `SortPhotos` is a method with the code's two loops, proved to return `Grouped(photos, order)` for the order it happened to use. Besides it:
  - the listeners of `MainActivity`;
  - `SwipeHandler`.
- `ViewIndex`:
  - the view tree;
  - the walk that fills the map, as a recursive method with a loop over the children;
  - the reference definition `Find`: the last view in pre-order carrying the id, with views that have no id skipped below a group root;
  - the `ViewHolder` class with its accessors.

  The accessors return a result value where the code throws `IllegalArgumentException`.

The adapter's notifications to the list view are a log of abstract events:

- `Diffed(callback)` stands for a computed diff being dispatched;
- `ItemRemoved(position)` stands for `notifyItemRemoved`.

The list view's reaction to them is outside the model.

## Model

| member | source | states |
|---|---|---|
| `Rows.Ordinal` | 06-search-through-all-files/starter/marsrovers/app/src/main/java/com/raywenderlich/marsrovers/models/PhotoRow.kt:6-9 | A row type's ordinal is below 2. It is 0 exactly for PHOTO and 1 exactly for HEADER. |
| `Adapter.CameraFilter` | 14-learn-keyboard-shortcuts/final/marsrovers/app/src/main/java/com/raywenderlich/marsrovers/recyclerview/PhotoAdapter.kt:74 | Every kept row is a PHOTO row of the input whose photo is present and whose camera name equals the argument; so no HEADER row and no row without a photo is kept. The result is never longer than the input. |
| `Adapter.CameraFilterAppend` | 02-rename-everything/final/marsrovers/app/src/main/java/com/raywenderlich/marsrovers/recyclerview/PhotoAdapter.kt:70 | Filtering a concatenation filters each part and joins the results, so kept rows stay in their original order. |
| `Adapter.CameraFilterCounts` | 02-rename-everything/final/marsrovers/app/src/main/java/com/raywenderlich/marsrovers/recyclerview/PhotoAdapter.kt:68-73 | A matching row is kept as many times as it occurs in the input; any other row is dropped. So the result is exactly the matching rows. |
| `Adapter.CameraFilterCompose` | 14-learn-keyboard-shortcuts/final/marsrovers/app/src/main/java/com/raywenderlich/marsrovers/recyclerview/PhotoAdapter.kt:72-77 | Filtering an already filtered list again by the same camera changes nothing; by another camera it leaves nothing. Successive filters would compound, which is why each switch filters the full list. |
| `Adapter.RemoveAt` | 14-learn-keyboard-shortcuts/final/marsrovers/app/src/main/java/com/raywenderlich/marsrovers/recyclerview/PhotoAdapter.kt:92-96 | Removing index `i`: the list is one shorter, rows before `i` stay put, and rows after it shift down by one. `i` must be a valid index, as `removeAt` demands. |
| `Adapter.PhotoRowDiffCallback.GetOldListSize` | 14-learn-keyboard-shortcuts/final/marsrovers/app/src/main/java/com/raywenderlich/marsrovers/recyclerview/PhotoAdapter.kt:114 | The old size is the length of the old rows, the second argument of the constructor. |
| `Adapter.PhotoRowDiffCallback.GetNewListSize` | 02-rename-everything/final/marsrovers/app/src/main/java/com/raywenderlich/marsrovers/recyclerview/PhotoAdapter.kt:112 | The new size is the length of the new rows, the first argument of the constructor. |
| `Adapter.PhotoRowDiffCallback.AreItemsTheSame` | 14-learn-keyboard-shortcuts/final/marsrovers/app/src/main/java/com/raywenderlich/marsrovers/recyclerview/PhotoAdapter.kt:108-112 | Two rows are the same item if and only if their row types are equal. Rows with the same contents are always the same item. |
| `Adapter.PhotoRowDiffCallback.AreContentsTheSame` | 02-rename-everything/final/marsrovers/app/src/main/java/com/raywenderlich/marsrovers/recyclerview/PhotoAdapter.kt:114-118 | Two rows have the same contents if and only if their type, photo and header all agree. |
| `Adapter.PhotoAdapter.constructor` | 14-learn-keyboard-shortcuts/final/marsrovers/app/src/main/java/com/raywenderlich/marsrovers/recyclerview/PhotoAdapter.kt:17-20 | A new adapter shows the given rows: it is not filtering and its filtered list is empty. |
| `Adapter.PhotoAdapter.GetItemCount` | 14-learn-keyboard-shortcuts/final/marsrovers/app/src/main/java/com/raywenderlich/marsrovers/recyclerview/PhotoAdapter.kt:22-27 | The count is the filtered list's length while filtering, the full list's length otherwise. |
| `Adapter.PhotoAdapter.GetPhotoRow` | 02-rename-everything/final/marsrovers/app/src/main/java/com/raywenderlich/marsrovers/recyclerview/PhotoAdapter.kt:31-35 | The row at a position is taken from the list that the count measures. The position must be below that count. |
| `Adapter.PhotoAdapter.GetItemViewType` | 02-rename-everything/final/marsrovers/app/src/main/java/com/raywenderlich/marsrovers/recyclerview/PhotoAdapter.kt:61-66 | The view type is the ordinal of the type of the row GetPhotoRow returns: 0 exactly for a PHOTO row. |
| `Adapter.PhotoAdapter.SwitchCamera` | 14-learn-keyboard-shortcuts/final/marsrovers/app/src/main/java/com/raywenderlich/marsrovers/recyclerview/PhotoAdapter.kt:72-77 | Afterwards the adapter is filtering, and the filtered list is the camera filter of the full list. The full list is unchanged. One diff is sent, with the filtered rows as new rows and the full list as old rows. |
| `Adapter.PhotoAdapter.ClearFilter` | 02-rename-everything/final/marsrovers/app/src/main/java/com/raywenderlich/marsrovers/recyclerview/PhotoAdapter.kt:76-79 | Filtering stops and the filtered list is emptied. The full list is shown again and nothing is sent. |
| `Adapter.PhotoAdapter.UpdatePhotos` | 14-learn-keyboard-shortcuts/final/marsrovers/app/src/main/java/com/raywenderlich/marsrovers/recyclerview/PhotoAdapter.kt:85-89 | The full list becomes the given rows, filtering stops and the filtered list is emptied. One diff is sent, against the previous full list. |
| `Adapter.PhotoAdapter.SwitchCameraOnScreen` | 14-learn-keyboard-shortcuts/final/marsrovers/app/src/main/java/com/raywenderlich/marsrovers/recyclerview/PhotoAdapter.kt:72-77 | The corrected camera switch (see Findings). It leaves the same state as `SwitchCamera`, but its diff's old rows are the rows that were on screen. So the diff's old size is the item count before the call, and its new size is the count after. |
| `Adapter.PhotoAdapter.UpdatePhotosOnScreen` | 14-learn-keyboard-shortcuts/final/marsrovers/app/src/main/java/com/raywenderlich/marsrovers/recyclerview/PhotoAdapter.kt:85-89 | The corrected replacement of the rows (see Findings). It leaves the same state as `UpdatePhotos`, but its diff's old rows are the rows that were on screen. So the diff's old size is the item count before the call, and its new size is the count after. |
| `Adapter.SecondSwitchDiff` | 14-learn-keyboard-shortcuts/final/marsrovers/app/src/main/java/com/raywenderlich/marsrovers/recyclerview/PhotoAdapter.kt:72-77 | Rows from cameras A and B, filtered to A and then switched to B as the code does: one row was on screen, but the diff's old size is two. |
| `Adapter.UpdateWhileFilteredDiff` | 14-learn-keyboard-shortcuts/final/marsrovers/app/src/main/java/com/raywenderlich/marsrovers/recyclerview/PhotoAdapter.kt:85-89 | Rows from cameras A and B, filtered to A, then replaced as the code does: one row was on screen, but the diff's old size is two. |
| `Adapter.SecondSwitchOnScreenDiff` | 14-learn-keyboard-shortcuts/final/marsrovers/app/src/main/java/com/raywenderlich/marsrovers/recyclerview/PhotoAdapter.kt:72-77 | The same two switches with the corrected method: the diff's old size equals the one row that was on screen. |
| `Adapter.UpdateWhileFilteredOnScreenDiff` | 14-learn-keyboard-shortcuts/final/marsrovers/app/src/main/java/com/raywenderlich/marsrovers/recyclerview/PhotoAdapter.kt:85-89 | The same filter and replacement with the corrected method: the diff's old size equals the one row that was on screen. |
| `Adapter.PhotoAdapter.RemoveRow` | 02-rename-everything/final/marsrovers/app/src/main/java/com/raywenderlich/marsrovers/recyclerview/PhotoAdapter.kt:87-94 | The list on screen loses exactly the row at the index, and the count drops by one. The other list and the filtering flag are unchanged. A removal of that position is sent. The index must be valid. |
| `Grouping.Select` | 10-move-rename-duplicate/final/marsrovers/app/src/main/java/com/raywenderlich/marsrovers/MainActivity.kt:143-150 | A group holds only input photos whose full name is the key, and is never longer than the input. |
| `Grouping.SelectAppend` | 10-move-rename-duplicate/final/marsrovers/app/src/main/java/com/raywenderlich/marsrovers/MainActivity.kt:143 | Grouping a concatenation groups each part and joins the results, so a group keeps its photos' input order. |
| `Grouping.SelectCounts` | 10-move-rename-duplicate/final/marsrovers/app/src/main/java/com/raywenderlich/marsrovers/MainActivity.kt:144-149 | A group holds every copy of each photo with its key, and nothing else. |
| `Grouping.SelectAbsent` | 10-move-rename-duplicate/final/marsrovers/app/src/main/java/com/raywenderlich/marsrovers/MainActivity.kt:145-147 | A name that no photo carries has an empty group, so the first photo of a name starts from an empty list. |
| `Grouping.PhotoRows` | 10-move-rename-duplicate/final/marsrovers/app/src/main/java/com/raywenderlich/marsrovers/MainActivity.kt:154-156 | One PHOTO row per photo, in order, each with the photo and no header. |
| `Grouping.GroupedPhotos` | 10-move-rename-duplicate/final/marsrovers/app/src/main/java/com/raywenderlich/marsrovers/MainActivity.kt:151-157 | Reading the photos of the PHOTO rows back gives the groups one after another, in the order of the keys. |
| `Grouping.GroupedHeaders` | 10-move-rename-duplicate/final/marsrovers/app/src/main/java/com/raywenderlich/marsrovers/MainActivity.kt:152-153 | Reading the names of the HEADER rows back gives the keys in order. |
| `Grouping.GroupedLength` | 10-move-rename-duplicate/final/marsrovers/app/src/main/java/com/raywenderlich/marsrovers/MainActivity.kt:151-158 | The output has one row per key plus one per photo of every group. |
| `Grouping.GatheredCounts` | 10-move-rename-duplicate/final/marsrovers/app/src/main/java/com/raywenderlich/marsrovers/MainActivity.kt:142-150 | When no key repeats, the groups together hold each photo whose name is a key exactly as often as the input does, and no other photo. |
| `Grouping.DistinctOccurrences` | 10-move-rename-duplicate/final/marsrovers/app/src/main/java/com/raywenderlich/marsrovers/MainActivity.kt:152 | A key order without repeats lists each key once and no other name. |
| `Grouping.SortedLength` | 10-move-rename-duplicate/final/marsrovers/app/src/main/java/com/raywenderlich/marsrovers/MainActivity.kt:141-158 | For any iteration order of the map, the output has exactly one row per photo plus one per distinct full name, and no photos give no rows. |
| `Grouping.GroupedShape` | 10-move-rename-duplicate/final/marsrovers/app/src/main/java/com/raywenderlich/marsrovers/MainActivity.kt:153-155 | Every output row is one of two shapes: a HEADER with no photo and one of the keys as header, or a PHOTO row with no header and an input photo. |
| `Grouping.SortedHeaders` | 10-move-rename-duplicate/final/marsrovers/app/src/main/java/com/raywenderlich/marsrovers/MainActivity.kt:144-153 | The headers read back in the map's order, and each distinct full name heads exactly one HEADER row (no other name heads one). Every HEADER row has no photo. |
| `Grouping.SortedPhotos` | 10-move-rename-duplicate/final/marsrovers/app/src/main/java/com/raywenderlich/marsrovers/MainActivity.kt:149-155 | The PHOTO rows carry the input photos, each exactly as often as in the input. Every PHOTO row has no header. |
| `Grouping.GroupedPrefix` | 10-move-rename-duplicate/final/marsrovers/app/src/main/java/com/raywenderlich/marsrovers/MainActivity.kt:152-157 | The rows emitted for the first n keys are a prefix of the whole output: later keys only append. |
| `Grouping.SortedBlocks` | 10-move-rename-duplicate/final/marsrovers/app/src/main/java/com/raywenderlich/marsrovers/MainActivity.kt:152-156 | The m-th key's HEADER row sits where the rows of the earlier keys end. It is followed by exactly the PHOTO rows of that key's group, in input order. After them comes the end of the output or the next HEADER. |
| `Activity.GroupByName` | 10-move-rename-duplicate/final/marsrovers/app/src/main/java/com/raywenderlich/marsrovers/MainActivity.kt:142-150 | The map's keys are exactly the distinct full names, and each key maps to the photos with that name, in input order. |
| `Activity.AppendGroup` | 10-move-rename-duplicate/final/marsrovers/app/src/main/java/com/raywenderlich/marsrovers/MainActivity.kt:153-156 | One turn of the emitting loop appends the key's HEADER row and then one PHOTO row per photo of its group. |
| `Activity.SortPhotos` | 10-move-rename-duplicate/final/marsrovers/app/src/main/java/com/raywenderlich/marsrovers/MainActivity.kt:141-159 | The result is `Grouped(photos, order)` for an order that lists every distinct full name exactly once. So every Grouping lemma above applies to it. Directly about the returned rows: there is one row per photo plus one per distinct full name; the PHOTO rows carry the input photos, each exactly as often as in the input; each distinct full name heads exactly one HEADER row. |
| `Activity.ToLower` | 10-move-rename-duplicate/final/marsrovers/app/src/main/java/com/raywenderlich/marsrovers/MainActivity.kt:107 | The lowered name has the same length and no upper-case letter. Each letter A-Z becomes its lower-case letter a-z, and every other character is kept. |
| `Activity.ToLowerIdempotent` | 10-move-rename-duplicate/final/marsrovers/app/src/main/java/com/raywenderlich/marsrovers/MainActivity.kt:107 | Lowering a name that is already lowered changes nothing. |
| `Activity.MainActivity.constructor` | 10-move-rename-duplicate/final/marsrovers/app/src/main/java/com/raywenderlich/marsrovers/MainActivity.kt:56-58 | The screen starts on the rover "curiosity" with both spinner positions at 0, no adapter and no request made. |
| `Activity.MainActivity.LoadPhotos` | 10-move-rename-duplicate/final/marsrovers/app/src/main/java/com/raywenderlich/marsrovers/MainActivity.kt:115-116 | A request is made for the current rover, and nothing else changes. |
| `Activity.MainActivity.OnPhotosReceived` | 10-move-rename-duplicate/final/marsrovers/app/src/main/java/com/raywenderlich/marsrovers/MainActivity.kt:127-134 | Afterwards there is an adapter showing the sorted rows, unfiltered. The first reply creates a fresh adapter. A later reply keeps the same adapter, replaces its rows and sends one diff against the previous full list, as `updatePhotos` does. |
| `Activity.MainActivity.OnRoverSelected` | 10-move-rename-duplicate/final/marsrovers/app/src/main/java/com/raywenderlich/marsrovers/MainActivity.kt:105-111 | A changed position makes the rover the lowered name at that position and requests its photos. The same position changes neither rover nor requests. The position is recorded either way. |
| `Activity.MainActivity.OnCameraSelected` | 10-move-rename-duplicate/final/marsrovers/app/src/main/java/com/raywenderlich/marsrovers/MainActivity.kt:86-91 | With an adapter and a changed position, the adapter switches to the camera at that position. It filters the full list and sends one diff against the full list, as `switchCamera` does. The same position leaves the adapter untouched. The position is recorded either way. |
| `Activity.SwipeHandler.constructor` | 10-move-rename-duplicate/final/marsrovers/app/src/main/java/com/raywenderlich/marsrovers/MainActivity.kt:164 | The handler keeps the adapter it is given. |
| `Activity.SwipeHandler.OnMove` | 10-move-rename-duplicate/final/marsrovers/app/src/main/java/com/raywenderlich/marsrovers/MainActivity.kt:165-167 | A drag onto another row is always refused. |
| `Activity.SwipeHandler.OnSwiped` | 10-move-rename-duplicate/final/marsrovers/app/src/main/java/com/raywenderlich/marsrovers/MainActivity.kt:169-171 | The swiped position leaves the list on screen and the count drops by one. The other list is untouched. |
| `ViewIndex.LastWithId` | 01-convert-java-to-kotlin/starter/marsrovers/app/src/main/java/com/raywenderlich/marsrovers/recyclerview/DefaultViewHolder.java:203-217 | The search finds nothing exactly when no view in the list has the id. What it finds has the id and is in the list. |
| `ViewIndex.LastWithIdIsLast` | 01-convert-java-to-kotlin/final/marsrovers/app/src/main/java/com/raywenderlich/marsrovers/recyclerview/DefaultViewHolder.kt:148-161 | What the search finds is followed by no other view with the same id: among duplicates, the one stored last wins. |
| `ViewIndex.Get` | 01-convert-java-to-kotlin/starter/marsrovers/app/src/main/java/com/raywenderlich/marsrovers/recyclerview/DefaultViewHolder.java:29 | A lookup yields a view exactly when the id is a key, and then the stored one. |
| `ViewIndex.Checked` | 01-convert-java-to-kotlin/starter/marsrovers/app/src/main/java/com/raywenderlich/marsrovers/recyclerview/DefaultViewHolder.java:38-44 | A missing view fails with "not found". A present view of the wrong class fails with "is not a" that class. Otherwise the view found is returned. Each direction holds both ways. |
| `ViewIndex.PutLookup` | 05-migrate-to-androidx/starter/marsrovers/app/src/main/java/com/raywenderlich/marsrovers/recyclerview/PhotoViewHolder.kt:149-161 | After a sequence of stores, looking up an id gives the last stored view with that id, or what the map held before when none was stored. |
| `ViewIndex.TraceMatches` | 05-migrate-to-androidx/starter/marsrovers/app/src/main/java/com/raywenderlich/marsrovers/recyclerview/PhotoViewHolder.kt:146-163 | Storing exactly what the walk stores gives the same map as storing each registered view once, in pre-order. Registered means: views with an id below a group root, or a non-group root itself. The second store of a child group that has an id changes nothing. |
| `ViewIndex.LastWithIdNamed` | 01-convert-java-to-kotlin/starter/marsrovers/app/src/main/java/com/raywenderlich/marsrovers/recyclerview/DefaultViewHolder.java:202-210 | Skipping the views without an id changes no search for a real id. |
| `ViewIndex.IndexLookup` | 01-convert-java-to-kotlin/final/marsrovers/app/src/main/java/com/raywenderlich/marsrovers/recyclerview/DefaultViewHolder.kt:145-166 | For every id, the map built by the walk answers exactly as `Find` does: the last view in pre-order with that id, and nothing for NO_ID below a group root. |
| `ViewIndex.FindSpec` | 05-migrate-to-androidx/starter/marsrovers/app/src/main/java/com/raywenderlich/marsrovers/recyclerview/PhotoViewHolder.kt:146-167 | Find yields a view for an id exactly when some view of the tree carries it and the id is not NO_ID or the root is no group; the view found is one of the tree carrying that id, and no view after it in pre-order carries the same id. So every view with an id, and a non-group root whatever its id, can be looked up, and among duplicates the one visited last wins. |
| `ViewIndex.ViewHolder.constructor` | 01-convert-java-to-kotlin/starter/marsrovers/app/src/main/java/com/raywenderlich/marsrovers/recyclerview/DefaultViewHolder.java:23-26 | After construction the map is the one the walk of the item view builds from an empty map. |
| `ViewIndex.ViewHolder.FindViewItems` | 01-convert-java-to-kotlin/starter/marsrovers/app/src/main/java/com/raywenderlich/marsrovers/recyclerview/DefaultViewHolder.java:200-219 | The walk stores, on top of the map it starts from, exactly the views its trace lists. A group stores itself when it has an id, then each child when it has an id, then walks each child group. A non-group is stored whatever its id. |
| `ViewIndex.ViewHolder.GetView` | 05-migrate-to-androidx/starter/marsrovers/app/src/main/java/com/raywenderlich/marsrovers/recyclerview/PhotoViewHolder.kt:20-22 | The lookup never fails: it yields `Find(itemView, id)`, possibly nothing. |
| `ViewIndex.ViewHolder.SetText` | 01-convert-java-to-kotlin/final/marsrovers/app/src/main/java/com/raywenderlich/marsrovers/recyclerview/DefaultViewHolder.kt:28-43 | Fails with "not found" when Find yields nothing, then with "is not a TextView" unless the view is a text view or a compound button; succeeds otherwise. |
| `ViewIndex.ViewHolder.SetChecked` | 01-convert-java-to-kotlin/starter/marsrovers/app/src/main/java/com/raywenderlich/marsrovers/recyclerview/DefaultViewHolder.java:69-78 | Fails with "not found", then with "is not a CompoundButton"; succeeds otherwise. |
| `ViewIndex.ViewHolder.IsChecked` | 05-migrate-to-androidx/starter/marsrovers/app/src/main/java/com/raywenderlich/marsrovers/recyclerview/PhotoViewHolder.kt:62-66 | Same failures as SetChecked. On success it returns the checked state of the compound button Find yields. |
| `ViewIndex.ViewHolder.GetText` | 01-convert-java-to-kotlin/starter/marsrovers/app/src/main/java/com/raywenderlich/marsrovers/recyclerview/DefaultViewHolder.java:101-110 | Same failures as SetText. On success it returns the text of the view Find yields. |
| `ViewIndex.ViewHolder.SetImage` | 05-migrate-to-androidx/starter/marsrovers/app/src/main/java/com/raywenderlich/marsrovers/recyclerview/PhotoViewHolder.kt:85-101 | Fails with "not found", then with "is not a ImageView"; succeeds otherwise. |
| `ViewIndex.ViewHolder.GetImage` | 01-convert-java-to-kotlin/final/marsrovers/app/src/main/java/com/raywenderlich/marsrovers/recyclerview/DefaultViewHolder.kt:135-139 | Same failures as SetImage. On success it returns the image view Find yields. |
| `ViewIndex.ViewHolder.SetVisible` | 01-convert-java-to-kotlin/starter/marsrovers/app/src/main/java/com/raywenderlich/marsrovers/recyclerview/DefaultViewHolder.java:151-157 | Fails with "not found" exactly when Find yields nothing; any kind of view is accepted. It chooses VISIBLE for true and GONE for false. |
| `ViewIndex.ViewHolder.SetClickListener` | 05-migrate-to-androidx/starter/marsrovers/app/src/main/java/com/raywenderlich/marsrovers/recyclerview/PhotoViewHolder.kt:118-121 | Succeeds exactly when Find yields a view of any kind, and fails with "not found" otherwise. |

## Left out

- Android UI and lifecycle are not part of this model, because they are framework calls with no logic of their own here:
  - `onCreate` and spinner setup;
  - RecyclerView layout and decoration;
  - view inflation in `onCreateViewHolder`;
  - image loading and text binding in `onBindViewHolder`;
  - row animation;
  - Snackbar and Log.
- The list-diffing library and `notifyItemRemoved` appear only as entries in the adapter's notification log. How the list view reacts to them is not modelled.
- The network is not part of this model:
  - the request that `loadPhotos` sends, which appears only as an entry in `photoRequests`;
  - its failure path;
  - the Retrofit/Moshi service setup;
  - the HTTP endpoint declaration;
  - the stub `ErrorCall`.

  `OnPhotosReceived` takes the photo list of a successful reply as a parameter. The JSON wrapper `PhotoList` is just that list.
- Creating and attaching the swipe handler when the first reply arrives (`ItemTouchHelper`) is not modelled. `SwipeHandler` is modelled on its own.
- The drag and swipe direction flags passed to `SwipeHandler` are not modelled: they only configure the framework.
- The hash map's iteration order in `sortPhotos` is left open on purpose. `SortPhotos` returns the order it used as a ghost value, and every property is proved for all orders.
- Views do not change in the model. What text, checked state, image, visibility or listener a setter would give a view is not modelled: the setters return only whether they would fail, and why. `SetVisible` returns the visibility it would set.
- `setClickListener(listener)` on the whole item view does no lookup and cannot fail, so it is not modelled.
- The two `setText` overloads (string and resource id) and the two `setImage` overloads (resource id and drawable) differ only in what they hand to the view. Each pair is modelled once, as `SetText` and `SetImage`.
- Object identity is not modelled. Views and rows are values compared structurally, so two distinct view objects with equal fields are not told apart.
- Integers are unbounded. View ids and positions are 32-bit in the app, but no arithmetic on them can overflow here.
- Exceptions appear as error values rather than thrown exceptions. The message text is reduced to the error's kind and its id.
- Activity.ToLower: lowers only the ASCII letters A-Z, whereas `toLowerCase()` uses the default locale's full Unicode case mapping. The rover names in the spinner are plain ASCII.
- Activity.MainActivity.OnCameraSelected: the camera names the spinner positions stand for are a constant list given to the constructor, not the app's string resources.
- Activity.MainActivity.OnPhotosReceived: a successful reply whose body is null makes `body()!!` throw (MainActivity.kt:125). The model takes only a present photo list, so that crash is not modelled.
- Activity.SwipeHandler.OnSwiped: requires a position on screen. A view holder already detached reports `NO_POSITION` (-1), and `removeRow(-1)` then throws from `removeAt` (MainActivity.kt:170). That crash is not modelled.
- ViewIndex.ViewHolder.FindViewItems: in the app the walk is protected and only the constructor calls it. Calling it again on a built holder would store the tree a second time over the map, which can break `Valid`. That is outside the model.

## Findings

| source | as written | input that shows it | evidently intended | confidence | as-written member | corrected member |
|---|---|---|---|---|---|---|
| 14-learn-keyboard-shortcuts/final/marsrovers/app/src/main/java/com/raywenderlich/marsrovers/recyclerview/PhotoAdapter.kt:72-77 | `switchCamera` diffs the new filtered rows against `photoList`, even when the filtered list is what is on screen. | Rows from cameras A and B; switch to A (one row on screen), then to B. The diff's old size is two. | Diff against the rows on screen, so the diff's old size is the item count the list view holds. | not executed | `Adapter.SecondSwitchDiff` (running `Adapter.PhotoAdapter.SwitchCamera`) | `Adapter.PhotoAdapter.SwitchCameraOnScreen`, with `Adapter.SecondSwitchOnScreenDiff` |
| 14-learn-keyboard-shortcuts/final/marsrovers/app/src/main/java/com/raywenderlich/marsrovers/recyclerview/PhotoAdapter.kt:85-89 | `updatePhotos` diffs the new rows against `photoList`, even while the filtered list is on screen. | Rows from cameras A and B; switch to A (one row on screen), then replace the rows. The diff's old size is two. | Diff against the rows on screen, so the diff's old size is the item count the list view holds. | not executed | `Adapter.UpdateWhileFilteredDiff` (running `Adapter.PhotoAdapter.UpdatePhotos`) | `Adapter.PhotoAdapter.UpdatePhotosOnScreen`, with `Adapter.UpdateWhileFilteredOnScreenDiff` |
