/**
 * The view holder of the photo list: when it is created it walks its item
 * view's tree once and stores the views it meets in a map from id to view;
 * every accessor then looks the id up in that map, failing first when the id
 * is missing and then when the view is of the wrong kind.
 */
module ViewIndex {
  import opened Wrappers

  /** The id a view carries when it was given none. */
  const NO_ID := -1

  /** What a leaf view is: the text, the checked state and the image are its own state. */
  datatype Widget = Plain | Text(text: string) | Compound(text: string, checked: bool) | Image

  /** A view tree: a single view, or a group with its children in order. */
  datatype View = Leaf(id: int, widget: Widget) | Group(id: int, children: seq<View>)

  /** The view classes the typed accessors insist on. */
  datatype ViewClass = TextViewClass | CompoundButtonClass | ImageViewClass

  /** Why an accessor refuses an id: no view is stored for it, or the stored view has the wrong class. */
  datatype ViewError = NotFound(id: int) | NotA(id: int, expected: ViewClass)

  /** The two visibilities `SetVisible` chooses between. */
  datatype Visibility = Visible | Gone

  /**
   * The class test. A compound button is a text view, so it passes both tests;
   * a group is none of the three.
   */
  predicate IsA(v: View, cls: ViewClass)
  {
    match cls
    case TextViewClass => v.Leaf? && (v.widget.Text? || v.widget.Compound?)
    case CompoundButtonClass => v.Leaf? && v.widget.Compound?
    case ImageViewClass => v.Leaf? && v.widget.Image?
  }

  /** Every view of the tree, parents before children, children in order. */
  function PreOrder(v: View): seq<View>
  {
    match v
    case Leaf(_, _) => [v]
    case Group(_, children) => [v] + Forest(children)
  }

  /** The pre-orders of a list of trees, concatenated. */
  function Forest(cs: seq<View>): seq<View>
  {
    if cs == [] then [] else Forest(cs[..|cs| - 1]) + PreOrder(cs[|cs| - 1])
  }

  /**
   * The last view of `s` whose id is `id`: among views that share an id, the
   * one stored last is the one the map keeps.
   */
  function LastWithId(s: seq<View>, id: int): (r: Option<View>)
    ensures r.None? <==> forall i :: 0 <= i < |s| ==> s[i].id != id
    ensures r.Some? ==> r.value.id == id && r.value in s
  {
    if s == [] then None
    else if s[|s| - 1].id == id then Some(s[|s| - 1])
    else LastWithId(s[..|s| - 1], id)
  }

  /**
   * What the accessors promise to find for `id`: the last view in pre-order
   * that carries it, except that a group root never stores the views without
   * an id. A root that is not a group is stored under its id whatever it is.
   */
  function Find(root: View, id: int): Option<View>
  {
    if id == NO_ID && root.Group? then None else LastWithId(PreOrder(root), id)
  }

  /** The map's answer for `id`: the stored view, or nothing. */
  function Get(m: map<int, View>, id: int): (r: Option<View>)
    ensures r.Some? <==> id in m
    ensures r.Some? ==> r.value == m[id]
  {
    if id in m then Some(m[id]) else None
  }

  /** `m` after storing every view of `s` under its id, in order. */
  function Put(m: map<int, View>, s: seq<View>): map<int, View>
  {
    if s == [] then m else Put(m, s[..|s| - 1])[s[|s| - 1].id := s[|s| - 1]]
  }

  /** The view itself when it has an id, nothing otherwise. */
  function Own(v: View): seq<View>
  {
    if v.id != NO_ID then [v] else []
  }

  /**
   * The stores the walk makes for `v`: a single view is stored whatever its id;
   * a group stores itself when it has an id and then walks its children.
   */
  function PutTrace(v: View): seq<View>
  {
    match v
    case Leaf(_, _) => [v]
    case Group(_, children) => Own(v) + ChildTrace(children)
  }

  /**
   * The stores made for a list of children: each child is stored when it has
   * an id, and a child group is then walked, which stores it a second time.
   */
  function ChildTrace(cs: seq<View>): seq<View>
  {
    if cs == [] then []
    else
      var c := cs[|cs| - 1];
      ChildTrace(cs[..|cs| - 1]) + Own(c) + (if c.Group? then PutTrace(c) else [])
  }

  /** The map the walk of `root` builds from an empty map. */
  function Index(root: View): map<int, View>
  {
    Put(map[], PutTrace(root))
  }

  /** The views with an id, in order. */
  function Named(s: seq<View>): (r: seq<View>)
    ensures forall i :: 0 <= i < |r| ==> r[i].id != NO_ID && r[i] in s
  {
    if s == [] then []
    else Named(s[..|s| - 1]) + Own(s[|s| - 1])
  }

  /** The stores the walk makes once repeated stores are dropped. */
  function Registered(root: View): seq<View>
  {
    if root.Leaf? then [root] else Named(PreOrder(root))
  }

  /**
   * The check every typed accessor makes on what it found: a missing id fails
   * first, a view of the wrong class fails next.
   */
  function Checked(found: Option<View>, id: int, cls: ViewClass): (r: Result<View, ViewError>)
    ensures r == Failure(NotFound(id)) <==> found.None?
    ensures r == Failure(NotA(id, cls)) <==> found.Some? && !IsA(found.value, cls)
    ensures r.Success? <==> found.Some? && IsA(found.value, cls)
    ensures r.Success? ==> r.value == found.value
  {
    match found
    case None => Failure(NotFound(id))
    case Some(v) => if IsA(v, cls) then Success(v) else Failure(NotA(id, cls))
  }

  lemma {:induction false} PutAppend(m: map<int, View>, a: seq<View>, b: seq<View>)
    ensures Put(m, a + b) == Put(Put(m, a), b)
    decreases |b|
  {
    if b == [] {
      assert a + b == a;
    } else {
      assert (a + b)[..|a + b| - 1] == a + b[..|b| - 1];
      PutAppend(m, a, b[..|b| - 1]);
    }
  }

  lemma {:induction false} NamedAppend(a: seq<View>, b: seq<View>)
    ensures Named(a + b) == Named(a) + Named(b)
    decreases |b|
  {
    if b == [] {
      assert a + b == a;
    } else {
      assert (a + b)[..|a + b| - 1] == a + b[..|b| - 1];
      NamedAppend(a, b[..|b| - 1]);
    }
  }

  /** Storing a view when it has an id. */
  lemma PutOwn(m: map<int, View>, v: View)
    ensures Put(m, Own(v)) == if v.id != NO_ID then m[v.id := v] else m
  {
    assert [v][..0] == [];
  }

  /** The stores for the first i + 1 children: those for the first i, then the stores for child i. */
  lemma ChildTraceStep(m: map<int, View>, cs: seq<View>, i: int)
    requires 0 <= i < |cs|
    ensures Put(m, ChildTrace(cs[..i + 1])) ==
      Put(Put(Put(m, ChildTrace(cs[..i])), Own(cs[i])), if cs[i].Group? then PutTrace(cs[i]) else [])
  {
    var rest := if cs[i].Group? then PutTrace(cs[i]) else [];
    assert cs[..i + 1][..i] == cs[..i];
    assert ChildTrace(cs[..i + 1]) == (ChildTrace(cs[..i]) + Own(cs[i])) + rest;
    PutAppend(m, ChildTrace(cs[..i]) + Own(cs[i]), rest);
    PutAppend(m, ChildTrace(cs[..i]), Own(cs[i]));
  }

  /** Storing the same view twice in a row stores it once. */
  lemma PutTwice(m: map<int, View>, v: View)
    ensures Put(m, Own(v) + Own(v)) == Put(m, Own(v))
  {
    if v.id != NO_ID {
      assert Own(v) + Own(v) == [v, v];
      assert [v, v][..1] == [v];
    }
  }

  /** The stores made for one child, with the repeated store of a child group dropped. */
  lemma {:induction false} ChildPutsMatch(m: map<int, View>, c: View)
    ensures Put(m, Own(c) + (if c.Group? then PutTrace(c) else [])) == Put(m, Named(PreOrder(c)))
    decreases c, 1
  {
    assert Named([c]) == Own(c) by {
      assert [c][..0] == [];
    }
    match c
    case Leaf(_, _) =>
      assert Own(c) + [] == Own(c);
    case Group(_, children) =>
      calc {
        Put(m, Own(c) + PutTrace(c));
        { assert Own(c) + PutTrace(c) == (Own(c) + Own(c)) + ChildTrace(children); }
        Put(m, (Own(c) + Own(c)) + ChildTrace(children));
        { PutAppend(m, Own(c) + Own(c), ChildTrace(children)); PutTwice(m, c); }
        Put(Put(m, Own(c)), ChildTrace(children));
        { ChildTraceMatches(Put(m, Own(c)), children); }
        Put(Put(m, Own(c)), Named(Forest(children)));
        { PutAppend(m, Own(c), Named(Forest(children))); }
        Put(m, Own(c) + Named(Forest(children)));
        { NamedAppend([c], Forest(children)); }
        Put(m, Named(PreOrder(c)));
      }
  }

  /** The stores made for a list of children, with repeated stores dropped. */
  lemma {:induction false} ChildTraceMatches(m: map<int, View>, cs: seq<View>)
    ensures Put(m, ChildTrace(cs)) == Put(m, Named(Forest(cs)))
    decreases cs, 0
  {
    if cs != [] {
      var init, c := cs[..|cs| - 1], cs[|cs| - 1];
      var step := Own(c) + (if c.Group? then PutTrace(c) else []);
      calc {
        Put(m, ChildTrace(cs));
        { assert ChildTrace(cs) == ChildTrace(init) + step; }
        Put(m, ChildTrace(init) + step);
        { PutAppend(m, ChildTrace(init), step); }
        Put(Put(m, ChildTrace(init)), step);
        { ChildTraceMatches(m, init); }
        Put(Put(m, Named(Forest(init))), step);
        { ChildPutsMatch(Put(m, Named(Forest(init))), c); }
        Put(Put(m, Named(Forest(init))), Named(PreOrder(c)));
        { PutAppend(m, Named(Forest(init)), Named(PreOrder(c))); }
        Put(m, Named(Forest(init)) + Named(PreOrder(c)));
        { NamedAppend(Forest(init), PreOrder(c)); }
        Put(m, Named(Forest(cs)));
      }
    }
  }

  /** The walk builds the same map as storing each registered view once, in pre-order. */
  lemma TraceMatches(m: map<int, View>, root: View)
    ensures Put(m, PutTrace(root)) == Put(m, Registered(root))
  {
    if root.Group? {
      assert Named([root]) == Own(root) by {
        assert [root][..0] == [];
      }
      calc {
        Put(m, PutTrace(root));
        { PutAppend(m, Own(root), ChildTrace(root.children)); }
        Put(Put(m, Own(root)), ChildTrace(root.children));
        { ChildTraceMatches(Put(m, Own(root)), root.children); }
        Put(Put(m, Own(root)), Named(Forest(root.children)));
        { PutAppend(m, Own(root), Named(Forest(root.children))); }
        Put(m, Own(root) + Named(Forest(root.children)));
        { NamedAppend([root], Forest(root.children)); }
        Put(m, Registered(root));
      }
    }
  }

  /** Looking `id` up after storing `s`: the last view of `s` with that id, else what `m` held. */
  lemma {:induction false} PutLookup(m: map<int, View>, s: seq<View>, id: int)
    ensures Get(Put(m, s), id) == match LastWithId(s, id) case Some(v) => Some(v) case None => Get(m, id)
  {
    if s != [] {
      PutLookup(m, s[..|s| - 1], id);
    }
  }

  /** The view found is one that no later view with the same id follows. */
  lemma {:induction false} LastWithIdIsLast(s: seq<View>, id: int)
    requires LastWithId(s, id).Some?
    ensures exists i :: 0 <= i < |s| && s[i] == LastWithId(s, id).value && forall j :: i < j < |s| ==> s[j].id != id
  {
    var n := |s| - 1;
    var v := LastWithId(s, id).value;
    if s[n].id == id {
      assert s[n] == v;
    } else {
      var init := s[..n];
      assert LastWithId(init, id) == LastWithId(s, id);
      LastWithIdIsLast(init, id);
      var i :| 0 <= i < n && init[i] == v && forall j :: i < j < n ==> init[j].id != id;
      forall j | i < j < |s| ensures s[j].id != id {
        if j < n {
          assert s[j] == init[j];
        }
      }
      assert s[i] == v;
    }
  }

  /** Searching a list with one more view at its end. */
  lemma LastWithIdSnoc(s: seq<View>, v: View, id: int)
    ensures LastWithId(s + [v], id) == if v.id == id then Some(v) else LastWithId(s, id)
  {
    assert (s + [v])[..|s|] == s;
  }

  /** Dropping the views without an id changes no search for a real id. */
  lemma {:induction false} LastWithIdNamed(s: seq<View>, id: int)
    requires id != NO_ID
    ensures LastWithId(Named(s), id) == LastWithId(s, id)
  {
    if s != [] {
      var init, v := s[..|s| - 1], s[|s| - 1];
      assert s == init + [v];
      assert Named(s) == Named(init) + Own(v);
      LastWithIdNamed(init, id);
      LastWithIdSnoc(init, v, id);
      if v.id != NO_ID {
        LastWithIdSnoc(Named(init), v, id);
      } else {
        assert Named(s) == Named(init);
      }
    }
  }

  /**
   * The map the walk builds answers every id as Find does: the last view in
   * pre-order with that id, and nothing for NO_ID below a group root.
   */
  lemma IndexLookup(root: View, id: int)
    ensures Get(Index(root), id) == Find(root, id)
  {
    TraceMatches(map[], root);
    PutLookup(map[], Registered(root), id);
    if root.Group? {
      if id == NO_ID {
        assert LastWithId(Registered(root), id) == None;
      } else {
        LastWithIdNamed(PreOrder(root), id);
      }
    }
  }

  /**
   * Every view with an id can be found by it, and whatever is found for an id
   * is a view of the tree that carries it and that no later view in pre-order
   * overrides.
   */
  lemma FindSpec(root: View, id: int)
    ensures (exists v :: v in PreOrder(root) && v.id == id && (id != NO_ID || root.Leaf?)) <==> Find(root, id).Some?
    ensures Find(root, id).Some? ==> Find(root, id).value in PreOrder(root) && Find(root, id).value.id == id
    ensures Find(root, id).Some? ==>
      exists i :: 0 <= i < |PreOrder(root)| && PreOrder(root)[i] == Find(root, id).value &&
        forall j :: i < j < |PreOrder(root)| ==> PreOrder(root)[j].id != id
  {
    if Find(root, id).Some? {
      LastWithIdIsLast(PreOrder(root), id);
    }
  }

  /** A view holder: its item view and the map its walk built. */
  class ViewHolder {
    const itemView: View
    var viewMap: map<int, View>

    /** The map is the one the walk of the item view builds. */
    ghost predicate Valid()
      reads this
    {
      viewMap == Index(itemView)
    }

    constructor (itemView: View)
      ensures this.itemView == itemView
      ensures Valid()
    {
      this.itemView := itemView;
      viewMap := map[];
      new;
      FindViewItems(itemView);
    }

    /** Walks `v`, storing views under their ids in the order the trace lists them. */
    method FindViewItems(v: View)
      modifies this
      ensures viewMap == Put(old(viewMap), PutTrace(v))
      decreases v
    {
      if v.Group? {
        if v.id != NO_ID {
          viewMap := viewMap[v.id := v];
        }
        PutOwn(old(viewMap), v);
        ghost var start := viewMap;
        for i := 0 to |v.children|
          invariant viewMap == Put(start, ChildTrace(v.children[..i]))
        {
          var child := v.children[i];
          ChildTraceStep(start, v.children, i);
          PutOwn(viewMap, child);
          if child.id != NO_ID {
            viewMap := viewMap[child.id := child];
          }
          if child.Group? {
            FindViewItems(child);
          }
        }
        assert v.children[..|v.children|] == v.children;
        PutAppend(old(viewMap), Own(v), ChildTrace(v.children));
      } else {
        viewMap := viewMap[v.id := v];
        assert [v][..0] == [];
      }
    }

    /** The view stored for `id`, if any. */
    function GetView(id: int): (r: Option<View>)
      reads this
      requires Valid()
      ensures r == Find(itemView, id)
    {
      IndexLookup(itemView, id);
      Get(viewMap, id)
    }

    /** Setting a text: fails unless a text view is stored for `id`. */
    function SetText(id: int, text: string): (o: Outcome<ViewError>)
      reads this
      requires Valid()
      ensures o == Checked(Find(itemView, id), id, TextViewClass).ToOutcome()
    {
      IndexLookup(itemView, id);
      Checked(Get(viewMap, id), id, TextViewClass).ToOutcome()
    }

    /** Setting the checked state: fails unless a compound button is stored for `id`. */
    function SetChecked(id: int, checked: bool): (o: Outcome<ViewError>)
      reads this
      requires Valid()
      ensures o == Checked(Find(itemView, id), id, CompoundButtonClass).ToOutcome()
    {
      IndexLookup(itemView, id);
      Checked(Get(viewMap, id), id, CompoundButtonClass).ToOutcome()
    }

    /** The checked state of the compound button stored for `id`. */
    function IsChecked(id: int): (r: Result<bool, ViewError>)
      reads this
      requires Valid()
      ensures match Checked(Find(itemView, id), id, CompoundButtonClass)
              case Success(v) => r == Success(v.widget.checked)
              case Failure(e) => r == Failure(e)
    {
      IndexLookup(itemView, id);
      match Checked(Get(viewMap, id), id, CompoundButtonClass)
      case Success(v) => Success(v.widget.checked)
      case Failure(e) => Failure(e)
    }

    /** The text of the text view stored for `id`. */
    function GetText(id: int): (r: Result<string, ViewError>)
      reads this
      requires Valid()
      ensures match Checked(Find(itemView, id), id, TextViewClass)
              case Success(v) => r == Success(v.widget.text)
              case Failure(e) => r == Failure(e)
    {
      IndexLookup(itemView, id);
      match Checked(Get(viewMap, id), id, TextViewClass)
      case Success(v) => Success(v.widget.text)
      case Failure(e) => Failure(e)
    }

    /** Setting an image: fails unless an image view is stored for `id`. */
    function SetImage(id: int): (o: Outcome<ViewError>)
      reads this
      requires Valid()
      ensures o == Checked(Find(itemView, id), id, ImageViewClass).ToOutcome()
    {
      IndexLookup(itemView, id);
      Checked(Get(viewMap, id), id, ImageViewClass).ToOutcome()
    }

    /** The image view stored for `id`. */
    function GetImage(id: int): (r: Result<View, ViewError>)
      reads this
      requires Valid()
      ensures r == Checked(Find(itemView, id), id, ImageViewClass)
    {
      IndexLookup(itemView, id);
      Checked(Get(viewMap, id), id, ImageViewClass)
    }

    /** The visibility given to the view stored for `id`; any kind of view will do. */
    function SetVisible(id: int, visible: bool): (r: Result<Visibility, ViewError>)
      reads this
      requires Valid()
      ensures r.Failure? <==> Find(itemView, id).None?
      ensures r.Failure? ==> r.error == NotFound(id)
      ensures r.Success? ==> r.value == if visible then Visible else Gone
    {
      IndexLookup(itemView, id);
      if id !in viewMap then Failure(NotFound(id))
      else Success(if visible then Visible else Gone)
    }

    /** Setting a click listener on the view stored for `id`; any kind of view will do. */
    function SetClickListener(id: int): (o: Outcome<ViewError>)
      reads this
      requires Valid()
      ensures o == Pass <==> Find(itemView, id).Some?
      ensures o.Fail? ==> o.error == NotFound(id)
    {
      IndexLookup(itemView, id);
      if id !in viewMap then Fail(NotFound(id)) else Pass
    }
  }
}
