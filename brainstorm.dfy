/** The brainstorm mind map: topics on a canvas, linked to their parent topic by id, and a
    list of saved boards with a thumbnail frame around the topics. */
module Brainstorm {
  import opened Common

  /** A topic box; `parentId` links it to the topic it grew from. */
  datatype Topic = Topic(
    id: string, content: string, x: real, y: real, width: real, height: real,
    parentId: Option<string>, fontFamily: string)

  datatype Vector = Vector(x: real, y: real)

  /** A saved board; the thumbnail is kept as the size of its view box. */
  datatype SavedBoard = SavedBoard(
    id: string, name: string, topics: seq<Topic>, createdAt: string,
    viewBoxWidth: real, viewBoxHeight: real)

  const NewTopicWidth: real := 150.0
  const NewTopicHeight: real := 50.0
  /** Horizontal gap between a topic and a child added to it. */
  const ChildGap: real := 100.0
  /** Margin of the thumbnail around the topics. */
  const Padding: real := 50.0
  /** Characters of the first root topic used to name a saved board. */
  const NameLength: nat := 20
  const DefaultFont := "font-sans-sc"

  /** `!t.parentId`: no parent, or the empty id. */
  predicate IsRoot(t: Topic) {
    t.parentId.None? || t.parentId.value == ""
  }

  /** Two topic lists with the same ids and parent links, position by position. */
  predicate SameShape(ts: seq<Topic>, us: seq<Topic>) {
    |ts| == |us| && forall i :: 0 <= i < |ts| ==> ts[i].id == us[i].id && ts[i].parentId == us[i].parentId
  }

  /** Dragging: the topics with id `id` move to (x, y); nothing else changes. */
  function MoveTopic(ts: seq<Topic>, id: string, x: real, y: real): (r: seq<Topic>)
    ensures SameShape(ts, r)
    ensures forall i :: 0 <= i < |ts| && ts[i].id != id ==> r[i] == ts[i]
    ensures forall i :: 0 <= i < |ts| && ts[i].id == id ==> r[i] == ts[i].(x := x, y := y)
  {
    if ts == [] then []
    else
      var t := ts[0];
      [if t.id == id then t.(x := x, y := y) else t] + MoveTopic(ts[1..], id, x, y)
  }

  /** Typing: the topics with id `id` get the new text and size; nothing else changes. */
  function EditTopic(ts: seq<Topic>, id: string, content: string, width: real, height: real): (r: seq<Topic>)
    ensures SameShape(ts, r)
    ensures forall i :: 0 <= i < |ts| && ts[i].id != id ==> r[i] == ts[i]
    ensures forall i :: 0 <= i < |ts| && ts[i].id == id ==>
      r[i] == ts[i].(content := content, width := width, height := height)
  {
    if ts == [] then []
    else
      var t := ts[0];
      [if t.id == id then t.(content := content, width := width, height := height) else t]
        + EditTopic(ts[1..], id, content, width, height)
  }

  /** Every topic gets the font; nothing else changes. */
  function WithFont(ts: seq<Topic>, font: string): (r: seq<Topic>)
    ensures SameShape(ts, r)
    ensures forall i :: 0 <= i < |ts| ==> r[i] == ts[i].(fontFamily := font)
  {
    if ts == [] then [] else [ts[0].(fontFamily := font)] + WithFont(ts[1..], font)
  }

  /** `ts[i]` is the first topic whose id is `id`. */
  predicate FirstTopicWithId(ts: seq<Topic>, id: string, i: int) {
    0 <= i < |ts| && ts[i].id == id && forall j :: 0 <= j < i ==> ts[j].id != id
  }

  /** `topics.find(t => t.id === id)`. */
  function FindTopic(ts: seq<Topic>, id: string): (r: Option<Topic>)
    ensures r.None? <==> forall t :: t in ts ==> t.id != id
    ensures r.Some? ==> exists i :: FirstTopicWithId(ts, id, i) && ts[i] == r.value
  {
    if ts == [] then None
    else if ts[0].id == id then
      assert FirstTopicWithId(ts, id, 0);
      Some(ts[0])
    else
      var r := FindTopic(ts[1..], id);
      if r.Some? then
        var i :| FirstTopicWithId(ts[1..], id, i) && ts[1..][i] == r.value;
        assert FirstTopicWithId(ts, id, i + 1);
        r
      else
        r
  }

  /** `topics.filter(t => t.parentId === p)`. */
  function ChildrenOf(ts: seq<Topic>, p: string): (r: seq<Topic>)
    ensures forall t :: t in r <==> t in ts && t.parentId == Some(p)
  {
    if ts == [] then []
    else
      assert ts == [ts[0]] + ts[1..];
      (if ts[0].parentId == Some(p) then [ts[0]] else []) + ChildrenOf(ts[1..], p)
  }

  /** `topics.filter(t => !ids.has(t.id))`: the topics outside `ids`, in order. */
  function WithoutIds(ts: seq<Topic>, ids: set<string>): (r: seq<Topic>)
    ensures |r| <= |ts| && IsSubsequence(r, ts)
    ensures forall t :: t in r <==> t in ts && t.id !in ids
    ensures forall t :: multiset(r)[t] == if t.id !in ids then multiset(ts)[t] else 0
  {
    if ts == [] then []
    else
      var rest := WithoutIds(ts[1..], ids);
      assert ts == [ts[0]] + ts[1..];
      if ts[0].id in ids then rest else [ts[0]] + rest
  }

  function Ids(ts: seq<Topic>): set<string> {
    set t | t in ts :: t.id
  }

  /** A set of ids that holds every child of each of its members. */
  ghost predicate IsClosed(ts: seq<Topic>, c: set<string>) {
    forall i :: 0 <= i < |ts| && ts[i].parentId.Some? && ts[i].parentId.value in c ==> ts[i].id in c
  }

  ghost predicate InEveryClosed(ts: seq<Topic>, s: string, id: string) {
    forall c :: s in c && IsClosed(ts, c) ==> id in c
  }

  /** The branch rooted at `s`: `s` and every topic reachable from it through parent links,
      that is, the least set holding `s` and closed under taking children. */
  ghost function Branch(ts: seq<Topic>, s: string): set<string> {
    set id | id in Ids(ts) + {s} && InEveryClosed(ts, s, id)
  }

  /** The branch holds its root, holds every child of its members, and lies inside every
      other set with those two properties. */
  lemma BranchIsLeastClosed(ts: seq<Topic>, s: string)
    ensures s in Branch(ts, s) && IsClosed(ts, Branch(ts, s))
    ensures forall c :: s in c && IsClosed(ts, c) ==> Branch(ts, s) <= c
    ensures Branch(ts, s) <= Ids(ts) + {s}
  {
    var b := Branch(ts, s);
    forall i | 0 <= i < |ts| && ts[i].parentId.Some? && ts[i].parentId.value in b
      ensures ts[i].id in b
    {
      assert ts[i] in ts;
      forall c | s in c && IsClosed(ts, c) ensures ts[i].id in c {
        assert InEveryClosed(ts, s, ts[i].parentId.value);
      }
    }
  }

  /** Editing, moving and recolouring keep the branches: they depend only on ids and links. */
  lemma SameShapeSameBranch(ts: seq<Topic>, us: seq<Topic>, s: string)
    requires SameShape(ts, us)
    ensures Branch(ts, s) == Branch(us, s)
  {
    forall c ensures IsClosed(ts, c) == IsClosed(us, c) {
    }
    forall id ensures InEveryClosed(ts, s, id) == InEveryClosed(us, s, id) {
    }
    assert Ids(ts) == Ids(us) by {
      forall id | id in Ids(ts) ensures id in Ids(us) {
        var i :| 0 <= i < |ts| && ts[i].id == id;
        assert us[i] in us;
      }
      forall id | id in Ids(us) ensures id in Ids(ts) {
        var i :| 0 <= i < |us| && us[i].id == id;
        assert ts[i] in ts;
      }
    }
  }

  /** After a branch is deleted, no remaining topic points to a deleted parent. */
  lemma NoOrphansAfterDelete(ts: seq<Topic>, s: string)
    ensures forall t :: t in WithoutIds(ts, Branch(ts, s)) && t.parentId.Some? ==>
      t.parentId.value !in Branch(ts, s)
  {
    BranchIsLeastClosed(ts, s);
    forall t | t in WithoutIds(ts, Branch(ts, s)) && t.parentId.Some?
      ensures t.parentId.value !in Branch(ts, s)
    {
      var i :| 0 <= i < |ts| && ts[i] == t;
    }
  }

  /** Every id found so far lies in each closed set holding the root `s`. */
  ghost predicate Reached(ts: seq<Topic>, s: string, found: set<string>) {
    && s in found && found <= Ids(ts) + {s}
    && forall c :: s in c && IsClosed(ts, c) ==> found <= c
  }

  /** The queue holds found ids, each once. */
  predicate Queued(found: set<string>, queue: seq<string>) {
    && (forall k :: 0 <= k < |queue| ==> queue[k] in found)
    && (forall k, l :: 0 <= k < l < |queue| ==> queue[k] != queue[l])
  }

  /** The children of every found id outside `pending` are found. */
  ghost predicate ClosedExcept(ts: seq<Topic>, found: set<string>, pending: seq<string>) {
    forall i ::
      (0 <= i < |ts| && ts[i].parentId.Some? && ts[i].parentId.value in found && ts[i].parentId.value !in pending)
      ==> ts[i].id in found
  }

  /** The sweep's state while the children of `currentId` are being visited. */
  ghost predicate Visiting(ts: seq<Topic>, s: string, currentId: string, found: set<string>, queue: seq<string>) {
    && Reached(ts, s, found) && currentId in found && currentId !in queue
    && Queued(found, queue) && ClosedExcept(ts, found, [currentId] + queue)
  }

  /** The body of the inner loop of `deleteBranch`: a child not yet found is marked and
      queued. */
  method VisitChild(ts: seq<Topic>, s: string, currentId: string, found0: set<string>, queue0: seq<string>,
                    child: Topic)
    returns (found: set<string>, queue: seq<string>)
    requires Visiting(ts, s, currentId, found0, queue0)
    requires child in ts && child.parentId == Some(currentId)
    ensures Visiting(ts, s, currentId, found, queue) && found0 <= found && child.id in found
    ensures found == found0 ==> queue == queue0
  {
    found, queue := found0, queue0;
    if child.id !in found {
      forall c | s in c && IsClosed(ts, c) ensures child.id in c {
        var i :| 0 <= i < |ts| && ts[i] == child;
        assert currentId in c;
      }
      found := found + {child.id};
      queue := queue + [child.id];
    }
  }

  /** Once every child of the visited id is marked, the visited id leaves the pending ids. */
  lemma ChildrenMarked(ts: seq<Topic>, s: string, currentId: string, found: set<string>, queue: seq<string>,
                       children: seq<Topic>)
    requires Visiting(ts, s, currentId, found, queue)
    requires forall t :: t in children <==> t in ts && t.parentId == Some(currentId)
    requires forall k :: 0 <= k < |children| ==> children[k].id in found
    ensures Reached(ts, s, found) && Queued(found, queue) && ClosedExcept(ts, found, queue)
  {
    forall i | 0 <= i < |ts| && ts[i].parentId == Some(currentId) ensures ts[i].id in found {
      assert ts[i] in children;
    }
  }

  /** One step of the sweep of `deleteBranch`: each child of `currentId` not yet found is
      marked and queued. */
  method EnqueueChildren(ts: seq<Topic>, s: string, currentId: string, found0: set<string>, queue0: seq<string>)
    returns (found: set<string>, queue: seq<string>)
    requires Visiting(ts, s, currentId, found0, queue0)
    ensures Reached(ts, s, found) && found0 <= found && Queued(found, queue)
    ensures ClosedExcept(ts, found, queue)
    ensures found == found0 ==> queue == queue0
  {
    found, queue := found0, queue0;
    var children := ChildrenOf(ts, currentId);
    for j := 0 to |children|
      invariant Visiting(ts, s, currentId, found, queue) && found0 <= found
      invariant found == found0 ==> queue == queue0
      invariant forall k :: 0 <= k < j ==> children[k].id in found
    {
      assert children[j] in children;
      found, queue := VisitChild(ts, s, currentId, found, queue, children[j]);
    }
    ChildrenMarked(ts, s, currentId, found, queue, children);
  }

  /** The sweep of `deleteBranch`: a queue of ids to visit and the set of ids found so far;
      each id is put in the queue at most once. */
  method CollectBranch(ts: seq<Topic>, startNodeId: string) returns (nodeIdsToDelete: set<string>)
    ensures nodeIdsToDelete == Branch(ts, startNodeId)
  {
    nodeIdsToDelete := {startNodeId};
    var queue := [startNodeId];
    while |queue| > 0
      invariant Reached(ts, startNodeId, nodeIdsToDelete) && Queued(nodeIdsToDelete, queue)
      invariant ClosedExcept(ts, nodeIdsToDelete, queue)
      decreases Ids(ts) + {startNodeId} - nodeIdsToDelete, |queue|
    {
      var currentId := queue[0];
      assert queue == [currentId] + queue[1..];
      queue := queue[1..];
      nodeIdsToDelete, queue := EnqueueChildren(ts, startNodeId, currentId, nodeIdsToDelete, queue);
    }
    BranchIsLeastClosed(ts, startNodeId);
  }

  /** The least of `f` over a non-empty list of topics (`Math.min` over the mapped list). */
  function MinOf(ts: seq<Topic>, f: Topic -> real): (m: real)
    requires |ts| > 0
    ensures forall t :: t in ts ==> m <= f(t)
    ensures exists t :: t in ts && m == f(t)
  {
    if |ts| == 1 then f(ts[0])
    else
      var m := MinOf(ts[1..], f);
      assert forall t :: t in ts[1..] ==> t in ts;
      if f(ts[0]) <= m then f(ts[0]) else m
  }

  /** The greatest of `f` over a non-empty list of topics (`Math.max` over the mapped list). */
  function MaxOf(ts: seq<Topic>, f: Topic -> real): (m: real)
    requires |ts| > 0
    ensures forall t :: t in ts ==> f(t) <= m
    ensures exists t :: t in ts && m == f(t)
  {
    if |ts| == 1 then f(ts[0])
    else
      var m := MaxOf(ts[1..], f);
      assert forall t :: t in ts[1..] ==> t in ts;
      if f(ts[0]) >= m then f(ts[0]) else m
  }

  function Left(t: Topic): real { t.x }
  function Top(t: Topic): real { t.y }
  function Right(t: Topic): real { t.x + t.width }
  function Bottom(t: Topic): real { t.y + t.height }

  /** The thumbnail's view box: the extent of the topics plus the padding on both sides. */
  function ViewBox(ts: seq<Topic>): (real, real)
    requires |ts| > 0
  {
    (MaxOf(ts, Right) - MinOf(ts, Left) + Padding * 2.0, MaxOf(ts, Bottom) - MinOf(ts, Top) + Padding * 2.0)
  }

  /** Every topic, drawn in the thumbnail shifted by the padding minus the least corner, lies
      inside the view box at least the padding away from each edge, and the extreme topics
      lie exactly the padding away. */
  lemma ViewBoxFramesTopics(ts: seq<Topic>)
    requires |ts| > 0
    ensures var (w, h) := ViewBox(ts);
      var dx, dy := Padding - MinOf(ts, Left), Padding - MinOf(ts, Top);
      && (forall t :: t in ts ==>
            && Padding <= t.x + dx && t.x + dx + t.width <= w - Padding
            && Padding <= t.y + dy && t.y + dy + t.height <= h - Padding)
      && (exists t :: t in ts && t.x + dx == Padding)
      && (exists t :: t in ts && t.x + dx + t.width == w - Padding)
      && (exists t :: t in ts && t.y + dy == Padding)
      && (exists t :: t in ts && t.y + dy + t.height == h - Padding)
  {
    var minX, minY, maxX, maxY := MinOf(ts, Left), MinOf(ts, Top), MaxOf(ts, Right), MaxOf(ts, Bottom);
    forall t | t in ts
      ensures minX <= t.x && minY <= t.y && t.x + t.width <= maxX && t.y + t.height <= maxY
    {
      assert Left(t) >= minX && Top(t) >= minY && Right(t) <= maxX && Bottom(t) <= maxY;
    }
    var a :| a in ts && minX == Left(a);
    var b :| b in ts && maxX == Right(b);
    var c :| c in ts && minY == Top(c);
    var d :| d in ts && maxY == Bottom(d);
  }

  /** `topics.find(t => !t.parentId)`. */
  function FirstRoot(ts: seq<Topic>): (r: Option<Topic>)
    ensures r.None? <==> forall t :: t in ts ==> !IsRoot(t)
    ensures r.Some? ==> r.value in ts && IsRoot(r.value)
    ensures r.Some? ==> exists i :: 0 <= i < |ts| && ts[i] == r.value && forall j :: 0 <= j < i ==> !IsRoot(ts[j])
  {
    if ts == [] then None
    else if IsRoot(ts[0]) then Some(ts[0])
    else FirstRoot(ts[1..])
  }

  /** The label of a saved board: the first characters of the first root topic's text, or
      the untitled label when there is no root topic or its text is empty. */
  function BoardLabel(ts: seq<Topic>, untitled: string): (r: string)
    ensures var root := FirstRoot(ts);
      if root.Some? && root.value.content != "" then
        && r != [] && r <= root.value.content
        && |r| == if |root.value.content| < NameLength then |root.value.content| else NameLength
      else r == untitled
  {
    var root := FirstRoot(ts);
    if root.Some? && root.value.content != "" then
      var text := root.value.content;
      text[..if |text| < NameLength then |text| else NameLength]
    else untitled
  }

  /** The state of the brainstorm view. */
  class BrainstormView {
    var topics: seq<Topic>
    var savedBoards: seq<SavedBoard>
    var globalFont: string
    var editingTopicId: Option<string>
    var selectedTopicId: Option<string>

    /** Mounting the view: an empty canvas and the boards read from storage. */
    constructor (stored: seq<SavedBoard>)
      ensures topics == [] && savedBoards == stored && globalFont == DefaultFont
      ensures editingTopicId == None && selectedTopicId == None
    {
      topics := [];
      savedBoards := stored;
      globalFont := DefaultFont;
      editingTopicId := None;
      selectedTopicId := None;
    }

    /** Dragging a topic: its corner goes to the pointer position relative to the canvas;
        nothing happens while the canvas has no bounding box. */
    method UpdateTopicPosition(id: string, pos: Vector, canvasOrigin: Option<Vector>)
      modifies this
      ensures canvasOrigin.None? ==> topics == old(topics)
      ensures canvasOrigin.Some? ==>
        topics == MoveTopic(old(topics), id, pos.x - canvasOrigin.value.x, pos.y - canvasOrigin.value.y)
      ensures savedBoards == old(savedBoards) && globalFont == old(globalFont)
      ensures editingTopicId == old(editingTopicId) && selectedTopicId == old(selectedTopicId)
    {
      if canvasOrigin.None? {
        return;
      }
      topics := MoveTopic(topics, id, pos.x - canvasOrigin.value.x, pos.y - canvasOrigin.value.y);
    }

    /** Typing into a topic: its text and measured size change. */
    method UpdateTopicContent(id: string, content: string, width: real, height: real)
      modifies this
      ensures topics == EditTopic(old(topics), id, content, width, height)
      ensures savedBoards == old(savedBoards) && globalFont == old(globalFont)
      ensures editingTopicId == old(editingTopicId) && selectedTopicId == old(selectedTopicId)
    {
      topics := EditTopic(topics, id, content, width, height);
    }

    /** Appends a new topic of the default size, in the current font, linked to the given
        parent (an empty parent id counts as none), and selects it for editing. */
    method AddTopic(pos: Vector, parentId: Option<string>, newId: string, newLabel: string)
      modifies this
      ensures |topics| == |old(topics)| + 1 && topics[..|old(topics)|] == old(topics)
      ensures var t := topics[|old(topics)|];
        && t.id == newId && t.content == newLabel && t.x == pos.x && t.y == pos.y
        && t.width == NewTopicWidth && t.height == NewTopicHeight && t.fontFamily == globalFont
        && t.parentId == if parentId.Some? && parentId.value != "" then parentId else None
      ensures editingTopicId == Some(newId) && selectedTopicId == Some(newId)
      ensures savedBoards == old(savedBoards) && globalFont == old(globalFont)
    {
      var newTopic := Topic(newId, newLabel, pos.x, pos.y, NewTopicWidth, NewTopicHeight,
                            if parentId.Some? && parentId.value != "" then parentId else None, globalFont);
      topics := topics + [newTopic];
      editingTopicId := Some(newTopic.id);
      selectedTopicId := Some(newTopic.id);
    }

    /** Adds a child to the right of its parent; nothing happens for an unknown parent. */
    method AddChildTopic(parentId: string, newId: string, newLabel: string)
      modifies this
      ensures FindTopic(old(topics), parentId).None? ==> unchanged(this)
      ensures FindTopic(old(topics), parentId).Some? ==>
        var p := FindTopic(old(topics), parentId).value;
        && |topics| == |old(topics)| + 1 && topics[..|old(topics)|] == old(topics)
        && topics[|old(topics)|].x == p.x + p.width + ChildGap && topics[|old(topics)|].y == p.y
        && topics[|old(topics)|].parentId == (if parentId != "" then Some(parentId) else None)
        && topics[|old(topics)|].id == newId && topics[|old(topics)|].content == newLabel
        && topics[|old(topics)|].width == NewTopicWidth && topics[|old(topics)|].height == NewTopicHeight
        && topics[|old(topics)|].fontFamily == globalFont
        && editingTopicId == Some(newId) && selectedTopicId == Some(newId)
        && savedBoards == old(savedBoards) && globalFont == old(globalFont)
    {
      var parent := FindTopic(topics, parentId);
      if parent.None? {
        return;
      }
      var pos := Vector(parent.value.x + parent.value.width + ChildGap, parent.value.y);
      AddTopic(pos, Some(parentId), newId, newLabel);
    }

    /** A right click on the bare canvas adds a root topic under the pointer; a click that
        lands on anything else does nothing. */
    method CanvasRightClick(onBareCanvas: bool, pointer: Vector, canvasOrigin: Vector, newId: string, newLabel: string)
      modifies this
      ensures !onBareCanvas ==> unchanged(this)
      ensures onBareCanvas ==>
        && |topics| == |old(topics)| + 1 && topics[..|old(topics)|] == old(topics)
        && topics[|old(topics)|] == Topic(newId, newLabel, pointer.x - canvasOrigin.x, pointer.y - canvasOrigin.y,
                                          NewTopicWidth, NewTopicHeight, None, globalFont)
        && editingTopicId == Some(newId) && selectedTopicId == Some(newId)
        && savedBoards == old(savedBoards) && globalFont == old(globalFont)
    {
      if !onBareCanvas {
        return;
      }
      AddTopic(Vector(pointer.x - canvasOrigin.x, pointer.y - canvasOrigin.y), None, newId, newLabel);
    }

    /** Deletes a topic together with all of its descendants; the other topics stay in
        order. */
    method DeleteBranch(startNodeId: string)
      modifies this
      ensures topics == WithoutIds(old(topics), Branch(old(topics), startNodeId))
      ensures savedBoards == old(savedBoards) && globalFont == old(globalFont)
      ensures editingTopicId == old(editingTopicId) && selectedTopicId == old(selectedTopicId)
    {
      var nodeIdsToDelete := CollectBranch(topics, startNodeId);
      topics := WithoutIds(topics, nodeIdsToDelete);
    }

    /** Removes every topic. */
    method ClearCanvas()
      modifies this
      ensures topics == [] && savedBoards == old(savedBoards) && globalFont == old(globalFont)
      ensures editingTopicId == old(editingTopicId) && selectedTopicId == old(selectedTopicId)
    {
      topics := [];
    }

    /** Saves the canvas as a new board at the end of the list, named after its first root
        topic and the time; an empty canvas is refused and changes nothing. */
    method SaveBoard(boardId: string, localTime: string, createdAt: string, untitled: string)
      returns (saved: bool)
      modifies this
      ensures topics == old(topics) && globalFont == old(globalFont)
      ensures saved <==> |old(topics)| > 0
      ensures !saved ==> savedBoards == old(savedBoards)
      ensures saved ==>
        && |savedBoards| == |old(savedBoards)| + 1 && savedBoards[..|old(savedBoards)|] == old(savedBoards)
        && var b := savedBoards[|old(savedBoards)|];
        && b.id == boardId && b.topics == topics && b.createdAt == createdAt
        && b.name == BoardLabel(topics, untitled) + " - " + localTime
        && b.viewBoxWidth == MaxOf(topics, Right) - MinOf(topics, Left) + 2.0 * Padding
        && b.viewBoxHeight == MaxOf(topics, Bottom) - MinOf(topics, Top) + 2.0 * Padding
      ensures editingTopicId == old(editingTopicId) && selectedTopicId == old(selectedTopicId)
    {
      if |topics| == 0 {
        return false;
      }
      var boardName := BoardLabel(topics, untitled);
      var finalName := boardName + " - " + localTime;
      var (viewBoxWidth, viewBoxHeight) := ViewBox(topics);
      var newBoard := SavedBoard(boardId, finalName, topics, createdAt, viewBoxWidth, viewBoxHeight);
      savedBoards := savedBoards + [newBoard];
      saved := true;
    }

    /** Loads the first saved board with the id onto the canvas and takes over the font of
        its first topic when that font is not empty; an unknown id does nothing. */
    method LoadBoard(boardId: string)
      modifies this
      ensures FindBoard(savedBoards, boardId).None? ==> unchanged(this)
      ensures FindBoard(savedBoards, boardId).Some? ==>
        var b := FindBoard(savedBoards, boardId).value;
        && topics == b.topics
        && globalFont == if |b.topics| > 0 && b.topics[0].fontFamily != "" then b.topics[0].fontFamily
                         else old(globalFont)
      ensures savedBoards == old(savedBoards)
      ensures editingTopicId == old(editingTopicId) && selectedTopicId == old(selectedTopicId)
    {
      var boardToLoad := FindBoard(savedBoards, boardId);
      if boardToLoad.Some? {
        topics := boardToLoad.value.topics;
        if |boardToLoad.value.topics| > 0 && boardToLoad.value.topics[0].fontFamily != "" {
          globalFont := boardToLoad.value.topics[0].fontFamily;
        }
      }
    }

    /** Deletes every saved board with the id, keeping the others in order. */
    method DeleteBoard(boardId: string)
      modifies this
      ensures savedBoards == WithoutBoard(old(savedBoards), boardId)
      ensures IsSubsequence(savedBoards, old(savedBoards))
      ensures forall b :: b in savedBoards <==> b in old(savedBoards) && b.id != boardId
      ensures topics == old(topics) && globalFont == old(globalFont)
      ensures editingTopicId == old(editingTopicId) && selectedTopicId == old(selectedTopicId)
    {
      savedBoards := WithoutBoard(savedBoards, boardId);
    }

    /** Choosing a font: it becomes the font of new topics and of every topic. */
    method SetGlobalFont(font: string)
      modifies this
      ensures globalFont == font && topics == WithFont(old(topics), font)
      ensures savedBoards == old(savedBoards)
      ensures editingTopicId == old(editingTopicId) && selectedTopicId == old(selectedTopicId)
    {
      globalFont := font;
      topics := WithFont(topics, font);
    }
  }

  /** `savedBoards.filter(b => b.id !== id)`. */
  function WithoutBoard(bs: seq<SavedBoard>, id: string): (r: seq<SavedBoard>)
    ensures IsSubsequence(r, bs)
    ensures forall b :: b in r <==> b in bs && b.id != id
    ensures forall b :: multiset(r)[b] == if b.id != id then multiset(bs)[b] else 0
  {
    if bs == [] then []
    else
      var rest := WithoutBoard(bs[1..], id);
      assert bs == [bs[0]] + bs[1..];
      if bs[0].id == id then rest else [bs[0]] + rest
  }

  /** `b` is the first saved board whose id is `id`. */
  predicate FirstBoardWithId(bs: seq<SavedBoard>, id: string, i: int) {
    0 <= i < |bs| && bs[i].id == id && forall j :: 0 <= j < i ==> bs[j].id != id
  }

  /** `savedBoards.find(b => b.id === id)`. */
  function FindBoard(bs: seq<SavedBoard>, id: string): (r: Option<SavedBoard>)
    ensures r.None? <==> forall b :: b in bs ==> b.id != id
    ensures r.Some? ==> exists i :: FirstBoardWithId(bs, id, i) && bs[i] == r.value
  {
    if bs == [] then None
    else if bs[0].id == id then
      assert FirstBoardWithId(bs, id, 0);
      Some(bs[0])
    else
      var r := FindBoard(bs[1..], id);
      if r.Some? then
        var i :| FirstBoardWithId(bs[1..], id, i) && bs[1..][i] == r.value;
        assert FirstBoardWithId(bs, id, i + 1);
        r
      else
        r
  }

  /** A board saved under a fresh id is the one found when it is loaded back. */
  lemma {:induction false} SavedBoardLoadsBack(bs: seq<SavedBoard>, b: SavedBoard)
    requires forall x :: x in bs ==> x.id != b.id
    ensures FindBoard(bs + [b], b.id) == Some(b)
  {
    if bs != [] {
      assert (bs + [b])[1..] == bs[1..] + [b];
      SavedBoardLoadsBack(bs[1..], b);
    }
  }
}
