/**
 The WDF object tree with its deferred event queue (object.c, evtqueue.c).

 The allocated structures are maps from references to their fields, so that `free` is the removal
 of a reference and every access to a field carries the obligation that it is still allocated.
 Objects are numbered in creation order: a parent always has a smaller reference than its child.
 */
module ObjectForest {
  type Ref = nat

  const NULL: Ref := 0

  /** What a queued action does: `winwdf_destroy_object`, or a notification that leaves the tree alone. */
  datatype ActionFnc = DestroyFnc | NotifyFnc

  /** The list fields of struct wdf_object. `parentList` names the object that holds the child list. */
  datatype Object = Object(parentList: Ref, prev: Ref, next: Ref, childHead: Ref, dead: bool, actsHead: Ref)

  /** struct wdf_evtqueue_action; `target` is its `object`, NULL once the object has dropped it. */
  datatype Action = Action(next: Ref, target: Ref, objNext: Ref, fnc: ActionFnc)

  type Objects = map<Ref, Object>
  type Actions = map<Ref, Action>

  /** `parent_obj` of every object ever created; parents are older. */
  type Parents = map<Ref, Ref>

  function At(s: seq<Ref>, i: int): Ref {
    if 0 <= i < |s| then s[i] else NULL
  }

  ghost predicate OlderParents(up: Parents) {
    forall x {:trigger up[x]} :: x in up ==> x != NULL && up[x] < x && (up[x] != NULL ==> up[x] in up)
  }

  /** `x` is `o` or one of its descendants. */
  ghost predicate Under(up: Parents, x: Ref, o: Ref)
    requires OlderParents(up)
    decreases x
  {
    x == o || (x in up && up[x] != NULL && Under(up, up[x], o))
  }

  // ---------------------------------------------------------------- the child lists

  /** The child list of `p` is `list`: linked both ways, newest child first. */
  ghost predicate ChildList(objs: Objects, p: Ref, list: seq<Ref>)
    requires p in objs
  {
    && objs[p].childHead == At(list, 0)
    && (forall i {:trigger objs[list[i]]} {:trigger list[i] in objs} :: 0 <= i < |list| ==>
          && list[i] in objs && list[i] != NULL && objs[list[i]].parentList == p
          && objs[list[i]].next == At(list, i + 1) && objs[list[i]].prev == At(list, i - 1))
    && Descending(list)
  }

  ghost predicate Descending(list: seq<Ref>) {
    forall i, j :: 0 <= i < j < |list| ==> list[i] > list[j]
  }

  lemma DescendingPair(list: seq<Ref>, i: nat, j: nat)
    requires Descending(list) && i < j < |list|
    ensures list[i] > list[j]
  {
  }

  /** Parents outlive their children; only objects whose destruction has begun are dead. */
  ghost predicate LiveInv(objs: Objects, up: Parents, dying: set<Ref>) {
    && OlderParents(up)
    && (forall x {:trigger x in objs} :: x in objs ==>
          x in up && (up[x] != NULL ==> up[x] in objs) && (objs[x].dead ==> x in dying))
  }

  ghost predicate ListsInv(objs: Objects, kids: map<Ref, seq<Ref>>) {
    && kids.Keys == objs.Keys
    && (forall p {:trigger kids[p]} :: p in objs ==> ChildList(objs, p, kids[p]))
  }

  /** Every allocated object stands in its parent's list, unless its own destruction has begun. */
  ghost predicate ListedInv(objs: Objects, up: Parents, kids: map<Ref, seq<Ref>>, dying: set<Ref>) {
    forall x {:trigger objs[x].parentList} :: x in objs && x in up ==>
      if objs[x].parentList == NULL then up[x] == NULL || x in dying
      else objs[x].parentList == up[x] && up[x] in kids && x in kids[up[x]]
  }

  ghost predicate TreeInv(objs: Objects, up: Parents, kids: map<Ref, seq<Ref>>, dying: set<Ref>) {
    LiveInv(objs, up, dying) && ListsInv(objs, kids) && ListedInv(objs, up, kids, dying)
  }

  // ---------------------------------------------------------------- the event queue

  ghost predicate Queued(acts: Actions, queue: seq<Ref>) {
    && (forall i {:trigger queue[i]} :: 0 <= i < |queue| ==> queue[i] != NULL && queue[i] in acts)
    && (forall i, j :: 0 <= i < j < |queue| ==> queue[i] != queue[j])
  }

  /** The first action for `o` from position `i` of the queue on. */
  ghost function NextFor(acts: Actions, queue: seq<Ref>, o: Ref, i: nat): Ref
    requires Queued(acts, queue)
    decreases |queue| - i
  {
    if i >= |queue| then NULL
    else if acts[queue[i]].target == o then queue[i]
    else NextFor(acts, queue, o, i + 1)
  }

  /** The global LIFO, threaded by `next`. */
  ghost predicate QueueLinked(acts: Actions, queue: seq<Ref>, head: Ref) {
    && Queued(acts, queue)
    && head == At(queue, 0)
    && (forall i {:trigger acts[queue[i]].next} :: 0 <= i < |queue| ==> acts[queue[i]].next == At(queue, i + 1))
  }

  /** The action list of every allocated object is the in-order subsequence of the global LIFO that
      is queued for it, and nothing is queued for an object that is gone. */
  ghost predicate ThreadInv(objs: Objects, acts: Actions, queue: seq<Ref>)
    requires Queued(acts, queue)
  {
    && (forall i {:trigger acts[queue[i]].target} :: 0 <= i < |queue| && acts[queue[i]].target != NULL ==>
          && acts[queue[i]].target in objs
          && acts[queue[i]].objNext == NextFor(acts, queue, acts[queue[i]].target, i + 1))
    && (forall o {:trigger objs[o].actsHead} :: o in objs ==> objs[o].actsHead == NextFor(acts, queue, o, 0))
  }

  // ---------------------------------------------------------------- lemmas about descent

  lemma {:induction false} UnderIsYounger(up: Parents, x: Ref, o: Ref)
    requires OlderParents(up) && Under(up, x, o)
    ensures x >= o
    decreases x
  {
    if x != o { UnderIsYounger(up, up[x], o); }
  }

  lemma {:induction false} UnderTransitive(up: Parents, x: Ref, y: Ref, o: Ref)
    requires OlderParents(up) && Under(up, x, y) && Under(up, y, o)
    ensures Under(up, x, o)
    decreases x
  {
    if x != y { UnderTransitive(up, up[x], y, o); }
  }

  /** Descent does not change when objects are added. */
  lemma {:induction false} UnderGrows(up: Parents, up': Parents, x: Ref, o: Ref)
    requires OlderParents(up) && OlderParents(up') && x in up
    requires forall y :: y in up ==> y in up' && up'[y] == up[y]
    ensures Under(up, x, o) <==> Under(up', x, o)
    decreases x
  {
    if x != o && up[x] != NULL { UnderGrows(up, up', up[x], o); }
  }

  /** All ancestors of an allocated object are allocated. */
  lemma {:induction false} AncestorsLive(objs: Objects, up: Parents, x: Ref, o: Ref)
    requires OlderParents(up) && x in objs && Under(up, x, o)
    requires forall y {:trigger y in objs} :: y in objs ==> y in up && (up[y] != NULL ==> up[y] in objs)
    ensures o in objs
    decreases x
  {
    if x != o { AncestorsLive(objs, up, up[x], o); }
  }

  /** Once the child list of `o` is used up, nothing below `o` is allocated. */
  lemma {:induction false} NothingBelow(objs: Objects, up: Parents, kids: map<Ref, seq<Ref>>, dying: set<Ref>, o: Ref, x: Ref)
    requires TreeInv(objs, up, kids, dying) && o in objs && kids[o] == []
    requires forall d :: d in dying ==> d <= o
    requires x in objs && Under(up, x, o)
    ensures x == o
    decreases x
  {
    if x != o {
      UnderIsYounger(up, up[x], o);
      if up[x] != o { NothingBelow(objs, up, kids, dying, o, up[x]); }
    }
  }

  // ---------------------------------------------------------------- lemmas about action lists

  /** Where the first action for `o` stands. */
  lemma {:induction false} NextForIndex(acts: Actions, queue: seq<Ref>, o: Ref, i: nat) returns (j: nat)
    requires Queued(acts, queue) && i <= |queue|
    ensures i <= j <= |queue| && NextFor(acts, queue, o, i) == At(queue, j)
    ensures j < |queue| ==> acts[queue[j]].target == o
    ensures forall k :: i <= k < j ==> acts[queue[k]].target != o
    decreases |queue| - i
  {
    if i == |queue| || acts[queue[i]].target == o {
      j := i;
    } else {
      j := NextForIndex(acts, queue, o, i + 1);
    }
  }

  /** The search sees only whether each object is `o`. */
  lemma {:induction false} NextForSame(acts: Actions, acts': Actions, queue: seq<Ref>, o: Ref, i: nat)
    requires Queued(acts, queue) && Queued(acts', queue)
    requires forall k {:trigger queue[k]} :: i <= k < |queue| ==> (acts[queue[k]].target == o <==> acts'[queue[k]].target == o)
    ensures NextFor(acts, queue, o, i) == NextFor(acts', queue, o, i)
    decreases |queue| - i
  {
    if i < |queue| { NextForSame(acts, acts', queue, o, i + 1); }
  }

  lemma {:induction false} NextForNone(acts: Actions, queue: seq<Ref>, o: Ref, i: nat)
    requires Queued(acts, queue)
    requires forall k {:trigger queue[k]} :: i <= k < |queue| ==> acts[queue[k]].target != o
    ensures NextFor(acts, queue, o, i) == NULL
    decreases |queue| - i
  {
    if i < |queue| { NextForNone(acts, queue, o, i + 1); }
  }

  /** Positions shift by one when an action is pushed in front or popped. */
  lemma {:induction false} NextForShift(acts: Actions, acts': Actions, queue: seq<Ref>, queue': seq<Ref>, o: Ref, i: nat)
    requires Queued(acts, queue) && Queued(acts', queue') && |queue'| == |queue| + 1
    requires forall k {:trigger queue[k]} :: 0 <= k < |queue| ==> queue'[k + 1] == queue[k]
    requires forall k {:trigger queue[k]} :: 0 <= k < |queue| ==> acts'[queue[k]].target == acts[queue[k]].target
    ensures NextFor(acts', queue', o, i + 1) == NextFor(acts, queue, o, i)
    decreases |queue| - i
  {
    if i < |queue| {
      assert queue'[i + 1] == queue[i];
      NextForShift(acts, acts', queue, queue', o, i + 1);
    }
  }

  // ---------------------------------------------------------------- pointer updates keep the tree

  /** The fields of the tree, without the head of the action list. */
  ghost predicate SameLinks(a: Object, b: Object) {
    a.(actsHead := NULL) == b.(actsHead := NULL)
  }

  lemma LinksOnly(objs: Objects, objs': Objects, up: Parents, kids: map<Ref, seq<Ref>>, dying: set<Ref>)
    requires TreeInv(objs, up, kids, dying) && objs'.Keys == objs.Keys
    requires forall x {:trigger objs'[x]} :: x in objs ==> SameLinks(objs[x], objs'[x])
    ensures TreeInv(objs', up, kids, dying)
  {
    forall p | p in objs ensures ChildList(objs', p, kids[p]) {
      assert ChildList(objs, p, kids[p]);
    }
  }

  lemma HeadsOnly(objs: Objects, objs': Objects, acts: Actions, queue: seq<Ref>)
    requires Queued(acts, queue) && ThreadInv(objs, acts, queue) && objs'.Keys == objs.Keys
    requires forall x {:trigger objs'[x]} :: x in objs ==> objs'[x].actsHead == objs[x].actsHead
    ensures ThreadInv(objs', acts, queue)
  {
  }

  /** `o` is taken out of its parent's list, and marked as out of any list. */
  function Bypassed(objs: Objects, o: Ref): Objects
    requires o in objs && objs[o].parentList in objs && o != objs[o].parentList
    requires objs[o].prev != NULL ==> objs[o].prev in objs
    requires objs[o].next != NULL ==> objs[o].next in objs
  {
    var p, prev, next := objs[o].parentList, objs[o].prev, objs[o].next;
    var o1 := if prev != NULL then objs[prev := objs[prev].(next := next)] else objs[p := objs[p].(childHead := next)];
    var o2 := if next != NULL then o1[next := o1[next].(prev := prev)] else o1;
    o2[o := o2[o].(parentList := NULL)]
  }

  function Cut(list: seq<Ref>, k: nat): (t: seq<Ref>)
    requires k < |list|
    ensures |t| == |list| - 1
    ensures forall i {:trigger t[i]} :: 0 <= i < |t| ==> t[i] == if i < k then list[i] else list[i + 1]
  {
    list[..k] + list[k + 1..]
  }

  /** A member of a list after a cut, by its old position. */
  lemma CutAt(list: seq<Ref>, k: nat, i: int)
    requires k < |list|
    ensures At(Cut(list, k), i) == At(list, if i < k then i else i + 1)
  {
  }

  lemma CutDescending(list: seq<Ref>, k: nat)
    requires k < |list| && Descending(list)
    ensures Descending(Cut(list, k))
  {
  }

  predicate SamePlace(a: Object, b: Object) {
    a.parentList == b.parentList && a.prev == b.prev && a.next == b.next
  }

  /** A list none of whose members moved. */
  lemma OtherList(objs: Objects, objs': Objects, q: Ref, list: seq<Ref>)
    requires q in objs && ChildList(objs, q, list)
    requires q in objs' && objs'[q].childHead == objs[q].childHead
    requires forall i {:trigger list[i]} :: 0 <= i < |list| ==> list[i] in objs' && SamePlace(objs'[list[i]], objs[list[i]])
    ensures ChildList(objs', q, list)
  {
  }

  /** The neighbours of a list member. */
  lemma Neighbours(objs: Objects, p: Ref, list: seq<Ref>, k: nat)
    requires p in objs && ChildList(objs, p, list) && k < |list|
    ensures var o := objs[list[k]];
      && o.parentList == p && o.prev == At(list, k - 1) && o.next == At(list, k + 1)
      && (o.prev != NULL ==> k > 0 && o.prev == list[k - 1] && o.prev in objs)
      && (o.next != NULL ==> k + 1 < |list| && o.next == list[k + 1] && o.next in objs)
      && (o.prev == NULL <==> k == 0) && (o.next == NULL <==> k + 1 == |list|)
  {
    if k > 0 { assert list[k - 1] in objs; }
    if k + 1 < |list| { assert list[k + 1] in objs; }
  }

  /** What becomes of member `j` when member `k` is taken out. */
  lemma OwnMember(objs: Objects, p: Ref, list: seq<Ref>, k: nat, j: nat)
    requires p in objs && ChildList(objs, p, list) && k < |list| && j < |list| && j != k
    requires p != list[k] && p != list[j]
    ensures var o := list[k];
      && objs[o].parentList == p
      && (objs[o].prev != NULL ==> objs[o].prev in objs) && (objs[o].next != NULL ==> objs[o].next in objs)
      && list[j] in Bypassed(objs, o) && list[j] != NULL
      && var m := Bypassed(objs, o)[list[j]];
      && m.parentList == p
      && m.next == (if j + 1 == k then At(list, k + 1) else At(list, j + 1))
      && m.prev == (if j == k + 1 then At(list, k - 1) else At(list, j - 1))
  {
    Neighbours(objs, p, list, k);
    Neighbours(objs, p, list, j);
    if j < k { DescendingPair(list, j, k); } else { DescendingPair(list, k, j); }
    assert j + 1 == k <==> objs[list[k]].prev == list[j];
    assert j == k + 1 <==> objs[list[k]].next == list[j];
  }

  /** Member `i` of the list once member `k` is gone. */
  lemma OwnAt(objs: Objects, p: Ref, list: seq<Ref>, k: nat, i: nat)
    requires p in objs && ChildList(objs, p, list) && k < |list| && i < |list| - 1
    requires p != list[k] && p != Cut(list, k)[i]
    ensures var o, t := list[k], Cut(list, k);
      && objs[o].parentList == p
      && (objs[o].prev != NULL ==> objs[o].prev in objs) && (objs[o].next != NULL ==> objs[o].next in objs)
      && t[i] in Bypassed(objs, o) && t[i] != NULL
      && var m := Bypassed(objs, o)[t[i]];
      && m.parentList == p && m.next == At(t, i + 1) && m.prev == At(t, i - 1)
  {
    var j := if i < k then i else i + 1;
    CutAt(list, k, i - 1);
    CutAt(list, k, i + 1);
    OwnMember(objs, p, list, k, j);
    hide ChildList, Bypassed;
  }

  /** The list the object is taken from, without it. */
  lemma OwnList(objs: Objects, p: Ref, list: seq<Ref>, k: nat)
    requires p in objs && ChildList(objs, p, list) && k < |list|
    requires forall i {:trigger list[i]} :: 0 <= i < |list| ==> p != list[i]
    ensures var o := list[k];
      && objs[o].parentList == p
      && (objs[o].prev != NULL ==> objs[o].prev in objs) && (objs[o].next != NULL ==> objs[o].next in objs)
      && ChildList(Bypassed(objs, o), p, Cut(list, k))
  {
    Neighbours(objs, p, list, k);
    CutDescending(list, k);
    CutAt(list, k, 0);
    var t, objs' := Cut(list, k), Bypassed(objs, list[k]);
    assert p in objs' && objs'[p].childHead == At(t, 0);
    forall i {:trigger t[i]} | 0 <= i < |t|
      ensures t[i] in objs' && t[i] != NULL && objs'[t[i]].parentList == p
      ensures objs'[t[i]].next == At(t, i + 1) && objs'[t[i]].prev == At(t, i - 1)
    {
      OwnAt(objs, p, list, k, i);
    }
    hide Bypassed, Cut, Descending;
  }

  /** The other lists do not notice: their members have another parent. */
  lemma OtherLists(objs: Objects, kids: map<Ref, seq<Ref>>, p: Ref, k: nat, q: Ref)
    requires p in objs && p in kids && ChildList(objs, p, kids[p]) && k < |kids[p]| && p != kids[p][k]
    requires q in objs && q in kids && ChildList(objs, q, kids[q]) && q != p
    ensures var o := kids[p][k];
      && objs[o].parentList == p
      && (objs[o].prev != NULL ==> objs[o].prev in objs) && (objs[o].next != NULL ==> objs[o].next in objs)
      && ChildList(Bypassed(objs, o), q, kids[q])
  {
    Neighbours(objs, p, kids[p], k);
    var o := kids[p][k];
    var objs' := Bypassed(objs, o);
    forall i {:trigger kids[q][i]} | 0 <= i < |kids[q]| ensures SamePlace(objs'[kids[q][i]], objs[kids[q][i]]) {
      var x := kids[q][i];
      assert objs[x].parentList == q;
      assert x != o && x != objs[o].prev && x != objs[o].next;
    }
    OtherList(objs, objs', q, kids[q]);
  }

  lemma CutMembers(list: seq<Ref>, k: nat, x: Ref)
    requires k < |list| && x in list && x != list[k]
    ensures x in Cut(list, k)
  {
    var i :| 0 <= i < |list| && list[i] == x;
    assert Cut(list, k)[if i < k then i else i - 1] == x;
  }

  lemma BypassedLists(objs: Objects, kids: map<Ref, seq<Ref>>, p: Ref, k: nat)
    requires ListsInv(objs, kids) && p in objs && k < |kids[p]|
    requires forall i {:trigger kids[p][i]} :: 0 <= i < |kids[p]| ==> p != kids[p][i]
    ensures var o := kids[p][k];
      && o in objs && objs[o].parentList == p
      && (objs[o].prev != NULL ==> objs[o].prev in objs) && (objs[o].next != NULL ==> objs[o].next in objs)
      && ListsInv(Bypassed(objs, o), kids[p := Cut(kids[p], k)])
  {
    assert ChildList(objs, p, kids[p]);
    OwnList(objs, p, kids[p], k);
    var objs', kids' := Bypassed(objs, kids[p][k]), kids[p := Cut(kids[p], k)];
    forall q {:trigger kids'[q]} | q in objs' ensures ChildList(objs', q, kids'[q]) {
      if q != p { OtherLists(objs, kids, p, k, q); }
    }
  }

  lemma BypassedListed(objs: Objects, up: Parents, kids: map<Ref, seq<Ref>>, dying: set<Ref>, o: Ref, k: nat)
    requires ListedInv(objs, up, kids, dying) && o in objs && objs[o].parentList in objs && o != objs[o].parentList
    requires objs[o].parentList != NULL
    requires objs[o].prev != NULL ==> objs[o].prev in objs
    requires objs[o].next != NULL ==> objs[o].next in objs
    requires objs[o].parentList in kids && k < |kids[objs[o].parentList]| && kids[objs[o].parentList][k] == o
    ensures var p := objs[o].parentList;
      ListedInv(Bypassed(objs, o), up, kids[p := Cut(kids[p], k)], dying + {o})
  {
    var p := objs[o].parentList;
    var objs', kids' := Bypassed(objs, o), kids[p := Cut(kids[p], k)];
    forall x {:trigger objs'[x].parentList} | x in objs' && x in up
      ensures if objs'[x].parentList == NULL then up[x] == NULL || x in dying + {o}
              else objs'[x].parentList == up[x] && up[x] in kids' && x in kids'[up[x]]
    {
      if x != o {
        assert objs'[x].parentList == objs[x].parentList;
        if objs[x].parentList == p && x != kids[p][k] { CutMembers(kids[p], k, x); }
      }
    }
  }

  lemma ChildOf(objs: Objects, up: Parents, kids: map<Ref, seq<Ref>>, dying: set<Ref>, p: Ref, i: nat)
    requires TreeInv(objs, up, kids, dying) && p in objs && i < |kids[p]|
    ensures var c := kids[p][i];
      c in objs && c in up && up[c] == p && p < c && objs[c].parentList == p && p != NULL
  {
    assert ChildList(objs, p, kids[p]);
    assert kids[p][i] in objs && objs[kids[p][i]].parentList == p;
  }

  lemma BypassedLive(objs: Objects, up: Parents, dying: set<Ref>, o: Ref)
    requires LiveInv(objs, up, dying)
    requires o in objs && objs[o].parentList in objs && o != objs[o].parentList
    requires objs[o].prev != NULL ==> objs[o].prev in objs
    requires objs[o].next != NULL ==> objs[o].next in objs
    ensures LiveInv(Bypassed(objs, o), up, dying + {o})
  {
  }

  /** Taking an object out of its parent's list keeps the tree; the object counts as dying. */
  lemma BypassedInv(objs: Objects, up: Parents, kids: map<Ref, seq<Ref>>, dying: set<Ref>, p: Ref, k: nat)
    requires TreeInv(objs, up, kids, dying) && p in objs && k < |kids[p]|
    ensures var o := kids[p][k];
      && o in objs && o in up && up[o] == p && p < o && objs[o].parentList == p
      && (objs[o].prev != NULL ==> objs[o].prev in objs) && (objs[o].next != NULL ==> objs[o].next in objs)
      && TreeInv(Bypassed(objs, o), up, kids[p := Cut(kids[p], k)], dying + {o})
  {
    forall i {:trigger kids[p][i]} | 0 <= i < |kids[p]| ensures p != kids[p][i] {
      ChildOf(objs, up, kids, dying, p, i);
    }
    ChildOf(objs, up, kids, dying, p, k);
    BypassedLists(objs, kids, p, k);
    BypassedListed(objs, up, kids, dying, kids[p][k], k);
    BypassedLive(objs, up, dying, kids[p][k]);
    hide ListsInv, ListedInv, LiveInv;
  }

  /** A new object is the newest child of its parent. */
  function Inserted(objs: Objects, o: Ref, p: Ref): Objects
    requires p != NULL ==> p in objs && (objs[p].childHead != NULL ==> objs[p].childHead in objs)
  {
    if p == NULL then objs[o := Object(NULL, NULL, NULL, NULL, false, NULL)]
    else
      var head := objs[p].childHead;
      var o1 := objs[o := Object(p, NULL, head, NULL, false, NULL)];
      var o2 := if head != NULL then o1[head := o1[head].(prev := o)] else o1;
      o2[p := o2[p].(childHead := o)]
  }

  function KidsWith(kids: map<Ref, seq<Ref>>, o: Ref, p: Ref): map<Ref, seq<Ref>> {
    (if p in kids then kids[p := [o] + kids[p]] else kids)[o := []]
  }

  lemma InsertedLists(objs: Objects, kids: map<Ref, seq<Ref>>, o: Ref, p: Ref)
    requires ListsInv(objs, kids) && o !in objs && o != NULL && (p != NULL ==> p in objs) && NULL !in objs
    requires forall x {:trigger x in objs} :: x in objs ==> x < o
    ensures p != NULL ==> (objs[p].childHead != NULL ==> objs[p].childHead in objs)
    ensures ListsInv(Inserted(objs, o, p), KidsWith(kids, o, p))
  {
    if p != NULL {
      assert ChildList(objs, p, kids[p]);
      if kids[p] != [] { assert kids[p][0] in objs; }
    }
    var objs', kids' := Inserted(objs, o, p), KidsWith(kids, o, p);
    forall q {:trigger kids'[q]} | q in objs' ensures ChildList(objs', q, kids'[q]) {
      if q != o {
        assert ChildList(objs, q, kids[q]);
        if q == p { InsertedOwn(objs, o, p, kids[p]); } else { InsertedOther(objs, kids, o, p, q); }
      }
    }
  }

  lemma InsertedOwn(objs: Objects, o: Ref, p: Ref, list: seq<Ref>)
    requires o !in objs && o != NULL && p != NULL && p in objs && ChildList(objs, p, list)
    requires forall x {:trigger x in objs} :: x in objs ==> x < o
    requires objs[p].childHead != NULL ==> objs[p].childHead in objs
    ensures ChildList(Inserted(objs, o, p), p, [o] + list)
  {
    var objs', t := Inserted(objs, o, p), [o] + list;
    forall i {:trigger t[i]} | 0 <= i < |t|
      ensures t[i] in objs' && t[i] != NULL && objs'[t[i]].parentList == p
      ensures objs'[t[i]].next == At(t, i + 1) && objs'[t[i]].prev == At(t, i - 1)
    {
      if i > 0 {
        assert list[0] in objs && list[i - 1] in objs && objs[list[i - 1]].parentList == p;
        if i > 1 { DescendingPair(list, 0, i - 1); }
      }
    }
    InsertedDescending(objs, o, p, list);
  }

  lemma InsertedDescending(objs: Objects, o: Ref, p: Ref, list: seq<Ref>)
    requires p in objs && ChildList(objs, p, list)
    requires forall x {:trigger x in objs} :: x in objs ==> x < o
    ensures Descending([o] + list)
  {
    var t := [o] + list;
    forall i, j | 0 <= i < j < |t| ensures t[i] > t[j] {
      assert t[j] == list[j - 1] && list[j - 1] in objs;
      if i > 0 { DescendingPair(list, i - 1, j - 1); }
    }
  }

  lemma InsertedOther(objs: Objects, kids: map<Ref, seq<Ref>>, o: Ref, p: Ref, q: Ref)
    requires o !in objs && (p != NULL ==> p in objs && p in kids && ChildList(objs, p, kids[p]))
    requires q in objs && q in kids && ChildList(objs, q, kids[q]) && q != p
    requires p != NULL ==> (objs[p].childHead != NULL ==> objs[p].childHead in objs)
    ensures ChildList(Inserted(objs, o, p), q, kids[q])
  {
    var objs' := Inserted(objs, o, p);
    if p != NULL && kids[p] != [] { assert objs[kids[p][0]].parentList == p; }
    forall i {:trigger kids[q][i]} | 0 <= i < |kids[q]|
      ensures kids[q][i] in objs' && SamePlace(objs'[kids[q][i]], objs[kids[q][i]])
    {
      assert kids[q][i] in objs && objs[kids[q][i]].parentList == q;
      if p != NULL && kids[p] == [] { assert objs[p].childHead == NULL; }
    }
    OtherList(objs, objs', q, kids[q]);
  }

  lemma InsertedLive(objs: Objects, up: Parents, o: Ref, p: Ref)
    requires LiveInv(objs, up, {}) && o !in up && o !in objs && o != NULL && (p != NULL ==> p in objs && p < o)
    requires p != NULL ==> (objs[p].childHead != NULL ==> objs[p].childHead in objs)
    ensures LiveInv(Inserted(objs, o, p), up[o := p], {})
  {
  }

  lemma InsertedListed(objs: Objects, up: Parents, kids: map<Ref, seq<Ref>>, o: Ref, p: Ref)
    requires ListedInv(objs, up, kids, {}) && kids.Keys == objs.Keys && o !in up && o !in objs && o != NULL
    requires p != NULL ==> p in objs && (objs[p].childHead != NULL ==> objs[p].childHead in objs)
    requires forall x {:trigger x in objs} :: x in objs ==> x in up
    ensures ListedInv(Inserted(objs, o, p), up[o := p], KidsWith(kids, o, p), {})
  {
    var objs', up', kids' := Inserted(objs, o, p), up[o := p], KidsWith(kids, o, p);
    forall x {:trigger objs'[x].parentList} | x in objs' && x in up'
      ensures if objs'[x].parentList == NULL then up'[x] == NULL
              else objs'[x].parentList == up'[x] && up'[x] in kids' && x in kids'[up'[x]]
    {
      if x != o {
        assert objs'[x].parentList == objs[x].parentList;
        if objs[x].parentList == p && p != NULL { assert x in [o] + kids[p]; }
      } else if p != NULL {
        assert ([o] + kids[p])[0] == o;
      }
    }
  }

  lemma InsertedInv(objs: Objects, up: Parents, kids: map<Ref, seq<Ref>>, o: Ref, p: Ref)
    requires TreeInv(objs, up, kids, {}) && o !in up && o != NULL && (p != NULL ==> p in objs)
    requires forall x {:trigger x in objs} :: x in objs ==> x < o
    ensures p != NULL ==> (objs[p].childHead != NULL ==> objs[p].childHead in objs)
    ensures TreeInv(Inserted(objs, o, p), up[o := p], KidsWith(kids, o, p), {})
  {
    InsertedLists(objs, kids, o, p);
    InsertedLive(objs, up, o, p);
    InsertedListed(objs, up, kids, o, p);
    hide ListsInv, ListedInv, LiveInv;
  }

  /** An object without children, in no list, can be freed. */
  lemma FreedInv(objs: Objects, up: Parents, kids: map<Ref, seq<Ref>>, dying: set<Ref>, o: Ref)
    requires TreeInv(objs, up, kids, dying) && o in objs && kids[o] == [] && objs[o].parentList == NULL
    requires forall x {:trigger up[x]} :: x in objs ==> up[x] != o
    ensures TreeInv(objs - {o}, up, kids - {o}, dying - {o})
  {
    var objs', kids' := objs - {o}, kids - {o};
    forall q {:trigger kids'[q]} | q in objs' ensures ChildList(objs', q, kids'[q]) {
      assert ChildList(objs, q, kids[q]);
      if q != NULL {
        forall i {:trigger kids[q][i]} | 0 <= i < |kids[q]| ensures kids[q][i] in objs' {
          assert kids[q][i] in objs && objs[kids[q][i]].parentList == q;
        }
      }
    }
    forall x {:trigger objs'[x].parentList} | x in objs' && x in up && objs'[x].parentList != NULL
      ensures objs'[x].parentList == up[x] && up[x] in kids' && x in kids'[up[x]]
    {
      assert objs[x].parentList == up[x];
    }
  }

  /** A freed object with nothing queued for it does not touch the queue. */
  lemma FreedThread(objs: Objects, acts: Actions, queue: seq<Ref>, o: Ref)
    requires Queued(acts, queue) && ThreadInv(objs, acts, queue)
    requires forall k {:trigger acts[queue[k]].target} :: 0 <= k < |queue| ==> acts[queue[k]].target != o
    ensures ThreadInv(objs - {o}, acts, queue)
  {
  }

  // ---------------------------------------------------------------- queue updates keep the action lists

  /** Clearing the actions of `o` leaves every other action list as it was. */
  lemma ClearedThread(objs: Objects, acts: Actions, acts': Actions, queue: seq<Ref>, o: Ref)
    requires Queued(acts, queue) && ThreadInv(objs, acts, queue) && o in objs && o != NULL && Queued(acts', queue)
    requires forall k {:trigger acts'[queue[k]]} :: 0 <= k < |queue| ==>
      acts'[queue[k]] == if acts[queue[k]].target == o then acts[queue[k]].(target := NULL) else acts[queue[k]]
    requires NULL !in objs
    ensures ThreadInv(objs[o := objs[o].(actsHead := NULL)], acts', queue)
  {
    var objs' := objs[o := objs[o].(actsHead := NULL)];
    forall i {:trigger acts'[queue[i]].target} | 0 <= i < |queue| && acts'[queue[i]].target != NULL
      ensures acts'[queue[i]].target in objs'
      ensures acts'[queue[i]].objNext == NextFor(acts', queue, acts'[queue[i]].target, i + 1)
    {
      NextForSame(acts, acts', queue, acts[queue[i]].target, i + 1);
    }
    forall x {:trigger objs'[x].actsHead} | x in objs' ensures objs'[x].actsHead == NextFor(acts', queue, x, 0) {
      if x == o { NextForNone(acts', queue, o, 0); } else { NextForSame(acts, acts', queue, x, 0); }
    }
  }

  /** `act` pushed in front of the queue. */
  ghost predicate Pushed(acts: Actions, queue: seq<Ref>, a: Ref, act: Action, acts': Actions, queue': seq<Ref>) {
    a != NULL && a !in acts && acts' == acts[a := act] && queue' == [a] + queue
  }

  lemma PushedNext(acts: Actions, queue: seq<Ref>, a: Ref, act: Action, acts': Actions, queue': seq<Ref>, o: Ref, i: nat)
    requires Queued(acts, queue) && Pushed(acts, queue, a, act, acts', queue')
    ensures Queued(acts', queue') && NextFor(acts', queue', o, i + 1) == NextFor(acts, queue, o, i)
  {
    assert forall k {:trigger queue[k]} :: 0 <= k < |queue| ==> queue'[k + 1] == queue[k];
    assert forall k {:trigger queue'[k]} :: 1 <= k < |queue'| ==> queue'[k] == queue[k - 1];
    NextForShift(acts, acts', queue, queue', o, i);
  }

  /** `wdf_evtqueue_enqueue` puts the action in front of both lists. */
  lemma PushedThread(objs: Objects, acts: Actions, queue: seq<Ref>, a: Ref, act: Action, acts': Actions, queue': seq<Ref>)
    requires Queued(acts, queue) && ThreadInv(objs, acts, queue) && Pushed(acts, queue, a, act, acts', queue')
    requires act.target in objs && act.target != NULL && act.objNext == objs[act.target].actsHead
    ensures Queued(acts', queue')
    ensures ThreadInv(objs[act.target := objs[act.target].(actsHead := a)], acts', queue')
  {
    var o := act.target;
    var objs' := objs[o := objs[o].(actsHead := a)];
    PushedNext(acts, queue, a, act, acts', queue', o, 0);
    forall i {:trigger acts'[queue'[i]].target} | 0 <= i < |queue'| && acts'[queue'[i]].target != NULL
      ensures acts'[queue'[i]].target in objs'
      ensures acts'[queue'[i]].objNext == NextFor(acts', queue', acts'[queue'[i]].target, i + 1)
    {
      if i > 0 {
        assert queue'[i] == queue[i - 1] && acts'[queue'[i]] == acts[queue[i - 1]];
        PushedNext(acts, queue, a, act, acts', queue', acts[queue[i - 1]].target, i);
      }
    }
    forall x {:trigger objs'[x].actsHead} | x in objs' ensures objs'[x].actsHead == NextFor(acts', queue', x, 0) {
      PushedNext(acts, queue, a, act, acts', queue', x, 0);
    }
  }

  /** The flush takes the front action off both lists: the front of the queue is the front of its object's list. */
  lemma PoppedThread(objs: Objects, acts: Actions, queue: seq<Ref>, head: Ref)
    requires QueueLinked(acts, queue, head) && ThreadInv(objs, acts, queue) && queue != [] && NULL !in objs
    ensures head in acts && head == queue[0] && QueueLinked(acts, queue[1..], acts[head].next)
    ensures acts[head].target == NULL ==> ThreadInv(objs, acts, queue[1..])
    ensures acts[head].target != NULL ==>
              var o := acts[head].target;
              o in objs && ThreadInv(objs[o := objs[o].(actsHead := acts[head].objNext)], acts, queue[1..])
  {
    var rest, a := queue[1..], acts[queue[0]];
    assert a.target != NULL ==> a.target in objs && a.objNext == NextFor(acts, queue, a.target, 1);
    assert forall k :: 0 <= k < |rest| ==> rest[k] == queue[k + 1];
    assert Queued(acts, rest);
    var objs' := if a.target == NULL then objs else objs[a.target := objs[a.target].(actsHead := a.objNext)];
    forall i {:trigger acts[rest[i]].target} | 0 <= i < |rest| && acts[rest[i]].target != NULL
      ensures acts[rest[i]].target in objs'
      ensures acts[rest[i]].objNext == NextFor(acts, rest, acts[rest[i]].target, i + 1)
    {
      assert acts[rest[i]] == acts[queue[i + 1]];
      NextForShift(acts, acts, rest, queue, acts[rest[i]].target, i + 1);
    }
    forall x {:trigger objs'[x].actsHead} | x in objs' ensures objs'[x].actsHead == NextFor(acts, rest, x, 0) {
      NextForShift(acts, acts, rest, queue, x, 0);
      assert objs[x].actsHead == NextFor(acts, queue, x, 0);
    }
  }
}
