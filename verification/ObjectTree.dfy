/**
 The object tree and the event queue as one structure, changed in place by the methods of object.c
 and evtqueue.c. `free` removes a reference from `objs` or `acts`, so every field access below also
 proves that the object or action it touches has not been freed.
 */
module ObjectTree {
  import opened ObjectForest

  /** What has been destroyed: everything that is gone, each once, descendants before ancestors, and
      only objects that are below a deleted one. */
  ghost predicate LogInv(objs: Objects, up: Parents, destroyed: seq<Ref>, requested: set<Ref>)
    requires OlderParents(up)
  {
    && (forall i {:trigger destroyed[i]} :: 0 <= i < |destroyed| ==> destroyed[i] in up && destroyed[i] !in objs)
    && (forall i, j :: 0 <= i < j < |destroyed| ==> destroyed[i] != destroyed[j])
    && (forall i, j :: 0 <= i < j < |destroyed| ==> !Under(up, destroyed[j], destroyed[i]))
    && (forall x {:trigger x in up} :: x in up ==> x in objs || x in destroyed)
    && (forall i {:trigger destroyed[i]} :: 0 <= i < |destroyed| ==> Doomed(up, requested, destroyed[i]))
  }

  /** `x` is a deleted object or below one. */
  ghost predicate Doomed(up: Parents, requested: set<Ref>, x: Ref)
    requires OlderParents(up)
  {
    exists r :: r in requested && Under(up, x, r)
  }

  /** A destruction of `r` is queued. */
  ghost predicate Awaited(acts: Actions, queue: seq<Ref>, r: Ref)
    requires Queued(acts, queue)
  {
    exists k {:trigger queue[k]} :: 0 <= k < |queue| && acts[queue[k]].target == r && acts[queue[k]].fnc == DestroyFnc
  }

  /** Every deleted object that is still allocated has its destruction queued, and no other object has. */
  ghost predicate Pending(objs: Objects, acts: Actions, queue: seq<Ref>, requested: set<Ref>)
    requires Queued(acts, queue)
  {
    && (forall r :: r in requested && r in objs ==> Awaited(acts, queue, r))
    && (forall k {:trigger queue[k]} :: 0 <= k < |queue| && acts[queue[k]].fnc == DestroyFnc && acts[queue[k]].target != NULL ==>
          acts[queue[k]].target in requested)
  }

  /** The queued actions after objects were freed: those of freed objects lost their target. */
  ghost predicate Dropped(acts: Actions, acts': Actions, queue: seq<Ref>, live: set<Ref>)
    requires Queued(acts, queue)
  {
    && acts'.Keys == acts.Keys
    && forall k {:trigger acts'[queue[k]]} :: 0 <= k < |queue| ==>
         acts'[queue[k]] == if acts[queue[k]].target in live then acts[queue[k]] else acts[queue[k]].(target := NULL)
  }

  lemma DroppedTwice(acts: Actions, acts1: Actions, acts2: Actions, queue: seq<Ref>, live1: set<Ref>, live2: set<Ref>)
    requires Queued(acts, queue) && Dropped(acts, acts1, queue, live1)
    requires Queued(acts1, queue) && Dropped(acts1, acts2, queue, live2)
    requires live2 <= live1 && NULL !in live1
    ensures Dropped(acts, acts2, queue, live2)
  {
    forall k {:trigger acts2[queue[k]]} | 0 <= k < |queue|
      ensures acts2[queue[k]] == if acts[queue[k]].target in live2 then acts[queue[k]] else acts[queue[k]].(target := NULL)
    {
      assert acts1[queue[k]] == if acts[queue[k]].target in live1 then acts[queue[k]] else acts[queue[k]].(target := NULL);
    }
  }

  lemma DroppedPending(objs: Objects, objs': Objects, acts: Actions, acts': Actions, queue: seq<Ref>, requested: set<Ref>)
    requires Queued(acts, queue) && Queued(acts', queue) && Dropped(acts, acts', queue, objs'.Keys)
    requires Pending(objs, acts, queue, requested) && objs'.Keys <= objs.Keys
    ensures Pending(objs', acts', queue, requested)
  {
    forall r | r in requested && r in objs' ensures Awaited(acts', queue, r) {
      assert Awaited(acts, queue, r);
      var k :| 0 <= k < |queue| && acts[queue[k]].target == r && acts[queue[k]].fnc == DestroyFnc;
      assert acts'[queue[k]] == acts[queue[k]];
    }
  }

  function Untargeted(act: Action, o: Ref): Action {
    if act.target == o then act.(target := NULL) else act
  }

  /** The first `n` queued actions have dropped `o`. */
  ghost predicate Cleared(acts: Actions, acts': Actions, queue: seq<Ref>, o: Ref, n: nat)
    requires Queued(acts, queue)
  {
    && acts'.Keys == acts.Keys
    && (forall k {:trigger acts'[queue[k]]} :: 0 <= k < |queue| ==>
          acts'[queue[k]] == if k < n then Untargeted(acts[queue[k]], o) else acts[queue[k]])
  }

  lemma SameKeysLog(objs: Objects, objs': Objects, up: Parents, destroyed: seq<Ref>, requested: set<Ref>)
    requires OlderParents(up) && LogInv(objs, up, destroyed, requested) && objs'.Keys == objs.Keys
    ensures LogInv(objs', up, destroyed, requested)
  {
  }

  /** The list of `o` lost its head `c`: only children of `o` and `o` itself changed. */
  ghost predicate AfterPop(objs: Objects, objs': Objects, up: Parents, o: Ref, c: Ref) {
    && objs'.Keys == objs.Keys && o in objs && c in objs && c in up && up[c] == o && o < c
    && objs'[c].parentList == NULL
    && objs'[o] == objs[o].(childHead := objs'[o].childHead)
    && (forall x {:trigger objs'[x]} :: x in objs && x != o && x in up && up[x] != o ==> objs'[x] == objs[x])
  }

  /** The head of the child list of `o` leaves it, in the order `wdf_destroy_obj_list` writes the fields. */
  function Popped(objs: Objects, o: Ref): Objects
    requires o in objs && objs[o].childHead in objs
    requires objs[objs[o].childHead].next != NULL ==> objs[objs[o].childHead].next in objs
  {
    var c := objs[o].childHead;
    var next := objs[c].next;
    var o1 := objs[o := objs[o].(childHead := next)];
    var o2 := if next != NULL then o1[next := o1[next].(prev := NULL)] else o1;
    o2[c := o2[c].(parentList := NULL)]
  }

  lemma PoppedIsBypassed(objs: Objects, o: Ref)
    requires o in objs && objs[o].childHead in objs && objs[o].childHead != o
    requires objs[objs[o].childHead].next != NULL ==> objs[objs[o].childHead].next in objs
    requires objs[objs[o].childHead].parentList == o && objs[objs[o].childHead].prev == NULL
    ensures Popped(objs, o) == Bypassed(objs, objs[o].childHead)
  {
  }

  lemma PoppedFields(objs: Objects, up: Parents, o: Ref, c: Ref)
    requires o in objs && objs[o].childHead == c && c in objs && c in up && up[c] == o && o < c
    requires objs[c].next != NULL ==> objs[c].next in objs && objs[c].next != o && objs[c].next in up && up[objs[c].next] == o
    ensures AfterPop(objs, Popped(objs, o), up, o, c)
    ensures forall x {:trigger Popped(objs, o)[x]} :: x in objs ==> Popped(objs, o)[x].actsHead == objs[x].actsHead
  {
  }

  /** Who the head of the list and its successor are. */
  lemma HeadOf(objs: Objects, up: Parents, kids: map<Ref, seq<Ref>>, dying: set<Ref>, o: Ref)
    requires TreeInv(objs, up, kids, dying) && o in objs && objs[o].childHead != NULL
    ensures kids.Keys == objs.Keys && kids[o] != [] && objs[o].childHead == kids[o][0]
    ensures var c := kids[o][0];
      && c in objs && c in up && up[c] == o && o < c && objs[c].parentList == o && objs[c].prev == NULL
      && (objs[c].next != NULL ==>
            objs[c].next in objs && objs[c].next != o && objs[c].next in up && up[objs[c].next] == o)
  {
    assert ChildList(objs, o, kids[o]);
    Neighbours(objs, o, kids[o], 0);
    ChildOf(objs, up, kids, dying, o, 0);
    if 1 < |kids[o]| { ChildOf(objs, up, kids, dying, o, 1); }
    hide TreeInv, ChildList;
  }

  /** Taking the head out keeps the tree. */
  lemma HeadTaken(objs: Objects, up: Parents, kids: map<Ref, seq<Ref>>, dying: set<Ref>, o: Ref)
    requires TreeInv(objs, up, kids, dying) && o in objs && objs[o].childHead != NULL
    ensures kids.Keys == objs.Keys && kids[o] != [] && objs[o].childHead == kids[o][0] && kids[o][0] in objs
    ensures objs[kids[o][0]].next != NULL ==> objs[kids[o][0]].next in objs
    ensures AfterPop(objs, Popped(objs, o), up, o, kids[o][0])
    ensures TreeInv(Popped(objs, o), up, kids[o := Cut(kids[o], 0)], dying + {kids[o][0]})
    ensures forall x {:trigger Popped(objs, o)[x]} :: x in objs ==> Popped(objs, o)[x].actsHead == objs[x].actsHead
  {
    hide TreeInv, AfterPop, Popped, Bypassed, Cut;
    HeadOf(objs, up, kids, dying, o);
    BypassedInv(objs, up, kids, dying, o, 0);
    PoppedIsBypassed(objs, o);
    PoppedFields(objs, up, o, kids[o][0]);
  }

  /** Nor does it touch the queue or the log. */
  lemma PoppedInv(objs: Objects, acts: Actions, queue: seq<Ref>, head: Ref, up: Parents, kids: map<Ref, seq<Ref>>,
                  dying: set<Ref>, destroyed: seq<Ref>, requested: set<Ref>, o: Ref)
    requires TreeInv(objs, up, kids, dying) && o in objs && objs[o].childHead != NULL && NULL !in objs
    requires QueueLinked(acts, queue, head) && ThreadInv(objs, acts, queue) && LogInv(objs, up, destroyed, requested)
    ensures kids.Keys == objs.Keys && kids[o] != [] && objs[o].childHead == kids[o][0] && kids[o][0] in objs
    ensures objs[kids[o][0]].next != NULL ==> objs[kids[o][0]].next in objs
    ensures AfterPop(objs, Popped(objs, o), up, o, kids[o][0])
    ensures TreeInv(Popped(objs, o), up, kids[o := Cut(kids[o], 0)], dying + {kids[o][0]})
    ensures ThreadInv(Popped(objs, o), acts, queue) && LogInv(Popped(objs, o), up, destroyed, requested)
    ensures NULL !in Popped(objs, o) && kids[o := Cut(kids[o], 0)].Keys == Popped(objs, o).Keys
    ensures Popped(objs, o)[kids[o][0]].parentList == NULL && o < kids[o][0] && kids[o][0] in up
  {
    HeadTaken(objs, up, kids, dying, o);
    var objs' := Popped(objs, o);
    assert objs'.Keys == objs.Keys && OlderParents(up);
    hide Popped, TreeInv, ThreadInv, Cut, LogInv, AfterPop;
    HeadsOnly(objs, objs', acts, queue);
    SameKeysLog(objs, objs', up, destroyed, requested);
  }

  /** `objs` as it counts for the tree once `o` left its parent's list; the field itself is stale then. */
  function Detached(objs: Objects, o: Ref): Objects
    requires o in objs
  {
    objs[o := objs[o].(parentList := NULL)]
  }

  /** `wdf_cleanup_obj` takes `o` out of its parent's list. */
  function Unlinked(objs: Objects, o: Ref): Objects
    requires o in objs && objs[o].parentList in objs && o != objs[o].parentList
    requires objs[o].prev != NULL ==> objs[o].prev in objs
    requires objs[o].next != NULL ==> objs[o].next in objs
  {
    var p, prev, next := objs[o].parentList, objs[o].prev, objs[o].next;
    var o1 := if prev != NULL then objs[prev := objs[prev].(next := next)] else objs[p := objs[p].(childHead := next)];
    if next != NULL then o1[next := o1[next].(prev := prev)] else o1
  }

  lemma UnlinkedFields(objs: Objects, o: Ref)
    requires o in objs && objs[o].parentList in objs && o != objs[o].parentList
    requires objs[o].prev != NULL ==> objs[o].prev in objs && objs[o].prev != o
    requires objs[o].next != NULL ==> objs[o].next in objs && objs[o].next != o
    ensures Detached(Unlinked(objs, o), o) == Bypassed(objs, o)
    ensures Unlinked(objs, o).Keys == objs.Keys && Unlinked(objs, o)[o] == objs[o]
    ensures forall x {:trigger Unlinked(objs, o)[x]} :: x in objs ==> Unlinked(objs, o)[x].actsHead == objs[x].actsHead
  {
  }

  /** A listed object can be taken out. */
  lemma UnlinkedTree(objs: Objects, up: Parents, kids: map<Ref, seq<Ref>>, dying: set<Ref>, o: Ref) returns (k: nat)
    requires TreeInv(objs, up, kids, dying) && o in objs && objs[o].parentList != NULL && o in dying
    ensures objs[o].parentList in objs && objs[o].parentList < o && kids.Keys == objs.Keys
    ensures objs[o].prev != NULL ==> objs[o].prev in objs && objs[o].prev != o
    ensures objs[o].next != NULL ==> objs[o].next in objs && objs[o].next != o
    ensures k < |kids[objs[o].parentList]| && kids[objs[o].parentList][k] == o
    ensures var p := objs[o].parentList;
      TreeInv(Bypassed(objs, o), up, kids[p := Cut(kids[p], k)], dying)
  {
    var p := objs[o].parentList;
    assert p == up[o] && p in kids && o in kids[p];
    k :| 0 <= k < |kids[p]| && kids[p][k] == o;
    assert ChildList(objs, p, kids[p]);
    Neighbours(objs, p, kids[p], k);
    if k > 0 { DescendingPair(kids[p], k - 1, k); }
    if k + 1 < |kids[p]| { DescendingPair(kids[p], k, k + 1); }
    BypassedInv(objs, up, kids, dying, p, k);
    assert dying + {o} == dying;
    hide TreeInv, ChildList, Bypassed, Cut;
  }

  lemma UnlinkedInv(objs: Objects, acts: Actions, queue: seq<Ref>, head: Ref, up: Parents, kids: map<Ref, seq<Ref>>,
                    dying: set<Ref>, destroyed: seq<Ref>, requested: set<Ref>, o: Ref) returns (k: nat)
    requires TreeInv(objs, up, kids, dying) && o in objs && objs[o].parentList != NULL && o in dying
    requires QueueLinked(acts, queue, head) && ThreadInv(objs, acts, queue) && LogInv(objs, up, destroyed, requested)
    ensures objs[o].parentList in objs && objs[o].parentList < o && kids.Keys == objs.Keys
    ensures objs[o].prev != NULL ==> objs[o].prev in objs && objs[o].prev != o
    ensures objs[o].next != NULL ==> objs[o].next in objs && objs[o].next != o
    ensures k < |kids[objs[o].parentList]|
    ensures var objs', p := Unlinked(objs, o), objs[o].parentList;
      && objs'.Keys == objs.Keys && objs'[o] == objs[o]
      && TreeInv(Detached(objs', o), up, kids[p := Cut(kids[p], k)], dying)
      && ThreadInv(objs', acts, queue) && LogInv(objs', up, destroyed, requested)
  {
    k := UnlinkedTree(objs, up, kids, dying, o);
    UnlinkedFields(objs, o);
    assert OlderParents(up) && Queued(acts, queue);
    var objs' := Unlinked(objs, o);
    hide TreeInv, ThreadInv, Cut, LogInv, QueueLinked, Bypassed, Detached, Unlinked;
    HeadsOnly(objs, objs', acts, queue);
    SameKeysLog(objs, objs', up, destroyed, requested);
  }

  /** Freeing `o` last of its subtree keeps the log. */
  lemma FreedLog(objs: Objects, up: Parents, destroyed: seq<Ref>, requested: set<Ref>, dying: set<Ref>, o: Ref)
    requires LiveInv(objs, up, dying) && LogInv(objs, up, destroyed, requested)
    requires o in objs && Doomed(up, requested, o)
    ensures LogInv(objs - {o}, up, destroyed + [o], requested)
  {
    var log := destroyed + [o];
    forall i, j | 0 <= i < j < |log| ensures log[i] != log[j] && !Under(up, log[j], log[i]) {
      assert destroyed[i] !in objs;
      if j == |destroyed| && Under(up, o, log[i]) { AncestorsLive(objs, up, o, log[i]); }
    }
    forall x {:trigger x in up} | x in up ensures x in objs - {o} || x in log {
      if x == o { assert log[|destroyed|] == o; }
    }
  }

  /** New objects change nothing about the log. */
  lemma GrownLog(objs: Objects, objs': Objects, up: Parents, destroyed: seq<Ref>, requested: set<Ref>, o: Ref, p: Ref)
    requires OlderParents(up) && OlderParents(up[o := p]) && LogInv(objs, up, destroyed, requested)
    requires o !in up && objs'.Keys == objs.Keys + {o}
    ensures LogInv(objs', up[o := p], destroyed, requested)
  {
    var up' := up[o := p];
    forall i, j | 0 <= i < j < |destroyed| ensures !Under(up', destroyed[j], destroyed[i]) {
      UnderGrows(up, up', destroyed[j], destroyed[i]);
    }
    forall i {:trigger destroyed[i]} | 0 <= i < |destroyed| ensures Doomed(up', requested, destroyed[i]) {
      assert Doomed(up, requested, destroyed[i]);
      var r :| r in requested && Under(up, destroyed[i], r);
      UnderGrows(up, up', destroyed[i], r);
    }
  }

  lemma RequestedLog(objs: Objects, up: Parents, destroyed: seq<Ref>, requested: set<Ref>, o: Ref)
    requires OlderParents(up) && LogInv(objs, up, destroyed, requested)
    ensures LogInv(objs, up, destroyed, requested + {o})
  {
    forall i {:trigger destroyed[i]} | 0 <= i < |destroyed| ensures Doomed(up, requested + {o}, destroyed[i]) {
      assert Doomed(up, requested, destroyed[i]);
      var r :| r in requested && Under(up, destroyed[i], r);
      assert r in requested + {o};
    }
  }

  /** With nothing queued, the destroyed objects are exactly the deleted ones and their descendants. */
  lemma AllDestroyed(objs: Objects, up: Parents, acts: Actions, destroyed: seq<Ref>, requested: set<Ref>, dying: set<Ref>)
    requires LiveInv(objs, up, dying) && LogInv(objs, up, destroyed, requested)
    requires Queued(acts, []) && Pending(objs, acts, [], requested)
    ensures forall x :: x in up ==> (x in destroyed <==> Doomed(up, requested, x))
  {
    forall x | x in up ensures x in destroyed <==> Doomed(up, requested, x) {
      if x !in destroyed && Doomed(up, requested, x) {
        var r :| r in requested && Under(up, x, r);
        assert !Awaited(acts, [], r);
        AncestorsLive(objs, up, x, r);
      }
    }
  }

  /** What is left of `objs` when `o` and everything below it is gone. */
  ghost predicate Pruned(keys: set<Ref>, up: Parents, o: Ref, left: set<Ref>)
    requires OlderParents(up)
  {
    forall x :: x in left <==> x in keys && !Under(up, x, o)
  }

  /** What running `act` leaves of `keys`: a destruction takes its object with everything below it, a
      notification or an action whose object is gone takes nothing. */
  ghost predicate Ran(act: Action, keys: set<Ref>, up: Parents, left: set<Ref>)
    requires OlderParents(up)
  {
    if act.fnc == DestroyFnc && act.target != NULL then Pruned(keys, up, act.target, left) else left == keys
  }

  /** What is left when everything below `o`, but not `o`, is gone. */
  ghost predicate Emptied(keys: set<Ref>, up: Parents, o: Ref, left: set<Ref>)
    requires OlderParents(up)
  {
    forall x :: x in left <==> x in keys && (x == o || !Under(up, x, o))
  }


  /** Nothing outside the subtree of `o` changed. */
  ghost predicate Kept(objs: Objects, objs': Objects, kids: map<Ref, seq<Ref>>, kids': map<Ref, seq<Ref>>, up: Parents, o: Ref)
    requires OlderParents(up)
  {
    forall x {:trigger objs'[x]} {:trigger kids'[x]} :: x in objs' && x in kids' && !Under(up, x, o) ==>
      x in objs && x in kids && objs'[x] == objs[x] && kids'[x] == kids[x]
  }

  /** The loop of `wdf_destroy_obj_list` on the way from `objs` to `objs'`. */
  ghost predicate Emptying(objs: Objects, objs': Objects, kids: map<Ref, seq<Ref>>, kids': map<Ref, seq<Ref>>,
                           acts: Actions, acts': Actions, queue: seq<Ref>, up: Parents, o: Ref)
    requires OlderParents(up) && Queued(acts, queue)
  {
    && o in objs && o in objs' && objs'[o] == objs[o].(dead := true, childHead := objs'[o].childHead)
    && (forall x {:trigger x in objs'} :: x in objs' ==> x in objs)
    && (forall x {:trigger x in objs} :: x in objs && x !in objs' ==> x != o && Under(up, x, o))
    && Kept(objs, objs', kids, kids', up, o)
    && Dropped(acts, acts', queue, objs'.Keys)
  }

  /** Nothing was dropped from the queue when nothing was freed. */
  lemma DroppedNone(objs: Objects, acts: Actions, queue: seq<Ref>)
    requires Queued(acts, queue) && ThreadInv(objs, acts, queue)
    ensures Dropped(acts, acts, queue, objs.Keys)
  {
    forall k {:trigger acts[queue[k]]} | 0 <= k < |queue|
      ensures acts[queue[k]] == if acts[queue[k]].target in objs then acts[queue[k]] else acts[queue[k]].(target := NULL)
    {
      assert acts[queue[k]].target == NULL || acts[queue[k]].target in objs;
    }
  }

  /** One round: the head `c` leaves the list and its subtree goes. */
  lemma EmptyingStep(objs: Objects, objs1: Objects, objs2: Objects, objs3: Objects, kids: map<Ref, seq<Ref>>,
                     kids1: map<Ref, seq<Ref>>, kids2: map<Ref, seq<Ref>>, kids3: map<Ref, seq<Ref>>,
                     acts: Actions, acts1: Actions, acts3: Actions, queue: seq<Ref>, up: Parents, o: Ref, c: Ref)
    requires OlderParents(up) && Queued(acts, queue) && Queued(acts1, queue) && NULL !in objs1
    requires Emptying(objs, objs1, kids, kids1, acts, acts1, queue, up, o) && AfterPop(objs1, objs2, up, o, c)
    requires o in kids1 && o in kids2 && kids2 == kids1[o := kids2[o]] && kids3.Keys == objs3.Keys
    requires Pruned(objs2.Keys, up, c, objs3.Keys) && Kept(objs2, objs3, kids2, kids3, up, c)
    requires Dropped(acts1, acts3, queue, objs3.Keys)
    requires forall x {:trigger x in objs1} :: x in objs1 ==> x in up
    ensures Emptying(objs, objs3, kids, kids3, acts, acts3, queue, up, o)
    ensures o in kids3 && kids3[o] == kids2[o]
  {
    assert !Under(up, o, c) by { if Under(up, o, c) { UnderIsYounger(up, o, c); } }
    assert Under(up, c, o);
    forall x | Under(up, x, c) ensures Under(up, x, o) && x != o { UnderTransitive(up, x, c, o); }
    assert o in objs3;
    DroppedTwice(acts, acts1, acts3, queue, objs1.Keys, objs3.Keys);
    hide Dropped;
    assert Kept(objs, objs3, kids, kids3, up, o) by {
      forall x {:trigger objs3[x]} {:trigger kids3[x]} | x in objs3 && x in kids3 && !Under(up, x, o)
        ensures x in objs && x in kids && objs3[x] == objs[x] && kids3[x] == kids[x]
      {
        assert x in objs2 && !Under(up, x, c) && x in kids2;
        assert x != o && (x in up ==> up[x] != o);
      }
    }
  }

  /** Marking the list dead, before its objects go. */
  lemma MarkedDead(objs: Objects, acts: Actions, queue: seq<Ref>, head: Ref, up: Parents, kids: map<Ref, seq<Ref>>,
                   dying: set<Ref>, destroyed: seq<Ref>, requested: set<Ref>, o: Ref)
    requires TreeInv(objs, up, kids, dying) && o in objs && o in dying && NULL !in objs
    requires QueueLinked(acts, queue, head) && ThreadInv(objs, acts, queue) && LogInv(objs, up, destroyed, requested)
    ensures var objs' := objs[o := objs[o].(dead := true)];
      && TreeInv(objs', up, kids, dying) && ThreadInv(objs', acts, queue) && LogInv(objs', up, destroyed, requested)
      && Emptying(objs, objs', kids, kids, acts, acts, queue, up, o)
  {
    var objs' := objs[o := objs[o].(dead := true)];
    DroppedNone(objs, acts, queue);
    assert forall x {:trigger x in objs} :: x in objs ==> x in objs' && objs'[x].(dead := false) == objs[x].(dead := false);
    forall p {:trigger kids[p]} | p in objs' ensures ChildList(objs', p, kids[p]) {
      assert ChildList(objs, p, kids[p]);
    }
    assert Under(up, o, o);
    HeadsOnly(objs, objs', acts, queue);
    SameKeysLog(objs, objs', up, destroyed, requested);
  }

  /** A used-up child list means nothing is left below `o`. */
  lemma AllEmptied(objs: Objects, objs': Objects, kids: map<Ref, seq<Ref>>, kids': map<Ref, seq<Ref>>,
                   acts: Actions, acts': Actions, queue: seq<Ref>, up: Parents, dying: set<Ref>, o: Ref)
    requires OlderParents(up) && Queued(acts, queue) && Emptying(objs, objs', kids, kids', acts, acts', queue, up, o)
    requires TreeInv(objs', up, kids', dying) && objs'[o].childHead == NULL && NULL !in objs'
    requires forall d :: d in dying ==> d <= o
    ensures o in kids' && kids'[o] == [] && Emptied(objs.Keys, up, o, objs'.Keys)
    ensures objs'[o] == objs[o].(dead := true, childHead := NULL)
    ensures Kept(objs, objs', kids, kids', up, o) && Dropped(acts, acts', queue, objs'.Keys)
  {
    assert ChildList(objs', o, kids'[o]);
    forall x | x in objs' && x != o ensures !Under(up, x, o) {
      if Under(up, x, o) { NothingBelow(objs', up, kids', dying, o, x); }
    }
  }

  lemma DyingGrows(objs: Objects, up: Parents, kids: map<Ref, seq<Ref>>, dying: set<Ref>, o: Ref)
    requires TreeInv(objs, up, kids, dying)
    ensures TreeInv(objs, up, kids, dying + {o})
  {
  }

  /** A listed object is in the list of a living parent. */
  lemma ParentAlive(objs: Objects, up: Parents, kids: map<Ref, seq<Ref>>, o: Ref)
    requires TreeInv(objs, up, kids, {o}) && o in objs && objs[o].parentList != NULL
    ensures objs[o].parentList in objs && !objs[objs[o].parentList].dead
  {
  }

  /** Dropping the actions of `o` itself completes what freeing the rest of its subtree dropped. */
  lemma DroppedToo(acts: Actions, acts1: Actions, acts2: Actions, queue: seq<Ref>, live: set<Ref>, o: Ref)
    requires Queued(acts, queue) && Queued(acts1, queue) && Dropped(acts, acts1, queue, live)
    requires Cleared(acts1, acts2, queue, o, |queue|)
    ensures Dropped(acts, acts2, queue, live - {o})
  {
    forall k {:trigger acts2[queue[k]]} | 0 <= k < |queue|
      ensures acts2[queue[k]] == if acts[queue[k]].target in live - {o} then acts[queue[k]] else acts[queue[k]].(target := NULL)
    {
      assert acts1[queue[k]] == if acts[queue[k]].target in live then acts[queue[k]] else acts[queue[k]].(target := NULL);
    }
  }

  /** Emptying the action list touches no child list. */
  lemma HeadCleared(objs: Objects, up: Parents, kids: map<Ref, seq<Ref>>, dying: set<Ref>, o: Ref)
    requires o in objs && TreeInv(Detached(objs, o), up, kids, dying)
    ensures var objs' := objs[o := objs[o].(actsHead := NULL)];
      objs'.Keys == objs.Keys && TreeInv(Detached(objs', o), up, kids, dying)
  {
    var objs' := objs[o := objs[o].(actsHead := NULL)];
    assert objs'.Keys == objs.Keys;
    hide TreeInv;
    LinksOnly(Detached(objs, o), Detached(objs', o), up, kids, dying);
  }

  /** With its children and its actions gone `o` can be freed. */
  lemma FreedTree(objs: Objects, acts: Actions, queue: seq<Ref>, up: Parents, kids: map<Ref, seq<Ref>>, dying: set<Ref>,
                  before: set<Ref>, o: Ref)
    requires Queued(acts, queue) && ThreadInv(objs, acts, queue) && o in objs && objs[o].actsHead == NULL
    requires TreeInv(Detached(objs, o), up, kids, dying) && o in kids && kids[o] == []
    requires OlderParents(up) && Emptied(before, up, o, objs.Keys)
    ensures TreeInv(objs - {o}, up, kids - {o}, dying - {o}) && (kids - {o}).Keys == (objs - {o}).Keys
    ensures ThreadInv(objs - {o}, acts, queue) && Pruned(before, up, o, (objs - {o}).Keys)
  {
    assert Under(up, o, o);
    forall x {:trigger up[x]} | x in objs && x in up ensures up[x] != o {
      assert up[x] == o && o != NULL ==> Under(up, x, o);
    }
    FreedInv(Detached(objs, o), up, kids, dying, o);
    assert Detached(objs, o) - {o} == objs - {o};
    var j := NextForIndex(acts, queue, o, 0);
    FreedThread(objs, acts, queue, o);
    assert Pruned(before, up, o, (objs - {o}).Keys) by {
      forall x ensures x in (objs - {o}).Keys <==> x in before && !Under(up, x, o) { assert Under(up, o, o); }
    }
  }

  lemma FreedAll(objs: Objects, acts: Actions, queue: seq<Ref>, up: Parents, kids: map<Ref, seq<Ref>>, dying: set<Ref>,
                 destroyed: seq<Ref>, requested: set<Ref>, before: set<Ref>, o: Ref)
    requires Queued(acts, queue) && ThreadInv(objs, acts, queue) && o in objs && objs[o].actsHead == NULL
    requires TreeInv(Detached(objs, o), up, kids, dying) && o in kids && kids[o] == []
    requires OlderParents(up) && Emptied(before, up, o, objs.Keys)
    requires LogInv(objs, up, destroyed, requested) && Doomed(up, requested, o)
    ensures TreeInv(objs - {o}, up, kids - {o}, dying - {o}) && (kids - {o}).Keys == (objs - {o}).Keys
    ensures ThreadInv(objs - {o}, acts, queue) && Pruned(before, up, o, (objs - {o}).Keys)
    ensures LogInv(objs - {o}, up, destroyed + [o], requested)
  {
    FreedTree(objs, acts, queue, up, kids, dying, before, o);
    SameKeysLog(objs, Detached(objs, o), up, destroyed, requested);
    assert LiveInv(Detached(objs, o), up, dying);
    FreedLog(Detached(objs, o), up, destroyed, requested, dying, o);
    assert Detached(objs, o) - {o} == objs - {o};
  }

  lemma KeptFreed(objs: Objects, objs': Objects, kids: map<Ref, seq<Ref>>, kids': map<Ref, seq<Ref>>, up: Parents, o: Ref)
    requires OlderParents(up) && Kept(objs, objs', kids, kids', up, o)
    ensures Kept(objs, objs' - {o}, kids, kids' - {o}, up, o)
  {
    assert Under(up, o, o);
  }

  lemma KeptHead(objs: Objects, objs': Objects, kids: map<Ref, seq<Ref>>, kids': map<Ref, seq<Ref>>, up: Parents, o: Ref, obj: Object)
    requires OlderParents(up) && Kept(objs, objs', kids, kids', up, o)
    ensures Kept(objs, objs'[o := obj], kids, kids', up, o)
  {
    assert Under(up, o, o);
  }

  lemma AllCreated(objs: Objects, up: Parents, kids: map<Ref, seq<Ref>>, dying: set<Ref>)
    requires TreeInv(objs, up, kids, dying)
    ensures forall x {:trigger x in objs} :: x in objs ==> x in up
  {
  }

  /** A popped action leaves the destructions of all other objects queued. */
  lemma PoppedPending(objs: Objects, acts: Actions, queue: seq<Ref>, requested: set<Ref>, live: Objects)
    requires Queued(acts, queue) && queue != [] && Queued(acts, queue[1..]) && Pending(objs, acts, queue, requested)
    requires live.Keys <= objs.Keys
    requires acts[queue[0]].target in live ==> acts[queue[0]].fnc != DestroyFnc
    ensures Pending(live, acts, queue[1..], requested)
  {
    forall r | r in requested && r in live ensures Awaited(acts, queue[1..], r) {
      assert Awaited(acts, queue, r);
      var k :| 0 <= k < |queue| && acts[queue[k]].target == r && acts[queue[k]].fnc == DestroyFnc;
      assert queue[1..][k - 1] == queue[k];
    }
  }

  function Asked(requested: set<Ref>, act: Action): set<Ref> {
    if act.fnc == DestroyFnc then requested + {act.target} else requested
  }

  /** A new action takes no destruction out of the queue. */
  lemma PushedPending(objs: Objects, acts: Actions, queue: seq<Ref>, requested: set<Ref>, a: Ref, act: Action, acts': Actions, queue': seq<Ref>)
    requires Queued(acts, queue) && Queued(acts', queue') && Pending(objs, acts, queue, requested)
    requires Pushed(acts, queue, a, act, acts', queue')
    ensures Pending(objs, acts', queue', Asked(requested, act))
  {
    assert queue'[0] == a;
    forall r | r in Asked(requested, act) && r in objs ensures Awaited(acts', queue', r) {
      if act.fnc != DestroyFnc || r != act.target {
        assert Awaited(acts, queue, r);
        var k :| 0 <= k < |queue| && acts[queue[k]].target == r && acts[queue[k]].fnc == DestroyFnc;
        assert queue'[k + 1] == queue[k];
      }
    }
  }

  lemma PushedQueue(objs: Objects, acts: Actions, queue: seq<Ref>, head: Ref, requested: set<Ref>, a: Ref, act: Action)
    requires QueueLinked(acts, queue, head) && ThreadInv(objs, acts, queue) && Pending(objs, acts, queue, requested)
    requires a != NULL && a !in acts && act.target in objs && act.target != NULL
    requires act.next == head && act.objNext == objs[act.target].actsHead
    ensures var objs', acts', queue' := objs[act.target := objs[act.target].(actsHead := a)], acts[a := act], [a] + queue;
      && Queued(acts', queue') && QueueLinked(acts', queue', a) && ThreadInv(objs', acts', queue')
      && Pending(objs', acts', queue', Asked(requested, act))
  {
    var objs', acts', queue' := objs[act.target := objs[act.target].(actsHead := a)], acts[a := act], [a] + queue;
    assert Pushed(acts, queue, a, act, acts', queue');
    PushedThread(objs, acts, queue, a, act, acts', queue');
    assert QueueLinked(acts', queue', a);
    hide ThreadInv, QueueLinked;
    PushedPending(objs, acts, queue, requested, a, act, acts', queue');
  }

  lemma PushedTree(objs: Objects, up: Parents, kids: map<Ref, seq<Ref>>, dying: set<Ref>, destroyed: seq<Ref>,
                   requested: set<Ref>, a: Ref, act: Action)
    requires TreeInv(objs, up, kids, dying) && act.target in objs && LogInv(objs, up, destroyed, requested)
    ensures var objs' := objs[act.target := objs[act.target].(actsHead := a)];
      && objs'.Keys == objs.Keys && (NULL !in objs ==> NULL !in objs')
      && TreeInv(objs', up, kids, dying) && LogInv(objs', up, destroyed, Asked(requested, act))
  {
    var objs' := objs[act.target := objs[act.target].(actsHead := a)];
    assert objs'.Keys == objs.Keys && OlderParents(up);
    hide TreeInv, LogInv;
    LinksOnly(objs, objs', up, kids, dying);
    SameKeysLog(objs, objs', up, destroyed, requested);
    RequestedLog(objs', up, destroyed, requested, act.target);
  }

  /** Freeing an action that is not queued. */
  lemma FreedAction(objs: Objects, acts: Actions, queue: seq<Ref>, head: Ref, requested: set<Ref>, a: Ref)
    requires QueueLinked(acts, queue, head) && ThreadInv(objs, acts, queue) && Pending(objs, acts, queue, requested)
    requires forall k {:trigger queue[k]} :: 0 <= k < |queue| ==> queue[k] != a
    ensures QueueLinked(acts - {a}, queue, head) && ThreadInv(objs, acts - {a}, queue)
    ensures Pending(objs, acts - {a}, queue, requested)
  {
    var acts' := acts - {a};
    assert forall k {:trigger queue[k]} :: 0 <= k < |queue| ==> queue[k] in acts' && acts'[queue[k]] == acts[queue[k]];
    SameThread(objs, acts, acts', queue);
    SamePending(objs, acts, acts', queue, requested);
    hide ThreadInv, Pending;
  }

  lemma SameThread(objs: Objects, acts: Actions, acts': Actions, queue: seq<Ref>)
    requires Queued(acts, queue) && Queued(acts', queue) && ThreadInv(objs, acts, queue)
    requires forall k {:trigger queue[k]} :: 0 <= k < |queue| ==> acts'[queue[k]] == acts[queue[k]]
    ensures ThreadInv(objs, acts', queue)
  {
    forall i {:trigger acts'[queue[i]].target} | 0 <= i < |queue| && acts'[queue[i]].target != NULL
      ensures acts'[queue[i]].objNext == NextFor(acts', queue, acts'[queue[i]].target, i + 1)
    {
      NextForSame(acts, acts', queue, acts[queue[i]].target, i + 1);
    }
    forall o {:trigger objs[o].actsHead} | o in objs ensures objs[o].actsHead == NextFor(acts', queue, o, 0) {
      NextForSame(acts, acts', queue, o, 0);
    }
  }

  lemma SamePending(objs: Objects, acts: Actions, acts': Actions, queue: seq<Ref>, requested: set<Ref>)
    requires Queued(acts, queue) && Queued(acts', queue) && Pending(objs, acts, queue, requested)
    requires forall k {:trigger queue[k]} :: 0 <= k < |queue| ==> acts'[queue[k]] == acts[queue[k]]
    ensures Pending(objs, acts', queue, requested)
  {
    forall r | r in requested && r in objs ensures Awaited(acts', queue, r) {
      assert Awaited(acts, queue, r);
      var k :| 0 <= k < |queue| && acts[queue[k]].target == r && acts[queue[k]].fnc == DestroyFnc;
      assert acts'[queue[k]].target == r;
    }
  }

  /** The front action leaves the queue and the list of its object. */
  function Taken(objs: Objects, act: Action): Objects
    requires act.target != NULL ==> act.target in objs
  {
    if act.target == NULL then objs else objs[act.target := objs[act.target].(actsHead := act.objNext)]
  }

  lemma PoppedAll(objs: Objects, acts: Actions, queue: seq<Ref>, head: Ref, up: Parents, kids: map<Ref, seq<Ref>>,
                  dying: set<Ref>, destroyed: seq<Ref>, requested: set<Ref>)
    requires TreeInv(objs, up, kids, dying) && LogInv(objs, up, destroyed, requested) && NULL !in objs
    requires QueueLinked(acts, queue, head) && ThreadInv(objs, acts, queue) && queue != []
    requires Pending(objs, acts, queue, requested)
    ensures head in acts && head == queue[0] && Queued(acts, queue[1..]) && QueueLinked(acts, queue[1..], acts[head].next)
    ensures forall k {:trigger queue[1..][k]} :: 0 <= k < |queue[1..]| ==> queue[1..][k] != head
    ensures acts[head].target != NULL ==> acts[head].target in objs
    ensures var objs' := Taken(objs, acts[head]);
      && objs'.Keys == objs.Keys && ThreadInv(objs', acts, queue[1..])
      && TreeInv(objs', up, kids, dying) && LogInv(objs', up, destroyed, requested)
      && (acts[head].fnc == DestroyFnc && acts[head].target != NULL ==> Doomed(up, requested, acts[head].target))
  {
    PoppedThread(objs, acts, queue, head);
    var act := acts[head];
    var objs' := Taken(objs, act);
    assert objs'.Keys == objs.Keys && OlderParents(up);
    hide TreeInv, LogInv, ThreadInv;
    LinksOnly(objs, objs', up, kids, dying);
    SameKeysLog(objs, objs', up, destroyed, requested);
    if act.fnc == DestroyFnc && act.target != NULL { assert act.target in requested && Under(up, act.target, act.target); }
  }

  /** After the action ran, the other destructions are still queued. */
  lemma DispatchedPending(objs: Objects, objs': Objects, acts: Actions, acts': Actions, queue: seq<Ref>, requested: set<Ref>)
    requires Queued(acts, queue) && queue != [] && Queued(acts, queue[1..]) && Queued(acts', queue[1..])
    requires Pending(objs, acts, queue, requested) && objs'.Keys <= objs.Keys
    requires acts[queue[0]].target in objs' ==> acts[queue[0]].fnc != DestroyFnc
    requires Dropped(acts, acts', queue[1..], objs'.Keys)
    ensures Pending(objs', acts', queue[1..], requested)
  {
    PoppedPending(objs, acts, queue, requested, objs');
    hide Pending, Dropped;
    DroppedPending(objs', objs', acts, acts', queue[1..], requested);
  }

  /** A new object: no action is queued for it, and nothing else changes its place. */
  lemma InsertedThread(objs: Objects, acts: Actions, queue: seq<Ref>, o: Ref, p: Ref)
    requires Queued(acts, queue) && ThreadInv(objs, acts, queue) && o !in objs && o != NULL && p != o
    requires p != NULL ==> p in objs && (objs[p].childHead != NULL ==> objs[p].childHead in objs)
    ensures ThreadInv(Inserted(objs, o, p), acts, queue)
  {
    NextForNone(acts, queue, o, 0);
  }

  lemma InsertedPending(objs: Objects, objs': Objects, acts: Actions, queue: seq<Ref>, requested: set<Ref>, o: Ref)
    requires Queued(acts, queue) && Pending(objs, acts, queue, requested) && objs'.Keys == objs.Keys + {o}
    requires o !in requested
    ensures Pending(objs', acts, queue, requested)
  {
  }

  /** Deletion requests are for objects that were created. */
  ghost predicate KnownRequests(up: Parents, requested: set<Ref>) {
    forall r {:trigger r in requested} :: r in requested ==> r in up
  }

  lemma InsertedKeys(objs: Objects, up: Parents, kids: map<Ref, seq<Ref>>, o: Ref, p: Ref)
    requires TreeInv(objs, up, kids, {}) && NULL !in objs
    requires o != NULL && (p != NULL ==> p in objs) && (forall x {:trigger x in up} :: x in up ==> x < o)
    ensures o !in up && o !in objs && p != o && OlderParents(up) && OlderParents(up[o := p])
    ensures p != NULL ==> (objs[p].childHead != NULL ==> objs[p].childHead in objs) && !objs[p].dead
    ensures TreeInv(Inserted(objs, o, p), up[o := p], KidsWith(kids, o, p), {})
    ensures Inserted(objs, o, p).Keys == objs.Keys + {o} && KidsWith(kids, o, p).Keys == objs.Keys + {o}
  {
    assert forall x {:trigger x in objs} :: x in objs ==> x in up && x < o;
    assert kids.Keys == objs.Keys && o !in up;
    InsertedInv(objs, up, kids, o, p);
    hide LiveInv, ListsInv, ListedInv;
  }

  lemma InsertedAll(objs: Objects, acts: Actions, queue: seq<Ref>, up: Parents, kids: map<Ref, seq<Ref>>,
                    destroyed: seq<Ref>, requested: set<Ref>, o: Ref, p: Ref)
    requires TreeInv(objs, up, kids, {}) && LogInv(objs, up, destroyed, requested) && NULL !in objs
    requires Queued(acts, queue) && ThreadInv(objs, acts, queue) && Pending(objs, acts, queue, requested)
    requires KnownRequests(up, requested)
    requires o != NULL && (p != NULL ==> p in objs) && (forall x {:trigger x in up} :: x in up ==> x < o)
    ensures p != NULL ==> (objs[p].childHead != NULL ==> objs[p].childHead in objs) && !objs[p].dead
    ensures var objs', up', kids' := Inserted(objs, o, p), up[o := p], KidsWith(kids, o, p);
      && objs'.Keys == objs.Keys + {o} && kids'.Keys == objs'.Keys && OlderParents(up')
      && TreeInv(objs', up', kids', {}) && LogInv(objs', up', destroyed, requested)
      && ThreadInv(objs', acts, queue) && Pending(objs', acts, queue, requested)
  {
    InsertedKeys(objs, up, kids, o, p);
    var objs', up' := Inserted(objs, o, p), up[o := p];
    hide TreeInv, LogInv, ThreadInv, Pending, Inserted, OlderParents;
    GrownLog(objs, objs', up, destroyed, requested, o, p);
    InsertedThread(objs, acts, queue, o, p);
    InsertedPending(objs, objs', acts, queue, requested, o);
  }

  lemma RequestDoomed(objs: Objects, up: Parents, kids: map<Ref, seq<Ref>>, dying: set<Ref>, destroyed: seq<Ref>,
                      requested: set<Ref>, o: Ref)
    requires TreeInv(objs, up, kids, dying) && LogInv(objs, up, destroyed, requested) && o in objs
    requires KnownRequests(up, requested)
    ensures OlderParents(up) && LogInv(objs, up, destroyed, requested + {o})
    ensures Doomed(up, requested + {o}, o) && KnownRequests(up, requested + {o})
  {
    assert o in requested + {o} && Under(up, o, o);
    RequestedLog(objs, up, destroyed, requested, o);
  }

  lemma DestroyedPending(objs: Objects, objs': Objects, up: Parents, acts: Actions, acts': Actions, queue: seq<Ref>,
                         requested: set<Ref>, o: Ref)
    requires OlderParents(up) && Queued(acts, queue) && Queued(acts', queue) && Dropped(acts, acts', queue, objs'.Keys)
    requires Pending(objs, acts, queue, requested) && Pruned(objs.Keys, up, o, objs'.Keys)
    ensures Pending(objs', acts', queue, requested + {o})
  {
    DroppedPending(objs, objs', acts, acts', queue, requested);
    assert Under(up, o, o);
  }

  // ---------------------------------------------------------------- which actions are run

  /** A run of an action on its object. */
  datatype Call = Call(target: Ref, fnc: ActionFnc)

  function CallOf(act: Action): seq<Call> {
    if act.target == NULL then [] else [Call(act.target, act.fnc)]
  }

  /** What running the whole queue would run now. */
  ghost function QueuedCalls(acts: Actions, queue: seq<Ref>): seq<Call> {
    if queue == [] then []
    else
      (if queue[0] in acts && acts[queue[0]].target != NULL then [Call(acts[queue[0]].target, acts[queue[0]].fnc)] else [])
      + QueuedCalls(acts, queue[1..])
  }

  /** The calls on objects of `live`. */
  ghost function ForLive(calls: seq<Call>, live: set<Ref>): seq<Call> {
    if calls == [] then [] else IfLive(calls[0], live) + ForLive(calls[1..], live)
  }

  function IfLive(call: Call, live: set<Ref>): seq<Call> {
    if call.target in live then [call] else []
  }

  /** What was run and what is queued are the same calls, in the same order, for all objects of `live`. */
  ghost predicate SameCalls(calls: seq<Call>, acts: Actions, queue: seq<Ref>, calls': seq<Call>, acts': Actions, queue': seq<Ref>,
                            live: set<Ref>) {
    forall some {:trigger ForLive(calls' + QueuedCalls(acts', queue'), some)} :: some <= live ==>
      ForLive(calls' + QueuedCalls(acts', queue'), some) == ForLive(calls + QueuedCalls(acts, queue), some)
  }

  lemma SameCallsTwice(calls: seq<Call>, acts: Actions, queue: seq<Ref>, calls1: seq<Call>, acts1: Actions, queue1: seq<Ref>,
                       live1: set<Ref>, calls2: seq<Call>, acts2: Actions, queue2: seq<Ref>, live2: set<Ref>)
    requires SameCalls(calls, acts, queue, calls1, acts1, queue1, live1) && live2 <= live1
    requires SameCalls(calls1, acts1, queue1, calls2, acts2, queue2, live2)
    ensures SameCalls(calls, acts, queue, calls2, acts2, queue2, live2)
  {
  }

  lemma Assoc(a: seq<Call>, b: seq<Call>, c: seq<Call>)
    ensures (a + b) + c == a + (b + c)
  {
  }

  lemma HeadOfSum(a: seq<Call>, b: seq<Call>)
    requires a != []
    ensures a + b != [] && (a + b)[0] == a[0] && (a + b)[1..] == a[1..] + b
  {
  }

  lemma {:induction false} ForLiveAppend(a: seq<Call>, b: seq<Call>, live: set<Ref>)
    ensures ForLive(a + b, live) == ForLive(a, live) + ForLive(b, live)
  {
    if a == [] {
      assert a + b == b;
    } else {
      hide IfLive;
      ForLiveAppend(a[1..], b, live);
      HeadOfSum(a, b);
      Assoc(IfLive(a[0], live), ForLive(a[1..], live), ForLive(b, live));
    }
  }

  /** Every queued action is unchanged, or concerns no object of `some`. */
  ghost predicate SameFor(acts: Actions, acts': Actions, queue: seq<Ref>, some: set<Ref>) {
    forall k {:trigger queue[k]} :: 0 <= k < |queue| ==>
      (queue[k] in acts && queue[k] in acts'
       && (acts'[queue[k]] == acts[queue[k]] || (acts[queue[k]].target !in some && acts'[queue[k]].target !in some)))
  }

  /** Queued calls on objects of `some` are the same after others lost their target. */
  lemma {:induction false} DroppedCalls(acts: Actions, acts': Actions, queue: seq<Ref>, some: set<Ref>)
    requires NULL !in some
    requires SameFor(acts, acts', queue, some)
    ensures ForLive(QueuedCalls(acts', queue), some) == ForLive(QueuedCalls(acts, queue), some)
  {
    if queue != [] {
      assert queue[0] in acts && queue[0] in acts';
      assert SameFor(acts, acts', queue[1..], some) by {
        assert forall k {:trigger queue[1..][k]} :: 0 <= k < |queue| - 1 ==> queue[1..][k] == queue[k + 1];
      }
      DroppedCalls(acts, acts', queue[1..], some);
      ForLiveAppend(CallOf(acts[queue[0]]), QueuedCalls(acts, queue[1..]), some);
      ForLiveAppend(CallOf(acts'[queue[0]]), QueuedCalls(acts', queue[1..]), some);
    }
  }

  lemma RestIsSame(acts: Actions, queue: seq<Ref>, acts1: Actions, rest: seq<Ref>, a: Ref, live: set<Ref>, some: set<Ref>)
    requires Queued(acts, queue) && queue != [] && a == queue[0] && rest == queue[1..] && NULL !in live && some <= live
    requires Queued(acts, rest) && Dropped(acts, acts1, rest, live)
    ensures SameFor(acts, acts1 - {a}, rest, some)
  {
    forall k {:trigger rest[k]} | 0 <= k < |rest|
      ensures rest[k] in acts && rest[k] in acts1 - {a}
      ensures acts1[rest[k]] == acts[rest[k]] || (acts[rest[k]].target !in some && acts1[rest[k]].target !in some)
    {
      assert rest[k] == queue[k + 1] && queue[0] != queue[k + 1];
      assert acts1[rest[k]] == if acts[rest[k]].target in live then acts[rest[k]] else acts[rest[k]].(target := NULL);
    }
  }

  /** One round: the front action is run, and what it drops concerns no object that is left. */
  lemma StepCalls(calls: seq<Call>, acts: Actions, queue: seq<Ref>, acts1: Actions, acts2: Actions, rest: seq<Ref>, a: Ref, live: set<Ref>)
    requires Queued(acts, queue) && queue != [] && a == queue[0] && rest == queue[1..] && NULL !in live
    requires Queued(acts, rest) && Dropped(acts, acts1, rest, live) && acts2 == acts1 - {a}
    ensures SameCalls(calls, acts, queue, calls + CallOf(acts[a]), acts2, rest, live)
  {
    forall some {:trigger ForLive(calls + CallOf(acts[a]) + QueuedCalls(acts2, rest), some)} | some <= live
      ensures ForLive(calls + CallOf(acts[a]) + QueuedCalls(acts2, rest), some) == ForLive(calls + QueuedCalls(acts, queue), some)
    {
      OneCall(calls, acts, queue, acts1, acts2, rest, a, live, some);
    }
  }

  lemma FrontCall(acts: Actions, queue: seq<Ref>)
    requires Queued(acts, queue) && queue != []
    ensures queue[0] in acts && QueuedCalls(acts, queue) == CallOf(acts[queue[0]]) + QueuedCalls(acts, queue[1..])
  {
    assert queue[0] in acts;
  }

  lemma OneCall(calls: seq<Call>, acts: Actions, queue: seq<Ref>, acts1: Actions, acts2: Actions, rest: seq<Ref>, a: Ref,
                live: set<Ref>, some: set<Ref>)
    requires Queued(acts, queue) && queue != [] && a == queue[0] && rest == queue[1..] && NULL !in live && some <= live
    requires Queued(acts, rest) && Dropped(acts, acts1, rest, live) && acts2 == acts1 - {a}
    ensures ForLive(calls + CallOf(acts[a]) + QueuedCalls(acts2, rest), some) == ForLive(calls + QueuedCalls(acts, queue), some)
  {
    hide *;
    FrontCall(acts, queue);
    var now := calls + CallOf(acts[a]);
    RestIsSame(acts, queue, acts1, rest, a, live, some);
    DroppedCalls(acts, acts2, rest, some);
    ForLiveAppend(now, QueuedCalls(acts2, rest), some);
    ForLiveAppend(now, QueuedCalls(acts, rest), some);
    Assoc(calls, CallOf(acts[a]), QueuedCalls(acts, rest));
  }

  lemma FlushedKeys(objs: Objects, objs': Objects, up: Parents, destroyed: seq<Ref>, requested: set<Ref>, dying: set<Ref>)
    requires LiveInv(objs', up, dying) && LogInv(objs', up, destroyed, requested) && objs'.Keys <= objs.Keys
    requires forall x {:trigger x in objs} :: x in objs ==> x in up
    requires forall x :: x in up ==> (x in destroyed <==> Doomed(up, requested, x))
    ensures forall x :: x in objs' <==> x in objs && !Doomed(up, requested, x)
  {
  }

  /** What callers do between flushes. */
  datatype Op = CreateOp(parent: Ref) | DeleteOp(o: Ref) | DestroyOp(o: Ref) | NotifyOp(o: Ref) | FlushOp {
    predicate Deletes() {
      DeleteOp? || DestroyOp?
    }
  }

  /** What a caller sees: the parents of all objects created, the objects in use, those it asked to
      delete, and the next reference. Objects and queued actions are numbered by one counter. */
  datatype World = World(up: Parents, live: set<Ref>, requested: set<Ref>, nextRef: Ref) {
    ghost predicate Valid() {
      && OlderParents(up) && nextRef != NULL && live <= up.Keys && requested <= up.Keys
      && (forall x {:trigger x in up} :: x in up ==> x < nextRef)
    }
  }

  /** What one call means. A call about an object that is no longer in use is one no caller makes; it
      changes nothing. */
  ghost function Effect(w: World, op: Op): (w': World)
    requires w.Valid()
    ensures w'.Valid()
  {
    match op
    case CreateOp(p) =>
      if p == NULL || p in w.live then World(w.up[w.nextRef := p], w.live + {w.nextRef}, w.requested, w.nextRef + 1) else w
    case DeleteOp(o) =>
      if o in w.live then w.(requested := w.requested + {o}, nextRef := w.nextRef + 1) else w
    case DestroyOp(o) =>
      if o in w.live then
        w.(requested := w.requested + {o}, live := set x | x in w.live && !Under(w.up, x, o))
      else w
    case NotifyOp(o) => if o in w.live then w.(nextRef := w.nextRef + 1) else w
    case FlushOp => w.(live := set x | x in w.live && !Doomed(w.up, w.requested, x))
  }

  lemma EffectLive(w: World, o: Ref, left: set<Ref>)
    requires w.Valid()
    ensures o in w.live && Pruned(w.live, w.up, o, left) ==>
      Effect(w, DestroyOp(o)) == World(w.up, left, w.requested + {o}, w.nextRef)
    ensures (forall x :: x in left <==> x in w.live && !Doomed(w.up, w.requested, x)) ==>
      Effect(w, FlushOp) == World(w.up, left, w.requested, w.nextRef)
  {
  }

  lemma EffectElse(w: World, op: Op)
    requires w.Valid()
    ensures op.CreateOp? && (op.parent == NULL || op.parent in w.live) ==>
      Effect(w, op) == World(w.up[w.nextRef := op.parent], w.live + {w.nextRef}, w.requested, w.nextRef + 1)
    ensures op.CreateOp? && op.parent != NULL && op.parent !in w.live ==> Effect(w, op) == w
    ensures (op.Deletes() || op.NotifyOp?) && op.o !in w.live ==> Effect(w, op) == w
    ensures op.DeleteOp? && op.o in w.live ==> Effect(w, op) == World(w.up, w.live, w.requested + {op.o}, w.nextRef + 1)
    ensures op.NotifyOp? && op.o in w.live ==> Effect(w, op) == World(w.up, w.live, w.requested, w.nextRef + 1)
  {
  }

  /** The world after the first `n` calls. */
  ghost function After(w: World, ops: seq<Op>, n: nat): (w': World)
    requires w.Valid() && n <= |ops|
    ensures w'.Valid()
  {
    if n == 0 then w else Effect(After(w, ops, n - 1), ops[n - 1])
  }

  /** Call `i` asked for the deletion of `r` while it was in use. */
  ghost predicate Asks(w: World, ops: seq<Op>, i: nat, r: Ref)
    requires w.Valid() && i < |ops|
  {
    ops[i].Deletes() && ops[i].o == r && r in After(w, ops, i).live
  }

  /** Call `i` created `x` below `p`. */
  ghost predicate Creates(w: World, ops: seq<Op>, i: nat, x: Ref, p: Ref)
    requires w.Valid() && i < |ops|
  {
    ops[i] == CreateOp(p) && x == After(w, ops, i).nextRef && (p == NULL || p in After(w, ops, i).live)
  }

  ghost predicate AskedBy(w: World, ops: seq<Op>, n: nat, r: Ref)
    requires w.Valid() && n <= |ops|
  {
    exists i :: 0 <= i < n && Asks(w, ops, i, r)
  }

  ghost predicate CreatedBy(w: World, ops: seq<Op>, n: nat, x: Ref, p: Ref)
    requires w.Valid() && n <= |ops|
  {
    exists i :: 0 <= i < n && Creates(w, ops, i, x, p)
  }

  lemma EffectParts(w: World, op: Op, r: Ref, p: Ref)
    requires w.Valid()
    ensures r in Effect(w, op).requested <==> r in w.requested || (op.Deletes() && op.o == r && r in w.live)
    ensures Parent(Effect(w, op).up, r, p) <==>
      Parent(w.up, r, p) || (op == CreateOp(p) && r == w.nextRef && (p == NULL || p in w.live))
  {
  }

  lemma OneMore(w: World, ops: seq<Op>, n: nat, x: Ref, p: Ref)
    requires w.Valid() && 0 < n <= |ops|
    ensures AskedBy(w, ops, n, x) <==> AskedBy(w, ops, n - 1, x) || Asks(w, ops, n - 1, x)
    ensures CreatedBy(w, ops, n, x, p) <==> CreatedBy(w, ops, n - 1, x, p) || Creates(w, ops, n - 1, x, p)
  {
    hide Asks, Creates, World.Valid;
  }

  /** The objects asked to be deleted are exactly those some call asked for while they were in use. */
  lemma {:induction false} RequestedIff(w: World, ops: seq<Op>, n: nat, r: Ref)
    requires w.Valid() && n <= |ops|
    ensures r in After(w, ops, n).requested <==> r in w.requested || AskedBy(w, ops, n, r)
  {
    hide Effect, Parent, AskedBy, CreatedBy, World.Valid;
    if n > 0 {
      RequestedIff(w, ops, n - 1, r);
      EffectParts(After(w, ops, n - 1), ops[n - 1], r, NULL);
      OneMore(w, ops, n, r, NULL);
    } else {
      NoneYet(w, ops, r, NULL);
    }
  }

  lemma NoneYet(w: World, ops: seq<Op>, x: Ref, p: Ref)
    requires w.Valid()
    ensures !AskedBy(w, ops, 0, x) && !CreatedBy(w, ops, 0, x, p)
  {
  }

  /** The objects are exactly those some call created, below the parent it named. */
  lemma {:induction false} CreatedIff(w: World, ops: seq<Op>, n: nat, x: Ref, p: Ref)
    requires w.Valid() && n <= |ops|
    ensures Parent(After(w, ops, n).up, x, p) <==> Parent(w.up, x, p) || CreatedBy(w, ops, n, x, p)
  {
    hide Effect, Parent, AskedBy, CreatedBy, World.Valid;
    if n > 0 {
      CreatedIff(w, ops, n - 1, x, p);
      EffectParts(After(w, ops, n - 1), ops[n - 1], x, p);
      OneMore(w, ops, n, x, p);
    } else {
      NoneYet(w, ops, x, p);
    }
  }

  /** `x` is at or below an object that some call of the run, or one before it, asked to delete. */
  ghost predicate BelowDeleted(w: World, ops: seq<Op>, up: Parents, x: Ref)
    requires w.Valid() && OlderParents(up)
  {
    exists r :: (r in w.requested || AskedBy(w, ops, |ops|, r)) && Under(up, x, r)
  }

  lemma DoomedIffBelow(w: World, ops: seq<Op>, x: Ref)
    requires w.Valid()
    ensures var e := After(w, ops, |ops|);
      Doomed(e.up, e.requested, x) <==> BelowDeleted(w, ops, e.up, x)
  {
    var e := After(w, ops, |ops|);
    hide After, AskedBy, Effect;
    if Doomed(e.up, e.requested, x) {
      var r :| r in e.requested && Under(e.up, x, r);
      RequestedIff(w, ops, |ops|, r);
    }
    if BelowDeleted(w, ops, e.up, x) {
      var r :| (r in w.requested || AskedBy(w, ops, |ops|, r)) && Under(e.up, x, r);
      RequestedIff(w, ops, |ops|, r);
    }
  }

  lemma FinalLog(objs: Objects, up: Parents, kids: map<Ref, seq<Ref>>, destroyed: seq<Ref>, requested: set<Ref>, dying: set<Ref>)
    requires TreeInv(objs, up, kids, dying) && LogInv(objs, up, destroyed, requested)
    requires forall x :: x in up ==> (x in destroyed <==> Doomed(up, requested, x))
    ensures forall x :: x in up ==> (x in objs <==> !Doomed(up, requested, x))
    ensures forall i, j :: 0 <= i < j < |destroyed| ==> destroyed[i] != destroyed[j] && !Under(up, destroyed[j], destroyed[i])
  {
  }

  lemma FinalWorld(w: World, ops: seq<Op>)
    requires w.Valid()
    ensures var e := After(w, ops, |ops|);
      forall x :: x in e.up ==> (Doomed(e.up, e.requested, x) <==> BelowDeleted(w, ops, e.up, x))
  {
    hide After, BelowDeleted, Doomed, Effect;
    var e := After(w, ops, |ops|);
    forall x | x in e.up ensures Doomed(e.up, e.requested, x) <==> BelowDeleted(w, ops, e.up, x) {
      DoomedIffBelow(w, ops, x);
    }
  }

  predicate Parent(up: Parents, x: Ref, p: Ref) {
    x in up && up[x] == p
  }

  /** References are handed out in increasing order. */
  ghost predicate Bounded(actions: set<Ref>, up: Parents, nextRef: Ref) {
    && nextRef != NULL
    && (forall x {:trigger x in up} :: x in up ==> x < nextRef)
    && (forall a {:trigger a in actions} :: a in actions ==> a < nextRef)
  }

  lemma RequestKnown(objs: Objects, up: Parents, kids: map<Ref, seq<Ref>>, dying: set<Ref>, requested: set<Ref>, act: Action)
    requires TreeInv(objs, up, kids, dying) && act.target in objs && KnownRequests(up, requested)
    ensures KnownRequests(up, Asked(requested, act))
  {
  }

  lemma CreatedBound(actions: set<Ref>, up: Parents, requested: set<Ref>, o: Ref, p: Ref)
    requires Bounded(actions, up, o) && KnownRequests(up, requested)
    ensures Bounded(actions, up[o := p], o + 1) && KnownRequests(up[o := p], requested) && o !in up && o !in actions
  {
  }

  lemma PushedBound(actions: set<Ref>, up: Parents, a: Ref)
    requires Bounded(actions, up, a)
    ensures Bounded(actions + {a}, up, a + 1) && a != NULL && a !in actions
  {
  }

  lemma DoomedBelow(up: Parents, requested: set<Ref>, c: Ref, o: Ref)
    requires OlderParents(up) && Doomed(up, requested, o) && c in up && up[c] == o && o != NULL
    ensures Doomed(up, requested, c)
  {
    var r :| r in requested && Under(up, o, r);
    assert Under(up, c, r);
  }

  /** struct wdf_object and struct wdf_evtqueue_action on the heap, with the queue of evtqueue.c. */
  class WdfHeap {
    var objs: Objects
    var acts: Actions
    var queueHead: Ref
    var nextRef: Ref
    ghost var up: Parents                  // parents of all objects ever created
    ghost var kids: map<Ref, seq<Ref>>     // the child lists
    ghost var dying: set<Ref>              // objects whose destruction is under way
    ghost var queue: seq<Ref>
    var calls: seq<Call>                   // the actions that were run
    ghost var destroyed: seq<Ref>
    ghost var requested: set<Ref>          // objects a caller asked to delete

    /** What holds at every call of a destructor. */
    ghost predicate Inv()
      reads this
    {
      && OlderParents(up) && Queued(acts, queue) && kids.Keys == objs.Keys && NULL !in objs
      && TreeInv(objs, up, kids, dying)
      && QueueLinked(acts, queue, queueHead)
      && ThreadInv(objs, acts, queue)
      && LogInv(objs, up, destroyed, requested)
      && Bounded(acts.Keys, up, nextRef)
    }

    /** What holds between calls. */
    ghost predicate Valid()
      reads this
    {
      Inv() && dying == {} && Pending(objs, acts, queue, requested) && KnownRequests(up, requested)
    }

    constructor ()
      ensures Valid() && objs == map[] && queue == [] && requested == {} && calls == []
    {
      objs, acts, queueHead, nextRef, calls := map[], map[], NULL, 1, [];
      up, kids, dying, queue, destroyed, requested := map[], map[], {}, [], [], {};
    }

    /** `wdf_evtqueue_clear_obj`: every action queued for `o` loses its target. */
    method ClearObj(o: Ref)
      requires QueueLinked(acts, queue, queueHead) && ThreadInv(objs, acts, queue) && o in objs && NULL !in objs
      modifies this`objs, this`acts
      ensures objs == old(objs)[o := old(objs)[o].(actsHead := NULL)]
      ensures QueueLinked(acts, queue, queueHead) && ThreadInv(objs, acts, queue)
      ensures Cleared(old(acts), acts, queue, o, |queue|)
    {
      var act := objs[o].actsHead;
      ghost var was := acts;
      ghost var j := NextForIndex(acts, queue, o, 0);
      while act != NULL
        invariant 0 <= j <= |queue| && act == At(queue, j)
        invariant j < |queue| ==> was[queue[j]].target == o
        invariant objs == old(objs) && Cleared(was, acts, queue, o, j)
        decreases |queue| - j
      {
        act, j := ClearOne(was, act, o, j);
      }
      ClearedThread(objs, was, acts, queue, o);
      objs := objs[o := objs[o].(actsHead := NULL)];
    }

    /** One round of the loop: the action at `j` is cleared and the next one found. */
    method ClearOne(ghost was: Actions, act: Ref, o: Ref, ghost j: nat) returns (next: Ref, ghost k: nat)
      requires QueueLinked(was, queue, queueHead) && ThreadInv(objs, was, queue)
      requires o != NULL && o in objs && j < |queue| && act == queue[j] && was[act].target == o
      requires Cleared(was, acts, queue, o, j)
      modifies this`acts
      ensures j < k <= |queue| && next == At(queue, k) && (k < |queue| ==> was[queue[k]].target == o)
      ensures Cleared(was, acts, queue, o, k)
    {
      k := NextForIndex(was, queue, o, j + 1);
      assert was[queue[j]].objNext == At(queue, k);
      acts := acts[act := acts[act].(target := NULL)];
      next := acts[act].objNext;
    }

    /** The child list gives up its head: it is taken out of the list before it is destroyed. */
    method PopChild(o: Ref) returns (c: Ref)
      requires Inv() && o in objs && objs[o].childHead != NULL
      modifies this`objs, this`kids, this`dying
      ensures Inv() && old(kids)[o] != [] && c == old(kids)[o][0]
      ensures kids == old(kids)[o := Cut(old(kids)[o], 0)] && dying == old(dying) + {c}
      ensures AfterPop(old(objs), objs, up, o, c) && objs[c].parentList == NULL && o < c < nextRef
    {
      hide TreeInv, ThreadInv, Cut, LogInv, QueueLinked, AfterPop, OlderParents, Queued;
      PoppedInv(objs, acts, queue, queueHead, up, kids, dying, destroyed, requested, o);
      c := objs[o].childHead;
      objs := objs[o := objs[o].(childHead := objs[c].next)];
      var head := objs[o].childHead;
      if head != NULL { objs := objs[head := objs[head].(prev := NULL)]; }
      objs := objs[c := objs[c].(parentList := NULL)];
      kids := kids[o := Cut(kids[o], 0)];
      dying := dying + {c};
    }

    /** The middle part of `wdf_cleanup_obj`. */
    method Unlink(o: Ref)
      requires Inv() && o in objs && o in dying && objs[o].parentList != NULL
      modifies this`objs, this`kids
      ensures old(objs)[o].parentList in old(objs) && old(objs)[o].parentList in old(kids)
      ensures objs.Keys == old(objs).Keys && kids.Keys == objs.Keys && objs[o].actsHead == old(objs)[o].actsHead
      ensures kids[o] == old(kids)[o] && TreeInv(Detached(objs, o), up, kids, dying) && ThreadInv(objs, acts, queue)
      ensures LogInv(objs, up, destroyed, requested)
    {
      hide TreeInv, ThreadInv, LogInv, QueueLinked, Detached, Cut;
      ghost var k := UnlinkedInv(objs, acts, queue, queueHead, up, kids, dying, destroyed, requested, o);
      var p, prev, next := objs[o].parentList, objs[o].prev, objs[o].next;
      kids := kids[p := Cut(kids[p], k)];
      if prev != NULL { objs := objs[prev := objs[prev].(next := next)]; }
      else { objs := objs[p := objs[p].(childHead := next)]; }
      if next != NULL { objs := objs[next := objs[next].(prev := prev)]; }
    }

    /** `wdf_destroy_obj_list`: destroys everything below `o`. */
    method DestroyObjList(o: Ref)
      requires Inv() && o in objs && o in dying && (forall d :: d in dying ==> d <= o) && Doomed(up, requested, o)
      modifies this`objs, this`acts, this`kids, this`dying, this`destroyed
      ensures Inv() && dying == old(dying) && o in objs && o in old(objs) && kids[o] == []
      ensures objs[o] == old(objs)[o].(dead := true, childHead := NULL)
      ensures Emptied(old(objs).Keys, up, o, objs.Keys) && Kept(old(objs), objs, old(kids), kids, up, o)
      ensures Queued(old(acts), queue) && Dropped(old(acts), acts, queue, objs.Keys)
      decreases nextRef - o, 0
    {
      hide TreeInv, ThreadInv, LogInv, QueueLinked, Emptying, Kept, Dropped, Pruned, OlderParents, Queued, Doomed, Emptied, Bounded;
      MarkedDead(objs, acts, queue, queueHead, up, kids, dying, destroyed, requested, o);
      objs := objs[o := objs[o].(dead := true)];
      while objs[o].childHead != NULL
        invariant Inv() && dying == old(dying) && o in objs && o in kids
        invariant OlderParents(up) && Queued(old(acts), queue)
        invariant Emptying(old(objs), objs, old(kids), kids, old(acts), acts, queue, up, o)
        decreases |kids[o]|
      {
        ghost var objs1, kids1, acts1 := objs, kids, acts;
        AllCreated(objs, up, kids, dying);
        var c := PopChild(o);
        ghost var objs2, kids2 := objs, kids;
        DoomedBelow(up, requested, c, o);
        DestroyObject(c);
        EmptyingStep(old(objs), objs1, objs2, objs, old(kids), kids1, kids2, kids, old(acts), acts1, acts, queue, up, o, c);
      }
      AllEmptied(old(objs), objs, old(kids), kids, old(acts), acts, queue, up, dying, o);
    }

    /** `winwdf_destroy_object`: `o` and everything below it is cleaned up and freed. */
    method DestroyObject(o: Ref)
      requires Inv() && o in objs && (forall d :: d in dying ==> d <= o) && Doomed(up, requested, o)
      requires objs[o].parentList != NULL ==> dying == {}
      modifies this`objs, this`acts, this`kids, this`dying, this`destroyed
      ensures Inv() && dying == old(dying) - {o}
      ensures Pruned(old(objs).Keys, up, o, objs.Keys) && Queued(old(acts), queue) && Dropped(old(acts), acts, queue, objs.Keys)
      ensures o in old(objs) && (old(objs)[o].parentList == NULL ==> Kept(old(objs), objs, old(kids), kids, up, o))
      decreases nextRef - o, 2
    {
      hide TreeInv, ThreadInv, LogInv, QueueLinked, Kept, Dropped, Pruned, OlderParents, Queued, Doomed, Emptied, Bounded;
      DyingGrows(objs, up, kids, dying, o);
      dying := dying + {o};
      CleanupObj(o);
      if old(objs)[o].parentList == NULL { KeptFreed(old(objs), objs, old(kids), kids, up, o); }
      FreeObj(o, old(objs).Keys);
    }

    /** The `free` at the end. */
    method FreeObj(o: Ref, ghost before: set<Ref>)
      requires OlderParents(up) && Queued(acts, queue) && Bounded(acts.Keys, up, nextRef)
      requires QueueLinked(acts, queue, queueHead) && ThreadInv(objs, acts, queue) && NULL !in objs
      requires o in objs && TreeInv(Detached(objs, o), up, kids, dying) && objs[o].actsHead == NULL
      requires o in kids && kids[o] == [] && Emptied(before, up, o, objs.Keys)
      requires LogInv(objs, up, destroyed, requested) && Doomed(up, requested, o)
      modifies this`objs, this`kids, this`dying, this`destroyed
      ensures objs == old(objs) - {o} && kids == old(kids) - {o} && dying == old(dying) - {o}
      ensures destroyed == old(destroyed) + [o] && Inv() && Pruned(before, up, o, objs.Keys)
    {
      hide TreeInv, ThreadInv, LogInv, QueueLinked, Pruned, OlderParents, Queued, Doomed, Emptied, Bounded, Detached;
      FreedAll(objs, acts, queue, up, kids, dying, destroyed, requested, before, o);
      objs, kids, dying, destroyed := objs - {o}, kids - {o}, dying - {o}, destroyed + [o];
    }

    /** `wdf_cleanup_obj`: everything below `o` goes, `o` leaves its parent's list and the event queue. */
    method CleanupObj(o: Ref)
      requires Inv() && o in objs && o in dying && (forall d :: d in dying ==> d <= o) && Doomed(up, requested, o)
      requires objs[o].parentList != NULL ==> dying == {o}
      modifies this`objs, this`acts, this`kids, this`dying, this`destroyed
      ensures OlderParents(up) && Queued(acts, queue) && Bounded(acts.Keys, up, nextRef) && dying == old(dying)
      ensures QueueLinked(acts, queue, queueHead) && ThreadInv(objs, acts, queue) && NULL !in objs
      ensures LogInv(objs, up, destroyed, requested)
      ensures o in objs && TreeInv(Detached(objs, o), up, kids, dying) && objs[o].actsHead == NULL
      ensures o in kids && kids[o] == [] && Emptied(old(objs).Keys, up, o, objs.Keys)
      ensures o in old(objs) && Queued(old(acts), queue) && Dropped(old(acts), acts, queue, objs.Keys - {o})
      ensures old(objs)[o].parentList == NULL ==> Kept(old(objs), objs, old(kids), kids, up, o)
      decreases nextRef - o, 1
    {
      hide TreeInv, ThreadInv, LogInv, QueueLinked, Kept, Dropped, Pruned, OlderParents, Queued, Doomed, Emptied, Bounded;
      DestroyObjList(o);
      ghost var objs1, acts1 := objs, acts;
      if objs[o].parentList != NULL {
        ParentAlive(objs, up, kids, o);
      } else {
        assert Detached(objs, o) == objs;
      }
      if objs[o].parentList != NULL && !objs[objs[o].parentList].dead {
        Unlink(o);
      }
      HeadCleared(objs, up, kids, dying, o);
      ghost var objs2 := objs;
      ClearObj(o);
      SameKeysLog(objs2, objs, up, destroyed, requested);
      DroppedToo(old(acts), acts1, acts, queue, objs1.Keys, o);
      if old(objs)[o].parentList == NULL { KeptHead(old(objs), objs1, old(kids), kids, up, o, objs[o]); }
    }

    /** `wdf_evtqueue_enqueue`: the action goes in front of the queue and of the list of its object. */
    method Enqueue(o: Ref, fnc: ActionFnc) returns (a: Ref)
      requires Valid() && o in objs
      modifies this`objs, this`acts, this`queueHead, this`nextRef, this`queue, this`requested
      ensures Valid() && o in old(objs) && a !in old(acts) && queue == [a] + old(queue) && queueHead == a
      ensures acts == old(acts)[a := Action(old(queueHead), o, old(objs)[o].actsHead, fnc)]
      ensures objs == old(objs)[o := old(objs)[o].(actsHead := a)] && requested == Asked(old(requested), acts[a])
      ensures a == old(nextRef) && nextRef == a + 1
    {
      hide TreeInv, ThreadInv, LogInv, QueueLinked, Pending, OlderParents, Queued, Bounded, KnownRequests, Asked;
      a := nextRef;
      var act := Action(queueHead, o, objs[o].actsHead, fnc);
      PushedBound(acts.Keys, up, nextRef);
      PushedQueue(objs, acts, queue, queueHead, requested, a, act);
      PushedTree(objs, up, kids, dying, destroyed, requested, a, act);
      RequestKnown(objs, up, kids, dying, requested, act);
      nextRef := nextRef + 1;
      acts := acts[a := act];
      assert acts.Keys == old(acts).Keys + {a};
      queueHead := a;
      objs := objs[o := objs[o].(actsHead := a)];
      queue := [a] + queue;
      requested := Asked(requested, act);
    }

    /** One round of `winwdf_event_queue_flush`: the front action is unlinked, run and freed. */
    method Dispatch()
      requires Valid() && queue != []
      modifies this`objs, this`acts, this`queueHead, this`kids, this`dying, this`queue, this`destroyed, this`calls
      ensures Valid() && queue == old(queue)[1..] && objs.Keys <= old(objs).Keys
      ensures SameCalls(old(calls), old(acts), old(queue), calls, acts, queue, objs.Keys)
      ensures old(queueHead) in old(acts) && acts.Keys == old(acts).Keys - {old(queueHead)}
      ensures OlderParents(up) && Ran(old(acts)[old(queueHead)], old(objs).Keys, up, objs.Keys)
      ensures var act := old(acts)[old(queueHead)];
        calls == if act.target == NULL then old(calls) else old(calls) + [Call(act.target, act.fnc)]
    {
      hide TreeInv, ThreadInv, LogInv, QueueLinked, Pending, OlderParents, Dropped, Pruned, Doomed, Ran;
      PoppedAll(objs, acts, queue, queueHead, up, kids, dying, destroyed, requested);
      var a := queueHead;
      queueHead, queue := acts[a].next, queue[1..];
      RunAction(a);
      DispatchedPending(old(objs), objs, old(acts), acts, old(queue), requested);
      FreedAction(objs, acts, queue, queueHead, requested, a);
      StepCalls(old(calls), old(acts), old(queue), acts, acts - {a}, queue, a, objs.Keys);
      acts := acts - {a};
    }

    /** The body of the loop: an action whose object is gone is skipped. */
    method RunAction(a: Ref)
      requires dying == {} && a in acts && (acts[a].target != NULL ==> acts[a].target in objs)
      requires OlderParents(up) && Queued(acts, queue) && kids.Keys == objs.Keys && NULL !in objs
      requires var objs' := Taken(objs, acts[a]);
        && objs'.Keys == objs.Keys && ThreadInv(objs', acts, queue)
        && TreeInv(objs', up, kids, dying) && LogInv(objs', up, destroyed, requested)
      requires QueueLinked(acts, queue, queueHead) && Bounded(acts.Keys, up, nextRef)
      requires acts[a].fnc == DestroyFnc && acts[a].target != NULL ==> Doomed(up, requested, acts[a].target)
      modifies this`objs, this`acts, this`kids, this`dying, this`destroyed, this`calls
      ensures Inv() && dying == {} && Queued(old(acts), queue) && Dropped(old(acts), acts, queue, objs.Keys)
      ensures calls == old(calls) + CallOf(old(acts)[a])
      ensures objs.Keys <= old(objs).Keys && a in old(acts) && acts.Keys == old(acts).Keys
      ensures Ran(old(acts)[a], old(objs).Keys, up, objs.Keys)
      ensures old(acts)[a].target in objs ==> old(acts)[a].fnc != DestroyFnc
    {
      hide TreeInv, ThreadInv, LogInv, QueueLinked, Pending, OlderParents, Queued, Doomed, Bounded;
      DroppedNone(Taken(objs, acts[a]), acts, queue);
      var o := acts[a].target;
      if o != NULL {
        objs := objs[o := objs[o].(actsHead := acts[a].objNext)];
        calls := calls + [Call(o, acts[a].fnc)];
        if acts[a].fnc == DestroyFnc { DestroyObject(o); assert Under(up, o, o); }
      }
    }

    /** `wdf_create_obj` for the object that was just allocated; the parent is never dead here. */
    method CreateObj(parent: Ref) returns (o: Ref)
      requires Valid() && (parent != NULL ==> parent in objs)
      modifies this`objs, this`nextRef, this`up, this`kids
      ensures Valid() && o == old(nextRef) && o !in old(up) && up == old(up)[o := parent] && objs.Keys == old(objs).Keys + {o}
      ensures kids == KidsWith(old(kids), o, parent) && nextRef == o + 1
    {
      o := nextRef;
      hide TreeInv, ThreadInv, LogInv, QueueLinked, Pending, OlderParents, Queued, KidsWith, Inserted;
      CreatedBound(acts.Keys, up, requested, o, parent);
      InsertedAll(objs, acts, queue, up, kids, destroyed, requested, o, parent);
      hide Bounded, KnownRequests;
      nextRef := nextRef + 1;
      LinkNew(o, parent);
      up, kids := up[o := parent], KidsWith(kids, o, parent);
    }

    /** The fields it writes. */
    method LinkNew(o: Ref, parent: Ref)
      requires parent != NULL ==>
        parent in objs && (objs[parent].childHead != NULL ==> objs[parent].childHead in objs) && !objs[parent].dead
      modifies this`objs
      ensures objs == Inserted(old(objs), o, parent)
    {
      if parent != NULL {
        var head := objs[parent].childHead;
        objs := objs[o := Object(parent, NULL, head, NULL, false, NULL)];
        if head != NULL { objs := objs[head := objs[head].(prev := o)]; }
        objs := objs[parent := objs[parent].(childHead := o)];
      } else {
        objs := objs[o := Object(NULL, NULL, NULL, NULL, false, NULL)];
      }
    }

    /** `WdfObjectDelete`: the destruction is only queued. */
    method WdfObjectDelete(o: Ref)
      requires Valid() && o in objs
      modifies this`objs, this`acts, this`queueHead, this`nextRef, this`queue, this`requested
      ensures Valid() && objs.Keys == old(objs).Keys && requested == old(requested) + {o} && nextRef == old(nextRef) + 1
    {
      var a := Enqueue(o, DestroyFnc);
    }

    /** `winwdf_event_queue_flush`. */
    method Flush()
      requires Valid()
      modifies this`objs, this`acts, this`queueHead, this`kids, this`dying, this`queue, this`destroyed, this`calls
      ensures Valid() && queue == [] && objs.Keys <= old(objs).Keys
      ensures ForLive(calls, objs.Keys) == ForLive(old(calls) + QueuedCalls(old(acts), old(queue)), objs.Keys)
      ensures forall x :: x in up ==> (x in destroyed <==> Doomed(up, requested, x))
      ensures forall x :: x in objs <==> x in old(objs) && !Doomed(up, requested, x)
    {
      while queueHead != NULL
        invariant Valid() && objs.Keys <= old(objs).Keys
        invariant SameCalls(old(calls), old(acts), old(queue), calls, acts, queue, objs.Keys)
        decreases |queue|
      {
        assert queueHead == At(queue, 0);
        hide *;
        ghost var calls1, acts1, queue1, live1 := calls, acts, queue, objs.Keys;
        Dispatch();
        SameCallsTwice(old(calls), old(acts), old(queue), calls1, acts1, queue1, live1, calls, acts, queue, objs.Keys);
      }
      assert queue == [] && calls + QueuedCalls(acts, queue) == calls;
      AllDestroyed(objs, up, acts, destroyed, requested, dying);
      FlushedKeys(old(objs), objs, up, destroyed, requested, dying);
    }

    /** A direct `winwdf_destroy_object` of an object that is in use. */
    method DestroyNow(o: Ref)
      requires Valid() && o in objs
      modifies this`objs, this`acts, this`kids, this`dying, this`destroyed, this`requested
      ensures Valid() && requested == old(requested) + {o} && Pruned(old(objs).Keys, up, o, objs.Keys)
    {
      hide TreeInv, ThreadInv, LogInv, Dropped, QueueLinked, Pending, Bounded, KnownRequests, Pruned, Doomed, OlderParents, Queued;
      RequestDoomed(objs, up, kids, dying, destroyed, requested, o);
      requested := requested + {o};
      DestroyObject(o);
      DestroyedPending(old(objs), objs, up, old(acts), acts, queue, old(requested), o);
    }

    ghost function State(): World
      reads this
    {
      World(up, objs.Keys, requested, nextRef)
    }

    lemma ValidState()
      requires Valid()
      ensures State().Valid()
    {
    }

    /** Any run of creations, deletions, notifications and flushes, with a last flush, does what the calls
        mean. At its end exactly the deleted objects and their descendants are destroyed, each once and
        after its own descendants. */
    method Run(ops: seq<Op>)
      requires Valid()
      modifies this
      ensures Valid() && queue == [] && old(State()).Valid()
      ensures State() == Effect(After(old(State()), ops, |ops|), FlushOp)
      ensures forall x :: x in up ==> (x in destroyed <==> BelowDeleted(old(State()), ops, up, x))
      ensures forall x :: x in up ==> (x in objs <==> !BelowDeleted(old(State()), ops, up, x))
      ensures forall i, j :: 0 <= i < j < |destroyed| ==> destroyed[i] != destroyed[j] && !Under(up, destroyed[j], destroyed[i])
    {
      hide TreeInv, ThreadInv, QueueLinked, Pending, Bounded, KnownRequests, Doomed, Queued, LogInv, BelowDeleted;
      hide World.Valid, After;
      RunAll(ops);
      Step(FlushOp);
      FinalLog(objs, up, kids, destroyed, requested, dying);
      FinalWorld(old(State()), ops);
    }

    method RunAll(ops: seq<Op>)
      requires Valid()
      modifies this
      ensures Valid() && old(State()).Valid() && State() == After(old(State()), ops, |ops|)
    {
      ValidState();
      for i := 0 to |ops|
        invariant Valid() && State() == After(old(State()), ops, i)
      {
        hide *;
        Step(ops[i]);
      }
    }

    /** One call. */
    method Step(op: Op)
      requires Valid()
      modifies this
      ensures Valid() && old(State()).Valid() && State() == Effect(old(State()), op)
      ensures op.FlushOp? ==> queue == [] && forall x :: x in up ==> (x in destroyed <==> Doomed(up, requested, x))
    {
      hide TreeInv, ThreadInv, QueueLinked, Pending, Bounded, KnownRequests, Doomed, Queued, LogInv, KidsWith;
      hide Effect, Pruned, World.Valid, WdfHeap.Inv, WdfHeap.Valid;
      ValidState();
      EffectElse(State(), op);
      match op
      case CreateOp(parent) => if parent == NULL || parent in objs { var _ := CreateObj(parent); }
      case DeleteOp(o) => if o in objs { WdfObjectDelete(o); }
      case DestroyOp(o) => if o in objs { DestroyNow(o); EffectLive(old(State()), o, objs.Keys); }
      case NotifyOp(o) => if o in objs { var _ := Enqueue(o, NotifyFnc); }
      case FlushOp => Flush(); EffectLive(old(State()), NULL, objs.Keys);
    }
  }
}
