/**
 Fiber local storage (sync.c): 128 indices on a free list that runs through the index table, each
 allocated index with a thread-specific key.
 */
module FlsSpec {
  const NUM_FLS_IDXS: nat := 128
  const FLS_OUT_OF_INDEXES: nat := 0xFFFF_FFFF
  const NULL: nat := 0

  type Thread = nat
  type Data = nat

  /** The calls that succeeded, oldest first. */
  datatype Op = Allocated(idx: nat) | Freed(idx: nat) | ValueSet(thread: Thread, idx: nat, data: Data)

  /** Allocated, and not freed since. */
  predicate InUse(log: seq<Op>, idx: nat) {
    log != [] &&
    var last := log[|log| - 1];
    if last == Allocated(idx) then true
    else if last == Freed(idx) then false
    else InUse(log[..|log| - 1], idx)
  }

  ghost predicate AllInUse(log: seq<Op>) {
    forall i :: 0 <= i < NUM_FLS_IDXS ==> InUse(log, i)
  }

  /** What `thread` last stored since the allocation, or NULL. */
  function LastSet(log: seq<Op>, thread: Thread, idx: nat): Data {
    if log == [] then NULL
    else
      var last := log[|log| - 1];
      if last == Allocated(idx) then NULL
      else if last.ValueSet? && last.thread == thread && last.idx == idx then last.data
      else LastSet(log[..|log| - 1], thread, idx)
  }

  /** In use means: allocated by some call, and not freed by a later one. */
  lemma {:induction false} InUseMeans(log: seq<Op>, idx: nat)
    ensures InUse(log, idx) <==>
      exists k {:trigger log[k]} :: 0 <= k < |log| && log[k] == Allocated(idx) && NotFreed(log, k, idx)
  {
    if log != [] {
      var n, init := |log| - 1, log[..|log| - 1];
      InUseMeans(init, idx);
      if k :| 0 <= k < n && init[k] == Allocated(idx) && NotFreed(init, k, idx) {
        assert log[k] == init[k];
        if log[n] != Freed(idx) { assert NotFreed(log, k, idx); }
      }
      if k :| 0 <= k < |log| && log[k] == Allocated(idx) && NotFreed(log, k, idx) {
        assert k < n ==> init[k] == log[k] && NotFreed(init, k, idx);
      }
    }
  }

  ghost predicate NotFreed(log: seq<Op>, k: nat, idx: nat) {
    forall j {:trigger log[j]} :: k < j < |log| ==> log[j] != Freed(idx)
  }

  /** The last call that allocates the index or sets it for the thread decides its value there. */
  lemma {:induction false} LastSetMeans(log: seq<Op>, k: nat, thread: Thread, idx: nat)
    requires k < |log| && Decides(log[k], thread, idx) && NoneDecides(log, k, thread, idx)
    ensures LastSet(log, thread, idx) == if log[k].ValueSet? then log[k].data else NULL
    decreases |log|
  {
    var n, init := |log| - 1, log[..|log| - 1];
    if k < n {
      assert !Decides(log[n], thread, idx) && init[k] == log[k] && NoneDecides(init, k, thread, idx);
      LastSetMeans(init, k, thread, idx);
    }
  }

  lemma {:induction false} NeverSet(log: seq<Op>, thread: Thread, idx: nat)
    requires NoneDecides(log, -1, thread, idx)
    ensures LastSet(log, thread, idx) == NULL
  {
    if log != [] {
      var init := log[..|log| - 1];
      assert !Decides(log[|log| - 1], thread, idx) && NoneDecides(init, -1, thread, idx);
      NeverSet(init, thread, idx);
    }
  }

  predicate Decides(op: Op, thread: Thread, idx: nat) {
    op == Allocated(idx) || (op.ValueSet? && op.thread == thread && op.idx == idx)
  }

  ghost predicate NoneDecides(log: seq<Op>, k: int, thread: Thread, idx: nat) {
    forall j {:trigger log[j]} :: 0 <= j < |log| && k < j ==> !Decides(log[j], thread, idx)
  }

  /** One more call. */
  function SetBy(op: Op, thread: Thread, idx: nat, before: Data): Data {
    if op == Allocated(idx) then NULL
    else if op.ValueSet? && op.thread == thread && op.idx == idx then op.data
    else before
  }

  lemma LogNext(log: seq<Op>, op: Op)
    ensures forall i :: InUse(log + [op], i) <==> op == Allocated(i) || (op != Freed(i) && InUse(log, i))
    ensures forall t, i :: LastSet(log + [op], t, i) == SetBy(op, t, i, LastSet(log, t, i))
  {
    assert (log + [op])[..|log|] == log;
  }

  // ---------------------------------------------------------------- the free list

  function At(free: seq<nat>, k: int): int {
    if 0 <= k < |free| then free[k] else NUM_FLS_IDXS
  }

  /** `free` is the list that starts at `head`; an index in use has the link -1. */
  ghost predicate FreeChain(next: seq<int>, head: int, free: seq<nat>) {
    && |next| == NUM_FLS_IDXS && head == At(free, 0)
    && (forall k :: 0 <= k < |free| ==> free[k] < NUM_FLS_IDXS)
    && (forall k {:trigger next[free[k]]} :: 0 <= k < |free| ==> next[free[k]] == At(free, k + 1))
    && (forall j, k :: 0 <= j < k < |free| ==> free[j] != free[k])
    && (forall i {:trigger next[i]} :: 0 <= i < NUM_FLS_IDXS ==> (next[i] == -1 <==> i !in free))
  }

  /** Where one gets by following the links `k` times. */
  function Follow(next: seq<int>, head: int, k: nat): int {
    if k == 0 then head
    else
      var i := Follow(next, head, k - 1);
      if 0 <= i < |next| then next[i] else NUM_FLS_IDXS
  }

  /** The links visit exactly the unallocated indices, each once, and end at 128. */
  lemma {:induction false} FollowVisits(next: seq<int>, head: int, free: seq<nat>, k: nat)
    requires FreeChain(next, head, free) && k <= |free|
    ensures Follow(next, head, k) == At(free, k)
    ensures k == |free| ==> Follow(next, head, k) == NUM_FLS_IDXS
  {
    if k > 0 {
      FollowVisits(next, head, free, k - 1);
      assert next[free[k - 1]] == At(free, k);
    }
  }

  lemma FreeListIsExact(next: seq<int>, head: int, free: seq<nat>)
    requires FreeChain(next, head, free)
    ensures forall k :: 0 <= k < |free| ==> Follow(next, head, k) == free[k]
    ensures Follow(next, head, |free|) == NUM_FLS_IDXS
    ensures forall i :: 0 <= i < NUM_FLS_IDXS ==> (next[i] != -1 <==> i in free)
  {
    forall k | 0 <= k < |free| ensures Follow(next, head, k) == free[k] { FollowVisits(next, head, free, k); }
    FollowVisits(next, head, free, |free|);
  }

  lemma PushFree(next: seq<int>, head: int, free: seq<nat>, idx: nat)
    requires FreeChain(next, head, free) && idx < NUM_FLS_IDXS && idx !in free
    ensures FreeChain(next[idx := head], idx, [idx] + free)
  {
    var free', next' := [idx] + free, next[idx := head];
    forall k {:trigger next'[free'[k]]} | 0 <= k < |free'| ensures free'[k] < NUM_FLS_IDXS && next'[free'[k]] == At(free', k + 1) {
      if k > 0 { assert free[k - 1] in free && free'[k] == free[k - 1] && next[free[k - 1]] == At(free, k); }
    }
    forall j, k | 0 <= j < k < |free'| ensures free'[j] != free'[k] {
      assert free'[k] == free[k - 1] && free[k - 1] in free;
    }
    assert forall i :: i in free' <==> i == idx || i in free;
    NotMinusOne(next, head, free);
  }

  lemma NotMinusOne(next: seq<int>, head: int, free: seq<nat>)
    requires FreeChain(next, head, free)
    ensures head != -1
  {
  }

  lemma PopFree(next: seq<int>, head: int, free: seq<nat>)
    requires FreeChain(next, head, free) && free != []
    ensures head == free[0] && FreeChain(next[head := -1], next[head], free[1..])
  {
    var rest := free[1..];
    assert forall i :: i in free <==> i == free[0] || i in rest;
    assert free[0] !in rest && next[free[0]] == At(free, 1);
    forall k {:trigger rest[k]} | 0 <= k < |rest| ensures next[rest[k]] == At(rest, k + 1) {
      assert rest[k] == free[k + 1] && next[free[k + 1]] == At(free, k + 2);
    }
  }
}

module Fls {
  import opened FlsSpec

  type Key = int

  /** struct fls_value. */
  datatype FlsValue = FlsValue(callback: int, data: Data)

  class FlsTable {
    // fls_indices, one array a field
    const nextIdx: array<int>
    const key: array<Key>
    const callback: array<int>
    var nextFree: int
    var values: map<(Thread, Key), FlsValue>   // pthread_setspecific
    ghost var free: seq<nat>
    ghost var log: seq<Op>

    ghost predicate Valid()
      reads this, nextIdx, key, callback
    {
      && nextIdx.Length == key.Length == callback.Length == NUM_FLS_IDXS
      && nextIdx != key && nextIdx != callback && key != callback
      && FreeChain(nextIdx[..], nextFree, free)
      && Logged(nextIdx[..], log) && KeysApart(nextIdx[..], key[..])
      && Stored(nextIdx[..], key[..], values, log)
    }

    static ghost predicate Logged(next: seq<int>, log: seq<Op>)
      requires |next| == NUM_FLS_IDXS
    {
      forall i {:trigger next[i]} :: 0 <= i < NUM_FLS_IDXS ==> (next[i] == -1 <==> InUse(log, i))
    }

    /** Indices in use have different keys. */
    static ghost predicate KeysApart(next: seq<int>, keys: seq<Key>)
      requires |next| == |keys| == NUM_FLS_IDXS
    {
      forall i, j :: 0 <= i < j < NUM_FLS_IDXS && next[i] == -1 && next[j] == -1 ==> keys[i] != keys[j]
    }

    static ghost predicate KeyUnused(next: seq<int>, keys: seq<Key>, newKey: Key)
      requires |next| == |keys| == NUM_FLS_IDXS
    {
      forall i :: 0 <= i < NUM_FLS_IDXS && next[i] == -1 ==> keys[i] != newKey
    }

    /** A new key has no value in any thread. */
    static function Without(values: map<(Thread, Key), FlsValue>, newKey: Key): map<(Thread, Key), FlsValue> {
      map k | k in values && k.1 != newKey :: values[k]
    }

    static lemma AllocKeeps(next: seq<int>, keys: seq<Key>, values: map<(Thread, Key), FlsValue>, log: seq<Op>,
                            idx: nat, newKey: Key)
      requires |next| == |keys| == NUM_FLS_IDXS && idx < NUM_FLS_IDXS && next[idx] != -1
      requires Logged(next, log) && KeysApart(next, keys) && Stored(next, keys, values, log) && KeyUnused(next, keys, newKey)
      ensures !InUse(log, idx) && Logged(next[idx := -1], log + [Allocated(idx)])
      ensures KeysApart(next[idx := -1], keys[idx := newKey])
      ensures Stored(next[idx := -1], keys[idx := newKey], Without(values, newKey), log + [Allocated(idx)])
    {
      LogNext(log, Allocated(idx));
    }

    static lemma FreeKeeps(next: seq<int>, keys: seq<Key>, values: map<(Thread, Key), FlsValue>, log: seq<Op>,
                           idx: nat, link: int)
      requires |next| == |keys| == NUM_FLS_IDXS && idx < NUM_FLS_IDXS && next[idx] == -1 && link != -1
      requires Logged(next, log) && KeysApart(next, keys) && Stored(next, keys, values, log)
      ensures InUse(log, idx) && Logged(next[idx := link], log + [Freed(idx)])
      ensures KeysApart(next[idx := link], keys) && Stored(next[idx := link], keys, values, log + [Freed(idx)])
    {
      LogNext(log, Freed(idx));
    }

    static lemma SetKeeps(next: seq<int>, keys: seq<Key>, values: map<(Thread, Key), FlsValue>, log: seq<Op>,
                          thread: Thread, idx: nat, v: FlsValue)
      requires |next| == |keys| == NUM_FLS_IDXS && idx < NUM_FLS_IDXS && next[idx] == -1
      requires Logged(next, log) && KeysApart(next, keys) && Stored(next, keys, values, log)
      ensures InUse(log, idx) && Logged(next, log + [ValueSet(thread, idx, v.data)])
      ensures Stored(next, keys, values[(thread, keys[idx]) := v], log + [ValueSet(thread, idx, v.data)])
    {
      LogNext(log, ValueSet(thread, idx, v.data));
    }

    static lemma UsedUp(next: seq<int>, log: seq<Op>)
      requires |next| == NUM_FLS_IDXS && Logged(next, log)
      ensures (forall i :: 0 <= i < NUM_FLS_IDXS ==> next[i] == -1) <==> AllInUse(log)
    {
      if forall i :: 0 <= i < NUM_FLS_IDXS ==> next[i] == -1 {
        forall i | 0 <= i < NUM_FLS_IDXS ensures InUse(log, i) { assert next[i] == -1; }
      } else {
        var i :| 0 <= i < NUM_FLS_IDXS && next[i] != -1;
        assert !InUse(log, i);
      }
    }

    static lemma FreeHead(next: seq<int>, head: int, free: seq<nat>)
      requires FreeChain(next, head, free)
      ensures head < NUM_FLS_IDXS <==> free != []
      ensures free != [] ==> 0 <= head && next[head] != -1
      ensures free == [] ==> forall i :: 0 <= i < NUM_FLS_IDXS ==> next[i] == -1
    {
      assert free != [] ==> free[0] in free;
    }

    /** The value of an index in use, for each thread. */
    static ghost predicate Stored(next: seq<int>, keys: seq<Key>, values: map<(Thread, Key), FlsValue>, log: seq<Op>)
      requires |next| == |keys| == NUM_FLS_IDXS
    {
      forall t: Thread, i: nat {:trigger LastSet(log, t, i)} :: i < NUM_FLS_IDXS && next[i] == -1 ==>
        LastSet(log, t, i) == if (t, keys[i]) in values then values[(t, keys[i])].data else NULL
    }

    lemma OpenValid()
      requires Valid()
      ensures nextIdx.Length == key.Length == callback.Length == NUM_FLS_IDXS && NUM_FLS_IDXS == 128
      ensures nextIdx != key && nextIdx != callback && key != callback && FLS_OUT_OF_INDEXES > 128
      ensures FreeChain(nextIdx[..], nextFree, free) && Logged(nextIdx[..], log) && KeysApart(nextIdx[..], key[..])
      ensures Stored(nextIdx[..], key[..], values, log)
    {
    }

    lemma CloseValid()
      requires nextIdx.Length == key.Length == callback.Length == NUM_FLS_IDXS
      requires nextIdx != key && nextIdx != callback && key != callback
      requires FreeChain(nextIdx[..], nextFree, free) && Logged(nextIdx[..], log) && KeysApart(nextIdx[..], key[..])
      requires Stored(nextIdx[..], key[..], values, log)
      ensures Valid()
    {
    }

    /** `init_fls`. */
    constructor ()
      ensures Valid() && log == [] && fresh(nextIdx) && fresh(key) && fresh(callback)
    {
      nextIdx, key, callback := new int[NUM_FLS_IDXS](_ => 0), new Key[NUM_FLS_IDXS](_ => 0), new int[NUM_FLS_IDXS](_ => 0);
      nextFree := NUM_FLS_IDXS;
      values, free, log := map[], [], [];
      new;
      var i := NUM_FLS_IDXS - 1;
      while i >= 0
        invariant -1 <= i < NUM_FLS_IDXS && nextFree == i + 1 && |free| == NUM_FLS_IDXS - 1 - i
        invariant forall k {:trigger free[k]} :: 0 <= k < |free| ==> free[k] == i + 1 + k
        invariant forall k :: i < k < NUM_FLS_IDXS ==> nextIdx[k] == k + 1
        invariant values == map[] && log == []
      {
        nextIdx[i] := nextFree;
        nextFree := i;
        free := [i] + free;
        i := i - 1;
      }
      forall k | 0 <= k < NUM_FLS_IDXS ensures k in free { assert free[k] == k; }
    }

    /** `FlsAlloc`; `newKey` is the key that pthread_key_create returns, which is not in use. */
    method FlsAlloc(cb: int, newKey: Key) returns (idx: nat)
      requires Valid()
      requires KeyUnused(nextIdx[..], key[..], newKey)
      modifies this, nextIdx, key, callback
      ensures Valid()
      ensures idx == FLS_OUT_OF_INDEXES <==> AllInUse(old(log))
      ensures idx != FLS_OUT_OF_INDEXES ==> idx < NUM_FLS_IDXS && !InUse(old(log), idx)
      ensures log == if idx == FLS_OUT_OF_INDEXES then old(log) else old(log) + [Allocated(idx)]
    {
      hide *;
      idx := FLS_OUT_OF_INDEXES;
      OpenValid();
      FreeHead(nextIdx[..], nextFree, free);
      UsedUp(nextIdx[..], log);
      if nextFree < NUM_FLS_IDXS {
        idx := nextFree;
        PopFree(nextIdx[..], nextFree, free);
        AllocKeeps(nextIdx[..], key[..], values, log, idx, newKey);
        ghost var next', keys' := nextIdx[..][idx := -1], key[..][idx := newKey];
        nextFree := nextIdx[idx];
        nextIdx[idx] := -1;
        key[idx] := newKey;
        values := Without(values, newKey);
        callback[idx] := cb;
        free := free[1..];
        log := log + [Allocated(idx)];
        assert nextIdx[..] == next' && key[..] == keys';
        CloseValid();
      }
    }

    /** `FlsFree` succeeds exactly on an index in use. */
    method FlsFree(idx: nat) returns (suc: bool)
      requires Valid()
      modifies this, nextIdx
      ensures Valid()
      ensures suc <==> idx < NUM_FLS_IDXS && InUse(old(log), idx)
      ensures log == if suc then old(log) + [Freed(idx)] else old(log)
    {
      if idx < NUM_FLS_IDXS && nextIdx[idx] < 0 {
        ghost var next0 := nextIdx[..];
        LinkSign(next0, nextFree, free, idx);
        PushFree(next0, nextFree, free, idx);
        FreeKeeps(next0, key[..], values, log, idx, nextFree);
        nextIdx[idx] := nextFree;
        nextFree := idx;
        free := [idx] + free;
        log := log + [Freed(idx)];
        assert nextIdx[..] == next0[idx := old(nextFree)];
        suc := true;
      } else {
        suc := false;
      }
    }

    /** `FlsGetValue`: what the calling thread last set since the allocation, or NULL. */
    method FlsGetValue(thread: Thread, idx: nat) returns (data: Data)
      requires Valid()
      ensures data == if idx < NUM_FLS_IDXS && InUse(log, idx) then LastSet(log, thread, idx) else NULL
    {
      data := NULL;
      if idx < NUM_FLS_IDXS && nextIdx[idx] < 0 {
        LinkSign(nextIdx[..], nextFree, free, idx);
        assert nextIdx[..][idx] == -1 && key[..][idx] == key[idx];
        if (thread, key[idx]) in values { data := values[(thread, key[idx])].data; }
        assert LastSet(log, thread, idx) == data;
      }
    }

    /** `FlsSetValue`. */
    method FlsSetValue(thread: Thread, idx: nat, data: Data) returns (suc: bool)
      requires Valid()
      modifies this
      ensures Valid()
      ensures suc <==> idx < NUM_FLS_IDXS && InUse(old(log), idx)
      ensures log == if suc then old(log) + [ValueSet(thread, idx, data)] else old(log)
    {
      if idx < NUM_FLS_IDXS && nextIdx[idx] < 0 {
        LinkSign(nextIdx[..], nextFree, free, idx);
        SetKeeps(nextIdx[..], key[..], values, log, thread, idx, FlsValue(callback[idx], data));
        values := values[(thread, key[idx]) := FlsValue(callback[idx], data)];
        log := log + [ValueSet(thread, idx, data)];
        suc := true;
      } else {
        suc := false;
      }
    }

    /** The only negative link is -1. */
    static lemma LinkSign(next: seq<int>, head: int, free: seq<nat>, idx: nat)
      requires FreeChain(next, head, free) && idx < NUM_FLS_IDXS && next[idx] < 0
      ensures next[idx] == -1 && idx !in free
    {
      forall k | 0 <= k < |free| ensures free[k] != idx {
        assert next[free[k]] == At(free, k + 1);
      }
    }
  }
}
