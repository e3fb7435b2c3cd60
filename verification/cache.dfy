/** The cache: a tree of nodes by hash, each with a value per tag, behind a semaphore. */
module Caches {
  import opened Memory
  import opened Sequences
  import opened Thumbnails

  const CLEANUP_THRESHOLD: nat := 30 * 60
  const NODE_SIZE: nat := 16
  const HEADER_SIZE: nat := 12
  const WORD: nat := 0x1_0000_0000

  datatype Tag = MimeType | Thumbnail

  /** A value: a pointer, or the address of a copy. */
  datatype Value = Pointer(p: nat) | Copy(addr: nat, image: Packed)

  /** What is passed in to be stored. */
  datatype Source = PointerTo(p: nat) | ImageOf(bitmap: Bitmap)

  /** A node; the keys of `values` are the bits of the flag word that are set. */
  datatype Node = Node(key: nat, addr: nat, stamp: nat, values: map<Tag, Value>)

  /** The semaphore, which nests for the task that holds it. */
  datatype Lock = Free | Held(task: nat, nest: nat)

  datatype State = State(tree: seq<Node>, globalStamp: nat, lock: Lock)

  datatype Reply = Miss | Hit(value: Value)

  datatype Which = Only(tag: Tag) | AllTags

  // ----- The semaphore ----------------------------------------------------------------------

  predicate Available(lock: Lock, task: nat) {
    lock.Free? || lock.task == task
  }

  function Taken(lock: Lock, task: nat): Lock {
    Held(task, if lock.Free? then 1 else lock.nest + 1)
  }

  function Released(lock: Lock): Lock
    requires lock.Held?
  {
    if lock.nest <= 1 then Free else Held(lock.task, lock.nest - 1)
  }

  // ----- What the operations do -----------------------------------------------------------------

  /** The position of the node for a hash, or the number of nodes. */
  function IndexOf(tree: seq<Node>, key: nat): (i: nat)
    ensures i <= |tree| && (i < |tree| ==> tree[i].key == key)
    ensures forall k :: 0 <= k < i ==> tree[k].key != key
  {
    if tree == [] || tree[0].key == key then 0 else IndexOf(tree[1..], key) + 1
  }

  ghost predicate UniqueKeys(tree: seq<Node>) {
    forall i, j :: 0 <= i < j < |tree| ==> tree[i].key != tree[j].key
  }

  function TagOf(source: Source): Tag {
    if source.PointerTo? then MimeType else Thumbnail
  }

  ghost predicate CanCopy(source: Source) {
    source.ImageOf? ==> Readable(source.bitmap)
  }

  /** The copy made of a source; `copy` is the address of its block, 0 if there was none. */
  function CopyOf(source: Source, copy: nat): (v: Value)
    requires CanCopy(source)
    ensures v.Pointer? <==> source.PointerTo?
  {
    match source
    case PointerTo(p) => Pointer(p)
    case ImageOf(bitmap) => Copy(copy, Pack(bitmap))
  }

  /** The node with the value for one tag replaced, or lost if it cannot be copied. */
  function Stored(n: Node, source: Source, copy: nat): Node
    requires CanCopy(source)
  {
    var cleared := n.values - {TagOf(source)};
    n.(values := if source.ImageOf? && copy == 0 then cleared else cleared[TagOf(source) := CopyOf(source, copy)])
  }

  function Found(s: State, task: nat, hash: nat, tag: Tag): Reply {
    var i := IndexOf(s.tree, hash);
    if Available(s.lock, task) && i < |s.tree| && tag in s.tree[i].values then Hit(s.tree[i].values[tag]) else Miss
  }

  function AfterGet(s: State, task: nat, hash: nat, tag: Tag, now: nat): State {
    var i := IndexOf(s.tree, hash);
    if !Available(s.lock, task) || i == |s.tree| then s
    else if tag !in s.tree[i].values then s.(tree := s.tree[i := s.tree[i].(stamp := now)])
    else
      State(s.tree[i := s.tree[i].(stamp := s.globalStamp)], (s.globalStamp + 1) % WORD,
            if tag == Thumbnail then Taken(s.lock, task) else s.lock)
  }

  /** `node` is the address of the block for a new node, 0 if there was none. */
  function AfterSet(s: State, task: nat, hash: nat, source: Source, now: nat, node: nat, copy: nat): State
    requires CanCopy(source)
  {
    var i := IndexOf(s.tree, hash);
    if !Available(s.lock, task) || (i == |s.tree| && node == 0) then s
    else if i == |s.tree| then s.(tree := s.tree + [Stored(Node(hash, node, now, map[]), source, copy)])
    else s.(tree := s.tree[i := Stored(s.tree[i].(stamp := now), source, copy)])
  }

  function Cleared(n: Node, which: Which): Node {
    n.(values := if which.AllTags? then map[] else n.values - {which.tag})
  }

  /** Hash 0 stands for all nodes. */
  function AfterInvalidate(s: State, hash: nat, which: Which): State {
    var i := IndexOf(s.tree, hash);
    if hash == 0 then s.(tree := seq(|s.tree|, k requires 0 <= k < |s.tree| => Cleared(s.tree[k], which)))
    else if i == |s.tree| then s
    else s.(tree := s.tree[i := Cleared(s.tree[i], which)])
  }

  /** The threshold is computed in the width of the clock. */
  function Threshold(now: nat): nat {
    (now + WORD - CLEANUP_THRESHOLD) % WORD
  }

  predicate Stale(n: Node, threshold: nat) {
    n.stamp <= threshold || n.values == map[]
  }

  function Kept(tree: seq<Node>, threshold: nat): (r: seq<Node>)
    ensures forall n :: n in r <==> n in tree && !Stale(n, threshold)
  {
    if tree == [] then []
    else if Stale(tree[0], threshold) then Kept(tree[1..], threshold)
    else [tree[0]] + Kept(tree[1..], threshold)
  }

  /** `memory` tells whether the list of nodes to delete can be allocated. */
  function AfterDeleteUnused(s: State, task: nat, now: nat, memory: bool): State {
    if !Available(s.lock, task) || !memory then s
    else s.(tree := Kept(s.tree, Threshold(now)))
  }

  function AfterFlush(s: State, task: nat): State {
    if !Available(s.lock, task) then s else s.(tree := [])
  }

  function AfterUnlock(s: State): State
    requires s.lock.Held?
  {
    s.(lock := Released(s.lock))
  }

  // ----- Memory ------------------------------------------------------------------------------

  /** The size of a copy's block: a header and the pixels. */
  function CopySize(width: nat, height: nat, bpp: nat): nat {
    width * height * bpp + HEADER_SIZE
  }

  /** The block of a value, sized by what the header says. */
  ghost function ValueBlock(v: Value): multiset<(nat, nat)> {
    match v
    case Pointer(_) => multiset{}
    case Copy(addr, image) => multiset{(addr, CopySize(image.width, image.height, image.bpp))}
  }

  function TagAt(k: nat): Tag {
    if k == 0 then MimeType else Thumbnail
  }

  ghost function TagBlock(values: map<Tag, Value>, tag: Tag): multiset<(nat, nat)> {
    if tag in values then ValueBlock(values[tag]) else multiset{}
  }

  ghost function ValueBlocks(values: map<Tag, Value>): multiset<(nat, nat)> {
    TagBlock(values, MimeType) + TagBlock(values, Thumbnail)
  }

  /** The blocks of a node: its own and those of the copies it holds. */
  ghost function NodeBlocks(n: Node): multiset<(nat, nat)> {
    multiset{(n.addr, NODE_SIZE)} + ValueBlocks(n.values)
  }

  ghost function Owned(tree: seq<Node>): multiset<(nat, nat)> {
    if tree == [] then multiset{} else NodeBlocks(tree[0]) + Owned(tree[1..])
  }

  lemma {:induction false} OwnedConcat(a: seq<Node>, b: seq<Node>)
    ensures Owned(a + b) == Owned(a) + Owned(b)
  {
    hide NodeBlocks;
    if a == [] {
      assert a + b == b;
    } else {
      OwnedConcat(a[1..], b);
      assert (a + b)[0] == a[0] && (a + b)[1..] == a[1..] + b;
    }
  }

  lemma OwnedOne(n: Node)
    ensures Owned([n]) == NodeBlocks(n)
  {
  }

  lemma OwnedAt(tree: seq<Node>, i: nat, n: Node)
    requires i < |tree|
    ensures Owned(tree) == NodeBlocks(tree[i]) + Owned(tree[..i] + tree[i + 1..])
    ensures Owned(tree[i := n]) == NodeBlocks(n) + Owned(tree[..i] + tree[i + 1..])
  {
    hide NodeBlocks, Owned;
    OwnedOne(tree[i]);
    OwnedOne(n);
    assert tree == tree[..i] + [tree[i]] + tree[i + 1..];
    assert tree[i := n] == tree[..i] + [n] + tree[i + 1..];
    OwnedConcat(tree[..i] + [tree[i]], tree[i + 1..]);
    OwnedConcat(tree[..i], [tree[i]]);
    OwnedConcat(tree[..i] + [n], tree[i + 1..]);
    OwnedConcat(tree[..i], [n]);
    OwnedConcat(tree[..i], tree[i + 1..]);
  }

  // ----- The cache ------------------------------------------------------------------------------

  class Semaphore {
    var lock: Lock

    ghost predicate Valid()
      reads this
    {
      lock.Held? ==> lock.nest > 0
    }

    constructor ()
      ensures lock == Free
    {
      lock := Free;
    }

    /** Takes the semaphore unless another task holds it. */
    method Attempt(task: nat) returns (ok: bool)
      requires Valid()
      modifies this
      ensures Valid() && ok == Available(old(lock), task)
      ensures lock == if ok then Taken(old(lock), task) else old(lock)
    {
      ok := lock.Free? || lock.task == task;
      if ok {
        lock := if lock.Free? then Held(task, 1) else Held(task, lock.nest + 1);
      }
    }

    method Release()
      requires Valid() && lock.Held?
      modifies this
      ensures Valid() && lock == Released(old(lock))
    {
      lock := if lock.nest == 1 then Free else Held(lock.task, lock.nest - 1);
    }
  }

  class Cache {
    const sem: Semaphore
    const pool: Pool
    var tree: seq<Node>
    var globalStamp: nat

    ghost function Abstract(): State
      reads this, sem
    {
      State(tree, globalStamp, sem.lock)
    }

    /** The pool holds the blocks of the nodes and of their copies, each once and with its
        size, and those of `frame`. */
    ghost predicate Accounted(frame: multiset<(nat, nat)>)
      reads this`tree, pool
    {
      pool.Valid() && pool.Blocks() == Owned(tree) + frame
    }

    ghost predicate Valid()
      reads this, sem, pool
    {
      sem.Valid() && UniqueKeys(tree) && Accounted(multiset{})
    }

    constructor ()
      ensures Valid() && Abstract() == State([], 1, Free) && fresh(sem) && fresh(pool)
    {
      sem := new Semaphore();
      pool := new Pool();
      tree, globalStamp := [], 1;
    }

    method Stamp(i: nat, stamp: nat)
      requires i < |tree| && UniqueKeys(tree) && Accounted(multiset{})
      modifies this`tree
      ensures tree == old(tree)[i := old(tree)[i].(stamp := stamp)]
      ensures UniqueKeys(tree) && Accounted(multiset{})
    {
      hide Owned, ValueBlocks, Pool.Blocks, Pool.Valid;
      OwnedAt(tree, i, tree[i].(stamp := stamp));
      tree := tree[i := tree[i].(stamp := stamp)];
    }

    /** Finds a node and stamps it with the time. */
    method Lookup(hash: nat, now: nat) returns (i: nat)
      requires UniqueKeys(tree) && Accounted(multiset{})
      modifies this`tree
      ensures i == IndexOf(old(tree), hash)
      ensures tree == if i < |old(tree)| then old(tree)[i := old(tree)[i].(stamp := now)] else old(tree)
      ensures UniqueKeys(tree) && Accounted(multiset{})
    {
      hide IndexOf, UniqueKeys, Accounted;
      i := IndexOf(tree, hash);
      if i < |tree| {
        Stamp(i, now);
      }
    }

    /** Looks up a value. After a hit for a thumbnail the task still holds the semaphore. */
    method Get(task: nat, hash: nat, tag: Tag, now: nat) returns (reply: Reply)
      requires Valid()
      modifies this, sem
      ensures Valid()
      ensures Abstract() == AfterGet(old(Abstract()), task, hash, tag, now)
      ensures reply == Found(old(Abstract()), task, hash, tag)
    {
      hide IndexOf, UniqueKeys, Accounted;
      reply := Miss;
      var ok := sem.Attempt(task);
      if ok {
        var i := Lookup(hash, now);
        if i < |tree| {
          if tag in tree[i].values {
            Stamp(i, globalStamp);
            globalStamp := (globalStamp + 1) % WORD;
            reply := Hit(tree[i].values[tag]);
            if tag == Thumbnail {
              return;
            }
          }
        }
        sem.Release();
      }
    }

    method Unlock()
      requires Valid() && sem.lock.Held?
      modifies sem
      ensures Valid() && Abstract() == AfterUnlock(old(Abstract()))
    {
      sem.Release();
    }

    /** The deallocator of a value. */
    method FreeValue(v: Value, ghost more: multiset<(nat, nat)>)
      requires pool.Valid() && pool.Blocks() == ValueBlock(v) + more
      modifies pool
      ensures pool.Valid() && pool.Blocks() == more
    {
      match v {
        case Pointer(_) =>
        case Copy(addr, image) => pool.Free(addr, CopySize(image.width, image.height, image.bpp));
      }
    }

    /** Frees the values of a node. */
    method FlushValues(values: map<Tag, Value>, ghost more: multiset<(nat, nat)>)
      requires pool.Valid() && pool.Blocks() == ValueBlocks(values) + more
      modifies pool
      ensures pool.Valid() && pool.Blocks() == more
    {
      hide TagBlock, ValueBlock, Pool.Blocks, Pool.Valid, ValueBlocks;
      ValuesFirst(values, more);
      for k := 0 to 2
        invariant pool.Valid() && pool.Blocks() == BlocksFrom(values, k) + more
      {
        ValuesNext(values, k, more);
        if TagAt(k) in values {
          FreeValue(values[TagAt(k)], BlocksFrom(values, k + 1) + more);
        }
      }
    }

    /** Frees a node with its values. */
    method FreeNode(n: Node, ghost more: multiset<(nat, nat)>)
      requires pool.Valid() && pool.Blocks() == NodeBlocks(n) + more
      modifies pool
      ensures pool.Valid() && pool.Blocks() == more
    {
      hide ValueBlocks;
      NodeSplit(n, more);
      FlushValues(n.values, multiset{(n.addr, NODE_SIZE)} + more);
      assert (n.addr, NODE_SIZE) in pool.Blocks();
      pool.Free(n.addr, NODE_SIZE);
    }

    /** Removes the values for a tag, or all, from a node. */
    method ClearNode(i: nat, which: Which)
      requires i < |tree| && UniqueKeys(tree) && Accounted(multiset{})
      modifies this`tree, pool
      ensures tree == old(tree)[i := Cleared(old(tree)[i], which)]
      ensures UniqueKeys(tree) && Accounted(multiset{})
    {
      hide Owned, NodeBlocks, ValueBlock, ValueBlocks, Pool.Blocks, Pool.Valid;
      var n := tree[i];
      OwnedAt(tree, i, Cleared(n, which));
      ghost var rest := Owned(tree[..i] + tree[i + 1..]);
      match which {
        case AllTags =>
          ClearAllBlocks(n, rest);
          FlushValues(n.values, NodeBlocks(Cleared(n, which)) + rest);
        case Only(tag) =>
          ClearTagBlocks(n, tag, rest);
          if tag in n.values {
            FreeValue(n.values[tag], NodeBlocks(Cleared(n, which)) + rest);
          }
      }
      tree := tree[i := Cleared(n, which)];
      AddNothing(Owned(tree));
    }

    /** Makes the copy of a source, 0 as its address when there is no memory for it. */
    method MakeCopy(source: Source, memory: bool) returns (addr: nat, v: Value)
      requires CanCopy(source) && pool.Valid()
      modifies pool
      ensures pool.Valid() && v == CopyOf(source, addr)
      ensures addr != 0 <==> source.ImageOf? && memory
      ensures pool.Blocks() == old(pool.Blocks())
        + if source.ImageOf? && addr == 0 then multiset{} else ValueBlock(v)
    {
      hide Pack, Readable;
      match source {
        case PointerTo(p) =>
          addr, v := 0, Pointer(p);
        case ImageOf(b) =>
          addr := pool.Allocate(CopySize(b.width, b.height, BytesPerPixel(b)), memory);
          var buf := new Byte[b.height * RowBytes(b)];
          CopyBitmap(b, buf);
          v := Copy(addr, Packed(b.width, b.height, BytesPerPixel(b), buf[..]));
          PackIs(b);
      }
    }

    /** Adds a node without values, if there is memory for it. */
    method Insert(hash: nat, now: nat, memory: bool) returns (node: nat)
      requires UniqueKeys(tree) && Accounted(multiset{}) && IndexOf(tree, hash) == |tree|
      modifies this`tree, pool
      ensures node != 0 <==> memory
      ensures tree == if node == 0 then old(tree) else old(tree) + [Node(hash, node, now, map[])]
      ensures UniqueKeys(tree) && Accounted(multiset{})
    {
      hide Owned, NodeBlocks, ValueBlocks, Pool.Blocks, Pool.Valid;
      node := pool.Allocate(NODE_SIZE, memory);
      if node != 0 {
        var n := Node(hash, node, now, map[]);
        OwnedConcat(tree, [n]);
        OwnedOne(n);
        NewNodeBlocks(n);
        tree := tree + [n];
      }
      AddNothing(Owned(tree));
    }

    /** Replaces a value of a node by a copy of a source. */
    method Store(i: nat, source: Source, memory: bool) returns (copy: nat)
      requires i < |tree| && UniqueKeys(tree) && Accounted(multiset{}) && CanCopy(source)
      modifies this`tree, pool
      ensures copy != 0 <==> source.ImageOf? && memory
      ensures tree == old(tree)[i := Stored(old(tree)[i], source, copy)]
      ensures UniqueKeys(tree) && Accounted(multiset{})
    {
      hide Owned, NodeBlocks, ValueBlocks, ValueBlock, Pool.Blocks, Pool.Valid, CanCopy, CopyOf;
      var tag := TagOf(source);
      ClearNode(i, Only(tag));
      var n := tree[i];
      var v;
      copy, v := MakeCopy(source, memory);
      if source.PointerTo? || copy != 0 {
        var n' := n.(values := n.values[tag := v]);
        OwnedAt(tree, i, n');
        StoreBlocks(n, tag, v, Owned(tree[..i] + tree[i + 1..]));
        tree := tree[i := n'];
      }
      AddNothing(Owned(tree));
    }

    /** Stores a copy of a source as a value, in place of the one there was; a task that does
        not get the semaphore stores nothing. */
    method Set(task: nat, hash: nat, source: Source, now: nat, nodeMemory: bool, copyMemory: bool)
      returns (node: nat, copy: nat)
      requires Valid() && CanCopy(source)
      modifies this`tree, sem, pool
      ensures Valid()
      ensures Abstract() == AfterSet(old(Abstract()), task, hash, source, now, node, copy)
      ensures Available(old(sem.lock), task) && IndexOf(old(tree), hash) == |old(tree)| ==> (node != 0 <==> nodeMemory)
      ensures Available(old(sem.lock), task) && source.ImageOf? && nodeMemory ==> (copy != 0 <==> copyMemory)
    {
      hide Owned, IndexOf, UniqueKeys, CopyOf, CanCopy, Accounted;
      node, copy := 0, 0;
      var ok := sem.Attempt(task);
      if ok {
        var i := Lookup(hash, now);
        if i == |tree| {
          node := Insert(hash, now, nodeMemory);
        }
        if i < |tree| {
          copy := Store(i, source, copyMemory);
        }
        sem.Release();
      }
    }

    /** Removes values; waits until the semaphore is available. */
    method Invalidate(task: nat, hash: nat, which: Which)
      requires Valid() && Available(sem.lock, task)
      modifies this`tree, sem, pool
      ensures Valid()
      ensures Abstract() == AfterInvalidate(old(Abstract()), hash, which)
    {
      hide Owned, IndexOf, Cleared, UniqueKeys, Accounted;
      var ok := sem.Attempt(task);
      if hash != 0 {
        var i := IndexOf(tree, hash);
        if i < |tree| {
          ClearNode(i, which);
        }
      } else {
        for i := 0 to |tree|
          invariant UniqueKeys(tree) && Accounted(multiset{}) && |tree| == |old(tree)|
          invariant forall k :: 0 <= k < i ==> tree[k] == Cleared(old(tree)[k], which)
          invariant forall k :: i <= k < |tree| ==> tree[k] == old(tree)[k]
          invariant sem.Valid() && sem.lock == Taken(old(sem.lock), task) && globalStamp == old(globalStamp)
        {
          ClearNode(i, which);
        }
      }
      sem.Release();
    }

    /** Removes the node of a hash from the tree and frees it. */
    method DeleteTreeNode(key: nat, ghost frame: multiset<(nat, nat)>)
      requires UniqueKeys(tree) && Accounted(frame) && IndexOf(tree, key) < |tree|
      modifies this`tree, pool
      ensures tree == RemoveKey(old(tree), key)
      ensures UniqueKeys(tree) && Accounted(frame)
    {
      hide Owned, NodeBlocks, Pool.Blocks, Pool.Valid;
      var i := IndexOf(tree, key);
      var n := tree[i];
      OwnedAt(tree, i, n);
      Regroup(NodeBlocks(n), Owned(tree[..i] + tree[i + 1..]), frame);
      FreeNode(n, Owned(tree[..i] + tree[i + 1..]) + frame);
      tree := tree[..i] + tree[i + 1..];
    }

    /** Counts the nodes that are stale. */
    method CountUnused(threshold: nat) returns (counter: nat)
      ensures counter == |Marked(tree, threshold)|
    {
      counter := 0;
      for i := 0 to |tree|
        invariant counter == |Marked(tree[..i], threshold)|
      {
        MarkedSnoc(tree, i, threshold);
        if Stale(tree[i], threshold) {
          counter := counter + 1;
        }
      }
      assert tree[..|tree|] == tree;
    }

    /** Lists the nodes that are stale; they are as many as have been counted. */
    method MarkUnused(threshold: nat, nodes: array<nat>)
      requires nodes.Length == |Marked(tree, threshold)|
      modifies nodes
      ensures nodes[..] == Marked(tree, threshold)
    {
      var k := 0;
      for i := 0 to |tree|
        invariant k == |Marked(tree[..i], threshold)| && k <= nodes.Length
        invariant nodes[..k] == Marked(tree[..i], threshold)
      {
        MarkedSnoc(tree, i, threshold);
        MarkedPrefix(tree, i + 1, threshold);
        if Stale(tree[i], threshold) {
          nodes[k] := tree[i].key;
          k := k + 1;
        }
      }
      assert tree[..|tree|] == tree;
    }

    /** Deletes the nodes that have not been used for some time and those without values. */
    method DeleteUnused(task: nat, now: nat, memory: bool)
      requires Valid() && now < WORD
      modifies this`tree, sem, pool
      ensures Valid()
      ensures Abstract() == AfterDeleteUnused(old(Abstract()), task, now, memory)
    {
      hide Owned, UniqueKeys, Accounted, Kept, Marked;
      var ok := sem.Attempt(task);
      if ok {
        var threshold := Threshold(now);
        var counter := CountUnused(threshold);
        if counter > 0 {
          DeleteMarked(threshold, counter, memory);
        } else {
          NothingStale(tree, threshold);
        }
        sem.Release();
      }
    }

    method DeleteMarked(threshold: nat, counter: nat, memory: bool)
      requires UniqueKeys(tree) && Accounted(multiset{}) && counter == |Marked(tree, threshold)|
      modifies this`tree, pool
      ensures UniqueKeys(tree) && Accounted(multiset{})
      ensures tree == if memory then Kept(old(tree), threshold) else old(tree)
    {
      hide Owned, Kept, Marked, RemoveAll, RemoveKey, UniqueKeys, IndexOf, Pool.Valid;
      var addr := pool.Allocate(counter * 4, memory);
      AddNothing(Owned(tree));
      if addr != 0 {
        ghost var block := multiset{(addr, counter * 4)};
        var nodes := new nat[counter];
        MarkUnused(threshold, nodes);
        ghost var marked := nodes[..];
        MarkedAreThere(tree, threshold);
        for i := 0 to counter
          invariant nodes[..] == marked && UniqueKeys(tree) && Accounted(block)
          invariant AllThere(tree, marked[i..])
          invariant RemoveAll(tree, marked[i..]) == RemoveAll(old(tree), marked)
        {
          RemoveAllStep(tree, marked[i..]);
          assert marked[i..][0] == nodes[i] && marked[i..][1..] == marked[i + 1..];
          DeleteTreeNode(nodes[i], block);
        }
        RemoveMarked(old(tree), threshold);
        RemoveNone(tree, marked[counter..]);
        FreeList(Owned(tree), (addr, counter * 4));
        pool.Free(addr, counter * 4);
      }
    }

    /** The handler for low memory: frees all nodes. */
    method Flush(task: nat) returns (done: bool)
      requires Valid()
      modifies this`tree, sem, pool
      ensures Valid() && done == Available(old(sem.lock), task)
      ensures Abstract() == AfterFlush(old(Abstract()), task)
    {
      hide NodeBlocks, Pool.Blocks, Pool.Valid, IndexOf;
      done := sem.Attempt(task);
      if done {
        while |tree| > 0
          invariant UniqueKeys(tree) && Accounted(multiset{})
          invariant sem.Valid() && sem.lock == Taken(old(sem.lock), task) && globalStamp == old(globalStamp)
          decreases |tree|
        {
          FirstIsThere(tree);
          DeleteTreeNode(tree[0].key, multiset{});
        }
        sem.Release();
      }
    }
  }

  // ----- Deleting nodes ------------------------------------------------------------------------

  function RemoveKey(tree: seq<Node>, key: nat): seq<Node>
    requires IndexOf(tree, key) < |tree|
  {
    var i := IndexOf(tree, key);
    tree[..i] + tree[i + 1..]
  }

  /** The keys of the stale nodes, in the order of the tree. */
  function Marked(tree: seq<Node>, threshold: nat): seq<nat> {
    if tree == [] then []
    else (if Stale(tree[0], threshold) then [tree[0].key] else []) + Marked(tree[1..], threshold)
  }

  lemma {:induction false} MarkedConcat(a: seq<Node>, b: seq<Node>, threshold: nat)
    ensures Marked(a + b, threshold) == Marked(a, threshold) + Marked(b, threshold)
  {
    hide Stale;
    if a == [] {
      assert a + b == b;
    } else {
      assert (a + b)[0] == a[0] && (a + b)[1..] == a[1..] + b;
      MarkedFirst(a, threshold);
      MarkedFirst(a + b, threshold);
      hide Marked;
      MarkedConcat(a[1..], b, threshold);
      var first := if Stale(a[0], threshold) then [a[0].key] else [];
      Assoc(first, Marked(a[1..], threshold), Marked(b, threshold));
    }
  }

  lemma MarkedSnoc(tree: seq<Node>, i: nat, threshold: nat)
    requires i < |tree|
    ensures Marked(tree[..i + 1], threshold)
         == Marked(tree[..i], threshold) + if Stale(tree[i], threshold) then [tree[i].key] else []
  {
    assert tree[..i + 1] == tree[..i] + [tree[i]];
    MarkedConcat(tree[..i], [tree[i]], threshold);
  }

  lemma MarkedPrefix(tree: seq<Node>, i: nat, threshold: nat)
    requires i <= |tree|
    ensures |Marked(tree[..i], threshold)| <= |Marked(tree, threshold)|
  {
    assert tree == tree[..i] + tree[i..];
    MarkedConcat(tree[..i], tree[i..], threshold);
  }

  lemma {:induction false} NothingStale(tree: seq<Node>, threshold: nat)
    requires Marked(tree, threshold) == []
    ensures Kept(tree, threshold) == tree
  {
    if tree != [] {
      NothingStale(tree[1..], threshold);
    }
  }

  /** The keys are different and those of nodes. */
  ghost predicate AllThere(tree: seq<Node>, keys: seq<nat>) {
    && (forall i :: 0 <= i < |keys| ==> IndexOf(tree, keys[i]) < |tree|)
    && (forall i, j :: 0 <= i < j < |keys| ==> keys[i] != keys[j])
  }

  function RemoveAll(tree: seq<Node>, keys: seq<nat>): seq<Node>
    requires AllThere(tree, keys) && UniqueKeys(tree)
    decreases |keys|
  {
    if keys == [] then tree
    else
      RemoveNext(tree, keys);
      RemoveAll(RemoveKey(tree, keys[0]), keys[1..])
  }

  lemma RemoveNext(tree: seq<Node>, keys: seq<nat>)
    requires keys != [] && AllThere(tree, keys) && UniqueKeys(tree)
    ensures UniqueKeys(RemoveKey(tree, keys[0])) && AllThere(RemoveKey(tree, keys[0]), keys[1..])
  {
    hide IndexOf;
    var i, left := IndexOf(tree, keys[0]), RemoveKey(tree, keys[0]);
    forall j | 0 <= j < |keys[1..]|
      ensures IndexOf(left, keys[1..][j]) < |left|
    {
      assert keys[1..][j] == keys[j + 1] && keys[0] != keys[j + 1];
      var k := IndexOf(tree, keys[j + 1]);
      assert left[if k < i then k else k - 1].key == keys[j + 1];
    }
  }

  lemma RemoveAllStep(tree: seq<Node>, keys: seq<nat>)
    requires keys != [] && AllThere(tree, keys) && UniqueKeys(tree)
    ensures UniqueKeys(RemoveKey(tree, keys[0])) && AllThere(RemoveKey(tree, keys[0]), keys[1..])
    ensures RemoveAll(tree, keys) == RemoveAll(RemoveKey(tree, keys[0]), keys[1..])
  {
    hide IndexOf;
    RemoveNext(tree, keys);
  }

  lemma RemoveNone(tree: seq<Node>, keys: seq<nat>)
    requires keys == [] && UniqueKeys(tree)
    ensures AllThere(tree, keys) && RemoveAll(tree, keys) == tree
  {
  }

  lemma FirstIsThere(tree: seq<Node>)
    requires tree != []
    ensures IndexOf(tree, tree[0].key) == 0
  {
  }

  lemma {:induction false} MarkedAreThere(tree: seq<Node>, threshold: nat)
    requires UniqueKeys(tree)
    ensures AllThere(tree, Marked(tree, threshold))
  {
    if tree != [] {
      hide Stale, Marked, IndexOf;
      var keys := Marked(tree[1..], threshold);
      MarkedAreThere(tree[1..], threshold);
      MarkedFirst(tree, threshold);
      forall i | 0 <= i < |keys|
        ensures IndexOf(tree, keys[i]) < |tree| && keys[i] != tree[0].key
      {
        assert tree[1..][IndexOf(tree[1..], keys[i])].key == keys[i];
        IndexInRest(tree, keys[i]);
      }
      FirstIsThere(tree);
    } else {
      assert Marked(tree, threshold) == [];
    }
  }

  lemma IndexInRest(tree: seq<Node>, key: nat)
    requires tree != []
    ensures IndexOf(tree, key) == if tree[0].key == key then 0 else IndexOf(tree[1..], key) + 1
  {
  }

  lemma MarkedFirst(tree: seq<Node>, threshold: nat)
    requires tree != []
    ensures Marked(tree, threshold)
         == (if Stale(tree[0], threshold) then [tree[0].key] else []) + Marked(tree[1..], threshold)
  {
  }

  lemma {:induction false} RemoveAllCons(n: Node, rest: seq<Node>, keys: seq<nat>)
    requires UniqueKeys([n] + rest) && UniqueKeys(rest) && AllThere(rest, keys)
    ensures AllThere([n] + rest, keys) && RemoveAll([n] + rest, keys) == [n] + RemoveAll(rest, keys)
    decreases |keys|
  {
    hide IndexOf;
    forall i | 0 <= i < |keys|
      ensures IndexOf([n] + rest, keys[i]) == IndexOf(rest, keys[i]) + 1
    {
      assert ([n] + rest)[IndexOf(rest, keys[i]) + 1].key == keys[i];
      assert ([n] + rest)[1..] == rest;
      IndexInRest([n] + rest, keys[i]);
    }
    if keys != [] {
      RemoveNext(rest, keys);
      var i := IndexOf(rest, keys[0]);
      assert RemoveKey([n] + rest, keys[0]) == [n] + RemoveKey(rest, keys[0]);
      RemoveNext([n] + rest, keys);
      RemoveAllCons(n, RemoveKey(rest, keys[0]), keys[1..]);
    }
  }

  /** Deleting the marked nodes one by one leaves exactly those that are not stale. */
  lemma {:induction false} RemoveMarked(tree: seq<Node>, threshold: nat)
    requires UniqueKeys(tree)
    ensures AllThere(tree, Marked(tree, threshold))
    ensures RemoveAll(tree, Marked(tree, threshold)) == Kept(tree, threshold)
  {
    hide Stale, Marked, IndexOf, AllThere;
    MarkedAreThere(tree, threshold);
    if tree != [] {
      RemoveMarked(tree[1..], threshold);
      MarkedFirst(tree, threshold);
      var keys := Marked(tree[1..], threshold);
      if Stale(tree[0], threshold) {
        FirstIsThere(tree);
        assert RemoveKey(tree, tree[0].key) == tree[1..];
        assert Marked(tree, threshold)[1..] == keys;
      } else {
        assert [tree[0]] + tree[1..] == tree;
        assert [] + keys == keys;
        RemoveAllCons(tree[0], tree[1..], keys);
      }
    } else {
      assert Marked(tree, threshold) == [] by { NoneMarked(threshold); }
    }
  }

  lemma NoneMarked(threshold: nat)
    ensures Marked([], threshold) == []
  {
  }

  lemma Regroup(a: multiset<(nat, nat)>, b: multiset<(nat, nat)>, c: multiset<(nat, nat)>)
    ensures (a + b) + c == a + (b + c)
  {
  }

  lemma FreeList(m: multiset<(nat, nat)>, block: (nat, nat))
    ensures block in m + multiset{block} && (m + multiset{block}) - multiset{block} == m + multiset{}
  {
  }

  lemma AddNothing(m: multiset<(nat, nat)>)
    ensures m + multiset{} == m
  {
  }

  /** The blocks of the values for tags from number `k` on. */
  ghost function BlocksFrom(values: map<Tag, Value>, k: nat): multiset<(nat, nat)>
    requires k <= 2
    decreases 2 - k
  {
    if k == 2 then multiset{} else TagBlock(values, TagAt(k)) + BlocksFrom(values, k + 1)
  }

  lemma ValuesFirst(values: map<Tag, Value>, more: multiset<(nat, nat)>)
    ensures ValueBlocks(values) + more == BlocksFrom(values, 0) + more
  {
  }

  lemma ValuesNext(values: map<Tag, Value>, k: nat, more: multiset<(nat, nat)>)
    requires k < 2
    ensures BlocksFrom(values, k) + more
         == (if TagAt(k) in values then ValueBlock(values[TagAt(k)]) else multiset{})
          + (BlocksFrom(values, k + 1) + more)
    ensures BlocksFrom(values, 2) + more == more
  {
  }

  lemma NodeSplit(n: Node, more: multiset<(nat, nat)>)
    ensures NodeBlocks(n) + more == ValueBlocks(n.values) + (multiset{(n.addr, NODE_SIZE)} + more)
    ensures (multiset{(n.addr, NODE_SIZE)} + more) - multiset{(n.addr, NODE_SIZE)} == more
  {
  }

  lemma NewNodeBlocks(n: Node)
    requires n.values == map[]
    ensures NodeBlocks(n) == multiset{(n.addr, NODE_SIZE)}
  {
  }

  lemma ClearAllBlocks(n: Node, rest: multiset<(nat, nat)>)
    ensures (NodeBlocks(n) + rest) + multiset{} == ValueBlocks(n.values) + (NodeBlocks(Cleared(n, AllTags)) + rest)
  {
  }

  lemma ClearTagBlocks(n: Node, tag: Tag, rest: multiset<(nat, nat)>)
    ensures (NodeBlocks(n) + rest) + multiset{}
         == TagBlock(n.values, tag) + (NodeBlocks(Cleared(n, Only(tag))) + rest)
  {
  }

  lemma StoreBlocks(n: Node, tag: Tag, v: Value, rest: multiset<(nat, nat)>)
    requires tag !in n.values
    ensures ((NodeBlocks(n) + rest) + multiset{}) + ValueBlock(v) == NodeBlocks(n.(values := n.values[tag := v])) + rest
  {
  }

  lemma PackIs(b: Bitmap)
    requires Readable(b)
    ensures Pack(b) == Packed(b.width, b.height, BytesPerPixel(b), Pack(b).pixels)
  {
  }
}
