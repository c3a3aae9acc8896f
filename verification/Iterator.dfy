/** The stack iterator over a trie (fast/iterator.go): it visits the nodes in preorder,
    resolving references as it goes. */
module Iterator {
  import opened Bytes
  import opened Hex
  import opened Tree
  import opened Node
  import opened Memory
  import opened Preorder
  import opened Trie

  /** A node on the stack: the last child visited, and the length of its parent's path. */
  datatype Frame = Frame(node: Node, hash: Option<Digest>, index: int, pathlen: nat)

  datatype Status = Fine | End | MissingAt(digest: Digest) | SeekFailed(start: Blob, digest: Digest)

  // --- what is still to come ---

  /** Items below a node whose children up to `index` have been visited. */
  ghost function RestOf(t: Tree, index: int, path: Key): seq<Item> {
    match t
    case Ext(k, s) => if index < 0 then Pre(s, path + k) else []
    case Branch(kids) => if |kids| == 17 && index >= -1 then KidsFrom(kids, index + 1, path) else []
    case _ => []
  }

  ghost function Rest(stack: seq<Frame>, trees: seq<Tree>, path: Key): seq<Item>
    requires |stack| == |trees|
    decreases |stack|
  {
    if stack == [] then []
    else
      var n := |stack| - 1;
      RestOf(trees[n], stack[n].index, path) + Rest(stack[..n], trees[..n], Trim(path, stack[n].pathlen))
  }

  function Trim(path: Key, n: nat): Key { if n <= |path| then path[..n] else path }

  // --- the invariant ---

  /** The trie being iterated: hash function, blobs of the run, store, and whether everything
      can be loaded. */
  datatype Env = Env(h: Hasher, u: iset<Blob>, db: Store, full: bool)

  ghost predicate EnvOk(e: Env) { Universe(e.h, e.u) && Addressed(e.h, e.u, e.db) }

  /** The hash shown for a node, if any, is its own; embedded nodes show none. */
  ghost predicate HashSound(h: Hasher, hash: Option<Digest>, t: Tree, top: bool) {
    hash.Some? ==> Inner(t) && hash.value == h(Enc(h, t)) && (top || Hashed(h, t))
  }

  /** A node stored under its hash shows it. So does the root, whatever its size, unless its
      hash is the one of the empty trie. */
  ghost predicate HashShown(h: Hasher, hash: Option<Digest>, t: Tree, top: bool) {
    (if top then Inner(t) && RootHash(h, t) != RootHash(h, Empty) else Hashed(h, t)) ==> hash.Some?
  }

  ghost predicate FrameOk(e: Env, f: Frame, t: Tree, top: bool) {
    && Repr(e.h, f.node, t, top) && !f.node.HashRef? && Within(e.h, e.u, t) && Cached(e.h, f.node, t)
    && (Canon(t) || LeafOk(t)) && f.index >= -1
    && HashSound(e.h, f.hash, t, top) && HashShown(e.h, f.hash, t, top)
    && (e.full ==> Avail(e.h, e.db, f.node, t, top))
  }

  /** `t` is the child last visited of `parent`. */
  ghost predicate ChildAt(parent: Tree, index: int, t: Tree, path: Key, childPath: Key) {
    match parent
    case Ext(k, s) => index == 0 && t == s && childPath == path + k
    case Branch(kids) => |kids| == 17 && 0 <= index < 17 && t == kids[index] && childPath == path + [index]
    case _ => false
  }

  ghost predicate Chain(e: Env, stack: seq<Frame>, trees: seq<Tree>, path: Key)
    decreases |stack|
  {
    && |stack| == |trees|
    && (stack == [] ==> path == [])
    && (stack != [] ==>
          var n := |stack| - 1;
          && FrameOk(e, stack[n], trees[n], n == 0) && stack[n].pathlen <= |path|
          && Chain(e, stack[..n], trees[..n], path[..stack[n].pathlen])
          && (n == 0 ==> path == [])
          && (n > 0 ==> ChildAt(trees[n - 1], stack[n - 1].index, trees[n], path[..stack[n].pathlen], path)))
  }

  lemma ChainPop(e: Env, stack: seq<Frame>, trees: seq<Tree>, path: Key)
    requires Chain(e, stack, trees, path) && stack != []
    ensures var n := |stack| - 1;
      && stack[n].pathlen <= |path|
      && Chain(e, stack[..n], trees[..n], path[..stack[n].pathlen])
      && Rest(stack, trees, path) ==
          RestOf(trees[n], stack[n].index, path) + Rest(stack[..n], trees[..n], path[..stack[n].pathlen])
  {}

  /** Only the index of the top frame matters to what its own children leave behind. */
  lemma ChainIndex(e: Env, stack: seq<Frame>, trees: seq<Tree>, path: Key, index: int)
    requires Chain(e, stack, trees, path) && stack != [] && index >= -1
    ensures var n := |stack| - 1; var stack' := stack[n := stack[n].(index := index)];
      && stack'[..n] == stack[..n]
      && Chain(e, stack', trees, path)
      && Rest(stack', trees, path) ==
          RestOf(trees[n], index, path) + Rest(stack[..n], trees[..n], path[..stack[n].pathlen])
  {
    var n := |stack| - 1;
    assert stack[n := stack[n].(index := index)][..n] == stack[..n];
  }

  lemma ChainPush(e: Env, stack: seq<Frame>, trees: seq<Tree>, path: Key, f: Frame, t: Tree, childPath: Key)
    requires Chain(e, stack, trees, path) && FrameOk(e, f, t, stack == []) && f.pathlen == |path| && f.index == -1
    requires stack == [] ==> childPath == []
    requires stack != [] ==>
      path <= childPath && ChildAt(trees[|stack| - 1], stack[|stack| - 1].index, t, path, childPath)
    ensures Chain(e, stack + [f], trees + [t], childPath)
    ensures Rest(stack + [f], trees + [t], childPath) == Below(t, childPath) + Rest(stack, trees, path)
  {
    var n := |stack|;
    assert (stack + [f])[..n] == stack && (trees + [t])[..n] == trees;
    assert childPath[..|path|] == path;
  }

  /** The next child of a full node, past empty slots. */
  lemma {:induction false} KidsSkip(kids: seq<Tree>, from: nat, i: nat, path: Key)
    requires |kids| == 17 && from <= i <= 17 && forall j :: from <= j < i ==> kids[j].Empty?
    ensures KidsFrom(kids, from, path) == KidsFrom(kids, i, path)
    decreases i - from
  {
    if from < i { KidsSkip(kids, from + 1, i, path); }
  }

  // --- the iterator ---

  class NodeIterator {
    const h: Hasher
    const db: Store
    const root: Node
    const rootHash: Option<Digest>
    ghost const e: Env
    ghost const tree: Tree
    var stack: seq<Frame>
    var path: Key
    var err: Status
    ghost var trees: seq<Tree>
    ghost var moves: nat          // nodes visited so far

    ghost predicate Valid() reads this {
      && e.h == h && e.db == db && EnvOk(e)
      && |stack| == |trees| && Canon(tree) && Within(h, e.u, tree) && Repr(h, root, tree, true) && Cached(h, root, tree)
      && (e.full ==> Avail(h, db, root, tree, true))
      && HashSound(h, rootHash, tree, true) && HashShown(h, rootHash, tree, true)
      && Chain(e, stack, trees, path) && (stack != [] ==> trees[0] == tree)
    }

    /** What the iterator has not visited yet. */
    ghost function Todo(): seq<Item>
      requires |stack| == |trees|
      reads this
    {
      if err.End? then [] else if stack == [] then Pre(tree, []) else Rest(stack, trees, path)
    }

    /** The same without what lies below the current node. */
    ghost function TodoSkip(): seq<Item>
      requires |stack| == |trees|
      reads this
    {
      if err.End? then [] else if stack == [] then Pre(tree, [])
      else
        var n := |stack| - 1;
        Rest(stack[..n], trees[..n], Trim(path, stack[n].pathlen))
    }

    /** The node the iterator is at. */
    ghost function Current(): Item
      requires |stack| == |trees| && stack != []
      reads this
    {
      Item(path, trees[|trees| - 1])
    }

    constructor (h: Hasher, db: Store, root: Node, rootHash: Option<Digest>, ghost e: Env, ghost tree: Tree)
      requires e.h == h && e.db == db && EnvOk(e) && Canon(tree) && Within(h, e.u, tree) && Repr(h, root, tree, true)
      requires e.full ==> Avail(h, db, root, tree, true)
      requires Cached(h, root, tree) && HashSound(h, rootHash, tree, true) && HashShown(h, rootHash, tree, true)
      ensures Valid() && fresh(this) && stack == [] && err == Fine && this.e == e && this.tree == tree
    {
      this.h, this.db, this.root, this.rootHash, this.e, this.tree := h, db, root, rootHash, e, tree;
      stack, path, err, trees, moves := [], [], Fine, [], 0;
    }

    method Pop()
      requires Valid() && stack != []
      modifies this`stack, this`path, this`trees
      ensures Valid() && |stack| == |old(stack)| - 1
      ensures path == old(Trim(path, stack[|stack| - 1].pathlen)) && path <= old(path)
      ensures Rest(stack, trees, path) ==
        old(Rest(stack[..|stack| - 1], trees[..|stack| - 1], Trim(path, stack[|stack| - 1].pathlen)))
    {
      hide Rest, Chain, Canon, Repr;
      ChainPop(e, stack, trees, path);
      var parent := stack[|stack| - 1];
      path := path[..parent.pathlen];
      trees := trees[..|stack| - 1];
      stack := stack[..|stack| - 1];
    }

    /** Finds the next child of the node on top without moving to it. */
    method NextChild() returns (ok: bool, f: Frame, ghost t: Tree, childPath: Key)
      requires Valid() && stack != []
      modifies this`stack
      ensures Valid() && |stack| == |old(stack)| && Rest(stack, trees, path) == old(Rest(stack, trees, path))
      ensures ok ==> NextIs(e, trees[|stack| - 1], stack[|stack| - 1].index, path, f, t, childPath)
      ensures !ok ==> RestOf(trees[|stack| - 1], stack[|stack| - 1].index, path) == []
    {
      hide Chain, Rest, RestOf, FrameOk, Canon, Repr, NextIs;
      var n := |stack| - 1;
      TopFrame(e, stack, trees, path);
      ChainIndex(e, stack, trees, path, stack[n].index);
      assert stack[n := stack[n].(index := stack[n].index)] == stack;
      var index;
      ok, index, f, t, childPath := ChildAfter(e, stack[n], trees[n], path, n == 0);
      if ok {
        ChainIndex(e, stack, trees, path, index);
        stack := stack[n := stack[n].(index := index)];
      }
    }

    /** Loads the node of a frame if it is a reference, which then shows its hash. */
    method ResolveFrame(f0: Frame, ghost t: Tree, ghost top: bool) returns (f: Frame, err: Option<Digest>)
      requires e.h == h && e.db == db && EnvOk(e) && f0.index >= -1
      requires Repr(h, f0.node, t, top) && Within(h, e.u, t) && (Canon(t) || LeafOk(t))
      requires Cached(h, f0.node, t) && HashSound(h, f0.hash, t, top)
      requires f0.node.HashRef? || HashShown(h, f0.hash, t, top)
      requires e.full ==> Avail(h, db, f0.node, t, top)
      ensures err.None? ==> FrameOk(e, f, t, top) && f.index == f0.index && f.pathlen == f0.pathlen
      ensures err.None? ==> f.hash == if f0.node.HashRef? then Some(f0.node.digest) else f0.hash
      ensures err.Some? ==> err.value !in db && !e.full
      ensures err.Some? <==> f0.node.HashRef? && f0.node.digest !in db
    {
      hide Enc, Hashed;
      f, err := f0, None;
      if f0.node.HashRef? {
        var n;
        n, err := LoadNode(h, e.u, db, 0, f0.node.digest, t, top);
        if err.None? { f := f0.(node := n, hash := Some(f0.node.digest)); }
      }
    }

    /** The root has been unloaded and is not in the store. */
    predicate RootMissing() { root.HashRef? && root.digest !in db }

    /** The next node has been found and loaded: `f` stands for `t` at `newPath`. */
    ghost predicate Ready(f: Frame, t: Tree, newPath: Key)
      requires |stack| == |trees|
      reads this
    {
      && f.index == -1 && f.pathlen == |path| && FrameOk(e, f, t, stack == []) && !err.End?
      && (stack == [] ==> newPath == [] && t == tree)
      && (stack != [] ==> NextIs(e, trees[|stack| - 1], stack[|stack| - 1].index, path, f, t, newPath))
    }

    /** Finds the next node and loads it, popping finished frames, but does not move to it yet. */
    method Peek(descend: bool) returns (f: Frame, ghost t: Tree, newPath: Key, res: Status)
      requires Valid() && !err.End?
      modifies this`stack, this`path, this`trees
      ensures Valid() && (stack == [] || path <= old(path))
      ensures !descend && old(stack) != [] && stack != [] ==> path <= old(Trim(path, stack[|stack| - 1].pathlen))
      ensures res.End? ==> old(Upcoming(descend)) == [] && stack == []
      ensures !res.SeekFailed?
      ensures !res.End? ==> Todo() == old(Upcoming(descend)) && (stack == [] <==> old(stack) == [])
      ensures res.MissingAt? ==> res.digest !in db && !e.full
      ensures old(stack) == [] ==> (res.MissingAt? <==> RootMissing()) && !res.End?
      ensures res.Fine? ==> Ready(f, t, newPath)
    {
      hide Chain, Rest, Pre, Canon, Repr, NextIs, FrameOk, Within, Avail, Enc;
      if stack == [] {
        f, res := PeekRoot();
        newPath, t := [], tree;
      } else {
        if !descend { Pop(); }
        f, t, newPath, res := PeekNext();
      }
    }

    method PeekRoot() returns (f: Frame, res: Status)
      requires Valid() && stack == [] && !err.End?
      ensures res.Fine? || (res.MissingAt? && res.digest !in db && !e.full)
      ensures res.MissingAt? <==> RootMissing()
      ensures res.Fine? ==> Ready(f, tree, [])
    {
      hide Canon, Repr, NextIs, FrameOk, Within, Avail, Enc;
      EmptyChain(e, stack, trees, path);
      res := Fine;
      f := Frame(root, rootHash, -1, 0);
      var miss;
      f, miss := ResolveFrame(f, tree, true);
      if miss.Some? { res := MissingAt(miss.value); }
    }

    /** The next node below or behind the top of the stack. */
    method PeekNext() returns (f: Frame, ghost t: Tree, newPath: Key, res: Status)
      requires Valid() && !err.End?
      modifies this`stack, this`path, this`trees
      ensures Valid() && path <= old(path)
      ensures res.End? ==> old(Rest(stack, trees, path)) == [] && stack == []
      ensures !res.SeekFailed?
      ensures !res.End? ==> stack != [] && Rest(stack, trees, path) == old(Rest(stack, trees, path))
      ensures res.MissingAt? ==> res.digest !in db && !e.full
      ensures res.Fine? ==> Ready(f, t, newPath)
    {
      hide Chain, Rest, RestOf, Canon, Repr, NextIs, FrameOk, Within, Avail, Enc;
      res, newPath, t := Fine, [], tree;
      while stack != []
        invariant Valid() && path <= old(path)
        invariant Rest(stack, trees, path) == old(Rest(stack, trees, path))
        decreases |stack|
      {
        var ok, miss;
        ok, f, t, newPath := NextChild();
        if ok {
          NextOpen(e, trees[|stack| - 1], stack[|stack| - 1].index, path, f, t, newPath);
          var f0 := f;
          f, miss := ResolveFrame(f0, t, false);
          if miss.Some? {
            res := MissingAt(miss.value);
          } else {
            NextLoaded(e, trees[|stack| - 1], stack[|stack| - 1].index, path, f0, f, t, newPath);
          }
          return;
        }
        ChainPop(e, stack, trees, path);
        Pop();
      }
      RestNone(stack, trees, path);
      f, res := Frame(Nil, None, -1, 0), End;
    }

    /** What a peek will find first, and everything behind it. */
    ghost function Upcoming(descend: bool): seq<Item>
      requires |stack| == |trees|
      reads this
    {
      if descend then Todo() else TodoSkip()
    }

    /** Moves to the node found. */
    method Push(f: Frame, ghost t: Tree, newPath: Key)
      requires Valid() && Ready(f, t, newPath)
      modifies this`stack, this`path, this`trees
      ensures Valid() && stack != [] && Current() == Item(newPath, t)
      ensures old(Todo()) == [Item(newPath, t)] + Todo()
      ensures Todo() == Below(t, newPath) + TodoSkip()
      ensures stack[|stack| - 1].hash == f.hash && Trim(path, stack[|stack| - 1].pathlen) == old(path)
    {
      hide Chain, Canon, Repr, RestOf, Rest, Pre, Below, FrameOk, NextIs;
      if stack == [] {
        EmptyChain(e, stack, trees, path);
        PushedRoot(e, f, t);
      } else {
        Pushed(e, stack, trees, path, f, t, newPath);
        var n := |stack| - 1;
        stack := stack[n := stack[n].(index := stack[n].index + 1)];
      }
      stack, trees, path := stack + [f], trees + [t], newPath;
    }

    /** Moves to the next node; with `descend` false, past everything below the current one. A
        failed seek is tried again first. */
    method Next(descend: bool) returns (ok: bool)
      requires Consistent()
      modifies this
      ensures Consistent()
      ensures ok ==> err == Fine && stack != [] && Todo() == Below(Current().tree, path) + TodoSkip()
      ensures ok && !old(err).SeekFailed? ==> old(Upcoming(descend)) == [Current()] + Todo()
      ensures ok && old(err).SeekFailed? && descend ==> old(Sought()) == [Current()] + Todo()
      ensures !ok ==> err.End? || !e.full
      ensures !ok && err.End? && !old(err).SeekFailed? ==> old(Upcoming(descend)) == []
      ensures !ok && err.End? && old(err).SeekFailed? && descend ==> old(Sought()) == []
      ensures !ok && err.MissingAt? && !old(err).SeekFailed? ==> Todo() == old(Upcoming(descend))
      ensures old(err).MissingAt? && old(stack) == [] && RootMissing() ==> !ok && err.MissingAt?
      ensures !old(err).SeekFailed? && old(stack) == [] && err.MissingAt? ==> RootMissing()
      ensures !old(err).SeekFailed? ==> !err.SeekFailed? && (!ok ==> !err.Fine? && (old(stack) == [] ==> stack == []))
      ensures old(err).Fine? && err.End? ==> stack == []
      ensures moves == old(moves) + if ok then 1 else 0
    {
      hide Chain, Rest, Pre, Below, Canon, Repr, Within, Avail, Enc, Trim, AtLeast, Nibbles;
      if err.SeekFailed? {
        err := Seek(err.start);
        if !err.Fine? { return false; }
      }
      ok := Move(descend);
    }

    /** What a seek that failed was looking for. */
    ghost function Sought(): seq<Item> reads this {
      if err.SeekFailed? then AtLeast(Pre(tree, []), Nibbles(err.start)) else []
    }

    ghost predicate Consistent() reads this {
      Valid() && (err.SeekFailed? ==> Seeking(Nibbles(err.start)))
    }

    method Move(descend: bool) returns (ok: bool)
      requires Valid() && !err.SeekFailed?
      modifies this
      ensures Valid() && !err.SeekFailed?
      ensures ok ==> err == Fine && stack != [] && old(Upcoming(descend)) == [Current()] + Todo()
      ensures ok ==> Todo() == Below(Current().tree, path) + TodoSkip()
      ensures !ok ==> err.End? || err.MissingAt?
      ensures !ok && err.End? ==> old(Upcoming(descend)) == []
      ensures !ok && err.MissingAt? ==> err.digest !in db && !e.full && Todo() == old(Upcoming(descend))
      ensures !ok && old(stack) == [] ==> stack == []
      ensures !ok && !old(err).End? && err.End? ==> stack == []
      ensures old(stack) == [] && !old(err).End? ==> !err.End? && (err.MissingAt? <==> RootMissing())
      ensures moves == old(moves) + if ok then 1 else 0
    {
      hide Chain, Rest, Pre, Below, Canon, Repr, NextIs, FrameOk, Within, Avail, Enc, Trim;
      if err.End? { return false; }
      var f, newPath, res;
      ghost var t;
      f, t, newPath, res := Peek(descend);
      err := res;
      if res != Fine { return false; }
      Push(f, t, newPath);
      moves := moves + 1;
      ok := true;
    }

    /** At a leaf, the node on top of the stack holds its value. */
    lemma TopIs()
      requires Valid() && stack != []
      ensures var n := |stack| - 1;
        trees[n].Leaf? ==> stack[n].node.Value? && stack[n].node.blob == trees[n].value
    {}

    /** A node found by a peek is the first one to come. */
    lemma ReadyHead(f: Frame, t: Tree, newPath: Key)
      requires Valid() && Ready(f, t, newPath)
      ensures Todo() != [] && Todo()[0] == Item(newPath, t)
    {
      if stack != [] { Pushed(e, stack, trees, path, f, t, newPath); }
    }

    /** Where a seek stands: nothing at or above `key` has been passed, and every open node
        except possibly the last lies on the way to `key`. */
    ghost predicate Seeking(key: Key)
      requires |stack| == |trees|
      reads this
    {
      && AtLeast(Upcoming(path <= key), key) == AtLeast(Pre(tree, []), key)
      && (stack != [] ==> Trim(path, stack[|stack| - 1].pathlen) <= key)
    }

    /** Advances to just before the first node whose path is not below the nibbles of `prefix`. */
    method Seek(prefix: Blob) returns (res: Status)
      requires Valid() && !err.End? && Seeking(Nibbles(prefix))
      modifies this`stack, this`path, this`trees
      ensures Valid() && !res.MissingAt?
      ensures res.End? ==> AtLeast(Pre(tree, []), Nibbles(prefix)) == [] && stack == []
      ensures res.Fine? ==> Todo() == AtLeast(Pre(tree, []), Nibbles(prefix))
      ensures res.SeekFailed? ==> res.start == prefix && res.digest !in db && !e.full && Seeking(Nibbles(prefix))
      ensures prefix == [] && old(stack) == [] ==> stack == []
    {
      hide Chain, Rest, Pre, Below, Canon, Repr, NextIs, FrameOk, Within, Avail, Enc, AtLeast, Less, Nibbles;
      var hex := KeybytesToHex(prefix);
      var key := hex[..|hex| - 1];
      assert key == Nibbles(prefix);
      NibblesEmpty();
      while true
        invariant Valid() && Seeking(key)
        invariant prefix == [] && old(stack) == [] ==> stack == []
        decreases |Upcoming(path <= key)|
      {
        var more;
        more, res := SeekStep(key, prefix);
        if !more { return; }
      }
    }

    /** One round of the seek: look at the next node, and enter it if it is below the key. */
    method SeekStep(key: Key, prefix: Blob) returns (more: bool, res: Status)
      requires Valid() && !err.End? && Seeking(key)
      modifies this`stack, this`path, this`trees
      ensures Valid() && !res.MissingAt?
      ensures more ==> Seeking(key) && |Upcoming(path <= key)| < |old(Upcoming(path <= key))|
      ensures !more && res.End? ==> AtLeast(Pre(tree, []), key) == [] && stack == []
      ensures !more && res.Fine? ==> Todo() == AtLeast(Pre(tree, []), key)
      ensures !more && res.SeekFailed? ==> res.start == prefix && res.digest !in db && !e.full && Seeking(key)
      ensures key == [] ==> !more
      ensures !more && old(stack) == [] ==> stack == []
    {
      hide Chain, Rest, Pre, Below, Canon, Repr, NextIs, FrameOk, Within, Avail, Enc, AtLeast, Less;
      ghost var todo := Upcoming(path <= key);
      AtLeastHead(todo, key);
      var f, newPath, r;
      ghost var t;
      f, t, newPath, r := Peek(path <= key);
      if r.End? { return false, End; }
      assert stack != [] ==> path <= key;
      if r.MissingAt? { return false, SeekFailed(prefix, r.digest); }
      ReadyHead(f, t, newPath);
      NothingBelow(newPath);
      if !Less(newPath, key) { return false, Fine; }
      SeekEnter(f, t, newPath, key);
      return true, Fine;
    }

    /** Enters a node below the key. */
    method SeekEnter(f: Frame, ghost t: Tree, newPath: Key, key: Key)
      requires Valid() && !err.End? && Ready(f, t, newPath) && Less(newPath, key) && (stack != [] ==> path <= key)
      requires Todo() != [] && AtLeast(Todo()[1..], key) == AtLeast(Pre(tree, []), key)
      modifies this`stack, this`path, this`trees
      ensures Valid() && Seeking(key) && |Upcoming(path <= key)| < |old(Todo())|
    {
      hide Chain, Rest, Pre, Below, Canon, Repr, NextIs, FrameOk, Within, Avail, Enc, AtLeast, Less, Trim, Universe,
        Addressed, Cached, HashSound, HashShown;
      ghost var todo := Todo();
      TopPath();
      Push(f, t, newPath);
      SeekOn(t, newPath, todo, Todo(), TodoSkip(), key);
    }

    lemma TopPath()
      requires Valid()
      ensures stack == [] ==> path == []
    {}
  }

  /** What is left to seek in after entering a node below the key. */
  lemma SeekOn(t: Tree, p: Key, todo: seq<Item>, tail: seq<Item>, skip: seq<Item>, key: Key)
    requires Less(p, key) && todo == [Item(p, t)] + tail && tail == Below(t, p) + skip
    ensures todo[1..] == tail && AtLeast(if p <= key then tail else skip, key) == AtLeast(tail, key)
    ensures |if p <= key then tail else skip| < |todo|
  {
    hide Below, Less, AtLeast;
    Cons(Item(p, t), tail);
    SkipBelow(t, p, skip, key);
  }

  lemma NothingBelow(p: Key)
    ensures !Less(p, [])
  {}

  lemma NibblesEmpty()
    ensures Nibbles([]) == []
  {}

  /** What remains from the first item that is not below `key`. */
  function AtLeast(s: seq<Item>, key: Key): seq<Item> {
    if s == [] || !Less(s[0].path, key) then s else AtLeast(s[1..], key)
  }

  lemma AtLeastHead(s: seq<Item>, key: Key)
    ensures s == [] ==> AtLeast(s, key) == []
    ensures s != [] && !Less(s[0].path, key) ==> AtLeast(s, key) == s
    ensures s != [] && Less(s[0].path, key) ==> AtLeast(s, key) == AtLeast(s[1..], key)
  {}

  /** Nothing at or above `key` lies below a node that is itself below `key` and not on the way to it. */
  lemma SkipBelow(t: Tree, p: Key, rest: seq<Item>, key: Key)
    requires Less(p, key)
    ensures !(p <= key) ==> AtLeast(Below(t, p) + rest, key) == AtLeast(rest, key)
  {
    if !(p <= key) {
      var below := Below(t, p);
      PreUnder(t, p);
      forall i | 0 <= i < |below| ensures Less(below[i].path, key) {
        assert p <= below[i].path;
        assert below[i].path == p + below[i].path[|p|..];
        LessUnder(p, below[i].path[|p|..], key);
      }
      AtLeastSkip(below, rest, key);
    }
  }

  lemma {:induction false} AtLeastSkip(a: seq<Item>, b: seq<Item>, key: Key)
    requires forall i :: 0 <= i < |a| ==> Less(a[i].path, key)
    ensures AtLeast(a + b, key) == AtLeast(b, key)
  {
    if a == [] {
      assert a + b == b;
    } else {
      assert (a + b)[0] == a[0] && (a + b)[1..] == a[1..] + b;
      AtLeastSkip(a[1..], b, key);
    }
  }

  /** The stack with the top frame moved on to its next child, and that child on top. */
  function PushOn(stack: seq<Frame>, f: Frame): seq<Frame> {
    if stack == [] then stack + [f]
    else var n := |stack| - 1; stack[n := stack[n].(index := stack[n].index + 1)] + [f]
  }

  lemma PushedRoot(e: Env, f: Frame, t: Tree)
    requires FrameOk(e, f, t, true) && f.pathlen == 0 && f.index == -1
    ensures Chain(e, [] + [f], [] + [t], [])
    ensures ([] + [f])[..0] == [] && ([] + [t])[..0] == []
    ensures Pre(t, []) == [Item([], t)] + Rest([] + [f], [] + [t], [])
    ensures Rest([] + [f], [] + [t], []) == Below(t, []) + Rest([], [], [])
  {
    ChainPush(e, [], [], [], f, t, []);
    assert Below(t, []) + [] == Below(t, []);
  }

  lemma Pushed(e: Env, stack: seq<Frame>, trees: seq<Tree>, path: Key, f: Frame, t: Tree, newPath: Key)
    requires Chain(e, stack, trees, path) && stack != [] && FrameOk(e, f, t, false)
    requires |stack| == |trees| && NextIs(e, trees[|stack| - 1], stack[|stack| - 1].index, path, f, t, newPath)
    ensures var n := |stack|; var stack' := PushOn(stack, f); var trees' := trees + [t];
      && |stack'| == n + 1 && stack'[n] == f && trees'[n] == t && trees'[..n] == trees
      && Chain(e, stack', trees', newPath)
      && Trim(newPath, f.pathlen) == path
      && Rest(stack, trees, path) == [Item(newPath, t)] + Rest(stack', trees', newPath)
      && Rest(stack', trees', newPath) == Below(t, newPath) + Rest(stack'[..n], trees, path)
  {
    hide Chain, Rest, RestOf, Pre, Below, FrameOk;
    var n := |stack|;
    var i := stack[n - 1].index;
    var moved := stack[n - 1 := stack[n - 1].(index := i + 1)];
    ChainPop(e, stack, trees, path);
    ChainIndex(e, stack, trees, path, i + 1);
    var below := Rest(stack[..n - 1], trees[..n - 1], path[..stack[n - 1].pathlen]);
    PushRest(t, newPath, RestOf(trees[n - 1], i + 1, path), below);
    ChainPush(e, moved, trees, path, f, t, newPath);
    assert (moved + [f])[..n] == moved && (trees + [t])[..n] == trees;
    assert newPath[..|path|] == path;
  }

  lemma EmptyChain(e: Env, stack: seq<Frame>, trees: seq<Tree>, path: Key)
    requires Chain(e, stack, trees, path) && stack == []
    ensures path == [] && trees == []
  {}

  lemma RestNone(stack: seq<Frame>, trees: seq<Tree>, path: Key)
    requires stack == [] && trees == []
    ensures Rest(stack, trees, path) == []
  {}

  lemma NextOpen(e: Env, top: Tree, index: int, path: Key, f: Frame, t: Tree, childPath: Key)
    requires NextIs(e, top, index, path, f, t, childPath)
    ensures f.index == -1 && f.pathlen == |path| && Repr(e.h, f.node, t, false) && Within(e.h, e.u, t)
    ensures (Canon(t) || LeafOk(t)) && Cached(e.h, f.node, t) && HashSound(e.h, f.hash, t, false)
    ensures f.node.HashRef? || HashShown(e.h, f.hash, t, false)
    ensures e.full ==> Avail(e.h, e.db, f.node, t, false)
  {}

  lemma NextLoaded(e: Env, top: Tree, index: int, path: Key, f0: Frame, f: Frame, t: Tree, childPath: Key)
    requires NextIs(e, top, index, path, f0, t, childPath) && FrameOk(e, f, t, false)
    requires f.index == f0.index && f.pathlen == f0.pathlen
    ensures NextIs(e, top, index, path, f, t, childPath)
  {}

  lemma PushRest(t: Tree, p: Key, kids: seq<Item>, below: seq<Item>)
    ensures (Pre(t, p) + kids) + below == [Item(p, t)] + (Below(t, p) + (kids + below))
  {
    var x, b := [Item(p, t)], Below(t, p);
    Assoc(x, b, kids);
    Assoc(x, b + kids, below);
    Assoc(b, kids, below);
  }

  /** First child from `from` on that is not empty, or 17. */
  method FindChild(cs: seq<Node>, from: nat) returns (i: nat)
    requires |cs| == 17 && from <= 17
    ensures from <= i <= 17 && (i < 17 ==> !cs[i].Nil?)
    ensures forall j :: from <= j < i ==> cs[j].Nil?
  {
    i := from;
    while i < 17 && cs[i].Nil?
      invariant from <= i <= 17
      invariant forall j :: from <= j < i ==> cs[j].Nil?
    {
      i := i + 1;
    }
  }

  /** The child of `top` after `index`, and what comes behind it. */
  ghost predicate NextIs(e: Env, top: Tree, index: int, path: Key, f: Frame, t: Tree, childPath: Key) {
    && index >= -1 && f.pathlen == |path| && f.index == -1 && path <= childPath
    && ChildAt(top, index + 1, t, path, childPath) && !t.Empty?
    && RestOf(top, index, path) == Pre(t, childPath) + RestOf(top, index + 1, path)
    && ChildOk(e, f, t)
  }

  /** Next child of one frame; `index` is where the frame stands afterwards, still in front of it. */
  method ChildAfter(ghost e: Env, parent: Frame, ghost top: Tree, path: Key, ghost isRoot: bool)
    returns (ok: bool, index: int, f: Frame, ghost t: Tree, childPath: Key)
    requires FrameOk(e, parent, top, isRoot)
    ensures ok ==>
      RestOf(top, parent.index, path) == RestOf(top, index, path) && NextIs(e, top, index, path, f, t, childPath)
    ensures !ok ==> RestOf(top, parent.index, path) == []
    ensures index >= -1
  {
    hide Enc, Hashed, Canon, Pre;
    ok, index, f, t, childPath := false, parent.index, parent, top, path;
    match parent.node
    case Full(cs, _) =>
      FullTop(e, parent, top, isRoot);
      if parent.index + 1 <= 17 {
        var i := FindChild(cs, parent.index + 1);
        KidsSkip(top.kids, parent.index + 1, i, path);
        if i < 17 {
          ok, index, childPath := true, i as int - 1, path + [i];
          f, t := Frame(cs[i], CachedHash(cs[i]), -1, |path|), top.kids[i];
        }
      }
    case Short(k, c, _) =>
      if parent.index < 0 {
        ShortTop(e, parent, top, isRoot);
        ok, childPath := true, path + k;
        f, t := Frame(c, CachedHash(c), -1, |path|), top.sub;
        assert Pre(t, childPath) + [] == Pre(t, childPath);
      }
    case _ =>
  }

  /** The hash a child carries in its flags; references show theirs once resolved. */
  function CachedHash(n: Node): Option<Digest> {
    if n.Short? || n.Full? then n.flags.hash else None
  }

  /** A child not yet resolved. */
  ghost predicate ChildOk(e: Env, f: Frame, t: Tree) {
    && Repr(e.h, f.node, t, false) && Within(e.h, e.u, t) && Cached(e.h, f.node, t)
    && (Canon(t) || LeafOk(t)) && f.index >= -1
    && HashSound(e.h, f.hash, t, false) && (f.node.HashRef? || HashShown(e.h, f.hash, t, false))
    && (e.full ==> Avail(e.h, e.db, f.node, t, false))
  }

  lemma TopFrame(e: Env, stack: seq<Frame>, trees: seq<Tree>, path: Key)
    requires Chain(e, stack, trees, path) && stack != []
    ensures var n := |stack| - 1; stack[n].index >= -1 && FrameOk(e, stack[n], trees[n], n == 0)
  {}

  /** Only the root has the empty path. */
  lemma DeeperPath(e: Env, stack: seq<Frame>, trees: seq<Tree>, path: Key)
    requires Chain(e, stack, trees, path)
    ensures |stack| == 1 ==> path == []
    ensures |stack| > 1 ==> path != []
  {
    hide Repr, Within, Avail, Cached, HashSound, HashShown, Enc;
    if |stack| > 1 {
      var n := |stack| - 1;
      ChainPop(e, stack, trees, path);
      TopFrame(e, stack[..n], trees[..n], path[..stack[n].pathlen]);
    }
  }

  lemma KidOpen(e: Env, c: Node, t: Tree)
    requires Repr(e.h, c, t, false) && Within(e.h, e.u, t) && Cached(e.h, c, t) && (Canon(t) || LeafOk(t))
    requires e.full ==> Avail(e.h, e.db, c, t, false)
    ensures ChildOk(e, Frame(c, CachedHash(c), -1, 0), t)
  {
    hide Enc, Canon, Within, Avail;
  }

  lemma FullTop(e: Env, f: Frame, t: Tree, top: bool)
    requires FrameOk(e, f, t, top) && f.node.Full?
    ensures t.Branch? && |t.kids| == 17 == |f.node.children|
    ensures forall i :: 0 <= i < 17 ==>
      ChildOk(e, Frame(f.node.children[i], CachedHash(f.node.children[i]), -1, 0), t.kids[i])
    ensures forall i :: 0 <= i < 17 ==> (f.node.children[i].Nil? <==> t.kids[i].Empty?)
  {
    hide Enc, Hashed;
    var cs := f.node.children;
    assert CachedBelow(e.h, f.node, t);
    forall i | 0 <= i < 17 ensures ChildOk(e, Frame(cs[i], CachedHash(cs[i]), -1, 0), t.kids[i]) {
      assert Repr(e.h, cs[i], t.kids[i], false) && Within(e.h, e.u, t.kids[i]) && Cached(e.h, cs[i], t.kids[i]);
      KidOpen(e, cs[i], t.kids[i]);
    }
  }

  lemma ShortTop(e: Env, f: Frame, t: Tree, top: bool)
    requires FrameOk(e, f, t, top) && f.node.Short?
    ensures t.Ext? && t.key == f.node.key && !t.sub.Empty?
    ensures ChildOk(e, Frame(f.node.val, CachedHash(f.node.val), -1, 0), t.sub)
  {
    assert CachedBelow(e.h, f.node, t);
  }

  // --- iterating a whole trie ---

  /** A fresh iterator, positioned before the first node not below `start`. */
  method NewNodeIterator(trie: Trie, start: Blob) returns (it: NodeIterator)
    requires trie.Valid()
    modifies trie`root, trie`db
    ensures trie.Valid() && (old(trie.Complete()) ==> trie.Complete()) && trie.db == old(trie.db)
    ensures fresh(it) && it.Consistent() && it.tree == trie.tree && it.e.full == trie.Complete()
    ensures it.e.h == trie.h && it.e.u == trie.u && trie.tree == old(trie.tree) && (start == [] ==> it.stack == [])
    ensures it.err.Fine? ==> it.Todo() == AtLeast(Pre(trie.tree, []), Nibbles(start))
    ensures it.err.End? ==> AtLeast(Pre(trie.tree, []), Nibbles(start)) == []
    ensures it.err.SeekFailed? ==> !it.e.full && it.Sought() == AtLeast(Pre(trie.tree, []), Nibbles(start))
    ensures !it.err.MissingAt?
  {
    hide Pre, Canon, Repr, Within, Avail, Enc, AtLeast, Nibbles, Rest, Chain, Cached, Universe, Addressed;
    var root := trie.Hash();
    var rootHash := if root != RootHash(trie.h, Empty) then Some(root) else None;
    EmptyOrInner(trie.h, trie.tree);
    ghost var e := Env(trie.h, trie.u, trie.db, trie.Complete());
    it := new NodeIterator(trie.h, trie.db, trie.root, rootHash, e, trie.tree);
    it.err := it.Seek(start);
  }

  lemma EmptyOrInner(h: Hasher, t: Tree)
    requires Canon(t)
    ensures Inner(t) || RootHash(h, t) == RootHash(h, Empty)
    ensures RootHash(h, t) == h(Enc(h, t))
  {}

  /** The leaves among some items, as key and value. */
  function LeafPairs(s: seq<Item>): seq<(Key, Blob)> {
    if s == [] then []
    else
      var init, x := LeafPairs(s[..|s| - 1]), s[|s| - 1];
      if x.tree.Leaf? then init + [(x.path, x.tree.value)] else init
  }

  lemma {:induction false} LeafPairsCons(x: Item, s: seq<Item>)
    ensures LeafPairs([x] + s) == (if x.tree.Leaf? then [(x.path, x.tree.value)] else []) + LeafPairs(s)
  {
    if s == [] {
      assert [x] + s == [x] && [x][..0] == [];
    } else {
      var n := |s| - 1;
      assert ([x] + s)[..n + 1] == [x] + s[..n] && ([x] + s)[n + 1] == s[n];
      LeafPairsCons(x, s[..n]);
    }
  }

  lemma PreLeaf(t: Tree, path: Key)
    requires t.Leaf?
    ensures Pre(t, path) == [Item(path, t)]
  {}

  /** `Leaf()` looks at the path: it ends in the terminator exactly at values. */
  lemma {:induction false} LeafByPath(t: Tree, path: Key, x: Item)
    requires Canon(t) && Plain(path) && x in Pre(t, path)
    ensures HasTerm(x.path) <==> x.tree.Leaf?
    decreases t
  {
    if x == Item(path, t) {
      assert path != [] ==> path[|path| - 1] < 16;
    } else if t.Ext? {
      assert x in Pre(t.sub, path + t.key);
      if t.sub.Leaf? {
        PreLeaf(t.sub, path + t.key);
        assert (path + t.key)[|path + t.key| - 1] == t.key[|t.key| - 1];
      } else {
        LeafByPath(t.sub, path + t.key, x);
      }
    } else {
      var i := KidOf(t.kids, 0, path, x);
      if i == 16 {
        PreLeaf(t.kids[16], path + [16]);
      } else {
        LeafByPath(t.kids[i], path + [i], x);
      }
    }
  }

  lemma {:induction false} AtLeastSub(s: seq<Item>, key: Key)
    ensures |AtLeast(s, key)| <= |s| && AtLeast(s, key) == s[|s| - |AtLeast(s, key)|..]
    ensures forall i :: 0 <= i < |s| - |AtLeast(s, key)| ==> Less(s[i].path, key)
  {
    if s != [] && Less(s[0].path, key) { AtLeastSub(s[1..], key); }
  }

  /** Every leaf from `start` on, in order. `done` is false if a node was missing. */
  method CollectLeaves(trie: Trie, start: Blob) returns (out: seq<(Key, Blob)>, done: bool)
    requires trie.Valid()
    modifies trie`root, trie`db
    ensures trie.tree == old(trie.tree)
    ensures old(trie.Complete()) ==> done
    ensures done ==> out == LeafPairs(AtLeast(Pre(trie.tree, []), Nibbles(start)))
  {
    hide Pre, Canon, Repr, Within, Avail, Enc, AtLeast, Nibbles, Rest, Chain, Below, LeafPairs, Universe, Addressed,
      KidsFrom;
    var it := NewNodeIterator(trie, start);
    ghost var all := AtLeast(Pre(trie.tree, []), Nibbles(start));
    AtLeastSub(Pre(trie.tree, []), Nibbles(start));
    out, done := [], true;
    if it.err.SeekFailed? { return [], false; }
    LeafPairsNone();
    while true
      invariant fresh(it) && it.Valid() && !it.err.SeekFailed? && it.tree == trie.tree && Canon(it.tree)
      invariant old(trie.Complete()) ==> it.e.full
      invariant out + LeafPairs(it.Todo()) == LeafPairs(all)
      invariant forall x :: x in it.Todo() ==> x in Pre(it.tree, [])
      decreases |it.Todo()|
    {
      ghost var todo := it.Todo();
      var ok := it.Next(true);
      if !ok {
        done := it.err.End?;
        return;
      }
      var leaf := LeafAt(it);
      LeafPairsCons(it.Current(), it.Todo());
      Assoc(out, leaf, LeafPairs(it.Todo()));
      out := out + leaf;
    }
  }

  /** The pair at the iterator's position, if it is a leaf. */
  method LeafAt(it: NodeIterator) returns (leaf: seq<(Key, Blob)>)
    requires it.Valid() && it.stack != [] && it.Current() in Pre(it.tree, [])
    ensures leaf == if it.Current().tree.Leaf? then [(it.path, it.Current().tree.value)] else []
  {
    hide Pre, Canon, Repr, Within, Avail, Enc, Rest, Chain, Below;
    LeafByPath(it.tree, [], it.Current());
    leaf := [];
    if HasTerm(it.path) {
      it.TopIs();
      leaf := [(it.path, it.stack[|it.stack| - 1].node.blob)];
    }
  }

  lemma LeafPairsNone()
    ensures LeafPairs([]) == []
  {}

  lemma {:induction false} LeafPairsMember(s: seq<Item>, p: Key, v: Blob)
    ensures (p, v) in LeafPairs(s) <==> Item(p, Leaf(v)) in s
  {
    if s != [] {
      var n := |s| - 1;
      assert s == s[..n] + [s[n]];
      LeafPairsMember(s[..n], p, v);
    }
  }

  lemma {:induction false} LeafPairsSorted(s: seq<Item>)
    requires Sorted(s)
    ensures forall i, j :: 0 <= i < j < |LeafPairs(s)| ==> Less(LeafPairs(s)[i].0, LeafPairs(s)[j].0)
  {
    if s != [] {
      var n := |s| - 1;
      LeafPairsSorted(s[..n]);
      var init := LeafPairs(s[..n]);
      forall i | 0 <= i < |init| ensures Less(init[i].0, s[n].path) {
        assert init[i] in init;
        LeafPairsMember(s[..n], init[i].0, init[i].1);
        var k :| 0 <= k < n && s[..n][k] == Item(init[i].0, Leaf(init[i].1));
        assert s[k].path == init[i].0;
      }
    }
  }

  /** The leaves collected from `key` on: every stored pair whose path is not below `key`, once,
      in strictly increasing order, and nothing else. */
  lemma LeavesExact(t: Tree, key: Key, p: Key, v: Blob)
    requires Canon(t)
    ensures var out := LeafPairs(AtLeast(Pre(t, []), key));
      && ((p, v) in out <==> Terminated(p) && Lookup(t, p) == Some(v) && !Less(p, key))
      && (forall i, j :: 0 <= i < j < |out| ==> Less(out[i].0, out[j].0))
  {
    hide Pre, Canon, Lookup, LeafPairs, AtLeast, Less;
    var all := Pre(t, []);
    var s := AtLeast(all, key);
    var cut := |all| - |s|;
    PreSorted(t, []);
    AtLeastSub(all, key);
    LeafPairsMember(s, p, v);
    LeavesAreContents(t, p, v);
    SuffixSorted(all, cut);
    LeafPairsSorted(s);
    AtLeastAll(all, key);
    var x := Item(p, Leaf(v));
    if x in s {
      var i :| 0 <= i < |s| && s[i] == x;
      assert all[cut + i] == x;
    }
    if x in all && !Less(p, key) {
      var i :| 0 <= i < |all| && all[i] == x;
      assert i >= cut;
      assert s[i - cut] == x;
    }
  }

  lemma SuffixSorted(s: seq<Item>, n: nat)
    requires Sorted(s) && n <= |s|
    ensures Sorted(s[n..])
  {}

  /** In a sorted list nothing below `key` is left. */
  lemma AtLeastAll(s: seq<Item>, key: Key)
    requires Sorted(s)
    ensures forall i :: 0 <= i < |AtLeast(s, key)| ==> !Less(AtLeast(s, key)[i].path, key)
  {
    AtLeastSub(s, key);
    var r := AtLeast(s, key);
    SuffixSorted(s, |s| - |r|);
    if r != [] {
      AtLeastStops(s, key);
      forall i | 0 < i < |r| ensures !Less(r[i].path, key) {
        assert Less(r[0].path, r[i].path);
        if Less(r[i].path, key) { LessTrans(r[0].path, r[i].path, key); }
      }
    }
  }

  lemma {:induction false} AtLeastStops(s: seq<Item>, key: Key)
    ensures AtLeast(s, key) != [] ==> !Less(AtLeast(s, key)[0].path, key)
  {
    if s != [] && Less(s[0].path, key) { AtLeastStops(s[1..], key); }
  }
}
