/** Weighted random selection (fc/randselect.go): tree nodes updated in place, and the map from
    items to their place in the tree. */
module RandSelect {
  import opened Bytes
  import T = WeightTree

  /** What a node's slot points to. */
  datatype Cell = Nil | Item(id: nat) | Child(node: WrsNode)

  class WrsNode {
    var items: seq<Cell>
    var weights: seq<int>
    var sumWeight: int
    var itemCnt: int
    const level: nat
    const maxItems: nat
    ghost var view: T.Tree            // the tree this node is the root of
    ghost var repr: set<object>

    ghost predicate Valid()
      reads this, repr
      ensures Valid() ==> this in repr
      decreases repr
    {
      && this in repr && view == T.Node(level, view.slots, weights, sumWeight, itemCnt, maxItems)
      && |items| == T.BRANCHES && |view.slots| == T.BRANCHES
      && (forall i :: 0 <= i < T.BRANCHES ==> SlotShows(items[i], view.slots[i]))
      && (forall i, j :: 0 <= i < j < T.BRANCHES && items[i].Child? && items[j].Child? ==>
            items[i].node.repr !! items[j].node.repr)
    }

    ghost predicate SlotShows(c: Cell, s: T.Slot)
      requires this in repr
      reads this, repr
      decreases repr, 0
    {
      match c
      case Nil => s == T.Free
      case Item(x) => s == T.Holds(x)
      case Child(n) => n in repr && n.repr <= repr - {this} && n.Valid() && s == T.Sub(n.view)
    }

    /** An empty node. */
    constructor (level: nat, maxItems: nat)
      requires maxItems == 8 * T.Pow8(level)
      ensures Valid() && view == T.Fresh(level) && repr == {this}
    {
      this.level, this.maxItems := level, maxItems;
      items, weights, sumWeight, itemCnt := seq(T.BRANCHES, _ => Nil), seq(T.BRANCHES, _ => 0), 0, 0;
      view, repr := T.Fresh(level), {this};
    }

    /** The first slot with room. */
    method FindBranch() returns (branch: nat)
      requires Valid() && T.Ok(view) && view.cnt < view.max
      ensures branch == T.FirstOpen(view.slots, 0) < T.BRANCHES
    {
      hide T.At, T.Pow8, T.Sum, T.Counts;
      T.HasOpen(view);
      branch := 0;
      SlotIs(0);
      while items[branch] != Nil && (level == 0 || items[branch].node.itemCnt == items[branch].node.maxItems)
        invariant 0 <= branch < T.BRANCHES && T.FirstOpen(view.slots, branch) == T.FirstOpen(view.slots, 0) < T.BRANCHES
        invariant items[branch] != Nil && level > 0 ==> items[branch].Child?
        decreases T.BRANCHES - branch
      {
        SlotIs(branch);
        branch := branch + 1;
        SlotIs(branch);
      }
      SlotIs(branch);
    }

    lemma SlotIs(i: nat)
      requires Valid() && T.Ok(view) && i < T.BRANCHES
      ensures items[i].Nil? <==> view.slots[i].Free?
      ensures items[i].Item? ==> level == 0 && view.slots[i] == T.Holds(items[i].id)
      ensures items[i].Child? ==>
        && level > 0 && items[i].node in repr && items[i].node.repr <= repr - {this} && items[i].node.Valid()
        && view.slots[i] == T.Sub(items[i].node.view) && items[i].node.level == level - 1 && T.Ok(items[i].node.view)
        && items[i].node.view.cnt == items[i].node.itemCnt && items[i].node.view.max == items[i].node.maxItems
    {
      assert SlotShows(items[i], view.slots[i]);
      assert T.SlotOk(view.slots[i], view.weights[i], view.level);
    }

    method InsertLeaf(branch: nat, item: nat, weight: int)
      requires Valid() && branch < T.BRANCHES && |view.weights| == T.BRANCHES && level == 0 && items[branch] == Nil
      requires forall i :: 0 <= i < T.BRANCHES ==> !items[i].Child?
      modifies this
      ensures Valid() && view == T.Put(old(view), branch, T.Holds(item), weight) && repr == old(repr)
    {
      itemCnt, sumWeight, weights := itemCnt + 1, sumWeight + weight, weights[branch := weights[branch] + weight];
      items := items[branch := Item(item)];
      view := T.Put(view, branch, T.Holds(item), weight);
    }

    /** The node below a slot, created if there is none. */
    method Prepare(branch: nat) returns (subNode: WrsNode)
      requires Valid() && branch < T.BRANCHES && level > 0 && maxItems == 8 * T.Pow8(level) && !items[branch].Item?
      modifies this
      ensures Valid() && fresh(repr - old(repr)) && items[branch] == Child(subNode)
      ensures view == old(view).(slots := old(view).slots[branch := T.Sub(T.SubOf(old(view).slots[branch], level - 1))])
      ensures T.Sub(subNode.view) == view.slots[branch] && subNode.level == subNode.view.level
    {
      if items[branch] == Nil {
        subNode := new WrsNode(level - 1, maxItems / 8);
        items := items[branch := Child(subNode)];
        view := view.(slots := view.slots[branch := T.Sub(subNode.view)]);
        repr := repr + {subNode};
      } else {
        subNode := items[branch].node;
        assert SlotShows(items[branch], view.slots[branch]);
        assert subNode.Valid() && subNode.view.level == subNode.level;
        assert view.slots[branch := view.slots[branch]] == view.slots;
      }
    }

    /** Passes an item on to a node below, and books it here. */
    method InsertBelow(branch: nat, subNode: WrsNode, item: nat, weight: int) returns (idx: nat)
      requires Valid() && branch < T.BRANCHES && |weights| == T.BRANCHES && items[branch] == Child(subNode)
      requires subNode.level < level
      requires T.Ok(subNode.view) && subNode.view.cnt < subNode.view.max && weight > 0
      modifies repr
      ensures Valid() && fresh(repr - old(repr))
      ensures var (s', i) := T.Insert(old(subNode.view), item, weight);
        view == T.Put(old(view), branch, T.Sub(s'), weight) && idx == old(subNode.view).max * branch + i
      decreases level, 0
    {
      hide T.Ok, T.Insert;
      assert SlotShows(items[branch], view.slots[branch]);
      ghost var before, mine := view, repr;
      ghost var theirs := subNode.repr;
      forall i | 0 <= i < T.BRANCHES && i != branch && items[i].Child?
        ensures items[i].node.repr !! theirs && this !in items[i].node.repr && items[i].node in mine
      {
        assert SlotShows(items[i], view.slots[i]);
      }
      itemCnt, sumWeight, weights := itemCnt + 1, sumWeight + weight, weights[branch := weights[branch] + weight];
      idx := subNode.Insert(item, weight);
      idx := subNode.maxItems * branch + idx;
      view := T.Put(before, branch, T.Sub(subNode.view), weight);
      repr := repr + subNode.repr;
    }

    /** Puts an item into the first slot with room, creating nodes on the way. */
    method Insert(item: nat, weight: int) returns (idx: nat)
      requires Valid() && T.Ok(view) && view.cnt < view.max && weight > 0
      modifies repr
      ensures Valid() && (view, idx) == T.Insert(old(view), item, weight) && fresh(repr - old(repr))
      decreases level, 1
    {
      hide T.At, T.Pow8, T.Sum, T.Counts, T.Ok, T.Width;
      T.Shape(view);
      var branch := FindBranch();
      T.OpenSlot(view, branch);
      SlotIs(branch);
      if level == 0 {
        forall i | 0 <= i < T.BRANCHES ensures !items[i].Child? { SlotIs(i); }
        InsertLeaf(branch, item, weight);
        return branch;
      }
      T.SubRoom(view, branch);
      var subNode := Prepare(branch);
      ghost var sub := view.slots[branch];
      idx := InsertBelow(branch, subNode, item, weight);
      T.PutTwice(old(view), branch, sub, view.slots[branch], weight);
    }

    /** Changes the weight of the item at an index; zero removes it. */
    method SetWeight(idx: nat, weight: int) returns (diff: int)
      requires Valid() && T.Ok(view) && T.At(view, idx).Some? && weight >= 0
      modifies repr
      ensures Valid() && view == T.SetWeight(old(view), idx, weight) && repr == old(repr)
      ensures diff == view.sum - old(view).sum
      decreases level, 1
    {
      hide T.At, T.Pow8, T.Sum, T.Counts, T.Ok, T.SlotAt;
      T.Shape(view);
      T.AtSlot(view, idx);
      T.Pow8Pos(level);
      var branchItems := maxItems / 8;
      if level == 0 {
        T.LeafIndex(view, idx);
        SlotIs(idx);
        forall i | 0 <= i < T.BRANCHES ensures !items[i].Child? { SlotIs(i); }
        diff := SetLeaf(idx, weight);
        return;
      }
      var branch := idx / branchItems;
      T.BranchIs(view, idx);
      SlotIs(branch);
      T.SubAt(view, idx);
      diff := SetBelow(branch, idx - branch * branchItems, items[branch].node, weight);
    }

    method SetLeaf(idx: nat, weight: int) returns (diff: int)
      requires Valid() && idx < T.BRANCHES && |weights| == T.BRANCHES && items[idx].Item?
      requires forall i :: 0 <= i < T.BRANCHES ==> !items[i].Child?
      modifies this
      ensures Valid() && repr == old(repr) && diff == weight - old(weights)[idx]
      ensures view == T.Change(old(view), idx, if weight == 0 then T.Free else old(view).slots[idx], diff, weight)
    {
      var oldWeight := weights[idx];
      weights := weights[idx := weight];
      diff := weight - oldWeight;
      sumWeight := sumWeight + diff;
      assert SlotShows(items[idx], view.slots[idx]);
      view := T.Change(view, idx, if weight == 0 then T.Free else view.slots[idx], diff, weight);
      if weight == 0 {
        items := items[idx := Nil];
        itemCnt := itemCnt - 1;
      }
    }

    method SetBelow(branch: nat, i: nat, subNode: WrsNode, weight: int) returns (diff: int)
      requires Valid() && branch < T.BRANCHES && |weights| == T.BRANCHES && items[branch] == Child(subNode)
      requires subNode.level < level
      requires T.Ok(subNode.view) && T.At(subNode.view, i).Some? && weight >= 0
      modifies repr
      ensures Valid() && repr == old(repr)
      ensures diff == T.SetWeight(old(subNode.view), i, weight).sum - old(subNode.view).sum
      ensures view == T.Change(old(view), branch, T.Sub(T.SetWeight(old(subNode.view), i, weight)), diff, weight)
      decreases level, 0
    {
      hide T.Ok, T.SetWeight, T.At;
      assert SlotShows(items[branch], view.slots[branch]);
      ghost var before, mine := view, repr;
      ghost var theirs := subNode.repr;
      forall i | 0 <= i < T.BRANCHES && i != branch && items[i].Child?
        ensures items[i].node.repr !! theirs && this !in items[i].node.repr && items[i].node in mine
      {
        assert SlotShows(items[i], view.slots[i]);
      }
      diff := subNode.SetWeight(i, weight);
      weights := weights[branch := weights[branch] + diff];
      sumWeight := sumWeight + diff;
      if weight == 0 { itemCnt := itemCnt - 1; }
      view := T.Change(before, branch, T.Sub(subNode.view), diff, weight);
    }

    /** The item that a number in `[0, sumWeight)` selects, with its weight. */
    method Choose(val0: int) returns (item: nat, weight: int)
      requires Valid() && T.Ok(view) && 0 <= val0 < sumWeight
      ensures T.At(view, T.Choose(view, val0)) == Some((item, weight))
      decreases level
    {
      hide T.At, T.Pow8, T.Sum, T.Counts, T.Ok;
      T.Shape(view);
      T.PickOk(view, val0);
      var val, i := val0, 0;
      while val >= weights[i]
        invariant 0 <= i < T.BRANCHES && T.Pick(view.weights, i, val) == T.Pick(view.weights, 0, val0)
        decreases T.BRANCHES - i
      {
        val := val - weights[i];
        i := i + 1;
      }
      SlotIs(i);
      T.ChosenAt(view, val0);
      if level == 0 { return items[i].id, weights[i]; }
      item, weight := items[i].node.Choose(val);
    }

    /** A new root above a full one. */
    constructor Above(root: WrsNode)
      requires root.Valid() && T.Ok(root.view)
      ensures Valid() && view == T.Grow(root.view) && repr == {this} + root.repr
    {
      level, maxItems, sumWeight, itemCnt := root.level + 1, root.maxItems * 8, root.sumWeight, root.itemCnt;
      items := seq(T.BRANCHES, _ => Nil)[0 := Child(root)];
      weights := seq(T.BRANCHES, _ => 0)[0 := root.sumWeight];
      view, repr := T.Grow(root.view), {this} + root.repr;
    }
  }

  /** Every item is where the index says, and nowhere else. */
  ghost predicate Indexed(idx: map<nat, nat>, t: T.Tree) {
    && (forall x :: x in idx ==> T.At(t, idx[x]).Some? && T.At(t, idx[x]).value.0 == x)
    && (forall k: nat :: T.At(t, k).Some? ==> T.At(t, k).value.0 in idx && idx[T.At(t, k).value.0] == k)
  }

  /** The weights of the items. */
  ghost function WeightsOf(idx: map<nat, nat>, t: T.Tree): map<nat, int>
    requires Indexed(idx, t)
  {
    map x | x in idx :: T.At(t, idx[x]).value.1
  }

  lemma IndexedInsert(idx: map<nat, nat>, t: T.Tree, item: nat, w: int)
    requires T.Ok(t) && t.cnt < t.max && w > 0 && Indexed(idx, t) && item !in idx
    ensures var (t', k) := T.Insert(t, item, w);
      T.Ok(t') && Indexed(idx[item := k], t') && WeightsOf(idx[item := k], t') == WeightsOf(idx, t)[item := w]
  {
    hide T.At, T.Insert, T.Ok;
    T.InsertOk(t, item, w);
  }

  lemma IndexedSet(idx: map<nat, nat>, t: T.Tree, item: nat, w: int)
    requires T.Ok(t) && w >= 0 && Indexed(idx, t) && item in idx
    ensures var t' := T.SetWeight(t, idx[item], w);
      && T.Ok(t') && t'.sum == t.sum + w - T.At(t, idx[item]).value.1
      && (w == 0 ==> Indexed(idx - {item}, t') && WeightsOf(idx - {item}, t') == WeightsOf(idx, t) - {item})
      && (w > 0 ==> Indexed(idx, t') && WeightsOf(idx, t') == WeightsOf(idx, t)[item := w])
  {
    hide T.At, T.SetWeight, T.Ok;
    T.SetWeightOk(t, idx[item], w);
  }

  lemma IndexedGrow(idx: map<nat, nat>, t: T.Tree)
    requires T.Ok(t) && Indexed(idx, t)
    ensures T.Ok(T.Grow(t)) && T.Grow(t).cnt < T.Grow(t).max && Indexed(idx, T.Grow(t))
    ensures WeightsOf(idx, T.Grow(t)) == WeightsOf(idx, t)
  {
    hide T.At, T.Grow, T.Ok;
    T.GrowOk(t);
    forall k: nat | T.At(t, k).Some? ensures k < t.max { T.AtBound(t, k); }
  }

  class WeightedRandomSelect {
    var root: WrsNode
    var idx: map<nat, nat>

    ghost predicate Valid()
      reads this, root, root.repr
    {
      root.Valid() && this !in root.repr && T.Ok(root.view) && Indexed(idx, root.view)
    }

    ghost function Weights(): map<nat, int>
      requires Valid()
      reads this, root, root.repr
    {
      WeightsOf(idx, root.view)
    }

    constructor ()
      ensures Valid() && Weights() == map[] && fresh(root) && fresh(root.repr)
    {
      root := new WrsNode(0, 8);
      idx := map[];
      new;
      T.FreshOk(0);
    }

    /** Sets the weight of an item; zero removes it. */
    method SetWeight(item: nat, weight: int)
      requires Valid() && weight >= 0
      modifies this, root.repr
      ensures Valid() && fresh(root.repr - old(root.repr))
      ensures Weights() == if weight == 0 then old(Weights()) - {item} else old(Weights())[item := weight]
      ensures old(item in idx) ==>
        && root.view == T.SetWeight(old(root.view), old(idx)[item], weight)
        && root.view.sum == old(root.view.sum) + weight - old(Weights())[item]
    {
      hide T.At, T.Insert, T.SetWeight, T.Ok, T.Grow, Indexed;
      if item in idx {
        Found(idx, root.view, item);
        IndexedSet(idx, root.view, item, weight);
        var diff := root.SetWeight(idx[item], weight);
        if weight == 0 { idx := idx - {item}; }
      } else if weight != 0 {
        GrowIfFull();
        IndexedInsert(idx, root.view, item, weight);
        var k := root.Insert(item, weight);
        idx := idx[item := k];
      } else {
        NotThere(idx, root.view, item);
      }
    }

    method GrowIfFull()
      requires Valid()
      modifies this
      ensures Valid() && fresh(root.repr - old(root.repr)) && idx == old(idx) && root.view.cnt < root.view.max
      ensures Weights() == old(Weights())
    {
      hide T.At, T.Ok, T.Grow, Indexed;
      T.TreeNonneg(root.view);
      if root.itemCnt == root.maxItems {
        IndexedGrow(idx, root.view);
        root := new WrsNode.Above(root);
      }
    }

    /** Picks an item at random. `rnd(k, n)` is the k-th random number, drawn below `n`;
        `weightOf(k, x)` is what item `x` says its weight is in round `k`. A pick whose weight has
        dropped is kept with the probability of the drop only, and a dropped pick lowers the sum.
        `views` are the trees before each round and after the last one. */
    method Choose(rnd: (nat, int) -> int, weightOf: (nat, nat) -> int)
      returns (choice: Option<nat>, ghost views: seq<T.Tree>)
      requires Valid() && (forall k, n :: n > 0 ==> 0 <= rnd(k, n) < n) && (forall k, x :: weightOf(k, x) >= 0)
      modifies this, root.repr
      ensures Valid() && fresh(root.repr - old(root.repr))
      ensures choice.None? ==> root.sumWeight == 0
      ensures choice.Some? ==> choice.value in old(Weights()) && choice.value in Weights()
      ensures Weights().Keys <= old(Weights()).Keys
      ensures views != [] && views[0] == old(root.view) && views[|views| - 1] == root.view
      ensures choice.None? ==> Rejected(views, rnd, weightOf)
      ensures choice.Some? ==>
        var n := |views| - 2;
        && n >= 0 && Rejected(views[..n + 1], rnd, weightOf)
        && RoundIs(views[n], views[n + 1], rnd, weightOf, n, choice.value, true)
    {
      hide T.At, T.Ok, Indexed, WeightsOf, T.Choose, T.SetWeight, RoundIs, Rejected;
      var round := 0;
      views := [root.view];
      NoneRejected(root.view, rnd, weightOf);
      while true
        invariant Valid() && fresh(root.repr - old(root.repr)) && Weights().Keys <= old(Weights()).Keys
        invariant |views| == round + 1 && views[0] == old(root.view) && views[round] == root.view
        invariant Rejected(views, rnd, weightOf)
        decreases root.view.sum
      {
        T.TreeNonneg(root.view);
        if root.sumWeight == 0 { return None, views; }
        ghost var t := root.view;
        var item, weight, lastWeight := Round(rnd(2 * round, root.sumWeight), weightOf, round);
        var kept := weight >= lastWeight || rnd(2 * round + 1, lastWeight) < weight;
        DrawIs(t, root.view, rnd, weightOf, round, item, lastWeight, kept);
        assert (views + [root.view])[..round + 1] == views;
        if kept { return Some(item), views + [root.view]; }
        OneRejected(views, root.view, rnd, weightOf, item);
        views := views + [root.view];
        round := round + 1;
      }
    }

    /** One draw, with the item's weight brought up to date. */
    method Round(val: int, weightOf: (nat, nat) -> int, round: nat) returns (item: nat, weight: int, lastWeight: int)
      requires Valid() && 0 <= val < root.sumWeight && forall x :: weightOf(round, x) >= 0
      modifies this, root.repr
      ensures Valid() && fresh(root.repr - old(root.repr)) && lastWeight > 0
      ensures T.At(old(root.view), T.Choose(old(root.view), val)) == Some((item, lastWeight))
      ensures weight == weightOf(round, item) && item in old(Weights()) && old(Weights())[item] == lastWeight
      ensures Weights() == if weight == 0 then old(Weights()) - {item} else old(Weights())[item := weight]
      ensures root.view == if weight == lastWeight then old(root.view)
                           else T.SetWeight(old(root.view), T.Choose(old(root.view), val), weight)
      ensures root.view.sum == old(root.view.sum) + weight - lastWeight
    {
      hide T.At, T.Ok, T.Choose, T.SetWeight;
      item, lastWeight := root.Choose(val);
      ghost var k := T.Choose(root.view, val);
      T.BeforeBounds(root.view, k);
      weight := weightOf(round, item);
      if weight != lastWeight {
        SetWeight(item, weight);
      } else {
        assert WeightsOf(idx, root.view)[item := weight] == WeightsOf(idx, root.view);
      }
    }
  }

  /** Round `k` on the tree `t`: the first number draws `item`, whose weight is brought up to date
      in `t'`, and the second one decides whether it is kept. */
  ghost predicate RoundIs(t: T.Tree, t': T.Tree, rnd: (nat, int) -> int, weightOf: (nat, nat) -> int, k: nat, item: nat,
                          kept: bool) {
    && T.Ok(t) && 0 <= rnd(2 * k, t.sum) < t.sum
    && var at := T.Choose(t, rnd(2 * k, t.sum));
    && T.At(t, at).Some? && T.At(t, at).value.0 == item
    && var lastWeight, weight := T.At(t, at).value.1, weightOf(k, item);
    && weight >= 0 && t' == (if weight == lastWeight then t else T.SetWeight(t, at, weight))
    && (kept <==> weight >= lastWeight || rnd(2 * k + 1, lastWeight) < weight)
  }

  /** No round was decided for its item. */
  ghost predicate Rejected(views: seq<T.Tree>, rnd: (nat, int) -> int, weightOf: (nat, nat) -> int) {
    forall k :: 0 <= k < |views| - 1 ==> Missed(views[k], views[k + 1], rnd, weightOf, k)
  }

  ghost predicate Missed(t: T.Tree, t': T.Tree, rnd: (nat, int) -> int, weightOf: (nat, nat) -> int, k: nat) {
    exists item :: RoundIs(t, t', rnd, weightOf, k, item, false)
  }

  lemma NoneRejected(t: T.Tree, rnd: (nat, int) -> int, weightOf: (nat, nat) -> int)
    ensures Rejected([t], rnd, weightOf)
  {}

  lemma OneRejected(views: seq<T.Tree>, t: T.Tree, rnd: (nat, int) -> int, weightOf: (nat, nat) -> int, item: nat)
    requires views != [] && Rejected(views, rnd, weightOf)
    requires RoundIs(views[|views| - 1], t, rnd, weightOf, |views| - 1, item, false)
    ensures Rejected(views + [t], rnd, weightOf)
  {
    hide RoundIs;
    var all := views + [t];
    forall k | 0 <= k < |all| - 1 ensures Missed(all[k], all[k + 1], rnd, weightOf, k) {
      if k < |views| - 1 { assert Missed(views[k], views[k + 1], rnd, weightOf, k); }
    }
  }

  lemma DrawIs(t: T.Tree, t': T.Tree, rnd: (nat, int) -> int, weightOf: (nat, nat) -> int, k: nat, item: nat,
               lastWeight: int, kept: bool)
    requires T.Ok(t) && 0 <= rnd(2 * k, t.sum) < t.sum && weightOf(k, item) >= 0
    requires T.At(t, T.Choose(t, rnd(2 * k, t.sum))) == Some((item, lastWeight))
    requires t' == if weightOf(k, item) == lastWeight then t
                   else T.SetWeight(t, T.Choose(t, rnd(2 * k, t.sum)), weightOf(k, item))
    requires kept <==> weightOf(k, item) >= lastWeight || rnd(2 * k + 1, lastWeight) < weightOf(k, item)
    ensures RoundIs(t, t', rnd, weightOf, k, item, kept)
  {
    hide T.At, T.Ok, T.Choose, T.SetWeight;
  }

  lemma Found(idx: map<nat, nat>, t: T.Tree, item: nat)
    requires Indexed(idx, t) && item in idx
    ensures T.At(t, idx[item]).Some? && WeightsOf(idx, t)[item] == T.At(t, idx[item]).value.1
  {}

  lemma NotThere(idx: map<nat, nat>, t: T.Tree, item: nat)
    requires Indexed(idx, t) && item !in idx
    ensures WeightsOf(idx, t) - {item} == WeightsOf(idx, t)
  {}

  /** An item is drawn for as many numbers as its weight: those from the weight in front of it on. */
  lemma DrawnFor(idx: map<nat, nat>, t: T.Tree, item: nat, val: int)
    requires T.Ok(t) && Indexed(idx, t) && item in idx && 0 <= val < t.sum
    ensures T.At(t, T.Choose(t, val)).Some?
    ensures T.At(t, T.Choose(t, val)).value.0 == item <==>
      T.Before(t, idx[item]) <= val < T.Before(t, idx[item]) + WeightsOf(idx, t)[item]
  {
    hide T.At, T.Choose, T.Before, T.Ok;
    T.ChooseOk(t, val);
    T.ChooseExact(t, val, idx[item]);
  }
}
