/** The 8-ary weight tree of fc/randselect.go as a value: what an index holds, how inserting and
    reweighting change it, and which item a number selects. */
module WeightTree {
  import opened Bytes

  const BRANCHES: nat := 8

  /** Items are identified by numbers. */
  datatype Slot = Free | Holds(item: nat) | Sub(tree: Tree)

  datatype Tree = Node(level: nat, slots: seq<Slot>, weights: seq<int>, sum: int, cnt: int, max: nat)

  /** Branch and remaining index of an index, for `w` indices per branch. */
  function Branch(idx: nat, w: nat): nat
    requires w > 0
  {
    idx / w
  }

  function Rest(idx: nat, w: nat): (r: nat)
    requires w > 0
    ensures r < w
  {
    idx % w
  }

  lemma DivMod(b: nat, i: nat, w: nat)
    requires i < w
    ensures Branch(w * b + i, w) == b && Rest(w * b + i, w) == i
  {
    var x := w * b + i;
    var q, r := x / w, x % w;
    Unique(w, q, r, b, i);
  }

  lemma Times(w: nat, k: int)
    requires k >= 1
    ensures w * k >= w
  {}

  lemma Unique(w: nat, q: int, r: nat, b: int, i: nat)
    requires w * q + r == w * b + i && r < w && i < w
    ensures q == b && r == i
  {
    assert w * (q - b) == i - r;
    assert w * (b - q) == r - i;
    if q > b { Times(w, q - b); }
    if q < b { Times(w, b - q); }
  }

  lemma SplitIndex(j: nat, w: nat)
    requires w > 0
    ensures j == w * Branch(j, w) + Rest(j, w)
  {}

  lemma IndexBound(b: nat, i: nat, w: nat)
    requires b < BRANCHES && i < w
    ensures w * b + i < 8 * w
  {
    assert w * b <= w * 7;
  }

  function Pow8(n: nat): nat { if n == 0 then 1 else 8 * Pow8(n - 1) }

  /** Indices per branch. */
  function Width(t: Tree): (w: nat)
    ensures w > 0
  {
    Pow8Pos(t.level);
    Pow8(t.level)
  }

  lemma Pow8Pos(n: nat)
    ensures Pow8(n) > 0
  {}

  function Sum(ws: seq<int>): int { if ws == [] then 0 else Sum(ws[..|ws| - 1]) + ws[|ws| - 1] }

  /** Items in a slot. */
  function Count(s: Slot): int {
    match s
    case Free => 0
    case Holds(_) => 1
    case Sub(t) => t.cnt
  }

  function Counts(ss: seq<Slot>): int { if ss == [] then 0 else Counts(ss[..|ss| - 1]) + Count(ss[|ss| - 1]) }

  /** Sums and counts are exact at every level, and a weight is zero exactly where nothing is. */
  ghost predicate Ok(t: Tree)
    decreases t
  {
    && |t.slots| == BRANCHES && |t.weights| == BRANCHES && t.max == 8 * Pow8(t.level)
    && t.sum == Sum(t.weights) && t.cnt == Counts(t.slots)
    && forall i :: 0 <= i < BRANCHES ==> SlotOk(t.slots[i], t.weights[i], t.level)
  }

  ghost predicate SlotOk(s: Slot, w: int, level: nat)
    decreases s
  {
    match s
    case Free => w == 0
    case Holds(_) => level == 0 && w > 0
    case Sub(t) => level > 0 && t.level == level - 1 && w == t.sum && Ok(t)
  }

  /** What is at an index. */
  function At(t: Tree, idx: nat): Option<(nat, int)>
    decreases t
  {
    var b := Branch(idx, Width(t));
    if b >= |t.slots| || b >= |t.weights| then None else SlotAt(t.slots[b], t.weights[b], Rest(idx, Width(t)))
  }

  function SlotAt(s: Slot, w: int, idx: nat): Option<(nat, int)>
    decreases s
  {
    match s
    case Free => None
    case Holds(item) => Some((item, w))
    case Sub(t) => At(t, idx)
  }

  lemma Shape(t: Tree)
    requires Ok(t)
    ensures |t.slots| == BRANCHES && |t.weights| == BRANCHES && t.max == 8 * Pow8(t.level)
    ensures t.level > 0 ==> t.max / 8 == 8 * Pow8(t.level - 1) == Width(t)
  {}

  // --- sums ---

  lemma {:induction false} SumUpdate(ws: seq<int>, i: nat, w: int)
    requires i < |ws|
    ensures Sum(ws[i := w]) == Sum(ws) - ws[i] + w
    decreases |ws|
  {
    var n := |ws| - 1;
    if i == n {
      assert ws[i := w][..n] == ws[..n];
    } else {
      assert ws[i := w][..n] == ws[..n][i := w];
      SumUpdate(ws[..n], i, w);
    }
  }

  lemma {:induction false} CountsUpdate(ss: seq<Slot>, i: nat, s: Slot)
    requires i < |ss|
    ensures Counts(ss[i := s]) == Counts(ss) - Count(ss[i]) + Count(s)
    decreases |ss|
  {
    var n := |ss| - 1;
    if i == n {
      assert ss[i := s][..n] == ss[..n];
    } else {
      assert ss[i := s][..n] == ss[..n][i := s];
      CountsUpdate(ss[..n], i, s);
    }
  }

  lemma {:induction false} SumNonneg(ws: seq<int>)
    requires forall i :: 0 <= i < |ws| ==> ws[i] >= 0
    ensures Sum(ws) >= 0
    decreases |ws|
  {
    if ws != [] { SumNonneg(ws[..|ws| - 1]); }
  }

  lemma {:induction false} TreeNonneg(t: Tree)
    requires Ok(t)
    ensures t.sum >= 0 && 0 <= t.cnt <= t.max
    ensures forall i :: 0 <= i < BRANCHES ==> t.weights[i] >= 0 && 0 <= Count(t.slots[i]) <= Width(t)
    decreases t
  {
    forall i | 0 <= i < BRANCHES ensures t.weights[i] >= 0 && 0 <= Count(t.slots[i]) <= Width(t) {
      assert SlotOk(t.slots[i], t.weights[i], t.level);
      if t.slots[i].Sub? { TreeNonneg(t.slots[i].tree); }
      Pow8Pos(t.level);
    }
    SumNonneg(t.weights);
    CountsBound(t.slots, Width(t));
  }

  lemma {:induction false} CountsBound(ss: seq<Slot>, w: nat)
    requires forall i :: 0 <= i < |ss| ==> 0 <= Count(ss[i]) <= w
    ensures 0 <= Counts(ss) <= |ss| * w
    decreases |ss|
  {
    if ss != [] {
      CountsBound(ss[..|ss| - 1], w);
      assert |ss| * w == (|ss| - 1) * w + w;
    }
  }

  /** If every slot is full, so is the node. */
  lemma {:induction false} CountsFull(ss: seq<Slot>, w: nat)
    requires forall i :: 0 <= i < |ss| ==> Count(ss[i]) == w
    ensures Counts(ss) == |ss| * w
    decreases |ss|
  {
    if ss != [] {
      CountsFull(ss[..|ss| - 1], w);
      assert |ss| * w == (|ss| - 1) * w + w;
    }
  }

  // --- inserting ---

  /** Room for one more item. */
  predicate Open(s: Slot) {
    match s
    case Free => true
    case Holds(_) => false
    case Sub(t) => t.cnt != t.max
  }

  /** The first slot with room. */
  function FirstOpen(ss: seq<Slot>, i: nat): (b: nat)
    requires i <= |ss|
    ensures i <= b <= |ss| && (b < |ss| ==> Open(ss[b])) && forall j :: i <= j < b ==> !Open(ss[j])
    decreases |ss| - i
  {
    if i == |ss| || Open(ss[i]) then i else FirstOpen(ss, i + 1)
  }

  lemma FullSlot(s: Slot, w: int, level: nat)
    requires SlotOk(s, w, level) && !Open(s)
    ensures Count(s) == Pow8(level)
  {
    match s
    case Free =>
    case Holds(_) => assert Pow8(0) == 1;
    case Sub(t) => assert Ok(t) && Pow8(level) == 8 * Pow8(level - 1);
  }

  /** A node that is not full has a slot with room. */
  lemma HasOpen(t: Tree)
    requires Ok(t) && t.cnt < t.max
    ensures FirstOpen(t.slots, 0) < BRANCHES
  {
    if FirstOpen(t.slots, 0) == BRANCHES {
      forall i | 0 <= i < BRANCHES ensures Count(t.slots[i]) == Width(t) {
        FullSlot(t.slots[i], t.weights[i], t.level);
      }
      CountsFull(t.slots, Width(t));
    }
  }

  function Fresh(level: nat): Tree {
    Node(level, seq(BRANCHES, _ => Free), seq(BRANCHES, _ => 0), 0, 0, 8 * Pow8(level))
  }

  lemma FreshOk(level: nat)
    ensures Ok(Fresh(level)) && forall idx :: At(Fresh(level), idx) == None
  {
    SumZero(Fresh(level).weights);
    CountsFull(Fresh(level).slots, 0);
  }

  lemma {:induction false} SumZero(ws: seq<int>)
    requires forall i :: 0 <= i < |ws| ==> ws[i] == 0
    ensures Sum(ws) == 0
    decreases |ws|
  {
    if ws != [] { SumZero(ws[..|ws| - 1]); }
  }

  /** The subtree a slot has, or the one it gets. */
  function SubOf(s: Slot, level: nat): Tree { if s.Sub? then s.tree else Fresh(level) }

  function Insert(t: Tree, item: nat, w: int): (r: (Tree, nat))
    requires Ok(t) && t.cnt < t.max && w > 0
    decreases t.level
  {
    HasOpen(t);
    var b := FirstOpen(t.slots, 0);
    assert SlotOk(t.slots[b], t.weights[b], t.level);
    if t.level == 0 then
      (Put(t, b, Holds(item), w), b)
    else
      SubRoom(t, b);
      var s := SubOf(t.slots[b], t.level - 1);
      var (s', i) := Insert(s, item, w);
      (Put(t, b, Sub(s'), w), s.max * b + i)
  }

  /** One more item, of weight `w`, in slot `b`. */
  function Put(t: Tree, b: nat, slot: Slot, w: int): Tree
    requires |t.slots| == BRANCHES && |t.weights| == BRANCHES && b < BRANCHES
  {
    Node(t.level, t.slots[b := slot], t.weights[b := t.weights[b] + w], t.sum + w, t.cnt + 1, t.max)
  }

  lemma PutTwice(t: Tree, b: nat, first: Slot, slot: Slot, w: int)
    requires |t.slots| == BRANCHES && |t.weights| == BRANCHES && b < BRANCHES
    ensures Put(t.(slots := t.slots[b := first]), b, slot, w) == Put(t, b, slot, w)
  {}

  lemma SubRoom(t: Tree, b: nat)
    requires Ok(t) && b < BRANCHES && Open(t.slots[b]) && t.level > 0
    ensures var s := SubOf(t.slots[b], t.level - 1);
      Ok(s) && s.cnt < s.max && s.level == t.level - 1 && s.max == Width(t) && t.weights[b] == s.sum
  {
    assert SlotOk(t.slots[b], t.weights[b], t.level);
    FreshOk(t.level - 1);
    Pow8Pos(t.level);
    if t.slots[b].Sub? { TreeNonneg(t.slots[b].tree); }
  }

  lemma PutOk(t: Tree, b: nat, slot: Slot, w: int)
    requires Ok(t) && b < BRANCHES && SlotOk(slot, t.weights[b] + w, t.level) && Count(slot) == Count(t.slots[b]) + 1
    ensures Ok(Put(t, b, slot, w))
  {
    SumUpdate(t.weights, b, t.weights[b] + w);
    CountsUpdate(t.slots, b, slot);
  }

  lemma {:induction false} InsertOk(t: Tree, item: nat, w: int)
    requires Ok(t) && t.cnt < t.max && w > 0
    ensures var (t', idx) := Insert(t, item, w);
      && Ok(t') && t'.cnt == t.cnt + 1 && t'.sum == t.sum + w && t'.level == t.level && t'.max == t.max
      && idx < t.max && At(t, idx) == None && At(t', idx) == Some((item, w))
      && forall j: nat :: j != idx ==> At(t', j) == At(t, j)
    decreases t.level
  {
    hide At;
    HasOpen(t);
    var b := FirstOpen(t.slots, 0);
    var (t', idx) := Insert(t, item, w);
    OpenSlot(t, b);
    if t.level == 0 {
      PutOk(t, b, Holds(item), w);
      PutLeaf(t, b, item, w);
    } else {
      SubRoom(t, b);
      var s := SubOf(t.slots[b], t.level - 1);
      InsertOk(s, item, w);
      var (s', i) := Insert(s, item, w);
      PutSubOk(t, b, s', w);
      PutSub(t, b, s, s', i, w, 0);
      forall j: nat | j != idx ensures At(t', j) == At(t, j) { PutSub(t, b, s, s', i, w, j); }
      IndexBound(b, i, Width(t));
    }
  }

  lemma OpenSlot(t: Tree, b: nat)
    requires Ok(t) && b < BRANCHES && Open(t.slots[b])
    ensures t.level == 0 ==> t.slots[b].Free? && t.weights[b] == 0
    ensures !t.slots[b].Holds?
  {
    assert SlotOk(t.slots[b], t.weights[b], t.level);
  }

  lemma PutSubOk(t: Tree, b: nat, s': Tree, w: int)
    requires Ok(t) && b < BRANCHES && t.level > 0 && !t.slots[b].Holds?
    requires Ok(s') && s'.level == t.level - 1 && s'.sum == t.weights[b] + w && s'.cnt == Count(t.slots[b]) + 1
    ensures Ok(Put(t, b, Sub(s'), w))
  {
    PutOk(t, b, Sub(s'), w);
  }

  /** A change of one slot shows at its indices only. */
  lemma AtChanged(t: Tree, t': Tree, b: nat, slot: Slot, w: int, idx: nat)
    requires |t.slots| == BRANCHES && |t.weights| == BRANCHES && b < BRANCHES && t'.level == t.level
    requires t'.slots == t.slots[b := slot] && t'.weights == t.weights[b := w]
    ensures Branch(idx, Width(t)) != b ==> At(t', idx) == At(t, idx)
    ensures Branch(idx, Width(t)) == b ==>
      var rest := Rest(idx, Width(t));
      At(t', idx) == SlotAt(slot, w, rest) && At(t, idx) == SlotAt(t.slots[b], t.weights[b], rest)
  {
    hide SlotAt;
  }

  lemma PutLeaf(t: Tree, b: nat, item: nat, w: int)
    requires Ok(t) && t.level == 0 && b < BRANCHES && t.slots[b].Free? && t.weights[b] == 0
    ensures var t' := Put(t, b, Holds(item), w);
      At(t, b) == None && At(t', b) == Some((item, w)) && forall j: nat :: j != b ==> At(t', j) == At(t, j)
  {
    var t' := Put(t, b, Holds(item), w);
    forall j: nat
      ensures j == b ==> At(t, b) == None && At(t', b) == Some((item, w))
      ensures j != b ==> At(t', j) == At(t, j)
    {
      assert Width(t) == 1;
      AtChanged(t, t', b, Holds(item), w, j);
    }
    AtChanged(t, t', b, Holds(item), w, b);
  }

  lemma PutSub(t: Tree, b: nat, s: Tree, s': Tree, i: nat, w: int, j: nat)
    requires Ok(t) && t.level > 0 && b < BRANCHES && Open(t.slots[b]) && s == SubOf(t.slots[b], t.level - 1)
    requires i < Width(t)
    requires forall k: nat :: k != i ==> At(s', k) == At(s, k)
    ensures var t' := Put(t, b, Sub(s'), w);
      && At(t, Width(t) * b + i) == At(s, i) && At(t', Width(t) * b + i) == At(s', i)
      && (j != Width(t) * b + i ==> At(t', j) == At(t, j))
  {
    hide At;
    var t' := Put(t, b, Sub(s'), w);
    DivMod(b, i, Width(t));
    AtChanged(t, t', b, Sub(s'), t.weights[b] + w, Width(t) * b + i);
    AtChanged(t, t', b, Sub(s'), t.weights[b] + w, j);
    SplitIndex(j, Width(t));
    OpenSlot(t, b);
    FreshOk(t.level - 1);
  }

  // --- changing a weight ---

  /** The item at an index gets weight `w`; zero removes it. */
  function SetWeight(t: Tree, idx: nat, w: int): (r: Tree)
    requires Ok(t) && At(t, idx).Some? && w >= 0
    decreases t
  {
    AtSlot(t, idx);
    var b := Branch(idx, Width(t));
    assert SlotOk(t.slots[b], t.weights[b], t.level);
    if t.slots[b].Sub? then
      var s' := SetWeight(t.slots[b].tree, Rest(idx, Width(t)), w);
      Change(t, b, Sub(s'), s'.sum - t.slots[b].tree.sum, w)
    else
      Change(t, b, if w == 0 then Free else t.slots[b], w - t.weights[b], w)
  }

  /** The weight of slot `b` changes by `diff`; a new weight of zero is one item less. */
  function Change(t: Tree, b: nat, slot: Slot, diff: int, w: int): Tree
    requires |t.slots| == BRANCHES && |t.weights| == BRANCHES && b < BRANCHES
  {
    var cnt := if w == 0 then t.cnt - 1 else t.cnt;
    Node(t.level, t.slots[b := slot], t.weights[b := t.weights[b] + diff], t.sum + diff, cnt, t.max)
  }

  lemma ChangeOk(t: Tree, b: nat, slot: Slot, diff: int, w: int)
    requires Ok(t) && b < BRANCHES && SlotOk(slot, t.weights[b] + diff, t.level)
    requires Count(slot) == Count(t.slots[b]) - if w == 0 then 1 else 0
    ensures Ok(Change(t, b, slot, diff, w))
  {
    SumUpdate(t.weights, b, t.weights[b] + diff);
    CountsUpdate(t.slots, b, slot);
  }

  function Reweighed(x: Option<(nat, int)>, w: int): Option<(nat, int)> {
    if x.None? || w == 0 then None else Some((x.value.0, w))
  }

  lemma {:induction false} SetWeightOk(t: Tree, idx: nat, w: int)
    requires Ok(t) && At(t, idx).Some? && w >= 0
    ensures var t' := SetWeight(t, idx, w);
      && Ok(t') && t'.level == t.level && t'.max == t.max && t'.sum == t.sum + w - At(t, idx).value.1
      && t'.cnt == t.cnt - (if w == 0 then 1 else 0)
      && At(t', idx) == Reweighed(At(t, idx), w)
      && forall j: nat :: j != idx ==> At(t', j) == At(t, j)
    decreases t
  {
    hide At, Branch, Rest;
    AtSlot(t, idx);
    var b, i := Branch(idx, Width(t)), Rest(idx, Width(t));
    assert SlotOk(t.slots[b], t.weights[b], t.level);
    var t' := SetWeight(t, idx, w);
    if t.slots[b].Sub? {
      var s := t.slots[b].tree;
      SetWeightOk(s, i, w);
      var s' := SetWeight(s, i, w);
      ChangeOk(t, b, Sub(s'), s'.sum - s.sum, w);
      forall j: nat ensures j == idx ==> At(t', j) == At(s', i) ensures j != idx ==> At(t', j) == At(t, j) {
        AtChanged(t, t', b, Sub(s'), s'.sum, j);
        SplitIndex(j, Width(t));
        SplitIndex(idx, Width(t));
      }
    } else {
      var slot := if w == 0 then Free else t.slots[b];
      ChangeOk(t, b, slot, w - t.weights[b], w);
      forall j: nat ensures j == idx ==> At(t', j) == SlotAt(slot, w, i) ensures j != idx ==> At(t', j) == At(t, j) {
        AtChanged(t, t', b, slot, w, j);
        SplitIndex(j, Width(t));
        SplitIndex(idx, Width(t));
        LeafRest(t, idx);
        LeafRest(t, j);
      }
    }
  }

  lemma AtSlot(t: Tree, idx: nat)
    requires Ok(t)
    ensures var b := Branch(idx, Width(t)); b < BRANCHES ==>
      At(t, idx) == SlotAt(t.slots[b], t.weights[b], Rest(idx, Width(t)))
    ensures Branch(idx, Width(t)) >= BRANCHES ==> At(t, idx) == None
  {}

  lemma LeafRest(t: Tree, idx: nat)
    ensures t.level == 0 ==> Rest(idx, Width(t)) == 0
  {}

  // --- choosing ---

  /** The slot that `val` falls into, and what is left of it there. */
  function Pick(ws: seq<int>, i: nat, val: int): (r: (nat, int))
    requires i <= |ws|
    ensures i <= r.0 <= |ws|
    decreases |ws| - i
  {
    if i == |ws| || val < ws[i] then (i, val) else Pick(ws, i + 1, val - ws[i])
  }

  lemma {:induction false} PickIs(ws: seq<int>, i: nat, val: int)
    requires i <= |ws| && 0 <= val < Sum(ws) - Sum(ws[..i])
    ensures var (b, v) := Pick(ws, i, val); b < |ws| && 0 <= v < ws[b] && v == val + Sum(ws[..i]) - Sum(ws[..b])
    decreases |ws| - i
  {
    assert ws[..|ws|] == ws;
    if i < |ws| && val >= ws[i] {
      assert ws[..i + 1][..i] == ws[..i];
      PickIs(ws, i + 1, val - ws[i]);
    }
  }

  lemma PickOk(t: Tree, val: int)
    requires Ok(t) && 0 <= val < t.sum
    ensures var (b, v) := Pick(t.weights, 0, val);
      && b < BRANCHES && 0 <= v < t.weights[b] && v == val - Sum(t.weights[..b])
      && (t.slots[b].Sub? ==> Ok(t.slots[b].tree) && v < t.slots[b].tree.sum) && !t.slots[b].Free?
  {
    assert t.weights[..0] == [];
    PickIs(t.weights, 0, val);
    var b := Pick(t.weights, 0, val).0;
    assert SlotOk(t.slots[b], t.weights[b], t.level);
  }

  /** The index that a number in `[0, sum)` selects. */
  function Choose(t: Tree, val: int): (idx: nat)
    requires Ok(t) && 0 <= val < t.sum
    decreases t
  {
    PickOk(t, val);
    var (b, v) := Pick(t.weights, 0, val);
    if t.slots[b].Sub? then Width(t) * b + Choose(t.slots[b].tree, v) else Width(t) * b
  }

  /** The weight in front of an index. */
  function Before(t: Tree, idx: nat): int
    decreases t
  {
    var b := Branch(idx, Width(t));
    if b >= |t.weights| || b >= |t.slots| then t.sum
    else Sum(t.weights[..b]) + match t.slots[b] { case Sub(s) => Before(s, Rest(idx, Width(t))) case _ => 0 }
  }

  /** Every index is selected by exactly the numbers from the weight in front of it on, as many
      as its weight. */
  lemma {:induction false} ChooseOk(t: Tree, val: int)
    requires Ok(t) && 0 <= val < t.sum
    ensures var idx := Choose(t, val);
      idx < t.max && At(t, idx).Some? && Before(t, idx) <= val < Before(t, idx) + At(t, idx).value.1
    decreases t
  {
    hide Branch, Rest, Pick;
    PickOk(t, val);
    var (b, v) := Pick(t.weights, 0, val);
    var idx := Choose(t, val);
    if t.slots[b].Sub? {
      var s := t.slots[b].tree;
      ChooseOk(s, v);
      assert SlotOk(t.slots[b], t.weights[b], t.level);
      DivMod(b, Choose(s, v), Width(t));
      IndexBound(b, Choose(s, v), Width(t));
    } else {
      DivMod(b, 0, Width(t));
      IndexBound(b, 0, Width(t));
    }
  }

  lemma {:induction false} SumMono(ws: seq<int>, a: nat, b: nat)
    requires a <= b <= |ws| && forall i :: 0 <= i < |ws| ==> ws[i] >= 0
    ensures Sum(ws[..a]) <= Sum(ws[..b])
    ensures a < b ==> Sum(ws[..a]) + ws[a] <= Sum(ws[..b])
    decreases b - a
  {
    if a < b {
      assert ws[..a + 1][..a] == ws[..a];
      SumMono(ws, a + 1, b);
    }
  }

  /** The weight in front of an index and the one at it lie within its node. */
  lemma {:induction false} BeforeBounds(t: Tree, idx: nat)
    requires Ok(t)
    ensures 0 <= Before(t, idx) <= t.sum
    ensures At(t, idx).Some? ==> At(t, idx).value.1 > 0 && Before(t, idx) + At(t, idx).value.1 <= t.sum
    decreases t
  {
    hide Branch, Rest;
    TreeNonneg(t);
    AtSlot(t, idx);
    var b := Branch(idx, Width(t));
    if b < BRANCHES {
      assert SlotOk(t.slots[b], t.weights[b], t.level);
      assert t.weights[..0] == [] && t.weights[..BRANCHES] == t.weights;
      SumMono(t.weights, 0, b);
      SumMono(t.weights, b, BRANCHES);
      if t.slots[b].Sub? { BeforeBounds(t.slots[b].tree, Rest(idx, Width(t))); }
    }
  }

  /** Items do not overlap. */
  lemma {:induction false} BeforeMono(t: Tree, i: nat, j: nat)
    requires Ok(t) && i < j && At(t, i).Some? && At(t, j).Some?
    ensures Before(t, i) + At(t, i).value.1 <= Before(t, j)
    decreases t
  {
    hide Branch, Rest;
    TreeNonneg(t);
    AtSlot(t, i);
    AtSlot(t, j);
    var b, c := Branch(i, Width(t)), Branch(j, Width(t));
    SplitIndex(i, Width(t));
    SplitIndex(j, Width(t));
    BranchMono(i, j, Width(t));
    assert SlotOk(t.slots[b], t.weights[b], t.level) && SlotOk(t.slots[c], t.weights[c], t.level);
    if b == c {
      if t.slots[b].Sub? {
        BeforeMono(t.slots[b].tree, Rest(i, Width(t)), Rest(j, Width(t)));
      } else {
        LeafRest(t, i);
        LeafRest(t, j);
      }
    } else {
      SumMono(t.weights, b, c);
      if t.slots[b].Sub? { BeforeBounds(t.slots[b].tree, Rest(i, Width(t))); }
      if t.slots[c].Sub? { BeforeBounds(t.slots[c].tree, Rest(j, Width(t))); }
    }
  }

  lemma BranchMono(i: nat, j: nat, w: nat)
    requires i <= j && w > 0
    ensures Branch(i, w) <= Branch(j, w)
  {
    SplitIndex(i, w);
    SplitIndex(j, w);
    Ordered(w, Branch(i, w), Rest(i, w), Branch(j, w), Rest(j, w));
  }

  lemma Ordered(w: nat, a: int, r: nat, b: int, s: nat)
    requires w * a + r <= w * b + s && s < w
    ensures a <= b
  {
    assert w * (a - b) <= s - r;
    if a > b { Times(w, a - b); }
  }

  /** A number selects an index if and only if it lies in the interval of that index. */
  lemma ChooseExact(t: Tree, val: int, idx: nat)
    requires Ok(t) && 0 <= val < t.sum && At(t, idx).Some?
    ensures Choose(t, val) == idx <==> Before(t, idx) <= val < Before(t, idx) + At(t, idx).value.1
  {
    ChooseOk(t, val);
    var c := Choose(t, val);
    if c < idx { BeforeMono(t, c, idx); }
    if idx < c { BeforeMono(t, idx, c); }
  }

  /** Where the chosen index is. */
  lemma ChosenAt(t: Tree, val: int)
    requires Ok(t) && 0 <= val < t.sum
    ensures var (b, v) := Pick(t.weights, 0, val);
      && b < BRANCHES && |t.slots| == BRANCHES
      && (t.slots[b].Sub? ==>
            var sub := t.slots[b].tree;
            Ok(sub) && 0 <= v < sub.sum && At(t, Choose(t, val)) == At(sub, Choose(sub, v)))
      && (t.slots[b].Holds? ==> At(t, Choose(t, val)) == Some((t.slots[b].item, t.weights[b])))
  {
    hide Branch, Rest, Pick;
    PickOk(t, val);
    var (b, v) := Pick(t.weights, 0, val);
    assert SlotOk(t.slots[b], t.weights[b], t.level);
    if t.slots[b].Sub? {
      ChooseOk(t.slots[b].tree, v);
      DivMod(b, Choose(t.slots[b].tree, v), Width(t));
    } else {
      DivMod(b, 0, Width(t));
    }
  }

  lemma AtBound(t: Tree, idx: nat)
    requires Ok(t)
    ensures At(t, idx).Some? ==> idx < t.max
  {
    AtSlot(t, idx);
    SplitIndex(idx, Width(t));
    if Branch(idx, Width(t)) < BRANCHES { IndexBound(Branch(idx, Width(t)), Rest(idx, Width(t)), Width(t)); }
  }

  lemma LeafIndex(t: Tree, idx: nat)
    requires Ok(t) && t.level == 0 && At(t, idx).Some?
    ensures idx < BRANCHES && Branch(idx, Width(t)) == idx && t.slots[idx].Holds?
  {
    assert Width(t) == 1;
    AtSlot(t, idx);
    assert SlotOk(t.slots[idx], t.weights[idx], t.level);
  }

  lemma BranchIs(t: Tree, idx: nat)
    requires Ok(t) && t.level > 0
    ensures Width(t) == t.max / 8 && idx / Width(t) == Branch(idx, Width(t))
    ensures idx - Branch(idx, Width(t)) * Width(t) == Rest(idx, Width(t))
  {
    Shape(t);
    SplitIndex(idx, Width(t));
  }

  lemma SubAt(t: Tree, idx: nat)
    requires Ok(t) && t.level > 0 && At(t, idx).Some?
    ensures var b := Branch(idx, Width(t));
      b < BRANCHES && t.slots[b].Sub? && At(t.slots[b].tree, Rest(idx, Width(t))).Some?
  {
    AtSlot(t, idx);
    var b := Branch(idx, Width(t));
    assert SlotOk(t.slots[b], t.weights[b], t.level);
  }

  // --- growing ---

  /** A new root above a full one. */
  function Grow(t: Tree): Tree {
    var f := Fresh(t.level + 1);
    Node(t.level + 1, f.slots[0 := Sub(t)], f.weights[0 := t.sum], t.sum, t.cnt, t.max * 8)
  }

  lemma GrowOk(t: Tree)
    requires Ok(t)
    ensures Ok(Grow(t)) && Grow(t).cnt < Grow(t).max
    ensures forall idx: nat :: idx < t.max ==> At(Grow(t), idx) == At(t, idx)
    ensures forall idx: nat :: At(Grow(t), idx).Some? ==> idx < t.max
  {
    hide Branch, Rest;
    var f, g := Fresh(t.level + 1), Grow(t);
    FreshOk(t.level + 1);
    TreeNonneg(t);
    Pow8Pos(t.level);
    SumUpdate(f.weights, 0, t.sum);
    CountsUpdate(f.slots, 0, Sub(t));
    forall idx: nat ensures idx < t.max ==> At(g, idx) == At(t, idx) ensures At(g, idx).Some? ==> idx < t.max {
      AtChanged(f, g, 0, Sub(t), t.sum, idx);
      SplitIndex(idx, Width(f));
      if idx < t.max { DivMod(0, idx, Width(f)); }
    }
  }
}
