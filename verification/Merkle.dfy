/**
 * The Merkle path checker, for trees of every depth. Collisions are excluded
 * only among the pairs that the tree and the path themselves hash.
 */
module Merkle {
  import opened Modular
  import opened Primes

  type Hash = (int, int) -> int

  datatype Tree = Leaf(value: int) | Node(left: Tree, right: Tree)

  predicate Full(t: Tree, depth: nat) {
    match t
    case Leaf(_) => depth == 0
    case Node(left, right) => depth > 0 && Full(left, depth - 1) && Full(right, depth - 1)
  }

  function Root(h: Hash, t: Tree): int {
    match t
    case Leaf(value) => value
    case Node(left, right) => h(Root(h, left), Root(h, right))
  }

  function Leaves(t: Tree): seq<int> {
    match t
    case Leaf(value) => [value]
    case Node(left, right) => Leaves(left) + Leaves(right)
  }

  // ---- the circuit ----

  /** The constraint on a selector: s (1 - s) = 0 in the field. */
  ghost predicate Selector(p: Modulus, s: int) {
    0 <= s < p && Cong(p, s * (1 - s), 0)
  }

  /** What one level hashes: (current, sibling) if s is 0, (sibling, current) if s is 1. */
  function Inputs(current: int, sibling: int, s: int): (int, int) {
    if s == 0 then (current, sibling) else (sibling, current)
  }

  function Level(h: Hash, current: int, sibling: int, s: int): int {
    var pair := Inputs(current, sibling, s);
    h(pair.0, pair.1)
  }

  /** The last of levelHashes. */
  function Climb(h: Hash, leaf: int, elements: seq<int>, indices: seq<int>): int
    requires |elements| == |indices|
    decreases |elements|
  {
    if elements == [] then leaf
    else Climb(h, Level(h, leaf, elements[0], indices[0]), elements[1..], indices[1..])
  }

  ghost predicate Accepts(p: Modulus, h: Hash, leaf: int, elements: seq<int>, indices: seq<int>, root: int) {
    && |elements| == |indices|
    && (forall i :: 0 <= i < |indices| ==> Selector(p, indices[i]))
    && Climb(h, leaf, elements, indices) == root
  }

  // ---- what a path means ----

  predicate Bits(indices: seq<int>) {
    forall i :: 0 <= i < |indices| ==> indices[i] == 0 || indices[i] == 1
  }

  /** The leaf number the selectors spell, lowest level first. */
  function Position(indices: seq<int>): nat
    requires Bits(indices)
  {
    if indices == [] then 0 else indices[0] + 2 * Position(indices[1..])
  }

  function Width(depth: nat): nat {
    if depth == 0 then 1 else 2 * Width(depth - 1)
  }

  function LeafAt(t: Tree, indices: seq<int>): int
    requires Full(t, |indices|)
  {
    if indices == [] then t.value
    else LeafAt(if Last(indices) == 0 then t.left else t.right, Init(indices))
  }

  function PathOf(h: Hash, t: Tree, indices: seq<int>): (elements: seq<int>)
    requires Full(t, |indices|)
    ensures |elements| == |indices|
  {
    if indices == [] then []
    else if Last(indices) == 0 then PathOf(h, t.left, Init(indices)) + [Root(h, t.right)]
    else PathOf(h, t.right, Init(indices)) + [Root(h, t.left)]
  }

  function Last(s: seq<int>): int
    requires s != []
  {
    s[|s| - 1]
  }

  function Init(s: seq<int>): seq<int>
    requires s != []
  {
    s[..|s| - 1]
  }

  // ---- the pairs hashed ----

  function Hashed(h: Hash, t: Tree): set<(int, int)> {
    match t
    case Leaf(_) => {}
    case Node(left, right) => {(Root(h, left), Root(h, right))} + Hashed(h, left) + Hashed(h, right)
  }

  function Climbed(h: Hash, leaf: int, elements: seq<int>, indices: seq<int>): set<(int, int)>
    requires |elements| == |indices|
    decreases |elements|
  {
    if elements == [] then {}
    else
      var below := Climb(h, leaf, Init(elements), Init(indices));
      {Inputs(below, Last(elements), Last(indices))} + Climbed(h, leaf, Init(elements), Init(indices))
  }

  ghost predicate NoCollision(h: Hash, a: set<(int, int)>, b: set<(int, int)>) {
    forall u, v :: u in a && v in b && h(u.0, u.1) == h(v.0, v.1) ==> u == v
  }

  // ---- proofs ----

  /** One level: selector 0 puts the leaf on the left of its sibling, selector 1 on the right. */
  lemma OneLevel(p: int, h: Hash, leaf: int, sibling: int, s: int, root: int)
    requires Prime(p)
    ensures Accepts(p, h, leaf, [sibling], [s], root) <==>
              (s == 0 && root == h(leaf, sibling)) || (s == 1 && root == h(sibling, leaf))
  {
    SelectorIsBit(p, s);
    var elements, indices := [sibling], [s];
    assert elements[1..] == [] && indices[1..] == [];
    assert Climb(h, leaf, elements, indices) == Level(h, leaf, sibling, s);
    assert Accepts(p, h, leaf, elements, indices, root) ==> Selector(p, indices[0]);
    assert Selector(p, s) ==> forall i :: 0 <= i < |indices| ==> Selector(p, indices[i]);
  }

  /** The selector constraint admits 0 and 1 and nothing else. */
  lemma SelectorIsBit(p: int, s: int)
    requires Prime(p)
    ensures Selector(p, s) <==> s == 0 || s == 1
  {
    ModUnique(p, 0, 0, 0);
    if Selector(p, s) {
      Euclid(p, s, 1 - s);
      if Cong(p, s, 0) { CongSmall(p, s, 0); }
      if Cong(p, 1 - s, 0) {
        CongAdd(p, 1, 1, 1 - s, 0);
        CongSmall(p, s, 1);
      }
    }
  }

  /** Climbing one level more is hashing once more at the end. */
  lemma {:induction false} ClimbLast(h: Hash, leaf: int, elements: seq<int>, indices: seq<int>)
    requires |elements| == |indices| > 0
    ensures Climb(h, leaf, elements, indices)
         == Level(h, Climb(h, leaf, Init(elements), Init(indices)), Last(elements), Last(indices))
    decreases |elements|
  {
    if |elements| > 1 {
      ClimbLast(h, Level(h, leaf, elements[0], indices[0]), elements[1..], indices[1..]);
      assert Init(elements)[1..] == Init(elements[1..]) && Init(indices)[1..] == Init(indices[1..]);
    }
  }

  lemma {:induction false} PathClimbsToRoot(h: Hash, t: Tree, indices: seq<int>)
    requires Full(t, |indices|) && Bits(indices)
    ensures Climb(h, LeafAt(t, indices), PathOf(h, t, indices), indices) == Root(h, t)
    decreases |indices|
  {
    if indices != [] {
      var child := if Last(indices) == 0 then t.left else t.right;
      PathClimbsToRoot(h, child, Init(indices));
      ClimbLast(h, LeafAt(t, indices), PathOf(h, t, indices), indices);
      assert Init(PathOf(h, t, indices)) == PathOf(h, child, Init(indices));
    }
  }

  lemma {:induction false} ClimbForcesPath(h: Hash, t: Tree, leaf: int, elements: seq<int>, indices: seq<int>)
    requires Full(t, |indices|) && Bits(indices) && |elements| == |indices|
    requires Climb(h, leaf, elements, indices) == Root(h, t)
    requires NoCollision(h, Climbed(h, leaf, elements, indices), Hashed(h, t))
    ensures leaf == LeafAt(t, indices) && elements == PathOf(h, t, indices)
    decreases |indices|
  {
    if indices != [] {
      var child := if Last(indices) == 0 then t.left else t.right;
      var below := Climb(h, leaf, Init(elements), Init(indices));
      ClimbLast(h, leaf, elements, indices);
      assert Inputs(below, Last(elements), Last(indices)) in Climbed(h, leaf, elements, indices);
      assert (Root(h, t.left), Root(h, t.right)) in Hashed(h, t);
      assert Hashed(h, child) <= Hashed(h, t);
      ClimbForcesPath(h, child, leaf, Init(elements), Init(indices));
      assert elements == Init(elements) + [Last(elements)];
    }
  }

  /**
   * The checker outputs the root of a tree for exactly the leaf and the
   * siblings at the position its selectors give.
   */
  lemma PathIffMember(p: int, h: Hash, t: Tree, leaf: int, elements: seq<int>, indices: seq<int>)
    requires Prime(p) && Full(t, |indices|) && |elements| == |indices|
    requires NoCollision(h, Climbed(h, leaf, elements, indices), Hashed(h, t))
    ensures Accepts(p, h, leaf, elements, indices, Root(h, t)) <==>
            Bits(indices) && leaf == LeafAt(t, indices) && elements == PathOf(h, t, indices)
  {
    forall i | 0 <= i < |indices| ensures Selector(p, indices[i]) <==> indices[i] == 0 || indices[i] == 1 {
      SelectorIsBit(p, indices[i]);
    }
    if Bits(indices) {
      PathClimbsToRoot(h, t, indices);
      if Climb(h, leaf, elements, indices) == Root(h, t) { ClimbForcesPath(h, t, leaf, elements, indices); }
    }
  }

  // ---- positions ----

  lemma {:induction false} LeafCount(t: Tree, depth: nat)
    requires Full(t, depth)
    ensures |Leaves(t)| == Width(depth)
  {
    if depth > 0 {
      LeafCount(t.left, depth - 1);
      LeafCount(t.right, depth - 1);
    }
  }

  /** The last selector is worth half the width of its tree. */
  lemma {:induction false} PositionLast(indices: seq<int>)
    requires Bits(indices) && indices != []
    ensures Position(indices) == Position(Init(indices)) + Last(indices) * Width(|indices| - 1)
    decreases |indices|
  {
    if |indices| > 1 {
      PositionLast(indices[1..]);
      assert Init(indices)[1..] == Init(indices[1..]);
      Doubled(Position(Init(indices[1..])), Last(indices), Width(|indices| - 2));
    } else {
      assert Position(indices[1..]) == 0;
    }
  }

  lemma Doubled(a: int, b: int, w: int)
    ensures 2 * (a + b * w) == 2 * a + b * (2 * w)
  {}

  /** The leaf on the path is the leaf at the position its selectors spell in binary. */
  lemma {:induction false} SelectorsSpellPosition(t: Tree, indices: seq<int>)
    requires Full(t, |indices|) && Bits(indices)
    ensures Position(indices) < |Leaves(t)| && Leaves(t)[Position(indices)] == LeafAt(t, indices)
    decreases |indices|
  {
    if indices != [] {
      var depth := |indices| - 1;
      var child := if Last(indices) == 0 then t.left else t.right;
      SelectorsSpellPosition(child, Init(indices));
      PositionLast(indices);
      LeafCount(t.left, depth);
      LeafCount(t.right, depth);
      PickSide(Leaves(t.left), Leaves(t.right), Last(indices), Position(Init(indices)));
    }
  }

  lemma PickSide(left: seq<int>, right: seq<int>, side: int, i: nat)
    requires |left| == |right| && (side == 0 || side == 1) && i < |left|
    ensures 0 <= i + side * |left| < |left + right|
    ensures (left + right)[i + side * |left|] == if side == 0 then left[i] else right[i]
  {}
}
