/** The radix tree for 32-bit keys (src/core/ngx_radix_tree.c).
  *
  * Nodes are numbered; `parent`, `left` and `right` are node numbers.  The ghost map `at` says which node stands for
  * which string of bits, so that the tree is a set of strings and its contents a map from strings to values.
  * A word is read bit by bit from the top; the single bit that the code shifts right is its position here.
  */
module RadixTree {
  import opened Bytes

  type Id = nat
  type Value = nat
  type Bits = seq<bool>

  /** ngx_radix_node_t; no value stands for NGX_RADIX_NO_VALUE. */
  datatype Node = Node(left: Option<Id>, right: Option<Id>, parent: Option<Id>, value: Option<Value>)

  const DEPTH := 32

  // ---------------------------------------------------------------- words

  /** The n low bits of a word, the highest first. */
  function Digits(x: nat, n: nat): (r: Bits)
    ensures |r| == n
    decreases x, n
  {
    if n == 0 then [] else Digits(x / 2, n - 1) + [x % 2 == 1]
  }

  function Word(x: nat): (r: Bits)
    ensures |r| == DEPTH
  {
    Digits(x, DEPTH)
  }

  /** `word & bit`, where `bit` has been shifted d times. */
  predicate Test(w: Bits, d: nat)
    requires |w| == DEPTH
  {
    d < DEPTH && w[d]
  }

  /** How many leading bits of a mask are set, at least d of them. */
  function Ones(mask: Bits, d: nat): (n: nat)
    requires |mask| == DEPTH && d <= DEPTH
    ensures d <= n <= DEPTH
    decreases |mask| - d
  {
    if Test(mask, d) then Ones(mask, d + 1) else d
  }

  lemma {:induction false} OnesTest(mask: Bits, d: nat, i: nat)
    requires |mask| == DEPTH && d <= DEPTH && d <= i <= Ones(mask, d)
    ensures Test(mask, i) <==> i < Ones(mask, d)
    decreases |mask| - d
  {
    if Test(mask, d) && d < i {
      OnesTest(mask, d + 1, i);
    }
  }

  /** The prefix that a key and a mask stand for. */
  function Prefix(key: nat, mask: nat): (p: Bits)
    ensures |p| <= DEPTH
  {
    Word(key)[..Ones(Word(mask), 0)]
  }

  ghost function Pow2(n: nat): (r: nat)
    ensures r > 0
  {
    if n == 0 then 1 else 2 * Pow2(n - 1)
  }

  /** The number a string of bits stands for. */
  ghost function Val(p: Bits): nat {
    if p == [] then 0 else 2 * Val(p[..|p| - 1]) + if p[|p| - 1] then 1 else 0
  }

  lemma {:induction false} ValIsSmall(p: Bits)
    ensures Val(p) < Pow2(|p|)
    decreases |p|
  {
    if p != [] {
      ValIsSmall(p[..|p| - 1]);
    }
  }

  lemma {:induction false} ValOfDigits(x: nat, n: nat)
    requires x < Pow2(n)
    ensures Val(Digits(x, n)) == x
    decreases n
  {
    if n > 0 {
      ValOfDigits(x / 2, n - 1);
      assert Digits(x, n)[..n - 1] == Digits(x / 2, n - 1);
    }
  }

  lemma {:induction false} DigitsOfVal(p: Bits)
    ensures Digits(Val(p), |p|) == p
    decreases |p|
  {
    if p != [] {
      DigitsOfVal(p[..|p| - 1]);
      assert Val(p) / 2 == Val(p[..|p| - 1]);
    }
  }

  function Zeros(n: nat): (r: Bits)
    ensures |r| == n && forall i | 0 <= i < n :: !r[i]
  {
    if n == 0 then [] else Zeros(n - 1) + [false]
  }

  /** Shifting left appends zero bits. */
  lemma {:induction false} DigitsShifted(x: nat, n: nat, j: nat)
    ensures Digits(x * Pow2(j), n + j) == Digits(x, n) + Zeros(j)
    decreases j
  {
    if j > 0 {
      var y := x * Pow2(j - 1);
      assert x * Pow2(j) == 2 * y;
      DigitsShifted(x, n, j - 1);
    }
  }

  ghost predicate AllSet(p: Bits) {
    forall i | 0 <= i < |p| :: p[i]
  }

  lemma {:induction false} DigitsAllSet(n: nat, k: nat)
    requires k == Pow2(n) - 1
    ensures AllSet(Digits(k, n))
    decreases n
  {
    if n > 0 {
      DigitsAllSet(n - 1, k / 2);
    }
  }

  lemma {:induction false} OnesAre(mask: Bits, d: nat, n: nat)
    requires |mask| == DEPTH && d <= n <= DEPTH && (forall i | 0 <= i < n :: mask[i]) && (n < DEPTH ==> !mask[n])
    ensures Ones(mask, d) == n
    decreases n - d
  {
    if d < n {
      OnesAre(mask, d + 1, n);
    }
  }

  lemma {:induction false} PowSum(a: nat, b: nat)
    ensures Pow2(a) * Pow2(b) == Pow2(a + b)
    decreases a
  {
    if a > 0 {
      PowSum(a - 1, b);
    }
  }

  const HIGH := 0x8000_0000

  /** The mask after n rounds of `mask >>= 1; mask |= 0x80000000`; the shift leaves the high bit clear. */
  ghost function MaskOf(n: nat): nat {
    if n == 0 then 0 else MaskOf(n - 1) / 2 + HIGH
  }

  lemma Distribute(a: nat, b: nat, h: nat)
    ensures (a + b) * h == a * h + b * h
  {
  }

  lemma {:induction false} MaskIs(n: nat) returns (ones: nat)
    requires n <= DEPTH
    ensures ones == Pow2(n) - 1 && MaskOf(n) == ones * Pow2(DEPTH - n)
    decreases n
  {
    ones := Pow2(n) - 1;
    if n > 0 {
      var fewer := MaskIs(n - 1);
      PowSum(n - 1, DEPTH - n);
      HighBit();
      MaskArith(Pow2(n - 1), Pow2(DEPTH - n), MaskOf(n - 1));
    }
  }

  lemma MaskArith(k: nat, h: nat, mask: nat)
    requires k > 0 && mask == (k - 1) * (2 * h) && k * h == HIGH
    ensures mask / 2 + HIGH == (2 * k - 1) * h
  {
    Distribute(k - 1, k, h);
    assert mask == 2 * ((k - 1) * h);
  }

  lemma HighBit()
    ensures Pow2(DEPTH - 1) == HIGH && Pow2(DEPTH) == 2 * HIGH
  {
    assert Pow2(8) == 256;
    PowSum(8, 8);
    PowSum(16, 8);
    PowSum(24, 7);
    assert Pow2(7) == 128;
  }

  /** The key after j rounds of `key += inc`. */
  ghost function KeyOf(j: nat, inc: nat): nat {
    if j == 0 then 0 else KeyOf(j - 1, inc) + inc
  }

  lemma {:induction false} KeyIs(j: nat, inc: nat)
    ensures KeyOf(j, inc) == j * inc
    decreases j
  {
    if j > 0 {
      KeyIs(j - 1, inc);
      Distribute(j - 1, 1, inc);
    }
  }

  /** Addition of words that overflows by less than a word. */
  function Wrap(x: nat): nat {
    if x >= 2 * HIGH then x - 2 * HIGH else x
  }

  /** The key comes back to zero after the last string of n bits and not before. */
  lemma KeyWraps(j: nat, n: nat)
    requires n <= DEPTH && 0 < j <= Pow2(n)
    ensures var key := KeyOf(j, Pow2(DEPTH - n)); Wrap(key) == if j == Pow2(n) then 0 else key
    ensures KeyOf(j, Pow2(DEPTH - n)) > 0
  {
    var inc, rest := Pow2(DEPTH - n), Pow2(n) - j;
    KeyIs(j, inc);
    PowSum(n, DEPTH - n);
    HighBit();
    Distribute(j, rest, inc);
    Distribute(j - 1, 1, inc);
    assert rest > 0 ==> rest * inc > 0;
  }

  lemma WordShifted(x: nat, k: nat, n: nat)
    requires n <= DEPTH && x == k * Pow2(DEPTH - n)
    ensures Word(x) == Digits(k, n) + Zeros(DEPTH - n)
  {
    DigitsShifted(k, n, DEPTH - n);
  }

  lemma OnesOfMask(n: nat, mask: nat)
    requires n <= DEPTH && mask == MaskOf(n)
    ensures Ones(Word(mask), 0) == n
  {
    var k := MaskIs(n);
    WordShifted(mask, k, n);
    DigitsAllSet(n, k);
    OnesThenZeros(Digits(k, n), n);
  }

  lemma OnesThenZeros(ones: Bits, n: nat)
    requires |ones| == n <= DEPTH && AllSet(ones)
    ensures Ones(ones + Zeros(DEPTH - n), 0) == n
  {
    OnesAre(ones + Zeros(DEPTH - n), 0, n);
  }

  /** Key j at the top, under the mask of n ones, stands for the n digits of j. */
  lemma PrefixOfKey(j: nat, n: nat, key: nat, mask: nat) returns (p: Bits)
    requires n <= DEPTH && j < Pow2(n) && key == KeyOf(j, Pow2(DEPTH - n)) && mask == MaskOf(n)
    ensures p == Prefix(key, mask) && |p| == n && Val(p) == j
  {
    KeyIs(j, Pow2(DEPTH - n));
    WordShifted(key, j, n);
    OnesOfMask(n, mask);
    p := Digits(j, n);
    ValOfDigits(j, n);
  }

  /** The increment after n rounds of `inc >>= 1`. */
  ghost function IncOf(n: nat): nat {
    if n == 0 then HIGH else IncOf(n - 1) / 2
  }

  lemma {:induction false} IncIs(n: nat)
    requires n < DEPTH
    ensures IncOf(n) == Pow2(DEPTH - 1 - n)
    decreases n
  {
    if n == 0 {
      HighBit();
    } else {
      IncIs(n - 1);
    }
  }

  // ---------------------------------------------------------------- shape

  function Parent(p: Bits): Bits
    requires p != []
  {
    p[..|p| - 1]
  }

  function Child(p: Bits, b: bool): Bits {
    p + [b]
  }

  ghost function Link(at: map<Bits, Id>, p: Bits): Option<Id> {
    if p in at then Some(at[p]) else None
  }

  ghost predicate Placed(n: Node, at: map<Bits, Id>, p: Bits) {
    && n.left == Link(at, Child(p, false)) && n.right == Link(at, Child(p, true))
    && n.parent == if p == [] then None else Link(at, Parent(p))
  }

  /** Links in both directions agree with the strings, and no node is deeper than a word is long. */
  ghost predicate Shape(nodes: map<Id, Node>, at: map<Bits, Id>) {
    && [] in at
    && (forall p {:trigger at[p]} | p in at :: |p| <= DEPTH && at[p] in nodes && (p != [] ==> Parent(p) in at))
    && (forall p, q {:trigger at[p], at[q]} | p in at && q in at && at[p] == at[q] :: p == q)
    && (forall p {:trigger Placed(nodes[at[p]], at, p)} | p in at :: Placed(nodes[at[p]], at, p))
  }

  /** The free list runs through `right`. */
  ghost predicate FreeList(nodes: map<Id, Node>, free: Option<Id>, spare: seq<Id>)
    decreases |spare|
  {
    if spare == [] then free == None
    else free == Some(spare[0]) && spare[0] in nodes && FreeList(nodes, nodes[spare[0]].right, spare[1..])
  }

  /** Tree and free list share no node. */
  ghost predicate Apart(at: map<Bits, Id>, spare: seq<Id>) {
    && (forall p {:trigger at[p]} | p in at :: at[p] !in spare)
    && (forall i, j | 0 <= i < j < |spare| :: spare[i] != spare[j])
  }

  /** The tree holds exactly this table of prefixes. */
  ghost predicate Holds(nodes: map<Id, Node>, at: map<Bits, Id>, table: map<Bits, Value>)
    requires forall p {:trigger at[p]} | p in at :: at[p] in nodes
  {
    && (forall p | p in table :: p in at && nodes[at[p]].value == Some(table[p]))
    && (forall p {:trigger at[p]} | p in at && p !in table :: nodes[at[p]].value == None)
  }

  ghost predicate IsLeaf(at: map<Bits, Id>, p: Bits) {
    Child(p, false) !in at && Child(p, true) !in at
  }

  // ---------------------------------------------------------------- strings

  lemma ChildParent(p: Bits, b: bool)
    ensures Child(p, b) != [] && Parent(Child(p, b)) == p
  {
  }

  lemma ParentChild(p: Bits)
    requires p != []
    ensures p == Child(Parent(p), p[|p| - 1])
  {
  }

  lemma ChildIsUnique(p: Bits, b: bool, q: Bits, c: bool)
    requires Child(p, b) == Child(q, c)
    ensures p == q && b == c
  {
    ChildParent(p, b);
    ChildParent(q, c);
    assert Child(p, b)[|p|] == b && Child(q, c)[|q|] == c;
  }

  /** With a string the tree has all its prefixes. */
  lemma {:induction false} PrefixIsThere(nodes: map<Id, Node>, at: map<Bits, Id>, p: Bits, k: nat)
    requires Shape(nodes, at) && p in at && k <= |p|
    ensures p[..k] in at
    decreases |p|
  {
    if k < |p| {
      PrefixIsThere(nodes, at, Parent(p), k);
      assert Parent(p)[..k] == p[..k];
    } else {
      assert p[..k] == p;
    }
  }

  // ---------------------------------------------------------------- changes to the tree

  function SetChild(n: Node, b: bool, child: Option<Id>): Node {
    if b then n.(right := child) else n.(left := child)
  }

  /** A new leaf below p. */
  function Grown(nodes: map<Id, Node>, parent: Id, b: bool, id: Id): map<Id, Node>
    requires parent in nodes
  {
    nodes[id := Node(None, None, Some(parent), None)][parent := SetChild(nodes[parent], b, Some(id))]
  }

  lemma GrownPlaces(nodes: map<Id, Node>, at: map<Bits, Id>, p: Bits, b: bool, id: Id, q: Bits)
    requires Shape(nodes, at) && p in at && Child(p, b) !in at && (forall x | x in at :: at[x] != id)
    requires q in at
    ensures var nodes', at' := Grown(nodes, at[p], b, id), at[Child(p, b) := id];
      q in at' && at'[q] in nodes' && Placed(nodes'[at'[q]], at', q)
  {
    var nodes' := Grown(nodes, at[p], b, id);
    assert nodes'[at[q]] == if q == p then SetChild(nodes[at[p]], b, Some(id)) else nodes[at[q]];
    GrownPlaced(nodes[at[q]], at, p, b, id, q);
  }

  lemma GrownPlaced(n: Node, at: map<Bits, Id>, p: Bits, b: bool, id: Id, q: Bits)
    requires Placed(n, at, q) && Child(p, b) !in at && (q != [] ==> Parent(q) in at)
    ensures Placed(if q == p then SetChild(n, b, Some(id)) else n, at[Child(p, b) := id], q)
  {
    var c := Child(p, b);
    if Child(q, false) == c {
      ChildIsUnique(q, false, p, b);
    }
    if Child(q, true) == c {
      ChildIsUnique(q, true, p, b);
    }
  }

  lemma GrownShape(nodes: map<Id, Node>, at: map<Bits, Id>, p: Bits, b: bool, id: Id)
    requires Shape(nodes, at) && p in at && |p| < DEPTH && Child(p, b) !in at && (forall x | x in at :: at[x] != id)
    ensures Shape(Grown(nodes, at[p], b, id), at[Child(p, b) := id])
  {
    var c, nodes', at' := Child(p, b), Grown(nodes, at[p], b, id), at[Child(p, b) := id];
    ChildParent(p, b);
    forall q | q in at'
      ensures |q| <= DEPTH && at'[q] in nodes' && (q != [] ==> Parent(q) in at') && Placed(nodes'[at'[q]], at', q)
    {
      if q != c {
        GrownPlaces(nodes, at, p, b, id, q);
      } else {
        LeafBelowNew(nodes, at, c, p, b);
        assert Placed(nodes'[id], at', c);
      }
    }
  }

  /** Nothing hangs below a string that is not there. */
  lemma LeafBelowNew(nodes: map<Id, Node>, at: map<Bits, Id>, c: Bits, p: Bits, b: bool)
    requires Shape(nodes, at) && c !in at && c == Child(p, b)
    ensures IsLeaf(at, c) && Child(c, false) != c && Child(c, true) != c
  {
    forall d: bool
      ensures Child(c, d) !in at && Child(c, d) != c
    {
      ChildParent(c, d);
    }
  }

  lemma GrownHolds(nodes: map<Id, Node>, at: map<Bits, Id>, table: map<Bits, Value>, p: Bits, b: bool, id: Id)
    requires (forall x | x in at :: at[x] in nodes && at[x] != id) && p in at && Child(p, b) !in at
    requires Holds(nodes, at, table)
    ensures Holds(Grown(nodes, at[p], b, id), at[Child(p, b) := id], table)
  {
    var nodes', at' := Grown(nodes, at[p], b, id), at[Child(p, b) := id];
    assert forall q | q in at :: at'[q] == at[q] && nodes'[at[q]].value == nodes[at[q]].value;
  }

  /** A leaf is unlinked and heads the free list. */
  function Pruned(nodes: map<Id, Node>, parent: Id, b: bool, id: Id, free: Option<Id>): map<Id, Node>
    requires parent in nodes && id in nodes
  {
    var cut := nodes[parent := SetChild(nodes[parent], b, None)];
    cut[id := cut[id].(right := free)]
  }

  lemma PrunedAt(nodes: map<Id, Node>, parent: Id, b: bool, id: Id, free: Option<Id>, x: Id)
    requires parent in nodes && id in nodes && x in nodes && x != id
    ensures Pruned(nodes, parent, b, id, free)[x] == if x == parent then SetChild(nodes[x], b, None) else nodes[x]
  {
  }

  lemma PrunedPlaces(nodes: map<Id, Node>, at: map<Bits, Id>, p: Bits, b: bool, free: Option<Id>, q: Bits)
    requires Shape(nodes, at) && p in at && Child(p, b) in at && q in at && q != Child(p, b)
    requires q != [] ==> Parent(q) != Child(p, b)
    ensures var c := Child(p, b);
      var nodes', at' := Pruned(nodes, at[p], b, at[c], free), at - {c};
      at'[q] in nodes' && Placed(nodes'[at'[q]], at', q)
  {
    var c := Child(p, b);
    PrunedAt(nodes, at[p], b, at[c], free, at[q]);
    CutPlaced(nodes[at[q]], at, p, b, q);
    assert q == p <==> at[q] == at[p];
    assert (at - {c})[q] == at[q];
  }

  /** Every other node is in its place once the link to the leaf is cut. */
  lemma CutPlaced(n: Node, at: map<Bits, Id>, p: Bits, b: bool, q: Bits)
    requires Placed(n, at, q) && (q != [] ==> Parent(q) != Child(p, b))
    ensures Placed(if q == p then SetChild(n, b, None) else n, at - {Child(p, b)}, q)
  {
    var c := Child(p, b);
    if Child(q, false) == c {
      ChildIsUnique(q, false, p, b);
    }
    if Child(q, true) == c {
      ChildIsUnique(q, true, p, b);
    }
  }

  /** A string whose parent is there is not below a leaf. */
  lemma ParentIsNoLeaf(at: map<Bits, Id>, q: Bits, c: Bits)
    requires q != [] && q in at && IsLeaf(at, c)
    ensures Parent(q) != c
  {
    ParentChild(q);
  }

  lemma PrunedShape(nodes: map<Id, Node>, at: map<Bits, Id>, p: Bits, b: bool, free: Option<Id>)
    requires Shape(nodes, at) && p in at && Child(p, b) in at && IsLeaf(at, Child(p, b))
    ensures Shape(Pruned(nodes, at[p], b, at[Child(p, b)], free), at - {Child(p, b)})
  {
    var c := Child(p, b);
    var nodes', at' := Pruned(nodes, at[p], b, at[c], free), at - {c};
    forall q | q in at'
      ensures |q| <= DEPTH && at'[q] in nodes' && (q != [] ==> Parent(q) in at') && Placed(nodes'[at'[q]], at', q)
    {
      if q != [] {
        ParentIsNoLeaf(at, q, c);
      }
      PrunedPlaces(nodes, at, p, b, free, q);
    }
  }

  lemma PrunedHolds(nodes: map<Id, Node>, at: map<Bits, Id>, table: map<Bits, Value>, p: Bits, b: bool, free: Option<Id>)
    requires Shape(nodes, at) && p in at && Child(p, b) in at && Holds(nodes, at, table)
    ensures var c := Child(p, b);
      var nodes', at' := Pruned(nodes, at[p], b, at[c], free), at - {c};
      (forall q | q in at' :: at'[q] in nodes') && Holds(nodes', at', table - {c})
  {
    var c := Child(p, b);
    var nodes', at' := Pruned(nodes, at[p], b, at[c], free), at - {c};
    assert forall q | q in at' :: at'[q] == at[q] && nodes'[at[q]].value == nodes[at[q]].value;
  }

  function Valued(nodes: map<Id, Node>, id: Id, v: Option<Value>): map<Id, Node>
    requires id in nodes
  {
    nodes[id := nodes[id].(value := v)]
  }

  lemma ValuedShape(nodes: map<Id, Node>, at: map<Bits, Id>, p: Bits, v: Option<Value>)
    requires Shape(nodes, at) && p in at
    ensures Shape(Valued(nodes, at[p], v), at)
  {
    var nodes' := Valued(nodes, at[p], v);
    forall q | q in at
      ensures at[q] in nodes' && Placed(nodes'[at[q]], at, q)
    {
      assert Placed(nodes[at[q]], at, q);
    }
  }

  function Entered(table: map<Bits, Value>, p: Bits, v: Option<Value>): map<Bits, Value> {
    match v case Some(x) => table[p := x] case None => table - {p}
  }

  lemma ValuedHolds(nodes: map<Id, Node>, at: map<Bits, Id>, table: map<Bits, Value>, p: Bits, v: Option<Value>)
    requires Shape(nodes, at) && p in at && Holds(nodes, at, table)
    ensures Holds(Valued(nodes, at[p], v), at, Entered(table, p, v))
  {
    var nodes' := Valued(nodes, at[p], v);
    assert forall q | q in at && q != p :: at[q] != at[p] && nodes'[at[q]] == nodes[at[q]];
  }

  /** The free list does not look at nodes outside itself. */
  lemma {:induction false} FreeListFrame(nodes: map<Id, Node>, nodes': map<Id, Node>, free: Option<Id>, spare: seq<Id>)
    requires FreeList(nodes, free, spare)
    requires forall id | id in spare && id in nodes :: id in nodes' && nodes'[id].right == nodes[id].right
    ensures FreeList(nodes', free, spare)
    decreases |spare|
  {
    if spare != [] {
      FreeListFrame(nodes, nodes', nodes[spare[0]].right, spare[1..]);
    }
  }

  /** A node from the pool disturbs nothing. */
  lemma FreshNode(nodes: map<Id, Node>, at: map<Bits, Id>, table: map<Bits, Value>, free: Option<Id>, spare: seq<Id>, id: Id)
    requires Shape(nodes, at) && Holds(nodes, at, table) && FreeList(nodes, free, spare) && id !in nodes
    ensures var nodes' := nodes[id := Node(None, None, None, None)];
      && Shape(nodes', at) && Holds(nodes', at, table) && FreeList(nodes', free, spare)
      && |nodes'| == |nodes| + 1 && id !in spare && forall p | p in at :: at[p] != id
  {
    var nodes' := nodes[id := Node(None, None, None, None)];
    FreeListFrame(nodes, nodes', free, spare);
    FreeListKnown(nodes, free, spare);
    assert nodes'.Keys == nodes.Keys + {id};
    assert |nodes'| == |nodes'.Keys| && |nodes| == |nodes.Keys|;
    assert forall p | p in at :: nodes'[at[p]] == nodes[at[p]];
  }

  lemma {:induction false} FreeListKnown(nodes: map<Id, Node>, free: Option<Id>, spare: seq<Id>)
    requires FreeList(nodes, free, spare)
    ensures forall id | id in spare :: id in nodes
    decreases |spare|
  {
    if spare != [] {
      FreeListKnown(nodes, nodes[spare[0]].right, spare[1..]);
    }
  }

  /** Everything but the shape survives growing by a node taken from outside. */
  lemma GrownKeeps(nodes: map<Id, Node>, at: map<Bits, Id>, free: Option<Id>, spare: seq<Id>, p: Bits, b: bool, id: Id)
    requires Shape(nodes, at) && FreeList(nodes, free, spare) && Apart(at, spare)
    requires p in at && Child(p, b) !in at && id in nodes && id !in spare && (forall x | x in at :: at[x] != id)
    ensures var nodes', at' := Grown(nodes, at[p], b, id), at[Child(p, b) := id];
      FreeList(nodes', free, spare) && Apart(at', spare) && nodes'.Keys == nodes.Keys && |nodes'| == |nodes|
      && |at'| == |at| + 1
  {
    var nodes', at' := Grown(nodes, at[p], b, id), at[Child(p, b) := id];
    assert at[p] !in spare;
    FreeListFrame(nodes, nodes', free, spare);
    assert |nodes'| == |nodes'.Keys| && |nodes| == |nodes.Keys|;
    assert at'.Keys == at.Keys + {Child(p, b)};
    assert |at'| == |at'.Keys| && |at| == |at.Keys|;
  }

  lemma PrunedKeeps(nodes: map<Id, Node>, at: map<Bits, Id>, free: Option<Id>, spare: seq<Id>, p: Bits, b: bool)
    requires Shape(nodes, at) && FreeList(nodes, free, spare) && Apart(at, spare)
    requires p in at && Child(p, b) in at
    ensures var c := Child(p, b);
      var id := at[c];
      var nodes', at', spare' := Pruned(nodes, at[p], b, id, free), at - {c}, [id] + spare;
      FreeList(nodes', Some(id), spare') && Apart(at', spare') && nodes'.Keys == nodes.Keys && |nodes'| == |nodes|
      && |at'| == |at| - 1
  {
    var c := Child(p, b);
    var id := at[c];
    var nodes', at', spare' := Pruned(nodes, at[p], b, id, free), at - {c}, [id] + spare;
    assert at[p] !in spare && id !in spare;
    FreeListFrame(nodes, nodes', free, spare);
    assert spare'[1..] == spare && nodes'[id].right == free;
    assert |nodes'| == |nodes'.Keys| && |nodes| == |nodes.Keys|;
    assert at.Keys == at'.Keys + {c};
    assert |at'| == |at'.Keys| && |at| == |at.Keys|;
    assert forall q | q in at' :: at'[q] == at[q] != id;
  }

  lemma ValuedKeeps(nodes: map<Id, Node>, free: Option<Id>, spare: seq<Id>, id: Id, v: Option<Value>)
    requires FreeList(nodes, free, spare) && id in nodes
    ensures FreeList(Valued(nodes, id, v), free, spare) && Valued(nodes, id, v).Keys == nodes.Keys
    ensures |Valued(nodes, id, v)| == |nodes|
  {
    var nodes' := Valued(nodes, id, v);
    FreeListFrame(nodes, nodes', free, spare);
    assert nodes'.Keys == nodes.Keys && |nodes'| == |nodes'.Keys| && |nodes| == |nodes.Keys|;
  }

  /** Tree, table and free list, with `loose` nodes in neither. */
  ghost predicate Sound(nodes: map<Id, Node>, at: map<Bits, Id>, table: map<Bits, Value>, free: Option<Id>, spare: seq<Id>, loose: nat) {
    && Shape(nodes, at) && Holds(nodes, at, table) && FreeList(nodes, free, spare) && Apart(at, spare)
    && |nodes| == |at| + |spare| + loose
  }

  lemma GrownSound(nodes: map<Id, Node>, at: map<Bits, Id>, table: map<Bits, Value>, free: Option<Id>, spare: seq<Id>, p: Bits, b: bool, id: Id)
    requires Sound(nodes, at, table, free, spare, 1) && p in at && |p| < DEPTH && Child(p, b) !in at
    requires id in nodes && id !in spare && forall x | x in at :: at[x] != id
    ensures Sound(Grown(nodes, at[p], b, id), at[Child(p, b) := id], table, free, spare, 0)
    ensures at[p] in nodes && forall x | x in Grown(nodes, at[p], b, id) :: x in nodes
  {
    GrownShape(nodes, at, p, b, id);
    GrownHolds(nodes, at, table, p, b, id);
    GrownKeeps(nodes, at, free, spare, p, b, id);
  }

  lemma PrunedSound(nodes: map<Id, Node>, at: map<Bits, Id>, table: map<Bits, Value>, free: Option<Id>, spare: seq<Id>, c: Bits)
    returns (nodes': map<Id, Node>, at': map<Bits, Id>, table': map<Bits, Value>, spare': seq<Id>)
    requires Sound(nodes, at, table, free, spare, 0) && c in at && c != [] && IsLeaf(at, c)
    ensures Parent(c) in at && at[Parent(c)] in nodes && at[c] in nodes
    ensures nodes' == Pruned(nodes, at[Parent(c)], c[|c| - 1], at[c], free)
    ensures (forall id | id in nodes' :: id in nodes) && [] in at' && at'[[]] == at[[]]
    ensures at' == at - {c} && table' == table - {c} && spare' == [at[c]] + spare
    ensures Sound(nodes', at', table', Some(at[c]), spare', 0)
  {
    ParentChild(c);
    assert at[c] in nodes;
    var p, b := Parent(c), c[|c| - 1];
    nodes', at' := Pruned(nodes, at[p], b, at[c], free), at - {c};
    table', spare' := table - {c}, [at[c]] + spare;
    PrunedShape(nodes, at, p, b, free);
    PrunedHolds(nodes, at, table, p, b, free);
    PrunedKeeps(nodes, at, free, spare, p, b);
  }

  /** A node is the right child of its parent exactly if its string ends with a set bit. */
  lemma Side(nodes: map<Id, Node>, at: map<Bits, Id>, c: Bits)
    requires Shape(nodes, at) && c in at && c != []
    ensures at[c] in nodes && Parent(c) in at && nodes[at[c]].parent == Some(at[Parent(c)])
    ensures at[Parent(c)] in nodes && at[Parent(c)] != at[c]
    ensures nodes[at[Parent(c)]].right == Some(at[c]) <==> c[|c| - 1]
  {
    var p, b := Parent(c), c[|c| - 1];
    ParentChild(c);
    LinksAre(nodes, at, c);
    LinksAre(nodes, at, p);
    if !b && Child(p, true) in at {
      ChildrenDiffer(p);
      assert at[Child(p, true)] != at[c];
    }
  }

  lemma ChildrenDiffer(p: Bits)
    ensures Child(p, false) != Child(p, true)
  {
    assert Child(p, false)[|p|] != Child(p, true)[|p|];
  }

  lemma ValuedSound(nodes: map<Id, Node>, at: map<Bits, Id>, table: map<Bits, Value>, free: Option<Id>, spare: seq<Id>, p: Bits, v: Option<Value>)
    requires Sound(nodes, at, table, free, spare, 0) && p in at
    ensures at[p] in nodes && Valued(nodes, at[p], v).Keys == nodes.Keys
    ensures Sound(Valued(nodes, at[p], v), at, Entered(table, p, v), free, spare, 0)
  {
    assert at[p] in nodes;
    ValuedShape(nodes, at, p, v);
    ValuedHolds(nodes, at, table, p, v);
    ValuedKeeps(nodes, free, spare, at[p], v);
  }

  // ---------------------------------------------------------------- what a search finds

  /** The value of the longest prefix of w in the table, among those shorter than k. */
  ghost function Best(table: map<Bits, Value>, w: Bits, k: nat): Option<Value>
    requires k <= |w| + 1
  {
    if k == 0 then None
    else if w[..k - 1] in table then Some(table[w[..k - 1]])
    else Best(table, w, k - 1)
  }

  /** Best is the longest match: no prefix is in the table, or one is and no longer one is. */
  lemma {:induction false} BestIsLongest(table: map<Bits, Value>, w: Bits, k: nat) returns (n: nat)
    requires k <= |w| + 1
    ensures Best(table, w, k) == None ==> forall j | 0 <= j < k :: w[..j] !in table
    ensures Best(table, w, k).Some? ==>
      && n < k && w[..n] in table && Best(table, w, k) == Some(table[w[..n]])
      && forall j | n < j < k :: w[..j] !in table
  {
    n := 0;
    if k > 0 {
      if w[..k - 1] in table {
        n := k - 1;
      } else {
        n := BestIsLongest(table, w, k - 1);
      }
    }
  }

  /** The node for the first d bits of a word. */
  ghost function Along(at: map<Bits, Id>, w: Bits, d: nat): Option<Id> {
    if d <= |w| then Link(at, w[..d]) else None
  }

  /** Following the bit at position d leads to the node for one bit more. */
  lemma DownOne(nodes: map<Id, Node>, at: map<Bits, Id>, w: Bits, d: nat, node: Id)
    requires Shape(nodes, at) && |w| == DEPTH && Along(at, w, d) == Some(node)
    ensures d <= DEPTH && node in nodes
    ensures Along(at, w, d + 1) == if Test(w, d) then nodes[node].right else nodes[node].left
  {
    var p := w[..d];
    LinksAre(nodes, at, p);
    if d < DEPTH {
      assert w[..d + 1] == Child(p, w[d]);
    } else {
      NothingDeeper(nodes, at, p);
    }
  }

  lemma LinksAre(nodes: map<Id, Node>, at: map<Bits, Id>, p: Bits)
    requires Shape(nodes, at) && p in at
    ensures at[p] in nodes && Placed(nodes[at[p]], at, p)
  {
    assert Placed(nodes[at[p]], at, p);
  }

  lemma NothingDeeper(nodes: map<Id, Node>, at: map<Bits, Id>, p: Bits)
    requires Shape(nodes, at) && |p| >= DEPTH
    ensures IsLeaf(at, p)
  {
    if Child(p, false) in at {
      NotTooDeep(nodes, at, Child(p, false));
    }
    if Child(p, true) in at {
      NotTooDeep(nodes, at, Child(p, true));
    }
  }

  lemma NotTooDeep(nodes: map<Id, Node>, at: map<Bits, Id>, p: Bits)
    requires Shape(nodes, at) && p in at
    ensures |p| <= DEPTH
  {
    assert at[p] in nodes;
  }

  lemma BestNext(nodes: map<Id, Node>, at: map<Bits, Id>, table: map<Bits, Value>, w: Bits, d: nat)
    requires Shape(nodes, at) && Holds(nodes, at, table) && Along(at, w, d).Some? && Along(at, w, d).value in nodes
    ensures var v := nodes[Along(at, w, d).value].value;
      Best(table, w, d + 1) == if v.Some? then v else Best(table, w, d)
  {
  }

  /** Where a path leaves the tree it stays outside. */
  lemma BeyondAt(nodes: map<Id, Node>, at: map<Bits, Id>, w: Bits, d: nat, j: nat)
    requires Shape(nodes, at) && d <= j <= |w| && w[..d] !in at
    ensures w[..j] !in at
  {
    if w[..j] in at {
      assert w[..j][..d] == w[..d];
      PrefixIsThere(nodes, at, w[..j], d);
      assert false;
    }
  }

  lemma Beyond(nodes: map<Id, Node>, at: map<Bits, Id>, w: Bits, d: nat)
    requires Shape(nodes, at) && d <= |w| && w[..d] !in at
    ensures forall j | d <= j <= |w| :: w[..j] !in at
  {
    forall j | d <= j <= |w|
      ensures w[..j] !in at
    {
      BeyondAt(nodes, at, w, d, j);
    }
  }

  /** Where the tree ends the table has no longer prefixes. */
  lemma {:induction false} BestStops(table: map<Bits, Value>, w: Bits, d: nat, k: nat)
    requires d <= k <= |w| + 1 && forall j | d <= j <= |w| :: w[..j] !in table
    ensures Best(table, w, k) == Best(table, w, d)
  {
    if d < k {
      BestStops(table, w, d, k - 1);
    }
  }

  // ---------------------------------------------------------------- tidy trees

  /** Every leaf but the root holds a value. */
  ghost predicate Tidy(at: map<Bits, Id>, table: map<Bits, Value>) {
    forall p {:trigger IsLeaf(at, p)} | p in at && p != [] && IsLeaf(at, p) :: p in table
  }

  /** Below every node of a tidy tree there is a value. */
  lemma {:induction false} ValueBelow(nodes: map<Id, Node>, at: map<Bits, Id>, table: map<Bits, Value>, p: Bits) returns (t: Bits)
    requires Shape(nodes, at) && Tidy(at, table) && p in at && p != []
    ensures t in table && p <= t
    decreases DEPTH - |p|
  {
    if IsLeaf(at, p) {
      t := p;
    } else {
      var c := if Child(p, false) in at then Child(p, false) else Child(p, true);
      t := ValueBelow(nodes, at, table, c);
      assert p <= c <= t;
    }
  }

  /** A tidy tree has no node to spare: its nodes are the root and the prefixes of the stored strings. */
  lemma TidyIsMinimal(nodes: map<Id, Node>, at: map<Bits, Id>, table: map<Bits, Value>, p: Bits)
    requires Shape(nodes, at) && Holds(nodes, at, table) && Tidy(at, table)
    ensures p in at <==> p == [] || exists t :: t in table && p <= t
  {
    if p in at && p != [] {
      var t := ValueBelow(nodes, at, table, p);
    }
    if t :| t in table && p <= t {
      PrefixIsThere(nodes, at, t, |p|);
      assert t[..|p|] == p;
    }
  }

  // ---------------------------------------------------------------- whole states

  /** ngx_radix_tree_t: `next` is the first node number never used, `pool` how many nodes the pool can still supply. */
  datatype State = State(nodes: map<Id, Node>, root: Id, free: Option<Id>, next: Id, pool: nat)

  /** What a state stands for: which string is which node, the free list, the table. */
  datatype View = View(at: map<Bits, Id>, spare: seq<Id>, table: map<Bits, Value>)

  ghost predicate Stands(s: State, v: View, loose: nat) {
    && Sound(s.nodes, v.at, v.table, s.free, v.spare, loose)
    && s.root == v.at[[]] && forall id | id in s.nodes :: id < s.next
  }

  /** Take a node from the free list. */
  function Pop(s: State): State
    requires s.free.Some? && s.free.value in s.nodes
  {
    s.(free := s.nodes[s.free.value].right)
  }

  lemma PopStands(s: State, v: View)
    requires Stands(s, v, 0) && s.free.Some?
    ensures v.spare != [] && s.free.value == v.spare[0] && s.free.value in s.nodes
    ensures Stands(Pop(s), v.(spare := v.spare[1..]), 1)
    ensures s.free.value !in v.spare[1..] && forall p | p in v.at :: v.at[p] != s.free.value
  {
  }

  /** Take a node from the pool. */
  function Carve(s: State): State
    requires s.pool > 0
  {
    s.(nodes := s.nodes[s.next := Node(None, None, None, None)], next := s.next + 1, pool := s.pool - 1)
  }

  lemma CarveStands(s: State, v: View)
    requires Stands(s, v, 0) && s.pool > 0
    ensures Stands(Carve(s), v, 1)
    ensures s.next !in v.spare && forall p | p in v.at :: v.at[p] != s.next
  {
    FreshNode(s.nodes, v.at, v.table, s.free, v.spare, s.next);
  }

  function Hang(s: State, node: Id, b: bool, id: Id): State
    requires node in s.nodes
  {
    s.(nodes := Grown(s.nodes, node, b, id))
  }

  lemma HangStands(s: State, v: View, p: Bits, b: bool, id: Id)
    requires Stands(s, v, 1) && p in v.at && |p| < DEPTH && Child(p, b) !in v.at
    requires id in s.nodes && id !in v.spare && forall x | x in v.at :: v.at[x] != id
    ensures v.at[p] in s.nodes && Stands(Hang(s, v.at[p], b, id), v.(at := v.at[Child(p, b) := id]), 0)
  {
    GrownSound(s.nodes, v.at, v.table, s.free, v.spare, p, b, id);
  }

  function Mark(s: State, node: Id, value: Option<Value>): State
    requires node in s.nodes
  {
    s.(nodes := Valued(s.nodes, node, value))
  }

  lemma MarkStands(s: State, v: View, p: Bits, value: Option<Value>)
    requires Stands(s, v, 0) && p in v.at
    ensures v.at[p] in s.nodes && Stands(Mark(s, v.at[p], value), v.(table := Entered(v.table, p, value)), 0)
  {
    ValuedSound(s.nodes, v.at, v.table, s.free, v.spare, p, value);
  }

  /** Unlink a leaf from its parent and put it at the head of the free list. */
  function Cut(s: State, node: Id): State
    requires node in s.nodes && s.nodes[node].parent.Some? && s.nodes[node].parent.value in s.nodes
  {
    var parent := s.nodes[node].parent.value;
    s.(nodes := Pruned(s.nodes, parent, s.nodes[parent].right == Some(node), node, s.free), free := Some(node))
  }

  function CutView(v: View, c: Bits): View
    requires c in v.at
  {
    View(v.at - {c}, [v.at[c]] + v.spare, v.table - {c})
  }

  lemma CutStands(s: State, v: View, c: Bits)
    requires Stands(s, v, 0) && c in v.at && c != [] && IsLeaf(v.at, c)
    ensures Parent(c) in v.at && v.at[c] in s.nodes && s.nodes[v.at[c]].parent == Some(v.at[Parent(c)])
    ensures v.at[Parent(c)] in s.nodes && Stands(Cut(s, v.at[c]), CutView(v, c), 0)
  {
    Side(s.nodes, v.at, c);
    var nodes', at', table', spare' := PrunedSound(s.nodes, v.at, v.table, s.free, v.spare, c);
    assert CutView(v, c) == View(at', spare', table');
    assert Cut(s, v.at[c]) == s.(nodes := nodes', free := Some(v.at[c]));
  }

  /** at' has the prefixes of p besides the strings of at. */
  ghost predicate Reaches(at: map<Bits, Id>, at': map<Bits, Id>, p: Bits) {
    forall q :: q in at' <==> q in at || q <= p
  }

  lemma ReachesSelf(nodes: map<Id, Node>, at: map<Bits, Id>, p: Bits)
    requires Shape(nodes, at) && p in at
    ensures Reaches(at, at, p)
  {
    forall q | q <= p
      ensures q in at
    {
      PrefixIsThere(nodes, at, p, |q|);
      assert p[..|q|] == q;
    }
  }

  /** The path has grown to the first d bits of a word. */
  ghost predicate Growing(was: map<Bits, Id>, at: map<Bits, Id>, w: Bits, d: nat, node: Id) {
    d <= |w| && Along(at, w, d) == Some(node) && Reaches(was, at, w[..d])
  }

  lemma ReachesOneMore(at: map<Bits, Id>, at': map<Bits, Id>, w: Bits, d: nat, id: Id)
    requires d < |w| == DEPTH && Reaches(at, at', w[..d])
    ensures var longer := at'[Child(w[..d], Test(w, d)) := id];
      Reaches(at, longer, w[..d + 1]) && Along(longer, w, d + 1) == Some(id)
  {
    assert w[..d + 1] == Child(w[..d], w[d]);
    var longer := at'[w[..d + 1] := id];
    forall q
      ensures q in longer <==> q in at || q <= w[..d + 1]
    {
      if q <= w[..d + 1] && q != w[..d + 1] {
        assert |q| <= d && q == w[..d + 1][..|q|] == w[..d][..|q|];
        assert q <= w[..d];
      }
    }
  }

  lemma EnteredNothing(table: map<Bits, Value>, p: Bits)
    requires p !in table
    ensures Entered(table, p, None) == table
  {
  }

  lemma NoLeafOnTheWay(at: map<Bits, Id>, q: Bits, p: Bits)
    requires q < p && forall x | x <= p :: x in at
    ensures !IsLeaf(at, q)
  {
    assert Child(q, p[|q|]) <= p;
  }

  /** Growing towards a new value leaves no leaf without one. */
  lemma InsertKeepsTidy(at: map<Bits, Id>, at': map<Bits, Id>, table: map<Bits, Value>, p: Bits, x: Value)
    requires Tidy(at, table) && Reaches(at, at', p)
    ensures Tidy(at', table[p := x])
  {
    forall q | q in at' && q != [] && IsLeaf(at', q) && q != p
      ensures q in table
    {
      if q <= p {
        NoLeafOnTheWay(at', q, p);
      } else {
        StillLeaf(at, at', p, q);
      }
    }
  }

  lemma StillLeaf(at: map<Bits, Id>, at': map<Bits, Id>, p: Bits, q: Bits)
    requires Reaches(at, at', p) && q in at' && !(q <= p) && IsLeaf(at', q)
    ensures q in at && IsLeaf(at, q)
  {
    assert Child(q, false) !in at' && Child(q, true) !in at';
  }

  /** Cutting a leaf leaves at most its parent as a leaf without a value. */
  ghost predicate TidyBut(at: map<Bits, Id>, table: map<Bits, Value>, p: Bits) {
    forall q {:trigger IsLeaf(at, q)} | q in at && q != [] && q != p && IsLeaf(at, q) :: q in table
  }

  lemma CutKeepsTidyBut(at: map<Bits, Id>, table: map<Bits, Value>, c: Bits)
    requires TidyBut(at, table, c) && c in at && c != []
    ensures TidyBut(at - {c}, table - {c}, Parent(c))
  {
    forall q | q in at - {c} && q != [] && q != Parent(c) && IsLeaf(at - {c}, q)
      ensures q in table - {c}
    {
      ChildParent(q, false);
      ChildParent(q, true);
      assert IsLeaf(at, q);
    }
  }

  /** Only nodes on the path to p have gone. */
  ghost predicate Gone(at: map<Bits, Id>, at': map<Bits, Id>, p: Bits) {
    && (forall q | q in at' :: q in at && at'[q] == at[q])
    && (forall q | q in at && q !in at' :: q <= p)
  }

  lemma GoneOneMore(at: map<Bits, Id>, at': map<Bits, Id>, p: Bits, c: Bits)
    requires Gone(at, at', p) && c <= p
    ensures Gone(at, at' - {c}, p)
  {
  }

  /** A leaf c on the path to p is to be cut, and everything between it and p has been. */
  ghost predicate Pruning(was: View, v: View, p: Bits, c: Bits) {
    && c in v.at && c != [] && c <= p && IsLeaf(v.at, c)
    && v.table - {c} == was.table - {p} && Gone(was.at, v.at, p)
    && (TidyBut(was.at, was.table, p) ==> TidyBut(v.at, v.table, c))
  }

  /** ... and has been, up to its parent q. */
  ghost predicate PrunedTo(was: View, v: View, p: Bits, q: Bits) {
    && q <= p && v.table == was.table - {p} && Gone(was.at, v.at, p)
    && (TidyBut(was.at, was.table, p) ==> TidyBut(v.at, v.table, q))
  }

  ghost predicate PruningDone(was: View, v: View, p: Bits) {
    && v.table == was.table - {p} && Gone(was.at, v.at, p)
    && (TidyBut(was.at, was.table, p) ==> Tidy(v.at, v.table))
  }

  lemma PruningStep(was: View, v: View, p: Bits, c: Bits)
    requires Pruning(was, v, p, c)
    ensures PrunedTo(was, CutView(v, c), p, Parent(c))
  {
    GoneOneMore(was.at, v.at, p, c);
    if TidyBut(was.at, was.table, p) {
      CutKeepsTidyBut(v.at, v.table, c);
    }
  }

  lemma PruningGoesOn(was: View, v: View, p: Bits, q: Bits)
    requires PrunedTo(was, v, p, q) && q in v.at && q != [] && IsLeaf(v.at, q) && q !in v.table
    ensures Pruning(was, v, p, q)
  {
    EnteredNothing(v.table, q);
  }

  lemma PruningEnds(was: View, v: View, p: Bits, q: Bits)
    requires PrunedTo(was, v, p, q) && (q == [] || !IsLeaf(v.at, q) || q in v.table)
    ensures PruningDone(was, v, p)
  {
  }

  // ---------------------------------------------------------------- the code

  datatype Code = Ok | Busy | Error

  /** NGX_OK, NGX_ERROR, or the code follows the parent link of the root. */
  datatype Removal = Removed | Absent | NullParent

  class Tree {
    var s: State
    ghost var v: View

    ghost predicate Valid()
      reads this
    {
      Stands(s, v, 0)
    }

    constructor (pool: nat)
      ensures Valid() && v.at.Keys == {[]} && v.table == map[] && s.pool == pool
    {
      s := State(map[0 := Node(None, None, None, None)], 0, None, 1, pool);
      v := View(map[[] := 0], [], map[]);
    }

    /** ngx_radix32tree_find */
    method Find(key: nat) returns (value: Option<Value>)
      requires Valid()
      ensures value == Best(v.table, Word(key), DEPTH + 1)
    {
      var w := Word(key);
      var node, d := Some(s.root), 0;
      value := None;
      assert w[..0] == [];
      while node.Some?
        invariant d <= DEPTH + 1 && value == Best(v.table, w, d)
        invariant node == Along(v.at, w, d)
        decreases DEPTH + 1 - d
      {
        DownOne(s.nodes, v.at, w, d, node.value);
        BestNext(s.nodes, v.at, v.table, w, d);
        var n := s.nodes[node.value];
        if n.value.Some? {
          value := n.value;
        }
        node := if Test(w, d) then n.right else n.left;
        d := d + 1;
      }
      if d <= DEPTH {
        Beyond(s.nodes, v.at, w, d);
      }
      BestStops(v.table, w, d, DEPTH + 1);
    }

    /** ngx_radix_alloc: the number of a node that is in neither the tree nor the free list. */
    method Alloc() returns (id: Option<Id>)
      requires Valid()
      modifies this
      ensures id.None? ==> unchanged(this) && v.spare == [] && s.pool == 0
      ensures id.Some? ==> Stands(s, v, 1) && v.at == old(v.at) && v.table == old(v.table)
      ensures id.Some? ==> id.value in s.nodes && id.value !in v.spare && forall p | p in v.at :: v.at[p] != id.value
    {
      if s.free.Some? {
        PopStands(s, v);
        id := s.free;
        s, v := Pop(s), v.(spare := v.spare[1..]);
      } else if s.pool > 0 {
        CarveStands(s, v);
        id := Some(s.next);
        s := Carve(s);
      } else {
        id := None;
      }
    }

    /** A node for one bit more: allocate, initialise, link. */
    method Extend(node: Id, b: bool, ghost p: Bits) returns (child: Option<Id>)
      requires Valid() && p in v.at && v.at[p] == node && |p| < DEPTH && Child(p, b) !in v.at
      modifies this
      ensures Valid() && v.table == old(v.table)
      ensures child.None? ==> v.at == old(v.at) && v.spare == [] && s.pool == 0
      ensures child.Some? ==> v.at == old(v.at)[Child(p, b) := child.value]
    {
      child := Alloc();
      if child.Some? {
        HangStands(s, v, p, b, child.value);
        s, v := Hang(s, node, b, child.value), v.(at := v.at[Child(p, b) := child.value]);
      }
    }

    method SetValue(node: Id, value: Option<Value>, ghost p: Bits)
      requires Valid() && p in v.at && v.at[p] == node
      modifies this
      ensures Valid() && v.table == Entered(old(v.table), p, value) && v.at == old(v.at) && v.spare == old(v.spare)
    {
      MarkStands(s, v, p, value);
      s, v := Mark(s, node, value), v.(table := Entered(v.table, p, value));
    }

    /** One turn of the pruning loop of ngx_radix32tree_delete. */
    method Prune(node: Id, ghost c: Bits) returns (parent: Id)
      requires Valid() && c in v.at && v.at[c] == node && c != [] && IsLeaf(v.at, c)
      modifies this
      ensures Valid() && v == CutView(old(v), c) && Parent(c) in v.at && v.at[Parent(c)] == parent
    {
      CutStands(s, v, c);
      parent := s.nodes[node].parent.value;
      s, v := Cut(s, node), CutView(v, c);
    }

    /** The first loop of ngx_radix32tree_insert: down to the last node on the path. */
    method Descend(k: Bits, m: Bits, ghost n: nat) returns (d: nat, node: Id, next: Option<Id>)
      requires Valid() && |k| == DEPTH && |m| == DEPTH && n == Ones(m, 0)
      ensures d <= n && Along(v.at, k, d) == Some(node)
      ensures next.Some? ==> d == n
      ensures next.None? ==> d < n && Along(v.at, k, d + 1) == None
    {
      d, node, next := 0, s.root, Some(s.root);
      assert k[..0] == [];
      OnesTest(m, 0, d);
      while Test(m, d)
        invariant d <= n && next == Some(node) && next == Along(v.at, k, d) && (Test(m, d) <==> d < n)
        decreases n - d
      {
        DownOne(s.nodes, v.at, k, d, node);
        next := if Test(k, d) then s.nodes[node].right else s.nodes[node].left;
        if next.None? {
          break;
        }
        d, node := d + 1, next.value;
        OnesTest(m, 0, d);
      }
    }

    /** The body of the second loop of ngx_radix32tree_insert. */
    method GrowOne(k: Bits, d: nat, node: Id, ghost was: map<Bits, Id>) returns (next: Option<Id>)
      requires Valid() && d < DEPTH == |k| && Growing(was, v.at, k, d, node) && k[..d + 1] !in was
      modifies this
      ensures Valid() && v.table == old(v.table)
      ensures if next.Some? then Growing(was, v.at, k, d + 1, next.value) else v.spare == [] && s.pool == 0
    {
      NotYetThere(was, v.at, k, d);
      next := Extend(node, Test(k, d), k[..d]);
      if next.Some? {
        ReachesOneMore(was, old(v.at), k, d, next.value);
      }
    }

    /** The second loop of ngx_radix32tree_insert: new nodes for the rest of the path. */
    method Grow(k: Bits, m: Bits, start: nat, from: Id, ghost n: nat) returns (code: Code, node: Id)
      requires Valid() && |k| == DEPTH && |m| == DEPTH && n == Ones(m, 0) && start < n
      requires Along(v.at, k, start) == Some(from) && Along(v.at, k, start + 1) == None
      modifies this
      ensures Valid() && v.table == old(v.table) && code != Busy
      ensures k[..n] !in old(v.at)
      ensures code == Ok ==> Growing(old(v.at), v.at, k, n, node)
      ensures code == Error ==> v.spare == [] && s.pool == 0
    {
      var d := start;
      node := from;
      ReachesSelf(s.nodes, v.at, k[..d]);
      ghost var was := v.at;
      Beyond(s.nodes, was, k, d + 1);
      OnesTest(m, 0, d);
      while Test(m, d)
        invariant Valid() && start <= d <= n && v.table == old(v.table) && (Test(m, d) <==> d < n)
        invariant Growing(was, v.at, k, d, node)
        decreases n - d
      {
        var next := GrowOne(k, d, node, was);
        if next.None? {
          return Error, node;
        }
        d, node := d + 1, next.value;
        OnesTest(m, 0, d);
      }
      return Ok, node;
    }

    /** Both loops: the node for the prefix, unless it has a value already. */
    method Arrive(k: Bits, m: Bits, ghost p: Bits) returns (code: Code, node: Id)
      requires Valid() && |k| == DEPTH && |m| == DEPTH && p == k[..Ones(m, 0)]
      modifies this
      ensures Valid() && v.table == old(v.table)
      ensures code == Busy <==> p in old(v.table)
      ensures code == Busy ==> unchanged(this)
      ensures code == Ok ==> Reaches(old(v.at), v.at, p) && p in v.at && v.at[p] == node
      ensures code == Error ==> v.spare == [] && s.pool == 0
    {
      ghost var n := Ones(m, 0);
      var d, next;
      d, node, next := Descend(k, m, n);
      if next.Some? {
        LinksAre(s.nodes, v.at, p);
        ReachesSelf(s.nodes, v.at, p);
        code := if s.nodes[node].value.Some? then Busy else Ok;
      } else {
        code, node := Grow(k, m, d, node, n);
      }
    }

    /** ngx_radix32tree_insert; NGX_RADIX_NO_VALUE as value makes nodes only. */
    method Insert(key: nat, mask: nat, value: Option<Value>) returns (code: Code)
      requires Valid()
      modifies this
      ensures Valid()
      ensures code == Busy <==> Prefix(key, mask) in old(v.table)
      ensures code == Ok ==> Reaches(old(v.at), v.at, Prefix(key, mask))
      ensures code == Ok ==> v.table == if value.None? then old(v.table) else old(v.table)[Prefix(key, mask) := value.value]
      ensures code == Busy ==> unchanged(this)
      ensures code == Error ==> v.table == old(v.table) && v.spare == [] && s.pool == 0
      ensures code != Error && value.Some? && old(Tidy(v.at, v.table)) ==> Tidy(v.at, v.table)
    {
      ghost var p := Prefix(key, mask);
      var node;
      code, node := Arrive(Word(key), Word(mask), p);
      if code == Ok {
        if value.None? {
          EnteredNothing(v.table, p);
        } else if Tidy(old(v.at), v.table) {
          InsertKeepsTidy(old(v.at), v.at, v.table, p, value.value);
        }
        SetValue(node, value, p);
      }
    }

    /** The first loop of ngx_radix32tree_delete. */
    method Locate(k: Bits, m: Bits, ghost n: nat) returns (node: Option<Id>)
      requires Valid() && |k| == DEPTH && |m| == DEPTH && n == Ones(m, 0)
      ensures node == Along(v.at, k, n)
    {
      var d := 0;
      node := Some(s.root);
      assert k[..0] == [];
      OnesTest(m, 0, d);
      while node.Some? && Test(m, d)
        invariant d <= n && node == Along(v.at, k, d) && (Test(m, d) <==> d < n)
        decreases n - d
      {
        DownOne(s.nodes, v.at, k, d, node.value);
        node := if Test(k, d) then s.nodes[node.value].right else s.nodes[node.value].left;
        d := d + 1;
        OnesTest(m, 0, d);
      }
      if node.None? {
        BeyondAt(s.nodes, v.at, k, d, n);
      }
    }

    /** The body of the pruning loop of ngx_radix32tree_delete. */
    method PruneOne(node: Id, ghost was: View, ghost p: Bits, ghost c: Bits) returns (parent: Id, more: bool)
      requires Valid() && Pruning(was, v, p, c) && v.at[c] == node
      modifies this
      ensures Valid() && Parent(c) in v.at && v.at[Parent(c)] == parent
      ensures if more then Pruning(was, v, p, Parent(c)) else PruningDone(was, v, p)
    {
      PruningStep(was, v, p, c);
      parent := Prune(node, c);
      LinksAre(s.nodes, v.at, Parent(c));
      var n := s.nodes[parent];
      more := n.right.None? && n.left.None? && n.value.None? && n.parent.Some?;
      if more {
        PruningGoesOn(was, v, p, Parent(c));
      } else {
        PruningEnds(was, v, p, Parent(c));
      }
    }

    /** The pruning loop of ngx_radix32tree_delete. */
    method PruneUp(from: Id, ghost p: Bits)
      requires Valid() && p in v.at && v.at[p] == from && p != [] && IsLeaf(v.at, p)
      modifies this
      ensures Valid() && PruningDone(old(v), v, p)
    {
      var node := from;
      ghost var c := p;
      var more := true;
      while more
        invariant Valid() && (more ==> Pruning(old(v), v, p, c) && v.at[c] == node)
        invariant !more ==> PruningDone(old(v), v, p)
        decreases if more then |c| + 1 else 0
      {
        node, more := PruneOne(node, old(v), p, c);
        c := Parent(c);
      }
    }

    /** ngx_radix32tree_delete */
    method Delete(key: nat, mask: nat) returns (code: Removal)
      requires Valid()
      modifies this
      ensures Valid()
      ensures code == NullParent <==> Prefix(key, mask) == [] && IsLeaf(old(v.at), [])
      ensures code != NullParent ==> var p := Prefix(key, mask);
        code == Removed <==> p in old(v.at) && (IsLeaf(old(v.at), p) || p in old(v.table))
      ensures code == Removed ==> v.table == old(v.table) - {Prefix(key, mask)} && Gone(old(v.at), v.at, Prefix(key, mask))
      ensures code != Removed ==> unchanged(this)
      ensures code != NullParent && old(Tidy(v.at, v.table)) ==>
        Tidy(v.at, v.table) && (code == Removed <==> Prefix(key, mask) in old(v.table))
    {
      ghost var p := Prefix(key, mask);
      var found := Locate(Word(key), Word(mask), Ones(Word(mask), 0));
      if found.None? {
        return Absent;
      }
      var node := found.value;
      LinksAre(s.nodes, v.at, p);
      if s.nodes[node].right.Some? || s.nodes[node].left.Some? {
        if s.nodes[node].value.Some? {
          SetValue(node, None, p);
          return Removed;
        }
        return Absent;
      }
      if s.nodes[node].parent.None? {
        return NullParent;
      }
      PruneUp(node, p);
      return Removed;
    }

    /** One node of n bits, the j-th. */
    method PreallocateOne(ghost n: nat, ghost j: nat, key: nat, mask: nat) returns (ok: bool)
      requires Valid() && v.table == map[] && 0 < n <= DEPTH && j < Pow2(n) && Level(v.at, n - 1, j)
      requires key == KeyOf(j, Pow2(DEPTH - n)) && mask == MaskOf(n)
      modifies this
      ensures Valid() && v.table == map[]
      ensures if ok then Level(v.at, n - 1, j + 1) else v.spare == [] && s.pool == 0
    {
      ghost var p := PrefixOfKey(j, n, key, mask);
      var code := Insert(key, mask, None);
      ok := code == Ok;
      if ok {
        LevelNext(old(v.at), v.at, n, j, p);
      }
    }

    /** The inner loop of ngx_radix_tree_create: all strings of n bits. */
    method PreallocateLevel(ghost n: nat, mask: nat, inc: nat) returns (ok: bool)
      requires Valid() && v.table == map[] && 0 < n <= DEPTH
      requires Full(v.at, n - 1) && mask == MaskOf(n) && inc == Pow2(DEPTH - n)
      modifies this
      ensures Valid() && v.table == map[]
      ensures if ok then Full(v.at, n) else v.spare == [] && s.pool == 0
    {
      var key := 0;
      ghost var j, last := 0, Pow2(n);
      LevelStarts(v.at, n);
      while true
        invariant Valid() && v.table == map[] && key == KeyOf(j, inc) && j < last && Level(v.at, n - 1, j)
        decreases last - j
      {
        ok := PreallocateOne(n, j, key, mask);
        if !ok {
          return;
        }
        KeyWraps(j + 1, n);
        key := Wrap(key + inc);
        j := j + 1;
        if key == 0 {
          LevelEnds(v.at, n);
          return;
        }
      }
    }

    /** The preallocation loop of ngx_radix_tree_create. */
    method Preallocate(bits: nat) returns (ok: bool)
      requires Valid() && v.table == map[] && v.at.Keys == {[]} && bits <= DEPTH
      modifies this
      ensures Valid() && v.table == map[]
      ensures if ok then Full(v.at, bits) else v.spare == [] && s.pool == 0
    {
      var preallocate, mask, inc := bits, 0, 0x8000_0000;
      ghost var n := 0;
      FullAtFirst(v.at);
      while preallocate > 0
        invariant Valid() && v.table == map[] && n + preallocate == bits && Full(v.at, n)
        invariant mask == MaskOf(n) && inc == IncOf(n)
      {
        mask := mask / 2 + 0x8000_0000;
        IncIs(n);
        n := n + 1;
        ok := PreallocateLevel(n, mask, inc);
        if !ok {
          return;
        }
        inc := inc / 2;
        preallocate := preallocate - 1;
      }
      return true;
    }
  }

  /** All strings of at most n bits are there and no others. */
  ghost predicate Full(at: map<Bits, Id>, n: nat) {
    forall p :: p in at <==> |p| <= n
  }

  /** ... and of the longer ones the j first of n + 1 bits. */
  ghost predicate Level(at: map<Bits, Id>, n: nat, j: nat) {
    forall p {:trigger Wanted(p, n, j)} :: p in at <==> Wanted(p, n, j)
  }

  ghost predicate Wanted(p: Bits, n: nat, j: nat) {
    |p| <= n || (|p| == n + 1 && Val(p) < j)
  }

  lemma FullAtFirst(at: map<Bits, Id>)
    requires at.Keys == {[]}
    ensures Full(at, 0)
  {
    assert forall p :: p in at <==> p in at.Keys;
  }

  lemma LevelStarts(at: map<Bits, Id>, n: nat)
    requires n > 0 && Full(at, n - 1)
    ensures Level(at, n - 1, 0)
  {
  }

  lemma LevelNext(at: map<Bits, Id>, at': map<Bits, Id>, n: nat, j: nat, next: Bits)
    requires n > 0 && Level(at, n - 1, j) && Reaches(at, at', next) && |next| == n && Val(next) == j
    ensures Level(at', n - 1, j + 1)
  {
    forall p
      ensures p in at' <==> Wanted(p, n - 1, j + 1)
    {
      assert p in at <==> Wanted(p, n - 1, j);
      if |p| == n && Val(p) == j {
        DigitsOfVal(p);
        DigitsOfVal(next);
      }
      assert |p| == n && p <= next ==> p == next;
    }
  }

  lemma LevelEnds(at: map<Bits, Id>, n: nat)
    requires n > 0 && Level(at, n - 1, Pow2(n))
    ensures Full(at, n)
  {
    forall p
      ensures p in at <==> |p| <= n
    {
      ValIsSmall(p);
      assert p in at <==> Wanted(p, n - 1, Pow2(n));
    }
  }

  lemma NotYetThere(at: map<Bits, Id>, at': map<Bits, Id>, w: Bits, d: nat)
    requires d < |w| == DEPTH && Reaches(at, at', w[..d]) && w[..d + 1] !in at
    ensures Child(w[..d], Test(w, d)) !in at'
  {
    assert w[..d + 1] == Child(w[..d], w[d]);
  }

}
