/** The independent root of the bundle verifier: a stack of complete subtrees. */
module StackRoot {
  import opened Powers
  import opened Merkle
  import opened GrowingTree

  datatype Subtree = Subtree(size: nat, node: Hash)

  /** The stack holds `d` as complete subtrees of strictly falling power-of-two sizes, the top last. */
  ghost predicate Holds(stack: seq<Subtree>, d: seq<Hash>)
    decreases |stack|
  {
    if |stack| == 0 then d == []
    else
      var n, top := |stack| - 1, stack[|stack| - 1];
      && IsPow2(top.size) && top.size <= |d|
      && top.node == RootOf(d[|d| - top.size..])
      && (n > 0 ==> stack[n - 1].size > top.size)
      && Holds(stack[..n], d[..|d| - top.size])
  }

  lemma {:induction false} DoublingStep(a: nat, b: nat)
    requires IsPow2(a) && IsPow2(b) && a < b
    ensures 2 * a <= b
  {
    if a > 1 {
      DoublingStep(a / 2, b / 2);
    }
  }

  lemma Pow2Positive(n: nat)
    requires IsPow2(n)
    ensures 1 <= n
  {
  }

  /** The last `b + a` leaves are the last `b` of the rest followed by the last `a`. */
  lemma SuffixParts(d: seq<Hash>, a: nat, b: nat)
    requires a + b <= |d|
    ensures var rest, both := d[..|d| - a], d[|d| - a - b..];
            && both[..b] == rest[|rest| - b..]
            && both[b..] == d[|d| - a..]
            && rest[..|rest| - b] == d[..|d| - a - b]
  {
    var rest, both := d[..|d| - a], d[|d| - a - b..];
    assert both[..b] == rest[|rest| - b..];
    assert both[b..] == d[|d| - a..];
    assert rest[..|rest| - b] == d[..|d| - a - b];
  }

  lemma HoldsNothing()
    ensures Holds([], [])
  {
  }

  lemma HoldsSome(stack: seq<Subtree>, d: seq<Hash>)
    requires Holds(stack, d) && d != []
    ensures |stack| > 0
  {
  }

  /** `merkle_root`. */
  method StackRootOf(leaves: seq<Hash>) returns (root: Hash)
    ensures root == RootOf(leaves)
  {
    hide Holds, Split;
    if leaves == [] {
      return EmptyHash;
    }
    var stack: seq<Subtree> := [];
    HoldsNothing();
    for j := 0 to |leaves|
      invariant Holds(stack, leaves[..j])
    {
      stack := Carry(stack, leaves[..j], leaves[j]);
      assert leaves[..j] + [leaves[j]] == leaves[..j + 1];
    }
    assert leaves[..|leaves|] == leaves;
    HoldsSome(stack, leaves);
    root := Collapse(stack, leaves);
  }

  /** One pass of the leaf loop: equal-sized subtrees on top are merged, then the result is pushed. */
  method Carry(stack: seq<Subtree>, ghost d: seq<Hash>, leaf: Hash) returns (stack': seq<Subtree>)
    requires Holds(stack, d)
    ensures Holds(stack', d + [leaf])
  {
    hide RootOf, IsPow2;
    RootOfOne(leaf);
    Pow2One();
    if |stack| > 0 {
      Pow2Positive(stack[|stack| - 1].size);
    }
    ghost var e := d + [leaf];
    stack' := stack;
    var size: nat, node := 1, leaf;
    assert e[|e| - 1..] == [leaf] && e[..|e| - 1] == d;
    while |stack'| > 0 && stack'[|stack'| - 1].size == size
      invariant IsPow2(size) && size <= |e|
      invariant node == RootOf(e[|e| - size..])
      invariant Holds(stack', e[..|e| - size])
      invariant |stack'| > 0 ==> stack'[|stack'| - 1].size >= size
      decreases |stack'|
    {
      var left := stack'[|stack'| - 1].node;
      stack' := stack'[..|stack'| - 1];
      if |stack'| > 0 {
        DoublingStep(size, stack'[|stack'| - 1].size);
      }
      Pow2Positive(size);
      SuffixParts(e, size, size);
      JoinComplete(e[|e| - size - size..], size);
      Pow2Double(size);
      size, node := size * 2, NodeHash(left, node);
    }
    stack' := stack' + [Subtree(size, node)];
    assert stack'[..|stack'| - 1] + [Subtree(size, node)] == stack';
  }

  /** The closing loop: the remaining subtrees are folded together from the top. */
  method Collapse(stack: seq<Subtree>, ghost d: seq<Hash>) returns (node: Hash)
    requires |stack| > 0 && Holds(stack, d)
    ensures node == RootOf(d)
  {
    hide RootOf, IsPow2;
    Pow2Positive(stack[|stack| - 1].size);
    node := stack[|stack| - 1].node;
    var rest := stack[..|stack| - 1];
    ghost var size := stack[|stack| - 1].size;
    while |rest| > 0
      invariant 0 < size <= |d| && Holds(rest, d[..|d| - size])
      invariant node == RootOf(d[|d| - size..])
      invariant |rest| > 0 ==> size < rest[|rest| - 1].size
      decreases |rest|
    {
      var left := rest[|rest| - 1];
      rest := rest[..|rest| - 1];
      if |rest| > 0 {
        DoublingStep(left.size, rest[|rest| - 1].size);
      }
      SuffixParts(d, size, left.size);
      JoinComplete(d[|d| - size - left.size..], left.size);
      size := size + left.size;
      node := NodeHash(left.node, node);
    }
    assert d[|d| - size..] == d;
  }
}
