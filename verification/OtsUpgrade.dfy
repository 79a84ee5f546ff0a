/** Folding a calendar's response into a proof tree: its depth, its size, and when it is well-formed. */
module OtsUpgrade {
  import opened Wrappers
  import opened Orders
  import opened OtsCodec
  import opened OtsTree
  import opened OtsParse
  import opened OtsShared

  // ----- Depth -----

  function Max(a: nat, b: nat): nat {
    if a < b then b else a
  }

  /** The levels of a tree. */
  function Depth(t: Tree): nat
    decreases t
  {
    1 + DepthEdges(t.ops)
  }

  function DepthEdges(ops: seq<Edge>): nat
    decreases ops
  {
    if ops == [] then 0 else Max(DepthEdge(ops[0]), DepthEdges(ops[1..]))
  }

  function DepthEdge(e: Edge): nat
    decreases e
  {
    Depth(e.child)
  }

  lemma {:induction false} DepthAt(ops: seq<Edge>, i: nat)
    requires i < |ops|
    ensures DepthEdge(ops[i]) <= DepthEdges(ops)
    decreases |ops|
  {
    hide DepthEdge;
    if i > 0 {
      DepthAt(ops[1..], i - 1);
    }
  }

  lemma {:induction false} DepthReached(ops: seq<Edge>) returns (i: nat)
    requires ops != []
    ensures i < |ops| && DepthEdge(ops[i]) == DepthEdges(ops)
    decreases |ops|
  {
    hide DepthEdge;
    i := 0;
    if DepthEdge(ops[0]) < DepthEdges(ops[1..]) {
      i := DepthReached(ops[1..]);
      i := i + 1;
    }
  }

  lemma {:induction false} DepthInsert(ops: seq<Edge>, e: Edge)
    ensures DepthEdges(Insert(ops, e, EdgeBefore)) == Max(DepthEdges(ops), DepthEdge(e))
  {
    hide DepthEdge, EdgeBefore;
    if ops != [] {
      DepthInsert(ops[1..], e);
      var rest := Insert(ops[1..], e, EdgeBefore);
      assert ([ops[0]] + rest)[1..] == rest;
      assert ([e] + ops)[1..] == ops;
    }
  }

  /** Replacing a branch by one that is no shallower. */
  lemma {:induction false} DepthReplace(ops: seq<Edge>, i: nat, e: Edge)
    requires i < |ops| && DepthEdge(ops[i]) <= DepthEdge(e)
    ensures DepthEdges(ops[i := e]) == Max(DepthEdges(ops), DepthEdge(e))
    decreases |ops|
  {
    hide DepthEdge;
    if i == 0 {
      assert ops[0 := e][1..] == ops[1..];
    } else {
      assert ops[i := e][1..] == ops[1..][i - 1 := e];
      DepthReplace(ops[1..], i - 1, e);
    }
  }

  lemma {:induction false} DepthAddEdge(ops: seq<Edge>, e: Edge)
    ensures DepthEdges(AddEdge(ops, e)) == Max(DepthEdges(ops), DepthEdge(e))
    decreases e
  {
    hide EdgeBefore, DepthEdges;
    var i := Position(ops, e.op);
    if i < |ops| {
      DepthMerge(ops[i].child, e.child);
      DepthAt(ops, i);
      DepthReplace(ops, i, Edge(e.op, Merge(ops[i].child, e.child)));
    } else {
      DepthInsert(ops, e);
    }
  }

  lemma {:induction false} DepthAddEdges(ops: seq<Edge>, more: seq<Edge>)
    ensures DepthEdges(AddEdges(ops, more)) == Max(DepthEdges(ops), DepthEdges(more))
    decreases more
  {
    hide AddEdge, DepthEdge;
    if more != [] {
      DepthAddEdge(ops, more[0]);
      DepthAddEdges(AddEdge(ops, more[0]), more[1..]);
    }
  }

  /** A merge is exactly as deep as the deeper of the two. */
  lemma {:induction false} DepthMerge(a: Tree, b: Tree)
    ensures Depth(Merge(a, b)) == Max(Depth(a), Depth(b))
    decreases b
  {
    DepthAddEdges(a.ops, b.ops);
  }

  /** A good tree is good for a depth limit exactly when it is no deeper. */
  lemma {:induction false} GoodDepth(h: Hashes, t: Tree, depth: nat, limit: nat)
    requires Good(h, t, depth)
    ensures Depth(t) <= depth
    ensures Good(h, t, limit) <==> Depth(t) <= limit
    decreases depth
  {
    hide EdgeBefore, NextMessage, GoodOp, GoodAttestations, DepthEdges;
    GoodIsSound(h, t, depth);
    SoundParts(h, t, depth);
    forall i | 0 <= i < |t.ops|
      ensures DepthEdge(t.ops[i]) <= depth - 1
      ensures 1 < limit ==> (Good(h, t.ops[i].child, limit - 1) <==> DepthEdge(t.ops[i]) <= limit - 1)
      ensures GoodEdge(h, t.msg, t.ops[i], depth)
    {
      GoodEdgeAt(h, t.msg, t.ops, i, depth);
      GoodDepth(h, t.ops[i].child, depth - 1, if limit > 0 then limit - 1 else 0);
    }
    DepthOfAll(t.ops, depth - 1);
    if limit > 0 {
      DepthOfAll(t.ops, limit - 1);
    }
    if Good(h, t, limit) {
      GoodIsSound(h, t, limit);
      SoundParts(h, t, limit);
      forall i | 0 <= i < |t.ops|
        ensures DepthEdge(t.ops[i]) <= limit - 1
      {
        GoodEdgeAt(h, t.msg, t.ops, i, limit);
      }
    }
    if Depth(t) <= limit {
      forall i | 0 <= i < |t.ops|
        ensures GoodEdge(h, t.msg, t.ops[i], limit)
      {
        DepthPositive(t.ops[i].child);
      }
      assert GoodEdges(h, t.msg, t.ops, limit);
      MakeGood(h, t, limit);
    }
  }

  lemma DepthPositive(t: Tree)
    ensures 0 < Depth(t)
  {
  }

  lemma DepthOfAll(ops: seq<Edge>, limit: nat)
    ensures DepthEdges(ops) <= limit <==> forall i :: 0 <= i < |ops| ==> DepthEdge(ops[i]) <= limit
  {
    hide DepthEdges, DepthEdge;
    if ops != [] {
      var i := DepthReached(ops);
      forall j | 0 <= j < |ops|
        ensures DepthEdge(ops[j]) <= DepthEdges(ops)
      {
        DepthAt(ops, j);
      }
    } else {
      NoDepth();
    }
  }

  lemma NoDepth()
    ensures DepthEdges([]) == 0
  {
  }

  // ----- Folding a response in -----

  /** `merge_calendar_response` on the tree: the first node of the commitment, in tree order, takes the upgrade. */
  function Upgrade(t: Tree, commitment: bytes, upgrade: Tree): Option<Tree>
    decreases t
  {
    if t.msg == commitment then Some(Merge(t, upgrade))
    else
      match UpgradeEdges(t.ops, commitment, upgrade)
      case None => None
      case Some(ops) => Some(t.(ops := ops))
  }

  function UpgradeEdges(ops: seq<Edge>, commitment: bytes, upgrade: Tree): Option<seq<Edge>>
    decreases ops
  {
    if ops == [] then None
    else
      match UpgradeEdge(ops[0], commitment, upgrade)
      case Some(e) => Some([e] + ops[1..])
      case None =>
        match UpgradeEdges(ops[1..], commitment, upgrade)
        case None => None
        case Some(rest) => Some([ops[0]] + rest)
  }

  function UpgradeEdge(e: Edge, commitment: bytes, upgrade: Tree): Option<Edge>
    decreases e
  {
    match Upgrade(e.child, commitment, upgrade)
    case None => None
    case Some(child) => Some(Edge(e.op, child))
  }

  /** How many levels down that node is. */
  function Level(t: Tree, commitment: bytes): Option<nat>
    decreases t
  {
    if t.msg == commitment then Some(0)
    else
      match LevelEdges(t.ops, commitment)
      case None => None
      case Some(n) => Some(n + 1)
  }

  function LevelEdges(ops: seq<Edge>, commitment: bytes): Option<nat>
    decreases ops
  {
    if ops == [] then None
    else if LevelEdge(ops[0], commitment).Some? then LevelEdge(ops[0], commitment)
    else LevelEdges(ops[1..], commitment)
  }

  function LevelEdge(e: Edge, commitment: bytes): Option<nat>
    decreases e
  {
    Level(e.child, commitment)
  }

  /** An upgrade replaces one branch. */
  lemma {:induction false} UpgradedBranch(ops: seq<Edge>, commitment: bytes, upgrade: Tree) returns (i: nat)
    requires UpgradeEdges(ops, commitment, upgrade).Some?
    ensures i < |ops| && UpgradeEdge(ops[i], commitment, upgrade).Some?
    ensures UpgradeEdges(ops, commitment, upgrade) == Some(ops[i := UpgradeEdge(ops[i], commitment, upgrade).value])
    ensures forall j :: 0 <= j < i ==> UpgradeEdge(ops[j], commitment, upgrade).None?
    decreases |ops|
  {
    hide UpgradeEdge;
    i := 0;
    if UpgradeEdge(ops[0], commitment, upgrade).None? {
      i := UpgradedBranch(ops[1..], commitment, upgrade);
      i := i + 1;
      assert ops[i := UpgradeEdge(ops[i], commitment, upgrade).value]
          == [ops[0]] + ops[1..][i - 1 := UpgradeEdge(ops[i], commitment, upgrade).value];
    } else {
      assert ops[0 := UpgradeEdge(ops[0], commitment, upgrade).value] == [UpgradeEdge(ops[0], commitment, upgrade).value] + ops[1..];
    }
  }

  /** What an upgrade does to the depth of a list of branches. */
  ghost predicate Deepens(found: Option<nat>, before: nat, after: Option<nat>, added: nat) {
    if found.None? then after.None? else after == Some(Max(before, found.value + added))
  }

  function DepthOf(t: Option<Tree>): Option<nat> {
    if t.None? then None else Some(Depth(t.value))
  }

  function DepthOfEdges(ops: Option<seq<Edge>>): Option<nat> {
    if ops.None? then None else Some(DepthEdges(ops.value))
  }

  /** An upgraded tree is as deep as it was, or as the upgrade reaches from its level, whichever is more. */
  lemma {:induction false} UpgradeDepth(t: Tree, commitment: bytes, upgrade: Tree)
    ensures Deepens(Level(t, commitment), Depth(t), DepthOf(Upgrade(t, commitment, upgrade)), Depth(upgrade))
    decreases t
  {
    hide Merge;
    if t.msg == commitment {
      DepthMerge(t, upgrade);
    } else {
      UpgradeEdgesDepth(t.ops, commitment, upgrade);
    }
  }

  lemma {:induction false} UpgradeEdgesDepth(ops: seq<Edge>, commitment: bytes, upgrade: Tree)
    ensures Deepens(LevelEdges(ops, commitment), DepthEdges(ops), DepthOfEdges(UpgradeEdges(ops, commitment, upgrade)), Depth(upgrade))
    decreases ops
  {
    hide Upgrade, Level, Depth;
    if ops != [] {
      UpgradeEdgeDepth(ops[0], commitment, upgrade);
      var first := UpgradeEdge(ops[0], commitment, upgrade);
      if first.Some? {
        assert ([first.value] + ops[1..])[1..] == ops[1..];
      } else {
        UpgradeEdgesDepth(ops[1..], commitment, upgrade);
        var rest := UpgradeEdges(ops[1..], commitment, upgrade);
        if rest.Some? {
          assert ([ops[0]] + rest.value)[1..] == rest.value;
        }
      }
    }
  }

  lemma {:induction false} UpgradeEdgeDepth(e: Edge, commitment: bytes, upgrade: Tree)
    ensures var out := UpgradeEdge(e, commitment, upgrade);
      Deepens(LevelEdge(e, commitment), DepthEdge(e), if out.None? then None else Some(DepthEdge(out.value)), Depth(upgrade))
    decreases e
  {
    UpgradeDepth(e.child, commitment, upgrade);
  }

  lemma Deeper(h: Hashes, t: Tree, depth: nat, limit: nat)
    requires Good(h, t, depth) && depth <= limit
    ensures Good(h, t, limit) && Sound(h, t, limit)
  {
    hide Depth;
    GoodDepth(h, t, depth, limit);
    GoodIsSound(h, t, limit);
  }

  // ----- Proofs that wait for a response -----

  /**
   * A proof that is well-formed except that the first node of the commitment, which takes the next
   * response, may still be empty.
   */
  ghost predicate Awaits(h: Hashes, t: Tree, depth: nat, commitment: bytes)
    decreases t, 1
  {
    && 0 < depth && GoodAttestations(t.attestations)
    && if t.msg == commitment then GoodEdges(h, t.msg, t.ops, depth) else AwaitsBelow(h, t.msg, t.ops, depth, commitment)
  }

  ghost predicate AwaitsBelow(h: Hashes, msg: bytes, ops: seq<Edge>, depth: nat, commitment: bytes)
    decreases ops
  {
    Strictly(ops, EdgeBefore) && exists i :: 0 <= i < |ops| && AwaitsAt(h, msg, ops, depth, commitment, i)
  }

  ghost predicate AwaitsAt(h: Hashes, msg: bytes, ops: seq<Edge>, depth: nat, commitment: bytes, i: nat)
    requires i < |ops|
    decreases ops, 0
  {
    && AwaitsEdge(h, msg, ops[i], depth, commitment)
    && (forall j :: 0 <= j < |ops| && j != i ==> GoodEdge(h, msg, ops[j], depth))
    && (forall j :: 0 <= j < i ==> LevelEdge(ops[j], commitment).None?)
  }

  ghost predicate AwaitsEdge(h: Hashes, msg: bytes, e: Edge, depth: nat, commitment: bytes)
    decreases e
  {
    && GoodOp(e.op) && NextMessage(h, e.op, msg) == Some(e.child.msg)
    && 1 < depth && Awaits(h, e.child, depth - 1, commitment)
  }

  lemma AwaitsIs(h: Hashes, t: Tree, depth: nat, commitment: bytes)
    requires Awaits(h, t, depth, commitment)
    ensures 0 < depth && GoodAttestations(t.attestations)
    ensures t.msg == commitment ==> GoodEdges(h, t.msg, t.ops, depth) && Sound(h, t, depth)
    ensures t.msg != commitment ==> AwaitsBelow(h, t.msg, t.ops, depth, commitment)
  {
  }

  /** In a well-formed proof any node may take a response. */
  lemma {:induction false} GoodAwaits(h: Hashes, t: Tree, depth: nat, commitment: bytes)
    requires Good(h, t, depth) && Level(t, commitment).Some?
    ensures Awaits(h, t, depth, commitment)
    decreases depth
  {
    hide GoodAttestations, EdgeBefore, NextMessage, GoodOp;
    GoodIsSound(h, t, depth);
    SoundParts(h, t, depth);
    if t.msg != commitment {
      var i := FoundBranch(t.ops, commitment);
      forall j | 0 <= j < |t.ops|
        ensures GoodEdge(h, t.msg, t.ops[j], depth)
      {
        GoodEdgeAt(h, t.msg, t.ops, j, depth);
      }
      GoodAwaits(h, t.ops[i].child, depth - 1, commitment);
      assert AwaitsEdge(h, t.msg, t.ops[i], depth, commitment);
      assert AwaitsAt(h, t.msg, t.ops, depth, commitment, i);
      assert AwaitsBelow(h, t.msg, t.ops, depth, commitment);
    }
  }

  lemma {:induction false} FoundBranch(ops: seq<Edge>, commitment: bytes) returns (i: nat)
    requires LevelEdges(ops, commitment).Some?
    ensures i < |ops| && LevelEdge(ops[i], commitment) == LevelEdges(ops, commitment)
    ensures forall j :: 0 <= j < i ==> LevelEdge(ops[j], commitment).None?
    decreases |ops|
  {
    hide LevelEdge;
    i := 0;
    if LevelEdge(ops[0], commitment).None? {
      i := FoundBranch(ops[1..], commitment);
      i := i + 1;
    }
  }

  lemma {:induction false} LevelFound(ops: seq<Edge>, commitment: bytes, i: nat)
    requires i < |ops| && LevelEdge(ops[i], commitment).Some?
    ensures LevelEdges(ops, commitment).Some?
    decreases |ops|
  {
    hide LevelEdge;
    if i > 0 {
      LevelFound(ops[1..], commitment, i - 1);
    }
  }

  lemma {:induction false} AwaitsFound(h: Hashes, t: Tree, depth: nat, commitment: bytes)
    requires Awaits(h, t, depth, commitment)
    ensures Level(t, commitment).Some?
    decreases depth
  {
    hide GoodAttestations, EdgeBefore, NextMessage, GoodOp;
    if t.msg != commitment {
      AwaitsIs(h, t, depth, commitment);
      var i :| 0 <= i < |t.ops| && AwaitsAt(h, t.msg, t.ops, depth, commitment, i);
      assert AwaitsEdge(h, t.msg, t.ops[i], depth, commitment);
      AwaitsFound(h, t.ops[i].child, depth - 1, commitment);
      LevelFound(t.ops, commitment, i);
    }
  }

  lemma SoundDeeper(h: Hashes, t: Tree, depth: nat, limit: nat)
    requires Sound(h, t, depth) && 0 < depth <= limit
    ensures Sound(h, t, limit)
  {
    if t.attestations != [] || t.ops != [] {
      Deeper(h, t, depth, limit);
    }
  }

  /** The branch a response goes to. */
  lemma AwaitedBranch(h: Hashes, t: Tree, depth: nat, commitment: bytes, upgrade: Tree) returns (i: nat)
    requires Awaits(h, t, depth, commitment) && t.msg != commitment
    ensures i < |t.ops| && AwaitsAt(h, t.msg, t.ops, depth, commitment, i)
    ensures UpgradeEdge(t.ops[i], commitment, upgrade).Some?
    ensures Upgrade(t, commitment, upgrade) == Some(t.(ops := t.ops[i := UpgradeEdge(t.ops[i], commitment, upgrade).value]))
  {
    hide GoodAttestations, EdgeBefore, NextMessage, GoodOp, UpgradeEdge, LevelEdge, UpgradeEdges, LevelEdges;
    AwaitsIs(h, t, depth, commitment);
    i :| 0 <= i < |t.ops| && AwaitsAt(h, t.msg, t.ops, depth, commitment, i);
    assert AwaitsEdge(h, t.msg, t.ops[i], depth, commitment);
    AwaitsFound(h, t.ops[i].child, depth - 1, commitment);
    ChildLevel(t.ops[i], commitment);
    LevelFound(t.ops, commitment, i);
    UpgradeEdgesDepth(t.ops, commitment, upgrade);
    var k := UpgradedBranch(t.ops, commitment, upgrade);
    UpgradeEdgeDepth(t.ops[i], commitment, upgrade);
    UpgradeEdgeDepth(t.ops[k], commitment, upgrade);
  }

  lemma ChildLevel(e: Edge, commitment: bytes)
    ensures LevelEdge(e, commitment) == Level(e.child, commitment)
  {
  }

  /** An upgraded proof is a proof of the same message, within the two depths together. */
  lemma {:induction false} UpgradeGood(h: Hashes, t: Tree, depth: nat, commitment: bytes, upgrade: Tree, more: nat)
    requires Awaits(h, t, depth, commitment) && Good(h, upgrade, more) && upgrade.msg == commitment
    ensures Upgrade(t, commitment, upgrade).Some?
    ensures Good(h, Upgrade(t, commitment, upgrade).value, depth + more)
    ensures Upgrade(t, commitment, upgrade).value.msg == t.msg
    decreases depth
  {
    hide Merge, EdgeBefore, NextMessage, GoodOp, UpgradeEdges, GoodAttestations;
    var all := depth + more;
    AwaitsIs(h, t, depth, commitment);
    if t.msg == commitment {
      SoundDeeper(h, t, depth, all);
      Deeper(h, upgrade, more, all);
      MergeSound(h, t, upgrade, all);
    } else {
      var i := AwaitedBranch(h, t, depth, commitment, upgrade);
      assert AwaitsEdge(h, t.msg, t.ops[i], depth, commitment);
      UpgradeGood(h, t.ops[i].child, depth - 1, commitment, upgrade, more);
      var child := Upgrade(t.ops[i].child, commitment, upgrade).value;
      var ops := t.ops[i := Edge(t.ops[i].op, child)];
      ReplaceStrictly(t.ops, i, child);
      forall j | 0 <= j < |ops|
        ensures GoodEdge(h, t.msg, ops[j], all)
      {
        if j != i {
          assert GoodEdge(h, t.msg, t.ops[j], depth);
          Deeper(h, ops[j].child, depth - 1, all - 1);
        }
      }
      assert GoodEdges(h, t.msg, ops, all);
      MakeGood(h, t.(ops := ops), all);
    }
  }

  // ----- Size -----

  /** The node a response goes to. */
  function NodeAt(t: Tree, commitment: bytes): Option<Tree>
    decreases t
  {
    if t.msg == commitment then Some(t) else NodeAtEdges(t.ops, commitment)
  }

  function NodeAtEdges(ops: seq<Edge>, commitment: bytes): Option<Tree>
    decreases ops
  {
    if ops == [] then None
    else if NodeAtEdge(ops[0], commitment).Some? then NodeAtEdge(ops[0], commitment)
    else NodeAtEdges(ops[1..], commitment)
  }

  function NodeAtEdge(e: Edge, commitment: bytes): Option<Tree>
    decreases e
  {
    NodeAt(e.child, commitment)
  }

  /** What a response adds to the size of a tree or a list of branches. */
  ghost predicate Grows(node: Option<Tree>, before: nat, after: Option<nat>, upgrade: Tree) {
    if node.None? then after.None? else after.Some? && after.value + Shared(node.value, upgrade) == before + Size(upgrade)
  }

  /** An upgraded tree takes the bytes of both, less those of what its node and the response share. */
  lemma {:induction false} UpgradeSize(t: Tree, commitment: bytes, upgrade: Tree)
    requires Canonical(t) && Canonical(upgrade)
    ensures var out := Upgrade(t, commitment, upgrade);
      Grows(NodeAt(t, commitment), Size(t), if out.None? then None else Some(Size(out.value)), upgrade)
    decreases t
  {
    hide Merge, SizeAttestations, Shared, GoodAttestations;
    if t.msg == commitment {
      MergeSizeExact(t, upgrade);
    } else {
      UpgradeEdgesSize(t.ops, commitment, upgrade);
    }
  }

  lemma {:induction false} UpgradeEdgesSize(ops: seq<Edge>, commitment: bytes, upgrade: Tree)
    requires CanonicalEdges(ops) && Canonical(upgrade)
    ensures var out := UpgradeEdges(ops, commitment, upgrade);
      Grows(NodeAtEdges(ops, commitment), SizeEdges(ops), if out.None? then None else Some(SizeEdges(out.value)), upgrade)
    decreases ops
  {
    hide Upgrade, NodeAt, Size, Shared, Canonical, EdgeBefore;
    if ops != [] {
      RestCanonical(ops);
      assert CanonicalEdge(ops[0]);
      UpgradeEdgeSize(ops[0], commitment, upgrade);
      var first := UpgradeEdge(ops[0], commitment, upgrade);
      if first.Some? {
        assert ([first.value] + ops[1..])[1..] == ops[1..];
      } else {
        UpgradeEdgesSize(ops[1..], commitment, upgrade);
        var rest := UpgradeEdges(ops[1..], commitment, upgrade);
        if rest.Some? {
          assert ([ops[0]] + rest.value)[1..] == rest.value;
        }
      }
    }
  }

  lemma {:induction false} UpgradeEdgeSize(e: Edge, commitment: bytes, upgrade: Tree)
    requires CanonicalEdge(e) && Canonical(upgrade)
    ensures var out := UpgradeEdge(e, commitment, upgrade);
      Grows(NodeAtEdge(e, commitment), SizeEdge(e), if out.None? then None else Some(SizeEdge(out.value)), upgrade)
    decreases e
  {
    hide Shared, WriteOp, Size;
    UpgradeSize(e.child, commitment, upgrade);
  }

  lemma {:induction false} AwaitsCanonical(h: Hashes, t: Tree, depth: nat, commitment: bytes)
    requires Awaits(h, t, depth, commitment)
    ensures Canonical(t)
    decreases depth
  {
    hide GoodAttestations, EdgeBefore, NextMessage, GoodOp;
    AwaitsIs(h, t, depth, commitment);
    if t.msg == commitment {
      SoundIsCanonical(h, t, depth);
    } else {
      var i :| 0 <= i < |t.ops| && AwaitsAt(h, t.msg, t.ops, depth, commitment, i);
      forall j | 0 <= j < |t.ops|
        ensures CanonicalEdge(t.ops[j])
      {
        if j == i {
          assert AwaitsEdge(h, t.msg, t.ops[j], depth, commitment);
          AwaitsCanonical(h, t.ops[j].child, depth - 1, commitment);
        } else {
          assert GoodEdge(h, t.msg, t.ops[j], depth);
          GoodIsSound(h, t.ops[j].child, depth - 1);
          SoundIsCanonical(h, t.ops[j].child, depth - 1);
        }
      }
    }
  }
}
