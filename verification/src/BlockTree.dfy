/** Bitcoin as the synchronizer sees it: a tree of hash-linked headers and a node
    whose active tip may differ from one RPC call to the next. */
module BlockTree {
  import opened Options

  type Hash = nat

  /** A block header. `payload` stands for every field other than the parent link. */
  datatype Header = Header(prev: Hash, payload: nat)

  const MAX_HEIGHT: nat := 0xFFFF_FFFF

  /** Every block that exists at some time of a run, keyed by its hash.
      Blocks are never edited, so one tree serves a whole run: what changes is the active tip. */
  datatype Tree = Tree(hash: Header -> Hash, headers: map<Hash, Header>, heights: map<Hash, nat>) {
    ghost predicate Wf() {
      && headers.Keys == heights.Keys
      && forall b <- headers ::
           && hash(headers[b]) == b
           && heights[b] <= MAX_HEIGHT
           && (heights[b] > 0 ==> headers[b].prev in headers && heights[headers[b].prev] + 1 == heights[b])
    }

    /** The ancestor of `b` (or `b` itself) at a given height. */
    function AncestorAt(b: Hash, height: nat): (a: Hash)
      requires Wf() && b in headers && height <= heights[b]
      ensures a in headers && heights[a] == height
      decreases heights[b]
    {
      if heights[b] == height then b else AncestorAt(headers[b].prev, height)
    }
  }

  /** How the node behaves during one RPC call. */
  datatype Reply = Down | Up(tip: Hash)

  /** The answers of all RPC calls of one round, by call number. */
  type Rpc = nat -> Reply

  ghost predicate Answers(t: Tree, rpc: Rpc) {
    forall i: nat :: rpc(i).Up? ==> rpc(i).tip in t.headers
  }

  /** `get_block_count` */
  function BlockCount(t: Tree, r: Reply): (n: Option<nat>)
    requires t.Wf() && (r.Up? ==> r.tip in t.headers)
  {
    if r.Down? then None else Some(t.heights[r.tip])
  }

  /** `get_block_hash`: fails above the active tip. */
  function BlockHashAt(t: Tree, r: Reply, height: nat): (h: Option<Hash>)
    requires t.Wf() && (r.Up? ==> r.tip in t.headers)
    ensures h.Some? ==> h.value in t.headers && t.heights[h.value] == height
  {
    if r.Down? || height > t.heights[r.tip] then None else Some(t.AncestorAt(r.tip, height))
  }

  /** `get_block_header`: answers for any known block, on the active chain or not. */
  function BlockHeader(t: Tree, r: Reply, h: Hash): (header: Option<Header>)
    requires t.Wf() && h in t.headers
    ensures header.Some? ==> header.value == t.headers[h] && t.hash(header.value) == h
  {
    if r.Down? then None else Some(t.headers[h])
  }

  /** Walking down in one go or stopping on the way reaches the same block. */
  lemma {:induction false} AncestorOfAncestor(t: Tree, b: Hash, mid: nat, height: nat)
    requires t.Wf() && b in t.headers && height <= mid <= t.heights[b]
    ensures t.AncestorAt(t.AncestorAt(b, mid), height) == t.AncestorAt(b, height)
    decreases t.heights[b]
  {
    if t.heights[b] > mid {
      AncestorOfAncestor(t, t.headers[b].prev, mid, height);
    }
  }

  /** The parent of the ancestor at `height` is the ancestor one below. */
  lemma ParentOfAncestor(t: Tree, b: Hash, height: nat)
    requires t.Wf() && b in t.headers && 0 < height <= t.heights[b]
    ensures t.headers[t.AncestorAt(b, height)].prev == t.AncestorAt(b, height - 1)
  {
    AncestorOfAncestor(t, b, height, height - 1);
    var a := t.AncestorAt(b, height);
    assert t.AncestorAt(a, height - 1) == t.AncestorAt(t.headers[a].prev, height - 1);
  }
}
