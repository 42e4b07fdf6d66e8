/** The bounded, hash-linked window of Bitcoin checkpoints. */
module CheckpointChain {
  import opened Options
  import opened BlockTree

  datatype Checkpoint = Checkpoint(header: Header, height: nat, hash: Hash)

  const USIZE_MAX: nat := 0xFFFF_FFFF_FFFF_FFFF

  datatype Params = Params(strong: nat, lowest: nat, highest: nat, size: nat) {
    predicate Wf() {
      0 < lowest <= strong <= highest && size == highest - lowest + 1
    }
  }

  datatype ParamsResult =
    | Ok(params: Params)
    | ZeroStrongConfirmationDepth
    | WeakCheckpointsCountTooBig
    | ChainParamsTooLarge

  /** The window spans `weak` depths below and `historical` depths above the strong one.
      Rejection happens exactly for a zero strong depth, for a window that would reach depth 0
      and for a window end that does not fit a machine word. */
  function TryNew(strong: nat, historical: nat, weak: nat): (r: ParamsResult)
    requires strong <= USIZE_MAX && historical <= USIZE_MAX && weak <= USIZE_MAX
    ensures r.Ok? <==> weak < strong && strong + historical <= USIZE_MAX
    ensures r.Ok? ==> r.params.Wf() && r.params.strong == strong && r.params.size == weak + 1 + historical
    ensures r.Ok? ==> r.params.strong - r.params.lowest == weak && r.params.highest - r.params.strong == historical
    ensures r.ZeroStrongConfirmationDepth? <==> strong == 0
  {
    if strong == 0 then ZeroStrongConfirmationDepth
    else if weak >= strong then WeakCheckpointsCountTooBig
    else
      var from := strong - weak;
      if strong + historical > USIZE_MAX then ChainParamsTooLarge
      else
        var to := strong + historical;
        if to < from || to - from + 1 > USIZE_MAX then ChainParamsTooLarge
        else Ok(Params(strong, from, to, to - from + 1))
  }

  /** The window after pushing `c`; `None` when `c` does not connect to the newest checkpoint. */
  function Pushed(size: nat, w: seq<Checkpoint>, c: Checkpoint): (r: Option<seq<Checkpoint>>) {
    if w != [] && c.header.prev != w[|w| - 1].hash then None
    else Some((if |w| == size && w != [] then w[1..] else w) + [c])
  }

  /** The checkpoint with `depth` confirmations. */
  function AtDepth(p: Params, w: seq<Checkpoint>, depth: nat): (r: Option<Checkpoint>)
  {
    if depth < p.lowest || p.highest < depth || w == [] then None
    else
      var fromBack := depth - p.lowest;
      if fromBack >= |w| then None else Some(w[|w| - 1 - fromBack])
  }

  /** The number of confirmations printed next to entry `i` of a window of `len` checkpoints. */
  function Label(p: Params, len: nat, i: nat): nat
    requires len <= p.size
  {
    SaturatingSub(p.highest, i + (p.size - len))
  }

  /** A printed label is the depth that looks the entry up, and no depth outside the labels finds anything. */
  lemma LabelsAreDepths(p: Params, w: seq<Checkpoint>)
    requires p.Wf() && |w| <= p.size
    ensures forall i: nat :: i < |w| ==> AtDepth(p, w, Label(p, |w|, i)) == Some(w[i])
    ensures forall d: nat :: AtDepth(p, w, d).Some? <==> exists i: nat :: i < |w| && Label(p, |w|, i) == d
  {
    forall d: nat | AtDepth(p, w, d).Some?
      ensures exists i: nat :: i < |w| && Label(p, |w|, i) == d
    {
      assert Label(p, |w|, |w| - 1 - (d - p.lowest)) == d;
    }
  }

  /** A parent-linked stretch of the tree with consecutive heights. */
  ghost predicate IsPath(t: Tree, w: seq<Checkpoint>) {
    && t.Wf()
    && (forall i :: 0 <= i < |w| ==> Genuine(t, w[i]))
    && (forall i :: 0 < i < |w| ==> w[i].header.prev == w[i - 1].hash && w[i].height == w[i - 1].height + 1)
  }

  /** The checkpoint is a block of the tree, at its own height and under its own hash. */
  ghost predicate Genuine(t: Tree, c: Checkpoint) {
    t.Wf() && c.hash in t.headers && c.header == t.headers[c.hash] && c.height == t.heights[c.hash]
  }

  function Newest(w: seq<Checkpoint>): Checkpoint
    requires w != []
  {
    w[|w| - 1]
  }

  /** Pushing a genuine block at positive height keeps the window a path within its size. */
  lemma PushKeepsPath(t: Tree, size: nat, w: seq<Checkpoint>, c: Checkpoint)
    requires IsPath(t, w) && 0 < size && |w| <= size && Genuine(t, c) && c.height > 0
    ensures Pushed(size, w, c).Some? ==>
              var v := Pushed(size, w, c).value;
              IsPath(t, v) && |v| == Min(|w| + 1, size) && Newest(v) == c
              && (w != [] ==> c.height == Newest(w).height + 1)
  {
  }

  /** The `count` ancestors of `tip` ending at height `top`, oldest first. */
  function Stretch(t: Tree, tip: Hash, top: nat, count: nat): (w: seq<Checkpoint>)
    requires t.Wf() && tip in t.headers && count <= top <= t.heights[tip]
    ensures |w| == count
    ensures forall i :: 0 <= i < count ==> w[i] == BlockAt(t, tip, top - count + 1 + i)
  {
    seq(count, i requires 0 <= i < count => BlockAt(t, tip, top - count + 1 + i))
  }

  /** The block of `tip`'s own chain at a height, as a checkpoint. */
  function BlockAt(t: Tree, tip: Hash, height: nat): (c: Checkpoint)
    requires t.Wf() && tip in t.headers && height <= t.heights[tip]
    ensures c.height == height
  {
    var a := t.AncestorAt(tip, height);
    Checkpoint(t.headers[a], height, a)
  }

  /** A path whose newest block is an ancestor of `tip` consists of ancestors of `tip`. */
  lemma {:induction false} PathBelowAncestor(t: Tree, w: seq<Checkpoint>, tip: Hash, i: nat)
    requires IsPath(t, w) && i < |w| && tip in t.headers
    requires Newest(w).height <= t.heights[tip] && Newest(w) == BlockAt(t, tip, Newest(w).height)
    ensures w[i].height == Newest(w).height - (|w| - 1 - i)
    ensures w[i].height <= t.heights[tip] && w[i] == BlockAt(t, tip, w[i].height)
    decreases |w| - i
  {
    if i < |w| - 1 {
      PathBelowAncestor(t, w, tip, i + 1);
      assert w[i + 1].header.prev == w[i].hash && w[i + 1].height == w[i].height + 1;
      ParentOfAncestor(t, tip, w[i + 1].height);
    }
  }

  /** The checkpoint window as an object; readers see whole windows only. */
  class CheckpointsChain {
    const params: Params
    var checkpoints: seq<Checkpoint>

    ghost predicate Valid()
      reads this
    {
      params.Wf() && |checkpoints| <= params.size
    }

    constructor (p: Params)
      requires p.Wf()
      ensures Valid() && params == p && checkpoints == []
    {
      params := p;
      checkpoints := [];
    }

    method Push(c: Checkpoint) returns (accepted: bool)
      requires Valid()
      modifies this`checkpoints
      ensures Valid()
      ensures accepted <==> Pushed(params.size, old(checkpoints), c).Some?
      ensures checkpoints == if accepted then Pushed(params.size, old(checkpoints), c).value else old(checkpoints)
    {
      if |checkpoints| > 0 {
        if c.header.prev != checkpoints[|checkpoints| - 1].hash {
          return false;
        }
      }
      var updated := checkpoints;
      if |updated| == params.size {
        updated := updated[1..];
      }
      updated := updated + [c];
      checkpoints := updated;
      accepted := true;
    }

    method Clear()
      requires Valid()
      modifies this`checkpoints
      ensures Valid() && checkpoints == []
    {
      checkpoints := [];
    }

    /** Prints one line per checkpoint: its label, then the checkpoint. */
    method Display() returns (lines: seq<(nat, Checkpoint)>)
      requires Valid()
      ensures |lines| == |checkpoints|
      ensures forall i :: 0 <= i < |lines| ==>
                lines[i].1 == checkpoints[i] && AtDepth(params, checkpoints, lines[i].0) == Some(checkpoints[i])
    {
      lines := [];
      var shift := params.size - |checkpoints|;
      for i := 0 to |checkpoints|
        invariant |lines| == i
        invariant forall k :: 0 <= k < i ==> lines[k] == (Label(params, |checkpoints|, k), checkpoints[k])
      {
        lines := lines + [(SaturatingSub(params.highest, i + shift), checkpoints[i])];
      }
      LabelsAreDepths(params, checkpoints);
    }
  }
}
