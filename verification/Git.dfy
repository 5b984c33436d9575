/** The part of Git the rewrite engine stands on.

    Objects are opaque ids, and a three-way merge is a deterministic function of
    the trees it is given. A commit made during a rewrite is known by what it
    replaced, by its tree and by its parents: messages and minted identities
    change no merge, so they are not part of it. */
module Git {

  type CommitId = nat
  type TreeId = nat
  type Attributes = nat
  type ResolutionId = nat

  datatype Option<+T> = None | Some(value: T)

  datatype Commit =
    | Original(id: CommitId)
    | Rewritten(origin: CommitId, tree: TreeId, parents: seq<Commit>)

  /** Every commit of a history with its parents, in order. */
  type History = map<CommitId, seq<CommitId>>

  /** A merge either produces a tree or leaves conflicted paths. `candidates`
      holds, per conflicted path, the recorded resolutions whose signature is
      exactly this conflict's. A conflict with no path at all is Git refusing
      to apply the change. */
  datatype Merged =
    | Clean(tree: TreeId)
    | Conflicted(candidates: seq<seq<ResolutionId>>)

  datatype Git = Git(
    treeOf: CommitId -> TreeId,
    baseTree: CommitId -> TreeId,
    attributes: TreeId -> Attributes,
    merge3: (Attributes, TreeId, TreeId, TreeId) -> Merged,
    settle: (TreeId, TreeId, TreeId, seq<ResolutionId>) -> TreeId,
    joins: (Commit, Commit) -> bool,
    mergeCommits: (Commit, Commit) -> Merged,
    settleJoin: (Commit, Commit, seq<ResolutionId>) -> TreeId)

  function Tree(g: Git, c: Commit): TreeId {
    match c
    case Original(id) => g.treeOf(id)
    case Rewritten(_, tree, _) => tree
  }

  /** The merge `cherry-pick` performs: the change against its own parent, onto
      a checked-out tree whose attributes steer it. */
  function MergeChange(g: Git, change: CommitId, onto: TreeId): Merged {
    g.merge3(g.attributes(onto), g.baseTree(change), onto, g.treeOf(change))
  }

  /** Committing a pick: one that leaves the tree as it was is refused by Git,
      which reports no conflicted path. */
  function PickChange(g: Git, change: CommitId, onto: TreeId): Merged {
    var m := MergeChange(g, change, onto);
    if m.Clean? && m.tree == onto then Conflicted([]) else m
  }

  /** Exactly one recorded resolution for every conflicted path. */
  predicate Exact(candidates: seq<seq<ResolutionId>>) {
    forall i :: 0 <= i < |candidates| ==> |candidates[i]| == 1
  }

  function Choices(candidates: seq<seq<ResolutionId>>): (r: seq<ResolutionId>)
    requires Exact(candidates)
    ensures |r| == |candidates|
  {
    seq(|candidates|, i requires 0 <= i < |candidates| => candidates[i][0])
  }

  function SettleChange(g: Git, change: CommitId, onto: TreeId, choices: seq<ResolutionId>): TreeId {
    g.settle(g.baseTree(change), onto, g.treeOf(change), choices)
  }
}
