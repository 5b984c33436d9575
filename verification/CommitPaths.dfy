/** The shortest chain of parent links from one commit down to another, found
    breadth first over the commits that lie between them. */
module CommitPaths {
  import opened Git
  import opened RebaseTopology

  type Chain = seq<CommitId>

  ghost predicate ChainFrom(g: History, from: CommitId, c: Chain) {
    IsPath(g, c) && c[0] == from
  }

  function Tip(c: Chain): CommitId
    requires c != []
  {
    c[|c| - 1]
  }

  ghost predicate Shortest(g: History, c: Chain)
    requires c != []
  {
    forall p :: ChainFrom(g, c[0], p) && Tip(p) == Tip(c) ==> |c| <= |p|
  }

  /** How far a search has come: chains wait in order of length, every commit a
      chain of at most `depth` commits ends in has been seen, and everything below
      what is done has been seen. */
  ghost predicate Searching(g: History, from: CommitId, seen: set<CommitId>, done: set<CommitId>, queue: seq<Chain>, depth: nat) {
    && Waiting(g, from, seen, queue, depth)
    && (forall x <- seen :: x in done || Waits(queue, x))
    && (forall x, y :: x in done && Link(g, x, y) ==> y in seen)
    && (forall p :: ChainFrom(g, from, p) && |p| <= depth ==> Tip(p) in seen)
  }

  ghost predicate Waiting(g: History, from: CommitId, seen: set<CommitId>, queue: seq<Chain>, depth: nat) {
    && (forall i :: 0 <= i < |queue| ==>
          ChainFrom(g, from, queue[i]) && Tip(queue[i]) in seen && depth <= |queue[i]| <= depth + 1 && Shortest(g, queue[i]))
    && (forall i, j :: 0 <= i < j < |queue| ==> |queue[i]| <= |queue[j]|)
  }

  ghost predicate Waits(queue: seq<Chain>, x: CommitId) {
    exists i :: 0 <= i < |queue| && queue[i] != [] && Tip(queue[i]) == x
  }

  ghost predicate Link(g: History, x: CommitId, y: CommitId) {
    x in g && y in g[x]
  }

  function Parents(g: History, x: CommitId): seq<CommitId> {
    if x in g then g[x] else []
  }

  ghost predicate OneFurther(chain: Chain, parents: seq<CommitId>, seen: set<CommitId>, c: Chain) {
    exists y :: y in parents && y !in seen && c == chain + [y]
  }

  /** Appends each parent not yet seen. */
  method Expand(chain: Chain, parents: seq<CommitId>, seen: set<CommitId>) returns (added: seq<Chain>, now: set<CommitId>)
    requires chain != []
    ensures now == seen + set y | y in parents
    ensures forall i :: 0 <= i < |added| ==> OneFurther(chain, parents, seen, added[i])
    ensures forall y <- now - seen :: chain + [y] in added
  {
    added, now := [], seen;
    for i := 0 to |parents|
      invariant now == seen + set y | y in parents[..i]
      invariant forall k :: 0 <= k < |added| ==> OneFurther(chain, parents, seen, added[k])
      invariant forall y <- now - seen :: chain + [y] in added
    {
      var parent := parents[i];
      assert parents[..i + 1] == parents[..i] + [parent];
      if parent in now { continue; }
      assert OneFurther(chain, parents, seen, chain + [parent]);
      added := added + [chain + [parent]];
      now := now + {parent};
    }
    assert parents[..|parents|] == parents;
  }

  lemma {:induction false} LinkExtends(g: History, from: CommitId, c: Chain, y: CommitId)
    requires ChainFrom(g, from, c) && Link(g, Tip(c), y)
    ensures ChainFrom(g, from, c + [y]) && Tip(c + [y]) == y
  {
    var d := c + [y];
    forall i | 0 <= i < |d| - 1 ensures d[i] in g && d[i + 1] in g[d[i]] {
      if i < |c| - 1 { assert c[i] in g && c[i + 1] in g[c[i]]; }
    }
  }

  lemma {:induction false} LastLink(g: History, from: CommitId, p: Chain)
    requires ChainFrom(g, from, p) && |p| > 1
    ensures ChainFrom(g, from, p[..|p| - 1]) && Link(g, Tip(p[..|p| - 1]), Tip(p))
  {
    assert p[|p| - 2] in g && p[|p| - 2 + 1] in g[p[|p| - 2]];
  }

  /** What is one link longer than the chain taken is seen once it is expanded,
      and a commit seen for the first time has no shorter chain. */
  lemma {:induction false} ExpandedIsShortest(g: History, from: CommitId, seen: set<CommitId>, queue: seq<Chain>, depth: nat, y: CommitId)
    requires queue != [] && ChainFrom(g, from, queue[0]) && Link(g, Tip(queue[0]), y) && y !in seen
    requires |queue[0]| == depth
    requires forall p :: ChainFrom(g, from, p) && |p| <= depth ==> Tip(p) in seen
    ensures ChainFrom(g, from, queue[0] + [y]) && Tip(queue[0] + [y]) == y && Shortest(g, queue[0] + [y])
  {
    LinkExtends(g, from, queue[0], y);
    forall p | ChainFrom(g, from, p) && Tip(p) == y ensures depth + 1 <= |p| {}
  }

  lemma {:induction false} StepSearch(g: History, from: CommitId, seen: set<CommitId>, done: set<CommitId>, queue: seq<Chain>,
    depth: nat, added: seq<Chain>, now: set<CommitId>)
    requires queue != [] && Searching(g, from, seen, done, queue, depth) && |queue[0]| == depth
    requires now == seen + set y | y in Parents(g, Tip(queue[0]))
    requires forall i :: 0 <= i < |added| ==> OneFurther(queue[0], Parents(g, Tip(queue[0])), seen, added[i])
    requires forall y <- now - seen :: queue[0] + [y] in added
    ensures Searching(g, from, now, done + {Tip(queue[0])}, queue[1..] + added, depth)
  {
    StepWaits(g, from, seen, queue, depth, added, now);
    var t, next := Tip(queue[0]), queue[1..] + added;
    hide Waiting, Shortest, ChainFrom;
    forall x | x in now ensures x in done + {t} || Waits(next, x) {
      if x in seen {
        if x !in done {
          var i :| 0 <= i < |queue| && queue[i] != [] && Tip(queue[i]) == x;
          if i > 0 { assert next[i - 1] == queue[i]; }
        }
      } else {
        var i :| 0 <= i < |added| && added[i] == queue[0] + [x];
        assert next[|queue| - 1 + i] == added[i];
      }
    }
  }

  lemma {:induction false} StepWaits(g: History, from: CommitId, seen: set<CommitId>, queue: seq<Chain>, depth: nat,
    added: seq<Chain>, now: set<CommitId>)
    requires queue != [] && Waiting(g, from, seen, queue, depth) && |queue[0]| == depth
    requires forall p :: ChainFrom(g, from, p) && |p| <= depth ==> Tip(p) in seen
    requires now == seen + set y | y in Parents(g, Tip(queue[0]))
    requires forall i :: 0 <= i < |added| ==> OneFurther(queue[0], Parents(g, Tip(queue[0])), seen, added[i])
    ensures Waiting(g, from, now, queue[1..] + added, depth)
  {
    hide Shortest;
    forall i | 0 <= i < |added|
      ensures ChainFrom(g, from, added[i]) && Tip(added[i]) in now && |added[i]| == depth + 1 && Shortest(g, added[i])
    {
      var y :| y in Parents(g, Tip(queue[0])) && y !in seen && added[i] == queue[0] + [y];
      ExpandedIsShortest(g, from, seen, queue, depth, y);
    }
  }

  /** Once only longer chains wait, everything one link further has been seen. */
  lemma {:induction false} DeepenSearch(g: History, from: CommitId, seen: set<CommitId>, done: set<CommitId>, queue: seq<Chain>, depth: nat)
    requires Searching(g, from, seen, done, queue, depth) && depth > 0
    requires forall i :: 0 <= i < |queue| ==> |queue[i]| == depth + 1
    ensures Searching(g, from, seen, done, queue, depth + 1)
  {
    forall p | ChainFrom(g, from, p) && |p| <= depth + 1 ensures Tip(p) in seen {
      if |p| == depth + 1 {
        LastLink(g, from, p);
        var q := p[..|p| - 1];
        assert Tip(q) in seen;
        assert forall i :: 0 <= i < |queue| ==> Shortest(g, queue[i]);
        assert !Waits(queue, Tip(q));
      }
    }
  }

  lemma {:induction false} StartSearch(g: History, from: CommitId)
    ensures Searching(g, from, {from}, {}, [[from]], 1) && from in Universe(g, from)
  {
    assert ChainFrom(g, from, [from]) && Tip([from]) == from;
    assert Waits([[from]], from) by { assert [[from]][0] == [from]; }
  }

  lemma {:induction false} SearchExhausts(g: History, from: CommitId, seen: set<CommitId>, done: set<CommitId>, depth: nat, p: Chain)
    requires Searching(g, from, seen, done, [], depth) && from in seen && ChainFrom(g, from, p)
    ensures Tip(p) in done
    decreases |p|
  {
    if |p| > 1 {
      LastLink(g, from, p);
      SearchExhausts(g, from, seen, done, depth, p[..|p| - 1]);
    }
  }

  function Universe(g: History, from: CommitId): set<CommitId> {
    {from} + set x, i | x in g && 0 <= i < |g[x]| :: g[x][i]
  }

  lemma {:induction false} ParentsInUniverse(g: History, from: CommitId, x: CommitId)
    ensures forall y <- Parents(g, x) :: y in Universe(g, from)
  {
    forall y | y in Parents(g, x) ensures y in Universe(g, from) {
      var i :| 0 <= i < |g[x]| && g[x][i] == y;
    }
  }

  /** Breadth first: the first chain to reach `to` is a shortest one, and none is
      returned exactly when there is none. */
  method ShortestChain(g: History, from: CommitId, to: CommitId) returns (r: Option<Chain>)
    ensures r.Some? <==> Reachable(g, from, to)
    ensures r.Some? ==> ChainFrom(g, from, r.value) && Tip(r.value) == to && Shortest(g, r.value)
  {
    hide Searching, Reachable, Shortest, IsPath, Universe, Parents;
    var queue := [[from]];
    var seen := {from};
    ghost var done: set<CommitId>, depth: nat := {}, 1;
    StartSearch(g, from);
    while queue != []
      invariant Searching(g, from, seen, done, queue, depth)
      invariant from in seen && to !in done && seen <= Universe(g, from)
      invariant depth > 0 && (queue != [] ==> |queue[0]| == depth)
      decreases |Universe(g, from) - seen|, |queue|
    {
      var chain := queue[0];
      WaitingFirst(g, from, seen, done, queue, depth);
      if Tip(chain) == to {
        Reaches(g, from, chain);
        return Some(chain);
      }
      var added, now := Expand(chain, Parents(g, Tip(chain)), seen);
      depth := Advance(g, from, seen, done, queue, depth, added, now);
      queue, done, seen := queue[1..] + added, done + {Tip(chain)}, now;
    }
    Unreached(g, from, to, seen, done, depth);
    return None;
  }

  lemma {:induction false} Advance(g: History, from: CommitId, seen: set<CommitId>, done: set<CommitId>, queue: seq<Chain>,
    depth: nat, added: seq<Chain>, now: set<CommitId>) returns (deeper: nat)
    requires queue != [] && Searching(g, from, seen, done, queue, depth) && |queue[0]| == depth && depth > 0
    requires seen <= Universe(g, from) && now == seen + set y | y in Parents(g, Tip(queue[0]))
    requires forall i :: 0 <= i < |added| ==> OneFurther(queue[0], Parents(g, Tip(queue[0])), seen, added[i])
    requires forall y <- now - seen :: queue[0] + [y] in added
    ensures var next := queue[1..] + added;
            && Searching(g, from, now, done + {Tip(queue[0])}, next, deeper)
            && deeper > 0 && (next != [] ==> |next[0]| == deeper)
    ensures now <= Universe(g, from)
    ensures |Universe(g, from) - now| < |Universe(g, from) - seen| || (now == seen && added == [])
  {
    hide Searching, Universe, Parents, OneFurther;
    var t, next := Tip(queue[0]), queue[1..] + added;
    StepSearch(g, from, seen, done, queue, depth, added, now);
    ParentsInUniverse(g, from, t);
    if now == seen { NothingAdded(queue[0], Parents(g, t), seen, added); } else { Grows(Universe(g, from), seen, now); }
    deeper := depth;
    if next != [] && |next[0]| != depth {
      AllLonger(g, from, now, done + {t}, next, depth);
      DeepenSearch(g, from, now, done + {t}, next, depth);
      deeper := depth + 1;
    }
  }

  lemma {:induction false} WaitingFirst(g: History, from: CommitId, seen: set<CommitId>, done: set<CommitId>, queue: seq<Chain>, depth: nat)
    requires queue != [] && Searching(g, from, seen, done, queue, depth)
    ensures ChainFrom(g, from, queue[0]) && Shortest(g, queue[0])
  {}

  lemma {:induction false} AllLonger(g: History, from: CommitId, seen: set<CommitId>, done: set<CommitId>, queue: seq<Chain>, depth: nat)
    requires queue != [] && Searching(g, from, seen, done, queue, depth) && |queue[0]| != depth
    ensures forall i :: 0 <= i < |queue| ==> |queue[i]| == depth + 1
  {}

  lemma {:induction false} Reaches(g: History, from: CommitId, c: Chain)
    requires ChainFrom(g, from, c)
    ensures Reachable(g, from, Tip(c))
  {}

  lemma {:induction false} NothingAdded(chain: Chain, parents: seq<CommitId>, seen: set<CommitId>, added: seq<Chain>)
    requires chain != [] && seen == seen + set y | y in parents
    requires forall i :: 0 <= i < |added| ==> OneFurther(chain, parents, seen, added[i])
    ensures added == []
  {
    assert (set y | y in parents) <= seen;
    assert forall y <- parents :: y in seen;
    assert added != [] ==> OneFurther(chain, parents, seen, added[0]);
  }

  lemma {:induction false} Grows(universe: set<CommitId>, seen: set<CommitId>, now: set<CommitId>)
    requires seen <= now <= universe && seen != now
    ensures |universe - now| < |universe - seen|
  {
    var x :| x in now && x !in seen;
    assert universe - now <= universe - seen - {x};
    Fewer(universe - now, universe - seen - {x});
  }

  lemma {:induction false} Fewer(small: set<CommitId>, large: set<CommitId>)
    requires small <= large
    ensures |small| <= |large|
  {
    assert large == small + (large - small);
  }

  lemma {:induction false} Unreached(g: History, from: CommitId, to: CommitId, seen: set<CommitId>, done: set<CommitId>, depth: nat)
    requires Searching(g, from, seen, done, [], depth) && from in seen && to !in done
    ensures !Reachable(g, from, to)
  {
    if Reachable(g, from, to) {
      var p :| IsPath(g, p) && p[0] == from && p[|p| - 1] == to;
      SearchExhausts(g, from, seen, done, depth, p);
    }
  }

  // Over the commits between the two ends only.

  /** The parents that are on the way, in order. */
  function OnPath(parents: seq<CommitId>, on: set<CommitId>): (r: seq<CommitId>)
    ensures forall p :: p in r <==> p in parents && p in on
  {
    if parents == [] then []
    else (if parents[0] in on then [parents[0]] else []) + OnPath(parents[1..], on)
  }

  /** The rows Git lists: every commit on some way from one end to the other but
      the far end itself, each with those of its parents that are on one. */
  ghost predicate Between(h: History, from: CommitId, to: CommitId, rows: History) {
    && (forall c :: c in rows <==> c != to && Reachable(h, from, c) && Reachable(h, c, to) && c in h)
    && forall c <- rows :: rows[c] == OnPath(h[c], rows.Keys + {to})
  }

  /** Every history has such rows for any two ends. */
  lemma {:induction false} RowsExist(h: History, from: CommitId, to: CommitId) returns (rows: History)
    ensures Between(h, from, to, rows)
  {
    var on := set c | c in h && c != to && Reachable(h, from, c) && Reachable(h, c, to);
    rows := map c | c in on :: OnPath(h[c], on + {to});
    assert rows.Keys == on;
    hide Reachable, OnPath;
  }

  method CommitPath(ghost h: History, from: CommitId, to: CommitId, rows: History) returns (r: Option<Chain>)
    requires Between(h, from, to, rows)
    ensures r.Some? <==> Reachable(h, from, to)
    ensures r.Some? ==> ChainFrom(h, from, r.value) && Tip(r.value) == to && Shortest(h, r.value)
  {
    hide Reachable, Between;
    if from == to {
      assert ChainFrom(h, from, [to]) && Tip([to]) == to;
      Reaches(h, from, [to]);
      return Some([to]);
    }
    if |rows| == 0 {
      NothingBetween(h, from, to, rows);
      return None;
    }
    r := ShortestChain(rows, from, to);
    forall p | ChainFrom(h, from, p) && Tip(p) == to
      ensures Reachable(rows, from, to) && (r.Some? ==> |r.value| <= |p|)
    {
      var q := StaysBetween(h, from, to, rows, p);
      Reaches(rows, from, q);
    }
    if r.Some? {
      RowsAreReal(h, from, to, rows, r.value);
      Reaches(h, from, r.value);
    } else {
      NoChain(h, from, to);
    }
  }

  lemma {:induction false} NoChain(h: History, from: CommitId, to: CommitId)
    requires forall p :: ChainFrom(h, from, p) ==> Tip(p) != to
    ensures !Reachable(h, from, to)
  {
    if Reachable(h, from, to) {
      var p :| IsPath(h, p) && p[0] == from && p[|p| - 1] == to;
      assert ChainFrom(h, from, p);
    }
  }

  lemma {:induction false} NothingBetween(h: History, from: CommitId, to: CommitId, rows: History)
    requires Between(h, from, to, rows) && rows == map[] && from != to
    ensures !Reachable(h, from, to)
  {
    if Reachable(h, from, to) {
      var p :| IsPath(h, p) && p[0] == from && p[|p| - 1] == to;
      assert p[0] in h && p[0 + 1] in h[p[0]];
      assert IsPath(h, [from]);
    }
  }

  lemma {:induction false} RowsAreReal(h: History, from: CommitId, to: CommitId, rows: History, p: Chain)
    requires Between(h, from, to, rows) && ChainFrom(rows, from, p)
    ensures ChainFrom(h, from, p)
  {
    forall i | 0 <= i < |p| - 1 ensures p[i] in h && p[i + 1] in h[p[i]] {
      assert p[i] in rows && p[i + 1] in rows[p[i]];
    }
  }

  /** A chain to the far end, cut where it first gets there, stays between. */
  lemma {:induction false} StaysBetween(h: History, from: CommitId, to: CommitId, rows: History, p: Chain) returns (q: Chain)
    requires Between(h, from, to, rows) && ChainFrom(h, from, p) && Tip(p) == to
    ensures ChainFrom(rows, from, q) && Tip(q) == to && |q| <= |p|
  {
    var n := FirstAt(p, to);
    q := p[..n + 1];
    hide Reachable;
    forall i | 0 <= i < n ensures p[i] in rows { OnTheWay(h, from, p, i); }
    forall i | 0 <= i < |q| - 1 ensures q[i] in rows && q[i + 1] in rows[q[i]] {
      assert p[i] in h && p[i + 1] in h[p[i]];
      assert p[i + 1] in rows.Keys + {to};
    }
  }

  lemma {:induction false} OnTheWay(h: History, from: CommitId, p: Chain, i: nat)
    requires ChainFrom(h, from, p) && i < |p| - 1
    ensures p[i] in h && Reachable(h, from, p[i]) && Reachable(h, p[i], Tip(p))
  {
    assert p[i] in h && p[i + 1] in h[p[i]];
    var before, after := p[..i + 1], p[i..];
    assert IsPath(h, before) && IsPath(h, after);
    assert before[|before| - 1] == p[i] && after[|after| - 1] == Tip(p);
  }

  lemma {:induction false} FirstAt(p: Chain, to: CommitId) returns (n: nat)
    requires p != [] && Tip(p) == to
    ensures n < |p| && p[n] == to && forall i :: 0 <= i < n ==> p[i] != to
  {
    n := 0;
    while p[n] != to
      invariant n < |p| && forall i :: 0 <= i < n ==> p[i] != to
      decreases |p| - n
    {
      n := n + 1;
    }
  }
}
