/** Pairing transmit edges with receive edges in a logic-analyser capture. */
module EdgeMatch {
  import opened Words

  /** For each transmit edge, the index of the receive edge it is paired with. */
  type Pairing = seq<Option<nat>>

  predicate Sorted(s: seq<real>) {
    forall i, j | 0 <= i < j < |s| :: s[i] <= s[j]
  }

  function Count(p: Pairing): nat {
    if p == [] then 0 else (if p[0].Some? then 1 else 0) + Count(p[1..])
  }

  predicate InWindow(t: real, r: real, limit: real) { t < r <= t + limit }

  /** First receive edge from `index` on that lies after `t`. */
  function Skip(rx: seq<real>, index: nat, t: real): (i: nat)
    requires index <= |rx|
    ensures index <= i <= |rx|
    ensures forall k | index <= k < i :: rx[k] <= t
    ensures i < |rx| ==> rx[i] > t
    decreases |rx| - index
  {
    if index < |rx| && rx[index] <= t then Skip(rx, index + 1, t) else index
  }

  /** The first unused receive edge after the sender, if it is close enough. */
  function Choice(rx: seq<real>, index: nat, t: real, limit: real): (x: Option<nat>)
    requires index <= |rx|
    ensures x.Some? ==> index <= x.value < |rx| && InWindow(t, rx[x.value], limit)
  {
    var i := Skip(rx, index, t);
    if i < |rx| && rx[i] <= t + limit then Some(i) else None
  }

  /** Where the search goes on: behind the chosen edge, or at the one that came too late. */
  function After(rx: seq<real>, index: nat, t: real, limit: real): (n: nat)
    requires index <= |rx|
    ensures index <= n <= |rx|
    ensures Choice(rx, index, t, limit).Some? ==> n == Choice(rx, index, t, limit).value + 1
  {
    var i := Skip(rx, index, t);
    if i < |rx| && rx[i] <= t + limit then i + 1 else i
  }

  /** match_receives, as the pairing it computes. */
  function Greedy(tx: seq<real>, rx: seq<real>, limit: real, index: nat): (p: Pairing)
    requires index <= |rx|
    ensures |p| == |tx|
    decreases |tx|
  {
    if tx == [] then [] else
    [Choice(rx, index, tx[0], limit)] + Greedy(tx[1..], rx, limit, After(rx, index, tx[0], limit))
  }

  /** The receive edges behind all that the pairing has looked at. */
  function Rest(tx: seq<real>, rx: seq<real>, limit: real, index: nat): (r: nat)
    requires index <= |rx|
    ensures index <= r <= |rx|
    decreases |tx|
  {
    if tx == [] then index else Rest(tx[1..], rx, limit, After(rx, index, tx[0], limit))
  }

  // ----- what pairings are allowed ------------------------------------------------------------

  /** Every receive edge from `base` on is used at most once, and inside the window of its sender. */
  ghost predicate Allowed(tx: seq<real>, rx: seq<real>, limit: real, base: nat, p: Pairing) {
    && |p| == |tx|
    && (forall k | 0 <= k < |p| && p[k].Some? ::
          base <= p[k].value < |rx| && InWindow(tx[k], rx[p[k].value], limit))
    && (forall k, l | 0 <= k < l < |p| && p[k].Some? && p[l].Some? :: p[k].value != p[l].value)
  }

  /** Indices grow along the pairing: edges never cross. */
  ghost predicate InOrder(p: Pairing) {
    forall k, l | 0 <= k < l < |p| && p[k].Some? && p[l].Some? :: p[k].value < p[l].value
  }

  /** One more sender in front of an allowed pairing of the later ones. */
  lemma AllowedCons(tx: seq<real>, rx: seq<real>, limit: real, base: nat, next: nat, x: Option<nat>, q: Pairing)
    requires tx != [] && base <= next && Allowed(tx[1..], rx, limit, next, q) && InOrder(q)
    requires x.Some? ==> base <= x.value < next && x.value < |rx| && InWindow(tx[0], rx[x.value], limit)
    ensures Allowed(tx, rx, limit, base, [x] + q) && InOrder([x] + q)
  {
    var p := [x] + q;
    forall k | 0 <= k < |p| && p[k].Some?
      ensures base <= p[k].value < |rx| && InWindow(tx[k], rx[p[k].value], limit)
    {
      if k > 0 {
        assert p[k] == q[k - 1] && tx[k] == tx[1..][k - 1];
      }
    }
    forall k, l | 0 <= k < l < |p| && p[k].Some? && p[l].Some?
      ensures p[k].value < p[l].value
    {
      assert p[l] == q[l - 1];
      if k > 0 {
        assert p[k] == q[k - 1];
      }
    }
  }

  /** match_receives keeps the rules: each edge once, inside its window, in order. */
  lemma {:induction false} GreedyIsAllowed(tx: seq<real>, rx: seq<real>, limit: real, index: nat)
    requires index <= |rx|
    ensures Allowed(tx, rx, limit, index, Greedy(tx, rx, limit, index))
    ensures InOrder(Greedy(tx, rx, limit, index))
    decreases |tx|
  {
    if tx != [] {
      hide Allowed, InOrder, Choice, After, InWindow;
      var next := After(rx, index, tx[0], limit);
      GreedyIsAllowed(tx[1..], rx, limit, next);
      AllowedCons(tx, rx, limit, index, next, Choice(rx, index, tx[0], limit), Greedy(tx[1..], rx, limit, next));
    }
  }

  lemma {:induction false} CountUpdate(p: Pairing, k: nat, v: Option<nat>)
    requires k < |p|
    ensures Count(p[k := v]) + (if p[k].Some? then 1 else 0) == Count(p) + (if v.Some? then 1 else 0)
    decreases |p|
  {
    if k > 0 {
      CountUpdate(p[1..], k - 1, v);
      assert p[k := v][1..] == p[1..][k - 1 := v];
    }
  }

  /** Edges that lie before the first sender are of no use to any sender. */
  lemma UsesLater(tx: seq<real>, rx: seq<real>, limit: real, base: nat, i: nat, p: Pairing)
    requires Sorted(tx) && tx != [] && base <= i <= |rx|
    requires Allowed(tx, rx, limit, base, p) && forall k | base <= k < i :: rx[k] <= tx[0]
    ensures forall k | 0 <= k < |p| && p[k].Some? :: p[k].value >= i
  {
    forall k | 0 <= k < |p| && p[k].Some?
      ensures p[k].value >= i
    {
      assert tx[0] <= tx[k] < rx[p[k].value];
    }
  }

  /** Exchange argument: when the greedy choice is the edge `i`, any other pairing can give that edge
      to the first sender and lose at most one pair. */
  lemma Exchange(tx: seq<real>, rx: seq<real>, limit: real, base: nat, i: nat, p: Pairing) returns (q: Pairing)
    requires Sorted(tx) && Sorted(rx) && tx != [] && base <= i < |rx|
    requires Allowed(tx, rx, limit, base, p)
    requires InWindow(tx[0], rx[i], limit) && forall k | base <= k < i :: rx[k] <= tx[0]
    ensures Allowed(tx[1..], rx, limit, i + 1, q)
    ensures Count(p) <= 1 + Count(q)
  {
    UsesLater(tx, rx, limit, base, i, p);
    if k: nat :| 0 < k < |p| && p[k] == Some(i) {
      q := p[1..][k - 1 := p[0]];
      CountUpdate(p[1..], k - 1, p[0]);
      if p[0].Some? {
        assert tx[0] <= tx[k] < rx[i] <= rx[p[0].value];
      }
      Reassigned(tx, rx, limit, base, i, p, k, q);
    } else {
      q := p[1..];
      assert forall l | 0 <= l < |q| :: tx[1..][l] == tx[l + 1] && q[l] == p[l + 1];
    }
  }

  /** The sender that used `i` gets what the first sender had. */
  lemma Reassigned(tx: seq<real>, rx: seq<real>, limit: real, base: nat, i: nat, p: Pairing, k: nat, q: Pairing)
    requires tx != [] && 0 < k < |p| && Allowed(tx, rx, limit, base, p) && p[k] == Some(i)
    requires forall l | 0 <= l < |p| && p[l].Some? :: p[l].value >= i
    requires q == p[1..][k - 1 := p[0]]
    requires p[0].Some? ==> InWindow(tx[k], rx[p[0].value], limit)
    ensures Allowed(tx[1..], rx, limit, i + 1, q)
  {
    forall l | 0 <= l < |q| && q[l].Some?
      ensures i + 1 <= q[l].value < |rx| && InWindow(tx[1..][l], rx[q[l].value], limit)
    {
      var m := if l == k - 1 then 0 else l + 1;
      assert q[l] == p[m] && p[m].value != i;
    }
    forall l, m | 0 <= l < m < |q| && q[l].Some? && q[m].Some?
      ensures q[l].value != q[m].value
    {
      var a, b := if l == k - 1 then 0 else l + 1, if m == k - 1 then 0 else m + 1;
      assert q[l] == p[a] && q[m] == p[b] && a != b;
    }
  }

  lemma LaterBeyond(rx: seq<real>, i: nat, bound: real)
    requires Sorted(rx) && (i < |rx| ==> rx[i] > bound)
    ensures forall k | i <= k < |rx| :: rx[k] > bound
  {
    forall k | i <= k < |rx|
      ensures rx[k] > bound
    {
      assert rx[i] <= rx[k];
    }
  }

  /** With no edge in the first window the first sender has no partner in any pairing. */
  lemma NoPartner(tx: seq<real>, rx: seq<real>, limit: real, base: nat, i: nat, p: Pairing)
    requires Sorted(tx) && Sorted(rx) && tx != [] && base <= i <= |rx|
    requires Allowed(tx, rx, limit, base, p)
    requires forall k | base <= k < i :: rx[k] <= tx[0]
    requires i < |rx| ==> rx[i] > tx[0] + limit
    ensures p[0] == None && Allowed(tx[1..], rx, limit, i, p[1..])
  {
    UsesLater(tx, rx, limit, base, i, p);
    LaterBeyond(rx, i, tx[0] + limit);
    assert forall l | 0 <= l < |p| - 1 :: tx[1..][l] == tx[l + 1] && p[1..][l] == p[l + 1];
  }

  /** match_receives pairs as many edges as any pairing can. */
  lemma {:induction false} GreedyIsMaximum(tx: seq<real>, rx: seq<real>, limit: real, base: nat, p: Pairing)
    requires Sorted(tx) && Sorted(rx) && base <= |rx|
    requires Allowed(tx, rx, limit, base, p)
    ensures Count(p) <= Count(Greedy(tx, rx, limit, base))
    decreases |tx|
  {
    if tx != [] {
      hide Allowed, Sorted, Greedy, InWindow;
      var i := Skip(rx, base, tx[0]);
      GreedyCount(tx, rx, limit, base);
      SortedTail(tx);
      if Choice(rx, base, tx[0], limit).Some? {
        var q := Exchange(tx, rx, limit, base, i, p);
        GreedyIsMaximum(tx[1..], rx, limit, i + 1, q);
      } else {
        NoPartner(tx, rx, limit, base, i, p);
        GreedyIsMaximum(tx[1..], rx, limit, i, p[1..]);
      }
    }
  }

  lemma GreedyCount(tx: seq<real>, rx: seq<real>, limit: real, base: nat)
    requires base <= |rx| && tx != []
    ensures Count(Greedy(tx, rx, limit, base))
         == (if Choice(rx, base, tx[0], limit).Some? then 1 else 0)
            + Count(Greedy(tx[1..], rx, limit, After(rx, base, tx[0], limit)))
  {
    hide Choice, After;
    var g := Greedy(tx, rx, limit, base);
    assert g[1..] == Greedy(tx[1..], rx, limit, After(rx, base, tx[0], limit));
  }

  // ----- against the quadratic search ---------------------------------------------------------

  /** First receive edge in the window of `t`, searched from the start. */
  function FirstInWindow(rx: seq<real>, t: real, limit: real): (r: Option<nat>)
    ensures r.Some? ==> r.value < |rx| && InWindow(t, rx[r.value], limit)
    ensures r.Some? ==> forall k | 0 <= k < r.value :: !InWindow(t, rx[k], limit)
    ensures r.None? ==> forall k | 0 <= k < |rx| :: !InWindow(t, rx[k], limit)
  {
    if rx == [] then None
    else if InWindow(t, rx[0], limit) then Some(0)
    else
      var rest := FirstInWindow(rx[1..], t, limit);
      assert forall k | 0 < k < |rx| :: rx[k] == rx[1..][k - 1];
      match rest case None => None case Some(k) => Some(k + 1)
  }

  function Quadratic(tx: seq<real>, rx: seq<real>, limit: real): (p: Pairing)
    ensures |p| == |tx|
    ensures forall k | 0 <= k < |p| :: p[k] == FirstInWindow(rx, tx[k], limit)
  {
    if tx == [] then [] else [FirstInWindow(rx, tx[0], limit)] + Quadratic(tx[1..], rx, limit)
  }

  ghost predicate Injective(p: Pairing) {
    forall k, l | 0 <= k < l < |p| && p[k].Some? && p[l].Some? :: p[k].value != p[l].value
  }

  lemma WindowOfSkip(rx: seq<real>, t: real, limit: real, i: nat)
    requires Sorted(rx) && i <= |rx| && (forall k | 0 <= k < i :: rx[k] <= t) && (i < |rx| ==> rx[i] > t)
    ensures FirstInWindow(rx, t, limit) == if i < |rx| && rx[i] <= t + limit then Some(i) else None
  {
    if i < |rx| && rx[i] <= t + limit {
      assert InWindow(t, rx[i], limit);
    } else {
      LaterBeyond(rx, i, t + limit);
    }
  }

  lemma {:induction false} LinearIsQuadratic(tx: seq<real>, rx: seq<real>, limit: real, index: nat)
    requires Sorted(tx) && Sorted(rx) && index <= |rx|
    requires tx != [] ==> forall k | 0 <= k < index :: rx[k] <= tx[0]
    requires Injective(Quadratic(tx, rx, limit))
    ensures Greedy(tx, rx, limit, index) == Quadratic(tx, rx, limit)
    decreases |tx|
  {
    if tx != [] {
      var q, next := Quadratic(tx, rx, limit), After(rx, index, tx[0], limit);
      WindowOfSkip(rx, tx[0], limit, Skip(rx, index, tx[0]));
      QuadraticTail(tx, rx, limit);
      if |tx| > 1 {
        NoLateStart(tx, rx, limit, index);
      }
      hide Choice, After, Skip, Sorted, FirstInWindow;
      SortedTail(tx);
      LinearIsQuadratic(tx[1..], rx, limit, next);
    }
  }

  lemma SortedTail(s: seq<real>)
    requires Sorted(s) && s != []
    ensures Sorted(s[1..])
  {
    assert forall i | 0 <= i < |s| - 1 :: s[1..][i] == s[i + 1];
  }

  lemma QuadraticTail(tx: seq<real>, rx: seq<real>, limit: real)
    requires tx != []
    ensures Quadratic(tx, rx, limit) == [FirstInWindow(rx, tx[0], limit)] + Quadratic(tx[1..], rx, limit)
    ensures Injective(Quadratic(tx, rx, limit)) ==> Injective(Quadratic(tx[1..], rx, limit))
  {
    hide FirstInWindow;
    var q, r := Quadratic(tx, rx, limit), Quadratic(tx[1..], rx, limit);
    assert q == [q[0]] + r;
    assert forall k | 0 <= k < |r| :: r[k] == q[k + 1];
  }

  /** Where no edge is wanted twice, the search never starts behind an edge the next sender wants. */
  lemma NoLateStart(tx: seq<real>, rx: seq<real>, limit: real, index: nat)
    requires Sorted(tx) && Sorted(rx) && index <= |rx| && |tx| > 1
    requires forall k | 0 <= k < index :: rx[k] <= tx[0]
    requires Injective(Quadratic(tx, rx, limit))
    ensures forall k | 0 <= k < After(rx, index, tx[0], limit) :: rx[k] <= tx[1]
  {
    var i, q := Skip(rx, index, tx[0]), Quadratic(tx, rx, limit);
    WindowOfSkip(rx, tx[0], limit, i);
    assert tx[0] <= tx[1];
    if i < |rx| && rx[i] > tx[1] {
      WindowOfSkip(rx, tx[1], limit, i);
      assert q[0] == FirstInWindow(rx, tx[0], limit) && q[1] == FirstInWindow(rx, tx[1], limit);
    }
  }

  /** The linear two-pointer search and the quadratic one agree exactly when the quadratic one never
      pairs one receive edge with two senders. */
  lemma LinearEqualsQuadratic(tx: seq<real>, rx: seq<real>, limit: real)
    requires Sorted(tx) && Sorted(rx)
    ensures Greedy(tx, rx, limit, 0) == Quadratic(tx, rx, limit) <==> Injective(Quadratic(tx, rx, limit))
  {
    if Injective(Quadratic(tx, rx, limit)) {
      LinearIsQuadratic(tx, rx, limit, 0);
    } else {
      GreedyIsAllowed(tx, rx, limit, 0);
    }
  }

  /** In particular they agree when senders are at least a window apart. */
  lemma SpacedSendersAgree(tx: seq<real>, rx: seq<real>, limit: real)
    requires Sorted(tx) && Sorted(rx)
    requires forall k, l | 0 <= k < l < |tx| :: tx[k] + limit <= tx[l]
    ensures Greedy(tx, rx, limit, 0) == Quadratic(tx, rx, limit)
  {
    LinearEqualsQuadratic(tx, rx, limit);
  }

  /** And need not otherwise: one receive edge after two close senders. */
  lemma CloseSendersDiffer()
    ensures Greedy([0.0, 1.0], [2.0], 5.0, 0) != Quadratic([0.0, 1.0], [2.0], 5.0)
  {
    var tx, rx := [0.0, 1.0], [2.0];
    WindowOfSkip(rx, 0.0, 5.0, 0);
    WindowOfSkip(rx, 1.0, 5.0, 0);
    var q := Quadratic(tx, rx, 5.0);
    assert q[0] == Some(0) && q[1] == Some(0);
    LinearEqualsQuadratic(tx, rx, 5.0);
  }

  // ----- the source's loop --------------------------------------------------------------------

  function At(rx: seq<real>, x: Option<nat>): Option<real> {
    match x case None => None case Some(i) => if i < |rx| then Some(rx[i]) else None
  }

  function Values(rx: seq<real>, p: Pairing): seq<Option<real>> {
    seq(|p|, k requires 0 <= k < |p| => At(rx, p[k]))
  }

  lemma {:induction false} GreedySplit(a: seq<real>, t: real, rx: seq<real>, limit: real, index: nat)
    requires index <= |rx|
    ensures var n := Rest(a, rx, limit, index);
      && Greedy(a + [t], rx, limit, index) == Greedy(a, rx, limit, index) + [Choice(rx, n, t, limit)]
      && Rest(a + [t], rx, limit, index) == After(rx, n, t, limit)
    decreases |a|
  {
    hide Choice, After;
    if a == [] {
      assert (a + [t])[1..] == [];
    } else {
      assert (a + [t])[1..] == a[1..] + [t] && (a + [t])[0] == a[0];
      GreedySplit(a[1..], t, rx, limit, After(rx, index, a[0], limit));
    }
  }

  lemma {:induction false} CountConcat(p: Pairing, x: Option<nat>)
    ensures Count(p + [x]) == Count(p) + (if x.Some? then 1 else 0)
  {
    if p == [] {
      assert p + [x] == [x];
    } else {
      assert (p + [x])[1..] == p[1..] + [x];
      CountConcat(p[1..], x);
    }
  }

  lemma {:induction false} SkipExact(rx: seq<real>, index: nat, t: real)
    requires Sorted(rx) && index <= |rx|
    ensures forall i | index <= i < Skip(rx, index, t) :: rx[i] <= t
    ensures forall i | Skip(rx, index, t) <= i < |rx| :: rx[i] > t
    decreases |rx| - index
  {
    if index < |rx| && rx[index] <= t {
      SkipExact(rx, index + 1, t);
    }
  }

  /** Which edges are stale and which are left over: of those that are not matched, the ones up to the last
      sender are stale, and the ones behind it are left over. */
  lemma {:induction false} LeftOverIsLater(tx: seq<real>, rx: seq<real>, limit: real, index: nat)
    requires Sorted(tx) && Sorted(rx) && index <= |rx| && tx != []
    ensures var n, p, last := Rest(tx, rx, limit, index), Greedy(tx, rx, limit, index), tx[|tx| - 1];
      && (forall i | index <= i < n :: Some(i) in p || rx[i] <= last)
      && (forall i | n <= i < |rx| :: Some(i) !in p && rx[i] > last)
    decreases |tx|
  {
    var next := After(rx, index, tx[0], limit);
    SkipExact(rx, index, tx[0]);
    GreedyIsAllowed(tx, rx, limit, index);
    if |tx| == 1 {
      assert Greedy(tx[1..], rx, limit, next) == [];
    } else {
      LeftOverIsLater(tx[1..], rx, limit, next);
      assert tx[1..][|tx| - 2] == tx[|tx| - 1];
    }
  }

  /** match_receives: the matched values are those of the greedy pairing, and every receive edge is
      counted once, as stale, as matched or as left over. */
  method MatchReceives(tx: seq<real>, rx: seq<real>, limit: real)
    returns (matches: seq<Option<real>>, stale: nat, unmatched: nat)
    ensures matches == Values(rx, Greedy(tx, rx, limit, 0))
    ensures stale + Count(Greedy(tx, rx, limit, 0)) + unmatched == |rx|
    ensures unmatched == |rx| - Rest(tx, rx, limit, 0)
  {
    hide Greedy, Rest, Count;
    var index := 0;
    matches, stale := [], 0;
    ghost var p: Pairing := [];
    EmptyStart(rx, limit);
    for k := 0 to |tx|
      invariant p == Greedy(tx[..k], rx, limit, 0) && index == Rest(tx[..k], rx, limit, 0)
      invariant matches == Values(rx, p)
      invariant stale + Count(p) == index
    {
      assert tx[..k + 1] == tx[..k] + [tx[k]];
      GreedySplit(tx[..k], tx[k], rx, limit, 0);
      var first := index;
      index := SkipStale(rx, index, tx[k]);
      stale := stale + (index - first);
      if index < |rx| && rx[index] <= tx[k] + limit {
        matches := matches + [Some(rx[index])];
        CountConcat(p, Some(index));
        p := p + [Some(index)];
        index := index + 1;
      } else {
        matches := matches + [None];
        CountConcat(p, None);
        p := p + [None];
      }
    }
    assert tx[..|tx|] == tx;
    unmatched := |rx| - index;
  }

  lemma EmptyStart(rx: seq<real>, limit: real)
    ensures Greedy([], rx, limit, 0) == [] && Rest([], rx, limit, 0) == 0 && Count([]) == 0
  {
  }

  /** The inner loop: receive edges that lie before the sender are stale. */
  method SkipStale(rx: seq<real>, from: nat, t: real) returns (index: nat)
    requires from <= |rx|
    ensures index == Skip(rx, from, t)
  {
    index := from;
    while index < |rx| && rx[index] <= t
      invariant from <= index <= |rx|
      invariant Skip(rx, from, t) == Skip(rx, index, t)
    {
      index := index + 1;
    }
  }

  // ----- rising edges -------------------------------------------------------------------------

  datatype Sample = Sample(time: real, high: bool)

  /** Transitions alternate, starting with a rise from the idle low level. */
  predicate Alternates(s: seq<Sample>) {
    forall i | 0 <= i < |s| :: s[i].high == (i % 2 == 0)
  }

  /** Every pulse and every pause between two transitions is wider than the limit. */
  predicate Wide(s: seq<Sample>, limit: real) {
    forall i | 0 < i < |s| :: s[i].time - s[i - 1].time > limit
  }

  function Level(s: seq<Sample>): bool {
    s != [] && s[|s| - 1].high
  }

  function Rising(s: seq<Sample>): seq<real> {
    if s == [] then []
    else Rising(s[..|s| - 1]) + (if s[|s| - 1].high then [s[|s| - 1].time] else [])
  }

  /** The simple edge detector: every change from low to high. */
  function SimpleEdges(rows: seq<Sample>): seq<real> {
    if rows == [] then []
    else
      var n := |rows| - 1;
      SimpleEdges(rows[..n]) + (if rows[n].high && !Level(rows[..n]) then [rows[n].time] else [])
  }

  /** The samples at which the level changes. */
  function Changes(rows: seq<Sample>): seq<Sample> {
    if rows == [] then []
    else
      var n := |rows| - 1;
      Changes(rows[..n]) + (if rows[n].high != Level(rows[..n]) then [rows[n]] else [])
  }

  /** `a` is what is left of `b` when some of its elements are dropped. */
  ghost predicate Subsequence(a: seq<Sample>, b: seq<Sample>) {
    || a == []
    || (b != [] && a[|a| - 1] == b[|b| - 1] && Subsequence(a[..|a| - 1], b[..|b| - 1]))
    || (b != [] && Subsequence(a, b[..|b| - 1]))
  }

  lemma {:induction false} SubsequencePrefix(a: seq<Sample>, b: seq<Sample>)
    requires Subsequence(a, b) && a != []
    ensures Subsequence(a[..|a| - 1], b)
    decreases |b|
  {
    if !(a[|a| - 1] == b[|b| - 1] && Subsequence(a[..|a| - 1], b[..|b| - 1])) {
      SubsequencePrefix(a, b[..|b| - 1]);
    }
  }

  lemma FilteredSubsequence(kept: seq<Sample>, rows: seq<Sample>, i: nat, limit: real)
    requires i < |rows| && Subsequence(kept, rows[..i])
    ensures Subsequence(Filtered(kept, rows[i], limit), rows[..i + 1])
  {
    var r, b := Filtered(kept, rows[i], limit), rows[..i + 1];
    assert b[..i] == rows[..i];
    if |r| < |kept| {
      SubsequencePrefix(kept, rows[..i]);
    } else if |r| > |kept| {
      assert r[..|r| - 1] == kept;
    }
  }

  /** Changes more than the limit apart all stay. */
  lemma {:induction false} WidePrefix(rows: seq<Sample>, i: nat, limit: real)
    requires i <= |rows| && Wide(Changes(rows), limit)
    ensures Wide(Changes(rows[..i]), limit)
    decreases |rows|
  {
    if i == |rows| {
      assert rows[..i] == rows;
    } else {
      var n := |rows| - 1;
      assert Wide(Changes(rows[..n]), limit) by {
        var c := Changes(rows[..n]);
        assert forall k | 0 <= k < |c| :: Changes(rows)[k] == c[k];
      }
      WidePrefix(rows[..n], i, limit);
      assert rows[..n][..i] == rows[..i];
    }
  }

  lemma FilteredChanges(rows: seq<Sample>, i: nat, limit: real)
    requires i < |rows| && Level(Changes(rows[..i])) == Level(rows[..i])
    requires limit != 0.0 ==> Wide(Changes(rows[..i + 1]), limit)
    ensures Filtered(Changes(rows[..i]), rows[i], limit) == Changes(rows[..i + 1])
  {
    var b, c := rows[..i + 1], Changes(rows[..i]);
    assert b[..i] == rows[..i];
    if rows[i].high != Level(c) && c != [] && limit != 0.0 {
      var d := Changes(b);
      assert d[|c|] == rows[i] && d[|c| - 1] == c[|c| - 1];
    }
  }

  /** The simple detector finds the rising ones among the changes. */
  lemma {:induction false} RisingChanges(rows: seq<Sample>)
    ensures Rising(Changes(rows)) == SimpleEdges(rows) && Level(Changes(rows)) == Level(rows)
  {
    if rows != [] {
      var n := |rows| - 1;
      RisingChanges(rows[..n]);
      var c := Changes(rows[..n]);
      assert (c + [rows[n]])[..|c|] == c;
      assert c + [] == c && SimpleEdges(rows[..n]) + [] == SimpleEdges(rows[..n]);
    }
  }

  /** One sample: a change that comes within the limit of the last one cancels it. */
  function Filtered(kept: seq<Sample>, row: Sample, limit: real): seq<Sample> {
    if row.high == Level(kept) then kept
    else if limit != 0.0 && kept != [] && row.high == (|kept| >= 2 && kept[|kept| - 2].high)
            && row.time - kept[|kept| - 1].time <= limit then kept[..|kept| - 1]
    else kept + [row]
  }

  lemma FilteredKeeps(kept: seq<Sample>, row: Sample, limit: real)
    requires Alternates(kept)
    ensures Alternates(Filtered(kept, row, limit)) && Level(Filtered(kept, row, limit)) == row.high
  {
  }

  lemma FilteredWide(kept: seq<Sample>, row: Sample, limit: real)
    requires Alternates(kept) && limit != 0.0 && Wide(kept, limit)
    ensures Wide(Filtered(kept, row, limit), limit)
  {
    var r := Filtered(kept, row, limit);
    if |r| > |kept| && kept != [] {
      assert row.high == (|kept| >= 2 && kept[|kept| - 2].high);
    }
  }

  lemma LevelSnoc(rows: seq<Sample>, i: nat)
    requires i < |rows|
    ensures Level(rows[..i + 1]) == rows[i].high
  {
  }

  /** What the filter keeps of the samples, one after the other. */
  function Surviving(rows: seq<Sample>, limit: real): seq<Sample> {
    if rows == [] then [] else Filtered(Surviving(rows[..|rows| - 1], limit), rows[|rows| - 1], limit)
  }

  lemma SurvivingSnoc(rows: seq<Sample>, row: Sample, limit: real)
    ensures Surviving(rows + [row], limit) == Filtered(Surviving(rows, limit), row, limit)
  {
    assert (rows + [row])[..|rows|] == rows;
  }

  lemma {:induction false} SurvivingLevel(rows: seq<Sample>, limit: real)
    ensures Level(Surviving(rows, limit)) == Level(rows) && Alternates(Surviving(rows, limit))
  {
    hide Alternates, Filtered;
    if rows == [] {
      Idle(limit);
    } else {
      SurvivingLevel(rows[..|rows| - 1], limit);
      FilteredKeeps(Surviving(rows[..|rows| - 1], limit), rows[|rows| - 1], limit);
    }
  }

  /** What comes later depends on what has survived only. */
  lemma {:induction false} SurvivingAfter(a: seq<Sample>, b: seq<Sample>, after: seq<Sample>, limit: real)
    requires Surviving(a, limit) == Surviving(b, limit)
    ensures Surviving(a + after, limit) == Surviving(b + after, limit)
    decreases |after|
  {
    hide Filtered, Surviving;
    if after == [] {
      assert a + after == a && b + after == b;
    } else {
      var n := |after| - 1;
      SurvivingAfter(a, b, after[..n], limit);
      assert a + after == (a + after[..n]) + [after[n]] && b + after == (b + after[..n]) + [after[n]];
      SurvivingSnoc(a + after[..n], after[n], limit);
      SurvivingSnoc(b + after[..n], after[n], limit);
    }
  }

  /** A glitch, a change that is undone within the limit and does not itself follow another change within
      it, vanishes with its two samples and leaves everything else as it would be without them. */
  lemma GlitchVanishes(before: seq<Sample>, up: Sample, down: Sample, after: seq<Sample>, limit: real)
    requires limit != 0.0 && up.high != Level(before) && down.high == Level(before) && down.time - up.time <= limit
    requires var s := Surviving(before, limit); s != [] ==> up.time - s[|s| - 1].time > limit
    ensures Surviving(before + [up] + [down] + after, limit) == Surviving(before + after, limit)
  {
    hide Surviving, Alternates;
    var s := Surviving(before, limit);
    SurvivingLevel(before, limit);
    SurvivingSnoc(before, up, limit);
    SurvivingSnoc(before + [up], down, limit);
    assert Filtered(s, up, limit) == s + [up];
    assert Filtered(s + [up], down, limit) == (s + [up])[..|s|] == s;
    SurvivingAfter(before + [up] + [down], before, after, limit);
  }

  /** What the filter has kept of the samples so far. */
  ghost predicate FilterOk(kept: seq<Sample>, rows: seq<Sample>, limit: real) {
    && kept == Surviving(rows, limit)
    && Alternates(kept) && Level(kept) == Level(rows)
    && (limit != 0.0 ==> Wide(kept, limit))
    && Subsequence(kept, rows)
    && (Calm(rows, limit) ==> kept == Changes(rows))
  }

  /** The filter is off, or no two changes are within its limit. */
  predicate Calm(rows: seq<Sample>, limit: real) {
    limit == 0.0 || Wide(Changes(rows), limit)
  }

  lemma FilterStep(kept: seq<Sample>, rows: seq<Sample>, i: nat, limit: real)
    requires i < |rows| && FilterOk(kept, rows[..i], limit)
    ensures FilterOk(Filtered(kept, rows[i], limit), rows[..i + 1], limit)
  {
    hide Alternates, Wide, Changes, Subsequence, Filtered, Surviving;
    assert rows[..i + 1] == rows[..i] + [rows[i]];
    SurvivingSnoc(rows[..i], rows[i], limit);
    FilteredKeeps(kept, rows[i], limit);
    FilteredSubsequence(kept, rows, i, limit);
    LevelSnoc(rows, i);
    if limit != 0.0 {
      FilteredWide(kept, rows[i], limit);
    }
    if Calm(rows[..i + 1], limit) {
      if limit != 0.0 {
        WidePrefix(rows[..i + 1], i, limit);
        assert rows[..i + 1][..i] == rows[..i];
      }
      FilteredChanges(rows, i, limit);
    }
  }

  /** rising_edges with the glitch filter.  What remains is a subsequence of the samples, alternates,
      contains no pulse or pause within the limit and ends on the level of the last sample.  Where no
      two changes are within the limit of each other, and with the filter off, every change remains,
      and the result is exactly what the simple detector finds. */
  method RisingEdges(rows: seq<Sample>, limit: real) returns (edges: seq<real>)
    ensures var kept := Surviving(rows, limit);
      && edges == Rising(kept)
      && Alternates(kept) && Level(kept) == Level(rows) && Subsequence(kept, rows)
      && (limit != 0.0 ==> Wide(kept, limit))
      && (Calm(rows, limit) ==> kept == Changes(rows))
    ensures Calm(rows, limit) ==> edges == SimpleEdges(rows)
  {
    hide Alternates, Wide, Rising, SimpleEdges, Changes, Subsequence, Calm, Surviving;
    var previous, transitions: seq<Sample> := false, [];
    Idle(limit);
    for i := 0 to |rows|
      invariant previous == Level(transitions)
      invariant FilterOk(transitions, rows[..i], limit)
    {
      var row := rows[i];
      ghost var was := transitions;
      if row.high != previous {
        previous := row.high;
        var prior := |transitions| >= 2 && transitions[|transitions| - 2].high;
        if limit != 0.0 && transitions != [] && row.high == prior
           && row.time - transitions[|transitions| - 1].time <= limit {
          transitions := transitions[..|transitions| - 1];
        } else {
          transitions := transitions + [row];
        }
      }
      assert transitions == Filtered(was, row, limit);
      FilterStep(was, rows, i, limit);
      LevelSnoc(rows, i);
    }
    assert rows[..|rows|] == rows;
    RisingChanges(rows);
    edges := RisingTimes(transitions);
  }

  lemma Idle(limit: real)
    ensures Alternates([]) && Wide([], limit) && Subsequence([], []) && Changes([]) == [] == Surviving([], limit)
  {
  }

  method RisingTimes(transitions: seq<Sample>) returns (edges: seq<real>)
    ensures edges == Rising(transitions)
  {
    edges := [];
    for i := 0 to |transitions|
      invariant edges == Rising(transitions[..i])
    {
      assert transitions[..i + 1][..i] == transitions[..i];
      if transitions[i].high {
        edges := edges + [transitions[i].time];
      }
    }
    assert transitions[..|transitions|] == transitions;
  }
}
