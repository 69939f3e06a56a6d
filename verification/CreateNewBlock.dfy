/** CreateNewBlock: memory-pool transactions are picked by priority, each only after those it spends. */
module BlockCreation {
  import opened Basics
  import opened ChainTypes
  import opened ConnectSpec

  /** What the choice looks at. */
  datatype PoolTx = PoolTx(tx: Tx, final: bool, priority: int, feePerKb: int)

  type MemPool = map<Hash, PoolTx>

  datatype Limits = Limits(maxSize: nat, minSize: nat, prioritySize: nat, minTxFee: int, highPriority: int)

  /** FetchInputs, GetP2SHSigOpCount and ConnectInputs of one transaction on top of a test pool, left open: the new
      test pool, the fees, and the further signature operations, unless it does not connect. */
  datatype Connected<T> = Connected(pool: T, fees: int, sigOps: nat)

  type Try<!T> = (T, Tx) -> Option<Connected<T>>

  function Parents(m: MemPool, h: Hash): set<Hash>
    requires h in m
  {
    set o | o in m[h].tx.vin && o.hash in m :: o.hash
  }

  predicate Eligible(m: MemPool, h: Hash) {
    h in m && !m[h].tx.IsCoinBase() && m[h].final
  }

  // ---------------------------------------------------------------- dependencies

  /** Orphans wait for the parents not yet in the block; `dependers` lists, perhaps more than once, who waits. */
  datatype Waiting = Waiting(dependsOn: map<Hash, set<Hash>>, dependers: map<Hash, seq<Hash>>)

  ghost predicate Listed(d: map<Hash, seq<Hash>>, p: Hash, h: Hash) { p in d && h in d[p] }

  function Dependers(w: Waiting, p: Hash): seq<Hash> { if p in w.dependers then w.dependers[p] else [] }

  lemma ListOne(w: Waiting, p: Hash, h: Hash)
    ensures var w' := w.(dependers := w.dependers[p := Dependers(w, p) + [h]]);
            forall q, x :: Listed(w'.dependers, q, x) <==> Listed(w.dependers, q, x) || (q == p && x == h)
  {
    var list := Dependers(w, p) + [h];
    var w' := w.(dependers := w.dependers[p := list]);
    forall q, x ensures Listed(w'.dependers, q, x) <==> Listed(w.dependers, q, x) || (q == p && x == h) {
      if q == p { assert x in list <==> x in Dependers(w, p) || x == h; }
    }
  }

  /** With `sel` in the block and `free` put in the queue at some time, exactly the right ones wait. */
  ghost predicate Waits(m: MemPool, w: Waiting, sel: set<Hash>, free: set<Hash>) {
    && (forall h :: h in free ==> Eligible(m, h))
    && (forall h :: Eligible(m, h) && Parents(m, h) == {} ==> h in free)
    && (forall h :: h in w.dependsOn <==> Eligible(m, h) && Parents(m, h) != {})
    && (forall h :: h in w.dependsOn ==> w.dependsOn[h] == Parents(m, h) - sel)
    && (forall h :: h in w.dependsOn ==> (h in free <==> w.dependsOn[h] == {}))
    && (forall p, h :: Listed(w.dependers, p, h) <==> h in w.dependsOn && p in Parents(m, h))
  }

  /** One transaction of the pool sorted into queue or waiting. */
  method Sort(m: MemPool, h: Hash, w0: Waiting) returns (w: Waiting, orphan: bool)
    requires Eligible(m, h) && h !in w0.dependsOn && forall p :: !Listed(w0.dependers, p, h)
    ensures orphan <==> Parents(m, h) != {}
    ensures w.dependsOn == if orphan then w0.dependsOn[h := Parents(m, h)] else w0.dependsOn
    ensures forall p, x :: Listed(w.dependers, p, x) <==> Listed(w0.dependers, p, x) || (x == h && p in Parents(m, h))
  {
    w, orphan := w0, false;
    hide Listed;
    var deps: set<Hash> := {};
    var vin := m[h].tx.vin;
    for i := 0 to |vin|
      invariant deps == set o | o in vin[..i] && o.hash in m :: o.hash
      invariant orphan <==> deps != {}
      invariant w.dependsOn == w0.dependsOn
      invariant forall p, x :: Listed(w.dependers, p, x) <==> Listed(w0.dependers, p, x) || (x == h && p in deps)
    {
      var p := vin[i].hash;
      assert vin[..i + 1] == vin[..i] + [vin[i]];
      if p in m {
        orphan := true;
        ListOne(w, p, h);
        w := w.(dependers := w.dependers[p := Dependers(w, p) + [h]]);
        deps := deps + {p};
      }
    }
    assert vin[..|vin|] == vin;
    if orphan {
      w := w.(dependsOn := w.dependsOn[h := deps]);
    }
  }

  /** Sort the whole pool. */
  method Collect(m: MemPool) returns (w: Waiting, queue: seq<Hash>)
    ensures Waits(m, w, {}, Elems(queue))
    ensures NoRepeats(queue)
  {
    w, queue := Waiting(map[], map[]), [];
    var rest := m.Keys;
    while rest != {}
      invariant rest <= m.Keys && NoRepeats(queue)
      invariant forall h :: h in queue <==> Eligible(m, h) && h !in rest && Parents(m, h) == {}
      invariant forall h :: h in w.dependsOn <==> Eligible(m, h) && h !in rest && Parents(m, h) != {}
      invariant forall h :: h in w.dependsOn ==> w.dependsOn[h] == Parents(m, h)
      invariant forall p, h :: Listed(w.dependers, p, h) <==> h in w.dependsOn && p in Parents(m, h)
      decreases |rest|
    {
      var h := AnyOf(rest);
      rest := rest - {h};
      if m[h].tx.IsCoinBase() || !m[h].final {
        continue;
      }
      var orphan;
      w, orphan := Sort(m, h, w);
      if !orphan {
        queue := queue + [h];
      }
    }
  }

  ghost predicate NoRepeats(s: seq<Hash>) {
    forall i, j :: 0 <= i < j < |s| ==> s[i] != s[j]
  }

  function Elems(s: seq<Hash>): set<Hash> { set x | x in s }

  /** `hash` has just joined the block, and those in `told` know it. */
  ghost predicate Telling(m: MemPool, w: Waiting, sel: set<Hash>, hash: Hash, told: set<Hash>, free: set<Hash>) {
    && (forall h :: h in free ==> Eligible(m, h))
    && (forall h :: Eligible(m, h) && Parents(m, h) == {} ==> h in free)
    && (forall h :: h in w.dependsOn <==> Eligible(m, h) && Parents(m, h) != {})
    && (forall h :: h in w.dependsOn ==>
          w.dependsOn[h] == if h in told then Parents(m, h) - sel - {hash} else Parents(m, h) - sel)
    && (forall h :: h in w.dependsOn ==> (h in free <==> w.dependsOn[h] == {}))
    && (forall p, h :: Listed(w.dependers, p, h) <==> h in w.dependsOn && p in Parents(m, h))
  }

  /** Tell those that depend on a transaction just added; those that waited for nothing else join the queue, once. */
  method Release(m: MemPool, w0: Waiting, hash: Hash, queue0: seq<Hash>, ghost sel: set<Hash>, ghost free0: set<Hash>)
    returns (w: Waiting, queue: seq<Hash>, ghost free: set<Hash>)
    requires Waits(m, w0, sel, free0) && NoRepeats(queue0) && forall h :: h in queue0 ==> h in free0
    ensures Waits(m, w, sel + {hash}, free) && free0 <= free
    ensures NoRepeats(queue) && forall h :: h in queue <==> h in queue0 || h in free - free0
  {
    w, queue, free := w0, queue0, free0;
    var list := Dependers(w0, hash);
    for i := 0 to |list|
      invariant Telling(m, w, sel, hash, Elems(list[..i]), free)
      invariant free0 <= free && NoRepeats(queue) && w.dependers == w0.dependers
      invariant forall h :: h in queue <==> h in queue0 || h in free - free0
    {
      var h := list[i];
      assert Listed(w.dependers, hash, h);
      assert Elems(list[..i + 1]) == Elems(list[..i]) + {h};
      if w.dependsOn[h] != {} {
        ToldOne(m, w, sel, hash, Elems(list[..i]), free, h);
        w := w.(dependsOn := w.dependsOn[h := w.dependsOn[h] - {hash}]);
        if w.dependsOn[h] == {} {
          queue := queue + [h];
          free := free + {h};
        }
      } else {
        ToldAlready(m, w, sel, hash, Elems(list[..i]), free, h);
      }
    }
    assert list[..|list|] == list;
    AllTold(m, w, sel, hash, list, free);
  }

  lemma ToldOne(m: MemPool, w: Waiting, sel: set<Hash>, hash: Hash, told: set<Hash>, free: set<Hash>, h: Hash)
    requires Telling(m, w, sel, hash, told, free) && h in w.dependsOn && w.dependsOn[h] != {}
    ensures var left := w.dependsOn[h] - {hash};
            Telling(m, w.(dependsOn := w.dependsOn[h := left]), sel, hash, told + {h}, if left == {} then free + {h} else free)
  {
  }

  lemma ToldAlready(m: MemPool, w: Waiting, sel: set<Hash>, hash: Hash, told: set<Hash>, free: set<Hash>, h: Hash)
    requires Telling(m, w, sel, hash, told, free) && h in w.dependsOn && w.dependsOn[h] == {}
    ensures Telling(m, w, sel, hash, told + {h}, free)
  {
    assert Parents(m, h) - sel - {hash} == {};
  }

  lemma AllTold(m: MemPool, w: Waiting, sel: set<Hash>, hash: Hash, list: seq<Hash>, free: set<Hash>)
    requires Telling(m, w, sel, hash, Elems(list), free) && list == Dependers(w, hash)
    ensures Waits(m, w, sel + {hash}, free)
  {
    forall h | h in w.dependsOn ensures w.dependsOn[h] == Parents(m, h) - (sel + {hash}) {
      if h in list {
        assert Parents(m, h) - sel - {hash} == Parents(m, h) - (sel + {hash});
      } else {
        assert !Listed(w.dependers, hash, h);
        assert Parents(m, h) - sel == Parents(m, h) - (sel + {hash});
      }
    }
  }

  // ---------------------------------------------------------------- the queue

  /** TxPriorityCompare: is `a` behind `b`? */
  predicate Behind(m: MemPool, byFee: bool, a: Hash, b: Hash)
    requires a in m && b in m
  {
    if byFee then
      m[a].feePerKb < m[b].feePerKb || (m[a].feePerKb == m[b].feePerKb && m[a].priority < m[b].priority)
    else
      m[a].priority < m[b].priority || (m[a].priority == m[b].priority && m[a].feePerKb < m[b].feePerKb)
  }

  /** Take an entry that is behind no other off the queue. */
  method PopBest(m: MemPool, byFee: bool, queue: seq<Hash>) returns (h: Hash, rest: seq<Hash>)
    requires queue != [] && NoRepeats(queue) && forall x :: x in queue ==> x in m
    ensures h in queue && forall x :: x in queue ==> !Behind(m, byFee, h, x)
    ensures forall x :: x in queue ==>
      if byFee then m[x].feePerKb < m[h].feePerKb || (m[x].feePerKb == m[h].feePerKb && m[x].priority <= m[h].priority)
      else m[x].priority < m[h].priority || (m[x].priority == m[h].priority && m[x].feePerKb <= m[h].feePerKb)
    ensures NoRepeats(rest) && forall x :: x in rest <==> x in queue && x != h
  {
    var best := 0;
    assert queue[0] in queue;
    for i := 1 to |queue|
      invariant best < i
      invariant forall j :: 0 <= j < i ==> queue[j] in m && queue[best] in m && !Behind(m, byFee, queue[best], queue[j])
    {
      assert queue[i] in queue && queue[best] in queue && queue[i] in m;
      if Behind(m, byFee, queue[best], queue[i]) {
        best := i;
      }
    }
    h := queue[best];
    rest := queue[..best] + queue[best + 1..];
    forall x ensures x in rest <==> x in queue && x != h {
      if x in queue && x != h {
        var j :| 0 <= j < |queue| && queue[j] == x;
        assert x == rest[if j < best then j else j - 1];
      }
      if x in rest {
        var j :| 0 <= j < |rest| && rest[j] == x;
        assert x == queue[if j < best then j else j + 1];
      }
    }
  }

  // ---------------------------------------------------------------- the choice

  /** The part of the block filled so far: 1000 bytes and 100 signature operations are set aside for the rest. */
  datatype Chosen<T> = Chosen(ids: seq<Hash>, pool: T, nBlockSize: nat, nBlockSigOps: nat, nFees: int)

  /** Connecting transactions one after another from `start`, with their sums; `None` if one does not connect. */
  ghost function Filled<T>(m: MemPool, connect: Try<T>, start: T, ids: seq<Hash>): Option<Chosen<T>> {
    if ids == [] then Some(Chosen([], start, 1000, 100, 0))
    else
      var h := ids[|ids| - 1];
      var b := Filled(m, connect, start, ids[..|ids| - 1]);
      if b.None? || h !in m || connect(b.value.pool, m[h].tx).None? then None
      else Some(With(b.value, h, m[h].tx, connect(b.value.pool, m[h].tx).value))
  }

  function With<T>(c: Chosen<T>, h: Hash, tx: Tx, r: Connected<T>): Chosen<T> {
    Chosen(c.ids + [h], r.pool, c.nBlockSize + tx.size, c.nBlockSigOps + tx.sigOps + r.sigOps, c.nFees + r.fees)
  }

  /** Each chosen transaction is in the pool, may be mined, is chosen once, and comes after its parents. */
  ghost predicate InOrder(m: MemPool, ids: seq<Hash>) {
    && NoRepeats(ids)
    && (forall k :: 0 <= k < |ids| ==> Eligible(m, ids[k]))
    && (forall k :: 0 <= k < |ids| ==> forall p :: p in Parents(m, ids[k]) ==> p in ids[..k])
  }

  ghost predicate Within<T>(l: Limits, c: Chosen<T>) {
    c.ids != [] ==> c.nBlockSize < l.maxSize && c.nBlockSigOps < MAX_BLOCK_SIGOPS
  }

  /** What is known between two turns of the loop. */
  ghost predicate Choosing<T>(m: MemPool, l: Limits, connect: Try<T>, start: T, w: Waiting, queue: seq<Hash>, free: set<Hash>,
                              popped: set<Hash>, c: Chosen<T>) {
    && Waits(m, w, Elems(c.ids), free) && NoRepeats(queue)
    && (forall h :: h in queue <==> h in free - popped) && popped <= free && Elems(c.ids) <= popped
    && InOrder(m, c.ids) && Filled(m, connect, start, c.ids) == Some(c) && Within(l, c)
  }

  /** No place for `h` in the block: too large, too many signature operations of its own, or, once transactions come
      in the order of their fees, too cheap past the minimum size. */
  predicate NoRoom<T>(m: MemPool, l: Limits, h: Hash, byFee: bool, c: Chosen<T>)
    requires h in m
  {
    || c.nBlockSize + m[h].tx.size >= l.maxSize || c.nBlockSigOps + m[h].tx.sigOps >= MAX_BLOCK_SIGOPS
    || (byFee && m[h].feePerKb < l.minTxFee && c.nBlockSize + m[h].tx.size >= l.minSize)
  }

  /** From the first transaction that ends the priority area, or has no high priority, fees decide. */
  predicate FeesDecide<T>(m: MemPool, l: Limits, h: Hash, byFee: bool, c: Chosen<T>)
    requires h in m
  {
    || byFee
    || (!NoRoom(m, l, h, byFee, c)
        && (c.nBlockSize + m[h].tx.size >= l.prioritySize || m[h].priority < l.highPriority))
  }

  /** The block with `h`, if there is room and `h` connects without too many signature operations in its inputs. */
  ghost function Judged<T>(m: MemPool, l: Limits, connect: Try<T>, h: Hash, byFee: bool, c: Chosen<T>): (r: Option<Chosen<T>>)
    requires h in m
    ensures r.Some? ==> Within(l, r.value) && connect(c.pool, m[h].tx).Some?
                        && r.value == With(c, h, m[h].tx, connect(c.pool, m[h].tx).value)
  {
    var r := connect(c.pool, m[h].tx);
    if NoRoom(m, l, h, byFee, c) || r.None? || c.nBlockSigOps + m[h].tx.sigOps + r.value.sigOps >= MAX_BLOCK_SIGOPS then None
    else Some(With(c, h, m[h].tx, r.value))
  }

  /** The whole choice as a greedy one, without orphans or queue: what may come next is any transaction not yet looked
      at whose parents are all in the block. */
  datatype Greedy<T> = Greedy(popped: set<Hash>, byFee: bool, c: Chosen<T>)

  ghost predicate Ready<T>(m: MemPool, g: Greedy<T>, h: Hash) {
    Eligible(m, h) && Parents(m, h) <= Elems(g.c.ids) && h !in g.popped
  }

  ghost predicate BestReady<T>(m: MemPool, g: Greedy<T>, h: Hash) {
    Ready(m, g, h) && forall x :: Ready(m, g, x) ==> !Behind(m, g.byFee, h, x)
  }

  ghost function Turn<T>(m: MemPool, l: Limits, connect: Try<T>, g: Greedy<T>, h: Hash): Greedy<T>
    requires h in m
  {
    var next := Judged(m, l, connect, h, g.byFee, g.c);
    Greedy(g.popped + {h}, FeesDecide(m, l, h, g.byFee, g.c), if next.Some? then next.value else g.c)
  }

  /** Looking at `looks` in this order, each the best that is ready; `None` if one is not. */
  ghost function GreedyRun<T>(m: MemPool, l: Limits, connect: Try<T>, start: T, looks: seq<Hash>): Option<Greedy<T>> {
    if looks == [] then Some(Greedy({}, l.prioritySize <= 0, Chosen([], start, 1000, 100, 0)))
    else
      var g := GreedyRun(m, l, connect, start, looks[..|looks| - 1]);
      var h := looks[|looks| - 1];
      if g.None? || !BestReady(m, g.value, h) then None else Some(Turn(m, l, connect, g.value, h))
  }

  /** Should this one, just taken off the queue, be added? It is if it fits, does not pay too little once fees decide, and
      connects; and fees decide from the first on that fits but fills the priority area or has no high priority. */
  method Admit<T>(m: MemPool, l: Limits, connect: Try<T>, h: Hash, byFee0: bool, c: Chosen<T>)
    returns (byFee: bool, next: Option<Chosen<T>>)
    requires h in m
    ensures byFee == FeesDecide(m, l, h, byFee0, c)
    ensures next == Judged(m, l, connect, h, byFee0, c)
    ensures var x, r := m[h], connect(c.pool, m[h].tx);
            && (next.Some? <==> && c.nBlockSize + x.tx.size < l.maxSize && r.Some?
                                && c.nBlockSigOps + x.tx.sigOps + r.value.sigOps < 15625
                                && (byFee0 ==> x.feePerKb >= l.minTxFee || c.nBlockSize + x.tx.size < l.minSize))
            && (next.Some? ==> && next.value.ids == c.ids + [h] && next.value.pool == r.value.pool
                               && next.value.nBlockSize - c.nBlockSize == x.tx.size && next.value.nFees - c.nFees == r.value.fees
                               && next.value.nBlockSigOps - c.nBlockSigOps == x.tx.sigOps + r.value.sigOps)
            && (byFee <==> byFee0 || (&& c.nBlockSize + x.tx.size < l.maxSize && c.nBlockSigOps + x.tx.sigOps < 15625
                                      && (c.nBlockSize + x.tx.size >= l.prioritySize || x.priority < l.highPriority)))
  {
    byFee := byFee0;
    var tx := m[h].tx;
    if c.nBlockSize + tx.size >= l.maxSize {
      return byFee, None;
    }
    if c.nBlockSigOps + tx.sigOps >= MAX_BLOCK_SIGOPS {
      return byFee, None;
    }
    if byFee && m[h].feePerKb < l.minTxFee && c.nBlockSize + tx.size >= l.minSize {
      return byFee, None;
    }
    if !byFee && (c.nBlockSize + tx.size >= l.prioritySize || m[h].priority < l.highPriority) {
      byFee := true;
    }
    var r := connect(c.pool, tx);
    if r.None? || c.nBlockSigOps + tx.sigOps + r.value.sigOps >= MAX_BLOCK_SIGOPS {
      return byFee, None;
    }
    next := Some(Chosen(c.ids + [h], r.value.pool, c.nBlockSize + tx.size, c.nBlockSigOps + tx.sigOps + r.value.sigOps,
                        c.nFees + r.value.fees));
  }

  /** The choice. Every transaction free to go is looked at, once, and always the best one first: orphans, dependers
      and queue together do what the greedy choice does. */
  method Choose<T>(m: MemPool, l: Limits, connect: Try<T>, start: T)
    returns (c: Chosen<T>, ghost popped: set<Hash>, ghost looks: seq<Hash>)
    ensures InOrder(m, c.ids) && Filled(m, connect, start, c.ids) == Some(c) && Within(l, c)
    ensures Elems(c.ids) <= popped
    ensures forall h :: h in popped <==> Eligible(m, h) && Parents(m, h) <= Elems(c.ids)
    ensures var g := GreedyRun(m, l, connect, start, looks); g.Some? && g.value.c == c && g.value.popped == popped
    ensures forall i :: 0 <= i < |looks| ==> LooksAtBest(m, l, connect, start, looks, i)
  {
    var w, queue := Collect(m);
    var byFee := l.prioritySize <= 0;
    c := Chosen([], start, 1000, 100, 0);
    ghost var free := Elems(queue);
    popped, looks := {}, [];
    ChoosingStarts(m, l, connect, start, w, queue);
    GreedyStarts(m, l, connect, start);
    hide Choosing, Waits, InOrder, NoRepeats, Within, Filled, Elems, Eligible, Parents, Judged, FeesDecide, BestReady,
         GreedyRun, Turn;
    while queue != []
      invariant Choosing(m, l, connect, start, w, queue, free, popped, c)
      invariant GreedyRun(m, l, connect, start, looks) == Some(Greedy(popped, byFee, c))
      decreases |m.Keys - popped|
    {
      ghost var before := popped;
      var h, rest := TakeBest(m, l, connect, start, byFee, w, queue, free, popped, c, looks);
      popped, looks := popped + {h}, looks + [h];
      byFee, w, queue, free, c := Consider(m, l, connect, start, byFee, w, queue, rest, free, before, c, h);
    }
    ChoosingEnds(m, l, connect, start, w, free, popped, c);
    forall i | 0 <= i < |looks| ensures LooksAtBest(m, l, connect, start, looks, i) {
      BestFirst(m, l, connect, start, looks, i);
    }
  }

  /** A transaction that might be looked at: it may be mined, was not looked at, and all it spends of the pool is chosen. */
  ghost predicate IsWaiting(m: MemPool, looked: seq<Hash>, chosen: seq<Hash>, x: Hash) {
    && x in m && m[x].tx.vin != [OutPoint(0, 0xFFFF_FFFF)] && m[x].final && x !in looked
    && forall i :: 0 <= i < |m[x].tx.vin| && m[x].tx.vin[i].hash in m ==> m[x].tx.vin[i].hash in chosen
  }

  /** The `i`th look is at one of these, and no other pays more when fees decide (with the same fee, has more priority), or has
      more priority when they do not (with the same priority, pays more). */
  ghost predicate LooksAtBest<T>(m: MemPool, l: Limits, connect: Try<T>, start: T, looks: seq<Hash>, i: nat)
    requires i < |looks|
  {
    var g := GreedyRun(m, l, connect, start, looks[..i]);
    && g.Some? && IsWaiting(m, looks[..i], g.value.c.ids, looks[i])
    && forall x :: IsWaiting(m, looks[..i], g.value.c.ids, x) ==>
         var a, b := m[x], m[looks[i]];
         if g.value.byFee then a.feePerKb < b.feePerKb || (a.feePerKb == b.feePerKb && a.priority <= b.priority)
         else a.priority < b.priority || (a.priority == b.priority && a.feePerKb <= b.feePerKb)
  }

  lemma {:induction false} BestFirst<T>(m: MemPool, l: Limits, connect: Try<T>, start: T, looks: seq<Hash>, i: nat)
    requires i < |looks| && GreedyRun(m, l, connect, start, looks).Some?
    ensures LooksAtBest(m, l, connect, start, looks, i)
    decreases |looks|
  {
    var front := looks[..|looks| - 1];
    if i < |front| {
      BestFirst(m, l, connect, start, front, i);
      assert front[..i] == looks[..i];
    } else {
      var g := GreedyRun(m, l, connect, start, front).value;
      LookedAt(m, l, connect, start, front);
      hide Turn, GreedyRun;
      forall x ensures IsWaiting(m, looks[..i], g.c.ids, x) <==> Ready(m, g, x) {
        WaitingIsReady(m, g, looks[..i], x);
      }
    }
  }

  lemma WaitingIsReady<T>(m: MemPool, g: Greedy<T>, looked: seq<Hash>, x: Hash)
    requires g.popped == Elems(looked)
    ensures IsWaiting(m, looked, g.c.ids, x) <==> Ready(m, g, x)
  {
    if x in m {
      if IsWaiting(m, looked, g.c.ids, x) {
        forall p | p in Parents(m, x) ensures p in g.c.ids {
          var o :| o in m[x].tx.vin && o.hash == p;
        }
      }
      if Ready(m, g, x) {
        forall i | 0 <= i < |m[x].tx.vin| && m[x].tx.vin[i].hash in m ensures m[x].tx.vin[i].hash in g.c.ids {
          assert m[x].tx.vin[i] in m[x].tx.vin && m[x].tx.vin[i].hash in Parents(m, x);
        }
      }
    }
  }

  lemma {:induction false} LookedAt<T>(m: MemPool, l: Limits, connect: Try<T>, start: T, looks: seq<Hash>)
    requires GreedyRun(m, l, connect, start, looks).Some?
    ensures GreedyRun(m, l, connect, start, looks).value.popped == Elems(looks)
  {
    if looks != [] {
      LookedAt(m, l, connect, start, looks[..|looks| - 1]);
      assert looks == looks[..|looks| - 1] + [looks[|looks| - 1]];
    }
  }

  /** Take the best entry off the queue: it is the one the greedy choice looks at next. */
  method TakeBest<T>(m: MemPool, ghost l: Limits, ghost connect: Try<T>, ghost start: T, byFee: bool, ghost w: Waiting,
                     queue: seq<Hash>, ghost free: set<Hash>, ghost popped: set<Hash>, ghost c: Chosen<T>, ghost looks: seq<Hash>)
    returns (h: Hash, rest: seq<Hash>)
    requires Choosing(m, l, connect, start, w, queue, free, popped, c) && queue != []
    requires GreedyRun(m, l, connect, start, looks) == Some(Greedy(popped, byFee, c))
    ensures h in queue && NoRepeats(rest) && forall x :: x in rest <==> x in queue && x != h
    ensures h in m && GreedyRun(m, l, connect, start, looks + [h]) == Some(Turn(m, l, connect, Greedy(popped, byFee, c), h))
    ensures |m.Keys - (popped + {h})| < |m.Keys - popped|
  {
    hide Choosing, NoRepeats, Filled, BestReady, GreedyRun, Turn, Behind;
    QueueInPool(m, l, connect, start, w, queue, free, popped, c);
    h, rest := PopBest(m, byFee, queue);
    BestInQueue(m, l, connect, start, w, queue, free, popped, c, byFee, h);
    GreedyGoesOn(m, l, connect, start, looks, Greedy(popped, byFee, c), h);
    Fewer(m.Keys - popped, m.Keys - (popped + {h}), h);
  }

  lemma GreedyStarts<T>(m: MemPool, l: Limits, connect: Try<T>, start: T)
    ensures GreedyRun(m, l, connect, start, []) == Some(Greedy({}, l.prioritySize <= 0, Chosen([], start, 1000, 100, 0)))
  {
  }

  lemma GreedyGoesOn<T>(m: MemPool, l: Limits, connect: Try<T>, start: T, looks: seq<Hash>, g: Greedy<T>, h: Hash)
    requires GreedyRun(m, l, connect, start, looks) == Some(g) && BestReady(m, g, h)
    ensures h in m && GreedyRun(m, l, connect, start, looks + [h]) == Some(Turn(m, l, connect, g, h))
  {
    hide Turn;
    assert (looks + [h])[..|looks + [h]| - 1] == looks;
  }

  lemma ChoosingStarts<T>(m: MemPool, l: Limits, connect: Try<T>, start: T, w: Waiting, queue: seq<Hash>)
    requires Waits(m, w, {}, Elems(queue)) && NoRepeats(queue)
    ensures Choosing(m, l, connect, start, w, queue, Elems(queue), {}, Chosen([], start, 1000, 100, 0))
  {
    var none: seq<Hash> := [];
    assert Elems(none) == {};
  }

  lemma ChoosingEnds<T>(m: MemPool, l: Limits, connect: Try<T>, start: T, w: Waiting, free: set<Hash>, popped: set<Hash>,
                        c: Chosen<T>)
    requires Choosing(m, l, connect, start, w, [], free, popped, c)
    ensures InOrder(m, c.ids) && Filled(m, connect, start, c.ids) == Some(c) && Within(l, c) && Elems(c.ids) <= popped
    ensures forall h :: h in popped <==> Eligible(m, h) && Parents(m, h) <= Elems(c.ids)
  {
    forall h | h in free ensures h in popped {
      var none: seq<Hash> := [];
      assert h in none <==> h in free - popped;
    }
    AllLookedAt(m, w, Elems(c.ids), free, popped);
  }

  /** One turn: admit the entry or not, and tell those who wait for it. */
  method Consider<T>(m: MemPool, l: Limits, connect: Try<T>, ghost start: T, byFee0: bool, w0: Waiting, ghost queue0: seq<Hash>,
                     rest: seq<Hash>, ghost free0: set<Hash>, ghost before: set<Hash>, c0: Chosen<T>, h: Hash)
    returns (byFee: bool, w: Waiting, queue: seq<Hash>, ghost free: set<Hash>, c: Chosen<T>)
    requires Choosing(m, l, connect, start, w0, queue0, free0, before, c0) && h in queue0
    requires NoRepeats(rest) && forall x :: x in rest <==> x in queue0 && x != h
    ensures Choosing(m, l, connect, start, w, queue, free, before + {h}, c)
    ensures h in m && Greedy(before + {h}, byFee, c) == Turn(m, l, connect, Greedy(before, byFee0, c0), h)
  {
    hide Judged, FeesDecide;
    w, queue, free, c := w0, rest, free0, c0;
    ghost var popped := before + {h};
    QueueInPool(m, l, connect, start, w0, queue0, free0, before, c0);
    var next;
    byFee, next := Admit(m, l, connect, h, byFee0, c0);
    PoppedOne(m, l, connect, start, w0, queue0, queue, free0, before, c0, h);
    if next.Some? {
      ChosenOne(m, l, connect, start, w0, queue, free0, popped, c0, h, next.value);
      hide Choosing, Waits, InOrder, NoRepeats, Within, Filled, Elems, Eligible, Parents, Judged, FeesDecide;
      c := next.value;
      w, queue, free := Release(m, w0, h, queue, Elems(c0.ids), free0);
      ChoosingGoesOn(m, l, connect, start, w, rest, queue, free0, free, popped, c0, h, c);
    }
  }

  lemma ChoosingGoesOn<T>(m: MemPool, l: Limits, connect: Try<T>, start: T, w: Waiting, rest: seq<Hash>, queue: seq<Hash>,
                          free0: set<Hash>, free: set<Hash>, popped: set<Hash>, c0: Chosen<T>, h: Hash, c: Chosen<T>)
    requires Waits(m, w, Elems(c0.ids) + {h}, free) && free0 <= free && c.ids == c0.ids + [h]
    requires NoRepeats(queue) && forall x :: x in queue <==> x in rest || x in free - free0
    requires forall x :: x in rest <==> x in free0 - popped
    requires popped <= free0 && Elems(c0.ids) <= popped && h in popped
    requires InOrder(m, c.ids) && Filled(m, connect, start, c.ids) == Some(c) && Within(l, c)
    ensures Choosing(m, l, connect, start, w, queue, free, popped, c)
  {
    assert Elems(c.ids) == Elems(c0.ids) + {h};
  }

  // ---------------------------------------------------------------- steps of the loop

  lemma QueueInPool<T>(m: MemPool, l: Limits, connect: Try<T>, start: T, w: Waiting, queue: seq<Hash>, free: set<Hash>,
                       popped: set<Hash>, c: Chosen<T>)
    requires Choosing(m, l, connect, start, w, queue, free, popped, c)
    ensures NoRepeats(queue) && forall x :: x in queue ==> x in m && x !in popped && x in free
  {
  }

  /** The queue holds exactly what is ready, so the best of the queue is the best that is ready. */
  lemma BestInQueue<T>(m: MemPool, l: Limits, connect: Try<T>, start: T, w: Waiting, queue: seq<Hash>, free: set<Hash>,
                       popped: set<Hash>, c: Chosen<T>, byFee: bool, h: Hash)
    requires Choosing(m, l, connect, start, w, queue, free, popped, c)
    requires h in queue && forall x :: x in queue ==> x in m && !Behind(m, byFee, h, x)
    ensures BestReady(m, Greedy(popped, byFee, c), h)
  {
    var g := Greedy(popped, byFee, c);
    forall x ensures Ready(m, g, x) <==> x in queue {
      hide Parents, Eligible, Behind;
      FreeIsReady(m, w, Elems(c.ids), free, x);
    }
  }

  lemma FreeIsReady(m: MemPool, w: Waiting, sel: set<Hash>, free: set<Hash>, x: Hash)
    requires Waits(m, w, sel, free)
    ensures x in free <==> Eligible(m, x) && Parents(m, x) <= sel
  {
    if Eligible(m, x) && Parents(m, x) != {} {
      NothingLeft(Parents(m, x), sel);
    }
  }

  lemma Fewer(a: set<Hash>, b: set<Hash>, h: Hash)
    requires b == a - {h} && h in a
    ensures |b| < |a|
  {
  }

  lemma PoppedOne<T>(m: MemPool, l: Limits, connect: Try<T>, start: T, w: Waiting, queue0: seq<Hash>, queue: seq<Hash>,
                     free: set<Hash>, popped: set<Hash>, c: Chosen<T>, h: Hash)
    requires Choosing(m, l, connect, start, w, queue0, free, popped, c) && h in queue0
    requires NoRepeats(queue) && forall x :: x in queue <==> x in queue0 && x != h
    ensures Choosing(m, l, connect, start, w, queue, free, popped + {h}, c) && h !in Elems(c.ids) && h in m
    ensures Waits(m, w, Elems(c.ids), free) && popped + {h} <= free && Elems(c.ids) <= popped + {h}
    ensures forall x :: x in queue <==> x in free - (popped + {h})
  {
  }

  lemma ChosenOne<T>(m: MemPool, l: Limits, connect: Try<T>, start: T, w: Waiting, queue: seq<Hash>, free: set<Hash>,
                     popped: set<Hash>, c: Chosen<T>, h: Hash, next: Chosen<T>)
    requires Choosing(m, l, connect, start, w, queue, free, popped, c)
    requires h in popped && h !in Elems(c.ids) && connect(c.pool, m[h].tx).Some?
    requires next == With(c, h, m[h].tx, connect(c.pool, m[h].tx).value)
    ensures InOrder(m, next.ids) && Filled(m, connect, start, next.ids) == Some(next)
  {
    assert h in free && Eligible(m, h);
    ParentsChosen(m, w, Elems(c.ids), free, h);
    OneMoreInOrder(m, c.ids, h);
    assert next.ids[..|next.ids| - 1] == c.ids;
  }

  lemma ParentsChosen(m: MemPool, w: Waiting, sel: set<Hash>, free: set<Hash>, h: Hash)
    requires Waits(m, w, sel, free) && h in free
    ensures Eligible(m, h) && Parents(m, h) <= sel
  {
    FreeIsReady(m, w, sel, free, h);
  }

  lemma OneMoreInOrder(m: MemPool, ids: seq<Hash>, h: Hash)
    requires InOrder(m, ids) && Eligible(m, h) && h !in Elems(ids) && Parents(m, h) <= Elems(ids)
    ensures InOrder(m, ids + [h])
  {
    var next := ids + [h];
    forall k | 0 <= k < |next| ensures forall p :: p in Parents(m, next[k]) ==> p in next[..k] {
      if k < |ids| {
        assert next[..k] == ids[..k];
      } else {
        assert next[..k] == ids;
        forall p | p in Parents(m, h) ensures p in ids { assert p in Elems(ids); }
      }
    }
  }

  lemma NothingLeft(a: set<Hash>, b: set<Hash>)
    ensures a - b == {} <==> a <= b
  {
    if a - b == {} {
      forall x | x in a ensures x in b { assert x !in a - b; }
    }
  }

  /** When the queue is empty, what could go has been looked at. */
  lemma AllLookedAt(m: MemPool, w: Waiting, sel: set<Hash>, free: set<Hash>, popped: set<Hash>)
    requires Waits(m, w, sel, free) && popped <= free && forall h :: h in free ==> h in popped
    ensures forall h :: h in popped <==> Eligible(m, h) && Parents(m, h) <= sel
  {
    forall h ensures h in popped <==> Eligible(m, h) && Parents(m, h) <= sel {
      FreeIsReady(m, w, sel, free, h);
    }
  }
}
