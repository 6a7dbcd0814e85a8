/** The log matcher: transmissions and receptions with equal payloads are paired in arrival order,
    whichever is seen first. */
module Matcher {
  import opened Words

  type Payload = seq<u8>

  datatype TxEntry = TxEntry(ns: int, device: string)
  datatype RxEntry = RxEntry(sequence: int, ns: int, device: string)
  datatype Match = Match(data: Payload, tx: TxEntry, rx: RxEntry)

  type Queues<V> = map<Payload, seq<V>>

  /** Entries waiting under all payloads. */
  ghost function Waiting<V>(m: Queues<V>): nat
    decreases |m|
  {
    if |m| == 0 then 0 else
    var k :| k in m;
    |m[k]| + Waiting(m - {k})
  }

  lemma {:induction false} WaitingSplit<V>(m: Queues<V>, k: Payload)
    requires k in m
    ensures Waiting(m) == |m[k]| + Waiting(m - {k})
    decreases |m|
  {
    var j := SomeKey(m);
    hide Waiting;
    if j != k {
      WaitingSplit(m - {j}, k);
      WaitingSplit(m - {k}, j);
      assert m - {j} - {k} == m - {k} - {j};
    }
  }

  lemma SomeKey<V>(m: Queues<V>) returns (j: Payload)
    requires |m| != 0
    ensures j in m && Waiting(m) == |m[j]| + Waiting(m - {j})
  {
    j :| j in m && Waiting(m) == |m[j]| + Waiting(m - {j});
  }

  lemma WaitingUpdate<V>(m: Queues<V>, k: Payload, q: seq<V>)
    ensures Waiting(m[k := q]) == Waiting(m - {k}) + |q|
    ensures Waiting(m) == Waiting(m - {k}) + (if k in m then |m[k]| else 0)
  {
    hide Waiting;
    WaitingSplit(m[k := q], k);
    assert m[k := q] - {k} == m - {k};
    if k in m {
      WaitingSplit(m, k);
    } else {
      assert m - {k} == m;
    }
  }

  /** The queue without its head; an empty queue is removed. */
  function Popped<V>(m: Queues<V>, k: Payload): Queues<V>
    requires k in m && m[k] != []
  {
    if |m[k]| == 1 then m - {k} else m[k := m[k][1..]]
  }

  function Pushed<V>(m: Queues<V>, k: Payload, v: V): Queues<V> {
    m[k := (if k in m then m[k] else []) + [v]]
  }

  lemma PoppedIs<V>(m: Queues<V>, k: Payload)
    requires k in m && m[k] != []
    ensures Popped(m, k) == if |m[k]| == 1 then m - {k} else m[k := m[k][1..]]
  {
  }

  ghost predicate Tidy<V>(m: Queues<V>) {
    forall k | k in m :: m[k] != []
  }

  lemma PoppedTidy<V>(m: Queues<V>, k: Payload)
    requires k in m && Tidy(m)
    ensures Tidy(Popped(m, k)) && Popped(m, k).Keys <= m.Keys
  {
  }

  lemma TidyAt<V>(m: Queues<V>, k: Payload)
    requires Tidy(m) && k in m
    ensures m[k] != []
  {
  }

  lemma PushedTidy<V>(m: Queues<V>, k: Payload, v: V)
    requires Tidy(m)
    ensures Tidy(Pushed(m, k, v)) && Pushed(m, k, v).Keys == m.Keys + {k}
  {
  }

  lemma WaitingPopped<V>(m: Queues<V>, k: Payload)
    requires k in m && m[k] != []
    ensures Waiting(Popped(m, k)) == Waiting(m) - 1
  {
    hide Waiting;
    WaitingUpdate(m, k, m[k][1..]);
  }

  lemma WaitingPushed<V>(m: Queues<V>, k: Payload, v: V)
    ensures Waiting(Pushed(m, k, v)) == Waiting(m) + 1
  {
    hide Waiting;
    WaitingUpdate(m, k, (if k in m then m[k] else []) + [v]);
  }

  /** What is left of a queue after expiry: the prefix of expired entries goes. */
  function Unexpired(q: seq<TxEntry>, now: int, timeout: int, force: bool): (r: seq<TxEntry>)
    ensures |r| <= |q| && r == q[|q| - |r|..]
    ensures r != [] ==> !force && now - r[0].ns <= timeout
    ensures forall i | 0 <= i < |q| - |r| :: force || now - q[i].ns > timeout
  {
    if q != [] && (force || now - q[0].ns > timeout) then Unexpired(q[1..], now, timeout, force) else q
  }

  // ----- who is paired with whom --------------------------------------------------------------

  /** The queue of a payload; one that is not there is empty. */
  function At<V>(m: Queues<V>, k: Payload): seq<V> { if k in m then m[k] else [] }

  lemma PoppedAt<V>(m: Queues<V>, k: Payload, j: Payload)
    requires k in m && m[k] != []
    ensures At(Popped(m, k), j) == if j == k then m[k][1..] else At(m, j)
  {
  }

  lemma PushedAt<V>(m: Queues<V>, k: Payload, v: V, j: Payload)
    ensures At(Pushed(m, k, v), j) == if j == k then At(m, k) + [v] else At(m, j)
  {
  }

  /** The matches of one payload, in the order in which they were written. */
  function Of(written: seq<Match>, k: Payload): seq<Match> {
    if written == [] then []
    else
      var n := |written| - 1;
      Of(written[..n], k) + (if written[n].data == k then [written[n]] else [])
  }

  lemma OfSnoc(written: seq<Match>, m: Match, k: Payload)
    ensures Of(written + [m], k) == Of(written, k) + (if m.data == k then [m] else [])
  {
    assert (written + [m])[..|written|] == written;
  }

  /** The matcher's data, with the transmissions that have not expired and all receptions of each payload,
      in arrival order. */
  datatype Book = Book(tx: Queues<TxEntry>, rx: Queues<RxEntry>, written: seq<Match>,
                       alive: Queues<TxEntry>, heard: Queues<RxEntry>)

  function OnTx(b: Book, data: Payload, e: TxEntry): Book
    requires Tidy(b.rx)
  {
    var b' := b.(alive := Pushed(b.alive, data, e));
    if data in b.rx then
      b'.(rx := Popped(b.rx, data), written := b.written + [Match(data, e, b.rx[data][0])])
    else b'.(tx := Pushed(b.tx, data, e))
  }

  function OnRx(b: Book, data: Payload, e: RxEntry): Book
    requires Tidy(b.tx)
  {
    var b' := b.(heard := Pushed(b.heard, data, e));
    if data in b.tx then
      b'.(tx := Popped(b.tx, data), written := b.written + [Match(data, b.tx[data][0], e)])
    else b'.(rx := Pushed(b.rx, data, e))
  }

  /** The queue of a payload shrinks to `rest`; the others that waited in it are no longer alive. */
  function OnExpired(b: Book, k: Payload, rest: seq<TxEntry>): Book
    requires k in b.tx && |b.tx[k]| <= |At(b.alive, k)|
  {
    var alive := At(b.alive, k);
    b.(tx := if rest == [] then b.tx - {k} else b.tx[k := rest],
       alive := b.alive[k := alive[..|alive| - |b.tx[k]|] + rest])
  }

  /** Of one payload: the n-th match pairs the n-th of both sides, and what is not matched waits. */
  ghost predicate OneByOne(k: Payload, alive: seq<TxEntry>, heard: seq<RxEntry>, matches: seq<Match>,
                           tx: seq<TxEntry>, rx: seq<RxEntry>) {
    && |matches| <= |alive| && |matches| <= |heard|
    && (forall i | 0 <= i < |matches| :: matches[i] == Match(k, alive[i], heard[i]))
    && tx == alive[|matches|..] && rx == heard[|matches|..]
  }

  lemma OneMoreTx(k: Payload, alive: seq<TxEntry>, heard: seq<RxEntry>, matches: seq<Match>,
                  tx: seq<TxEntry>, rx: seq<RxEntry>, e: TxEntry)
    requires OneByOne(k, alive, heard, matches, tx, rx) && (tx == [] || rx == [])
    ensures rx != [] ==> OneByOne(k, alive + [e], heard, matches + [Match(k, e, rx[0])], tx, rx[1..])
    ensures rx == [] ==> OneByOne(k, alive + [e], heard, matches, tx + [e], rx)
  {
  }

  lemma OneMoreRx(k: Payload, alive: seq<TxEntry>, heard: seq<RxEntry>, matches: seq<Match>,
                  tx: seq<TxEntry>, rx: seq<RxEntry>, e: RxEntry)
    requires OneByOne(k, alive, heard, matches, tx, rx) && (tx == [] || rx == [])
    ensures tx != [] ==> OneByOne(k, alive, heard + [e], matches + [Match(k, tx[0], e)], tx[1..], rx)
    ensures tx == [] ==> OneByOne(k, alive, heard + [e], matches, tx, rx + [e])
  {
  }

  lemma SomeExpired(k: Payload, alive: seq<TxEntry>, heard: seq<RxEntry>, matches: seq<Match>,
                    tx: seq<TxEntry>, rx: seq<RxEntry>, rest: seq<TxEntry>)
    requires OneByOne(k, alive, heard, matches, tx, rx)
    ensures |tx| <= |alive| && OneByOne(k, alive[..|alive| - |tx|] + rest, heard, matches, rest, rx)
  {
  }

  /** The n-th match of a payload pairs its n-th transmission that has not expired with its n-th reception,
      and what is not matched waits. */
  ghost predicate PairedAt(b: Book, k: Payload) {
    OneByOne(k, At(b.alive, k), At(b.heard, k), Of(b.written, k), At(b.tx, k), At(b.rx, k))
  }

  ghost predicate Paired(b: Book) {
    && Tidy(b.tx) && Tidy(b.rx) && b.tx.Keys !! b.rx.Keys
    && forall k :: PairedAt(b, k)
  }

  lemma TxPairsAt(b: Book, data: Payload, e: TxEntry, k: Payload)
    requires Tidy(b.rx) && b.tx.Keys !! b.rx.Keys && PairedAt(b, k)
    ensures PairedAt(OnTx(b, data, e), k)
  {
    hide Popped, Pushed, Of, OneByOne;
    PushedAt(b.alive, data, e, k);
    PushedAt(b.tx, data, e, k);
    if data in b.rx {
      PoppedAt(b.rx, data, k);
      OfSnoc(b.written, Match(data, e, b.rx[data][0]), k);
    }
    if k == data {
      OneMoreTx(k, At(b.alive, k), At(b.heard, k), Of(b.written, k), At(b.tx, k), At(b.rx, k), e);
    } else {
      assert Of(b.written, k) + [] == Of(b.written, k);
    }
  }

  lemma RxPairsAt(b: Book, data: Payload, e: RxEntry, k: Payload)
    requires Tidy(b.tx) && b.tx.Keys !! b.rx.Keys && PairedAt(b, k)
    ensures PairedAt(OnRx(b, data, e), k)
  {
    hide Popped, Pushed, Of, OneByOne;
    PushedAt(b.heard, data, e, k);
    PushedAt(b.rx, data, e, k);
    if data in b.tx {
      PoppedAt(b.tx, data, k);
      OfSnoc(b.written, Match(data, b.tx[data][0], e), k);
    }
    if k == data {
      OneMoreRx(k, At(b.alive, k), At(b.heard, k), Of(b.written, k), At(b.tx, k), At(b.rx, k), e);
    } else {
      assert Of(b.written, k) + [] == Of(b.written, k);
    }
  }

  /** A transmission, a reception and an expiry keep the pairing in order. */
  lemma TxPairs(b: Book, data: Payload, e: TxEntry)
    requires Paired(b)
    ensures Paired(OnTx(b, data, e))
  {
    hide PairedAt, Tidy, Popped, Pushed;
    forall k ensures PairedAt(OnTx(b, data, e), k) {
      TxPairsAt(b, data, e, k);
    }
    PushedTidy(b.tx, data, e);
    if data in b.rx {
      TidyAt(b.rx, data);
      PoppedTidy(b.rx, data);
    }
  }

  lemma RxPairs(b: Book, data: Payload, e: RxEntry)
    requires Paired(b)
    ensures Paired(OnRx(b, data, e))
  {
    hide PairedAt, Tidy, Popped, Pushed;
    forall k ensures PairedAt(OnRx(b, data, e), k) {
      RxPairsAt(b, data, e, k);
    }
    PushedTidy(b.rx, data, e);
    if data in b.tx {
      TidyAt(b.tx, data);
      PoppedTidy(b.tx, data);
    }
  }

  lemma ExpiryPairs(b: Book, k: Payload, rest: seq<TxEntry>)
    requires Paired(b) && k in b.tx
    ensures |b.tx[k]| <= |At(b.alive, k)| && Paired(OnExpired(b, k, rest))
  {
    hide Of, OneByOne;
    assert PairedAt(b, k);
    SomeExpired(k, At(b.alive, k), At(b.heard, k), Of(b.written, k), At(b.tx, k), At(b.rx, k), rest);
    forall j ensures PairedAt(OnExpired(b, k, rest), j) {
      assert PairedAt(b, j);
    }
  }

  class Matcher {
    var pendingTx: Queues<TxEntry>
    var pendingRx: Queues<RxEntry>
    var written: seq<Match>
    ghost var alive: Queues<TxEntry>
    ghost var heard: Queues<RxEntry>
    var totalTx: nat
    var totalRx: nat
    var matched: nat
    var lost: nat

    constructor ()
      ensures Valid() && totalTx == totalRx == matched == lost == 0
      ensures Contents() == Book(map[], map[], [], map[], map[])
    {
      pendingTx, pendingRx, written := map[], map[], [];
      alive, heard := map[], map[];
      totalTx, totalRx, matched, lost := 0, 0, 0, 0;
    }

    ghost function Contents(): Book
      reads this
    {
      Book(pendingTx, pendingRx, written, alive, heard)
    }

    /** Conservation: every transmission is matched, lost or waiting; every reception is matched or
        waiting.  And pairing in order, with no payload waiting on both sides. */
    ghost predicate Valid()
      reads this
    {
      && totalTx == matched + lost + Waiting(pendingTx)
      && totalRx == matched + Waiting(pendingRx)
      && matched == |written|
      && Paired(Contents())
    }

    method Tx(data: Payload, e: TxEntry)
      requires Valid()
      modifies this
      ensures Valid() && Paired(old(Contents()))
      ensures totalTx == old(totalTx) + 1 && totalRx == old(totalRx) && lost == old(lost)
      ensures Contents() == OnTx(old(Contents()), data, e)
    {
      hide Waiting, Popped, Pushed, Tidy, PairedAt;
      TxPairs(Contents(), data, e);
      totalTx := totalTx + 1;
      alive := Pushed(alive, data, e);
      if data in pendingRx {
        TidyAt(pendingRx, data);
        WaitingPopped(pendingRx, data);
        written := written + [Match(data, e, pendingRx[data][0])];
        matched := matched + 1;
        pendingRx := if |pendingRx[data]| == 1 then pendingRx - {data} else pendingRx[data := pendingRx[data][1..]];
        PoppedIs(old(pendingRx), data);
      } else {
        WaitingPushed(pendingTx, data, e);
        pendingTx := Pushed(pendingTx, data, e);
      }
    }

    method Rx(data: Payload, e: RxEntry)
      requires Valid()
      modifies this
      ensures Valid() && Paired(old(Contents()))
      ensures totalRx == old(totalRx) + 1 && totalTx == old(totalTx) && lost == old(lost)
      ensures Contents() == OnRx(old(Contents()), data, e)
    {
      hide Waiting, Popped, Pushed, Tidy, PairedAt;
      RxPairs(Contents(), data, e);
      totalRx := totalRx + 1;
      heard := Pushed(heard, data, e);
      if data in pendingTx {
        TidyAt(pendingTx, data);
        WaitingPopped(pendingTx, data);
        written := written + [Match(data, pendingTx[data][0], e)];
        matched := matched + 1;
        pendingTx := if |pendingTx[data]| == 1 then pendingTx - {data} else pendingTx[data := pendingTx[data][1..]];
        PoppedIs(old(pendingTx), data);
      } else {
        WaitingPushed(pendingRx, data, e);
        pendingRx := Pushed(pendingRx, data, e);
      }
    }

    /** What expiry leaves under a payload. */
    ghost predicate ExpiredTo(before: Queues<TxEntry>, k: Payload, now: int, timeout: int, force: bool)
      reads this
    {
      At(pendingTx, k) == Unexpired(At(before, k), now, timeout, force)
    }

    /** expire: under every payload the expired prefix of the queue is counted as lost, and nothing
        else changes. */
    method Expire(now: int, timeout: int, force: bool)
      requires Valid()
      modifies this`pendingTx, this`lost, this`alive
      ensures Valid()
      ensures forall k | k in old(pendingTx) :: ExpiredTo(old(pendingTx), k, now, timeout, force)
      ensures pendingTx.Keys <= old(pendingTx).Keys
    {
      hide Waiting, Paired, Unexpired;
      var payloads := pendingTx.Keys;
      while payloads != {}
        invariant payloads <= pendingTx.Keys <= old(pendingTx).Keys
        invariant Valid()
        invariant forall k | k in payloads :: pendingTx[k] == old(pendingTx)[k]
        invariant forall k | k in old(pendingTx) && k !in payloads :: ExpiredTo(old(pendingTx), k, now, timeout, force)
        decreases |payloads|
      {
        var k :| k in payloads;
        payloads := payloads - {k};
        ExpireOne(k, now, timeout, force);
      }
    }

    method ExpireOne(k: Payload, now: int, timeout: int, force: bool)
      requires Valid() && k in pendingTx
      modifies this`pendingTx, this`lost, this`alive
      ensures Valid()
      ensures var rest := Unexpired(old(pendingTx)[k], now, timeout, force);
        && |old(pendingTx)[k]| <= |At(old(alive), k)|
        && Contents() == OnExpired(old(Contents()), k, rest)
    {
      hide Waiting, Unexpired, Paired;
      var q := pendingTx[k];
      var rest := Unexpired(q, now, timeout, force);
      WaitingUpdate(pendingTx, k, rest);
      ExpiryPairs(Contents(), k, rest);
      alive := alive[k := At(alive, k)[..|At(alive, k)| - |q|] + rest];
      lost := lost + (|q| - |rest|);
      pendingTx := if rest == [] then pendingTx - {k} else pendingTx[k := rest];
    }
  }
}
