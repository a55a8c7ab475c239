/** The queue of notifications for the kernel: a ring buffer of fixed size, and a linked list for what
    does not fit. Together they are one unbounded first-in first-out queue. */
module NotifyQueue {
  import opened Options
  const MAX: nat := 1024   // FUSE_NOTIFY_RINGBUF_MAXLEN

  // ----- the ring

  /** A place `k` further round the ring. */
  function Round(from: nat, k: nat): (i: nat)
    requires from < MAX && k <= MAX
    ensures i < MAX
  {
    if from + k >= MAX then from + k - MAX else from + k
  }

  /** From place `out` on the ring holds the items `q`. */
  ghost predicate RingHolds<T>(r: seq<T>, out: nat, q: seq<T>) {
    |r| == MAX && out < MAX && |q| <= MAX && forall k :: 0 <= k < |q| ==> r[Round(out, k)] == q[k]
  }

  /** Where the last item went in: `|q| - 1` places after the first, or just before it. */
  function LastIn(out: nat, n: nat): nat
    requires out < MAX && n <= MAX
  {
    Round(out, if n == 0 then MAX - 1 else n - 1)
  }

  lemma RingPush<T>(r: seq<T>, out: nat, q: seq<T>, x: T)
    requires RingHolds(r, out, q) && |q| < MAX
    ensures var i := Round(LastIn(out, |q|), 1);
            i == LastIn(out, |q| + 1) && RingHolds(r[i := x], out, q + [x])
  {
    var i := Round(LastIn(out, |q|), 1);
    assert i == Round(out, |q|);
    forall k | 0 <= k < |q| + 1 ensures r[i := x][Round(out, k)] == (q + [x])[k] {
      if k < |q| { assert Round(out, k) != i; }
    }
  }

  lemma RingPop<T>(r: seq<T>, out: nat, q: seq<T>)
    requires RingHolds(r, out, q) && q != []
    ensures var o := Round(out, 1);
            r[out] == q[0] && LastIn(o, |q| - 1) == LastIn(out, |q|) && RingHolds(r, o, q[1..])
  {
    var o := Round(out, 1);
    assert Round(out, 0) == out;
    forall k | 0 <= k < |q| - 1 ensures r[Round(o, k)] == q[1..][k] { assert Round(o, k) == Round(out, k + 1); }
  }

  // ----- the list

  class Node<T> {
    const data: T
    var next: Node?<T>

    constructor (data: T)
      ensures this.data == data && next == null
    {
      this.data := data;
      next := null;
    }
  }

  ghost predicate LinkedAt<T>(s: seq<Node<T>>, i: nat)
    requires i < |s|
    reads s[i]
  {
    s[i].next == if i + 1 < |s| then s[i + 1] else null
  }

  ghost predicate Linked<T>(s: seq<Node<T>>)
    reads s
  {
    (forall i: nat :: i < |s| ==> LinkedAt(s, i)) && (forall i, j :: 0 <= i < j < |s| ==> s[i] != s[j])
  }

  ghost function DataOf<T>(s: seq<Node<T>>): (d: seq<T>)
    ensures |d| == |s| && forall i :: 0 <= i < |s| ==> d[i] == s[i].data
  {
    seq(|s|, i requires 0 <= i < |s| => s[i].data)
  }

  lemma FirstOut<T>(kept: seq<T>, spine: seq<Node<T>>)
    requires kept != []
    ensures (kept + DataOf(spine))[0] == kept[0] && (kept + DataOf(spine))[1..] == kept[1..] + DataOf(spine)
  {
  }

  lemma Regrouped<T>(k: seq<T>, s: seq<Node<T>>)
    requires s != []
    ensures (k + [s[0].data]) + DataOf(s[1..]) == k + DataOf(s)
  {
    assert DataOf(s) == [s[0].data] + DataOf(s[1..]);
  }

  class Queue<T> {
    const ring: array<T>
    var input: nat    // where the last item went into the ring
    var output: nat   // where the next one comes out
    var len: nat
    var head: Node?<T>
    var rear: Node?<T>
    ghost var spine: seq<Node<T>>   // the nodes of the list, in order
    ghost var kept: seq<T>          // what is in the ring

    ghost predicate Chained()
      reads this, spine
    {
      Linked(spine) &&
      (if spine == [] then head == null && rear == null else head == spine[0] && rear == spine[|spine| - 1])
    }

    /** The ring holds the first items, as many as fit; the list holds the rest. */
    ghost predicate Valid()
      reads this, ring, spine
    {
      Chained() && RingHolds(ring[..], output, kept) && input == LastIn(output, |kept|) &&
      len == |kept| + |spine| && (spine != [] ==> |kept| == MAX)
    }

    /** The whole queue. */
    ghost function Items(): seq<T>
      reads this
    {
      kept + DataOf(spine)
    }

    constructor (blank: T)
      ensures Valid() && Items() == [] && fresh(ring) && spine == []
    {
      ring := new T[MAX](_ => blank);
      input, output, len, head, rear, spine, kept := MAX - 1, 0, 0, null, null, [], [];
    }

    method RingEnqueue(x: T)
      requires RingHolds(ring[..], output, kept) && |kept| < MAX && input == LastIn(output, |kept|)
      modifies this`input, this`kept, ring
      ensures kept == old(kept) + [x] && RingHolds(ring[..], output, kept) && input == LastIn(output, |kept|)
    {
      RingPush(ring[..], output, kept, x);
      ghost var r := ring[..];
      input := if input + 1 == MAX then 0 else input + 1;
      ring[input] := x;
      assert ring[..] == r[input := x];
      kept := kept + [x];
    }

    method RingDequeue() returns (x: T)
      requires RingHolds(ring[..], output, kept) && kept != [] && input == LastIn(output, |kept|)
      modifies this`output, this`kept
      ensures x == old(kept)[0] && kept == old(kept)[1..]
      ensures RingHolds(ring[..], output, kept) && input == LastIn(output, |kept|)
    {
      RingPop(ring[..], output, kept);
      x := ring[output];
      output := if output + 1 == MAX then 0 else output + 1;
      kept := kept[1..];
    }

    /** Either allocation may fail; then nothing is linked. */
    method ListEnqueue(x: T, nodeOk: bool, dataOk: bool) returns (ret: int)
      requires Chained()
      modifies this`head, this`rear, this`spine, if rear == null then {} else {rear}
      ensures Chained() && ret == if nodeOk && dataOk then 0 else -1
      ensures ret < 0 ==> spine == old(spine)
      ensures ret == 0 ==> |spine| == |old(spine)| + 1 && old(spine) <= spine && fresh(spine[|spine| - 1])
      ensures ret == 0 ==> spine[|spine| - 1].data == x
    {
      if !nodeOk { return -1; }
      if !dataOk { return -1; }
      var node := new Node(x);
      ghost var s := spine;
      if head == null {
        head := node;
        rear := node;
      } else {
        rear.next := node;
        rear := node;
      }
      spine := spine + [node];
      forall i: nat | i < |spine| ensures LinkedAt(spine, i) {
        if i + 1 < |s| { assert s[i] != s[|s| - 1] && old(LinkedAt(spine, i)); }
      }
      return 0;
    }

    method ListDequeue() returns (x: T)
      requires Chained() && spine != []
      modifies this`head, this`rear, this`spine
      ensures Chained() && spine == old(spine)[1..] && x == old(spine)[0].data
    {
      var node := head;
      ghost var s := spine;
      assert LinkedAt(s, 0);
      assert head == rear <==> |s| == 1;
      if head == rear {
        head, rear := null, null;
      } else {
        head := node.next;
      }
      x := node.data;
      spine := spine[1..];
      forall i: nat | i < |spine| ensures LinkedAt(spine, i) { assert LinkedAt(s, i + 1); }
    }

    /** `posted` tells whether the consumer is woken up. */
    method Enqueue(x: T, nodeOk: bool, dataOk: bool) returns (ret: int, posted: bool)
      requires Valid()
      modifies this, ring, if rear == null then {} else {rear}
      ensures Valid() && old(spine) <= spine && fresh(set n | n in spine && n !in old(spine))
      ensures ret == if |old(Items())| >= MAX && !(nodeOk && dataOk) then -1 else 0
      ensures Items() == if ret == 0 then old(Items()) + [x] else old(Items())
      ensures posted == (old(Items()) == [])
    {
      posted := false;
      if len >= MAX {
        ret := ListEnqueue(x, nodeOk, dataOk);
      } else {
        RingEnqueue(x);
        ret := 0;
      }
      if ret < 0 { return; }
      len := len + 1;
      if len == 1 { posted := true; }
    }

    /** Nothing comes out if the copy cannot be allocated; nothing is lost then. */
    method Dequeue(dataOk: bool) returns (r: Option<T>)
      requires Valid()
      modifies this, ring
      ensures Valid() && (forall n :: n in spine ==> n in old(spine))
      ensures r == if old(Items()) != [] && dataOk then Some(old(Items())[0]) else None
      ensures Items() == if r.Some? then old(Items())[1..] else old(Items())
    {
      if len == 0 { return None; }
      if !dataOk { return None; }
      FirstOut(kept, spine);
      var x := RingDequeue();
      r := Some(x);
      len := len - 1;
      if head != null { Shift(); }
    }

    /** One item moves from the list to the ring. */
    method Shift()
      requires Chained() && spine != [] && RingHolds(ring[..], output, kept) && |kept| < MAX &&
               input == LastIn(output, |kept|)
      modifies this`input, this`kept, this`head, this`rear, this`spine, ring
      ensures Chained() && RingHolds(ring[..], output, kept) && input == LastIn(output, |kept|)
      ensures spine == old(spine)[1..] && |kept| == |old(kept)| + 1 && Items() == old(Items())
    {
      ghost var k, s := kept, spine;
      var y := ListDequeue();
      RingEnqueue(y);
      Regrouped(k, s);
    }
  }
}
