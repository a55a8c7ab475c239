/** Many producers and one consumer around the notification queue, step by step between the semaphore
    operations: no item is lost and no wake-up either. */
module NotifyProtocol {
  import opened Options
  import opened NotifyQueue

  /** Where a producer stands: before `sem_wait` on the lock, before the enqueue, after it but before
      the wake-up, before releasing the lock. */
  datatype Producer = Outside | Locked | Counted | Leaving

  /** Where the consumer stands: before the lock, before looking at the length, before releasing the
      lock of an empty queue, at the wait for `not_empty`, before releasing the lock after an attempt
      to take an item. */
  datatype Consumer = Start | Looking | GivingUp | Waiting | Done

  /** `lock` and `notEmpty` are the semaphore values; `sent` and `got` are the history. */
  datatype State<T> = State(lock: nat, notEmpty: nat, queue: seq<T>, producers: seq<Producer>, consumer: Consumer,
                            sent: seq<T>, got: seq<T>)

  ghost predicate Init<T(!new)>(s: State<T>) {
    s.lock == 1 && s.notEmpty == 0 && s.queue == [] && s.consumer == Start && s.sent == [] && s.got == [] &&
    forall i :: 0 <= i < |s.producers| ==> s.producers[i] == Outside
  }

  function Moved<T>(s: State<T>, i: nat, p: Producer): State<T>
    requires i < |s.producers|
  {
    s.(producers := s.producers[i := p])
  }

  /** One step of producer `i`. */
  ghost predicate Produces<T(!new)>(s: State<T>, i: nat, s': State<T>) {
    i < |s.producers| &&
    match s.producers[i]
    case Outside => s.lock > 0 && s' == Moved(s, i, Locked).(lock := s.lock - 1)
    case Locked =>
      s' == Moved(s, i, Leaving) ||   // no memory for a list node
      (exists x :: s' == Moved(s, i, Counted).(queue := s.queue + [x], sent := s.sent + [x]))
    case Counted => s' == Moved(s, i, Leaving).(notEmpty := if |s.queue| == 1 then s.notEmpty + 1 else s.notEmpty)
    case Leaving => s' == Moved(s, i, Outside).(lock := s.lock + 1)
  }

  /** One step of the consumer. */
  ghost predicate Consumes<T(!new)>(s: State<T>, s': State<T>) {
    match s.consumer
    case Start => s.lock > 0 && s' == s.(lock := s.lock - 1, consumer := Looking)
    case Looking =>
      if s.queue == [] then s' == s.(consumer := GivingUp)
      else s' == s.(consumer := Done) ||   // no memory for the copy
           s' == s.(consumer := Done, queue := s.queue[1..], got := s.got + [s.queue[0]])
    case GivingUp => s' == s.(lock := s.lock + 1, consumer := Waiting)
    case Waiting => s.notEmpty > 0 && s' == s.(notEmpty := s.notEmpty - 1, consumer := Start)
    case Done => s' == s.(lock := s.lock + 1, consumer := Start)
  }

  ghost predicate Step<T(!new)>(s: State<T>, s': State<T>) {
    Consumes(s, s') || exists i: nat :: Produces(s, i, s')
  }

  // ----- what always holds

  predicate Inside(p: Producer) { p != Outside }

  predicate ConsumerInside(c: Consumer) { c == Looking || c == GivingUp || c == Done }

  /** The lock is held by at most one thread, and free exactly when no thread is inside. */
  ghost predicate Exclusive<T(!new)>(s: State<T>) {
    s.lock <= 1 &&
    (s.lock == 1 ==> !ConsumerInside(s.consumer)) &&
    (forall i :: 0 <= i < |s.producers| && Inside(s.producers[i]) ==> s.lock == 0 && !ConsumerInside(s.consumer)) &&
    (forall i, j :: 0 <= i < j < |s.producers| ==> !(Inside(s.producers[i]) && Inside(s.producers[j])))
  }

  /** A producer that has just made the queue non-empty and whose next step is the wake-up. */
  ghost predicate AboutToWake<T(!new)>(s: State<T>, i: nat) {
    i < |s.producers| && s.producers[i] == Counted && |s.queue| == 1
  }

  /** A consumer that has decided to wait will be woken if there is something to fetch. */
  ghost predicate Wakeful<T(!new)>(s: State<T>) {
    (s.consumer == GivingUp ==> s.queue == []) &&
    (s.consumer == Waiting && s.queue != [] ==> s.notEmpty > 0 || exists i: nat :: AboutToWake(s, i))
  }

  /** First in, first out: what was sent is what was fetched and what is still queued, in order. */
  predicate Fifo<T(==)>(s: State<T>) { s.sent == s.got + s.queue }

  ghost predicate Safe<T(!new)>(s: State<T>) {
    Exclusive(s) && Wakeful(s) && Fifo(s)
  }

  lemma ConsumeSafe<T(!new)>(s: State<T>, s': State<T>)
    requires Safe(s) && Consumes(s, s')
    ensures Safe(s')
  {
    if s.consumer == Waiting || s.consumer == Start {
    } else if s.consumer == Looking && s.queue != [] {
      assert s.queue == [s.queue[0]] + s.queue[1..];
    }
  }

  lemma ProduceSafe<T(!new)>(s: State<T>, i: nat, s': State<T>)
    requires Safe(s) && Produces(s, i, s')
    ensures Safe(s')
  {
    ProduceExclusive(s, i, s');
    if s'.consumer == Waiting && s'.queue != [] && s'.notEmpty == 0 {
      if s.queue == [] { assert AboutToWake(s', i); } else { OnlyWaker(s, i, s'); }
    }
  }

  /** While a wake-up is due, only the producer that owes it can move. */
  lemma OnlyWaker<T(!new)>(s: State<T>, i: nat, s': State<T>)
    requires Safe(s) && Produces(s, i, s') && s.consumer == Waiting && s.queue != [] && s.notEmpty == 0
    ensures s.producers[i] == Counted && |s.queue| == 1
  {
    var k: nat :| AboutToWake(s, k);
    assert Inside(s.producers[k]);
  }

  lemma ProduceExclusive<T(!new)>(s: State<T>, i: nat, s': State<T>)
    requires Safe(s) && Produces(s, i, s')
    ensures Exclusive(s') && Fifo(s')
  {
  }

  lemma InitSafe<T(!new)>(s: State<T>)
    requires Init(s)
    ensures Safe(s)
  {
  }

  ghost predicate Run<T(!new)>(states: seq<State<T>>) {
    |states| > 0 && Init(states[0]) && forall k :: 0 <= k < |states| - 1 ==> Step(states[k], states[k + 1])
  }

  lemma {:induction false} RunSafe<T(!new)>(states: seq<State<T>>, k: nat)
    requires Run(states) && k < |states|
    ensures Safe(states[k])
  {
    if k == 0 {
      InitSafe(states[0]);
    } else {
      RunSafe(states, k - 1);
      var s, s' := states[k - 1], states[k];
      assert Step(s, s');
      if Consumes(s, s') {
        ConsumeSafe(s, s');
      } else {
        var i: nat :| Produces(s, i, s');
        ProduceSafe(s, i, s');
      }
    }
  }

  /** No lost wake-up in any interleaving: when the consumer stands at the wait, something is queued and
      no producer is inside, the wait goes through; and if a producer is inside and the semaphore is
      still 0, that producer's next step is the wake-up. */
  lemma NoLostWakeUp<T(!new)>(states: seq<State<T>>, k: nat)
    requires Run(states) && k < |states|
    ensures var s := states[k]; s.consumer == Waiting && s.queue != [] && s.lock == 1 ==> s.notEmpty > 0
    ensures var s := states[k]; s.consumer == Waiting && s.queue != [] && s.notEmpty == 0 ==>
              exists i: nat :: AboutToWake(s, i) && forall s' :: Produces(s, i, s') ==> s'.notEmpty > 0
  {
    RunSafe(states, k);
    var s := states[k];
    if s.consumer == Waiting && s.queue != [] && s.notEmpty == 0 {
      var i: nat :| AboutToWake(s, i);
      assert Inside(s.producers[i]);
      assert forall s' :: Produces(s, i, s') ==> s'.notEmpty > 0;
    }
  }

  /** No item is lost, duplicated or reordered in any interleaving. */
  lemma NothingLost<T(!new)>(states: seq<State<T>>, k: nat)
    requires Run(states) && k < |states|
    ensures states[k].got <= states[k].sent && states[k].sent == states[k].got + states[k].queue
  {
    RunSafe(states, k);
  }

  // ----- the queue itself under the protocol

  /** The next thread to move: a producer with its item and the luck of its allocations, or the consumer. */
  datatype Move<T> = Send(i: nat, item: T, nodeOk: bool, dataOk: bool) | Fetch(dataOk: bool)

  /** The semaphores, where every thread stands, and whether the last enqueue asked for a wake-up. */
  datatype Threads = Threads(lock: nat, notEmpty: nat, producers: seq<Producer>, consumer: Consumer, posted: bool)

  ghost predicate Stands<T(!new)>(t: Threads, items: seq<T>, s: State<T>) {
    Safe(s) && t.lock == s.lock && t.notEmpty == s.notEmpty && t.producers == s.producers && t.consumer == s.consumer &&
    items == s.queue && (forall i :: 0 <= i < |t.producers| && t.producers[i] == Counted ==> t.posted == (|items| == 1))
  }

  /** What the move makes of the protocol's state; a blocked thread stays where it is. */
  ghost function AfterMove<T(!new)>(s: State<T>, m: Move<T>): State<T> {
    match m
    case Send(i, item, nodeOk, dataOk) => if i < |s.producers| then AfterSend(s, i, item, nodeOk && dataOk) else s
    case Fetch(dataOk) => AfterFetch(s, dataOk)
  }

  ghost function AfterSend<T(!new)>(s: State<T>, i: nat, item: T, memory: bool): State<T>
    requires i < |s.producers|
  {
    match s.producers[i]
    case Outside => if s.lock > 0 then Moved(s, i, Locked).(lock := s.lock - 1) else s
    case Locked =>
      if |s.queue| >= MAX && !memory then Moved(s, i, Leaving)
      else Moved(s, i, Counted).(queue := s.queue + [item], sent := s.sent + [item])
    case Counted => Moved(s, i, Leaving).(notEmpty := if |s.queue| == 1 then s.notEmpty + 1 else s.notEmpty)
    case Leaving => Moved(s, i, Outside).(lock := s.lock + 1)
  }

  ghost function AfterFetch<T(!new)>(s: State<T>, memory: bool): State<T> {
    match s.consumer
    case Start => if s.lock > 0 then s.(lock := s.lock - 1, consumer := Looking) else s
    case Looking =>
      if s.queue == [] then s.(consumer := GivingUp)
      else if memory then s.(consumer := Done, queue := s.queue[1..], got := s.got + [s.queue[0]])
      else s.(consumer := Done)
    case GivingUp => s.(lock := s.lock + 1, consumer := Waiting)
    case Waiting => if s.notEmpty > 0 then s.(notEmpty := s.notEmpty - 1, consumer := Start) else s
    case Done => s.(lock := s.lock + 1, consumer := Start)
  }

  /** A blocked thread stays where it is. */
  ghost predicate Next<T(!new)>(s: State<T>, s': State<T>) { s' == s || Step(s, s') }

  /** A producer inside the lock. */
  method Put<T(!new)>(q: Queue<T>, t: Threads, m: Move<T>, ghost s: State<T>) returns (t': Threads, ghost s': State<T>)
    requires q.Valid() && Stands(t, q.Items(), s) && m.Send? && m.i < |t.producers| && t.producers[m.i] == Locked
    modifies q, q.ring, q.spine
    ensures q.Valid() && Stands(t', q.Items(), s') && Next(s, s') && |t'.producers| == |t.producers|
    ensures s' == AfterMove(s, m)
    ensures forall i :: 0 <= i < |q.spine| ==> q.spine[i] in old(q.spine) || fresh(q.spine[i])
  {
    hide Produces, Step, Safe, Exclusive, RingHolds, Linked;
    ghost var items := q.Items();
    PutStands(t, items, s, m.i, m.item);
    var ret, posted := q.Enqueue(m.item, m.nodeOk, m.dataOk);
    if ret < 0 {
      t', s' := t.(producers := t.producers[m.i := Leaving]), Moved(s, m.i, Leaving);
    } else {
      t' := t.(producers := t.producers[m.i := Counted], posted := posted);
      s' := Moved(s, m.i, Counted).(queue := s.queue + [m.item], sent := s.sent + [m.item]);
    }
  }

  lemma PutStands<T(!new)>(t: Threads, items: seq<T>, s: State<T>, i: nat, x: T)
    requires Stands(t, items, s) && i < |t.producers| && t.producers[i] == Locked
    ensures i < |s.producers|
    ensures Stands(t.(producers := t.producers[i := Leaving]), items, Moved(s, i, Leaving)) &&
            Next(s, Moved(s, i, Leaving))
    ensures var s' := Moved(s, i, Counted).(queue := s.queue + [x], sent := s.sent + [x]);
            Stands(t.(producers := t.producers[i := Counted], posted := items == []), items + [x], s') && Next(s, s')
  {
    hide Wakeful, Fifo;
    var s' := Moved(s, i, Counted).(queue := s.queue + [x], sent := s.sent + [x]);
    assert Inside(s.producers[i]);
    assert Produces(s, i, Moved(s, i, Leaving)) && Produces(s, i, s');
    ProduceSafe(s, i, Moved(s, i, Leaving));
    ProduceSafe(s, i, s');
  }

  method Produce<T(!new)>(q: Queue<T>, t: Threads, m: Move<T>, ghost s: State<T>)
    returns (t': Threads, ghost s': State<T>)
    requires q.Valid() && Stands(t, q.Items(), s) && m.Send?
    modifies q, q.ring, q.spine
    ensures q.Valid() && Stands(t', q.Items(), s') && Next(s, s') && |t'.producers| == |t.producers|
    ensures s' == AfterMove(s, m)
    ensures forall i :: 0 <= i < |q.spine| ==> q.spine[i] in old(q.spine) || fresh(q.spine[i])
  {
    hide Wakeful, Fifo;
    t', s' := t, s;
    if m.i >= |t.producers| { return; }
    match t.producers[m.i] {
      case Outside =>
        if t.lock > 0 {
          t' := t.(producers := t.producers[m.i := Locked], lock := t.lock - 1);
          s' := Moved(s, m.i, Locked).(lock := s.lock - 1);
        }
      case Locked =>
        t', s' := Put(q, t, m, s);
        return;
      case Counted =>
        t' := t.(producers := t.producers[m.i := Leaving], notEmpty := if t.posted then t.notEmpty + 1 else t.notEmpty);
        s' := Moved(s, m.i, Leaving).(notEmpty := if |s.queue| == 1 then s.notEmpty + 1 else s.notEmpty);
      case Leaving =>
        t', s' :=
          t.(producers := t.producers[m.i := Outside], lock := t.lock + 1), Moved(s, m.i, Outside).(lock := s.lock + 1);
    }
    if s' != s {
      assert Produces(s, m.i, s');
      ProduceSafe(s, m.i, s');
    }
  }

  /** The consumer inside the lock. */
  method Look<T(!new)>(q: Queue<T>, t: Threads, m: Move<T>, ghost s: State<T>) returns (t': Threads, ghost s': State<T>)
    requires q.Valid() && Stands(t, q.Items(), s) && m.Fetch? && t.consumer == Looking
    modifies q, q.ring
    ensures q.Valid() && Stands(t', q.Items(), s') && Next(s, s') && |t'.producers| == |t.producers|
    ensures s' == AfterMove(s, m)
    ensures forall i :: 0 <= i < |q.spine| ==> q.spine[i] in old(q.spine)
  {
    hide Safe, Consumes, Step;
    t' := t;
    if q.len == 0 {
      t', s' := t.(consumer := GivingUp), s.(consumer := GivingUp);
      GiveUp(t, q.Items(), s);
    } else {
      ghost var items := q.Items();
      var r := q.Dequeue(m.dataOk);
      t' := t.(consumer := Done);
      s' := if r.Some? then Taken(s, items) else s.(consumer := Done);
      Take(t, items, s, r.Some?);
    }
  }

  ghost function Taken<T>(s: State<T>, items: seq<T>): State<T>
    requires items != []
  {
    s.(consumer := Done, queue := items[1..], got := s.got + [items[0]])
  }

  lemma GiveUp<T(!new)>(t: Threads, items: seq<T>, s: State<T>)
    requires Stands(t, items, s) && t.consumer == Looking && items == []
    ensures Stands(t.(consumer := GivingUp), items, s.(consumer := GivingUp)) && Next(s, s.(consumer := GivingUp))
  {
    assert Consumes(s, s.(consumer := GivingUp));
    ConsumeSafe(s, s.(consumer := GivingUp));
  }

  lemma Take<T(!new)>(t: Threads, items: seq<T>, s: State<T>, got: bool)
    requires Stands(t, items, s) && t.consumer == Looking && items != []
    ensures var s' := if got then Taken(s, items) else s.(consumer := Done);
            Stands(t.(consumer := Done), if got then items[1..] else items, s') && Next(s, s')
  {
    var s' := if got then Taken(s, items) else s.(consumer := Done);
    assert Consumes(s, s');
    ConsumeSafe(s, s');
  }

  method Consume<T(!new)>(q: Queue<T>, t: Threads, m: Move<T>, ghost s: State<T>)
    returns (t': Threads, ghost s': State<T>)
    requires q.Valid() && Stands(t, q.Items(), s) && m.Fetch?
    modifies q, q.ring
    ensures q.Valid() && Stands(t', q.Items(), s') && Next(s, s') && |t'.producers| == |t.producers|
    ensures s' == AfterMove(s, m)
    ensures forall i :: 0 <= i < |q.spine| ==> q.spine[i] in old(q.spine)
  {
    hide Wakeful, Fifo, RingHolds, Linked;
    t', s' := t, s;
    match t.consumer {
      case Start =>
        if t.lock > 0 {
          t', s' := t.(lock := t.lock - 1, consumer := Looking), s.(lock := s.lock - 1, consumer := Looking);
        }
      case Looking =>
        t', s' := Look(q, t, m, s);
        return;
      case GivingUp => t', s' :=
        t.(lock := t.lock + 1, consumer := Waiting), s.(lock := s.lock + 1, consumer := Waiting);
      case Waiting =>
        if t.notEmpty > 0 {
          t', s' :=
            t.(notEmpty := t.notEmpty - 1, consumer := Start), s.(notEmpty := s.notEmpty - 1, consumer := Start);
        }
      case Done => t', s' := t.(lock := t.lock + 1, consumer := Start), s.(lock := s.lock + 1, consumer := Start);
    }
    if s' != s {
      assert Consumes(s, s');
      ConsumeSafe(s, s');
    }
  }

  lemma RunStart<T(!new)>(s: State<T>)
    requires Init(s)
    ensures Run([s]) && Safe(s)
  {
    InitSafe(s);
  }

  lemma RunMore<T(!new)>(states: seq<State<T>>, s': State<T>)
    requires Run(states) && Step(states[|states| - 1], s')
    ensures Run(states + [s'])
  {
    var more := states + [s'];
    forall k | 0 <= k < |more| - 1 ensures Step(more[k], more[k + 1]) {
      if k < |states| - 1 { assert Step(states[k], states[k + 1]); }
    }
  }

  /** The ring and list under any schedule of any number of producers and the consumer: every move does what
      the protocol says, the states gone through are a run of it, and the queue holds what it says. */
  method Drive<T(!new)>(n: nat, blank: T, moves: seq<Move<T>>)
    returns (q: Queue<T>, t: Threads, ghost states: seq<State<T>>, ghost all: seq<State<T>>)
    ensures |states| > 0 && Run(states) && fresh(q) && q.Valid()
    ensures |all| == |moves| + 1 && Init(all[0]) && all[|moves|] == states[|states| - 1]
    ensures forall k :: 0 <= k < |moves| ==> all[k + 1] == AfterMove(all[k], moves[k])
    ensures Stands(t, q.Items(), states[|states| - 1]) && |t.producers| == n
    ensures t.consumer == Waiting && q.Items() != [] && t.lock == 1 ==> t.notEmpty > 0
    ensures states[|states| - 1].sent == states[|states| - 1].got + q.Items()
  {
    hide Step, Run, AfterMove;
    q := new Queue(blank);
    t := Threads(1, 0, seq(n, _ => Outside), Start, false);
    ghost var s := State(1, 0, [], t.producers, Start, [], []);
    states, all := [s], [s];
    RunStart(s);
    for k := 0 to |moves|
      invariant |states| > 0 && Run(states) && states[|states| - 1] == s && q.Valid() && Stands(t, q.Items(), s) &&
                |t.producers| == n
      invariant fresh(q) && fresh(q.ring) && fresh(q.spine)
      invariant |all| == k + 1 && Init(all[0]) && all[k] == s
      invariant forall j :: 0 <= j < k ==> all[j + 1] == AfterMove(all[j], moves[j])
    {
      ghost var s';
      if moves[k].Send? { t, s' := Produce(q, t, moves[k], s); } else { t, s' := Consume(q, t, moves[k], s); }
      all := all + [s'];
      if s' != s {
        RunMore(states, s');
        states := states + [s'];
        s := s';
      }
    }
    NothingLost(states, |states| - 1);
    NoLostWakeUp(states, |states| - 1);
  }
}
