/** The listener's 256 bounded packet queues, with a record of every arrival and every departure. */
module Queues {
  import opened Common

  const CAP: nat := 16

  type Kind = Byte

  /** Only non-empty packets are dispatched; the first byte says which queue they go to. */
  type Payload = p: Bytes | |p| > 0 witness [0]

  /** A packet with its place in the order of arrival. */
  datatype Packet = Packet(stamp: nat, payload: Payload)

  datatype Fate = Delivered | Dropped | Drained

  datatype Departure = Departure(packet: Packet, fate: Fate)

  type Table = t: seq<seq<Packet>> | |t| == 256 witness seq(256, _ => [])

  datatype Store = Store(queues: Table, arrivals: seq<Payload>, departed: seq<Departure>)

  function EmptyTable(n: nat := 256): (t: seq<seq<Packet>>)
    ensures |t| == n && forall i | 0 <= i < n :: t[i] == []
  {
    if n == 0 then [] else EmptyTable(n - 1) + [[]]
  }

  const EMPTY: Store := Store(EmptyTable(), [], [])

  // ---- what the critical sections do -----------------------------------------------

  /** A full queue gives up its oldest packet first. */
  function Enqueue(st: Store, p: Payload): Store {
    var q := st.queues[p[0]];
    var packet := Packet(|st.arrivals|, p);
    if |q| >= CAP then
      Store(st.queues[p[0] := q[1..] + [packet]], st.arrivals + [p], st.departed + [Departure(q[0], Dropped)])
    else
      Store(st.queues[p[0] := q + [packet]], st.arrivals + [p], st.departed)
  }

  function EnqueueAll(st: Store, batch: seq<Payload>): Store
    decreases |batch|
  {
    if batch == [] then st else EnqueueAll(Enqueue(st, batch[0]), batch[1..])
  }

  function Pop(st: Store, k: Kind, fate: Fate): Store
    requires st.queues[k] != []
  {
    st.(queues := st.queues[k := st.queues[k][1..]], departed := st.departed + [Departure(st.queues[k][0], fate)])
  }

  function DrainKind(st: Store, k: Kind): (r: Store)
    ensures r.queues == st.queues[k := []]
    decreases |st.queues[k]|
  {
    if st.queues[k] == [] then st else DrainKind(Pop(st, k, Drained), k)
  }

  function DrainFrom(st: Store, k: nat): (r: Store)
    requires k <= 256
    ensures forall i: Kind :: r.queues[i] == if i < k then st.queues[i] else []
    decreases 256 - k
  {
    if k == 256 then st else DrainFrom(DrainKind(st, k), k + 1)
  }

  datatype Checked = Taken(packet: Packet) | Stopped | Expired | Nothing

  /** One look of a waiter at its queue: a packet first, then the stop flag, then the deadline. */
  function Look(st: Store, k: Kind, stop: bool, expired: bool): Checked {
    if st.queues[k] != [] then Taken(st.queues[k][0])
    else if stop then Stopped
    else if expired then Expired
    else Nothing
  }

  // ---- accounting --------------------------------------------------------------------

  /** The arrivals of one kind, in order. */
  function Came(arrivals: seq<Payload>, k: Kind): seq<Packet> {
    if arrivals == [] then []
    else
      var last := |arrivals| - 1;
      Came(arrivals[..last], k) + if arrivals[last][0] == k then [Packet(last, arrivals[last])] else []
  }

  /** The departures of one kind, in order. */
  function Gone(departed: seq<Departure>, k: Kind): seq<Packet> {
    if departed == [] then []
    else
      var last := departed[|departed| - 1].packet;
      Gone(departed[..|departed| - 1], k) + if last.payload[0] == k then [last] else []
  }

  ghost predicate Ascending(packets: seq<Packet>) {
    forall i, j | 0 <= i < j < |packets| :: packets[i].stamp < packets[j].stamp
  }

  /** Every queue is bounded, and for every kind the departures followed by the queue are exactly the arrivals. */
  ghost predicate Valid(st: Store) {
    forall k: Kind :: Balanced(st, k)
  }

  ghost predicate Balanced(st: Store, k: Kind) {
    |st.queues[k]| <= CAP && Gone(st.departed, k) + st.queues[k] == Came(st.arrivals, k)
  }

  /** Only a full queue drops, its oldest packet, and the new packet is always queued last; no other queue changes. */
  lemma EnqueueExactly(st: Store, p: Payload, k: Kind)
    ensures var t, packet := Enqueue(st, p), Packet(|st.arrivals|, p);
            var q := st.queues[p[0]];
            && t.arrivals == st.arrivals + [p]
            && t.departed == st.departed + (if |q| < 16 then [] else [Departure(q[0], Dropped)])
            && t.queues[p[0]] == (if |q| < 16 then q else q[1..]) + [packet]
            && (k != p[0] ==> t.queues[k] == st.queues[k])
  {
  }

  lemma GoneLog(departed: seq<Departure>, d: Departure, k: Kind)
    ensures Gone(departed + [d], k) == Gone(departed, k) + if d.packet.payload[0] == k then [d.packet] else []
  {
    assert (departed + [d])[..|departed|] == departed;
  }

  lemma CameLog(arrivals: seq<Payload>, p: Payload, k: Kind)
    ensures Came(arrivals + [p], k) == Came(arrivals, k) + if p[0] == k then [Packet(|arrivals|, p)] else []
  {
    assert (arrivals + [p])[..|arrivals|] == arrivals;
  }

  lemma {:induction false} CameOwn(arrivals: seq<Payload>, k: Kind)
    ensures forall p | p in Came(arrivals, k) ::
              p.payload[0] == k && p.stamp < |arrivals| && p.payload == arrivals[p.stamp]
    ensures Ascending(Came(arrivals, k))
  {
    if arrivals != [] {
      CameOwn(arrivals[..|arrivals| - 1], k);
    }
  }

  /** Moving the head of the second piece to the end of the first changes nothing, even with more behind. */
  lemma HeadMoves<T>(a: seq<T>, q: seq<T>, more: seq<T>)
    requires q != []
    ensures a + q == (a + [q[0]]) + q[1..]
    ensures (a + q) + more == (a + [q[0]]) + (q[1..] + more)
  {
  }

  /** Both parts of an ascending sequence ascend, and the first stays below the second. */
  lemma AscendingParts(a: seq<Packet>, b: seq<Packet>)
    requires Ascending(a + b)
    ensures Ascending(a) && Ascending(b)
    ensures forall i, j | 0 <= i < |a| && 0 <= j < |b| :: a[i].stamp < b[j].stamp
  {
    var ab := a + b;
    assert forall i | 0 <= i < |a| :: ab[i] == a[i];
    assert forall j | 0 <= j < |b| :: ab[|a| + j] == b[j];
  }

  lemma Own(st: Store, k: Kind)
    requires Valid(st)
    ensures forall i | 0 <= i < |st.queues[k]| ::
              st.queues[k][i].payload[0] == k && st.queues[k][i].stamp < |st.arrivals|
    ensures Ascending(st.queues[k])
    ensures Ascending(Gone(st.departed, k))
  {
    assert Balanced(st, k);
    var q := st.queues[k];
    CameOwn(st.arrivals, k);
    AscendingParts(Gone(st.departed, k), q);
    forall i | 0 <= i < |q| ensures q[i].payload[0] == k && q[i].stamp < |st.arrivals| {
      assert q[i] in Gone(st.departed, k) + q;
    }
  }

  lemma EnqueueValid(st: Store, p: Payload)
    requires Valid(st)
    ensures Valid(Enqueue(st, p))
  {
    forall k: Kind ensures Balanced(Enqueue(st, p), k) {
      assert Balanced(st, k);
      CameLog(st.arrivals, p, k);
      if k == p[0] {
        EnqueueBalanced(st, p);
      } else if |st.queues[p[0]]| >= CAP {
        Own(st, p[0]);
        GoneLog(st.departed, Departure(st.queues[p[0]][0], Dropped), k);
      }
    }
  }

  lemma EnqueueBalanced(st: Store, p: Payload)
    requires Valid(st)
    ensures Balanced(Enqueue(st, p), p[0])
  {
    var q, gone := st.queues[p[0]], Gone(st.departed, p[0]);
    var packet := Packet(|st.arrivals|, p);
    assert Balanced(st, p[0]);
    CameLog(st.arrivals, p, p[0]);
    if |q| >= CAP {
      Own(st, p[0]);
      GoneLog(st.departed, Departure(q[0], Dropped), p[0]);
      HeadMoves(gone, q, [packet]);
    } else {
      assert gone + q + [packet] == gone + (q + [packet]);
    }
  }

  lemma {:induction false} EnqueueAllValid(st: Store, batch: seq<Payload>)
    requires Valid(st)
    ensures Valid(EnqueueAll(st, batch)) && EnqueueAll(st, batch).arrivals == st.arrivals + batch
    decreases |batch|
  {
    if batch != [] {
      EnqueueValid(st, batch[0]);
      EnqueueAllValid(Enqueue(st, batch[0]), batch[1..]);
      assert batch == [batch[0]] + batch[1..];
    }
  }

  lemma PopValid(st: Store, k: Kind, fate: Fate)
    requires Valid(st) && st.queues[k] != []
    ensures Valid(Pop(st, k, fate))
  {
    Own(st, k);
    var q := st.queues[k];
    forall i: Kind ensures Balanced(Pop(st, k, fate), i) {
      assert Balanced(st, i);
      GoneLog(st.departed, Departure(q[0], fate), i);
      if i == k {
        HeadMoves(Gone(st.departed, k), q, []);
      }
    }
  }

  lemma {:induction false} DrainKindValid(st: Store, k: Kind)
    requires Valid(st)
    ensures Valid(DrainKind(st, k)) && DrainKind(st, k).arrivals == st.arrivals
    decreases |st.queues[k]|
  {
    if st.queues[k] != [] {
      PopValid(st, k, Drained);
      DrainKindValid(Pop(st, k, Drained), k);
    }
  }

  lemma {:induction false} DrainFromValid(st: Store, k: nat)
    requires Valid(st) && k <= 256
    ensures Valid(DrainFrom(st, k)) && DrainFrom(st, k).arrivals == st.arrivals
    decreases 256 - k
  {
    if k < 256 {
      DrainKindValid(st, k);
      DrainFromValid(DrainKind(st, k), k + 1);
    }
  }

  // ---- what the accounting means -------------------------------------------------------

  function CountGone(departed: seq<Departure>, k: Kind, fate: Fate): nat {
    if departed == [] then 0
    else
      var last := departed[|departed| - 1];
      CountGone(departed[..|departed| - 1], k, fate) + if last.packet.payload[0] == k && last.fate == fate then 1 else 0
  }

  lemma {:induction false} GoneCounts(departed: seq<Departure>, k: Kind)
    ensures |Gone(departed, k)|
            == CountGone(departed, k, Delivered) + CountGone(departed, k, Dropped) + CountGone(departed, k, Drained)
  {
    if departed != [] {
      GoneCounts(departed[..|departed| - 1], k);
    }
  }

  /** Departures of one kind happen in order of arrival. */
  ghost predicate InOrder(departed: seq<Departure>) {
    forall i, j | 0 <= i < j < |departed| && departed[i].packet.payload[0] == departed[j].packet.payload[0] ::
      departed[i].packet.stamp < departed[j].packet.stamp
  }

  lemma {:induction false} GoneHas(departed: seq<Departure>, i: nat)
    requires i < |departed|
    ensures departed[i].packet in Gone(departed, departed[i].packet.payload[0])
  {
    if i < |departed| - 1 {
      GoneHas(departed[..|departed| - 1], i);
    }
  }

  lemma {:induction false} GoneInOrder(departed: seq<Departure>)
    requires forall k: Kind :: Ascending(Gone(departed, k))
    ensures InOrder(departed)
  {
    if departed != [] {
      var before, n := departed[..|departed| - 1], |departed| - 1;
      forall k: Kind ensures Ascending(Gone(before, k)) {
        assert Ascending(Gone(departed, k));
        assert Gone(before, k) <= Gone(departed, k);
      }
      GoneInOrder(before);
      forall i | 0 <= i < n && before[i].packet.payload[0] == departed[n].packet.payload[0]
        ensures before[i].packet.stamp < departed[n].packet.stamp
      {
        var k := departed[n].packet.payload[0];
        GoneHas(before, i);
        var g :| 0 <= g < |Gone(before, k)| && Gone(before, k)[g] == before[i].packet;
        assert Ascending(Gone(departed, k));
        assert Gone(departed, k)[g] == before[i].packet && Gone(departed, k)[|Gone(before, k)|] == departed[n].packet;
      }
    }
  }

  /**
    Conservation and order, for every kind: arrivals are delivered, dropped, drained or still queued; nothing
    leaves twice or out of order; a queue holds at most 16 packets of its own kind in order of arrival.
   */
  lemma Conservation(st: Store, k: Kind)
    requires Valid(st)
    ensures |Came(st.arrivals, k)|
            == CountGone(st.departed, k, Delivered) + CountGone(st.departed, k, Dropped)
             + CountGone(st.departed, k, Drained) + |st.queues[k]|
    ensures InOrder(st.departed)
    ensures |st.queues[k]| <= CAP && Ascending(st.queues[k])
    ensures forall i | 0 <= i < |st.queues[k]| :: st.queues[k][i].payload[0] == k
    ensures forall d, i | d in st.departed && d.packet.payload[0] == k && 0 <= i < |st.queues[k]| ::
              d.packet.stamp < st.queues[k][i].stamp
  {
    assert Balanced(st, k);
    GoneCounts(st.departed, k);
    Own(st, k);
    forall i: Kind ensures Ascending(Gone(st.departed, i)) {
      Own(st, i);
    }
    GoneInOrder(st.departed);
    forall d, i | d in st.departed && d.packet.payload[0] == k && 0 <= i < |st.queues[k]|
      ensures d.packet.stamp < st.queues[k][i].stamp
    {
      LeftEarlier(st, k, d, i);
    }
  }

  lemma LeftEarlier(st: Store, k: Kind, d: Departure, i: nat)
    requires Valid(st) && d in st.departed && d.packet.payload[0] == k && i < |st.queues[k]|
    ensures d.packet.stamp < st.queues[k][i].stamp
  {
    var gone := Gone(st.departed, k);
    var n :| 0 <= n < |st.departed| && st.departed[n] == d;
    GoneHas(st.departed, n);
    var g :| 0 <= g < |gone| && gone[g] == d.packet;
    CameOwn(st.arrivals, k);
    assert Balanced(st, k);
    AscendingParts(gone, st.queues[k]);
  }
}
