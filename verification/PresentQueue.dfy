/**
 The ring that pairs each swap packet with the presenter state of its frame (src/ultrawide/nb_ultrawide.cpp):
 the guest pushes one word for each packet it emits, the command processor takes one for each packet it meets,
 and packets that never arrive are noticed by the frontbuffer tag.
 */
module PresentQueue {

  const CAPACITY: nat := 16

  datatype Entry = Entry(frontbuffer: nat, word: nat)

  /** The queue as a list, oldest first, with the words remembered beside it. */
  datatype Queue = Queue(entries: seq<Entry>, lastPushed: nat, last: nat, taken: bool, present: nat) {
    /** A full queue loses its oldest entry. */
    function Push(frontbuffer: nat, w: nat): Queue {
      this.(entries := (if |entries| >= CAPACITY then entries[1..] else entries) + [Entry(frontbuffer, w)], lastPushed := w)
    }

    /** The entry a packet with this tag takes: the first with the tag, or the oldest. */
    function Pick(frontbuffer: nat): nat {
      var i := FirstTagged(entries, frontbuffer);
      if i < |entries| then i else 0
    }

    function Taken(frontbuffer: nat): nat {
      if entries != [] then entries[Pick(frontbuffer)].word else if taken then last else present
    }

    function Take(frontbuffer: nat): Queue {
      if entries == [] then this
      else this.(entries := entries[Pick(frontbuffer) + 1..], last := entries[Pick(frontbuffer)].word, taken := true)
    }
  }

  /** The first entry with a tag, or the length when there is none. */
  function FirstTagged(entries: seq<Entry>, frontbuffer: nat): (i: nat)
    ensures i <= |entries| && (i < |entries| ==> entries[i].frontbuffer == frontbuffer)
    ensures forall k | 0 <= k < i :: entries[k].frontbuffer != frontbuffer
  {
    if entries == [] then 0 else if entries[0].frontbuffer == frontbuffer then 0 else 1 + FirstTagged(entries[1..], frontbuffer)
  }

  // ----- the ring -----

  function Slot(head: nat, i: nat): (r: nat)
    ensures r < CAPACITY
  {
    (head + i) % CAPACITY
  }

  class PresentRing {
    const queue: array<Entry>
    var head: nat
    var count: nat
    var lastPushed: nat
    var last: nat
    var taken: bool
    var present: nat

    ghost predicate Valid()
      reads this
    {
      queue.Length == CAPACITY && head < CAPACITY && count <= CAPACITY
    }

    ghost function Entries(): (r: seq<Entry>)
      requires Valid()
      reads this, queue
      ensures |r| == count
    {
      seq(count, i requires 0 <= i < count && Valid() reads this, queue => queue[Slot(head, i)])
    }

    ghost function Now(): Queue
      requires Valid()
      reads this, queue
    {
      Queue(Entries(), lastPushed, last, taken, present)
    }

    constructor (latched: nat)
      ensures Valid() && Now() == Queue([], 0, 0, false, latched)
    {
      queue := new Entry[CAPACITY](_ => Entry(0, 0));
      head, count, lastPushed, last, taken, present := 0, 0, 0, 0, false, latched;
    }

    method PushPresent(frontbuffer: nat, w: nat)
      requires Valid()
      modifies this, queue
      ensures Valid() && Now() == old(Now()).Push(frontbuffer, w)
    {
      if count == CAPACITY {
        head := (head + 1) % CAPACITY;
        count := count - 1;
      }
      ghost var kept := Entries();
      assert kept == if old(count) == CAPACITY then old(Entries())[1..] else old(Entries());
      SlotsDiffer(head, count);
      queue[Slot(head, count)] := Entry(frontbuffer, w);
      count := count + 1;
      lastPushed := w;
      assert Entries() == kept + [Entry(frontbuffer, w)];
    }

    /** The guest enters its swap; `emits` is whether it will issue a packet. */
    method OnGuestSwapEnter(emits: bool, frontbuffer: nat)
      requires Valid()
      modifies this, queue
      ensures Valid() && Now() == if emits then old(Now()).Push(frontbuffer, old(present)) else old(Now())
    {
      if emits {
        PushPresent(frontbuffer, present);
      }
    }

    /** The guest presents the same frame again. */
    method OnGuestRepresent(emits: bool, frontbuffer: nat)
      requires Valid()
      modifies this, queue
      ensures Valid() && Now() == if emits then old(Now()).Push(frontbuffer, old(lastPushed)) else old(Now())
    {
      if emits {
        PushPresent(frontbuffer, lastPushed);
      }
    }

    method TakePresent(frontbuffer: nat) returns (w: nat)
      requires Valid()
      modifies this
      ensures Valid() && w == old(Now()).Taken(frontbuffer) && Now() == old(Now()).Take(frontbuffer)
    {
      if count == 0 {
        w := if taken then last else present;
        return;
      }
      var dropped := FindTag(frontbuffer);
      head := Slot(head, dropped);
      count := count - dropped;
      w := queue[head].word;
      PopFront(dropped, old(head), old(Entries()));
      last, taken := w, true;
    }

    method PopFront(ghost dropped: nat, ghost start: nat, ghost before: seq<Entry>)
      requires queue.Length == CAPACITY && start < CAPACITY && head == Slot(start, dropped) && count > 0
      requires |before| == dropped + count <= CAPACITY
      requires forall i: nat | i < |before| :: before[i] == queue[Slot(start, i)]
      modifies `head, `count
      ensures Valid() && Entries() == before[dropped + 1..]
    {
      hide Slot;
      head := Slot(head, 1);
      count := count - 1;
      forall i: nat | i < count ensures Slot(head, i) == Slot(start, dropped + 1 + i) {
        SlotAfter(start, dropped, i);
      }
    }

    /** How many entries to drop: those before the first with the tag, or none. */
    method FindTag(frontbuffer: nat) returns (dropped: nat)
      requires Valid() && count > 0
      ensures dropped == Now().Pick(frontbuffer) < count
      ensures Entries()[dropped] == queue[Slot(head, dropped)]
    {
      var i := 0;
      while i < count
        invariant i <= count && forall k | 0 <= k < i :: Entries()[k].frontbuffer != frontbuffer
      {
        if queue[Slot(head, i)].frontbuffer == frontbuffer {
          FirstIs(Entries(), frontbuffer, i);
          return i;
        }
        i := i + 1;
      }
      return 0;
    }
  }

  lemma FirstIs(entries: seq<Entry>, frontbuffer: nat, i: nat)
    requires i < |entries| && entries[i].frontbuffer == frontbuffer
    requires forall k | 0 <= k < i :: entries[k].frontbuffer != frontbuffer
    ensures FirstTagged(entries, frontbuffer) == i
  {}

  lemma SlotsDiffer(head: nat, count: nat)
    requires head < CAPACITY && count < CAPACITY
    ensures forall i: nat | i < count :: Slot(head, i) != Slot(head, count)
  {}

  lemma SlotTwice(head: nat, a: nat, b: nat)
    ensures Slot(Slot(head, a), b) == Slot(head, a + b)
  {}

  lemma SlotAfter(head: nat, dropped: nat, i: nat)
    ensures Slot(Slot(Slot(head, dropped), 1), i) == Slot(head, dropped + 1 + i)
  {
    hide Slot;
    SlotTwice(head, dropped, 1);
    SlotTwice(head, dropped + 1, i);
  }

  // ----- runs of the two sides -----

  /** The guest pushes an entry, or the packet of push `k` reaches the command processor. */
  datatype Event = Pushing(entry: Entry) | Arriving(k: nat)

  /** The run so far: the queue, all pushes, the packet that arrived last (or -1), and the oldest entry's push. */
  datatype Run = Run(q: Queue, pushed: seq<Entry>, arrived: int, oldest: nat)

  function Start(latched: nat): Run {
    Run(Queue([], 0, 0, false, latched), [], -1, 0)
  }

  /** Packets arrive in order, and only after their push; some may never arrive. */
  predicate Can(r: Run, e: Event) {
    e.Arriving? ==> r.arrived < e.k < |r.pushed|
  }

  /** The push whose entry the packet of push `k` takes; past the end when the queue is empty. */
  function TakenPush(r: Run, k: nat): nat
    requires k < |r.pushed|
  {
    if r.q.entries == [] then |r.pushed| else r.oldest + r.q.Pick(r.pushed[k].frontbuffer)
  }

  function Step(r: Run, e: Event): Run
    requires Can(r, e)
  {
    match e
    case Pushing(entry) =>
      Run(r.q.Push(entry.frontbuffer, entry.word), r.pushed + [entry], r.arrived,
          if |r.q.entries| >= CAPACITY then r.oldest + 1 else r.oldest)
    case Arriving(k) =>
      Run(r.q.Take(r.pushed[k].frontbuffer), r.pushed, k, if r.q.entries == [] then r.oldest else TakenPush(r, k) + 1)
  }

  ghost predicate Tracks(r: Run) {
    r.oldest <= |r.pushed| && r.q.entries == r.pushed[r.oldest..] && |r.q.entries| <= CAPACITY
  }

  lemma PushTracks(r: Run, entry: Entry)
    requires Tracks(r)
    ensures Tracks(Step(r, Pushing(entry)))
  {
    assert Entry(entry.frontbuffer, entry.word) == entry;
  }

  lemma ArriveTracks(r: Run, k: nat)
    requires Tracks(r) && Can(r, Arriving(k))
    ensures Tracks(Step(r, Arriving(k)))
  {}

  /** No push from `oldest` on and before push `k` carries its tag. */
  predicate FirstOfItsTag(pushed: seq<Entry>, oldest: int, k: nat)
    requires k < |pushed|
  {
    forall j: nat | oldest <= j < k :: pushed[j].frontbuffer != pushed[k].frontbuffer
  }

  /** A packet takes its own entry exactly when that is still queued and is the first queued one with its tag. */
  lemma TakesOwnIff(r: Run, k: nat)
    requires Tracks(r) && Can(r, Arriving(k))
    ensures TakenPush(r, k) == k <==> r.oldest <= k && FirstOfItsTag(r.pushed, r.oldest, k)
    ensures TakenPush(r, k) == k ==> r.q.entries != [] && r.q.Taken(r.pushed[k].frontbuffer) == r.pushed[k].word
  {
    var tag := r.pushed[k].frontbuffer;
    if r.oldest <= k {
      assert r.q.entries[k - r.oldest] == r.pushed[k];
      var i := FirstTagged(r.q.entries, tag);
      assert i <= k - r.oldest && r.q.entries[i] == r.pushed[r.oldest + i];
      if FirstOfItsTag(r.pushed, r.oldest, k) {
        assert i == k - r.oldest;
      } else {
        var j: nat :| r.oldest <= j < k && r.pushed[j].frontbuffer == tag;
        assert r.q.entries[j - r.oldest] == r.pushed[j];
      }
    }
  }

  /**
   A frame presented again is pushed again with the same tag and the same word. However many of a frame's packets are
   lost, a packet of it that finds the frame's first push still queued, with no older entry of the tag, gets its word.
   */
  lemma RepresentedWord(r: Run, first: nat, k: nat)
    requires Tracks(r) && Can(r, Arriving(k)) && r.oldest <= first <= k
    requires FirstOfItsTag(r.pushed, r.oldest, first) && forall j | first <= j <= k :: r.pushed[j] == r.pushed[k]
    ensures TakenPush(r, k) == first && r.q.Taken(r.pushed[k].frontbuffer) == r.pushed[k].word
  {
    assert r.q.entries[first - r.oldest] == r.pushed[first] == r.pushed[k];
    assert forall j | 0 <= j < |r.q.entries| :: r.q.entries[j] == r.pushed[r.oldest + j];
    FirstIs(r.q.entries, r.pushed[k].frontbuffer, first - r.oldest);
  }

  // ----- whole runs -----

  ghost predicate Legal(r: Run, events: seq<Event>)
    decreases |events|
  {
    events == [] || (Can(r, events[0]) && Legal(Step(r, events[0]), events[1..]))
  }

  function After(r: Run, events: seq<Event>): Run
    requires Legal(r, events)
    decreases |events|
  {
    if events == [] then r else After(Step(r, events[0]), events[1..])
  }

  /** The queue remembers the word pushed last. */
  ghost predicate Remembers(r: Run) {
    r.pushed != [] ==> r.q.lastPushed == r.pushed[|r.pushed| - 1].word
  }

  lemma {:induction false} RunRemembers(r: Run, events: seq<Event>)
    requires Remembers(r) && Legal(r, events)
    ensures Remembers(After(r, events))
    decreases |events|
  {
    if events != [] {
      RunRemembers(Step(r, events[0]), events[1..]);
    }
  }

  /** What presenting a frame again pushes: the word remembered. */
  function Again(r: Run, frontbuffer: nat): Event {
    Pushing(Entry(frontbuffer, r.q.lastPushed))
  }

  /**
   Presenting the last frame again, any number of times and whatever packets arrive in between, pushes its very entry
   again, so all pushes of the frame are equal.
   */
  lemma {:induction false} AgainIsTheSame(latched: nat, events: seq<Event>, entry: Entry, later: seq<Event>)
    requires Legal(Start(latched), events) && Can(After(Start(latched), events), Pushing(entry))
    requires var r := Step(After(Start(latched), events), Pushing(entry)); Legal(r, later) && OnlyAgain(r, entry.frontbuffer, later)
    ensures var r := Step(After(Start(latched), events), Pushing(entry));
            var end := After(r, later);
            && |end.pushed| >= |r.pushed| && end.q.lastPushed == entry.word
            && forall j | |r.pushed| - 1 <= j < |end.pushed| :: end.pushed[j] == entry
  {
    var r := Step(After(Start(latched), events), Pushing(entry));
    PushesSame(r, entry, |r.pushed| - 1, later);
  }

  /** Every push of the events presents the frame with this tag again. */
  ghost predicate OnlyAgain(r: Run, frontbuffer: nat, events: seq<Event>)
    requires Legal(r, events)
    decreases |events|
  {
    events == []
    || ((events[0].Pushing? ==> events[0] == Again(r, frontbuffer)) && OnlyAgain(Step(r, events[0]), frontbuffer, events[1..]))
  }

  lemma {:induction false} PushesSame(r: Run, entry: Entry, first: nat, events: seq<Event>)
    requires Legal(r, events) && OnlyAgain(r, entry.frontbuffer, events) && r.q.lastPushed == entry.word
    requires first < |r.pushed| && forall j | first <= j < |r.pushed| :: r.pushed[j] == entry
    ensures var end := After(r, events);
            && |end.pushed| >= |r.pushed| && end.q.lastPushed == entry.word
            && forall j | first <= j < |end.pushed| :: end.pushed[j] == entry
    decreases |events|
  {
    if events != [] {
      PushesSame(Step(r, events[0]), entry, first, events[1..]);
    }
  }

  /** Every packet of the run takes the entry pushed for it. */
  ghost predicate AllOwn(r: Run, events: seq<Event>)
    requires Legal(r, events)
    decreases |events|
  {
    events == [] ||
    ((events[0].Arriving? ==> TakenPush(r, events[0].k) == events[0].k) && AllOwn(Step(r, events[0]), events[1..]))
  }

  /** Where the queue begins while every packet took its own entry: right after the last one, or 16 pushes back. */
  function Oldest(pushed: nat, arrived: int): int {
    if pushed > arrived + 1 + CAPACITY then pushed - CAPACITY else arrived + 1
  }

  /**
   What the two sides can tell from their own events: at most 16 pushes are ahead of a packet that arrives, and none
   of the pushes since the last packet, as far as they are still queued, carries its tag.
   */
  ghost predicate InStep(pushed: seq<Entry>, arrived: int, events: seq<Event>)
    decreases |events|
  {
    events == [] ||
    (match events[0]
     case Pushing(entry) => InStep(pushed + [entry], arrived, events[1..])
     case Arriving(k) =>
       k < |pushed| <= k + CAPACITY && FirstOfItsTag(pushed, Oldest(|pushed|, arrived), k) && InStep(pushed, k, events[1..]))
  }

  ghost predicate Synchronised(r: Run) {
    Tracks(r) && -1 <= r.arrived < |r.pushed| && r.oldest == Oldest(|r.pushed|, r.arrived)
  }

  /** Over a whole run, whatever the tags, every packet takes its own entry exactly when the two sides stay in step. */
  lemma {:induction false} AllOwnIffInStep(r: Run, events: seq<Event>)
    requires Synchronised(r) && Legal(r, events)
    ensures AllOwn(r, events) <==> InStep(r.pushed, r.arrived, events)
    decreases |events|
  {
    if events != [] {
      var e := events[0];
      match e {
        case Pushing(entry) =>
          PushTracks(r, entry);
          AllOwnIffInStep(Step(r, e), events[1..]);
        case Arriving(k) =>
          TakesOwnIff(r, k);
          ArriveTracks(r, k);
          if TakenPush(r, k) == k {
            AllOwnIffInStep(Step(r, e), events[1..]);
          }
      }
    }
  }

  // ----- two alternating frontbuffers -----

  function Tag(even: nat, odd: nat, k: nat): nat { if k % 2 == 0 then even else odd }

  /** Push `k` carries one tag when `k` is even and the other when it is odd. */
  predicate Alternates(even: nat, odd: nat, pushed: seq<Entry>) {
    even != odd && forall k | 0 <= k < |pushed| :: pushed[k].frontbuffer == Tag(even, odd, k)
  }

  function Pushes(events: seq<Event>): seq<Entry> {
    if events == [] then []
    else (if events[0].Pushing? then [events[0].entry] else []) + Pushes(events[1..])
  }

  /**
   With two alternating tags staying in step is a matter of counting: at most one packet lost since the one before,
   unless dropping the oldest entries made up for the others.
   */
  ghost predicate Counted(pushed: nat, arrived: int, events: seq<Event>)
    decreases |events|
  {
    events == [] ||
    (match events[0]
     case Pushing(_) => Counted(pushed + 1, arrived, events[1..])
     case Arriving(k) =>
       k < pushed <= k + CAPACITY && (k <= arrived + 2 || pushed >= k + CAPACITY - 1) && Counted(pushed, k, events[1..]))
  }

  lemma AlternatingFirst(even: nat, odd: nat, pushed: seq<Entry>, oldest: int, k: nat)
    requires Alternates(even, odd, pushed) && k < |pushed| && 0 <= oldest
    ensures FirstOfItsTag(pushed, oldest, k) <==> k <= oldest + 1
  {
    if k > oldest + 1 {
      assert pushed[k - 2].frontbuffer == pushed[k].frontbuffer;
    }
  }

  lemma {:induction false} InStepIffCounted(even: nat, odd: nat, pushed: seq<Entry>, arrived: int, events: seq<Event>)
    requires Alternates(even, odd, pushed + Pushes(events)) && -1 <= arrived
    ensures InStep(pushed, arrived, events) <==> Counted(|pushed|, arrived, events)
    decreases |events|
  {
    if events != [] {
      match events[0] {
        case Pushing(entry) =>
          assert pushed + Pushes(events) == (pushed + [entry]) + Pushes(events[1..]);
          InStepIffCounted(even, odd, pushed + [entry], arrived, events[1..]);
        case Arriving(k) =>
          assert [] + Pushes(events[1..]) == Pushes(events[1..]);
          assert forall i | 0 <= i < |pushed| :: pushed[i] == (pushed + Pushes(events))[i];
          if k < |pushed| {
            AlternatingFirst(even, odd, pushed, Oldest(|pushed|, arrived), k);
            InStepIffCounted(even, odd, pushed, k, events[1..]);
          }
      }
    }
  }

  /** With two alternating tags every packet takes its own entry exactly when the counts stay in step. */
  lemma AlternatingIffCounted(latched: nat, even: nat, odd: nat, events: seq<Event>)
    requires Alternates(even, odd, Pushes(events)) && Legal(Start(latched), events)
    ensures AllOwn(Start(latched), events) <==> Counted(0, -1, events)
  {
    assert [] + Pushes(events) == Pushes(events);
    AllOwnIffInStep(Start(latched), events);
    InStepIffCounted(even, odd, [], -1, events);
  }

  /** With no two packets in a row lost and at most 16 pushes outstanding, every packet gets its own word. */
  lemma NoTwoLost(latched: nat, even: nat, odd: nat, events: seq<Event>)
    requires Alternates(even, odd, Pushes(events)) && Legal(Start(latched), events) && Gentle(0, -1, events)
    ensures AllOwn(Start(latched), events)
  {
    GentleIsCounted(Start(latched), events);
    AlternatingIffCounted(latched, even, odd, events);
  }

  ghost predicate Gentle(pushed: nat, arrived: int, events: seq<Event>)
    decreases |events|
  {
    events == [] ||
    (match events[0]
     case Pushing(_) => Gentle(pushed + 1, arrived, events[1..])
     case Arriving(k) => pushed <= k + CAPACITY && k <= arrived + 2 && Gentle(pushed, k, events[1..]))
  }

  lemma {:induction false} GentleIsCounted(r: Run, events: seq<Event>)
    requires Legal(r, events) && Gentle(|r.pushed|, r.arrived, events)
    ensures Counted(|r.pushed|, r.arrived, events)
    decreases |events|
  {
    if events != [] {
      GentleIsCounted(Step(r, events[0]), events[1..]);
    }
  }

  /** Nothing lost and at most 16 outstanding: every packet gets its own word, whatever the tags. */
  ghost predicate Lossless(pushed: nat, arrived: int, events: seq<Event>)
    decreases |events|
  {
    events == [] ||
    (match events[0]
     case Pushing(_) => Lossless(pushed + 1, arrived, events[1..])
     case Arriving(k) => pushed <= k + CAPACITY && k == arrived + 1 && Lossless(pushed, k, events[1..]))
  }

  lemma {:induction false} NothingLost(r: Run, events: seq<Event>)
    requires Synchronised(r) && Legal(r, events) && Lossless(|r.pushed|, r.arrived, events)
    ensures AllOwn(r, events)
    decreases |events|
  {
    if events != [] {
      match events[0] {
        case Pushing(entry) => PushTracks(r, entry);
        case Arriving(k) =>
          TakesOwnIff(r, k);
          ArriveTracks(r, k);
      }
      NothingLost(Step(r, events[0]), events[1..]);
    }
  }

  // ----- two packets lost in a row -----

  function TwoLost(a: nat, b: nat, c: nat): seq<Event> {
    [Pushing(Entry(1, a)), Pushing(Entry(2, b)), Pushing(Entry(1, c)), Arriving(2)]
  }

  /** Of three pushes only the last one's packet arrives: it takes the first push's word, and nothing is noticed. */
  lemma TwoLostTakesWrong(latched: nat, a: nat, b: nat, c: nat)
    ensures Alternates(1, 2, Pushes(TwoLost(a, b, c))) && Legal(Start(latched), TwoLost(a, b, c))
    ensures !AllOwn(Start(latched), TwoLost(a, b, c))
    ensures var r := Step(Step(Step(Start(latched), Pushing(Entry(1, a))), Pushing(Entry(2, b))), Pushing(Entry(1, c)));
            TakenPush(r, 2) == 0 && r.q.Taken(1) == a && r.pushed[2].word == c
  {
    var e0, e1, e2 := Entry(1, a), Entry(2, b), Entry(1, c);
    var r1 := Step(Start(latched), Pushing(e0));
    var r2 := Step(r1, Pushing(e1));
    var r3 := Step(r2, Pushing(e2));
    assert r3.q.entries == [e0, e1, e2] == r3.pushed;
    FirstIs(r3.q.entries, 1, 0);
    assert TakenPush(r3, 2) == 0;
    LastEvent(r3, Arriving(2));
    OneEvent(r2, Pushing(e2), [Arriving(2)]);
    OneEvent(r1, Pushing(e1), [Pushing(e2)] + [Arriving(2)]);
    OneEvent(Start(latched), Pushing(e0), [Pushing(e1)] + ([Pushing(e2)] + [Arriving(2)]));
    assert TwoLost(a, b, c) == [Pushing(e0)] + ([Pushing(e1)] + ([Pushing(e2)] + [Arriving(2)]));
    assert Pushes(TwoLost(a, b, c)) == [e0] + ([e1] + ([e2] + []));
  }

  lemma LastEvent(r: Run, e: Event)
    requires Can(r, e)
    ensures Legal(r, [e]) && (AllOwn(r, [e]) <==> e.Arriving? ==> TakenPush(r, e.k) == e.k)
    ensures Pushes([e]) == if e.Pushing? then [e.entry] else []
  {
    assert [e][1..] == [];
  }

  lemma OneEvent(r: Run, e: Event, events: seq<Event>)
    requires Can(r, e) && Legal(Step(r, e), events)
    ensures Legal(r, [e] + events)
    ensures AllOwn(r, [e] + events) <==> (e.Arriving? ==> TakenPush(r, e.k) == e.k) && AllOwn(Step(r, e), events)
    ensures Pushes([e] + events) == (if e.Pushing? then [e.entry] else []) + Pushes(events)
  {
    assert ([e] + events)[1..] == events;
  }
}
