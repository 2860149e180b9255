/**
 The bounded page shadow of the last uploads queued to shared memory (src/gpu/native/native_upload_shadow.cpp): page
 identities in a ring of slots behind an epoch token.
 */
module UploadShadow {

  import opened Arithmetic

  type Bytes = seq<bv8>

  const PHYSICAL_BYTES: nat := 0x2000_0000
  const SNAPSHOT_BYTES: nat := 0x1_0000
  const ABSENT: nat := 0xFFFF_FFFF
  const EPOCH_MAX: nat := 0xFFFF_FFFF_FFFF_FFFF

  // ----- publication tokens -----

  /** The epoch and whether the shadow is usable; a token is an epoch read earlier. */
  datatype Gate = Gate(epoch: nat, enabled: bool) {
    predicate Admits(token: nat) { enabled && token == epoch }

    /** Advancing past the last epoch disables the shadow instead of wrapping. */
    function Advance(): Gate {
      if epoch == EPOCH_MAX then Gate(epoch, false) else Gate(epoch + 1, enabled)
    }

    /** What initialization leaves: usable only with storage and an epoch left to advance to. */
    function Reopen(storage: bool): Gate {
      Gate(Advance().epoch, storage && epoch != EPOCH_MAX)
    }
  }

  datatype GateOp = Advancing | Reopening(storage: bool)

  function GateStep(g: Gate, op: GateOp): Gate {
    if op.Advancing? then g.Advance() else g.Reopen(op.storage)
  }

  function GateRun(g: Gate, ops: seq<GateOp>): Gate
    decreases |ops|
  {
    if ops == [] then g else GateRun(GateStep(g, ops[0]), ops[1..])
  }

  /** A token read before an invalidation, reset or initialization is never admitted again, whatever follows. */
  lemma {:induction false} TokensRetire(g: Gate, token: nat, ops: seq<GateOp>)
    requires g.epoch <= EPOCH_MAX && token <= g.epoch && ops != []
    ensures !GateRun(g, ops).Admits(token)
  {
    RetiredStays(GateStep(g, ops[0]), token, ops[1..]);
  }

  lemma {:induction false} RetiredStays(g: Gate, token: nat, ops: seq<GateOp>)
    requires g.epoch <= EPOCH_MAX && (token < g.epoch || (g.epoch == EPOCH_MAX && !g.enabled))
    ensures !GateRun(g, ops).Admits(token)
    decreases |ops|
  {
    if ops != [] {
      RetiredStays(GateStep(g, ops[0]), token, ops[1..]);
    }
  }

  // ----- page identities -----

  datatype Slot = Slot(page: nat, valid: bool)

  /** The vectors of the shadow; `bytes` has one entry for each slot's region. */
  datatype Store = Store(pageToSlot: seq<nat>, slots: seq<Slot>, bytes: seq<Bytes>, next: nat) {
    ghost predicate Valid() {
      && 0 < |slots| == |bytes| < ABSENT && next < |slots| && |pageToSlot| < ABSENT
      && (forall p | 0 <= p < |pageToSlot| && pageToSlot[p] != ABSENT ::
            pageToSlot[p] < |slots| && slots[pageToSlot[p]].page == p)
      && (forall s | 0 <= s < |slots| && slots[s].page != ABSENT ::
            slots[s].page < |pageToSlot| && pageToSlot[slots[s].page] == s)
      && (forall s | 0 <= s < |slots| && slots[s].valid :: slots[s].page != ABSENT)
    }

    ghost predicate Knows(p: nat)
      requires Valid()
    {
      p < |pageToSlot| && pageToSlot[p] != ABSENT && slots[pageToSlot[p]].valid
    }

    /** What the shadow claims of GPU memory: the known pages and their bytes. */
    ghost function Identity(): map<nat, Bytes>
      requires Valid()
    {
      map p: nat | 0 <= p < |pageToSlot| && Knows(p) :: bytes[pageToSlot[p]]
    }

    lemma KnownInside(p: nat)
      requires Valid() && p in Identity()
      ensures p < |pageToSlot|
    {}

    /** The pages holding a slot, oldest first; free slots show as ABSENT. */
    ghost function Ring(): seq<nat>
      requires Valid()
    {
      Pages(slots[next..]) + Pages(slots[..next])
    }

    /** The slot at the hand of the ring given to a page that has none. */
    function Claim(page: nat): Store
      requires Valid() && page < |pageToSlot| && pageToSlot[page] == ABSENT
    {
      var previous := slots[next].page;
      var cleared := if previous != ABSENT && pageToSlot[previous] == next then pageToSlot[previous := ABSENT]
                     else pageToSlot;
      this.(pageToSlot := cleared[page := next], slots := slots[next := slots[next].(page := page)],
            next := if next + 1 == |slots| then 0 else next + 1)
    }

    function Write(page: nat, data: Bytes): Store
      requires Valid() && page < |pageToSlot| && pageToSlot[page] != ABSENT
    {
      this.(slots := slots[pageToSlot[page] := Slot(page, true)], bytes := bytes[pageToSlot[page] := data])
    }

    lemma WriteIdentity(page: nat, data: Bytes)
      requires Valid() && page < |pageToSlot| && pageToSlot[page] != ABSENT
      ensures Write(page, data).Valid()
      ensures Write(page, data).Identity() == Identity()[page := data]
      ensures Write(page, data).Ring() == Ring()
    {
      var after := Write(page, data);
      assert after.Valid();
      forall p | 0 <= p < |pageToSlot| && p != page ensures after.Knows(p) == Knows(p) {
        assert pageToSlot[p] != ABSENT ==> pageToSlot[p] != pageToSlot[page];
      }
    }

    /** The slot at the hand of the ring holds the oldest page. */
    lemma OldestFirst()
      requires Valid()
      ensures Ring() != [] && Ring()[0] == slots[next].page
    {}

    /** Claiming drops the oldest holder, appends the page, and forgets nothing else. */
    lemma ClaimIdentity(page: nat)
      requires Valid() && page < |pageToSlot| && pageToSlot[page] == ABSENT
      ensures page !in Ring() && Claim(page).Valid() && Claim(page).pageToSlot[page] == next
      ensures Claim(page).Ring() == Ring()[1..] + [page]
      ensures Claim(page).Identity() - {page} == Identity() - {Ring()[0]}
    {
      hide *;
      ClaimValid(page);
      ClaimRing(page);
      ClaimKeeps(page);
    }

    lemma ClaimValid(page: nat)
      requires Valid() && page < |pageToSlot| && pageToSlot[page] == ABSENT
      ensures Claim(page).Valid() && Claim(page).pageToSlot[page] == next
    {
      var after := Claim(page);
      forall p | 0 <= p < |pageToSlot| && after.pageToSlot[p] != ABSENT
        ensures after.pageToSlot[p] < |slots| && after.slots[after.pageToSlot[p]].page == p
      {
        if p != page {
          assert after.pageToSlot[p] == pageToSlot[p] != next;
        }
      }
      forall s | 0 <= s < |slots| && after.slots[s].page != ABSENT
        ensures after.slots[s].page < |pageToSlot| && after.pageToSlot[after.slots[s].page] == s
      {
        if s != next {
          assert slots[s].page != page && slots[s].page != slots[next].page;
        }
      }
    }

    lemma ClaimRing(page: nat)
      requires Valid() && page < |pageToSlot| && pageToSlot[page] == ABSENT
      requires Claim(page).Valid()
      ensures page !in Ring() && Claim(page).Ring() == Ring()[1..] + [page]
    {
      var after := Claim(page);
      var ring := Ring();
      forall i | 0 <= i < |ring| ensures ring[i] != page {
        var s := if i < |slots| - next then next + i else i - (|slots| - next);
        assert ring[i] == slots[s].page;
      }
      if next + 1 == |slots| {
        assert after.Ring() == Pages(after.slots);
        assert ring[1..] == Pages(slots[..next]);
      } else {
        assert after.slots[next + 1..] == slots[next + 1..];
        assert ring[1..] == Pages(slots[next + 1..]) + Pages(slots[..next]);
        assert Pages(after.slots[..next + 1]) == Pages(slots[..next]) + [page];
      }
    }

    lemma ClaimKeeps(page: nat)
      requires Valid() && page < |pageToSlot| && pageToSlot[page] == ABSENT
      requires Claim(page).Valid()
      ensures Claim(page).Identity() - {page} == Identity() - {Ring()[0]}
    {
      var after := Claim(page);
      assert Ring()[0] == slots[next].page;
      forall p | 0 <= p < |pageToSlot| && p != page && p != slots[next].page
        ensures after.pageToSlot[p] == pageToSlot[p] != next && after.Knows(p) == Knows(p)
      {}
      assert slots[next].page != ABSENT ==> !after.Knows(slots[next].page);
    }

    /** The identities an inclusive page span loses. */
    function Forget(first: nat, last: nat): Store {
      this.(slots := seq(|slots|, s requires 0 <= s < |slots| =>
        if first <= slots[s].page <= last then slots[s].(valid := false) else slots[s]))
    }

    lemma ForgetValid(first: nat, last: nat)
      requires Valid()
      ensures Forget(first, last).Valid() && Forget(first, last).Ring() == Ring()
    {
      var after := Forget(first, last);
      assert forall s | 0 <= s < |slots| :: after.slots[s].page == slots[s].page;
      SameRing(after);
    }

    lemma SameRing(after: Store)
      requires Valid() && after.Valid() && |slots| == |after.slots| && after.next == next
      requires forall s | 0 <= s < |slots| :: after.slots[s].page == slots[s].page
      ensures after.Ring() == Ring()
    {
      assert Pages(after.slots[next..]) == Pages(slots[next..]);
      assert Pages(after.slots[..next]) == Pages(slots[..next]);
    }

    lemma ForgetIdentity(first: nat, last: nat)
      requires Valid() && last < |pageToSlot|
      ensures Forget(first, last).Valid()
      ensures Forget(first, last).Identity() == map p | p in Identity() && !(first <= p <= last) :: Identity()[p]
    {
      var after := Forget(first, last);
      ForgetValid(first, last);
    }
  }

  /** The page size divides the physical memory into that many pages. */
  ghost predicate Paged(pageBytes: nat, pages: nat) {
    4096 <= pageBytes <= SNAPSHOT_BYTES && PHYSICAL_BYTES % pageBytes == 0 && pages == PHYSICAL_BYTES / pageBytes
  }

  function Pages(slots: seq<Slot>): (r: seq<nat>)
    ensures |r| == |slots| && forall i | 0 <= i < |r| :: r[i] == slots[i].page
  {
    seq(|slots|, i requires 0 <= i < |slots| => slots[i].page)
  }

  // ----- the shadow -----

  class Shadow {
    var pageBytes: nat
    var nextSlot: nat
    var epoch: nat
    var evictions: nat
    var pageToSlot: seq<nat>
    var slots: seq<Slot>
    var bytes: seq<Bytes>

    ghost function Token(): Gate
      reads this
    {
      Gate(epoch, pageBytes != 0)
    }

    function Vectors(): Store
      reads this
    {
      Store(pageToSlot, slots, bytes, nextSlot)
    }

    ghost predicate Valid()
      reads this
    {
      1 <= epoch <= EPOCH_MAX && (pageBytes != 0 ==> Paged(pageBytes, |pageToSlot|) && Vectors().Valid())
    }

    /** A disabled shadow claims nothing. */
    ghost function Identity(): map<nat, Bytes>
      requires Valid()
      reads this
    {
      if pageBytes == 0 then map[] else Vectors().Identity()
    }

    /** No page has a slot, and the ring begins with the first one. */
    predicate Fresh()
      reads this
    {
      && nextSlot == 0 && (forall p | 0 <= p < |pageToSlot| :: pageToSlot[p] == ABSENT)
      && forall s | 0 <= s < |slots| :: slots[s] == Slot(ABSENT, false)
    }

    constructor ()
      ensures Valid() && Token() == Gate(1, false) && Identity() == map[]
    {
      pageBytes, nextSlot, epoch, evictions := 0, 0, 1, 0;
      pageToSlot, slots, bytes := [], [], [];
    }

    method AdvanceEpoch()
      requires 1 <= epoch <= EPOCH_MAX
      modifies `epoch, `pageBytes
      ensures Token() == old(Token()).Advance() && 1 <= epoch <= EPOCH_MAX
      ensures pageBytes == if old(epoch) == EPOCH_MAX then 0 else old(pageBytes)
    {
      if epoch == EPOCH_MAX {
        pageBytes := 0;
      } else {
        epoch := epoch + 1;
      }
    }

    /** `haveMemory` is whether the allocations succeed; failure leaves the shadow off. */
    method Initialize(pageSize: nat, capacity: nat, haveMemory: bool) returns (ok: bool)
      requires Valid()
      modifies this
      ensures Valid() && Identity() == map[]
      ensures ok <==> old(epoch) != EPOCH_MAX && GeometryOk(pageSize, capacity) && haveMemory
      ensures Token() == old(Token()).Reopen(ok)
      ensures ok ==> pageBytes == pageSize && |slots| == |bytes| == capacity / pageSize && Fresh() && evictions == 0
      ensures !ok ==> pageToSlot == [] && slots == [] && bytes == []
    {
      var exhausted := epoch == EPOCH_MAX;
      AdvanceEpoch();
      pageBytes, pageToSlot, slots, bytes := 0, [], [], [];
      if exhausted || !GeometryOk(pageSize, capacity) || !haveMemory {
        return false;
      }
      Quotients(pageSize, capacity);
      pageToSlot := seq(PHYSICAL_BYTES / pageSize, _ => ABSENT);
      slots := seq(capacity / pageSize, _ => Slot(ABSENT, false));
      bytes := seq(capacity / pageSize, _ => []);
      pageBytes, nextSlot, evictions := pageSize, 0, 0;
      return true;
    }

    method Reset()
      requires Valid()
      modifies this
      ensures Valid() && Identity() == map[] && Token() == old(Token()).Advance()
      ensures Fresh() && |slots| == |old(slots)| && |pageToSlot| == |old(pageToSlot)| && bytes == old(bytes)
    {
      AdvanceEpoch();
      pageToSlot := seq(|pageToSlot|, _ => ABSENT);
      slots := seq(|slots|, _ => Slot(ABSENT, false));
      nextSlot := 0;
    }

    /** Forgets exactly the pages the inclusive byte span touches, or everything when the epochs run out. */
    method Invalidate(first: nat, last: nat)
      requires Valid()
      modifies this
      ensures Valid() && Token() == old(Token()).Advance()
      ensures Identity() == if pageBytes == 0 then map[] else Untouched(old(Identity()), pageBytes, first, last)
    {
      hide Untouched, Paged, Store.Valid, Store.Identity, Store.Forget;
      AdvanceEpoch();
      if pageBytes == 0 {
        return;
      }
      if first > last || first >= PHYSICAL_BYTES {
        NothingTouched(Vectors(), pageBytes, first, last);
        return;
      }
      var end := if last < PHYSICAL_BYTES - 1 then last else PHYSICAL_BYTES - 1;
      var page, pageLast := first / pageBytes, end / pageBytes;
      SpanPages(pageBytes, |pageToSlot|, first, end);
      ForgetsTouched(Vectors(), pageBytes, first, last, page, pageLast);
      ClearPages(page, pageLast);
    }

    method ClearPages(first: nat, pageLast: nat)
      requires Valid() && pageBytes != 0 && first <= pageLast < |pageToSlot|
      modifies `slots
      ensures Vectors() == old(Vectors()).Forget(first, pageLast)
    {
      ghost var before := slots;
      var page := first;
      while page <= pageLast
        invariant first <= page <= pageLast + 1 && |slots| == |before|
        invariant forall s | 0 <= s < |slots| ::
          slots[s] == if first <= before[s].page < page then before[s].(valid := false) else before[s]
      {
        var slot := pageToSlot[page];
        if slot != ABSENT && slots[slot].page == page {
          slots := slots[slot := slots[slot].(valid := false)];
        }
        page := page + 1;
      }
    }

    /** The page a full, aligned, in-range request names. */
    predicate Names(address: nat, size: nat)
      reads this
    {
      && pageBytes != 0 && size == pageBytes && address % pageBytes == 0
      && address < PHYSICAL_BYTES && size <= PHYSICAL_BYTES - address
    }

    /** A request names a page exactly when it is that page: it begins where the page does and is as long. */
    lemma NamesIff(address: nat, size: nat)
      requires Valid()
      ensures Names(address, size)
              <==> pageBytes != 0 && size == pageBytes && address / pageBytes < |pageToSlot|
                   && address == address / pageBytes * pageBytes
    {
      if pageBytes != 0 {
        var pages, page := |pageToSlot|, address / pageBytes;
        DivBounds(address, pageBytes);
        assert pages * pageBytes == PHYSICAL_BYTES;
        if page < pages { MulBelow(page, pages, pageBytes); }
        if pages <= page { DivCompare(address, pages, pageBytes); }
      }
    }

    method Matches(address: nat, data: Bytes) returns (r: bool)
      requires Valid()
      ensures r <==> Names(address, |data|) && address / pageBytes in Identity()
                     && Identity()[address / pageBytes] == data
    {
      if !Names(address, |data|) {
        return false;
      }
      PageInside(pageBytes, address);
      var page := address / pageBytes;
      var slot := pageToSlot[page];
      return slot != ABSENT && slots[slot].valid && slots[slot].page == page && data == bytes[slot];
    }

    /**
     Records a page just queued for copy, if the token still holds. A page new to the ring takes the slot of
     the oldest one.
     */
    method Publish(address: nat, data: Bytes, token: nat) returns (ok: bool)
      requires Valid()
      modifies `nextSlot, `evictions, `pageToSlot, `slots, `bytes
      ensures Valid()
      ensures ok <==> old(Token()).Admits(token) && Names(address, |data|)
      ensures !ok ==> Vectors() == old(Vectors()) && evictions == old(evictions)
      ensures ok ==>
        var page, ring := address / pageBytes, old(Vectors()).Ring();
        && evictions == old(evictions) + (if page !in ring && ring[0] != ABSENT then 1 else 0)
        && if page in ring
        then Identity() == old(Identity())[page := data] && Vectors().Ring() == ring
        else Identity() == (old(Identity()) - {ring[0]})[page := data] && Vectors().Ring() == ring[1..] + [page]
    {
      if token != epoch || !Names(address, |data|) {
        return false;
      }
      PageInside(pageBytes, address);
      var page := address / pageBytes;
      var slot := pageToSlot[page];
      InRing(Vectors(), page);
      hide *;
      ghost var before := Vectors();
      if slot == ABSENT || slots[slot].page != page {
        slot := ClaimSlot(page);
        SameBut(Vectors().Identity(), before.Identity(), before.Ring()[0], page, data);
      }
      FillSlot(page, slot, data);
      return true;
    }

    method FillSlot(page: nat, slot: nat, data: Bytes)
      requires Valid() && pageBytes != 0 && page < |pageToSlot| && slot == pageToSlot[page] != ABSENT
      modifies `slots, `bytes
      ensures Valid() && Vectors() == old(Vectors()).Write(page, data)
      ensures Vectors().Identity() == old(Vectors()).Identity()[page := data]
      ensures Vectors().Ring() == old(Vectors()).Ring()
    {
      hide Store.Identity, Store.Ring;
      Vectors().WriteIdentity(page, data);
      slots := slots[slot := slots[slot].(valid := false)];
      bytes := bytes[slot := data];
      slots := slots[slot := slots[slot].(valid := true)];
    }

    method ClaimSlot(page: nat) returns (slot: nat)
      requires Valid() && pageBytes != 0 && page < |pageToSlot| && pageToSlot[page] == ABSENT
      modifies `nextSlot, `evictions, `pageToSlot, `slots
      ensures Valid() && Vectors() == old(Vectors()).Claim(page) && slot == pageToSlot[page] != ABSENT
      ensures page !in old(Vectors()).Ring() && Vectors().Ring() == old(Vectors()).Ring()[1..] + [page]
      ensures Vectors().Identity() - {page} == old(Vectors()).Identity() - {old(Vectors()).Ring()[0]}
      ensures evictions == old(evictions) + if old(Vectors()).Ring()[0] != ABSENT then 1 else 0
    {
      Vectors().OldestFirst();
      hide Store.Identity, Store.Ring;
      Vectors().ClaimIdentity(page);
      slot := nextSlot;
      nextSlot := if nextSlot + 1 == |slots| then 0 else nextSlot + 1;
      var previous := slots[slot].page;
      if previous != ABSENT && pageToSlot[previous] == slot {
        pageToSlot := pageToSlot[previous := ABSENT];
        evictions := evictions + 1;
      }
      pageToSlot := pageToSlot[page := slot];
      slots := slots[slot := slots[slot].(page := page)];
    }
  }

  lemma SameBut(m: map<nat, Bytes>, n: map<nat, Bytes>, x: nat, p: nat, data: Bytes)
    requires m - {p} == n - {x}
    ensures m[p := data] == (n - {x})[p := data]
  {
    assert (m - {p})[p := data] == m[p := data];
  }

  lemma InRing(v: Store, page: nat)
    requires v.Valid() && page < |v.pageToSlot|
    ensures page in v.Ring() <==> v.pageToSlot[page] != ABSENT
  {
    if v.pageToSlot[page] != ABSENT {
      HolderInRing(v, page);
    } else {
      AbsentNotInRing(v, page);
    }
  }

  lemma HolderInRing(v: Store, page: nat)
    requires v.Valid() && page < |v.pageToSlot| && v.pageToSlot[page] != ABSENT
    ensures page in v.Ring()
  {
    var s := v.pageToSlot[page];
    assert v.Ring()[if s >= v.next then s - v.next else |v.slots| - v.next + s] == page;
  }

  lemma AbsentNotInRing(v: Store, page: nat)
    requires v.Valid() && page < |v.pageToSlot| && v.pageToSlot[page] == ABSENT
    ensures page !in v.Ring()
  {
    forall i | 0 <= i < |v.Ring()| ensures v.Ring()[i] != page {
      var s := if i < |v.slots| - v.next then v.next + i else i - (|v.slots| - v.next);
      assert v.Ring()[i] == v.slots[s].page;
    }
  }

  lemma SpanPages(pageBytes: nat, pages: nat, first: nat, end: nat)
    requires Paged(pageBytes, pages) && 0 < pageBytes && first <= end < PHYSICAL_BYTES
    ensures first / pageBytes <= end / pageBytes < pages
  {
    SpanInside(pageBytes, first, end);
  }

  lemma NothingTouched(v: Store, pageBytes: nat, first: nat, last: nat)
    requires v.Valid() && Paged(pageBytes, |v.pageToSlot|) && (first > last || first >= PHYSICAL_BYTES)
    ensures Untouched(v.Identity(), pageBytes, first, last) == v.Identity()
  {
    hide Touches;
    forall p | p in v.Identity() ensures !Touches(p, pageBytes, first, last) {
      TouchesNothing(p, pageBytes, first, last);
    }
  }

  lemma ForgetsTouched(v: Store, pageBytes: nat, first: nat, last: nat, page: nat, pageLast: nat)
    requires v.Valid() && Paged(pageBytes, |v.pageToSlot|) && first <= last && first < PHYSICAL_BYTES
    requires page == first / pageBytes && page <= pageLast < |v.pageToSlot|
    requires pageLast == (if last < PHYSICAL_BYTES - 1 then last else PHYSICAL_BYTES - 1) / pageBytes
    ensures v.Forget(page, pageLast).Valid()
    ensures v.Forget(page, pageLast).Identity() == Untouched(v.Identity(), pageBytes, first, last)
  {
    hide Touches, Store.Forget, Store.Valid, Store.Identity;
    v.ForgetIdentity(page, pageLast);
    forall p | p in v.Identity()
      ensures Touches(p, pageBytes, first, last) <==> page <= p <= pageLast
    {
      v.KnownInside(p);
      TouchesSpan(p, pageBytes, first, last, if last < PHYSICAL_BYTES - 1 then last else PHYSICAL_BYTES - 1);
    }
  }

  predicate IsPowerOfTwo(n: nat) {
    n == 1 || (n > 0 && n % 2 == 0 && IsPowerOfTwo(n / 2))
  }

  predicate GeometryOk(pageSize: nat, capacity: nat) {
    && 4096 <= pageSize <= SNAPSHOT_BYTES && IsPowerOfTwo(pageSize)
    && SNAPSHOT_BYTES % pageSize == 0 && PHYSICAL_BYTES % pageSize == 0
    && pageSize <= capacity <= PHYSICAL_BYTES && capacity % pageSize == 0
  }

  /** The geometries accepted: a page of 4 to 64 KiB, and a whole number of pages no larger than the physical memory. */
  lemma GeometryOkIff(pageSize: nat, capacity: nat)
    ensures GeometryOk(pageSize, capacity)
            <==> (pageSize == 0x1000 || pageSize == 0x2000 || pageSize == 0x4000 || pageSize == 0x8000 || pageSize == 0x1_0000)
                 && 0 < capacity <= 0x2000_0000 && capacity % pageSize == 0
  {
    if 0x1000 <= pageSize <= 0x1_0000 {
      PowersFrom4K(pageSize);
    }
    hide IsPowerOfTwo;
    if pageSize > 0 && capacity > 0 && capacity % pageSize == 0 {
      AtLeastOne(capacity, pageSize);
    }
  }

  lemma AtLeastOne(capacity: nat, pageSize: nat)
    requires pageSize > 0 && capacity > 0 && capacity % pageSize == 0
    ensures pageSize <= capacity
  {}

  function Power(k: nat): nat { if k == 0 then 1 else 2 * Power(k - 1) }

  lemma PowerValues()
    ensures Power(11) == 0x800 && Power(12) == 0x1000 && Power(13) == 0x2000 && Power(14) == 0x4000
            && Power(15) == 0x8000 && Power(16) == 0x1_0000
  {
    assert Power(6) == 0x40;
    assert Power(11) == 0x800;
  }

  lemma {:induction false} PowerGrows(a: nat, b: nat)
    requires a <= b
    ensures Power(a) <= Power(b)
  {
    if a < b { PowerGrows(a, b - 1); }
  }

  lemma {:induction false} PowerIsPower(k: nat)
    ensures IsPowerOfTwo(Power(k))
  {
    if k > 0 { PowerIsPower(k - 1); }
  }

  /** Halving a power of two down to one. */
  lemma {:induction false} Halvings(n: nat) returns (k: nat)
    requires IsPowerOfTwo(n)
    ensures n == Power(k)
  {
    if n == 1 {
      k := 0;
    } else {
      k := Halvings(n / 2);
      k := k + 1;
    }
  }

  /** The powers of two from 4 KiB to 64 KiB are five. */
  lemma PowersFrom4K(n: nat)
    requires 0x1000 <= n <= 0x1_0000
    ensures IsPowerOfTwo(n) <==> n == 0x1000 || n == 0x2000 || n == 0x4000 || n == 0x8000 || n == 0x1_0000
  {
    PowerValues();
    PowerIsPower(12);
    PowerIsPower(13);
    PowerIsPower(14);
    PowerIsPower(15);
    PowerIsPower(16);
    hide Power;
    if IsPowerOfTwo(n) {
      hide IsPowerOfTwo;
      var k := Halvings(n);
      if k <= 11 { PowerGrows(k, 11); }
      if k >= 17 {
        PowerGrows(17, k);
        PowerSeventeen();
      }
    }
  }

  lemma PowerSeventeen()
    ensures Power(17) > 0x1_0000
  {
    PowerValues();
  }

  /** The inclusive byte span meets page `p`. */
  ghost predicate Touches(p: nat, pageBytes: nat, first: nat, last: nat) {
    first <= last && p * pageBytes <= last && first < p * pageBytes + pageBytes
  }

  /** The identities of the pages the inclusive byte span does not meet. */
  ghost function Untouched(m: map<nat, Bytes>, pageBytes: nat, first: nat, last: nat): map<nat, Bytes> {
    map p | p in m && !Touches(p, pageBytes, first, last) :: m[p]
  }

  lemma Quotients(pageSize: nat, capacity: nat)
    requires 0 < pageSize <= capacity <= PHYSICAL_BYTES
    ensures 0 < capacity / pageSize <= PHYSICAL_BYTES && 0 < PHYSICAL_BYTES / pageSize
  {
    DivCompare(capacity, 1, pageSize);
    DivCompare(capacity, capacity, pageSize);
    DivCompare(PHYSICAL_BYTES, 1, pageSize);
    MulBelow(0, pageSize, capacity);
  }

  lemma PageInside(pageBytes: nat, address: nat)
    requires 0 < pageBytes && address < PHYSICAL_BYTES && pageBytes <= PHYSICAL_BYTES - address
    ensures address / pageBytes < PHYSICAL_BYTES / pageBytes
  {
    DivCompare(PHYSICAL_BYTES, address / pageBytes + 1, pageBytes);
    DivBounds(address, pageBytes);
    assert (address / pageBytes + 1) * pageBytes == address / pageBytes * pageBytes + pageBytes;
  }

  lemma SpanInside(pageBytes: nat, first: nat, end: nat)
    requires 0 < pageBytes && first <= end < PHYSICAL_BYTES && PHYSICAL_BYTES % pageBytes == 0
    ensures first / pageBytes <= end / pageBytes < PHYSICAL_BYTES / pageBytes
  {
    var q := PHYSICAL_BYTES / pageBytes;
    DivBounds(end, pageBytes);
    DivCompare(first, end / pageBytes, pageBytes);
    assert PHYSICAL_BYTES == q * pageBytes;
    if q <= end / pageBytes { DivCompare(end, q, pageBytes); }
  }

  lemma TouchesSpan(p: nat, pageBytes: nat, first: nat, last: nat, end: nat)
    requires 0 < pageBytes && first <= last && first < PHYSICAL_BYTES && p < PHYSICAL_BYTES / pageBytes
    requires end == if last < PHYSICAL_BYTES - 1 then last else PHYSICAL_BYTES - 1
    ensures Touches(p, pageBytes, first, last) <==> first / pageBytes <= p <= end / pageBytes
  {
    DivCompare(first, p, pageBytes);
    DivCompare(end, p, pageBytes);
    PageStarts(p, pageBytes);
  }

  lemma PageStarts(p: nat, pageBytes: nat)
    requires 0 < pageBytes && p < PHYSICAL_BYTES / pageBytes
    ensures p * pageBytes + pageBytes <= PHYSICAL_BYTES
  {
    DivBounds(PHYSICAL_BYTES, pageBytes);
    MulBelow(p, PHYSICAL_BYTES / pageBytes, pageBytes);
  }

  lemma TouchesNothing(p: nat, pageBytes: nat, first: nat, last: nat)
    requires 0 < pageBytes && p < PHYSICAL_BYTES / pageBytes && (first > last || first >= PHYSICAL_BYTES)
    ensures !Touches(p, pageBytes, first, last)
  {
    PageStarts(p, pageBytes);
  }
}
