/**
 Resolving a guest buffer to an identical local asset (src/gpu/native/native_asset_cache.cpp): finding the asset with
 the same bytes, and the version stamps of the pages the buffer lies on.
 */
module AssetCache {

  import opened Arithmetic
  import opened Wrappers

  const PHYSICAL_BYTES: nat := 0x2000_0000
  const PAGE_BYTES: nat := 4096
  const PAGE_COUNT: nat := 131072

  type Bytes = seq<bv8>

  // ----- stamps -----

  /** The largest of a span of versions. */
  function MaxOf(versions: seq<nat>, first: nat, last: nat): (v: nat)
    requires first <= last < |versions|
    ensures forall p | first <= p <= last :: versions[p] <= v
    ensures exists p | first <= p <= last :: versions[p] == v
    decreases last
  {
    if first == last then versions[first]
    else
      var front := MaxOf(versions, first, last - 1);
      if versions[last] > front then versions[last] else front
  }

  /** Each stamp is newer than all before it, so an invalidation of any page of a span raises the span's version. */
  lemma InvalidationRaises(versions: seq<nat>, after: seq<nat>, stamp: nat, first: nat, last: nat, p: nat)
    requires first <= p <= last < |versions| == |after|
    requires forall q | 0 <= q < |versions| :: versions[q] < stamp
    requires after[p] == stamp
    ensures MaxOf(after, first, last) > MaxOf(versions, first, last)
  {}

  // ----- assets -----

  const FNV_START: bv64 := 14695981039346656037
  const FNV_PRIME: bv64 := 1099511628211

  function Mix(h: bv64, bytes: Bytes): bv64
    decreases |bytes|
  {
    if bytes == [] then h else Mix((h ^ (bytes[0] as bv64)) * FNV_PRIME, bytes[1..])
  }

  /** A hash of the first and last 32 bytes: it narrows the candidates and decides nothing. */
  function Fingerprint(bytes: Bytes): bv64 {
    var n := if |bytes| < 32 then |bytes| else 32;
    Mix(Mix(FNV_START, bytes[..n]), bytes[|bytes| - n..])
  }

  datatype Asset = Asset(offset: nat, bytes: Bytes)

  datatype CandidateKey = CandidateKey(length: nat, fingerprint: bv64)

  function KeyOf(bytes: Bytes): CandidateKey {
    CandidateKey(|bytes|, Fingerprint(bytes))
  }

  datatype Binding = Binding(base: nat, length: nat, offset: nat, enabled: bool)

  const DISABLED: Binding := Binding(0, 0, 0, false)

  class AssetPack {
    var entries: seq<Asset>
    var candidates: map<CandidateKey, seq<nat>>

    constructor ()
      ensures Valid() && entries == []
    {
      entries, candidates := [], map[];
    }

    /** The candidate lists hold exactly the positions with their key, in order of loading. */
    ghost predicate Valid()
      reads this
    {
      && (forall k, j | k in candidates && 0 <= j < |candidates[k]| ::
            candidates[k][j] < |entries| && KeyOf(entries[candidates[k][j]].bytes) == k)
      && (forall i | 0 <= i < |entries| ::
            KeyOf(entries[i].bytes) in candidates && i in candidates[KeyOf(entries[i].bytes)])
    }

    method Load(a: Asset)
      requires Valid()
      modifies this
      ensures Valid() && entries == old(entries) + [a]
    {
      hide KeyOf;
      var k := KeyOf(a.bytes);
      var earlier: seq<nat> := if k in candidates then candidates[k] else [];
      var list: seq<nat> := earlier + [|entries|];
      assert list[|earlier|] == |entries|;
      entries := entries + [a];
      candidates := candidates[k := list];
      forall i | 0 <= i < |entries|
        ensures KeyOf(entries[i].bytes) in candidates && i in candidates[KeyOf(entries[i].bytes)]
      {
        if i < |old(entries)| {
          assert KeyOf(old(entries)[i].bytes) in old(candidates);
        }
      }
    }

    /** Finds an asset with exactly these bytes whenever there is one. */
    method Match(base: nat, snapshot: Bytes) returns (b: Binding)
      requires Valid()
      ensures b.enabled <==> exists i :: 0 <= i < |entries| && entries[i].bytes == snapshot
      ensures b.enabled ==> b.base == base && b.length == |snapshot|
                            && exists i :: 0 <= i < |entries| && entries[i].bytes == snapshot && entries[i].offset == b.offset
      ensures !b.enabled ==> b == DISABLED
    {
      hide KeyOf;
      var k := KeyOf(snapshot);
      if k in candidates {
        var list := candidates[k];
        for j := 0 to |list|
          invariant forall i | 0 <= i < j :: entries[list[i]].bytes != snapshot
        {
          if entries[list[j]].bytes == snapshot {
            return Binding(base, |snapshot|, entries[list[j]].offset, true);
          }
        }
        NotListed(list, snapshot);
      }
      return DISABLED;
    }

    lemma NotListed(list: seq<nat>, snapshot: Bytes)
      requires Valid() && KeyOf(snapshot) in candidates && list == candidates[KeyOf(snapshot)]
      requires forall j | 0 <= j < |list| :: entries[list[j]].bytes != snapshot
      ensures forall i | 0 <= i < |entries| :: entries[i].bytes != snapshot
    {
      hide KeyOf;
      forall i | 0 <= i < |entries| ensures entries[i].bytes != snapshot {
        if i in list {
          var j :| 0 <= j < |list| && list[j] == i;
        }
      }
    }
  }

  class PageVersions {
    var versions: seq<nat>
    var sequence: nat

    ghost predicate Valid()
      reads this
    {
      |versions| == PAGE_COUNT && forall p | 0 <= p < PAGE_COUNT :: versions[p] <= sequence
    }

    constructor ()
      ensures Valid() && sequence == 0
    {
      versions, sequence := seq(PAGE_COUNT, _ => 0), 0;
    }

    /** Stamps every page the inclusive byte span touches with a new version; a span outside memory does nothing. */
    method Invalidated(first: nat, last: nat)
      requires Valid()
      modifies this
      ensures Valid()
      ensures first >= PHYSICAL_BYTES || last < first ==> versions == old(versions) && sequence == old(sequence)
      ensures first < PHYSICAL_BYTES && first <= last ==>
        var end := if last < PHYSICAL_BYTES then last else PHYSICAL_BYTES - 1;
        && sequence == old(sequence) + 1
        && forall p | 0 <= p < PAGE_COUNT ::
             versions[p] == if first / PAGE_BYTES <= p <= end / PAGE_BYTES then sequence else old(versions)[p]
    {
      if first >= PHYSICAL_BYTES || last < first {
        return;
      }
      var end := if last < PHYSICAL_BYTES then last else PHYSICAL_BYTES - 1;
      sequence := sequence + 1;
      var page := first / PAGE_BYTES;
      while page <= end / PAGE_BYTES
        invariant first / PAGE_BYTES <= page <= end / PAGE_BYTES + 1 && Valid() && sequence == old(sequence) + 1
        invariant forall p | 0 <= p < PAGE_COUNT ::
          versions[p] == if first / PAGE_BYTES <= p < page then sequence else old(versions)[p]
      {
        versions := versions[page := sequence];
        page := page + 1;
      }
    }

    method Version(base: nat, length: nat) returns (version: nat)
      requires Valid() && length > 0 && base + length <= PHYSICAL_BYTES
      ensures version == MaxOf(versions, base / PAGE_BYTES, (base + length - 1) / PAGE_BYTES)
    {
      var page, last := base / PAGE_BYTES, (base + length - 1) / PAGE_BYTES;
      ghost var first := page;
      version := 0;
      while page <= last
        invariant first <= page <= last + 1
        invariant version == if page == first then 0 else MaxOf(versions, first, page - 1)
      {
        version := if versions[page] > version then versions[page] else version;
        page := page + 1;
      }
    }
  }
}
