/** The bounded cache of rendered diagrams (src/diagrams.rs). A key stands for the hash of
    version, engine and source; outputs are the bytes of the stored SVG. */
module RenderCache {
  import opened Prelude

  const MAX_OUTPUT_BYTES := 2 * 1024 * 1024
  const MAX_CACHE_BYTES := 16 * 1024 * 1024
  const MAX_CACHE_ENTRIES := 128

  type Key = string
  type Output = seq<bv8>

  datatype Entry = Entry(key: Key, svg: Output)

  // ---- What the cache holds --------------------------------------------------------

  function Total(entries: seq<Entry>): nat {
    if entries == [] then 0 else |entries[0].svg| + Total(entries[1..])
  }

  function Find(entries: seq<Entry>, key: Key): Option<Output> {
    if entries == [] then None
    else if entries[0].key == key then Some(entries[0].svg)
    else Find(entries[1..], key)
  }

  /** Room for one more output of `size` bytes. */
  predicate Fits(entries: seq<Entry>, size: nat) {
    |entries| < MAX_CACHE_ENTRIES && Total(entries) + size <= MAX_CACHE_BYTES
  }

  /** What is left when entries go from the front until `size` more bytes fit. */
  function Evicted(entries: seq<Entry>, size: nat): seq<Entry> {
    if entries == [] || Fits(entries, size) then entries else Evicted(entries[1..], size)
  }

  function Stored(entries: seq<Entry>, key: Key, svg: Output): seq<Entry> {
    if Find(entries, key).Some? then entries else Evicted(entries, |svg|) + [Entry(key, svg)]
  }

  predicate UniqueKeys(entries: seq<Entry>) {
    forall i, j :: 0 <= i < j < |entries| ==> entries[i].key != entries[j].key
  }

  /** Keys are unique and both caps hold. */
  predicate Bounded(entries: seq<Entry>) {
    UniqueKeys(entries) && |entries| <= 128 && Total(entries) <= 16 * 1024 * 1024
  }

  lemma {:induction false} TotalAppend(a: seq<Entry>, b: seq<Entry>)
    ensures Total(a + b) == Total(a) + Total(b)
  {
    if a == [] {
      assert a + b == b;
    } else {
      assert (a + b)[1..] == a[1..] + b;
      TotalAppend(a[1..], b);
    }
  }

  lemma TotalOne(e: Entry)
    ensures Total([e]) == |e.svg|
  {
    assert [e][1..] == [];
  }

  lemma {:induction false} FindExactly(entries: seq<Entry>, key: Key, svg: Output)
    requires UniqueKeys(entries)
    ensures Find(entries, key) == Some(svg) <==> Entry(key, svg) in entries
  {
    if entries != [] {
      FindExactly(entries[1..], key, svg);
      assert entries == [entries[0]] + entries[1..];
    }
  }

  /** Eviction takes a shortest possible prefix: what is left is a suffix with room for the
      new output, and no longer suffix has it. */
  lemma {:induction false} EvictsLeast(entries: seq<Entry>, size: nat)
    requires size <= MAX_OUTPUT_BYTES
    ensures |Evicted(entries, size)| < 128 && Total(Evicted(entries, size)) + size <= 16 * 1024 * 1024
    ensures |Evicted(entries, size)| <= |entries|
    ensures Evicted(entries, size) == entries[|entries| - |Evicted(entries, size)|..]
    ensures forall d :: 0 <= d < |entries| - |Evicted(entries, size)| ==>
              |entries[d..]| >= 128 || Total(entries[d..]) + size > 16 * 1024 * 1024
  {
    if entries != [] && !Fits(entries, size) {
      EvictsLeast(entries[1..], size);
      var left := Evicted(entries, size);
      assert entries[1..][|entries| - 1 - |left|..] == entries[|entries| - |left|..];
      forall d | 0 <= d < |entries| - |left|
        ensures |entries[d..]| >= 128 || Total(entries[d..]) + size > 16 * 1024 * 1024
      {
        if d == 0 {
          assert entries[0..] == entries;
        } else {
          assert entries[1..][d - 1..] == entries[d..];
        }
      }
    }
  }

  /** Storing keeps the caps and the keys unique; the new output is then found, and a key
      already present keeps the output it had. */
  lemma StoreKeeps(entries: seq<Entry>, key: Key, svg: Output)
    requires Bounded(entries) && |svg| <= MAX_OUTPUT_BYTES
    ensures Bounded(Stored(entries, key, svg))
    ensures Find(Stored(entries, key, svg), key)
         == if Find(entries, key).Some? then Find(entries, key) else Some(svg)
  {
    if Find(entries, key).None? {
      var left := Evicted(entries, |svg|);
      EvictsLeast(entries, |svg|);
      TotalAppend(left, [Entry(key, svg)]);
      TotalOne(Entry(key, svg));
      var after := left + [Entry(key, svg)];
      forall i | 0 <= i < |left| ensures left[i].key != key {
        FindExactly(entries, key, left[i].svg);
        assert left[i] in entries;
      }
      FindExactly(after, key, svg);
    }
  }

  // ---- Runs ------------------------------------------------------------------------------

  function StoredAll(entries: seq<Entry>, stores: seq<Entry>): seq<Entry> {
    if stores == [] then entries
    else
      var last := stores[|stores| - 1];
      Stored(StoredAll(entries, stores[..|stores| - 1]), last.key, last.svg)
  }

  predicate OutputsSmall(stores: seq<Entry>) {
    forall i :: 0 <= i < |stores| ==> |stores[i].svg| <= MAX_OUTPUT_BYTES
  }

  /** Over any run the bounds hold, and a hit returns an output that was stored under that
      very key. */
  lemma {:induction false} RunBounded(stores: seq<Entry>)
    requires OutputsSmall(stores)
    ensures Bounded(StoredAll([], stores))
    ensures forall e :: e in StoredAll([], stores) ==> e in stores
  {
    if stores != [] {
      var init, last := stores[..|stores| - 1], stores[|stores| - 1];
      RunBounded(init);
      assert stores == init + [last] && last == Entry(last.key, last.svg);
      StoreKeeps(StoredAll([], init), last.key, last.svg);
      EvictsLeast(StoredAll([], init), |last.svg|);
    }
  }

  lemma HitWasStored(stores: seq<Entry>, key: Key, svg: Output)
    requires OutputsSmall(stores) && Find(StoredAll([], stores), key) == Some(svg)
    ensures Entry(key, svg) in stores
  {
    RunBounded(stores);
    FindExactly(StoredAll([], stores), key, svg);
  }

  /** `tail` is the back of the queue. */
  predicate EndsWith(entries: seq<Entry>, tail: seq<Entry>) {
    |tail| <= |entries| && entries[|entries| - |tail|..] == tail
  }

  lemma StoreKeepsTail(entries: seq<Entry>, tail: seq<Entry>, key: Key, svg: Output)
    requires EndsWith(entries, tail) && |svg| <= MAX_OUTPUT_BYTES && Fits(tail, |svg|)
    ensures EndsWith(Stored(entries, key, svg), tail) || EndsWith(Stored(entries, key, svg), tail + [Entry(key, svg)])
  {
    if Find(entries, key).None? {
      EvictKeepsTail(entries, tail, |svg|);
      MoreAtEnd(Evicted(entries, |svg|), tail, Entry(key, svg));
    }
  }

  lemma EvictKeepsTail(entries: seq<Entry>, tail: seq<Entry>, size: nat)
    requires EndsWith(entries, tail) && size <= MAX_OUTPUT_BYTES && Fits(tail, size)
    ensures EndsWith(Evicted(entries, size), tail)
  {
    EvictsLeast(entries, size);
    var d := |entries| - |tail|;
    assert entries[d..] == tail && Fits(entries[d..], size);
  }

  lemma MoreAtEnd(entries: seq<Entry>, tail: seq<Entry>, e: Entry)
    requires EndsWith(entries, tail)
    ensures EndsWith(entries + [e], tail + [e])
  {
    assert (entries + [e])[|entries| - |tail|..] == tail + [e];
  }

  /** First in, first out, and no sooner than it must: an entry outlives any further stores
      as long as they, it and the entries already behind it keep within both caps. */
  lemma {:induction false} Retained(entries: seq<Entry>, p: nat, stores: seq<Entry>)
    requires p < |entries| && OutputsSmall(stores)
    requires |entries| - p + |stores| <= MAX_CACHE_ENTRIES
    requires Total(entries[p..]) + Total(stores) <= MAX_CACHE_BYTES
    ensures entries[p] in StoredAll(entries, stores)
  {
    var tail := RetainedTail(entries, p, stores);
    var after := StoredAll(entries, stores);
    assert after[|after| - |tail|] == entries[p];
  }

  lemma {:induction false} RetainedTail(entries: seq<Entry>, p: nat, stores: seq<Entry>) returns (tail: seq<Entry>)
    requires p < |entries| && OutputsSmall(stores)
    requires |entries| - p + |stores| <= MAX_CACHE_ENTRIES
    requires Total(entries[p..]) + Total(stores) <= MAX_CACHE_BYTES
    ensures EndsWith(StoredAll(entries, stores), tail) && tail != [] && tail[0] == entries[p]
    ensures |tail| <= |entries| - p + |stores| && Total(tail) <= Total(entries[p..]) + Total(stores)
  {
    if stores == [] {
      return entries[p..];
    }
    var init, last := stores[..|stores| - 1], stores[|stores| - 1];
    assert stores == init + [last];
    TotalAppend(init, [last]);
    TotalOne(last);
    var before := RetainedTail(entries, p, init);
    StoreKeepsTail(StoredAll(entries, init), before, last.key, last.svg);
    TotalAppend(before, [last]);
    tail := if EndsWith(StoredAll(entries, stores), before) then before else before + [last];
  }

  // ---- The cache behind the mutex ----------------------------------------------------------

  class Cache {
    var entries: seq<Entry>
    var bytes: nat

    ghost predicate Valid()
      reads this
    {
      Bounded(entries) && bytes == Total(entries)
    }

    constructor ()
      ensures Valid() && entries == []
    {
      entries, bytes := [], 0;
    }

    method Lookup(key: Key) returns (svg: Option<Output>)
      requires Valid()
      ensures svg == Find(entries, key)
    {
      var i := 0;
      while i < |entries| && entries[i].key != key
        invariant i <= |entries|
        invariant Find(entries, key) == Find(entries[i..], key)
      {
        assert entries[i..][1..] == entries[i + 1..];
        i := i + 1;
      }
      svg := if i < |entries| then Some(entries[i].svg) else None;
    }

    /** Retains one entry per key. The loop ends because an emptied cache counts no bytes
        and so has room for any output the response limit lets through. */
    method Store(key: Key, svg: Output)
      requires Valid() && |svg| <= MAX_OUTPUT_BYTES
      modifies this
      ensures Valid()
      ensures entries == Stored(old(entries), key, svg)
    {
      StoreKeeps(entries, key, svg);
      var present := Lookup(key);
      if present.None? {
        while |entries| >= MAX_CACHE_ENTRIES || bytes + |svg| > MAX_CACHE_BYTES
          invariant bytes == Total(entries)
          invariant Evicted(entries, |svg|) == Evicted(old(entries), |svg|)
          decreases |entries|
        {
          bytes := bytes - |entries[0].svg|;
          entries := entries[1..];
        }
        TotalAppend(entries, [Entry(key, svg)]);
        TotalOne(Entry(key, svg));
        bytes := bytes + |svg|;
        entries := entries + [Entry(key, svg)];
      }
    }
  }

  // ---- The response body --------------------------------------------------------------------

  function Joined(chunks: seq<Output>): Output {
    if chunks == [] then [] else Joined(chunks[..|chunks| - 1]) + chunks[|chunks| - 1]
  }

  /** A body is its parts in the order they came, wherever it is cut. */
  lemma {:induction false} JoinedAppend(a: seq<Output>, b: seq<Output>)
    ensures Joined(a + b) == Joined(a) + Joined(b)
  {
    if b == [] {
      assert a + b == a;
    } else {
      assert (a + b)[..|a + b| - 1] == a + b[..|b| - 1];
      JoinedAppend(a, b[..|b| - 1]);
    }
  }

  lemma JoinedOne(chunk: Output)
    ensures Joined([chunk]) == chunk
  {
    assert [chunk][..0] == [];
  }

  lemma {:induction false} JoinedGrows(chunks: seq<Output>, n: nat)
    requires n <= |chunks|
    ensures |Joined(chunks[..n])| <= |Joined(chunks)|
  {
    if n < |chunks| {
      JoinedGrows(chunks[..|chunks| - 1], n);
      assert chunks[..|chunks| - 1][..n] == chunks[..n];
    } else {
      assert chunks[..n] == chunks;
    }
  }

  /** The body is the chunks in order, and is refused exactly when they are over the limit
      together, however they are cut. */
  method ReadBody(chunks: seq<Output>) returns (r: Option<Output>)
    ensures r == if |Joined(chunks)| <= 2 * 1024 * 1024 then Some(Joined(chunks)) else None
  {
    var bytes: Output := [];
    for i := 0 to |chunks|
      invariant bytes == Joined(chunks[..i]) && |bytes| <= MAX_OUTPUT_BYTES
    {
      assert chunks[..i + 1][..i] == chunks[..i];
      if |bytes| + |chunks[i]| > MAX_OUTPUT_BYTES {
        JoinedGrows(chunks, i + 1);
        return None;
      }
      bytes := bytes + chunks[i];
    }
    assert chunks[..|chunks|] == chunks;
    return Some(bytes);
  }
}
