/** The font inventory as values: the resolution cache and the catalog, what
    scanning one font entry, one page and a whole page sequence does to them,
    and the facts the scanner relies on. */
module FontInventory {
  import opened PdfModel

  /** One distinct font: canonical name, first page it was seen on, number of
      entries that resolved to it, and whether its program is embedded. */
  datatype FontRecord = FontRecord(name: string, firstPage: int, reference: int, embedded: bool)
  {
    /** The record after one more reference: only the count moves. */
    function Bumped(): (r: FontRecord)
      ensures r.name == name && r.firstPage == firstPage && r.embedded == embedded
      ensures r.reference == reference + 1
    {
      this.(reference := reference + 1)
    }
  }

  /** `cache` maps an object number to the canonical name already computed for
      it; `catalog` maps a canonical name to its record. */
  datatype ScanState = ScanState(cache: map<int, string>, catalog: map<string, FontRecord>)

  /** A font entry met while scanning `page`. */
  datatype Occurrence = Occurrence(page: int, entry: FontEntry)

  /** Both maps as a run creates them. */
  function Empty(): ScanState {
    ScanState(map[], map[])
  }

  /** Every cached name is a catalog key, so a cache hit can always find its record. */
  predicate CacheInCatalog(s: ScanState) {
    forall n :: n in s.cache ==> s.cache[n] in s.catalog
  }

  /** The invariant a scan keeps over `doc`: cached names are catalog keys and
      are the names their objects really resolve to; each record is filed
      under its own name and has been referenced at least once. */
  ghost predicate Consistent(s: ScanState, doc: Document) {
    && CacheInCatalog(s)
    && (forall n :: n in s.cache ==> Resolve(doc, Indirect(n)) == Some(s.cache[n]))
    && (forall k :: k in s.catalog ==> s.catalog[k].name == k && s.catalog[k].reference >= 1)
  }

  /** One iteration of the scanner's loop, branch for branch: skip a value that
      is not an indirect reference; on a cache hit bump the cached name's
      record; otherwise resolve the object, skip it (uncached) when it is not a
      dictionary or has no /BaseFont, and else cache its canonical name and
      bump or create the record. */
  function ScanEntry(s: ScanState, doc: Document, o: Occurrence): (r: ScanState)
    requires CacheInCatalog(s)
    ensures CacheInCatalog(r)
    ensures s.catalog.Keys <= r.catalog.Keys
  {
    if o.entry.Direct? then s
    else
      var n := o.entry.objNum;
      if n in s.cache then
        var fn := s.cache[n];
        s.(catalog := s.catalog[fn := s.catalog[fn].Bumped()])
      else
        var f := ObjectAt(doc, n);
        if f.NonDict? || f.baseFont.None? then s
        else
          var fn := RemoveSubsetPrefix(f.baseFont.value);
          var cache := s.cache[n := fn];
          if fn in s.catalog then ScanState(cache, s.catalog[fn := s.catalog[fn].Bumped()])
          else ScanState(cache, s.catalog[fn := FontRecord(fn, o.page, 1, f.embedded)])
  }

  /** The state after scanning the occurrences of `t` in order. */
  function ScanTrace(s: ScanState, doc: Document, t: seq<Occurrence>): (r: ScanState)
    requires CacheInCatalog(s)
    ensures CacheInCatalog(r)
    ensures s.catalog.Keys <= r.catalog.Keys
    decreases |t|
  {
    if t == [] then s
    else ScanEntry(ScanTrace(s, doc, t[..|t| - 1]), doc, t[|t| - 1])
  }

  /** The entries of page `p`'s font dictionary, tagged with the page; none when it has no such dictionary. */
  function PageTrace(doc: Document, p: int): seq<Occurrence>
    requires ValidPage(doc, p)
  {
    match FontDictionary(doc, p)
    case None => []
    case Some(es) => seq(|es|, j requires 0 <= j < |es| => Occurrence(p, es[j]))
  }

  /** What scanning one page does: a page without a font dictionary changes nothing. */
  function ScanPage(s: ScanState, doc: Document, p: int): (r: ScanState)
    requires CacheInCatalog(s) && ValidPage(doc, p)
    ensures CacheInCatalog(r)
    ensures FontDictionary(doc, p).None? ==> r == s
  {
    ScanTrace(s, doc, PageTrace(doc, p))
  }

  /** The occurrences met by scanning the pages `qs` in order. */
  function Trace(doc: Document, qs: seq<int>): seq<Occurrence>
    requires ValidPages(doc, qs)
    decreases |qs|
  {
    if qs == [] then []
    else Trace(doc, qs[..|qs| - 1]) + PageTrace(doc, qs[|qs| - 1])
  }

  /** The pages of `ps` in order of first appearance, each once (see DedupSpec). */
  function Dedup(ps: seq<int>): seq<int>
    decreases |ps|
  {
    if ps == [] then []
    else
      var d := Dedup(ps[..|ps| - 1]);
      var p := ps[|ps| - 1];
      if p in ps[..|ps| - 1] then d else d + [p]
  }

  /** The state a run over the page sequence `ps` reaches: both maps start
      empty, and each element is scanned unless it occurred earlier. */
  function Scanned(doc: Document, ps: seq<int>): (r: ScanState)
    requires ValidPages(doc, ps)
    ensures CacheInCatalog(r)
    decreases |ps|
  {
    if ps == [] then Empty()
    else
      var prev := ps[..|ps| - 1];
      var p := ps[|ps| - 1];
      if p in prev then Scanned(doc, prev) else ScanPage(Scanned(doc, prev), doc, p)
  }

  // ---------------------------------------------------------------------------
  // One entry

  /** What an entry does, described without the cache: when the invariant
      holds, the cache is only a shortcut. An entry that does not resolve
      leaves the state as it was; one that resolves to `fn` caches `fn` under
      its object number and bumps the record for `fn`, or creates it with one
      reference, this page and the object's embedded flag. */
  lemma {:induction false} ScanEntryEffect(s: ScanState, doc: Document, o: Occurrence)
    requires Consistent(s, doc)
    ensures Consistent(ScanEntry(s, doc, o), doc)
    ensures Resolve(doc, o.entry).None? ==> ScanEntry(s, doc, o) == s
    ensures Resolve(doc, o.entry).Some? ==>
      var fn := Resolve(doc, o.entry).value;
      var r := ScanEntry(s, doc, o);
      && r.cache == s.cache[o.entry.objNum := fn]
      && r.catalog == if fn in s.catalog then s.catalog[fn := s.catalog[fn].Bumped()]
                      else s.catalog[fn := FontRecord(fn, o.page, 1, EmbeddedOf(doc, o.entry))]
  {
    if o.entry.Indirect? {
      var n := o.entry.objNum;
      if n in s.cache {
        assert Resolve(doc, Indirect(n)) == Some(s.cache[n]);
        assert s.cache[n := s.cache[n]] == s.cache;
      }
    }
  }

  /** An entry changes the state exactly when it resolves to a font. */
  lemma EntryChangesStateIff(s: ScanState, doc: Document, o: Occurrence)
    requires Consistent(s, doc)
    ensures ScanEntry(s, doc, o) != s <==> Resolve(doc, o.entry).Some?
  {
    ScanEntryEffect(s, doc, o);
    if Resolve(doc, o.entry).Some? {
      var fn := Resolve(doc, o.entry).value;
      var r := ScanEntry(s, doc, o);
      assert fn in r.catalog;
      if fn in s.catalog {
        assert r.catalog[fn].reference == s.catalog[fn].reference + 1;
      }
    }
  }

  /** A malformed entry (not a reference, a reference to a non-dictionary, or
      to a dictionary without /BaseFont) is not cached, so the same object
      number is examined afresh the next time it is met. */
  lemma MalformedEntryNotCached(s: ScanState, doc: Document, o: Occurrence)
    requires Consistent(s, doc)
    requires o.entry.Indirect? && Resolve(doc, o.entry).None?
    ensures o.entry.objNum !in ScanEntry(s, doc, o).cache
    ensures ScanEntry(ScanEntry(s, doc, o), doc, o) == s
  {
    ScanEntryEffect(s, doc, o);
    assert Indirect(o.entry.objNum) == o.entry;
  }

  /** The cache only grows, a cached name never changes, and an object number
      is added only when it was absent (after a failed lookup). */
  lemma CacheAddsOnce(s: ScanState, doc: Document, o: Occurrence)
    requires CacheInCatalog(s)
    ensures var r := ScanEntry(s, doc, o);
      && (forall n :: n in s.cache ==> n in r.cache && r.cache[n] == s.cache[n])
      && (r.cache == s.cache ||
          (o.entry.Indirect? && o.entry.objNum !in s.cache &&
           r.cache == s.cache[o.entry.objNum := r.cache[o.entry.objNum]]))
  {
  }

  /** Later references never change a record's name, first page or embedded
      flag, and its count grows by exactly one per entry resolving to it. */
  lemma ScanEntryKeepsRecords(s: ScanState, doc: Document, o: Occurrence)
    requires Consistent(s, doc)
    ensures var r := ScanEntry(s, doc, o);
      forall k :: k in s.catalog ==>
        && k in r.catalog
        && r.catalog[k].name == s.catalog[k].name
        && r.catalog[k].firstPage == s.catalog[k].firstPage
        && r.catalog[k].embedded == s.catalog[k].embedded
        && r.catalog[k].reference == s.catalog[k].reference + (if Resolve(doc, o.entry) == Some(k) then 1 else 0)
  {
    ScanEntryEffect(s, doc, o);
  }

  // ---------------------------------------------------------------------------
  // Traces, pages and runs

  lemma {:induction false} ScanTraceConsistent(s: ScanState, doc: Document, t: seq<Occurrence>)
    requires Consistent(s, doc)
    ensures Consistent(ScanTrace(s, doc, t), doc)
    decreases |t|
  {
    if t != [] {
      ScanTraceConsistent(s, doc, t[..|t| - 1]);
      ScanEntryEffect(ScanTrace(s, doc, t[..|t| - 1]), doc, t[|t| - 1]);
    }
  }

  /** Scanning `a + b` is scanning `a`, then `b`. */
  lemma {:induction false} ScanTraceAppend(s: ScanState, doc: Document, a: seq<Occurrence>, b: seq<Occurrence>)
    requires CacheInCatalog(s)
    ensures ScanTrace(s, doc, a + b) == ScanTrace(ScanTrace(s, doc, a), doc, b)
    decreases |b|
  {
    if b == [] {
      assert a + b == a;
    } else {
      var b' := b[..|b| - 1];
      assert (a + b)[..|a + b| - 1] == a + b';
      assert (a + b)[|a + b| - 1] == b[|b| - 1];
      ScanTraceAppend(s, doc, a, b');
    }
  }

  /** One more element of a run: it is scanned, and joins the scanned pages, unless it occurred already. */
  lemma RunStep(doc: Document, ps: seq<int>, p: int)
    requires ValidPages(doc, ps) && ValidPage(doc, p)
    ensures ValidPages(doc, ps + [p])
    ensures Dedup(ps + [p]) == if p in ps then Dedup(ps) else Dedup(ps) + [p]
    ensures Scanned(doc, ps + [p]) == if p in ps then Scanned(doc, ps) else ScanPage(Scanned(doc, ps), doc, p)
  {
    assert (ps + [p])[..|ps|] == ps;
  }

  /** Element `k` of a run, seen from the state before it: the run's state
      after it is `r` when `r` is the result of scanning its page exactly when
      the page did not occur earlier. */
  lemma RunElement(doc: Document, ps: seq<int>, k: int, s: ScanState, r: ScanState, scanned: bool)
    requires ValidPages(doc, ps) && 0 <= k < |ps|
    requires s == Scanned(doc, ps[..k]) && scanned == (ps[k] !in ps[..k])
    requires r == if scanned then ScanPage(s, doc, ps[k]) else s
    ensures ps[..k + 1] == ps[..k] + [ps[k]]
    ensures r == Scanned(doc, ps[..k + 1])
  {
    assert ps[..k + 1] == ps[..k] + [ps[k]];
    RunStep(doc, ps[..k], ps[k]);
  }

  /** Dedup keeps exactly the pages of `ps`, each once. */
  lemma {:induction false} DedupSpec(ps: seq<int>)
    ensures forall q :: q in Dedup(ps) <==> q in ps
    ensures forall a, b :: 0 <= a < b < |Dedup(ps)| ==> Dedup(ps)[a] != Dedup(ps)[b]
    decreases |ps|
  {
    if ps != [] {
      var prev := ps[..|ps| - 1];
      DedupSpec(prev);
      assert ps == prev + [ps[|ps| - 1]];
    }
  }

  /** The position of the first occurrence of `q` in `ps`, or |ps| when there is none. */
  function FirstPos(ps: seq<int>, q: int): (i: nat)
    ensures i <= |ps|
    ensures forall j :: 0 <= j < i ==> ps[j] != q
    ensures i < |ps| ==> ps[i] == q
    decreases |ps|
  {
    if ps == [] then 0
    else
      var i := FirstPos(ps[..|ps| - 1], q);
      if i < |ps| - 1 then i
      else if ps[|ps| - 1] == q then |ps| - 1
      else |ps|
  }

  lemma FirstPosExtend(ps: seq<int>, p: int, q: int)
    requires q in ps
    ensures FirstPos(ps + [p], q) == FirstPos(ps, q)
  {
    assert (ps + [p])[..|ps|] == ps;
  }

  /** Dedup lists the pages in the order of their first appearance in `ps`. */
  lemma {:induction false} DedupOrder(ps: seq<int>)
    ensures forall a, b :: 0 <= a < b < |Dedup(ps)| ==> FirstPos(ps, Dedup(ps)[a]) < FirstPos(ps, Dedup(ps)[b])
    decreases |ps|
  {
    if ps != [] {
      var prev := ps[..|ps| - 1];
      var p := ps[|ps| - 1];
      assert ps == prev + [p];
      DedupOrder(prev);
      DedupSpec(prev);
      var d := Dedup(prev);
      assert Dedup(ps) == if p in prev then d else d + [p];
      forall q | q in d ensures FirstPos(ps, q) == FirstPos(prev, q) {
        FirstPosExtend(prev, p, q);
      }
      if p !in prev {
        assert FirstPos(ps, p) == |prev|;
        forall a | 0 <= a < |d| ensures FirstPos(ps, Dedup(ps)[a]) < FirstPos(ps, p) {
          assert Dedup(ps)[a] == d[a] && d[a] in d;
        }
      }
    }
  }

  lemma DedupValid(doc: Document, ps: seq<int>)
    requires ValidPages(doc, ps)
    ensures ValidPages(doc, Dedup(ps))
  {
    DedupSpec(ps);
    forall k | 0 <= k < |Dedup(ps)| ensures ValidPage(doc, Dedup(ps)[k]) {
      assert Dedup(ps)[k] in ps;
    }
  }

  /** A run scans each distinct page of its sequence once, in order of first
      appearance: its state is that of scanning the occurrences of those pages. */
  lemma {:induction false} ScannedIsDedupScan(doc: Document, ps: seq<int>)
    requires ValidPages(doc, ps)
    ensures ValidPages(doc, Dedup(ps))
    ensures Scanned(doc, ps) == ScanTrace(Empty(), doc, Trace(doc, Dedup(ps)))
    decreases |ps|
  {
    DedupValid(doc, ps);
    if ps != [] {
      var prev := ps[..|ps| - 1];
      var p := ps[|ps| - 1];
      assert ps == prev + [p];
      ScannedIsDedupScan(doc, prev);
      RunStep(doc, prev, p);
      if p !in prev {
        var d := Dedup(prev);
        assert (d + [p])[..|d|] == d;
        assert Trace(doc, d + [p]) == Trace(doc, d) + PageTrace(doc, p);
        ScanTraceAppend(Empty(), doc, Trace(doc, d), PageTrace(doc, p));
      }
    }
  }

  /** A page number that already occurred earlier in the sequence may be
      dropped without changing which pages are scanned, or in what order. */
  lemma {:induction false} DedupDropsRepeat(a: seq<int>, p: int, b: seq<int>)
    requires p in a
    ensures Dedup(a + [p] + b) == Dedup(a + b)
    decreases |b|
  {
    if b == [] {
      var q := a + [p];
      assert q[..|q| - 1] == a;
      assert a + [p] + b == q;
      assert a + b == a;
    } else {
      var b' := b[..|b| - 1];
      var x := b[|b| - 1];
      DedupDropsRepeat(a, p, b');
      var l := a + [p] + b;
      var r := a + b;
      assert l[..|l| - 1] == a + [p] + b' && l[|l| - 1] == x;
      assert r[..|r| - 1] == a + b' && r[|r| - 1] == x;
      assert x in a + [p] + b' <==> x in a + b';
    }
  }

  /** Duplicate page numbers in a run cause no change of state. */
  lemma DuplicatePageIgnored(doc: Document, a: seq<int>, p: int, b: seq<int>)
    requires ValidPages(doc, a + [p] + b) && p in a
    ensures ValidPages(doc, a + b)
    ensures Scanned(doc, a + [p] + b) == Scanned(doc, a + b)
  {
    assert forall k :: 0 <= k < |a + b| ==> (a + b)[k] in a + [p] + b;
    DedupDropsRepeat(a, p, b);
    ScannedIsDedupScan(doc, a + [p] + b);
    ScannedIsDedupScan(doc, a + b);
  }

  /** The sequence [3, 3, 5] scans exactly what [3, 5] scans. */
  lemma DuplicateExample(doc: Document)
    requires doc.NumberOfPages() >= 5
    ensures Scanned(doc, [3, 3, 5]) == Scanned(doc, [3, 5])
  {
    assert [3, 3, 5] == [3] + [3] + [5];
    assert [3, 5] == [3] + [5];
    DuplicatePageIgnored(doc, [3], 3, [5]);
  }
}
