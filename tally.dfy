/** What a scan amounts to, stated without the cache or the scanner's
    branches: for each canonical name, how many entries resolved to it and
    where the first of them stood. */
module FontTally {
  import opened PdfModel
  import opened FontInventory

  /** The number of occurrences in `t` that resolve to `fn`. */
  function Count(doc: Document, t: seq<Occurrence>, fn: string): nat
    decreases |t|
  {
    if t == [] then 0
    else Count(doc, t[..|t| - 1], fn) + (if Resolve(doc, t[|t| - 1].entry) == Some(fn) then 1 else 0)
  }

  /** The number of occurrences in `t` that resolve to some font. */
  function Resolved(doc: Document, t: seq<Occurrence>): nat
    decreases |t|
  {
    if t == [] then 0
    else Resolved(doc, t[..|t| - 1]) + (if Resolve(doc, t[|t| - 1].entry).Some? then 1 else 0)
  }

  /** The object numbers of the occurrences in `t` that resolve to some font. */
  function ResolvedObjects(doc: Document, t: seq<Occurrence>): set<int>
    decreases |t|
  {
    if t == [] then {}
    else
      var o := t[|t| - 1];
      ResolvedObjects(doc, t[..|t| - 1]) + (if Resolve(doc, o.entry).Some? then {o.entry.objNum} else {})
  }

  /** The position of the first occurrence in `t` resolving to `fn`, or |t| when there is none. */
  function FirstIndex(doc: Document, t: seq<Occurrence>, fn: string): (i: nat)
    ensures i <= |t|
    ensures forall j :: 0 <= j < i ==> Resolve(doc, t[j].entry) != Some(fn)
    ensures i < |t| ==> Resolve(doc, t[i].entry) == Some(fn)
    decreases |t|
  {
    if t == [] then 0
    else
      var i := FirstIndex(doc, t[..|t| - 1], fn);
      if i < |t| - 1 then i
      else if Resolve(doc, t[|t| - 1].entry) == Some(fn) then |t| - 1
      else |t|
  }

  /** `s` is what `t` adds up to: a record exists exactly for the names some
      occurrence resolves to; its count is the number of such occurrences,
      its first page and embedded flag those of the first of them; and the
      cache holds exactly the object numbers that resolved. */
  ghost predicate Tallies(s: ScanState, doc: Document, t: seq<Occurrence>) {
    && s.cache.Keys == ResolvedObjects(doc, t)
    && forall fn ::
      && (fn in s.catalog <==> Count(doc, t, fn) > 0)
      && (fn in s.catalog ==>
            var i := FirstIndex(doc, t, fn);
            i < |t| && s.catalog[fn] == FontRecord(fn, t[i].page, Count(doc, t, fn), EmbeddedOf(doc, t[i].entry)))
  }

  lemma {:induction false} CountPositiveIff(doc: Document, t: seq<Occurrence>, fn: string)
    ensures Count(doc, t, fn) > 0 <==> FirstIndex(doc, t, fn) < |t|
    decreases |t|
  {
    if t != [] {
      CountPositiveIff(doc, t[..|t| - 1], fn);
    }
  }

  /** The record for `fn` after scanning `o` is the tally of `t + [o]` for `fn`. */
  lemma TallyStepName(s: ScanState, doc: Document, t: seq<Occurrence>, o: Occurrence, fn: string)
    requires Consistent(s, doc)
    requires fn in s.catalog <==> Count(doc, t, fn) > 0
    requires fn in s.catalog ==>
      var i := FirstIndex(doc, t, fn);
      i < |t| && s.catalog[fn] == FontRecord(fn, t[i].page, Count(doc, t, fn), EmbeddedOf(doc, t[i].entry))
    ensures var r := ScanEntry(s, doc, o);
      && (fn in r.catalog <==> Count(doc, t + [o], fn) > 0)
      && (fn in r.catalog ==>
            var i := FirstIndex(doc, t + [o], fn);
            i < |t + [o]| && r.catalog[fn] == FontRecord(fn, (t + [o])[i].page, Count(doc, t + [o], fn), EmbeddedOf(doc, (t + [o])[i].entry)))
  {
    var t' := t + [o];
    assert t'[..|t|] == t && t'[|t|] == o;
    ScanEntryEffect(s, doc, o);
    CountPositiveIff(doc, t, fn);
    CountPositiveIff(doc, t', fn);
    var i := FirstIndex(doc, t', fn);
    if i < |t| {
      assert t'[i] == t[i];
    }
  }

  /** Scanning one more occurrence extends the tally by it. */
  lemma TallyStep(s: ScanState, doc: Document, t: seq<Occurrence>, o: Occurrence)
    requires Consistent(s, doc) && Tallies(s, doc, t)
    ensures Tallies(ScanEntry(s, doc, o), doc, t + [o])
  {
    var t' := t + [o];
    assert t'[..|t|] == t && t'[|t|] == o;
    ScanEntryEffect(s, doc, o);
    forall fn
      ensures var r := ScanEntry(s, doc, o);
        && (fn in r.catalog <==> Count(doc, t', fn) > 0)
        && (fn in r.catalog ==>
              var i := FirstIndex(doc, t', fn);
              i < |t'| && r.catalog[fn] == FontRecord(fn, t'[i].page, Count(doc, t', fn), EmbeddedOf(doc, t'[i].entry)))
    {
      TallyStepName(s, doc, t, o, fn);
    }
  }

  /** Scanning a trace from empty maps yields exactly its tally. */
  lemma {:induction false} ScanTraceTally(doc: Document, t: seq<Occurrence>)
    ensures Consistent(ScanTrace(Empty(), doc, t), doc)
    ensures Tallies(ScanTrace(Empty(), doc, t), doc, t)
    decreases |t|
  {
    if t != [] {
      var t' := t[..|t| - 1];
      var o := t[|t| - 1];
      ScanTraceTally(doc, t');
      ScanEntryEffect(ScanTrace(Empty(), doc, t'), doc, o);
      TallyStep(ScanTrace(Empty(), doc, t'), doc, t', o);
      assert t == t' + [o];
    }
  }

  // ---------------------------------------------------------------------------
  // Reference totals

  /** The sum of the reference counts of all records. */
  ghost function TotalReferences(c: map<string, FontRecord>): int
    decreases |c|
  {
    if c == map[] then 0
    else
      var k :| k in c;
      c[k].reference + TotalReferences(c - {k})
  }

  /** Any record may be taken out of the sum first. */
  lemma {:induction false} TotalWithout(c: map<string, FontRecord>, k: string)
    requires k in c
    ensures TotalReferences(c) == c[k].reference + TotalReferences(c - {k})
    decreases |c|
  {
    var j :| j in c && TotalReferences(c) == c[j].reference + TotalReferences(c - {j});
    if j != k {
      TotalWithout(c - {j}, k);
      TotalWithout(c - {k}, j);
      assert c - {j} - {k} == c - {k} - {j};
    }
  }

  /** Bumping one record adds one to the total; adding a new record adds its count. */
  lemma TotalAfterUpdate(c: map<string, FontRecord>, k: string, rec: FontRecord)
    ensures k in c ==> TotalReferences(c[k := rec]) == TotalReferences(c) - c[k].reference + rec.reference
    ensures k !in c ==> TotalReferences(c[k := rec]) == TotalReferences(c) + rec.reference
  {
    TotalWithout(c[k := rec], k);
    assert c[k := rec] - {k} == c - {k};
    if k in c {
      TotalWithout(c, k);
    } else {
      assert c - {k} == c;
    }
  }

  /** After scanning a trace from empty maps, the reference counts add up to
      the number of occurrences that resolved to a font. */
  lemma {:induction false} ScanTraceTotal(doc: Document, t: seq<Occurrence>)
    ensures TotalReferences(ScanTrace(Empty(), doc, t).catalog) == Resolved(doc, t)
    decreases |t|
  {
    if t == [] {
      assert Empty().catalog == map[];
    } else {
      var t' := t[..|t| - 1];
      var o := t[|t| - 1];
      var s := ScanTrace(Empty(), doc, t');
      ScanTraceTotal(doc, t');
      ScanTraceTally(doc, t');
      ScanEntryEffect(s, doc, o);
      match Resolve(doc, o.entry)
      case None =>
      case Some(fn) =>
        if fn in s.catalog {
          TotalAfterUpdate(s.catalog, fn, s.catalog[fn].Bumped());
        } else {
          TotalAfterUpdate(s.catalog, fn, FontRecord(fn, o.page, 1, EmbeddedOf(doc, o.entry)));
        }
    }
  }

  /** Scanning more occurrences never removes a record and never changes its
      name, first page or embedded flag; its count grows by the number of new
      occurrences resolving to it. */
  lemma {:induction false} ScanTraceKeepsRecords(s: ScanState, doc: Document, t: seq<Occurrence>)
    requires Consistent(s, doc)
    ensures var r := ScanTrace(s, doc, t);
      forall k :: k in s.catalog ==>
        && k in r.catalog
        && r.catalog[k].name == s.catalog[k].name
        && r.catalog[k].firstPage == s.catalog[k].firstPage
        && r.catalog[k].embedded == s.catalog[k].embedded
        && r.catalog[k].reference == s.catalog[k].reference + Count(doc, t, k)
    decreases |t|
  {
    if t != [] {
      var t' := t[..|t| - 1];
      ScanTraceKeepsRecords(s, doc, t');
      ScanTraceConsistent(s, doc, t');
      ScanEntryKeepsRecords(ScanTrace(s, doc, t'), doc, t[|t| - 1]);
    }
  }

  // ---------------------------------------------------------------------------
  // Whole runs

  /** What a run over `ps` leaves behind is the tally of the entries of its
      distinct pages, in scan order; the counts add up to the number of
      entries that resolved. */
  lemma RunTally(doc: Document, ps: seq<int>)
    requires ValidPages(doc, ps)
    ensures ValidPages(doc, Dedup(ps))
    ensures Consistent(Scanned(doc, ps), doc)
    ensures Tallies(Scanned(doc, ps), doc, Trace(doc, Dedup(ps)))
    ensures TotalReferences(Scanned(doc, ps).catalog) == Resolved(doc, Trace(doc, Dedup(ps)))
  {
    ScannedIsDedupScan(doc, ps);
    ScanTraceTally(doc, Trace(doc, Dedup(ps)));
    ScanTraceTotal(doc, Trace(doc, Dedup(ps)));
  }

  /** Three pages: pages 1 and 2 both refer to object 7 ("BCDEFG+Arial",
      embedded), page 3 to object 12 ("Times-Roman", not embedded). */
  function ExampleDocument(): Document {
    Document(
      [Some([Indirect(7)]), Some([Indirect(7)]), Some([Indirect(12)])],
      map[7 := Dict(Some("BCDEFG+Arial"), true), 12 := Dict(Some("Times-Roman"), false)])
  }

  lemma ExampleDedup()
    ensures Dedup([1, 2, 3]) == [1, 2, 3]
  {
    var ps := [1, 2, 3];
    assert ps[..2] == [1, 2] && [1, 2][..1] == [1] && [1][..0] == [];
    assert Dedup([1]) == [1];
    assert Dedup([1, 2]) == [1, 2];
  }

  lemma ExamplePages()
    ensures PageTrace(ExampleDocument(), 1) == [Occurrence(1, Indirect(7))]
    ensures PageTrace(ExampleDocument(), 2) == [Occurrence(2, Indirect(7))]
    ensures PageTrace(ExampleDocument(), 3) == [Occurrence(3, Indirect(12))]
  {
  }

  lemma ExampleTrace()
    ensures ValidPages(ExampleDocument(), [1, 2, 3])
    ensures Dedup([1, 2, 3]) == [1, 2, 3]
    ensures Trace(ExampleDocument(), [1, 2, 3]) ==
      [Occurrence(1, Indirect(7)), Occurrence(2, Indirect(7)), Occurrence(3, Indirect(12))]
  {
    var doc := ExampleDocument();
    ExampleDedup();
    ExamplePages();
    var ps := [1, 2, 3];
    assert ps[..2] == [1, 2] && [1, 2][..1] == [1] && [1][..0] == [];
    assert Trace(doc, [1]) == PageTrace(doc, 1);
    assert Trace(doc, [1, 2]) == PageTrace(doc, 1) + PageTrace(doc, 2);
  }

  lemma ExampleTraceScan()
    ensures ScanTrace(Empty(), ExampleDocument(),
              [Occurrence(1, Indirect(7)), Occurrence(2, Indirect(7)), Occurrence(3, Indirect(12))]).catalog ==
      map["Arial" := FontRecord("Arial", 1, 2, true), "Times-Roman" := FontRecord("Times-Roman", 3, 1, false)]
  {
    var doc := ExampleDocument();
    SubsetPrefixExamples();
    assert !HasSubsetTag("Times-Roman") by { assert "Times-Roman"[6] != '+'; }
    var o1, o2, o3 := Occurrence(1, Indirect(7)), Occurrence(2, Indirect(7)), Occurrence(3, Indirect(12));
    var t := [o1, o2, o3];
    var s1 := ScanEntry(Empty(), doc, o1);
    assert s1 == ScanState(map[7 := "Arial"], map["Arial" := FontRecord("Arial", 1, 1, true)]);
    var s2 := ScanEntry(s1, doc, o2);
    assert s2 == ScanState(map[7 := "Arial"], map["Arial" := FontRecord("Arial", 1, 2, true)]);
    var s3 := ScanEntry(s2, doc, o3);
    assert s3.catalog == map["Arial" := FontRecord("Arial", 1, 2, true), "Times-Roman" := FontRecord("Times-Roman", 3, 1, false)];
    assert t[..2] == [o1, o2] && [o1, o2][..1] == [o1] && [o1][..0] == [];
    assert ScanTrace(Empty(), doc, [o1]) == s1;
    assert ScanTrace(Empty(), doc, [o1, o2]) == s2;
    assert ScanTrace(Empty(), doc, t) == s3;
  }

  /** Scanning [1, 2, 3] finds Arial first on page 1 with two references and
      Times-Roman on page 3 with one. */
  lemma ExampleScenario()
    ensures ValidPages(ExampleDocument(), [1, 2, 3])
    ensures Scanned(ExampleDocument(), [1, 2, 3]).catalog ==
      map["Arial" := FontRecord("Arial", 1, 2, true), "Times-Roman" := FontRecord("Times-Roman", 3, 1, false)]
  {
    ExampleTrace();
    ScannedIsDedupScan(ExampleDocument(), [1, 2, 3]);
    ExampleTraceScan();
  }
}
