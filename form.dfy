/** The font inventory as the document-font-list form keeps it: two
    dictionaries updated in place, the per-page scanner that fills them and
    the worker loop that runs the scanner over a page sequence. */
module DocumentFontList {
  import opened PdfModel
  import opened FontInventory

  /** One distinct font of the inventory. Name and first page never change
      once the object exists; the reference count only goes up. */
  class PageFont {
    const Name: string
    const FirstPage: int
    /** Written only by IncrementReference (the property's setter is private). */
    var Reference: int
    var Embedded: bool

    constructor (name: string, firstPage: int, embedded: bool)
      ensures Name == name && FirstPage == firstPage && Embedded == embedded
      ensures Reference == 1
    {
      Name := name;
      FirstPage := firstPage;
      Embedded := embedded;
      Reference := 1;
    }

    method IncrementReference()
      modifies this`Reference
      ensures Reference == old(Reference) + 1
    {
      Reference := Reference + 1;
    }

    /** The record this object stands for now. */
    function Snapshot(): FontRecord
      reads this
    {
      FontRecord(Name, FirstPage, Reference, Embedded)
    }
  }

  /** Whether cancellation is pending at the `k`-th poll of a run (polls past the end of `polls` say no). */
  predicate Polled(polls: seq<bool>, k: int) {
    0 <= k < |polls| && polls[k]
  }

  /** How many of `n` sequence elements a run reaches: it stops at the first poll that finds cancellation pending. */
  function CancelPoint(polls: seq<bool>, n: nat): (k: nat)
    ensures k <= n
    ensures forall j :: 0 <= j < k ==> !Polled(polls, j)
    ensures k < n ==> Polled(polls, k)
  {
    if n == 0 then 0
    else
      var k := CancelPoint(polls, n - 1);
      if k < n - 1 then k
      else if Polled(polls, n - 1) then n - 1
      else n
  }

  /** The progress values reported for the first `k` sequence elements: 1, 2, ..., k. */
  function Ticks(k: nat): seq<int> {
    seq(k, j => j + 1)
  }

  /** A run that reached element `k` and finds cancellation pending there stops at `k`. */
  lemma {:induction false} CancelPointAt(polls: seq<bool>, n: nat, k: nat)
    requires k < n && CancelPoint(polls, k) == k && Polled(polls, k)
    ensures CancelPoint(polls, n) == k
    decreases n
  {
    if n > k + 1 {
      CancelPointAt(polls, n - 1, k);
    }
  }

  lemma TicksStep(k: nat)
    ensures Ticks(k + 1) == Ticks(k) + [k + 1]
  {
  }

  /** The visited array marks exactly the page numbers of `prefix`. */
  ghost predicate Visited(pp: array<int>, prefix: seq<int>)
    reads pp
  {
    forall q :: 0 <= q < pp.Length ==> (pp[q] != 0 <==> q in prefix)
  }

  class DocumentFontListForm {
    /** The resolution cache: object number to canonical font name. */
    var fontIdNames: map<int, string>
    /** The catalog: canonical font name to its record. */
    var pageFonts: map<string, PageFont>

    /** Every cached name has a record, and every record is filed under its
        own name (so distinct names never share a record object). */
    ghost predicate Valid()
      reads this, pageFonts.Values
    {
      && (forall n :: n in fontIdNames ==> fontIdNames[n] in pageFonts)
      && (forall k :: k in pageFonts ==> pageFonts[k].Name == k)
    }

    /** The two dictionaries as a value. */
    ghost function State(): ScanState
      reads this, pageFonts.Values
    {
      ScanState(fontIdNames, map k | k in pageFonts :: pageFonts[k].Snapshot())
    }

    constructor ()
      ensures Valid() && State() == Empty()
    {
      fontIdNames := map[];
      pageFonts := map[];
    }

    /** Adds the fonts of page `pageNumber` to the inventory. Records already
        in the catalog stay the same objects; new ones are freshly made. */
    method GetPageFonts(doc: Document, pageNumber: int)
      requires Valid() && ValidPage(doc, pageNumber)
      modifies this, pageFonts.Values
      ensures Valid()
      ensures State() == ScanPage(old(State()), doc, pageNumber)
      ensures forall k :: k in old(pageFonts) ==> k in pageFonts && pageFonts[k] == old(pageFonts[k])
      ensures forall k :: k in pageFonts ==> pageFonts[k] in old(pageFonts.Values) || fresh(pageFonts[k])
    {
      var fl := FontDictionary(doc, pageNumber);
      if fl.None? {
        return;
      }
      var entries := fl.value;
      ghost var start := State();
      ghost var t := PageTrace(doc, pageNumber);
      for j := 0 to |entries|
        invariant Valid()
        invariant State() == ScanTrace(start, doc, t[..j])
        invariant forall k :: k in old(pageFonts) ==> k in pageFonts && pageFonts[k] == old(pageFonts[k])
        invariant forall k :: k in pageFonts ==> pageFonts[k] in old(pageFonts.Values) || fresh(pageFonts[k])
      {
        assert t[..j + 1][..j] == t[..j] && t[j] == Occurrence(pageNumber, entries[j]);
        AddEntry(doc, pageNumber, entries[j]);
      }
      assert t[..|entries|] == t;
    }

    /** One iteration of the scanner's loop over the font dictionary of page
        `pageNumber`: `item` is the value of one dictionary entry. */
    method AddEntry(doc: Document, pageNumber: int, item: FontEntry)
      requires Valid()
      modifies this, pageFonts.Values
      ensures Valid()
      ensures State() == ScanEntry(old(State()), doc, Occurrence(pageNumber, item))
      ensures forall k :: k in old(pageFonts) ==> k in pageFonts && pageFonts[k] == old(pageFonts[k])
      ensures forall k :: k in pageFonts ==> pageFonts[k] in old(pageFonts.Values) || fresh(pageFonts[k])
    {
      if item.Direct? {
        return;
      }
      var n := item.objNum;
      if n in fontIdNames {
        ghost var before := State();
        var fn := fontIdNames[n];
        assert ScanEntry(before, doc, Occurrence(pageNumber, item)) ==
          before.(catalog := before.catalog[fn := before.catalog[fn].Bumped()]);
        Bump(fn);
        return;
      }
      AddUncached(doc, pageNumber, n);
    }

    /** The cache-miss path for object number `n`: resolve it and, when it is
        a font dictionary with /BaseFont, cache its canonical name and bump or
        create the record. */
    method AddUncached(doc: Document, pageNumber: int, n: int)
      requires Valid() && n !in fontIdNames
      modifies this, pageFonts.Values
      ensures Valid()
      ensures State() == ScanEntry(old(State()), doc, Occurrence(pageNumber, Indirect(n)))
      ensures forall k :: k in old(pageFonts) ==> k in pageFonts && pageFonts[k] == old(pageFonts[k])
      ensures forall k :: k in pageFonts ==> pageFonts[k] in old(pageFonts.Values) || fresh(pageFonts[k])
    {
      ghost var before := State();
      ghost var o := Occurrence(pageNumber, Indirect(n));
      var f := ObjectAt(doc, n);
      if f.NonDict? || f.baseFont.None? {
        return;
      }
      var fn := RemoveSubsetPrefix(f.baseFont.value);
      fontIdNames := fontIdNames[n := fn];
      assert State() == before.(cache := before.cache[n := fn]);
      if fn in pageFonts {
        assert ScanEntry(before, doc, o) ==
          ScanState(before.cache[n := fn], before.catalog[fn := before.catalog[fn].Bumped()]);
        Bump(fn);
        return;
      }
      assert ScanEntry(before, doc, o) ==
        ScanState(before.cache[n := fn], before.catalog[fn := FontRecord(fn, pageNumber, 1, f.embedded)]);
      AddFont(fn, pageNumber, f.embedded);
    }

    /** Files a new record for `fn`, which has none yet, with one reference. */
    method AddFont(fn: string, firstPage: int, embedded: bool)
      requires fn !in pageFonts
      requires forall n :: n in fontIdNames ==> fontIdNames[n] in pageFonts || fontIdNames[n] == fn
      requires forall k :: k in pageFonts ==> pageFonts[k].Name == k
      modifies this`pageFonts
      ensures Valid()
      ensures State() == old(State()).(catalog := old(State()).catalog[fn := FontRecord(fn, firstPage, 1, embedded)])
      ensures fn in pageFonts && fresh(pageFonts[fn]) && pageFonts == old(pageFonts)[fn := pageFonts[fn]]
    {
      ghost var before := State();
      var pf := new PageFont(fn, firstPage, embedded);
      pageFonts := pageFonts[fn := pf];
      assert State().catalog == before.catalog[fn := FontRecord(fn, firstPage, 1, embedded)];
    }

    /** Increments the reference count of the record filed under `fn`. */
    method Bump(fn: string)
      requires Valid() && fn in pageFonts
      modifies pageFonts[fn]
      ensures Valid()
      ensures State() == old(State()).(catalog := old(State()).catalog[fn := old(State()).catalog[fn].Bumped()])
    {
      ghost var before := State();
      pageFonts[fn].IncrementReference();
      assert forall k :: k in pageFonts && k != fn ==> pageFonts[k] != pageFonts[fn];
      assert State().catalog == before.catalog[fn := before.catalog[fn].Bumped()];
    }

    /** One run of the background worker over the page sequence `pages`. Both
        dictionaries start empty; before each sequence element cancellation is
        polled (`polls`), then the progress counter is bumped, and the page is
        scanned unless it was scanned already in this run. `progress` is what
        the run reports: the negated page total, then the counter after each
        element. */
    method DoWork(doc: Document, pages: seq<int>, polls: seq<bool>)
      returns (progress: seq<int>, cancelled: bool)
      requires ValidPages(doc, pages)
      modifies this
      ensures Valid()
      ensures var k := CancelPoint(polls, |pages|);
        && cancelled == (k < |pages|)
        && progress == [-|pages|] + Ticks(k)
        && State() == Scanned(doc, pages[..k])
    {
      fontIdNames := map[];
      pageFonts := map[];
      var pp := new int[doc.NumberOfPages() + 1](_ => 0);
      progress := [-|pages|];
      cancelled := false;
      var i := 0;
      var k := 0;
      while k < |pages|
        invariant 0 <= k <= |pages|
        invariant Valid()
        invariant forall o :: o in pageFonts.Values ==> fresh(o)
        invariant i == k && progress == [-|pages|] + Ticks(k)
        invariant CancelPoint(polls, k) == k
        invariant cancelled ==> Polled(polls, k)
        invariant Visited(pp, pages[..k])
        invariant State() == Scanned(doc, pages[..k])
      {
        if Polled(polls, k) {
          cancelled := true;
          break;
        }
        i := i + 1;
        progress := progress + [i];
        TicksStep(k);
        ghost var before := State();
        var scanned := VisitPage(doc, pp, pages[k], pages[..k]);
        RunElement(doc, pages, k, before, State(), scanned);
        k := k + 1;
      }
      if cancelled {
        CancelPointAt(polls, |pages|, k);
      } else {
        assert pages[..|pages|] == pages;
      }
    }

    /** The visited check for one sequence element: page `page` is marked in
        `pp` and scanned, unless `pp` marks it already. */
    method VisitPage(doc: Document, pp: array<int>, page: int, ghost prefix: seq<int>) returns (scanned: bool)
      requires Valid() && ValidPage(doc, page)
      requires pp.Length == doc.NumberOfPages() + 1 && Visited(pp, prefix)
      modifies this, pageFonts.Values, pp
      ensures Valid()
      ensures scanned == (page !in prefix)
      ensures Visited(pp, prefix + [page])
      ensures State() == if scanned then ScanPage(old(State()), doc, page) else old(State())
      ensures forall o :: o in pageFonts.Values ==> o in old(pageFonts.Values) || fresh(o)
    {
      if pp[page] != 0 {
        return false;
      }
      pp[page] := 1;
      GetPageFonts(doc, page);
      return true;
    }
  }
}
