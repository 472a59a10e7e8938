/** The parts of a PDF document that the font inventory reads, seen abstractly:
    the /Resources/Font dictionary of each page and the indirect-object table. */
module PdfModel {

  datatype Option<+T> = None | Some(value: T)

  /** One value of a page's /Resources/Font dictionary: an indirect reference
      to a font object, or anything else (an inline or malformed value). */
  datatype FontEntry = Indirect(objNum: int) | Direct

  /** What resolving an indirect reference yields. For a dictionary,
      `baseFont` is its /BaseFont name already decoded with the configured
      font-name encoding (None when the key is absent or not a name), and
      `embedded` is what the embedded-font-program test reports for it. */
  datatype PdfObject = NonDict | Dict(baseFont: Option<string>, embedded: bool)

  /** `fontDicts[p - 1]` is the /Resources/Font dictionary of page p, its values
      in enumeration order (None when the page has no /Resources or no /Font
      dictionary); `objects` is the indirect-object table by object number. */
  datatype Document = Document(fontDicts: seq<Option<seq<FontEntry>>>, objects: map<int, PdfObject>)
  {
    function NumberOfPages(): nat { |fontDicts| }
  }

  predicate ValidPage(doc: Document, p: int) {
    1 <= p <= doc.NumberOfPages()
  }

  /** What the page-range parser is asked to produce: every page number in 1..NumberOfPages. */
  predicate ValidPages(doc: Document, ps: seq<int>) {
    forall k :: 0 <= k < |ps| ==> ValidPage(doc, ps[k])
  }

  /** The /Resources/Font dictionary of page `p`, if there is one. */
  function FontDictionary(doc: Document, p: int): Option<seq<FontEntry>>
    requires ValidPage(doc, p)
  {
    doc.fontDicts[p - 1]
  }

  /** Resolves an object number; a number with no object behind it is not a dictionary. */
  function ObjectAt(doc: Document, n: int): PdfObject {
    if n in doc.objects then doc.objects[n] else NonDict
  }

  /** The subset tag of section 9.6.4 of ISO 32000-1: six upper-case letters followed by '+'. */
  predicate HasSubsetTag(name: string) {
    |name| >= 7 && name[6] == '+' && forall i :: 0 <= i < 6 ==> 'A' <= name[i] <= 'Z'
  }

  /** The canonical font name: the base-font name without its subset tag. */
  function RemoveSubsetPrefix(name: string): (r: string)
    ensures r == name <==> !HasSubsetTag(name)
    ensures HasSubsetTag(name) ==> name == name[..7] + r
  {
    if HasSubsetTag(name) then name[7..] else name
  }

  lemma SubsetPrefixExamples()
    ensures RemoveSubsetPrefix("ABCDEF+Helvetica") == "Helvetica"
    ensures RemoveSubsetPrefix("BCDEFG+Arial") == "Arial"
    ensures RemoveSubsetPrefix("Helvetica") == "Helvetica"
    ensures RemoveSubsetPrefix("Helvetica-Bold") == "Helvetica-Bold"
    ensures RemoveSubsetPrefix("ABCDEf+Helvetica") == "ABCDEf+Helvetica"
  {
    assert HasSubsetTag("ABCDEF+Helvetica");
    assert "ABCDEF+Helvetica"[7..] == "Helvetica";
    assert HasSubsetTag("BCDEFG+Arial");
    assert "BCDEFG+Arial"[7..] == "Arial";
    assert !HasSubsetTag("Helvetica-Bold") by { assert "Helvetica-Bold"[6] != '+'; }
    assert !HasSubsetTag("ABCDEf+Helvetica") by { assert !('A' <= "ABCDEf+Helvetica"[5] <= 'Z'); }
  }

  /** The canonical name an entry resolves to: None for an entry that is not an
      indirect reference, resolves to a non-dictionary, or lacks /BaseFont. */
  function Resolve(doc: Document, e: FontEntry): Option<string> {
    if e.Direct? then None
    else
      var f := ObjectAt(doc, e.objNum);
      if f.NonDict? || f.baseFont.None? then None
      else Some(RemoveSubsetPrefix(f.baseFont.value))
  }

  /** Whether the object an entry refers to carries an embedded font program. */
  function EmbeddedOf(doc: Document, e: FontEntry): bool {
    e.Indirect? && ObjectAt(doc, e.objNum).Dict? && ObjectAt(doc, e.objNum).embedded
  }
}
