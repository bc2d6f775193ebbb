/**
 * The initial text direction chosen by the `Directionality` service
 * (src/cdk/bidi/directionality.ts): the `dir` of the document body, else the `dir`
 * of the root html element, read once at construction.
 */
module Bidi {
  import opened Wrappers
  import opened Strings

  /** The two directions the service can report. */
  datatype Direction = Ltr | Rtl

  /**
   * A DOM element, reduced to its `dir` property. A browser reflects the attribute as one of
   * "ltr", "rtl", "auto" or the empty string; the model admits any string, which covers
   * documents that do not normalise the attribute.
   */
  datatype Element = Element(dir: string)

  /** The injected document: `body` and `documentElement` may be missing. */
  datatype Document = Document(body: Option<Element>, documentElement: Option<Element>)

  /** The `dir` of an element that may be missing; `None` stands for `null`. */
  function DirOf(e: Option<Element>): (v: Option<string>)
  {
    match e
    case Some(el) => Some(el.dir)
    case None => None
  }

  /** The candidate value `bodyDir || htmlDir`. */
  function Candidate(doc: Document): (v: Option<string>)
    ensures TruthyText(DirOf(doc.body)) ==> v == DirOf(doc.body)
    ensures !TruthyText(DirOf(doc.body)) ==> v == DirOf(doc.documentElement)
  {
    var bodyDir := DirOf(doc.body);
    var htmlDir := DirOf(doc.documentElement);
    if TruthyText(bodyDir) then bodyDir else htmlDir
  }

  /** A `dir` string read as a direction: only the exact keywords count, anything else is `ltr`. */
  function Keyword(v: Option<string>): (d: Direction)
  {
    if v == Some("rtl") then Rtl else Ltr
  }

  /**
   * Independent reference: the service reports right-to-left exactly when the innermost of
   * body and html that declares a non-empty direction declares exactly "rtl".
   */
  predicate DeclaresRtl(doc: Document)
  {
    || (doc.body.Some? && doc.body.value.dir == "rtl")
    || (doc.body.Some? && doc.body.value.dir == "" && doc.documentElement.Some?
        && doc.documentElement.value.dir == "rtl")
    || (doc.body.None? && doc.documentElement.Some? && doc.documentElement.value.dir == "rtl")
  }

  /** The constructor's resolution of `value` from an optional document. */
  function ResolveDirection(document: Option<Document>): (d: Direction)
    ensures document.None? ==> d == Ltr
    ensures d == Rtl <==> document.Some? && DeclaresRtl(document.value)
  {
    match document
    case None => Ltr
    case Some(doc) =>
      var value := Candidate(doc);
      if value == Some("ltr") || value == Some("rtl") then Keyword(value) else Ltr
  }

  /** A non-empty body `dir` decides the direction; the html `dir` is not consulted. */
  lemma BodyDirWins(doc: Document, html: Option<Element>)
    requires doc.body.Some? && doc.body.value.dir != ""
    ensures ResolveDirection(Some(doc)) == ResolveDirection(Some(doc.(documentElement := html)))
    ensures ResolveDirection(Some(doc)) == Keyword(Some(doc.body.value.dir))
  {
  }

  /** A missing body, or a body with an empty `dir`, defers to the html element. */
  lemma EmptyBodyFallsBack(doc: Document)
    requires doc.body.None? || doc.body.value.dir == ""
    ensures ResolveDirection(Some(doc)) == Keyword(DirOf(doc.documentElement))
  {
  }

  /** Any candidate other than exactly "ltr" or "rtl" (such as "auto", or no `dir` at all) gives ltr. */
  lemma UnknownCandidateIsLtr(doc: Document)
    requires Candidate(doc) != Some("ltr") && Candidate(doc) != Some("rtl")
    ensures ResolveDirection(Some(doc)) == Ltr
  {
  }

  /** `dir="auto"` on the body hides `dir="rtl"` on the html element. */
  lemma AutoBodyShadowsRtlHtml()
    ensures ResolveDirection(Some(Document(Some(Element("auto")), Some(Element("rtl"))))) == Ltr
  {
  }
}
