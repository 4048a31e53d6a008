/** The candidate filter and label pairing of `addLabelElements`, over an
    integer stand-in for the browser's bounding rectangles. */
module Visibility {
  import opened Wrappers
  import Labels

  /** A bounding rectangle in viewport coordinates; `right` and `bottom` are
      derived from the origin and the size, as a DOMRect's are. */
  datatype Rect = Rect(left: int, top: int, width: int, height: int) {
    function Right(): int { left + width }
    function Bottom(): int { top + height }
  }

  /** `window.innerWidth` and `window.innerHeight`. */
  datatype Viewport = Viewport(innerWidth: int, innerHeight: int)

  /** An element matched by the clickable selectors, in document order. */
  datatype Element = Element(id: nat, rect: Rect)

  /** A rendered label: its text (`undefined` past the end of the catalog) and
      the element it points at. */
  datatype LabelOverlay = LabelOverlay(labelText: Option<string>, element: Element)

  /** The six comparisons of the filter in `addLabelElements`. */
  predicate IsClickable(r: Rect, vp: Viewport)
    ensures IsClickable(r, vp) ==> 0 < r.width <= vp.innerWidth && 0 < r.height <= vp.innerHeight
  {
    && r.width > 0
    && r.height > 0
    && r.top >= 0
    && r.left >= 0
    && r.Bottom() <= vp.innerHeight
    && r.Right() <= vp.innerWidth
  }

  ghost predicate PointInRect(x: int, y: int, r: Rect)
  {
    r.left <= x <= r.Right() && r.top <= y <= r.Bottom()
  }

  ghost predicate PointInViewport(x: int, y: int, vp: Viewport)
  {
    0 <= x <= vp.innerWidth && 0 <= y <= vp.innerHeight
  }

  /** The filter keeps exactly the non-empty rectangles lying wholly inside the
      viewport: a partly visible element is dropped. */
  lemma ClickableIffInside(r: Rect, vp: Viewport)
    ensures IsClickable(r, vp) <==>
      && r.width > 0 && r.height > 0
      && forall x, y :: PointInRect(x, y, r) ==> PointInViewport(x, y, vp)
  {
    if r.width > 0 && r.height > 0 && forall x, y :: PointInRect(x, y, r) ==> PointInViewport(x, y, vp) {
      assert PointInRect(r.left, r.top, r);
      assert PointInRect(r.Right(), r.Bottom(), r);
    }
  }

  /** `elements.filter(...)`: the clickable candidates, in document order. */
  function ClickableElements(elements: seq<Element>, vp: Viewport): (r: seq<Element>)
    ensures |r| <= |elements|
    ensures forall e :: e in r <==> e in elements && IsClickable(e.rect, vp)
  {
    if elements == [] then []
    else
      var rest := ClickableElements(elements[1..], vp);
      assert forall e :: e in elements <==> e == elements[0] || e in elements[1..];
      if IsClickable(elements[0].rect, vp) then [elements[0]] + rest else rest
  }

  /** Filtering keeps relative order: it distributes over concatenation. */
  lemma {:induction false} ClickableAppend(a: seq<Element>, b: seq<Element>, vp: Viewport)
    ensures ClickableElements(a + b, vp) == ClickableElements(a, vp) + ClickableElements(b, vp)
  {
    if a == [] {
      assert a + b == b;
    } else {
      assert (a + b)[1..] == a[1..] + b;
      ClickableAppend(a[1..], b, vp);
    }
  }

  /** The `map((element, idx) => ...)` step: the i-th candidate gets `labels[i]`,
      or no text once the catalog runs out. */
  function PairLabels(elements: seq<Element>, labels: seq<string>): (r: seq<LabelOverlay>)
    ensures |r| == |elements|
    ensures forall i :: 0 <= i < |r| ==> r[i].element == elements[i]
  {
    seq(|elements|, i requires 0 <= i < |elements| =>
      LabelOverlay(if i < |labels| then Some(labels[i]) else None, elements[i]))
  }

  /** With the catalog as the label list, candidates up to the catalog's size
      get labels, in catalog order, and distinct candidates get distinct labels. */
  lemma PairLabelsInjective(elements: seq<Element>, k1: nat, k2: nat)
    requires k1 < |elements| && k2 < |elements|
    ensures k1 < Labels.CatalogSize ==> PairLabels(elements, Labels.Catalog())[k1].labelText == Some(Labels.Catalog()[k1])
    ensures k1 >= Labels.CatalogSize ==> PairLabels(elements, Labels.Catalog())[k1].labelText == None
    ensures k1 != k2 && k1 < Labels.CatalogSize && k2 < Labels.CatalogSize ==>
      PairLabels(elements, Labels.Catalog())[k1].labelText != PairLabels(elements, Labels.Catalog())[k2].labelText
  {
    if k1 < Labels.CatalogSize && k2 < Labels.CatalogSize {
      Labels.CatalogDistinct(k1, k2);
    }
  }
}
