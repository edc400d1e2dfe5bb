/** What `renderMessageText` makes of each part of a split message (components/ChatInterface.tsx):
    a part in which the marker pattern matches and whose id names a catalog product becomes that
    product's card; every other part is shown as a text span holding the part verbatim. */
module Render {
  import opened Types
  import opened Text
  import opened Markers
  import Constants

  /** A piece of a rendered message. */
  datatype Segment = TextSpan(text: string) | ProductCard(product: Product)

  /** `catalog.find(p => p.id === id)`: the first product with that id. */
  function Find(catalog: seq<Product>, id: string): (r: Option<Product>)
    ensures r.Some? ==> r.value in catalog && r.value.id == id
    ensures r.None? <==> forall k :: 0 <= k < |catalog| ==> catalog[k].id != id
    ensures r.Some? ==> exists k :: 0 <= k < |catalog| && catalog[k] == r.value
                                   && forall j :: 0 <= j < k ==> catalog[j].id != id
    decreases |catalog|
  {
    if catalog == [] then None
    else if catalog[0].id == id then Some(catalog[0])
    else
      var r := Find(catalog[1..], id);
      assert forall k :: 1 <= k < |catalog| ==> catalog[k] == catalog[1..][k - 1];
      if r.Some? then
        var k :| 0 <= k < |catalog[1..]| && catalog[1..][k] == r.value
                 && forall j :: 0 <= j < k ==> catalog[1..][j].id != id;
        assert catalog[k + 1] == r.value;
        assert forall j :: 0 <= j < k + 1 ==> catalog[j].id != id;
        r
      else r
  }

  /** In a catalog with distinct ids, looking up a product's id finds that very product. */
  lemma FindById(catalog: seq<Product>, k: nat)
    requires Constants.DistinctIds(catalog) && k < |catalog|
    ensures Find(catalog, catalog[k].id) == Some(catalog[k])
  {
    // The first-match clause of `Find`'s contract carries this: no product before `k` has its id.
  }

  /** `part.match(/\[PRODUCT:([^\]]+)\]/)`, then its first group: the id of the leftmost marker in `part`. */
  function MatchId(part: string): (r: Option<string>)
    ensures r.None? <==> MarkerFree(part)
    ensures r.Some? ==> r.value != [] && ']' !in r.value
  {
    FindFromLeftmost(part, 0);
    match FindFrom(part, 0)
    case None =>
      NoMatchNoMarker(part, 0, |part|);
      assert part[0..|part|] == part;
      None
    case Some(span) =>
      var m := part[span.start..span.end];
      IdOfMarker(m);
      Some(MarkerId(m))
  }

  /** A part that is a single marker yields the marker's own id. */
  lemma MatchIdOfMarker(m: string)
    requires IsMarker(m)
    ensures MatchId(m) == Some(MarkerId(m))
  {
    assert m[0..|m|] == m;
    MatchAtComplete(m, 0, |m|);
  }

  /** The segment for one part of the split text. */
  function RenderPart(part: string, catalog: seq<Product>): (segment: Segment)
    ensures segment.TextSpan? ==> segment.text == part
    ensures segment.ProductCard? ==>
      segment.product in catalog && MatchId(part) == Some(segment.product.id)
    ensures MarkerFree(part) ==> segment == TextSpan(part)
    ensures MatchId(part).Some? && Find(catalog, MatchId(part).value).Some? ==>
      segment == ProductCard(Find(catalog, MatchId(part).value).value)
    ensures MatchId(part).Some? && Find(catalog, MatchId(part).value).None? ==> segment == TextSpan(part)
  {
    match MatchId(part)
    case Some(id) =>
      (match Find(catalog, id)
       case Some(p) => ProductCard(p)
       case None => TextSpan(part))
    case None => TextSpan(part)
  }

  /** `renderMessageText(text)` against a catalog: one segment per part of the split. */
  function RenderText(text: string, catalog: seq<Product>): (segments: seq<Segment>)
    ensures |segments| == |Split(text)|
  {
    var parts := Split(text);
    seq(|parts|, k requires 0 <= k < |parts| => RenderPart(parts[k], catalog))
  }

  /** The text a segment stands for: a span's own text, or the marker of the product on a card. */
  function SourceText(segment: Segment): string {
    match segment
    case TextSpan(t) => t
    case ProductCard(p) => MarkerOf(p.id)
  }

  /** What each segment is: plain parts are shown verbatim; a marker becomes the card of the product
      its id names, and a marker whose id names no product is shown as its literal text. */
  lemma RenderedSegment(text: string, catalog: seq<Product>, k: nat)
    requires k < |Split(text)|
    ensures var part := Split(text)[k];
      var segment := RenderText(text, catalog)[k];
      if k % 2 == 0 then segment == TextSpan(part)
      else (IsMarker(part) &&
            match Find(catalog, MarkerId(part))
            case Some(p) => segment == ProductCard(p) && p.id == MarkerId(part)
            case None => segment == TextSpan(part))
  {
    var part := Split(text)[k];
    SplitAlternates(text);
    if k % 2 == 1 {
      MatchIdOfMarker(part);
    }
  }

  /** The source texts of a segment sequence, in order. */
  function SourceTexts(segments: seq<Segment>): (texts: seq<string>)
    ensures |texts| == |segments|
  {
    seq(|segments|, k requires 0 <= k < |segments| => SourceText(segments[k]))
  }

  /** Each segment stands for exactly the part it was made from. */
  lemma SegmentStandsForPart(text: string, catalog: seq<Product>, k: nat)
    requires k < |Split(text)|
    ensures SourceText(RenderText(text, catalog)[k]) == Split(text)[k]
  {
    RenderedSegment(text, catalog, k);
    if k % 2 == 1 {
      IdOfMarker(Split(text)[k]);
    }
  }

  /** Rendering loses nothing: the text the segments stand for, in order, is the message text,
      whatever the catalog holds. */
  lemma RenderLossless(text: string, catalog: seq<Product>)
    ensures Concat(SourceTexts(RenderText(text, catalog))) == text
  {
    var parts := Split(text);
    var texts := SourceTexts(RenderText(text, catalog));
    forall k | 0 <= k < |parts| ensures texts[k] == parts[k] {
      SegmentStandsForPart(text, catalog, k);
    }
    assert texts == parts;
    SplitLossless(text);
  }

  /** A message that is exactly the marker of a catalog product renders as that product's card,
      between two empty text spans. */
  lemma RenderCatalogMarker(catalog: seq<Product>, k: nat)
    requires Constants.DistinctIds(catalog) && k < |catalog|
    requires catalog[k].id != [] && ']' !in catalog[k].id
    ensures RenderText(MarkerOf(catalog[k].id), catalog)
         == [TextSpan(""), ProductCard(catalog[k]), TextSpan("")]
  {
    var m := MarkerOf(catalog[k].id);
    MarkerOfId(catalog[k].id);
    SplitMarker(m);
    MatchIdOfMarker(m);
    FindById(catalog, k);
    assert MatchId("") == None by {
      assert FindFrom("", 0) == None;
    }
  }

  /** Text without `[PRODUCT:` renders as a single span holding the whole text. */
  lemma RenderWithoutOpen(text: string, catalog: seq<Product>)
    requires !ContainsOpen(text)
    ensures RenderText(text, catalog) == [TextSpan(text)]
  {
    SplitWithoutOpen(text);
    RenderedSegment(text, catalog, 0);
  }

  /** Every product of the storefront's catalog, mentioned by its marker, renders as its card. */
  lemma RenderStorefrontMarker(k: nat)
    requires k < |Constants.Products|
    ensures RenderText(MarkerOf(Constants.Products[k].id), Constants.Products)
         == [TextSpan(""), ProductCard(Constants.Products[k]), TextSpan("")]
  {
    Constants.CatalogIdsDistinct();
    Constants.CatalogProductsWellFormed();
    assert Constants.WellFormedProduct(Constants.Products[k]);
    RenderCatalogMarker(Constants.Products, k);
  }
}
