/** The fixed frame-size catalog offered by the designer. Prices are in cents. */
module Catalog {
  import Decimal

  /** A catalog entry: dimensions in inches, price in cents. */
  datatype FrameSize = FrameSize(id: string, name: string, width: nat, height: nat, price: int)

  /** The eleven sizes, in the order the designer lists them. */
  const FrameSizes: seq<FrameSize> := [
    FrameSize("4x6", "4\" \U{00D7} 6\"", 4, 6, 1599),
    FrameSize("5x7", "5\" \U{00D7} 7\"", 5, 7, 1899),
    FrameSize("6x8", "6\" \U{00D7} 8\"", 6, 8, 2299),
    FrameSize("8x8", "8\" \U{00D7} 8\"", 8, 8, 2899),
    FrameSize("5x10", "5\" \U{00D7} 10\"", 5, 10, 2499),
    FrameSize("8x10", "8\" \U{00D7} 10\"", 8, 10, 3299),
    FrameSize("10x12", "10\" \U{00D7} 12\"", 10, 12, 4299),
    FrameSize("11x14", "11\" \U{00D7} 14\"", 11, 14, 4899),
    FrameSize("12x15", "12\" \U{00D7} 15\"", 12, 15, 5499),
    FrameSize("16x20", "16\" \U{00D7} 20\"", 16, 20, 6899),
    FrameSize("20x24", "20\" \U{00D7} 24\"", 20, 24, 8999)
  ]

  /** The id a size of the given dimensions is expected to carry, `"{width}x{height}"`. */
  function DimensionsId(width: nat, height: nat): string {
    Decimal.Render(width) + "x" + Decimal.Render(height)
  }

  /** The catalog has exactly eleven entries, with pairwise distinct ids. */
  lemma CatalogIdsDistinct()
    ensures |FrameSizes| == 11
    ensures forall i, j :: 0 <= i < j < |FrameSizes| ==> FrameSizes[i].id != FrameSizes[j].id
  {
  }

  /** Every id spells out the entry's own width and height. */
  lemma CatalogIdsMatchDimensions()
    ensures forall i :: 0 <= i < |FrameSizes| ==>
      FrameSizes[i].id == DimensionsId(FrameSizes[i].width, FrameSizes[i].height)
  {
  }

  /** Every dimension and price in the catalog is strictly positive. */
  lemma CatalogPositive()
    ensures forall f :: f in FrameSizes ==> f.width > 0 && f.height > 0 && f.price > 0
  {
  }

  /** The cheapest size is 4x6 at 15.99 and the dearest 20x24 at 89.99; 8x10 costs 32.99. */
  lemma CatalogPriceRange()
    ensures FrameSizes[0].id == "4x6" && FrameSizes[0].price == 1599
    ensures forall f :: f in FrameSizes ==> 1599 <= f.price
    ensures FrameSizes[10].id == "20x24" && FrameSizes[10].price == 8999
    ensures forall f :: f in FrameSizes ==> f.price <= 8999
    ensures FrameSizes[5].id == "8x10" && FrameSizes[5].price == 3299
  {
  }
}
