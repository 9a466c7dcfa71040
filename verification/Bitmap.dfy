/** What the bitmap parsers answer with. */
module Bitmap {
  /** The codes of BitmapInspectionError the parsers raise. */
  datatype BitmapFault = StructureInvalid | DecodedSizeExceeded | DimensionsMissing

  /** Width and height. */
  type Size = (nat, nat)
}
