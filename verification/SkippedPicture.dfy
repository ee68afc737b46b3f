/** What the encoder library keeps of a skipped picture. */
module SkippedPictures {
  import opened Bits

  class SkippedPicture {
    const pData: array?<Byte>
    const iBufSize: nat
    const uTileSizes: array<nat>
    var iNumBits: int
    var iNumBins: int
    var iNumTiles: int

    constructor (data: array?<Byte>, size: nat, sizes: array<nat>)
      requires data != null ==> size <= data.Length
      ensures pData == data && iBufSize == size && uTileSizes == sizes
    {
      pData := data;
      iBufSize := size;
      uTileSizes := sizes;
    }
  }
}
