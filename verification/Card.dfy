/** The raw memory card: pages are read singly, and written only after an erase of their block. */
module CardDevice {
  import opened Arithmetic
  import opened Bytes

  function Erased(pageLen: nat): (p: Page)
    ensures |p| == pageLen
  {
    seq(pageLen, _ => 0xFF)
  }

  class Card {
    const pageLen: nat
    const pagesPerBlock: nat
    var flash: seq<Page>

    ghost predicate Valid()
      reads this
    {
      0 < pageLen && 0 < pagesPerBlock && AllLen(flash, pageLen)
    }

    method McReadPage(page: nat) returns (buffer: Page)
      requires page < |flash|
      ensures buffer == flash[page]
    {
      buffer := flash[page];
    }

    method McEraseBlock2(block: nat)
      requires Valid() && Times(block, pagesPerBlock) + pagesPerBlock <= |flash|
      modifies this
      ensures Valid() && |flash| == |old(flash)|
      ensures forall p :: 0 <= p < |flash| ==>
                            flash[p] == if Times(block, pagesPerBlock) <= p < Times(block, pagesPerBlock) + pagesPerBlock then Erased(pageLen) else old(flash)[p]
    {
      var first := Times(block, pagesPerBlock);
      flash := flash[..first] + seq(pagesPerBlock, _ => Erased(pageLen)) + flash[first + pagesPerBlock..];
    }

    /** Programming flash can only be relied on for a page that has been erased. */
    method McWritePage(page: nat, buffer: Page)
      requires Valid() && page < |flash| && |buffer| == pageLen
      requires flash[page] == Erased(pageLen)
      modifies this
      ensures Valid() && flash == old(flash)[page := buffer]
    {
      flash := flash[page := buffer];
    }
  }
}
