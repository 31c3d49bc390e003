/** The bloomMaster's handling of the X-Set filter (client_proxy/bloom_master.go). */
module XBloom {
  import opened Bytes
  import opened Collections

  /** The X-Set part of a bloomMaster. `closes` counts how often xFilterFinished was closed; a second
      close, a second close of xSetReady, or an add into a missing filter crash the process. A filter
      is the set of elements added to it: Bloom filters have no false negatives. */
  datatype XState = XState(filter: Option<set<Bytes>>, finalSize: nat, added: nat, closes: nat, crashed: bool)

  const EMPTY := XState(None, 0, 0, 0, false)

  function HandleInit(b: XState, n: nat): XState {
    b.(filter := Some({}), finalSize := n, crashed := b.crashed || b.filter.Some?)
  }

  /** The counter is 32 bits wide, and so is the comparison with the final size. */
  function HandleAdd(b: XState, tags: seq<Bytes>): XState {
    if b.filter.None? && tags != [] then b.(crashed := true)
    else
      var added := (b.added + |tags|) % TWO32;
      var full := added == b.finalSize % TWO32;
      b.(filter := if b.filter.Some? then Some(b.filter.value + Elements(tags)) else None,
         added := added,
         closes := b.closes + if full then 1 else 0,
         crashed := b.crashed || (full && b.closes > 0))
  }

  class BloomMaster {
    var xSetFilter: Option<set<Bytes>>
    var xFinalSize: nat
    var xNumAddedElements: UInt32
    var finishedCloses: nat
    var crashed: bool

    function State(): XState
      reads this
    {
      XState(xSetFilter, xFinalSize, xNumAddedElements, finishedCloses, crashed)
    }

    constructor ()
      ensures State() == EMPTY
    {
      xSetFilter, xFinalSize, xNumAddedElements, finishedCloses, crashed := None, 0, 0, 0, false;
    }

    method HandleXSetInit(numElements: nat)
      modifies this
      ensures State() == HandleInit(old(State()), numElements)
      ensures xSetFilter == Some({}) && xFinalSize == numElements
      ensures crashed == (old(crashed) || old(xSetFilter).Some?)
      ensures xNumAddedElements == old(xNumAddedElements) && finishedCloses == old(finishedCloses)
    {
      // close(b.xSetReady): a second one crashes.
      crashed := crashed || xSetFilter.Some?;
      xSetFilter := Some({});
      xFinalSize := numElements;
    }

    method HandleXSetAdd(xTags: seq<Bytes>)
      modifies this
      ensures State() == HandleAdd(old(State()), xTags)
      ensures xFinalSize == old(xFinalSize)
      ensures old(xSetFilter).None? && xTags != [] ==>
                crashed && xSetFilter.None? && finishedCloses == old(finishedCloses)
      ensures old(xSetFilter).Some? ==>
                xSetFilter.Some? && forall t :: t in xSetFilter.value <==> t in old(xSetFilter).value || t in xTags
      ensures old(xSetFilter).Some? || xTags == [] ==>
                && xNumAddedElements == (old(xNumAddedElements) + |xTags|) % 0x1_0000_0000
                && (var full := xNumAddedElements == xFinalSize % 0x1_0000_0000;
                    && finishedCloses == old(finishedCloses) + (if full then 1 else 0)
                    && crashed == (old(crashed) || (full && old(finishedCloses) > 0)))
    {
      if xSetFilter.None? && xTags != [] {
        crashed := true;
        return;
      }
      var i := 0;
      while i < |xTags|
        invariant 0 <= i <= |xTags|
        invariant xSetFilter.Some? == old(xSetFilter.Some?)
        invariant xSetFilter.Some? ==> xSetFilter.value == old(xSetFilter.value) + Elements(xTags[..i])
        invariant xNumAddedElements == (old(xNumAddedElements) + i) % TWO32
        invariant xFinalSize == old(xFinalSize) && finishedCloses == old(finishedCloses) && crashed == old(crashed)
      {
        ElementsSnoc(xTags, i);
        xSetFilter := Some(xSetFilter.value + {xTags[i]});
        xNumAddedElements := (xNumAddedElements + 1) % TWO32;
        i := i + 1;
      }
      assert xTags[..i] == xTags;
      if xNumAddedElements == xFinalSize % TWO32 {
        crashed := crashed || finishedCloses > 0;
        finishedCloses := finishedCloses + 1;
      }
    }
  }
}
