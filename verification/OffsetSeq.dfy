/** What a deque of revisions means: a sequence whose indices never shift when its front is removed. */
module OffsetSeqs {
  import opened Wrappers

  datatype OffsetSeq<T> = OffsetSeq(start: nat, items: seq<T>) {

    function End(): nat { start + |items| }

    predicate Has(i: nat) { start <= i < End() }

    function At(i: nat): Option<T> { if Has(i) then Some(items[i - start]) else None }

    function Append(x: T): OffsetSeq<T> { OffsetSeq(start, items + [x]) }

    function Put(i: nat, x: T): OffsetSeq<T> { if Has(i) then OffsetSeq(start, items[i - start := x]) else this }

    predicate CanDrop(i: nat) { start <= i <= End() }

    function DropBefore(i: nat): OffsetSeq<T> { if CanDrop(i) then OffsetSeq(i, items[i - start..]) else this }
  }
}
