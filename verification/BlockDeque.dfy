/** The blocked, append-only deque that holds the store's revisions, refining an offset sequence. */
module BlockDeques {
  import opened Wrappers
  import opened BlockLayout
  import opened OffsetSeqs

  /** The window of filled slots. */
  function Filled<T>(items: seq<T>): (r: seq<Option<T>>)
    ensures |r| == |items|
    ensures forall i :: 0 <= i < |items| ==> r[i] == Some(items[i])
  {
    seq(|items|, i requires 0 <= i < |items| => Some(items[i]))
  }

  /** What the blocks hold. */
  ghost function Contents<T>(blocks: seq<array<Option<T>>>): seq<seq<Option<T>>>
    reads blocks
  {
    seq(|blocks|, j requires 0 <= j < |blocks| reads blocks => blocks[j][..])
  }

  class BlockDeque<T> {
    const blockSize: nat
    var blocks: seq<array<Option<T>>>
    var startOffset: nat
    var length: nat
    /** The elements at startOffset, startOffset + 1, ... */
    ghost var items: seq<T>
    /** Where the first block begins. */
    ghost var base: nat

    ghost function Cells(): seq<seq<Option<T>>>
      reads this`blocks, blocks
    {
      Contents(blocks)
    }

    ghost predicate Owned()
      reads this
    {
      && blockSize > 0 && length == |items|
      && (forall j :: 0 <= j < |blocks| ==> blocks[j].Length == blockSize)
      && (forall i, j :: 0 <= i < j < |blocks| ==> blocks[i] != blocks[j])
    }

    ghost predicate Valid()
      reads this, blocks
    {
      && Owned() && base == Base(blockSize, startOffset)
      && Laid(Cells(), blockSize, base, startOffset, Filled(items))
      && startOffset + length <= Top(blockSize, base, |blocks|) < startOffset + length + blockSize
    }

    /** The offset sequence that the deque stands for. */
    ghost function View(): OffsetSeq<T>
      reads this
    {
      OffsetSeq(startOffset, items)
    }

    /** The number of blocks is exactly what the window spans. */
    lemma ExactBlockCount()
      requires Valid()
      ensures |blocks| == (startOffset + length + blockSize - 1) / blockSize - startOffset / blockSize
    {
      BlockCount(blockSize, startOffset, startOffset + length, |blocks|);
    }

    constructor (blockSize: nat)
      requires blockSize > 0
      ensures Valid() && this.blockSize == blockSize && View() == OffsetSeq(0, [])
    {
      this.blockSize := blockSize;
      blocks := [];
      startOffset, length := 0, 0;
      items := [];
      base := 0;
    }

    // -------------------------------------------------------------- single cells and blocks

    /** Stores into one cell; on values this is a sequence update. */
    method Store(j: nat, o: nat, x: Option<T>)
      requires Owned() && j < |blocks| && o < blockSize
      modifies blocks[j]
      ensures Owned() && Cells() == old(Cells())[j := old(Cells())[j][o := x]]
    {
      blocks[j][o] := x;
      assert forall i :: 0 <= i < |blocks| && i != j ==> blocks[i] != blocks[j];
    }

    /** Appends one cleared block. */
    method Allocate()
      requires Owned()
      modifies this`blocks
      ensures Owned() && |blocks| == |old(blocks)| + 1 && blocks[..|old(blocks)|] == old(blocks)
      ensures fresh(blocks[|old(blocks)|])
      ensures Cells() == old(Cells()) + [Empty(blockSize)]
    {
      var block := new Option<T>[blockSize](_ => None);
      assert block[..] == Empty(blockSize);
      blocks := blocks + [block];
    }

    /** Clears the offsets from `lo` up to `hi` of the first block. */
    method Clear(lo: nat, hi: nat)
      requires Owned() && 0 < |blocks| && lo <= hi <= blockSize
      modifies blocks[0]
      ensures Owned() && |Cells()| == |old(Cells())|
      ensures Cells() == [Cleared(old(Cells())[0], lo, hi)] + old(Cells())[1..]
    {
      var block := blocks[0];
      forall o | lo <= o < hi {
        block[o] := None;
      }
      assert block[..] == Cleared(old(Cells())[0], lo, hi);
      forall j | 0 < j < |blocks| ensures Cells()[j] == old(Cells())[j] {
        assert blocks[j] != blocks[0];
        assert blocks[j][..] == old(blocks[j][..]);
      }
    }

    /** The block and the offset of an index. */
    method BlockOf(index: nat) returns (blockIndex: nat, offset: nat)
      requires Owned() && base == Base(blockSize, startOffset) && startOffset <= index
      ensures offset < blockSize && Position(blockSize, base, blockIndex, offset) == index
      ensures blockIndex < |blocks| <==> index < Top(blockSize, base, |blocks|)
      ensures blockIndex <= |blocks| <==> index < Top(blockSize, base, |blocks|) + blockSize
    {
      Locate(blockSize, startOffset, index, |blocks|);
      Locate(blockSize, startOffset, index, |blocks| + 1);
      blockIndex := index / blockSize - startOffset / blockSize;
      offset := index % blockSize;
    }

    // -------------------------------------------------------------- push

    /** Allocates until block `blockIndex` is there. */
    method Reach(blockIndex: nat)
      requires Owned() && blockIndex == |blocks|
      modifies this`blocks
      ensures Owned() && |blocks| == |old(blocks)| + 1 && blocks[..|old(blocks)|] == old(blocks)
      ensures fresh(blocks[|old(blocks)|])
      ensures Cells() == old(Cells()) + [Empty(blockSize)]
    {
      while blockIndex >= |blocks|
        invariant Owned()
        invariant blocks == old(blocks) ||
                  (|blocks| == |old(blocks)| + 1 && blocks[..|old(blocks)|] == old(blocks) &&
                   fresh(blocks[|old(blocks)|]) && Cells() == old(Cells()) + [Empty(blockSize)])
      {
        Allocate();
      }
    }

    /** Puts the reserved last element into its block. */
    method Fill(blockIndex: nat, offset: nat, value: T)
      requires Owned() && Laid(Cells(), blockSize, base, startOffset, Filled(items))
      requires blockIndex < |blocks| && offset < blockSize
      requires Position(blockSize, base, blockIndex, offset) == startOffset + length
      modifies this`length, this`items, blocks
      ensures Owned() && Laid(Cells(), blockSize, base, startOffset, Filled(items))
      ensures items == old(items) + [value]
    {
      PushLaid(Cells(), blockSize, base, startOffset, items, blockIndex, offset, value);
      length := length + 1;
      items := items + [value];
      Store(blockIndex, offset, Some(value));
    }

    /** The element's block is not there yet. */
    method PushSlow(blockIndex: nat, offset: nat, value: T)
      requires Owned() && Laid(Cells(), blockSize, base, startOffset, Filled(items))
      requires startOffset + length == Top(blockSize, base, |blocks|)
      requires blockIndex == |blocks| && offset < blockSize
      requires Position(blockSize, base, blockIndex, offset) == startOffset + length
      modifies this`blocks, this`length, this`items, blocks
      ensures Owned() && Laid(Cells(), blockSize, base, startOffset, Filled(items))
      ensures items == old(items) + [value] && |blocks| == |old(blocks)| + 1
      ensures forall a :: a in blocks ==> a in old(blocks) || fresh(a)
    {
      GrowLaid(Cells(), blockSize, base, startOffset, items);
      Reach(blockIndex);
      Fill(blockIndex, offset, value);
    }

    method Push(value: T) returns (index: nat)
      requires Valid()
      modifies this, blocks
      ensures Valid() && View() == old(View()).Append(value) && index == old(View()).End()
      ensures index == old(startOffset + length) && startOffset == old(startOffset) && items == old(items) + [value]
      ensures forall a :: a in blocks ==> a in old(blocks) || fresh(a)
    {
      index := length + startOffset;
      var blockIndex, offset := BlockOf(index);
      if blockIndex < |blocks| {
        Fill(blockIndex, offset, value);
        return;
      }
      PushSlow(blockIndex, offset, value);
    }

    // -------------------------------------------------------------- set and get

    /** Overwrites an element of the window. */
    method Write(blockIndex: nat, offset: nat, index: nat, value: T)
      requires Owned() && Laid(Cells(), blockSize, base, startOffset, Filled(items))
      requires blockIndex < |blocks| && offset < blockSize
      requires Position(blockSize, base, blockIndex, offset) == index
      requires startOffset <= index < startOffset + length
      modifies this`items, blocks
      ensures Owned() && Laid(Cells(), blockSize, base, startOffset, Filled(items))
      ensures items == old(items)[index - startOffset := value]
    {
      WriteLaid(Cells(), blockSize, base, startOffset, Filled(items), blockIndex, offset, Some(value));
      Store(blockIndex, offset, Some(value));
      items := items[index - startOffset := value];
      assert Filled(items) == Filled(old(items))[index - startOffset := Some(value)];
    }

    method Set(index: nat, value: T) returns (ok: bool)
      requires Valid()
      modifies this`items, blocks
      ensures Valid()
      ensures ok == old(View()).Has(index) && View() == old(View()).Put(index, value)
      ensures ok <==> startOffset <= index < startOffset + length
      ensures items == if ok then old(items)[index - startOffset := value] else old(items)
    {
      if index >= length + startOffset || index < startOffset {
        return false;
      }
      var blockIndex, offset := BlockOf(index);
      Write(blockIndex, offset, index, value);
      return true;
    }

    method GetWith<R>(index: nat, f: Option<T> -> R) returns (r: R)
      requires Valid()
      ensures r == f(View().At(index))
    {
      if index >= length + startOffset || index < startOffset {
        return f(None);
      }
      var blockIndex, offset := BlockOf(index);
      assert blocks[blockIndex][offset] == Cells()[blockIndex][offset];
      return f(blocks[blockIndex][offset]);
    }

    method Get(index: nat) returns (r: Option<T>)
      requires Valid()
      ensures r == View().At(index)
      ensures r == if startOffset <= index < startOffset + length then Some(items[index - startOffset]) else None
    {
      r := GetWith(index, x => x);
    }

    // -------------------------------------------------------------- remove_before

    /** Removes whole blocks from the front as long as `rest` slots fill one; returns what is left of them. */
    method DropWhole(rest: nat) returns (i: nat, from: nat, ghost d: nat)
      requires blockSize > 0 && rest <= Times(|blocks|, blockSize)
      modifies this`blocks
      ensures d <= |old(blocks)| && blocks == old(blocks)[d..]
      ensures i < blockSize && rest == Times(d, blockSize) + i && (i > 0 ==> d < |old(blocks)|)
      ensures from == if d == 0 then startOffset else 0
    {
      i, from, d := rest, startOffset, 0;
      while i >= blockSize
        invariant 0 <= d <= |old(blocks)| && blocks == old(blocks)[d..]
        invariant i <= Times(|blocks|, blockSize)
        invariant rest == Times(d, blockSize) + i
        invariant from == if d == 0 then startOffset else 0
        decreases i
      {
        blocks := blocks[1..];
        i := i - blockSize;
        from := 0;
        d := d + 1;
      }
    }

    /** Removes the whole blocks that lie below `idx`; returns what is left to clear, and from where. */
    method DropBlocks(idx: nat) returns (i: nat, lo: nat, ghost d: nat)
      requires Owned() && base == Base(blockSize, startOffset)
      requires startOffset <= idx <= Top(blockSize, base, |blocks|)
      modifies this`blocks
      ensures d <= |old(blocks)| && blocks == old(blocks)[d..]
      ensures Owned() && Cells() == old(Cells())[d..]
      ensures i < blockSize && idx == Top(blockSize, base, d) + i
      ensures i > 0 ==> d < |old(blocks)|
      ensures lo == if d == 0 then startOffset - base else 0
      ensures Base(blockSize, idx) == Top(blockSize, base, d)
      ensures Top(blockSize, Base(blockSize, idx), |blocks|) == Top(blockSize, base, |old(blocks)|)
    {
      var from;
      Quotient(startOffset, blockSize);
      i, from, d := DropWhole(idx - (startOffset - startOffset % blockSize));
      lo := from % blockSize;
      NewBase(blockSize, startOffset, |old(blocks)|, idx, d, i);
    }

    /** Clears what is left to clear when `d` whole blocks are gone. */
    method ClearRest(ghost cells: seq<seq<Option<T>>>, idx: nat, ghost d: nat, i: nat, lo: nat, ghost base': nat)
      requires Owned() && d <= |cells| && (i > 0 ==> d < |cells|) && Cells() == cells[d..]
      requires Laid(cells, blockSize, base, startOffset, Filled(items))
      requires startOffset <= idx <= startOffset + length
      requires i < blockSize && idx == base' + i && base' == Top(blockSize, base, d)
      requires base <= startOffset && lo == if d == 0 then startOffset - base else 0
      modifies blocks
      ensures Owned() && Laid(Cells(), blockSize, base', idx, Filled(items)[idx - startOffset..])
    {
      if i > 0 {
        ghost var rest := Cells();
        RemovedPartly(cells, blockSize, base, startOffset, Filled(items), idx, d, i, lo, base', rest);
        Clear(lo, i);
        SameLaid([Cleared(rest[0], lo, i)] + rest[1..], Cells(), blockSize, base', idx,
                 Filled(items)[idx - startOffset..]);
      } else {
        RemovedWhole(cells, blockSize, base, startOffset, Filled(items), idx, d, base');
      }
    }

    /** Frees and clears everything below `idx`. */
    method Discard(idx: nat)
      requires Owned() && base == Base(blockSize, startOffset)
      requires Laid(Cells(), blockSize, base, startOffset, Filled(items))
      requires startOffset <= idx <= startOffset + length <= Top(blockSize, base, |blocks|)
      modifies this`blocks, blocks
      ensures Owned() && Laid(Cells(), blockSize, Base(blockSize, idx), idx, Filled(items)[idx - startOffset..])
      ensures Top(blockSize, Base(blockSize, idx), |blocks|) == old(Top(blockSize, base, |blocks|))
      ensures forall a :: a in blocks ==> a in old(blocks)
    {
      ghost var cells := Cells();
      var i, lo, d := DropBlocks(idx);
      ClearRest(cells, idx, d, i, lo, Base(blockSize, idx));
    }

    method RemoveBefore(idx: nat) returns (ok: bool)
      requires Valid()
      modifies this, blocks
      ensures Valid()
      ensures ok == old(View()).CanDrop(idx) && View() == old(View()).DropBefore(idx)
      ensures ok <==> old(startOffset) <= idx <= old(startOffset + length)
      ensures startOffset == if ok then idx else old(startOffset)
      ensures items == if ok then old(items)[idx - old(startOffset)..] else old(items)
      ensures forall a :: a in blocks ==> a in old(blocks)
    {
      if idx > startOffset + length || idx < startOffset {
        return false;
      }
      Discard(idx);
      assert Filled(items)[idx - startOffset..] == Filled(items[idx - startOffset..]);
      length := length - (idx - startOffset);
      items := items[idx - startOffset..];
      startOffset := idx;
      base := Base(blockSize, idx);
      return true;
    }
  }

  lemma SameLaid<T>(cells: seq<seq<Option<T>>>, cells': seq<seq<Option<T>>>, b: nat, base: nat, start: nat,
                    items: seq<Option<T>>)
    requires cells' == cells && Laid(cells, b, base, start, items)
    ensures Laid(cells', b, base, start, items)
  {
  }

  /** Placing the pushed element when its block is there. */
  lemma PushLaid<T>(cells: seq<seq<Option<T>>>, b: nat, base: nat, start: nat, items: seq<T>, j: nat, o: nat, value: T)
    requires Laid(cells, b, base, start, Filled(items)) && j < |cells| && o < b
    requires Position(b, base, j, o) == start + |items|
    ensures Laid(cells[j := cells[j][o := Some(value)]], b, base, start, Filled(items + [value]))
  {
    ReserveLaid(cells, b, base, start, Filled(items));
    WriteLaid(cells, b, base, start, Filled(items) + [None], j, o, Some(value));
    assert (Filled(items) + [None])[|items| := Some(value)] == Filled(items + [value]);
  }

  /** When its block is not there, one more block makes room. */
  lemma GrowLaid<T>(cells: seq<seq<Option<T>>>, b: nat, base: nat, start: nat, items: seq<T>)
    requires b > 0 && Laid(cells, b, base, start, Filled(items))
    requires start + |items| <= Top(b, base, |cells|)
    ensures Laid(cells + [Empty(b)], b, base, start, Filled(items))
  {
    AllocateLaid(cells, b, base, start, Filled(items));
  }
}
